/** A fragment that is closed under pushing: on it any number of rounds keeps the solutions. */
module FilterPushdownSteady {
  import opened Terms
  import opened PathExprs
  import opened Algebra
  import opened Scopes
  import opened FilterPushdown
  import opened FilterPushdownProof
  import opened ValueSubstitution
  import opened FilterPushdownRun
  import opened FilterPushdownGaps

  /** `eqs` are the variables of the equalities that can be substituted. A filter on several variables keeps clear of
      them: after the substitution its variables would no longer come from the same input. */
  ghost predicate Separate(eqs: set<string>, vars: set<string>) {
    vars != {} && forall x :: x in vars && x in eqs ==> vars == {x}
  }

  /** The variables that a filter is seen to have, and those that it reads. */
  function Needs(cfg: Config, e: Expr): set<string> { ExprVars(cfg, e) + Reads(e) }

  /** A filter with some seen variable; if it is an equality that could be substituted, it holds for the substituted
      term only. */
  ghost predicate Regular(env: Env, cfg: Config, eqs: set<string>, e: Expr) {
    && !IsFalse(e) && ExistsFree(e) && ExprVars(cfg, e) != {} && Separate(eqs, Needs(cfg, e))
    && (EqualityParts(e).Some? ==>
          var (x, t) := EqualityParts(e).value;
          && Needs(cfg, e) == {x} && x in eqs && Vars(t) == {}
          && forall m: Mapping :: x in m ==> (Sat(env, e, m) <==> m[x] == t))
  }

  /** All of `vars` is bound for certain, and every join input binds all of it or has none of it in scope. */
  predicate Firm(vars: set<string>, op: Op)
    decreases op, 1
  {
    match op
    case Nop => false
    case Other(_, _) => false
    case Pattern(quad, _) => vars <= Vars(quad)
    case PathOp(s, p, o, g) => vars <= EndVars(s) + EndVars(o) && g == DefaultGraph && !Nullable(p, true, true)
    case Values(keys, rows) => vars <= keys && forall i :: 0 <= i < |rows| ==> vars <= rows[i].Keys
    case Join(inputs) => FirmSome(vars, inputs) && FirmOrAbsent(vars, inputs)
    case Union(inputs) => inputs != [] && FirmEach(vars, inputs)
    case LeftJoin(l, _, _) => Firm(vars, l)
    case Filter(input, _) => Firm(vars, input)
    case Extend(input, v, _) => v !in vars && Firm(vars, input)
    case Project(input, keep) => vars <= keep && Firm(vars, input)
  }

  predicate FirmSome(vars: set<string>, ops: seq<Op>)
    decreases ops, 0
  {
    ops != [] && (Firm(vars, ops[0]) || FirmSome(vars, ops[1..]))
  }

  predicate Absent(vars: set<string>, op: Op) { vars * InScope(op) == {} }

  predicate FirmOrAbsent(vars: set<string>, ops: seq<Op>)
    decreases ops, 0
  {
    ops == [] || ((Firm(vars, ops[0]) || Absent(vars, ops[0])) && FirmOrAbsent(vars, ops[1..]))
  }

  predicate FirmEach(vars: set<string>, ops: seq<Op>)
    decreases ops, 0
  {
    ops == [] || (Firm(vars, ops[0]) && FirmEach(vars, ops[1..]))
  }

  /** Every filter of the tree is regular, on variables that its input binds firmly. */
  ghost predicate Steady(env: Env, cfg: Config, eqs: set<string>, op: Op)
    decreases op, 1
  {
    match op
    case Filter(input, e) => Steady(env, cfg, eqs, input) && Regular(env, cfg, eqs, e) && Firm(Needs(cfg, e), input)
    case Join(inputs) => SteadyEach(env, cfg, eqs, inputs)
    case Union(inputs) => SteadyEach(env, cfg, eqs, inputs)
    case Other(_, inputs) => SteadyEach(env, cfg, eqs, inputs)
    case LeftJoin(l, r, cond) =>
      Steady(env, cfg, eqs, l) && Steady(env, cfg, eqs, r) && (cond.Some? ==> ExistsFree(cond.value))
    case Extend(input, _, e) => Steady(env, cfg, eqs, input) && ExistsFree(e)
    case Project(input, _) => Steady(env, cfg, eqs, input)
    case _ => true
  }

  ghost predicate SteadyEach(env: Env, cfg: Config, eqs: set<string>, ops: seq<Op>)
    decreases ops, 0
  {
    ops == [] || (Steady(env, cfg, eqs, ops[0]) && SteadyEach(env, cfg, eqs, ops[1..]))
  }

  // ----- firm variables -----

  lemma {:induction false} FirmCertain(vars: set<string>, op: Op)
    requires Firm(vars, op)
    ensures vars <= InScope(op) && vars <= Certain(op)
    decreases op, 1
  {
    match op
    case Pattern(_, _) =>
    case PathOp(_, _, _, _) =>
    case Values(_, _) =>
    case Join(inputs) => FirmSomeCertain(vars, inputs);
    case Union(inputs) => FirmEachCertain(vars, inputs);
    case LeftJoin(l, _, _) => FirmCertain(vars, l);
    case Filter(input, _) => FirmCertain(vars, input);
    case Extend(input, _, _) => FirmCertain(vars, input);
    case Project(input, _) => FirmCertain(vars, input);
  }

  lemma {:induction false} FirmSomeCertain(vars: set<string>, ops: seq<Op>)
    requires FirmSome(vars, ops)
    ensures vars <= InScopeAll(ops) && vars <= CertainAll(ops)
    decreases ops, 0
  {
    if Firm(vars, ops[0]) { FirmCertain(vars, ops[0]); } else { FirmSomeCertain(vars, ops[1..]); }
  }

  lemma {:induction false} FirmEachCertain(vars: set<string>, ops: seq<Op>)
    requires ops != [] && FirmEach(vars, ops)
    ensures vars <= InScopeAll(ops) && vars <= CertainAny(ops)
    decreases ops, 0
  {
    FirmCertain(vars, ops[0]);
    if |ops| > 1 { FirmEachCertain(vars, ops[1..]); }
  }

  lemma {:induction false} FirmEachAt(vars: set<string>, ops: seq<Op>, i: nat)
    requires FirmEach(vars, ops) && i < |ops|
    ensures Firm(vars, ops[i])
  {
    if i > 0 { FirmEachAt(vars, ops[1..], i - 1); }
  }

  lemma {:induction false} FirmEachOrAbsent(vars: set<string>, ops: seq<Op>)
    requires FirmEach(vars, ops)
    ensures FirmOrAbsent(vars, ops)
  {
    if ops != [] { FirmEachOrAbsent(vars, ops[1..]); }
  }

  lemma {:induction false} AbsentEverywhere(vars: set<string>, ops: seq<Op>)
    requires FirmOrAbsent(vars, ops) && !FirmSome(vars, ops)
    ensures vars * InScopeAll(ops) == {}
  {
    if ops != [] { AbsentEverywhere(vars, ops[1..]); }
  }

  lemma {:induction false} AbsentJoin(vars: set<string>, ops: seq<Op>)
    requires vars * InScopeAll(ops) == {}
    ensures FirmOrAbsent(vars, ops)
  {
    if ops != [] {
      assert vars * InScope(ops[0]) <= vars * InScopeAll(ops);
      assert vars * InScopeAll(ops[1..]) <= vars * InScopeAll(ops);
      AbsentJoin(vars, ops[1..]);
    }
  }

  // ----- one push is well-scoped -----

  lemma AllOrNone(cfg: Config, seen: set<string>, vars: set<string>, op: Op)
    requires StandardScope(cfg) && {} != seen <= vars && (Firm(vars, op) || Absent(vars, op))
    ensures OverlapOf(cfg, seen, op) == if Firm(vars, op) then Fully else Not
  {
    assert cfg.scope(op) == InScope(op);
    var x :| x in seen;
    if Firm(vars, op) {
      FirmCertain(vars, op);
    } else {
      assert x !in vars * InScope(op) && seen * InScope(op) <= vars * InScope(op);
    }
  }

  lemma {:induction false} NonePartial(cfg: Config, seen: set<string>, vars: set<string>, ops: seq<Op>)
    requires StandardScope(cfg) && {} != seen <= vars && FirmOrAbsent(vars, ops)
    ensures Those(cfg, seen, ops, Partially) == []
    ensures FirmSome(vars, ops) ==> Those(cfg, seen, ops, Fully) != []
    ensures FirmEach(vars, ops) ==> Those(cfg, seen, ops, Not) == []
    ensures FirmEach(vars, Those(cfg, seen, ops, Fully))
  {
    if ops != [] {
      AllOrNone(cfg, seen, vars, ops[0]);
      NonePartial(cfg, seen, vars, ops[1..]);
      var f := Those(cfg, seen, ops[1..], Fully);
      assert ([ops[0]] + f)[1..] == f;
      assert Those(cfg, seen, ops, Fully) == if Firm(vars, ops[0]) then [ops[0]] + f else f;
    }
  }

  lemma FirmGroupsClosed(cfg: Config, vars: set<string>, few: set<string>, rest: set<string>, ops: seq<Op>)
    requires FirmEach(vars, ops) && few <= vars
    ensures GroupsClosed(cfg, few, rest, Singles(ops))
  {
    SinglesAre(ops);
    forall i | 0 <= i < |ops|
      ensures few <= CertainAll([ops[i]])
    {
      FirmEachAt(vars, ops, i);
      FirmCertain(vars, ops[i]);
      assert CertainAll([ops[i]]) == Certain(ops[i]) + CertainAll([]);
    }
  }

  lemma NeverEmpty(env: Env, s: Term, p: Path, o: Term, v: string, t: Term)
    requires (s == Var(v) || o == Var(v)) && Fixed(t) && !Nullable(p, true, true)
    ensures SamePairs(env, s, p, o, DefaultGraph, DefaultGraph, v, t)
  {
    var s', o' := Replace(v, t, s), Replace(v, t, o);
    NullableWays(p, Fixed(s), Fixed(o));
    NullableWays(p, Fixed(s'), Fixed(o'));
    if Nullable(p, Fixed(s), Fixed(o)) { NullableMore(p, Fixed(s), Fixed(o), true, true); }
    if Nullable(p, Fixed(s'), Fixed(o')) { NullableMore(p, Fixed(s'), Fixed(o'), true, true); }
    PathWaysExact(env, s, p, o, DefaultGraph, v, t);
  }

  lemma {:induction false} FirmWellScoped(env: Env, cfg: Config, eqs: set<string>, e: Expr, op: Op)
    requires StandardScope(cfg) && Regular(env, cfg, eqs, e) && Firm(Needs(cfg, e), op)
    ensures WellScoped(env, cfg, e, op)
    decreases op, 1
  {
    var vars, seen := Needs(cfg, e), ExprVars(cfg, e);
    var x :| x in seen;
    match op
    case Pattern(_, _) =>
    case PathOp(s, p, o, g) =>
      if EqualityParts(e).Some? && (s == Var(EqualityParts(e).value.0) || o == Var(EqualityParts(e).value.0)) {
        EqualityVar(e);
        NeverEmpty(env, s, p, o, EqualityParts(e).value.0, EqualityParts(e).value.1);
      }
    case Values(keys, _) => assert x in keys * seen;
    case Join(inputs) =>
      FirmEachWellScoped(env, cfg, eqs, e, inputs);
      NonePartial(cfg, seen, vars, inputs);
      var f := Those(cfg, seen, inputs, Fully);
      FirmGroupsClosed(cfg, vars, Reads(e), ScopeOf(cfg, Those(cfg, seen, inputs, Not)), f);
      assert FilteredGroups(cfg, seen, inputs) == Singles(f);
    case Union(inputs) =>
      FirmEachOrAbsent(vars, inputs);
      FirmEachWellScoped(env, cfg, eqs, e, inputs);
      NonePartial(cfg, seen, vars, inputs);
    case LeftJoin(l, _, _) =>
      FirmCertain(vars, l);
      FirmWellScoped(env, cfg, eqs, e, l);
    case Filter(input, _) => FirmWellScoped(env, cfg, eqs, e, input);
    case Extend(input, _, _) => FirmWellScoped(env, cfg, eqs, e, input);
    case Project(input, keep) =>
      FirmWellScoped(env, cfg, eqs, e, input);
      assert x in keep * seen;
  }

  lemma {:induction false} FirmEachWellScoped(env: Env, cfg: Config, eqs: set<string>, e: Expr, ops: seq<Op>)
    requires StandardScope(cfg) && Regular(env, cfg, eqs, e) && FirmOrAbsent(Needs(cfg, e), ops)
    ensures WellScopedEach(env, cfg, e, ops)
    decreases ops, 0
  {
    if ops != [] {
      AllOrNone(cfg, ExprVars(cfg, e), Needs(cfg, e), ops[0]);
      if Firm(Needs(cfg, e), ops[0]) { FirmWellScoped(env, cfg, eqs, e, ops[0]); }
      FirmEachWellScoped(env, cfg, eqs, e, ops[1..]);
    }
  }

  // ----- rewriting keeps scopes, firm variables and steadiness -----

  /** `r` has the scope of `op`, all variables firm in `op`, and is steady if `op` is. */
  ghost predicate Keeps(env: Env, cfg: Config, eqs: set<string>, op: Op, r: Op) {
    && InScope(r) == InScope(op)
    && (forall us :: Separate(eqs, us) && Firm(us, op) ==> Firm(us, r))
    && (Steady(env, cfg, eqs, op) ==> Steady(env, cfg, eqs, r))
  }

  /** `op` with its (left) input replaced. */
  function WithInput(op: Op, r: Op): Op {
    match op
    case Filter(_, e) => Filter(r, e)
    case Extend(_, v, e) => Extend(r, v, e)
    case Project(_, keep) => Project(r, keep)
    case LeftJoin(_, right, cond) => LeftJoin(r, right, cond)
    case _ => op
  }

  lemma FirmInside(op: Op, input: Op, r: Op, us: set<string>)
    requires (op.Filter? || op.Extend? || op.Project? || op.LeftJoin?) && WithInput(op, input) == op
    ensures Firm(us, op) ==> Firm(us, input)
    ensures Firm(us, op) && Firm(us, r) ==> Firm(us, WithInput(op, r))
  {
  }

  lemma SteadyInside(env: Env, cfg: Config, eqs: set<string>, op: Op, input: Op, r: Op)
    requires (op.Filter? || op.Extend? || op.Project? || op.LeftJoin?) && WithInput(op, input) == op
    requires Steady(env, cfg, eqs, op) && (Steady(env, cfg, eqs, input) ==> Steady(env, cfg, eqs, r))
    requires forall us :: Separate(eqs, us) && Firm(us, input) ==> Firm(us, r)
    ensures Steady(env, cfg, eqs, WithInput(op, r))
  {
  }

  lemma KeepsInside(env: Env, cfg: Config, eqs: set<string>, op: Op, input: Op, r: Op)
    requires Keeps(env, cfg, eqs, input, r)
    requires (op.Filter? || op.Extend? || op.Project? || op.LeftJoin?) && WithInput(op, input) == op
    ensures Keeps(env, cfg, eqs, op, WithInput(op, r))
  {
    forall us | Separate(eqs, us) && Firm(us, op) ensures Firm(us, WithInput(op, r)) { FirmInside(op, input, r, us); }
    if Steady(env, cfg, eqs, op) { SteadyInside(env, cfg, eqs, op, input, r); }
  }

  ghost predicate KeepsJoin(env: Env, cfg: Config, eqs: set<string>, ops: seq<Op>, rs: seq<Op>) {
    && InScopeAll(rs) == InScopeAll(ops)
    && (forall us :: Separate(eqs, us) && FirmOrAbsent(us, ops) ==>
          FirmOrAbsent(us, rs) && (FirmSome(us, ops) ==> FirmSome(us, rs)))
    && (SteadyEach(env, cfg, eqs, ops) ==> SteadyEach(env, cfg, eqs, rs))
  }

  ghost predicate KeepsUnion(env: Env, cfg: Config, eqs: set<string>, ops: seq<Op>, rs: seq<Op>) {
    && InScopeAll(rs) == InScopeAll(ops)
    && (ops != [] ==> rs != [])
    && (forall us :: Separate(eqs, us) && FirmEach(us, ops) ==> FirmEach(us, rs))
    && (SteadyEach(env, cfg, eqs, ops) ==> SteadyEach(env, cfg, eqs, rs))
  }

  lemma {:induction false} Concats(env: Env, cfg: Config, eqs: set<string>, us: set<string>, ops: seq<Op>,
      more: seq<Op>)
    ensures InScopeAll(ops + more) == InScopeAll(ops) + InScopeAll(more)
    ensures FirmSome(us, ops + more) == (FirmSome(us, ops) || FirmSome(us, more))
    ensures FirmOrAbsent(us, ops + more) == (FirmOrAbsent(us, ops) && FirmOrAbsent(us, more))
    ensures FirmEach(us, ops + more) == (FirmEach(us, ops) && FirmEach(us, more))
    ensures SteadyEach(env, cfg, eqs, ops + more) == (SteadyEach(env, cfg, eqs, ops) && SteadyEach(env, cfg, eqs, more))
  {
    if ops == [] {
      assert ops + more == more;
    } else {
      assert (ops + more)[1..] == ops[1..] + more;
      Concats(env, cfg, eqs, us, ops[1..], more);
    }
  }

  lemma {:induction false} FlattenKeepsJoin(env: Env, cfg: Config, eqs: set<string>, us: set<string>, ops: seq<Op>)
    ensures InScopeAll(FlattenJoin(ops)) == InScopeAll(ops)
    ensures FirmOrAbsent(us, ops) ==> FirmOrAbsent(us, FlattenJoin(ops))
    ensures FirmOrAbsent(us, ops) && FirmSome(us, ops) ==> FirmSome(us, FlattenJoin(ops))
    ensures SteadyEach(env, cfg, eqs, ops) ==> SteadyEach(env, cfg, eqs, FlattenJoin(ops))
  {
    if ops != [] {
      var h, t := ops[0], ops[1..];
      FlattenKeepsJoin(env, cfg, eqs, us, t);
      assert FlattenJoin(ops) == Unnested(h, true) + FlattenJoin(t);
      Concats(env, cfg, eqs, us, Unnested(h, true), FlattenJoin(t));
      UnnestedJoin(env, cfg, eqs, us, h);
    }
  }

  lemma UnnestedJoin(env: Env, cfg: Config, eqs: set<string>, us: set<string>, h: Op)
    ensures InScopeAll(Unnested(h, true)) == InScope(h)
    ensures Firm(us, h) ==> FirmSome(us, Unnested(h, true)) && FirmOrAbsent(us, Unnested(h, true))
    ensures Absent(us, h) ==> FirmOrAbsent(us, Unnested(h, true))
    ensures Steady(env, cfg, eqs, h) ==> SteadyEach(env, cfg, eqs, Unnested(h, true))
  {
    if h.Join? {
      if Absent(us, h) { AbsentJoin(us, h.inputs); }
    } else {
      assert [h][1..] == [];
    }
  }

  lemma UnnestedUnion(env: Env, cfg: Config, eqs: set<string>, us: set<string>, h: Op)
    ensures InScopeAll(Unnested(h, false)) == InScope(h)
    ensures Firm(us, h) ==> FirmEach(us, Unnested(h, false)) && Unnested(h, false) != []
    ensures Steady(env, cfg, eqs, h) ==> SteadyEach(env, cfg, eqs, Unnested(h, false))
  {
    if !h.Union? { assert [h][1..] == []; }
  }

  lemma {:induction false} FlattenKeepsUnion(env: Env, cfg: Config, eqs: set<string>, us: set<string>, ops: seq<Op>)
    ensures InScopeAll(FlattenUnion(ops)) == InScopeAll(ops)
    ensures FirmEach(us, ops) ==> FirmEach(us, FlattenUnion(ops)) && (ops != [] ==> FlattenUnion(ops) != [])
    ensures SteadyEach(env, cfg, eqs, ops) ==> SteadyEach(env, cfg, eqs, FlattenUnion(ops))
  {
    if ops != [] {
      var h, t := ops[0], ops[1..];
      FlattenKeepsUnion(env, cfg, eqs, us, t);
      assert FlattenUnion(ops) == Unnested(h, false) + FlattenUnion(t);
      Concats(env, cfg, eqs, us, Unnested(h, false), FlattenUnion(t));
      UnnestedUnion(env, cfg, eqs, us, h);
    }
  }

  /** What a filter stuck on `op` looks like. */
  lemma StuckKeeps(env: Env, cfg: Config, eqs: set<string>, e: Expr, op: Op)
    requires Regular(env, cfg, eqs, e) && Firm(Needs(cfg, e), op)
    ensures Keeps(env, cfg, eqs, op, Filter(op, e))
  {
  }

  lemma ValueJoinKeeps(env: Env, cfg: Config, eqs: set<string>, leaf: Op, pushed: Op, x: string, t: Term)
    requires (leaf.Pattern? && pushed.Pattern?) || (leaf.PathOp? && pushed.PathOp?)
    requires InScope(pushed) == InScope(leaf) - {x} && x in InScope(leaf) && x in eqs
    requires forall us :: Firm(us, leaf) && x !in us ==> Firm(us, pushed)
    ensures Keeps(env, cfg, eqs, leaf, JoinedWithValue(pushed, x, t))
  {
    var row: Mapping := map[x := t];
    var values := Values({x}, [row]);
    assert [pushed, values][1..] == [values] && [values][1..] == [];
    assert FlattenJoin([values]) == [values];
    assert JoinedWithValue(pushed, x, t) == Join([pushed, values]);
    assert InScope(values) == {x} by { assert RowVars([row]) == row.Keys + RowVars([]); }
    assert InScopeAll([pushed, values]) == InScope(pushed) + InScopeAll([values]);
    Single(env, cfg, eqs, {x}, values);
    forall us | Separate(eqs, us) && Firm(us, leaf)
      ensures Firm(us, Join([pushed, values]))
    {
      assert FirmSome(us, [pushed, values]) == (Firm(us, pushed) || FirmSome(us, [values]));
      if x in us { assert us == {x} && Firm(us, values) && Absent(us, pushed); } else { assert Absent(us, values); }
      assert FirmOrAbsent(us, [values]);
    }
  }

  lemma {:induction false} PushKeeps(env: Env, cfg: Config, eqs: set<string>, e: Expr, op: Op)
    requires StandardScope(cfg) && Regular(env, cfg, eqs, e) && Firm(Needs(cfg, e), op)
    ensures Keeps(env, cfg, eqs, op, Pushdown(cfg, e, op).1)
    decreases op, 1
  {
    var x :| x in ExprVars(cfg, e);
    match op
    case Pattern(quad, src) => PatternKeeps(env, cfg, eqs, e, quad, src);
    case PathOp(s, p, o, g) => PathKeeps(env, cfg, eqs, e, s, p, o, g);
    case Values(keys, _) =>
      assert x in keys * ExprVars(cfg, e);
      StuckKeeps(env, cfg, eqs, e, op);
    case Join(inputs) => JoinKeeps(env, cfg, eqs, e, inputs);
    case Union(inputs) => UnionKeeps(env, cfg, eqs, e, inputs);
    case LeftJoin(l, r, _) =>
      PushKeeps(env, cfg, eqs, e, l);
      KeepsInside(env, cfg, eqs, op, l, Pushdown(cfg, e, l).1);
      StuckKeeps(env, cfg, eqs, e, op);
    case Filter(input, _) =>
      PushKeeps(env, cfg, eqs, e, input);
      KeepsInside(env, cfg, eqs, op, input, Pushdown(cfg, e, input).1);
    case Extend(input, _, _) =>
      PushKeeps(env, cfg, eqs, e, input);
      KeepsInside(env, cfg, eqs, op, input, Pushdown(cfg, e, input).1);
    case Project(input, keep) =>
      PushKeeps(env, cfg, eqs, e, input);
      assert x in keep * ExprVars(cfg, e);
      KeepsInside(env, cfg, eqs, op, input, Pushdown(cfg, e, input).1);
  }

  lemma PatternKeeps(env: Env, cfg: Config, eqs: set<string>, e: Expr, quad: Term, src: Option<nat>)
    requires Regular(env, cfg, eqs, e) && Needs(cfg, e) <= Vars(quad)
    ensures Keeps(env, cfg, eqs, Pattern(quad, src), Pushdown(cfg, e, Pattern(quad, src)).1)
  {
    var op := Pattern(quad, src);
    if cfg.pushEqualityIntoPatterns && EqualityParts(e).Some? {
      var (x, t) := EqualityParts(e).value;
      SubstVars(map[x := t], quad);
      ValueJoinKeeps(env, cfg, eqs, op, Pattern(Subst(map[x := t], quad), src), x, t);
    } else {
      StuckKeeps(env, cfg, eqs, e, op);
    }
  }

  lemma PathKeeps(env: Env, cfg: Config, eqs: set<string>, e: Expr, s: Term, p: Path, o: Term, g: Term)
    requires Regular(env, cfg, eqs, e) && Firm(Needs(cfg, e), PathOp(s, p, o, g))
    ensures Keeps(env, cfg, eqs, PathOp(s, p, o, g), Pushdown(cfg, e, PathOp(s, p, o, g)).1)
  {
    var op := PathOp(s, p, o, g);
    if cfg.pushEqualityIntoPatterns && EqualityParts(e).Some? {
      var (x, t) := EqualityParts(e).value;
      EqualityVar(e);
      assert s == Var(x) || o == Var(x);
      ValueJoinKeeps(env, cfg, eqs, op, PathOp(Replace(x, t, s), p, Replace(x, t, o), DefaultGraph), x, t);
    } else {
      StuckKeeps(env, cfg, eqs, e, op);
    }
  }

  /** Pushing into the inputs that have the variables and leaving the others keeps the lot. */
  lemma {:induction false} PushedInputsKeep(env: Env, cfg: Config, eqs: set<string>, e: Expr, ops: seq<Op>,
      us: set<string>)
    requires StandardScope(cfg) && Regular(env, cfg, eqs, e) && FirmOrAbsent(Needs(cfg, e), ops) && Separate(eqs, us)
    ensures (var f, n := PushIntoFully(cfg, e, ops), Those(cfg, ExprVars(cfg, e), ops, Not);
             && InScopeAll(f) + InScopeAll(n) == InScopeAll(ops)
             && (FirmOrAbsent(us, ops) ==> FirmOrAbsent(us, f) && FirmOrAbsent(us, n))
             && (FirmSome(us, ops) ==> FirmSome(us, f) || FirmSome(us, n))
             && (FirmEach(us, ops) ==> FirmEach(us, f))
             && (SteadyEach(env, cfg, eqs, ops) ==> SteadyEach(env, cfg, eqs, f) && SteadyEach(env, cfg, eqs, n))
             && (FirmSome(Needs(cfg, e), ops) ==> f != []))
    decreases ops, 0
  {
    if ops != [] {
      var vars, seen, h, t := Needs(cfg, e), ExprVars(cfg, e), ops[0], ops[1..];
      PushedInputsKeep(env, cfg, eqs, e, t, us);
      AllOrNone(cfg, seen, vars, h);
      var f, n := PushIntoFully(cfg, e, t), Those(cfg, seen, t, Not);
      if Firm(vars, h) {
        PushKeeps(env, cfg, eqs, e, h);
        var h' := Pushdown(cfg, e, h).1;
        assert PushIntoFully(cfg, e, ops) == [h'] + f;
        assert Those(cfg, seen, ops, Not) == n;
        Concats(env, cfg, eqs, us, [h'], f);
        Single(env, cfg, eqs, us, h');
      } else {
        assert PushIntoFully(cfg, e, ops) == f;
        assert Those(cfg, seen, ops, Not) == [h] + n;
        Concats(env, cfg, eqs, us, [h], n);
        Single(env, cfg, eqs, us, h);
      }
    }
  }

  lemma Single(env: Env, cfg: Config, eqs: set<string>, us: set<string>, op: Op)
    ensures InScopeAll([op]) == InScope(op)
    ensures FirmSome(us, [op]) == FirmEach(us, [op]) == Firm(us, op)
    ensures FirmOrAbsent(us, [op]) == (Firm(us, op) || Absent(us, op))
    ensures SteadyEach(env, cfg, eqs, [op]) == Steady(env, cfg, eqs, op)
  {
    assert [op][1..] == [];
    assert InScopeAll([op]) == InScope(op) + InScopeAll([]);
  }

  lemma CreateJoinKeeps(env: Env, cfg: Config, eqs: set<string>, us: set<string>, ops: seq<Op>)
    ensures InScope(CreateJoin(ops)) == InScopeAll(ops)
    ensures FirmOrAbsent(us, ops) && FirmSome(us, ops) ==> Firm(us, CreateJoin(ops))
    ensures FirmOrAbsent(us, ops) ==> Firm(us, CreateJoin(ops)) || Absent(us, CreateJoin(ops))
    ensures SteadyEach(env, cfg, eqs, ops) ==> Steady(env, cfg, eqs, CreateJoin(ops))
  {
    FlattenKeepsJoin(env, cfg, eqs, us, ops);
    if FirmOrAbsent(us, ops) && !FirmSome(us, ops) { AbsentEverywhere(us, ops); }
  }

  lemma {:induction false} JoinsKeep(
    env: Env, cfg: Config, eqs: set<string>, e: Expr, inputs: seq<Op>, joins: seq<Op>, us: set<string>)
    requires StandardScope(cfg) && Regular(env, cfg, eqs, e) && FirmOrAbsent(Needs(cfg, e), inputs) && Separate(eqs, us)
    requires joins == [CreateJoin(PushIntoFully(cfg, e, inputs))] + Those(cfg, ExprVars(cfg, e), inputs, Not)
    ensures InScopeAll(joins) == InScopeAll(inputs)
    ensures Firm(us, Join(inputs)) ==> FirmSome(us, joins) && FirmOrAbsent(us, joins)
    ensures SteadyEach(env, cfg, eqs, inputs) ==> SteadyEach(env, cfg, eqs, joins)
    decreases inputs, 1
  {
    var f, n := PushIntoFully(cfg, e, inputs), Those(cfg, ExprVars(cfg, e), inputs, Not);
    PushedInputsKeep(env, cfg, eqs, e, inputs, us);
    CreateJoinKeeps(env, cfg, eqs, us, f);
    Concats(env, cfg, eqs, us, [CreateJoin(f)], n);
    Single(env, cfg, eqs, us, CreateJoin(f));
  }

  /** One input is taken as it is, several make a new join. */
  lemma RebuiltKeeps(env: Env, cfg: Config, eqs: set<string>, us: set<string>, ops: seq<Op>)
    ensures (var r := if |ops| == 1 then ops[0] else CreateJoin(ops);
             && InScope(r) == InScopeAll(ops)
             && (FirmOrAbsent(us, ops) && FirmSome(us, ops) ==> Firm(us, r))
             && (SteadyEach(env, cfg, eqs, ops) ==> Steady(env, cfg, eqs, r)))
  {
    CreateJoinKeeps(env, cfg, eqs, us, ops);
    if |ops| == 1 {
      assert ops == [ops[0]];
      Single(env, cfg, eqs, us, ops[0]);
    }
  }

  lemma {:induction false} JoinKeeps(env: Env, cfg: Config, eqs: set<string>, e: Expr, inputs: seq<Op>)
    requires StandardScope(cfg) && Regular(env, cfg, eqs, e) && Firm(Needs(cfg, e), Join(inputs))
    ensures Keeps(env, cfg, eqs, Join(inputs), Pushdown(cfg, e, Join(inputs)).1)
    decreases inputs, 2
  {
    var vars, seen := Needs(cfg, e), ExprVars(cfg, e);
    NonePartial(cfg, seen, vars, inputs);
    PushedInputsKeep(env, cfg, eqs, e, inputs, vars);
    var joins := [CreateJoin(PushIntoFully(cfg, e, inputs))] + Those(cfg, seen, inputs, Not);
    var r := if |joins| == 1 then joins[0] else CreateJoin(joins);
    assert Pushdown(cfg, e, Join(inputs)).1 == r;
    JoinsKeep(env, cfg, eqs, e, inputs, joins, vars);
    RebuiltKeeps(env, cfg, eqs, vars, joins);
    forall us | Separate(eqs, us) && Firm(us, Join(inputs))
      ensures Firm(us, r)
    {
      JoinsKeep(env, cfg, eqs, e, inputs, joins, us);
      RebuiltKeeps(env, cfg, eqs, us, joins);
    }
  }

  lemma {:induction false} UnionKeeps(env: Env, cfg: Config, eqs: set<string>, e: Expr, inputs: seq<Op>)
    requires StandardScope(cfg) && Regular(env, cfg, eqs, e) && Firm(Needs(cfg, e), Union(inputs))
    ensures Keeps(env, cfg, eqs, Union(inputs), Pushdown(cfg, e, Union(inputs)).1)
    decreases inputs, 1
  {
    var vars, seen, f := Needs(cfg, e), ExprVars(cfg, e), PushIntoFully(cfg, e, inputs);
    FirmEachOrAbsent(vars, inputs);
    NonePartial(cfg, seen, vars, inputs);
    assert FirmSome(vars, inputs);
    PushedInputsKeep(env, cfg, eqs, e, inputs, vars);
    assert Pushdown(cfg, e, Union(inputs)).1 == CreateUnion(f);
    FlattenKeepsUnion(env, cfg, eqs, vars, f);
    forall us | Separate(eqs, us) && Firm(us, Union(inputs))
      ensures Firm(us, CreateUnion(f))
    {
      PushedInputsKeep(env, cfg, eqs, e, inputs, us);
      FlattenKeepsUnion(env, cfg, eqs, us, f);
    }
  }

  // ----- rounds -----

  lemma ListKeeps(env: Env, cfg: Config, eqs: set<string>, kind: string, ops: seq<Op>, rs: seq<Op>)
    requires KeepsJoin(env, cfg, eqs, ops, rs) && KeepsUnion(env, cfg, eqs, ops, rs)
    ensures Keeps(env, cfg, eqs, Join(ops), Join(rs)) && Keeps(env, cfg, eqs, Union(ops), Union(rs))
    ensures Keeps(env, cfg, eqs, Other(kind, ops), Other(kind, rs))
  {
  }

  lemma BothKeep(env: Env, cfg: Config, eqs: set<string>, l: Op, r: Op, l': Op, r': Op, cond: Option<Expr>)
    requires Keeps(env, cfg, eqs, l, l') && Keeps(env, cfg, eqs, r, r')
    ensures Keeps(env, cfg, eqs, LeftJoin(l, r, cond), LeftJoin(l', r', cond))
  {
  }

  /** A filter that is pushed, or not, after its input has been rewritten. */
  lemma FilterRound(env: Env, cfg: Config, eqs: set<string>, input: Op, e: Expr, input': Op)
    requires StandardScope(cfg) && Steady(env, cfg, eqs, Filter(input, e)) && Keeps(env, cfg, eqs, input, input')
    ensures WellScoped(env, cfg, e, input')
    ensures Keeps(env, cfg, eqs, Filter(input, e), Filter(input', e))
    ensures Keeps(env, cfg, eqs, Filter(input, e), Pushdown(cfg, e, input').1)
  {
    assert Firm(Needs(cfg, e), input');
    FirmWellScoped(env, cfg, eqs, e, input');
    KeepsInside(env, cfg, eqs, Filter(input, e), input, input');
    PushKeeps(env, cfg, eqs, e, input');
    UnderFilter(env, cfg, eqs, input, e, Pushdown(cfg, e, input').1);
  }

  lemma UnderFilter(env: Env, cfg: Config, eqs: set<string>, input: Op, e: Expr, r: Op)
    requires InScope(r) == InScope(input) && (Steady(env, cfg, eqs, Filter(input, e)) ==> Steady(env, cfg, eqs, r))
    requires forall us :: Separate(eqs, us) && Firm(us, input) ==> Firm(us, r)
    ensures Keeps(env, cfg, eqs, Filter(input, e), r)
  {
  }

  lemma {:induction false} RoundKeeps(env: Env, cfg: Config, eqs: set<string>, op: Op)
    requires StandardScope(cfg) && Steady(env, cfg, eqs, op)
    ensures RoundScoped(env, cfg, op)
    ensures Keeps(env, cfg, eqs, op, PushRound(cfg, op).1)
    decreases op, 1
  {
    match op
    case Filter(input, e) =>
      RoundKeeps(env, cfg, eqs, input);
      FilterRound(env, cfg, eqs, input, e, PushRound(cfg, input).1);
    case Join(inputs) =>
      RoundKeepsEach(env, cfg, eqs, inputs);
      ListKeeps(env, cfg, eqs, "", inputs, PushRoundEach(cfg, inputs).1);
    case Union(inputs) =>
      RoundKeepsEach(env, cfg, eqs, inputs);
      ListKeeps(env, cfg, eqs, "", inputs, PushRoundEach(cfg, inputs).1);
    case Other(kind, inputs) =>
      RoundKeepsEach(env, cfg, eqs, inputs);
      ListKeeps(env, cfg, eqs, kind, inputs, PushRoundEach(cfg, inputs).1);
    case LeftJoin(l, r, cond) =>
      RoundKeeps(env, cfg, eqs, l);
      RoundKeeps(env, cfg, eqs, r);
      BothKeep(env, cfg, eqs, l, r, PushRound(cfg, l).1, PushRound(cfg, r).1, cond);
    case Extend(input, _, _) =>
      RoundKeeps(env, cfg, eqs, input);
      KeepsInside(env, cfg, eqs, op, input, PushRound(cfg, input).1);
    case Project(input, _) =>
      RoundKeeps(env, cfg, eqs, input);
      KeepsInside(env, cfg, eqs, op, input, PushRound(cfg, input).1);
    case _ =>
  }

  lemma {:induction false} RoundKeepsEach(env: Env, cfg: Config, eqs: set<string>, ops: seq<Op>)
    requires StandardScope(cfg) && SteadyEach(env, cfg, eqs, ops)
    ensures RoundScopedEach(env, cfg, ops)
    ensures KeepsJoin(env, cfg, eqs, ops, PushRoundEach(cfg, ops).1)
    ensures KeepsUnion(env, cfg, eqs, ops, PushRoundEach(cfg, ops).1)
    decreases ops, 0
  {
    if ops != [] {
      RoundKeeps(env, cfg, eqs, ops[0]);
      RoundKeepsEach(env, cfg, eqs, ops[1..]);
    }
  }

  lemma {:induction false} SteadyNoExists(env: Env, cfg: Config, eqs: set<string>, op: Op)
    requires Steady(env, cfg, eqs, op)
    ensures NoExists(op)
    decreases op, 1
  {
    match op
    case Join(inputs) => SteadyEachNoExists(env, cfg, eqs, inputs);
    case Union(inputs) => SteadyEachNoExists(env, cfg, eqs, inputs);
    case Other(_, inputs) => SteadyEachNoExists(env, cfg, eqs, inputs);
    case LeftJoin(l, r, _) =>
      SteadyNoExists(env, cfg, eqs, l);
      SteadyNoExists(env, cfg, eqs, r);
    case Filter(input, _) => SteadyNoExists(env, cfg, eqs, input);
    case Extend(input, _, _) => SteadyNoExists(env, cfg, eqs, input);
    case Project(input, _) => SteadyNoExists(env, cfg, eqs, input);
    case _ =>
  }

  lemma {:induction false} SteadyEachNoExists(env: Env, cfg: Config, eqs: set<string>, ops: seq<Op>)
    requires SteadyEach(env, cfg, eqs, ops)
    ensures NoExistsEach(ops)
    decreases ops, 0
  {
    if ops != [] {
      SteadyNoExists(env, cfg, eqs, ops[0]);
      SteadyEachNoExists(env, cfg, eqs, ops[1..]);
      assert forall i :: 1 <= i < |ops| ==> ops[i] == ops[1..][i - 1];
    }
  }

  lemma {:induction false} SteadyRounds(env: Env, cfg: Config, eqs: set<string>, op: Op, n: nat)
    requires StandardScope(cfg) && Steady(env, cfg, eqs, op)
    ensures RoundsScoped(env, cfg, op, n)
    decreases n
  {
    SteadyNoExists(env, cfg, eqs, op);
    if n > 0 {
      RoundKeeps(env, cfg, eqs, op);
      SteadyRounds(env, cfg, eqs, PushRound(cfg, op).1, n - 1);
    }
  }

  /** On the steady fragment the optimizer keeps the solutions, however many rounds it makes. */
  lemma SteadyOptimized(env: Env, cfg: Config, eqs: set<string>, op: Op)
    requires StandardScope(cfg) && !OthersInvent(env)
    requires cfg.splitConjunctive ==> BinaryConjunctions(op)
    requires Steady(env, cfg, eqs, if cfg.splitConjunctive then SplitAll(op) else op)
    ensures Eval(env, Optimized(cfg, op)) == Eval(env, op)
  {
    forall o: Op ensures ScopedAt(env, cfg, o) { InScopeSound(env, o); }
    SteadyRounds(env, cfg, eqs, if cfg.splitConjunctive then SplitAll(op) else op, cfg.maxIterations);
    OptimizedSound(env, cfg, op);
  }
}
