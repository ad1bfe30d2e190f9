/** Filter pushdown keeps the solution multiset on the well-scoped fragment. */
module FilterPushdownProof {
  import opened Terms
  import opened PathExprs
  import opened Bags
  import opened Joins
  import opened JoinGroups
  import opened Algebra
  import opened FilterPushdown
  import opened ValueSubstitution

  /** The assumption on the external scope computation: it lists every variable a solution can bind. */
  ghost predicate ScopeSound(env: Env, cfg: Config) {
    forall op :: ScopedAt(env, cfg, op)
  }

  ghost predicate ScopedAt(env: Env, cfg: Config, op: Op) {
    Within(Eval(env, op), cfg.scope(op))
  }

  /** The filter accepts every solution that binds variables of `may` only, so that it can be dropped there. */
  ghost predicate Accepts(env: Env, e: Expr, may: set<string>) {
    forall m: Mapping :: m.Keys <= may ==> Sat(env, e, m)
  }

  function ScopeOf(cfg: Config, ops: seq<Op>): set<string> {
    if ops == [] then {} else cfg.scope(ops[0]) + ScopeOf(cfg, ops[1..])
  }

  /** The parts of a join that get the filter: each fully overlapping input, and the partially overlapping
      ones together. */
  function FilteredGroups(cfg: Config, vars: set<string>, inputs: seq<Op>): seq<seq<Op>> {
    Singles(Those(cfg, vars, inputs, Fully))
    + (var p := Those(cfg, vars, inputs, Partially); if p != [] then [p] else [])
  }

  function Singles(ops: seq<Op>): seq<seq<Op>> {
    if ops == [] then [] else [[ops[0]]] + Singles(ops[1..])
  }

  /** A group binds the variables that one of its inputs binds for certain, and those in scope of any of them. */
  function Shapes(cfg: Config, groups: seq<seq<Op>>): seq<Shape> {
    seq(|groups|, i requires 0 <= i < |groups| => Shape(CertainAll(groups[i]), ScopeOf(cfg, groups[i])))
  }

  /** Whatever a filtered group may leave open of the filter's variables is out of scope in `rest` and in all
      other groups. */
  predicate GroupsClosed(cfg: Config, vars: set<string>, rest: set<string>, groups: seq<seq<Op>>) {
    Closed(vars, rest, Shapes(cfg, groups))
  }

  /** What the caller owes for a join, once its fully overlapping inputs are dealt with. The split follows the variables
      that the optimizer sees; what has to be closed are the variables that the filter reads. */
  ghost predicate JoinClosed(env: Env, cfg: Config, e: Expr, inputs: seq<Op>) {
    var vars := ExprVars(cfg, e);
    var groups := FilteredGroups(cfg, vars, inputs);
    var rest := ScopeOf(cfg, Those(cfg, vars, inputs, Not));
    if groups == [] then Accepts(env, e, rest) else GroupsClosed(cfg, Reads(e), rest, groups)
  }

  /** The conditions under which pushing `e` into `op` keeps the solutions, following the pushdown down the
      tree: the pushdown goes by the variables that it sees, the conditions by those that the filter reads. Wherever
      the pushdown drops the filter because no seen variable overlaps, the filter has to accept whatever is there. */
  ghost predicate WellScoped(env: Env, cfg: Config, e: Expr, op: Op)
    decreases op, 1
  {
    var vars := ExprVars(cfg, e);
    if IsFalse(e) then !Sat(env, e, map[])
    else if e.Exists? then true
    else ExistsFree(e) && match op
      case Extend(input, v, _) => v in vars || (v !in Reads(e) && WellScoped(env, cfg, e, input))
      case Filter(input, _) => WellScoped(env, cfg, e, input)
      case Join(inputs) =>
        inputs == [] ||
        (&& WellScopedEach(env, cfg, e, inputs)
         && JoinClosed(env, cfg, e, inputs))
      case Nop => Accepts(env, e, {})
      case Project(input, keep) =>
        if keep * vars != {} then Reads(e) * cfg.scope(input) <= keep && WellScoped(env, cfg, e, input)
        else Accepts(env, e, keep)
      case Union(inputs) =>
        var rest := Those(cfg, vars, inputs, Not);
        && WellScopedEach(env, cfg, e, inputs)
        && (rest == [] || Accepts(env, e, ScopeOf(cfg, rest)))
      case Values(keys, rows) =>
        keys * vars != {} || (Accepts(env, e, keys) && forall i :: 0 <= i < |rows| ==> rows[i].Keys <= keys)
      case LeftJoin(l, r, _) =>
        (cfg.pushIntoLeftJoins && vars * cfg.scope(r) == {}) ==>
          Reads(e) * cfg.scope(r) <= Certain(l) && WellScoped(env, cfg, e, l)
      case Pattern(quad, src) =>
        var eq := EqualityParts(e);
        (cfg.pushEqualityIntoPatterns && eq.Some? && eq.value.0 in Vars(quad)) ==>
          (&& Vars(eq.value.1) == {}
           && EqualsOnly(env, e, eq.value.0, eq.value.1, Eval(env, op)))
      case PathOp(s, p, o, g) =>
        var eq := EqualityParts(e);
        (cfg.pushEqualityIntoPatterns && eq.Some? && (s == Var(eq.value.0) || o == Var(eq.value.0))) ==>
          (var (v, t) := eq.value;
           && EqualsOnly(env, e, v, t, Eval(env, op))
           && SamePairs(env, s, p, o, g, DefaultGraph, v, t))
      case Other(_, _) => true
  }

  ghost predicate WellScopedEach(env: Env, cfg: Config, e: Expr, inputs: seq<Op>)
    decreases inputs, 0
  {
    inputs == [] ||
    (&& (OverlapOf(cfg, ExprVars(cfg, e), inputs[0]) == Fully ==> WellScoped(env, cfg, e, inputs[0]))
     && WellScopedEach(env, cfg, e, inputs[1..]))
  }

  // ----- flattening and regrouping -----

  lemma ThoseStep(env: Env, cfg: Config, vars: set<string>, h: Op, t: seq<Op>, kind: Overlap)
    ensures JoinOf(env, Those(cfg, vars, [h] + t, kind))
            == (var rest := JoinOf(env, Those(cfg, vars, t, kind));
                if OverlapOf(cfg, vars, h) == kind then JoinBag(Eval(env, h), rest) else rest)
    ensures UnionOf(env, Those(cfg, vars, [h] + t, kind))
            == (if OverlapOf(cfg, vars, h) == kind then Eval(env, h) else multiset{})
               + UnionOf(env, Those(cfg, vars, t, kind))
  {
    var rest := Those(cfg, vars, t, kind);
    assert ([h] + t)[1..] == t;
    if OverlapOf(cfg, vars, h) == kind {
      OfCons(env, h, rest);
    } else {
      assert Those(cfg, vars, [h] + t, kind) == rest;
    }
  }

  /** Joining is indifferent to sorting the inputs by overlap. */
  lemma {:induction false} JoinByOverlap(env: Env, cfg: Config, vars: set<string>, inputs: seq<Op>)
    ensures JoinOf(env, inputs)
            == JoinBag(JoinOf(env, Those(cfg, vars, inputs, Not)),
                       JoinBag(JoinOf(env, Those(cfg, vars, inputs, Fully)),
                               JoinOf(env, Those(cfg, vars, inputs, Partially))))
  {
    if inputs == [] {
      OfNone(env);
      JoinUnit(Unit);
    } else {
      var h, t := inputs[0], inputs[1..];
      JoinByOverlap(env, cfg, vars, t);
      assert inputs == [h] + t;
      OfCons(env, h, t);
      ThoseStep(env, cfg, vars, h, t, Not);
      ThoseStep(env, cfg, vars, h, t, Fully);
      ThoseStep(env, cfg, vars, h, t, Partially);
      var n, f, p := JoinOf(env, Those(cfg, vars, t, Not)), JoinOf(env, Those(cfg, vars, t, Fully)),
        JoinOf(env, Those(cfg, vars, t, Partially));
      match OverlapOf(cfg, vars, h)
      case Not => JoinAssoc(Eval(env, h), n, JoinBag(f, p));
      case Fully =>
        JoinRotate(Eval(env, h), n, JoinBag(f, p));
        JoinAssoc(Eval(env, h), f, p);
      case Partially =>
        JoinRotate(Eval(env, h), n, JoinBag(f, p));
        JoinRotate(Eval(env, h), f, p);
    }
  }

  lemma SplitOff(h: Bag, kind: Overlap, f: Bag, p: Bag, n: Bag)
    ensures h + (f + p + n)
            == ((if kind == Fully then h else multiset{}) + f) + ((if kind == Partially then h else multiset{}) + p)
               + ((if kind == Not then h else multiset{}) + n)
  {
  }

  lemma {:induction false} UnionByOverlap(env: Env, cfg: Config, vars: set<string>, inputs: seq<Op>)
    ensures UnionOf(env, inputs)
            == UnionOf(env, Those(cfg, vars, inputs, Fully))
               + UnionOf(env, Those(cfg, vars, inputs, Partially))
               + UnionOf(env, Those(cfg, vars, inputs, Not))
  {
    if inputs == [] {
      OfNone(env);
    } else {
      var h, t := inputs[0], inputs[1..];
      UnionByOverlap(env, cfg, vars, t);
      assert inputs == [h] + t;
      OfCons(env, h, t);
      ThoseStep(env, cfg, vars, h, t, Fully);
      ThoseStep(env, cfg, vars, h, t, Partially);
      ThoseStep(env, cfg, vars, h, t, Not);
      SplitOff(Eval(env, h), OverlapOf(cfg, vars, h), UnionOf(env, Those(cfg, vars, t, Fully)),
               UnionOf(env, Those(cfg, vars, t, Partially)), UnionOf(env, Those(cfg, vars, t, Not)));
    }
  }

  // ----- scopes -----

  lemma {:induction false} ScopeOfSound(env: Env, cfg: Config, ops: seq<Op>)
    requires ScopeSound(env, cfg)
    ensures Within(JoinOf(env, ops), ScopeOf(cfg, ops))
    ensures Within(UnionOf(env, ops), ScopeOf(cfg, ops))
  {
    if ops == [] {
      OfNone(env);
    } else {
      ScopeOfSound(env, cfg, ops[1..]);
      assert ScopedAt(env, cfg, ops[0]);
      assert ops == [ops[0]] + ops[1..];
      OfCons(env, ops[0], ops[1..]);
      JoinTyped(Eval(env, ops[0]), {}, cfg.scope(ops[0]), JoinOf(env, ops[1..]), {}, ScopeOf(cfg, ops[1..]));
    }
  }

  /** None of the variables of `may` makes a difference to a filter that reads none of them. */
  lemma UnreadSat(env: Env, e: Expr, may: set<string>, m: Mapping)
    requires ExistsFree(e) && Reads(e) * may == {} && m.Keys <= may
    ensures Sat(env, e, m) == Sat(env, e, map[])
  {
    SatReads(env, e, Reads(e));
    forall x | x in Reads(e) ensures x !in m { assert x !in Reads(e) * may; }
    assert Agree(m, map[], Reads(e));
    assert SatP(env, e)(m) == SatP(env, e)(map[]);
  }

  /** A filter that reads nothing in scope accepts everything there if it accepts the empty solution. */
  lemma AcceptsUnread(env: Env, e: Expr, may: set<string>)
    requires ExistsFree(e) && Reads(e) * may == {}
    ensures Accepts(env, e, may) <==> Sat(env, e, map[])
  {
    forall m: Mapping | m.Keys <= may { UnreadSat(env, e, may, m); }
    var none: Mapping := map[];
    assert none.Keys <= may;
  }

  lemma AcceptsSelect(env: Env, e: Expr, b: Bag, may: set<string>)
    requires Accepts(env, e, may) && Within(b, may)
    ensures Select(b, SatP(env, e)) == b
  {
    SelectAll(b, SatP(env, e));
  }

  // ----- joins -----

  ghost function GroupBags(env: Env, groups: seq<seq<Op>>): seq<Bag> {
    seq(|groups|, i requires 0 <= i < |groups| => JoinOf(env, groups[i]))
  }

  lemma GroupsShaped(env: Env, cfg: Config, groups: seq<seq<Op>>)
    requires ScopeSound(env, cfg)
    ensures Shaped(GroupBags(env, groups), Shapes(cfg, groups))
  {
    forall i | 0 <= i < |groups|
      ensures Binds(JoinOf(env, groups[i]), CertainAll(groups[i]))
              && Within(JoinOf(env, groups[i]), ScopeOf(cfg, groups[i]))
    {
      CertainAllSound(env, groups[i]);
      ScopeOfSound(env, cfg, groups[i]);
    }
  }

  // ----- the pushdown, case by case -----

  lemma EqualityVar(e: Expr)
    requires EqualityParts(e).Some?
    ensures Fixed(EqualityParts(e).value.1)
  {
  }

  lemma ExtendSelect(env: Env, p: Mapping -> bool, b: Bag, v: string, x: Expr, vars: set<string>)
    requires ReadsOnly(p, vars) && v !in vars
    ensures Select(Bind(b, ExtendRow(env, v, x)), p) == Bind(Select(b, p), ExtendRow(env, v, x))
  {
    forall m, n | m in b && n in ExtendRow(env, v, x)(m) ensures p(n) == p(m) { assert Agree(n, m, vars); }
    SelectBind(b, ExtendRow(env, v, x), p, p);
  }

  lemma ProjectSelect(p: Mapping -> bool, b: Bag, keep: set<string>, vars: set<string>, may: set<string>)
    requires ReadsOnly(p, vars) && Within(b, may) && vars * may <= keep
    ensures Select(Bind(b, ProjectRow(keep)), p) == Bind(Select(b, p), ProjectRow(keep))
  {
    forall m, n | m in b && n in ProjectRow(keep)(m)
      ensures p(n) == p(m)
    {
      forall x | x in vars && x in m ensures x in keep { assert x in vars * may; }
      assert Agree(n, m, vars);
    }
    SelectBind(b, ProjectRow(keep), p, p);
  }

  lemma ProjectWithin(b: Bag, keep: set<string>)
    ensures Within(Bind(b, ProjectRow(keep)), keep)
  {
    forall m | m in Bind(b, ProjectRow(keep)) ensures m.Keys <= keep {
      BindIn(b, ProjectRow(keep), m);
    }
  }

  lemma {:induction false} SinglesAre(ops: seq<Op>)
    ensures |Singles(ops)| == |ops| && forall i :: 0 <= i < |ops| ==> Singles(ops)[i] == [ops[i]]
  {
    if ops != [] { SinglesAre(ops[1..]); }
  }

  lemma SinglesBags(env: Env, ops: seq<Op>)
    ensures GroupBags(env, Singles(ops)) == EvalAll(env, ops)
  {
    SinglesAre(ops);
    forall i | 0 <= i < |ops| ensures JoinOf(env, [ops[i]]) == Eval(env, ops[i]) { OfOne(env, ops[i]); }
  }

  ghost function SelectedIfAny(env: Env, ops: seq<Op>, p: Mapping -> bool): Bag {
    if ops == [] then Unit else Select(JoinOf(env, ops), p)
  }

  /** The join of all filtered groups, before and after each got the filter. */
  lemma FilteredGroupsJoin(env: Env, cfg: Config, vars: set<string>, inputs: seq<Op>, p: Mapping -> bool)
    ensures JoinAll(GroupBags(env, FilteredGroups(cfg, vars, inputs)))
            == JoinBag(JoinOf(env, Those(cfg, vars, inputs, Fully)), JoinOf(env, Those(cfg, vars, inputs, Partially)))
    ensures JoinAll(SelectEach(GroupBags(env, FilteredGroups(cfg, vars, inputs)), p))
            == JoinBag(JoinAll(SelectEach(EvalAll(env, Those(cfg, vars, inputs, Fully)), p)),
                       SelectedIfAny(env, Those(cfg, vars, inputs, Partially), p))
  {
    var f, ps := Those(cfg, vars, inputs, Fully), Those(cfg, vars, inputs, Partially);
    var last := if ps != [] then [ps] else [];
    var bags, lastBags := EvalAll(env, f), GroupBags(env, last);
    SinglesBags(env, f);
    assert GroupBags(env, Singles(f) + last) == bags + lastBags;
    assert SelectEach(bags + lastBags, p) == SelectEach(bags, p) + SelectEach(lastBags, p);
    AllConcat(bags, lastBags);
    AllConcat(SelectEach(bags, p), SelectEach(lastBags, p));
    if ps != [] {
      assert lastBags == [JoinOf(env, ps)];
      assert SelectEach(lastBags, p) == [Select(JoinOf(env, ps), p)];
      AllOne(JoinOf(env, ps));
      AllOne(Select(JoinOf(env, ps), p));
    } else {
      assert lastBags == [] && SelectEach(lastBags, p) == [];
      AllNone();
      OfNone(env);
    }
  }

  lemma PartsEval(env: Env, fully: seq<Op>, partially: seq<Op>, e: Expr)
    ensures JoinOf(env, JoinPart(fully)) == JoinOf(env, fully)
    ensures UnionOf(env, UnionPart(fully)) == UnionOf(env, fully)
    ensures JoinOf(env, FilterPart(partially, Join(partially), e)) == SelectedIfAny(env, partially, SatP(env, e))
    ensures UnionOf(env, FilterPart(partially, Union(partially), e)) == Select(UnionOf(env, partially), SatP(env, e))
  {
    BindNone(Keep(SatP(env, e)));
    FlattenEval(env, fully);
    OfNone(env);
    OfOne(env, CreateJoin(fully));
    OfOne(env, CreateUnion(fully));
    OfOne(env, Filter(Join(partially), e));
    OfOne(env, Filter(Union(partially), e));
  }

  /** What the join and union cases build: the filtered parts and the rest. */
  lemma RebuiltJoin(env: Env, fully: seq<Op>, partially: seq<Op>, rest: seq<Op>, e: Expr)
    ensures Eval(env, RebuildJoin(fully, partially, rest, e).1)
            == JoinBag(JoinBag(JoinOf(env, fully), SelectedIfAny(env, partially, SatP(env, e))), JoinOf(env, rest))
  {
    var a, b := JoinPart(fully), FilterPart(partially, Join(partially), e);
    OneOrMany(env, a + b + rest);
    OfConcat(env, a + b, rest);
    OfConcat(env, a, b);
    PartsEval(env, fully, partially, e);
  }

  lemma RebuiltUnion(env: Env, fully: seq<Op>, partially: seq<Op>, rest: seq<Op>, e: Expr)
    ensures Eval(env, RebuildUnion(fully, partially, rest, e).1)
            == UnionOf(env, fully) + Select(UnionOf(env, partially), SatP(env, e)) + UnionOf(env, rest)
  {
    var a, b := UnionPart(fully), FilterPart(partially, Union(partially), e);
    OneOrMany(env, a + b + rest);
    OfConcat(env, a + b, rest);
    OfConcat(env, a, b);
    PartsEval(env, fully, partially, e);
  }

  lemma {:induction false} SelectUnionAll(bags: seq<Bag>, p: Mapping -> bool)
    ensures Select(UnionAll(bags), p) == UnionAll(SelectEach(bags, p))
  {
    if bags == [] {
      BindNone(Keep(p));
      AllNone();
      assert SelectEach(bags, p) == [];
    } else {
      SelectUnionAll(bags[1..], p);
      SelectUnion(bags[0], UnionAll(bags[1..]), p);
      AllCons(bags[0], bags[1..]);
      AllCons(Select(bags[0], p), SelectEach(bags[1..], p));
      assert [bags[0]] + bags[1..] == bags;
      assert SelectEach(bags, p) == [Select(bags[0], p)] + SelectEach(bags[1..], p);
    }
  }

  /** The pushed operation has exactly the solutions of the filter on `op`. */
  ghost predicate Pushes(env: Env, cfg: Config, e: Expr, op: Op) {
    Eval(env, Pushdown(cfg, e, op).1) == Select(Eval(env, op), SatP(env, e))
  }

  /** Both the caller's obligations and the plain case of the pushdown. */
  ghost predicate Applies(env: Env, cfg: Config, e: Expr, op: Op) {
    ScopeSound(env, cfg) && WellScoped(env, cfg, e, op) && !IsFalse(e) && !e.Exists?
  }

  lemma {:induction false} PushdownPushes(env: Env, cfg: Config, e: Expr, op: Op)
    requires Applies(env, cfg, e, op)
    ensures Pushes(env, cfg, e, op)
    decreases op, 1
  {
    match op
    case Extend(input, v, x) =>
      if v !in ExprVars(cfg, e) { PushdownPushes(env, cfg, e, input); }
      ExtendCase(env, cfg, e, input, v, x);
    case Filter(input, x) =>
      PushdownPushes(env, cfg, e, input);
      FilterCase(env, cfg, e, input, x);
    case Join(inputs) => JoinCase(env, cfg, e, inputs);
    case Nop => DropCase(env, e, op, {});
    case Project(input, keep) =>
      if keep * ExprVars(cfg, e) != {} { PushdownPushes(env, cfg, e, input); }
      ProjectCase(env, cfg, e, input, keep);
    case Union(inputs) => UnionCase(env, cfg, e, inputs);
    case Values(keys, _) => if keys * ExprVars(cfg, e) == {} { DropCase(env, e, op, keys); }
    case LeftJoin(l, r, cond) =>
      if cfg.pushIntoLeftJoins && ExprVars(cfg, e) * cfg.scope(r) == {} { PushdownPushes(env, cfg, e, l); }
      LeftJoinCase(env, cfg, e, l, r, cond);
    case Pattern(quad, src) => PatternCase(env, cfg, e, quad, src);
    case PathOp(s, p, o, g) => PathCase(env, cfg, e, s, p, o, g);
    case Other(_, _) =>
  }

  /** Pushing a filter keeps the solutions. */
  lemma PushdownSound(env: Env, cfg: Config, e: Expr, op: Op)
    requires ScopeSound(env, cfg) && WellScoped(env, cfg, e, op)
    ensures Eval(env, Pushdown(cfg, e, op).1) == Eval(env, Filter(op, e))
  {
    if IsFalse(e) {
      FalseCase(env, e, Eval(env, op));
    } else if !e.Exists? {
      PushdownPushes(env, cfg, e, op);
    }
  }

  lemma FilterCase(env: Env, cfg: Config, e: Expr, input: Op, x: Expr)
    requires !IsFalse(e) && !e.Exists? && Pushes(env, cfg, e, input)
    ensures Pushes(env, cfg, e, Filter(input, x))
  {
    SelectSwap(Eval(env, input), SatP(env, e), SatP(env, x));
  }

  lemma FalseCase(env: Env, e: Expr, b: Bag)
    requires IsFalse(e) && !Sat(env, e, map[])
    ensures Select(b, SatP(env, e)) == multiset{} == Eval(env, CreateUnion([]))
  {
    OfNone(env);
    BindZero(b, Keep(SatP(env, e)));
  }

  lemma DropCase(env: Env, e: Expr, op: Op, may: set<string>)
    requires Accepts(env, e, may) && Within(Eval(env, op), may)
    ensures Eval(env, op) == Select(Eval(env, op), SatP(env, e))
  {
    AcceptsSelect(env, e, Eval(env, op), may);
  }

  /** A filter is dropped that reads nothing in scope: right exactly when it accepts the empty solution, or when there
      is nothing to filter. */
  lemma VoidCase(env: Env, e: Expr, op: Op, may: set<string>)
    requires ExistsFree(e) && Reads(e) * may == {} && Within(Eval(env, op), may)
    ensures Eval(env, op) == Select(Eval(env, op), SatP(env, e)) <==> Eval(env, op) == multiset{} || Sat(env, e, map[])
  {
    var b := Eval(env, op);
    forall m | m in b ensures Sat(env, e, m) == Sat(env, e, map[]) { UnreadSat(env, e, may, m); }
    SelectAll(b, SatP(env, e));
    if b != multiset{} { var m := Pick(b); }
  }

  lemma PushedExtend(env: Env, cfg: Config, e: Expr, input: Op, v: string, x: Expr)
    requires v !in ExprVars(cfg, e) && !IsFalse(e) && !e.Exists?
    ensures Eval(env, Pushdown(cfg, e, Extend(input, v, x)).1)
            == Bind(Eval(env, Pushdown(cfg, e, input).1), ExtendRow(env, v, x))
  {
  }

  lemma ExtendCase(env: Env, cfg: Config, e: Expr, input: Op, v: string, x: Expr)
    requires Applies(env, cfg, e, Extend(input, v, x))
    requires v !in ExprVars(cfg, e) ==> Pushes(env, cfg, e, input)
    ensures Pushes(env, cfg, e, Extend(input, v, x))
  {
    if v !in ExprVars(cfg, e) {
      PushedExtend(env, cfg, e, input, v, x);
      SatReads(env, e, Reads(e));
      ExtendSelect(env, SatP(env, e), Eval(env, input), v, x, Reads(e));
    }
  }

  lemma ProjectCase(env: Env, cfg: Config, e: Expr, input: Op, keep: set<string>)
    requires Applies(env, cfg, e, Project(input, keep))
    requires keep * ExprVars(cfg, e) != {} ==> Pushes(env, cfg, e, input)
    ensures Pushes(env, cfg, e, Project(input, keep))
  {
    if keep * ExprVars(cfg, e) != {} {
      SatReads(env, e, Reads(e));
      assert ScopedAt(env, cfg, input);
      ProjectSelect(SatP(env, e), Eval(env, input), keep, Reads(e), cfg.scope(input));
    } else {
      ProjectWithin(Eval(env, input), keep);
      DropCase(env, e, Project(input, keep), keep);
    }
  }

  lemma LeftJoinCase(env: Env, cfg: Config, e: Expr, l: Op, r: Op, cond: Option<Expr>)
    requires Applies(env, cfg, e, LeftJoin(l, r, cond))
    requires cfg.pushIntoLeftJoins && ExprVars(cfg, e) * cfg.scope(r) == {} ==> Pushes(env, cfg, e, l)
    ensures Pushes(env, cfg, e, LeftJoin(l, r, cond))
  {
    if cfg.pushIntoLeftJoins && ExprVars(cfg, e) * cfg.scope(r) == {} {
      SatReads(env, e, Reads(e));
      assert ScopedAt(env, cfg, r);
      CertainSound(env, l);
      SelectLeftJoin(Eval(env, l), Eval(env, r), CondP(env, cond), SatP(env, e), Reads(e), Certain(l), cfg.scope(r));
    }
  }

  lemma PatternCase(env: Env, cfg: Config, e: Expr, quad: Term, src: Option<nat>)
    requires Applies(env, cfg, e, Pattern(quad, src))
    ensures Pushes(env, cfg, e, Pattern(quad, src))
  {
    var eq := EqualityParts(e);
    if cfg.pushEqualityIntoPatterns && eq.Some? && eq.value.0 in Vars(quad) {
      var (v, t) := eq.value;
      JoinedWithValueEval(env, Pattern(Subst(map[v := t], quad), src), v, t);
      PatternEqualityExact(env, e, quad, src, v, t);
    }
  }

  lemma PathCase(env: Env, cfg: Config, e: Expr, s: Term, p: Path, o: Term, g: Term)
    requires Applies(env, cfg, e, PathOp(s, p, o, g))
    ensures Pushes(env, cfg, e, PathOp(s, p, o, g))
  {
    var eq := EqualityParts(e);
    if cfg.pushEqualityIntoPatterns && eq.Some? && (s == Var(eq.value.0) || o == Var(eq.value.0)) {
      var (v, t) := eq.value;
      EqualityVar(e);
      var pushed := PathOp(Replace(v, t, s), p, Replace(v, t, o), DefaultGraph);
      assert Pushdown(cfg, e, PathOp(s, p, o, g)).1 == JoinedWithValue(pushed, v, t);
      JoinedWithValueEval(env, pushed, v, t);
      PathEqualityExact(env, e, s, p, o, g, DefaultGraph, v, t);
    }
  }

  lemma SelectCons(b: Bag, bags: seq<Bag>, p: Mapping -> bool)
    ensures SelectEach([b] + bags, p) == [Select(b, p)] + SelectEach(bags, p)
  {
  }

  lemma PrependPushed(env: Env, pushed: Op, more: seq<Op>, h: Op, t: seq<Op>, p: Mapping -> bool)
    requires Eval(env, pushed) == Select(Eval(env, h), p)
    requires EvalAll(env, more) == SelectEach(EvalAll(env, t), p)
    ensures EvalAll(env, [pushed] + more) == SelectEach(EvalAll(env, [h] + t), p)
  {
    EvalAllCons(env, pushed, more);
    EvalAllCons(env, h, t);
    SelectCons(Eval(env, h), EvalAll(env, t), p);
  }

  lemma {:induction false} PushIntoFullySound(env: Env, cfg: Config, e: Expr, inputs: seq<Op>)
    requires ScopeSound(env, cfg) && WellScopedEach(env, cfg, e, inputs) && !IsFalse(e) && !e.Exists?
    ensures EvalAll(env, PushIntoFully(cfg, e, inputs))
            == SelectEach(EvalAll(env, Those(cfg, ExprVars(cfg, e), inputs, Fully)), SatP(env, e))
    decreases inputs, 0
  {
    if inputs != [] {
      var h, t := inputs[0], Those(cfg, ExprVars(cfg, e), inputs[1..], Fully);
      PushIntoFullySound(env, cfg, e, inputs[1..]);
      if OverlapOf(cfg, ExprVars(cfg, e), h) == Fully {
        PushdownPushes(env, cfg, e, h);
        PrependPushed(env, Pushdown(cfg, e, h).1, PushIntoFully(cfg, e, inputs[1..]), h, t, SatP(env, e));
      } else {
        assert PushIntoFully(cfg, e, inputs) == PushIntoFully(cfg, e, inputs[1..]);
        assert Those(cfg, ExprVars(cfg, e), inputs, Fully) == t;
      }
    }
  }

  lemma PushdownJoin(cfg: Config, e: Expr, inputs: seq<Op>)
    requires !IsFalse(e) && !e.Exists? && inputs != []
    ensures (var vars := ExprVars(cfg, e);
             Pushdown(cfg, e, Join(inputs))
             == RebuildJoin(PushIntoFully(cfg, e, inputs), Those(cfg, vars, inputs, Partially),
                  Those(cfg, vars, inputs, Not), e))
  {
  }

  lemma PushdownUnion(cfg: Config, e: Expr, inputs: seq<Op>)
    requires !IsFalse(e) && !e.Exists?
    ensures (var vars := ExprVars(cfg, e);
             Pushdown(cfg, e, Union(inputs))
             == RebuildUnion(PushIntoFully(cfg, e, inputs), Those(cfg, vars, inputs, Partially),
                  Those(cfg, vars, inputs, Not), e))
  {
  }

  lemma PushedJoin(env: Env, cfg: Config, e: Expr, inputs: seq<Op>)
    requires !IsFalse(e) && !e.Exists? && inputs != []
    ensures Eval(env, Pushdown(cfg, e, Join(inputs)).1)
            == JoinBag(JoinBag(JoinOf(env, PushIntoFully(cfg, e, inputs)),
                               SelectedIfAny(env, Those(cfg, ExprVars(cfg, e), inputs, Partially), SatP(env, e))),
                       JoinOf(env, Those(cfg, ExprVars(cfg, e), inputs, Not)))
  {
    var vars := ExprVars(cfg, e);
    PushdownJoin(cfg, e, inputs);
    RebuiltJoin(env, PushIntoFully(cfg, e, inputs), Those(cfg, vars, inputs, Partially),
      Those(cfg, vars, inputs, Not), e);
  }

  lemma PushedUnion(env: Env, cfg: Config, e: Expr, inputs: seq<Op>)
    requires !IsFalse(e) && !e.Exists?
    ensures Eval(env, Pushdown(cfg, e, Union(inputs)).1)
            == UnionOf(env, PushIntoFully(cfg, e, inputs))
               + Select(UnionOf(env, Those(cfg, ExprVars(cfg, e), inputs, Partially)), SatP(env, e))
               + UnionOf(env, Those(cfg, ExprVars(cfg, e), inputs, Not))
  {
    var vars := ExprVars(cfg, e);
    PushdownUnion(cfg, e, inputs);
    RebuiltUnion(env, PushIntoFully(cfg, e, inputs), Those(cfg, vars, inputs, Partially),
      Those(cfg, vars, inputs, Not), e);
  }

  lemma JoinSelects(env: Env, cfg: Config, e: Expr, inputs: seq<Op>)
    requires ScopeSound(env, cfg) && ExistsFree(e) && JoinClosed(env, cfg, e, inputs)
    ensures (var groups := FilteredGroups(cfg, ExprVars(cfg, e), inputs);
             JoinBag(JoinOf(env, Those(cfg, ExprVars(cfg, e), inputs, Not)),
                     JoinAll(SelectEach(GroupBags(env, groups), SatP(env, e)))))
            == Select(JoinOf(env, inputs), SatP(env, e))
  {
    var vars, p := ExprVars(cfg, e), SatP(env, e);
    var rest := Those(cfg, vars, inputs, Not);
    var groups := FilteredGroups(cfg, vars, inputs);
    var filtered := JoinAll(GroupBags(env, groups));
    JoinByOverlap(env, cfg, vars, inputs);
    FilteredGroupsJoin(env, cfg, vars, inputs, p);
    assert JoinOf(env, inputs) == JoinBag(JoinOf(env, rest), filtered);
    ScopeOfSound(env, cfg, rest);
    if groups == [] {
      assert GroupBags(env, groups) == [] == SelectEach(GroupBags(env, groups), p);
      AllNone();
      JoinUnit(JoinOf(env, rest));
      AcceptsSelect(env, e, JoinOf(env, rest), ScopeOf(cfg, rest));
    } else {
      SatReads(env, e, Reads(e));
      GroupsShaped(env, cfg, groups);
      ClosedFilters(Reads(e), ScopeOf(cfg, rest), Shapes(cfg, groups), p, JoinOf(env, rest), GroupBags(env, groups));
    }
  }

  lemma {:induction false} JoinCase(env: Env, cfg: Config, e: Expr, inputs: seq<Op>)
    requires Applies(env, cfg, e, Join(inputs))
    ensures Pushes(env, cfg, e, Join(inputs))
    decreases inputs, 1
  {
    if inputs != [] {
      PushIntoFullySound(env, cfg, e, inputs);
      PushedJoin(env, cfg, e, inputs);
      FilteredGroupsJoin(env, cfg, ExprVars(cfg, e), inputs, SatP(env, e));
      JoinComm(JoinAll(SelectEach(GroupBags(env, FilteredGroups(cfg, ExprVars(cfg, e), inputs)), SatP(env, e))),
               JoinOf(env, Those(cfg, ExprVars(cfg, e), inputs, Not)));
      JoinSelects(env, cfg, e, inputs);
    }
  }

  lemma UnionSelects(env: Env, cfg: Config, e: Expr, inputs: seq<Op>)
    requires ScopeSound(env, cfg)
    requires var rest := Those(cfg, ExprVars(cfg, e), inputs, Not); rest == [] || Accepts(env, e, ScopeOf(cfg, rest))
    ensures UnionAll(SelectEach(EvalAll(env, Those(cfg, ExprVars(cfg, e), inputs, Fully)), SatP(env, e)))
            + Select(UnionOf(env, Those(cfg, ExprVars(cfg, e), inputs, Partially)), SatP(env, e))
            + UnionOf(env, Those(cfg, ExprVars(cfg, e), inputs, Not))
            == Select(UnionOf(env, inputs), SatP(env, e))
  {
    var vars, p := ExprVars(cfg, e), SatP(env, e);
    var f, rest := Those(cfg, vars, inputs, Fully), Those(cfg, vars, inputs, Not);
    var all, some, none := UnionOf(env, f), UnionOf(env, Those(cfg, vars, inputs, Partially)), UnionOf(env, rest);
    UnionByOverlap(env, cfg, vars, inputs);
    SelectUnionAll(EvalAll(env, f), p);
    SelectUnion(all + some, none, p);
    SelectUnion(all, some, p);
    if rest == [] {
      OfNone(env);
      BindNone(Keep(p));
    } else {
      ScopeOfSound(env, cfg, rest);
      AcceptsSelect(env, e, none, ScopeOf(cfg, rest));
    }
  }

  lemma {:induction false} UnionCase(env: Env, cfg: Config, e: Expr, inputs: seq<Op>)
    requires Applies(env, cfg, e, Union(inputs))
    ensures Pushes(env, cfg, e, Union(inputs))
    decreases inputs, 1
  {
    PushIntoFullySound(env, cfg, e, inputs);
    PushedUnion(env, cfg, e, inputs);
    UnionSelects(env, cfg, e, inputs);
  }
}
