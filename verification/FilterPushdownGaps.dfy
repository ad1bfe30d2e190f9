/** Where the pushdown is not meaning-preserving, and exactly when its single rules are. */
module FilterPushdownGaps {
  import opened Terms
  import opened PathExprs
  import opened Logic
  import opened Bags
  import opened Joins
  import opened JoinGroups
  import opened Algebra
  import opened Scopes
  import opened FilterPushdown
  import opened FilterPushdownProof
  import opened ValueSubstitution

  lemma Voided(env: Env, cfg: Config, e: Expr, op: Op)
    requires IsFalse(e)
    ensures Eval(env, Pushdown(cfg, e, op).1) == multiset{}
  {
    OfNone(env);
    assert FlattenUnion([]) == [];
  }

  lemma LiteralSelects(env: Env, e: Expr, b: Bag)
    requires IsFalse(e)
    ensures Select(b, SatP(env, e)) == if Ebv(env, Ok(e.term)).True? then b else multiset{}
  {
    if Ebv(env, Ok(e.term)).True? { SelectAll(b, SatP(env, e)); } else { BindZero(b, Keep(SatP(env, e))); }
  }

  /** Exactly the literals spelled `false`, whatever their datatype, void every operation. */
  lemma VoidsExactly(cfg: Config, e: Expr)
    ensures (forall op :: Pushdown(cfg, e, op).1 == Union([]))
       <==> exists dtype, lang :: e == TermE(Literal("false", dtype, lang))
  {
    assert FlattenUnion([]) == [];
    if IsFalse(e) {
      assert e == TermE(Literal("false", e.term.dtype, e.term.lang));
      forall op ensures Pushdown(cfg, e, op).1 == Union([]) {}
    } else {
      assert Pushdown(cfg, e, Other("", [])).1 == Filter(Other("", []), e);
    }
  }

  /** A literal spelled `false` voids its operation, whatever the literal is worth. */
  lemma FalseLiteralExact(env: Env, cfg: Config, dtype: string, lang: string, e: Expr, op: Op)
    requires e == TermE(Literal("false", dtype, lang))
    ensures Eval(env, Pushdown(cfg, e, op).1) == Eval(env, Filter(op, e))
            <==> Eval(env, op) == multiset{} || !Ebv(env, Ok(e.term)).True?
  {
    Voided(env, cfg, e, op);
    LiteralSelects(env, e, Eval(env, op));
    FilterEval(env, op, e);
  }

  lemma FilterEval(env: Env, op: Op, e: Expr)
    ensures Eval(env, Filter(op, e)) == Select(Eval(env, op), SatP(env, e))
  {
  }

  ghost predicate StandardScope(cfg: Config) {
    forall op :: cfg.scope(op) == InScope(op)
  }

  lemma {:induction false} ScopeOfStandard(cfg: Config, ops: seq<Op>)
    requires StandardScope(cfg)
    ensures ScopeOf(cfg, ops) == InScopeAll(ops)
  {
    if ops != [] { ScopeOfStandard(cfg, ops[1..]); }
  }

  /** How a join is split up, by the variables `seen` of a filter, is right for all data with these scopes and certainly
      bound variables and for all filters that read `vars`, exactly if the groups are closed for `vars`. */
  lemma JoinSplitExactly(cfg: Config, seen: set<string>, vars: set<string>, inputs: seq<Op>)
    requires StandardScope(cfg) && FilteredGroups(cfg, seen, inputs) != []
    ensures (var rest, groups := ScopeOf(cfg, Those(cfg, seen, inputs, Not)), FilteredGroups(cfg, seen, inputs);
             AlwaysFiltersEach(vars, rest, Shapes(cfg, groups)) <==> GroupsClosed(cfg, vars, rest, groups))
  {
    var groups := FilteredGroups(cfg, seen, inputs);
    forall i | 0 <= i < |groups| ensures CertainAll(groups[i]) <= ScopeOf(cfg, groups[i]) {
      ScopeOfStandard(cfg, groups[i]);
      CertainAllInScope(groups[i]);
    }
    ClosedExactly(vars, ScopeOf(cfg, Those(cfg, seen, inputs, Not)), Shapes(cfg, groups));
  }

  // ----- concrete failures -----

  /** Equality of terms, and nothing else. */
  function Equal(op: string, args: seq<Value>): Value {
    if op == "=" && |args| == 2 && args[0].Ok? && args[1].Ok? then Ok(Bool(args[0] == args[1])) else Err
  }

  ghost function Plainest(nodes: set<Term>): Env {
    Env((src: Option<nat>) => {}, (op, args) => Equal(op, args), (f: string, args: seq<Value>) => Err,
      (t: Term) => Error,
        (op: Op, m: Mapping) => false, (g: Term) => nodes, (p: Path, g: Term) => multiset{},
        (kind: string, bags: seq<Bag>) => multiset{})
  }

  function Standard(): Config {
    Config(op => InScope(op), (op, e) => true, true, true, true, true, 10)
  }

  lemma PlainestScoped(nodes: set<Term>)
    ensures ScopeSound(Plainest(nodes), Standard())
  {
    forall op ensures ScopedAt(Plainest(nodes), Standard(), op) { InScopeSound(Plainest(nodes), op); }
  }

  const B := Iri("urn:b")

  ghost function OneRow(m: Mapping): Op { Values(m.Keys, [m]) }

  lemma OneRowEval(env: Env, m: Mapping)
    ensures Eval(env, OneRow(m)) == multiset{m}
    ensures InScope(OneRow(m)) == m.Keys
  {
    assert multiset([m]) == multiset{m};
    assert RowVars([m]) == m.Keys + RowVars([]);
  }

  function Eq(l: string, r: string): Expr { Call("=", [TermE(Var(l)), TermE(Var(r))]) }

  lemma EqReads(cfg: Config, l: string, r: string)
    ensures ExprVars(cfg, Eq(l, r)) == Reads(Eq(l, r)) == {l, r} && ExistsFree(Eq(l, r))
  {
    var args := Eq(l, r).args;
    assert args[1..] == [TermE(Var(r))] && args[1..][1..] == [];
    assert ExprVarsAll(cfg, args[1..]) == ExprVars(cfg, args[1]) + ExprVarsAll(cfg, args[1..][1..]);
    assert ExprVarsAll(cfg, args) == ExprVars(cfg, args[0]) + ExprVarsAll(cfg, args[1..]);
    assert ReadsAll(args[1..]) == Reads(args[1]) + ReadsAll(args[1..][1..]);
    assert ReadsAll(args) == Reads(args[0]) + ReadsAll(args[1..]);
  }

  /** `=` compares terms. */
  ghost predicate ComparesTerms(env: Env) {
    forall op, args :: env.builtin(op, args) == Equal(op, args)
  }

  lemma SatEqualIn(env: Env, l: Term, r: Term, m: Mapping)
    requires ComparesTerms(env)
    ensures (var e := Call("=", [TermE(l), TermE(r)]);
             var a, b := EvalE(env, TermE(l), m), EvalE(env, TermE(r), m);
             Sat(env, e, m) <==> a.Ok? && a == b)
  {
    var args := [TermE(l), TermE(r)];
    assert args[1..] == [TermE(r)] && args[1..][1..] == [];
    assert EvalArgs(env, args[1..], m) == [EvalE(env, args[1], m)] + EvalArgs(env, [], m);
    assert EvalArgs(env, args, m) == [EvalE(env, args[0], m)] + EvalArgs(env, args[1..], m);
    assert Bool(true) != Bool(false);
  }

  /** Operations with one solution each, which binds all of some variables to the same term. */
  ghost function RowOps(sets: seq<set<string>>): seq<Op> {
    seq(|sets|, i requires 0 <= i < |sets| => OneRow(Row(sets[i])))
  }

  lemma RowOpsEval(env: Env, sets: seq<set<string>>)
    ensures Eval(env, Join(RowOps(sets))) == multiset{Row(UnionSets(sets))}
    ensures forall i :: 0 <= i < |sets| ==>
              InScope(RowOps(sets)[i]) == sets[i] && Eval(env, RowOps(sets)[i]) == multiset{Row(sets[i])}
  {
    forall i | 0 <= i < |sets|
      ensures InScope(RowOps(sets)[i]) == sets[i] && Eval(env, RowOps(sets)[i]) == multiset{Row(sets[i])}
    {
      OneRowEval(env, Row(sets[i]));
    }
    assert EvalAll(env, RowOps(sets)) == RowBags(sets);
    RowBagsJoin(sets);
  }

  lemma UnionTwo(a: set<string>, b: set<string>)
    ensures UnionSets([a, b]) == a + b
  {
    assert [a, b][1..] == [b] && [b][1..] == [];
    assert UnionSets([b]) == b + UnionSets([]);
  }

  lemma RowFiltered(env: Env, l: string, r: string, vars: set<string>)
    requires ComparesTerms(env)
    ensures Select(multiset{Row(vars)}, SatP(env, Eq(l, r)))
         == if l in vars && r in vars then multiset{Row(vars)} else multiset{}
  {
    SatEqualIn(env, Var(l), Var(r), Row(vars));
    BindOne(Row(vars), Keep(SatP(env, Eq(l, r))));
  }

  /** A join empties when its only partially overlapping input does. */
  lemma PartEmpties(env: Env, cfg: Config, e: Expr, inputs: seq<Op>, part: Op)
    requires !IsFalse(e) && !e.Exists? && inputs != [] && Those(cfg, ExprVars(cfg, e), inputs, Partially) == [part]
    requires Select(Eval(env, part), SatP(env, e)) == multiset{}
    ensures Eval(env, Pushdown(cfg, e, Join(inputs)).1) == multiset{}
  {
    PushedJoin(env, cfg, e, inputs);
    OfOne(env, part);
    JoinZero(JoinOf(env, PushIntoFully(cfg, e, inputs)));
    JoinZero(JoinOf(env, Those(cfg, ExprVars(cfg, e), inputs, Not)));
  }

  lemma FullyThenPartially(cfg: Config, vars: set<string>, first: Op, second: Op)
    requires OverlapOf(cfg, vars, first) == Fully && OverlapOf(cfg, vars, second) == Partially
    ensures Those(cfg, vars, [first, second], Partially) == [second]
  {
    assert [first, second][1..] == [second] && [second][1..] == [];
    assert Those(cfg, vars, [second], Partially) == [second] + Those(cfg, vars, [], Partially);
  }

  const XY: set<string> := {"x", "y"}
  const X: set<string> := {"x"}

  lemma TwoJoined(env: Env)
    requires ComparesTerms(env)
    ensures Eval(env, Filter(Join(RowOps([XY, X])), Eq("x", "y"))) == multiset{Row(XY)}
  {
    RowOpsEval(env, [XY, X]);
    UnionTwo(XY, X);
    assert XY + X == XY;
    RowFiltered(env, "x", "y", XY);
  }

  lemma TwoPushed(env: Env, cfg: Config)
    requires ComparesTerms(env) && cfg == Standard()
    ensures Eval(env, Pushdown(cfg, Eq("x", "y"), Join(RowOps([XY, X]))).1) == multiset{}
  {
    var ops := RowOps([XY, X]);
    RowOpsEval(env, [XY, X]);
    RowFiltered(env, "x", "y", X);
    EqReads(cfg, "x", "y");
    assert "x" in XY * X && "y" !in X;
    assert ops == [ops[0], ops[1]];
    FullyThenPartially(cfg, XY, ops[0], ops[1]);
    PartEmpties(env, cfg, Eq("x", "y"), ops, ops[1]);
  }

  /** `FILTER(?x = ?y)` over a join of one input with both variables and one with `?x` only: the second input is
      filtered on its own, with `?y` unbound, so the only solution is lost. */
  lemma PartialOverlapLosesSolutions(env: Env, cfg: Config)
    requires env == Plainest({}) && cfg == Standard()
    ensures ScopeSound(env, cfg)
    ensures Eval(env, Filter(Join(RowOps([XY, X])), Eq("x", "y"))) == multiset{Row(XY)}
    ensures Eval(env, Pushdown(cfg, Eq("x", "y"), Join(RowOps([XY, X]))).1) == multiset{}
  {
    PlainestScoped({});
    EqReads(cfg, "x", "y");
    TwoJoined(env);
    TwoPushed(env, cfg);
  }

  // ----- one push can spoil the next -----

  const XU: set<string> := {"x", "u"}
  const YW: set<string> := {"y", "w"}
  const UW: set<string> := {"u", "w"}

  /** Inputs with `?x ?u`, `?y ?w` and `?x`. */
  ghost predicate ThreeInputs(cfg: Config, ops: seq<Op>) {
    |ops| == 3 && cfg.scope(ops[0]) == XU && cfg.scope(ops[1]) == YW && cfg.scope(ops[2]) == X
  }

  lemma ThoseThree(cfg: Config, vars: set<string>, a: Op, b: Op, c: Op, kind: Overlap)
    ensures Those(cfg, vars, [a, b, c], kind)
            == (if OverlapOf(cfg, vars, a) == kind then [a] else [])
               + (if OverlapOf(cfg, vars, b) == kind then [b] else [])
               + (if OverlapOf(cfg, vars, c) == kind then [c] else [])
  {
    assert [a, b, c][1..] == [b, c] && [b, c][1..] == [c] && [c][1..] == [];
    assert Those(cfg, vars, [c], kind) == if OverlapOf(cfg, vars, c) == kind then [c] else [];
    assert Those(cfg, vars, [b, c], kind)
      == (if OverlapOf(cfg, vars, b) == kind then [b] else []) + Those(cfg, vars, [c], kind);
  }

  /** `?u = ?w` takes the first two inputs together and leaves the third. */
  lemma UWSplit(cfg: Config, ops: seq<Op>, kind: Overlap)
    requires ThreeInputs(cfg, ops)
    ensures Those(cfg, UW, ops, kind) == match kind case Fully => [] case Partially => ops[..2] case Not => [ops[2]]
  {
    assert ops == [ops[0], ops[1], ops[2]] && ops[..2] == [ops[0], ops[1]];
    assert "u" in UW * XU && "w" !in XU && "w" in UW * YW && "u" !in YW && UW * X == {};
    ThoseThree(cfg, UW, ops[0], ops[1], ops[2], kind);
  }

  /** `?x = ?y` takes all three. */
  lemma XYSplit(cfg: Config, ops: seq<Op>, kind: Overlap)
    requires ThreeInputs(cfg, ops)
    ensures Those(cfg, XY, ops, kind) == match kind case Fully => [] case Partially => ops case Not => []
  {
    assert ops == [ops[0], ops[1], ops[2]];
    assert "x" in XY * XU && "y" !in XU && "y" in XY * YW && "x" !in YW && "x" in XY * X && "y" !in X;
    ThoseThree(cfg, XY, ops[0], ops[1], ops[2], kind);
  }

  lemma {:induction false} NoneFully(env: Env, cfg: Config, e: Expr, inputs: seq<Op>)
    requires Those(cfg, ExprVars(cfg, e), inputs, Fully) == []
    ensures WellScopedEach(env, cfg, e, inputs) && PushIntoFully(cfg, e, inputs) == []
  {
    if inputs != [] { NoneFully(env, cfg, e, inputs[1..]); }
  }

  /** A filter that all its inputs share, with the rest out of its scope. */
  lemma TogetherScoped(env: Env, cfg: Config, e: Expr, inputs: seq<Op>)
    requires !IsFalse(e) && ExistsFree(e) && Those(cfg, ExprVars(cfg, e), inputs, Fully) == []
    requires Those(cfg, ExprVars(cfg, e), inputs, Partially) != []
    requires Reads(e) * ScopeOf(cfg, Those(cfg, ExprVars(cfg, e), inputs, Not)) == {}
    ensures WellScoped(env, cfg, e, Join(inputs))
  {
    NoneFully(env, cfg, e, inputs);
    assert FilteredGroups(cfg, ExprVars(cfg, e), inputs) == [Those(cfg, ExprVars(cfg, e), inputs, Partially)];
  }

  lemma JoinOfTwo(a: Op, b: Op)
    requires !a.Join? && !b.Join?
    ensures CreateJoin([a, b]) == Join([a, b])
  {
    assert [a, b][1..] == [b] && [b][1..] == [];
    assert FlattenJoin([b]) == [b] + FlattenJoin([]);
    assert FlattenJoin([a, b]) == [a] + FlattenJoin([b]);
  }

  lemma RebuiltOfTwo(part: seq<Op>, rest: Op, e: Expr)
    requires part != [] && !rest.Join?
    ensures RebuildJoin([], part, [rest], e).1 == Join([Filter(Join(part), e), rest])
  {
    assert [] + [Filter(Join(part), e)] + [rest] == [Filter(Join(part), e), rest];
    JoinOfTwo(Filter(Join(part), e), rest);
  }

  lemma TogetherPushed(cfg: Config, e: Expr, inputs: seq<Op>, part: seq<Op>, rest: Op)
    requires !IsFalse(e) && !e.Exists? && inputs != [] && part != [] && !rest.Join?
    requires Those(cfg, ExprVars(cfg, e), inputs, Fully) == []
             && Those(cfg, ExprVars(cfg, e), inputs, Partially) == part
    requires Those(cfg, ExprVars(cfg, e), inputs, Not) == [rest]
    ensures Pushdown(cfg, e, Join(inputs)).1 == Join([Filter(Join(part), e), rest])
  {
    NoneFully(Plainest({}), cfg, e, inputs);
    PushdownJoin(cfg, e, inputs);
    RebuiltOfTwo(part, rest, e);
  }

  lemma UWScoped(env: Env, cfg: Config, ops: seq<Op>)
    requires ThreeInputs(cfg, ops)
    ensures WellScoped(env, cfg, Eq("u", "w"), Join(ops))
  {
    EqReads(cfg, "u", "w");
    forall kind { UWSplit(cfg, ops, kind); }
    assert ScopeOf(cfg, [ops[2]]) == X + ScopeOf(cfg, [ops[2]][1..]);
    assert UW * X == {};
    TogetherScoped(env, cfg, Eq("u", "w"), ops);
  }

  lemma XYScoped(env: Env, cfg: Config, ops: seq<Op>)
    requires ThreeInputs(cfg, ops)
    ensures WellScoped(env, cfg, Eq("x", "y"), Join(ops))
  {
    EqReads(cfg, "x", "y");
    forall kind { XYSplit(cfg, ops, kind); }
    TogetherScoped(env, cfg, Eq("x", "y"), ops);
  }

  /** What the first push makes of the three inputs. */
  function Regrouped(ops: seq<Op>): seq<Op>
    requires |ops| == 3
  {
    [Filter(Join(ops[..2]), Eq("u", "w")), ops[2]]
  }

  lemma FirstPush(cfg: Config, ops: seq<Op>)
    requires ThreeInputs(cfg, ops) && !ops[2].Join?
    ensures Pushdown(cfg, Eq("u", "w"), Join(ops)).1 == Join(Regrouped(ops))
  {
    EqReads(cfg, "u", "w");
    forall kind { UWSplit(cfg, ops, kind); }
    TogetherPushed(cfg, Eq("u", "w"), ops, ops[..2], ops[2]);
  }

  lemma SecondPush(env: Env, cfg: Config, ops: seq<Op>)
    requires StandardScope(cfg) && ThreeInputs(cfg, ops)
    requires Select(Eval(env, ops[2]), SatP(env, Eq("x", "y"))) == multiset{}
    ensures Eval(env, Pushdown(cfg, Eq("x", "y"), Join(Regrouped(ops))).1) == multiset{}
  {
    var first := Filter(Join(ops[..2]), Eq("u", "w"));
    assert ops[..2] == [ops[0], ops[1]] && ops[..2][1..] == [ops[1]] && ops[..2][1..][1..] == [];
    assert InScopeAll(ops[..2][1..]) == cfg.scope(ops[1]) + InScopeAll([]);
    assert InScopeAll(ops[..2]) == cfg.scope(ops[0]) + cfg.scope(ops[1]);
    assert cfg.scope(first) == InScope(first) == XU + YW;
    assert "x" in XY * X && "y" !in X;
    FullyThenPartially(cfg, XY, first, ops[2]);
    EqReads(cfg, "x", "y");
    PartEmpties(env, cfg, Eq("x", "y"), Regrouped(ops), ops[2]);
  }

  lemma BothPushes(env: Env, cfg: Config, ops: seq<Op>)
    requires StandardScope(cfg) && ThreeInputs(cfg, ops) && !ops[2].Join?
    requires Select(Eval(env, ops[2]), SatP(env, Eq("x", "y"))) == multiset{}
    ensures Eval(env, Pushdown(cfg, Eq("x", "y"), Pushdown(cfg, Eq("u", "w"), Join(ops)).1).1) == multiset{}
  {
    FirstPush(cfg, ops);
    SecondPush(env, cfg, ops);
  }

  lemma ThreeRows(env: Env, cfg: Config, ops: seq<Op>)
    requires ComparesTerms(env) && StandardScope(cfg) && ops == RowOps([XU, YW, X])
    ensures ThreeInputs(cfg, ops) && !ops[2].Join? && Select(Eval(env, ops[2]), SatP(env, Eq("x", "y"))) == multiset{}
  {
    RowOpsEval(env, [XU, YW, X]);
    RowFiltered(env, "x", "y", X);
  }

  lemma FilteredTwice(env: Env, op: Op, row: Mapping, e: Expr, f: Expr)
    requires Eval(env, op) == Select(multiset{row}, SatP(env, e)) == Select(multiset{row}, SatP(env, f))
             == multiset{row}
    ensures Eval(env, Filter(Filter(op, e), f)) == multiset{row}
  {
  }

  lemma ThreeJoined(env: Env)
    requires ComparesTerms(env)
    ensures Eval(env, Filter(Filter(Join(RowOps([XU, YW, X])), Eq("u", "w")), Eq("x", "y"))) == multiset{Row(XU + YW)}
  {
    RowOpsEval(env, [XU, YW, X]);
    assert [XU, YW, X][1..] == [YW, X];
    UnionTwo(YW, X);
    assert UnionSets([XU, YW, X]) == XU + YW;
    RowFiltered(env, "u", "w", XU + YW);
    RowFiltered(env, "x", "y", XU + YW);
    FilteredTwice(env, Join(RowOps([XU, YW, X])), Row(XU + YW), Eq("u", "w"), Eq("x", "y"));
  }

  /** Two filters, each well-scoped where it stands: `?u = ?w` and `?x = ?y` over inputs with `?x ?u`, `?y ?w` and
      `?x`. Pushing the first joins the first two inputs, and the second then finds the third on its own, with `?y`
      unbound: the only solution is lost. */
  lemma OnePushSpoilsNext(env: Env, cfg: Config, ops: seq<Op>)
    requires env == Plainest({}) && cfg == Standard() && ops == RowOps([XU, YW, X])
    ensures WellScoped(env, cfg, Eq("u", "w"), Join(ops)) && WellScoped(env, cfg, Eq("x", "y"), Join(ops))
    ensures Eval(env, Filter(Filter(Join(ops), Eq("u", "w")), Eq("x", "y"))) == multiset{Row(XU + YW)}
    ensures Eval(env, Pushdown(cfg, Eq("x", "y"), Pushdown(cfg, Eq("u", "w"), Join(ops)).1).1) == multiset{}
  {
    ThreeRows(env, cfg, ops);
    UWScoped(env, cfg, ops);
    XYScoped(env, cfg, ops);
    ThreeJoined(env);
    BothPushes(env, cfg, ops);
  }

  /** The whole rule for a path: the equality holds for `t` only among the values the path gives `v`, and the rebuilt
      path, on the default graph and with `t` for `v`, has the matches the original has there. */
  lemma PathSubstitutionExact(env: Env, e: Expr, s: Term, p: Path, o: Term, g: Term, v: string, t: Term)
    requires (s == Var(v) || o == Var(v)) && Fixed(t)
    requires EqualsOnly(env, e, v, t, Eval(env, PathOp(s, p, o, g)))
    ensures Eval(env, JoinedWithValue(PathOp(Replace(v, t, s), p, Replace(v, t, o), DefaultGraph), v, t))
            == Eval(env, Filter(PathOp(s, p, o, g), e))
            <==> SamePairs(env, s, p, o, g, DefaultGraph, v, t)
    ensures g == DefaultGraph ==> (SamePairs(env, s, p, o, g, DefaultGraph, v, t) <==> SameWays(env, s, p, o, g, v, t))
  {
    JoinedWithValueEval(env, PathOp(Replace(v, t, s), p, Replace(v, t, o), DefaultGraph), v, t);
    PathEqualityExact(env, e, s, p, o, g, DefaultGraph, v, t);
    FilterEval(env, PathOp(s, p, o, g), e);
    PathWaysExact(env, s, p, o, DefaultGraph, v, t);
  }

  /** `FILTER(?x = <t>)` over `?x path ?y`: when `t` is not a node of the graph there is no such solution, but the
      substituted path relates `t` to itself whenever the path admits length zero. */
  lemma PathSubstitutionInventsSolutions(env: Env, e: Expr, p: Path, t: Term)
    requires Fixed(t) && t !in env.nodes(DefaultGraph) && Nullable(p, true, false)
    requires EqualsOnly(env, e, "x", t, Eval(env, PathOp(Var("x"), p, Var("y"), DefaultGraph)))
    ensures Eval(env, JoinedWithValue(PathOp(t, p, Var("y"), DefaultGraph), "x", t))
            != Eval(env, Filter(PathOp(Var("x"), p, Var("y"), DefaultGraph), e))
  {
    NullableWays(p, true, false);
    PathSubstitutionExact(env, e, Var("x"), p, Var("y"), DefaultGraph, "x", t);
  }

  /** `p?|(q?/r?)`: with one end a variable the sequence has to pass through a node, with two constants it has not. */
  function OptionalOrSequence(p: Path, q: Path, r: Path): Path {
    Alt([ZeroOrOne(p), Seq([ZeroOrOne(q), ZeroOrOne(r)])])
  }

  lemma OptionalOrSequenceWays(p: Path, q: Path, r: Path)
    ensures Ways(OptionalOrSequence(p, q, r), false, true) == 1
    ensures Ways(OptionalOrSequence(p, q, r), true, true) == 2
  {
    var steps := [ZeroOrOne(q), ZeroOrOne(r)];
    var choices := [ZeroOrOne(p), Seq(steps)];
    assert steps[1..] == [ZeroOrOne(r)];
    assert choices[1..] == [Seq(steps)] && choices[1..][1..] == [];
    forall s: bool
      ensures WaysSeq(steps, s, true) == if s then 1 else 0
      ensures WaysAlt(choices, s, true) == 1 + WaysSeq(steps, s, true)
    {
      assert WaysSeq(steps[1..], false, true) == 1;
      assert WaysSeq(steps, s, true) == Ways(steps[0], s, false) * WaysSeq(steps[1..], false, true);
      assert WaysAlt(choices[1..], s, true) == Ways(Seq(steps), s, true) + WaysAlt([], s, true);
    }
  }

  /** A constant end before the substitution is not enough: `FILTER(?x = <t>)` over `?x (p?|(q?/r?)) <t>` gets a
      second zero-length match when `t` is no node. */
  lemma PathSubstitutionCountsTwice(env: Env, e: Expr, p: Path, q: Path, r: Path, t: Term)
    requires Fixed(t) && t !in env.nodes(DefaultGraph)
    requires EqualsOnly(env, e, "x", t, Eval(env, PathOp(Var("x"), OptionalOrSequence(p, q, r), t, DefaultGraph)))
    ensures Eval(env, JoinedWithValue(PathOp(t, OptionalOrSequence(p, q, r), t, DefaultGraph), "x", t))
            != Eval(env, Filter(PathOp(Var("x"), OptionalOrSequence(p, q, r), t, DefaultGraph), e))
  {
    OptionalOrSequenceWays(p, q, r);
    PathSubstitutionExact(env, e, Var("x"), OptionalOrSequence(p, q, r), t, DefaultGraph, "x", t);
  }

  /** For a node, for a path none of whose parts admits length zero, and for a path with a constant end, a zero-length
      match and no alternatives, the substitution is right. */
  lemma PathSubstitutionRight(env: Env, e: Expr, s: Term, p: Path, o: Term, v: string, t: Term)
    requires (s == Var(v) || o == Var(v)) && Fixed(t)
    requires EqualsOnly(env, e, v, t, Eval(env, PathOp(s, p, o, DefaultGraph)))
    requires t in env.nodes(DefaultGraph) || !Nullable(p, Fixed(Replace(v, t, s)), Fixed(Replace(v, t, o)))
             || (Nullable(p, Fixed(s), Fixed(o)) && NoAlternatives(p))
    ensures Eval(env, JoinedWithValue(PathOp(Replace(v, t, s), p, Replace(v, t, o), DefaultGraph), v, t))
            == Eval(env, Filter(PathOp(s, p, o, DefaultGraph), e))
  {
    var s', o' := Replace(v, t, s), Replace(v, t, o);
    PathSubstitutionExact(env, e, s, p, o, DefaultGraph, v, t);
    NullableWays(p, Fixed(s), Fixed(o));
    NullableWays(p, Fixed(s'), Fixed(o'));
    if Nullable(p, Fixed(s), Fixed(o)) {
      NullableMore(p, Fixed(s), Fixed(o), Fixed(s'), Fixed(o'));
      if NoAlternatives(p) {
        OneWay(p, Fixed(s), Fixed(o));
        OneWay(p, Fixed(s'), Fixed(o'));
      }
    }
  }

  /** Data in which the path `p` relates `t` to `B` in the graph `g` and nothing anywhere else. */
  ghost function OnlyIn(g: Term, p: Path, t: Term): Env {
    Plainest({t, B}).(pairs := (q: Path, h: Term) => if q == p && h == g then multiset{(t, B)} else multiset{})
  }

  /** The rebuilt path is evaluated on the default graph, whatever the graph of the original: in every other
      graph there is data on which `FILTER(?x = <t>)` over `?x path ?y` loses its solution. */
  lemma PathSubstitutionLosesGraph(g: Term, p: Path, t: Term)
    requires g != DefaultGraph && Fixed(t)
    ensures (var env, e := OnlyIn(g, p, t), Call("=", [TermE(Var("x")), TermE(t)]);
             && EqualsOnly(env, e, "x", t, Eval(env, PathOp(Var("x"), p, Var("y"), g)))
             && Eval(env, JoinedWithValue(PathOp(t, p, Var("y"), DefaultGraph), "x", t))
                != Eval(env, Filter(PathOp(Var("x"), p, Var("y"), g), e)))
  {
    var env, e := OnlyIn(g, p, t), Call("=", [TermE(Var("x")), TermE(t)]);
    forall m: Mapping | "x" in m ensures Sat(env, e, m) <==> m["x"] == t { SatEqualIn(env, Var("x"), t, m); }
    PathSubstitutionExact(env, e, Var("x"), p, Var("y"), g, "x", t);
    assert Admits(t, Var("y"), (t, B));
    ZeroPairsCount(env, Var("x"), p, Var("y"), g, (t, B));
    ZeroPairsCount(env, t, p, Var("y"), DefaultGraph, (t, B));
    assert PathPairs(env, Var("x"), p, Var("y"), g)[(t, B)] != PathPairs(env, t, p, Var("y"), DefaultGraph)[(t, B)];
  }
}
