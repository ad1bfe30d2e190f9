/** Exactly when each rule of the filter pushdown is right, for all data of given scopes and all filters that read given
    variables. */
module FilterPushdownExact {
  import opened Terms
  import opened Logic
  import opened Bags
  import opened Products
  import opened Joins
  import opened JoinGroups
  import opened Algebra
  import opened FilterPushdown
  import opened FilterPushdownProof
  import opened FilterPushdownGaps

  // ----- dropping the filter -----

  ghost predicate Drops(b: Bag, p: Mapping -> bool) { Select(b, p) == b }

  /** One filter can be dropped on all data of a scope exactly if it accepts every mapping of that scope. */
  lemma DropExactly(env: Env, e: Expr, may: set<string>)
    ensures (forall b :: Within(b, may) ==> Drops(b, SatP(env, e))) <==> Accepts(env, e, may)
  {
    if Accepts(env, e, may) {
      forall b | Within(b, may) ensures Drops(b, SatP(env, e)) { AcceptsSelect(env, e, b, may); }
    } else {
      var m: Mapping :| m.Keys <= may && !Sat(env, e, m);
      SelectAll(multiset{m}, SatP(env, e));
      assert Within(multiset{m}, may) && m in multiset{m} && !Drops(multiset{m}, SatP(env, e));
    }
  }

  ghost function LacksVar(v: string): Mapping -> bool { m => v !in m }

  ghost predicate AlwaysDrops(vars: set<string>, may: set<string>) {
    forall p, b :: ReadsOnly(p, vars) && p(map[]) && Within(b, may) ==> Drops(b, p)
  }

  /** All filters that accept the empty solution can be dropped exactly if they read nothing in scope. */
  lemma AlwaysDropsExactly(vars: set<string>, may: set<string>)
    ensures AlwaysDrops(vars, may) <==> vars * may == {}
  {
    if vars * may == {} {
      forall p, b | ReadsOnly(p, vars) && p(map[]) && Within(b, may) ensures Drops(b, p) {
        forall m | m in b ensures p(m) {
          forall x | x in vars ensures x !in m { assert x !in vars * may; }
          assert Agree(m, map[], vars);
        }
        SelectAll(b, p);
      }
    } else {
      var v :| v in vars * may;
      assert ReadsOnly(LacksVar(v), vars) && Within(multiset{Row({v})}, may);
      assert Row({v}) in multiset{Row({v})};
      SelectAll(multiset{Row({v})}, LacksVar(v));
      assert !Drops(multiset{Row({v})}, LacksVar(v));
    }
  }

  // ----- below a projection -----

  ghost predicate PassesProjection(b: Bag, keep: set<string>, p: Mapping -> bool) {
    Select(Bind(b, ProjectRow(keep)), p) == Bind(Select(b, p), ProjectRow(keep))
  }

  ghost predicate AlwaysPassesProjection(vars: set<string>, scope: set<string>, keep: set<string>) {
    forall p, b :: ReadsOnly(p, vars) && Within(b, scope) ==> PassesProjection(b, keep, p)
  }

  lemma HiddenVariable(keep: set<string>, v: string)
    requires v !in keep
    ensures !PassesProjection(multiset{Row({v})}, keep, HasVar(v))
  {
    var row := Row({v});
    BindOne(row, ProjectRow(keep));
    BindOne(Restrict(row, keep), Keep(HasVar(v)));
    BindOne(row, Keep(HasVar(v)));
  }

  /** A filter can be pushed below a projection exactly if the projection keeps whatever the filter reads of its
      input. */
  lemma ProjectExactly(vars: set<string>, scope: set<string>, keep: set<string>)
    ensures AlwaysPassesProjection(vars, scope, keep) <==> vars * scope <= keep
  {
    if vars * scope <= keep {
      forall p, b | ReadsOnly(p, vars) && Within(b, scope) ensures PassesProjection(b, keep, p) {
        ProjectSelect(p, b, keep, vars, scope);
      }
    } else {
      var v :| v in vars * scope && v !in keep;
      HiddenVariable(keep, v);
      assert ReadsOnly(HasVar(v), vars) && Within(multiset{Row({v})}, scope);
    }
  }

  // ----- below an extension -----

  ghost predicate PassesExtension(env: Env, b: Bag, v: string, x: Expr, p: Mapping -> bool) {
    Select(Bind(b, ExtendRow(env, v, x)), p) == Bind(Select(b, p), ExtendRow(env, v, x))
  }

  ghost predicate AlwaysPassesExtension(vars: set<string>, v: string) {
    forall env, b, x, p :: ReadsOnly(p, vars) ==> PassesExtension(env, b, v, x, p)
  }

  lemma NewVariable(env: Env, v: string)
    ensures !PassesExtension(env, multiset{map[]}, v, TermE(A), HasVar(v))
  {
    var none: Mapping := map[];
    BindOne(none, ExtendRow(env, v, TermE(A)));
    BindOne(none[v := A], Keep(HasVar(v)));
    BindOne(none, Keep(HasVar(v)));
    BindNone(ExtendRow(env, v, TermE(A)));
  }

  /** And below an extension exactly if it does not read the new variable. */
  lemma ExtendExactly(vars: set<string>, v: string)
    ensures AlwaysPassesExtension(vars, v) <==> v !in vars
  {
    if v !in vars {
      forall env: Env, b, x, p | ReadsOnly(p, vars) ensures PassesExtension(env, b, v, x, p) {
        ExtendSelect(env, p, b, v, x, vars);
      }
    } else {
      NewVariable(Plainest({}), v);
      assert ReadsOnly(HasVar(v), vars);
    }
  }

  // ----- onto the left operand of a left join -----

  ghost predicate PassesLeftJoin(m: Bag, n: Bag, cond: Mapping -> bool, p: Mapping -> bool) {
    Select(LeftJoinBag(m, n, cond), p) == LeftJoinBag(Select(m, p), n, cond)
  }

  ghost predicate AlwaysPassesLeftJoin(vars: set<string>, left: Shape, right: set<string>) {
    forall m, n, cond, p :: ReadsOnly(p, vars) && Binds(m, left.must) && Within(m, left.may) && Within(n, right) ==>
      PassesLeftJoin(m, n, cond, p)
  }

  ghost function All(): Mapping -> bool { m => true }

  lemma OptionalJoined(must: set<string>, v: string)
    ensures LeftJoinBag(multiset{Row(must)}, multiset{Row({v})}, All()) == multiset{Row(must + {v})}
  {
    var a, b, c := Row(must), Row({v}), Row(must + {v});
    assert a + b == c && Compatible(a, b);
    BindOne(b, Right(Merge, a));
    assert Bind(multiset{b}, Right(Merge, a)) == Merge(a, b) == multiset{c};
    BindOne(c, Keep(All()));
    assert Fits(a, multiset{b}, Merge, All()) == multiset{c};
    BindOne(a, OrBare(multiset{b}, Merge, All()));
  }

  lemma OptionalVariable(must: set<string>, v: string)
    requires v !in must
    ensures !PassesLeftJoin(multiset{Row(must)}, multiset{Row({v})}, All(), HasVar(v))
  {
    OptionalJoined(must, v);
    BindOne(Row(must + {v}), Keep(HasVar(v)));
    BindOne(Row(must), Keep(HasVar(v)));
    BindNone(OrBare(multiset{Row({v})}, Merge, All()));
  }

  /** And onto the left operand of a left join exactly if whatever it reads of the right operand is bound on the left
      for certain. */
  lemma LeftJoinExactly(vars: set<string>, left: Shape, right: set<string>)
    requires left.must <= left.may
    ensures AlwaysPassesLeftJoin(vars, left, right) <==> vars * right <= left.must
  {
    if vars * right <= left.must {
      forall m, n, cond, p | ReadsOnly(p, vars) && Binds(m, left.must) && Within(m, left.may) && Within(n, right)
        ensures PassesLeftJoin(m, n, cond, p)
      {
        SelectLeftJoin(m, n, cond, p, vars, left.must, right);
      }
    } else {
      var v :| v in vars * right && v !in left.must;
      OptionalVariable(left.must, v);
      assert ReadsOnly(HasVar(v), vars) && Within(multiset{Row({v})}, right);
      assert Binds(multiset{Row(left.must)}, left.must) && Within(multiset{Row(left.must)}, left.may);
    }
  }

  // ----- a projection hides a variable -----

  /** `FILTER(?x = ?y)` over `SELECT ?x` of a solution with both variables: the filter is pushed to where `?y` is still
      bound, and a solution appears that the filter rejects. */
  lemma ProjectionInventsSolutions(env: Env, cfg: Config, op: Op)
    requires ComparesTerms(env) && cfg == Standard() && op == Project(OneRow(Row(XY)), X)
    ensures Eval(env, Filter(op, Eq("x", "y"))) == multiset{}
    ensures Eval(env, Pushdown(cfg, Eq("x", "y"), op).1) == multiset{Row(X)}
  {
    EqReads(cfg, "x", "y");
    ProjectedRow(env);
    RowFiltered(env, "x", "y", X);
    FilterEval(env, op, Eq("x", "y"));
    assert "x" in X * XY;
    assert Pushdown(cfg, Eq("x", "y"), op).1 == Project(Filter(OneRow(Row(XY)), Eq("x", "y")), X);
  }

  lemma ProjectedRow(env: Env)
    requires ComparesTerms(env)
    ensures Eval(env, Project(OneRow(Row(XY)), X)) == multiset{Row(X)}
    ensures Eval(env, Project(Filter(OneRow(Row(XY)), Eq("x", "y")), X)) == multiset{Row(X)}
  {
    OneRowEval(env, Row(XY));
    RowFiltered(env, "x", "y", XY);
    BindOne(Row(XY), ProjectRow(X));
    assert Restrict(Row(XY), X) == Row(X);
  }

  // ----- a named function hides a variable -----

  /** A named function that tests its argument. */
  ghost function Testing(data: set<Term>): Env {
    Plainest({}).(named := (f: string, args: seq<Value>) =>
        if |args| == 1 && args[0].Ok? then Ok(Bool(args[0] == Ok(A))) else Err,
                  quads := (src: Option<nat>) => data)
  }

  const X_IS_A := Named("urn:isA", [TermE(Var("x"))])

  lemma NamedSat(data: set<Term>, m: Mapping)
    ensures Sat(Testing(data), X_IS_A, m) <==> "x" in m && m["x"] == A
  {
    var env, args := Testing(data), X_IS_A.args;
    assert args[1..] == [] && EvalArgs(env, args, m) == [EvalE(env, args[0], m)] + EvalArgs(env, args[1..], m);
    assert Bool(true) != Bool(false);
  }

  lemma NamedReads(cfg: Config)
    ensures ExprVars(cfg, X_IS_A) == {} && Reads(X_IS_A) == X && ExistsFree(X_IS_A)
  {
    var args := X_IS_A.args;
    assert args[1..] == [] && ReadsAll(args) == Reads(args[0]) + ReadsAll(args[1..]);
  }

  lemma NamedSelect(data: set<Term>, m: Mapping)
    ensures Select(multiset{m}, SatP(Testing(data), X_IS_A))
         == if "x" in m && m["x"] == A then multiset{m} else multiset{}
  {
    NamedSat(data, m);
    BindOne(m, Keep(SatP(Testing(data), X_IS_A)));
  }

  const X_B: Mapping := map["x" := B]

  lemma RejectedRow(env: Env, op: Op)
    requires env == Testing({}) && Eval(env, op) == multiset{X_B}
    ensures Eval(env, Filter(op, X_IS_A)) == multiset{}
  {
    NamedSelect({}, X_B);
    FilterEval(env, op, X_IS_A);
  }

  lemma RowKept(env: Env, m: Mapping, keep: set<string>)
    requires m.Keys <= keep
    ensures Eval(env, Project(OneRow(m), keep)) == multiset{m}
  {
    OneRowEval(env, m);
    BindOne(m, ProjectRow(keep));
    assert Restrict(m, keep) == m;
  }

  lemma NothingSeen(cfg: Config, m: Mapping, keep: set<string>)
    ensures Pushdown(cfg, X_IS_A, OneRow(m)).1 == OneRow(m)
    ensures Pushdown(cfg, X_IS_A, Project(OneRow(m), keep)).1 == Project(OneRow(m), keep)
  {
    NamedReads(cfg);
  }

  /** The optimizer sees no variable in the filter, so it shares none with VALUES or a projection: the filter is dropped
      where it rejects everything. */
  lemma NamedFilterDropped(env: Env, cfg: Config, op: Op)
    requires env == Testing({}) && cfg == Standard()
    requires op == OneRow(X_B) || op == Project(OneRow(X_B), X)
    ensures Pushdown(cfg, X_IS_A, op).1 == op && Eval(env, op) == multiset{X_B}
    ensures Eval(env, Filter(op, X_IS_A)) == multiset{}
  {
    NothingSeen(cfg, X_B, X);
    OneRowEval(env, X_B);
    RowKept(env, X_B, X);
    RejectedRow(env, op);
  }

  function VarPattern(v: string): Op { Pattern(Quad(Var(v), A, A, DefaultGraph), None) }

  const LOOP := Quad(A, A, A, DefaultGraph)

  lemma LoopSolution(v: string, m: Mapping)
    ensures Solves(m, VarPattern(v).quad, {LOOP}) <==> m == Row({v})
  {
    var quad := VarPattern(v).quad;
    assert Vars(quad) == {v} && Subst(m, quad) == Quad(Subst(m, Var(v)), A, A, DefaultGraph);
    if m.Keys == {v} && m[v] == A { assert m == Row({v}); }
  }

  lemma VarPatternEval(env: Env, v: string)
    requires env.quads(None) == {LOOP}
    ensures Eval(env, VarPattern(v)) == multiset{Row({v})}
  {
    var quad := VarPattern(v).quad;
    forall m ensures m in Solutions(quad, {LOOP}) <==> m == Row({v}) {
      SolutionsAre(quad, {LOOP}, m);
      LoopSolution(v, m);
    }
    assert Solutions(quad, {LOOP}) == {Row({v})};
  }

  lemma JoinEval(env: Env, a: Op, b: Op)
    ensures Eval(env, Join([a, b])) == JoinBag(Eval(env, a), Eval(env, b))
  {
    assert [a, b] == [a] + [b];
    OfConcat(env, [a], [b]);
    OfOne(env, a);
    OfOne(env, b);
  }

  lemma NamedJoined(env: Env)
    requires env == Testing({LOOP})
    ensures Eval(env, Filter(Join([VarPattern("x"), VarPattern("y")]), X_IS_A)) == multiset{Row(XY)}
  {
    VarPatternEval(env, "x");
    VarPatternEval(env, "y");
    JoinEval(env, VarPattern("x"), VarPattern("y"));
    RowsJoin(X, {"y"});
    assert X + {"y"} == XY;
    NamedSelect({LOOP}, Row(XY));
    FilterEval(env, Join([VarPattern("x"), VarPattern("y")]), X_IS_A);
  }

  lemma YFilteredAway(env: Env)
    requires env == Testing({LOOP})
    ensures Eval(env, Filter(VarPattern("y"), X_IS_A)) == multiset{}
  {
    VarPatternEval(env, "y");
    NamedSelect({LOOP}, Row({"y"}));
    FilterEval(env, VarPattern("y"), X_IS_A);
  }

  /** A filter without seen variables overlaps with everything. */
  lemma {:induction false} AllFully(cfg: Config, ops: seq<Op>)
    ensures Those(cfg, {}, ops, Fully) == ops && Those(cfg, {}, ops, Partially) == [] && Those(cfg, {}, ops, Not) == []
  {
    if ops != [] {
      AllFully(cfg, ops[1..]);
      assert ops == [ops[0]] + ops[1..];
    }
  }

  lemma PushBoth(cfg: Config, e: Expr, a: Op, b: Op)
    requires ExprVars(cfg, e) == {}
    ensures PushIntoFully(cfg, e, [a, b]) == [Pushdown(cfg, e, a).1, Pushdown(cfg, e, b).1]
  {
    assert [a, b][1..] == [b] && [b][1..] == [];
    assert PushIntoFully(cfg, e, [b]) == [Pushdown(cfg, e, b).1] + PushIntoFully(cfg, e, []);
  }

  lemma PushedEach(env: Env, cfg: Config, e: Expr, a: Op, b: Op)
    requires ExprVars(cfg, e) == {} && !IsFalse(e) && !e.Exists?
    ensures Eval(env, Pushdown(cfg, e, Join([a, b])).1)
            == JoinBag(Eval(env, Pushdown(cfg, e, a).1), Eval(env, Pushdown(cfg, e, b).1))
  {
    var pa, pb := Pushdown(cfg, e, a).1, Pushdown(cfg, e, b).1;
    AllFully(cfg, [a, b]);
    PushedJoin(env, cfg, e, [a, b]);
    PushBoth(cfg, e, a, b);
    JoinEval(env, pa, pb);
    OfNone(env);
    JoinUnit(JoinOf(env, [pa, pb]));
  }

  lemma NamedStays(cfg: Config, v: string)
    ensures Pushdown(cfg, X_IS_A, VarPattern(v)).1 == Filter(VarPattern(v), X_IS_A)
  {
  }

  /** No variables are a part of every scope, so over a join the filter also goes into the inputs that do not bind
      what it reads: the only solution is lost. */
  lemma NamedFilterLosesSolutions(env: Env, cfg: Config, op: Op)
    requires env == Testing({LOOP}) && cfg == Standard() && op == Join([VarPattern("x"), VarPattern("y")])
    ensures Eval(env, Filter(op, X_IS_A)) == multiset{Row(XY)}
    ensures Eval(env, Pushdown(cfg, X_IS_A, op).1) == multiset{}
  {
    NamedReads(cfg);
    NamedJoined(env);
    PushedEach(env, cfg, X_IS_A, VarPattern("x"), VarPattern("y"));
    NamedStays(cfg, "x");
    NamedStays(cfg, "y");
    YFilteredAway(env);
    JoinZero(Eval(env, Filter(VarPattern("x"), X_IS_A)));
  }
}
