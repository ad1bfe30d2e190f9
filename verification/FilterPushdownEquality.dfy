/** Which equalities are substituted into patterns, what such an equality says, and when the substitution is right. */
module FilterPushdownEquality {
  import opened Terms
  import opened Logic
  import opened Bags
  import opened Products
  import opened Joins
  import opened JoinGroups
  import opened Algebra
  import opened FilterPushdown
  import opened FilterPushdownProof
  import opened FilterPushdownSteady
  import opened FilterPushdownGaps
  import opened ValueSubstitution
  import opened TermEquality

  // ----- which equalities -----

  /** A constant that is no literal, or a literal of one of the eleven datatypes that the optimizer takes to have one
      lexical form for each value. */
  predicate Substitutable(t: Term) {
    match t
    case Var(_) => false
    case Literal(_, dtype, _) =>
      || dtype == "http://www.w3.org/2001/XMLSchema#string"
      || dtype == "http://www.w3.org/1999/02/22-rdf-syntax-ns#langString"
      || dtype == "http://www.w3.org/2001/XMLSchema#normalizedString"
      || dtype == "http://www.w3.org/2001/XMLSchema#anyURI"
      || dtype == "http://www.w3.org/2001/XMLSchema#base64Binary"
      || dtype == "http://www.w3.org/2001/XMLSchema#language"
      || dtype == "http://www.w3.org/2001/XMLSchema#Name"
      || dtype == "http://www.w3.org/2001/XMLSchema#NCName"
      || dtype == "http://www.w3.org/2001/XMLSchema#NMTOKEN"
      || dtype == "http://www.w3.org/2001/XMLSchema#token"
      || dtype == "http://www.w3.org/2001/XMLSchema#hexBinary"
    case _ => true
  }

  /** `?x = t` or `t = ?x`. */
  predicate IsEquality(e: Expr, x: string, t: Term) {
    e == Call("=", [TermE(Var(x)), TermE(t)]) || e == Call("=", [TermE(t), TermE(Var(x))])
  }

  /** Exactly the equalities of a variable and such a constant are substituted, on either side. */
  lemma SubstitutedExactly(e: Expr, x: string, t: Term)
    ensures EqualityParts(e) == Some((x, t)) <==> IsEquality(e, x, t) && Substitutable(t)
  {
    if e.Call? && |e.args| == 2 { assert e.args == [e.args[0], e.args[1]]; }
  }

  // ----- what they say -----

  /** `=` is true of such a constant and itself only. */
  ghost predicate Distinguishes(env: Env) {
    forall t, u :: Substitutable(t) ==> (EqualTo(env, t, u) <==> u == t) && (EqualTo(env, u, t) <==> u == t)
  }

  ghost predicate EqualTo(env: Env, l: Term, r: Term) { Ebv(env, env.builtin("=", [Ok(l), Ok(r)])).True? }

  lemma EqualityArgs(env: Env, l: Term, r: Term, m: Mapping)
    ensures EvalE(env, Call("=", [TermE(l), TermE(r)]), m)
            == env.builtin("=", [EvalE(env, TermE(l), m), EvalE(env, TermE(r), m)])
  {
    var args := [TermE(l), TermE(r)];
    assert args[1..] == [TermE(r)] && [TermE(r)][1..] == [];
    assert EvalArgs(env, [TermE(r)], m) == [EvalE(env, TermE(r), m)] + EvalArgs(env, [], m);
    assert EvalArgs(env, args, m) == [EvalE(env, TermE(l), m)] + EvalArgs(env, [TermE(r)], m);
    assert EvalArgs(env, args, m) == [EvalE(env, TermE(l), m), EvalE(env, TermE(r), m)];
  }

  lemma EqualitySat(env: Env, e: Expr, x: string, t: Term, m: Mapping)
    requires IsEquality(e, x, t) && !t.Var? && x in m
    ensures Sat(env, e, m) <==> if e.args[0] == TermE(t) then EqualTo(env, t, m[x]) else EqualTo(env, m[x], t)
  {
    EqualityArgs(env, t, Var(x), m);
    EqualityArgs(env, Var(x), t, m);
  }

  /** A substituted equality holds for the substituted term only. */
  lemma EqualityMeans(env: Env, e: Expr, x: string, t: Term, m: Mapping)
    requires Distinguishes(env) && EqualityParts(e) == Some((x, t)) && x in m
    ensures Sat(env, e, m) <==> m[x] == t
  {
    SubstitutedExactly(e, x, t);
    EqualitySat(env, e, x, t, m);
  }

  /** The constants of the expression have no variables inside. */
  predicate GroundConstants(e: Expr) {
    e.Call? ==> forall i :: 0 <= i < |e.args| && e.args[i].TermE? && !e.args[i].term.Var? ==> Vars(e.args[i].term) == {}
  }

  lemma EqualityGround(e: Expr)
    requires GroundConstants(e) && EqualityParts(e).Some?
    ensures Vars(EqualityParts(e).value.1) == {} && ExistsFree(e)
  {
  }

  lemma SubstitutionSound(env: Env, e: Expr, quad: Term, src: Option<nat>, v: string, t: Term)
    requires Distinguishes(env) && EqualityParts(e) == Some((v, t)) && v in Vars(quad) && Vars(t) == {}
    ensures WithValue(Eval(env, Pattern(Subst(map[v := t], quad), src)), v, t)
            == Select(Eval(env, Pattern(quad, src)), SatP(env, e))
  {
    forall m | m in Eval(env, Pattern(quad, src)) && v in m ensures Sat(env, e, m) <==> m[v] == t {
      EqualityMeans(env, e, v, t, m);
    }
    PatternEqualityExact(env, e, quad, src, v, t);
  }

  /** On patterns, whatever the data, pushing is right for every filter. */
  lemma PatternsSound(env: Env, cfg: Config, e: Expr, quad: Term, src: Option<nat>)
    requires Distinguishes(env) && GroundConstants(e) && !IsFalse(e)
    ensures Eval(env, Pushdown(cfg, e, Pattern(quad, src)).1) == Select(Eval(env, Pattern(quad, src)), SatP(env, e))
  {
    var eq := EqualityParts(e);
    if !e.Exists? && cfg.pushEqualityIntoPatterns && eq.Some? && eq.value.0 in Vars(quad) {
      var (v, t) := eq.value;
      EqualityGround(e);
      SubstitutionSound(env, e, quad, src, v, t);
      JoinedWithValueEval(env, Pattern(Subst(map[v := t], quad), src), v, t);
    }
  }

  /** So on the steady fragment nothing has to be known about the filters but their variables. */
  lemma RegularFilters(env: Env, cfg: Config, eqs: set<string>, e: Expr)
    requires Distinguishes(env) && GroundConstants(e)
    requires !IsFalse(e) && ExistsFree(e) && ExprVars(cfg, e) != {} && Separate(eqs, Needs(cfg, e))
    requires forall x, t :: IsEquality(e, x, t) && Substitutable(t) ==> x in eqs
    ensures Regular(env, cfg, eqs, e)
  {
    if EqualityParts(e).Some? {
      var (x, t) := EqualityParts(e).value;
      SubstitutedExactly(e, x, t);
      EqualityGround(e);
      EqualityNeeds(cfg, e, x, t);
      forall m: Mapping | x in m ensures Sat(env, e, m) <==> m[x] == t { EqualityMeans(env, e, x, t, m); }
    }
  }

  lemma EqualityNeeds(cfg: Config, e: Expr, x: string, t: Term)
    requires IsEquality(e, x, t) && !t.Var?
    ensures Needs(cfg, e) == {x}
  {
    var args := e.args;
    assert args[1..][1..] == [];
    assert ExprVarsAll(cfg, args) == ExprVars(cfg, args[0]) + (ExprVars(cfg, args[1]) + ExprVarsAll(cfg, []));
    assert ReadsAll(args) == Reads(args[0]) + (Reads(args[1]) + ReadsAll([]));
  }

  // ----- when the evaluator agrees -----

  /** The operator `=` of the evaluator. */
  ghost predicate EvaluatesEquality(env: Env, c: Comparison) {
    Fair(c) && forall t, u :: env.builtin("=", [Ok(t), Ok(u)]) == OfTri(TermsEqual(c, t, u))
  }

  lemma EvaluatedEqual(env: Env, c: Comparison, t: Term, u: Term)
    requires EvaluatesEquality(env, c)
    ensures EqualTo(env, t, u) <==> TermsEqual(c, t, u).True?
    ensures EqualTo(env, u, t) <==> TermsEqual(c, t, u).True?
  {
    Symmetric(c, t, u);
    assert Bool(true) != Bool(false);
  }

  /** The evaluator compares all string types by their texts, so it is not among the environments above. */
  lemma StringsNotDistinguished(env: Env, c: Comparison)
    requires EvaluatesEquality(env, c)
    ensures !Distinguishes(env)
  {
    EvaluatedEqual(env, c, TEST1, NORMALIZED_TEST1);
    assert Substitutable(TEST1) && TEST1 != NORMALIZED_TEST1;
  }

  /** The substitution of `?x = t` into a pattern keeps the solutions of the filter. */
  ghost predicate Substitutes(env: Env, e: Expr, quad: Term, x: string, t: Term) {
    WithValue(Eval(env, Pattern(Subst(map[x := t], quad), None)), x, t)
    == Select(Eval(env, Pattern(quad, None)), SatP(env, e))
  }

  ghost function Over(env: Env, data: set<Term>): Env { env.(quads := (src: Option<nat>) => data) }

  /** A quad for the pattern with a given term in place of the variable. */
  ghost function Instance(quad: Term, x: string, u: Term): Mapping {
    map y | y in Vars(quad) :: if y == x then u else DefaultGraph
  }

  lemma InstanceFound(env: Env, quad: Term, x: string, u: Term)
    ensures (var m := Instance(quad, x, u); m in Eval(Over(env, {Subst(m, quad)}), Pattern(quad, None)))
  {
    var m := Instance(quad, x, u);
    SolutionsAre(quad, {Subst(m, quad)}, m);
  }

  lemma OverSat(env: Env, c: Comparison, data: set<Term>, e: Expr, x: string, t: Term, m: Mapping)
    requires EvaluatesEquality(env, c) && IsEquality(e, x, t) && !t.Var? && x in m
    ensures Sat(Over(env, data), e, m) <==> TermsEqual(c, t, m[x]).True?
  {
    EqualitySat(Over(env, data), e, x, t, m);
    EvaluatedEqual(Over(env, data), c, t, m[x]);
  }

  /** With the evaluator's `=`, substituting into a pattern is right for all data exactly if the substituted term has
      no text in it, and no value that can be written differently. */
  lemma EvaluatedExactly(env: Env, c: Comparison, e: Expr, quad: Term, x: string, t: Term)
    requires EvaluatesEquality(env, c) && IsEquality(e, x, t) && !t.Var? && Vars(t) == {} && x in Vars(quad)
    ensures (forall data :: Substitutes(Over(env, data), e, quad, x, t)) <==> Definite(c, t)
  {
    SingularExactly(c, t);
    if Singular(c, t) {
      forall data
        ensures Substitutes(Over(env, data), e, quad, x, t)
      {
        SingularSubstitutes(env, c, data, e, quad, x, t);
      }
    }
    if forall data :: Substitutes(Over(env, data), e, quad, x, t) {
      forall u ensures TermsEqual(c, t, u).True? <==> u == t { SubstitutesSingular(env, c, e, quad, x, t, u); }
    }
  }

  lemma SingularSubstitutes(env: Env, c: Comparison, data: set<Term>, e: Expr, quad: Term, x: string, t: Term)
    requires EvaluatesEquality(env, c) && IsEquality(e, x, t) && !t.Var? && Vars(t) == {} && x in Vars(quad)
    requires Singular(c, t)
    ensures Substitutes(Over(env, data), e, quad, x, t)
  {
    var over := Over(env, data);
    forall m | m in Eval(over, Pattern(quad, None)) && x in m ensures Sat(over, e, m) <==> m[x] == t {
      OverSat(env, c, data, e, x, t, m);
    }
    PatternEqualityExact(over, e, quad, None, x, t);
  }

  lemma SubstitutesSingular(env: Env, c: Comparison, e: Expr, quad: Term, x: string, t: Term, u: Term)
    requires EvaluatesEquality(env, c) && IsEquality(e, x, t) && !t.Var? && Vars(t) == {} && x in Vars(quad)
    requires forall data :: Substitutes(Over(env, data), e, quad, x, t)
    ensures TermsEqual(c, t, u).True? <==> u == t
  {
    var m := Instance(quad, x, u);
    var data := {Subst(m, quad)};
    InstanceFound(env, quad, x, u);
    assert Substitutes(Over(env, data), e, quad, x, t);
    PatternEqualityExact(Over(env, data), e, quad, None, x, t);
    OverSat(env, c, data, e, x, t, m);
    assert m[x] == u;
  }

  // ----- a filter on a string -----

  const TEST1 := Literal("test1", XSD_STRING, "")
  const NORMALIZED_TEST1 := Literal("test1", XSD_NORMALIZED_STRING, "")
  const IS_TEST1 := Call("=", [TermE(Var("x")), TermE(TEST1)])

  function OfA(t: Term): Term { Quad(A, A, t, DefaultGraph) }

  lemma OfAPattern(m: Mapping, t: Term)
    ensures Vars(OfA(t)) == Vars(t) && Subst(m, OfA(t)) == OfA(Subst(m, t))
  {
  }

  lemma ValuesOfA(data: set<Term>)
    requires data == {OfA(NORMALIZED_TEST1)}
    ensures Solutions(OfA(Var("x")), data) == {map["x" := NORMALIZED_TEST1]}
  {
    var row: Mapping := map["x" := NORMALIZED_TEST1];
    forall m: Mapping ensures m in Solutions(OfA(Var("x")), data) <==> m == row {
      SolutionsAre(OfA(Var("x")), data, m);
      OfAPattern(m, Var("x"));
      if m.Keys == {"x"} && m["x"] == NORMALIZED_TEST1 { assert m == row; }
    }
  }

  lemma NothingSubstituted(data: set<Term>)
    requires data == {OfA(NORMALIZED_TEST1)}
    ensures multiset(Solutions(Subst(map["x" := TEST1], OfA(Var("x"))), data)) == multiset{}
  {
    OfAPattern(map["x" := TEST1], Var("x"));
    forall m: Mapping ensures m !in Solutions(OfA(TEST1), data) {
      SolutionsAre(OfA(TEST1), data, m);
      OfAPattern(m, TEST1);
    }
  }

  lemma FilterKeepsRow(env: Env, c: Comparison)
    requires EvaluatesEquality(env, c)
    ensures Select(multiset{map["x" := NORMALIZED_TEST1]}, SatP(env, IS_TEST1))
            == multiset{map["x" := NORMALIZED_TEST1]}
  {
    var row: Mapping := map["x" := NORMALIZED_TEST1];
    EqualitySat(env, IS_TEST1, "x", TEST1, row);
    EvaluatedEqual(env, c, TEST1, NORMALIZED_TEST1);
    BindOne(row, Keep(SatP(env, IS_TEST1)));
  }

  lemma TestPushed(env: Env, cfg: Config)
    requires cfg == Standard()
    ensures Eval(env, Pushdown(cfg, IS_TEST1, Pattern(OfA(Var("x")), None)).1)
            == WithValue(Eval(env, Pattern(Subst(map["x" := TEST1], OfA(Var("x"))), None)), "x", TEST1)
  {
    var quad := OfA(Var("x"));
    SubstitutedExactly(IS_TEST1, "x", TEST1);
    OfAPattern(map[], Var("x"));
    assert Pushdown(cfg, IS_TEST1, Pattern(quad, None)).1
        == JoinedWithValue(Pattern(Subst(map["x" := TEST1], quad), None), "x", TEST1);
    JoinedWithValueEval(env, Pattern(Subst(map["x" := TEST1], quad), None), "x", TEST1);
  }

  lemma PatternEval(env: Env, quad: Term)
    ensures Eval(env, Pattern(quad, None)) == multiset(Solutions(quad, env.quads(None)))
  {
  }

  lemma TestKept(env: Env, c: Comparison)
    requires EvaluatesEquality(env, c) && env.quads(None) == {OfA(NORMALIZED_TEST1)}
    ensures Eval(env, Filter(Pattern(OfA(Var("x")), None), IS_TEST1)) == multiset{map["x" := NORMALIZED_TEST1]}
  {
    PatternEval(env, OfA(Var("x")));
    ValuesOfA(env.quads(None));
    var row: Mapping := map["x" := NORMALIZED_TEST1];
    assert multiset(Solutions(OfA(Var("x")), env.quads(None))) == multiset{row};
    FilterKeepsRow(env, c);
    FilterEval(env, Pattern(OfA(Var("x")), None), IS_TEST1);
  }

  lemma TestLost(env: Env, cfg: Config)
    requires cfg == Standard() && env.quads(None) == {OfA(NORMALIZED_TEST1)}
    ensures Eval(env, Pushdown(cfg, IS_TEST1, Pattern(OfA(Var("x")), None)).1) == multiset{}
  {
    TestPushed(env, cfg);
    PatternEval(env, Subst(map["x" := TEST1], OfA(Var("x"))));
    NothingSubstituted(env.quads(None));
    JoinZero(multiset{map["x" := TEST1]});
  }

  /** `FILTER(?x = "test1")` over a pattern that gives `?x` the value `"test1"^^xsd:normalizedString`, which is equal to
      it: the filter keeps the solution, the substituted pattern has none. */
  lemma StringSubstitutionLosesSolutions(env: Env, c: Comparison, cfg: Config, op: Op)
    requires EvaluatesEquality(env, c) && cfg == Standard() && op == Pattern(OfA(Var("x")), None)
    requires env.quads(None) == {OfA(NORMALIZED_TEST1)}
    ensures Eval(env, Filter(op, IS_TEST1)) == multiset{map["x" := NORMALIZED_TEST1]}
    ensures Eval(env, Pushdown(cfg, IS_TEST1, op).1) == multiset{}
  {
    TestKept(env, c);
    TestLost(env, cfg);
  }
}
