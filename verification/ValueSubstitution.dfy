/** Substituting the value of `?v = value` into patterns and paths, and joining the result with that value. */
module ValueSubstitution {
  import opened Terms
  import opened PathExprs
  import opened Bags
  import opened Products
  import opened Joins
  import opened Algebra
  import opened FilterPushdown

  /** On these solutions the equality holds for the very term `t` only. */
  ghost predicate EqualsOnly(env: Env, e: Expr, v: string, t: Term, b: Bag) {
    forall m :: m in b && v in m ==> (Sat(env, e, m) <==> m[v] == t)
  }

  ghost function WithValue(b: Bag, v: string, t: Term): Bag {
    JoinBag(b, multiset{map[v := t]})
  }

  lemma WithValueIs(b: Bag, v: string, t: Term)
    ensures WithValue(b, v, t) == Bind(b, ValueRow(v, t))
  {
    forall a | a in b
      ensures Rows(multiset{map[v := t]}, Merge)(a) == ValueRow(v, t)(a)
    {
      RowsIs(multiset{map[v := t]}, Merge, a);
      BindOne(map[v := t], Right(Merge, a));
    }
    BindExt(b, Rows(multiset{map[v := t]}, Merge), ValueRow(v, t));
  }

  ghost function ValueRow(v: string, t: Term): Mapping -> Bag {
    a => Merge(a, map[v := t])
  }

  lemma JoinedWithValueEval(env: Env, op: Op, v: string, t: Term)
    ensures Eval(env, JoinedWithValue(op, v, t)) == WithValue(Eval(env, op), v, t)
  {
    var values := Values({v}, [map[v := t]]);
    FlattenEval(env, [op, values]);
    assert [op, values] == [op] + [values];
    OfConcat(env, [op], [values]);
    OfOne(env, op);
    OfOne(env, values);
    assert Eval(env, values) == multiset{map[v := t]};
  }

  /** A solution with `t` for `v` is a solution of the substituted pattern, with `v` added. */
  lemma Shortened(quad: Term, data: set<Term>, v: string, t: Term, m: Mapping)
    requires v in Vars(quad) && Vars(t) == {} && v in m && m[v] == t
    ensures Solves(m, quad, data) <==> Solves(m - {v}, Subst(map[v := t], quad), data)
  {
    var w: Mapping, a := map[v := t], m - {v};
    SubstVars(w, quad);
    SubstTwice(w, a, quad);
    assert a + w == m;
  }

  /** As a member of the solutions, with and without `v`. */
  lemma ShortenedSolution(quad: Term, data: set<Term>, v: string, t: Term, m: Mapping)
    requires v in Vars(quad) && Vars(t) == {} && v in m && m[v] == t
    ensures m in Solutions(quad, data) <==> m - {v} in Solutions(Subst(map[v := t], quad), data)
  {
    Shortened(quad, data, v, t, m);
    SolutionsAre(quad, data, m);
    SolutionsAre(Subst(map[v := t], quad), data, m - {v});
  }

  lemma SubstitutedFree(quad: Term, data: set<Term>, v: string, t: Term, a: Mapping)
    requires Vars(t) == {} && a in Solutions(Subst(map[v := t], quad), data)
    ensures (a + map[v := t]) - {v} == a
  {
    SolutionsAre(Subst(map[v := t], quad), data, a);
    SubstVars(map[v := t], quad);
  }

  lemma SubstitutedSolutions(quad: Term, data: set<Term>, v: string, t: Term, m: Mapping)
    requires v in Vars(quad) && Vars(t) == {}
    ensures m in Solutions(quad, data) && m[v] == t
            <==> exists a :: a in Solutions(Subst(map[v := t], quad), data) && m == a + map[v := t]
  {
    var q := Subst(map[v := t], quad);
    SolutionsAre(quad, data, m);
    if v in m && m[v] == t {
      ShortenedSolution(quad, data, v, t, m);
      assert m == (m - {v}) + map[v := t];
    }
    if a :| a in Solutions(q, data) && m == a + map[v := t] { SubstitutedFree(quad, data, v, t, a); }
  }

  ghost function Pushed(quad: Term, data: set<Term>, v: string, t: Term): Bag {
    WithValue(multiset(Solutions(Subst(map[v := t], quad), data)), v, t)
  }

  lemma PushedRow(quad: Term, data: set<Term>, v: string, t: Term, a: Mapping)
    requires Vars(t) == {} && a in Solutions(Subst(map[v := t], quad), data)
    ensures v !in a && ValueRow(v, t)(a) == multiset{a + map[v := t]}
  {
    SolutionsAre(Subst(map[v := t], quad), data, a);
    SubstVars(map[v := t], quad);
  }

  lemma PushedFrom(quad: Term, data: set<Term>, v: string, t: Term, m: Mapping) returns (a: Mapping)
    requires Vars(t) == {} && m in Pushed(quad, data, v, t)
    ensures a in Solutions(Subst(map[v := t], quad), data) && v !in a && m == a + map[v := t]
  {
    var after := multiset(Solutions(Subst(map[v := t], quad), data));
    WithValueIs(after, v, t);
    BindIn(after, ValueRow(v, t), m);
    a :| a in after && m in ValueRow(v, t)(a);
    PushedRow(quad, data, v, t, a);
  }

  lemma PushedMember(quad: Term, data: set<Term>, v: string, t: Term, m: Mapping)
    requires v in Vars(quad) && Vars(t) == {}
    ensures m in Pushed(quad, data, v, t) <==> m in Solutions(quad, data) && m[v] == t
  {
    SubstitutedSolutions(quad, data, v, t, m);
    var after := multiset(Solutions(Subst(map[v := t], quad), data));
    if m in Pushed(quad, data, v, t) {
      var a := PushedFrom(quad, data, v, t, m);
    } else if a :| a in after && m == a + map[v := t] {
      PushedRow(quad, data, v, t, a);
      WithValueIs(after, v, t);
      BindIn(after, ValueRow(v, t), m);
    }
  }

  lemma SameOrigin(quad: Term, data: set<Term>, v: string, t: Term, a: Mapping, b: Mapping, z: Mapping)
    requires Vars(t) == {} && a in Solutions(Subst(map[v := t], quad), data)
             && b in Solutions(Subst(map[v := t], quad), data)
    requires z in ValueRow(v, t)(a) && z in ValueRow(v, t)(b)
    ensures a == b
  {
    PushedRow(quad, data, v, t, a);
    PushedRow(quad, data, v, t, b);
    assert a == z - {v} && b == z - {v};
  }

  lemma PushedDistinct(quad: Term, data: set<Term>, v: string, t: Term)
    requires Vars(t) == {}
    ensures Distinct(Pushed(quad, data, v, t))
  {
    var after := multiset(Solutions(Subst(map[v := t], quad), data));
    WithValueIs(after, v, t);
    forall a, b, z | a in after && b in after && z in ValueRow(v, t)(a) && z in ValueRow(v, t)(b)
      ensures a == b
    {
      SameOrigin(quad, data, v, t, a, b, z);
    }
    forall a | a in after
      ensures Distinct(ValueRow(v, t)(a))
    {
      assert ValueRow(v, t)(a) == Merge(a, map[v := t]);
    }
    BindDistinct(after, ValueRow(v, t));
  }

  lemma PatternMember(env: Env, e: Expr, quad: Term, data: set<Term>, v: string, t: Term, m: Mapping)
    requires v in Vars(quad) && Vars(t) == {}
    ensures m in Solutions(quad, data) ==> v in m
    ensures m in Pushed(quad, data, v, t) <==> m in Solutions(quad, data) && m[v] == t
    ensures m in Select(multiset(Solutions(quad, data)), SatP(env, e)) <==> m in Solutions(quad, data) && Sat(env, e, m)
  {
    SolutionsAre(quad, data, m);
    PushedMember(quad, data, v, t, m);
    SelectIn(multiset(Solutions(quad, data)), SatP(env, e), m);
  }

  lemma SolutionsEqualityExact(env: Env, e: Expr, quad: Term, data: set<Term>, v: string, t: Term)
    requires v in Vars(quad) && Vars(t) == {}
    ensures Pushed(quad, data, v, t) == Select(multiset(Solutions(quad, data)), SatP(env, e))
            <==> EqualsOnly(env, e, v, t, multiset(Solutions(quad, data)))
  {
    var before := multiset(Solutions(quad, data));
    var pushed, kept := Pushed(quad, data, v, t), Select(before, SatP(env, e));
    forall m { PatternMember(env, e, quad, data, v, t, m); }
    PushedDistinct(quad, data, v, t);
    SelectDistinct(before, SatP(env, e));
    DistinctEqual(pushed, kept);
  }

  /** Substituting an equality into a pattern is right exactly when, among the terms the data has at that
      position, the equality holds for the substituted term only. */
  lemma PatternEqualityExact(env: Env, e: Expr, quad: Term, src: Option<nat>, v: string, t: Term)
    requires v in Vars(quad) && Vars(t) == {}
    ensures WithValue(Eval(env, Pattern(Subst(map[v := t], quad), src)), v, t)
            == Select(Eval(env, Pattern(quad, src)), SatP(env, e))
            <==> EqualsOnly(env, e, v, t, Eval(env, Pattern(quad, src)))
  {
    SolutionsEqualityExact(env, e, quad, env.quads(src), v, t);
  }

  ghost predicate HasValue(v: string, t: Term, m: Mapping) { v in m && m[v] == t }

  ghost function HasValueP(v: string, t: Term): Mapping -> bool { m => HasValue(v, t, m) }

  ghost function ValuedRow(s: Term, o: Term, v: string, t: Term): ((Term, Term)) -> Bag {
    (xy: (Term, Term)) => Select(EndsRow(s, o)(xy), HasValueP(v, t))
  }

  lemma ValuedRowHas(s: Term, o: Term, v: string, t: Term, xy: (Term, Term))
    requires s == Var(v) || o == Var(v)
    ensures ValuedRow(s, o, v, t)(xy)
            == if Admits(s, o, xy) && EndsMapping(s, o, xy)[v] == t then multiset{EndsMapping(s, o, xy)} else multiset{}
  {
    var keep := Keep(HasValueP(v, t));
    BindNone(keep);
    BindOne(EndsMapping(s, o, xy), keep);
    assert ValuedRow(s, o, v, t)(xy) == Bind(EndsRow(s, o)(xy), keep);
  }

  lemma ReplacedEnds(s: Term, o: Term, v: string, t: Term, xy: (Term, Term))
    requires (s == Var(v) || o == Var(v)) && Fixed(t)
    ensures Admits(Replace(v, t, s), Replace(v, t, o), xy) <==> Admits(s, o, xy) && EndsMapping(s, o, xy)[v] == t
    ensures Admits(Replace(v, t, s), Replace(v, t, o), xy)
            ==> Merge(EndsMapping(Replace(v, t, s), Replace(v, t, o), xy), map[v := t])
                == multiset{EndsMapping(s, o, xy)}
  {
    var row' := EndsMapping(Replace(v, t, s), Replace(v, t, o), xy);
    assert v !in row';
    if Admits(Replace(v, t, s), Replace(v, t, o), xy) {
      assert row' + map[v := t] == EndsMapping(s, o, xy);
    }
  }

  lemma ValuedRowIs(s: Term, o: Term, v: string, t: Term, xy: (Term, Term))
    requires (s == Var(v) || o == Var(v)) && Fixed(t)
    ensures Bind(EndsRow(Replace(v, t, s), Replace(v, t, o))(xy), ValueRow(v, t)) == ValuedRow(s, o, v, t)(xy)
  {
    ValuedRowHas(s, o, v, t, xy);
    ReplacedEnds(s, o, v, t, xy);
    BindNone(ValueRow(v, t));
    if Admits(Replace(v, t, s), Replace(v, t, o), xy) {
      BindOne(EndsMapping(Replace(v, t, s), Replace(v, t, o), xy), ValueRow(v, t));
    }
  }

  lemma EndsDetermine(s: Term, o: Term, xy: (Term, Term), zw: (Term, Term))
    requires Admits(s, o, xy) && Admits(s, o, zw) && EndsMapping(s, o, xy) == EndsMapping(s, o, zw)
    ensures xy == zw
  {
    if s.Var? && s != o { assert EndsMapping(s, o, xy)[s.name] == xy.0 && EndsMapping(s, o, zw)[s.name] == zw.0; }
    if o.Var? { assert EndsMapping(s, o, xy)[o.name] == xy.1 && EndsMapping(s, o, zw)[o.name] == zw.1; }
  }

  lemma ValuedRowInjective(s: Term, o: Term, v: string, t: Term)
    requires s == Var(v) || o == Var(v)
    ensures Injective(ValuedRow(s, o, v, t))
  {
    var f := ValuedRow(s, o, v, t);
    forall xy ensures f(xy) == multiset{} || exists m :: f(xy) == multiset{m} { ValuedRowHas(s, o, v, t, xy); }
    forall xy, zw, m | m in f(xy) && m in f(zw)
      ensures xy == zw
    {
      ValuedRowHas(s, o, v, t, xy);
      ValuedRowHas(s, o, v, t, zw);
      EndsDetermine(s, o, xy, zw);
    }
  }

  /** The path with `v` replaced, in `g'`, has exactly the matches that the path in `g` has with `t` for `v`. */
  ghost predicate SamePairs(env: Env, s: Term, p: Path, o: Term, g: Term, g': Term, v: string, t: Term) {
    var s', o' := Replace(v, t, s), Replace(v, t, o);
    forall xy :: Admits(s', o', xy) ==> PathPairs(env, s, p, o, g)[xy] == PathPairs(env, s', p, o', g')[xy]
  }

  /** Substituting an equality into a path is right exactly when the path has the same matches with the end made
      a constant, in the graph that the rebuilt path is evaluated on. */
  lemma PathEqualityExact(env: Env, e: Expr, s: Term, p: Path, o: Term, g: Term, g': Term, v: string, t: Term)
    requires (s == Var(v) || o == Var(v)) && Fixed(t)
    requires EqualsOnly(env, e, v, t, Eval(env, PathOp(s, p, o, g)))
    ensures WithValue(Eval(env, PathOp(Replace(v, t, s), p, Replace(v, t, o), g')), v, t)
            == Select(Eval(env, PathOp(s, p, o, g)), SatP(env, e))
            <==> SamePairs(env, s, p, o, g, g', v, t)
  {
    var s', o', f := Replace(v, t, s), Replace(v, t, o), ValuedRow(s, o, v, t);
    var before, after := PathPairs(env, s, p, o, g), PathPairs(env, s', p, o', g');
    PathBefore(env, e, s, p, o, g, v, t);
    PathAfter(env, s, p, o, g', v, t);
    ValuedRowInjective(s, o, v, t);
    BindInjective(before, after, f);
    forall xy ensures f(xy) != multiset{} <==> Admits(s', o', xy) { ValuedRowKept(s, o, v, t, xy); }
  }

  lemma ValuedRowKept(s: Term, o: Term, v: string, t: Term, xy: (Term, Term))
    requires (s == Var(v) || o == Var(v)) && Fixed(t)
    ensures ValuedRow(s, o, v, t)(xy) != multiset{} <==> Admits(Replace(v, t, s), Replace(v, t, o), xy)
  {
    ValuedRowHas(s, o, v, t, xy);
    ReplacedEnds(s, o, v, t, xy);
  }

  lemma PathBefore(env: Env, e: Expr, s: Term, p: Path, o: Term, g: Term, v: string, t: Term)
    requires s == Var(v) || o == Var(v)
    requires EqualsOnly(env, e, v, t, Eval(env, PathOp(s, p, o, g)))
    ensures Select(Eval(env, PathOp(s, p, o, g)), SatP(env, e))
            == Bind(PathPairs(env, s, p, o, g), ValuedRow(s, o, v, t))
  {
    var f, pairs := ValuedRow(s, o, v, t), PathPairs(env, s, p, o, g);
    PathBinds(pairs, s, o);
    SelectExt(Bind(pairs, EndsRow(s, o)), SatP(env, e), HasValueP(v, t));
    BindAssoc(pairs, EndsRow(s, o), Keep(HasValueP(v, t)));
    BindExt(pairs, Then(EndsRow(s, o), Keep(HasValueP(v, t))), f);
  }

  lemma PathAfter(env: Env, s: Term, p: Path, o: Term, g: Term, v: string, t: Term)
    requires (s == Var(v) || o == Var(v)) && Fixed(t)
    ensures WithValue(Eval(env, PathOp(Replace(v, t, s), p, Replace(v, t, o), g)), v, t)
            == Bind(PathPairs(env, Replace(v, t, s), p, Replace(v, t, o), g), ValuedRow(s, o, v, t))
  {
    var s', o' := Replace(v, t, s), Replace(v, t, o);
    var f, pairs := ValuedRow(s, o, v, t), PathPairs(env, s', p, o', g);
    WithValueIs(Bind(pairs, EndsRow(s', o')), v, t);
    BindAssoc(pairs, EndsRow(s', o'), ValueRow(v, t));
    forall xy | xy in pairs ensures Then(EndsRow(s', o'), ValueRow(v, t))(xy) == f(xy) {
      ValuedRowIs(s, o, v, t, xy);
    }
    BindExt(pairs, Then(EndsRow(s', o'), ValueRow(v, t)), f);
  }

  // ----- in one graph only the zero-length matches differ -----

  lemma ZeroPairsCount(env: Env, s: Term, p: Path, o: Term, g: Term, xy: (Term, Term))
    ensures ZeroPairs(env, s, p, o, g)[xy] == if xy.0 == xy.1 then ZeroCount(env, s, p, o, g, xy.0) else 0
  {
  }

  /** The term is a node, or another constant stands at the other end, or the path relates a term outside the graph to
      itself in as many ways with the end made a constant as without. */
  ghost predicate SameWays(env: Env, s: Term, p: Path, o: Term, g: Term, v: string, t: Term) {
    || t in env.nodes(g)
    || (Fixed(s) && s != t) || (Fixed(o) && o != t)
    || Ways(p, Fixed(s), Fixed(o)) == Ways(p, Fixed(Replace(v, t, s)), Fixed(Replace(v, t, o)))
  }

  lemma CountsDecide(env: Env, s: Term, p: Path, o: Term, s': Term, o': Term, g: Term, xy: (Term, Term))
    ensures PathPairs(env, s, p, o, g)[xy] == PathPairs(env, s', p, o', g)[xy]
       <==> (xy.0 == xy.1 ==> ZeroCount(env, s, p, o, g, xy.0) == ZeroCount(env, s', p, o', g, xy.0))
  {
    ZeroPairsCount(env, s, p, o, g, xy);
    ZeroPairsCount(env, s', p, o', g, xy);
  }

  /** Only the term itself can be matched with length zero after the substitution. */
  lemma CountsAt(env: Env, s: Term, p: Path, o: Term, g: Term, v: string, t: Term, c: Term)
    requires (s == Var(v) || o == Var(v)) && Fixed(t) && Admits(Replace(v, t, s), Replace(v, t, o), (c, c))
    ensures c == t
    ensures ZeroCount(env, s, p, o, g, t) == ZeroCount(env, Replace(v, t, s), p, Replace(v, t, o), g, t)
       <==> SameWays(env, s, p, o, g, v, t)
  {
  }

  /** With the graph kept, the substitution is right exactly when the number of zero-length matches of the
      substituted term stays the same. */
  lemma PathWaysExact(env: Env, s: Term, p: Path, o: Term, g: Term, v: string, t: Term)
    requires (s == Var(v) || o == Var(v)) && Fixed(t)
    ensures SamePairs(env, s, p, o, g, g, v, t) <==> SameWays(env, s, p, o, g, v, t)
  {
    var s', o' := Replace(v, t, s), Replace(v, t, o);
    forall xy | Admits(s', o', xy)
      ensures PathPairs(env, s, p, o, g)[xy] == PathPairs(env, s', p, o', g)[xy]
              <==> (xy.0 == xy.1 ==> SameWays(env, s, p, o, g, v, t))
    {
      CountsDecide(env, s, p, o, s', o', g, xy);
      if xy.0 == xy.1 { CountsAt(env, s, p, o, g, v, t, xy.0); }
    }
    if Admits(s', o', (t, t)) {
      assert SamePairs(env, s, p, o, g, g, v, t)
        ==> PathPairs(env, s, p, o, g)[(t, t)] == PathPairs(env, s', p, o', g)[(t, t)];
    }
  }
}
