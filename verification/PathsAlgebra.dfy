/** The paths of the algebra, which the rewriting theorems speak about, and the paths of section 18.4, which the
    actors compute, have the same solutions. */
module PathsAlgebra {
  import opened Terms
  import opened PathExprs
  import opened PathSpec
  import opened Bags
  import opened Algebra
  import opened ValueSubstitution
  import opened Paths
  import opened PathsProof
  import opened PathsTheorem

  /** The nodes and the pairs of path `p` are those of a graph. */
  ghost predicate ReadOff(env: Env, g: Graph, p: Path) {
    && (forall x :: x in env.nodes(g.name) <==> IsNode(g, x))
    && (forall x, y :: (x, y) in env.pairs(p, g.name) <==> Relates(g, p, x, y))
  }

  lemma PairIn(env: Env, g: Graph, s: Term, p: Path, o: Term, x: Term, y: Term)
    requires ReadOff(env, g, p) && Admits(s, o, (x, y))
    ensures (x, y) in PathPairs(env, s, p, o, g.name) <==> Spec(g, p, Mode(s), Mode(o), x, y)
  {
    ModesAgree(g, p, Mode(s), Mode(o), x, y);
    ZeroPairsCount(env, s, p, o, g.name, (x, y));
    NullableWays(p, Fixed(s), Fixed(o));
    var n := env.pairs(p, g.name)[(x, y)];
    assert PathPairs(env, s, p, o, g.name)[(x, y)] == n + ZeroPairs(env, s, p, o, g.name)[(x, y)];
    assert n > 0 <==> Relates(g, p, x, y);
  }

  lemma EndsAgree(s: Term, o: Term, xy: (Term, Term))
    ensures EndsMapping(s, o, xy) == Ends(s, o, xy.0, xy.1)
    ensures Admits(s, o, xy) <==> Fits(Mode(s), xy.0) && Fits(Mode(o), xy.1) && (s.Var? && s == o ==> xy.0 == xy.1)
  {
  }

  lemma RowOfPair(s: Term, o: Term, xy: (Term, Term), mu: Mapping)
    ensures mu in EndsRow(s, o)(xy) <==> Admits(s, o, xy) && mu == EndsMapping(s, o, xy)
  {
  }

  ghost predicate RowFrom(env: Env, g: Graph, s: Term, p: Path, o: Term, mu: Mapping, xy: (Term, Term)) {
    xy in PathPairs(env, s, p, o, g.name) && mu in EndsRow(s, o)(xy)
  }

  lemma RowIn(env: Env, g: Graph, s: Term, p: Path, o: Term, mu: Mapping)
    ensures mu in Eval(env, PathOp(s, p, o, g.name)) <==> exists xy :: RowFrom(env, g, s, p, o, mu, xy)
  {
    var pairs, row := PathPairs(env, s, p, o, g.name), EndsRow(s, o);
    BindIn(pairs, row, mu);
    assert Eval(env, PathOp(s, p, o, g.name)) == Bind(pairs, row);
    if xy :| xy in pairs && mu in row(xy) { assert RowFrom(env, g, s, p, o, mu, xy); }
    if xy :| RowFrom(env, g, s, p, o, mu, xy) { assert xy in pairs && mu in row(xy); }
  }

  lemma RowAnswers(env: Env, g: Graph, s: Term, p: Path, o: Term, mu: Mapping, x: Term, y: Term)
    requires ReadOff(env, g, p)
    ensures RowFrom(env, g, s, p, o, mu, (x, y)) <==> AnswersWith(g, s, p, o, mu, x, y)
  {
    EndsAgree(s, o, (x, y));
    RowOfPair(s, o, (x, y), mu);
    ModesAgree(g, p, Mode(s), Mode(o), x, y);
    if Admits(s, o, (x, y)) { PairIn(env, g, s, p, o, x, y); }
  }

  lemma RowToAnswer(env: Env, g: Graph, s: Term, p: Path, o: Term, mu: Mapping, xy: (Term, Term))
    requires ReadOff(env, g, p) && RowFrom(env, g, s, p, o, mu, xy)
    ensures Answers(g, s, p, o, mu)
  {
    assert xy == (xy.0, xy.1);
    RowAnswers(env, g, s, p, o, mu, xy.0, xy.1);
  }

  lemma AnswerToRow(env: Env, g: Graph, s: Term, p: Path, o: Term, mu: Mapping) returns (xy: (Term, Term))
    requires ReadOff(env, g, p) && Answers(g, s, p, o, mu)
    ensures RowFrom(env, g, s, p, o, mu, xy)
  {
    var x, y :| AnswersWith(g, s, p, o, mu, x, y);
    xy := (x, y);
    RowAnswers(env, g, s, p, o, mu, x, y);
  }

  lemma PathOpAnswers(env: Env, g: Graph, s: Term, p: Path, o: Term, mu: Mapping)
    requires ReadOff(env, g, p)
    ensures mu in Eval(env, PathOp(s, p, o, g.name)) <==> Answers(g, s, p, o, mu)
  {
    RowIn(env, g, s, p, o, mu);
    if xy :| RowFrom(env, g, s, p, o, mu, xy) { RowToAnswer(env, g, s, p, o, mu, xy); }
    if Answers(g, s, p, o, mu) { var xy := AnswerToRow(env, g, s, p, o, mu); }
  }

  /** What the path actors deliver over all sources is what the algebra says of the merged graph. */
  lemma ActorsMeanAlgebra(env: Env, d: Data, s: Term, p: Path, o: Term, mu: Mapping)
    requires Valid(d) && WellFormed(p) && Fine(s, p, o) && ReadOff(env, Merged(d), p)
    ensures Sol(d, s, Assign(|d.sources|, p), o, mu) <==> mu in Eval(env, PathOp(s, p, o, d.graph))
  {
    PathsAreRight(d, s, p, o, mu);
    PathOpAnswers(env, Merged(d), s, p, o, mu);
  }
}
