/** The path actors compute section 18.4 over the union of all sources. */
module PathsProof {
  import opened Terms
  import opened PathExprs
  import opened PathSpec
  import opened Paths

  ghost predicate Ground(quads: set<Term>) { forall q :: q in quads ==> Vars(q) == {} }

  ghost predicate Valid(d: Data) {
    && |d.sources| > 0 && Vars(d.graph) == {}
    && forall k :: 0 <= k < |d.sources| ==> Ground(d.sources[k])
  }

  /** The two helper variables of the `nodes` operation. */
  const RESERVED := {"__p", "__x"}

  ghost predicate Usable(t: Term) { if t.Var? then t.name !in RESERVED else Vars(t) == {} }

  /** With the same variable at both ends, a one-or-more path must not be asked for its loops. */
  ghost predicate Straight(p: Path) {
    match p
    case Inv(q) => Straight(q)
    case Seq(ps) => |ps| == 1 ==> Straight(ps[0])
    case Alt(ps) => forall i :: 0 <= i < |ps| ==> Straight(ps[i])
    case ZeroOrOne(q) => Straight(q)
    case OneOrMore(_) => false
    case _ => true
  }

  ghost predicate Fine(s: Term, p: Path, o: Term) {
    Usable(s) && Usable(o) && (s.Var? && s == o ==> Straight(p))
  }

  ghost function Mode(t: Term): End { if t.Var? then None else Some(t) }

  ghost function Ends(s: Term, o: Term, x: Term, y: Term): Mapping {
    (if s.Var? then map[s.name := x] else map[]) + (if o.Var? then map[o.name := y] else map[])
  }

  /** `mu` binds the ends to a solution pair. */
  ghost predicate AnswersWith(g: Graph, s: Term, p: Path, o: Term, mu: Mapping, x: Term, y: Term) {
    (s.Var? && s == o ==> x == y) && Spec(g, p, Mode(s), Mode(o), x, y) && mu == Ends(s, o, x, y)
  }

  ghost predicate Answers(g: Graph, s: Term, p: Path, o: Term, mu: Mapping) {
    exists x, y :: AnswersWith(g, s, p, o, mu, x, y)
  }

  ghost predicate ExactAt(d: Data, s: Term, p: Path, o: Term, mu: Mapping) {
    Sol(d, s, Assign(|d.sources|, p), o, mu) <==> Answers(Merged(d), s, p, o, mu)
  }

  ghost predicate Exact(d: Data, p: Path) {
    forall s, o, mu :: Fine(s, p, o) ==> ExactAt(d, s, p, o, mu)
  }

  // ----- leaves -----

  lemma EndsSubst(s: Term, o: Term, x: Term, y: Term)
    requires Usable(s) && Usable(o) && Fits(Mode(s), x) && Fits(Mode(o), y) && (s.Var? && s == o ==> x == y)
    ensures (var mu := Ends(s, o, x, y); mu.Keys == Vars(s) + Vars(o) && Subst(mu, s) == x && Subst(mu, o) == y)
  {
    if !s.Var? { SubstGround(Ends(s, o, x, y), s); }
    if !o.Var? { SubstGround(Ends(s, o, x, y), o); }
  }

  lemma EndsOf(s: Term, o: Term, mu: Mapping)
    requires Usable(s) && Usable(o) && mu.Keys == Vars(s) + Vars(o)
    ensures mu == Ends(s, o, Subst(mu, s), Subst(mu, o))
    ensures Fits(Mode(s), Subst(mu, s)) && Fits(Mode(o), Subst(mu, o))
  {
    if !s.Var? { SubstGround(mu, s); }
    if !o.Var? { SubstGround(mu, o); }
  }

  lemma PatternRow(quads: set<Term>, s: Term, p: Term, o: Term, g: Term, mu: Mapping)
    requires Usable(s) && Usable(o) && Vars(p) == {} && Vars(g) == {}
    ensures Solves(mu, Quad(s, p, o, g), quads) <==> exists x, y :: RowAt(quads, s, p, o, g, mu, x, y)
  {
    SubstGround(mu, p);
    SubstGround(mu, g);
    if Solves(mu, Quad(s, p, o, g), quads) {
      EndsOf(s, o, mu);
      assert RowAt(quads, s, p, o, g, mu, Subst(mu, s), Subst(mu, o));
    }
    if x, y :| RowAt(quads, s, p, o, g, mu, x, y) { EndsSubst(s, o, x, y); }
  }

  ghost predicate RowAt(quads: set<Term>, s: Term, p: Term, o: Term, g: Term, mu: Mapping, x: Term, y: Term) {
    && (s.Var? && s == o ==> x == y) && Fits(Mode(s), x) && Fits(Mode(o), y)
    && Quad(x, p, y, g) in quads && mu == Ends(s, o, x, y)
  }

  lemma LinkAsked(d: Data, s: Term, iri: Term, o: Term, mu: Mapping, k: nat)
    requires k < |d.sources|
    ensures Sol(d, s, Link(iri, Some(k)), o, mu) <==> Solves(mu, Quad(s, iri, o, d.graph), d.sources[k])
  {
  }

  ghost predicate LinkAt(d: Data, s: Term, iri: Term, o: Term, mu: Mapping, k: nat, x: Term, y: Term) {
    k < |d.sources| && RowAt(d.sources[k], s, iri, o, d.graph, mu, x, y)
  }

  lemma LinkAnswer(d: Data, s: Term, iri: Term, src: Option<nat>, o: Term, mu: Mapping, k: nat, x: Term, y: Term)
    requires LinkAt(d, s, iri, o, mu, k, x, y)
    ensures Answers(Merged(d), s, Link(iri, src), o, mu)
  {
    assert Has(Merged(d), x, iri, y);
    assert AnswersWith(Merged(d), s, Link(iri, src), o, mu, x, y);
  }

  lemma AnswerLink(d: Data, s: Term, iri: Term, src: Option<nat>, o: Term, mu: Mapping)
      returns (k: nat, x: Term, y: Term)
    requires Answers(Merged(d), s, Link(iri, src), o, mu)
    ensures LinkAt(d, s, iri, o, mu, k, x, y)
  {
    x, y :| AnswersWith(Merged(d), s, Link(iri, src), o, mu, x, y);
    assert Has(Merged(d), x, iri, y);
    k :| 0 <= k < |d.sources| && Quad(x, iri, y, d.graph) in d.sources[k];
  }

  lemma LinkForward(d: Data, s: Term, iri: Term, src: Option<nat>, o: Term, mu: Mapping, k: nat)
    requires Valid(d) && Vars(iri) == {} && Usable(s) && Usable(o) && SolFrom(d, s, Link(iri, src), o, mu, k)
    ensures Answers(Merged(d), s, Link(iri, src), o, mu)
  {
    LinkAsked(d, s, iri, o, mu, k);
    PatternRow(d.sources[k], s, iri, o, d.graph, mu);
    var x, y :| RowAt(d.sources[k], s, iri, o, d.graph, mu, x, y);
    LinkAnswer(d, s, iri, src, o, mu, k, x, y);
  }

  lemma LinkBack(d: Data, s: Term, iri: Term, src: Option<nat>, o: Term, mu: Mapping) returns (k: nat)
    requires Valid(d) && Vars(iri) == {} && Usable(s) && Usable(o) && Answers(Merged(d), s, Link(iri, src), o, mu)
    ensures SolFrom(d, s, Link(iri, src), o, mu, k)
  {
    var x, y;
    k, x, y := AnswerLink(d, s, iri, src, o, mu);
    PatternRow(d.sources[k], s, iri, o, d.graph, mu);
    LinkAsked(d, s, iri, o, mu, k);
  }

  lemma ExactLink(d: Data, iri: Term, src: Option<nat>)
    requires Valid(d) && Vars(iri) == {}
    ensures Exact(d, Link(iri, src))
  {
    forall s, o, mu | Fine(s, Link(iri, src), o)
      ensures ExactAt(d, s, Link(iri, src), o, mu)
    {
      AssignedLeaf(d, s, Link(iri, src), o, mu);
      if k: nat :| SolFrom(d, s, Link(iri, src), o, mu, k) { LinkForward(d, s, iri, src, o, mu, k); }
      if Answers(Merged(d), s, Link(iri, src), o, mu) { var k := LinkBack(d, s, iri, src, o, mu); }
    }
  }

  ghost function LeafOf(p: Path, k: nat): Path
    requires p.Link? || p.Nps?
  {
    if p.Link? then Link(p.iri, Some(k)) else Nps(p.iris, Some(k))
  }

  ghost predicate SolFrom(d: Data, s: Term, p: Path, o: Term, mu: Mapping, k: nat)
    requires p.Link? || p.Nps?
  {
    k < |d.sources| && Sol(d, s, LeafOf(p, k), o, mu)
  }

  lemma OnlySource(d: Data, s: Term, p: Path, o: Term, mu: Mapping)
    requires |d.sources| == 1 && (p.Link? || p.Nps?)
    ensures Sol(d, s, LeafOf(p, 0), o, mu) <==> exists k: nat :: SolFrom(d, s, p, o, mu, k)
  {
    if Sol(d, s, LeafOf(p, 0), o, mu) { assert SolFrom(d, s, p, o, mu, 0); }
    if k: nat :| SolFrom(d, s, p, o, mu, k) { assert k == 0; }
  }

  lemma AssignedOne(n: nat, p: Path)
    requires n == 1 && (p.Link? || p.Nps?)
    ensures Assign(n, p) == LeafOf(p, 0)
  {
  }

  lemma AssignedLeaf(d: Data, s: Term, p: Path, o: Term, mu: Mapping)
    requires Valid(d) && (p.Link? || p.Nps?)
    ensures Sol(d, s, Assign(|d.sources|, p), o, mu) <==> exists k: nat :: SolFrom(d, s, p, o, mu, k)
  {
    if |d.sources| == 1 {
      AssignedOne(|d.sources|, p);
      OnlySource(d, s, p, o, mu);
    } else {
      AssignedChoices(d, s, p, o, mu);
    }
  }

  lemma AssignedChoices(d: Data, s: Term, p: Path, o: Term, mu: Mapping)
    requires |d.sources| != 1 && (p.Link? || p.Nps?)
    ensures Sol(d, s, Assign(|d.sources|, p), o, mu) <==> exists k: nat :: SolFrom(d, s, p, o, mu, k)
  {
    var ks := Assign(|d.sources|, p).choices;
    forall k: nat ensures SolAt(d, s, ks, o, mu, k) <==> SolFrom(d, s, p, o, mu, k) { LeafChoice(d, s, p, o, mu, k); }
    AltSol(d, s, ks, o, mu);
    if k: nat :| SolFrom(d, s, p, o, mu, k) { assert SolAt(d, s, ks, o, mu, k); }
  }

  ghost predicate SolAt(d: Data, s: Term, ps: seq<Path>, o: Term, mu: Mapping, i: nat) {
    i < |ps| && Sol(d, s, ps[i], o, mu)
  }

  lemma SolChoice(d: Data, s: Term, ps: seq<Path>, o: Term, mu: Mapping) returns (i: nat)
    requires Sol(d, s, Alt(ps), o, mu)
    ensures SolAt(d, s, ps, o, mu, i)
  {
    i :| 0 <= i < |ps| && Sol(d, s, ps[i], o, mu);
  }

  lemma ChoiceSol(d: Data, s: Term, ps: seq<Path>, o: Term, mu: Mapping, i: nat)
    requires SolAt(d, s, ps, o, mu, i)
    ensures Sol(d, s, Alt(ps), o, mu)
  {
  }

  lemma AltSol(d: Data, s: Term, ps: seq<Path>, o: Term, mu: Mapping)
    ensures Sol(d, s, Alt(ps), o, mu) <==> exists i: nat :: SolAt(d, s, ps, o, mu, i)
  {
    if Sol(d, s, Alt(ps), o, mu) { var i := SolChoice(d, s, ps, o, mu); }
    if i: nat :| SolAt(d, s, ps, o, mu, i) { ChoiceSol(d, s, ps, o, mu, i); }
  }

  lemma LeafChoice(d: Data, s: Term, p: Path, o: Term, mu: Mapping, k: nat)
    requires |d.sources| != 1 && (p.Link? || p.Nps?)
    ensures (var ks := Assign(|d.sources|, p).choices; SolAt(d, s, ks, o, mu, k) <==> SolFrom(d, s, p, o, mu, k))
  {
    if k < |d.sources| { assert Assign(|d.sources|, p).choices[k] == LeafOf(p, k); }
  }

  lemma SubstWithout(nu: Mapping, v: string, t: Term)
    requires v !in Vars(t)
    ensures Subst(nu - {v}, t) == Subst(nu, t)
  {
  }

  /** A pattern with a fresh variable in the middle. */
  lemma FreshRow(quads: set<Term>, s: Term, v: string, o: Term, g: Term, nu: Mapping)
    requires v !in Vars(s) + Vars(o) && Vars(g) == {} && v in nu && Ground(quads)
    ensures Solves(nu, Quad(s, Var(v), o, g), quads)
       <==> Solves(nu - {v}, Quad(s, nu[v], o, g), quads) && Vars(nu[v]) == {}
  {
    var mu := nu - {v};
    var q := Quad(Subst(nu, s), nu[v], Subst(nu, o), g);
    SubstWithout(nu, v, s);
    SubstWithout(nu, v, o);
    SubstGround(nu, g);
    SubstGround(mu, g);
    assert Subst(nu, Quad(s, Var(v), o, g)) == q;
    if q in quads { assert Vars(q) == {}; }
    if Vars(nu[v]) == {} {
      SubstGround(mu, nu[v]);
      assert Subst(mu, Quad(s, nu[v], o, g)) == q;
      assert mu.Keys == nu.Keys - {v};
      DropKey(nu.Keys, Vars(s) + Vars(o), v);
      assert Vars(Quad(s, Var(v), o, g)) == Vars(s) + Vars(o) + {v};
      assert Vars(Quad(s, nu[v], o, g)) == Vars(s) + Vars(o);
    }
  }

  lemma DropKey(a: set<string>, b: set<string>, v: string)
    requires v in a && v !in b
    ensures a == b + {v} <==> a - {v} == b
  {
    if a - {v} == b { assert a == (a - {v}) + {v}; }
  }

  ghost predicate Excluding(d: Data, iris: seq<Term>, s: Term, o: Term, mu: Mapping, k: nat, q: Term)
    requires k < |d.sources|
  {
    q !in iris && Vars(q) == {} && Solves(mu, Quad(s, q, o, d.graph), d.sources[k])
  }

  /** A negated property set on one source: the generated variable stands for a predicate that is not excluded. */
  lemma NpsFrom(d: Data, iris: seq<Term>, s: Term, o: Term, mu: Mapping, k: nat)
    requires Valid(d) && Usable(s) && Usable(o) && k < |d.sources|
    ensures NpsRow(d, s, iris, Some(k), o, mu) <==> exists q :: Excluding(d, iris, s, o, mu, k, q)
  {
    var v := GenerateVariable(s, o, "b");
    GeneratedIsNew(s, o, "b");
    if NpsRow(d, s, iris, Some(k), o, mu) {
      var nu :| Asked(d, Some(k), Quad(s, Var(v), o, d.graph), nu) && v in nu && nu[v] !in iris && mu == nu - {v};
      FreshRow(d.sources[k], s, v, o, d.graph, nu);
      assert Excluding(d, iris, s, o, mu, k, nu[v]);
    }
    if q :| Excluding(d, iris, s, o, mu, k, q) { NpsBack(d, iris, s, o, mu, k, q, v); }
  }

  lemma NpsBack(d: Data, iris: seq<Term>, s: Term, o: Term, mu: Mapping, k: nat, q: Term, v: string)
    requires Valid(d) && k < |d.sources| && Excluding(d, iris, s, o, mu, k, q)
    requires v == GenerateVariable(s, o, "b") && v !in Vars(s) + Vars(o)
    ensures NpsRow(d, s, iris, Some(k), o, mu)
  {
    var nu := mu[v := q];
    assert nu - {v} == mu;
    FreshRow(d.sources[k], s, v, o, d.graph, nu);
    assert Asked(d, Some(k), Quad(s, Var(v), o, d.graph), nu);
  }

  lemma QuadGround(d: Data, k: nat, x: Term, p: Term, y: Term)
    requires Valid(d) && k < |d.sources| && Quad(x, p, y, d.graph) in d.sources[k]
    ensures Vars(x) == Vars(p) == Vars(y) == {}
  {
    assert Vars(Quad(x, p, y, d.graph)) == {};
  }

  lemma ExactNps(d: Data, iris: seq<Term>, src: Option<nat>)
    requires Valid(d)
    ensures Exact(d, Nps(iris, src))
  {
    var p := Nps(iris, src);
    forall s, o, mu | Fine(s, p, o)
      ensures ExactAt(d, s, p, o, mu)
    {
      AssignedLeaf(d, s, p, o, mu);
      if k: nat :| SolFrom(d, s, p, o, mu, k) { NpsAnswers(d, s, iris, src, o, mu, k); }
      if x, y :| AnswersWith(Merged(d), s, p, o, mu, x, y) { NpsFound(d, s, iris, src, o, mu, x, y); }
    }
  }

  lemma NpsAnswers(d: Data, s: Term, iris: seq<Term>, src: Option<nat>, o: Term, mu: Mapping, k: nat)
    requires Valid(d) && Usable(s) && Usable(o) && SolFrom(d, s, Nps(iris, src), o, mu, k)
    ensures Answers(Merged(d), s, Nps(iris, src), o, mu)
  {
    assert NpsRow(d, s, iris, Some(k), o, mu);
    NpsFrom(d, iris, s, o, mu, k);
    var q :| Excluding(d, iris, s, o, mu, k, q);
    PatternRow(d.sources[k], s, q, o, d.graph, mu);
    var x, y :| RowAt(d.sources[k], s, q, o, d.graph, mu, x, y);
    NpsAnswer(d, s, iris, src, o, mu, k, q, x, y);
  }

  lemma NpsAnswer(d: Data, s: Term, iris: seq<Term>, src: Option<nat>, o: Term, mu: Mapping, k: nat, q: Term,
      x: Term, y: Term)
    requires k < |d.sources| && q !in iris && RowAt(d.sources[k], s, q, o, d.graph, mu, x, y)
    ensures Answers(Merged(d), s, Nps(iris, src), o, mu)
  {
    assert Has(Merged(d), x, q, y);
    assert AnswersWith(Merged(d), s, Nps(iris, src), o, mu, x, y);
  }

  lemma NpsTriple(d: Data, s: Term, iris: seq<Term>, src: Option<nat>, o: Term, mu: Mapping, x: Term, y: Term)
      returns (k: nat, q: Term)
    requires Valid(d) && AnswersWith(Merged(d), s, Nps(iris, src), o, mu, x, y)
    ensures q !in iris && LinkAt(d, s, q, o, mu, k, x, y)
  {
    q :| q !in iris && Has(Merged(d), x, q, y);
    k :| 0 <= k < |d.sources| && Quad(x, q, y, d.graph) in d.sources[k];
  }

  lemma NpsAsked(d: Data, s: Term, iris: seq<Term>, o: Term, mu: Mapping, k: nat)
    requires k < |d.sources|
    ensures Sol(d, s, Nps(iris, Some(k)), o, mu) <==> NpsRow(d, s, iris, Some(k), o, mu)
  {
  }

  lemma NpsFound(d: Data, s: Term, iris: seq<Term>, src: Option<nat>, o: Term, mu: Mapping, x: Term, y: Term)
    requires Valid(d) && Usable(s) && Usable(o) && AnswersWith(Merged(d), s, Nps(iris, src), o, mu, x, y)
    ensures exists k: nat :: SolFrom(d, s, Nps(iris, src), o, mu, k)
  {
    var k, q := NpsTriple(d, s, iris, src, o, mu, x, y);
    QuadGround(d, k, x, q, y);
    PatternRow(d.sources[k], s, q, o, d.graph, mu);
    assert Excluding(d, iris, s, o, mu, k, q);
    NpsFrom(d, iris, s, o, mu, k);
    NpsAsked(d, s, iris, o, mu, k);
    assert SolFrom(d, s, Nps(iris, src), o, mu, k);
  }

  // ----- inverse and alternatives -----

  lemma ExactInv(d: Data, q: Path)
    requires Exact(d, q)
    ensures Exact(d, Inv(q))
  {
    forall s, o, mu | Fine(s, Inv(q), o)
      ensures ExactAt(d, s, Inv(q), o, mu)
    {
      assert Fine(o, q, s) && ExactAt(d, o, q, s, mu);
      forall x, y
        ensures AnswersWith(Merged(d), s, Inv(q), o, mu, x, y) <==> AnswersWith(Merged(d), o, q, s, mu, y, x)
      {
        if s == o ==> x == y { assert Ends(s, o, x, y) == Ends(o, s, y, x); }
      }
      if Answers(Merged(d), o, q, s, mu) {
        var y, x :| AnswersWith(Merged(d), o, q, s, mu, y, x);
        assert AnswersWith(Merged(d), s, Inv(q), o, mu, x, y);
      }
    }
  }

  lemma ExactAlt(d: Data, ps: seq<Path>)
    requires forall i :: 0 <= i < |ps| ==> Exact(d, ps[i])
    ensures Exact(d, Alt(ps))
  {
    var p, qs := Alt(ps), Assign(|d.sources|, Alt(ps)).choices;
    forall s, o, mu | Fine(s, p, o)
      ensures ExactAt(d, s, p, o, mu)
    {
      forall i: nat ensures SolAt(d, s, qs, o, mu, i) <==> AnswersAt(Merged(d), s, ps, o, mu, i) {
        if i < |ps| {
          assert Exact(d, ps[i]) && Fine(s, ps[i], o);
          assert ExactAt(d, s, ps[i], o, mu);
        }
      }
      AltAnswers(Merged(d), s, ps, o, mu);
      AltSol(d, s, qs, o, mu);
      if i: nat :| AnswersAt(Merged(d), s, ps, o, mu, i) { assert SolAt(d, s, qs, o, mu, i); }
    }
  }

  ghost predicate AnswersAt(g: Graph, s: Term, ps: seq<Path>, o: Term, mu: Mapping, i: nat) {
    i < |ps| && Answers(g, s, ps[i], o, mu)
  }

  lemma AnswersChoice(g: Graph, s: Term, ps: seq<Path>, o: Term, mu: Mapping, x: Term, y: Term) returns (i: nat)
    requires AnswersWith(g, s, Alt(ps), o, mu, x, y)
    ensures i < |ps| && AnswersWith(g, s, ps[i], o, mu, x, y)
  {
    i :| 0 <= i < |ps| && Spec(g, ps[i], Mode(s), Mode(o), x, y);
  }

  lemma ChoiceAnswers(g: Graph, s: Term, ps: seq<Path>, o: Term, mu: Mapping, x: Term, y: Term, i: nat)
    requires i < |ps| && AnswersWith(g, s, ps[i], o, mu, x, y)
    ensures AnswersWith(g, s, Alt(ps), o, mu, x, y)
  {
  }

  lemma AltAnswers(g: Graph, s: Term, ps: seq<Path>, o: Term, mu: Mapping)
    ensures Answers(g, s, Alt(ps), o, mu) <==> exists i: nat :: AnswersAt(g, s, ps, o, mu, i)
  {
    if x, y :| AnswersWith(g, s, Alt(ps), o, mu, x, y) {
      var i := AnswersChoice(g, s, ps, o, mu, x, y);
      assert AnswersAt(g, s, ps, o, mu, i);
    }
    if i: nat :| AnswersAt(g, s, ps, o, mu, i) {
      var x, y :| AnswersWith(g, s, ps[i], o, mu, x, y);
      ChoiceAnswers(g, s, ps, o, mu, x, y, i);
    }
  }
}
