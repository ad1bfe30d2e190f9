/** What a property path means: section 18.4 of SPARQL 1.1 Query Language, and the plain relation it comes down to. */
module PathSpec {
  import opened Terms
  import opened PathExprs
  import opened Reach

  /** One graph, called `name`, of a set of quads. */
  datatype Graph = Graph(quads: set<Term>, name: Term)

  predicate Has(g: Graph, x: Term, p: Term, y: Term) { Quad(x, p, y, g.name) in g.quads }

  ghost predicate IsNode(g: Graph, x: Term) {
    exists p, y :: Has(g, x, p, y) || Has(g, y, p, x)
  }

  ghost predicate Linked(g: Graph, iris: seq<Term>, x: Term, y: Term) {
    exists p :: p !in iris && Has(g, x, p, y)
  }

  /** An end of a path: `None` for a variable, or the term it is fixed to. */
  type End = Option<Term>

  predicate Fits(e: End, x: Term) { e.None? || e.value == x }

  /** The solution pairs of section 18.4. */
  ghost predicate Spec(g: Graph, p: Path, a: End, c: End, x: Term, y: Term)
    decreases p, 0
  {
    && Fits(a, x) && Fits(c, y)
    && match p
       case Link(iri, _) => Has(g, x, iri, y)
       case Nps(iris, _) => Linked(g, iris, x, y)
       case Inv(q) => Spec(g, q, c, a, y, x)
       case Seq(ps) => SpecSeq(g, ps, a, c, x, y)
       case Alt(ps) => exists i :: 0 <= i < |ps| && Spec(g, ps[i], a, c, x, y)
       case ZeroOrOne(q) => Spec(g, q, a, c, x, y) || (x == y && (a.Some? || c.Some? || IsNode(g, x)))
       case ZeroOrMore(q) =>
         if a.None? && c.Some? then Star(Back(g, q), y, x) else (a.Some? || IsNode(g, x)) && Star(Step(g, q), x, y)
       case OneOrMore(q) =>
         if a.None? && c.Some? then Plus(Back(g, q), y, x) else (a.Some? || IsNode(g, x)) && Plus(Step(g, q), x, y)
  }

  /** Two steps meet in a variable. */
  ghost predicate SpecSeq(g: Graph, ps: seq<Path>, a: End, c: End, x: Term, y: Term)
    decreases ps, 0
  {
    if |ps| == 0 then false
    else if |ps| == 1 then Spec(g, ps[0], a, c, x, y)
    else exists z :: Spec(g, ps[0], a, None, x, z) && SpecSeq(g, ps[1..], None, c, z, y)
  }

  /** One application of the path to a term. */
  ghost function Step(g: Graph, q: Path): Rel<Term>
    decreases q, 1
  {
    (u, v) => Spec(g, q, Some(u), None, u, v)
  }

  /** One application of the inverse of the path to a term. */
  ghost function Back(g: Graph, q: Path): Rel<Term>
    decreases q, 1
  {
    (u, v) => Spec(g, q, None, Some(u), v, u)
  }

  // ----- the relation, regardless of which ends are fixed -----

  ghost predicate Relates(g: Graph, p: Path, x: Term, y: Term)
    decreases p, 0
  {
    match p
    case Link(iri, _) => Has(g, x, iri, y)
    case Nps(iris, _) => Linked(g, iris, x, y)
    case Inv(q) => Relates(g, q, y, x)
    case Seq(ps) => RelatesSeq(g, ps, x, y)
    case Alt(ps) => exists i :: 0 <= i < |ps| && Relates(g, ps[i], x, y)
    case ZeroOrOne(q) => Relates(g, q, x, y) || (x == y && IsNode(g, x))
    case ZeroOrMore(q) => IsNode(g, x) && Star(Arrow(g, q), x, y)
    case OneOrMore(q) => Plus(Arrow(g, q), x, y)
  }

  ghost predicate RelatesSeq(g: Graph, ps: seq<Path>, x: Term, y: Term)
    decreases ps, 0
  {
    if |ps| == 0 then false
    else if |ps| == 1 then Relates(g, ps[0], x, y)
    else exists z :: Relates(g, ps[0], x, z) && RelatesSeq(g, ps[1..], z, y)
  }

  ghost function Arrow(g: Graph, q: Path): Rel<Term>
    decreases q, 1
  {
    (u, v) => Relates(g, q, u, v)
  }

  lemma {:induction false} RelatesNodes(g: Graph, p: Path, x: Term, y: Term)
    requires Relates(g, p, x, y)
    ensures IsNode(g, x) && IsNode(g, y)
    decreases p, 0
  {
    match p
    case Link(iri, _) => assert Has(g, x, iri, y);
    case Nps(_, _) =>
    case Inv(q) => RelatesNodes(g, q, y, x);
    case Seq(ps) => RelatesSeqNodes(g, ps, x, y);
    case Alt(ps) =>
      var i :| 0 <= i < |ps| && Relates(g, ps[i], x, y);
      RelatesNodes(g, ps[i], x, y);
    case ZeroOrOne(q) => if Relates(g, q, x, y) { RelatesNodes(g, q, x, y); }
    case ZeroOrMore(q) => StarNodes(g, q, x, y);
    case OneOrMore(q) => PlusNodes(g, q, x, y);
  }

  lemma {:induction false} PlusNodes(g: Graph, q: Path, x: Term, y: Term)
    requires Plus(Arrow(g, q), x, y)
    ensures IsNode(g, x) && IsNode(g, y)
    decreases q, 2
  {
    var z :| Arrow(g, q)(x, z) && Star(Arrow(g, q), z, y);
    RelatesNodes(g, q, x, z);
    StarNodes(g, q, z, y);
  }

  lemma {:induction false} RelatesSeqNodes(g: Graph, ps: seq<Path>, x: Term, y: Term)
    requires RelatesSeq(g, ps, x, y)
    ensures IsNode(g, x) && IsNode(g, y)
    decreases ps, 0
  {
    if |ps| == 1 {
      RelatesNodes(g, ps[0], x, y);
    } else {
      var z :| Relates(g, ps[0], x, z) && RelatesSeq(g, ps[1..], z, y);
      RelatesNodes(g, ps[0], x, z);
      RelatesSeqNodes(g, ps[1..], z, y);
    }
  }

  lemma {:induction false} StarNodes(g: Graph, q: Path, x: Term, y: Term)
    requires IsNode(g, x) && Star(Arrow(g, q), x, y)
    ensures IsNode(g, y)
    decreases q, 1
  {
    forall u, v | Arrow(g, q)(u, v) ensures IsNode(g, v) { RelatesNodes(g, q, u, v); }
    StarClosed(Arrow(g, q), u => IsNode(g, u), x, y);
  }

  /** The whole of section 18.4 in one line: a pair is a solution if the path relates it on the nodes of the graph,
      or it is a constant that is no node, matched by a path that can have length zero there. */
  ghost predicate Closed(g: Graph, p: Path, a: End, c: End, x: Term, y: Term) {
    && Fits(a, x) && Fits(c, y)
    && (Relates(g, p, x, y) || (x == y && !IsNode(g, x) && Nullable(p, a.Some?, c.Some?)))
  }

  /** What a path says of a pair depends only on how its parts do. */
  lemma LeafModes(g: Graph, p: Path, a: End, c: End, x: Term, y: Term)
    requires p.Link? || p.Nps?
    ensures Spec(g, p, a, c, x, y) <==> Closed(g, p, a, c, x, y)
  {
  }

  lemma InvModes(g: Graph, q: Path, a: End, c: End, x: Term, y: Term)
    requires Spec(g, q, c, a, y, x) <==> Closed(g, q, c, a, y, x)
    ensures Spec(g, Inv(q), a, c, x, y) <==> Closed(g, Inv(q), a, c, x, y)
  {
  }

  lemma OptionalModes(g: Graph, q: Path, a: End, c: End, x: Term, y: Term)
    requires Spec(g, q, a, c, x, y) <==> Closed(g, q, a, c, x, y)
    ensures Spec(g, ZeroOrOne(q), a, c, x, y) <==> Closed(g, ZeroOrOne(q), a, c, x, y)
  {
  }

  lemma Unfit(g: Graph, p: Path, a: End, c: End, x: Term, y: Term)
    requires !Fits(a, x) || !Fits(c, y)
    ensures !Spec(g, p, a, c, x, y) && !Closed(g, p, a, c, x, y)
  {
  }

  lemma {:induction false} ModesAgree(g: Graph, p: Path, a: End, c: End, x: Term, y: Term)
    ensures Spec(g, p, a, c, x, y) <==> Closed(g, p, a, c, x, y)
    decreases p, 0
  {
    if !Fits(a, x) || !Fits(c, y) {
      Unfit(g, p, a, c, x, y);
    } else {
      match p
      case Link(_, _) => LeafModes(g, p, a, c, x, y);
      case Nps(_, _) => LeafModes(g, p, a, c, x, y);
      case Inv(q) => ModesAgree(g, q, c, a, y, x); InvModes(g, q, a, c, x, y);
      case Seq(ps) => WholeSeqModes(g, ps, a, c, x, y);
      case Alt(ps) => AltModes(g, ps, a, c, x, y);
      case ZeroOrOne(q) => ModesAgree(g, q, a, c, x, y); OptionalModes(g, q, a, c, x, y);
      case ZeroOrMore(q) => ClosureModes(g, q, a, c, x, y);
      case OneOrMore(q) => ClosureModes(g, q, a, c, x, y);
    }
  }

  lemma {:induction false} WholeSeqModes(g: Graph, ps: seq<Path>, a: End, c: End, x: Term, y: Term)
    requires Fits(a, x) && Fits(c, y)
    ensures Spec(g, Seq(ps), a, c, x, y) <==> Closed(g, Seq(ps), a, c, x, y)
    decreases ps, 3
  {
    SeqModes(g, ps, a, c, x, y);
  }

  lemma {:induction false} ClosureModes(g: Graph, q: Path, a: End, c: End, x: Term, y: Term)
    requires Fits(a, x) && Fits(c, y)
    ensures Spec(g, ZeroOrMore(q), a, c, x, y) <==> Closed(g, ZeroOrMore(q), a, c, x, y)
    ensures Spec(g, OneOrMore(q), a, c, x, y) <==> Closed(g, OneOrMore(q), a, c, x, y)
    decreases q, 2
  {
    if Relates(g, OneOrMore(q), x, y) { PlusNodes(g, q, x, y); }
    if a.None? && c.Some? {
      BackModes(g, q, y, x);
    } else {
      StepModes(g, q, x, y);
    }
  }

  lemma {:induction false} AltModes(g: Graph, ps: seq<Path>, a: End, c: End, x: Term, y: Term)
    requires Fits(a, x) && Fits(c, y)
    ensures Spec(g, Alt(ps), a, c, x, y) <==> Closed(g, Alt(ps), a, c, x, y)
    decreases ps, 1
  {
    forall i | 0 <= i < |ps| ensures Spec(g, ps[i], a, c, x, y) <==> Closed(g, ps[i], a, c, x, y) {
      ModesAgree(g, ps[i], a, c, x, y);
    }
    AltCloses(g, ps, a, c, x, y);
    if Spec(g, Alt(ps), a, c, x, y) {
      var i :| 0 <= i < |ps| && Spec(g, ps[i], a, c, x, y);
      assert ClosedIn(g, ps, a, c, x, y, i);
    }
  }

  ghost predicate ClosedIn(g: Graph, ps: seq<Path>, a: End, c: End, x: Term, y: Term, i: int) {
    0 <= i < |ps| && Closed(g, ps[i], a, c, x, y)
  }

  lemma RelatedChoice(g: Graph, ps: seq<Path>, x: Term, y: Term) returns (i: nat)
    requires Relates(g, Alt(ps), x, y)
    ensures i < |ps| && Relates(g, ps[i], x, y)
  {
    i :| 0 <= i < |ps| && Relates(g, ps[i], x, y);
  }

  lemma ChoiceRelates(g: Graph, ps: seq<Path>, x: Term, y: Term, i: nat)
    requires i < |ps| && Relates(g, ps[i], x, y)
    ensures Relates(g, Alt(ps), x, y)
  {
  }

  lemma NullableChoice(ps: seq<Path>, s: bool, o: bool)
    ensures Nullable(Alt(ps), s, o) <==> exists i :: 0 <= i < |ps| && Nullable(ps[i], s, o)
  {
  }

  lemma AltCloses(g: Graph, ps: seq<Path>, a: End, c: End, x: Term, y: Term)
    requires Fits(a, x) && Fits(c, y)
    ensures Closed(g, Alt(ps), a, c, x, y) <==> exists i :: ClosedIn(g, ps, a, c, x, y, i)
  {
    NullableChoice(ps, a.Some?, c.Some?);
    if Relates(g, Alt(ps), x, y) {
      var i := RelatedChoice(g, ps, x, y);
      assert ClosedIn(g, ps, a, c, x, y, i);
    } else if Closed(g, Alt(ps), a, c, x, y) {
      var i :| 0 <= i < |ps| && Nullable(ps[i], a.Some?, c.Some?);
      assert ClosedIn(g, ps, a, c, x, y, i);
    }
    if i :| ClosedIn(g, ps, a, c, x, y, i) {
      if Relates(g, ps[i], x, y) { ChoiceRelates(g, ps, x, y, i); }
    }
  }

  lemma {:induction false} SeqModes(g: Graph, ps: seq<Path>, a: End, c: End, x: Term, y: Term)
    requires Fits(a, x) && Fits(c, y)
    ensures SpecSeq(g, ps, a, c, x, y)
       <==> RelatesSeq(g, ps, x, y) || (x == y && !IsNode(g, x) && NullableSeq(ps, a.Some?, c.Some?))
    decreases ps, 2
  {
    if |ps| == 1 {
      ModesAgree(g, ps[0], a, c, x, y);
    } else if |ps| > 1 {
      SpecUnfold(g, ps, a, c, x, y);
      RelatesUnfold(g, ps, x, y);
      if z :| SpecMeet(g, ps, a, c, x, z, y) { MeetRelates(g, ps, a, c, x, z, y); }
      if z :| RelatesMeet(g, ps, x, z, y) { RelatesMeets(g, ps, a, c, x, z, y); }
      if StaysPut(g, ps, a, c, x, y) { PutMeets(g, ps, a, c, x, y); }
    }
  }

  /** The first step and the rest of a sequence meet at `z`. */
  ghost predicate SpecMeet(g: Graph, ps: seq<Path>, a: End, c: End, x: Term, z: Term, y: Term)
    requires |ps| > 1
  {
    Spec(g, ps[0], a, None, x, z) && SpecSeq(g, ps[1..], None, c, z, y)
  }

  ghost predicate RelatesMeet(g: Graph, ps: seq<Path>, x: Term, z: Term, y: Term)
    requires |ps| > 1
  {
    Relates(g, ps[0], x, z) && RelatesSeq(g, ps[1..], z, y)
  }

  lemma SpecUnfold(g: Graph, ps: seq<Path>, a: End, c: End, x: Term, y: Term)
    requires |ps| > 1
    ensures SpecSeq(g, ps, a, c, x, y) <==> exists z :: SpecMeet(g, ps, a, c, x, z, y)
  {
    if SpecSeq(g, ps, a, c, x, y) { var z := SpecMiddle(g, ps, a, c, x, y); assert SpecMeet(g, ps, a, c, x, z, y); }
  }

  lemma RelatesUnfold(g: Graph, ps: seq<Path>, x: Term, y: Term)
    requires |ps| > 1
    ensures RelatesSeq(g, ps, x, y) <==> exists z :: RelatesMeet(g, ps, x, z, y)
  {
    if RelatesSeq(g, ps, x, y) { var z := RelatesMiddle(g, ps, x, y); assert RelatesMeet(g, ps, x, z, y); }
  }

  lemma SpecMiddle(g: Graph, ps: seq<Path>, a: End, c: End, x: Term, y: Term) returns (z: Term)
    requires |ps| > 1 && SpecSeq(g, ps, a, c, x, y)
    ensures SpecMeet(g, ps, a, c, x, z, y)
  {
    z :| Spec(g, ps[0], a, None, x, z) && SpecSeq(g, ps[1..], None, c, z, y);
  }

  lemma RelatesMiddle(g: Graph, ps: seq<Path>, x: Term, y: Term) returns (z: Term)
    requires |ps| > 1 && RelatesSeq(g, ps, x, y)
    ensures RelatesMeet(g, ps, x, z, y)
  {
    z :| Relates(g, ps[0], x, z) && RelatesSeq(g, ps[1..], z, y);
  }

  /** What the two parts of a sequence say about the term at which they meet. */
  lemma {:induction false} MiddleModes(g: Graph, ps: seq<Path>, a: End, c: End, x: Term, z: Term, y: Term)
    requires |ps| > 1 && Fits(a, x) && Fits(c, y)
    ensures Spec(g, ps[0], a, None, x, z)
       <==> Relates(g, ps[0], x, z) || (x == z && !IsNode(g, x) && Nullable(ps[0], a.Some?, false))
    ensures SpecSeq(g, ps[1..], None, c, z, y)
       <==> RelatesSeq(g, ps[1..], z, y) || (z == y && !IsNode(g, z) && NullableSeq(ps[1..], false, c.Some?))
    ensures Relates(g, ps[0], x, z) ==> IsNode(g, x) && IsNode(g, z)
    ensures RelatesSeq(g, ps[1..], z, y) ==> IsNode(g, z) && IsNode(g, y)
    decreases ps, 0
  {
    ModesAgree(g, ps[0], a, None, x, z);
    SeqModes(g, ps[1..], None, c, z, y);
    if Relates(g, ps[0], x, z) { RelatesNodes(g, ps[0], x, z); }
    if RelatesSeq(g, ps[1..], z, y) { RelatesSeqNodes(g, ps[1..], z, y); }
  }

  ghost predicate StaysPut(g: Graph, ps: seq<Path>, a: End, c: End, x: Term, y: Term) {
    x == y && !IsNode(g, x) && NullableSeq(ps, a.Some?, c.Some?)
  }

  lemma {:induction false} MeetRelates(g: Graph, ps: seq<Path>, a: End, c: End, x: Term, z: Term, y: Term)
    requires |ps| > 1 && Fits(a, x) && Fits(c, y) && SpecMeet(g, ps, a, c, x, z, y)
    ensures RelatesMeet(g, ps, x, z, y) || StaysPut(g, ps, a, c, x, y)
    decreases ps, 1
  {
    MiddleModes(g, ps, a, c, x, z, y);
  }

  lemma {:induction false} RelatesMeets(g: Graph, ps: seq<Path>, a: End, c: End, x: Term, z: Term, y: Term)
    requires |ps| > 1 && Fits(a, x) && Fits(c, y) && RelatesMeet(g, ps, x, z, y)
    ensures SpecMeet(g, ps, a, c, x, z, y)
    decreases ps, 1
  {
    MiddleModes(g, ps, a, c, x, z, y);
  }

  lemma {:induction false} PutMeets(g: Graph, ps: seq<Path>, a: End, c: End, x: Term, y: Term)
    requires |ps| > 1 && Fits(a, x) && Fits(c, y) && StaysPut(g, ps, a, c, x, y)
    ensures SpecMeet(g, ps, a, c, x, x, y)
    decreases ps, 1
  {
    MiddleModes(g, ps, a, c, x, x, y);
  }

  /** Stepping from a node stays on the nodes; stepping from anything else goes nowhere. */
  lemma {:induction false} StepModes(g: Graph, q: Path, x: Term, y: Term)
    ensures Star(Step(g, q), x, y) <==> if IsNode(g, x) then Star(Arrow(g, q), x, y) else x == y
    ensures Plus(Step(g, q), x, y)
       <==> if IsNode(g, x) then Plus(Arrow(g, q), x, y) else x == y && Nullable(q, true, false)
    decreases q, 1
  {
    var step, arrow := Step(g, q), Arrow(g, q);
    forall u, v
      ensures step(u, v) <==> Closed(g, q, Some(u), None, u, v)
      ensures arrow(u, v) ==> IsNode(g, u) && IsNode(g, v)
    {
      ModesAgree(g, q, Some(u), None, u, v);
      if arrow(u, v) { RelatesNodes(g, q, u, v); }
    }
    Traverse(g, q, step, arrow, x, y, Nullable(q, true, false));
  }

  lemma {:induction false} BackModes(g: Graph, q: Path, x: Term, y: Term)
    ensures Star(Back(g, q), x, y) <==> if IsNode(g, x) then IsNode(g, y) && Star(Arrow(g, q), y, x) else x == y
    ensures Plus(Back(g, q), x, y)
       <==> if IsNode(g, x) then Plus(Arrow(g, q), y, x) else x == y && Nullable(q, false, true)
    ensures IsNode(g, y) && Star(Arrow(g, q), y, x) ==> IsNode(g, x)
    decreases q, 1
  {
    var back, arrow := Back(g, q), Arrow(g, q);
    var worra: Rel<Term> := (u, v) => Relates(g, q, v, u);
    forall u, v
      ensures back(u, v) <==> Closed(g, q, None, Some(u), v, u)
      ensures worra(u, v) ==> IsNode(g, u) && IsNode(g, v)
    {
      ModesAgree(g, q, None, Some(u), v, u);
      if worra(u, v) { RelatesNodes(g, q, v, u); }
    }
    Traverse(g, q, back, worra, x, y, Nullable(q, false, true));
    assert Converse(worra, arrow);
    StarConverse(worra, arrow, x, y);
    PlusConverse(worra, arrow, x, y);
    if IsNode(g, x) && Star(worra, x, y) { StarClosed(worra, u => IsNode(g, u), x, y); }
    if IsNode(g, y) && Star(arrow, y, x) { StarNodes(g, q, y, x); }
  }

  /** `step` is `arrow` on the nodes, and at most staying put elsewhere. */
  lemma Traverse(g: Graph, q: Path, step: Rel<Term>, arrow: Rel<Term>, x: Term, y: Term, stay: bool)
    requires forall u, v :: step(u, v) <==> arrow(u, v) || (u == v && !IsNode(g, u) && stay)
    requires forall u, v :: arrow(u, v) ==> IsNode(g, u) && IsNode(g, v)
    ensures IsNode(g, x) ==> Star(step, x, y) == Star(arrow, x, y) && Plus(step, x, y) == Plus(arrow, x, y)
    ensures !IsNode(g, x) ==> Star(step, x, y) == (x == y) && Plus(step, x, y) == (x == y && stay)
  {
    if IsNode(g, x) {
      SameClosure(step, arrow, u => IsNode(g, u), x, y);
    } else {
      StarRefl(step, x);
      if Star(step, x, y) { StarClosed(step, u => u == x, x, y); }
      if x == y && stay { assert step(x, x); }
      if Plus(step, x, y) {
        var z :| step(x, z) && Star(step, z, y);
        assert z == x;
      }
    }
  }
}
