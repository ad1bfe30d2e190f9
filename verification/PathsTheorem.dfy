/** The theorem for paths nested to any depth. */
module PathsTheorem {
  import opened Terms
  import opened PathExprs
  import opened PathSpec
  import opened Reach
  import opened Paths
  import opened PathsProof
  import opened PathsClosures
  import opened PathsSequence

  lemma {:induction false} AllExact(d: Data, p: Path)
    requires Valid(d) && WellFormed(p)
    ensures Exact(d, p)
  {
    match p
    case Link(iri, src) => ExactLink(d, iri, src);
    case Nps(iris, src) => ExactNps(d, iris, src);
    case Inv(q) => AllExact(d, q); ExactInv(d, q);
    case Seq(ps) => forall i | 0 <= i < |ps| ensures Exact(d, ps[i]) { AllExact(d, ps[i]); } ExactSeq(d, ps);
    case Alt(ps) => forall i | 0 <= i < |ps| ensures Exact(d, ps[i]) { AllExact(d, ps[i]); } ExactAlt(d, ps);
    case ZeroOrOne(q) => AllExact(d, q); ExactOptional(d, q);
    case OneOrMore(q) => AllExact(d, q); ExactClosure(d, q, false);
    case ZeroOrMore(q) => AllExact(d, q); ExactClosure(d, q, true);
  }

  /** Any path, nested to any depth, with any mix of constants and variables at its ends, evaluated on leaves that
      were assigned to every source: the solutions are those of section 18.4 on the union of the sources. */
  lemma PathsAreRight(d: Data, s: Term, p: Path, o: Term, mu: Mapping)
    requires Valid(d) && WellFormed(p) && Fine(s, p, o)
    ensures Sol(d, s, Assign(|d.sources|, p), o, mu) <==> Answers(Merged(d), s, p, o, mu)
  {
    AllExact(d, p);
    assert ExactAt(d, s, p, o, mu);
  }

  ghost function LinkedAnywhere(d: Data, iri: Term): Rel<Term> {
    (u, v) => exists k :: 0 <= k < |d.sources| && Quad(u, iri, v, d.graph) in d.sources[k]
  }

  /** In particular a closure follows routes that alternate between sources. */
  lemma ClosureCrossesSources(d: Data, iri: Term, x: Term, y: Term)
    requires Valid(d) && Vars(iri) == {} && Vars(x) == {}
    ensures Sol(d, x, Assign(|d.sources|, OneOrMore(Link(iri, None))), Var("y"), map["y" := y])
       <==> Plus(LinkedAnywhere(d, iri), x, y)
  {
    var q, g, mu := Link(iri, None), Merged(d), map["y" := y];
    PathsAreRight(d, x, OneOrMore(q), Var("y"), mu);
    forall u, v ensures Arrow(g, q)(u, v) == LinkedAnywhere(d, iri)(u, v) { LinkArrow(d, iri, u, v); }
    SameClosure(Arrow(g, q), LinkedAnywhere(d, iri), (u: Term) => true, x, y);
    PlusFromConstant(g, q, x, y);
    AnswersFromConstant(g, OneOrMore(q), x, y);
  }

  lemma AnswersFromConstant(g: Graph, p: Path, x: Term, y: Term)
    requires Vars(x) == {}
    ensures Answers(g, x, p, Var("y"), map["y" := y]) <==> Spec(g, p, Some(x), None, x, y)
  {
    var mu := map["y" := y];
    if u, v :| AnswersWith(g, x, p, Var("y"), mu, u, v) { assert u == x && v == mu["y"]; }
    if Spec(g, p, Some(x), None, x, y) { assert AnswersWith(g, x, p, Var("y"), mu, x, y); }
  }

  lemma PlusFromConstant(g: Graph, q: Path, x: Term, y: Term)
    requires q.Link?
    ensures Spec(g, OneOrMore(q), Some(x), None, x, y) <==> Plus(Arrow(g, q), x, y)
  {
    ModesAgree(g, OneOrMore(q), Some(x), None, x, y);
    assert !Nullable(q, true, false);
  }

  lemma LinkArrow(d: Data, iri: Term, u: Term, v: Term)
    ensures Arrow(Merged(d), Link(iri, None))(u, v) <==> LinkedAnywhere(d, iri)(u, v)
  {
    assert Relates(Merged(d), Link(iri, None), u, v) <==> Has(Merged(d), u, iri, v);
  }

  // ----- the same variable at both ends -----

  /** The actors find a loop of the path at `y`.  For a one-or-more path they look for a loop of the path repeated and
      then answer whatever that node leads to. */
  ghost predicate Found(g: Graph, p: Path, y: Term) {
    match p
    case Inv(q) => Found(g, q, y)
    case Seq(ps) => if |ps| == 1 then Found(g, ps[0], y) else LoopAt(g, p, y)
    case Alt(ps) => exists i :: 0 <= i < |ps| && Found(g, ps[i], y)
    case ZeroOrOne(q) => IsNode(g, y) || Found(g, q, y)
    case OneOrMore(q) => exists x :: Found(g, q, x) && Star(Step(g, q), x, y)
    case _ => LoopAt(g, p, y)
  }

  /** The path leads from `y` to `y`: for a one-or-more path, `y` lies on a cycle. */
  ghost predicate LoopAt(g: Graph, p: Path, y: Term) { Spec(g, p, None, None, y, y) }

  ghost predicate FoundAs(g: Graph, p: Path, v: string, mu: Mapping, y: Term) { mu == map[v := y] && Found(g, p, y) }

  ghost predicate LoopAs(g: Graph, p: Path, v: string, mu: Mapping, y: Term) { mu == map[v := y] && LoopAt(g, p, y) }

  lemma LoopAnswers(g: Graph, p: Path, v: string, mu: Mapping)
    ensures Answers(g, Var(v), p, Var(v), mu) <==> exists y :: LoopAs(g, p, v, mu, y)
  {
    if a, b :| AnswersWith(g, Var(v), p, Var(v), mu, a, b) {
      assert Ends(Var(v), Var(v), b, b) == map[v := b];
      assert LoopAs(g, p, v, mu, b);
    }
    if y :| LoopAs(g, p, v, mu, y) {
      assert Ends(Var(v), Var(v), y, y) == map[v := y];
      assert AnswersWith(g, Var(v), p, Var(v), mu, y, y);
    }
  }

  /** A sub-query for the path with the variable at both ends. */
  ghost predicate Loops(d: Data, p: Path, v: string, mu: Mapping) {
    Sol(d, Var(v), Assign(|d.sources|, p), Var(v), mu)
  }

  ghost predicate Looks(d: Data, p: Path, v: string) {
    forall mu :: Loops(d, p, v, mu) <==> exists y :: FoundAs(Merged(d), p, v, mu, y)
  }

  lemma LooksStraight(d: Data, p: Path, v: string, mu: Mapping)
    requires Valid(d) && WellFormed(p) && v !in RESERVED && Straight(p)
    requires forall y :: Found(Merged(d), p, y) <==> LoopAt(Merged(d), p, y)
    ensures Loops(d, p, v, mu) <==> exists y :: FoundAs(Merged(d), p, v, mu, y)
  {
    PathsAreRight(d, Var(v), p, Var(v), mu);
    LoopAnswers(Merged(d), p, v, mu);
    if y :| LoopAs(Merged(d), p, v, mu, y) { assert FoundAs(Merged(d), p, v, mu, y); }
    if y :| FoundAs(Merged(d), p, v, mu, y) { assert LoopAs(Merged(d), p, v, mu, y); }
  }

  lemma LooksInverse(d: Data, q: Path, v: string, mu: Mapping)
    requires Looks(d, q, v)
    ensures Loops(d, Inv(q), v, mu) <==> exists y :: FoundAs(Merged(d), Inv(q), v, mu, y)
  {
    assert Loops(d, Inv(q), v, mu) <==> Loops(d, q, v, mu);
    forall y ensures FoundAs(Merged(d), Inv(q), v, mu, y) <==> FoundAs(Merged(d), q, v, mu, y) {}
  }

  lemma OneStepSol(d: Data, s: Term, q: Path, o: Term, nu: Mapping)
    ensures SeqSol(d, s, [q], o, [], nu) <==> Sol(d, s, q, o, nu)
  {
  }

  lemma OneStep(d: Data, s: Term, q: Path, o: Term, mu: Mapping)
    ensures Sol(d, s, Seq([q]), o, mu) <==> Sol(d, s, q, o, mu)
  {
    SeqIsRow(d, s, [q], o, mu);
    OneStepSol(d, s, q, o, mu);
    if SeqSol(d, s, [q], o, [], mu) { OneStepRow(d, s, q, o, mu); }
    if SeqRow(d, s, [q], o, mu) {
      var nu := SeqRowFrom(d, s, [q], o, mu);
      assert Joiners(s, o, 0) == [] && nu == mu;
    }
  }

  lemma OneStepRow(d: Data, s: Term, q: Path, o: Term, mu: Mapping)
    requires SeqSol(d, s, [q], o, [], mu)
    ensures SeqRow(d, s, [q], o, mu)
  {
    assert Joiners(s, o, 0) == [] && mu - {} == mu;
  }

  lemma LooksOneStep(d: Data, ps: seq<Path>, v: string, mu: Mapping)
    requires |ps| == 1 && Looks(d, ps[0], v)
    ensures Loops(d, Seq(ps), v, mu) <==> exists y :: FoundAs(Merged(d), Seq(ps), v, mu, y)
  {
    var n := |d.sources|;
    assert Assign(n, Seq(ps)).steps == [Assign(n, ps[0])];
    OneStep(d, Var(v), Assign(n, ps[0]), Var(v), mu);
    assert Loops(d, Seq(ps), v, mu) <==> Loops(d, ps[0], v, mu);
    forall y ensures FoundAs(Merged(d), Seq(ps), v, mu, y) <==> FoundAs(Merged(d), ps[0], v, mu, y) {}
  }

  lemma LooksAlternatives(d: Data, ps: seq<Path>, v: string, mu: Mapping)
    requires forall i :: 0 <= i < |ps| ==> Looks(d, ps[i], v)
    ensures Loops(d, Alt(ps), v, mu) <==> exists y :: FoundAs(Merged(d), Alt(ps), v, mu, y)
  {
    var g, qs := Merged(d), Assign(|d.sources|, Alt(ps)).choices;
    AltSol(d, Var(v), qs, Var(v), mu);
    forall i: nat | i < |ps| ensures SolAt(d, Var(v), qs, Var(v), mu, i) <==> Loops(d, ps[i], v, mu) {}
    if i: nat :| SolAt(d, Var(v), qs, Var(v), mu, i) {
      assert Loops(d, ps[i], v, mu);
      var y :| FoundAs(g, ps[i], v, mu, y);
      assert FoundAs(g, Alt(ps), v, mu, y);
    }
    if y :| FoundAs(g, Alt(ps), v, mu, y) {
      var i :| 0 <= i < |ps| && Found(g, ps[i], y);
      assert FoundAs(g, ps[i], v, mu, y);
      assert Loops(d, ps[i], v, mu);
      assert SolAt(d, Var(v), qs, Var(v), mu, i);
    }
  }

  lemma OptionalLoops(d: Data, q: Path, v: string, mu: Mapping)
    ensures Loops(d, ZeroOrOne(q), v, mu)
       <==> NodesSol(d, Assign(|d.sources|, ZeroOrOne(q)), v, v, mu) || Loops(d, q, v, mu)
  {
  }

  lemma LooksOptional(d: Data, q: Path, v: string, mu: Mapping)
    requires Valid(d) && WellFormed(q) && v !in RESERVED && Looks(d, q, v)
    ensures Loops(d, ZeroOrOne(q), v, mu) <==> exists y :: FoundAs(Merged(d), ZeroOrOne(q), v, mu, y)
  {
    var g, p := Merged(d), ZeroOrOne(q);
    NodesAre(d, p, v, v, mu);
    OptionalLoops(d, q, v, mu);
    if x :| NodeAt(d, v, v, mu, x) { assert FoundAs(g, p, v, mu, x); }
    if Loops(d, q, v, mu) {
      var y :| FoundAs(g, q, v, mu, y);
      assert FoundAs(g, p, v, mu, y);
    }
    if y :| FoundAs(g, p, v, mu, y) {
      if IsNode(g, y) { assert NodeAt(d, v, v, mu, y); } else { assert FoundAs(g, q, v, mu, y); }
    }
  }

  lemma {:induction false} FoundGround(d: Data, p: Path, y: Term)
    requires Valid(d) && Found(Merged(d), p, y)
    ensures Vars(y) == {}
  {
    var g := Merged(d);
    if LoopAt(g, p, y) { SingleStep(d, p, y, y); } else {
      match p
      case Inv(q) => FoundGround(d, q, y);
      case Seq(ps) => FoundGround(d, ps[0], y);
      case Alt(ps) =>
        var i :| 0 <= i < |ps| && Found(g, ps[i], y);
        FoundGround(d, ps[i], y);
      case ZeroOrOne(q) => if IsNode(g, y) { NodeGround(d, y); } else { FoundGround(d, q, y); }
      case OneOrMore(q) =>
        var x :| Found(g, q, x) && Star(Step(g, q), x, y);
        FoundGround(d, q, x);
        StarGround(d, q, x, y);
    }
  }

  lemma StarGround(d: Data, q: Path, x: Term, y: Term)
    requires Valid(d) && Vars(x) == {} && Star(Step(Merged(d), q), x, y)
    ensures Vars(y) == {}
  {
    var inside := (t: Term) => Vars(t) == {};
    forall u, v | inside(u) && Step(Merged(d), q)(u, v) ensures inside(v) { StepGround(d, q, u, v); }
    StarClosed(Step(Merged(d), q), inside, x, y);
  }

  lemma LoopFound(d: Data, q: Path, v: string, mu: Mapping) returns (y: Term)
    requires Valid(d) && WellFormed(q) && Looks(d, q, v) && Loops(d, OneOrMore(q), v, mu)
    ensures FoundAs(Merged(d), OneOrMore(q), v, mu, y)
  {
    var single: Mapping;
    single, y := SinglePair(d, Assign(|d.sources|, q), Var(v), Var(v), mu);
    assert Loops(d, q, v, single);
    var x :| FoundAs(Merged(d), q, v, single, x);
    FoundGround(d, q, x);
    AllExact(d, q);
    SameReach(d, q, true, x, y);
    assert mu == map[v := y];
  }

  lemma LoopBack(d: Data, q: Path, v: string, x: Term, y: Term)
    requires Valid(d) && WellFormed(q) && Looks(d, q, v)
    requires Found(Merged(d), q, x) && Star(Step(Merged(d), q), x, y)
    ensures Loops(d, OneOrMore(q), v, map[v := y])
  {
    var a := Assign(|d.sources|, q);
    assert FoundAs(Merged(d), q, v, map[v := x], x);
    assert Loops(d, q, v, map[v := x]);
    FoundGround(d, q, x);
    AllExact(d, q);
    SameReach(d, q, true, x, y);
    assert PairRow(v, v, map[v := y], map[v := x], SubQuery(d, a), y);
    PairSol(d, Var(v), a, Var(v), map[v := y], map[v := x], y);
  }

  lemma LooksRepeated(d: Data, q: Path, v: string, mu: Mapping)
    requires Valid(d) && WellFormed(q) && Looks(d, q, v)
    ensures Loops(d, OneOrMore(q), v, mu) <==> exists y :: FoundAs(Merged(d), OneOrMore(q), v, mu, y)
  {
    if Loops(d, OneOrMore(q), v, mu) { var y := LoopFound(d, q, v, mu); }
    if y :| FoundAs(Merged(d), OneOrMore(q), v, mu, y) {
      var x :| Found(Merged(d), q, x) && Star(Step(Merged(d), q), x, y);
      LoopBack(d, q, v, x, y);
    }
  }

  /** What a path is answered with the same variable at both ends: the loops the actors find. */
  lemma {:induction false} LoopSolutions(d: Data, p: Path, v: string)
    requires Valid(d) && WellFormed(p) && v !in RESERVED
    ensures Looks(d, p, v)
  {
    match p
    case Inv(q) =>
      LoopSolutions(d, q, v);
      forall mu { LooksInverse(d, q, v, mu); }
    case Seq(ps) =>
      if |ps| == 1 {
        LoopSolutions(d, ps[0], v);
        forall mu { LooksOneStep(d, ps, v, mu); }
      } else {
        forall mu { LooksStraight(d, p, v, mu); }
      }
    case Alt(ps) =>
      forall i | 0 <= i < |ps| ensures Looks(d, ps[i], v) { LoopSolutions(d, ps[i], v); }
      forall mu { LooksAlternatives(d, ps, v, mu); }
    case ZeroOrOne(q) =>
      LoopSolutions(d, q, v);
      forall mu { LooksOptional(d, q, v, mu); }
    case OneOrMore(q) =>
      LoopSolutions(d, q, v);
      forall mu { LooksRepeated(d, q, v, mu); }
    case _ => forall mu { LooksStraight(d, p, v, mu); }
  }

  lemma SameVariableAt(d: Data, p: Path, v: string, mu: Mapping)
    requires Valid(d) && WellFormed(p) && v !in RESERVED
    ensures ExactAt(d, Var(v), p, Var(v), mu)
       <==> ((exists y :: FoundAs(Merged(d), p, v, mu, y)) <==> exists y :: LoopAs(Merged(d), p, v, mu, y))
  {
    LoopSolutions(d, p, v);
    LoopAnswers(Merged(d), p, v, mu);
    assert ExactAt(d, Var(v), p, Var(v), mu) <==> (Loops(d, p, v, mu) <==> Answers(Merged(d), Var(v), p, Var(v), mu));
  }

  lemma OneValue(g: Graph, p: Path, v: string, y: Term)
    ensures (exists x :: FoundAs(g, p, v, map[v := y], x)) <==> Found(g, p, y)
    ensures (exists x :: LoopAs(g, p, v, map[v := y], x)) <==> LoopAt(g, p, y)
  {
    assert map[v := y][v] == y;
    if Found(g, p, y) { assert FoundAs(g, p, v, map[v := y], y); }
    if LoopAt(g, p, y) { assert LoopAs(g, p, v, map[v := y], y); }
    if x :| FoundAs(g, p, v, map[v := y], x) { assert map[v := y][v] == x; }
    if x :| LoopAs(g, p, v, map[v := y], x) { assert map[v := y][v] == x; }
  }

  /** With the same variable at both ends any path, nested to any depth, is answered rightly exactly if the loops the
      actors find are the loops of the path. */
  lemma SameVariableExactly(d: Data, p: Path, v: string)
    requires Valid(d) && WellFormed(p) && v !in RESERVED
    ensures (forall mu :: ExactAt(d, Var(v), p, Var(v), mu))
       <==> forall y :: Found(Merged(d), p, y) <==> LoopAt(Merged(d), p, y)
  {
    var g := Merged(d);
    forall y ensures ExactAt(d, Var(v), p, Var(v), map[v := y]) <==> (Found(g, p, y) <==> LoopAt(g, p, y)) {
      SameVariableAt(d, p, v, map[v := y]);
      OneValue(g, p, v, y);
    }
    forall mu | forall y :: Found(g, p, y) <==> LoopAt(g, p, y) ensures ExactAt(d, Var(v), p, Var(v), mu) {
      SameVariableAt(d, p, v, mu);
      if y :| FoundAs(g, p, v, mu, y) { assert LoopAs(g, p, v, mu, y); }
      if y :| LoopAs(g, p, v, mu, y) { assert FoundAs(g, p, v, mu, y); }
    }
  }

  /** For a plain one-or-more path: exactly if the nodes that its self-loops lead to are the nodes on its cycles. */
  lemma ClosureLoops(g: Graph, iri: Term, y: Term)
    ensures (var q := Link(iri, None);
             && (Found(g, OneOrMore(q), y) <==> exists x :: Has(g, x, iri, x) && Star(Step(g, q), x, y))
             && (LoopAt(g, OneOrMore(q), y) <==> IsNode(g, y) && Plus(Step(g, q), y, y)))
  {
    var q := Link(iri, None);
    forall x ensures Found(g, q, x) <==> Has(g, x, iri, x) {}
  }

  /** An answer is invented where a loop found leads to a node without one: the end of the search overwrites its
      start. */
  lemma SameVariableInvents(d: Data, p: Path, v: string, y: Term)
    requires Valid(d) && WellFormed(p) && v !in RESERVED && Found(Merged(d), p, y) && !LoopAt(Merged(d), p, y)
    ensures Sol(d, Var(v), Assign(|d.sources|, p), Var(v), map[v := y])
    ensures !Answers(Merged(d), Var(v), p, Var(v), map[v := y])
  {
    LoopSolutions(d, p, v);
    LoopAnswers(Merged(d), p, v, map[v := y]);
    OneValue(Merged(d), p, v, y);
    assert Loops(d, p, v, map[v := y]);
  }

  /** One is missed at a loop that none found leads to. */
  lemma SameVariableMisses(d: Data, p: Path, v: string, y: Term)
    requires Valid(d) && WellFormed(p) && v !in RESERVED && LoopAt(Merged(d), p, y) && !Found(Merged(d), p, y)
    ensures !Sol(d, Var(v), Assign(|d.sources|, p), Var(v), map[v := y])
    ensures Answers(Merged(d), Var(v), p, Var(v), map[v := y])
  {
    LoopSolutions(d, p, v);
    LoopAnswers(Merged(d), p, v, map[v := y]);
    OneValue(Merged(d), p, v, y);
    assert !Loops(d, p, v, map[v := y]);
  }

  lemma LinkStep(g: Graph, p: Term, u: Term, v: Term)
    ensures Step(g, Link(p, None))(u, v) <==> Has(g, u, p, v)
  {
    assert Spec(g, Link(p, None), Some(u), None, u, v) <==> Has(g, u, p, v);
  }

  /** `a p b`, `b p a`: both lie on a cycle, and no loop is found. */
  lemma TwoNodeCycle(g: Graph, a: Term, p: Term, b: Term)
    requires a != b && g.quads == {Quad(a, p, b, g.name), Quad(b, p, a, g.name)}
    ensures LoopAt(g, OneOrMore(Link(p, None)), a) && forall y :: !Found(g, OneOrMore(Link(p, None)), y)
  {
    var q := Link(p, None);
    var step := Step(g, q);
    assert Has(g, a, p, b) && Has(g, b, p, a);
    LinkStep(g, p, a, b);
    LinkStep(g, p, b, a);
    StarStep(step, b, a);
    assert step(a, b) && Star(step, b, a);
    forall y ensures LoopAt(g, OneOrMore(q), a) && !Found(g, OneOrMore(q), y) {
      ClosureLoops(g, p, a);
      ClosureLoops(g, p, y);
      forall x ensures !Has(g, x, p, x) {}
    }
  }

  /** `a p a`, `a p b`: the loop at `a` is found and answered as `b` too, which lies on no cycle. */
  lemma LeadsOffCycle(g: Graph, a: Term, p: Term, b: Term)
    requires a != b && g.quads == {Quad(a, p, a, g.name), Quad(a, p, b, g.name)}
    ensures Found(g, OneOrMore(Link(p, None)), b) && !LoopAt(g, OneOrMore(Link(p, None)), b)
  {
    var step := Step(g, Link(p, None));
    assert Has(g, a, p, a) && Has(g, a, p, b);
    LinkStep(g, p, a, b);
    StarStep(step, a, b);
    ClosureLoops(g, p, b);
    forall z ensures !step(b, z) { LinkStep(g, p, b, z); assert !Has(g, b, p, z); }
  }
}
