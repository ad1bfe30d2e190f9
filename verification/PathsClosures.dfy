/** Closures and optional paths, on nodes gathered from all sources. */
module PathsClosures {
  import opened Terms
  import opened PathExprs
  import opened PathSpec
  import opened Reach
  import opened Paths
  import opened PathsProof

  // ----- nodes -----

  lemma NodePatterns(graph: Term, v: string, nu: Mapping)
    requires v !in RESERVED && Vars(graph) == {} && nu.Keys == {v, "__p", "__x"}
    ensures Vars(Quad(Var(v), Var("__p"), Var("__x"), graph)) == nu.Keys
    ensures Vars(Quad(Var("__x"), Var("__p"), Var(v), graph)) == nu.Keys
    ensures Subst(nu, Quad(Var(v), Var("__p"), Var("__x"), graph)) == Quad(nu[v], nu["__p"], nu["__x"], graph)
    ensures Subst(nu, Quad(Var("__x"), Var("__p"), Var(v), graph)) == Quad(nu["__x"], nu["__p"], nu[v], graph)
  {
    SubstGround(nu, graph);
  }

  lemma NodeRowAre(quads: set<Term>, graph: Term, v: string, row: Mapping)
    requires v !in RESERVED && Vars(graph) == {} && NodeRow(quads, graph, v, row)
    ensures v in row && row == map[v := row[v]] && IsNode(Graph(quads, graph), row[v])
  {
    var nu :| NodeQuad(quads, graph, v, nu) && row == nu - {"__p", "__x"};
    assert Vars(Quad(Var(v), Var("__p"), Var("__x"), graph)) == {v, "__p", "__x"};
    assert Vars(Quad(Var("__x"), Var("__p"), Var(v), graph)) == {v, "__p", "__x"};
    NodePatterns(graph, v, nu);
    var p, y := nu["__p"], nu["__x"];
    assert Has(Graph(quads, graph), nu[v], p, y) || Has(Graph(quads, graph), y, p, nu[v]);
    assert row.Keys == {v};
  }

  lemma NodeHasRow(quads: set<Term>, graph: Term, v: string, x: Term, p: Term, y: Term)
    requires v !in RESERVED && Vars(graph) == {}
    requires Has(Graph(quads, graph), x, p, y) || Has(Graph(quads, graph), y, p, x)
    ensures NodeRow(quads, graph, v, map[v := x])
  {
    var nu: Mapping := map["__p" := p, "__x" := y, v := x];
    assert nu.Keys == {v, "__p", "__x"};
    NodePatterns(graph, v, nu);
    assert NodeQuad(quads, graph, v, nu);
    assert nu - {"__p", "__x"} == map[v := x];
  }

  ghost predicate NodeAt(d: Data, s: string, o: string, mu: Mapping, x: Term) {
    IsNode(Merged(d), x) && mu == map[s := x][o := x]
  }

  /** The nodes of all sources together are the nodes of the merged graph. */
  lemma NodesAre(d: Data, p: Path, s: string, o: string, mu: Mapping)
    requires Valid(d) && WellFormed(p) && s !in RESERVED
    ensures NodesSol(d, Assign(|d.sources|, p), s, o, mu) <==> exists x :: NodeAt(d, s, o, mu, x)
  {
    var a := Assign(|d.sources|, p);
    if NodesSol(d, a, s, o, mu) {
      var k: nat, row :| HasSource(a, k) && NodeOf(d, k, s, row) && mu == row[o := row[s]];
      NodeRowAre(d.sources[k], d.graph, s, row);
      var x := row[s];
      var q, y :| Has(Graph(d.sources[k], d.graph), x, q, y) || Has(Graph(d.sources[k], d.graph), y, q, x);
      assert Has(Merged(d), x, q, y) || Has(Merged(d), y, q, x);
      assert NodeAt(d, s, o, mu, x);
    }
    if x :| NodeAt(d, s, o, mu, x) {
      var q, y :| Has(Merged(d), x, q, y) || Has(Merged(d), y, q, x);
      var quad := if Has(Merged(d), x, q, y) then Quad(x, q, y, d.graph) else Quad(y, q, x, d.graph);
      var k :| 0 <= k < |d.sources| && quad in d.sources[k];
      NodeHasRow(d.sources[k], d.graph, s, x, q, y);
      AssignedSources(|d.sources|, p, k);
      assert NodeOf(d, k, s, map[s := x]);
    }
  }

  /** Named like one of the helper variables, the subject never gets bound. */
  lemma ReservedNames(quads: set<Term>, graph: Term, v: string, row: Mapping)
    requires v in RESERVED && NodeRow(quads, graph, v, row)
    ensures v !in row
  {
  }

  /** `nodes` is right about a graph that has any quad exactly if its variable is not one of the helper variables. */
  lemma NodesExactly(quads: set<Term>, graph: Term, v: string)
    requires Vars(graph) == {} && exists x :: IsNode(Graph(quads, graph), x)
    ensures (forall x :: IsNode(Graph(quads, graph), x) <==> NodeRow(quads, graph, v, map[v := x])) <==> v !in RESERVED
  {
    if v !in RESERVED {
      forall x
        ensures IsNode(Graph(quads, graph), x) <==> NodeRow(quads, graph, v, map[v := x])
      {
        if p, y :| Has(Graph(quads, graph), x, p, y) || Has(Graph(quads, graph), y, p, x) {
          NodeHasRow(quads, graph, v, x, p, y);
        }
        if NodeRow(quads, graph, v, map[v := x]) { NodeRowAre(quads, graph, v, map[v := x]); }
      }
    } else {
      var x :| IsNode(Graph(quads, graph), x);
      if NodeRow(quads, graph, v, map[v := x]) { ReservedNames(quads, graph, v, map[v := x]); }
    }
  }

  // ----- traversals -----

  lemma SubQueryIs(d: Data, q: Path, x: Term, y: Term)
    requires Exact(d, q) && Vars(x) == {}
    ensures SubQuery(d, Assign(|d.sources|, q))(x, y) <==> Step(Merged(d), q)(x, y)
  {
    var b, mu := Var("b"), map["b" := y];
    assert Fine(x, q, b) && ExactAt(d, x, q, b, mu);
    AnswersForward(Merged(d), q, x, y);
  }

  lemma InverseSubQueryIs(d: Data, q: Path, x: Term, y: Term)
    requires Exact(d, q) && Vars(x) == {}
    ensures InverseSubQuery(d, Assign(|d.sources|, q))(x, y) <==> Back(Merged(d), q)(x, y)
  {
    var b, mu := Var("b"), map["b" := y];
    assert Fine(b, q, x) && ExactAt(d, b, q, x, mu);
    AnswersBackward(Merged(d), q, x, y);
  }

  lemma AnswersForward(g: Graph, q: Path, x: Term, y: Term)
    requires Vars(x) == {}
    ensures Answers(g, x, q, Var("b"), map["b" := y]) <==> Step(g, q)(x, y)
  {
    var b, mu := Var("b"), map["b" := y];
    if Step(g, q)(x, y) { assert AnswersWith(g, x, q, b, mu, x, y); }
    if u, v :| AnswersWith(g, x, q, b, mu, u, v) { assert u == x && v == mu["b"]; }
  }

  lemma AnswersBackward(g: Graph, q: Path, x: Term, y: Term)
    requires Vars(x) == {}
    ensures Answers(g, Var("b"), q, x, map["b" := y]) <==> Back(g, q)(x, y)
  {
    var b, mu := Var("b"), map["b" := y];
    if Back(g, q)(x, y) { assert AnswersWith(g, b, q, x, mu, y, x); }
    if u, v :| AnswersWith(g, b, q, x, mu, u, v) { assert v == x && u == mu["b"]; }
  }

  lemma NodeGround(d: Data, x: Term)
    requires Valid(d) && IsNode(Merged(d), x)
    ensures Vars(x) == {}
  {
    var p, y :| Has(Merged(d), x, p, y) || Has(Merged(d), y, p, x);
    var quad := if Has(Merged(d), x, p, y) then Quad(x, p, y, d.graph) else Quad(y, p, x, d.graph);
    var k :| 0 <= k < |d.sources| && quad in d.sources[k];
    assert Vars(quad) == {};
  }

  lemma StepGround(d: Data, q: Path, x: Term, y: Term)
    requires Valid(d) && Vars(x) == {}
    ensures Step(Merged(d), q)(x, y) || Back(Merged(d), q)(x, y) ==> Vars(y) == {}
  {
    var g := Merged(d);
    ModesAgree(g, q, Some(x), None, x, y);
    ModesAgree(g, q, None, Some(x), y, x);
    if Relates(g, q, x, y) { RelatesNodes(g, q, x, y); }
    if Relates(g, q, y, x) { RelatesNodes(g, q, y, x); }
    if IsNode(g, y) { NodeGround(d, y); }
  }

  lemma SameReach(d: Data, q: Path, zero: bool, x: Term, y: Term)
    requires Valid(d) && Exact(d, q) && Vars(x) == {}
    ensures Reaches(SubQuery(d, Assign(|d.sources|, q)), zero, x, y) <==> Reaches(Step(Merged(d), q), zero, x, y)
    ensures Reaches(InverseSubQuery(d, Assign(|d.sources|, q)), zero, x, y) <==> Reaches(Back(Merged(d), q), zero, x, y)
  {
    var inside := (t: Term) => Vars(t) == {};
    var a := Assign(|d.sources|, q);
    forall u, v | inside(u)
      ensures SubQuery(d, a)(u, v) == Step(Merged(d), q)(u, v)
              && InverseSubQuery(d, a)(u, v) == Back(Merged(d), q)(u, v)
      ensures Step(Merged(d), q)(u, v) || Back(Merged(d), q)(u, v) ==> inside(v)
    {
      SubQueryIs(d, q, u, v);
      InverseSubQueryIs(d, q, u, v);
      StepGround(d, q, u, v);
    }
    SameClosure(Step(Merged(d), q), SubQuery(d, a), inside, x, y);
    SameClosure(Back(Merged(d), q), InverseSubQuery(d, a), inside, x, y);
  }

  function Closure(q: Path, zero: bool): Path { if zero then ZeroOrMore(q) else OneOrMore(q) }

  ghost predicate FixedAt(s: Term, o: Term, mu: Mapping, forward: Rel<Term>, inverse: Rel<Term>, zero: bool, x: Term,
      y: Term) {
    && Fits(Mode(s), x) && Fits(Mode(o), y) && mu == Ends(s, o, x, y)
    && if s.Var? then Reaches(inverse, zero, y, x) else Reaches(forward, zero, x, y)
  }

  lemma FixedRow(s: Term, o: Term, mu: Mapping, forward: Rel<Term>, inverse: Rel<Term>, zero: bool)
    requires !s.Var? || !o.Var?
    ensures FixedEndRow(s, o, mu, forward, inverse, zero)
       <==> exists x, y :: FixedAt(s, o, mu, forward, inverse, zero, x, y)
  {
    if FixedEndRow(s, o, mu, forward, inverse, zero) { var x, y := RowFixed(s, o, mu, forward, inverse, zero); }
    if x, y :| FixedAt(s, o, mu, forward, inverse, zero, x, y) {
      if s.Var? { assert Reaches(inverse, zero, o, x) && mu == map[s.name := x]; }
      else if o.Var? { assert Reaches(forward, zero, s, y) && mu == map[o.name := y]; }
    }
  }

  lemma RowFixed(s: Term, o: Term, mu: Mapping, forward: Rel<Term>, inverse: Rel<Term>, zero: bool)
      returns (x: Term, y: Term)
    requires (!s.Var? || !o.Var?) && FixedEndRow(s, o, mu, forward, inverse, zero)
    ensures FixedAt(s, o, mu, forward, inverse, zero, x, y)
  {
    x, y := s, o;
    if s.Var? {
      x :| Reaches(inverse, zero, o, x) && mu == map[s.name := x];
    } else if o.Var? {
      y :| Reaches(forward, zero, s, y) && mu == map[o.name := y];
    }
  }

  lemma FixedSol(d: Data, s: Term, a: Path, zero: bool, o: Term, mu: Mapping)
    requires !s.Var? || !o.Var?
    ensures Sol(d, s, Closure(a, zero), o, mu) <==> FixedEndRow(s, o, mu, SubQuery(d, a), InverseSubQuery(d, a), zero)
  {
  }

  lemma SpecClosure(g: Graph, q: Path, zero: bool, a: End, c: End, x: Term, y: Term)
    requires a.Some? || c.Some?
    ensures Spec(g, Closure(q, zero), a, c, x, y)
       <==> Fits(a, x) && Fits(c, y)
            && if a.None? then Reaches(Back(g, q), zero, y, x) else Reaches(Step(g, q), zero, x, y)
  {
  }

  lemma FixedAnswer(g: Graph, q: Path, zero: bool, s: Term, o: Term, mu: Mapping, x: Term, y: Term)
    requires !s.Var? || !o.Var?
    ensures FixedAt(s, o, mu, Step(g, q), Back(g, q), zero, x, y) <==> AnswersWith(g, s, Closure(q, zero), o, mu, x, y)
  {
    SpecClosure(g, q, zero, Mode(s), Mode(o), x, y);
  }

  lemma FixedSame(d: Data, q: Path, zero: bool, s: Term, o: Term, mu: Mapping, x: Term, y: Term)
    requires Valid(d) && Exact(d, q) && Usable(s) && Usable(o) && (!s.Var? || !o.Var?)
    ensures (var a := Assign(|d.sources|, q); FixedAt(s, o, mu, SubQuery(d, a), InverseSubQuery(d, a), zero, x, y))
       <==> AnswersWith(Merged(d), s, Closure(q, zero), o, mu, x, y)
  {
    FixedAnswer(Merged(d), q, zero, s, o, mu, x, y);
    if s.Var? { SameReach(d, q, zero, o, x); } else { SameReach(d, q, zero, s, y); }
    var a, g := Assign(|d.sources|, q), Merged(d);
    SameFixed(s, o, mu, SubQuery(d, a), InverseSubQuery(d, a), Step(g, q), Back(g, q), zero, x, y);
  }

  lemma SameFixed(s: Term, o: Term, mu: Mapping, forward: Rel<Term>, inverse: Rel<Term>, step: Rel<Term>,
      back: Rel<Term>, zero: bool, x: Term, y: Term)
    requires s.Var? ==> !o.Var? && Reaches(inverse, zero, o, x) == Reaches(back, zero, o, x)
    requires !s.Var? ==> Reaches(forward, zero, s, y) == Reaches(step, zero, s, y)
    ensures FixedAt(s, o, mu, forward, inverse, zero, x, y) <==> FixedAt(s, o, mu, step, back, zero, x, y)
  {
  }

  /** With a fixed end, a closure is a traversal from that end. */
  lemma FixedEnds(d: Data, q: Path, zero: bool, s: Term, o: Term, mu: Mapping)
    requires Valid(d) && Exact(d, q) && Usable(s) && Usable(o) && (!s.Var? || !o.Var?)
    ensures ExactAt(d, s, Closure(q, zero), o, mu)
  {
    var a := Assign(|d.sources|, q);
    FixedSol(d, s, a, zero, o, mu);
    FixedRows(d, q, zero, s, o, mu, SubQuery(d, a), InverseSubQuery(d, a));
  }

  lemma FixedRows(d: Data, q: Path, zero: bool, s: Term, o: Term, mu: Mapping, forward: Rel<Term>, inverse: Rel<Term>)
    requires Valid(d) && Exact(d, q) && Usable(s) && Usable(o) && (!s.Var? || !o.Var?)
    requires forward == SubQuery(d, Assign(|d.sources|, q)) && inverse == InverseSubQuery(d, Assign(|d.sources|, q))
    ensures FixedEndRow(s, o, mu, forward, inverse, zero) <==> Answers(Merged(d), s, Closure(q, zero), o, mu)
  {
    FixedRow(s, o, mu, forward, inverse, zero);
    if x, y :| FixedAt(s, o, mu, forward, inverse, zero, x, y) { FixedSame(d, q, zero, s, o, mu, x, y); }
    if x, y :| AnswersWith(Merged(d), s, Closure(q, zero), o, mu, x, y) {
      FixedSame(d, q, zero, s, o, mu, x, y);
      assert FixedAt(s, o, mu, forward, inverse, zero, x, y);
    }
  }

  /** From every node, everything it reaches. */
  lemma ZeroPairs(d: Data, q: Path, s: Term, o: Term, mu: Mapping)
    requires Valid(d) && WellFormed(q) && Exact(d, q) && Usable(s) && Usable(o) && s.Var? && o.Var?
    ensures ExactAt(d, s, ZeroOrMore(q), o, mu)
  {
    var g, p, n := Merged(d), ZeroOrMore(q), |d.sources|;
    if Sol(d, s, Assign(n, p), o, mu) {
      var nodes, y := NodePair(d, Assign(n, q), s, o, mu);
      NodesAre(d, p, s.name, o.name, nodes);
      var x :| NodeAt(d, s.name, o.name, nodes, x);
      ZeroPairFound(d, q, s, o, mu, x, y);
    }
    if x, y :| AnswersWith(g, s, p, o, mu, x, y) { ZeroPairBack(d, q, s, o, mu, x, y); }
  }

  lemma NodePair(d: Data, a: Path, s: Term, o: Term, mu: Mapping) returns (nodes: Mapping, y: Term)
    requires s.Var? && o.Var? && Sol(d, s, ZeroOrMore(a), o, mu)
    ensures NodesSol(d, ZeroOrMore(a), s.name, o.name, nodes) && PairRow(s.name, o.name, mu, nodes, SubQuery(d, a), y)
  {
    nodes, y :| NodesSol(d, ZeroOrMore(a), s.name, o.name, nodes)
      && PairRow(s.name, o.name, mu, nodes, SubQuery(d, a), y);
  }

  lemma ZeroPairFound(d: Data, q: Path, s: Term, o: Term, mu: Mapping, x: Term, y: Term)
    requires Valid(d) && Exact(d, q) && s.Var? && o.Var? && IsNode(Merged(d), x)
    requires Star(SubQuery(d, Assign(|d.sources|, q)), x, y) && mu == map[s.name := x][o.name := y]
    ensures Answers(Merged(d), s, ZeroOrMore(q), o, mu)
  {
    var g := Merged(d);
    NodeGround(d, x);
    SameReach(d, q, true, x, y);
    if s == o { StarEndsInNode(g, q, x, y); }
    StarAnswers(g, q, s, o, if s == o then y else x, y);
    assert mu == map[s.name := if s == o then y else x][o.name := y];
  }

  lemma StarEndsInNode(g: Graph, q: Path, x: Term, y: Term)
    requires IsNode(g, x) && Star(Step(g, q), x, y)
    ensures IsNode(g, y) && Star(Step(g, q), y, y)
  {
    StepModes(g, q, x, y);
    StarNodes(g, q, x, y);
    StarRefl(Step(g, q), y);
  }

  lemma StarAnswers(g: Graph, q: Path, s: Term, o: Term, x: Term, y: Term)
    requires s.Var? && o.Var? && (s == o ==> x == y) && IsNode(g, x) && Star(Step(g, q), x, y)
    ensures Answers(g, s, ZeroOrMore(q), o, map[s.name := x][o.name := y])
  {
    assert Ends(s, o, x, y) == map[s.name := x][o.name := y];
    assert AnswersWith(g, s, ZeroOrMore(q), o, Ends(s, o, x, y), x, y);
  }

  lemma ZeroPairBack(d: Data, q: Path, s: Term, o: Term, mu: Mapping, x: Term, y: Term)
    requires Valid(d) && WellFormed(q) && Exact(d, q) && Usable(s) && s.Var? && o.Var?
    requires AnswersWith(Merged(d), s, ZeroOrMore(q), o, mu, x, y)
    ensures Sol(d, s, Assign(|d.sources|, ZeroOrMore(q)), o, mu)
  {
    var nodes := map[s.name := x][o.name := x];
    assert NodeAt(d, s.name, o.name, nodes, x);
    NodesAre(d, ZeroOrMore(q), s.name, o.name, nodes);
    NodeGround(d, x);
    SameReach(d, q, true, x, y);
    assert PairRow(s.name, o.name, mu, nodes, SubQuery(d, Assign(|d.sources|, q)), y);
  }

  /** One step between two variables, then everything its end reaches. */
  lemma OnePairs(d: Data, q: Path, s: Term, o: Term, mu: Mapping)
    requires Valid(d) && Exact(d, q) && Usable(s) && Usable(o) && s.Var? && o.Var? && s != o
    ensures ExactAt(d, s, OneOrMore(q), o, mu)
  {
    var n := |d.sources|;
    if Sol(d, s, Assign(n, OneOrMore(q)), o, mu) {
      var single, y := SinglePair(d, Assign(n, q), s, o, mu);
      OnePairFound(d, q, s, o, mu, single, y);
    }
    if x, y :| AnswersWith(Merged(d), s, OneOrMore(q), o, mu, x, y) { OnePairBack(d, q, s, o, mu, x, y); }
  }

  lemma SinglePair(d: Data, a: Path, s: Term, o: Term, mu: Mapping) returns (single: Mapping, y: Term)
    requires s.Var? && o.Var? && Sol(d, s, OneOrMore(a), o, mu)
    ensures Sol(d, s, a, o, single) && PairRow(s.name, o.name, mu, single, SubQuery(d, a), y)
  {
    single, y :| Sol(d, s, a, o, single) && PairRow(s.name, o.name, mu, single, SubQuery(d, a), y);
  }

  lemma OnePairFound(d: Data, q: Path, s: Term, o: Term, mu: Mapping, single: Mapping, y: Term)
    requires Valid(d) && Exact(d, q) && Usable(s) && Usable(o) && s.Var? && o.Var? && s != o
    requires Sol(d, s, Assign(|d.sources|, q), o, single)
    requires PairRow(s.name, o.name, mu, single, SubQuery(d, Assign(|d.sources|, q)), y)
    ensures Answers(Merged(d), s, OneOrMore(q), o, mu)
  {
    assert Fine(s, q, o) && ExactAt(d, s, q, o, single);
    var x, z :| AnswersWith(Merged(d), s, q, o, single, x, z);
    SingleStep(d, q, x, z);
    SameReach(d, q, true, z, y);
    PlusAnswers(Merged(d), q, s, o, mu, x, z, y);
  }

  lemma PlusAnswers(g: Graph, q: Path, s: Term, o: Term, mu: Mapping, x: Term, z: Term, y: Term)
    requires s.Var? && o.Var? && s != o && mu == map[s.name := x][o.name := y]
    requires IsNode(g, x) && Step(g, q)(x, z) && Star(Step(g, q), z, y)
    ensures Answers(g, s, OneOrMore(q), o, mu)
  {
    assert AnswersWith(g, s, OneOrMore(q), o, mu, x, y);
  }

  lemma OnePairBack(d: Data, q: Path, s: Term, o: Term, mu: Mapping, x: Term, y: Term)
    requires Valid(d) && Exact(d, q) && Usable(s) && Usable(o) && s.Var? && o.Var? && s != o
    requires AnswersWith(Merged(d), s, OneOrMore(q), o, mu, x, y)
    ensures Sol(d, s, Assign(|d.sources|, OneOrMore(q)), o, mu)
  {
    var z := FirstStep(Merged(d), q, s, o, mu, x, y);
    SingleStep(d, q, x, z);
    SameReach(d, q, true, z, y);
    var single := FirstPair(d, q, s, o, x, z);
    assert PairRow(s.name, o.name, mu, single, SubQuery(d, Assign(|d.sources|, q)), y);
    PairSol(d, s, Assign(|d.sources|, q), o, mu, single, y);
  }

  lemma PairSol(d: Data, s: Term, a: Path, o: Term, mu: Mapping, single: Mapping, y: Term)
    requires s.Var? && o.Var? && Sol(d, s, a, o, single) && PairRow(s.name, o.name, mu, single, SubQuery(d, a), y)
    ensures Sol(d, s, OneOrMore(a), o, mu)
  {
  }

  lemma FirstStep(g: Graph, q: Path, s: Term, o: Term, mu: Mapping, x: Term, y: Term) returns (z: Term)
    requires s.Var? && o.Var? && AnswersWith(g, s, OneOrMore(q), o, mu, x, y)
    ensures IsNode(g, x) && Step(g, q)(x, z) && Star(Step(g, q), z, y) && mu == map[s.name := x][o.name := y]
  {
    z :| Step(g, q)(x, z) && Star(Step(g, q), z, y);
  }

  lemma FirstPair(d: Data, q: Path, s: Term, o: Term, x: Term, z: Term) returns (single: Mapping)
    requires Valid(d) && Exact(d, q) && Usable(s) && Usable(o) && s.Var? && o.Var? && s != o
    requires Spec(Merged(d), q, None, None, x, z)
    ensures single == map[s.name := x][o.name := z] && Sol(d, s, Assign(|d.sources|, q), o, single)
  {
    single := map[s.name := x][o.name := z];
    assert single == Ends(s, o, x, z);
    assert AnswersWith(Merged(d), s, q, o, single, x, z);
    assert Fine(s, q, o) && ExactAt(d, s, q, o, single);
  }

  /** Between two variables, the path is what it is from each node. */
  lemma SingleStep(d: Data, q: Path, x: Term, z: Term)
    requires Valid(d)
    ensures Spec(Merged(d), q, None, None, x, z) <==> IsNode(Merged(d), x) && Step(Merged(d), q)(x, z)
    ensures Spec(Merged(d), q, None, None, x, z) ==> Vars(z) == {}
  {
    var g := Merged(d);
    ModesAgree(g, q, None, None, x, z);
    ModesAgree(g, q, Some(x), None, x, z);
    if Relates(g, q, x, z) {
      RelatesNodes(g, q, x, z);
      NodeGround(d, z);
    }
  }

  lemma ExactClosure(d: Data, q: Path, zero: bool)
    requires Valid(d) && WellFormed(q) && Exact(d, q)
    ensures Exact(d, Closure(q, zero))
  {
    forall s, o, mu | Fine(s, Closure(q, zero), o)
      ensures ExactAt(d, s, Closure(q, zero), o, mu)
    {
      if !s.Var? || !o.Var? { FixedEnds(d, q, zero, s, o, mu); }
      else if zero { ZeroPairs(d, q, s, o, mu); }
      else { OnePairs(d, q, s, o, mu); }
    }
  }

  lemma ExactOptional(d: Data, q: Path)
    requires Valid(d) && WellFormed(q) && Exact(d, q)
    ensures Exact(d, ZeroOrOne(q))
  {
    var g, p := Merged(d), ZeroOrOne(q);
    forall s, o, mu | Fine(s, p, o)
      ensures ExactAt(d, s, p, o, mu)
    {
      assert Fine(s, q, o) && ExactAt(d, s, q, o, mu);
      if x, y :| AnswersWith(g, s, q, o, mu, x, y) { assert AnswersWith(g, s, p, o, mu, x, y); }
      ZeroPart(d, q, s, o, mu);
    }
  }

  /** The zero-length part of an optional path. */
  lemma ZeroPart(d: Data, q: Path, s: Term, o: Term, mu: Mapping)
    requires Valid(d) && WellFormed(q) && Usable(s) && Usable(o)
    ensures Answers(Merged(d), s, ZeroOrOne(q), o, mu)
       <==> OptionalRow(d, s, Assign(|d.sources|, ZeroOrOne(q)), o, mu, Answers(Merged(d), s, q, o, mu))
  {
    OptionalAnswers(Merged(d), q, s, o, mu);
    if s.Var? && o.Var? {
      NodesStay(d, q, s, o, mu);
    } else {
      OptionalAtEnd(Merged(d), s, o, mu);
      if !s.Var? && !o.Var? && Answers(Merged(d), s, q, o, mu) { ConstantEnds(Merged(d), q, s, o, mu); }
    }
  }

  lemma NodesStay(d: Data, q: Path, s: Term, o: Term, mu: Mapping)
    requires Valid(d) && WellFormed(q) && Usable(s) && s.Var? && o.Var?
    ensures NodesSol(d, Assign(|d.sources|, ZeroOrOne(q)), s.name, o.name, mu)
       <==> exists x :: Stays(Merged(d), s, o, mu, x)
  {
    NodesAre(d, ZeroOrOne(q), s.name, o.name, mu);
    if x :| Stays(Merged(d), s, o, mu, x) { assert NodeAt(d, s.name, o.name, mu, x); }
    if x :| NodeAt(d, s.name, o.name, mu, x) { assert Stays(Merged(d), s, o, mu, x); }
  }

  /** A zero-length match: a node at both ends, or the constant at one of them. */
  ghost predicate Stays(g: Graph, s: Term, o: Term, mu: Mapping, x: Term) {
    && Fits(Mode(s), x) && Fits(Mode(o), x) && mu == Ends(s, o, x, x)
    && (!s.Var? || !o.Var? || IsNode(g, x))
  }

  lemma OptionalAnswers(g: Graph, q: Path, s: Term, o: Term, mu: Mapping)
    ensures Answers(g, s, ZeroOrOne(q), o, mu) <==> Answers(g, s, q, o, mu) || exists x :: Stays(g, s, o, mu, x)
  {
    var p := ZeroOrOne(q);
    if x, y :| AnswersWith(g, s, p, o, mu, x, y) {
      if Spec(g, q, Mode(s), Mode(o), x, y) {
        assert AnswersWith(g, s, q, o, mu, x, y);
      } else {
        assert Stays(g, s, o, mu, x);
      }
    }
    if x, y :| AnswersWith(g, s, q, o, mu, x, y) { assert AnswersWith(g, s, p, o, mu, x, y); }
    if x :| Stays(g, s, o, mu, x) { assert AnswersWith(g, s, p, o, mu, x, x); }
  }

  lemma OptionalAtEnd(g: Graph, s: Term, o: Term, mu: Mapping)
    requires !s.Var? || !o.Var?
    ensures (exists x :: Stays(g, s, o, mu, x))
       <==> if s.Var? then mu == map[s.name := o] else if o.Var? then mu == map[o.name := s] else s == o && mu == map[]
  {
    var x := if s.Var? then o else s;
    assert Ends(s, o, x, x) == if s.Var? then map[s.name := o] else if o.Var? then map[o.name := s] else map[];
    if mu == Ends(s, o, x, x) && (s.Var? || o.Var? || s == o) { assert Stays(g, s, o, mu, x); }
  }

  lemma ConstantEnds(g: Graph, q: Path, s: Term, o: Term, mu: Mapping)
    requires !s.Var? && !o.Var? && Answers(g, s, q, o, mu)
    ensures mu == map[]
  {
  }
}
