/** The property path actors, as they evaluate a path in terms of solution mappings, sub-queries per source and
    generated variables. */
module Paths {
  import opened Terms
  import opened PathExprs
  import opened PathSpec
  import opened Reach
  import Decimals

  /** The quads each source answers from, and the graph the path is evaluated in. */
  datatype Data = Data(sources: seq<set<Term>>, graph: Term)

  ghost function Merged(d: Data): Graph {
    Graph(set k, q | 0 <= k < |d.sources| && q in d.sources[k] :: q, d.graph)
  }

  // ----- generated variables -----

  function Value(t: Term): string {
    match t
    case Iri(v) => v
    case Blank(v) => v
    case Literal(v, _, _) => v
    case Var(v) => v
    case _ => ""
  }

  /** Appends `b` until the name is the value of neither end. */
  function GenerateVariable(s: Term, o: Term, name: string): string
    decreases Overlap(Value(s), name) + Overlap(Value(o), name)
  {
    if Value(s) == name || Value(o) == name then GenerateVariable(s, o, name + "b") else name
  }

  function Overlap(value: string, name: string): nat {
    if |name| <= |value| then |value| - |name| + 1 else 0
  }

  lemma {:induction false} GeneratedIsNew(s: Term, o: Term, name: string)
    ensures (var r := GenerateVariable(s, o, name);
             && r != Value(s) && r != Value(o) && |r| >= |name| && name == r[..|name|]
             && forall i :: |name| <= i < |r| ==> r[i] == 'b')
    decreases Overlap(Value(s), name) + Overlap(Value(o), name)
  {
    if Value(s) == name || Value(o) == name {
      GeneratedIsNew(s, o, name + "b");
      var r := GenerateVariable(s, o, name + "b");
      assert r[|name|] == (name + "b")[|name|] && name == r[..|name| + 1][..|name|];
    }
  }

  function Joiner(s: Term, o: Term, i: nat): string {
    GenerateVariable(s, o, "b" + Decimals.Digits(i))
  }

  function Joiners(s: Term, o: Term, k: nat): seq<string> {
    seq(k, (i: nat) => Joiner(s, o, i))
  }

  lemma JoinersSnoc(s: Term, o: Term, k: nat)
    ensures Joiners(s, o, k + 1) == Joiners(s, o, k) + [Joiner(s, o, k)]
  {
  }

  lemma AfterDigits(r: string, ds: string)
    requires |r| > |ds| && r[..|ds| + 1] == "b" + ds
    ensures r[0] == 'b' && r[1..] == ds + r[|ds| + 1..]
  {
    var head := r[..|ds| + 1];
    assert head[0] == 'b' && head[1..] == ds;
    assert r[1..] == head[1..] + r[|ds| + 1..];
  }

  lemma JoinerShape(s: Term, o: Term, i: nat)
    ensures (var r, ds := Joiner(s, o, i), Decimals.Digits(i);
             && |r| > |ds| && r[0] == 'b' && r[1..] == ds + r[|ds| + 1..]
             && (r[|ds| + 1..] == "" || !Decimals.IsDigit(r[|ds| + 1..][0])))
  {
    GeneratedIsNew(s, o, "b" + Decimals.Digits(i));
    AfterDigits(Joiner(s, o, i), Decimals.Digits(i));
  }

  lemma JoinerNumber(s: Term, o: Term, i: nat)
    ensures Joiner(s, o, i) != "" && Joiner(s, o, i)[0] == 'b'
    ensures Decimals.Parse(Decimals.LeadingDigits(Joiner(s, o, i)[1..])) == i
  {
    JoinerShape(s, o, i);
    Decimals.ReadBack(i, Joiner(s, o, i)[|Decimals.Digits(i)| + 1..]);
  }

  /** The generated variables of a sequence differ from each other and from both ends. */
  lemma JoinersDiffer(s: Term, o: Term, i: nat, j: nat)
    ensures Joiner(s, o, i) == Joiner(s, o, j) ==> i == j
    ensures Joiner(s, o, i) != Value(s) && Joiner(s, o, i) != Value(o)
  {
    JoinerNumber(s, o, i);
    JoinerNumber(s, o, j);
    GeneratedIsNew(s, o, "b" + Decimals.Digits(i));
  }

  /** The end between the first `i` steps of a sequence and the rest. */
  function Meeting(s: Term, o: Term, n: nat, i: nat): Term {
    if i == 0 then s else if i >= n then o else Var(Joiner(s, o, i - 1))
  }

  /** Step `i` of a sequence: from one end to the next. */
  function StepOperation(s: Term, ps: seq<Path>, o: Term, i: nat): (Term, Path, Term)
    requires i < |ps|
  {
    (Meeting(s, o, |ps|, i), ps[i], Meeting(s, o, |ps|, i + 1))
  }

  /** The sub-operations of a sequence: `joiner` walks from the subject over generated variables to the object. */
  method SeqOperations(subj: Term, ps: seq<Path>, obj: Term)
    returns (operations: seq<(Term, Path, Term)>, generated: seq<string>)
    ensures generated == Joiners(subj, obj, if |ps| == 0 then 0 else |ps| - 1)
    ensures |operations| == |ps| && forall i :: 0 <= i < |ps| ==> operations[i] == StepOperation(subj, ps, obj, i)
  {
    operations, generated := [], [];
    var joiner := subj;
    for i := 0 to |ps|
      invariant |operations| == i
      invariant generated == Joiners(subj, obj, if i == |ps| && i > 0 then i - 1 else i)
      invariant joiner == Meeting(subj, obj, |ps|, i)
      invariant forall j :: 0 <= j < i ==> operations[j] == StepOperation(subj, ps, obj, j)
    {
      var nextJoiner := if i == |ps| - 1 then obj else Var(Joiner(subj, obj, i));
      operations := operations + [(joiner, ps[i], nextJoiner)];
      joiner := nextJoiner;
      if i < |ps| - 1 {
        JoinersSnoc(subj, obj, i);
        generated := generated + [nextJoiner.name];
      }
    }
  }

  // ----- sources -----

  /** Exhaustive source assignment: every leaf is asked of every source. */
  function Assign(n: nat, p: Path): Path {
    match p
    case Link(iri, _) => if n == 1 then Link(iri, Some(0)) else Alt(seq(n, (k: nat) => Link(iri, Some(k))))
    case Nps(iris, _) => if n == 1 then Nps(iris, Some(0)) else Alt(seq(n, (k: nat) => Nps(iris, Some(k))))
    case Inv(q) => Inv(Assign(n, q))
    case Seq(ps) => Seq(seq(|ps|, i requires 0 <= i < |ps| => Assign(n, ps[i])))
    case Alt(ps) => Alt(seq(|ps|, i requires 0 <= i < |ps| => Assign(n, ps[i])))
    case ZeroOrOne(q) => ZeroOrOne(Assign(n, q))
    case OneOrMore(q) => OneOrMore(Assign(n, q))
    case ZeroOrMore(q) => ZeroOrMore(Assign(n, q))
  }

  /** All sources mentioned in a path. */
  predicate HasSource(p: Path, k: nat) {
    match p
    case Link(_, src) => src == Some(k)
    case Nps(_, src) => src == Some(k)
    case Inv(q) => HasSource(q, k)
    case Seq(ps) => exists i :: 0 <= i < |ps| && HasSource(ps[i], k)
    case Alt(ps) => exists i :: 0 <= i < |ps| && HasSource(ps[i], k)
    case ZeroOrOne(q) => HasSource(q, k)
    case OneOrMore(q) => HasSource(q, k)
    case ZeroOrMore(q) => HasSource(q, k)
  }

  /** Sequences and alternatives have at least one member. */
  predicate WellFormed(p: Path) {
    match p
    case Link(iri, _) => Vars(iri) == {}
    case Nps(_, _) => true
    case Inv(q) => WellFormed(q)
    case Seq(ps) => |ps| > 0 && forall i :: 0 <= i < |ps| ==> WellFormed(ps[i])
    case Alt(ps) => |ps| > 0 && forall i :: 0 <= i < |ps| ==> WellFormed(ps[i])
    case ZeroOrOne(q) => WellFormed(q)
    case OneOrMore(q) => WellFormed(q)
    case ZeroOrMore(q) => WellFormed(q)
  }

  lemma {:induction false} AssignedSources(n: nat, p: Path, k: nat)
    requires WellFormed(p)
    ensures HasSource(Assign(n, p), k) <==> k < n
  {
    match p
    case Link(iri, _) => if n != 1 && k < n { assert HasSource(Assign(n, p).choices[k], k); }
    case Nps(iris, _) => if n != 1 && k < n { assert HasSource(Assign(n, p).choices[k], k); }
    case Inv(q) => AssignedSources(n, q, k);
    case Seq(ps) =>
      forall i | 0 <= i < |ps| ensures HasSource(Assign(n, p).steps[i], k) <==> k < n { AssignedSources(n, ps[i], k); }
      assert HasSource(Assign(n, p).steps[0], k) <==> k < n;
    case Alt(ps) =>
      forall i | 0 <= i < |ps|
        ensures HasSource(Assign(n, p).choices[i], k) <==> k < n
      {
        AssignedSources(n, ps[i], k);
      }
      assert HasSource(Assign(n, p).choices[0], k) <==> k < n;
    case ZeroOrOne(q) => AssignedSources(n, q, k);
    case OneOrMore(q) => AssignedSources(n, q, k);
    case ZeroOrMore(q) => AssignedSources(n, q, k);
  }

  // ----- evaluation -----

  ghost predicate Asked(d: Data, src: Option<nat>, pattern: Term, mu: Mapping) {
    src.Some? && src.value < |d.sources| && Solves(mu, pattern, d.sources[src.value])
  }

  /** The `nodes` operation on one source: both ends of every quad, without the two helper variables. */
  ghost predicate NodeRow(quads: set<Term>, graph: Term, v: string, mu: Mapping) {
    exists nu :: NodeQuad(quads, graph, v, nu) && mu == nu - {"__p", "__x"}
  }

  ghost predicate NodeQuad(quads: set<Term>, graph: Term, v: string, nu: Mapping) {
    || Solves(nu, Quad(Var(v), Var("__p"), Var("__x"), graph), quads)
    || Solves(nu, Quad(Var("__x"), Var("__p"), Var(v), graph), quads)
  }

  /** `getNodes`: the nodes of all sources of the path, bound to both ends. */
  ghost predicate NodesSol(d: Data, p: Path, s: string, o: string, mu: Mapping) {
    exists k: nat, row :: HasSource(p, k) && NodeOf(d, k, s, row) && mu == row[o := row[s]]
  }

  ghost predicate NodeOf(d: Data, k: nat, s: string, row: Mapping) {
    k < |d.sources| && NodeRow(d.sources[k], d.graph, s, row) && s in row
  }

  /** A negated property set: a pattern with a generated variable in the middle, which is checked and deleted. */
  ghost predicate NpsRow(d: Data, s: Term, iris: seq<Term>, src: Option<nat>, o: Term, mu: Mapping) {
    var v := GenerateVariable(s, o, "b");
    exists nu :: Asked(d, src, Quad(s, Var(v), o, d.graph), nu) && v in nu && nu[v] !in iris && mu == nu - {v}
  }

  /** `path?`: `one` says whether `mu` is a solution of the path itself. */
  ghost predicate OptionalRow(d: Data, s: Term, p: Path, o: Term, mu: Mapping, one: bool) {
    if !s.Var? && !o.Var? && s == o then mu == map[]
    else if s.Var? && o.Var? then NodesSol(d, p, s.name, o.name, mu) || one
    else (s.Var? && mu == map[s.name := o]) || (o.Var? && mu == map[o.name := s]) || one
  }

  /** The iterator over what can be reached from a fixed end: `reach` is the closure it computes, for the sub-query
      `forward` or for that of the inverse path. */
  ghost predicate FixedEndRow(s: Term, o: Term, mu: Mapping, forward: Rel<Term>, inverse: Rel<Term>, zero: bool)
    requires !s.Var? || !o.Var?
  {
    if s.Var? then exists y :: Reaches(inverse, zero, o, y) && mu == map[s.name := y]
    else if o.Var? then exists y :: Reaches(forward, zero, s, y) && mu == map[o.name := y]
    else Reaches(forward, zero, s, o) && mu == map[]
  }

  ghost predicate Reaches(step: Rel<Term>, zero: bool, x: Term, y: Term) {
    if zero then Star(step, x, y) else Plus(step, x, y)
  }

  /** Between two variables: a search for the pair (`first[s]`, `y`), begun at `first[o]`. */
  ghost predicate PairRow(s: string, o: string, mu: Mapping, first: Mapping, forward: Rel<Term>, y: Term) {
    s in first && o in first && Star(forward, first[o], y) && mu == map[s := first[s]][o := y]
  }

  /** `mu` is among the solutions the actors deliver for subject `s`, path `p` and object `o`. */
  ghost predicate Sol(d: Data, s: Term, p: Path, o: Term, mu: Mapping)
    decreases p, 0
  {
    match p
    case Link(iri, src) => Asked(d, src, Quad(s, iri, o, d.graph), mu)
    case Nps(iris, src) => NpsRow(d, s, iris, src, o, mu)
    case Inv(q) => Sol(d, o, q, s, mu)
    case Seq(ps) => SeqRow(d, s, ps, o, mu)
    case Alt(ps) => exists i :: 0 <= i < |ps| && Sol(d, s, ps[i], o, mu)
    case ZeroOrOne(q) => OptionalRow(d, s, p, o, mu, Sol(d, s, q, o, mu))
    case ZeroOrMore(q) =>
      if s.Var? && o.Var? then
        exists nodes, y :: NodesSol(d, p, s.name, o.name, nodes)
          && PairRow(s.name, o.name, mu, nodes, SubQuery(d, q), y)
      else FixedEndRow(s, o, mu, SubQuery(d, q), InverseSubQuery(d, q), true)
    case OneOrMore(q) =>
      if s.Var? && o.Var? then
        exists single, y :: Sol(d, s, q, o, single) && PairRow(s.name, o.name, mu, single, SubQuery(d, q), y)
      else FixedEndRow(s, o, mu, SubQuery(d, q), InverseSubQuery(d, q), false)
  }

  /** The steps of a sequence joined, without the generated variables. */
  ghost predicate SeqRow(d: Data, s: Term, ps: seq<Path>, o: Term, mu: Mapping)
    decreases ps, 1
  {
    |ps| > 0 &&
    var names := Joiners(s, o, |ps| - 1);
    exists nu :: SeqSol(d, s, ps, o, names, nu) && mu == nu - (set n | n in names)
  }

  ghost predicate SeqSol(d: Data, s: Term, ps: seq<Path>, o: Term, names: seq<string>, nu: Mapping)
    requires |ps| == |names| + 1
    decreases ps, 0
  {
    if |ps| == 1 then Sol(d, s, ps[0], o, nu)
    else exists l, r :: Sol(d, s, ps[0], Var(names[0]), l) && SeqSol(d, Var(names[0]), ps[1..], o, names[1..], r)
                        && Compatible(l, r) && nu == l + r
  }

  /** The sub-query of a traversal: `y` is a neighbour of `x`. */
  ghost function SubQuery(d: Data, q: Path): Rel<Term>
    decreases q, 1
  {
    (x, y) => Sol(d, x, q, Var("b"), map["b" := y])
  }

  /** The same for the inverse path, which its actor turns around. */
  ghost function InverseSubQuery(d: Data, q: Path): Rel<Term>
    decreases q, 1
  {
    (x, y) => Sol(d, Var("b"), q, x, map["b" := y])
  }
}
