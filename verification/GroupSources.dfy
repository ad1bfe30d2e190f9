/** Grouping operations that belong to the same source. */
module GroupSources {
  import opened Terms

  /** An operation tree as far as grouping is concerned: `src` is the source annotation of a node. */
  datatype Node =
    | Leaf(name: nat, src: Option<nat>)
    | Single(kind: string, input: Node, src: Option<nat>)
    | Multi(kind: string, inputs: seq<Node>, src: Option<nat>)

  /** `accepts` is the selector shape of a source together with the extension function settings. */
  type Accepts = (nat, Node) -> bool

  const JOIN := "join"
  const UNION := "union"

  predicate Groupable(kind: string) { kind == JOIN || kind == UNION }

  /** `removeOperationSource` */
  function Bare(t: Node): Node { Annotate(t, None) }

  function Annotate(t: Node, src: Option<nat>): Node {
    match t
    case Leaf(name, _) => Leaf(name, src)
    case Single(kind, input, _) => Single(kind, input, src)
    case Multi(kind, inputs, _) => Multi(kind, inputs, src)
  }

  function BareAll(ts: seq<Node>): seq<Node> {
    seq(|ts|, i requires 0 <= i < |ts| => Bare(ts[i]))
  }

  // ----- clustering -----

  /** The inputs without a source, and those of each source in the order in which the sources are first met. */
  datatype Table = Table(sourceless: seq<Node>, keys: seq<nat>, groups: map<nat, seq<Node>>)

  function Add(t: Table, op: Node): Table {
    if op.src.None? then t.(sourceless := t.sourceless + [op])
    else
      var s := op.src.value;
      if s in t.groups then t.(groups := t.groups[s := t.groups[s] + [op]])
      else t.(keys := t.keys + [s], groups := t.groups[s := [op]])
  }

  function Tabulate(ops: seq<Node>): Table {
    if ops == [] then Table([], [], map[]) else Add(Tabulate(ops[..|ops| - 1]), ops[|ops| - 1])
  }

  function GroupsOf(t: Table): seq<seq<Node>> {
    seq(|t.keys|, i requires 0 <= i < |t.keys| => if t.keys[i] in t.groups then t.groups[t.keys[i]] else [])
  }

  function ClustersOf(t: Table): seq<seq<Node>> {
    (if t.sourceless != [] then [t.sourceless] else []) + GroupsOf(t)
  }

  function Clusters(ops: seq<Node>): seq<seq<Node>> { ClustersOf(Tabulate(ops)) }

  method SortBySource(operationsIn: seq<Node>)
    returns (sourcelessOperations: seq<Node>, order: seq<nat>, sourceOperations: map<nat, seq<Node>>)
    ensures Table(sourcelessOperations, order, sourceOperations) == Tabulate(operationsIn)
  {
    sourcelessOperations, order, sourceOperations := [], [], map[];
    for i := 0 to |operationsIn|
      invariant Table(sourcelessOperations, order, sourceOperations) == Tabulate(operationsIn[..i])
    {
      var operation := operationsIn[i];
      assert operationsIn[..i + 1][..i] == operationsIn[..i];
      ghost var before := Table(sourcelessOperations, order, sourceOperations);
      if operation.src.Some? {
        var source := operation.src.value;
        if source !in sourceOperations {
          order, sourceOperations := order + [source], sourceOperations[source := []];
        }
        sourceOperations := sourceOperations[source := sourceOperations[source] + [operation]];
        AddIs(before, operation, order, sourceOperations);
      } else {
        sourcelessOperations := sourcelessOperations + [operation];
      }
    }
    assert operationsIn[..|operationsIn|] == operationsIn;
  }

  /** A source met for the first time gets an empty list before its operation is added. */
  lemma AddIs(t: Table, op: Node, keys: seq<nat>, groups: map<nat, seq<Node>>)
    requires op.src.Some?
    requires keys == if op.src.value in t.groups then t.keys else t.keys + [op.src.value]
    requires var held := if op.src.value in t.groups then t.groups[op.src.value] else [];
             groups == t.groups[op.src.value := held + [op]]
    ensures Table(t.sourceless, keys, groups) == Add(t, op)
  {
    assert [] + [op] == [op];
  }

  lemma OneGroup(t: Table, i: nat)
    requires i < |t.keys|
    ensures GroupsOf(t)[..i + 1] == GroupsOf(t)[..i] + [if t.keys[i] in t.groups then t.groups[t.keys[i]] else []]
  {
    assert GroupsOf(t)[..i + 1] == GroupsOf(t)[..i] + [GroupsOf(t)[i]];
  }

  method ClusterOperationsWithEqualSources(operationsIn: seq<Node>) returns (clusters: seq<seq<Node>>)
    ensures clusters == Clusters(operationsIn)
  {
    var sourcelessOperations, order, sourceOperations := SortBySource(operationsIn);
    ghost var table := Table(sourcelessOperations, order, sourceOperations);
    ghost var first := if |sourcelessOperations| > 0 then [sourcelessOperations] else [];
    clusters := if |sourcelessOperations| > 0 then [sourcelessOperations] else [];
    for i := 0 to |order|
      invariant clusters == first + GroupsOf(table)[..i]
    {
      OneGroup(table, i);
      clusters := clusters + [if order[i] in sourceOperations then sourceOperations[order[i]] else []];
    }
    assert GroupsOf(table)[..|order|] == GroupsOf(table);
  }

  ghost predicate Tidy(t: Table) {
    && (forall i, j :: 0 <= i < j < |t.keys| ==> t.keys[i] != t.keys[j])
    && (forall s :: s in t.keys <==> s in t.groups)
    && (forall s :: s in t.groups ==> t.groups[s] != [] && OfSource(t.groups[s], Some(s)))
    && OfSource(t.sourceless, None)
  }

  ghost predicate OfSource(ops: seq<Node>, src: Option<nat>) {
    forall i :: 0 <= i < |ops| ==> ops[i].src == src
  }

  lemma {:induction false} TabulateTidy(ops: seq<Node>)
    ensures Tidy(Tabulate(ops))
  {
    if ops != [] { TabulateTidy(ops[..|ops| - 1]); }
  }

  lemma ClusterAt(t: Table, c: nat)
    requires Tidy(t) && c < |ClustersOf(t)|
    ensures ClustersOf(t)[c] != [] && OfSource(ClustersOf(t)[c], ClustersOf(t)[c][0].src)
    ensures (var n := if t.sourceless != [] then 1 else 0;
             ClustersOf(t)[c][0].src == if c < n then None else Some(t.keys[c - n]))
  {
    var n := if t.sourceless != [] then 1 else 0;
    if n <= c { assert ClustersOf(t)[c] == t.groups[t.keys[c - n]] by { assert t.keys[c - n] in t.keys; } }
  }

  /** No cluster is empty, each has one source, and different clusters have different sources. */
  lemma ClustersBySource(ops: seq<Node>)
    ensures (var cs := Clusters(ops);
             && (forall c :: 0 <= c < |cs| ==> cs[c] != [] && OfSource(cs[c], cs[c][0].src))
             && (forall c, d :: 0 <= c < d < |cs| ==> cs[c][0].src != cs[d][0].src))
  {
    TabulateTidy(ops);
    forall c | 0 <= c < |Clusters(ops)| { ClusterAt(Tabulate(ops), c); }
  }

  // ----- grouping -----

  /** The factory's flattening, which leaves annotated nodes alone. */
  function Flatten(kind: string, ops: seq<Node>): seq<Node> {
    if ops == [] then []
    else
      (if ops[0].Multi? && ops[0].kind == kind && ops[0].src.None? then ops[0].inputs else [ops[0]])
      + Flatten(kind, ops[1..])
  }

  function Create(kind: string, ops: seq<Node>, flatten: bool): Node {
    Multi(kind, if flatten then Flatten(kind, ops) else ops, None)
  }

  /** One cluster merged, and hoisted to its source if that accepts it. */
  function Merged(accepts: Accepts, kind: string, cluster: seq<Node>): Node {
    var op := Create(kind, cluster, true);
    if cluster != [] && cluster[0].src.Some? && accepts(cluster[0].src.value, op)
    then Multi(kind, BareAll(op.inputs), cluster[0].src)
    else op
  }

  function GroupMulti(accepts: Accepts, kind: string, cs: seq<seq<Node>>): Node {
    var merged := seq(|cs|, i requires 0 <= i < |cs| => Merged(accepts, kind, cs[i]));
    Create(kind, merged, forall i :: 0 <= i < |merged| ==> merged[i].src.None?)
  }

  /** `None` stands for the error on an operation that cannot be regrouped. */
  function Group(accepts: Accepts, t: Node): Option<Node>
    decreases t, 1
  {
    if t.src.Some? || t.Leaf? then Some(t)
    else if t.Single? then
      var grouped := Group(accepts, t.input);
      if grouped.None? then None
      else
        var g := grouped.value;
        Some(if g.src.Some? && accepts(g.src.value, t) then Single(t.kind, Bare(g), g.src) else Single(t.kind, g, None))
    else
      var grouped := GroupAll(accepts, t.inputs);
      if grouped.None? then None
      else
        var gs := grouped.value;
        var cs := Clusters(gs);
        if |cs| == 1 then
          if cs[0] != [] && cs[0][0].src.Some? && accepts(cs[0][0].src.value, t)
          then Some(Multi(t.kind, BareAll(cs[0]), cs[0][0].src))
          else Some(Multi(t.kind, cs[0], None))
        else if |cs| == |gs| then Some(Multi(t.kind, gs, None))
        else if Groupable(t.kind) then Some(GroupMulti(accepts, t.kind, cs))
        else None
  }

  function GroupAll(accepts: Accepts, ts: seq<Node>): Option<seq<Node>>
    decreases ts, 0
  {
    if ts == [] then Some([])
    else
      var h, t := Group(accepts, ts[0]), GroupAll(accepts, ts[1..]);
      if h.None? || t.None? then None else Some([h.value] + t.value)
  }
}
