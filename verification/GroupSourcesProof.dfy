/** Grouping keeps what a tree means and which source answers each of its leaves. */
module GroupSourcesProof {
  import opened Terms
  import opened Bags
  import opened Joins
  import opened GroupSources

  /** An interpretation of trees in `B`. Joins and unions fold a commutative monoid each. */
  datatype Meaning<!B> = Meaning(
    leaf: (nat, Option<nat>) -> B,
    single: (string, B) -> B,
    join: (B, B) -> B, joinUnit: B,
    union: (B, B) -> B, unionUnit: B,
    other: (string, seq<B>) -> B)

  ghost predicate Monoid<B(!new)>(f: (B, B) -> B, unit: B) {
    && (forall a :: f(unit, a) == a)
    && (forall a, b, c :: f(f(a, b), c) == f(a, f(b, c)))
    && (forall a, b :: f(a, b) == f(b, a))
  }

  ghost predicate Lawful<B(!new)>(m: Meaning<B>) { Monoid(m.join, m.joinUnit) && Monoid(m.union, m.unionUnit) }

  ghost function Op<B>(m: Meaning<B>, kind: string): (B, B) -> B { if kind == JOIN then m.join else m.union }

  ghost function UnitOf<B>(m: Meaning<B>, kind: string): B { if kind == JOIN then m.joinUnit else m.unionUnit }

  ghost function Fold<B(!new)>(m: Meaning<B>, kind: string, bs: seq<B>): B {
    Reduce(bs, UnitOf(m, kind), Op(m, kind))
  }

  /** `from` is the source to which an enclosing operation has been handed as a whole. */
  ghost function Mean<B(!new)>(m: Meaning<B>, t: Node, from: Option<nat>): B
    decreases t, 1
  {
    var src := if from.Some? then from else t.src;
    match t
    case Leaf(name, _) => m.leaf(name, src)
    case Single(kind, input, _) => m.single(kind, Mean(m, input, src))
    case Multi(kind, inputs, _) =>
      if Groupable(kind) then Fold(m, kind, MeanAll(m, inputs, src)) else m.other(kind, MeanAll(m, inputs, src))
  }

  ghost function MeanAll<B(!new)>(m: Meaning<B>, ts: seq<Node>, from: Option<nat>): seq<B>
    decreases ts, 0
  {
    seq(|ts|, i requires 0 <= i < |ts| => Mean(m, ts[i], from))
  }

  ghost function FoldAll<B(!new)>(m: Meaning<B>, kind: string, ts: seq<Node>, from: Option<nat>): B {
    Fold(m, kind, MeanAll(m, ts, from))
  }

  lemma FoldConcat<B(!new)>(m: Meaning<B>, kind: string, ts: seq<Node>, us: seq<Node>, from: Option<nat>)
    requires Lawful(m)
    ensures FoldAll(m, kind, ts + us, from) == Op(m, kind)(FoldAll(m, kind, ts, from), FoldAll(m, kind, us, from))
  {
    assert MeanAll(m, ts + us, from) == MeanAll(m, ts, from) + MeanAll(m, us, from);
    ReduceConcat(MeanAll(m, ts, from), MeanAll(m, us, from), UnitOf(m, kind), Op(m, kind));
  }

  lemma FoldOne<B(!new)>(m: Meaning<B>, kind: string, b: B)
    requires Lawful(m)
    ensures Fold(m, kind, [b]) == b
  {
    ReduceNone(UnitOf(m, kind), Op(m, kind));
    ReduceCons(b, [], UnitOf(m, kind), Op(m, kind));
    assert [b] + [] == [b];
  }

  // ----- hoisting -----

  /** Taking the annotation off a node that is handed to that source with its parent changes nothing. */
  lemma BareMean<B(!new)>(m: Meaning<B>, t: Node, s: nat)
    requires t.src == Some(s)
    ensures Mean(m, Bare(t), Some(s)) == Mean(m, t, None)
  {
  }

  lemma BareAllMean<B(!new)>(m: Meaning<B>, ts: seq<Node>, s: nat)
    requires OfSource(ts, Some(s))
    ensures MeanAll(m, BareAll(ts), Some(s)) == MeanAll(m, ts, None)
  {
    forall i | 0 <= i < |ts| ensures Mean(m, BareAll(ts)[i], Some(s)) == Mean(m, ts[i], None) { BareMean(m, ts[i], s); }
  }

  lemma {:induction false} FlattenMean<B(!new)>(m: Meaning<B>, kind: string, ops: seq<Node>)
    requires Lawful(m) && Groupable(kind)
    ensures FoldAll(m, kind, Flatten(kind, ops), None) == FoldAll(m, kind, ops, None)
  {
    if ops != [] {
      var h, t := ops[0], ops[1..];
      var parts := if h.Multi? && h.kind == kind && h.src.None? then h.inputs else [h];
      FlattenMean(m, kind, t);
      FoldConcat(m, kind, parts, Flatten(kind, t), None);
      FoldConcat(m, kind, [h], t, None);
      assert [h] + t == ops && MeanAll(m, [h], None) == [Mean(m, h, None)];
      FoldOne(m, kind, Mean(m, h, None));
    }
  }

  lemma {:induction false} FlattenAnnotated(kind: string, ops: seq<Node>, s: nat)
    requires OfSource(ops, Some(s))
    ensures Flatten(kind, ops) == ops
  {
    if ops != [] {
      assert ops[0].src == Some(s);
      FlattenAnnotated(kind, ops[1..], s);
    }
  }

  lemma MergedMean<B(!new)>(m: Meaning<B>, accepts: Accepts, kind: string, cluster: seq<Node>)
    requires Lawful(m) && Groupable(kind) && cluster != [] && OfSource(cluster, cluster[0].src)
    ensures Mean(m, Merged(accepts, kind, cluster), None) == FoldAll(m, kind, cluster, None)
  {
    if cluster[0].src.Some? {
      FlattenAnnotated(kind, cluster, cluster[0].src.value);
      BareAllMean(m, cluster, cluster[0].src.value);
    } else {
      FlattenMean(m, kind, cluster);
    }
  }

  // ----- clusters -----

  ghost function ClusterMeans<B(!new)>(m: Meaning<B>, kind: string, cs: seq<seq<Node>>): seq<B> {
    seq(|cs|, i requires 0 <= i < |cs| => FoldAll(m, kind, cs[i], None))
  }

  lemma FoldMiddle<B(!new)>(m: Meaning<B>, kind: string, l: seq<B>, x: B, r: seq<B>)
    requires Lawful(m)
    ensures Fold(m, kind, l + [x] + r) == Op(m, kind)(x, Fold(m, kind, l + r))
  {
    var f, unit := Op(m, kind), UnitOf(m, kind);
    ReduceConcat(l + [x], r, unit, f);
    ReduceConcat(l, [x], unit, f);
    ReduceConcat(l, r, unit, f);
    FoldOne(m, kind, x);
    assert f(f(Fold(m, kind, l), x), Fold(m, kind, r)) == f(f(x, Fold(m, kind, l)), Fold(m, kind, r));
  }

  /** Adding a node to one of the clusters combines its meaning with theirs. */
  lemma GrowCluster<B(!new)>(m: Meaning<B>, kind: string, cs: seq<seq<Node>>, j: nat, op: Node)
    requires Lawful(m) && j < |cs|
    ensures Fold(m, kind, ClusterMeans(m, kind, cs[j := cs[j] + [op]]))
         == Op(m, kind)(Mean(m, op, None), Fold(m, kind, ClusterMeans(m, kind, cs)))
  {
    var bs := ClusterMeans(m, kind, cs);
    var l, r, x := bs[..j], bs[j + 1..], Mean(m, op, None);
    FoldConcat(m, kind, cs[j], [op], None);
    assert MeanAll(m, [op], None) == [x];
    FoldOne(m, kind, x);
    var grown := Op(m, kind)(bs[j], x);
    assert ClusterMeans(m, kind, cs[j := cs[j] + [op]]) == l + [grown] + r;
    assert bs == l + [bs[j]] + r;
    FoldMiddle(m, kind, l, grown, r);
    FoldMiddle(m, kind, l, bs[j], r);
    assert grown == Op(m, kind)(x, bs[j]);
  }

  lemma NewCluster<B(!new)>(m: Meaning<B>, kind: string, l: seq<seq<Node>>, op: Node, r: seq<seq<Node>>)
    requires Lawful(m)
    ensures Fold(m, kind, ClusterMeans(m, kind, l + [[op]] + r))
         == Op(m, kind)(Mean(m, op, None), Fold(m, kind, ClusterMeans(m, kind, l + r)))
  {
    var x := Mean(m, op, None);
    assert MeanAll(m, [op], None) == [x];
    FoldOne(m, kind, x);
    assert ClusterMeans(m, kind, l + [[op]] + r) == ClusterMeans(m, kind, l) + [x] + ClusterMeans(m, kind, r);
    assert ClusterMeans(m, kind, l + r) == ClusterMeans(m, kind, l) + ClusterMeans(m, kind, r);
    FoldMiddle(m, kind, ClusterMeans(m, kind, l), x, ClusterMeans(m, kind, r));
  }

  lemma SourcelessClusters(t: Table, op: Node)
    requires op.src.None?
    ensures (var cs := ClustersOf(t);
             ClustersOf(Add(t, op)) == if t.sourceless != [] then cs[0 := cs[0] + [op]] else [[op]] + cs)
  {
    assert GroupsOf(Add(t, op)) == GroupsOf(t);
    if t.sourceless == [] { assert t.sourceless + [op] == [op]; }
  }

  lemma GroupClusters(t: Table, op: Node, i: nat)
    requires Tidy(t) && op.src.Some? && i < |t.keys| && t.keys[i] == op.src.value
    ensures GroupsOf(Add(t, op)) == GroupsOf(t)[i := GroupsOf(t)[i] + [op]]
  {
    assert t.keys[i] in t.keys;
    forall j | 0 <= j < |t.keys|
      ensures GroupsOf(Add(t, op))[j] == GroupsOf(t)[i := GroupsOf(t)[i] + [op]][j]
    {
      assert j != i ==> t.keys[j] != t.keys[i];
    }
  }

  lemma NewGroupClusters(t: Table, op: Node)
    requires Tidy(t) && op.src.Some? && op.src.value !in t.groups
    ensures ClustersOf(Add(t, op)) == ClustersOf(t) + [[op]]
  {
    assert forall i :: 0 <= i < |t.keys| ==> t.keys[i] in t.keys && t.keys[i] != op.src.value;
    assert GroupsOf(Add(t, op)) == GroupsOf(t) + [[op]];
  }

  lemma AddSourceless<B(!new)>(m: Meaning<B>, kind: string, t: Table, op: Node)
    requires Lawful(m) && op.src.None?
    ensures Fold(m, kind, ClusterMeans(m, kind, ClustersOf(Add(t, op))))
         == Op(m, kind)(Mean(m, op, None), Fold(m, kind, ClusterMeans(m, kind, ClustersOf(t))))
  {
    var cs, none: seq<seq<Node>> := ClustersOf(t), [];
    SourcelessClusters(t, op);
    if t.sourceless != [] {
      GrowCluster(m, kind, cs, 0, op);
    } else {
      NewCluster(m, kind, none, op, cs);
      assert none + [[op]] + cs == [[op]] + cs && none + cs == cs;
    }
  }

  lemma AddToGroup<B(!new)>(m: Meaning<B>, kind: string, t: Table, op: Node)
    requires Lawful(m) && Tidy(t) && op.src.Some? && op.src.value in t.groups
    ensures Fold(m, kind, ClusterMeans(m, kind, ClustersOf(Add(t, op))))
         == Op(m, kind)(Mean(m, op, None), Fold(m, kind, ClusterMeans(m, kind, ClustersOf(t))))
  {
    var cs := ClustersOf(t);
    var n := if t.sourceless != [] then 1 else 0;
    assert op.src.value in t.keys;
    var i :| 0 <= i < |t.keys| && t.keys[i] == op.src.value;
    GroupClusters(t, op, i);
    assert ClustersOf(Add(t, op)) == cs[n + i := cs[n + i] + [op]];
    GrowCluster(m, kind, cs, n + i, op);
  }

  lemma AddGroup<B(!new)>(m: Meaning<B>, kind: string, t: Table, op: Node)
    requires Lawful(m) && Tidy(t) && op.src.Some? && op.src.value !in t.groups
    ensures Fold(m, kind, ClusterMeans(m, kind, ClustersOf(Add(t, op))))
         == Op(m, kind)(Mean(m, op, None), Fold(m, kind, ClusterMeans(m, kind, ClustersOf(t))))
  {
    var cs, none: seq<seq<Node>> := ClustersOf(t), [];
    NewGroupClusters(t, op);
    NewCluster(m, kind, cs, op, none);
    assert cs + [[op]] + none == cs + [[op]] && cs + none == cs;
  }

  lemma AddMean<B(!new)>(m: Meaning<B>, kind: string, t: Table, op: Node)
    requires Lawful(m) && Tidy(t)
    ensures Fold(m, kind, ClusterMeans(m, kind, ClustersOf(Add(t, op))))
         == Op(m, kind)(Mean(m, op, None), Fold(m, kind, ClusterMeans(m, kind, ClustersOf(t))))
  {
    if op.src.None? { AddSourceless(m, kind, t, op); }
    else if op.src.value in t.groups { AddToGroup(m, kind, t, op); }
    else { AddGroup(m, kind, t, op); }
  }

  /** Clustering keeps every input once: in any commutative monoid, the clusters fold to what the inputs fold to. */
  lemma {:induction false} ClustersMean<B(!new)>(m: Meaning<B>, kind: string, ops: seq<Node>)
    requires Lawful(m)
    ensures Fold(m, kind, ClusterMeans(m, kind, Clusters(ops))) == FoldAll(m, kind, ops, None)
  {
    if ops == [] {
      assert Clusters(ops) == [];
      assert ClusterMeans(m, kind, Clusters(ops)) == [] == MeanAll(m, ops, None);
    } else {
      var front, last := ops[..|ops| - 1], ops[|ops| - 1];
      ClustersMean(m, kind, front);
      TabulateTidy(front);
      AddMean(m, kind, Tabulate(front), last);
      assert front + [last] == ops && MeanAll(m, [last], None) == [Mean(m, last, None)];
      FoldConcat(m, kind, front, [last], None);
      FoldOne(m, kind, Mean(m, last, None));
    }
  }

  // ----- the theorem -----

  lemma GroupMultiMean<B(!new)>(m: Meaning<B>, accepts: Accepts, kind: string, gs: seq<Node>)
    requires Lawful(m) && Groupable(kind)
    ensures Mean(m, GroupMulti(accepts, kind, Clusters(gs)), None) == FoldAll(m, kind, gs, None)
  {
    var cs := Clusters(gs);
    var merged := seq(|cs|, i requires 0 <= i < |cs| => Merged(accepts, kind, cs[i]));
    ClustersBySource(gs);
    forall i | 0 <= i < |cs| ensures Mean(m, merged[i], None) == FoldAll(m, kind, cs[i], None) {
      MergedMean(m, accepts, kind, cs[i]);
    }
    assert MeanAll(m, merged, None) == ClusterMeans(m, kind, cs);
    ClustersMean(m, kind, gs);
    FlattenMean(m, kind, merged);
  }

  lemma StillOne(t: Table, front: seq<Node>, last: Node)
    requires Tidy(t) && ClustersOf(t) == (if front == [] then [] else [front]) && |ClustersOf(Add(t, last))| <= 1
    ensures ClustersOf(Add(t, last)) == [front + [last]]
  {
    if front == [] {
      assert t.sourceless == [] && t.keys == [];
      assert (forall s :: s in t.groups ==> s in t.keys) && [] + [last] == [last];
      assert GroupsOf(Add(t, last)) == if last.src.None? then [] else [[last]];
    } else if t.sourceless != [] {
      assert ClustersOf(t)[0] == t.sourceless == front && |t.keys| == 0;
      assert GroupsOf(Add(t, last)) == [];
    } else {
      assert |t.keys| == 1 && ClustersOf(t)[0] == t.groups[t.keys[0]] == front;
      assert GroupsOf(Add(t, last)) == [front + [last]];
    }
  }

  /** A single cluster is the list of inputs itself. */
  lemma {:induction false} OneCluster(ops: seq<Node>)
    requires |Clusters(ops)| <= 1
    ensures Clusters(ops) == if ops == [] then [] else [ops]
  {
    if ops != [] {
      var front, last := ops[..|ops| - 1], ops[|ops| - 1];
      TabulateTidy(front);
      ClustersGrow(Tabulate(front), last);
      OneCluster(front);
      StillOne(Tabulate(front), front, last);
      assert ops == front + [last];
    }
  }

  lemma ClustersGrow(t: Table, op: Node)
    requires Tidy(t)
    ensures |ClustersOf(t)| <= |ClustersOf(Add(t, op))|
  {
  }

  lemma {:induction false} GroupMean<B(!new)>(m: Meaning<B>, accepts: Accepts, t: Node)
    requires Lawful(m) && Group(accepts, t).Some?
    ensures Mean(m, Group(accepts, t).value, None) == Mean(m, t, None)
    decreases t, 1
  {
    if t.src.None? && t.Single? {
      GroupMean(m, accepts, t.input);
      var g := Group(accepts, t.input).value;
      if g.src.Some? { BareMean(m, g, g.src.value); }
    } else if t.src.None? && t.Multi? {
      var gs: seq<Node> := GroupAll(accepts, t.inputs).value;
      GroupAllMean(m, accepts, t.inputs);
      var cs: seq<seq<Node>> := Clusters(gs);
      if |cs| == 1 {
        OneCluster(gs);
        ClustersBySource(gs);
        if cs[0][0].src.Some? { BareAllMean(m, cs[0], cs[0][0].src.value); }
      } else if |cs| != |gs| {
        GroupMultiMean(m, accepts, t.kind, gs);
      }
    }
  }

  lemma {:induction false} GroupAllMean<B(!new)>(m: Meaning<B>, accepts: Accepts, ts: seq<Node>)
    requires Lawful(m) && GroupAll(accepts, ts).Some?
    ensures MeanAll(m, GroupAll(accepts, ts).value, None) == MeanAll(m, ts, None)
    decreases ts, 0
  {
    if ts != [] {
      GroupMean(m, accepts, ts[0]);
      GroupAllMean(m, accepts, ts[1..]);
      var h, t := Group(accepts, ts[0]).value, GroupAll(accepts, ts[1..]).value;
      assert MeanAll(m, [h] + t, None) == [Mean(m, h, None)] + MeanAll(m, t, None);
      assert MeanAll(m, ts, None) == [Mean(m, ts[0], None)] + MeanAll(m, ts[1..], None);
    }
  }

  // ----- the two readings -----

  /** Solution multisets; each source answers a leaf in its own way. */
  ghost function Solutions(leaf: (nat, Option<nat>) -> Bag, single: (string, Bag) -> Bag,
      other: (string, seq<Bag>) -> Bag)
    : Meaning<Bag>
  {
    Meaning(leaf, single, JoinBag, Unit, Plus, multiset{}, other)
  }

  type Requests = multiset<(nat, Option<nat>)>

  ghost function Sum(a: Requests, b: Requests): Requests { a + b }

  ghost function SumOf(bs: seq<Requests>): Requests {
    if bs == [] then multiset{} else bs[0] + SumOf(bs[1..])
  }

  /** Which source is asked for which leaf, and how often. */
  ghost function Asked(): Meaning<Requests> {
    Meaning((name, src) => multiset{(name, src)}, (kind, b) => b, Sum, multiset{}, Sum, multiset{},
            (kind: string, bs: seq<Requests>) => SumOf(bs))
  }

  lemma JoinsAreMonoids()
    ensures Monoid(JoinBag, Unit) && Monoid(Plus, multiset{}) && Monoid(Sum, multiset{})
  {
    forall a ensures JoinBag(Unit, a) == a { JoinUnit(a); }
    forall a, b, c ensures JoinBag(JoinBag(a, b), c) == JoinBag(a, JoinBag(b, c)) { JoinAssoc(a, b, c); }
    forall a, b ensures JoinBag(a, b) == JoinBag(b, a) { JoinComm(a, b); }
    forall a ensures Plus(multiset{}, a) == a {}
    forall a, b, c ensures Plus(Plus(a, b), c) == Plus(a, Plus(b, c)) {}
    forall a, b ensures Plus(a, b) == Plus(b, a) {}
    forall a ensures Sum(multiset{}, a) == a {}
    forall a, b, c ensures Sum(Sum(a, b), c) == Sum(a, Sum(b, c)) {}
    forall a, b ensures Sum(a, b) == Sum(b, a) {}
  }

  /** The regrouped tree has the same solutions, and asks the same source for each leaf. */
  lemma GroupingSound(
    leaf: (nat, Option<nat>) -> Bag, single: (string, Bag) -> Bag, other: (string, seq<Bag>) -> Bag,
    accepts: Accepts, t: Node)
    requires Group(accepts, t).Some?
    ensures (var m := Solutions(leaf, single, other); Mean(m, Group(accepts, t).value, None) == Mean(m, t, None))
    ensures Mean(Asked(), Group(accepts, t).value, None) == Mean(Asked(), t, None)
  {
    JoinsAreMonoids();
    GroupMean(Solutions(leaf, single, other), accepts, t);
    GroupMean(Asked(), accepts, t);
  }

  /** An operation all of whose grouped inputs belong to one source that accepts it is handed to that source as a whole,
      and its inputs lose their annotations. */
  lemma Hoists(accepts: Accepts, t: Node, gs: seq<Node>, s: nat)
    requires t.src.None? && !t.Leaf? && gs != [] && OfSource(gs, Some(s)) && accepts(s, t)
    requires if t.Single? then gs == [gs[0]] && Group(accepts, t.input) == Some(gs[0])
             else GroupAll(accepts, t.inputs) == Some(gs)
    ensures Group(accepts, t)
            == Some(if t.Single? then Single(t.kind, Bare(gs[0]), Some(s)) else Multi(t.kind, BareAll(gs), Some(s)))
  {
    assert gs[0].src == Some(s);
    if t.Multi? { SameSourceCluster(gs, s); }
  }

  lemma SameSourceCluster(gs: seq<Node>, s: nat)
    requires gs != [] && OfSource(gs, Some(s))
    ensures Clusters(gs) == [gs]
  {
    SameSourceTable(gs, s);
    assert GroupsOf(Table([], [s], map[s := gs])) == [gs];
  }

  lemma {:induction false} SameSourceTable(gs: seq<Node>, s: nat)
    requires gs != [] && OfSource(gs, Some(s))
    ensures Tabulate(gs) == Table([], [s], map[s := gs])
  {
    var front, last := gs[..|gs| - 1], gs[|gs| - 1];
    assert last.src == Some(s) && front + [last] == gs;
    if front == [] {
      assert gs == [last] && Tabulate(front) == Table([], [], map[]);
      assert [] + [s] == [s];
    } else {
      SameSourceTable(front, s);
      assert map[s := front][s := gs] == map[s := gs];
    }
  }

  /** Grouping fails only on a node of another kind that has more than two inputs. */
  lemma {:induction false} GroupingWorks(accepts: Accepts, t: Node)
    requires Narrow(t)
    ensures Group(accepts, t).Some?
    decreases t, 1
  {
    if t.src.None? && t.Single? {
      GroupingWorks(accepts, t.input);
    } else if t.src.None? && t.Multi? {
      GroupAllWorks(accepts, t.inputs);
      var gs := GroupAll(accepts, t.inputs).value;
      if |gs| <= 2 && !Groupable(t.kind) { FewClusters(gs); }
    }
  }

  predicate Narrow(t: Node)
    decreases t, 1
  {
    match t
    case Leaf(_, _) => true
    case Single(_, input, _) => Narrow(input)
    case Multi(kind, inputs, _) => (Groupable(kind) || |inputs| <= 2) && NarrowAll(inputs)
  }

  predicate NarrowAll(ts: seq<Node>)
    decreases ts, 0
  {
    forall i :: 0 <= i < |ts| ==> Narrow(ts[i])
  }

  lemma {:induction false} GroupAllWorks(accepts: Accepts, ts: seq<Node>)
    requires NarrowAll(ts)
    ensures GroupAll(accepts, ts).Some? && |GroupAll(accepts, ts).value| == |ts|
    decreases ts, 0
  {
    if ts != [] {
      assert Narrow(ts[0]);
      GroupingWorks(accepts, ts[0]);
      GroupAllWorks(accepts, ts[1..]);
    }
  }

  lemma {:induction false} FewClusters(gs: seq<Node>)
    ensures |Clusters(gs)| <= |gs| && (gs != [] ==> |Clusters(gs)| > 0)
  {
    if gs != [] {
      FewClusters(gs[..|gs| - 1]);
      TabulateTidy(gs[..|gs| - 1]);
      ClustersGrow(Tabulate(gs[..|gs| - 1]), gs[|gs| - 1]);
    }
  }
}
