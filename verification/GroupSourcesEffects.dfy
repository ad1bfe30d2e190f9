/** What regrouping brings together: the operations of a source. */
module GroupSourcesEffects {
  import opened Terms
  import opened GroupSources
  import opened GroupSourcesProof

  /** The operations with this source annotation, in order. */
  function From(src: Option<nat>, ops: seq<Node>): seq<Node> {
    if ops == [] then []
    else From(src, ops[..|ops| - 1]) + (if ops[|ops| - 1].src == src then [ops[|ops| - 1]] else [])
  }

  lemma {:induction false} TableIs(ops: seq<Node>, s: nat)
    ensures (var t := Tabulate(ops);
             && t.sourceless == From(None, ops)
             && (s in t.groups <==> From(Some(s), ops) != []) && (s in t.groups ==> t.groups[s] == From(Some(s), ops)))
  {
    if ops != [] { TableIs(ops[..|ops| - 1], s); }
  }

  lemma {:induction false} FromIs(src: Option<nat>, ops: seq<Node>)
    ensures OfSource(From(src, ops), src) && |From(src, ops)| <= |ops|
    ensures |From(src, ops)| == |ops| ==> From(src, ops) == ops
    ensures (exists i :: 0 <= i < |ops| && ops[i].src == src) <==> From(src, ops) != []
  {
    if ops != [] {
      var front := ops[..|ops| - 1];
      FromIs(src, front);
      assert ops == front + [ops[|ops| - 1]];
      if i :| 0 <= i < |ops| && ops[i].src == src { assert i == |front| || front[i].src == src; }
      if i :| 0 <= i < |front| && front[i].src == src { assert ops[i].src == src; }
    }
  }

  ghost predicate HasCluster(cs: seq<seq<Node>>, cluster: seq<Node>) { exists c :: 0 <= c < |cs| && cs[c] == cluster }

  /** Each cluster is all operations of its source, in order, and every source has its cluster. */
  lemma ClustersAre(ops: seq<Node>)
    ensures forall c :: 0 <= c < |Clusters(ops)| ==>
              Clusters(ops)[c] != [] && Clusters(ops)[c] == From(Clusters(ops)[c][0].src, ops)
    ensures forall i :: 0 <= i < |ops| ==> HasCluster(Clusters(ops), From(ops[i].src, ops))
  {
    forall c | 0 <= c < |Clusters(ops)|
      ensures Clusters(ops)[c] != [] && Clusters(ops)[c] == From(Clusters(ops)[c][0].src, ops)
    {
      ClusterIs(ops, c);
    }
    forall i | 0 <= i < |ops| ensures HasCluster(Clusters(ops), From(ops[i].src, ops)) {
      var c := ClusterFor(ops, i);
    }
  }

  lemma ClusterIs(ops: seq<Node>, c: nat)
    requires c < |Clusters(ops)|
    ensures Clusters(ops)[c] != [] && Clusters(ops)[c] == From(Clusters(ops)[c][0].src, ops)
  {
    var t := Tabulate(ops);
    TabulateTidy(ops);
    ClusterAt(t, c);
    var n := if t.sourceless != [] then 1 else 0;
    if c < n {
      TableIs(ops, 0);
    } else {
      assert t.keys[c - n] in t.keys;
      TableIs(ops, t.keys[c - n]);
    }
  }

  lemma SourcelessCluster(t: Table)
    requires t.sourceless != []
    ensures |ClustersOf(t)| > 0 && ClustersOf(t)[0] == t.sourceless
  {
  }

  lemma GroupCluster(t: Table, k: nat)
    requires k < |t.keys| && t.keys[k] in t.groups
    ensures (var n := if t.sourceless != [] then 1 else 0;
             n + k < |ClustersOf(t)| && ClustersOf(t)[n + k] == t.groups[t.keys[k]])
  {
  }

  lemma ClusterFor(ops: seq<Node>, i: nat) returns (c: nat)
    requires i < |ops|
    ensures c < |Clusters(ops)| && Clusters(ops)[c] == From(ops[i].src, ops)
  {
    var t := Tabulate(ops);
    TabulateTidy(ops);
    FromIs(ops[i].src, ops);
    assert From(ops[i].src, ops) != [];
    if ops[i].src.None? {
      TableIs(ops, 0);
      SourcelessCluster(t);
      c := 0;
    } else {
      var s := ops[i].src.value;
      TableIs(ops, s);
      assert s in t.keys;
      var k: nat :| k < |t.keys| && t.keys[k] == s;
      GroupCluster(t, k);
      c := (if t.sourceless != [] then 1 else 0) + k;
    }
  }

  /** A join or union all of whose inputs of source `s` that source could take as one operation. */
  ghost predicate Takes(accepts: Accepts, s: nat, t: Node, gs: seq<Node>) {
    && t.Multi? && t.src.None? && Groupable(t.kind) && GroupAll(accepts, t.inputs) == Some(gs)
    && From(Some(s), gs) != [] && accepts(s, Multi(t.kind, From(Some(s), gs), None))
    && (From(Some(s), gs) == gs ==> accepts(s, t))
  }

  /** What the source is asked: the one input there is, or all of them as one operation. */
  ghost predicate AskedAsOne(s: nat, kind: string, mine: seq<Node>, op: Node) {
    op == Multi(kind, BareAll(mine), Some(s)) || (|mine| == 1 && op == mine[0])
  }

  lemma {:induction false} FromOne(s: nat, ops: seq<Node>, k: nat)
    requires k < |ops| && ops[k].src == Some(s)
    requires forall i :: 0 <= i < |ops| && i != k ==> ops[i].src != Some(s)
    ensures From(Some(s), ops) == [ops[k]]
  {
    if k == |ops| - 1 {
      FromIs(Some(s), ops[..k]);
    } else {
      FromOne(s, ops[..|ops| - 1], k);
    }
  }

  lemma MergedOne(accepts: Accepts, s: nat, kind: string, cluster: seq<Node>)
    requires cluster != [] && OfSource(cluster, Some(s)) && accepts(s, Multi(kind, cluster, None))
    ensures Merged(accepts, kind, cluster) == Multi(kind, BareAll(cluster), Some(s))
  {
    assert cluster[0].src == Some(s);
    FlattenAnnotated(kind, cluster, s);
  }

  lemma MergedSource(accepts: Accepts, kind: string, cluster: seq<Node>)
    requires cluster != []
    ensures Merged(accepts, kind, cluster).src == None || Merged(accepts, kind, cluster).src == cluster[0].src
  {
  }

  lemma GroupMultiOne(accepts: Accepts, s: nat, kind: string, gs: seq<Node>)
    requires From(Some(s), gs) != [] && accepts(s, Multi(kind, From(Some(s), gs), None))
    ensures (var r := GroupMulti(accepts, kind, Clusters(gs));
             r.Multi? && From(Some(s), r.inputs) == [Multi(kind, BareAll(From(Some(s), gs)), Some(s))])
  {
    var cs := Clusters(gs);
    var merged := seq(|cs|, i requires 0 <= i < |cs| => Merged(accepts, kind, cs[i]));
    FromIs(Some(s), gs);
    var i :| 0 <= i < |gs| && gs[i].src == Some(s);
    var c := ClusterFor(gs, i);
    ClustersBySource(gs);
    MergedOne(accepts, s, kind, cs[c]);
    assert cs[c][0].src == Some(s);
    forall d | 0 <= d < |merged| && d != c ensures merged[d].src != Some(s) { MergedSource(accepts, kind, cs[d]); }
    assert merged[c].src.Some?;
    FromOne(s, merged, c);
  }

  /** The source is asked once for all its inputs, or for the whole of the operation. */
  ghost predicate Once(s: nat, kind: string, mine: seq<Node>, r: Node) {
    || r == Multi(kind, BareAll(mine), Some(s))
    || (r.Multi? && r.src.None? && OnceIn(s, kind, mine, r.inputs))
  }

  ghost predicate OnceIn(s: nat, kind: string, mine: seq<Node>, inputs: seq<Node>) {
    |From(Some(s), inputs)| == 1 && AskedAsOne(s, kind, mine, From(Some(s), inputs)[0])
  }

  lemma OneClusterMine(s: nat, gs: seq<Node>)
    requires From(Some(s), gs) != [] && |Clusters(gs)| == 1
    ensures From(Some(s), gs) == gs && OfSource(gs, Some(s))
  {
    FromIs(Some(s), gs);
    OneCluster(gs);
    var i: nat :| i < |gs| && gs[i].src == Some(s);
    var c := ClusterFor(gs, i);
    assert Clusters(gs)[c] == gs;
  }

  lemma OneClusterOnce(accepts: Accepts, s: nat, t: Node, gs: seq<Node>)
    requires Takes(accepts, s, t, gs) && |Clusters(gs)| == 1
    ensures Group(accepts, t) == Some(Multi(t.kind, BareAll(From(Some(s), gs)), Some(s)))
  {
    OneClusterMine(s, gs);
    Hoists(accepts, t, gs, s);
  }

  lemma ApartOnce(accepts: Accepts, s: nat, t: Node, gs: seq<Node>)
    requires Takes(accepts, s, t, gs) && |Clusters(gs)| != 1 && |Clusters(gs)| == |gs|
    ensures Group(accepts, t) == Some(Multi(t.kind, gs, None)) && OnceIn(s, t.kind, From(Some(s), gs), gs)
  {
    SinglesOnly(s, gs);
  }

  /** Regrouping a join or union has the source asked once. */
  lemma AskedOnce(accepts: Accepts, s: nat, t: Node, gs: seq<Node>)
    requires Takes(accepts, s, t, gs)
    ensures Group(accepts, t).Some? && Once(s, t.kind, From(Some(s), gs), Group(accepts, t).value)
  {
    if |Clusters(gs)| == 1 {
      OneClusterOnce(accepts, s, t, gs);
    } else if |Clusters(gs)| == |gs| {
      ApartOnce(accepts, s, t, gs);
    } else {
      GroupMultiOne(accepts, s, t.kind, gs);
      assert Group(accepts, t) == Some(GroupMulti(accepts, t.kind, Clusters(gs)));
    }
  }

  lemma AddCounts(t: Table, op: Node)
    ensures (var fresh' := if op.src.None? then t.sourceless == [] else op.src.value !in t.groups;
             |ClustersOf(Add(t, op))| == |ClustersOf(t)| + if fresh' then 1 else 0)
  {
  }

  /** As many clusters as operations: each source has one. */
  lemma {:induction false} SinglesOnly(s: nat, gs: seq<Node>)
    requires |Clusters(gs)| == |gs|
    ensures |From(Some(s), gs)| <= 1
  {
    if gs != [] {
      var front, last := gs[..|gs| - 1], gs[|gs| - 1];
      FewClusters(front);
      AddCounts(Tabulate(front), last);
      assert Clusters(gs) == ClustersOf(Add(Tabulate(front), last)) && |Clusters(front)| == |front|;
      SinglesOnly(s, front);
      TableIs(front, s);
    }
  }
}
