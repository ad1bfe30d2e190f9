/** Clustering the inputs of a join by shared variables. */
module JoinConnected {
  import opened Reach
  import opened Sums

  /** The inputs of one cluster, by their position in the join, and all their variables. */
  datatype Cluster = Cluster(vars: set<string>, entries: seq<nat>)

  /** Names that every JavaScript object answers to: looked up in a record of variables they are always found. */
  const INHERITED: set<string> := {
    "constructor", "hasOwnProperty", "isPrototypeOf", "propertyIsEnumerable", "toLocaleString", "toString", "valueOf",
    "__proto__", "__defineGetter__", "__defineSetter__", "__lookupGetter__", "__lookupSetter__"}

  predicate Overlap(a: set<string>, b: set<string>) { a * (b + INHERITED) != {} }

  method HaveOverlappingVariables(a: set<string>, b: set<string>) returns (r: bool)
    ensures r == Overlap(a, b)
  {
    var keys := a;
    while keys != {}
      invariant keys <= a && (a - keys) * (b + INHERITED) == {}
      decreases keys
    {
      var v :| v in keys;
      if v in b || v in INHERITED {
        assert v in a * (b + INHERITED);
        return true;
      }
      keys := keys - {v};
    }
    assert a - {} == a;
    return false;
  }

  function Merge(into: Cluster, c: Cluster): Cluster { Cluster(into.vars + c.vars, into.entries + c.entries) }

  /** The first cluster that overlaps. */
  function Find(cs: seq<Cluster>, vars: set<string>): (j: nat)
    ensures j <= |cs| && (j < |cs| ==> Overlap(vars, cs[j].vars))
    ensures forall i :: 0 <= i < j ==> !Overlap(vars, cs[i].vars)
  {
    if cs == [] || Overlap(vars, cs[0].vars) then 0 else 1 + Find(cs[1..], vars)
  }

  function Insert(cs: seq<Cluster>, c: Cluster): seq<Cluster> {
    var j := Find(cs, c.vars);
    if j == |cs| then cs + [c] else cs[j := Merge(cs[j], c)]
  }

  function Iteration(cs: seq<Cluster>): seq<Cluster> {
    if cs == [] then [] else Insert(Iteration(cs[..|cs| - 1]), cs[|cs| - 1])
  }

  lemma {:induction false} IterationLength(cs: seq<Cluster>)
    ensures |Iteration(cs)| <= |cs| && (cs != [] ==> Iteration(cs) != [])
  {
    if cs != [] { IterationLength(cs[..|cs| - 1]); }
  }

  lemma FindIs(cs: seq<Cluster>, vars: set<string>, i: nat)
    requires i <= |cs| && (forall k :: 0 <= k < i ==> !Overlap(vars, cs[k].vars))
    requires i < |cs| ==> Overlap(vars, cs[i].vars)
    ensures Find(cs, vars) == i
  {
  }

  method ClusterIteration(old': seq<Cluster>) returns (new': seq<Cluster>)
    ensures new' == Iteration(old')
  {
    new' := [];
    for i := 0 to |old'|
      invariant new' == Iteration(old'[..i])
    {
      var entry := old'[i];
      assert old'[..i + 1][..i] == old'[..i];
      var joined := false;
      var k := 0;
      while k < |new'| && !joined
        invariant 0 <= k <= |new'|
        invariant !joined ==>
                    new' == Iteration(old'[..i]) && forall j :: 0 <= j < k ==> !Overlap(entry.vars, new'[j].vars)
        invariant joined ==> new' == Insert(Iteration(old'[..i]), entry)
        decreases if joined then 0 else 1 + |new'| - k
      {
        var overlap := HaveOverlappingVariables(entry.vars, new'[k].vars);
        if overlap {
          FindIs(new', entry.vars, k);
          new' := new'[k := Cluster(new'[k].vars + entry.vars, new'[k].entries + entry.entries)];
          joined := true;
        } else {
          k := k + 1;
        }
      }
      if !joined {
        FindIs(new', entry.vars, |new'|);
        new' := new' + [entry];
      }
    }
    assert old'[..|old'|] == old';
  }

  function Initial(scopes: seq<set<string>>): seq<Cluster> {
    seq(|scopes|, (i: nat) requires i < |scopes| => Cluster(scopes[i], [i]))
  }

  function Settle(cs: seq<Cluster>): seq<Cluster>
    decreases |cs|
  {
    IterationLength(cs);
    if |Iteration(cs)| == |cs| then Iteration(cs) else Settle(Iteration(cs))
  }

  /** The clusters of the inputs of a join, given the variables in scope of each. */
  method Clusters(scopes: seq<set<string>>) returns (clusters: seq<Cluster>)
    ensures clusters == Settle(Initial(scopes))
  {
    var oldClusters := Initial(scopes);
    clusters := ClusterIteration(oldClusters);
    while |oldClusters| != |clusters|
      invariant clusters == Iteration(oldClusters)
      invariant Settle(oldClusters) == Settle(Initial(scopes))
      decreases |oldClusters|
    {
      IterationLength(oldClusters);
      oldClusters := clusters;
      clusters := ClusterIteration(oldClusters);
    }
  }

  // ----- what the clusters are -----

  predicate Shares(scopes: seq<set<string>>, i: nat, j: nat) {
    i < |scopes| && j < |scopes| && scopes[i] * scopes[j] != {}
  }

  /** The input has a variable named like an inherited property. */
  predicate Odd(scopes: seq<set<string>>, i: nat) {
    i < |scopes| && scopes[i] * INHERITED != {}
  }

  ghost function Sharing(scopes: seq<set<string>>): Rel<nat> { (i: nat, j: nat) => Shares(scopes, i, j) }

  /** What the code treats as connected. */
  ghost function Linking(scopes: seq<set<string>>): Rel<nat> {
    (i: nat, j: nat) => Shares(scopes, i, j) || (i == 0 && Odd(scopes, j)) || (j == 0 && Odd(scopes, i))
  }

  ghost predicate In(cs: seq<Cluster>, c: nat, i: nat) { c < |cs| && i in cs[c].entries }

  ghost predicate Somewhere(cs: seq<Cluster>, i: nat) { exists c: nat :: In(cs, c, i) }

  ghost predicate Connected(scopes: seq<set<string>>, c: Cluster) {
    forall i, j :: i in c.entries && j in c.entries ==> Star(Linking(scopes), i, j)
  }

  ghost predicate VarsOf(scopes: seq<set<string>>, c: Cluster) {
    && (forall i :: i in c.entries ==> i < |scopes| && scopes[i] <= c.vars)
    && (forall v :: v in c.vars ==> exists i :: i in c.entries && i < |scopes| && v in scopes[i])
  }

  ghost predicate NoRepeats(s: seq<nat>) { forall i, j :: 0 <= i < j < |s| ==> s[i] != s[j] }

  /** Every input is in exactly one cluster, once; each cluster is connected; the first input stays in front. */
  ghost predicate Good(scopes: seq<set<string>>, cs: seq<Cluster>) {
    && (forall i: nat :: i < |scopes| ==> Somewhere(cs, i))
    && (forall c: nat, d: nat, i :: In(cs, c, i) && In(cs, d, i) ==> c == d)
    && (forall c :: 0 <= c < |cs| ==> NoRepeats(cs[c].entries) && Connected(scopes, cs[c]) && VarsOf(scopes, cs[c]))
    && (cs != [] ==> In(cs, 0, 0))
  }

  lemma InitialGood(scopes: seq<set<string>>)
    ensures Good(scopes, Initial(scopes))
  {
    var cs := Initial(scopes);
    forall i: nat | i < |scopes|
      ensures Somewhere(cs, i) && NoRepeats(cs[i].entries) && Connected(scopes, cs[i]) && VarsOf(scopes, cs[i])
    {
      StarRefl(Linking(scopes), i);
      assert In(cs, i, i);
    }
  }

  /** Cluster `k` becomes part of the earlier cluster `j`. */
  function Absorb(cs: seq<Cluster>, j: nat, k: nat): seq<Cluster>
    requires j < k < |cs|
  {
    Without(cs[j := Merge(cs[j], cs[k])], k)
  }

  lemma LinkingSymmetric(scopes: seq<set<string>>, i: nat, j: nat)
    ensures Star(Linking(scopes), i, j) ==> Star(Linking(scopes), j, i)
  {
    assert Converse(Linking(scopes), Linking(scopes));
    StarConverse(Linking(scopes), Linking(scopes), i, j);
  }

  /** Overlapping clusters have entries that are linked; an inherited name overlaps with the first cluster first. */
  lemma LinkedEntries(scopes: seq<set<string>>, cs: seq<Cluster>, j: nat, k: nat) returns (a: nat, b: nat)
    requires Good(scopes, cs) && j < k < |cs| && Overlap(cs[k].vars, cs[j].vars)
    requires forall i :: 0 <= i < j ==> !Overlap(cs[k].vars, cs[i].vars)
    ensures a in cs[j].entries && b in cs[k].entries && Linking(scopes)(a, b)
  {
    var v :| v in cs[k].vars * (cs[j].vars + INHERITED);
    assert VarsOf(scopes, cs[k]) && VarsOf(scopes, cs[j]);
    b :| b in cs[k].entries && b < |scopes| && v in scopes[b];
    if v in cs[j].vars {
      a :| a in cs[j].entries && a < |scopes| && v in scopes[a];
      assert v in scopes[a] * scopes[b];
    } else {
      assert v in cs[k].vars * (cs[0].vars + INHERITED);
      a := 0;
      assert v in scopes[b] * INHERITED;
    }
  }

  lemma MergedConnected(scopes: seq<set<string>>, c: Cluster, d: Cluster, a: nat, b: nat)
    requires Connected(scopes, c) && Connected(scopes, d) && a in c.entries && b in d.entries && Linking(scopes)(a, b)
    ensures Connected(scopes, Merge(c, d))
  {
    var link := Linking(scopes);
    StarStep(link, a, b);
    forall i, j | i in c.entries && j in d.entries
      ensures Star(link, i, j) && Star(link, j, i)
    {
      StarJoin(link, i, a, b);
      StarJoin(link, i, b, j);
      LinkingSymmetric(scopes, i, j);
    }
  }

  lemma MergedVars(scopes: seq<set<string>>, c: Cluster, d: Cluster)
    requires VarsOf(scopes, c) && VarsOf(scopes, d)
    ensures VarsOf(scopes, Merge(c, d))
  {
    var m := Merge(c, d);
    forall v | v in m.vars
      ensures exists i :: i in m.entries && i < |scopes| && v in scopes[i]
    {
      if v in c.vars {
        var i :| i in c.entries && i < |scopes| && v in scopes[i];
        assert i in m.entries;
      } else {
        var i :| i in d.entries && i < |scopes| && v in scopes[i];
        assert i in m.entries;
      }
    }
  }

  lemma AbsorbIn(cs: seq<Cluster>, j: nat, k: nat, c: nat, i: nat)
    requires j < k < |cs|
    ensures In(Absorb(cs, j, k), c, i)
       <==> if c == j then In(cs, j, i) || In(cs, k, i) else In(cs, if c < k then c else c + 1, i)
  {
  }

  lemma AbsorbGood(scopes: seq<set<string>>, cs: seq<Cluster>, j: nat, k: nat)
    requires Good(scopes, cs) && j < k < |cs| && Overlap(cs[k].vars, cs[j].vars)
    requires forall i :: 0 <= i < j ==> !Overlap(cs[k].vars, cs[i].vars)
    ensures Good(scopes, Absorb(cs, j, k))
  {
    var new' := Absorb(cs, j, k);
    forall c: nat, i { AbsorbIn(cs, j, k, c, i); }
    forall i: nat | i < |scopes|
      ensures Somewhere(new', i)
    {
      assert Somewhere(cs, i);
      var c: nat :| In(cs, c, i);
      assert In(new', if c == k then j else if c < k then c else c - 1, i);
    }
    forall c | 0 <= c < |new'|
      ensures NoRepeats(new'[c].entries) && Connected(scopes, new'[c]) && VarsOf(scopes, new'[c])
    {
      if c == j {
        var a, b := LinkedEntries(scopes, cs, j, k);
        MergedConnected(scopes, cs[j], cs[k], a, b);
        MergedVars(scopes, cs[j], cs[k]);
        MergedOnce(cs, j, k);
      }
    }
  }

  lemma MergedOnce(cs: seq<Cluster>, j: nat, k: nat)
    requires j < k < |cs| && NoRepeats(cs[j].entries) && NoRepeats(cs[k].entries)
    requires forall c: nat, d: nat, i :: In(cs, c, i) && In(cs, d, i) ==> c == d
    ensures NoRepeats(Merge(cs[j], cs[k]).entries)
  {
    forall p, q | 0 <= p < |cs[j].entries| && 0 <= q < |cs[k].entries|
      ensures cs[j].entries[p] != cs[k].entries[q]
    {
      if cs[j].entries[p] == cs[k].entries[q] {
        assert In(cs, j, cs[j].entries[p]) && In(cs, k, cs[j].entries[p]);
      }
    }
  }

  /** The clusters made so far, followed by those not looked at yet. */
  function Progress(cs: seq<Cluster>, k: nat): seq<Cluster>
    requires k <= |cs|
  {
    Iteration(cs[..k]) + cs[k..]
  }

  lemma ProgressStep(cs: seq<Cluster>, k: nat)
    requires k < |cs|
    ensures (var done, j := Iteration(cs[..k]), Find(Iteration(cs[..k]), cs[k].vars);
             && |done| < |Progress(cs, k)| && Progress(cs, k)[|done|] == cs[k] && Progress(cs, k)[..|done|] == done
             && Progress(cs, k + 1) == if j == |done| then Progress(cs, k) else Absorb(Progress(cs, k), j, |done|))
  {
    var done := Iteration(cs[..k]);
    assert cs[..k + 1][..k] == cs[..k];
    assert cs[k..] == [cs[k]] + cs[k + 1..];
    var j := Find(done, cs[k].vars);
    if j < |done| {
      var m := Merge(done[j], cs[k]);
      assert (done + cs[k..])[j := m] == done[j := m] + [cs[k]] + cs[k + 1..];
      assert Absorb(done + cs[k..], j, |done|) == done[j := m] + cs[k + 1..];
    } else {
      assert done + [cs[k]] + cs[k + 1..] == done + cs[k..];
    }
  }

  lemma {:induction false} ProgressGood(scopes: seq<set<string>>, cs: seq<Cluster>, k: nat)
    requires Good(scopes, cs) && k <= |cs|
    ensures Good(scopes, Progress(cs, k))
  {
    if k == 0 {
      assert Progress(cs, 0) == cs;
    } else {
      ProgressGood(scopes, cs, k - 1);
      ProgressStaysGood(scopes, cs, k - 1);
    }
  }

  lemma ProgressStaysGood(scopes: seq<set<string>>, cs: seq<Cluster>, k: nat)
    requires k < |cs| && Good(scopes, Progress(cs, k))
    ensures Good(scopes, Progress(cs, k + 1))
  {
    ProgressStep(cs, k);
    var done := Iteration(cs[..k]);
    var all := Progress(cs, k);
    var j := Find(done, cs[k].vars);
    if j < |done| {
      forall i | 0 <= i <= j ensures all[i] == done[i] {}
      AbsorbGood(scopes, all, j, |done|);
    }
  }

  lemma IterationGood(scopes: seq<set<string>>, cs: seq<Cluster>)
    requires Good(scopes, cs)
    ensures Good(scopes, Iteration(cs))
  {
    ProgressGood(scopes, cs, |cs|);
    assert cs[..|cs|] == cs && Progress(cs, |cs|) == Iteration(cs);
  }

  /** No cluster overlaps with an earlier one. */
  ghost predicate Apart(cs: seq<Cluster>) {
    forall j, k :: 0 <= j < k < |cs| ==> !Overlap(cs[k].vars, cs[j].vars)
  }

  /** An iteration that keeps their number has not changed the clusters, because none overlapped. */
  lemma {:induction false} IterationStable(cs: seq<Cluster>)
    requires |Iteration(cs)| == |cs|
    ensures Iteration(cs) == cs && Apart(cs)
  {
    if cs != [] {
      var front := cs[..|cs| - 1];
      IterationLength(front);
      IterationStable(front);
      ApartSnoc(front, cs[|cs| - 1]);
      assert cs == front + [cs[|cs| - 1]];
    }
  }

  lemma ApartSnoc(front: seq<Cluster>, last: Cluster)
    requires Apart(front) && forall j :: 0 <= j < |front| ==> !Overlap(last.vars, front[j].vars)
    ensures Apart(front + [last])
  {
    var cs := front + [last];
    forall j, k | 0 <= j < k < |cs| ensures !Overlap(cs[k].vars, cs[j].vars) {
      assert cs[j] == front[j];
      if k < |front| { assert cs[k] == front[k]; } else { assert cs[k] == last; }
    }
  }

  lemma {:induction false} SettleGood(scopes: seq<set<string>>, cs: seq<Cluster>)
    requires Good(scopes, cs)
    ensures Good(scopes, Settle(cs)) && Apart(Settle(cs))
    decreases |cs|
  {
    IterationLength(cs);
    IterationGood(scopes, cs);
    if |Iteration(cs)| == |cs| { IterationStable(cs); } else { SettleGood(scopes, Iteration(cs)); }
  }

  ghost predicate Together(cs: seq<Cluster>, i: nat, j: nat) {
    exists c: nat :: In(cs, c, i) && In(cs, c, j)
  }

  lemma StepTogether(scopes: seq<set<string>>, cs: seq<Cluster>, c: nat, i: nat, j: nat)
    requires Good(scopes, cs) && Apart(cs) && In(cs, c, i) && Linking(scopes)(i, j)
    ensures In(cs, c, j)
  {
    assert VarsOf(scopes, cs[c]);
    assert cs != [];
    var k := if Shares(scopes, i, j) || i == 0 then j else 0;
    assert k < |scopes| ==> Somewhere(cs, k);
    var d: nat :| In(cs, d, k);
    assert VarsOf(scopes, cs[d]);
    if Shares(scopes, i, j) {
      var v :| v in scopes[i] * scopes[j];
      assert v in cs[c].vars && v in cs[d].vars;
      assert v in cs[d].vars * (cs[c].vars + INHERITED) && v in cs[c].vars * (cs[d].vars + INHERITED);
    } else if i == 0 {
      var v :| v in scopes[j] * INHERITED;
      assert c == 0 && v in cs[d].vars * (cs[0].vars + INHERITED);
    } else {
      var v :| v in scopes[i] * INHERITED;
      assert d == 0 && v in cs[c].vars * (cs[0].vars + INHERITED);
    }
  }

  /** Two inputs end up in the same cluster exactly if a chain of links connects them. */
  lemma ClustersAreComponents(scopes: seq<set<string>>, i: nat, j: nat)
    requires i < |scopes| && j < |scopes|
    ensures Together(Settle(Initial(scopes)), i, j) <==> Star(Linking(scopes), i, j)
  {
    var cs := Settle(Initial(scopes));
    InitialGood(scopes);
    SettleGood(scopes, Initial(scopes));
    if c: nat :| In(cs, c, i) && In(cs, c, j) { assert Connected(scopes, cs[c]); }
    if Star(Linking(scopes), i, j) {
      assert Somewhere(cs, i);
      var c: nat :| In(cs, c, i);
      forall u, v | In(cs, c, u) && Linking(scopes)(u, v) ensures In(cs, c, v) { StepTogether(scopes, cs, c, u, v); }
      StarClosed(Linking(scopes), u => In(cs, c, u), i, j);
      assert In(cs, c, i) && In(cs, c, j);
    }
  }

  ghost predicate ExactComponents(scopes: seq<set<string>>) {
    forall i: nat, j: nat :: i < |scopes| && j < |scopes| ==>
      (Together(Settle(Initial(scopes)), i, j) <==> Star(Sharing(scopes), i, j))
  }

  /** The clusters are the connected components of "shares a variable" exactly if every input with a variable named
      like an inherited property is connected to the first input anyway. */
  lemma ComponentsExactly(scopes: seq<set<string>>)
    ensures ExactComponents(scopes) <==> forall i: nat :: Odd(scopes, i) ==> Star(Sharing(scopes), 0, i)
  {
    var link, share := Linking(scopes), Sharing(scopes);
    forall i: nat, j: nat | i < |scopes| && j < |scopes| { ClustersAreComponents(scopes, i, j); }
    if ExactComponents(scopes) {
      forall i: nat | Odd(scopes, i) ensures Star(share, 0, i) {
        StarStep(link, 0, i);
        assert Together(Settle(Initial(scopes)), 0, i);
      }
    }
    if forall i: nat :: Odd(scopes, i) ==> Star(share, 0, i) {
      forall i: nat, j: nat | i < |scopes| && j < |scopes|
        ensures Star(link, i, j) <==> Star(share, i, j)
      {
        LinkIsShare(scopes, i, j);
      }
    }
  }

  lemma LinkIsShare(scopes: seq<set<string>>, i: nat, j: nat)
    requires i < |scopes| && forall k: nat :: Odd(scopes, k) ==> Star(Sharing(scopes), 0, k)
    ensures Star(Linking(scopes), i, j) <==> Star(Sharing(scopes), i, j)
  {
    var link, share := Linking(scopes), Sharing(scopes);
    StarRefl(share, i);
    StarRefl(link, i);
    assert Converse(share, share);
    forall u: nat, v: nat | Star(share, i, u) && link(u, v)
      ensures Star(share, i, v)
    {
      if share(u, v) { StarStep(share, u, v); } else if v == 0 { StarConverse(share, share, u, v); }
      StarJoin(share, i, u, v);
    }
    forall u: nat, v: nat | Star(link, i, u) && share(u, v)
      ensures Star(link, i, v)
    {
      StarStep(link, u, v);
      StarJoin(link, i, u, v);
    }
    if Star(link, i, j) { StarClosed(link, u => Star(share, i, u), i, j); }
    if Star(share, i, j) { StarClosed(share, u => Star(link, i, u), i, j); }
  }

  /** Different clusters share no variable, each is connected, and every input is in exactly one, once. */
  lemma ClustersPartition(scopes: seq<set<string>>)
    ensures (var cs := Settle(Initial(scopes));
             && Good(scopes, cs)
             && forall j, k :: 0 <= j < k < |cs| ==> cs[j].vars !! cs[k].vars)
  {
    var cs := Settle(Initial(scopes));
    InitialGood(scopes);
    SettleGood(scopes, Initial(scopes));
    forall j, k | 0 <= j < k < |cs| ensures cs[j].vars !! cs[k].vars {
      assert cs[k].vars * (cs[j].vars + INHERITED) == {};
      forall v | v in cs[j].vars ensures v !in cs[k].vars { assert v !in cs[k].vars * (cs[j].vars + INHERITED); }
    }
  }

  /** The names in question: an input over one of these, and no other, is clustered with an input that it shares nothing
      with. */
  lemma InheritedNameClusters(name: string)
    requires name != "x"
    ensures !ExactComponents([{"x"}, {name}]) <==>
              || name == "constructor" || name == "hasOwnProperty" || name == "isPrototypeOf"
              || name == "propertyIsEnumerable" || name == "toLocaleString" || name == "toString" || name == "valueOf"
              || name == "__proto__" || name == "__defineGetter__" || name == "__defineSetter__"
              || name == "__lookupGetter__" || name == "__lookupSetter__"
  {
    var scopes: seq<set<string>> := [{"x"}, {name}];
    assert name in INHERITED <==> name in scopes[1] * INHERITED;
    assert "x" !in INHERITED;
    if Star(Sharing(scopes), 0, 1) { StarClosed(Sharing(scopes), (i: nat) => i == 0, 0, 1); }
    ComponentsExactly(scopes);
    assert Odd(scopes, 1) <==> name in INHERITED;
    assert !Odd(scopes, 0);
  }
}
