/** The tree that the clusters of a join are made into. */
module JoinConnectedEffects {
  import opened Reach
  import opened Algebra
  import opened FilterPushdown
  import opened JoinConnected
  import opened JoinConnectedProof
  import opened Places

  ghost predicate Member(groups: seq<seq<nat>>, g: nat, i: nat) { g < |groups| && i in groups[g] }

  ghost predicate Grouped(groups: seq<seq<nat>>, i: nat) { exists g :: Member(groups, g, i) }

  /** Every input is in exactly one group, once, and two inputs are in the same group exactly if a chain of links
      connects them. */
  ghost predicate Components(scopes: seq<set<string>>, groups: seq<seq<nat>>) {
    && (forall g, k :: 0 <= g < |groups| && 0 <= k < |groups[g]| ==> groups[g][k] < |scopes|)
    && (forall g :: 0 <= g < |groups| ==> NoRepeats(groups[g]))
    && (forall i: nat :: i < |scopes| ==> Grouped(groups, i))
    && (forall g, h, i, j :: Member(groups, g, i) && Member(groups, h, j) ==>
          (g == h <==> Star(Linking(scopes), i, j)))
  }

  /** The inputs of a group, those of nested joins in their place. */
  function Operands(inputs: seq<Op>, group: seq<nat>): seq<Op>
    requires forall k :: 0 <= k < |group| ==> group[k] < |inputs|
  {
    if group == [] then []
    else (var op := inputs[group[0]]; if op.Join? then op.inputs else [op]) + Operands(inputs, group[1..])
  }

  /** One input as it is, several as a join. */
  function GroupJoin(inputs: seq<Op>, group: seq<nat>): Op
    requires forall k :: 0 <= k < |group| ==> group[k] < |inputs|
  {
    if |group| == 1 then inputs[group[0]] else Join(Operands(inputs, group))
  }

  ghost predicate IsJoinOf(op: Op, inputs: seq<Op>, groups: seq<seq<nat>>)
    requires forall g, k :: 0 <= g < |groups| && 0 <= k < |groups[g]| ==> groups[g][k] < |inputs|
  {
    if |groups| == 1 then op == GroupJoin(inputs, groups[0])
    else
      && op.Join? && |op.inputs| == |groups|
      && forall g :: 0 <= g < |groups| ==> op.inputs[g] == GroupJoin(inputs, groups[g])
  }

  lemma {:induction false} PickedOperands(inputs: seq<Op>, group: seq<nat>)
    requires forall k :: 0 <= k < |group| ==> group[k] < |inputs|
    ensures FlattenJoin(Picked(inputs, group)) == Operands(inputs, group)
  {
    if group != [] {
      PickedOperands(inputs, group[1..]);
      assert Picked(inputs, group)[1..] == Picked(inputs, group[1..]);
    }
  }

  function EntriesOf(cs: seq<Cluster>): seq<seq<nat>> {
    seq(|cs|, i requires 0 <= i < |cs| => cs[i].entries)
  }

  lemma ClustersComponents(scopes: seq<set<string>>)
    ensures Components(scopes, EntriesOf(Settle(Initial(scopes))))
  {
    var cs := Settle(Initial(scopes));
    var groups := EntriesOf(cs);
    ClustersPartition(scopes);
    forall g, k | 0 <= g < |groups| && 0 <= k < |groups[g]| ensures groups[g][k] < |scopes| {
      assert VarsOf(scopes, cs[g]) && groups[g][k] in cs[g].entries;
    }
    forall i: nat | i < |scopes| ensures Grouped(groups, i) {
      assert Somewhere(cs, i);
      var c: nat :| In(cs, c, i);
      assert Member(groups, c, i);
    }
    forall g, h, i, j | Member(groups, g, i) && Member(groups, h, j)
      ensures g == h <==> Star(Linking(scopes), i, j)
    {
      SameGroup(scopes, g, h, i, j);
    }
  }

  lemma SameGroup(scopes: seq<set<string>>, g: nat, h: nat, i: nat, j: nat)
    requires In(Settle(Initial(scopes)), g, i) && In(Settle(Initial(scopes)), h, j)
    ensures g == h <==> Star(Linking(scopes), i, j)
  {
    var cs := Settle(Initial(scopes));
    ClustersPartition(scopes);
    assert VarsOf(scopes, cs[g]) && VarsOf(scopes, cs[h]);
    ClustersAreComponents(scopes, i, j);
    if c: nat :| In(cs, c, i) && In(cs, c, j) { assert c == g && c == h; }
    if g == h { assert In(cs, g, i) && In(cs, g, j); }
  }

  /** The join becomes a join of one operand for each connected component of its inputs. */
  lemma JoinsComponents(cfg: Config, inputs: seq<Op>) returns (groups: seq<seq<nat>>)
    ensures Components(Scopes(cfg, inputs), groups) && IsJoinOf(ClusterJoin(cfg, inputs), inputs, groups)
  {
    var scopes := Scopes(cfg, inputs);
    var cs := Settle(Initial(scopes));
    groups := EntriesOf(cs);
    ClustersComponents(scopes);
    forall g | 0 <= g < |groups| ensures SubJoin(inputs, cs[g]) == GroupJoin(inputs, groups[g]) {
      PickedOperands(inputs, groups[g]);
    }
  }

  // ----- everywhere in the tree -----

  ghost predicate JoinFree(op: Op) {
    !op.Join? && forall i :: 0 <= i < |Children(op)| ==> (ChildSmaller(op, i); JoinFree(Children(op)[i]))
  }

  /** The join at this place is the only one but for what is below it. */
  ghost predicate OnlyJoin(op: Op, place: seq<nat>)
    decreases |place|
  {
    if place == [] then op.Join?
    else
      && !op.Join? && place[0] < |Children(op)|
      && OnlyJoin(Children(op)[place[0]], place[1..])
      && forall i :: 0 <= i < |Children(op)| && i != place[0] ==> JoinFree(Children(op)[i])
  }

  lemma {:induction false} NothingToCluster(cfg: Config, op: Op)
    requires JoinFree(op)
    ensures Rewrite(cfg, op) == op
    decreases op, 1
  {
    forall i | 0 <= i < |Children(op)| ensures Rewrite(cfg, Children(op)[i]) == Children(op)[i] {
      ChildSmaller(op, i);
      NothingToCluster(cfg, Children(op)[i]);
    }
    match op
    case Union(inputs) => assert Children(op) == inputs == RewriteAll(cfg, inputs);
    case Other(_, inputs) => assert Children(op) == inputs == RewriteAll(cfg, inputs);
    case LeftJoin(l, r, _) => assert Children(op)[0] == l && Children(op)[1] == r;
    case Filter(input, _) => assert Children(op)[0] == input;
    case Extend(input, _, _) => assert Children(op)[0] == input;
    case Project(input, _) => assert Children(op)[0] == input;
    case _ =>
  }

  lemma RewriteAt(cfg: Config, op: Op, i: nat)
    requires !op.Join? && i < |Children(op)|
    requires forall j :: 0 <= j < |Children(op)| && j != i ==> JoinFree(Children(op)[j])
    ensures Rewrite(cfg, op) == WithChild(op, i, Rewrite(cfg, Children(op)[i]))
  {
    forall j | 0 <= j < |Children(op)| && j != i ensures Rewrite(cfg, Children(op)[j]) == Children(op)[j] {
      NothingToCluster(cfg, Children(op)[j]);
    }
    match op
    case Union(inputs) => assert RewriteAll(cfg, inputs) == inputs[i := Rewrite(cfg, inputs[i])];
    case Other(_, inputs) => assert RewriteAll(cfg, inputs) == inputs[i := Rewrite(cfg, inputs[i])];
    case LeftJoin(l, r, _) => assert Children(op)[0] == l && Children(op)[1] == r;
    case _ =>
  }

  /** A join is clustered wherever it stands in the tree, and the rest of the tree stays as it is. */
  lemma {:induction false} JoinIsClustered(cfg: Config, op: Op, place: seq<nat>)
    requires OnlyJoin(op, place)
    ensures At(op, place).Join? && Rewrite(cfg, op) == Put(op, place, ClusterJoin(cfg, At(op, place).inputs))
    decreases |place|
  {
    if place != [] {
      JoinIsClustered(cfg, Children(op)[place[0]], place[1..]);
      RewriteAt(cfg, op, place[0]);
    }
  }
}
