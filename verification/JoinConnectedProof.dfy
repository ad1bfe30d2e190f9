/** The nested join of the clusters has the solutions of the flat join. */
module JoinConnectedProof {
  import opened Sums
  import opened Joins
  import opened Algebra
  import opened FilterPushdown
  import opened JoinConnected

  function Scopes(cfg: Config, inputs: seq<Op>): seq<set<string>> {
    seq(|inputs|, i requires 0 <= i < |inputs| => cfg.scope(inputs[i]))
  }

  function Picked(inputs: seq<Op>, entries: seq<nat>): seq<Op> {
    seq(|entries|, i requires 0 <= i < |entries| => if entries[i] < |inputs| then inputs[entries[i]] else Nop)
  }

  function SubJoin(inputs: seq<Op>, c: Cluster): Op {
    var ops := Picked(inputs, c.entries);
    if |ops| == 1 then ops[0] else CreateJoin(ops)
  }

  /** The operation built from the final clusters; the outer join is not flattened. */
  function Assemble(inputs: seq<Op>, cs: seq<Cluster>): Op {
    var subJoins := seq(|cs|, i requires 0 <= i < |cs| => SubJoin(inputs, cs[i]));
    if |subJoins| == 1 then subJoins[0] else Join(subJoins)
  }

  function ClusterJoin(cfg: Config, inputs: seq<Op>): Op {
    Assemble(inputs, Settle(Initial(Scopes(cfg, inputs))))
  }

  /** The tree map of the optimizer does not descend into the inputs of a join. */
  function Rewrite(cfg: Config, op: Op): Op
    decreases op, 1
  {
    match op
    case Join(inputs) => ClusterJoin(cfg, inputs)
    case Union(inputs) => Union(RewriteAll(cfg, inputs))
    case LeftJoin(l, r, cond) => LeftJoin(Rewrite(cfg, l), Rewrite(cfg, r), cond)
    case Filter(input, e) => Filter(Rewrite(cfg, input), e)
    case Extend(input, v, e) => Extend(Rewrite(cfg, input), v, e)
    case Project(input, vars) => Project(Rewrite(cfg, input), vars)
    case Other(kind, inputs) => Other(kind, RewriteAll(cfg, inputs))
    case _ => op
  }

  function RewriteAll(cfg: Config, ops: seq<Op>): seq<Op>
    decreases ops, 0
  {
    seq(|ops|, i requires 0 <= i < |ops| => Rewrite(cfg, ops[i]))
  }

  // ----- joins of bags -----

  ghost function BagOf(env: Env, inputs: seq<Op>, c: Cluster): Bag { JoinOf(env, Picked(inputs, c.entries)) }

  ghost function BagsOf(env: Env, inputs: seq<Op>, cs: seq<Cluster>): seq<Bag> {
    seq(|cs|, i requires 0 <= i < |cs| => BagOf(env, inputs, cs[i]))
  }

  lemma MergedBag(env: Env, inputs: seq<Op>, c: Cluster, d: Cluster)
    ensures BagOf(env, inputs, JoinConnected.Merge(c, d)) == JoinBag(BagOf(env, inputs, c), BagOf(env, inputs, d))
  {
    assert Picked(inputs, c.entries + d.entries) == Picked(inputs, c.entries) + Picked(inputs, d.entries);
    OfConcat(env, Picked(inputs, c.entries), Picked(inputs, d.entries));
  }

  /** Joining one bag of a list into an earlier one leaves the join of the list as it is. */
  lemma JoinedEarlier(bs: seq<Bag>, j: nat, k: nat)
    requires j < k < |bs|
    ensures JoinAll(Without(bs[j := JoinBag(bs[j], bs[k])], k)) == JoinAll(bs)
  {
    var p, m, s := bs[..j], bs[j + 1..k], bs[k + 1..];
    var x, y := bs[j], bs[k];
    assert bs == p + ([x] + (m + ([y] + s)));
    assert Without(bs[j := JoinBag(x, y)], k) == p + ([JoinBag(x, y)] + (m + s));
    AllConcat(p, [x] + (m + ([y] + s)));
    AllConcat(p, [JoinBag(x, y)] + (m + s));
    AllCons(x, m + ([y] + s));
    AllCons(JoinBag(x, y), m + s);
    AllConcat(m, [y] + s);
    AllConcat(m, s);
    AllCons(y, s);
    JoinRotate(JoinAll(m), y, JoinAll(s));
    JoinAssoc(x, y, JoinBag(JoinAll(m), JoinAll(s)));
  }

  lemma AbsorbBags(env: Env, inputs: seq<Op>, cs: seq<Cluster>, j: nat, k: nat)
    requires j < k < |cs|
    ensures JoinAll(BagsOf(env, inputs, Absorb(cs, j, k))) == JoinAll(BagsOf(env, inputs, cs))
  {
    var bs := BagsOf(env, inputs, cs);
    MergedBag(env, inputs, cs[j], cs[k]);
    assert BagsOf(env, inputs, Absorb(cs, j, k)) == Without(bs[j := JoinBag(bs[j], bs[k])], k);
    JoinedEarlier(bs, j, k);
  }

  lemma StepBags(env: Env, inputs: seq<Op>, cs: seq<Cluster>, k: nat)
    requires k < |cs|
    ensures JoinAll(BagsOf(env, inputs, Progress(cs, k + 1))) == JoinAll(BagsOf(env, inputs, Progress(cs, k)))
  {
    ProgressStep(cs, k);
    var done := Iteration(cs[..k]);
    var j := Find(done, cs[k].vars);
    if j < |done| { AbsorbBags(env, inputs, Progress(cs, k), j, |done|); }
  }

  lemma {:induction false} ProgressBags(env: Env, inputs: seq<Op>, cs: seq<Cluster>, k: nat)
    requires k <= |cs|
    ensures JoinAll(BagsOf(env, inputs, Progress(cs, k))) == JoinAll(BagsOf(env, inputs, cs))
  {
    if k == 0 {
      assert Progress(cs, 0) == cs;
    } else {
      ProgressBags(env, inputs, cs, k - 1);
      StepBags(env, inputs, cs, k - 1);
    }
  }

  lemma {:induction false} SettleBags(env: Env, inputs: seq<Op>, cs: seq<Cluster>)
    ensures JoinAll(BagsOf(env, inputs, Settle(cs))) == JoinAll(BagsOf(env, inputs, cs))
    decreases |cs|
  {
    ProgressBags(env, inputs, cs, |cs|);
    assert cs[..|cs|] == cs && Progress(cs, |cs|) == Iteration(cs);
    IterationLength(cs);
    if |Iteration(cs)| != |cs| { SettleBags(env, inputs, Iteration(cs)); }
  }

  lemma InitialBags(env: Env, cfg: Config, inputs: seq<Op>)
    ensures BagsOf(env, inputs, Initial(Scopes(cfg, inputs))) == EvalAll(env, inputs)
  {
    var cs := Initial(Scopes(cfg, inputs));
    forall i | 0 <= i < |inputs|
      ensures BagOf(env, inputs, cs[i]) == Eval(env, inputs[i])
    {
      assert Picked(inputs, cs[i].entries) == [inputs[i]];
      OfOne(env, inputs[i]);
    }
  }

  lemma AssembleEval(env: Env, inputs: seq<Op>, cs: seq<Cluster>)
    ensures Eval(env, Assemble(inputs, cs)) == JoinAll(BagsOf(env, inputs, cs))
  {
    var subJoins := seq(|cs|, i requires 0 <= i < |cs| => SubJoin(inputs, cs[i]));
    forall i | 0 <= i < |cs|
      ensures Eval(env, subJoins[i]) == BagOf(env, inputs, cs[i])
    {
      var ops := Picked(inputs, cs[i].entries);
      if |ops| == 1 {
        assert ops == [ops[0]];
        OfOne(env, ops[0]);
      } else {
        FlattenEval(env, ops);
      }
    }
    assert EvalAll(env, subJoins) == BagsOf(env, inputs, cs);
    if |subJoins| == 1 {
      assert subJoins == [subJoins[0]];
      OfOne(env, subJoins[0]);
    }
  }

  /** Whatever the in-scope variables are taken to be, clustering keeps the solution multiset. */
  lemma ClusterJoinSound(env: Env, cfg: Config, inputs: seq<Op>)
    ensures Eval(env, ClusterJoin(cfg, inputs)) == Eval(env, Join(inputs))
  {
    var initial := Initial(Scopes(cfg, inputs));
    InitialBags(env, cfg, inputs);
    SettleBags(env, inputs, initial);
    AssembleEval(env, inputs, Settle(initial));
  }

  lemma {:induction false} RewriteSound(env: Env, cfg: Config, op: Op)
    requires NoExists(op)
    ensures Eval(env, Rewrite(cfg, op)) == Eval(env, op)
    decreases op, 1
  {
    match op
    case Join(inputs) => ClusterJoinSound(env, cfg, inputs);
    case Union(inputs) => RewriteAllSound(env, cfg, inputs);
    case Other(_, inputs) => RewriteAllSound(env, cfg, inputs);
    case LeftJoin(l, r, _) => RewriteSound(env, cfg, l); RewriteSound(env, cfg, r);
    case Filter(input, _) => RewriteSound(env, cfg, input);
    case Extend(input, _, _) => RewriteSound(env, cfg, input);
    case Project(input, _) => RewriteSound(env, cfg, input);
    case _ =>
  }

  lemma {:induction false} RewriteAllSound(env: Env, cfg: Config, ops: seq<Op>)
    requires NoExistsEach(ops)
    ensures EvalAll(env, RewriteAll(cfg, ops)) == EvalAll(env, ops)
    decreases ops, 0
  {
    forall i | 0 <= i < |ops| ensures Eval(env, RewriteAll(cfg, ops)[i]) == Eval(env, ops[i]) {
      RewriteSound(env, cfg, ops[i]);
    }
  }
}
