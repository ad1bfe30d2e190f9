/** The whole filter optimization: split, push in rounds, merge. */
module FilterPushdownRun {
  import opened Terms
  import opened Bags
  import opened Joins
  import opened Algebra
  import opened FilterPushdown
  import opened FilterPushdownProof

  /** Every conjunction used as a filter has two arguments, as its arity demands. */
  predicate BinaryConjunctions(op: Op)
    decreases op, 1
  {
    match op
    case Filter(input, e) => (e.Call? && e.op == "&&" ==> |e.args| == 2) && BinaryConjunctions(input)
    case Join(inputs) => BinaryConjunctionsEach(inputs)
    case Union(inputs) => BinaryConjunctionsEach(inputs)
    case Other(_, inputs) => BinaryConjunctionsEach(inputs)
    case LeftJoin(l, r, _) => BinaryConjunctions(l) && BinaryConjunctions(r)
    case Extend(input, _, _) => BinaryConjunctions(input)
    case Project(input, _) => BinaryConjunctions(input)
    case _ => true
  }

  predicate BinaryConjunctionsEach(ops: seq<Op>)
    decreases ops, 0
  {
    ops == [] || (BinaryConjunctions(ops[0]) && BinaryConjunctionsEach(ops[1..]))
  }

  lemma ConjunctionSat(env: Env, a: Expr, b: Expr, m: Mapping)
    ensures Sat(env, Call("&&", [a, b]), m) <==> Sat(env, a, m) && Sat(env, b, m)
  {
    assert Bool(true) != Bool(false);
  }

  /** A filter on a conjunction is two nested filters, in either order. */
  lemma ConjunctionSelect(env: Env, b: Bag, x: Expr, y: Expr)
    ensures Select(b, SatP(env, Call("&&", [x, y]))) == Select(Select(b, SatP(env, x)), SatP(env, y))
    ensures Select(b, SatP(env, Call("&&", [x, y]))) == Select(Select(b, SatP(env, y)), SatP(env, x))
  {
    forall m ensures SatP(env, Call("&&", [x, y]))(m) <==> SatP(env, x)(m) && SatP(env, y)(m) {
      ConjunctionSat(env, x, y, m);
    }
    SelectTwice(b, SatP(env, x), SatP(env, y), SatP(env, Call("&&", [x, y])));
    SelectSwap(b, SatP(env, x), SatP(env, y));
  }

  lemma NestTwo(env: Env, input: Op, e: Expr)
    requires e.Call? && e.op == "&&" && |e.args| == 2
    ensures Eval(env, Nest(input, e.args)) == Select(Eval(env, input), SatP(env, e))
  {
    assert e == Call("&&", [e.args[0], e.args[1]]);
    ConjunctionSelect(env, Eval(env, input), e.args[0], e.args[1]);
    assert e.args[1..] == [e.args[1]];
    assert Nest(Filter(input, e.args[0]), e.args[1..]) == Nest(Filter(Filter(input, e.args[0]), e.args[1]), []);
  }

  lemma {:induction false} SplitSound(env: Env, op: Op)
    requires BinaryConjunctions(op)
    ensures Eval(env, SplitAll(op)) == Eval(env, op)
    decreases op, 1
  {
    match op
    case Filter(input, e) =>
      SplitSound(env, input);
      if e.Call? && e.op == "&&" { NestTwo(env, SplitAll(input), e); }
    case Join(inputs) => SplitEachSound(env, inputs);
    case Union(inputs) => SplitEachSound(env, inputs);
    case Other(_, inputs) => SplitEachSound(env, inputs);
    case LeftJoin(l, r, _) =>
      SplitSound(env, l);
      SplitSound(env, r);
    case Extend(input, _, _) => SplitSound(env, input);
    case Project(input, _) => SplitSound(env, input);
    case _ =>
  }

  lemma {:induction false} SplitEachSound(env: Env, ops: seq<Op>)
    requires BinaryConjunctionsEach(ops)
    ensures EvalAll(env, SplitEach(ops)) == EvalAll(env, ops)
    decreases ops, 0
  {
    if ops != [] {
      SplitSound(env, ops[0]);
      SplitEachSound(env, ops[1..]);
      EvalAllCons(env, SplitAll(ops[0]), SplitEach(ops[1..]));
      EvalAllCons(env, ops[0], ops[1..]);
      assert ops == [ops[0]] + ops[1..];
    }
  }

  lemma {:induction false} NestedFiltersEval(env: Env, op: Op, first: Expr)
    ensures (var (es, inner) := NestedFilters(op);
             Select(Eval(env, inner), SatP(env, Conjunction(first, es))) == Select(Eval(env, op), SatP(env, first)))
  {
    if op.Filter? {
      NestedFiltersEval(env, op.input, Call("&&", [first, op.expr]));
      ConjunctionSelect(env, Eval(env, op.input), first, op.expr);
    }
  }

  lemma MergeFilter(env: Env, input: Op, e: Expr)
    ensures Eval(env,
                      if input.Filter? then Filter(NestedFilters(input).1, Conjunction(e, NestedFilters(input).0))
                      else Filter(input, e))
            == Select(Eval(env, input), SatP(env, e))
  {
    NestedFiltersEval(env, input, e);
  }

  lemma {:induction false} MergeSound(env: Env, op: Op)
    ensures Eval(env, MergeAll(op)) == Eval(env, op)
    decreases op, 1
  {
    match op
    case Filter(input, e) =>
      MergeSound(env, input);
      MergeFilter(env, MergeAll(input), e);
    case Join(inputs) => MergeEachSound(env, inputs);
    case Union(inputs) => MergeEachSound(env, inputs);
    case Other(_, inputs) => MergeEachSound(env, inputs);
    case LeftJoin(l, r, _) =>
      MergeSound(env, l);
      MergeSound(env, r);
    case Extend(input, _, _) => MergeSound(env, input);
    case Project(input, _) => MergeSound(env, input);
    case _ =>
  }

  lemma {:induction false} MergeEachSound(env: Env, ops: seq<Op>)
    ensures EvalAll(env, MergeEach(ops)) == EvalAll(env, ops)
    decreases ops, 0
  {
    if ops != [] {
      MergeSound(env, ops[0]);
      MergeEachSound(env, ops[1..]);
      EvalAllCons(env, MergeAll(ops[0]), MergeEach(ops[1..]));
      EvalAllCons(env, ops[0], ops[1..]);
      assert ops == [ops[0]] + ops[1..];
    }
  }

  /** After merging no filter sits directly on a filter. */
  predicate Merged(op: Op)
    decreases op, 1
  {
    match op
    case Filter(input, _) => !input.Filter? && Merged(input)
    case Join(inputs) => MergedEach(inputs)
    case Union(inputs) => MergedEach(inputs)
    case Other(_, inputs) => MergedEach(inputs)
    case LeftJoin(l, r, _) => Merged(l) && Merged(r)
    case Extend(input, _, _) => Merged(input)
    case Project(input, _) => Merged(input)
    case _ => true
  }

  predicate MergedEach(ops: seq<Op>)
    decreases ops, 0
  {
    ops == [] || (Merged(ops[0]) && MergedEach(ops[1..]))
  }

  lemma {:induction false} MergeMerges(op: Op)
    ensures Merged(MergeAll(op))
    decreases op, 1
  {
    match op
    case Filter(input, e) =>
      MergeMerges(input);
      InnermostIsNoFilter(MergeAll(input));
    case Join(inputs) => MergeEachMerges(inputs);
    case Union(inputs) => MergeEachMerges(inputs);
    case Other(_, inputs) => MergeEachMerges(inputs);
    case LeftJoin(l, r, _) =>
      MergeMerges(l);
      MergeMerges(r);
    case Extend(input, _, _) => MergeMerges(input);
    case Project(input, _) => MergeMerges(input);
    case _ =>
  }

  lemma {:induction false} MergeEachMerges(ops: seq<Op>)
    ensures MergedEach(MergeEach(ops))
    decreases ops, 0
  {
    if ops != [] {
      MergeMerges(ops[0]);
      MergeEachMerges(ops[1..]);
    }
  }

  lemma {:induction false} InnermostIsNoFilter(op: Op)
    requires Merged(op)
    ensures !NestedFilters(op).1.Filter? && Merged(NestedFilters(op).1)
  {
    if op.Filter? { InnermostIsNoFilter(op.input); }
  }

  // ----- rounds -----

  /** Every filter that a round pushes is well-scoped where it is pushed. */
  ghost predicate RoundScoped(env: Env, cfg: Config, op: Op)
    decreases op, 1
  {
    match op
    case Filter(input, e) =>
      && RoundScoped(env, cfg, input)
      && var input' := PushRound(cfg, input).1;
         cfg.attempt(input', e) ==> WellScoped(env, cfg, e, input')
    case Join(inputs) => RoundScopedEach(env, cfg, inputs)
    case Union(inputs) => RoundScopedEach(env, cfg, inputs)
    case Other(_, inputs) => RoundScopedEach(env, cfg, inputs)
    case LeftJoin(l, r, _) => RoundScoped(env, cfg, l) && RoundScoped(env, cfg, r)
    case Extend(input, _, _) => RoundScoped(env, cfg, input)
    case Project(input, _) => RoundScoped(env, cfg, input)
    case _ => true
  }

  ghost predicate RoundScopedEach(env: Env, cfg: Config, ops: seq<Op>)
    decreases ops, 0
  {
    ops == [] || (RoundScoped(env, cfg, ops[0]) && RoundScopedEach(env, cfg, ops[1..]))
  }

  /** So are all filters of up to `n` rounds, and there is no EXISTS in the tree. */
  ghost predicate RoundsScoped(env: Env, cfg: Config, op: Op, n: nat)
    decreases n
  {
    NoExists(op) &&
    (n == 0 ||
     (&& RoundScoped(env, cfg, op)
      && var (modified, op') := PushRound(cfg, op);
         modified ==> RoundsScoped(env, cfg, op', n - 1)))
  }

  lemma {:induction false} RoundSound(env: Env, cfg: Config, op: Op)
    requires ScopeSound(env, cfg) && RoundScoped(env, cfg, op)
    ensures Eval(env, PushRound(cfg, op).1) == Eval(env, op)
    decreases op, 1
  {
    match op
    case Filter(input, e) =>
      RoundSound(env, cfg, input);
      var input' := PushRound(cfg, input).1;
      if cfg.attempt(input', e) { PushdownSound(env, cfg, e, input'); }
    case Join(inputs) => RoundEachSound(env, cfg, inputs);
    case Union(inputs) => RoundEachSound(env, cfg, inputs);
    case Other(_, inputs) => RoundEachSound(env, cfg, inputs);
    case LeftJoin(l, r, _) =>
      RoundSound(env, cfg, l);
      RoundSound(env, cfg, r);
    case Extend(input, _, _) => RoundSound(env, cfg, input);
    case Project(input, _) => RoundSound(env, cfg, input);
    case _ =>
  }

  lemma {:induction false} RoundEachSound(env: Env, cfg: Config, ops: seq<Op>)
    requires ScopeSound(env, cfg) && RoundScopedEach(env, cfg, ops)
    ensures EvalAll(env, PushRoundEach(cfg, ops).1) == EvalAll(env, ops)
    decreases ops, 0
  {
    if ops != [] {
      RoundSound(env, cfg, ops[0]);
      RoundEachSound(env, cfg, ops[1..]);
      EvalAllCons(env, PushRound(cfg, ops[0]).1, PushRoundEach(cfg, ops[1..]).1);
      EvalAllCons(env, ops[0], ops[1..]);
      assert ops == [ops[0]] + ops[1..];
    }
  }

  lemma {:induction false} RoundsSound(env: Env, cfg: Config, op: Op, n: nat)
    requires ScopeSound(env, cfg) && RoundsScoped(env, cfg, op, n)
    ensures Eval(env, PushRounds(cfg, op, n)) == Eval(env, op)
    decreases n
  {
    if n > 0 {
      var (modified, op') := PushRound(cfg, op);
      RoundSound(env, cfg, op);
      if modified { RoundsSound(env, cfg, op', n - 1); }
    }
  }

  /** The optimizer as a whole keeps the solution multiset. */
  lemma OptimizedSound(env: Env, cfg: Config, op: Op)
    requires ScopeSound(env, cfg)
    requires cfg.splitConjunctive ==> BinaryConjunctions(op)
    requires RoundsScoped(env, cfg, if cfg.splitConjunctive then SplitAll(op) else op, cfg.maxIterations)
    ensures Eval(env, Optimized(cfg, op)) == Eval(env, op)
  {
    if cfg.splitConjunctive { SplitSound(env, op); }
    var op1 := if cfg.splitConjunctive then SplitAll(op) else op;
    RoundsSound(env, cfg, op1, cfg.maxIterations);
    MergeSound(env, PushRounds(cfg, op1, cfg.maxIterations));
  }
}
