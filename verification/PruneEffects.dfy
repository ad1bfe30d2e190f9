/** What pruning removes: every marked operation that a union can do without. */
module PruneEffects {
  import opened Terms
  import opened Algebra
  import opened Bags
  import opened Joins
  import opened JoinGroups
  import opened FilterPushdown
  import opened PruneEmpty

  /** Marked operations stand nowhere but directly under unions. */
  ghost predicate OnlyInUnions(op: Op, marked: set<Op>)
    decreases op, 1
  {
    && op !in marked
    && match op
       case Union(inputs) => forall i :: 0 <= i < |inputs| ==> inputs[i] in marked || OnlyInUnions(inputs[i], marked)
       case Join(inputs) => OnlyInUnionsAll(inputs, marked)
       case Other(_, inputs) => OnlyInUnionsAll(inputs, marked)
       case LeftJoin(l, r, _) => OnlyInUnions(l, marked) && OnlyInUnions(r, marked)
       case Filter(input, _) => OnlyInUnions(input, marked)
       case Extend(input, _, _) => OnlyInUnions(input, marked)
       case Project(input, _) => OnlyInUnions(input, marked)
       case _ => true
  }

  ghost predicate OnlyInUnionsAll(ops: seq<Op>, marked: set<Op>)
    decreases ops, 0
  {
    forall i :: 0 <= i < |ops| ==> OnlyInUnions(ops[i], marked)
  }

  /** No marked operation stands anywhere. */
  ghost predicate Unmarked(op: Op, marked: set<Op>)
    decreases op, 1
  {
    && op !in marked
    && match op
       case Union(inputs) => UnmarkedAll(inputs, marked)
       case Join(inputs) => UnmarkedAll(inputs, marked)
       case Other(_, inputs) => UnmarkedAll(inputs, marked)
       case LeftJoin(l, r, _) => Unmarked(l, marked) && Unmarked(r, marked)
       case Filter(input, _) => Unmarked(input, marked)
       case Extend(input, _, _) => Unmarked(input, marked)
       case Project(input, _) => Unmarked(input, marked)
       case _ => true
  }

  ghost predicate UnmarkedAll(ops: seq<Op>, marked: set<Op>)
    decreases ops, 0
  {
    forall i :: 0 <= i < |ops| ==> Unmarked(ops[i], marked)
  }

  ghost predicate Leaves(marked: set<Op>) { forall op :: op in marked ==> op.Pattern? }

  lemma {:induction false} FlattenUnmarked(ops: seq<Op>, marked: set<Op>)
    requires UnmarkedAll(ops, marked)
    ensures UnmarkedAll(FlattenUnion(ops), marked)
  {
    if ops != [] {
      assert Unmarked(ops[0], marked);
      FlattenUnmarked(ops[1..], marked);
      assert UnmarkedAll(if ops[0].Union? then ops[0].inputs else [ops[0]], marked);
    }
  }

  lemma {:induction false} StayingUnmarked(inputs: seq<Op>, originals: seq<Op>, marked: set<Op>)
    requires |inputs| == |originals|
    requires forall i :: 0 <= i < |inputs| && originals[i] !in marked ==> Unmarked(inputs[i], marked)
    ensures UnmarkedAll(Staying(inputs, originals, marked), marked)
    ensures |Staying(inputs, originals, marked)| == |inputs| ==> Staying(inputs, originals, marked) == inputs
    ensures |Staying(inputs, originals, marked)| <= |inputs|
  {
    if inputs != [] {
      StayingUnmarked(inputs[..|inputs| - 1], originals[..|inputs| - 1], marked);
      assert inputs == inputs[..|inputs| - 1] + [inputs[|inputs| - 1]];
    }
  }

  lemma UnionUnmarked(inputs: seq<Op>, originals: seq<Op>, marked: set<Op>)
    requires |inputs| == |originals| && Leaves(marked)
    requires forall i :: 0 <= i < |inputs| && originals[i] !in marked ==> Unmarked(inputs[i], marked)
    ensures Unmarked(MapMulti(inputs, originals, marked), marked)
  {
    StayingUnmarked(inputs, originals, marked);
    FlattenUnmarked(Staying(inputs, originals, marked), marked);
  }

  /** Wherever in the tree the marked operations stand under unions: afterwards none is left. */
  lemma {:induction false} MarkedAreGone(op: Op, marked: set<Op>)
    requires Leaves(marked) && OnlyInUnions(op, marked)
    ensures Unmarked(Prune(op, marked), marked)
    decreases op, 1
  {
    match op
    case Union(inputs) =>
      forall i | 0 <= i < |inputs| && inputs[i] !in marked ensures Unmarked(Prune(inputs[i], marked), marked) {
        MarkedAreGone(inputs[i], marked);
      }
      UnionUnmarked(PruneAll(inputs, marked), inputs, marked);
    case Project(input, vars) =>
      MarkedAreGone(input, marked);
      FlattenUnmarked([], marked);
    case LeftJoin(l, r, _) =>
      MarkedAreGone(l, marked);
      MarkedAreGone(r, marked);
    case Join(inputs) => AllGone(inputs, marked);
    case Other(_, inputs) => AllGone(inputs, marked);
    case Filter(input, _) => MarkedAreGone(input, marked);
    case Extend(input, _, _) => MarkedAreGone(input, marked);
    case _ =>
  }

  lemma {:induction false} AllGone(ops: seq<Op>, marked: set<Op>)
    requires Leaves(marked) && OnlyInUnionsAll(ops, marked)
    ensures UnmarkedAll(PruneAll(ops, marked), marked)
    decreases ops, 0
  {
    forall i | 0 <= i < |ops| ensures Unmarked(Prune(ops[i], marked), marked) { MarkedAreGone(ops[i], marked); }
  }

  lemma {:induction false} AskablesAre(inputs: seq<Op>, op: Op)
    ensures op in Askables(inputs) <==> op in inputs && op.Pattern? && op.src.Some?
  {
    if inputs != [] {
      AskablesAre(inputs[..|inputs| - 1], op);
      assert inputs == inputs[..|inputs| - 1] + [inputs[|inputs| - 1]];
    }
  }

  /** The source of a pattern is asked about it if it stands under some union. */
  ghost predicate UnderUnion(op: Op, pattern: Op)
    decreases op, 1
  {
    match op
    case Union(inputs) => pattern in inputs || UnderUnionSome(inputs, pattern)
    case Join(inputs) => UnderUnionSome(inputs, pattern)
    case Other(_, inputs) => UnderUnionSome(inputs, pattern)
    case LeftJoin(l, r, _) => UnderUnion(l, pattern) || UnderUnion(r, pattern)
    case Filter(input, _) => UnderUnion(input, pattern)
    case Extend(input, _, _) => UnderUnion(input, pattern)
    case Project(input, _) => UnderUnion(input, pattern)
    case _ => false
  }

  ghost predicate UnderUnionSome(ops: seq<Op>, pattern: Op)
    decreases ops, 0
  {
    exists i :: 0 <= i < |ops| && UnderUnion(ops[i], pattern)
  }

  lemma {:induction false} CollectedExactly(op: Op, p: Op)
    ensures p in Collected(op) <==> p.Pattern? && p.src.Some? && UnderUnion(op, p)
    decreases op, 1
  {
    match op
    case Union(inputs) => AskablesAre(inputs, p); CollectedAllExactly(inputs, p);
    case Join(inputs) => CollectedAllExactly(inputs, p);
    case Other(_, inputs) => CollectedAllExactly(inputs, p);
    case LeftJoin(l, r, _) => CollectedExactly(l, p); CollectedExactly(r, p);
    case Filter(input, _) => CollectedExactly(input, p);
    case Extend(input, _, _) => CollectedExactly(input, p);
    case Project(input, _) => CollectedExactly(input, p);
    case _ =>
  }

  lemma {:induction false} CollectedAllExactly(ops: seq<Op>, p: Op)
    ensures p in CollectedAll(ops) <==> p.Pattern? && p.src.Some? && UnderUnionSome(ops, p)
    decreases ops, 0
  {
    if ops != [] {
      CollectedExactly(ops[0], p);
      CollectedAllExactly(ops[1..], p);
      if i :| 0 <= i < |ops| && UnderUnion(ops[i], p) { assert i == 0 || UnderUnion(ops[1..][i - 1], p); }
      if i :| 0 <= i < |ops[1..]| && UnderUnion(ops[1..][i], p) { assert UnderUnion(ops[i + 1], p); }
    }
  }

  /** The patterns under unions that their sources have no results for. */
  function Dead(op: Op, hasResults: Op -> bool): set<Op> { set c | c in Collected(op) && !hasResults(c) }

  /** Those that stand under unions only are gone after the whole pass, if there are any. */
  lemma EmptyPatternsGo(op: Op, hasResults: Op -> bool, p: Op)
    requires p.Pattern? && p.src.Some? && !hasResults(p) && UnderUnion(op, p)
    requires OnlyInUnions(op, Dead(op, hasResults))
    ensures p in Dead(op, hasResults) && Unmarked(PruneEmpty.Run(op, hasResults), Dead(op, hasResults))
  {
    var marked := Dead(op, hasResults);
    CollectedExactly(op, p);
    forall c | c in marked ensures c.Pattern? { CollectedExactly(op, c); }
    MarkedAreGone(op, marked);
    assert marked == set c | c in Collected(op) && !hasResults(c);
    assert p in marked && PruneEmpty.Run(op, hasResults) == Prune(op, marked);
  }

  // ----- what is taken to be empty -----

  /** Patterns, joined, united and projected. */
  predicate Plain(op: Op)
    decreases op, 1
  {
    match op
    case Pattern(_, _) => true
    case Join(inputs) => PlainAll(inputs)
    case Union(inputs) => PlainAll(inputs)
    case Project(input, _) => Plain(input)
    case _ => false
  }

  predicate PlainAll(ops: seq<Op>)
    decreases ops, 0
  {
    ops == [] || (Plain(ops[0]) && PlainAll(ops[1..]))
  }

  /** The quads that the patterns match with the same term for all variables. */
  function Instances(op: Op): set<Term>
    decreases op, 1
  {
    match op
    case Pattern(quad, _) => {Subst(Row(Vars(quad)), quad)}
    case Join(inputs) => InstancesAll(inputs)
    case Union(inputs) => InstancesAll(inputs)
    case Project(input, _) => Instances(input)
    case _ => {}
  }

  function InstancesAll(ops: seq<Op>): set<Term>
    decreases ops, 0
  {
    if ops == [] then {} else Instances(ops[0]) + InstancesAll(ops[1..])
  }

  ghost predicate Offers(env: Env, data: set<Term>) { forall src :: env.quads(src) == data }

  lemma RowsMerge(v: set<string>, w: set<string>)
    ensures Compatible(Row(v), Row(w)) && Row(v) + Row(w) == Row(v + w)
  {
    assert (Row(v) + Row(w)).Keys == Row(v + w).Keys;
  }

  lemma PatternOffered(env: Env, quad: Term, src: Option<nat>)
    requires Subst(Row(Vars(quad)), quad) in env.quads(src)
    ensures Row(Vars(quad)) in Eval(env, Pattern(quad, src))
  {
    SolutionsAre(quad, env.quads(src), Row(Vars(quad)));
  }

  /** What is not taken to be empty has a solution on this data. */
  lemma {:induction false} Offered(env: Env, op: Op, data: set<Term>) returns (vars: set<string>)
    requires Plain(op) && !HasEmpty(op) && Offers(env, data) && Instances(op) <= data
    ensures Row(vars) in Eval(env, op)
    decreases op, 1
  {
    match op
    case Pattern(quad, src) =>
      vars := Vars(quad);
      PatternOffered(env, quad, src);
    case Join(inputs) => vars := OfferedJoin(env, inputs, data);
    case Union(inputs) => vars := OfferedUnion(env, inputs, data);
    case Project(input, keep) =>
      vars := Offered(env, input, data);
      var kept := Restrict(Row(vars), keep);
      BindIn(Eval(env, input), ProjectRow(keep), kept);
      assert kept in ProjectRow(keep)(Row(vars));
      vars := vars * keep;
      assert kept == Row(vars);
  }

  lemma {:induction false} OfferedJoin(env: Env, ops: seq<Op>, data: set<Term>) returns (vars: set<string>)
    requires PlainAll(ops) && !AnyEmpty(ops) && Offers(env, data) && InstancesAll(ops) <= data
    ensures Row(vars) in JoinOf(env, ops)
    decreases ops, 0
  {
    if ops == [] {
      vars := {};
      OfNone(env);
    } else {
      var v := Offered(env, ops[0], data);
      assert forall i :: 0 <= i < |ops[1..]| ==> ops[1..][i] == ops[i + 1];
      var w := OfferedJoin(env, ops[1..], data);
      vars := v + w;
      assert ops == [ops[0]] + ops[1..];
      OfCons(env, ops[0], ops[1..]);
      RowsMerge(v, w);
      JoinIn(Eval(env, ops[0]), JoinOf(env, ops[1..]), Row(vars));
    }
  }

  lemma {:induction false} OfferedUnion(env: Env, ops: seq<Op>, data: set<Term>) returns (vars: set<string>)
    requires PlainAll(ops) && Offers(env, data) && InstancesAll(ops) <= data
    requires exists i :: 0 <= i < |ops| && !HasEmpty(ops[i])
    ensures Row(vars) in UnionOf(env, ops)
    decreases ops, 0
  {
    assert ops == [ops[0]] + ops[1..];
    OfCons(env, ops[0], ops[1..]);
    if !HasEmpty(ops[0]) {
      vars := Offered(env, ops[0], data);
    } else {
      var i :| 0 <= i < |ops| && !HasEmpty(ops[i]);
      assert ops[1..][i - 1] == ops[i];
      vars := OfferedUnion(env, ops[1..], data);
    }
  }

  ghost function Holding(env: Env, data: set<Term>): Env { env.(quads := (src: Option<nat>) => data) }

  lemma {:induction false} PlainFragment(op: Op)
    requires Plain(op)
    ensures Fragment(op)
    decreases op, 1
  {
    match op
    case Join(inputs) => PlainFragmentAll(inputs);
    case Union(inputs) => PlainFragmentAll(inputs);
    case Project(input, _) => PlainFragment(input);
    case _ =>
  }

  lemma {:induction false} PlainFragmentAll(ops: seq<Op>)
    requires PlainAll(ops)
    ensures FragmentAll(ops)
    decreases ops, 0
  {
    if ops != [] {
      PlainFragment(ops[0]);
      PlainFragmentAll(ops[1..]);
      forall i | 0 <= i < |ops| ensures Fragment(ops[i]) { assert i == 0 || ops[1..][i - 1] == ops[i]; }
    }
  }

  /** On these operations the test is exact: what is taken to be empty is what has no solutions on any data. */
  lemma HasEmptyExactly(env: Env, op: Op)
    requires Plain(op)
    ensures HasEmpty(op) <==> forall data :: Eval(Holding(env, data), op) == multiset{}
  {
    if HasEmpty(op) {
      PlainFragment(op);
      forall data ensures Eval(Holding(env, data), op) == multiset{} { HasEmptySound(Holding(env, data), op); }
    } else {
      var vars := Offered(Holding(env, Instances(op)), op, Instances(op));
    }
  }

  /** Filters and extensions pass emptiness on, and left joins that of their left operand. */
  lemma EmptinessPasses(op: Op, r: Op, cond: Option<Expr>, v: string, e: Expr)
    ensures HasEmpty(Filter(op, e)) == HasEmpty(Extend(op, v, e)) == HasEmpty(LeftJoin(op, r, cond)) == HasEmpty(op)
  {
  }
}
