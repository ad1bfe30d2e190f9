/** Removing source-specific operations that are known to be empty. */
module PruneEmpty {
  import opened Terms
  import opened PathExprs
  import opened Bags
  import opened Products
  import opened Joins
  import opened Algebra
  import opened FilterPushdown

  /** The inputs of a union that can be asked for at their source. */
  predicate Askable(op: Op) { op.Pattern? && op.src.Some? }

  function Askables(inputs: seq<Op>): seq<Op> {
    if inputs == [] then []
    else
      Askables(inputs[..|inputs| - 1])
      + (if Askable(inputs[|inputs| - 1]) then [inputs[|inputs| - 1]] else [])
  }

  method CollectMultiOperationInputs(inputs: seq<Op>, before: seq<Op>) returns (collected: seq<Op>)
    ensures collected == before + Askables(inputs)
  {
    collected := before;
    for i := 0 to |inputs|
      invariant collected == before + Askables(inputs[..i])
    {
      assert inputs[..i + 1][..i] == inputs[..i];
      if inputs[i].Pattern? && inputs[i].src.Some? { collected := collected + [inputs[i]]; }
    }
    assert inputs[..|inputs|] == inputs;
  }

  /** All operations that are asked for: the askable inputs of every union in the tree. */
  function Collected(op: Op): set<Op>
    decreases op, 1
  {
    match op
    case Union(inputs) => (set i | i in Askables(inputs)) + CollectedAll(inputs)
    case Join(inputs) => CollectedAll(inputs)
    case Other(_, inputs) => CollectedAll(inputs)
    case LeftJoin(l, r, _) => Collected(l) + Collected(r)
    case Filter(input, _) => Collected(input)
    case Extend(input, _, _) => Collected(input)
    case Project(input, _) => Collected(input)
    case _ => {}
  }

  function CollectedAll(ops: seq<Op>): set<Op>
    decreases ops, 0
  {
    if ops == [] then {} else Collected(ops[0]) + CollectedAll(ops[1..])
  }

  /** Whether the operation is taken to have no solutions. Every operator but unions and left joins passes on the
      emptiness of any of its inputs. */
  predicate HasEmpty(op: Op)
    decreases op, 1
  {
    match op
    case Union(inputs) => forall i :: 0 <= i < |inputs| ==> HasEmpty(inputs[i])
    case LeftJoin(l, _, _) => HasEmpty(l)
    case Join(inputs) => AnyEmpty(inputs)
    case Other(_, inputs) => AnyEmpty(inputs)
    case Filter(input, _) => HasEmpty(input)
    case Extend(input, _, _) => HasEmpty(input)
    case Project(input, _) => HasEmpty(input)
    case _ => false
  }

  predicate AnyEmpty(ops: seq<Op>)
    decreases ops, 0
  {
    exists i :: 0 <= i < |ops| && HasEmpty(ops[i])
  }

  /** The inputs that stay; whether one goes is decided by what it was before its own rewriting. */
  function Staying(inputs: seq<Op>, originals: seq<Op>, empty: set<Op>): seq<Op>
    requires |inputs| == |originals|
  {
    var n := |inputs|;
    if n == 0 then []
    else
      Staying(inputs[..n - 1], originals[..n - 1], empty)
      + (if originals[n - 1] in empty then [] else [inputs[n - 1]])
  }

  function MapMulti(inputs: seq<Op>, originals: seq<Op>, empty: set<Op>): Op
    requires |inputs| == |originals|
  {
    var stay := Staying(inputs, originals, empty);
    if |stay| == |inputs| then Union(inputs) else if |stay| == 1 then stay[0] else CreateUnion(stay)
  }

  method MapMultiOperation(inputs: seq<Op>, originals: seq<Op>, empty: set<Op>) returns (r: Op)
    requires |inputs| == |originals|
    ensures r == MapMulti(inputs, originals, empty)
  {
    var nonEmptyInputs := [];
    for idx := 0 to |inputs|
      invariant nonEmptyInputs == Staying(inputs[..idx], originals[..idx], empty)
    {
      assert inputs[..idx + 1][..idx] == inputs[..idx] && originals[..idx + 1][..idx] == originals[..idx];
      if originals[idx] !in empty { nonEmptyInputs := nonEmptyInputs + [inputs[idx]]; }
    }
    assert inputs[..|inputs|] == inputs && originals[..|originals|] == originals;
    if |nonEmptyInputs| == |inputs| { return Union(inputs); }
    if |nonEmptyInputs| == 0 { return CreateUnion([]); }
    if |nonEmptyInputs| == 1 { return nonEmptyInputs[0]; }
    return CreateUnion(nonEmptyInputs);
  }

  function Prune(op: Op, empty: set<Op>): Op
    decreases op, 1
  {
    match op
    case Union(inputs) => MapMulti(PruneAll(inputs, empty), inputs, empty)
    case Project(input, vars) =>
      var pruned := Project(Prune(input, empty), vars);
      if HasEmpty(pruned) then CreateUnion([]) else pruned
    case LeftJoin(l, r, cond) =>
      if HasEmpty(Prune(r, empty)) then Prune(l, empty) else LeftJoin(Prune(l, empty), Prune(r, empty), cond)
    case Join(inputs) => Join(PruneAll(inputs, empty))
    case Other(kind, inputs) => Other(kind, PruneAll(inputs, empty))
    case Filter(input, e) => Filter(Prune(input, empty), e)
    case Extend(input, v, e) => Extend(Prune(input, empty), v, e)
    case _ => op
  }

  function PruneAll(ops: seq<Op>, empty: set<Op>): seq<Op>
    decreases ops, 0
  {
    seq(|ops|, i requires 0 <= i < |ops| => Prune(ops[i], empty))
  }

  /** The whole optimization: `hasResults` is the answer of the sources. */
  function Run(op: Op, hasResults: Op -> bool): Op {
    var empty := set c | c in Collected(op) && !hasResults(c);
    if empty == {} then op else Prune(op, empty)
  }

  // ----- meaning -----

  /** Joins, unions, left joins, filters, extensions and projections of patterns, values, and paths that contain no
      alternatives to prune; without EXISTS, whose operations would be pruned too. */
  predicate Fragment(op: Op)
    decreases op, 1
  {
    match op
    case Union(inputs) => FragmentAll(inputs)
    case Join(inputs) => FragmentAll(inputs)
    case Other(_, _) => false
    case PathOp(_, p, _, _) => NoAlternatives(p)
    case LeftJoin(l, r, cond) => (cond.Some? ==> ExistsFree(cond.value)) && Fragment(l) && Fragment(r)
    case Filter(input, e) => ExistsFree(e) && Fragment(input)
    case Extend(input, _, e) => ExistsFree(e) && Fragment(input)
    case Project(input, _) => Fragment(input)
    case _ => true
  }

  predicate FragmentAll(ops: seq<Op>)
    decreases ops, 0
  {
    forall i :: 0 <= i < |ops| ==> Fragment(ops[i])
  }

  lemma {:induction false} JoinWithEmpty(env: Env, ops: seq<Op>, i: nat)
    requires i < |ops| && Eval(env, ops[i]) == multiset{}
    ensures JoinOf(env, ops) == multiset{}
  {
    assert ops == [ops[0]] + ops[1..];
    OfCons(env, ops[0], ops[1..]);
    if i > 0 { JoinWithEmpty(env, ops[1..], i - 1); }
    JoinZero(Eval(env, ops[0]));
    JoinZero(JoinOf(env, ops[1..]));
  }

  lemma {:induction false} UnionOfEmpties(env: Env, ops: seq<Op>)
    requires forall i :: 0 <= i < |ops| ==> Eval(env, ops[i]) == multiset{}
    ensures UnionOf(env, ops) == multiset{}
  {
    if ops == [] {
      OfNone(env);
    } else {
      UnionOfEmpties(env, ops[1..]);
      assert ops == [ops[0]] + ops[1..];
      OfCons(env, ops[0], ops[1..]);
    }
  }

  /** On the fragment, what is taken to be empty is empty. */
  lemma {:induction false} HasEmptySound(env: Env, op: Op)
    requires Fragment(op) && HasEmpty(op)
    ensures Eval(env, op) == multiset{}
  {
    match op
    case Union(inputs) =>
      forall i | 0 <= i < |inputs| ensures Eval(env, inputs[i]) == multiset{} { HasEmptySound(env, inputs[i]); }
      UnionOfEmpties(env, inputs);
    case LeftJoin(l, r, cond) =>
      HasEmptySound(env, l);
      BindNone(OrBare(Eval(env, r), Merge, CondP(env, cond)));
    case Join(inputs) =>
      var i :| 0 <= i < |inputs| && HasEmpty(inputs[i]);
      HasEmptySound(env, inputs[i]);
      JoinWithEmpty(env, inputs, i);
    case Filter(input, e) => HasEmptySound(env, input); BindNone(Keep(SatP(env, e)));
    case Extend(input, v, e) => HasEmptySound(env, input); BindNone(ExtendRow(env, v, e));
    case Project(input, vars) => HasEmptySound(env, input); BindNone(ProjectRow(vars));
  }

  ghost predicate TrulyEmpty(env: Env, empty: set<Op>) {
    forall op :: op in empty ==> Eval(env, op) == multiset{}
  }

  lemma {:induction false} StayingUnion(env: Env, inputs: seq<Op>, originals: seq<Op>, empty: set<Op>)
    requires |inputs| == |originals| && TrulyEmpty(env, empty)
    requires forall i :: 0 <= i < |inputs| ==> Eval(env, inputs[i]) == Eval(env, originals[i])
    ensures UnionOf(env, Staying(inputs, originals, empty)) == UnionOf(env, inputs)
  {
    if |inputs| > 0 {
      var n := |inputs| - 1;
      StayingUnion(env, inputs[..n], originals[..n], empty);
      assert inputs == inputs[..n] + [inputs[n]];
      OfConcat(env, inputs[..n], [inputs[n]]);
      var before := Staying(inputs[..n], originals[..n], empty);
      OfConcat(env, before, [inputs[n]]);
      OfOne(env, inputs[n]);
      assert Staying(inputs, originals, empty) == if originals[n] in empty then before else before + [inputs[n]];
    }
  }

  lemma MapMultiSound(env: Env, inputs: seq<Op>, originals: seq<Op>, empty: set<Op>)
    requires |inputs| == |originals| && TrulyEmpty(env, empty)
    requires forall i :: 0 <= i < |inputs| ==> Eval(env, inputs[i]) == Eval(env, originals[i])
    ensures Eval(env, MapMulti(inputs, originals, empty)) == UnionOf(env, inputs)
  {
    StayingUnion(env, inputs, originals, empty);
    OneOrMany(env, Staying(inputs, originals, empty));
  }

  lemma LeftJoinNothing(m: Bag, cond: Mapping -> bool)
    ensures LeftJoinBag(m, multiset{}, cond) == m
  {
    forall a | a in m
      ensures OrBare(multiset{}, Merge, cond)(a) == multiset{a}
    {
      if c :| c in Fits(a, multiset{}, Merge, cond) { FitsIn(a, multiset{}, Merge, cond, c); }
    }
    BindUnit(m, OrBare(multiset{}, Merge, cond));
  }

  lemma EmptyUnion(env: Env)
    ensures Eval(env, CreateUnion([])) == multiset{}
  {
    OfNone(env);
    assert FlattenUnion([]) == [];
  }

  lemma {:induction false} StaysInFragment(op: Op, empty: set<Op>)
    requires Fragment(op)
    ensures Fragment(Prune(op, empty))
  {
    match op
    case Union(inputs) =>
      forall i | 0 <= i < |inputs| ensures Fragment(PruneAll(inputs, empty)[i]) { StaysInFragment(inputs[i], empty); }
      StayingFragment(PruneAll(inputs, empty), inputs, empty);
    case Join(inputs) =>
      forall i | 0 <= i < |inputs| ensures Fragment(PruneAll(inputs, empty)[i]) { StaysInFragment(inputs[i], empty); }
    case LeftJoin(l, r, _) => StaysInFragment(l, empty); StaysInFragment(r, empty);
    case Filter(input, _) => StaysInFragment(input, empty);
    case Extend(input, _, _) => StaysInFragment(input, empty);
    case Project(input, _) => StaysInFragment(input, empty);
    case _ =>
  }

  lemma {:induction false} FlattenFragment(ops: seq<Op>)
    requires FragmentAll(ops)
    ensures FragmentAll(FlattenUnion(ops))
  {
    if ops != [] {
      assert Fragment(ops[0]);
      FlattenFragment(ops[1..]);
      assert FragmentAll(if ops[0].Union? then ops[0].inputs else [ops[0]]);
    }
  }

  lemma {:induction false} StayingFragment(inputs: seq<Op>, originals: seq<Op>, empty: set<Op>)
    requires |inputs| == |originals| && FragmentAll(inputs)
    ensures Fragment(MapMulti(inputs, originals, empty)) && FragmentAll(Staying(inputs, originals, empty))
  {
    if |inputs| > 0 { StayingFragment(inputs[..|inputs| - 1], originals[..|inputs| - 1], empty); }
    FlattenFragment(Staying(inputs, originals, empty));
  }

  lemma {:induction false} PruneSound(env: Env, op: Op, empty: set<Op>)
    requires Fragment(op) && TrulyEmpty(env, empty)
    ensures Eval(env, Prune(op, empty)) == Eval(env, op)
    decreases op, 1
  {
    match op
    case Union(inputs) =>
      PruneAllSound(env, inputs, empty);
      MapMultiSound(env, PruneAll(inputs, empty), inputs, empty);
    case Project(input, vars) =>
      PruneSound(env, input, empty);
      StaysInFragment(input, empty);
      if HasEmpty(Project(Prune(input, empty), vars)) {
        HasEmptySound(env, Project(Prune(input, empty), vars));
        EmptyUnion(env);
      }
    case LeftJoin(l, r, cond) =>
      PruneSound(env, l, empty);
      PruneSound(env, r, empty);
      if HasEmpty(Prune(r, empty)) {
        StaysInFragment(r, empty);
        HasEmptySound(env, Prune(r, empty));
        LeftJoinNothing(Eval(env, l), CondP(env, cond));
      }
    case Join(inputs) => PruneAllSound(env, inputs, empty);
    case Filter(input, _) => PruneSound(env, input, empty);
    case Extend(input, _, _) => PruneSound(env, input, empty);
    case _ =>
  }

  lemma {:induction false} PruneAllSound(env: Env, ops: seq<Op>, empty: set<Op>)
    requires FragmentAll(ops) && TrulyEmpty(env, empty)
    ensures EvalAll(env, PruneAll(ops, empty)) == EvalAll(env, ops)
    ensures forall i :: 0 <= i < |ops| ==> Eval(env, PruneAll(ops, empty)[i]) == Eval(env, ops[i])
    decreases ops, 0
  {
    forall i | 0 <= i < |ops| ensures Eval(env, PruneAll(ops, empty)[i]) == Eval(env, ops[i]) {
      PruneSound(env, ops[i], empty);
    }
  }

  // ----- what is gone -----

  /** Exactly the marked inputs of a union go. */
  lemma {:induction false} MarkedGo(inputs: seq<Op>, empty: set<Op>, op: Op)
    ensures multiset(Staying(inputs, inputs, empty))[op] == if op in empty then 0 else multiset(inputs)[op]
  {
    if inputs != [] {
      var front, last := inputs[..|inputs| - 1], inputs[|inputs| - 1];
      MarkedGo(front, empty, op);
      assert inputs == front + [last];
    }
  }

  /** No projection is left over something taken to be empty, and no left join with such a right operand. */
  predicate Clean(op: Op)
    decreases op, 1
  {
    match op
    case Project(input, _) => Clean(input) && !HasEmpty(input)
    case LeftJoin(l, r, _) => Clean(l) && Clean(r) && !HasEmpty(r)
    case Union(inputs) => CleanAll(inputs)
    case Join(inputs) => CleanAll(inputs)
    case Other(_, inputs) => CleanAll(inputs)
    case Filter(input, _) => Clean(input)
    case Extend(input, _, _) => Clean(input)
    case _ => true
  }

  predicate CleanAll(ops: seq<Op>)
    decreases ops, 0
  {
    forall i :: 0 <= i < |ops| ==> Clean(ops[i])
  }

  lemma {:induction false} MapMultiClean(inputs: seq<Op>, originals: seq<Op>, empty: set<Op>)
    requires |inputs| == |originals| && CleanAll(inputs)
    ensures Clean(MapMulti(inputs, originals, empty)) && CleanAll(Staying(inputs, originals, empty))
  {
    if |inputs| > 0 { MapMultiClean(inputs[..|inputs| - 1], originals[..|inputs| - 1], empty); }
    FlattenClean(Staying(inputs, originals, empty));
  }

  lemma {:induction false} FlattenClean(ops: seq<Op>)
    requires CleanAll(ops)
    ensures Clean(CreateUnion(ops))
  {
    if ops != [] {
      assert Clean(ops[0]);
      FlattenClean(ops[1..]);
      assert CleanAll(if ops[0].Union? then ops[0].inputs else [ops[0]]);
    }
  }

  lemma {:induction false} PruneCleans(op: Op, empty: set<Op>)
    ensures Clean(Prune(op, empty))
    decreases op, 1
  {
    match op
    case Union(inputs) => PruneAllCleans(inputs, empty); MapMultiClean(PruneAll(inputs, empty), inputs, empty);
    case Project(input, vars) => PruneCleans(input, empty); assert FlattenUnion([]) == [];
    case LeftJoin(l, r, _) => PruneCleans(l, empty); PruneCleans(r, empty);
    case Join(inputs) => PruneAllCleans(inputs, empty);
    case Other(_, inputs) => PruneAllCleans(inputs, empty);
    case Filter(input, _) => PruneCleans(input, empty);
    case Extend(input, _, _) => PruneCleans(input, empty);
    case _ =>
  }

  lemma {:induction false} PruneAllCleans(ops: seq<Op>, empty: set<Op>)
    ensures CleanAll(PruneAll(ops, empty))
    decreases ops, 0
  {
    forall i | 0 <= i < |ops| ensures Clean(PruneAll(ops, empty)[i]) { PruneCleans(ops[i], empty); }
  }

  /** If a source that reports no results for an operation has none, pruning keeps the solution multiset. */
  lemma RunSound(env: Env, op: Op, hasResults: Op -> bool)
    requires Fragment(op) && forall c :: c in Collected(op) && !hasResults(c) ==> Eval(env, c) == multiset{}
    ensures Eval(env, Run(op, hasResults)) == Eval(env, op)
  {
    PruneSound(env, op, set c | c in Collected(op) && !hasResults(c));
  }

  // ----- MINUS -----

  /** MINUS of section 18.5: a solution goes if some compatible solution of the right operand shares a variable with
      it. */
  ghost function MinusBag(m: Bag, n: Bag): Bag {
    Select(m, Unshared(n))
  }

  ghost function Unshared(n: Bag): Mapping -> bool {
    a => forall b :: b in n ==> !Compatible(a, b) || a.Keys * b.Keys == {}
  }

  ghost predicate MeansMinus(env: Env) {
    forall m, n :: env.other("minus", [m, n]) == MinusBag(m, n)
  }

  lemma MinusNothing(env: Env, l: Op, r: Op)
    requires MeansMinus(env) && Eval(env, r) == multiset{}
    ensures Eval(env, Other("minus", [l, r])) == Eval(env, l)
  {
    assert EvalAll(env, [l, r]) == [Eval(env, l), Eval(env, r)];
    SelectAll(Eval(env, l), Unshared(multiset{}));
  }

  lemma ProjectNothing(b: Bag, vars: set<string>)
    ensures Bind(b, ProjectRow(vars)) == multiset{} <==> b == multiset{}
  {
    if m :| m in b {
      assert Restrict(m, vars) in ProjectRow(vars)(m);
      BindIn(b, ProjectRow(vars), Restrict(m, vars));
    } else {
      assert b == multiset{};
      BindNone(ProjectRow(vars));
    }
  }

  /** MINUS passes on the emptiness of its right operand like any other operator, although it then removes nothing: the
      projection over it is pruned away, which is right exactly if the left operand has no solutions. */
  lemma MinusExactly(env: Env, l: Op, r: Op, vars: set<string>, empty: set<Op>)
    requires MeansMinus(env) && Fragment(r) && TrulyEmpty(env, empty) && HasEmpty(Prune(r, empty))
    ensures (var op := Project(Other("minus", [l, r]), vars);
             Eval(env, Prune(op, empty)) == Eval(env, op) <==> Eval(env, l) == multiset{})
  {
    var op := Other("minus", [l, r]);
    var pruned := Other("minus", PruneAll([l, r], empty));
    assert HasEmpty(pruned.inputs[1]);
    assert HasEmpty(Project(pruned, vars));
    EmptyUnion(env);
    PruneSound(env, r, empty);
    StaysInFragment(r, empty);
    HasEmptySound(env, Prune(r, empty));
    MinusNothing(env, l, r);
    ProjectNothing(Eval(env, l), vars);
  }
}
