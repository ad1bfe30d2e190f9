/** What the optimizer does to a tree, beyond keeping its solutions: every filter is tried where it stands. */
module FilterPushdownEffects {
  import opened Terms
  import opened Algebra
  import opened FilterPushdown
  import opened FilterPushdownRun
  import opened Places

  ghost predicate FilterFree(op: Op)
  {
    !op.Filter? && forall i :: 0 <= i < |Children(op)| ==> (ChildSmaller(op, i); FilterFree(Children(op)[i]))
  }

  ghost predicate OnlyFilter(op: Op, place: seq<nat>)
    decreases |place|
  {
    if place == [] then op.Filter? && FilterFree(op.input)
    else
      && !op.Filter? && place[0] < |Children(op)|
      && OnlyFilter(Children(op)[place[0]], place[1..])
      && forall i :: 0 <= i < |Children(op)| && i != place[0] ==> FilterFree(Children(op)[i])
  }

  // ----- one round -----

  lemma ChildrenFree(op: Op)
    requires FilterFree(op)
    ensures forall i :: 0 <= i < |Children(op)| ==> FilterFree(Children(op)[i])
  {
  }

  lemma {:induction false} NothingToPush(cfg: Config, op: Op)
    requires FilterFree(op)
    ensures PushRound(cfg, op) == (false, op)
    decreases op, 1
  {
    ChildrenFree(op);
    match op
    case Join(inputs) => assert Children(op) == inputs; NothingToPushEach(cfg, inputs);
    case Union(inputs) => assert Children(op) == inputs; NothingToPushEach(cfg, inputs);
    case Other(_, inputs) => assert Children(op) == inputs; NothingToPushEach(cfg, inputs);
    case LeftJoin(l, r, _) =>
      assert Children(op)[0] == l && Children(op)[1] == r;
      NothingToPush(cfg, l);
      NothingToPush(cfg, r);
    case Extend(input, _, _) => assert Children(op)[0] == input; NothingToPush(cfg, input);
    case Project(input, _) => assert Children(op)[0] == input; NothingToPush(cfg, input);
    case _ =>
  }

  lemma {:induction false} NothingToPushEach(cfg: Config, ops: seq<Op>)
    requires forall i :: 0 <= i < |ops| ==> FilterFree(ops[i])
    ensures PushRoundEach(cfg, ops) == (false, ops)
    decreases ops, 0
  {
    if ops != [] {
      NothingToPush(cfg, ops[0]);
      NothingToPushEach(cfg, ops[1..]);
      assert ops == [ops[0]] + ops[1..];
    }
  }

  lemma {:induction false} EachAt(cfg: Config, ops: seq<Op>, i: nat)
    requires i < |ops| && forall j :: 0 <= j < |ops| && j != i ==> FilterFree(ops[j])
    ensures PushRoundEach(cfg, ops) == (PushRound(cfg, ops[i]).0, ops[i := PushRound(cfg, ops[i]).1])
  {
    var op' := PushRound(cfg, ops[i]).1;
    if i == 0 {
      NothingToPushEach(cfg, ops[1..]);
      assert ops[i := op'] == [op'] + ops[1..];
    } else {
      NothingToPush(cfg, ops[0]);
      assert ops[1..][i - 1] == ops[i];
      EachAt(cfg, ops[1..], i - 1);
      assert ops[i := op'] == [ops[0]] + ops[1..][i - 1 := op'];
    }
  }

  lemma RoundAt(cfg: Config, op: Op, i: nat)
    requires !op.Filter? && i < |Children(op)|
    requires forall j :: 0 <= j < |Children(op)| && j != i ==> FilterFree(Children(op)[j])
    ensures PushRound(cfg, op).0 == PushRound(cfg, Children(op)[i]).0
    ensures PushRound(cfg, op).1 == WithChild(op, i, PushRound(cfg, Children(op)[i]).1)
  {
    match op
    case Join(inputs) => EachAt(cfg, inputs, i);
    case Union(inputs) => EachAt(cfg, inputs, i);
    case Other(_, inputs) => EachAt(cfg, inputs, i);
    case LeftJoin(l, r, _) => NothingToPush(cfg, Children(op)[1 - i]);
    case _ =>
  }

  /** The only filter of a tree, wherever it stands, is pushed there, and the rest of the tree stays as it is. */
  lemma {:induction false} FilterIsPushed(cfg: Config, op: Op, place: seq<nat>)
    requires OnlyFilter(op, place)
    ensures (var f := At(op, place);
             && f.Filter?
             && PushRound(cfg, op).1
                == if cfg.attempt(f.input, f.expr) then Put(op, place, Pushdown(cfg, f.expr, f.input).1) else op)
    ensures (var f := At(op, place);
             PushRound(cfg, op).0 <==> cfg.attempt(f.input, f.expr) && Pushdown(cfg, f.expr, f.input).0)
    decreases |place|
  {
    if place == [] {
      NothingToPush(cfg, op.input);
    } else {
      FilterIsPushed(cfg, Children(op)[place[0]], place[1..]);
      RoundAt(cfg, op, place[0]);
      assert WithChild(op, place[0], Children(op)[place[0]]) == op;
    }
  }

  // ----- when a round changes nothing -----

  ghost predicate Under(op: Op, sub: Op)
  {
    op == sub || exists i :: 0 <= i < |Children(op)| && (ChildSmaller(op, i); Under(Children(op)[i], sub))
  }

  /** The filter moves into what the round has made of its input. */
  predicate Moves(cfg: Config, f: Op)
    requires f.Filter?
  {
    var input := PushRound(cfg, f.input).1;
    cfg.attempt(input, f.expr) && Pushdown(cfg, f.expr, input).0
  }

  ghost predicate SomeMoves(cfg: Config, op: Op) { exists f: Op :: Under(op, f) && f.Filter? && Moves(cfg, f) }

  ghost predicate SomeMovesIn(cfg: Config, ops: seq<Op>) { exists i :: 0 <= i < |ops| && SomeMoves(cfg, ops[i]) }

  lemma SomeMovesBelow(cfg: Config, op: Op)
    ensures SomeMoves(cfg, op) <==> (op.Filter? && Moves(cfg, op)) || SomeMovesIn(cfg, Children(op))
  {
    if f: Op :| Under(op, f) && f.Filter? && Moves(cfg, f) {
      if f != op {
        var i :| 0 <= i < |Children(op)| && Under(Children(op)[i], f);
        assert SomeMoves(cfg, Children(op)[i]);
      }
    }
    if op.Filter? && Moves(cfg, op) { assert Under(op, op); }
    if i :| 0 <= i < |Children(op)| && SomeMoves(cfg, Children(op)[i]) {
      var f: Op :| Under(Children(op)[i], f) && f.Filter? && Moves(cfg, f);
      assert Under(op, f);
    }
  }

  /** A round reports a modification exactly if some filter of the tree moves. */
  lemma {:induction false} ReportsExactly(cfg: Config, op: Op)
    ensures PushRound(cfg, op).0 <==> SomeMoves(cfg, op)
    decreases op, 1
  {
    SomeMovesBelow(cfg, op);
    match op
    case Join(inputs) => ReportsEach(cfg, inputs);
    case Union(inputs) => ReportsEach(cfg, inputs);
    case Other(_, inputs) => ReportsEach(cfg, inputs);
    case LeftJoin(l, r, _) =>
      ReportsExactly(cfg, l);
      ReportsExactly(cfg, r);
      assert Children(op)[0] == l && Children(op)[1] == r;
    case Filter(input, _) => ReportsExactly(cfg, input); assert Children(op)[0] == input;
    case Extend(input, _, _) => ReportsExactly(cfg, input); assert Children(op)[0] == input;
    case Project(input, _) => ReportsExactly(cfg, input); assert Children(op)[0] == input;
    case _ =>
  }

  lemma {:induction false} ReportsEach(cfg: Config, ops: seq<Op>)
    ensures PushRoundEach(cfg, ops).0 <==> SomeMovesIn(cfg, ops)
    decreases ops, 0
  {
    if ops != [] {
      ReportsExactly(cfg, ops[0]);
      ReportsEach(cfg, ops[1..]);
      if i :| 0 <= i < |ops| && SomeMoves(cfg, ops[i]) { assert i == 0 || SomeMoves(cfg, ops[1..][i - 1]); }
      if i :| 0 <= i < |ops[1..]| && SomeMoves(cfg, ops[1..][i]) { assert SomeMoves(cfg, ops[i + 1]); }
    }
  }

  /** A run of the loop: rounds are made one after the other as long as some filter moves. */
  ghost predicate Rounds(cfg: Config, trees: seq<Op>) {
    && trees != []
    && (forall i :: 0 <= i < |trees| - 1 ==> trees[i + 1] == PushRound(cfg, trees[i]).1)
    && (forall i :: 0 <= i < |trees| - 2 ==> SomeMoves(cfg, trees[i]))
  }

  /** At most `n` rounds have been made, and fewer only if nothing has moved in the last one. */
  ghost predicate Finished(cfg: Config, trees: seq<Op>, n: nat) {
    0 < |trees| <= n + 1 && (|trees| <= n ==> |trees| > 1 && !SomeMoves(cfg, trees[|trees| - 2]))
  }

  lemma OneMoreRound(cfg: Config, op: Op, trees: seq<Op>, n: nat)
    requires Rounds(cfg, trees) && trees[0] == PushRound(cfg, op).1 && SomeMoves(cfg, op) && Finished(cfg, trees, n)
    ensures Rounds(cfg, [op] + trees) && Finished(cfg, [op] + trees, n + 1)
  {
    var longer := [op] + trees;
    if |longer| <= n + 1 { assert longer[|longer| - 2] == trees[|trees| - 2]; }
  }

  lemma LastRound(cfg: Config, op: Op, n: nat)
    requires !SomeMoves(cfg, op) && n > 0
    ensures Rounds(cfg, [op, PushRound(cfg, op).1]) && Finished(cfg, [op, PushRound(cfg, op).1], n)
  {
  }

  lemma RoundsUnfold(cfg: Config, op: Op, n: nat)
    requires n > 0
    ensures PushRounds(cfg, op, n)
            == if SomeMoves(cfg, op) then PushRounds(cfg, PushRound(cfg, op).1, n - 1) else PushRound(cfg, op).1
  {
    ReportsExactly(cfg, op);
  }

  /** The loop ends at its limit, or when nothing has moved. */
  lemma {:induction false} RoundsMade(cfg: Config, op: Op, n: nat) returns (trees: seq<Op>)
    ensures Rounds(cfg, trees) && trees[0] == op && trees[|trees| - 1] == PushRounds(cfg, op, n)
    ensures Finished(cfg, trees, n)
    decreases n
  {
    if n == 0 { return [op]; }
    RoundsUnfold(cfg, op, n);
    if SomeMoves(cfg, op) {
      var later := RoundsMade(cfg, PushRound(cfg, op).1, n - 1);
      OneMoreRound(cfg, op, later, n - 1);
      trees := [op] + later;
    } else {
      LastRound(cfg, op, n);
      trees := [op, PushRound(cfg, op).1];
    }
  }

  // ----- when a filter stays -----

  lemma {:induction false} KindsOfInputs(cfg: Config, vars: set<string>, ops: seq<Op>)
    ensures |Those(cfg, vars, ops, Fully)| + |Those(cfg, vars, ops, Partially)| + |Those(cfg, vars, ops, Not)| == |ops|
    ensures forall kind :: |Those(cfg, vars, ops, kind)| == |ops| ==> Those(cfg, vars, ops, kind) == ops
  {
    if ops != [] {
      KindsOfInputs(cfg, vars, ops[1..]);
      assert ops == [ops[0]] + ops[1..];
    }
  }

  /** An input is of one kind: all variables, some of several, or none. */
  lemma {:induction false} KindExactly(cfg: Config, vars: set<string>, ops: seq<Op>, op: Op)
    ensures op in Those(cfg, vars, ops, Fully) <==> op in ops && vars <= cfg.scope(op)
    ensures op in Those(cfg, vars, ops, Partially)
       <==> op in ops && vars * cfg.scope(op) != {} && !(vars <= cfg.scope(op))
    ensures op in Those(cfg, vars, ops, Not) <==> op in ops && vars != {} && vars * cfg.scope(op) == {}
  {
    if ops != [] {
      KindExactly(cfg, vars, ops[1..], op);
      assert ops == [ops[0]] + ops[1..];
    }
    if vars * cfg.scope(op) == {} && vars != {} {
      var v :| v in vars;
      assert v !in vars * cfg.scope(op);
    }
    if vars * cfg.scope(op) != {} { assert vars != {}; }
  }

  lemma {:induction false} PushedInputs(cfg: Config, e: Expr, ops: seq<Op>)
    ensures |PushIntoFully(cfg, e, ops)| == |Those(cfg, ExprVars(cfg, e), ops, Fully)|
  {
    if ops != [] { PushedInputs(cfg, e, ops[1..]); }
  }

  /** A join or union of at most one input, which has none of the variables. */
  predicate Lone(cfg: Config, e: Expr, op: Op) {
    (op.Join? || op.Union?) && |op.inputs| <= 1 && Those(cfg, ExprVars(cfg, e), op.inputs, Not) == op.inputs
  }

  lemma JoinStays(fully: seq<Op>, partially: seq<Op>, rest: seq<Op>, op: Op, e: Expr)
    requires op.Join? && |op.inputs| > 0 && (fully == [] ==> |partially| + |rest| == |op.inputs|)
    requires |partially| == |op.inputs| ==> partially == op.inputs
    requires |rest| == |op.inputs| ==> rest == op.inputs
    ensures (var (moved, result) := RebuildJoin(fully, partially, rest, e);
             !moved <==> result == Filter(op, e) || (fully == [] && |rest| == |op.inputs| <= 1))
  {
    if fully == [] && rest == [] { assert partially == op.inputs; }
    if fully == [] && partially == [] { assert rest == op.inputs; }
  }

  lemma UnionStays(fully: seq<Op>, partially: seq<Op>, rest: seq<Op>, op: Op, e: Expr)
    requires op.Union? && (fully == [] ==> |partially| + |rest| == |op.inputs|)
    requires |partially| == |op.inputs| ==> partially == op.inputs
    requires |rest| == |op.inputs| ==> rest == op.inputs
    ensures (var (moved, result) := RebuildUnion(fully, partially, rest, e);
             !moved <==> result == Filter(op, e) || (fully == [] && |rest| == |op.inputs| <= 1))
  {
    if fully == [] && rest == [] { assert partially == op.inputs; }
    if fully == [] && partially == [] { assert rest == op.inputs; }
  }

  lemma InputsStay(cfg: Config, e: Expr, op: Op)
    requires !IsFalse(e) && !e.Exists? && ((op.Join? && op.inputs != []) || op.Union?)
    ensures !Pushdown(cfg, e, op).0 <==> Pushdown(cfg, e, op).1 == Filter(op, e) || Lone(cfg, e, op)
  {
    var vars := ExprVars(cfg, e);
    KindsOfInputs(cfg, vars, op.inputs);
    PushedInputs(cfg, e, op.inputs);
    var f, p, n := PushIntoFully(cfg, e, op.inputs), Those(cfg, vars, op.inputs, Partially),
      Those(cfg, vars, op.inputs, Not);
    if op.Join? {
      JoinStays(f, p, n, op, e);
      assert Pushdown(cfg, e, op) == RebuildJoin(f, p, n, e);
    } else {
      UnionStays(f, p, n, op, e);
      assert Pushdown(cfg, e, op) == RebuildUnion(f, p, n, e);
    }
  }

  /** Success is not reported exactly if the filter stays on top of the operation (or has been dropped for the single
      input of a join or union). */
  lemma StaysExactly(cfg: Config, e: Expr, op: Op)
    requires !IsFalse(e) && !op.Filter?
    ensures !Pushdown(cfg, e, op).0 <==> Pushdown(cfg, e, op).1 == Filter(op, e) || (Lone(cfg, e, op) && !e.Exists?)
  {
    if !e.Exists? && ((op.Join? && op.inputs != []) || op.Union?) { InputsStay(cfg, e, op); }
  }

  function Innermost(op: Op): Op { if op.Filter? then Innermost(op.input) else op }

  /** Other filters do not count. */
  lemma {:induction false} FiltersPassed(cfg: Config, e: Expr, op: Op)
    requires !IsFalse(e) && !e.Exists?
    ensures Pushdown(cfg, e, op).0 == Pushdown(cfg, e, Innermost(op)).0
  {
    if op.Filter? { FiltersPassed(cfg, e, op.input); }
  }

  // ----- splitting -----

  predicate IsConjunction(e: Expr) { e.Call? && e.op == "&&" }

  /** No filter is a conjunction of conjunctions. */
  predicate Shallow(op: Op)
    decreases op, 1
  {
    match op
    case Filter(input, e) =>
      Shallow(input) && (IsConjunction(e) ==> forall i :: 0 <= i < |e.args| ==> !IsConjunction(e.args[i]))
    case Join(inputs) => ShallowEach(inputs)
    case Union(inputs) => ShallowEach(inputs)
    case Other(_, inputs) => ShallowEach(inputs)
    case LeftJoin(l, r, _) => Shallow(l) && Shallow(r)
    case Extend(input, _, _) => Shallow(input)
    case Project(input, _) => Shallow(input)
    case _ => true
  }

  predicate ShallowEach(ops: seq<Op>)
    decreases ops, 0
  {
    ops == [] || (Shallow(ops[0]) && ShallowEach(ops[1..]))
  }

  /** No filter is a conjunction. */
  predicate SplitUp(op: Op)
    decreases op, 1
  {
    match op
    case Filter(input, e) => SplitUp(input) && !IsConjunction(e)
    case Join(inputs) => SplitUpEach(inputs)
    case Union(inputs) => SplitUpEach(inputs)
    case Other(_, inputs) => SplitUpEach(inputs)
    case LeftJoin(l, r, _) => SplitUp(l) && SplitUp(r)
    case Extend(input, _, _) => SplitUp(input)
    case Project(input, _) => SplitUp(input)
    case _ => true
  }

  predicate SplitUpEach(ops: seq<Op>)
    decreases ops, 0
  {
    ops == [] || (SplitUp(ops[0]) && SplitUpEach(ops[1..]))
  }

  lemma {:induction false} NestSplitUp(input: Op, es: seq<Expr>)
    requires SplitUp(input) && forall i :: 0 <= i < |es| ==> !IsConjunction(es[i])
    ensures SplitUp(Nest(input, es))
    decreases |es|
  {
    if es != [] { NestSplitUp(Filter(input, es[0]), es[1..]); }
  }

  /** Splitting leaves no conjunction, wherever the filters stand. */
  lemma {:induction false} SplitsUp(op: Op)
    requires Shallow(op)
    ensures SplitUp(SplitAll(op))
    decreases op, 1
  {
    match op
    case Filter(input, e) =>
      SplitsUp(input);
      if IsConjunction(e) { NestSplitUp(SplitAll(input), e.args); }
    case Join(inputs) => SplitsUpEach(inputs);
    case Union(inputs) => SplitsUpEach(inputs);
    case Other(_, inputs) => SplitsUpEach(inputs);
    case LeftJoin(l, r, _) => SplitsUp(l); SplitsUp(r);
    case Extend(input, _, _) => SplitsUp(input);
    case Project(input, _) => SplitsUp(input);
    case _ =>
  }

  lemma {:induction false} SplitsUpEach(ops: seq<Op>)
    requires ShallowEach(ops)
    ensures SplitUpEach(SplitEach(ops))
    decreases ops, 0
  {
    if ops != [] {
      SplitsUp(ops[0]);
      SplitsUpEach(ops[1..]);
      assert SplitEach(ops)[1..] == SplitEach(ops[1..]);
    }
  }

  /** The passes that are switched on take place, in this order, and those that are not do not. */
  lemma PassesMade(cfg: Config, op: Op) returns (split: Op, trees: seq<Op>)
    requires cfg.splitConjunctive ==> Shallow(op)
    ensures if cfg.splitConjunctive then split == SplitAll(op) && SplitUp(split) else split == op
    ensures Rounds(cfg, trees) && trees[0] == split && Finished(cfg, trees, cfg.maxIterations)
    ensures Optimized(cfg, op) == if cfg.mergeConjunctive then MergeAll(trees[|trees| - 1]) else trees[|trees| - 1]
    ensures cfg.mergeConjunctive ==> Merged(Optimized(cfg, op))
  {
    split := if cfg.splitConjunctive then SplitAll(op) else op;
    if cfg.splitConjunctive { SplitsUp(op); }
    trees := RoundsMade(cfg, split, cfg.maxIterations);
    if cfg.mergeConjunctive { MergeMerges(trees[|trees| - 1]); }
  }

  // ----- which variables are seen -----

  /** The variable occurs outside of named functions, or is in scope of an EXISTS pattern. */
  ghost predicate Sees(cfg: Config, e: Expr, x: string) {
    match e
    case TermE(t) => t == Var(x)
    case Call(_, args) => exists i :: 0 <= i < |args| && Sees(cfg, args[i], x)
    case Named(_, _) => false
    case Exists(_, input) => x in cfg.scope(input)
  }

  lemma {:induction false} SeenExactly(cfg: Config, e: Expr, x: string)
    ensures x in ExprVars(cfg, e) <==> Sees(cfg, e, x)
    decreases e, 1
  {
    match e
    case Call(_, args) => SeenInArgs(cfg, args, x);
    case _ =>
  }

  lemma {:induction false} SeenInArgs(cfg: Config, args: seq<Expr>, x: string)
    ensures x in ExprVarsAll(cfg, args) <==> exists i :: 0 <= i < |args| && Sees(cfg, args[i], x)
    decreases args, 0
  {
    if args != [] {
      SeenExactly(cfg, args[0], x);
      SeenInArgs(cfg, args[1..], x);
      if i :| 0 <= i < |args| && Sees(cfg, args[i], x) { assert i == 0 || Sees(cfg, args[1..][i - 1], x); }
      if i :| 0 <= i < |args[1..]| && Sees(cfg, args[1..][i], x) { assert Sees(cfg, args[i + 1], x); }
    }
  }
}
