/** Moving the condition of an OPTIONAL into its right operand. */
module LeftJoinPushdown {
  import opened Terms
  import opened Bags
  import opened Products
  import opened Joins
  import opened JoinGroups
  import opened Algebra
  import opened FilterPushdown
  import opened FilterPushdownProof
  import opened FilterPushdownGaps

  predicate Pushable(cfg: Config, l: Op, r: Op, e: Expr) {
    ExprVars(cfg, e) * cfg.scope(l) == {} && ExprVars(cfg, e) * cfg.scope(r) != {}
  }

  function PushCondition(cfg: Config, l: Op, r: Op, cond: Option<Expr>): Op {
    if cond.Some? && Pushable(cfg, l, r, cond.value) then LeftJoin(l, Filter(r, cond.value), None)
    else LeftJoin(l, r, cond)
  }

  /** The tree map of the optimizer: children first. */
  function Rewrite(cfg: Config, op: Op): Op
    decreases op, 1
  {
    match op
    case Join(inputs) => Join(RewriteAll(cfg, inputs))
    case Union(inputs) => Union(RewriteAll(cfg, inputs))
    case LeftJoin(l, r, cond) => PushCondition(cfg, Rewrite(cfg, l), Rewrite(cfg, r), cond)
    case Filter(input, e) => Filter(Rewrite(cfg, input), e)
    case Extend(input, v, e) => Extend(Rewrite(cfg, input), v, e)
    case Project(input, vars) => Project(Rewrite(cfg, input), vars)
    case Other(kind, inputs) => Other(kind, RewriteAll(cfg, inputs))
    case _ => op
  }

  function RewriteAll(cfg: Config, ops: seq<Op>): seq<Op>
    decreases ops, 0
  {
    seq(|ops|, i requires 0 <= i < |ops| => Rewrite(cfg, ops[i]))
  }

  /** Where a left join is left with a condition, and where it is not: the condition moves exactly if none of the
      variables seen in it is in scope on the left and some variable is in scope on the right. */
  lemma MovesWhenSeen(cfg: Config, l: Op, r: Op, cond: Expr)
    ensures PushCondition(cfg, l, r, None) == LeftJoin(l, r, None)
    ensures PushCondition(cfg, l, r, Some(cond))
         == if (forall x :: x in ExprVars(cfg, cond) ==> x !in cfg.scope(l))
               && (exists x :: x in ExprVars(cfg, cond) && x in cfg.scope(r))
            then LeftJoin(l, Filter(r, cond), None)
            else LeftJoin(l, r, Some(cond))
  {
    var seen := ExprVars(cfg, cond);
    if x :| x in seen * cfg.scope(l) { assert x in seen && x in cfg.scope(l); }
    if x :| x in seen * cfg.scope(r) { assert x in seen && x in cfg.scope(r); }
    if x :| x in seen && x in cfg.scope(l) { assert x in seen * cfg.scope(l); }
    if x :| x in seen && x in cfg.scope(r) { assert x in seen * cfg.scope(r); }
  }

  // ----- exactly when the move is right -----

  ghost function Always(): Mapping -> bool { m => true }

  /** Moving the condition to the right operand keeps the left join of all operands with these scopes. */
  ghost predicate AlwaysMoves(left: set<string>, right: set<string>, cond: Mapping -> bool) {
    forall m, n :: Within(m, left) && Within(n, right) ==> Moves(m, n, cond)
  }

  ghost predicate Moves(m: Bag, n: Bag, cond: Mapping -> bool) {
    LeftJoinBag(m, n, cond) == LeftJoinBag(m, Select(n, cond), Always())
  }

  /** The right-hand solution alone decides the condition. */
  ghost predicate DecidedRight(left: set<string>, right: set<string>, cond: Mapping -> bool) {
    forall a: Mapping, b: Mapping :: a.Keys <= left && b.Keys <= right && Compatible(a, b) ==> cond(a + b) == cond(b)
  }

  lemma DecidedMoves(left: set<string>, right: set<string>, cond: Mapping -> bool, m: Bag, n: Bag)
    requires DecidedRight(left, right, cond) && Within(m, left) && Within(n, right)
    ensures Moves(m, n, cond)
  {
    forall a, b, c | a in m && b in n && c in Merge(a, b) ensures cond(c) == cond(b) {}
    LeftProductRight(m, n, Merge, cond, Always());
  }

  lemma TwiceSelected(b: Mapping, cond: Mapping -> bool)
    ensures Select(multiset{b, b}, cond) == if cond(b) then multiset{b, b} else multiset{}
  {
    PickFree(multiset{b, b}, Keep(cond), b);
    BindOne(b, Keep(cond));
    assert multiset{b, b} - multiset{b} == multiset{b};
  }

  /** One left-hand solution and a right-hand one that occurs twice: the pairs that fit, or the left-hand one alone. */
  lemma TwiceBound(b: Mapping, f: Mapping -> Bag, c: Mapping)
    requires f(b) == multiset{c}
    ensures Bind(multiset{b, b}, f) == multiset{c, c}
  {
    PickFree(multiset{b, b}, f, b);
    BindOne(b, f);
    assert multiset{b, b} - multiset{b} == multiset{b};
  }

  lemma TwiceJoined(a: Mapping, b: Mapping, cond: Mapping -> bool)
    requires Compatible(a, b)
    ensures LeftJoinBag(multiset{a}, multiset{b, b}, cond)
         == if cond(a + b) then multiset{a + b, a + b} else multiset{a}
  {
    var n, c := multiset{b, b}, a + b;
    assert Right(Merge, a)(b) == Merge(a, b) == multiset{c};
    TwiceBound(b, Right(Merge, a), c);
    TwiceSelected(c, cond);
    assert Fits(a, n, Merge, cond) == if cond(c) then multiset{c, c} else multiset{};
    BindOne(a, OrBare(n, Merge, cond));
  }

  lemma RowStaysBare(cond: Mapping -> bool, a: Mapping)
    ensures LeftJoinBag(multiset{a}, multiset{}, cond) == multiset{a}
  {
    BindOne(a, OrBare(multiset{}, Merge, cond));
    BindNone(Right(Merge, a));
    BindNone(Keep(cond));
  }

  lemma UndecidedStays(a: Mapping, b: Mapping, cond: Mapping -> bool)
    requires Compatible(a, b) && cond(a + b) != cond(b)
    ensures !Moves(multiset{a}, multiset{b, b}, cond)
  {
    TwiceJoined(a, b, cond);
    TwiceJoined(a, b, Always());
    TwiceSelected(b, cond);
    RowStaysBare(Always(), a);
    assert |multiset{a + b, a + b}| == 2 && |multiset{a}| == 1;
  }

  /** The move is right for all operands with these scopes exactly if the right-hand solution always decides the
      condition. */
  lemma MoveExactly(left: set<string>, right: set<string>, cond: Mapping -> bool)
    ensures AlwaysMoves(left, right, cond) <==> DecidedRight(left, right, cond)
  {
    if DecidedRight(left, right, cond) {
      forall m, n | Within(m, left) && Within(n, right) ensures Moves(m, n, cond) {
        DecidedMoves(left, right, cond, m, n);
      }
    } else {
      var a: Mapping, b: Mapping :| a.Keys <= left && b.Keys <= right && Compatible(a, b) && cond(a + b) != cond(b);
      UndecidedStays(a, b, cond);
      assert Within(multiset{a}, left) && Within(multiset{b, b}, right);
    }
  }

  /** In particular a condition decides itself on the right if it reads nothing in scope on the left. */
  predicate Apart(left: set<string>, e: Expr) { ExistsFree(e) && Reads(e) * left == {} }

  lemma ApartDecided(env: Env, left: set<string>, right: set<string>, e: Expr)
    requires Apart(left, e)
    ensures DecidedRight(left, right, SatP(env, e))
  {
    SatReads(env, e, Reads(e));
    forall a: Mapping, b: Mapping | a.Keys <= left && b.Keys <= right && Compatible(a, b)
      ensures SatP(env, e)(a + b) == SatP(env, e)(b)
    {
      forall x | x in Reads(e) ensures x !in a { assert x !in Reads(e) * left; }
      assert Agree(a + b, b, Reads(e));
    }
  }

  // ----- the optimizer -----

  lemma LeftJoinEval(env: Env, l: Op, r: Op, cond: Option<Expr>)
    ensures Eval(env, LeftJoin(l, r, cond)) == LeftJoinBag(Eval(env, l), Eval(env, r), CondP(env, cond))
  {
  }

  lemma MovedEval(env: Env, l: Op, r: Op, e: Expr)
    ensures Eval(env, LeftJoin(l, Filter(r, e), None))
            == LeftJoinBag(Eval(env, l), Select(Eval(env, r), SatP(env, e)), Always())
  {
    LeftJoinEval(env, l, Filter(r, e), None);
    LeftJoinSame(Eval(env, l), Select(Eval(env, r), SatP(env, e)), Always(), CondP(env, None));
  }

  lemma PushConditionSound(env: Env, cfg: Config, l: Op, r: Op, cond: Option<Expr>)
    requires ScopeSound(env, cfg)
    requires cond.Some? && Pushable(cfg, l, r, cond.value)
       ==> DecidedRight(cfg.scope(l), cfg.scope(r), SatP(env, cond.value))
    ensures Eval(env, PushCondition(cfg, l, r, cond)) == Eval(env, LeftJoin(l, r, cond))
  {
    if cond.Some? && Pushable(cfg, l, r, cond.value) {
      assert ScopedAt(env, cfg, l) && ScopedAt(env, cfg, r);
      DecidedMoves(cfg.scope(l), cfg.scope(r), SatP(env, cond.value), Eval(env, l), Eval(env, r));
      LeftJoinEval(env, l, r, cond);
      MovedEval(env, l, r, cond.value);
    }
  }

  lemma LeftJoinSame(m: Bag, n: Bag, cond: Mapping -> bool, cond': Mapping -> bool)
    requires forall c :: cond(c) == cond'(c)
    ensures LeftJoinBag(m, n, cond) == LeftJoinBag(m, n, cond')
  {
    forall a ensures OrBare(n, Merge, cond)(a) == OrBare(n, Merge, cond')(a) {
      SelectExt(Bind(n, Right(Merge, a)), cond, cond');
    }
    BindExt(m, OrBare(n, Merge, cond), OrBare(n, Merge, cond'));
  }

  /** Every condition that is moved reads nothing in scope on the left. */
  predicate ConditionsApart(cfg: Config, op: Op)
    decreases op, 1
  {
    match op
    case Join(inputs) => ConditionsApartAll(cfg, inputs)
    case Union(inputs) => ConditionsApartAll(cfg, inputs)
    case Other(_, inputs) => ConditionsApartAll(cfg, inputs)
    case LeftJoin(l, r, cond) =>
      && ConditionsApart(cfg, l) && ConditionsApart(cfg, r)
      && (cond.Some? && Pushable(cfg, Rewrite(cfg, l), Rewrite(cfg, r), cond.value)
          ==> Apart(cfg.scope(Rewrite(cfg, l)), cond.value))
    case Filter(input, _) => ConditionsApart(cfg, input)
    case Extend(input, _, _) => ConditionsApart(cfg, input)
    case Project(input, _) => ConditionsApart(cfg, input)
    case _ => true
  }

  predicate ConditionsApartAll(cfg: Config, ops: seq<Op>)
    decreases ops, 0
  {
    forall i :: 0 <= i < |ops| ==> ConditionsApart(cfg, ops[i])
  }

  lemma ApartPushed(env: Env, cfg: Config, l: Op, r: Op, cond: Option<Expr>)
    requires ScopeSound(env, cfg)
    requires cond.Some? && Pushable(cfg, l, r, cond.value) ==> Apart(cfg.scope(l), cond.value)
    ensures Eval(env, PushCondition(cfg, l, r, cond)) == Eval(env, LeftJoin(l, r, cond))
  {
    if cond.Some? && Pushable(cfg, l, r, cond.value) { ApartDecided(env, cfg.scope(l), cfg.scope(r), cond.value); }
    PushConditionSound(env, cfg, l, r, cond);
  }

  /** The rewriting keeps the solution multiset, for arbitrary partial solutions anywhere in the tree. */
  lemma {:induction false} RewriteSound(env: Env, cfg: Config, op: Op)
    requires ScopeSound(env, cfg) && NoExists(op) && ConditionsApart(cfg, op)
    ensures Eval(env, Rewrite(cfg, op)) == Eval(env, op)
    decreases op, 1
  {
    match op
    case Join(inputs) => RewriteAllSound(env, cfg, inputs);
    case Union(inputs) => RewriteAllSound(env, cfg, inputs);
    case Other(_, inputs) => RewriteAllSound(env, cfg, inputs);
    case LeftJoin(l, r, cond) =>
      RewriteSound(env, cfg, l);
      RewriteSound(env, cfg, r);
      ApartPushed(env, cfg, Rewrite(cfg, l), Rewrite(cfg, r), cond);
    case Filter(input, _) => RewriteSound(env, cfg, input);
    case Extend(input, _, _) => RewriteSound(env, cfg, input);
    case Project(input, _) => RewriteSound(env, cfg, input);
    case _ =>
  }

  lemma {:induction false} RewriteAllSound(env: Env, cfg: Config, ops: seq<Op>)
    requires ScopeSound(env, cfg) && NoExistsEach(ops) && ConditionsApartAll(cfg, ops)
    ensures EvalAll(env, RewriteAll(cfg, ops)) == EvalAll(env, ops)
    decreases ops, 0
  {
    forall i | 0 <= i < |ops| ensures Eval(env, RewriteAll(cfg, ops)[i]) == Eval(env, ops[i]) {
      RewriteSound(env, cfg, ops[i]);
    }
  }

  /** No left join keeps a condition that could have been moved. */
  predicate Settled(cfg: Config, op: Op)
    decreases op, 1
  {
    match op
    case LeftJoin(l, r, cond) => Settled(cfg, l) && Settled(cfg, r) && (cond.Some? ==> !Pushable(cfg, l, r, cond.value))
    case Join(inputs) => SettledAll(cfg, inputs)
    case Union(inputs) => SettledAll(cfg, inputs)
    case Other(_, inputs) => SettledAll(cfg, inputs)
    case Filter(input, _) => Settled(cfg, input)
    case Extend(input, _, _) => Settled(cfg, input)
    case Project(input, _) => Settled(cfg, input)
    case _ => true
  }

  predicate SettledAll(cfg: Config, ops: seq<Op>)
    decreases ops, 0
  {
    forall i :: 0 <= i < |ops| ==> Settled(cfg, ops[i])
  }

  lemma {:induction false} RewriteSettles(cfg: Config, op: Op)
    ensures Settled(cfg, Rewrite(cfg, op))
    decreases op, 1
  {
    match op
    case LeftJoin(l, r, _) => RewriteSettles(cfg, l); RewriteSettles(cfg, r);
    case Join(inputs) => RewriteAllSettles(cfg, inputs);
    case Union(inputs) => RewriteAllSettles(cfg, inputs);
    case Other(_, inputs) => RewriteAllSettles(cfg, inputs);
    case Filter(input, _) => RewriteSettles(cfg, input);
    case Extend(input, _, _) => RewriteSettles(cfg, input);
    case Project(input, _) => RewriteSettles(cfg, input);
    case _ =>
  }

  lemma {:induction false} RewriteAllSettles(cfg: Config, ops: seq<Op>)
    ensures SettledAll(cfg, RewriteAll(cfg, ops))
    decreases ops, 0
  {
    forall i | 0 <= i < |ops| ensures Settled(cfg, RewriteAll(cfg, ops)[i]) { RewriteSettles(cfg, ops[i]); }
  }

  // ----- the condition is needed -----

  /** A named function that returns its argument. */
  ghost function Identity(): Env {
    Plainest({}).(named := (f, args) => if |args| == 1 then args[0] else Err)
  }

  const L_ROW: Mapping := map["l" := A]
  const R_ROW: Mapping := map["r" := A]
  const R_IS_L := Call("=", [TermE(Var("r")), Named("urn:id", [TermE(Var("l"))])])

  lemma RIsL(m: Mapping)
    ensures Sat(Identity(), R_IS_L, m) <==> "l" in m && "r" in m && m["l"] == m["r"]
    ensures ExprVars(Standard(), R_IS_L) == {"r"}
  {
    var env, args, inner := Identity(), R_IS_L.args, [TermE(Var("l"))];
    assert args[1..] == [args[1]] && args[1..][1..] == [] && inner[1..] == [];
    assert EvalArgs(env, inner, m) == [EvalE(env, inner[0], m)] + EvalArgs(env, [], m);
    assert EvalArgs(env, args[1..], m) == [EvalE(env, args[1], m)] + EvalArgs(env, [], m);
    assert EvalArgs(env, args, m) == [EvalE(env, args[0], m)] + EvalArgs(env, args[1..], m);
    assert Bool(true) != Bool(false);
    assert ExprVarsAll(Standard(), args[1..]) == {} + ExprVarsAll(Standard(), []);
    assert ExprVarsAll(Standard(), args) == {"r"} + ExprVarsAll(Standard(), args[1..]);
  }

  lemma OnceJoined(a: Mapping, b: Mapping, cond: Mapping -> bool)
    requires Compatible(a, b) && cond(a + b)
    ensures LeftJoinBag(multiset{a}, multiset{b}, cond) == multiset{a + b}
  {
    BindOne(b, Right(Merge, a));
    assert Bind(multiset{b}, Right(Merge, a)) == Merge(a, b) == multiset{a + b};
    BindOne(a + b, Keep(cond));
    assert Fits(a, multiset{b}, Merge, cond) == multiset{a + b};
    BindOne(a, OrBare(multiset{b}, Merge, cond));
  }

  lemma RightAlone(env: Env)
    requires env == Identity()
    ensures SatP(env, R_IS_L)(L_ROW + R_ROW) && !SatP(env, R_IS_L)(R_ROW)
    ensures Compatible(L_ROW, R_ROW) && !DecidedRight({"l"}, {"r"}, SatP(env, R_IS_L))
  {
    RIsL(L_ROW + R_ROW);
    RIsL(R_ROW);
    assert L_ROW.Keys <= {"l"} && R_ROW.Keys <= {"r"} && Compatible(L_ROW, R_ROW);
  }

  lemma RowsJoined(env: Env, a: Mapping, b: Mapping, e: Expr)
    requires Compatible(a, b) && SatP(env, e)(a + b)
    ensures Eval(env, LeftJoin(OneRow(a), OneRow(b), Some(e))) == multiset{a + b}
  {
    OneRowEval(env, a);
    OneRowEval(env, b);
    LeftJoinEval(env, OneRow(a), OneRow(b), Some(e));
    OnceJoined(a, b, SatP(env, e));
  }

  lemma RowAlone(env: Env, a: Mapping, b: Mapping, e: Expr)
    requires !SatP(env, e)(b)
    ensures Eval(env, LeftJoin(OneRow(a), Filter(OneRow(b), e), None)) == multiset{a}
  {
    OneRowEval(env, a);
    OneRowEval(env, b);
    BindOne(b, Keep(SatP(env, e)));
    LeftJoinEval(env, OneRow(a), Filter(OneRow(b), e), None);
    RowStaysBare(CondP(env, None), a);
  }

  /** A variable inside a named function is not seen: the condition moves away from the operand that binds it,
      although the right-hand solution does not decide it, and the optional row is lost. */
  lemma NamedConditionWrong()
    ensures (var env, l, r := Identity(), OneRow(L_ROW), OneRow(R_ROW);
             && Pushable(Standard(), l, r, R_IS_L)
             && !DecidedRight({"l"}, {"r"}, SatP(env, R_IS_L))
             && Eval(env, LeftJoin(l, r, Some(R_IS_L))) == multiset{L_ROW + R_ROW}
             && Eval(env, PushCondition(Standard(), l, r, Some(R_IS_L))) == multiset{L_ROW})
  {
    var env, cfg, l, r := Identity(), Standard(), OneRow(L_ROW), OneRow(R_ROW);
    OneRowEval(env, L_ROW);
    OneRowEval(env, R_ROW);
    RIsL(map[]);
    RightAlone(env);
    assert "r" in ExprVars(cfg, R_IS_L) * cfg.scope(r);
    RowsJoined(env, L_ROW, R_ROW, R_IS_L);
    RowAlone(env, L_ROW, R_ROW, R_IS_L);
  }
}
