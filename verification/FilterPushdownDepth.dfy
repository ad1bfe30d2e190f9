/** A pushed filter comes to rest only where it cannot pass. */
module FilterPushdownDepth {
  import opened Terms
  import opened Algebra
  import opened FilterPushdown

  /** No filter of the tree is `e`. */
  predicate FreeOf(e: Expr, op: Op)
    decreases op, 1
  {
    match op
    case Filter(input, f) => f != e && FreeOf(e, input)
    case Join(inputs) => FreeOfAll(e, inputs)
    case Union(inputs) => FreeOfAll(e, inputs)
    case Other(_, inputs) => FreeOfAll(e, inputs)
    case LeftJoin(l, r, _) => FreeOf(e, l) && FreeOf(e, r)
    case Extend(input, _, _) => FreeOf(e, input)
    case Project(input, _) => FreeOf(e, input)
    case _ => true
  }

  predicate FreeOfAll(e: Expr, ops: seq<Op>)
    decreases ops, 0
  {
    forall i :: 0 <= i < |ops| ==> FreeOf(e, ops[i])
  }

  predicate AllPartial(cfg: Config, e: Expr, ops: seq<Op>) {
    forall i :: 0 <= i < |ops| ==> OverlapOf(cfg, ExprVars(cfg, e), ops[i]) == Partially
  }

  predicate Substitutable(cfg: Config, e: Expr, vars: set<string>) {
    cfg.pushEqualityIntoPatterns && EqualityParts(e).Some? && EqualityParts(e).value.0 in vars
  }

  /** What a filter stays on top of. */
  predicate Stops(cfg: Config, e: Expr, op: Op) {
    var vars := ExprVars(cfg, e);
    e.Exists? ||
    match op
    case Nop => false
    case Project(_, _) => false
    case Filter(_, _) => false
    case Extend(_, v, _) => v in vars
    case Join(inputs) => AllPartial(cfg, e, inputs)
    case Union(inputs) => inputs != [] && AllPartial(cfg, e, inputs)
    case Values(keys, _) => keys * vars != {}
    case LeftJoin(_, r, _) => !cfg.pushIntoLeftJoins || vars * cfg.scope(r) != {}
    case Pattern(quad, _) => !Substitutable(cfg, e, Vars(quad))
    case PathOp(s, _, o, _) => !Substitutable(cfg, e, EndVars(s) + EndVars(o))
    case Other(_, _) => true
  }

  /** Every filter `e` of the tree is on top of something it cannot pass. */
  predicate Deep(cfg: Config, e: Expr, op: Op)
    decreases op, 1
  {
    match op
    case Filter(input, f) => if f == e then Stops(cfg, e, input) && FreeOf(e, input) else Deep(cfg, e, input)
    case Join(inputs) => DeepAll(cfg, e, inputs)
    case Union(inputs) => DeepAll(cfg, e, inputs)
    case Other(_, inputs) => DeepAll(cfg, e, inputs)
    case LeftJoin(l, r, _) => Deep(cfg, e, l) && Deep(cfg, e, r)
    case Extend(input, _, _) => Deep(cfg, e, input)
    case Project(input, _) => Deep(cfg, e, input)
    case _ => true
  }

  predicate DeepAll(cfg: Config, e: Expr, ops: seq<Op>)
    decreases ops, 0
  {
    forall i :: 0 <= i < |ops| ==> Deep(cfg, e, ops[i])
  }

  lemma {:induction false} FreeOfDeep(cfg: Config, e: Expr, op: Op)
    requires FreeOf(e, op)
    ensures Deep(cfg, e, op)
    decreases op, 1
  {
    match op
    case Filter(input, _) => FreeOfDeep(cfg, e, input);
    case Join(inputs) => FreeOfAllDeep(cfg, e, inputs);
    case Union(inputs) => FreeOfAllDeep(cfg, e, inputs);
    case Other(_, inputs) => FreeOfAllDeep(cfg, e, inputs);
    case LeftJoin(l, r, _) => FreeOfDeep(cfg, e, l); FreeOfDeep(cfg, e, r);
    case Extend(input, _, _) => FreeOfDeep(cfg, e, input);
    case Project(input, _) => FreeOfDeep(cfg, e, input);
    case _ =>
  }

  lemma {:induction false} FreeOfAllDeep(cfg: Config, e: Expr, ops: seq<Op>)
    requires FreeOfAll(e, ops)
    ensures DeepAll(cfg, e, ops)
    decreases ops, 0
  {
    forall i | 0 <= i < |ops| ensures Deep(cfg, e, ops[i]) { FreeOfDeep(cfg, e, ops[i]); }
  }

  lemma {:induction false} FlattenDeep(cfg: Config, e: Expr, ops: seq<Op>)
    requires DeepAll(cfg, e, ops)
    ensures Deep(cfg, e, CreateJoin(ops)) && Deep(cfg, e, CreateUnion(ops))
  {
    if ops != [] {
      assert Deep(cfg, e, ops[0]);
      FlattenDeep(cfg, e, ops[1..]);
      assert DeepAll(cfg, e, if ops[0].Join? then ops[0].inputs else [ops[0]]);
      assert DeepAll(cfg, e, if ops[0].Union? then ops[0].inputs else [ops[0]]);
    }
  }

  lemma {:induction false} ThoseAre(cfg: Config, e: Expr, inputs: seq<Op>, kind: Overlap)
    requires FreeOfAll(e, inputs)
    ensures FreeOfAll(e, Those(cfg, ExprVars(cfg, e), inputs, kind))
    ensures kind == Partially ==> AllPartial(cfg, e, Those(cfg, ExprVars(cfg, e), inputs, kind))
  {
    if inputs != [] {
      assert FreeOf(e, inputs[0]);
      ThoseAre(cfg, e, inputs[1..], kind);
    }
  }

  /** The filter goes as deep as it may: below projections, filters, unions, joins, the left operands of left joins and
      extensions by other variables, and into patterns and paths by substitution. */
  lemma {:induction false} PushdownDeep(cfg: Config, e: Expr, op: Op)
    requires FreeOf(e, op)
    ensures Deep(cfg, e, Pushdown(cfg, e, op).1)
    decreases op, 1
  {
    FreeOfDeep(cfg, e, op);
    if !IsFalse(e) && !e.Exists? {
      match op
      case Filter(input, _) => PushdownDeep(cfg, e, input);
      case Extend(input, _, _) => PushdownDeep(cfg, e, input);
      case Project(input, _) => PushdownDeep(cfg, e, input);
      case LeftJoin(l, _, _) => PushdownDeep(cfg, e, l);
      case Join(inputs) => PartsDeep(cfg, e, inputs);
      case Union(inputs) => PartsDeep(cfg, e, inputs);
      case Pattern(quad, src) => ValueDeep(cfg, e, op);
      case PathOp(_, _, _, _) => ValueDeep(cfg, e, op);
      case _ =>
    } else {
      assert FlattenUnion([]) == [];
    }
  }

  lemma ValueDeep(cfg: Config, e: Expr, op: Op)
    requires op.Pattern? || op.PathOp?
    ensures Deep(cfg, e, Pushdown(cfg, e, op).1)
  {
    if !IsFalse(e) && !e.Exists? {
      var pushed := Pushdown(cfg, e, op).1;
      if pushed.Join? {
        var (v, t) := EqualityParts(e).value;
        var left := if op.Pattern? then Pattern(Subst(map[v := t], op.quad), op.src)
                    else PathOp(Replace(v, t, op.subj), op.path, Replace(v, t, op.obj), DefaultGraph);
        FlattenDeep(cfg, e, [left, Values({v}, [map[v := t]])]);
      }
    } else {
      assert FlattenUnion([]) == [];
    }
  }

  lemma {:induction false} PartsDeep(cfg: Config, e: Expr, inputs: seq<Op>)
    requires FreeOfAll(e, inputs) && !IsFalse(e) && !e.Exists?
    ensures Deep(cfg, e, Pushdown(cfg, e, Join(inputs)).1) && Deep(cfg, e, Pushdown(cfg, e, Union(inputs)).1)
    decreases inputs, 1
  {
    var vars := ExprVars(cfg, e);
    var fully, partially, rest := PushIntoFully(cfg, e, inputs), Those(cfg, vars, inputs, Partially),
      Those(cfg, vars, inputs, Not);
    PushIntoFullyDeep(cfg, e, inputs);
    ThoseAre(cfg, e, inputs, Partially);
    ThoseAre(cfg, e, inputs, Not);
    FreeOfAllDeep(cfg, e, rest);
    JoinedDeep(cfg, e, fully, partially, rest);
    UnitedDeep(cfg, e, fully, partially, rest);
  }

  lemma JoinedDeep(cfg: Config, e: Expr, fully: seq<Op>, partially: seq<Op>, rest: seq<Op>)
    requires DeepAll(cfg, e, fully) && DeepAll(cfg, e, rest) && AllPartial(cfg, e, partially) && FreeOfAll(e, partially)
    ensures (var joins := (if fully != [] then [CreateJoin(fully)] else [])
                          + (if partially != [] then [Filter(Join(partially), e)] else []) + rest;
             DeepAll(cfg, e, joins) && Deep(cfg, e, CreateJoin(joins)))
  {
    FlattenDeep(cfg, e, fully);
    var joins := (if fully != [] then [CreateJoin(fully)] else [])
                 + (if partially != [] then [Filter(Join(partially), e)] else []) + rest;
    assert DeepAll(cfg, e, joins);
    FlattenDeep(cfg, e, joins);
  }

  lemma UnitedDeep(cfg: Config, e: Expr, fully: seq<Op>, partially: seq<Op>, rest: seq<Op>)
    requires DeepAll(cfg, e, fully) && DeepAll(cfg, e, rest) && AllPartial(cfg, e, partially) && FreeOfAll(e, partially)
    ensures (var unions := (if fully != [] then [CreateUnion(fully)] else [])
                           + (if partially != [] then [Filter(Union(partially), e)] else []) + rest;
             DeepAll(cfg, e, unions) && Deep(cfg, e, CreateUnion(unions)))
  {
    FlattenDeep(cfg, e, fully);
    var unions := (if fully != [] then [CreateUnion(fully)] else [])
                  + (if partially != [] then [Filter(Union(partially), e)] else []) + rest;
    assert DeepAll(cfg, e, unions);
    FlattenDeep(cfg, e, unions);
  }

  lemma {:induction false} PushIntoFullyDeep(cfg: Config, e: Expr, inputs: seq<Op>)
    requires FreeOfAll(e, inputs)
    ensures DeepAll(cfg, e, PushIntoFully(cfg, e, inputs))
    decreases inputs, 0
  {
    if inputs != [] {
      assert FreeOf(e, inputs[0]);
      PushdownDeep(cfg, e, inputs[0]);
      PushIntoFullyDeep(cfg, e, inputs[1..]);
    }
  }
}
