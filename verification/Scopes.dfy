/** In-scope variables as section 18.2.1 of SPARQL 1.1 Query Language defines them. */
module Scopes {
  import opened Terms
  import opened Bags
  import opened Joins
  import opened Algebra

  function InScope(op: Op): set<string>
    decreases op, 1
  {
    match op
    case Nop => {}
    case Pattern(quad, _) => Vars(quad)
    case PathOp(s, _, o, _) => EndVars(s) + EndVars(o)
    case Values(vars, rows) => vars + RowVars(rows)
    case Join(inputs) => InScopeAll(inputs)
    case Union(inputs) => InScopeAll(inputs)
    case Other(_, inputs) => InScopeAll(inputs)
    case LeftJoin(l, r, _) => InScope(l) + InScope(r)
    case Filter(input, _) => InScope(input)
    case Extend(input, v, _) => InScope(input) + {v}
    case Project(_, keep) => keep
  }

  function InScopeAll(ops: seq<Op>): set<string>
    decreases ops, 0
  {
    if ops == [] then {} else InScope(ops[0]) + InScopeAll(ops[1..])
  }

  function RowVars(rows: seq<Mapping>): set<string> {
    if rows == [] then {} else rows[0].Keys + RowVars(rows[1..])
  }

  /** The operators that are not looked into invent no variables. */
  ghost predicate OthersInvent(env: Env) {
    exists kind, bags, may :: (forall b :: b in bags ==> Within(b, may)) && !Within(env.other(kind, bags), may)
  }

  lemma {:induction false} RowsWithin(rows: seq<Mapping>)
    ensures Within(multiset(rows), RowVars(rows))
  {
    if rows != [] {
      RowsWithin(rows[1..]);
      assert rows == [rows[0]] + rows[1..];
    }
  }

  lemma LeafWithin(env: Env, op: Op)
    requires op.Pattern? || op.PathOp?
    ensures Within(Eval(env, op), InScope(op))
  {
    forall m | m in Eval(env, op)
      ensures m.Keys <= InScope(op)
    {
      match op
      case Pattern(quad, src) => SolutionsAre(quad, env.quads(src), m);
      case PathOp(s, p, o, g) => BindIn(PathPairs(env, s, p, o, g), EndsRow(s, o), m);
    }
  }

  lemma RowWithin(env: Env, b: Bag, may: set<string>, v: string, e: Expr, keep: set<string>)
    requires Within(b, may)
    ensures Within(Bind(b, ExtendRow(env, v, e)), may + {v})
    ensures Within(Bind(b, ProjectRow(keep)), keep)
  {
    forall m
      ensures m in Bind(b, ExtendRow(env, v, e)) ==> m.Keys <= may + {v}
      ensures m in Bind(b, ProjectRow(keep)) ==> m.Keys <= keep
    {
      BindIn(b, ExtendRow(env, v, e), m);
      BindIn(b, ProjectRow(keep), m);
    }
  }

  /** Every solution binds in-scope variables only. */
  lemma {:induction false} InScopeSound(env: Env, op: Op)
    requires !OthersInvent(env)
    ensures Within(Eval(env, op), InScope(op))
    decreases op, 1
  {
    match op
    case Nop =>
    case Pattern(_, _) => LeafWithin(env, op);
    case PathOp(_, _, _, _) => LeafWithin(env, op);
    case Values(_, rows) => RowsWithin(rows);
    case Join(inputs) => InScopeAllSound(env, inputs);
    case Union(inputs) => InScopeAllSound(env, inputs);
    case Other(kind, inputs) =>
      InScopeAllSound(env, inputs);
      assert Within(env.other(kind, EvalAll(env, inputs)), InScopeAll(inputs));
    case LeftJoin(l, r, cond) =>
      InScopeSound(env, l);
      InScopeSound(env, r);
      LeftJoinTyped(Eval(env, l), Eval(env, r), CondP(env, cond), {}, InScope(l), InScope(r));
    case Filter(input, e) =>
      InScopeSound(env, input);
      SelectSub(Eval(env, input), SatP(env, e));
    case Extend(input, v, e) =>
      InScopeSound(env, input);
      RowWithin(env, Eval(env, input), InScope(input), v, e, {});
    case Project(input, keep) =>
      InScopeSound(env, input);
      RowWithin(env, Eval(env, input), InScope(input), "", TermE(DefaultGraph), keep);
  }

  lemma {:induction false} InScopeAllSound(env: Env, ops: seq<Op>)
    requires !OthersInvent(env)
    ensures Within(JoinOf(env, ops), InScopeAll(ops))
    ensures Within(UnionOf(env, ops), InScopeAll(ops))
    ensures forall b :: b in EvalAll(env, ops) ==> Within(b, InScopeAll(ops))
    decreases ops, 0
  {
    if ops == [] {
      OfNone(env);
    } else {
      InScopeSound(env, ops[0]);
      InScopeAllSound(env, ops[1..]);
      assert ops == [ops[0]] + ops[1..];
      OfCons(env, ops[0], ops[1..]);
      EvalAllConcat(env, [ops[0]], ops[1..]);
      JoinTyped(Eval(env, ops[0]), {}, InScope(ops[0]), JoinOf(env, ops[1..]), {}, InScopeAll(ops[1..]));
    }
  }

  /** What every solution binds is in scope. */
  lemma {:induction false} CertainInScope(op: Op)
    ensures Certain(op) <= InScope(op)
    decreases op, 1
  {
    match op
    case Join(inputs) => CertainAllInScope(inputs);
    case Union(inputs) => CertainAnyInScope(inputs);
    case LeftJoin(l, _, _) => CertainInScope(l);
    case Filter(input, _) => CertainInScope(input);
    case Extend(input, _, _) => CertainInScope(input);
    case Project(input, _) => CertainInScope(input);
    case _ =>
  }

  lemma {:induction false} CertainAllInScope(ops: seq<Op>)
    ensures CertainAll(ops) <= InScopeAll(ops)
    decreases ops, 0
  {
    if ops != [] {
      CertainInScope(ops[0]);
      CertainAllInScope(ops[1..]);
    }
  }

  lemma {:induction false} CertainAnyInScope(ops: seq<Op>)
    ensures CertainAny(ops) <= InScopeAll(ops)
    decreases ops, 0
  {
    if ops != [] {
      CertainInScope(ops[0]);
      CertainAnyInScope(ops[1..]);
    }
  }
}
