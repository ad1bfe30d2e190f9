/** Pushing filters down the algebra tree, as the optimizer does it. */
module FilterPushdown {
  import opened Terms
  import opened Algebra

  /** `scope` is the external computation of in-scope variables; `attempt` decides per filter (from source
      shapes, selectivity and extension functions) whether it is pushed at all. */
  datatype Config = Config(
    scope: Op -> set<string>,
    attempt: (Op, Expr) -> bool,
    pushIntoLeftJoins: bool,
    pushEqualityIntoPatterns: bool,
    splitConjunctive: bool,
    mergeConjunctive: bool,
    maxIterations: nat)

  /** The variables of an expression as the optimizer sees them: named functions are taken to have none. */
  function ExprVars(cfg: Config, e: Expr): set<string>
    decreases e, 1
  {
    match e
    case TermE(t) => if t.Var? then {t.name} else {}
    case Call(_, args) => ExprVarsAll(cfg, args)
    case Named(_, _) => {}
    case Exists(_, input) => cfg.scope(input)
  }

  function ExprVarsAll(cfg: Config, args: seq<Expr>): set<string>
    decreases args, 0
  {
    if args == [] then {} else ExprVars(cfg, args[0]) + ExprVarsAll(cfg, args[1..])
  }

  /** Any literal spelled `false` counts, whatever its datatype. */
  predicate IsFalse(e: Expr) {
    e.TermE? && e.term.Literal? && e.term.lex == "false"
  }

  datatype Overlap = Fully | Partially | Not

  function OverlapOf(cfg: Config, vars: set<string>, input: Op): Overlap {
    if vars <= cfg.scope(input) then Fully
    else if vars * cfg.scope(input) != {} then Partially
    else Not
  }

  /** The inputs of one kind of overlap, in order. */
  function Those(cfg: Config, vars: set<string>, inputs: seq<Op>, kind: Overlap): seq<Op> {
    if inputs == [] then []
    else (if OverlapOf(cfg, vars, inputs[0]) == kind then [inputs[0]] else [])
         + Those(cfg, vars, inputs[1..], kind)
  }

  lemma ThoseSnoc(cfg: Config, vars: set<string>, inputs: seq<Op>, last: Op, kind: Overlap)
    ensures Those(cfg, vars, inputs + [last], kind)
            == Those(cfg, vars, inputs, kind) + (if OverlapOf(cfg, vars, last) == kind then [last] else [])
  {
    if inputs == [] {
      assert inputs + [last] == [last];
    } else {
      assert (inputs + [last])[1..] == inputs[1..] + [last];
    }
  }

  method GetOverlappingOperations(cfg: Config, inputs: seq<Op>, vars: set<string>)
    returns (fully: seq<Op>, partially: seq<Op>, not: seq<Op>)
    ensures fully == Those(cfg, vars, inputs, Fully)
    ensures partially == Those(cfg, vars, inputs, Partially)
    ensures not == Those(cfg, vars, inputs, Not)
  {
    fully, partially, not := [], [], [];
    for i := 0 to |inputs|
      invariant fully == Those(cfg, vars, inputs[..i], Fully)
      invariant partially == Those(cfg, vars, inputs[..i], Partially)
      invariant not == Those(cfg, vars, inputs[..i], Not)
    {
      var input := inputs[i];
      assert inputs[..i + 1] == inputs[..i] + [input];
      forall kind { ThoseSnoc(cfg, vars, inputs[..i], input, kind); }
      if vars <= cfg.scope(input) {
        fully := fully + [input];
      } else if vars * cfg.scope(input) != {} {
        partially := partially + [input];
      } else {
        not := not + [input];
      }
    }
    assert inputs[..|inputs|] == inputs;
  }

  // The factory flattens directly nested joins and unions unless told otherwise.

  function FlattenJoin(ops: seq<Op>): seq<Op> {
    if ops == [] then []
    else (if ops[0].Join? then ops[0].inputs else [ops[0]]) + FlattenJoin(ops[1..])
  }

  function CreateJoin(ops: seq<Op>): Op { Join(FlattenJoin(ops)) }

  function FlattenUnion(ops: seq<Op>): seq<Op> {
    if ops == [] then []
    else (if ops[0].Union? then ops[0].inputs else [ops[0]]) + FlattenUnion(ops[1..])
  }

  function CreateUnion(ops: seq<Op>): Op { Union(FlattenUnion(ops)) }

  function Unnested(op: Op, joins: bool): seq<Op> {
    if joins && op.Join? then op.inputs else if !joins && op.Union? then op.inputs else [op]
  }

  lemma UnnestedEval(env: Env, op: Op)
    ensures JoinOf(env, Unnested(op, true)) == Eval(env, op)
    ensures UnionOf(env, Unnested(op, false)) == Eval(env, op)
  {
    OfOne(env, op);
  }

  lemma {:induction false} FlattenEval(env: Env, ops: seq<Op>)
    ensures JoinOf(env, FlattenJoin(ops)) == JoinOf(env, ops)
    ensures UnionOf(env, FlattenUnion(ops)) == UnionOf(env, ops)
  {
    if ops != [] {
      var h, t := ops[0], ops[1..];
      FlattenEval(env, t);
      assert ops == [h] + t;
      OfCons(env, h, t);
      UnnestedEval(env, h);
      OfConcat(env, Unnested(h, true), FlattenJoin(t));
      OfConcat(env, Unnested(h, false), FlattenUnion(t));
    }
  }

  /** One operation is taken as it is, several make a new join or union. */
  lemma OneOrMany(env: Env, ops: seq<Op>)
    ensures Eval(env, if |ops| == 1 then ops[0] else CreateJoin(ops)) == JoinOf(env, ops)
    ensures Eval(env, if |ops| == 1 then ops[0] else CreateUnion(ops)) == UnionOf(env, ops)
  {
    FlattenEval(env, ops);
    if |ops| == 1 {
      assert ops == [ops[0]];
      OfOne(env, ops[0]);
    }
  }

  const CANONICAL: set<string> := {
    "http://www.w3.org/2001/XMLSchema#string",
    "http://www.w3.org/1999/02/22-rdf-syntax-ns#langString",
    "http://www.w3.org/2001/XMLSchema#normalizedString",
    "http://www.w3.org/2001/XMLSchema#anyURI",
    "http://www.w3.org/2001/XMLSchema#base64Binary",
    "http://www.w3.org/2001/XMLSchema#language",
    "http://www.w3.org/2001/XMLSchema#Name",
    "http://www.w3.org/2001/XMLSchema#NCName",
    "http://www.w3.org/2001/XMLSchema#NMTOKEN",
    "http://www.w3.org/2001/XMLSchema#token",
    "http://www.w3.org/2001/XMLSchema#hexBinary"
  }

  predicate Pushable(t: Term) {
    !t.Var? && (t.Literal? ==> t.dtype in CANONICAL)
  }

  /** The variable and term of an equality that can be substituted into a pattern. */
  function EqualityParts(e: Expr): Option<(string, Term)> {
    if e.Call? && e.op == "=" && |e.args| == 2 && e.args[0].TermE? && e.args[1].TermE? then
      var l, r := e.args[0].term, e.args[1].term;
      if Pushable(l) && r.Var? then Some((r.name, l))
      else if l.Var? && Pushable(r) then Some((l.name, r))
      else None
    else None
  }

  function Replace(v: string, t: Term, x: Term): Term {
    if x == Var(v) then t else x
  }

  function JoinedWithValue(op: Op, v: string, t: Term): Op {
    CreateJoin([op, Values({v}, [map[v := t]])])
  }

  function JoinPart(fully: seq<Op>): seq<Op> { if fully != [] then [CreateJoin(fully)] else [] }

  function UnionPart(fully: seq<Op>): seq<Op> { if fully != [] then [CreateUnion(fully)] else [] }

  function FilterPart(partially: seq<Op>, op: Op, e: Expr): seq<Op> { if partially != [] then [Filter(op, e)] else [] }

  /** The join of the pushed inputs, of the partially overlapping ones under one filter, and of the rest. */
  function RebuildJoin(fully: seq<Op>, partially: seq<Op>, rest: seq<Op>, e: Expr): (bool, Op) {
    var joins := JoinPart(fully) + FilterPart(partially, Join(partially), e) + rest;
    (fully != [] || |joins| > 1, if |joins| == 1 then joins[0] else CreateJoin(joins))
  }

  function RebuildUnion(fully: seq<Op>, partially: seq<Op>, rest: seq<Op>, e: Expr): (bool, Op) {
    var unions := UnionPart(fully) + FilterPart(partially, Union(partially), e) + rest;
    (fully != [] || |unions| > 1, if |unions| == 1 then unions[0] else CreateUnion(unions))
  }

  function Pushdown(cfg: Config, e: Expr, op: Op): (bool, Op)
    decreases op, 1
  {
    var vars := ExprVars(cfg, e);
    if IsFalse(e) then (true, CreateUnion([]))
    else if e.Exists? then (false, Filter(op, e))
    else match op
      case Extend(input, v, x) =>
        if v !in vars then (true, Extend(Pushdown(cfg, e, input).1, v, x)) else (false, Filter(op, e))
      case Filter(input, x) =>
        var (modified, result) := Pushdown(cfg, e, input);
        (modified, Filter(result, x))
      case Join(inputs) =>
        if inputs == [] then (false, Filter(op, e)) else
        RebuildJoin(PushIntoFully(cfg, e, inputs), Those(cfg, vars, inputs, Partially),
          Those(cfg, vars, inputs, Not), e)
      case Nop => (true, op)
      case Project(input, keep) =>
        if keep * vars != {} then (true, Project(Pushdown(cfg, e, input).1, keep)) else (true, op)
      case Union(inputs) =>
        RebuildUnion(PushIntoFully(cfg, e, inputs), Those(cfg, vars, inputs, Partially),
          Those(cfg, vars, inputs, Not), e)
      case Values(keys, _) =>
        if keys * vars != {} then (false, Filter(op, e)) else (true, op)
      case LeftJoin(l, r, cond) =>
        if cfg.pushIntoLeftJoins && vars * cfg.scope(r) == {}
        then (true, LeftJoin(Pushdown(cfg, e, l).1, r, cond))
        else (false, Filter(op, e))
      case Pattern(quad, src) =>
        var eq := EqualityParts(e);
        if cfg.pushEqualityIntoPatterns && eq.Some? && eq.value.0 in Vars(quad) then
          var (v, t) := eq.value;
          (true, JoinedWithValue(Pattern(Subst(map[v := t], quad), src), v, t))
        else (false, Filter(op, e))
      case PathOp(s, p, o, g) =>
        var eq := EqualityParts(e);
        if cfg.pushEqualityIntoPatterns && eq.Some? && (s == Var(eq.value.0) || o == Var(eq.value.0)) then
          var (v, t) := eq.value;
          (true, JoinedWithValue(PathOp(Replace(v, t, s), p, Replace(v, t, o), DefaultGraph), v, t))
        else (false, Filter(op, e))
      case Other(_, _) => (false, Filter(op, e))
  }

  /** The pushed forms of the fully overlapping inputs, in order. */
  function PushIntoFully(cfg: Config, e: Expr, inputs: seq<Op>): seq<Op>
    decreases inputs, 0
  {
    if inputs == [] then []
    else (if OverlapOf(cfg, ExprVars(cfg, e), inputs[0]) == Fully
          then [Pushdown(cfg, e, inputs[0]).1] else [])
         + PushIntoFully(cfg, e, inputs[1..])
  }

  // ----- the three passes over the tree -----

  /** Splits `Filter(x, a && b)` into nested filters, one level per node, bottom-up. */
  function SplitAll(op: Op): Op
    decreases op, 1
  {
    match op
    case Filter(input, e) =>
      if e.Call? && e.op == "&&" then Nest(SplitAll(input), e.args) else Filter(SplitAll(input), e)
    case Join(inputs) => Join(SplitEach(inputs))
    case Union(inputs) => Union(SplitEach(inputs))
    case Other(kind, inputs) => Other(kind, SplitEach(inputs))
    case LeftJoin(l, r, cond) => LeftJoin(SplitAll(l), SplitAll(r), cond)
    case Extend(input, v, e) => Extend(SplitAll(input), v, e)
    case Project(input, keep) => Project(SplitAll(input), keep)
    case _ => op
  }

  function SplitEach(ops: seq<Op>): seq<Op>
    decreases ops, 0
  {
    if ops == [] then [] else [SplitAll(ops[0])] + SplitEach(ops[1..])
  }

  function Nest(input: Op, es: seq<Expr>): Op
    decreases |es|
  {
    if es == [] then input else Nest(Filter(input, es[0]), es[1..])
  }

  /** One round of pushing: every filter once, inner filters first. */
  function PushRound(cfg: Config, op: Op): (bool, Op)
    decreases op, 1
  {
    match op
    case Filter(input, e) =>
      var (m, input') := PushRound(cfg, input);
      if !cfg.attempt(input', e) then (m, Filter(input', e)) else
      var (m', result) := Pushdown(cfg, e, input');
      (m || m', result)
    case Join(inputs) => var (m, inputs') := PushRoundEach(cfg, inputs); (m, Join(inputs'))
    case Union(inputs) => var (m, inputs') := PushRoundEach(cfg, inputs); (m, Union(inputs'))
    case Other(kind, inputs) => var (m, inputs') := PushRoundEach(cfg, inputs); (m, Other(kind, inputs'))
    case LeftJoin(l, r, cond) =>
      var (m, l') := PushRound(cfg, l);
      var (m', r') := PushRound(cfg, r);
      (m || m', LeftJoin(l', r', cond))
    case Extend(input, v, e) => var (m, input') := PushRound(cfg, input); (m, Extend(input', v, e))
    case Project(input, keep) => var (m, input') := PushRound(cfg, input); (m, Project(input', keep))
    case _ => (false, op)
  }

  function PushRoundEach(cfg: Config, ops: seq<Op>): (bool, seq<Op>)
    decreases ops, 0
  {
    if ops == [] then (false, []) else
    var (m, op') := PushRound(cfg, ops[0]);
    var (m', rest) := PushRoundEach(cfg, ops[1..]);
    (m || m', [op'] + rest)
  }

  /** Rounds until nothing moves any more, at most `n` of them. */
  function PushRounds(cfg: Config, op: Op, n: nat): Op
    decreases n
  {
    if n == 0 then op else
    var (modified, op') := PushRound(cfg, op);
    if modified then PushRounds(cfg, op', n - 1) else op'
  }

  /** Merges directly nested filters into one conjunctive filter, outermost expression first. */
  function MergeAll(op: Op): Op
    decreases op, 1
  {
    match op
    case Filter(input, e) =>
      var input' := MergeAll(input);
      if input'.Filter? then
        var (es, inner) := NestedFilters(input');
        Filter(inner, Conjunction(e, es))
      else Filter(input', e)
    case Join(inputs) => Join(MergeEach(inputs))
    case Union(inputs) => Union(MergeEach(inputs))
    case Other(kind, inputs) => Other(kind, MergeEach(inputs))
    case LeftJoin(l, r, cond) => LeftJoin(MergeAll(l), MergeAll(r), cond)
    case Extend(input, v, e) => Extend(MergeAll(input), v, e)
    case Project(input, keep) => Project(MergeAll(input), keep)
    case _ => op
  }

  function MergeEach(ops: seq<Op>): seq<Op>
    decreases ops, 0
  {
    if ops == [] then [] else [MergeAll(ops[0])] + MergeEach(ops[1..])
  }

  function NestedFilters(op: Op): (seq<Expr>, Op) {
    if op.Filter? then
      var (es, inner) := NestedFilters(op.input);
      ([op.expr] + es, inner)
    else ([], op)
  }

  function Conjunction(first: Expr, rest: seq<Expr>): Expr
    decreases |rest|
  {
    if rest == [] then first else Conjunction(Call("&&", [first, rest[0]]), rest[1..])
  }

  function Optimized(cfg: Config, op: Op): Op {
    var op1 := if cfg.splitConjunctive then SplitAll(op) else op;
    var op2 := PushRounds(cfg, op1, cfg.maxIterations);
    if cfg.mergeConjunctive then MergeAll(op2) else op2
  }

  method Run(cfg: Config, op: Op) returns (operation: Op)
    ensures operation == Optimized(cfg, op)
  {
    operation := op;
    if cfg.splitConjunctive {
      operation := SplitAll(operation);
    }
    ghost var start := operation;
    var repeat := true;
    var iterations := 0;
    while repeat && iterations < cfg.maxIterations
      invariant 0 <= iterations <= cfg.maxIterations
      invariant PushRounds(cfg, start, cfg.maxIterations)
                == if repeat then PushRounds(cfg, operation, cfg.maxIterations - iterations) else operation
      decreases cfg.maxIterations - iterations
    {
      var (modified, result) := PushRound(cfg, operation);
      repeat, operation := modified, result;
      iterations := iterations + 1;
    }
    if cfg.mergeConjunctive {
      operation := MergeAll(operation);
    }
  }
}
