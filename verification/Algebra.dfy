/** The SPARQL algebra (section 18 of SPARQL 1.1 Query Language) over partial solution mappings. */
module Algebra {
  import opened Terms
  import opened PathExprs
  import opened Logic
  import opened Bags
  import opened Joins

  datatype Expr =
    | TermE(term: Term)
    | Call(op: string, args: seq<Expr>)
    | Named(iri: string, args: seq<Expr>)
    | Exists(negated: bool, input: Op)

  datatype Op =
    | Nop
    | Pattern(quad: Term, src: Option<nat>)
    | PathOp(subj: Term, path: Path, obj: Term, graph: Term)
    | Values(vars: set<string>, rows: seq<Mapping>)
    | Join(inputs: seq<Op>)
    | Union(inputs: seq<Op>)
    | LeftJoin(left: Op, right: Op, cond: Option<Expr>)
    | Filter(input: Op, expr: Expr)
    | Extend(input: Op, v: string, expr: Expr)
    | Project(input: Op, vars: set<string>)
    | Other(kind: string, inputs: seq<Op>)

  datatype Value = Err | Ok(term: Term)

  /** What the algebra is evaluated against: the quads of each source, the functions behind operators and
      named functions, effective boolean values of terms other than booleans, the nodes and the path pairs of
      each graph, and the operators that the rewriting rules do not look into. */
  datatype Env = Env(
    quads: Option<nat> -> set<Term>,
    builtin: (string, seq<Value>) -> Value,
    named: (string, seq<Value>) -> Value,
    ebv: Term -> Tri,
    existing: (Op, Mapping) -> bool,
    nodes: Term -> set<Term>,
    pairs: (Path, Term) -> multiset<(Term, Term)>,
    other: (string, seq<Bag>) -> Bag)

  // ----- expressions -----

  ghost function Ebv(env: Env, v: Value): Tri {
    match v
    case Err => Error
    case Ok(t) => if t == Bool(true) then True else if t == Bool(false) then False else env.ebv(t)
  }

  ghost function OfTri(t: Tri): Value {
    match t case True => Ok(Bool(true)) case False => Ok(Bool(false)) case Error => Err
  }

  ghost function EvalE(env: Env, e: Expr, m: Mapping): Value
    decreases e, 1
  {
    match e
    case TermE(t) => if !t.Var? then Ok(t) else if t.name in m then Ok(m[t.name]) else Err
    case Call(op, args) =>
      if op == "&&" && |args| == 2 then
        OfTri(LogicalAnd(Ebv(env, EvalE(env, args[0], m)), Ebv(env, EvalE(env, args[1], m))))
      else if op == "||" && |args| == 2 then
        OfTri(LogicalOr(Ebv(env, EvalE(env, args[0], m)), Ebv(env, EvalE(env, args[1], m))))
      else env.builtin(op, EvalArgs(env, args, m))
    case Named(f, args) => env.named(f, EvalArgs(env, args, m))
    case Exists(negated, input) => Ok(Bool(env.existing(input, m) != negated))
  }

  ghost function EvalArgs(env: Env, args: seq<Expr>, m: Mapping): seq<Value>
    decreases args, 0
  {
    if args == [] then [] else [EvalE(env, args[0], m)] + EvalArgs(env, args[1..], m)
  }

  ghost predicate Sat(env: Env, e: Expr, m: Mapping) {
    Ebv(env, EvalE(env, e, m)).True?
  }

  ghost function SatP(env: Env, e: Expr): Mapping -> bool {
    m => Sat(env, e, m)
  }

  ghost function CondP(env: Env, cond: Option<Expr>): Mapping -> bool {
    if cond.None? then m => true else SatP(env, cond.value)
  }

  predicate ExistsFree(e: Expr) {
    match e
    case TermE(_) => true
    case Call(_, args) => forall i :: 0 <= i < |args| ==> ExistsFree(args[i])
    case Named(_, args) => forall i :: 0 <= i < |args| ==> ExistsFree(args[i])
    case Exists(_, _) => false
  }

  /** The variables whose values an EXISTS-free expression can look at. */
  function Reads(e: Expr): set<string>
    decreases e, 1
  {
    match e
    case TermE(t) => if t.Var? then {t.name} else {}
    case Call(_, args) => ReadsAll(args)
    case Named(_, args) => ReadsAll(args)
    case Exists(_, _) => {}
  }

  function ReadsAll(args: seq<Expr>): set<string>
    decreases args, 0
  {
    if args == [] then {} else Reads(args[0]) + ReadsAll(args[1..])
  }

  lemma {:induction false} ReadsMember(args: seq<Expr>, i: nat)
    requires i < |args|
    ensures Reads(args[i]) <= ReadsAll(args)
  {
    if i > 0 { ReadsMember(args[1..], i - 1); }
  }

  lemma {:induction false} EvalReads(env: Env, e: Expr, m: Mapping, n: Mapping)
    requires ExistsFree(e) && Agree(m, n, Reads(e))
    ensures EvalE(env, e, m) == EvalE(env, e, n)
    decreases e, 1
  {
    match e
    case TermE(_) =>
    case Call(op, args) =>
      EvalArgsReads(env, args, m, n);
      if |args| == 2 {
        ReadsMember(args, 0);
        ReadsMember(args, 1);
        EvalReads(env, args[0], m, n);
        EvalReads(env, args[1], m, n);
      }
    case Named(_, args) => EvalArgsReads(env, args, m, n);
  }

  lemma {:induction false} EvalArgsReads(env: Env, args: seq<Expr>, m: Mapping, n: Mapping)
    requires forall i :: 0 <= i < |args| ==> ExistsFree(args[i])
    requires Agree(m, n, ReadsAll(args))
    ensures EvalArgs(env, args, m) == EvalArgs(env, args, n)
    decreases args, 0
  {
    if args != [] {
      assert ExistsFree(args[0]);
      EvalReads(env, args[0], m, n);
      EvalArgsReads(env, args[1..], m, n);
    }
  }

  lemma SatReads(env: Env, e: Expr, vars: set<string>)
    requires ExistsFree(e) && Reads(e) <= vars
    ensures ReadsOnly(SatP(env, e), vars)
  {
    forall m, n | Agree(m, n, vars)
      ensures SatP(env, e)(m) == SatP(env, e)(n)
    {
      EvalReads(env, e, m, n);
    }
  }

  // ----- operations -----

  predicate Fixed(t: Term) { !t.Var? }

  /** How often the zero-length part of a path relates a term that is no node of the graph to itself. */
  ghost function ZeroCount(env: Env, s: Term, p: Path, o: Term, g: Term, c: Term): nat {
    if c !in env.nodes(g) && (Fixed(s) ==> s == c) && (Fixed(o) ==> o == c) then Ways(p, Fixed(s), Fixed(o)) else 0
  }

  ghost function ZeroPairs(env: Env, s: Term, p: Path, o: Term, g: Term): multiset<(Term, Term)> {
    if Fixed(s) then multiset{}[(s, s) := ZeroCount(env, s, p, o, g, s)]
    else if Fixed(o) then multiset{}[(o, o) := ZeroCount(env, s, p, o, g, o)]
    else multiset{}
  }

  ghost function PathPairs(env: Env, s: Term, p: Path, o: Term, g: Term): multiset<(Term, Term)> {
    env.pairs(p, g) + ZeroPairs(env, s, p, o, g)
  }

  function Bound(t: Term, x: Term): Mapping {
    if t.Var? then map[t.name := x] else map[]
  }

  /** Whether the ends of a path admit a pair, and the mapping they make of it. */
  predicate Admits(s: Term, o: Term, xy: (Term, Term)) {
    (Fixed(s) ==> s == xy.0) && (Fixed(o) ==> o == xy.1) && (s == o ==> xy.0 == xy.1)
  }

  function EndsMapping(s: Term, o: Term, xy: (Term, Term)): Mapping {
    Bound(s, xy.0) + Bound(o, xy.1)
  }

  ghost function EndsRow(s: Term, o: Term): ((Term, Term)) -> Bag {
    (xy: (Term, Term)) => if Admits(s, o, xy) then multiset{EndsMapping(s, o, xy)} else multiset{}
  }

  ghost function ExtendRow(env: Env, v: string, e: Expr): Mapping -> Bag {
    m => match EvalE(env, e, m) case Ok(t) => multiset{m[v := t]} case Err => multiset{m}
  }

  function Restrict(m: Mapping, vars: set<string>): Mapping {
    map x | x in m && x in vars :: m[x]
  }

  ghost function ProjectRow(vars: set<string>): Mapping -> Bag {
    m => multiset{Restrict(m, vars)}
  }

  ghost function Eval(env: Env, op: Op): Bag
    decreases op, 1
  {
    match op
    case Nop => Unit
    case Pattern(quad, src) => multiset(Solutions(quad, env.quads(src)))
    case PathOp(s, p, o, g) => Bind(PathPairs(env, s, p, o, g), EndsRow(s, o))
    case Values(_, rows) => multiset(rows)
    case Join(inputs) => JoinAll(EvalAll(env, inputs))
    case Union(inputs) => UnionAll(EvalAll(env, inputs))
    case LeftJoin(l, r, cond) => LeftJoinBag(Eval(env, l), Eval(env, r), CondP(env, cond))
    case Filter(input, e) => Select(Eval(env, input), SatP(env, e))
    case Extend(input, v, e) => Bind(Eval(env, input), ExtendRow(env, v, e))
    case Project(input, vars) => Bind(Eval(env, input), ProjectRow(vars))
    case Other(kind, inputs) => env.other(kind, EvalAll(env, inputs))
  }

  ghost function EvalAll(env: Env, ops: seq<Op>): seq<Bag>
    decreases ops, 0
  {
    seq(|ops|, i requires 0 <= i < |ops| => Eval(env, ops[i]))
  }

  lemma EvalAllConcat(env: Env, ops: seq<Op>, more: seq<Op>)
    ensures EvalAll(env, ops + more) == EvalAll(env, ops) + EvalAll(env, more)
  {
  }

  lemma EvalAllCons(env: Env, op: Op, ops: seq<Op>)
    ensures EvalAll(env, [op] + ops) == [Eval(env, op)] + EvalAll(env, ops)
  {
  }

  /** The join and the union of a list of operations. */
  ghost function JoinOf(env: Env, ops: seq<Op>): Bag { JoinAll(EvalAll(env, ops)) }

  ghost function UnionOf(env: Env, ops: seq<Op>): Bag { UnionAll(EvalAll(env, ops)) }

  lemma OfNone(env: Env)
    ensures JoinOf(env, []) == Unit && UnionOf(env, []) == multiset{}
  {
    assert EvalAll(env, []) == [];
    AllNone();
  }

  lemma OfOne(env: Env, op: Op)
    ensures JoinOf(env, [op]) == Eval(env, op) == UnionOf(env, [op])
  {
    assert EvalAll(env, [op]) == [Eval(env, op)];
    AllOne(Eval(env, op));
  }

  lemma OfConcat(env: Env, ops: seq<Op>, more: seq<Op>)
    ensures JoinOf(env, ops + more) == JoinBag(JoinOf(env, ops), JoinOf(env, more))
    ensures UnionOf(env, ops + more) == UnionOf(env, ops) + UnionOf(env, more)
  {
    EvalAllConcat(env, ops, more);
    AllConcat(EvalAll(env, ops), EvalAll(env, more));
  }

  lemma OfCons(env: Env, op: Op, ops: seq<Op>)
    ensures JoinOf(env, [op] + ops) == JoinBag(Eval(env, op), JoinOf(env, ops))
    ensures UnionOf(env, [op] + ops) == Eval(env, op) + UnionOf(env, ops)
  {
    OfConcat(env, [op], ops);
    OfOne(env, op);
  }

  /** No expression of the tree is an EXISTS, whose operation the tree walks of the optimizers would enter too. */
  predicate NoExists(op: Op)
    decreases op, 1
  {
    match op
    case Filter(input, e) => ExistsFree(e) && NoExists(input)
    case Extend(input, _, e) => ExistsFree(e) && NoExists(input)
    case LeftJoin(l, r, cond) => (cond.Some? ==> ExistsFree(cond.value)) && NoExists(l) && NoExists(r)
    case Join(inputs) => NoExistsEach(inputs)
    case Union(inputs) => NoExistsEach(inputs)
    case Other(_, inputs) => NoExistsEach(inputs)
    case Project(input, _) => NoExists(input)
    case _ => true
  }

  predicate NoExistsEach(ops: seq<Op>)
    decreases ops, 0
  {
    forall i :: 0 <= i < |ops| ==> NoExists(ops[i])
  }

  // ----- certainly bound variables -----

  /** Variables that every solution binds. */
  function Certain(op: Op): set<string>
    decreases op, 1
  {
    match op
    case Pattern(quad, _) => Vars(quad)
    case PathOp(s, _, o, _) => EndVars(s) + EndVars(o)
    case Values(vars, rows) => set x | x in vars && forall i :: 0 <= i < |rows| ==> x in rows[i]
    case Join(inputs) => CertainAll(inputs)
    case Union(inputs) => CertainAny(inputs)
    case LeftJoin(l, _, _) => Certain(l)
    case Filter(input, _) => Certain(input)
    case Extend(input, _, _) => Certain(input)
    case Project(input, vars) => Certain(input) * vars
    case _ => {}
  }

  function EndVars(t: Term): set<string> {
    if t.Var? then {t.name} else {}
  }

  function CertainAll(ops: seq<Op>): set<string>
    decreases ops, 0
  {
    if ops == [] then {} else Certain(ops[0]) + CertainAll(ops[1..])
  }

  function CertainAny(ops: seq<Op>): set<string>
    decreases ops, 0
  {
    if ops == [] then {}
    else if |ops| == 1 then Certain(ops[0])
    else Certain(ops[0]) * CertainAny(ops[1..])
  }

  lemma PatternBinds(env: Env, quad: Term, src: Option<nat>)
    ensures Binds(multiset(Solutions(quad, env.quads(src))), Vars(quad))
  {
    forall m | m in Solutions(quad, env.quads(src)) ensures Vars(quad) <= m.Keys {
      SolutionsAre(quad, env.quads(src), m);
    }
  }

  lemma PathBinds(pairs: multiset<(Term, Term)>, s: Term, o: Term)
    ensures Binds(Bind(pairs, EndsRow(s, o)), EndVars(s) + EndVars(o))
  {
    forall m | m in Bind(pairs, EndsRow(s, o)) ensures EndVars(s) + EndVars(o) <= m.Keys {
      BindIn(pairs, EndsRow(s, o), m);
    }
  }

  lemma ExtendBinds(env: Env, b: Bag, v: string, e: Expr, must: set<string>)
    requires Binds(b, must)
    ensures Binds(Bind(b, ExtendRow(env, v, e)), must)
  {
    forall m | m in Bind(b, ExtendRow(env, v, e)) ensures must <= m.Keys {
      BindIn(b, ExtendRow(env, v, e), m);
    }
  }

  lemma ProjectBinds(b: Bag, vars: set<string>, must: set<string>)
    requires Binds(b, must)
    ensures Binds(Bind(b, ProjectRow(vars)), must * vars)
  {
    forall m | m in Bind(b, ProjectRow(vars)) ensures must * vars <= m.Keys {
      BindIn(b, ProjectRow(vars), m);
    }
  }

  lemma {:induction false} CertainSound(env: Env, op: Op)
    ensures Binds(Eval(env, op), Certain(op))
    decreases op, 1
  {
    match op
    case Nop =>
    case Pattern(quad, src) => PatternBinds(env, quad, src);
    case PathOp(s, p, o, g) => PathBinds(PathPairs(env, s, p, o, g), s, o);
    case Values(_, rows) =>
      forall m | m in Eval(env, op) ensures Certain(op) <= m.Keys {
        var i :| 0 <= i < |rows| && rows[i] == m;
      }
    case Join(inputs) => CertainAllSound(env, inputs);
    case Union(inputs) => CertainAnySound(env, inputs);
    case LeftJoin(l, r, cond) =>
      CertainSound(env, l);
      LeftJoinTyped(Eval(env, l), Eval(env, r), CondP(env, cond), Certain(l), {}, {});
    case Filter(input, e) =>
      CertainSound(env, input);
      SelectSub(Eval(env, input), SatP(env, e));
    case Extend(input, v, e) =>
      CertainSound(env, input);
      ExtendBinds(env, Eval(env, input), v, e, Certain(input));
    case Project(input, vars) =>
      CertainSound(env, input);
      ProjectBinds(Eval(env, input), vars, Certain(input));
    case Other(_, _) =>
  }

  lemma {:induction false} CertainAllSound(env: Env, ops: seq<Op>)
    ensures Binds(JoinOf(env, ops), CertainAll(ops))
    decreases ops, 0
  {
    if ops != [] {
      CertainSound(env, ops[0]);
      CertainAllSound(env, ops[1..]);
      assert ops == [ops[0]] + ops[1..];
      OfCons(env, ops[0], ops[1..]);
      JoinTyped(Eval(env, ops[0]), Certain(ops[0]), {}, JoinOf(env, ops[1..]), CertainAll(ops[1..]), {});
    }
  }

  lemma {:induction false} CertainAnySound(env: Env, ops: seq<Op>)
    ensures Binds(UnionOf(env, ops), CertainAny(ops))
    decreases ops, 0
  {
    if ops == [] {
      OfNone(env);
    } else {
      CertainSound(env, ops[0]);
      CertainAnySound(env, ops[1..]);
      assert ops == [ops[0]] + ops[1..];
      OfCons(env, ops[0], ops[1..]);
      if |ops| == 1 { OfNone(env); }
    }
  }
}
