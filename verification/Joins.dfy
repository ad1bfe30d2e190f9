/** Joins, unions and left joins of solution multisets (section 18.5 of SPARQL 1.1 Query Language). */
module Joins {
  import opened Terms
  import opened Bags
  import opened Products

  type Bag = multiset<Mapping>

  ghost const Unit: Bag := multiset{map[]}

  ghost function Merge(a: Mapping, b: Mapping): Bag {
    if Compatible(a, b) then multiset{a + b} else multiset{}
  }

  ghost function JoinBag(m: Bag, n: Bag): Bag {
    Product(m, n, Merge)
  }

  lemma JoinIn(m: Bag, n: Bag, c: Mapping)
    ensures c in JoinBag(m, n) <==> exists a, b :: a in m && b in n && Compatible(a, b) && c == a + b
  {
    ProductIn(m, n, Merge, c);
    if a, b :| a in m && b in n && Compatible(a, b) && c == a + b {
      assert c in Merge(a, b);
    }
  }

  lemma MergeCommutative()
    ensures Commutative(Merge)
  {
    forall a, b
      ensures Merge(a, b) == Merge(b, a)
    {
      if Compatible(a, b) { assert a + b == b + a; }
    }
  }

  lemma CompatiblePlus(a: Mapping, b: Mapping, c: Mapping)
    requires Compatible(a, b)
    ensures Compatible(a + b, c) <==> Compatible(a, c) && Compatible(b, c)
    ensures Compatible(c, a + b) <==> Compatible(c, a) && Compatible(c, b)
  {
    forall x | x in a ensures (a + b)[x] == a[x] {}
  }

  lemma MergeAssoc(a: Mapping, b: Mapping, c: Mapping)
    ensures Bind(Merge(a, b), Left(Merge, c)) == Bind(Merge(b, c), Right(Merge, a))
  {
    BindNone(Left(Merge, c));
    BindNone(Right(Merge, a));
    if Compatible(a, b) {
      BindOne(a + b, Left(Merge, c));
      CompatiblePlus(a, b, c);
    }
    if Compatible(b, c) {
      BindOne(b + c, Right(Merge, a));
      CompatiblePlus(b, c, a);
    }
    assert (a + b) + c == a + (b + c);
    assert Merge(a + b, c) == Merge(a, b + c) || !Compatible(a, b) || !Compatible(b, c);
  }

  lemma MergeAssociative()
    ensures Associative(Merge)
  {
    forall a, b, c
      ensures Bind(Merge(a, b), Left(Merge, c)) == Bind(Merge(b, c), Right(Merge, a))
    {
      MergeAssoc(a, b, c);
    }
  }

  lemma JoinComm(m: Bag, n: Bag)
    ensures JoinBag(m, n) == JoinBag(n, m)
  {
    MergeCommutative();
    ProductComm(m, n, Merge);
  }

  lemma JoinAssoc(l: Bag, m: Bag, n: Bag)
    ensures JoinBag(JoinBag(l, m), n) == JoinBag(l, JoinBag(m, n))
  {
    MergeAssociative();
    ProductAssoc(l, m, n, Merge);
  }

  lemma JoinUnit(m: Bag)
    ensures JoinBag(m, Unit) == m && JoinBag(Unit, m) == m
  {
    forall a: Mapping
      ensures Merge(a, map[]) == multiset{a}
    {
      assert a + map[] == a;
    }
    ProductUnit(m, map[], Merge);
    JoinComm(m, Unit);
  }

  lemma JoinZero(m: Bag)
    ensures JoinBag(m, multiset{}) == multiset{} && JoinBag(multiset{}, m) == multiset{}
  {
    BindNone(Rows(m, Merge));
    JoinComm(m, multiset{});
  }

  /** Two single compatible solutions. */
  lemma OneJoin(a: Mapping, b: Mapping)
    requires Compatible(a, b)
    ensures JoinBag(multiset{a}, multiset{b}) == multiset{a + b}
  {
    RowsIs(multiset{b}, Merge, a);
    BindOne(a, Rows(multiset{b}, Merge));
    BindOne(b, Right(Merge, a));
    assert Rows(multiset{b}, Merge)(a) == Bind(multiset{b}, Right(Merge, a)) == Merge(a, b);
  }

  /** A multiway join and a multiway union, operands in order. */
  ghost function JoinAll(ms: seq<Bag>): Bag { Reduce(ms, Unit, JoinBag) }

  ghost function Plus(m: Bag, n: Bag): Bag { m + n }

  ghost function UnionAll(ms: seq<Bag>): Bag { Reduce(ms, multiset{}, Plus) }

  lemma AllNone()
    ensures JoinAll([]) == Unit && UnionAll([]) == multiset{}
  {
    ReduceNone(Unit, JoinBag);
    ReduceNone(multiset{}, Plus);
  }

  lemma AllCons(m: Bag, ms: seq<Bag>)
    ensures JoinAll([m] + ms) == JoinBag(m, JoinAll(ms))
    ensures UnionAll([m] + ms) == m + UnionAll(ms)
  {
    ReduceCons(m, ms, Unit, JoinBag);
    ReduceCons(m, ms, multiset{}, Plus);
  }

  lemma AllOne(m: Bag)
    ensures JoinAll([m]) == m && UnionAll([m]) == m
  {
    AllNone();
    AllCons(m, []);
    assert [m] + [] == [m];
    JoinUnit(m);
  }

  lemma AllConcat(ms: seq<Bag>, ns: seq<Bag>)
    ensures JoinAll(ms + ns) == JoinBag(JoinAll(ms), JoinAll(ns))
    ensures UnionAll(ms + ns) == UnionAll(ms) + UnionAll(ns)
  {
    forall a ensures JoinBag(Unit, a) == a { JoinUnit(a); }
    forall a, b, c ensures JoinBag(JoinBag(a, b), c) == JoinBag(a, JoinBag(b, c)) { JoinAssoc(a, b, c); }
    ReduceConcat(ms, ns, Unit, JoinBag);
    forall a ensures Plus(multiset{}, a) == a {}
    forall a, b, c ensures Plus(Plus(a, b), c) == Plus(a, Plus(b, c)) {}
    ReduceConcat(ms, ns, multiset{}, Plus);
  }

  /** Joining is commutative and associative, so the middle of three can be taken out to the front. */
  lemma JoinRotate(x: Bag, g: Bag, t: Bag)
    ensures JoinBag(x, JoinBag(g, t)) == JoinBag(g, JoinBag(x, t))
    ensures JoinBag(x, JoinBag(g, t)) == JoinBag(JoinBag(x, g), t)
  {
    JoinAssoc(x, g, t);
    JoinComm(x, g);
    JoinAssoc(g, x, t);
  }

  /** Every solution of `m` binds all of `must`. */
  ghost predicate Binds(m: Bag, must: set<string>) {
    forall a :: a in m ==> must <= a.Keys
  }

  /** No solution of `m` binds anything outside `may`. */
  ghost predicate Within(m: Bag, may: set<string>) {
    forall a :: a in m ==> a.Keys <= may
  }

  lemma JoinTyped(m: Bag, must: set<string>, may: set<string>, n: Bag, must': set<string>, may': set<string>)
    ensures Binds(m, must) && Binds(n, must') ==> Binds(JoinBag(m, n), must + must')
    ensures Within(m, may) && Within(n, may') ==> Within(JoinBag(m, n), may + may')
  {
    forall c | c in JoinBag(m, n)
      ensures Binds(m, must) && Binds(n, must') ==> must + must' <= c.Keys
      ensures Within(m, may) && Within(n, may') ==> c.Keys <= may + may'
    {
      JoinIn(m, n, c);
    }
  }

  /** The verdict of `p` depends on the variables of `vars` only. */
  ghost predicate ReadsOnly(p: Mapping -> bool, vars: set<string>) {
    forall a, b :: Agree(a, b, vars) ==> p(a) == p(b)
  }

  /** A filter moves to one operand of a join when whatever variables that operand may leave open
      are not bound by the other operand either. */
  lemma SelectJoin(m: Bag, n: Bag, p: Mapping -> bool, vars: set<string>, must: set<string>, may: set<string>)
    requires ReadsOnly(p, vars)
    requires Binds(m, must) && Within(n, may)
    requires vars * may <= must
    ensures Select(JoinBag(m, n), p) == JoinBag(Select(m, p), n)
  {
    forall a, b, c | a in m && b in n && c in Merge(a, b)
      ensures p(c) == p(a)
    {
      assert Agree(c, a, vars);
    }
    SelectProduct(m, n, Merge, p);
  }

  lemma {:induction false} SelectUnion(ms: Bag, ns: Bag, p: Mapping -> bool)
    ensures Select(ms + ns, p) == Select(ms, p) + Select(ns, p)
  {
    BindAdd(ms, ns, Keep(p));
  }

  ghost function LeftJoinBag(m: Bag, n: Bag, cond: Mapping -> bool): Bag {
    LeftProduct(m, n, Merge, cond)
  }

  lemma LeftJoinTyped(m: Bag, n: Bag, cond: Mapping -> bool, must: set<string>, may: set<string>, may': set<string>)
    ensures Binds(m, must) ==> Binds(LeftJoinBag(m, n, cond), must)
    ensures Within(m, may) && Within(n, may') ==> Within(LeftJoinBag(m, n, cond), may + may')
  {
    forall c | c in LeftJoinBag(m, n, cond)
      ensures Binds(m, must) ==> must <= c.Keys
      ensures Within(m, may) && Within(n, may') ==> c.Keys <= may + may'
    {
      LeftProductIn(m, n, Merge, cond, c);
    }
  }

  /** A filter moves to the left operand of a left join when whatever variables that operand may leave open are not
      bound by the right operand. */
  lemma SelectLeftJoin(
    m: Bag, n: Bag, cond: Mapping -> bool, p: Mapping -> bool, vars: set<string>, must: set<string>, may: set<string>)
    requires ReadsOnly(p, vars) && Binds(m, must) && Within(n, may) && vars * may <= must
    ensures Select(LeftJoinBag(m, n, cond), p) == LeftJoinBag(Select(m, p), n, cond)
  {
    forall a, b, c | a in m && b in n && c in Merge(a, b)
      ensures p(c) == p(a)
    {
      forall x | x in vars && x in b ensures x in a { assert x in vars * may; }
      assert Agree(c, a, vars);
    }
    SelectLeftProduct(m, n, Merge, cond, p);
  }

  /** A condition that reads nothing the left operand can bind can be checked on the right operand alone. */
  lemma LeftJoinConditionRight(
    m: Bag, n: Bag, cond: Mapping -> bool, all: Mapping -> bool, vars: set<string>, may: set<string>)
    requires ReadsOnly(cond, vars) && Within(m, may) && vars * may == {}
    requires forall c :: all(c)
    ensures LeftJoinBag(m, n, cond) == LeftJoinBag(m, Select(n, cond), all)
  {
    forall a, b, c | a in m && b in n && c in Merge(a, b)
      ensures cond(c) == cond(b)
    {
      forall x | x in vars ensures x !in a { assert x !in vars * may; }
      assert Agree(c, b, vars);
    }
    LeftProductRight(m, n, Merge, cond, all);
  }
}
