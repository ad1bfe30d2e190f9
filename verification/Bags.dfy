/** Multisets as a monad: every operator of the SPARQL algebra is a `Bind`. */
module Bags {

  /** The solution picked first when a multiset is folded; `PickFree` shows that the choice never matters. */
  ghost function Pick<A(!new)>(m: multiset<A>): (a: A)
    requires m != multiset{}
    ensures a in m
  {
    var a :| a in m;
    a
  }

  ghost function Fold<A(!new), B(!new)>(m: multiset<A>, f: A -> multiset<B>): multiset<B>
    decreases |m|
  {
    if m == multiset{} then multiset{} else
    var a := Pick(m);
    f(a) + Fold(m - multiset{a}, f)
  }

  /** The multiset of all results of `f` on the elements of `m`. It is some function that satisfies the equation
      of `Fold`, so that proofs see that equation only where they call `Unfold`, and use its laws elsewhere. */
  ghost function Bind<A(!new), B(!new)>(m: multiset<A>, f: A -> multiset<B>): multiset<B> {
    Folder<A, B>()(m, f)
  }

  ghost predicate Step<A(!new), B(!new)>(m: multiset<A>, f: A -> multiset<B>) { true }

  ghost predicate Folds<A(!new), B(!new)>(fold: (multiset<A>, A -> multiset<B>) -> multiset<B>) {
    forall m: multiset<A>, f: A -> multiset<B> {:trigger Step(m, f)} :: Step(m, f) ==>
      fold(m, f) == if m == multiset{} then multiset{} else f(Pick(m)) + fold(m - multiset{Pick(m)}, f)
  }

  ghost function Folder<A(!new), B(!new)>(): (fold: (multiset<A>, A -> multiset<B>) -> multiset<B>)
    ensures Folds(fold)
  {
    var g := (m: multiset<A>, f: A -> multiset<B>) => Fold(m, f);
    assert Folds(g);
    var fold: (multiset<A>, A -> multiset<B>) -> multiset<B> :| Folds(fold);
    fold
  }

  lemma Unfold<A(!new), B(!new)>(m: multiset<A>, f: A -> multiset<B>)
    ensures Bind(m, f) == if m == multiset{} then multiset{} else f(Pick(m)) + Bind(m - multiset{Pick(m)}, f)
  {
    assert Step(m, f);
  }

  lemma BindNone<A(!new), B(!new)>(f: A -> multiset<B>)
    ensures Bind(multiset{}, f) == multiset{}
  {
    Unfold(multiset{}, f);
  }

  lemma {:induction false} PickFree<A(!new), B(!new)>(m: multiset<A>, f: A -> multiset<B>, x: A)
    requires x in m
    ensures Bind(m, f) == f(x) + Bind(m - multiset{x}, f)
    decreases |m|
  {
    Unfold(m, f);
    var a := Pick(m);
    if a != x {
      PickFree(m - multiset{a}, f, x);
      PickFree(m - multiset{x}, f, a);
      assert m - multiset{a} - multiset{x} == m - multiset{x} - multiset{a};
    }
  }

  lemma BindOne<A(!new), B(!new)>(x: A, f: A -> multiset<B>)
    ensures Bind(multiset{x}, f) == f(x)
  {
    BindNone(f);
    PickFree(multiset{x}, f, x);
    assert multiset{x} - multiset{x} == multiset{};
  }

  lemma {:induction false} BindAdd<A(!new), B(!new)>(m: multiset<A>, n: multiset<A>, f: A -> multiset<B>)
    ensures Bind(m + n, f) == Bind(m, f) + Bind(n, f)
    decreases |m|
  {
    Unfold(m, f);
    if m == multiset{} {
      assert m + n == n;
    } else {
      var x := Pick(m);
      PickFree(m + n, f, x);
      assert m + n - multiset{x} == (m - multiset{x}) + n;
      BindAdd(m - multiset{x}, n, f);
    }
  }

  lemma {:induction false} BindExt<A(!new), B(!new)>(m: multiset<A>, f: A -> multiset<B>, g: A -> multiset<B>)
    requires forall x :: x in m ==> f(x) == g(x)
    ensures Bind(m, f) == Bind(m, g)
    decreases |m|
  {
    Unfold(m, f);
    Unfold(m, g);
    if m != multiset{} {
      BindExt(m - multiset{Pick(m)}, f, g);
    }
  }

  lemma {:induction false} BindIn<A(!new), B(!new)>(m: multiset<A>, f: A -> multiset<B>, y: B)
    ensures y in Bind(m, f) <==> exists x :: x in m && y in f(x)
    decreases |m|
  {
    Unfold(m, f);
    if m != multiset{} {
      var a := Pick(m);
      BindIn(m - multiset{a}, f, y);
      if x :| x in m && y in f(x) {
        assert x == a || x in m - multiset{a};
      }
    }
  }

  lemma {:induction false} BindUnit<A(!new)>(m: multiset<A>, f: A -> multiset<A>)
    requires forall x :: x in m ==> f(x) == multiset{x}
    ensures Bind(m, f) == m
    decreases |m|
  {
    Unfold(m, f);
    if m != multiset{} {
      BindUnit(m - multiset{Pick(m)}, f);
    }
  }

  lemma {:induction false} BindZero<A(!new), B(!new)>(m: multiset<A>, f: A -> multiset<B>)
    requires forall x :: x in m ==> f(x) == multiset{}
    ensures Bind(m, f) == multiset{}
    decreases |m|
  {
    Unfold(m, f);
    if m != multiset{} {
      BindZero(m - multiset{Pick(m)}, f);
    }
  }

  /** Sequencing two binds. */
  ghost function Then<A(!new), B(!new), C(!new)>(f: A -> multiset<B>, g: B -> multiset<C>): A -> multiset<C> {
    x => Bind(f(x), g)
  }

  lemma {:induction false} BindAssoc<A(!new), B(!new), C(!new)>(
    m: multiset<A>, f: A -> multiset<B>, g: B -> multiset<C>)
    ensures Bind(Bind(m, f), g) == Bind(m, Then(f, g))
    decreases |m|
  {
    Unfold(m, f);
    Unfold(m, Then(f, g));
    BindNone(g);
    if m != multiset{} {
      var x := Pick(m);
      BindAssoc(m - multiset{x}, f, g);
      BindAdd(f(x), Bind(m - multiset{x}, f), g);
    }
  }

  /** `Bind` over two multisets with the outer loop on the left, and on the right. */
  ghost function Rows<A(!new), B(!new), C(!new)>(n: multiset<B>, h: (A, B) -> multiset<C>): A -> multiset<C> {
    x => Bind(n, y => h(x, y))
  }

  ghost function Cols<A(!new), B(!new), C(!new)>(m: multiset<A>, h: (A, B) -> multiset<C>): B -> multiset<C> {
    y => Bind(m, x => h(x, y))
  }

  lemma {:induction false} BindSum<A(!new), B(!new)>(
    m: multiset<A>, f: A -> multiset<B>, g: A -> multiset<B>, h: A -> multiset<B>)
    requires forall x :: x in m ==> h(x) == f(x) + g(x)
    ensures Bind(m, h) == Bind(m, f) + Bind(m, g)
    decreases |m|
  {
    Unfold(m, f);
    Unfold(m, g);
    Unfold(m, h);
    if m != multiset{} {
      BindSum(m - multiset{Pick(m)}, f, g, h);
    }
  }

  lemma {:induction false} BindSwap<A(!new), B(!new), C(!new)>(
    m: multiset<A>, n: multiset<B>, h: (A, B) -> multiset<C>)
    ensures Bind(m, Rows(n, h)) == Bind(n, Cols(m, h))
    decreases |m|
  {
    Unfold(m, Rows(n, h));
    if m == multiset{} {
      forall y ensures Cols(m, h)(y) == multiset{} { Unfold(m, x => h(x, y)); }
      BindZero(n, Cols(m, h));
    } else {
      var a := Pick(m);
      var rest := m - multiset{a};
      BindSwap(rest, n, h);
      forall y | y in n
        ensures Cols(m, h)(y) == h(a, y) + Cols(rest, h)(y)
      {
        PickFree(m, x => h(x, y), a);
      }
      BindSum(n, y => h(a, y), Cols(rest, h), Cols(m, h));
    }
  }

  /** The elements of `m` that satisfy `p`. */
  ghost function Select<A(!new)>(m: multiset<A>, p: A -> bool): multiset<A> {
    Bind(m, Keep(p))
  }

  ghost function Keep<A(!new)>(p: A -> bool): A -> multiset<A> {
    x => if p(x) then multiset{x} else multiset{}
  }

  lemma SelectIn<A(!new)>(m: multiset<A>, p: A -> bool, y: A)
    ensures y in Select(m, p) <==> y in m && p(y)
  {
    BindIn(m, Keep(p), y);
  }

  lemma SelectSub<A(!new)>(m: multiset<A>, p: A -> bool)
    ensures Select(m, p) <= m
    decreases |m|
  {
    Unfold(m, Keep(p));
    if m != multiset{} {
      SelectSub(m - multiset{Pick(m)}, p);
    }
  }

  lemma SelectTwice<A(!new)>(m: multiset<A>, p: A -> bool, q: A -> bool, r: A -> bool)
    requires forall x :: x in m ==> (r(x) <==> p(x) && q(x))
    ensures Select(Select(m, p), q) == Select(m, r)
  {
    BindAssoc(m, Keep(p), Keep(q));
    forall x | x in m
      ensures Then(Keep(p), Keep(q))(x) == Keep(r)(x)
    {
      BindOne(x, Keep(q));
      BindNone(Keep(q));
    }
    BindExt(m, Then(Keep(p), Keep(q)), Keep(r));
  }

  lemma SelectAll<A(!new)>(m: multiset<A>, p: A -> bool)
    ensures Select(m, p) == m <==> forall x :: x in m ==> p(x)
  {
    if forall x :: x in m ==> p(x) {
      BindUnit(m, Keep(p));
    } else {
      var x :| x in m && !p(x);
      SelectIn(m, p, x);
    }
  }

  lemma SelectSwap<A(!new)>(m: multiset<A>, p: A -> bool, q: A -> bool)
    ensures Select(Select(m, p), q) == Select(Select(m, q), p)
  {
    SelectTwice(m, p, q, x => p(x) && q(x));
    SelectTwice(m, q, p, x => p(x) && q(x));
  }

  /** A selection moves below a `Bind` that never changes its verdict. */
  lemma SelectBind<A(!new), B(!new)>(m: multiset<A>, f: A -> multiset<B>, p: A -> bool, q: B -> bool)
    requires forall x, y :: x in m && y in f(x) ==> q(y) == p(x)
    ensures Select(Bind(m, f), q) == Bind(Select(m, p), f)
  {
    BindAssoc(m, f, Keep(q));
    BindAssoc(m, Keep(p), f);
    forall x | x in m
      ensures Then(f, Keep(q))(x) == Then(Keep(p), f)(x)
    {
      if p(x) {
        BindOne(x, f);
        BindUnit(f(x), Keep(q));
      } else {
        BindNone(f);
        BindZero(f(x), Keep(q));
      }
    }
    BindExt(m, Then(f, Keep(q)), Then(Keep(p), f));
  }

  lemma SelectExt<A(!new)>(m: multiset<A>, p: A -> bool, q: A -> bool)
    requires forall x :: x in m ==> p(x) == q(x)
    ensures Select(m, p) == Select(m, q)
  {
    BindExt(m, Keep(p), Keep(q));
  }

  /** No element occurs twice. */
  ghost predicate Distinct<A(!new)>(m: multiset<A>) {
    forall x :: m[x] <= 1
  }

  lemma DistinctEqual<A(!new)>(m: multiset<A>, n: multiset<A>)
    requires Distinct(m) && Distinct(n)
    ensures m == n <==> forall x :: x in m <==> x in n
  {
    if forall x :: x in m <==> x in n {
      forall x ensures m[x] == n[x] { assert x in m <==> x in n; }
    }
  }

  lemma SelectDistinct<A(!new)>(m: multiset<A>, p: A -> bool)
    requires Distinct(m)
    ensures Distinct(Select(m, p))
  {
    SelectSub(m, p);
  }

  lemma {:induction false} BindDistinct<A(!new), B(!new)>(m: multiset<A>, f: A -> multiset<B>)
    requires Distinct(m)
    requires forall x :: x in m ==> Distinct(f(x))
    requires forall x, y, z :: x in m && y in m && z in f(x) && z in f(y) ==> x == y
    ensures Distinct(Bind(m, f))
    decreases |m|
  {
    Unfold(m, f);
    if m != multiset{} {
      var a := Pick(m);
      var rest := m - multiset{a};
      assert m[a] <= 1;
      forall x ensures rest[x] <= 1 { assert m[x] <= 1; }
      BindDistinct(rest, f);
      forall z ensures Bind(m, f)[z] <= 1 {
        BindIn(rest, f, z);
        assert f(a)[z] <= 1 && Bind(rest, f)[z] <= 1;
      }
    }
  }

  /** Every element has one result at most, and different elements have different results. */
  ghost predicate Injective<A(!new), B(!new)>(f: A -> multiset<B>) {
    && (forall x :: f(x) == multiset{} || exists y :: f(x) == multiset{y})
    && (forall x, x', y :: y in f(x) && y in f(x') ==> x == x')
  }

  lemma {:induction false} BindCount<A(!new), B(!new)>(m: multiset<A>, f: A -> multiset<B>, x: A, y: B)
    requires Injective(f) && f(x) == multiset{y}
    ensures Bind(m, f)[y] == m[x]
    decreases |m|
  {
    Unfold(m, f);
    if m != multiset{} {
      var a := Pick(m);
      BindCount(m - multiset{a}, f, x, y);
      if a != x { assert y in f(x) && y !in f(a); }
    }
  }

  lemma BindSame<A(!new), B(!new)>(m: multiset<A>, n: multiset<A>, f: A -> multiset<B>, y: B)
    requires Injective(f) && forall x :: f(x) != multiset{} ==> m[x] == n[x]
    ensures Bind(m, f)[y] == Bind(n, f)[y]
  {
    BindIn(m, f, y);
    BindIn(n, f, y);
    if x :| y in f(x) {
      assert f(x) == multiset{y};
      BindCount(m, f, x, y);
      BindCount(n, f, x, y);
    }
  }

  /** Such results determine how often each element that has one occurs. */
  lemma BindInjective<A(!new), B(!new)>(m: multiset<A>, n: multiset<A>, f: A -> multiset<B>)
    requires Injective(f)
    ensures Bind(m, f) == Bind(n, f) <==> forall x :: f(x) != multiset{} ==> m[x] == n[x]
  {
    if forall x :: f(x) != multiset{} ==> m[x] == n[x] {
      forall y ensures Bind(m, f)[y] == Bind(n, f)[y] { BindSame(m, n, f, y); }
    }
    if Bind(m, f) == Bind(n, f) {
      forall x | f(x) != multiset{} ensures m[x] == n[x] {
        var y :| f(x) == multiset{y};
        BindCount(m, f, x, y);
        BindCount(n, f, x, y);
      }
    }
  }

  // ----- folding a sequence -----

  /** `unit` combined with the elements of `s` from the right; like `Bind`, used through its laws only. */
  ghost function Reduce<A(!new)>(s: seq<A>, unit: A, f: (A, A) -> A): A {
    Reducer<A>()(s, unit, f)
  }

  ghost function Reduced<A(!new)>(s: seq<A>, unit: A, f: (A, A) -> A): A {
    if s == [] then unit else f(s[0], Reduced(s[1..], unit, f))
  }

  ghost predicate Turn<A(!new)>(s: seq<A>, unit: A, f: (A, A) -> A) { true }

  ghost predicate Reduces<A(!new)>(reduce: (seq<A>, A, (A, A) -> A) -> A) {
    forall s: seq<A>, unit: A, f: (A, A) -> A {:trigger Turn(s, unit, f)} :: Turn(s, unit, f) ==>
      reduce(s, unit, f) == if s == [] then unit else f(s[0], reduce(s[1..], unit, f))
  }

  ghost function Reducer<A(!new)>(): (reduce: (seq<A>, A, (A, A) -> A) -> A)
    ensures Reduces(reduce)
  {
    var g := (s: seq<A>, unit: A, f: (A, A) -> A) => Reduced(s, unit, f);
    assert Reduces(g);
    var reduce: (seq<A>, A, (A, A) -> A) -> A :| Reduces(reduce);
    reduce
  }

  lemma ReduceNone<A(!new)>(unit: A, f: (A, A) -> A)
    ensures Reduce([], unit, f) == unit
  {
    assert Turn([], unit, f);
  }

  lemma ReduceCons<A(!new)>(a: A, s: seq<A>, unit: A, f: (A, A) -> A)
    ensures Reduce([a] + s, unit, f) == f(a, Reduce(s, unit, f))
  {
    assert Turn([a] + s, unit, f);
    assert ([a] + s)[1..] == s;
  }

  lemma {:induction false} ReduceConcat<A(!new)>(s: seq<A>, t: seq<A>, unit: A, f: (A, A) -> A)
    requires forall a :: f(unit, a) == a
    requires forall a, b, c :: f(f(a, b), c) == f(a, f(b, c))
    ensures Reduce(s + t, unit, f) == f(Reduce(s, unit, f), Reduce(t, unit, f))
  {
    if s == [] {
      ReduceNone(unit, f);
      assert s + t == t;
    } else {
      ReduceConcat(s[1..], t, unit, f);
      ReduceCons(s[0], s[1..], unit, f);
      ReduceCons(s[0], s[1..] + t, unit, f);
      assert [s[0]] + s[1..] == s && [s[0]] + (s[1..] + t) == s + t;
    }
  }
}
