/** Products of multisets under a partial, commutative and associative combination of their elements. */
module Products {
  import opened Bags

  type Mix<!A> = (A, A) -> multiset<A>

  ghost function Product<A(!new)>(m: multiset<A>, n: multiset<A>, h: Mix<A>): multiset<A> {
    Bind(m, Rows(n, h))
  }

  ghost predicate Commutative<A(!new)>(h: Mix<A>) {
    forall a, b :: h(a, b) == h(b, a)
  }

  ghost function Left<A(!new)>(h: Mix<A>, c: A): A -> multiset<A> { x => h(x, c) }

  ghost function Right<A(!new)>(h: Mix<A>, a: A): A -> multiset<A> { x => h(a, x) }

  ghost predicate Associative<A(!new)>(h: Mix<A>) {
    forall a, b, c :: Bind(h(a, b), Left(h, c)) == Bind(h(b, c), Right(h, a))
  }

  lemma RowsIs<A(!new)>(n: multiset<A>, h: Mix<A>, a: A)
    ensures Rows(n, h)(a) == Bind(n, Right(h, a))
  {
    BindExt(n, y => h(a, y), Right(h, a));
  }

  lemma ColsIs<A(!new)>(m: multiset<A>, h: Mix<A>, b: A)
    ensures Cols(m, h)(b) == Bind(m, Left(h, b))
  {
    BindExt(m, x => h(x, b), Left(h, b));
  }

  lemma ProductIn<A(!new)>(m: multiset<A>, n: multiset<A>, h: Mix<A>, c: A)
    ensures c in Product(m, n, h) <==> exists a, b :: a in m && b in n && c in h(a, b)
  {
    BindIn(m, Rows(n, h), c);
    forall a
      ensures c in Rows(n, h)(a) <==> exists b :: b in n && c in h(a, b)
    {
      RowsIs(n, h, a);
      BindIn(n, Right(h, a), c);
    }
  }

  lemma ProductComm<A(!new)>(m: multiset<A>, n: multiset<A>, h: Mix<A>)
    requires Commutative(h)
    ensures Product(m, n, h) == Product(n, m, h)
  {
    BindSwap(m, n, h);
    forall b
      ensures Cols(m, h)(b) == Rows(m, h)(b)
    {
      ColsIs(m, h, b);
      RowsIs(m, h, b);
      BindExt(m, Left(h, b), Right(h, b));
    }
    BindExt(n, Cols(m, h), Rows(m, h));
  }

  lemma AssocAtPair<A(!new)>(a: A, b: A, n: multiset<A>, h: Mix<A>)
    requires Associative(h)
    ensures Bind(h(a, b), Rows(n, h)) == Bind(Rows(n, h)(b), Right(h, a))
  {
    RowsIs(n, h, b);
    BindAssoc(n, Right(h, b), Right(h, a));
    BindSwap(h(a, b), n, h);
    forall c
      ensures Cols(h(a, b), h)(c) == Then(Right(h, b), Right(h, a))(c)
    {
      ColsIs(h(a, b), h, c);
    }
    BindExt(n, Cols(h(a, b), h), Then(Right(h, b), Right(h, a)));
  }

  lemma AssocAt<A(!new)>(a: A, m: multiset<A>, n: multiset<A>, h: Mix<A>)
    requires Associative(h)
    ensures Bind(Rows(m, h)(a), Rows(n, h)) == Rows(Product(m, n, h), h)(a)
  {
    RowsIs(m, h, a);
    RowsIs(Product(m, n, h), h, a);
    BindAssoc(m, Right(h, a), Rows(n, h));
    BindAssoc(m, Rows(n, h), Right(h, a));
    forall b
      ensures Then(Right(h, a), Rows(n, h))(b) == Then(Rows(n, h), Right(h, a))(b)
    {
      AssocAtPair(a, b, n, h);
    }
    BindExt(m, Then(Right(h, a), Rows(n, h)), Then(Rows(n, h), Right(h, a)));
  }

  lemma ProductAssoc<A(!new)>(l: multiset<A>, m: multiset<A>, n: multiset<A>, h: Mix<A>)
    requires Associative(h)
    ensures Product(Product(l, m, h), n, h) == Product(l, Product(m, n, h), h)
  {
    BindAssoc(l, Rows(m, h), Rows(n, h));
    forall a
      ensures Then(Rows(m, h), Rows(n, h))(a) == Rows(Product(m, n, h), h)(a)
    {
      AssocAt(a, m, n, h);
    }
    BindExt(l, Then(Rows(m, h), Rows(n, h)), Rows(Product(m, n, h), h));
  }

  lemma ProductUnit<A(!new)>(m: multiset<A>, u: A, h: Mix<A>)
    requires forall a :: h(a, u) == multiset{a}
    ensures Product(m, multiset{u}, h) == m
  {
    forall a
      ensures Rows(multiset{u}, h)(a) == multiset{a}
    {
      RowsIs(multiset{u}, h, a);
      BindOne(u, Right(h, a));
    }
    BindUnit(m, Rows(multiset{u}, h));
  }

  /** A selection moves to the left factor when combining with the right factor never changes its verdict. */
  lemma SelectProduct<A(!new)>(m: multiset<A>, n: multiset<A>, h: Mix<A>, p: A -> bool)
    requires forall a, b, c :: a in m && b in n && c in h(a, b) ==> p(c) == p(a)
    ensures Select(Product(m, n, h), p) == Product(Select(m, p), n, h)
  {
    BindAssoc(m, Rows(n, h), Keep(p));
    BindAssoc(m, Keep(p), Rows(n, h));
    forall a | a in m
      ensures Then(Rows(n, h), Keep(p))(a) == Then(Keep(p), Rows(n, h))(a)
    {
      RowsIs(n, h, a);
      forall c | c in Bind(n, Right(h, a)) ensures p(c) == p(a) { BindIn(n, Right(h, a), c); }
      if p(a) {
        BindOne(a, Rows(n, h));
        BindUnit(Bind(n, Right(h, a)), Keep(p));
      } else {
        BindNone(Rows(n, h));
        BindZero(Bind(n, Right(h, a)), Keep(p));
      }
    }
    BindExt(m, Then(Rows(n, h), Keep(p)), Then(Keep(p), Rows(n, h)));
  }

  /** A left product: every left element is combined with all right elements that pass `cond`,
      and kept bare when there is none. */
  ghost function Fits<A(!new)>(a: A, n: multiset<A>, h: Mix<A>, cond: A -> bool): multiset<A> {
    Select(Bind(n, Right(h, a)), cond)
  }

  ghost function OrBare<A(!new)>(n: multiset<A>, h: Mix<A>, cond: A -> bool): A -> multiset<A> {
    a => if Fits(a, n, h, cond) == multiset{} then multiset{a} else Fits(a, n, h, cond)
  }

  ghost function LeftProduct<A(!new)>(m: multiset<A>, n: multiset<A>, h: Mix<A>, cond: A -> bool): multiset<A> {
    Bind(m, OrBare(n, h, cond))
  }

  lemma FitsIn<A(!new)>(a: A, n: multiset<A>, h: Mix<A>, cond: A -> bool, c: A)
    ensures c in Fits(a, n, h, cond) <==> cond(c) && exists b :: b in n && c in h(a, b)
  {
    SelectIn(Bind(n, Right(h, a)), cond, c);
    BindIn(n, Right(h, a), c);
  }

  lemma LeftProductIn<A(!new)>(m: multiset<A>, n: multiset<A>, h: Mix<A>, cond: A -> bool, c: A)
    requires c in LeftProduct(m, n, h, cond)
    ensures exists a :: a in m && (c == a || exists b :: b in n && c in h(a, b))
  {
    BindIn(m, OrBare(n, h, cond), c);
    var a :| a in m && c in OrBare(n, h, cond)(a);
    FitsIn(a, n, h, cond, c);
  }

  lemma SelectLeftProduct<A(!new)>(m: multiset<A>, n: multiset<A>, h: Mix<A>, cond: A -> bool, p: A -> bool)
    requires forall a, b, c :: a in m && b in n && c in h(a, b) ==> p(c) == p(a)
    ensures Select(LeftProduct(m, n, h, cond), p) == LeftProduct(Select(m, p), n, h, cond)
  {
    var f := OrBare(n, h, cond);
    BindAssoc(m, f, Keep(p));
    BindAssoc(m, Keep(p), f);
    forall a | a in m
      ensures Then(f, Keep(p))(a) == Then(Keep(p), f)(a)
    {
      forall c | c in f(a) ensures p(c) == p(a) { FitsIn(a, n, h, cond, c); }
      if p(a) {
        BindOne(a, f);
        BindUnit(f(a), Keep(p));
      } else {
        BindNone(f);
        BindZero(f(a), Keep(p));
      }
    }
    BindExt(m, Then(f, Keep(p)), Then(Keep(p), f));
  }

  /** A condition decided by the right element alone can be checked before combining. */
  lemma FitsRight<A(!new)>(a: A, n: multiset<A>, h: Mix<A>, cond: A -> bool, all: A -> bool)
    requires forall b, c :: b in n && c in h(a, b) ==> cond(c) == cond(b)
    requires forall c :: all(c)
    ensures Fits(a, n, h, cond) == Fits(a, Select(n, cond), h, all)
  {
    BindAssoc(n, Right(h, a), Keep(cond));
    BindAssoc(n, Keep(cond), Right(h, a));
    forall b | b in n
      ensures Then(Right(h, a), Keep(cond))(b) == Then(Keep(cond), Right(h, a))(b)
    {
      if cond(b) {
        BindOne(b, Right(h, a));
        BindUnit(h(a, b), Keep(cond));
      } else {
        BindNone(Right(h, a));
        BindZero(h(a, b), Keep(cond));
      }
    }
    BindExt(n, Then(Right(h, a), Keep(cond)), Then(Keep(cond), Right(h, a)));
    SelectAll(Bind(Select(n, cond), Right(h, a)), all);
  }

  lemma LeftProductRight<A(!new)>(m: multiset<A>, n: multiset<A>, h: Mix<A>, cond: A -> bool, all: A -> bool)
    requires forall a, b, c :: a in m && b in n && c in h(a, b) ==> cond(c) == cond(b)
    requires forall c :: all(c)
    ensures LeftProduct(m, n, h, cond) == LeftProduct(m, Select(n, cond), h, all)
  {
    forall a | a in m ensures OrBare(n, h, cond)(a) == OrBare(Select(n, cond), h, all)(a) {
      FitsRight(a, n, h, cond, all);
    }
    BindExt(m, OrBare(n, h, cond), OrBare(Select(n, cond), h, all));
  }
}
