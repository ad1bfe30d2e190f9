/** Sums of weights over sequences and finite sets. */
module Sums {
  function SumSeq<A>(w: A -> nat, s: seq<A>): nat {
    if s == [] then 0 else w(s[0]) + SumSeq(w, s[1..])
  }

  ghost function SumSet<A(!new)>(w: A -> nat, s: set<A>): nat {
    if s == {} then 0 else
    var a :| a in s;
    w(a) + SumSet(w, s - {a})
  }

  lemma {:induction false} SumSetPick<A(!new)>(w: A -> nat, s: set<A>, a: A)
    requires a in s
    ensures SumSet(w, s) == w(a) + SumSet(w, s - {a})
  {
    var b :| b in s && SumSet(w, s) == w(b) + SumSet(w, s - {b});
    if b != a {
      SumSetPick(w, s - {b}, a);
      SumSetPick(w, s - {a}, b);
      assert s - {b} - {a} == s - {a} - {b};
    }
  }

  lemma {:induction false} SumSeqConcat<A>(w: A -> nat, s: seq<A>, t: seq<A>)
    ensures SumSeq(w, s + t) == SumSeq(w, s) + SumSeq(w, t)
  {
    if s == [] {
      assert s + t == t;
    } else {
      assert (s + t)[1..] == s[1..] + t;
      SumSeqConcat(w, s[1..], t);
    }
  }

  lemma SumSeqOne<A>(w: A -> nat, a: A)
    ensures SumSeq(w, [a]) == w(a)
  {
    assert [a][1..] == [];
  }

  function Without<A>(s: seq<A>, i: nat): seq<A>
    requires i < |s|
  {
    s[..i] + s[i + 1..]
  }

  lemma SumSeqAt<A>(w: A -> nat, s: seq<A>, i: nat, a: A)
    requires i < |s|
    ensures SumSeq(w, s) == SumSeq(w, Without(s, i)) + w(s[i])
    ensures SumSeq(w, s[i := a]) == SumSeq(w, Without(s, i)) + w(a)
  {
    var l, r := s[..i], s[i + 1..];
    SumSeqConcat(w, l, r);
    SumSeqConcat(w, l + [s[i]], r);
    SumSeqConcat(w, l, [s[i]]);
    SumSeqOne(w, s[i]);
    SumSeqConcat(w, l + [a], r);
    SumSeqConcat(w, l, [a]);
    SumSeqOne(w, a);
    assert s == l + [s[i]] + r && s[i := a] == l + [a] + r;
  }

  // ----- sums of bags -----

  function SumBag<A, V>(w: A -> multiset<V>, s: seq<A>): multiset<V> {
    if s == [] then multiset{} else w(s[0]) + SumBag(w, s[1..])
  }

  lemma {:induction false} SumBagConcat<A, V>(w: A -> multiset<V>, s: seq<A>, t: seq<A>)
    ensures SumBag(w, s + t) == SumBag(w, s) + SumBag(w, t)
  {
    if s == [] {
      assert s + t == t;
    } else {
      assert (s + t)[1..] == s[1..] + t;
      SumBagConcat(w, s[1..], t);
    }
  }

  lemma SumBagOne<A, V>(w: A -> multiset<V>, a: A)
    ensures SumBag(w, [a]) == w(a)
  {
    assert [a][1..] == [];
  }

  lemma SumBagInsert<A, V>(w: A -> multiset<V>, l: seq<A>, a: A, r: seq<A>)
    ensures SumBag(w, l + [a] + r) == SumBag(w, l + r) + w(a)
  {
    SumBagConcat(w, l, r);
    SumBagConcat(w, l + [a], r);
    SumBagConcat(w, l, [a]);
    SumBagOne(w, a);
  }

  lemma SumBagAt<A, V>(w: A -> multiset<V>, s: seq<A>, i: nat, a: A)
    requires i < |s|
    ensures SumBag(w, s) == SumBag(w, Without(s, i)) + w(s[i])
    ensures SumBag(w, s[i := a]) == SumBag(w, Without(s, i)) + w(a)
  {
    var l, r := s[..i], s[i + 1..];
    SumBagInsert(w, l, s[i], r);
    SumBagInsert(w, l, a, r);
    assert s == l + [s[i]] + r && s[i := a] == l + [a] + r;
  }

  lemma SwapSum<V>(a: multiset<V>, b: multiset<V>, x: multiset<V>, y: multiset<V>, rest: multiset<V>)
    requires a + x == b + y
    ensures a + (rest + x) == b + (rest + y)
  {
    assert a + (rest + x) == (a + x) + rest && b + (rest + y) == (b + y) + rest;
  }
}
