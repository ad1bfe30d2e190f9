/** When sorting passes keep the order of equal items, so that ORDER BY sorts by all of its keys. */
module SortStability {
  import opened Terms
  import opened Bags
  import opened SortWindow
  import opened SortIterator

  /** The items equal to `x`, in order. */
  function Ties<T>(cmp: Compare<T>, x: T, s: seq<T>): seq<T> {
    if s == [] then []
    else Ties(cmp, x, s[..|s| - 1]) + (if cmp(x, s[|s| - 1]) == 0 then [s[|s| - 1]] else [])
  }

  /** A pass is stable on its input: equal items come out in the order in which they went in. */
  ghost predicate Stable<T(!new)>(cmp: Compare<T>, items: seq<T>) {
    forall x :: Ties(cmp, x, Output(cmp, None, items)) == Ties(cmp, x, items)
  }

  // ----- ties -----

  lemma {:induction false} TiesConcat<T>(cmp: Compare<T>, x: T, s: seq<T>, t: seq<T>)
    ensures Ties(cmp, x, s + t) == Ties(cmp, x, s) + Ties(cmp, x, t)
  {
    if t == [] {
      assert s + t == s;
    } else {
      TiesConcat(cmp, x, s, t[..|t| - 1]);
      assert (s + t)[..|s + t| - 1] == s + t[..|t| - 1];
    }
  }

  lemma TiesOne<T>(cmp: Compare<T>, x: T, y: T)
    ensures Ties(cmp, x, [y]) == if cmp(x, y) == 0 then [y] else []
  {
    assert [y][..0] == [];
  }

  lemma TiesSplit<T>(cmp: Compare<T>, x: T, s: seq<T>, i: nat)
    requires i < |s|
    ensures Ties(cmp, x, s) == Ties(cmp, x, s[..i]) + Ties(cmp, x, [s[i]]) + Ties(cmp, x, s[i + 1..])
    ensures |Ties(cmp, x, [s[i]])| == if cmp(x, s[i]) == 0 then 1 else 0
  {
    assert s == s[..i] + [s[i]] + s[i + 1..];
    TiesConcat(cmp, x, s[..i] + [s[i]], s[i + 1..]);
    TiesConcat(cmp, x, s[..i], [s[i]]);
    TiesOne(cmp, x, s[i]);
  }

  lemma {:induction false} TiesReverse<T>(cmp: Compare<T>, x: T, s: seq<T>)
    ensures Ties(cmp, x, Reverse(s)) == Reverse(Ties(cmp, x, s))
  {
    if s == [] {
      assert Reverse(s) == [] && Reverse(Ties(cmp, x, s)) == [];
    } else {
      var front, last := s[..|s| - 1], s[|s| - 1];
      TiesReverse(cmp, x, front);
      assert Reverse(s) == [last] + Reverse(front);
      TiesConcat(cmp, x, [last], Reverse(front));
      TiesOne(cmp, x, last);
    }
  }

  lemma {:induction false} TiesIn<T>(cmp: Compare<T>, x: T, s: seq<T>, y: T)
    ensures y in Ties(cmp, x, s) <==> y in s && cmp(x, y) == 0
  {
    if s != [] {
      TiesIn(cmp, x, s[..|s| - 1], y);
      assert s == s[..|s| - 1] + [s[|s| - 1]];
    }
  }

  ghost function Tying<T>(cmp: Compare<T>, x: T): T -> bool { y => cmp(x, y) == 0 }

  /** How many ties there are does not depend on the order. */
  lemma {:induction false} TiesBag<T(!new)>(cmp: Compare<T>, x: T, s: seq<T>)
    ensures multiset(Ties(cmp, x, s)) == Select(multiset(s), Tying(cmp, x))
    ensures |Ties(cmp, x, s)| == |Select(multiset(s), Tying(cmp, x))|
  {
    var keep := Keep(Tying(cmp, x));
    if s == [] {
      BindNone(keep);
    } else {
      var front, last := s[..|s| - 1], s[|s| - 1];
      TiesBag(cmp, x, front);
      assert s == front + [last];
      BindAdd(multiset(front), multiset{last}, keep);
      BindOne(last, keep);
    }
    assert |multiset(Ties(cmp, x, s))| == |Ties(cmp, x, s)|;
  }

  lemma TieSame<T(!new)>(cmp: Compare<T>, x: T, y: T, z: T)
    requires Preorder(cmp) && cmp(x, y) == 0
    ensures cmp(x, z) == 0 <==> cmp(y, z) == 0
    ensures cmp(x, z) <= 0 <==> cmp(y, z) <= 0
    ensures cmp(x, z) >= 0 <==> cmp(y, z) >= 0
  {
    Flip(cmp, x, y);
    Flip(cmp, x, z);
    Flip(cmp, y, z);
    assert Ordered(cmp, x, y, z) && Ordered(cmp, y, x, z) && Ordered(cmp, z, x, y) && Ordered(cmp, z, y, x);
  }

  lemma SelfTie<T(!new)>(cmp: Compare<T>, x: T)
    requires Preorder(cmp)
    ensures cmp(x, x) == 0
  {
    assert Ordered(cmp, x, x, x);
  }

  lemma TwoCount<T>(cmp: Compare<T>, x: T, s: seq<T>, i: nat, j: nat)
    requires i < j < |s| && cmp(x, s[i]) == 0 && cmp(x, s[j]) == 0
    ensures |Ties(cmp, x, s)| >= 2
  {
    TiesSplit(cmp, x, s, j);
    TiesSplit(cmp, x, s[..j], i);
  }

  lemma ThreeCount<T>(cmp: Compare<T>, x: T, s: seq<T>, i: nat, j: nat, k: nat)
    requires i < j < k < |s| && cmp(x, s[i]) == 0 && cmp(x, s[j]) == 0 && cmp(x, s[k]) == 0
    ensures |Ties(cmp, x, s)| >= 3
  {
    TiesSplit(cmp, x, s, k);
    TwoCount(cmp, x, s[..k], i, j);
  }

  // ----- where an item with few ties goes -----

  /** At most one item of the window equals the new one, or the last two do. */
  ghost predicate FewTies<T>(cmp: Compare<T>, sorted: seq<T>, item: T) {
    forall i, j :: 0 <= i < j < |sorted| && cmp(item, sorted[i]) == 0 && cmp(item, sorted[j]) == 0 ==>
      i == |sorted| - 2 && j == |sorted| - 1
  }

  lemma StrictLeft<T(!new)>(cmp: Compare<T>, sorted: seq<T>, item: T, mid: nat, i: nat)
    requires Preorder(cmp) && Descending(cmp, sorted) && i <= mid < |sorted| && cmp(item, sorted[mid]) < 0
    ensures cmp(item, sorted[i]) < 0
  {
    if i < mid && cmp(item, sorted[i]) >= 0 {
      Flip(cmp, item, sorted[i]);
      Flip(cmp, sorted[i], sorted[mid]);
      Chain(cmp, sorted[mid], sorted[i], item);
      Flip(cmp, item, sorted[mid]);
    }
  }

  /** The search then never stops at a tie behind another one. */
  lemma {:induction false} PositionFirst<T(!new)>(cmp: Compare<T>, sorted: seq<T>, item: T, left: int, right: int)
    requires Preorder(cmp) && Descending(cmp, sorted) && 0 <= left <= right + 1 <= |sorted|
             && FewTies(cmp, sorted, item)
    requires forall i :: 0 <= i < left ==> cmp(item, sorted[i]) < 0
    ensures forall i :: 0 <= i < Position(cmp, sorted, item, left, right) ==> cmp(item, sorted[i]) < 0
    decreases right + 1 - left
  {
    if left <= right {
      var mid := (left + right) / 2;
      var order := cmp(item, sorted[mid]);
      if order < 0 {
        forall i | 0 <= i <= mid ensures cmp(item, sorted[i]) < 0 { StrictLeft(cmp, sorted, item, mid, i); }
        PositionFirst(cmp, sorted, item, mid + 1, right);
      } else if order > 0 {
        PositionFirst(cmp, sorted, item, left, mid - 1);
      } else {
        Halves(cmp, sorted, item, mid);
      }
    }
  }

  lemma {:induction false} NoTies<T>(cmp: Compare<T>, x: T, s: seq<T>)
    requires forall y :: y in s ==> cmp(x, y) != 0
    ensures Ties(cmp, x, s) == []
  {
    if s != [] { NoTies(cmp, x, s[..|s| - 1]); }
  }

  lemma UntiedBefore<T(!new)>(cmp: Compare<T>, sorted: seq<T>, item: T, x: T)
    requires Preorder(cmp) && Descending(cmp, sorted) && FewTies(cmp, sorted, item) && cmp(x, item) == 0
    ensures Ties(cmp, x, sorted[..Position(cmp, sorted, item, 0, |sorted| - 1)]) == []
  {
    var front := sorted[..Position(cmp, sorted, item, 0, |sorted| - 1)];
    PositionFirst(cmp, sorted, item, 0, |sorted| - 1);
    forall y | y in front ensures cmp(x, y) != 0 { TieSame(cmp, x, item, y); }
    NoTies(cmp, x, front);
  }

  lemma MoveFirst<T>(a: seq<T>, b: seq<T>, c: seq<T>)
    requires a == [] || b == []
    ensures a + b + c == b + (a + c)
  {
  }

  lemma TiesInsert<T>(cmp: Compare<T>, x: T, front: seq<T>, item: T, back: seq<T>)
    ensures Ties(cmp, x, front + [item] + back) == Ties(cmp, x, front) + Ties(cmp, x, [item]) + Ties(cmp, x, back)
    ensures Ties(cmp, x, front + back) == Ties(cmp, x, front) + Ties(cmp, x, back)
  {
    TiesConcat(cmp, x, front + [item], back);
    TiesConcat(cmp, x, front, [item]);
    TiesConcat(cmp, x, front, back);
  }

  lemma TiesFirst<T>(cmp: Compare<T>, x: T, front: seq<T>, item: T, back: seq<T>)
    requires cmp(x, item) == 0 ==> Ties(cmp, x, front) == []
    ensures Ties(cmp, x, front + [item] + back) == Ties(cmp, x, [item]) + Ties(cmp, x, front + back)
  {
    TiesInsert(cmp, x, front, item, back);
    TiesOne(cmp, x, item);
    MoveFirst(Ties(cmp, x, front), Ties(cmp, x, [item]), Ties(cmp, x, back));
  }

  /** The new item becomes the first of its equals in the window, to leave it last. */
  lemma InsertFirst<T(!new)>(cmp: Compare<T>, sorted: seq<T>, item: T, x: T)
    requires Preorder(cmp) && Descending(cmp, sorted) && FewTies(cmp, sorted, item)
    ensures Ties(cmp, x, Insert(cmp, sorted, item)) == Ties(cmp, x, [item]) + Ties(cmp, x, sorted)
  {
    var p := Position(cmp, sorted, item, 0, |sorted| - 1);
    if cmp(x, item) == 0 { UntiedBefore(cmp, sorted, item, x); }
    TiesFirst(cmp, x, sorted[..p], item, sorted[p..]);
    assert sorted[..p] + sorted[p..] == sorted;
  }

  // ----- a sufficient condition on the input as it is -----

  /** At most one earlier item equals this one, or two do and no earlier item is smaller. */
  ghost predicate BenignAt<T>(cmp: Compare<T>, front: seq<T>, item: T) {
    || |Ties(cmp, item, front)| <= 1
    || (|Ties(cmp, item, front)| == 2 && forall y :: y in front ==> cmp(item, y) <= 0)
  }

  ghost predicate Benign<T>(cmp: Compare<T>, items: seq<T>) {
    forall k :: 0 <= k < |items| ==> BenignAt(cmp, items[..k], items[k])
  }

  lemma BetweenTies<T(!new)>(cmp: Compare<T>, sorted: seq<T>, item: T, i: nat, k: nat, j: nat)
    requires Preorder(cmp) && Descending(cmp, sorted) && i < k < j < |sorted|
    requires cmp(item, sorted[i]) == 0 && cmp(item, sorted[j]) == 0
    ensures cmp(item, sorted[k]) == 0
  {
    Halves(cmp, sorted, item, i);
    Halves(cmp, sorted, item, j);
  }

  lemma BenignFew<T(!new)>(cmp: Compare<T>, front: seq<T>, item: T, sorted: seq<T>)
    requires Preorder(cmp) && Descending(cmp, sorted) && multiset(sorted) == multiset(front)
             && BenignAt(cmp, front, item)
    ensures FewTies(cmp, sorted, item)
  {
    TiesBag(cmp, item, front);
    TiesBag(cmp, item, sorted);
    forall i, j | 0 <= i < j < |sorted| && cmp(item, sorted[i]) == 0 && cmp(item, sorted[j]) == 0
      ensures i == |sorted| - 2 && j == |sorted| - 1
    {
      TwoCount(cmp, item, sorted, i, j);
      var last := |sorted| - 1;
      if i + 1 < j {
        BetweenTies(cmp, sorted, item, i, i + 1, j);
        ThreeCount(cmp, item, sorted, i, i + 1, j);
      }
      if j < last {
        Halves(cmp, sorted, item, j);
        assert sorted[last] in multiset(sorted);
        ThreeCount(cmp, item, sorted, i, j, last);
      }
    }
  }

  lemma ReverseSnoc<T>(s: seq<T>, t: seq<T>)
    requires |t| <= 1
    ensures Reverse(s + t) == t + Reverse(s)
  {
  }

  lemma BenignFront<T>(cmp: Compare<T>, front: seq<T>, item: T)
    requires Benign(cmp, front + [item])
    ensures Benign(cmp, front) && BenignAt(cmp, front, item)
  {
    var items := front + [item];
    forall k | 0 <= k < |front| ensures BenignAt(cmp, front[..k], front[k]) {
      assert front[..k] == items[..k];
      assert BenignAt(cmp, items[..k], items[k]);
    }
    assert items[..|front|] == front && BenignAt(cmp, items[..|front|], items[|front|]);
  }

  lemma ConsumeTies<T(!new)>(cmp: Compare<T>, front: seq<T>, item: T, w: Window<T>, x: T)
    requires Preorder(cmp) && Descending(cmp, w.sorted) && multiset(w.sorted) == multiset(front)
    requires BenignAt(cmp, front, item) && Ties(cmp, x, w.sorted) == Reverse(Ties(cmp, x, front))
    ensures Ties(cmp, x, Consume(cmp, None, w, item).sorted) == Reverse(Ties(cmp, x, front + [item]))
  {
    BenignFew(cmp, front, item, w.sorted);
    InsertFirst(cmp, w.sorted, item, x);
    TiesConcat(cmp, x, front, [item]);
    TiesOne(cmp, x, item);
    ReverseSnoc(Ties(cmp, x, front), Ties(cmp, x, [item]));
  }

  lemma {:induction false} WindowTies<T(!new)>(cmp: Compare<T>, items: seq<T>, x: T)
    requires Preorder(cmp) && Benign(cmp, items)
    ensures Ties(cmp, x, ConsumeAll(cmp, None, Window([], []), items).sorted) == Reverse(Ties(cmp, x, items))
  {
    if items == [] {
      assert Reverse(Ties(cmp, x, items)) == [];
    } else {
      var front, item := items[..|items| - 1], items[|items| - 1];
      assert items == front + [item];
      BenignFront(cmp, front, item);
      WindowTies(cmp, front, x);
      AllKept(cmp, None, front);
      ConsumeTies(cmp, front, item, ConsumeAll(cmp, None, Window([], []), front), x);
    }
  }

  lemma ReverseTwice<T>(s: seq<T>)
    ensures Reverse(Reverse(s)) == s
  {
  }

  /** A pass with an infinite window is stable if no item has two earlier equal ones, or just two and none smaller. */
  lemma BenignStable<T(!new)>(cmp: Compare<T>, items: seq<T>)
    requires Preorder(cmp) && Benign(cmp, items)
    ensures Stable(cmp, items)
  {
    var w := ConsumeAll(cmp, None, Window([], []), items);
    AllKept(cmp, None, items);
    forall x ensures Ties(cmp, x, Output(cmp, None, items)) == Ties(cmp, x, items) {
      WindowTies(cmp, items, x);
      TiesReverse(cmp, x, w.sorted);
      ReverseTwice(Ties(cmp, x, items));
      assert w.pushed + Reverse(w.sorted) == Reverse(w.sorted);
    }
  }

  // ----- the exact condition on the items, whatever their order -----

  /** No three items are equal, unless these three are all there are of the smallest. */
  ghost predicate Rare<T>(cmp: Compare<T>, items: seq<T>) {
    forall x :: x in items ==>
      || |Ties(cmp, x, items)| <= 2
      || (|Ties(cmp, x, items)| == 3 && forall y :: y in items ==> cmp(x, y) <= 0)
  }

  lemma RareBenign<T(!new)>(cmp: Compare<T>, items: seq<T>)
    requires Preorder(cmp) && Rare(cmp, items)
    ensures Benign(cmp, items)
  {
    forall k | 0 <= k < |items|
      ensures BenignAt(cmp, items[..k], items[k])
    {
      TiesSplit(cmp, items[k], items, k);
      SelfTie(cmp, items[k]);
      assert items[k] in items;
    }
  }

  lemma RarePermuted<T(!new)>(cmp: Compare<T>, items: seq<T>, others: seq<T>)
    requires Rare(cmp, items) && multiset(items) == multiset(others)
    ensures Rare(cmp, others)
  {
    forall x | x in others
      ensures x in items && |Ties(cmp, x, others)| == |Ties(cmp, x, items)|
    {
      assert x in multiset(others);
      TiesBag(cmp, x, items);
      TiesBag(cmp, x, others);
    }
  }

  ghost predicate Precedes<T>(s: seq<T>, u: T, v: T) {
    exists i, j :: 0 <= i < j < |s| && s[i] == u && s[j] == v
  }

  lemma InsertPrecedes<T>(cmp: Compare<T>, sorted: seq<T>, item: T, u: T, v: T)
    requires Precedes(sorted, u, v)
    ensures Precedes(Insert(cmp, sorted, item), u, v)
  {
    var i, j :| 0 <= i < j < |sorted| && sorted[i] == u && sorted[j] == v;
    var p, s := Position(cmp, sorted, item, 0, |sorted| - 1), Insert(cmp, sorted, item);
    assert s[if i < p then i else i + 1] == u && s[if j < p then j else j + 1] == v;
  }

  /** What goes in later does not change the order of what is there. */
  lemma {:induction false} LaterPrecedes<T>(cmp: Compare<T>, w: Window<T>, more: seq<T>, u: T, v: T)
    requires Precedes(w.sorted, u, v)
    ensures Precedes(ConsumeAll(cmp, None, w, more).sorted, u, v)
  {
    if more != [] {
      LaterPrecedes(cmp, w, more[..|more| - 1], u, v);
      InsertPrecedes(cmp, ConsumeAll(cmp, None, w, more[..|more| - 1]).sorted, more[|more| - 1], u, v);
    }
  }

  lemma ReversePrecedes<T>(s: seq<T>, u: T, v: T)
    requires Precedes(s, u, v)
    ensures Precedes(Reverse(s), v, u)
  {
    var i, j :| 0 <= i < j < |s| && s[i] == u && s[j] == v;
    assert Reverse(s)[|s| - 1 - j] == v && Reverse(s)[|s| - 1 - i] == u;
  }

  lemma OutputPrecedes<T(!new)>(cmp: Compare<T>, first: seq<T>, more: seq<T>, u: T, v: T)
    requires Preorder(cmp) && Precedes(ConsumeAll(cmp, None, Window([], []), first).sorted, u, v)
    ensures Precedes(Output(cmp, None, first + more), v, u)
  {
    var w := ConsumeAll(cmp, None, Window([], []), first + more);
    ConsumeSplit(cmp, None, Window([], []), first, more);
    LaterPrecedes(cmp, ConsumeAll(cmp, None, Window([], []), first), more, u, v);
    ReversePrecedes(w.sorted, u, v);
    AllKept(cmp, None, first + more);
    assert w.pushed + Reverse(w.sorted) == Reverse(w.sorted);
  }

  lemma TiesPrecedes<T>(cmp: Compare<T>, x: T, s: seq<T>, u: T, v: T)
    requires Precedes(s, u, v) && cmp(x, u) == 0 && cmp(x, v) == 0
    ensures Precedes(Ties(cmp, x, s), u, v)
  {
    var i, j :| 0 <= i < j < |s| && s[i] == u && s[j] == v;
    TiesSplit(cmp, x, s, j);
    TiesSplit(cmp, x, s[..j], i);
    TiesOne(cmp, x, u);
    TiesOne(cmp, x, v);
    var t, a := Ties(cmp, x, s), Ties(cmp, x, s[..j]);
    assert t[|Ties(cmp, x, s[..j][..i])|] == u && t[|a|] == v;
  }

  lemma {:induction false} PrecedesTies<T>(cmp: Compare<T>, x: T, s: seq<T>, u: T, v: T)
    requires Precedes(Ties(cmp, x, s), u, v)
    ensures Precedes(s, u, v)
  {
    var front, last := s[..|s| - 1], s[|s| - 1];
    var t := Ties(cmp, x, front);
    var i, j :| 0 <= i < j < |Ties(cmp, x, s)| && Ties(cmp, x, s)[i] == u && Ties(cmp, x, s)[j] == v;
    if j < |t| {
      assert t[i] == u && t[j] == v;
      PrecedesTies(cmp, x, front, u, v);
      var k, l :| 0 <= k < l < |front| && front[k] == u && front[l] == v;
      assert s[k] == u && s[l] == v;
    } else {
      assert t[i] == u && v == last;
      TiesIn(cmp, x, front, u);
      var k :| 0 <= k < |front| && front[k] == u;
      assert s[k] == u && s[|s| - 1] == v;
    }
  }

  ghost predicate NoRepeats<T(!new)>(s: seq<T>) { forall v :: multiset(s)[v] <= 1 }

  lemma Twice<T>(s: seq<T>, i: nat, j: nat)
    requires i < j < |s| && s[i] == s[j]
    ensures multiset(s)[s[i]] >= 2
  {
    assert s == s[..j] + s[j..];
    assert s[..j][i] in multiset(s[..j]) && s[j..][0] in multiset(s[j..]);
  }

  lemma SameIndex<T(!new)>(s: seq<T>, i: nat, j: nat)
    requires NoRepeats(s) && i < |s| && j < |s| && s[i] == s[j]
    ensures i == j
  {
    if i < j { Twice(s, i, j); }
    if j < i { Twice(s, j, i); }
  }

  lemma OneWay<T(!new)>(s: seq<T>, u: T, v: T)
    requires NoRepeats(s) && Precedes(s, u, v)
    ensures !Precedes(s, v, u)
  {
    var i, j :| 0 <= i < j < |s| && s[i] == u && s[j] == v;
    forall k, l | 0 <= k < l < |s| ensures !(s[k] == v && s[l] == u) {
      if s[l] == u { SameIndex(s, i, l); }
      if s[k] == v { SameIndex(s, j, k); }
    }
  }

  ghost function Listing<T(!new)>(m: multiset<T>): (s: seq<T>)
    ensures multiset(s) == m
    decreases |m|
  {
    if m == multiset{} then [] else
    var x := Pick(m);
    [x] + Listing(m - multiset{x})
  }

  /** An arrangement of the items out of which two equal ones come in the wrong order. */
  ghost predicate Spoiled<T>(cmp: Compare<T>, items: seq<T>, u: T, v: T) {
    cmp(u, v) == 0 && Precedes(items, u, v) && Precedes(Output(cmp, None, items), v, u)
  }

  lemma SpoiledFrom<T(!new)>(cmp: Compare<T>, items: seq<T>, first: seq<T>, u: T, v: T) returns (bad: seq<T>)
    requires Preorder(cmp) && multiset(first) <= multiset(items) && cmp(u, v) == 0
    requires Precedes(first, u, v) && Precedes(ConsumeAll(cmp, None, Window([], []), first).sorted, u, v)
    ensures multiset(bad) == multiset(items) && Spoiled(cmp, bad, u, v)
  {
    var more := Listing(multiset(items) - multiset(first));
    bad := first + more;
    OutputPrecedes(cmp, first, more, u, v);
    var i, j :| 0 <= i < j < |first| && first[i] == u && first[j] == v;
    assert bad[i] == u && bad[j] == v;
  }

  lemma AllTie<T(!new)>(cmp: Compare<T>, x: T, s: seq<T>, y: T, z: T)
    requires Preorder(cmp) && y in Ties(cmp, x, s) && z in Ties(cmp, x, s)
    ensures cmp(y, z) == 0
  {
    TiesIn(cmp, x, s, y);
    TiesIn(cmp, x, s, z);
    TieSame(cmp, x, y, z);
  }

  lemma TiesWithin<T(!new)>(cmp: Compare<T>, x: T, s: seq<T>, k: nat)
    requires k <= |Ties(cmp, x, s)|
    ensures multiset(Ties(cmp, x, s)[..k]) <= multiset(s)
  {
    var t := Ties(cmp, x, s);
    TiesBag(cmp, x, s);
    SelectSub(multiset(s), Tying(cmp, x));
    assert t == t[..k] + t[k..];
  }

  lemma FourSpoil<T(!new)>(cmp: Compare<T>, items: seq<T>, x: T) returns (bad: seq<T>, u: T, v: T)
    requires Preorder(cmp) && |Ties(cmp, x, items)| >= 4
    ensures multiset(bad) == multiset(items) && Spoiled(cmp, bad, u, v)
  {
    var t := Ties(cmp, x, items);
    var first := t[..4];
    u, v := t[2], t[3];
    forall y, z | y in {t[0], t[1], t[2], t[3]} && z in {t[0], t[1], t[2], t[3]} ensures cmp(y, z) == 0 {
      AllTie(cmp, x, items, y, z);
    }
    FourTies(cmp, t[0], t[1], t[2], t[3]);
    assert first == [t[0], t[1], t[2], t[3]];
    TiesWithin(cmp, x, items, 4);
    var window := [t[2], t[3], t[1], t[0]];
    assert first[2] == u && first[3] == v && window[0] == u && window[1] == v;
    bad := SpoiledFrom(cmp, items, first, u, v);
  }

  lemma WithOther<T(!new)>(cmp: Compare<T>, x: T, s: seq<T>, k: nat, y: T)
    requires k <= |Ties(cmp, x, s)| && y in s && cmp(x, y) != 0
    ensures multiset(Ties(cmp, x, s)[..k]) + multiset{y} <= multiset(s)
  {
    TiesWithin(cmp, x, s, k);
    TiesIn(cmp, x, s, y);
    var t := Ties(cmp, x, s)[..k];
    assert y in t ==> y in Ties(cmp, x, s);
    assert multiset(t)[y] == 0 && multiset(s)[y] >= 1;
  }

  lemma WithThird<T>(t: seq<T>, y: T)
    requires |t| >= 3
    ensures multiset([t[0], t[1], y, t[2]]) == multiset(t[..3]) + multiset{y}
  {
    assert t[..3] == [t[0], t[1], t[2]];
  }

  lemma ThreeTied<T(!new)>(cmp: Compare<T>, items: seq<T>, x: T, y: T)
    requires Preorder(cmp) && |Ties(cmp, x, items)| >= 3 && y in items && cmp(x, y) > 0
    ensures (var t := Ties(cmp, x, items);
             && (forall a, b :: a in {t[0], t[1], t[2]} && b in {t[0], t[1], t[2]} ==> cmp(a, b) == 0)
             && forall a :: a in {t[0], t[1], t[2]} ==> cmp(y, a) < 0)
  {
    var t := Ties(cmp, x, items);
    forall a, b | a in {t[0], t[1], t[2]} && b in {t[0], t[1], t[2]}
      ensures cmp(a, b) == 0
    {
      AllTie(cmp, x, items, a, b);
    }
    forall a | a in {t[0], t[1], t[2]} ensures cmp(y, a) < 0 {
      TiesIn(cmp, x, items, a);
      TieSame(cmp, x, a, y);
      assert Ordered(cmp, y, a, a);
    }
  }

  lemma ThreeSpoil<T(!new)>(cmp: Compare<T>, items: seq<T>, x: T, y: T) returns (bad: seq<T>, u: T, v: T)
    requires Preorder(cmp) && |Ties(cmp, x, items)| >= 3 && y in items && cmp(x, y) > 0
    ensures multiset(bad) == multiset(items) && Spoiled(cmp, bad, u, v)
  {
    var t := Ties(cmp, x, items);
    var first := [t[0], t[1], y, t[2]];
    u, v := t[1], t[2];
    ThreeTied(cmp, items, x, y);
    ThreeTies(cmp, t[0], t[1], y, t[2]);
    WithOther(cmp, x, items, 3, y);
    WithThird(t, y);
    var window := [t[1], t[2], t[0], y];
    assert first[1] == u && first[3] == v && window[0] == u && window[1] == v;
    bad := SpoiledFrom(cmp, items, first, u, v);
  }

  lemma Spoil<T(!new)>(cmp: Compare<T>, items: seq<T>) returns (bad: seq<T>, u: T, v: T)
    requires Preorder(cmp) && !Rare(cmp, items)
    ensures multiset(bad) == multiset(items) && Spoiled(cmp, bad, u, v)
  {
    var x :| x in items && |Ties(cmp, x, items)| > 2
             && !(|Ties(cmp, x, items)| == 3 && forall y :: y in items ==> cmp(x, y) <= 0);
    if |Ties(cmp, x, items)| > 3 {
      bad, u, v := FourSpoil(cmp, items, x);
    } else {
      var y :| y in items && cmp(x, y) > 0;
      bad, u, v := ThreeSpoil(cmp, items, x, y);
    }
  }

  lemma SpoiledUnstable<T(!new)>(cmp: Compare<T>, items: seq<T>, u: T, v: T)
    requires Preorder(cmp) && NoRepeats(items) && Spoiled(cmp, items, u, v)
    ensures !Stable(cmp, items)
  {
    if Stable(cmp, items) {
      SelfTie(cmp, u);
      TiesPrecedes(cmp, u, Output(cmp, None, items), v, u);
      PrecedesTies(cmp, u, items, v, u);
      OneWay(items, u, v);
    }
  }

  /** For items that can be told apart: a pass with an infinite window keeps the order of equal ones, in whatever order
      the items come, exactly if no three are equal, unless these are the three smallest. */
  lemma StableExactly<T(!new)>(cmp: Compare<T>, items: seq<T>)
    requires Preorder(cmp) && NoRepeats(items)
    ensures (forall s: seq<T> :: multiset(s) == multiset(items) ==> Stable(cmp, s)) <==> Rare(cmp, items)
  {
    if Rare(cmp, items) {
      forall s: seq<T> | multiset(s) == multiset(items) ensures Stable(cmp, s) {
        RarePermuted(cmp, items, s);
        RareBenign(cmp, s);
        BenignStable(cmp, s);
      }
    } else {
      var bad, u, v := Spoil(cmp, items);
      SpoiledUnstable(cmp, bad, u, v);
    }
  }

  // ----- ORDER BY -----

  predicate Before<T>(keys: seq<Key<T>>, a: T, b: T) {
    keys == [] ||
    var order := keys[0].cmp(a, b);
    (if keys[0].descending then order > 0 else order < 0) || (order == 0 && Before(keys[1..], a, b))
  }

  /** No three rows are equal by the key, except three that are the first in its order. */
  ghost predicate RareBy<T(!new)>(key: Key<T>, rows: seq<T>) {
    forall x :: x in rows ==>
      || |Ties(key.cmp, x, rows)| <= 2
      || (|Ties(key.cmp, x, rows)| == 3
          && forall y :: y in rows ==> if key.descending then key.cmp(x, y) >= 0 else key.cmp(x, y) <= 0)
  }

  lemma {:induction false} NegatedTies<T(!new)>(cmp: Compare<T>, x: T, s: seq<T>)
    ensures Ties(Negate(cmp), x, s) == Ties(cmp, x, s)
  {
    if s != [] { NegatedTies(cmp, x, s[..|s| - 1]); }
  }

  lemma RareByKey<T(!new)>(key: Key<T>, rows: seq<T>)
    ensures RareBy(key, rows) <==> Rare(Comparison(key), rows)
  {
    forall x { NegatedTies(key.cmp, x, rows); }
  }

  /** Sorted by the first key, then by the second, and so on. */
  ghost predicate Lexicographic<T>(keys: seq<Key<T>>, rows: seq<T>) {
    forall i, j :: 0 <= i < j < |rows| ==> Before(keys, rows[i], rows[j])
  }

  lemma PassLexicographic<T(!new)>(keys: seq<Key<T>>, rows: seq<T>, i: nat, j: nat)
    requires keys != [] && Preorder(Comparison(keys[0])) && Lexicographic(keys[1..], rows)
    requires keys[1..] == [] || Stable(Comparison(keys[0]), rows)
    requires i < j < |Output(Comparison(keys[0]), None, rows)|
    ensures (var out := Output(Comparison(keys[0]), None, rows); Before(keys, out[i], out[j]))
  {
    var cmp := Comparison(keys[0]);
    var out := Output(cmp, None, rows);
    OutputExactly(cmp, None, rows);
    if cmp(out[i], out[j]) == 0 && keys[1..] != [] {
      SelfTie(cmp, out[i]);
      assert Precedes(out, out[i], out[j]);
      TiesPrecedes(cmp, out[i], out, out[i], out[j]);
      PrecedesTies(cmp, out[i], rows, out[i], out[j]);
    }
  }

  /** ORDER BY with the default window sorts by all its keys if, for every key but the last, no three rows are equal,
      unless they are the three smallest. */
  lemma {:induction false} OrderByLexicographic<T(!new)>(keys: seq<Key<T>>, rows: seq<T>)
    requires forall k :: k in keys ==> Preorder(k.cmp)
    requires forall k :: 0 <= k < |keys| - 1 ==> RareBy(keys[k], rows)
    ensures Lexicographic(keys, Sorted(keys, None, rows))
  {
    if keys != [] {
      var rest, cmp := Sorted(keys[1..], None, rows), Comparison(keys[0]);
      OrderByLexicographic(keys[1..], rows);
      OrderByKeeps(keys[1..], None, rows);
      assert keys[0] in keys;
      if keys[0].descending { NegateOrdered(keys[0].cmp); }
      if keys[1..] != [] {
        RareByKey(keys[0], rows);
        RarePermuted(cmp, rows, rest);
        RareBenign(cmp, rest);
        BenignStable(cmp, rest);
      }
      forall i, j | 0 <= i < j < |Output(cmp, None, rest)|
        ensures Before(keys, Output(cmp, None, rest)[i], Output(cmp, None, rest)[j])
      {
        PassLexicographic(keys, rest, i, j);
      }
    }
  }

  // ----- and two keys need the condition -----

  function Index<T(==)>(s: seq<T>, x: T): nat {
    if s == [] || s[0] == x then 0 else 1 + Index(s[1..], x)
  }

  lemma {:induction false} IndexIn<T>(s: seq<T>, x: T)
    requires x in s
    ensures Index(s, x) < |s| && s[Index(s, x)] == x
  {
    if s[0] != x {
      assert s == [s[0]] + s[1..];
      IndexIn(s[1..], x);
    }
  }

  lemma IndexAt<T(!new)>(s: seq<T>, i: nat)
    requires NoRepeats(s) && i < |s|
    ensures Index(s, s[i]) == i
  {
    IndexIn(s, s[i]);
    SameIndex(s, Index(s, s[i]), i);
  }

  /** The key that sorts items as they stand in `s`. */
  ghost function ByIndex<T>(s: seq<T>): Compare<T> { (a, b) => Index(s, a) - Index(s, b) }

  lemma {:induction false} Rising(f: seq<nat>)
    requires forall i, j :: 0 <= i < j < |f| ==> f[i] < f[j]
    requires forall i :: 0 <= i < |f| ==> f[i] < |f|
    ensures forall i :: 0 <= i < |f| ==> f[i] == i
  {
    if f != [] {
      var n := |f| - 1;
      forall i | 0 <= i < n ensures f[..n][i] < n { assert f[i] < f[n]; }
      Rising(f[..n]);
      assert forall i :: 0 <= i < n ==> f[..n][i] == f[i];
      if n > 0 { assert f[n - 1] < f[n]; }
    }
  }

  lemma SortedByIndex<T(!new)>(s: seq<T>, out: seq<T>)
    requires NoRepeats(s) && multiset(out) == multiset(s) && Ascending(ByIndex(s), out)
    ensures out == s
  {
    assert |multiset(out)| == |out| && |multiset(s)| == |s|;
    var f := seq(|out|, i requires 0 <= i < |out| => Index(s, out[i]));
    forall i | 0 <= i < |out|
      ensures f[i] < |s| && s[f[i]] == out[i]
    {
      assert out[i] in multiset(out);
      IndexIn(s, out[i]);
    }
    forall i, j | 0 <= i < j < |out|
      ensures f[i] < f[j]
    {
      assert ByIndex(s)(out[i], out[j]) <= 0;
      if f[i] == f[j] { SameIndex(out, i, j); }
    }
    Rising(f);
  }

  lemma ByIndexOrdered<T(!new)>(s: seq<T>)
    ensures Preorder(ByIndex(s))
  {
    forall a, b, c ensures Ordered(ByIndex(s), a, b, c) {}
  }

  lemma SortedBack<T(!new)>(rows: seq<T>, bad: seq<T>)
    requires NoRepeats(rows) && multiset(bad) == multiset(rows)
    ensures Output(ByIndex(bad), None, rows) == bad
  {
    ByIndexOrdered(bad);
    OutputExactly(ByIndex(bad), None, rows);
    SortedByIndex(bad, Output(ByIndex(bad), None, rows));
  }

  lemma TwoPasses<T>(key: Key<T>, second: Key<T>, rows: seq<T>)
    ensures Sorted([key, second], None, rows)
            == Output(Comparison(key), None, Output(Comparison(second), None, rows))
  {
    assert [key, second][1..] == [second] && [second][1..] == [];
    assert Sorted([second], None, rows) == Output(Comparison(second), None, Sorted([], None, rows));
  }

  lemma WrongWay<T>(key: Key<T>, second: Key<T>, u: T, v: T)
    requires Comparison(key)(v, u) == 0 && Comparison(second)(v, u) > 0
    ensures !Before([key, second], v, u)
  {
    assert [key, second][1..] == [second];
    assert !Before([second], v, u);
  }

  lemma BehindIndex<T(!new)>(s: seq<T>, u: T, v: T)
    requires NoRepeats(s) && Precedes(s, u, v)
    ensures ByIndex(s)(v, u) > 0
  {
    var i, j :| 0 <= i < j < |s| && s[i] == u && s[j] == v;
    IndexAt(s, i);
    IndexAt(s, j);
  }

  lemma SecondKeySpoils<T(!new)>(key: Key<T>, rows: seq<T>, bad: seq<T>, u: T, v: T)
    requires Preorder(Comparison(key)) && NoRepeats(rows) && multiset(bad) == multiset(rows)
    requires Spoiled(Comparison(key), bad, u, v)
    ensures (var keys := [key, Key(ByIndex(bad), false)]; !Lexicographic(keys, Sorted(keys, None, rows)))
  {
    var second := Key(ByIndex(bad), false);
    SortedBack(rows, bad);
    TwoPasses(key, second, rows);
    Flip(Comparison(key), u, v);
    BehindIndex(bad, u, v);
    WrongWay(key, second, u, v);
    var out := Output(Comparison(key), None, bad);
    var i, j :| 0 <= i < j < |out| && out[i] == v && out[j] == u;
    assert !Before([key, second], out[i], out[j]);
  }

  /** For rows that can be told apart: ORDER BY with two keys sorts by both, whatever the second one is, exactly if no
      three rows are equal by the first, unless these are the three smallest. */
  lemma TwoKeysExactly<T(!new)>(key: Key<T>, rows: seq<T>)
    requires Preorder(key.cmp) && NoRepeats(rows)
    ensures (forall second: Key<T> ::
               Preorder(second.cmp) ==> Lexicographic([key, second], Sorted([key, second], None, rows)))
       <==> RareBy(key, rows)
  {
    RareByKey(key, rows);
    if key.descending { NegateOrdered(key.cmp); }
    if Rare(Comparison(key), rows) {
      forall second: Key<T> | Preorder(second.cmp)
        ensures Lexicographic([key, second], Sorted([key, second], None, rows))
      {
        OrderByLexicographic([key, second], rows);
      }
    } else {
      var bad, u, v := Spoil(Comparison(key), rows);
      SecondKeySpoils(key, rows, bad, u, v);
      ByIndexOrdered(bad);
    }
  }
}
