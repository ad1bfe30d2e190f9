/** Sorting in a sliding window by binary insertion. */
module SortWindow {
  import opened Terms
  import opened Sums

  /** Negative if the left item comes first, positive if the right one does. */
  type Compare<!T> = (T, T) -> int

  /** A total preorder. */
  ghost predicate Preorder<T(!new)>(cmp: Compare<T>) {
    forall a, b, c :: Ordered(cmp, a, b, c)
  }

  ghost predicate Ordered<T>(cmp: Compare<T>, a: T, b: T, c: T) {
    && (cmp(a, b) < 0 <==> cmp(b, a) > 0)
    && (cmp(a, b) <= 0 && cmp(b, c) <= 0 ==> cmp(a, c) <= 0)
  }

  lemma Flip<T(!new)>(cmp: Compare<T>, a: T, b: T)
    requires Preorder(cmp)
    ensures cmp(a, b) <= 0 <==> cmp(b, a) >= 0
    ensures cmp(a, b) >= 0 <==> cmp(b, a) <= 0
  {
    assert Ordered(cmp, a, b, a) && Ordered(cmp, b, a, b);
  }

  lemma Chain<T(!new)>(cmp: Compare<T>, a: T, b: T, c: T)
    requires Preorder(cmp) && cmp(a, b) <= 0 && cmp(b, c) <= 0
    ensures cmp(a, c) <= 0
  {
    assert Ordered(cmp, a, b, c);
  }

  /** Where the binary search over `sorted[left..right + 1]` puts an item; on a tie it stops right there. */
  function Position<T>(cmp: Compare<T>, sorted: seq<T>, item: T, left: int, right: int): (p: nat)
    requires 0 <= left <= right + 1 <= |sorted|
    ensures left <= p <= right + 1
    decreases right + 1 - left
  {
    if left > right then left
    else
      var mid := (left + right) / 2;
      var order := cmp(item, sorted[mid]);
      if order < 0 then Position(cmp, sorted, item, mid + 1, right)
      else if order > 0 then Position(cmp, sorted, item, left, mid - 1)
      else mid
  }

  /** The largest item first. */
  ghost predicate Descending<T>(cmp: Compare<T>, s: seq<T>) {
    forall i, j :: 0 <= i < j < |s| ==> cmp(s[i], s[j]) >= 0
  }

  ghost predicate Ascending<T>(cmp: Compare<T>, s: seq<T>) {
    forall i, j :: 0 <= i < j < |s| ==> cmp(s[i], s[j]) <= 0
  }

  lemma {:induction false} PositionFits<T(!new)>(cmp: Compare<T>, sorted: seq<T>, item: T, left: int, right: int)
    requires Preorder(cmp) && Descending(cmp, sorted) && 0 <= left <= right + 1 <= |sorted|
    requires forall i :: 0 <= i < left ==> cmp(item, sorted[i]) <= 0
    requires forall i :: right < i < |sorted| ==> cmp(item, sorted[i]) >= 0
    ensures (var p := Position(cmp, sorted, item, left, right);
             && (forall i :: 0 <= i < p ==> cmp(item, sorted[i]) <= 0)
             && (forall i :: p <= i < |sorted| ==> cmp(item, sorted[i]) >= 0))
    decreases right + 1 - left
  {
    if left <= right {
      var mid := (left + right) / 2;
      var order := cmp(item, sorted[mid]);
      Halves(cmp, sorted, item, mid);
      if order < 0 { PositionFits(cmp, sorted, item, mid + 1, right); }
      else if order > 0 { PositionFits(cmp, sorted, item, left, mid - 1); }
    }
  }

  /** A comparison with one element settles a whole side of the window. */
  lemma Halves<T(!new)>(cmp: Compare<T>, sorted: seq<T>, item: T, mid: nat)
    requires Preorder(cmp) && Descending(cmp, sorted) && mid < |sorted|
    ensures cmp(item, sorted[mid]) <= 0 ==> forall i :: 0 <= i <= mid ==> cmp(item, sorted[i]) <= 0
    ensures cmp(item, sorted[mid]) >= 0 ==> forall i :: mid <= i < |sorted| ==> cmp(item, sorted[i]) >= 0
  {
    forall i | 0 <= i < |sorted|
      ensures i <= mid && cmp(item, sorted[mid]) <= 0 ==> cmp(item, sorted[i]) <= 0
      ensures i >= mid && cmp(item, sorted[mid]) >= 0 ==> cmp(item, sorted[i]) >= 0
    {
      NextTo(cmp, sorted, item, mid, i);
    }
  }

  lemma NextTo<T(!new)>(cmp: Compare<T>, sorted: seq<T>, item: T, mid: nat, i: nat)
    requires Preorder(cmp) && Descending(cmp, sorted) && mid < |sorted| && i < |sorted|
    ensures i <= mid && cmp(item, sorted[mid]) <= 0 ==> cmp(item, sorted[i]) <= 0
    ensures i >= mid && cmp(item, sorted[mid]) >= 0 ==> cmp(item, sorted[i]) >= 0
  {
    Flip(cmp, item, sorted[mid]);
    Flip(cmp, item, sorted[i]);
    Flip(cmp, sorted[i], sorted[mid]);
    if i < mid && cmp(item, sorted[mid]) <= 0 { Chain(cmp, item, sorted[mid], sorted[i]); }
    if i > mid && cmp(item, sorted[mid]) >= 0 { Chain(cmp, sorted[i], sorted[mid], item); }
  }

  function Insert<T>(cmp: Compare<T>, sorted: seq<T>, item: T): seq<T> {
    var p := Position(cmp, sorted, item, 0, |sorted| - 1);
    sorted[..p] + [item] + sorted[p..]
  }

  lemma InsertBag<T>(cmp: Compare<T>, sorted: seq<T>, item: T)
    ensures multiset(Insert(cmp, sorted, item)) == multiset(sorted) + multiset{item}
  {
    var p := Position(cmp, sorted, item, 0, |sorted| - 1);
    assert sorted == sorted[..p] + sorted[p..];
  }

  lemma InsertDescending<T(!new)>(cmp: Compare<T>, sorted: seq<T>, item: T)
    requires Preorder(cmp) && Descending(cmp, sorted)
    ensures Descending(cmp, Insert(cmp, sorted, item))
  {
    PositionFits(cmp, sorted, item, 0, |sorted| - 1);
    var p := Position(cmp, sorted, item, 0, |sorted| - 1);
    var s := Insert(cmp, sorted, item);
    forall i, j | 0 <= i < j < |s|
      ensures cmp(s[i], s[j]) >= 0
    {
      if j == p { Flip(cmp, item, sorted[i]); }
      assert i < p ==> s[i] == sorted[i];
      assert i > p ==> s[i] == sorted[i - 1];
      assert j > p ==> s[j] == sorted[j - 1];
    }
  }

  /** The window and what has been pushed out of it. */
  datatype Window<T> = Window(sorted: seq<T>, pushed: seq<T>)

  /** When the window is full its last item leaves; `size` is `None` for an infinite window. */
  function Overflow<T>(size: Option<nat>, s: seq<T>, pushed: seq<T>): Window<T> {
    if s != [] && size == Some(|s|) then Window(s[..|s| - 1], pushed + [s[|s| - 1]]) else Window(s, pushed)
  }

  /** One more item read from the source. */
  function Consume<T>(cmp: Compare<T>, size: Option<nat>, w: Window<T>, item: T): Window<T> {
    Overflow(size, Insert(cmp, w.sorted, item), w.pushed)
  }

  function ConsumeAll<T>(cmp: Compare<T>, size: Option<nat>, w: Window<T>, items: seq<T>): Window<T> {
    if items == [] then w
    else Consume(cmp, size, ConsumeAll(cmp, size, w, items[..|items| - 1]), items[|items| - 1])
  }

  function Reverse<T>(s: seq<T>): seq<T> {
    seq(|s|, i requires 0 <= i < |s| => s[|s| - 1 - i])
  }

  /** All that comes out for a whole input. */
  function Output<T>(cmp: Compare<T>, size: Option<nat>, items: seq<T>): seq<T> {
    var w := ConsumeAll(cmp, size, Window([], []), items);
    w.pushed + Reverse(w.sorted)
  }

  // ----- what comes out -----

  function Greater<T>(cmp: Compare<T>, x: T): T -> nat { (y: T) => if cmp(y, x) > 0 then 1 else 0 }

  /** How many of the items before position `k` are strictly greater than the item there. */
  function GreaterBefore<T>(cmp: Compare<T>, items: seq<T>, k: nat): nat
    requires k < |items|
  {
    SumSeq(Greater(cmp, items[k]), items[..k])
  }

  /** What is kept of the items consumed: they are all there, the window is in order and not full. */
  ghost predicate Kept<T(!new)>(cmp: Compare<T>, size: Option<nat>, items: seq<T>, w: Window<T>) {
    && multiset(w.pushed) + multiset(w.sorted) == multiset(items)
    && Descending(cmp, w.sorted)
    && |w.pushed| + |w.sorted| == |items|
    && (size.Some? ==> |w.sorted| < size.value && (w.pushed != [] ==> |w.sorted| == size.value - 1))
    && (size.None? ==> w.pushed == [])
    && (forall x ::
          SumSeq(Greater(cmp, x), w.pushed) + SumSeq(Greater(cmp, x), w.sorted) == SumSeq(Greater(cmp, x), items))
  }

  lemma InsertSum<T>(w: T -> nat, cmp: Compare<T>, sorted: seq<T>, item: T)
    ensures SumSeq(w, Insert(cmp, sorted, item)) == SumSeq(w, sorted) + w(item)
  {
    var p := Position(cmp, sorted, item, 0, |sorted| - 1);
    SumSeqConcat(w, sorted[..p], sorted[p..]);
    SumSeqConcat(w, sorted[..p] + [item], sorted[p..]);
    SumSeqConcat(w, sorted[..p], [item]);
    SumSeqOne(w, item);
    assert sorted == sorted[..p] + sorted[p..];
  }

  lemma SumLast<T>(w: T -> nat, s: seq<T>)
    requires s != []
    ensures SumSeq(w, s) == SumSeq(w, s[..|s| - 1]) + w(s[|s| - 1])
  {
    SumSeqConcat(w, s[..|s| - 1], [s[|s| - 1]]);
    SumSeqOne(w, s[|s| - 1]);
    assert s == s[..|s| - 1] + [s[|s| - 1]];
  }

  lemma ConsumeBag<T>(cmp: Compare<T>, size: Option<nat>, items: seq<T>, w: Window<T>, item: T)
    requires multiset(w.pushed) + multiset(w.sorted) == multiset(items)
    ensures (var w' := Consume(cmp, size, w, item);
             multiset(w'.pushed) + multiset(w'.sorted) == multiset(items + [item]))
  {
    var s := Insert(cmp, w.sorted, item);
    InsertBag(cmp, w.sorted, item);
    assert s == s[..|s| - 1] + [s[|s| - 1]];
    BagSnoc(items, item);
    BagSnoc(s[..|s| - 1], s[|s| - 1]);
    BagSnoc(w.pushed, s[|s| - 1]);
    var p, f, last, i := multiset(w.pushed), multiset(s[..|s| - 1]), multiset{s[|s| - 1]}, multiset{item};
    assert (p + last) + f == p + (f + last) == p + (multiset(w.sorted) + i) == (p + multiset(w.sorted)) + i;
  }

  lemma BagSnoc<T>(s: seq<T>, x: T)
    ensures multiset(s + [x]) == multiset(s) + multiset{x}
  {
  }

  lemma ConsumeSum<T>(g: T -> nat, cmp: Compare<T>, size: Option<nat>, w: Window<T>, item: T)
    ensures (var w' := Consume(cmp, size, w, item);
             SumSeq(g, w'.pushed) + SumSeq(g, w'.sorted) == SumSeq(g, w.pushed) + SumSeq(g, w.sorted) + g(item))
  {
    var s := Insert(cmp, w.sorted, item);
    InsertSum(g, cmp, w.sorted, item);
    SumLast(g, s);
    SumSeqConcat(g, w.pushed, [s[|s| - 1]]);
    SumSeqOne(g, s[|s| - 1]);
  }

  lemma ConsumeKeeps<T(!new)>(cmp: Compare<T>, size: Option<nat>, items: seq<T>, w: Window<T>, item: T)
    requires Preorder(cmp) && Kept(cmp, size, items, w)
    ensures Kept(cmp, size, items + [item], Consume(cmp, size, w, item))
  {
    InsertDescending(cmp, w.sorted, item);
    ConsumeBag(cmp, size, items, w, item);
    var w' := Consume(cmp, size, w, item);
    forall x
      ensures SumSeq(Greater(cmp, x), w'.pushed) + SumSeq(Greater(cmp, x), w'.sorted)
           == SumSeq(Greater(cmp, x), items + [item])
    {
      ConsumeSum(Greater(cmp, x), cmp, size, w, item);
      SumSeqConcat(Greater(cmp, x), items, [item]);
      SumSeqOne(Greater(cmp, x), item);
    }
  }

  lemma {:induction false} AllKept<T(!new)>(cmp: Compare<T>, size: Option<nat>, items: seq<T>)
    requires Preorder(cmp) && (size.Some? ==> size.value > 0)
    ensures Kept(cmp, size, items, ConsumeAll(cmp, size, Window([], []), items))
  {
    if items != [] {
      AllKept(cmp, size, items[..|items| - 1]);
      ConsumeKeeps(cmp, size, items[..|items| - 1], ConsumeAll(cmp, size, Window([], []), items[..|items| - 1]),
        items[|items| - 1]);
      assert items == items[..|items| - 1] + [items[|items| - 1]];
    }
  }

  /** In order so far: what has been pushed is sorted, and nothing in the window is smaller. */
  ghost predicate InOrder<T>(cmp: Compare<T>, w: Window<T>) {
    && Ascending(cmp, w.pushed)
    && forall i, j :: 0 <= i < |w.pushed| && 0 <= j < |w.sorted| ==> cmp(w.pushed[i], w.sorted[j]) <= 0
  }

  lemma {:induction false} SumBound<T>(cmp: Compare<T>, x: T, s: seq<T>)
    ensures SumSeq(Greater(cmp, x), s) <= |s|
    ensures SumSeq(Greater(cmp, x), s) > 0 <==> exists i :: 0 <= i < |s| && cmp(s[i], x) > 0
    ensures SumSeq(Greater(cmp, x), s) == |s| <==> forall i :: 0 <= i < |s| ==> cmp(s[i], x) > 0
  {
    if s != [] {
      SumBound(cmp, x, s[1..]);
      assert s == [s[0]] + s[1..];
      if i :| 0 <= i < |s| && cmp(s[i], x) > 0 {
        if i > 0 { assert s[1..][i - 1] == s[i]; }
      }
    }
  }

  /** An item arriving after too many greater ones: one of these has already left. */
  lemma TooLate<T(!new)>(cmp: Compare<T>, size: nat, items: seq<T>, w: Window<T>, item: T) returns (i: nat)
    requires Preorder(cmp) && Kept(cmp, Some(size), items, w) && SumSeq(Greater(cmp, item), items) >= size
    ensures i < |w.pushed| && cmp(w.pushed[i], item) > 0
  {
    SumBound(cmp, item, w.sorted);
    SumBound(cmp, item, w.pushed);
    i :| 0 <= i < |w.pushed| && cmp(w.pushed[i], item) > 0;
  }

  /** An item that is smaller than something that has left has come after at least a window of greater ones. */
  lemma InTime<T(!new)>(cmp: Compare<T>, size: nat, items: seq<T>, w: Window<T>, item: T, i: nat)
    requires Preorder(cmp) && Kept(cmp, Some(size), items, w) && InOrder(cmp, w)
    requires SumSeq(Greater(cmp, item), items) < size && i < |w.pushed|
    ensures cmp(w.pushed[i], item) <= 0
  {
    if cmp(w.pushed[i], item) > 0 {
      forall j | 0 <= j < |w.sorted| ensures cmp(w.sorted[j], item) > 0 {
        Flip(cmp, w.pushed[i], w.sorted[j]);
        if cmp(w.sorted[j], item) <= 0 { Chain(cmp, w.pushed[i], w.sorted[j], item); }
      }
      SumBound(cmp, item, w.sorted);
      SumBound(cmp, item, w.pushed);
    }
  }

  lemma ConsumeInOrder<T(!new)>(cmp: Compare<T>, size: nat, items: seq<T>, w: Window<T>, item: T)
    requires Preorder(cmp) && Kept(cmp, Some(size), items, w)
    ensures InOrder(cmp, Consume(cmp, Some(size), w, item))
       <==> InOrder(cmp, w) && SumSeq(Greater(cmp, item), items) < size
  {
    if InOrder(cmp, Consume(cmp, Some(size), w, item)) { OrderNeeds(cmp, size, items, w, item); }
    if InOrder(cmp, w) && SumSeq(Greater(cmp, item), items) < size { OrderStays(cmp, size, items, w, item); }
  }

  lemma OrderNeeds<T(!new)>(cmp: Compare<T>, size: nat, items: seq<T>, w: Window<T>, item: T)
    requires Preorder(cmp) && Kept(cmp, Some(size), items, w) && InOrder(cmp, Consume(cmp, Some(size), w, item))
    ensures InOrder(cmp, w) && SumSeq(Greater(cmp, item), items) < size
  {
    var s, w' := Insert(cmp, w.sorted, item), Consume(cmp, Some(size), w, item);
    var p := Position(cmp, w.sorted, item, 0, |w.sorted| - 1);
    forall i | 0 <= i < |w.pushed| ensures w'.pushed[i] == w.pushed[i] {}
    forall i, j | 0 <= i < |w.pushed| && 0 <= j < |w.sorted|
      ensures cmp(w.pushed[i], w.sorted[j]) <= 0
    {
      Below(cmp, Some(size), w, item, i, if j < p then j else j + 1);
    }
    if SumSeq(Greater(cmp, item), items) >= size {
      var i := TooLate(cmp, size, items, w, item);
      Below(cmp, Some(size), w, item, i, p);
    }
  }

  lemma OrderStays<T(!new)>(cmp: Compare<T>, size: nat, items: seq<T>, w: Window<T>, item: T)
    requires Preorder(cmp) && Kept(cmp, Some(size), items, w) && InOrder(cmp, w)
             && SumSeq(Greater(cmp, item), items) < size
    ensures InOrder(cmp, Consume(cmp, Some(size), w, item))
  {
    var s, w' := Insert(cmp, w.sorted, item), Consume(cmp, Some(size), w, item);
    var p := Position(cmp, w.sorted, item, 0, |w.sorted| - 1);
    forall i, j | 0 <= i < |w.pushed| && 0 <= j < |s|
      ensures cmp(w.pushed[i], s[j]) <= 0
    {
      if j == p { InTime(cmp, size, items, w, item, i); } else { assert s[j] == w.sorted[if j < p then j else j - 1]; }
    }
    InsertDescending(cmp, w.sorted, item);
    LastIsLeast(cmp, s);
    SplitInOrder(cmp, w.pushed, s);
  }

  lemma LastIsLeast<T(!new)>(cmp: Compare<T>, s: seq<T>)
    requires Preorder(cmp) && Descending(cmp, s) && s != []
    ensures forall j :: 0 <= j < |s| - 1 ==> cmp(s[|s| - 1], s[j]) <= 0
  {
    forall j | 0 <= j < |s| - 1 ensures cmp(s[|s| - 1], s[j]) <= 0 { Flip(cmp, s[j], s[|s| - 1]); }
  }

  /** The last item of the window may leave when nothing in it is smaller than what has left before. */
  lemma SplitInOrder<T>(cmp: Compare<T>, pushed: seq<T>, s: seq<T>)
    requires s != [] && Ascending(cmp, pushed)
    requires forall i, j :: 0 <= i < |pushed| && 0 <= j < |s| ==> cmp(pushed[i], s[j]) <= 0
    requires forall j :: 0 <= j < |s| - 1 ==> cmp(s[|s| - 1], s[j]) <= 0
    ensures InOrder(cmp, Window(s[..|s| - 1], pushed + [s[|s| - 1]])) && InOrder(cmp, Window(s, pushed))
  {
  }

  lemma Below<T(!new)>(cmp: Compare<T>, size: Option<nat>, w: Window<T>, item: T, i: nat, j: nat)
    requires InOrder(cmp, Consume(cmp, size, w, item)) && i < |w.pushed| && j < |Insert(cmp, w.sorted, item)|
    ensures cmp(w.pushed[i], Insert(cmp, w.sorted, item)[j]) <= 0
  {
    var s, w' := Insert(cmp, w.sorted, item), Consume(cmp, size, w, item);
    assert w'.pushed[i] == w.pushed[i];
    if size == Some(|s|) && j == |s| - 1 { assert w'.pushed[|w.pushed|] == s[j]; } else { assert w'.sorted[j] == s[j]; }
  }

  /** No item comes after `size` or more strictly greater ones. */
  ghost predicate Timely<T>(cmp: Compare<T>, size: Option<nat>, items: seq<T>) {
    size.Some? ==> forall k :: 0 <= k < |items| ==> GreaterBefore(cmp, items, k) < size.value
  }

  lemma {:induction false} AllInOrder<T(!new)>(cmp: Compare<T>, size: nat, items: seq<T>)
    requires Preorder(cmp) && size > 0
    ensures InOrder(cmp, ConsumeAll(cmp, Some(size), Window([], []), items)) <==> Timely(cmp, Some(size), items)
  {
    if items != [] {
      var front, item := items[..|items| - 1], items[|items| - 1];
      AllInOrder(cmp, size, front);
      LastInOrder(cmp, size, front, item, ConsumeAll(cmp, Some(size), Window([], []), front));
      assert items == front + [item];
    }
  }

  lemma LastInOrder<T(!new)>(cmp: Compare<T>, size: nat, front: seq<T>, item: T, w: Window<T>)
    requires Preorder(cmp) && size > 0 && w == ConsumeAll(cmp, Some(size), Window([], []), front)
    requires InOrder(cmp, w) <==> Timely(cmp, Some(size), front)
    ensures InOrder(cmp, Consume(cmp, Some(size), w, item)) <==> Timely(cmp, Some(size), front + [item])
  {
    AllKept(cmp, Some(size), front);
    ConsumeInOrder(cmp, size, front, w, item);
    TimelySnoc(cmp, size, front, item);
  }

  lemma TimelySnoc<T>(cmp: Compare<T>, size: nat, front: seq<T>, item: T)
    ensures Timely(cmp, Some(size), front + [item])
       <==> Timely(cmp, Some(size), front) && SumSeq(Greater(cmp, item), front) < size
  {
    var items := front + [item];
    assert items[..|front|] == front;
    forall k | 0 <= k < |front| ensures GreaterBefore(cmp, items, k) == GreaterBefore(cmp, front, k) {
      assert items[..k] == front[..k];
    }
    if Timely(cmp, Some(size), items) { assert GreaterBefore(cmp, items, |front|) < size; }
  }

  lemma {:induction false} ReversedBag<T>(s: seq<T>)
    ensures multiset(Reverse(s)) == multiset(s)
  {
    if s != [] {
      var front := s[..|s| - 1];
      ReversedBag(front);
      assert s == front + [s[|s| - 1]];
      assert Reverse(s) == [s[|s| - 1]] + Reverse(front);
    }
  }

  lemma FlushedAscending<T(!new)>(cmp: Compare<T>, w: Window<T>)
    requires Preorder(cmp) && Descending(cmp, w.sorted)
    ensures Ascending(cmp, w.pushed + Reverse(w.sorted)) <==> InOrder(cmp, w)
  {
    var r := Reverse(w.sorted);
    var all := w.pushed + r;
    var n := |w.pushed|;
    if InOrder(cmp, w) {
      forall i, j | 0 <= i < j < |all|
        ensures cmp(all[i], all[j]) <= 0
      {
        if n <= i { Flip(cmp, w.sorted[|r| - 1 - (j - n)], w.sorted[|r| - 1 - (i - n)]); }
        else if n <= j { assert all[j] == w.sorted[|r| - 1 - (j - n)]; }
      }
    }
    if Ascending(cmp, all) {
      forall i, j | 0 <= i < n && 0 <= j < |w.sorted| ensures cmp(w.pushed[i], w.sorted[j]) <= 0 {
        assert all[i] == w.pushed[i] && all[n + |r| - 1 - j] == w.sorted[j];
      }
      forall i, j | 0 <= i < j < n ensures cmp(w.pushed[i], w.pushed[j]) <= 0 {
        assert all[i] == w.pushed[i] && all[j] == w.pushed[j];
      }
    }
  }

  /** The output is a permutation of the input, and it is sorted exactly if every item has fewer strictly greater
      predecessors than the window has places. */
  lemma OutputExactly<T(!new)>(cmp: Compare<T>, size: Option<nat>, items: seq<T>)
    requires Preorder(cmp) && (size.Some? ==> size.value > 0)
    ensures multiset(Output(cmp, size, items)) == multiset(items)
    ensures Ascending(cmp, Output(cmp, size, items)) <==> Timely(cmp, size, items)
  {
    var w := ConsumeAll(cmp, size, Window([], []), items);
    AllKept(cmp, size, items);
    if size.Some? { AllInOrder(cmp, size.value, items); }
    ReversedBag(w.sorted);
    FlushedAscending(cmp, w);
  }

  /** In particular a window that holds the whole input sorts it. */
  lemma LargeWindowSorts<T(!new)>(cmp: Compare<T>, size: nat, items: seq<T>)
    requires Preorder(cmp) && 0 < size && |items| <= size
    ensures Ascending(cmp, Output(cmp, Some(size), items))
  {
    forall k | 0 <= k < |items| ensures GreaterBefore(cmp, items, k) < size { SumBound(cmp, items[k], items[..k]); }
    OutputExactly(cmp, Some(size), items);
  }

  /** Of four equal items in a row, the fourth takes its place behind the third. */
  lemma FourTies<T>(cmp: Compare<T>, a: T, b: T, c: T, d: T)
    requires forall x, y :: x in {a, b, c, d} && y in {a, b, c, d} ==> cmp(x, y) == 0
    ensures ConsumeAll(cmp, None, Window([], []), [a, b, c, d]) == Window([c, d, b, a], [])
  {
    var w0 := Window([], []);
    assert [a, b, c, d][..3] == [a, b, c] && [a, b, c][..2] == [a, b] && [a, b][..1] == [a] && [a][..0] == [];
    assert ConsumeAll(cmp, None, w0, []) == w0;
    assert Insert(cmp, [], a) == [a];
    assert ConsumeAll(cmp, None, w0, [a]) == Window([a], []);
    assert Position(cmp, [a], b, 0, 0) == 0;
    assert Insert(cmp, [a], b) == [b, a];
    assert ConsumeAll(cmp, None, w0, [a, b]) == Window([b, a], []);
    assert Position(cmp, [b, a], c, 0, 1) == 0;
    assert Insert(cmp, [b, a], c) == [c, b, a];
    assert ConsumeAll(cmp, None, w0, [a, b, c]) == Window([c, b, a], []);
    assert Position(cmp, [c, b, a], d, 0, 2) == 1;
    assert Insert(cmp, [c, b, a], d) == [c, d, b, a];
  }

  /** So it comes out before the third: one pass is not stable. */
  lemma NotStable<T>(cmp: Compare<T>, a: T, b: T, c: T, d: T)
    requires forall x, y :: x in {a, b, c, d} && y in {a, b, c, d} ==> cmp(x, y) == 0
    ensures Output(cmp, None, [a, b, c, d]) == [a, b, d, c]
  {
    FourTies(cmp, a, b, c, d);
  }

  /** With a smaller item before it, the third of three equal items already takes its place behind the second. */
  lemma ThreeTies<T>(cmp: Compare<T>, a: T, b: T, least: T, c: T)
    requires forall x, y :: x in {a, b, c} && y in {a, b, c} ==> cmp(x, y) == 0
    requires forall x :: x in {a, b, c} ==> cmp(least, x) < 0
    ensures ConsumeAll(cmp, None, Window([], []), [a, b, least, c]) == Window([b, c, a, least], [])
  {
    var w0, e := Window([], []), least;
    assert [a, b, e, c][..3] == [a, b, e] && [a, b, e][..2] == [a, b] && [a, b][..1] == [a] && [a][..0] == [];
    assert ConsumeAll(cmp, None, w0, []) == w0;
    assert Insert(cmp, [], a) == [a];
    assert ConsumeAll(cmp, None, w0, [a]) == Window([a], []);
    assert Position(cmp, [a], b, 0, 0) == 0;
    assert Insert(cmp, [a], b) == [b, a];
    assert ConsumeAll(cmp, None, w0, [a, b]) == Window([b, a], []);
    assert Position(cmp, [b, a], e, 1, 1) == 2;
    assert Position(cmp, [b, a], e, 0, 1) == 2;
    assert Insert(cmp, [b, a], e) == [b, a, e];
    assert ConsumeAll(cmp, None, w0, [a, b, e]) == Window([b, a, e], []);
    assert Position(cmp, [b, a, e], c, 0, 2) == 1;
    assert Insert(cmp, [b, a, e], c) == [b, c, a, e];
  }
}
