/** The sorting iterator as an object, and the passes of ORDER BY over its keys. */
module SortIterator {
  import opened Terms
  import opened Sums
  import opened SortWindow

  lemma ConsumeSnoc<T>(cmp: Compare<T>, size: Option<nat>, w: Window<T>, items: seq<T>, item: T)
    ensures ConsumeAll(cmp, size, w, items + [item]) == Consume(cmp, size, ConsumeAll(cmp, size, w, items), item)
  {
    assert (items + [item])[..|items + [item]| - 1] == items;
  }

  /** As long as the window is not full, inserting an item is consuming it. */
  lemma FillStep<T>(cmp: Compare<T>, size: Option<nat>, w: Window<T>, items: seq<T>, item: T, sorted: seq<T>,
      pushed: seq<T>)
    requires size.Some? ==> |sorted| < size.value
    requires Overflow(size, sorted, pushed) == ConsumeAll(cmp, size, w, items)
    ensures Overflow(size, Insert(cmp, sorted, item), pushed) == ConsumeAll(cmp, size, w, items + [item])
  {
    ConsumeSnoc(cmp, size, w, items, item);
    assert Overflow(size, sorted, pushed) == Window(sorted, pushed);
  }

  lemma ShiftOne<T>(done: seq<T>, rest: seq<T>)
    requires rest != []
    ensures done + [rest[0]] + rest[1..] == done + rest
  {
  }

  lemma Regroup<T>(items: seq<T>, more: seq<T>)
    requires more != []
    ensures items + more == (items + more[..|more| - 1]) + [more[|more| - 1]]
    ensures more == more[..|more| - 1] + [more[|more| - 1]]
  {
  }

  lemma {:induction false} ConsumeSplit<T>(cmp: Compare<T>, size: Option<nat>, w: Window<T>, items: seq<T>,
      more: seq<T>)
    ensures ConsumeAll(cmp, size, w, items + more) == ConsumeAll(cmp, size, ConsumeAll(cmp, size, w, items), more)
  {
    if more == [] {
      assert items + more == items;
    } else {
      var front, last, w' := more[..|more| - 1], more[|more| - 1], ConsumeAll(cmp, size, w, items);
      ConsumeSplit(cmp, size, w, items, front);
      ConsumeSnoc(cmp, size, w, items + front, last);
      Regroup(items, more);
      assert ConsumeAll(cmp, size, w', more) == Consume(cmp, size, ConsumeAll(cmp, size, w', front), last);
    }
  }

  class SortIterator<T(!new)> {
    const windowLength: Option<nat>
    const sort: Compare<T>
    var sorted: seq<T>
    var pushed: seq<T>

    ghost function Now(): Window<T>
      reads this
    {
      Window(sorted, pushed)
    }

    /** Only a positive window is finite. */
    constructor (sort: Compare<T>, window: Option<int>)
      ensures this.sort == sort && Now() == Window([], [])
      ensures windowLength == if window.Some? && window.value > 0 then Some(window.value) else None
    {
      this.sort := sort;
      windowLength := if window.Some? && window.value > 0 then Some(window.value) else None;
      sorted, pushed := [], [];
    }

    predicate Open()
      reads this
    {
      windowLength.Some? ==> |sorted| < windowLength.value
    }

    static lemma PositionStep(cmp: Compare<T>, s: seq<T>, item: T, left: int, right: int)
      requires 0 <= left <= right < |s|
      ensures (var mid := (left + right) / 2;
               Position(cmp, s, item, left, right) ==
                 if cmp(item, s[mid]) < 0 then Position(cmp, s, item, mid + 1, right)
                 else if cmp(item, s[mid]) > 0 then Position(cmp, s, item, left, mid - 1) else mid)
    {
    }

    /** The binary search for an item's place in the window; it stops at the first tie. */
    method FindPosition(item: T) returns (left: int)
      ensures left == Position(sort, sorted, item, 0, |sorted| - 1)
    {
      left := 0;
      var right := |sorted| - 1;
      var found := Position(sort, sorted, item, 0, |sorted| - 1);
      while left <= right
        invariant 0 <= left <= |sorted| && right < |sorted|
        invariant if left <= right + 1 then Position(sort, sorted, item, left, right) == found
                  else right == -1 && left == found
        decreases right - left + |sorted|
      {
        var mid := (left + right) / 2;
        var order := sort(item, sorted[mid]);
        PositionStep(sort, sorted, item, left, right);
        if order < 0 {
          left := mid + 1;
        } else if order > 0 {
          right := mid - 1;
        } else {
          left := mid;
          right := -1;
        }
      }
    }

    method InsertItem(item: T)
      modifies this`sorted
      ensures sorted == Insert(sort, old(sorted), item)
    {
      var left := FindPosition(item);
      sorted := sorted[..left] + [item] + sorted[left..];
    }

    /** Reads what the source has at the moment, until the window is full. */
    method Fill(available: seq<T>) returns (rest: seq<T>, ghost done: seq<T>)
      requires Open()
      modifies this`sorted
      ensures done + rest == available && (available != [] ==> done != [])
              && (rest != [] ==> Some(|sorted|) == windowLength)
      ensures windowLength.Some? ==> |sorted| <= windowLength.value
      ensures Some(|sorted|) == windowLength ==> sorted != []
      ensures Overflow(windowLength, sorted, pushed) == ConsumeAll(sort, windowLength, old(Now()), done)
    {
      rest := available;
      var length := |sorted|;
      done := [];
      while Some(length) != windowLength
        invariant length == |sorted| && done + rest == available && (rest == available || done != [])
        invariant windowLength.Some? ==> length <= windowLength.value
        invariant Overflow(windowLength, sorted, pushed) == ConsumeAll(sort, windowLength, old(Now()), done)
        invariant Some(length) == windowLength ==> length > 0 && done != []
        decreases |rest|
      {
        if rest == [] { break; }
        FillStep(sort, windowLength, old(Now()), done, rest[0], sorted, pushed);
        ShiftOne(done, rest);
        InsertItem(rest[0]);
        length := length + 1;
        done := done + [rest[0]];
        rest := rest[1..];
      }
    }

    /** Fills the window; if it is full then, the smallest item leaves. */
    method Read(available: seq<T>) returns (rest: seq<T>, ghost done: seq<T>)
      requires Open()
      modifies this
      ensures Open() && done + rest == available && (available != [] ==> done != [])
      ensures Now() == ConsumeAll(sort, windowLength, old(Now()), done)
      ensures rest != [] ==> |pushed| == |old(pushed)| + 1
    {
      rest, done := Fill(available);
      if Some(|sorted|) == windowLength {
        pushed := pushed + [sorted[|sorted| - 1]];
        sorted := sorted[..|sorted| - 1];
      }
    }

    /** Flushes what is left after the source has ended. */
    method Flush()
      modifies this
      ensures pushed == old(pushed) + Reverse(old(sorted)) && sorted == []
    {
      var length := |sorted|;
      assert sorted == old(sorted)[..length];
      while length > 0
        invariant length == |sorted| && length <= |old(sorted)| && sorted == old(sorted)[..length]
        invariant pushed == old(pushed) + Reverse(old(sorted))[..|old(sorted)| - length]
      {
        pushed := pushed + [sorted[|sorted| - 1]];
        sorted := sorted[..|sorted| - 1];
        length := length - 1;
      }
    }
  }

  lemma Rejoin<T>(done: seq<T>, taken: seq<T>, rest: seq<T>)
    ensures (done + taken) + rest == done + (taken + rest)
  {
  }

  /** Reading until a chunk of the source is used up. */
  method Drain<T(!new)>(it: SortIterator<T>, chunk: seq<T>)
    requires it.Open()
    modifies it
    ensures it.Open() && it.Now() == ConsumeAll(it.sort, it.windowLength, old(it.Now()), chunk)
  {
    var rest := chunk;
    ghost var done, w := [], it.Now();
    while rest != []
      invariant it.Open() && done + rest == chunk
      invariant it.Now() == ConsumeAll(it.sort, it.windowLength, w, done)
      decreases |rest|
    {
      ghost var taken;
      rest, taken := it.Read(rest);
      Rejoin(done, taken, rest);
      ConsumeSplit(it.sort, it.windowLength, w, done, taken);
      done := done + taken;
    }
    assert done + [] == done;
  }

  function Concat<T>(chunks: seq<seq<T>>): seq<T> {
    if chunks == [] then [] else Concat(chunks[..|chunks| - 1]) + chunks[|chunks| - 1]
  }

  function WindowOf(window: Option<int>): Option<nat> {
    if window.Some? && window.value > 0 then Some(window.value) else None
  }

  /** A whole pass: in whatever chunks the source hands out its items, the iterator delivers the same output. */
  method Pass<T(!new)>(cmp: Compare<T>, window: Option<int>, chunks: seq<seq<T>>) returns (out: seq<T>)
    ensures out == Output(cmp, WindowOf(window), Concat(chunks))
  {
    var it := new SortIterator<T>(cmp, window);
    for i := 0 to |chunks|
      invariant it.Open() && it.sort == cmp && it.windowLength == WindowOf(window) && fresh(it)
      invariant it.Now() == ConsumeAll(cmp, WindowOf(window), Window([], []), Concat(chunks[..i]))
    {
      assert chunks[..i + 1][..i] == chunks[..i];
      Drain(it, chunks[i]);
      ConsumeSplit(cmp, WindowOf(window), Window([], []), Concat(chunks[..i]), chunks[i]);
    }
    assert chunks[..|chunks|] == chunks;
    it.Flush();
    out := it.pushed;
  }

  // ----- ORDER BY -----

  function Negate<T>(cmp: Compare<T>): Compare<T> { (a, b) => -cmp(a, b) }

  lemma NegateOrdered<T(!new)>(cmp: Compare<T>)
    requires Preorder(cmp)
    ensures Preorder(Negate(cmp))
  {
    forall a, b, c
      ensures Ordered(Negate(cmp), a, b, c)
    {
      assert Ordered(cmp, b, a, c) && Ordered(cmp, a, b, c);
      Flip(cmp, a, b);
      Flip(cmp, b, c);
      Flip(cmp, a, c);
      if Negate(cmp)(a, b) <= 0 && Negate(cmp)(b, c) <= 0 { Chain(cmp, c, b, a); }
    }
  }

  /** A sort key: its comparison, and whether the expression asked for descending order. */
  datatype Key<!T> = Key(cmp: Compare<T>, descending: bool)

  function Comparison<T>(key: Key<T>): Compare<T> { if key.descending then Negate(key.cmp) else key.cmp }

  function Sorted<T>(keys: seq<Key<T>>, window: Option<int>, rows: seq<T>): seq<T> {
    if keys == [] then rows else Output(Comparison(keys[0]), WindowOf(window), Sorted(keys[1..], window, rows))
  }

  /** One pass per key, the last key first. */
  method OrderBy<T(!new)>(keys: seq<Key<T>>, window: Option<int>, rows: seq<T>) returns (out: seq<T>)
    ensures out == Sorted(keys, window, rows)
  {
    out := rows;
    var i := |keys| - 1;
    while i >= 0
      invariant -1 <= i < |keys| && out == Sorted(keys[i + 1..], window, rows)
    {
      var cmp := if keys[i].descending then Negate(keys[i].cmp) else keys[i].cmp;
      out := Pass(cmp, window, [out]);
      assert [Sorted(keys[i + 1..], window, rows)][..0] == [];
      assert Concat([Sorted(keys[i + 1..], window, rows)]) == Sorted(keys[i + 1..], window, rows);
      assert keys[i..][1..] == keys[i + 1..];
      i := i - 1;
    }
  }

  lemma {:induction false} OrderByKeeps<T(!new)>(keys: seq<Key<T>>, window: Option<int>, rows: seq<T>)
    requires forall k :: k in keys ==> Preorder(k.cmp)
    ensures multiset(Sorted(keys, window, rows)) == multiset(rows)
  {
    if keys != [] {
      OrderByKeeps(keys[1..], window, rows);
      if keys[0].descending { NegateOrdered(keys[0].cmp); }
      assert keys[0] in keys;
      OutputExactly(Comparison(keys[0]), WindowOf(window), Sorted(keys[1..], window, rows));
    }
  }

  /** ORDER BY with the default, infinite window: a permutation of the rows, sorted by the first key. */
  lemma OrderBySorts<T(!new)>(keys: seq<Key<T>>, rows: seq<T>)
    requires keys != [] && forall k :: k in keys ==> Preorder(k.cmp)
    ensures multiset(Sorted(keys, None, rows)) == multiset(rows)
    ensures (var out, key := Sorted(keys, None, rows), keys[0];
             forall i, j :: 0 <= i < j < |out| ==>
               if key.descending then key.cmp(out[i], out[j]) >= 0 else key.cmp(out[i], out[j]) <= 0)
  {
    OrderByKeeps(keys, None, rows);
    assert keys[0] in keys;
    if keys[0].descending { NegateOrdered(keys[0].cmp); }
    OutputExactly(Comparison(keys[0]), None, Sorted(keys[1..], None, rows));
  }

  /** The earlier rows that have to come out later than row `k`. */
  ghost function Overdue<T(!new)>(key: Key<T>, rows: seq<T>, k: nat): set<nat>
    requires k < |rows|
  {
    set i: nat | i < k && if key.descending then key.cmp(rows[i], rows[k]) < 0 else key.cmp(rows[i], rows[k]) > 0
  }

  lemma GreaterAt<T(!new)>(cmp: Compare<T>, x: T, s: seq<T>)
    requires s != []
    ensures (var n, front := |s| - 1, s[..|s| - 1];
             (set i: nat | i < |s| && cmp(s[i], x) > 0)
             == (set i: nat | i < n && cmp(front[i], x) > 0) + (if cmp(s[n], x) > 0 then {n} else {}))
  {
  }

  lemma {:induction false} GreaterCount<T(!new)>(cmp: Compare<T>, x: T, s: seq<T>)
    ensures SumSeq(Greater(cmp, x), s) == |set i: nat | i < |s| && cmp(s[i], x) > 0|
  {
    var found := set i: nat | i < |s| && cmp(s[i], x) > 0;
    if s == [] {
      assert found == {};
    } else {
      var n, front := |s| - 1, s[..|s| - 1];
      var before := set i: nat | i < n && cmp(front[i], x) > 0;
      GreaterCount(cmp, x, front);
      assert s == front + [s[n]];
      SumSeqConcat(Greater(cmp, x), front, [s[n]]);
      SumSeqOne(Greater(cmp, x), s[n]);
      GreaterAt(cmp, x, s);
    }
  }

  ghost predicate OrderedBy<T(!new)>(key: Key<T>, out: seq<T>) {
    forall i, j :: 0 <= i < j < |out| ==>
      if key.descending then key.cmp(out[i], out[j]) >= 0 else key.cmp(out[i], out[j]) <= 0
  }

  lemma OrderedAscending<T(!new)>(key: Key<T>, out: seq<T>)
    ensures OrderedBy(key, out) <==> Ascending(Comparison(key), out)
  {
  }

  lemma OverdueCount<T(!new)>(key: Key<T>, rows: seq<T>, k: nat)
    requires k < |rows|
    ensures GreaterBefore(Comparison(key), rows, k) == |Overdue(key, rows, k)|
  {
    var cmp := Comparison(key);
    GreaterCount(cmp, rows[k], rows[..k]);
    assert Overdue(key, rows, k) == set i: nat | i < |rows[..k]| && cmp(rows[..k][i], rows[k]) > 0;
  }

  lemma TimelyOverdue<T(!new)>(key: Key<T>, window: nat, rows: seq<T>)
    ensures Timely(Comparison(key), Some(window), rows)
       <==> forall k :: 0 <= k < |rows| ==> |Overdue(key, rows, k)| < window
  {
    forall k | 0 <= k < |rows|
      ensures GreaterBefore(Comparison(key), rows, k) == |Overdue(key, rows, k)|
    {
      OverdueCount(key, rows, k);
    }
  }

  lemma SortedByOne<T>(key: Key<T>, window: Option<int>, rows: seq<T>)
    ensures Sorted([key], window, rows) == Output(Comparison(key), WindowOf(window), rows)
  {
    assert [key][1..] == [];
    assert Sorted([], window, rows) == rows;
  }

  /** With one key and a window of `window` places, the rows come out sorted exactly if the window is not positive,
      which makes it infinite, or each row has fewer overdue ones before it than the window has places. */
  lemma WindowedOrderBy<T(!new)>(key: Key<T>, window: int, rows: seq<T>)
    requires Preorder(key.cmp)
    ensures OrderedBy(key, Sorted([key], Some(window), rows))
       <==> window <= 0 || forall k :: 0 <= k < |rows| ==> |Overdue(key, rows, k)| < window
  {
    var cmp, out := Comparison(key), Sorted([key], Some(window), rows);
    if key.descending { NegateOrdered(key.cmp); }
    SortedByOne(key, Some(window), rows);
    OutputExactly(cmp, WindowOf(Some(window)), rows);
    OrderedAscending(key, out);
    if window > 0 { TimelyOverdue(key, window, rows); }
  }
}
