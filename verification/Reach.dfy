/** Reflexive-transitive and transitive closure of a relation, by walks. */
module Reach {
  type Rel<!T> = (T, T) -> bool

  ghost predicate Walk<T(!new)>(step: Rel<T>, w: seq<T>) {
    |w| > 0 && forall i :: 0 <= i < |w| - 1 ==> step(w[i], w[i + 1])
  }

  ghost predicate WalkFromTo<T(!new)>(step: Rel<T>, w: seq<T>, x: T, y: T) {
    Walk(step, w) && w[0] == x && w[|w| - 1] == y
  }

  ghost predicate Star<T(!new)>(step: Rel<T>, x: T, y: T) {
    exists w :: WalkFromTo(step, w, x, y)
  }

  /** One step or more. */
  ghost predicate Plus<T(!new)>(step: Rel<T>, x: T, y: T) {
    exists z :: step(x, z) && Star(step, z, y)
  }

  lemma StarRefl<T(!new)>(step: Rel<T>, x: T)
    ensures Star(step, x, x)
  {
    assert WalkFromTo(step, [x], x, x);
  }

  lemma StarJoin<T(!new)>(step: Rel<T>, x: T, y: T, z: T)
    requires Star(step, x, y) && Star(step, y, z)
    ensures Star(step, x, z)
  {
    var v :| WalkFromTo(step, v, x, y);
    var w :| WalkFromTo(step, w, y, z);
    assert WalkFromTo(step, v + w[1..], x, z);
  }

  lemma StarStep<T(!new)>(step: Rel<T>, x: T, y: T)
    requires step(x, y)
    ensures Star(step, x, y)
  {
    assert WalkFromTo(step, [x, y], x, y);
  }

  lemma StarUnfold<T(!new)>(step: Rel<T>, x: T, y: T)
    ensures Star(step, x, y) <==> x == y || Plus(step, x, y)
  {
    if Star(step, x, y) {
      var w :| WalkFromTo(step, w, x, y);
      if |w| > 1 { assert WalkFromTo(step, w[1..], w[1], y); }
    }
    if Plus(step, x, y) {
      var z :| step(x, z) && Star(step, z, y);
      StarStep(step, x, z);
      StarJoin(step, x, z, y);
    }
    StarRefl(step, x);
  }

  /** A last step instead of a first one. */
  lemma PlusSnoc<T(!new)>(step: Rel<T>, x: T, y: T, z: T)
    requires Star(step, x, y) && step(y, z)
    ensures Plus(step, x, z)
  {
    StarUnfold(step, x, y);
    StarStep(step, y, z);
    if Plus(step, x, y) {
      var u :| step(x, u) && Star(step, u, y);
      StarJoin(step, u, y, z);
    } else {
      StarRefl(step, z);
    }
  }

  /** A set that is closed under the relation contains what is reachable from inside it. */
  lemma {:induction false} StarClosed<T(!new)>(step: Rel<T>, inside: T -> bool, x: T, y: T)
    requires inside(x) && Star(step, x, y)
    requires forall u, v :: inside(u) && step(u, v) ==> inside(v)
    ensures inside(y)
  {
    var w :| WalkFromTo(step, w, x, y);
    WalkClosed(step, inside, w);
  }

  lemma {:induction false} WalkClosed<T(!new)>(step: Rel<T>, inside: T -> bool, w: seq<T>)
    requires Walk(step, w) && inside(w[0])
    requires forall u, v :: inside(u) && step(u, v) ==> inside(v)
    ensures inside(w[|w| - 1])
  {
    if |w| > 1 { WalkClosed(step, inside, w[..|w| - 1]); }
  }

  ghost predicate Converse<T(!new)>(step: Rel<T>, back: Rel<T>) {
    forall x, y :: step(x, y) <==> back(y, x)
  }

  lemma {:induction false} StarConverse<T(!new)>(step: Rel<T>, back: Rel<T>, x: T, y: T)
    requires Converse(step, back)
    ensures Star(step, x, y) <==> Star(back, y, x)
  {
    if Star(step, x, y) {
      var w :| WalkFromTo(step, w, x, y);
      StarBack(step, back, w);
    }
    if Star(back, y, x) {
      var w :| WalkFromTo(back, w, y, x);
      StarBack(back, step, w);
    }
  }

  lemma {:induction false} StarBack<T(!new)>(step: Rel<T>, back: Rel<T>, w: seq<T>)
    requires Converse(step, back) && Walk(step, w)
    ensures Star(back, w[|w| - 1], w[0])
  {
    if |w| == 1 {
      StarRefl(back, w[0]);
    } else {
      StarBack(step, back, w[1..]);
      StarStep(back, w[1], w[0]);
      StarJoin(back, w[|w| - 1], w[1], w[0]);
    }
  }

  /** The closure of the converse is the converse of the closure. */
  lemma PlusConverse<T(!new)>(step: Rel<T>, back: Rel<T>, x: T, y: T)
    requires Converse(step, back)
    ensures Plus(step, x, y) <==> Plus(back, y, x)
  {
    if Plus(step, x, y) {
      var z :| step(x, z) && Star(step, z, y);
      StarConverse(step, back, z, y);
      PlusSnoc(back, y, z, x);
    }
    if Plus(back, y, x) {
      var z :| back(y, z) && Star(back, z, x);
      StarConverse(back, step, z, x);
      PlusSnoc(step, x, z, y);
    }
  }

  lemma SameClosure<T(!new)>(step: Rel<T>, other: Rel<T>, inside: T -> bool, x: T, y: T)
    requires inside(x)
    requires forall u, v :: inside(u) ==> step(u, v) == other(u, v)
    requires forall u, v :: inside(u) && step(u, v) ==> inside(v)
    ensures Star(step, x, y) == Star(other, x, y) && Plus(step, x, y) == Plus(other, x, y)
  {
    SameStar(step, other, inside, x, y);
    forall z | step(x, z) ensures Star(step, z, y) == Star(other, z, y) { SameStar(step, other, inside, z, y); }
  }

  lemma SameStar<T(!new)>(step: Rel<T>, other: Rel<T>, inside: T -> bool, x: T, y: T)
    requires inside(x)
    requires forall u, v :: inside(u) ==> step(u, v) == other(u, v)
    requires forall u, v :: inside(u) && step(u, v) ==> inside(v)
    ensures Star(step, x, y) == Star(other, x, y)
  {
    if Star(step, x, y) {
      var w :| WalkFromTo(step, w, x, y);
      WalkInside(step, other, inside, w);
      assert WalkFromTo(other, w, x, y);
    }
    if Star(other, x, y) {
      var w :| WalkFromTo(other, w, x, y);
      WalkInside(other, step, inside, w);
      assert WalkFromTo(step, w, x, y);
    }
  }

  lemma {:induction false} WalkInside<T(!new)>(step: Rel<T>, other: Rel<T>, inside: T -> bool, w: seq<T>)
    requires Walk(step, w) && inside(w[0])
    requires forall u, v :: inside(u) ==> step(u, v) == other(u, v)
    requires forall u, v :: inside(u) && step(u, v) ==> inside(v)
    ensures Walk(other, w) && forall i :: 0 <= i < |w| ==> inside(w[i])
  {
    if |w| > 1 {
      WalkInside(step, other, inside, w[..|w| - 1]);
      assert step(w[|w| - 2], w[|w| - 1]);
      assert inside(w[..|w| - 1][|w| - 2]);
    }
  }
}
