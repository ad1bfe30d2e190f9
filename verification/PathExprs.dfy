/** Property path expressions, and where they match a zero-length path at a constant. */
module PathExprs {
  import opened Terms

  datatype Path =
    | Link(iri: Term, src: Option<nat>)
    | Nps(iris: seq<Term>, src: Option<nat>)
    | Inv(path: Path)
    | Seq(steps: seq<Path>)
    | Alt(choices: seq<Path>)
    | ZeroOrOne(path: Path)
    | OneOrMore(path: Path)
    | ZeroOrMore(path: Path)

  /** Whether the path relates a term that is not a node of the graph to itself, given which of the two
      ends of the path is that constant term. A sequence loses such a term as soon as it has to pass through a
      variable, which ranges over the nodes of the graph only. */
  predicate Nullable(p: Path, subjectFixed: bool, objectFixed: bool) {
    (subjectFixed || objectFixed) &&
    match p
    case Link(_, _) => false
    case Nps(_, _) => false
    case Inv(q) => Nullable(q, objectFixed, subjectFixed)
    case Seq(ps) => NullableSeq(ps, subjectFixed, objectFixed)
    case Alt(ps) => exists i :: 0 <= i < |ps| && Nullable(ps[i], subjectFixed, objectFixed)
    case ZeroOrOne(_) => true
    case ZeroOrMore(_) => true
    case OneOrMore(q) => if subjectFixed then Nullable(q, true, false) else Nullable(q, false, true)
  }

  /** A non-empty run of steps; the ends between two steps are variables. */
  predicate NullableSeq(ps: seq<Path>, subjectFixed: bool, objectFixed: bool) {
    if |ps| == 0 then false
    else if |ps| == 1 then Nullable(ps[0], subjectFixed, objectFixed)
    else Nullable(ps[0], subjectFixed, false) && NullableSeq(ps[1..], false, objectFixed)
  }

  /** In how many ways the path does so: each choice of an alternative and each way through each step of a
      sequence counts, and `?`, `*` and `+` match at most once (section 18.4 of SPARQL 1.1 Query Language). */
  function Ways(p: Path, subjectFixed: bool, objectFixed: bool): nat
    decreases p, 1
  {
    if !subjectFixed && !objectFixed then 0
    else match p
      case Link(_, _) => 0
      case Nps(_, _) => 0
      case Inv(q) => Ways(q, objectFixed, subjectFixed)
      case Seq(ps) => WaysSeq(ps, subjectFixed, objectFixed)
      case Alt(ps) => WaysAlt(ps, subjectFixed, objectFixed)
      case ZeroOrOne(_) => 1
      case ZeroOrMore(_) => 1
      case OneOrMore(q) => if (if subjectFixed then Ways(q, true, false) else Ways(q, false, true)) > 0 then 1 else 0
  }

  function WaysSeq(ps: seq<Path>, subjectFixed: bool, objectFixed: bool): nat
    decreases ps, 0
  {
    if |ps| == 0 then 0
    else if |ps| == 1 then Ways(ps[0], subjectFixed, objectFixed)
    else Ways(ps[0], subjectFixed, false) * WaysSeq(ps[1..], false, objectFixed)
  }

  function WaysAlt(ps: seq<Path>, subjectFixed: bool, objectFixed: bool): nat
    decreases ps, 0
  {
    if ps == [] then 0 else Ways(ps[0], subjectFixed, objectFixed) + WaysAlt(ps[1..], subjectFixed, objectFixed)
  }

  lemma {:induction false} NullableWays(p: Path, s: bool, o: bool)
    ensures Nullable(p, s, o) <==> Ways(p, s, o) > 0
    decreases p, 1
  {
    match p
    case Link(_, _) =>
    case Nps(_, _) =>
    case Inv(q) => NullableWays(q, o, s);
    case Seq(ps) => NullableSeqWays(ps, s, o);
    case Alt(ps) => NullableAltWays(ps, s, o);
    case ZeroOrOne(_) =>
    case ZeroOrMore(_) =>
    case OneOrMore(q) =>
      NullableWays(q, true, false);
      NullableWays(q, false, true);
  }

  lemma {:induction false} NullableSeqWays(ps: seq<Path>, s: bool, o: bool)
    ensures NullableSeq(ps, s, o) <==> WaysSeq(ps, s, o) > 0
    decreases ps, 0
  {
    if |ps| == 1 {
      NullableWays(ps[0], s, o);
    } else if |ps| > 1 {
      NullableWays(ps[0], s, false);
      NullableSeqWays(ps[1..], false, o);
      Positive(Ways(ps[0], s, false), WaysSeq(ps[1..], false, o));
    }
  }

  lemma Positive(a: nat, b: nat)
    ensures a * b > 0 <==> a > 0 && b > 0
  {
  }

  lemma {:induction false} NullableAltWays(ps: seq<Path>, s: bool, o: bool)
    ensures (exists i :: 0 <= i < |ps| && Nullable(ps[i], s, o)) <==> WaysAlt(ps, s, o) > 0
    decreases ps, 0
  {
    if ps != [] {
      NullableWays(ps[0], s, o);
      NullableAltWays(ps[1..], s, o);
      if i :| 0 <= i < |ps| && Nullable(ps[i], s, o) {
        assert i == 0 || Nullable(ps[1..][i - 1], s, o);
      }
      if i :| 0 <= i < |ps[1..]| && Nullable(ps[1..][i], s, o) {
        assert Nullable(ps[i + 1], s, o);
      }
    }
  }

  /** Fixing more ends never makes a path lose its zero-length matches. */
  lemma {:induction false} NullableMore(p: Path, s: bool, o: bool, s': bool, o': bool)
    requires Nullable(p, s, o) && (s ==> s') && (o ==> o')
    ensures Nullable(p, s', o')
  {
    match p
    case Link(_, _) =>
    case Nps(_, _) =>
    case Inv(q) => NullableMore(q, o, s, o', s');
    case Seq(ps) => NullableSeqMore(ps, s, o, s', o');
    case Alt(ps) =>
      var i :| 0 <= i < |ps| && Nullable(ps[i], s, o);
      NullableMore(ps[i], s, o, s', o');
    case ZeroOrOne(_) =>
    case ZeroOrMore(_) =>
    case OneOrMore(q) =>
      if !s && s' { NullableMirror(q); }
  }

  lemma {:induction false} NullableSeqMore(ps: seq<Path>, s: bool, o: bool, s': bool, o': bool)
    requires NullableSeq(ps, s, o) && (s ==> s') && (o ==> o')
    ensures NullableSeq(ps, s', o')
  {
    if |ps| == 1 {
      NullableMore(ps[0], s, o, s', o');
    } else {
      NullableMore(ps[0], s, false, s', false);
      NullableSeqMore(ps[1..], false, o, false, o');
    }
  }

  /** A single fixed end counts the same on either side. */
  lemma {:induction false} NullableMirror(p: Path)
    ensures Nullable(p, true, false) == Nullable(p, false, true)
  {
    match p
    case Link(_, _) =>
    case Nps(_, _) =>
    case Inv(q) => NullableMirror(q);
    case Seq(ps) => NullableSeqMirror(ps);
    case Alt(ps) =>
      forall i | 0 <= i < |ps| { NullableMirror(ps[i]); }
    case ZeroOrOne(_) =>
    case ZeroOrMore(_) =>
    case OneOrMore(q) => NullableMirror(q);
  }

  lemma NullableSeqMirror(ps: seq<Path>)
    ensures NullableSeq(ps, true, false) == NullableSeq(ps, false, true)
    decreases ps, 0
  {
    if |ps| == 1 {
      NullableMirror(ps[0]);
    } else if |ps| > 1 {
      NoEnds(ps[1..]);
    }
  }

  lemma NoEnds(ps: seq<Path>)
    ensures !NullableSeq(ps, false, false)
  {
  }

  predicate NoAlternatives(p: Path) {
    match p
    case Link(_, _) => true
    case Nps(_, _) => true
    case Inv(q) => NoAlternatives(q)
    case Seq(ps) => forall i :: 0 <= i < |ps| ==> NoAlternatives(ps[i])
    case Alt(_) => false
    case ZeroOrOne(q) => NoAlternatives(q)
    case OneOrMore(q) => NoAlternatives(q)
    case ZeroOrMore(q) => NoAlternatives(q)
  }

  /** Without alternatives there is one way at most. */
  lemma {:induction false} OneWay(p: Path, s: bool, o: bool)
    requires NoAlternatives(p)
    ensures Ways(p, s, o) <= 1
    decreases p, 1
  {
    match p
    case Inv(q) => OneWay(q, o, s);
    case Seq(ps) => OneWaySeq(ps, s, o);
    case _ =>
  }

  lemma {:induction false} OneWaySeq(ps: seq<Path>, s: bool, o: bool)
    requires forall i :: 0 <= i < |ps| ==> NoAlternatives(ps[i])
    ensures WaysSeq(ps, s, o) <= 1
    decreases ps, 0
  {
    if |ps| == 1 {
      OneWay(ps[0], s, o);
    } else if |ps| > 1 {
      OneWay(ps[0], s, false);
      OneWaySeq(ps[1..], false, o);
      AtMostOne(Ways(ps[0], s, false), WaysSeq(ps[1..], false, o));
    }
  }

  lemma AtMostOne(a: nat, b: nat)
    requires a <= 1 && b <= 1
    ensures a * b <= 1
  {
    assert a == 0 || a == 1;
  }
}
