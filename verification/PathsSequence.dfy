/** Sequences, joined over generated variables. */
module PathsSequence {
  import opened Terms
  import opened PathExprs
  import opened PathSpec
  import opened Paths
  import opened PathsProof

  function NameSet(names: seq<string>): set<string> { set n | n in names }

  ghost predicate NewNames(names: seq<string>, s: Term, o: Term) {
    && (forall i, j :: 0 <= i < j < |names| ==> names[i] != names[j])
    && (forall n :: n in names ==> Var(n) != s && Var(n) != o && n !in RESERVED)
  }

  lemma JoinersNew(s: Term, o: Term, k: nat)
    ensures NewNames(Joiners(s, o, k), s, o)
  {
    var names := Joiners(s, o, k);
    forall i, j | 0 <= i < j < |names| ensures names[i] != names[j] { JoinersDiffer(s, o, i, j); }
    forall n | n in names
      ensures Var(n) != s && Var(n) != o && n !in RESERVED
    {
      var i :| 0 <= i < |names| && n == names[i];
      JoinersDiffer(s, o, i, i);
      JoinerNumber(s, o, i);
    }
  }

  /** `nu` answers the whole sequence, with whatever values for the generated variables. */
  ghost predicate Spans(s: Term, o: Term, names: seq<string>, nu: Mapping, x: Term, y: Term) {
    nu - NameSet(names) == Ends(s, o, x, y) && nu.Keys <= Vars(s) + Vars(o) + NameSet(names)
    && (s.Var? && s == o ==> x == y)
  }

  lemma NamesRest(names: seq<string>)
    requires |names| > 0
    ensures NameSet(names) == {names[0]} + NameSet(names[1..])
  {
    assert names == [names[0]] + names[1..];
  }

  lemma SpansJoin(s: Term, o: Term, names: seq<string>, l: Mapping, r: Mapping, x: Term, z: Term, y: Term)
    requires |names| > 0 && NewNames(names, s, o) && Usable(s) && Usable(o)
    requires l == Ends(s, Var(names[0]), x, z) && Spans(Var(names[0]), o, names[1..], r, z, y)
    ensures names[0] in l && names[0] in r && l[names[0]] == z == r[names[0]]
    ensures (s.Var? && s == o ==> x == y) ==> Compatible(l, r) && Spans(s, o, names, l + r, x, y)
  {
    NamesRest(names);
    var rest := NameSet(names[1..]);
    assert names[0] !in names[1..];
    assert (r - rest)[names[0]] == z;
    if s.Var? && s == o ==> x == y {
      forall n | n in l && n in r ensures l[n] == r[n] {
        if n != names[0] { assert n in r - rest; }
      }
      SpansMerged(s, o, names, l, r, x, z, y);
    }
  }

  lemma SpansMerged(s: Term, o: Term, names: seq<string>, l: Mapping, r: Mapping, x: Term, z: Term, y: Term)
    requires |names| > 0 && NewNames(names, s, o) && Usable(s) && Usable(o) && (s.Var? && s == o ==> x == y)
    requires l == Ends(s, Var(names[0]), x, z) && Spans(Var(names[0]), o, names[1..], r, z, y)
    ensures Spans(s, o, names, l + r, x, y)
  {
    NamesRest(names);
    var n0, rest := names[0], NameSet(names[1..]);
    forall n
      ensures SameAt((l + r) - ({n0} + rest), Ends(s, o, x, y), n)
    {
      MergedAt(s, o, n0, rest, l, r, x, z, y, n);
    }
    SameMapping((l + r) - ({n0} + rest), Ends(s, o, x, y));
  }

  lemma SameMapping(m: Mapping, n: Mapping)
    requires forall x :: SameAt(m, n, x)
    ensures m == n
  {
    forall x ensures x in m <==> x in n { assert SameAt(m, n, x); }
    forall x | x in m ensures m[x] == n[x] { assert SameAt(m, n, x); }
  }

  ghost predicate SameAt(m: Mapping, n: Mapping, x: string) {
    (x in m <==> x in n) && (x in m ==> m[x] == n[x])
  }

  lemma MergedAt(s: Term, o: Term, n0: string, rest: set<string>, l: Mapping, r: Mapping, x: Term, z: Term, y: Term,
      n: string)
    requires Var(n0) != s && Var(n0) != o && (s.Var? ==> s.name !in rest) && (o.Var? ==> o.name !in rest)
    requires (s.Var? && s == o ==> x == y) && l == Ends(s, Var(n0), x, z) && r - rest == Ends(Var(n0), o, z, y)
    ensures SameAt((l + r) - ({n0} + rest), Ends(s, o, x, y), n)
  {
    if n != n0 && n !in rest {
      assert n in r <==> n in r - rest;
      assert n in r - rest <==> o == Var(n);
      assert n in l <==> s == Var(n);
    }
  }

  lemma StepExact(d: Data, s: Term, p: Path, o: Term, mu: Mapping)
    requires Exact(d, p) && Fine(s, p, o)
    ensures Sol(d, s, Assign(|d.sources|, p), o, mu) <==> Answers(Merged(d), s, p, o, mu)
  {
    assert ExactAt(d, s, p, o, mu);
  }

  function AssignAll(n: nat, ps: seq<Path>): seq<Path> {
    seq(|ps|, i requires 0 <= i < |ps| => Assign(n, ps[i]))
  }

  ghost predicate SeqFine(d: Data, s: Term, ps: seq<Path>, o: Term, names: seq<string>) {
    && |ps| == |names| + 1 && Usable(s) && Usable(o) && NewNames(names, s, o)
    && (forall i :: 0 <= i < |ps| ==> Exact(d, ps[i])) && (|ps| == 1 ==> Fine(s, ps[0], o))
  }

  lemma RestFine(d: Data, s: Term, ps: seq<Path>, o: Term, names: seq<string>)
    requires SeqFine(d, s, ps, o, names) && |ps| > 1
    ensures SeqFine(d, Var(names[0]), ps[1..], o, names[1..]) && Fine(s, ps[0], Var(names[0]))
    ensures AssignAll(|d.sources|, ps)[1..] == AssignAll(|d.sources|, ps[1..])
  {
  }

  lemma {:induction false} SeqAnswers(d: Data, s: Term, ps: seq<Path>, o: Term, names: seq<string>, nu: Mapping)
    returns (x: Term, y: Term)
    requires SeqFine(d, s, ps, o, names) && SeqSol(d, s, AssignAll(|d.sources|, ps), o, names, nu)
    ensures SpecSeq(Merged(d), ps, Mode(s), Mode(o), x, y) && Spans(s, o, names, nu, x, y)
    decreases |ps|
  {
    var qs := AssignAll(|d.sources|, ps);
    if |ps| == 1 {
      x, y := StepAnswers(d, s, ps[0], o, nu);
    } else {
      var l, r := SeqSplit(d, s, qs, o, names, nu);
      RestFine(d, s, ps, o, names);
      var z, z';
      x, z := StepAnswers(d, s, ps[0], Var(names[0]), l);
      z', y := SeqAnswers(d, Var(names[0]), ps[1..], o, names[1..], r);
      SeqMeets(Merged(d), s, ps, o, names, l, r, x, z, z', y);
    }
  }

  lemma SeqSplit(d: Data, s: Term, qs: seq<Path>, o: Term, names: seq<string>, nu: Mapping)
      returns (l: Mapping, r: Mapping)
    requires |qs| == |names| + 1 > 1 && SeqSol(d, s, qs, o, names, nu)
    ensures Sol(d, s, qs[0], Var(names[0]), l) && SeqSol(d, Var(names[0]), qs[1..], o, names[1..], r)
    ensures Compatible(l, r) && nu == l + r
  {
    l, r :| Sol(d, s, qs[0], Var(names[0]), l) && SeqSol(d, Var(names[0]), qs[1..], o, names[1..], r)
            && Compatible(l, r) && nu == l + r;
  }

  lemma StepAnswers(d: Data, s: Term, p: Path, o: Term, mu: Mapping) returns (x: Term, y: Term)
    requires Exact(d, p) && Fine(s, p, o) && Sol(d, s, Assign(|d.sources|, p), o, mu)
    ensures AnswersWith(Merged(d), s, p, o, mu, x, y)
  {
    StepExact(d, s, p, o, mu);
    x, y :| AnswersWith(Merged(d), s, p, o, mu, x, y);
  }

  lemma SeqMeets(g: Graph, s: Term, ps: seq<Path>, o: Term, names: seq<string>, l: Mapping, r: Mapping,
                 x: Term, z: Term, z': Term, y: Term)
    requires |ps| == |names| + 1 > 1 && NewNames(names, s, o) && Usable(s) && Usable(o) && Compatible(l, r)
    requires AnswersWith(g, s, ps[0], Var(names[0]), l, x, z)
    requires SpecSeq(g, ps[1..], None, Mode(o), z', y) && Spans(Var(names[0]), o, names[1..], r, z', y)
    ensures SpecSeq(g, ps, Mode(s), Mode(o), x, y) && Spans(s, o, names, l + r, x, y)
  {
    Meet(s, o, names, l, r, x, z, z', y);
    SpansJoin(s, o, names, l, r, x, z, y);
  }

  /** Compatible parts agree on the variable they meet in, and on a variable that is at both ends. */
  lemma Meet(s: Term, o: Term, names: seq<string>, l: Mapping, r: Mapping, x: Term, z: Term, z': Term, y: Term)
    requires |names| > 0 && NewNames(names, s, o) && Compatible(l, r)
    requires l == Ends(s, Var(names[0]), x, z) && Spans(Var(names[0]), o, names[1..], r, z', y)
    ensures z == z' && (s.Var? && s == o ==> x == y)
  {
    var rest := r - NameSet(names[1..]);
    assert names[0] !in names[1..];
    assert rest[names[0]] == z' && l[names[0]] == z;
    if s.Var? && s == o { assert rest[s.name] == y && l[s.name] == x; }
  }

  lemma {:induction false} SeqFound(d: Data, s: Term, ps: seq<Path>, o: Term, names: seq<string>, x: Term, y: Term)
    returns (nu: Mapping)
    requires SeqFine(d, s, ps, o, names) && SpecSeq(Merged(d), ps, Mode(s), Mode(o), x, y)
             && (s.Var? && s == o ==> x == y)
    ensures SeqSol(d, s, AssignAll(|d.sources|, ps), o, names, nu) && Spans(s, o, names, nu, x, y)
    decreases |ps|
  {
    if |ps| == 1 {
      nu := Ends(s, o, x, y);
      assert AnswersWith(Merged(d), s, ps[0], o, nu, x, y);
      StepExact(d, s, ps[0], o, nu);
    } else {
      var z := Var(names[0]);
      var z' :| Spec(Merged(d), ps[0], Mode(s), None, x, z') && SpecSeq(Merged(d), ps[1..], None, Mode(o), z', y);
      RestFine(d, s, ps, o, names);
      var l := Ends(s, z, x, z');
      assert AnswersWith(Merged(d), s, ps[0], z, l, x, z');
      StepExact(d, s, ps[0], z, l);
      var r := SeqFound(d, z, ps[1..], o, names[1..], z', y);
      nu := l + r;
      SpansJoin(s, o, names, l, r, x, z', y);
    }
  }

  lemma ExactSeq(d: Data, ps: seq<Path>)
    requires Valid(d) && |ps| > 0 && forall i :: 0 <= i < |ps| ==> Exact(d, ps[i])
    ensures Exact(d, Seq(ps))
  {
    forall s, o, mu | Fine(s, Seq(ps), o)
      ensures ExactAt(d, s, Seq(ps), o, mu)
    {
      ExactSeqAt(d, s, ps, o, mu);
    }
  }

  lemma ExactSeqAt(d: Data, s: Term, ps: seq<Path>, o: Term, mu: Mapping)
    requires Valid(d) && |ps| > 0 && Fine(s, Seq(ps), o) && forall i :: 0 <= i < |ps| ==> Exact(d, ps[i])
    ensures ExactAt(d, s, Seq(ps), o, mu)
  {
    var qs := AssignAll(|d.sources|, ps);
    assert Assign(|d.sources|, Seq(ps)) == Seq(qs);
    SeqIsRow(d, s, qs, o, mu);
    if SeqRow(d, s, qs, o, mu) { SeqAnswered(d, s, ps, o, mu); }
    if x, y :| AnswersWith(Merged(d), s, Seq(ps), o, mu, x, y) { SeqBuilt(d, s, ps, o, mu, x, y); }
  }

  lemma SeqBuilt(d: Data, s: Term, ps: seq<Path>, o: Term, mu: Mapping, x: Term, y: Term)
    requires Valid(d) && |ps| > 0 && Fine(s, Seq(ps), o) && forall i :: 0 <= i < |ps| ==> Exact(d, ps[i])
    requires AnswersWith(Merged(d), s, Seq(ps), o, mu, x, y)
    ensures SeqRow(d, s, AssignAll(|d.sources|, ps), o, mu)
  {
    var names := Joiners(s, o, |ps| - 1);
    SeqIsFine(d, s, ps, o);
    assert SpecSeq(Merged(d), ps, Mode(s), Mode(o), x, y);
    var nu := SeqFound(d, s, ps, o, names, x, y);
    assert mu == nu - NameSet(names);
  }

  lemma SeqIsRow(d: Data, s: Term, qs: seq<Path>, o: Term, mu: Mapping)
    ensures Sol(d, s, Seq(qs), o, mu) <==> SeqRow(d, s, qs, o, mu)
  {
  }

  lemma SeqAnswered(d: Data, s: Term, ps: seq<Path>, o: Term, mu: Mapping)
    requires Valid(d) && |ps| > 0 && Fine(s, Seq(ps), o) && forall i :: 0 <= i < |ps| ==> Exact(d, ps[i])
    requires SeqRow(d, s, AssignAll(|d.sources|, ps), o, mu)
    ensures Answers(Merged(d), s, Seq(ps), o, mu)
  {
    SeqIsFine(d, s, ps, o);
    SeqRowAnswers(d, s, ps, AssignAll(|d.sources|, ps), o, Joiners(s, o, |ps| - 1), mu);
  }

  lemma SeqRowAnswers(d: Data, s: Term, ps: seq<Path>, qs: seq<Path>, o: Term, names: seq<string>, mu: Mapping)
    requires SeqFine(d, s, ps, o, names) && qs == AssignAll(|d.sources|, ps) && SeqRow(d, s, qs, o, mu)
    requires |qs| > 0 && names == Joiners(s, o, |qs| - 1)
    ensures Answers(Merged(d), s, Seq(ps), o, mu)
  {
    var nu := SeqRowFrom(d, s, qs, o, mu);
    SeqSolAnswers(d, s, ps, qs, o, names, nu);
  }

  lemma SeqSolAnswers(d: Data, s: Term, ps: seq<Path>, qs: seq<Path>, o: Term, names: seq<string>, nu: Mapping)
    requires SeqFine(d, s, ps, o, names) && qs == AssignAll(|d.sources|, ps) && SeqSol(d, s, qs, o, names, nu)
    ensures Answers(Merged(d), s, Seq(ps), o, nu - NameSet(names))
  {
    var x, y := SeqAnswers(d, s, ps, o, names, nu);
    SeqAnswer(Merged(d), s, ps, o, names, nu, x, y);
  }

  lemma SeqIsFine(d: Data, s: Term, ps: seq<Path>, o: Term)
    requires |ps| > 0 && Fine(s, Seq(ps), o) && forall i :: 0 <= i < |ps| ==> Exact(d, ps[i])
    ensures SeqFine(d, s, ps, o, Joiners(s, o, |ps| - 1))
  {
    JoinersNew(s, o, |ps| - 1);
  }

  lemma SeqRowFrom(d: Data, s: Term, qs: seq<Path>, o: Term, mu: Mapping) returns (nu: Mapping)
    requires SeqRow(d, s, qs, o, mu)
    ensures |qs| > 0
    ensures (var names := Joiners(s, o, |qs| - 1); SeqSol(d, s, qs, o, names, nu) && mu == nu - NameSet(names))
  {
    var names := Joiners(s, o, |qs| - 1);
    nu :| SeqSol(d, s, qs, o, names, nu) && mu == nu - (set n | n in names);
  }

  lemma SeqAnswer(g: Graph, s: Term, ps: seq<Path>, o: Term, names: seq<string>, nu: Mapping, x: Term, y: Term)
    requires SpecSeq(g, ps, Mode(s), Mode(o), x, y) && Spans(s, o, names, nu, x, y)
    ensures Answers(g, s, Seq(ps), o, nu - NameSet(names))
  {
    SeqFits(g, ps, Mode(s), Mode(o), x, y);
    assert AnswersWith(g, s, Seq(ps), o, nu - NameSet(names), x, y);
  }

  lemma {:induction false} SeqFits(g: Graph, ps: seq<Path>, a: End, c: End, x: Term, y: Term)
    requires SpecSeq(g, ps, a, c, x, y)
    ensures Fits(a, x) && Fits(c, y)
    decreases |ps|
  {
    if |ps| > 1 {
      var z :| Spec(g, ps[0], a, None, x, z) && SpecSeq(g, ps[1..], None, c, z, y);
      SeqFits(g, ps[1..], None, c, z, y);
    }
  }
}
