/** Blank nodes of several sources kept apart by skolemization. */
module Skolem {
  import opened Terms
  import Decimals

  /** `Scoped` is a blank node that remembers the skolem IRI it stands for. */
  datatype RdfTerm =
    | NamedNode(value: string)
    | BlankNode(label': string)
    | Scoped(label': string, skolemized: string)
    | Plain(kind: string, value: string)
    | Quoted(subj: RdfTerm, pred: RdfTerm, obj: RdfTerm, graph: RdfTerm)

  const SKOLEM_PREFIX := "urn:comunica_skolem:source_"

  function SkolemIri(sourceId: string, name: string): string { SKOLEM_PREFIX + sourceId + ":" + name }

  function ScopedLabel(sourceId: string, name: string): string { "bc_" + sourceId + "_" + name }

  function SkolemizeTerm(t: RdfTerm, sourceId: string): RdfTerm {
    if t.BlankNode? || t.Scoped? then Scoped(ScopedLabel(sourceId, t.label'), SkolemIri(sourceId, t.label')) else t
  }

  function Skolemize(t: RdfTerm, sourceId: string): RdfTerm {
    match t
    case Quoted(s, p, o, g) =>
      Quoted(Skolemize(s, sourceId), Skolemize(p, sourceId), Skolemize(o, sourceId), Skolemize(g, sourceId))
    case _ => SkolemizeTerm(t, sourceId)
  }

  /** The first place of a character from `i` on, or -1. */
  function IndexOf(s: string, c: char, i: nat): (r: int)
    ensures -1 <= r < |s|
    decreases |s| - i
  {
    if i >= |s| then -1 else if s[i] == c then i else IndexOf(s, c, i + 1)
  }

  /** A slice of a string; a negative end counts from the back. */
  function Slice(s: string, start: nat, end: int): string {
    var e := if end < 0 then |s| + end else end;
    if start <= e <= |s| then s[start..e] else ""
  }

  /** `None` stands for a term that was skolemized for another source. */
  function DeskolemizeTerm(t: RdfTerm, sourceId: string): Option<RdfTerm> {
    var term := if t.Scoped? then NamedNode(t.skolemized) else t;
    if term.NamedNode? && SKOLEM_PREFIX <= term.value then
      var colon := IndexOf(term.value, ':', |SKOLEM_PREFIX|);
      if Slice(term.value, |SKOLEM_PREFIX|, colon) == sourceId then Some(BlankNode(term.value[colon + 1..])) else None
    else Some(term)
  }

  /** `None` stands for the error on a term that is not in scope. */
  function Deskolemize(t: RdfTerm, sourceId: string): Option<RdfTerm> {
    match t
    case Quoted(s, p, o, g) =>
      var s', p' := Deskolemize(s, sourceId), Deskolemize(p, sourceId);
      var o', g' := Deskolemize(o, sourceId), Deskolemize(g, sourceId);
      if s'.Some? && p'.Some? && o'.Some? && g'.Some?
      then Some(Quoted(s'.value, p'.value, o'.value, g'.value)) else None
    case _ => DeskolemizeTerm(t, sourceId)
  }

  // ----- source ids -----

  /** Ids are handed out in order of first request. */
  class SourceIds {
    var ids: map<nat, string>

    constructor ()
      ensures ids == map[]
    {
      ids := map[];
    }

    method GetSourceId(source: nat) returns (id: string)
      modifies this
      ensures ids == Registered(old(ids), source) && source in ids && id == ids[source]
    {
      if source !in ids { ids := ids[source := Decimals.Digits(|ids|)]; }
      id := ids[source];
    }
  }

  function Registered(ids: map<nat, string>, source: nat): map<nat, string> {
    if source in ids then ids else ids[source := Decimals.Digits(|ids|)]
  }

  /** The map after a series of requests. */
  function Handed(requests: seq<nat>): map<nat, string> {
    if requests == [] then map[] else Registered(Handed(requests[..|requests| - 1]), requests[|requests| - 1])
  }

  ghost predicate Numbered(ids: map<nat, string>) {
    && (forall s :: s in ids ==> exists n: nat :: IdIs(ids, s, n))
    && (forall s, t :: s in ids && t in ids && ids[s] == ids[t] ==> s == t)
  }

  ghost predicate IdIs(ids: map<nat, string>, s: nat, n: nat) { s in ids && n < |ids| && ids[s] == Decimals.Digits(n) }

  /** Different sources always have different ids, and an id is a number. */
  lemma {:induction false} IdsDiffer(requests: seq<nat>)
    ensures Numbered(Handed(requests))
  {
    if requests != [] {
      var ids, source := Handed(requests[..|requests| - 1]), requests[|requests| - 1];
      IdsDiffer(requests[..|requests| - 1]);
      var ids' := Handed(requests);
      if source !in ids {
        assert ids'.Keys == ids.Keys + {source};
        assert |ids'| == |ids| + 1;
        forall s | s in ids'
          ensures exists n: nat :: IdIs(ids', s, n)
          ensures s != source ==> ids'[s] != ids'[source]
        {
          if s == source {
            assert IdIs(ids', s, |ids|);
          } else {
            var n: nat :| IdIs(ids, s, n);
            assert IdIs(ids', s, n);
            Decimals.ReadBack(n, "");
            Decimals.ReadBack(|ids|, "");
            assert Decimals.Digits(n) + "" == Decimals.Digits(n)
              && Decimals.Digits(|ids|) + "" == Decimals.Digits(|ids|);
          }
        }
      }
    }
  }

  // ----- round trips -----

  predicate IsId(id: string) { forall c :: c in id ==> Decimals.IsDigit(c) }

  lemma HandedIsId(requests: seq<nat>, source: nat)
    requires source in Handed(requests)
    ensures IsId(Handed(requests)[source])
  {
    IdsDiffer(requests);
    var n: nat :| IdIs(Handed(requests), source, n);
    Decimals.DigitsAre(n);
  }

  /** A term as a source delivers it: no skolem IRI, no scoped blank node. */
  predicate Unskolemized(t: RdfTerm) {
    match t
    case NamedNode(v) => !(SKOLEM_PREFIX <= v)
    case BlankNode(_) => true
    case Scoped(_, _) => false
    case Plain(_, _) => true
    case Quoted(s, p, o, g) => Unskolemized(s) && Unskolemized(p) && Unskolemized(o) && Unskolemized(g)
  }

  predicate HasBlank(t: RdfTerm) {
    match t
    case BlankNode(_) => true
    case Quoted(s, p, o, g) => HasBlank(s) || HasBlank(p) || HasBlank(o) || HasBlank(g)
    case _ => false
  }

  lemma {:induction false} IndexAfter(s: string, c: char, i: nat, j: nat)
    requires i <= j < |s| && s[j] == c && forall k :: i <= k < j ==> s[k] != c
    ensures IndexOf(s, c, i) == j
    decreases j - i
  {
    if i < j { IndexAfter(s, c, i + 1, j); }
  }

  lemma ParseSkolem(id: string, name: string)
    requires IsId(id)
    ensures (var iri, n := SkolemIri(id, name), |SKOLEM_PREFIX|;
             && SKOLEM_PREFIX <= iri && IndexOf(iri, ':', n) == n + |id|
             && Slice(iri, n, n + |id|) == id && iri[n + |id| + 1..] == name)
  {
    var iri, n := SkolemIri(id, name), |SKOLEM_PREFIX|;
    assert iri == (SKOLEM_PREFIX + id) + (":" + name);
    forall k | n <= k < n + |id| ensures iri[k] != ':' {
      assert iri[k] == id[k - n] && id[k - n] in id;
    }
    IndexAfter(iri, ':', n, n + |id|);
  }

  lemma DeskolemizeBlank(name: string, id: string, other: string)
    requires IsId(id)
    ensures DeskolemizeTerm(SkolemizeTerm(BlankNode(name), id), other)
         == if other == id then Some(BlankNode(name)) else None
  {
    ParseSkolem(id, name);
  }

  /** For the same source, deskolemizing returns the original term; for another one it fails exactly when the term
      contains a blank node. */
  lemma {:induction false} RoundTrip(t: RdfTerm, id: string, other: string)
    requires Unskolemized(t) && IsId(id)
    ensures Deskolemize(Skolemize(t, id), other) == if other == id || !HasBlank(t) then Some(t) else None
  {
    match t
    case Quoted(s, p, o, g) =>
      RoundTrip(s, id, other);
      RoundTrip(p, id, other);
      RoundTrip(o, id, other);
      RoundTrip(g, id, other);
    case BlankNode(name) => DeskolemizeBlank(name, id, other);
    case _ =>
  }

  /** The same for ids that were handed out. */
  lemma HandedRoundTrip(requests: seq<nat>, source: nat, other: nat, t: RdfTerm)
    requires source in Handed(requests) && other in Handed(requests) && Unskolemized(t)
    ensures (var ids := Handed(requests);
             Deskolemize(Skolemize(t, ids[source]), ids[other])
             == if other == source || !HasBlank(t) then Some(t) else None)
  {
    IdsDiffer(requests);
    HandedIsId(requests, source);
    RoundTrip(t, Handed(requests)[source], Handed(requests)[other]);
  }

  /** No two pairs of source and label share a skolem IRI. */
  lemma SkolemInjective(id: string, name: string, id': string, name': string)
    requires IsId(id) && IsId(id')
    ensures SkolemIri(id, name) == SkolemIri(id', name') <==> id == id' && name == name'
  {
    ParseSkolem(id, name);
    ParseSkolem(id', name');
  }

  lemma IdThen(id: string, rest: string)
    requires IsId(id) && rest != "" && !Decimals.IsDigit(rest[0])
    ensures Decimals.LeadingDigits(id + rest) == id && (id + rest)[|id|..] == rest
  {
    Decimals.LeadingDigitsOf(id, rest);
  }

  /** Nor do they share the label of a scoped blank node. */
  lemma ScopedLabelInjective(id: string, name: string, id': string, name': string)
    requires IsId(id) && IsId(id')
    ensures ScopedLabel(id, name) == ScopedLabel(id', name') <==> id == id' && name == name'
  {
    IdThen(id, "_" + name);
    IdThen(id', "_" + name');
    assert ScopedLabel(id, name) == "bc_" + (id + ("_" + name))
      && ScopedLabel(id', name') == "bc_" + (id' + ("_" + name'));
    assert ScopedLabel(id, name)[3..] == id + ("_" + name) && ScopedLabel(id', name')[3..] == id' + ("_" + name');
    assert ("_" + name)[1..] == name && ("_" + name')[1..] == name';
  }

  lemma {:induction false} NothingToSkolemize(t: RdfTerm, id: string)
    requires Unskolemized(t) && !HasBlank(t)
    ensures Skolemize(t, id) == t
  {
    match t
    case Quoted(s, p, o, g) =>
      NothingToSkolemize(s, id);
      NothingToSkolemize(p, id);
      NothingToSkolemize(o, id);
      NothingToSkolemize(g, id);
    case _ =>
  }

  /** Terms of two sources become equal exactly if they are equal and, unless they have no blank nodes, of the same
      source. */
  lemma TermsKeptApart(t: RdfTerm, id: string, t': RdfTerm, id': string)
    requires Unskolemized(t) && Unskolemized(t') && IsId(id) && IsId(id')
    ensures Skolemize(t, id) == Skolemize(t', id') <==> t == t' && (id == id' || !HasBlank(t))
  {
    RoundTrip(t, id, id);
    RoundTrip(t', id', id);
    if !HasBlank(t) {
      NothingToSkolemize(t, id);
      NothingToSkolemize(t, id');
    }
  }

  // ----- names as they are written -----

  /** A blank node of a source, scoped or not, gets these names; nothing else is changed. */
  lemma SkolemizesBlanks(t: RdfTerm, id: string)
    ensures (t.BlankNode? || t.Scoped?) ==>
              SkolemizeTerm(t, id)
              == Scoped("bc_" + id + "_" + t.label', "urn:comunica_skolem:source_" + id + ":" + t.label')
    ensures !(t.BlankNode? || t.Scoped?) ==> SkolemizeTerm(t, id) == t
  {
  }

  lemma {:induction false} IndexNone(s: string, c: char, i: nat)
    requires forall k :: i <= k < |s| ==> s[k] != c
    ensures IndexOf(s, c, i) == -1
    decreases |s| - i
  {
    if i < |s| { IndexNone(s, c, i + 1); }
  }

  /** A skolem IRI that comes in as a plain IRI is taken back by its own source only. */
  lemma IriTakenBack(id: string, name: string, other: string)
    requires ':' !in id
    ensures DeskolemizeTerm(NamedNode("urn:comunica_skolem:source_" + id + ":" + name), other)
         == if other == id then Some(BlankNode(name)) else None
  {
    var iri, n := SKOLEM_PREFIX + id + ":" + name, |SKOLEM_PREFIX|;
    assert iri == SKOLEM_PREFIX + (id + ":" + name) == (SKOLEM_PREFIX + id) + (":" + name);
    forall k | n <= k < n + |id| ensures iri[k] != ':' { assert iri[k] == id[k - n] && id[k - n] in id; }
    IndexAfter(iri, ':', n, n + |id|);
    assert iri[n..n + |id|] == id && iri[n + |id| + 1..] == name;
  }

  /** Without a colon after the id, the last character is cut off it, and the whole IRI becomes the label. */
  lemma IriWithoutColon(id: string, last: char, other: string)
    requires ':' !in id && last != ':'
    ensures (var iri := "urn:comunica_skolem:source_" + id + [last];
             DeskolemizeTerm(NamedNode(iri), other) == if other == id then Some(BlankNode(iri)) else None)
  {
    var iri, n := SKOLEM_PREFIX + id + [last], |SKOLEM_PREFIX|;
    assert iri == SKOLEM_PREFIX + (id + [last]);
    forall k | n <= k < |iri| ensures iri[k] != ':' {
      if k < n + |id| { assert iri[k] == id[k - n] && id[k - n] in id; }
    }
    IndexNone(iri, ':', n);
    assert iri[n..|iri| - 1] == id && iri[0..] == iri;
  }

  /** Any other IRI, and any term that is not an IRI or a scoped blank node, stays as it is. */
  lemma OthersStay(t: RdfTerm, other: string)
    requires t.NamedNode? ==> !("urn:comunica_skolem:source_" <= t.value)
    ensures !t.Scoped? ==> DeskolemizeTerm(t, other) == Some(t)
    ensures t.Scoped? ==> DeskolemizeTerm(t, other) == DeskolemizeTerm(NamedNode(t.skolemized), other)
  {
  }
}
