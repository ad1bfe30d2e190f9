/** `=` on terms, as the evaluator decides it: which terms count as equal although they are different terms. */
module TermEquality {
  import opened Terms
  import opened Logic

  const XSD_STRING := "http://www.w3.org/2001/XMLSchema#string"
  const XSD_NORMALIZED_STRING := "http://www.w3.org/2001/XMLSchema#normalizedString"
  const XSD_ANY_URI := "http://www.w3.org/2001/XMLSchema#anyURI"
  const RDF_LANG_STRING := "http://www.w3.org/1999/02/22-rdf-syntax-ns#langString"

  /** The datatypes below `xsd:string`. */
  const STRINGS: set<string> := {
    XSD_STRING,
    XSD_NORMALIZED_STRING,
    "http://www.w3.org/2001/XMLSchema#token",
    "http://www.w3.org/2001/XMLSchema#language",
    "http://www.w3.org/2001/XMLSchema#NMTOKEN",
    "http://www.w3.org/2001/XMLSchema#name",
    "http://www.w3.org/2001/XMLSchema#NCName",
    "http://www.w3.org/2001/XMLSchema#ENTITY",
    "http://www.w3.org/2001/XMLSchema#ID",
    "http://www.w3.org/2001/XMLSchema#IDREF",
    "http://www.w3.org/2001/XMLSchema#untypedAtomic"
  }

  /** Strings, and what is promoted to them. */
  predicate IsText(dtype: string) { dtype in STRINGS || dtype == XSD_ANY_URI }

  /** `sameText` is the locale's comparison of texts; `valued` are the datatypes with comparisons of their own
      (numbers, booleans, dates, times, durations), which `sameValue` makes. */
  datatype Comparison = Comparison(
    sameText: (string, string) -> bool,
    valued: string -> bool,
    sameValue: (Term, Term) -> Tri)

  ghost predicate Fair(c: Comparison) {
    && (forall a :: c.sameText(a, a))
    && (forall a, b :: c.sameText(a, b) == c.sameText(b, a))
    && (forall t, u :: c.sameValue(t, u) == c.sameValue(u, t))
    && (forall d :: c.valued(d) ==> !IsText(d) && d != RDF_LANG_STRING)
  }

  function OfBool(b: bool): Tri { if b then True else False }

  /** The parts of a quoted quad are compared in turn, up to the first that differs. */
  function InTurn(first: Tri, rest: Tri): Tri { if first.True? then rest else first }

  function LiteralsEqual(c: Comparison, t: Term, u: Term): Tri
    requires t.Literal? && u.Literal?
  {
    if IsText(t.dtype) && IsText(u.dtype) then OfBool(c.sameText(t.lex, u.lex))
    else if t.dtype == u.dtype == RDF_LANG_STRING then OfBool(t.lex == u.lex && t.lang == u.lang)
    else if {t.dtype, u.dtype} <= STRINGS + {RDF_LANG_STRING} then False
    else if c.valued(t.dtype) && c.valued(u.dtype) then c.sameValue(t, u)
    else if t == u then True else Error
  }

  function TermsEqual(c: Comparison, t: Term, u: Term): Tri {
    if t.Quad? && u.Quad? then
      InTurn(TermsEqual(c, t.subj, u.subj), InTurn(TermsEqual(c, t.pred, u.pred),
        InTurn(TermsEqual(c, t.obj, u.obj), TermsEqual(c, t.graph, u.graph))))
    else if t.Literal? && u.Literal? then LiteralsEqual(c, t, u)
    else OfBool(t == u)
  }

  /** `=` is true of this term and itself only. */
  ghost predicate Singular(c: Comparison, t: Term) {
    forall u :: TermsEqual(c, t, u).True? <==> u == t
  }

  /** No text anywhere in the term, and no value that is written differently or that differs from itself. */
  ghost predicate Definite(c: Comparison, t: Term) {
    match t
    case Quad(s, p, o, g) => Definite(c, s) && Definite(c, p) && Definite(c, o) && Definite(c, g)
    case Literal(_, dtype, _) => !IsText(dtype) && (c.valued(dtype) ==> OneWriting(c, t))
    case _ => true
  }

  ghost predicate OneWriting(c: Comparison, t: Term) {
    forall u: Term :: u.Literal? && c.valued(u.dtype) ==> (c.sameValue(t, u).True? <==> u == t)
  }

  lemma {:induction false} Symmetric(c: Comparison, t: Term, u: Term)
    requires Fair(c)
    ensures TermsEqual(c, t, u).True? <==> TermsEqual(c, u, t).True?
  {
    if t.Quad? && u.Quad? {
      Symmetric(c, t.subj, u.subj);
      Symmetric(c, t.pred, u.pred);
      Symmetric(c, t.obj, u.obj);
      Symmetric(c, t.graph, u.graph);
    }
  }

  /** The same text with another of the string types. */
  function Retyped(t: Term): Term
    requires t.Literal?
  {
    t.(dtype := if t.dtype == XSD_STRING then XSD_NORMALIZED_STRING else XSD_STRING)
  }

  lemma TextNotSingular(c: Comparison, t: Term)
    requires Fair(c) && t.Literal? && IsText(t.dtype)
    ensures Retyped(t) != t && TermsEqual(c, t, Retyped(t)).True?
  {
  }

  lemma LiteralSingular(c: Comparison, t: Term)
    requires Fair(c) && t.Literal?
    ensures Singular(c, t) <==> Definite(c, t)
  {
    if IsText(t.dtype) {
      TextNotSingular(c, t);
    } else if c.valued(t.dtype) {
      forall u: Term | u.Literal? && c.valued(u.dtype) ensures TermsEqual(c, t, u) == c.sameValue(t, u) {}
    }
  }

  lemma QuadParts(c: Comparison, t: Term, u: Term)
    requires t.Quad? && u.Quad?
    ensures TermsEqual(c, t, u).True? <==>
              && TermsEqual(c, t.subj, u.subj).True? && TermsEqual(c, t.pred, u.pred).True?
              && TermsEqual(c, t.obj, u.obj).True? && TermsEqual(c, t.graph, u.graph).True?
  {
  }

  /** A quoted quad stands for itself only exactly if each of its parts does. */
  lemma QuadSingular(c: Comparison, t: Term)
    requires t.Quad?
    ensures Singular(c, t) <==> Singular(c, t.subj) && Singular(c, t.pred) && Singular(c, t.obj) && Singular(c, t.graph)
  {
    forall u: Term | u.Quad? ensures TermsEqual(c, t, u).True? <==>
              && TermsEqual(c, t.subj, u.subj).True? && TermsEqual(c, t.pred, u.pred).True?
              && TermsEqual(c, t.obj, u.obj).True? && TermsEqual(c, t.graph, u.graph).True? { QuadParts(c, t, u); }
    if Singular(c, t) {
      assert TermsEqual(c, t, t).True?;
      forall u
        ensures TermsEqual(c, t.subj, u).True? <==> u == t.subj
      {
        assert TermsEqual(c, t, t.(subj := u)).True? <==> t.(subj := u) == t;
      }
      forall u
        ensures TermsEqual(c, t.pred, u).True? <==> u == t.pred
      {
        assert TermsEqual(c, t, t.(pred := u)).True? <==> t.(pred := u) == t;
      }
      forall u
        ensures TermsEqual(c, t.obj, u).True? <==> u == t.obj
      {
        assert TermsEqual(c, t, t.(obj := u)).True? <==> t.(obj := u) == t;
      }
      forall u
        ensures TermsEqual(c, t.graph, u).True? <==> u == t.graph
      {
        assert TermsEqual(c, t, t.(graph := u)).True? <==> t.(graph := u) == t;
      }
    }
  }

  /** Which terms `=` is true of by themselves only. */
  lemma {:induction false} SingularExactly(c: Comparison, t: Term)
    requires Fair(c)
    ensures Singular(c, t) <==> Definite(c, t)
  {
    if t.Quad? {
      QuadSingular(c, t);
      SingularExactly(c, t.subj);
      SingularExactly(c, t.pred);
      SingularExactly(c, t.obj);
      SingularExactly(c, t.graph);
    } else if t.Literal? {
      LiteralSingular(c, t);
    }
  }
}
