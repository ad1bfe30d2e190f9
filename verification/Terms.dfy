/** RDF terms, solution mappings, and matching a quad pattern against data. */
module Terms {
  datatype Option<+T> = None | Some(value: T)

  /** A quoted quad is a term too, so a quad pattern is just a `Quad` with variables in it. */
  datatype Term =
    | Iri(value: string)
    | Blank(id: string)
    | Literal(lex: string, dtype: string, lang: string)
    | DefaultGraph
    | Var(name: string)
    | Quad(subj: Term, pred: Term, obj: Term, graph: Term)

  type Mapping = map<string, Term>

  const XSD_BOOLEAN := "http://www.w3.org/2001/XMLSchema#boolean"

  function Bool(b: bool): Term {
    Literal(if b then "true" else "false", XSD_BOOLEAN, "")
  }

  function Vars(t: Term): set<string> {
    match t
    case Var(x) => {x}
    case Quad(s, p, o, g) => Vars(s) + Vars(p) + Vars(o) + Vars(g)
    case _ => {}
  }

  function Subst(m: Mapping, t: Term): Term {
    match t
    case Var(x) => if x in m then m[x] else t
    case Quad(s, p, o, g) => Quad(Subst(m, s), Subst(m, p), Subst(m, o), Subst(m, g))
    case _ => t
  }

  /** The two mappings agree on every variable of `vars`, including on which of them are unbound. */
  ghost predicate Agree(m: Mapping, n: Mapping, vars: set<string>) {
    forall x :: x in vars ==> ((x in m <==> x in n) && (x in m ==> m[x] == n[x]))
  }

  ghost predicate Compatible(m: Mapping, n: Mapping) {
    forall x :: x in m && x in n ==> m[x] == n[x]
  }

  lemma SubstDetermines(m: Mapping, n: Mapping, t: Term)
    requires Vars(t) <= m.Keys && Vars(t) <= n.Keys
    ensures Subst(m, t) == Subst(n, t) <==> Agree(m, n, Vars(t))
  {
  }

  lemma SubstVars(m: Mapping, t: Term)
    requires forall x :: x in m ==> Vars(m[x]) == {}
    ensures Vars(Subst(m, t)) == Vars(t) - m.Keys
  {
  }

  /** Substituting in two rounds, the second one over what the first left open. */
  lemma SubstTwice(m: Mapping, n: Mapping, t: Term)
    requires forall x :: x in m ==> Vars(m[x]) == {}
    ensures Subst(n, Subst(m, t)) == Subst(n + m, t)
  {
    match t
    case Var(x) =>
      if x in m { SubstGround(n, m[x]); }
    case Quad(s, p, o, g) =>
      SubstTwice(m, n, s);
      SubstTwice(m, n, p);
      SubstTwice(m, n, o);
      SubstTwice(m, n, g);
    case _ =>
  }

  lemma SubstGround(m: Mapping, t: Term)
    requires Vars(t) == {}
    ensures Subst(m, t) == t
  {
  }

  /** `m` is a solution of pattern `p` on `data`: it binds exactly the variables of `p`, to a quad of `data`. */
  ghost predicate Solves(m: Mapping, p: Term, data: set<Term>) {
    m.Keys == Vars(p) && Subst(m, p) in data
  }

  ghost predicate Matches(p: Term, d: Term) {
    exists m: Mapping :: m.Keys == Vars(p) && Subst(m, p) == d
  }

  ghost function Matcher(p: Term, d: Term): (m: Mapping)
    requires Matches(p, d)
    ensures m.Keys == Vars(p) && Subst(m, p) == d
  {
    var m: Mapping :| m.Keys == Vars(p) && Subst(m, p) == d;
    m
  }

  /** The solutions of a quad pattern: each once, because two solutions instantiate to different quads. */
  ghost function Solutions(p: Term, data: set<Term>): set<Mapping> {
    set d | d in data && Matches(p, d) :: Matcher(p, d)
  }

  lemma SolutionsAre(p: Term, data: set<Term>, m: Mapping)
    ensures m in Solutions(p, data) <==> Solves(m, p, data)
  {
    if Solves(m, p, data) {
      var d := Subst(m, p);
      assert Matches(p, d);
      SubstDetermines(m, Matcher(p, d), p);
      assert m == Matcher(p, d);
    }
  }
}
