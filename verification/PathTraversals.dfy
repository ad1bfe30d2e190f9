/** The traversals deliver what the evaluation of closures relies on. */
module PathTraversals {
  import opened Terms
  import opened PathExprs
  import opened Reach
  import opened Paths
  import PathIterator
  import StarSearch

  /** The traversal asks the sub-queries of path `q`. */
  ghost predicate Asks(d: Data, q: Path, step: Term -> seq<Term>) {
    forall u, v :: v in step(u) <==> SubQuery(d, q)(u, v)
  }

  /** A reader that closes a path iterator with no metadata request pending has been handed, each once, exactly the
      terms that the closure of the path's sub-query reaches. */
  lemma IteratorDelivers(d: Data, q: Path, cfg: PathIterator.Config, trace: seq<PathIterator.State>, t: Term)
    requires Asks(d, q, cfg.step) && cfg.max > 0 && PathIterator.Run(cfg, trace)
    requires var s := trace[|trace| - 1]; PathIterator.Enabled(cfg, s, PathIterator.Close) && s.kick.None?
    ensures (var s := trace[|trace| - 1];
             PathIterator.NoRepeats(s.out) && (t in s.out <==> Reaches(SubQuery(d, q), cfg.emitFirst, cfg.subject, t)))
  {
    PathIterator.ClosesCompleteExactly(cfg, trace, trace[|trace| - 1]);
    SameClosure(PathIterator.Edge(cfg), SubQuery(d, q), (u: Term) => true, cfg.subject, t);
  }

  /** A search among many that has been closed has pushed exactly the terms its start reaches. */
  lemma SearchDelivers(d: Data, q: Path, cfg: StarSearch.Config, trace: seq<StarSearch.State>, k: nat, t: Term)
    requires Asks(d, q, cfg.step) && StarSearch.Run(cfg, trace) && k < |trace[|trace| - 1].searches|
    requires trace[|trace| - 1].searches[k].closes == 1
    ensures (var s := trace[|trace| - 1].searches[k];
             PathIterator.NoRepeats(s.out) && (t in s.out <==> Star(SubQuery(d, q), s.start, t)))
  {
    StarSearch.SearchesAreExact(cfg, trace, k);
    SameClosure(StarSearch.Edge(cfg), SubQuery(d, q), (u: Term) => true, trace[|trace| - 1].searches[k].start, t);
  }
}
