/** Concurrent reachability searches that share one table of neighbour lists. */
module StarSearch {
  import opened Terms
  import opened Reach
  import opened Sums
  import PathIterator

  /** `step` is the sub-query for the neighbours of a term. */
  datatype Config = Config(step: Term -> seq<Term>)

  /** A call that is not over yet: a sub-query delivering neighbours, the wait for somebody else's sub-query, or the
      walk through neighbours found in the shared table, which awaits the call for the neighbour `awaits`.  A search
      makes at most one such call for each node, so the node stands for the call. */
  datatype Task =
    | Fetch(node: Term, got: seq<Term>, rest: seq<Term>)
    | Wait(node: Term)
    | Loop(node: Term, rest: seq<Term>, awaits: Option<Term>)

  /** One search: `start` is the first object value, `out` what has been pushed, `closes` how often the iterator
      has been closed. */
  datatype Search = Search(start: Term, seen: set<Term>, out: seq<Term>, counter: int, closes: nat, tasks: seq<Task>)

  /** The shared table; `None` is a promise that has not been resolved yet. */
  type Cache = map<Term, Option<seq<Term>>>

  datatype State = State(cache: Cache, searches: seq<Search>)

  datatype Action =
    | Begin(start: Term)
    | Data(k: nat, i: nat)
    | Finish(k: nat, i: nat)
    | Resume(k: nat, i: nat)
    | Next(k: nat, i: nat)
    | Leave(k: nat, i: nat)

  /** The synchronous part of a search call. */
  function Visit(cfg: Config, cache: Cache, s: Search, node: Term): (Cache, Search) {
    if node in s.seen then (cache, s) else
    var s' := s.(counter := s.counter + 1, seen := s.seen + {node}, out := s.out + [node]);
    if node in cache then (cache, s'.(tasks := s'.tasks + [Wait(node)]))
    else (cache[node := None], s'.(tasks := s'.tasks + [Fetch(node, [], cfg.step(node))]))
  }

  /** A call is over: the counter goes down, and the iterator is closed at zero. */
  function Over(s: Search, i: nat): Search
    requires i < |s.tasks|
  {
    s.(tasks := Without(s.tasks, i), counter := s.counter - 1, closes := s.closes + if s.counter == 1 then 1 else 0)
  }

  function Fresh(start: Term): Search { Search(start, {}, [], 0, 0, []) }

  predicate TaskAt(st: State, k: nat, i: nat) {
    k < |st.searches| && i < |st.searches[k].tasks|
  }

  /** The call for `node` is not over. */
  predicate Pending(s: Search, node: Term) {
    exists i :: 0 <= i < |s.tasks| && s.tasks[i].node == node
  }

  /** Task `t` need not await a nested call. */
  predicate Free(s: Search, t: Task) {
    t.Loop? && t.awaits.Some? ==> !Pending(s, t.awaits.value)
  }

  /** Step `a` is possible for search `s`. */
  predicate Ready(cache: Cache, s: Search, a: Action)
    requires !a.Begin?
  {
    a.i < |s.tasks| &&
    var t := s.tasks[a.i];
    match a
    case Data(_, _) => t.Fetch? && t.rest != []
    case Finish(_, _) => t.Fetch? && t.rest == []
    case Resume(_, _) => t.Wait? && t.node in cache && cache[t.node].Some?
    case Next(_, _) => t.Loop? && t.rest != [] && Free(s, t)
    case Leave(_, _) => t.Loop? && t.rest == [] && Free(s, t)
  }

  predicate Enabled(st: State, a: Action) {
    a.Begin? || (a.k < |st.searches| && Ready(st.cache, st.searches[a.k], a))
  }

  predicate HasNext(t: Task) { !t.Wait? && t.rest != [] }

  /** The call for `node` takes time exactly if it has to wait for the promise of an earlier one: it is over at once
      for a node already seen, and the sub-query of a new node is not awaited. */
  function Awaited(cache: Cache, seen: set<Term>, node: Term): Option<Term> {
    if node !in seen && node in cache then Some(node) else None
  }

  /** A task that has handed out its next neighbour; only a loop awaits the call made with it. */
  function Advance(t: Task, awaits: Option<Term>): Task
    requires HasNext(t)
  {
    match t
    case Fetch(node, got, rest) => Fetch(node, got + [rest[0]], rest[1..])
    case Loop(node, rest, _) => Loop(node, rest[1..], awaits)
  }

  function Handed(cache: Cache, s: Search, i: nat): Task
    requires i < |s.tasks| && HasNext(s.tasks[i])
  {
    Advance(s.tasks[i], Awaited(cache, s.seen, s.tasks[i].rest[0]))
  }

  /** Task `i` hands out its next neighbour, which the search then visits. */
  function Proceed(cfg: Config, cache: Cache, s: Search, i: nat): (Cache, Search)
    requires i < |s.tasks| && HasNext(s.tasks[i])
  {
    Visit(cfg, cache, s.(tasks := s.tasks[i := Handed(cache, s, i)]), s.tasks[i].rest[0])
  }

  /** What a step of search `s` makes of the shared table and of the search. */
  function Local(cfg: Config, cache: Cache, s: Search, a: Action): (Cache, Search)
    requires !a.Begin? && Ready(cache, s, a)
  {
    var t := s.tasks[a.i];
    match a
    case Data(_, i) => Proceed(cfg, cache, s, i)
    case Finish(_, i) => (cache[t.node := Some(t.got)], Over(s, i))
    case Resume(_, i) => (cache, s.(tasks := s.tasks[i := Loop(t.node, cache[t.node].value, None)]))
    case Next(_, i) => Proceed(cfg, cache, s, i)
    case Leave(_, i) => (cache, Over(s, i))
  }

  function Apply(cfg: Config, st: State, a: Action): State
    requires Enabled(st, a)
  {
    if a.Begin? then
      var (cache, s) := Visit(cfg, st.cache, Fresh(a.start), a.start);
      State(cache, st.searches + [s])
    else
      var (cache, s) := Local(cfg, st.cache, st.searches[a.k], a);
      State(cache, st.searches[a.k := s])
  }

  /** After a turn of a loop: it is held up exactly if the call it made waits for the promise of an earlier one, and
      then as long as that call is not over. */
  lemma TurnAwaits(cfg: Config, cache: Cache, s: Search, k: nat, i: nat)
    requires Ready(cache, s, Next(k, i))
    ensures (var (cache', s') := Local(cfg, cache, s, Next(k, i));
             var next := s.tasks[i].rest[0];
             if next !in s.seen && next in cache
             then s'.tasks == s.tasks[i := s'.tasks[i]] + [Wait(next)]
                  && !Ready(cache', s', Next(k, i)) && !Ready(cache', s', Leave(k, i))
             else Ready(cache', s', Next(k, i)) || Ready(cache', s', Leave(k, i)))
    ensures (var s' := Local(cfg, cache, s, Next(k, i)).1;
             s'.tasks[i].awaits.Some? ==>
               (forall later: Search :: Free(later, s'.tasks[i])
                  <==> forall j :: 0 <= j < |later.tasks| ==> later.tasks[j].node != s.tasks[i].rest[0]))
  {
    var (cache', s') := Local(cfg, cache, s, Next(k, i));
    var next := s.tasks[i].rest[0];
    if next !in s.seen && next in cache { assert s'.tasks[|s.tasks|].node == next; }
  }

  // ----- what every interleaving keeps -----

  ghost function Edge(cfg: Config): Rel<Term> { (x, y) => y in cfg.step(x) }

  /** The call for `b` was made after the one for `a`. */
  ghost predicate Later(out: seq<Term>, a: Term, b: Term) {
    exists i, j :: 0 <= i < j < |out| && out[i] == a && out[j] == b
  }

  lemma LaterGrows(out: seq<Term>, more: seq<Term>, a: Term, b: Term)
    requires Later(out, a, b)
    ensures Later(out + more, a, b)
  {
    var i, j :| 0 <= i < j < |out| && out[i] == a && out[j] == b;
    assert (out + more)[i] == a && (out + more)[j] == b;
  }

  lemma LaterLast(out: seq<Term>, a: Term, b: Term)
    requires a in out
    ensures Later(out + [b], a, b)
  {
    var i :| 0 <= i < |out| && out[i] == a;
    assert (out + [b])[i] == a && (out + [b])[|out|] == b;
  }

  ghost predicate TaskInv(cfg: Config, cache: Cache, s: Search, t: Task) {
    && t.node in s.seen
    && match t
       case Fetch(n, got, rest) => got + rest == cfg.step(n) && (forall y :: y in got ==> y in s.seen)
       case Wait(n) => n in cache
       case Loop(n, rest, awaits) =>
         && (forall y :: y in rest ==> y in cfg.step(n)) && (forall y :: y in cfg.step(n) ==> y in s.seen || y in rest)
         && (awaits.Some? ==> Later(s.out, n, awaits.value))
  }

  ghost predicate Handled(cfg: Config, s: Search, node: Term) {
    || (exists i :: 0 <= i < |s.tasks| && s.tasks[i].node == node)
    || (forall y :: y in cfg.step(node) ==> y in s.seen)
  }

  ghost predicate Reached(cfg: Config, s: Search) {
    && PathIterator.NoRepeats(s.out) && (forall t :: t in s.seen <==> t in s.out)
    && (forall t :: t in s.seen ==> Star(Edge(cfg), s.start, t))
  }

  ghost predicate SearchInv(cfg: Config, cache: Cache, s: Search) {
    && Reached(cfg, s) && s.start in s.seen
    && (forall t :: t in s.seen ==> Handled(cfg, s, t))
    && (forall i :: 0 <= i < |s.tasks| ==> TaskInv(cfg, cache, s, s.tasks[i]))
    && s.counter == |s.tasks| && s.closes == if s.tasks == [] then 1 else 0
  }

  /** A resolved promise holds the node's neighbours; an unresolved one is being worked on. */
  ghost predicate CacheInv(cfg: Config, st: State, node: Term)
    requires node in st.cache
  {
    match st.cache[node]
    case Some(arr) => arr == cfg.step(node)
    case None => exists k: nat, i: nat :: Fetching(st, k, i, node)
  }

  ghost predicate Fetching(st: State, k: nat, i: nat, node: Term) {
    TaskAt(st, k, i) && st.searches[k].tasks[i].Fetch? && st.searches[k].tasks[i].node == node
  }

  ghost predicate Inv(cfg: Config, st: State) {
    && (forall k :: 0 <= k < |st.searches| ==> SearchInv(cfg, st.cache, st.searches[k]))
    && (forall node :: node in st.cache ==> CacheInv(cfg, st, node))
  }

  /** What a search keeps while a call is being processed: everything but the number of its tasks. */
  ghost predicate OpenInv(cfg: Config, cache: Cache, s: Search) {
    && Reached(cfg, s)
    && (forall t :: t in s.seen ==> Handled(cfg, s, t))
    && (forall i :: 0 <= i < |s.tasks| ==> TaskInv(cfg, cache, s, s.tasks[i]))
    && s.counter == |s.tasks|
  }

  lemma TaskKept(cfg: Config, cache: Cache, cache': Cache, s: Search, s': Search, node: Term, t: Task)
    requires TaskInv(cfg, cache, s, t) && cache.Keys <= cache'.Keys
    requires s'.seen == s.seen + {node} && s'.out == s.out + [node]
    ensures TaskInv(cfg, cache', s', t)
  {
    if t.Loop? && t.awaits.Some? { LaterGrows(s.out, [node], t.node, t.awaits.value); }
  }

  lemma VisitInv(cfg: Config, cache: Cache, s: Search, node: Term)
    requires OpenInv(cfg, cache, s) && Star(Edge(cfg), s.start, node)
    ensures (var (cache', s') := Visit(cfg, cache, s, node);
             && OpenInv(cfg, cache', s') && node in s'.seen && s.seen <= s'.seen
             && s'.start == s.start && s'.closes == s.closes && |s'.tasks| >= |s.tasks|)
  {
    if node !in s.seen {
      var (cache', s') := Visit(cfg, cache, s, node);
      assert s'.tasks[|s.tasks|].node == node;
      forall t | t in s'.seen
        ensures Handled(cfg, s', t)
      {
        if t != node {
          assert Handled(cfg, s, t);
          if i :| 0 <= i < |s.tasks| && s.tasks[i].node == t { assert s'.tasks[i].node == t; }
        }
      }
      forall i | 0 <= i < |s'.tasks|
        ensures TaskInv(cfg, cache', s', s'.tasks[i])
      {
        if i < |s.tasks| { TaskKept(cfg, cache, cache', s, s', node, s.tasks[i]); }
      }
    }
  }

  lemma RetaskInv(cfg: Config, cache: Cache, s: Search, i: nat, task: Task)
    requires OpenInv(cfg, cache, s) && i < |s.tasks| && task.node == s.tasks[i].node
    requires TaskInv(cfg, cache, s, task)
    ensures OpenInv(cfg, cache, s.(tasks := s.tasks[i := task]))
  {
    var s' := s.(tasks := s.tasks[i := task]);
    forall t | t in s'.seen
      ensures Handled(cfg, s', t)
    {
      assert Handled(cfg, s, t);
      if j :| 0 <= j < |s.tasks| && s.tasks[j].node == t { assert s'.tasks[j].node == t; }
    }
    forall j | 0 <= j < |s'.tasks|
      ensures TaskInv(cfg, cache, s', s'.tasks[j])
    {
      assert TaskInv(cfg, cache, s, s.tasks[j]);
    }
  }

  lemma TaskStays(cfg: Config, cache: Cache, cache': Cache, s: Search, s': Search, t: Task)
    requires TaskInv(cfg, cache, s, t) && cache.Keys <= cache'.Keys && s'.seen == s.seen && s'.out == s.out
    ensures TaskInv(cfg, cache', s', t)
  {
  }

  lemma OverInv(cfg: Config, cache: Cache, cache': Cache, s: Search, i: nat)
    requires SearchInv(cfg, cache, s) && i < |s.tasks| && cache.Keys <= cache'.Keys
    requires forall y :: y in cfg.step(s.tasks[i].node) ==> y in s.seen
    ensures SearchInv(cfg, cache', Over(s, i))
  {
    var s' := Over(s, i);
    forall t | t in s'.seen
      ensures Handled(cfg, s', t)
    {
      assert Handled(cfg, s, t);
      if j :| 0 <= j < |s.tasks| && s.tasks[j].node == t {
        if j < i { assert s'.tasks[j].node == t; } else if j > i { assert s'.tasks[j - 1].node == t; }
      }
    }
    forall j | 0 <= j < |s'.tasks|
      ensures TaskInv(cfg, cache', s', s'.tasks[j])
    {
      TaskStays(cfg, cache, cache', s, s', s.tasks[if j < i then j else j + 1]);
    }
  }

  lemma AdvanceInv(cfg: Config, cache: Cache, s: Search, t: Task, awaits: Option<Term>)
    requires HasNext(t) && TaskInv(cfg, cache, s, t) && t.rest[0] in s.seen
    requires awaits.Some? ==> Later(s.out, t.node, awaits.value)
    ensures TaskInv(cfg, cache, s, Advance(t, awaits))
  {
    if t.Fetch? {
      assert Advance(t, awaits).got + Advance(t, awaits).rest == t.got + t.rest;
    } else {
      assert forall y :: y in t.rest <==> y == t.rest[0] || y in t.rest[1..];
    }
  }

  lemma NextIsNeighbour(cfg: Config, cache: Cache, s: Search, t: Task)
    requires HasNext(t) && TaskInv(cfg, cache, s, t)
    ensures t.rest[0] in cfg.step(t.node)
  {
    if t.Fetch? { assert (t.got + t.rest)[|t.got|] == t.rest[0]; } else { assert t.rest[0] in t.rest; }
  }

  /** A search proceeding to a neighbour of the node of one of its tasks. */
  lemma ProceedInv(cfg: Config, cache: Cache, s: Search, i: nat)
    requires SearchInv(cfg, cache, s) && i < |s.tasks| && HasNext(s.tasks[i])
    ensures (var (cache', s') := Proceed(cfg, cache, s, i); SearchInv(cfg, cache', s') && cache.Keys <= cache'.Keys)
  {
    var t := s.tasks[i];
    var node := t.rest[0];
    assert TaskInv(cfg, cache, s, t);
    NextIsNeighbour(cfg, cache, s, t);
    StarStep(Edge(cfg), t.node, node);
    StarJoin(Edge(cfg), s.start, t.node, node);
    var (cache1, s1) := Visit(cfg, cache, s, node);
    VisitInv(cfg, cache, s, node);
    assert s1.tasks[i] == t;
    if node !in s.seen { LaterLast(s.out, t.node, node); }
    AdvanceInv(cfg, cache1, s1, t, Awaited(cache, s.seen, node));
    RetaskInv(cfg, cache1, s1, i, Handed(cache, s, i));
    VisitAfterRetask(cfg, cache, s, i, Handed(cache, s, i), node);
  }

  lemma VisitAfterRetask(cfg: Config, cache: Cache, s: Search, i: nat, task: Task, node: Term)
    requires i < |s.tasks|
    ensures (var (cache1, s1) := Visit(cfg, cache, s, node);
             && i < |s1.tasks|
             && Visit(cfg, cache, s.(tasks := s.tasks[i := task]), node) == (cache1, s1.(tasks := s1.tasks[i := task])))
  {
    if node !in s.seen {
      var t := if node in cache then Wait(node) else Fetch(node, [], cfg.step(node));
      assert s.tasks[i := task] + [t] == (s.tasks + [t])[i := task];
    }
  }

  lemma BeginInv(cfg: Config, cache: Cache, start: Term)
    ensures (var (cache', s') := Visit(cfg, cache, Fresh(start), start);
             SearchInv(cfg, cache', s') && cache.Keys <= cache'.Keys)
  {
    StarRefl(Edge(cfg), start);
    VisitInv(cfg, cache, Fresh(start), start);
  }

  /** A search that did not take the step is not disturbed by the shared table growing. */
  lemma OtherInv(cfg: Config, cache: Cache, cache': Cache, s: Search)
    requires SearchInv(cfg, cache, s) && cache.Keys <= cache'.Keys
    ensures SearchInv(cfg, cache', s)
  {
    forall i | 0 <= i < |s.tasks|
      ensures TaskInv(cfg, cache', s, s.tasks[i])
    {
      assert TaskInv(cfg, cache, s, s.tasks[i]);
    }
  }

  lemma StepSearchInv(cfg: Config, st: State, a: Action)
    requires Inv(cfg, st) && Enabled(st, a) && !a.Begin?
    ensures (var st' := Apply(cfg, st, a);
             SearchInv(cfg, st'.cache, st'.searches[a.k]) && st.cache.Keys <= st'.cache.Keys)
  {
    var s := st.searches[a.k];
    var t := s.tasks[a.i];
    assert TaskInv(cfg, st.cache, s, t);
    match a
    case Data(_, i) => ProceedInv(cfg, st.cache, s, i);
    case Finish(_, i) =>
      assert t.got == cfg.step(t.node);
      OverInv(cfg, st.cache, st.cache[t.node := Some(t.got)], s, i);
    case Resume(_, i) =>
      assert CacheInv(cfg, st, t.node);
      RetaskInv(cfg, st.cache, s, i, Loop(t.node, st.cache[t.node].value, None));
    case Next(_, i) => ProceedInv(cfg, st.cache, s, i);
    case Leave(_, i) => OverInv(cfg, st.cache, st.cache, s, i);
  }

  lemma ProceedCache(cfg: Config, cache: Cache, s: Search, i: nat, node: Term)
    requires i < |s.tasks| && HasNext(s.tasks[i])
    ensures var (cache', s') := Proceed(cfg, cache, s, i);
      && (node in cache ==> node in cache' && cache'[node] == cache[node])
      && (node in cache' && node !in cache ==>
            && cache'[node] == None && |s'.tasks| == |s.tasks| + 1
            && s'.tasks[|s.tasks|].Fetch? && s'.tasks[|s.tasks|].node == node)
      && |s'.tasks| >= |s.tasks| && s'.tasks[..|s.tasks|] == s.tasks[i := Handed(cache, s, i)]
  {
  }

  lemma ProceedCacheInv(cfg: Config, st: State, a: Action, node: Term)
    requires Inv(cfg, st) && Enabled(st, a) && (a.Data? || a.Next?) && node in Apply(cfg, st, a).cache
    ensures CacheInv(cfg, Apply(cfg, st, a), node)
  {
    var st' := Apply(cfg, st, a);
    var s, s' := st.searches[a.k], st'.searches[a.k];
    ProceedCache(cfg, st.cache, s, a.i, node);
    if node !in st.cache {
      assert Fetching(st', a.k, |s.tasks|, node);
    } else {
      assert CacheInv(cfg, st, node);
      if st.cache[node].None? {
        var k: nat, i: nat :| Fetching(st, k, i, node);
        FetchingGoesOn(cfg, st, a, node, k, i);
      }
    }
  }

  lemma FetchingGoesOn(cfg: Config, st: State, a: Action, node: Term, k: nat, i: nat)
    requires Enabled(st, a) && (a.Data? || a.Next?) && Fetching(st, k, i, node)
    ensures Fetching(Apply(cfg, st, a), k, i, node)
  {
    if k == a.k {
      var s, s' := st.searches[k], Apply(cfg, st, a).searches[k];
      ProceedCache(cfg, st.cache, s, a.i, node);
      assert s'.tasks[..|s.tasks|][i] == s'.tasks[i];
    }
  }

  lemma OtherCacheInv(cfg: Config, st: State, a: Action, node: Term)
    requires Inv(cfg, st) && Enabled(st, a) && (a.Finish? || a.Resume? || a.Leave?) && node in Apply(cfg, st, a).cache
    ensures CacheInv(cfg, Apply(cfg, st, a), node)
  {
    var st' := Apply(cfg, st, a);
    var t := st.searches[a.k].tasks[a.i];
    assert TaskInv(cfg, st.cache, st.searches[a.k], t);
    if a.Finish? && node == t.node {
      assert t.got == cfg.step(t.node);
    } else {
      assert CacheInv(cfg, st, node);
      if st.cache[node].None? {
        var k: nat, i: nat :| Fetching(st, k, i, node);
        StillFetching(cfg, st, a, node, k, i);
      }
    }
  }

  lemma StillFetching(cfg: Config, st: State, a: Action, node: Term, k: nat, i: nat)
    requires Enabled(st, a) && (a.Finish? || a.Resume? || a.Leave?) && Fetching(st, k, i, node)
    requires a.Finish? ==> node != st.searches[a.k].tasks[a.i].node
    ensures Fetching(Apply(cfg, st, a), k, if k == a.k && !a.Resume? && i > a.i then i - 1 else i, node)
  {
  }

  lemma BeginCacheInv(cfg: Config, st: State, start: Term, node: Term)
    requires Inv(cfg, st) && node in Apply(cfg, st, Begin(start)).cache
    ensures CacheInv(cfg, Apply(cfg, st, Begin(start)), node)
  {
    var st' := Apply(cfg, st, Begin(start));
    if node in st.cache {
      assert CacheInv(cfg, st, node);
      if st.cache[node].None? {
        var k: nat, i: nat :| Fetching(st, k, i, node);
        assert Fetching(st', k, i, node);
      }
    } else {
      assert Fetching(st', |st.searches|, 0, node);
    }
  }

  /** Every step of every interleaving keeps the invariant. */
  lemma StepInv(cfg: Config, st: State, a: Action)
    requires Inv(cfg, st) && Enabled(st, a)
    ensures Inv(cfg, Apply(cfg, st, a))
  {
    var st' := Apply(cfg, st, a);
    if a.Begin? {
      BeginInv(cfg, st.cache, a.start);
      forall node | node in st'.cache ensures CacheInv(cfg, st', node) { BeginCacheInv(cfg, st, a.start, node); }
    } else {
      StepSearchInv(cfg, st, a);
      forall node | node in st'.cache ensures CacheInv(cfg, st', node) {
        if a.Data? || a.Next? { ProceedCacheInv(cfg, st, a, node); } else { OtherCacheInv(cfg, st, a, node); }
      }
    }
    forall k | 0 <= k < |st'.searches|
      ensures SearchInv(cfg, st'.cache, st'.searches[k])
    {
      if k < |st.searches| && (a.Begin? || k != a.k) { OtherInv(cfg, st.cache, st'.cache, st.searches[k]); }
    }
  }

  ghost predicate Run(cfg: Config, trace: seq<State>) {
    && |trace| > 0 && trace[0] == State(map[], [])
    && forall k :: 0 <= k < |trace| - 1 ==> Steps(cfg, trace[k], trace[k + 1])
  }

  ghost predicate Steps(cfg: Config, st: State, st': State) {
    exists a :: Enabled(st, a) && st' == Apply(cfg, st, a)
  }

  lemma {:induction false} RunInv(cfg: Config, trace: seq<State>)
    requires Run(cfg, trace)
    ensures Inv(cfg, trace[|trace| - 1])
  {
    if |trace| > 1 {
      var before := trace[..|trace| - 1];
      assert Run(cfg, before);
      RunInv(cfg, before);
      assert Steps(cfg, trace[|trace| - 2], trace[|trace| - 1]);
      var a :| Enabled(trace[|trace| - 2], a) && trace[|trace| - 1] == Apply(cfg, trace[|trace| - 2], a);
      StepInv(cfg, trace[|trace| - 2], a);
    }
  }

  lemma SearchDone(cfg: Config, cache: Cache, s: Search, t: Term)
    requires SearchInv(cfg, cache, s) && s.tasks == [] && Star(Edge(cfg), s.start, t)
    ensures t in s.out
  {
    var inside := (u: Term) => u in s.seen;
    forall u, v | inside(u) && Edge(cfg)(u, v) ensures inside(v) { assert Handled(cfg, s, u); }
    StarClosed(Edge(cfg), inside, s.start, t);
  }

  /** At any point of any interleaving: the counter is the number of unfinished calls, the iterator has been closed
      exactly when there are none, and then the search has emitted precisely the terms reachable from its start,
      each once. */
  lemma SearchesAreExact(cfg: Config, trace: seq<State>, k: nat)
    requires Run(cfg, trace) && k < |trace[|trace| - 1].searches|
    ensures (var s := trace[|trace| - 1].searches[k];
             && s.counter == |s.tasks| && s.closes == (if s.tasks == [] then 1 else 0)
             && PathIterator.NoRepeats(s.out) && (forall t :: t in s.out ==> Star(Edge(cfg), s.start, t))
             && (s.closes == 1 ==> forall t :: t in s.out <==> Star(Edge(cfg), s.start, t)))
  {
    var st := trace[|trace| - 1];
    RunInv(cfg, trace);
    assert SearchInv(cfg, st.cache, st.searches[k]);
    if st.searches[k].tasks == [] {
      forall t | Star(Edge(cfg), st.searches[k].start, t) ensures t in st.searches[k].out {
        SearchDone(cfg, st.cache, st.searches[k], t);
      }
    }
  }

  /** Once closed a search never changes again: nothing is pushed after closing, and it is not closed twice. */
  lemma ClosedForGood(cfg: Config, trace: seq<State>, a: Action, k: nat)
    requires Run(cfg, trace) && k < |trace[|trace| - 1].searches|
    requires trace[|trace| - 1].searches[k].closes > 0 && Enabled(trace[|trace| - 1], a)
    ensures Apply(cfg, trace[|trace| - 1], a).searches[k] == trace[|trace| - 1].searches[k]
  {
    SearchesAreExact(cfg, trace, k);
  }

  ghost predicate CanMove(st: State) {
    exists a :: Enabled(st, a) && (a.Data? || a.Finish? || a.Resume?)
  }

  ghost predicate OnlyLoops(st: State) {
    forall k: nat, i: nat :: TaskAt(st, k, i) ==> st.searches[k].tasks[i].Loop?
  }

  ghost predicate TurnsLoop(st: State, k: nat) {
    exists i :: Enabled(st, Next(k, i)) || Enabled(st, Leave(k, i))
  }

  /** Each awaited call was made later than the one awaiting it, so following them from any task ends at a free one. */
  lemma FreeTask(cfg: Config, cache: Cache, s: Search, i: nat, p: nat) returns (j: nat)
    requires SearchInv(cfg, cache, s) && i < |s.tasks| && p < |s.out| && s.out[p] == s.tasks[i].node
    ensures j < |s.tasks| && Free(s, s.tasks[j])
    decreases |s.out| - p
  {
    j := i;
    var t := s.tasks[i];
    if !Free(s, t) {
      var next := NextTask(cfg, cache, s, i);
      var q := LaterPlace(s.out, p, t.node, t.awaits.value);
      j := FreeTask(cfg, cache, s, next, q);
    }
  }

  lemma NextTask(cfg: Config, cache: Cache, s: Search, i: nat) returns (next: nat)
    requires SearchInv(cfg, cache, s) && i < |s.tasks| && !Free(s, s.tasks[i])
    ensures s.tasks[i].Loop? && s.tasks[i].awaits.Some? && Later(s.out, s.tasks[i].node, s.tasks[i].awaits.value)
    ensures next < |s.tasks| && s.tasks[next].node == s.tasks[i].awaits.value
  {
    assert TaskInv(cfg, cache, s, s.tasks[i]);
    next :| next < |s.tasks| && s.tasks[next].node == s.tasks[i].awaits.value;
  }

  lemma LaterPlace(out: seq<Term>, p: nat, a: Term, b: Term) returns (q: nat)
    requires PathIterator.NoRepeats(out) && p < |out| && out[p] == a && Later(out, a, b)
    ensures p < q < |out| && out[q] == b
  {
    var i: nat, j: nat :| i < j < |out| && out[i] == a && out[j] == b;
    q := j;
  }

  lemma LoopTurns(cfg: Config, st: State, k: nat)
    requires Inv(cfg, st) && OnlyLoops(st) && k < |st.searches| && st.searches[k].tasks != []
    ensures TurnsLoop(st, k)
  {
    var s := st.searches[k];
    assert SearchInv(cfg, st.cache, s) && TaskInv(cfg, st.cache, s, s.tasks[0]);
    var p :| 0 <= p < |s.out| && s.out[p] == s.tasks[0].node;
    var j := FreeTask(cfg, st.cache, s, 0, p);
    assert TaskAt(st, k, j) && s.tasks[j].Loop?;
    assert if s.tasks[j].rest == [] then Enabled(st, Leave(k, j)) else Enabled(st, Next(k, j));
  }

  /** Waiting for somebody else's sub-query never deadlocks: either some sub-query or resumption can move, or all that
      is left are loops over known neighbours.  No chain of calls awaiting nested ones is without end either: in
      every search with loops only, some loop can take a turn. */
  lemma NeverStuck(cfg: Config, trace: seq<State>)
    requires Run(cfg, trace)
    ensures (var st := trace[|trace| - 1];
             || CanMove(st)
             || (OnlyLoops(st)
                 && forall k :: 0 <= k < |st.searches| && st.searches[k].tasks != [] ==> TurnsLoop(st, k)))
  {
    var st := trace[|trace| - 1];
    RunInv(cfg, trace);
    forall k | OnlyLoops(st) && 0 <= k < |st.searches| && st.searches[k].tasks != []
      ensures TurnsLoop(st, k)
    {
      LoopTurns(cfg, st, k);
    }
    if !OnlyLoops(st) {
      var k: nat, i: nat :| TaskAt(st, k, i) && !st.searches[k].tasks[i].Loop?;
      var t := st.searches[k].tasks[i];
      assert TaskInv(cfg, st.cache, st.searches[k], t);
      if t.Fetch? {
        FetchMoves(st, k, i);
      } else if st.cache[t.node].Some? {
        assert Enabled(st, Resume(k, i));
      } else {
        assert CacheInv(cfg, st, t.node);
        var k': nat, i': nat :| Fetching(st, k', i', t.node);
        FetchMoves(st, k', i');
      }
    }
  }

  lemma FetchMoves(st: State, k: nat, i: nat)
    requires TaskAt(st, k, i) && st.searches[k].tasks[i].Fetch?
    ensures CanMove(st)
  {
    assert Enabled(st, if st.searches[k].tasks[i].rest == [] then Finish(k, i) else Data(k, i));
  }

  // ----- termination -----

  ghost predicate Universe(cfg: Config, all: set<Term>) {
    forall u, v :: u in all && v in cfg.step(u) ==> v in all
  }

  function NodeCost(cfg: Config): Term -> nat { t => 3 + |cfg.step(t)| }

  function TaskCost(cfg: Config): Task -> nat {
    (t: Task) => match t
      case Fetch(_, _, rest) => 1 + |rest|
      case Wait(n) => 2 + |cfg.step(n)|
      case Loop(_, rest, _) => 1 + |rest|
  }

  ghost function SearchCost(cfg: Config, all: set<Term>): Search -> nat {
    (s: Search) => SumSet(NodeCost(cfg), all - s.seen) + SumSeq(TaskCost(cfg), s.tasks)
  }

  /** How many steps the searches begun so far can still take. */
  ghost function Remaining(cfg: Config, all: set<Term>, st: State): nat {
    SumSeq(SearchCost(cfg, all), st.searches)
  }

  lemma VisitCost(cfg: Config, all: set<Term>, cache: Cache, s: Search, node: Term)
    requires node in all
    ensures SearchCost(cfg, all)(Visit(cfg, cache, s, node).1) <= SearchCost(cfg, all)(s)
  {
    if node !in s.seen {
      SumSetPick(NodeCost(cfg), all - s.seen, node);
      assert all - s.seen - {node} == all - (s.seen + {node});
      var t := if node in cache then Wait(node) else Fetch(node, [], cfg.step(node));
      SumSeqConcat(TaskCost(cfg), s.tasks, [t]);
      SumSeqOne(TaskCost(cfg), t);
    }
  }

  /** All nodes a search has seen lie in the finite part of the graph. */
  lemma SeenInUniverse(cfg: Config, all: set<Term>, cache: Cache, s: Search, t: Term)
    requires Universe(cfg, all) && s.start in all && SearchInv(cfg, cache, s) && t in s.seen
    ensures t in all
  {
    StarClosed(Edge(cfg), (u: Term) => u in all, s.start, t);
  }

  lemma ProceedProgress(cfg: Config, all: set<Term>, cache: Cache, s: Search, i: nat)
    requires Universe(cfg, all) && SearchInv(cfg, cache, s) && s.start in all && i < |s.tasks| && HasNext(s.tasks[i])
    ensures SearchCost(cfg, all)(Proceed(cfg, cache, s, i).1) < SearchCost(cfg, all)(s)
  {
    var t := s.tasks[i];
    assert TaskInv(cfg, cache, s, t);
    SeenInUniverse(cfg, all, cache, s, t.node);
    NextIsNeighbour(cfg, cache, s, t);
    var t' := Handed(cache, s, i);
    SumSeqAt(TaskCost(cfg), s.tasks, i, t');
    VisitCost(cfg, all, cache, s.(tasks := s.tasks[i := t']), t.rest[0]);
  }

  lemma OverProgress(cfg: Config, all: set<Term>, s: Search, i: nat)
    requires i < |s.tasks|
    ensures SearchCost(cfg, all)(Over(s, i)) < SearchCost(cfg, all)(s)
  {
    SumSeqAt(TaskCost(cfg), s.tasks, i, s.tasks[i]);
  }

  lemma ResumeProgress(cfg: Config, all: set<Term>, s: Search, i: nat)
    requires i < |s.tasks| && s.tasks[i].Wait?
    ensures (var t := Loop(s.tasks[i].node, cfg.step(s.tasks[i].node), None);
             SearchCost(cfg, all)(s.(tasks := s.tasks[i := t])) < SearchCost(cfg, all)(s))
  {
    SumSeqAt(TaskCost(cfg), s.tasks, i, Loop(s.tasks[i].node, cfg.step(s.tasks[i].node), None));
  }

  /** Every step but the start of a new search uses up some of what remains: the searches begun terminate. */
  lemma StepProgress(cfg: Config, all: set<Term>, st: State, a: Action)
    requires Universe(cfg, all) && Inv(cfg, st) && Enabled(st, a) && !a.Begin?
    requires forall k :: 0 <= k < |st.searches| ==> st.searches[k].start in all
    ensures Remaining(cfg, all, Apply(cfg, st, a)) < Remaining(cfg, all, st)
  {
    var s := st.searches[a.k];
    SumSeqAt(SearchCost(cfg, all), st.searches, a.k, Local(cfg, st.cache, s, a).1);
    match a
    case Data(_, i) => ProceedProgress(cfg, all, st.cache, s, i);
    case Next(_, i) => ProceedProgress(cfg, all, st.cache, s, i);
    case Resume(_, i) =>
      assert TaskInv(cfg, st.cache, s, s.tasks[i]) && CacheInv(cfg, st, s.tasks[i].node);
      ResumeProgress(cfg, all, s, i);
    case Finish(_, i) => OverProgress(cfg, all, s, i);
    case Leave(_, i) => OverProgress(cfg, all, s, i);
  }

  ghost predicate StartIn(all: set<Term>, st: State) {
    forall k :: 0 <= k < |st.searches| ==> st.searches[k].start in all
  }

  /** What one search can cost in all, its start included. */
  ghost function FullCost(cfg: Config, all: set<Term>): nat { SumSet(NodeCost(cfg), all) + 1 }

  lemma BeginCost(cfg: Config, all: set<Term>, st: State, start: Term)
    requires start in all
    ensures Remaining(cfg, all, Apply(cfg, st, Begin(start))) + 1 <= Remaining(cfg, all, st) + FullCost(cfg, all)
  {
    var s := Visit(cfg, st.cache, Fresh(start), start).1;
    VisitCost(cfg, all, st.cache, Fresh(start), start);
    assert all - Fresh(start).seen == all;
    SumSeqConcat(SearchCost(cfg, all), st.searches, [s]);
    SumSeqOne(SearchCost(cfg, all), s);
  }

  lemma OneMore(n: nat, c: nat, before: nat, after: nat)
    requires after + 1 <= before + c
    ensures after + 1 + n * c <= before + (n + 1) * c
  {
  }

  lemma StepBound(cfg: Config, all: set<Term>, st: State, a: Action)
    requires Universe(cfg, all) && Inv(cfg, st) && StartIn(all, st) && Enabled(st, a) && StartIn(all, Apply(cfg, st, a))
    ensures (var st' := Apply(cfg, st, a);
             Remaining(cfg, all, st') + 1 + |st.searches| * FullCost(cfg, all)
             <= Remaining(cfg, all, st) + |st'.searches| * FullCost(cfg, all))
  {
    if a.Begin? {
      BeginStart(cfg, all, st, a.start);
      BeginCost(cfg, all, st, a.start);
      OneMore(|st.searches|, FullCost(cfg, all), Remaining(cfg, all, st), Remaining(cfg, all, Apply(cfg, st, a)));
    } else {
      StepProgress(cfg, all, st, a);
    }
  }

  lemma BeginStart(cfg: Config, all: set<Term>, st: State, start: Term)
    requires StartIn(all, Apply(cfg, st, Begin(start)))
    ensures start in all && |Apply(cfg, st, Begin(start)).searches| == |st.searches| + 1
  {
    assert Apply(cfg, st, Begin(start)).searches[|st.searches|].start == start;
  }

  lemma {:induction false} RunBound(cfg: Config, all: set<Term>, trace: seq<State>)
    requires Universe(cfg, all) && Run(cfg, trace) && forall k :: 0 <= k < |trace| ==> StartIn(all, trace[k])
    ensures |trace| - 1 + Remaining(cfg, all, trace[|trace| - 1]) <= |trace[|trace| - 1].searches| * FullCost(cfg, all)
  {
    if |trace| > 1 {
      var before := trace[..|trace| - 1];
      assert Run(cfg, before);
      RunBound(cfg, all, before);
      RunInv(cfg, before);
      assert Steps(cfg, trace[|trace| - 2], trace[|trace| - 1]);
      var a :| Enabled(trace[|trace| - 2], a) && trace[|trace| - 1] == Apply(cfg, trace[|trace| - 2], a);
      StepBound(cfg, all, trace[|trace| - 2], a);
    }
  }

  ghost predicate CanContinue(st: State) { exists a :: Enabled(st, a) && !a.Begin? }

  /** However the searches interleave, on a finite graph a run has no more steps than a fixed number for each search,
      and as long as one of them is not closed some step other than a new search is possible. */
  lemma RunsTerminate(cfg: Config, all: set<Term>, trace: seq<State>)
    requires Universe(cfg, all) && Run(cfg, trace) && forall k :: 0 <= k < |trace| ==> StartIn(all, trace[k])
    ensures |trace| - 1 <= |trace[|trace| - 1].searches| * FullCost(cfg, all)
    ensures CanContinue(trace[|trace| - 1]) || forall s :: s in trace[|trace| - 1].searches ==> s.closes == 1
  {
    var st := trace[|trace| - 1];
    RunBound(cfg, all, trace);
    NeverStuck(cfg, trace);
    if OnlyLoops(st) {
      forall k | 0 <= k < |st.searches| && st.searches[k].tasks != []
        ensures CanContinue(st)
      {
        assert TurnsLoop(st, k);
      }
    }
    forall k | 0 <= k < |st.searches| && st.searches[k].tasks == [] ensures st.searches[k].closes == 1 {
      SearchesAreExact(cfg, trace, k);
    }
  }
}
