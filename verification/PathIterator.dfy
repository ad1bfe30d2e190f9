/** The traversal behind `subject path* ?o` and `subject path+ ?o`: its state machine and all its runs. */
module PathIterator {
  import opened Terms
  import opened Reach
  import opened Sums

  /** `step` is the sub-query for one application of the path: it yields finitely many terms, repeats included. */
  datatype Config = Config(subject: Term, step: Term -> seq<Term>, emitFirst: bool, max: nat)

  /** A running sub-query: the node it started from and what it has yet to yield. */
  datatype Running = Running(node: Term, rest: seq<Term>)

  /** `kick` and `opening` are sub-queries popped from `pending` that the metadata request and the reader are still
      awaiting. `issued` records the nodes of all popped sub-queries. */
  datatype State = State(
    hashes: set<Term>,
    out: seq<Term>,
    pending: seq<Term>,
    running: seq<Running>,
    kick: Option<Term>,
    opening: Option<Term>,
    started: bool,
    closed: bool,
    issued: seq<Term>)

  datatype Action = Kick | KickDone | Open | OpenDone | Read(i: nat) | End(j: nat) | Close

  function Push(s: State, item: Term, asResult: bool): State {
    if !asResult then s.(pending := s.pending + [item])
    else if item in s.hashes then s
    else s.(pending := s.pending + [item], hashes := s.hashes + {item}, out := s.out + [item])
  }

  function Init(cfg: Config): State {
    Push(State({}, [], [], [], None, None, false, false, []), cfg.subject, cfg.emitFirst)
  }

  /** The sub-query of the last pending term is taken out and awaited. */
  function Pop(s: State): State
    requires s.pending != []
  {
    var n := |s.pending| - 1;
    s.(pending := s.pending[..n], issued := s.issued + [s.pending[n]], started := true)
  }

  function Start(cfg: Config, s: State, node: Term): State {
    s.(running := s.running + [Running(node, cfg.step(node))])
  }

  predicate Enabled(cfg: Config, s: State, a: Action) {
    !s.closed &&
    match a
    case Kick => !s.started && s.pending != []
    case KickDone => s.kick.Some?
    case Open => s.opening.None? && |s.running| < cfg.max && s.pending != []
    case OpenDone => s.opening.Some?
    case Read(i) => s.opening.None? && i < |s.running| && s.running[i].rest != []
    case End(i) => i < |s.running| && s.running[i].rest == []
    case Close => s.opening.None? && s.running == [] && s.pending == []
  }

  function Apply(cfg: Config, s: State, a: Action): State
    requires Enabled(cfg, s, a)
  {
    match a
    case Kick => Pop(s).(kick := Some(s.pending[|s.pending| - 1]))
    case KickDone => Start(cfg, s, s.kick.value).(kick := None)
    case Open => Pop(s).(opening := Some(s.pending[|s.pending| - 1]))
    case OpenDone => Start(cfg, s, s.opening.value).(opening := None)
    case Read(i) =>
      var r := s.running[i];
      Push(s.(running := s.running[i := r.(rest := r.rest[1..])]), r.rest[0], true)
    case End(i) => s.(running := Without(s.running, i))
    case Close => s.(closed := true)
  }

  /** While no operation is being awaited, the next one can be opened as long as fewer than the maximum run, and every
      sub-query that has something can be read; the operation opened is the one pushed last. */
  lemma NothingHeldBack(cfg: Config, s: State, i: nat)
    requires !s.closed && s.opening.None?
    ensures s.pending != [] && |s.running| < cfg.max ==>
              Enabled(cfg, s, Open) && Apply(cfg, s, Open).opening == Some(s.pending[|s.pending| - 1])
              && Apply(cfg, s, Open).pending + [s.pending[|s.pending| - 1]] == s.pending
    ensures i < |s.running| && s.running[i].rest != [] ==> Enabled(cfg, s, Read(i))
  {
  }

  // ----- what the runs keep -----

  ghost function Edge(cfg: Config): Rel<Term> { (x, y) => y in cfg.step(x) }

  ghost predicate Wanted(cfg: Config, t: Term) {
    if cfg.emitFirst then Star(Edge(cfg), cfg.subject, t) else Plus(Edge(cfg), cfg.subject, t)
  }

  ghost predicate NoRepeats(s: seq<Term>) {
    forall i, j :: 0 <= i < j < |s| ==> s[i] != s[j]
  }

  ghost predicate Covered(s: State, ts: seq<Term>) {
    forall t :: t in ts ==> t in s.hashes
  }

  /** All of a node's neighbours have been seen, or the node's sub-query still has to yield them. */
  ghost predicate Handled(cfg: Config, s: State, node: Term) {
    || s.kick == Some(node) || s.opening == Some(node)
    || (exists i :: 0 <= i < |s.running| && s.running[i].node == node)
    || Covered(s, cfg.step(node))
  }

  ghost predicate RunningInv(cfg: Config, s: State, r: Running) {
    && (forall t :: t in r.rest ==> t in cfg.step(r.node))
    && (forall t :: t in cfg.step(r.node) ==> t in s.hashes || t in r.rest)
    && r.node in s.issued
  }

  /** What has been issued or waits is what has been emitted, plus the subject if it was not. */
  ghost predicate Account(cfg: Config, s: State) {
    multiset(s.issued) + multiset(s.pending) == multiset(s.out) + Extra(cfg)
  }

  ghost function Extra(cfg: Config): multiset<Term> {
    if cfg.emitFirst then multiset{} else multiset{cfg.subject}
  }

  ghost predicate Inv(cfg: Config, s: State) {
    && NoRepeats(s.out) && (forall t :: t in s.hashes <==> t in s.out)
    && (forall t :: t in s.hashes ==> Wanted(cfg, t))
    && (cfg.emitFirst ==> cfg.subject in s.hashes)
    && Account(cfg, s)
    && (forall t :: t in s.issued ==> Handled(cfg, s, t))
    && (forall i :: 0 <= i < |s.running| ==> RunningInv(cfg, s, s.running[i]))
    && (s.kick.Some? ==> s.kick.value in s.issued) && (s.opening.Some? ==> s.opening.value in s.issued)
    && |s.running| + (if s.opening.Some? then 1 else 0) <= cfg.max
    && (!s.started ==> s.issued == [] && s.running == [] && s.kick.None? && s.opening.None? && !s.closed
                       && s.pending == [cfg.subject] && s.out == (if cfg.emitFirst then [cfg.subject] else []))
    && (s.kick.Some? ==> s.issued == [cfg.subject] && s.running == [] && s.opening.None? && s.pending == []
                         && s.kick == Some(cfg.subject) && s.out == (if cfg.emitFirst then [cfg.subject] else []))
  }

  lemma SubjectFirst(cfg: Config, s: State, t: Term)
    requires Inv(cfg, s) && (t in s.issued || t in s.pending)
    ensures Star(Edge(cfg), cfg.subject, t)
  {
    assert t in multiset(s.issued) + multiset(s.pending);
    StarRefl(Edge(cfg), cfg.subject);
    if t in s.out { StarUnfold(Edge(cfg), cfg.subject, t); }
  }

  lemma InitInv(cfg: Config)
    requires cfg.max > 0
    ensures Inv(cfg, Init(cfg))
  {
    StarRefl(Edge(cfg), cfg.subject);
  }

  lemma Popped(cfg: Config, s: State)
    requires Account(cfg, s) && s.pending != []
    ensures Account(cfg, Pop(s))
  {
    var n := |s.pending| - 1;
    assert s.pending == s.pending[..n] + [s.pending[n]];
    assert multiset(s.pending) == multiset(s.pending[..n]) + multiset{s.pending[n]};
    assert multiset(s.issued + [s.pending[n]]) == multiset(s.issued) + multiset{s.pending[n]};
  }

  lemma PopInv(cfg: Config, s: State, s': State)
    requires Inv(cfg, s) && !s.closed && s.pending != [] && s.opening.None? && s.kick.None?
    requires var t := Some(s.pending[|s.pending| - 1]);
      || (!s.started && s' == Pop(s).(kick := t))
      || (|s.running| < cfg.max && s' == Pop(s).(opening := t))
    ensures Inv(cfg, s')
  {
    Popped(cfg, s);
    forall t | t in s'.issued
      ensures Handled(cfg, s', t)
    {
      if t in s.issued {
        assert Handled(cfg, s, t);
        if i :| 0 <= i < |s.running| && s.running[i].node == t { assert s'.running[i].node == t; }
      }
    }
    forall i | 0 <= i < |s'.running| ensures RunningInv(cfg, s', s'.running[i]) {
      assert RunningInv(cfg, s, s.running[i]);
    }
  }

  lemma StartInv(cfg: Config, s: State, node: Term, s': State)
    requires Inv(cfg, s) && !s.closed && s.started && cfg.max > 0
    requires (s.kick == Some(node) && s' == Start(cfg, s, node).(kick := None))
          || (s.opening == Some(node) && s' == Start(cfg, s, node).(opening := None))
    ensures Inv(cfg, s')
  {
    forall t | t in s'.issued
      ensures Handled(cfg, s', t)
    {
      assert Handled(cfg, s, t);
      assert s'.running[|s.running|].node == node;
      if i :| 0 <= i < |s.running| && s.running[i].node == t { assert s'.running[i].node == t; }
    }
    forall i | 0 <= i < |s'.running| ensures RunningInv(cfg, s', s'.running[i]) {
      if i < |s.running| { assert RunningInv(cfg, s, s.running[i]); }
    }
  }

  lemma Accounted(cfg: Config, s: State, item: Term)
    requires Account(cfg, s)
    ensures Account(cfg, Push(s, item, true))
  {
    var i, p, o, one := multiset(s.issued), multiset(s.pending), multiset(s.out), multiset{item};
    assert multiset(s.pending + [item]) == p + one;
    assert multiset(s.out + [item]) == o + one;
    assert i + (p + one) == (i + p) + one == (o + Extra(cfg)) + one == (o + one) + Extra(cfg);
  }

  lemma ReadWanted(cfg: Config, s: State, i: nat)
    requires Inv(cfg, s) && Enabled(cfg, s, Read(i))
    ensures Wanted(cfg, s.running[i].rest[0])
  {
    var r, item := s.running[i], s.running[i].rest[0];
    assert RunningInv(cfg, s, r);
    assert item in cfg.step(r.node) by { assert item in r.rest; }
    SubjectFirst(cfg, s, r.node);
    PlusSnoc(Edge(cfg), cfg.subject, r.node, item);
    StarUnfold(Edge(cfg), cfg.subject, item);
  }

  lemma ReadHandled(cfg: Config, s: State, i: nat, t: Term)
    requires Enabled(cfg, s, Read(i)) && Handled(cfg, s, t)
    ensures Handled(cfg, Apply(cfg, s, Read(i)), t)
  {
    var s' := Apply(cfg, s, Read(i));
    if j :| 0 <= j < |s.running| && s.running[j].node == t { assert s'.running[j].node == t; }
  }

  lemma ReadRunning(cfg: Config, s: State, i: nat, j: nat)
    requires Enabled(cfg, s, Read(i)) && j < |s.running| && RunningInv(cfg, s, s.running[j])
    ensures (var s' := Apply(cfg, s, Read(i)); RunningInv(cfg, s', s'.running[j]))
  {
    var r := s.running[i];
    if j == i { assert forall t :: t in r.rest <==> t == r.rest[0] || t in r.rest[1..]; }
  }

  lemma ReadInv(cfg: Config, s: State, i: nat)
    requires Inv(cfg, s) && Enabled(cfg, s, Read(i))
    ensures Inv(cfg, Apply(cfg, s, Read(i)))
  {
    var s', r := Apply(cfg, s, Read(i)), s.running[i];
    Accounted(cfg, s, r.rest[0]);
    ReadWanted(cfg, s, i);
    forall t | t in s'.issued ensures Handled(cfg, s', t) { ReadHandled(cfg, s, i, t); }
    forall j | 0 <= j < |s'.running| ensures RunningInv(cfg, s', s'.running[j]) { ReadRunning(cfg, s, i, j); }
  }

  lemma EndInv(cfg: Config, s: State, i: nat)
    requires Inv(cfg, s) && Enabled(cfg, s, End(i))
    ensures Inv(cfg, Apply(cfg, s, End(i)))
  {
    var s' := Apply(cfg, s, End(i));
    assert RunningInv(cfg, s, s.running[i]);
    forall t | t in s'.issued
      ensures Handled(cfg, s', t)
    {
      assert Handled(cfg, s, t);
      if j :| 0 <= j < |s.running| && s.running[j].node == t {
        if j < i { assert s'.running[j].node == t; } else if j > i { assert s'.running[j - 1].node == t; }
      }
    }
    forall j | 0 <= j < |s'.running| ensures RunningInv(cfg, s', s'.running[j]) {
      assert RunningInv(cfg, s, s.running[if j < i then j else j + 1]);
    }
  }

  lemma CloseInv(cfg: Config, s: State)
    requires Inv(cfg, s) && Enabled(cfg, s, Close)
    ensures Inv(cfg, Apply(cfg, s, Close))
  {
    forall t | t in s.issued ensures Handled(cfg, Apply(cfg, s, Close), t) { assert Handled(cfg, s, t); }
  }

  lemma StepInv(cfg: Config, s: State, a: Action)
    requires Inv(cfg, s) && Enabled(cfg, s, a) && cfg.max > 0
    ensures Inv(cfg, Apply(cfg, s, a))
  {
    match a
    case Kick => PopInv(cfg, s, Apply(cfg, s, a));
    case KickDone => StartInv(cfg, s, s.kick.value, Apply(cfg, s, a));
    case Open => PopInv(cfg, s, Apply(cfg, s, a));
    case OpenDone => StartInv(cfg, s, s.opening.value, Apply(cfg, s, a));
    case Read(i) => ReadInv(cfg, s, i);
    case End(i) => EndInv(cfg, s, i);
    case Close => CloseInv(cfg, s);
  }

  // ----- all runs -----

  /** The states of a run, from the constructed iterator on. */
  ghost predicate Run(cfg: Config, trace: seq<State>) {
    && |trace| > 0 && trace[0] == Init(cfg)
    && forall k :: 0 <= k < |trace| - 1 ==> Steps(cfg, trace[k], trace[k + 1])
  }

  ghost predicate Steps(cfg: Config, s: State, s': State) {
    exists a :: Enabled(cfg, s, a) && s' == Apply(cfg, s, a)
  }

  lemma {:induction false} RunInv(cfg: Config, trace: seq<State>)
    requires Run(cfg, trace) && cfg.max > 0
    ensures Inv(cfg, trace[|trace| - 1])
  {
    if |trace| == 1 {
      InitInv(cfg);
    } else {
      var before := trace[..|trace| - 1];
      RunInv(cfg, before);
      assert Steps(cfg, trace[|trace| - 2], trace[|trace| - 1]);
      var a :| Enabled(cfg, trace[|trace| - 2], a) && trace[|trace| - 1] == Apply(cfg, trace[|trace| - 2], a);
      StepInv(cfg, trace[|trace| - 2], a);
    }
  }

  ghost predicate Idle(s: State) {
    s.running == [] && s.pending == [] && s.kick.None? && s.opening.None?
  }

  lemma IdleClosed(cfg: Config, s: State, u: Term, v: Term)
    requires Inv(cfg, s) && Idle(s)
    requires (u in s.hashes || u == cfg.subject) && v in cfg.step(u)
    ensures v in s.hashes
  {
    assert u in multiset(s.out) + Extra(cfg);
    assert u in s.issued;
    assert Handled(cfg, s, u);
  }

  /** Nothing left to do anywhere: everything wanted has been emitted. */
  lemma AllEmitted(cfg: Config, s: State, t: Term)
    requires Inv(cfg, s) && Idle(s) && Wanted(cfg, t)
    ensures t in s.out
  {
    var inside := (u: Term) => u in s.hashes;
    forall u, v | inside(u) && Edge(cfg)(u, v) ensures inside(v) { IdleClosed(cfg, s, u, v); }
    if cfg.emitFirst {
      StarClosed(Edge(cfg), inside, cfg.subject, t);
    } else {
      var z :| Edge(cfg)(cfg.subject, z) && Star(Edge(cfg), z, t);
      IdleClosed(cfg, s, cfg.subject, z);
      StarClosed(Edge(cfg), inside, z, t);
    }
  }

  /** The emitted terms are exactly the wanted ones, each once. */
  ghost predicate Complete(cfg: Config, s: State) {
    NoRepeats(s.out) && forall t :: t in s.out <==> Wanted(cfg, t)
  }

  /** Whenever the reader closes the iterator, the result is complete exactly if no metadata request is still
      awaiting its sub-query, or the subject reaches nothing beyond what was emitted at the start. */
  lemma ClosesCompleteExactly(cfg: Config, trace: seq<State>, s: State)
    requires cfg.max > 0 && Run(cfg, trace) && s == trace[|trace| - 1] && Enabled(cfg, s, Close)
    ensures Complete(cfg, s)
       <==> s.kick.None? || forall t :: Plus(Edge(cfg), cfg.subject, t) ==> cfg.emitFirst && t == cfg.subject
    ensures s.kick.None? ==> |s.issued| == |s.out| + if cfg.emitFirst then 0 else 1
  {
    RunInv(cfg, trace);
    if s.kick.None? {
      forall t | Wanted(cfg, t) ensures t in s.out { AllEmitted(cfg, s, t); }
      assert |multiset(s.issued) + multiset(s.pending)| == |s.issued|;
      assert |multiset(s.out) + Extra(cfg)| == |s.out| + if cfg.emitFirst then 0 else 1;
    } else {
      forall t
        ensures Wanted(cfg, t) <==> Plus(Edge(cfg), cfg.subject, t) || (cfg.emitFirst && t == cfg.subject)
      {
        StarUnfold(Edge(cfg), cfg.subject, t);
      }
    }
  }

  /** Such a premature close can happen: metadata asked for, then read before the first sub-query answers. */
  lemma PrematureClose(cfg: Config)
    ensures Enabled(cfg, Init(cfg), Kick)
    ensures (var s := Apply(cfg, Init(cfg), Kick);
             Run(cfg, [Init(cfg), s]) && s.kick.Some? && Enabled(cfg, s, Close))
  {
    assert Steps(cfg, Init(cfg), Apply(cfg, Init(cfg), Kick));
  }

  /** Never more than `max` sub-queries at once, every one of them for the subject or for an emitted term,
      and never the same emitted term twice. */
  lemma BoundedSubQueries(cfg: Config, trace: seq<State>, s: State)
    requires cfg.max > 0 && Run(cfg, trace) && s == trace[|trace| - 1]
    ensures |s.running| + (if s.opening.Some? then 1 else 0) + (if s.kick.Some? then 1 else 0) <= cfg.max
    ensures multiset(s.issued) <= multiset(s.out) + Extra(cfg)
    ensures NoRepeats(s.out) && forall t :: t in s.out ==> Wanted(cfg, t)
  {
    RunInv(cfg, trace);
  }

  // ----- termination -----

  /** A finite part of the graph that contains the subject and everything it leads to. */
  ghost predicate Universe(cfg: Config, all: set<Term>) {
    cfg.subject in all && forall u, v :: u in all && v in cfg.step(u) ==> v in all
  }

  function Cost(cfg: Config): Term -> nat { t => 3 + |cfg.step(t)| }

  function RunningCost(): Running -> nat { (r: Running) => 1 + |r.rest| }

  /** A bound on the number of steps that can still be taken. */
  ghost function Remaining(cfg: Config, all: set<Term>, s: State): nat {
    (if s.closed then 0 else 1)
    + SumSet(Cost(cfg), all - s.hashes) + SumSeq(Cost(cfg), s.pending) + SumSeq(RunningCost(), s.running)
    + (if s.kick.Some? then Cost(cfg)(s.kick.value) - 1 else 0)
    + (if s.opening.Some? then Cost(cfg)(s.opening.value) - 1 else 0)
  }

  /** Every step uses up some of what remains. */
  lemma StepProgress(cfg: Config, all: set<Term>, s: State, a: Action)
    requires Universe(cfg, all) && Inv(cfg, s) && Enabled(cfg, s, a)
    ensures Remaining(cfg, all, Apply(cfg, s, a)) < Remaining(cfg, all, s)
  {
    var s' := Apply(cfg, s, a);
    match a
    case Kick => PopCost(cfg, s.pending);
    case Open => PopCost(cfg, s.pending);
    case KickDone => StartCost(cfg, s.running, s.kick.value);
    case OpenDone => StartCost(cfg, s.running, s.opening.value);
    case End(i) => SumSeqAt(RunningCost(), s.running, i, s.running[i]);
    case Close =>
    case Read(i) => ReadCost(cfg, all, s, i);
  }

  lemma PopCost(cfg: Config, pending: seq<Term>)
    requires pending != []
    ensures SumSeq(Cost(cfg), pending)
            == SumSeq(Cost(cfg), pending[..|pending| - 1]) + Cost(cfg)(pending[|pending| - 1])
  {
    var n := |pending| - 1;
    SumSeqAt(Cost(cfg), pending, n, pending[n]);
    assert Without(pending, n) == pending[..n];
  }

  lemma StartCost(cfg: Config, running: seq<Running>, node: Term)
    ensures SumSeq(RunningCost(), running + [Running(node, cfg.step(node))])
            == SumSeq(RunningCost(), running) + Cost(cfg)(node) - 2
  {
    SumSeqConcat(RunningCost(), running, [Running(node, cfg.step(node))]);
    SumSeqOne(RunningCost(), Running(node, cfg.step(node)));
  }

  lemma ReadCost(cfg: Config, all: set<Term>, s: State, i: nat)
    requires Universe(cfg, all) && Inv(cfg, s) && Enabled(cfg, s, Read(i))
    ensures Remaining(cfg, all, Apply(cfg, s, Read(i))) < Remaining(cfg, all, s)
  {
    var r := s.running[i];
    var item := r.rest[0];
    SumSeqAt(RunningCost(), s.running, i, r.(rest := r.rest[1..]));
    if item !in s.hashes {
      ReachedInUniverse(cfg, all, s, i);
      SumSetPick(Cost(cfg), all - s.hashes, item);
      assert all - s.hashes - {item} == all - (s.hashes + {item});
      PopCost(cfg, s.pending + [item]);
      assert (s.pending + [item])[..|s.pending|] == s.pending;
    }
  }

  lemma ReachedInUniverse(cfg: Config, all: set<Term>, s: State, i: nat)
    requires Universe(cfg, all) && Inv(cfg, s) && Enabled(cfg, s, Read(i))
    ensures s.running[i].rest[0] in all
  {
    var r := s.running[i];
    assert RunningInv(cfg, s, r);
    SubjectFirst(cfg, s, r.node);
    StarClosed(Edge(cfg), (u: Term) => u in all, cfg.subject, r.node);
    assert r.rest[0] in r.rest;
  }

  ghost predicate CanStep(cfg: Config, s: State) { exists a :: Enabled(cfg, s, a) }

  /** As long as the iterator is open something can be done. */
  lemma NeverStuck(cfg: Config, s: State)
    requires Inv(cfg, s) && cfg.max > 0 && !s.closed
    ensures CanStep(cfg, s)
  {
    if s.kick.Some? { assert Enabled(cfg, s, KickDone); }
    else if s.opening.Some? { assert Enabled(cfg, s, OpenDone); }
    else if s.running != [] {
      if s.running[0].rest != [] { assert Enabled(cfg, s, Read(0)); } else { assert Enabled(cfg, s, End(0)); }
    }
    else if s.pending != [] { assert Enabled(cfg, s, Open); }
    else { assert Enabled(cfg, s, Close); }
  }

  lemma StepsProgress(cfg: Config, all: set<Term>, s: State, s': State)
    requires Universe(cfg, all) && Inv(cfg, s) && Steps(cfg, s, s')
    ensures Remaining(cfg, all, s') < Remaining(cfg, all, s)
  {
    var a :| Enabled(cfg, s, a) && s' == Apply(cfg, s, a);
    StepProgress(cfg, all, s, a);
  }

  lemma {:induction false} RunBound(cfg: Config, all: set<Term>, trace: seq<State>)
    requires Universe(cfg, all) && cfg.max > 0 && Run(cfg, trace)
    ensures |trace| - 1 + Remaining(cfg, all, trace[|trace| - 1]) <= Remaining(cfg, all, trace[0])
  {
    if |trace| > 1 {
      var before := trace[..|trace| - 1];
      assert Run(cfg, before);
      RunBound(cfg, all, before);
      RunInv(cfg, before);
      StepsProgress(cfg, all, trace[|trace| - 2], trace[|trace| - 1]);
    }
  }

  /** Whatever the scheduling, a run over a finite graph has no more steps than `Remaining` says at its start,
      and it can only end by closing. */
  lemma RunsTerminate(cfg: Config, all: set<Term>, trace: seq<State>)
    requires Universe(cfg, all) && cfg.max > 0 && Run(cfg, trace)
    ensures |trace| - 1 <= Remaining(cfg, all, Init(cfg))
    ensures trace[|trace| - 1].closed || CanStep(cfg, trace[|trace| - 1])
  {
    RunBound(cfg, all, trace);
    RunInv(cfg, trace);
    if !trace[|trace| - 1].closed { NeverStuck(cfg, trace[|trace| - 1]); }
  }
}
