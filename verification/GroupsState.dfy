/** Grouping as a protocol: initialisers, puts and the one-shot collection interleave freely. */
module GroupsState {
  import opened Terms
  import opened Sums

  /** `names` are the output variables of the aggregates, `result` what an aggregator makes of the rows put into it. */
  datatype Config = Config(vars: set<string>, names: seq<string>, result: (nat, seq<Mapping>) -> Option<Term>)

  type Key = Mapping

  /** An asynchronous call of `consumeBindings`: the first row of a group creates the aggregators, later ones wait for
      them. `created` and `put` are the aggregates dealt with so far. */
  datatype Task =
    | Init(key: Key, row: Mapping, created: set<nat>, put: set<nat>)
    | Feed(key: Key, row: Mapping, put: set<nat>)

  /** `settling` are groups whose initialiser is over but not yet seen by those awaiting it; `collecting` counts the
      collections begun, `results` are the rows the resolver has been called with. `consumed` is for the record. */
  datatype State = State(
    initialized: set<Key>,
    settling: set<Key>,
    ready: set<Key>,
    groups: seq<Key>,
    received: map<(Key, nat), seq<Mapping>>,
    tasks: seq<Task>,
    waitCounter: int,
    called: bool,
    resolverSet: bool,
    collecting: nat,
    results: seq<seq<Mapping>>,
    consumed: seq<Mapping>)

  datatype Action =
    | Consume(row: Mapping)
    | Create(i: nat, a: nat)
    | Put(i: nat, a: nat)
    | Finish(i: nat)
    | Settle(key: Key)
    | Collect
    | Resolve

  function KeyOf(cfg: Config, row: Mapping): Key {
    map x | x in row && x in cfg.vars :: row[x]
  }

  function Start(): State { State({}, {}, {}, [], map[], [], 1, false, false, 0, [], []) }

  function Subtract(s: State): State {
    s.(waitCounter := s.waitCounter - 1, collecting := s.collecting + if s.waitCounter == 1 then 1 else 0)
  }

  /** The output row of a group, from aggregate `a` on. */
  function Aggregated(cfg: Config, s: State, key: Key, row: Mapping, a: nat): Mapping
    requires a <= |cfg.names|
    decreases |cfg.names| - a
  {
    if a == |cfg.names| then row
    else
      var r := cfg.result(a, if (key, a) in s.received then s.received[(key, a)] else []);
      Aggregated(cfg, s, key, if r.Some? then row[cfg.names[a] := r.value] else row, a + 1)
  }

  /** One row per group; a single one from empty aggregators if there was no input and nothing to group by. */
  function Rows(cfg: Config, s: State): seq<Mapping> {
    if s.groups == [] && cfg.vars == {} then [Aggregated(cfg, s, map[], map[], 0)]
    else seq(|s.groups|, i requires 0 <= i < |s.groups| => Aggregated(cfg, s, s.groups[i], s.groups[i], 0))
  }

  predicate Enabled(cfg: Config, s: State, a: Action) {
    match a
    case Consume(_) => !s.called
    case Create(i, a) => i < |s.tasks| && s.tasks[i].Init? && a < |cfg.names| && a !in s.tasks[i].created
    case Put(i, a) => i < |s.tasks| && a < |cfg.names| && a !in s.tasks[i].put && (s.tasks[i].key, a) in s.received
      && if s.tasks[i].Init? then a in s.tasks[i].created else s.tasks[i].key in s.ready
    case Finish(i) => i < |s.tasks| && (forall a :: 0 <= a < |cfg.names| ==> a in s.tasks[i].put)
      && (s.tasks[i].Feed? ==> s.tasks[i].key in s.ready)
    case Settle(key) => key in s.settling
    case Collect => !s.called
    case Resolve => |s.results| < s.collecting
  }

  function WithPut(t: Task, a: nat): Task {
    match t
    case Init(key, row, created, put) => Init(key, row, created, put + {a})
    case Feed(key, row, put) => Feed(key, row, put + {a})
  }

  function Apply(cfg: Config, s: State, a: Action): State
    requires Enabled(cfg, s, a)
  {
    match a
    case Consume(row) =>
      var key := KeyOf(cfg, row);
      s.(waitCounter := s.waitCounter + 1, consumed := s.consumed + [row],
         initialized := s.initialized + {key},
         tasks := s.tasks + [if key in s.initialized then Feed(key, row, {}) else Init(key, row, {}, {})])
    case Create(i, a) =>
      var t := s.tasks[i];
      s.(received := s.received[(t.key, a) := []], tasks := s.tasks[i := Init(t.key, t.row, t.created + {a}, t.put)])
    case Put(i, a) =>
      var t := s.tasks[i];
      s.(received := s.received[(t.key, a) := s.received[(t.key, a)] + [t.row]], tasks := s.tasks[i := WithPut(t, a)])
    case Finish(i) =>
      var t := s.tasks[i];
      var s' := s.(tasks := Without(s.tasks, i));
      Subtract(if t.Feed? then s' else s'.(groups := s.groups + [t.key], settling := s.settling + {t.key}))
    case Settle(key) => s.(settling := s.settling - {key}, ready := s.ready + {key})
    case Collect => Subtract(s.(called := true, resolverSet := true))
    case Resolve => s.(results := s.results + [Rows(cfg, s)])
  }

  // ----- what every interleaving keeps -----

  /** The row a task still has to put into aggregate `a` of group `key`, if any. */
  function LeftOf(key: Key, a: nat): Task -> multiset<Mapping> {
    (t: Task) => if t.key == key && a !in t.put then multiset{t.row} else multiset{}
  }

  function Left(ts: seq<Task>, key: Key, a: nat): multiset<Mapping> { SumBag(LeftOf(key, a), ts) }

  /** The consumed rows of a group. */
  function RowsOf(cfg: Config, rows: seq<Mapping>, key: Key): multiset<Mapping> {
    if rows == [] then multiset{}
    else RowsOf(cfg, rows[..|rows| - 1], key)
         + if KeyOf(cfg, rows[|rows| - 1]) == key then multiset{rows[|rows| - 1]} else multiset{}
  }

  function Received(s: State, key: Key, a: nat): multiset<Mapping> {
    if (key, a) in s.received then multiset(s.received[(key, a)]) else multiset{}
  }

  /** What has been put into an aggregator and what is still to be put are together the rows of its group. */
  ghost predicate Even(cfg: Config, s: State) {
    forall key, a: nat :: a < |cfg.names| ==> EvenAt(cfg, s, key, a)
  }

  ghost predicate EvenAt(cfg: Config, s: State, key: Key, a: nat) {
    Received(s, key, a) + Left(s.tasks, key, a) == RowsOf(cfg, s.consumed, key)
  }

  ghost predicate Starting(s: State, key: Key, i: nat) { i < |s.tasks| && s.tasks[i].Init? && s.tasks[i].key == key }

  ghost predicate HasInit(s: State, key: Key) { exists i: nat :: Starting(s, key, i) }

  /** The stages of a group: being initialised by exactly one task, settling, ready. */
  ghost predicate Staged(cfg: Config, s: State) {
    && (forall key :: key in s.initialized <==> HasInit(s, key) || key in s.groups)
    && (forall key :: key in s.groups <==> key in s.settling || key in s.ready)
    && (forall key, i: nat :: Starting(s, key, i) ==> key !in s.groups)
    && (forall key, i: nat, j: nat :: Starting(s, key, i) && Starting(s, key, j) ==> i == j)
    && (forall i, j :: 0 <= i < j < |s.groups| ==> s.groups[i] != s.groups[j])
    && (forall i :: 0 <= i < |s.tasks| ==> s.tasks[i].key in s.initialized)
    && (forall row :: row in s.consumed ==> KeyOf(cfg, row) in s.initialized)
    && (forall key :: key in s.initialized ==> exists row :: row in s.consumed && KeyOf(cfg, row) == key)
  }

  /** An aggregator exists from its creation on. */
  ghost predicate Made(cfg: Config, s: State) {
    && (forall key, a: nat :: key in s.groups && a < |cfg.names| ==> (key, a) in s.received)
    && (forall i, a: nat :: 0 <= i < |s.tasks| && s.tasks[i].Init? ==>
          (a in s.tasks[i].created <==> (s.tasks[i].key, a) in s.received))
    && (forall i :: 0 <= i < |s.tasks| && s.tasks[i].Init? ==> s.tasks[i].put <= s.tasks[i].created)
    && (forall key, a: nat :: (key, a) in s.received ==> key in s.initialized)
  }

  ghost predicate Counted(cfg: Config, s: State) {
    && s.waitCounter == |s.tasks| + (if s.called then 0 else 1)
    && s.collecting == (if s.called && s.tasks == [] then 1 else 0)
    && s.resolverSet == s.called
    && |s.results| <= s.collecting && (forall i :: 0 <= i < |s.results| ==> s.results[i] == Rows(cfg, s))
  }

  ghost predicate Inv(cfg: Config, s: State) { Even(cfg, s) && Staged(cfg, s) && Made(cfg, s) && Counted(cfg, s) }

  lemma StartInv(cfg: Config)
    ensures Inv(cfg, Start())
  {
  }

  /** Consuming a row starts a task for its key exactly if the key is new. */
  lemma ConsumeStarts(cfg: Config, s: State, row: Mapping, k: Mapping, i: nat)
    requires Enabled(cfg, s, Consume(row))
    ensures Starting(Apply(cfg, s, Consume(row)), k, i)
       <==> Starting(s, k, i) || (i == |s.tasks| && k == KeyOf(cfg, row) && k !in s.initialized)
  {
  }

  lemma ConsumeInitialized(cfg: Config, s: State, row: Mapping, k: Mapping)
    requires Staged(cfg, s) && Enabled(cfg, s, Consume(row))
    ensures (var s' := Apply(cfg, s, Consume(row)); k in s'.initialized <==> HasInit(s', k) || k in s'.groups)
  {
    var s', key := Apply(cfg, s, Consume(row)), KeyOf(cfg, row);
    forall i: nat { ConsumeStarts(cfg, s, row, k, i); }
    if HasInit(s, k) { var i: nat :| Starting(s, k, i); assert Starting(s', k, i); }
    if k == key && key !in s.initialized { assert Starting(s', key, |s.tasks|); }
  }

  lemma ConsumeStaged(cfg: Config, s: State, row: Mapping)
    requires Staged(cfg, s) && Made(cfg, s) && Enabled(cfg, s, Consume(row))
    ensures (var s' := Apply(cfg, s, Consume(row)); Staged(cfg, s') && Made(cfg, s'))
  {
    var s', key := Apply(cfg, s, Consume(row)), KeyOf(cfg, row);
    forall k ensures k in s'.initialized <==> HasInit(s', k) || k in s'.groups { ConsumeInitialized(cfg, s, row, k); }
    forall k, i: nat | Starting(s', k, i) ensures k !in s'.groups { ConsumeStarts(cfg, s, row, k, i); }
    forall k, i: nat, j: nat | Starting(s', k, i) && Starting(s', k, j) ensures i == j {
      ConsumeStarts(cfg, s, row, k, i);
      ConsumeStarts(cfg, s, row, k, j);
      if i == |s.tasks| || j == |s.tasks| { assert !HasInit(s, key) || key in s.initialized; }
    }
    assert row in s'.consumed;
  }

  lemma ConsumeEven(cfg: Config, s: State, row: Mapping)
    requires Even(cfg, s) && Enabled(cfg, s, Consume(row))
    ensures Even(cfg, Apply(cfg, s, Consume(row)))
  {
    var s' := Apply(cfg, s, Consume(row));
    var t := s'.tasks[|s.tasks|];
    forall key, a: nat | a < |cfg.names|
      ensures EvenAt(cfg, s', key, a)
    {
      assert EvenAt(cfg, s, key, a);
      SumBagConcat(LeftOf(key, a), s.tasks, [t]);
      SumBagOne(LeftOf(key, a), t);
      assert s'.consumed[..|s.consumed|] == s.consumed;
    }
  }

  lemma RetaskStaged(cfg: Config, s: State, s': State, i: nat, t: Task)
    requires Staged(cfg, s) && i < |s.tasks| && t.Init? == s.tasks[i].Init? && t.key == s.tasks[i].key
    requires s' == s.(tasks := s.tasks[i := t], received := s'.received)
    ensures Staged(cfg, s')
  {
    forall k, j: nat ensures Starting(s', k, j) <==> Starting(s, k, j) {}
    forall k ensures HasInit(s', k) <==> HasInit(s, k) {
      if HasInit(s, k) { var j: nat :| Starting(s, k, j); assert Starting(s', k, j); }
    }
  }

  /** Replacing a task shifts what is received in group `key` by what is no longer left to put. */
  lemma RetaskEven(cfg: Config, s: State, s': State, i: nat, t: Task, key: Key, b: nat)
    requires EvenAt(cfg, s, key, b) && i < |s.tasks|
    requires s'.tasks == s.tasks[i := t] && s'.consumed == s.consumed
    requires Received(s', key, b) + LeftOf(key, b)(t) == Received(s, key, b) + LeftOf(key, b)(s.tasks[i])
    ensures EvenAt(cfg, s', key, b)
  {
    SumBagAt(LeftOf(key, b), s.tasks, i, t);
    var rest := SumBag(LeftOf(key, b), Without(s.tasks, i));
    SwapSum(Received(s', key, b), Received(s, key, b), LeftOf(key, b)(t), LeftOf(key, b)(s.tasks[i]), rest);
  }

  lemma CreateEven(cfg: Config, s: State, i: nat, a: nat)
    requires Inv(cfg, s) && Enabled(cfg, s, Create(i, a))
    ensures Even(cfg, Apply(cfg, s, Create(i, a)))
  {
    var s', t := Apply(cfg, s, Create(i, a)), s.tasks[i];
    assert (t.key, a) !in s.received;
    forall key, b: nat | b < |cfg.names|
      ensures EvenAt(cfg, s', key, b)
    {
      assert EvenAt(cfg, s, key, b);
      RetaskEven(cfg, s, s', i, s'.tasks[i], key, b);
    }
  }

  /** A step of one initialiser does not touch the aggregators of another. */
  lemma CreateMade(cfg: Config, s: State, i: nat, a: nat)
    requires Staged(cfg, s) && Made(cfg, s) && Enabled(cfg, s, Create(i, a))
    ensures Made(cfg, Apply(cfg, s, Create(i, a)))
  {
    var s' := Apply(cfg, s, Create(i, a));
    assert Starting(s, s.tasks[i].key, i);
    forall j, b: nat | 0 <= j < |s'.tasks| && s'.tasks[j].Init?
      ensures b in s'.tasks[j].created <==> (s'.tasks[j].key, b) in s'.received
    {
      if j != i { assert Starting(s, s.tasks[j].key, j); }
    }
  }

  lemma CreateInv(cfg: Config, s: State, i: nat, a: nat)
    requires Inv(cfg, s) && Enabled(cfg, s, Create(i, a))
    ensures Inv(cfg, Apply(cfg, s, Create(i, a)))
  {
    var s' := Apply(cfg, s, Create(i, a));
    CreateEven(cfg, s, i, a);
    CreateMade(cfg, s, i, a);
    RetaskStaged(cfg, s, s', i, s'.tasks[i]);
    assert Counted(cfg, s');
  }

  lemma PutEven(cfg: Config, s: State, i: nat, a: nat)
    requires Even(cfg, s) && Enabled(cfg, s, Put(i, a))
    ensures Even(cfg, Apply(cfg, s, Put(i, a)))
  {
    var s' := Apply(cfg, s, Put(i, a));
    forall key, b: nat | b < |cfg.names|
      ensures EvenAt(cfg, s', key, b)
    {
      assert EvenAt(cfg, s, key, b);
      PutShifts(cfg, s, i, a, key, b);
      RetaskEven(cfg, s, s', i, s'.tasks[i], key, b);
    }
  }

  lemma PutShifts(cfg: Config, s: State, i: nat, a: nat, key: Key, b: nat)
    requires Enabled(cfg, s, Put(i, a))
    ensures (var s' := Apply(cfg, s, Put(i, a));
             Received(s', key, b) + LeftOf(key, b)(s'.tasks[i]) == Received(s, key, b) + LeftOf(key, b)(s.tasks[i]))
  {
    PutReceives(cfg, s, i, a, key, b);
    PutLeaves(s.tasks[i], a, key, b);
  }

  lemma PutReaches(cfg: Config, s: State, i: nat, a: nat)
    requires Enabled(cfg, s, Put(i, a))
    ensures (var s', t := Apply(cfg, s, Put(i, a)), s.tasks[i];
             && s'.tasks == s.tasks[i := WithPut(t, a)] && (t.key, a) in s.received
             && s'.received == s.received[(t.key, a) := s.received[(t.key, a)] + [t.row]])
  {
  }

  lemma PutReceives(cfg: Config, s: State, i: nat, a: nat, key: Key, b: nat)
    requires Enabled(cfg, s, Put(i, a))
    ensures (var s', t := Apply(cfg, s, Put(i, a)), s.tasks[i];
             && s'.tasks[i] == WithPut(t, a)
             && Received(s', key, b) == Received(s, key, b)
                                       + if key == t.key && b == a then multiset{t.row} else multiset{})
  {
    PutReaches(cfg, s, i, a);
    if key == s.tasks[i].key && b == a { MultisetSnoc(s.received[(key, a)], s.tasks[i].row); }
  }

  lemma PutLeaves(t: Task, a: nat, key: Key, b: nat)
    requires a !in t.put
    ensures LeftOf(key, b)(t) == LeftOf(key, b)(WithPut(t, a))
                                 + if key == t.key && b == a then multiset{t.row} else multiset{}
  {
  }

  lemma MultisetSnoc<V>(s: seq<V>, v: V)
    ensures multiset(s + [v]) == multiset(s) + multiset{v}
  {
  }

  lemma PutMade(cfg: Config, s: State, i: nat, a: nat)
    requires Made(cfg, s) && Enabled(cfg, s, Put(i, a))
    ensures Made(cfg, Apply(cfg, s, Put(i, a)))
  {
    var s' := Apply(cfg, s, Put(i, a));
    assert s'.received.Keys == s.received.Keys;
  }

  lemma PutInv(cfg: Config, s: State, i: nat, a: nat)
    requires Inv(cfg, s) && Enabled(cfg, s, Put(i, a))
    ensures Inv(cfg, Apply(cfg, s, Put(i, a)))
  {
    var s' := Apply(cfg, s, Put(i, a));
    PutEven(cfg, s, i, a);
    PutMade(cfg, s, i, a);
    RetaskStaged(cfg, s, s', i, s'.tasks[i]);
    assert Counted(cfg, s');
  }

  lemma FinishStarting(cfg: Config, s: State, i: nat)
    requires Enabled(cfg, s, Finish(i))
    ensures (var s' := Apply(cfg, s, Finish(i));
             && (forall k, j: nat ::
                  Starting(s', k, j) <==> j < |s'.tasks| && Starting(s, k, if j < i then j else j + 1))
             && (forall k :: HasInit(s, k) <==> HasInit(s', k) || Starting(s, k, i)))
  {
    var s' := Apply(cfg, s, Finish(i));
    forall k
      ensures HasInit(s, k) <==> HasInit(s', k) || Starting(s, k, i)
    {
      if j: nat :| Starting(s, k, j) {
        if j != i { assert Starting(s', k, if j < i then j else j - 1); }
      }
      if j: nat :| Starting(s', k, j) { assert Starting(s, k, if j < i then j else j + 1); }
    }
  }

  lemma FinishInitialized(cfg: Config, s: State, i: nat)
    requires Staged(cfg, s) && Enabled(cfg, s, Finish(i))
    ensures (var s' := Apply(cfg, s, Finish(i)); forall k :: k in s'.initialized <==> HasInit(s', k) || k in s'.groups)
  {
    FinishStarting(cfg, s, i);
    assert s.tasks[i].Init? ==> Starting(s, s.tasks[i].key, i);
  }

  lemma FinishStages(cfg: Config, s: State, i: nat)
    requires Staged(cfg, s) && Enabled(cfg, s, Finish(i))
    ensures (var s' := Apply(cfg, s, Finish(i));
             && (forall k, j: nat :: Starting(s', k, j) ==> k !in s'.groups)
             && forall k, j: nat, l: nat :: Starting(s', k, j) && Starting(s', k, l) ==> j == l)
  {
    var s', t := Apply(cfg, s, Finish(i)), s.tasks[i];
    FinishStarting(cfg, s, i);
    assert t.Init? ==> Starting(s, t.key, i);
    forall k, j: nat, l: nat | Starting(s', k, j) && Starting(s', k, l)
      ensures j == l
    {
      assert (if j < i then j else j + 1) == (if l < i then l else l + 1);
    }
    forall k, j: nat | Starting(s', k, j) ensures k !in s'.groups { assert Starting(s, k, if j < i then j else j + 1); }
  }

  lemma FinishStaged(cfg: Config, s: State, i: nat)
    requires Staged(cfg, s) && Enabled(cfg, s, Finish(i))
    ensures Staged(cfg, Apply(cfg, s, Finish(i)))
  {
    FinishInitialized(cfg, s, i);
    FinishStages(cfg, s, i);
    assert s.tasks[i].Init? ==> Starting(s, s.tasks[i].key, i);
  }

  lemma FinishMade(cfg: Config, s: State, i: nat)
    requires Made(cfg, s) && Enabled(cfg, s, Finish(i))
    ensures Made(cfg, Apply(cfg, s, Finish(i)))
  {
    var s', t := Apply(cfg, s, Finish(i)), s.tasks[i];
    forall key, a: nat | key in s'.groups && a < |cfg.names|
      ensures (key, a) in s'.received
    {
      if key !in s.groups { assert a in t.put; }
    }
    forall j | 0 <= j < |s'.tasks| ensures s'.tasks[j] == s.tasks[if j < i then j else j + 1] {}
  }

  lemma FinishInv(cfg: Config, s: State, i: nat)
    requires Inv(cfg, s) && Enabled(cfg, s, Finish(i))
    ensures Inv(cfg, Apply(cfg, s, Finish(i)))
  {
    var s' := Apply(cfg, s, Finish(i));
    FinishStaged(cfg, s, i);
    FinishMade(cfg, s, i);
    forall key, b: nat | b < |cfg.names| ensures EvenAt(cfg, s', key, b) { FinishEven(cfg, s, i, key, b); }
    assert Counted(cfg, s');
  }

  lemma FinishEven(cfg: Config, s: State, i: nat, key: Key, b: nat)
    requires Even(cfg, s) && Enabled(cfg, s, Finish(i)) && b < |cfg.names|
    ensures EvenAt(cfg, Apply(cfg, s, Finish(i)), key, b)
  {
    assert EvenAt(cfg, s, key, b);
    NothingLeft(s.tasks, i, key, b);
  }

  lemma NothingLeft(ts: seq<Task>, i: nat, key: Key, b: nat)
    requires i < |ts| && b in ts[i].put
    ensures Left(Without(ts, i), key, b) == Left(ts, key, b)
  {
    SumBagAt(LeftOf(key, b), ts, i, ts[i]);
    assert LeftOf(key, b)(ts[i]) == multiset{};
  }

  lemma SettleInv(cfg: Config, s: State, key: Key)
    requires Inv(cfg, s) && Enabled(cfg, s, Settle(key))
    ensures Inv(cfg, Apply(cfg, s, Settle(key)))
  {
    var s' := Apply(cfg, s, Settle(key));
    forall k, i: nat ensures Starting(s', k, i) <==> Starting(s, k, i) {}
    forall k ensures HasInit(s', k) <==> HasInit(s, k) {
      if HasInit(s, k) { var i: nat :| Starting(s, k, i); assert Starting(s', k, i); }
    }
    forall k, a: nat | a < |cfg.names| ensures EvenAt(cfg, s', k, a) { assert EvenAt(cfg, s, k, a); }
    SameRows(cfg, s, s');
  }

  /** The rows depend on the groups and on what the aggregators have received. */
  lemma SameRows(cfg: Config, s: State, s': State)
    requires s'.groups == s.groups && s'.received == s.received
    ensures Rows(cfg, s') == Rows(cfg, s)
  {
    forall key, row { SameAggregated(cfg, s, s', key, row, 0); }
  }

  lemma {:induction false} SameAggregated(cfg: Config, s: State, s': State, key: Key, row: Mapping, a: nat)
    requires s'.received == s.received && a <= |cfg.names|
    ensures Aggregated(cfg, s', key, row, a) == Aggregated(cfg, s, key, row, a)
    decreases |cfg.names| - a
  {
    if a < |cfg.names| {
      var r := cfg.result(a, if (key, a) in s.received then s.received[(key, a)] else []);
      SameAggregated(cfg, s, s', key, if r.Some? then row[cfg.names[a] := r.value] else row, a + 1);
    }
  }

  lemma EndInv(cfg: Config, s: State, a: Action)
    requires Inv(cfg, s) && Enabled(cfg, s, a) && (a.Collect? || a.Resolve?)
    ensures Inv(cfg, Apply(cfg, s, a))
  {
    var s' := Apply(cfg, s, a);
    forall k, i: nat ensures Starting(s', k, i) <==> Starting(s, k, i) {}
    forall k ensures HasInit(s', k) <==> HasInit(s, k) {
      if HasInit(s, k) { var i: nat :| Starting(s, k, i); assert Starting(s', k, i); }
    }
    forall k, b: nat | b < |cfg.names| ensures EvenAt(cfg, s', k, b) { assert EvenAt(cfg, s, k, b); }
    SameRows(cfg, s, s');
  }

  lemma StepInv(cfg: Config, s: State, a: Action)
    requires Inv(cfg, s) && Enabled(cfg, s, a)
    ensures Inv(cfg, Apply(cfg, s, a))
  {
    match a
    case Consume(row) => ConsumeEven(cfg, s, row); ConsumeStaged(cfg, s, row);
    case Create(i, a) => CreateInv(cfg, s, i, a);
    case Put(i, a) => PutInv(cfg, s, i, a);
    case Finish(i) => FinishInv(cfg, s, i);
    case Settle(key) => SettleInv(cfg, s, key);
    case Collect => EndInv(cfg, s, a);
    case Resolve => EndInv(cfg, s, a);
  }

  ghost predicate Steps(cfg: Config, s: State, s': State) {
    exists a :: Enabled(cfg, s, a) && s' == Apply(cfg, s, a)
  }

  ghost predicate Run(cfg: Config, trace: seq<State>) {
    && |trace| > 0 && trace[0] == Start()
    && forall k :: 0 <= k < |trace| - 1 ==> Steps(cfg, trace[k], trace[k + 1])
  }

  lemma LastStep(cfg: Config, trace: seq<State>) returns (a: Action)
    requires Run(cfg, trace) && |trace| > 1
    ensures Run(cfg, trace[..|trace| - 1])
    ensures Enabled(cfg, trace[|trace| - 2], a) && trace[|trace| - 1] == Apply(cfg, trace[|trace| - 2], a)
  {
    assert Steps(cfg, trace[|trace| - 2], trace[|trace| - 1]);
    a :| Enabled(cfg, trace[|trace| - 2], a) && trace[|trace| - 1] == Apply(cfg, trace[|trace| - 2], a);
  }

  lemma {:induction false} RunInv(cfg: Config, trace: seq<State>)
    requires Run(cfg, trace)
    ensures Inv(cfg, trace[|trace| - 1])
  {
    if |trace| == 1 {
      StartInv(cfg);
    } else {
      var a := LastStep(cfg, trace);
      RunInv(cfg, trace[..|trace| - 1]);
      StepInv(cfg, trace[|trace| - 2], a);
    }
  }

  /** What holds when the rows are handed over. */
  ghost predicate Finished(cfg: Config, s: State) {
    && s.resolverSet && s.tasks == []
    && (forall key, a: nat :: key in s.groups && a < |cfg.names| ==>
          (key, a) in s.received && multiset(s.received[(key, a)]) == RowsOf(cfg, s.consumed, key))
    && (forall key :: key in s.groups <==> exists row :: row in s.consumed && KeyOf(cfg, row) == key)
    && (forall i, j :: 0 <= i < j < |s.groups| ==> s.groups[i] != s.groups[j])
  }

  /** Whatever the interleaving: the collection begins at most once, with the resolver in place, after every consumed
      row has been put exactly once into each aggregator of its group; there is then one group per key. */
  lemma CollectsExactly(cfg: Config, trace: seq<State>)
    requires Run(cfg, trace)
    ensures (var s := trace[|trace| - 1];
             && |s.results| <= s.collecting <= 1
             && (s.collecting == 1 ==> Finished(cfg, s))
             && (s.results != [] ==> s.results == [Rows(cfg, s)]))
    ensures (var s := trace[|trace| - 1];
             s.collecting == 1 ==> |Rows(cfg, s)| == if s.consumed == [] && cfg.vars == {} then 1 else |s.groups|)
  {
    var s := trace[|trace| - 1];
    RunInv(cfg, trace);
    if s.collecting == 1 {
      forall key, a: nat | key in s.groups && a < |cfg.names|
        ensures (key, a) in s.received && multiset(s.received[(key, a)]) == RowsOf(cfg, s.consumed, key)
      {
        assert EvenAt(cfg, s, key, a);
      }
      forall key ensures !HasInit(s, key) {}
      if s.groups != [] { assert s.groups[0] in s.initialized; }
      if s.consumed != [] { assert s.consumed[0] in s.consumed && KeyOf(cfg, s.consumed[0]) in s.groups; }
    }
  }

  /** Nothing is left undone: after `collectResults` some step is possible until the rows have been handed over. */
  lemma NeverStuck(cfg: Config, trace: seq<State>)
    requires Run(cfg, trace) && trace[|trace| - 1].called && trace[|trace| - 1].results == []
    ensures CanStep(cfg, trace[|trace| - 1])
  {
    var s := trace[|trace| - 1];
    RunInv(cfg, trace);
    if s.tasks == [] {
      assert Enabled(cfg, s, Resolve);
    } else if s.settling != {} {
      var key :| key in s.settling;
      assert Enabled(cfg, s, Settle(key));
    } else if i: nat, key :| Starting(s, key, i) {
      TaskMoves(cfg, s, i);
    } else {
      assert s.tasks[0].key in s.initialized;
      TaskMoves(cfg, s, 0);
    }
  }

  ghost predicate CanStep(cfg: Config, s: State) {
    exists a :: Enabled(cfg, s, a)
  }

  lemma TaskMoves(cfg: Config, s: State, i: nat)
    requires Inv(cfg, s) && i < |s.tasks| && (s.tasks[i].Init? || s.tasks[i].key in s.ready)
    ensures CanStep(cfg, s)
  {
    var t := s.tasks[i];
    if a: nat :| a < |cfg.names| && a !in t.put {
      if t.Init? && a !in t.created { assert Enabled(cfg, s, Create(i, a)); }
      else { assert Enabled(cfg, s, Put(i, a)); }
    } else {
      assert Enabled(cfg, s, Finish(i));
    }
  }

  // ----- termination -----

  function UpTo(n: nat): (r: set<nat>)
    ensures forall a: nat :: a in r <==> a < n
  {
    if n == 0 then {} else UpTo(n - 1) + {n - 1}
  }

  function Aggregates(cfg: Config): set<nat> { UpTo(|cfg.names|) }

  function Work(cfg: Config): Task -> nat {
    (t: Task) => match t
      case Init(_, _, created, put) => |Aggregates(cfg) - created| + |Aggregates(cfg) - put| + 2
      case Feed(_, _, put) => |Aggregates(cfg) - put| + 1
  }

  /** How many steps can still follow, apart from consuming more rows and asking for the results. */
  function Remaining(cfg: Config, s: State): nat {
    SumSeq(Work(cfg), s.tasks) + |s.settling| + if s.results == [] then 1 else 0
  }

  lemma OneLess(all: set<nat>, done: set<nat>, a: nat)
    requires a in all && a !in done
    ensures |all - (done + {a})| == |all - done| - 1
  {
    assert all - (done + {a}) == (all - done) - {a};
  }

  lemma CreateProgress(cfg: Config, s: State, i: nat, a: nat)
    requires Enabled(cfg, s, Create(i, a))
    ensures Remaining(cfg, Apply(cfg, s, Create(i, a))) < Remaining(cfg, s)
  {
    OneLess(Aggregates(cfg), s.tasks[i].created, a);
    SumSeqAt(Work(cfg), s.tasks, i, Apply(cfg, s, Create(i, a)).tasks[i]);
  }

  lemma PutProgress(cfg: Config, s: State, i: nat, a: nat)
    requires Enabled(cfg, s, Put(i, a))
    ensures Remaining(cfg, Apply(cfg, s, Put(i, a))) < Remaining(cfg, s)
  {
    OneLess(Aggregates(cfg), s.tasks[i].put, a);
    SumSeqAt(Work(cfg), s.tasks, i, WithPut(s.tasks[i], a));
  }

  lemma FinishProgress(cfg: Config, s: State, i: nat)
    requires Enabled(cfg, s, Finish(i))
    ensures Remaining(cfg, Apply(cfg, s, Finish(i))) < Remaining(cfg, s)
  {
    SumSeqAt(Work(cfg), s.tasks, i, s.tasks[i]);
  }

  /** Every other step uses up some of what remains, so the rows are handed over after finitely many. */
  lemma StepProgress(cfg: Config, s: State, a: Action)
    requires Inv(cfg, s) && Enabled(cfg, s, a) && !a.Consume? && !a.Collect?
    ensures Remaining(cfg, Apply(cfg, s, a)) < Remaining(cfg, s)
  {
    match a
    case Create(i, b) => CreateProgress(cfg, s, i, b);
    case Put(i, b) => PutProgress(cfg, s, i, b);
    case Finish(i) => FinishProgress(cfg, s, i);
    case Settle(key) =>
    case Resolve =>
  }
}
