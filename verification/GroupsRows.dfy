/** What is in the rows that grouping hands over, in terms of the rows that were fed to it. */
module GroupsRows {
  import opened Terms
  import opened GroupsState

  /** A run with its steps. */
  ghost predicate Performs(cfg: Config, actions: seq<Action>, trace: seq<State>) {
    && |trace| == |actions| + 1 && trace[0] == Start()
    && forall k :: 0 <= k < |actions| ==>
         Enabled(cfg, trace[k], actions[k]) && trace[k + 1] == Apply(cfg, trace[k], actions[k])
  }

  /** The rows that were fed, in order. */
  function Fed(actions: seq<Action>): seq<Mapping> {
    if actions == [] then []
    else Fed(actions[..|actions| - 1]) + (var a := actions[|actions| - 1]; if a.Consume? then [a.row] else [])
  }

  lemma {:induction false} FedIsConsumed(cfg: Config, actions: seq<Action>, trace: seq<State>)
    requires Performs(cfg, actions, trace)
    ensures trace[|actions|].consumed == Fed(actions)
  {
    if actions != [] {
      var n := |actions| - 1;
      FedIsConsumed(cfg, actions[..n], trace[..n + 1]);
      StepConsumes(cfg, trace[n], actions[n]);
    }
  }

  lemma StepConsumes(cfg: Config, s: State, a: Action)
    requires Enabled(cfg, s, a)
    ensures Apply(cfg, s, a).consumed == s.consumed + if a.Consume? then [a.row] else []
  {
  }

  lemma PerformsRuns(cfg: Config, actions: seq<Action>, trace: seq<State>)
    requires Performs(cfg, actions, trace)
    ensures Run(cfg, trace)
  {
    forall k | 0 <= k < |trace| - 1 ensures Steps(cfg, trace[k], trace[k + 1]) {
      assert Enabled(cfg, trace[k], actions[k]) && trace[k + 1] == Apply(cfg, trace[k], actions[k]);
    }
  }

  /** The group of a row: what it binds of the variables that are grouped by. */
  ghost predicate InGroup(cfg: Config, row: Mapping, key: Key) {
    forall x :: (x in key <==> x in row && x in cfg.vars) && (x in key && x in row ==> key[x] == row[x])
  }

  lemma KeyExactly(cfg: Config, row: Mapping, key: Key)
    ensures KeyOf(cfg, row) == key <==> InGroup(cfg, row, key)
  {
    if InGroup(cfg, row, key) { assert KeyOf(cfg, row).Keys == key.Keys; }
  }

  /** These are the fed rows of the group, each as often as it was fed. */
  ghost predicate RowsOfGroup(cfg: Config, fed: seq<Mapping>, key: Key, rows: seq<Mapping>) {
    forall m :: multiset(rows)[m] == if InGroup(cfg, m, key) then multiset(fed)[m] else 0
  }

  lemma {:induction false} RowsOfAre(cfg: Config, fed: seq<Mapping>, key: Key, m: Mapping)
    ensures RowsOf(cfg, fed, key)[m] == if InGroup(cfg, m, key) then multiset(fed)[m] else 0
  {
    if fed != [] {
      var last := fed[|fed| - 1];
      RowsOfAre(cfg, fed[..|fed| - 1], key, m);
      KeyExactly(cfg, last, key);
      assert fed == fed[..|fed| - 1] + [last];
    }
  }

  /** A row for a group: the group's own bindings, and for each aggregate what it makes of the rows of the group. */
  ghost predicate RowFor(cfg: Config, fed: seq<Mapping>, key: Key, row: Mapping) {
    && (forall x :: x !in cfg.names ==> BoundAs(row, x, if x in key then Some(key[x]) else None))
    && (forall a :: 0 <= a < |cfg.names| ==> AggregateIn(cfg, fed, key, row, a))
  }

  ghost predicate BoundAs(row: Mapping, x: string, value: Option<Term>) {
    (x in row <==> value.Some?) && (x in row ==> row[x] == value.value)
  }

  /** An aggregate without a result leaves its variable as it is in the group. */
  ghost predicate AggregateIn(cfg: Config, fed: seq<Mapping>, key: Key, row: Mapping, a: nat)
    requires a < |cfg.names|
  {
    exists rows :: RowsOfGroup(cfg, fed, key, rows) && AggregateOf(cfg, key, row, a, cfg.result(a, rows))
  }

  ghost predicate AggregateOf(cfg: Config, key: Key, row: Mapping, a: nat, value: Option<Term>)
    requires a < |cfg.names|
  {
    var x := cfg.names[a];
    BoundAs(row, x, if value.Some? then value else if x in key then Some(key[x]) else None)
  }

  predicate Distinct(names: seq<string>) { forall a, b :: 0 <= a < b < |names| ==> names[a] != names[b] }

  /** What aggregate `a` of a group has got. */
  function Got(s: State, key: Key, a: nat): seq<Mapping> { if (key, a) in s.received then s.received[(key, a)] else [] }

  lemma {:induction false} AggregatedAt(cfg: Config, s: State, key: Key, row: Mapping, from: nat, x: string)
    requires from <= |cfg.names| && Distinct(cfg.names)
    ensures (var r := Aggregated(cfg, s, key, row, from);
             && (x !in cfg.names[from..] ==> BoundAs(r, x, if x in row then Some(row[x]) else None))
             && forall a :: from <= a < |cfg.names| && cfg.names[a] == x ==>
                  var value := cfg.result(a, Got(s, key, a));
                  BoundAs(r, x, if value.Some? then value else if x in row then Some(row[x]) else None))
    decreases |cfg.names| - from
  {
    if from < |cfg.names| {
      var value := cfg.result(from, Got(s, key, from));
      var row' := if value.Some? then row[cfg.names[from] := value.value] else row;
      AggregatedAt(cfg, s, key, row', from + 1, x);
      assert cfg.names[from..] == [cfg.names[from]] + cfg.names[from + 1..];
    }
  }

  lemma AggregatedRow(cfg: Config, s: State, fed: seq<Mapping>, key: Key)
    requires Distinct(cfg.names)
    requires forall a: nat :: a < |cfg.names| ==> RowsOfGroup(cfg, fed, key, Got(s, key, a))
    ensures RowFor(cfg, fed, key, Aggregated(cfg, s, key, key, 0))
  {
    var row := Aggregated(cfg, s, key, key, 0);
    assert cfg.names[0..] == cfg.names;
    forall x | x !in cfg.names ensures BoundAs(row, x, if x in key then Some(key[x]) else None) {
      AggregatedAt(cfg, s, key, key, 0, x);
    }
    forall a | 0 <= a < |cfg.names| ensures AggregateIn(cfg, fed, key, row, a) {
      AggregatedAt(cfg, s, key, key, 0, cfg.names[a]);
      assert RowsOfGroup(cfg, fed, key, Got(s, key, a)) && AggregateOf(cfg, key, row, a, cfg.result(a, Got(s, key, a)));
    }
  }

  /** The groups there are: those of the fed rows, or a single one without bindings if there is nothing to group by and
      nothing was fed. */
  ghost predicate IsGroup(cfg: Config, fed: seq<Mapping>, key: Key) {
    (exists row :: row in fed && InGroup(cfg, row, key)) || (fed == [] && cfg.vars == {} && key == map[])
  }

  lemma GroupGot(cfg: Config, s: State, key: Key, a: nat)
    requires Finished(cfg, s) && key in s.groups && a < |cfg.names|
    ensures RowsOfGroup(cfg, s.consumed, key, Got(s, key, a))
  {
    forall m ensures multiset(Got(s, key, a))[m] == if InGroup(cfg, m, key) then multiset(s.consumed)[m] else 0 {
      RowsOfAre(cfg, s.consumed, key, m);
    }
  }

  lemma GroupsAre(cfg: Config, s: State, key: Key)
    requires Finished(cfg, s)
    ensures key in s.groups <==> exists row :: row in s.consumed && InGroup(cfg, row, key)
  {
    if row :| row in s.consumed && KeyOf(cfg, row) == key { KeyExactly(cfg, row, key); }
    if row :| row in s.consumed && InGroup(cfg, row, key) { KeyExactly(cfg, row, key); }
  }

  /** There is one row for each group, which binds what the group binds and, for each aggregate, its result on the
      rows of the group. */
  ghost predicate RowPerGroup(cfg: Config, fed: seq<Mapping>, keys: seq<Key>, rows: seq<Mapping>) {
    && (forall key :: key in keys <==> IsGroup(cfg, fed, key))
    && (forall i, j :: 0 <= i < j < |keys| ==> keys[i] != keys[j])
    && |rows| == |keys| && forall i :: 0 <= i < |keys| ==> RowFor(cfg, fed, keys[i], rows[i])
  }

  lemma ConsumedGrouped(cfg: Config, s: State, row: Mapping)
    requires Finished(cfg, s) && row in s.consumed
    ensures KeyOf(cfg, row) in s.groups
  {
  }

  lemma NothingFed(cfg: Config, s: State)
    requires Finished(cfg, s) && s.groups == [] && Inv(cfg, s)
    ensures s.consumed == [] && forall a: nat :: Got(s, map[], a) == []
  {
    if s.consumed != [] {
      ConsumedGrouped(cfg, s, s.consumed[0]);
      assert false;
    }
    forall key ensures !HasInit(s, key) {}
    assert map[] !in s.initialized;
  }

  lemma LoneRow(cfg: Config, s: State)
    requires Finished(cfg, s) && s.groups == [] && cfg.vars == {} && Inv(cfg, s) && Distinct(cfg.names)
    ensures RowPerGroup(cfg, s.consumed, [map[]], Rows(cfg, s))
  {
    NothingFed(cfg, s);
    AggregatedRow(cfg, s, [], map[]);
    forall key: Key ensures key in [map[]] <==> IsGroup(cfg, [], key) {}
  }

  lemma RowsOfGroups(cfg: Config, s: State)
    requires Finished(cfg, s) && !(s.groups == [] && cfg.vars == {}) && Distinct(cfg.names)
    ensures RowPerGroup(cfg, s.consumed, s.groups, Rows(cfg, s))
  {
    if s.groups != [] { GroupsAre(cfg, s, s.groups[0]); }
    forall key ensures key in s.groups <==> IsGroup(cfg, s.consumed, key) { GroupsAre(cfg, s, key); }
    forall i | 0 <= i < |s.groups|
      ensures RowFor(cfg, s.consumed, s.groups[i], Rows(cfg, s)[i])
    {
      GroupRow(cfg, s, s.groups[i]);
    }
  }

  lemma GroupRow(cfg: Config, s: State, key: Key)
    requires Finished(cfg, s) && key in s.groups && Distinct(cfg.names)
    ensures RowFor(cfg, s.consumed, key, Aggregated(cfg, s, key, key, 0))
  {
    forall a: nat | a < |cfg.names|
      ensures RowsOfGroup(cfg, s.consumed, key, Got(s, key, a))
    {
      GroupGot(cfg, s, key, a);
    }
    AggregatedRow(cfg, s, s.consumed, key);
  }

  /** Whatever the interleaving, exactly one batch of rows is handed over, with a row for each group of the fed rows. */
  lemma RowsHandedOver(cfg: Config, actions: seq<Action>, trace: seq<State>) returns (keys: seq<Key>)
    requires Performs(cfg, actions, trace) && trace[|actions|].results != [] && Distinct(cfg.names)
    ensures (var results := trace[|actions|].results;
             |results| == 1 && RowPerGroup(cfg, Fed(actions), keys, results[0]))
  {
    var s := trace[|actions|];
    FedIsConsumed(cfg, actions, trace);
    PerformsRuns(cfg, actions, trace);
    CollectsExactly(cfg, trace);
    RunInv(cfg, trace);
    if s.groups == [] && cfg.vars == {} {
      keys := [map[]];
      LoneRow(cfg, s);
    } else {
      keys := s.groups;
      RowsOfGroups(cfg, s);
    }
  }
}
