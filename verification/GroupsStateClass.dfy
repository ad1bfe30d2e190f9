/** The object itself; each stretch between two awaits is one step of the state machine in `GroupsState`. */
module GroupsStateClass {
  import opened Terms
  import GS = GroupsState

  class GroupsState {
    const cfg: GS.Config
    var groups: seq<GS.Key>
    var groupsInitializer: set<GS.Key>
    var settling: set<GS.Key>
    var ready: set<GS.Key>
    var aggregators: map<(GS.Key, nat), seq<Mapping>>
    var waitCounter: int
    var waitResolver: bool
    var resultHasBeenCalled: bool
    var tasks: seq<GS.Task>
    var collecting: nat
    var results: seq<seq<Mapping>>
    ghost var consumed: seq<Mapping>

    ghost function Now(): GS.State
      reads this
    {
      GS.State(groupsInitializer, settling, ready, groups, aggregators, tasks, waitCounter, resultHasBeenCalled,
               waitResolver, collecting, results, consumed)
    }

    constructor (cfg: GS.Config)
      ensures this.cfg == cfg && Now() == GS.Start()
    {
      this.cfg := cfg;
      groups, groupsInitializer, settling, ready, aggregators, tasks := [], {}, {}, {}, map[], [];
      waitCounter, waitResolver, resultHasBeenCalled, collecting, results, consumed := 1, false, false, 0, [], [];
    }

    /** False is the rejection of a call that comes after `CollectResults`. */
    method ConsumeBindings(bindings: Mapping) returns (accepted: bool)
      modifies this
      ensures accepted <==> !old(resultHasBeenCalled)
      ensures Now() == if accepted then GS.Apply(cfg, old(Now()), GS.Consume(bindings)) else old(Now())
    {
      if resultHasBeenCalled { return false; }
      waitCounter := waitCounter + 1;
      var grouper := GS.KeyOf(cfg, bindings);
      if grouper in groupsInitializer {
        tasks := tasks + [GS.Feed(grouper, bindings, {})];
      } else {
        tasks := tasks + [GS.Init(grouper, bindings, {}, {})];
        groupsInitializer := groupsInitializer + {grouper};
      }
      consumed := consumed + [bindings];
      return true;
    }

    method SubtractWaitCounterAndCollect()
      modifies this
      ensures Now() == GS.Subtract(old(Now()))
    {
      waitCounter := waitCounter - 1;
      if waitCounter == 0 { collecting := collecting + 1; }
    }

    /** An aggregator factory has answered the initialiser of a group. */
    method OnAggregator(i: nat, a: nat)
      requires GS.Enabled(cfg, Now(), GS.Create(i, a))
      modifies this
      ensures Now() == GS.Apply(cfg, old(Now()), GS.Create(i, a))
    {
      aggregators := aggregators[(tasks[i].key, a) := []];
      tasks := tasks[i := GS.Init(tasks[i].key, tasks[i].row, tasks[i].created + {a}, tasks[i].put)];
    }

    method PutBindings(i: nat, a: nat)
      requires GS.Enabled(cfg, Now(), GS.Put(i, a))
      modifies this
      ensures Now() == GS.Apply(cfg, old(Now()), GS.Put(i, a))
    {
      var key := tasks[i].key;
      aggregators := aggregators[(key, a) := aggregators[(key, a)] + [tasks[i].row]];
      tasks := tasks[i := GS.WithPut(tasks[i], a)];
    }

    /** All aggregators of a task have taken its row. */
    method OnPut(i: nat)
      requires GS.Enabled(cfg, Now(), GS.Finish(i))
      modifies this
      ensures Now() == GS.Apply(cfg, old(Now()), GS.Finish(i))
    {
      if tasks[i].Init? {
        groups := groups + [tasks[i].key];
        settling := settling + {tasks[i].key};
      }
      tasks := tasks[..i] + tasks[i + 1..];
      SubtractWaitCounterAndCollect();
    }

    /** Those awaiting a group's initialiser get to see that it is over. */
    method OnInitialized(key: GS.Key)
      requires GS.Enabled(cfg, Now(), GS.Settle(key))
      modifies this
      ensures Now() == GS.Apply(cfg, old(Now()), GS.Settle(key))
    {
      settling := settling - {key};
      ready := ready + {key};
    }

    /** False is the rejection of a second call. */
    method CollectResults() returns (accepted: bool)
      modifies this
      ensures accepted <==> !old(resultHasBeenCalled)
      ensures Now() == if accepted then GS.Apply(cfg, old(Now()), GS.Collect) else old(Now())
    {
      if resultHasBeenCalled { return false; }
      resultHasBeenCalled := true;
      waitResolver := true;
      SubtractWaitCounterAndCollect();
      return true;
    }

    /** The collection: a row per group, looped over in the order of the groups. */
    method HandleResultCollection()
      requires GS.Enabled(cfg, Now(), GS.Resolve)
      modifies this
      ensures Now() == GS.Apply(cfg, old(Now()), GS.Resolve)
    {
      var rows: seq<Mapping> := [];
      for i := 0 to |groups|
        invariant Now() == old(Now())
        invariant |rows| == i
        invariant forall j :: 0 <= j < i ==> rows[j] == GS.Aggregated(cfg, Now(), groups[j], groups[j], 0)
      {
        var row := AggregatorRow(groups[i], groups[i]);
        rows := rows + [row];
      }
      if |rows| == 0 && cfg.vars == {} {
        var single := AggregatorRow(map[], map[]);
        rows := [single];
      }
      assert rows == GS.Rows(cfg, Now());
      results := results + [rows];
    }

    method AggregatorRow(key: GS.Key, start: Mapping) returns (row: Mapping)
      ensures row == GS.Aggregated(cfg, Now(), key, start, 0)
    {
      row := start;
      for a := 0 to |cfg.names|
        invariant GS.Aggregated(cfg, Now(), key, row, a) == GS.Aggregated(cfg, Now(), key, start, 0)
      {
        var value := cfg.result(a, if (key, a) in aggregators then aggregators[(key, a)] else []);
        if value.Some? { row := row[cfg.names[a] := value.value]; }
      }
    }
  }
}
