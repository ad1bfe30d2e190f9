/** The objects behind the searches: each handler does exactly what the state machine in `StarSearch` says. */
module StarSearchClass {
  import opened Terms
  import opened StarSearch

  /** The promises shared by all searches of one query. */
  class SharedTable {
    var entries: Cache

    constructor ()
      ensures entries == map[]
    {
      entries := map[];
    }
  }

  class Traversal {
    const cfg: Config
    const shared: SharedTable
    const start: Term
    var seen: set<Term>
    var pushed: seq<Term>
    var counter: int
    var closes: nat
    var tasks: seq<Task>

    ghost function Now(): Search
      reads this
    {
      Search(start, seen, pushed, counter, closes, tasks)
    }

    ghost function Both(): (Cache, Search)
      reads this, shared
    {
      (shared.entries, Now())
    }

    constructor (cfg: Config, shared: SharedTable, start: Term)
      ensures this.cfg == cfg && this.shared == shared && this.start == start && Now() == Fresh(start)
    {
      this.cfg, this.shared, this.start := cfg, shared, start;
      seen, pushed, counter, closes, tasks := {}, [], 0, 0, [];
    }

    /** The call for one object value, up to its first `await`. */
    method Visit(objectVal: Term)
      modifies this, shared
      ensures Both() == StarSearch.Visit(cfg, old(shared.entries), old(Now()), objectVal)
    {
      if objectVal in seen { return; }
      counter := counter + 1;
      seen := seen + {objectVal};
      pushed := pushed + [objectVal];
      if objectVal in shared.entries {
        tasks := tasks + [Wait(objectVal)];
      } else {
        tasks := tasks + [Fetch(objectVal, [], cfg.step(objectVal))];
        shared.entries := shared.entries[objectVal := None];
      }
    }

    method Finished(i: nat)
      requires i < |tasks|
      modifies this
      ensures Now() == Over(old(Now()), i)
    {
      tasks := tasks[..i] + tasks[i + 1..];
      counter := counter - 1;
      if counter == 0 { closes := closes + 1; }
    }

    /** The sub-query's `data` handler. */
    method OnData(i: nat)
      requires Ready(shared.entries, Now(), Data(0, i))
      modifies this, shared
      ensures Both() == Local(cfg, old(shared.entries), old(Now()), Data(0, i))
    {
      var result := tasks[i].rest[0];
      tasks := tasks[i := Fetch(tasks[i].node, tasks[i].got + [result], tasks[i].rest[1..])];
      Visit(result);
    }

    /** The sub-query's `end` handler: the promise is resolved with the neighbours collected. */
    method OnEnd(i: nat)
      requires Ready(shared.entries, Now(), Finish(0, i))
      modifies this, shared
      ensures Both() == Local(cfg, old(shared.entries), old(Now()), Finish(0, i))
    {
      var task := tasks[i];
      Finished(i);
      shared.entries := shared.entries[task.node := Some(task.got)];
    }

    /** The shared promise has been resolved. */
    method OnResolved(i: nat)
      requires Ready(shared.entries, Now(), Resume(0, i))
      modifies this
      ensures Both() == Local(cfg, old(shared.entries), old(Now()), Resume(0, i))
    {
      tasks := tasks[i := Loop(tasks[i].node, shared.entries[tasks[i].node].value, None)];
    }

    /** One turn of the loop over the neighbours found in the shared table, once the call of the turn before is over. */
    method LoopTurn(i: nat) returns (more: bool)
      requires i < |tasks| && tasks[i].Loop? && Free(Now(), tasks[i])
      modifies this, shared
      ensures more <==> old(tasks)[i].rest != []
      ensures Both() == Local(cfg, old(shared.entries), old(Now()), if more then Next(0, i) else Leave(0, i))
    {
      if |tasks[i].rest| > 0 {
        var object' := tasks[i].rest[0];
        tasks := tasks[i := Loop(tasks[i].node, tasks[i].rest[1..], Awaited(shared.entries, seen, object'))];
        Visit(object');
        return true;
      }
      Finished(i);
      return false;
    }
  }
}
