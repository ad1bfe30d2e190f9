/** The iterator object itself: its event handlers are the steps of the state machine in `PathIterator`. */
module PathIteratorClass {
  import opened Terms
  import opened PathIterator

  /** `s'` results from `s` by reading one item from each of the listed running sub-queries, in that order. */
  ghost predicate ReadsTo(cfg: Config, s: State, order: seq<nat>, s': State)
    decreases |order|
  {
    if order == [] then s' == s
    else Enabled(cfg, s, Read(order[0])) && ReadsTo(cfg, Apply(cfg, s, Read(order[0])), order[1..], s')
  }

  lemma {:induction false} ReadsMore(cfg: Config, s: State, order: seq<nat>, s': State, i: nat)
    requires ReadsTo(cfg, s, order, s') && Enabled(cfg, s', Read(i))
    ensures ReadsTo(cfg, s, order + [i], Apply(cfg, s', Read(i)))
    decreases |order|
  {
    if order == [] {
      assert order + [i] == [i] && [i][1..] == [];
    } else {
      assert (order + [i])[1..] == order[1..] + [i];
      ReadsMore(cfg, Apply(cfg, s, Read(order[0])), order[1..], s', i);
    }
  }

  function Sum(ns: seq<nat>): nat {
    if ns == [] then 0 else ns[0] + Sum(ns[1..])
  }

  lemma {:induction false} SumLess(ns: seq<nat>, i: nat)
    requires i < |ns| && ns[i] > 0
    ensures Sum(ns[i := ns[i] - 1]) == Sum(ns) - 1
  {
    if i > 0 {
      SumLess(ns[1..], i - 1);
      assert ns[i := ns[i] - 1][1..] == ns[1..][i - 1 := ns[i] - 1];
    } else {
      assert ns[i := ns[i] - 1][1..] == ns[1..];
    }
  }

  class PathVariableObjectIterator {
    const cfg: Config
    var termHashes: set<Term>
    var buffer: seq<Term>
    var pendingOperations: seq<Term>
    var runningOperations: seq<Running>
    var kick: Option<Term>
    var opening: Option<Term>
    var started: bool
    var closed: bool
    ghost var issued: seq<Term>

    ghost function Now(): State
      reads this
    {
      State(termHashes, buffer, pendingOperations, runningOperations, kick, opening, started, closed, issued)
    }

    constructor (cfg: Config)
      ensures this.cfg == cfg && Now() == Init(cfg)
    {
      this.cfg := cfg;
      termHashes, buffer, pendingOperations, runningOperations := {}, [], [], [];
      kick, opening, started, closed, issued := None, None, false, false, [];
      new;
      var _ := Push(cfg.subject, cfg.emitFirst);
    }

    method Push(item: Term, pushAsResult: bool) returns (pushed: bool)
      modifies this
      ensures Now() == PathIterator.Push(old(Now()), item, pushAsResult)
      ensures pushed <==> !pushAsResult || item !in old(termHashes)
    {
      if pushAsResult {
        if item in termHashes { return false; }
      }
      pendingOperations := pendingOperations + [item];
      if pushAsResult {
        termHashes := termHashes + {item};
        buffer := buffer + [item];
      }
      return true;
    }

    /** `getProperty('metadata')`: kick-starts the first sub-query. */
    method GetMetadata()
      requires !closed && (!started ==> pendingOperations != [])
      modifies this
      ensures Now() == if old(started) then old(Now()) else Apply(cfg, old(Now()), Kick)
    {
      if !started {
        var item := PopPending();
        kick := Some(item);
      }
    }

    /** The synchronous head of `startNextOperation`. */
    method PopPending() returns (item: Term)
      requires pendingOperations != []
      modifies this
      ensures item == old(pendingOperations)[|old(pendingOperations)| - 1]
      ensures Now() == Pop(old(Now()))
    {
      started := true;
      item := pendingOperations[|pendingOperations| - 1];
      pendingOperations := pendingOperations[..|pendingOperations| - 1];
      issued := issued + [item];
    }

    /** The rest of `startNextOperation`, once the sub-query has answered, for the kick-start and for the reader. */
    method Register(byReader: bool)
      requires !closed && if byReader then opening.Some? else kick.Some?
      modifies this
      ensures Now() == Apply(cfg, old(Now()), if byReader then OpenDone else KickDone)
    {
      var node := if byReader then opening.value else kick.value;
      runningOperations := runningOperations + [Running(node, cfg.step(node))];
      if byReader { opening := None; } else { kick := None; }
    }

    /** One turn of the loop that opens as many sub-queries as possible; false when it is over. */
    method OpenNext() returns (did: bool)
      requires !closed && opening.None?
      modifies this
      ensures did <==> |old(runningOperations)| < cfg.max && old(pendingOperations) != []
      ensures Now() == if did then Apply(cfg, old(Now()), Open) else old(Now())
    {
      if |runningOperations| < cfg.max {
        if |pendingOperations| == 0 { return false; }
        var item := PopPending();
        opening := Some(item);
        return true;
      }
      return false;
    }

    method OnEnd(i: nat)
      requires Enabled(cfg, Now(), End(i))
      modifies this
      ensures Now() == Apply(cfg, old(Now()), End(i))
    {
      runningOperations := runningOperations[..i] + runningOperations[i + 1..];
    }

    /** One item of a running sub-query; false if it had been emitted before. */
    method ReadOne(i: nat) returns (ok: bool)
      requires !closed && opening.None? && i < |runningOperations| && runningOperations[i].rest != []
      modifies this
      ensures Enabled(cfg, old(Now()), Read(i)) && Now() == Apply(cfg, old(Now()), Read(i))
      ensures !closed && opening.None? && |buffer| == |old(buffer)| + (if ok then 1 else 0)
      ensures |runningOperations| == |old(runningOperations)|
      ensures forall k :: 0 <= k < |runningOperations| ==>
        |runningOperations[k].rest| == |old(runningOperations)[k].rest| - (if k == i then 1 else 0)
    {
      var item := runningOperations[i].rest[0];
      runningOperations := runningOperations[i := Running(runningOperations[i].node, runningOperations[i].rest[1..])];
      ok := Push(item, true);
    }

    /** One pass over the running sub-queries, those added first first: `ready[i]` items can be had from the `i`-th of
        them at this moment. The reads so far, since `start`, are in `before`. */
    method ReadPass(count: nat, ready: seq<nat>, ghost start: State, ghost before: seq<nat>)
      returns (left: nat, still: seq<nat>, pushSucceeded: bool, ghost order: seq<nat>)
      requires !closed && opening.None? && |ready| == |runningOperations|
      requires forall i :: 0 <= i < |ready| ==> ready[i] <= |runningOperations[i].rest|
      requires ReadsTo(cfg, start, before, Now())
      modifies this
      ensures !closed && opening.None? && |still| == |ready| == |runningOperations|
      ensures forall i :: 0 <= i < |still| ==> still[i] <= |runningOperations[i].rest|
      ensures ReadsTo(cfg, start, order, Now())
      ensures left <= count && |buffer| == |old(buffer)| + count - left
      ensures Sum(still) <= Sum(ready) && (Sum(still) == Sum(ready) ==> pushSucceeded && left == count)
      ensures pushSucceeded && left == count ==> left == 0 || forall i :: 0 <= i < |still| ==> still[i] == 0
    {
      left, still, pushSucceeded, order := count, ready, true, before;
      var i := 0;
      while i < |runningOperations| && left > 0
        invariant 0 <= i <= |runningOperations|
        invariant !closed && opening.None? && |still| == |ready| == |runningOperations|
        invariant forall k :: 0 <= k < |still| ==> still[k] <= |runningOperations[k].rest|
        invariant ReadsTo(cfg, start, order, Now())
        invariant left <= count && |buffer| == |old(buffer)| + count - left
        invariant Sum(still) <= Sum(ready) && (Sum(still) == Sum(ready) ==> pushSucceeded && left == count)
        invariant pushSucceeded && left == count ==> forall k :: 0 <= k < i ==> still[k] == 0
      {
        if still[i] > 0 {
          SumLess(still, i);
          ReadsMore(cfg, start, order, Now(), i);
          var ok := ReadOne(i);
          still, order := still[i := still[i] - 1], order + [i];
          if ok { left := left - 1; } else { pushSucceeded := false; }
        }
        i := i + 1;
      }
    }

    /** The reading loop: it performs reads only, delivers no more than asked, and stops short only when nothing is
        ready any more. */
    method ReadItems(count: nat, ready: seq<nat>) returns (left: nat, still: seq<nat>, ghost order: seq<nat>)
      requires !closed && opening.None? && |ready| == |runningOperations|
      requires forall i :: 0 <= i < |ready| ==> ready[i] <= |runningOperations[i].rest|
      modifies this
      ensures ReadsTo(cfg, old(Now()), order, Now())
      ensures left <= count && |buffer| == |old(buffer)| + count - left
      ensures |still| == |ready| && (left == 0 || forall i :: 0 <= i < |still| ==> still[i] == 0)
    {
      left, still, order := count, ready, [];
      var lastCount := 0;
      var pushSucceeded := true;
      while !pushSucceeded || lastCount != left
        invariant !closed && opening.None? && |still| == |ready| == |runningOperations|
        invariant forall i :: 0 <= i < |still| ==> still[i] <= |runningOperations[i].rest|
        invariant ReadsTo(cfg, old(Now()), order, Now())
        invariant left <= count && |buffer| == |old(buffer)| + count - left
        invariant pushSucceeded && lastCount == left ==> left == 0 || forall i :: 0 <= i < |still| ==> still[i] == 0
        invariant !pushSucceeded ==> lastCount >= left
        decreases Sum(still), if !pushSucceeded then 2 else if lastCount != left then 1 else 0
      {
        if pushSucceeded { lastCount := left; }
        left, still, pushSucceeded, order := ReadPass(left, still, old(Now()), order);
      }
    }

    method CloseIfNeeded()
      requires !closed && opening.None?
      modifies this
      ensures Now() == if Enabled(cfg, old(Now()), Close) then Apply(cfg, old(Now()), Close) else old(Now())
    {
      if |runningOperations| == 0 && |pendingOperations| == 0 { closed := true; }
    }
  }
}
