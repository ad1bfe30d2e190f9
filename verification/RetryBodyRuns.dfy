/** What the retry machine achieves: bodies get delivered, and failures get retried. */
module RetryBodyRuns {
  import opened Terms
  import opened RetryBody

  /** Step `k` of a run. */
  ghost predicate StepAt(cfg: Config, trace: seq<State>, k: nat, a: Action) {
    && cfg.limit > 0 && Run(cfg, trace) && k + 1 < |trace|
    && Enabled(cfg, trace[k], a) && trace[k + 1] == Apply(cfg, trace[k], a)
  }

  /** When the current body comes to its end while the output is open, buffered or streamed, the output has ended with
      exactly this body. */
  lemma EndDelivers(cfg: Config, trace: seq<State>, k: nat)
    requires StepAt(cfg, trace, k, End) && !trace[k].done && !trace[k].destroyed
    ensures trace[k + 1].ended && !trace[k + 1].destroyed && trace[k + 1].delivered == cfg.bodies(trace[k].attempts)
    ensures trace[k + 1].attempts == trace[k].attempts
  {
    RunInv(cfg, trace, k);
    assert Body(cfg, trace[k])[..trace[k].position] == Body(cfg, trace[k]);
  }

  /** A failure is retried exactly if the body was still buffered, nobody aborted and attempts are left; otherwise the
      output is destroyed. In neither case is anything delivered. */
  lemma FailRetries(cfg: Config, trace: seq<State>, k: nat, aborted: bool)
    requires StepAt(cfg, trace, k, Fail(aborted)) && !trace[k].done && !trace[k].destroyed
    ensures (var s, s' := trace[k], trace[k + 1];
             && s'.delivered == s.delivered && !s'.ended && !s'.done
             && if s.phase.Buffering? && !aborted && s.attempts < cfg.limit
                then !s'.destroyed && s'.retrying && s'.attempts == s.attempts + 1
                else s'.destroyed && !s'.retrying && s'.attempts == s.attempts)
  {
    RunInv(cfg, trace, k);
  }

  /** The retry: while the output is open a request is made, and its answer is read from the beginning. */
  lemma RetryReads(cfg: Config, trace: seq<State>, k: nat, a: Action)
    requires StepAt(cfg, trace, k, a) && !trace[k].done && !trace[k].destroyed
    ensures (var s, s' := trace[k], trace[k + 1];
             && (a == Request ==> s'.requested && s'.requests == s.requests + 1 && s'.attempts == s.attempts)
             && (a == Response(true) ==>
                   !s'.retrying && !s'.requested && s'.attempts == s.attempts
                   && s'.phase.Buffering? && s'.position == 0)
             && (a == Response(false) ==> s'.destroyed && !s'.retrying))
  {
  }

  /** Data of a body that is buffered within the limit is kept back; from the limit on it is passed on. */
  lemma DataPasses(cfg: Config, trace: seq<State>, k: nat, n: nat)
    requires StepAt(cfg, trace, k, Data(n)) && !trace[k].done && !trace[k].destroyed
    ensures (var s' := trace[k + 1];
             && s'.position == trace[k].position + n && !s'.phase.Detached?
             && (s'.phase.Streaming? <==>
                   trace[k].phase.Streaming? || (cfg.maxBytes.Some? && s'.position > cfg.maxBytes.value))
             && s'.delivered == if s'.phase.Streaming? then cfg.bodies(s'.attempts)[..s'.position] else [])
  {
    RunInv(cfg, trace, k);
    StepInv(cfg, trace[k], Data(n));
  }

  /** Once the output is closed nothing is delivered, requested or retried any more, and it stays closed. */
  lemma ClosedForGood(cfg: Config, trace: seq<State>, k: nat, a: Action)
    requires StepAt(cfg, trace, k, a) && (trace[k].done || trace[k].destroyed)
    ensures (var s, s' := trace[k], trace[k + 1];
             && (s'.done || s'.destroyed) && s'.delivered == s.delivered && s'.ended == s.ended
             && s'.requests == s.requests && s'.attempts == s.attempts && (s'.retrying ==> s.retrying)
             && (a == Request || a == Response(true) || a == Response(false) ==> !s'.retrying && !s'.requested)
             && (s'.phase == s.phase || s'.phase.Detached?))
  {
    RunInv(cfg, trace, k);
  }

  lemma StepTaken(cfg: Config, trace: seq<State>, k: nat) returns (a: Action)
    requires cfg.limit > 0 && Run(cfg, trace) && k + 1 < |trace|
    ensures StepAt(cfg, trace, k, a)
  {
    assert Steps(cfg, trace[k], trace[k + 1]);
    a :| Enabled(cfg, trace[k], a) && trace[k + 1] == Apply(cfg, trace[k], a);
  }

  /** The output has ended, with what `s` has delivered. */
  ghost predicate EndedAs(s: State, t: State) { t.ended && t.delivered == s.delivered && t.destroyed == s.destroyed }

  lemma StepEnded(cfg: Config, s: State, t: State, a: Action)
    requires Inv(cfg, t) && Enabled(cfg, t, a) && EndedAs(s, t)
    ensures EndedAs(s, Apply(cfg, t, a))
  {
  }

  lemma EndedStep(cfg: Config, trace: seq<State>, s: State, k: nat)
    requires cfg.limit > 0 && Run(cfg, trace) && k + 1 < |trace| && EndedAs(s, trace[k])
    ensures EndedAs(s, trace[k + 1])
  {
    RunInv(cfg, trace, k);
    var a := StepTaken(cfg, trace, k);
    StepEnded(cfg, s, trace[k], a);
  }

  /** What has ended stays as it is. */
  lemma {:induction false} EndedForGood(cfg: Config, trace: seq<State>, j: nat, k: nat)
    requires cfg.limit > 0 && Run(cfg, trace) && j <= k < |trace| && trace[j].ended
    ensures EndedAs(trace[j], trace[k])
    decreases k
  {
    if j < k {
      EndedForGood(cfg, trace, j, k - 1);
      EndedStep(cfg, trace, trace[j], k - 1);
    }
  }

  // ----- whole runs -----

  /** A run with its steps. */
  ghost predicate Performs(cfg: Config, actions: seq<Action>, trace: seq<State>) {
    && cfg.limit > 0 && |trace| == |actions| + 1 && trace[0] == Start()
    && forall k :: 0 <= k < |actions| ==>
         Enabled(cfg, trace[k], actions[k]) && trace[k + 1] == Apply(cfg, trace[k], actions[k])
  }

  lemma PerformsStep(cfg: Config, actions: seq<Action>, trace: seq<State>, k: nat)
    requires Performs(cfg, actions, trace) && k < |actions|
    ensures StepAt(cfg, trace, k, actions[k])
  {
    forall j | 0 <= j < |trace| - 1 ensures Steps(cfg, trace[j], trace[j + 1]) {
      assert Enabled(cfg, trace[j], actions[j]) && trace[j + 1] == Apply(cfg, trace[j], actions[j]);
    }
  }

  function Failures(actions: seq<Action>): nat {
    if actions == [] then 0
    else Failures(actions[..|actions| - 1]) + if actions[|actions| - 1].Fail? then 1 else 0
  }

  /** Nobody aborts or closes, repeated requests are answered, and bodies fail only while they are buffered. */
  ghost predicate Undisturbed(actions: seq<Action>, trace: seq<State>)
    requires |trace| == |actions| + 1
  {
    forall k :: 0 <= k < |actions| ==>
      && actions[k] != CloseOutput && actions[k] != Fail(true) && actions[k] != Response(false)
      && (actions[k].Fail? ==> trace[k].phase.Buffering?)
  }

  /** A body is being read or asked for. */
  ghost predicate Active(s: State) { !s.phase.Detached? || s.retrying }

  ghost predicate Going(cfg: Config, s: State, failures: nat) {
    !s.done && !s.destroyed && !s.ended && s.attempts == failures + 1
  }

  ghost predicate Delivered(cfg: Config, s: State, failures: nat) {
    !s.destroyed && s.ended && s.delivered == cfg.bodies(failures + 1) && !Active(s) && !s.requested
  }

  lemma FailuresNext(actions: seq<Action>, k: nat)
    requires k < |actions|
    ensures Failures(actions[..k + 1]) == Failures(actions[..k]) + if actions[k].Fail? then 1 else 0
  {
    assert actions[..k + 1][..k] == actions[..k];
  }

  lemma GoesOn(cfg: Config, actions: seq<Action>, trace: seq<State>, k: nat)
    requires Performs(cfg, actions, trace) && Undisturbed(actions, trace) && k < |actions|
    requires Going(cfg, trace[k], Failures(actions[..k])) && Failures(actions[..k + 1]) < cfg.limit
    ensures (var s', f := trace[k + 1], Failures(actions[..k + 1]);
             if actions[k] == End then Delivered(cfg, s', f) else Going(cfg, s', f))
  {
    var a := actions[k];
    PerformsStep(cfg, actions, trace, k);
    RunInv(cfg, trace, k);
    FailuresNext(actions, k);
    match a
    case Data(n) => DataPasses(cfg, trace, k, n);
    case End => EndDelivers(cfg, trace, k);
    case Fail(aborted) => FailRetries(cfg, trace, k, aborted);
    case _ => RetryReads(cfg, trace, k, a);
  }

  /** After the delivery nothing is left to happen. */
  lemma Nothing(cfg: Config, s: State, a: Action, failures: nat)
    requires Delivered(cfg, s, failures) && Enabled(cfg, s, a)
    ensures a == CloseOutput
  {
  }

  lemma {:induction false} Progress(cfg: Config, actions: seq<Action>, trace: seq<State>, k: nat)
    requires Performs(cfg, actions, trace) && Undisturbed(actions, trace) && k <= |actions|
    requires forall j :: 0 <= j <= k ==> Failures(actions[..j]) < cfg.limit
    ensures (var s, f := trace[k], Failures(actions[..k]);
             if k > 0 && actions[k - 1] == End then Delivered(cfg, s, f) else Going(cfg, s, f))
  {
    if k > 0 {
      Progress(cfg, actions, trace, k - 1);
      if k > 1 && actions[k - 2] == End {
        Nothing(cfg, trace[k - 1], actions[k - 1], Failures(actions[..k - 1]));
        assert false;
      } else {
        GoesOn(cfg, actions, trace, k - 1);
      }
    }
  }

  lemma {:induction false} FailuresGrow(actions: seq<Action>, j: nat)
    requires j <= |actions|
    ensures Failures(actions[..j]) <= Failures(actions)
  {
    if j < |actions| {
      FailuresGrow(actions[..|actions| - 1], j);
      assert actions[..|actions| - 1][..j] == actions[..j];
    } else {
      assert actions[..j] == actions;
    }
  }

  lemma FewFailures(actions: seq<Action>, limit: nat)
    requires Failures(actions) < limit
    ensures forall j :: 0 <= j <= |actions| ==> Failures(actions[..j]) < limit
  {
    forall j | 0 <= j <= |actions| ensures Failures(actions[..j]) < limit { FailuresGrow(actions, j); }
  }

  lemma ProgressWhole(cfg: Config, actions: seq<Action>, trace: seq<State>)
    requires Performs(cfg, actions, trace) && Undisturbed(actions, trace) && Failures(actions) < cfg.limit
    ensures (var s, f := trace[|actions|], Failures(actions);
             if actions != [] && actions[|actions| - 1] == End then Delivered(cfg, s, f) else Going(cfg, s, f))
  {
    FewFailures(actions, cfg.limit);
    assert actions[..|actions|] == actions;
    Progress(cfg, actions, trace, |actions|);
  }

  /** An undisturbed run with fewer failures than attempts delivers the body of the attempt after the last failure as
      soon as that body ends, and exactly this body; until then the output is open. */
  lemma SomeBodyIsDelivered(cfg: Config, actions: seq<Action>, trace: seq<State>)
    requires Performs(cfg, actions, trace) && Undisturbed(actions, trace) && Failures(actions) < cfg.limit
    ensures (var s := trace[|actions|];
             && !s.destroyed && (s.ended <==> actions != [] && actions[|actions| - 1] == End)
             && (s.ended ==> s.delivered == cfg.bodies(Failures(actions) + 1)))
  {
    ProgressWhole(cfg, actions, trace);
  }

  // ----- something can always happen -----

  lemma StepActive(cfg: Config, s: State, a: Action)
    requires Inv(cfg, s) && Enabled(cfg, s, a) && (Active(s) || s.done || s.destroyed || s.ended)
    ensures (var s' := Apply(cfg, s, a); Active(s') || s'.done || s'.destroyed || s'.ended)
  {
  }

  lemma {:induction false} RunActive(cfg: Config, trace: seq<State>, k: nat)
    requires cfg.limit > 0 && Run(cfg, trace) && k < |trace|
    ensures (var s := trace[k]; Active(s) || s.done || s.destroyed || s.ended)
  {
    if k > 0 {
      RunActive(cfg, trace, k - 1);
      RunInv(cfg, trace, k - 1);
      var a := StepTaken(cfg, trace, k - 1);
      StepActive(cfg, trace[k - 1], a);
    }
  }

  /** As long as the output is open and not ended, a body can go on or end, or a request can be made or answered. */
  lemma NeverStuck(cfg: Config, trace: seq<State>, k: nat) returns (a: Action)
    requires cfg.limit > 0 && Run(cfg, trace) && k < |trace|
    requires !trace[k].done && !trace[k].destroyed && !trace[k].ended
    ensures Enabled(cfg, trace[k], a) && (a == End || a == Request || a == Response(true) || (a.Data? && a.n > 0))
  {
    var s := trace[k];
    RunActive(cfg, trace, k);
    RunInv(cfg, trace, k);
    a := if s.phase.Detached? then if s.requested then Response(true) else Request
         else if s.position == |Body(cfg, s)| then End
         else Data(1);
  }
}
