/** A response body that is fetched again when its stream fails. */
module RetryBody {
  import opened Terms

  type Bytes = seq<bv8>

  /** `bodies(k)` is the full body of attempt `k`, `limit` the number of attempts allowed. */
  datatype Config = Config(limit: nat, maxBytes: Option<nat>, bodies: nat -> Bytes)

  /** Which listeners the current body has. */
  datatype Phase = Buffering | Streaming | Detached

  /** `position` is how much of the current body has been seen; `requested` says that a repeated request has been
      made and not yet answered; `requests` counts all requests, the first one included. */
  datatype State = State(
    attempts: nat,
    done: bool,
    destroyed: bool,
    ended: bool,
    retrying: bool,
    requested: bool,
    phase: Phase,
    chunks: seq<Bytes>,
    bufferedBytes: nat,
    position: nat,
    delivered: Bytes,
    requests: nat)

  datatype Action =
    | Data(n: nat)
    | End
    | Fail(aborted: bool)
    | Request
    | Response(ok: bool)
    | CloseOutput

  predicate Closed(s: State) { s.done || s.destroyed }

  function Flat(chunks: seq<Bytes>): Bytes {
    if chunks == [] then [] else Flat(chunks[..|chunks| - 1]) + chunks[|chunks| - 1]
  }

  function Start(): State { PipeBody(State(1, false, false, false, false, false, Detached, [], 0, 0, [], 1)) }

  function PipeBody(s: State): State {
    s.(phase := Buffering, chunks := [], bufferedBytes := 0, position := 0)
  }

  function Body(cfg: Config, s: State): Bytes { cfg.bodies(s.attempts) }

  predicate Enabled(cfg: Config, s: State, a: Action) {
    match a
    case Data(n) => !s.phase.Detached? && s.position + n <= |Body(cfg, s)|
    case End => !s.phase.Detached? && s.position == |Body(cfg, s)|
    case Fail(_) => !s.phase.Detached?
    case Request => s.retrying && !s.requested
    case Response(_) => s.requested
    case CloseOutput => true
  }

  function Flush(s: State): State { s.(delivered := s.delivered + Flat(s.chunks), chunks := []) }

  function AfterData(cfg: Config, s: State, chunk: Bytes): State {
    var s' := s.(position := s.position + |chunk|);
    if s.phase.Streaming? then
      if Closed(s) then s' else s'.(delivered := s.delivered + chunk)
    else
      var t := s'.(chunks := s.chunks + [chunk], bufferedBytes := s.bufferedBytes + |chunk|);
      if cfg.maxBytes.Some? && t.bufferedBytes > cfg.maxBytes.value then
        if Closed(s) then t.(phase := Detached) else Flush(t).(phase := Streaming)
      else t
  }

  function AfterEnd(s: State): State {
    var s' := s.(phase := Detached);
    if s.phase.Buffering? then
      if Closed(s) then s'.(done := true) else Flush(s').(done := true, ended := true)
    else
      if Closed(s) then s' else s'.(ended := true)
  }

  function HandleStreamError(cfg: Config, s: State, aborted: bool): State {
    if s.retrying || Closed(s) then s
    else if aborted || s.attempts >= cfg.limit then s.(destroyed := true)
    else s.(retrying := true, attempts := s.attempts + 1)
  }

  /** An error, or a close before the end. */
  function AfterFail(cfg: Config, s: State, aborted: bool): State {
    var s' := s.(phase := Detached);
    if s.phase.Buffering? then
      if Closed(s) then s'.(done := true) else HandleStreamError(cfg, s', aborted)
    else
      s'.(destroyed := true)
  }

  function Apply(cfg: Config, s: State, a: Action): State
    requires Enabled(cfg, s, a)
  {
    match a
    case Data(n) => AfterData(cfg, s, Body(cfg, s)[s.position..s.position + n])
    case End => AfterEnd(s)
    case Fail(aborted) => AfterFail(cfg, s, aborted)
    case Request =>
      if Closed(s) then s.(retrying := false) else s.(requested := true, requests := s.requests + 1)
    case Response(ok) =>
      var s' := s.(requested := false, retrying := false);
      if !ok then s'.(destroyed := true) else if Closed(s) then s' else PipeBody(s')
    case CloseOutput => s.(done := true)
  }

  // ----- what every run keeps -----

  ghost predicate Inv(cfg: Config, s: State) {
    && 1 <= s.attempts <= cfg.limit
    && s.requests + (if s.retrying && !s.requested then 1 else 0) <= s.attempts
    && (s.requested ==> s.retrying)
    && s.delivered <= Body(cfg, s)
    && (s.ended ==> s.delivered == Body(cfg, s))
    && (s.retrying ==> s.phase.Detached? && s.delivered == [] && !s.ended)
    && (!s.phase.Detached? ==> s.position <= |Body(cfg, s)| && !s.ended)
    && (s.phase.Buffering? ==> s.delivered == [] && Flat(s.chunks) == Body(cfg, s)[..s.position])
    && (s.phase.Buffering? ==> s.bufferedBytes == s.position)
    && (s.phase.Buffering? && cfg.maxBytes.Some? ==> s.bufferedBytes <= cfg.maxBytes.value)
    && (s.phase.Streaming? ==> cfg.maxBytes.Some? && (!Closed(s) ==> s.delivered == Body(cfg, s)[..s.position]))
  }

  lemma StartInv(cfg: Config)
    requires cfg.limit > 0
    ensures Inv(cfg, Start())
  {
  }

  lemma DataInv(cfg: Config, s: State, n: nat)
    requires Inv(cfg, s) && Enabled(cfg, s, Data(n))
    ensures Inv(cfg, Apply(cfg, s, Data(n)))
  {
    var body := Body(cfg, s);
    var chunk := body[s.position..s.position + n];
    assert body[..s.position] + chunk == body[..s.position + n];
    assert (s.chunks + [chunk])[..|s.chunks|] == s.chunks;
    assert Flat(s.chunks + [chunk]) == Flat(s.chunks) + chunk;
  }

  lemma StepInv(cfg: Config, s: State, a: Action)
    requires Inv(cfg, s) && Enabled(cfg, s, a)
    ensures Inv(cfg, Apply(cfg, s, a))
  {
    match a
    case Data(n) => DataInv(cfg, s, n);
    case End => assert Body(cfg, s)[..s.position] == Body(cfg, s);
    case _ =>
  }

  ghost predicate Steps(cfg: Config, s: State, s': State) {
    exists a :: Enabled(cfg, s, a) && s' == Apply(cfg, s, a)
  }

  ghost predicate Run(cfg: Config, trace: seq<State>) {
    && |trace| > 0 && trace[0] == Start()
    && forall k :: 0 <= k < |trace| - 1 ==> Steps(cfg, trace[k], trace[k + 1])
  }

  lemma {:induction false} RunInv(cfg: Config, trace: seq<State>, k: nat)
    requires cfg.limit > 0 && Run(cfg, trace) && k < |trace|
    ensures Inv(cfg, trace[k])
  {
    if k == 0 {
      StartInv(cfg);
    } else {
      RunInv(cfg, trace, k - 1);
      assert Steps(cfg, trace[k - 1], trace[k - 1 + 1]);
      var a :| Enabled(cfg, trace[k - 1], a) && trace[k] == Apply(cfg, trace[k - 1], a);
      StepInv(cfg, trace[k - 1], a);
    }
  }

  /** At any point of any run: what has been delivered is the beginning of one attempt's body, all of it if the output
      has ended normally, and no more than `limit` requests have been made. */
  lemma OneBody(cfg: Config, trace: seq<State>, k: nat)
    requires cfg.limit > 0 && Run(cfg, trace) && k < |trace|
    ensures trace[k].delivered <= cfg.bodies(trace[k].attempts)
    ensures trace[k].ended ==> trace[k].delivered == cfg.bodies(trace[k].attempts)
    ensures trace[k].requests <= trace[k].attempts <= cfg.limit
  {
    RunInv(cfg, trace, k);
  }

  /** Once a byte has been delivered there is no further attempt, and later deliveries continue the same body. */
  lemma {:induction false} NoRetryAfterDelivery(cfg: Config, trace: seq<State>, j: nat, k: nat)
    requires cfg.limit > 0 && Run(cfg, trace) && j <= k < |trace| && trace[j].delivered != []
    ensures trace[k].attempts == trace[j].attempts && trace[k].requests == trace[j].requests
    ensures trace[j].delivered <= trace[k].delivered <= cfg.bodies(trace[j].attempts)
    decreases k - j
  {
    RunInv(cfg, trace, k);
    if j < k {
      NoRetryAfterDelivery(cfg, trace, j, k - 1);
      RunInv(cfg, trace, k - 1);
      assert Steps(cfg, trace[k - 1], trace[k - 1 + 1]);
      var a :| Enabled(cfg, trace[k - 1], a) && trace[k] == Apply(cfg, trace[k - 1], a);
      StepDelivers(cfg, trace[k - 1], a);
    }
  }

  /** A step only adds to what has been delivered, and only a step from nothing delivered begins another attempt. */
  lemma StepDelivers(cfg: Config, s: State, a: Action)
    requires Inv(cfg, s) && Enabled(cfg, s, a)
    ensures (var s' := Apply(cfg, s, a);
             && s.delivered <= s'.delivered
             && (s'.attempts != s.attempts || s'.requests != s.requests ==> s.delivered == [] && s'.delivered == []))
  {
  }

  lemma StepWhole(cfg: Config, s: State, a: Action)
    requires Inv(cfg, s) && Enabled(cfg, s, a) && cfg.maxBytes.None? && (s.delivered == [] || s.ended)
    ensures (var s' := Apply(cfg, s, a); s'.delivered == [] || s'.ended)
  {
  }

  /** Without a byte limit nothing is delivered before the whole body is there. */
  lemma {:induction false} AllOrNothing(cfg: Config, trace: seq<State>, k: nat)
    requires cfg.limit > 0 && cfg.maxBytes.None? && Run(cfg, trace) && k < |trace|
    ensures trace[k].delivered == [] || (trace[k].ended && trace[k].delivered == cfg.bodies(trace[k].attempts))
    decreases k
  {
    if k > 0 {
      AllOrNothing(cfg, trace, k - 1);
      RunInv(cfg, trace, k - 1);
      assert Steps(cfg, trace[k - 1], trace[k - 1 + 1]);
      var a :| Enabled(cfg, trace[k - 1], a) && trace[k] == Apply(cfg, trace[k - 1], a);
      StepWhole(cfg, trace[k - 1], a);
    }
    RunInv(cfg, trace, k);
  }

  // ----- the handlers -----

  class RetryingBody {
    const cfg: Config
    var attempts: nat
    var done: bool
    var retrying: bool
    var requested: bool
    var phase: Phase
    var chunks: seq<Bytes>
    var bufferedBytes: nat
    var position: nat
    var output: Bytes
    var outputDestroyed: bool
    var outputEnded: bool
    var requests: nat

    ghost function Now(): State
      reads this
    {
      State(attempts, done, outputDestroyed, outputEnded, retrying, requested, phase, chunks, bufferedBytes, position,
            output, requests)
    }

    constructor (cfg: Config)
      ensures this.cfg == cfg && Now() == Start()
    {
      this.cfg := cfg;
      attempts, requests, done, retrying, requested := 1, 1, false, false, false;
      output, outputDestroyed, outputEnded := [], false, false;
      phase, chunks, bufferedBytes, position := Buffering, [], 0, 0;
    }

    /** All buffered chunks go to the output. */
    method WriteChunks()
      modifies this`output, this`chunks
      ensures output == old(output) + Flat(old(chunks)) && chunks == []
    {
      for i := 0 to |chunks|
        invariant chunks == old(chunks) && output == old(output) + Flat(chunks[..i])
      {
        assert chunks[..i + 1][..i] == chunks[..i];
        output := output + chunks[i];
      }
      assert chunks[..|chunks|] == chunks;
      chunks := [];
    }

    method OnData(chunk: Bytes)
      requires !phase.Detached?
      modifies this
      ensures Now() == AfterData(cfg, old(Now()), chunk)
    {
      position := position + |chunk|;
      if phase.Streaming? {
        if !done && !outputDestroyed { output := output + chunk; }
        return;
      }
      bufferedBytes := bufferedBytes + |chunk|;
      chunks := chunks + [chunk];
      if cfg.maxBytes.Some? && bufferedBytes > cfg.maxBytes.value {
        phase := Detached;
        if done || outputDestroyed { return; }
        WriteChunks();
        phase := Streaming;
      }
    }

    method OnEnd()
      requires !phase.Detached?
      modifies this
      ensures Now() == AfterEnd(old(Now()))
    {
      var buffering := phase.Buffering?;
      phase := Detached;
      if !buffering {
        if !done && !outputDestroyed { outputEnded := true; }
        return;
      }
      if done || outputDestroyed {
        done := true;
        return;
      }
      WriteChunks();
      done := true;
      outputEnded := true;
    }

    method OnFail(aborted: bool)
      requires !phase.Detached?
      modifies this
      ensures Now() == AfterFail(cfg, old(Now()), aborted)
    {
      var buffering := phase.Buffering?;
      phase := Detached;
      if !buffering {
        outputDestroyed := true;
        return;
      }
      if done || outputDestroyed {
        done := true;
        return;
      }
      if retrying { return; }
      if aborted || attempts >= cfg.limit {
        outputDestroyed := true;
        return;
      }
      retrying := true;
      attempts := attempts + 1;
    }

    /** After the delay: the request is repeated unless the output has been closed meanwhile. */
    method OnRetry()
      requires retrying && !requested
      modifies this
      ensures Now() == Apply(cfg, old(Now()), Request)
    {
      if done || outputDestroyed {
        retrying := false;
        return;
      }
      requested := true;
      requests := requests + 1;
    }

    method OnResponse(ok: bool)
      requires requested
      modifies this
      ensures Now() == Apply(cfg, old(Now()), Response(ok))
    {
      requested, retrying := false, false;
      if !ok {
        outputDestroyed := true;
        return;
      }
      if done || outputDestroyed { return; }
      phase, chunks, bufferedBytes, position := Buffering, [], 0, 0;
    }
  }
}
