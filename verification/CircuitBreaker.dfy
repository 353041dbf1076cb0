/** The circuit breaker (internal/exporter/queued.go), with its methods as single steps. */
module CircuitBreaker {
  import opened Collections

  datatype Circuit = Closed | Open | HalfOpen

  /** Breaker state; probe is the half-open probe flag. Times are Unix seconds. */
  datatype Breaker = Breaker(circuit: Circuit, fails: nat, lastFailure: int, probe: nat)

  /** threshold and the whole seconds of the reset timeout. */
  datatype Config = Config(threshold: int, resetSeconds: int)

  const INITIAL := Breaker(Closed, 0, 0, 0)

  // ---------- one call ----------

  predicate Allows(cfg: Config, b: Breaker, now: int) {
    match b.circuit
    case Closed => true
    case Open => now - b.lastFailure >= cfg.resetSeconds
    case HalfOpen => b.probe == 0
  }

  function AfterAllow(cfg: Config, b: Breaker, now: int): Breaker {
    if !Allows(cfg, b, now) then b
    else match b.circuit
      case Closed => b
      case Open => b.(circuit := HalfOpen, probe := 1)
      case HalfOpen => b.(probe := 1)
  }

  function AfterSuccess(b: Breaker): Breaker {
    if b.circuit.HalfOpen? then b.(circuit := Closed, fails := 0, probe := 0) else b.(fails := 0)
  }

  function AfterFailure(cfg: Config, b: Breaker, now: int): Breaker {
    var failed := b.(fails := b.fails + 1, lastFailure := now);
    if b.circuit.HalfOpen? then failed.(circuit := Open, probe := 0)
    else if b.circuit.Closed? && b.fails + 1 >= cfg.threshold then failed.(circuit := Open)
    else failed
  }

  class Cell {
    var circuit: Circuit
    var fails: nat
    var lastFailure: int
    var probe: nat
    const cfg: Config

    function State(): Breaker reads this { Breaker(circuit, fails, lastFailure, probe) }

    constructor (cfg: Config)
      ensures State() == INITIAL && this.cfg == cfg
    {
      circuit, fails, lastFailure, probe := Closed, 0, 0, 0;
      this.cfg := cfg;
    }

    method AllowRequest(now: int) returns (ok: bool)
      modifies this
      ensures ok == Allows(cfg, old(State()), now)
      ensures State() == AfterAllow(cfg, old(State()), now)
    {
      match circuit
      case Closed => return true;
      case Open =>
        if now - lastFailure >= cfg.resetSeconds {
          circuit := HalfOpen;
          probe := 1;
          return true;
        }
        return false;
      case HalfOpen =>
        if probe == 0 {
          probe := 1;
          return true;
        }
        return false;
    }

    method RecordSuccess()
      modifies this
      ensures State() == AfterSuccess(old(State()))
    {
      fails := 0;
      if circuit == HalfOpen {
        probe := 0;
        circuit := Closed;
      }
    }

    method RecordFailure(now: int)
      modifies this
      ensures State() == AfterFailure(cfg, old(State()), now)
    {
      fails := fails + 1;
      lastFailure := now;
      if circuit == HalfOpen {
        probe := 0;
        circuit := Open;
        return;
      }
      if circuit == Closed && fails >= cfg.threshold {
        circuit := Open;
      }
    }
  }

  // ---------- histories ----------

  datatype Call = Allow(now: int) | Success | Failure(now: int)

  function Next(cfg: Config, b: Breaker, c: Call): Breaker {
    match c
    case Allow(now) => AfterAllow(cfg, b, now)
    case Success => AfterSuccess(b)
    case Failure(now) => AfterFailure(cfg, b, now)
  }

  function Run(cfg: Config, b: Breaker, calls: seq<Call>): Breaker {
    if calls == [] then b else Next(cfg, Run(cfg, b, calls[..|calls| - 1]), calls[|calls| - 1])
  }

  /** Failures recorded since the last success, read off the history alone. */
  function FailuresSinceSuccess(calls: seq<Call>): nat {
    if calls == [] then 0
    else
      var before := FailuresSinceSuccess(calls[..|calls| - 1]);
      match calls[|calls| - 1]
      case Allow(_) => before
      case Success => 0
      case Failure(_) => before + 1
  }

  /** Time of the latest recorded failure, if any. */
  function LatestFailure(calls: seq<Call>): Option<int> {
    if calls == [] then None
    else if calls[|calls| - 1].Failure? then Some(calls[|calls| - 1].now)
    else LatestFailure(calls[..|calls| - 1])
  }

  /** How many requests were admitted by the last calls, back to where the circuit last
      became half-open (the call that made it so included). */
  function AdmittedThisEpisode(cfg: Config, calls: seq<Call>): nat {
    if calls == [] then 0
    else
      var n := |calls| - 1;
      var before := Run(cfg, INITIAL, calls[..n]);
      var admitted := if calls[n].Allow? && Allows(cfg, before, calls[n].now) then 1 else 0;
      if !before.circuit.HalfOpen? then admitted
      else AdmittedThisEpisode(cfg, calls[..n]) + admitted
  }

  /** What holds after every history of calls, with any clock: the state mirrors the
      history; half-open means exactly one probe is out, and the episode admitted exactly
      that one; closed means fewer than threshold failures since the last success; open
      means some failure was recorded. */
  lemma {:induction false} BreakerInvariant(cfg: Config, calls: seq<Call>)
    ensures var b := Run(cfg, INITIAL, calls);
            && b.fails == FailuresSinceSuccess(calls)
            && (LatestFailure(calls).Some? ==> b.lastFailure == LatestFailure(calls).value)
            && b.probe <= 1 && (b.circuit.HalfOpen? <==> b.probe == 1)
            && (b.circuit.HalfOpen? ==> AdmittedThisEpisode(cfg, calls) == 1)
            && (b.circuit.Closed? ==> b.fails < Max(cfg.threshold, 1))
            && (!b.circuit.Closed? ==> LatestFailure(calls).Some?)
  {
    if calls != [] {
      BreakerInvariant(cfg, calls[..|calls| - 1]);
    }
  }

  /** An open circuit admits a request exactly when the reset timeout has passed since the
      latest recorded failure; a half-open one admits none. */
  lemma AdmissionRule(cfg: Config, calls: seq<Call>, now: int)
    ensures var b := Run(cfg, INITIAL, calls);
            && (b.circuit.Open? ==>
                 LatestFailure(calls).Some? &&
                 (Allows(cfg, b, now) <==> now >= LatestFailure(calls).value + cfg.resetSeconds))
            && (b.circuit.HalfOpen? ==> !Allows(cfg, b, now))
  {
    BreakerInvariant(cfg, calls);
  }

  lemma RunSnoc(cfg: Config, calls: seq<Call>, c: Call)
    ensures Run(cfg, INITIAL, calls + [c]) == Next(cfg, Run(cfg, INITIAL, calls), c)
  {
    assert (calls + [c])[..|calls|] == calls;
  }

  /** A success closes a half-open circuit and leaves a closed one closed, and then every request
      passes; only an open circuit stays open. */
  lemma SuccessCloses(cfg: Config, calls: seq<Call>, now: int)
    ensures var before := Run(cfg, INITIAL, calls); var after := Run(cfg, INITIAL, calls + [Success]);
            && (!before.circuit.Open? ==> after.circuit.Closed? && Allows(cfg, after, now))
            && (before.circuit.Open? ==> after.circuit.Open?)
  {
    RunSnoc(cfg, calls, Success);
  }

  /** A failure opens a half-open circuit always, and a closed one if and only if it is at least
      the threshold-th since the last success. Asking never opens one. */
  lemma FailureOpensIff(cfg: Config, calls: seq<Call>, now: int)
    ensures var before := Run(cfg, INITIAL, calls); var after := Run(cfg, INITIAL, calls + [Failure(now)]);
            && (!before.circuit.Closed? ==> after.circuit.Open?)
            && (before.circuit.Closed? ==>
                  (after.circuit.Open? <==> FailuresSinceSuccess(calls) + 1 >= cfg.threshold) &&
                      !after.circuit.HalfOpen?)
    ensures !Run(cfg, INITIAL, calls).circuit.Open? ==> !Run(cfg, INITIAL, calls + [Allow(now)]).circuit.Open?
  {
    BreakerInvariant(cfg, calls);
    RunSnoc(cfg, calls, Failure(now));
    RunSnoc(cfg, calls, Allow(now));
  }

  /** The call is a success that found the circuit half-open: the report of a probe. */
  predicate ProbeSucceeds(cfg: Config, calls: seq<Call>, k: nat)
    requires k < |calls|
  {
    calls[k].Success? && Run(cfg, INITIAL, calls[..k]).circuit.HalfOpen?
  }

  /** An open circuit has failed since the latest successful probe. */
  lemma {:induction false} OpenHasFailedSince(cfg: Config, calls: seq<Call>) returns (i: nat)
    requires Run(cfg, INITIAL, calls).circuit.Open?
    ensures i < |calls| && calls[i].Failure?
    ensures forall k :: i < k < |calls| ==> !ProbeSucceeds(cfg, calls, k)
  {
    var n := |calls| - 1;
    if calls[n].Failure? {
      i := n;
    } else {
      assert Run(cfg, INITIAL, calls[..n]).circuit.Open?;
      i := OpenHasFailedSince(cfg, calls[..n]);
      forall k | i < k < |calls| ensures !ProbeSucceeds(cfg, calls, k) {
        if k < n {
          assert calls[..n][..k] == calls[..k];
          assert !ProbeSucceeds(cfg, calls[..n], k);
        }
      }
    }
  }

  predicate OnlyAllows(calls: seq<Call>) {
    forall i :: 0 <= i < |calls| ==> calls[i].Allow?
  }

  /** Nothing but a recorded outcome releases the probe: a half-open circuit refuses every
      request of any length of time if the probe's outcome is never recorded. */
  lemma {:induction false} HalfOpenStuckWithoutRecord(cfg: Config, calls: seq<Call>, more: seq<Call>, now: int)
    requires Run(cfg, INITIAL, calls).circuit.HalfOpen? && OnlyAllows(more)
    ensures Run(cfg, Run(cfg, INITIAL, calls), more) == Run(cfg, INITIAL, calls)
    ensures !Allows(cfg, Run(cfg, Run(cfg, INITIAL, calls), more), now)
  {
    BreakerInvariant(cfg, calls);
    if more != [] {
      HalfOpenStuckWithoutRecord(cfg, calls, more[..|more| - 1], now);
    }
  }
}
