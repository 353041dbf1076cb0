/** The circuit breaker with every atomic operation as its own step, for any number of
    goroutines (internal/exporter/queued.go). */
module BreakerAtomic {
  import opened CircuitBreaker

  /** Where a goroutine stands between two atomic operations. */
  datatype Pc =
    | Idle
    | SawOpen                      // loaded Open, about to read the clock
    | Expired                      // timeout passed, about to swap Open -> HalfOpen
    | Opened                       // won the swap, about to set the probe flag
    | SawHalfOpen                  // loaded HalfOpen, about to swap the flag 0 -> 1
    | SuccessLoaded(seen: Circuit) // RecordSuccess after loading the state
    | SuccessReset(seen: Circuit)  // counter reset
    | SuccessUnprobed              // flag cleared, about to store Closed
    | FailureCounted(fails: nat)   // RecordFailure after the increment
    | FailureStamped(fails: nat)   // time stored, about to load the state
    | FailureHalfOpen              // saw HalfOpen, about to clear the flag
    | FailureUnprobed              // flag cleared, about to store Open
    | FailureTrips                 // saw Closed over the threshold, about to store Open

  datatype Shared = Shared(circuit: Circuit, fails: nat, lastFailure: int, probe: nat)

  datatype System = System(shared: Shared, pcs: map<nat, Pc>)

  /** One atomic operation of goroutine g. */
  datatype Op =
    | LoadState(g: nat)
    | ReadClock(g: nat, now: int)
    | SwapOpen(g: nat)
    | StoreProbe(g: nat)
    | SwapProbe(g: nat)
    | RecordOp(g: nat, now: int, success: bool)

  function PcOf(s: System, g: nat): Pc {
    if g in s.pcs then s.pcs[g] else Idle
  }

  function At(s: System, g: nat, pc: Pc, shared: Shared): System {
    System(shared, s.pcs[g := pc])
  }

  /** The next operation of a Record call, or its start if the goroutine is idle. */
  function RecordNext(cfg: Config, s: System, g: nat, now: int, success: bool): System {
    var sh := s.shared;
    match PcOf(s, g)
    case Idle =>
      if success then At(s, g, SuccessLoaded(sh.circuit), sh)
      else At(s, g, FailureCounted(sh.fails + 1), sh.(fails := sh.fails + 1))
    case SuccessLoaded(seen) => At(s, g, SuccessReset(seen), sh.(fails := 0))
    case SuccessReset(seen) =>
      if seen.HalfOpen? then At(s, g, SuccessUnprobed, sh.(probe := 0)) else At(s, g, Idle, sh)
    case SuccessUnprobed => At(s, g, Idle, sh.(circuit := Closed))
    case FailureCounted(fails) => At(s, g, FailureStamped(fails), sh.(lastFailure := now))
    case FailureStamped(fails) =>
      if sh.circuit.HalfOpen? then At(s, g, FailureHalfOpen, sh)
      else if sh.circuit.Closed? && fails >= cfg.threshold then At(s, g, FailureTrips, sh)
      else At(s, g, Idle, sh)
    case FailureHalfOpen => At(s, g, FailureUnprobed, sh.(probe := 0))
    case FailureUnprobed => At(s, g, Idle, sh.(circuit := Open))
    case FailureTrips => At(s, g, Idle, sh.(circuit := Open))
    case _ => s
  }

  /** The operation is the next one of its goroutine; otherwise nothing happens. */
  function Step(cfg: Config, s: System, op: Op): System {
    var sh := s.shared;
    match op
    case LoadState(g) =>
      if !PcOf(s, g).Idle? then s
      else (match sh.circuit
        case Closed => s
        case Open => At(s, g, SawOpen, sh)
        case HalfOpen => At(s, g, SawHalfOpen, sh))
    case ReadClock(g, now) =>
      if !PcOf(s, g).SawOpen? then s
      else At(s, g, if now - sh.lastFailure >= cfg.resetSeconds then Expired else Idle, sh)
    case SwapOpen(g) =>
      if !PcOf(s, g).Expired? then s
      else if sh.circuit.Open? then At(s, g, Opened, sh.(circuit := HalfOpen))
      else At(s, g, Idle, sh)
    case StoreProbe(g) =>
      if !PcOf(s, g).Opened? then s else At(s, g, Idle, sh.(probe := 1))
    case SwapProbe(g) =>
      if !PcOf(s, g).SawHalfOpen? then s
      else At(s, g, Idle, if sh.probe == 0 then sh.(probe := 1) else sh)
    case RecordOp(g, now, success) => RecordNext(cfg, s, g, now, success)
  }

  /** The operation decides that a request goes through. */
  predicate Admits(s: System, op: Op) {
    match op
    case LoadState(g) => PcOf(s, g).Idle? && s.shared.circuit.Closed?
    case SwapOpen(g) => PcOf(s, g).Expired? && s.shared.circuit.Open?
    case SwapProbe(g) => PcOf(s, g).SawHalfOpen? && s.shared.probe == 0
    case _ => false
  }

  function Run(cfg: Config, s: System, ops: seq<Op>): System
    decreases |ops|
  {
    if ops == [] then s else Run(cfg, Step(cfg, s, ops[0]), ops[1..])
  }

  function Admissions(cfg: Config, s: System, ops: seq<Op>): nat
    decreases |ops|
  {
    if ops == [] then 0 else (if Admits(s, ops[0]) then 1 else 0) + Admissions(cfg, Step(cfg, s, ops[0]), ops[1..])
  }

  // ---------- admissions in all interleavings, recorded outcomes included ----------

  /** A request goes through because the circuit is closed. */
  predicate Passes(s: System, op: Op) {
    op.LoadState? && Admits(s, op)
  }

  /** A request goes through by turning the open circuit half-open. */
  predicate Opens(s: System, op: Op) {
    op.SwapOpen? && Admits(s, op)
  }

  /** A request goes through by taking the probe flag of a half-open circuit. */
  predicate Probes(s: System, op: Op) {
    op.SwapProbe? && Admits(s, op)
  }

  /** A recorded outcome takes the probe flag down. */
  predicate Clears(s: System, op: Op) {
    && op.RecordOp? && s.shared.probe != 0
    && ((PcOf(s, op.g).SuccessReset? && PcOf(s, op.g).seen.HalfOpen?) || PcOf(s, op.g).FailureHalfOpen?)
  }

  /** How many operations of a run are of a kind. */
  function Times(cfg: Config, s: System, ops: seq<Op>, kind: (System, Op) -> bool): nat
    decreases |ops|
  {
    if ops == [] then 0 else (if kind(s, ops[0]) then 1 else 0) + Times(cfg, Step(cfg, s, ops[0]), ops[1..], kind)
  }

  function FlagDown(s: System): nat {
    if s.shared.probe == 0 then 1 else 0
  }

  /** Only a recorded outcome takes the flag down, and taking the flag needs it down. */
  lemma FlagMoves(cfg: Config, s: System, op: Op)
    ensures FlagDown(Step(cfg, s, op)) + (if Probes(s, op) then 1 else 0) <=
            FlagDown(s) + (if Clears(s, op) then 1 else 0)
  {
  }

  lemma {:induction false} ProbesBounded(cfg: Config, s: System, ops: seq<Op>)
    ensures Times(cfg, s, ops, Probes) + FlagDown(Run(cfg, s, ops)) <= Times(cfg, s, ops, Clears) + FlagDown(s)
    decreases |ops|
  {
    if ops != [] {
      FlagMoves(cfg, s, ops[0]);
      ProbesBounded(cfg, Step(cfg, s, ops[0]), ops[1..]);
    }
  }

  lemma {:induction false} AdmissionsByKind(cfg: Config, s: System, ops: seq<Op>)
    ensures Admissions(cfg, s, ops) ==
            Times(cfg, s, ops, Passes) + Times(cfg, s, ops, Opens) + Times(cfg, s, ops, Probes)
    decreases |ops|
  {
    if ops != [] {
      AdmissionsByKind(cfg, Step(cfg, s, ops[0]), ops[1..]);
    }
  }

  /** In every interleaving of every call, Record calls included: the requests admitted while
      the circuit was not seen closed number at most the swaps that opened a half-open stretch,
      plus the times a recorded outcome took the probe flag down, plus one. */
  lemma UnclosedAdmissionsBounded(cfg: Config, s: System, ops: seq<Op>)
    ensures Admissions(cfg, s, ops) - Times(cfg, s, ops, Passes) <=
            Times(cfg, s, ops, Opens) + Times(cfg, s, ops, Clears) + 1
  {
    AdmissionsByKind(cfg, s, ops);
    ProbesBounded(cfg, s, ops);
  }

  // ---------- a half-open stretch without recorded outcomes ----------

  predicate NoRecords(ops: seq<Op>) {
    forall i :: 0 <= i < |ops| ==> !ops[i].RecordOp?
  }

  /** Inside a half-open stretch without recorded outcomes the circuit stays half-open and
      at most one further request goes through, none once the flag is up. */
  lemma {:induction false} HalfOpenStretch(cfg: Config, s: System, ops: seq<Op>)
    requires s.shared.circuit.HalfOpen? && NoRecords(ops)
    ensures Run(cfg, s, ops).shared.circuit.HalfOpen?
    ensures Admissions(cfg, s, ops) <= if s.shared.probe == 0 then 1 else 0
    decreases |ops|
  {
    if ops != [] {
      var next := Step(cfg, s, ops[0]);
      assert s.shared.probe != 0 ==> next.shared.probe != 0;
      HalfOpenStretch(cfg, next, ops[1..]);
    }
  }

  /** From the swap that opens a half-open stretch on, any interleaving of any number of
      goroutines without recorded outcomes admits at most two requests. */
  lemma AtMostTwoProbes(cfg: Config, s: System, g: nat, ops: seq<Op>)
    requires Admits(s, SwapOpen(g)) && NoRecords(ops)
    ensures Admissions(cfg, s, [SwapOpen(g)] + ops) <= 2
  {
    var all := [SwapOpen(g)] + ops;
    assert all[1..] == ops;
    HalfOpenStretch(cfg, Step(cfg, s, SwapOpen(g)), ops);
  }

  /** A goroutine that saw the half-open circuit takes the flag before any store puts it up. */
  predicate Overtaken(cfg: Config, s: System, ops: seq<Op>)
    decreases |ops|
  {
    && ops != []
    && (|| (ops[0].SwapProbe? && PcOf(s, ops[0].g).SawHalfOpen?)
        || (!(ops[0].StoreProbe? && PcOf(s, ops[0].g).Opened?) && Overtaken(cfg, Step(cfg, s, ops[0]), ops[1..])))
  }

  lemma {:induction false} SecondProbeIff(cfg: Config, s: System, ops: seq<Op>)
    requires s.shared.circuit.HalfOpen? && s.shared.probe == 0 && NoRecords(ops)
    ensures Admissions(cfg, s, ops) == if Overtaken(cfg, s, ops) then 1 else 0
    decreases |ops|
  {
    if ops != [] {
      var next := Step(cfg, s, ops[0]);
      if next.shared.probe == 0 {
        SecondProbeIff(cfg, next, ops[1..]);
      } else {
        HalfOpenStretch(cfg, next, ops[1..]);
      }
    }
  }

  /** From the opening swap on, without recorded outcomes: one request passes if the flag was left
      up, and otherwise a second passes if and only if its swap precedes the store of the flag. */
  lemma ProbesExactly(cfg: Config, s: System, g: nat, ops: seq<Op>)
    requires Admits(s, SwapOpen(g)) && NoRecords(ops)
    ensures var next := Step(cfg, s, SwapOpen(g));
            Admissions(cfg, s, [SwapOpen(g)] + ops) ==
            if s.shared.probe == 0 && Overtaken(cfg, next, ops) then 2 else 1
  {
    var all := [SwapOpen(g)] + ops;
    assert all[1..] == ops;
    var next := Step(cfg, s, SwapOpen(g));
    if s.shared.probe == 0 {
      SecondProbeIff(cfg, next, ops);
    } else {
      HalfOpenStretch(cfg, next, ops);
    }
  }

  /** Two is reached: a second goroutine can take the flag between the winner's swap and
      the winner's store. */
  lemma TwoProbesHappen(cfg: Config, sh: Shared, now: int)
    requires sh.circuit.Open? && sh.probe == 0 && now - sh.lastFailure >= cfg.resetSeconds
    ensures var s := System(sh, map[]);
            Admissions(cfg, s, [LoadState(0), ReadClock(0, now), SwapOpen(0), LoadState(1), SwapProbe(1),
                StoreProbe(0)]) == 2
  {
    var s0 := System(sh, map[]);
    var s1 := Step(cfg, s0, LoadState(0));
    var s2 := Step(cfg, s1, ReadClock(0, now));
    var s3 := Step(cfg, s2, SwapOpen(0));
    var s4 := Step(cfg, s3, LoadState(1));
    var s5 := Step(cfg, s4, SwapProbe(1));
    assert PcOf(s2, 0).Expired? && Admits(s2, SwapOpen(0));
    assert s3.shared.circuit.HalfOpen? && PcOf(s4, 1).SawHalfOpen? && Admits(s4, SwapProbe(1));
    assert Admissions(cfg, s5, [StoreProbe(0)]) == 0;
    assert Admissions(cfg, s4, [SwapProbe(1), StoreProbe(0)]) == 1;
    assert Admissions(cfg, s3, [LoadState(1), SwapProbe(1), StoreProbe(0)]) == 1;
    assert Admissions(cfg, s2, [SwapOpen(0), LoadState(1), SwapProbe(1), StoreProbe(0)]) == 2;
    assert Admissions(cfg, s1, [ReadClock(0, now), SwapOpen(0), LoadState(1), SwapProbe(1), StoreProbe(0)]) == 2;
  }
}
