/** Who can release a half-open breaker, and when nobody can (internal/exporter/queued.go). */
module ProbeRelease {
  import opened Collections
  import CircuitBreaker
  import opened ExportProtocol

  // ---------- carriers ----------

  /** The goroutine holds an admitted entry and records the outcome of its export. A worker that
      must decode and cannot drops its entry without recording. */
  predicate Records(cfg: Setup, go: Goroutine) {
    go.job.Admitted? && !Undecodable(cfg, go, go.job.entry)
  }

  /** The sender waits for the channel or the stop signal, whichever the runtime picks. */
  predicate Listens(go: Goroutine) {
    go.role.Sender? && go.job.Idle?
  }

  ghost predicate Exporting(cfg: Setup, s: System) {
    exists g :: 0 <= g < |s.gos| && Records(cfg, s.gos[g])
  }

  /** An admitted entry is in the channel, or prepared for it. */
  ghost predicate Waiting(s: System) {
    s.channel != [] || exists g :: 0 <= g < |s.gos| && s.gos[g].job.Ready?
  }

  /** A sender can still receive: one is listening, or one can be started. */
  ghost predicate Served(s: System) {
    !s.stopped || exists g :: 0 <= g < |s.gos| && Listens(s.gos[g])
  }

  /** Some admitted entry can still reach an export whose outcome is recorded. */
  ghost predicate LiveCarrier(cfg: Setup, s: System) {
    Exporting(cfg, s) || (Waiting(s) && Served(s))
  }

  /** Half-open with the probe out. */
  predicate Probing(s: System) {
    s.breaker.circuit.HalfOpen? && s.breaker.probe == 1
  }

  /** Half-open with the probe out and nobody to report on it. */
  ghost predicate Wedged(cfg: Setup, s: System) {
    Probing(s) && !LiveCarrier(cfg, s)
  }

  lemma RunSnoc(cfg: Setup, s: System, evs: seq<Event>, ev: Event)
    ensures Run(cfg, s, evs + [ev]) == Next(cfg, Run(cfg, s, evs), ev)
  {
    assert (evs + [ev])[..|evs|] == evs;
  }

  lemma {:induction false} RunAppend(cfg: Setup, s: System, a: seq<Event>, b: seq<Event>)
    ensures Run(cfg, s, a + b) == Run(cfg, Run(cfg, s, a), b)
    decreases |b|
  {
    if b == [] {
      assert a + b == a;
    } else {
      assert (a + b)[..|a + b| - 1] == a + b[..|b| - 1] && (a + b)[|a + b| - 1] == b[|b| - 1];
      RunAppend(cfg, s, a, b[..|b| - 1]);
    }
  }

  predicate FlagFits(b: CircuitBreaker.Breaker) {
    b.probe <= 1 && (b.circuit.HalfOpen? <==> b.probe == 1)
  }

  /** A step leaves the breaker alone, asks it, or records an outcome. */
  lemma BreakerMoves(cfg: Setup, s: System, ev: Event)
    ensures var b := Next(cfg, s, ev).breaker;
            || b == s.breaker
            || (ev.Ask? && b == CircuitBreaker.AfterAllow(cfg.breaker, s.breaker, ev.now))
            || (ev.Attempt? && b == CircuitBreaker.AfterSuccess(s.breaker))
            || (ev.Attempt? && b == CircuitBreaker.AfterFailure(cfg.breaker, s.breaker, ev.now))
  {
  }

  /** In every run the half-open state and the probe flag go together. */
  lemma {:induction false} HalfOpenIsProbing(cfg: Setup, roles: seq<Role>, evs: seq<Event>)
    ensures FlagFits(Run(cfg, Start(roles), evs).breaker)
  {
    if evs != [] {
      HalfOpenIsProbing(cfg, roles, evs[..|evs| - 1]);
      BreakerMoves(cfg, Run(cfg, Start(roles), evs[..|evs| - 1]), evs[|evs| - 1]);
    }
  }

  // ---------- a wedged system stays wedged ----------

  lemma WedgedExportsNothing(cfg: Setup, s: System, ev: Event)
    requires Wedged(cfg, s)
    ensures !Exporting(cfg, Next(cfg, s, ev))
  {
    var t := Next(cfg, s, ev);
    forall h | 0 <= h < |t.gos| ensures !Records(cfg, t.gos[h]) {
      assert h < |s.gos| ==> !Records(cfg, s.gos[h]);
      if ev.Take? && ev.g < |s.gos| {
        assert Listens(s.gos[ev.g]) ==> Served(s);
      }
    }
  }

  lemma WedgedAdmitsNothing(cfg: Setup, s: System, ev: Event)
    requires Probing(s) && !Waiting(s)
    ensures !Waiting(Next(cfg, s, ev))
  {
    var t := Next(cfg, s, ev);
    forall h | 0 <= h < |t.gos| ensures !t.gos[h].job.Ready? {
      assert h < |s.gos| ==> !s.gos[h].job.Ready?;
    }
    if ev.Hand? && ev.g < |s.gos| {
      assert !s.gos[ev.g].job.Ready?;
    }
  }

  lemma UnservedStays(cfg: Setup, s: System, ev: Event)
    requires !Served(s)
    ensures !Served(Next(cfg, s, ev))
  {
    var t := Next(cfg, s, ev);
    NoneIdlesAgain(cfg, s, ev);
    forall h | 0 <= h < |t.gos| ensures !Listens(t.gos[h]) {
      assert !Listens(s.gos[h]);
    }
  }

  /** After the stop signal nobody is started and nobody returns to its loop. */
  lemma NoneIdlesAgain(cfg: Setup, s: System, ev: Event)
    requires s.stopped
    ensures var t := Next(cfg, s, ev);
            && t.stopped && |t.gos| == |s.gos|
            && forall h :: 0 <= h < |t.gos| && t.gos[h].job.Idle? ==> t.gos[h] == s.gos[h]
  {
  }

  lemma WedgedIsQuiet(cfg: Setup, s: System, ev: Event)
    requires Wedged(cfg, s)
    ensures Probing(Next(cfg, s, ev)) && Next(cfg, s, ev).attempts == s.attempts
    ensures !ev.DrainExport? ==> Next(cfg, s, ev).delivered == s.delivered
  {
    if ev.Attempt? && ev.g < |s.gos| {
      assert !Records(cfg, s.gos[ev.g]);
    }
  }

  lemma NextStaysWedged(cfg: Setup, s: System, ev: Event)
    requires Wedged(cfg, s)
    ensures Wedged(cfg, Next(cfg, s, ev))
    ensures Next(cfg, s, ev).attempts == s.attempts
    ensures !ev.DrainExport? ==> Next(cfg, s, ev).delivered == s.delivered
  {
    WedgedIsQuiet(cfg, s, ev);
    WedgedExportsNothing(cfg, s, ev);
    if !Waiting(s) {
      WedgedAdmitsNothing(cfg, s, ev);
    } else {
      UnservedStays(cfg, s, ev);
    }
  }

  /** Whatever happens, a wedged system stays half-open: no attempt is recorded, and nothing
      is delivered except by the shutdown drain. */
  lemma {:induction false} WedgedForever(cfg: Setup, s: System, evs: seq<Event>)
    requires Wedged(cfg, s)
    ensures Wedged(cfg, Run(cfg, s, evs)) && Run(cfg, s, evs).attempts == s.attempts
    ensures (forall i :: 0 <= i < |evs| ==> !evs[i].DrainExport?) ==> Run(cfg, s, evs).delivered == s.delivered
  {
    if evs != [] {
      WedgedForever(cfg, s, evs[..|evs| - 1]);
      NextStaysWedged(cfg, Run(cfg, s, evs[..|evs| - 1]), evs[|evs| - 1]);
    }
  }

  // ---------- a live carrier can release the breaker ----------

  lemma AttemptReleases(cfg: Setup, s: System, g: nat, now: int, outcome: Outcome)
    requires g < |s.gos| && Records(cfg, s.gos[g])
    ensures !Next(cfg, s, Attempt(g, now, outcome)).breaker.circuit.HalfOpen?
  {
  }

  /** A recorded success of a half-open system closes the breaker, so that every later request
      is admitted; a recorded failure opens it. */
  lemma RecordedOutcomeDecides(cfg: Setup, s: System, g: nat, now: int, outcome: Outcome, later: int)
    requires s.breaker.circuit.HalfOpen? && g < |s.gos| && Records(cfg, s.gos[g])
    ensures var b := Next(cfg, s, Attempt(g, now, outcome)).breaker;
            if outcome.Ok? then b.circuit.Closed? && CircuitBreaker.Allows(cfg.breaker, b, later)
            else b.circuit.Open? && b.lastFailure == now
  {
  }

  /** A listening sender takes the head of the channel and reports on it. */
  lemma SenderReleases(cfg: Setup, s: System, g: nat) returns (evs: seq<Event>)
    requires s.channel != [] && g < |s.gos| && Listens(s.gos[g])
    ensures !Run(cfg, s, evs).breaker.circuit.HalfOpen?
  {
    var s1 := Next(cfg, s, Take(g));
    assert s1.gos[g] == Goroutine(Sender, Admitted(s.channel[0]));
    AttemptReleases(cfg, s1, g, 0, Ok);
    evs := [Take(g), Attempt(g, 0, Ok)];
    RunSnoc(cfg, s, [], Take(g));
    RunSnoc(cfg, s, [Take(g)], Attempt(g, 0, Ok));
    assert [] + [Take(g)] == [Take(g)] && [Take(g)] + [Attempt(g, 0, Ok)] == evs;
  }

  /** So does one that can still be started. */
  lemma ChannelReleases(cfg: Setup, s: System) returns (evs: seq<Event>)
    requires s.channel != [] && Served(s)
    ensures !Run(cfg, s, evs).breaker.circuit.HalfOpen?
  {
    if g :| 0 <= g < |s.gos| && Listens(s.gos[g]) {
      evs := SenderReleases(cfg, s, g);
    } else {
      var s1 := Next(cfg, s, Spawn(Sender));
      var rest := SenderReleases(cfg, s1, |s.gos|);
      evs := Prepend(cfg, s, Spawn(Sender), rest);
    }
  }

  lemma Prepend(cfg: Setup, s: System, ev: Event, rest: seq<Event>) returns (evs: seq<Event>)
    ensures Run(cfg, s, evs) == Run(cfg, Next(cfg, s, ev), rest)
  {
    RunSnoc(cfg, s, [], ev);
    assert [] + [ev] == [ev];
    RunAppend(cfg, s, [ev], rest);
    evs := [ev] + rest;
  }

  lemma HandKeepsServed(cfg: Setup, s: System, g: nat)
    requires Served(s) && g < |s.gos| && s.gos[g].job.Ready?
    ensures Served(Next(cfg, s, Hand(g)))
  {
    var t := Next(cfg, s, Hand(g));
    if s.stopped {
      var h :| 0 <= h < |s.gos| && Listens(s.gos[h]);
      assert t.gos[h] == s.gos[h];
    }
  }

  lemma RunOfThree(cfg: Setup, s: System, a: Event, b: Event, c: Event)
    ensures Run(cfg, s, [a, b, c]) == Next(cfg, Next(cfg, Next(cfg, s, a), b), c)
  {
    RunSnoc(cfg, s, [], a);
    RunSnoc(cfg, s, [a], b);
    RunSnoc(cfg, s, [a, b], c);
    assert [] + [a] == [a] && [a] + [b] == [a, b] && [a, b] + [c] == [a, b, c];
  }

  /** With room for at least one entry in the channel, a carrier can always finish. */
  lemma CarrierReleases(cfg: Setup, s: System) returns (evs: seq<Event>)
    requires cfg.capacity > 0 && LiveCarrier(cfg, s)
    ensures !Run(cfg, s, evs).breaker.circuit.HalfOpen?
  {
    if g :| 0 <= g < |s.gos| && Records(cfg, s.gos[g]) {
      AttemptReleases(cfg, s, g, 0, Ok);
      evs := Prepend(cfg, s, Attempt(g, 0, Ok), []);
    } else if s.channel != [] {
      evs := ChannelReleases(cfg, s);
    } else {
      var g :| 0 <= g < |s.gos| && s.gos[g].job.Ready?;
      var s1 := Next(cfg, s, Hand(g));
      HandKeepsServed(cfg, s, g);
      assert s1.channel == [s.gos[g].job.entry];
      var rest := ChannelReleases(cfg, s1);
      evs := Prepend(cfg, s, Hand(g), rest);
    }
  }

  /** A half-open breaker can still leave that state if and only if an admitted entry is held for
      an export that is recorded, or is prepared or in the channel while a sender listens or can
      still be started. */
  lemma ReleasableIff(cfg: Setup, s: System)
    requires cfg.capacity > 0 && Probing(s)
    ensures (exists evs: seq<Event> :: !Run(cfg, s, evs).breaker.circuit.HalfOpen?) <==> LiveCarrier(cfg, s)
  {
    if LiveCarrier(cfg, s) {
      var evs := CarrierReleases(cfg, s);
    } else {
      forall evs: seq<Event> ensures Run(cfg, s, evs).breaker.circuit.HalfOpen? {
        WedgedForever(cfg, s, evs);
      }
    }
  }

  /** The same for every state a run can reach, where half-open implies that the probe is out. */
  lemma ReachableReleasableIff(cfg: Setup, roles: seq<Role>, evs: seq<Event>)
    requires cfg.capacity > 0 && Run(cfg, Start(roles), evs).breaker.circuit.HalfOpen?
    ensures var s := Run(cfg, Start(roles), evs);
            (exists more: seq<Event> :: !Run(cfg, s, more).breaker.circuit.HalfOpen?) <==> LiveCarrier(cfg, s)
  {
    HalfOpenIsProbing(cfg, roles, evs);
    ReleasableIff(cfg, Run(cfg, Start(roles), evs));
  }

  // ---------- how the carrier is lost ----------

  /** The entry that goroutine g has popped becomes the probe of an expired open breaker. */
  predicate TakesProbe(cfg: Setup, s: System, g: nat, now: int) {
    JobOf(s, g).job.Popped? && !s.breaker.circuit.Closed? && CircuitBreaker.Allows(cfg.breaker, s.breaker, now)
  }

  /** The steps after which a half-open breaker may have lost its carrier. The probe goes to an
      entry whose outcome is never recorded: undecodable at a worker, or at a preparer one that
      fails to compress or that no sender will receive any more. After the stop signal a preparer
      leaves with its prepared entry, or a listening sender leaves. Or the stop signal itself
      comes while nothing is being exported and no sender listens. */
  ghost predicate Leaks(cfg: Setup, s: System, ev: Event) {
    match ev
    case Ask(g, now, prepared) =>
      var go := JobOf(s, g);
      && TakesProbe(cfg, s, g, now)
      && (if go.role.Worker? then Undecodable(cfg, go, go.job.entry) else !prepared || !Served(s))
    case Exit(g) =>
      s.stopped && s.breaker.circuit.HalfOpen? && (JobOf(s, g).job.Ready? || Listens(JobOf(s, g)))
    case Stop => s.breaker.circuit.HalfOpen? && !Exporting(cfg, s) && !Served(s.(stopped := true))
    case _ => false
  }

  ghost predicate NeverLeaks(cfg: Setup, s: System, evs: seq<Event>) {
    evs == [] ||
    (NeverLeaks(cfg, s, evs[..|evs| - 1]) && !Leaks(cfg, Run(cfg, s, evs[..|evs| - 1]), evs[|evs| - 1]))
  }

  /** What goroutine g does to the carriers when only its job changes. */
  lemma OthersCarry(cfg: Setup, s: System, t: System, g: nat)
    requires g < |s.gos| == |t.gos| && forall h :: 0 <= h < |s.gos| && h != g ==> t.gos[h] == s.gos[h]
    requires t.channel == s.channel && t.stopped == s.stopped && LiveCarrier(cfg, s)
    requires !Records(cfg, s.gos[g]) && !s.gos[g].job.Ready? && (Listens(s.gos[g]) ==> !s.stopped)
    ensures LiveCarrier(cfg, t)
  {
    if Exporting(cfg, s) {
      var h :| 0 <= h < |s.gos| && Records(cfg, s.gos[h]);
      assert Records(cfg, t.gos[h]);
    } else {
      if s.channel == [] {
        var h :| 0 <= h < |s.gos| && s.gos[h].job.Ready?;
        assert t.gos[h].job.Ready?;
      }
      if s.stopped {
        var h :| 0 <= h < |s.gos| && Listens(s.gos[h]);
        assert Listens(t.gos[h]);
      }
    }
  }

  lemma SpawnKeepsCarrier(cfg: Setup, s: System, role: Role)
    requires LiveCarrier(cfg, s)
    ensures LiveCarrier(cfg, Next(cfg, s, Spawn(role)))
  {
    if !s.stopped {
      var t := Next(cfg, s, Spawn(role));
      if Exporting(cfg, s) {
        var h :| 0 <= h < |s.gos| && Records(cfg, s.gos[h]);
        assert Records(cfg, t.gos[h]);
      } else if s.channel == [] {
        var h :| 0 <= h < |s.gos| && s.gos[h].job.Ready?;
        assert t.gos[h].job.Ready?;
      }
    }
  }

  lemma StopKeepsCarrier(cfg: Setup, s: System)
    requires s.breaker.circuit.HalfOpen? && LiveCarrier(cfg, s) && !Leaks(cfg, s, Stop)
    ensures LiveCarrier(cfg, Next(cfg, s, Stop))
  {
    var t := Next(cfg, s, Stop);
    assert Exporting(cfg, t) <==> Exporting(cfg, s);
    assert Waiting(t) <==> Waiting(s);
  }

  lemma AskKeepsCarrier(cfg: Setup, s: System, g: nat, now: int, prepared: bool)
    requires !Leaks(cfg, s, Ask(g, now, prepared)) && (s.breaker.circuit.HalfOpen? ==> LiveCarrier(cfg, s))
    ensures var t := Next(cfg, s, Ask(g, now, prepared));
            t.breaker.circuit.HalfOpen? ==> LiveCarrier(cfg, t)
  {
    var go := JobOf(s, g);
    var t := Next(cfg, s, Ask(g, now, prepared));
    if go.job.Popped? && t.breaker.circuit.HalfOpen? {
      if !CircuitBreaker.Allows(cfg.breaker, s.breaker, now) {
        OthersCarry(cfg, s, t, g);
      } else if go.role.Worker? {
        assert Records(cfg, t.gos[g]);
      } else {
        AdmittedIsServed(cfg, s, t, g);
      }
    }
  }

  lemma AdmittedIsServed(cfg: Setup, s: System, t: System, g: nat)
    requires g < |s.gos| && s.gos[g].job.Popped? && Served(s)
    requires t.gos == s.gos[g := Goroutine(s.gos[g].role, Ready(s.gos[g].job.entry))] && t.stopped == s.stopped
    ensures LiveCarrier(cfg, t)
  {
    assert t.gos[g].job.Ready?;
    if s.stopped {
      var h :| 0 <= h < |s.gos| && Listens(s.gos[h]);
      assert Listens(t.gos[h]);
    }
  }

  lemma AttemptKeepsCarrier(cfg: Setup, s: System, g: nat, now: int, outcome: Outcome)
    requires s.breaker.circuit.HalfOpen? ==> LiveCarrier(cfg, s)
    ensures var t := Next(cfg, s, Attempt(g, now, outcome));
            t.breaker.circuit.HalfOpen? ==> LiveCarrier(cfg, t)
  {
    if g < |s.gos| && s.gos[g].job.Admitted? {
      if Records(cfg, s.gos[g]) {
        AttemptReleases(cfg, s, g, now, outcome);
      } else if s.breaker.circuit.HalfOpen? {
        OthersCarry(cfg, s, Next(cfg, s, Attempt(g, now, outcome)), g);
      }
    }
  }

  lemma ChannelKeepsCarrier(cfg: Setup, s: System, ev: Event)
    requires LiveCarrier(cfg, s) && (ev.Take? || ev.Hand?)
    ensures LiveCarrier(cfg, Next(cfg, s, ev))
  {
    var t := Next(cfg, s, ev);
    if t != s {
      if ev.Take? {
        assert Records(cfg, t.gos[ev.g]);
      } else if Exporting(cfg, s) {
        var h :| 0 <= h < |s.gos| && Records(cfg, s.gos[h]);
        assert Records(cfg, t.gos[h]);
      } else {
        HandKeepsServed(cfg, s, ev.g);
      }
    }
  }

  /** The remaining events move goroutines that carry nothing. */
  lemma OtherKeepsCarrier(cfg: Setup, s: System, ev: Event)
    requires !Leaks(cfg, s, ev) && s.breaker.circuit.HalfOpen? && LiveCarrier(cfg, s)
    requires ev.Pop? || ev.PushBack? || ev.Exit? || ev.DrainPop? || ev.DrainExport? || ev.DrainEnd?
    ensures LiveCarrier(cfg, Next(cfg, s, ev))
  {
    var t := Next(cfg, s, ev);
    if ev.g < |s.gos| && t.gos != s.gos {
      OthersCarry(cfg, s, t, ev.g);
    } else {
      assert t.gos == s.gos && t.channel == s.channel && t.stopped == s.stopped;
    }
  }

  lemma AcceptKeepsCarrier(cfg: Setup, s: System, entry: Entry, put: Put)
    requires LiveCarrier(cfg, s)
    ensures LiveCarrier(cfg, Next(cfg, s, Accept(entry, put)))
  {
    var t := Next(cfg, s, Accept(entry, put));
    assert t.gos == s.gos && t.channel == s.channel && t.stopped == s.stopped;
  }

  lemma NextKeepsCarrier(cfg: Setup, s: System, ev: Event)
    requires !Leaks(cfg, s, ev) && (s.breaker.circuit.HalfOpen? ==> LiveCarrier(cfg, s))
    ensures Next(cfg, s, ev).breaker.circuit.HalfOpen? ==> LiveCarrier(cfg, Next(cfg, s, ev))
  {
    match ev
    case Ask(g, now, prepared) => AskKeepsCarrier(cfg, s, g, now, prepared);
    case Attempt(g, now, outcome) => AttemptKeepsCarrier(cfg, s, g, now, outcome);
    case _ =>
      if s.breaker.circuit.HalfOpen? {
        match ev
        case Spawn(role) => SpawnKeepsCarrier(cfg, s, role);
        case Take(_) => ChannelKeepsCarrier(cfg, s, ev);
        case Hand(_) => ChannelKeepsCarrier(cfg, s, ev);
        case Accept(entry, put) => AcceptKeepsCarrier(cfg, s, entry, put);
        case Stop => StopKeepsCarrier(cfg, s);
        case _ => OtherKeepsCarrier(cfg, s, ev);
      }
  }

  /** In every run without such a step, a half-open breaker has a carrier, so it can be released. */
  lemma {:induction false} ProbeIsCarried(cfg: Setup, roles: seq<Role>, evs: seq<Event>)
    requires NeverLeaks(cfg, Start(roles), evs)
    ensures var s := Run(cfg, Start(roles), evs);
            s.breaker.circuit.HalfOpen? ==> LiveCarrier(cfg, s)
  {
    if evs != [] {
      ProbeIsCarried(cfg, roles, evs[..|evs| - 1]);
      NextKeepsCarrier(cfg, Run(cfg, Start(roles), evs[..|evs| - 1]), evs[|evs| - 1]);
    }
  }

  // ---------- each such step wedges a system without another carrier ----------

  /** The probe of a system without a carrier goes to an entry that is never reported on. */
  lemma LostProbeWedges(cfg: Setup, s: System, g: nat, now: int, prepared: bool)
    requires Leaks(cfg, s, Ask(g, now, prepared)) && s.breaker.circuit.Open? && !LiveCarrier(cfg, s)
    ensures Wedged(cfg, Next(cfg, s, Ask(g, now, prepared)))
  {
    var t := Next(cfg, s, Ask(g, now, prepared));
    forall h | 0 <= h < |t.gos| ensures !Records(cfg, t.gos[h]) {
      assert !Records(cfg, s.gos[h]);
    }
    if Served(s) {
      forall h | 0 <= h < |t.gos| ensures !t.gos[h].job.Ready? {
        assert !s.gos[h].job.Ready?;
      }
    } else {
      UnservedStays(cfg, s, Ask(g, now, prepared));
    }
  }

  /** The only carrier is a preparer that meets the stop signal before the channel has room. */
  lemma StoppedPreparerWedges(cfg: Setup, s: System, g: nat)
    requires Probing(s) && s.stopped && JobOf(s, g).job.Ready? && !Exporting(cfg, s) && s.channel == []
    requires forall h :: 0 <= h < |s.gos| && h != g ==> !s.gos[h].job.Ready?
    ensures Wedged(cfg, Next(cfg, s, Exit(g)))
  {
    var t := Next(cfg, s, Exit(g));
    forall h | 0 <= h < |t.gos| ensures !Records(cfg, t.gos[h]) && !t.gos[h].job.Ready? {
      assert !Records(cfg, s.gos[h]);
      assert h != g ==> t.gos[h] == s.gos[h];
    }
  }

  /** After the stop signal the last listening sender leaves, and what is in the channel stays. */
  lemma StoppedSenderWedges(cfg: Setup, s: System, g: nat)
    requires Probing(s) && s.stopped && g < |s.gos| && Listens(s.gos[g]) && !Exporting(cfg, s)
    requires forall h :: 0 <= h < |s.gos| && h != g ==> !Listens(s.gos[h])
    ensures Wedged(cfg, Next(cfg, s, Exit(g)))
  {
    var t := Next(cfg, s, Exit(g));
    forall h | 0 <= h < |t.gos| ensures !Records(cfg, t.gos[h]) && !Listens(t.gos[h]) {
      assert !Records(cfg, s.gos[h]);
      assert h != g ==> t.gos[h] == s.gos[h];
    }
  }

  /** The stop signal comes while nothing is being exported and no sender listens. */
  lemma StopWedges(cfg: Setup, s: System)
    requires Probing(s) && Leaks(cfg, s, Stop)
    ensures Wedged(cfg, Next(cfg, s, Stop))
  {
    var t := Next(cfg, s, Stop);
    assert t == s.(stopped := true);
    forall h | 0 <= h < |t.gos| ensures !Records(cfg, t.gos[h]) {
      assert !Records(cfg, s.gos[h]);
    }
  }

  // ---------- and a run gets there ----------

  /** One idle worker, nothing queued, and k failures counted by a closed breaker. */
  predicate Failing(s: System, k: nat) {
    && s.gos == [Goroutine(Worker, Idle)] && s.queue == [] && s.channel == [] && !s.stopped
    && s.breaker.circuit.Closed? && s.breaker.fails == k && s.breaker.probe == 0
  }

  /** The worker, idle again, behind an open breaker. */
  predicate Tripped(s: System, now: int) {
    && s.gos == [Goroutine(Worker, Idle)] && s.queue == [] && s.channel == [] && !s.stopped
    && s.breaker.circuit.Open? && s.breaker.lastFailure == now && s.breaker.probe == 0
  }

  /** A request is accepted, exported in vain, and lost when it is pushed back. */
  function FailedRound(e: Entry, now: int): seq<Event> {
    [Accept(e, Put(0, true)), Pop(0), Ask(0, now, true), Attempt(0, now, Failed(None)), PushBack(0, Put(0, false))]
  }

  lemma RoundAdmits(cfg: Setup, s: System, e: Entry, now: int, k: nat)
    requires Failing(s, k)
    ensures var t := Run(cfg, s, [Accept(e, Put(0, true)), Pop(0), Ask(0, now, true)]);
            t.gos == [Goroutine(Worker, Admitted(e))] && t.queue == [] && t.channel == [] && !t.stopped &&
            t.breaker == s.breaker
  {
    var s2 := Next(cfg, Next(cfg, s, Accept(e, Put(0, true))), Pop(0));
    AcceptedIsPopped(cfg, s, e);
    RunOfThree(cfg, s, Accept(e, Put(0, true)), Pop(0), Ask(0, now, true));
    var t := Next(cfg, s2, Ask(0, now, true));
    assert t == SetJob(s2.(breaker := CircuitBreaker.AfterAllow(cfg.breaker, s2.breaker, now)), 0, Admitted(e));
  }

  lemma AcceptedIsPopped(cfg: Setup, s: System, e: Entry)
    requires s.gos == [Goroutine(Worker, Idle)] && s.queue == []
    ensures var t := Next(cfg, Next(cfg, s, Accept(e, Put(0, true))), Pop(0));
            && t.gos == [Goroutine(Worker, Popped(e))] && t.queue == [] && t.channel == s.channel
            && t.stopped == s.stopped && t.breaker == s.breaker
  {
    var s1 := Next(cfg, s, Accept(e, Put(0, true)));
    assert s1.queue == [e];
  }

  lemma RoundFails(cfg: Setup, s: System, e: Entry, now: int, k: nat)
    requires Failing(s, k) && e.readable
    ensures var t := Run(cfg, s, FailedRound(e, now));
            if k + 1 >= cfg.breaker.threshold then Tripped(t, now) else Failing(t, k + 1)
  {
    var three := [Accept(e, Put(0, true)), Pop(0), Ask(0, now, true)];
    RoundAdmits(cfg, s, e, now, k);
    var s3 := Run(cfg, s, three);
    var s4 := Next(cfg, s3, Attempt(0, now, Failed(None)));
    assert s4 == AfterFailedExport(Noted(cfg, s3, now), 0, e, None);
    assert s4.gos == [Goroutine(Worker, Pushing([e]))] && s4.queue == [];
    RunSnoc(cfg, s, three, Attempt(0, now, Failed(None)));
    RunSnoc(cfg, s, three + [Attempt(0, now, Failed(None))], PushBack(0, Put(0, false)));
    assert FailedRound(e, now) == three + [Attempt(0, now, Failed(None))] + [PushBack(0, Put(0, false))];
    var s5 := Next(cfg, s4, PushBack(0, Put(0, false)));
    assert s5.gos == [Goroutine(Worker, Idle)] && s5.queue == [];
  }

  lemma {:induction false} FailuresTrip(cfg: Setup, s: System, e: Entry, now: int, k: nat) returns (evs: seq<Event>)
    requires Failing(s, k) && e.readable
    ensures Tripped(Run(cfg, s, evs), now)
    decreases cfg.breaker.threshold - k
  {
    RoundFails(cfg, s, e, now, k);
    evs := FailedRound(e, now);
    if k + 1 < cfg.breaker.threshold {
      var rest := FailuresTrip(cfg, Run(cfg, s, evs), e, now, k + 1);
      RunAppend(cfg, s, evs, rest);
      evs := evs + rest;
    }
  }

  /** For every threshold and timeout, one worker that must decode reaches the wedge: enough
      failed exports, then one undecodable entry after the timeout. */
  lemma WedgeIsReachable(cfg: Setup, e: Entry, bad: Entry) returns (evs: seq<Event>)
    requires !cfg.rawExport && e.readable && !bad.readable
    ensures Wedged(cfg, Run(cfg, Start([Worker]), evs))
  {
    var start := Start([Worker]);
    assert start.gos == [Goroutine(Worker, Idle)];
    var trip := FailuresTrip(cfg, start, e, 0, 0);
    var s := Run(cfg, start, trip);
    var now := cfg.breaker.resetSeconds;
    var last := [Accept(bad, Put(0, true)), Pop(0), Ask(0, now, true)];
    var s2 := Next(cfg, Next(cfg, s, last[0]), last[1]);
    assert s2.gos == [Goroutine(Worker, Popped(bad))] && s2.channel == [] && s2.breaker == s.breaker;
    assert !LiveCarrier(cfg, s2);
    LostProbeWedges(cfg, s2, 0, now, true);
    RunOfThree(cfg, s, last[0], last[1], last[2]);
    RunAppend(cfg, start, trip, last);
    evs := trip + last;
  }
}
