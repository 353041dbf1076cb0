/** Which outcome sends an entry where, and in which order entries are delivered
    (internal/exporter/queued.go). */
module ExportOutcomes {
  import opened Collections
  import opened ExportErrors
  import opened ExportProtocol
  import opened ExportConsequences
  import opened ProbeRelease

  // ---------- one step, by its outcome ----------

  /** The error of an answer that does not condemn the request: no structured error at all, or
      one built from status 429 or 5xx. */
  ghost predicate Passing(error: Option<ExportError>) {
    error.None? || exists status, msg :: error.value == FromStatus(status, msg) && (status == 429 || status >= 500)
  }

  lemma PassingIsRetried(error: Option<ExportError>)
    requires Passing(error) && error.Some?
    ensures IsRetryable(error.value) && !IsSplittable(error.value)
  {
    var status, msg :| error.value == FromStatus(status, msg) && (status == 429 || status >= 500);
    RetryableStatusIff(status, msg);
    SplittableStatusIff(status, msg);
  }

  /** The entry that an event reports as exported: a successful attempt that is recorded, or a
      successful export of the shutdown drain. */
  function Accepted(cfg: Setup, s: System, ev: Event): seq<Entry> {
    match ev
    case Attempt(g, _, outcome) => if outcome.Ok? && Records(cfg, JobOf(s, g)) then [JobOf(s, g).job.entry] else []
    case DrainExport(g, ok) => if ok && JobOf(s, g).job.DrainHolds? then [JobOf(s, g).job.entry] else []
    case _ => []
  }

  /** What is delivered is exactly what was reported as exported. */
  lemma DeliveredIsAccepted(cfg: Setup, s: System, ev: Event)
    ensures Next(cfg, s, ev).delivered == s.delivered + Accepted(cfg, s, ev)
  {
  }

  /** After a passing failure and a push that stores, the whole entry is at the end of the queue,
      and nothing was delivered, refused or given up. */
  lemma PassingFailureRequeues(cfg: Setup, s: System, g: nat, now: int, error: Option<ExportError>)
    requires g < |s.gos| && Records(cfg, s.gos[g]) && Passing(error)
    ensures var t := Next(cfg, Next(cfg, s, Attempt(g, now, Failed(error))), PushBack(g, Put(0, true)));
            && t.queue == s.queue + [s.gos[g].job.entry] && HeldBy(JobOf(t, g).job) == []
            && t.delivered == s.delivered && t.refused == s.refused && t.corrupt == s.corrupt && t.lost == s.lost
  {
    if error.Some? {
      PassingIsRetried(error);
    }
    var e := s.gos[g].job.entry;
    var s1 := Next(cfg, s, Attempt(g, now, Failed(error)));
    assert s1 == SetJob(Noted(cfg, s, now), g, Pushing([e]));
    assert [e][1..] == [];
  }

  /** A status that is neither 429 nor 5xx condemns a single resource metric, and a request of any
      size unless the answer is that it is too large. */
  lemma CondemningFailureRefuses(cfg: Setup, s: System, g: nat, now: int, status: int, msg: bool)
    requires g < |s.gos| && Records(cfg, s.gos[g]) && status != 429 && status < 500
    requires |s.gos[g].job.entry.items| <= 1 ||
             (status != 413 && !(msg && 400 <= status && status != 401 && status != 403))
    ensures var t := Next(cfg, s, Attempt(g, now, Failed(Some(FromStatus(status, msg)))));
            t.refused == s.refused + [s.gos[g].job.entry] && HeldBy(JobOf(t, g).job) == []
  {
    RetryableStatusIff(status, msg);
    SplittableStatusIff(status, msg);
  }

  // ---------- runs in which nothing is given up ----------

  /** Requests decode, pushes store without evicting, and failures are passing ones. */
  ghost predicate Benign(ev: Event) {
    match ev
    case Accept(e, put) => e.readable && CleanPut(put)
    case PushBack(_, put) => CleanPut(put)
    case Attempt(_, _, outcome) => outcome.Failed? ==> Passing(outcome.error)
    case _ => true
  }

  lemma HeadIsReadable(s: System)
    requires InFlight(s, Unreadable) == 0 && s.queue != []
    ensures s.queue[0].readable
  {
  }

  lemma BenignAttempt(cfg: Setup, s: System, ev: Event)
    requires InFlight(s, Unreadable) == 0 && Benign(ev) && ev.Attempt?
    ensures var t := Next(cfg, s, ev); t.refused == s.refused && t.corrupt == s.corrupt && t.lost == s.lost
  {
    if ev.g < |s.gos| && s.gos[ev.g].job.Admitted? {
      HeldIsReadable(s, ev.g);
      if ev.outcome.Failed? && ev.outcome.error.Some? {
        PassingIsRetried(ev.outcome.error);
      }
    }
  }

  lemma BenignStep(cfg: Setup, s: System, ev: Event)
    requires InFlight(s, Unreadable) == 0 && Benign(ev)
    ensures var t := Next(cfg, s, ev); t.refused == s.refused && t.corrupt == s.corrupt && t.lost == s.lost
  {
    if ev.Attempt? {
      BenignAttempt(cfg, s, ev);
    } else if ev.DrainPop? && s.queue != [] {
      HeadIsReadable(s);
    }
  }

  lemma {:induction false} BenignThroughout(cfg: Setup, roles: seq<Role>, evs: seq<Event>)
    requires forall i :: 0 <= i < |evs| ==> Benign(evs[i])
    ensures var s := Run(cfg, Start(roles), evs);
            && s.refused == [] && s.corrupt == [] && s.lost == []
            && Surplus(s, Unreadable) == 0 && Tot(s.pushed, Unreadable) == 0 && InFlight(s, Unreadable) == 0
  {
    if evs == [] {
      IdleHoldNothing(Start(roles).gos, Unreadable);
    } else {
      var n := |evs| - 1;
      BenignThroughout(cfg, roles, evs[..n]);
      NothingUnreadable(cfg, Run(cfg, Start(roles), evs[..n]), evs[n]);
      BenignStep(cfg, Run(cfg, Start(roles), evs[..n]), evs[n]);
    }
  }

  /** In every interleaving whose failures are all passing ones, with requests that decode and
      pushes that store, nothing is ever refused, corrupt or lost: each resource metric is
      delivered, or still in the queue, the channel or a goroutine's hands. */
  lemma NothingGivenUp(cfg: Setup, roles: seq<Role>, evs: seq<Event>, x: nat)
    requires forall i :: 0 <= i < |evs| ==> Benign(evs[i])
    ensures var s := Run(cfg, Start(roles), evs);
            && s.refused == [] && s.corrupt == [] && s.lost == []
            && InFlight(s, Occurrences(x)) + Tot(s.delivered, Occurrences(x)) == Tot(s.pushed, Occurrences(x))
  {
    BenignThroughout(cfg, roles, evs);
    SurplusStaysZero(cfg, roles, evs, x);
  }

  /** Refusals need a condemning answer: without one nothing is refused, whatever else fails. */
  lemma {:induction false} RefusedNeedsCause(cfg: Setup, roles: seq<Role>, evs: seq<Event>)
    requires forall i :: 0 <= i < |evs| && evs[i].Attempt? && evs[i].outcome.Failed? ==> Passing(evs[i].outcome.error)
    ensures Run(cfg, Start(roles), evs).refused == []
  {
    if evs != [] {
      var n := |evs| - 1;
      RefusedNeedsCause(cfg, roles, evs[..n]);
      RefusedStep(cfg, Run(cfg, Start(roles), evs[..n]), evs[n]);
    }
  }

  lemma RefusedStep(cfg: Setup, s: System, ev: Event)
    requires ev.Attempt? && ev.outcome.Failed? ==> Passing(ev.outcome.error)
    ensures Next(cfg, s, ev).refused == s.refused
  {
    if ev.Attempt? && ev.outcome.Failed? && ev.outcome.error.Some? {
      PassingIsRetried(ev.outcome.error);
    }
  }

  // ---------- order ----------

  /** Exports succeed, pushes store, preparing works, and nobody else is started or stopped. */
  predicate Orderly(ev: Event) {
    match ev
    case Accept(e, put) => e.readable && CleanPut(put)
    case Attempt(_, _, outcome) => outcome.Ok?
    case Ask(_, _, prepared) => prepared
    case Spawn(_) => false
    case Stop => false
    case _ => true
  }

  /** The entries of a pipeline from its end to its beginning. */
  function Line(s: System): seq<Entry>
    requires |s.gos| == 2
  {
    s.delivered + HeldBy(s.gos[1].job) + s.channel + HeldBy(s.gos[0].job) + s.queue
  }

  predicate Flowing(s: System) {
    && |s.gos| == 2 && s.breaker.circuit.Closed? && !s.stopped
    && ((s.gos[0].role.Worker? && (s.gos[0].job.Idle? || s.gos[0].job.Popped? || s.gos[0].job.Admitted?)) ||
        (s.gos[0].role.Preparer? && (s.gos[0].job.Idle? || s.gos[0].job.Popped? || s.gos[0].job.Ready?)))
    && s.gos[1].role.Sender? && (s.gos[1].job.Idle? || s.gos[1].job.Admitted? || s.gos[1].job.Done?)
    && (s.gos[0].role.Worker? ==> s.channel == [] && HeldBy(s.gos[1].job) == [])
  }

  lemma AcceptKeepsLine(cfg: Setup, s: System, e: Entry, put: Put)
    requires Flowing(s) && CleanPut(put) && Line(s) == s.pushed
    ensures var t := Next(cfg, s, Accept(e, put)); Flowing(t) && Line(t) == t.pushed
  {
    var t := Next(cfg, s, Accept(e, put));
    assert s.queue[0..] == s.queue && t.queue == s.queue + [e];
    assert Line(t) == Line(s) + [e];
  }

  lemma PopKeepsLine(cfg: Setup, s: System, g: nat)
    requires Flowing(s)
    ensures var t := Next(cfg, s, Pop(g)); Flowing(t) && Line(t) == Line(s)
  {
    var t := Next(cfg, s, Pop(g));
    if t != s {
      assert g == 0 && HeldBy(s.gos[0].job) == [] && HeldBy(t.gos[0].job) == [s.queue[0]];
      assert s.queue == [s.queue[0]] + t.queue;
    }
  }

  lemma HandKeepsLine(cfg: Setup, s: System, g: nat)
    requires Flowing(s)
    ensures var t := Next(cfg, s, Hand(g)); Flowing(t) && Line(t) == Line(s)
  {
    var t := Next(cfg, s, Hand(g));
    if t != s {
      assert g == 0 && HeldBy(t.gos[0].job) == [] && t.channel == s.channel + HeldBy(s.gos[0].job);
    }
  }

  lemma TakeKeepsLine(cfg: Setup, s: System, g: nat)
    requires Flowing(s)
    ensures var t := Next(cfg, s, Take(g)); Flowing(t) && Line(t) == Line(s)
  {
    var t := Next(cfg, s, Take(g));
    if t != s {
      assert g == 1 && HeldBy(s.gos[1].job) == [] && HeldBy(t.gos[1].job) == [s.channel[0]];
      assert s.channel == [s.channel[0]] + t.channel;
    }
  }

  lemma QueueKeepsLine(cfg: Setup, s: System, ev: Event)
    requires Flowing(s) && Orderly(ev) && Line(s) == s.pushed && (ev.Accept? || ev.Pop? || ev.Hand? || ev.Take?)
    ensures var t := Next(cfg, s, ev); Flowing(t) && Line(t) == t.pushed
  {
    PushedByAccept(cfg, s, ev);
    match ev
    case Accept(e, put) => AcceptKeepsLine(cfg, s, e, put);
    case Pop(g) => PopKeepsLine(cfg, s, g);
    case Hand(g) => HandKeepsLine(cfg, s, g);
    case Take(g) => TakeKeepsLine(cfg, s, g);
  }

  lemma AttemptKeepsLine(cfg: Setup, s: System, g: nat, now: int)
    requires Flowing(s) && InFlight(s, Unreadable) == 0
    ensures var t := Next(cfg, s, Attempt(g, now, Ok)); Flowing(t) && Line(t) == Line(s)
  {
    if g < |s.gos| && s.gos[g].job.Admitted? {
      var t, e := Next(cfg, s, Attempt(g, now, Ok)), s.gos[g].job.entry;
      HeldIsReadable(s, g);
      assert t == Succeeded(s, g, e);
      assert HeldBy(JobOf(t, g).job) == [] && HeldBy(s.gos[g].job) == [e];
    }
  }

  lemma OtherKeepsLine(cfg: Setup, s: System, ev: Event)
    requires Flowing(s) && Orderly(ev) && !(ev.Accept? || ev.Pop? || ev.Hand? || ev.Take? || ev.Attempt?)
    ensures var t := Next(cfg, s, ev); Flowing(t) && Line(t) == Line(s)
  {
  }

  lemma {:induction false} LineThroughout(cfg: Setup, roles: seq<Role>, evs: seq<Event>)
    requires roles == [Worker, Sender] || roles == [Preparer, Sender]
    requires forall i :: 0 <= i < |evs| ==> Orderly(evs[i])
    ensures var s := Run(cfg, Start(roles), evs);
            && Flowing(s) && Line(s) == s.pushed
            && Surplus(s, Unreadable) == 0 && Tot(s.pushed, Unreadable) == 0 && InFlight(s, Unreadable) == 0
  {
    if evs == [] {
      IdleHoldNothing(Start(roles).gos, Unreadable);
    } else {
      var n := |evs| - 1;
      LineThroughout(cfg, roles, evs[..n]);
      var s := Run(cfg, Start(roles), evs[..n]);
      NothingUnreadable(cfg, s, evs[n]);
      if evs[n].Accept? || evs[n].Pop? || evs[n].Hand? || evs[n].Take? {
        QueueKeepsLine(cfg, s, evs[n]);
      } else if evs[n].Attempt? {
        PushedByAccept(cfg, s, evs[n]);
        AttemptKeepsLine(cfg, s, evs[n].g, evs[n].now);
      } else {
        PushedByAccept(cfg, s, evs[n]);
        OtherKeepsLine(cfg, s, evs[n]);
      }
    }
  }

  /** A single worker, or one preparer and one sender, deliver in order of acceptance: in every
      orderly run what was delivered is a prefix of what was pushed, and what follows it is
      exactly what is still under way. */
  lemma DeliversInOrder(cfg: Setup, roles: seq<Role>, evs: seq<Event>)
    requires roles == [Worker, Sender] || roles == [Preparer, Sender]
    requires forall i :: 0 <= i < |evs| ==> Orderly(evs[i])
    ensures var s := Run(cfg, Start(roles), evs);
            && s.delivered <= s.pushed && |s.gos| == 2
            && s.pushed[|s.delivered|..] == HeldBy(s.gos[1].job) + s.channel + HeldBy(s.gos[0].job) + s.queue
  {
    LineThroughout(cfg, roles, evs);
    PrefixOfLine(Run(cfg, Start(roles), evs));
  }

  lemma PrefixOfLine(s: System)
    requires |s.gos| == 2 && Line(s) == s.pushed
    ensures s.delivered <= s.pushed
    ensures s.pushed[|s.delivered|..] == HeldBy(s.gos[1].job) + s.channel + HeldBy(s.gos[0].job) + s.queue
  {
    var rest := HeldBy(s.gos[1].job) + s.channel + HeldBy(s.gos[0].job) + s.queue;
    assert Line(s) == s.delivered + rest;
  }
}
