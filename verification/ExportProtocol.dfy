/** The always-queue export protocol (internal/exporter/queued.go): workers, preparers,
    senders and the shutdown drain over a shared queue and a bounded channel, every queue,
    channel, breaker and export operation being one step. */
module ExportProtocol {
  import opened Collections
  import opened CircuitBreaker
  import opened ExportErrors

  /** A queued request: the resource metrics it holds, and whether its bytes still decode. */
  datatype Entry = Entry(items: seq<nat>, readable: bool)

  datatype Role = Worker | Preparer | Sender | Drainer

  datatype Job =
    | Idle
    | Popped(entry: Entry)                        // taken from the queue, breaker not asked yet
    | Admitted(entry: Entry)                      // about to be exported
    | Ready(entry: Entry)                         // prepared, waiting for room in the channel
    | Pushing(todo: seq<Entry>)                   // entries still to be pushed back, one by one
    | Draining(failed: seq<Entry>)                // shutdown drain between two entries
    | DrainHolds(entry: Entry, failed: seq<Entry>)
    | Done

  datatype Goroutine = Goroutine(role: Role, job: Job)

  /** rawExport: the exporter takes queued bytes as they are, without decoding. */
  datatype Setup = Setup(breaker: Config, rawExport: bool, capacity: nat)

  datatype System = System(
    queue: seq<Entry>,
    channel: seq<Entry>,
    gos: seq<Goroutine>,
    breaker: Breaker,
    stopped: bool,
    pushed: seq<Entry>,
    delivered: seq<Entry>,
    refused: seq<Entry>,     // dropped as non-retryable
    corrupt: seq<Entry>,     // dropped because the bytes do not decode
    lost: seq<Entry>,        // evicted by, or victims of, a push
    attempts: nat)

  /** What a push does: evict some of the oldest entries, then store or lose the new one. */
  datatype Put = Put(evict: nat, stored: bool)

  /** An error that is not an ExportError is None. */
  datatype Outcome = Ok | Failed(error: Option<ExportError>)

  datatype Event =
    | Accept(entry: Entry, put: Put)              // Export(): push a new request
    | Spawn(role: Role)
    | Pop(g: nat)
    | Ask(g: nat, now: int, prepared: bool)       // ask the breaker; a preparer also compresses
    | Attempt(g: nat, now: int, outcome: Outcome)
    | PushBack(g: nat, put: Put)
    | Hand(g: nat)                                // send to the channel
    | Take(g: nat)                                // receive from the channel
    | Stop
    | Exit(g: nat)                                // leave the loop: stopped, or a sender removed
    | DrainPop(g: nat)
    | DrainExport(g: nat, ok: bool)
    | DrainEnd(g: nat)

  function Start(roles: seq<Role>): System {
    System([], [], seq(|roles|, i requires 0 <= i < |roles| => Goroutine(roles[i], Idle)), INITIAL, false, [], [], [],
        [], [], 0)
  }

  // ---------- steps ----------

  function JobOf(s: System, g: nat): Goroutine {
    if g < |s.gos| then s.gos[g] else Goroutine(Drainer, Done)
  }

  function SetJob(s: System, g: nat, job: Job): System
    requires g < |s.gos|
  {
    s.(gos := s.gos[g := Goroutine(s.gos[g].role, job)])
  }

  /** A goroutine that is through with its entry goes round again, and sees the stop signal. */
  function Rest(s: System): Job {
    if s.stopped then Done else Idle
  }

  function PushTo(s: System, e: Entry, put: Put): System {
    var k := if put.evict <= |s.queue| then put.evict else |s.queue|;
    s.(queue := s.queue[k..] + (if put.stored then [e] else []),
       lost := s.lost + s.queue[..k] + (if put.stored then [] else [e]))
  }

  /** The two halves of a request refused as too large. */
  function Halves(e: Entry): seq<Entry> {
    var mid := |e.items| / 2;
    [Entry(e.items[..mid], true), Entry(e.items[mid..], true)]
  }

  /** After a failed export: split, drop, or push back. */
  function AfterFailedExport(s: System, g: nat, e: Entry, error: Option<ExportError>): System
    requires g < |s.gos|
  {
    if error.Some? && IsSplittable(error.value) && e.readable && |e.items| > 1 then SetJob(s, g, Pushing(Halves(e)))
    else if error.Some? && !IsRetryable(error.value) then SetJob(s.(refused := s.refused + [e]), g, Rest(s))
    else SetJob(s, g, Pushing([e]))
  }

  /** A worker without the raw path drops an entry that does not decode; no outcome is recorded. */
  function Spoiled(s: System, g: nat, e: Entry): System
    requires g < |s.gos|
  {
    SetJob(s.(corrupt := s.corrupt + [e]), g, Rest(s))
  }

  function Succeeded(s: System, g: nat, e: Entry): System
    requires g < |s.gos|
  {
    SetJob(s.(attempts := s.attempts + 1, breaker := AfterSuccess(s.breaker), delivered := s.delivered + [e]),
           g, Rest(s))
  }

  function Noted(cfg: Setup, s: System, now: int): System {
    s.(attempts := s.attempts + 1, breaker := AfterFailure(cfg.breaker, s.breaker, now))
  }

  predicate Undecodable(cfg: Setup, go: Goroutine, e: Entry) {
    go.role.Worker? && !cfg.rawExport && !e.readable
  }

  function Exported(cfg: Setup, s: System, g: nat, now: int, outcome: Outcome): System
    requires g < |s.gos|
  {
    var go := s.gos[g];
    if !go.job.Admitted? then s
    else if Undecodable(cfg, go, go.job.entry) then Spoiled(s, g, go.job.entry)
    else match outcome
      case Ok => Succeeded(s, g, go.job.entry)
      case Failed(error) => AfterFailedExport(Noted(cfg, s, now), g, go.job.entry, error)
  }

  /** Events that do not apply in the current state change nothing. */
  function Next(cfg: Setup, s: System, ev: Event): System {
    match ev
    case Accept(entry, put) => PushTo(s.(pushed := s.pushed + [entry]), entry, put)
    case Spawn(role) => if s.stopped then s else s.(gos := s.gos + [Goroutine(role, Idle)])
    case Stop => s.(stopped := true)
    case Pop(g) =>
      var go := JobOf(s, g);
      if go.job.Idle? && (go.role.Worker? || go.role.Preparer?) && s.queue != [] then
        SetJob(s.(queue := s.queue[1..]), g, Popped(s.queue[0]))
      else s
    case Ask(g, now, prepared) =>
      var go := JobOf(s, g);
      if !go.job.Popped? then s
      else if !Allows(cfg.breaker, s.breaker, now) then SetJob(s, g, Pushing([go.job.entry]))
      else
        var s1 := s.(breaker := AfterAllow(cfg.breaker, s.breaker, now));
        if go.role.Worker? then SetJob(s1, g, Admitted(go.job.entry))
        else if prepared then SetJob(s1, g, Ready(go.job.entry))
        else SetJob(s1, g, Pushing([go.job.entry]))
    case Attempt(g, now, outcome) => if g < |s.gos| then Exported(cfg, s, g, now, outcome) else s
    case PushBack(g, put) =>
      var go := JobOf(s, g);
      if go.job.Pushing? && go.job.todo != [] then
        var left := go.job.todo[1..];
        SetJob(PushTo(s, go.job.todo[0], put), g, if left != [] then Pushing(left) else Rest(s))
      else s
    case Hand(g) =>
      var go := JobOf(s, g);
      if go.job.Ready? && |s.channel| < cfg.capacity then
        SetJob(s.(channel := s.channel + [go.job.entry]), g, Rest(s))
      else s
    case Take(g) =>
      var go := JobOf(s, g);
      if go.role.Sender? && go.job.Idle? && s.channel != [] then
        SetJob(s.(channel := s.channel[1..]), g, Admitted(s.channel[0]))
      else s
    case Exit(g) =>
      var go := JobOf(s, g);
      if !s.stopped then (if go.role.Sender? && go.job.Idle? then SetJob(s, g, Done) else s)
      else if go.job.Idle? then SetJob(s, g, if go.role.Drainer? then Draining([]) else Done)
      else if go.job.Ready? then SetJob(s, g, Pushing([go.job.entry]))
      else s
    case DrainPop(g) =>
      var go := JobOf(s, g);
      if !go.job.Draining? || s.queue == [] then s
      else if !s.queue[0].readable then s.(queue := s.queue[1..], corrupt := s.corrupt + [s.queue[0]])
      else SetJob(s.(queue := s.queue[1..]), g, DrainHolds(s.queue[0], go.job.failed))
    case DrainExport(g, ok) =>
      var go := JobOf(s, g);
      if !go.job.DrainHolds? then s
      else if ok then SetJob(s.(delivered := s.delivered + [go.job.entry]), g, Draining(go.job.failed))
      else SetJob(s, g, Draining(go.job.failed + [go.job.entry]))
    case DrainEnd(g) =>
      var go := JobOf(s, g);
      if go.job.Draining? then SetJob(s, g, if go.job.failed == [] then Done else Pushing(go.job.failed)) else s
  }

  function Run(cfg: Setup, s: System, evs: seq<Event>): System {
    if evs == [] then s else Next(cfg, Run(cfg, s, evs[..|evs| - 1]), evs[|evs| - 1])
  }

  // ---------- where things are ----------

  function HeldBy(job: Job): seq<Entry> {
    match job
    case Idle => []
    case Popped(e) => [e]
    case Admitted(e) => [e]
    case Ready(e) => [e]
    case Pushing(todo) => todo
    case Draining(failed) => failed
    case DrainHolds(e, failed) => failed + [e]
    case Done => []
  }

  /** A measure summed over entries. */
  ghost function Tot(es: seq<Entry>, f: Entry -> nat): nat {
    if es == [] then 0 else f(es[0]) + Tot(es[1..], f)
  }

  lemma {:induction false} TotAppend(a: seq<Entry>, b: seq<Entry>, f: Entry -> nat)
    ensures Tot(a + b, f) == Tot(a, f) + Tot(b, f)
  {
    if a == [] {
      assert a + b == b;
    } else {
      assert (a + b)[1..] == a[1..] + b;
      TotAppend(a[1..], b, f);
    }
  }

  lemma TotSnoc(a: seq<Entry>, e: Entry, f: Entry -> nat)
    ensures Tot(a + [e], f) == Tot(a, f) + f(e)
  {
    TotAppend(a, [e], f);
  }

  lemma TotSplit(es: seq<Entry>, k: nat, f: Entry -> nat)
    requires k <= |es|
    ensures Tot(es, f) == Tot(es[..k], f) + Tot(es[k..], f)
  {
    TotAppend(es[..k], es[k..], f);
    assert es == es[..k] + es[k..];
  }

  lemma TotHalves(e: Entry, f: Entry -> nat)
    ensures Tot(Halves(e), f) == f(Halves(e)[0]) + f(Halves(e)[1])
  {
    var h := Halves(e);
    assert h == [h[0]] + [h[1]];
    TotSnoc([h[0]], h[1], f);
    assert Tot([h[0]], f) == f(h[0]);
  }

  ghost function Held(gos: seq<Goroutine>, f: Entry -> nat): nat {
    if gos == [] then 0 else Tot(HeldBy(gos[0].job), f) + Held(gos[1..], f)
  }

  lemma {:induction false} HeldUpdate(gos: seq<Goroutine>, g: nat, go: Goroutine, f: Entry -> nat)
    requires g < |gos|
    ensures Held(gos[g := go], f) == Held(gos, f) - Tot(HeldBy(gos[g].job), f) + Tot(HeldBy(go.job), f)
  {
    if g > 0 {
      assert gos[g := go][1..] == gos[1..][g - 1 := go];
      HeldUpdate(gos[1..], g - 1, go, f);
    } else {
      assert gos[g := go][1..] == gos[1..];
    }
  }

  lemma {:induction false} HeldSpawn(gos: seq<Goroutine>, go: Goroutine, f: Entry -> nat)
    requires HeldBy(go.job) == []
    ensures Held(gos + [go], f) == Held(gos, f)
  {
    if gos == [] {
      assert gos + [go] == [go];
    } else {
      assert (gos + [go])[1..] == gos[1..] + [go];
      HeldSpawn(gos[1..], go, f);
    }
  }

  /** Everything that has ended, one way or another. */
  ghost function Ended(s: System, f: Entry -> nat): nat {
    Tot(s.delivered, f) + Tot(s.refused, f) + Tot(s.corrupt, f) + Tot(s.lost, f)
  }

  ghost function InFlight(s: System, f: Entry -> nat): nat {
    Tot(s.queue, f) + Tot(s.channel, f) + Held(s.gos, f)
  }

  /** What is accounted for beyond what was pushed. */
  ghost function Surplus(s: System, f: Entry -> nat): int {
    InFlight(s, f) + Ended(s, f) - Tot(s.pushed, f)
  }

  // ---------- each step conserves every measure, except that a split may shed some ----------

  lemma SetJobSurplus(s: System, g: nat, job: Job, f: Entry -> nat)
    requires g < |s.gos|
    ensures Surplus(SetJob(s, g, job), f) == Surplus(s, f) - Tot(HeldBy(s.gos[g].job), f) + Tot(HeldBy(job), f)
  {
    HeldUpdate(s.gos, g, Goroutine(s.gos[g].role, job), f);
  }

  lemma PushToSurplus(s: System, e: Entry, put: Put, f: Entry -> nat)
    ensures Surplus(PushTo(s, e, put), f) == Surplus(s, f) + f(e)
  {
    var k := if put.evict <= |s.queue| then put.evict else |s.queue|;
    TotSplit(s.queue, k, f);
    TotAppend(s.lost, s.queue[..k], f);
    if put.stored {
      TotSnoc(s.queue[k..], e, f);
      assert s.lost + s.queue[..k] + [] == s.lost + s.queue[..k];
    } else {
      TotSnoc(s.lost + s.queue[..k], e, f);
      assert s.queue[k..] + [] == s.queue[k..];
    }
  }

  /** Ending an entry adds its measure to the ended ones. */
  lemma EndSurplus(s: System, e: Entry, f: Entry -> nat)
    ensures Surplus(s.(delivered := s.delivered + [e]), f) == Surplus(s, f) + f(e)
    ensures Surplus(s.(refused := s.refused + [e]), f) == Surplus(s, f) + f(e)
    ensures Surplus(s.(corrupt := s.corrupt + [e]), f) == Surplus(s, f) + f(e)
  {
    TotSnoc(s.delivered, e, f);
    TotSnoc(s.refused, e, f);
    TotSnoc(s.corrupt, e, f);
  }

  lemma AcceptSurplus(cfg: Setup, s: System, e: Entry, put: Put, f: Entry -> nat)
    ensures Surplus(Next(cfg, s, Accept(e, put)), f) == Surplus(s, f)
  {
    TotSnoc(s.pushed, e, f);
    PushToSurplus(s.(pushed := s.pushed + [e]), e, put, f);
  }

  lemma PushBackSurplus(cfg: Setup, s: System, g: nat, put: Put, f: Entry -> nat)
    ensures Surplus(Next(cfg, s, PushBack(g, put)), f) == Surplus(s, f)
  {
    var go := JobOf(s, g);
    if go.job.Pushing? && go.job.todo != [] {
      var todo := go.job.todo;
      PushToSurplus(s, todo[0], put, f);
      var job := if todo[1..] != [] then Pushing(todo[1..]) else Rest(s);
      assert HeldBy(job) == todo[1..];
      SetJobSurplus(PushTo(s, todo[0], put), g, job, f);
    }
  }

  lemma PopSurplus(cfg: Setup, s: System, g: nat, f: Entry -> nat)
    ensures Surplus(Next(cfg, s, Pop(g)), f) == Surplus(s, f)
  {
    if s.queue != [] && g < |s.gos| {
      SetJobSurplus(s.(queue := s.queue[1..]), g, Popped(s.queue[0]), f);
      assert Tot([s.queue[0]], f) == f(s.queue[0]);
    }
  }

  lemma DrainSpoilSurplus(s: System, f: Entry -> nat)
    requires s.queue != []
    ensures Surplus(s.(queue := s.queue[1..], corrupt := s.corrupt + [s.queue[0]]), f) == Surplus(s, f)
  {
    TotSnoc(s.corrupt, s.queue[0], f);
  }

  lemma DrainPopSurplus(cfg: Setup, s: System, g: nat, f: Entry -> nat)
    ensures Surplus(Next(cfg, s, DrainPop(g)), f) == Surplus(s, f)
  {
    if s.queue != [] && g < |s.gos| && s.gos[g].job.Draining? {
      var head, failed := s.queue[0], s.gos[g].job.failed;
      if !head.readable {
        DrainSpoilSurplus(s, f);
      } else {
        TotSnoc(failed, head, f);
        SetJobSurplus(s.(queue := s.queue[1..]), g, DrainHolds(head, failed), f);
      }
    }
  }

  lemma HandSurplus(cfg: Setup, s: System, g: nat, f: Entry -> nat)
    ensures Surplus(Next(cfg, s, Hand(g)), f) == Surplus(s, f)
  {
    if g < |s.gos| && s.gos[g].job.Ready? {
      var e := s.gos[g].job.entry;
      TotSnoc(s.channel, e, f);
      SetJobSurplus(s.(channel := s.channel + [e]), g, Rest(s), f);
      assert Tot([e], f) == f(e);
    }
  }

  lemma TakeSurplus(cfg: Setup, s: System, g: nat, f: Entry -> nat)
    ensures Surplus(Next(cfg, s, Take(g)), f) == Surplus(s, f)
  {
    if g < |s.gos| && s.channel != [] {
      SetJobSurplus(s.(channel := s.channel[1..]), g, Admitted(s.channel[0]), f);
      assert Tot([s.channel[0]], f) == f(s.channel[0]);
    }
  }

  lemma AskSurplus(cfg: Setup, s: System, g: nat, now: int, prepared: bool, f: Entry -> nat)
    ensures Surplus(Next(cfg, s, Ask(g, now, prepared)), f) == Surplus(s, f)
  {
    var go := JobOf(s, g);
    if go.job.Popped? {
      var s1 := s.(breaker := AfterAllow(cfg.breaker, s.breaker, now));
      SetJobSurplus(s, g, Pushing([go.job.entry]), f);
      SetJobSurplus(s1, g, Pushing([go.job.entry]), f);
      SetJobSurplus(s1, g, Admitted(go.job.entry), f);
      SetJobSurplus(s1, g, Ready(go.job.entry), f);
    }
  }

  /** The event splits the entry that goroutine g is exporting. */
  predicate Splits(cfg: Setup, s: System, ev: Event) {
    && ev.Attempt? && ev.g < |s.gos| && s.gos[ev.g].job.Admitted?
    && ev.outcome.Failed? && ev.outcome.error.Some? && IsSplittable(ev.outcome.error.value)
    && s.gos[ev.g].job.entry.readable && |s.gos[ev.g].job.entry.items| > 1
  }

  /** What a measure loses when an entry is halved. */
  ghost function Shed(cfg: Setup, s: System, ev: Event, f: Entry -> nat): int {
    if !Splits(cfg, s, ev) then 0
    else
      var e := s.gos[ev.g].job.entry;
      f(e) - f(Halves(e)[0]) - f(Halves(e)[1])
  }

  lemma FailedExportSurplus(s: System, g: nat, e: Entry, error: Option<ExportError>, f: Entry -> nat)
    requires g < |s.gos| && HeldBy(s.gos[g].job) == [e]
    ensures Surplus(AfterFailedExport(s, g, e, error), f) == Surplus(s, f) -
            if error.Some? && IsSplittable(error.value) && e.readable && |e.items| > 1
            then f(e) - f(Halves(e)[0]) - f(Halves(e)[1]) else 0
  {
    assert Tot([e], f) == f(e);
    if error.Some? && IsSplittable(error.value) && e.readable && |e.items| > 1 {
      TotHalves(e, f);
      SetJobSurplus(s, g, Pushing(Halves(e)), f);
    } else if error.Some? && !IsRetryable(error.value) {
      TotSnoc(s.refused, e, f);
      SetJobSurplus(s.(refused := s.refused + [e]), g, Rest(s), f);
    } else {
      SetJobSurplus(s, g, Pushing([e]), f);
    }
  }

  lemma SpoiledSurplus(s: System, g: nat, e: Entry, f: Entry -> nat)
    requires g < |s.gos| && HeldBy(s.gos[g].job) == [e]
    ensures Surplus(Spoiled(s, g, e), f) == Surplus(s, f)
  {
    assert Tot([e], f) == f(e);
    EndSurplus(s, e, f);
    SetJobSurplus(s.(corrupt := s.corrupt + [e]), g, Rest(s), f);
  }

  lemma SucceededSurplus(s: System, g: nat, e: Entry, f: Entry -> nat)
    requires g < |s.gos| && HeldBy(s.gos[g].job) == [e]
    ensures Surplus(Succeeded(s, g, e), f) == Surplus(s, f)
  {
    assert Tot([e], f) == f(e);
    var s1 := s.(attempts := s.attempts + 1, breaker := AfterSuccess(s.breaker));
    EndSurplus(s1, e, f);
    SetJobSurplus(s1.(delivered := s1.delivered + [e]), g, Rest(s), f);
  }

  lemma AttemptSurplus(cfg: Setup, s: System, g: nat, now: int, outcome: Outcome, f: Entry -> nat)
    ensures Surplus(Next(cfg, s, Attempt(g, now, outcome)), f) ==
            Surplus(s, f) - Shed(cfg, s, Attempt(g, now, outcome), f)
  {
    if g < |s.gos| && s.gos[g].job.Admitted? {
      var e := s.gos[g].job.entry;
      if Undecodable(cfg, s.gos[g], e) {
        SpoiledSurplus(s, g, e, f);
      } else if outcome.Ok? {
        SucceededSurplus(s, g, e, f);
      } else {
        FailedExportSurplus(Noted(cfg, s, now), g, e, outcome.error, f);
        assert Surplus(Noted(cfg, s, now), f) == Surplus(s, f);
      }
    }
  }

  lemma DrainExportSurplus(cfg: Setup, s: System, g: nat, ok: bool, f: Entry -> nat)
    ensures Surplus(Next(cfg, s, DrainExport(g, ok)), f) == Surplus(s, f)
  {
    if g < |s.gos| && s.gos[g].job.DrainHolds? {
      var e, failed := s.gos[g].job.entry, s.gos[g].job.failed;
      TotSnoc(failed, e, f);
      if ok {
        EndSurplus(s, e, f);
        SetJobSurplus(s.(delivered := s.delivered + [e]), g, Draining(failed), f);
      } else {
        SetJobSurplus(s, g, Draining(failed + [e]), f);
      }
    }
  }

  lemma DrainEndSurplus(cfg: Setup, s: System, g: nat, f: Entry -> nat)
    ensures Surplus(Next(cfg, s, DrainEnd(g)), f) == Surplus(s, f)
  {
    if g < |s.gos| && s.gos[g].job.Draining? {
      var failed := s.gos[g].job.failed;
      SetJobSurplus(s, g, if failed == [] then Done else Pushing(failed), f);
    }
  }

  lemma ExitSurplus(cfg: Setup, s: System, g: nat, f: Entry -> nat)
    ensures Surplus(Next(cfg, s, Exit(g)), f) == Surplus(s, f)
  {
    if g < |s.gos| {
      var go := s.gos[g];
      if go.job.Idle? && go.role.Drainer? {
        SetJobSurplus(s, g, Draining([]), f);
      } else if go.job.Idle? {
        SetJobSurplus(s, g, Done, f);
      } else if go.job.Ready? {
        SetJobSurplus(s, g, Pushing([go.job.entry]), f);
      }
    }
  }

  /** Every step keeps the balance of every measure, up to what a split sheds. */
  lemma NextSurplus(cfg: Setup, s: System, ev: Event, f: Entry -> nat)
    ensures Surplus(Next(cfg, s, ev), f) == Surplus(s, f) - Shed(cfg, s, ev, f)
  {
    match ev
    case Accept(entry, put) => AcceptSurplus(cfg, s, entry, put, f);
    case Spawn(role) => HeldSpawn(s.gos, Goroutine(role, Idle), f);
    case Stop =>
    case Pop(g) => PopSurplus(cfg, s, g, f);
    case Ask(g, now, prepared) => AskSurplus(cfg, s, g, now, prepared, f);
    case Attempt(g, now, outcome) => AttemptSurplus(cfg, s, g, now, outcome, f);
    case PushBack(g, put) => PushBackSurplus(cfg, s, g, put, f);
    case Hand(g) => HandSurplus(cfg, s, g, f);
    case Take(g) => TakeSurplus(cfg, s, g, f);
    case Exit(g) => ExitSurplus(cfg, s, g, f);
    case DrainPop(g) => DrainPopSurplus(cfg, s, g, f);
    case DrainExport(g, ok) => DrainExportSurplus(cfg, s, g, ok, f);
    case DrainEnd(g) => DrainEndSurplus(cfg, s, g, f);
  }

  lemma {:induction false} IdleHoldNothing(gos: seq<Goroutine>, f: Entry -> nat)
    requires forall i :: 0 <= i < |gos| ==> gos[i].job.Idle?
    ensures Held(gos, f) == 0
  {
    if gos != [] {
      IdleHoldNothing(gos[1..], f);
    }
  }

  // ---------- conservation ----------

  /** How often an item occurs in an entry. */
  ghost function Occurrences(x: nat): Entry -> nat {
    (e: Entry) => multiset(e.items)[x]
  }

  lemma HalvesKeepOccurrences(e: Entry, x: nat)
    ensures Occurrences(x)(Halves(e)[0]) + Occurrences(x)(Halves(e)[1]) == Occurrences(x)(e)
  {
    var mid := |e.items| / 2;
    assert e.items == e.items[..mid] + e.items[mid..];
  }

  /** How often an item occurs in each of the seven kinds of place. */
  ghost function Places(s: System, x: nat): seq<nat> {
    var f := Occurrences(x);
    [Tot(s.queue, f), Tot(s.channel, f), Held(s.gos, f), Tot(s.delivered, f), Tot(s.refused, f), Tot(s.corrupt, f),
        Tot(s.lost, f)]
  }

  /** In every interleaving of any number of workers, preparers, senders and drains, with
      arbitrary export outcomes, evictions, failed pushes and shutdown, every item pushed is
      accounted for exactly as often as it was pushed: in the queue, in the channel, held by
      a goroutine, delivered, refused, corrupt or lost by a push. */
  lemma {:induction false} EveryInterleavingConserves(cfg: Setup, roles: seq<Role>, evs: seq<Event>, x: nat)
    ensures Sum(Places(Run(cfg, Start(roles), evs), x)) == Tot(Run(cfg, Start(roles), evs).pushed, Occurrences(x))
  {
    var f := Occurrences(x);
    var s := Run(cfg, Start(roles), evs);
    assert Surplus(s, f) == 0 by {
      SurplusStaysZero(cfg, roles, evs, x);
    }
    SumOfSeven(Places(s, x));
  }

  lemma SumOfSeven(p: seq<nat>)
    requires |p| == 7
    ensures Sum(p) == p[0] + p[1] + p[2] + p[3] + p[4] + p[5] + p[6]
  {
    assert p == [p[0], p[1], p[2]] + [p[3], p[4], p[5], p[6]];
    SumAppend([p[0], p[1], p[2]], [p[3], p[4], p[5], p[6]]);
    assert Sum([p[0], p[1], p[2]]) == p[0] + Sum([p[1], p[2]]) == p[0] + p[1] + Sum([p[2]]);
    assert Sum([p[3], p[4], p[5], p[6]]) == p[3] + Sum([p[4], p[5], p[6]]) == p[3] + p[4] + Sum([p[5], p[6]]);
    assert Sum([p[5], p[6]]) == p[5] + Sum([p[6]]);
  }

  lemma {:induction false} SurplusStaysZero(cfg: Setup, roles: seq<Role>, evs: seq<Event>, x: nat)
    ensures Surplus(Run(cfg, Start(roles), evs), Occurrences(x)) == 0
  {
    if evs == [] {
      IdleHoldNothing(Start(roles).gos, Occurrences(x));
    } else {
      var before := Run(cfg, Start(roles), evs[..|evs| - 1]);
      var ev := evs[|evs| - 1];
      SurplusStaysZero(cfg, roles, evs[..|evs| - 1], x);
      NextSurplus(cfg, before, ev, Occurrences(x));
      if Splits(cfg, before, ev) {
        HalvesKeepOccurrences(before.gos[ev.g].job.entry, x);
      }
    }
  }

  /** A resource metric pushed once is in exactly one place, once; one that was never
      pushed is nowhere. */
  lemma ExactlyOnePlace(cfg: Setup, roles: seq<Role>, evs: seq<Event>, x: nat)
    ensures var s := Run(cfg, Start(roles), evs);
            var pushed := Tot(s.pushed, Occurrences(x));
            && (pushed == 1 ==> exists p :: 0 <= p < 7 && Places(s, x)[p] == 1 && forall q :: 0 <= q < 7 && q != p ==>
                Places(s, x)[q] == 0)
            && (pushed == 0 ==> forall p :: 0 <= p < 7 ==> Places(s, x)[p] == 0)
  {
    EveryInterleavingConserves(cfg, roles, evs, x);
    var p := Places(Run(cfg, Start(roles), evs), x);
    if Sum(p) <= 1 {
      OneOfSeven(p);
    }
  }

  lemma OneOfSeven(p: seq<nat>)
    requires |p| == 7 && Sum(p) <= 1
    ensures Sum(p) == 1 ==> exists i :: 0 <= i < 7 && p[i] == 1 && forall j :: 0 <= j < 7 && j != i ==> p[j] == 0
    ensures Sum(p) == 0 ==> forall i :: 0 <= i < 7 ==> p[i] == 0
  {
    SumOfSeven(p);
    if Sum(p) == 1 {
      var i := if p[0] == 1 then 0 else if p[1] == 1 then 1 else if p[2] == 1 then 2 else if p[3] == 1 then 3
               else if p[4] == 1 then 4 else if p[5] == 1 then 5 else 6;
      assert p[i] == 1;
    }
  }
}
