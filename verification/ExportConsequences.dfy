/** What conservation implies for oversized batches (internal/exporter/queued.go). */
module ExportConsequences {
  import opened Collections
  import opened ExportErrors
  import opened ExportProtocol

  // ---------- a batch refused as too large every time ----------

  /** Export attempts a batch of n items costs if each is refused as too large: 2n - 1. */
  function Cost(e: Entry): nat {
    if |e.items| <= 1 then 1 else 2 * |e.items| - 1
  }

  function Unreadable(e: Entry): nat {
    if e.readable then 0 else 1
  }

  predicate CleanPut(put: Put) {
    put.evict == 0 && put.stored
  }

  /** Pushes succeed, requests decode, and every export is refused with a splittable error
      built from an HTTP status. */
  ghost predicate AlwaysTooLarge(evs: seq<Event>) {
    forall i :: 0 <= i < |evs| ==>
      match evs[i]
      case Accept(e, put) => e.readable && CleanPut(put)
      case PushBack(_, put) => CleanPut(put)
      case Attempt(_, _, outcome) =>
        outcome.Failed? && outcome.error.Some? &&
        exists status, msg :: outcome.error.value == FromStatus(status, msg) && IsSplittable(FromStatus(status, msg))
      case DrainPop(_) => false
      case DrainExport(_, _) => false
      case _ => true
  }

  lemma {:induction false} HeldIncludes(gos: seq<Goroutine>, g: nat, f: Entry -> nat)
    requires g < |gos|
    ensures Tot(HeldBy(gos[g].job), f) <= Held(gos, f)
  {
    if g > 0 {
      HeldIncludes(gos[1..], g - 1, f);
    }
  }

  lemma {:induction false} TotOfOnes(es: seq<Entry>)
    requires forall i :: 0 <= i < |es| ==> |es[i].items| <= 1
    ensures Tot(es, Cost) == |es|
  {
    if es != [] {
      TotOfOnes(es[1..]);
    }
  }

  lemma HalvingShedsOne(e: Entry)
    requires |e.items| > 1
    ensures Cost(e) - Cost(Halves(e)[0]) - Cost(Halves(e)[1]) == 1
  {
  }

  /** The invariant of such a run: only single items have been dropped, everything in flight
      decodes, and attempts made plus attempts still owed never change. */
  ghost predicate Owed(s: System) {
    && s.delivered == [] && s.corrupt == [] && s.lost == []
    && (forall i :: 0 <= i < |s.refused| ==> |s.refused[i].items| <= 1)
    && s.attempts == |s.refused| - Surplus(s, Cost)
    && InFlight(s, Unreadable) == 0
  }

  lemma HeldIsReadable(s: System, g: nat)
    requires InFlight(s, Unreadable) == 0 && g < |s.gos| && s.gos[g].job.Admitted?
    ensures s.gos[g].job.entry.readable
  {
    HeldIncludes(s.gos, g, Unreadable);
    assert Tot([s.gos[g].job.entry], Unreadable) == Unreadable(s.gos[g].job.entry);
  }

  /** Splittable and not retryable, as an HTTP too-large answer is: split, or drop a single. */
  lemma RefusedAttempt(cfg: Setup, s: System, g: nat, now: int, error: ExportError)
    requires g < |s.gos| && s.gos[g].job.Admitted? && s.gos[g].job.entry.readable
    requires IsSplittable(error) && !IsRetryable(error)
    ensures var e := s.gos[g].job.entry;
            var t := Next(cfg, s, Attempt(g, now, Failed(Some(error))));
            && t.delivered == s.delivered && t.corrupt == s.corrupt && t.lost == s.lost
            && t.attempts == s.attempts + 1
            && t.refused == if |e.items| > 1 then s.refused else s.refused + [e]
  {
    assert Next(cfg, s, Attempt(g, now, Failed(Some(error)))) ==
           AfterFailedExport(Noted(cfg, s, now), g, s.gos[g].job.entry, Some(error));
  }

  /** Events other than exports and drains leave the ended entries and the attempts alone. */
  lemma QuietEvent(cfg: Setup, s: System, ev: Event)
    requires !ev.Attempt? && !ev.DrainPop? && !ev.DrainExport?
    requires ev.Accept? || ev.PushBack? ==> CleanPut(ev.put)
    ensures var t := Next(cfg, s, ev);
            t.delivered == s.delivered && t.refused == s.refused && t.corrupt == s.corrupt && t.lost == s.lost &&
                t.attempts == s.attempts
  {
  }

  lemma PushedByAccept(cfg: Setup, s: System, ev: Event)
    ensures Next(cfg, s, ev).pushed == if ev.Accept? then s.pushed + [ev.entry] else s.pushed
  {
  }

  lemma NothingUnreadable(cfg: Setup, s: System, ev: Event)
    requires Surplus(s, Unreadable) == 0 && Tot(s.pushed, Unreadable) == 0
    requires ev.Accept? ==> ev.entry.readable
    ensures Surplus(Next(cfg, s, ev), Unreadable) == 0 && Tot(Next(cfg, s, ev).pushed, Unreadable) == 0
    ensures InFlight(Next(cfg, s, ev), Unreadable) == 0
  {
    assert Shed(cfg, s, ev, Unreadable) == 0;
    var t := Next(cfg, s, ev);
    assert Surplus(t, Unreadable) == 0 by {
      NextSurplus(cfg, s, ev, Unreadable);
    }
    assert Tot(t.pushed, Unreadable) == 0 by {
      PushedByAccept(cfg, s, ev);
      if ev.Accept? {
        TotSnoc(s.pushed, ev.entry, Unreadable);
      }
    }
  }

  /** One event of such a run. */
  ghost predicate TooLargeEvent(ev: Event) {
    AlwaysTooLarge([ev])
  }

  lemma OwedAttempt(cfg: Setup, s: System, ev: Event)
    requires Owed(s) && TooLargeEvent(ev) && ev.Attempt?
    requires InFlight(Next(cfg, s, ev), Unreadable) == 0
    ensures Owed(Next(cfg, s, ev))
  {
    assert [ev][0] == ev;
    if ev.g < |s.gos| && s.gos[ev.g].job.Admitted? {
      var status, msg :| ev.outcome.error.value == FromStatus(status, msg) && IsSplittable(FromStatus(status, msg));
      SplittableStatusNotRetryable(status, msg);
      HeldIsReadable(s, ev.g);
      RefusedAttempt(cfg, s, ev.g, ev.now, ev.outcome.error.value);
      NextSurplus(cfg, s, ev, Cost);
      if |s.gos[ev.g].job.entry.items| > 1 {
        HalvingShedsOne(s.gos[ev.g].job.entry);
      }
    }
  }

  lemma OwedQuiet(cfg: Setup, s: System, ev: Event)
    requires Owed(s) && TooLargeEvent(ev) && !ev.Attempt?
    requires InFlight(Next(cfg, s, ev), Unreadable) == 0
    ensures Owed(Next(cfg, s, ev))
  {
    assert [ev][0] == ev;
    QuietEvent(cfg, s, ev);
    NextSurplus(cfg, s, ev, Cost);
  }

  lemma {:induction false} OwedThroughout(cfg: Setup, roles: seq<Role>, evs: seq<Event>)
    requires AlwaysTooLarge(evs)
    ensures var s := Run(cfg, Start(roles), evs);
            Owed(s) && Surplus(s, Unreadable) == 0 && Tot(s.pushed, Unreadable) == 0
  {
    if evs == [] {
      IdleHoldNothing(Start(roles).gos, Unreadable);
      IdleHoldNothing(Start(roles).gos, Cost);
    } else {
      var n := |evs| - 1;
      OwedThroughout(cfg, roles, evs[..n]);
      var s := Run(cfg, Start(roles), evs[..n]);
      var ev := evs[n];
      NothingUnreadable(cfg, s, ev);
      assert TooLargeEvent(ev);
      if ev.Attempt? {
        OwedAttempt(cfg, s, ev);
      } else {
        OwedQuiet(cfg, s, ev);
      }
    }
  }

  /** In every interleaving in which each export is refused as too large, batches of
      n1, n2, ... items cost together exactly the sum of 2n - 1 attempts less what is still
      owed for entries in flight, and only single items are ever dropped. */
  lemma TooLargeCostsTwiceLessOne(cfg: Setup, roles: seq<Role>, evs: seq<Event>)
    requires AlwaysTooLarge(evs)
    ensures var s := Run(cfg, Start(roles), evs);
            && s.attempts + InFlight(s, Cost) == Tot(s.pushed, Cost)
            && s.delivered == [] && s.corrupt == [] && s.lost == []
            && forall i :: 0 <= i < |s.refused| ==> |s.refused[i].items| <= 1
  {
    OwedThroughout(cfg, roles, evs);
    var s := Run(cfg, Start(roles), evs);
    TotOfOnes(s.refused);
  }

  function Size(e: Entry): nat {
    |e.items|
  }

  /** Single-item requests an entry falls into (an empty request stays one). */
  function Leaves(e: Entry): nat {
    if |e.items| == 0 then 1 else |e.items|
  }

  lemma HalvingKeeps(e: Entry)
    requires |e.items| > 1
    ensures Size(Halves(e)[0]) + Size(Halves(e)[1]) == Size(e)
    ensures Leaves(Halves(e)[0]) + Leaves(Halves(e)[1]) == Leaves(e)
  {
  }

  lemma {:induction false} SizesBalance(cfg: Setup, roles: seq<Role>, evs: seq<Event>)
    ensures Surplus(Run(cfg, Start(roles), evs), Size) == 0 && Surplus(Run(cfg, Start(roles), evs), Leaves) == 0
  {
    if evs == [] {
      IdleHoldNothing(Start(roles).gos, Size);
      IdleHoldNothing(Start(roles).gos, Leaves);
    } else {
      var s, ev := Run(cfg, Start(roles), evs[..|evs| - 1]), evs[|evs| - 1];
      SizesBalance(cfg, roles, evs[..|evs| - 1]);
      NextSurplus(cfg, s, ev, Size);
      NextSurplus(cfg, s, ev, Leaves);
      if Splits(cfg, s, ev) {
        HalvingKeeps(s.gos[ev.g].job.entry);
      }
    }
  }

  lemma {:induction false} LeavesOfSingles(es: seq<Entry>)
    requires forall i :: 0 <= i < |es| ==> |es[i].items| <= 1
    ensures Tot(es, Leaves) == |es|
  {
    if es != [] {
      LeavesOfSingles(es[1..]);
    }
  }

  /** Such a run ends, once nothing is in flight, with every item dropped, one per dropped
      entry: n items pushed in non-empty requests become n single-item drops. */
  lemma TooLargeEndsInSingles(cfg: Setup, roles: seq<Role>, evs: seq<Event>)
    requires AlwaysTooLarge(evs)
    ensures var s := Run(cfg, Start(roles), evs);
            && Tot(s.refused, Size) + InFlight(s, Size) == Tot(s.pushed, Size)
            && |s.refused| + InFlight(s, Leaves) == Tot(s.pushed, Leaves)
            && (InFlight(s, Leaves) == 0 ==> InFlight(s, Size) == 0 && Tot(s.refused, Size) == Tot(s.pushed, Size))
  {
    var s := Run(cfg, Start(roles), evs);
    TooLargeCostsTwiceLessOne(cfg, roles, evs);
    SizesBalance(cfg, roles, evs);
    LeavesOfSingles(s.refused);
    InFlightAtMost(s);
  }

  lemma {:induction false} TotAtMost(es: seq<Entry>)
    ensures Tot(es, Size) <= Tot(es, Leaves)
  {
    if es != [] {
      TotAtMost(es[1..]);
    }
  }

  lemma {:induction false} HeldAtMost(gos: seq<Goroutine>)
    ensures Held(gos, Size) <= Held(gos, Leaves)
  {
    if gos != [] {
      TotAtMost(HeldBy(gos[0].job));
      HeldAtMost(gos[1..]);
    }
  }

  lemma InFlightAtMost(s: System)
    ensures InFlight(s, Size) <= InFlight(s, Leaves)
  {
    TotAtMost(s.queue);
    TotAtMost(s.channel);
    HeldAtMost(s.gos);
  }
}
