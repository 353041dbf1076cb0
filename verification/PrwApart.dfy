/** Cardinality limits of remote write when no two label lists of a run share a hash
    (internal/prw/limits.go). */
module PrwApart {
  import opened Collections
  import opened PrwLimits
  import opened PrwBounds
  import opened PrwExact

  ghost predicate Occurs(events: seq<Event>, ts: Series) {
    exists i :: 0 <= i < |events| && events[i].Batch? && events[i].req.Some? && ts in events[i].req.value.series
  }

  ghost predicate CollisionFree(c: Config, events: seq<Event>) {
    forall a, b :: Occurs(events, a) && Occurs(events, b) && c.fingerprint(a.labels) == c.fingerprint(b.labels) ==>
      a.labels == b.labels
  }

  /** No run without collisions keeps more hashes than rule r's cardinality. */
  ghost predicate CardinalityBindsApart(c: Config, r: nat)
    requires r < |c.rules|
  {
    forall d, now, events :: SameShape(c, d) && CollisionFree(d, events) ==>
      |RunWatch(d, Fresh(now), NOTHING, r, events).hashes| <= c.rules[r].maxCardinality
  }

  /** No earlier rule sharing rule r's name admits more series than r does. */
  predicate TightestSoFar(c: Config, r: nat)
    requires r < |c.rules|
  {
    forall j :: 0 <= j < r && c.rules[j].name == c.rules[r].name && c.rules[j].maxCardinality > 0 ==>
      c.rules[j].maxCardinality <= c.rules[r].maxCardinality
  }

  // ---------- the hashes of series that match rule r ----------

  /** Labels that a run may carry, no two with one hash. */
  ghost predicate Apart(c: Config, lists: iset<seq<Label>>) {
    forall a, b :: a in lists && b in lists && c.fingerprint(a) == c.fingerprint(b) ==> a == b
  }

  ghost predicate Ours(c: Config, r: nat, lists: iset<seq<Label>>, h: nat)
    requires r < |c.rules|
  {
    exists l :: l in lists && c.fingerprint(l) == h && Matches(c.rules[r], Series(l, 0, 0, 0))
  }

  ghost function OursSeen(c: Config, st: Ledger, r: nat, lists: iset<seq<Label>>): set<nat>
    requires r < |c.rules|
  {
    set h | h in SeenOf(st, c.rules[r].name) && Ours(c, r, lists, h)
  }

  ghost predicate FewOurs(c: Config, st: Ledger, r: nat, lists: iset<seq<Label>>)
    requires r < |c.rules|
  {
    |OursSeen(c, st, r, lists)| <= Max(0, c.rules[r].maxCardinality)
  }

  /** Only labels decide whether a rule matches. */
  lemma OursIs(c: Config, r: nat, lists: iset<seq<Label>>, ts: Series)
    requires r < |c.rules| && Apart(c, lists) && ts.labels in lists
    ensures Ours(c, r, lists, c.fingerprint(ts.labels)) <==> Matches(c.rules[r], ts)
  {
    assert Matches(c.rules[r], Series(ts.labels, 0, 0, 0)) <==> Matches(c.rules[r], ts);
  }

  lemma RememberAdds(c: Config, st: Ledger, rule: Rule, ts: Series, name: string)
    requires !OverCardinality(c, st, rule, ts)
    ensures var t := Remember(c, st, rule, ts);
            || SeenOf(t, name) == SeenOf(st, name)
            || (rule.name == name && |SeenOf(st, name)| < rule.maxCardinality &&
                SeenOf(t, name) == SeenOf(st, name) + {c.fingerprint(ts.labels)})
  {
    var known, h := SeenOf(st, rule.name), c.fingerprint(ts.labels);
    if h in known {
      assert known + {h} == known;
    }
  }

  /** A visit changes rule r's set only by adding the series to it. */
  lemma VisitAdds(c: Config, st: Ledger, rule: Rule, ts: Series, name: string)
    ensures var t := Visit(c, st, rule, ts).0;
            || SeenOf(t, name) == SeenOf(st, name)
            || (rule.name == name && |SeenOf(st, name)| < rule.maxCardinality &&
                SeenOf(t, name) == SeenOf(st, name) + {c.fingerprint(ts.labels)})
  {
    var charged := ChargeRate(st, rule, ts);
    assert SeenOf(charged, name) == SeenOf(st, name);
    if Matches(rule, ts) && !OverRate(st, rule, ts) && !OverCardinality(c, charged, rule, ts) {
      RememberAdds(c, charged, rule, ts, name);
    }
  }

  lemma VisitKeepsFew(c: Config, st: Ledger, j: nat, ts: Series, r: nat, lists: iset<seq<Label>>)
    requires j < |c.rules| && r < |c.rules| && TightestSoFar(c, r) && Apart(c, lists) && ts.labels in lists
    requires FewOurs(c, st, r, lists)
    requires j > r && Matches(c.rules[r], ts) ==> c.fingerprint(ts.labels) in SeenOf(st, c.rules[r].name)
    ensures FewOurs(c, Visit(c, st, c.rules[j], ts).0, r, lists)
  {
    var t := Visit(c, st, c.rules[j], ts).0;
    var name, h := c.rules[r].name, c.fingerprint(ts.labels);
    VisitAdds(c, st, c.rules[j], ts, name);
    OursIs(c, r, lists, ts);
    if SeenOf(t, name) != SeenOf(st, name) {
      if j <= r {
        SubsetCard(OursSeen(c, t, r, lists), SeenOf(t, name));
      } else {
        assert SeenOf(st, name) + {h} == SeenOf(t, name) && h !in SeenOf(st, name);
        assert OursSeen(c, t, r, lists) == OursSeen(c, st, r, lists);
      }
    } else {
      assert OursSeen(c, t, r, lists) == OursSeen(c, st, r, lists);
    }
  }

  lemma {:induction false} ScanKeepsFew(c: Config, st: Ledger, ts: Series, j: nat, r: nat, lists: iset<seq<Label>>)
    requires j <= |c.rules| && r < |c.rules| && TightestSoFar(c, r) && Apart(c, lists) && ts.labels in lists
    requires FewOurs(c, st, r, lists) && c.rules[r].maxCardinality > 0
    requires j > r && Matches(c.rules[r], ts) ==> c.fingerprint(ts.labels) in SeenOf(st, c.rules[r].name)
    ensures FewOurs(c, Scan(c, st, ts, j).0, r, lists)
    decreases |c.rules| - j
  {
    if j < |c.rules| {
      VisitKeepsFew(c, st, j, ts, r, lists);
      var (next, ok) := Visit(c, st, c.rules[j], ts);
      if ok {
        VisitGrows(c, st, c.rules[j], ts, c.rules[r].name);
        if j == r && Matches(c.rules[r], ts) {
          VisitCharges(c, st, c.rules[r], ts);
        }
        ScanKeepsFew(c, next, ts, j + 1, r, lists);
      }
    }
  }

  // ---------- runs ----------

  /** The hashes that were kept and not waived are in rule r's set, and there are few of them. */
  ghost predicate Held(c: Config, st: Ledger, w: Watch, r: nat, lists: iset<seq<Label>>)
    requires r < |c.rules|
  {
    FewOurs(c, st, r, lists) && w.hashes <= w.waived + OursSeen(c, st, r, lists)
  }

  lemma SeriesHeld(c: Config, st: Ledger, w: Watch, r: nat, ts: Series, lists: iset<seq<Label>>)
    requires r < |c.rules| && TightestSoFar(c, r) && Apart(c, lists) && ts.labels in lists
    requires c.rules[r].maxCardinality > 0 && Held(c, st, w, r, lists)
    ensures Held(c, AfterSeries(c, st, ts), Observe(c, w, r, ts, Scan(c, st, ts, 0).1), r, lists)
  {
    var (next, violated) := Scan(c, st, ts, 0);
    ScanKeepsFew(c, st, ts, 0, r, lists);
    ScanGrows(c, st, ts, 0, c.rules[r].name);
    if Matches(c.rules[r], ts) && Passed(r, violated) {
      ScanCharges(c, st, ts, 0, r);
    }
    ObserveHeld(c, st, next, w, r, ts, violated, lists);
    SameSeenHeld(c, AfterSeries(c, st, ts), next, r, lists);
  }

  lemma ObserveHeld(c: Config, st: Ledger, next: Ledger, w: Watch, r: nat, ts: Series, violated: Option<nat>,
                    lists: iset<seq<Label>>)
    requires r < |c.rules| && (violated.Some? ==> violated.value < |c.rules|)
    requires Apart(c, lists) && ts.labels in lists && w.hashes <= w.waived + OursSeen(c, st, r, lists)
    requires SeenOf(st, c.rules[r].name) <= SeenOf(next, c.rules[r].name)
    requires Matches(c.rules[r], ts) && Passed(r, violated) ==>
               c.fingerprint(ts.labels) in SeenOf(next, c.rules[r].name)
    ensures var after := Observe(c, w, r, ts, violated);
            after.hashes <= after.waived + OursSeen(c, next, r, lists)
  {
    assert OursSeen(c, st, r, lists) <= OursSeen(c, next, r, lists);
    OursIs(c, r, lists, ts);
  }

  lemma {:induction false} AllHeld(c: Config, st: Ledger, w: Watch, r: nat, all: seq<Series>, lists: iset<seq<Label>>)
    requires r < |c.rules| && TightestSoFar(c, r) && Apart(c, lists) && forall ts :: ts in all ==> ts.labels in lists
    requires c.rules[r].maxCardinality > 0 && Held(c, st, w, r, lists)
    ensures Held(c, AfterAll(c, st, all), ObserveAll(c, st, w, r, all), r, lists)
    decreases |all|
  {
    if all != [] {
      assert all[0] in all;
      SeriesHeld(c, st, w, r, all[0], lists);
      AllHeld(c, AfterSeries(c, st, all[0]), Observe(c, w, r, all[0], Scan(c, st, all[0], 0).1), r, all[1..], lists);
    }
  }

  lemma SameSeenHeld(c: Config, a: Ledger, b: Ledger, r: nat, lists: iset<seq<Label>>)
    requires r < |c.rules| && a.seen == b.seen
    ensures OursSeen(c, a, r, lists) == OursSeen(c, b, r, lists)
  {
  }

  lemma NextHeld(c: Config, st: Ledger, w: Watch, r: nat, e: Event, lists: iset<seq<Label>>)
    requires r < |c.rules| && TightestSoFar(c, r) && Apart(c, lists)
    requires e.Batch? && e.req.Some? ==> forall ts :: ts in e.req.value.series ==> ts.labels in lists
    requires c.rules[r].maxCardinality > 0 && Held(c, st, w, r, lists)
    ensures Held(c, Next(c, st, e), NextWatch(c, st, w, r, e), r, lists)
  {
    match e
    case Batch(req, now) =>
      if req.Some? {
        var w' := if now - st.lastReset >= 1.0 then w.(kept := 0, excused := 0) else w;
        SameSeenHeld(c, st, Rolled(st, now), r, lists);
        AllHeld(c, Rolled(st, now), w', r, req.value.series, lists);
      }
    case CardinalityReset =>
      assert OursSeen(c, Next(c, st, e), r, lists) == {};
    case StatsReset =>
      SameSeenHeld(c, st, Next(c, st, e), r, lists);
  }

  lemma {:induction false} RunHeld(c: Config, st: Ledger, w: Watch, r: nat, events: seq<Event>, lists: iset<seq<Label>>)
    requires r < |c.rules| && TightestSoFar(c, r) && Apart(c, lists)
    requires forall ts :: Occurs(events, ts) ==> ts.labels in lists
    requires c.rules[r].maxCardinality > 0 && Held(c, st, w, r, lists)
    ensures Held(c, Run(c, st, events), RunWatch(c, st, w, r, events), r, lists)
    decreases |events|
  {
    if events != [] {
      var e := events[0];
      if e.Batch? && e.req.Some? {
        forall ts | ts in e.req.value.series ensures ts.labels in lists {
          assert events[0].Batch?;
          assert Occurs(events, ts);
        }
      }
      forall ts | Occurs(events[1..], ts) ensures ts.labels in lists {
        var i :| 0 <= i < |events[1..]| && events[1..][i].Batch? && events[1..][i].req.Some? &&
                 ts in events[1..][i].req.value.series;
        assert events[i + 1] == events[1..][i];
        assert Occurs(events, ts);
      }
      NextHeld(c, st, w, r, e, lists);
      RunHeld(c, Next(c, st, e), NextWatch(c, st, w, r, e), r, events[1..], lists);
    }
  }

  /** Without collisions the rules before r suffice. */
  lemma StrictApartHolds(c: Config, now: real, r: nat, events: seq<Event>)
    requires r < |c.rules| && Strict(c, r) && TightestSoFar(c, r) && CollisionFree(c, events)
    requires c.rules[r].maxCardinality > 0
    ensures |RunWatch(c, Fresh(now), NOTHING, r, events).hashes| <= c.rules[r].maxCardinality
  {
    var lists := iset ts | Occurs(events, ts) :: ts.labels;
    assert Apart(c, lists);
    assert OursSeen(c, Fresh(now), r, lists) == {};
    RunHeld(c, Fresh(now), NOTHING, r, events, lists);
    StrictRunExcusesNone(c, Fresh(now), NOTHING, r, events);
    SubsetCard(RunWatch(c, Fresh(now), NOTHING, r, events).hashes,
               OursSeen(c, Run(c, Fresh(now), events), r, lists));
  }

  // ---------- a wider rule in front ----------

  lemma InsertOne(c: Config, k: nat, r: nat, st: Ledger, n: nat)
    requires k < r < |c.rules| && c.rules[k].name == c.rules[r].name && n > 0 && Uncharged(st)
    requires |SeenOf(st, c.rules[r].name)| < c.rules[k].maxCardinality
    ensures var d := Only(c, k, r); var t := AfterSeries(d, st, Tagged(n, 0));
            && Scan(d, st, Tagged(n, 0), 0).1 == None && Uncharged(t)
            && SeenOf(t, c.rules[r].name) == SeenOf(st, c.rules[r].name) + {n}
  {
    var d, ts := Only(c, k, r), Tagged(n, 0);
    forall i | 0 <= i < |c.rules| ensures Matches(d.rules[i], ts) <==> i == k || i == r {
      OnlyMatches(c, k, r, i, n, 0);
    }
    assert d.fingerprint(ts.labels) == n;
    InsertWith(d, st, ts, k, r);
  }

  lemma InsertWith(d: Config, st: Ledger, ts: Series, k: nat, r: nat)
    requires k < r < |d.rules| && d.rules[k].name == d.rules[r].name && Points(ts) == 0 && Uncharged(st)
    requires forall i :: 0 <= i < |d.rules| ==> (Matches(d.rules[i], ts) <==> i == k || i == r)
    requires |SeenOf(st, d.rules[k].name)| < d.rules[k].maxCardinality
    ensures var t := AfterSeries(d, st, ts);
            && Scan(d, st, ts, 0).1 == None && Uncharged(t)
            && SeenOf(t, d.rules[k].name) == SeenOf(st, d.rules[k].name) + {d.fingerprint(ts.labels)}
  {
    SkipTo(d, st, ts, 0, k);
    FillVisit(d, st, d.rules[k], ts);
    PassesAll(d, Visit(d, st, d.rules[k], ts).0, ts, d.rules[k].name, k + 1);
    KeptKeepsState(d, st, ts);
  }

  lemma {:induction false} InsertAll(c: Config, k: nat, r: nat, st: Ledger, w: Watch, from: nat, count: nat)
    requires k < r < |c.rules| && c.rules[k].name == c.rules[r].name && from > 0 && Uncharged(st)
    requires |SeenOf(st, c.rules[r].name)| + count <= c.rules[k].maxCardinality
    ensures var after := ObserveAll(Only(c, k, r), st, w, r, Tags(from, count, 0));
            w.hashes <= after.hashes && forall n :: from <= n < from + count ==> n in after.hashes
    decreases count
  {
    if count > 0 {
      var d, ts := Only(c, k, r), Tagged(from, 0);
      InsertOne(c, k, r, st, from);
      OnlyMatches(c, k, r, r, from, 0);
      InsertAll(c, k, r, AfterSeries(d, st, ts), Observe(d, w, r, ts, None), from + 1, count - 1);
      assert Tags(from, count, 0)[1..] == Tags(from + 1, count - 1, 0);
    }
  }

  lemma OneBatchIsFree(c: Config, j: nat, r: nat, all: seq<Series>, now: real)
    requires forall a, b :: a in all && b in all && |a.labels| == |b.labels| ==> a.labels == b.labels
    ensures CollisionFree(Only(c, j, r), OneBatch(all, now))
  {
    forall a | Occurs(OneBatch(all, now), a) ensures a in all {
    }
  }

  lemma TagsAreApart(c: Config, j: nat, r: nat, n: nat, now: real)
    ensures CollisionFree(Only(c, j, r), OneBatch(Tags(1, n, 0), now))
  {
    DistinctLengths(0, n, 0);
    assert Fillers(0) + Tags(1, n, 0) == Tags(1, n, 0);
    OneBatchIsFree(c, j, r, Tags(1, n, 0), now);
  }

  /** A wider rule in front enters every series it accepts, and rule r finds it there. */
  lemma WiderInFrontLeaks(c: Config, k: nat, r: nat, now: real)
    requires k < r < |c.rules| && c.rules[k].name == c.rules[r].name
    requires 0 < c.rules[r].maxCardinality < c.rules[k].maxCardinality
    ensures var all := Tags(1, c.rules[r].maxCardinality + 1, 0);
            |RunWatch(Only(c, k, r), Fresh(now), NOTHING, r, OneBatch(all, now)).hashes| > c.rules[r].maxCardinality
  {
    var d, n := Only(c, k, r), c.rules[r].maxCardinality + 1;
    InsertAll(c, k, r, Fresh(now), NOTHING, 1, n);
    OneBatchWatch(d, r, Tags(1, n, 0), now);
    RangeIs(1, n);
    SubsetCard(Range(1, n), ObserveAll(d, Fresh(now), NOTHING, r, Tags(1, n, 0)).hashes);
  }

  /** Kept hashes of rule r stay within its cardinality in every run without hash collisions if
      and only if the mode is enforcing, every rule up to r that has a limit drops, and no earlier
      rule of the same name has a larger cardinality. */
  lemma CardinalityBindsApartIff(c: Config, r: nat)
    requires r < |c.rules| && c.rules[r].maxCardinality > 0
    ensures CardinalityBindsApart(c, r) <==> Strict(c, r) && TightestSoFar(c, r)
  {
    LaxIff(c, r);
    if Strict(c, r) && TightestSoFar(c, r) {
      forall d, now, events | SameShape(c, d) && CollisionFree(d, events)
        ensures |RunWatch(d, Fresh(now), NOTHING, r, events).hashes| <= c.rules[r].maxCardinality
      {
        ShapeKeepsConditions(c, d, r);
        assert TightestSoFar(d, r);
        StrictApartHolds(d, now, r, events);
      }
    } else if !Strict(c, r) {
      var j :| 0 <= j <= r && Lax(c, j);
      var all := LaxLeaks(c, j, r, 0.0, c.rules[r].maxCardinality + 1, Max(c.rules[j].maxRate, 0) + 1);
      OnlyHasShape(c, j, r);
      OneBatchIsFree(c, j, r, all, 0.0);
      assert |RunWatch(Only(c, j, r), Fresh(0.0), NOTHING, r, OneBatch(all, 0.0)).hashes| > c.rules[r].maxCardinality;
    } else {
      var k :| 0 <= k < r && c.rules[k].name == c.rules[r].name && c.rules[k].maxCardinality > 0 &&
               c.rules[k].maxCardinality > c.rules[r].maxCardinality;
      var all := Tags(1, c.rules[r].maxCardinality + 1, 0);
      WiderInFrontLeaks(c, k, r, 0.0);
      TagsAreApart(c, k, r, c.rules[r].maxCardinality + 1, 0.0);
      OnlyHasShape(c, k, r);
      assert |RunWatch(Only(c, k, r), Fresh(0.0), NOTHING, r, OneBatch(all, 0.0)).hashes| > c.rules[r].maxCardinality;
    }
  }
}
