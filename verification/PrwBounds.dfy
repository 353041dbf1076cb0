/** What the remote-write limits bound over every run. */
module PrwBounds {
  import opened Collections
  import opened PrwLimits

  // ---------- one series ----------

  /** No rule sharing rule r's name admits more series than r does. Distinct names imply it. */
  predicate Tightest(c: Config, r: nat)
    requires r < |c.rules|
  {
    forall j :: 0 <= j < |c.rules| && c.rules[j].name == c.rules[r].name && c.rules[j].maxCardinality > 0 ==>
      c.rules[j].maxCardinality <= c.rules[r].maxCardinality
  }

  /** The series got past rule r. */
  predicate Passed(r: nat, violated: Option<nat>) {
    violated.None? || violated.value > r
  }

  predicate Grown(before: Ledger, after: Ledger, name: string) {
    CountOf(before, name) <= CountOf(after, name) && SeenOf(before, name) <= SeenOf(after, name)
  }

  predicate Roomy(c: Config, st: Ledger, r: nat)
    requires r < |c.rules|
  {
    |SeenOf(st, c.rules[r].name)| <= Max(0, c.rules[r].maxCardinality)
  }

  lemma VisitGrows(c: Config, st: Ledger, rule: Rule, ts: Series, name: string)
    ensures Grown(st, Visit(c, st, rule, ts).0, name)
  {
  }

  lemma RememberKeepsRoom(c: Config, st: Ledger, rule: Rule, ts: Series, name: string, limit: nat)
    requires |SeenOf(st, name)| <= limit && !OverCardinality(c, st, rule, ts)
    requires rule.name == name && rule.maxCardinality > 0 ==> rule.maxCardinality <= limit
    ensures |SeenOf(Remember(c, st, rule, ts), name)| <= limit
  {
    var known, h := SeenOf(st, rule.name), c.fingerprint(ts.labels);
    if h in known {
      assert known + {h} == known;
    }
  }

  lemma VisitKeepsRoom(c: Config, st: Ledger, j: nat, ts: Series, r: nat)
    requires r < |c.rules| && j < |c.rules| && c.rules[r].maxCardinality > 0
    requires Tightest(c, r) && Roomy(c, st, r)
    ensures Roomy(c, Visit(c, st, c.rules[j], ts).0, r)
  {
    var rule := c.rules[j];
    var charged := ChargeRate(st, rule, ts);
    assert charged.seen == st.seen;
    if Matches(rule, ts) && !OverRate(st, rule, ts) && !OverCardinality(c, charged, rule, ts) {
      RememberKeepsRoom(c, charged, rule, ts, c.rules[r].name, c.rules[r].maxCardinality);
    }
  }

  /** Counters and sets only grow while a series is scanned. */
  lemma {:induction false} ScanGrows(c: Config, st: Ledger, ts: Series, j: nat, name: string)
    requires j <= |c.rules|
    ensures Grown(st, Scan(c, st, ts, j).0, name)
    decreases |c.rules| - j
  {
    if j < |c.rules| {
      VisitGrows(c, st, c.rules[j], ts, name);
      ScanGrows(c, Visit(c, st, c.rules[j], ts).0, ts, j + 1, name);
    }
  }

  lemma {:induction false} ScanKeepsRoom(c: Config, st: Ledger, ts: Series, j: nat, r: nat)
    requires j <= |c.rules| && r < |c.rules| && c.rules[r].maxCardinality > 0
    requires Tightest(c, r) && Roomy(c, st, r)
    ensures Roomy(c, Scan(c, st, ts, j).0, r)
    decreases |c.rules| - j
  {
    if j < |c.rules| {
      VisitKeepsRoom(c, st, j, ts, r);
      ScanKeepsRoom(c, Visit(c, st, c.rules[j], ts).0, ts, j + 1, r);
    }
  }

  /** The series has been charged to the rule within its rate and is in its set. */
  predicate Charged(c: Config, before: Ledger, after: Ledger, rule: Rule, ts: Series) {
    && (rule.maxRate > 0 ==>
          && CountOf(before, rule.name) + Points(ts) <= rule.maxRate
          && CountOf(before, rule.name) + Points(ts) <= CountOf(after, rule.name))
    && (rule.maxCardinality > 0 ==> c.fingerprint(ts.labels) in SeenOf(after, rule.name))
  }

  lemma VisitCharges(c: Config, st: Ledger, rule: Rule, ts: Series)
    requires Matches(rule, ts) && Visit(c, st, rule, ts).1
    ensures Charged(c, st, Visit(c, st, rule, ts).0, rule, ts)
  {
  }

  /** A matching series that got past rule r was charged to r, whatever a later rule decided. */
  lemma {:induction false} ScanCharges(c: Config, st: Ledger, ts: Series, j: nat, r: nat)
    requires j <= r < |c.rules| && Matches(c.rules[r], ts) && Passed(r, Scan(c, st, ts, j).1)
    ensures Charged(c, st, Scan(c, st, ts, j).0, c.rules[r], ts)
    decreases |c.rules| - j
  {
    var next := Visit(c, st, c.rules[j], ts).0;
    VisitGrows(c, st, c.rules[j], ts, c.rules[r].name);
    if j == r {
      VisitCharges(c, st, c.rules[r], ts);
      ScanGrows(c, next, ts, j + 1, c.rules[r].name);
    } else {
      ScanCharges(c, next, ts, j + 1, r);
    }
  }

  // ---------- runs, watching one rule ----------

  /** What was emitted of the series matching rule r: datapoints since the counters were
      reset, hashes since the cardinality was reset. excused and waived are the part kept
      although rule r or an earlier rule was violated. */
  datatype Watch = Watch(kept: nat, excused: nat, hashes: set<nat>, waived: set<nat>)

  function Observe(c: Config, w: Watch, r: nat, ts: Series, violated: Option<nat>): Watch
    requires r < |c.rules| && (violated.Some? ==> violated.value < |c.rules|)
  {
    if !Matches(c.rules[r], ts) || !Kept(c, violated) then w
    else
      var h := c.fingerprint(ts.labels);
      var past := Passed(r, violated);
      Watch(w.kept + Points(ts), if past then w.excused else w.excused + Points(ts),
            w.hashes + {h}, if past then w.waived else w.waived + {h})
  }

  function ObserveAll(c: Config, st: Ledger, w: Watch, r: nat, all: seq<Series>): Watch
    requires r < |c.rules|
    decreases |all|
  {
    if all == [] then w
    else ObserveAll(c, AfterSeries(c, st, all[0]), Observe(c, w, r, all[0], Scan(c, st, all[0], 0).1), r, all[1..])
  }

  function PointsMatching(rule: Rule, out: seq<Series>): nat {
    if out == [] then 0
    else (if Matches(rule, out[0]) then Points(out[0]) else 0) + PointsMatching(rule, out[1..])
  }

  function HashesMatching(c: Config, rule: Rule, out: seq<Series>): set<nat> {
    if out == [] then {}
    else (if Matches(rule, out[0]) then {c.fingerprint(out[0].labels)} else {}) + HashesMatching(c, rule, out[1..])
  }

  /** The watch measures the emitted series themselves. */
  lemma {:induction false} WatchSeesOutput(c: Config, st: Ledger, w: Watch, r: nat, all: seq<Series>)
    requires r < |c.rules|
    ensures ObserveAll(c, st, w, r, all).kept == w.kept + PointsMatching(c.rules[r], Filter(c, st, all))
    ensures ObserveAll(c, st, w, r, all).hashes == w.hashes + HashesMatching(c, c.rules[r], Filter(c, st, all))
    decreases |all|
  {
    if all != [] {
      var violated := Scan(c, st, all[0], 0).1;
      var rest := Filter(c, AfterSeries(c, st, all[0]), all[1..]);
      WatchSeesOutput(c, AfterSeries(c, st, all[0]), Observe(c, w, r, all[0], violated), r, all[1..]);
      if Kept(c, violated) {
        assert ([all[0]] + rest)[1..] == rest;
      } else {
        assert [] + rest == rest;
      }
    }
  }

  datatype Event = Batch(req: Option<Request>, now: real) | CardinalityReset | StatsReset

  function Next(c: Config, st: Ledger, e: Event): Ledger {
    match e
    case Batch(req, now) =>
      if req.None? || c.rules == [] then st else AfterAll(c, Rolled(st, now), req.value.series)
    case CardinalityReset => st.(seen := map[])
    case StatsReset => st.(dropped := 0, violations := 0)
  }

  function NextWatch(c: Config, st: Ledger, w: Watch, r: nat, e: Event): Watch
    requires r < |c.rules|
  {
    match e
    case Batch(req, now) =>
      if req.None? then w
      else
        var w' := if now - st.lastReset >= 1.0 then w.(kept := 0, excused := 0) else w;
        ObserveAll(c, Rolled(st, now), w', r, req.value.series)
    case CardinalityReset => w.(hashes := {}, waived := {})
    case StatsReset => w
  }

  function Run(c: Config, st: Ledger, events: seq<Event>): Ledger
    decreases |events|
  {
    if events == [] then st else Run(c, Next(c, st, events[0]), events[1..])
  }

  function RunWatch(c: Config, st: Ledger, w: Watch, r: nat, events: seq<Event>): Watch
    requires r < |c.rules|
    decreases |events|
  {
    if events == [] then w
    else RunWatch(c, Next(c, st, events[0]), NextWatch(c, st, w, r, events[0]), r, events[1..])
  }

  /** The counter covers what was kept and not excused, and the set covers the hashes. */
  ghost predicate Covered(c: Config, st: Ledger, w: Watch, r: nat)
    requires r < |c.rules|
  {
    var rule := c.rules[r];
    && w.excused <= w.kept
    && (rule.maxRate > 0 ==>
          w.kept - w.excused <= CountOf(st, rule.name) && w.kept - w.excused <= rule.maxRate)
    && (rule.maxCardinality > 0 ==>
          && w.hashes <= w.waived + SeenOf(st, rule.name)
          && (Tightest(c, r) ==> Roomy(c, st, r)))
  }

  lemma SeriesCovered(c: Config, st: Ledger, w: Watch, r: nat, ts: Series)
    requires r < |c.rules| && Covered(c, st, w, r)
    ensures Covered(c, AfterSeries(c, st, ts), Observe(c, w, r, ts, Scan(c, st, ts, 0).1), r)
  {
    var (next, violated) := Scan(c, st, ts, 0);
    ScanGrows(c, st, ts, 0, c.rules[r].name);
    if c.rules[r].maxCardinality > 0 && Tightest(c, r) {
      ScanKeepsRoom(c, st, ts, 0, r);
    }
    if Matches(c.rules[r], ts) && Passed(r, violated) {
      ScanCharges(c, st, ts, 0, r);
    }
    assert AfterSeries(c, st, ts).counts == next.counts && AfterSeries(c, st, ts).seen == next.seen;
  }

  lemma {:induction false} AllCovered(c: Config, st: Ledger, w: Watch, r: nat, all: seq<Series>)
    requires r < |c.rules| && Covered(c, st, w, r)
    ensures Covered(c, AfterAll(c, st, all), ObserveAll(c, st, w, r, all), r)
    decreases |all|
  {
    if all != [] {
      SeriesCovered(c, st, w, r, all[0]);
      AllCovered(c, AfterSeries(c, st, all[0]), Observe(c, w, r, all[0], Scan(c, st, all[0], 0).1), r, all[1..]);
    }
  }

  lemma {:induction false} RunCovered(c: Config, st: Ledger, w: Watch, r: nat, events: seq<Event>)
    requires r < |c.rules| && Covered(c, st, w, r)
    ensures Covered(c, Run(c, st, events), RunWatch(c, st, w, r, events), r)
    decreases |events|
  {
    if events != [] {
      match events[0] {
        case Batch(req, now) =>
          if req.Some? {
            var w' := if now - st.lastReset >= 1.0 then w.(kept := 0, excused := 0) else w;
            AllCovered(c, Rolled(st, now), w', r, req.value.series);
          }
        case CardinalityReset =>
        case StatsReset =>
      }
      RunCovered(c, Next(c, st, events[0]), NextWatch(c, st, w, r, events[0]), r, events[1..]);
    }
  }

  const NOTHING := Watch(0, 0, {}, {})

  function Fresh(now: real): Ledger {
    Ledger(map[], map[], now, 0, 0)
  }

  /** For every rule and every run, with any actions and in either mode: what was kept beyond
      the limits is at most what was kept in spite of a violation of that rule or an earlier one. */
  lemma KeptWithinLimits(c: Config, now: real, r: nat, events: seq<Event>)
    requires r < |c.rules|
    ensures var w := RunWatch(c, Fresh(now), NOTHING, r, events); var rule := c.rules[r];
            && (rule.maxRate > 0 ==> w.kept <= rule.maxRate + w.excused)
            && (rule.maxCardinality > 0 && Tightest(c, r) ==> |w.hashes - w.waived| <= rule.maxCardinality)
  {
    var w := RunWatch(c, Fresh(now), NOTHING, r, events);
    RunCovered(c, Fresh(now), NOTHING, r, events);
    var known := SeenOf(Run(c, Fresh(now), events), c.rules[r].name);
    if c.rules[r].maxCardinality > 0 {
      SubsetCard(w.hashes - w.waived, known);
    }
  }

  // ---------- when everything drops ----------

  predicate HasLimit(rule: Rule) {
    rule.maxRate > 0 || rule.maxCardinality > 0
  }

  /** Enforcing, and rules up to r that have a limit drop. Other rules may do as they like. */
  predicate Strict(c: Config, r: nat)
    requires r < |c.rules|
  {
    !c.dryRun && forall j :: 0 <= j <= r && HasLimit(c.rules[j]) ==> c.rules[j].action == Drop
  }

  lemma {:induction false} StrictExcusesNone(c: Config, st: Ledger, w: Watch, r: nat, all: seq<Series>)
    requires r < |c.rules| && Strict(c, r) && w.excused == 0 && w.waived == {}
    ensures ObserveAll(c, st, w, r, all).excused == 0 && ObserveAll(c, st, w, r, all).waived == {}
    decreases |all|
  {
    if all != [] {
      ViolationIsReal(c, st, all[0], 0);
      StrictExcusesNone(c, AfterSeries(c, st, all[0]), Observe(c, w, r, all[0], Scan(c, st, all[0], 0).1), r, all[1..]);
    }
  }

  lemma {:induction false} StrictRunExcusesNone(c: Config, st: Ledger, w: Watch, r: nat, events: seq<Event>)
    requires r < |c.rules| && Strict(c, r) && w.excused == 0 && w.waived == {}
    ensures RunWatch(c, st, w, r, events).excused == 0 && RunWatch(c, st, w, r, events).waived == {}
    decreases |events|
  {
    if events != [] {
      if events[0].Batch? && events[0].req.Some? {
        var w' := if events[0].now - st.lastReset >= 1.0 then w.(kept := 0, excused := 0) else w;
        StrictExcusesNone(c, Rolled(st, events[0].now), w', r, events[0].req.value.series);
      }
      StrictRunExcusesNone(c, Next(c, st, events[0]), NextWatch(c, st, w, r, events[0]), r, events[1..]);
    }
  }

  /** While enforcing with every limit up to r dropping: kept datapoints matching r between counter
      resets never exceed its rate, and kept hashes between cardinality resets never exceed
      its cardinality. */
  lemma StrictLimitsHold(c: Config, now: real, r: nat, events: seq<Event>)
    requires r < |c.rules| && Strict(c, r)
    ensures var w := RunWatch(c, Fresh(now), NOTHING, r, events);
            && (c.rules[r].maxRate > 0 ==> w.kept <= c.rules[r].maxRate)
            && (c.rules[r].maxCardinality > 0 && Tightest(c, r) ==> |w.hashes| <= c.rules[r].maxCardinality)
  {
    KeptWithinLimits(c, now, r, events);
    StrictRunExcusesNone(c, Fresh(now), NOTHING, r, events);
    var w := RunWatch(c, Fresh(now), NOTHING, r, events);
    assert w.hashes - w.waived == w.hashes;
  }

  // ---------- why both conditions are there ----------

  function Accept(): string -> bool {
    s => true
  }

  /** A violated log rule in front keeps a series and hides it from the drop rule behind:
      three datapoints kept under a limit of one. */
  lemma LogRuleInFrontLeaks(c: Config, ts: Series, now: real)
    requires !c.dryRun && Points(ts) == 3
    requires c.rules == [Rule("front", Some(Accept()), [], 1, 0, Log), Rule("back", Some(Accept()), [], 1, 0, Drop)]
    ensures RunWatch(c, Fresh(now), NOTHING, 1, [Batch(Some(Request([ts], [])), now)]).kept == 3
  {
    var e := Batch(Some(Request([ts], [])), now);
    assert Scan(c, Fresh(now), ts, 0).1 == Some(0);
    assert [ts][1..] == [] && [e][1..] == [];
    assert NextWatch(c, Fresh(now), NOTHING, 1, e) == ObserveAll(c, Fresh(now), NOTHING, 1, [ts]);
    var w := Observe(c, NOTHING, 1, ts, Some(0));
    assert w.kept == 3;
    assert ObserveAll(c, AfterSeries(c, Fresh(now), ts), w, 1, []) == w;
  }

  /** Two rules that share a name share one set: the first admits two series, and the second,
      with a limit of one, finds both known. */
  lemma SharedNameLeaks(c: Config, a: Series, b: Series, now: real)
    requires !c.dryRun && c.fingerprint(a.labels) != c.fingerprint(b.labels)
    requires c.rules == [Rule("same", Some(Accept()), [], 0, 2, Drop), Rule("same", Some(Accept()), [], 0, 1, Drop)]
    ensures |RunWatch(c, Fresh(now), NOTHING, 1, [Batch(Some(Request([a, b], [])), now)]).hashes| == 2
  {
    var e := Batch(Some(Request([a, b], [])), now);
    var ha, hb := c.fingerprint(a.labels), c.fingerprint(b.labels);
    var s0 := Fresh(now);
    SharedPass(c, s0, a);
    var s1 := AfterSeries(c, s0, a);
    SharedPass(c, s1, b);
    assert [a, b][1..] == [b] && [b][1..] == [] && [e][1..] == [];
    var w1 := Observe(c, NOTHING, 1, a, None);
    var w2 := Observe(c, w1, 1, b, None);
    assert w2.hashes == {ha, hb};
    assert ObserveAll(c, s1, w1, 1, [b]) == ObserveAll(c, AfterSeries(c, s1, b), w2, 1, []);
    assert ObserveAll(c, s0, NOTHING, 1, [a, b]) == w2;
    assert NextWatch(c, s0, NOTHING, 1, e) == w2;
  }

  lemma SharedPass(c: Config, st: Ledger, ts: Series)
    requires c.rules == [Rule("same", Some(Accept()), [], 0, 2, Drop), Rule("same", Some(Accept()), [], 0, 1, Drop)]
    requires |SeenOf(st, "same")| <= 1
    ensures Scan(c, st, ts, 0).1 == None
    ensures SeenOf(AfterSeries(c, st, ts), "same") == SeenOf(st, "same") + {c.fingerprint(ts.labels)}
  {
    var s1 := Remember(c, st, c.rules[0], ts);
    var s2 := Remember(c, s1, c.rules[1], ts);
    assert SeenOf(s1, "same") == SeenOf(st, "same") + {c.fingerprint(ts.labels)};
    assert Scan(c, s2, ts, 2) == (s2, None);
    assert Scan(c, s1, ts, 1) == (s2, None);
  }

  /** Each sample, exemplar and histogram counts one. */
  lemma PointsCountEach(ts: Series)
    ensures Points(ts.(samples := ts.samples + 1)) == Points(ts) + 1
    ensures Points(ts.(exemplars := ts.exemplars + 1)) == Points(ts) + 1
    ensures Points(ts.(histograms := ts.histograms + 1)) == Points(ts) + 1
    ensures Points(ts.(samples := 0, exemplars := 0, histograms := 0)) == 0
  {
  }

  /** A series that a rule rejects for its rate is not charged to it; one that it rejects for its
      cardinality has been, and its hash is not entered. */
  lemma RejectionCharges(c: Config, st: Ledger, rule: Rule, ts: Series)
    requires !Visit(c, st, rule, ts).1
    ensures var t := Visit(c, st, rule, ts).0;
            && t.violations == st.violations + 1 && t.seen == st.seen
            && (rule.maxRate > 0 ==>
                  CountOf(t, rule.name) == CountOf(st, rule.name) +
                  (if CountOf(st, rule.name) + Points(ts) > rule.maxRate then 0 else Points(ts)))
  {
  }

  // ---------- a rule without patterns ----------

  function Without(c: Config, i: nat): Config
    requires i < |c.rules|
  {
    c.(rules := c.rules[..i] + c.rules[i + 1..])
  }

  /** Index of a rule of the shorter list in the longer one. */
  function Shifted(violated: Option<nat>, i: nat): Option<nat> {
    if violated.Some? && violated.value >= i then Some(violated.value + 1) else violated
  }

  predicate Patternless(rule: Rule) {
    rule.metric.None? && rule.labels == []
  }

  lemma {:induction false} ScanWithout(c: Config, st: Ledger, ts: Series, i: nat, j: nat)
    requires i < |c.rules| && j <= |c.rules| && Patternless(c.rules[i])
    ensures var (t, v) := Scan(Without(c, i), st, ts, if j <= i then j else j - 1);
            Scan(c, st, ts, j) == (t, Shifted(v, i))
    decreases |c.rules| - j
  {
    if j < |c.rules| {
      var d, next := Without(c, i), Visit(c, st, c.rules[j], ts).0;
      if j == i {
        assert Visit(c, st, c.rules[j], ts) == (st, true);
      } else {
        assert c.rules[j] == d.rules[if j < i then j else j - 1];
        VisitSame(c, d, st, c.rules[j], ts);
      }
      ScanWithout(c, next, ts, i, j + 1);
    }
  }

  lemma VisitSame(c: Config, d: Config, st: Ledger, rule: Rule, ts: Series)
    requires c.fingerprint == d.fingerprint
    ensures Visit(c, st, rule, ts) == Visit(d, st, rule, ts)
  {
  }

  /** A rule without patterns is as good as absent: with and without it the same series are
      emitted and the same state results. */
  lemma {:induction false} PatternlessIsAbsent(c: Config, st: Ledger, all: seq<Series>, i: nat)
    requires i < |c.rules| && Patternless(c.rules[i])
    ensures Filter(c, st, all) == Filter(Without(c, i), st, all)
    ensures AfterAll(c, st, all) == AfterAll(Without(c, i), st, all)
    decreases |all|
  {
    if all != [] {
      ScanWithout(c, st, all[0], i, 0);
      assert Kept(c, Scan(c, st, all[0], 0).1) == Kept(Without(c, i), Scan(Without(c, i), st, all[0], 0).1);
      PatternlessIsAbsent(c, AfterSeries(c, st, all[0]), all[1..], i);
    }
  }

  // ---------- a batch within all rates ----------

  /** No rule limits cardinality, names are distinct, and what the counters hold and the batch
      brings is within every rate. */
  ghost predicate Quiet(c: Config, st: Ledger, all: seq<Series>) {
    && (forall j :: 0 <= j < |c.rules| ==> c.rules[j].maxCardinality <= 0)
    && (forall i, j :: 0 <= i < j < |c.rules| ==> c.rules[i].name != c.rules[j].name)
    && forall j :: 0 <= j < |c.rules| && c.rules[j].maxRate > 0 ==>
         CountOf(st, c.rules[j].name) + PointsMatching(c.rules[j], all) <= c.rules[j].maxRate
  }

  /** What rules j and later have been charged when the scan reaches index i. */
  ghost predicate ChargedFrom(c: Config, before: Ledger, now: Ledger, ts: Series, i: nat) {
    forall j :: 0 <= j < |c.rules| ==>
      CountOf(now, c.rules[j].name) ==
      CountOf(before, c.rules[j].name) +
      (if j < i && c.rules[j].maxRate > 0 && Matches(c.rules[j], ts) then Points(ts) else 0)
  }

  lemma VisitQuiet(c: Config, before: Ledger, st: Ledger, all: seq<Series>, i: nat)
    requires all != [] && Quiet(c, before, all) && i < |c.rules| && ChargedFrom(c, before, st, all[0], i)
    ensures Visit(c, st, c.rules[i], all[0]).1
    ensures ChargedFrom(c, before, Visit(c, st, c.rules[i], all[0]).0, all[0], i + 1)
  {
    var rule, ts := c.rules[i], all[0];
    assert rule.maxRate > 0 ==> CountOf(before, rule.name) + PointsMatching(rule, all) <= rule.maxRate;
    assert !OverCardinality(c, ChargeRate(st, rule, ts), rule, ts);
    assert Remember(c, ChargeRate(st, rule, ts), rule, ts) == ChargeRate(st, rule, ts);
    forall j | 0 <= j < |c.rules| && j != i ensures c.rules[j].name != rule.name {
    }
  }

  lemma {:induction false} ScanQuiet(c: Config, before: Ledger, st: Ledger, all: seq<Series>, i: nat)
    requires all != [] && Quiet(c, before, all) && i <= |c.rules| && ChargedFrom(c, before, st, all[0], i)
    ensures Scan(c, st, all[0], i).1 == None
    ensures ChargedFrom(c, before, Scan(c, st, all[0], i).0, all[0], |c.rules|)
    decreases |c.rules| - i
  {
    if i < |c.rules| {
      VisitQuiet(c, before, st, all, i);
      ScanQuiet(c, before, Visit(c, st, c.rules[i], all[0]).0, all, i + 1);
    }
  }

  lemma {:induction false} QuietIsKept(c: Config, st: Ledger, all: seq<Series>)
    requires Quiet(c, st, all)
    ensures Filter(c, st, all) == all
    decreases |all|
  {
    if all != [] {
      ScanQuiet(c, st, st, all, 0);
      var next := AfterSeries(c, st, all[0]);
      assert ChargedFrom(c, st, next, all[0], |c.rules|);
      assert Quiet(c, next, all[1..]);
      QuietIsKept(c, next, all[1..]);
    }
  }

  /** A second after the last reset the counters start again: a batch whose datapoints are within
      every rule's rate is kept whole, whatever was counted before. */
  lemma SecondStartsAfresh(c: Config, st: Ledger, all: seq<Series>, now: real)
    requires now - st.lastReset >= 1.0
    requires forall j :: 0 <= j < |c.rules| ==> c.rules[j].maxCardinality <= 0
    requires forall i, j :: 0 <= i < j < |c.rules| ==> c.rules[i].name != c.rules[j].name
    requires forall j :: 0 <= j < |c.rules| && c.rules[j].maxRate > 0 ==>
               PointsMatching(c.rules[j], all) <= c.rules[j].maxRate
    ensures Filter(c, Rolled(st, now), all) == all && Rolled(st, now).lastReset == now
    ensures Rolled(st, now).seen == st.seen
  {
    QuietIsKept(c, Rolled(st, now), all);
  }

  // ---------- nothing is rejected without cause ----------

  /** A violation names a matching rule that is over its rate, or full and without this series,
      in the state the scan ends in. */
  lemma {:induction false} ViolationIsReal(c: Config, st: Ledger, ts: Series, j: nat)
    requires j <= |c.rules|
    ensures var (next, violated) := Scan(c, st, ts, j);
            violated.Some? ==>
              var rule := c.rules[violated.value];
              Matches(rule, ts) && (OverRate(next, rule, ts) || OverCardinality(c, next, rule, ts))
    decreases |c.rules| - j
  {
    if j < |c.rules| {
      ViolationIsReal(c, Visit(c, st, c.rules[j], ts).0, ts, j + 1);
    }
  }

  /** Every series is emitted in order or counted as dropped, and dry run drops none. */
  lemma {:induction false} FilterAccounts(c: Config, st: Ledger, all: seq<Series>)
    ensures Subsequence(Filter(c, st, all), all)
    ensures |Filter(c, st, all)| + AfterAll(c, st, all).dropped == |all| + st.dropped
    ensures c.dryRun ==> Filter(c, st, all) == all
    decreases |all|
  {
    if all != [] {
      ScanKeepsDropped(c, st, all[0], 0);
      FilterAccounts(c, AfterSeries(c, st, all[0]), all[1..]);
      if !Kept(c, Scan(c, st, all[0], 0).1) {
        assert [] + Filter(c, AfterSeries(c, st, all[0]), all[1..]) == Filter(c, AfterSeries(c, st, all[0]), all[1..]);
      }
    }
  }

  lemma {:induction false} ScanKeepsDropped(c: Config, st: Ledger, ts: Series, j: nat)
    requires j <= |c.rules|
    ensures Scan(c, st, ts, j).0.dropped == st.dropped
    decreases |c.rules| - j
  {
    if j < |c.rules| {
      ScanKeepsDropped(c, Visit(c, st, c.rules[j], ts).0, ts, j + 1);
    }
  }
}
