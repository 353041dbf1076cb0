/** What the actions let through: emitted datapoints and series against the limits, and against
    the counters (internal/limits/enforcer.go). */
module LimitsEmission {
  import opened Collections
  import opened MetricModel
  import opened Trackers
  import opened Rules
  import opened LimitsSpec
  import opened LimitsRuns
  import opened LimitsTotals
  import opened LimitsAccounting
  import opened LimitsWindows

  function OutPoints(out: Option<Metric>): seq<Datapoint> {
    if out.Some? then out.value.points else []
  }

  // ---------- rules that drop ----------

  /** Every action the rule can take is to drop. */
  predicate OnlyDrops(rule: Rule) {
    rule.action.Drop? && forall i :: 0 <= i < |rule.tiers| ==> rule.tiers[i].action.Drop?
  }

  lemma DropsWhateverTier(w: Window, rule: Rule, reason: Reason)
    requires OnlyDrops(rule)
    ensures Effective(w, rule, reason).action.Drop?
  {
    PickedTierIsMember(rule.tiers, Utilization(w, rule, reason));
  }

  /** A metric that is over the limits of a rule that only drops is not emitted; one that is
      within them is emitted whole, with its attributes and the two marks. */
  lemma DropEmitsAdmitted(env: Env, cacheSize: int, w: World, e: Event)
    requires e.Arrive? && CheckedBy(cacheSize, w, e).Some? && OnlyDrops(CheckedBy(cacheSize, w, e).value)
    ensures var rule := CheckedBy(cacheSize, w, e).value;
            var c := CheckOf(env, w.core.win, rule, e.metric, e.resource, e.reading);
            var out := Step(env, cacheSize, false, w, e).1;
            out == if c.exceeded.Some? then None
                   else Some(Inject(LabelStripped(w.core.win, rule, e.metric, e.resource, e.reading), "passed",
                       rule.name))
  {
    var rule := CheckedBy(cacheSize, w, e).value;
    var c := CheckOf(env, w.core.win, rule, e.metric, e.resource, e.reading);
    if c.exceeded.Some? {
      DropsWhateverTier(c.win, rule, c.exceeded.value);
    }
  }

  /** Datapoints emitted under the name since its window opened, from arrivals that found a slot. */
  ghost function EmittedSince(env: Env, cacheSize: int, rules: seq<Rule>, events: seq<Event>, name: string): nat {
    if events == [] then 0
    else
      var n := |events| - 1;
      var w := After(env, cacheSize, Start(rules), Enforced(n), events[..n]);
      var before := EmittedSince(env, cacheSize, rules, events[..n], name);
      (if OpensWindow(env, cacheSize, rules, Enforced(|events|), events, name) then 0 else before) +
      EmitGain(env, cacheSize, w, events[n], name)
  }

  /** The arrival is checked under the name and finds a slot. */
  predicate Slotted(cacheSize: int, w: World, e: Event, name: string) {
    e.Arrive? && ChecksName(cacheSize, w, e, name) && FindsSlot(w, e, CheckedBy(cacheSize, w, e).value)
  }

  function EmitGain(env: Env, cacheSize: int, w: World, e: Event, name: string): nat {
    if Slotted(cacheSize, w, e, name) then |OutPoints(Step(env, cacheSize, false, w, e).1)| else 0
  }

  /** Rule r, which only drops, is the only one of its name. */
  ghost predicate Alone(cacheSize: int, w: World, e: Event, r: Rule) {
    OnlyDrops(r) && (ChecksName(cacheSize, w, e, r.name) ==> CheckedBy(cacheSize, w, e) == Some(r))
  }

  lemma GainsAgree(env: Env, cacheSize: int, w: World, e: Event, r: Rule)
    requires e.Arrive? && Alone(cacheSize, w, e, r)
    ensures EmitGain(env, cacheSize, w, e, r.name) == AdmitGain(env, cacheSize, w, e, r.name)
  {
    if ChecksName(cacheSize, w, e, r.name) {
      DropEmitsAdmitted(env, cacheSize, w, e);
      StrippedKeepsPoints(w.core.win, r, e.metric, e.resource, e.reading);
    }
  }

  lemma RuleIsAlone(env: Env, cacheSize: int, rules: seq<Rule>, events: seq<Event>, e: Event, r: Rule)
    requires NoReload(events) && DistinctNames(rules) && r in rules && OnlyDrops(r)
    ensures Alone(cacheSize, After(env, cacheSize, Start(rules), Enforced(|events|), events), e, r)
  {
    RunKeepsIndex(env, cacheSize, rules, Enforced(|events|), events);
    StepKeepsIndex(env, cacheSize, false, After(env, cacheSize, Start(rules), Enforced(|events|), events), e);
  }

  function Enforced(n: nat): seq<bool> {
    seq(n, i => false)
  }

  /** For a rule that only drops, what is emitted is what is admitted. */
  lemma {:induction false} EmittedIsAdmitted(env: Env, cacheSize: int, rules: seq<Rule>, events: seq<Event>, r: Rule)
    requires NoReload(events) && DistinctNames(rules) && r in rules && OnlyDrops(r)
    ensures EmittedSince(env, cacheSize, rules, events, r.name) ==
            AdmittedSince(env, cacheSize, rules, Enforced(|events|), events, r.name)
  {
    if events != [] {
      var n := |events| - 1;
      EmittedIsAdmitted(env, cacheSize, rules, events[..n], r);
      assert Enforced(|events|)[..n] == Enforced(n);
      RuleIsAlone(env, cacheSize, rules, events[..n], events[n], r);
      GainsAgree(env, cacheSize, After(env, cacheSize, Start(rules), Enforced(n), events[..n]), events[n], r);
    }
  }

  /** Enforcing, without reloads: the datapoints that a rule that only drops lets through in one
      window, from arrivals that found a group slot, never exceed its rate. */
  lemma DropBoundsDatapoints(env: Env, cacheSize: int, rules: seq<Rule>, events: seq<Event>, r: Rule)
    requires NoReload(events) && DistinctNames(rules) && r in rules && OnlyDrops(r) && env.empty.Fresh()
    ensures r.maxDatapoints > 0 ==> EmittedSince(env, cacheSize, rules, events, r.name) <= r.maxDatapoints
  {
    EmittedIsAdmitted(env, cacheSize, rules, events, r);
    HistoryTells(env, cacheSize, rules, Enforced(|events|), events, r.name);
    NeverOverNeverMarked(env, cacheSize, rules, Enforced(|events|), events);
    assert RuleWithin(After(env, cacheSize, Start(rules), Enforced(|events|), events).core.win, r);
  }

  /** An arrival that finds no group slot is emitted whatever the totals are. */
  lemma NoSlotPasses(env: Env, cacheSize: int, w: World, e: Event)
    requires e.Arrive? && CheckedBy(cacheSize, w, e).Some? && !FindsSlot(w, e, CheckedBy(cacheSize, w, e).value)
    ensures |OutPoints(Step(env, cacheSize, false, w, e).1)| == |e.metric.points|
  {
    var rule := CheckedBy(cacheSize, w, e).value;
    SlotIgnoresValues(w.core.win, AfterLabelCheck(w.core.win, rule, e.metric, e.resource, e.reading), rule,
                      GroupKey(rule, e.resource, e.metric), e.reading.window);
    StrippedKeepsPoints(w.core.win, rule, e.metric, e.resource, e.reading);
  }

  // ---------- series ----------

  /** The series of emitted datapoints: the attributes before the two injected ones. */
  ghost function SeriesOut(env: Env, out: Option<Metric>, res: map<string, string>): set<string> {
    set p | p in OutPoints(out) && |p.attrs| >= 2 :: env.seriesKey(res + Extract(p.attrs[..|p.attrs| - 2]))
  }

  ghost predicate AllExact(groups: map<string, GroupStats>) {
    forall g :: g in groups ==> groups[g].tracker.Exact?
  }

  /** All series that the groups have seen. */
  ghost function AllItems(groups: map<string, GroupStats>): set<string> {
    set g, k | g in groups && groups[g].tracker.Exact? && k in groups[g].tracker.items :: k
  }

  lemma {:induction false} ItemsWithinSum(groups: map<string, GroupStats>)
    requires AllExact(groups)
    ensures |AllItems(groups)| <= SumBy(groups, SeriesOf)
    decreases |groups|
  {
    if groups == map[] {
      assert AllItems(groups) == {};
    } else {
      var g :| g in groups;
      var rest := groups - {g};
      assert |rest.Keys| < |groups.Keys| by { assert rest.Keys == groups.Keys - {g}; }
      ItemsWithinSum(rest);
      SumByRemove(groups, SeriesOf, g);
      var mine := groups[g].tracker.items;
      forall k | k in AllItems(groups) ensures k in mine + AllItems(rest) {
        var h :| h in groups && groups[h].tracker.Exact? && k in groups[h].tracker.items;
        if h != g {
          assert h in rest && rest[h] == groups[h];
        }
      }
      SubsetCard(AllItems(groups), mine + AllItems(rest));
    }
  }

  lemma {:induction false} ExactAddsAll(t: Tracker, keys: seq<string>)
    requires t.Exact?
    ensures t.WithAll(keys) == Exact(t.items + Elements(keys))
    decreases |keys|
  {
    if keys == [] {
      assert t.items + Elements(keys) == t.items;
    } else {
      var front, last := keys[..|keys| - 1], keys[|keys| - 1];
      ExactAddsAll(t, front);
      assert keys == front + [last];
      assert Elements(keys) == Elements(front) + {last};
      assert t.items + Elements(keys) == t.items + Elements(front) + {last};
    }
  }

  /** A check keeps exact trackers exact, forgets no series, and adds those it admits. */
  lemma CheckOpenItems(env: Env, w: Window, rule: Rule, group: string, m: Metric, res: map<string, string>)
    requires rule.name in w.stats && AllExact(w.stats[rule.name].groups) && env.empty.Exact?
    ensures var c := CheckOpen(env, w, rule, group, m, res);
            var rs := w.stats[rule.name];
            && AllExact(c.win.stats[rule.name].groups)
            && AllItems(rs.groups) <= AllItems(c.win.stats[rule.name].groups)
            && (c.exceeded.None? && (group in rs.groups || |rs.groups| < MAX_GROUPS) ==>
                  Elements(SeriesKeys(env, m, res)) <= AllItems(c.win.stats[rule.name].groups))
  {
    var rs := w.stats[rule.name];
    var c := CheckOpen(env, w, rule, group, m, res);
    if group in rs.groups || |rs.groups| < MAX_GROUPS {
      var gs := GroupOf(env, rs, group);
      if c.exceeded.Some? {
        UpdateItems(rs.groups, group, gs, gs);
        assert c.win.stats[rule.name].groups == rs.groups[group := gs];
      } else {
        var grown := Admit(rs, group, gs, SeriesKeys(env, m, res), |m.points|);
        AdmitItems(rs, group, gs, SeriesKeys(env, m, res), |m.points|);
        assert c.win.stats[rule.name].groups == grown.groups;
      }
    }
  }

  lemma AdmitItems(rs: RuleStats, group: string, gs: GroupStats, keys: seq<string>, n: nat)
    requires AllExact(rs.groups) && gs.tracker.Exact? && (group in rs.groups ==> rs.groups[group] == gs)
    ensures var grown := Admit(rs, group, gs, keys, n).groups;
            AllExact(grown) && AllItems(rs.groups) <= AllItems(grown) && Elements(keys) <= AllItems(grown)
  {
    ExactAddsAll(gs.tracker, keys);
    UpdateItems(rs.groups, group, gs, GroupStats(gs.datapoints + n, gs.tracker.WithAll(keys), gs.windowEnd));
  }

  lemma UpdateItems(groups: map<string, GroupStats>, group: string, gs: GroupStats, next: GroupStats)
    requires AllExact(groups) && gs.tracker.Exact? && next.tracker.Exact? && gs.tracker.items <= next.tracker.items
    requires group in groups ==> groups[group] == gs
    ensures AllExact(groups[group := next]) && AllItems(groups) <= AllItems(groups[group := next])
    ensures next.tracker.items <= AllItems(groups[group := next])
  {
    var after := groups[group := next];
    forall k | k in AllItems(groups) ensures k in AllItems(after) {
      var g :| g in groups && k in groups[g].tracker.items;
      assert g != group ==> after[g] == groups[g];
      assert k in after[g].tracker.items;
    }
    forall k | k in next.tracker.items ensures k in AllItems(after) {
      assert group in after && after[group] == next;
    }
  }

  /** The emitted series of an admitted metric are those it was checked with. */
  lemma InjectedSeries(env: Env, m: Metric, name: string, res: map<string, string>)
    ensures SeriesOut(env, Some(Inject(m, "passed", name)), res) <= Elements(SeriesKeys(env, m, res))
  {
    var out := Inject(m, "passed", name);
    forall p | p in out.points
      ensures env.seriesKey(res + Extract(p.attrs[..|p.attrs| - 2])) in Elements(SeriesKeys(env, m, res))
    {
      var i :| 0 <= i < |out.points| && out.points[i] == p;
      assert p.attrs[..|p.attrs| - 2] == m.points[i].attrs;
      assert SeriesKeys(env, m, res)[i] in SeriesKeys(env, m, res);
    }
  }

  /** Series emitted under the name since its window opened, from arrivals that found a slot. */
  ghost function SeriesSince(env: Env, cacheSize: int, rules: seq<Rule>, events: seq<Event>,
                             name: string): set<string> {
    if events == [] then {}
    else
      var n := |events| - 1;
      var w := After(env, cacheSize, Start(rules), Enforced(n), events[..n]);
      var before := SeriesSince(env, cacheSize, rules, events[..n], name);
      (if OpensWindow(env, cacheSize, rules, Enforced(|events|), events, name) then {} else before) +
      SeriesGain(env, cacheSize, w, events[n], name)
  }

  ghost function SeriesGain(env: Env, cacheSize: int, w: World, e: Event, name: string): set<string> {
    if Slotted(cacheSize, w, e, name) then SeriesOut(env, Step(env, cacheSize, false, w, e).1, e.resource) else {}
  }

  /** The name's groups have seen these series, with exact trackers. */
  ghost predicate Remembers(w: Window, name: string, series: set<string>) {
    if name in w.stats then AllExact(w.stats[name].groups) && series <= AllItems(w.stats[name].groups)
    else series == {}
  }

  lemma CheckRemembers(env: Env, w: Window, rule: Rule, m: Metric, res: map<string, string>, rd: Reading,
                       series: set<string>)
    requires Remembers(w, rule.name, series) && env.empty.Exact?
    ensures var c := CheckOf(env, w, rule, m, res, rd);
            var opens := rule.name !in w.stats || rd.window > w.stats[rule.name].windowEnd;
            && Remembers(c.win, rule.name, if opens then {} else series)
            && (c.exceeded.None? && HasSlot(w, rule, GroupKey(rule, res, m), rd.window) ==>
                  Remembers(c.win, rule.name, (if opens then {} else series) +
                                              Elements(SeriesKeys(env, LabelStripped(w, rule, m, res, rd), res))))
  {
    var w1 := AfterLabelCheck(w, rule, m, res, rd);
    var opens := rule.name !in w.stats || rd.window > w.stats[rule.name].windowEnd;
    StrippedKeepsPoints(w, rule, m, res, rd);
    SlotIgnoresValues(w, w1, rule, GroupKey(rule, res, m), rd.window);
    OpenedRemembers(w1, rule.name, rd.window, series);
    CheckOpenRemembers(env, Windowed(w1, rule.name, rd.window), rule, GroupKey(rule, res, m),
                       LabelStripped(w, rule, m, res, rd), res, if opens then {} else series);
  }

  lemma OpenedRemembers(w: Window, name: string, now: int, series: set<string>)
    requires Remembers(w, name, series)
    ensures Remembers(Windowed(w, name, now), name, if name !in w.stats ||
            now > w.stats[name].windowEnd then {} else series)
  {
  }

  lemma CheckOpenRemembers(env: Env, w: Window, rule: Rule, group: string, m: Metric, res: map<string, string>,
                           series: set<string>)
    requires rule.name in w.stats && Remembers(w, rule.name, series) && env.empty.Exact?
    ensures var c := CheckOpen(env, w, rule, group, m, res); var rs := w.stats[rule.name];
            && Remembers(c.win, rule.name, series)
            && (c.exceeded.None? && (group in rs.groups || |rs.groups| < MAX_GROUPS) ==>
                  Remembers(c.win, rule.name, series + Elements(SeriesKeys(env, m, res))))
  {
    CheckOpenItems(env, w, rule, group, m, res);
    CheckOpenTotals(env, w, rule, group, m, res);
  }

  lemma StepRemembers(env: Env, cacheSize: int, w: World, e: Event, r: Rule, series: set<string>)
    requires Sound(w.core.win) && env.empty.Fresh() && env.empty.Exact? && e.Arrive? && OnlyDrops(r)
    requires Alone(cacheSize, w, e, r)
    requires Remembers(w.core.win, r.name, series)
    ensures var t := Step(env, cacheSize, false, w, e).0.core.win;
            var opens := ChecksName(cacheSize, w, e, r.name) &&
                         (r.name !in w.core.win.stats || e.reading.window > w.core.win.stats[r.name].windowEnd);
            Remembers(t, r.name, (if opens then {} else series) + SeriesGain(env, cacheSize, w, e, r.name))
  {
    var checked := CheckedBy(cacheSize, w, e);
    if checked.None? {
      UncheckedStats(env, cacheSize, false, w, e);
      assert series + {} == series;
    } else {
      var rule := checked.value;
      CheckedStats(env, cacheSize, false, w, e);
      var w1 := AfterLabelCheck(w.core.win, rule, e.metric, e.resource, e.reading);
      assert Sound(w1);
      UpdateKeeps(env, w1, rule, GroupKey(rule, e.resource, e.metric),
                  LabelStripped(w.core.win, rule, e.metric, e.resource, e.reading), e.resource, e.reading.window);
      if rule.name == r.name {
        DropEmitsAdmitted(env, cacheSize, w, e);
        CheckRemembers(env, w.core.win, r, e.metric, e.resource, e.reading, series);
        InjectedSeries(env, LabelStripped(w.core.win, r, e.metric, e.resource, e.reading), r.name, e.resource);
      } else {
        assert series + {} == series;
      }
    }
  }

  lemma {:induction false} SeriesRemembered(env: Env, cacheSize: int, rules: seq<Rule>, events: seq<Event>, r: Rule)
    requires NoReload(events) && DistinctNames(rules) && r in rules && OnlyDrops(r)
    requires env.empty.Fresh() && env.empty.Exact?
    ensures Remembers(After(env, cacheSize, Start(rules), Enforced(|events|), events).core.win, r.name,
                      SeriesSince(env, cacheSize, rules, events, r.name))
  {
    if events != [] {
      var n := |events| - 1;
      SeriesRemembered(env, cacheSize, rules, events[..n], r);
      assert Enforced(|events|)[..n] == Enforced(n);
      TotalsOverRuns(env, cacheSize, rules, Enforced(n), events[..n]);
      HistoryTells(env, cacheSize, rules, Enforced(n), events[..n], r.name);
      RuleIsAlone(env, cacheSize, rules, events[..n], events[n], r);
      var w := After(env, cacheSize, Start(rules), Enforced(n), events[..n]);
      StepRemembers(env, cacheSize, w, events[n], r, SeriesSince(env, cacheSize, rules, events[..n], r.name));
    }
  }

  /** Enforcing, without reloads, with exact trackers: the distinct series that a rule that only
      drops lets through in one window, from arrivals that found a slot, never exceed its
      cardinality. */
  lemma DropBoundsSeries(env: Env, cacheSize: int, rules: seq<Rule>, events: seq<Event>, r: Rule)
    requires NoReload(events) && DistinctNames(rules) && r in rules && OnlyDrops(r)
    requires env.empty.Fresh() && env.empty.Exact?
    ensures r.maxCardinality > 0 ==> |SeriesSince(env, cacheSize, rules, events, r.name)| <= r.maxCardinality
  {
    SeriesRemembered(env, cacheSize, rules, events, r);
    NeverOverNeverMarked(env, cacheSize, rules, Enforced(|events|), events);
    var w := After(env, cacheSize, Start(rules), Enforced(|events|), events).core.win;
    assert RuleWithin(w, r);
    if r.name in w.stats {
      assert Balanced(w.stats[r.name]);
      ItemsWithinSum(w.stats[r.name].groups);
      SubsetCard(SeriesSince(env, cacheSize, rules, events, r.name), AllItems(w.stats[r.name].groups));
    }
  }

  // ---------- rules that never drop ----------

  /** Every action the rule can take lets the metric through. */
  predicate OnlyLogsOrStrips(rule: Rule) {
    && (rule.action.Log? || rule.action.StripLabels?)
    && forall i :: 0 <= i < |rule.tiers| ==> rule.tiers[i].action.Log? || rule.tiers[i].action.StripLabels?
  }

  /** A rule that only logs or strips emits every metric that is neither marked nor refused for its
      labels, with all its datapoints, over its limits or not. */
  lemma LogEmitsEverything(env: Env, cacheSize: int, w: World, e: Event)
    requires e.Arrive? && CheckedBy(cacheSize, w, e).Some? && OnlyLogsOrStrips(CheckedBy(cacheSize, w, e).value)
    ensures var out := Step(env, cacheSize, false, w, e).1;
            out.Some? && SamePoints(e.metric, out.value)
  {
    var rule := CheckedBy(cacheSize, w, e).value;
    var m1 := LabelStripped(w.core.win, rule, e.metric, e.resource, e.reading);
    var s1 := w.core.(win := AfterLabelCheck(w.core.win, rule, e.metric, e.resource, e.reading));
    StrippedPayload(w.core.win, rule, e.metric, e.resource, e.reading);
    LimitedLetsThrough(env, s1, rule, GroupKey(rule, e.resource, e.metric), m1, e.resource, e.reading);
  }

  /** Same datapoints, up to attributes. */
  predicate SamePoints(a: Metric, b: Metric) {
    |a.points| == |b.points| && forall i :: 0 <= i < |a.points| ==> a.points[i].payload == b.points[i].payload
  }

  lemma StrippedPayload(w: Window, rule: Rule, m: Metric, res: map<string, string>, rd: Reading)
    ensures SamePoints(m, LabelStripped(w, rule, m, res, rd))
  {
  }

  lemma LimitedLetsThrough(env: Env, s: State, rule: Rule, group: string, m: Metric, res: map<string, string>,
                           rd: Reading)
    requires OnlyLogsOrStrips(rule)
    ensures var out := Limited(env, false, s, rule, group, m, res, rd).1; out.Some? && SamePoints(m, out.value)
  {
    var c := UpdateAndCheck(env, s.win, rule, group, m, res, rd.window);
    if c.exceeded.Some? {
      var reason := c.exceeded.value;
      PickedTierIsMember(rule.tiers, Utilization(c.win, rule, reason));
      ActLetsThrough(env, Violate(s.(win := c.win), rule.name, reason), rule, Effective(c.win, rule, reason), group,
          m, res,
                     reason, rd.offenders);
    }
  }

  lemma ActLetsThrough(env: Env, s: State, rule: Rule, eff: Rule, group: string, m: Metric, res: map<string, string>,
                       reason: Reason, order: seq<string>)
    requires eff.action.Log? || eff.action.StripLabels?
    ensures var out := Act(env, false, s, rule, eff, group, m, res, reason, order).1;
            out.Some? && SamePoints(m, out.value)
  {
  }

  // ---------- counters against emissions ----------

  /** Datapoints that left under a name and were counted, or that did not leave. */
  ghost function Fate(env: Env, cacheSize: int, w: World, events: seq<Event>, name: string, left: bool): nat {
    if events == [] then 0
    else
      var n := |events| - 1;
      var before := After(env, cacheSize, w, Enforced(n), events[..n]);
      var e := events[n];
      Fate(env, cacheSize, w, events[..n], name, left) +
      if e.Reload? || Account(RuleFor(cacheSize, before, e)) != name then 0
      else
        var rule := RuleFor(cacheSize, before, e);
        var out := Step(env, cacheSize, false, before, e).1;
        if left then Left(out, Uncounted(env, before.core.win, rule, e.metric, e.resource, e.reading),
            |e.metric.points|)
        else Kept(out, |e.metric.points|)
  }

  /** Over every enforcing run, reloads included, and for every rule name: the passed counter is
      the datapoints that were emitted, but for the uncounted exits, and the dropped counter those
      that were not. */
  lemma {:induction false} CountersAreEmissions(env: Env, cacheSize: int, w: World, events: seq<Event>, name: string)
    ensures var t := After(env, cacheSize, w, Enforced(|events|), events).core.tally;
            && Get(t.passed, name) == Get(w.core.tally.passed, name) + Fate(env, cacheSize, w, events, name, true)
            && Get(t.dropped, name) == Get(w.core.tally.dropped, name) + Fate(env, cacheSize, w, events, name, false)
  {
    if events != [] {
      var n := |events| - 1;
      CountersAreEmissions(env, cacheSize, w, events[..n], name);
      assert Enforced(|events|)[..n] == Enforced(n);
      var before := After(env, cacheSize, w, Enforced(n), events[..n]);
      var e := events[n];
      if e.Arrive? {
        ProcessedSplits(env, before.core, RuleFor(cacheSize, before, e), e.metric, e.resource, e.reading);
      }
    }
  }

  // ---------- violation counters ----------

  /** How many checks under the name reported the reason. */
  ghost function Reports(env: Env, cacheSize: int, w: World, events: seq<Event>, name: string, reason: Reason): nat {
    if events == [] then 0
    else
      var n := |events| - 1;
      var before := After(env, cacheSize, w, Enforced(n), events[..n]);
      Reports(env, cacheSize, w, events[..n], name, reason) +
          ReportGain(env, cacheSize, before, events[n], name, reason)
  }

  ghost function ReportGain(env: Env, cacheSize: int, w: World, e: Event, name: string, reason: Reason): nat {
    if ChecksName(cacheSize, w, e, name) &&
       CheckOf(env, w.core.win, CheckedBy(cacheSize, w, e).value, e.metric, e.resource, e.reading).exceeded ==
           Some(reason)
    then 1 else 0
  }

  function ViolationsOf(t: Tally, name: string, reason: Reason): nat {
    if reason.Cardinality? then Get(t.cardExceeded, name) else Get(t.rateExceeded, name)
  }

  /** No violation is counted between the two states. */
  predicate SameViolations(a: Tally, b: Tally) {
    a.rateExceeded == b.rateExceeded && a.cardExceeded == b.cardExceeded
  }

  lemma AdaptiveKeepsViolations(s: State, rule: Rule, group: string, m: Metric, reason: Reason, order: seq<string>)
    ensures SameViolations(s.tally, AdaptiveDrop(false, s, rule, group, m, reason, order).0.tally)
  {
  }

  lemma ActKeepsViolations(env: Env, s: State, rule: Rule, eff: Rule, group: string, m: Metric,
                           res: map<string, string>, reason: Reason, order: seq<string>)
    ensures SameViolations(s.tally, Act(env, false, s, rule, eff, group, m, res, reason, order).0.tally)
  {
    match eff.action
    case Adaptive => AdaptiveKeepsViolations(s, rule, group, m, reason, order);
    case _ =>
  }

  lemma StepReports(env: Env, cacheSize: int, w: World, e: Event, name: string, reason: Reason)
    requires e.Arrive?
    ensures ViolationsOf(Step(env, cacheSize, false, w, e).0.core.tally, name, reason) ==
            ViolationsOf(w.core.tally, name, reason) + ReportGain(env, cacheSize, w, e, name, reason)
  {
    var checked := CheckedBy(cacheSize, w, e);
    if checked.Some? {
      var rule := checked.value;
      var c := CheckOf(env, w.core.win, rule, e.metric, e.resource, e.reading);
      if c.exceeded.Some? {
        var why := c.exceeded.value;
        ActKeepsViolations(env, Violate(w.core.(win := c.win), rule.name, why), rule, Effective(c.win, rule, why),
                           GroupKey(rule, e.resource, e.metric),
                           LabelStripped(w.core.win, rule, e.metric, e.resource, e.reading), e.resource, why,
                           e.reading.offenders);
      }
    }
  }

  /** Over every run and for every name, the violation counters are the reports of each reason. */
  lemma {:induction false} ViolationsAreReports(env: Env, cacheSize: int, w: World, events: seq<Event>, name: string,
                                                reason: Reason)
    ensures ViolationsOf(After(env, cacheSize, w, Enforced(|events|), events).core.tally, name, reason) ==
            ViolationsOf(w.core.tally, name, reason) + Reports(env, cacheSize, w, events, name, reason)
  {
    if events != [] {
      var n := |events| - 1;
      ViolationsAreReports(env, cacheSize, w, events[..n], name, reason);
      assert Enforced(|events|)[..n] == Enforced(n);
      var before := After(env, cacheSize, w, Enforced(n), events[..n]);
      if events[n].Arrive? {
        StepReports(env, cacheSize, before, events[n], name, reason);
      }
    }
  }
}
