/** Where every received datapoint is counted, over every run. */
module LimitsAccounting {
  import opened Collections
  import opened MetricModel
  import opened Trackers
  import opened Rules
  import opened LimitsSpec
  import opened LimitsRuns
  import opened LimitsTotals

  /** Counted as passed or dropped under a rule name. */
  function CountedFor(t: Tally, name: string): nat {
    Get(t.passed, name) + Get(t.dropped, name)
  }

  /** The name under which a metric's datapoints are counted. */
  function Account(rule: Option<Rule>): string {
    if rule.Some? then rule.value.name else NO_RULE
  }

  /** The two exits of a violation that count nothing: adaptive without excess, and an
      action the enforcer does not know. */
  predicate ActsUncounted(w: Window, rule: Rule, eff: Rule, reason: Reason) {
    || eff.action.Unrecognised?
    || (eff.action.Adaptive? && (rule.name !in w.stats || Excess(w.stats[rule.name], rule, reason) <= 0))
  }

  predicate LimitedUncounted(env: Env, w: Window, rule: Rule, group: string, m: Metric, res: map<string, string>,
                             rd: Reading) {
    var c := UpdateAndCheck(env, w, rule, group, m, res, rd.window);
    c.exceeded.Some? && ActsUncounted(c.win, rule, Effective(c.win, rule, c.exceeded.value), c.exceeded.value)
  }

  predicate Uncounted(env: Env, w: Window, rule: Option<Rule>, m: Metric, res: map<string, string>, rd: Reading) {
    && rule.Some?
    && var r := rule.value;
       var group := GroupKey(r, res, m);
       && !IsMarked(w, r.name, group, rd.dropCheck)
       && !LabelRefused(w, r, m, res, rd)
       && LimitedUncounted(env, AfterLabelCheck(w, r, m, res, rd), r, group, LabelStripped(w, r, m, res, rd), res, rd)
  }

  /** b counts n more datapoints than a under name, and no others. */
  ghost predicate Counts(a: Tally, b: Tally, name: string, n: nat) {
    forall x :: CountedFor(b, x) == CountedFor(a, x) + (if x == name then n else 0)
  }

  /** Under name, p more datapoints count as passed and d more as dropped, and no others. */
  ghost predicate Splits(a: Tally, b: Tally, name: string, p: nat, d: nat) {
    forall x ::
      && Get(b.passed, x) == Get(a.passed, x) + (if x == name then p else 0)
      && Get(b.dropped, x) == Get(a.dropped, x) + (if x == name then d else 0)
  }

  /** Of n datapoints, those that left and are counted, and those that did not leave. */
  function Left(out: Option<Metric>, uncounted: bool, n: nat): nat {
    if out.Some? && !uncounted then n else 0
  }

  function Kept(out: Option<Metric>, n: nat): nat {
    if out.None? then n else 0
  }

  lemma PassSplits(s: State, name: string, n: nat)
    ensures Splits(s.tally, Pass(s, name, n).tally, name, n, 0)
  {
  }

  lemma LoseSplits(s: State, name: string, n: nat)
    ensures Splits(s.tally, Lose(s, name, n).tally, name, 0, n)
  {
  }

  lemma AdaptiveSplits(s: State, rule: Rule, group: string, m: Metric, reason: Reason, order: seq<string>)
    ensures var (t, out) := AdaptiveDrop(false, s, rule, group, m, reason, order);
            var uncounted := rule.name !in s.win.stats || Excess(s.win.stats[rule.name], rule, reason) <= 0;
            (uncounted ==> out.Some?) &&
            Splits(s.tally, t.tally, rule.name, Left(out, uncounted, |m.points|), Kept(out, |m.points|))
  {
    if rule.name in s.win.stats && Excess(s.win.stats[rule.name], rule, reason) > 0 {
      var rs := s.win.stats[rule.name];
      var win := WithMarks(s.win, rule.name, Marked(rs, rule, reason, order), rs.windowEnd);
      var s1 := State(win, s.tally.(groupsMarked :=
                        Bump(s.tally.groupsMarked, rule.name, MarkCount(rs, rule, reason, order))));
      PassSplits(s1, rule.name, |m.points|);
      LoseSplits(s1, rule.name, |m.points|);
    }
  }

  lemma ActSplits(env: Env, s: State, rule: Rule, eff: Rule, group: string, m: Metric, res: map<string, string>,
                  reason: Reason, order: seq<string>)
    requires eff.name == rule.name
    ensures var (t, out) := Act(env, false, s, rule, eff, group, m, res, reason, order);
            (ActsUncounted(s.win, rule, eff, reason) ==> out.Some?) &&
            Splits(s.tally, t.tally, rule.name,
                   Left(out, ActsUncounted(s.win, rule, eff, reason), |m.points|), Kept(out, |m.points|))
  {
    match eff.action
    case Log => PassSplits(s, rule.name, |m.points|);
    case Drop => LoseSplits(s, rule.name, |m.points|);
    case Adaptive => AdaptiveSplits(s, rule, group, m, reason, order);
    case Sample =>
      PassSplits(s, rule.name, |m.points|);
      LoseSplits(s, rule.name, |m.points|);
    case StripLabels => PassSplits(s, rule.name, |m.points|);
    case Unrecognised =>
  }

  lemma LimitedSplits(env: Env, s: State, rule: Rule, group: string, m: Metric, res: map<string, string>, rd: Reading)
    ensures var (t, out) := Limited(env, false, s, rule, group, m, res, rd);
            (LimitedUncounted(env, s.win, rule, group, m, res, rd) ==> out.Some?) &&
            Splits(s.tally, t.tally, rule.name,
                   Left(out, LimitedUncounted(env, s.win, rule, group, m, res, rd), |m.points|), Kept(out, |m.points|))
  {
    var c := UpdateAndCheck(env, s.win, rule, group, m, res, rd.window);
    PassSplits(s.(win := c.win), rule.name, |m.points|);
    if c.exceeded.Some? {
      var reason := c.exceeded.value;
      ActSplits(env, Violate(s.(win := c.win), rule.name, reason), rule, Effective(c.win, rule, reason), group, m, res,
                reason, rd.offenders);
    }
  }

  /** Enforcing, a metric counts as passed if and only if it is emitted, and as dropped if and only
      if it is not, unless it leaves by an uncounted exit. */
  lemma ProcessedSplits(env: Env, s: State, rule: Option<Rule>, m: Metric, res: map<string, string>, rd: Reading)
    ensures var (t, out) := Processed(env, false, s, rule, m, res, rd);
            (Uncounted(env, s.win, rule, m, res, rd) ==> out.Some?) &&
            Splits(s.tally, t.tally, Account(rule),
                   Left(out, Uncounted(env, s.win, rule, m, res, rd), |m.points|), Kept(out, |m.points|))
  {
    PassSplits(s, Account(rule), |m.points|);
    if rule.Some? {
      var r := rule.value;
      var s1 := s.(win := AfterLabelCheck(s.win, r, m, res, rd));
      var m1 := LabelStripped(s.win, r, m, res, rd);
      assert |m1.points| == |m.points|;
      LoseSplits(s, r.name, |m.points|);
      LoseSplits(s1, r.name, |m.points|);
      LimitedSplits(env, s1, r, GroupKey(r, res, m), m1, res, rd);
    }
  }

  /** One metric is counted once, under its rule's name, unless it leaves uncounted. */
  lemma ProcessedCounts(env: Env, dryRun: bool, s: State, rule: Option<Rule>, m: Metric, res: map<string, string>,
                        rd: Reading)
    ensures Counts(s.tally, Processed(env, dryRun, s, rule, m, res, rd).0.tally, Account(rule),
                   if Uncounted(env, s.win, rule, m, res, rd) then 0 else |m.points|)
  {
    ProcessedShadow(env, false, dryRun, s, rule, m, res, rd);
    ProcessedSplits(env, s, rule, m, res, rd);
  }

  // ---------- whole runs ----------

  /** Datapoints received for a name; with uncounted set, only those that left uncounted. */
  function Received(env: Env, cacheSize: int, w: World, dry: seq<bool>, events: seq<Event>, name: string,
                    uncounted: bool): nat
    requires |dry| == |events|
  {
    if events == [] then 0
    else
      var n := |events| - 1;
      var before := After(env, cacheSize, w, dry[..n], events[..n]);
      var e := events[n];
      Received(env, cacheSize, w, dry[..n], events[..n], name, uncounted) +
      if e.Arrive? && Account(RuleFor(cacheSize, before, e)) == name &&
         (uncounted ==> Uncounted(env, before.core.win, RuleFor(cacheSize, before, e), e.metric, e.resource, e.reading))
      then |e.metric.points| else 0
  }

  /** Over every run, reloads and dry-run changes included, and for every rule name: what
      was received is what was counted as passed or dropped, plus exactly what left by the
      two uncounted exits. */
  lemma {:induction false} EveryDatapointAccounted(env: Env, cacheSize: int, w: World, dry: seq<bool>,
                                                   events: seq<Event>, name: string)
    requires |dry| == |events|
    ensures CountedFor(After(env, cacheSize, w, dry, events).core.tally, name) +
            Received(env, cacheSize, w, dry, events, name, true) ==
            CountedFor(w.core.tally, name) + Received(env, cacheSize, w, dry, events, name, false)
  {
    if events != [] {
      var n := |events| - 1;
      EveryDatapointAccounted(env, cacheSize, w, dry[..n], events[..n], name);
      var before := After(env, cacheSize, w, dry[..n], events[..n]);
      var e := events[n];
      if e.Arrive? {
        ProcessedCounts(env, dry[n], before.core, RuleFor(cacheSize, before, e), e.metric, e.resource, e.reading);
      }
    }
  }

  predicate Counting(a: Action) {
    a.Log? || a.Drop? || a.Sample? || a.StripLabels?
  }

  predicate CountingRule(r: Rule) {
    Counting(r.action) && forall i :: 0 <= i < |r.tiers| ==> Counting(r.tiers[i].action)
  }

  lemma {:induction false} PickedTierIsMember(tiers: seq<Tier>, utilization: int)
    ensures PickTier(tiers, utilization).Some? ==> PickTier(tiers, utilization).value in tiers
  {
    if tiers != [] {
      PickedTierIsMember(tiers[..|tiers| - 1], utilization);
    }
  }

  predicate CountingRules(rules: seq<Rule>) {
    forall i :: 0 <= i < |rules| ==> CountingRule(rules[i])
  }

  predicate CountingReloads(events: seq<Event>) {
    forall i :: 0 <= i < |events| && events[i].Reload? ==> CountingRules(events[i].rules)
  }

  lemma {:induction false} RulesStayCounting(env: Env, cacheSize: int, rules: seq<Rule>, dry: seq<bool>,
                                             events: seq<Event>)
    requires |dry| == |events| && CountingRules(rules) && CountingReloads(events)
    ensures CountingRules(After(env, cacheSize, Start(rules), dry, events).index.rules)
  {
    if events != [] {
      var n := |events| - 1;
      RulesStayCounting(env, cacheSize, rules, dry[..n], events[..n]);
    }
  }

  /** If every rule and tier only logs, drops, samples or strips, nothing leaves uncounted:
      received equals passed plus dropped for every name, in every run. */
  lemma {:induction false} PassedPlusDropped(env: Env, cacheSize: int, rules: seq<Rule>, dry: seq<bool>,
                                             events: seq<Event>, name: string)
    requires |dry| == |events| && CountingRules(rules) && CountingReloads(events)
    ensures Received(env, cacheSize, Start(rules), dry, events, name, true) == 0
    ensures CountedFor(After(env, cacheSize, Start(rules), dry, events).core.tally, name) ==
            Received(env, cacheSize, Start(rules), dry, events, name, false)
  {
    EveryDatapointAccounted(env, cacheSize, Start(rules), dry, events, name);
    if events != [] {
      var n := |events| - 1;
      PassedPlusDropped(env, cacheSize, rules, dry[..n], events[..n], name);
      RulesStayCounting(env, cacheSize, rules, dry[..n], events[..n]);
      RunKeepsIndex(env, cacheSize, rules, dry[..n], events[..n]);
      var w := After(env, cacheSize, Start(rules), dry[..n], events[..n]);
      StepKeepsIndex(env, cacheSize, dry[n], w, events[n]);
      if events[n].Arrive? && RuleFor(cacheSize, w, events[n]).Some? {
        CountingRuleCounts(env, w.core.win, RuleFor(cacheSize, w, events[n]).value, events[n].metric,
                           events[n].resource, events[n].reading);
      }
    }
  }

  lemma CountingRuleCounts(env: Env, w: Window, rule: Rule, m: Metric, res: map<string, string>, rd: Reading)
    requires CountingRule(rule)
    ensures !Uncounted(env, w, Some(rule), m, res, rd)
  {
    var c := UpdateAndCheck(env, AfterLabelCheck(w, rule, m, res, rd), rule, GroupKey(rule, res, m),
        LabelStripped(w, rule, m, res, rd), res, rd.window);
    if c.exceeded.Some? {
      PickedTierIsMember(rule.tiers, Utilization(c.win, rule, c.exceeded.value));
    }
  }

  lemma AdaptiveInCalm(env: Env, dryRun: bool, s: State, rules: seq<Rule>, rule: Rule, group: string, m: Metric,
                       res: map<string, string>, rd: Reading)
    requires Calm(s.win, rules) && rule in rules && env.empty.Fresh()
    requires var c := UpdateAndCheck(env, s.win, rule, group, m, res, rd.window);
             c.exceeded.Some? && Effective(c.win, rule, c.exceeded.value).action.Adaptive?
    ensures var (t, out) := Limited(env, dryRun, s, rule, group, m, res, rd);
            && out == Some(Inject(m, "adaptive", rule.name))
            && t.tally.passed == s.tally.passed && t.tally.dropped == s.tally.dropped
  {
    UpdateKeeps(env, s.win, rule, group, m, res, rd.window);
    var c := UpdateAndCheck(env, s.win, rule, group, m, res, rd.window);
    NoExcessWithin(c.win, rule, c.exceeded.value);
  }

  /** The metric is over its rule's limits and the action that applies is adaptive. */
  predicate ReachesAdaptive(env: Env, w: Window, rule: Rule, m: Metric, res: map<string, string>, rd: Reading) {
    && !LabelRefused(w, rule, m, res, rd)
    && var c := UpdateAndCheck(env, AfterLabelCheck(w, rule, m, res, rd), rule, GroupKey(rule, res, m),
        LabelStripped(w, rule, m, res, rd), res, rd.window);
       c.exceeded.Some? && Effective(c.win, rule, c.exceeded.value).action.Adaptive?
  }

  /** Without reloads the adaptive action drops nothing: every metric that reaches it is
      emitted, in both modes, and is counted neither as passed nor as dropped. */
  lemma AdaptiveEmitsUncounted(env: Env, cacheSize: int, rules: seq<Rule>, dry: seq<bool>, events: seq<Event>,
                               dryRun: bool, e: Event)
    requires |dry| == |events| && env.empty.Fresh() && DistinctNames(rules) && NoReload(events) && e.Arrive?
    ensures var w := After(env, cacheSize, Start(rules), dry, events);
            var rule := RuleFor(cacheSize, w, e);
            rule.Some? && ReachesAdaptive(env, w.core.win, rule.value, e.metric, e.resource, e.reading) ==>
              var (t, out) := Processed(env, dryRun, w.core, rule, e.metric, e.resource, e.reading);
              && out.Some? && |out.value.points| == |e.metric.points|
              && t.tally.passed == w.core.tally.passed && t.tally.dropped == w.core.tally.dropped
  {
    NeverOverNeverMarked(env, cacheSize, rules, dry, events);
    RunKeepsIndex(env, cacheSize, rules, dry, events);
    var w := After(env, cacheSize, Start(rules), dry, events);
    StepKeepsIndex(env, cacheSize, dryRun, w, e);
    var found := RuleFor(cacheSize, w, e);
    if found.Some? && ReachesAdaptive(env, w.core.win, found.value, e.metric, e.resource, e.reading) {
      var rule := found.value;
      var s1 := w.core.(win := AfterLabelCheck(w.core.win, rule, e.metric, e.resource, e.reading));
      assert Calm(s1.win, rules);
      AdaptiveInCalm(env, dryRun, s1, rules, rule, GroupKey(rule, e.resource, e.metric),
                     LabelStripped(w.core.win, rule, e.metric, e.resource, e.reading), e.resource, e.reading);
    }
  }
}
