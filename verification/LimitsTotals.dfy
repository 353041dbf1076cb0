/** Window totals, drop marks and the limits they enforce, over every run. */
module LimitsTotals {
  import opened Collections
  import opened MetricModel
  import opened Trackers
  import opened Rules
  import opened LimitsSpec
  import opened LimitsRuns

  function PointsOf(g: GroupStats): nat { g.datapoints }

  function SeriesOf(g: GroupStats): nat { g.tracker.Count() }

  /** A rule's totals are the sums over its groups. */
  ghost predicate Balanced(rs: RuleStats) {
    rs.totalDPs == SumBy(rs.groups, PointsOf) && rs.totalCard == SumBy(rs.groups, SeriesOf)
  }

  ghost predicate AllBalanced(w: Window) {
    forall n :: n in w.stats ==> Balanced(w.stats[n])
  }

  /** Every drop mark belongs to a rule with an open window and expires with it. */
  ghost predicate MarksExpireWithWindow(w: Window) {
    forall n, g :: n in w.marks && g in w.marks[n] ==> n in w.stats && w.marks[n][g] == w.stats[n].windowEnd
  }

  ghost predicate Sound(w: Window) {
    AllBalanced(w) && MarksExpireWithWindow(w)
  }

  ghost predicate RuleWithin(w: Window, rule: Rule) {
    rule.name in w.stats ==>
      !OverLimit(rule.maxDatapoints, w.stats[rule.name].totalDPs) &&
      !OverLimit(rule.maxCardinality, w.stats[rule.name].totalCard)
  }

  ghost predicate AllWithin(w: Window, rules: seq<Rule>) {
    forall r :: r in rules ==> RuleWithin(w, r)
  }

  /** Only the named rule's statistics differ. */
  ghost predicate SameElsewhere(a: Window, b: Window, name: string) {
    forall n :: n != name ==> (n in a.stats <==> n in b.stats) && (n in a.stats ==> a.stats[n] == b.stats[n])
  }

  // ---------- one check ----------

  lemma LiveMarksAreMarks(marks: map<string, map<string, int>>, now: int, n: string, g: string)
    requires n in LiveMarks(marks, now) && g in LiveMarks(marks, now)[n]
    ensures n in marks && g in marks[n] && LiveMarks(marks, now)[n][g] == marks[n][g]
  {
  }

  lemma WindowedKeepsMarks(w: Window, name: string, now: int)
    requires MarksExpireWithWindow(w)
    ensures MarksExpireWithWindow(Windowed(w, name, now))
    ensures w.marks == map[] ==> Windowed(w, name, now).marks == map[]
  {
    if name in w.stats && now > w.stats[name].windowEnd {
      var t := Windowed(w, name, now);
      forall n, g | n in t.marks && g in t.marks[n]
        ensures n in t.stats && t.marks[n][g] == t.stats[n].windowEnd
      {
        LiveMarksAreMarks(w.marks - {name}, now, n, g);
      }
    }
  }

  lemma WindowedKeepsStats(w: Window, name: string, now: int)
    requires AllBalanced(w)
    ensures AllBalanced(Windowed(w, name, now))
    ensures SameElsewhere(w, Windowed(w, name, now), name)
    ensures var rs := Windowed(w, name, now).stats[name];
            (rs.totalDPs == 0 && rs.totalCard == 0) || (name in w.stats && rs == w.stats[name])
  {
    assert Balanced(RuleStats(map[], 0, 0, now + MINUTE));
  }

  /** Admitting a metric keeps the sums, and moves the totals by at most what was checked. */
  lemma AdmitKeepsBalance(env: Env, rs: RuleStats, group: string, keys: seq<string>, n: nat)
    requires Balanced(rs) && env.empty.Fresh()
    ensures var gs := GroupOf(env, rs, group);
            var r := Admit(rs, group, gs, keys, n);
            && Balanced(r) && r.windowEnd == rs.windowEnd
            && r.totalDPs == rs.totalDPs + n
            && r.totalCard <= rs.totalCard + gs.tracker.Unseen(keys)
  {
    var gs := GroupOf(env, rs, group);
    gs.tracker.GrowthWithinUnseen(keys);
    var v := GroupStats(gs.datapoints + n, gs.tracker.WithAll(keys), gs.windowEnd);
    SumByUpdate(rs.groups, PointsOf, group, v);
    SumByUpdate(rs.groups, SeriesOf, group, v);
  }

  lemma TouchGroupKeepsBalance(env: Env, rs: RuleStats, group: string)
    requires Balanced(rs) && env.empty.Fresh()
    ensures Balanced(rs.(groups := rs.groups[group := GroupOf(env, rs, group)]))
  {
    SumByUpdate(rs.groups, PointsOf, group, GroupOf(env, rs, group));
    SumByUpdate(rs.groups, SeriesOf, group, GroupOf(env, rs, group));
  }

  lemma WithStatsKeeps(w: Window, name: string, rs: RuleStats)
    requires Sound(w) && Balanced(rs) && name in w.stats && rs.windowEnd == w.stats[name].windowEnd
    ensures Sound(WithStats(w, name, rs)) && SameElsewhere(w, WithStats(w, name, rs), name)
  {
  }

  lemma CheckOpenKeeps(env: Env, w: Window, rule: Rule, group: string, m: Metric, res: map<string, string>)
    requires Sound(w) && env.empty.Fresh() && rule.name in w.stats
    ensures var c := CheckOpen(env, w, rule, group, m, res);
            && Sound(c.win) && rule.name in c.win.stats && SameElsewhere(w, c.win, rule.name)
            && c.win.marks == w.marks
            && (RuleWithin(w, rule) ==> RuleWithin(c.win, rule))
  {
    var c := CheckOpen(env, w, rule, group, m, res);
    var rs := w.stats[rule.name];
    if group in rs.groups || |rs.groups| < MAX_GROUPS {
      var gs := GroupOf(env, rs, group);
      var keys := SeriesKeys(env, m, res);
      if c.exceeded.Some? {
        var touched := rs.(groups := rs.groups[group := gs]);
        TouchGroupKeepsBalance(env, rs, group);
        WithStatsKeeps(w, rule.name, touched);
        assert c.win == WithStats(w, rule.name, touched);
      } else {
        var grown := Admit(rs, group, gs, keys, |m.points|);
        AdmitKeepsBalance(env, rs, group, keys, |m.points|);
        WithStatsKeeps(w, rule.name, grown);
        assert c.win == WithStats(w, rule.name, grown);
      }
    }
  }

  /** A check keeps the sums and the marks, keeps a rule that is within its own limits
      there, and leaves other rules alone. */
  lemma UpdateKeeps(env: Env, w: Window, rule: Rule, group: string, m: Metric, res: map<string, string>, now: int)
    requires Sound(w) && env.empty.Fresh()
    ensures var c := UpdateAndCheck(env, w, rule, group, m, res, now);
            && Sound(c.win) && rule.name in c.win.stats && SameElsewhere(w, c.win, rule.name)
            && (w.marks == map[] ==> c.win.marks == map[])
            && (RuleWithin(w, rule) ==> RuleWithin(c.win, rule))
  {
    WindowedKeepsMarks(w, rule.name, now);
    WindowedKeepsStats(w, rule.name, now);
    CheckOpenKeeps(env, Windowed(w, rule.name, now), rule, group, m, res);
  }

  // ---------- what follows a violation ----------

  /** Actions never touch the totals; only a positive adaptive excess creates marks, and
      those expire with the window. */
  lemma ActKeeps(env: Env, dryRun: bool, s: State, rule: Rule, eff: Rule, group: string, m: Metric,
                 res: map<string, string>, reason: Reason, order: seq<string>)
    requires Sound(s.win)
    ensures var w := Act(env, dryRun, s, rule, eff, group, m, res, reason, order).0.win;
            && w.stats == s.win.stats && w.values == s.win.values && Sound(w)
            && (w.marks == s.win.marks ||
                (eff.action.Adaptive? && rule.name in w.stats && Excess(w.stats[rule.name], rule, reason) > 0))
  {
    if eff.action.Adaptive? && rule.name in s.win.stats && Excess(s.win.stats[rule.name], rule, reason) > 0 {
      var rs := s.win.stats[rule.name];
      assert Act(env, dryRun, s, rule, eff, group, m, res, reason, order).0.win ==
             WithMarks(s.win, rule.name, Marked(rs, rule, reason, order), rs.windowEnd);
    } else {
      assert Act(env, dryRun, s, rule, eff, group, m, res, reason, order).0.win == s.win;
    }
  }

  lemma LimitedKeeps(env: Env, dryRun: bool, s: State, rule: Rule, group: string, m: Metric, res: map<string, string>,
                     rd: Reading)
    requires Sound(s.win) && env.empty.Fresh()
    ensures var c := UpdateAndCheck(env, s.win, rule, group, m, res, rd.window);
            var w := Limited(env, dryRun, s, rule, group, m, res, rd).0.win;
            && Sound(w) && w.stats == c.win.stats && w.values == c.win.values
            && (w.marks == c.win.marks || exists reason :: Excess(w.stats[rule.name], rule, reason) > 0)
  {
    UpdateKeeps(env, s.win, rule, group, m, res, rd.window);
    var c := UpdateAndCheck(env, s.win, rule, group, m, res, rd.window);
    if c.exceeded.Some? {
      var reason := c.exceeded.value;
      ActKeeps(env, dryRun, Violate(s.(win := c.win), rule.name, reason), rule, Effective(c.win, rule, reason), group,
               m, res, reason, rd.offenders);
    }
  }

  lemma ProcessedKeeps(env: Env, dryRun: bool, s: State, rule: Option<Rule>, m: Metric, res: map<string, string>,
                       rd: Reading)
    requires Sound(s.win) && env.empty.Fresh()
    ensures Sound(Processed(env, dryRun, s, rule, m, res, rd).0.win)
  {
    if rule.Some? {
      var r := rule.value;
      var s1 := s.(win := AfterLabelCheck(s.win, r, m, res, rd));
      LimitedKeeps(env, dryRun, s1, r, GroupKey(r, res, m), LabelStripped(s.win, r, m, res, rd), res, rd);
    }
  }

  /** Over every run, reloads included: totals are the sums over groups, and every drop
      mark expires at the end of its rule's current window. */
  lemma {:induction false} TotalsOverRuns(env: Env, cacheSize: int, rules: seq<Rule>, dry: seq<bool>,
                                          events: seq<Event>)
    requires |dry| == |events| && env.empty.Fresh()
    ensures var w := After(env, cacheSize, Start(rules), dry, events).core.win;
            AllBalanced(w) && MarksExpireWithWindow(w)
  {
    if events != [] {
      var n := |events| - 1;
      TotalsOverRuns(env, cacheSize, rules, dry[..n], events[..n]);
      var w := After(env, cacheSize, Start(rules), dry[..n], events[..n]);
      var e := events[n];
      if e.Arrive? {
        ProcessedKeeps(env, dry[n], w.core, RuleFor(cacheSize, w, e), e.metric, e.resource, e.reading);
      }
    }
  }

  // ---------- without reloads ----------

  /** No mark exists and every rule is within its limits. */
  ghost predicate Calm(w: Window, rules: seq<Rule>) {
    AllBalanced(w) && w.marks == map[] && AllWithin(w, rules)
  }

  lemma NoExcessWithin(w: Window, rule: Rule, reason: Reason)
    requires rule.name in w.stats && RuleWithin(w, rule)
    ensures Excess(w.stats[rule.name], rule, reason) <= 0
  {
  }

  lemma LimitedKeepsCalm(env: Env, dryRun: bool, s: State, rules: seq<Rule>, rule: Rule, group: string, m: Metric,
                         res: map<string, string>, rd: Reading)
    requires Calm(s.win, rules) && env.empty.Fresh() && rule in rules && DistinctNames(rules)
    ensures Calm(Limited(env, dryRun, s, rule, group, m, res, rd).0.win, rules)
  {
    UpdateKeeps(env, s.win, rule, group, m, res, rd.window);
    LimitedKeeps(env, dryRun, s, rule, group, m, res, rd);
    var c := UpdateAndCheck(env, s.win, rule, group, m, res, rd.window);
    NoExcessWithin(c.win, rule, Cardinality);
    NoExcessWithin(c.win, rule, DatapointsRate);
    var w := Limited(env, dryRun, s, rule, group, m, res, rd).0.win;
    forall r | r in rules ensures RuleWithin(w, r) {
      assert r.name == rule.name ==> r == rule;
    }
  }

  lemma ProcessedKeepsCalm(env: Env, dryRun: bool, s: State, rules: seq<Rule>, rule: Option<Rule>, m: Metric,
                           res: map<string, string>, rd: Reading)
    requires Calm(s.win, rules) && env.empty.Fresh() && DistinctNames(rules)
    requires rule.Some? ==> rule.value in rules
    ensures Calm(Processed(env, dryRun, s, rule, m, res, rd).0.win, rules)
  {
    if rule.Some? {
      var r := rule.value;
      var s1 := s.(win := AfterLabelCheck(s.win, r, m, res, rd));
      LimitedKeepsCalm(env, dryRun, s1, rules, r, GroupKey(r, res, m), LabelStripped(s.win, r, m, res, rd), res, rd);
    }
  }

  /** Over every run without a reload, with distinct rule names: no total ever exceeds its
      rule's limit, whatever duplicates or Bloom false positives occur, and therefore the
      adaptive excess is never positive and no group is ever marked for dropping. */
  lemma {:induction false} NeverOverNeverMarked(env: Env, cacheSize: int, rules: seq<Rule>, dry: seq<bool>,
                                                events: seq<Event>)
    requires |dry| == |events| && env.empty.Fresh() && DistinctNames(rules) && NoReload(events)
    ensures var w := After(env, cacheSize, Start(rules), dry, events).core.win;
            && AllBalanced(w) && AllWithin(w, rules) && w.marks == map[]
            && forall r, reason :: r in rules && r.name in w.stats ==> Excess(w.stats[r.name], r, reason) <= 0
  {
    if events != [] {
      var n := |events| - 1;
      NeverOverNeverMarked(env, cacheSize, rules, dry[..n], events[..n]);
      var w := After(env, cacheSize, Start(rules), dry[..n], events[..n]);
      var e := events[n];
      RunKeepsIndex(env, cacheSize, rules, dry[..n], events[..n]);
      StepKeepsIndex(env, cacheSize, dry[n], w, e);
      ProcessedKeepsCalm(env, dry[n], w.core, rules, RuleFor(cacheSize, w, e), e.metric, e.resource, e.reading);
    }
    var w := After(env, cacheSize, Start(rules), dry, events).core.win;
    forall r, reason | r in rules && r.name in w.stats
      ensures Excess(w.stats[r.name], r, reason) <= 0
    {
      NoExcessWithin(w, r, reason);
    }
  }
}
