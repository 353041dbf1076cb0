/** Windows of a rule, read off the history of a run (internal/limits/enforcer.go). */
module LimitsWindows {
  import opened Collections
  import opened MetricModel
  import opened Trackers
  import opened Rules
  import opened LimitsSpec
  import opened LimitsRuns
  import opened LimitsTotals

  // ---------- which arrivals a rule checks ----------

  /** The rule whose window an event is checked in: the rule that handles it, unless its group is
      marked or its labels are refused. */
  function CheckedBy(cacheSize: int, w: World, e: Event): Option<Rule> {
    if e.Reload? then None
    else
      var rule := RuleFor(cacheSize, w, e);
      if rule.None? || IsMarked(w.core.win, rule.value.name, GroupKey(rule.value, e.resource, e.metric),
          e.reading.dropCheck)
         || LabelRefused(w.core.win, rule.value, e.metric, e.resource, e.reading) then None
      else rule
  }

  predicate ChecksName(cacheSize: int, w: World, e: Event, name: string) {
    CheckedBy(cacheSize, w, e).Some? && CheckedBy(cacheSize, w, e).value.name == name
  }

  /** There is a place for the group in the window that the check opens or finds. */
  predicate HasSlot(w: Window, rule: Rule, group: string, now: int) {
    var rs := Windowed(w, rule.name, now).stats[rule.name];
    group in rs.groups || |rs.groups| < MAX_GROUPS
  }

  predicate FindsSlot(w: World, e: Event, rule: Rule)
    requires e.Arrive?
  {
    HasSlot(w.core.win, rule, GroupKey(rule, e.resource, e.metric), e.reading.window)
  }

  /** The check finds both limits kept and counts the metric. */
  predicate Admits(env: Env, w: World, e: Event, rule: Rule)
    requires e.Arrive?
  {
    CheckOf(env, w.core.win, rule, e.metric, e.resource, e.reading).exceeded.None? && FindsSlot(w, e, rule)
  }

  // ---------- the window as history tells it ----------

  /** The end of the name's current window: a minute after the reading that opened it. A reading
      past the end opens the next one, and a reload without the rule forgets it. */
  ghost function WindowEnd(env: Env, cacheSize: int, rules: seq<Rule>, dry: seq<bool>, events: seq<Event>,
                           name: string): Option<int>
    requires |dry| == |events|
  {
    if events == [] then None
    else
      var n := |events| - 1;
      var w := After(env, cacheSize, Start(rules), dry[..n], events[..n]);
      var prev := WindowEnd(env, cacheSize, rules, dry[..n], events[..n], name);
      match events[n]
      case Reload(lowered) => if name in RuleNames(lowered) then prev else None
      case Arrive(_, _, reading) =>
        if ChecksName(cacheSize, w, events[n], name) && (prev.None? || reading.window > prev.value)
        then Some(reading.window + MINUTE) else prev
  }

  /** The last event opens a window of the name. */
  ghost predicate OpensWindow(env: Env, cacheSize: int, rules: seq<Rule>, dry: seq<bool>, events: seq<Event>,
                              name: string)
    requires |dry| == |events| && events != []
  {
    var n := |events| - 1;
    var w := After(env, cacheSize, Start(rules), dry[..n], events[..n]);
    var prev := WindowEnd(env, cacheSize, rules, dry[..n], events[..n], name);
    ChecksName(cacheSize, w, events[n], name) && (prev.None? || events[n].reading.window > prev.value)
  }

  /** Datapoints that the name's rule admitted since its current window was opened. */
  ghost function AdmittedSince(env: Env, cacheSize: int, rules: seq<Rule>, dry: seq<bool>, events: seq<Event>,
                               name: string): nat
    requires |dry| == |events|
  {
    if events == [] then 0
    else
      var n := |events| - 1;
      var w := After(env, cacheSize, Start(rules), dry[..n], events[..n]);
      var before := AdmittedSince(env, cacheSize, rules, dry[..n], events[..n], name);
      match events[n]
      case Reload(lowered) => if name in RuleNames(lowered) then before else 0
      case Arrive(_, _, _) =>
        (if OpensWindow(env, cacheSize, rules, dry, events, name) then 0 else before) +
        AdmitGain(env, cacheSize, w, events[n], name)
  }

  /** Datapoints that one arrival adds to what the name's rule admitted. */
  function AdmitGain(env: Env, cacheSize: int, w: World, e: Event, name: string): nat
    requires e.Arrive?
  {
    if ChecksName(cacheSize, w, e, name) && Admits(env, w, e, CheckedBy(cacheSize, w, e).value) then |e.metric.points|
    else 0
  }

  // ---------- one check ----------

  lemma CheckOpenTotals(env: Env, w: Window, rule: Rule, group: string, m: Metric, res: map<string, string>)
    requires rule.name in w.stats
    ensures var c := CheckOpen(env, w, rule, group, m, res); var rs := w.stats[rule.name];
            && rule.name in c.win.stats && c.win.stats[rule.name].windowEnd == rs.windowEnd
            && c.win.stats[rule.name].totalDPs == rs.totalDPs +
               (if c.exceeded.None? && (group in rs.groups || |rs.groups| < MAX_GROUPS) then |m.points| else 0)
            && c.win.marks == w.marks && c.win.values == w.values
  {
  }

  /** What a check does to its rule's window, in terms of the window before and the reading. */
  lemma CheckMovesWindow(env: Env, w: Window, rule: Rule, group: string, m: Metric, res: map<string, string>, now: int)
    ensures var c := UpdateAndCheck(env, w, rule, group, m, res, now);
            var opens := rule.name !in w.stats || now > w.stats[rule.name].windowEnd;
            && rule.name in c.win.stats
            && c.win.stats[rule.name].windowEnd == (if opens then now + MINUTE else w.stats[rule.name].windowEnd)
            && c.win.stats[rule.name].totalDPs ==
               (if opens then 0 else w.stats[rule.name].totalDPs) +
               (if c.exceeded.None? && HasSlot(w, rule, group, now) then |m.points| else 0)
            && now <= c.win.stats[rule.name].windowEnd
  {
    CheckOpenTotals(env, Windowed(w, rule.name, now), rule, group, m, res);
  }

  lemma StrippedKeepsPoints(w: Window, rule: Rule, m: Metric, res: map<string, string>, rd: Reading)
    ensures |LabelStripped(w, rule, m, res, rd).points| == |m.points|
    ensures AfterLabelCheck(w, rule, m, res, rd).stats == w.stats &&
            AfterLabelCheck(w, rule, m, res, rd).marks == w.marks
  {
  }

  /** An event that a rule checks leaves the statistics that its check left. */
  lemma CheckedStats(env: Env, cacheSize: int, dryRun: bool, w: World, e: Event)
    requires Sound(w.core.win) && env.empty.Fresh() && e.Arrive? && CheckedBy(cacheSize, w, e).Some?
    ensures var rule := CheckedBy(cacheSize, w, e).value;
            var c := CheckOf(env, w.core.win, rule, e.metric, e.resource, e.reading);
            var t := Step(env, cacheSize, dryRun, w, e).0.core.win;
            && t.stats == c.win.stats && t.values == c.win.values
            && (t.marks == c.win.marks || exists reason :: Excess(t.stats[rule.name], rule, reason) > 0)
  {
    var rule := CheckedBy(cacheSize, w, e).value;
    var s1 := w.core.(win := AfterLabelCheck(w.core.win, rule, e.metric, e.resource, e.reading));
    assert Sound(s1.win);
    LimitedKeeps(env, dryRun, s1, rule, GroupKey(rule, e.resource, e.metric),
                 LabelStripped(w.core.win, rule, e.metric, e.resource, e.reading), e.resource, e.reading);
  }

  /** An arrival that no rule checks leaves all statistics alone. */
  lemma UncheckedStats(env: Env, cacheSize: int, dryRun: bool, w: World, e: Event)
    requires e.Arrive? && CheckedBy(cacheSize, w, e).None?
    ensures Step(env, cacheSize, dryRun, w, e).0.core.win.stats == w.core.win.stats
    ensures Step(env, cacheSize, dryRun, w, e).0.core.win.marks == w.core.win.marks
  {
  }

  // ---------- whole runs ----------

  /** The statistics under a name agree with what history tells of its window. */
  ghost predicate Tells(w: Window, name: string, end: Option<int>, admitted: nat) {
    && (name in w.stats <==> end.Some?)
    && (name in w.stats ==> w.stats[name].windowEnd == end.value && w.stats[name].totalDPs == admitted)
    && (end.None? ==> admitted == 0)
  }

  lemma ArriveTells(env: Env, cacheSize: int, dryRun: bool, w: World, e: Event, name: string, end: Option<int>,
                    admitted: nat)
    requires Sound(w.core.win) && env.empty.Fresh() && e.Arrive? && Tells(w.core.win, name, end, admitted)
    ensures var t := Step(env, cacheSize, dryRun, w, e).0.core.win;
            var checks := ChecksName(cacheSize, w, e, name);
            var opens := checks && (end.None? || e.reading.window > end.value);
            Tells(t, name, if opens then Some(e.reading.window + MINUTE) else end,
                  (if opens then 0 else admitted) + AdmitGain(env, cacheSize, w, e, name))
  {
    var checked := CheckedBy(cacheSize, w, e);
    if checked.None? {
      UncheckedStats(env, cacheSize, dryRun, w, e);
    } else {
      var rule := checked.value;
      var w1 := AfterLabelCheck(w.core.win, rule, e.metric, e.resource, e.reading);
      var m1 := LabelStripped(w.core.win, rule, e.metric, e.resource, e.reading);
      var group := GroupKey(rule, e.resource, e.metric);
      CheckedStats(env, cacheSize, dryRun, w, e);
      StrippedKeepsPoints(w.core.win, rule, e.metric, e.resource, e.reading);
      CheckMovesWindow(env, w1, rule, group, m1, e.resource, e.reading.window);
      SlotIgnoresValues(w.core.win, w1, rule, group, e.reading.window);
      assert Sound(w1);
      UpdateKeeps(env, w1, rule, group, m1, e.resource, e.reading.window);
    }
  }

  lemma SlotIgnoresValues(a: Window, b: Window, rule: Rule, group: string, now: int)
    requires a.stats == b.stats && a.marks == b.marks
    ensures HasSlot(a, rule, group, now) == HasSlot(b, rule, group, now)
  {
  }

  /** Over every run, reloads included, and for every rule name: the window in force ends a minute
      after the reading that opened it, the latest one past the end of the window before, and the
      datapoint total is exactly what was admitted since. */
  lemma {:induction false} HistoryTells(env: Env, cacheSize: int, rules: seq<Rule>, dry: seq<bool>, events: seq<Event>,
                                        name: string)
    requires |dry| == |events| && env.empty.Fresh()
    ensures Tells(After(env, cacheSize, Start(rules), dry, events).core.win, name,
                  WindowEnd(env, cacheSize, rules, dry, events, name),
                  AdmittedSince(env, cacheSize, rules, dry, events, name))
  {
    if events != [] {
      var n := |events| - 1;
      HistoryTells(env, cacheSize, rules, dry[..n], events[..n], name);
      TotalsOverRuns(env, cacheSize, rules, dry[..n], events[..n]);
      var w := After(env, cacheSize, Start(rules), dry[..n], events[..n]);
      var end := WindowEnd(env, cacheSize, rules, dry[..n], events[..n], name);
      var admitted := AdmittedSince(env, cacheSize, rules, dry[..n], events[..n], name);
      match events[n] {
        case Arrive(_, _, _) =>
          ArriveTells(env, cacheSize, dry[n], w, events[n], name, end, admitted);
        case Reload(lowered) =>
      }
    }
  }

  /** A reported violation is true: the limit it names is set, and what the window holds together
      with what the metric brings is over it. Without a report both limits are kept. */
  lemma ReportIsTrue(env: Env, w: Window, rule: Rule, group: string, m: Metric, res: map<string, string>, now: int)
    requires HasSlot(w, rule, group, now)
    ensures var c := UpdateAndCheck(env, w, rule, group, m, res, now);
            var rs := Windowed(w, rule.name, now).stats[rule.name];
            var brings := GroupOf(env, rs, group).tracker.Unseen(SeriesKeys(env, m, res));
            && (c.exceeded == Some(Cardinality) <==> 0 < rule.maxCardinality < rs.totalCard + brings)
            && (c.exceeded == Some(DatapointsRate) ==> 0 < rule.maxDatapoints < rs.totalDPs + |m.points|)
            && (c.exceeded == None ==> !(0 < rule.maxDatapoints < rs.totalDPs + |m.points|))
  {
  }

  /** A rule with a rate limit only: an arrival that finds a slot is admitted if and only if the
      datapoints admitted since its window opened leave room for it. */
  lemma RateAdmitsIff(env: Env, cacheSize: int, rules: seq<Rule>, dry: seq<bool>, events: seq<Event>, e: Event)
    requires |dry| == |events| && env.empty.Fresh() && e.Arrive?
    ensures var w := After(env, cacheSize, Start(rules), dry, events);
            var checked := CheckedBy(cacheSize, w, e);
            checked.Some? && checked.value.maxCardinality <= 0 && FindsSlot(w, e, checked.value) ==>
              var rule := checked.value;
              var end := WindowEnd(env, cacheSize, rules, dry, events, rule.name);
              var opens := end.None? || e.reading.window > end.value;
              var had := if opens then 0 else AdmittedSince(env, cacheSize, rules, dry, events, rule.name);
              Admits(env, w, e, rule) <==> rule.maxDatapoints <= 0 || had + |e.metric.points| <= rule.maxDatapoints
  {
    var w := After(env, cacheSize, Start(rules), dry, events);
    var checked := CheckedBy(cacheSize, w, e);
    if checked.Some? && checked.value.maxCardinality <= 0 && FindsSlot(w, e, checked.value) {
      var rule := checked.value;
      HistoryTells(env, cacheSize, rules, dry, events, rule.name);
      RateCheck(env, w.core.win, rule, e.metric, e.resource, e.reading);
    }
  }

  lemma RateCheck(env: Env, w: Window, rule: Rule, m: Metric, res: map<string, string>, rd: Reading)
    requires rule.maxCardinality <= 0 && HasSlot(w, rule, GroupKey(rule, res, m), rd.window)
    ensures var opens := rule.name !in w.stats || rd.window > w.stats[rule.name].windowEnd;
            var had := if opens then 0 else w.stats[rule.name].totalDPs;
            CheckOf(env, w, rule, m, res, rd).exceeded.None? <==>
            rule.maxDatapoints <= 0 || had + |m.points| <= rule.maxDatapoints
  {
    StrippedKeepsPoints(w, rule, m, res, rd);
    SlotIgnoresValues(w, AfterLabelCheck(w, rule, m, res, rd), rule, GroupKey(rule, res, m), rd.window);
  }

  /** No arrival has read a later time. */
  ghost predicate ReadBy(events: seq<Event>, now: int) {
    forall i :: 0 <= i < |events| && events[i].Arrive? ==> events[i].reading.window <= now
  }

  lemma {:induction false} WindowEndsSoon(env: Env, cacheSize: int, rules: seq<Rule>, dry: seq<bool>,
                                          events: seq<Event>,
                                          name: string, now: int)
    requires |dry| == |events| && ReadBy(events, now)
    ensures var end := WindowEnd(env, cacheSize, rules, dry, events, name); end.Some? ==> end.value <= now + MINUTE
  {
    if events != [] {
      var n := |events| - 1;
      assert forall i :: 0 <= i < n ==> events[..n][i] == events[i];
      WindowEndsSoon(env, cacheSize, rules, dry[..n], events[..n], name, now);
    }
  }

  /** After every check the reading lies in the rule's window, which ends within a minute of it if
      no earlier reading was later. A check past the old end leaves no mark and no tracked value
      of the rule, and counts nothing that came before. */
  lemma CheckLiesInWindow(env: Env, cacheSize: int, rules: seq<Rule>, dry: seq<bool>, events: seq<Event>, dryRun: bool,
                          e: Event, name: string)
    requires |dry| == |events| && env.empty.Fresh() && e.Arrive?
    ensures var w := After(env, cacheSize, Start(rules), dry, events);
            var t := Step(env, cacheSize, dryRun, w, e).0.core.win;
            var end := WindowEnd(env, cacheSize, rules, dry, events, name);
            ChecksName(cacheSize, w, e, name) ==>
              && name in t.stats && e.reading.window <= t.stats[name].windowEnd
              && (ReadBy(events, e.reading.window) ==> t.stats[name].windowEnd <= e.reading.window + MINUTE)
              && (end.Some? && e.reading.window > end.value ==>
                    && name !in t.marks && name !in t.values
                    && t.stats[name].windowEnd == e.reading.window + MINUTE
                    && t.stats[name].totalDPs <= |e.metric.points|)
  {
    var w := After(env, cacheSize, Start(rules), dry, events);
    if ChecksName(cacheSize, w, e, name) {
      HistoryTells(env, cacheSize, rules, dry, events, name);
      TotalsOverRuns(env, cacheSize, rules, dry, events);
      var end := WindowEnd(env, cacheSize, rules, dry, events, name);
      var admitted := AdmittedSince(env, cacheSize, rules, dry, events, name);
      ArriveTells(env, cacheSize, dryRun, w, e, name, end, admitted);
      if ReadBy(events, e.reading.window) {
        WindowEndsSoon(env, cacheSize, rules, dry, events, name, e.reading.window);
      }
      if end.Some? && e.reading.window > end.value {
        RollForgets(env, cacheSize, dryRun, w, e);
      }
    }
  }

  lemma RollForgets(env: Env, cacheSize: int, dryRun: bool, w: World, e: Event)
    requires Sound(w.core.win) && env.empty.Fresh() && e.Arrive? && CheckedBy(cacheSize, w, e).Some?
    requires var name := CheckedBy(cacheSize, w, e).value.name;
             name in w.core.win.stats && e.reading.window > w.core.win.stats[name].windowEnd
    ensures var name := CheckedBy(cacheSize, w, e).value.name;
            var t := Step(env, cacheSize, dryRun, w, e).0.core.win;
            name !in t.marks && name !in t.values
  {
    var rule := CheckedBy(cacheSize, w, e).value;
    var w1 := AfterLabelCheck(w.core.win, rule, e.metric, e.resource, e.reading);
    var m1 := LabelStripped(w.core.win, rule, e.metric, e.resource, e.reading);
    var group := GroupKey(rule, e.resource, e.metric);
    CheckedStats(env, cacheSize, dryRun, w, e);
    RolledCheck(env, w1, rule, group, m1, e.resource, e.reading.window);
  }

  /** The first check of a fresh window: no mark, no value, and no excess. */
  lemma RolledCheck(env: Env, w: Window, rule: Rule, group: string, m: Metric, res: map<string, string>, now: int)
    requires rule.name in w.stats && now > w.stats[rule.name].windowEnd && env.empty.Fresh()
    ensures var c := UpdateAndCheck(env, w, rule, group, m, res, now);
            && rule.name in c.win.stats && rule.name !in c.win.marks && rule.name !in c.win.values
            && forall reason :: Excess(c.win.stats[rule.name], rule, reason) <= 0
  {
    var open := Windowed(w, rule.name, now);
    assert open.stats[rule.name] == RuleStats(map[], 0, 0, now + MINUTE);
    CheckOpenTotals(env, open, rule, group, m, res);
    FreshCheck(env, open, rule, group, m, res);
  }

  lemma FreshCheck(env: Env, w: Window, rule: Rule, group: string, m: Metric, res: map<string, string>)
    requires rule.name in w.stats && w.stats[rule.name].totalDPs == 0 && w.stats[rule.name].totalCard == 0
    ensures var c := CheckOpen(env, w, rule, group, m, res);
            forall reason :: Excess(c.win.stats[rule.name], rule, reason) <= 0
  {
    var rs := w.stats[rule.name];
    var gs := GroupOf(env, rs, group);
    gs.tracker.GrowthWithinUnseen(SeriesKeys(env, m, res));
  }
}
