/** Per-label value limits: what is tracked and what can be emitted
    (internal/limits/enforcer.go). */
module LabelLimits {
  import opened Collections
  import opened MetricModel
  import opened Rules
  import opened LimitsSpec
  import opened LimitsRuns

  ghost predicate Bounded(rule: Rule, trackers: map<string, set<string>>) {
    forall l :: l in trackers && l in rule.labelLimits ==> |trackers[l]| <= Max(rule.labelLimits[l], 0)
  }

  /** b knows every value and every stripped label that a knows. */
  ghost predicate Extends(a: LabelScan, b: LabelScan) {
    && a.strip <= b.strip
    && (forall l :: ValuesOf(a.trackers, l) <= ValuesOf(b.trackers, l))
    && (a.refused ==> b.refused)
  }

  /** A label of the rule that is present is either stripped or carries a tracked value. */
  predicate Settled(rule: Rule, acc: LabelScan, merged: map<string, string>, l: string) {
    acc.refused || l !in rule.labelLimits || l !in merged || l in acc.strip || merged[l] in ValuesOf(acc.trackers, l)
  }

  lemma ScanLabelStep(rule: Rule, acc: LabelScan, merged: map<string, string>, l: string)
    requires Bounded(rule, acc.trackers)
    ensures var r := ScanLabel(rule, acc, merged, l);
            Bounded(rule, r.trackers) && Extends(acc, r) && Settled(rule, r, merged, l)
  {
  }

  lemma {:induction false} ScanLabelsStep(rule: Rule, acc: LabelScan, merged: map<string, string>, visit: seq<string>)
    requires Bounded(rule, acc.trackers)
    ensures var r := ScanLabels(rule, acc, merged, visit);
            && Bounded(rule, r.trackers) && Extends(acc, r)
            && forall l :: l in visit ==> Settled(rule, r, merged, l)
  {
    if visit != [] {
      var n := |visit| - 1;
      var before := ScanLabels(rule, acc, merged, visit[..n]);
      ScanLabelsStep(rule, acc, merged, visit[..n]);
      ScanLabelStep(rule, before, merged, visit[n]);
      var r := ScanLabels(rule, acc, merged, visit);
      forall l | l in visit ensures Settled(rule, r, merged, l) {
        assert visit == visit[..n] + [visit[n]];
        assert l in visit[..n] ==> Settled(rule, before, merged, l);
        assert ValuesOf(before.trackers, l) <= ValuesOf(r.trackers, l);
      }
    }
  }

  /** The walk over the label limits of every datapoint meets every label. */
  ghost predicate Covers(visits: seq<seq<string>>, m: Metric, rule: Rule) {
    forall i, l :: 0 <= i < |m.points| && l in rule.labelLimits ==> l in VisitOf(visits, i)
  }

  lemma {:induction false} ScanPointsGrow(rule: Rule, acc: LabelScan, m: Metric, res: map<string, string>,
                                          visits: seq<seq<string>>, n: nat)
    requires Bounded(rule, acc.trackers) && n <= |m.points|
    ensures var r := ScanPoints(rule, acc, m, res, visits, n);
            Bounded(rule, r.trackers) && Extends(acc, r)
  {
    if n > 0 {
      ScanPointsGrow(rule, acc, m, res, visits, n - 1);
      ScanLabelsStep(rule, ScanPoints(rule, acc, m, res, visits, n - 1),
                     res + Extract(m.points[n - 1].attrs), VisitOf(visits, n - 1));
    }
  }

  lemma SettledStays(rule: Rule, a: LabelScan, b: LabelScan, merged: map<string, string>, l: string)
    requires Settled(rule, a, merged, l) && Extends(a, b)
    ensures Settled(rule, b, merged, l)
  {
    assert ValuesOf(a.trackers, l) <= ValuesOf(b.trackers, l);
  }

  lemma {:induction false} ScanPointsSettle(rule: Rule, acc: LabelScan, m: Metric, res: map<string, string>,
                                            visits: seq<seq<string>>, n: nat, i: nat, l: string)
    requires Bounded(rule, acc.trackers) && i < n <= |m.points| && Covers(visits, m, rule) && l in rule.labelLimits
    ensures Settled(rule, ScanPoints(rule, acc, m, res, visits, n), res + Extract(m.points[i].attrs), l)
  {
    ScanPointsGrow(rule, acc, m, res, visits, n - 1);
    var before := ScanPoints(rule, acc, m, res, visits, n - 1);
    ScanLabelsStep(rule, before, res + Extract(m.points[n - 1].attrs), VisitOf(visits, n - 1));
    if i < n - 1 {
      ScanPointsSettle(rule, acc, m, res, visits, n - 1, i, l);
      SettledStays(rule, before, ScanPoints(rule, acc, m, res, visits, n), res + Extract(m.points[i].attrs), l);
    } else {
      assert l in VisitOf(visits, n - 1);
    }
  }

  /** Some limit of the rule is used up. */
  ghost predicate Full(rule: Rule, trackers: map<string, set<string>>, l: string) {
    l in rule.labelLimits && (rule.labelLimits[l] == 0 || |ValuesOf(trackers, l)| >= rule.labelLimits[l])
  }

  /** Only full labels are stripped, and only a full label refuses, and only if the rule says so. */
  ghost predicate Justified(rule: Rule, acc: LabelScan) {
    && (forall l :: l in acc.strip ==> Full(rule, acc.trackers, l))
    && (acc.refused ==> rule.labelLimitDrops && exists l :: l in rule.labelLimits && Full(rule, acc.trackers, l))
  }

  lemma ScanLabelJustified(rule: Rule, acc: LabelScan, merged: map<string, string>, l: string)
    requires Justified(rule, acc)
    ensures Justified(rule, ScanLabel(rule, acc, merged, l))
  {
    var r := ScanLabel(rule, acc, merged, l);
    forall k | k in r.strip ensures Full(rule, r.trackers, k) {
      assert k in acc.strip ==> Full(rule, acc.trackers, k);
      if k == l && |ValuesOf(acc.trackers, l)| < |ValuesOf(r.trackers, l)| {
        assert rule.labelLimits[l] != 0;
      }
    }
    if r.refused && !acc.refused {
      assert Full(rule, r.trackers, l);
    }
  }

  lemma {:induction false} ScanLabelsJustified(rule: Rule, acc: LabelScan, merged: map<string, string>,
                                               visit: seq<string>)
    requires Justified(rule, acc)
    ensures Justified(rule, ScanLabels(rule, acc, merged, visit))
  {
    if visit != [] {
      var n := |visit| - 1;
      ScanLabelsJustified(rule, acc, merged, visit[..n]);
      ScanLabelJustified(rule, ScanLabels(rule, acc, merged, visit[..n]), merged, visit[n]);
    }
  }

  lemma {:induction false} ScanPointsJustified(rule: Rule, acc: LabelScan, m: Metric, res: map<string, string>,
                                               visits: seq<seq<string>>, n: nat)
    requires Justified(rule, acc) && n <= |m.points|
    ensures Justified(rule, ScanPoints(rule, acc, m, res, visits, n))
  {
    if n > 0 {
      ScanPointsJustified(rule, acc, m, res, visits, n - 1);
      ScanLabelsJustified(rule, ScanPoints(rule, acc, m, res, visits, n - 1),
                          res + Extract(m.points[n - 1].attrs), VisitOf(visits, n - 1));
    }
  }

  /** The label check strips only labels whose limit is used up, and refuses a metric only for one,
      and only under a rule that drops for it. */
  lemma CheckIsJustified(w: Window, rule: Rule, m: Metric, res: map<string, string>, visits: seq<seq<string>>)
    ensures Justified(rule, LabelCheck(w, rule, m, res, visits))
  {
    ScanPointsJustified(rule, LabelScan(RuleValues(w, rule.name), {}, false), m, res, visits, |m.points|);
  }

  // ---------- values that leave with a metric ----------

  /** Two ways of counting the values under a label: as the enforcer reads them, one per
      datapoint, or every non-empty string that is written. */
  datatype Sense = AsRead | AsWritten

  ghost function PointValues(sense: Sense, attrs: seq<KeyValue>, l: string): set<string> {
    if sense.AsWritten? then Texts(attrs, l) else if l in Extract(attrs) then {Extract(attrs)[l]} else {}
  }

  ghost function Values(sense: Sense, m: Metric, l: string): set<string> {
    set i, v | 0 <= i < |m.points| && v in PointValues(sense, m.points[i].attrs, l) :: v
  }

  ghost function Leaving(sense: Sense, out: Option<Metric>, l: string): set<string> {
    if out.Some? then Values(sense, out.value, l) else {}
  }

  /** No datapoint carries two different values of the label. */
  ghost predicate Unambiguous(m: Metric, l: string) {
    forall i :: 0 <= i < |m.points| ==> OneValue(m.points[i].attrs, l)
  }

  lemma PointsAgree(attrs: seq<KeyValue>, l: string)
    ensures PointValues(AsRead, attrs, l) <= PointValues(AsWritten, attrs, l)
    ensures OneValue(attrs, l) <==> PointValues(AsWritten, attrs, l) == PointValues(AsRead, attrs, l)
  {
    ReadIsText(attrs, l);
  }

  /** For an unambiguous metric both ways of counting agree. */
  lemma SensesAgree(m: Metric, l: string)
    requires Unambiguous(m, l)
    ensures Values(AsWritten, m, l) == Values(AsRead, m, l)
  {
    forall i | 0 <= i < |m.points|
      ensures PointValues(AsWritten, m.points[i].attrs, l) == PointValues(AsRead, m.points[i].attrs, l)
    {
      PointsAgree(m.points[i].attrs, l);
    }
  }

  lemma PointOfStrip(sense: Sense, attrs: seq<KeyValue>, labels: set<string>, l: string)
    ensures PointValues(sense, StripAttrs(attrs, labels), l) ==
            if l in labels then {} else PointValues(sense, attrs, l)
  {
    ExtractOfStrip(attrs, labels);
    StripKeepsOthers(attrs, labels);
  }

  lemma ValuesOfStrip(sense: Sense, m: Metric, labels: set<string>, l: string)
    ensures Values(sense, Strip(m, labels), l) == if l in labels then {} else Values(sense, m, l)
  {
    forall i | 0 <= i < |m.points|
      ensures PointValues(sense, Strip(m, labels).points[i].attrs, l) ==
              if l in labels then {} else PointValues(sense, m.points[i].attrs, l)
    {
      PointOfStrip(sense, m.points[i].attrs, labels, l);
    }
  }

  lemma StripKeepsUnambiguous(m: Metric, labels: set<string>, l: string)
    requires Unambiguous(m, l)
    ensures Unambiguous(Strip(m, labels), l)
  {
    forall i | 0 <= i < |m.points| ensures OneValue(Strip(m, labels).points[i].attrs, l) {
      PointOfStrip(AsWritten, m.points[i].attrs, labels, l);
    }
  }

  // ---------- values that the enforcer adds itself ----------

  /** The action words of metrics that are emitted while enforcing. */
  const EMITTED_ACTIONS := {"passed", "log", "adaptive", "sampled_keep", "stripped"}

  /** The values the enforcer may inject under a label: none, except for its own two labels. */
  function Injected(rule: Rule, l: string): set<string> {
    if l == ACTION_LABEL then EMITTED_ACTIONS else if l == RULE_LABEL then {rule.name} else {}
  }

  lemma InjectedCount(rule: Rule, l: string)
    ensures |Injected(rule, l)| == if l == ACTION_LABEL then 5 else if l == RULE_LABEL then 1 else 0
  {
    if l == ACTION_LABEL {
      assert |EMITTED_ACTIONS| == 5;
    }
  }

  lemma WrittenOfInject(attrs: seq<KeyValue>, action: string, name: string, l: string)
    ensures Texts(attrs + Marks(action, name), l) == Texts(attrs, l) + Texts(Marks(action, name), l)
    ensures Texts(Marks(action, name), l) <= (if l == ACTION_LABEL then {action}
            else if l == RULE_LABEL then {name} else {})
    ensures l == RULE_LABEL && name != "" ==> name in Texts(Marks(action, name), l)
  {
    assert Marks(action, name)[1] in Marks(action, name);
    forall kv | kv in Marks(action, name) && kv.key == l
      ensures TextOf(kv.value) == if l == ACTION_LABEL then action else name
    {
    }
  }

  lemma PointOfMarks(sense: Sense, attrs: seq<KeyValue>, action: string, rule: Rule, l: string)
    requires action in EMITTED_ACTIONS
    ensures PointValues(sense, attrs + Marks(action, rule.name), l) <= PointValues(sense, attrs, l) + Injected(rule, l)
  {
    if sense.AsRead? {
      ExtractOfMarks(attrs, action, rule.name);
    } else {
      WrittenOfInject(attrs, action, rule.name, l);
    }
  }

  lemma ValuesOfInject(sense: Sense, m: Metric, action: string, rule: Rule, l: string)
    requires action in EMITTED_ACTIONS
    ensures Values(sense, Inject(m, action, rule.name), l) <= Values(sense, m, l) + Injected(rule, l)
  {
    forall i | 0 <= i < |m.points|
      ensures PointValues(sense, Inject(m, action, rule.name).points[i].attrs, l) <=
              PointValues(sense, m.points[i].attrs, l) + Injected(rule, l)
    {
      PointOfMarks(sense, m.points[i].attrs, action, rule, l);
    }
  }

  /** Whatever happens after the label check, only injected values are added to a datapoint. */
  lemma ActCarriesNoMore(sense: Sense, env: Env, s: State, rule: Rule, eff: Rule, group: string, m: Metric,
                         res: map<string, string>, reason: Reason, order: seq<string>, l: string)
    requires eff.name == rule.name
    ensures Leaving(sense, Act(env, false, s, rule, eff, group, m, res, reason, order).1, l) <=
            Values(sense, m, l) + Injected(rule, l)
  {
    match eff.action
    case Log => ValuesOfInject(sense, m, "log", rule, l);
    case Drop =>
    case Adaptive => ValuesOfInject(sense, m, "adaptive", rule, l);
    case Sample => ValuesOfInject(sense, m, "sampled_keep", rule, l);
    case StripLabels =>
      var labels := set x | x in eff.stripLabels;
      ValuesOfStrip(sense, m, labels, l);
      ValuesOfInject(sense, Strip(m, labels), "stripped", rule, l);
    case Unrecognised =>
  }

  /** A violation handled by stripping leaves no value under a stripped label, except those the
      enforcer injects. */
  lemma StripRemoves(sense: Sense, env: Env, s: State, rule: Rule, eff: Rule, group: string, m: Metric,
                     res: map<string, string>, reason: Reason, order: seq<string>, l: string)
    requires eff.action.StripLabels?
    ensures var out := Act(env, false, s, rule, eff, group, m, res, reason, order).1;
            && out.Some?
            && (l in eff.stripLabels ==> Values(sense, out.value, l) <= Injected(rule, l))
            && (l !in eff.stripLabels ==> Values(sense, out.value, l) <= Values(sense, m, l) + Injected(rule, l))
  {
    var labels := set x | x in eff.stripLabels;
    ValuesOfStrip(sense, m, labels, l);
    ValuesOfInject(sense, Strip(m, labels), "stripped", rule, l);
  }

  lemma LimitedCarriesNoMore(sense: Sense, env: Env, s: State, rule: Rule, group: string, m: Metric,
                             res: map<string, string>, rd: Reading, l: string)
    ensures Leaving(sense, Limited(env, false, s, rule, group, m, res, rd).1, l) <=
            Values(sense, m, l) + Injected(rule, l)
  {
    var c := UpdateAndCheck(env, s.win, rule, group, m, res, rd.window);
    ValuesOfInject(sense, m, "passed", rule, l);
    if c.exceeded.Some? {
      var reason := c.exceeded.value;
      ActCarriesNoMore(sense, env, Violate(s.(win := c.win), rule.name, reason), rule,
                       Effective(c.win, rule, reason), group, m, res, reason, rd.offenders, l);
    }
  }

  /** The metric may be counted this way: as read, or as written if it is unambiguous. */
  ghost predicate Countable(sense: Sense, m: Metric, l: string) {
    sense.AsWritten? ==> Unambiguous(m, l)
  }

  lemma CheckSettles(w: Window, rule: Rule, m: Metric, res: map<string, string>, rd: Reading, l: string, i: nat)
    requires l in rule.labelLimits && Covers(rd.visits, m, rule) && Bounded(rule, RuleValues(w, rule.name))
    requires i < |m.points| && l in Extract(m.points[i].attrs)
    ensures var scan := LabelCheck(w, rule, m, res, rd.visits);
            scan.refused || l in scan.strip || Extract(m.points[i].attrs)[l] in ValuesOf(scan.trackers, l)
  {
    ScanPointsSettle(rule, LabelScan(RuleValues(w, rule.name), {}, false), m, res, rd.visits, |m.points|, i, l);
  }

  lemma CheckedReadTracked(w: Window, rule: Rule, m: Metric, res: map<string, string>, rd: Reading, l: string)
    requires l in rule.labelLimits && Covers(rd.visits, m, rule) && Bounded(rule, RuleValues(w, rule.name))
    requires !LabelRefused(w, rule, m, res, rd)
    ensures Values(AsRead, LabelStripped(w, rule, m, res, rd), l) <=
            ValuesOf(RuleValues(AfterLabelCheck(w, rule, m, res, rd), rule.name), l)
  {
    var scan := LabelCheck(w, rule, m, res, rd.visits);
    assert rule.labelLimits != map[];
    ValuesOfStrip(AsRead, m, scan.strip, l);
    forall i | 0 <= i < |m.points| && l in Extract(m.points[i].attrs) && l !in scan.strip
      ensures Extract(m.points[i].attrs)[l] in ValuesOf(scan.trackers, l)
    {
      CheckSettles(w, rule, m, res, rd, l, i);
    }
  }

  /** After the label check every value still carried under a limited label is tracked. */
  lemma CheckedValuesAreTracked(sense: Sense, w: Window, rule: Rule, m: Metric, res: map<string, string>,
                                rd: Reading, l: string)
    requires l in rule.labelLimits && Covers(rd.visits, m, rule) && Bounded(rule, RuleValues(w, rule.name))
    requires !LabelRefused(w, rule, m, res, rd) && Countable(sense, m, l)
    ensures Values(sense, LabelStripped(w, rule, m, res, rd), l) <=
            ValuesOf(RuleValues(AfterLabelCheck(w, rule, m, res, rd), rule.name), l)
  {
    CheckedReadTracked(w, rule, m, res, rd, l);
    if sense.AsWritten? {
      StripKeepsUnambiguous(m, LabelCheck(w, rule, m, res, rd.visits).strip, l);
      SensesAgree(LabelStripped(w, rule, m, res, rd), l);
    }
  }

  /** The values of other rule names are as before. */
  ghost predicate OthersKept(a: Window, b: Window, name: string) {
    forall n :: n != name ==> (n in b.values <==> n in a.values) && (n in a.values ==> b.values[n] == a.values[n])
  }

  lemma LabelCheckGrows(w: Window, rule: Rule, m: Metric, res: map<string, string>, rd: Reading)
    requires Covers(rd.visits, m, rule) && Bounded(rule, RuleValues(w, rule.name))
    ensures var w1 := AfterLabelCheck(w, rule, m, res, rd);
            && Bounded(rule, RuleValues(w1, rule.name))
            && (forall l :: ValuesOf(RuleValues(w, rule.name), l) <= ValuesOf(RuleValues(w1, rule.name), l))
            && w1.stats == w.stats && w1.marks == w.marks
            && OthersKept(w, w1, rule.name)
  {
    ScanPointsGrow(rule, LabelScan(RuleValues(w, rule.name), {}, false), m, res, rd.visits, |m.points|);
  }

  /** Later stages either keep the value sets or forget those of the rule itself. */
  ghost predicate KeptOrForgotten(a: Window, b: Window, name: string) {
    b.values == a.values || b.values == a.values - {name}
  }

  lemma KeptOrForgottenOthers(a: Window, mid: Window, b: Window, name: string)
    requires OthersKept(a, mid, name) && KeptOrForgotten(mid, b, name)
    ensures OthersKept(a, b, name)
    ensures name in b.values ==> name in mid.values && b.values[name] == mid.values[name]
  {
  }

  lemma LimitedValues(env: Env, dryRun: bool, s: State, rule: Rule, group: string, m: Metric, res: map<string, string>,
                      rd: Reading)
    ensures KeptOrForgotten(s.win, Limited(env, dryRun, s, rule, group, m, res, rd).0.win, rule.name)
  {
    var c := UpdateAndCheck(env, s.win, rule, group, m, res, rd.window);
    assert c.win.values == Windowed(s.win, rule.name, rd.window).values;
    if c.exceeded.Some? {
      var reason := c.exceeded.value;
      ActValues(env, dryRun, Violate(s.(win := c.win), rule.name, reason), rule, Effective(c.win, rule, reason), group,
                m, res, reason, rd.offenders);
    }
  }

  lemma ActValues(env: Env, dryRun: bool, s: State, rule: Rule, eff: Rule, group: string, m: Metric,
                  res: map<string, string>, reason: Reason, order: seq<string>)
    ensures Act(env, dryRun, s, rule, eff, group, m, res, reason, order).0.win.values == s.win.values
  {
  }

  // ---------- whole runs ----------

  ghost predicate AllBounded(w: Window, rules: seq<Rule>) {
    forall r :: r in rules ==> Bounded(r, RuleValues(w, r.name))
  }

  ghost predicate CoversAll(e: Event, rules: seq<Rule>) {
    e.Arrive? && forall r :: r in rules ==> Covers(e.reading.visits, e.metric, r)
  }

  function Enforcing(n: nat): seq<bool> {
    seq(n, _ => false)
  }

  /** The values of a label emitted under a rule name since its trackers were last reset. */
  ghost function SinceReset(sense: Sense, env: Env, cacheSize: int, rules: seq<Rule>, events: seq<Event>,
                            name: string, l: string): set<string>
    requires NoReload(events)
  {
    if events == [] then {}
    else
      var n := |events| - 1;
      var w := After(env, cacheSize, Start(rules), Enforcing(n), events[..n]);
      var (w', out) := Step(env, cacheSize, false, w, events[n]);
      var rule := RuleFor(cacheSize, w, events[n]);
      if name !in w'.core.win.values then {}
      else
        SinceReset(sense, env, cacheSize, rules, events[..n], name, l) +
        if rule.Some? && rule.value.name == name then Leaving(sense, out, l) else {}
  }

  /** Every metric of the run that rule r handles may be counted this way. */
  ghost predicate AllCountable(sense: Sense, env: Env, cacheSize: int, rules: seq<Rule>, events: seq<Event>,
                               r: Rule, l: string)
    requires NoReload(events)
  {
    events == [] ||
    var n := |events| - 1;
    && AllCountable(sense, env, cacheSize, rules, events[..n], r, l)
    && (RuleFor(cacheSize, After(env, cacheSize, Start(rules), Enforcing(n), events[..n]), events[n]) == Some(r) ==>
          Countable(sense, events[n].metric, l))
  }

  /** The rule's value sets once a metric has been through the label check. */
  ghost function MidValues(s: State, rule: Rule, m: Metric, res: map<string, string>, rd: Reading)
    : map<string, set<string>>
  {
    RuleValues(AfterLabelCheck(s.win, rule, m, res, rd), rule.name)
  }

  /** What leaves is tracked just before a possible reset of the trackers, or injected. */
  lemma StepLeavesTracked(sense: Sense, env: Env, s: State, rule: Rule, m: Metric, res: map<string, string>,
                          rd: Reading, l: string)
    requires Bounded(rule, RuleValues(s.win, rule.name)) && Covers(rd.visits, m, rule)
    requires l in rule.labelLimits && Countable(sense, m, l)
    ensures Leaving(sense, Matched(env, false, s, rule, m, res, rd).1, l) <=
            ValuesOf(MidValues(s, rule, m, res, rd), l) + Injected(rule, l)
  {
    var group := GroupKey(rule, res, m);
    if !IsMarked(s.win, rule.name, group, rd.dropCheck) && !LabelRefused(s.win, rule, m, res, rd) {
      var s1 := s.(win := AfterLabelCheck(s.win, rule, m, res, rd));
      CheckedValuesAreTracked(sense, s.win, rule, m, res, rd, l);
      LimitedCarriesNoMore(sense, env, s1, rule, group, LabelStripped(s.win, rule, m, res, rd), res, rd, l);
    }
  }

  /** The step ends with the checked value sets, without any, or, for a marked group, as before. */
  lemma StepValues(env: Env, s: State, rule: Rule, m: Metric, res: map<string, string>, rd: Reading)
    requires Bounded(rule, RuleValues(s.win, rule.name)) && Covers(rd.visits, m, rule)
    ensures var (t, out) := Matched(env, false, s, rule, m, res, rd);
            && OthersKept(s.win, t.win, rule.name)
            && (rule.name in t.win.values ==>
                  || t.win.values[rule.name] == MidValues(s, rule, m, res, rd)
                  || (t.win.values[rule.name] == RuleValues(s.win, rule.name) && out.None?))
  {
    var group := GroupKey(rule, res, m);
    var s1 := s.(win := AfterLabelCheck(s.win, rule, m, res, rd));
    var t := Matched(env, false, s, rule, m, res, rd).0;
    LabelCheckGrows(s.win, rule, m, res, rd);
    if IsMarked(s.win, rule.name, group, rd.dropCheck) {
      assert t.win == s.win;
    } else if LabelRefused(s.win, rule, m, res, rd) {
      assert t.win == s1.win;
    } else {
      LimitedValues(env, false, s1, rule, group, LabelStripped(s.win, rule, m, res, rd), res, rd);
      KeptOrForgottenOthers(s.win, s1.win, t.win, rule.name);
    }
  }

  /** One enforcing step of a rule keeps every tracker within its limit, forgets nothing that
      was tracked before a possible reset, and touches no other rule's trackers. */
  lemma StepStaysTracked(env: Env, s: State, rules: seq<Rule>, rule: Rule, m: Metric, res: map<string, string>,
                         rd: Reading)
    requires rule in rules && DistinctNames(rules) && AllBounded(s.win, rules) && Covers(rd.visits, m, rule)
    ensures var (t, out) := Matched(env, false, s, rule, m, res, rd);
            var mid := MidValues(s, rule, m, res, rd);
            && Bounded(rule, mid) && AllBounded(t.win, rules)
            && (forall l :: ValuesOf(RuleValues(s.win, rule.name), l) <= ValuesOf(mid, l))
            && (rule.name in t.win.values ==>
                  || t.win.values[rule.name] == mid
                  || (t.win.values[rule.name] == RuleValues(s.win, rule.name) && out.None?))
            && OthersKept(s.win, t.win, rule.name)
  {
    LabelCheckGrows(s.win, rule, m, res, rd);
    StepValues(env, s, rule, m, res, rd);
    var (t, out) := Matched(env, false, s, rule, m, res, rd);
    forall r | r in rules ensures Bounded(r, RuleValues(t.win, r.name)) {
      assert r.name == rule.name ==> r == rule;
    }
  }

  /** What had left before, and what leaves now, is tracked or injected as long as the trackers
      are not reset. */
  lemma StepKeepsTracked(sense: Sense, env: Env, s: State, rules: seq<Rule>, rule: Rule, r: Rule, m: Metric,
                         res: map<string, string>, rd: Reading, l: string, before: set<string>)
    requires rule in rules && r in rules && DistinctNames(rules) && AllBounded(s.win, rules)
    requires Covers(rd.visits, m, rule) && l in r.labelLimits && (rule == r ==> Countable(sense, m, l))
    requires before <= ValuesOf(RuleValues(s.win, r.name), l) + Injected(r, l)
    ensures var (t, out) := Matched(env, false, s, rule, m, res, rd);
            && AllBounded(t.win, rules)
            && (r.name in t.win.values ==>
                  before + (if rule.name == r.name then Leaving(sense, out, l) else {}) <=
                  ValuesOf(RuleValues(t.win, r.name), l) + Injected(r, l))
  {
    StepStaysTracked(env, s, rules, rule, m, res, rd);
    if rule.name == r.name {
      assert rule == r;
      StepLeavesTracked(sense, env, s, r, m, res, rd, l);
    }
  }

  /** Over every enforcing run, what was emitted since the last reset is tracked or injected. */
  lemma {:induction false} ValuesStayTracked(sense: Sense, env: Env, cacheSize: int, rules: seq<Rule>,
                                             events: seq<Event>, r: Rule, l: string)
    requires NoReload(events) && DistinctNames(rules) && r in rules && l in r.labelLimits
    requires forall i :: 0 <= i < |events| ==> CoversAll(events[i], rules)
    requires AllCountable(sense, env, cacheSize, rules, events, r, l)
    ensures var w := After(env, cacheSize, Start(rules), Enforcing(|events|), events).core.win;
            && AllBounded(w, rules)
            && SinceReset(sense, env, cacheSize, rules, events, r.name, l) <=
               ValuesOf(RuleValues(w, r.name), l) + Injected(r, l)
  {
    if events != [] {
      var n := |events| - 1;
      ValuesStayTracked(sense, env, cacheSize, rules, events[..n], r, l);
      assert Enforcing(|events|)[..n] == Enforcing(n);
      RunKeepsIndex(env, cacheSize, rules, Enforcing(n), events[..n]);
      var w := After(env, cacheSize, Start(rules), Enforcing(n), events[..n]);
      var e := events[n];
      StepKeepsIndex(env, cacheSize, false, w, e);
      var rule := RuleFor(cacheSize, w, e);
      if rule.Some? {
        StepKeepsTracked(sense, env, w.core, rules, rule.value, r, e.metric, e.resource, e.reading, l,
                         SinceReset(sense, env, cacheSize, rules, events[..n], r.name, l));
      }
    }
  }

  /** Enforcing, without reloads: between resets of a rule's trackers, and including the metric
      that triggers a reset, the emitted datapoints carry at most `limit` distinct values of a
      limited label, besides those the enforcer injects under its own two labels. That counts
      values as they are read for all inputs, and every value that is written if no datapoint that
      the rule handles carries two different values of the label. */
  lemma EmittedValuesWithinLimit(sense: Sense, env: Env, cacheSize: int, rules: seq<Rule>, events: seq<Event>,
                                 e: Event, rule: Rule, l: string)
    requires NoReload(events) && DistinctNames(rules) && rule in rules && l in rule.labelLimits
    requires forall i :: 0 <= i < |events| ==> CoversAll(events[i], rules)
    requires CoversAll(e, rules) && Countable(sense, e.metric, l)
    requires AllCountable(sense, env, cacheSize, rules, events, rule, l)
    ensures var w := After(env, cacheSize, Start(rules), Enforcing(|events|), events);
            RuleFor(cacheSize, w, e) == Some(rule) ==>
            |SinceReset(sense, env, cacheSize, rules, events, rule.name, l) +
             Leaving(sense, Step(env, cacheSize, false, w, e).1, l)|
            <= Max(rule.labelLimits[l], 0) + |Injected(rule, l)|
  {
    ValuesStayTracked(sense, env, cacheSize, rules, events, rule, l);
    var w := After(env, cacheSize, Start(rules), Enforcing(|events|), events);
    if RuleFor(cacheSize, w, e) == Some(rule) {
      LeavesWithinLimit(sense, env, w.core, rules, rule, e.metric, e.resource, e.reading, l,
                        SinceReset(sense, env, cacheSize, rules, events, rule.name, l));
    }
  }

  /** What left before and what leaves now are together within the limit and the injected values. */
  lemma LeavesWithinLimit(sense: Sense, env: Env, s: State, rules: seq<Rule>, rule: Rule, m: Metric,
                          res: map<string, string>, rd: Reading, l: string, before: set<string>)
    requires rule in rules && DistinctNames(rules) && AllBounded(s.win, rules) && Covers(rd.visits, m, rule)
    requires l in rule.labelLimits && Countable(sense, m, l)
    requires before <= ValuesOf(RuleValues(s.win, rule.name), l) + Injected(rule, l)
    ensures |before + Leaving(sense, Matched(env, false, s, rule, m, res, rd).1, l)| <=
            Max(rule.labelLimits[l], 0) + |Injected(rule, l)|
  {
    LabelCheckGrows(s.win, rule, m, res, rd);
    StepLeavesTracked(sense, env, s, rule, m, res, rd, l);
    var tracked := ValuesOf(MidValues(s, rule, m, res, rd), l);
    var all := before + Leaving(sense, Matched(env, false, s, rule, m, res, rd).1, l);
    assert all <= tracked + Injected(rule, l);
    SubsetCard(all, tracked + Injected(rule, l));
  }

  // ---------- the first metric under a rule that limits one label ----------

  /** The rule accepts every metric, limits only label l, and strips. */
  predicate LimitsOnly(rule: Rule, l: string, limit: int) {
    && rule.metricName == "" && rule.matchLabels == map[] && rule.maxDatapoints <= 0 && rule.maxCardinality <= 0
    && rule.labelLimits == map[l := limit] && !rule.labelLimitDrops
  }

  /** Without rate and cardinality limits a metric always passes. */
  lemma UnlimitedPasses(env: Env, s: State, rule: Rule, group: string, m: Metric, res: map<string, string>, rd: Reading)
    requires rule.maxDatapoints <= 0 && rule.maxCardinality <= 0
    ensures Limited(env, false, s, rule, group, m, res, rd).1 == Some(Inject(m, "passed", rule.name))
  {
    var c := UpdateAndCheck(env, s.win, rule, group, m, res, rd.window);
    assert c.exceeded.None?;
  }

  lemma FirstMatched(env: Env, rule: Rule, l: string, limit: int, m: Metric, rd: Reading)
    requires LimitsOnly(rule, l, limit)
    ensures var scan := LabelCheck(START.win, rule, m, map[], rd.visits);
            Matched(env, false, START, rule, m, map[], rd).1 ==
            Some(Inject(Stripped(m, scan.strip), "passed", rule.name))
  {
    var s1 := START.(win := AfterLabelCheck(START.win, rule, m, map[], rd));
    NeverRefuses(rule, LabelScan(map[], {}, false), m, map[], rd.visits, |m.points|);
    UnlimitedPasses(env, s1, rule, GroupKey(rule, map[], m), LabelStripped(START.win, rule, m, map[], rd), map[], rd);
  }

  lemma FirstArrival(env: Env, cacheSize: int, rule: Rule, l: string, limit: int, m: Metric, rd: Reading)
    requires LimitsOnly(rule, l, limit)
    ensures var e := Arrive(m, map[], rd);
            var scan := LabelCheck(START.win, rule, m, map[], rd.visits);
            && RuleFor(cacheSize, Start([rule]), e) == Some(rule)
            && Step(env, cacheSize, false, Start([rule]), e).1 ==
               Some(Inject(Stripped(m, scan.strip), "passed", rule.name))
  {
    FirstMatched(env, rule, l, limit, m, rd);
    assert rule.Matches(m.name, map[]);
    assert FirstMatch([rule], m.name, map[]) == Some(rule);
  }

  lemma {:induction false} NeverRefusesLabels(rule: Rule, acc: LabelScan, merged: map<string, string>,
                                              visit: seq<string>)
    requires !rule.labelLimitDrops && !acc.refused
    ensures !ScanLabels(rule, acc, merged, visit).refused
  {
    if visit != [] {
      NeverRefusesLabels(rule, acc, merged, visit[..|visit| - 1]);
    }
  }

  lemma {:induction false} NeverRefuses(rule: Rule, acc: LabelScan, m: Metric, res: map<string, string>,
                                        visits: seq<seq<string>>, n: nat)
    requires !rule.labelLimitDrops && !acc.refused && n <= |m.points|
    ensures !ScanPoints(rule, acc, m, res, visits, n).refused
  {
    if n > 0 {
      NeverRefuses(rule, acc, m, res, visits, n - 1);
      NeverRefusesLabels(rule, ScanPoints(rule, acc, m, res, visits, n - 1),
                         res + Extract(m.points[n - 1].attrs), VisitOf(visits, n - 1));
    }
  }

  lemma FirstPointTracked(rule: Rule, l: string, m: Metric)
    requires LimitsOnly(rule, l, 1) && |m.points| == 1
    ensures LabelCheck(START.win, rule, m, map[], [[l]]).strip == {}
  {
    var start := LabelScan(map[], {}, false);
    var merged := map[] + Extract(m.points[0].attrs);
    assert [l][..0] == [] && ScanLabels(rule, start, merged, []) == start;
    assert ScanLabels(rule, start, merged, [l]) == ScanLabel(rule, start, merged, l);
    assert ScanPoints(rule, start, m, map[], [[l]], 0) == start;
    assert LabelCheck(START.win, rule, m, map[], [[l]]) == ScanLabels(rule, start, merged, [l]);
  }

  lemma WrittenByOne(m: Metric, action: string, name: string, l: string)
    requires |m.points| == 1 && l != ACTION_LABEL && l != RULE_LABEL
    ensures Values(AsWritten, Inject(m, action, name), l) == Texts(m.points[0].attrs, l)
  {
    WrittenOfInject(m.points[0].attrs, action, name, l);
    var out := Inject(m, action, name);
    forall v ensures v in Values(AsWritten, out, l) <==> v in Texts(m.points[0].attrs, l) {
      assert v in Values(AsWritten, out, l) <==> v in PointValues(AsWritten, out.points[0].attrs, l);
    }
  }

  lemma FirstWritten(env: Env, cacheSize: int, rule: Rule, l: string, m: Metric, rd: Reading)
    requires LimitsOnly(rule, l, 1) && Injected(rule, l) == {} && |m.points| == 1 && rd.visits == [[l]]
    ensures Leaving(AsWritten, Step(env, cacheSize, false, Start([rule]), Arrive(m, map[], rd)).1, l) ==
            Texts(m.points[0].attrs, l)
  {
    FirstArrival(env, cacheSize, rule, l, 1, m, rd);
    FirstPointTracked(rule, l, m);
    WrittenByOne(m, "passed", rule.name, l);
  }

  /** The condition is needed for every attribute list: under a limit of one, the first
      datapoint with these attributes is emitted with at most one value of the label if and
      only if it does not carry two different ones. */
  lemma OneDatapointIff(env: Env, cacheSize: int, rule: Rule, l: string, m: Metric, rd: Reading)
    requires LimitsOnly(rule, l, 1) && Injected(rule, l) == {} && |m.points| == 1 && rd.visits == [[l]]
    ensures |Leaving(AsWritten, Step(env, cacheSize, false, Start([rule]), Arrive(m, map[], rd)).1, l)| <= 1 <==>
            OneValue(m.points[0].attrs, l)
  {
    FirstWritten(env, cacheSize, rule, l, m, rd);
    SmallSet(Texts(m.points[0].attrs, l));
  }

  lemma SmallSet(s: set<string>)
    ensures |s| <= 1 <==> forall v, w :: v in s && w in s ==> v == w
  {
    if |s| <= 1 {
      forall v, w | v in s && w in s ensures v == w {
        SubsetCard({v, w}, s);
      }
    } else {
      var v :| v in s;
      assert |s - {v}| > 0;
      var w :| w in s - {v};
    }
  }

  /** Two values under one label, a limit of one, and both are emitted. */
  lemma RepeatedLabelExceeds(env: Env, cacheSize: int, rule: Rule, l: string, m: Metric, rd: Reading,
                             v: string, w: string)
    requires LimitsOnly(rule, l, 1) && Injected(rule, l) == {} && rd.visits == [[l]] && v != w && v != "" && w != ""
    requires |m.points| == 1 && m.points[0].attrs == [KeyValue(l, Str(v)), KeyValue(l, Str(w))]
    ensures Leaving(AsWritten, Step(env, cacheSize, false, Start([rule]), Arrive(m, map[], rd)).1, l) == {v, w}
  {
    FirstWritten(env, cacheSize, rule, l, m, rd);
    var attrs := m.points[0].attrs;
    assert attrs[0] in attrs && attrs[1] in attrs;
  }

  /** A limit of zero on the rule label does not keep it from being emitted: the enforcer adds
      it after the check. */
  lemma InjectedLabelEscapes(env: Env, cacheSize: int, rule: Rule, m: Metric, rd: Reading)
    requires LimitsOnly(rule, RULE_LABEL, 0) && rule.name != "" && m.points != []
    ensures rule.name in Leaving(AsWritten, Step(env, cacheSize, false, Start([rule]), Arrive(m, map[], rd)).1,
            RULE_LABEL)
  {
    FirstArrival(env, cacheSize, rule, RULE_LABEL, 0, m, rd);
    var scan := LabelCheck(START.win, rule, m, map[], rd.visits);
    var out := Step(env, cacheSize, false, Start([rule]), Arrive(m, map[], rd)).1.value;
    WrittenOfInject(Stripped(m, scan.strip).points[0].attrs, "passed", rule.name, RULE_LABEL);
    assert rule.name in PointValues(AsWritten, out.points[0].attrs, RULE_LABEL);
  }
}
