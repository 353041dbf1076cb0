/** What the limits enforcer does to its state and to one metric, as functions
    (internal/limits/enforcer.go). Clock readings and the iteration orders the Go runtime
    chooses are passed in; series keys and hashes are arbitrary functions. */
module LimitsSpec {
  import opened Collections
  import opened MetricModel
  import opened Trackers
  import opened Rules

  const MINUTE := 60_000_000_000
  const MAX_GROUPS := 100000

  datatype GroupStats = GroupStats(datapoints: nat, tracker: Tracker, windowEnd: int)

  datatype RuleStats = RuleStats(groups: map<string, GroupStats>, totalDPs: nat, totalCard: nat, windowEnd: int)

  /** marks: rule -> group -> expiry of the drop mark; values: rule -> label -> values seen. */
  datatype Window = Window(
    stats: map<string, RuleStats>,
    marks: map<string, map<string, int>>,
    values: map<string, map<string, set<string>>>)

  datatype Tally = Tally(
    passed: map<string, nat>,
    dropped: map<string, nat>,
    rateExceeded: map<string, nat>,
    cardExceeded: map<string, nat>,
    groupsMarked: map<string, nat>)

  datatype State = State(win: Window, tally: Tally)

  const START := State(Window(map[], map[], map[]), Tally(map[], map[], map[], map[], map[]))

  datatype Reason = Cardinality | DatapointsRate

  datatype Env = Env(seriesKey: map<string, string> -> string, hash: string -> nat, empty: Tracker)

  /** What one metric's processing observes of the runtime: the two clock readings, the
      order in which the label-limit map is walked for each datapoint, and the order in
      which the unstable sort leaves the groups. */
  datatype Reading = Reading(dropCheck: int, window: int, visits: seq<seq<string>>, offenders: seq<string>)

  // ---------- counters ----------

  function Get(c: map<string, nat>, name: string): nat {
    if name in c then c[name] else 0
  }

  function Bump(c: map<string, nat>, name: string, n: nat): map<string, nat> {
    c[name := Get(c, name) + n]
  }

  function Pass(s: State, name: string, n: nat): State {
    s.(tally := s.tally.(passed := Bump(s.tally.passed, name, n)))
  }

  function Lose(s: State, name: string, n: nat): State {
    s.(tally := s.tally.(dropped := Bump(s.tally.dropped, name, n)))
  }

  function Violate(s: State, name: string, reason: Reason): State {
    s.(tally := s.tally.(
         rateExceeded := Bump(s.tally.rateExceeded, name, if reason.DatapointsRate? then 1 else 0),
         cardExceeded := Bump(s.tally.cardExceeded, name, if reason.Cardinality? then 1 else 0)))
  }

  // ---------- group keys and priorities ----------

  function Parts(groupBy: seq<string>, attrs: map<string, string>): seq<string> {
    if groupBy == [] then []
    else
      var l := groupBy[|groupBy| - 1];
      Parts(groupBy[..|groupBy| - 1], attrs) + (if l in attrs then [l + "=" + attrs[l]] else [])
  }

  function Join(parts: seq<string>): string {
    if parts == [] then "" else if |parts| == 1 then parts[0] else parts[0] + "," + Join(parts[1..])
  }

  function Split(s: string): seq<string> {
    if s == "" then [""]
    else
      var rest := Split(s[1..]);
      if s[0] == ',' then [""] + rest
      else if rest == [] then [[s[0]]] else [[s[0]] + rest[0]] + rest[1..]
  }

  function GroupKey(rule: Rule, res: map<string, string>, m: Metric): string {
    if |rule.groupBy| > 0 then
      Join(Parts(rule.groupBy, if m.points == [] then res else res + Extract(m.points[0].attrs)))
    else m.name
  }

  /** Rank of a label value: the first in the configured order ranks highest. */
  function Rank(order: seq<string>, value: string): Option<int> {
    if order == [] then None
    else
      var later := Rank(order[1..], value);
      if later.Some? then later else if order[0] == value then Some(|order|) else None
  }

  function PartPriority(parts: seq<string>, p: Priority): int {
    if parts == [] then p.fallback
    else if p.key + "=" <= parts[0] then
      var rank := Rank(p.order, parts[0][|p.key| + 1..]);
      if rank.Some? then rank.value else p.fallback
    else PartPriority(parts[1..], p)
  }

  function GroupPriority(rule: Rule, group: string): int {
    if rule.priority.None? then 0 else PartPriority(Split(group), rule.priority.value)
  }

  // ---------- windows, rate and cardinality ----------

  function Live(groups: map<string, int>, now: int): map<string, int> {
    map g | g in groups && now <= groups[g] :: groups[g]
  }

  /** cleanupExpiredDroppedGroups */
  function LiveMarks(marks: map<string, map<string, int>>, now: int): map<string, map<string, int>> {
    map r | r in marks && Live(marks[r], now) != map[] :: Live(marks[r], now)
  }

  /** Open the rule's first window, or a new one if the current one is over. */
  function Windowed(w: Window, name: string, now: int): (r: Window)
    ensures name in r.stats
  {
    var blank := RuleStats(map[], 0, 0, now + MINUTE);
    if name !in w.stats then w.(stats := w.stats[name := blank])
    else if now > w.stats[name].windowEnd then
      Window(w.stats[name := blank], LiveMarks(w.marks - {name}, now), w.values - {name})
    else w
  }

  function SeriesKeys(env: Env, m: Metric, res: map<string, string>): seq<string> {
    seq(|m.points|, i requires 0 <= i < |m.points| => env.seriesKey(res + Extract(m.points[i].attrs)))
  }

  predicate OverLimit(limit: int, total: nat) {
    limit > 0 && total > limit
  }

  datatype Checked = Checked(win: Window, exceeded: Option<Reason>)

  function GroupOf(env: Env, rs: RuleStats, group: string): GroupStats {
    if group in rs.groups then rs.groups[group] else GroupStats(0, env.empty, rs.windowEnd)
  }

  function Admit(rs: RuleStats, group: string, gs: GroupStats, keys: seq<string>, n: nat): RuleStats {
    gs.tracker.GrowthWithinUnseen(keys);
    var grown := gs.tracker.WithAll(keys);
    RuleStats(rs.groups[group := GroupStats(gs.datapoints + n, grown, gs.windowEnd)],
              rs.totalDPs + n, rs.totalCard + (grown.Count() - gs.tracker.Count()), rs.windowEnd)
  }

  /** The check inside an open window. */
  function CheckOpen(env: Env, w: Window, rule: Rule, group: string, m: Metric, res: map<string, string>): Checked
    requires rule.name in w.stats
  {
    var rs := w.stats[rule.name];
    if group !in rs.groups && |rs.groups| >= MAX_GROUPS then Checked(w, None)
    else
      var gs := GroupOf(env, rs, group);
      var keys := SeriesKeys(env, m, res);
      var overCard := OverLimit(rule.maxCardinality, rs.totalCard + gs.tracker.Unseen(keys));
      var overRate := OverLimit(rule.maxDatapoints, rs.totalDPs + |m.points|);
      if overCard || overRate then
        Checked(WithStats(w, rule.name, rs.(groups := rs.groups[group := gs])),
                Some(if overCard then Cardinality else DatapointsRate))
      else Checked(WithStats(w, rule.name, Admit(rs, group, gs, keys, |m.points|)), None)
  }

  function UpdateAndCheck(env: Env, w: Window, rule: Rule, group: string, m: Metric, res: map<string, string>,
                          now: int): Checked {
    CheckOpen(env, Windowed(w, rule.name, now), rule, group, m, res)
  }

  function WithStats(w: Window, name: string, rs: RuleStats): Window {
    w.(stats := w.stats[name := rs])
  }

  // ---------- adaptive marking ----------

  function Contribution(rs: RuleStats, reason: Reason, group: string): nat {
    if group !in rs.groups then 0
    else if reason.Cardinality? then rs.groups[group].tracker.Count()
    else rs.groups[group].datapoints
  }

  function Contributions(rs: RuleStats, reason: Reason, order: seq<string>): seq<nat> {
    seq(|order|, i requires 0 <= i < |order| => Contribution(rs, reason, order[i]))
  }

  function Excess(rs: RuleStats, rule: Rule, reason: Reason): int {
    if reason.Cardinality? && rule.maxCardinality > 0 then rs.totalCard - rule.maxCardinality
    else if rule.maxDatapoints > 0 then rs.totalDPs - rule.maxDatapoints
    else 0
  }

  /** How many leading contributions are needed to reach the excess (all, if too few). */
  function Needed(contribs: seq<nat>, excess: int): nat {
    if contribs == [] || excess <= 0 then 0 else 1 + Needed(contribs[1..], excess - contribs[0])
  }

  function MarkCount(rs: RuleStats, rule: Rule, reason: Reason, order: seq<string>): nat {
    Min(Needed(Contributions(rs, reason, order), Excess(rs, rule, reason)), |order|)
  }

  function Marked(rs: RuleStats, rule: Rule, reason: Reason, order: seq<string>): set<string> {
    set g | g in order[..MarkCount(rs, rule, reason, order)]
  }

  function RuleMarks(w: Window, name: string): map<string, int> {
    if name in w.marks then w.marks[name] else map[]
  }

  function WithMarks(w: Window, name: string, groups: set<string>, expiry: int): Window {
    w.(marks := w.marks[name := RuleMarks(w, name) + map g | g in groups :: expiry])
  }

  function AdaptiveDrop(dryRun: bool, s: State, rule: Rule, group: string, m: Metric, reason: Reason,
                        order: seq<string>): (State, Option<Metric>) {
    if rule.name !in s.win.stats then (s, Some(m))
    else
      var rs := s.win.stats[rule.name];
      if Excess(rs, rule, reason) <= 0 then (s, Some(Inject(m, "adaptive", rule.name)))
      else
        var win := WithMarks(s.win, rule.name, Marked(rs, rule, reason, order), rs.windowEnd);
        var s1 := State(win, s.tally.(groupsMarked :=
                          Bump(s.tally.groupsMarked, rule.name, MarkCount(rs, rule, reason, order))));
        if group in RuleMarks(win, rule.name) then
          (Lose(s1, rule.name, |m.points|), if dryRun then Some(Inject(m, "adaptive", rule.name)) else None)
        else
          (Pass(s1, rule.name, |m.points|), Some(Inject(m, "adaptive", rule.name)))
  }

  // ---------- violations ----------

  function Utilization(w: Window, rule: Rule, reason: Reason): int {
    if rule.name !in w.stats then 100
    else if reason.Cardinality? then
      if rule.maxCardinality <= 0 then 100 else w.stats[rule.name].totalCard * 100 / rule.maxCardinality
    else
      if rule.maxDatapoints <= 0 then 100 else w.stats[rule.name].totalDPs * 100 / rule.maxDatapoints
  }

  /** The last tier whose threshold the utilization reaches. */
  function PickTier(tiers: seq<Tier>, utilization: int): Option<Tier> {
    if tiers == [] then None
    else if utilization >= tiers[|tiers| - 1].atPercent then Some(tiers[|tiers| - 1])
    else PickTier(tiers[..|tiers| - 1], utilization)
  }

  /** The rule with the tier's action, and its parameters where the tier sets them. */
  function Effective(w: Window, rule: Rule, reason: Reason): Rule {
    var tier := PickTier(rule.tiers, Utilization(w, rule, reason));
    if tier.None? then rule
    else
      rule.(action := tier.value.action,
            sampleRate := if tier.value.sampleRate > 0.0 then tier.value.sampleRate else rule.sampleRate,
            stripLabels := if |tier.value.stripLabels| > 0 then tier.value.stripLabels else rule.stripLabels)
  }

  predicate ShouldSample(env: Env, key: string, rate: real) {
    rate >= 1.0 || (rate > 0.0 && env.hash(key) % 10000 < (rate * 10000.0).Floor)
  }

  function SampleAction(env: Env, dryRun: bool, s: State, rule: Rule, m: Metric, res: map<string, string>): (State,
                        Option<Metric>) {
    if m.points != [] && ShouldSample(env, SeriesKeys(env, m, res)[0], rule.sampleRate) then
      (Pass(s, rule.name, |m.points|), Some(Inject(m, "sampled_keep", rule.name)))
    else
      (Lose(s, rule.name, |m.points|), if dryRun then Some(Inject(m, "sampled_drop", rule.name)) else None)
  }

  /** Carry out the action of eff, which is the rule with a tier applied. */
  function Act(env: Env, dryRun: bool, s: State, rule: Rule, eff: Rule, group: string, m: Metric,
               res: map<string, string>, reason: Reason, order: seq<string>): (State, Option<Metric>) {
    match eff.action
    case Log => (Pass(s, rule.name, |m.points|), Some(Inject(m, "log", rule.name)))
    case Drop => (Lose(s, rule.name, |m.points|), if dryRun then Some(Inject(m, "drop", rule.name)) else None)
    case Adaptive => AdaptiveDrop(dryRun, s, rule, group, m, reason, order)
    case Sample => SampleAction(env, dryRun, s, eff, m, res)
    case StripLabels =>
      (Pass(s, rule.name, |m.points|), Some(Inject(Strip(m, set l | l in eff.stripLabels), "stripped", rule.name)))
    case Unrecognised => (s, Some(m))
  }

  function Violation(env: Env, dryRun: bool, s: State, rule: Rule, group: string, m: Metric, res: map<string, string>,
                     reason: Reason, order: seq<string>): (State, Option<Metric>) {
    Act(env, dryRun, Violate(s, rule.name, reason), rule, Effective(s.win, rule, reason), group, m, res, reason, order)
  }

  // ---------- per-label limits ----------

  /** Progress of one label scan: value sets, labels to strip, and whether the metric is refused. */
  datatype LabelScan = LabelScan(trackers: map<string, set<string>>, strip: set<string>, refused: bool)

  function ValuesOf(trackers: map<string, set<string>>, l: string): set<string> {
    if l in trackers then trackers[l] else {}
  }

  function ScanLabel(rule: Rule, acc: LabelScan, merged: map<string, string>, l: string): LabelScan {
    if acc.refused || l !in rule.labelLimits || l !in merged then acc
    else if rule.labelLimits[l] == 0 then acc.(strip := acc.strip + {l})
    else
      var seen := ValuesOf(acc.trackers, l);
      if merged[l] in seen then acc
      else if |seen| >= rule.labelLimits[l] then
        LabelScan(acc.trackers[l := seen],
                  if rule.labelLimitDrops then acc.strip else acc.strip + {l},
                  rule.labelLimitDrops)
      else acc.(trackers := acc.trackers[l := seen + {merged[l]}])
  }

  function ScanLabels(rule: Rule, acc: LabelScan, merged: map<string, string>, visit: seq<string>): LabelScan {
    if visit == [] then acc
    else ScanLabel(rule, ScanLabels(rule, acc, merged, visit[..|visit| - 1]), merged, visit[|visit| - 1])
  }

  function VisitOf(visits: seq<seq<string>>, i: nat): seq<string> {
    if i < |visits| then visits[i] else []
  }

  /** The first n datapoints. */
  function ScanPoints(rule: Rule, acc: LabelScan, m: Metric, res: map<string, string>, visits: seq<seq<string>>,
                      n: nat): LabelScan
    requires n <= |m.points|
  {
    if n == 0 then acc
    else ScanLabels(rule, ScanPoints(rule, acc, m, res, visits, n - 1),
                    res + Extract(m.points[n - 1].attrs), VisitOf(visits, n - 1))
  }

  function RuleValues(w: Window, name: string): map<string, set<string>> {
    if name in w.values then w.values[name] else map[]
  }

  function LabelCheck(w: Window, rule: Rule, m: Metric, res: map<string, string>, visits: seq<seq<string>>): LabelScan {
    ScanPoints(rule, LabelScan(RuleValues(w, rule.name), {}, false), m, res, visits, |m.points|)
  }

  function Stripped(m: Metric, labels: set<string>): Metric {
    if labels == {} then m else Strip(m, labels)
  }

  // ---------- one metric ----------

  predicate IsMarked(w: Window, name: string, group: string, now: int) {
    group in RuleMarks(w, name) && now < RuleMarks(w, name)[group]
  }

  function Limited(env: Env, dryRun: bool, s: State, rule: Rule, group: string, m: Metric, res: map<string, string>,
                   rd: Reading): (State, Option<Metric>) {
    var c := UpdateAndCheck(env, s.win, rule, group, m, res, rd.window);
    if c.exceeded.None? then
      (Pass(s.(win := c.win), rule.name, |m.points|), Some(Inject(m, "passed", rule.name)))
    else Violation(env, dryRun, s.(win := c.win), rule, group, m, res, c.exceeded.value, rd.offenders)
  }

  /** The window state and the metric once the label trackers have been consulted. */
  function AfterLabelCheck(w: Window, rule: Rule, m: Metric, res: map<string, string>, rd: Reading): Window {
    if |rule.labelLimits| == 0 then w
    else w.(values := w.values[rule.name := LabelCheck(w, rule, m, res, rd.visits).trackers])
  }

  function LabelStripped(w: Window, rule: Rule, m: Metric, res: map<string, string>, rd: Reading): Metric {
    if |rule.labelLimits| == 0 then m else Stripped(m, LabelCheck(w, rule, m, res, rd.visits).strip)
  }

  predicate LabelRefused(w: Window, rule: Rule, m: Metric, res: map<string, string>, rd: Reading) {
    |rule.labelLimits| > 0 && LabelCheck(w, rule, m, res, rd.visits).refused
  }

  /** The check that a metric gets once the label trackers have been consulted. */
  function CheckOf(env: Env, w: Window, rule: Rule, m: Metric, res: map<string, string>, rd: Reading): Checked {
    UpdateAndCheck(env, AfterLabelCheck(w, rule, m, res, rd), rule, GroupKey(rule, res, m),
                   LabelStripped(w, rule, m, res, rd), res, rd.window)
  }

  /** processMetric once a rule has been found. */
  function Matched(env: Env, dryRun: bool, s: State, rule: Rule, m: Metric, res: map<string, string>,
                   rd: Reading): (State, Option<Metric>) {
    var group := GroupKey(rule, res, m);
    if IsMarked(s.win, rule.name, group, rd.dropCheck) then
      (Lose(s, rule.name, |m.points|), if dryRun then Some(Inject(m, "drop", rule.name)) else None)
    else
      var s1 := s.(win := AfterLabelCheck(s.win, rule, m, res, rd));
      if LabelRefused(s.win, rule, m, res, rd) then
        (Lose(s1, rule.name, |m.points|), if dryRun then Some(Inject(m, "label_limit_drop", rule.name)) else None)
      else Limited(env, dryRun, s1, rule, group, LabelStripped(s.win, rule, m, res, rd), res, rd)
  }

  const NO_RULE := "no_rule"

  function Processed(env: Env, dryRun: bool, s: State, rule: Option<Rule>, m: Metric, res: map<string, string>,
                     rd: Reading): (State, Option<Metric>) {
    if rule.None? then (Pass(s, NO_RULE, |m.points|), Some(m))
    else Matched(env, dryRun, s, rule.value, m, res, rd)
  }

  // ---------- reload ----------

  function RuleNames(rules: seq<Rule>): set<string> {
    set i | 0 <= i < |rules| :: rules[i].name
  }

  /** ReloadConfig: forget the statistics of rules that no longer exist. */
  function Reloaded(w: Window, rules: seq<Rule>): Window {
    var names := RuleNames(rules);
    Window(map n | n in w.stats && n in names :: w.stats[n],
           map n | n in w.marks && n in names :: w.marks[n],
           map n | n in w.values && n in names :: w.values[n])
  }
}
