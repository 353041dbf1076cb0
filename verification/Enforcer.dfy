/** The limits enforcer object (internal/limits/enforcer.go): the source's loops and
    in-place updates, proved against the functions of LimitsSpec. */
module Enforcer {
  import opened Collections
  import opened MetricModel
  import opened Trackers
  import opened Rules
  import opened LimitsSpec
  import opened LimitsRuns
  import RuleCache
  import RuleLookup
  import AdaptiveMarks

  // ---------- helpers that build values in loops ----------

  method BuildGroupKey(rule: Rule, res: map<string, string>, m: Metric) returns (key: string)
    ensures key == GroupKey(rule, res, m)
  {
    if |rule.groupBy| > 0 {
      var parts: seq<string> := [];
      var attrs := res;
      if |m.points| > 0 {
        var first := ExtractAttributes(m.points[0].attrs);
        attrs := res + first;
      }
      for i := 0 to |rule.groupBy|
        invariant parts == Parts(rule.groupBy[..i], attrs)
      {
        assert rule.groupBy[..i + 1][..i] == rule.groupBy[..i];
        var l := rule.groupBy[i];
        if l in attrs {
          parts := parts + [l + "=" + attrs[l]];
        }
      }
      assert rule.groupBy[..|rule.groupBy|] == rule.groupBy;
      return Join(parts);
    }
    return m.name;
  }

  /** Remove the labels from every datapoint, compacting each attribute slice in place. */
  method StripDatapoints(m: Metric, labels: set<string>) returns (r: Metric)
    ensures r == Strip(m, labels)
  {
    var points: seq<Datapoint> := [];
    for i := 0 to |m.points|
      invariant |points| == i
      invariant forall k :: 0 <= k < i ==>
                  points[k] == Datapoint(StripAttrs(m.points[k].attrs, labels), m.points[k].payload)
    {
      var attrs := m.points[i].attrs;
      var a := new KeyValue[|attrs|](k requires 0 <= k < |attrs| => attrs[k]);
      assert a[..] == attrs;
      var n := CompactAttributes(a, labels);
      points := points + [Datapoint(a[..n], m.points[i].payload)];
    }
    assert points == StripPoints(m.points, labels);
    return Metric(m.name, points);
  }

  /** Create a missing counter, then add to it. */
  method Increment(counters: map<string, nat>, name: string, n: nat) returns (r: map<string, nat>)
    ensures r == Bump(counters, name, n)
  {
    r := counters;
    if name !in r {
      r := r[name := 0];
    }
    r := r[name := r[name] + n];
  }

  method CollectNames(rules: seq<Rule>) returns (names: set<string>)
    ensures names == RuleNames(rules)
  {
    names := {};
    for i := 0 to |rules|
      invariant names == RuleNames(rules[..i])
    {
      names := names + {rules[i].name};
      assert rules[..i + 1] == rules[..i] + [rules[i]];
    }
    assert rules[..|rules|] == rules;
  }

  /** Delete the keys that are not in the given set. */
  method RetainKeys<V>(m: map<string, V>, names: set<string>) returns (r: map<string, V>)
    ensures r == map n | n in m && n in names :: m[n]
  {
    r := m;
    var todo := m.Keys;
    while todo != {}
      invariant todo <= m.Keys
      invariant r == map n | n in m && (n in todo || n in names) :: m[n]
      decreases |todo|
    {
      var k :| k in todo;
      todo := todo - {k};
      if k !in names {
        r := r - {k};
      }
    }
  }

  method ExpireGroups(groups: map<string, int>, now: int) returns (r: map<string, int>)
    ensures r == Live(groups, now)
  {
    r := groups;
    var todo := groups.Keys;
    while todo != {}
      invariant todo <= groups.Keys
      invariant r == map g | g in groups && (g in todo || now <= groups[g]) :: groups[g]
      decreases |todo|
    {
      var g :| g in todo;
      todo := todo - {g};
      if now > groups[g] {
        r := r - {g};
      }
    }
  }

  method CleanupExpired(marks: map<string, map<string, int>>, now: int) returns (r: map<string, map<string, int>>)
    ensures r == LiveMarks(marks, now)
  {
    r := map[];
    var todo := marks.Keys;
    while todo != {}
      invariant todo <= marks.Keys
      invariant r == map n | n in marks && n !in todo && Live(marks[n], now) != map[] :: Live(marks[n], now)
      decreases |todo|
    {
      var n :| n in todo;
      todo := todo - {n};
      var live := ExpireGroups(marks[n], now);
      if live != map[] {
        r := r[n := live];
      }
    }
  }

  /** A cached answer holds for these labels: "no rule", or a rule whose labels match. */
  method Usable(cached: Option<Rule>, labels: map<string, string>) returns (ok: bool)
    ensures ok == (cached.None? || cached.value.MatchesLabels(labels))
  {
    if cached.None? {
      return true;
    }
    ok := CheckLabels(cached.value, labels);
    LabelsMatchIff(cached.value, labels);
  }

  /** The full scan of the rules. */
  method ScanRules(rules: seq<Rule>, metric: string, labels: map<string, string>) returns (rule: Option<Rule>)
    ensures rule == FirstMatch(rules, metric, labels)
  {
    assert rules[0..] == rules;
    for i := 0 to |rules|
      invariant FirstMatch(rules, metric, labels) == FirstMatch(rules[i..], metric, labels)
    {
      var r := rules[i];
      assert rules[i..][1..] == rules[i + 1..];
      if r.MatchesMetric(metric) {
        var ok := CheckLabels(r, labels);
        LabelsMatchIff(r, labels);
        if ok {
          return Some(r);
        }
      }
    }
    return None;
  }

  // ---------- scans that stop early ----------

  lemma {:induction false} RefusedLabelsStick(rule: Rule, acc: LabelScan, merged: map<string, string>,
                                              visit: seq<string>)
    requires acc.refused
    ensures ScanLabels(rule, acc, merged, visit) == acc
  {
    if visit != [] {
      RefusedLabelsStick(rule, acc, merged, visit[..|visit| - 1]);
    }
  }

  lemma {:induction false} RefusedVisitSticks(rule: Rule, acc: LabelScan, merged: map<string, string>,
                                              visit: seq<string>, j: nat)
    requires j <= |visit| && ScanLabels(rule, acc, merged, visit[..j]).refused
    ensures ScanLabels(rule, acc, merged, visit) == ScanLabels(rule, acc, merged, visit[..j])
  {
    if j == |visit| {
      assert visit[..j] == visit;
    } else {
      var n := |visit| - 1;
      assert visit[..n][..j] == visit[..j];
      RefusedVisitSticks(rule, acc, merged, visit[..n], j);
    }
  }

  lemma {:induction false} RefusedPointsStick(rule: Rule, acc: LabelScan, m: Metric, res: map<string, string>,
                                              visits: seq<seq<string>>, i: nat, n: nat)
    requires i <= n <= |m.points| && ScanPoints(rule, acc, m, res, visits, i).refused
    ensures ScanPoints(rule, acc, m, res, visits, n) == ScanPoints(rule, acc, m, res, visits, i)
  {
    if i < n {
      RefusedPointsStick(rule, acc, m, res, visits, i, n - 1);
      RefusedLabelsStick(rule, ScanPoints(rule, acc, m, res, visits, i), res + Extract(m.points[n - 1].attrs),
                         VisitOf(visits, n - 1));
    }
  }

  /** One datapoint's walk over the label limits, as the source's inner loop. */
  method ScanDatapoint(rule: Rule, start: LabelScan, merged: map<string, string>, visit: seq<string>)
    returns (acc: LabelScan)
    requires !start.refused
    ensures acc == ScanLabels(rule, start, merged, visit)
  {
    var trackers, strip := start.trackers, start.strip;
    for j := 0 to |visit|
      invariant LabelScan(trackers, strip, false) == ScanLabels(rule, start, merged, visit[..j])
    {
      assert visit[..j + 1][..j] == visit[..j];
      var l := visit[j];
      if l in rule.labelLimits && l in merged {
        var limit := rule.labelLimits[l];
        if limit == 0 {
          strip := strip + {l};
        } else {
          if l !in trackers {
            trackers := trackers[l := {}];
          }
          if merged[l] !in trackers[l] {
            if |trackers[l]| >= limit {
              if rule.labelLimitDrops {
                RefusedVisitSticks(rule, start, merged, visit, j + 1);
                return LabelScan(trackers, strip, true);
              }
              strip := strip + {l};
            } else {
              trackers := trackers[l := trackers[l] + {merged[l]}];
            }
          }
        }
      }
    }
    assert visit[..|visit|] == visit;
    return LabelScan(trackers, strip, false);
  }

  /** All datapoints, stopping at the first refusal, as the source's outer loop. */
  method ScanMetric(rule: Rule, start: LabelScan, m: Metric, res: map<string, string>, visits: seq<seq<string>>)
    returns (acc: LabelScan)
    requires !start.refused
    ensures acc == ScanPoints(rule, start, m, res, visits, |m.points|)
  {
    acc := start;
    for i := 0 to |m.points|
      invariant acc == ScanPoints(rule, start, m, res, visits, i) && !acc.refused
    {
      var attrs := ExtractAttributes(m.points[i].attrs);
      acc := ScanDatapoint(rule, acc, res + attrs, VisitOf(visits, i));
      if acc.refused {
        RefusedPointsStick(rule, start, m, res, visits, i + 1, |m.points|);
        return;
      }
    }
  }

  // ---------- marking ----------

  function Stamped(had: map<string, int>, groups: seq<string>, expiry: int): map<string, int> {
    if groups == [] then had else Stamped(had, groups[..|groups| - 1], expiry)[groups[|groups| - 1] := expiry]
  }

  lemma {:induction false} StampedIsUnion(had: map<string, int>, groups: seq<string>, expiry: int)
    ensures Stamped(had, groups, expiry) == had + map g | g in Elements(groups) :: expiry
  {
    if groups == [] {
      assert Elements(groups) == {};
    } else {
      var n := |groups| - 1;
      StampedIsUnion(had, groups[..n], expiry);
      assert groups == groups[..n] + [groups[n]];
      assert Elements(groups) == Elements(groups[..n]) + {groups[n]};
    }
  }

  /** Mark groups in drop order until their contributions reach the excess. */
  method MarkOffenders(rs: RuleStats, reason: Reason, ranked: seq<string>, excess: int, had: map<string, int>)
    returns (mine: map<string, int>, count: nat)
    ensures count == Min(Needed(Contributions(rs, reason, ranked), excess), |ranked|)
    ensures mine == Stamped(had, ranked[..count], rs.windowEnd)
  {
    ghost var c := Contributions(rs, reason, ranked);
    mine := had;
    var reduced := 0;
    count := 0;
    assert c[0..] == c;
    while count < |ranked| && reduced < excess
      invariant 0 <= count <= |ranked|
      invariant Needed(c, excess) == count + Needed(c[count..], excess - reduced)
      invariant mine == Stamped(had, ranked[..count], rs.windowEnd)
    {
      var g := ranked[count];
      assert c[count..][1..] == c[count + 1..];
      assert ranked[..count + 1][..count] == ranked[..count];
      mine := mine[g := rs.windowEnd];
      reduced := reduced + Contribution(rs, reason, g);
      count := count + 1;
    }
  }

  // ---------- the object ----------

  class LimitsEnforcer {
    var rules: seq<Rule>
    var dryRun: bool
    var cache: RuleCache.Cache?
    var stats: map<string, RuleStats>
    var marks: map<string, map<string, int>>
    var values: map<string, map<string, set<string>>>
    var passed: map<string, nat>
    var dropped: map<string, nat>
    var rateExceeded: map<string, nat>
    var cardExceeded: map<string, nat>
    var groupsMarked: map<string, nat>
    var reloads: nat
    const cacheSize: int
    const env: Env

    function Win(): Window reads this { Window(stats, marks, values) }

    function Counters(): Tally reads this { Tally(passed, dropped, rateExceeded, cardExceeded, groupsMarked) }

    function Core(): State reads this { State(Win(), Counters()) }

    ghost function CacheState(): RuleCache.Lru reads this, cache {
      if cache == null then RuleCache.EMPTY else cache.State()
    }

    /** The abstract state the run theorems speak about. */
    ghost function Abs(): World reads this, cache { World(RuleLookup.Index(rules, CacheState()), Core()) }

    ghost predicate Valid() reads this, cache {
      && (cache == null <==> cacheSize <= 0)
      && (cache != null ==> cache.Valid() && cache.maxSize == cacheSize)
    }

    constructor (rules: seq<Rule>, dryRun: bool, cacheSize: int, env: Env)
      ensures Valid() && Abs() == Start(rules) && this.dryRun == dryRun && this.env == env &&
              this.cacheSize == cacheSize
      ensures cache != null ==> fresh(cache)
    {
      this.rules, this.dryRun, this.cacheSize, this.env := rules, dryRun, cacheSize, env;
      stats, marks, values := map[], map[], map[];
      passed, dropped, rateExceeded, cardExceeded, groupsMarked := map[], map[], map[], map[], map[];
      reloads := 0;
      if cacheSize <= 0 {
        cache := null;
      } else {
        cache := new RuleCache.Cache(cacheSize);
      }
    }

    method RecordPass(name: string, n: nat)
      modifies this`passed
      ensures Core() == Pass(old(Core()), name, n)
    {
      passed := Increment(passed, name, n);
    }

    method RecordDrop(name: string, n: nat)
      modifies this`dropped
      ensures Core() == Lose(old(Core()), name, n)
    {
      dropped := Increment(dropped, name, n);
    }

    method RecordViolation(name: string, reason: Reason)
      modifies this`rateExceeded, this`cardExceeded
      ensures Core() == Violate(old(Core()), name, reason)
    {
      rateExceeded := Increment(rateExceeded, name, if reason.DatapointsRate? then 1 else 0);
      cardExceeded := Increment(cardExceeded, name, if reason.Cardinality? then 1 else 0);
    }

    method FindMatchingRule(metric: string, labels: map<string, string>) returns (rule: Option<Rule>)
      requires Valid()
      modifies cache
      ensures Valid()
      ensures rule == RuleLookup.Answer(old(Abs()).index, cacheSize, metric, labels)
      ensures Abs().index == RuleLookup.Next(old(Abs()).index, cacheSize, RuleLookup.Lookup(metric, labels))
    {
      if cache != null {
        var cached, ok := cache.Get(metric);
        if ok {
          var usable := Usable(cached, labels);
          if usable {
            return cached;
          }
        }
      }
      rule := ScanRules(rules, metric, labels);
      if rule.Some? {
        if !rule.value.HasLabelMatchers() && cache != null {
          cache.Put(metric, rule);
        }
        return;
      }
      if !HasAnyLabelMatchers(rules) && cache != null {
        cache.Put(metric, None);
      }
    }

    method UpdateAndCheckLimits(rule: Rule, group: string, m: Metric, res: map<string, string>, now: int)
      returns (exceeded: Option<Reason>)
      modifies this`stats, this`marks, this`values
      ensures Checked(Win(), exceeded) == UpdateAndCheck(env, old(Win()), rule, group, m, res, now)
    {
      OpenWindow(rule.name, now);
      exceeded := CheckInWindow(rule, group, m, res);
    }

    method OpenWindow(name: string, now: int)
      modifies this`stats, this`marks, this`values
      ensures Win() == Windowed(old(Win()), name, now)
    {
      if name !in stats {
        stats := stats[name := RuleStats(map[], 0, 0, now + MINUTE)];
      }
      if now > stats[name].windowEnd {
        stats := stats[name := RuleStats(map[], 0, 0, now + MINUTE)];
        marks := marks - {name};
        values := values - {name};
        marks := CleanupExpired(marks, now);
      }
    }

    method CheckInWindow(rule: Rule, group: string, m: Metric, res: map<string, string>)
      returns (exceeded: Option<Reason>)
      requires rule.name in stats
      modifies this`stats
      ensures Checked(Win(), exceeded) == CheckOpen(env, old(Win()), rule, group, m, res)
    {
      var rs := stats[rule.name];
      if group !in rs.groups && |rs.groups| >= MAX_GROUPS {
        return None;
      }
      var gs := if group in rs.groups then rs.groups[group] else GroupStats(0, env.empty, rs.windowEnd);
      var newSeries := CountNewSeries(gs.tracker, m, res);
      var overRate := rule.maxDatapoints > 0 && rs.totalDPs + |m.points| > rule.maxDatapoints;
      var overCard := rule.maxCardinality > 0 && rs.totalCard + newSeries > rule.maxCardinality;
      if !overRate && !overCard {
        var grown := AdmitMetric(rs, group, gs, m, res);
        stats := stats[rule.name := grown];
        return None;
      }
      stats := stats[rule.name := rs.(groups := rs.groups[group := gs])];
      return if overCard then Some(Cardinality) else Some(DatapointsRate);
    }

    method AdmitMetric(rs: RuleStats, group: string, gs: GroupStats, m: Metric, res: map<string, string>)
      returns (r: RuleStats)
      ensures r == Admit(rs, group, gs, SeriesKeys(env, m, res), |m.points|)
    {
      var tracker, added := AddSeries(gs.tracker, m, res);
      var grown := GroupStats(gs.datapoints + |m.points|, tracker, gs.windowEnd);
      r := RuleStats(rs.groups[group := grown], rs.totalDPs + |m.points|, rs.totalCard + added, rs.windowEnd);
    }

    /** Datapoints whose series tests as unseen. */
    method CountNewSeries(t: Tracker, m: Metric, res: map<string, string>) returns (n: nat)
      ensures n == t.Unseen(SeriesKeys(env, m, res))
    {
      ghost var keys := SeriesKeys(env, m, res);
      n := 0;
      for i := 0 to |m.points|
        invariant n == t.Unseen(keys[..i])
      {
        assert keys[..i + 1][..i] == keys[..i];
        var attrs := ExtractAttributes(m.points[i].attrs);
        if !t.Has(env.seriesKey(res + attrs)) {
          n := n + 1;
        }
      }
      assert keys[..|m.points|] == keys;
    }

    /** Add every series; added counts the additions that reported a new one. */
    method AddSeries(t: Tracker, m: Metric, res: map<string, string>) returns (r: Tracker, added: nat)
      ensures r == t.WithAll(SeriesKeys(env, m, res))
      ensures added == r.Count() - t.Count()
    {
      ghost var keys := SeriesKeys(env, m, res);
      r, added := t, 0;
      for i := 0 to |m.points|
        invariant r == t.WithAll(keys[..i])
        invariant added == r.Count() - t.Count()
      {
        assert keys[..i + 1][..i] == keys[..i];
        var attrs := ExtractAttributes(m.points[i].attrs);
        var key := env.seriesKey(res + attrs);
        r.WithGrows(key);
        if !r.Has(key) {
          added := added + 1;
        }
        r := r.With(key);
      }
      assert keys[..|m.points|] == keys;
    }

    method CheckLabelLimits(rule: Rule, m: Metric, res: map<string, string>, visits: seq<seq<string>>)
      returns (out: Option<Metric>)
      modifies this`values
      ensures var scan := LabelCheck(old(Win()), rule, m, res, visits);
              && Win() == old(Win()).(values := old(values)[rule.name := scan.trackers])
              && out == if scan.refused then None else Some(Stripped(m, scan.strip))
    {
      if rule.name !in values {
        values := values[rule.name := map[]];
      }
      var acc := ScanMetric(rule, LabelScan(values[rule.name], {}, false), m, res, visits);
      values := values[rule.name := acc.trackers];
      if acc.refused {
        return None;
      }
      if acc.strip == {} {
        return Some(m);
      }
      var r := StripDatapoints(m, acc.strip);
      return Some(r);
    }

    /** Marks groups in drop order until the excess is covered; order is the one used. */
    method HandleAdaptive(rule: Rule, group: string, m: Metric, reason: Reason)
      returns (out: Option<Metric>, ghost order: seq<string>)
      modifies this`marks, this`groupsMarked, this`passed, this`dropped
      ensures (Core(), out) == AdaptiveDrop(dryRun, old(Core()), rule, group, m, reason, order)
      ensures rule.name in stats ==> AdaptiveMarks.DropOrder(rule, stats[rule.name], reason, order)
    {
      if rule.name !in stats {
        return Some(m), [];
      }
      var rs := stats[rule.name];
      var ranked := AdaptiveMarks.RankOffenders(rule, rs, reason);
      order := ranked;
      var excess := Excess(rs, rule, reason);
      if excess <= 0 {
        return Some(Inject(m, "adaptive", rule.name)), order;
      }
      var mine, count := MarkOffenders(rs, reason, ranked, excess, if rule.name in marks then marks[rule.name]
          else map[]);
      StampedIsUnion(RuleMarks(Win(), rule.name), ranked[..count], rs.windowEnd);
      assert Marked(rs, rule, reason, ranked) == Elements(ranked[..count]);
      marks := marks[rule.name := mine];
      groupsMarked := Bump(groupsMarked, rule.name, count);
      if group in marks[rule.name] {
        RecordDrop(rule.name, |m.points|);
        if dryRun {
          return Some(Inject(m, "adaptive", rule.name)), order;
        }
        return None, order;
      }
      RecordPass(rule.name, |m.points|);
      return Some(Inject(m, "adaptive", rule.name)), order;
    }

    method HandleViolation(rule: Rule, group: string, m: Metric, res: map<string, string>, reason: Reason)
      returns (out: Option<Metric>, ghost order: seq<string>)
      modifies this`marks, this`groupsMarked, this`passed, this`dropped, this`rateExceeded, this`cardExceeded
      ensures (Core(), out) == Violation(env, dryRun, old(Core()), rule, group, m, res, reason, order)
    {
      order := [];
      var eff := ResolveTier(rule, reason);
      RecordViolation(rule.name, reason);
      match eff.action
      case Log =>
        RecordPass(rule.name, |m.points|);
        out := Some(Inject(m, "log", rule.name));
      case Drop =>
        RecordDrop(rule.name, |m.points|);
        out := if dryRun then Some(Inject(m, "drop", rule.name)) else None;
      case Adaptive =>
        out, order := HandleAdaptive(rule, group, m, reason);
      case Sample =>
        out := HandleSample(eff, m, res);
      case StripLabels =>
        var stripped := StripDatapoints(m, set l | l in eff.stripLabels);
        RecordPass(rule.name, |m.points|);
        out := Some(Inject(stripped, "stripped", rule.name));
      case Unrecognised =>
        out := Some(m);
    }

    /** Walk the tiers from the highest down to the first whose threshold is reached. */
    method ResolveTier(rule: Rule, reason: Reason) returns (eff: Rule)
      ensures eff == Effective(Win(), rule, reason)
    {
      var utilization := Utilization(Win(), rule, reason);
      var i := |rule.tiers| - 1;
      assert rule.tiers[..i + 1] == rule.tiers;
      while i >= 0
        invariant -1 <= i < |rule.tiers|
        invariant PickTier(rule.tiers, utilization) == PickTier(rule.tiers[..i + 1], utilization)
      {
        assert rule.tiers[..i + 1][..i] == rule.tiers[..i];
        if utilization >= rule.tiers[i].atPercent {
          var tier := rule.tiers[i];
          return rule.(action := tier.action,
                       sampleRate := if tier.sampleRate > 0.0 then tier.sampleRate else rule.sampleRate,
                       stripLabels := if |tier.stripLabels| > 0 then tier.stripLabels else rule.stripLabels);
        }
        i := i - 1;
      }
      return rule;
    }

    method HandleSample(rule: Rule, m: Metric, res: map<string, string>) returns (out: Option<Metric>)
      modifies this`passed, this`dropped
      ensures (Core(), out) == SampleAction(env, dryRun, old(Core()), rule, m, res)
    {
      if |m.points| > 0 {
        var first := ExtractAttributes(m.points[0].attrs);
        if ShouldSample(env, env.seriesKey(res + first), rule.sampleRate) {
          RecordPass(rule.name, |m.points|);
          return Some(Inject(m, "sampled_keep", rule.name));
        }
      }
      RecordDrop(rule.name, |m.points|);
      if dryRun {
        return Some(Inject(m, "sampled_drop", rule.name));
      }
      return None;
    }

    /** One metric. The sort order is the runtime's choice and comes back as a ghost. */
    method ProcessMetric(m: Metric, res: map<string, string>, reading: Reading)
      returns (out: Option<Metric>, ghost order: seq<string>)
      requires Valid()
      modifies this`stats, this`marks, this`values, this`passed, this`dropped, this`rateExceeded, this`cardExceeded,
          this`groupsMarked, cache
      ensures Valid()
      ensures (Abs(), out) == Step(env, cacheSize, dryRun, old(Abs()), Arrive(m, res, reading.(offenders := order)))
    {
      order := [];
      var rule := FindMatchingRule(m.name, res);
      if rule.None? {
        RecordPass(NO_RULE, |m.points|);
        return Some(m), order;
      }
      out, order := ProcessMatched(rule.value, m, res, reading);
    }

    method ProcessMatched(rule: Rule, m: Metric, res: map<string, string>, reading: Reading)
      returns (out: Option<Metric>, ghost order: seq<string>)
      modifies this`stats, this`marks, this`values, this`passed, this`dropped, this`rateExceeded, this`cardExceeded,
          this`groupsMarked
      ensures (Core(), out) == Matched(env, dryRun, old(Core()), rule, m, res, reading.(offenders := order))
    {
      order := [];
      var group := BuildGroupKey(rule, res, m);
      if rule.name in marks && group in marks[rule.name] && reading.dropCheck < marks[rule.name][group] {
        RecordDrop(rule.name, |m.points|);
        if !dryRun {
          return None, order;
        }
        return Some(Inject(m, "drop", rule.name)), order;
      }
      var metric := m;
      if |rule.labelLimits| > 0 {
        var checked := CheckLabelLimits(rule, m, res, reading.visits);
        if checked.None? {
          RecordDrop(rule.name, |m.points|);
          if dryRun {
            return Some(Inject(m, "label_limit_drop", rule.name)), order;
          }
          return None, order;
        }
        metric := checked.value;
      }
      out, order := EnforceLimits(rule, group, metric, res, reading);
    }

    method EnforceLimits(rule: Rule, group: string, m: Metric, res: map<string, string>, reading: Reading)
      returns (out: Option<Metric>, ghost order: seq<string>)
      modifies this`stats, this`marks, this`values, this`passed, this`dropped, this`rateExceeded, this`cardExceeded,
          this`groupsMarked
      ensures (Core(), out) == Limited(env, dryRun, old(Core()), rule, group, m, res, reading.(offenders := order))
    {
      order := [];
      var exceeded := UpdateAndCheckLimits(rule, group, m, res, reading.window);
      if exceeded.None? {
        RecordPass(rule.name, |m.points|);
        return Some(Inject(m, "passed", rule.name)), order;
      }
      out, order := HandleViolation(rule, group, m, res, exceeded.value);
    }

    method RetainRules(names: set<string>)
      modifies this`stats, this`marks, this`values
      ensures stats == map n | n in old(stats) && n in names :: old(stats)[n]
      ensures marks == map n | n in old(marks) && n in names :: old(marks)[n]
      ensures values == map n | n in old(values) && n in names :: old(values)[n]
    {
      stats := RetainKeys(stats, names);
      marks := RetainKeys(marks, names);
      values := RetainKeys(values, names);
    }

    method ReloadConfig(newRules: seq<Rule>)
      requires Valid()
      modifies this
      ensures Valid() && dryRun == old(dryRun)
      ensures Abs() == Step(env, cacheSize, dryRun, old(Abs()), LimitsRuns.Reload(newRules)).0
      ensures reloads == old(reloads) + 1
      ensures cache != null ==> fresh(cache)
    {
      var names := CollectNames(newRules);
      rules := newRules;
      RetainRules(names);
      if cache != null {
        cache := new RuleCache.Cache(cache.maxSize);
      }
      reloads := reloads + 1;
    }
  }
}
