/** Tiers and sampling: which action a violation gets, and which series survive it
    (internal/limits/enforcer.go, internal/limits/config.go). */
module Escalation {
  import opened Collections
  import opened MetricModel
  import opened Trackers
  import opened Rules
  import opened LimitsSpec
  import opened LimitsRuns
  import opened LimitsTotals

  /** The order that configuration loading insists on. */
  ghost predicate Ascending(tiers: seq<Tier>) {
    forall i, j :: 0 <= i < j < |tiers| ==> tiers[i].atPercent < tiers[j].atPercent
  }

  /** The tier picked is the one with the highest threshold that the utilization reaches, and
      none is picked if and only if it reaches no threshold. */
  lemma {:induction false} TierIsHighest(tiers: seq<Tier>, utilization: int)
    requires Ascending(tiers)
    ensures PickTier(tiers, utilization).None? <==>
            forall i :: 0 <= i < |tiers| ==> utilization < tiers[i].atPercent
    ensures var t := PickTier(tiers, utilization);
            t.Some? ==>
              && t.value in tiers && t.value.atPercent <= utilization
              && forall i :: 0 <= i < |tiers| && tiers[i].atPercent <= utilization ==>
                  tiers[i].atPercent <= t.value.atPercent
    decreases |tiers|
  {
    if tiers != [] && utilization < tiers[|tiers| - 1].atPercent {
      var rest := tiers[..|tiers| - 1];
      TierIsHighest(rest, utilization);
      assert forall i :: 0 <= i < |tiers| ==> i == |tiers| - 1 || tiers[i] == rest[i];
      assert forall i :: 0 <= i < |rest| ==> rest[i] == tiers[i];
    }
  }

  /** A higher utilization never picks a lower tier. */
  lemma TierEscalates(tiers: seq<Tier>, low: int, high: int)
    requires Ascending(tiers) && low <= high && PickTier(tiers, low).Some?
    ensures PickTier(tiers, high).Some?
    ensures PickTier(tiers, low).value.atPercent <= PickTier(tiers, high).value.atPercent
  {
    TierIsHighest(tiers, low);
    TierIsHighest(tiers, high);
    var i :| 0 <= i < |tiers| && tiers[i] == PickTier(tiers, low).value;
    assert tiers[i].atPercent <= high;
  }

  /** Without reloads the utilization that a violation reads, in the window that the check has
      just updated, never passes 100 percent, because the offending metric has not been added. */
  lemma UtilizationAtMostFull(env: Env, cacheSize: int, rules: seq<Rule>, dry: seq<bool>, events: seq<Event>,
                              rule: Rule, m: Metric, res: map<string, string>, rd: Reading, reason: Reason)
    requires |dry| == |events| && env.empty.Fresh() && DistinctNames(rules) && NoReload(events) && rule in rules
    ensures var w := After(env, cacheSize, Start(rules), dry, events).core.win;
            0 <= Utilization(CheckOf(env, w, rule, m, res, rd).win, rule, reason) <= 100
  {
    NeverOverNeverMarked(env, cacheSize, rules, dry, events);
    CheckedWithin(env, After(env, cacheSize, Start(rules), dry, events).core.win, rules, rule, m, res, rd, reason);
  }

  lemma CheckedWithin(env: Env, w: Window, rules: seq<Rule>, rule: Rule, m: Metric, res: map<string, string>,
                      rd: Reading, reason: Reason)
    requires env.empty.Fresh() && AllBalanced(w) && AllWithin(w, rules) && w.marks == map[] && rule in rules
    ensures 0 <= Utilization(CheckOf(env, w, rule, m, res, rd).win, rule, reason) <= 100
  {
    var w1 := AfterLabelCheck(w, rule, m, res, rd);
    assert w1.stats == w.stats && w1.marks == w.marks;
    assert RuleWithin(w1, rule);
    UpdateKeeps(env, w1, rule, GroupKey(rule, res, m), LabelStripped(w, rule, m, res, rd), res, rd.window);
    WithinIsAtMostFull(CheckOf(env, w, rule, m, res, rd).win, rule, reason);
  }

  lemma WithinIsAtMostFull(w: Window, rule: Rule, reason: Reason)
    requires RuleWithin(w, rule)
    ensures 0 <= Utilization(w, rule, reason) <= 100
  {
    if rule.name in w.stats {
      var rs := w.stats[rule.name];
      if reason.Cardinality? && rule.maxCardinality > 0 {
        Percent(rs.totalCard, rule.maxCardinality);
      } else if reason.DatapointsRate? && rule.maxDatapoints > 0 {
        Percent(rs.totalDPs, rule.maxDatapoints);
      }
    }
  }

  lemma Percent(total: nat, limit: nat)
    requires total <= limit && 0 < limit
    ensures 0 <= total * 100 / limit <= 100
  {
    var n := total * 100;
    var q := n / limit;
    assert n == q * limit + n % limit;
    assert (101 - q) * limit == 101 * limit - q * limit;
    PositiveFactor(101 - q, limit);
    PositiveFactor(q + 1, limit);
  }

  lemma PositiveFactor(a: int, b: int)
    ensures a * b > 0 && b > 0 ==> a > 0
  {
    if a <= 0 && b > 0 {
      assert a * b <= 0;
    }
  }

  /** The utilization is the whole percentage of the limit that the total has reached. */
  lemma UtilizationIs(w: Window, rule: Rule, reason: Reason)
    requires rule.name in w.stats
    ensures var limit := if reason.Cardinality? then rule.maxCardinality else rule.maxDatapoints;
            var total := if reason.Cardinality? then w.stats[rule.name].totalCard else w.stats[rule.name].totalDPs;
            var u := Utilization(w, rule, reason);
            limit > 0 ==> u * limit <= 100 * total < (u + 1) * limit
  {
    var limit := if reason.Cardinality? then rule.maxCardinality else rule.maxDatapoints;
    var total := if reason.Cardinality? then w.stats[rule.name].totalCard else w.stats[rule.name].totalDPs;
    if limit > 0 {
      QuotientBounds(total * 100, limit);
    }
  }

  lemma QuotientBounds(n: nat, d: nat)
    requires d > 0
    ensures n / d * d <= n < (n / d + 1) * d
  {
    assert n == n / d * d + n % d;
    assert (n / d + 1) * d == n / d * d + d;
  }

  /** A violation acts by the highest tier that the utilization reaches, with the tier's own
      parameters where it sets them, and by the rule itself below the first tier. */
  lemma ActsByHighestTier(w: Window, rule: Rule, reason: Reason, i: nat)
    requires Ascending(rule.tiers) && i < |rule.tiers|
    requires var u := Utilization(w, rule, reason);
             rule.tiers[i].atPercent <= u && (i + 1 < |rule.tiers| ==> u < rule.tiers[i + 1].atPercent)
    ensures var eff := Effective(w, rule, reason); var tier := rule.tiers[i];
            && eff.action == tier.action && eff.name == rule.name
            && (tier.sampleRate > 0.0 ==> eff.sampleRate == tier.sampleRate)
            && (tier.sampleRate <= 0.0 ==> eff.sampleRate == rule.sampleRate)
            && (tier.stripLabels != [] ==> eff.stripLabels == tier.stripLabels)
            && (tier.stripLabels == [] ==> eff.stripLabels == rule.stripLabels)
  {
    var u := Utilization(w, rule, reason);
    TierIsHighest(rule.tiers, u);
    var t := PickTier(rule.tiers, u);
    assert t.Some?;
    var k :| 0 <= k < |rule.tiers| && rule.tiers[k] == t.value;
    assert rule.tiers[i].atPercent <= rule.tiers[k].atPercent <= u;
  }

  lemma ActsByRuleBelowTiers(w: Window, rule: Rule, reason: Reason)
    requires forall i :: 0 <= i < |rule.tiers| ==> Utilization(w, rule, reason) < rule.tiers[i].atPercent
    ensures Effective(w, rule, reason) == rule
  {
    NoTier(rule.tiers, Utilization(w, rule, reason));
  }

  lemma {:induction false} NoTier(tiers: seq<Tier>, utilization: int)
    requires forall i :: 0 <= i < |tiers| ==> utilization < tiers[i].atPercent
    ensures PickTier(tiers, utilization) == None
    decreases |tiers|
  {
    if tiers != [] {
      NoTier(tiers[..|tiers| - 1], utilization);
    }
  }

  // ---------- the share that sampling keeps ----------

  /** How many of the hashes from, from + 1, ... have a remainder below the threshold. */
  function KeptAmong(from: nat, count: nat, threshold: nat): nat {
    if count == 0 then 0
    else KeptAmong(from, count - 1, threshold) + (if (from + count - 1) % 10000 < threshold then 1 else 0)
  }

  lemma {:induction false} KeptFromZero(count: nat, threshold: nat)
    requires count <= 10000
    ensures KeptAmong(0, count, threshold) == Min(count, threshold)
  {
    if count > 0 {
      KeptFromZero(count - 1, threshold);
    }
  }

  lemma {:induction false} KeptShifts(from: nat, count: nat, threshold: nat)
    requires count > 0
    ensures KeptAmong(from, count, threshold) ==
            (if from % 10000 < threshold then 1 else 0) + KeptAmong(from + 1, count - 1, threshold)
    decreases count
  {
    if count > 1 {
      KeptShifts(from, count - 1, threshold);
    }
  }

  lemma {:induction false} KeptAnywhere(from: nat, threshold: nat)
    requires threshold <= 10000
    ensures KeptAmong(from, 10000, threshold) == threshold
  {
    if from == 0 {
      KeptFromZero(10000, threshold);
    } else {
      KeptAnywhere(from - 1, threshold);
      KeptShifts(from - 1, 10000, threshold);
      assert (from - 1 + 10000) % 10000 == (from - 1) % 10000;
      assert KeptAmong(from, 10000, threshold) ==
             KeptAmong(from, 9999, threshold) + (if (from + 9999) % 10000 < threshold then 1 else 0);
    }
  }

  /** Of any 10000 consecutive hashes exactly floor(10000 * rate) are kept; a rate of one keeps
      all, and a rate of zero or less none. */
  lemma SampleShare(env: Env, key: string, rate: real, from: nat)
    ensures rate >= 1.0 ==> ShouldSample(env, key, rate)
    ensures rate <= 0.0 ==> !ShouldSample(env, key, rate)
    ensures 0.0 < rate < 1.0 ==>
              var threshold := (rate * 10000.0).Floor;
              && 0 <= threshold <= 10000 && KeptAmong(from, 10000, threshold) == threshold
              && (ShouldSample(env, key, rate) <==> KeptAmong(env.hash(key), 1, threshold) == 1)
  {
    if 0.0 < rate < 1.0 {
      var threshold := (rate * 10000.0).Floor;
      KeptAnywhere(from, threshold);
      assert KeptAmong(env.hash(key), 0, threshold) == 0;
    }
  }

  /** Sampling is nested: a series kept at one rate is kept at every higher rate. */
  lemma SampleNested(env: Env, key: string, rate: real, higher: real)
    requires rate <= higher && ShouldSample(env, key, rate)
    ensures ShouldSample(env, key, higher)
  {
    if rate < 1.0 && higher < 1.0 {
      assert (rate * 10000.0).Floor <= (higher * 10000.0).Floor;
    }
  }

  // ---------- sampling by metric against sampling by datapoint ----------

  /** What the hash says about one datapoint's own series. */
  predicate Kept(env: Env, m: Metric, res: map<string, string>, rate: real, i: nat)
    requires i < |m.points|
  {
    ShouldSample(env, SeriesKeys(env, m, res)[i], rate)
  }

  /** Of the first n datapoints of out, those whose own series is kept. */
  function Survivors(env: Env, m: Metric, res: map<string, string>, rate: real, out: seq<Datapoint>,
                     n: nat): seq<Datapoint>
    requires n <= |m.points| == |out|
  {
    if n == 0 then []
    else Survivors(env, m, res, rate, out, n - 1) + (if Kept(env, m, res, rate, n - 1) then [out[n - 1]] else [])
  }

  lemma {:induction false} SurvivorCount(env: Env, m: Metric, res: map<string, string>, rate: real,
                                         out: seq<Datapoint>, n: nat)
    requires n <= |m.points| == |out|
    ensures var r := Survivors(env, m, res, rate, out, n);
            && |r| <= n
            && (|r| == n <==> forall i :: 0 <= i < n ==> Kept(env, m, res, rate, i))
            && (|r| == n ==> r == out[..n])
            && (|r| == 0 <==> forall i :: 0 <= i < n ==> !Kept(env, m, res, rate, i))
  {
    if n > 0 {
      SurvivorCount(env, m, res, rate, out, n - 1);
      assert out[..n] == out[..n - 1] + [out[n - 1]];
    }
  }

  ghost function SampledPoints(env: Env, s: State, rule: Rule, m: Metric, res: map<string, string>): seq<Datapoint> {
    var out := SampleAction(env, false, s, rule, m, res).1;
    if out.Some? then out.value.points else []
  }

  /** What sampling each datapoint by itself would emit. */
  function PerDatapoint(env: Env, rule: Rule, m: Metric, res: map<string, string>): seq<Datapoint> {
    Survivors(env, m, res, rule.sampleRate, Inject(m, "sampled_keep", rule.name).points, |m.points|)
  }

  /** The sample action emits exactly the datapoints whose own series is kept if and only if all
      series of the metric get the verdict of the first. */
  lemma SamplesEachIff(env: Env, s: State, rule: Rule, m: Metric, res: map<string, string>)
    ensures SampledPoints(env, s, rule, m, res) == PerDatapoint(env, rule, m, res) <==>
            forall i :: 0 <= i < |m.points| ==>
              (Kept(env, m, res, rule.sampleRate, i) <==> Kept(env, m, res, rule.sampleRate, 0))
  {
    if m.points != [] {
      var all := Inject(m, "sampled_keep", rule.name).points;
      SurvivorCount(env, m, res, rule.sampleRate, all, |m.points|);
      assert all[..|m.points|] == all;
      if Kept(env, m, res, rule.sampleRate, 0) {
        assert SampledPoints(env, s, rule, m, res) == all;
      } else {
        assert SampledPoints(env, s, rule, m, res) == [];
      }
    }
  }

  /** Two series, one kept and one not: the action emits both. */
  lemma SampleDiffers(s: State, rule: Rule, a: int, b: int)
    requires rule.sampleRate == 0.5
    ensures var env := Env(m => if "k" in m then m["k"] else "", key => if key == "x" then 0 else 9999, Exact({}));
            var m := Metric("m", [Datapoint([KeyValue("k", Str("x"))], a), Datapoint([KeyValue("k", Str("y"))], b)]);
            SampledPoints(env, s, rule, m, map[]) != PerDatapoint(env, rule, m, map[])
  {
    var env := Env(m => if "k" in m then m["k"] else "", key => if key == "x" then 0 else 9999, Exact({}));
    var m := Metric("m", [Datapoint([KeyValue("k", Str("x"))], a), Datapoint([KeyValue("k", Str("y"))], b)]);
    SingleKey("k", "x");
    SingleKey("k", "y");
    assert SeriesKeys(env, m, map[])[0] == "x" && SeriesKeys(env, m, map[])[1] == "y";
    assert Kept(env, m, map[], 0.5, 0) && !Kept(env, m, map[], 0.5, 1);
    SamplesEachIff(env, s, rule, m, map[]);
  }

  lemma SingleKey(k: string, v: string)
    requires v != ""
    ensures Extract([KeyValue(k, Str(v))]) == map[k := v]
  {
    var one := [KeyValue(k, Str(v))];
    assert one[..0] == [];
  }
}
