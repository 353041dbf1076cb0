/** The remote-write limits enforcer (internal/prw/limits.go). */
module PrwLimits {
  import opened Collections

  datatype Label = Label(name: string, value: string)
  datatype Series = Series(labels: seq<Label>, samples: nat, exemplars: nat, histograms: nat)
  datatype Request = Request(series: seq<Series>, metadata: seq<string>)

  datatype Action = Drop | Log

  /** A pattern that did not compile is absent. */
  datatype Rule = Rule(
    name: string, metric: Option<string -> bool>, labels: seq<(string, string -> bool)>,
    maxRate: int, maxCardinality: int, action: Action)

  /** fingerprint is the hash of the sorted labels, any function of the labels. */
  datatype Config = Config(rules: seq<Rule>, dryRun: bool, fingerprint: seq<Label> -> nat)

  datatype Ledger = Ledger(
    counts: map<string, int>, seen: map<string, set<nat>>, lastReset: real, dropped: nat, violations: nat)

  const NAME_LABEL := "__name__"

  function Points(ts: Series): nat {
    ts.samples + ts.exemplars + ts.histograms
  }

  function LabelValue(labels: seq<Label>, name: string): string {
    if labels == [] then ""
    else if labels[0].name == name then labels[0].value
    else LabelValue(labels[1..], name)
  }

  predicate Matches(rule: Rule, ts: Series) {
    && (rule.metric.Some? ==> rule.metric.value(LabelValue(ts.labels, NAME_LABEL)))
    && (forall i :: 0 <= i < |rule.labels| ==> rule.labels[i].1(LabelValue(ts.labels, rule.labels[i].0)))
    && (rule.metric.Some? || |rule.labels| > 0)
  }

  function CountOf(st: Ledger, name: string): int {
    if name in st.counts then st.counts[name] else 0
  }

  function SeenOf(st: Ledger, name: string): set<nat> {
    if name in st.seen then st.seen[name] else {}
  }

  // ---------- one series against the rules ----------

  predicate OverRate(st: Ledger, rule: Rule, ts: Series) {
    rule.maxRate > 0 && CountOf(st, rule.name) + Points(ts) > rule.maxRate
  }

  predicate OverCardinality(c: Config, st: Ledger, rule: Rule, ts: Series) {
    && rule.maxCardinality > 0
    && c.fingerprint(ts.labels) !in SeenOf(st, rule.name)
    && |SeenOf(st, rule.name)| >= rule.maxCardinality
  }

  function ChargeRate(st: Ledger, rule: Rule, ts: Series): Ledger {
    if rule.maxRate <= 0 then st
    else st.(counts := st.counts[rule.name := CountOf(st, rule.name) + Points(ts)])
  }

  function Remember(c: Config, st: Ledger, rule: Rule, ts: Series): Ledger {
    if rule.maxCardinality <= 0 then st
    else st.(seen := st.seen[rule.name := SeenOf(st, rule.name) + {c.fingerprint(ts.labels)}])
  }

  /** One rule: the new state and whether the series may go on. A series rejected for its
      cardinality has already been charged for its datapoints. */
  function Visit(c: Config, st: Ledger, rule: Rule, ts: Series): (Ledger, bool) {
    if !Matches(rule, ts) then (st, true)
    else if OverRate(st, rule, ts) then (st.(violations := st.violations + 1), false)
    else
      var charged := ChargeRate(st, rule, ts);
      if OverCardinality(c, charged, rule, ts) then (charged.(violations := st.violations + 1), false)
      else (Remember(c, charged, rule, ts), true)
  }

  /** The state after the rules from index j on, and the first one violated. */
  function Scan(c: Config, st: Ledger, ts: Series, j: nat): (r: (Ledger, Option<nat>))
    requires j <= |c.rules|
    ensures r.1.Some? ==> j <= r.1.value < |c.rules|
    decreases |c.rules| - j
  {
    if j == |c.rules| then (st, None)
    else
      var (next, ok) := Visit(c, st, c.rules[j], ts);
      if ok then Scan(c, next, ts, j + 1) else (next, Some(j))
  }

  predicate Kept(c: Config, violated: Option<nat>)
    requires violated.Some? ==> violated.value < |c.rules|
  {
    violated.None? || c.dryRun || c.rules[violated.value].action == Log
  }

  function AfterSeries(c: Config, st: Ledger, ts: Series): Ledger {
    var (next, violated) := Scan(c, st, ts, 0);
    if Kept(c, violated) then next else next.(dropped := next.dropped + 1)
  }

  function Filter(c: Config, st: Ledger, all: seq<Series>): seq<Series>
    decreases |all|
  {
    if all == [] then []
    else
      (if Kept(c, Scan(c, st, all[0], 0).1) then [all[0]] else []) + Filter(c, AfterSeries(c, st, all[0]), all[1..])
  }

  function AfterAll(c: Config, st: Ledger, all: seq<Series>): Ledger
    decreases |all|
  {
    if all == [] then st else AfterAll(c, AfterSeries(c, st, all[0]), all[1..])
  }

  function Rolled(st: Ledger, now: real): Ledger {
    if now - st.lastReset >= 1.0 then st.(counts := map[], lastReset := now) else st
  }

  lemma FilterStep(c: Config, st: Ledger, all: seq<Series>, i: nat)
    requires i < |all|
    ensures Filter(c, st, all[i..]) ==
            (if Kept(c, Scan(c, st, all[i], 0).1) then [all[i]] else []) +
                Filter(c, AfterSeries(c, st, all[i]), all[i + 1..])
    ensures AfterAll(c, st, all[i..]) == AfterAll(c, AfterSeries(c, st, all[i]), all[i + 1..])
  {
    assert all[i..][1..] == all[i + 1..];
  }

  // ---------- the enforcer object ----------

  class Enforcer {
    const config: Config
    var datapointCounts: map<string, int>
    var cardinality: map<string, set<nat>>
    var lastReset: real
    var totalDropped: nat
    var totalViolations: nat

    ghost function View(): Ledger reads this {
      Ledger(datapointCounts, cardinality, lastReset, totalDropped, totalViolations)
    }

    constructor (config: Config, now: real)
      ensures this.config == config && View() == Ledger(map[], map[], now, 0, 0)
    {
      this.config := config;
      datapointCounts, cardinality, lastReset := map[], map[], now;
      totalDropped, totalViolations := 0, 0;
    }

    static method GetLabelValue(labels: seq<Label>, name: string) returns (value: string)
      ensures value == LabelValue(labels, name)
    {
      assert labels[0..] == labels;
      for i := 0 to |labels|
        invariant LabelValue(labels, name) == LabelValue(labels[i..], name)
      {
        if labels[i].name == name {
          return labels[i].value;
        }
        assert labels[i..][1..] == labels[i + 1..];
      }
      return "";
    }

    static method MatchesRule(ts: Series, rule: Rule) returns (ok: bool)
      ensures ok == Matches(rule, ts)
    {
      if rule.metric.Some? {
        var name := GetLabelValue(ts.labels, NAME_LABEL);
        if !rule.metric.value(name) {
          return false;
        }
      }
      for i := 0 to |rule.labels|
        invariant forall k :: 0 <= k < i ==> rule.labels[k].1(LabelValue(ts.labels, rule.labels[k].0))
      {
        var value := GetLabelValue(ts.labels, rule.labels[i].0);
        if !rule.labels[i].1(value) {
          return false;
        }
      }
      return rule.metric.Some? || |rule.labels| > 0;
    }

    method CheckRate(rule: Rule, ts: Series) returns (ok: bool)
      modifies this`datapointCounts, this`totalViolations
      ensures ok == !OverRate(old(View()), rule, ts)
      ensures View() == if ok then ChargeRate(old(View()), rule, ts)
                        else old(View()).(violations := old(View()).violations + 1)
    {
      if rule.maxRate > 0 {
        var count := if rule.name in datapointCounts then datapointCounts[rule.name] else 0;
        if count + Points(ts) > rule.maxRate {
          totalViolations := totalViolations + 1;
          return false;
        }
        datapointCounts := datapointCounts[rule.name := count + Points(ts)];
      }
      return true;
    }

    method CheckCardinality(rule: Rule, ts: Series) returns (ok: bool)
      modifies this`cardinality, this`totalViolations
      ensures ok == !OverCardinality(config, old(View()), rule, ts)
      ensures View() == if ok then Remember(config, old(View()), rule, ts)
                        else old(View()).(violations := old(View()).violations + 1)
    {
      if rule.maxCardinality > 0 {
        var hash := config.fingerprint(ts.labels);
        var known := if rule.name in cardinality then cardinality[rule.name] else {};
        if hash !in known {
          if |known| >= rule.maxCardinality {
            totalViolations := totalViolations + 1;
            return false;
          }
          cardinality := cardinality[rule.name := known + {hash}];
        } else {
          assert known + {hash} == known && cardinality[rule.name := known] == cardinality;
        }
      }
      return true;
    }

    method CheckRule(rule: Rule, ts: Series) returns (ok: bool)
      modifies this`datapointCounts, this`cardinality, this`totalViolations
      ensures (View(), ok) == Visit(config, old(View()), rule, ts)
    {
      ok := MatchesRule(ts, rule);
      if !ok {
        return true;
      }
      ok := CheckRate(rule, ts);
      if ok {
        ok := CheckCardinality(rule, ts);
      }
    }

    /** The rule loop with its early exit. */
    method CheckSeries(ts: Series) returns (violated: Option<nat>)
      modifies this`datapointCounts, this`cardinality, this`totalViolations
      ensures (View(), violated) == Scan(config, old(View()), ts, 0)
    {
      ghost var start := View();
      for j := 0 to |config.rules|
        invariant Scan(config, start, ts, 0) == Scan(config, View(), ts, j)
      {
        var ok := CheckRule(config.rules[j], ts);
        if !ok {
          return Some(j);
        }
      }
      return None;
    }

    method Process(req: Option<Request>, now: real) returns (out: Option<Request>)
      modifies this
      ensures if req.None? || |config.rules| == 0 then out == req && View() == old(View())
              else
                var start := Rolled(old(View()), now);
                var kept := Filter(config, start, req.value.series);
                && View() == AfterAll(config, start, req.value.series)
                && out == if kept == [] then None else Some(Request(kept, req.value.metadata))
    {
      if req.None? || |config.rules| == 0 {
        return req;
      }
      if now - lastReset >= 1.0 {
        datapointCounts := map[];
        lastReset := now;
      }
      var kept := FilterSeries(req.value.series);
      if |kept| == 0 {
        return None;
      }
      return Some(Request(kept, req.value.metadata));
    }

    method KeepSeries(ts: Series) returns (keep: bool)
      modifies this`datapointCounts, this`cardinality, this`totalViolations, this`totalDropped
      ensures keep == Kept(config, Scan(config, old(View()), ts, 0).1)
      ensures View() == AfterSeries(config, old(View()), ts)
    {
      var violated := CheckSeries(ts);
      keep := violated.None? || config.dryRun || config.rules[violated.value].action == Log;
      if !keep {
        totalDropped := totalDropped + 1;
      }
    }

    method FilterSeries(all: seq<Series>) returns (kept: seq<Series>)
      modifies this`datapointCounts, this`cardinality, this`totalViolations, this`totalDropped
      ensures View() == AfterAll(config, old(View()), all)
      ensures kept == Filter(config, old(View()), all)
    {
      ghost var start := View();
      kept := [];
      assert all[0..] == all;
      for i := 0 to |all|
        invariant Filter(config, start, all) == kept + Filter(config, View(), all[i..])
        invariant AfterAll(config, start, all) == AfterAll(config, View(), all[i..])
      {
        ghost var was, rest := View(), all[i + 1..];
        FilterStep(config, was, all, i);
        var keep := KeepSeries(all[i]);
        assert View() == AfterSeries(config, was, all[i]);
        assert keep ==>
                 kept + ([all[i]] + Filter(config, View(), rest)) == kept + [all[i]] + Filter(config, View(), rest);
        assert !keep ==> [] + Filter(config, View(), rest) == Filter(config, View(), rest);
        if keep {
          kept := kept + [all[i]];
        }
      }
      assert all[|all|..] == [];
    }

    method ResetCardinality()
      modifies this`cardinality
      ensures cardinality == map[]
    {
      cardinality := map[];
    }

    method ResetStats()
      modifies this`totalDropped, this`totalViolations
      ensures totalDropped == 0 && totalViolations == 0
    {
      totalDropped, totalViolations := 0, 0;
    }
  }
}
