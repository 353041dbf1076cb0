/** Limit rules and their matching predicates (internal/limits/config.go). */
module Rules {
  import opened Collections

  /** Unrecognised stands for every action string the enforcer has no case for. */
  datatype Action = Log | Drop | Sample | StripLabels | Adaptive | Unrecognised

  datatype Tier = Tier(atPercent: int, action: Action, sampleRate: real, stripLabels: seq<string>)

  datatype Priority = Priority(key: string, order: seq<string>, fallback: int)

  /** metricRegex is the compiled pattern, if the name contains regex characters. */
  datatype Rule = Rule(
    name: string,
    metricName: string,
    metricRegex: Option<string -> bool>,
    matchLabels: map<string, string>,
    maxDatapoints: int,
    maxCardinality: int,
    action: Action,
    groupBy: seq<string>,
    sampleRate: real,
    stripLabels: seq<string>,
    tiers: seq<Tier>,
    labelLimits: map<string, int>,
    labelLimitDrops: bool,
    priority: Option<Priority>)
  {
    predicate MatchesMetric(metric: string) {
      metricName == "" || (if metricRegex.Some? then metricRegex.value(metric) else metricName == metric)
    }

    predicate MatchesLabels(labels: map<string, string>) {
      forall key :: key in matchLabels ==>
        key in labels && (matchLabels[key] == "*" || matchLabels[key] == labels[key])
    }

    predicate HasLabelMatchers() {
      |matchLabels| > 0
    }

    predicate Matches(metric: string, labels: map<string, string>) {
      MatchesMetric(metric) && MatchesLabels(labels)
    }
  }

  // ---------- what label patterns accept ----------

  /** The labels that a rule demands with their value, and those it only demands. */
  ghost function Literals(r: Rule): set<(string, string)> {
    set p | p in r.matchLabels.Items && p.1 != "*"
  }

  ghost function Wildcards(r: Rule): set<string> {
    set k | k in r.matchLabels && r.matchLabels[k] == "*"
  }

  /** A rule's label patterns accept exactly the label sets that contain its literal labels and
      have its wildcard labels. */
  lemma LabelsMatchIff(r: Rule, labels: map<string, string>)
    ensures r.MatchesLabels(labels) <==> Literals(r) <= labels.Items && Wildcards(r) <= labels.Keys
  {
    if r.MatchesLabels(labels) {
      forall p | p in Literals(r) ensures p in labels.Items {
        assert p.0 in r.matchLabels && r.matchLabels[p.0] == p.1;
      }
    } else {
      var key :| key in r.matchLabels &&
                 !(key in labels && (r.matchLabels[key] == "*" || r.matchLabels[key] == labels[key]));
      if r.matchLabels[key] == "*" {
        assert key in Wildcards(r);
      } else {
        assert (key, r.matchLabels[key]) in Literals(r);
      }
    }
  }

  /** Without wildcards a rule matches exactly the label sets that contain its own. */
  lemma LiteralRuleMatchesIff(r: Rule, labels: map<string, string>)
    requires forall k :: k in r.matchLabels ==> r.matchLabels[k] != "*"
    ensures r.MatchesLabels(labels) <==> r.matchLabels.Items <= labels.Items
  {
    LabelsMatchIff(r, labels);
    assert Literals(r) == r.matchLabels.Items;
    assert Wildcards(r) == {};
  }

  /** Changing one label: a literal pattern pins its value, a wildcard takes any, and a label
      without a pattern does not matter. */
  lemma OneLabelChanged(r: Rule, labels: map<string, string>, k: string, v: string)
    ensures r.MatchesLabels(labels[k := v]) && k in r.matchLabels && r.matchLabels[k] != "*" ==> v == r.matchLabels[k]
    ensures r.MatchesLabels(labels) && (k !in r.matchLabels || r.matchLabels[k] == "*") ==>
            r.MatchesLabels(labels[k := v])
    ensures k in r.matchLabels ==> !r.MatchesLabels(labels - {k})
  {
    LabelsMatchIff(r, labels[k := v]);
  }

  /** The source's loop over the patterns. */
  method CheckLabels(r: Rule, labels: map<string, string>) returns (ok: bool)
    ensures ok <==> Literals(r) <= labels.Items && Wildcards(r) <= labels.Keys
  {
    LabelsMatchIff(r, labels);
    if |r.matchLabels| == 0 {
      assert r.matchLabels == map[];
      return true;
    }
    var todo := r.matchLabels.Keys;
    while todo != {}
      invariant todo <= r.matchLabels.Keys
      invariant forall k :: k in r.matchLabels && k !in todo ==>
                  k in labels && (r.matchLabels[k] == "*" || r.matchLabels[k] == labels[k])
      decreases |todo|
    {
      var key :| key in todo;
      todo := todo - {key};
      if key !in labels {
        return false;
      }
      if r.matchLabels[key] != "*" && r.matchLabels[key] != labels[key] {
        return false;
      }
    }
    return true;
  }

  /** Without a pattern only the exact name matches; no name at all matches everything. */
  lemma NameMatches(r: Rule, metric: string)
    ensures r.metricRegex.None? && r.metricName != "" ==> (r.MatchesMetric(metric) <==> metric == r.metricName)
    ensures r.metricName == "" ==> r.MatchesMetric(metric)
    ensures r.metricName != "" && r.metricRegex.Some? ==> (r.MatchesMetric(metric) <==> r.metricRegex.value(metric))
  {
  }

  predicate HasAnyLabelMatchers(rules: seq<Rule>) {
    exists i :: 0 <= i < |rules| && rules[i].HasLabelMatchers()
  }

  /** The plain scan: the first rule of the list that matches. */
  function FirstMatch(rules: seq<Rule>, metric: string, labels: map<string, string>): Option<Rule> {
    if rules == [] then None
    else if rules[0].Matches(metric, labels) then Some(rules[0])
    else FirstMatch(rules[1..], metric, labels)
  }

  /** The first rule without label matchers that accepts the metric name. */
  function FirstLabelFree(rules: seq<Rule>, metric: string): Option<Rule> {
    if rules == [] then None
    else if !rules[0].HasLabelMatchers() && rules[0].MatchesMetric(metric) then Some(rules[0])
    else FirstLabelFree(rules[1..], metric)
  }

  /** Some label-matching rule accepting the name stands before the first label-free
      rule accepting it. */
  predicate LabelRulePrecedes(rules: seq<Rule>, metric: string) {
    if rules == [] then false
    else if !rules[0].MatchesMetric(metric) then LabelRulePrecedes(rules[1..], metric)
    else rules[0].HasLabelMatchers() && FirstLabelFree(rules[1..], metric).Some?
  }

  predicate DistinctNames(rules: seq<Rule>) {
    forall i, j :: 0 <= i < j < |rules| ==> rules[i].name != rules[j].name
  }

  lemma LabelFreeMatchesAll(r: Rule, labels: map<string, string>)
    requires !r.HasLabelMatchers()
    ensures r.MatchesLabels(labels)
  {
    assert r.matchLabels == map[];
  }

  lemma NoLabelsMatchNoLabelRule(r: Rule)
    requires r.HasLabelMatchers()
    ensures !r.MatchesLabels(map[])
    ensures r.MatchesLabels(r.matchLabels)
  {
    assert r.matchLabels != map[];
    var key :| key in r.matchLabels;
  }

  /** The scan yields a matching member of the list, and nothing only if nothing matches. */
  lemma {:induction false} FirstMatchIsMatch(rules: seq<Rule>, metric: string, labels: map<string, string>)
    ensures FirstMatch(rules, metric, labels).Some? ==>
              FirstMatch(rules, metric, labels).value in rules &&
              FirstMatch(rules, metric, labels).value.Matches(metric, labels)
    ensures FirstMatch(rules, metric, labels).None? <==>
              forall r :: r in rules ==> !r.Matches(metric, labels)
  {
    if rules != [] {
      FirstMatchIsMatch(rules[1..], metric, labels);
      assert rules == [rules[0]] + rules[1..];
    }
  }

  lemma {:induction false} FirstLabelFreeIsMatch(rules: seq<Rule>, metric: string)
    ensures FirstLabelFree(rules, metric).Some? ==>
              var r := FirstLabelFree(rules, metric).value;
              r in rules && !r.HasLabelMatchers() && r.MatchesMetric(metric)
  {
    if rules != [] {
      FirstLabelFreeIsMatch(rules[1..], metric);
    }
  }

  /** A scan that ends in a label-free rule ends in the first one. */
  lemma {:induction false} ScanMeetsLabelFree(rules: seq<Rule>, metric: string, labels: map<string, string>)
    ensures var r := FirstMatch(rules, metric, labels);
            r.Some? && !r.value.HasLabelMatchers() ==> r == FirstLabelFree(rules, metric)
    ensures FirstLabelFree(rules, metric).Some? ==> FirstMatch(rules, metric, labels).Some?
    ensures !LabelRulePrecedes(rules, metric) && FirstLabelFree(rules, metric).Some? ==>
              FirstMatch(rules, metric, labels) == FirstLabelFree(rules, metric)
  {
    if rules != [] {
      ScanMeetsLabelFree(rules[1..], metric, labels);
      if !rules[0].HasLabelMatchers() {
        LabelFreeMatchesAll(rules[0], labels);
      }
    }
  }

  /** Without any labels, the scan skips every label-matching rule. */
  lemma {:induction false} ScanWithoutLabels(rules: seq<Rule>, metric: string)
    ensures FirstMatch(rules, metric, map[]) == FirstLabelFree(rules, metric)
  {
    if rules != [] {
      ScanWithoutLabels(rules[1..], metric);
      if rules[0].HasLabelMatchers() {
        NoLabelsMatchNoLabelRule(rules[0]);
      } else {
        LabelFreeMatchesAll(rules[0], map[]);
      }
    }
  }

  /** A preceding label-matching rule wins the scan for some labels. */
  lemma {:induction false} PrecedingRuleWins(rules: seq<Rule>, metric: string) returns (labels: map<string, string>)
    requires LabelRulePrecedes(rules, metric)
    ensures FirstMatch(rules, metric, labels).Some?
    ensures FirstMatch(rules, metric, labels).value.HasLabelMatchers()
  {
    if rules[0].HasLabelMatchers() && rules[0].MatchesMetric(metric) {
      NoLabelsMatchNoLabelRule(rules[0]);
      labels := rules[0].matchLabels;
    } else {
      labels := PrecedingRuleWins(rules[1..], metric);
    }
  }
}
