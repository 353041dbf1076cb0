/** Whole runs of the enforcer: metrics arriving and configurations being reloaded. */
module LimitsRuns {
  import opened Collections
  import opened MetricModel
  import opened Rules
  import opened LimitsSpec
  import RuleCache
  import RuleLookup

  /** The rules with their lookup cache, and the enforcement state. */
  datatype World = World(index: RuleLookup.Index, core: State)

  datatype Event =
    | Arrive(metric: Metric, resource: map<string, string>, reading: Reading)
    | Reload(rules: seq<Rule>)

  function Start(rules: seq<Rule>): World {
    World(RuleLookup.Index(rules, RuleCache.EMPTY), START)
  }

  function RuleFor(cacheSize: int, w: World, e: Event): Option<Rule>
    requires e.Arrive?
  {
    RuleLookup.Answer(w.index, cacheSize, e.metric.name, e.resource)
  }

  /** One event: the new state and the emitted metric, if any. */
  function Step(env: Env, cacheSize: int, dryRun: bool, w: World, e: Event): (World, Option<Metric>) {
    match e
    case Arrive(metric, resource, reading) =>
      var (core, out) := Processed(env, dryRun, w.core, RuleFor(cacheSize, w, e), metric, resource, reading);
      (World(RuleLookup.Next(w.index, cacheSize, RuleLookup.Lookup(metric.name, resource)), core), out)
    case Reload(rules) =>
      (World(RuleLookup.Next(w.index, cacheSize, RuleLookup.Reload(rules)),
          w.core.(win := Reloaded(w.core.win, rules))), None)
  }

  /** The state after a run; dry[i] is the dry-run setting in force at event i. */
  function After(env: Env, cacheSize: int, w: World, dry: seq<bool>, events: seq<Event>): World
    requires |dry| == |events|
  {
    if events == [] then w
    else
      var n := |events| - 1;
      Step(env, cacheSize, dry[n], After(env, cacheSize, w, dry[..n], events[..n]), events[n]).0
  }

  /** The metrics emitted by a run, in order. */
  function Emitted(env: Env, cacheSize: int, w: World, dry: seq<bool>, events: seq<Event>): seq<Metric>
    requires |dry| == |events|
  {
    if events == [] then []
    else
      var n := |events| - 1;
      var out := Step(env, cacheSize, dry[n], After(env, cacheSize, w, dry[..n], events[..n]), events[n]).1;
      Emitted(env, cacheSize, w, dry[..n], events[..n]) + (if out.Some? then [out.value] else [])
  }

  predicate NoReload(events: seq<Event>) {
    forall i :: 0 <= i < |events| ==> events[i].Arrive?
  }

  ghost predicate ValidIndex(cacheSize: int, w: World) {
    RuleLookup.Consistent(w.index, cacheSize)
  }

  lemma StepKeepsIndex(env: Env, cacheSize: int, dryRun: bool, w: World, e: Event)
    requires ValidIndex(cacheSize, w)
    ensures ValidIndex(cacheSize, Step(env, cacheSize, dryRun, w, e).0)
    ensures e.Arrive? ==> Step(env, cacheSize, dryRun, w, e).0.index.rules == w.index.rules
    ensures e.Arrive? && RuleFor(cacheSize, w, e).Some? ==> RuleFor(cacheSize, w, e).value in w.index.rules
  {
    match e
    case Arrive(metric, resource, _) =>
      RuleLookup.NextKeepsConsistent(w.index, cacheSize, RuleLookup.Lookup(metric.name, resource));
      RuleLookup.AnswerIsMatch(w.index, cacheSize, metric.name, resource);
    case Reload(rules) =>
      RuleLookup.NextKeepsConsistent(w.index, cacheSize, RuleLookup.Reload(rules));
  }

  lemma {:induction false} RunKeepsIndex(env: Env, cacheSize: int, rules: seq<Rule>, dry: seq<bool>, events: seq<Event>)
    requires |dry| == |events|
    ensures ValidIndex(cacheSize, After(env, cacheSize, Start(rules), dry, events))
    ensures NoReload(events) ==> After(env, cacheSize, Start(rules), dry, events).index.rules == rules
  {
    if events == [] {
      RuleLookup.StartConsistent(rules, cacheSize);
    } else {
      var n := |events| - 1;
      RunKeepsIndex(env, cacheSize, rules, dry[..n], events[..n]);
      StepKeepsIndex(env, cacheSize, dry[n], After(env, cacheSize, Start(rules), dry[..n], events[..n]), events[n]);
    }
  }

  /** In every run, reloads included: a metric handled by a rule carries the rule's literal labels
      with their values and has its wildcard labels, and its name is the rule's unless the rule
      has none or a pattern. */
  lemma HandledIsMeant(env: Env, cacheSize: int, rules: seq<Rule>, dry: seq<bool>, events: seq<Event>, e: Event)
    requires |dry| == |events| && e.Arrive?
    ensures var found := RuleFor(cacheSize, After(env, cacheSize, Start(rules), dry, events), e);
            found.Some? ==>
              var r := found.value;
              && Literals(r) <= e.resource.Items && Wildcards(r) <= e.resource.Keys
              && (r.metricRegex.None? && r.metricName != "" ==> e.metric.name == r.metricName)
  {
    RunKeepsIndex(env, cacheSize, rules, dry, events);
    var w := After(env, cacheSize, Start(rules), dry, events);
    RuleLookup.AnswerIsMatch(w.index, cacheSize, e.metric.name, e.resource);
    var found := RuleFor(cacheSize, w, e);
    if found.Some? {
      LabelsMatchIff(found.value, e.resource);
      NameMatches(found.value, e.metric.name);
    }
  }

  // ---------- dry run ----------

  /** The first output is missing, or is the second output. */
  predicate NoMoreThan(a: Option<Metric>, b: Option<Metric>) {
    a.None? || a == b
  }

  /** Equal states, and only the first output may be missing. */
  ghost predicate Shadows(a: (State, Option<Metric>), b: (State, Option<Metric>), dry: bool) {
    a.0 == b.0 && NoMoreThan(a.1, b.1) && (dry ==> b.1.Some?)
  }

  lemma AdaptiveShadow(enforce: bool, dry: bool, s: State, rule: Rule, group: string, m: Metric, reason: Reason,
                       order: seq<string>)
    requires enforce ==> dry
    ensures Shadows(AdaptiveDrop(enforce, s, rule, group, m, reason, order),
            AdaptiveDrop(dry, s, rule, group, m, reason, order), dry)
  {
  }

  lemma ActShadow(env: Env, enforce: bool, dry: bool, s: State, rule: Rule, eff: Rule, group: string, m: Metric,
                  res: map<string, string>, reason: Reason, order: seq<string>)
    requires enforce ==> dry
    ensures Shadows(Act(env, enforce, s, rule, eff, group, m, res, reason, order),
            Act(env, dry, s, rule, eff, group, m, res, reason, order), dry)
  {
    if eff.action.Adaptive? {
      AdaptiveShadow(enforce, dry, s, rule, group, m, reason, order);
    }
  }

  lemma LimitedShadow(env: Env, enforce: bool, dry: bool, s: State, rule: Rule, group: string, m: Metric,
                      res: map<string, string>, rd: Reading)
    requires enforce ==> dry
    ensures Shadows(Limited(env, enforce, s, rule, group, m, res, rd), Limited(env, dry, s, rule, group, m, res, rd),
            dry)
  {
    var c := UpdateAndCheck(env, s.win, rule, group, m, res, rd.window);
    if c.exceeded.Some? {
      var reason := c.exceeded.value;
      ActShadow(env, enforce, dry, Violate(s.(win := c.win), rule.name, reason), rule, Effective(c.win, rule, reason),
                group, m, res, reason, rd.offenders);
    }
  }

  /** The dry-run flag never reaches the state, and only ever withholds an output. */
  lemma ProcessedShadow(env: Env, enforce: bool, dry: bool, s: State, rule: Option<Rule>, m: Metric,
                        res: map<string, string>, rd: Reading)
    requires enforce ==> dry
    ensures Shadows(Processed(env, enforce, s, rule, m, res, rd), Processed(env, dry, s, rule, m, res, rd), dry)
  {
    if rule.Some? {
      var r := rule.value;
      var s1 := s.(win := AfterLabelCheck(s.win, r, m, res, rd));
      LimitedShadow(env, enforce, dry, s1, r, GroupKey(r, res, m), LabelStripped(s.win, r, m, res, rd), res, rd);
    }
  }

  /** Two enforcers fed the same events, one dry-running wherever the other does (and
      possibly elsewhere): they pass through identical states, and the output of the
      stricter one is a subsequence of the other's. */
  lemma {:induction false} DryRunShadow(env: Env, cacheSize: int, w: World, enforce: seq<bool>, dry: seq<bool>,
                                        events: seq<Event>)
    requires |enforce| == |dry| == |events|
    requires forall i :: 0 <= i < |dry| && enforce[i] ==> dry[i]
    ensures After(env, cacheSize, w, enforce, events) == After(env, cacheSize, w, dry, events)
    ensures Subsequence(Emitted(env, cacheSize, w, enforce, events), Emitted(env, cacheSize, w, dry, events))
  {
    if events != [] {
      var n := |events| - 1;
      DryRunShadow(env, cacheSize, w, enforce[..n], dry[..n], events[..n]);
      var before := After(env, cacheSize, w, dry[..n], events[..n]);
      var e := events[n];
      if e.Arrive? {
        ProcessedShadow(env, enforce[n], dry[n], before.core, RuleFor(cacheSize, before, e), e.metric, e.resource,
                        e.reading);
      }
      var a := Step(env, cacheSize, enforce[n], before, e).1;
      var b := Step(env, cacheSize, dry[n], before, e).1;
      SubsequenceAppend(Emitted(env, cacheSize, w, enforce[..n], events[..n]),
          Emitted(env, cacheSize, w, dry[..n], events[..n]),
                        if a.Some? then [a.value] else [], if b.Some? then [b.value] else []);
    }
  }

  /** A run that is dry throughout emits one metric per arrival. */
  lemma {:induction false} DryRunLosesNothing(env: Env, cacheSize: int, w: World, dry: seq<bool>, events: seq<Event>)
    requires |dry| == |events| && NoReload(events)
    requires forall i :: 0 <= i < |dry| ==> dry[i]
    ensures |Emitted(env, cacheSize, w, dry, events)| == |events|
  {
    if events != [] {
      var n := |events| - 1;
      DryRunLosesNothing(env, cacheSize, w, dry[..n], events[..n]);
      var before := After(env, cacheSize, w, dry[..n], events[..n]);
      var e := events[n];
      ProcessedShadow(env, true, true, before.core, RuleFor(cacheSize, before, e), e.metric, e.resource, e.reading);
    }
  }
}
