/** findMatchingRule: rule lookup through the cache, against the plain scan
    (internal/limits/enforcer.go, internal/limits/rulecache.go). */
module RuleLookup {
  import opened Collections
  import opened Rules
  import opened RuleCache

  /** The rules in force and the cache in front of them. */
  datatype Index = Index(rules: seq<Rule>, cache: Lru)

  datatype Op =
    | Lookup(metric: string, labels: map<string, string>)
    | Reload(rules: seq<Rule>)
    | Clear

  function CachedAnswer(ix: Index, maxSize: int, metric: string, labels: map<string, string>): bool {
    maxSize > 0 && metric in ix.cache.answers &&
    (ix.cache.answers[metric].None? || ix.cache.answers[metric].value.MatchesLabels(labels))
  }

  /** What findMatchingRule returns. */
  function Answer(ix: Index, maxSize: int, metric: string, labels: map<string, string>): Option<Rule> {
    if CachedAnswer(ix, maxSize, metric, labels) then ix.cache.answers[metric]
    else FirstMatch(ix.rules, metric, labels)
  }

  /** What findMatchingRule leaves in the cache. */
  function AfterLookup(ix: Index, maxSize: int, metric: string, labels: map<string, string>): Lru {
    var got := AfterGet(ix.cache, maxSize, metric);
    if CachedAnswer(ix, maxSize, metric, labels) then got
    else
      var r := FirstMatch(ix.rules, metric, labels);
      if (if r.Some? then !r.value.HasLabelMatchers() else !HasAnyLabelMatchers(ix.rules))
      then AfterPut(got, maxSize, metric, r)
      else got
  }

  function Next(ix: Index, maxSize: int, op: Op): Index {
    match op
    case Lookup(metric, labels) => Index(ix.rules, AfterLookup(ix, maxSize, metric, labels))
    case Reload(rules) => Index(rules, EMPTY)
    case Clear => Index(ix.rules, if maxSize <= 0 then ix.cache else Lru([], map[], ix.cache.misses))
  }

  function Run(ix: Index, maxSize: int, ops: seq<Op>): Index {
    if ops == [] then ix else Next(Run(ix, maxSize, ops[..|ops| - 1]), maxSize, ops[|ops| - 1])
  }

  // ---------- what a cached answer can be ----------

  /** A positive entry is the first label-free rule accepting its name; a negative entry
      exists only while no rule has label matchers and none accepts the name. */
  ghost predicate EntriesExplained(ix: Index) {
    forall k :: k in ix.cache.answers ==>
      if ix.cache.answers[k].Some? then ix.cache.answers[k] == FirstLabelFree(ix.rules, k)
      else !HasAnyLabelMatchers(ix.rules) && forall r :: r in ix.rules ==> !r.MatchesMetric(k)
  }

  ghost predicate Consistent(ix: Index, maxSize: int) {
    WellFormed(ix.cache, maxSize) && EntriesExplained(ix)
  }

  lemma NextKeepsConsistent(ix: Index, maxSize: int, op: Op)
    requires Consistent(ix, maxSize)
    ensures Consistent(Next(ix, maxSize, op), maxSize)
  {
    if op.Lookup? {
      var metric, labels := op.metric, op.labels;
      var got := AfterGet(ix.cache, maxSize, metric);
      GetKeepsShape(ix.cache, maxSize, metric);
      var r := FirstMatch(ix.rules, metric, labels);
      PutKeepsShape(got, maxSize, metric, r);
      ScanMeetsLabelFree(ix.rules, metric, labels);
      FirstMatchIsMatch(ix.rules, metric, labels);
      if r.None? && !HasAnyLabelMatchers(ix.rules) {
        forall q | q in ix.rules ensures !q.MatchesMetric(metric) {
          LabelFreeMatchesAll(q, labels);
        }
      }
      var c := AfterLookup(ix, maxSize, metric, labels);
      forall k | k in c.answers
        ensures if c.answers[k].Some? then c.answers[k] == FirstLabelFree(ix.rules, k)
                else !HasAnyLabelMatchers(ix.rules) && forall r :: r in ix.rules ==> !r.MatchesMetric(k)
      {
        if c == AfterPut(got, maxSize, metric, r) {
          PutAnswers(got, maxSize, metric, r, k);
        }
      }
    }
  }

  lemma {:induction false} RunKeepsConsistent(ix: Index, maxSize: int, ops: seq<Op>)
    requires Consistent(ix, maxSize)
    ensures Consistent(Run(ix, maxSize, ops), maxSize)
  {
    if ops != [] {
      RunKeepsConsistent(ix, maxSize, ops[..|ops| - 1]);
      NextKeepsConsistent(Run(ix, maxSize, ops[..|ops| - 1]), maxSize, ops[|ops| - 1]);
    }
  }

  lemma StartConsistent(rules: seq<Rule>, maxSize: int)
    ensures Consistent(Index(rules, EMPTY), maxSize)
  {
  }

  // ---------- cached lookup against the plain scan ----------

  /** In a consistent index a lookup is never wrong about whether a rule applies. */
  lemma AnswerIsMatch(ix: Index, maxSize: int, metric: string, labels: map<string, string>)
    requires Consistent(ix, maxSize)
    ensures var a := Answer(ix, maxSize, metric, labels);
            a.Some? ==> a.value in ix.rules && a.value.Matches(metric, labels)
    ensures Answer(ix, maxSize, metric, labels).None? <==>
              forall r :: r in ix.rules ==> !r.Matches(metric, labels)
  {
    FirstMatchIsMatch(ix.rules, metric, labels);
    FirstLabelFreeIsMatch(ix.rules, metric);
  }

  /** Exactly when one lookup disagrees with the scan: the name is cached and the scan
      would have stopped at a label-matching rule. */
  lemma AnswerDiffersExactly(ix: Index, maxSize: int, metric: string, labels: map<string, string>)
    requires Consistent(ix, maxSize)
    ensures Answer(ix, maxSize, metric, labels) == FirstMatch(ix.rules, metric, labels) <==>
            !(maxSize > 0 && metric in ix.cache.answers &&
              FirstMatch(ix.rules, metric, labels).Some? &&
              FirstMatch(ix.rules, metric, labels).value.HasLabelMatchers())
  {
    var scan := FirstMatch(ix.rules, metric, labels);
    FirstMatchIsMatch(ix.rules, metric, labels);
    ScanMeetsLabelFree(ix.rules, metric, labels);
    FirstLabelFreeIsMatch(ix.rules, metric);
    if metric in ix.cache.answers {
      var cached := ix.cache.answers[metric];
      if cached.Some? {
        LabelFreeMatchesAll(cached.value, labels);
      } else {
        assert scan.None?;
      }
    }
  }

  /** Every run of lookups, evictions, clears and reloads: a lookup answers "no rule" only
      if none matches, and otherwise with a rule in force that matches. */
  lemma LookupSoundOverRuns(rules: seq<Rule>, maxSize: int, ops: seq<Op>, metric: string, labels: map<string, string>)
    ensures var ix := Run(Index(rules, EMPTY), maxSize, ops);
            var a := Answer(ix, maxSize, metric, labels);
            && (a.Some? ==> a.value in ix.rules && a.value.Matches(metric, labels))
            && (a.None? <==> forall r :: r in ix.rules ==> !r.Matches(metric, labels))
  {
    StartConsistent(rules, maxSize);
    RunKeepsConsistent(Index(rules, EMPTY), maxSize, ops);
    AnswerIsMatch(Run(Index(rules, EMPTY), maxSize, ops), maxSize, metric, labels);
  }

  predicate OnlyLookups(ops: seq<Op>) {
    forall i :: 0 <= i < |ops| ==> !ops[i].Reload?
  }

  lemma {:induction false} LookupsKeepRules(ix: Index, maxSize: int, ops: seq<Op>)
    requires OnlyLookups(ops)
    ensures Run(ix, maxSize, ops).rules == ix.rules
  {
    if ops != [] {
      LookupsKeepRules(ix, maxSize, ops[..|ops| - 1]);
    }
  }

  /** Caching never changes an answer for this name while these rules are in force, whatever
      rules were in force first and whatever lookups, clears and reloads came before. */
  ghost predicate Faithful(rules: seq<Rule>, maxSize: int, metric: string) {
    forall first: seq<Rule>, ops: seq<Op>, labels: map<string, string> ::
      Run(Index(first, EMPTY), maxSize, ops).rules == rules ==>
      Answer(Run(Index(first, EMPTY), maxSize, ops), maxSize, metric, labels) == FirstMatch(rules, metric, labels)
  }

  /** The cache is faithful for a name exactly when no label-matching rule accepting the
      name precedes the first label-free rule accepting it, or the cache is off. */
  lemma FaithfulIff(rules: seq<Rule>, maxSize: int, metric: string)
    ensures Faithful(rules, maxSize, metric) <==> maxSize <= 0 || !LabelRulePrecedes(rules, metric)
  {
    var start := Index(rules, EMPTY);
    StartConsistent(rules, maxSize);
    if maxSize > 0 && LabelRulePrecedes(rules, metric) {
      var labels := PrecedingRuleWins(rules, metric);
      var warm := [Lookup(metric, map[])];
      assert warm[..|warm| - 1] == [];
      assert Run(start, maxSize, []) == start;
      ScanWithoutLabels(rules, metric);
      ScanMeetsLabelFree(rules, metric, labels);
      PrecedesHasLabelFree(rules, metric);
      FirstLabelFreeIsMatch(rules, metric);
      var ix := Run(start, maxSize, warm);
      assert ix == Next(start, maxSize, warm[0]);
      assert ix.rules == rules && ix.cache.answers == map[metric := FirstLabelFree(rules, metric)];
      RunKeepsConsistent(start, maxSize, warm);
      AnswerDiffersExactly(ix, maxSize, metric, labels);
      assert !Faithful(rules, maxSize, metric);
    } else {
      forall first: seq<Rule>, ops: seq<Op>, labels: map<string, string> |
        Run(Index(first, EMPTY), maxSize, ops).rules == rules
        ensures Answer(Run(Index(first, EMPTY), maxSize, ops), maxSize, metric, labels) ==
                FirstMatch(rules, metric, labels)
      {
        var ix := Run(Index(first, EMPTY), maxSize, ops);
        StartConsistent(first, maxSize);
        RunKeepsConsistent(Index(first, EMPTY), maxSize, ops);
        AnswerDiffersExactly(ix, maxSize, metric, labels);
        ScanMeetsLabelFree(rules, metric, labels);
        FirstLabelFreeIsMatch(rules, metric);
        FirstMatchIsMatch(rules, metric, labels);
      }
    }
  }

  lemma {:induction false} PrecedesHasLabelFree(rules: seq<Rule>, metric: string)
    requires LabelRulePrecedes(rules, metric)
    ensures FirstLabelFree(rules, metric).Some?
  {
    if !rules[0].MatchesMetric(metric) {
      PrecedesHasLabelFree(rules[1..], metric);
    }
  }

  // ---------- the LRU as a window of the lookup history ----------

  function Lookups(metrics: seq<string>, labels: seq<map<string, string>>): seq<Op>
    requires |metrics| == |labels|
  {
    seq(|metrics|, i requires 0 <= i < |metrics| => Lookup(metrics[i], labels[i]))
  }

  lemma LabelFreeHit(ix: Index, maxSize: int, metric: string, labels: map<string, string>)
    requires maxSize > 0 && Consistent(ix, maxSize)
    requires metric in ix.cache.answers
    ensures AfterLookup(ix, maxSize, metric, labels) == ix.cache.(order := Touch(ix.cache.order, metric))
    ensures |Touch(ix.cache.order, metric)| <= maxSize
  {
    assert metric in Elements(ix.cache.order);
    TouchElements(ix.cache.order, metric);
    FirstLabelFreeIsMatch(ix.rules, metric);
    if ix.cache.answers[metric].Some? {
      LabelFreeMatchesAll(ix.cache.answers[metric].value, labels);
    }
  }

  lemma LabelFreeMiss(ix: Index, maxSize: int, metric: string, labels: map<string, string>)
    requires maxSize > 0 && !HasAnyLabelMatchers(ix.rules)
    requires metric !in ix.cache.answers && metric !in ix.cache.order
    ensures AfterLookup(ix, maxSize, metric, labels).order == Take(maxSize, Touch(ix.cache.order, metric))
    ensures AfterLookup(ix, maxSize, metric, labels).misses == ix.cache.misses + 1
  {
    FirstMatchIsMatch(ix.rules, metric, labels);
    WithoutAbsent(ix.cache.order, metric);
    assert Take(maxSize, [metric] + ix.cache.order) == [metric] + Take(maxSize - 1, ix.cache.order);
  }

  /** One lookup in a rule set without label matchers: the name becomes the most recent
      one, and the list is cut to the capacity. */
  lemma LabelFreeLookup(ix: Index, maxSize: int, metric: string, labels: map<string, string>)
    requires maxSize > 0 && Consistent(ix, maxSize) && !HasAnyLabelMatchers(ix.rules)
    ensures AfterLookup(ix, maxSize, metric, labels).order == Take(maxSize, Touch(ix.cache.order, metric))
    ensures AfterLookup(ix, maxSize, metric, labels).misses ==
            ix.cache.misses + (if metric in ix.cache.order then 0 else 1)
  {
    assert metric in ix.cache.order <==> metric in Elements(ix.cache.order);
    if metric in ix.cache.answers {
      LabelFreeHit(ix, maxSize, metric, labels);
    } else {
      LabelFreeMiss(ix, maxSize, metric, labels);
    }
  }

  /** After any lookups in a rule set without label matchers, a cache of size m holds
      exactly the last m distinct names, most recent first, each with the scan's answer. */
  lemma {:induction false} CacheIsRecentWindow(rules: seq<Rule>, maxSize: int, metrics: seq<string>,
                                               labels: seq<map<string, string>>)
    requires maxSize > 0 && !HasAnyLabelMatchers(rules) && |metrics| == |labels|
    ensures var ix := Run(Index(rules, EMPTY), maxSize, Lookups(metrics, labels));
            && ix.rules == rules
            && ix.cache.order == Take(maxSize, Recency(metrics))
            && ix.cache.answers.Keys == Elements(Take(maxSize, Recency(metrics)))
            && forall k, l :: k in ix.cache.answers ==> ix.cache.answers[k] == FirstMatch(rules, k, l)
  {
    var start := Index(rules, EMPTY);
    var ops := Lookups(metrics, labels);
    StartConsistent(rules, maxSize);
    LookupsKeepRules(start, maxSize, ops);
    RunKeepsConsistent(start, maxSize, ops);
    if metrics != [] {
      var n := |metrics| - 1;
      CacheIsRecentWindow(rules, maxSize, metrics[..n], labels[..n]);
      assert ops[..n] == Lookups(metrics[..n], labels[..n]);
      var before := Run(start, maxSize, ops[..n]);
      RunKeepsConsistent(start, maxSize, ops[..n]);
      LabelFreeLookup(before, maxSize, metrics[n], labels[n]);
      TouchTake(Recency(metrics[..n]), metrics[n], maxSize);
    }
    var ix := Run(start, maxSize, ops);
    forall k, l | k in ix.cache.answers
      ensures ix.cache.answers[k] == FirstMatch(rules, k, l)
    {
      ScanMeetsLabelFree(rules, k, l);
      FirstMatchIsMatch(rules, k, l);
    }
  }

  lemma TakeMembers(small: int, large: int, s: seq<string>, k: string)
    requires 0 < small <= large && k in Take(small, s)
    ensures k in Take(large, s)
  {
    var i :| 0 <= i < |Take(small, s)| && Take(small, s)[i] == k;
    assert Take(large, s)[i] == k;
  }

  /** A larger cache never misses more on the same lookups. */
  lemma {:induction false} LargerCacheMissesNoMore(rules: seq<Rule>, small: int, large: int, metrics: seq<string>,
                                                   labels: seq<map<string, string>>)
    requires 0 < small <= large && !HasAnyLabelMatchers(rules) && |metrics| == |labels|
    ensures Run(Index(rules, EMPTY), large, Lookups(metrics, labels)).cache.misses <=
            Run(Index(rules, EMPTY), small, Lookups(metrics, labels)).cache.misses
  {
    if metrics != [] {
      var n := |metrics| - 1;
      var start := Index(rules, EMPTY);
      var ops := Lookups(metrics, labels);
      LargerCacheMissesNoMore(rules, small, large, metrics[..n], labels[..n]);
      CacheIsRecentWindow(rules, small, metrics[..n], labels[..n]);
      CacheIsRecentWindow(rules, large, metrics[..n], labels[..n]);
      assert ops[..n] == Lookups(metrics[..n], labels[..n]);
      StartConsistent(rules, small);
      StartConsistent(rules, large);
      RunKeepsConsistent(start, small, ops[..n]);
      RunKeepsConsistent(start, large, ops[..n]);
      LabelFreeLookup(Run(start, small, ops[..n]), small, metrics[n], labels[n]);
      LabelFreeLookup(Run(start, large, ops[..n]), large, metrics[n], labels[n]);
      if metrics[n] in Take(small, Recency(metrics[..n])) {
        TakeMembers(small, large, Recency(metrics[..n]), metrics[n]);
      }
    }
  }
}
