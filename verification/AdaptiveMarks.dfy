/** Which groups one adaptive call marks, and what is left (internal/limits/enforcer.go). */
module AdaptiveMarks {
  import opened Collections
  import opened MetricModel
  import opened Trackers
  import opened Rules
  import opened LimitsSpec
  import opened LimitsRuns
  import opened LimitsTotals

  /** Group a may stand before group b: lower priority first, then larger contribution. */
  predicate Before(rule: Rule, rs: RuleStats, reason: Reason, a: string, b: string) {
    || GroupPriority(rule, a) < GroupPriority(rule, b)
    || (GroupPriority(rule, a) == GroupPriority(rule, b) && Contribution(rs, reason, a) >= Contribution(rs, reason, b))
  }

  /** An outcome of the sort: every group once, in drop order. Ties may fall either way. */
  ghost predicate DropOrder(rule: Rule, rs: RuleStats, reason: Reason, order: seq<string>) {
    && Distinct(order) && Elements(order) == rs.groups.Keys
    && forall i, j :: 0 <= i < j < |order| ==> Before(rule, rs, reason, order[i], order[j])
  }

  // ---------- the shortest prefix ----------

  /** Needed is the least number of leading contributions whose sum reaches the excess. */
  lemma {:induction false} NeededIsLeast(c: seq<nat>, excess: int)
    requires excess <= Sum(c)
    ensures Needed(c, excess) <= |c|
    ensures Sum(c[..Needed(c, excess)]) >= excess
    ensures forall k :: 0 <= k < Needed(c, excess) ==> Sum(c[..k]) < excess
  {
    if c != [] && excess > 0 {
      var rest := Needed(c[1..], excess - c[0]);
      NeededIsLeast(c[1..], excess - c[0]);
      assert c[..rest + 1] == [c[0]] + c[1..][..rest];
      forall k | 0 <= k < rest + 1 ensures Sum(c[..k]) < excess {
        if k > 0 {
          assert c[..k] == [c[0]] + c[1..][..k - 1];
        }
      }
    }
  }

  lemma TailEnumerates(keys: set<string>, order: seq<string>)
    requires Distinct(order) && Elements(order) == keys && order != []
    ensures Distinct(order[1..]) && Elements(order[1..]) == keys - {order[0]} && order[0] in keys
  {
    assert forall i :: 0 <= i < |order| - 1 ==> order[1..][i] == order[i + 1];
    assert order == [order[0]] + order[1..];
    assert order[0] in Elements(order);
    assert order[0] !in order[1..];
  }

  /** Summing along any enumeration of the groups gives the sum over the map. */
  lemma {:induction false} SumEnumerated(groups: map<string, GroupStats>, f: GroupStats -> nat, order: seq<string>,
                                         c: seq<nat>)
    requires Distinct(order) && Elements(order) == groups.Keys && |c| == |order|
    requires forall i :: 0 <= i < |order| ==> order[i] in groups && c[i] == f(groups[order[i]])
    ensures Sum(c) == SumBy(groups, f)
    decreases |order|
  {
    if order == [] {
      assert groups == map[];
    } else {
      TailEnumerates(groups.Keys, order);
      var rest := groups - {order[0]};
      assert rest.Keys == groups.Keys - {order[0]};
      forall i | 0 <= i < |order| - 1
        ensures order[1..][i] in rest && c[1..][i] == f(rest[order[1..][i]])
      {
        assert order[1..][i] == order[i + 1] && order[i + 1] != order[0];
      }
      SumEnumerated(rest, f, order[1..], c[1..]);
      SumByRemove(groups, f, order[0]);
    }
  }

  function Total(rs: RuleStats, reason: Reason): nat {
    if reason.Cardinality? then rs.totalCard else rs.totalDPs
  }

  function Limit(rule: Rule, reason: Reason): int {
    if reason.Cardinality? then rule.maxCardinality else rule.maxDatapoints
  }

  lemma ContributionsAddUp(rule: Rule, rs: RuleStats, reason: Reason, order: seq<string>)
    requires Balanced(rs) && DropOrder(rule, rs, reason, order)
    ensures Sum(Contributions(rs, reason, order)) == Total(rs, reason)
  {
    assert forall i :: 0 <= i < |order| ==> order[i] in Elements(order);
    if reason.Cardinality? {
      SumEnumerated(rs.groups, SeriesOf, order, Contributions(rs, reason, order));
    } else {
      SumEnumerated(rs.groups, PointsOf, order, Contributions(rs, reason, order));
    }
  }

  /** One adaptive call with a positive excess marks the shortest prefix of the drop order
      whose contributions reach the excess; what stays unmarked fits the limit again. */
  lemma MarksShortestPrefix(rule: Rule, rs: RuleStats, reason: Reason, order: seq<string>)
    requires Balanced(rs) && DropOrder(rule, rs, reason, order)
    requires Limit(rule, reason) > 0 && Excess(rs, rule, reason) > 0
    ensures var c := Contributions(rs, reason, order);
            var k := MarkCount(rs, rule, reason, order);
            && 0 < k <= |order|
            && Sum(c[..k]) >= Excess(rs, rule, reason)
            && (forall j :: 0 <= j < k ==> Sum(c[..j]) < Excess(rs, rule, reason))
            && Sum(c[k..]) <= Limit(rule, reason)
    ensures Marked(rs, rule, reason, order) <= rs.groups.Keys
    ensures |Marked(rs, rule, reason, order)| == MarkCount(rs, rule, reason, order)
  {
    var c := Contributions(rs, reason, order);
    var excess := Excess(rs, rule, reason);
    ContributionsAddUp(rule, rs, reason, order);
    NeededIsLeast(c, excess);
    var k := MarkCount(rs, rule, reason, order);
    if k == 0 {
      assert c[..0] == [];
    }
    SumSplit(c, k);
    assert Marked(rs, rule, reason, order) == Elements(order[..k]);
    DistinctCard(order[..k]);
    forall g | g in Elements(order[..k]) ensures g in rs.groups.Keys {
      assert g in Elements(order);
    }
  }

  /** No unmarked group has lower priority than a marked one, nor, at equal priority, a
      larger contribution. */
  lemma MarkedBeforeUnmarked(rule: Rule, rs: RuleStats, reason: Reason, order: seq<string>, a: string, b: string)
    requires DropOrder(rule, rs, reason, order)
    requires a in Marked(rs, rule, reason, order) && b in rs.groups && b !in Marked(rs, rule, reason, order)
    ensures Before(rule, rs, reason, a, b)
  {
    var k := MarkCount(rs, rule, reason, order);
    var i :| 0 <= i < k && order[i] == a;
    assert b in Elements(order);
    var j :| 0 <= j < |order| && order[j] == b;
    assert forall h :: 0 <= h < k ==> order[h] in order[..k];
    assert j >= k;
  }

  // ---------- adaptive steps of a run ----------

  /** The metric reaches the adaptive action with a positive excess, and the sort yields an order
      it can yield. */
  ghost predicate Overdrawn(env: Env, w: Window, rule: Rule, m: Metric, res: map<string, string>, rd: Reading) {
    var c := CheckOf(env, w, rule, m, res, rd);
    && !IsMarked(w, rule.name, GroupKey(rule, res, m), rd.dropCheck) && !LabelRefused(w, rule, m, res, rd)
    && c.exceeded.Some? && Effective(c.win, rule, c.exceeded.value).action.Adaptive?
    && rule.name in c.win.stats && Excess(c.win.stats[rule.name], rule, c.exceeded.value) > 0
    && DropOrder(rule, c.win.stats[rule.name], c.exceeded.value, rd.offenders)
  }

  /** The first k groups of the order are the fewest whose contributions reach the excess, and
      the others together fit the limit. */
  ghost predicate Covering(rs: RuleStats, rule: Rule, reason: Reason, order: seq<string>, k: nat)
    requires k <= |order|
  {
    var c := Contributions(rs, reason, order);
    && Sum(c[..k]) >= Excess(rs, rule, reason)
    && (forall j :: 0 <= j < k ==> Sum(c[..j]) < Excess(rs, rule, reason))
    && Sum(c[k..]) <= Limit(rule, reason)
  }

  /** n more datapoints are counted under the name, as dropped or as passed. */
  predicate CountedAs(a: Tally, b: Tally, name: string, dropped: bool, n: nat) {
    && Get(b.dropped, name) == Get(a.dropped, name) + (if dropped then n else 0)
    && Get(b.passed, name) == Get(a.passed, name) + (if dropped then 0 else n)
  }

  /** A reported violation is one of a limit that is set. */
  lemma ExceededIsLimited(env: Env, w: Window, rule: Rule, group: string, m: Metric, res: map<string, string>, now: int)
    ensures var c := UpdateAndCheck(env, w, rule, group, m, res, now);
            c.exceeded.Some? ==> Limit(rule, c.exceeded.value) > 0
  {
  }

  /** The marks and the fate of the current metric. */
  lemma AdaptiveOutcome(s: State, rule: Rule, group: string, m: Metric, reason: Reason, order: seq<string>)
    requires rule.name in s.win.stats && Excess(s.win.stats[rule.name], rule, reason) > 0
    ensures var (t, out) := AdaptiveDrop(false, s, rule, group, m, reason, order);
            && t.win.stats == s.win.stats
            && RuleMarks(t.win, rule.name).Keys ==
               RuleMarks(s.win, rule.name).Keys + Marked(s.win.stats[rule.name], rule, reason, order)
            && (out.None? <==> group in RuleMarks(t.win, rule.name))
            && CountedAs(s.tally, t.tally, rule.name, out.None?, |m.points|)
  {
  }

  /** In every run, reloads included, every adaptive step with a positive excess marks the
      shortest prefix of the drop order that covers it, leaves groups that fit the limit, keeps
      earlier marks, and drops the current metric, and counts it so, if and only if its group is
      now marked. */
  lemma AdaptiveStepCovers(env: Env, cacheSize: int, rules: seq<Rule>, dry: seq<bool>, events: seq<Event>,
                           rule: Rule, m: Metric, res: map<string, string>, rd: Reading)
    requires |dry| == |events| && env.empty.Fresh()
    ensures var s := After(env, cacheSize, Start(rules), dry, events).core;
            Overdrawn(env, s.win, rule, m, res, rd) ==>
              var c := CheckOf(env, s.win, rule, m, res, rd);
              var rs, reason := c.win.stats[rule.name], c.exceeded.value;
              var k := MarkCount(rs, rule, reason, rd.offenders);
              var (t, out) := Matched(env, false, s, rule, m, res, rd);
              && 0 < k <= |rd.offenders| && Covering(rs, rule, reason, rd.offenders, k)
              && RuleMarks(t.win, rule.name).Keys == RuleMarks(c.win, rule.name).Keys + Elements(rd.offenders[..k])
              && (out.None? <==> GroupKey(rule, res, m) in RuleMarks(t.win, rule.name))
              && CountedAs(s.tally, t.tally, rule.name, out.None?, |m.points|)
  {
    TotalsOverRuns(env, cacheSize, rules, dry, events);
    var s := After(env, cacheSize, Start(rules), dry, events).core;
    if Overdrawn(env, s.win, rule, m, res, rd) {
      SoundStepCovers(env, s, rule, m, res, rd);
    }
  }

  lemma SoundStepCovers(env: Env, s: State, rule: Rule, m: Metric, res: map<string, string>, rd: Reading)
    requires Sound(s.win) && env.empty.Fresh() && Overdrawn(env, s.win, rule, m, res, rd)
    ensures var c := CheckOf(env, s.win, rule, m, res, rd);
            var rs, reason := c.win.stats[rule.name], c.exceeded.value;
            var k := MarkCount(rs, rule, reason, rd.offenders);
            var (t, out) := Matched(env, false, s, rule, m, res, rd);
            && 0 < k <= |rd.offenders| && Covering(rs, rule, reason, rd.offenders, k)
            && RuleMarks(t.win, rule.name).Keys == RuleMarks(c.win, rule.name).Keys + Elements(rd.offenders[..k])
            && (out.None? <==> GroupKey(rule, res, m) in RuleMarks(t.win, rule.name))
            && CountedAs(s.tally, t.tally, rule.name, out.None?, |m.points|)
  {
    var w1 := AfterLabelCheck(s.win, rule, m, res, rd);
    var m1, group := LabelStripped(s.win, rule, m, res, rd), GroupKey(rule, res, m);
    assert Sound(w1);
    UpdateKeeps(env, w1, rule, group, m1, res, rd.window);
    ExceededIsLimited(env, w1, rule, group, m1, res, rd.window);
    var c := CheckOf(env, s.win, rule, m, res, rd);
    var reason := c.exceeded.value;
    MarksShortestPrefix(rule, c.win.stats[rule.name], reason, rd.offenders);
    var seen := Violate(s.(win := c.win), rule.name, reason);
    AdaptiveOutcome(seen, rule, group, m1, reason, rd.offenders);
    MatchedIsAdaptive(env, s, rule, m, res, rd);
  }

  lemma MatchedIsAdaptive(env: Env, s: State, rule: Rule, m: Metric, res: map<string, string>, rd: Reading)
    ensures var c := CheckOf(env, s.win, rule, m, res, rd);
            Overdrawn(env, s.win, rule, m, res, rd) ==>
            Matched(env, false, s, rule, m, res, rd) ==
            AdaptiveDrop(false, Violate(s.(win := c.win), rule.name, c.exceeded.value), rule, GroupKey(rule, res, m),
                         LabelStripped(s.win, rule, m, res, rd), c.exceeded.value, rd.offenders)
  {
    var s1 := s.(win := AfterLabelCheck(s.win, rule, m, res, rd));
    var m1, group := LabelStripped(s.win, rule, m, res, rd), GroupKey(rule, res, m);
    if Overdrawn(env, s.win, rule, m, res, rd) {
      LimitedIsAdaptive(env, s1, rule, group, m1, res, rd);
    }
  }

  lemma ActIsAdaptive(env: Env, s: State, rule: Rule, eff: Rule, group: string, m: Metric, res: map<string, string>,
                      reason: Reason, order: seq<string>)
    requires eff.action.Adaptive?
    ensures Act(env, false, s, rule, eff, group, m, res, reason, order) ==
            AdaptiveDrop(false, s, rule, group, m, reason, order)
  {
  }

  lemma LimitedIsAdaptive(env: Env, s: State, rule: Rule, group: string, m: Metric, res: map<string, string>,
                          rd: Reading)
    requires var c := UpdateAndCheck(env, s.win, rule, group, m, res, rd.window);
             c.exceeded.Some? && Effective(c.win, rule, c.exceeded.value).action.Adaptive?
    ensures var c := UpdateAndCheck(env, s.win, rule, group, m, res, rd.window);
            Limited(env, false, s, rule, group, m, res, rd) ==
            AdaptiveDrop(false, Violate(s.(win := c.win), rule.name, c.exceeded.value), rule, group, m,
                         c.exceeded.value, rd.offenders)
  {
    var c := UpdateAndCheck(env, s.win, rule, group, m, res, rd.window);
    ActIsAdaptive(env, Violate(s.(win := c.win), rule.name, c.exceeded.value), rule,
                  Effective(c.win, rule, c.exceeded.value), group, m, res, c.exceeded.value, rd.offenders);
  }

  /** A reload that puts a limit below the current total makes the next metric of the rule's open
      window a violation, and if that limit is the one reported, with a positive excess. */
  lemma LoweredLimitOverdraws(env: Env, w: Window, lowered: seq<Rule>, rule: Rule, reason: Reason, group: string,
                              m: Metric, res: map<string, string>, now: int)
    requires rule in lowered && rule.name in w.stats && now <= w.stats[rule.name].windowEnd
    requires group in w.stats[rule.name].groups || |w.stats[rule.name].groups| < MAX_GROUPS
    requires 0 < Limit(rule, reason) < Total(w.stats[rule.name], reason)
    ensures var c := UpdateAndCheck(env, Reloaded(w, lowered), rule, group, m, res, now);
            && c.exceeded.Some? && rule.name in c.win.stats
            && (c.exceeded.value == reason ==> Excess(c.win.stats[rule.name], rule, reason) > 0)
  {
    var i :| 0 <= i < |lowered| && lowered[i] == rule;
    assert rule.name in RuleNames(lowered);
    var r := Reloaded(w, lowered);
    assert r.stats[rule.name] == w.stats[rule.name];
    assert Windowed(r, rule.name, now) == r;
  }

  /** In a reachable state a mark drops its group exactly until the rule's window ends: before
      that every metric of the group is dropped without touching any window state. */
  lemma MarkedUntilWindowEnd(env: Env, s: State, rule: Rule, m: Metric, res: map<string, string>, rd: Reading)
    requires MarksExpireWithWindow(s.win) && GroupKey(rule, res, m) in RuleMarks(s.win, rule.name)
    ensures rule.name in s.win.stats
    ensures IsMarked(s.win, rule.name, GroupKey(rule, res, m), rd.dropCheck) <==>
            rd.dropCheck < s.win.stats[rule.name].windowEnd
    ensures rd.dropCheck < s.win.stats[rule.name].windowEnd ==>
              Matched(env, false, s, rule, m, res, rd) == (Lose(s, rule.name, |m.points|), None)
  {
    var g := GroupKey(rule, res, m);
    assert rule.name in s.win.marks && g in s.win.marks[rule.name];
  }

  // ---------- sorting and marking in place ----------

  /** Place one group into a drop order of the others. */
  method InsertOffender(rule: Rule, rs: RuleStats, reason: Reason, order: seq<string>, g: string)
    returns (r: seq<string>)
    requires g !in order && Distinct(order)
    requires forall i, j :: 0 <= i < j < |order| ==> Before(rule, rs, reason, order[i], order[j])
    ensures Distinct(r) && Elements(r) == Elements(order) + {g}
    ensures forall i, j :: 0 <= i < j < |r| ==> Before(rule, rs, reason, r[i], r[j])
  {
    var p := 0;
    while p < |order| && Before(rule, rs, reason, order[p], g)
      invariant 0 <= p <= |order|
      invariant forall i :: 0 <= i < p ==> Before(rule, rs, reason, order[i], g)
    {
      p := p + 1;
    }
    r := order[..p] + [g] + order[p..];
    assert Elements(r) == Elements(order) + {g} by {
      assert order == order[..p] + order[p..];
    }
    forall j | p <= j < |order| ensures Before(rule, rs, reason, g, order[j]) {
      assert Before(rule, rs, reason, g, order[p]);
      assert j > p ==> Before(rule, rs, reason, order[p], order[j]);
    }
  }

  /** The groups of a rule in some drop order: one exists, and the sort finds it. */
  method RankOffenders(rule: Rule, rs: RuleStats, reason: Reason) returns (order: seq<string>)
    ensures DropOrder(rule, rs, reason, order)
  {
    order := [];
    var left := rs.groups.Keys;
    while left != {}
      invariant left <= rs.groups.Keys
      invariant Distinct(order) && Elements(order) == rs.groups.Keys - left
      invariant forall i, j :: 0 <= i < j < |order| ==> Before(rule, rs, reason, order[i], order[j])
      decreases |left|
    {
      var g :| g in left;
      assert g !in Elements(order);
      order := InsertOffender(rule, rs, reason, order, g);
      left := left - {g};
    }
  }
}
