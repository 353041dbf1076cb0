/** Exactly which remote-write configurations bind (internal/prw/limits.go). */
module PrwExact {
  import opened Collections
  import opened PrwLimits
  import opened PrwBounds

  /** Equal names, limits, actions and mode; patterns and hash may differ. */
  ghost predicate SameShape(c: Config, d: Config) {
    && |c.rules| == |d.rules| && c.dryRun == d.dryRun
    && forall j :: 0 <= j < |c.rules| ==> SameLimits(c.rules[j], d.rules[j])
  }

  predicate SameLimits(a: Rule, b: Rule) {
    a.name == b.name && a.maxRate == b.maxRate && a.maxCardinality == b.maxCardinality && a.action == b.action
  }

  /** No run of a configuration of this shape keeps more datapoints than rule r's rate. */
  ghost predicate RateBinds(c: Config, r: nat)
    requires r < |c.rules|
  {
    forall d, now, events :: SameShape(c, d) ==>
      RunWatch(d, Fresh(now), NOTHING, r, events).kept <= c.rules[r].maxRate
  }

  /** No run of a configuration of this shape keeps more hashes than rule r's cardinality. */
  ghost predicate CardinalityBinds(c: Config, r: nat)
    requires r < |c.rules|
  {
    forall d, now, events :: SameShape(c, d) ==>
      |RunWatch(d, Fresh(now), NOTHING, r, events).hashes| <= c.rules[r].maxCardinality
  }

  // ---------- series and configurations to break a limit with ----------

  function Blank(n: nat): seq<Label> {
    seq(n, i => Label("l", ""))
  }

  function Filler(n: nat): Series {
    Series(Blank(n), 0, 0, 0)
  }

  /** n labels, one of them the metric name x. */
  function Tagged(n: nat, points: nat): Series
    requires n > 0
  {
    Series([Label(NAME_LABEL, "x")] + Blank(n - 1), points, 0, 0)
  }

  function Fillers(n: nat): seq<Series> {
    if n == 0 then [] else Fillers(n - 1) + [Filler(n)]
  }

  function Tags(from: nat, count: nat, points: nat): seq<Series>
    requires from > 0
    decreases count
  {
    if count == 0 then [] else [Tagged(from, points)] + Tags(from + 1, count - 1, points)
  }

  function Picks(i: nat, j: nat, r: nat): string -> bool {
    name => i == j || (i == r && name == "x")
  }

  function CountLabels(): seq<Label> -> nat {
    labels => |labels|
  }

  /** The same shape, where rule j accepts every series and rule r those named x, and the hash
      is the number of labels. */
  function Only(c: Config, j: nat, r: nat): Config {
    Config(seq(|c.rules|, i requires 0 <= i < |c.rules| => c.rules[i].(metric := Some(Picks(i, j, r)), labels := [])),
           c.dryRun, CountLabels())
  }

  lemma OnlyHasShape(c: Config, j: nat, r: nat)
    ensures SameShape(c, Only(c, j, r))
  {
  }

  lemma {:induction false} BlankHasNoName(n: nat)
    ensures LabelValue(Blank(n), NAME_LABEL) == ""
  {
    if n > 0 {
      BlankHasNoName(n - 1);
      assert Blank(n)[1..] == Blank(n - 1);
      assert Blank(n)[0].name == "l" && |NAME_LABEL| == 8;
    }
  }

  lemma OnlyMatches(c: Config, j: nat, r: nat, i: nat, n: nat, points: nat)
    requires i < |c.rules|
    ensures Matches(Only(c, j, r).rules[i], Filler(n)) <==> i == j
    ensures n > 0 ==> (Matches(Only(c, j, r).rules[i], Tagged(n, points)) <==> i == j || i == r)
  {
    BlankHasNoName(n);
    if n > 0 {
      assert Tagged(n, points).labels[0] == Label(NAME_LABEL, "x");
    }
  }

  // ---------- scanning ----------

  /** Rules that do not match are passed over. */
  lemma {:induction false} SkipTo(d: Config, st: Ledger, ts: Series, i: nat, j: nat)
    requires i <= j <= |d.rules| && forall q :: i <= q < j ==> !Matches(d.rules[q], ts)
    ensures Scan(d, st, ts, i) == Scan(d, st, ts, j)
    decreases j - i
  {
    if i < j {
      SkipTo(d, st, ts, i + 1, j);
    }
  }

  lemma {:induction false} Appended(d: Config, st: Ledger, w: Watch, r: nat, a: seq<Series>, b: seq<Series>)
    requires r < |d.rules|
    ensures AfterAll(d, st, a + b) == AfterAll(d, AfterAll(d, st, a), b)
    ensures ObserveAll(d, st, w, r, a + b) == ObserveAll(d, AfterAll(d, st, a), ObserveAll(d, st, w, r, a), r, b)
    decreases |a|
  {
    if a == [] {
      assert a + b == b;
    } else {
      assert (a + b)[1..] == a[1..] + b;
      Appended(d, AfterSeries(d, st, a[0]), Observe(d, w, r, a[0], Scan(d, st, a[0], 0).1), r, a[1..], b);
    }
  }

  /** Nothing has been counted yet. */
  predicate Uncharged(st: Ledger) {
    forall name :: name in st.counts ==> st.counts[name] == 0
  }

  function Range(from: nat, count: nat): set<nat> {
    if count == 0 then {} else Range(from, count - 1) + {from + count - 1}
  }

  lemma {:induction false} RangeIs(from: nat, count: nat)
    ensures forall h :: h in Range(from, count) <==> from <= h < from + count
    ensures |Range(from, count)| == count
    decreases count
  {
    if count > 0 {
      RangeIs(from, count - 1);
    }
  }

  // ---------- filling a rule's set ----------

  lemma FillOne(c: Config, j: nat, r: nat, st: Ledger, n: nat)
    requires j < |c.rules| && 0 < n <= c.rules[j].maxCardinality
    requires Uncharged(st) && SeenOf(st, c.rules[j].name) == Range(1, n - 1)
    ensures var d := Only(c, j, r); var t := AfterSeries(d, st, Filler(n));
            Uncharged(t) && SeenOf(t, c.rules[j].name) == Range(1, n)
  {
    var d, ts := Only(c, j, r), Filler(n);
    forall i | 0 <= i < |c.rules| ensures Matches(d.rules[i], ts) <==> i == j {
      OnlyMatches(c, j, r, i, n, 0);
    }
    assert |SeenOf(st, d.rules[j].name)| < d.rules[j].maxCardinality by {
      RangeIs(1, n - 1);
    }
    FillWith(d, st, ts, j);
    assert d.fingerprint(ts.labels) == n;
  }

  lemma FillWith(d: Config, st: Ledger, ts: Series, j: nat)
    requires j < |d.rules| && forall i :: 0 <= i < |d.rules| ==> (Matches(d.rules[i], ts) <==> i == j)
    requires Points(ts) == 0 && Uncharged(st) && |SeenOf(st, d.rules[j].name)| < d.rules[j].maxCardinality
    ensures var t := AfterSeries(d, st, ts);
            && Uncharged(t)
            && SeenOf(t, d.rules[j].name) == SeenOf(st, d.rules[j].name) + {d.fingerprint(ts.labels)}
  {
    FillVisit(d, st, d.rules[j], ts);
    OnlyOneVisited(d, st, ts, j);
    KeptKeepsState(d, st, ts);
  }

  lemma KeptKeepsState(d: Config, st: Ledger, ts: Series)
    requires Scan(d, st, ts, 0).1 == None
    ensures AfterSeries(d, st, ts) == Scan(d, st, ts, 0).0
  {
  }

  lemma OnlyOneVisited(d: Config, st: Ledger, ts: Series, j: nat)
    requires j < |d.rules| && forall i :: 0 <= i < |d.rules| ==> (Matches(d.rules[i], ts) <==> i == j)
    requires Visit(d, st, d.rules[j], ts).1
    ensures Scan(d, st, ts, 0) == (Visit(d, st, d.rules[j], ts).0, None)
  {
    SkipTo(d, st, ts, 0, j);
    SkipTo(d, Visit(d, st, d.rules[j], ts).0, ts, j + 1, |d.rules|);
  }

  /** A series without datapoints that is new to a set with room enters it. */
  lemma FillVisit(d: Config, st: Ledger, rule: Rule, ts: Series)
    requires Matches(rule, ts) && Points(ts) == 0 && Uncharged(st)
    requires |SeenOf(st, rule.name)| < rule.maxCardinality
    ensures var (t, ok) := Visit(d, st, rule, ts);
            && ok && Uncharged(t)
            && SeenOf(t, rule.name) == SeenOf(st, rule.name) + {d.fingerprint(ts.labels)}
  {
    assert CountOf(st, rule.name) == 0;
    assert !OverRate(st, rule, ts);
    var charged := ChargeRate(st, rule, ts);
    assert charged.seen == st.seen && !OverCardinality(d, charged, rule, ts);
  }

  lemma {:induction false} FillAll(c: Config, j: nat, r: nat, now: real, n: nat)
    requires j < |c.rules| && r < |c.rules| && n <= Max(0, c.rules[j].maxCardinality)
    ensures var d := Only(c, j, r); var t := AfterAll(d, Fresh(now), Fillers(n));
            && Uncharged(t) && SeenOf(t, c.rules[j].name) == Range(1, n)
            && ObserveAll(d, Fresh(now), NOTHING, r, Fillers(n)).kept == 0
  {
    if n == 0 {
      assert Range(1, 0) == {};
    } else {
      var d := Only(c, j, r);
      FillAll(c, j, r, now, n - 1);
      var st := AfterAll(d, Fresh(now), Fillers(n - 1));
      var w := ObserveAll(d, Fresh(now), NOTHING, r, Fillers(n - 1));
      FillOne(c, j, r, st, n);
      Appended(d, Fresh(now), NOTHING, r, Fillers(n - 1), [Filler(n)]);
      OneMore(d, st, w, r, Filler(n));
    }
  }

  lemma OneMore(d: Config, st: Ledger, w: Watch, r: nat, ts: Series)
    requires r < |d.rules|
    ensures AfterAll(d, st, [ts]) == AfterSeries(d, st, ts)
    ensures ObserveAll(d, st, w, r, [ts]) == Observe(d, w, r, ts, Scan(d, st, ts, 0).1)
  {
    var none: seq<Series> := [];
    assert [ts][1..] == none;
    assert ObserveAll(d, AfterSeries(d, st, ts), Observe(d, w, r, ts, Scan(d, st, ts, 0).1), r, none) ==
           Observe(d, w, r, ts, Scan(d, st, ts, 0).1);
  }

  // ---------- a rule that is violated and keeps ----------

  /** A violation of the rule does not drop. */
  predicate Lax(c: Config, j: nat)
    requires j < |c.rules|
  {
    HasLimit(c.rules[j]) && (c.dryRun || c.rules[j].action == Log)
  }

  /** The series violates the rule without being charged to it. */
  predicate Blocks(d: Config, st: Ledger, rule: Rule, ts: Series) {
    OverRate(st, rule, ts) || (rule.maxRate <= 0 && OverCardinality(d, st, rule, ts))
  }

  lemma BlockedOne(c: Config, j: nat, r: nat, st: Ledger, w: Watch, n: nat, points: nat)
    requires j <= r < |c.rules| && Lax(c, j) && n > 0
    requires Blocks(Only(c, j, r), st, Only(c, j, r).rules[j], Tagged(n, points))
    ensures var d := Only(c, j, r); var ts := Tagged(n, points); var t := AfterSeries(d, st, ts);
            && t.counts == st.counts && t.seen == st.seen
            && var after := Observe(d, w, r, ts, Scan(d, st, ts, 0).1);
               after.kept == w.kept + points && after.hashes == w.hashes + {n}
  {
    var d, ts := Only(c, j, r), Tagged(n, points);
    forall i | 0 <= i < |c.rules| ensures Matches(d.rules[i], ts) <==> i == j || i == r {
      OnlyMatches(c, j, r, i, n, points);
    }
    SkipTo(d, st, ts, 0, j);
    assert ChargeRate(st, d.rules[j], ts) == st || OverRate(st, d.rules[j], ts);
    assert Scan(d, st, ts, j).1 == Some(j);
  }

  lemma {:induction false} BlockedAll(c: Config, j: nat, r: nat, st: Ledger, w: Watch, from: nat, count: nat,
                                      points: nat)
    requires j <= r < |c.rules| && Lax(c, j) && from > 0
    requires forall n :: from <= n < from + count ==>
               Blocks(Only(c, j, r), st, Only(c, j, r).rules[j], Tagged(n, points))
    ensures var after := ObserveAll(Only(c, j, r), st, w, r, Tags(from, count, points));
            && after.kept >= w.kept + (if count > 0 then points else 0)
            && w.hashes <= after.hashes && forall n :: from <= n < from + count ==> n in after.hashes
    decreases count
  {
    if count > 0 {
      var d, ts := Only(c, j, r), Tagged(from, points);
      BlockedOne(c, j, r, st, w, from, points);
      var t := AfterSeries(d, st, ts);
      forall n | from + 1 <= n < from + count ensures Blocks(d, t, d.rules[j], Tagged(n, points)) {
        assert Blocks(d, st, d.rules[j], Tagged(n, points));
      }
      BlockedAll(c, j, r, t, Observe(d, w, r, ts, Scan(d, st, ts, 0).1), from + 1, count - 1, points);
      assert Tags(from, count, points)[1..] == Tags(from + 1, count - 1, points);
    }
  }

  ghost function OneBatch(all: seq<Series>, now: real): seq<Event> {
    [Batch(Some(Request(all, [])), now)]
  }

  lemma OneBatchWatch(d: Config, r: nat, all: seq<Series>, now: real)
    requires r < |d.rules|
    ensures RunWatch(d, Fresh(now), NOTHING, r, OneBatch(all, now)) == ObserveAll(d, Fresh(now), NOTHING, r, all)
  {
    var none: seq<Event> := [];
    assert OneBatch(all, now)[1..] == none;
  }

  /** A lax rule up to r keeps any number of series that match r, with any datapoints. */
  lemma LaxLeaks(c: Config, j: nat, r: nat, now: real, count: nat, points: nat) returns (all: seq<Series>)
    requires j <= r < |c.rules| && Lax(c, j) && points > c.rules[j].maxRate && count > 0
    ensures var w := RunWatch(Only(c, j, r), Fresh(now), NOTHING, r, OneBatch(all, now));
            w.kept >= points && |w.hashes| >= count
    ensures forall a, b :: a in all && b in all && |a.labels| == |b.labels| ==> a.labels == b.labels
  {
    var d := Only(c, j, r);
    var m := if c.rules[j].maxRate > 0 then 0 else c.rules[j].maxCardinality;
    FillAll(c, j, r, now, m);
    RangeIs(1, m);
    var st := AfterAll(d, Fresh(now), Fillers(m));
    var w := ObserveAll(d, Fresh(now), NOTHING, r, Fillers(m));
    forall n | m + 1 <= n < m + 1 + count ensures Blocks(d, st, d.rules[j], Tagged(n, points)) {
      assert n !in Range(1, m);
    }
    BlockedAll(c, j, r, st, w, m + 1, count, points);
    all := Fillers(m) + Tags(m + 1, count, points);
    Appended(d, Fresh(now), NOTHING, r, Fillers(m), Tags(m + 1, count, points));
    OneBatchWatch(d, r, all, now);
    var hashes := ObserveAll(d, Fresh(now), NOTHING, r, all).hashes;
    RangeIs(m + 1, count);
    SubsetCard(Range(m + 1, count), hashes);
    DistinctLengths(m, count, points);
  }

  lemma {:induction false} FillersAre(n: nat, ts: Series)
    requires ts in Fillers(n)
    ensures 0 < |ts.labels| <= n && ts.labels == Blank(|ts.labels|)
  {
    if n > 0 && ts != Filler(n) {
      FillersAre(n - 1, ts);
    }
  }

  lemma {:induction false} TagsAre(from: nat, count: nat, points: nat, ts: Series)
    requires from > 0 && ts in Tags(from, count, points)
    ensures from <= |ts.labels| < from + count && ts == Tagged(|ts.labels|, points)
    decreases count
  {
    if count > 0 && ts != Tagged(from, points) {
      TagsAre(from + 1, count - 1, points, ts);
    }
  }

  /** In such a batch the number of labels tells label lists apart. */
  lemma DistinctLengths(m: nat, count: nat, points: nat)
    ensures var all := Fillers(m) + Tags(m + 1, count, points);
            forall a, b :: a in all && b in all && |a.labels| == |b.labels| ==> a.labels == b.labels
  {
    var all := Fillers(m) + Tags(m + 1, count, points);
    forall a, b | a in all && b in all && |a.labels| == |b.labels| ensures a.labels == b.labels {
      forall t | t in all
        ensures if |t.labels| <= m then t.labels == Blank(|t.labels|)
                else t == Tagged(|t.labels|, points)
      {
        if t in Fillers(m) {
          FillersAre(m, t);
        } else {
          TagsAre(m + 1, count, points, t);
        }
      }
    }
  }

  // ---------- the rate ----------

  /** Exactly one way for a limit not to be strict. */
  lemma LaxIff(c: Config, r: nat)
    requires r < |c.rules| && HasLimit(c.rules[r])
    ensures !Strict(c, r) <==> exists j :: 0 <= j <= r && Lax(c, j)
  {
    if c.dryRun {
      assert Lax(c, r);
    } else if !Strict(c, r) {
      var j :| 0 <= j <= r && HasLimit(c.rules[j]) && c.rules[j].action != Drop;
      assert Lax(c, j);
    }
  }

  lemma ShapeKeepsConditions(c: Config, d: Config, r: nat)
    requires SameShape(c, d) && r < |c.rules|
    ensures Strict(c, r) ==> Strict(d, r)
    ensures Tightest(c, r) ==> Tightest(d, r)
  {
  }

  /** Kept datapoints of rule r stay within its rate in every run, for all patterns and hashes,
      if and only if the mode is enforcing and every rule up to r that has a limit drops. */
  lemma RateBindsIff(c: Config, r: nat)
    requires r < |c.rules| && c.rules[r].maxRate > 0
    ensures RateBinds(c, r) <==> Strict(c, r)
  {
    LaxIff(c, r);
    if Strict(c, r) {
      forall d, now, events | SameShape(c, d)
        ensures RunWatch(d, Fresh(now), NOTHING, r, events).kept <= c.rules[r].maxRate
      {
        ShapeKeepsConditions(c, d, r);
        StrictLimitsHold(d, now, r, events);
      }
    } else {
      var j :| 0 <= j <= r && Lax(c, j);
      var points := Max(Max(c.rules[j].maxRate, c.rules[r].maxRate), 0) + 1;
      var all := LaxLeaks(c, j, r, 0.0, 1, points);
      OnlyHasShape(c, j, r);
      assert RunWatch(Only(c, j, r), Fresh(0.0), NOTHING, r, OneBatch(all, 0.0)).kept > c.rules[r].maxRate;
    }
  }

  // ---------- the cardinality ----------

  /** Matching rules of one name whose set holds the series let an empty series pass. */
  lemma {:induction false} PassesAll(d: Config, st: Ledger, ts: Series, name: string, i: nat)
    requires i <= |d.rules| && Uncharged(st) && Points(ts) == 0 && d.fingerprint(ts.labels) in SeenOf(st, name)
    requires forall q :: 0 <= q < |d.rules| && Matches(d.rules[q], ts) ==> d.rules[q].name == name
    ensures Scan(d, st, ts, i).1 == None
    ensures Uncharged(Scan(d, st, ts, i).0) && SeenOf(Scan(d, st, ts, i).0, name) == SeenOf(st, name)
    decreases |d.rules| - i
  {
    if i < |d.rules| {
      var rule := d.rules[i];
      if Matches(rule, ts) {
        var known := SeenOf(st, name);
        assert known + {d.fingerprint(ts.labels)} == known;
        PassesAll(d, Remember(d, ChargeRate(st, rule, ts), rule, ts), ts, name, i + 1);
      } else {
        PassesAll(d, st, ts, name, i + 1);
      }
    }
  }

  /** Series that rule r alone would reject, but whose hashes another rule of its name has let in. */
  lemma {:induction false} SharedAll(c: Config, k: nat, r: nat, st: Ledger, w: Watch, from: nat, count: nat)
    requires k < |c.rules| && r < |c.rules| && c.rules[k].name == c.rules[r].name && from > 0 && Uncharged(st)
    requires forall n :: from <= n < from + count ==> n in SeenOf(st, c.rules[r].name)
    ensures var after := ObserveAll(Only(c, k, r), st, w, r, Tags(from, count, 0));
            w.hashes <= after.hashes && forall n :: from <= n < from + count ==> n in after.hashes
    decreases count
  {
    if count > 0 {
      var d, ts := Only(c, k, r), Tagged(from, 0);
      forall i | 0 <= i < |c.rules| ensures Matches(d.rules[i], ts) <==> i == k || i == r {
        OnlyMatches(c, k, r, i, from, 0);
      }
      PassesAll(d, st, ts, c.rules[r].name, 0);
      SharedAll(c, k, r, AfterSeries(d, st, ts), Observe(d, w, r, ts, None), from + 1, count - 1);
      assert Tags(from, count, 0)[1..] == Tags(from + 1, count - 1, 0);
    }
  }

  /** A rule of the same name with a larger cardinality lets colliding hashes in. */
  lemma WiderLeaks(c: Config, k: nat, r: nat, now: real) returns (all: seq<Series>)
    requires k < |c.rules| && r < |c.rules| && c.rules[k].name == c.rules[r].name
    requires 0 < c.rules[r].maxCardinality < c.rules[k].maxCardinality
    ensures |RunWatch(Only(c, k, r), Fresh(now), NOTHING, r, OneBatch(all, now)).hashes| > c.rules[r].maxCardinality
  {
    var d, n := Only(c, k, r), c.rules[r].maxCardinality + 1;
    FillAll(c, k, r, now, n);
    RangeIs(1, n);
    var st := AfterAll(d, Fresh(now), Fillers(n));
    SharedAll(c, k, r, st, ObserveAll(d, Fresh(now), NOTHING, r, Fillers(n)), 1, n);
    all := Fillers(n) + Tags(1, n, 0);
    Appended(d, Fresh(now), NOTHING, r, Fillers(n), Tags(1, n, 0));
    OneBatchWatch(d, r, all, now);
    RangeIs(1, n);
    SubsetCard(Range(1, n), ObserveAll(d, Fresh(now), NOTHING, r, all).hashes);
  }

  /** Kept hashes of rule r stay within its cardinality in every run, for all patterns and
      hashes, if and only if the mode is enforcing, every rule up to r that has a limit drops,
      and no rule of the same name has a larger cardinality. */
  lemma CardinalityBindsIff(c: Config, r: nat)
    requires r < |c.rules| && c.rules[r].maxCardinality > 0
    ensures CardinalityBinds(c, r) <==> Strict(c, r) && Tightest(c, r)
  {
    LaxIff(c, r);
    if Strict(c, r) && Tightest(c, r) {
      forall d, now, events | SameShape(c, d)
        ensures |RunWatch(d, Fresh(now), NOTHING, r, events).hashes| <= c.rules[r].maxCardinality
      {
        ShapeKeepsConditions(c, d, r);
        StrictLimitsHold(d, now, r, events);
      }
    } else if !Strict(c, r) {
      var j :| 0 <= j <= r && Lax(c, j);
      var all := LaxLeaks(c, j, r, 0.0, c.rules[r].maxCardinality + 1, Max(c.rules[j].maxRate, 0) + 1);
      OnlyHasShape(c, j, r);
      assert |RunWatch(Only(c, j, r), Fresh(0.0), NOTHING, r, OneBatch(all, 0.0)).hashes| > c.rules[r].maxCardinality;
    } else {
      var k :| 0 <= k < |c.rules| && c.rules[k].name == c.rules[r].name && c.rules[k].maxCardinality > 0 &&
               c.rules[k].maxCardinality > c.rules[r].maxCardinality;
      var all := WiderLeaks(c, k, r, 0.0);
      OnlyHasShape(c, k, r);
      assert |RunWatch(Only(c, k, r), Fresh(0.0), NOTHING, r, OneBatch(all, 0.0)).hashes| > c.rules[r].maxCardinality;
    }
  }
}
