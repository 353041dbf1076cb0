/** Group keys are read back for their priority (internal/limits/enforcer.go): when that
    works, and when two groups share a key. */
module GroupKeys {
  import opened Collections
  import opened Rules
  import opened LimitsSpec

  ghost predicate CommaFree(s: string) {
    ',' !in s
  }

  // ---------- splitting undoes joining ----------

  lemma {:induction false} SplitPlain(s: string)
    requires CommaFree(s)
    ensures Split(s) == [s]
  {
    if s != "" {
      SplitPlain(s[1..]);
      assert s == [s[0]] + s[1..];
    }
  }

  lemma {:induction false} SplitAtComma(s: string, rest: string)
    requires CommaFree(s)
    ensures Split(s + "," + rest) == [s] + Split(rest)
  {
    var whole := s + "," + rest;
    if s == "" {
      assert whole[1..] == rest;
    } else {
      assert whole[1..] == s[1..] + "," + rest && whole[0] == s[0];
      SplitAtComma(s[1..], rest);
      assert Split(whole[1..])[1..] == Split(rest);
      assert s == [s[0]] + s[1..];
    }
  }

  lemma {:induction false} SplitOfJoin(parts: seq<string>)
    requires parts != [] && forall i :: 0 <= i < |parts| ==> CommaFree(parts[i])
    ensures Split(Join(parts)) == parts
  {
    if |parts| == 1 {
      SplitPlain(parts[0]);
    } else {
      SplitOfJoin(parts[1..]);
      SplitAtComma(parts[0], Join(parts[1..]));
      assert parts == [parts[0]] + parts[1..];
    }
  }

  // ---------- parts ----------

  function Part(l: string, attrs: map<string, string>): string
    requires l in attrs
  {
    l + "=" + attrs[l]
  }

  /** Label names without comma or equals sign, and values without a comma. */
  ghost predicate Plain(groupBy: seq<string>, attrs: map<string, string>) {
    forall l :: l in groupBy ==> CommaFree(l) && '=' !in l && (l in attrs ==> CommaFree(attrs[l]))
  }

  /** The parts are those of the grouping labels that are present. */
  lemma {:induction false} PartsAre(groupBy: seq<string>, attrs: map<string, string>, p: string)
    ensures p in Parts(groupBy, attrs) <==> exists l :: l in groupBy && l in attrs && p == Part(l, attrs)
    decreases |groupBy|
  {
    if groupBy != [] {
      var n := |groupBy| - 1;
      PartsAre(groupBy[..n], attrs, p);
      assert groupBy == groupBy[..n] + [groupBy[n]];
      assert groupBy[n] in groupBy;
      assert forall l :: l in groupBy[..n] ==> l in groupBy;
    }
  }

  lemma {:induction false} PartsPlain(groupBy: seq<string>, attrs: map<string, string>)
    requires Plain(groupBy, attrs)
    ensures forall i :: 0 <= i < |Parts(groupBy, attrs)| ==> CommaFree(Parts(groupBy, attrs)[i])
    decreases |groupBy|
  {
    if groupBy != [] {
      var n := |groupBy| - 1;
      assert forall l :: l in groupBy[..n] ==> l in groupBy;
      PartsPlain(groupBy[..n], attrs);
      assert groupBy[n] in groupBy;
    }
  }

  /** A label without an equals sign can be read off the front of its part. */
  lemma PrefixIsLabel(key: string, l: string, value: string)
    requires '=' !in key && '=' !in l && key + "=" <= l + "=" + value
    ensures key == l
  {
    var k, p := key + "=", l + "=" + value;
    assert k[|key|] == '=' && p[|l|] == '=';
    assert forall i :: 0 <= i < |k| ==> k[i] == p[i];
    assert forall i :: 0 <= i < |key| ==> k[i] == key[i] && key[i] in key;
    assert forall i :: 0 <= i < |l| ==> p[i] == l[i] && l[i] in l;
    assert |key| == |l|;
    assert forall i :: 0 <= i < |l| ==> key[i] == l[i];
  }

  // ---------- priorities ----------

  function RankOr(p: Priority, value: string): int {
    var rank := Rank(p.order, value);
    if rank.Some? then rank.value else p.fallback
  }

  lemma {:induction false} PartPriorityAppend(a: seq<string>, b: seq<string>, p: Priority)
    ensures PartPriority(a + b, p) ==
            if exists i :: 0 <= i < |a| && p.key + "=" <= a[i] then PartPriority(a, p) else PartPriority(b, p)
    decreases |a|
  {
    if a == [] {
      assert a + b == b;
    } else {
      assert (a + b)[1..] == a[1..] + b;
      PartPriorityAppend(a[1..], b, p);
      assert forall i :: 0 <= i < |a| - 1 ==> a[1..][i] == a[i + 1];
      assert forall i :: 0 < i < |a| ==> a[i] == a[1..][i - 1];
    }
  }

  lemma {:induction false} PartsPriority(groupBy: seq<string>, attrs: map<string, string>, p: Priority)
    requires Plain(groupBy, attrs) && '=' !in p.key
    ensures PartPriority(Parts(groupBy, attrs), p) ==
            if p.key in groupBy && p.key in attrs then RankOr(p, attrs[p.key]) else p.fallback
    ensures (exists i :: 0 <= i < |Parts(groupBy, attrs)| && p.key + "=" <= Parts(groupBy, attrs)[i]) <==>
            p.key in groupBy && p.key in attrs
    decreases |groupBy|
  {
    if groupBy != [] {
      var n := |groupBy| - 1;
      var l, before := groupBy[n], Parts(groupBy[..n], attrs);
      assert groupBy == groupBy[..n] + [l] && l in groupBy;
      assert forall x :: x in groupBy[..n] ==> x in groupBy;
      PartsPriority(groupBy[..n], attrs, p);
      if l in attrs {
        var part := Part(l, attrs);
        PartPriorityAppend(before, [part], p);
        LastPart(l, attrs, p);
        assert Parts(groupBy, attrs) == before + [part];
        assert (before + [part])[|before|] == part;
        assert forall i :: 0 <= i < |before| ==> (before + [part])[i] == before[i];
      } else {
        assert Parts(groupBy, attrs) == before;
      }
    }
  }

  lemma LastPart(l: string, attrs: map<string, string>, p: Priority)
    requires l in attrs && '=' !in l && '=' !in p.key
    ensures p.key + "=" <= Part(l, attrs) <==> p.key == l
    ensures PartPriority([Part(l, attrs)], p) == if p.key == l then RankOr(p, attrs[l]) else p.fallback
  {
    var part := Part(l, attrs);
    if p.key + "=" <= part {
      PrefixIsLabel(p.key, l, attrs[l]);
    }
    if p.key == l {
      assert part[..|l| + 1] == l + "=";
      assert part[|l| + 1..] == attrs[l];
    }
    var none: seq<string> := [];
    assert [part][1..] == none && PartPriority(none, p) == p.fallback;
  }

  /** The priority read back from a group key is the rank of the group's own label value, and
      the fallback if the group has no such label. */
  lemma PriorityOfKey(rule: Rule, attrs: map<string, string>)
    requires rule.priority.Some? && '=' !in rule.priority.value.key && Plain(rule.groupBy, attrs)
    ensures var p := rule.priority.value;
            GroupPriority(rule, Join(Parts(rule.groupBy, attrs))) ==
            if p.key in rule.groupBy && p.key in attrs then RankOr(p, attrs[p.key]) else p.fallback
  {
    var parts := Parts(rule.groupBy, attrs);
    PartsPriority(rule.groupBy, attrs, rule.priority.value);
    if parts == [] {
      assert Split("") == [""];
      assert [""][1..] == [];
    } else {
      PartsPlain(rule.groupBy, attrs);
      SplitOfJoin(parts);
    }
  }

  /** The first value of the configured order ranks highest, and ranks fall along it. */
  lemma {:induction false} RankOfPosition(order: seq<string>, i: nat)
    requires Distinct(order) && i < |order|
    ensures Rank(order, order[i]) == Some(|order| - i)
    decreases |order|
  {
    if i == 0 {
      RankAbsent(order[1..], order[0]);
    } else {
      RankOfPosition(order[1..], i - 1);
    }
  }

  lemma {:induction false} RankAbsent(order: seq<string>, value: string)
    requires forall i :: 0 <= i < |order| ==> order[i] != value
    ensures Rank(order, value) == None
    decreases |order|
  {
    if order != [] {
      RankAbsent(order[1..], value);
    }
  }

  // ---------- distinct groups have distinct keys ----------

  lemma {:induction false} PartsNotEmpty(groupBy: seq<string>, attrs: map<string, string>)
    ensures forall i :: 0 <= i < |Parts(groupBy, attrs)| ==> Parts(groupBy, attrs)[i] != ""
    decreases |groupBy|
  {
    if groupBy != [] {
      PartsNotEmpty(groupBy[..|groupBy| - 1], attrs);
    }
  }

  /** Equal parts mean equal values: half of the comparison. */
  lemma PartsDetermine(groupBy: seq<string>, a: map<string, string>, b: map<string, string>, l: string)
    requires Plain(groupBy, a) && Plain(groupBy, b) && Parts(groupBy, a) == Parts(groupBy, b)
    requires l in groupBy && l in a
    ensures l in b && a[l] == b[l]
  {
    var p := Part(l, a);
    PartsAre(groupBy, a, p);
    PartsAre(groupBy, b, p);
    var k :| k in groupBy && k in b && p == Part(k, b);
    assert k + "=" <= p;
    PrefixIsLabel(k, l, a[l]);
    assert p[|l| + 1..] == a[l] && Part(k, b)[|k| + 1..] == b[k];
  }

  /** Two attribute sets share a group key if and only if they agree on every grouping label. */
  lemma SameKeyIff(groupBy: seq<string>, a: map<string, string>, b: map<string, string>)
    requires Plain(groupBy, a) && Plain(groupBy, b)
    ensures Join(Parts(groupBy, a)) == Join(Parts(groupBy, b)) <==>
            forall l :: l in groupBy ==> (l in a <==> l in b) && (l in a ==> a[l] == b[l])
  {
    if Join(Parts(groupBy, a)) == Join(Parts(groupBy, b)) {
      PartsPlain(groupBy, a);
      PartsPlain(groupBy, b);
      PartsNotEmpty(groupBy, a);
      PartsNotEmpty(groupBy, b);
      var x, y := Parts(groupBy, a), Parts(groupBy, b);
      if x != [] {
        SplitOfJoin(x);
      }
      if y != [] {
        SplitOfJoin(y);
      }
      forall l | l in groupBy ensures (l in a <==> l in b) && (l in a ==> a[l] == b[l]) {
        if l in a {
          PartsDetermine(groupBy, a, b, l);
        } else if l in b {
          PartsDetermine(groupBy, b, a, l);
        }
      }
    } else if forall l :: l in groupBy ==> (l in a <==> l in b) && (l in a ==> a[l] == b[l]) {
      PartsAgree(groupBy, a, b);
    }
  }

  lemma {:induction false} PartsAgree(groupBy: seq<string>, a: map<string, string>, b: map<string, string>)
    requires forall l :: l in groupBy ==> (l in a <==> l in b) && (l in a ==> a[l] == b[l])
    ensures Parts(groupBy, a) == Parts(groupBy, b)
    decreases |groupBy|
  {
    if groupBy != [] {
      var n := |groupBy| - 1;
      assert forall l :: l in groupBy[..n] ==> l in groupBy;
      assert groupBy[n] in groupBy;
      PartsAgree(groupBy[..n], a, b);
    }
  }

  /** A comma in a value makes keys collide: whatever the labels and values, a group without label b
      can share its key, and so its counters, marks and priority, with one that has it. */
  lemma CommaCollides(a: string, b: string, x: string, v: string)
    requires a != b
    ensures var merged := map[a := x + "," + b + "=" + v];
            var genuine := map[a := x, b := v];
            b !in merged && Join(Parts([a, b], merged)) == Join(Parts([a, b], genuine))
  {
    var merged := map[a := x + "," + b + "=" + v];
    var genuine := map[a := x, b := v];
    PartsOfTwo(a, b, merged);
    PartsOfTwo(a, b, genuine);
    var two := [a + "=" + x, b + "=" + v];
    assert two[1..] == [two[1]];
    assert Join(two) == two[0] + "," + two[1];
    assert a + "=" + (x + "," + b + "=" + v) == two[0] + "," + two[1];
  }

  lemma PartsOfTwo(a: string, b: string, attrs: map<string, string>)
    requires a in attrs
    ensures Parts([a, b], attrs) == [Part(a, attrs)] + if b in attrs then [Part(b, attrs)] else []
  {
    var none: seq<string> := [];
    assert [a][..0] == none && Parts(none, attrs) == [];
    assert [a, b][..1] == [a];
    assert Parts([a], attrs) == [Part(a, attrs)];
  }

  // ---------- when keys identify groups for all values ----------

  ghost predicate Agree(groupBy: seq<string>, a: map<string, string>, b: map<string, string>) {
    forall l :: l in groupBy ==> (l in a <==> l in b) && (l in a ==> a[l] == b[l])
  }

  /** Attributes as they are extracted: no value is empty. */
  ghost predicate Extracted(attrs: map<string, string>) {
    forall l :: l in attrs ==> attrs[l] != ""
  }

  /** Only attribute sets that agree on the grouping labels share a key, whatever the values. */
  ghost predicate Identifies(groupBy: seq<string>) {
    forall a: map<string, string>, b: map<string, string> ::
      Extracted(a) && Extracted(b) && Join(Parts(groupBy, a)) == Join(Parts(groupBy, b)) ==> Agree(groupBy, a, b)
  }

  /** Labels that are absent add no part. */
  lemma {:induction false} PartsOfPrefix(groupBy: seq<string>, k: nat, attrs: map<string, string>)
    requires k <= |groupBy| && forall i :: k <= i < |groupBy| ==> groupBy[i] !in attrs
    ensures Parts(groupBy, attrs) == Parts(groupBy[..k], attrs)
    decreases |groupBy|
  {
    if k < |groupBy| {
      var n := |groupBy| - 1;
      PartsOfPrefix(groupBy[..n], k, attrs);
      assert groupBy[..n][..k] == groupBy[..k];
    } else {
      assert groupBy[..k] == groupBy;
    }
  }

  lemma SingleIdentifies(l: string, a: map<string, string>, b: map<string, string>)
    requires Join(Parts([l], a)) == Join(Parts([l], b))
    ensures Agree([l], a, b)
  {
    SinglePart(l, a);
    SinglePart(l, b);
    if l in a && l in b {
      assert Part(l, a)[|l| + 1..] == a[l] && Part(l, b)[|l| + 1..] == b[l];
    }
  }

  lemma SinglePart(l: string, attrs: map<string, string>)
    ensures Join(Parts([l], attrs)) == if l in attrs then Part(l, attrs) else ""
  {
    var none: seq<string> := [];
    assert [l][..0] == none && Parts(none, attrs) == none;
    assert Parts([l], attrs) == if l in attrs then [Part(l, attrs)] else none;
  }

  /** Group keys identify groups for all label values if and only if the rule groups by at most
      one label: with two, a comma in a value of the first can make up the second. */
  lemma KeysIdentifyIff(groupBy: seq<string>)
    requires Distinct(groupBy)
    ensures Identifies(groupBy) <==> |groupBy| <= 1
  {
    if |groupBy| <= 1 {
      forall a: map<string, string>, b: map<string, string> |
        Extracted(a) && Extracted(b) && Join(Parts(groupBy, a)) == Join(Parts(groupBy, b))
        ensures Agree(groupBy, a, b)
      {
        if |groupBy| == 1 {
          assert groupBy == [groupBy[0]];
          SingleIdentifies(groupBy[0], a, b);
        }
      }
    } else {
      var a, b := groupBy[0], groupBy[1];
      var merged := map[a := "v" + "," + b + "=" + "v"];
      var genuine := map[a := "v", b := "v"];
      CommaCollides(a, b, "v", "v");
      assert Extracted(merged) && Extracted(genuine);
      assert groupBy[..2] == [a, b];
      PartsOfPrefix(groupBy, 2, merged);
      PartsOfPrefix(groupBy, 2, genuine);
      assert b in groupBy && b !in merged && b in genuine;
      assert !Agree(groupBy, merged, genuine);
    }
  }

  // ---------- when priorities are right for all values ----------

  /** Splitting puts the first character in front of the pieces of the rest. */
  function InFront(c: char, pieces: seq<string>): seq<string>
    requires pieces != []
  {
    if c == ',' then [""] + pieces else [[c] + pieces[0]] + pieces[1..]
  }

  lemma PutInFront(c: char, x: seq<string>, y: seq<string>)
    requires x != []
    ensures InFront(c, x + y) == InFront(c, x) + y
  {
    assert (x + y)[0] == x[0] && (x + y)[1..] == x[1..] + y;
  }

  lemma {:induction false} SplitConcat(a: string, b: string)
    ensures Split(a + "," + b) == Split(a) + Split(b)
    decreases |a|
  {
    var whole := a + "," + b;
    if a == "" {
      assert whole[1..] == b;
    } else {
      assert whole[1..] == a[1..] + "," + b && whole[0] == a[0];
      SplitConcat(a[1..], b);
      SplitNotEmpty(a[1..]);
      PutInFront(a[0], Split(a[1..]), Split(b));
    }
  }

  lemma {:induction false} SplitNotEmpty(s: string)
    ensures Split(s) != [] && forall i :: 0 <= i < |Split(s)| ==> CommaFree(Split(s)[i])
  {
    if s != "" {
      SplitNotEmpty(s[1..]);
    }
  }

  /** The key of a group starts with the pieces of its first part. */
  lemma PiecesOfFirst(parts: seq<string>) returns (rest: seq<string>)
    requires parts != []
    ensures Split(Join(parts)) == Split(parts[0]) + rest
  {
    if |parts| == 1 {
      rest := [];
    } else {
      SplitConcat(parts[0], Join(parts[1..]));
      rest := Split(Join(parts[1..]));
    }
  }

  /** Only values without a comma are ever looked up, so if those all have the default priority
      then so has every group. */
  lemma {:induction false} OnlyPlainRead(pieces: seq<string>, p: Priority)
    requires forall i :: 0 <= i < |pieces| ==> CommaFree(pieces[i])
    requires forall v :: CommaFree(v) ==> RankOr(p, v) == p.fallback
    ensures PartPriority(pieces, p) == p.fallback
    decreases |pieces|
  {
    if pieces != [] {
      if p.key + "=" <= pieces[0] {
        var v := pieces[0][|p.key| + 1..];
        assert CommaFree(v);
        assert RankOr(p, v) == p.fallback;
      } else {
        OnlyPlainRead(pieces[1..], p);
      }
    }
  }

  /** The priority the configuration intends for a group: the rank of its own label value. */
  ghost function Intended(rule: Rule, attrs: map<string, string>): int
    requires rule.priority.Some?
  {
    var p := rule.priority.value;
    if p.key in rule.groupBy && p.key in attrs then RankOr(p, attrs[p.key]) else p.fallback
  }

  /** The value can make a difference: it ranks other than by default, and a key can hold it. */
  ghost predicate Telling(rule: Rule, v: string)
    requires rule.priority.Some?
  {
    var p := rule.priority.value;
    RankOr(p, v) != p.fallback && (p.key in rule.groupBy || CommaFree(v))
  }

  lemma {:induction false} RankInjective(order: seq<string>, x: string, y: string)
    requires Rank(order, x).Some? && Rank(order, x) == Rank(order, y)
    ensures x == y && 0 < Rank(order, x).value <= |order|
    decreases |order|
  {
    var rest := order[1..];
    if Rank(rest, x).Some? && Rank(rest, y).Some? {
      RankInjective(rest, x, y);
    } else if Rank(rest, x).Some? {
      RankInjective(rest, x, x);
    } else if Rank(rest, y).Some? {
      RankInjective(rest, y, y);
    }
  }

  /** A group with a single grouping label present, whose first piece is looked at. */
  lemma ReadsFirstPiece(rule: Rule, l: string, u: string)
    requires rule.priority.Some? && l in rule.groupBy
    ensures exists rest :: GroupPriority(rule, Join(Parts(rule.groupBy, map[l := u]))) ==
              PartPriority(Split(l + "=" + u) + rest, rule.priority.value)
  {
    var attrs := map[l := u];
    var parts := Parts(rule.groupBy, attrs);
    PartsAre(rule.groupBy, attrs, Part(l, attrs));
    assert parts[0] in parts;
    PartsAre(rule.groupBy, attrs, parts[0]);
    assert parts[0] == l + "=" + u;
    var rest := PiecesOfFirst(parts);
    assert GroupPriority(rule, Join(parts)) == PartPriority(Split(l + "=" + u) + rest, rule.priority.value);
  }

  /** A trailing comma in the priority label's own value is read as the value without it. */
  lemma CutValueRead(rule: Rule, v: string)
    requires rule.priority.Some? && rule.priority.value.key in rule.groupBy
    requires CommaFree(rule.priority.value.key) && CommaFree(v)
    ensures GroupPriority(rule, Join(Parts(rule.groupBy, map[rule.priority.value.key := v + ","]))) ==
            RankOr(rule.priority.value, v)
  {
    var p := rule.priority.value;
    ReadsFirstPiece(rule, p.key, v + ",");
    var head := p.key + "=" + v;
    assert p.key + "=" + (v + ",") == head + "," + "";
    SplitAtComma(head, "");
    forall rest: seq<string> ensures PartPriority(Split(head + "," + "") + rest, p) == RankOr(p, v) {
      var all := Split(head + "," + "") + rest;
      assert all[0] == head && head[|p.key| + 1..] == v && p.key + "=" <= head;
    }
  }

  lemma {:induction false} FirstComma(v: string) returns (head: string, tail: string)
    requires !CommaFree(v)
    ensures v == head + "," + tail && CommaFree(head)
  {
    if v[0] == ',' {
      head, tail := "", v[1..];
      assert v == [v[0]] + v[1..];
    } else {
      assert v == [v[0]] + v[1..];
      assert ',' in v[1..];
      var h, t := FirstComma(v[1..]);
      head, tail := [v[0]] + h, t;
    }
  }

  /** A value with a comma is read as what stands before the comma. */
  lemma CommaValueMisread(rule: Rule, v: string)
    requires rule.priority.Some? && rule.priority.value.key in rule.groupBy && CommaFree(rule.priority.value.key)
    requires !CommaFree(v) && RankOr(rule.priority.value, v) != rule.priority.value.fallback
    ensures GroupPriority(rule, Join(Parts(rule.groupBy, map[rule.priority.value.key := v]))) !=
            RankOr(rule.priority.value, v)
  {
    var p := rule.priority.value;
    ReadsFirstPiece(rule, p.key, v);
    var h, t := FirstComma(v);
    var head := p.key + "=" + h;
    assert p.key + "=" + v == head + "," + t;
    SplitAtComma(head, t);
    forall rest: seq<string> ensures PartPriority(Split(head + "," + t) + rest, p) == RankOr(p, h) {
      var all := Split(head + "," + t) + rest;
      assert all[0] == head && head[|p.key| + 1..] == h && p.key + "=" <= head;
    }
    DifferentRank(p, v, h);
  }

  lemma DifferentRank(p: Priority, v: string, w: string)
    requires v != w && RankOr(p, v) != p.fallback
    ensures RankOr(p, w) != RankOr(p, v)
  {
    if Rank(p.order, w) == Rank(p.order, v) {
      RankInjective(p.order, v, w);
    }
  }

  /** Another label's value can pose as the priority label. */
  lemma PosedValueRead(rule: Rule, l: string, v: string)
    requires rule.priority.Some? && l in rule.groupBy && l != rule.priority.value.key
    requires CommaFree(l) && '=' !in l && CommaFree(rule.priority.value.key) && '=' !in rule.priority.value.key
    requires CommaFree(v)
    ensures GroupPriority(rule, Join(Parts(rule.groupBy, map[l := "," + rule.priority.value.key + "=" + v]))) ==
            RankOr(rule.priority.value, v)
  {
    var p := rule.priority.value;
    var u := "," + p.key + "=" + v;
    ReadsFirstPiece(rule, l, u);
    var first, second := l + "=", p.key + "=" + v;
    assert l + "=" + u == first + "," + second;
    SplitAtComma(first, second);
    SplitPlain(second);
    if p.key + "=" <= first {
      assert first == l + "=" + "";
      PrefixIsLabel(p.key, l, "");
    }
    forall rest: seq<string> ensures PartPriority(Split(first + "," + second) + rest, p) == RankOr(p, v) {
      var all := Split(first + "," + second) + rest;
      assert all[0] == first && all[1..][0] == second && second[|p.key| + 1..] == v && p.key + "=" <= second;
    }
  }

  /** The priority read back from a group key is the intended one for all label values if and
      only if no value can make a difference: a comma defeats any priority that matters. */
  lemma PrioritiesExactIff(rule: Rule)
    requires rule.priority.Some? && rule.groupBy != []
    requires CommaFree(rule.priority.value.key) && '=' !in rule.priority.value.key
    requires forall l :: l in rule.groupBy ==> CommaFree(l) && '=' !in l
    ensures (forall attrs :: Extracted(attrs) ==>
               GroupPriority(rule, Join(Parts(rule.groupBy, attrs))) == Intended(rule, attrs)) <==>
            (forall v :: !Telling(rule, v))
  {
    if v :| Telling(rule, v) {
      var attrs := TellingMisread(rule, v);
      assert GroupPriority(rule, Join(Parts(rule.groupBy, attrs))) != Intended(rule, attrs);
    } else {
      forall attrs: map<string, string>
        ensures GroupPriority(rule, Join(Parts(rule.groupBy, attrs))) == Intended(rule, attrs)
      {
        UntoldIsDefault(rule, attrs);
      }
    }
  }

  lemma UntoldIsDefault(rule: Rule, attrs: map<string, string>)
    requires rule.priority.Some? && forall v :: !Telling(rule, v)
    ensures GroupPriority(rule, Join(Parts(rule.groupBy, attrs))) == rule.priority.value.fallback
    ensures Intended(rule, attrs) == rule.priority.value.fallback
  {
    var p := rule.priority.value;
    forall v | CommaFree(v) ensures RankOr(p, v) == p.fallback {
      assert !Telling(rule, v);
    }
    SplitNotEmpty(Join(Parts(rule.groupBy, attrs)));
    OnlyPlainRead(Split(Join(Parts(rule.groupBy, attrs))), p);
    if p.key in rule.groupBy && p.key in attrs {
      assert !Telling(rule, attrs[p.key]);
    }
  }

  lemma TellingMisread(rule: Rule, v: string) returns (attrs: map<string, string>)
    requires rule.priority.Some? && rule.groupBy != [] && Telling(rule, v)
    requires CommaFree(rule.priority.value.key) && '=' !in rule.priority.value.key
    requires forall l :: l in rule.groupBy ==> CommaFree(l) && '=' !in l
    ensures Extracted(attrs) && GroupPriority(rule, Join(Parts(rule.groupBy, attrs))) != Intended(rule, attrs)
  {
    var p := rule.priority.value;
    if p.key !in rule.groupBy {
      var l := rule.groupBy[0];
      assert l in rule.groupBy;
      attrs := map[l := "," + p.key + "=" + v];
      PosedValueRead(rule, l, v);
    } else if CommaFree(v) {
      attrs := map[p.key := v + ","];
      CutValueRead(rule, v);
      DifferentRank(p, v, v + ",");
    } else {
      attrs := map[p.key := v];
      CommaValueMisread(rule, v);
    }
  }
}
