/** OTLP metrics as values: the five data kinds are treated alike by the limits
    code, so a metric is its name and its datapoints. */
module MetricModel {
  import opened Collections

  /** The value of an attribute. Absent is a nil value; NonString stands for every
      variant that reads as the empty string. */
  datatype AnyValue = Str(s: string) | NonString | Absent

  datatype KeyValue = KeyValue(key: string, value: AnyValue)

  /** payload stands for everything in a datapoint that the limits code leaves alone. */
  datatype Datapoint = Datapoint(attrs: seq<KeyValue>, payload: int)

  datatype Metric = Metric(name: string, points: seq<Datapoint>)

  const ACTION_LABEL := "metrics.governor.action"
  const RULE_LABEL := "metrics.governor.rule"

  function TextOf(v: AnyValue): string {
    if v.Str? then v.s else ""
  }

  /** The string attributes of a list, a later non-empty value overriding an earlier one. */
  function Extract(attrs: seq<KeyValue>): map<string, string> {
    if attrs == [] then map[]
    else
      var n := |attrs| - 1;
      var before := Extract(attrs[..n]);
      if TextOf(attrs[n].value) != "" then before[attrs[n].key := TextOf(attrs[n].value)] else before
  }

  /** Loop form of Extract. */
  method ExtractAttributes(attrs: seq<KeyValue>) returns (result: map<string, string>)
    ensures result == Extract(attrs)
  {
    result := map[];
    for i := 0 to |attrs|
      invariant result == Extract(attrs[..i])
    {
      assert attrs[..i + 1][..i] == attrs[..i];
      var kv := attrs[i];
      if kv.value != Absent {
        var sv := TextOf(kv.value);
        if sv != "" {
          result := result[kv.key := sv];
        }
      }
    }
    assert attrs[..|attrs|] == attrs;
  }

  // ---------- labels added to every emitted datapoint ----------

  function Marks(action: string, ruleName: string): seq<KeyValue> {
    [KeyValue(ACTION_LABEL, Str(action)), KeyValue(RULE_LABEL, Str(ruleName))]
  }

  function InjectPoints(points: seq<Datapoint>, extra: seq<KeyValue>): (r: seq<Datapoint>)
    ensures |r| == |points|
    ensures forall i :: 0 <= i < |points| ==> r[i] == Datapoint(points[i].attrs + extra, points[i].payload)
  {
    seq(|points|, i requires 0 <= i < |points| => Datapoint(points[i].attrs + extra, points[i].payload))
  }

  function Inject(m: Metric, action: string, ruleName: string): Metric {
    Metric(m.name, InjectPoints(m.points, Marks(action, ruleName)))
  }

  // ---------- stripping ----------

  function StripAttrs(attrs: seq<KeyValue>, labels: set<string>): seq<KeyValue> {
    if attrs == [] then []
    else
      var n := |attrs| - 1;
      StripAttrs(attrs[..n], labels) + (if attrs[n].key in labels then [] else [attrs[n]])
  }

  function StripPoints(points: seq<Datapoint>, labels: set<string>): (r: seq<Datapoint>)
    ensures |r| == |points|
    ensures forall i :: 0 <= i < |points| ==>
              r[i] == Datapoint(StripAttrs(points[i].attrs, labels), points[i].payload)
  {
    seq(|points|, i requires 0 <= i < |points| => Datapoint(StripAttrs(points[i].attrs, labels), points[i].payload))
  }

  function Strip(m: Metric, labels: set<string>): Metric {
    Metric(m.name, StripPoints(m.points, labels))
  }

  /** The in-place compaction of an attribute slice: the first n cells end up holding,
      in order, exactly the attributes whose key is not stripped. */
  method CompactAttributes(a: array<KeyValue>, labels: set<string>) returns (n: nat)
    modifies a
    ensures n <= a.Length
    ensures a[..n] == StripAttrs(old(a[..]), labels)
  {
    n := 0;
    ghost var was := a[..];
    for i := 0 to a.Length
      invariant n <= i
      invariant a[..n] == StripAttrs(was[..i], labels)
      invariant a[i..] == was[i..]
    {
      assert was[..i + 1][..i] == was[..i];
      var kv := a[i];
      assert kv == a[i..][0] == was[i];
      if kv.key !in labels {
        a[n] := kv;
        n := n + 1;
        assert a[..n] == a[..n - 1] + [kv];
      }
      assert a[i + 1..] == was[i..][1..];
    }
    assert was[..a.Length] == was;
  }

  /** Stripping removes exactly the named keys and keeps the rest in order. */
  lemma {:induction false} StripKeepsOthers(attrs: seq<KeyValue>, labels: set<string>)
    ensures Subsequence(StripAttrs(attrs, labels), attrs)
    ensures forall kv :: kv in StripAttrs(attrs, labels) <==> kv in attrs && kv.key !in labels
  {
    if attrs != [] {
      var n := |attrs| - 1;
      StripKeepsOthers(attrs[..n], labels);
      var last := if attrs[n].key in labels then [] else [attrs[n]];
      SubsequenceAppend(StripAttrs(attrs[..n], labels), attrs[..n], last, [attrs[n]]);
      assert attrs == attrs[..n] + [attrs[n]];
    }
  }

  /** What the limits code reads after stripping is what it read before, minus the labels. */
  lemma {:induction false} ExtractOfStrip(attrs: seq<KeyValue>, labels: set<string>)
    ensures Extract(StripAttrs(attrs, labels)) == Extract(attrs) - labels
  {
    if attrs != [] {
      var n := |attrs| - 1;
      ExtractOfStrip(attrs[..n], labels);
      var head := StripAttrs(attrs[..n], labels);
      if attrs[n].key !in labels {
        assert (head + [attrs[n]])[..|head|] == head;
      } else {
        assert head + [] == head;
      }
    }
  }

  lemma ExtractSnoc(attrs: seq<KeyValue>, kv: KeyValue)
    ensures Extract(attrs + [kv]) ==
            if TextOf(kv.value) != "" then Extract(attrs)[kv.key := TextOf(kv.value)] else Extract(attrs)
  {
    assert (attrs + [kv])[..|attrs|] == attrs;
  }

  /** What is read after injection: the two labels override their own keys and no other. */
  lemma ExtractOfMarks(attrs: seq<KeyValue>, action: string, name: string)
    ensures var a := Extract(attrs);
            var b := if action != "" then a[ACTION_LABEL := action] else a;
            Extract(attrs + Marks(action, name)) == if name != "" then b[RULE_LABEL := name] else b
  {
    var marks := Marks(action, name);
    ExtractSnoc(attrs, marks[0]);
    ExtractSnoc(attrs + [marks[0]], marks[1]);
    assert attrs + [marks[0]] + [marks[1]] == attrs + marks;
  }

  /** The non-empty string values written under a key, repetitions of the key included. */
  ghost function Texts(attrs: seq<KeyValue>, l: string): set<string> {
    set kv | kv in attrs && kv.key == l && TextOf(kv.value) != "" :: TextOf(kv.value)
  }

  /** No two different values are written under the key. */
  ghost predicate OneValue(attrs: seq<KeyValue>, l: string) {
    forall v, w :: v in Texts(attrs, l) && w in Texts(attrs, l) ==> v == w
  }

  /** What is read for a key is one of the values written under it, and nothing is read only
      if nothing is written. */
  lemma {:induction false} ReadIsText(attrs: seq<KeyValue>, l: string)
    ensures l in Extract(attrs) <==> Texts(attrs, l) != {}
    ensures l in Extract(attrs) ==> Extract(attrs)[l] in Texts(attrs, l)
  {
    if attrs == [] {
      assert Texts(attrs, l) == {};
    } else {
      var front, last := attrs[..|attrs| - 1], attrs[|attrs| - 1];
      ReadIsText(front, l);
      assert attrs == front + [last];
      assert Texts(attrs, l) == Texts(front, l) + Texts([last], l);
      if last.key == l && TextOf(last.value) != "" {
        assert last in attrs;
        assert TextOf(last.value) in Texts(attrs, l);
      } else {
        assert Texts([last], l) == {};
      }
    }
  }
}
