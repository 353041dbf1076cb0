/** Sums, subsequences and multiset views shared by the component models. */
module Collections {

  datatype Option<+T> = None | Some(value: T)

  function Max(a: int, b: int): int {
    if a < b then b else a
  }

  function Min(a: int, b: int): int {
    if a < b then a else b
  }

  // ---------- sums over sequences ----------

  function Sum(s: seq<nat>): nat {
    if s == [] then 0 else s[0] + Sum(s[1..])
  }

  lemma {:induction false} SumAppend(a: seq<nat>, b: seq<nat>)
    ensures Sum(a + b) == Sum(a) + Sum(b)
  {
    if a == [] {
      assert a + b == b;
    } else {
      assert (a + b)[1..] == a[1..] + b;
      SumAppend(a[1..], b);
    }
  }

  lemma SumSnoc(a: seq<nat>, x: nat)
    ensures Sum(a + [x]) == Sum(a) + x
  {
    SumAppend(a, [x]);
  }

  lemma SumSplit(a: seq<nat>, i: nat)
    requires i <= |a|
    ensures Sum(a) == Sum(a[..i]) + Sum(a[i..])
  {
    assert a == a[..i] + a[i..];
    SumAppend(a[..i], a[i..]);
  }

  // ---------- sums over maps ----------

  ghost function SumBy<V(!new)>(m: map<string, V>, f: V -> nat): nat
    decreases |m|
  {
    if m == map[] then 0
    else
      var k :| k in m;
      assert |(m - {k}).Keys| < |m.Keys| by { assert (m - {k}).Keys == m.Keys - {k}; }
      f(m[k]) + SumBy(m - {k}, f)
  }

  /** The sum does not depend on the order in which keys are taken. */
  lemma {:induction false} SumByRemove<V(!new)>(m: map<string, V>, f: V -> nat, k: string)
    requires k in m
    ensures SumBy(m, f) == f(m[k]) + SumBy(m - {k}, f)
    decreases |m|
  {
    var c :| c in m && SumBy(m, f) == f(m[c]) + SumBy(m - {c}, f);
    if c != k {
      assert |(m - {c}).Keys| < |m.Keys| by { assert (m - {c}).Keys == m.Keys - {c}; }
      assert |(m - {k}).Keys| < |m.Keys| by { assert (m - {k}).Keys == m.Keys - {k}; }
      SumByRemove(m - {c}, f, k);
      SumByRemove(m - {k}, f, c);
      assert m - {c} - {k} == m - {k} - {c};
    }
  }

  lemma SumByUpdate<V(!new)>(m: map<string, V>, f: V -> nat, k: string, v: V)
    ensures SumBy(m[k := v], f) == f(v) + SumBy(m - {k}, f)
    ensures k in m ==> SumBy(m[k := v], f) == SumBy(m, f) - f(m[k]) + f(v)
    ensures k !in m ==> SumBy(m[k := v], f) == SumBy(m, f) + f(v)
  {
    SumByRemove(m[k := v], f, k);
    assert m[k := v] - {k} == m - {k};
    if k in m {
      SumByRemove(m, f, k);
    } else {
      assert m - {k} == m;
    }
  }

  // ---------- subsequences ----------

  ghost predicate Subsequence<T>(a: seq<T>, b: seq<T>)
    decreases |b|
  {
    || a == []
    || (b != [] && a[0] == b[0] && Subsequence(a[1..], b[1..]))
    || (b != [] && Subsequence(a, b[1..]))
  }

  lemma {:induction false} SubsequenceAppend<T>(a: seq<T>, b: seq<T>, c: seq<T>, d: seq<T>)
    requires Subsequence(a, b) && Subsequence(c, d)
    ensures Subsequence(a + c, b + d)
    decreases |b|
  {
    if b == [] {
      assert a + c == c && b + d == d;
    } else {
      assert (b + d)[1..] == b[1..] + d;
      if a == [] {
        assert a + c == c;
        SubsequenceAppend<T>([], b[1..], c, d);
        assert [] + c == c;
      } else if a[0] == b[0] && Subsequence(a[1..], b[1..]) {
        assert (a + c)[1..] == a[1..] + c;
        SubsequenceAppend(a[1..], b[1..], c, d);
      } else {
        SubsequenceAppend(a, b[1..], c, d);
      }
    }
  }

  // ---------- concatenation ----------

  function Concat<T>(s: seq<seq<T>>): seq<T> {
    if s == [] then [] else s[0] + Concat(s[1..])
  }

  lemma {:induction false} ConcatAppend<T>(a: seq<seq<T>>, b: seq<seq<T>>)
    ensures Concat(a + b) == Concat(a) + Concat(b)
  {
    if a == [] {
      assert a + b == b;
    } else {
      assert (a + b)[1..] == a[1..] + b;
      ConcatAppend(a[1..], b);
    }
  }

  lemma ConcatSnoc<T>(a: seq<seq<T>>, x: seq<T>)
    ensures Concat(a + [x]) == Concat(a) + x
  {
    ConcatAppend(a, [x]);
    assert Concat([x]) == x;
  }

  // ---------- distinct sequences ----------

  predicate Distinct<T(==)>(s: seq<T>) {
    forall i, j :: 0 <= i < j < |s| ==> s[i] != s[j]
  }

  ghost function Elements<T>(s: seq<T>): set<T> {
    set x | x in s
  }

  lemma {:induction false} DistinctCard<T>(s: seq<T>)
    requires Distinct(s)
    ensures |Elements(s)| == |s|
  {
    if s == [] {
      assert Elements(s) == {};
    } else {
      var t := s[1..];
      DistinctCard(t);
      assert Elements(s) == {s[0]} + Elements(t);
      assert s[0] !in Elements(t);
    }
  }

  lemma {:induction false} SubsetCard<T>(a: set<T>, b: set<T>)
    requires a <= b
    ensures |a| <= |b|
  {
    if a != {} {
      var x :| x in a;
      SubsetCard(a - {x}, b - {x});
    }
  }
}
