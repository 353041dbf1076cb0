/** The bounded LRU from metric names to rules (internal/limits/rulecache.go). */
module RuleCache {
  import opened Collections
  import opened Rules

  /** Cache contents: names from most to least recently used, and the cached answer of
      each (None is the negative entry "no rule matches"). */
  datatype Lru = Lru(order: seq<string>, answers: map<string, Option<Rule>>, misses: nat)

  const EMPTY := Lru([], map[], 0)

  ghost predicate WellFormed(c: Lru, maxSize: int) {
    && Distinct(c.order)
    && c.answers.Keys == Elements(c.order)
    && |c.order| <= Max(maxSize, 0)
  }

  // ---------- recency lists ----------

  function Take<T>(n: int, s: seq<T>): seq<T> {
    if n <= 0 then [] else if n <= |s| then s[..n] else s
  }

  function Without(s: seq<string>, k: string): seq<string> {
    if s == [] then [] else if s[0] == k then s[1..] else [s[0]] + Without(s[1..], k)
  }

  /** MoveToFront */
  function Touch(s: seq<string>, k: string): seq<string> {
    [k] + Without(s, k)
  }

  lemma {:induction false} WithoutElements(s: seq<string>, k: string)
    requires Distinct(s)
    ensures Distinct(Without(s, k))
    ensures forall x :: x in Without(s, k) <==> x in s && x != k
    ensures |Without(s, k)| == |s| - (if k in s then 1 else 0)
  {
    if s != [] {
      assert forall i :: 0 <= i < |s| - 1 ==> s[1..][i] == s[i + 1];
      WithoutElements(s[1..], k);
      assert s == [s[0]] + s[1..];
      assert s[0] !in s[1..];
    }
  }

  lemma TouchElements(s: seq<string>, k: string)
    requires Distinct(s)
    ensures Distinct(Touch(s, k))
    ensures Elements(Touch(s, k)) == Elements(s) + {k}
    ensures |Touch(s, k)| == if k in s then |s| else |s| + 1
  {
    WithoutElements(s, k);
  }

  // ---------- cache operations ----------

  /** Get, on a cache that newRuleCache disables for a non-positive size. */
  function AfterGet(c: Lru, maxSize: int, k: string): Lru {
    if maxSize <= 0 then c
    else if k in c.answers then c.(order := Touch(c.order, k))
    else c.(misses := c.misses + 1)
  }

  function AfterPut(c: Lru, maxSize: int, k: string, answer: Option<Rule>): Lru {
    if maxSize <= 0 then c
    else if k in c.answers then Lru(Touch(c.order, k), c.answers[k := answer], c.misses)
    else
      var kept := Take(maxSize - 1, c.order);
      Lru([k] + kept, (map x | x in c.answers && x in kept :: c.answers[x])[k := answer], c.misses)
  }

  lemma GetKeepsShape(c: Lru, maxSize: int, k: string)
    requires WellFormed(c, maxSize)
    ensures WellFormed(AfterGet(c, maxSize, k), maxSize)
    ensures AfterGet(c, maxSize, k).answers == c.answers
  {
    TouchElements(c.order, k);
  }

  lemma InsertElements(order: seq<string>, k: string, maxSize: int)
    requires maxSize > 0 && Distinct(order) && k !in order
    ensures var kept := Take(maxSize - 1, order);
            && Distinct([k] + kept) && |[k] + kept| <= maxSize
            && Elements(kept) <= Elements(order) && Elements([k] + kept) == {k} + Elements(kept)
  {
  }

  lemma PutKeepsShape(c: Lru, maxSize: int, k: string, answer: Option<Rule>)
    requires WellFormed(c, maxSize)
    ensures WellFormed(AfterPut(c, maxSize, k, answer), maxSize)
  {
    if maxSize > 0 && k !in c.answers {
      assert k !in Elements(c.order);
      InsertElements(c.order, k, maxSize);
    } else {
      TouchElements(c.order, k);
    }
  }

  /** A put changes the answer of its own key only; other keys keep theirs or leave. */
  lemma PutAnswers(c: Lru, maxSize: int, k: string, answer: Option<Rule>, x: string)
    requires x in AfterPut(c, maxSize, k, answer).answers
    ensures x == k || x in c.answers
    ensures AfterPut(c, maxSize, k, answer).answers[x] ==
            (if x == k && maxSize > 0 then answer else c.answers[x])
  {
  }

  class Cache {
    var order: seq<string>
    var answers: map<string, Option<Rule>>
    var misses: nat
    var hits: nat
    var evictions: nat
    const maxSize: int

    function State(): Lru reads this { Lru(order, answers, misses) }

    ghost predicate Valid() reads this { maxSize > 0 && WellFormed(State(), maxSize) }

    constructor (maxSize: int)
      requires maxSize > 0
      ensures Valid() && State() == EMPTY && this.maxSize == maxSize
    {
      order, answers, misses, hits, evictions := [], map[], 0, 0, 0;
      this.maxSize := maxSize;
    }

    method Get(name: string) returns (answer: Option<Rule>, ok: bool)
      requires Valid()
      modifies this
      ensures Valid()
      ensures State() == AfterGet(old(State()), maxSize, name)
      ensures ok == (name in old(answers))
      ensures answer == if ok then old(answers)[name] else None
    {
      GetKeepsShape(State(), maxSize, name);
      if name !in answers {
        misses := misses + 1;
        return None, false;
      }
      order := Touch(order, name);
      hits := hits + 1;
      return answers[name], true;
    }

    method Put(name: string, answer: Option<Rule>)
      requires Valid()
      modifies this
      ensures Valid()
      ensures State() == AfterPut(old(State()), maxSize, name, answer)
    {
      PutKeepsShape(State(), maxSize, name, answer);
      if name in answers {
        order := Touch(order, name);
        answers := answers[name := answer];
        return;
      }
      var left, kept, gone := EvictBack(order, answers, maxSize);
      assert AfterPut(State(), maxSize, name, answer) == Lru([name] + left, kept[name := answer], misses);
      evictions := evictions + gone;
      order := [name] + left;
      answers := kept[name := answer];
    }

    /** Drop least recently used names until there is room for one more. */
    static method EvictBack(order: seq<string>, answers: map<string, Option<Rule>>, maxSize: int)
      returns (left: seq<string>, kept: map<string, Option<Rule>>, gone: nat)
      requires maxSize > 0 && Distinct(order) && answers.Keys == Elements(order)
      ensures left == Take(maxSize - 1, order)
      ensures kept == map x | x in answers && x in left :: answers[x]
      ensures gone == |order| - |left|
    {
      left, kept, gone := order, answers, 0;
      while |left| >= maxSize
        invariant |left| <= |order| && left == order[..|left|] && gone == |order| - |left|
        invariant |left| >= maxSize - 1 || left == order
        invariant kept == map x | x in answers && x in left :: answers[x]
      {
        var back := left[|left| - 1];
        var shorter := left[..|left| - 1];
        assert left == shorter + [back] && back !in shorter;
        kept := kept - {back};
        left := shorter;
        gone := gone + 1;
      }
    }

    method ClearCache()
      requires Valid()
      modifies this
      ensures Valid()
      ensures State() == Lru([], map[], old(misses))
    {
      answers := map[];
      order := [];
    }
  }

  // ---------- the recency list of a lookup history ----------

  /** Every distinct name of the history, most recent first. */
  function Recency(names: seq<string>): seq<string> {
    if names == [] then [] else Touch(Recency(names[..|names| - 1]), names[|names| - 1])
  }

  /** Position of the last use of a name, or -1. */
  function LastUse(names: seq<string>, k: string): int {
    if names == [] then -1
    else if names[|names| - 1] == k then |names| - 1
    else LastUse(names[..|names| - 1], k)
  }

  lemma {:induction false} LastUseBound(names: seq<string>, k: string)
    ensures -1 <= LastUse(names, k) < |names|
  {
    if names != [] {
      LastUseBound(names[..|names| - 1], k);
    }
  }

  ghost predicate ByLastUse(names: seq<string>, s: seq<string>) {
    forall i, j :: 0 <= i < j < |s| ==> LastUse(names, s[i]) > LastUse(names, s[j])
  }

  lemma {:induction false} WithoutKeepsOrder(names: seq<string>, s: seq<string>, k: string)
    requires ByLastUse(names, s)
    ensures ByLastUse(names, Without(s, k))
    ensures forall x :: x in Without(s, k) ==> x in s
  {
    if s != [] {
      assert forall i :: 0 <= i < |s| - 1 ==> s[1..][i] == s[i + 1];
      WithoutKeepsOrder(names, s[1..], k);
      var rest := Without(s[1..], k);
      forall j | 0 <= j < |rest| ensures LastUse(names, s[0]) > LastUse(names, rest[j]) {
        assert rest[j] in s[1..];
      }
    }
  }

  /** Recency lists each looked-up name exactly once, ordered by last use. */
  lemma {:induction false} RecencyIsLastUse(names: seq<string>)
    ensures Distinct(Recency(names))
    ensures Elements(Recency(names)) == Elements(names)
    ensures ByLastUse(names, Recency(names))
  {
    if names != [] {
      var n := |names| - 1;
      var k := names[n];
      RecencyIsLastUse(names[..n]);
      TouchElements(Recency(names[..n]), k);
      WithoutElements(Recency(names[..n]), k);
      assert names == names[..n] + [k];
      assert Elements(names) == Elements(names[..n]) + {k};
      WithoutKeepsOrder(names[..n], Recency(names[..n]), k);
      var rest := Without(Recency(names[..n]), k);
      forall i, j | 0 <= i < j < |Recency(names)|
        ensures LastUse(names, Recency(names)[i]) > LastUse(names, Recency(names)[j])
      {
        assert Recency(names)[j] == rest[j - 1];
        LastUseBound(names[..n], rest[j - 1]);
        if i > 0 {
          assert Recency(names)[i] == rest[i - 1];
        }
      }
    }
  }

  lemma {:induction false} WithoutTake(s: seq<string>, k: string, n: nat)
    ensures Take(n, Without(Take(n + 1, s), k)) == Take(n, Without(s, k))
  {
    if s != [] && n > 0 {
      assert Take(n + 1, s)[1..] == Take(n, s[1..]);
      if s[0] != k {
        WithoutTake(s[1..], k, n - 1);
        assert Take(n, [s[0]] + Without(s[1..], k)) == [s[0]] + Take(n - 1, Without(s[1..], k));
        assert Take(n, [s[0]] + Without(Take(n, s[1..]), k)) == [s[0]] + Take(n - 1, Without(Take(n, s[1..]), k));
      }
    }
  }

  lemma TakeCons(n: int, k: string, s: seq<string>)
    requires n > 0
    ensures Take(n, [k] + s) == [k] + Take(n - 1, s)
  {
  }

  /** Truncating before or after a use gives the same first n names: the reason an LRU
      of size n is a prefix of the unbounded one. */
  lemma TouchTake(s: seq<string>, k: string, n: int)
    requires n > 0
    ensures Take(n, Touch(Take(n, s), k)) == Take(n, Touch(s, k))
  {
    WithoutTake(s, k, n - 1);
    TakeCons(n, k, Without(Take(n, s), k));
    TakeCons(n, k, Without(s, k));
  }

  lemma {:induction false} WithoutAbsent(s: seq<string>, k: string)
    requires k !in s
    ensures Without(s, k) == s
  {
    if s != [] {
      WithoutAbsent(s[1..], k);
    }
  }
}
