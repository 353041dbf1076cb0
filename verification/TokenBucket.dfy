/** The spillover token bucket (internal/exporter/spill_rate_limiter.go). Time is in seconds
    and is passed in; floating point is taken as real arithmetic. */
module TokenBucket {

  datatype Bucket = Bucket(maxPerSec: int, tokens: int, lastRefill: real)

  /** Conversion to an integer drops the fraction, towards zero. */
  function Truncate(x: real): int {
    if x >= 0.0 then x.Floor else -((-x).Floor)
  }

  function Start(maxPerSec: int, now: real): Bucket {
    Bucket(maxPerSec, maxPerSec, now)
  }

  /** Tokens earned in a span of time. */
  function Earned(maxPerSec: int, elapsed: real): int {
    Truncate(elapsed * maxPerSec as real)
  }

  function Refill(b: Bucket, now: real): Bucket {
    var more := Earned(b.maxPerSec, now - b.lastRefill);
    if now - b.lastRefill <= 0.0 || more <= 0 then b
    else
      Bucket(b.maxPerSec, if b.tokens + more > b.maxPerSec then b.maxPerSec else b.tokens + more, now)
  }

  predicate Allows(b: Bucket, now: real) {
    Refill(b, now).tokens > 0
  }

  function After(b: Bucket, now: real): Bucket {
    var r := Refill(b, now);
    if Allows(b, now) then r.(tokens := r.tokens - 1) else r
  }

  function AfterAll(b: Bucket, times: seq<real>): Bucket
    decreases |times|
  {
    if times == [] then b else AfterAll(After(b, times[0]), times[1..])
  }

  /** How many of the calls are allowed. */
  function Allowed(b: Bucket, times: seq<real>): nat
    decreases |times|
  {
    if times == [] then 0
    else (if Allows(b, times[0]) then 1 else 0) + Allowed(After(b, times[0]), times[1..])
  }

  ghost predicate Monotone(times: seq<real>) {
    forall i, j :: 0 <= i < j < |times| ==> times[i] <= times[j]
  }

  /** Never more than a second's worth of tokens, and no refill in the future. */
  predicate Ready(b: Bucket, now: real) {
    0 <= b.tokens <= b.maxPerSec && b.lastRefill <= now
  }

  // ---------- the limiter object ----------

  class RateLimiter {
    const maxPerSec: int
    var tokens: int
    var lastRefill: real

    ghost function View(): Bucket reads this {
      Bucket(maxPerSec, tokens, lastRefill)
    }

    constructor (maxPerSec: int, now: real)
      ensures View() == Start(maxPerSec, now)
    {
      this.maxPerSec, tokens, lastRefill := maxPerSec, maxPerSec, now;
    }

    method RefillLocked(now: real)
      modifies this
      ensures View() == Refill(old(View()), now)
    {
      var elapsed := now - lastRefill;
      if elapsed <= 0.0 {
        return;
      }
      var more := Earned(maxPerSec, elapsed);
      if more > 0 {
        tokens := tokens + more;
        if tokens > maxPerSec {
          tokens := maxPerSec;
        }
        lastRefill := now;
      }
    }

    method Allow(now: real) returns (ok: bool)
      modifies this
      ensures ok == Allows(old(View()), now) && View() == After(old(View()), now)
    {
      RefillLocked(now);
      if tokens > 0 {
        tokens := tokens - 1;
        return true;
      }
      return false;
    }
  }

  // ---------- the rate bound ----------

  /** Tokens in hand less what the clock has paid for so far. */
  function Credit(b: Bucket): real {
    b.tokens as real - b.maxPerSec as real * b.lastRefill
  }

  /** Less than one token's worth of time is unpaid. */
  predicate Settled(b: Bucket, now: real) {
    b.maxPerSec as real * (now - b.lastRefill) < 1.0
  }

  predicate UnderRate(count: nat, maxPerSec: int, span: real) {
    count as real < maxPerSec as real * (span + 1.0) + 1.0
  }

  lemma EarnedBounds(n: nat, elapsed: real)
    requires elapsed >= 0.0
    ensures Earned(n, elapsed) as real <= n as real * elapsed < Earned(n, elapsed) as real + 1.0
  {
    assert elapsed * n as real >= 0.0;
  }

  /** A refill never gains credit, and leaves less than one token's worth of time unpaid. */
  lemma RefillCredit(b: Bucket, now: real)
    requires Ready(b, now)
    ensures Ready(Refill(b, now), now)
    ensures Credit(Refill(b, now)) <= Credit(b)
    ensures Settled(Refill(b, now), now) && Refill(b, now).maxPerSec == b.maxPerSec
  {
    var rate := b.maxPerSec as real;
    EarnedBounds(b.maxPerSec, now - b.lastRefill);
    assert rate * (now - b.lastRefill) == rate * now - rate * b.lastRefill;
    assert rate * (now - now) == 0.0;
  }

  lemma AfterCredit(b: Bucket, now: real)
    requires Ready(b, now)
    ensures Ready(After(b, now), now)
    ensures (if Allows(b, now) then 1.0 else 0.0) + Credit(After(b, now)) <= Credit(b)
  {
    RefillCredit(b, now);
  }

  lemma {:induction false} CreditOverRuns(b: Bucket, times: seq<real>, end: real)
    requires Monotone(times) && Ready(b, if times == [] then end else times[0])
    requires times != [] ==> times[|times| - 1] <= end
    ensures Allowed(b, times) as real + Credit(AfterAll(b, times)) <= Credit(b)
    ensures Ready(AfterAll(b, times), end)
    ensures AfterAll(b, times).maxPerSec == b.maxPerSec
    decreases |times|
  {
    if times != [] {
      AfterCredit(b, times[0]);
      CreditOverRuns(After(b, times[0]), times[1..], end);
    }
  }

  /** The arithmetic of the bound. */
  lemma SpendBound(r: Bucket, end: Bucket, spend: nat, t0: real, tn: real, span: real)
    requires Ready(r, t0) && Ready(end, tn) && end.maxPerSec == r.maxPerSec
    requires spend as real + Credit(end) <= Credit(r)
    requires tn - t0 <= span && Settled(r, t0)
    ensures UnderRate(spend, r.maxPerSec, span)
  {
    var rate, from, to := r.maxPerSec as real, r.lastRefill, end.lastRefill;
    assert rate * (t0 - from) == rate * t0 - rate * from;
    assert rate * to <= rate * (t0 + span);
    assert rate * (t0 + span) == rate * t0 + rate * span;
    assert rate * (span + 1.0) == rate * span + rate;
  }

  lemma AllowedAfterRefill(b: Bucket, times: seq<real>)
    requires times != [] && Ready(b, times[0])
    ensures Allowed(Refill(b, times[0]), times) == Allowed(b, times)
  {
    RefillTwice(b, times[0]);
  }

  /** Whatever happened before, the calls of a span of D seconds include fewer than
      maxPerSec * (D + 1) + 1 allowed ones. */
  lemma RateBound(b: Bucket, times: seq<real>, span: real)
    requires times != [] && Monotone(times) && Ready(b, times[0])
    requires times[|times| - 1] - times[0] <= span
    ensures UnderRate(Allowed(b, times), b.maxPerSec, span)
  {
    var t0, tn := times[0], times[|times| - 1];
    var r := Refill(b, t0);
    AllowedAfterRefill(b, times);
    RefillCredit(b, t0);
    CreditOverRuns(r, times, tn);
    SpendBound(r, AfterAll(r, times), Allowed(r, times), t0, tn, span);
  }

  lemma RefillTwice(b: Bucket, now: real)
    requires Ready(b, now)
    ensures Refill(Refill(b, now), now) == Refill(b, now)
  {
    assert Refill(b, now) == b || Refill(b, now).lastRefill == now;
  }

  lemma MonotoneParts(first: seq<real>, second: seq<real>)
    requires Monotone(first + second)
    ensures Monotone(first) && Monotone(second)
    ensures first != [] && second != [] ==> first[|first| - 1] <= second[0] && first[0] <= second[0]
  {
    var all := first + second;
    assert forall i :: 0 <= i < |first| ==> first[i] == all[i];
    assert forall i :: 0 <= i < |second| ==> second[i] == all[|first| + i];
  }

  /** Every reachable limiter is Ready, so the bound holds for every window of every run:
      history is everything before the window. */
  lemma RateBoundInEveryWindow(maxPerSec: nat, t0: real, history: seq<real>, window: seq<real>, span: real)
    requires window != [] && Monotone([t0] + history + window)
    requires window[|window| - 1] - window[0] <= span
    ensures UnderRate(Allowed(AfterAll(Start(maxPerSec, t0), history), window), maxPerSec, span)
  {
    assert [t0] + history + window == [t0] + (history + window);
    MonotoneParts([t0], history + window);
    MonotoneParts(history, window);
    assert history != [] ==> (history + window)[0] == history[0];
    CreditOverRuns(Start(maxPerSec, t0), history, window[0]);
    RateBound(AfterAll(Start(maxPerSec, t0), history), window, span);
  }

  lemma EarnsNothing(maxPerSec: int, elapsed: real)
    requires maxPerSec <= 0 && elapsed > 0.0
    ensures Earned(maxPerSec, elapsed) <= 0
  {
    assert elapsed * (-maxPerSec) as real >= 0.0;
  }

  /** A limiter without a positive rate never allows a push, whatever the clock does. */
  lemma {:induction false} NeverWithoutRate(b: Bucket, times: seq<real>)
    requires b.maxPerSec <= 0 && b.tokens <= b.maxPerSec
    ensures Allowed(b, times) == 0
    decreases |times|
  {
    if times != [] {
      if times[0] - b.lastRefill > 0.0 {
        EarnsNothing(b.maxPerSec, times[0] - b.lastRefill);
      }
      NeverWithoutRate(b, times[1..]);
    }
  }

  // ---------- a lower bound ----------

  /** The calls follow each other, and the time before, by at most a token's worth of time. */
  ghost predicate Dense(maxPerSec: nat, before: real, times: seq<real>) {
    times != [] ==>
      && before <= times[0] && maxPerSec as real * (times[0] - before) <= 1.0
      && forall i :: 0 < i < |times| ==>
           times[i - 1] <= times[i] && maxPerSec as real * (times[i] - times[i - 1]) <= 1.0
  }

  /** From one refill to a later one at most two tokens' worth of time passes per allowed call. */
  predicate Keeps(b: Bucket, end: Bucket, allowed: nat) {
    end.maxPerSec == b.maxPerSec && b.maxPerSec as real * (end.lastRefill - b.lastRefill) <= 2.0 * allowed as real
  }

  lemma KeepsChain(b: Bucket, t: Bucket, end: Bucket, first: nat, rest: nat)
    requires Keeps(b, t, first) && Keeps(t, end, rest)
    ensures Keeps(b, end, first + rest)
  {
    var rate := b.maxPerSec as real;
    assert rate * (end.lastRefill - b.lastRefill) ==
           rate * (end.lastRefill - t.lastRefill) + rate * (t.lastRefill - b.lastRefill);
  }

  /** A refill of a dense sequence comes before two tokens' worth of time have passed. */
  lemma DenseStep(b: Bucket, before: real, now: real)
    requires Ready(b, before) && Settled(b, before) && b.maxPerSec > 0
    requires before <= now && b.maxPerSec as real * (now - before) <= 1.0
    ensures var t := After(b, now);
            Ready(t, now) && Settled(t, now) && Keeps(b, t, if Allows(b, now) then 1 else 0)
  {
    var rate := b.maxPerSec as real;
    RefillCredit(b, now);
    EarnedBounds(b.maxPerSec, now - b.lastRefill);
    assert rate * (now - b.lastRefill) == rate * (now - before) + rate * (before - b.lastRefill);
    assert rate * (b.lastRefill - b.lastRefill) == 0.0;
  }

  lemma {:induction false} DenseAllows(b: Bucket, before: real, times: seq<real>)
    requires Ready(b, before) && Settled(b, before) && b.maxPerSec > 0 && Dense(b.maxPerSec, before, times)
    ensures Keeps(b, AfterAll(b, times), Allowed(b, times))
    ensures Settled(AfterAll(b, times), if times == [] then before else times[|times| - 1])
    decreases |times|
  {
    if times == [] {
      assert b.maxPerSec as real * (b.lastRefill - b.lastRefill) == 0.0;
    } else {
      DenseTail(b.maxPerSec, before, times);
      DenseStep(b, before, times[0]);
      var t := After(b, times[0]);
      DenseAllows(t, times[0], times[1..]);
      KeepsChain(b, t, AfterAll(b, times), if Allows(b, times[0]) then 1 else 0, Allowed(t, times[1..]));
    }
  }

  lemma DenseTail(n: nat, before: real, times: seq<real>)
    requires times != [] && Dense(n, before, times)
    ensures Dense(n, times[0], times[1..])
  {
    assert forall i :: 0 <= i < |times| - 1 ==> times[1..][i] == times[i + 1];
  }

  predicate AtLeastHalf(allowed: nat, maxPerSec: int, span: real) {
    2.0 * allowed as real + 1.0 > maxPerSec as real * span
  }

  lemma HalfBound(b: Bucket, end: Bucket, allowed: nat, now: real)
    requires Keeps(b, end, allowed) && Settled(end, now)
    ensures AtLeastHalf(allowed, b.maxPerSec, now - b.lastRefill)
  {
    var rate := b.maxPerSec as real;
    assert rate * (now - b.lastRefill) == rate * (now - end.lastRefill) + rate * (end.lastRefill - b.lastRefill);
  }

  /** For every dense sequence of calls that spans D seconds from the last refill, more than
      (maxPerSec * D - 1) / 2 calls are allowed: no more than half of what is earned is lost to
      rounding. */
  lemma RateAtLeastHalf(b: Bucket, before: real, times: seq<real>)
    requires Ready(b, before) && Settled(b, before) && b.maxPerSec > 0 && Dense(b.maxPerSec, before, times)
    requires times != []
    ensures AtLeastHalf(Allowed(b, times), b.maxPerSec, times[|times| - 1] - b.lastRefill)
  {
    DenseAllows(b, before, times);
    HalfBound(b, AfterAll(b, times), Allowed(b, times), times[|times| - 1]);
  }

  // ---------- the bound is tight ----------

  function Burst(n: nat, now: real): seq<real> {
    if n == 0 then [] else [now] + Burst(n - 1, now)
  }

  lemma {:induction false} AllowedAppend(b: Bucket, first: seq<real>, second: seq<real>)
    ensures AfterAll(b, first + second) == AfterAll(AfterAll(b, first), second)
    ensures Allowed(b, first + second) == Allowed(b, first) + Allowed(AfterAll(b, first), second)
    decreases |first|
  {
    if first == [] {
      assert first + second == second;
    } else {
      assert (first + second)[1..] == first[1..] + second;
      AllowedAppend(After(b, first[0]), first[1..], second);
    }
  }

  /** Calls at one instant drain the tokens one by one. */
  lemma {:induction false} BurstDrains(b: Bucket, n: nat)
    requires n <= b.tokens
    ensures Allowed(b, Burst(n, b.lastRefill)) == n
    ensures AfterAll(b, Burst(n, b.lastRefill)) == b.(tokens := b.tokens - n)
    decreases n
  {
    if n > 0 {
      assert Burst(n, b.lastRefill)[1..] == Burst(n - 1, b.lastRefill);
      BurstDrains(b.(tokens := b.tokens - 1), n - 1);
    }
  }

  /** A full burst at each of the seconds start, start + 1, ..., start + seconds. */
  function Bursts(n: nat, start: real, seconds: nat): seq<real> {
    if seconds == 0 then Burst(n, start)
    else Bursts(n, start, seconds - 1) + Burst(n, start + seconds as real)
  }

  /** A second after it ran dry the bucket is full again. */
  lemma SecondRefills(n: nat, now: real)
    requires n > 0
    ensures Refill(Bucket(n, 0, now - 1.0), now) == Bucket(n, n, now)
    ensures Refill(Bucket(n, n, now), now) == Bucket(n, n, now)
  {
    var elapsed := now - (now - 1.0);
    assert elapsed == 1.0;
    assert Earned(n, elapsed) == n;
  }

  lemma BurstAfterSecond(n: nat, now: real)
    requires n > 0
    ensures Allowed(Bucket(n, 0, now - 1.0), Burst(n, now)) == n
    ensures AfterAll(Bucket(n, 0, now - 1.0), Burst(n, now)) == Bucket(n, 0, now)
  {
    SecondRefills(n, now);
    assert Burst(n, now)[0] == now;
    BurstDrains(Bucket(n, n, now), n);
  }

  /** maxPerSec * (D + 1) pushes in D seconds do happen, for every whole D. */
  lemma {:induction false} BoundIsReached(n: nat, start: real, seconds: nat)
    ensures Allowed(Start(n, start), Bursts(n, start, seconds)) == n * (seconds + 1)
    ensures AfterAll(Start(n, start), Bursts(n, start, seconds)).tokens == 0
    ensures AfterAll(Start(n, start), Bursts(n, start, seconds)).maxPerSec == n
    ensures n > 0 ==> AfterAll(Start(n, start), Bursts(n, start, seconds)).lastRefill == start + seconds as real
    decreases seconds
  {
    var b := Start(n, start);
    if seconds == 0 {
      BurstDrains(b, n);
    } else {
      BoundIsReached(n, start, seconds - 1);
      var now := start + seconds as real;
      var empty := AfterAll(b, Bursts(n, start, seconds - 1));
      AllowedAppend(b, Bursts(n, start, seconds - 1), Burst(n, now));
      if n > 0 {
        assert empty == Bucket(n, 0, now - 1.0);
        BurstAfterSecond(n, now);
      }
      assert n * (seconds + 1) == n * seconds + n;
    }
  }
}
