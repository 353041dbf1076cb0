/** The batch size tuner (internal/exporter/batchtuner.go). Floating point is taken as real
    arithmetic, and conversion to an integer as floor, since every operand is positive. */
module BatchTuner {
  import opened Collections
  import opened ExportErrors

  datatype Settings = Settings(minBytes: int, maxBytes: int, streak: int, grow: real, shrink: real)

  /** Settings out of range fall back to the defaults. */
  function Normalised(s: Settings): (n: Settings)
    ensures Sound(n)
    ensures s.minBytes > 0 && s.maxBytes > 0 && s.streak > 0 && s.grow > 1.0 && 0.0 < s.shrink < 1.0 ==> n == s
  {
    Settings(
      if s.minBytes <= 0 then 512 else s.minBytes,
      if s.maxBytes <= 0 then 16777216 else s.maxBytes,
      if s.streak <= 0 then 10 else s.streak,
      if s.grow <= 1.0 then 1.25 else s.grow,
      if s.shrink <= 0.0 || s.shrink >= 1.0 then 0.5 else s.shrink)
  }

  predicate Sound(s: Settings) {
    0 < s.minBytes && 0 < s.maxBytes && 0 < s.streak && 1.0 < s.grow && 0.0 < s.shrink < 1.0
  }

  /** current is the size in force, ceiling the one discovered by status 413 (0: none), and
      ok the successes since the last growth or failure. */
  datatype Tuner = Tuner(settings: Settings, current: int, ceiling: int, ok: int)

  function Start(s: Settings): Tuner {
    var n := Normalised(s);
    Tuner(n, n.maxBytes, 0, 0)
  }

  function Scale(bytes: int, factor: real): int {
    (bytes as real * factor).Floor
  }

  /** The most a growth can reach. */
  function Cap(t: Tuner): int {
    if t.ceiling > 0 then Min(t.ceiling, t.settings.maxBytes) else t.settings.maxBytes
  }

  function Grow(t: Tuner): Tuner {
    t.(current := Min(Scale(t.current, t.settings.grow), Cap(t)), ok := 0)
  }

  function Success(t: Tuner): Tuner {
    if t.ok + 1 >= t.settings.streak then Grow(t) else t.(ok := t.ok + 1)
  }

  /** None is an error that is not an ExportError value. */
  predicate Is413(err: Option<ExportError>) {
    err.Some? && err.value.status == 413
  }

  function Ceiling(t: Tuner): int {
    Max(Scale(t.current, 0.8), t.settings.minBytes)
  }

  function Failure(t: Tuner, err: Option<ExportError>): Tuner {
    t.(current := Max(Scale(t.current, t.settings.shrink), t.settings.minBytes),
       ceiling := if Is413(err) then Ceiling(t) else t.ceiling, ok := 0)
  }

  datatype Event = Succeeded | Failed(err: Option<ExportError>)

  function Next(t: Tuner, e: Event): Tuner {
    if e.Succeeded? then Success(t) else Failure(t, e.err)
  }

  function Run(t: Tuner, events: seq<Event>): Tuner
    decreases |events|
  {
    if events == [] then t else Run(Next(t, events[0]), events[1..])
  }

  // ---------- the tuner object ----------

  class AutoTuner {
    const settings: Settings
    var currentMaxBytes: int
    var hardCeiling: int
    var consecutiveOK: int

    ghost function View(): Tuner reads this {
      Tuner(settings, currentMaxBytes, hardCeiling, consecutiveOK)
    }

    constructor (s: Settings)
      ensures View() == Start(s)
    {
      settings := Normalised(s);
      currentMaxBytes, hardCeiling, consecutiveOK := Normalised(s).maxBytes, 0, 0;
    }

    method RecordSuccess()
      modifies this
      ensures View() == Success(old(View()))
    {
      consecutiveOK := consecutiveOK + 1;
      if consecutiveOK >= settings.streak {
        consecutiveOK := 0;
        var newMax := Scale(currentMaxBytes, settings.grow);
        if hardCeiling > 0 && newMax > hardCeiling {
          newMax := hardCeiling;
        }
        if newMax > settings.maxBytes {
          newMax := settings.maxBytes;
        }
        if newMax != currentMaxBytes {
          currentMaxBytes := newMax;
        }
      }
    }

    method RecordFailure(err: Option<ExportError>)
      modifies this
      ensures View() == Failure(old(View()), err)
    {
      consecutiveOK := 0;
      var current := currentMaxBytes;
      if Is413(err) {
        var ceiling := Scale(current, 0.8);
        if ceiling < settings.minBytes {
          ceiling := settings.minBytes;
        }
        hardCeiling := ceiling;
      }
      var newMax := Scale(current, settings.shrink);
      if newMax < settings.minBytes {
        newMax := settings.minBytes;
      }
      if newMax != current {
        currentMaxBytes := newMax;
      }
    }
  }

  // ---------- scaling ----------

  lemma TimesMonotone(a: real, b: real, f: real)
    requires a <= b && 0.0 <= f
    ensures a * f <= b * f
  {
    var d := b - a;
    assert d * f >= 0.0;
    assert (a + d) * f == a * f + d * f;
  }

  lemma FloorMonotone(x: real, y: real)
    requires x <= y
    ensures x.Floor <= y.Floor
  {
  }

  lemma ScaleUp(bytes: int, factor: real)
    requires bytes >= 0 && factor >= 1.0
    ensures Scale(bytes, factor) >= bytes
  {
    TimesMonotone(1.0, factor, bytes as real);
    FloorMonotone(bytes as real, bytes as real * factor);
  }

  lemma ScaleDown(bytes: int, factor: real)
    requires bytes >= 0 && 0.0 <= factor <= 1.0
    ensures 0 <= Scale(bytes, factor) <= bytes
  {
    TimesMonotone(0.0, factor, bytes as real);
    TimesMonotone(factor, 1.0, bytes as real);
    FloorMonotone(0.0, bytes as real * factor);
    FloorMonotone(bytes as real * factor, bytes as real);
  }

  lemma ScaleMonotone(a: int, b: int, factor: real)
    requires a <= b && 0.0 <= factor
    ensures Scale(a, factor) <= Scale(b, factor)
  {
    TimesMonotone(a as real, b as real, factor);
    FloorMonotone(a as real * factor, b as real * factor);
  }

  lemma ScaleByFactor(bytes: int, f: real, g: real)
    requires bytes >= 0 && f <= g
    ensures Scale(bytes, f) <= Scale(bytes, g)
  {
    TimesMonotone(f, g, bytes as real);
    FloorMonotone(bytes as real * f, bytes as real * g);
  }

  // ---------- bounds over every run ----------

  /** The size is within its configured range, and 80% of it is never above the ceiling. */
  predicate Valid(t: Tuner) {
    && Sound(t.settings) && t.settings.minBytes <= t.settings.maxBytes
    && t.settings.minBytes <= t.current <= t.settings.maxBytes
    && 0 <= t.ok < t.settings.streak
    && (t.ceiling == 0 || (t.settings.minBytes <= t.ceiling && Scale(t.current, 0.8) <= t.ceiling))
  }

  lemma SuccessValid(t: Tuner)
    requires Valid(t)
    ensures Valid(Success(t)) && Success(t).ceiling == t.ceiling
  {
    if t.ok + 1 >= t.settings.streak {
      ScaleUp(t.current, t.settings.grow);
      if t.ceiling > 0 {
        ScaleDown(Grow(t).current, 0.8);
      }
    }
  }

  lemma FailureValid(t: Tuner, err: Option<ExportError>)
    requires Valid(t)
    ensures Valid(Failure(t, err)) && Failure(t, err).current <= t.current
    ensures t.ceiling > 0 ==> 0 < Failure(t, err).ceiling <= t.ceiling
  {
    ScaleDown(t.current, t.settings.shrink);
    ScaleMonotone(Failure(t, err).current, t.current, 0.8);
  }

  /** In every run the size stays between the minimum and the maximum, and a discovered
      ceiling never rises and is never forgotten, for every shrink factor. */
  lemma {:induction false} RunValid(t: Tuner, events: seq<Event>)
    requires Valid(t)
    ensures Valid(Run(t, events)) && Run(t, events).settings == t.settings
    ensures t.ceiling > 0 ==> 0 < Run(t, events).ceiling <= t.ceiling
    decreases |events|
  {
    if events != [] {
      SuccessValid(t);
      if events[0].Failed? {
        FailureValid(t, events[0].err);
      }
      RunValid(Next(t, events[0]), events[1..]);
    }
  }

  /** A fresh tuner is within range if and only if the configured minimum does not exceed the
      maximum; otherwise it starts below its own minimum. */
  lemma StartValidIff(s: Settings)
    ensures Valid(Start(s)) <==> Normalised(s).minBytes <= Normalised(s).maxBytes
    ensures !Valid(Start(s)) ==> Start(s).current < Normalised(s).minBytes
  {
  }

  /** to is from scaled by the factor, rounded down. */
  predicate RoundsTo(from: int, factor: real, to: int) {
    to as real <= from as real * factor < to as real + 1.0
  }

  lemma ScaleRounds(bytes: int, factor: real)
    ensures RoundsTo(bytes, factor, Scale(bytes, factor))
  {
  }

  lemma ScaleShrinks(bytes: int, factor: real)
    requires 0 < bytes && 0.0 < factor < 1.0
    ensures Scale(bytes, factor) < bytes
  {
    StrictlyLess(bytes as real, factor);
  }

  lemma StrictlyLess(c: real, f: real)
    requires 0.0 < c && f < 1.0
    ensures c * f < c
  {
    var d := 1.0 - f;
    assert c * d > 0.0;
    assert c * d == c - c * f;
  }

  /** Every failure, whatever its error, shrinks the size by the factor, down to the minimum, and
      ends the streak. */
  lemma FailureShrinks(t: Tuner, err: Option<ExportError>)
    requires Valid(t)
    ensures var after := Failure(t, err);
            && after.ok == 0 && after.current >= t.settings.minBytes
            && (t.current > t.settings.minBytes ==> after.current < t.current)
            && (after.current > t.settings.minBytes ==> RoundsTo(t.current, t.settings.shrink, after.current))
  {
    ScaleRounds(t.current, t.settings.shrink);
    ScaleShrinks(t.current, t.settings.shrink);
  }

  /** Only status 413 moves the ceiling. */
  lemma OnlyTooLargeSetsCeiling(t: Tuner, err: Option<ExportError>)
    ensures err.None? || err.value.status != 413 ==> Failure(t, err).ceiling == t.ceiling
    ensures err.Some? && err.value.status == 413 ==>
              Failure(t, err).ceiling == Max((t.current as real * 0.8).Floor, t.settings.minBytes)
  {
  }

  // ---------- after status 413 ----------

  /** Once both the size and the ceiling are within a bound, they stay so. */
  lemma {:induction false} StaysUnder(t: Tuner, events: seq<Event>, bound: int)
    requires Valid(t) && 0 < t.ceiling <= bound && t.current <= bound
    ensures Run(t, events).current <= bound
    decreases |events|
  {
    if events != [] {
      SuccessValid(t);
      if events[0].Failed? {
        FailureValid(t, events[0].err);
      }
      StaysUnder(Next(t, events[0]), events[1..], bound);
    }
  }

  /** After a 413 at size s every later size is at most max(floor(0.8 s), min) if and only if
      the shrunk size is. */
  lemma CeilingRespectedIff(t: Tuner, err: Option<ExportError>)
    requires Valid(t) && Is413(err)
    ensures (forall events :: Run(Failure(t, err), events).current <= Ceiling(t)) <==>
            Scale(t.current, t.settings.shrink) <= Ceiling(t)
  {
    var after, bound := Failure(t, err), Ceiling(t);
    TooLargeSets(t, err);
    if Scale(t.current, t.settings.shrink) <= bound {
      forall events ensures Run(after, events).current <= bound {
        StaysUnder(after, events, bound);
      }
    } else {
      assert Run(after, []) == after;
    }
  }

  lemma TooLargeSets(t: Tuner, err: Option<ExportError>)
    requires Valid(t) && Is413(err)
    ensures var after := Failure(t, err);
            && Valid(after) && 0 < after.ceiling <= Ceiling(t)
            && (after.current <= Ceiling(t) <==> Scale(t.current, t.settings.shrink) <= Ceiling(t))
  {
    FailureValid(t, err);
  }

  /** A shrink factor of at most 0.8 always respects the ceiling. */
  lemma SmallShrinkRespects(t: Tuner, err: Option<ExportError>, events: seq<Event>)
    requires Valid(t) && Is413(err) && t.settings.shrink <= 0.8
    ensures Run(Failure(t, err), events).current <= Ceiling(t)
  {
    ScaleByFactor(t.current, t.settings.shrink, 0.8);
    CeilingRespectedIff(t, err);
  }

  /** With a larger factor it need not: 1000 bytes refused, 800 the ceiling, 900 in force. */
  lemma LargeShrinkExceeds(err: Option<ExportError>)
    requires Is413(err)
    ensures var t := Start(Settings(1, 1000, 10, 1.25, 0.9));
            Valid(t) && Failure(t, err).ceiling == 800 && Failure(t, err).current == 900
  {
    assert (1000.0 * 0.9).Floor == 900 && (1000.0 * 0.8).Floor == 800;
  }

  // ---------- growth ----------

  function Successes(t: Tuner, n: nat): Tuner
    decreases n
  {
    if n == 0 then t else Successes(Success(t), n - 1)
  }

  lemma {:induction false} SuccessesAdd(t: Tuner, m: nat, n: nat)
    ensures Successes(t, m + n) == Successes(Successes(t, m), n)
    decreases m
  {
    if m > 0 {
      SuccessesAdd(Success(t), m - 1, n);
    }
  }

  lemma {:induction false} StreakGrows(t: Tuner)
    requires Valid(t)
    ensures Successes(t, t.settings.streak - t.ok) == Grow(t)
    decreases t.settings.streak - t.ok
  {
    var left := t.settings.streak - t.ok;
    if left == 1 {
      assert Successes(Success(t), 0) == Grow(t);
    } else {
      StreakGrows(t.(ok := t.ok + 1));
      assert Grow(t.(ok := t.ok + 1)) == Grow(t);
    }
  }

  function Gain(bytes: int, grow: real): real {
    bytes as real * (grow - 1.0)
  }

  lemma GainMonotone(a: int, b: int, grow: real)
    requires a <= b && 1.0 <= grow
    ensures Gain(a, grow) <= Gain(b, grow)
  {
    TimesMonotone(a as real, b as real, grow - 1.0);
  }

  /** A growth gains at least one byte: current * (grow - 1) >= 1. */
  predicate CanGrow(t: Tuner) {
    Gain(t.current, t.settings.grow) >= 1.0
  }

  /** A growth changes the scaled size if and only if it gains at least one byte. */
  lemma ScaleGrowsIff(t: Tuner)
    requires Valid(t)
    ensures Scale(t.current, t.settings.grow) > t.current <==> CanGrow(t)
  {
    var c, g := t.current as real, t.settings.grow;
    assert c * (g - 1.0) == c * g - c;
  }

  lemma CanGrowMonotone(t: Tuner, u: Tuner)
    requires Valid(t) && CanGrow(t) && u.settings == t.settings && u.current >= t.current
    ensures CanGrow(u)
  {
    GainMonotone(t.current, u.current, t.settings.grow);
  }

  /** From at most its cap, enough successes bring the size exactly to the cap. */
  lemma {:induction false} ReachesCap(t: Tuner) returns (n: nat)
    requires Valid(t) && t.current <= Cap(t) && CanGrow(t)
    ensures Successes(t, n).current == Cap(t)
    decreases Cap(t) - t.current
  {
    if t.current == Cap(t) {
      return 0;
    }
    var first := t.settings.streak - t.ok;
    StreakGrows(t);
    SuccessesValid(t, first);
    ScaleGrowsIff(t);
    CanGrowMonotone(t, Grow(t));
    var rest := ReachesCap(Grow(t));
    SuccessesAdd(t, first, rest);
    return first + rest;
  }

  lemma {:induction false} SuccessesValid(t: Tuner, n: nat)
    requires Valid(t)
    ensures Valid(Successes(t, n))
    decreases n
  {
    if n > 0 {
      SuccessValid(t);
      SuccessesValid(Success(t), n - 1);
    }
  }

  lemma {:induction false} StuckForever(t: Tuner, n: nat)
    requires Valid(t) && t.current < Cap(t) && !CanGrow(t)
    ensures Successes(t, n).current == t.current
    decreases n
  {
    if n > 0 {
      SuccessValid(t);
      ScaleGrowsIff(t);
      ScaleUp(t.current, t.settings.grow);
      StuckForever(Success(t), n - 1);
    }
  }

  /** A size above the ceiling comes down to the cap with the next growth. */
  lemma GrowComesDown(t: Tuner)
    requires Valid(t) && t.current > Cap(t)
    ensures Grow(t).current == Cap(t)
  {
    ScaleUp(t.current, t.settings.grow);
  }

  /** Successes alone bring the size to the cap if and only if it is not below the cap or
      current * (grow - 1) >= 1; otherwise the size never moves again. */
  lemma ReachesCapIff(t: Tuner)
    requires Valid(t)
    ensures (exists n :: Successes(t, n).current == Cap(t)) <==> (t.current >= Cap(t) || CanGrow(t))
  {
    if t.current == Cap(t) {
      assert Successes(t, 0).current == Cap(t);
    } else if t.current > Cap(t) {
      GrowComesDown(t);
      StreakGrows(t);
    } else if CanGrow(t) {
      var n := ReachesCap(t);
    } else {
      forall n ensures Successes(t, n).current != Cap(t) {
        StuckForever(t, n);
      }
    }
  }

  /** If the minimum itself can grow, every tuner in range reaches its cap. */
  lemma MinimumGrows(t: Tuner)
    requires Valid(t) && CanGrow(t.(current := t.settings.minBytes))
    ensures exists n :: Successes(t, n).current == Cap(t)
  {
    var low := t.(current := t.settings.minBytes);
    ScaleMonotone(low.current, t.current, 0.8);
    CanGrowMonotone(low, t);
    ReachesCapIff(t);
  }
}
