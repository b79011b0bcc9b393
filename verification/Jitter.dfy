/**
 Decorrelated-jitter retry delays and the dead/retry decision built on them.

 The source computes with doubles.  Rounding is not the point here, but overflow is: the growth
 curve is an unbounded power, so `Double` keeps Infinity and NaN next to exact reals.
 */
module Jitter {
  import opened Wrappers

  const BASE_MS := 1000
  const CAP_MS := 12 * 60 * 60 * 1000
  const MULTIPLIER := 3
  const MAX_RETRY_SECONDS := 43200

  /** Ticks of the database clock in one second. */
  const SECOND := 1_000_000

  datatype Double = Finite(r: real) | Infinity | NaN

  function Power(base: real, n: nat): real {
    if n == 0 then 1.0 else base * Power(base, n - 1)
  }

  /** The least real that rounds to Infinity. */
  function Overflow(): real {
    Power(2.0, 1024) - Power(2.0, 970)
  }

  function Rounded(r: real): Double {
    if r >= Overflow() then Infinity else Finite(r)
  }

  /** Multiplication of non-negative doubles. */
  function Times(a: Double, b: Double): Double {
    match (a, b)
    case (Finite(x), Finite(y)) => Rounded(x * y)
    case (Infinity, Finite(y)) => if y == 0.0 then NaN else Infinity
    case (Finite(x), Infinity) => if x == 0.0 then NaN else Infinity
    case (Infinity, Infinity) => Infinity
    case _ => NaN
  }

  function Exponent(attempts: int): nat {
    if attempts < 0 then 0 else attempts
  }

  function ExpectedDelayFromAttempts(attempts: int): Double {
    Times(Finite(BASE_MS as real), Rounded(Power(MULTIPLIER as real, Exponent(attempts))))
  }

  /** What was drawn on top of the base, in whole milliseconds. */
  function Capped(part: real): int {
    var delay := (BASE_MS as real + part).Floor;
    if CAP_MS < delay then CAP_MS else delay
  }

  function Fraction(sample: real, span: real): real {
    sample * span
  }

  function Drawn(sample: real, upper: real): int {
    Capped(Fraction(sample, upper - BASE_MS as real))
  }

  /** `sample` is the uniform random draw.  None is NaN. */
  function NextDelayMs(last: Double, sample: real): Option<int>
    requires 0.0 <= sample < 1.0
  {
    match Times(last, Finite(MULTIPLIER as real))
    case NaN => None
    case Infinity => if sample == 0.0 then None else Some(CAP_MS)
    case Finite(grown) =>
      var upper := if grown < BASE_MS as real then BASE_MS as real else grown;
      Some(Drawn(sample, upper))
  }

  function RetryAfterSeconds(attempts: int, sample: real): Option<int>
    requires 0.0 <= sample < 1.0
  {
    match NextDelayMs(ExpectedDelayFromAttempts(attempts), sample)
    case None => None
    case Some(ms) => Some((ms + 999) / 1000)
  }

  /** The attempt count pushes the sampling bound itself past the largest double. */
  predicate Overflows(attempts: int) {
    (MULTIPLIER * BASE_MS) as real * Power(MULTIPLIER as real, Exponent(attempts)) >= Overflow()
  }

  lemma {:induction false} PowerAtLeastOne(base: real, n: nat)
    requires base >= 1.0
    ensures Power(base, n) >= 1.0
  {
    if n > 0 {
      PowerAtLeastOne(base, n - 1);
      assert base * Power(base, n - 1) >= base * 1.0;
    }
  }

  lemma {:induction false} PowerGrowsWithBase(a: real, b: real, n: nat)
    requires 1.0 <= a <= b
    ensures Power(a, n) <= Power(b, n)
  {
    if n > 0 {
      PowerGrowsWithBase(a, b, n - 1);
      PowerAtLeastOne(a, n - 1);
      assert a * Power(a, n - 1) <= b * Power(a, n - 1) <= b * Power(b, n - 1);
    }
  }

  lemma {:induction false} PowerAdds(base: real, m: nat, n: nat)
    ensures Power(base, m + n) == Power(base, m) * Power(base, n)
  {
    if m > 0 {
      PowerAdds(base, m - 1, n);
      assert base * (Power(base, m - 1) * Power(base, n)) == (base * Power(base, m - 1)) * Power(base, n);
    }
  }

  lemma {:induction false} PowerIncreases(base: real, m: nat, n: nat)
    requires base >= 1.0 && m <= n
    ensures Power(base, m) <= Power(base, n)
  {
    PowerAdds(base, m, n - m);
    PowerAtLeastOne(base, m);
    PowerAtLeastOne(base, n - m);
    assert Power(base, m) * 1.0 <= Power(base, m) * Power(base, n - m);
  }

  lemma {:induction false} PowerOfSquare(n: nat)
    ensures Power(4.0, n) == Power(2.0, 2 * n)
  {
    if n > 0 {
      PowerOfSquare(n - 1);
      assert Power(2.0, 2 * n) == 2.0 * Power(2.0, 2 * n - 1) == 4.0 * Power(2.0, 2 * (n - 1));
    }
  }

  lemma OverflowIsLarge()
    ensures Power(2.0, 1023) <= Overflow() <= Power(2.0, 1024)
    ensures Overflow() > 3000.0
  {
    PowerIncreases(2.0, 970, 1023);
    assert Power(2.0, 1024) == 2.0 * Power(2.0, 1023);
    PowerIncreases(2.0, 12, 1023);
    PowerAtLeastOne(2.0, 970);
    FourThousandNinetySix();
  }

  /** What the source hands to the sampler, with both overflow points in one place. */
  lemma SamplingBound(attempts: int)
    ensures var grown := Times(ExpectedDelayFromAttempts(attempts), Finite(MULTIPLIER as real));
            if Overflows(attempts) then grown == Infinity
            else grown == Finite(3000.0 * Power(3.0, Exponent(attempts)))
  {
    OverflowIsLarge();
    PowerAtLeastOne(3.0, Exponent(attempts));
  }

  lemma ProductNonNegative(a: real, b: real)
    requires a >= 0.0 && b >= 0.0
    ensures a * b >= 0.0
  {
  }

  lemma FractionShrinks(sample: real, span: real)
    requires 0.0 <= sample < 1.0 && span >= 0.0
    ensures 0.0 <= Fraction(sample, span) <= span
  {
    var rest := 1.0 - sample;
    ProductNonNegative(sample, span);
    ProductNonNegative(rest, span);
    assert rest * span + sample * span == (rest + sample) * span == span;
  }

  lemma CappedBounds(part: real, upper: real)
    requires 0.0 <= part <= upper - BASE_MS as real
    ensures BASE_MS <= Capped(part) <= CAP_MS && Capped(part) as real <= upper
  {
  }

  lemma DrawnBounds(sample: real, upper: real)
    requires 0.0 <= sample < 1.0 && upper >= BASE_MS as real
    ensures BASE_MS <= Drawn(sample, upper) <= CAP_MS && Drawn(sample, upper) as real <= upper
  {
    var span := upper - BASE_MS as real;
    FractionShrinks(sample, span);
    CappedBounds(Fraction(sample, span), upper);
  }

  /** The delay is drawn below the growth curve, unless that overflowed. */
  lemma DelayIsDrawn(attempts: int, sample: real) returns (grown: real)
    requires 0.0 <= sample < 1.0
    ensures grown == 3000.0 * Power(3.0, Exponent(attempts)) >= 3000.0
    ensures NextDelayMs(ExpectedDelayFromAttempts(attempts), sample) ==
            if !Overflows(attempts) then Some(Drawn(sample, grown))
            else if sample == 0.0 then None else Some(CAP_MS)
  {
    SamplingBound(attempts);
    PowerAtLeastOne(3.0, Exponent(attempts));
    grown := 3000.0 * Power(3.0, Exponent(attempts));
  }

  /** The retry delay lies in [1 s, 12 h] for every attempt count, unless the bound overflowed and the draw was zero. */
  lemma RetryWithinBounds(attempts: int, sample: real)
    requires 0.0 <= sample < 1.0
    ensures (RetryAfterSeconds(attempts, sample).Some? && 1 <= RetryAfterSeconds(attempts, sample).value <= MAX_RETRY_SECONDS)
            <==> !(Overflows(attempts) && sample == 0.0)
  {
    var grown := DelayIsDrawn(attempts, sample);
    DrawnBounds(sample, grown);
  }

  /** The delay never exceeds the growth curve either, rounded up to whole seconds. */
  lemma RetryFollowsGrowth(attempts: int, sample: real)
    requires 0.0 <= sample < 1.0 && !Overflows(attempts)
    ensures RetryAfterSeconds(attempts, sample).Some?
    ensures (RetryAfterSeconds(attempts, sample).value - 1) as real < 3.0 * Power(3.0, Exponent(attempts))
  {
    var grown := DelayIsDrawn(attempts, sample);
    DrawnBounds(sample, grown);
    SecondsRoundedUp(Drawn(sample, grown), grown);
  }

  lemma SecondsRoundedUp(ms: int, bound: real)
    requires ms as real <= bound
    ensures ((ms + 999) / 1000 - 1) as real < bound / 1000.0
  {
    var whole := (ms + 999) / 1000 - 1;
    assert 1000 * whole < ms;
    assert (1000 * whole) as real == 1000.0 * whole as real;
  }

  lemma FractionGrows(low: real, high: real, span: real)
    requires low <= high && span >= 0.0
    ensures Fraction(low, span) <= Fraction(high, span)
  {
    ProductNonNegative(high - low, span);
    assert high * span == (high - low) * span + low * span;
  }

  lemma WholeMilliseconds(sample: real, grown: real, drawn: real)
    requires drawn == 1000.0 + sample * (grown - 1000.0)
    ensures Drawn(sample, grown) == if drawn >= 43_200_000.0 then 43_200_000 else drawn.Floor
  {
    assert Fraction(sample, grown - BASE_MS as real) == drawn - 1000.0;
  }

  lemma WholeSeconds(attempts: int, sample: real, ms: int)
    requires 0.0 <= sample < 1.0 && NextDelayMs(ExpectedDelayFromAttempts(attempts), sample) == Some(ms)
    ensures var wait := RetryAfterSeconds(attempts, sample);
            wait.Some? && 1000 * (wait.value - 1) < ms <= 1000 * wait.value
  {
  }

  /**
   The delay to the second: drawn evenly between one second and the growth curve, cut at twelve hours,
   and rounded up.
   */
  lemma RetryExactly(attempts: int, sample: real, curve: real, drawn: real, ms: int)
    requires 0.0 <= sample < 1.0 && !(Overflows(attempts) && sample == 0.0)
    requires curve == 3000.0 * Power(3.0, if attempts < 0 then 0 else attempts)
    requires drawn == 1000.0 + sample * (curve - 1000.0)
    requires ms == if Overflows(attempts) || drawn >= 43_200_000.0 then 43_200_000 else drawn.Floor
    ensures var wait := RetryAfterSeconds(attempts, sample);
            wait.Some? && 1000 * (wait.value - 1) < ms <= 1000 * wait.value
  {
    assert NextDelayMs(ExpectedDelayFromAttempts(attempts), sample) == Some(ms) by {
      var grown := DelayIsDrawn(attempts, sample);
      assert grown == curve;
      WholeMilliseconds(sample, curve, drawn);
    }
    WholeSeconds(attempts, sample, ms);
  }

  /** Within one attempt count a larger draw never means a shorter wait. */
  lemma RetryGrowsWithDraw(attempts: int, low: real, high: real)
    requires 0.0 <= low <= high < 1.0 && !(Overflows(attempts) && low == 0.0)
    ensures RetryAfterSeconds(attempts, low).Some? && RetryAfterSeconds(attempts, high).Some?
    ensures RetryAfterSeconds(attempts, low).value <= RetryAfterSeconds(attempts, high).value
  {
    var grown := DelayIsDrawn(attempts, low);
    var again := DelayIsDrawn(attempts, high);
    FractionGrows(low, high, grown - 1000.0);
  }

  /** With one draw more attempts never mean a shorter wait. */
  lemma RetryGrowsWithAttempts(few: int, many: int, sample: real)
    requires 0.0 <= sample < 1.0 && few <= many && !Overflows(many)
    ensures RetryAfterSeconds(few, sample).Some? && RetryAfterSeconds(many, sample).Some?
    ensures RetryAfterSeconds(few, sample).value <= RetryAfterSeconds(many, sample).value
  {
    PowerIncreases(3.0, Exponent(few), Exponent(many));
    var shorter := DelayIsDrawn(few, sample);
    var longer := DelayIsDrawn(many, sample);
    SpanGrows(sample, shorter - 1000.0, longer - 1000.0);
  }

  lemma SpanGrows(sample: real, small: real, large: real)
    requires 0.0 <= sample && small <= large
    ensures Fraction(sample, small) <= Fraction(sample, large)
  {
    ProductNonNegative(sample, large - small);
    assert sample * large == sample * (large - small) + sample * small;
  }

  /** Attempt counts up to 500 are safe whatever the draw; from 1024 on a zero draw yields NaN. */
  lemma OverflowRange(attempts: int)
    ensures attempts <= 500 ==> !Overflows(attempts)
    ensures attempts >= 1024 ==> Overflows(attempts) && RetryAfterSeconds(attempts, 0.0) == None
  {
    OverflowIsLarge();
    var n := Exponent(attempts);
    if attempts <= 500 {
      PowerGrowsWithBase(3.0, 4.0, n);
      PowerOfSquare(n);
      PowerIncreases(2.0, 2 * n, 1000);
      PowerAdds(2.0, 12, 1000);
      PowerIncreases(2.0, 1012, 1022);
      assert Power(2.0, 1023) == 2.0 * Power(2.0, 1022);
      PowerAtLeastOne(2.0, 1022);
      FourThousandNinetySix();
    } else if attempts >= 1024 {
      PowerGrowsWithBase(2.0, 3.0, n);
      PowerIncreases(2.0, 1024, n);
      SamplingBound(attempts);
    }
  }

  lemma FourThousandNinetySix()
    ensures Power(2.0, 12) == 4096.0
  {
    assert Power(2.0, 8) == 2.0 * 2.0 * 2.0 * 2.0 * Power(2.0, 4);
    assert Power(2.0, 12) == 2.0 * 2.0 * 2.0 * 2.0 * Power(2.0, 8);
  }

  // ---------- dead or retry ----------

  /** Durations here are ticks of the database clock. */
  datatype FailurePolicy = FailurePolicy(wasDead: bool, maxAttempts: int, deadRetry: nat)

  datatype FailureSchedule = FailureSchedule(dead: bool, retryAfter: int)

  /** None: the delay came out as NaN and the write that would carry it is refused. */
  function Schedule(attempts: int, policy: FailurePolicy, sample: real): Option<FailureSchedule>
    requires 0.0 <= sample < 1.0
  {
    var dead := policy.wasDead || attempts >= policy.maxAttempts;
    if dead then Some(FailureSchedule(true, policy.deadRetry))
    else
      match RetryAfterSeconds(attempts, sample)
      case None => None
      case Some(seconds) => Some(FailureSchedule(false, seconds * SECOND))
  }

  /** A schedule is missing exactly for a live row whose growth curve overflowed under a zero draw. */
  lemma ScheduleMissing(attempts: int, policy: FailurePolicy, sample: real)
    requires 0.0 <= sample < 1.0
    ensures Schedule(attempts, policy, sample).None? <==>
            !policy.wasDead && attempts < policy.maxAttempts && Overflows(attempts) && sample == 0.0
  {
    RetryWithinBounds(attempts, sample);
    var grown := DelayIsDrawn(attempts, sample);
  }

  /** Every scheduled retry is the dead cadence or the drawn delay, at most twelve hours away. */
  lemma ScheduleBound(attempts: int, policy: FailurePolicy, sample: real)
    requires 0.0 <= sample < 1.0 && Schedule(attempts, policy, sample).Some?
    ensures var s := Schedule(attempts, policy, sample).value;
      && (s.dead <==> policy.wasDead || attempts >= policy.maxAttempts)
      && (s.dead ==> s.retryAfter == policy.deadRetry)
      && (!s.dead ==> SECOND <= s.retryAfter <= MAX_RETRY_SECONDS * SECOND)
      && (!s.dead ==> RetryAfterSeconds(attempts, sample).Some?
                      && s.retryAfter == RetryAfterSeconds(attempts, sample).value * 1_000_000)
  {
    RetryWithinBounds(attempts, sample);
  }
}
