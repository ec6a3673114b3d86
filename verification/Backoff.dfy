/**
 Exponential backoff with jitter (aws/client/default_retryer.go).

 Durations are Go int64 nanoseconds. `RetryRules` computes with wrapping machine arithmetic, step by step as the
 source does; `BackoffDelay` is the intended formula over unbounded integers. Random draws, the answer of
 `IsErrorThrottle` and the response header are parameters.
 */
module Backoff {
  import opened Prelude

  const TWO63 := 0x8000_0000_0000_0000
  const TWO64 := 0x1_0000_0000_0000_0000
  const SECOND := 1_000_000_000
  const MILLISECOND := 1_000_000

  predicate IsInt64(x: int) { -TWO63 <= x < TWO63 }

  /** Two's complement truncation to int64. */
  function Wrap64(x: int): (w: int)
    ensures IsInt64(w)
    ensures w == x <==> IsInt64(x)
  {
    (x + TWO63) % TWO64 - TWO63
  }

  lemma Wrap64Absorbs(a: int, b: int)
    ensures Wrap64(a + Wrap64(b)) == Wrap64(a + b)
  {
    var q := (b + TWO63) / TWO64;
    assert Wrap64(b) == b - q * TWO64;
    assert (a + b + TWO63 - q * TWO64) % TWO64 == (a + b + TWO63) % TWO64;
  }

  datatype DefaultRetryer = DefaultRetryer(
    numMaxRetries: int,
    minRetryDelay: int,
    minThrottleDelay: int,
    maxRetryDelay: int,
    maxThrottleDelay: int)
  {
    /** The delays are Go durations. */
    predicate InRange() {
      && IsInt64(minRetryDelay) && IsInt64(minThrottleDelay)
      && IsInt64(maxRetryDelay) && IsInt64(maxThrottleDelay)
    }

    /** Settings with which `RetryRules` cannot panic: no delay is negative, and no maximum is 1. */
    predicate Valid() {
      && InRange() && 0 <= minRetryDelay && 0 <= minThrottleDelay
      && 0 <= maxRetryDelay != 1 && 0 <= maxThrottleDelay != 1
    }

    /** `setRetryerDefaults`: a zero delay means that the default applies. */
    function WithDefaults(): (d: DefaultRetryer)
      ensures d.numMaxRetries == numMaxRetries
      ensures InRange() ==> d.InRange()
      ensures Valid() ==>
                && d.Valid() && d.minRetryDelay >= 1 && d.minThrottleDelay >= 1
                && d.maxRetryDelay >= 2 && d.maxThrottleDelay >= 2
    {
      DefaultRetryer(
        numMaxRetries,
        if minRetryDelay == 0 then 30 * MILLISECOND else minRetryDelay,
        if minThrottleDelay == 0 then 500 * MILLISECOND else minThrottleDelay,
        if maxRetryDelay == 0 then 300 * SECOND else maxRetryDelay,
        if maxThrottleDelay == 0 then 300 * SECOND else maxThrottleDelay)
    }

    function MinDelay(isThrottle: bool): int {
      if isThrottle then WithDefaults().minThrottleDelay else WithDefaults().minRetryDelay
    }

    function MaxDelay(isThrottle: bool): int {
      if isThrottle then WithDefaults().maxThrottleDelay else WithDefaults().maxRetryDelay
    }
  }

  /** The delay-seconds form of the header, section 7.1.3 of RFC 7231, as `strconv.Atoi` reads it. */
  datatype RetryAfter = Missing | NotANumber | Seconds(n: int)

  /** `getRetryAfterDelay`: the header counts only on the two statuses it pertains to. */
  function AcceptedSeconds(status: int, header: RetryAfter): Option<int> {
    if status !in {429, 503} then None
    else if header.Seconds? then Some(header.n)
    else None
  }

  /** The seconds that a wait is prolonged by: the accepted header of a throttled response, else none. */
  function ProlongedBy(isThrottle: bool, status: int, header: RetryAfter): int {
    if isThrottle && AcceptedSeconds(status, header).Some? then AcceptedSeconds(status, header).value else 0
  }

  /**
   What one call depends on besides its arguments: the two `Int63n` draws, whether the floating point logarithm rounded
   up, and the integer that Go makes of a logarithm that is not a number, plus one.
   */
  datatype Chance = Chance(scaled: nat, capped: nat, log2Up: bool, notANumber: int)

  /** `Int63n(n)` is any number in [0, n); it panics unless n is positive. */
  function Int63n(n: int, raw: nat): (draw: int)
    requires n > 0
    ensures 0 <= draw < n
  {
    raw % n
  }

  // ------------------------------------------------------- intended formula

  /** A duration plus a random part of itself. */
  function Jittered(duration: int, raw: nat): (delay: int)
    requires duration > 0
    ensures duration <= delay < 2 * duration
  {
    duration + Int63n(duration, raw)
  }

  /** The whole part of the logarithm of the delay, plus one. */
  function Bits(minDelay: int, chance: Chance): int {
    if minDelay >= 1 then FloorLog2(minDelay) + (if chance.log2Up then 1 else 0) + 1 else chance.notANumber
  }

  /** The guard on the shift: the bits of the delay stay clear of bit 63 after `retryCount` doublings. */
  predicate FitsShift(minDelay: int, retryCount: nat, chance: Chance) { Bits(minDelay, chance) < 63 - retryCount }

  /** The delay of a retry is drawn from half the maximum: doubling would overflow or exceed the maximum. */
  predicate IsCapped(minDelay: int, maxDelay: int, retryCount: nat, chance: Chance) {
    || !FitsShift(minDelay, retryCount, chance)
    || (minDelay >= 1 && Pow2(retryCount) * Jittered(minDelay, chance.scaled) > maxDelay)
  }

  /** `Int63n` is asked for a number below half of a maximum that is less than 2, or below a negative minimum. */
  predicate DrawPanics(minDelay: int, maxDelay: int, retryCount: nat, chance: Chance) {
    if IsCapped(minDelay, maxDelay, retryCount, chance) then maxDelay < 2 else minDelay < 1
  }

  function BackoffDelay(minDelay: int, maxDelay: int, retryCount: nat, chance: Chance): int
    requires !DrawPanics(minDelay, maxDelay, retryCount, chance)
  {
    if IsCapped(minDelay, maxDelay, retryCount, chance) then Jittered(maxDelay / 2, chance.capped)
    else Pow2(retryCount) * Jittered(minDelay, chance.scaled)
  }

  predicate Panics(d: DefaultRetryer, isThrottle: bool, retryCount: nat, chance: Chance) {
    d.numMaxRetries != 0 && DrawPanics(d.MinDelay(isThrottle), d.MaxDelay(isThrottle), retryCount, chance)
  }

  /** What the retryer waits, as an unbounded integer. */
  function IntendedDelay(d: DefaultRetryer, isThrottle: bool, status: int, header: RetryAfter,
                         retryCount: nat, chance: Chance): int
    requires !Panics(d, isThrottle, retryCount, chance)
  {
    if d.numMaxRetries == 0 then 0
    else
      BackoffDelay(d.MinDelay(isThrottle), d.MaxDelay(isThrottle), retryCount, chance)
      + ProlongedBy(isThrottle, status, header) * SECOND
  }

  /**
   A setting never makes `RetryRules` panic if and only if it allows no retry, or its minimum is positive and its
   maximum is at least 2.
   */
  lemma NeverPanicsExactlyWhen(d: DefaultRetryer, isThrottle: bool)
    ensures (forall retryCount, chance :: !Panics(d, isThrottle, retryCount, chance))
       <==> d.numMaxRetries == 0 || (d.MinDelay(isThrottle) >= 1 && d.MaxDelay(isThrottle) >= 2)
  {
    var once := Chance(0, 0, false, 0);
    if d.numMaxRetries != 0 && d.MinDelay(isThrottle) < 1 {
      assert Panics(d, isThrottle, 0, once);
    } else if d.numMaxRetries != 0 && d.MaxDelay(isThrottle) < 2 {
      assert Pow2(1) == 2;
      MulLe(Pow2(1), 1, Jittered(d.MinDelay(isThrottle), once.scaled));
      assert Panics(d, isThrottle, 1, once);
    }
  }

  // ----------------------------------------------------- machine arithmetic

  /** `getJitterDelay` in int64. */
  function JitterDelay(duration: int, raw: nat): int
    requires duration > 0
  {
    Wrap64(Int63n(duration, raw) + duration)
  }

  /** `1 << retryCount` in int64. */
  function Shl64(retryCount: nat): int {
    if retryCount >= 64 then 0 else Wrap64(Pow2(retryCount))
  }

  /** The guard leaves room for a delay of fewer than k + 2 bits to be doubled `retryCount` times. */
  lemma GuardLeavesRoom(k: nat, retryCount: nat)
    requires k + 1 < 63 - retryCount
    ensures Pow2(retryCount) < TWO63 && Pow2(k + 2) <= TWO63
    ensures Pow2(retryCount) * Pow2(k + 2) <= TWO63
  {
    Pow2Values();
    Pow2Monotone(retryCount, 62);
    Pow2Monotone(k + 2, 63);
    Pow2Add(retryCount, k + 2);
    Pow2Monotone(retryCount + (k + 2), 63);
  }

  lemma ProductBelow(a: int, b: int, bound: int)
    requires a >= 1 && 0 <= b < bound
    ensures 0 <= a * b < a * bound
  {
    MulLe(a, 0, b);
    MulLe(a, b + 1, bound);
    assert a * (b + 1) == a * b + a;
  }

  /** Behind the guard neither the shift, nor the jitter sum, nor their product leaves int64. */
  lemma GuardPreventsOverflow(minDelay: int, retryCount: nat, chance: Chance)
    requires 1 <= minDelay < TWO63
    requires FitsShift(minDelay, retryCount, chance)
    ensures retryCount < 63 && Shl64(retryCount) == Pow2(retryCount)
    ensures JitterDelay(minDelay, chance.scaled) == Jittered(minDelay, chance.scaled)
    ensures IsInt64(Pow2(retryCount) * Jittered(minDelay, chance.scaled))
  {
    var k := FloorLog2(minDelay);
    GuardLeavesRoom(k, retryCount);
    var jittered := Jittered(minDelay, chance.scaled);
    assert jittered < Pow2(k + 2);
    ProductBelow(Pow2(retryCount), jittered, Pow2(k + 2));
  }

  /** The guard cannot be weaker by one: a delay of 3 shifted by 61 is one short of it, and can leave int64. */
  lemma GuardIsTight()
    ensures FloorLog2(3) + 1 == 63 - 61 && !FitsShift(3, 61, Chance(2, 0, false, 0))
    ensures !IsInt64(Pow2(61) * Jittered(3, 2))
  {
    assert FloorLog2(3) == 1 + FloorLog2(1);
    Pow2Values();
  }

  /**
   `RetryRules`: for every retry count and all settings, the machine computation panics exactly when the formula
   says, and otherwise is the intended delay; only adding a Retry-After can wrap.
   */
  method RetryRules(retryer: DefaultRetryer, isThrottle: bool, status: int, header: RetryAfter,
                    retryCount: nat, chance: Chance) returns (total: Option<int>)
    requires retryer.InRange()
    ensures total.None? <==> Panics(retryer, isThrottle, retryCount, chance)
    ensures total.Some? ==>
              total.value == Wrap64(IntendedDelay(retryer, isThrottle, status, header, retryCount, chance))
  {
    hide Wrap64, Pow2, FloorLog2;
    if retryer.numMaxRetries == 0 {
      return Some(0);
    }
    var d := retryer.WithDefaults();
    var minDelay := d.minRetryDelay;
    var initialDelay := 0;
    if isThrottle {
      var seconds := AcceptedSeconds(status, header);
      if seconds.Some? {
        initialDelay := Wrap64(seconds.value * SECOND);
      }
      minDelay := d.minThrottleDelay;
    }
    var maxDelay := d.maxRetryDelay;
    if isThrottle {
      maxDelay := d.maxThrottleDelay;
    }
    var delay := 0;
    var capped := true;
    var actualRetryCount := Bits(minDelay, chance);
    if actualRetryCount < 63 - retryCount {
      if minDelay <= 0 {
        return None;
      }
      GuardPreventsOverflow(minDelay, retryCount, chance);
      delay := Wrap64(Shl64(retryCount) * JitterDelay(minDelay, chance.scaled));
      capped := delay > maxDelay;
    }
    if capped {
      if maxDelay / 2 <= 0 {
        return None;
      }
      delay := JitterDelay(maxDelay / 2, chance.capped);
    }
    Wrap64Absorbs(delay, ProlongedBy(isThrottle, status, header) * SECOND);
    return Some(Wrap64(delay + initialDelay));
  }

  // ------------------------------------------------------------------ bounds

  /** The wait that is guaranteed before the random part is added. */
  function GuaranteedDelay(minDelay: int, maxDelay: int, retryCount: nat): int {
    Min(Pow2(retryCount) * minDelay, maxDelay / 2)
  }

  lemma BackoffBounds(minDelay: int, maxDelay: int, retryCount: nat, chance: Chance)
    requires minDelay >= 1 && maxDelay >= 2
    ensures GuaranteedDelay(minDelay, maxDelay, retryCount)
         <= BackoffDelay(minDelay, maxDelay, retryCount, chance)
         <= maxDelay
  {
    var jittered := Jittered(minDelay, chance.scaled);
    MulLe(Pow2(retryCount), minDelay, jittered);
  }

  /**
   For every maximum below 2^61 nanoseconds (73 years) the guard on the shift changes no answer: it only stands in
   for a product that would exceed the maximum anyway.
   */
  lemma GuardOnlyPreventsOverflow(minDelay: int, maxDelay: int, retryCount: nat, chance: Chance)
    requires minDelay >= 1 && 2 <= maxDelay < Pow2(61)
    ensures BackoffDelay(minDelay, maxDelay, retryCount, chance)
         == var scaled := Pow2(retryCount) * Jittered(minDelay, chance.scaled);
            if scaled <= maxDelay then scaled else Jittered(maxDelay / 2, chance.capped)
  {
    if !FitsShift(minDelay, retryCount, chance) {
      var k := FloorLog2(minDelay);
      Pow2Add(retryCount, k);
      Pow2Monotone(61, retryCount + k);
      MulLe(Pow2(retryCount), Pow2(k), Jittered(minDelay, chance.scaled));
    }
  }

  /**
   Which answers are waited for longer: a Retry-After prolongs the backoff by its seconds on a throttled 429 or 503, and
   on no other answer.
   */
  lemma HeaderCountsExactlyOn(d: DefaultRetryer, isThrottle: bool, status: int, header: RetryAfter,
                              retryCount: nat, chance: Chance)
    requires d.Valid() && d.numMaxRetries != 0
    ensures var base := BackoffDelay(d.MinDelay(isThrottle), d.MaxDelay(isThrottle), retryCount, chance);
            IntendedDelay(d, isThrottle, status, header, retryCount, chance)
            == if isThrottle && (status == 429 || status == 503) && header.Seconds? then base + 1_000_000_000 * header.n
               else base
  {
  }

  /** Delays that are set are used as they are, throttled or not; those that are not are 30 ms, 500 ms and 5 minutes. */
  lemma SettingsAreUsed(d: DefaultRetryer)
    ensures d.MinDelay(false) == (if d.minRetryDelay != 0 then d.minRetryDelay else 30_000_000)
    ensures d.MinDelay(true) == (if d.minThrottleDelay != 0 then d.minThrottleDelay else 500_000_000)
    ensures d.MaxDelay(false) == (if d.maxRetryDelay != 0 then d.maxRetryDelay else 300_000_000_000)
    ensures d.MaxDelay(true) == (if d.maxThrottleDelay != 0 then d.maxThrottleDelay else 300_000_000_000)
  {
  }

  /**
   The returned delay is the intended one if and only if the accepted Retry-After keeps the sum inside int64.
   Without an accepted header it always is.
   */
  lemma RetryAfterExact(d: DefaultRetryer, isThrottle: bool, status: int, header: RetryAfter,
                        retryCount: nat, chance: Chance)
    requires d.Valid() && d.numMaxRetries != 0
    ensures var base := BackoffDelay(d.MinDelay(isThrottle), d.MaxDelay(isThrottle), retryCount, chance);
            var intended := IntendedDelay(d, isThrottle, status, header, retryCount, chance);
            var seconds := ProlongedBy(isThrottle, status, header);
            && (Wrap64(intended) == intended <==> -TWO63 - base <= seconds * SECOND < TWO63 - base)
            && (seconds == 0 ==> Wrap64(intended) == intended == base)
  {
    BackoffBounds(d.MinDelay(isThrottle), d.MaxDelay(isThrottle), retryCount, chance);
  }

  /** A Retry-After as a duration: the seconds in nanoseconds, wrapped. */
  function HeaderDuration(isThrottle: bool, status: int, header: RetryAfter): (w: int)
    ensures IsInt64(w)
  {
    Wrap64(ProlongedBy(isThrottle, status, header) * SECOND)
  }

  /**
   A wait is never shorter than the backoff if and only if the header, as a duration, is not negative and leaves the
   sum inside int64. A negative header, which RFC 7231 does not allow, is accepted and shortens the wait; a huge one
   wraps around.
   */
  lemma RetryAfterShortensExactlyWhen(d: DefaultRetryer, isThrottle: bool, status: int, header: RetryAfter,
                                      retryCount: nat, chance: Chance)
    requires d.Valid() && d.numMaxRetries != 0
    ensures var base := BackoffDelay(d.MinDelay(isThrottle), d.MaxDelay(isThrottle), retryCount, chance);
            var delay := Wrap64(IntendedDelay(d, isThrottle, status, header, retryCount, chance));
            delay < base <==> !(0 <= HeaderDuration(isThrottle, status, header) < TWO63 - base)
  {
    BackoffBounds(d.MinDelay(isThrottle), d.MaxDelay(isThrottle), retryCount, chance);
    MulLe(Pow2(retryCount), 0, d.MinDelay(isThrottle));
    var base := BackoffDelay(d.MinDelay(isThrottle), d.MaxDelay(isThrottle), retryCount, chance);
    Wrap64Absorbs(base, ProlongedBy(isThrottle, status, header) * SECOND);
    hide BackoffDelay, ProlongedBy, Pow2;
    WrappedSum(base, HeaderDuration(isThrottle, status, header));
  }

  /** A sum in int64 falls below its nonnegative first term exactly when the second is negative or the sum wraps. */
  lemma WrappedSum(a: int, w: int)
    requires 0 <= a < TWO63 && IsInt64(w)
    ensures Wrap64(a + w) < a <==> !(0 <= w < TWO63 - a)
  {
    if w >= TWO63 - a {
      assert (a + w + TWO63) / TWO64 == 1;
    }
  }

  /** The longest wait, throttled or not, before a Retry-After is added. */
  function LongestDelay(d: DefaultRetryer): int { Max(d.MaxDelay(true), d.MaxDelay(false)) }

  /**
   Accepted headers of at most `seconds` prolong a wait by no more than that, and keep the guaranteed wait if they
   are not negative.
   */
  lemma DelayBounds(d: DefaultRetryer, isThrottle: bool, status: int, header: RetryAfter,
                    retryCount: nat, chance: Chance, seconds: int)
    requires d.Valid() && d.numMaxRetries != 0
    requires 0 <= seconds && d.MaxDelay(isThrottle) + seconds * SECOND < TWO63
    requires header.Seconds? ==> -seconds <= header.n <= seconds
    ensures var delay := Wrap64(IntendedDelay(d, isThrottle, status, header, retryCount, chance));
            && delay <= d.MaxDelay(isThrottle) + seconds * SECOND
            && ((header.Seconds? ==> header.n >= 0) ==>
                  GuaranteedDelay(d.MinDelay(isThrottle), d.MaxDelay(isThrottle), retryCount) <= delay)
  {
    BackoffBounds(d.MinDelay(isThrottle), d.MaxDelay(isThrottle), retryCount, chance);
    var prolonged := ProlongedBy(isThrottle, status, header);
    MulLe(Pow2(retryCount), 0, d.MinDelay(isThrottle));
    assert -seconds <= prolonged <= seconds;
    var base := BackoffDelay(d.MinDelay(isThrottle), d.MaxDelay(isThrottle), retryCount, chance);
    assert 0 <= base <= d.MaxDelay(isThrottle);
    assert IsInt64(base + prolonged * SECOND);
  }

  /**
   The guaranteed wait grows by the number of doublings: after `more` further retries it is that many times doubled,
   up to half the maximum.
   */
  lemma GuaranteedDelayDoubles(minDelay: int, maxDelay: int, retryCount: nat, more: nat)
    requires minDelay >= 1 && maxDelay >= 2
    ensures GuaranteedDelay(minDelay, maxDelay, retryCount + more)
         == Min(Pow2(more) * GuaranteedDelay(minDelay, maxDelay, retryCount), maxDelay / 2)
  {
    Pow2Add(more, retryCount);
    hide Pow2;
    assert Pow2(retryCount + more) * minDelay == Pow2(more) * (Pow2(retryCount) * minDelay) by {
      MulAssociates(Pow2(more), Pow2(retryCount), minDelay);
      assert retryCount + more == more + retryCount;
    }
    CappedMultiple(Pow2(more), Pow2(retryCount) * minDelay, maxDelay / 2);
  }

  lemma MulAssociates(a: int, b: int, c: int)
    ensures (a * b) * c == a * (b * c)
  {
  }

  /** Capping before multiplying changes nothing when the product is capped again. */
  lemma CappedMultiple(a: int, b: int, cap: int)
    requires a >= 1 && cap >= 1
    ensures Min(a * b, cap) == Min(a * Min(b, cap), cap)
  {
    if b > cap {
      MulLe(a, cap, b);
      MulLe(cap, 1, a);
      assert a * cap == cap * a;
    }
  }
}
