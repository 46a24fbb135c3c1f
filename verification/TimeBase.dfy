/**
 The time base: 243 ticks in 4000 nanoseconds, in 64-bit arithmetic.
 */
module TimeBase {
  const WORD := 0x1_0000_0000_0000_0000
  const NUMERATOR := 243
  const DENOMINATOR := 4000
  const MAX_NANOSECONDS := 0x7FFF_FFFF_FFFF_FFFF

  /** Every intermediate fits the 64-bit word it is computed in. */
  predicate Fits(x: int) {
    0 <= x < WORD
  }

  function NanosecondsToTicks(nanoseconds: nat): (ticks: nat)
    requires Fits(nanoseconds)
  {
    nanoseconds / DENOMINATOR * NUMERATOR + nanoseconds % DENOMINATOR * NUMERATOR / DENOMINATOR
  }

  /** The split conversion is the exact one, rounded down, and nothing in it overflows. */
  lemma ConversionIsExact(nanoseconds: nat)
    requires Fits(nanoseconds)
    ensures NanosecondsToTicks(nanoseconds) == nanoseconds * NUMERATOR / DENOMINATOR
    ensures Fits(nanoseconds / DENOMINATOR * NUMERATOR) && Fits(nanoseconds % DENOMINATOR * NUMERATOR)
    ensures Fits(NanosecondsToTicks(nanoseconds))
  {
    var q, r := nanoseconds / DENOMINATOR, nanoseconds % DENOMINATOR;
    assert nanoseconds * NUMERATOR == DENOMINATOR * (q * NUMERATOR) + r * NUMERATOR;
  }

  /** A second is 60750000 ticks, and a year of seconds as many times that. */
  lemma Seconds(n: nat)
    requires n <= 31536000
    ensures NanosecondsToTicks(n * 1000000000) == n * 60750000
    ensures TicksToDuration(n * 60750000) == n * 1000000000
  {
    ConversionIsExact(n * 1000000000);
    ConversionIsExact(MAX_NANOSECONDS);
    if n > 0 {
      DurationIsExact(n * 60750000);
    }
  }

  /** A duration past what a signed 64-bit count of nanoseconds holds is 0. */
  lemma TooLong(ticks: nat)
    requires Fits(ticks)
    ensures ticks * 4000 / 243 > 9223372036854775807 ==> TicksToDuration(ticks) == 0
  {
    ConversionIsExact(MAX_NANOSECONDS);
    if 0 < ticks <= MAX_TICKS {
      DurationIsExact(ticks);
    }
  }

  const MAX_TICKS := NanosecondsToTicks(MAX_NANOSECONDS)

  /** Nanoseconds of a number of ticks; 0 for none, and for more than a duration can hold. */
  function TicksToDuration(ticks: nat): nat
    requires Fits(ticks)
  {
    if ticks == 0 || ticks > MAX_TICKS then 0
    else ticks / NUMERATOR * DENOMINATOR + ticks % NUMERATOR * DENOMINATOR / NUMERATOR
  }

  /** The duration is the exact one, rounded down, and fits a signed 64-bit count. */
  lemma DurationIsExact(ticks: nat)
    requires Fits(ticks) && ticks <= MAX_TICKS
    ensures TicksToDuration(ticks) == ticks * DENOMINATOR / NUMERATOR <= MAX_NANOSECONDS
  {
    ConversionIsExact(MAX_NANOSECONDS);
    var q, r := ticks / NUMERATOR, ticks % NUMERATOR;
    assert ticks * DENOMINATOR == NUMERATOR * (q * DENOMINATOR) + r * DENOMINATOR;
  }

  /** 243 and 4000 have no common divisor. */
  lemma Coprime(ticks: nat)
    ensures ticks * DENOMINATOR % NUMERATOR == 0 <==> ticks % NUMERATOR == 0
  {
    if ticks * DENOMINATOR % NUMERATOR == 0 {
      var k := ticks * DENOMINATOR / NUMERATOR;
      assert ticks * DENOMINATOR == NUMERATOR * k;
      // 115 times 4000 is 1 more than a multiple of 243.
      assert ticks == NUMERATOR * (115 * k - 1893 * ticks);
      MultipleOf(ticks, 115 * k - 1893 * ticks);
    }
    if ticks % NUMERATOR == 0 {
      var q := ticks / NUMERATOR;
      assert ticks * DENOMINATOR == NUMERATOR * (DENOMINATOR * q);
      MultipleOf(ticks * DENOMINATOR, DENOMINATOR * q);
    }
  }

  lemma MultipleOf(x: int, k: int)
    requires x == NUMERATOR * k
    ensures x % NUMERATOR == 0
  {
  }

  /** Ticks there and back: the same number for whole multiples, one less for the rest. */
  lemma TicksThereAndBack(ticks: nat)
    requires Fits(ticks) && 0 < ticks <= MAX_TICKS
    ensures NanosecondsToTicks(TicksToDuration(ticks)) == if ticks % NUMERATOR == 0 then ticks else ticks - 1
  {
    DurationIsExact(ticks);
    var n := TicksToDuration(ticks);
    ConversionIsExact(n);
    Coprime(ticks);
    var r := ticks * DENOMINATOR % NUMERATOR;
    assert n * NUMERATOR == ticks * DENOMINATOR - r;
  }
}
