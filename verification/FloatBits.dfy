/**
 Singles and doubles as the bit patterns lfs and stfs move.

 The widening keeps the number a pattern denotes, or, for infinities and NaNs, the sign and the
 payload; the narrowing gives back every one of the 32 bits.
 */
module FloatBits {
  import opened Common

  const P21 := 0x20_0000
  const P23 := 0x80_0000
  const P29 := 0x2000_0000
  const P30 := 0x4000_0000
  const P31 := 0x8000_0000
  const P32 := 0x1_0000_0000
  const P52 := 0x10_0000_0000_0000
  const P62 := 0x4000_0000_0000_0000
  const P63 := 0x8000_0000_0000_0000
  const P64 := 0x1_0000_0000_0000_0000

  // ------------------------------------------------------------------- powers of two

  function Times(a: nat, b: nat): nat {
    a * b
  }

  function ShiftRight(x: nat, n: nat): nat
    decreases n
  {
    if n == 0 then x else ShiftRight(x / 2, n - 1)
  }

  lemma TimesAssociates(a: nat, b: nat, c: nat)
    ensures Times(Times(a, b), c) == Times(a, Times(b, c))
  {
  }

  lemma TimesTwo(a: nat, b: nat)
    ensures Times(2 * a, b) == 2 * Times(a, b) == Times(a, 2 * b)
  {
  }

  lemma {:induction false} Pow2Add(a: nat, b: nat)
    ensures Pow2(a + b) == Times(Pow2(a), Pow2(b))
    decreases a
  {
    if a > 0 {
      Pow2Add(a - 1, b);
      TimesTwo(Pow2(a - 1), Pow2(b));
      hide Times;
    }
  }

  lemma Pow2Values()
    ensures Pow2(8) == 256 && Pow2(23) == P23 && Pow2(29) == P29
  {
    assert Pow2(7) == 128 && Pow2(8) == 256;
    Pow2Add(7, 8);
    Pow2Add(15, 8);
    Pow2Add(23, 6);
  }

  lemma {:induction false} Pow2Grows(a: nat, b: nat)
    requires a <= b
    ensures Pow2(a) <= Pow2(b)
    decreases b
  {
    if a < b {
      Pow2Grows(a, b - 1);
    }
  }

  /** Shifting up and down again loses nothing. */
  lemma {:induction false} ShiftedBack(f: nat, n: nat)
    ensures ShiftRight(Times(f, Pow2(n)), n) == f
    decreases n
  {
    if n == 0 {
      OnceShifted(f);
    } else {
      TimesTwo(f, Pow2(n - 1));
      hide Times;
      ShiftedBack(f, n - 1);
    }
  }

  lemma SmallerProduct(a: nat, b: nat, d: nat)
    requires a < b
    ensures a * d + d <= b * d
  {
    assert (b - a - 1) * d >= 0;
    assert b * d == a * d + d + (b - a - 1) * d;
  }

  // ---------------------------------------------------------------- fields and meaning

  function SignOf32(bits: nat): nat { bits / P31 }
  function ExponentOf32(bits: nat): nat { bits / P23 % 256 }
  function FractionOf32(bits: nat): nat { bits % P23 }

  function SignOf64(bits: nat): nat { bits / P63 }
  function ExponentOf64(bits: nat): nat { bits / P52 % 2048 }
  function FractionOf64(bits: nat): nat { bits % P52 }

  lemma FieldsOf32(bits: nat)
    requires bits < P32
    ensures SignOf32(bits) < 2 && ExponentOf32(bits) < 256 && FractionOf32(bits) < P23
    ensures bits == SignOf32(bits) * P31 + ExponentOf32(bits) * P23 + FractionOf32(bits)
  {
  }

  function Pack64(sign: nat, exponent: nat, fraction: nat): (bits: nat)
    requires sign < 2 && exponent < 2048 && fraction < P52
    ensures SignOf64(bits) == sign && ExponentOf64(bits) == exponent && FractionOf64(bits) == fraction && bits < P64
  {
    sign * P63 + exponent * P52 + fraction
  }

  /** The magnitude a finite single denotes, in units of 2 to the -149. */
  function Magnitude32(bits: nat): nat {
    if ExponentOf32(bits) == 0 then FractionOf32(bits)
    else Times(P23 + FractionOf32(bits), Pow2(ExponentOf32(bits) - 1))
  }

  /** The magnitude a finite double denotes, in units of 2 to the -1074. */
  function Magnitude64(bits: nat): nat {
    if ExponentOf64(bits) == 0 then FractionOf64(bits)
    else Times(P52 + FractionOf64(bits), Pow2(ExponentOf64(bits) - 1))
  }

  /** A double denotes what a single denotes: the same number, the same infinity, the same NaN. */
  predicate DenotesSame(single: nat, wide: nat) {
    && SignOf64(wide) == SignOf32(single)
    && (if ExponentOf32(single) == 255
        then ExponentOf64(wide) == 2047 && FractionOf64(wide) == FractionOf32(single) * P29
        else ExponentOf64(wide) < 2047 && Magnitude64(wide) == Times(Magnitude32(single), Pow2(925)))
  }

  // -------------------------------------------------------------------------- widening

  /** The bits lfs loads into a register. */
  method Widen(bits: nat) returns (wide: nat)
    requires bits < P32
    ensures wide < P64 && DenotesSame(bits, wide) && Narrow(wide) == bits
  {
    hide Narrow, DenotesSame, Times, Pow2;
    FieldsOf32(bits);
    var exponent, sign, fraction := ExponentOf32(bits), SignOf32(bits), FractionOf32(bits);
    hide ExponentOf32, SignOf32, FractionOf32, ExponentOf64, SignOf64, FractionOf64;
    if 1 <= exponent < 255 {
      wide := Pack64(sign, exponent + 896, fraction * P29);
      NormalSame(bits, wide);
      return;
    }
    if exponent == 255 {
      wide := Pack64(sign, 2047, fraction * P29);
      SpecialSame(bits, wide);
      return;
    }
    if fraction == 0 {
      wide := Pack64(sign, 0, 0);
      ZeroSame(bits, wide);
      return;
    }
    var shifted, e := fraction, 1 - 127 + 1023;
    ghost var k := 0;
    OnceShifted(fraction);
    while shifted < P23
      invariant 0 < shifted < 2 * P23 && shifted == Times(fraction, Pow2(k)) && e == 897 - k && k <= 23
      invariant shifted >= P23 ==> k > 0
      decreases P23 - shifted
    {
      NextShift(fraction, k);
      shifted := 2 * shifted;
      e := e - 1;
      k := k + 1;
    }
    wide := Pack64(sign, e, (shifted - P23) * P29);
    DenormalSame(bits, k, shifted, wide);
  }

  lemma OnceShifted(f: nat)
    ensures Times(f, Pow2(0)) == f
  {
  }

  lemma NextShift(f: nat, k: nat)
    requires 0 < f && Times(f, Pow2(k)) < P23
    ensures Times(f, Pow2(k + 1)) == 2 * Times(f, Pow2(k)) && k < 23
  {
    TimesTwo(f, Pow2(k));
    if k >= 23 {
      Pow2Values();
      Pow2Grows(23, k);
      SmallerProduct(0, f, Pow2(k));
    }
  }

  // ------------------------------------------------------------------------- narrowing

  /** The bits stfs stores from a register. */
  function Narrow(bits: nat): nat {
    var exponent := ExponentOf64(bits);
    if 874 <= exponent <= 896
    then ShiftRight(P31 + FractionOf64(bits) / P21, 905 - exponent) + SignOf64(bits) * P31
    else bits / P62 * P30 + bits / P29 % P30
  }

  /** Outside the subnormal window, narrowing keeps the sign, seven low bits and the high bit of the
      exponent, and the top of the fraction. */
  lemma NarrowFields(sign: nat, exponent: nat, fraction: nat)
    requires sign < 2 && exponent < 2048 && fraction < P23 && !(874 <= exponent <= 896)
    ensures Narrow(Pack64(sign, exponent, fraction * P29)) ==
            sign * P31 + exponent / 1024 * P30 + exponent % 128 * P23 + fraction
  {
    hide ShiftRight, SignOf64, FractionOf64;
    var bits := Pack64(sign, exponent, fraction * P29);
    TopBits(sign, exponent, fraction);
    LowBits(sign, exponent, fraction);
    hide ExponentOf64;
  }

  lemma TopBits(sign: nat, exponent: nat, fraction: nat)
    requires sign < 2 && exponent < 2048 && fraction < P23
    ensures (sign * P63 + exponent * P52 + fraction * P29) / P62 == 2 * sign + exponent / 1024
  {
    var high, low := exponent / 1024, exponent % 1024;
    assert sign * P63 + exponent * P52 + fraction * P29 == (2 * sign + high) * P62 + (low * P52 + fraction * P29);
    assert low * P52 + fraction * P29 < P62;
  }

  lemma LowBits(sign: nat, exponent: nat, fraction: nat)
    requires sign < 2 && exponent < 2048 && fraction < P23
    ensures (sign * P63 + exponent * P52 + fraction * P29) / P29 % P30 == exponent % 128 * P23 + fraction
  {
    var high, low := exponent / 128, exponent % 128;
    var words := sign * 0x4_0000_0000 + exponent * P23 + fraction;
    assert sign * P63 + exponent * P52 + fraction * P29 == words * P29;
    assert words == (sign * 16 + high) * P30 + (low * P23 + fraction);
    assert low * P23 + fraction < P30;
  }

  // ----------------------------------------------------- narrowing whatever a register holds

  lemma FieldsOf64(bits: nat)
    requires bits < P64
    ensures SignOf64(bits) < 2 && ExponentOf64(bits) < 2048 && FractionOf64(bits) < P52
    ensures bits == SignOf64(bits) * P63 + ExponentOf64(bits) * P52 + FractionOf64(bits)
  {
  }

  /** For every double: outside the subnormal window stfs keeps the sign, the high bit and the seven low bits of the
      exponent, and cuts the fraction off behind its first 23 bits. */
  lemma NarrowCuts(bits: nat)
    requires bits < 0x1_0000_0000_0000_0000
    requires !(874 <= bits / 0x10_0000_0000_0000 % 2048 <= 896)
    ensures var exponent, fraction := bits / 0x10_0000_0000_0000 % 2048, bits % 0x10_0000_0000_0000;
            Narrow(bits) == bits / 0x8000_0000_0000_0000 * 0x8000_0000 + exponent / 1024 * 0x4000_0000
                            + exponent % 128 * 0x80_0000 + fraction / 0x2000_0000
    ensures SignOf32(Narrow(bits)) == bits / 0x8000_0000_0000_0000
    ensures FractionOf32(Narrow(bits)) == bits % 0x10_0000_0000_0000 / 0x2000_0000
    ensures var exponent := bits / 0x10_0000_0000_0000 % 2048;
            ExponentOf32(Narrow(bits)) == exponent / 1024 * 128 + exponent % 128
  {
    hide Narrow, SignOf64, ExponentOf64, FractionOf64;
    var s, e, f := bits / P63, bits / P52 % 2048, bits % P52;
    FieldsAgree(bits);
    FieldsOf64(bits);
    var high, low := f / P29, f % P29;
    assert f == high * P29 + low && high < P23;
    var kept := bits - low;
    assert kept == s * P63 + e * P52 + high * P29;
    assert kept == Pack64(s, e, high * P29);
    assert bits / P29 == kept / P29 by {
      assert kept == (s * 0x4_0000_0000 + e * P23 + high) * P29;
    }
    SamePlain(bits, kept);
    NarrowFields(s, e, high);
    SingleFields(s, e / 1024 * 128 + e % 128, high);
    hide SignOf32, ExponentOf32, FractionOf32;
  }

  lemma SingleFields(sign: nat, exponent: nat, fraction: nat)
    requires sign < 2 && exponent < 256 && fraction < P23
    ensures var single := sign * P31 + exponent * P23 + fraction;
            SignOf32(single) == sign && ExponentOf32(single) == exponent && FractionOf32(single) == fraction
  {
  }

  lemma FieldsAgree(bits: nat)
    ensures SignOf64(bits) == bits / P63 && ExponentOf64(bits) == bits / P52 % 2048 && FractionOf64(bits) == bits % P52
  {
  }

  lemma SamePlain(bits: nat, kept: nat)
    requires bits / P29 == kept / P29 && !(874 <= ExponentOf64(bits) <= 896)
    ensures ExponentOf64(bits) == ExponentOf64(kept) && Narrow(bits) == Narrow(kept)
  {
    assert bits / P52 == bits / P29 / P23 && kept / P52 == kept / P29 / P23;
    assert bits / P62 == bits / P29 / 0x2_0000_0000 && kept / P62 == kept / P29 / 0x2_0000_0000;
  }

  /** So in the range of normal singles it rounds towards zero: the number stored is the largest of the singles that
      is not larger in magnitude. */
  lemma NarrowTruncates(bits: nat)
    requires bits < P64 && 897 <= ExponentOf64(bits) <= 1150
    ensures var single := Narrow(bits);
            && ExponentOf32(single) == ExponentOf64(bits) - 896 && SignOf32(single) == SignOf64(bits)
            && Times(Magnitude32(single), Pow2(925)) <= Magnitude64(bits)
            && Magnitude64(bits) < Times(Magnitude32(single) + Pow2(ExponentOf32(single) - 1), Pow2(925))
  {
    var e, f := ExponentOf64(bits), FractionOf64(bits);
    FieldsAgree(bits);
    hide Narrow, SignOf64, ExponentOf64, FractionOf64, SignOf32, ExponentOf32, FractionOf32, Times, Pow2;
    NarrowCuts(bits);
    CutExponent(e);
    CutMagnitude(e, f);
  }

  lemma CutExponent(e: nat)
    requires 897 <= e <= 1150
    ensures e / 1024 * 128 + e % 128 == e - 896
  {
  }

  lemma CutMagnitude(e: nat, f: nat)
    requires 897 <= e && f < P52
    ensures var kept := Times(P23 + f / P29, Pow2(e - 897));
            && Times(kept, Pow2(925)) <= Times(P52 + f, Pow2(e - 1))
            && Times(P52 + f, Pow2(e - 1)) < Times(kept + Pow2(e - 897), Pow2(925))
  {
    var high, low, unit := P23 + f / P29, f % P29, Pow2(e - 1);
    Pow2Values();
    Pow2Add(29, e - 1);
    Pow2Add(e - 897, 925);
    Pow2Grows(0, e - 1);
    hide Pow2;
    assert P52 + f == Times(high, P29) + low;
    SmallerTimes(low, P29, unit);
    hide Times;
    TimesAssociates(high, Pow2(e - 897), Pow2(925));
    TimesAssociates(high, P29, unit);
    TimesDistributes(Times(high, P29), low, unit);
    TimesDistributes(Times(high, Pow2(e - 897)), Pow2(e - 897), Pow2(925));
  }

  lemma TimesDistributes(a: nat, b: nat, c: nat)
    ensures Times(a + b, c) == Times(a, c) + Times(b, c)
  {
  }

  lemma SmallerTimes(a: nat, b: nat, d: nat)
    requires a < b && d > 0
    ensures Times(a, d) < Times(b, d)
  {
    SmallerProduct(a, b, d);
  }

  lemma {:induction false} ShiftRightIs(x: nat, n: nat)
    ensures Pow2(n) > 0 && ShiftRight(x, n) == x / Pow2(n)
    decreases n
  {
    Pow2Grows(0, n);
    if n > 0 {
      Pow2Grows(0, n - 1);
      ShiftRightIs(x / 2, n - 1);
      DividedTwice(x, 2, Pow2(n - 1));
    }
  }

  lemma DividedTwice(x: nat, a: nat, b: nat)
    requires a > 0 && b > 0
    ensures a * b > 0 && x / a / b == x / (a * b)
  {
    var q, r, t := x / a / b, x / a % b, x % a;
    assert x == (q * b + r) * a + t;
    assert r * a + t < a * b by {
      SmallerProduct(r, b, a);
    }
    assert x == q * (a * b) + (r * a + t);
    Quotient(x, q, r * a + t, a * b);
  }

  lemma Quotient(x: nat, q: nat, r: nat, d: nat)
    requires x == q * d + r && r < d
    ensures x / d == q
  {
    var p := x / d;
    if p < q {
      SmallerProduct(p, q, d);
    } else if q < p {
      SmallerProduct(q, p, d);
    }
  }

  /** And in the window of subnormal singles: the number in units of the smallest single, rounded down. */
  lemma NarrowTiny(bits: nat)
    requires bits < P64 && 874 <= ExponentOf64(bits) <= 896
    ensures var single := Narrow(bits);
            && SignOf32(single) == SignOf64(bits) && ExponentOf32(single) == 0
            && Pow2(926 - ExponentOf64(bits)) > 0
            && Magnitude32(single) == (P52 + FractionOf64(bits)) / Pow2(926 - ExponentOf64(bits))
  {
    var e, f := ExponentOf64(bits), FractionOf64(bits);
    FieldsOf64(bits);
    TinyShift(e, f);
    hide Pow2, ShiftRight, ExponentOf64, FractionOf64, SignOf64;
    var m := (P52 + f) / Pow2(926 - e);
    assert Narrow(bits) == m + SignOf64(bits) * P31;
    hide Narrow;
    TinyFields(SignOf64(bits), m);
  }

  lemma TinyFields(sign: nat, m: nat)
    requires sign < 2 && m < P23
    ensures var single := m + sign * P31;
            SignOf32(single) == sign && ExponentOf32(single) == 0 && Magnitude32(single) == m
  {
    hide Times, Pow2;
  }

  lemma TinyShift(e: nat, f: nat)
    requires 874 <= e <= 896 && f < P52
    ensures Pow2(926 - e) > 0 && ShiftRight(P31 + f / P21, 905 - e) == (P52 + f) / Pow2(926 - e) < P23
  {
    Pow2Add(21, 905 - e);
    Pow2Add(30, 896 - e);
    TwentyOne();
    Thirty();
    Pow2Grows(0, 905 - e);
    Pow2Grows(0, 896 - e);
    ShiftRightIs(P31 + f / P21, 905 - e);
    hide Pow2, ShiftRight;
    assert (P52 + f) / P21 == P31 + f / P21;
    DividedTwice(P52 + f, P21, Pow2(905 - e));
    DividedTwice(P52 + f, P30, Pow2(896 - e));
    AtMost((P52 + f) / P30, Pow2(896 - e));
  }

  lemma AtMost(a: nat, b: nat)
    requires b > 0
    ensures a / b <= a
  {
    var q, r := a / b, a % b;
    assert a == q * b + r;
    OneIsLeast(q, b);
  }

  lemma OneIsLeast(q: nat, b: nat)
    requires b > 0
    ensures q <= q * b
  {
    assert q * b == q + q * (b - 1) && q * (b - 1) >= 0;
  }

  lemma TwentyOne()
    ensures Pow2(21) == P21
  {
    Pow2Values();
    Pow2Add(21, 2);
    assert Pow2(2) == 4;
  }

  lemma Thirty()
    ensures Pow2(30) == P30
  {
    Pow2Values();
    Pow2Add(29, 1);
  }

  /** One tenth, a double with bits behind the 23 that fit. */
  lemma NarrowExample()
    ensures Narrow(0x3FB9_9999_9999_999A) == 0x3DCC_CCCC
  {
  }

  lemma SpecialSame(bits: nat, wide: nat)
    requires bits < P32 && ExponentOf32(bits) == 255
    requires wide == Pack64(SignOf32(bits), 2047, FractionOf32(bits) * P29)
    ensures DenotesSame(bits, wide) && Narrow(wide) == bits
  {
    hide Narrow, ExponentOf64, SignOf64, FractionOf64;
    FieldsOf32(bits);
    NarrowFields(SignOf32(bits), 2047, FractionOf32(bits));
  }

  lemma ZeroSame(bits: nat, wide: nat)
    requires bits < P32 && ExponentOf32(bits) == 0 && FractionOf32(bits) == 0
    requires wide == Pack64(SignOf32(bits), 0, 0)
    ensures DenotesSame(bits, wide) && Narrow(wide) == bits
  {
    hide Narrow, ExponentOf64, SignOf64, FractionOf64, Pow2;
    FieldsOf32(bits);
    NarrowFields(SignOf32(bits), 0, 0);
  }

  lemma NormalSame(bits: nat, wide: nat)
    requires bits < P32 && 1 <= ExponentOf32(bits) < 255
    requires wide == Pack64(SignOf32(bits), ExponentOf32(bits) + 896, FractionOf32(bits) * P29)
    ensures DenotesSame(bits, wide) && Narrow(wide) == bits
  {
    hide Narrow, ExponentOf32, SignOf32, FractionOf32, ExponentOf64, SignOf64, FractionOf64, Pow2, Times;
    FieldsOf32(bits);
    var s, e, f := SignOf32(bits), ExponentOf32(bits), FractionOf32(bits);
    NarrowFields(s, e + 896, f);
    assert (e + 896) / 1024 * P30 + (e + 896) % 128 * P23 == e * P23;
    NormalMagnitudes(e, f);
  }

  /** Twenty-nine more bits of fraction, and 896 more of exponent, are the 925 between the units. */
  lemma NormalMagnitudes(e: nat, f: nat)
    requires 1 <= e
    ensures Times(P52 + f * P29, Pow2(e + 895)) == Times(Times(P23 + f, Pow2(e - 1)), Pow2(925))
  {
    var m := P23 + f;
    Pow2Values();
    Pow2Add(29, e + 895);
    Pow2Add(e - 1, 925);
    hide Pow2;
    assert P52 + f * P29 == Times(m, P29);
    hide Times;
    TimesAssociates(m, P29, Pow2(e + 895));
    TimesAssociates(m, Pow2(e - 1), Pow2(925));
  }

  lemma DenormalSame(bits: nat, k: nat, shifted: nat, wide: nat)
    requires bits < P32 && ExponentOf32(bits) == 0 && 1 <= k <= 23
    requires shifted == Times(FractionOf32(bits), Pow2(k)) && P23 <= shifted < 2 * P23
    requires wide == Pack64(SignOf32(bits), 897 - k, (shifted - P23) * P29)
    ensures DenotesSame(bits, wide) && Narrow(wide) == bits
  {
    hide ExponentOf32, SignOf32, FractionOf32, ExponentOf64, SignOf64, FractionOf64, Pow2, Times, ShiftRight;
    FieldsOf32(bits);
    var f := FractionOf32(bits);
    DenormalMagnitude(f, k, shifted);
    DenormalBits(f, k, shifted);
  }

  lemma DenormalMagnitude(f: nat, k: nat, shifted: nat)
    requires 1 <= k <= 23 && shifted == Times(f, Pow2(k)) && P23 <= shifted
    ensures Times(P52 + (shifted - P23) * P29, Pow2(896 - k)) == Times(f, Pow2(925))
  {
    Pow2Values();
    Pow2Add(29, 896 - k);
    Pow2Add(k, 925 - k);
    hide Pow2;
    assert P52 + (shifted - P23) * P29 == Times(shifted, P29);
    hide Times;
    TimesAssociates(shifted, P29, Pow2(896 - k));
    TimesAssociates(f, Pow2(k), Pow2(925 - k));
  }

  lemma DenormalBits(f: nat, k: nat, shifted: nat)
    requires 1 <= k <= 23 && shifted == Times(f, Pow2(k)) && P23 <= shifted
    ensures ShiftRight(P31 + (shifted - P23) * P29 / P21, 8 + k) == f
  {
    Pow2Values();
    Pow2Add(k, 8);
    hide Pow2;
    assert P31 + (shifted - P23) * P29 / P21 == Times(shifted, 256);
    hide Times, ShiftRight;
    TimesAssociates(f, Pow2(k), 256);
    ShiftedBack(f, k + 8);
  }
}
