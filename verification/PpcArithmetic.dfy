/**
 The PowerPC carry and overflow helpers, and the string loads and stores.

 The carry chains are what the helpers are for: each theorem is about whole numbers of any
 number of words, of which the helpers see one word at a time.
 */
module PpcArithmetic {
  import opened Common

  const WORD := 0x1_0000_0000
  const SIGN := 0x8000_0000
  const REGISTERS := 32

  type word = w: int | 0 <= w < WORD

  predicate Negative(w: word) {
    w >= SIGN
  }

  function Signed(w: word): int {
    if Negative(w) then w - WORD else w
  }

  function Not(w: word): word {
    WORD - 1 - w
  }

  // -------------------------------------------------------------------- whole numbers

  /** The number little-endian words make, and the one they make in two's complement. */
  function Value(ws: seq<word>): nat {
    if ws == [] then 0 else ws[0] + WORD * Value(ws[1..])
  }

  function Whole(ws: seq<word>): int
    requires ws != []
  {
    if |ws| == 1 then Signed(ws[0]) else ws[0] + WORD * Whole(ws[1..])
  }

  /** One past the largest number of some words. */
  function Range(n: nat): (r: nat)
    ensures r > 0
  {
    if n == 0 then 1 else WORD * Range(n - 1)
  }

  /** One past the largest signed number of some words. */
  function HalfRange(n: nat): int
    requires n > 0
  {
    if n == 1 then SIGN else WORD * HalfRange(n - 1)
  }

  function Complement(ws: seq<word>): (r: seq<word>)
    ensures |r| == |ws|
  {
    if ws == [] then [] else [Not(ws[0])] + Complement(ws[1..])
  }

  lemma {:induction false} ComplementValue(ws: seq<word>)
    ensures Value(Complement(ws)) == Range(|ws|) - 1 - Value(ws)
    ensures ws != [] ==> Whole(Complement(ws)) == -1 - Whole(ws)
    decreases |ws|
  {
    if ws != [] {
      ComplementValue(ws[1..]);
      assert Complement(ws)[1..] == Complement(ws[1..]);
    }
  }

  // ------------------------------------------------------------------------ the chain

  /** Adding words from the lowest, each with the carry of the one before. */
  function SumWords(a: seq<word>, b: seq<word>, carry: bool): (r: seq<word>)
    requires |a| == |b|
    ensures |r| == |a|
    decreases |a|
  {
    if a == [] then []
    else [Sum(a[0], b[0], carry)] + SumWords(a[1..], b[1..], CarryOut(a[0], b[0], carry))
  }

  /** The carry out of the highest word. */
  function LastCarry(a: seq<word>, b: seq<word>, carry: bool): bool
    requires |a| == |b|
    decreases |a|
  {
    if a == [] then carry else LastCarry(a[1..], b[1..], CarryOut(a[0], b[0], carry))
  }

  function LastOverflow(a: seq<word>, b: seq<word>, carry: bool): bool
    requires |a| == |b| > 0
    decreases |a|
  {
    if |a| == 1 then Overflows(a[0], b[0], carry) else LastOverflow(a[1..], b[1..], CarryOut(a[0], b[0], carry))
  }

  function Bit(c: bool): nat {
    if c then 1 else 0
  }

  function Sum(x: word, y: word, carry: bool): word {
    (x + y + Bit(carry)) % WORD
  }

  predicate CarryOut(x: word, y: word, carry: bool) {
    x + y + Bit(carry) >= WORD
  }

  predicate Overflows(x: word, y: word, carry: bool) {
    !(-SIGN <= Signed(x) + Signed(y) + Bit(carry) < SIGN)
  }

  lemma StepSum(x: word, y: word, carry: bool)
    ensures Sum(x, y, carry) + WORD * Bit(CarryOut(x, y, carry)) == x + y + Bit(carry)
  {
  }

  /** The carry is the part of the whole sum that does not fit. */
  lemma {:induction false} ChainSum(a: seq<word>, b: seq<word>, carry: bool)
    requires |a| == |b|
    ensures Value(SumWords(a, b, carry)) + (if LastCarry(a, b, carry) then Range(|a|) else 0) ==
            Value(a) + Value(b) + Bit(carry)
    decreases |a|
  {
    if a != [] {
      var c := CarryOut(a[0], b[0], carry);
      ChainSum(a[1..], b[1..], c);
      StepSum(a[0], b[0], carry);
      hide CarryOut, Sum;
      assert SumWords(a, b, carry)[1..] == SumWords(a[1..], b[1..], c);
    }
  }

  /** A low word decides nothing about whether a number fits. */
  lemma LowWordFits(low: int, rest: int, half: int)
    requires 0 <= low < WORD
    ensures -(WORD * half) <= low + WORD * rest < WORD * half <==> -half <= rest < half
  {
  }

  /** The overflow of the highest word is that of the whole sum, and without it the sum is exact. */
  lemma {:induction false} ChainOverflow(a: seq<word>, b: seq<word>, carry: bool)
    requires |a| == |b| > 0
    ensures var whole: int := Whole(a) + Whole(b) + Bit(carry);
            && (LastOverflow(a, b, carry) <==> !(-HalfRange(|a|) <= whole < HalfRange(|a|)))
            && (!LastOverflow(a, b, carry) ==> Whole(SumWords(a, b, carry)) == whole)
    decreases |a|
  {
    if |a| > 1 {
      var c, s := CarryOut(a[0], b[0], carry), Sum(a[0], b[0], carry);
      ChainOverflow(a[1..], b[1..], c);
      StepSum(a[0], b[0], carry);
      assert 0 <= s < WORD && SumWords(a, b, carry)[0] == s;
      assert SumWords(a, b, carry)[1..] == SumWords(a[1..], b[1..], c);
      var tail := Whole(a[1..]) + Whole(b[1..]) + Bit(c);
      assert Whole(a) + Whole(b) + Bit(carry) == s + WORD * tail;
      hide CarryOut, Sum, Bit;
      LowWordFits(s, tail, HalfRange(|a| - 1));
    }
  }

  // ---------------------------------------------------------------------- the registers

  class Cpu {
    // The fixed-point exception register: summary overflow, overflow, carry, and the rest.
    var so: bool
    var ov: bool
    var ca: bool
    const gpr: array<word>
    var memory: int -> byte

    ghost predicate Valid() {
      gpr.Length == REGISTERS
    }

    constructor ()
      ensures Valid() && fresh(gpr) && gpr.Length == 32 && !so && !ov && !ca
      ensures (forall r | 0 <= r < 32 :: gpr[r] == 0) && forall a: int :: memory(a) == 0
    {
      so, ov, ca := false, false, false;
      gpr := new word[REGISTERS](_ => 0);
      memory := _ => 0;
    }

    method UpdateCarryAdd(lhs: word, rhs: word, carryIn: word)
      modifies this`ca
      ensures ca == CarryOut(lhs, rhs, carryIn % 2 == 1)
    {
      var sum := lhs + rhs + carryIn % 2;
      ca := sum / WORD % 2 == 1;
    }

    /** Set when nothing is borrowed. */
    method UpdateCarrySub(lhs: word, rhs: word)
      modifies this`ca
      ensures ca == CarryOut(lhs, Not(rhs), true)
    {
      ca := lhs >= rhs;
    }

    method UpdateOverflow(overflow: bool)
      modifies this`so, this`ov
      ensures ov == overflow && so == (old(so) || overflow)
    {
      if overflow {
        so, ov := true, true;
      } else {
        ov := false;
      }
    }

    method AddWithXer(lhs: word, rhs: word, carryIn: word, updateCarry: bool) returns (result: word)
      modifies this`so, this`ov, this`ca
      ensures var c := carryIn % 2 == 1;
              && result == Sum(lhs, rhs, c) && ov == Overflows(lhs, rhs, c) && so == (old(so) || ov)
              && ca == if updateCarry then CarryOut(lhs, rhs, c) else old(ca)
    {
      var wide := lhs + rhs + carryIn % 2;
      result := wide % WORD;
      // The sign bit of ~(lhs ^ rhs) & (lhs ^ result).
      var overflow := Negative(lhs) == Negative(rhs) && Negative(lhs) != Negative(result);
      if updateCarry {
        UpdateCarryAdd(lhs, rhs, carryIn);
      }
      UpdateOverflow(overflow);
    }

    method SubfWithXer(subtrahend: word, minuend: word, carryIn: word, extended: bool, updateCarry: bool)
      returns (result: word)
      modifies this`so, this`ov, this`ca
      ensures var c := !extended || carryIn % 2 == 1;
              && result == Sum(Not(subtrahend), minuend, c) && ov == Overflows(Not(subtrahend), minuend, c)
              && so == (old(so) || ov)
              && ca == if updateCarry then CarryOut(Not(subtrahend), minuend, c) else old(ca)
    {
      var rhs := Not(subtrahend);
      var wide := rhs + minuend + if extended then carryIn % 2 else 1;
      result := wide % WORD;
      // The sign bit of (minuend ^ subtrahend) & (minuend ^ result).
      var overflow := Negative(minuend) != Negative(subtrahend) && Negative(minuend) != Negative(result);
      if updateCarry {
        ca := wide / WORD % 2 == 1;
      }
      UpdateOverflow(overflow);
    }

    method Addco(lhs: word, rhs: word) returns (result: word)
      modifies this`so, this`ov, this`ca
      ensures result == Sum(lhs, rhs, false) && ca == CarryOut(lhs, rhs, false) && ov == Overflows(lhs, rhs, false)
    {
      result := AddWithXer(lhs, rhs, 0, true);
    }

    method Addeo(lhs: word, rhs: word) returns (result: word)
      modifies this`so, this`ov, this`ca
      ensures var c := old(ca);
              result == Sum(lhs, rhs, c) && ca == CarryOut(lhs, rhs, c) && ov == Overflows(lhs, rhs, c)
    {
      result := AddWithXer(lhs, rhs, Bit(ca), true);
    }

    method Addzeo(value: word) returns (result: word)
      modifies this`so, this`ov, this`ca
      ensures result == Sum(value, 0, old(ca)) && ca == CarryOut(value, 0, old(ca))
              && ov == Overflows(value, 0, old(ca))
    {
      result := AddWithXer(value, 0, Bit(ca), true);
    }

    method Subfco(subtrahend: word, minuend: word) returns (result: word)
      modifies this`so, this`ov, this`ca
      ensures var x := Not(subtrahend);
              result == Sum(x, minuend, true) && ca == CarryOut(x, minuend, true) && ov == Overflows(x, minuend, true)
    {
      result := SubfWithXer(subtrahend, minuend, 0, false, true);
    }

    method Subfeo(subtrahend: word, minuend: word) returns (result: word)
      modifies this`so, this`ov, this`ca
      ensures var x, c := Not(subtrahend), old(ca);
              result == Sum(x, minuend, c) && ca == CarryOut(x, minuend, c) && ov == Overflows(x, minuend, c)
    {
      result := SubfWithXer(subtrahend, minuend, Bit(ca), true, true);
    }

    /** Adding whole numbers, lowest word first: the first word with addc, the others with adde. */
    method AddChain(a: seq<word>, b: seq<word>) returns (sum: seq<word>)
      requires |a| == |b| > 0
      modifies this`so, this`ov, this`ca
      ensures |sum| == |a| && Value(sum) + (if ca then Range(|a|) else 0) == Value(a) + Value(b)
      ensures ov <==> !(-HalfRange(|a|) <= Whole(a) + Whole(b) < HalfRange(|a|))
      ensures !ov ==> Whole(sum) == Whole(a) + Whole(b)
    {
      hide Sum, CarryOut, Overflows, Value, Whole;
      var first := Addco(a[0], b[0]);
      sum := [first];
      FirstLink(a, b, false);
      ghost var all := SumWords(a, b, false);
      for i := 1 to |a|
        invariant Chained(a, b, false, i, sum)
      {
        NextLink(a, b, false, i, sum, ca, ov);
        var next := Addeo(a[i], b[i]);
        sum := sum + [next];
      }
      WholeChain(a, b, false, sum, ca, ov);
      ChainSum(a, b, false);
      ChainOverflow(a, b, false);
    }

    /** The words so far, the carry and the overflow are those of a chain. */
    ghost predicate Chained(a: seq<word>, b: seq<word>, carry: bool, i: nat, sum: seq<word>)
      requires |a| == |b| && 0 < i <= |a|
      reads this
    {
      sum == SumWords(a[..i], b[..i], carry) && ca == LastCarry(a[..i], b[..i], carry)
        && ov == LastOverflow(a[..i], b[..i], carry)
    }

    /** Subtracting a whole number from another: the first word with subfc, the others with subfe. */
    method SubtractChain(subtrahend: seq<word>, minuend: seq<word>) returns (difference: seq<word>)
      requires |subtrahend| == |minuend| > 0
      modifies this`so, this`ov, this`ca
      ensures |difference| == |minuend| && (ca <==> Value(minuend) >= Value(subtrahend))
      ensures Value(difference) == Value(minuend) - Value(subtrahend) + if ca then 0 else Range(|minuend|)
      ensures ov <==> !(-HalfRange(|minuend|) <= Whole(minuend) - Whole(subtrahend) < HalfRange(|minuend|))
      ensures !ov ==> Whole(difference) == Whole(minuend) - Whole(subtrahend)
    {
      hide Sum, CarryOut, Overflows, Value, Whole;
      ghost var a := Complement(subtrahend);
      ComplementAt(subtrahend, 0);
      var first := Subfco(subtrahend[0], minuend[0]);
      difference := [first];
      FirstLink(a, minuend, true);
      for i := 1 to |minuend|
        invariant Chained(a, minuend, true, i, difference)
      {
        ComplementAt(subtrahend, i);
        NextLink(a, minuend, true, i, difference, ca, ov);
        var next := Subfeo(subtrahend[i], minuend[i]);
        difference := difference + [next];
      }
      WholeChain(a, minuend, true, difference, ca, ov);
      ChainSum(a, minuend, true);
      ChainOverflow(a, minuend, true);
      ComplementValue(subtrahend);
      ValueInRange(difference);
    }

    // -------------------------------------------------------------------------- shifts

    /** Set when a negative number loses a bit. */
    method UpdateCarryShiftRight(value: word, shift: nat)
      modifies this`ca
      ensures ca == (Negative(value) && (shift / 32 % 2 == 1 || value % Pow2(shift % 32) != 0))
    {
      ca := false;
      if shift / 32 % 2 == 1 {
        ca := Negative(value);
      } else {
        var sh := shift % 32;
        if sh != 0 && Negative(value) {
          ca := value % Pow2(sh) != 0;
        }
      }
    }

    /** An algebraic shift right and addze: division by a power of two, rounded toward zero. */
    method DivideByPowerOfTwo(value: word, shift: nat) returns (result: word)
      requires shift < 64
      modifies this`so, this`ov, this`ca
      ensures Signed(result) == Truncated(Signed(value), Pow2(shift))
    {
      var shifted := AlgebraicShift(value, shift);
      UpdateCarryShiftRight(value, shift);
      ShiftedDivision(value, shift);
      result := Addzeo(shifted);
    }

    // ------------------------------------------------------------------------- strings

    /** Loads bytes into registers from `rD` on, four to each, the last filled up with zeros. */
    method LoadString(rD: nat, addr: nat, byteCount: nat)
      requires Valid()
      modifies gpr
      ensures byteCount <= 128 ==> forall j: nat | 4 * j < byteCount ::
                gpr[Reg(rD, j)] == WordAt(memory, addr, byteCount, j)
      ensures byteCount <= 128 ==> forall r: nat | r < REGISTERS && !Used(rD, byteCount, r) :: gpr[r] == old(gpr[r])
    {
      hide WordAt, Reg, Part, WithByte, ShiftedUp;
      var reg: nat := Reg(rD, 0);
      var current: word := 0;
      PartOfNone(memory, addr);
      for i := 0 to byteCount
        invariant reg == Reg(rD, i / 4) && current == Part(memory, addr, i)
        invariant byteCount <= 128 ==> forall j: nat | 4 * j + 4 <= i ::
                  gpr[Reg(rD, j)] == WordAt(memory, addr, byteCount, j)
        invariant byteCount <= 128 ==> forall r: nat | r < REGISTERS && !Used(rD, byteCount, r) :: gpr[r] == old(gpr[r])
      {
        NextPart(memory, addr, i, byteCount);
        NextReg(rD, i / 4);
        current := WithByte(current, memory(Place(addr, i)));
        if i % 4 == 3 {
          KeepsOthers(rD, i / 4);
          gpr[reg] := current;
          reg := (reg + 1) % REGISTERS;
          current := 0;
        }
      }
      var partial := byteCount % 4;
      if partial != 0 {
        LastPart(memory, addr, byteCount);
        KeepsOthers(rD, byteCount / 4);
        gpr[reg] := ShiftedUp(current, 4 - partial);
      }
    }

    /** Stores bytes from registers from `rS` on, four from each, high byte first. */
    method StoreString(rS: nat, addr: nat, byteCount: nat)
      requires Valid()
      modifies this`memory
      ensures byteCount <= WORD ==> forall i: nat | i < byteCount ::
                memory(Place(addr, i)) == ByteOf(gpr[Reg(rS, i / 4)], i % 4)
      ensures forall a: int | !InString(addr, byteCount, a) :: memory(a) == old(memory)(a)
    {
      hide ByteOf, Reg, Place;
      var reg := Reg(rS, 0);
      for i := 0 to byteCount
        invariant reg == Reg(rS, i / 4)
        invariant byteCount <= WORD ==> forall k: nat | k < i ::
                  memory(Place(addr, k)) == ByteOf(gpr[Reg(rS, k / 4)], k % 4)
        invariant forall a: int | !InString(addr, byteCount, a) :: memory(a) == old(memory)(a)
      {
        NextReg(rS, i / 4);
        OtherPlaces(addr, i);
        var before, at, stored := memory, Place(addr, i), ByteOf(gpr[reg], i % 4);
        memory := (a: int) => if a == at then stored else before(a);
        if i % 4 == 3 {
          reg := (reg + 1) % REGISTERS;
        }
      }
    }

    /** A string of at most 128 bytes, loaded and stored from the same register, is copied. */
    method CopyString(r: nat, source: nat, target: nat, byteCount: nat)
      requires Valid() && byteCount <= 128
      modifies this`memory, gpr
      ensures forall i: nat | i < byteCount :: memory(Place(target, i)) == old(memory)(Place(source, i))
      ensures forall a: int | !InString(target, byteCount, a) :: memory(a) == old(memory)(a)
    {
      LoadString(r, source, byteCount);
      hide WordAt, Reg, Place, ByteOf, InString;
      StoreString(r, target, byteCount);
      forall i: nat | i < byteCount ensures memory(Place(target, i)) == old(memory)(Place(source, i)) {
        ByteOfWord(old(memory), source, byteCount, i / 4, i % 4);
        assert gpr[Reg(r, i / 4)] == WordAt(old(memory), source, byteCount, i / 4);
      }
    }
  }

  lemma {:induction false} ComplementAt(ws: seq<word>, i: nat)
    requires i < |ws|
    ensures Complement(ws)[i] == Not(ws[i])
    decreases |ws|
  {
    if i > 0 {
      ComplementAt(ws[1..], i - 1);
    }
  }

  lemma {:induction false} ValueInRange(ws: seq<word>)
    ensures Value(ws) < Range(|ws|)
    decreases |ws|
  {
    if ws != [] {
      ValueInRange(ws[1..]);
    }
  }

  lemma FirstLink(a: seq<word>, b: seq<word>, carry: bool)
    requires |a| == |b| > 0
    ensures SumWords(a[..1], b[..1], carry) == [Sum(a[0], b[0], carry)]
    ensures LastCarry(a[..1], b[..1], carry) == CarryOut(a[0], b[0], carry)
    ensures LastOverflow(a[..1], b[..1], carry) == Overflows(a[0], b[0], carry)
  {
    hide Sum, CarryOut, Overflows;
    assert a[..1] == [a[0]] && b[..1] == [b[0]];
  }

  /** One more word at the high end. */
  lemma {:induction false} ChainMore(a: seq<word>, b: seq<word>, x: word, y: word, carry: bool)
    requires |a| == |b|
    ensures var c := LastCarry(a, b, carry);
            && SumWords(a + [x], b + [y], carry) == SumWords(a, b, carry) + [Sum(x, y, c)]
            && LastCarry(a + [x], b + [y], carry) == CarryOut(x, y, c)
            && LastOverflow(a + [x], b + [y], carry) == Overflows(x, y, c)
    decreases |a|
  {
    hide Sum, CarryOut, Overflows;
    if a != [] {
      ChainMore(a[1..], b[1..], x, y, CarryOut(a[0], b[0], carry));
      assert (a + [x])[1..] == a[1..] + [x] && (b + [y])[1..] == b[1..] + [y];
    }
  }

  lemma NextLink(a: seq<word>, b: seq<word>, carry: bool, i: nat, sum: seq<word>, ca: bool, ov: bool)
    requires |a| == |b| && 0 < i < |a|
    requires sum == SumWords(a[..i], b[..i], carry) && ca == LastCarry(a[..i], b[..i], carry)
    ensures SumWords(a[..i + 1], b[..i + 1], carry) == sum + [Sum(a[i], b[i], ca)]
    ensures LastCarry(a[..i + 1], b[..i + 1], carry) == CarryOut(a[i], b[i], ca)
    ensures LastOverflow(a[..i + 1], b[..i + 1], carry) == Overflows(a[i], b[i], ca)
  {
    hide Sum, CarryOut, Overflows, SumWords, LastCarry, LastOverflow;
    assert a[..i + 1] == a[..i] + [a[i]] && b[..i + 1] == b[..i] + [b[i]];
    ChainMore(a[..i], b[..i], a[i], b[i], carry);
  }

  lemma WholeChain(a: seq<word>, b: seq<word>, carry: bool, sum: seq<word>, ca: bool, ov: bool)
    requires |a| == |b| > 0
    requires sum == SumWords(a[..|a|], b[..|a|], carry) && ca == LastCarry(a[..|a|], b[..|a|], carry)
    requires ov == LastOverflow(a[..|a|], b[..|a|], carry)
    ensures sum == SumWords(a, b, carry) && ca == LastCarry(a, b, carry) && ov == LastOverflow(a, b, carry)
  {
    assert a[..|a|] == a && b[..|a|] == b;
  }

  // --------------------------------------------------------------------------- shifts

  /** Division rounded toward zero. */
  function Truncated(x: int, d: nat): int
    requires d > 0
  {
    if x >= 0 then x / d else -(-x / d)
  }

  /** Division rounded down, as the shift leaves it in a register. */
  function AlgebraicShift(value: word, shift: nat): word {
    if shift < 32 then Signed(value) / Pow2(shift) % WORD else if Negative(value) then WORD - 1 else 0
  }

  lemma DivisionIs(x: int, d: nat, q: int, m: int)
    requires d > 0 && x == d * q + m && 0 <= m < d
    ensures x / d == q && x % d == m
  {
    var e, r := x / d, x % d;
    assert x == d * e + r && 0 <= r < d;
    assert d * (e - q) == m - r;
    SmallProduct(d, e - q);
  }

  lemma SmallProduct(d: int, k: int)
    requires 0 < d && -d < d * k < d
    ensures k == 0
  {
    if k >= 1 {
      ProductGrows(d, 1, k);
    } else if k <= -1 {
      ProductGrows(d, k, -1);
    }
  }

  lemma ProductGrows(d: nat, a: int, b: int)
    requires a <= b
    ensures d * a <= d * b
  {
    assert d * (b - a) >= 0;
    assert d * b == d * a + d * (b - a);
  }

  /** A power of two divides the larger ones. */
  lemma {:induction false} Pow2Divides(k: nat, n: nat)
    requires k <= n
    ensures Pow2(n) == Pow2(k) * Pow2(n - k)
    decreases n - k
  {
    if k < n {
      Pow2Divides(k, n - 1);
      assert Pow2(n) == 2 * (Pow2(k) * Pow2(n - 1 - k)) == Pow2(k) * (2 * Pow2(n - 1 - k));
    }
  }

  lemma Pow2Of32()
    ensures Pow2(16) == 65536 && Pow2(32) == WORD
  {
    assert Pow2(8) == 256;
    Pow2Divides(8, 16);
    Pow2Divides(16, 32);
  }

  /** The bits a negative number loses are those of its two's complement. */
  lemma LostBits(value: word, k: nat)
    requires k < 32 && Negative(value)
    ensures value % Pow2(k) == Signed(value) % Pow2(k)
  {
    Pow2Of32();
    Pow2Divides(k, 32);
    hide Pow2;
    AddMultiple(Signed(value), Pow2(k), Pow2(32 - k));
  }

  lemma AddMultiple(x: int, d: nat, c: nat)
    requires d > 0
    ensures (x + d * c) % d == x % d
  {
    var q, m := x / d, x % d;
    assert x == d * q + m;
    assert d * (q + c) == d * q + d * c;
    DivisionIs(x + d * c, d, q + c, m);
  }

  /** Rounding up a negative quotient that is not exact rounds it toward zero. */
  lemma RoundedUp(x: int, d: nat)
    requires d > 0 && x < 0
    ensures Truncated(x, d) == x / d + if x % d != 0 then 1 else 0
  {
    var q, m := x / d, x % d;
    assert x == d * q + m;
    if m == 0 {
      assert -x == d * -q;
      DivisionIs(-x, d, -q, 0);
    } else {
      assert -x == d * (-q - 1) + (d - m);
      DivisionIs(-x, d, -q - 1, d - m);
    }
  }

  lemma SmallerQuotient(x: int, d: nat)
    requires d > 0 && -SIGN <= x < SIGN
    ensures -SIGN <= x / d < SIGN && (x >= 0 ==> x / d >= 0) && (x < 0 ==> x / d < 0)
  {
    var q, m := x / d, x % d;
    assert x == d * q + m && 0 <= m < d;
    if q >= SIGN {
      ProductGrows(d, SIGN, q);
    } else if q < -SIGN {
      ProductGrows(d, q, -SIGN - 1);
    } else if x >= 0 && q < 0 {
      ProductGrows(d, q, -1);
    } else if x < 0 && q >= 0 {
      ProductGrows(d, 0, q);
    }
  }

  /** A small shift is the quotient, rounded down. */
  lemma ShiftIsQuotient(value: word, shift: nat)
    requires shift < 32
    ensures Signed(AlgebraicShift(value, shift)) == Signed(value) / Pow2(shift)
    ensures Signed(value) < 0 ==> Signed(AlgebraicShift(value, shift)) < 0
  {
    hide Pow2;
    SmallerQuotient(Signed(value), Pow2(shift));
    var q := Signed(value) / Pow2(shift);
    SignedOfSmall(q);
  }

  lemma SignedOfSmall(q: int)
    requires -SIGN <= q < SIGN
    ensures Signed(q % WORD) == q
  {
  }

  lemma AddedBit(w: word, c: bool)
    requires c ==> Signed(w) < 0
    ensures Signed(Sum(w, 0, c)) == Signed(w) + Bit(c)
  {
  }

  lemma ShiftedDivision(value: word, shift: nat)
    requires shift < 64
    ensures var lost := Negative(value) && (shift / 32 % 2 == 1 || value % Pow2(shift % 32) != 0);
            Signed(Sum(AlgebraicShift(value, shift), 0, lost)) == Truncated(Signed(value), Pow2(shift))
  {
    var x, d := Signed(value), Pow2(shift);
    hide Pow2, Truncated, Sum, AlgebraicShift;
    if shift < 32 {
      ShiftIsQuotient(value, shift);
      if x < 0 {
        LostBits(value, shift);
        RoundedUp(x, d);
      } else {
        NotNegative(x, d);
      }
      AddedBit(AlgebraicShift(value, shift), Negative(value) && value % Pow2(shift % 32) != 0);
    } else {
      LargePower(shift);
      SmallNumber(x, d);
      AllShiftedOut(value, shift);
    }
  }

  lemma AllShiftedOut(value: word, shift: nat)
    requires shift >= 32
    ensures Signed(Sum(AlgebraicShift(value, shift), 0, Negative(value))) == 0
  {
  }

  lemma NotNegative(x: int, d: nat)
    requires d > 0 && x >= 0
    ensures Truncated(x, d) == x / d
  {
  }

  lemma LargePower(n: nat)
    requires n >= 32
    ensures Pow2(n) >= WORD
  {
    Pow2Of32();
    Pow2Divides(32, n);
    hide Pow2;
    ProductGrows(WORD, 1, Pow2(n - 32));
  }

  lemma SmallNumber(x: int, d: nat)
    requires d >= WORD && -SIGN <= x < SIGN
    ensures Truncated(x, d) == 0
  {
    if x >= 0 {
      DivisionIs(x, d, 0, x);
    } else {
      DivisionIs(-x, d, 0, -x);
    }
  }

  // -------------------------------------------------------------------------- strings

  /** The register that takes the word `j` of a string. */
  function Reg(r: nat, j: nat): (reg: nat)
    ensures reg < REGISTERS
  {
    (r + j) % REGISTERS
  }

  ghost predicate Used(r: nat, byteCount: nat, reg: nat) {
    exists j: nat :: 4 * j < byteCount && Reg(r, j) == reg
  }

  /** Byte `i` of a string of some length; zeros follow it. */
  function ByteAt(memory: int -> byte, addr: nat, byteCount: nat, i: nat): byte {
    if i < byteCount then memory(Place(addr, i)) else 0
  }

  /** Word `j` of a string, high byte first. */
  function WordAt(memory: int -> byte, addr: nat, byteCount: nat, j: nat): word {
    ((ByteAt(memory, addr, byteCount, 4 * j) * 256 + ByteAt(memory, addr, byteCount, 4 * j + 1)) * 256
     + ByteAt(memory, addr, byteCount, 4 * j + 2)) * 256 + ByteAt(memory, addr, byteCount, 4 * j + 3)
  }

  /** A word shifted up by a byte, with another byte at its end. */
  function WithByte(w: word, b: byte): word {
    (w * 256 + b) % WORD
  }

  /** A word shifted up by some bytes. */
  function ShiftedUp(w: word, bytes: nat): word {
    w * Pow2(bytes * 8) % WORD
  }

  /** The bytes before `i` that do not make a whole word yet. */
  function Part(memory: int -> byte, addr: nat, i: nat): nat {
    if i % 4 == 0 then 0
    else if i % 4 == 1 then memory(Place(addr, i - 1))
    else if i % 4 == 2 then memory(Place(addr, i - 2)) * 256 + memory(Place(addr, i - 1))
    else (memory(Place(addr, i - 3)) * 256 + memory(Place(addr, i - 2))) * 256 + memory(Place(addr, i - 1))
  }

  function Place(addr: nat, i: nat): nat {
    (addr + i) % WORD
  }

  /** Addresses count up, and wrap at 32 bits. */
  lemma PlaceIs(addr: nat, i: nat)
    requires addr < 0x1_0000_0000 && i < 0x1_0000_0000
    ensures Place(addr, i) == if addr + i <= 0xFFFF_FFFF then addr + i else addr + i - 0x1_0000_0000
  {
  }

  ghost predicate InString(addr: nat, byteCount: nat, a: int) {
    exists i: nat :: i < byteCount && Place(addr, i) == a
  }

  /** Byte `p` of a word, the high byte first. */
  function ByteOf(w: word, p: nat): byte
    requires p < 4
  {
    w / Pow2(24 - 8 * p) % 256
  }

  lemma Pow2Bytes()
    ensures Pow2(0) == 1 && Pow2(8) == 256 && Pow2(16) == 65536 && Pow2(24) == 0x100_0000
  {
    Pow2Divides(8, 16);
    Pow2Divides(8, 24);
  }

  lemma ByteOfWord(memory: int -> byte, addr: nat, byteCount: nat, j: nat, p: nat)
    requires p < 4 && 4 * j + p < byteCount
    ensures ByteOf(WordAt(memory, addr, byteCount, j), p) == memory(Place(addr, 4 * j + p))
  {
    Pow2Bytes();
    hide Pow2;
    DigitsOf(ByteAt(memory, addr, byteCount, 4 * j), ByteAt(memory, addr, byteCount, 4 * j + 1),
             ByteAt(memory, addr, byteCount, 4 * j + 2), ByteAt(memory, addr, byteCount, 4 * j + 3));
  }

  lemma DigitsOf(b0: byte, b1: byte, b2: byte, b3: byte)
    ensures var w := ((b0 * 256 + b1) * 256 + b2) * 256 + b3;
            w % 256 == b3 && w / 256 % 256 == b2 && w / 65536 % 256 == b1 && w / 0x100_0000 % 256 == b0
  {
    var high := b0 * 256 + b1;
    var w := (high * 256 + b2) * 256 + b3;
    assert w / 256 == high * 256 + b2;
    assert w / 65536 == high;
    assert w / 0x100_0000 == b0;
  }

  lemma PartOfNone(memory: int -> byte, addr: nat)
    ensures Part(memory, addr, 0) == 0
  {
  }

  lemma NextReg(r: nat, j: nat)
    ensures Reg(r, j + 1) == (Reg(r, j) + 1) % REGISTERS
  {
  }

  lemma KeepsOthers(r: nat, j: nat)
    ensures j < REGISTERS ==> forall k: nat | k < j :: Reg(r, k) != Reg(r, j)
  {
  }

  lemma OtherPlaces(addr: nat, i: nat)
    ensures i < WORD ==> forall k: nat | k < i :: Place(addr, k) != Place(addr, i)
  {
  }

  /** One more byte: the part so far grows, or becomes its word. */
  lemma NextPart(memory: int -> byte, addr: nat, i: nat, byteCount: nat)
    requires i < byteCount
    ensures Part(memory, addr, i) < WORD
    ensures var more := WithByte(Part(memory, addr, i), memory(Place(addr, i)));
            if i % 4 == 3 then more == WordAt(memory, addr, byteCount, i / 4) && Part(memory, addr, i + 1) == 0
            else more == Part(memory, addr, i + 1)
  {
    hide Place;
    assert i / 4 * 4 == i - i % 4;
  }

  lemma ShiftedUps(w: nat)
    ensures w < 0x100_0000 ==> ShiftedUp(w, 1) == w * 256
    ensures w < 65536 ==> ShiftedUp(w, 2) == w * 65536
    ensures w < 256 ==> ShiftedUp(w, 3) == w * 0x100_0000
  {
    Pow2Bytes();
    hide Pow2;
  }

  /** The part left at the end, shifted up, is the last word. */
  lemma LastPart(memory: int -> byte, addr: nat, byteCount: nat)
    requires byteCount % 4 != 0
    ensures Part(memory, addr, byteCount) < WORD
    ensures ShiftedUp(Part(memory, addr, byteCount), 4 - byteCount % 4)
            == WordAt(memory, addr, byteCount, byteCount / 4)
  {
    ShiftedUps(Part(memory, addr, byteCount));
    hide Pow2, Place, ShiftedUp;
    assert byteCount / 4 * 4 == byteCount - byteCount % 4;
  }
}
