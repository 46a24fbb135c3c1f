/**
 AES-128 decryption and cipher block chaining, as the disc tools do it.

 The forward cipher, which the tools do not have, is stated from FIPS-197 (section 5.1,
 with the key expansion of section 5.2) and chained as in section 6.2 of NIST SP 800-38A.
 The tools' routines are loops over a state updated in place; they are proved to compute
 the inverse cipher, and the inverse cipher and its chaining to undo the forward ones.
 */
module Aes {
  import opened Common
  import opened AesTables

  /** A column of the state, or a word of the key schedule. */
  datatype Word = Word(b0: u8, b1: u8, b2: u8, b3: u8) {
    function At(row: nat): u8
      requires row < 4
    {
      match row case 0 => b0 case 1 => b1 case 2 => b2 case _ => b3
    }
  }

  datatype State = State(c0: Word, c1: Word, c2: Word, c3: Word)

  // ------------------------------------------------------------ layers of the cipher

  function AddWord(a: Word, b: Word): Word {
    Word(Add(a.b0, b.b0), Add(a.b1, b.b1), Add(a.b2, b.b2), Add(a.b3, b.b3))
  }

  function AddState(s: State, t: State): State {
    State(AddWord(s.c0, t.c0), AddWord(s.c1, t.c1), AddWord(s.c2, t.c2), AddWord(s.c3, t.c3))
  }

  function MapWord(f: u8 -> u8, w: Word): Word {
    Word(f(w.b0), f(w.b1), f(w.b2), f(w.b3))
  }

  function SubBytes(s: State): State {
    var f := b => Sub(b);
    State(MapWord(f, s.c0), MapWord(f, s.c1), MapWord(f, s.c2), MapWord(f, s.c3))
  }

  function InvSubBytes(s: State): State {
    var f := b => InvSub(b);
    State(MapWord(f, s.c0), MapWord(f, s.c1), MapWord(f, s.c2), MapWord(f, s.c3))
  }

  /** Row r moves r columns to the left. */
  function ShiftRows(s: State): State {
    State(Word(s.c0.b0, s.c1.b1, s.c2.b2, s.c3.b3), Word(s.c1.b0, s.c2.b1, s.c3.b2, s.c0.b3),
          Word(s.c2.b0, s.c3.b1, s.c0.b2, s.c1.b3), Word(s.c3.b0, s.c0.b1, s.c1.b2, s.c2.b3))
  }

  function InvShiftRows(s: State): State {
    State(Word(s.c0.b0, s.c3.b1, s.c2.b2, s.c1.b3), Word(s.c1.b0, s.c0.b1, s.c3.b2, s.c2.b3),
          Word(s.c2.b0, s.c1.b1, s.c0.b2, s.c3.b3), Word(s.c3.b0, s.c2.b1, s.c1.b2, s.c0.b3))
  }

  function Sum4(a: u8, b: u8, c: u8, d: u8): u8 {
    Add(Add(a, b), Add(c, d))
  }

  function MixByte(a: u8, b: u8, c: u8, d: u8): u8 {
    Sum4(Mul(a, 2), Mul(b, 3), c, d)
  }

  function InvMixByte(a: u8, b: u8, c: u8, d: u8): u8 {
    Sum4(Mul(a, 14), Mul(b, 11), Mul(c, 13), Mul(d, 9))
  }

  function MixColumn(w: Word): Word {
    Word(MixByte(w.b0, w.b1, w.b2, w.b3), MixByte(w.b1, w.b2, w.b3, w.b0),
         MixByte(w.b2, w.b3, w.b0, w.b1), MixByte(w.b3, w.b0, w.b1, w.b2))
  }

  function InvMixColumn(w: Word): Word {
    Word(InvMixByte(w.b0, w.b1, w.b2, w.b3), InvMixByte(w.b1, w.b2, w.b3, w.b0),
         InvMixByte(w.b2, w.b3, w.b0, w.b1), InvMixByte(w.b3, w.b0, w.b1, w.b2))
  }

  function MixColumns(s: State): State {
    State(MixColumn(s.c0), MixColumn(s.c1), MixColumn(s.c2), MixColumn(s.c3))
  }

  function InvMixColumns(s: State): State {
    State(InvMixColumn(s.c0), InvMixColumn(s.c1), InvMixColumn(s.c2), InvMixColumn(s.c3))
  }

  type Schedule = w: seq<Word> | |w| == 44 witness seq(44, _ => Word(0, 0, 0, 0))

  function RoundKey(w: Schedule, round: nat): State
    requires round <= 10
  {
    State(w[round * 4], w[round * 4 + 1], w[round * 4 + 2], w[round * 4 + 3])
  }

  function AddRoundKey(s: State, w: Schedule, round: nat): State
    requires round <= 10
  {
    AddState(s, RoundKey(w, round))
  }

  // ------------------------------------------------------- the cipher and its inverse

  /** The state after `n` full rounds of the cipher. */
  function Rounds(w: Schedule, s: State, n: nat): State
    requires n <= 9
  {
    if n == 0 then AddRoundKey(s, w, 0)
    else AddRoundKey(MixColumns(ShiftRows(SubBytes(Rounds(w, s, n - 1)))), w, n)
  }

  /** FIPS-197 section 5.1. */
  function Cipher(w: Schedule, s: State): State {
    AddRoundKey(ShiftRows(SubBytes(Rounds(w, s, 9))), w, 10)
  }

  /** One turn of the decryption loop. */
  function InvRound(w: Schedule, s: State, round: nat): State
    requires round <= 9
  {
    var t := AddRoundKey(InvSubBytes(InvShiftRows(s)), w, round);
    if round == 0 then t else InvMixColumns(t)
  }

  /** The state when rounds 9 down to `round` are done; 10 is the state before any. */
  function InvRounds(w: Schedule, s: State, round: nat): State
    requires round <= 10
    decreases 10 - round
  {
    if round == 10 then AddRoundKey(s, w, 10) else InvRound(w, InvRounds(w, s, round + 1), round)
  }

  /** FIPS-197 section 5.3. */
  function InvCipher(w: Schedule, s: State): State {
    InvRounds(w, s, 0)
  }

  lemma AddWordCancels(a: Word, b: Word)
    ensures AddWord(AddWord(a, b), b) == a
  {
    hide Add;
    AddSelf(a.b0, b.b0); AddSelf(a.b1, b.b1); AddSelf(a.b2, b.b2); AddSelf(a.b3, b.b3);
  }

  lemma AddStateCancels(s: State, t: State)
    ensures AddState(AddState(s, t), t) == s
  {
    hide AddWord;
    AddWordCancels(s.c0, t.c0); AddWordCancels(s.c1, t.c1);
    AddWordCancels(s.c2, t.c2); AddWordCancels(s.c3, t.c3);
  }

  lemma AddRoundKeyUndoesItself(s: State, w: Schedule, round: nat)
    requires round <= 10
    ensures AddRoundKey(AddRoundKey(s, w, round), w, round) == s
  {
    hide AddState;
    AddStateCancels(s, RoundKey(w, round));
  }

  lemma SubWordInverse(w: Word)
    ensures MapWord(b => InvSub(b), MapWord(b => Sub(b), w)) == w
    ensures MapWord(b => Sub(b), MapWord(b => InvSub(b), w)) == w
  {
    hide Sub, InvSub;
    InvSubUndoesSub(w.b0); InvSubUndoesSub(w.b1); InvSubUndoesSub(w.b2); InvSubUndoesSub(w.b3);
    SubUndoesInvSub(w.b0); SubUndoesInvSub(w.b1); SubUndoesInvSub(w.b2); SubUndoesInvSub(w.b3);
  }

  lemma SubBytesInverse(s: State)
    ensures InvSubBytes(SubBytes(s)) == s == SubBytes(InvSubBytes(s))
  {
    hide Sub, InvSub, MapWord;
    SubWordInverse(s.c0); SubWordInverse(s.c1); SubWordInverse(s.c2); SubWordInverse(s.c3);
  }

  lemma ShiftRowsInverse(s: State)
    ensures InvShiftRows(ShiftRows(s)) == s == ShiftRows(InvShiftRows(s))
  {
  }

  /** Sixteen summands add up the same by rows as by columns. */
  lemma Transpose(a0: u8, a1: u8, a2: u8, a3: u8, b0: u8, b1: u8, b2: u8, b3: u8,
                  c0: u8, c1: u8, c2: u8, c3: u8, d0: u8, d1: u8, d2: u8, d3: u8)
    ensures Sum4(Sum4(a0, a1, a2, a3), Sum4(b0, b1, b2, b3), Sum4(c0, c1, c2, c3), Sum4(d0, d1, d2, d3)) ==
            Sum4(Sum4(a0, b0, c0, d0), Sum4(a1, b1, c1, d1), Sum4(a2, b2, c2, d2), Sum4(a3, b3, c3, d3))
  {
    hide Add;
    AddPairs(Add(a0, a1), Add(a2, a3), Add(b0, b1), Add(b2, b3));
    AddPairs(Add(c0, c1), Add(c2, c3), Add(d0, d1), Add(d2, d3));
    AddPairs(a0, a1, b0, b1);
    AddPairs(a2, a3, b2, b3);
    AddPairs(c0, c1, d0, d1);
    AddPairs(c2, c3, d2, d3);
    AddPairs(Add(Add(a0, b0), Add(a1, b1)), Add(Add(a2, b2), Add(a3, b3)),
             Add(Add(c0, d0), Add(c1, d1)), Add(Add(c2, d2), Add(c3, d3)));
    AddPairs(Add(a0, b0), Add(a1, b1), Add(c0, d0), Add(c1, d1));
    AddPairs(Add(a2, b2), Add(a3, b3), Add(c2, d2), Add(c3, d3));
  }

  lemma MulSum4(a: u8, b: u8, c: u8, d: u8, k: u8)
    ensures Mul(Sum4(a, b, c, d), k) == Sum4(Mul(a, k), Mul(b, k), Mul(c, k), Mul(d, k))
  {
    hide Add, Mul;
    MulDistributes(Add(a, b), Add(c, d), k);
    MulDistributes(a, b, k);
    MulDistributes(c, d, k);
  }

  /** Four multiples of one byte are its multiple by the sum of the factors. */
  lemma MulFactors(x: u8, a: u8, b: u8, c: u8, d: u8)
    ensures Sum4(Mul(x, a), Mul(x, b), Mul(x, c), Mul(x, d)) == Mul(x, (a ^ b) ^ (c ^ d))
  {
    hide Add, Mul;
    MulSum(x, a, b);
    MulSum(x, c, d);
    MulSum(x, a ^ b, c ^ d);
  }

  /** The matrices of MixColumns and InvMixColumns are inverse: the diagonal of their product ... */
  lemma Diagonal(x: u8)
    ensures Sum4(Mul(Mul(x, 2), 14), Mul(x, 11), Mul(x, 13), Mul(Mul(x, 3), 9)) == x
    ensures Sum4(Mul(Mul(x, 14), 2), Mul(Mul(x, 9), 3), Mul(x, 13), Mul(x, 11)) == x
  {
    hide Add, Mul, Sum4;
    MulAfterTwo(x, 14);
    MulAfterThree(x, 9);
    assert (14 as u8) << 1 == 28 && (9 as u8) ^ (9 << 1) == 27;
    MulFactors(x, 28, 11, 13, 27);
    MulFactors(x, 28, 27, 13, 11);
    assert ((28 as u8) ^ 11) ^ (13 ^ 27) == 1 && ((28 as u8) ^ 27) ^ (13 ^ 11) == 1;
    MulByOne(x);
  }

  /** ... and the rest of it. */
  lemma OffDiagonal(x: u8)
    ensures Sum4(Mul(Mul(x, 3), 14), Mul(Mul(x, 2), 11), Mul(x, 13), Mul(x, 9)) == 0
    ensures Sum4(Mul(x, 14), Mul(Mul(x, 3), 11), Mul(Mul(x, 2), 13), Mul(x, 9)) == 0
    ensures Sum4(Mul(x, 14), Mul(x, 11), Mul(Mul(x, 3), 13), Mul(Mul(x, 2), 9)) == 0
    ensures Sum4(Mul(Mul(x, 11), 2), Mul(Mul(x, 14), 3), Mul(x, 9), Mul(x, 13)) == 0
    ensures Sum4(Mul(Mul(x, 13), 2), Mul(Mul(x, 11), 3), Mul(x, 14), Mul(x, 9)) == 0
    ensures Sum4(Mul(Mul(x, 9), 2), Mul(Mul(x, 13), 3), Mul(x, 11), Mul(x, 14)) == 0
  {
    hide Add, Mul, Sum4;
    MulAfterTwo(x, 9); MulAfterTwo(x, 11); MulAfterTwo(x, 13);
    MulAfterThree(x, 11); MulAfterThree(x, 13); MulAfterThree(x, 14);
    assert (9 as u8) << 1 == 18 && (11 as u8) << 1 == 22 && (13 as u8) << 1 == 26;
    assert (11 as u8) ^ (11 << 1) == 29 && (13 as u8) ^ (13 << 1) == 23 && (14 as u8) ^ (14 << 1) == 18;
    MulFactors(x, 18, 22, 13, 9);
    MulFactors(x, 14, 29, 26, 9);
    MulFactors(x, 14, 11, 23, 18);
    MulFactors(x, 22, 18, 9, 13);
    MulFactors(x, 26, 29, 14, 9);
    MulFactors(x, 18, 23, 11, 14);
    MulByZero(x);
  }

  lemma MixByteInverse(a: u8, b: u8, c: u8, d: u8)
    ensures InvMixByte(MixByte(a, b, c, d), MixByte(b, c, d, a), MixByte(c, d, a, b), MixByte(d, a, b, c)) == a
  {
    hide Add, Mul, Sum4;
    MulSum4(Mul(a, 2), Mul(b, 3), c, d, 14);
    MulSum4(Mul(b, 2), Mul(c, 3), d, a, 11);
    MulSum4(Mul(c, 2), Mul(d, 3), a, b, 13);
    MulSum4(Mul(d, 2), Mul(a, 3), b, c, 9);
    Rotate(Mul(Mul(b, 2), 11), Mul(Mul(c, 3), 11), Mul(d, 11), Mul(a, 11));
    Swap(Mul(Mul(c, 2), 13), Mul(Mul(d, 3), 13), Mul(a, 13), Mul(b, 13));
    Rotate3(Mul(Mul(d, 2), 9), Mul(Mul(a, 3), 9), Mul(b, 9), Mul(c, 9));
    Transpose(Mul(Mul(a, 2), 14), Mul(Mul(b, 3), 14), Mul(c, 14), Mul(d, 14),
              Mul(a, 11), Mul(Mul(b, 2), 11), Mul(Mul(c, 3), 11), Mul(d, 11),
              Mul(a, 13), Mul(b, 13), Mul(Mul(c, 2), 13), Mul(Mul(d, 3), 13),
              Mul(Mul(a, 3), 9), Mul(b, 9), Mul(c, 9), Mul(Mul(d, 2), 9));
    Diagonal(a);
    OffDiagonal(b); OffDiagonal(c); OffDiagonal(d);
    Sum4Zeros(a);
  }

  lemma InvMixByteInverse(a: u8, b: u8, c: u8, d: u8)
    ensures MixByte(InvMixByte(a, b, c, d), InvMixByte(b, c, d, a),
                    InvMixByte(c, d, a, b), InvMixByte(d, a, b, c)) == a
  {
    hide Add, Mul, Sum4;
    MulSum4(Mul(a, 14), Mul(b, 11), Mul(c, 13), Mul(d, 9), 2);
    MulSum4(Mul(b, 14), Mul(c, 11), Mul(d, 13), Mul(a, 9), 3);
    Rotate(Mul(Mul(b, 14), 3), Mul(Mul(c, 11), 3), Mul(Mul(d, 13), 3), Mul(Mul(a, 9), 3));
    Swap(Mul(c, 14), Mul(d, 11), Mul(a, 13), Mul(b, 9));
    Rotate3(Mul(d, 14), Mul(a, 11), Mul(b, 13), Mul(c, 9));
    Transpose(Mul(Mul(a, 14), 2), Mul(Mul(b, 11), 2), Mul(Mul(c, 13), 2), Mul(Mul(d, 9), 2),
              Mul(Mul(a, 9), 3), Mul(Mul(b, 14), 3), Mul(Mul(c, 11), 3), Mul(Mul(d, 13), 3),
              Mul(a, 13), Mul(b, 9), Mul(c, 14), Mul(d, 11),
              Mul(a, 11), Mul(b, 13), Mul(c, 9), Mul(d, 14));
    Diagonal(a);
    OffDiagonal(b); OffDiagonal(c); OffDiagonal(d);
    Sum4Zeros(a);
  }

  lemma Swap(a: u8, b: u8, c: u8, d: u8)
    ensures Sum4(a, b, c, d) == Sum4(c, d, a, b)
  {
    hide Add;
    AddCommutes(Add(a, b), Add(c, d));
  }

  lemma Rotate(a: u8, b: u8, c: u8, d: u8)
    ensures Sum4(a, b, c, d) == Sum4(d, a, b, c)
  {
    hide Add;
    AddCommutes(c, d);
    AddCommutes(a, b);
    AddPairs(b, a, d, c);
    AddCommutes(Add(b, d), Add(a, c));
    AddPairs(a, d, c, b);
    AddPairs(a, c, d, b);
    AddCommutes(a, d);
    AddCommutes(b, c);
    AddCommutes(b, d);
  }

  lemma Rotate3(a: u8, b: u8, c: u8, d: u8)
    ensures Sum4(a, b, c, d) == Sum4(b, c, d, a)
  {
    hide Sum4;
    Rotate(b, c, d, a);
  }

  lemma Sum4Zeros(a: u8)
    ensures Sum4(a, 0, 0, 0) == a
  {
    hide Add;
    AddZero(a);
    AddZero(0);
  }

  lemma MixColumnInverse(w: Word)
    ensures InvMixColumn(MixColumn(w)) == w == MixColumn(InvMixColumn(w))
  {
    hide MixByte, InvMixByte;
    MixByteInverse(w.b0, w.b1, w.b2, w.b3); MixByteInverse(w.b1, w.b2, w.b3, w.b0);
    MixByteInverse(w.b2, w.b3, w.b0, w.b1); MixByteInverse(w.b3, w.b0, w.b1, w.b2);
    InvMixByteInverse(w.b0, w.b1, w.b2, w.b3); InvMixByteInverse(w.b1, w.b2, w.b3, w.b0);
    InvMixByteInverse(w.b2, w.b3, w.b0, w.b1); InvMixByteInverse(w.b3, w.b0, w.b1, w.b2);
  }

  lemma MixColumnsInverse(s: State)
    ensures InvMixColumns(MixColumns(s)) == s == MixColumns(InvMixColumns(s))
  {
    hide MixColumn, InvMixColumn;
    MixColumnInverse(s.c0); MixColumnInverse(s.c1); MixColumnInverse(s.c2); MixColumnInverse(s.c3);
  }

  /** Going back from an encrypted block, the state before round `round` of decryption is what the
      cipher had after its round `round`, substituted and shifted. */
  lemma {:induction false} InvRoundsRetrace(w: Schedule, s: State, round: nat)
    requires 1 <= round <= 10
    ensures InvRounds(w, Cipher(w, s), round) == ShiftRows(SubBytes(Rounds(w, s, round - 1)))
    decreases 10 - round
  {
    hide AddRoundKey, SubBytes, InvSubBytes, ShiftRows, InvShiftRows, MixColumns, InvMixColumns;
    if round == 10 {
      AddRoundKeyUndoesItself(ShiftRows(SubBytes(Rounds(w, s, 9))), w, 10);
    } else {
      InvRoundsRetrace(w, s, round + 1);
      var t := Rounds(w, s, round);
      var mixed := ShiftRows(SubBytes(Rounds(w, s, round - 1)));
      ShiftRowsInverse(SubBytes(t));
      SubBytesInverse(t);
      AddRoundKeyUndoesItself(MixColumns(mixed), w, round);
      MixColumnsInverse(mixed);
    }
  }

  /** Decrypting undoes encrypting, for every schedule and block. */
  lemma InvCipherUndoesCipher(w: Schedule, s: State)
    ensures InvCipher(w, Cipher(w, s)) == s
  {
    hide AddRoundKey, SubBytes, InvSubBytes, ShiftRows, InvShiftRows, MixColumns, InvMixColumns, Cipher;
    InvRoundsRetrace(w, s, 1);
    var t := Rounds(w, s, 0);
    ShiftRowsInverse(SubBytes(t));
    SubBytesInverse(t);
    AddRoundKeyUndoesItself(s, w, 0);
  }

  /** The cipher retraces the decryption: what it holds after round `n` is what decryption was
      about to add the round key `n` to. */
  lemma {:induction false} RoundsRetrace(w: Schedule, s: State, n: nat)
    requires n <= 9
    ensures Rounds(w, InvCipher(w, s), n) == InvSubBytes(InvShiftRows(InvRounds(w, s, n + 1)))
  {
    hide AddRoundKey, SubBytes, InvSubBytes, ShiftRows, InvShiftRows, MixColumns, InvMixColumns;
    var t := InvSubBytes(InvShiftRows(InvRounds(w, s, n + 1)));
    AddRoundKeyUndoesItself(t, w, n);
    if n > 0 {
      RoundsRetrace(w, s, n - 1);
      var before := InvRounds(w, s, n);
      SubBytesInverse(InvShiftRows(before));
      ShiftRowsInverse(before);
      MixColumnsInverse(AddRoundKey(t, w, n));
    }
  }

  /** Encrypting undoes decrypting: the two are bijections of the blocks. */
  lemma CipherUndoesInvCipher(w: Schedule, s: State)
    ensures Cipher(w, InvCipher(w, s)) == s
  {
    hide AddRoundKey, SubBytes, InvSubBytes, ShiftRows, InvShiftRows, MixColumns, InvMixColumns, InvCipher;
    RoundsRetrace(w, s, 9);
    var t := InvRounds(w, s, 10);
    SubBytesInverse(InvShiftRows(t));
    ShiftRowsInverse(t);
    AddRoundKeyUndoesItself(s, w, 10);
  }

  // ------------------------------------------------------------------ the key schedule

  const RCON: seq<u8> := [0x01, 0x02, 0x04, 0x08, 0x10, 0x20, 0x40, 0x80, 0x1b, 0x36]

  function Rcon(i: nat): u8
    requires 1 <= i <= 10
  {
    RCON[i - 1]
  }

  function RotWord(w: Word): Word {
    Word(w.b1, w.b2, w.b3, w.b0)
  }

  function SubWord(w: Word): Word {
    MapWord(b => Sub(b), w)
  }

  function KeyWord(key: seq<u8>, i: nat): Word
    requires |key| >= 16 && i < 4
  {
    Word(key[i * 4], key[i * 4 + 1], key[i * 4 + 2], key[i * 4 + 3])
  }

  /** FIPS-197 section 5.2, for a key of four words. */
  function ScheduleWord(key: seq<u8>, i: nat): Word
    requires |key| >= 16 && i < 44
  {
    if i < 4 then KeyWord(key, i)
    else
      var temp := ScheduleWord(key, i - 1);
      var temp := if i % 4 == 0 then AddWord(SubWord(RotWord(temp)), Word(Rcon(i / 4), 0, 0, 0)) else temp;
      AddWord(ScheduleWord(key, i - 4), temp)
  }

  function ExpandedKey(key: seq<u8>): Schedule
    requires |key| >= 16
  {
    seq(44, i requires 0 <= i < 44 => ScheduleWord(key, i))
  }

  method ExpandKey(key: seq<u8>) returns (words: Schedule)
    requires |key| >= 16
    ensures words == ExpandedKey(key)
  {
    hide AddWord, SubWord, RotWord, Rcon, KeyWord;
    var built: seq<Word> := [KeyWord(key, 0), KeyWord(key, 1), KeyWord(key, 2), KeyWord(key, 3)];
    for i := 4 to 44
      invariant |built| == i
      invariant forall j | 0 <= j < i :: built[j] == ScheduleWord(key, j)
    {
      var temp := built[i - 1];
      if i % 4 == 0 {
        temp := SubWord(RotWord(temp));
        temp := AddWord(temp, Word(Rcon(i / 4), 0, 0, 0));
      }
      built := built + [AddWord(built[i - 4], temp)];
    }
    words := built;
  }

  // --------------------------------------------------------- decrypting a block in place

  function Column(state: array2<u8>, c: nat): Word
    requires state.Length0 == state.Length1 == 4 && c < 4
    reads state
  {
    Word(state[0, c], state[1, c], state[2, c], state[3, c])
  }

  function Grid(state: array2<u8>): State
    requires state.Length0 == state.Length1 == 4
    reads state
  {
    State(Column(state, 0), Column(state, 1), Column(state, 2), Column(state, 3))
  }

  /** Adds the round's four words of the schedule to the columns of the state. */
  method AddRoundKeyTo(state: array2<u8>, w: Schedule, round: nat)
    requires state.Length0 == state.Length1 == 4 && round <= 10
    modifies state
    ensures Grid(state) == AddRoundKey(old(Grid(state)), w, round)
  {
    hide Add;
    for column := 0 to 4
      invariant forall c | 0 <= c < column :: Column(state, c) == AddWord(old(Column(state, c)), w[round * 4 + c])
      invariant forall c | column <= c < 4 :: Column(state, c) == old(Column(state, c))
    {
      AddWordTo(state, column, w[round * 4 + column]);
    }
  }

  method AddWordTo(state: array2<u8>, column: nat, word: Word)
    requires state.Length0 == state.Length1 == 4 && column < 4
    modifies state
    ensures Column(state, column) == AddWord(old(Column(state, column)), word)
    ensures forall c | 0 <= c < 4 && c != column :: Column(state, c) == old(Column(state, c))
  {
    hide Add;
    for row := 0 to 4
      invariant forall r | 0 <= r < row :: state[r, column] == Add(old(state[r, column]), word.At(r))
      invariant forall r | row <= r < 4 :: state[r, column] == old(state[r, column])
      invariant forall r, c | 0 <= r < 4 && 0 <= c < 4 && c != column :: state[r, c] == old(state[r, c])
    {
      state[row, column] := Add(state[row, column], word.At(row));
    }
  }

  /** Row r moves r columns to the right. */
  method InvShiftRowsOf(state: array2<u8>)
    requires state.Length0 == state.Length1 == 4
    modifies state
    ensures Grid(state) == InvShiftRows(old(Grid(state)))
  {
    for row := 1 to 4
      invariant forall r, c | 0 <= r < row && 0 <= c < 4 :: state[r, c] == old(state[r, Source(r, c)])
      invariant forall r, c | row <= r < 4 && 0 <= c < 4 :: state[r, c] == old(state[r, c])
    {
      RotateRow(state, row);
    }
  }

  /** The column that row `r` takes its element `c` from. */
  function Source(r: nat, c: nat): nat
    requires r < 4 && c < 4
  {
    if c >= r then c - r else c + 4 - r
  }

  /** Moves each byte of a row as many places to the right, around the end, as the row's number says. */
  method RotateRow(state: array2<u8>, row: nat)
    requires state.Length0 == state.Length1 == 4 && 1 <= row < 4
    modifies state
    ensures forall c | 0 <= c < 4 :: state[row, c] == old(state[row, Source(row, c)])
    ensures forall r, c | 0 <= r < 4 && r != row && 0 <= c < 4 :: state[r, c] == old(state[r, c])
  {
    var line := [state[row, 0], state[row, 1], state[row, 2], state[row, 3]];
    var moved := line[4 - row..] + line[..4 - row];
    RotatedAt(line, row, 0); RotatedAt(line, row, 1); RotatedAt(line, row, 2); RotatedAt(line, row, 3);
    state[row, 0], state[row, 1], state[row, 2], state[row, 3] := moved[0], moved[1], moved[2], moved[3];
  }

  lemma RotatedAt(line: seq<u8>, row: nat, c: nat)
    requires |line| == 4 && 1 <= row < 4 && c < 4
    ensures (line[4 - row..] + line[..4 - row])[c] == line[Source(row, c)]
  {
  }

  method InvSubBytesOf(state: array2<u8>, table: seq<u8>)
    requires state.Length0 == state.Length1 == 4
    requires IsInverseTable(table)
    modifies state
    ensures Grid(state) == InvSubBytes(old(Grid(state)))
  {
    hide InvSub;
    for row := 0 to 4
      invariant forall r, c | 0 <= r < row && 0 <= c < 4 :: state[r, c] == InvSub(old(state[r, c]))
      invariant forall r, c | row <= r < 4 && 0 <= c < 4 :: state[r, c] == old(state[r, c])
    {
      for column := 0 to 4
        invariant forall c | 0 <= c < column :: state[row, c] == InvSub(old(state[row, c]))
        invariant forall c | column <= c < 4 :: state[row, c] == old(state[row, c])
        invariant forall r, c | 0 <= r < 4 && r != row && 0 <= c < 4 ::
                    state[r, c] == if r < row then InvSub(old(state[r, c])) else old(state[r, c])
      {
        state[row, column] := table[state[row, column] as int];
      }
    }
  }

  method InvMixColumnsOf(state: array2<u8>)
    requires state.Length0 == state.Length1 == 4
    modifies state
    ensures Grid(state) == InvMixColumns(old(Grid(state)))
  {
    hide InvMixColumn;
    for column := 0 to 4
      invariant forall c | 0 <= c < column :: Column(state, c) == InvMixColumn(old(Column(state, c)))
      invariant forall c | column <= c < 4 :: Column(state, c) == old(Column(state, c))
    {
      InvMixColumnOf(state, column);
    }
  }

  method InvMixColumnOf(state: array2<u8>, column: nat)
    requires state.Length0 == state.Length1 == 4 && column < 4
    modifies state
    ensures Column(state, column) == InvMixColumn(old(Column(state, column)))
    ensures forall c | 0 <= c < 4 && c != column :: Column(state, c) == old(Column(state, c))
  {
    hide InvMixByte;
    var a := Column(state, column);
    var m0 := Combine(a, 14, 11, 13, 9);
    var m1 := Combine(a, 9, 14, 11, 13);
    var m2 := Combine(a, 13, 9, 14, 11);
    var m3 := Combine(a, 11, 13, 9, 14);
    state[0, column], state[1, column], state[2, column], state[3, column] := m0, m1, m2, m3;
    CombinedIsInvMix(a);
  }

  method Combine(a: Word, k0: u8, k1: u8, k2: u8, k3: u8) returns (sum: u8)
    ensures sum == Sum4(Mul(a.b0, k0), Mul(a.b1, k1), Mul(a.b2, k2), Mul(a.b3, k3))
  {
    var m0 := Multiply(a.b0, k0);
    var m1 := Multiply(a.b1, k1);
    var m2 := Multiply(a.b2, k2);
    var m3 := Multiply(a.b3, k3);
    sum := Sum4(m0, m1, m2, m3);
  }

  lemma CombinedIsInvMix(a: Word)
    ensures Sum4(Mul(a.b0, 14), Mul(a.b1, 11), Mul(a.b2, 13), Mul(a.b3, 9)) == InvMixByte(a.b0, a.b1, a.b2, a.b3)
    ensures Sum4(Mul(a.b0, 9), Mul(a.b1, 14), Mul(a.b2, 11), Mul(a.b3, 13)) == InvMixByte(a.b1, a.b2, a.b3, a.b0)
    ensures Sum4(Mul(a.b0, 13), Mul(a.b1, 9), Mul(a.b2, 14), Mul(a.b3, 11)) == InvMixByte(a.b2, a.b3, a.b0, a.b1)
    ensures Sum4(Mul(a.b0, 11), Mul(a.b1, 13), Mul(a.b2, 9), Mul(a.b3, 14)) == InvMixByte(a.b3, a.b0, a.b1, a.b2)
  {
    hide Mul, Sum4;
    Rotate3(Mul(a.b0, 9), Mul(a.b1, 14), Mul(a.b2, 11), Mul(a.b3, 13));
    Swap(Mul(a.b0, 13), Mul(a.b1, 9), Mul(a.b2, 14), Mul(a.b3, 11));
    Rotate(Mul(a.b0, 11), Mul(a.b1, 13), Mul(a.b2, 9), Mul(a.b3, 14));
  }

  // ------------------------------------------------------------- the inverse table

  const SBOX: seq<u8> := seq(256, i requires 0 <= i < 256 => Sub(i as u8))

  /** What the table built from the S-box must be. */
  ghost predicate IsInverseTable(table: seq<u8>) {
    |table| == 256 && forall b: u8 :: table[b as int] == InvSub(b)
  }

  /** Makes the inverse table: at every entry of the S-box, the place it stands at. */
  method BuildInverseTable() returns (table: seq<u8>)
    ensures IsInverseTable(table)
  {
    hide Sub, InvSub;
    table := seq(256, _ => 0);
    for index := 0 to 256
      invariant |table| == 256
      invariant forall b: u8 | InvSub(b) as int < index :: table[b as int] == InvSub(b)
    {
      var value, k := SBOX[index], index as u8;
      ghost var before := table;
      table := table[value as int := k];
      forall b: u8 | InvSub(b) as int < index + 1
        ensures table[b as int] == InvSub(b)
      {
        TableStep(before, k, b);
      }
    }
  }

  lemma TableStep(table: seq<u8>, k: u8, b: u8)
    requires |table| == 256
    requires InvSub(b) as int < k as int ==> table[b as int] == InvSub(b)
    requires InvSub(b) as int <= k as int
    ensures table[Sub(k) as int := k][b as int] == InvSub(b)
  {
    hide Sub, InvSub;
    InvSubUndoesSub(k);
    SubUndoesInvSub(b);
    if b != Sub(k) {
      Unequal(b, Sub(k));
      Unequal(InvSub(b), k);
    }
  }

  lemma Unequal(a: u8, b: u8)
    ensures a as int == b as int ==> a == b
  {
  }

  // ---------------------------------------------------------------- blocks and chaining

  function FromBytes(block: seq<u8>): State
    requires |block| == 16
  {
    State(Word(block[0], block[1], block[2], block[3]), Word(block[4], block[5], block[6], block[7]),
          Word(block[8], block[9], block[10], block[11]), Word(block[12], block[13], block[14], block[15]))
  }

  function WordBytes(w: Word): seq<u8> {
    [w.b0, w.b1, w.b2, w.b3]
  }

  function ToBytes(s: State): (block: seq<u8>)
    ensures |block| == 16 && FromBytes(block) == s
  {
    WordBytes(s.c0) + WordBytes(s.c1) + WordBytes(s.c2) + WordBytes(s.c3)
  }

  lemma BytesRoundTrip(block: seq<u8>)
    requires |block| == 16
    ensures ToBytes(FromBytes(block)) == block
  {
  }

  method DecryptBlock(words: Schedule, table: seq<u8>, block: seq<u8>) returns (plain: State)
    requires IsInverseTable(table) && |block| == 16
    ensures plain == InvCipher(words, FromBytes(block))
  {
    hide InvRound, AddRoundKey, InvShiftRows, InvSubBytes, InvMixColumns, IsInverseTable;
    var state := new u8[4, 4]((r, c) requires 0 <= r < 4 && 0 <= c < 4 => block[r + 4 * c]);
    var s := FromBytes(block);
    assert Grid(state) == s;
    AddRoundKeyTo(state, words, 10);
    for round := 10 downto 0
      invariant Grid(state) == InvRounds(words, s, round)
    {
      InvRoundOf(state, words, table, round);
    }
    plain := Grid(state);
  }

  method InvRoundOf(state: array2<u8>, words: Schedule, table: seq<u8>, round: nat)
    requires state.Length0 == state.Length1 == 4 && IsInverseTable(table) && round <= 9
    modifies state
    ensures Grid(state) == InvRound(words, old(Grid(state)), round)
  {
    hide Grid, AddRoundKey, InvShiftRows, InvSubBytes, InvMixColumns, IsInverseTable;
    InvShiftRowsOf(state);
    InvSubBytesOf(state, table);
    AddRoundKeyTo(state, words, round);
    if round != 0 {
      InvMixColumnsOf(state);
    }
  }

  /** NIST SP 800-38A section 6.2, encryption: the block cipher, the block before the first, the blocks. */
  function CbcEncrypt(cipher: State -> State, previous: State, blocks: seq<State>): seq<State>
    decreases |blocks|
  {
    if blocks == [] then []
    else
      var c := cipher(AddState(blocks[0], previous));
      [c] + CbcEncrypt(cipher, c, blocks[1..])
  }

  /** NIST SP 800-38A section 6.2, decryption. */
  function CbcDecrypt(inverse: State -> State, previous: State, blocks: seq<State>): seq<State>
    decreases |blocks|
  {
    if blocks == [] then []
    else [AddState(inverse(blocks[0]), previous)] + CbcDecrypt(inverse, blocks[0], blocks[1..])
  }

  ghost predicate Undoes(f: State -> State, g: State -> State) {
    forall s :: f(g(s)) == s
  }

  /** Chained decryption undoes chained encryption, whatever the number of blocks. */
  lemma {:induction false} CbcDecryptUndoesEncrypt(cipher: State -> State, inverse: State -> State,
                                                   previous: State, blocks: seq<State>)
    requires Undoes(inverse, cipher)
    ensures CbcDecrypt(inverse, previous, CbcEncrypt(cipher, previous, blocks)) == blocks
    decreases |blocks|
  {
    hide AddState;
    if blocks != [] {
      var mixed := AddState(blocks[0], previous);
      var c := cipher(mixed);
      assert inverse(c) == mixed;
      AddStateCancels(blocks[0], previous);
      CbcDecryptUndoesEncrypt(cipher, inverse, c, blocks[1..]);
      assert ([c] + CbcEncrypt(cipher, c, blocks[1..]))[1..] == CbcEncrypt(cipher, c, blocks[1..]);
    }
  }

  /** And the other way round: every ciphertext is the encryption of what it decrypts to. */
  lemma {:induction false} CbcEncryptUndoesDecrypt(cipher: State -> State, inverse: State -> State,
                                                   previous: State, blocks: seq<State>)
    requires Undoes(cipher, inverse)
    ensures CbcEncrypt(cipher, previous, CbcDecrypt(inverse, previous, blocks)) == blocks
    decreases |blocks|
  {
    hide AddState;
    if blocks != [] {
      var c := blocks[0];
      var plain := AddState(inverse(c), previous);
      assert cipher(inverse(c)) == c;
      AddStateCancels(inverse(c), previous);
      CbcEncryptUndoesDecrypt(cipher, inverse, c, blocks[1..]);
      assert ([plain] + CbcDecrypt(inverse, c, blocks[1..]))[1..] == CbcDecrypt(inverse, c, blocks[1..]);
    }
  }

  function Blocks(data: seq<u8>): seq<State>
    requires |data| % 16 == 0
  {
    if data == [] then [] else [FromBytes(data[..16])] + Blocks(data[16..])
  }

  function Bytes(blocks: seq<State>): (data: seq<u8>)
    ensures |data| == 16 * |blocks|
  {
    if blocks == [] then [] else ToBytes(blocks[0]) + Bytes(blocks[1..])
  }

  lemma {:induction false} BlocksOfBytes(blocks: seq<State>)
    ensures Blocks(Bytes(blocks)) == blocks
  {
    if blocks != [] {
      hide ToBytes;
      var head, tail := ToBytes(blocks[0]), Bytes(blocks[1..]);
      assert (head + tail)[..16] == head && (head + tail)[16..] == tail;
      BlocksOfBytes(blocks[1..]);
    }
  }

  lemma {:induction false} BytesOfBlocks(data: seq<u8>)
    requires |data| % 16 == 0
    ensures Bytes(Blocks(data)) == data
  {
    if data != [] {
      hide ToBytes, FromBytes;
      BytesRoundTrip(data[..16]);
      BytesOfBlocks(data[16..]);
      var rest := Blocks(data[16..]);
      assert ([FromBytes(data[..16])] + rest)[1..] == rest;
      assert data == data[..16] + data[16..];
    }
  }

  function Forward(key: seq<u8>): State -> State
    requires |key| >= 16
  {
    var w := ExpandedKey(key);
    s => Cipher(w, s)
  }

  function Backward(key: seq<u8>): State -> State
    requires |key| >= 16
  {
    var w := ExpandedKey(key);
    s => InvCipher(w, s)
  }

  lemma KeyedInverse(key: seq<u8>)
    requires |key| >= 16
    ensures Undoes(Backward(key), Forward(key))
    ensures Undoes(Forward(key), Backward(key))
  {
    hide Cipher, InvCipher, ExpandedKey;
    forall s ensures Backward(key)(Forward(key)(s)) == s == Forward(key)(Backward(key)(s)) {
      InvCipherUndoesCipher(ExpandedKey(key), s);
      CipherUndoesInvCipher(ExpandedKey(key), s);
    }
  }

  /** The forward cipher under `key`, chained, on bytes. */
  function Encrypted(key: seq<u8>, iv: seq<u8>, data: seq<u8>): seq<u8>
    requires |key| >= 16 && |iv| == 16 && |data| % 16 == 0
  {
    Bytes(CbcEncrypt(Forward(key), FromBytes(iv), Blocks(data)))
  }

  /** The inverse cipher under `key`, chained, on bytes. */
  function Decrypted(key: seq<u8>, iv: seq<u8>, data: seq<u8>): seq<u8>
    requires |key| >= 16 && |iv| == 16 && |data| % 16 == 0
  {
    Bytes(CbcDecrypt(Backward(key), FromBytes(iv), Blocks(data)))
  }

  lemma ChainLengths(cipher: State -> State, previous: State, blocks: seq<State>)
    ensures |CbcEncrypt(cipher, previous, blocks)| == |CbcDecrypt(cipher, previous, blocks)| == |blocks|
    decreases |blocks|
  {
    hide AddState;
    if blocks != [] {
      ChainLengths(cipher, cipher(AddState(blocks[0], previous)), blocks[1..]);
      ChainLengths(cipher, blocks[0], blocks[1..]);
    }
  }

  /** For every key, initial vector and message of whole blocks, decryption restores what the
      chained forward cipher encrypted, and nothing else encrypts to the same bytes. */
  lemma DecryptionIsInverse(key: seq<u8>, iv: seq<u8>, data: seq<u8>)
    requires |key| >= 16 && |iv| == 16 && |data| % 16 == 0
    ensures |Encrypted(key, iv, data)| == |Decrypted(key, iv, data)| == |data|
    ensures Decrypted(key, iv, Encrypted(key, iv, data)) == data
    ensures Encrypted(key, iv, Decrypted(key, iv, data)) == data
  {
    hide Forward, Backward, FromBytes, CbcEncrypt, CbcDecrypt, Undoes;
    var cipher, inverse, first, blocks := Forward(key), Backward(key), FromBytes(iv), Blocks(data);
    KeyedInverse(key);
    BytesOfBlocks(data);
    BlocksOfBytes(CbcEncrypt(cipher, first, blocks));
    BlocksOfBytes(CbcDecrypt(inverse, first, blocks));
    CbcDecryptUndoesEncrypt(cipher, inverse, first, blocks);
    CbcEncryptUndoesDecrypt(cipher, inverse, first, blocks);
    ChainLengths(cipher, first, blocks);
    ChainLengths(inverse, first, blocks);
  }

  datatype Failure = IndexError

  /** The decryption of what is left of `data` at `offset`. */
  ghost function Left(key: seq<u8>, previous: seq<u8>, data: seq<u8>, offset: nat): seq<u8>
    requires |key| >= 16 && |previous| == 16 && offset <= |data| && (|data| - offset) % 16 == 0
  {
    Decrypted(key, previous, data[offset..])
  }

  function DecryptedBlock(key: seq<u8>, previous: seq<u8>, block: seq<u8>): seq<u8>
    requires |key| >= 16 && |previous| == 16 && |block| == 16
  {
    ToBytes(AddState(InvCipher(ExpandedKey(key), FromBytes(block)), FromBytes(previous)))
  }

  lemma LeftStep(key: seq<u8>, previous: seq<u8>, data: seq<u8>, offset: nat)
    requires |key| >= 16 && |previous| == 16 && offset < |data| && (|data| - offset) % 16 == 0
    ensures Left(key, previous, data, offset) ==
            DecryptedBlock(key, previous, data[offset..offset + 16])
            + Left(key, data[offset..offset + 16], data, offset + 16)
  {
    hide InvCipher, FromBytes, ToBytes, AddState, ExpandedKey;
    var rest, later := data[offset..], data[offset + 16..];
    assert rest[..16] == data[offset..offset + 16] && rest[16..] == later;
    var head, tail := FromBytes(rest[..16]), Blocks(later);
    assert ([head] + tail)[1..] == tail;
    var plain := AddState(Backward(key)(head), FromBytes(previous));
    var decrypted := CbcDecrypt(Backward(key), head, tail);
    assert ([plain] + decrypted)[1..] == decrypted;
  }

  lemma NothingLeft(key: seq<u8>, previous: seq<u8>, data: seq<u8>)
    requires |key| >= 16 && |previous| == 16
    ensures Left(key, previous, data, |data|) == []
  {
    assert data[|data|..] == [];
  }

  lemma AllLeft(key: seq<u8>, iv: seq<u8>, data: seq<u8>)
    requires |key| >= 16 && |iv| == 16 && |data| % 16 == 0
    ensures Left(key, iv, data, 0) == Decrypted(key, iv, data)
  {
    assert data[0..] == data;
  }

  // ----------------------------------------- an initial vector of another length

  function Least(a: nat, b: nat): nat {
    if a < b then a else b
  }

  function Zeros(n: nat): (z: seq<u8>)
    ensures |z| == n
  {
    seq(n, _ => 0)
  }

  /** The bytes of two lists added, up to the end of the shorter one. */
  function Zipped(a: seq<u8>, b: seq<u8>): (r: seq<u8>)
    ensures |r| == Least(|a|, |b|)
  {
    seq(Least(|a|, |b|), i requires 0 <= i < |a| && i < |b| => Add(a[i], b[i]))
  }

  /** A vector cut or filled up to a block. */
  function Filled(iv: seq<u8>): (block: seq<u8>)
    ensures |block| == 16 && (|iv| == 16 ==> block == iv)
  {
    iv[..Least(|iv|, 16)] + Zeros(16 - Least(|iv|, 16))
  }

  /** A slice of sixteen of a list, as far as it has them, replaced by another. */
  function Spliced(out: seq<u8>, offset: nat, piece: seq<u8>): seq<u8> {
    out[..Least(offset, |out|)] + piece + out[Least(offset + 16, |out|)..]
  }

  /** What a short vector makes of the plain text: of its first block only as many bytes are there as the
      vector has, and zeros for the others if another block follows. */
  function Short(plain: seq<u8>, k: nat): seq<u8>
    requires k <= 16
  {
    if |plain| <= 16 then plain[..Least(k, |plain|)] else plain[..k] + Zeros(16 - k) + plain[16..]
  }

  lemma ShortOfWhole(plain: seq<u8>)
    ensures Short(plain, 16) == plain
  {
  }

  /** The output list once `plain` has been decrypted, of `total` bytes. */
  ghost predicate Holding(out: seq<u8>, plain: seq<u8>, k: nat, total: nat) {
    && k <= 16 && |plain| % 16 == 0 && |plain| <= total
    && (if plain == [] then out == Zeros(total)
        else if |plain| == 16 then out == plain[..k] + Zeros(total - 16)
        else out == plain[..k] + Zeros(16 - k) + plain[16..] + Zeros(if total + k < |plain| + 16 then 0
          else total + k - |plain| - 16))
  }

  lemma HoldingFirst(out: seq<u8>, k: nat, total: nat, block: seq<u8>)
    requires Holding(out, [], k, total) && |block| == 16 <= total
    ensures Holding(Spliced(out, 0, block[..k]), block, k, total)
  {
    assert Spliced(out, 0, block[..k]) == block[..k] + Zeros(total - 16);
  }

  lemma HoldingSecond(out: seq<u8>, plain: seq<u8>, k: nat, total: nat, block: seq<u8>)
    requires Holding(out, plain, k, total) && |plain| == |block| == 16 && 32 <= total
    ensures Holding(Spliced(out, 16, block), plain + block, k, total)
  {
    assert out[..16] == plain[..k] + Zeros(16 - k);
    assert out[Least(32, |out|)..] == Zeros(if total + k < 48 then 0 else total + k - 48);
    assert (plain + block)[..k] == plain[..k] && (plain + block)[16..] == block;
  }

  lemma HoldingLater(out: seq<u8>, plain: seq<u8>, k: nat, total: nat, block: seq<u8>)
    requires Holding(out, plain, k, total) && |plain| >= 32 && |block| == 16 && |plain| + 16 <= total
    ensures Holding(Spliced(out, |plain|, block), plain + block, k, total)
  {
    var n := |plain|;
    assert out[..n] == plain[..k] + Zeros(16 - k) + plain[16..];
    assert out[Least(n + 16, |out|)..] == Zeros(if total + k < n + 32 then 0 else total + k - n - 32);
    assert (plain + block)[..k] == plain[..k] && (plain + block)[16..] == plain[16..] + block;
    Associative(plain[..k] + Zeros(16 - k), plain[16..], block);
  }

  lemma HoldingStep(out: seq<u8>, plain: seq<u8>, k: nat, total: nat, block: seq<u8>)
    requires Holding(out, plain, k, total) && |plain| % 16 == 0 && k <= 16 && |block| == 16 && |plain| + 16 <= total
    ensures Holding(Spliced(out, |plain|, if plain == [] then block[..k] else block), plain + block, k, total)
  {
    hide Holding, Spliced;
    if plain == [] {
      HoldingFirst(out, k, total, block);
      assert plain + block == block;
    } else if |plain| == 16 {
      HoldingSecond(out, plain, k, total, block);
    } else {
      SixteenOrMore(|plain|);
      HoldingLater(out, plain, k, total, block);
    }
  }

  lemma HoldingDone(out: seq<u8>, plain: seq<u8>, k: nat)
    requires Holding(out, plain, k, |plain|)
    ensures out == Short(plain, k)
  {
  }

  /** Adding a block is adding its bytes. */
  lemma AddedBytes(s: State, previous: seq<u8>)
    requires |previous| == 16
    ensures Zipped(ToBytes(s), previous) == ToBytes(AddState(s, FromBytes(previous)))
  {
    hide Add;
  }

  lemma AddedShort(block: seq<u8>, iv: seq<u8>)
    requires |block| == 16
    ensures Zipped(block, iv) == Zipped(block, Filled(iv))[..Least(|iv|, 16)]
  {
    hide Add;
  }

  /** The tools' chained decryption. A key of fewer than 16 bytes, or a last block that is not
      whole, runs off the end of a list; only the first 16 bytes of a key or of a vector are used, and a shorter
      vector leaves a hole in the first block. */
  method AesCbcDecrypt(key: seq<u8>, iv: seq<u8>, data: seq<u8>) returns (r: Result<seq<u8>, Failure>)
    ensures r.Ok? <==> |key| >= 16 && |data| % 16 == 0
    ensures r.Ok? ==> r.value == Short(Decrypted(key, Filled(iv), data), Least(|iv|, 16))
    ensures r.Ok? && |iv| == 16 ==> r.value == Decrypted(key, iv, data)
  {
    hide ExpandedKey, InvCipher, FromBytes, ToBytes, AddState, IsInverseTable, Decrypted, Left, Zipped, Spliced,
      Holding, Short, Filled;
    if |key| < 16 {
      return Err(IndexError);
    }
    var words := ExpandKey(key);
    var table := BuildInverseTable();
    var out, previous, offset := Zeros(|data|), iv, 0;
    ghost var k, plain, chained := Least(|iv|, 16), [], Filled(iv);
    HoldingNothing(k, |data|);
    if |data| % 16 == 0 {
      AllLeft(key, chained, data);
    }
    while offset < |data|
      invariant offset <= |data| && offset % 16 == 0 && |plain| == offset && |chained| == 16
      invariant if plain == [] then previous == iv && chained == Filled(iv) else previous == chained
      invariant Holding(out, plain, k, |data|)
      invariant |data| % 16 == 0 ==> plain + Left(key, chained, data, offset) == Decrypted(key, Filled(iv), data)
    {
      if offset + 16 > |data| {
        return Err(IndexError);
      }
      var block := data[offset..offset + 16];
      var decrypted := DecryptBlock(words, table, block);
      ghost var whole := ToBytes(AddState(decrypted, FromBytes(chained)));
      AddedBytes(decrypted, chained);
      AddedShort(ToBytes(decrypted), iv);
      HoldingStep(out, plain, k, |data|, whole);
      out := Spliced(out, offset, Zipped(ToBytes(decrypted), previous));
      if |data| % 16 == 0 {
        LeftStep(key, chained, data, offset);
        Associative(plain, whole, Left(key, block, data, offset + 16));
      }
      plain := plain + whole;
      previous, chained := block, block;
      offset := offset + 16;
    }
    NothingLeft(key, chained, data);
    assert plain + [] == plain;
    HoldingDone(out, plain, k);
    if |iv| == 16 {
      ShortOfWhole(plain);
    }
    r := Ok(out);
  }

  lemma SixteenOrMore(n: nat)
    ensures n % 16 == 0 && n != 0 && n != 16 ==> n >= 32
  {
  }

  lemma HoldingNothing(k: nat, total: nat)
    requires k <= 16
    ensures Holding(Zeros(total), [], k, total)
  {
  }
}
