/**
 What AES must be: the S-box from the field, the round constants, and the standard's own worked example (FIPS-197,
 appendix A.1 for the key expansion and appendix B for the cipher), step by step.
 */
module AesExamples {
  import opened AesTables
  import opened Aes

  // ------------------------------------------------------------- the S-box and the constants

  /** FIPS-197 section 5.1.1: each bit added to four others and a constant. */
  function Affine(c: u8): u8 {
    c ^ ((c << 1) | (c >> 7)) ^ ((c << 2) | (c >> 6)) ^ ((c << 3) | (c >> 5)) ^ ((c << 4) | (c >> 4)) ^ 0x63
  }

  /** The map that undoes it. */
  function Back(s: u8): u8 {
    ((s << 1) | (s >> 7)) ^ ((s << 3) | (s >> 5)) ^ ((s << 6) | (s >> 2)) ^ 0x05
  }

  lemma AffineOfBack(s: u8)
    ensures Affine(Back(s)) == s
  {
  }

  lemma LowInverse(b: u8)
    requires 0 < b < 0x80
    ensures Mul(b, Back(Sub(b))) == 1
  {
  }

  lemma HighInverse(b: u8)
    requires 0x80 <= b < 0xc0
    ensures Mul(b, Back(Sub(b))) == 1
  {
  }

  lemma HighestInverse(b: u8)
    requires b >= 0xc0
    ensures Mul(b, Back(Sub(b))) == 1
  {
  }

  /** The S-box is the affine map of the inverse in the field, and 0x63 at zero. */
  lemma SubIsAffine(b: u8) returns (c: u8)
    ensures if b == 0 then c == 0 else Mul(b, c) == 1
    ensures Sub(b) == Affine(c)
    ensures Sub(0) == 0x63
  {
    c := if b == 0 then 0 else Back(Sub(b));
    AffineOfBack(Sub(b));
    hide Mul;
    if b >= 0xc0 {
      HighestInverse(b);
    } else if b >= 0x80 {
      HighInverse(b);
    } else if b > 0 {
      LowInverse(b);
    }
  }

  /** The product of FIPS-197 section 4.2. */
  lemma MulExample()
    ensures Mul(0x57, 0x83) == 0xc1 && Mul(0x57, 0x13) == 0xfe
  {
  }

  /** The round constants are the powers of x. */
  lemma RconDoubles(i: nat)
    requires 1 <= i <= 9
    ensures Rcon(1) == 1 && Rcon(i + 1) == Xtime(Rcon(i))
  {
    if i == 1 {} else if i == 2 {} else if i == 3 {} else if i == 4 {} else if i == 5 {}
    else if i == 6 {} else if i == 7 {} else if i == 8 {} else {}
  }

  // ------------------------------------------------------------------ the key expansion

  /** The four words of a round, from those of the round before. */
  function NextKey(k: State, round: nat): State
    requires 1 <= round <= 10
  {
    var a := AddWord(k.c0, AddWord(SubWord(RotWord(k.c3)), Word(Rcon(round), 0, 0, 0)));
    var b := AddWord(k.c1, a);
    var c := AddWord(k.c2, b);
    State(a, b, c, AddWord(k.c3, c))
  }

  /** For every key: the words of a round follow from the round before. */
  lemma KeysFollow(key: seq<u8>, round: nat)
    requires |key| >= 16 && 1 <= round <= 10
    ensures RoundKey(ExpandedKey(key), round) == NextKey(RoundKey(ExpandedKey(key), round - 1), round)
  {
    hide AddWord, SubWord, RotWord, Rcon, KeyWord;
    var i := 4 * round;
    assert i % 4 == 0 && (i + 1) % 4 != 0 && (i + 2) % 4 != 0 && (i + 3) % 4 != 0;
  }

  const KEY: seq<u8> :=
    [0x2b, 0x7e, 0x15, 0x16, 0x28, 0xae, 0xd2, 0xa6, 0xab, 0xf7, 0x15, 0x88, 0x09, 0xcf, 0x4f, 0x3c]

  // The round keys of appendix A.1.
  const K0 := State(Word(0x2b, 0x7e, 0x15, 0x16), Word(0x28, 0xae, 0xd2, 0xa6),
                    Word(0xab, 0xf7, 0x15, 0x88), Word(0x09, 0xcf, 0x4f, 0x3c))
  const K1 := State(Word(0xa0, 0xfa, 0xfe, 0x17), Word(0x88, 0x54, 0x2c, 0xb1),
                    Word(0x23, 0xa3, 0x39, 0x39), Word(0x2a, 0x6c, 0x76, 0x05))
  const K2 := State(Word(0xf2, 0xc2, 0x95, 0xf2), Word(0x7a, 0x96, 0xb9, 0x43),
                    Word(0x59, 0x35, 0x80, 0x7a), Word(0x73, 0x59, 0xf6, 0x7f))
  const K3 := State(Word(0x3d, 0x80, 0x47, 0x7d), Word(0x47, 0x16, 0xfe, 0x3e),
                    Word(0x1e, 0x23, 0x7e, 0x44), Word(0x6d, 0x7a, 0x88, 0x3b))
  const K4 := State(Word(0xef, 0x44, 0xa5, 0x41), Word(0xa8, 0x52, 0x5b, 0x7f),
                    Word(0xb6, 0x71, 0x25, 0x3b), Word(0xdb, 0x0b, 0xad, 0x00))
  const K5 := State(Word(0xd4, 0xd1, 0xc6, 0xf8), Word(0x7c, 0x83, 0x9d, 0x87),
                    Word(0xca, 0xf2, 0xb8, 0xbc), Word(0x11, 0xf9, 0x15, 0xbc))
  const K6 := State(Word(0x6d, 0x88, 0xa3, 0x7a), Word(0x11, 0x0b, 0x3e, 0xfd),
                    Word(0xdb, 0xf9, 0x86, 0x41), Word(0xca, 0x00, 0x93, 0xfd))
  const K7 := State(Word(0x4e, 0x54, 0xf7, 0x0e), Word(0x5f, 0x5f, 0xc9, 0xf3),
                    Word(0x84, 0xa6, 0x4f, 0xb2), Word(0x4e, 0xa6, 0xdc, 0x4f))
  const K8 := State(Word(0xea, 0xd2, 0x73, 0x21), Word(0xb5, 0x8d, 0xba, 0xd2),
                    Word(0x31, 0x2b, 0xf5, 0x60), Word(0x7f, 0x8d, 0x29, 0x2f))
  const K9 := State(Word(0xac, 0x77, 0x66, 0xf3), Word(0x19, 0xfa, 0xdc, 0x21),
                    Word(0x28, 0xd1, 0x29, 0x41), Word(0x57, 0x5c, 0x00, 0x6e))
  const K10 := State(Word(0xd0, 0x14, 0xf9, 0xa8), Word(0xc9, 0xee, 0x25, 0x89),
                     Word(0xe1, 0x3f, 0x0c, 0xc8), Word(0xb6, 0x63, 0x0c, 0xa6))

  lemma Key1()
    ensures NextKey(K0, 1) == K1
  {
  }

  lemma Key2()
    ensures NextKey(K1, 2) == K2
  {
  }

  lemma Key3()
    ensures NextKey(K2, 3) == K3
  {
  }

  lemma Key4()
    ensures NextKey(K3, 4) == K4
  {
  }

  lemma Key5()
    ensures NextKey(K4, 5) == K5
  {
  }

  lemma Key6()
    ensures NextKey(K5, 6) == K6
  {
  }

  lemma Key7()
    ensures NextKey(K6, 7) == K7
  {
  }

  lemma Key8()
    ensures NextKey(K7, 8) == K8
  {
  }

  lemma Key9()
    ensures NextKey(K8, 9) == K9
  {
  }

  lemma Key10()
    ensures NextKey(K9, 10) == K10
  {
  }

  /** The example key expands to the round keys of appendix A.1. */
  lemma KeyExample()
    ensures var w := ExpandedKey(KEY);
            && RoundKey(w, 0) == K0
            && RoundKey(w, 1) == K1
            && RoundKey(w, 2) == K2
            && RoundKey(w, 3) == K3
            && RoundKey(w, 4) == K4
            && RoundKey(w, 5) == K5
            && RoundKey(w, 6) == K6
            && RoundKey(w, 7) == K7
            && RoundKey(w, 8) == K8
            && RoundKey(w, 9) == K9
            && RoundKey(w, 10) == K10
  {
    FirstKey();
    Key1();
    KeysFollow(KEY, 1);
    Key2();
    KeysFollow(KEY, 2);
    Key3();
    KeysFollow(KEY, 3);
    Key4();
    KeysFollow(KEY, 4);
    Key5();
    KeysFollow(KEY, 5);
    Key6();
    KeysFollow(KEY, 6);
    Key7();
    KeysFollow(KEY, 7);
    Key8();
    KeysFollow(KEY, 8);
    Key9();
    KeysFollow(KEY, 9);
    Key10();
    KeysFollow(KEY, 10);
    hide NextKey, ExpandedKey, RoundKey;
  }

  lemma FirstKey()
    ensures RoundKey(ExpandedKey(KEY), 0) == K0
  {
  }

  // ------------------------------------------------------------------------- the cipher

  function Mixed(a: u8, b: u8, c: u8, d: u8): u8 {
    Xtime(a) ^ Xtime(b) ^ b ^ c ^ d
  }

  function MixedColumn(w: Word): Word {
    Word(Mixed(w.b0, w.b1, w.b2, w.b3), Mixed(w.b1, w.b2, w.b3, w.b0),
         Mixed(w.b2, w.b3, w.b0, w.b1), Mixed(w.b3, w.b0, w.b1, w.b2))
  }

  /** FIPS-197 section 5.1.3, by doubling. */
  lemma MixByteIs(a: u8, b: u8, c: u8, d: u8)
    ensures MixByte(a, b, c, d) == Mixed(a, b, c, d)
  {
    hide Mul, Xtime;
    MulByTwo(a);
    MulByTwo(b);
    MulSum(b, 1, 2);
    MulByOne(b);
    assert (1 as u8) ^ 2 == 3;
  }

  lemma MixColumnIs(w: Word)
    ensures MixColumn(w) == MixedColumn(w)
  {
    hide MixByte, Mixed;
    MixByteIs(w.b0, w.b1, w.b2, w.b3);
    MixByteIs(w.b1, w.b2, w.b3, w.b0);
    MixByteIs(w.b2, w.b3, w.b0, w.b1);
    MixByteIs(w.b3, w.b0, w.b1, w.b2);
  }

  lemma MixColumnsIs(s: State)
    ensures MixColumns(s) == State(MixedColumn(s.c0), MixedColumn(s.c1), MixedColumn(s.c2), MixedColumn(s.c3))
  {
    hide MixColumn, MixedColumn;
    MixColumnIs(s.c0);
    MixColumnIs(s.c1);
    MixColumnIs(s.c2);
    MixColumnIs(s.c3);
  }

  // The state after each round of appendix B.
  const S0 := State(Word(0x19, 0x3d, 0xe3, 0xbe), Word(0xa0, 0xf4, 0xe2, 0x2b),
                    Word(0x9a, 0xc6, 0x8d, 0x2a), Word(0xe9, 0xf8, 0x48, 0x08))
  const S1 := State(Word(0xa4, 0x9c, 0x7f, 0xf2), Word(0x68, 0x9f, 0x35, 0x2b),
                    Word(0x6b, 0x5b, 0xea, 0x43), Word(0x02, 0x6a, 0x50, 0x49))
  const S2 := State(Word(0xaa, 0x8f, 0x5f, 0x03), Word(0x61, 0xdd, 0xe3, 0xef),
                    Word(0x82, 0xd2, 0x4a, 0xd2), Word(0x68, 0x32, 0x46, 0x9a))
  const S3 := State(Word(0x48, 0x6c, 0x4e, 0xee), Word(0x67, 0x1d, 0x9d, 0x0d),
                    Word(0x4d, 0xe3, 0xb1, 0x38), Word(0xd6, 0x5f, 0x58, 0xe7))
  const S4 := State(Word(0xe0, 0x92, 0x7f, 0xe8), Word(0xc8, 0x63, 0x63, 0xc0),
                    Word(0xd9, 0xb1, 0x35, 0x50), Word(0x85, 0xb8, 0xbe, 0x01))
  const S5 := State(Word(0xf1, 0x00, 0x6f, 0x55), Word(0xc1, 0x92, 0x4c, 0xef),
                    Word(0x7c, 0xc8, 0x8b, 0x32), Word(0x5d, 0xb5, 0xd5, 0x0c))
  const S6 := State(Word(0x26, 0x0e, 0x2e, 0x17), Word(0x3d, 0x41, 0xb7, 0x7d),
                    Word(0xe8, 0x64, 0x72, 0xa9), Word(0xfd, 0xd2, 0x8b, 0x25))
  const S7 := State(Word(0x5a, 0x41, 0x42, 0xb1), Word(0x19, 0x49, 0xdc, 0x1f),
                    Word(0xa3, 0xe0, 0x19, 0x65), Word(0x7a, 0x8c, 0x04, 0x0c))
  const S8 := State(Word(0xea, 0x83, 0x5c, 0xf0), Word(0x04, 0x45, 0x33, 0x2d),
                    Word(0x65, 0x5d, 0x98, 0xad), Word(0x85, 0x96, 0xb0, 0xc5))
  const S9 := State(Word(0xeb, 0x40, 0xf2, 0x1e), Word(0x59, 0x2e, 0x38, 0x84),
                    Word(0x8b, 0xa1, 0x13, 0xe7), Word(0x1b, 0xc3, 0x42, 0xd2))
  const S10 := State(Word(0x39, 0x25, 0x84, 0x1d), Word(0x02, 0xdc, 0x09, 0xfb),
                     Word(0xdc, 0x11, 0x85, 0x97), Word(0x19, 0x6a, 0x0b, 0x32))

  // And with its bytes substituted, on the way there.
  const T1 := State(Word(0xd4, 0x27, 0x11, 0xae), Word(0xe0, 0xbf, 0x98, 0xf1),
                    Word(0xb8, 0xb4, 0x5d, 0xe5), Word(0x1e, 0x41, 0x52, 0x30))
  const T2 := State(Word(0x49, 0xde, 0xd2, 0x89), Word(0x45, 0xdb, 0x96, 0xf1),
                    Word(0x7f, 0x39, 0x87, 0x1a), Word(0x77, 0x02, 0x53, 0x3b))
  const T3 := State(Word(0xac, 0x73, 0xcf, 0x7b), Word(0xef, 0xc1, 0x11, 0xdf),
                    Word(0x13, 0xb5, 0xd6, 0xb5), Word(0x45, 0x23, 0x5a, 0xb8))
  const T4 := State(Word(0x52, 0x50, 0x2f, 0x28), Word(0x85, 0xa4, 0x5e, 0xd7),
                    Word(0xe3, 0x11, 0xc8, 0x07), Word(0xf6, 0xcf, 0x6a, 0x94))
  const T5 := State(Word(0xe1, 0x4f, 0xd2, 0x9b), Word(0xe8, 0xfb, 0xfb, 0xba),
                    Word(0x35, 0xc8, 0x96, 0x53), Word(0x97, 0x6c, 0xae, 0x7c))
  const T6 := State(Word(0xa1, 0x63, 0xa8, 0xfc), Word(0x78, 0x4f, 0x29, 0xdf),
                    Word(0x10, 0xe8, 0x3d, 0x23), Word(0x4c, 0xd5, 0x03, 0xfe))
  const T7 := State(Word(0xf7, 0xab, 0x31, 0xf0), Word(0x27, 0x83, 0xa9, 0xff),
                    Word(0x9b, 0x43, 0x40, 0xd3), Word(0x54, 0xb5, 0x3d, 0x3f))
  const T8 := State(Word(0xbe, 0x83, 0x2c, 0xc8), Word(0xd4, 0x3b, 0x86, 0xc0),
                    Word(0x0a, 0xe1, 0xd4, 0x4d), Word(0xda, 0x64, 0xf2, 0xfe))
  const T9 := State(Word(0x87, 0xec, 0x4a, 0x8c), Word(0xf2, 0x6e, 0xc3, 0xd8),
                    Word(0x4d, 0x4c, 0x46, 0x95), Word(0x97, 0x90, 0xe7, 0xa6))
  const T10 := State(Word(0xe9, 0x09, 0x89, 0x72), Word(0xcb, 0x31, 0x07, 0x5f),
                     Word(0x3d, 0x32, 0x7d, 0x94), Word(0xaf, 0x2e, 0x2c, 0xb5))

  lemma Subbed1()
    ensures SubBytes(S0) == T1
  {
  }

  lemma Subbed2()
    ensures SubBytes(S1) == T2
  {
  }

  lemma Subbed3()
    ensures SubBytes(S2) == T3
  {
  }

  lemma Subbed4()
    ensures SubBytes(S3) == T4
  {
  }

  lemma Subbed5()
    ensures SubBytes(S4) == T5
  {
  }

  lemma Subbed6()
    ensures SubBytes(S5) == T6
  {
  }

  lemma Subbed7()
    ensures SubBytes(S6) == T7
  {
  }

  lemma Subbed8()
    ensures SubBytes(S7) == T8
  {
  }

  lemma Subbed9()
    ensures SubBytes(S8) == T9
  {
  }

  lemma Subbed10()
    ensures SubBytes(S9) == T10
  {
  }

  lemma Round1()
    ensures AddState(MixColumns(ShiftRows(SubBytes(S0))), K1) == S1
  {
    Subbed1();
    hide SubBytes;
    MixColumnsIs(ShiftRows(T1));
    hide MixColumns;
  }

  lemma Round2()
    ensures AddState(MixColumns(ShiftRows(SubBytes(S1))), K2) == S2
  {
    Subbed2();
    hide SubBytes;
    MixColumnsIs(ShiftRows(T2));
    hide MixColumns;
  }

  lemma Round3()
    ensures AddState(MixColumns(ShiftRows(SubBytes(S2))), K3) == S3
  {
    Subbed3();
    hide SubBytes;
    MixColumnsIs(ShiftRows(T3));
    hide MixColumns;
  }

  lemma Round4()
    ensures AddState(MixColumns(ShiftRows(SubBytes(S3))), K4) == S4
  {
    Subbed4();
    hide SubBytes;
    MixColumnsIs(ShiftRows(T4));
    hide MixColumns;
  }

  lemma Round5()
    ensures AddState(MixColumns(ShiftRows(SubBytes(S4))), K5) == S5
  {
    Subbed5();
    hide SubBytes;
    MixColumnsIs(ShiftRows(T5));
    hide MixColumns;
  }

  lemma Round6()
    ensures AddState(MixColumns(ShiftRows(SubBytes(S5))), K6) == S6
  {
    Subbed6();
    hide SubBytes;
    MixColumnsIs(ShiftRows(T6));
    hide MixColumns;
  }

  lemma Round7()
    ensures AddState(MixColumns(ShiftRows(SubBytes(S6))), K7) == S7
  {
    Subbed7();
    hide SubBytes;
    MixColumnsIs(ShiftRows(T7));
    hide MixColumns;
  }

  lemma Round8()
    ensures AddState(MixColumns(ShiftRows(SubBytes(S7))), K8) == S8
  {
    Subbed8();
    hide SubBytes;
    MixColumnsIs(ShiftRows(T8));
    hide MixColumns;
  }

  lemma Round9()
    ensures AddState(MixColumns(ShiftRows(SubBytes(S8))), K9) == S9
  {
    Subbed9();
    hide SubBytes;
    MixColumnsIs(ShiftRows(T9));
    hide MixColumns;
  }

  lemma Round10()
    ensures AddState(ShiftRows(SubBytes(S9)), K10) == S10
  {
    Subbed10();
    hide SubBytes;
  }

  const PLAIN: seq<u8> :=
    [0x32, 0x43, 0xf6, 0xa8, 0x88, 0x5a, 0x30, 0x8d, 0x31, 0x31, 0x98, 0xa2, 0xe0, 0x37, 0x07, 0x34]

  const CIPHERED: seq<u8> :=
    [0x39, 0x25, 0x84, 0x1d, 0x02, 0xdc, 0x09, 0xfb, 0xdc, 0x11, 0x85, 0x97, 0x19, 0x6a, 0x0b, 0x32]

  lemma FirstRound()
    ensures AddState(FromBytes(PLAIN), K0) == S0
  {
  }

  lemma LastRound()
    ensures S10 == FromBytes(CIPHERED)
  {
  }

  /** The words of the example. */
  ghost predicate Exemplary(w: Schedule) {
    && RoundKey(w, 0) == K0
    && RoundKey(w, 1) == K1
    && RoundKey(w, 2) == K2
    && RoundKey(w, 3) == K3
    && RoundKey(w, 4) == K4
    && RoundKey(w, 5) == K5
    && RoundKey(w, 6) == K6
    && RoundKey(w, 7) == K7
    && RoundKey(w, 8) == K8
    && RoundKey(w, 9) == K9
    && RoundKey(w, 10) == K10
  }

  lemma Follows(w: Schedule, s: State, n: nat, before: State, k: State, after: State)
    requires 1 <= n <= 9 && Rounds(w, s, n - 1) == before && RoundKey(w, n) == k
    requires AddState(MixColumns(ShiftRows(SubBytes(before))), k) == after
    ensures Rounds(w, s, n) == after
  {
    hide AddState, MixColumns, ShiftRows, SubBytes, RoundKey;
  }

  /** After every round the cipher is where appendix B has it. */
  lemma RoundExample(w: Schedule, s: State)
    requires Exemplary(w) && AddState(s, K0) == S0
    ensures Rounds(w, s, 9) == S9
  {
    Round1();
    Round2();
    Round3();
    Round4();
    Round5();
    Round6();
    Round7();
    Round8();
    Round9();
    hide AddState, MixColumns, ShiftRows, SubBytes, RoundKey;
    assert Rounds(w, s, 0) == S0;
    hide Rounds;
    Follows(w, s, 1, S0, K1, S1);
    Follows(w, s, 2, S1, K2, S2);
    Follows(w, s, 3, S2, K3, S3);
    Follows(w, s, 4, S3, K4, S4);
    Follows(w, s, 5, S4, K5, S5);
    Follows(w, s, 6, S5, K6, S6);
    Follows(w, s, 7, S6, K7, S7);
    Follows(w, s, 8, S7, K8, S8);
    Follows(w, s, 9, S8, K9, S9);
  }

  lemma Ciphered(w: Schedule, s: State)
    requires Exemplary(w) && AddState(s, K0) == S0
    ensures Cipher(w, s) == S10
  {
    RoundExample(w, s);
    Round10();
    hide AddState, ShiftRows, SubBytes, RoundKey, Rounds;
  }

  lemma ExampleKeys()
    ensures Exemplary(ExpandedKey(KEY))
  {
    KeyExample();
    hide ExpandedKey, RoundKey;
  }

  /** The example block of appendix B, in both directions. */
  lemma BlockExample()
    ensures Cipher(ExpandedKey(KEY), FromBytes(PLAIN)) == FromBytes(CIPHERED)
    ensures InvCipher(ExpandedKey(KEY), FromBytes(CIPHERED)) == FromBytes(PLAIN)
  {
    ExampleKeys();
    FirstRound();
    LastRound();
    hide AddState, ExpandedKey, FromBytes, InvCipher, Cipher, Exemplary;
    Ciphered(ExpandedKey(KEY), FromBytes(PLAIN));
    InvCipherUndoesCipher(ExpandedKey(KEY), FromBytes(PLAIN));
  }

  /** And as bytes, by the chained decryption with an initial vector of zeros. */
  lemma ChainExample()
    ensures Decrypted(KEY, Zeros(16), CIPHERED) == PLAIN
  {
    hide InvCipher, Cipher, ExpandedKey, Decrypted, FromBytes, ToBytes, AddState, Zeros;
    BlockExample();
    OneBlock(KEY, Zeros(16), CIPHERED);
    BytesRoundTrip(PLAIN);
    AddedNothing(FromBytes(PLAIN));
  }

  lemma OneBlock(key: seq<u8>, iv: seq<u8>, block: seq<u8>)
    requires |key| >= 16 && |iv| == |block| == 16
    ensures Decrypted(key, iv, block) == ToBytes(AddState(InvCipher(ExpandedKey(key), FromBytes(block)), FromBytes(iv)))
  {
    hide InvCipher, ExpandedKey, ToBytes, FromBytes, AddState;
    AllLeft(key, iv, block);
    LeftStep(key, iv, block, 0);
    NothingLeft(key, block, block);
    hide Left, Decrypted;
    assert block[0..0 + 16] == block;
    assert DecryptedBlock(key, iv, block) + [] == DecryptedBlock(key, iv, block);
  }

  lemma AddedNothing(s: State)
    ensures AddState(s, FromBytes(Zeros(16))) == s
  {
  }
}
