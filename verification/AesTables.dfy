/**
 The tables and the byte arithmetic of AES-128: the S-box and its inverse (FIPS-197, figures
 7 and 14), and the field GF(2^8) of section 4.2 with the tools' shift-and-add product.
 */
module AesTables {
  type u8 = bv8

  /** The entry of a row of sixteen selected by a nibble. */
  function OneOf(y: u8, v0: u8, v1: u8, v2: u8, v3: u8, v4: u8, v5: u8, v6: u8, v7: u8,
                 v8: u8, v9: u8, v10: u8, v11: u8, v12: u8, v13: u8, v14: u8, v15: u8): u8 {
    if y < 8 then
      if y < 4 then (if y < 2 then (if y < 1 then v0 else v1) else (if y < 3 then v2 else v3))
        else (if y < 6 then (if y < 5 then v4 else v5) else (if y < 7 then v6 else v7))
    else
      if y < 12 then (if y < 10 then (if y < 9 then v8 else v9) else (if y < 11 then v10 else v11))
        else (if y < 14 then (if y < 13 then v12 else v13) else (if y < 15 then v14 else v15))
  }

  /** The S-box, FIPS-197 figure 7. */
  function Sub(b: u8): u8 {
    OneOf(b >> 4,
      OneOf(b & 15, 0x63, 0x7c, 0x77, 0x7b, 0xf2, 0x6b, 0x6f, 0xc5, 0x30, 0x01, 0x67, 0x2b, 0xfe, 0xd7, 0xab, 0x76),
      OneOf(b & 15, 0xca, 0x82, 0xc9, 0x7d, 0xfa, 0x59, 0x47, 0xf0, 0xad, 0xd4, 0xa2, 0xaf, 0x9c, 0xa4, 0x72, 0xc0),
      OneOf(b & 15, 0xb7, 0xfd, 0x93, 0x26, 0x36, 0x3f, 0xf7, 0xcc, 0x34, 0xa5, 0xe5, 0xf1, 0x71, 0xd8, 0x31, 0x15),
      OneOf(b & 15, 0x04, 0xc7, 0x23, 0xc3, 0x18, 0x96, 0x05, 0x9a, 0x07, 0x12, 0x80, 0xe2, 0xeb, 0x27, 0xb2, 0x75),
      OneOf(b & 15, 0x09, 0x83, 0x2c, 0x1a, 0x1b, 0x6e, 0x5a, 0xa0, 0x52, 0x3b, 0xd6, 0xb3, 0x29, 0xe3, 0x2f, 0x84),
      OneOf(b & 15, 0x53, 0xd1, 0x00, 0xed, 0x20, 0xfc, 0xb1, 0x5b, 0x6a, 0xcb, 0xbe, 0x39, 0x4a, 0x4c, 0x58, 0xcf),
      OneOf(b & 15, 0xd0, 0xef, 0xaa, 0xfb, 0x43, 0x4d, 0x33, 0x85, 0x45, 0xf9, 0x02, 0x7f, 0x50, 0x3c, 0x9f, 0xa8),
      OneOf(b & 15, 0x51, 0xa3, 0x40, 0x8f, 0x92, 0x9d, 0x38, 0xf5, 0xbc, 0xb6, 0xda, 0x21, 0x10, 0xff, 0xf3, 0xd2),
      OneOf(b & 15, 0xcd, 0x0c, 0x13, 0xec, 0x5f, 0x97, 0x44, 0x17, 0xc4, 0xa7, 0x7e, 0x3d, 0x64, 0x5d, 0x19, 0x73),
      OneOf(b & 15, 0x60, 0x81, 0x4f, 0xdc, 0x22, 0x2a, 0x90, 0x88, 0x46, 0xee, 0xb8, 0x14, 0xde, 0x5e, 0x0b, 0xdb),
      OneOf(b & 15, 0xe0, 0x32, 0x3a, 0x0a, 0x49, 0x06, 0x24, 0x5c, 0xc2, 0xd3, 0xac, 0x62, 0x91, 0x95, 0xe4, 0x79),
      OneOf(b & 15, 0xe7, 0xc8, 0x37, 0x6d, 0x8d, 0xd5, 0x4e, 0xa9, 0x6c, 0x56, 0xf4, 0xea, 0x65, 0x7a, 0xae, 0x08),
      OneOf(b & 15, 0xba, 0x78, 0x25, 0x2e, 0x1c, 0xa6, 0xb4, 0xc6, 0xe8, 0xdd, 0x74, 0x1f, 0x4b, 0xbd, 0x8b, 0x8a),
      OneOf(b & 15, 0x70, 0x3e, 0xb5, 0x66, 0x48, 0x03, 0xf6, 0x0e, 0x61, 0x35, 0x57, 0xb9, 0x86, 0xc1, 0x1d, 0x9e),
      OneOf(b & 15, 0xe1, 0xf8, 0x98, 0x11, 0x69, 0xd9, 0x8e, 0x94, 0x9b, 0x1e, 0x87, 0xe9, 0xce, 0x55, 0x28, 0xdf),
      OneOf(b & 15, 0x8c, 0xa1, 0x89, 0x0d, 0xbf, 0xe6, 0x42, 0x68, 0x41, 0x99, 0x2d, 0x0f, 0xb0, 0x54, 0xbb, 0x16))
  }

  /** The inverse S-box, FIPS-197 figure 14. */
  function InvSub(b: u8): u8 {
    OneOf(b >> 4,
      OneOf(b & 15, 0x52, 0x09, 0x6a, 0xd5, 0x30, 0x36, 0xa5, 0x38, 0xbf, 0x40, 0xa3, 0x9e, 0x81, 0xf3, 0xd7, 0xfb),
      OneOf(b & 15, 0x7c, 0xe3, 0x39, 0x82, 0x9b, 0x2f, 0xff, 0x87, 0x34, 0x8e, 0x43, 0x44, 0xc4, 0xde, 0xe9, 0xcb),
      OneOf(b & 15, 0x54, 0x7b, 0x94, 0x32, 0xa6, 0xc2, 0x23, 0x3d, 0xee, 0x4c, 0x95, 0x0b, 0x42, 0xfa, 0xc3, 0x4e),
      OneOf(b & 15, 0x08, 0x2e, 0xa1, 0x66, 0x28, 0xd9, 0x24, 0xb2, 0x76, 0x5b, 0xa2, 0x49, 0x6d, 0x8b, 0xd1, 0x25),
      OneOf(b & 15, 0x72, 0xf8, 0xf6, 0x64, 0x86, 0x68, 0x98, 0x16, 0xd4, 0xa4, 0x5c, 0xcc, 0x5d, 0x65, 0xb6, 0x92),
      OneOf(b & 15, 0x6c, 0x70, 0x48, 0x50, 0xfd, 0xed, 0xb9, 0xda, 0x5e, 0x15, 0x46, 0x57, 0xa7, 0x8d, 0x9d, 0x84),
      OneOf(b & 15, 0x90, 0xd8, 0xab, 0x00, 0x8c, 0xbc, 0xd3, 0x0a, 0xf7, 0xe4, 0x58, 0x05, 0xb8, 0xb3, 0x45, 0x06),
      OneOf(b & 15, 0xd0, 0x2c, 0x1e, 0x8f, 0xca, 0x3f, 0x0f, 0x02, 0xc1, 0xaf, 0xbd, 0x03, 0x01, 0x13, 0x8a, 0x6b),
      OneOf(b & 15, 0x3a, 0x91, 0x11, 0x41, 0x4f, 0x67, 0xdc, 0xea, 0x97, 0xf2, 0xcf, 0xce, 0xf0, 0xb4, 0xe6, 0x73),
      OneOf(b & 15, 0x96, 0xac, 0x74, 0x22, 0xe7, 0xad, 0x35, 0x85, 0xe2, 0xf9, 0x37, 0xe8, 0x1c, 0x75, 0xdf, 0x6e),
      OneOf(b & 15, 0x47, 0xf1, 0x1a, 0x71, 0x1d, 0x29, 0xc5, 0x89, 0x6f, 0xb7, 0x62, 0x0e, 0xaa, 0x18, 0xbe, 0x1b),
      OneOf(b & 15, 0xfc, 0x56, 0x3e, 0x4b, 0xc6, 0xd2, 0x79, 0x20, 0x9a, 0xdb, 0xc0, 0xfe, 0x78, 0xcd, 0x5a, 0xf4),
      OneOf(b & 15, 0x1f, 0xdd, 0xa8, 0x33, 0x88, 0x07, 0xc7, 0x31, 0xb1, 0x12, 0x10, 0x59, 0x27, 0x80, 0xec, 0x5f),
      OneOf(b & 15, 0x60, 0x51, 0x7f, 0xa9, 0x19, 0xb5, 0x4a, 0x0d, 0x2d, 0xe5, 0x7a, 0x9f, 0x93, 0xc9, 0x9c, 0xef),
      OneOf(b & 15, 0xa0, 0xe0, 0x3b, 0x4d, 0xae, 0x2a, 0xf5, 0xb0, 0xc8, 0xeb, 0xbb, 0x3c, 0x83, 0x53, 0x99, 0x61),
      OneOf(b & 15, 0x17, 0x2b, 0x04, 0x7e, 0xba, 0x77, 0xd6, 0x26, 0xe1, 0x69, 0x14, 0x63, 0x55, 0x21, 0x0c, 0x7d))
  }

  lemma InvSubUndoesSub(b: u8)
    ensures InvSub(Sub(b)) == b
  {
  }

  lemma SubUndoesInvSub(b: u8)
    ensures Sub(InvSub(b)) == b
  {
  }

  /** Addition in GF(2^8), FIPS-197 section 4.1. */
  function Add(a: u8, b: u8): u8 {
    a ^ b
  }

  /** Multiplication by x in GF(2^8). */
  function Xtime(a: u8): u8 {
    if a & 0x80 != 0 then (a << 1) ^ 0x1b else a << 1
  }

  /** Addition of polynomials over GF(2). */
  function Plus(p: bv16, q: bv16): bv16 {
    p ^ q
  }

  function Shift(w: bv16, k: nat): bv16 {
    match k
    case 1 => w << 1 case 2 => w << 2 case 3 => w << 3 case 4 => w << 4 case 5 => w << 5 case 6 => w << 6
      case 7 => w << 7
    case _ => w
  }

  predicate Bit(b: u8, k: nat) {
    match k
    case 1 => b & 2 != 0 case 2 => b & 4 != 0 case 3 => b & 8 != 0 case 4 => b & 16 != 0 case 5 => b & 32 != 0
      case 6 => b & 64 != 0 case 7 => b & 128 != 0
    case _ => b & 1 != 0
  }

  /** `w` times x^k, when `b` has that term. */
  function Term(w: bv16, b: u8, k: nat): bv16 {
    if Bit(b, k) then Shift(w, k) else 0
  }

  /** The product of two polynomials over GF(2), without the terms past x^15. */
  function Product(w: bv16, b: u8): bv16 {
    Plus(Plus(Plus(Term(w, b, 0), Term(w, b, 1)), Plus(Term(w, b, 2), Term(w, b, 3))),
         Plus(Plus(Term(w, b, 4), Term(w, b, 5)), Plus(Term(w, b, 6), Term(w, b, 7))))
  }

  predicate Has(p: bv16, term: bv16) {
    p & term != 0
  }

  /** Cancels the highest term of `p`, when it has it, with a multiple of the modulus. */
  function Cancel(p: bv16, term: bv16, multiple: bv16): bv16 {
    if Has(p, term) then Plus(p, multiple) else p
  }

  /** The remainder modulo x^8 + x^4 + x^3 + x + 1. */
  function Remainder(p: bv16): u8 {
    var m: bv16 := 0x11b;
    var p := Cancel(p, 0x4000, m << 6);
    var p := Cancel(p, 0x2000, m << 5);
    var p := Cancel(p, 0x1000, m << 4);
    var p := Cancel(p, 0x0800, m << 3);
    var p := Cancel(p, 0x0400, m << 2);
    var p := Cancel(p, 0x0200, m << 1);
    var p := Cancel(p, 0x0100, m);
    Low(p)
  }

  function Low(p: bv16): u8 {
    (p & 0xff) as u8
  }

  /** The product in GF(2^8), FIPS-197 section 4.2. */
  function Mul(a: u8, b: u8): u8 {
    Remainder(Product(a as bv16, b))
  }

  // Linearity.  Exclusive-or stays folded up in Plus and Add, so that these are proofs by
  // congruence; the few facts about it are stated where it is unfolded.

  lemma PlusCommutes(p: bv16, q: bv16)
    ensures Plus(p, q) == Plus(q, p)
  {
  }

  lemma PlusAssociates(p: bv16, q: bv16, r: bv16)
    ensures Plus(Plus(p, q), r) == Plus(p, Plus(q, r))
  {
  }

  lemma PlusSelf(p: bv16)
    ensures Plus(p, p) == 0 && Plus(p, 0) == p
  {
  }

  lemma PlusPairs(p: bv16, q: bv16, r: bv16, s: bv16)
    ensures Plus(Plus(p, q), Plus(r, s)) == Plus(Plus(p, r), Plus(q, s))
  {
    hide Plus;
    PlusAssociates(p, q, Plus(r, s));
    PlusAssociates(q, r, s);
    PlusCommutes(q, r);
    PlusAssociates(r, q, s);
    PlusAssociates(p, r, Plus(q, s));
  }

  lemma PlusCancels(p: bv16, q: bv16, m: bv16)
    ensures Plus(Plus(p, m), Plus(q, m)) == Plus(p, q)
    ensures Plus(Plus(p, m), q) == Plus(Plus(p, q), m)
    ensures Plus(p, Plus(q, m)) == Plus(Plus(p, q), m)
  {
    hide Plus;
    PlusPairs(p, m, q, m);
    PlusSelf(m);
    PlusSelf(Plus(p, q));
    PlusAssociates(p, m, q);
    PlusCommutes(m, q);
    PlusAssociates(p, q, m);
  }

  predicate Leading(term: bv16) {
    term in {0x4000, 0x2000, 0x1000, 0x0800, 0x0400, 0x0200, 0x0100}
  }

  lemma HasSum(p: bv16, q: bv16, term: bv16)
    requires Leading(term)
    ensures Has(Plus(p, q), term) == (Has(p, term) != Has(q, term))
  {
  }

  lemma CancelIsLinear(p: bv16, q: bv16, term: bv16, multiple: bv16)
    requires Leading(term)
    ensures Cancel(Plus(p, q), term, multiple) == Plus(Cancel(p, term, multiple), Cancel(q, term, multiple))
  {
    hide Has, Plus, Leading;
    HasSum(p, q, term);
    PlusCancels(p, q, multiple);
  }

  lemma RemainderIsLinear(p: bv16, q: bv16)
    ensures Remainder(Plus(p, q)) == Add(Remainder(p), Remainder(q))
  {
    hide Cancel, Plus, Low, Add;
    var m: bv16 := 0x11b;
    CancelIsLinear(p, q, 0x4000, m << 6);
    var p1, q1 := Cancel(p, 0x4000, m << 6), Cancel(q, 0x4000, m << 6);
    CancelIsLinear(p1, q1, 0x2000, m << 5);
    var p2, q2 := Cancel(p1, 0x2000, m << 5), Cancel(q1, 0x2000, m << 5);
    CancelIsLinear(p2, q2, 0x1000, m << 4);
    var p3, q3 := Cancel(p2, 0x1000, m << 4), Cancel(q2, 0x1000, m << 4);
    CancelIsLinear(p3, q3, 0x0800, m << 3);
    var p4, q4 := Cancel(p3, 0x0800, m << 3), Cancel(q3, 0x0800, m << 3);
    CancelIsLinear(p4, q4, 0x0400, m << 2);
    var p5, q5 := Cancel(p4, 0x0400, m << 2), Cancel(q4, 0x0400, m << 2);
    CancelIsLinear(p5, q5, 0x0200, m << 1);
    var p6, q6 := Cancel(p5, 0x0200, m << 1), Cancel(q5, 0x0200, m << 1);
    CancelIsLinear(p6, q6, 0x0100, m);
    LowIsLinear(Cancel(p6, 0x0100, m), Cancel(q6, 0x0100, m));
  }

  lemma LowIsLinear(p: bv16, q: bv16)
    ensures Low(Plus(p, q)) == Add(Low(p), Low(q))
  {
  }

  lemma ShiftIsLinear(w: bv16, v: bv16, k: nat)
    requires k < 8
    ensures Shift(Plus(w, v), k) == Plus(Shift(w, k), Shift(v, k))
  {
    if k == 0 {} else if k == 1 {} else if k == 2 {} else if k == 3 {}
    else if k == 4 {} else if k == 5 {} else if k == 6 {} else {}
  }

  lemma TermIsLinear(w: bv16, v: bv16, b: u8, k: nat)
    requires k < 8
    ensures Term(Plus(w, v), b, k) == Plus(Term(w, b, k), Term(v, b, k))
  {
    hide Shift, Bit, Plus;
    ShiftIsLinear(w, v, k);
    PlusSelf(0);
  }

  lemma ProductIsLinear(w: bv16, v: bv16, b: u8)
    ensures Product(Plus(w, v), b) == Plus(Product(w, b), Product(v, b))
  {
    hide Term, Plus;
    TermIsLinear(w, v, b, 0);
    TermIsLinear(w, v, b, 1);
    TermIsLinear(w, v, b, 2);
    TermIsLinear(w, v, b, 3);
    TermIsLinear(w, v, b, 4);
    TermIsLinear(w, v, b, 5);
    TermIsLinear(w, v, b, 6);
    TermIsLinear(w, v, b, 7);
    PlusPairs(Term(w, b, 0), Term(w, b, 1),
              Term(v, b, 0), Term(v, b, 1));
    PlusPairs(Term(w, b, 2), Term(w, b, 3),
              Term(v, b, 2), Term(v, b, 3));
    PlusPairs(Plus(Term(w, b, 0), Term(w, b, 1)), Plus(Term(w, b, 2), Term(w, b, 3)),
              Plus(Term(v, b, 0), Term(v, b, 1)), Plus(Term(v, b, 2), Term(v, b, 3)));
    PlusPairs(Term(w, b, 4), Term(w, b, 5),
              Term(v, b, 4), Term(v, b, 5));
    PlusPairs(Term(w, b, 6), Term(w, b, 7),
              Term(v, b, 6), Term(v, b, 7));
    PlusPairs(Plus(Term(w, b, 4), Term(w, b, 5)), Plus(Term(w, b, 6), Term(w, b, 7)),
              Plus(Term(v, b, 4), Term(v, b, 5)), Plus(Term(v, b, 6), Term(v, b, 7)));
    PlusPairs(Plus(Plus(Term(w, b, 0), Term(w, b, 1)), Plus(Term(w, b, 2), Term(w, b, 3))),
              Plus(Plus(Term(w, b, 4), Term(w, b, 5)), Plus(Term(w, b, 6), Term(w, b, 7))),
              Plus(Plus(Term(v, b, 0), Term(v, b, 1)), Plus(Term(v, b, 2), Term(v, b, 3))),
              Plus(Plus(Term(v, b, 4), Term(v, b, 5)), Plus(Term(v, b, 6), Term(v, b, 7))));
  }

  /** The terms of `b` from x on are those of `b >> 1`, times x. */
  lemma TermShifts(w: bv16, b: u8, k: nat)
    requires k < 8
    ensures Term(w << 1, b >> 1, k) == if k == 7 then 0 else Term(w, b, k + 1)
  {
    if k == 0 {} else if k == 1 {} else if k == 2 {} else if k == 3 {}
    else if k == 4 {} else if k == 5 {} else if k == 6 {} else {}
  }

  lemma ProductStep(w: bv16, b: u8)
    ensures Product(w, b) == Plus(Term(w, b, 0), Product(w << 1, b >> 1))
  {
    TermShifts(w, b, 0); TermShifts(w, b, 1); TermShifts(w, b, 2); TermShifts(w, b, 3);
    TermShifts(w, b, 4); TermShifts(w, b, 5); TermShifts(w, b, 6); TermShifts(w, b, 7);
    Regroup(Term(w, b, 0), Term(w, b, 1), Term(w, b, 2), Term(w, b, 3),
            Term(w, b, 4), Term(w, b, 5), Term(w, b, 6), Term(w, b, 7));
    hide Term, Plus;
  }

  lemma Regroup(a: bv16, b: bv16, c: bv16, d: bv16, e: bv16, f: bv16, g: bv16, h: bv16)
    ensures Plus(Plus(Plus(a, b), Plus(c, d)), Plus(Plus(e, f), Plus(g, h))) ==
            Plus(a, Plus(Plus(Plus(b, c), Plus(d, e)), Plus(Plus(f, g), Plus(h, 0))))
  {
    hide Plus;
    var cd, de, fg, gh := Plus(c, d), Plus(d, e), Plus(f, g), Plus(g, h);
    PlusSelf(h);
    PlusAssociates(a, b, cd);
    PlusAssociates(b, c, d);                        // a + ((b + c) + d)
    var bc := Plus(b, c);
    PlusAssociates(a, Plus(bc, d), Plus(Plus(e, f), gh));
    PlusAssociates(e, f, gh);
    PlusAssociates(f, g, h);                        // e + ((f + g) + h)
    var tail := Plus(fg, h);
    PlusAssociates(Plus(bc, d), e, tail);
    PlusAssociates(bc, d, e);                       // ((b + c) + (d + e)) + tail
  }

  lemma ModulusShiftVanishes(b: u8, k: nat)
    requires b < 0x80 && k < 8
    ensures Remainder(Term(0x11b, b, k)) == 0
  {
    if k == 0 {} else if k == 1 {} else if k == 2 {} else if k == 3 {}
    else if k == 4 {} else if k == 5 {} else if k == 6 {} else {}
  }

  lemma ModulusVanishes(b: u8)
    requires b < 0x80
    ensures Remainder(Product(0x11b, b)) == 0
  {
    hide Remainder, Term, Plus;
    ModulusShiftVanishes(b, 0); ModulusShiftVanishes(b, 1); ModulusShiftVanishes(b, 2); ModulusShiftVanishes(b, 3);
    ModulusShiftVanishes(b, 4); ModulusShiftVanishes(b, 5); ModulusShiftVanishes(b, 6); ModulusShiftVanishes(b, 7);
    RemainderIsLinear(Term(0x11b, b, 0), Term(0x11b, b, 1));
    RemainderIsLinear(Term(0x11b, b, 2), Term(0x11b, b, 3));
    RemainderIsLinear(Plus(Term(0x11b, b, 0), Term(0x11b, b, 1)), Plus(Term(0x11b, b, 2), Term(0x11b, b, 3)));
    RemainderIsLinear(Term(0x11b, b, 4), Term(0x11b, b, 5));
    RemainderIsLinear(Term(0x11b, b, 6), Term(0x11b, b, 7));
    RemainderIsLinear(Plus(Term(0x11b, b, 4), Term(0x11b, b, 5)), Plus(Term(0x11b, b, 6), Term(0x11b, b, 7)));
    RemainderIsLinear(Plus(Plus(Term(0x11b, b, 0), Term(0x11b, b, 1)), Plus(Term(0x11b, b, 2), Term(0x11b, b, 3))),
                      Plus(Plus(Term(0x11b, b, 4), Term(0x11b, b, 5)), Plus(Term(0x11b, b, 6), Term(0x11b, b, 7))));
  }

  lemma RemainderOfByte(a: u8)
    ensures Remainder(a as bv16) == a
    ensures Remainder(0) == 0
  {
  }

  /** The modulus that doubling `a` may have to give up. */
  function Carry(a: u8): bv16 {
    if a & 0x80 != 0 then 0x11b else 0
  }

  lemma XtimeIsDoubling(a: u8)
    ensures (a as bv16) << 1 == Plus(Xtime(a) as bv16, Carry(a))
  {
  }

  /** One turn of the multiplication loop. */
  lemma MulStep(a: u8, b: u8)
    ensures Mul(a, b) == Add(if b & 1 != 0 then a else 0, Mul(Xtime(a), b >> 1))
  {
    hide Remainder, Product, Plus, Add, Xtime;
    var half := b >> 1;
    ProductStep(a as bv16, b);
    RemainderIsLinear(Term(a as bv16, b, 0), Product((a as bv16) << 1, half));
    RemainderOfByte(a);
    XtimeIsDoubling(a);
    ProductIsLinear(Xtime(a) as bv16, Carry(a), half);
    RemainderIsLinear(Product(Xtime(a) as bv16, half), Product(Carry(a), half));
    ModulusVanishes(half);
    ProductOfZero(half);
    AddZero(Mul(Xtime(a), half));
  }

  lemma AddAssociates(a: u8, b: u8, c: u8)
    ensures Add(a, Add(b, c)) == Add(a ^ b, c)
  {
  }

  lemma AddZero(a: u8)
    ensures Add(a, 0) == a == Add(0, a)
  {
  }

  lemma ProductOfZero(b: u8)
    ensures Product(0, b) == 0
  {
    forall k: nat | k < 8 ensures Term(0, b, k) == 0 {
      assert Shift(0, k) == 0;
    }
    hide Term;
    PlusSelf(0);
  }

  lemma MulByZero(a: u8)
    ensures Mul(a, 0) == 0
  {
    assert Product(a as bv16, 0) == 0;
  }

  /** Multiplication bit by bit. */
  method Multiply(a: u8, b: u8) returns (result: u8)
    ensures result == Mul(a, b)
  {
    hide Mul, Xtime;
    result := 0;
    var x, y := a, b;
    while y != 0
      invariant Add(result, Mul(x, y)) == Mul(a, b)
      decreases y
    {
      MulStep(x, y);
      if y & 1 != 0 {
        AddAssociates(result, x, Mul(Xtime(x), y >> 1));
        result := result ^ x;
      }
      x := Xtime(x);
      y := y >> 1;
    }
    MulByZero(x);
  }

  // ------------------------------------------------------ algebra of Add and Mul

  lemma AddCommutes(a: u8, b: u8)
    ensures Add(a, b) == Add(b, a)
  {
  }

  lemma AddAssociative(a: u8, b: u8, c: u8)
    ensures Add(Add(a, b), c) == Add(a, Add(b, c))
  {
  }

  lemma AddSelf(a: u8, b: u8)
    ensures Add(a, a) == 0
    ensures Add(Add(a, b), b) == a
  {
  }

  lemma AddPairs(a: u8, b: u8, c: u8, d: u8)
    ensures Add(Add(a, b), Add(c, d)) == Add(Add(a, c), Add(b, d))
  {
    hide Add;
    AddAssociative(a, b, Add(c, d));
    AddAssociative(b, c, d);
    AddCommutes(b, c);
    AddAssociative(c, b, d);
    AddAssociative(a, c, Add(b, d));
  }

  lemma WideSum(a: u8, b: u8)
    ensures Add(a, b) as bv16 == Plus(a as bv16, b as bv16)
  {
  }

  lemma MulDistributes(a: u8, b: u8, c: u8)
    ensures Mul(Add(a, b), c) == Add(Mul(a, c), Mul(b, c))
  {
    hide Add, Plus, Remainder, Product;
    WideSum(a, b);
    ProductIsLinear(a as bv16, b as bv16, c);
    RemainderIsLinear(Product(a as bv16, c), Product(b as bv16, c));
  }

  lemma LowBitsOfSum(b: u8, c: u8, k: nat)
    requires k < 4
    ensures Bit(b ^ c, k) == (Bit(b, k) != Bit(c, k))
  {
    match k {
      case 0 =>
      case 1 =>
      case 2 =>
      case 3 =>
    }
  }

  lemma HighBitsOfSum(b: u8, c: u8, k: nat)
    requires 4 <= k < 8
    ensures Bit(b ^ c, k) == (Bit(b, k) != Bit(c, k))
  {
    match k {
      case 4 =>
      case 5 =>
      case 6 =>
      case 7 =>
    }
  }

  lemma BitOfSum(b: u8, c: u8, k: nat)
    requires k < 8
    ensures Bit(b ^ c, k) == (Bit(b, k) != Bit(c, k))
  {
    hide Bit;
    if k < 4 {
      LowBitsOfSum(b, c, k);
    } else {
      HighBitsOfSum(b, c, k);
    }
  }

  lemma TermSum(w: bv16, b: u8, c: u8, k: nat)
    requires k < 8
    ensures Term(w, b ^ c, k) == Plus(Term(w, b, k), Term(w, c, k))
  {
    hide Bit, Plus, Shift;
    BitOfSum(b, c, k);
    PlusSelf(Shift(w, k));
    PlusSelf(0);
    PlusCommutes(0, Shift(w, k));
  }

  lemma ProductSum(w: bv16, b: u8, c: u8)
    ensures Product(w, b ^ c) == Plus(Product(w, b), Product(w, c))
  {
    TermSum(w, b, c, 0); TermSum(w, b, c, 1); TermSum(w, b, c, 2); TermSum(w, b, c, 3);
    TermSum(w, b, c, 4); TermSum(w, b, c, 5); TermSum(w, b, c, 6); TermSum(w, b, c, 7);
    hide Term, Plus;
    PlusPairs(Term(w, b, 0), Term(w, b, 1),
              Term(w, c, 0), Term(w, c, 1));
    PlusPairs(Term(w, b, 2), Term(w, b, 3),
              Term(w, c, 2), Term(w, c, 3));
    PlusPairs(Plus(Term(w, b, 0), Term(w, b, 1)), Plus(Term(w, b, 2), Term(w, b, 3)),
              Plus(Term(w, c, 0), Term(w, c, 1)), Plus(Term(w, c, 2), Term(w, c, 3)));
    PlusPairs(Term(w, b, 4), Term(w, b, 5),
              Term(w, c, 4), Term(w, c, 5));
    PlusPairs(Term(w, b, 6), Term(w, b, 7),
              Term(w, c, 6), Term(w, c, 7));
    PlusPairs(Plus(Term(w, b, 4), Term(w, b, 5)), Plus(Term(w, b, 6), Term(w, b, 7)),
              Plus(Term(w, c, 4), Term(w, c, 5)), Plus(Term(w, c, 6), Term(w, c, 7)));
    PlusPairs(Plus(Plus(Term(w, b, 0), Term(w, b, 1)), Plus(Term(w, b, 2), Term(w, b, 3))),
              Plus(Plus(Term(w, b, 4), Term(w, b, 5)), Plus(Term(w, b, 6), Term(w, b, 7))),
              Plus(Plus(Term(w, c, 0), Term(w, c, 1)), Plus(Term(w, c, 2), Term(w, c, 3))),
              Plus(Plus(Term(w, c, 4), Term(w, c, 5)), Plus(Term(w, c, 6), Term(w, c, 7))));
  }

  lemma MulSum(x: u8, b: u8, c: u8)
    ensures Add(Mul(x, b), Mul(x, c)) == Mul(x, b ^ c)
  {
    hide Add, Plus, Remainder, Product;
    ProductSum(x as bv16, b, c);
    RemainderIsLinear(Product(x as bv16, b), Product(x as bv16, c));
  }

  lemma MulByOne(x: u8)
    ensures Mul(x, 1) == x
  {
    hide Mul, Add;
    MulStep(x, 1);
    MulByZero(Xtime(x));
    AddZero(x);
  }

  lemma MulDouble(x: u8, c: u8)
    requires c < 0x80
    ensures Mul(Xtime(x), c) == Mul(x, c << 1)
  {
    hide Mul, Add, Xtime;
    MulStep(x, c << 1);
    assert (c << 1) & 1 == 0 && (c << 1) >> 1 == c;
    AddZero(Mul(Xtime(x), c));
  }

  lemma MulByTwo(x: u8)
    ensures Mul(x, 2) == Xtime(x)
  {
    hide Mul, Xtime;
    MulDouble(x, 1);
    MulByOne(Xtime(x));
    assert (1 as u8) << 1 == 2;
  }

  lemma XtimeIsLinear(a: u8, b: u8)
    ensures Xtime(Add(a, b)) == Add(Xtime(a), Xtime(b))
  {
    hide Xtime, Mul, Add;
    MulByTwo(a);
    MulByTwo(b);
    MulByTwo(Add(a, b));
    MulDistributes(a, b, 2);
  }

  /** Multiplying by x before or after is the same. */
  lemma {:induction false} XtimeOfMul(x: u8, c: u8)
    ensures Xtime(Mul(x, c)) == Mul(Xtime(x), c)
    decreases c
  {
    if c == 0 {
      MulByZero(x);
      MulByZero(Xtime(x));
    } else {
      var low: u8, half := if c & 1 != 0 then x else 0, c >> 1;
      assert half < c;
      XtimeOfMul(Xtime(x), half);
      MulStep(x, c);
      MulStep(Xtime(x), c);
      XtimeIsLinear(low, Mul(Xtime(x), half));
      assert Xtime(0) == 0;
      hide Xtime, Mul, Add;
    }
  }

  lemma MulAfterTwo(x: u8, c: u8)
    requires c < 0x80
    ensures Mul(Mul(x, 2), c) == Mul(x, c << 1) == Mul(Mul(x, c), 2)
  {
    hide Xtime, Mul;
    MulByTwo(x);
    MulDouble(x, c);
    MulByTwo(Mul(x, c));
    XtimeOfMul(x, c);
  }

  lemma MulAfterThree(x: u8, c: u8)
    requires c < 0x80
    ensures Mul(Mul(x, 3), c) == Mul(x, c ^ (c << 1)) == Mul(Mul(x, c), 3)
  {
    hide Add, Mul;
    MulSum(x, 1, 2);
    assert (1 as u8) ^ 2 == 3;
    MulByOne(x);
    MulDistributes(x, Mul(x, 2), c);
    MulAfterTwo(x, c);
    MulSum(x, c, c << 1);
    MulSum(Mul(x, c), 1, 2);
    MulByOne(Mul(x, c));
  }
}
