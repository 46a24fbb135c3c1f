/**
 Yaz0 expansion.

 A Yaz0 stream is a header followed by codes; every eight codes are preceded by a
 byte of flags, high bit first.  A set flag announces a literal byte, a clear one a
 reference back into the output.  `Stream` states that format once, as a relation
 between bytes and tokens; `Expand` states what tokens mean, a back reference being
 the periodic continuation of the bytes it points at.  The decoder is then proved to
 accept exactly the streams of well formed token lists and to write their expansion.
 */
module Yaz0 {
  import opened Common

  const HEADER_SIZE := 16
  const U32 := 0x1_0000_0000

  // The largest declared size for which the decoder's 32-bit bound check is exact.
  const MAX_DECLARED := U32 - 273

  datatype Token =
    | Literal(value: byte)
    | Copy(distance: nat, count: nat)

  // ---------------------------------------------------------------- meaning

  /** What a token may be when `written` bytes are already out. */
  predicate Legal(t: Token, written: nat) {
    t.Copy? ==> 1 <= t.distance <= 4096 && t.distance <= written && 3 <= t.count <= 273
  }

  function Width(t: Token): nat {
    if t.Literal? then 1 else t.count
  }

  predicate AllLegal(ts: seq<Token>, written: nat) {
    ts == [] || (Legal(ts[0], written) && AllLegal(ts[1..], written + Width(ts[0])))
  }

  /** The byte `k` places into the endless repetition of `pattern`. */
  function Repeating(pattern: seq<byte>, k: nat): byte
    requires pattern != []
  {
    if k < |pattern| then pattern[k] else Repeating(pattern, k - |pattern|)
  }

  /** `n` bytes that repeat `pattern` from its start. */
  function Periodic(pattern: seq<byte>, n: nat): seq<byte>
    requires pattern != []
  {
    seq(n, k requires 0 <= k < n => Repeating(pattern, k))
  }

  function Append(output: seq<byte>, t: Token): seq<byte>
    requires Legal(t, |output|)
  {
    match t
    case Literal(b) => output + [b]
    case Copy(d, n) => output + Periodic(output[|output| - d..], n)
  }

  function Expand(ts: seq<Token>, output: seq<byte>): seq<byte>
    requires AllLegal(ts, |output|)
  {
    if ts == [] then output else Expand(ts[1..], Append(output, ts[0]))
  }

  // ----------------------------------------------------------------- format

  predicate Flag(flags: byte, mask: bv8) {
    flags as bv8 & mask != 0
  }

  /** Two bytes, high first. */
  function Reference(high: byte, low: byte): (r: nat)
    ensures r < 0x1_0000
  {
    var wide: int := high; wide * 256 + low
  }

  /** The bytes of one code. */
  function Code(t: Token): seq<byte>
    requires t.Copy? ==> 1 <= t.distance <= 4096 && 3 <= t.count <= 273
  {
    match t
    case Literal(b) => [b]
    case Copy(d, n) =>
      if n < 18 then [(n - 2) * 16 + (d - 1) / 256, (d - 1) % 256]
      else [(d - 1) / 256, (d - 1) % 256, n - 18]
  }

  /** `bytes` are the codes of `ts`, read with `mask` selecting the next bit of `flags`
      (no bit left when it is 0). Flag bits after the last code are free. */
  ghost predicate Stream(bytes: seq<byte>, mask: bv8, flags: byte, ts: seq<Token>, written: nat)
    requires AllLegal(ts, written)
    decreases |ts|, 1
  {
    if ts == [] then bytes == []
    else if mask == 0 then bytes != [] && StreamCode(bytes[1..], 128, bytes[0], ts, written)
    else StreamCode(bytes, mask, flags, ts, written)
  }

  ghost predicate StreamCode(bytes: seq<byte>, mask: bv8, flags: byte, ts: seq<Token>, written: nat)
    requires mask != 0 && ts != [] && AllLegal(ts, written)
    decreases |ts|, 0
  {
    && Flag(flags, mask) == ts[0].Literal?
    && Code(ts[0]) <= bytes
    && Stream(bytes[|Code(ts[0])|..], mask >> 1, flags, ts[1..], written + Width(ts[0]))
  }

  // ---------------------------------------------- the decoder as a function

  datatype Position = Position(read: nat, mask: bv8, flags: byte)

  /** Reads the next flag byte when the last one is used up. */
  function NextGroup(src: seq<byte>, p: Position): Option<Position> {
    if p.mask != 0 then Some(p)
    else if p.read < |src| then Some(Position(p.read + 1, 128, src[p.read]))
    else None
  }

  /** The back reference at `read`, its run length in the third byte when the first nibble is 0;
      with it the position after it. */
  function CopyAt(src: seq<byte>, read: nat): (r: Option<(Token, nat)>)
    ensures r.Some? ==> read < r.value.1 <= |src| && r.value.0.Copy?
    ensures r.Some? ==> 1 <= r.value.0.distance <= 4096 && 3 <= r.value.0.count <= 273
  {
    if read + 2 > |src| then None
    else
      var reference := Reference(src[read], src[read + 1]);
      var distance: nat := reference % 4096 + 1;
      if reference / 4096 != 0 then Some((Copy(distance, reference / 4096 + 2), read + 2))
      else if read + 2 < |src| then
        var extra: int := src[read + 2];
        Some((Copy(distance, extra + 18), read + 3))
      else None
  }

  /** One code: the token it denotes and the position after it. */
  function NextToken(src: seq<byte>, p: Position): (r: Option<(Token, Position)>)
    requires p.mask != 0
    ensures r.Some? ==> p.read < r.value.1.read <= |src|
  {
    if Flag(p.flags, p.mask) then
      if p.read < |src| then Some((Literal(src[p.read]), Position(p.read + 1, p.mask >> 1, p.flags)))
      else None
    else
      match CopyAt(src, p.read)
      case None => None
      case Some((t, next)) => Some((t, Position(next, p.mask >> 1, p.flags)))
  }

  function DecodeFrom(src: seq<byte>, p: Position, output: seq<byte>, declared: nat): (r: Option<seq<byte>>)
    ensures r.Some? && |output| <= declared ==> |r.value| == declared && output <= r.value
    decreases declared - |output|
  {
    if |output| >= declared then Some(output)
    else
      match NextGroup(src, p)
      case None => None
      case Some(g) =>
        match NextToken(src, g)
        case None => None
        case Some((t, after)) =>
          if Legal(t, |output|) && |output| + Width(t) <= declared
          then DecodeFrom(src, after, Append(output, t), declared)
          else None
  }

  /** The size a stream declares, 0 when it is not one. */
  function ExpandedSize(data: seq<byte>): (n: nat)
    ensures n < U32
    ensures n != 0 ==> |data| >= 8 && data[..4] == MAGIC
  {
    if |data| < 8 || data[..4] != MAGIC then 0
    else Reference(data[4], data[5]) * 0x1_0000 + Reference(data[6], data[7])
  }

  const MAGIC: seq<byte> := [0x59, 0x61, 0x7A, 0x30]

  function Decode(src: seq<byte>): Option<seq<byte>> {
    if ExpandedSize(src) == 0 || |src| < HEADER_SIZE then None
    else DecodeFrom(src, Position(HEADER_SIZE, 0, 0), [], ExpandedSize(src))
  }

  // ------------------------------------------------------------- the method

  /** The decoder's bound check, in 32-bit unsigned arithmetic. */
  predicate PastEnd32(written: nat, count: nat, declared: nat) {
    (written + count) % U32 > declared
  }

  /** Why the declared size is bounded: the decoder adds in 32 bits, and the sum it
      compares is the true one for every reachable operand exactly up to MAX_DECLARED. */
  lemma BoundCheckIsExact(declared: nat)
    requires 0 < declared < U32
    ensures declared <= MAX_DECLARED <==>
            forall written: nat, count: nat | written < declared && 3 <= count <= 273 ::
              PastEnd32(written, count, declared) == (written + count > declared)
  {
    if declared > MAX_DECLARED {
      var written: nat, count: nat := declared - 1, 273;
      assert (written + count) % U32 == written + count - U32;
      assert PastEnd32(written, count, declared) != (written + count > declared);
    }
  }

  lemma BoundCheck(written: nat, count: nat, declared: nat)
    requires written < declared <= MAX_DECLARED && count <= 273
    ensures PastEnd32(written, count, declared) == (written + count > declared)
  {
  }

  lemma PastEndIsPast(written: nat, count: nat, declared: nat)
    requires PastEnd32(written, count, declared)
    ensures written + count > declared
  {
  }

  /** What one turn of the decoder's loop amounts to: a new group of flags, a literal or a back reference. */
  lemma DecodeGroup(src: seq<byte>, p: Position, output: seq<byte>, declared: nat)
    requires |output| < declared && p.mask == 0
    ensures DecodeFrom(src, p, output, declared) ==
            if p.read < |src| then DecodeFrom(src, Position(p.read + 1, 128, src[p.read]), output, declared) else None
  {
    hide NextToken, Append, Legal;
  }

  lemma DecodeLiteral(src: seq<byte>, p: Position, output: seq<byte>, declared: nat)
    requires |output| < declared && p.mask != 0 && Flag(p.flags, p.mask)
    ensures DecodeFrom(src, p, output, declared) ==
            if p.read < |src|
              then DecodeFrom(src, Position(p.read + 1, p.mask >> 1, p.flags), output + [src[p.read]], declared)
            else None
  {
    hide Flag, CopyAt;
  }

  lemma DecodeCopy(src: seq<byte>, p: Position, output: seq<byte>, declared: nat)
    requires |output| < declared && p.mask != 0 && !Flag(p.flags, p.mask)
    ensures DecodeFrom(src, p, output, declared) ==
            match CopyAt(src, p.read)
            case None => None
            case Some((t, next)) =>
              if t.distance <= |output| && |output| + t.count <= declared
              then DecodeFrom(src, Position(next, p.mask >> 1, p.flags), Append(output, t), declared)
              else None
  {
    hide Flag, CopyAt, Append;
  }

  /** The decoder comes to a back reference past the end that its check, wrapping, does not refuse: from there
      on it does not keep to the declared size. */
  predicate OverrunsFrom(src: seq<byte>, p: Position, output: seq<byte>, declared: nat)
    decreases declared - |output|
  {
    if |output| >= declared then false
    else
      match NextGroup(src, p)
      case None => false
      case Some(g) =>
        match NextToken(src, g)
        case None => false
        case Some((t, after)) =>
          if !Legal(t, |output|) then false
          else if |output| + Width(t) <= declared then OverrunsFrom(src, after, Append(output, t), declared)
          else !PastEnd32(|output|, Width(t), declared)
  }

  predicate Overruns(src: seq<byte>) {
    ExpandedSize(src) != 0 && |src| >= HEADER_SIZE
    && OverrunsFrom(src, Position(HEADER_SIZE, 0, 0), [], ExpandedSize(src))
  }

  lemma OverrunGroup(src: seq<byte>, p: Position, output: seq<byte>, declared: nat)
    requires |output| < declared && p.mask == 0
    ensures OverrunsFrom(src, p, output, declared) ==
            (p.read < |src| && OverrunsFrom(src, Position(p.read + 1, 128, src[p.read]), output, declared))
  {
    hide NextToken, Append, Legal, PastEnd32;
  }

  lemma OverrunLiteral(src: seq<byte>, p: Position, output: seq<byte>, declared: nat)
    requires |output| < declared && p.mask != 0 && Flag(p.flags, p.mask)
    ensures OverrunsFrom(src, p, output, declared) ==
            (p.read < |src|
              && OverrunsFrom(src, Position(p.read + 1, p.mask >> 1, p.flags), output + [src[p.read]], declared))
  {
    hide Flag, CopyAt, PastEnd32;
  }

  lemma OverrunCopy(src: seq<byte>, p: Position, output: seq<byte>, declared: nat)
    requires |output| < declared && p.mask != 0 && !Flag(p.flags, p.mask)
    ensures OverrunsFrom(src, p, output, declared) ==
            match CopyAt(src, p.read)
            case None => false
            case Some((t, next)) =>
              t.distance <= |output|
              && if |output| + t.count <= declared
                 then OverrunsFrom(src, Position(next, p.mask >> 1, p.flags), Append(output, t), declared)
                 else !PastEnd32(|output|, t.count, declared)
  {
    hide Flag, CopyAt, Append, PastEnd32;
  }

  /** That takes a declared size within 273 bytes of 2^32. */
  lemma {:induction false} OverrunsNearWrap(src: seq<byte>, p: Position, output: seq<byte>, declared: nat)
    requires declared <= MAX_DECLARED
    ensures !OverrunsFrom(src, p, output, declared)
    decreases declared - |output|
  {
    if |output| < declared && NextGroup(src, p).Some? && NextToken(src, NextGroup(src, p).value).Some? {
      var (t, after) := NextToken(src, NextGroup(src, p).value).value;
      hide NextToken, NextGroup, Periodic;
      if Legal(t, |output|) && |output| + Width(t) <= declared {
        AppendWidth(output, t);
        OverrunsNearWrap(src, after, Append(output, t), declared);
      } else if Legal(t, |output|) {
        BoundCheck(|output|, Width(t), declared);
      }
    }
  }

  /** What becomes of a position: the output, and whether it is overrun. */
  function Fate(src: seq<byte>, p: Position, output: seq<byte>, declared: nat): (Option<seq<byte>>, bool) {
    (DecodeFrom(src, p, output, declared), OverrunsFrom(src, p, output, declared))
  }

  const REFUSED: (Option<seq<byte>>, bool) := (None, false)

  lemma GroupStep(src: seq<byte>, p: Position, output: seq<byte>, declared: nat)
    requires |output| < declared && p.mask == 0
    ensures Fate(src, p, output, declared) ==
            if p.read < |src| then Fate(src, Position(p.read + 1, 128, src[p.read]), output, declared) else REFUSED
  {
    DecodeGroup(src, p, output, declared);
    OverrunGroup(src, p, output, declared);
    hide DecodeFrom, OverrunsFrom;
  }

  lemma LiteralStep(src: seq<byte>, p: Position, output: seq<byte>, declared: nat)
    requires |output| < declared && p.mask != 0 && Flag(p.flags, p.mask)
    ensures Fate(src, p, output, declared) ==
            if p.read < |src|
              then Fate(src, Position(p.read + 1, p.mask >> 1, p.flags), output + [src[p.read]], declared)
            else REFUSED
  {
    DecodeLiteral(src, p, output, declared);
    OverrunLiteral(src, p, output, declared);
    hide DecodeFrom, OverrunsFrom, Flag, CopyAt;
  }

  lemma CopyStep(src: seq<byte>, p: Position, output: seq<byte>, declared: nat)
    requires |output| < declared && p.mask != 0 && !Flag(p.flags, p.mask)
    ensures Fate(src, p, output, declared) ==
            if CopyAt(src, p.read).None? then REFUSED
            else
              var (t, next) := CopyAt(src, p.read).value;
              if t.distance > |output| then REFUSED
              else if |output| + t.count > declared then (None, !PastEnd32(|output|, t.count, declared))
              else Fate(src, Position(next, p.mask >> 1, p.flags), Append(output, t), declared)
  {
    DecodeCopy(src, p, output, declared);
    OverrunCopy(src, p, output, declared);
    hide DecodeFrom, OverrunsFrom, Flag, CopyAt, PastEnd32, Periodic;
  }

  lemma FateDone(src: seq<byte>, p: Position, output: seq<byte>, declared: nat)
    requires |output| == declared
    ensures Fate(src, p, output, declared) == (Some(output), false)
  {
  }

  lemma FateOf(src: seq<byte>)
    requires ExpandedSize(src) != 0 && |src| >= HEADER_SIZE
    ensures Fate(src, Position(HEADER_SIZE, 0, 0), [], ExpandedSize(src)) == (Decode(src), Overruns(src))
  {
  }

  /** Expands `src` into `dst`: all or nothing, never outside the declared size. None stands for the rest of
      a run that overruns it. */
  method Yaz0Decode(src: seq<byte>, dst: array?<byte>) returns (result: Option<nat>)
    modifies dst
    ensures result.None? <==> dst != null && ExpandedSize(src) <= dst.Length && Overruns(src)
    ensures ExpandedSize(src) <= MAX_DECLARED ==> result.Some?
    ensures result.Some? ==>
              && result.value in {0, ExpandedSize(src)}
              && (result.value != 0 <==> dst != null && ExpandedSize(src) <= dst.Length && Decode(src).Some?)
    ensures result.Some? && result.value != 0 ==>
              dst != null && result.value <= dst.Length && Decode(src) == Some(dst[..result.value])
    ensures result.Some? && dst != null ==> forall i | ExpandedSize(src) <= i < dst.Length :: dst[i] == old(dst[i])
  {
    hide Decode, Overruns, Fate, ExpandedSize, Periodic, PastEnd32, Flag, CopyAt, Append;
    NoOverrun(src);
    var declared := ExpandedSize(src);
    if declared == 0 || dst == null || dst.Length < declared || |src| < HEADER_SIZE {
      NotOne(src);
      return Some(0);
    }
    FateOf(src);

    var read: nat, written: nat := HEADER_SIZE, 0;
    var mask: bv8, flags: byte := 0, 0;
    ghost var output: seq<byte> := [];
    while written < declared
      invariant written <= declared && dst[..written] == output
      invariant Fate(src, Position(read, mask, flags), output, declared) == (Decode(src), Overruns(src))
      invariant forall i | declared <= i < dst.Length :: dst[i] == old(dst[i])
      decreases declared - written
    {
      if mask == 0 {
        GroupStep(src, Position(read, mask, flags), output, declared);
        if read >= |src| {
          return Some(0);
        }
        flags, read := src[read], read + 1;
        mask := 128;
      }

      if Flag(flags, mask) {
        LiteralStep(src, Position(read, mask, flags), output, declared);
        if read >= |src| {
          return Some(0);
        }
        dst[written] := src[read];
        output := output + [src[read]];
        written, read := written + 1, read + 1;
      } else {
        CopyStep(src, Position(read, mask, flags), output, declared);
        var code := CopyAt(src, read);
        if code.None? {
          return Some(0);
        }
        var (Copy(distance, count), next) := code.value;
        if distance > written {
          return Some(0);
        }
        if PastEnd32(written, count, declared) {
          PastEndIsPast(written, count, declared);
          return Some(0);
        }
        if written + count > declared {
          return None;
        }
        CopyRun(dst, written, distance, count);
        output := Append(output, Copy(distance, count));
        written, read := written + count, next;
      }
      mask := mask >> 1;
    }
    FateDone(src, Position(read, mask, flags), output, declared);
    result := Some(written);
  }

  lemma NoOverrun(src: seq<byte>)
    ensures ExpandedSize(src) <= MAX_DECLARED ==> !Overruns(src)
  {
    if ExpandedSize(src) <= MAX_DECLARED {
      OverrunsNearWrap(src, Position(HEADER_SIZE, 0, 0), [], ExpandedSize(src));
    }
  }

  lemma NotOne(src: seq<byte>)
    ensures ExpandedSize(src) == 0 || |src| < HEADER_SIZE ==> Decode(src).None? && !Overruns(src)
  {
  }

  /** The byte at a time copy produces the periodic continuation, overlapping or not. */
  method CopyRun(dst: array<byte>, start: nat, distance: nat, count: nat)
    requires 1 <= distance <= start && start + count <= dst.Length
    modifies dst
    ensures dst[..start + count] == old(dst[..start]) + Periodic(old(dst[..start])[start - distance..], count)
    ensures Legal(Copy(distance, count), start) ==>
              dst[..start + count] == Append(old(dst[..start]), Copy(distance, count))
    ensures forall i | start + count <= i < dst.Length :: dst[i] == old(dst[i])
  {
    ghost var output := dst[..start];
    ghost var pattern := output[start - distance..];
    var from := start - distance;
    for index := 0 to count
      invariant from == start - distance + index
      invariant dst[..start] == output
      invariant forall k | 0 <= k < index :: dst[start + k] == Repeating(pattern, k)
      invariant forall i | start + count <= i < dst.Length :: dst[i] == old(dst[i])
    {
      assert dst[from] == Repeating(pattern, index) by {
        if index < distance {
          assert dst[from] == dst[..start][from];
        } else {
          assert from == start + (index - distance);
        }
      }
      dst[start + index] := dst[from];
      from := from + 1;
    }
    assert dst[..start + count] == output + Periodic(pattern, count);
  }

  // --------------------------------------------------------------- theorems

  /** Reading the code of a token gives that token back. */
  lemma CodeRoundTrip(src: seq<byte>, p: Position, t: Token)
    requires p.mask != 0 && p.read <= |src|
    requires t.Copy? ==> 1 <= t.distance <= 4096 && 3 <= t.count <= 273
    requires Flag(p.flags, p.mask) == t.Literal?
    requires Code(t) <= src[p.read..]
    ensures NextToken(src, p) == Some((t, Position(p.read + |Code(t)|, p.mask >> 1, p.flags)))
  {
    hide Flag;
    assert src[p.read] == src[p.read..][0] == Code(t)[0];
    if t.Copy? {
      var d := t.distance - 1;
      assert src[p.read + 1] == src[p.read..][1] == Code(t)[1];
      assert d == d / 256 * 256 + d % 256;
      if t.count < 18 {
        assert Reference(src[p.read], src[p.read + 1]) == (t.count - 2) * 4096 + d;
      } else {
        assert src[p.read + 2] == src[p.read..][2] == Code(t)[2];
        assert Reference(src[p.read], src[p.read + 1]) == d;
      }
    }
  }

  /** Whatever the decoder reads as a token is the code of that token. */
  lemma TokenIsCode(src: seq<byte>, p: Position)
    requires p.mask != 0 && p.read <= |src|
    requires NextToken(src, p).Some?
    ensures var (t, after) := NextToken(src, p).value;
            && (t.Copy? ==> 1 <= t.distance <= 4096 && 3 <= t.count <= 273)
            && Flag(p.flags, p.mask) == t.Literal?
            && after == Position(p.read + |Code(t)|, p.mask >> 1, p.flags)
            && Code(t) == src[p.read..after.read]
  {
    hide Flag, CopyAt, Code;
    if Flag(p.flags, p.mask) {
      LiteralIsCode(src, p.read);
    } else {
      CopyIsCode(src, p.read);
    }
  }

  lemma LiteralIsCode(src: seq<byte>, read: nat)
    requires read < |src|
    ensures Code(Literal(src[read])) == src[read..read + 1]
  {
  }

  lemma CopyIsCode(src: seq<byte>, read: nat)
    requires CopyAt(src, read).Some?
    ensures var (t, next) := CopyAt(src, read).value; Code(t) == src[read..next] && next == read + |Code(t)|
  {
    var (t, next) := CopyAt(src, read).value;
    var reference := Reference(src[read], src[read + 1]);
    assert reference == t.distance - 1 + 4096 * (reference / 4096);
    if reference / 4096 != 0 {
    } else {
    }
  }

  /** A code in front of a stream makes a stream. */
  lemma PrependCode(t: Token, bytes: seq<byte>, mask: bv8, flags: byte, ts: seq<Token>, written: nat)
    requires mask != 0 && Legal(t, written) && AllLegal(ts, written + Width(t))
    requires Flag(flags, mask) == t.Literal?
    requires Stream(bytes, mask >> 1, flags, ts, written + Width(t))
    ensures AllLegal([t] + ts, written)
    ensures Stream(Code(t) + bytes, mask, flags, [t] + ts, written)
  {
    hide Flag, Code;
    var all, coded := [t] + ts, Code(t) + bytes;
    assert all[0] == t && all[1..] == ts;
    assert coded[|Code(t)|..] == bytes;
  }

  /** The first token of a stream is the one the decoder reads next. */
  lemma StreamHead(src: seq<byte>, p: Position, end: nat, ts: seq<Token>, written: nat) returns (after: Position)
    requires p.read <= end <= |src| && ts != [] && AllLegal(ts, written)
    requires Stream(src[p.read..end], p.mask, p.flags, ts, written)
    ensures NextGroup(src, p).Some? && NextToken(src, NextGroup(src, p).value) == Some((ts[0], after))
    ensures after.read <= end
    ensures Stream(src[after.read..end], after.mask, after.flags, ts[1..], written + Width(ts[0]))
  {
    hide Flag, CopyAt, Code, NextToken, StreamCode;
    StreamGroup(src, p, end, ts, written);
    after := StreamToken(src, NextGroup(src, p).value, end, ts, written);
  }

  lemma StreamGroup(src: seq<byte>, p: Position, end: nat, ts: seq<Token>, written: nat)
    requires p.read <= end <= |src| && ts != [] && AllLegal(ts, written)
    requires Stream(src[p.read..end], p.mask, p.flags, ts, written)
    ensures NextGroup(src, p).Some?
    ensures var g := NextGroup(src, p).value;
            g.mask != 0 && g.read <= end && StreamCode(src[g.read..end], g.mask, g.flags, ts, written)
  {
    hide StreamCode, AllLegal;
    if p.mask == 0 {
      assert src[p.read + 1..end] == src[p.read..end][1..];
    } else {
    }
  }

  lemma StreamToken(src: seq<byte>, g: Position, end: nat, ts: seq<Token>, written: nat) returns (after: Position)
    requires g.read <= end <= |src| && ts != [] && g.mask != 0 && AllLegal(ts, written)
    requires StreamCode(src[g.read..end], g.mask, g.flags, ts, written)
    ensures NextToken(src, g) == Some((ts[0], after)) && after.read <= end
    ensures Stream(src[after.read..end], after.mask, after.flags, ts[1..], written + Width(ts[0]))
  {
    hide Flag, CopyAt, Code, NextToken, Stream;
    assert Code(ts[0]) <= src[g.read..] by {
      assert src[g.read..end] <= src[g.read..];
    }
    CodeRoundTrip(src, g, ts[0]);
    after := Position(g.read + |Code(ts[0])|, g.mask >> 1, g.flags);
    assert src[after.read..end] == src[g.read..end][|Code(ts[0])|..];
  }

  /** The token the decoder reads is the first of a stream. */
  lemma StreamCons(src: seq<byte>, p: Position, end: nat, t: Token, after: Position, rest: seq<Token>, written: nat)
    requires NextGroup(src, p).Some? && NextToken(src, NextGroup(src, p).value) == Some((t, after))
    requires after.read <= end <= |src| && Legal(t, written) && AllLegal(rest, written + Width(t))
    requires Stream(src[after.read..end], after.mask, after.flags, rest, written + Width(t))
    ensures AllLegal([t] + rest, written)
    ensures Stream(src[p.read..end], p.mask, p.flags, [t] + rest, written)
  {
    hide Flag, CopyAt, Code;
    var g := NextGroup(src, p).value;
    TokenIsCode(src, g);
    PrependCode(t, src[after.read..end], g.mask, g.flags, rest, written);
    assert src[g.read..end] == Code(t) + src[after.read..end];
    assert p.mask == 0 ==> src[p.read..end][1..] == src[g.read..end];
  }

  /** Completeness: a stream of legal tokens decodes to their expansion, whatever follows it. */
  lemma {:induction false} StreamDecodes(src: seq<byte>, p: Position, end: nat, ts: seq<Token>, output: seq<byte>)
    requires p.read <= end <= |src|
    requires AllLegal(ts, |output|)
    requires Stream(src[p.read..end], p.mask, p.flags, ts, |output|)
    ensures DecodeFrom(src, p, output, |Expand(ts, output)|) == Some(Expand(ts, output))
    decreases |ts|
  {
    hide Stream, NextGroup, NextToken;
    ExpandGrows(ts, output);
    if ts != [] {
      var after := StreamHead(src, p, end, ts, |output|);
      AppendWidth(output, ts[0]);
      ExpandGrows(ts[1..], Append(output, ts[0]));
      StreamDecodes(src, after, end, ts[1..], Append(output, ts[0]));
    }
  }

  lemma ExpandCons(t: Token, rest: seq<Token>, output: seq<byte>)
    requires AllLegal([t] + rest, |output|)
    ensures Legal(t, |output|) && AllLegal(rest, |Append(output, t)|)
    ensures Expand([t] + rest, output) == Expand(rest, Append(output, t))
  {
    AppendWidth(output, t);
    assert ([t] + rest)[1..] == rest;
  }

  /** An accepted stream has a first token, and decoding goes on behind it. */
  lemma FirstDecoded(src: seq<byte>, p: Position, output: seq<byte>, declared: nat)
    returns (t: Token, after: Position)
    requires |output| < declared && DecodeFrom(src, p, output, declared).Some?
    ensures NextGroup(src, p).Some? && NextToken(src, NextGroup(src, p).value) == Some((t, after))
    ensures p.read < after.read <= |src| && Legal(t, |output|)
    ensures |output| < |Append(output, t)| <= declared && |Append(output, t)| == |output| + Width(t)
    ensures DecodeFrom(src, p, output, declared) == DecodeFrom(src, after, Append(output, t), declared)
  {
    hide Flag, CopyAt, Periodic;
    var next := NextToken(src, NextGroup(src, p).value).value;
    t, after := next.0, next.1;
    AppendWidth(output, t);
  }

  lemma EndsStream(src: seq<byte>, p: Position, output: seq<byte>, declared: nat)
    requires p.read <= |src| && |output| == declared
    ensures AllLegal([], |output|) && Stream(src[p.read..p.read], p.mask, p.flags, [], |output|)
    ensures DecodeFrom(src, p, output, declared) == Some(Expand([], output))
  {
    hide NextToken, NextGroup;
  }

  /** Soundness: whatever the decoder accepts is a stream of legal tokens expanding to its output. */
  lemma {:induction false} DecodedIsStream(src: seq<byte>, p: Position, output: seq<byte>, declared: nat)
    returns (ts: seq<Token>, end: nat)
    requires p.read <= |src| && |output| <= declared
    requires DecodeFrom(src, p, output, declared).Some?
    ensures p.read <= end <= |src| && AllLegal(ts, |output|)
    ensures Stream(src[p.read..end], p.mask, p.flags, ts, |output|)
    ensures DecodeFrom(src, p, output, declared) == Some(Expand(ts, output))
    decreases declared - |output|
  {
    hide Stream, NextToken, NextGroup, Append, DecodeFrom, AllLegal, Expand;
    if |output| >= declared {
      ts, end := [], p.read;
      EndsStream(src, p, output, declared);
    } else {
      var t, after := FirstDecoded(src, p, output, declared);
      var rest;
      rest, end := DecodedIsStream(src, after, Append(output, t), declared);
      ts := [t] + rest;
      StreamCons(src, p, end, t, after, rest, |output|);
      ExpandCons(t, rest, output);
    }
  }

  lemma AppendWidth(output: seq<byte>, t: Token)
    requires Legal(t, |output|)
    ensures |Append(output, t)| == |output| + Width(t)
  {
  }

  lemma {:induction false} ExpandGrows(ts: seq<Token>, output: seq<byte>)
    requires AllLegal(ts, |output|)
    ensures |output| + |ts| <= |Expand(ts, output)|
    ensures output <= Expand(ts, output)
  {
    if ts != [] {
      AppendWidth(output, ts[0]);
      ExpandGrows(ts[1..], Append(output, ts[0]));
    }
  }

  /** The decoder accepts `src` with result `output` exactly when the bytes after its header
      start with a stream of legal tokens that expands to `output`, of the declared length. */
  ghost predicate IsExpansion(src: seq<byte>, output: seq<byte>) {
    && ExpandedSize(src) != 0 && |src| >= HEADER_SIZE
    && |output| == ExpandedSize(src)
    && exists ts: seq<Token>, end: nat ::
         Presents(src, end, ts) && Expand(ts, []) == output
  }

  ghost predicate Presents(src: seq<byte>, end: nat, ts: seq<Token>) {
    && HEADER_SIZE <= end <= |src|
    && AllLegal(ts, 0)
    && Stream(src[HEADER_SIZE..end], 0, 0, ts, 0)
  }

  lemma DecodeIsExpansion(src: seq<byte>, output: seq<byte>)
    ensures Decode(src) == Some(output) <==> IsExpansion(src, output)
  {
    var start := Position(HEADER_SIZE, 0, 0);
    if Decode(src) == Some(output) {
      var ts, end := DecodedIsStream(src, start, [], ExpandedSize(src));
      assert Presents(src, end, ts);
    }
    if IsExpansion(src, output) {
      var ts, end :| Presents(src, end, ts) && Expand(ts, []) == output;
      StreamDecodes(src, start, end, ts, []);
    }
  }

  // -------------------------------------------------- a reference compressor

  function BitOf(t: Token, mask: bv8): bv8 {
    if t.Literal? then mask else 0
  }

  /** The flags of at most eight tokens, the first at bit `mask`. */
  function Flags(ts: seq<Token>, mask: bv8): bv8 {
    if ts == [] then 0 else BitOf(ts[0], mask) | Flags(ts[1..], mask >> 1)
  }

  function FlagByte(flags: bv8): (b: byte)
    ensures b as bv8 == flags
  {
    flags as int
  }

  function Codes(ts: seq<Token>, written: nat): seq<byte>
    requires AllLegal(ts, written)
  {
    if ts == [] then [] else Code(ts[0]) + Codes(ts[1..], written + Width(ts[0]))
  }

  function TotalWidth(ts: seq<Token>): nat {
    if ts == [] then 0 else Width(ts[0]) + TotalWidth(ts[1..])
  }

  /** Groups of eight codes, each behind its flag byte. */
  function Encode(ts: seq<Token>, written: nat): seq<byte>
    requires AllLegal(ts, written)
    decreases |ts|
  {
    if ts == [] then []
    else
      var n := if |ts| < 8 then |ts| else 8;
      SplitLegal(ts, n, written);
      [FlagByte(Flags(ts[..n], 128))] + Codes(ts[..n], written) + Encode(ts[n..], written + TotalWidth(ts[..n]))
  }

  lemma {:induction false} SplitLegal(ts: seq<Token>, n: nat, written: nat)
    requires n <= |ts|
    ensures AllLegal(ts, written) <==>
            AllLegal(ts[..n], written) && AllLegal(ts[n..], written + TotalWidth(ts[..n]))
  {
    if n > 0 {
      assert ts[..n][1..] == ts[1..][..n - 1] && ts[1..][n - 1..] == ts[n..];
      SplitLegal(ts[1..], n - 1, written + Width(ts[0]));
    } else {
      assert ts[..0] == [] && ts[0..] == ts;
    }
  }

  /** The codes a group still has room for when its next flag is at `mask`. */
  function Room(mask: bv8): nat {
    match mask
    case 128 => 8 case 64 => 7 case 32 => 6 case 16 => 5
    case 8 => 4 case 4 => 3 case 2 => 2 case 1 => 1 case _ => 0
  }

  predicate OneBit(mask: bv8) {
    mask != 0 && mask & (mask - 1) == 0
  }

  /** The bits from `mask` down. */
  function Below(mask: bv8): bv8
    requires OneBit(mask)
  {
    mask | (mask - 1)
  }

  lemma FlagsAreBelow(ts: seq<Token>, mask: bv8)
    requires mask == 0 || OneBit(mask)
    ensures mask == 0 ==> Flags(ts, mask) == 0
    ensures mask != 0 ==> Flags(ts, mask) & !Below(mask) == 0
    decreases |ts|
  {
    if ts != [] {
      FlagsAreBelow(ts[1..], mask >> 1);
    }
  }

  lemma RoomShrinks(mask: bv8)
    requires OneBit(mask)
    ensures Room(mask) == 1 + Room(mask >> 1)
    ensures mask >> 1 == 0 || OneBit(mask >> 1)
  {
    assert mask in {1, 2, 4, 8, 16, 32, 64, 128};
  }

  lemma FlagOfUnion(flags: bv8, upper: bv8, bit: bv8, lower: bv8, mask: bv8)
    requires OneBit(mask) && upper & Below(mask) == 0
    requires bit == 0 || bit == mask
    requires if mask == 1 then lower == 0 else lower & !Below(mask >> 1) == 0
    requires flags == upper | (bit | lower)
    ensures (flags & mask != 0) == (bit == mask)
    ensures mask != 1 ==> (upper | bit) & Below(mask >> 1) == 0
    ensures flags == (upper | bit) | lower
  {
  }

  /** `flags` announces the kinds of `ts`, the first at `mask`. */
  predicate Announces(flags: byte, mask: bv8, ts: seq<Token>) {
    ts == [] || (mask != 0 && Flag(flags, mask) == ts[0].Literal? && Announces(flags, mask >> 1, ts[1..]))
  }

  /** `flags` holds `upper` above `mask` and the flags of `ts` from `mask` down. */
  ghost predicate Holds(flags: bv8, upper: bv8, mask: bv8, ts: seq<Token>) {
    && (mask == 0 || (OneBit(mask) && upper & Below(mask) == 0))
    && flags == upper | Flags(ts, mask)
  }

  lemma HoldsTail(flags: bv8, upper: bv8, mask: bv8, ts: seq<Token>)
    requires ts != [] && mask != 0 && Holds(flags, upper, mask, ts)
    ensures (flags & mask != 0) == ts[0].Literal?
    ensures Holds(flags, upper | BitOf(ts[0], mask), mask >> 1, ts[1..])
  {
    FlagsAreBelow(ts[1..], mask >> 1);
    FlagOfUnion(flags, upper, BitOf(ts[0], mask), Flags(ts[1..], mask >> 1), mask);
  }

  /** The flag byte of a group announces it. */
  lemma {:induction false} FlagsAnnounce(flags: byte, upper: bv8, mask: bv8, ts: seq<Token>)
    requires Holds(flags as bv8, upper, mask, ts) && |ts| <= Room(mask)
    ensures Announces(flags, mask, ts)
    decreases |ts|
  {
    if ts != [] {
      assert mask != 0 && OneBit(mask);
      RoomShrinks(mask);
      hide Holds, Room;
      HoldsTail(flags as bv8, upper, mask, ts);
      FlagsAnnounce(flags, upper | BitOf(ts[0], mask), mask >> 1, ts[1..]);
    }
  }

  /** The codes of one group, the rest of the stream behind them, are a stream of all the tokens. */
  lemma {:induction false} GroupIsStream(ts: seq<Token>, rest: seq<Token>, tail: seq<byte>,
                                         mask: bv8, flags: byte, written: nat)
    requires Announces(flags, mask, ts)
    requires mask == 0 || OneBit(mask)
    requires rest != [] ==> |ts| == Room(mask)
    requires AllLegal(ts, written) && AllLegal(rest, written + TotalWidth(ts))
    requires Stream(tail, 0, 0, rest, written + TotalWidth(ts))
    ensures AllLegal(ts + rest, written)
    ensures Stream(Codes(ts, written) + tail, mask, flags, ts + rest, written)
    decreases |ts|
  {
    hide Flag, Code, StreamCode;
    if ts == [] {
      assert ts + rest == rest && Codes(ts, written) + tail == tail;
      assert rest != [] ==> mask == 0;
    } else {
      hide Stream, OneBit, Room;
      var t, later, written' := ts[0], ts[1..], written + Width(ts[0]);
      RoomShrinks(mask);
      GroupIsStream(later, rest, tail, mask >> 1, flags, written');
      PrependCode(t, Codes(later, written') + tail, mask, flags, later + rest, written);
      HeadAppend(ts, rest);
      Associative(Code(t), Codes(later, written'), tail);
    }
  }

  /** What the compressor writes is a stream of its tokens. */
  lemma {:induction false} EncodeIsStream(ts: seq<Token>, written: nat)
    requires AllLegal(ts, written)
    ensures Stream(Encode(ts, written), 0, 0, ts, written)
    decreases |ts|
  {
    if ts != [] {
      hide Codes, Flags, FlagByte, Stream, StreamCode, AllLegal, TotalWidth, Announces, Holds;
      var n := if |ts| < 8 then |ts| else 8;
      SplitLegal(ts, n, written);
      var group, rest := ts[..n], ts[n..];
      assert group + rest == ts;
      var written' := written + TotalWidth(group);
      EncodeIsStream(rest, written');
      EncodeIs(ts, written, n);
      hide Encode;
      var codes, tail := Codes(group, written), Encode(rest, written');
      var flags := FlagByte(Flags(group, 128));
      GroupAnnounced(group);
      GroupIsStream(group, rest, tail, 128, flags, written);
      StreamOfGroup(codes + tail, flags, ts, written);
    }
  }

  lemma EncodeIs(ts: seq<Token>, written: nat, n: nat)
    requires AllLegal(ts, written) && ts != [] && n == if |ts| < 8 then |ts| else 8
    requires AllLegal(ts[..n], written) && AllLegal(ts[n..], written + TotalWidth(ts[..n]))
    ensures Encode(ts, written) ==
            [FlagByte(Flags(ts[..n], 128))] + (Codes(ts[..n], written) + Encode(ts[n..], written + TotalWidth(ts[..n])))
  {
    hide Codes, Flags, FlagByte, AllLegal, TotalWidth;
  }

  lemma GroupAnnounced(group: seq<Token>)
    requires |group| <= 8
    ensures Announces(FlagByte(Flags(group, 128)), 128, group)
  {
    FlagsAnnounce(FlagByte(Flags(group, 128)), 0, 128, group);
  }

  lemma StreamOfGroup(bytes: seq<byte>, flags: byte, ts: seq<Token>, written: nat)
    requires ts != [] && AllLegal(ts, written)
    requires Stream(bytes, 128, flags, ts, written)
    ensures Stream([flags] + bytes, 0, 0, ts, written)
  {
    hide StreamCode;
    assert ([flags] + bytes)[1..] == bytes;
  }

  function Header(declared: nat): seq<byte>
    requires declared < U32
  {
    MAGIC + [declared / 0x100_0000, declared / 0x1_0000 % 256, declared / 0x100 % 256, declared % 256]
    + [0, 0, 0, 0, 0, 0, 0, 0]
  }

  /** A header starts with the letters of the format's name, and the declared size is the word behind them. */
  lemma HeaderLetters(data: seq<byte>)
    ensures ExpandedSize(data) ==
            if |data| >= 8 && (forall i | 0 <= i < 4 :: data[i] as int == "Yaz0"[i] as int)
            then data[4] as int * 16777216 + data[5] as int * 65536 + data[6] as int * 256 + data[7] as int
            else 0
  {
    if |data| >= 8 {
      assert data[..4] == [data[0], data[1], data[2], data[3]];
      assert MAGIC == ['Y' as int, 'a' as int, 'z' as int, '0' as int];
    }
  }

  lemma HeaderDeclares(declared: nat, stream: seq<byte>)
    requires declared < U32
    ensures ExpandedSize(Header(declared) + stream) == declared
  {
    var header := Header(declared);
    var src := header + stream;
    assert src[..4] == header[..4] == MAGIC;
    assert src[4] == header[4] && src[5] == header[5] && src[6] == header[6] && src[7] == header[7];
    FourBytes(declared);
    hide Header;
  }

  lemma FourBytes(n: nat)
    requires n < U32
    ensures var h := Header(n); Reference(h[4], h[5]) * 0x1_0000 + Reference(h[6], h[7]) == n
  {
    var h := Header(n);
    assert h[4] as int == n / 0x100_0000 && h[5] as int == n / 0x1_0000 % 256;
    assert h[6] as int == n / 0x100 % 256 && h[7] as int == n % 256;
    hide Header;
    assert n / 0x1_0000 / 256 == n / 0x100_0000 && n / 0x100 / 256 == n / 0x1_0000;
  }

  /** The round trip: compressing any legal token list and expanding it gives the list's meaning,
      with any bytes after the stream. */
  lemma RoundTrip(ts: seq<Token>, trailing: seq<byte>)
    requires AllLegal(ts, 0) && ts != [] && |Expand(ts, [])| < U32
    ensures Decode(Header(|Expand(ts, [])|) + (Encode(ts, 0) + trailing)) == Some(Expand(ts, []))
  {
    hide Decode, Encode, ExpandedSize, Stream;
    var output, stream := Expand(ts, []), Encode(ts, 0);
    ExpandGrows(ts, []);
    var src := Header(|output|) + (stream + trailing);
    HeaderDeclares(|output|, stream + trailing);
    EncodeIsStream(ts, 0);
    var end := HEADER_SIZE + |stream|;
    assert src[HEADER_SIZE..end] == stream;
    assert Presents(src, end, ts);
    DecodeIsExpansion(src, output);
  }

  // ------------------------------------------------------------ streams that overrun

  /** The last of a stream's tokens is a run past the declared size that the wrapping check lets through. */
  predicate EndsPast(ts: seq<Token>, t: Token, written: nat, declared: nat) {
    && written + TotalWidth(ts) < declared < written + TotalWidth(ts) + Width(t)
    && !PastEnd32(written + TotalWidth(ts), Width(t), declared)
  }

  /** The first turn of the decoder on a stream that is to overrun. */
  lemma OverrunStep(src: seq<byte>, p: Position, output: seq<byte>, declared: nat, t: Token, after: Position)
    requires |output| < declared && Legal(t, |output|)
    requires NextGroup(src, p).Some? && NextToken(src, NextGroup(src, p).value) == Some((t, after))
    ensures OverrunsFrom(src, p, output, declared) <==>
            if |output| + Width(t) <= declared then OverrunsFrom(src, after, Append(output, t), declared)
            else !PastEnd32(|output|, Width(t), declared)
  {
    hide NextGroup, NextToken, Append, PastEnd32;
  }

  lemma {:induction false} StreamOverruns(src: seq<byte>, p: Position, end: nat, ts: seq<Token>, t: Token,
                                          output: seq<byte>, declared: nat)
    requires p.read <= end <= |src| && AllLegal(ts + [t], |output|)
    requires Stream(src[p.read..end], p.mask, p.flags, ts + [t], |output|)
    requires EndsPast(ts, t, |output|, declared)
    ensures OverrunsFrom(src, p, output, declared)
    decreases |ts|
  {
    hide Stream, NextGroup, NextToken, OverrunsFrom, PastEnd32, Append;
    var all := ts + [t];
    var after := StreamHead(src, p, end, all, |output|);
    OverrunStep(src, p, output, declared, all[0], after);
    if ts != [] {
      assert all[1..] == ts[1..] + [t];
      AppendWidth(output, ts[0]);
      StreamOverruns(src, after, end, ts[1..], t, Append(output, ts[0]), declared);
    }
  }

  /** A position that overruns presents tokens up to such a run. */
  lemma {:induction false} OverrunIsStream(src: seq<byte>, p: Position, output: seq<byte>, declared: nat)
    returns (ts: seq<Token>, t: Token, end: nat)
    requires p.read <= |src| && OverrunsFrom(src, p, output, declared)
    ensures p.read <= end <= |src| && AllLegal(ts + [t], |output|)
    ensures Stream(src[p.read..end], p.mask, p.flags, ts + [t], |output|)
    ensures EndsPast(ts, t, |output|, declared)
    decreases declared - |output|
  {
    hide Stream, PastEnd32, Append;
    var (first, after) := NextToken(src, NextGroup(src, p).value).value;
    OverrunStep(src, p, output, declared, first, after);
    hide NextGroup, NextToken, OverrunsFrom;
    AppendWidth(output, first);
    if |output| + Width(first) <= declared {
      var rest;
      rest, t, end := OverrunIsStream(src, after, Append(output, first), declared);
      ts := [first] + rest;
      assert ts + [t] == [first] + (rest + [t]) && ts[1..] == rest;
      StreamCons(src, p, end, first, after, rest + [t], |output|);
    } else {
      ts, t, end := [], first, after.read;
      EndsStream(src, after, Append(output, first), |Append(output, first)|);
      StreamCons(src, p, end, first, after, [], |output|);
      assert ts + [t] == [first] + [];
    }
  }

  /** An input overruns exactly when it presents legal tokens of which the last is a run past the declared
      size that the wrapping check lets through. */
  lemma OverrunsExactly(src: seq<byte>)
    ensures Overruns(src) <==>
            exists end: nat, ts: seq<Token>, t: Token ::
              ExpandedSize(src) != 0 && Presents(src, end, ts + [t]) && EndsPast(ts, t, 0, ExpandedSize(src))
  {
    hide Stream, OverrunsFrom, EndsPast;
    if Overruns(src) {
      var ts, t, end := OverrunIsStream(src, Position(HEADER_SIZE, 0, 0), [], ExpandedSize(src));
      assert Presents(src, end, ts + [t]);
    }
    if end: nat, ts: seq<Token>, t: Token :|
        ExpandedSize(src) != 0 && Presents(src, end, ts + [t]) && EndsPast(ts, t, 0, ExpandedSize(src)) {
      StreamOverruns(src, Position(HEADER_SIZE, 0, 0), end, ts, t, [], ExpandedSize(src));
    }
  }

  function Zeros(n: nat): seq<Token> {
    if n == 0 then [] else [Literal(0)] + Zeros(n - 1)
  }

  lemma {:induction false} ZerosThenCopy(n: nat, t: Token, written: nat)
    requires Legal(t, written + n)
    ensures AllLegal(Zeros(n) + [t], written) && TotalWidth(Zeros(n)) == n
  {
    if n > 0 {
      ZerosThenCopy(n - 1, t, written + 1);
      assert (Zeros(n) + [t])[1..] == Zeros(n - 1) + [t];
    } else {
      assert (Zeros(0) + [t])[1..] == [];
    }
  }

  /** Every declared size past the bound has an input that overruns: literals up to its last byte, then a run. */
  lemma OverrunExists(declared: nat) returns (src: seq<byte>)
    requires MAX_DECLARED < declared < U32
    ensures ExpandedSize(src) == declared && Overruns(src)
  {
    var t := Copy(1, 273);
    var ts := Zeros(declared - 1);
    ZerosThenCopy(declared - 1, t, 0);
    hide Zeros, Encode, ExpandedSize, Stream, OverrunsFrom;
    var stream := Encode(ts + [t], 0);
    EncodeIsStream(ts + [t], 0);
    src := Header(declared) + stream;
    HeaderDeclares(declared, stream);
    assert src[HEADER_SIZE..|src|] == stream;
    StreamOverruns(src, Position(HEADER_SIZE, 0, 0), |src|, ts, t, [], declared);
  }
}
