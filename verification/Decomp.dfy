/**
 EGG::Decomp::decodeSZS.

 An archive does not say how long it is, so the decoder is handed as much guest memory as
 is readable from its start, up to a limit.  `ReadableFrom` finds that extent by doubling
 and then halving; `DecodeSzs` runs the decoder on it.
 */
module Decomp {
  import opened Common
  import Yaz0

  const FIRST_PROBE := 0x1_0000
  const LIMIT := 0x200_0000

  ghost predicate Monotone(valid: nat -> bool) {
    forall m: nat, n: nat | m <= n && valid(n) :: valid(m)
  }

  /** The sizes probed by doubling: 64 KiB up to twice the limit. */
  ghost predicate Doubling(probe: nat) {
    probe in {0x1_0000, 0x2_0000, 0x4_0000, 0x8_0000, 0x10_0000, 0x20_0000,
              0x40_0000, 0x80_0000, 0x100_0000, 0x200_0000, 0x400_0000}
  }

  /** The largest readable size up to the limit, 0 when there is none. */
  method ReadableFrom(valid: nat -> bool) returns (good: nat)
    ensures good <= LIMIT
    ensures good == 0 || valid(good)
    ensures good == LIMIT || !valid(good + 1)
    ensures Monotone(valid) ==> forall n: nat | 0 < n <= LIMIT :: valid(n) <==> n <= good
  {
    good := 0;
    var probe := FIRST_PROBE;
    while probe <= LIMIT && valid(probe)
      invariant Doubling(probe)
      invariant if good == 0 then probe == FIRST_PROBE else probe == 2 * good && valid(good)
      decreases 2 * LIMIT - probe
    {
      good := probe;
      probe := probe * 2;
    }
    if probe > LIMIT {
      return;
    }
    var bad := probe;
    while bad - good > 1
      invariant good < bad <= LIMIT
      invariant good == 0 || valid(good)
      invariant !valid(bad)
      decreases bad - good
    {
      var middle := good + (bad - good) / 2;
      if valid(middle) {
        good := middle;
      } else {
        bad := middle;
      }
    }
  }

  /** What the decoder is given of `source`, the readable memory from the archive on. */
  function Given(source: seq<byte>): seq<byte> {
    if |source| <= LIMIT then source else source[..LIMIT]
  }

  /** Expands the archive at the start of `source` into the guest memory `target`. */
  method DecodeSzs(source: seq<byte>, target: array<byte>) returns (written: Option<nat>)
    modifies target
    ensures written.None? <==> Yaz0.ExpandedSize(source) <= target.Length && Yaz0.Overruns(Given(source))
    ensures Yaz0.ExpandedSize(source) <= Yaz0.MAX_DECLARED ==> written.Some?
    ensures written.Some? ==>
              (written.value != 0 <==>
               && Yaz0.ExpandedSize(source) <= target.Length
               && Yaz0.Decode(Given(source)).Some?)
    ensures written.Some? && written.value != 0 ==>
              written.value <= target.Length && Yaz0.Decode(Given(source)) == Some(target[..written.value])
    ensures written.Some? ==> forall i | Yaz0.ExpandedSize(source) <= i < target.Length :: target[i] == old(target[i])
  {
    hide Yaz0.Decode, Yaz0.OverrunsFrom;
    if |source| < Yaz0.HEADER_SIZE {
      DecodeIsGivenSize(source);
      return Some(0);
    }
    SizeIsInHeader(source, Yaz0.HEADER_SIZE);
    var declared := Yaz0.ExpandedSize(source[..Yaz0.HEADER_SIZE]);
    if declared == 0 {
      DecodeIsGivenSize(source);
      return Some(0);
    }
    if target.Length < declared {
      return Some(0);
    }
    var readable := ReadableFrom(n => n <= |source|);
    assert readable == |Given(source)| by {
      assert Monotone(n => n <= |source|);
    }
    assert source[..readable] == Given(source);
    SizeIsInHeader(source, readable);
    written := Yaz0.Yaz0Decode(source[..readable], target);
  }

  lemma SizeIsInHeader(source: seq<byte>, n: nat)
    requires Yaz0.HEADER_SIZE <= n <= |source|
    ensures Yaz0.ExpandedSize(source[..n]) == Yaz0.ExpandedSize(source)
  {
    assert source[..n][..4] == source[..4];
  }

  lemma DecodeIsGivenSize(source: seq<byte>)
    requires |source| < Yaz0.HEADER_SIZE || Yaz0.ExpandedSize(source) == 0
    ensures Yaz0.Decode(Given(source)).None? && !Yaz0.Overruns(Given(source))
  {
    if |source| >= Yaz0.HEADER_SIZE {
      assert Given(source) == source[..|Given(source)|];
      SizeIsInHeader(source, |Given(source)|);
    }
  }

  /** Every archive that fits the limit is given to the decoder whole, so it expands to its tokens. */
  lemma ArchiveExpands(ts: seq<Yaz0.Token>, rest: seq<byte>)
    requires Yaz0.AllLegal(ts, 0) && ts != [] && |Yaz0.Expand(ts, [])| < Yaz0.U32
    requires Yaz0.HEADER_SIZE + |Yaz0.Encode(ts, 0)| <= LIMIT
    ensures Yaz0.Decode(Given(Yaz0.Header(|Yaz0.Expand(ts, [])|) + (Yaz0.Encode(ts, 0) + rest))) ==
            Some(Yaz0.Expand(ts, []))
  {
    hide Yaz0.Decode, Yaz0.Encode, Yaz0.Expand;
    var header, stream := Yaz0.Header(|Yaz0.Expand(ts, [])|), Yaz0.Encode(ts, 0);
    var source := header + (stream + rest);
    var kept := |Given(source)| - |header| - |stream|;
    assert Given(source) == header + (stream + rest[..kept]);
    Yaz0.RoundTrip(ts, rest[..kept]);
  }
}
