/**
 What the guest memory index is an index of.

 `HostByte` is the meaning of guest memory: find the mapped region an address is in, and the
 host byte at the same place of it.  The page table and the biases are functions of the region
 list; the lemmas say that an access they admit touches exactly the host bytes of its guest
 bytes, also when it straddles two pages.
 */
module MemoryTables {
  import opened Common

  const SPACE := 0x1_0000_0000          // guest addresses are 32-bit
  const WORD := 0x1_0000_0000_0000_0000 // host addresses are 64-bit, and wrap
  const PAGE := 0x10_0000               // 1 MiB pages of the index
  const PAGES := 4096
  const EXACT := 4096                   // 4 KiB pages of the executable guard
  const EXACTS := 0x10_0000
  const PER_PAGE := 256
  const MAX_SCALAR := 8

  /** A mapped region: guest base, size, host address of its first byte. */
  datatype Region = Region(base: nat, size: nat, host: nat)

  predicate Contains(r: Region, address: nat) {
    r.base <= address < r.base + r.size
  }

  ghost predicate Mappable(r: Region) {
    r.base + r.size <= SPACE && (r.size > 0 ==> 0 < r.host) && r.host + r.size <= WORD
  }

  ghost predicate Apart(r: Region, s: Region) {
    forall a: nat :: !(Contains(r, a) && Contains(s, a))
  }

  /** Regions fit both address spaces and do not overlap. */
  ghost predicate WellMapped(regions: seq<Region>) {
    && (forall i | 0 <= i < |regions| :: Mappable(regions[i]))
    && (forall i, j | 0 <= i < j < |regions| :: Apart(regions[i], regions[j]))
  }

  /** The host byte of a guest address, None when no region is there. */
  function HostByte(regions: seq<Region>, address: nat): Option<nat> {
    if regions == [] then None
    else if Contains(regions[0], address) then Some(regions[0].host + (address - regions[0].base))
    else HostByte(regions[1..], address)
  }

  /** Byte `i` of an access at `address` is the host byte `i` behind `pointer`. */
  ghost predicate HostAt(regions: seq<Region>, address: nat, pointer: nat, i: nat) {
    HostByte(regions, address + i) == Some(pointer + i)
  }

  /** An access is judged by the page of its first byte, which holds all of it. */
  predicate InPage(address: nat, size: nat) {
    (address + size - 1) / PAGE == address / PAGE
  }

  predicate IsMmio(address: nat) {
    0xCC00_0000 <= address < 0xCE00_0000
  }

  /** What a checked access comes to: host bytes, a device's business, or an access violation. */
  datatype Access = Host(pointer: nat) | Device | Violation

  /** Region resolution: the first region that holds the whole access. */
  function Resolve(regions: seq<Region>, address: nat, length: nat): Option<Region> {
    if regions == [] then None
    else if regions[0].base <= address && address + length <= regions[0].base + regions[0].size then Some(regions[0])
    else Resolve(regions[1..], address, length)
  }

  lemma {:induction false} HostByteOf(regions: seq<Region>, k: nat, address: nat)
    requires WellMapped(regions) && k < |regions| && Contains(regions[k], address)
    ensures HostByte(regions, address) == Some(regions[k].host + (address - regions[k].base))
  {
    if k > 0 {
      assert Apart(regions[0], regions[k]);
      HostByteOf(regions[1..], k - 1, address);
    }
  }

  /** An access that resolves touches the host bytes of its guest bytes. */
  lemma {:induction false} ResolveIsHost(regions: seq<Region>, address: nat, length: nat, i: nat)
    requires WellMapped(regions) && i < length && Resolve(regions, address, length).Some?
    ensures var r := Resolve(regions, address, length).value;
            r.base <= address && HostByte(regions, address + i) == Some(r.host + (address - r.base) + i)
  {
    var k := Resolver(regions, address, length);
    HostByteOf(regions, k, address + i);
  }

  lemma {:induction false} Resolver(regions: seq<Region>, address: nat, length: nat) returns (k: nat)
    requires Resolve(regions, address, length).Some?
    ensures k < |regions| && Resolve(regions, address, length) == Some(regions[k])
    ensures regions[k].base <= address && address + length <= regions[k].base + regions[k].size
  {
    if regions[0].base <= address && address + length <= regions[0].base + regions[0].size {
      k := 0;
    } else {
      k := Resolver(regions[1..], address, length);
      k := k + 1;
    }
  }

  lemma {:induction false} ResolveFinds(regions: seq<Region>, k: nat, address: nat, length: nat)
    requires k < |regions| && regions[k].base <= address && address + length <= regions[k].base + regions[k].size
    ensures Resolve(regions, address, length).Some?
  {
    if k > 0 {
      ResolveFinds(regions[1..], k - 1, address, length);
    }
  }

  // ------------------------------------------------------------------- the page table

  /** Where a page's bytes are, from its first byte on; a null base is no mapping. */
  datatype Entry = Entry(base: nat, limit: nat)

  const NO_ENTRY := Entry(0, 0)

  function Min(a: nat, b: nat): nat {
    if a < b then a else b
  }

  /** What one region makes of the entry of a page. */
  function EntryFrom(r: Region, page: nat, before: Entry): Entry {
    if Contains(r, page * PAGE)
    then Entry(r.host + (page * PAGE - r.base), Min(PAGE, r.size - (page * PAGE - r.base)))
    else before
  }

  function EntryOf(regions: seq<Region>, page: nat): Entry {
    if regions == [] then NO_ENTRY
    else EntryFrom(regions[|regions| - 1], page, EntryOf(regions[..|regions| - 1], page))
  }

  /** A page with an entry starts inside the region the entry was made from. */
  lemma {:induction false} EntryRegion(regions: seq<Region>, page: nat) returns (k: nat)
    requires EntryOf(regions, page).base != 0
    ensures k < |regions| && Contains(regions[k], page * PAGE)
    ensures EntryOf(regions, page) == EntryFrom(regions[k], page, NO_ENTRY)
  {
    var last := |regions| - 1;
    if Contains(regions[last], page * PAGE) {
      k := last;
    } else {
      k := EntryRegion(regions[..last], page);
    }
  }

  /** The entry of a page that starts in a region is the one that region makes. */
  lemma {:induction false} RegionEntry(regions: seq<Region>, k: nat, page: nat)
    requires WellMapped(regions) && k < |regions| && Contains(regions[k], page * PAGE)
    ensures EntryOf(regions, page) == EntryFrom(regions[k], page, NO_ENTRY)
    decreases |regions|
  {
    var last := |regions| - 1;
    if k < last {
      assert Apart(regions[k], regions[last]);
      RegionEntry(regions[..last], k, page);
    }
  }

  /** A region holds an access, its page's start, and nothing of the access is past the page. */
  predicate ServedBy(r: Region, address: nat, length: nat) {
    Contains(r, address / PAGE * PAGE) && address + length <= r.base + r.size && address % PAGE + length <= PAGE
  }

  ghost predicate Served(regions: seq<Region>, address: nat, length: nat) {
    exists k :: 0 <= k < |regions| && ServedBy(regions[k], address, length)
  }

  /** Such an access is within its page's entry. */
  lemma ServedEntry(regions: seq<Region>, address: nat, length: nat)
    requires WellMapped(regions)
    ensures Served(regions, address, length) ==>
              var entry := EntryOf(regions, address / PAGE);
              entry.base != 0 && address % PAGE + length <= entry.limit
  {
    if Served(regions, address, length) {
      var k :| 0 <= k < |regions| && ServedBy(regions[k], address, length);
      RegionEntry(regions, k, address / PAGE);
      assert Mappable(regions[k]);
    }
  }

  /** Bytes within an entry's limit are the host bytes of the page. */
  lemma EntryIsHost(regions: seq<Region>, page: nat, offset: nat)
    requires WellMapped(regions) && EntryOf(regions, page).base != 0 && offset < EntryOf(regions, page).limit
    ensures HostByte(regions, page * PAGE + offset) == Some(EntryOf(regions, page).base + offset)
    ensures page * PAGE + offset < SPACE && EntryOf(regions, page).base + offset < WORD
  {
    var k := EntryRegion(regions, page);
    assert Mappable(regions[k]);
    HostByteOf(regions, k, page * PAGE + offset);
  }

  // ------------------------------------------------------------------------- the biases

  function Wrap(x: int): nat {
    x % WORD
  }

  /** Host page base minus guest page base, plus one, as an unsigned host word. */
  function Encode(base: nat, page: nat): nat {
    Wrap(Wrap(base - page * PAGE) + 1)
  }

  /** The host address a bias gives an address. */
  function Decode(bias: nat, address: nat): nat {
    Wrap(Wrap(bias - 1) + address)
  }

  lemma WrapAbsorbs(x: int, y: int)
    ensures Wrap(Wrap(x) + y) == Wrap(x + y)
  {
  }

  lemma DecodeEncode(base: nat, page: nat, offset: nat)
    requires base + offset < WORD
    ensures Decode(Encode(base, page), page * PAGE + offset) == base + offset
  {
    var x := base - page * PAGE;
    WrapAbsorbs(x, 1);
    WrapAbsorbs(x + 1, -1);
    WrapAbsorbs(x + 1 - 1, page * PAGE + offset);
    assert Wrap(base + offset) == base + offset;
  }

  /** A full page whose successor goes on where it ends, for as long as a scalar can straddle. */
  /** An access within its page's entry is in the region the entry was made from. */
  lemma EntryResolves(regions: seq<Region>, address: nat, length: nat)
    requires EntryOf(regions, address / PAGE).base != 0
    requires address % PAGE + length <= EntryOf(regions, address / PAGE).limit
    ensures Resolve(regions, address, length).Some?
  {
    var k := EntryRegion(regions, address / PAGE);
    ResolveFinds(regions, k, address, length);
  }

  /** The pointer lookup has an answer: one region holds the access, or the page has a bias for it. */
  predicate Addressable(regions: seq<Region>, address: nat, length: nat) {
    Resolve(regions, address, length).Some? || (length <= 8 && BiasOf(regions, address / PAGE) != 0)
  }

  predicate Continues(current: Entry, next: Entry) {
    && current.base != 0 && current.limit == PAGE
    && next.base != 0 && next.limit >= MAX_SCALAR - 1
    && next.base == current.base + PAGE
  }

  function BiasOf(regions: seq<Region>, page: nat): nat {
    if page + 1 < PAGES && Continues(EntryOf(regions, page), EntryOf(regions, page + 1))
    then Encode(EntryOf(regions, page).base, page)
    else 0
  }

  /** A page has a bias when one region holds it and the first seven bytes of the next, unless the host put it one
      byte below its guest address, whose bias would be 0. */
  lemma BiasServes(regions: seq<Region>, k: nat, page: nat)
    requires WellMapped(regions) && k < |regions| && page < 4095
    requires regions[k].base <= page * 0x10_0000 && (page + 1) * 0x10_0000 + 7 <= regions[k].base + regions[k].size
    ensures BiasOf(regions, page) != 0 <==>
            regions[k].host + (page * 0x10_0000 - regions[k].base) + 1 != page * 0x10_0000
  {
    var r := regions[k];
    assert Mappable(r);
    RegionEntry(regions, k, page);
    RegionEntry(regions, k, page + 1);
    hide EntryOf;
    var base := r.host + (page * PAGE - r.base);
    assert EntryOf(regions, page) == Entry(base, PAGE);
    assert EntryOf(regions, page + 1).base == base + PAGE && EntryOf(regions, page + 1).limit >= 7;
    NoBias(base, page);
  }

  lemma NoBias(base: nat, page: nat)
    requires base + PAGE <= WORD && page < 4096
    ensures Encode(base, page) == 0 <==> base + 1 == page * 0x10_0000
  {
    WrapAbsorbs(base - page * PAGE, 1);
  }

  /** Biases wrap at 64 bits. */
  lemma BiasExample()
    ensures Encode(1, 1) == 0xFFFF_FFFF_FFF0_0002 && Decode(0xFFFF_FFFF_FFF0_0002, 0x10_0005) == 6
  {
  }

  /** An access is within its page when it ends where the page does or before. */
  lemma InPageIs(address: nat, size: nat)
    requires size > 0
    ensures InPage(address, size) <==> address % 0x10_0000 + size <= 0x10_0000
  {
  }

  /** A biased access of up to eight bytes is within its page and the next, at their host bytes. */
  lemma BiasIsHost(regions: seq<Region>, address: nat, i: nat)
    requires WellMapped(regions) && address < SPACE && i < MAX_SCALAR
    requires BiasOf(regions, address / PAGE) != 0
    ensures address + i < SPACE
    ensures HostByte(regions, address + i) == Some(Decode(BiasOf(regions, address / PAGE), address) + i)
  {
    hide HostByte, EntryOf, Wrap;
    var page, offset := address / PAGE, address % PAGE;
    var current, next := EntryOf(regions, page), EntryOf(regions, page + 1);
    EntryIsHost(regions, page, offset);
    DecodeEncode(current.base, page, offset);
    if offset + i < PAGE {
      EntryIsHost(regions, page, offset + i);
    } else {
      EntryIsHost(regions, page + 1, offset + i - PAGE);
    }
  }

  // ------------------------------------------------------------------ executable ranges

  /** Registered executable bytes: start to end, the end not included. */
  datatype Range = Range(start: nat, end: nat, name: string)

  predicate Intersects(address: nat, length: nat, r: Range) {
    address < r.end && address + length > r.start
  }

  predicate Within(r: Range, address: nat) {
    r.start <= address < r.end
  }

  /** A byte of an access is in a range. */
  ghost predicate Meets(r: Range, address: nat, length: nat) {
    exists b: nat :: address <= b < address + length && Within(r, b)
  }

  /** An access intersects a range exactly when one of its bytes is in it. */
  lemma IntersectsIs(address: nat, length: nat, r: Range)
    requires length > 0 && r.start < r.end
    ensures Intersects(address, length, r) <==> Meets(r, address, length)
  {
    if Intersects(address, length, r) {
      assert Within(r, if r.start <= address then address else r.start);
    }
  }

  ghost predicate Legal(r: Range) {
    r.start < r.end < SPACE
  }

  /** Some registered byte is in page `page` of size `size`. */
  ghost predicate Holds(ranges: seq<Range>, page: nat, size: nat)
    requires size > 0
  {
    exists k :: 0 <= k < |ranges| && Touches(ranges[k], page, size)
  }

  ghost predicate Touches(r: Range, page: nat, size: nat)
    requires size > 0
  {
    Intersects(page * size, size, r)
  }

  lemma HoldsMore(ranges: seq<Range>, r: Range, page: nat, size: nat)
    requires size > 0
    ensures Holds(ranges + [r], page, size) <==> Holds(ranges, page, size) || Touches(r, page, size)
  {
    var more := ranges + [r];
    if Touches(r, page, size) {
      assert more[|ranges|] == r;
    }
    if Holds(ranges, page, size) {
      var k :| 0 <= k < |ranges| && Touches(ranges[k], page, size);
      assert more[k] == ranges[k];
    }
    if Holds(more, page, size) {
      var k :| 0 <= k < |more| && Touches(more[k], page, size);
      assert k < |ranges| ==> more[k] == ranges[k];
    }
  }

  /** The pages of a range are those from its first to its last byte. */
  lemma TouchedPages(r: Range, page: nat, size: nat)
    requires Legal(r) && size in {EXACT, 0x1_0000, PAGE}
    ensures Touches(r, page, size) <==> r.start / size <= page <= (r.end - 1) / size
  {
  }
}
