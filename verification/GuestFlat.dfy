/**
 The flat guest mapping: every view of a bank of RAM is backed by one section of host memory.

 `Place` says which byte of which section a guest address is; the theorems say that two guest
 addresses are the same host byte exactly when they are the same place, and that region
 resolution, and with it the whole guest memory index, resolves to these bytes.
 */
module GuestFlat {
  import opened Common
  import opened MemoryTables
  import opened GuestMemory

  const GRANULARITY := 0x1_0000

  datatype Backing = Mem1 | Mem2 | Owned

  datatype Request = Request(base: nat, size: nat, backing: Backing)

  /** What tells two sections apart. */
  datatype Key = Key(backing: Backing, ownedBase: nat)

  datatype Section = Section(size: nat, view: nat)

  datatype View = View(base: nat, size: nat, offset: nat, view: nat)

  function Classify(base: nat): Backing {
    if base < MEM1_SIZE || 0x8000_0000 <= base < 0x8000_0000 + MEM1_SIZE
      || 0xC000_0000 <= base < 0xC000_0000 + MEM1_SIZE
    then Mem1
    else if || 0x1000_0000 <= base < 0x1000_0000 + MEM2_SIZE || 0x9000_0000 <= base < 0x9000_0000 + MEM2_SIZE
            || 0xD000_0000 <= base < 0xD000_0000 + MEM2_SIZE
    then Mem2
    else Owned
  }

  /** The banks' windows, by their last addresses: 24 MiB and 128 MiB, at the three views. */
  lemma Windows(base: nat)
    ensures Classify(base) == Mem1 <==>
            base <= 0x17F_FFFF || 0x8000_0000 <= base <= 0x817F_FFFF || 0xC000_0000 <= base <= 0xC17F_FFFF
    ensures Classify(base) == Mem2 <==>
            || 0x1000_0000 <= base <= 0x17FF_FFFF || 0x9000_0000 <= base <= 0x97FF_FFFF
            || 0xD000_0000 <= base <= 0xD7FF_FFFF
  {
  }

  /** Where a region starts in its section: the banks' windows are 32 and 256 MiB. */
  function SectionOffset(r: Request): nat {
    match r.backing
    case Mem1 => r.base % 0x200_0000
    case Mem2 => r.base % 0x1000_0000
    case Owned => 0
  }

  /** A region of a bank starts in its section where it starts in its window, whichever view that is. */
  lemma OffsetInWindow(base: nat, size: nat)
    ensures var offset := SectionOffset(Request(base, size, Classify(base)));
            && (base <= 0x17F_FFFF ==> offset == base)
            && (0x8000_0000 <= base <= 0x817F_FFFF ==> offset == base - 0x8000_0000)
            && (0xC000_0000 <= base <= 0xC17F_FFFF ==> offset == base - 0xC000_0000)
            && (0x1000_0000 <= base <= 0x17FF_FFFF ==> offset == base - 0x1000_0000)
            && (0x9000_0000 <= base <= 0x97FF_FFFF ==> offset == base - 0x9000_0000)
            && (0xD000_0000 <= base <= 0xD7FF_FFFF ==> offset == base - 0xD000_0000)
  {
  }

  function KeyOf(r: Request): Key {
    Key(r.backing, if r.backing.Owned? then r.base else 0)
  }

  function RoundUp(size: nat): nat {
    (size + GRANULARITY - 1) / GRANULARITY * GRANULARITY
  }

  /** A section's size is the next multiple of 64 KiB. */
  lemma RoundedUp(size: nat)
    ensures RoundUp(size) % 65536 == 0 && size <= RoundUp(size) < size + 65536
  {
  }

  /** The highest byte any region of a section reaches. */
  function Reach(requests: seq<Request>, key: Key): nat {
    if requests == [] then 0
    else
      var r, before := requests[|requests| - 1], Reach(requests[..|requests| - 1], key);
      if r.size > 0 && KeyOf(r) == key && before < SectionOffset(r) + r.size then SectionOffset(r) + r.size else before
  }

  /** The section, and the byte of it, that a guest address is. */
  function Place(requests: seq<Request>, address: nat): Option<(Key, nat)> {
    if requests == [] then None
    else
      var r := requests[0];
      if r.base <= address < r.base + r.size then Some((KeyOf(r), SectionOffset(r) + (address - r.base)))
      else Place(requests[1..], address)
  }

  /** The host byte of a guest address, when the host put each section at `place`. */
  function HostOf(requests: seq<Request>, place: Key -> nat, address: nat): Option<nat> {
    match Place(requests, address)
    case None => None
    case Some((key, offset)) => Some(At(place, key, offset))
  }

  function At(place: Key -> nat, key: Key, offset: nat): nat {
    place(key) + offset
  }

  /** The host gave every section memory of its own. */
  ghost predicate Separate(requests: seq<Request>, place: Key -> nat) {
    forall j, k: Key, o: nat, p: nat | j != k && o < Reach(requests, j) && p < Reach(requests, k) ::
      At(place, j, o) != At(place, k, p)
  }

  ghost predicate AddressableAt(requests: seq<Request>, place: Key -> nat) {
    forall k: Key :: 0 < place(k) && place(k) + Reach(requests, k) <= WORD
  }

  lemma {:induction false} ReachCovers(requests: seq<Request>, i: nat)
    requires i < |requests| && requests[i].size > 0
    ensures SectionOffset(requests[i]) + requests[i].size <= Reach(requests, KeyOf(requests[i]))
    decreases |requests|
  {
    if i < |requests| - 1 {
      ReachCovers(requests[..|requests| - 1], i);
    }
  }

  /** Every mapped address is inside its section. */
  lemma {:induction false} PlaceInReach(requests: seq<Request>, from: nat, address: nat)
    requires from <= |requests| && Place(requests[from..], address).Some?
    ensures var (key, offset) := Place(requests[from..], address).value; offset < Reach(requests, key)
    decreases |requests| - from
  {
    var r := requests[from];
    if r.base <= address < r.base + r.size {
      ReachCovers(requests, from);
    } else {
      assert requests[from..][1..] == requests[from + 1..];
      PlaceInReach(requests, from + 1, address);
    }
  }

  /** Two guest addresses are the same host byte exactly when they are the same byte of the same section. */
  lemma SameHostByte(requests: seq<Request>, place: Key -> nat, a: nat, b: nat)
    requires Separate(requests, place) && Place(requests, a).Some? && Place(requests, b).Some?
    ensures HostOf(requests, place, a) == HostOf(requests, place, b) <==> Place(requests, a) == Place(requests, b)
  {
    assert requests[0..] == requests;
    PlaceInReach(requests, 0, a);
    PlaceInReach(requests, 0, b);
  }

  // ----------------------------------------------------------------- the Wii's own map

  const DEFAULTS: seq<(nat, nat)> := [
    (0, MEM1_SIZE), (0x8000_0000, MEM1_SIZE), (0xC000_0000, MEM1_SIZE),
    (0x1000_0000, MEM2_SIZE), (0x9000_0000, MEM2_SIZE), (0xD000_0000, MEM2_SIZE),
    (0x8180_0000, 0x20_0000), (0xE000_0000, PAGE + 4096)]

  function Requests(config: seq<(nat, nat)>): (requests: seq<Request>)
    ensures |requests| == |config|
    ensures forall i | 0 <= i < |config| :: requests[i] == Request(config[i].0, config[i].1, Classify(config[i].0))
  {
    seq(|config|, i requires 0 <= i < |config| => Request(config[i].0, config[i].1, Classify(config[i].0)))
  }

  lemma {:induction false} PlaceAt(requests: seq<Request>, i: nat, address: nat)
    requires i < |requests| && requests[i].base <= address < requests[i].base + requests[i].size
    requires forall j | 0 <= j < i :: !(requests[j].base <= address < requests[j].base + requests[j].size)
    ensures Place(requests, address)
            == Some((KeyOf(requests[i]), SectionOffset(requests[i]) + (address - requests[i].base)))
  {
    if i > 0 {
      assert !(requests[0].base <= address < requests[0].base + requests[0].size);
      PlaceAt(requests[1..], i - 1, address);
    }
  }

  /** The physical, cached and uncached views of a bank of RAM are the same bytes. */
  lemma RamIsMirrored(offset: nat)
    ensures var requests := Requests(DEFAULTS);
            && (offset < MEM1_SIZE ==>
                  Place(requests, offset) == Place(requests, 0x8000_0000 + offset)
                    == Place(requests, 0xC000_0000 + offset)
                    == Some((Key(Mem1, 0), offset)))
            && (offset < MEM2_SIZE ==>
                  Place(requests, 0x1000_0000 + offset) == Place(requests, 0x9000_0000 + offset)
                    == Place(requests, 0xD000_0000 + offset) == Some((Key(Mem2, 0), offset)))
  {
    var requests := Requests(DEFAULTS);
    hide Place;
    if offset < MEM1_SIZE {
      PlaceAt(requests, 0, offset);
      PlaceAt(requests, 1, 0x8000_0000 + offset);
      PlaceAt(requests, 2, 0xC000_0000 + offset);
    }
    if offset < MEM2_SIZE {
      PlaceAt(requests, 3, 0x1000_0000 + offset);
      PlaceAt(requests, 4, 0x9000_0000 + offset);
      PlaceAt(requests, 5, 0xD000_0000 + offset);
    }
  }

  // ------------------------------------------------------- stores that reach executable bytes

  /** An address of the physical view of a bank of RAM. */
  predicate Physical(address: nat) {
    address < MEM1_SIZE || 0x1000_0000 <= address < 0x1000_0000 + MEM2_SIZE
  }

  function Cached(address: nat): nat {
    address + 0x8000_0000
  }

  /** An address of one of the views of `size` bytes of RAM, and where it is in the bank. */
  predicate InView(address: nat, physical: nat, size: nat, offset: nat) {
    offset < size && address in {physical + offset, 0x8000_0000 + physical + offset, 0xC000_0000 + physical + offset}
  }

  predicate InRam(address: nat) {
    || address < MEM1_SIZE || 0x8000_0000 <= address < 0x8000_0000 + MEM1_SIZE
    || 0xC000_0000 <= address < 0xC000_0000 + MEM1_SIZE
    || 0x1000_0000 <= address < 0x1000_0000 + MEM2_SIZE || 0x9000_0000 <= address < 0x9000_0000 + MEM2_SIZE
    || 0xD000_0000 <= address < 0xD000_0000 + MEM2_SIZE
  }

  /** Ranges are wholly in one view of a bank of RAM, or have no byte in RAM. */
  ghost predicate Confined(ranges: seq<Range>) {
    forall k | 0 <= k < |ranges| :: ConfinedRange(ranges[k])
  }

  ghost predicate ConfinedRange(r: Range) {
    Mirrors(r.start, r.end) != [] || forall x | r.start <= x < r.end :: !InRam(x)
  }

  /** The mirrors of a range with a byte of RAM, from where that byte is. */
  lemma MirrorsOfByte(r: Range, x: nat, physical: nat, size: nat, offset: nat)
    requires ConfinedRange(r) && Within(r, x)
    requires (physical, size) in {(0, MEM1_SIZE), (0x1000_0000, MEM2_SIZE)} && InView(x, physical, size, offset)
    ensures x - r.start <= offset
    ensures Mirrors(r.start, r.end) ==
            [0x8000_0000 + physical + offset - (x - r.start), 0xC000_0000 + physical + offset - (x - r.start)]
  {
    assert InRam(x);
  }

  lemma MirrorExecutes(ranges: seq<Range>, view: nat, length: nat, before: nat)
    requires Registered(ranges, view, length) && before < length
    ensures Executable(ranges, view + before)
  {
    var k :| 0 <= k < |ranges| && ranges[k].start == view && ranges[k].end == view + length;
    assert Within(ranges[k], view + before);
  }

  /** A byte of RAM in a registered range has its cached and its uncached mirror in one. */
  lemma MirrorsExecute(ranges: seq<Range>, x: nat, physical: nat, size: nat, offset: nat)
    requires Confined(ranges) && MirrorClosed(ranges) && Executable(ranges, x)
    requires (physical, size) in {(0, MEM1_SIZE), (0x1000_0000, MEM2_SIZE)} && InView(x, physical, size, offset)
    ensures Executable(ranges, 0x8000_0000 + physical + offset) && Executable(ranges, 0xC000_0000 + physical + offset)
  {
    var k :| 0 <= k < |ranges| && Within(ranges[k], x);
    var r := ranges[k];
    MirrorsOfByte(r, x, physical, size, offset);
    assert MirrorsRegistered(ranges, r.start, r.end);
    hide Mirrors, Executable, Registered, Confined, MirrorClosed, InView;
    var views := Mirrors(r.start, r.end);
    assert views[0] in views && views[1] in views;
    MirrorExecutes(ranges, views[0], r.end - r.start, x - r.start);
    MirrorExecutes(ranges, views[1], r.end - r.start, x - r.start);
  }

  /** Which addresses are a place of the console's map. */
  lemma PlaceIs(address: nat)
    ensures var place := Place(Requests(DEFAULTS), address);
            && (place.Some? && place.value.0.backing.Mem1? ==> InView(address, 0, MEM1_SIZE, place.value.1))
            && (place.Some? && place.value.0.backing.Mem2? ==> InView(address, 0x1000_0000, MEM2_SIZE, place.value.1))
            && (place.Some? && place.value.0.backing.Owned? ==>
                  !InRam(address) && address == place.value.0.ownedBase + place.value.1)
  {
    var requests := Requests(DEFAULTS);
    hide Place;
    if InRam(address) {
      RamIsMirrored(address % 0x1000_0000);
    } else if 0x8180_0000 <= address < 0x81A0_0000 {
      PlaceAt(requests, 6, address);
    } else if 0xE000_0000 <= address < 0xE000_0000 + PAGE + 4096 {
      PlaceAt(requests, 7, address);
    } else {
      PlaceNowhere(requests, address);
    }
  }

  lemma {:induction false} PlaceNowhere(requests: seq<Request>, address: nat)
    requires forall i | 0 <= i < |requests| :: !(requests[i].base <= address < requests[i].base + requests[i].size)
    ensures Place(requests, address).None?
  {
    if requests != [] {
      PlaceNowhere(requests[1..], address);
    }
  }

  /** A byte clear of the guarded pages can still be the host byte of an executable one: exactly when it is
      named through the physical view, which nothing guards, and its cached mirror is registered. */
  lemma ReachesExecutable(ranges: seq<Range>, place: Key -> nat, address: nat)
    requires Separate(Requests(DEFAULTS), place) && Confined(ranges) && MirrorClosed(ranges)
    requires HostOf(Requests(DEFAULTS), place, address).Some? && !Executable(ranges, address)
    ensures (exists x: nat ::
               && Executable(ranges, x)
               && HostOf(Requests(DEFAULTS), place, x) == HostOf(Requests(DEFAULTS), place, address))
            <==> Physical(address) && Executable(ranges, Cached(address))
  {
    var requests := Requests(DEFAULTS);
    hide Place, Executable, Confined, MirrorClosed, Separate, Reach;
    forall x: nat | Executable(ranges, x) && HostOf(requests, place, x) == HostOf(requests, place, address)
      ensures Physical(address) && Executable(ranges, Cached(address))
    {
      SameHostByte(requests, place, x, address);
      SamePlace(ranges, x, address);
    }
    if Physical(address) && Executable(ranges, Cached(address)) {
      RamIsMirrored(address % 0x1000_0000);
      assert HostOf(requests, place, Cached(address)) == HostOf(requests, place, address);
    }
  }

  lemma SamePlace(ranges: seq<Range>, x: nat, address: nat)
    requires Confined(ranges) && MirrorClosed(ranges) && Executable(ranges, x) && !Executable(ranges, address)
    requires Place(Requests(DEFAULTS), x).Some? && Place(Requests(DEFAULTS), x) == Place(Requests(DEFAULTS), address)
    ensures Physical(address) && Executable(ranges, Cached(address))
  {
    PlaceIs(x);
    PlaceIs(address);
    hide Place, Executable, Confined, MirrorClosed;
    var (key, offset) := Place(Requests(DEFAULTS), x).value;
    match key.backing
    case Mem1 => MirrorsExecute(ranges, x, 0, MEM1_SIZE, offset);
    case Mem2 => MirrorsExecute(ranges, x, 0x1000_0000, MEM2_SIZE, offset);
    case Owned =>
  }

  /** So much for every byte of a store the tables admit. */
  lemma StoreReachesExecutable(regions: seq<Region>, ranges: seq<Range>, place: Key -> nat, address: nat, pointer: nat,
                               i: nat)
    requires Separate(Requests(DEFAULTS), place) && Confined(ranges) && MirrorClosed(ranges)
    requires forall a: nat :: HostByte(regions, a) == HostOf(Requests(DEFAULTS), place, a)
    requires HostAt(regions, address, pointer, i) && Clear(ranges, address, i)
    ensures (exists x: nat :: Executable(ranges, x) && HostByte(regions, x) == Some(pointer + i))
            <==> Physical(address + i) && Executable(ranges, Cached(address + i))
  {
    ClearIsNotExecutable(ranges, address + i);
    hide Executable, Confined, MirrorClosed, Separate, Clear, HostByte, HostOf;
    ReachesExecutable(ranges, place, address + i);
    if x: nat :| Executable(ranges, x) && HostByte(regions, x) == Some(pointer + i) {
      assert HostOf(Requests(DEFAULTS), place, x) == HostOf(Requests(DEFAULTS), place, address + i);
    }
    if x: nat :| && Executable(ranges, x)
                 && HostOf(Requests(DEFAULTS), place, x) == HostOf(Requests(DEFAULTS), place, address + i) {
      assert HostByte(regions, x) == Some(pointer + i);
    }
  }

  lemma ClearIsNotExecutable(ranges: seq<Range>, address: nat)
    ensures !Holds(ranges, address / EXACT, EXACT) ==> !Executable(ranges, address)
  {
    if Executable(ranges, address) {
      var k :| 0 <= k < |ranges| && Within(ranges[k], address);
      assert Touches(ranges[k], address / EXACT, EXACT);
    }
  }

  // -------------------------------------------------------------------- the mapping

  /** The views of the non-empty regions, in order. */
  function Views(requests: seq<Request>, place: Key -> nat): seq<View> {
    if requests == [] then []
    else
      var r, before := requests[|requests| - 1], Views(requests[..|requests| - 1], place);
      if r.size == 0 then before else before + [View(r.base, r.size, SectionOffset(r), place(KeyOf(r)))]
  }

  function HostIn(views: seq<View>, address: nat): Option<nat> {
    if views == [] then None
    else
      var v := views[0];
      if v.base <= address < v.base + v.size then Some(v.view + v.offset + (address - v.base))
      else HostIn(views[1..], address)
  }

  lemma {:induction false} HostInMore(views: seq<View>, v: View, address: nat)
    ensures HostIn(views + [v], address) ==
            if HostIn(views, address).Some? then HostIn(views, address) else HostIn([v], address)
  {
    if views != [] {
      assert (views + [v])[1..] == views[1..] + [v];
      HostInMore(views[1..], v, address);
    }
  }

  lemma {:induction false} PlaceMore(requests: seq<Request>, r: Request, address: nat)
    ensures Place(requests + [r], address) ==
            if Place(requests, address).Some? then Place(requests, address) else Place([r], address)
  {
    if requests != [] {
      assert (requests + [r])[1..] == requests[1..] + [r];
      PlaceMore(requests[1..], r, address);
    }
  }

  /** Scanning the views finds the host byte. */
  lemma {:induction false} ViewsAreHosts(requests: seq<Request>, place: Key -> nat, address: nat)
    ensures HostIn(Views(requests, place), address) == HostOf(requests, place, address)
    decreases |requests|
  {
    if requests != [] {
      var r, before := requests[|requests| - 1], requests[..|requests| - 1];
      ViewsAreHosts(before, place, address);
      assert requests == before + [r];
      PlaceMore(before, r, address);
      assert [r][1..] == [];
      if r.size > 0 {
        var v := View(r.base, r.size, SectionOffset(r), place(KeyOf(r)));
        assert [v][1..] == [];
        HostInMore(Views(before, place), v, address);
      }
    }
  }

  ghost predicate Aligned(requests: seq<Request>) {
    forall i | 0 <= i < |requests| :: requests[i].size > 0 ==> requests[i].base % GRANULARITY == 0
  }

  class FlatMapping {
    var initialized: bool
    var active: seq<Request>
    var sections: map<Key, Section>
    var views: seq<View>
    ghost var place: Key -> nat

    ghost predicate Valid()
      reads this
    {
      initialized ==>
        && views == Views(active, place)
        && (forall k | k in sections :: sections[k] == Section(RoundUp(Reach(active, k)), place(k)))
        && (forall i | 0 <= i < |active| && active[i].size > 0 :: KeyOf(active[i]) in sections)
    }

    constructor ()
      ensures Valid() && !initialized
    {
      initialized, active, sections, views := false, [], map[], [];
    }

    /** Sizes every section from the highest byte any of its regions reaches; None for a region that
        cannot be placed. */
    method SizeSections(requests: seq<Request>) returns (sizes: Option<map<Key, nat>>)
      ensures sizes.Some? <==> Aligned(requests)
      ensures sizes.Some? ==> forall k | k in sizes.value :: sizes.value[k] == Reach(requests, k)
      ensures sizes.Some? ==> forall i | 0 <= i < |requests| && requests[i].size > 0 ::
              KeyOf(requests[i]) in sizes.value
    {
      var table: map<Key, nat> := map[];
      for i := 0 to |requests|
        invariant Aligned(requests[..i])
        invariant forall k | k in table :: table[k] == Reach(requests[..i], k)
        invariant forall k | k !in table :: Reach(requests[..i], k) == 0
        invariant forall j | 0 <= j < i && requests[j].size > 0 :: KeyOf(requests[j]) in table
      {
        var r := requests[i];
        assert requests[..i + 1][..i] == requests[..i];
        if r.size > 0 {
          if r.base % GRANULARITY != 0 {
            return None;
          }
          var key, end := KeyOf(r), SectionOffset(r) + r.size;
          var current := if key in table then table[key] else 0;
          table := table[key := if current < end then end else current];
        }
      }
      assert requests[..|requests|] == requests;
      sizes := Some(table);
    }

    /** Maps the regions once; a second call keeps the mapping, and is refused for another layout. */
    method Initialize(requests: seq<Request>, allocate: Key -> nat) returns (ok: bool)
      requires Valid()
      modifies this
      ensures Valid()
      ensures ok <==> if old(initialized) then requests == old(active) else Aligned(requests)
      ensures ok ==> initialized && active == requests
      ensures place == if ok && !old(initialized) then allocate else old(place)
      ensures !ok || old(initialized) ==>
                && initialized == old(initialized) && active == old(active)
                && sections == old(sections) && views == old(views)
    {
      if initialized {
        ok := active == requests;
        return;
      }
      var sized := SizeSections(requests);
      if sized.None? {
        return false;
      }
      var created: map<Key, Section> := map[];
      var left := sized.value.Keys;
      while left != {}
        invariant left <= sized.value.Keys && created.Keys == sized.value.Keys - left
        invariant forall k | k in created :: created[k] == Section(RoundUp(sized.value[k]), allocate(k))
        decreases |left|
        modifies {}
      {
        var key :| key in left;
        created := created[key := Section(RoundUp(sized.value[key]), allocate(key))];
        left := left - {key};
      }
      var mapped: seq<View> := [];
      for i := 0 to |requests|
        invariant mapped == Views(requests[..i], allocate)
        modifies {}
      {
        var r := requests[i];
        assert requests[..i + 1][..i] == requests[..i];
        if r.size > 0 {
          mapped := mapped + [View(r.base, r.size, SectionOffset(r), created[KeyOf(r)].view)];
        }
      }
      assert requests[..|requests|] == requests;
      initialized, active, sections, views, place := true, requests, created, mapped, allocate;
      ok := true;
    }

    method HostPointer(address: nat) returns (pointer: Option<nat>)
      requires Valid()
      ensures pointer == if initialized then HostOf(active, place, address) else None
    {
      if !initialized {
        return None;
      }
      ViewsAreHosts(active, place, address);
      for i := 0 to |views|
        invariant HostIn(views, address) == HostIn(views[i..], address)
      {
        var v := views[i];
        if v.base <= address < v.base + v.size {
          return Some(v.view + v.offset + (address - v.base));
        }
      }
      return None;
    }
  }

  // ------------------------------------------------------------- the memory behind it all

  /** Regions fit the guest address space and do not overlap. */
  ghost predicate GuestRegions(config: seq<(nat, nat)>) {
    && (forall i | 0 <= i < |config| :: config[i].0 + config[i].1 <= SPACE)
    && (forall i, j, a: nat | 0 <= i < j < |config| :: !(Inside(config[i], a) && Inside(config[j], a)))
  }

  predicate Inside(c: (nat, nat), address: nat) {
    c.0 <= address < c.0 + c.1
  }

  /** A region as the memory keeps it: at the host byte of its first guest byte. */
  ghost predicate Backed(r: Region, request: Request, place: Key -> nat) {
    && r.base == request.base && r.size == request.size
    && (r.size > 0 ==> r.host == place(KeyOf(request)) + SectionOffset(request))
    && r.host + r.size <= WORD
  }

  lemma {:induction false} BackedBytes(regions: seq<Region>, requests: seq<Request>, place: Key -> nat, address: nat)
    requires |regions| == |requests| && forall i | 0 <= i < |regions| :: Backed(regions[i], requests[i], place)
    ensures HostByte(regions, address) == HostOf(requests, place, address)
    decreases |regions|
  {
    if regions != [] {
      assert Backed(regions[0], requests[0], place);
      BackedBytes(regions[1..], requests[1..], place, address);
    }
  }

  lemma BackedMapped(regions: seq<Region>, config: seq<(nat, nat)>, place: Key -> nat)
    requires GuestRegions(config) && |regions| == |config| && AddressableAt(Requests(config), place)
    requires forall i | 0 <= i < |regions| :: Backed(regions[i], Requests(config)[i], place)
    ensures WellMapped(regions)
  {
    var requests := Requests(config);
    forall i | 0 <= i < |regions| ensures Mappable(regions[i]) {
      assert Backed(regions[i], requests[i], place);
      if regions[i].size > 0 {
        ReachCovers(requests, i);
      }
    }
    forall i, j | 0 <= i < j < |regions| ensures Apart(regions[i], regions[j]) {
      assert Backed(regions[i], requests[i], place) && Backed(regions[j], requests[j], place);
      forall a: nat ensures !(Contains(regions[i], a) && Contains(regions[j], a)) {
        assert !(Inside(config[i], a) && Inside(config[j], a));
      }
    }
  }

  lemma BaseIsBacked(config: seq<(nat, nat)>, place: Key -> nat, i: nat)
    requires GuestRegions(config) && i < |config| && AddressableAt(Requests(config), place)
    ensures var requests, pointer := Requests(config), HostOf(Requests(config), place, config[i].0);
            Backed(Region(config[i].0, config[i].1, if pointer.Some? then pointer.value else 0), requests[i], place)
  {
    var requests := Requests(config);
    if config[i].1 > 0 {
      forall j | 0 <= j < i ensures !(requests[j].base <= config[i].0 < requests[j].base + requests[j].size) {
        assert !(Inside(config[j], config[i].0) && Inside(config[i], config[i].0));
      }
      PlaceAt(requests, i, config[i].0);
      ReachCovers(requests, i);
    } else if Place(requests, config[i].0).Some? {
      assert requests[0..] == requests;
      PlaceInReach(requests, 0, config[i].0);
    }
  }

  /** Sets up guest memory: maps the regions, unless they are mapped already, and builds the index over where
      they are. */
  method InitMemory(flat: FlatMapping, index: Index, config: seq<(nat, nat)>, allocate: Key -> nat) returns (ok: bool)
    requires flat.Valid() && index.Valid() && GuestRegions(config)
    requires AddressableAt(Requests(config), if flat.initialized then flat.place else allocate)
    modifies flat, index`regions
    modifies index.pageTable, index.fullBias, index.readBias, index.writeBias, index.sparse, index.covered
    ensures ok <==> if old(flat.initialized) then Requests(config) == old(flat.active) else Aligned(Requests(config))
    ensures ok ==> flat.Valid() && index.Valid() && flat.place == if old(flat.initialized) then old(flat.place)
            else allocate
    ensures ok ==> forall a: nat :: HostByte(index.regions, a) == HostOf(Requests(config), flat.place, a)
    ensures ok ==> |index.regions| == |config| && forall i | 0 <= i < |config| ::
                     index.regions[i].base == config[i].0 && index.regions[i].size == config[i].1
  {
    hide Place, Reach, HostByte, WellMapped, HostOf, AddressableAt;
    var requests := Requests(config);
    ok := flat.Initialize(requests, allocate);
    if !ok {
      return;
    }
    ghost var place := flat.place;
    var regions: seq<Region> := [];
    for i := 0 to |config|
      invariant |regions| == i
      invariant forall j | 0 <= j < i :: Backed(regions[j], requests[j], place)
      invariant forall j | 0 <= j < i :: regions[j].base == config[j].0 && regions[j].size == config[j].1
      modifies {}
    {
      var pointer := flat.HostPointer(config[i].0);
      BaseIsBacked(config, place, i);
      regions := regions + [Region(config[i].0, config[i].1, if pointer.Some? then pointer.value else 0)];
    }
    BackedMapped(regions, config, place);
    index.Init(regions);
    forall a: nat ensures HostByte(index.regions, a) == HostOf(requests, place, a) {
      BackedBytes(index.regions, requests, place, a);
    }
  }

  /** The Wii's own map is one such configuration. */
  lemma DefaultsFit()
    ensures GuestRegions(DEFAULTS) && Aligned(Requests(DEFAULTS))
  {
  }

  /** On the console's own map, wherever its sections are: with bytes of the cached view of the first bank
      registered as executable, the tables admit a store to the same bytes of the physical view, and it is
      those bytes that it writes. */
  method StoreThroughPhysicalView(allocate: Key -> nat, offset: nat, size: nat)
      returns (index: Index, pointer: Option<nat>)
    requires AddressableAt(Requests(DEFAULTS), allocate)
    requires size in {1, 2, 4, 8} && offset % PAGE + size <= PAGE && offset + size <= MEM1_SIZE
    ensures index.Valid() && pointer.Some?
    ensures forall i: nat | i < size :: WritesExecutable(index.regions, index.ranges, offset, pointer.value, i)
  {
    hide Place, Reach, HostByte, HostOf, AddressableAt, Index.Valid, NewlyFrom, Mirrors, GuestRegions, Aligned;
    index := new Index();
    var flat := new FlatMapping();
    DefaultsFit();
    var ok := InitMemory(flat, index, DEFAULTS, allocate);
    var start := Cached(offset);
    index.RegisterExecutableRange(start, start + size, "code");
    PhysicalIsClear(index.ranges, offset, size);
    FirstServes(index.regions, offset, size);
    pointer := index.TryWriteGuestScalar(offset, size);
    forall i: nat | i < size
      ensures WritesExecutable(index.regions, index.ranges, offset, pointer.value, i)
    {
      assert HostAt(index.regions, offset, pointer.value, i);
      CachedIsPhysical(flat.place, offset + i);
      RegisteredExecutes(index.ranges, Range(start, start + size, "code"), Cached(offset + i));
    }
  }

  /** Byte `i` of an access is the host byte of an executable byte of the cached view. */
  ghost predicate WritesExecutable(regions: seq<Region>, ranges: seq<Range>, address: nat, pointer: nat, i: nat) {
    Executable(ranges, Cached(address + i)) && HostByte(regions, Cached(address + i)) == Some(pointer + i)
  }

  lemma FirstServes(regions: seq<Region>, offset: nat, size: nat)
    requires regions != [] && regions[0].base == 0 && regions[0].size == MEM1_SIZE
    requires offset % PAGE + size <= PAGE && offset + size <= MEM1_SIZE && size > 0
    ensures Served(regions, offset, size)
  {
    assert ServedBy(regions[0], offset, size);
  }

  lemma PhysicalIsClear(ranges: seq<Range>, offset: nat, size: nat)
    requires NewlyFrom([], ranges, Cached(offset), Cached(offset) + size) && offset + size <= MEM1_SIZE
    ensures forall i: nat | i < size :: Clear(ranges, offset, i)
  {
    assert Mirrors(Cached(offset), Cached(offset) + size) == [0x8000_0000 + offset, 0xC000_0000 + offset];
    hide Mirrors;
  }

  lemma CachedIsPhysical(place: Key -> nat, offset: nat)
    requires offset < MEM1_SIZE
    ensures HostOf(Requests(DEFAULTS), place, Cached(offset)) == HostOf(Requests(DEFAULTS), place, offset)
  {
    RamIsMirrored(offset);
    hide Place;
  }

  lemma RegisteredExecutes(ranges: seq<Range>, r: Range, address: nat)
    requires r in ranges && Within(r, address)
    ensures Executable(ranges, address)
  {
  }
}
