/**
 The guest memory index: the tables that turn guest addresses into host addresses without
 walking the regions, the executable write guard, and the deferred reads.

 Every table is an array updated in place. `Valid` ties each to what it is a table of, in
 every state between the operations, and the lookups are proved against region resolution
 and the registered ranges themselves.
 */
module GuestMemory {
  import opened Common
  import opened DeferredReads
  import opened MemoryTables

  const MID := 0x1_0000
  const MIDS := 0x1_0000

  /** No registered executable byte is in the 4 KiB page of byte `i` of an access. */
  ghost predicate Clear(ranges: seq<Range>, address: nat, i: nat) {
    !Holds(ranges, (address + i) / EXACT, EXACT)
  }

  /** The tables take a load: its page has a bias, and no read is pending there. */
  ghost predicate LoadsFast(regions: seq<Region>, deferred: seq<Deferred>, address: nat) {
    BiasOf(regions, address / PAGE) != 0 && !Covered(deferred, address / PAGE)
  }

  method NewTable<T>(length: nat, entry: T) returns (table: array<T>)
    ensures fresh(table) && table.Length == length && forall i | 0 <= i < length :: table[i] == entry
  {
    table := new T[length](_ => entry);
  }

  class Index {
    var regions: seq<Region>
    const pageTable: array<Entry>
    const fullBias: array<nat>
    const readBias: array<nat>
    const writeBias: array<nat>
    const sparse: array<Option<seq<nat>>>
    const covered: array<bool>

    var ranges: seq<Range>
    var guardEnabled: bool
    const exactGuard: array<bool>
    const midGuard: array<bool>
    const coarseGuard: array<bool>

    var deferred: seq<Deferred>
    var nextToken: nat
    ghost var ledger: Ledger

    /** The arrays are apart from one another and have their sizes. */
    ghost predicate Shape() {
      && pageTable.Length == fullBias.Length == readBias.Length == writeBias.Length == PAGES
      && sparse.Length == covered.Length == coarseGuard.Length == PAGES
      && exactGuard.Length == EXACTS && midGuard.Length == MIDS
      && fullBias != readBias && fullBias != writeBias && readBias != writeBias
      && covered != coarseGuard && covered != midGuard && covered != exactGuard
      && coarseGuard != midGuard && coarseGuard != exactGuard && midGuard != exactGuard
    }

    /** The page table and the full biases are those of the regions. */
    ghost predicate Mapped()
      requires Shape()
      reads this`regions, pageTable, fullBias
    {
      && WellMapped(regions)
      && (forall p: nat | p < PAGES :: pageTable[p] == EntryOf(regions, p))
      && (forall p: nat | p < PAGES :: fullBias[p] == BiasOf(regions, p))
    }

    /** A guard byte is set exactly when a registered byte is in its page. */
    ghost predicate Guarded()
      requires Shape()
      reads this`ranges, this`guardEnabled, exactGuard, midGuard, coarseGuard
    {
      && (forall k | 0 <= k < |ranges| :: Legal(ranges[k]))
      && (guardEnabled <==> ranges != [])
      && (forall p: nat | p < EXACTS :: exactGuard[p] <==> Holds(ranges, p, EXACT))
      && (forall p: nat | p < MIDS :: midGuard[p] <==> Holds(ranges, p, MID))
      && (forall p: nat | p < PAGES :: coarseGuard[p] <==> Holds(ranges, p, PAGE))
    }

    /** A write bias of a page is its full bias, and only pages without executable bytes have one;
        a sparse table has no bias but the page's. */
    ghost predicate WriteSafe()
      requires Shape()
      reads fullBias, writeBias, sparse, coarseGuard
    {
      forall p: nat | p < PAGES :: WriteSafeAt(fullBias[p], writeBias[p], sparse[p], coarseGuard[p])
    }

    /** A 4 KiB page that a sparse table keeps from the fast stores holds a registered byte. */
    ghost predicate Open()
      requires Shape()
      reads sparse, exactGuard
    {
      forall p: nat, q: nat | p < PAGES && q < PER_PAGE :: OpenAt(p, q)
    }

    ghost predicate OpenAt(page: nat, q: nat)
      requires Shape() && page < PAGES && q < PER_PAGE
      reads sparse, exactGuard
    {
      sparse[page].Some? && q < |sparse[page].value| && sparse[page].value[q] == 0 ==> Marked(page, q)
    }

    /** The guard byte of the 4 KiB page `q` of a page is set. */
    ghost predicate Marked(page: nat, q: nat)
      requires Shape() && page < PAGES && q < PER_PAGE
      reads exactGuard
    {
      exactGuard[page * PER_PAGE + q]
    }

    /** A page is flagged exactly when a pending read overlaps it, and then has no read bias. */
    ghost predicate ReadSafe()
      requires Shape()
      reads this`deferred, fullBias, readBias, covered
    {
      && (forall k | 0 <= k < |deferred| :: LegalDeferred(deferred[k]))
      && (forall p: nat | p < PAGES :: ReadSafeAt(deferred, p, fullBias[p], readBias[p], covered[p]))
    }

    ghost predicate Valid()
      reads this`regions, this`ranges, this`guardEnabled, this`deferred
      reads pageTable, fullBias, readBias, writeBias, sparse, covered, exactGuard, midGuard, coarseGuard
    {
      Shape() && Mapped() && Guarded() && WriteSafe() && Open() && ReadSafe()
    }

    constructor ()
      ensures Valid() && Recorded() && regions == [] && ranges == [] && deferred == [] && ledger.registered == map[]
      ensures nextToken == 1
      ensures fresh(pageTable) && fresh(fullBias) && fresh(readBias) && fresh(writeBias) && fresh(sparse)
      ensures fresh(covered) && fresh(exactGuard) && fresh(midGuard) && fresh(coarseGuard)
    {
      regions, ranges, guardEnabled, deferred, nextToken := [], [], false, [], 1;
      ledger := Ledger(map[], map[], []);
      var pages := NewTable(PAGES, NO_ENTRY);
      var full := NewTable(PAGES, 0);
      var read := NewTable(PAGES, 0);
      var write := NewTable(PAGES, 0);
      var subPages := NewTable(PAGES, None);
      var flags := NewTable(PAGES, false);
      var exact := NewTable(EXACTS, false);
      var mid := NewTable(MIDS, false);
      var coarse := NewTable(PAGES, false);
      pageTable, fullBias, readBias, writeBias, sparse, covered := pages, full, read, write, subPages, flags;
      exactGuard, midGuard, coarseGuard := exact, mid, coarse;
      new;
      hide Mapped, Guarded, WriteSafe, Open, ReadSafe, LedgerFits;
      EmptyFits();
      EmptyTables();
      EmptyGuard();
    }

    lemma EmptyTables()
      requires Shape() && regions == [] && deferred == []
      requires forall p: nat | p < PAGES ::
                 && pageTable[p] == NO_ENTRY && fullBias[p] == readBias[p] == writeBias[p] == 0
                 && sparse[p] == None && !covered[p]
      ensures Mapped() && WriteSafe() && Open() && ReadSafe()
    {
      hide EntryOf, BiasOf, Covered;
      NothingMapped();
    }

    lemma EmptyGuard()
      requires Shape() && ranges == [] && !guardEnabled
      requires forall p: nat | p < EXACTS :: !exactGuard[p]
      requires forall p: nat | p < MIDS :: !midGuard[p]
      requires forall p: nat | p < PAGES :: !coarseGuard[p]
      ensures Guarded()
    {
      hide Holds;
      NothingMapped();
    }

    // ------------------------------------------------------------------- fast lookups

    /** A host pointer to `length` bytes at `address`, if the tables admit it. */
    method TryGetPointerFast(address: nat, length: nat) returns (pointer: Option<nat>)
      requires Valid() && address < SPACE
      ensures pointer.Some? ==> forall i: nat | i < length ::
                HostAt(regions, address, pointer.value, i)
      ensures Served(regions, address, length) ==> pointer.Some?
      ensures pointer.Some? ==> Addressable(regions, address, length)
      ensures length <= 8 && BiasOf(regions, address / PAGE) != 0 ==> pointer.Some?
    {
      ServedEntry(regions, address, length);
      hide WellMapped, EntryOf, BiasOf, Decode, Holds, HostAt, Clear, Covered, Pending, Served;
      var page := address / PAGE;
      if length <= 8 {
        var bias := fullBias[page];
        if bias != 0 {
          pointer := Some(Decode(bias, address));
          BiasedAccess(regions, address, length, pointer.value);
          return;
        }
      }
      var offset := address % PAGE;
      var entry := pageTable[page];
      if entry.base == 0 || offset + length > entry.limit {
        return None;
      }
      pointer := Some(entry.base + offset);
      EntryAccess(regions, address, length, pointer.value);
      EntryResolves(regions, address, length);
    }

    /** No registered executable byte is in the 4 KiB pages of an access. */
    ghost predicate Writable(address: nat, length: nat)
      reads this`ranges
    {
      forall i: nat | i < length :: Clear(ranges, address, i)
    }

    /** A host pointer to `length` bytes that may be stored to. */
    method TryGetWritablePointerFast(address: nat, length: nat) returns (pointer: Option<nat>)
      requires Valid() && address < SPACE
      ensures pointer.Some? ==> 0 < length <= MAX_SCALAR && Writable(address, length)
      ensures pointer.Some? ==> forall i: nat | i < length ::
                HostAt(regions, address, pointer.value, i)
      ensures 0 < length <= MAX_SCALAR && Served(regions, address, length) && Writable(address, length)
              ==> pointer.Some?
      ensures 0 < length <= MAX_SCALAR && (address + length - 1) / PAGE == address / PAGE ==>
                (pointer.Some? <==> StoresFast(address, length))
    {
      ServedEntry(regions, address, length);
      if 0 < length {
        WritableEnds(ranges, address, length);
      }
      assert address % PAGE / EXACT < PER_PAGE && address / PAGE * PER_PAGE + address % PAGE / EXACT == address / EXACT;
      hide WellMapped, EntryOf, BiasOf, Decode, Holds, HostAt, Clear, Covered, Pending, Served;
      if length == 0 || length > 8 || address > SPACE - 1 - (length - 1) {
        return None;
      }
      var page := address / PAGE;
      var bias := writeBias[page];
      var end := address + (length - 1);
      var first, last := address / EXACT, end / EXACT;
      if bias != 0 && end / PAGE != page && exactGuard[last] {
        return None;
      }
      pointer := None;
      if bias == 0 {
        var table := sparse[page];
        if table.Some? {
          bias := table.value[address % PAGE / EXACT];
          assert OpenAt(page, address % PAGE / EXACT);
          if bias == 0 {
            return None;
          }
        } else {
          var offset := address % PAGE;
          var entry := pageTable[page];
          if entry.base == 0 || offset + length > entry.limit {
            return None;
          }
          pointer := Some(entry.base + offset);
        }
        if exactGuard[first] || (last != first && exactGuard[last]) {
          return None;
        }
        ExactlyWritable(ranges, address, length);
        if pointer.Some? {
          EntryAccess(regions, address, length, pointer.value);
          return;
        }
      } else {
        CoarselyWritable(ranges, address, length);
      }
      pointer := Some(Decode(bias, address));
      BiasedAccess(regions, address, length, pointer.value);
    }

    /** The tables take a store: within its page, by the page's bias, or outside the marked 4 KiB pages by the
        sparse table or the page's entry. */
    ghost predicate StoresFast(address: nat, size: nat)
      requires Shape() && address < SPACE && size > 0
      reads pageTable, writeBias, sparse, exactGuard
    {
      var page, offset, last := address / PAGE, address % PAGE, address + size - 1;
      && last < SPACE && last / PAGE == page
      && (|| writeBias[page] != 0
          || (&& !exactGuard[address / EXACT] && !exactGuard[last / EXACT]
              && (if sparse[page].Some?
                  then offset / EXACT < |sparse[page].value| && sparse[page].value[offset / EXACT] != 0
                  else pageTable[page].base != 0 && offset + size <= pageTable[page].limit)))
    }

    /** The host pointer a scalar store goes to, if it may take the fast path. */
    method TryWriteGuestScalar(address: nat, size: nat) returns (pointer: Option<nat>)
      requires Valid() && address < SPACE && size in {1, 2, 4, 8}
      ensures pointer.Some? ==> Writable(address, size)
      ensures pointer.Some? ==> forall i: nat | i < size ::
                HostAt(regions, address, pointer.value, i)
      ensures Served(regions, address, size) && Writable(address, size) ==> pointer.Some?
      ensures pointer.Some? <==> StoresFast(address, size)
    {
      ServedWithin(regions, address, size);
      hide WellMapped, EntryOf, BiasOf, Decode, Holds, HostAt, Clear, Covered, Pending, Served;
      if address > SPACE - 1 - (size - 1) {
        return None;
      }
      var page := address / PAGE;
      var end := address + (size - 1);
      if end / PAGE != page {
        return None;
      }
      var bias := writeBias[page];
      if bias != 0 {
        pointer := Some(Decode(bias, address));
        CoarselyWritable(ranges, address, size);
        BiasedAccess(regions, address, size, pointer.value);
      } else {
        pointer := TryGetWritablePointerFast(address, size);
      }
    }

    /** The host pointer a scalar load comes from, if it may take the fast path. */
    method TryReadGuestScalar(address: nat, size: nat) returns (pointer: Option<nat>)
      requires Valid() && address < SPACE && size in {1, 2, 4, 8}
      ensures pointer.Some? ==> forall i: nat | i < size ::
                HostAt(regions, address, pointer.value, i)
      ensures pointer.Some? && (address + size - 1) / PAGE == address / PAGE ==> !Pending(deferred, address, size)
      ensures pointer.Some? <==> BiasOf(regions, address / PAGE) != 0 && !Covered(deferred, address / PAGE)
    {
      hide WellMapped, EntryOf, BiasOf, Decode, Holds, HostAt, Clear, Covered, Pending;
      var page := address / PAGE;
      var bias := readBias[page];
      if bias == 0 {
        return None;
      }
      pointer := Some(Decode(bias, address));
      assert !covered[page] && bias == fullBias[page];
      BiasedAccess(regions, address, size, pointer.value);
      if (address + size - 1) / PAGE == page {
        UncoveredAccess(deferred, page, address, size);
      }
    }

    // ------------------------------------------------------------- building the tables

    method ClearPageTable()
      requires Shape()
      modifies pageTable, fullBias, readBias, writeBias, sparse, covered
      ensures forall p: nat | p < PAGES :: pageTable[p] == NO_ENTRY && fullBias[p] == 0 && readBias[p] == 0
      ensures forall p: nat | p < PAGES :: writeBias[p] == 0 && sparse[p] == None && !covered[p]
    {
      for i := 0 to PAGES
        invariant forall p: nat | p < i :: pageTable[p] == NO_ENTRY && fullBias[p] == 0 && readBias[p] == 0
        invariant forall p: nat | p < i :: writeBias[p] == 0 && sparse[p] == None && !covered[p]
      {
        pageTable[i] := NO_ENTRY;
        fullBias[i] := 0;
        readBias[i] := 0;
        writeBias[i] := 0;
        covered[i] := false;
        sparse[i] := None;
      }
    }

    /** Enters one region into the page table, behind the regions already there. */
    method EnterRegion(r: Region, ghost done: seq<Region>)
      requires Shape() && Mappable(r)
      requires forall p: nat | p < PAGES :: pageTable[p] == EntryOf(done, p)
      modifies pageTable
      ensures forall p: nat | p < PAGES :: pageTable[p] == EntryOf(done + [r], p)
    {
      if r.size == 0 {
        forall p: nat | p < PAGES ensures EntryOf(done + [r], p) == EntryOf(done, p) {
          EntryOfMore(done, r, p);
        }
        return;
      }
      var end := r.base + r.size;
      var first, last := r.base / PAGE, (end - 1) / PAGE;
      for page := first to last + 1
        invariant forall p: nat | p < PAGES ::
                    pageTable[p] == if first <= p < page then EntryFrom(r, p, EntryOf(done, p)) else EntryOf(done, p)
      {
        var offset := Wrap(page * PAGE - r.base);
        OffsetInRegion(r, page);
        if offset < r.size {
          pageTable[page] := Entry(r.host + offset, Min(PAGE, r.size - offset));
        }
      }
      forall p: nat | p < PAGES ensures pageTable[p] == EntryOf(done + [r], p) {
        EntryOfMore(done, r, p);
      }
    }

    method BuildPageTable()
      requires Shape() && WellMapped(regions)
      requires forall p: nat | p < PAGES :: pageTable[p] == NO_ENTRY && fullBias[p] == 0
      modifies pageTable, fullBias
      ensures Mapped()
    {
      for i := 0 to |regions|
        invariant forall p: nat | p < PAGES :: pageTable[p] == EntryOf(regions[..i], p)
        invariant forall p: nat | p < PAGES :: fullBias[p] == 0
      {
        EnterRegion(regions[i], regions[..i]);
        assert regions[..i] + [regions[i]] == regions[..i + 1];
      }
      assert regions[..|regions|] == regions;
      for page := 0 to PAGES - 1
        invariant forall p: nat | p < PAGES :: pageTable[p] == EntryOf(regions, p)
        invariant forall p: nat | p < PAGES :: fullBias[p] == if p < page then BiasOf(regions, p) else 0
      {
        hide EntryOf, WellMapped;
        var current, next := pageTable[page], pageTable[page + 1];
        if Continues(current, next) {
          fullBias[page] := Encode(current.base, page);
        }
      }
    }

    /** A page has both 4 KiB pages with registered bytes and without. */
    ghost predicate Mixed(page: nat)
      requires Shape() && page < PAGES
      reads exactGuard
    {
      && (exists q: nat :: q < PER_PAGE && Marked(page, q))
      && (exists q: nat :: q < PER_PAGE && !Marked(page, q))
    }

    /** Recomputes what the accesses of one page may take without looking further. */
    method RefreshPage(page: nat)
      requires Shape() && page < PAGES
      modifies readBias, writeBias, sparse, covered
      ensures readBias[page] == fullBias[page] && !covered[page]
      ensures WriteSafeAt(fullBias[page], writeBias[page], sparse[page], coarseGuard[page])
      ensures writeBias[page] == (if coarseGuard[page] then 0 else fullBias[page])
      ensures sparse[page].Some? ==> forall q | 0 <= q < PER_PAGE ::
                sparse[page].value[q] == if exactGuard[page * PER_PAGE + q] then 0 else fullBias[page]
      ensures sparse[page].Some? <==> coarseGuard[page] && fullBias[page] != 0 && Mixed(page)
      ensures forall q: nat | q < PER_PAGE :: OpenAt(page, q)
      ensures forall p: nat | p < PAGES && p != page ::
                && readBias[p] == old(readBias[p]) && writeBias[p] == old(writeBias[p])
                && sparse[p] == old(sparse[p]) && covered[p] == old(covered[p])
    {
      var bias := fullBias[page];
      readBias[page] := bias;
      covered[page] := false;
      sparse[page] := None;
      var coarse := coarseGuard[page];
      writeBias[page] := if coarse then 0 else bias;
      if !coarse || bias == 0 {
        return;
      }
      var table: seq<nat> := [];
      var anyExecutable, anyWritable := false, false;
      var first := page * PER_PAGE;
      for q := 0 to PER_PAGE
        invariant |table| == q
        invariant forall k | 0 <= k < q :: table[k] == if exactGuard[first + k] then 0 else bias
        invariant anyExecutable <==> exists k: nat :: k < q && Marked(page, k)
        invariant anyWritable <==> exists k: nat :: k < q && !Marked(page, k)
      {
        var executable := exactGuard[first + q];
        assert executable <==> Marked(page, q);
        anyExecutable := anyExecutable || executable;
        anyWritable := anyWritable || !executable;
        table := table + [if executable then 0 else bias];
      }
      if anyExecutable && anyWritable {
        sparse[page] := Some(table);
      }
    }

    /** Recomputes the fast path tables from the full biases, the guard and the pending reads. */
    method RefreshFastPathTables()
      requires Shape() && Mapped() && Guarded() && forall k | 0 <= k < |deferred| :: LegalDeferred(deferred[k])
      modifies readBias, writeBias, sparse, covered
      ensures Valid()
      ensures forall p: nat | p < PAGES :: writeBias[p] == if coarseGuard[p] then 0 else fullBias[p]
    {
      hide WellMapped, EntryOf, BiasOf, Holds, WriteSafeAt;
      for page := 0 to PAGES
        invariant forall p: nat | p < page ::
                    && readBias[p] == fullBias[p] && !covered[p]
                    && WriteSafeAt(fullBias[p], writeBias[p], sparse[p], coarseGuard[p])
                    && writeBias[p] == (if coarseGuard[p] then 0 else fullBias[p])
        invariant forall p: nat, q: nat | p < page && q < PER_PAGE :: OpenAt(p, q)
      {
        label Before: RefreshPage(page);
        forall p: nat, q: nat | p < page && q < PER_PAGE ensures OpenAt(p, q) {
          assert old@Before(OpenAt(p, q));
        }
      }
      CoverNone();
      for i := 0 to |deferred|
        invariant ReadSafeFor(deferred[..i]) && WriteSafe() && Open()
        invariant forall p: nat | p < PAGES :: writeBias[p] == if coarseGuard[p] then 0 else fullBias[p]
      {
        CoverPages(deferred[..i], deferred[i]);
        assert deferred[..i] + [deferred[i]] == deferred[..i + 1];
      }
      assert deferred[..|deferred|] == deferred;
    }

    /** The read tables are those of the pending reads `ds`. */
    ghost predicate ReadSafeFor(ds: seq<Deferred>)
      requires Shape()
      reads fullBias, readBias, covered
    {
      forall p: nat | p < PAGES :: ReadSafeAt(ds, p, fullBias[p], readBias[p], covered[p])
    }

    lemma CoverNone()
      requires Shape() && forall p: nat | p < PAGES :: readBias[p] == fullBias[p] && !covered[p]
      ensures ReadSafeFor([])
    {
    }

    /** Flags the pages of one more pending read. */
    method CoverPages(ghost ds: seq<Deferred>, d: Deferred)
      requires Shape() && LegalDeferred(d) && ReadSafeFor(ds)
      modifies readBias, covered
      ensures ReadSafeFor(ds + [d])
    {
      var first, last := d.start / PAGE, (d.start + d.length - 1) / PAGE;
      for page := first to last + 1
        invariant forall p: nat | p < PAGES && !(first <= p < page) ::
                    readBias[p] == old(readBias[p]) && covered[p] == old(covered[p])
        invariant forall p: nat | first <= p < page :: readBias[p] == 0 && covered[p]
      {
        readBias[page] := 0;
        covered[page] := true;
      }
      forall p: nat | p < PAGES ensures ReadSafeAt(ds + [d], p, fullBias[p], readBias[p], covered[p]) {
        CoveredByMore(ds, d, p);
      }
    }

    method Init(config: seq<Region>)
      requires Valid() && WellMapped(config)
      modifies this`regions, pageTable, fullBias, readBias, writeBias, sparse, covered
      ensures Valid() && regions == config
    {
      hide WellMapped, EntryOf, BiasOf, Holds;
      regions := [];
      ClearPageTable();
      regions := config;
      BuildPageTable();
      RefreshFastPathTables();
    }

    method Reset()
      requires Valid() && Recorded()
      modifies this`regions, this`deferred, this`ledger, pageTable, fullBias, readBias, writeBias, sparse, covered
      ensures Valid() && Recorded() && regions == [] && deferred == []
      ensures ledger == Set(old(ledger), Tokens(old(deferred)), CLEARED)
    {
      hide LedgerFits, Set, Tokens, Guarded, WellMapped, EntryOf, BiasOf, Covered;
      ClearDeferredReads();
      regions := [];
      ClearPageTable();
      EmptyTables();
    }

    // ------------------------------------------------------------- the executable guard

    /** Sets the bytes of a guard array from `first` to `last`. */
    method MarkPages(guard: array<bool>, first: nat, last: nat)
      requires last < guard.Length
      modifies guard
      ensures forall p: nat | p < guard.Length :: guard[p] <==> old(guard[p]) || first <= p <= last
    {
      if first <= last {
        for page := first to last + 1
          invariant forall p: nat | p < guard.Length :: guard[p] <==> old(guard[p]) || first <= p < page
        {
          guard[page] := true;
        }
      }
    }

    method ClearWriteBiases(first: nat, last: nat)
      requires Shape() && first <= last < PAGES
      modifies writeBias
      ensures forall p: nat | p < PAGES :: writeBias[p] == if first <= p <= last then 0 else old(writeBias[p])
    {
      for page := first to last + 1
        invariant forall p: nat | p < PAGES :: writeBias[p] == if first <= p < page then 0 else old(writeBias[p])
      {
        writeBias[page] := 0;
      }
    }

    /** Marks the pages of a range on all three levels; the coarse ones lose their write bias. */
    method MarkExecutableGuardPages(r: Range)
      requires Shape() && Legal(r)
      modifies exactGuard, midGuard, coarseGuard, writeBias
      ensures forall p: nat | p < EXACTS :: exactGuard[p] <==> old(exactGuard[p]) || Touches(r, p, EXACT)
      ensures forall p: nat | p < MIDS :: midGuard[p] <==> old(midGuard[p]) || Touches(r, p, MID)
      ensures forall p: nat | p < PAGES :: coarseGuard[p] <==> old(coarseGuard[p]) || Touches(r, p, PAGE)
      ensures forall p: nat | p < PAGES :: writeBias[p] == if Touches(r, p, PAGE) then 0 else old(writeBias[p])
      ensures old(Open()) ==> Open()
    {
      MarkPages(exactGuard, r.start / EXACT, (r.end - 1) / EXACT);
      MarkPages(coarseGuard, r.start / PAGE, (r.end - 1) / PAGE);
      ClearWriteBiases(r.start / PAGE, (r.end - 1) / PAGE);
      MarkPages(midGuard, r.start / MID, (r.end - 1) / MID);
      AllTouchedPages(r, EXACT);
      AllTouchedPages(r, MID);
      AllTouchedPages(r, PAGE);
      hide Touches;
      assert forall p: nat, q: nat | p < PAGES && q < PER_PAGE && old(OpenAt(p, q)) :: OpenAt(p, q);
    }

    /** Registers a range; the fast store paths are safe as soon as it is marked. */
    method AddExecutableRange(start: nat, end: nat, name: string)
      requires Valid() && end < SPACE
      modifies this`ranges, this`guardEnabled, exactGuard, midGuard, coarseGuard, writeBias
      ensures Valid()
      ensures end <= start ==> ranges == old(ranges)
      ensures end > start ==> Range(start, end, name) in ranges
      ensures ranges == old(ranges) || ranges == old(ranges) + [Range(start, end, name)]
    {
      var r := Range(start, end, name);
      if end <= start || r in ranges {
        return;
      }
      ghost var before := ranges;
      hide WellMapped, EntryOf, BiasOf, Covered, Holds, Touches;
      ranges := ranges + [r];
      MarkExecutableGuardPages(r);
      guardEnabled := true;
      HoldsMoreAll(before, r, EXACT);
      HoldsMoreAll(before, r, MID);
      HoldsMoreAll(before, r, PAGE);
    }

    /** Registers a range and, for a range in RAM, both of its mirrors the game runs through. */
    method RegisterExecutableRange(start: nat, end: nat, name: string)
      requires Valid() && start < SPACE && end < SPACE
      modifies this`ranges, this`guardEnabled, exactGuard, midGuard, coarseGuard
      modifies readBias, writeBias, sparse, covered
      ensures Valid()
      ensures old(ranges) <= ranges && (end <= start ==> ranges == old(ranges))
      ensures start < end ==> Range(start, end, name) in ranges && NewlyFrom(old(ranges), ranges, start, end)
      ensures start < end ==> forall view | view in Mirrors(start, end) :: Registered(ranges, view, end - start)
      ensures old(MirrorClosed(ranges)) ==> MirrorClosed(ranges)
      ensures start < end ==> forall p: nat | p < PAGES :: writeBias[p] == if coarseGuard[p] then 0 else fullBias[p]
    {
      if end <= start {
        return;
      }
      hide Valid, Mapped, Guarded, WriteSafe, ReadSafe, Mirrors, NewlyFrom, MirrorClosed;
      AddWithMirrors(start, end, name);
      if MirrorClosed(old(ranges)) {
        StillClosed(old(ranges), ranges, start, end);
      }
      RefreshKept();
      RefreshFastPathTables();
    }

    /** Registers a range and its mirrors. */
    method AddWithMirrors(start: nat, end: nat, name: string)
      requires Valid() && start < end < SPACE
      modifies this`ranges, this`guardEnabled, exactGuard, midGuard, coarseGuard, writeBias
      ensures Valid()
      ensures old(ranges) <= ranges && Range(start, end, name) in ranges && NewlyFrom(old(ranges), ranges, start, end)
      ensures forall view | view in Mirrors(start, end) :: Registered(ranges, view, end - start)
    {
      hide Valid, Mirrors, Registered;
      AddExecutableRange(start, end, name);
      var views := Mirrors(start, end);
      MirrorsFit(start, end);
      for i := 0 to |views|
        invariant Valid() && old(ranges) <= ranges && Range(start, end, name) in ranges
        invariant forall k | 0 <= k < i :: Registered(ranges, views[k], end - start)
        invariant NewlyFrom(old(ranges), ranges, start, end)
      {
        ghost var before := ranges;
        assert views[i] in views;
        AddExecutableRange(views[i], views[i] + (end - start), name + MirrorTag(views[i]));
        AddedRegistered(ranges, views[i], end - start, name + MirrorTag(views[i]));
        KeptRegistered(before, ranges);
      }
    }

    lemma RefreshKept()
      requires Valid()
      ensures Shape() && Mapped() && Guarded() && forall k | 0 <= k < |deferred| :: LegalDeferred(deferred[k])
    {
    }

    /** Whether a page from `first` to `last` is marked. */
    method AnyMarked(guard: array<bool>, first: nat, last: nat) returns (hit: bool)
      requires last < guard.Length
      ensures hit <==> exists p: nat :: first <= p <= last && guard[p]
    {
      if first > last {
        return false;
      }
      for page := first to last + 1
        invariant forall p: nat | first <= p < page :: !guard[p]
      {
        if guard[page] {
          return true;
        }
      }
      return false;
    }

    /** The three level filter: exactly whether a marked 4 KiB page is in the access. */
    method ExecutableWriteGuardMayHit(address: nat, length: nat) returns (hit: bool)
      requires Valid() && address < SPACE
      ensures hit <==> length > 0 && exists p: nat :: InAccess(address, length, p) && exactGuard[p]
    {
      hide Mapped, WriteSafe, ReadSafe, Holds;
      if length == 0 || !guardEnabled {
        NothingHeld(ranges);
        return false;
      }
      var end := address + length;
      var lastCoarse := (end - 1) / PAGE;
      lastCoarse := if lastCoarse >= PAGES then PAGES - 1 else lastCoarse;
      LevelsAgree(ranges, address, length);
      var coarseHit := AnyMarked(coarseGuard, address / PAGE, lastCoarse);
      if !coarseHit {
        return false;
      }
      var lastMid := (end - 1) / MID;
      lastMid := if lastMid >= MIDS then MIDS - 1 else lastMid;
      var midHit := AnyMarked(midGuard, address / MID, lastMid);
      if !midHit {
        return false;
      }
      var last := (end - 1) / EXACT;
      last := if last >= EXACTS then EXACTS - 1 else last;
      hit := AnyMarked(exactGuard, address / EXACT, last);
    }

    /** The first registered range an access intersects. */
    method FindExecutableRange(address: nat, length: nat) returns (r: Option<Range>)
      ensures r == FirstHit(ranges, address, length)
    {
      for i := 0 to |ranges|
        invariant FirstHit(ranges, address, length) == FirstHit(ranges[i..], address, length)
      {
        if Intersects(address, length, ranges[i]) {
          return Some(ranges[i]);
        }
      }
      return None;
    }

    /** The range a store is forbidden to write, if any; `loading` says which ranges the store may
        write because the game is loading them. The filter in front never changes the answer. */
    method HandleExecutableWrite(address: nat, length: nat, loading: Range -> bool) returns (forbidden: Option<Range>)
      requires Valid() && address < SPACE
      ensures forbidden == match FirstHit(ranges, address, length)
                           case None => None
                           case Some(r) => if length > 0 && !loading(r) then Some(r) else None
    {
      hide Mapped, WriteSafe, ReadSafe, Holds;
      var mayHit := ExecutableWriteGuardMayHit(address, length);
      if !mayHit {
        if FirstHit(ranges, address, length).Some? && length > 0 {
          HitIsHeld(ranges, address, length);
        }
        return None;
      }
      var hit := FindExecutableRange(address, length);
      if hit.None? || loading(hit.value) {
        return None;
      }
      return hit;
    }

    // --------------------------------------------------------------- deferred reads

    /** Recomputes the read tables of one page. */
    method RefreshDeferredReadPage(page: nat)
      requires Shape() && page < PAGES
      modifies readBias, covered
      ensures ReadSafeAt(deferred, page, fullBias[page], readBias[page], covered[page])
      ensures forall p: nat | p < PAGES && p != page ::
                readBias[p] == old(readBias[p]) && covered[p] == old(covered[p])
    {
      var any := false;
      for i := 0 to |deferred|
        invariant any <==> Covered(deferred[..i], page)
        modifies {}
      {
        CoveredByOneMore(deferred, i, page);
        any := any || Overlaps(page * PAGE, PAGE, deferred[i]);
      }
      assert deferred[..|deferred|] == deferred;
      readBias[page] := if any then 0 else fullBias[page];
      covered[page] := any;
    }

    /** Registers a pending read; 0 when it is refused. */
    method RegisterDeferredRead(address: nat, length: nat, callback: Option<Work>) returns (token: nat)
      requires Valid() && Recorded() && address < SPACE
      modifies this`deferred, this`nextToken, this`ledger, readBias, covered
      ensures Valid() && Recorded()
      ensures token == 0 <==> length == 0 || callback.None? || address + length > SPACE
      ensures token == 0 ==> deferred == old(deferred) && ledger == old(ledger) && nextToken == old(nextToken)
      ensures token != 0 ==>
                && token == old(nextToken) && nextToken == token + 1
                && var d := Deferred(token, address, length, callback.value);
                   deferred == old(deferred) + [d] && ledger == Register(old(ledger), d)
    {
      if length == 0 || callback.None? || address + length > SPACE {
        return 0;
      }
      hide Valid, LedgerFits, Register;
      TokenIsNew(deferred, nextToken, ledger);
      token := nextToken;
      Enlist(Deferred(token, address, length, callback.value));
    }

    /** Puts a new read on the list and in the ledger. */
    method Enlist(d: Deferred)
      requires Valid() && Recorded() && LegalDeferred(d) && d.token == nextToken
      modifies this`deferred, this`nextToken, this`ledger, readBias, covered
      ensures Valid() && Recorded() && nextToken == old(nextToken) + 1
      ensures deferred == old(deferred) + [d] && ledger == Register(old(ledger), d)
    {
      hide Valid, LedgerFits, Register;
      RegisterFits(deferred, nextToken, ledger, d);
      Append(d);
      nextToken := nextToken + 1;
      ledger := Register(ledger, d);
    }

    /** Puts a read on the list, and flags its pages. */
    method Append(d: Deferred)
      requires Valid() && LegalDeferred(d)
      modifies this`deferred, readBias, covered
      ensures Valid() && deferred == old(deferred) + [d]
    {
      hide Mapped, Guarded, WriteSafeAt, ReadSafeAt;
      ghost var before := deferred;
      assert ReadSafeFor(before);
      deferred := deferred + [d];
      CoverPages(before, d);
      assert WriteSafe();
    }

    /** Splits the pending reads by whether an access overlaps them, with the pages of those it does. */
    method Split(address: nat, length: nat) returns (kept: seq<Deferred>, matches: seq<Deferred>, pages: seq<nat>)
      requires forall k | 0 <= k < |deferred| :: LegalDeferred(deferred[k])
      ensures kept == Kept(deferred, address, length) && matches == Matched(deferred, address, length)
      ensures forall p | p in pages :: p < PAGES
      ensures forall p: nat | p < PAGES && p !in pages :: !Covered(matches, p)
    {
      kept, matches, pages := [], [], [];
      for i := 0 to |deferred|
        invariant kept == Kept(deferred[..i], address, length)
        invariant matches == Matched(deferred[..i], address, length)
        invariant forall p | p in pages :: p < PAGES
        invariant forall p: nat | p < PAGES && p !in pages :: !Covered(matches, p)
      {
        var d := deferred[i];
        assert deferred[..i + 1][..i] == deferred[..i];
        if Overlaps(address, length, d) {
          var more := PagesOf(d);
          UncoveredByOneMore(matches, d, pages, more);
          matches := matches + [d];
          pages := pages + more;
        } else {
          kept := kept + [d];
        }
      }
      assert deferred[..|deferred|] == deferred;
    }

    /** Takes the pending reads an access overlaps off the list, and recomputes their pages. */
    method TakeOverlapping(address: nat, length: nat) returns (matches: seq<Deferred>)
      requires Valid() && Recorded()
      modifies this`deferred, this`ledger, readBias, covered
      ensures Valid() && Recorded() && ledger == Set(old(ledger), Tokens(matches), IN_FLIGHT)
      ensures deferred == Kept(old(deferred), address, length)
      ensures matches == Matched(old(deferred), address, length)
    {
      hide Valid, LedgerFits, Kept, Matched, Set, Tokens;
      LegalReads();
      var kept, taken, pages := Split(address, length);
      matches := taken;
      KeptAndMatched(deferred, address, length);
      TakeFits(deferred, nextToken, ledger, address, length);
      Drop(kept, matches, pages);
      ledger := Set(ledger, Tokens(matches), IN_FLIGHT);
    }

    lemma LegalReads()
      requires Valid()
      ensures forall k | 0 <= k < |deferred| :: LegalDeferred(deferred[k])
    {
    }

    /** Takes reads off the list, and recomputes their pages. */
    method Drop(kept: seq<Deferred>, ghost gone: seq<Deferred>, pages: seq<nat>)
      requires Valid() && (forall p | p in pages :: p < PAGES)
      requires forall p: nat | p < PAGES && p !in pages :: !Covered(gone, p)
      requires forall d | d in deferred :: d in kept || d in gone
      requires forall d | d in kept :: d in deferred
      modifies this`deferred, readBias, covered
      ensures Valid() && deferred == kept
    {
      UnaffectedPages(deferred, kept, gone, pages);
      forall k | 0 <= k < |kept| ensures LegalDeferred(kept[k]) {
        assert kept[k] in deferred;
      }
      hide Covered, WellMapped, EntryOf, BiasOf, Holds, WriteSafeAt, ReadSafeAt;
      deferred := kept;
      RefreshPages(pages);
    }

    /** Drops every pending read. */
    method ClearDeferredReads()
      requires Valid() && Recorded()
      modifies this`deferred, this`ledger, readBias, covered
      ensures Valid() && Recorded() && deferred == []
      ensures ledger == Set(old(ledger), Tokens(old(deferred)), CLEARED)
    {
      hide Valid, LedgerFits, Set, Tokens;
      LegalReads();
      var pages: seq<nat> := [];
      for i := 0 to |deferred|
        invariant forall p | p in pages :: p < PAGES
        invariant forall p: nat | p < PAGES && p !in pages :: !Covered(deferred[..i], p)
        modifies {}
      {
        assert deferred[..i] + [deferred[i]] == deferred[..i + 1];
        var more := PagesOf(deferred[i]);
        UncoveredByOneMore(deferred[..i], deferred[i], pages, more);
        pages := pages + more;
      }
      assert deferred[..|deferred|] == deferred;
      ClearFits(deferred, nextToken, ledger);
      ledger := Set(ledger, Tokens(deferred), CLEARED);
      Drop([], deferred, pages);
    }

    /** Recomputes the read tables of some pages, when those of all others are right. */
    method RefreshPages(pages: seq<nat>)
      requires Shape() && forall p | p in pages :: p < PAGES
      requires Mapped() && Guarded() && WriteSafe() && Open() && forall k | 0 <= k < |deferred| ::
               LegalDeferred(deferred[k])
      requires forall p: nat | p < PAGES && p !in pages ::
                 ReadSafeAt(deferred, p, fullBias[p], readBias[p], covered[p])
      modifies readBias, covered
      ensures Valid()
    {
      hide WellMapped, EntryOf, BiasOf, Holds, WriteSafeAt, ReadSafeAt;
      for i := 0 to |pages|
        invariant forall p: nat | p < PAGES && p !in pages[i..] ::
                    ReadSafeAt(deferred, p, fullBias[p], readBias[p], covered[p])
        invariant WriteSafe()
      {
        assert pages[i] in pages;
        RefreshDeferredReadPage(pages[i]);
        assert pages[i..] == [pages[i]] + pages[i + 1..];
      }
    }

    /** A table that was right for the pending reads stays right, on the pages that lose none. */
    lemma UnaffectedPages(before: seq<Deferred>, after: seq<Deferred>, gone: seq<Deferred>, pages: seq<nat>)
      requires Shape() && ReadSafeFor(before)
      requires forall p: nat | p < PAGES && p !in pages :: !Covered(gone, p)
      requires forall d | d in before :: d in after || d in gone
      requires forall d | d in after :: d in before
      ensures forall p: nat | p < PAGES && p !in pages ::
                ReadSafeAt(after, p, fullBias[p], readBias[p], covered[p])
    {
      forall p: nat | p < PAGES && p !in pages
        ensures ReadSafeAt(after, p, fullBias[p], readBias[p], covered[p])
      {
        CoveredUnion(before, after, gone, p);
        assert ReadSafeAt(before, p, fullBias[p], readBias[p], covered[p]);
      }
    }

    // ------------------------------------------------------------- running the callbacks

    /** Every read ever registered is in the ledger, as what it is. */
    ghost predicate Recorded()
      reads this`deferred, this`nextToken, this`ledger
    {
      LedgerFits(deferred, nextToken, ledger)
    }

    /** What is pending and what is in flight: each callback leaves less of it. */
    ghost function Measure(): nat
      reads this`deferred, this`ledger
    {
      |deferred| + |InFlight(ledger)|
    }

    /** Runs the callback of a read that was taken off the list: its loads, and what those make run. A load
        that is a violation ends it as a failure. */
    method RunCallback(d: Deferred) returns (ok: bool, ghost answers: seq<Answer>)
      requires Valid() && Recorded() && d.token in ledger.status && ledger.status[d.token] == IN_FLIGHT
      requires d.token in ledger.registered && ledger.registered[d.token] == d
      modifies this`deferred, this`ledger, readBias, covered
      ensures Valid() && Recorded() && CallbackRuns(d, old(deferred), old(ledger), deferred, ledger, ok)
      ensures TakesTurn(regions, d, old(deferred), old(ledger), Turn(answers, ok, deferred, ledger))
      ensures Faults(regions, old(ledger), ledger, !ok)
      decreases Measure(), 0
    {
      ghost var l, ds, first := ledger, deferred, nextToken;
      hide Valid, LedgerFits, Running, Settled, Begun, Ended, InFlight, CallbackRuns;
      hide TakesTurn, Underway, Faults, Faulty, NoViolation, Once;
      KeysAgree(ds, first, l);
      RunningBegins(d, ds, first, l);
      AnswersBegin(regions, d, ds, l);
      ledger := Begun(ledger, d.token);
      RunningLess(d, ds, l, deferred, ledger);
      ok, answers := MakeLoads(d, ds, l);
      ok := ok && d.work.succeeds;
      RunningEnds(d, ds, nextToken, l, deferred, ledger, ok);
      TurnEnds(regions, d, ds, l, answers, deferred, ledger, ok);
      EndedFaults(regions, d, ds, first, l, deferred, ledger, ok);
      ledger := Ended(ledger, d.token, ok);
    }

    /** Makes the loads of a callback that was begun in the state `ds` and `l`, up to the first violation. */
    method MakeLoads(d: Deferred, ghost ds: seq<Deferred>, ghost l: Ledger)
        returns (ok: bool, ghost answers: seq<Answer>)
      requires Valid() && Recorded() && Running(d, ds, l, deferred, ledger)
      requires Underway(regions, d.work.loads, ds, Begun(l, d.token), [], deferred, ledger)
      requires NoViolation([]) && Faults(regions, Begun(l, d.token), ledger, false)
      modifies this`deferred, this`ledger, readBias, covered
      ensures Valid() && Recorded() && Running(d, ds, l, deferred, ledger)
      ensures Underway(regions, d.work.loads, ds, Begun(l, d.token), answers, deferred, ledger)
      ensures (ok <==> NoViolation(answers)) && (ok ==> |answers| == |d.work.loads|) && (d.work.loads == [] ==> ok)
      ensures if ok then Faults(regions, Begun(l, d.token), ledger, false)
              else Faulty(regions, d.work) || Faults(regions, Begun(l, d.token), ledger, true)
      decreases |ds| + |InFlight(l)| - 1, 4
    {
      ghost var begun := Begun(l, d.token);
      hide Valid, LedgerFits, Running, Settled, Begun, InFlight, Underway, Faults, Faulty, NoViolation, AnswerTo;
      hide SomeFailed, Produced, Resolves, Once, Covered, BiasOf, HostAt;
      answers := [];
      for i := 0 to |d.work.loads|
        invariant Valid() && Recorded() && Running(d, ds, l, deferred, ledger)
        invariant Underway(regions, d.work.loads, ds, begun, answers, deferred, ledger)
        invariant |answers| == i && NoViolation(answers) && Faults(regions, begun, ledger, false)
      {
        ghost var before, list := ledger, deferred;
        RunningLess(d, ds, l, deferred, ledger);
        var access, _ := CheckedRead(d.work.loads[i].address, d.work.loads[i].size);
        ghost var a := Answer(access, deferred, ledger);
        RunningLoads(d, ds, l, list, before, deferred, ledger);
        LoadFaults(regions, d.work, i, list, begun, before, a);
        UnderwayMore(regions, d.work.loads, ds, begun, answers, list, before, a);
        answers := answers + [a];
        if access.Violation? {
          return false, answers;
        }
      }
      return true, answers;
    }

    /** Runs the callbacks of reads in flight, in order, up to the first that fails: the later ones are lost. */
    method RunCallbacks(matches: seq<Deferred>) returns (ok: bool, ghost n: nat, ghost turns: seq<Turn>)
      requires Valid() && Recorded() && DistinctTokens(matches) && Progress(matches, 0, ledger)
      modifies this`deferred, this`ledger, readBias, covered
      ensures Valid() && Recorded() && ResolveRuns(matches, n, old(deferred), old(ledger), deferred, ledger)
      ensures ok <==> n == |matches|
      ensures TakeTurns(regions, matches, old(deferred), old(ledger), turns)
      ensures TurnsOver(matches, old(deferred), old(ledger), turns, deferred, ledger, n)
      ensures Faults(regions, old(ledger), ledger, !ok)
      decreases Measure(), 1
    {
      ghost var l, ds := ledger, deferred;
      hide Valid, LedgerFits, Midway, Progress, InFlight, DistinctTokens, CallbackRuns, ResolveRuns, Tokens, Set;
      hide TakesTurn, TakeTurns, Faults, AllOk;
      MidwayBegins(matches, ds, nextToken, l);
      KeysAgree(ds, nextToken, l);
      TurnsBegin(regions, matches, ds, l);
      turns := [];
      for i := 0 to |matches|
        invariant Valid() && Recorded() && Midway(matches, i, ds, l, deferred, ledger)
        invariant TakeTurns(regions, matches, ds, l, turns) && |turns| == i && AllOk(turns)
        invariant Standing(ds, l, turns, i) == (deferred, ledger) && Faults(regions, l, ledger, false)
      {
        ghost var before, list := ledger, deferred;
        MidwayHas(matches, i, ds, l, deferred, ledger);
        ghost var answers;
        ok, answers := RunCallback(matches[i]);
        ghost var turn := Turn(answers, ok, deferred, ledger);
        TurnsMore(regions, matches, ds, l, turns, list, before, turn);
        FaultsOn(regions, l, before, ledger, !ok);
        turns := turns + [turn];
        MidwayNext(matches, i, ds, l, list, nextToken, before, deferred, ledger, ok);
        if !ok {
          LostFaults(regions, l, ledger, Tokens(matches[i + 1..]));
          ledger := Set(ledger, Tokens(matches[i + 1..]), LOST);
          return false, i, turns;
        }
      }
      MidwayEnds(matches, ds, l, deferred, ledger);
      return true, |matches|, turns;
    }

    /** Produces every pending read an access overlaps; fails at the first callback that does. */
    method ResolveDeferredReads(address: nat, length: nat) returns (ok: bool, ghost n: nat, ghost turns: seq<Turn>)
      requires Valid() && Recorded()
      modifies this`deferred, this`ledger, readBias, covered
      ensures Valid() && Recorded() && Settled(old(deferred), old(ledger), deferred, ledger)
      ensures !Pending(deferred, address, length)
      ensures var matches := Matched(old(deferred), address, length);
              Outcome(matches, n, ledger) && Sincere(matches, n) && (ok <==> n == |matches|)
      ensures Resolves(regions, old(deferred), old(ledger), address, length, turns)
      ensures |turns| == if ok then n else n + 1
      ensures Faults(regions, old(ledger), ledger, !ok)
      decreases Measure(), 2
    {
      ghost var l, ds, first := ledger, deferred, nextToken;
      hide Valid, LedgerFits, Settled, Pending, InFlight, DistinctTokens, Progress, Outcome, Sincere, Kept, Matched,
        Tokens, Set;
      hide TakeTurns, Faults, AllOk;
      ResolveBegins(ds, first, l, address, length);
      KeptAndMatched(ds, address, length);
      TakenFaults(regions, ds, first, l, Matched(ds, address, length));
      var matches := TakeOverlapping(address, length);
      ghost var list, taken := deferred, ledger;
      ok, n, turns := RunCallbacks(matches);
      FaultsOn(regions, l, taken, ledger, !ok);
      ResolveSettles(ds, first, l, address, length, deferred, ledger, n);
    }

    // ------------------------------------------------------------------ checked accesses

    /** A host pointer to `length` bytes: the tables' if they have one, else that of the region that holds them. */
    method GetPointer(address: nat, length: nat) returns (pointer: Option<nat>)
      requires Valid() && address < SPACE
      ensures pointer.Some? ==> forall i: nat | i < length :: HostAt(regions, address, pointer.value, i)
      ensures pointer.Some? <==> Addressable(regions, address, length)
    {
      pointer := TryGetPointerFast(address, length);
      if pointer.None? {
        hide HostAt;
        pointer := RegionPointer(regions, address, length);
      }
    }

    /** A checked load of `size` bytes; `turns` is what the callbacks did that it made run. */
    method CheckedRead(address: nat, size: nat) returns (access: Access, ghost turns: seq<Turn>)
      requires Valid() && Recorded() && address < SPACE && size in {1, 2, 4, 8}
      modifies this`deferred, this`ledger, readBias, covered
      ensures Valid() && Recorded() && Settled(old(deferred), old(ledger), deferred, ledger)
      ensures access.Host? ==> forall i: nat | i < size :: HostAt(regions, address, access.pointer, i)
      ensures access.Host? && InPage(address, size) ==>
                Produced(old(deferred), old(ledger), deferred, ledger, address, size)
      ensures access.Device? <==>
              0xCC00_0000 <= address <= 0xCDFF_FFFF && !LoadsFast(regions, old(deferred), address)
      ensures access.Host? <==>
              || LoadsFast(regions, old(deferred), address)
              || (&& !(0xCC00_0000 <= address <= 0xCDFF_FFFF) && !SomeFailed(old(deferred), ledger, address, size)
                  && Addressable(regions, address, size))
      ensures access.Violation? ==>
                !IsMmio(address)
                  && (Resolve(regions, address, size).None? || SomeFailed(old(deferred), ledger, address, size))
      ensures SomeFailed(old(deferred), ledger, address, size) ==> access.Violation?
      ensures Faults(regions, old(ledger), ledger, SomeFailed(old(deferred), ledger, address, size))
      ensures AnswerTo(regions, Load(address, size), old(deferred), old(ledger), Answer(access, deferred, ledger))
      ensures if IsMmio(address) || LoadsFast(regions, old(deferred), address)
              then turns == []
              else Resolves(regions, old(deferred), old(ledger), address, size, turns) &&
                   (Matched(old(deferred), address, size) != [] ==> turns != [])
      decreases Measure(), 3
    {
      ghost var l, ds, first := ledger, deferred, nextToken;
      hide Valid, HostAt, Resolve, Settled, Produced, SomeFailed, LedgerFits, Pending, Outcome, Matched, Sincere,
        InFlight;
      hide Resolves, Faults, BiasOf, Covered, Once;
      KeysAgree(deferred, nextToken, ledger);
      FastSettles(ds, first, l);
      NoneFailed(ds, first, l, address, size);
      FaultsNone(regions, l);
      turns := [];
      var fast := TryReadGuestScalar(address, size);
      if fast.Some? {
        if InPage(address, size) {
          FastProduces(ds, first, l, address, size);
        }
        return Host(fast.value), [];
      }
      if IsMmio(address) {
        return Device, [];
      }
      var ok;
      ghost var n;
      ok, n, turns := ResolveDeferredReads(address, size);
      KeysAgree(deferred, nextToken, ledger);
      if !ok {
        FailedAt(ds, ledger, address, size, n);
        return Violation, turns;
      }
      ResolvedAll(ds, first, ledger, address, size);
      var pointer := GetPointer(address, size);
      if pointer.None? {
        return Violation, turns;
      }
      ResolveProduces(ds, first, l, deferred, ledger, address, size);
      access := Host(pointer.value);
    }

    /** A checked store of `size` bytes; `loading` as for `HandleExecutableWrite`. */
    method CheckedWrite(address: nat, size: nat, loading: Range -> bool) returns (access: Access)
      requires Valid() && address < SPACE && size in {1, 2, 4, 8}
      ensures access.Host? ==> forall i: nat | i < size :: HostAt(regions, address, access.pointer, i)
      ensures access.Host? ==> match FirstHit(ranges, address, size) case None => true case Some(r) => loading(r)
      ensures access.Device? <==> 0xCC00_0000 <= address <= 0xCDFF_FFFF && !StoresFast(address, size)
      ensures access.Host? <==>
              || StoresFast(address, size)
              || (&& !(0xCC00_0000 <= address <= 0xCDFF_FFFF) && Addressable(regions, address, size)
                  && match FirstHit(ranges, address, size) case None => true case Some(r) => loading(r))
      ensures access.Violation? ==>
                && !(0xCC00_0000 <= address <= 0xCDFF_FFFF)
                && (|| Resolve(regions, address, size).None?
                    || (FirstHit(ranges, address, size).Some? && !loading(FirstHit(ranges, address, size).value)))
    {
      hide Mapped, WriteSafe, ReadSafe, HostAt, Resolve, Clear;
      var fast := TryWriteGuestScalar(address, size);
      if fast.Some? {
        HitIsNotClear(ranges, address, size);
        return Host(fast.value);
      }
      if IsMmio(address) {
        return Device;
      }
      var forbidden := HandleExecutableWrite(address, size, loading);
      if forbidden.Some? {
        return Violation;
      }
      var pointer := GetPointer(address, size);
      access := if pointer.Some? then Host(pointer.value) else Violation;
    }

    // ------------------------------------------------------------------------- whole runs

    /** One operation of a program on the memory index. */
    method Perform(operation: Operation)
      requires Valid() && Recorded() && Idle(ledger)
      modifies this`deferred, this`nextToken, this`ledger, this`regions, this`ranges, this`guardEnabled
      modifies pageTable, fullBias, readBias, writeBias, sparse, covered, exactGuard, midGuard, coarseGuard
      ensures Valid() && Recorded() && Idle(ledger)
      ensures regions == MapAfter(old(regions), operation)
              && Works(deferred) <= WorksAfter(old(Works(deferred)), operation)
      ensures old(operation.Read? ==> NoneFaulty(regions, Works(deferred))) && AnyFailed(ledger)
              ==> old(AnyFailed(ledger))
      ensures Performed(operation)
    {
      hide Valid, LedgerFits, Idle, Settled, Produced, SomeFailed, Faults, NoneFaulty, AnyFailed, Works, Resolves;
      ghost var l, ds, first := ledger, deferred, nextToken;
      match operation
      case Defer(address, length, callback) =>
        var token := RegisterDeferredRead(address, length, callback);
        if token != 0 {
          RegisterIdle(l, Deferred(token, address, length, callback.value));
          MoreWork(ds, first, l, Deferred(token, address, length, callback.value));
        }
      case Read(address, size) =>
        var access, _ := CheckedRead(address, size);
        assert AnswerTo(regions, Load(address, size), ds, l, Answer(access, deferred, ledger));
        SettledIdle(ds, l, deferred, ledger);
        WorksShrink(ds, l, deferred, ledger);
        if NoneFaulty(regions, Works(ds)) {
          NoneFails(ds, first, l, deferred, ledger, regions, SomeFailed(ds, ledger, address, size));
        }
      case Write(address, size, loading) =>
        var _ := CheckedWrite(address, size, loading);
      case ClearReads =>
        SetIdle(ledger, Tokens(deferred));
        ClearedFails(ds, first, l);
        ClearDeferredReads();
      case Configure(config) =>
        Init(config);
      case Forget =>
        SetIdle(ledger, Tokens(deferred));
        ClearedFails(ds, first, l);
        Reset();
      case Protect(start, end, name) =>
        RegisterExecutableRange(start, end, name);
      case Refresh =>
        RefreshKept();
        RefreshFastPathTables();
    }

    /** What an operation does. */
    twostate predicate Performed(operation: Operation)
      requires Shape()
      reads this`deferred, this`nextToken, this`ledger, this`regions, this`ranges, writeBias, coarseGuard, fullBias
    {
      && (operation.Protect? || ranges == old(ranges))
      && match operation
         case Defer(address, length, callback) =>
           deferred == if length == 0 || callback.None? || address + length > 0x1_0000_0000 then old(deferred)
                       else old(deferred) + [Deferred(old(nextToken), address, length, callback.value)]
         case Read(address, size) =>
           exists access ::
             AnswerTo(regions, Load(address, size), old(deferred), old(ledger), Answer(access, deferred, ledger))
         case Write(_, _, _) => deferred == old(deferred) && ledger == old(ledger)
         case ClearReads => deferred == []
         case Configure(config) => regions == config && deferred == old(deferred) && ledger == old(ledger)
         case Forget => regions == [] && deferred == []
         case Protect(start, end, name) =>
           && deferred == old(deferred)
           && old(ranges) <= ranges
           && (if start < end then Range(start, end, name) in ranges else ranges == old(ranges))
         case Refresh =>
           && deferred == old(deferred)
           && forall p: nat | p < PAGES :: writeBias[p] == if coarseGuard[p] then 0 else fullBias[p]
    }

    /** After any operations, a checked load within its page that comes back finds every registered read of its
        bytes produced or cleared, except exactly those that failed or were lost; and there are none of these
        unless some callback did fail. If no callback that may run is one that fails on its own account, a
        mapped load always comes back, and nothing is left out. */
    method RunThenRead(operations: seq<Operation>, address: Address, size: Width) returns (access: Access)
      requires Valid() && Recorded() && Idle(ledger)
      modifies this`deferred, this`nextToken, this`ledger, this`regions, this`ranges, this`guardEnabled
      modifies pageTable, fullBias, readBias, writeBias, sparse, covered, exactGuard, midGuard, coarseGuard
      ensures Valid() && Recorded() && Idle(ledger)
      ensures access.Host? && InPage(address, size) ==>
                && (Unproduced(ledger, address, size) <==> LetDown(ledger, address, size))
                && (Unproduced(ledger, address, size) ==> AnyFailed(ledger))
      ensures old(NeverAtFault(operations + [Read(address, size)], regions, Works(deferred)) && !AnyFailed(ledger)) ==>
                && !AnyFailed(ledger)
                && (Resolve(regions, address, size).Some? && !IsMmio(address) ==> access.Host?)
                && (InPage(address, size) && access.Host? ==> !Unproduced(ledger, address, size))
    {
      hide Valid, LedgerFits, Idle, Settled, Produced, SomeFailed, Unproduced, LetDown, AnyFailed;
      hide Faults, NoneFaulty, Works, Resolves, MapAfter, WorksAfter;
      ghost var works, script := Works(deferred), operations + [Read(address, size)];
      ghost var fine := NeverAtFault(script, regions, works) && !AnyFailed(ledger);
      assert script[0..] == script;
      for i := 0 to |operations|
        invariant Valid() && Recorded() && Idle(ledger)
        invariant fine ==> NeverAtFault(script[i..], regions, works) && Works(deferred) <= works && !AnyFailed(ledger)
      {
        assert script[i..][1..] == script[i + 1..] && script[i..][0] == operations[i];
        if fine {
          FewerWorks(regions, Works(deferred), works, operations[i]);
        }
        works := WorksAfter(works, operations[i]);
        Perform(operations[i]);
      }
      ghost var l, ds, first := ledger, deferred, nextToken;
      assert script[|operations|..][0] == Read(address, size);
      if fine {
        FewerWorks(regions, Works(deferred), works, Read(address, size));
      }
      ghost var turns;
      access, turns := CheckedRead(address, size);
      SettledIdle(ds, l, deferred, ledger);
      if fine {
        NoneFails(ds, first, l, deferred, ledger, regions, SomeFailed(ds, ledger, address, size));
      }
      if access.Host? && InPage(address, size) {
        ProducedWhenIdle(ds, first, l, deferred, ledger, address, size);
      }
    }
  }

  type Config = regions: seq<Region> | WellMapped(regions) witness []

  /** What a program does to the memory index. */
  datatype Operation =
    | Defer(address: Address, length: nat, callback: Option<Work>)
    | Read(address: Address, size: Width)
    | Write(address: Address, size: Width, loading: Range -> bool)
    | ClearReads
    | Configure(regions: Config)
    | Forget
    | Protect(start: Address, end: Address, name: string)
    | Refresh

  /** What is mapped after an operation. */
  function MapAfter(regions: seq<Region>, operation: Operation): seq<Region> {
    match operation
    case Configure(config) => config
    case Forget => []
    case _ => regions
  }

  /** The callbacks that may be waiting after an operation. */
  ghost function WorksAfter(works: set<Work>, operation: Operation): set<Work> {
    match operation
    case Defer(address, length, callback) =>
      if length == 0 || callback.None? || address + length > SPACE then works else works + {callback.value}
    case ClearReads => {}
    case Forget => {}
    case _ => works
  }

  /** Whenever a program loads, no callback that may be waiting is one that fails on its own account. */
  ghost predicate NeverAtFault(operations: seq<Operation>, regions: seq<Region>, works: set<Work>)
    decreases |operations|
  {
    operations == [] ||
    (&& (operations[0].Read? ==> NoneFaulty(regions, works))
     && NeverAtFault(operations[1..], MapAfter(regions, operations[0]), WorksAfter(works, operations[0])))
  }

  lemma FewerWorks(regions: seq<Region>, some: set<Work>, works: set<Work>, operation: Operation)
    requires some <= works
    ensures WorksAfter(some, operation) <= WorksAfter(works, operation)
    ensures NoneFaulty(regions, works) ==> NoneFaulty(regions, some)
  {
  }

  lemma MoreWork(ds: seq<Deferred>, nextToken: nat, l: Ledger, d: Deferred)
    requires LedgerFits(ds, nextToken, l) && d.token == nextToken
    ensures Works(ds + [d]) == Works(ds) + {d.work}
    ensures AnyFailed(Register(l, d)) ==> AnyFailed(l)
  {
  }

  lemma ClearedFails(ds: seq<Deferred>, nextToken: nat, l: Ledger)
    requires LedgerFits(ds, nextToken, l)
    ensures AnyFailed(Set(l, Tokens(ds), CLEARED)) ==> AnyFailed(l)
    ensures Works([]) == {}
  {
  }

  /** Two reads of the same bytes wait, and the callback of the first fails: the second is not run and not on
      the list any more, and the next load of its bytes is answered as if it had never been. */
  method LostRead() returns (x: Index, first: Access, second: Access, lost: nat)
    ensures x.Valid() && x.Recorded() && InPage(0, 4)
    ensures first.Violation? && second == Host(1)
    ensures lost in x.ledger.registered && Overlaps(0, 4, x.ledger.registered[lost])
    ensures x.ledger.status[lost] == LOST && lost !in x.ledger.ran
  {
    hide Index.Valid, LedgerFits, Settled, Produced, SomeFailed, WellMapped, HostAt, AnswerTo, Resolves;
    x := new Index();
    SmallMap();
    x.Init(SMALL_MAP);
    var failing := x.RegisterDeferredRead(0, 4, Some(Work([], false)));
    lost := x.RegisterDeferredRead(0, 4, Some(Work([], true)));
    ghost var f, b := Deferred(failing, 0, 4, Work([], false)), Deferred(lost, 0, 4, Work([], true));
    assert x.deferred == [f, b];
    ghost var l := x.ledger;
    ghost var turns;
    first, turns := x.CheckedRead(0, 4);
    FirstIsNotDone(f, b, x.nextToken, l, x.deferred, x.ledger, 0, 4);
    SecondIsLost(f, b, x.nextToken, l, x.deferred, x.ledger, 0, 4);
    ghost var m, n, now := x.ledger, x.nextToken, x.deferred;
    NothingFails(0, 4);
    second, turns := x.CheckedRead(0, 4);
    SmallPointer(second.pointer);
    StaysLost(now, m, x.deferred, n, x.ledger, lost);
  }

  lemma SmallPointer(pointer: nat)
    ensures (forall i: nat | i < 4 :: HostAt(SMALL_MAP, 0, pointer, i)) ==> pointer == 1
  {
    if forall i: nat | i < 4 :: HostAt(SMALL_MAP, 0, pointer, i) {
      assert HostAt(SMALL_MAP, 0, pointer, 0);
    }
  }

  const SMALL_MAP := [Region(0, PAGE, 1)]

  lemma CoversPage(r: Deferred, s: Deferred)
    requires Overlaps(0, 4, r)
    ensures Covered([r, s], 0)
  {
    assert Overlaps(0, PAGE, [r, s][0]);
  }

  lemma SmallMap()
    ensures WellMapped(SMALL_MAP) && Resolve(SMALL_MAP, 0, 4).Some?
  {
  }

  /** While a resolve runs the callback of one read, another it has taken off the list is overlooked: the load
      that callback makes of its bytes is answered before it was produced. */
  method SiblingNotRun() returns (x: Index, access: Access, sibling: nat, ghost turns: seq<Turn>)
    ensures x.Valid() && x.Recorded() && InPage(0, 4)
    ensures turns != [] && turns[0].answers != [] && turns[0].answers[0].access.Host?
    ensures var l := turns[0].answers[0].ledger;
            && sibling in l.registered && Overlaps(0, 4, l.registered[sibling])
            && sibling in l.status && l.status[sibling] == IN_FLIGHT && sibling !in l.ran
  {
    hide Index.Valid, LedgerFits, Settled, Produced, SomeFailed, WellMapped, Resolves;
    x := new Index();
    SmallMap();
    x.Init(SMALL_MAP);
    var running := x.RegisterDeferredRead(0, 4, Some(Work([Load(0, 4)], true)));
    sibling := x.RegisterDeferredRead(0, 4, Some(Work([], true)));
    ghost var r, s := Deferred(running, 0, 4, Work([Load(0, 4)], true)), Deferred(sibling, 0, 4, Work([], true));
    assert x.deferred == [r, s];
    BothTaken(r, s, x.nextToken, x.ledger);
    ghost var l, ds, first := x.ledger, x.deferred, x.nextToken;
    access, turns := x.CheckedRead(0, 4);
    CoversPage(r, s);
    SiblingOverlooked(SMALL_MAP, r, s, first, l, turns);
  }

  /** The pointer region resolution gives, walking the regions in order. */
  method RegionPointer(regions: seq<Region>, address: nat, length: nat) returns (pointer: Option<nat>)
    requires WellMapped(regions)
    ensures pointer.Some? <==> Resolve(regions, address, length).Some?
    ensures pointer.Some? ==> forall i: nat | i < length :: HostAt(regions, address, pointer.value, i)
  {
    for k := 0 to |regions|
      invariant Resolve(regions, address, length) == Resolve(regions[k..], address, length)
    {
      var r := regions[k];
      if r.base <= address && address + length <= r.base + r.size {
        pointer := Some(r.host + (address - r.base));
        forall i: nat | i < length ensures HostAt(regions, address, pointer.value, i) {
          HostByteOf(regions, k, address + i);
        }
        return;
      }
    }
    pointer := None;
  }

  /** An access that hits a registered range is not clear of the pages of executable bytes. */
  lemma HitIsNotClear(ranges: seq<Range>, address: nat, length: nat)
    requires forall k | 0 <= k < |ranges| :: Legal(ranges[k])
    requires address < SPACE && length > 0
    ensures FirstHit(ranges, address, length).Some? ==> exists i: nat :: i < length && !Clear(ranges, address, i)
  {
    if FirstHit(ranges, address, length).Some? {
      HitIsHeld(ranges, address, length);
      var p: nat :| InAccess(address, length, p) && Holds(ranges, p, EXACT);
      var i := if p * EXACT <= address then 0 else p * EXACT - address;
      assert (address + i) / EXACT == p;
      assert !Clear(ranges, address, i);
    }
  }

  ghost predicate WriteSafeAt(full: nat, write: nat, table: Option<seq<nat>>, coarse: bool) {
    && (write != 0 ==> write == full && !coarse)
    && (table.Some? ==> |table.value| == PER_PAGE && forall s | 0 <= s < PER_PAGE :: table.value[s] in {0, full})
  }

  ghost predicate ReadSafeAt(deferred: seq<Deferred>, page: nat, full: nat, read: nat, flagged: bool) {
    && (flagged <==> Covered(deferred, page))
    && read == (if flagged then 0 else full)
  }

  lemma AllTouchedPages(r: Range, size: nat)
    requires Legal(r) && size in {EXACT, MID, PAGE}
    ensures forall p: nat :: Touches(r, p, size) <==> r.start / size <= p <= (r.end - 1) / size
  {
    forall p: nat ensures Touches(r, p, size) <==> r.start / size <= p <= (r.end - 1) / size {
      TouchedPages(r, p, size);
    }
  }

  lemma HoldsMoreAll(ranges: seq<Range>, r: Range, size: nat)
    requires size > 0
    ensures forall p: nat :: Holds(ranges + [r], p, size) <==> Holds(ranges, p, size) || Touches(r, p, size)
  {
    hide Holds, Touches;
    forall p: nat ensures Holds(ranges + [r], p, size) <==> Holds(ranges, p, size) || Touches(r, p, size) {
      HoldsMore(ranges, r, p, size);
    }
  }

  // ------------------------------------------------------------------- mirrors of RAM

  const MEM1_SIZE := 0x180_0000
  const MEM2_SIZE := 0x800_0000

  /** Where a range of RAM is in its bank, from the view it is named through. */
  function Mem1Offset(start: nat, end: nat): Option<nat> {
    if start < MEM1_SIZE && end <= MEM1_SIZE then Some(start)
    else if start >= 0x8000_0000 && end <= 0x8180_0000 then Some(start - 0x8000_0000)
    else if start >= 0xC000_0000 && end <= 0xC180_0000 then Some(start - 0xC000_0000)
    else None
  }

  function Mem2Offset(start: nat, end: nat): Option<nat> {
    if start >= 0x1000_0000 && end <= 0x1800_0000 then Some(start - 0x1000_0000)
    else if start >= 0x9000_0000 && end <= 0x9800_0000 then Some(start - 0x9000_0000)
    else if start >= 0xD000_0000 && end <= 0xD800_0000 then Some(start - 0xD000_0000)
    else None
  }

  /** The cached and the uncached view of a range of RAM; none outside RAM. */
  function Mirrors(start: nat, end: nat): seq<nat> {
    (match Mem1Offset(start, end)
     case Some(offset) => [0x8000_0000 + offset, 0xC000_0000 + offset]
     case None => [])
    + (match Mem2Offset(start, end)
       case Some(offset) => [0x9000_0000 + offset, 0xD000_0000 + offset]
       case None => [])
  }

  function MirrorTag(view: nat): string {
    if view < 0xC000_0000 then " [cached]" else " [uncached]"
  }

  /** How a mirror is told apart by name. */
  lemma MirrorTags(offset: nat)
    requires offset < 0x1800_0000
    ensures MirrorTag(0x8000_0000 + offset) == " [cached]" && MirrorTag(0xC000_0000 + offset) == " [uncached]"
  {
  }

  lemma MirrorsFit(start: nat, end: nat)
    requires start < end
    ensures forall view | view in Mirrors(start, end) :: view + (end - start) < SPACE
  {
  }

  /** Every byte of `length` bytes at `view` is registered. */
  ghost predicate Registered(ranges: seq<Range>, view: nat, length: nat) {
    exists k :: 0 <= k < |ranges| && ranges[k].start == view && ranges[k].end == view + length
  }

  /** A byte of a registered range. */
  ghost predicate Executable(ranges: seq<Range>, address: nat) {
    exists k :: 0 <= k < |ranges| && Within(ranges[k], address)
  }

  /** Both mirrors of every registered range are registered. */
  ghost predicate MirrorClosed(ranges: seq<Range>) {
    forall k | 0 <= k < |ranges| :: MirrorsRegistered(ranges, ranges[k].start, ranges[k].end)
  }

  ghost predicate MirrorsRegistered(ranges: seq<Range>, start: nat, end: nat) {
    start < end && forall view | view in Mirrors(start, end) :: Registered(ranges, view, end - start)
  }

  /** What was registered beyond what was there before is a range or one of its mirrors. */
  ghost predicate NewlyFrom(before: seq<Range>, after: seq<Range>, start: nat, end: nat) {
    && before <= after && start < end
    && (forall k | |before| <= k < |after| ::
          after[k].end == after[k].start + (end - start)
            && (after[k].start == start || after[k].start in Mirrors(start, end)))
  }

  /** The mirrors of a mirror are those of the range itself. */
  lemma MirrorsOfMirror(start: nat, end: nat, view: nat)
    requires start < end && view in Mirrors(start, end)
    ensures Mirrors(view, view + (end - start)) == Mirrors(start, end)
  {
  }

  lemma StillClosed(before: seq<Range>, after: seq<Range>, start: nat, end: nat)
    requires MirrorClosed(before) && NewlyFrom(before, after, start, end)
    requires forall view | view in Mirrors(start, end) :: Registered(after, view, end - start)
    ensures MirrorClosed(after)
  {
    KeptRegistered(before, after);
    hide Mirrors, Registered;
    forall k | 0 <= k < |after| ensures MirrorsRegistered(after, after[k].start, after[k].end) {
      if k < |before| {
        assert MirrorsRegistered(before, after[k].start, after[k].end);
      } else if after[k].start != start {
        MirrorsOfMirror(start, end, after[k].start);
      }
    }
  }

  lemma AddedRegistered(ranges: seq<Range>, view: nat, length: nat, name: string)
    requires Range(view, view + length, name) in ranges
    ensures Registered(ranges, view, length)
  {
  }

  lemma KeptRegistered(before: seq<Range>, after: seq<Range>)
    requires before <= after
    ensures forall view: nat, length: nat | Registered(before, view, length) :: Registered(after, view, length)
    ensures forall r | r in before :: r in after
  {
    forall view: nat, length: nat | Registered(before, view, length) ensures Registered(after, view, length) {
      var k :| 0 <= k < |before| && before[k].start == view && before[k].end == view + length;
      assert after[k] == before[k];
    }
    forall r | r in before ensures r in after {
      var k :| 0 <= k < |before| && before[k] == r;
      assert after[k] == r;
    }
  }

  /** Registering a range of RAM through any of its views registers the same offsets of its bank in
      the cached and in the uncached view. */
  lemma MirrorsOfAnyView(base: nat, offset: nat, length: nat)
    requires length > 0
    ensures base in {0, 0x8000_0000, 0xC000_0000} && offset + length <= MEM1_SIZE ==>
              Mirrors(base + offset, base + offset + length) == [0x8000_0000 + offset, 0xC000_0000 + offset]
    ensures base in {0x1000_0000, 0x9000_0000, 0xD000_0000} && offset + length <= MEM2_SIZE ==>
              Mirrors(base + offset, base + offset + length) == [0x9000_0000 + offset, 0xD000_0000 + offset]
  {
    var start, end := base + offset, base + offset + length;
    if base in {0, 0x8000_0000, 0xC000_0000} && offset + length <= MEM1_SIZE {
      assert Mem1Offset(start, end) == Some(offset) && Mem2Offset(start, end) == None;
    }
    if base in {0x1000_0000, 0x9000_0000, 0xD000_0000} && offset + length <= MEM2_SIZE {
      assert Mem1Offset(start, end) == None && Mem2Offset(start, end) == Some(offset);
    }
  }

  // ----------------------------------------------------------------- the guard's levels

  /** Page `p` of 4 KiB has a byte of the access; accesses past the end of memory stop there. */
  predicate InAccess(address: nat, length: nat, p: nat) {
    p < EXACTS && address / EXACT <= p && p * EXACT < address + length
  }

  function FirstHit(ranges: seq<Range>, address: nat, length: nat): Option<Range> {
    if ranges == [] then None
    else if Intersects(address, length, ranges[0]) then Some(ranges[0])
    else FirstHit(ranges[1..], address, length)
  }

  /** The answer of the scan: the first range with a byte of the access, if any has one. */
  lemma {:induction false} FirstHitIs(ranges: seq<Range>, address: nat, length: nat)
    requires length > 0 && forall k | 0 <= k < |ranges| :: ranges[k].start < ranges[k].end
    ensures FirstHit(ranges, address, length).None? <==>
            forall k | 0 <= k < |ranges| :: !Meets(ranges[k], address, length)
    ensures FirstHit(ranges, address, length).Some? ==>
              exists k :: 0 <= k < |ranges| && FirstHit(ranges, address, length) == Some(ranges[k]) &&
                          Meets(ranges[k], address, length) &&
                          forall j | 0 <= j < k :: !Meets(ranges[j], address, length)
  {
    if ranges != [] {
      IntersectsIs(address, length, ranges[0]);
      hide Meets, Intersects;
      var rest := ranges[1..];
      FirstHitIs(rest, address, length);
      assert forall k | 0 <= k < |rest| :: rest[k] == ranges[k + 1];
      if !Meets(ranges[0], address, length) && FirstHit(rest, address, length).Some? {
        var k :| 0 <= k < |rest| && FirstHit(rest, address, length) == Some(rest[k]) &&
                 Meets(rest[k], address, length) && forall j | 0 <= j < k :: !Meets(rest[j], address, length);
        assert ranges[k + 1] == rest[k];
        assert forall j | 0 < j < k + 1 :: ranges[j] == rest[j - 1];
      }
    }
  }

  lemma NothingHeld(ranges: seq<Range>)
    ensures ranges == [] ==> forall p: nat, size: nat | size > 0 :: !Holds(ranges, p, size)
  {
  }

  /** A page that holds a registered byte is in pages of the coarser sizes that do. */
  lemma CoarserHolds(ranges: seq<Range>, p: nat)
    requires Holds(ranges, p, EXACT)
    ensures Holds(ranges, p / 16, MID) && Holds(ranges, p / PER_PAGE, PAGE)
  {
    var k :| 0 <= k < |ranges| && Touches(ranges[k], p, EXACT);
    assert Touches(ranges[k], p / 16, MID);
    assert Touches(ranges[k], p / PER_PAGE, PAGE);
  }

  lemma LevelsAgree(ranges: seq<Range>, address: nat, length: nat)
    requires length > 0
    ensures forall p: nat | InAccess(address, length, p) && Holds(ranges, p, EXACT) ::
              && address / MID <= p / 16 <= (address + length - 1) / MID && Holds(ranges, p / 16, MID)
              && address / PAGE <= p / PER_PAGE <= (address + length - 1) / PAGE && Holds(ranges, p / PER_PAGE, PAGE)
  {
    forall p: nat | InAccess(address, length, p) && Holds(ranges, p, EXACT)
      ensures Holds(ranges, p / 16, MID) && Holds(ranges, p / PER_PAGE, PAGE)
      ensures address / MID <= p / 16 <= (address + length - 1) / MID
      ensures address / PAGE <= p / PER_PAGE <= (address + length - 1) / PAGE
    {
      CoarserHolds(ranges, p);
    }
  }

  /** An access that intersects a registered range has a page that holds a registered byte. */
  lemma {:induction false} HitIsHeld(ranges: seq<Range>, address: nat, length: nat)
    requires forall k | 0 <= k < |ranges| :: Legal(ranges[k])
    requires address < SPACE && FirstHit(ranges, address, length).Some? && length > 0
    ensures exists p: nat :: InAccess(address, length, p) && Holds(ranges, p, EXACT)
  {
    if Intersects(address, length, ranges[0]) {
      var first := if address < ranges[0].start then ranges[0].start else address;
      var p := first / EXACT;
      assert Touches(ranges[0], p, EXACT);
      assert InAccess(address, length, p);
    } else {
      HitIsHeld(ranges[1..], address, length);
      var p: nat :| InAccess(address, length, p) && Holds(ranges[1..], p, EXACT);
      var k :| 0 <= k < |ranges[1..]| && Touches(ranges[1..][k], p, EXACT);
      assert Touches(ranges[k + 1], p, EXACT);
    }
  }

  // --------------------------------------------------------------- lists of pending reads

  function PagesFrom(first: nat, last: nat): (pages: seq<nat>)
    ensures forall p :: p in pages <==> first <= p <= last
    decreases last + 1 - first
  {
    if first > last then [] else [first] + PagesFrom(first + 1, last)
  }

  function PagesOf(d: Deferred): seq<nat>
    requires d.length > 0
  {
    PagesFrom(d.start / PAGE, (d.start + d.length - 1) / PAGE)
  }

  lemma CoveredAppend(ds: seq<Deferred>, d: Deferred, page: nat)
    ensures Covered(ds + [d], page) <==> Covered(ds, page) || Overlaps(page * PAGE, PAGE, d)
  {
    var more := ds + [d];
    assert more[|ds|] == d;
    if Covered(ds, page) {
      var k :| 0 <= k < |ds| && Overlaps(page * PAGE, PAGE, ds[k]);
      assert more[k] == ds[k];
    }
    if Covered(more, page) {
      var k :| 0 <= k < |more| && Overlaps(page * PAGE, PAGE, more[k]);
      assert k < |ds| ==> more[k] == ds[k];
    }
  }

  lemma CoveredByOneMore(ds: seq<Deferred>, i: nat, page: nat)
    requires i < |ds|
    ensures Covered(ds[..i + 1], page) <==> Covered(ds[..i], page) || Overlaps(page * PAGE, PAGE, ds[i])
  {
    assert ds[..i + 1] == ds[..i] + [ds[i]];
    CoveredAppend(ds[..i], ds[i], page);
  }

  /** Pages outside those of the reads so far and of one more are covered by none of them. */
  lemma UncoveredByOneMore(ds: seq<Deferred>, d: Deferred, pages: seq<nat>, more: seq<nat>)
    requires LegalDeferred(d)
    requires forall p: nat | p < PAGES && p !in pages :: !Covered(ds, p)
    requires forall p :: p in more <==> d.start / PAGE <= p <= (d.start + d.length - 1) / PAGE
    ensures forall p: nat | p < PAGES && p !in pages + more :: !Covered(ds + [d], p)
  {
    forall p: nat | p < PAGES && p !in pages + more ensures !Covered(ds + [d], p) {
      CoveredByMore(ds, d, p);
    }
  }

  lemma CoveredUnion(before: seq<Deferred>, after: seq<Deferred>, gone: seq<Deferred>, page: nat)
    requires !Covered(gone, page)
    requires forall d | d in before :: d in after || d in gone
    requires forall d | d in after :: d in before
    ensures Covered(after, page) <==> Covered(before, page)
  {
    if Covered(before, page) {
      var k :| 0 <= k < |before| && Overlaps(page * PAGE, PAGE, before[k]);
      assert forall j | 0 <= j < |gone| :: gone[j] != before[k];
      assert before[k] in before;
    }
    if Covered(after, page) {
      var k :| 0 <= k < |after| && Overlaps(page * PAGE, PAGE, after[k]);
      assert after[k] in before;
    }
  }

  lemma NothingMapped()
    ensures forall p: nat | p < PAGES :: EntryOf([], p) == NO_ENTRY && BiasOf([], p) == 0
    ensures forall p: nat, size: nat | size > 0 :: !Holds([], p, size)
    ensures forall p: nat :: !Covered([], p)
    ensures WellMapped([])
  {
  }

  lemma EntryOfMore(done: seq<Region>, r: Region, page: nat)
    ensures EntryOf(done + [r], page) == EntryFrom(r, page, EntryOf(done, page))
    ensures !(r.base / PAGE <= page <= (r.base + r.size - 1) / PAGE) || r.size == 0 ==>
              EntryOf(done + [r], page) == EntryOf(done, page)
  {
    assert (done + [r])[..|done|] == done;
  }

  /** The wrapped offset of a page is below the region's size exactly when the page starts in it. */
  lemma OffsetInRegion(r: Region, page: nat)
    requires Mappable(r) && page < PAGES
    ensures Wrap(page * PAGE - r.base) < r.size <==> Contains(r, page * PAGE)
    ensures Contains(r, page * PAGE) ==> Wrap(page * PAGE - r.base) == page * PAGE - r.base
  {
  }

  lemma CoveredByMore(ds: seq<Deferred>, d: Deferred, page: nat)
    requires LegalDeferred(d)
    ensures Covered(ds + [d], page) <==> Covered(ds, page) || d.start / PAGE <= page <= (d.start + d.length - 1) / PAGE
  {
    var more := ds + [d];
    assert more[|ds|] == d;
    assert forall k | 0 <= k < |ds| :: more[k] == ds[k];
    assert Overlaps(page * PAGE, PAGE, d) <==> d.start / PAGE <= page <= (d.start + d.length - 1) / PAGE;
    if Covered(ds, page) {
      var k :| 0 <= k < |ds| && Overlaps(page * PAGE, PAGE, ds[k]);
      assert Overlaps(page * PAGE, PAGE, more[k]);
    }
  }

  /** A biased access of up to eight bytes is at the host bytes of its guest bytes. */
  lemma BiasedAccess(regions: seq<Region>, address: nat, length: nat, pointer: nat)
    requires WellMapped(regions) && address < SPACE && length <= MAX_SCALAR
    requires BiasOf(regions, address / PAGE) != 0
    requires pointer == Decode(BiasOf(regions, address / PAGE), address)
    ensures forall i: nat | i < length :: HostAt(regions, address, pointer, i)
  {
    hide BiasOf, Decode, HostByte;
    forall i: nat | i < length ensures HostAt(regions, address, pointer, i) {
      BiasIsHost(regions, address, i);
    }
  }

  /** An access within the limit of its page's entry is at the host bytes of its guest bytes. */
  lemma EntryAccess(regions: seq<Region>, address: nat, length: nat, pointer: nat)
    requires WellMapped(regions) && EntryOf(regions, address / PAGE).base != 0
    requires address % PAGE + length <= EntryOf(regions, address / PAGE).limit
    requires pointer == EntryOf(regions, address / PAGE).base + address % PAGE
    ensures forall i: nat | i < length :: HostAt(regions, address, pointer, i)
  {
    hide EntryOf, HostByte;
    forall i: nat | i < length ensures HostAt(regions, address, pointer, i) {
      EntryIsHost(regions, address / PAGE, address % PAGE + i);
    }
  }

  lemma ServedWithin(regions: seq<Region>, address: nat, length: nat)
    requires length > 0 && WellMapped(regions)
    ensures Served(regions, address, length) ==>
              (address + (length - 1)) / PAGE == address / PAGE && address + length <= SPACE
  {
    if Served(regions, address, length) {
      var k :| 0 <= k < |regions| && ServedBy(regions[k], address, length);
      assert Mappable(regions[k]);
    }
  }

  /** An access that is clear of executable pages has clear ends. */
  lemma WritableEnds(ranges: seq<Range>, address: nat, length: nat)
    requires 0 < length
    ensures (forall i: nat | i < length :: Clear(ranges, address, i)) ==>
              && !Holds(ranges, address / EXACT, EXACT) && !Holds(ranges, (address + (length - 1)) / EXACT, EXACT)
  {
    hide Holds;
    assert Clear(ranges, address, 0) <==> !Holds(ranges, address / EXACT, EXACT);
    assert Clear(ranges, address, length - 1) <==> !Holds(ranges, (address + (length - 1)) / EXACT, EXACT);
  }

  /** The two guard bytes of an access of at most eight bytes clear it. */
  lemma ExactlyWritable(ranges: seq<Range>, address: nat, length: nat)
    requires 0 < length <= MAX_SCALAR
    requires !Holds(ranges, address / EXACT, EXACT) && !Holds(ranges, (address + (length - 1)) / EXACT, EXACT)
    ensures forall i: nat | i < length :: Clear(ranges, address, i)
  {
    forall i: nat | i < length ensures Clear(ranges, address, i) {
      assert (address + i) / EXACT in {address / EXACT, (address + (length - 1)) / EXACT};
    }
  }

  /** A coarse page without executable bytes, and the guard byte at the end of an access that leaves it. */
  lemma CoarselyWritable(ranges: seq<Range>, address: nat, length: nat)
    requires 0 < length <= MAX_SCALAR && !Holds(ranges, address / PAGE, PAGE)
    requires (address + (length - 1)) / PAGE != address / PAGE
             ==> !Holds(ranges, (address + (length - 1)) / EXACT, EXACT)
    ensures forall i: nat | i < length :: Clear(ranges, address, i)
  {
    hide Holds;
    forall i: nat | i < length ensures Clear(ranges, address, i) {
      if (address + i) / PAGE == address / PAGE {
        SmallerHolds(ranges, address + i);
      } else {
        Straddle(address, address + i, address + (length - 1));
      }
    }
  }

  /** Past the end of a page, a short access stays in one 4 KiB page. */
  lemma Straddle(first: nat, middle: nat, last: nat)
    requires first <= middle <= last < first + MAX_SCALAR && middle / PAGE != first / PAGE
    ensures middle / EXACT == last / EXACT && last / PAGE != first / PAGE
  {
    var edge := PAGE * (first / PAGE + 1);
    assert edge <= middle <= last < edge + MAX_SCALAR;
    assert edge / EXACT == PER_PAGE * (first / PAGE + 1);
  }

  lemma SmallerHolds(ranges: seq<Range>, address: nat)
    ensures Holds(ranges, address / EXACT, EXACT) ==> Holds(ranges, address / PAGE, PAGE)
  {
    if Holds(ranges, address / EXACT, EXACT) {
      var k :| 0 <= k < |ranges| && Touches(ranges[k], address / EXACT, EXACT);
      assert Touches(ranges[k], address / PAGE, PAGE);
    }
  }

  lemma UncoveredAccess(deferred: seq<Deferred>, page: nat, address: nat, length: nat)
    requires !Covered(deferred, page) && length > 0
    requires page == address / PAGE == (address + length - 1) / PAGE
    ensures !Pending(deferred, address, length)
  {
    if Pending(deferred, address, length) {
      var k :| 0 <= k < |deferred| && Overlaps(address, length, deferred[k]);
      assert Overlaps(page * PAGE, PAGE, deferred[k]);
    }
  }
}
