/**
 The registry itself: registrations, the one-way publication, and the lookups behind a guest's
 indirect calls. `Valid` ties the index to the winners of what was registered and the memo
 tables to the lookups they stand in front of.
 */
module DispatchRegistry {
  import opened Common
  import opened Dispatch

  /** A direct-mapped memo's entry. */
  datatype Memo<T> = Empty | Cached(address: nat, value: T)

  /** The places of the registrations at an address. */
  function PlacesOf(entries: seq<Info>, address: nat): (r: seq<nat>)
    ensures forall i :: i in r <==> 0 <= i < |entries| && entries[i].address == address
  {
    if entries == [] then []
    else
      var n := |entries| - 1;
      if entries[n].address == address then PlacesOf(entries[..n], address) + [n] else PlacesOf(entries[..n], address)
  }

  /** An index gives every address its winner. */
  ghost predicate Indexed(entries: seq<Info>, index: map<nat, nat>) {
    forall a: nat :: if a in index then WinnerOf(entries, a) == Some(index[a]) else WinnerOf(entries, a).None?
  }

  ghost predicate Grouped(entries: seq<Info>, groups: map<nat, seq<nat>>) {
    forall a: nat :: PlacesOf(entries, a) == if a in groups then groups[a] else []
  }

  lemma WinnerOfMore(entries: seq<Info>, info: Info, address: nat)
    ensures var best, n := WinnerOf(entries, address), |entries|;
            WinnerOf(entries + [info], address) ==
            if info.address == address && (best.None? || Better(info, entries[best.value])) then Some(n) else best
    ensures PlacesOf(entries + [info], address) ==
            if info.address == address then PlacesOf(entries, address) + [|entries|] else PlacesOf(entries, address)
  {
    assert (entries + [info])[..|entries|] == entries;
  }

  lemma IndexedMore(entries: seq<Info>, index: map<nat, nat>, info: Info)
    requires Indexed(entries, index)
    ensures var a := info.address;
            (a in index ==> index[a] < |entries|)
            && Indexed(entries + [info],
                       if a !in index || Better(info, entries[index[a]]) then index[a := |entries|] else index)
  {
    hide WinnerOf, Better, PlacesOf;
    forall a: nat
      ensures WinnerOf(entries + [info], a) ==
              if info.address == a && (WinnerOf(entries, a).None? || Better(info, entries[WinnerOf(entries, a).value]))
              then Some(|entries|) else WinnerOf(entries, a)
    {
      WinnerOfMore(entries, info, a);
    }
    assert info.address in index ==> WinnerOf(entries, info.address) == Some(index[info.address]);
  }

  lemma GroupedMore(entries: seq<Info>, groups: map<nat, seq<nat>>, info: Info)
    requires Grouped(entries, groups)
    ensures var a := info.address;
            Grouped(entries + [info], groups[a := (if a in groups then groups[a] else []) + [|entries|]])
  {
    hide WinnerOf, Better, PlacesOf;
    forall a: nat
      ensures PlacesOf(entries + [info], a) ==
              if info.address == a then PlacesOf(entries, a) + [|entries|] else PlacesOf(entries, a)
    {
      WinnerOfMore(entries, info, a);
    }
  }

  /** The dynamic records are the eligible winners', sorted. */
  ghost predicate DynamicFor(records: seq<Record>, entries: seq<Info>, index: map<nat, nat>, generated: bool,
                             loadContext: nat) {
    && StrictlySorted(records)
    && (forall a | a in index :: index[a] < |entries|)
    && (forall r | r in records ::
          && r.address in index && Eligible(entries[index[r.address]], generated)
          && r == RecordOf(entries[index[r.address]], loadContext))
    && (forall a | a in index && Eligible(entries[index[a]], generated) ::
       RecordOf(entries[index[a]], loadContext) in records)
  }

  /** A generated entry is its address's winner's. */
  ghost predicate EntryCurrent(r: Record, entries: seq<Info>, index: map<nat, nat>) {
    && r.address in index && index[r.address] < |entries|
    && var info := entries[index[r.address]];
       !info.kind.Native? && info.invoker == r.entry && GuardMask(info.fprMask) == r.fprMask && !r.preserveGprs
  }

  /** What validation promises of a generated table. */
  ghost predicate Validated(t: Table, entries: seq<Info>, index: map<nat, nat>)
    requires Shaped(t)
  {
    && WellFormed(t)
    && (forall i | 0 <= i < |t.entries| :: EntryCurrent(t.entries[i], entries, index))
    && (forall a | a in index ::
          index[a] < |entries| && (!entries[index[a]].kind.Native? && entries[index[a]].invoker != 0 ==>
            a < WORD32 && FindStaticOf(t, a).Some?))
  }

  class Registry {
    const loadContext: nat
    var entries: seq<Info>
    var addressIndex: map<nat, nat>
    var addressEntries: map<nat, seq<nat>>
    var dynamic: seq<Record>
    var table: Option<Table>
    var frozen: bool
    const resolvedMemo: array<Memo<Option<nat>>>
    const rawMemo: array<Memo<Option<Record>>>
    ghost var registrations: seq<Info>

    ghost predicate Tables()
      reads this
    {
      && entries == Accepted(registrations)
      && (forall i | 0 <= i < |entries| :: entries[i].address < WORD32)
      && Indexed(entries, addressIndex)
      && (table.Some? ==> Shaped(table.value))
      && (!frozen ==> Grouped(entries, addressEntries))
      && (frozen ==> DynamicFor(dynamic, entries, addressIndex, table.Some?, loadContext))
      && (frozen && table.Some? ==> Validated(table.value, entries, addressIndex))
    }

    /** What a raw lookup of a published registry is to find. */
    ghost function RawOf(address: nat): Option<Record>
      requires table.Some? ==> Shaped(table.value)
      requires address < WORD32
      reads this
    {
      if table.Some? && FindStaticOf(table.value, address).Some?
      then Some(table.value.entries[FindStaticOf(table.value, address).value])
      else FindDynamic(dynamic, address)
    }

    ghost predicate Memos()
      requires table.Some? ==> Shaped(table.value)
      reads this, resolvedMemo, rawMemo
    {
      && resolvedMemo.Length == rawMemo.Length == MEMO
      && (forall i | 0 <= i < MEMO && resolvedMemo[i].Cached? ::
            frozen && resolvedMemo[i].value == WinnerOf(entries, resolvedMemo[i].address))
      && (forall i | 0 <= i < MEMO && rawMemo[i].Cached? ::
            frozen && rawMemo[i].address < WORD32 && rawMemo[i].value == RawOf(rawMemo[i].address))
    }

    ghost predicate Valid()
      reads this, resolvedMemo, rawMemo
    {
      Tables() && Memos()
    }

    constructor (context: nat)
      ensures Valid() && !frozen && registrations == [] && table == None && loadContext == context
      ensures fresh(resolvedMemo) && fresh(rawMemo)
    {
      loadContext := context;
      entries, addressIndex, addressEntries, dynamic, table, frozen := [], map[], map[], [], None, false;
      registrations := [];
      resolvedMemo := new Memo<Option<nat>>[MEMO](_ => Empty);
      rawMemo := new Memo<Option<Record>>[MEMO](_ => Empty);
    }

    /** Links the generated table; refused after publication, or when another is linked. */
    method RegisterTable(t: Table) returns (ok: bool)
      requires Valid() && Shaped(t)
      modifies this`table
      ensures Valid()
      ensures ok <==> !frozen && (old(table).None? || old(table) == Some(t))
      ensures table == if ok then Some(t) else old(table)
    {
      if frozen || (table.Some? && table.value != t) {
        return false;
      }
      table := Some(t);
      ok := true;
    }

    /** Adds a registration, unless it repeats one; refused after publication. */
    method Register(given: Info) returns (ok: bool)
      requires Valid() && given.address < WORD32
      modifies this`entries, this`addressIndex, this`addressEntries, this`registrations
      ensures Valid() && ok == !frozen
      ensures registrations == if ok then old(registrations) + [given] else old(registrations)
      ensures !ok ==>
                entries == old(entries) && addressIndex == old(addressIndex) && addressEntries == old(addressEntries)
    {
      if frozen {
        return false;
      }
      var info := Normal(given);
      ok := true;
      ghost var more := registrations + [given];
      assert more[..|registrations|] == registrations;
      registrations := more;
      var repeated := IsRegistered(info);
      if repeated {
        return;
      }
      Add(info);
    }

    method IsRegistered(info: Info) returns (found: bool)
      requires Indexed(entries, addressIndex) && Grouped(entries, addressEntries)
      ensures found <==> Registered(entries, info)
    {
      hide WinnerOf, Better, PlacesOf;
      var places := if info.address in addressEntries then addressEntries[info.address] else [];
      assert places == PlacesOf(entries, info.address);
      forall j | 0 <= j < |places| ensures places[j] < |entries| {
        assert places[j] in places;
      }
      for k := 0 to |places|
        invariant forall j | 0 <= j < k :: !SameRegistration(entries[places[j]], info)
      {
        assert places[k] in places;
        if SameRegistration(entries[places[k]], info) {
          return true;
        }
      }
      forall i | 0 <= i < |entries| ensures !SameRegistration(entries[i], info) {
        if entries[i].address == info.address {
          assert i in places;
        }
      }
      return false;
    }

    method Add(info: Info)
      requires Indexed(entries, addressIndex) && Grouped(entries, addressEntries)
      modifies this`entries, this`addressIndex, this`addressEntries
      ensures entries == old(entries) + [info] && Indexed(entries, addressIndex) && Grouped(entries, addressEntries)
    {
      hide WinnerOf, Better, PlacesOf;
      IndexedMore(entries, addressIndex, info);
      GroupedMore(entries, addressEntries, info);
      var index := |entries|;
      var sameAddress := if info.address in addressEntries then addressEntries[info.address] else [];
      addressEntries := addressEntries[info.address := sameAddress + [index]];
      if info.address !in addressIndex || Better(info, entries[addressIndex[info.address]]) {
        addressIndex := addressIndex[info.address := index];
      }
      entries := entries + [info];
    }

    /** Makes the indices anew from the entries. */
    method RebuildIndices()
      modifies this`addressIndex, this`addressEntries, this`dynamic
      ensures Indexed(entries, addressIndex) && Grouped(entries, addressEntries)
      ensures DynamicFor(dynamic, entries, addressIndex, table.Some?, loadContext)
      ensures old(Indexed(entries, addressIndex)) ==> addressIndex == old(addressIndex)
    {
      var index: map<nat, nat> := map[];
      var groups: map<nat, seq<nat>> := map[];
      for i := 0 to |entries|
        invariant Indexed(entries[..i], index) && Grouped(entries[..i], groups)
        modifies {}
      {
        hide WinnerOf, Better, PlacesOf;
        var entry := entries[i];
        IndexedMore(entries[..i], index, entry);
        GroupedMore(entries[..i], groups, entry);
        assert entries[..i] + [entry] == entries[..i + 1];
        groups := groups[entry.address := (if entry.address in groups then groups[entry.address] else []) + [i]];
        if entry.address !in index || Better(entry, entries[index[entry.address]]) {
          index := index[entry.address := i];
        }
      }
      assert entries[..|entries|] == entries;
      hide WinnerOf, Better, PlacesOf;
      SameIndex(entries, index, addressIndex);
      addressIndex, addressEntries := index, groups;
      var records := CollectDynamic();
      dynamic := records;
    }

    /** The records of the winners that need one, in address order. */
    method CollectDynamic() returns (records: seq<Record>)
      requires Indexed(entries, addressIndex)
      ensures DynamicFor(records, entries, addressIndex, table.Some?, loadContext)
    {
      hide WinnerOf, Better;
      assert forall a | a in addressIndex :: WinnerOf(entries, a) == Some(addressIndex[a]);
      var left := addressIndex.Keys;
      var found: seq<Record> := [];
      while left != {}
        invariant left <= addressIndex.Keys
        invariant forall r | r in found ::
                    && r.address in addressIndex && r.address !in left
                       && Eligible(entries[addressIndex[r.address]], table.Some?)
                    && r == RecordOf(entries[addressIndex[r.address]], loadContext)
        invariant forall a | a in addressIndex && a !in left && Eligible(entries[addressIndex[a]], table.Some?) ::
                    RecordOf(entries[addressIndex[a]], loadContext) in found
        invariant forall i, j | 0 <= i < j < |found| :: found[i].address != found[j].address
        decreases |left|
      {
        var a :| a in left;
        left := left - {a};
        var info := entries[addressIndex[a]];
        if Eligible(info, table.Some?) {
          forall i | 0 <= i < |found| ensures found[i].address != a {
            assert found[i] in found;
          }
          found := found + [RecordOf(info, loadContext)];
        }
      }
      Sorted(found);
      records := SortByAddress(found);
    }

    /** Checks the generated table against the winners. */
    method ValidateTable(t: Table) returns (ok: bool)
      requires Shaped(t) && Indexed(entries, addressIndex) && forall i | 0 <= i < |entries| ::
               entries[i].address < WORD32
      ensures ok <==> Validated(t, entries, addressIndex)
    {
      hide Indexed, Shaped, EntryFits, EntryCurrent;
      IndexInRange(entries, addressIndex);
      ok := ValidateEntries(t);
      if ok {
        ok := ValidateWinners(t);
      }
    }

    method ValidateEntries(t: Table) returns (ok: bool)
      requires Shaped(t) && forall a | a in addressIndex :: addressIndex[a] < |entries|
      ensures ok <==> WellFormed(t) && forall i | 0 <= i < |t.entries| ::
              EntryCurrent(t.entries[i], entries, addressIndex)
    {
      hide FindStaticOf, EntryFits, EntryCurrent;
      if t.entries == [] {
        return false;
      }
      for i := 0 to |t.entries|
        invariant forall j | 0 <= j < i :: EntryFits(t, j) && EntryCurrent(t.entries[j], entries, addressIndex)
      {
        var fits := FitsAt(t, i);
        if !fits {
          return false;
        }
        var current := IsCurrent(t.entries[i]);
        if !current {
          return false;
        }
      }
      ok := true;
    }

    method FitsAt(t: Table, i: nat) returns (fits: bool)
      requires Shaped(t) && i < |t.entries|
      ensures fits == EntryFits(t, i)
    {
      hide FindStaticOf;
      var record := t.entries[i];
      var at := FindStatic(t, record.address);
      fits := !(record.address % 4 != 0 || record.entry == 0 || (i != 0 && record.address <= t.entries[i - 1].address)
        || at != Some(i));
    }

    method IsCurrent(record: Record) returns (current: bool)
      requires forall a | a in addressIndex :: addressIndex[a] < |entries|
      ensures current == EntryCurrent(record, entries, addressIndex)
    {
      if record.address !in addressIndex {
        return false;
      }
      var info := entries[addressIndex[record.address]];
      current := !(info.kind.Native? || info.invoker != record.entry || GuardMask(info.fprMask) != record.fprMask
        || record.preserveGprs);
    }

    method ValidateWinners(t: Table) returns (ok: bool)
      requires Shaped(t) && forall a | a in addressIndex :: addressIndex[a] < |entries| && a < WORD32
      ensures ok <==> forall a | a in addressIndex ::
                !entries[addressIndex[a]].kind.Native? && entries[addressIndex[a]].invoker != 0 ==>
                  FindStaticOf(t, a).Some?
    {
      hide FindStaticOf;
      var left := addressIndex.Keys;
      while left != {}
        invariant left <= addressIndex.Keys
        invariant forall a | a in addressIndex && a !in left ::
                    !entries[addressIndex[a]].kind.Native? && entries[addressIndex[a]].invoker != 0 ==>
                      FindStaticOf(t, a).Some?
        decreases |left|
      {
        var a :| a in left;
        left := left - {a};
        var info := entries[addressIndex[a]];
        if !info.kind.Native? && info.invoker != 0 {
          var at := FindStatic(t, a);
          if at.None? {
            return false;
          }
        }
      }
      ok := true;
    }

    /** Publishes the registry, once: the lookups answer from here on, and nothing can be added. */
    method Finalize() returns (ok: bool)
      requires Valid()
      modifies this`addressIndex, this`addressEntries, this`dynamic, this`frozen
      ensures Valid() && frozen == ok && (old(frozen) ==> ok)
      ensures addressIndex == old(addressIndex)
      ensures !old(frozen) ==> (ok <==> table.None? || Validated(table.value, entries, addressIndex))
      ensures !old(frozen) && ok ==> addressEntries == map[]
    {
      if frozen {
        return true;
      }
      hide WinnerOf, Better, PlacesOf, Accepted, FindStaticOf;
      RebuildIndices();
      ok := true;
      if table.Some? {
        ok := ValidateTable(table.value);
      }
      if ok {
        addressEntries := map[];
        frozen := true;
      }
    }

    // ----------------------------------------------------------------------- lookups

    method FindByAddressSlow(address: nat) returns (r: Option<nat>)
      requires Valid()
      ensures r == WinnerOf(entries, address)
    {
      hide WinnerOf, Better;
      assert Indexed(entries, addressIndex);
      assert if address in addressIndex then WinnerOf(entries, address) == Some(addressIndex[address])
             else WinnerOf(entries, address).None?;
      if address in addressIndex {
        return Some(addressIndex[address]);
      }
      r := None;
      if !frozen {
        for i := 0 to |entries|
          invariant r.Some? ==> r.value < |entries| && entries[r.value].address == address
        {
          if r.None? && entries[i].address == address {
            r := Some(i);
          }
        }
        NoneRegistered(entries, address);
      }
    }

    /** The winner at an address, with or without the memo. */
    method FindByAddress(address: nat) returns (r: Option<nat>)
      requires Valid()
      modifies resolvedMemo
      ensures Valid() && r == WinnerOf(entries, address)
      ensures frozen ==> resolvedMemo[MemoSlot(address)] == Cached(address, r)
      ensures forall i | 0 <= i < resolvedMemo.Length && (i != MemoSlot(address) || !frozen) ::
                resolvedMemo[i] == old(resolvedMemo[i])
    {
      if !frozen {
        r := FindByAddressSlow(address);
        return;
      }
      hide Tables, RawOf, WinnerOf;
      var slot := MemoSlot(address);
      var cached := resolvedMemo[slot];
      if cached.Cached? && cached.address == address {
        return cached.value;
      }
      r := FindByAddressSlow(address);
      resolvedMemo[slot] := Cached(address, r);
    }

    /** The raw record the published tables have for an address. */
    method FindRawSlow(address: nat) returns (r: Option<Record>)
      requires Tables() && address < WORD32
      ensures r == if frozen then RawOf(address) else None
    {
      if !frozen {
        return None;
      }
      if table.Some? {
        var at := FindStatic(table.value, address);
        if at.Some? {
          return Some(table.value.entries[at.value]);
        }
      }
      r := FindDynamic(dynamic, address);
    }

    method FindRawMiss(address: nat, slot: nat) returns (r: Option<Record>)
      requires Valid() && frozen && address < WORD32 && slot < MEMO
      modifies rawMemo
      ensures Valid() && r == RawOf(address) && rawMemo[slot] == Cached(address, r)
      ensures forall i | 0 <= i < rawMemo.Length && i != slot :: rawMemo[i] == old(rawMemo[i])
    {
      r := None;
      if table.Some? {
        var at := FindStatic(table.value, address);
        if at.Some? {
          r := Some(table.value.entries[at.value]);
        }
      }
      if r.None? {
        r := FindRawSlow(address);
      }
      hide Tables, RawOf;
      rawMemo[slot] := Cached(address, r);
    }

    /** The raw record of an address, with or without the memo. */
    method FindRaw(address: nat) returns (r: Option<Record>)
      requires Valid() && address < WORD32
      modifies rawMemo
      ensures Valid()
      ensures r == if frozen then RawOf(address) else None
      ensures frozen ==> rawMemo[MemoSlot(address)] == Cached(address, r)
      ensures forall i | 0 <= i < rawMemo.Length && (i != MemoSlot(address) || !frozen) ::
                rawMemo[i] == old(rawMemo[i])
    {
      if !frozen {
        return None;
      }
      hide Tables, RawOf;
      var slot := MemoSlot(address);
      var cached := rawMemo[slot];
      if cached.Cached? && cached.address == address {
        return cached.value;
      }
      r := FindRawMiss(address, slot);
    }

    /** A published registry has a raw record of an address exactly when its winner is to be called
        through one, and then it is the winner's. */
    lemma RawIsWinners(address: nat)
      requires Valid() && frozen && address < WORD32
      ensures RawOf(address) ==
              match WinnerOf(entries, address)
              case None => None
              case Some(w) =>
                var info := entries[w];
                if info.invoker != 0 && ((table.Some? && !info.kind.Native?) || info.mustRemainDynamic)
                then Some(RecordOf(info, loadContext)) else None
    {
      hide Accepted, Memos, WinnerOf, Better;
      IndexInRange(entries, addressIndex);
      assert if address in addressIndex then WinnerOf(entries, address) == Some(addressIndex[address])
             else WinnerOf(entries, address).None?;
      if table.Some? && FindStaticOf(table.value, address).Some? {
        GeneratedIsWinners(table.value, entries, addressIndex, address, loadContext);
      } else {
        DynamicIsWinners(dynamic, entries, addressIndex, table.Some?, address, loadContext);
        assert table.Some? && address in addressIndex && !entries[addressIndex[address]].kind.Native? ==>
            entries[addressIndex[address]].invoker == 0;
      }
    }
  }

  /** The memo's place for an address: a multiplicative hash of its word number, in 32 bits. */
  function MemoSlot(address: nat): (slot: nat)
    ensures slot < MEMO
  {
    address / 4 * 2654435761 % WORD32 % MEMO
  }

  lemma MemoSlots()
    ensures MemoSlot(0x8000_400C) == 275
  {
    var product: nat := 1425100228385668371;
    assert 536875011 * 2654435761 == product;
    assert product == 331807003 * 4294967296 + 1916894483 && 1916894483 == 3743934 * 512 + 275;
  }

  lemma NoneRegistered(entries: seq<Info>, address: nat)
    ensures WinnerOf(entries, address).None? ==> forall i | 0 <= i < |entries| :: entries[i].address != address
    decreases |entries|
  {
    if entries != [] {
      NoneRegistered(entries[..|entries| - 1], address);
    }
  }

  lemma GeneratedIsWinners(t: Table, entries: seq<Info>, index: map<nat, nat>, address: nat, loadContext: nat)
    requires Shaped(t) && address < WORD32 && Validated(t, entries, index) && FindStaticOf(t, address).Some?
    ensures address in index && index[address] < |entries|
    ensures var info := entries[index[address]];
            info.address == address ==>
              !info.kind.Native? && info.invoker != 0
                && t.entries[FindStaticOf(t, address).value] == RecordOf(info, loadContext)
  {
    var i := FindStaticOf(t, address).value;
    assert EntryFits(t, i) && EntryCurrent(t.entries[i], entries, index);
  }

  lemma DynamicIsWinners(records: seq<Record>, entries: seq<Info>, index: map<nat, nat>, generated: bool, address: nat,
                         loadContext: nat)
    requires DynamicFor(records, entries, index, generated, loadContext)
    requires forall a | a in index :: entries[index[a]].address == a
    ensures FindDynamic(records, address) ==
            if address in index && Eligible(entries[index[address]], generated)
            then Some(RecordOf(entries[index[address]], loadContext)) else None
  {
    if address in index && Eligible(entries[index[address]], generated) {
      var r := RecordOf(entries[index[address]], loadContext);
      var k :| 0 <= k < |records| && records[k] == r;
      LowerBoundFinds(records, k, 0);
    } else {
      var at := LowerBound(records, address, 0);
      if at < |records| {
        assert records[at] in records;
      }
    }
  }

  lemma IndexInRange(entries: seq<Info>, index: map<nat, nat>)
    requires Indexed(entries, index)
    ensures forall a | a in index :: index[a] < |entries| && entries[index[a]].address == a
  {
    hide Better;
    forall a | a in index ensures index[a] < |entries| && entries[index[a]].address == a {
      assert WinnerOf(entries, a) == Some(index[a]);
    }
  }

  /** There is one index of the winners. */
  lemma SameIndex(entries: seq<Info>, one: map<nat, nat>, other: map<nat, nat>)
    requires Indexed(entries, one)
    ensures Indexed(entries, other) ==> one == other
  {
    hide WinnerOf;
    if Indexed(entries, other) {
      forall a: nat ensures (a in one <==> a in other) && (a in one ==> one[a] == other[a]) {
        assert WinnerOf(entries, a) == WinnerOf(entries, a);
      }
    }
  }
}
