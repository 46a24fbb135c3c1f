/**
 The function registry and the dispatch tables made from it.

 `WinnerOf` is what the registry means: of the registrations at an address, the one that beats
 all others. The index, built registration by registration or all at once, is the winners; a
 validated generated table finds what a linear search finds; a raw dispatch record is its
 address's winner's; and the memo tables in front change no answer.
 */
module Dispatch {
  import opened Common

  const WORD32 := 0x1_0000_0000
  const MEMO := 512

  datatype Kind = BaseTranslated | ModTranslated | Native

  /** A registration; entry points and invokers are host addresses, 0 for none. */
  datatype Info = Info(address: nat, moduleId: nat, priority: nat, fprMask: nat, entryPoint: nat,
                       invoker: nat, mustRemainDynamic: bool, kind: Kind)

  datatype Record = Record(address: nat, entry: nat, fprMask: nat, preserveGprs: bool)

  // ----------------------------------------------------------------------- candidates

  function DefaultPriority(kind: Kind): nat {
    match kind
    case BaseTranslated => 0
    case ModTranslated => 100
    case Native => 10000
  }

  function EffectivePriority(info: Info): nat {
    if info.priority != 0 then info.priority else DefaultPriority(info.kind)
  }

  function KindRank(kind: Kind): nat {
    match kind
    case BaseTranslated => 0
    case ModTranslated => 1
    case Native => 2
  }

  predicate Better(candidate: Info, current: Info) {
    if EffectivePriority(candidate) != EffectivePriority(current)
    then EffectivePriority(candidate) > EffectivePriority(current)
    else if KindRank(candidate.kind) != KindRank(current.kind)
    then KindRank(candidate.kind) > KindRank(current.kind)
    else candidate.moduleId > current.moduleId
  }

  /** Of two of the same priority, the first not of the game's own: the kind decides, then the module. */
  predicate Level(a: Info, b: Info) {
    || (b.kind == a.kind && a.moduleId > b.moduleId)
    || b.kind == BaseTranslated || (a.kind == Native && b.kind == ModTranslated)
  }

  /** What wins at an address: the higher priority, or, of two without one, a native function over a module's, and
      that over the game's own; of two that are level in this, the later module's. */
  lemma Ranks(a: Info, b: Info)
    ensures a.priority != 0 && b.priority != 0 && a.priority != b.priority ==>
              (Better(a, b) <==> a.priority > b.priority)
    ensures a.priority == b.priority == 0 && a.kind == Native && b.kind != Native ==> Better(a, b) && !Better(b, a)
    ensures a.priority == b.priority == 0 && a.kind == ModTranslated && b.kind == BaseTranslated ==>
              Better(a, b) && !Better(b, a)
    ensures a.priority == 0 && b.priority != 0 ==>
              (Better(a, b) <==> match a.kind
                                 case BaseTranslated => false
                                 case ModTranslated => b.priority < 100 || (b.priority == 100 && Level(a, b))
                                 case Native => b.priority < 10000 || (b.priority == 10000 && Level(a, b)))
    ensures a.priority == b.priority != 0 && a.kind == Native && b.kind != Native ==> Better(a, b) && !Better(b, a)
    ensures a.priority == b.priority != 0 && a.kind == ModTranslated && b.kind == BaseTranslated ==>
              Better(a, b) && !Better(b, a)
    ensures a.priority == b.priority && a.kind == b.kind ==> (Better(a, b) <==> a.moduleId > b.moduleId)
  {
  }

  predicate SameRegistration(a: Info, b: Info) {
    a.address == b.address && a.kind == b.kind && EffectivePriority(a) == EffectivePriority(b)
      && a.moduleId == b.moduleId
  }

  /** What tells registrations apart, and ranks them. */
  datatype Ident = Ident(address: nat, kind: Kind, priority: nat, moduleId: nat)

  function IdentOf(info: Info): Ident {
    Ident(info.address, info.kind, EffectivePriority(info), info.moduleId)
  }

  /** Two registrations at an address are the same, or one of them is better. */
  lemma NeverTies(a: Info, b: Info)
    requires a.address == b.address
    ensures (Better(a, b) && !Better(b, a)) || (Better(b, a) && !Better(a, b)) || SameRegistration(a, b)
    ensures SameRegistration(a, b) <==> IdentOf(a) == IdentOf(b)
  {
  }

  lemma BetterChains(a: Info, b: Info, c: Info)
    requires Better(a, b) && Better(b, c)
    ensures Better(a, c)
  {
  }

  // -------------------------------------------------------------------------- winners

  /** Taking registrations in turn: the best so far stays unless a better one comes. */
  function WinnerOf(entries: seq<Info>, address: nat): (r: Option<nat>)
    ensures r.Some? ==> r.value < |entries| && entries[r.value].address == address
  {
    if entries == [] then None
    else
      var n := |entries| - 1;
      var best := WinnerOf(entries[..n], address);
      if entries[n].address == address && (best.None? || Better(entries[n], entries[best.value])) then Some(n) else best
  }

  ghost predicate Distinct(entries: seq<Info>) {
    forall i, j | 0 <= i < j < |entries| :: !SameRegistration(entries[i], entries[j])
  }

  /** The winner beats every other registration at its address. */
  lemma {:induction false} WinnerIsBest(entries: seq<Info>, address: nat)
    requires Distinct(entries)
    ensures WinnerOf(entries, address).None? <==> forall i | 0 <= i < |entries| :: entries[i].address != address
    ensures WinnerOf(entries, address).Some? ==>
              var w := WinnerOf(entries, address).value;
              forall i | 0 <= i < |entries| && i != w && entries[i].address == address :: Better(entries[w], entries[i])
    decreases |entries|
  {
    if entries != [] {
      var n := |entries| - 1;
      WinnerIsBest(entries[..n], address);
      var best := WinnerOf(entries[..n], address);
      if entries[n].address == address && best.Some? {
        var b := entries[best.value];
        NeverTies(entries[n], b);
        assert !SameRegistration(b, entries[n]);
        forall i | 0 <= i < n && entries[i].address == address && Better(entries[n], b)
          ensures Better(entries[n], entries[i])
        {
          if i != best.value {
            assert entries[..n][i] == entries[i];
            BetterChains(entries[n], b, entries[i]);
          }
        }
      }
    }
  }

  // ------------------------------------------------------------------- registrations

  function Normal(info: Info): Info {
    info.(priority := EffectivePriority(info))
  }

  ghost predicate Registered(entries: seq<Info>, info: Info) {
    exists i :: 0 <= i < |entries| && SameRegistration(entries[i], info)
  }

  /** The entries after some registrations: every one that is not a repetition. */
  ghost function Accepted(registrations: seq<Info>): seq<Info> {
    if registrations == [] then []
    else
      var n := |registrations| - 1;
      var before, info := Accepted(registrations[..n]), Normal(registrations[n]);
      if Registered(before, info) then before else before + [info]
  }

  /** Some registration has this identity. */
  ghost predicate Claims(registrations: seq<Info>, id: Ident) {
    exists i :: 0 <= i < |registrations| && IdentOf(registrations[i]) == id
  }

  lemma NormalIdent(info: Info)
    ensures IdentOf(Normal(info)) == IdentOf(info)
  {
  }

  lemma {:induction false} AcceptedClaims(registrations: seq<Info>, id: Ident)
    ensures Distinct(Accepted(registrations))
    ensures Claims(Accepted(registrations), id) <==> Claims(registrations, id)
    decreases |registrations|
  {
    if registrations != [] {
      var n := |registrations| - 1;
      var before, info := Accepted(registrations[..n]), Normal(registrations[n]);
      AcceptedClaims(registrations[..n], id);
      NormalIdent(registrations[n]);
      ClaimsOneMore(registrations[..n], registrations[n], id);
      assert registrations[..n] + [registrations[n]] == registrations;
      if Registered(before, info) {
        RegisteredClaims(before, info);
      } else {
        ClaimsOneMore(before, info, id);
      }
    }
  }

  lemma ClaimsOneMore(before: seq<Info>, info: Info, id: Ident)
    ensures Claims(before + [info], id) <==> Claims(before, id) || IdentOf(info) == id
  {
    var after := before + [info];
    assert after[|before|] == info;
    if Claims(before, id) {
      var i :| 0 <= i < |before| && IdentOf(before[i]) == id;
      assert after[i] == before[i];
    }
  }

  lemma RegisteredClaims(entries: seq<Info>, info: Info)
    requires Registered(entries, info)
    ensures Claims(entries, IdentOf(info))
  {
    var i :| 0 <= i < |entries| && SameRegistration(entries[i], info);
    assert IdentOf(entries[i]) == IdentOf(info);
  }

  function WinnerIdent(entries: seq<Info>, address: nat): Option<Ident> {
    match WinnerOf(entries, address)
    case None => None
    case Some(i) => Some(IdentOf(entries[i]))
  }

  /** The winner at an address is the best of what was ever registered there. */
  lemma WinnerOfAll(registrations: seq<Info>, address: nat)
    ensures var w := WinnerIdent(Accepted(registrations), address);
            && (w.Some? ==> Claims(registrations, w.value) && w.value.address == address)
            && (forall i | 0 <= i < |registrations| && registrations[i].address == address ::
                  w.Some? && (w.value == IdentOf(registrations[i]) || IdentBetter(w.value, IdentOf(registrations[i]))))
  {
    hide Better, Accepted, WinnerOf;
    var entries := Accepted(registrations);
    var w := WinnerOf(entries, address);
    AcceptedClaims(registrations, Ident(0, Native, 0, 0));
    WinnerIsBest(entries, address);
    if w.Some? {
      AcceptedClaims(registrations, IdentOf(entries[w.value]));
    }
    forall i | 0 <= i < |registrations| && registrations[i].address == address
      ensures w.Some?
      ensures IdentOf(entries[w.value]) == IdentOf(registrations[i]) ||
              IdentBetter(IdentOf(entries[w.value]), IdentOf(registrations[i]))
    {
      AcceptedClaims(registrations, IdentOf(registrations[i]));
      var j :| 0 <= j < |entries| && IdentOf(entries[j]) == IdentOf(registrations[i]);
      if w.Some? && j != w.value {
        assert Better(entries[w.value], entries[j]);
        BetterIdents(entries[w.value], entries[j]);
      }
    }
  }

  predicate IdentBetter(a: Ident, b: Ident) {
    if a.priority != b.priority then a.priority > b.priority
    else if a.kind != b.kind then KindRank(a.kind) > KindRank(b.kind)
    else a.moduleId > b.moduleId
  }

  lemma BetterIdents(a: Info, b: Info)
    ensures Better(a, b) <==> IdentBetter(IdentOf(a), IdentOf(b))
  {
  }

  /** The same registrations in any order, any number of times, give the same winners. */
  lemma WinnersIgnoreOrder(one: seq<Info>, other: seq<Info>, address: nat)
    requires forall id :: Claims(one, id) <==> Claims(other, id)
    ensures WinnerIdent(Accepted(one), address) == WinnerIdent(Accepted(other), address)
  {
    WinnerOfAll(one, address);
    WinnerOfAll(other, address);
    hide Accepted, WinnerIdent;
    var v, w := WinnerIdent(Accepted(one), address), WinnerIdent(Accepted(other), address);
    if v.Some? {
      assert Claims(other, v.value);
      var i :| 0 <= i < |other| && IdentOf(other[i]) == v.value;
      assert other[i].address == address;
    }
    if w.Some? {
      assert Claims(one, w.value);
      var i :| 0 <= i < |one| && IdentOf(one[i]) == w.value;
      assert one[i].address == address;
    }
  }

  // --------------------------------------------------------------- the generated table

  datatype Page = Page(firstEntry: nat, entryCount: nat)

  datatype Segment = Segment(firstPage: nat, pages: seq<Page>)

  datatype Table = Table(segments: seq<Segment>, entries: seq<Record>)

  const SEGMENTS := 256

  /** One segment for every high byte, and 32-bit addresses. */
  predicate Shaped(t: Table) {
    |t.segments| == SEGMENTS && forall i | 0 <= i < |t.entries| :: t.entries[i].address < WORD32
  }

  lemma OneSegmentAHighByte(t: Table)
    requires Shaped(t)
    ensures |t.segments| == 256
  {
  }

  /** The bisection's result, whatever the entries are. */
  function Bisect(entries: seq<Record>, address: nat, lower: nat, upper: nat): (r: nat)
    requires lower <= upper <= |entries|
    ensures lower <= r <= upper
    decreases upper - lower
  {
    if lower == upper then lower
    else
      var middle := lower + (upper - lower) / 2;
      if entries[middle].address < address then Bisect(entries, address, middle + 1, upper)
      else Bisect(entries, address, lower, middle)
  }

  /** The entries of an address's page: from, and how many. */
  function PageOf(t: Table, address: nat): Option<Page>
    requires Shaped(t) && address < WORD32
  {
    var segment, page := t.segments[address / 0x100_0000], address / 0x1000 % 0x1000;
    if segment.pages == [] || page < segment.firstPage || page - segment.firstPage >= |segment.pages| then None
    else
      var p := segment.pages[page - segment.firstPage];
      if p.firstEntry > |t.entries| || p.entryCount > |t.entries| - p.firstEntry then None else Some(p)
  }

  function FindStaticOf(t: Table, address: nat): (r: Option<nat>)
    requires Shaped(t) && address < WORD32
    ensures r.Some? ==> r.value < |t.entries| && t.entries[r.value].address == address
  {
    match PageOf(t, address)
    case None => None
    case Some(p) =>
      var lower := Bisect(t.entries, address, p.firstEntry, p.firstEntry + p.entryCount);
      if lower < p.firstEntry + p.entryCount && t.entries[lower].address == address then Some(lower) else None
  }

  method FindPage(t: Table, address: nat) returns (r: Option<Page>)
    requires Shaped(t) && address < WORD32
    ensures r == PageOf(t, address)
  {
    var segment := t.segments[address / 0x100_0000];
    var pageNumber := address / 0x1000 % 0x1000;
    if segment.pages == [] || pageNumber < segment.firstPage {
      return None;
    }
    var relativePage := pageNumber - segment.firstPage;
    if relativePage >= |segment.pages| {
      return None;
    }
    var page := segment.pages[relativePage];
    if page.firstEntry > |t.entries| || page.entryCount > |t.entries| - page.firstEntry {
      return None;
    }
    return Some(page);
  }

  method FindStatic(t: Table, address: nat) returns (r: Option<nat>)
    requires Shaped(t) && address < WORD32
    ensures r == FindStaticOf(t, address)
  {
    var page := FindPage(t, address);
    if page.None? {
      return None;
    }
    PageFits(t, address);
    var first, count := page.value.firstEntry, page.value.entryCount;
    var lower := Search(t.entries, address, first, first + count);
    if lower < first + count && t.entries[lower].address == address {
      return Some(lower);
    }
    return None;
  }

  lemma PageFits(t: Table, address: nat)
    requires Shaped(t) && address < WORD32 && PageOf(t, address).Some?
    ensures var p := PageOf(t, address).value; p.firstEntry + p.entryCount <= |t.entries|
  {
  }

  method Search(entries: seq<Record>, address: nat, first: nat, end: nat) returns (lower: nat)
    requires first <= end <= |entries|
    ensures lower == Bisect(entries, address, first, end)
  {
    lower := first;
    var upper := end;
    while lower < upper
      invariant first <= lower <= upper <= end
      invariant Bisect(entries, address, first, end) == Bisect(entries, address, lower, upper)
      decreases upper - lower
    {
      var middle := lower + (upper - lower) / 2;
      if entries[middle].address < address {
        lower := middle + 1;
      } else {
        upper := middle;
      }
    }
  }

  /** The simple search: the first entry of an address. */
  function LinearSearch(entries: seq<Record>, address: nat, from: nat): Option<nat>
    requires from <= |entries|
    decreases |entries| - from
  {
    if from == |entries| then None
    else if entries[from].address == address then Some(from)
    else LinearSearch(entries, address, from + 1)
  }

  /** Aligned, callable, in increasing order, and every entry found at its own place. */
  ghost predicate WellFormed(t: Table)
    requires Shaped(t)
  {
    && t.entries != []
    && (forall i | 0 <= i < |t.entries| :: EntryFits(t, i))
  }

  predicate EntryFits(t: Table, i: nat)
    requires Shaped(t) && i < |t.entries|
  {
    var r := t.entries[i];
    && r.address % 4 == 0 && r.entry != 0 && (i > 0 ==> t.entries[i - 1].address < r.address)
    && FindStaticOf(t, r.address) == Some(i)
  }

  lemma {:induction false} LinearFinds(t: Table, address: nat, from: nat)
    requires Shaped(t) && WellFormed(t) && address < WORD32 && from <= |t.entries|
    ensures var r := LinearSearch(t.entries, address, from);
            && (r.Some? ==> from <= r.value < |t.entries| && t.entries[r.value].address == address)
            && (r.None? ==> forall i | from <= i < |t.entries| :: t.entries[i].address != address)
    decreases |t.entries| - from
  {
    if from < |t.entries| && t.entries[from].address != address {
      LinearFinds(t, address, from + 1);
    }
  }

  /** In a well-formed table the two-level search finds what the simple one finds. */
  lemma SegmentedIsLinear(t: Table, address: nat)
    requires Shaped(t) && WellFormed(t) && address < WORD32
    ensures FindStaticOf(t, address) == LinearSearch(t.entries, address, 0)
  {
    hide FindStaticOf;
    LinearFinds(t, address, 0);
    var linear := LinearSearch(t.entries, address, 0);
    if linear.Some? {
      assert EntryFits(t, linear.value);
    }
  }

  // ------------------------------------------------------------------- dynamic records

  /** The mask of the nonvolatile registers among those a function writes. */
  function GuardMask(fprMask: nat): nat {
    fprMask / 0x4000 * 0x4000
  }

  function RecordOf(info: Info, loadContext: nat): Record {
    Record(info.address, info.invoker, GuardMask(info.fprMask), info.kind.Native? && info.address != loadContext)
  }

  /** The record of a function: of the registers it writes, f14 and those above; the general ones are preserved around
      a native, unless it loads a context. */
  lemma RecordIs(info: Info, loadContext: nat)
    ensures var r := RecordOf(info, loadContext);
            && r.address == info.address && r.entry == info.invoker
            && r.fprMask % 16384 == 0 && r.fprMask <= info.fprMask < r.fprMask + 16384
            && (r.preserveGprs <==> info.kind == Native && info.address != loadContext)
  {
  }

  /** A winner that has a record of its own: with a generated table only natives do. */
  predicate Eligible(info: Info, generated: bool) {
    info.invoker != 0 && info.mustRemainDynamic && (generated ==> info.kind.Native?)
  }

  ghost predicate StrictlySorted(records: seq<Record>) {
    forall i, j | 0 <= i < j < |records| :: records[i].address < records[j].address
  }

  function Insert(records: seq<Record>, r: Record): seq<Record> {
    if records == [] || r.address <= records[0].address then [r] + records
    else [records[0]] + Insert(records[1..], r)
  }

  function SortByAddress(records: seq<Record>): seq<Record> {
    if records == [] then [] else Insert(SortByAddress(records[..|records| - 1]), records[|records| - 1])
  }

  lemma {:induction false} Inserted(records: seq<Record>, r: Record)
    ensures forall x :: x in Insert(records, r) <==> x in records || x == r
    ensures StrictlySorted(records) && (forall x | x in records :: x.address != r.address) ==>
              StrictlySorted(Insert(records, r))
    decreases |records|
  {
    if records != [] && r.address > records[0].address {
      Inserted(records[1..], r);
      assert records == [records[0]] + records[1..];
      var rest := Insert(records[1..], r);
      if StrictlySorted(records) && forall x | x in records :: x.address != r.address {
        forall i | 0 <= i < |rest| ensures records[0].address < rest[i].address {
          assert rest[i] in rest;
        }
      }
    }
  }

  lemma {:induction false} Sorted(records: seq<Record>)
    ensures forall x :: x in SortByAddress(records) <==> x in records
    ensures (forall i, j | 0 <= i < j < |records| :: records[i].address != records[j].address) ==>
              StrictlySorted(SortByAddress(records))
    decreases |records|
  {
    if records != [] {
      var n := |records| - 1;
      Sorted(records[..n]);
      Inserted(SortByAddress(records[..n]), records[n]);
      assert records == records[..n] + [records[n]];
    }
  }

  /** The place of the first record not below an address. */
  function LowerBound(records: seq<Record>, address: nat, from: nat): (r: nat)
    requires from <= |records|
    ensures from <= r <= |records|
    decreases |records| - from
  {
    if from == |records| || records[from].address >= address then from else LowerBound(records, address, from + 1)
  }

  function FindDynamic(records: seq<Record>, address: nat): Option<Record> {
    var at := LowerBound(records, address, 0);
    if at < |records| && records[at].address == address then Some(records[at]) else None
  }

  lemma {:induction false} LowerBoundFinds(records: seq<Record>, k: nat, from: nat)
    requires StrictlySorted(records) && from <= k < |records|
    ensures LowerBound(records, records[k].address, from) == k
    decreases |records| - from
  {
    if from < k {
      LowerBoundFinds(records, k, from + 1);
    }
  }
}
