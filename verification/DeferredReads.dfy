/**
 Deferred reads: ranges of guest memory whose contents a callback still has to produce, and the
 ledger of what became of each.

 A callback is the loads it makes and how it ends. Since none runs twice, what a callback does in
 dependence on memory is one such list, and the theorems are for all lists.
 */
module DeferredReads {
  import opened Common
  import opened MemoryTables

  type Address = n: nat | n < 0x1_0000_0000
  type Width = n: nat | n in {1, 2, 4, 8} witness 1

  datatype Load = Load(address: Address, size: Width)

  /** What a callback does: its loads, up to the first that is a violation, and whether it then succeeds. */
  datatype Work = Work(loads: seq<Load>, succeeds: bool)

  /** A pending read of guest memory whose contents are still to be produced. */
  datatype Deferred = Deferred(token: nat, start: nat, length: nat, work: Work)

  /** What has become of a registered read: it waits on the list; it was taken off, and its callback is yet
      to run, or running; the callback succeeded or failed; an earlier read's failed, which abandoned it; or
      the list was cleared. */
  datatype Status = PENDING | IN_FLIGHT | RUNNING | DONE | FAILED | LOST | CLEARED

  /** Every read ever registered, by its token, what became of it, and the callbacks begun, in order. */
  datatype Ledger = Ledger(registered: map<nat, Deferred>, status: map<nat, Status>, ran: seq<nat>)

  predicate Overlaps(start: nat, length: nat, d: Deferred) {
    start < d.start + d.length && d.start < start + length
  }

  ghost predicate LegalDeferred(d: Deferred) {
    d.length > 0 && d.start + d.length <= SPACE
  }

  /** Some pending read overlaps a page. */
  ghost predicate Covered(deferred: seq<Deferred>, page: nat) {
    exists k :: 0 <= k < |deferred| && Overlaps(page * PAGE, PAGE, deferred[k])
  }

  /** Some pending read overlaps an access. */
  ghost predicate Pending(deferred: seq<Deferred>, address: nat, length: nat) {
    exists k :: 0 <= k < |deferred| && Overlaps(address, length, deferred[k])
  }

  /** The pending reads an access does not overlap, in order. */
  function Kept(ds: seq<Deferred>, address: nat, length: nat): seq<Deferred> {
    if ds == [] then []
    else
      var d, before := ds[|ds| - 1], Kept(ds[..|ds| - 1], address, length);
      if Overlaps(address, length, d) then before else before + [d]
  }

  /** The pending reads an access overlaps, in order. */
  function Matched(ds: seq<Deferred>, address: nat, length: nat): seq<Deferred> {
    if ds == [] then []
    else
      var d, before := ds[|ds| - 1], Matched(ds[..|ds| - 1], address, length);
      if Overlaps(address, length, d) then before + [d] else before
  }

  ghost predicate DistinctTokens(ds: seq<Deferred>) {
    forall j, k | 0 <= j < k < |ds| :: ds[j].token != ds[k].token
  }

  /** Every pending read is kept or matched, by whether the access overlaps it; none is doubled. */
  lemma {:induction false} KeptAndMatched(ds: seq<Deferred>, address: nat, length: nat)
    ensures forall d :: d in Kept(ds, address, length) <==> d in ds && !Overlaps(address, length, d)
    ensures forall d :: d in Matched(ds, address, length) <==> d in ds && Overlaps(address, length, d)
    ensures |Kept(ds, address, length)| + |Matched(ds, address, length)| == |ds|
    ensures DistinctTokens(ds) ==>
              DistinctTokens(Kept(ds, address, length)) && DistinctTokens(Matched(ds, address, length))
  {
    if ds != [] {
      var d, before := ds[|ds| - 1], ds[..|ds| - 1];
      KeptAndMatched(before, address, length);
      assert ds == before + [d];
      if DistinctTokens(ds) {
        FirstDistinct(before, d);
        LastDistinct(Kept(before, address, length), d);
        LastDistinct(Matched(before, address, length), d);
      }
      hide DistinctTokens, Overlaps;
    }
  }

  lemma FirstDistinct(before: seq<Deferred>, d: Deferred)
    requires DistinctTokens(before + [d])
    ensures DistinctTokens(before) && forall x | x in before :: x.token != d.token
  {
    var ds := before + [d];
    assert forall j | 0 <= j < |before| :: before[j] == ds[j];
    assert ds[|before|] == d;
  }

  lemma LastDistinct(ds: seq<Deferred>, d: Deferred)
    requires DistinctTokens(ds)
    ensures (forall x | x in ds :: x.token != d.token) ==> DistinctTokens(ds + [d])
  {
  }

  lemma KeptIsNotPending(ds: seq<Deferred>, address: nat, length: nat)
    ensures !Pending(Kept(ds, address, length), address, length)
  {
    KeptAndMatched(ds, address, length);
    hide Kept;
    var kept := Kept(ds, address, length);
    forall k | 0 <= k < |kept| ensures !Overlaps(address, length, kept[k]) {
      assert kept[k] in kept;
    }
  }

  // -------------------------------------------------------------------------- the ledger

  /** The list holds the reads that are pending, each once. */
  ghost predicate Listed(ds: seq<Deferred>, l: Ledger)
    requires l.status.Keys == l.registered.Keys
  {
    && DistinctTokens(ds)
    && (forall d | d in ds :: d.token in l.registered && l.registered[d.token] == d && l.status[d.token] == PENDING)
    && (forall t | t in l.status && l.status[t] == PENDING :: l.registered[t] in ds)
  }

  /** Every registered read has its token, and has become one thing. */
  ghost predicate Numbered(nextToken: nat, l: Ledger) {
    && nextToken > 0 && l.status.Keys == l.registered.Keys
    && (forall t | t in l.registered ::
          0 < t < nextToken && l.registered[t].token == t && LegalDeferred(l.registered[t]))
  }

  /** No callback was begun twice, and those begun are those that run, succeeded or failed. */
  ghost predicate Once(l: Ledger) {
    && (forall j, k | 0 <= j < k < |l.ran| :: l.ran[j] != l.ran[k])
    && (forall t :: t in l.ran <==> t in l.status && l.status[t] in {RUNNING, DONE, FAILED})
  }

  /** A read is only lost where another failed. */
  ghost predicate LostByFailure(l: Ledger) {
    (exists t :: t in l.status && l.status[t] == LOST) ==> exists t :: t in l.status && l.status[t] == FAILED
  }

  /** A callback is only taken to have succeeded or failed if it did. */
  ghost predicate Honest(l: Ledger)
    requires l.status.Keys == l.registered.Keys
  {
    && (forall t | t in l.status && l.status[t] == DONE :: l.registered[t].work.succeeds)
    && (forall t | t in l.status && l.status[t] == FAILED && l.registered[t].work.loads == [] ::
       !l.registered[t].work.succeeds)
  }

  ghost predicate LedgerFits(ds: seq<Deferred>, nextToken: nat, l: Ledger) {
    && l.status.Keys == l.registered.Keys
    && Listed(ds, l) && Numbered(nextToken, l) && Once(l) && LostByFailure(l) && Honest(l)
  }

  /** The reads whose callback is yet to run, though they are off the list. */
  ghost function InFlight(l: Ledger): set<nat> {
    set t | t in l.status && l.status[t] == IN_FLIGHT
  }

  /** Apart from the reads of `own`: those not pending stay what they were, and those that were are pending
      still, or have been through a resolve. */
  ghost predicate Moves(l: Ledger, m: Ledger, own: set<nat>) {
    && m.registered == l.registered && l.status.Keys == m.status.Keys && l.ran <= m.ran
    && (forall t | t in l.status && t !in own ::
          if l.status[t] == PENDING then m.status[t] in {PENDING, DONE, FAILED, LOST} else m.status[t] == l.status[t])
  }

  lemma MovesOn(l: Ledger, m: Ledger, n: Ledger, own: set<nat>)
    requires Moves(l, m, own) && Moves(m, n, own)
    ensures Moves(l, n, own)
  {
  }

  lemma MovesLess(l: Ledger, m: Ledger, own: set<nat>, more: set<nat>)
    requires Moves(l, m, own) && own <= more
    ensures Moves(l, m, more)
  {
  }

  /** An operation that leaves nothing of its own leaves as many in flight, and the list no longer. */
  lemma MovesKeepFlight(l: Ledger, m: Ledger)
    requires Moves(l, m, {})
    ensures InFlight(m) == InFlight(l)
  {
  }

  function Tokens(ds: seq<Deferred>): set<nat> {
    set d | d in ds :: d.token
  }

  // ------------------------------------------------------------------ what a step does to it

  ghost function Register(l: Ledger, d: Deferred): Ledger {
    Ledger(l.registered[d.token := d], l.status[d.token := PENDING], l.ran)
  }

  lemma RegisterFits(ds: seq<Deferred>, nextToken: nat, l: Ledger, d: Deferred)
    requires LedgerFits(ds, nextToken, l) && d.token == nextToken && LegalDeferred(d)
    ensures LedgerFits(ds + [d], nextToken + 1, Register(l, d))
  {
  }

  /** Reads taken off the list become something else. */
  ghost function Set(l: Ledger, tokens: set<nat>, s: Status): Ledger {
    l.(status := map t | t in l.status :: if t in tokens then s else l.status[t])
  }

  lemma StillLostByFailure(l: Ledger, m: Ledger)
    requires LostByFailure(l) && m.status.Keys == l.status.Keys
    requires forall t | t in l.status ::
               (m.status[t] == LOST ==> l.status[t] == LOST) && (l.status[t] == FAILED ==> m.status[t] == FAILED)
    ensures LostByFailure(m)
  {
    if t :| t in m.status && m.status[t] == LOST {
      assert l.status[t] == LOST;
      var u :| u in l.status && l.status[u] == FAILED;
      assert m.status[u] == FAILED;
    }
  }

  lemma TakenListed(ds: seq<Deferred>, l: Ledger, kept: seq<Deferred>, taken: seq<Deferred>, s: Status)
    requires l.status.Keys == l.registered.Keys && Listed(ds, l) && DistinctTokens(kept) && s in {IN_FLIGHT, CLEARED}
    requires forall t | t in l.registered :: l.registered[t].token == t
    requires forall d :: d in ds <==> d in kept || d in taken
    requires forall d | d in kept :: d !in taken
    ensures Listed(kept, Set(l, Tokens(taken), s))
    ensures forall t | t in Tokens(taken) :: t in l.status && l.status[t] == PENDING
  {
    forall d, e | d in kept && e in taken ensures d.token != e.token {
      assert l.registered[e.token] == e && l.registered[d.token] == d;
    }
    forall d | d in taken ensures d.token in l.status && l.status[d.token] == PENDING {
      assert d in ds;
    }
    var m := Set(l, Tokens(taken), s);
    forall t | t in m.status && m.status[t] == PENDING ensures m.registered[t] in kept {
      assert l.registered[t] in ds && l.registered[t].token == t;
    }
  }

  lemma SetOnce(l: Ledger, tokens: set<nat>, s: Status)
    requires l.status.Keys == l.registered.Keys && Once(l) && Honest(l) && s in {IN_FLIGHT, CLEARED}
    requires forall t | t in tokens :: t in l.status && l.status[t] == PENDING
    ensures Once(Set(l, tokens, s)) && Honest(Set(l, tokens, s))
  {
  }

  lemma TakenFits(ds: seq<Deferred>, nextToken: nat, l: Ledger, kept: seq<Deferred>, taken: seq<Deferred>, s: Status)
    requires LedgerFits(ds, nextToken, l) && DistinctTokens(kept) && s in {IN_FLIGHT, CLEARED}
    requires forall d :: d in ds <==> d in kept || d in taken
    requires forall d | d in kept :: d !in taken
    ensures LedgerFits(kept, nextToken, Set(l, Tokens(taken), s))
  {
    TakenListed(ds, l, kept, taken, s);
    hide Listed, DistinctTokens, Tokens;
    SetOnce(l, Tokens(taken), s);
    hide Once, Honest;
    StillLostByFailure(l, Set(l, Tokens(taken), s));
    hide LostByFailure;
  }

  /** A callback begins, and ends. */
  ghost function Begun(l: Ledger, t: nat): Ledger {
    l.(status := l.status[t := RUNNING], ran := l.ran + [t])
  }

  ghost function Ended(l: Ledger, t: nat, ok: bool): Ledger {
    l.(status := l.status[t := if ok then DONE else FAILED])
  }

  lemma BegunFits(ds: seq<Deferred>, nextToken: nat, l: Ledger, t: nat)
    requires LedgerFits(ds, nextToken, l) && t in l.status && l.status[t] == IN_FLIGHT
    ensures LedgerFits(ds, nextToken, Begun(l, t)) && Moves(l, Begun(l, t), {t})
  {
    var m := Begun(l, t);
    BegunOnce(l, t);
    StillLostByFailure(l, m);
    hide Once, LostByFailure;
  }

  lemma BegunFlight(l: Ledger, t: nat)
    requires t in l.status && l.status[t] == IN_FLIGHT
    ensures |InFlight(Begun(l, t))| == |InFlight(l)| - 1
  {
    assert InFlight(l) == InFlight(Begun(l, t)) + {t};
  }

  lemma BegunOnce(l: Ledger, t: nat)
    requires Once(l) && t in l.status && l.status[t] == IN_FLIGHT
    ensures Once(Begun(l, t))
  {
  }

  lemma EndedFits(ds: seq<Deferred>, nextToken: nat, l: Ledger, t: nat, ok: bool)
    requires LedgerFits(ds, nextToken, l) && t in l.status && l.status[t] == RUNNING
    requires var w := l.registered[t].work; (ok ==> w.succeeds) && (w.loads == [] ==> ok == w.succeeds)
    ensures LedgerFits(ds, nextToken, Ended(l, t, ok)) && Moves(l, Ended(l, t, ok), {t})
    ensures InFlight(Ended(l, t, ok)) == InFlight(l)
  {
    var m := Ended(l, t, ok);
    StillLostByFailure(l, m);
    hide LostByFailure;
  }

  /** The reads whose callbacks do not get to run after another's failed. */
  lemma LostFits(ds: seq<Deferred>, nextToken: nat, l: Ledger, tokens: set<nat>, failed: nat)
    requires LedgerFits(ds, nextToken, l) && failed in l.status && l.status[failed] == FAILED
    requires forall t | t in tokens :: t in l.status && l.status[t] == IN_FLIGHT
    ensures LedgerFits(ds, nextToken, Set(l, tokens, LOST)) && Moves(l, Set(l, tokens, LOST), tokens)
  {
    var m := Set(l, tokens, LOST);
    assert m.status[failed] == FAILED;
    assert Once(m);
  }

  /** Taking reads off the list puts as many in flight. */
  lemma TakenFlight(ds: seq<Deferred>, nextToken: nat, l: Ledger, taken: seq<Deferred>)
    requires LedgerFits(ds, nextToken, l) && DistinctTokens(taken) && (forall d | d in taken :: d in ds)
    ensures var m := Set(l, Tokens(taken), IN_FLIGHT);
            |InFlight(m)| == |InFlight(l)| + |taken| && Moves(l, m, Tokens(taken))
  {
    var m := Set(l, Tokens(taken), IN_FLIGHT);
    assert forall t | t in Tokens(taken) :: l.status[t] == PENDING;
    assert InFlight(m) == InFlight(l) + Tokens(taken);
    TokensCount(taken);
  }

  lemma {:induction false} TokensCount(ds: seq<Deferred>)
    requires DistinctTokens(ds)
    ensures |Tokens(ds)| == |ds|
  {
    if ds != [] {
      var before := ds[..|ds| - 1];
      TokensCount(before);
      assert ds == before + [ds[|ds| - 1]];
      assert Tokens(ds) == Tokens(before) + {ds[|ds| - 1].token};
    }
  }

  /** Nothing new is in flight once the callbacks of `own` have run. */
  lemma FlightLess(l: Ledger, m: Ledger, own: set<nat>)
    requires Moves(l, m, own)
             && (forall t | t in own && t in m.status && m.status[t] == IN_FLIGHT :: l.status[t] == IN_FLIGHT)
    ensures |InFlight(m)| <= |InFlight(l)|
  {
    assert InFlight(m) <= InFlight(l);
    assert InFlight(l) == InFlight(m) + (InFlight(l) - InFlight(m));
  }

  // -------------------------------------------------------------------- what is left

  /** The reads of a list that are pending still, in order. */
  ghost function Still(ds: seq<Deferred>, l: Ledger): (left: seq<Deferred>)
    ensures |left| <= |ds|
  {
    if ds == [] then []
    else
      var d, before := ds[|ds| - 1], Still(ds[..|ds| - 1], l);
      if d.token in l.status && l.status[d.token] == PENDING then before + [d] else before
  }

  lemma {:induction false} StillThen(ds: seq<Deferred>, m: Ledger, n: Ledger)
    requires m.status.Keys == n.status.Keys
    requires forall t | t in m.status && n.status[t] == PENDING :: m.status[t] == PENDING
    ensures Still(Still(ds, m), n) == Still(ds, n)
  {
    if ds != [] {
      var d, before := ds[|ds| - 1], ds[..|ds| - 1];
      StillThen(before, m, n);
      var left := Still(before, m);
      assert (left + [d])[..|left|] == left;
    }
  }

  lemma {:induction false} StillAll(ds: seq<Deferred>, l: Ledger)
    requires forall d | d in ds :: d.token in l.status && l.status[d.token] == PENDING
    ensures Still(ds, l) == ds
  {
    if ds != [] {
      StillAll(ds[..|ds| - 1], l);
      assert ds[|ds| - 1] in ds;
    }
  }

  lemma {:induction false} StillKept(ds: seq<Deferred>, l: Ledger, address: nat, length: nat)
    requires forall d | d in ds ::
               d.token in l.status && (l.status[d.token] == PENDING <==> !Overlaps(address, length, d))
    ensures Still(ds, l) == Kept(ds, address, length)
  {
    if ds != [] {
      StillKept(ds[..|ds| - 1], l, address, length);
      assert ds[|ds| - 1] in ds;
    }
  }

  lemma {:induction false} StillIn(ds: seq<Deferred>, l: Ledger)
    ensures forall d :: d in Still(ds, l) <==> d in ds && d.token in l.status && l.status[d.token] == PENDING
  {
    if ds != [] {
      StillIn(ds[..|ds| - 1], l);
      assert ds == ds[..|ds| - 1] + [ds[|ds| - 1]];
    }
  }

  // ------------------------------------------------------------- what a resolve comes to

  /** One callback was begun before another. */
  ghost predicate Before(ran: seq<nat>, a: nat, b: nat) {
    exists p, q :: 0 <= p < q < |ran| && ran[p] == a && ran[q] == b
  }

  ghost predicate InOrder(matches: seq<Deferred>, n: nat, ran: seq<nat>)
    requires n <= |matches|
  {
    forall j, k | 0 <= j < k < n :: Before(ran, matches[j].token, matches[k].token)
  }

  lemma OrderMore(matches: seq<Deferred>, n: nat, before: seq<nat>, after: seq<nat>)
    requires n < |matches| && InOrder(matches, n, before) && before + [matches[n].token] <= after
    requires forall j | 0 <= j < n :: matches[j].token in before
    ensures InOrder(matches, n + 1, after)
  {
    forall j, k | 0 <= j < k < n + 1 ensures Before(after, matches[j].token, matches[k].token) {
      if k < n {
        var p, q :| 0 <= p < q < |before| && before[p] == matches[j].token && before[q] == matches[k].token;
        assert after[p] == before[p] && after[q] == before[q];
      } else {
        var p :| 0 <= p < |before| && before[p] == matches[j].token;
        assert after[p] == before[p] && after[|before|] == matches[n].token;
      }
    }
  }

  /** The first `n` reads of a resolve were produced, in order; if there is another, it failed, and all
      after it are lost. */
  ghost predicate Outcome(matches: seq<Deferred>, n: nat, l: Ledger) {
    && n <= |matches|
    && (forall k | 0 <= k < |matches| ::
          && matches[k].token in l.status
          && l.status[matches[k].token] == if k < n then DONE else if k == n then FAILED else LOST)
    && InOrder(matches, if n < |matches| then n + 1 else n, l.ran)
  }

  /** A registered read of bytes of an access has not been produced, nor given up on purpose. */
  ghost predicate Unproduced(l: Ledger, address: nat, length: nat)
    requires l.status.Keys == l.registered.Keys
  {
    exists t :: t in l.registered && Overlaps(address, length, l.registered[t]) && l.status[t] !in {DONE, CLEARED}
  }

  /** A registered read of bytes of an access is off the list though it was not produced: its callback runs or
      is yet to, by the resolve the access is made in, or failed, or another's did first. */
  ghost predicate Overlooked(l: Ledger, address: nat, length: nat)
    requires l.status.Keys == l.registered.Keys
  {
    exists t :: t in l.registered && Overlaps(address, length, l.registered[t])
      && l.status[t] in {IN_FLIGHT, RUNNING, FAILED, LOST}
  }

  lemma MovesNone(l: Ledger)
    ensures Moves(l, l, {})
  {
  }

  /** A callback begins, what it makes run comes and goes, and it ends. */
  lemma MovesWithin(l: Ledger, begun: Ledger, run: Ledger, ended: Ledger, t: nat)
    requires Moves(l, begun, {t}) && Moves(begun, run, {}) && Moves(run, ended, {t})
    ensures Moves(l, ended, {t})
  {
    MovesLess(begun, run, {}, {t});
    MovesOn(l, begun, run, {t});
    MovesOn(l, run, ended, {t});
  }

  /** A callback that makes others run is itself still running after them. */
  lemma RunningStill(begun: Ledger, run: Ledger, t: nat)
    requires Moves(begun, run, {}) && t in begun.status && begun.status[t] == RUNNING
    ensures t in run.status && run.status[t] == RUNNING
  {
  }

  lemma {:induction false} StillSame(ds: seq<Deferred>, l: Ledger, m: Ledger)
    requires m.status.Keys == l.status.Keys
    requires forall t | t in l.status :: l.status[t] == PENDING <==> m.status[t] == PENDING
    ensures Still(ds, m) == Still(ds, l)
  {
    if ds != [] {
      StillSame(ds[..|ds| - 1], l, m);
    }
  }

  lemma StillMoved(ds: seq<Deferred>, l: Ledger, m: Ledger)
    requires Moves(l, m, {})
    ensures Still(Still(ds, l), m) == Still(ds, m)
  {
    StillThen(ds, l, m);
  }

  // ------------------------------------------------------------------ running a resolve

  /** The first `n` callbacks of a resolve succeeded, in order, and the others are yet to run. */
  ghost predicate Progress(matches: seq<Deferred>, n: nat, l: Ledger) {
    && n <= |matches|
    && (forall k | 0 <= k < |matches| ::
          matches[k].token in l.registered && l.registered[matches[k].token] == matches[k])
    && (forall k | 0 <= k < |matches| ::
          matches[k].token in l.status && l.status[matches[k].token] == if k < n then DONE else IN_FLIGHT)
    && InOrder(matches, n, l.ran)
  }

  lemma CallbackRan(matches: seq<Deferred>, n: nat, l: Ledger, m: Ledger, ok: bool)
    requires Progress(matches, n, l) && Once(l) && DistinctTokens(matches) && n < |matches|
    requires Moves(l, m, {matches[n].token}) && l.ran + [matches[n].token] <= m.ran
    requires matches[n].token in m.status && m.status[matches[n].token] == if ok then DONE else FAILED
    ensures ok ==> Progress(matches, n + 1, m)
    ensures !ok ==> Outcome(matches, n, Set(m, Tokens(matches[n + 1..]), LOST))
    ensures forall t | t in Tokens(matches[n + 1..]) :: t in m.status && m.status[t] == IN_FLIGHT
  {
    OrderMore(matches, n, l.ran, m.ran);
    hide InOrder;
    var rest := Tokens(matches[n + 1..]);
    forall k | 0 <= k < |matches| ensures matches[k].token in rest <==> k > n {
      if k > n {
        assert matches[n + 1..][k - (n + 1)] == matches[k];
      }
    }
  }

  /** What a resolve changes, from before it takes its reads to after the last callback. */
  lemma ResolveMoves(ds: seq<Deferred>, nextToken: nat, l: Ledger, matches: seq<Deferred>, m: Ledger, n: nat)
    requires LedgerFits(ds, nextToken, l) && (forall d | d in matches :: d in ds)
    requires Moves(Set(l, Tokens(matches), IN_FLIGHT), m, Tokens(matches)) && Outcome(matches, n, m)
    ensures Moves(l, m, {})
  {
    hide InOrder;
  }

  lemma ResolveLeaves(ds: seq<Deferred>, nextToken: nat, l: Ledger, address: nat, length: nat, m: Ledger, n: nat)
    requires LedgerFits(ds, nextToken, l)
    requires var own := Tokens(Matched(ds, address, length));
             Moves(Set(l, own, IN_FLIGHT), m, own) && Outcome(Matched(ds, address, length), n, m)
    ensures Still(Kept(ds, address, length), m) == Still(ds, m)
    ensures !Pending(Still(ds, m), address, length)
  {
    var matches := Matched(ds, address, length);
    KeptAndMatched(ds, address, length);
    var taken := Set(l, Tokens(matches), IN_FLIGHT);
    forall d | d in ds ensures d.token in taken.status
      && (taken.status[d.token] == PENDING <==> !Overlaps(address, length, d)) {
      if !Overlaps(address, length, d) {
        assert forall e | e in matches :: l.registered[e.token] == e && l.registered[d.token] == d;
      } else {
        assert d in matches;
      }
    }
    StillKept(ds, taken, address, length);
    hide InOrder, Kept, Matched;
    StillThen(ds, taken, m);
    KeptIsNotPending(ds, address, length);
    StillIn(Kept(ds, address, length), m);
    var left := Still(ds, m);
    forall k | 0 <= k < |left| ensures !Overlaps(address, length, left[k]) {
      assert left[k] in left;
    }
  }

  lemma PendingIsListed(ds: seq<Deferred>, nextToken: nat, l: Ledger, t: nat)
    requires LedgerFits(ds, nextToken, l) && t in l.status
    ensures l.status[t] == PENDING ==> l.registered[t] in ds && l.registered[t].token == t
  {
  }

  /** Within its page, an access that comes back has what it overlaps produced, but for what was overlooked. */
  lemma UnproducedWasOverlooked(ds: seq<Deferred>, nextToken: nat, l: Ledger, m: Ledger, address: nat, length: nat)
    requires LedgerFits(ds, nextToken, l) && m.status.Keys == m.registered.Keys && Moves(l, m, {})
    requires forall d | d in ds && Overlaps(address, length, d) :: d.token in m.status && m.status[d.token] == DONE
    ensures Unproduced(m, address, length) <==> Overlooked(l, address, length)
  {
    if Unproduced(m, address, length) {
      var t :| t in m.registered && Overlaps(address, length, m.registered[t]) && m.status[t] !in {DONE, CLEARED};
      PendingIsListed(ds, nextToken, l, t);
      assert l.status[t] in {IN_FLIGHT, RUNNING, FAILED, LOST};
    }
    if Overlooked(l, address, length) {
      var t :| t in l.registered && Overlaps(address, length, l.registered[t])
          && l.status[t] in {IN_FLIGHT, RUNNING, FAILED, LOST};
      assert m.status[t] == l.status[t];
    }
  }

  // ------------------------------------------------------------------ steps of a resolve

  lemma StillListed(ds: seq<Deferred>, nextToken: nat, l: Ledger)
    requires LedgerFits(ds, nextToken, l)
    ensures Still(ds, l) == ds
  {
    StillAll(ds, l);
  }

  lemma StillBegun(ds: seq<Deferred>, nextToken: nat, l: Ledger, t: nat)
    requires LedgerFits(ds, nextToken, l) && t in l.status && l.status[t] == IN_FLIGHT
    ensures Still(ds, Begun(l, t)) == ds
  {
    StillAll(ds, l);
    StillSame(ds, l, Begun(l, t));
  }

  lemma StillEnded(ds: seq<Deferred>, l: Ledger, t: nat, ok: bool)
    requires t in l.status && l.status[t] == RUNNING
    ensures Still(ds, Ended(l, t, ok)) == Still(ds, l)
  {
    StillSame(ds, l, Ended(l, t, ok));
  }

  lemma MovesStart(l: Ledger, own: set<nat>)
    ensures Moves(l, l, own)
  {
  }

  lemma TakenProgress(ds: seq<Deferred>, nextToken: nat, l: Ledger, matches: seq<Deferred>)
    requires LedgerFits(ds, nextToken, l) && (forall d | d in matches :: d in ds)
    ensures Progress(matches, 0, Set(l, Tokens(matches), IN_FLIGHT))
  {
    forall k | 0 <= k < |matches|
      ensures matches[k].token in l.status && matches[k].token in Tokens(matches)
              && l.registered[matches[k].token] == matches[k]
    {
      assert matches[k] in matches;
    }
  }

  /** A callback of a resolve failed, and the later ones are yet to be abandoned. */
  ghost predicate Stopped(matches: seq<Deferred>, n: nat, l: Ledger) {
    && n < |matches| && matches[n].token in l.status && l.status[matches[n].token] == FAILED
    && (forall t | t in Tokens(matches[n + 1..]) :: t in l.status && l.status[t] == IN_FLIGHT)
    && Outcome(matches, n, Set(l, Tokens(matches[n + 1..]), LOST))
  }

  /** One callback of a resolve has run. */
  lemma OneRan(ds: seq<Deferred>, nextToken: nat, first: Ledger, l: Ledger, m: Ledger, matches: seq<Deferred>, n: nat,
               ok: bool)
    requires Progress(matches, n, l) && Once(l) && DistinctTokens(matches) && n < |matches|
    requires Moves(first, l, Tokens(matches)) && Moves(l, m, {matches[n].token}) && l.ran + [matches[n].token] <= m.ran
    requires matches[n].token in m.status && m.status[matches[n].token] == if ok then DONE else FAILED
    ensures Moves(first, m, Tokens(matches)) && |InFlight(m)| <= |InFlight(l)|
    ensures if ok then Progress(matches, n + 1, m) else Stopped(matches, n, m)
    ensures forall t | t in Tokens(matches[n + 1..]) :: t in m.status && m.status[t] == IN_FLIGHT
    ensures Still(Still(ds, l), m) == Still(ds, m)
  {
    CallbackRan(matches, n, l, m, ok);
    FlightLess(l, m, {matches[n].token});
    hide Progress, Outcome, Once, InFlight;
    assert matches[n].token in Tokens(matches);
    StillThen(ds, l, m);
    MovesLess(l, m, {matches[n].token}, Tokens(matches));
    MovesOn(first, l, m, Tokens(matches));
  }

  lemma LoseRest(ds: seq<Deferred>, now: seq<Deferred>, nextToken: nat, first: Ledger, l: Ledger,
                 matches: seq<Deferred>, n: nat)
    requires LedgerFits(now, nextToken, l) && Moves(first, l, Tokens(matches)) && Stopped(matches, n, l)
    ensures var m := Set(l, Tokens(matches[n + 1..]), LOST);
            && LedgerFits(now, nextToken, m) && Moves(first, m, Tokens(matches)) && Outcome(matches, n, m)
            && Still(ds, m) == Still(ds, l)
  {
    var rest := Tokens(matches[n + 1..]);
    LostFits(now, nextToken, l, rest, matches[n].token);
    hide Outcome, LedgerFits;
    StillSame(ds, l, Set(l, rest, LOST));
    assert rest <= Tokens(matches);
    hide Set, Tokens;
    MovesLess(l, Set(l, rest, LOST), rest, Tokens(matches));
    MovesOn(first, l, Set(l, rest, LOST), Tokens(matches));
  }

  lemma AllRan(matches: seq<Deferred>, l: Ledger)
    requires Progress(matches, |matches|, l)
    ensures Outcome(matches, |matches|, l)
  {
  }

  /** The callback of a read an access overlaps failed: those of the reads before it succeeded, and the
      reads after it are lost. */
  ghost predicate SomeFailed(ds: seq<Deferred>, l: Ledger, address: nat, length: nat) {
    exists n: nat :: n < |Matched(ds, address, length)| && Outcome(Matched(ds, address, length), n, l)
  }

  lemma NoneFailed(ds: seq<Deferred>, nextToken: nat, l: Ledger, address: nat, length: nat)
    requires LedgerFits(ds, nextToken, l)
    ensures !SomeFailed(ds, l, address, length)
  {
    KeptAndMatched(ds, address, length);
    var matches := Matched(ds, address, length);
    hide Matched;
    forall n: nat | n < |matches| ensures !Outcome(matches, n, l) {
      assert matches[n] in matches;
    }
  }

  lemma NothingPending(ds: seq<Deferred>, address: nat, length: nat)
    requires !Pending(ds, address, length)
    ensures forall d | d in ds :: !Overlaps(address, length, d)
  {
    forall d | d in ds ensures !Overlaps(address, length, d) {
      var k :| 0 <= k < |ds| && ds[k] == d;
      assert !Overlaps(address, length, ds[k]);
    }
  }

  /** A resolve that does not fail produces all an access overlaps. */
  lemma ResolvedAll(ds: seq<Deferred>, nextToken: nat, l: Ledger, address: nat, length: nat)
    requires Outcome(Matched(ds, address, length), |Matched(ds, address, length)|, l)
    ensures !SomeFailed(ds, l, address, length)
    ensures forall d | d in ds && Overlaps(address, length, d) :: d.token in l.status && l.status[d.token] == DONE
  {
    KeptAndMatched(ds, address, length);
    var matches := Matched(ds, address, length);
    hide Matched;
    forall n: nat | n < |matches| ensures !Outcome(matches, n, l) {
      assert l.status[matches[n].token] == DONE;
    }
    forall d | d in ds && Overlaps(address, length, d) ensures d.token in l.status && l.status[d.token] == DONE {
      assert d in matches;
      var k :| 0 <= k < |matches| && matches[k] == d;
    }
  }

  lemma EmptyFits()
    ensures LedgerFits([], 1, Ledger(map[], map[], []))
  {
  }

  /** The ledger once an access has taken what it overlaps off the list. */
  lemma TakeFits(ds: seq<Deferred>, nextToken: nat, l: Ledger, address: nat, length: nat)
    requires LedgerFits(ds, nextToken, l)
    ensures LedgerFits(Kept(ds, address, length), nextToken, Set(l, Tokens(Matched(ds, address, length)), IN_FLIGHT))
  {
    KeptAndMatched(ds, address, length);
    TakenFits(ds, nextToken, l, Kept(ds, address, length), Matched(ds, address, length), IN_FLIGHT);
  }

  lemma ClearFits(ds: seq<Deferred>, nextToken: nat, l: Ledger)
    requires LedgerFits(ds, nextToken, l)
    ensures LedgerFits([], nextToken, Set(l, Tokens(ds), CLEARED))
  {
    TakenFits(ds, nextToken, l, [], ds, CLEARED);
  }

  // ------------------------------------------------ the states of a callback and of a resolve

  /** What an access, with all it makes run, leaves: nothing of its own under way. */
  ghost predicate Settled(ds: seq<Deferred>, l: Ledger, now: seq<Deferred>, m: Ledger) {
    Moves(l, m, {}) && now == Still(ds, m)
  }

  /** A callback is running, and has made others run. */
  ghost predicate Running(d: Deferred, ds: seq<Deferred>, l: Ledger, now: seq<Deferred>, m: Ledger) {
    && d.token in l.status && Moves(Begun(l, d.token), m, {}) && now == Still(ds, m)
    && |now| + |InFlight(m)| < |ds| + |InFlight(l)|
  }

  /** A callback has run. */
  ghost predicate CallbackRuns(d: Deferred, ds: seq<Deferred>, l: Ledger, now: seq<Deferred>, m: Ledger, ok: bool) {
    && Moves(l, m, {d.token}) && now == Still(ds, m)
    && d.token in m.status && m.status[d.token] == (if ok then DONE else FAILED)
    && l.ran + [d.token] <= m.ran
    && (ok ==> d.work.succeeds) && (d.work.loads == [] ==> ok == d.work.succeeds)
  }

  lemma RunningBegins(d: Deferred, ds: seq<Deferred>, nextToken: nat, l: Ledger)
    requires LedgerFits(ds, nextToken, l) && d.token in l.status && l.status[d.token] == IN_FLIGHT
    ensures LedgerFits(ds, nextToken, Begun(l, d.token)) && Running(d, ds, l, ds, Begun(l, d.token))
  {
    BegunFits(ds, nextToken, l, d.token);
    BegunFlight(l, d.token);
    StillBegun(ds, nextToken, l, d.token);
    MovesNone(Begun(l, d.token));
  }

  lemma RunningLoads(d: Deferred, ds: seq<Deferred>, l: Ledger, before: seq<Deferred>, m: Ledger, now: seq<Deferred>,
                     n: Ledger)
    requires Running(d, ds, l, before, m) && Settled(before, m, now, n)
    ensures Running(d, ds, l, now, n)
  {
    MovesOn(Begun(l, d.token), m, n, {});
    MovesKeepFlight(m, n);
    StillMoved(ds, m, n);
    hide Moves, InFlight, Begun;
  }

  lemma RunningEnds(d: Deferred, ds: seq<Deferred>, nextToken: nat, l: Ledger, now: seq<Deferred>, m: Ledger, ok: bool)
    requires Running(d, ds, l, now, m) && LedgerFits(now, nextToken, m) && l.status[d.token] == IN_FLIGHT
    requires d.token in l.registered && l.registered[d.token] == d
    requires (ok ==> d.work.succeeds) && (d.work.loads == [] ==> ok == d.work.succeeds)
    ensures LedgerFits(now, nextToken, Ended(m, d.token, ok))
    ensures CallbackRuns(d, ds, l, now, Ended(m, d.token, ok), ok)
  {
    var begun, ended := Begun(l, d.token), Ended(m, d.token, ok);
    assert begun.status[d.token] == RUNNING && begun.ran == l.ran + [d.token] <= m.ran;
    RunningStill(begun, m, d.token);
    EndedFits(now, nextToken, m, d.token, ok);
    StillEnded(ds, m, d.token, ok);
    assert Moves(l, begun, {d.token});
    hide LedgerFits, InFlight;
    MovesWithin(l, begun, m, ended, d.token);
    hide Moves;
  }

  lemma RunningLess(d: Deferred, ds: seq<Deferred>, l: Ledger, now: seq<Deferred>, m: Ledger)
    requires Running(d, ds, l, now, m)
    ensures |now| + |InFlight(m)| < |ds| + |InFlight(l)|
  {
  }

  /** The callbacks of a resolve that have run so far did succeed. */
  ghost predicate Sincere(matches: seq<Deferred>, n: nat) {
    && (forall k | 0 <= k < n && k < |matches| :: matches[k].work.succeeds)
    && (n < |matches| && matches[n].work.loads == [] ==> !matches[n].work.succeeds)
  }

  ghost predicate Midway(matches: seq<Deferred>, n: nat, ds: seq<Deferred>, l: Ledger, now: seq<Deferred>, m: Ledger) {
    && Progress(matches, n, m) && Moves(l, m, Tokens(matches)) && now == Still(ds, m)
    && (forall k | 0 <= k < n && k < |matches| :: matches[k].work.succeeds)
    && |now| + |InFlight(m)| <= |ds| + |InFlight(l)|
  }

  /** All callbacks of a resolve have run that get to. */
  ghost predicate ResolveRuns(matches: seq<Deferred>, n: nat, ds: seq<Deferred>, l: Ledger, now: seq<Deferred>,
                              m: Ledger) {
    Moves(l, m, Tokens(matches)) && Outcome(matches, n, m) && now == Still(ds, m) && Sincere(matches, n)
  }

  lemma MidwayBegins(matches: seq<Deferred>, ds: seq<Deferred>, nextToken: nat, l: Ledger)
    requires LedgerFits(ds, nextToken, l) && Progress(matches, 0, l)
    ensures Midway(matches, 0, ds, l, ds, l)
  {
    StillListed(ds, nextToken, l);
    MovesStart(l, Tokens(matches));
    hide Moves, LedgerFits, InFlight, Tokens;
  }

  lemma MidwayHas(matches: seq<Deferred>, n: nat, ds: seq<Deferred>, l: Ledger, now: seq<Deferred>, m: Ledger)
    requires Midway(matches, n, ds, l, now, m)
    ensures |now| + |InFlight(m)| <= |ds| + |InFlight(l)|
    ensures n < |matches| ==>
              && matches[n].token in m.status && m.status[matches[n].token] == IN_FLIGHT
              && matches[n].token in m.registered && m.registered[matches[n].token] == matches[n]
  {
  }

  lemma MidwayNext(matches: seq<Deferred>, n: nat, ds: seq<Deferred>, l: Ledger, before: seq<Deferred>, nextToken: nat,
                   m: Ledger, now: seq<Deferred>, r: Ledger, ok: bool)
    requires Midway(matches, n, ds, l, before, m) && n < |matches| && DistinctTokens(matches)
    requires LedgerFits(before, nextToken, m) && CallbackRuns(matches[n], before, m, now, r, ok)
    requires LedgerFits(now, nextToken, r)
    ensures ok ==> Midway(matches, n + 1, ds, l, now, r)
    ensures forall t | t in Tokens(matches[n + 1..]) :: t in r.status && r.status[t] == IN_FLIGHT
    ensures !ok ==>
              var lost := Set(r, Tokens(matches[n + 1..]), LOST);
              LedgerFits(now, nextToken, lost) && ResolveRuns(matches, n, ds, l, now, lost)
  {
    OneRan(ds, nextToken, l, m, r, matches, n, ok);
    hide Progress, Moves, InFlight, Tokens, Set, Outcome, Stopped;
    if !ok {
      LoseRest(ds, now, nextToken, l, r, matches, n);
    }
    hide LedgerFits;
  }

  lemma MidwayEnds(matches: seq<Deferred>, ds: seq<Deferred>, l: Ledger, now: seq<Deferred>, m: Ledger)
    requires Midway(matches, |matches|, ds, l, now, m)
    ensures ResolveRuns(matches, |matches|, ds, l, now, m)
  {
    AllRan(matches, m);
    hide Moves, InFlight, Tokens, Outcome;
  }

  /** What a resolve leaves, from before it takes its reads off the list. */
  lemma ResolveSettles(ds: seq<Deferred>, nextToken: nat, l: Ledger, address: nat, length: nat, now: seq<Deferred>,
                       m: Ledger, n: nat)
    requires LedgerFits(ds, nextToken, l)
    requires var matches := Matched(ds, address, length);
             ResolveRuns(matches, n, Kept(ds, address, length), Set(l, Tokens(matches), IN_FLIGHT), now, m)
    ensures Settled(ds, l, now, m) && !Pending(now, address, length)
  {
    KeptAndMatched(ds, address, length);
    ResolveMoves(ds, nextToken, l, Matched(ds, address, length), m, n);
    ResolveLeaves(ds, nextToken, l, address, length, m, n);
    hide LedgerFits, Moves, Outcome, Pending, Kept, Matched, Set, Tokens;
  }

  lemma ResolveBegins(ds: seq<Deferred>, nextToken: nat, l: Ledger, address: nat, length: nat)
    requires LedgerFits(ds, nextToken, l)
    ensures var kept, matches, taken := Kept(ds, address, length), Matched(ds, address, length),
            Set(l, Tokens(Matched(ds, address, length)), IN_FLIGHT);
            && DistinctTokens(matches) && Progress(matches, 0, taken)
            && |kept| + |InFlight(taken)| == |ds| + |InFlight(l)|
  {
    KeptAndMatched(ds, address, length);
    TakenFlight(ds, nextToken, l, Matched(ds, address, length));
    TakenProgress(ds, nextToken, l, Matched(ds, address, length));
    hide Progress, InFlight, Set, Kept, Matched, Moves;
  }

  /** A load that takes the fast path leaves everything as it is. */
  lemma FastSettles(ds: seq<Deferred>, nextToken: nat, l: Ledger)
    requires LedgerFits(ds, nextToken, l)
    ensures Settled(ds, l, ds, l)
  {
    StillListed(ds, nextToken, l);
    MovesNone(l);
  }

  /** Within its page, a load that comes back finds what it overlaps produced, but for what was overlooked. */
  ghost predicate Produced(ds: seq<Deferred>, l: Ledger, now: seq<Deferred>, m: Ledger, address: nat, length: nat)
    requires l.status.Keys == l.registered.Keys && m.status.Keys == m.registered.Keys
  {
    && !Pending(now, address, length)
    && (forall d | d in ds && Overlaps(address, length, d) ::
          d.token in m.status && m.status[d.token] == DONE && d.token in m.ran)
    && (Unproduced(m, address, length) <==> Overlooked(l, address, length))
  }

  lemma FastProduces(ds: seq<Deferred>, nextToken: nat, l: Ledger, address: nat, length: nat)
    requires LedgerFits(ds, nextToken, l) && !Pending(ds, address, length)
    ensures Produced(ds, l, ds, l, address, length)
  {
    NothingPending(ds, address, length);
    MovesNone(l);
    UnproducedWasOverlooked(ds, nextToken, l, l, address, length);
    hide Unproduced, Overlooked, Pending, Moves, LedgerFits;
  }

  lemma ResolveProduces(ds: seq<Deferred>, nextToken: nat, l: Ledger, now: seq<Deferred>, m: Ledger, address: nat,
                        length: nat)
    requires LedgerFits(ds, nextToken, l) && LedgerFits(now, nextToken, m)
    requires Settled(ds, l, now, m) && !Pending(now, address, length)
    requires Outcome(Matched(ds, address, length), |Matched(ds, address, length)|, m)
    ensures Produced(ds, l, now, m, address, length)
  {
    ResolvedAll(ds, nextToken, m, address, length);
    UnproducedWasOverlooked(ds, nextToken, l, m, address, length);
    assert Once(m);
    hide Unproduced, Overlooked, Pending, Moves, LedgerFits, Outcome, Still;
  }

  lemma FailedAt(ds: seq<Deferred>, l: Ledger, address: nat, length: nat, n: nat)
    requires Outcome(Matched(ds, address, length), n, l) && n != |Matched(ds, address, length)|
    ensures SomeFailed(ds, l, address, length)
  {
  }

  lemma TokenIsNew(ds: seq<Deferred>, nextToken: nat, l: Ledger)
    requires LedgerFits(ds, nextToken, l)
    ensures nextToken > 0
  {
  }

  // ------------------------------------------------------------------------ what fails

  /** A callback that fails on its own account: it reports failure, or loads what is not mapped. A load in the
      device window that throws is where its list of loads ends, in failure. */
  ghost predicate Faulty(regions: seq<Region>, w: Work) {
    !w.succeeds || exists k :: 0 <= k < |w.loads| && Unmapped(regions, w.loads[k])
  }

  ghost predicate Unmapped(regions: seq<Region>, load: Load) {
    !IsMmio(load.address) && Resolve(regions, load.address, load.size).None?
  }

  /** The callback of a read has failed since. */
  ghost predicate Fell(l: Ledger, m: Ledger, t: nat) {
    t in l.status && t in m.status && l.status[t] != FAILED && m.status[t] == FAILED
  }

  /** Something fails exactly when a callback that is itself at fault does; otherwise nothing is lost. */
  ghost predicate Faults(regions: seq<Region>, l: Ledger, m: Ledger, failed: bool) {
    && m.registered == l.registered && m.status.Keys == l.status.Keys == l.registered.Keys
    && (forall t | t in l.status && l.status[t] == FAILED :: m.status[t] == FAILED)
    && if failed
       then exists t :: Fell(l, m, t) && Faulty(regions, m.registered[t].work)
       else forall t | t in l.status && m.status[t] in {FAILED, LOST} :: m.status[t] == l.status[t]
  }

  lemma FaultsNone(regions: seq<Region>, l: Ledger)
    requires l.status.Keys == l.registered.Keys
    ensures Faults(regions, l, l, false)
  {
  }

  lemma FaultsOn(regions: seq<Region>, l: Ledger, m: Ledger, n: Ledger, failed: bool)
    requires Faults(regions, l, m, false) && Faults(regions, m, n, failed)
    ensures Faults(regions, l, n, failed)
  {
    if failed {
      var t :| Fell(m, n, t) && Faulty(regions, n.registered[t].work);
      assert Fell(l, n, t);
    }
  }

  lemma TakenFaults(regions: seq<Region>, ds: seq<Deferred>, nextToken: nat, l: Ledger, taken: seq<Deferred>)
    requires LedgerFits(ds, nextToken, l) && (forall d | d in taken :: d in ds)
    ensures Faults(regions, l, Set(l, Tokens(taken), IN_FLIGHT), false)
  {
    assert forall t | t in Tokens(taken) :: l.status[t] == PENDING;
  }

  lemma LostFaults(regions: seq<Region>, l: Ledger, m: Ledger, tokens: set<nat>)
    requires Faults(regions, l, m, true) && (forall t | t in tokens :: t in m.status && m.status[t] == IN_FLIGHT)
    ensures Faults(regions, l, Set(m, tokens, LOST), true)
  {
    var t :| Fell(l, m, t) && Faulty(regions, m.registered[t].work);
    assert Fell(l, Set(m, tokens, LOST), t);
  }

  /** A callback's loads have failed, if so for a reason of its own or another's, or have not; and it ends. */
  lemma EndedFaults(regions: seq<Region>, d: Deferred, ds: seq<Deferred>, nextToken: nat, l: Ledger,
                    now: seq<Deferred>, m: Ledger, ok: bool)
    requires LedgerFits(ds, nextToken, l) && d.token in l.status && l.status[d.token] == IN_FLIGHT
    requires l.registered[d.token] == d && Running(d, ds, l, now, m)
    requires ok ==> Faults(regions, Begun(l, d.token), m, false)
    requires !ok ==> !d.work.succeeds || Faulty(regions, d.work) || Faults(regions, Begun(l, d.token), m, true)
    ensures Faults(regions, l, Ended(m, d.token, ok), !ok)
  {
    KeysAgree(ds, nextToken, l);
    hide LedgerFits, InFlight, Still, Resolve;
    if ok {
      EndedWell(regions, d, l, m);
    } else if Faulty(regions, d.work) {
      assert Fell(l, Ended(m, d.token, ok), d.token);
    } else {
      hide Faulty;
      var t :| Fell(Begun(l, d.token), m, t) && Faulty(regions, m.registered[t].work);
      assert Fell(l, Ended(m, d.token, ok), t);
    }
  }

  lemma EndedWell(regions: seq<Region>, d: Deferred, l: Ledger, m: Ledger)
    requires d.token in l.status && l.status[d.token] == IN_FLIGHT && Moves(Begun(l, d.token), m, {})
    requires l.status.Keys == l.registered.Keys && Faults(regions, Begun(l, d.token), m, false)
    ensures Faults(regions, l, Ended(m, d.token, true), false)
  {
  }

  // ------------------------------------------------------------- what a callback is answered

  /** What a load was answered, and the list and the ledger then. */
  datatype Answer = Answer(access: Access, list: seq<Deferred>, ledger: Ledger)

  /** A callback's turn in a resolve: what its loads were answered, and how it ended. */
  datatype Turn = Turn(answers: seq<Answer>, ok: bool, list: seq<Deferred>, ledger: Ledger)

  /** What a checked load comes to. */
  ghost predicate AnswerTo(regions: seq<Region>, load: Load, ds: seq<Deferred>, l: Ledger, a: Answer) {
    && l.status.Keys == l.registered.Keys && a.ledger.status.Keys == a.ledger.registered.Keys
    && Once(a.ledger) && Settled(ds, l, a.list, a.ledger)
    && Faults(regions, l, a.ledger, SomeFailed(ds, a.ledger, load.address, load.size))
    && (SomeFailed(ds, a.ledger, load.address, load.size) ==> a.access.Violation?)
    && match a.access
       case Host(pointer) =>
         && (forall i: nat | i < load.size :: HostAt(regions, load.address, pointer, i))
         && (InPage(load.address, load.size) ==> Produced(ds, l, a.list, a.ledger, load.address, load.size))
       case Device => IsMmio(load.address)
       case Violation =>
         !IsMmio(load.address) && (SomeFailed(ds, a.ledger, load.address, load.size) || Unmapped(regions, load))
  }

  ghost function ListAt(ds: seq<Deferred>, answers: seq<Answer>, k: nat): seq<Deferred>
    requires k <= |answers|
  {
    if k == 0 then ds else answers[k - 1].list
  }

  ghost function LedgerAt(l: Ledger, answers: seq<Answer>, k: nat): Ledger
    requires k <= |answers|
  {
    if k == 0 then l else answers[k - 1].ledger
  }

  /** Loads are answered in order, up to the first violation. */
  ghost predicate Answers(regions: seq<Region>, loads: seq<Load>, ds: seq<Deferred>, l: Ledger, answers: seq<Answer>) {
    && |answers| <= |loads|
    && (forall k | 0 <= k < |answers| ::
          AnswerTo(regions, loads[k], ListAt(ds, answers, k), LedgerAt(l, answers, k), answers[k]))
    && (forall k | 0 <= k < |answers| :: answers[k].access.Violation? ==> k == |answers| - 1)
  }

  /** No load so far was a violation. */
  ghost predicate NoViolation(answers: seq<Answer>) {
    forall k | 0 <= k < |answers| :: !answers[k].access.Violation?
  }

  /** A callback makes its loads, up to the first that is a violation; it succeeds exactly when none is and
      it reports success. */
  ghost predicate TakesTurn(regions: seq<Region>, d: Deferred, ds: seq<Deferred>, l: Ledger, turn: Turn) {
    && Answers(regions, d.work.loads, ds, Begun(l, d.token), turn.answers)
    && (NoViolation(turn.answers) ==> |turn.answers| == |d.work.loads|)
    && (turn.ok <==> NoViolation(turn.answers) && d.work.succeeds)
    && turn.list == ListAt(ds, turn.answers, |turn.answers|)
    && turn.ledger == Ended(LedgerAt(Begun(l, d.token), turn.answers, |turn.answers|), d.token, turn.ok)
  }

  /** A callback's loads are being answered. */
  ghost predicate Underway(regions: seq<Region>, loads: seq<Load>, ds: seq<Deferred>, l: Ledger, answers: seq<Answer>,
                           now: seq<Deferred>, m: Ledger) {
    && Answers(regions, loads, ds, l, answers)
    && now == ListAt(ds, answers, |answers|) && m == LedgerAt(l, answers, |answers|)
  }

  lemma UnderwayMore(regions: seq<Region>, loads: seq<Load>, ds: seq<Deferred>, l: Ledger, answers: seq<Answer>,
                     now: seq<Deferred>, m: Ledger, a: Answer)
    requires Underway(regions, loads, ds, l, answers, now, m) && NoViolation(answers) && |answers| < |loads|
    requires AnswerTo(regions, loads[|answers|], now, m, a)
    ensures Underway(regions, loads, ds, l, answers + [a], a.list, a.ledger)
    ensures NoViolation(answers + [a]) <==> !a.access.Violation?
  {
    hide AnswerTo;
    var more := answers + [a];
    forall k | 0 <= k < |more|
      ensures AnswerTo(regions, loads[k], ListAt(ds, more, k), LedgerAt(l, more, k), more[k])
    {
      if k < |answers| {
        assert ListAt(ds, more, k) == ListAt(ds, answers, k) && LedgerAt(l, more, k) == LedgerAt(l, answers, k);
      }
    }
    assert more[|answers|] == a;
  }

  lemma TurnEnds(regions: seq<Region>, d: Deferred, ds: seq<Deferred>, l: Ledger, answers: seq<Answer>,
                 now: seq<Deferred>, m: Ledger, ok: bool)
    requires Underway(regions, d.work.loads, ds, Begun(l, d.token), answers, now, m)
    requires NoViolation(answers) ==> |answers| == |d.work.loads|
    requires ok <==> NoViolation(answers) && d.work.succeeds
    ensures TakesTurn(regions, d, ds, l, Turn(answers, ok, now, Ended(m, d.token, ok)))
  {
  }

  lemma StillNotPending(ds: seq<Deferred>, l: Ledger, address: nat, length: nat)
    requires !Pending(ds, address, length)
    ensures !Pending(Still(ds, l), address, length)
  {
    NothingPending(ds, address, length);
    StillIn(ds, l);
    var left := Still(ds, l);
    forall k | 0 <= k < |left| ensures !Overlaps(address, length, left[k]) {
      assert left[k] in left;
    }
  }

  lemma AnswerLeaves(regions: seq<Region>, load: Load, ds: seq<Deferred>, l: Ledger, a: Answer)
    requires AnswerTo(regions, load, ds, l, a)
    ensures a.list == Still(ds, a.ledger)
    ensures !a.access.Violation? && !IsMmio(load.address) && InPage(load.address, load.size) ==>
              !Pending(a.list, load.address, load.size)
  {
    hide Moves, Faults, Once, Unproduced, Overlooked, Still, HostAt, SomeFailed;
  }

  lemma {:induction false} StaysProduced(regions: seq<Region>, loads: seq<Load>, ds: seq<Deferred>, l: Ledger,
                                         answers: seq<Answer>, k: nat, j: nat)
    requires Answers(regions, loads, ds, l, answers) && NoViolation(answers) && k < j <= |answers|
    requires !IsMmio(loads[k].address) && InPage(loads[k].address, loads[k].size)
    ensures !Pending(ListAt(ds, answers, j), loads[k].address, loads[k].size)
    decreases j
  {
    hide AnswerTo, Pending;
    assert !answers[j - 1].access.Violation? && ListAt(ds, answers, j) == answers[j - 1].list;
    assert AnswerTo(regions, loads[j - 1], ListAt(ds, answers, j - 1), LedgerAt(l, answers, j - 1), answers[j - 1]);
    hide Answers, NoViolation, ListAt, LedgerAt;
    AnswerLeaves(regions, loads[j - 1], ListAt(ds, answers, j - 1), LedgerAt(l, answers, j - 1), answers[j - 1]);
    if k < j - 1 {
      StaysProduced(regions, loads, ds, l, answers, k, j - 1);
      StillNotPending(ListAt(ds, answers, j - 1), answers[j - 1].ledger, loads[k].address, loads[k].size);
    }
  }

  /** A callback that succeeds has made all its loads: no read whose bytes they are is pending any more. */
  lemma TurnProduces(regions: seq<Region>, d: Deferred, ds: seq<Deferred>, l: Ledger, turn: Turn)
    requires TakesTurn(regions, d, ds, l, turn) && turn.ok
    ensures forall load | load in d.work.loads && !IsMmio(load.address) && InPage(load.address, load.size) ::
              !Pending(turn.list, load.address, load.size)
  {
    hide AnswerTo, Pending;
    forall load | load in d.work.loads && !IsMmio(load.address) && InPage(load.address, load.size)
      ensures !Pending(turn.list, load.address, load.size)
    {
      var k :| 0 <= k < |d.work.loads| && d.work.loads[k] == load;
      StaysProduced(regions, d.work.loads, ds, Begun(l, d.token), turn.answers, k, |turn.answers|);
    }
  }

  /** How things stand before a turn of a resolve. */
  ghost function Standing(ds: seq<Deferred>, l: Ledger, turns: seq<Turn>, k: nat): (seq<Deferred>, Ledger)
    requires k <= |turns|
  {
    if k == 0 then (ds, l) else (turns[k - 1].list, turns[k - 1].ledger)
  }

  /** The callbacks of a resolve take turns, in order, up to the first that fails. */
  ghost predicate TakeTurns(regions: seq<Region>, matches: seq<Deferred>, ds: seq<Deferred>, l: Ledger,
                            turns: seq<Turn>) {
    && |turns| <= |matches|
    && (forall k | 0 <= k < |turns| ::
          TakesTurn(regions, matches[k], Standing(ds, l, turns, k).0, Standing(ds, l, turns, k).1, turns[k]))
    && (forall k | 0 <= k < |turns| :: turns[k].ok || k == |turns| - 1)
  }

  ghost predicate AllOk(turns: seq<Turn>) {
    forall k | 0 <= k < |turns| :: turns[k].ok
  }

  /** The turns of a resolve are over: all callbacks have run, or callback `n` failed and the later reads are lost. */
  ghost predicate TurnsOver(matches: seq<Deferred>, ds: seq<Deferred>, l: Ledger, turns: seq<Turn>,
                            now: seq<Deferred>, m: Ledger, n: nat) {
    && n <= |matches|
    && if n == |matches| then |turns| == n && AllOk(turns) && (now, m) == Standing(ds, l, turns, n)
       else
         && |turns| == n + 1 && !turns[n].ok
         && now == turns[n].list && m == Set(turns[n].ledger, Tokens(matches[n + 1..]), LOST)
  }

  lemma TurnsMore(regions: seq<Region>, matches: seq<Deferred>, ds: seq<Deferred>, l: Ledger, turns: seq<Turn>,
                  now: seq<Deferred>, m: Ledger, turn: Turn)
    requires TakeTurns(regions, matches, ds, l, turns) && AllOk(turns) && |turns| < |matches|
    requires Standing(ds, l, turns, |turns|) == (now, m) && TakesTurn(regions, matches[|turns|], now, m, turn)
    ensures TakeTurns(regions, matches, ds, l, turns + [turn]) && (AllOk(turns + [turn]) <==> turn.ok)
    ensures Standing(ds, l, turns + [turn], |turns| + 1) == (turn.list, turn.ledger)
  {
    hide TakesTurn;
    var more := turns + [turn];
    forall k | 0 <= k < |more|
      ensures TakesTurn(regions, matches[k], Standing(ds, l, more, k).0, Standing(ds, l, more, k).1, more[k])
    {
      if k < |turns| {
        assert Standing(ds, l, more, k) == Standing(ds, l, turns, k);
      }
    }
    assert more[|turns|] == turn;
  }

  /** What the callbacks of the reads an access takes off the list do. */
  ghost predicate Resolves(regions: seq<Region>, ds: seq<Deferred>, l: Ledger, address: nat, length: nat,
                           turns: seq<Turn>) {
    TakeTurns(regions, Matched(ds, address, length), Kept(ds, address, length),
              Set(l, Tokens(Matched(ds, address, length)), IN_FLIGHT), turns)
  }

  lemma TurnsBegin(regions: seq<Region>, matches: seq<Deferred>, ds: seq<Deferred>, l: Ledger)
    requires l.status.Keys == l.registered.Keys
    ensures TakeTurns(regions, matches, ds, l, []) && AllOk([]) && Faults(regions, l, l, false)
  {
  }

  lemma AnswersBegin(regions: seq<Region>, d: Deferred, ds: seq<Deferred>, l: Ledger)
    requires l.status.Keys == l.registered.Keys && d.token in l.status
    ensures Underway(regions, d.work.loads, ds, Begun(l, d.token), [], ds, Begun(l, d.token)) && NoViolation([])
    ensures Faults(regions, Begun(l, d.token), Begun(l, d.token), false)
  {
  }

  lemma KeysAgree(ds: seq<Deferred>, nextToken: nat, l: Ledger)
    requires LedgerFits(ds, nextToken, l)
    ensures l.status.Keys == l.registered.Keys && Once(l)
  {
  }

  /** One more load of a callback is answered. */
  lemma LoadFaults(regions: seq<Region>, w: Work, k: nat, list: seq<Deferred>, begun: Ledger, l: Ledger, a: Answer)
    requires k < |w.loads| && AnswerTo(regions, w.loads[k], list, l, a) && Faults(regions, begun, l, false)
    ensures !a.access.Violation? ==> Faults(regions, begun, a.ledger, false)
    ensures a.access.Violation? ==> Faulty(regions, w) || Faults(regions, begun, a.ledger, true)
  {
    var failed := SomeFailed(list, a.ledger, w.loads[k].address, w.loads[k].size);
    hide Settled, Produced, SomeFailed;
    FaultsOn(regions, begun, l, a.ledger, failed);
    hide Faults;
  }

  // ------------------------------------------------------------------------- whole runs

  /** No resolve is under way. */
  ghost predicate Idle(l: Ledger) {
    forall t | t in l.status :: l.status[t] !in {IN_FLIGHT, RUNNING}
  }

  lemma SettledIdle(ds: seq<Deferred>, l: Ledger, now: seq<Deferred>, m: Ledger)
    requires Settled(ds, l, now, m) && Idle(l)
    ensures Idle(m)
  {
  }

  lemma SetIdle(l: Ledger, tokens: set<nat>)
    requires Idle(l)
    ensures Idle(Set(l, tokens, CLEARED))
  {
  }

  lemma RegisterIdle(l: Ledger, d: Deferred)
    requires Idle(l)
    ensures Idle(Register(l, d))
  {
  }

  /** A registered read of bytes of an access failed, or was lost to another's failure. */
  ghost predicate LetDown(l: Ledger, address: nat, length: nat)
    requires l.status.Keys == l.registered.Keys
  {
    exists t :: t in l.registered && Overlaps(address, length, l.registered[t]) && l.status[t] in {FAILED, LOST}
  }

  /** Some callback has failed. */
  ghost predicate AnyFailed(l: Ledger) {
    exists t :: t in l.status && l.status[t] == FAILED
  }

  ghost function Works(ds: seq<Deferred>): set<Work> {
    set d | d in ds :: d.work
  }

  /** No callback that is waiting would fail on its own account. */
  ghost predicate NoneFaulty(regions: seq<Region>, works: set<Work>) {
    forall w | w in works :: !Faulty(regions, w)
  }

  lemma FellWasWaiting(ds: seq<Deferred>, nextToken: nat, l: Ledger, now: seq<Deferred>, m: Ledger, t: nat)
    requires LedgerFits(ds, nextToken, l) && Idle(l) && Settled(ds, l, now, m) && Fell(l, m, t)
    ensures t in m.registered && m.registered[t].work in Works(ds)
  {
    assert l.registered[t] in ds;
  }

  /** Then none fails. */
  lemma NoneFails(ds: seq<Deferred>, nextToken: nat, l: Ledger, now: seq<Deferred>, m: Ledger, regions: seq<Region>,
                  failed: bool)
    requires LedgerFits(ds, nextToken, l) && Idle(l) && Settled(ds, l, now, m) && NoneFaulty(regions, Works(ds))
    requires Faults(regions, l, m, failed)
    ensures !failed && (AnyFailed(m) ==> AnyFailed(l)) && Works(now) <= Works(ds)
  {
    WorksShrink(ds, l, now, m);
    hide Faulty, LedgerFits, Idle, Settled, Works;
    if failed {
      var t :| Fell(l, m, t) && Faulty(regions, m.registered[t].work);
      FellWasWaiting(ds, nextToken, l, now, m, t);
    }
  }

  lemma WorksShrink(ds: seq<Deferred>, l: Ledger, now: seq<Deferred>, m: Ledger)
    requires Settled(ds, l, now, m)
    ensures Works(now) <= Works(ds)
  {
    StillIn(ds, m);
  }

  /** Between operations, what a load within its page overlooks was let down by a failure. */
  lemma ProducedWhenIdle(ds: seq<Deferred>, nextToken: nat, l: Ledger, now: seq<Deferred>, m: Ledger, address: nat,
                         length: nat)
    requires LedgerFits(ds, nextToken, l) && LedgerFits(now, nextToken, m) && Idle(l)
    requires Settled(ds, l, now, m) && Produced(ds, l, now, m, address, length)
    ensures Unproduced(m, address, length) <==> LetDown(m, address, length)
    ensures Unproduced(m, address, length) ==> AnyFailed(m)
  {
    SettledIdle(ds, l, now, m);
    hide Moves, Still, Pending, Honest, Once;
    if Unproduced(m, address, length) {
      var t :| t in l.registered && Overlaps(address, length, l.registered[t])
          && l.status[t] in {IN_FLIGHT, RUNNING, FAILED, LOST};
      StaysAsItIs(l, m, t);
      assert m.status[t] in {FAILED, LOST};
    }
  }

  lemma StaysAsItIs(l: Ledger, m: Ledger, t: nat)
    requires Moves(l, m, {}) && t in l.status && l.status[t] != PENDING
    ensures m.registered == l.registered && t in m.status && m.status[t] == l.status[t]
  {
  }

  // ------------------------------------------------------------------- two at one place

  lemma MatchedTwo(f: Deferred, b: Deferred, address: nat, length: nat)
    requires Overlaps(address, length, f) && Overlaps(address, length, b)
    ensures Matched([f, b], address, length) == [f, b] && Kept([f, b], address, length) == []
  {
    assert [f, b][..1] == [f] && [f][..0] == [];
    assert Matched([f], address, length) == [f] && Kept([f], address, length) == [];
  }

  /** Two reads of a load's bytes wait, of which the first is to fail. */
  ghost predicate FailsFirst(f: Deferred, b: Deferred, address: nat, length: nat) {
    && Overlaps(address, length, f) && Overlaps(address, length, b)
    && f.work == Work([], false) && b.work == Work([], true)
  }

  /** The load does not come back. */
  lemma FirstIsNotDone(f: Deferred, b: Deferred, nextToken: nat, l: Ledger, now: seq<Deferred>, m: Ledger, address: nat,
                       length: nat)
    requires LedgerFits([f, b], nextToken, l) && LedgerFits(now, nextToken, m) && Settled([f, b], l, now, m)
    requires FailsFirst(f, b, address, length)
    ensures !Produced([f, b], l, now, m, address, length)
  {
    var ds := [f, b];
    assert ds[0] == f && f in ds;
    assert m.registered[f.token] == f && m.status[f.token] != DONE;
    hide LedgerFits, Pending, Still, Unproduced, Overlooked;
  }

  lemma HasFirst(ds: seq<Deferred>)
    ensures ds != [] ==> ds[0] in ds
  {
  }

  /** And it abandons the second. */
  lemma SecondIsLost(f: Deferred, b: Deferred, nextToken: nat, l: Ledger, now: seq<Deferred>, m: Ledger, address: nat,
                     length: nat)
    requires LedgerFits([f, b], nextToken, l) && LedgerFits(now, nextToken, m) && Settled([f, b], l, now, m)
    requires FailsFirst(f, b, address, length) && SomeFailed([f, b], m, address, length)
    ensures now == [] && b.token in m.status && m.status[b.token] == LOST && m.registered == l.registered
    ensures b.token in l.registered && l.registered[b.token] == b
  {
    var ds := [f, b];
    assert ds[0] == f && ds[1] == b && f in ds && b in ds;
    assert m.registered[f.token] == f && m.registered[b.token] == b && m.status[f.token] != DONE;
    MatchedTwo(f, b, address, length);
    var n: nat :| n < |Matched(ds, address, length)| && Outcome(Matched(ds, address, length), n, m);
    hide Matched, InOrder, LedgerFits, Still;
    assert n == 0;
    StillIn(ds, m);
    assert forall d | d in now :: d == f || d == b;
    HasFirst(now);
  }

  /** A load that finds nothing pending leaves a lost read lost. */
  lemma StaysLost(now: seq<Deferred>, m: Ledger, after: seq<Deferred>, nextToken: nat, n: Ledger, t: nat)
    requires Settled(now, m, after, n) && LedgerFits(after, nextToken, n)
    requires t in m.status && m.status[t] == LOST
    ensures n.registered == m.registered && t in n.status && n.status[t] == LOST && t !in n.ran
  {
  }

  lemma BothTaken(f: Deferred, b: Deferred, nextToken: nat, l: Ledger)
    requires LedgerFits([f, b], nextToken, l) && Overlaps(0, 4, f) && Overlaps(0, 4, b)
    ensures var m := Set(l, Tokens([f, b]), IN_FLIGHT);
            && Kept([f, b], 0, 4) == [] && Matched([f, b], 0, 4) == [f, b]
            && f.token in m.status && m.status[f.token] == IN_FLIGHT
            && b.token in m.status && m.status[b.token] == IN_FLIGHT
            && f.token != b.token && m.registered[b.token] == b
  {
    MatchedTwo(f, b, 0, 4);
    var ds := [f, b];
    assert ds[0] == f && ds[1] == b && f in ds && b in ds;
  }

  lemma OnlyLoad(regions: seq<Region>, d: Deferred, ds: seq<Deferred>, l: Ledger, turn: Turn)
    requires TakesTurn(regions, d, ds, l, turn) && |d.work.loads| == 1
    ensures turn.answers != [] && AnswerTo(regions, d.work.loads[0], ds, Begun(l, d.token), turn.answers[0])
  {
    hide AnswerTo;
  }

  lemma StaysInFlight(regions: seq<Region>, t: nat, u: nat, l: Ledger, a: Answer)
    requires t in l.status && u in l.status && t != u && l.status[u] == IN_FLIGHT
    requires AnswerTo(regions, Load(0, 4), [], Begun(l, t), a) && Resolve(regions, 0, 4).Some?
    ensures a.access.Host? && a.ledger.registered == l.registered && a.ledger.status.Keys == l.status.Keys
    ensures a.ledger.status[u] == IN_FLIGHT && u !in a.ledger.ran
  {
    NothingFails(0, 4);
    hide SomeFailed, Produced, Still, Faults, Resolve, HostAt;
  }

  /** Of two reads of the same bytes, the first callback's load of them is answered while the second is in flight. */
  lemma SiblingOverlooked(regions: seq<Region>, r: Deferred, s: Deferred, nextToken: nat, l: Ledger, turns: seq<Turn>)
    requires LedgerFits([r, s], nextToken, l) && Overlaps(0, 4, r) && Overlaps(0, 4, s)
    requires r.work.loads == [Load(0, 4)] && Resolve(regions, 0, 4).Some?
    requires Resolves(regions, [r, s], l, 0, 4, turns) && turns != []
    ensures turns[0].answers != [] && turns[0].answers[0].access.Host?
    ensures var m := turns[0].answers[0].ledger;
            && m.registered == l.registered && s.token in m.status && m.status[s.token] == IN_FLIGHT
               && s.token !in m.ran
            && s.token in m.registered && m.registered[s.token] == s
  {
    BothTaken(r, s, nextToken, l);
    var taken := Set(l, Tokens([r, s]), IN_FLIGHT);
    hide Set, Tokens, LedgerFits, TakesTurn;
    assert TakesTurn(regions, r, [], taken, turns[0]);
    hide TakeTurns, Matched, Kept, Resolves;
    OnlyLoad(regions, r, [], taken, turns[0]);
    hide AnswerTo;
    var a := turns[0].answers[0];
    StaysInFlight(regions, r.token, s.token, taken, a);
  }

  lemma NothingFails(address: nat, length: nat)
    ensures forall l :: !SomeFailed([], l, address, length)
  {
  }
}
