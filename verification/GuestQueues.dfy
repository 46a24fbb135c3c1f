/**
 The guest scheduler's queues: taking a thread out of its queue, waking a join queue onto the
 run queues, and the exit of a guest thread.

 The state is the guest memory the queues live in, keyed by thread or queue address, with the
 32-bit word that has bit 31 - p set while run queue p is not empty.  `lists` is what the link
 words spell; every operation says what it does to the lists and keeps the words spelling them.
 */
module GuestQueues {
  import opened GuestLists

  const PRIORITIES := 32
  const MAX_WAKE := 256
  const JOIN_QUEUE_OFFSET := 0x2E8

  const DEAD := 0
  const READY := 1
  const MORIBUND := 8

  type Lists = map<Addr, seq<Addr>>

  ghost predicate AllLinked(m: Links, lists: Lists) {
    forall q | q in lists :: Linked(m, q, lists[q])
  }

  /** Every thread that names a queue, but `loose`, is in that queue; `loose` is in none. */
  ghost predicate Owned(m: Links, lists: Lists, loose: Addr) {
    && (forall t | t in m.queueOf && t != loose && m.queueOf[t] != 0 ::
          m.queueOf[t] in lists && t in lists[m.queueOf[t]])
    && (forall q | q in lists :: loose !in lists[q])
  }

  ghost predicate Threads(m: Links) {
    && m.next.Keys == m.prev.Keys == m.queueOf.Keys
    && 0 !in m.queueOf
  }

  // ------------------------------------------------ lists under single rewrites

  lemma BypassAll(m: Links, lists: Lists, q: Addr, k: nat)
    requires AllLinked(m, lists) && q in lists && k < |lists[q]|
    ensures AllLinked(Bypass(m, q, At(lists[q], k + 1), At(lists[q], k - 1)), lists[q := RemoveAt(lists[q], k)])
  {
    var s := lists[q];
    var m', lists' := Bypass(m, q, At(s, k + 1), At(s, k - 1)), lists[q := RemoveAt(s, k)];
    forall r | r in lists' ensures Linked(m', r, lists'[r]) {
      hide Linked, Bypass, RemoveAt, At;
      if r == q {
        BypassLinked(m, q, s, k);
      } else {
        BypassFrame(m, q, s, k, r, lists[r]);
      }
    }
  }

  lemma AppendAll(m: Links, lists: Lists, q: Addr, t: Addr)
    requires AllLinked(m, lists) && q in lists && q in m.tail && IsThread(m, t)
    requires forall r | r in lists :: t !in lists[r]
    ensures AllLinked(Append(m, q, t), lists[q := lists[q] + [t]])
  {
    var m', lists' := Append(m, q, t), lists[q := lists[q] + [t]];
    forall r | r in lists' ensures Linked(m', r, lists'[r]) {
      hide Linked, Append;
      if r == q {
        AppendLinked(m, q, lists[q], t);
      } else {
        AppendFrame(m, q, lists[q], t, r, lists[r]);
      }
    }
  }

  lemma ReleaseAll(m: Links, lists: Lists, t: Addr, q: Addr)
    requires AllLinked(m, lists) && forall r | r in lists :: t !in lists[r]
    ensures AllLinked(Release(m, t, q), lists)
  {
    forall r | r in lists ensures Linked(Release(m, t, q), r, lists[r]) {
      hide Linked, Release;
      ReleaseFrame(m, t, q, r, lists[r]);
    }
  }

  lemma RemovedFrom(s: seq<Addr>, k: nat, t: Addr)
    requires k < |s| && Distinct(s)
    ensures t in RemoveAt(s, k) <==> t in s && t != s[k]
  {
    RemoveAtDistinct(s, k);
    if t in s && t != s[k] {
      var i :| 0 <= i < |s| && s[i] == t;
      assert RemoveAt(s, k)[if i < k then i else i - 1] == t;
    }
  }

  /** Without the thread at place `k` of its queue, the lists are owned but for that thread. */
  lemma BypassOwned(m: Links, lists: Lists, q: Addr, k: nat)
    requires Threads(m) && AllLinked(m, lists) && Owned(m, lists, 0) && q in lists && k < |lists[q]|
    ensures Owned(Bypass(m, q, At(lists[q], k + 1), At(lists[q], k - 1)),
                  lists[q := RemoveAt(lists[q], k)], lists[q][k])
  {
    var s, t := lists[q], lists[q][k];
    var lists' := lists[q := RemoveAt(s, k)];
    assert Node(m, q, s, k);
    forall x | x in m.queueOf && x != t && m.queueOf[x] != 0 ensures m.queueOf[x] in lists'
      && x in lists'[m.queueOf[x]] {
      assert m.queueOf[x] in lists && x in lists[m.queueOf[x]];
      RemovedFrom(s, k, x);
    }
    forall r | r in lists' ensures t !in lists'[r] {
      RemovedFrom(s, k, t);
      if r != q && t in lists[r] {
        MemberOfOneQueue(m, q, s, r, lists[r], t);
      }
    }
  }

  // ------------------------------------------------------------ the word of set bits

  /** A 32-bit word as the set of its one bits, numbered from the low end: `|= 1u << b` adds `b`
      and `&= ~(1u << b)` removes it. */
  type Bits = b: set<nat> | forall i | i in b :: i < 32

  predicate HasBit(pending: Bits, p: nat)
    requires p < PRIORITIES
  {
    31 - p in pending
  }

  /** The bit of a priority is set exactly when its run queue is not empty. */
  ghost predicate MaskOf(runQueues: Addr, pending: Bits, lists: Lists) {
    forall p: nat | p < PRIORITIES ::
      runQueues + 8 * p in lists && (HasBit(pending, p) <==> lists[runQueues + 8 * p] != [])
  }

  lemma MaskOfOther(runQueues: Addr, pending: Bits, lists: Lists, q: Addr, s: seq<Addr>)
    requires MaskOf(runQueues, pending, lists)
    requires forall p: nat | p < PRIORITIES :: runQueues + 8 * p != q
    ensures MaskOf(runQueues, pending, lists[q := s])
  {
  }

  lemma MaskOfRemoval(runQueues: Addr, before: Bits, after: Bits, lists: Lists, q: Addr, s: seq<Addr>)
    requires MaskOf(runQueues, before, lists) && q in lists && (s != [] ==> lists[q] != [])
    requires forall p: nat | p < PRIORITIES ::
               HasBit(after, p) <==> HasBit(before, p) && !(q == runQueues + 8 * p && s == [])
    ensures MaskOf(runQueues, after, lists[q := s])
  {
  }

  lemma MaskOfEnqueued(runQueues: Addr, pending: Bits, lists: Lists, p: nat, s: seq<Addr>)
    requires MaskOf(runQueues, pending, lists) && p < PRIORITIES && s != []
    ensures MaskOf(runQueues, pending + {31 - p}, lists[runQueues + 8 * p := s])
  {
  }

  // -------------------------------------------------------------------- waking, as values

  function Clamp(priority: int): nat {
    if priority < 0 then 0 else if priority > 31 then 31 else priority
  }

  /** What waking looks at in a thread. */
  datatype ThreadWords = ThreadWords(state: map<Addr, nat>, suspend: map<Addr, int>, priority: map<Addr, int>)

  ghost predicate Knows(w: ThreadWords, t: Addr) {
    t in w.state && t in w.suspend && t in w.priority
  }

  ghost predicate Runnable(w: ThreadWords, t: Addr)
    requires Knows(w, t)
  {
    w.state[t] != DEAD && w.state[t] != MORIBUND && w.suspend[t] < 1
  }

  /** The threads of `ts` that go to run queue `p`, in order. */
  ghost function Selected(w: ThreadWords, ts: seq<Addr>, p: nat): seq<Addr>
    requires forall t | t in ts :: Knows(w, t)
  {
    if ts == [] then []
    else
      var t, before := ts[|ts| - 1], Selected(w, ts[..|ts| - 1], p);
      if Runnable(w, t) && Clamp(w.priority[t]) == p then before + [t] else before
  }

  ghost function Dropped(w: ThreadWords, ts: seq<Addr>): seq<Addr>
    requires forall t | t in ts :: Knows(w, t)
  {
    if ts == [] then []
    else
      var t, before := ts[|ts| - 1], Dropped(w, ts[..|ts| - 1]);
      if Runnable(w, t) then before else before + [t]
  }

  /** The threads that go to run queues `p` and up. */
  ghost function Spread(w: ThreadWords, ts: seq<Addr>, p: nat): multiset<Addr>
    requires forall t | t in ts :: Knows(w, t)
    requires p <= PRIORITIES
    decreases PRIORITIES - p
  {
    if p == PRIORITIES then multiset{}
    else multiset(Selected(w, ts, p)) + Spread(w, ts, p + 1)
  }

  lemma {:induction false} SpreadStep(w: ThreadWords, ts: seq<Addr>, p: nat)
    requires forall t | t in ts :: Knows(w, t)
    requires ts != [] && p <= PRIORITIES
    ensures var t := ts[|ts| - 1];
            Spread(w, ts, p) ==
            Spread(w, ts[..|ts| - 1], p)
            + (if Runnable(w, t) && Clamp(w.priority[t]) >= p then multiset{t} else multiset{})
    decreases PRIORITIES - p
  {
    if p < PRIORITIES {
      SpreadStep(w, ts, p + 1);
    }
  }

  /** Waking loses no thread and makes none twice: the woken threads are those spread over the
      run queues and those dropped, each exactly as often as it was in the queue. */
  lemma {:induction false} WakingConserves(w: ThreadWords, ts: seq<Addr>)
    requires forall t | t in ts :: Knows(w, t)
    ensures multiset(ts) == Spread(w, ts, 0) + multiset(Dropped(w, ts))
  {
    if ts == [] {
      SpreadOfNone(w, 0);
    } else {
      hide Runnable, Clamp, Spread, Selected, Dropped;
      var t, before := ts[|ts| - 1], ts[..|ts| - 1];
      WakingConserves(w, before);
      SpreadStep(w, ts, 0);
      LastDropped(w, ts);
      LastAdded(ts);
      AddMiddle(Spread(w, before, 0), multiset(Dropped(w, before)), t, Runnable(w, t));
    }
  }

  lemma LastAdded(ts: seq<Addr>)
    requires ts != []
    ensures multiset(ts) == multiset(ts[..|ts| - 1]) + multiset{ts[|ts| - 1]}
  {
    assert ts == ts[..|ts| - 1] + [ts[|ts| - 1]];
  }

  lemma AddMiddle(a: multiset<Addr>, b: multiset<Addr>, t: Addr, first: bool)
    ensures a + b + multiset{t} ==
            (a + (if first then multiset{t} else multiset{})) + (b + (if first then multiset{} else multiset{t}))
  {
    if first {
    } else {
    }
  }

  lemma LastDropped(w: ThreadWords, ts: seq<Addr>)
    requires forall t | t in ts :: Knows(w, t)
    requires ts != []
    ensures var t := ts[|ts| - 1];
            multiset(Dropped(w, ts)) ==
            multiset(Dropped(w, ts[..|ts| - 1])) + (if Runnable(w, t) then multiset{} else multiset{t})
  {
  }

  lemma {:induction false} SpreadOfNone(w: ThreadWords, p: nat)
    requires p <= PRIORITIES
    ensures Spread(w, [], p) == multiset{}
    decreases PRIORITIES - p
  {
    if p < PRIORITIES {
      SpreadOfNone(w, p + 1);
    }
  }

  /** A run queue gets exactly the woken threads of its priority that may run. */
  lemma {:induction false} SelectedMembers(w: ThreadWords, ts: seq<Addr>, p: nat, t: Addr)
    requires forall t | t in ts :: Knows(w, t)
    ensures t in Selected(w, ts, p) <==> t in ts && Runnable(w, t) && Clamp(w.priority[t]) == p
    ensures t in ts ==> (Runnable(w, t) <==> w.state[t] != 0 && w.state[t] != 8 && w.suspend[t] <= 0)
    ensures t in ts && 0 <= w.priority[t] <= 31 ==> Clamp(w.priority[t]) == w.priority[t]
    ensures t in ts && w.priority[t] < 0 ==> Clamp(w.priority[t]) == 0
    ensures t in ts && w.priority[t] > 31 ==> Clamp(w.priority[t]) == 31
  {
    if ts != [] {
      SelectedMembers(w, ts[..|ts| - 1], p, t);
      assert ts == ts[..|ts| - 1] + [ts[|ts| - 1]];
    }
  }

  ghost predicate AnyRunnable(w: ThreadWords, ts: seq<Addr>)
    requires forall t | t in ts :: Knows(w, t)
  {
    exists t :: t in ts && Runnable(w, t)
  }

  /** Waking makes a thread ready unless it is dead, and changes nothing else in any thread. */
  ghost predicate WordsWoken(w: ThreadWords, w': ThreadWords, ts: seq<Addr>) {
    && w'.suspend == w.suspend && w'.priority == w.priority && w'.state.Keys == w.state.Keys
    && forall t | t in w.state ::
         w'.state[t] == if t in ts && w.state[t] != DEAD && w.state[t] != MORIBUND then READY else w.state[t]
  }

  lemma SelectNone(w: ThreadWords)
    ensures forall p :: Selected(w, [], p) == []
  {
  }

  lemma QueueIsKnown(m: Links, lists: Lists, q: Addr, w: ThreadWords)
    requires AllLinked(m, lists) && q in lists && forall t | t in m.queueOf :: Knows(w, t)
    ensures Distinct(lists[q]) && forall t | t in lists[q] :: Knows(w, t)
  {
    assert Linked(m, q, lists[q]);
    forall i | 0 <= i < |lists[q]| ensures Knows(w, lists[q][i]) {
      assert Node(m, q, lists[q], i);
    }
  }

  /** The links spell the lists, up to the thread `loose` on its way from one to another. */
  ghost predicate Sane(m: Links, lists: Lists, w: ThreadWords, loose: Addr) {
    && 0 !in lists && Threads(m) && AllLinked(m, lists) && Owned(m, lists, loose)
    && (forall t | t in m.queueOf :: Knows(w, t))
  }

  lemma SaneRemoval(m: Links, lists: Lists, w: ThreadWords, q: Addr, k: nat)
    requires Sane(m, lists, w, 0) && q in lists && k < |lists[q]|
    ensures var t := lists[q][k];
            && IsThread(m, t) && m.next[t] == At(lists[q], k + 1) && m.prev[t] == At(lists[q], k - 1)
    ensures var m' := Removed(m, lists, q, k);
            && Sane(m', lists[q := RemoveAt(lists[q], k)], w, 0)
            && m'.queueOf.Keys == m.queueOf.Keys && lists[q][k] in m'.queueOf && m'.queueOf[lists[q][k]] == 0
  {
    assert Linked(m, q, lists[q]);
    NeighboursAreThreads(m, q, lists[q], k);
    RemovalConsistent(m, lists, q, k);
    assert Removed(m, lists, q, k).queueOf[lists[q][k]] == 0;
    hide Linked, AllLinked, Owned, Threads, Removed, At, RemoveAt;
  }

  lemma SaneHead(m: Links, lists: Lists, w: ThreadWords, q: Addr)
    requires Sane(m, lists, w, 0) && q in lists && lists[q] != []
    ensures q in m.head && m.head[q] == lists[q][0] && IsThread(m, lists[q][0])
    ensures var m', t := TakenHead(m, q), lists[q][0];
            && Sane(m', lists[q := lists[q][1..]], w, t) && m'.queueOf.Keys == m.queueOf.Keys
            && IsThread(m', t) && m'.next[t] == m'.prev[t] == 0
  {
    HeadTaken(m, lists, q);
    hide AllLinked, Owned, TakenHead;
  }

  lemma SaneRelease(m: Links, lists: Lists, w: ThreadWords, t: Addr)
    requires Sane(m, lists, w, t) && IsThread(m, t)
    ensures Sane(Release(m, t, 0), lists, w, 0) && Release(m, t, 0).queueOf.Keys == m.queueOf.Keys
  {
    ReleaseOwned(m, lists, t);
    hide AllLinked, Owned, Threads, Release;
  }

  lemma SaneEnqueue(m: Links, lists: Lists, w: ThreadWords, q: Addr, t: Addr)
    requires Sane(m, lists, w, t) && IsThread(m, t) && q in lists
    ensures q in m.tail && q in m.head
    ensures Sane(Append(m, q, t), lists[q := lists[q] + [t]], w, 0) && Append(m, q, t).queueOf.Keys == m.queueOf.Keys
  {
    EnqueueConsistent(m, lists, q, t);
    hide AllLinked, Owned, Threads, Append;
  }

  /** Only which threads have words matters. */
  lemma SaneWords(m: Links, lists: Lists, w: ThreadWords, w': ThreadWords, loose: Addr)
    requires Sane(m, lists, w, loose)
    requires w'.state.Keys >= w.state.Keys && w'.suspend == w.suspend && w'.priority == w.priority
    ensures Sane(m, lists, w', loose)
  {
    hide AllLinked, Owned, Threads;
  }

  lemma SanePlace(m: Links, lists: Lists, w: ThreadWords, t: Addr) returns (k: nat)
    requires Sane(m, lists, w, 0) && t in m.queueOf && m.queueOf[t] != 0
    ensures m.queueOf[t] in lists && k < |lists[m.queueOf[t]]| && lists[m.queueOf[t]][k] == t
  {
    k := Place(m, lists, t);
  }

  lemma SaneQueue(m: Links, lists: Lists, w: ThreadWords, q: Addr)
    requires Sane(m, lists, w, 0) && q in lists
    ensures q in m.head && q in m.tail && (m.head[q] == 0 <==> lists[q] == [])
    ensures Distinct(lists[q]) && forall t | t in lists[q] :: Knows(w, t)
  {
    HeadOfEmpty(m, q, lists);
    QueueIsKnown(m, lists, q, w);
    assert Linked(m, q, lists[q]);
  }

  lemma SaneLoose(m: Links, lists: Lists, w: ThreadWords, t: Addr)
    requires Sane(m, lists, w, 0) && t in m.queueOf && m.queueOf[t] == 0
    ensures Knows(w, t) && forall q | q in lists :: t !in lists[q]
  {
    InNoQueue(m, lists, t);
  }

  // ------------------------------------------------------------------ guest memory

  class GuestOs {
    const runQueues: Addr

    // Queue words, thread link words, and the other thread words the queues look at.
    var head: map<Addr, Addr>
    var tail: map<Addr, Addr>
    var next: map<Addr, Addr>
    var prev: map<Addr, Addr>
    var queueOf: map<Addr, Addr>
    var state: map<Addr, nat>
    var suspend: map<Addr, int>
    var priority: map<Addr, int>

    var attributes: map<Addr, nat>
    var exitValue: map<Addr, nat>

    var runningContext: Addr
    var currentContext: Addr
    var pending: Bits
    var reschedule: nat

    ghost var lists: Lists

    ghost function M(): Links
      reads this`head, this`tail, this`next, this`prev, this`queueOf
    {
      Links(head, tail, next, prev, queueOf)
    }

    ghost function Words(): ThreadWords
      reads this`state, this`suspend, this`priority
    {
      ThreadWords(state, suspend, priority)
    }

    function RunQueue(p: nat): Addr {
      runQueues + 8 * p
    }

    ghost predicate IsRunQueue(q: Addr) {
      exists p: nat :: p < PRIORITIES && q == RunQueue(p)
    }

    ghost predicate Mask()
      reads this`pending, this`lists
    {
      MaskOf(runQueues, pending, lists)
    }

    /** The links spell the lists, up to the thread `loose` on its way from one to another. */
    ghost predicate Consistent(loose: Addr)
      reads this`head, this`tail, this`next, this`prev, this`queueOf, this`state, this`suspend, this`priority,
        this`lists
    {
      runQueues != 0 && Sane(M(), lists, Words(), loose)
    }

    ghost predicate Valid()
      reads this`head, this`tail, this`next, this`prev, this`queueOf, this`state, this`suspend, this`priority,
        this`lists
      reads this`pending
    {
      Consistent(0) && Mask()
    }

    constructor (runQueues: Addr, queues: set<Addr>, words: ThreadWords)
      requires runQueues != 0 && 0 !in queues
      requires forall p: nat | p < PRIORITIES :: runQueues + 8 * p in queues
      requires words.state.Keys == words.suspend.Keys == words.priority.Keys && 0 !in words.state
      ensures Valid() && this.runQueues == runQueues
      ensures lists == map q | q in queues :: []
      ensures Words() == words
    {
      this.runQueues := runQueues;
      head := map q | q in queues :: 0;
      tail := map q | q in queues :: 0;
      next := map t | t in words.state :: 0;
      prev := map t | t in words.state :: 0;
      queueOf := map t | t in words.state :: 0;
      state, suspend, priority := words.state, words.suspend, words.priority;
      attributes, exitValue := map t | t in words.state :: 0, map t | t in words.state :: 0;
      runningContext, currentContext := 0, 0;
      pending, reschedule := {}, 0;
      lists := map q | q in queues :: [];
    }

    /** Clears the bit of a run queue that has become empty. */
    method ClearPendingMaskForEmptyQueue(q: Addr)
      requires q in head
      modifies this`pending
      ensures forall p: nat | p < PRIORITIES ::
                HasBit(pending, p) <==> old(HasBit(pending, p)) && !(q == RunQueue(p) && head[q] == 0)
    {
      if q < runQueues || (q - runQueues) % 8 != 0 {
        return;
      }
      var p := (q - runQueues) / 8;
      if p >= PRIORITIES || head[q] != 0 {
        return;
      }
      pending := pending - {31 - p};
    }

    /** Takes a thread out of whatever queue it is in. */
    method RemoveThread(t: Addr)
      requires Valid() && t in queueOf
      modifies this`head, this`tail, this`next, this`prev, this`queueOf, this`lists, this`pending
      ensures Valid() && queueOf.Keys == old(queueOf.Keys) && queueOf[t] == 0 && lists.Keys == old(lists).Keys
      ensures old(queueOf[t]) == 0 ==> lists == old(lists)
      ensures old(queueOf[t]) != 0 ==> exists k: nat :: IsRemoval(old(lists), lists, old(queueOf[t]), k, t)
    {
      var q := queueOf[t];
      if q == 0 {
        return;
      }
      ghost var k := SanePlace(M(), lists, Words(), t);
      hide Sane, RemoveAt, MaskOf, IsRemoval;
      RemovalIs(lists, q, k);
      TakeOut(t, q, k);
    }

    /** Takes the thread at a place of a queue out of it. */
    method TakeOut(t: Addr, q: Addr, ghost k: nat)
      requires Valid() && q in lists && k < |lists[q]| && lists[q][k] == t
      modifies this`head, this`tail, this`next, this`prev, this`queueOf, this`lists, this`pending
      ensures Valid() && queueOf.Keys == old(queueOf.Keys) && t in queueOf && queueOf[t] == 0
      ensures lists == old(lists)[q := RemoveAt(old(lists)[q], k)]
    {
      hide Sane, Removed, RemoveAt, HasBit, At, MaskOf;
      ghost var before, m := lists, M();
      SaneRemoval(m, before, Words(), q, k);
      Unlink(t, q);
      RemovedIs(m, before, q, k);
      lists := before[q := RemoveAt(before[q], k)];
      SaneQueue(M(), lists, Words(), q);
      ClearPendingMaskForEmptyQueue(q);
      MaskOfRemoval(runQueues, old(pending), pending, before, q, lists[q]);
    }

    /** The writes to the link words of a thread and its neighbours. */
    method Unlink(t: Addr, q: Addr)
      requires t in next && t in prev
      modifies this`head, this`tail, this`next, this`prev, this`queueOf
      ensures M() == Release(Bypass(old(M()), q, old(next[t]), old(prev[t])), t, 0)
    {
      var n, p := next[t], prev[t];
      if n != 0 {
        prev := prev[n := p];
      } else {
        tail := tail[q := p];
      }
      if p != 0 {
        next := next[p := n];
      } else {
        head := head[q := n];
      }
      queueOf := queueOf[t := 0];
      next := next[t := 0];
      prev := prev[t := 0];
    }

    /** Takes the first thread out of a queue; its queue word still names the queue. */
    method TakeHead(q: Addr) returns (t: Addr)
      requires Consistent(0) && q in lists && lists[q] != []
      modifies this`head, this`tail, this`next, this`prev, this`lists
      ensures t == old(lists[q])[0] && Consistent(t) && IsThread(M(), t) && next[t] == prev[t] == 0
      ensures queueOf.Keys == old(queueOf.Keys) && lists == old(lists)[q := old(lists[q])[1..]]
    {
      ghost var before, m := lists, M();
      hide Sane, TakenHead;
      SaneHead(m, before, Words(), q);
      t := head[q];
      UnlinkHead(q, t);
      lists := before[q := before[q][1..]];
    }

    /** The writes to the link words of the first thread of a queue and its neighbour. */
    method UnlinkHead(q: Addr, t: Addr)
      requires q in head && t == head[q] && t in next && t in prev && t in queueOf
      modifies this`head, this`tail, this`next, this`prev
      ensures M() == TakenHead(old(M()), q)
    {
      var n := next[t];
      if n == 0 {
        tail := tail[q := 0];
      } else {
        prev := prev[n := 0];
      }
      head := head[q := n];
      next := next[t := 0];
      prev := prev[t := 0];
      assert queueOf == queueOf[t := queueOf[t]];
    }

    /** The thread joins no queue. */
    method Drop(t: Addr)
      requires Consistent(t) && IsThread(M(), t) && next[t] == 0 && prev[t] == 0
      modifies this`queueOf
      ensures Consistent(0) && queueOf.Keys == old(queueOf.Keys)
    {
      hide Sane;
      SaneRelease(M(), lists, Words(), t);
      ghost var m := M();
      queueOf := queueOf[t := 0];
      assert M() == Release(m, t, 0);
    }

    /** The thread joins the end of its run queue. */
    method Enqueue(t: Addr, p: nat)
      requires p < PRIORITIES && RunQueue(p) in lists
      requires Consistent(t) && IsThread(M(), t)
      modifies this`head, this`tail, this`next, this`prev, this`queueOf, this`lists, this`pending, this`reschedule
      ensures Consistent(0) && queueOf.Keys == old(queueOf.Keys)
      ensures lists == old(lists)[RunQueue(p) := old(lists)[RunQueue(p)] + [t]]
      ensures pending == old(pending) + {31 - p} && reschedule == 1
    {
      ghost var before, m := lists, M();
      var runQueue := RunQueue(p);
      hide Sane, Append;
      SaneEnqueue(m, before, Words(), runQueue, t);
      Link(t, runQueue);
      lists := before[runQueue := before[runQueue] + [t]];
      pending := pending + {31 - p};
      reschedule := 1;
    }

    /** The writes that put a thread behind the last one of a queue. */
    method Link(t: Addr, q: Addr)
      requires q in tail
      modifies this`head, this`tail, this`next, this`prev, this`queueOf
      ensures M() == Append(old(M()), q, t)
    {
      var last := tail[q];
      if last == 0 {
        head := head[q := t];
      } else {
        next := next[last := t];
      }
      prev := prev[t := last];
      next := next[t := 0];
      tail := tail[q := t];
      queueOf := queueOf[t := q];
    }

    /** One turn of the waking loop: the head of `q` goes where it belongs. */
    method WakeHead(q: Addr)
      requires Valid() && q in lists && lists[q] != [] && !IsRunQueue(q)
      modifies this`head, this`tail, this`next, this`prev, this`queueOf,
               this`lists, this`pending, this`state, this`reschedule
      ensures Valid() && queueOf.Keys == old(queueOf.Keys)
      ensures HeadWoken(old(lists), lists, old(Words()), Words(), q)
      ensures reschedule == if old(Runnable(Words(), lists[q][0])) then 1 else old(reschedule)
    {
      hide Sane, HasBit, MaskOf;
      NotRunQueue(q);
      MaskOfOther(runQueues, pending, lists, q, lists[q][1..]);
      SaneQueue(M(), lists, Words(), q);
      var t := TakeHead(q);
      Settle(t);
    }

    lemma NotRunQueue(q: Addr)
      requires !IsRunQueue(q)
      ensures forall p: nat | p < PRIORITIES :: runQueues + 8 * p != q
    {
      forall p: nat | p < PRIORITIES ensures runQueues + 8 * p != q {
        assert RunQueue(p) == runQueues + 8 * p;
      }
    }

    /** A thread taken off a queue stays off it if it is dead or suspended, else joins its run queue. */
    method Settle(t: Addr)
      requires Consistent(t) && Mask() && IsThread(M(), t) && next[t] == prev[t] == 0
      modifies this`head, this`tail, this`next, this`prev, this`queueOf,
               this`lists, this`pending, this`state, this`reschedule
      ensures Valid() && queueOf.Keys == old(queueOf.Keys)
      ensures Settled(old(lists), lists, old(Words()), Words(), t)
      ensures reschedule == if old(Runnable(Words(), t)) then 1 else old(reschedule)
    {
      hide Sane, HasBit;
      ThreadIsKnown(M(), lists, Words(), t, t);
      if state[t] == DEAD || state[t] == MORIBUND {
        Drop(t);
        return;
      }
      ghost var w := Words();
      state := state[t := READY];
      SaneWords(M(), lists, w, Words(), t);
      if suspend[t] >= 1 {
        Drop(t);
        return;
      }
      var p := Clamp(priority[t]);
      MaskOfEnqueued(runQueues, pending, lists, p, lists[RunQueue(p)] + [t]);
      hide MaskOf;
      Enqueue(t, p);
    }

    /** What settling thread `t` does to the lists and to the words of the threads. */
    ghost predicate Settled(before: Lists, after: Lists, w: ThreadWords, w': ThreadWords, t: Addr) {
      && Knows(w, t)
      && w' == (if w.state[t] == DEAD || w.state[t] == MORIBUND then w else w.(state := w.state[t := READY]))
      && if Runnable(w, t)
         then var r := RunQueue(Clamp(w.priority[t]));
              r in before && after == before[r := before[r] + [t]]
         else after == before
    }

    ghost predicate HeadWoken(before: Lists, after: Lists, w: ThreadWords, w': ThreadWords, q: Addr) {
      && q in before && before[q] != []
      && Settled(before[q := before[q][1..]], after, w, w', before[q][0])
    }

    /** What waking the first `n` threads of queue `q` does to the lists. */
    ghost predicate Woken(before: Lists, after: Lists, w: ThreadWords, q: Addr, n: nat) {
      && q in before && n <= |before[q]| && (forall t | t in before[q] :: Knows(w, t))
      && after.Keys == before.Keys
      && after[q] == before[q][n..]
      && (forall p: nat | p < PRIORITIES ::
            RunQueue(p) in before && after[RunQueue(p)] == before[RunQueue(p)] + Selected(w, before[q][..n], p))
      && (forall r | r in before && r != q && !IsRunQueue(r) :: after[r] == before[r])
    }

    lemma WokenStep(before: Lists, lists: Lists, after: Lists, w: ThreadWords, v: ThreadWords, v': ThreadWords,
                    q: Addr, n: nat)
      requires !IsRunQueue(q) && Woken(before, lists, w, q, n) && n < |before[q]|
      requires HeadWoken(lists, after, v, v', q)
      requires var t := before[q][n];
               && Knows(v, t) && Knows(w, t)
               && v.state[t] == w.state[t] && v.suspend == w.suspend && v.priority == w.priority
      ensures Woken(before, after, w, q, n + 1)
    {
      var t, s := before[q][n], before[q];
      assert lists[q][0] == t && lists[q][1..] == s[n + 1..];
      assert s[..n + 1][..n] == s[..n] && s[..n + 1][n] == t;
      hide Runnable;
      forall p: nat | p < PRIORITIES
        ensures RunQueue(p) in before && after[RunQueue(p)] == before[RunQueue(p)] + Selected(w, s[..n + 1], p)
      {
        WokenRunQueue(before, lists, after, w, v, v', q, n, p);
      }
    }

    lemma WokenRunQueue(before: Lists, lists: Lists, after: Lists, w: ThreadWords, v: ThreadWords, v': ThreadWords,
                        q: Addr, n: nat, p: nat)
      requires !IsRunQueue(q) && Woken(before, lists, w, q, n) && n < |before[q]| && p < PRIORITIES
      requires HeadWoken(lists, after, v, v', q)
      requires var t := before[q][n];
               Knows(v, t) && Knows(w, t) && (Runnable(v, t) <==> Runnable(w, t)) && v.priority == w.priority
      ensures RunQueue(p) in before && after[RunQueue(p)] == before[RunQueue(p)] + Selected(w, before[q][..n + 1], p)
    {
      hide Runnable;
      var t, s := before[q][n], before[q];
      assert RunQueue(p) != q && lists[q][0] == t;
      assert s[..n + 1][..n] == s[..n] && s[..n + 1][n] == t;
      assert lists[RunQueue(p)] == before[RunQueue(p)] + Selected(w, s[..n], p);
      if Runnable(w, t) {
      } else {
      }
    }

    lemma WokenNone(lists: Lists, w: ThreadWords, q: Addr)
      requires q in lists && (forall t | t in lists[q] :: Knows(w, t))
      requires forall p: nat | p < PRIORITIES :: RunQueue(p) in lists
      ensures Woken(lists, lists, w, q, 0) && WordsWoken(w, w, lists[q][..0]) && !AnyRunnable(w, lists[q][..0])
    {
      SelectNone(w);
      assert lists[q][..0] == [];
    }

    lemma WokenRest(before: Lists, lists: Lists, w: ThreadWords, q: Addr, n: nat)
      requires Woken(before, lists, w, q, n) && q in lists
      ensures n <= |before[q]| && (lists[q] == [] <==> n == |before[q]|)
      ensures before[q][..|before[q]|] == before[q]
    {
    }

    /** One more thread woken: the lists, the words and whether any may run. */
    lemma WokenMore(before: Lists, lists: Lists, after: Lists, w: ThreadWords, v: ThreadWords, v': ThreadWords, q: Addr,
                    n: nat)
      requires !IsRunQueue(q) && Woken(before, lists, w, q, n) && n < |before[q]| && Distinct(before[q])
      requires HeadWoken(lists, after, v, v', q) && WordsWoken(w, v, before[q][..n])
      ensures Woken(before, after, w, q, n + 1) && WordsWoken(w, v', before[q][..n + 1])
      ensures q in lists && lists[q] != [] && lists[q][0] == before[q][n]
      ensures Knows(v, before[q][n]) && (Runnable(v, before[q][n]) <==> Runnable(w, before[q][n]))
      ensures AnyRunnable(w, before[q][..n + 1]) <==> AnyRunnable(w, before[q][..n]) || Runnable(w, before[q][n])
    {
      var s := before[q];
      assert lists[q][0] == s[n];
      assert s[n] !in s[..n] && s[..n + 1] == s[..n] + [s[n]] && Knows(w, s[n]);
      WokenStep(before, lists, after, w, v, v', q, n);
      hide Woken;
    }

    /** Wakes every thread of a queue, up to a limit, without switching to any of them. */
    method WakeThreadsOnQueue(q: Addr)
      requires Valid() && q in lists && !IsRunQueue(q)
      modifies this`head, this`tail, this`next, this`prev, this`queueOf,
               this`lists, this`pending, this`state, this`reschedule
      ensures Valid() && queueOf.Keys == old(queueOf.Keys)
      ensures var n := if |old(lists)[q]| < MAX_WAKE then |old(lists)[q]| else MAX_WAKE;
              && Woken(old(lists), lists, old(Words()), q, n)
              && WordsWoken(old(Words()), Words(), old(lists)[q][..n])
              && reschedule == if AnyRunnable(old(Words()), old(lists)[q][..n]) then 1 else old(reschedule)
    {
      ghost var before, w := lists, Words();
      ghost var s := lists[q];
      hide Sane, MaskOf, Woken, HeadWoken, WordsWoken, AnyRunnable;
      SaneQueue(M(), lists, w, q);
      WokenNone(before, w, q);
      for woke := 0 to MAX_WAKE
        invariant Valid() && queueOf.Keys == old(queueOf.Keys)
        invariant woke <= |s| && Woken(before, lists, w, q, woke)
        invariant WordsWoken(w, Words(), s[..woke])
        invariant reschedule == if AnyRunnable(w, s[..woke]) then 1 else old(reschedule)
      {
        SaneQueue(M(), lists, Words(), q);
        WokenRest(before, lists, w, q, woke);
        if head[q] == 0 {
          return;
        }
        ghost var lists', v := lists, Words();
        WakeHead(q);
        WokenMore(before, lists', lists, w, v, Words(), q, woke);
      }
    }

    /** The end of a thread whose entry function returns: it leaves its queue, becomes moribund (or
        dead, when nobody can join it), and its joiners are woken. */
    method ExitThread(t: Addr) returns (ghost left: Lists)
      requires Valid() && t in queueOf && t in attributes
      requires t + JOIN_QUEUE_OFFSET in lists && !IsRunQueue(t + JOIN_QUEUE_OFFSET)
      modifies this
      ensures Valid()
      ensures if old(queueOf[t]) == 0 then left == old(lists)
              else exists k: nat :: IsRemoval(old(lists), left, old(queueOf[t]), k, t)
      ensures var join := t + JOIN_QUEUE_OFFSET;
              && join in left
              && var n := if |left[join]| < MAX_WAKE then |left[join]| else MAX_WAKE;
                 var w := Ended(old(Words()), t, old(attributes[t]));
                 && Woken(left, lists, w, join, n) && WordsWoken(w, Words(), left[join][..n])
      ensures forall q | q in lists :: t !in lists[q]
      ensures t in state && state[t] == if old(attributes[t]) % 2 == 1 then DEAD else MORIBUND
      ensures exitValue == if old(attributes[t]) % 2 == 1 then old(exitValue) else old(exitValue)[t := 0]
      ensures runningContext == (if old(runningContext) == t then 0 else old(runningContext))
      ensures currentContext == (if old(currentContext) == t then 0 else old(currentContext))
      ensures attributes == old(attributes) && reschedule == 1
    {
      hide Consistent, Mask, IsRemoval, Settled, AnyRunnable, Runnable;
      left := LeaveQueues(t);
      ghost var w := Words();
      var join := t + JOIN_QUEUE_OFFSET;
      WakeThreadsOnQueue(join);
      NotWoken(left, lists, w, join, t);
      StateKept(left, w, Words(), join, t);
      hide Woken, WordsWoken;
      ForgetContexts(t);
    }

    /** The thread leaves its queue and takes its final state. */
    method LeaveQueues(t: Addr) returns (ghost left: Lists)
      requires Valid() && t in queueOf && t in attributes
      modifies this`head, this`tail, this`next, this`prev, this`queueOf, this`lists, this`pending, this`state,
        this`exitValue
      ensures Valid() && left == lists && left.Keys == old(lists).Keys
      ensures if old(queueOf[t]) == 0 then left == old(lists)
              else exists k: nat :: IsRemoval(old(lists), left, old(queueOf[t]), k, t)
      ensures forall q | q in left :: t !in left[q]
      ensures Words() == Ended(old(Words()), t, attributes[t]) && t in state
      ensures exitValue == if attributes[t] % 2 == 1 then old(exitValue) else old(exitValue)[t := 0]
    {
      hide Sane, MaskOf, IsRemoval;
      RemoveThread(t);
      left := lists;
      SaneLoose(M(), lists, Words(), t);
      ghost var w := Words();
      var detached := attributes[t] % 2 == 1;
      if !detached {
        exitValue := exitValue[t := 0];
      }
      state := state[t := if detached then DEAD else MORIBUND];
      SaneWords(M(), lists, w, Words(), 0);
    }

    method ForgetContexts(t: Addr)
      requires Valid()
      modifies this`runningContext, this`currentContext, this`reschedule
      ensures Valid()
      ensures runningContext == if old(runningContext) == t then 0 else old(runningContext)
      ensures currentContext == if old(currentContext) == t then 0 else old(currentContext)
      ensures reschedule == 1
    {
      if runningContext == t {
        runningContext := 0;
      }
      if currentContext == t {
        currentContext := 0;
      }
      reschedule := 1;
    }

    /** The words of a thread at its end. */
    ghost function Ended(w: ThreadWords, t: Addr, attributes: nat): ThreadWords {
      w.(state := w.state[t := if attributes % 2 == 1 then DEAD else MORIBUND])
    }

    lemma StateKept(lists: Lists, w: ThreadWords, w': ThreadWords, q: Addr, t: Addr)
      requires q in lists && t !in lists[q] && t in w.state
      requires WordsWoken(w, w', lists[q][..if |lists[q]| < MAX_WAKE then |lists[q]| else MAX_WAKE])
      ensures t in w'.state && w'.state[t] == w.state[t]
    {
    }

    /** A thread in none of the lists is in none after waking a queue. */
    lemma NotWoken(before: Lists, after: Lists, w: ThreadWords, q: Addr, t: Addr)
      requires (exists n: nat :: Woken(before, after, w, q, n))
      requires forall r | r in before :: t !in before[r]
      ensures forall r | r in after :: t !in after[r]
    {
      var n: nat :| Woken(before, after, w, q, n);
      forall r | r in after ensures t !in after[r] {
        if r != q && IsRunQueue(r) {
          var p: nat :| p < PRIORITIES && r == RunQueue(p);
          SelectedMembers(w, before[q][..n], p, t);
          hide Runnable;
        }
      }
    }
  }

  /** The link words after the head of queue `q` is taken. */
  ghost function TakenHead(m: Links, q: Addr): Links
    requires q in m.head && m.head[q] in m.next && m.head[q] in m.queueOf
  {
    Release(Bypass(m, q, m.next[m.head[q]], 0), m.head[q], m.queueOf[m.head[q]])
  }

  /** Where a thread that names a queue is in it. */
  lemma Place(m: Links, lists: Lists, t: Addr) returns (k: nat)
    requires Owned(m, lists, 0) && t in m.queueOf && t != 0 && m.queueOf[t] != 0
    ensures m.queueOf[t] in lists && k < |lists[m.queueOf[t]]| && lists[m.queueOf[t]][k] == t
  {
    k :| k < |lists[m.queueOf[t]]| && lists[m.queueOf[t]][k] == t;
  }

  /** `after` is `before` without the thread `t` at place `k` of queue `q`. */
  ghost predicate IsRemoval(before: Lists, after: Lists, q: Addr, k: nat, t: Addr) {
    && q in before && k < |before[q]| && before[q][k] == t
    && after == before[q := RemoveAt(before[q], k)]
  }

  lemma HeadOfEmpty(m: Links, q: Addr, lists: Lists)
    requires AllLinked(m, lists) && q in lists
    ensures q in m.head && (m.head[q] == 0 <==> lists[q] == [])
  {
    assert Linked(m, q, lists[q]);
    if lists[q] != [] {
      assert Node(m, q, lists[q], 0);
    }
  }

  /** The link words after thread `k` of queue `q` is taken out. */
  ghost function Removed(m: Links, lists: Lists, q: Addr, k: nat): Links
    requires q in lists && k < |lists[q]|
  {
    Release(Bypass(m, q, At(lists[q], k + 1), At(lists[q], k - 1)), lists[q][k], 0)
  }

  lemma RemovalIs(lists: Lists, q: Addr, k: nat)
    requires q in lists && k < |lists[q]|
    ensures IsRemoval(lists, lists[q := RemoveAt(lists[q], k)], q, k, lists[q][k])
  {
  }

  lemma RemovedIs(m: Links, lists: Lists, q: Addr, k: nat)
    requires q in lists && k < |lists[q]|
    ensures Removed(m, lists, q, k) == Release(Bypass(m, q, At(lists[q], k + 1), At(lists[q], k - 1)), lists[q][k], 0)
    ensures RemoveAt(lists[q], k) != [] ==> lists[q] != []
  {
  }

  lemma ThreadIsKnown(m: Links, lists: Lists, w: ThreadWords, loose: Addr, t: Addr)
    requires Sane(m, lists, w, loose) && t in m.queueOf
    ensures Knows(w, t)
  {
  }

  lemma RemovalConsistent(m: Links, lists: Lists, q: Addr, k: nat)
    requires Threads(m) && AllLinked(m, lists) && Owned(m, lists, 0) && q in lists && k < |lists[q]|
    ensures Threads(Removed(m, lists, q, k)) && Removed(m, lists, q, k).queueOf.Keys == m.queueOf.Keys
    ensures AllLinked(Removed(m, lists, q, k), lists[q := RemoveAt(lists[q], k)])
    ensures Owned(Removed(m, lists, q, k), lists[q := RemoveAt(lists[q], k)], 0)
  {
    var s, t := lists[q], lists[q][k];
    var bypassed, lists' := Bypass(m, q, At(s, k + 1), At(s, k - 1)), lists[q := RemoveAt(s, k)];
    assert Linked(m, q, s);
    NeighboursAreThreads(m, q, s, k);
    BypassThreads(m, q, At(s, k + 1), At(s, k - 1));
    BypassAll(m, lists, q, k);
    BypassOwned(m, lists, q, k);
    hide Linked, AllLinked, Owned, Bypass, At, RemoveAt;
    ReleaseOwned(bypassed, lists', t);
  }

  lemma BypassThreads(m: Links, q: Addr, n: Addr, p: Addr)
    requires Threads(m) && (n != 0 ==> IsThread(m, n)) && (p != 0 ==> IsThread(m, p))
    ensures Threads(Bypass(m, q, n, p)) && Bypass(m, q, n, p).queueOf == m.queueOf
  {
  }

  /** A thread in no list may give up its queue. */
  lemma ReleaseOwned(m: Links, lists: Lists, t: Addr)
    requires Threads(m) && AllLinked(m, lists) && Owned(m, lists, t) && IsThread(m, t)
    ensures Threads(Release(m, t, 0)) && Release(m, t, 0).queueOf.Keys == m.queueOf.Keys
    ensures AllLinked(Release(m, t, 0), lists) && Owned(Release(m, t, 0), lists, 0)
  {
    ReleaseAll(m, lists, t, 0);
    hide Linked;
    forall r | r in lists ensures 0 !in lists[r] {
      NoNull(m, lists, r);
    }
  }

  lemma HeadTaken(m: Links, lists: Lists, q: Addr)
    requires Threads(m) && AllLinked(m, lists) && Owned(m, lists, 0) && q in lists && lists[q] != []
    ensures q in m.head && m.head[q] == lists[q][0] && IsThread(m, lists[q][0])
    ensures var m', lists', t := TakenHead(m, q), lists[q := lists[q][1..]], lists[q][0];
            && Threads(m') && m'.queueOf.Keys == m.queueOf.Keys && m'.next[t] == m'.prev[t] == 0
            && AllLinked(m', lists') && Owned(m', lists', t)
  {
    var s, t := lists[q], lists[q][0];
    var bypassed, lists' := Bypass(m, q, At(s, 1), At(s, -1)), lists[q := RemoveAt(s, 0)];
    assert Linked(m, q, s);
    NeighboursAreThreads(m, q, s, 0);
    BypassThreads(m, q, At(s, 1), 0);
    BypassAll(m, lists, q, 0);
    BypassOwned(m, lists, q, 0);
    assert RemoveAt(s, 0) == s[1..];
    ReleaseAll(bypassed, lists', t, q);
    hide Linked, AllLinked, Bypass, RemoveAt;
    ReleaseKeeps(bypassed, lists', t, q);
  }

  /** Rewriting the links of a thread, but not its queue, keeps who owns what. */
  lemma ReleaseKeeps(m: Links, lists: Lists, t: Addr, q: Addr)
    requires Threads(m) && Owned(m, lists, t) && IsThread(m, t) && m.queueOf[t] == q
    ensures var m' := Release(m, t, q);
            Threads(m') && m'.queueOf == m.queueOf && m'.next[t] == m'.prev[t] == 0 && Owned(m', lists, t)
  {
    assert m.queueOf == m.queueOf[t := q];
  }

  lemma EnqueueConsistent(m: Links, lists: Lists, q: Addr, t: Addr)
    requires Threads(m) && AllLinked(m, lists) && Owned(m, lists, t) && IsThread(m, t) && q in lists && q != 0
    ensures q in m.tail && q in m.head
    ensures var m', lists' := Append(m, q, t), lists[q := lists[q] + [t]];
            && Threads(m') && m'.queueOf.Keys == m.queueOf.Keys && AllLinked(m', lists') && Owned(m', lists', 0)
  {
    var s := lists[q];
    var m', lists' := Append(m, q, t), lists[q := s + [t]];
    assert Linked(m, q, s);
    AppendAll(m, lists, q, t);
    if s != [] {
      NeighboursAreThreads(m, q, s, |s| - 1);
    }
    hide Linked, AllLinked;
    forall r | r in lists' ensures 0 !in lists'[r] {
      NoNull(m', lists', r);
    }
  }

  lemma InNoQueue(m: Links, lists: Lists, t: Addr)
    requires AllLinked(m, lists) && 0 !in lists && t in m.queueOf && m.queueOf[t] == 0
    ensures forall q | q in lists :: t !in lists[q]
  {
    forall q | q in lists ensures t !in lists[q] {
      assert Linked(m, q, lists[q]);
      forall i | 0 <= i < |lists[q]| ensures lists[q][i] != t {
        assert Node(m, q, lists[q], i);
      }
    }
  }

  lemma NoNull(m: Links, lists: Lists, q: Addr)
    requires AllLinked(m, lists) && q in lists
    ensures 0 !in lists[q]
  {
    assert Linked(m, q, lists[q]);
    forall i | 0 <= i < |lists[q]| ensures lists[q][i] != 0 {
      assert Node(m, q, lists[q], i);
    }
  }

  lemma NeighboursAreThreads(m: Links, q: Addr, s: seq<Addr>, k: nat)
    requires k < |s| && Linked(m, q, s)
    ensures IsThread(m, s[k]) && m.queueOf[s[k]] == q
    ensures m.next[s[k]] == At(s, k + 1) && m.prev[s[k]] == At(s, k - 1)
    ensures At(s, k + 1) != 0 ==> IsThread(m, At(s, k + 1))
    ensures At(s, k - 1) != 0 ==> IsThread(m, At(s, k - 1))
  {
    assert Node(m, q, s, k);
    assert k + 1 < |s| ==> Node(m, q, s, k + 1);
    assert k > 0 ==> Node(m, q, s, k - 1);
  }
}
