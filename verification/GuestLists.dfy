/**
 Doubly linked OSThread queues in guest memory, as values.

 `Links` is the part of guest memory the scheduler's queues live in: the head and tail words
 of every queue, and the link words of every thread.  `Linked` says that a queue's words
 spell out a given list of threads.  The lemmas are about single rewrites of those words:
 which list the rewritten queue spells, and that every other queue still spells its own.
 */
module GuestLists {

  /** A guest address; 0 is null. */
  type Addr = nat

  datatype Links = Links(head: map<Addr, Addr>, tail: map<Addr, Addr>,
                         next: map<Addr, Addr>, prev: map<Addr, Addr>, queueOf: map<Addr, Addr>)

  /** The thread at place `i`, null outside the list. */
  function At(s: seq<Addr>, i: int): Addr {
    if 0 <= i < |s| then s[i] else 0
  }

  ghost predicate Distinct(s: seq<Addr>) {
    forall i, j | 0 <= i < j < |s| :: s[i] != s[j]
  }

  ghost predicate IsThread(m: Links, t: Addr) {
    t != 0 && t in m.next && t in m.prev && t in m.queueOf
  }

  ghost predicate Node(m: Links, q: Addr, s: seq<Addr>, i: int)
    requires 0 <= i < |s|
  {
    && IsThread(m, s[i]) && m.queueOf[s[i]] == q
    && m.next[s[i]] == At(s, i + 1) && m.prev[s[i]] == At(s, i - 1)
  }

  /** The words of queue `q` and of its threads spell the list `s`. */
  ghost predicate Linked(m: Links, q: Addr, s: seq<Addr>) {
    && q in m.head && q in m.tail
    && m.head[q] == At(s, 0) && m.tail[q] == At(s, |s| - 1)
    && Distinct(s)
    && forall i | 0 <= i < |s| :: Node(m, q, s, i)
  }

  // ------------------------------------------------------------------- rewriting links

  /** Takes a thread whose neighbours are `n` and `p` out of queue `q`. */
  function Bypass(m: Links, q: Addr, n: Addr, p: Addr): Links {
    var m := if n != 0 then m.(prev := m.prev[n := p]) else m.(tail := m.tail[q := p]);
    if p != 0 then m.(next := m.next[p := n]) else m.(head := m.head[q := n])
  }

  /** Puts thread `t` behind the last one of queue `q`. */
  function Append(m: Links, q: Addr, t: Addr): Links
    requires q in m.tail
  {
    var last := m.tail[q];
    var m := if last == 0 then m.(head := m.head[q := t]) else m.(next := m.next[last := t]);
    m.(prev := m.prev[t := last], next := m.next[t := 0], tail := m.tail[q := t], queueOf := m.queueOf[t := q])
  }

  /** Sets the link words of a thread that is in no queue. */
  function Release(m: Links, t: Addr, q: Addr): Links {
    m.(next := m.next[t := 0], prev := m.prev[t := 0], queueOf := m.queueOf[t := q])
  }

  function RemoveAt(s: seq<Addr>, k: nat): seq<Addr>
    requires k < |s|
  {
    s[..k] + s[k + 1..]
  }

  lemma RemoveAtPlace(s: seq<Addr>, k: nat, i: int)
    requires k < |s|
    ensures At(RemoveAt(s, k), i) == if i < k then At(s, i) else At(s, i + 1)
  {
  }

  lemma RemoveAtDistinct(s: seq<Addr>, k: nat)
    requires k < |s| && Distinct(s)
    ensures Distinct(RemoveAt(s, k)) && s[k] !in RemoveAt(s, k)
  {
    var left := RemoveAt(s, k);
    forall i | 0 <= i < |left| ensures left[i] != s[k] {
      assert left[i] == if i < k then s[i] else s[i + 1];
    }
    forall i, j | 0 <= i < j < |left| ensures left[i] != left[j] {
      assert left[i] == if i < k then s[i] else s[i + 1];
      assert left[j] == if j < k then s[j] else s[j + 1];
    }
  }

  /** One node of the list that is left. */
  lemma BypassNode(m: Links, q: Addr, s: seq<Addr>, k: nat, i: nat)
    requires k < |s| && Linked(m, q, s) && i < |s| - 1
    ensures Node(Bypass(m, q, At(s, k + 1), At(s, k - 1)), q, RemoveAt(s, k), i)
  {
    var left := RemoveAt(s, k);
    RemoveAtPlace(s, k, i);
    RemoveAtPlace(s, k, i + 1);
    RemoveAtPlace(s, k, i - 1);
    var j := if i < k then i else i + 1;
    assert Node(m, q, s, j);
    assert left[i] == s[j];
    assert k > 0 ==> IsThread(m, s[k - 1]) by {
      assert k > 0 ==> Node(m, q, s, k - 1);
    }
    assert k + 1 < |s| ==> IsThread(m, s[k + 1]) by {
      assert k + 1 < |s| ==> Node(m, q, s, k + 1);
    }
    assert j != k - 1 ==> s[j] != At(s, k - 1);
    assert j != k + 1 ==> s[j] != At(s, k + 1);
  }

  /** Taking a thread out of a list leaves the list without it. */
  lemma BypassLinked(m: Links, q: Addr, s: seq<Addr>, k: nat)
    requires k < |s| && Linked(m, q, s)
    ensures Linked(Bypass(m, q, At(s, k + 1), At(s, k - 1)), q, RemoveAt(s, k))
  {
    var left, m' := RemoveAt(s, k), Bypass(m, q, At(s, k + 1), At(s, k - 1));
    forall i | 0 <= i < |left| ensures Node(m', q, left, i) {
      BypassNode(m, q, s, k, i);
    }
    RemoveAtDistinct(s, k);
    BypassEnds(m, q, s, k);
  }

  lemma BypassEnds(m: Links, q: Addr, s: seq<Addr>, k: nat)
    requires k < |s| && Linked(m, q, s)
    ensures var m' := Bypass(m, q, At(s, k + 1), At(s, k - 1));
            && q in m'.head && q in m'.tail
            && m'.head[q] == At(RemoveAt(s, k), 0)
            && m'.tail[q] == At(RemoveAt(s, k), |s| - 2)
  {
    hide Distinct;
    RemoveAtPlace(s, k, 0);
    RemoveAtPlace(s, k, |s| - 2);
    assert k > 0 ==> s[k - 1] != 0 by {
      assert k > 0 ==> Node(m, q, s, k - 1);
    }
    assert k + 1 < |s| ==> s[k + 1] != 0 by {
      assert k + 1 < |s| ==> Node(m, q, s, k + 1);
    }
  }

  /** A list of threads none of which is rewritten, under a queue that is not, is kept. */
  lemma LinkedFrame(m: Links, m': Links, q: Addr, s: seq<Addr>)
    requires Linked(m, q, s)
    requires q in m'.head && q in m'.tail && m'.head[q] == m.head[q] && m'.tail[q] == m.tail[q]
    requires forall t | t in s && IsThread(m, t) ::
               && IsThread(m', t) && m'.queueOf[t] == m.queueOf[t]
               && m'.next[t] == m.next[t] && m'.prev[t] == m.prev[t]
    ensures Linked(m', q, s)
  {
    hide Distinct;
    forall i | 0 <= i < |s| ensures Node(m', q, s, i) {
      assert Node(m, q, s, i);
    }
  }

  lemma MemberOfOneQueue(m: Links, q: Addr, s: seq<Addr>, r: Addr, u: seq<Addr>, t: Addr)
    requires Linked(m, q, s) && Linked(m, r, u) && t in s && t in u
    ensures q == r
  {
    var i :| 0 <= i < |s| && s[i] == t;
    var j :| 0 <= j < |u| && u[j] == t;
    assert Node(m, q, s, i) && Node(m, r, u, j);
  }

  /** Taking a thread out of one queue keeps every other queue. */
  lemma BypassFrame(m: Links, q: Addr, s: seq<Addr>, k: nat, r: Addr, u: seq<Addr>)
    requires k < |s| && Linked(m, q, s) && Linked(m, r, u) && r != q
    ensures Linked(Bypass(m, q, At(s, k + 1), At(s, k - 1)), r, u)
  {
    var n, p := At(s, k + 1), At(s, k - 1);
    forall t | t in u && IsThread(m, t) ensures t != n && t != p {
      if t in s {
        MemberOfOneQueue(m, q, s, r, u, t);
      }
    }
    hide Distinct, At;
    LinkedFrame(m, Bypass(m, q, n, p), r, u);
  }

  /** Rewriting the links of a thread outside a list keeps the list. */
  lemma ReleaseFrame(m: Links, t: Addr, q: Addr, r: Addr, u: seq<Addr>)
    requires Linked(m, r, u) && t !in u
    ensures Linked(Release(m, t, q), r, u)
  {
    hide Distinct, At;
    LinkedFrame(m, Release(m, t, q), r, u);
  }

  lemma AppendNode(m: Links, q: Addr, s: seq<Addr>, t: Addr, i: nat)
    requires Linked(m, q, s) && IsThread(m, t) && t !in s && i <= |s|
    ensures Node(Append(m, q, t), q, s + [t], i)
  {
    var longer := s + [t];
    if s != [] {
      assert Node(m, q, s, |s| - 1);
    }
    if i < |s| {
      assert Node(m, q, s, i);
      assert longer[i] == s[i];
      assert i < |s| - 1 ==> s[i] != s[|s| - 1];
    } else {
      assert longer[i] == t;
    }
  }

  lemma AppendLinked(m: Links, q: Addr, s: seq<Addr>, t: Addr)
    requires Linked(m, q, s) && IsThread(m, t) && t !in s
    ensures Linked(Append(m, q, t), q, s + [t])
  {
    forall i | 0 <= i < |s + [t]| ensures Node(Append(m, q, t), q, s + [t], i) {
      AppendNode(m, q, s, t, i);
    }
    if s != [] {
      assert Node(m, q, s, |s| - 1);
    }
  }

  lemma AppendFrame(m: Links, q: Addr, s: seq<Addr>, t: Addr, r: Addr, u: seq<Addr>)
    requires Linked(m, q, s) && Linked(m, r, u) && r != q && t !in u
    ensures Linked(Append(m, q, t), r, u)
  {
    var last := m.tail[q];
    forall x | x in u && IsThread(m, x) ensures x != last && x != t {
      if x == last {
        assert x in s by {
          assert s != [];
        }
        MemberOfOneQueue(m, q, s, r, u, x);
      }
    }
    hide Distinct, At;
    LinkedFrame(m, Append(m, q, t), r, u);
  }
}
