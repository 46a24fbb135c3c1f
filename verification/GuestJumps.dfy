/**
 Guest setjmp and longjmp: each guest stack has a host coroutine, and a jump hands the guest
 thread from one to another.

 A host `longjmp` lands in a frame of the stack that armed the buffer. A stack that starts over
 has none of the frames it had, so an armed buffer also records which run of its owner's stack
 its frame is in; that it is always the present run is part of `Valid`.
 One guest thread uses longjmp; the others only take turns with it.
 */
module GuestJumps {
  import opened Common
  import opened HostContexts

  const BUFFER_LR := 0
  const BUFFER_SP := 8

  datatype Coroutine = Coroutine(handle: nat, owned: bool, startSp: nat, ctx: nat,
                                 run: nat, pendingBuffer: nat, pendingStart: bool)

  datatype Armed = Armed(owner: nat, lr: nat, sp: nat, run: nat)

  /** Where a jump comes down: in the frame a buffer was armed in, or at the top of a stack's entry. */
  datatype Landing = AtBuffer(coroutine: nat, buffer: nat, run: nat) | AtEntry(coroutine: nat) | Fatal(what: Reason)

  datatype Reason = Unreadable | NoMemory | NothingToDo

  /** The guest's buffer still holds what its setjmp stored. */
  predicate Live(memory: map<nat, nat>, buffer: nat, a: Armed) {
    && buffer + BUFFER_LR in memory && buffer + BUFFER_SP in memory
    && memory[buffer + BUFFER_LR] == a.lr && memory[buffer + BUFFER_SP] == a.sp
  }

  /** Something can still jump into a coroutine. */
  ghost predicate HasLive(armed: map<nat, Armed>, memory: map<nat, nat>, c: nat) {
    exists b :: b in armed && armed[b].owner == c && Live(memory, b, armed[b])
  }

  class Jumps {
    const host: Host
    const thread: nat             // the guest thread that uses longjmp
    var fibers: map<nat, nat>     // the host context of every guest thread
    var scheduler: nat
    var memory: map<nat, nat>     // the words that can be read
    var coroutines: seq<Coroutine>
    var byHandle: map<nat, nat>
    var started: seq<nat>
    var armed: map<nat, Armed>
    // The context the thread's own code runs on, or ran on when it last took its turn.
    var running: nat

    ghost predicate Handles()
      reads this`byHandle, this`coroutines, host
    {
      host.Valid() && ByHandle(byHandle, coroutines, host.live)
    }

    /** Nothing is pending, every started stack has an entry to start over from, and every stack made here is
        found among the started ones. */
    ghost predicate AtRest()
      reads this`coroutines, this`started
    {
      && (forall c | 0 <= c < |coroutines| :: !coroutines[c].pendingStart && coroutines[c].pendingBuffer == 0)
      && (forall c | 0 <= c < |coroutines| && coroutines[c].owned :: coroutines[c].run > 0)
      && (forall i | 0 <= i < |started| :: started[i] < |coroutines| && coroutines[started[i]].owned)
      && (forall c | 0 <= c < |coroutines| && coroutines[c].owned :: c in started)
    }

    /** Every armed buffer's frame is in the present run of its owner's stack. */
    ghost predicate FramesLive()
      reads this`coroutines, this`armed
    {
      InPresentRuns(armed, coroutines)
    }

    /** The thread's fiber is the running coroutine's, and no other thread's fiber is a coroutine's;
        the scheduler's context goes with the thread if it is the thread's, and else is no coroutine's. */
    ghost predicate Bound()
      reads this`fibers, this`running, this`byHandle, this`scheduler, host
    {
      && (scheduler == running || (scheduler !in byHandle && (scheduler == 0 || scheduler in host.live)))
      && thread in fibers && fibers[thread] == running && running in host.live
      && (forall t | t in fibers && t != thread ::
            fibers[t] in host.live && fibers[t] !in byHandle && fibers[t] != running)
      && (forall t | t in fibers && fibers[t] == host.current && t != thread :: host.current != running)
    }

    ghost predicate Valid()
      reads this`byHandle, this`coroutines, this`started, this`armed, this`fibers, this`running, this`scheduler, host
    {
      Handles() && AtRest() && FramesLive() && Bound()
    }

    constructor (h: Host, t: nat, threads: map<nat, nat>, main: nat, words: map<nat, nat>)
      requires h.Valid() && t in threads && threads[t] == h.current && h.current != 0
      requires forall u | u in threads :: threads[u] in h.live && (u != t ==> threads[u] != h.current)
      requires main == 0 || main in h.live
      ensures Valid() && host == h && running == h.current && armed == map[]
      ensures thread == t && fibers == threads && scheduler == main && memory == words && coroutines == []
    {
      host, thread, fibers, scheduler, memory := h, t, threads, main, words;
      coroutines, byHandle, started, armed, running := [], map[], [], map[], h.current;
    }

    // ------------------------------------------------------------------ coroutines

    /** The place of the current context's coroutine, and what it is: a guest thread's own has not
        been started, and gets its place when it first jumps. */
    ghost function Here(): nat
      reads this`byHandle, this`coroutines, host
    {
      if host.current in byHandle then byHandle[host.current] else |coroutines|
    }

    ghost function Myself(): Coroutine
      reads this`byHandle, this`coroutines, host
    {
      if Here() < |coroutines| then coroutines[Here()] else Coroutine(host.current, false, 0, 0, 0, 0, false)
    }

    method CurrentCoroutine() returns (self: nat)
      requires Valid() && host.current == running
      modifies this`coroutines, this`byHandle
      ensures Valid() && self == old(Here()) && self < |coroutines| && coroutines[self] == old(Myself())
      ensures coroutines == if self < |old(coroutines)| then old(coroutines) else old(coroutines) + [old(Myself())]
      ensures coroutines[self].handle == host.current
    {
      if host.current !in byHandle {
        byHandle := byHandle[host.current := |coroutines|];
        coroutines := coroutines + [Coroutine(host.current, false, 0, 0, 0, 0, false)];
      }
      self := byHandle[host.current];
    }

    /** Forgets the buffers of a coroutine that no longer hold what was stored; whether any is left. */
    method Reachable(c: nat) returns (live: bool)
      modifies this`armed
      ensures live <==> HasLive(old(armed), memory, c)
      ensures live <==> exists b :: b in armed && armed[b].owner == c
      ensures armed == Pruned(old(armed), memory, c)
    {
      var left := armed.Keys;
      live := false;
      while left != {}
        invariant left <= armed.Keys && armed.Keys <= old(armed).Keys
        invariant forall b | b in armed :: armed[b] == old(armed)[b]
        invariant forall b | b in old(armed) && b !in left ::
                    b in armed <==> old(armed)[b].owner != c || Live(memory, b, old(armed)[b])
        invariant forall b | b in left :: b in armed
        invariant live <==> exists b :: b in armed && b !in left && armed[b].owner == c
        decreases |left|
      {
        ghost var before := left;
        var b :| b in left;
        left := left - {b};
        if armed[b].owner == c {
          if Live(memory, b, armed[b]) {
            live := true;
          } else {
            armed := armed - {b};
          }
        }
      }
    }

    /** The stack to run a buffer nobody armed on: the one that was started there, else one that
        nothing can jump back into, else a new one (None when the host has none to give). */
    method StackFor(self: nat, sp: nat, handle: nat) returns (stack: Option<nat>)
      requires Valid() && self < |coroutines| && handle !in host.live
      modifies this`armed, this`coroutines, this`byHandle, this`started, host
      ensures host.Valid() && host.current == old(host.current) && old(host.live) <= host.live
      ensures stack.None? ==> handle == 0
      ensures stack.Some? ==> Prepared(stack.value) && coroutines[stack.value].startSp == sp
      ensures StartedAt(old(started), old(coroutines), sp).Some? ==>
                stack == StartedAt(old(started), old(coroutines), sp) && armed == old(armed)
      ensures stack.Some? && stack.value < |old(coroutines)| && HasLive(old(armed), memory, stack.value) ==>
                old(coroutines)[stack.value].startSp == sp
      ensures stack.None? || stack.value >= |old(coroutines)| ==>
                forall c | c in old(started) && c != self :: HasLive(old(armed), memory, c)
      ensures SameStacks(old(coroutines), coroutines, stack)
      ensures Trimmed(old(armed), armed, memory)
    {
      stack := StartedOn(sp);
      if stack.Some? {
        return;
      }
      stack := Finished(self);
      if stack.Some? {
        Reuse(stack.value, sp);
        return;
      }
      var made := NewStack(sp, handle);
      stack := if made then Some(|coroutines| - 1) else None;
    }

    /** Takes a started stack for another stack pointer. */
    method Reuse(c: nat, sp: nat)
      requires Valid() && c in started
      modifies this`coroutines
      ensures Prepared(c) && coroutines == old(coroutines)[c := old(coroutines)[c].(startSp := sp)]
    {
      coroutines := coroutines[c := coroutines[c].(startSp := sp)];
    }

    /** Makes a stack, on a context the host has for it. */
    method NewStack(sp: nat, handle: nat) returns (made: bool)
      requires Valid() && handle !in host.live
      modifies this`coroutines, this`byHandle, this`started, host
      ensures host.Valid() && host.current == old(host.current) && old(host.live) <= host.live && made == (handle != 0)
      ensures coroutines == if made then old(coroutines) + [Coroutine(handle, true, sp, 0, 0, 0, false)]
              else old(coroutines)
      ensures made ==> Prepared(|old(coroutines)|)
      ensures started == if made then old(started) + [|old(coroutines)|] else old(started)
    {
      host.Create(handle, |coroutines|);
      if handle == 0 {
        return false;
      }
      byHandle := byHandle[handle := |coroutines|];
      started := started + [|coroutines|];
      coroutines := coroutines + [Coroutine(handle, true, sp, 0, 0, 0, false)];
      made := true;
    }

    method StartedOn(sp: nat) returns (stack: Option<nat>)
      requires Valid()
      ensures stack == StartedAt(started, coroutines, sp)
      ensures stack.Some? ==> Prepared(stack.value) && coroutines[stack.value].startSp == sp
    {
      for i := 0 to |started|
        invariant StartedAt(started, coroutines, sp) == StartedAt(started[i..], coroutines, sp)
      {
        if coroutines[started[i]].startSp == sp {
          return Some(started[i]);
        }
      }
      return None;
    }

    /** Ready to be switched to: a stack of the thread's, that may not have run yet. */
    ghost predicate Prepared(c: nat)
      reads this`byHandle, this`coroutines, this`started, this`armed, this`fibers, this`running, this`scheduler, host
    {
      Handles() && Bound() && FramesLive() && c < |coroutines| && coroutines[c].owned
      && (forall d | 0 <= d < |coroutines| :: !coroutines[d].pendingStart && coroutines[d].pendingBuffer == 0)
      && (forall d | 0 <= d < |coroutines| && d != c && coroutines[d].owned :: coroutines[d].run > 0)
      && (forall i | 0 <= i < |started| :: started[i] < |coroutines| && coroutines[started[i]].owned)
      && (forall c | 0 <= c < |coroutines| && coroutines[c].owned :: c in started)
    }

    /** The first started coroutine, other than the running one, that nothing can jump back into. */
    method Finished(self: nat) returns (stack: Option<nat>)
      requires Valid()
      modifies this`armed
      ensures Valid() && Trimmed(old(armed), armed, memory)
      ensures stack.Some? ==> stack.value in started && stack.value != self && !HasLive(old(armed), memory, stack.value)
      ensures stack.None? ==> forall c | c in started && c != self :: HasLive(old(armed), memory, c)
    {
      hide Trimmed, HasLive, Pruned;
      TrimmedNone(armed, memory);
      for i := 0 to |started|
        invariant Trimmed(old(armed), armed, memory)
        invariant forall k | 0 <= k < i && started[k] != self :: HasLive(old(armed), memory, started[k])
      {
        if started[i] != self {
          LiveKept(old(armed), armed, memory, started[i]);
          TrimmedMore(old(armed), armed, memory, started[i]);
          var live := Reachable(started[i]);
          if !live {
            TrimmedFits(old(armed), armed, memory, coroutines);
            return Some(started[i]);
          }
        }
      }
      TrimmedFits(old(armed), armed, memory, coroutines);
      return None;
    }

    // ------------------------------------------------------------------------- jumps

    /** Everything that ran on one context goes on on another. */
    method RebindHostContext(from: nat, to: nat)
      modifies this`fibers, this`scheduler
      ensures fibers.Keys == old(fibers).Keys
      ensures forall t | t in fibers :: fibers[t] == if old(fibers)[t] == from then to else old(fibers)[t]
      ensures scheduler == if old(scheduler) == from then to else old(scheduler)
    {
      var left := fibers.Keys;
      while left != {}
        invariant left <= fibers.Keys == old(fibers).Keys && scheduler == old(scheduler)
        invariant forall t | t in left :: fibers[t] == old(fibers)[t]
        invariant forall t | t in fibers && t !in left :: fibers[t] == if old(fibers)[t] == from then to
                  else old(fibers)[t]
        decreases |left|
      {
        var t :| t in left;
        if fibers[t] == from {
          fibers := fibers[t := to];
        }
        left := left - {t};
      }
      if scheduler == from {
        scheduler := to;
      }
    }

    /** A stack starts over at its entry, and the buffers that were armed on it are forgotten. */
    method Enter(self: nat) returns (landing: Landing)
      requires self < |coroutines|
      modifies this`coroutines, this`armed
      ensures landing == AtEntry(self)
      ensures var me := old(coroutines)[self];
              coroutines == old(coroutines)[self := me.(run := me.run + 1, pendingStart := false)]
      ensures armed == Without(old(armed), self)
    {
      coroutines := coroutines[self := coroutines[self].(run := coroutines[self].run + 1, pendingStart := false)];
      var left := armed.Keys;
      while left != {}
        invariant left <= armed.Keys && armed.Keys <= old(armed).Keys
        invariant forall b | b in armed :: armed[b] == old(armed)[b]
        invariant forall b | b in old(armed) && b !in left :: b in armed <==> old(armed)[b].owner != self
        invariant forall b | b in left :: b in armed
        decreases |left|
        modifies this`armed
      {
        var b :| b in left;
        left := left - {b};
        if armed[b].owner == self {
          armed := armed - {b};
        }
      }
      assert armed == Without(old(armed), self);
      landing := AtEntry(self);
    }

    /** A parked stack goes on with what it was resumed for. */
    method ResumeHere(self: nat) returns (landing: Landing)
      requires self < |coroutines|
      modifies this`coroutines, this`armed
      ensures if old(coroutines)[self].pendingStart then
                && landing == AtEntry(self) && armed == Without(old(armed), self)
                && coroutines == old(coroutines)[self :=
                     old(coroutines)[self].(run := old(coroutines)[self].run + 1, pendingStart := false)]
              else
                var b := old(coroutines)[self].pendingBuffer;
                && coroutines == old(coroutines)[self := old(coroutines)[self].(pendingBuffer := 0)]
                   && armed == old(armed)
                && landing == if b in armed && armed[b].owner == self then AtBuffer(self, b, armed[b].run)
                   else Fatal(NothingToDo)
    {
      if coroutines[self].pendingStart {
        landing := Enter(self);
        return;
      }
      var buffer := coroutines[self].pendingBuffer;
      coroutines := coroutines[self := coroutines[self].(pendingBuffer := 0)];
      if buffer !in armed || armed[buffer].owner != self {
        return Fatal(NothingToDo);
      }
      landing := AtBuffer(self, buffer, armed[buffer].run);
    }

    /** The other threads stay on the contexts they are on, and the scheduler goes with the thread
        exactly if it was on the thread's. */
    twostate predicate OthersStay()
      reads this`fibers, this`scheduler, this`running
    {
      && fibers.Keys == old(fibers).Keys
      && (forall t | t in fibers && t != thread :: fibers[t] == old(fibers)[t])
      && scheduler == if old(scheduler) == old(running) then running else old(scheduler)
    }

    /** Moves the guest thread to another stack's context. */
    method Hand(self: nat, target: nat, ctx: nat)
      requires Handles() && Bound() && FramesLive() && host.current == running
      requires self < |coroutines| && coroutines[self].handle == running && target < |coroutines| && target != self
      modifies this`coroutines, this`fibers, this`scheduler, this`running, host`current
      ensures Handles() && Bound() && FramesLive() && OthersStay()
      ensures coroutines == old(coroutines)[target := old(coroutines)[target].(ctx := ctx)]
      ensures host.current == running == coroutines[target].handle
    {
      coroutines := coroutines[target := coroutines[target].(ctx := ctx)];
      RebindHostContext(coroutines[self].handle, coroutines[target].handle);
      host.Switch(coroutines[target].handle);
      running := host.current;
    }

    /** A stack control comes to: its entry runs if it never has, else it goes on where it was parked. */
    method Proceed(target: nat) returns (landing: Landing)
      requires target < |coroutines|
      modifies this`coroutines, this`armed
      ensures (landing, coroutines, armed) == Proceeded(target, old(coroutines), old(armed))
    {
      if coroutines[target].owned && coroutines[target].run == 0 {
        landing := Enter(target);
      } else {
        landing := ResumeHere(target);
      }
    }

    /** Hands the guest thread to another stack, and goes on there. */
    method SwitchTo(self: nat, target: nat, ctx: nat) returns (landing: Landing)
      requires Handles() && Bound() && FramesLive() && host.current == running
      requires self < |coroutines| && coroutines[self].handle == running && target < |coroutines| && target != self
      modifies this`coroutines, this`fibers, this`scheduler, this`running, this`armed, host`current
      ensures Handles() && Bound() && FramesLive() && host.current == running && |coroutines| == |old(coroutines)|
      ensures host.current == coroutines[target].handle && OthersStay()
      ensures (landing, coroutines, armed) ==
              Proceeded(target, old(coroutines)[target := old(coroutines)[target].(ctx := ctx)], old(armed))
    {
      Hand(self, target, ctx);
      ProceededFits(byHandle, coroutines, armed, host.live, target);
      hide ByHandle, Bound, InPresentRuns, OthersStay, Proceeded;
      landing := Proceed(target);
    }

    /** At a setjmp: the frame of the running stack a later jump to the buffer comes back to. */
    method Arm(buffer: nat, lr: nat, sp: nat)
      requires Valid() && host.current == running
      modifies this`coroutines, this`byHandle, this`armed
      ensures Valid() && Here() == old(Here()) < |coroutines| && Myself() == old(Myself())
      ensures SameStacks(old(coroutines), coroutines, None)
      ensures armed == old(armed)[buffer := Armed(Here(), lr, sp, Myself().run)]
    {
      var self := CurrentCoroutine();
      armed := armed[buffer := Armed(self, lr, sp, coroutines[self].run)];
    }

    /** At a longjmp: to the frame that armed the buffer, if the buffer is as it was armed; else to
        the entry of a stack for it. `handle` is the context the host has for a new stack. */
    method Jump(ctx: nat, buffer: nat, handle: nat) returns (landing: Landing)
      requires Valid() && host.current == running && handle !in host.live
      modifies this, host
      ensures !landing.Fatal? ==> Valid() && host.current == running
      ensures memory == old(memory) && OthersStay()
      ensures SameStacks(old(coroutines), coroutines, if landing.AtEntry? then Some(landing.coroutine) else None)
      ensures landing == Fatal(Unreadable) <==> buffer !in memory || buffer + 8 !in memory
      ensures landing != Fatal(NothingToDo) && (landing == Fatal(NoMemory) ==> handle == 0)
      ensures landing.AtBuffer? <==>
              && buffer in old(armed) && buffer in memory && buffer + 8 in memory
              && memory[buffer] == old(armed)[buffer].lr && memory[buffer + 8] == old(armed)[buffer].sp
      ensures landing.AtBuffer? ==>
                && landing.coroutine == old(armed)[buffer].owner && landing.buffer == buffer
                && landing.coroutine < |coroutines| && landing.run == coroutines[landing.coroutine].run
                && host.current == coroutines[landing.coroutine].handle && armed == old(armed)
      ensures landing.AtBuffer? && landing.coroutine != old(Here()) ==> coroutines[landing.coroutine].ctx == ctx
      ensures landing.AtEntry? ==>
                && landing.coroutine < |coroutines| && host.current == coroutines[landing.coroutine].handle
                && coroutines[landing.coroutine].owned
                   && coroutines[landing.coroutine].startSp == memory[buffer + 8]
                && coroutines[landing.coroutine].ctx == ctx
                && Restarted(old(armed), armed, memory, landing.coroutine)
      ensures landing.AtEntry? && landing.coroutine < |old(coroutines)|
              && HasLive(old(armed), memory, landing.coroutine) ==>
                old(coroutines)[landing.coroutine].startSp == memory[buffer + 8]
    {
      hide Valid, SameStacks, Restarted, HasLive;
      ghost var before := coroutines;
      var self := CurrentCoroutine();
      SameStacksMore(before, coroutines);
      if buffer + BUFFER_LR !in memory || buffer + BUFFER_SP !in memory {
        return Fatal(Unreadable);
      }
      var lr, sp := memory[buffer + BUFFER_LR], memory[buffer + BUFFER_SP];
      ghost var middle := coroutines;
      if buffer in armed && armed[buffer].lr == lr && armed[buffer].sp == sp {
        OwnerRuns(buffer);
        var owner := armed[buffer].owner;
        if owner == self {
          return AtBuffer(self, buffer, armed[buffer].run);
        }
        landing := SwitchBack(self, owner, ctx, buffer);
        SameStacksThen(before, middle, coroutines, None);
        return;
      }
      landing := JumpToStart(self, ctx, sp, handle);
      SameStacksThen(before, middle, coroutines, if landing.AtEntry? then Some(landing.coroutine) else None);
    }

    lemma OwnerRuns(buffer: nat)
      requires Valid() && buffer in armed
      ensures armed[buffer].owner < |coroutines| && armed[buffer].run == coroutines[armed[buffer].owner].run
    {
    }

    /** To the entry of a stack for a buffer nobody armed as it is. */
    method JumpToStart(self: nat, ctx: nat, sp: nat, handle: nat) returns (landing: Landing)
      requires Valid() && host.current == running && handle !in host.live
      requires self < |coroutines| && coroutines[self].handle == running
      modifies this, host
      ensures memory == old(memory) && OthersStay()
      ensures landing == Fatal(NoMemory) || landing.AtEntry?
      ensures landing.Fatal? ==> handle == 0 && SameStacks(old(coroutines), coroutines, None)
      ensures landing.AtEntry? ==>
                && Valid() && host.current == running
                && SameStacks(old(coroutines), coroutines, Some(landing.coroutine))
                && landing.coroutine < |coroutines| && host.current == coroutines[landing.coroutine].handle
                && coroutines[landing.coroutine].owned && coroutines[landing.coroutine].startSp == sp
                && coroutines[landing.coroutine].ctx == ctx
                && (landing.coroutine < |old(coroutines)| && HasLive(old(armed), memory, landing.coroutine) ==>
                      old(coroutines)[landing.coroutine].startSp == sp)
                && Restarted(old(armed), armed, memory, landing.coroutine)
    {
      hide Valid, HasLive, Trimmed, Without;
      var stack := StackFor(self, sp, handle);
      if stack.None? {
        return Fatal(NoMemory);
      }
      ghost var middle := coroutines;
      RestartedBy(old(armed), armed, memory, stack.value);
      PreparedFits(stack.value);
      hide Prepared;
      assert |old(coroutines)| <= |coroutines| && coroutines[self].handle == running;
      landing := StartOn(self, stack.value, ctx);
      SameStacksTwice(old(coroutines), middle, coroutines, stack);
    }

    lemma PreparedFits(c: nat)
      requires Prepared(c)
      ensures c < |coroutines| && coroutines[c].owned
    {
    }

    /** To a frame of another stack, which is parked. */
    method SwitchBack(self: nat, owner: nat, ctx: nat, buffer: nat) returns (landing: Landing)
      requires Valid() && host.current == running && self < |coroutines| && coroutines[self].handle == running
      requires buffer in armed && owner == armed[buffer].owner && owner != self
      modifies this, host`current
      ensures Valid() && host.current == running && armed == old(armed) && memory == old(memory) && OthersStay()
      ensures owner < |coroutines| && host.current == coroutines[owner].handle && |coroutines| == |old(coroutines)|
      ensures SameStacks(old(coroutines), coroutines, None)
      ensures landing == AtBuffer(owner, buffer, coroutines[owner].run) && coroutines[owner].ctx == ctx
    {
      coroutines := coroutines[owner := coroutines[owner].(pendingBuffer := buffer)];
      landing := SwitchTo(self, owner, ctx);
    }

    /** To the top of a stack's entry, on whichever stack that is. */
    method StartOn(self: nat, stack: nat, ctx: nat) returns (landing: Landing)
      requires Prepared(stack) && host.current == running && self < |coroutines| && coroutines[self].handle == running
      modifies this, host`current
      ensures Valid() && host.current == running && memory == old(memory) && |coroutines| == |old(coroutines)|
              && OthersStay()
      ensures landing == AtEntry(stack) && host.current == coroutines[stack].handle
      ensures coroutines[stack].ctx == ctx && SameStacks(old(coroutines), coroutines, None)
      ensures armed == Without(old(armed), stack)
    {
      if stack == self {
        landing := StartOver(self, ctx);
        return;
      }
      coroutines := coroutines[stack := coroutines[stack].(ctx := ctx)];
      coroutines := coroutines[stack := coroutines[stack].(pendingStart := true)];
      landing := SwitchTo(self, stack, ctx);
    }

    /** The running stack starts over. */
    method StartOver(self: nat, ctx: nat) returns (landing: Landing)
      requires Prepared(self) && host.current == running && coroutines[self].handle == running
      modifies this`coroutines, this`armed
      ensures Valid() && host.current == running && |coroutines| == |old(coroutines)|
      ensures landing == AtEntry(self) && coroutines[self].ctx == ctx && coroutines[self].handle == running
      ensures SameStacks(old(coroutines), coroutines, None) && armed == Without(old(armed), self)
    {
      coroutines := coroutines[self := coroutines[self].(ctx := ctx)];
      landing := Enter(self);
    }

    // --------------------------------------------------------------- the other threads

    /** Another thread takes its turn. */
    method TakeTurn(t: nat)
      requires Valid() && host.current == running && t in fibers && t != thread
      modifies host`current
      ensures Valid() && host.current == fibers[t]
    {
      host.Switch(fibers[t]);
    }

    /** The thread takes its turn again: control comes to the stack its code was on. */
    method ComeBack()
      requires Valid() && host.current != running
      modifies host`current
      ensures Valid() && host.current == running
    {
      host.Switch(fibers[thread]);
    }

    /** Another thread is made, on a new context. */
    method NewThread(t: nat, handle: nat)
      requires Valid() && t != thread && handle != 0 && handle !in host.live
      modifies this`fibers, host
      ensures Valid() && t in fibers && fibers == old(fibers)[t := handle] && host.current == old(host.current)
      ensures host.argument == old(host.argument)[handle := t]
    {
      host.Create(handle, t);
      fibers := fibers[t := handle];
    }

    /** The guest writes its memory. */
    method Store(words: map<nat, nat>)
      requires Valid()
      modifies this`memory
      ensures Valid() && memory == words
    {
      memory := words;
    }

    // -------------------------------------------------------------------- whole runs

    /** Performs a step, if it can happen now; whether it leaves buffer `b` as it is armed. */
    method Perform(step: Step, b: nat) returns (leaves: bool)
      requires Valid() && b in armed && Live(memory, b, armed[b])
      modifies this, host
      ensures !leaves
              ==> old(armed[b].owner < |coroutines| && !Harmless(step, memory, b, armed[b], coroutines[armed[b].owner]))
      ensures leaves ==> Valid() && Stays(b)
      ensures leaves ==> memory == (if step.Write? then step.words else old(memory)) && Performed(step)
    {
      OwnerOf(b);
      hide Valid, HasLive, SameStacks, Restarted, OthersStay;
      leaves := true;
      match step
      case Setjmp(buffer, lr, sp) =>
        if host.current == running {
          leaves := buffer != b;
          Arm(buffer, lr, sp);
        }
      case Longjmp(ctx, buffer, handle) =>
        if host.current == running && handle !in host.live {
          leaves := PerformJump(ctx, buffer, handle, b);
        }
      case Turn(t) =>
        if host.current == running && t in fibers && t != thread {
          TakeTurn(t);
        }
      case Back =>
        if host.current != running {
          ComeBack();
        }
      case Spawn(t, handle) =>
        if t != thread && handle != 0 && handle !in host.live {
          NewThread(t, handle);
        }
      case Write(words) =>
        leaves := Live(words, b, armed[b]);
        Store(words);
    }

    /** A jump; whether it leaves buffer `b` as it is armed. */
    method PerformJump(ctx: nat, buffer: nat, handle: nat, b: nat) returns (leaves: bool)
      requires Valid() && b in armed && Live(memory, b, armed[b]) && host.current == running && handle !in host.live
      modifies this, host
      ensures !leaves ==>
                old(armed[b].owner < |coroutines|
                    && !Harmless(Longjmp(ctx, buffer, handle), memory, b, armed[b], coroutines[armed[b].owner]))
      ensures leaves ==> Valid() && Stays(b) && memory == old(memory) && Performed(Longjmp(ctx, buffer, handle))
    {
      OwnerOf(b);
      hide Valid, HasLive;
      var owner := armed[b].owner;
      var landing := Jump(ctx, buffer, handle);
      leaves := !landing.Fatal? && landing != AtEntry(owner);
      assert landing.Fatal? ==> landing.what.Unreadable? || landing.what.NoMemory? || landing == Fatal(NothingToDo);
    }

    /** What a step does, if it can happen now. */
    twostate predicate Performed(step: Step)
      reads this, host
    {
      match step
      case Setjmp(buffer, lr, sp) =>
        && host.current == old(host.current)
        && armed == if old(host.current == running)
                    then old(armed)[buffer := Armed(old(Here()), lr, sp, old(Myself()).run)]
                    else old(armed)
      case Longjmp(_, buffer, handle) =>
        && (old(host.current == running && handle !in host.live) ==> host.current == running)
        && (old(&& host.current == running && handle !in host.live
                && buffer in armed && Live(memory, buffer, armed[buffer])) ==>
              && armed == old(armed) && armed[buffer].owner < |coroutines|
              && host.current == coroutines[armed[buffer].owner].handle)
      case Turn(t) =>
        && armed == old(armed) && fibers == old(fibers)
        && host.current == if old(host.current == running && t in fibers && t != thread) then old(fibers[t])
                           else old(host.current)
      case Back => host.current == running == old(running)
      case Spawn(t, handle) =>
        && host.current == old(host.current)
        && fibers == if t != thread && handle != 0 && handle !in old(host.live) then old(fibers)[t := handle]
                     else old(fibers)
      case Write(words) => memory == words
    }

    /** A buffer is armed as it was, by a stack that is what it was. */
    twostate predicate Stays(b: nat)
      requires old(b in armed)
      reads this`armed, this`coroutines, this`memory
    {
      && b in armed && armed[b] == old(armed[b]) && Live(memory, b, armed[b])
      && old(armed[b].owner < |coroutines|) && armed[b].owner < |coroutines|
      && var c, d := old(coroutines[armed[b].owner]), coroutines[armed[b].owner];
         c.handle == d.handle && c.owned == d.owned && c.startSp == d.startSp
    }

    lemma OwnerOf(b: nat)
      requires Valid() && b in armed && Live(memory, b, armed[b])
      ensures armed[b].owner < |coroutines| && HasLive(armed, memory, armed[b].owner)
    {
    }

    /** Performs steps until one does not leave the buffer alone. */
    method RunLeaving(b: nat, script: seq<Step>) returns (leaves: bool)
      requires Valid() && b in armed && Live(memory, b, armed[b])
      modifies this, host
      ensures old(armed[b].owner < |coroutines| && LeavesAlone(script, memory, b, armed[b], coroutines[armed[b].owner]))
              ==> leaves
      ensures leaves ==> Valid() && Stays(b)
    {
      OwnerOf(b);
      hide Valid, Live, Harmless;
      leaves := true;
      ghost var a, owner := armed[b], coroutines[armed[b].owner];
      ghost var alone := LeavesAlone(script, memory, b, a, owner);
      assert script[0..] == script;
      for i := 0 to |script|
        invariant Valid() && Stays(b)
        invariant alone ==> LeavesAlone(script[i..], memory, b, a, owner)
      {
        assert script[i..][1..] == script[i + 1..];
        HarmlessAlike(script[i], memory, b, a, owner, coroutines[a.owner]);
        leaves := Perform(script[i], b);
        if !leaves {
          return;
        }
      }
    }

    /** Whatever jumps lie between: while the steps leave a buffer alone, a jump to it comes back to the
        setjmp's own frame, in the setjmp's own run of its stack, on the setjmp's own context. */
    method SetjmpThenLongjmp(b: nat, lr: nat, sp: nat, words: map<nat, nat>, script: seq<Step>, ctx: nat)
      returns (leaves: bool, landing: Landing)
      requires Valid() && host.current == running && Live(words, b, Armed(0, lr, sp, 0))
      modifies this, host
      ensures old(LeavesAlone(script, words, b, Armed(Here(), lr, sp, Myself().run), Myself())) ==> leaves
      ensures leaves ==>
                && Valid() && host.current == running == old(host.current)
                && landing == AtBuffer(old(Here()), b, old(Myself().run))
    {
      Arm(b, lr, sp);
      Store(words);
      landing := Fatal(NothingToDo);
      leaves := RunLeaving(b, script);
      hide Handles, AtRest, FramesLive, Bound;
      if leaves {
        if host.current != running {
          ComeBack();
        }
        landing := Jump(ctx, b, 0);
      }
    }
  }

  /** A step that does not arm the buffer again or overwrite it, and, if it jumps, can: to a buffer that
      can be read, with a stack to be had, and not to where the buffer's own stack was started. */
  ghost predicate Harmless(step: Step, words: map<nat, nat>, b: nat, a: Armed, owner: Coroutine) {
    match step
    case Setjmp(buffer, _, _) => buffer != b
    case Write(more) => Live(more, b, a)
    case Longjmp(_, buffer, handle) =>
      && handle != 0 && buffer + BUFFER_LR in words && buffer + BUFFER_SP in words
      && (owner.owned ==> words[buffer + BUFFER_SP] != owner.startSp)
    case _ => true
  }

  lemma HarmlessAlike(step: Step, words: map<nat, nat>, b: nat, a: Armed, c: Coroutine, d: Coroutine)
    requires c.owned == d.owned && c.startSp == d.startSp
    ensures Harmless(step, words, b, a, c) <==> Harmless(step, words, b, a, d)
  {
  }

  /** Every step of a script is harmless, each with the words of memory it finds. */
  ghost predicate LeavesAlone(script: seq<Step>, words: map<nat, nat>, b: nat, a: Armed, owner: Coroutine)
    decreases |script|
  {
    script == [] ||
    (&& Harmless(script[0], words, b, a, owner)
     && LeavesAlone(script[1..], if script[0].Write? then script[0].words else words, b, a, owner))
  }

  datatype Step =
    | Setjmp(buffer: nat, lr: nat, sp: nat)
    | Longjmp(ctx: nat, buffer: nat, handle: nat)
    | Turn(t: nat)
    | Back
    | Spawn(t: nat, handle: nat)
    | Write(words: map<nat, nat>)

  /** The first of some stacks that was started at a stack pointer. */
  function StartedAt(started: seq<nat>, coroutines: seq<Coroutine>, sp: nat): Option<nat>
    requires forall i | 0 <= i < |started| :: started[i] < |coroutines|
  {
    if started == [] then None
    else if coroutines[started[0]].startSp == sp then Some(started[0])
    else StartedAt(started[1..], coroutines, sp)
  }

  function Pruned(armed: map<nat, Armed>, memory: map<nat, nat>, c: nat): map<nat, Armed> {
    map b | b in armed && (armed[b].owner != c || Live(memory, b, armed[b])) :: armed[b]
  }

  /** Every coroutine is found by its context, which is live. */
  ghost predicate ByHandle(byHandle: map<nat, nat>, coroutines: seq<Coroutine>, live: set<nat>) {
    && (forall h | h in byHandle :: h in live && byHandle[h] < |coroutines| && coroutines[byHandle[h]].handle == h)
    && (forall c | 0 <= c < |coroutines| :: coroutines[c].handle in byHandle && byHandle[coroutines[c].handle] == c)
  }

  lemma StillByHandle(byHandle: map<nat, nat>, coroutines: seq<Coroutine>, live: set<nat>, c: nat, next: Coroutine)
    requires ByHandle(byHandle, coroutines, live) && c < |coroutines| && next.handle == coroutines[c].handle
    ensures ByHandle(byHandle, coroutines[c := next], live)
  {
  }

  /** Coroutines keep their contexts and what they were started on, but for one that is started anew. */
  ghost predicate SameStacks(before: seq<Coroutine>, after: seq<Coroutine>, restarted: Option<nat>) {
    && |before| <= |after|
    && (forall c | 0 <= c < |before| ::
          && after[c].handle == before[c].handle && after[c].owned == before[c].owned
          && (restarted != Some(c) ==> after[c].startSp == before[c].startSp))
  }

  lemma SameStacksMore(before: seq<Coroutine>, after: seq<Coroutine>)
    requires before <= after
    ensures SameStacks(before, after, None)
  {
  }

  lemma SameStacksThen(before: seq<Coroutine>, middle: seq<Coroutine>, after: seq<Coroutine>, restarted: Option<nat>)
    requires SameStacks(before, middle, None) && SameStacks(middle, after, restarted)
    ensures SameStacks(before, after, restarted)
  {
  }

  lemma SameStacksTwice(before: seq<Coroutine>, middle: seq<Coroutine>, after: seq<Coroutine>, restarted: Option<nat>)
    requires SameStacks(before, middle, restarted) && SameStacks(middle, after, None)
    ensures SameStacks(before, after, restarted)
  {
  }

  ghost predicate InPresentRuns(armed: map<nat, Armed>, coroutines: seq<Coroutine>) {
    forall b | b in armed :: armed[b].owner < |coroutines| && armed[b].run == coroutines[armed[b].owner].run
  }

  /** What a stack does when control comes to it. */
  ghost function Proceeded(target: nat, coroutines: seq<Coroutine>, armed: map<nat, Armed>)
    : (Landing, seq<Coroutine>, map<nat, Armed>)
    requires target < |coroutines|
  {
    var c := coroutines[target];
    if c.pendingStart || (c.owned && c.run == 0) then
      (AtEntry(target), coroutines[target := c.(run := c.run + 1, pendingStart := false)], Without(armed, target))
    else
      (if c.pendingBuffer in armed && armed[c.pendingBuffer].owner == target
       then AtBuffer(target, c.pendingBuffer, armed[c.pendingBuffer].run) else Fatal(NothingToDo),
       coroutines[target := c.(pendingBuffer := 0)], armed)
  }

  /** It keeps its context, and every armed buffer is in the present run of its owner. */
  lemma ProceededFits(byHandle: map<nat, nat>, coroutines: seq<Coroutine>, armed: map<nat, Armed>, live: set<nat>,
                      target: nat)
    requires ByHandle(byHandle, coroutines, live) && InPresentRuns(armed, coroutines) && target < |coroutines|
    ensures var (_, after, left) := Proceeded(target, coroutines, armed);
            && ByHandle(byHandle, after, live) && InPresentRuns(left, after)
            && |after| == |coroutines| && after[target].handle == coroutines[target].handle
  {
    var c := coroutines[target];
    StillByHandle(byHandle, coroutines, live, target, c.(run := c.run + 1, pendingStart := false));
    StillByHandle(byHandle, coroutines, live, target, c.(pendingBuffer := 0));
    hide ByHandle;
  }

  /** Some buffers were forgotten, none of them live. */
  ghost predicate Trimmed(before: map<nat, Armed>, after: map<nat, Armed>, memory: map<nat, nat>) {
    && (forall b | b in after :: b in before && after[b] == before[b])
    && (forall b | b in before && Live(memory, b, before[b]) :: b in after)
  }

  /** A stack started over: it has no buffer left, and every live buffer of another is as it was. */
  ghost predicate Restarted(before: map<nat, Armed>, after: map<nat, Armed>, memory: map<nat, nat>, c: nat) {
    && (forall b | b in after :: b in before && after[b] == before[b] && after[b].owner != c)
    && (forall b | b in before && Live(memory, b, before[b]) && before[b].owner != c :: b in after)
  }

  lemma RestartedBy(before: map<nat, Armed>, after: map<nat, Armed>, memory: map<nat, nat>, c: nat)
    requires Trimmed(before, after, memory)
    ensures Restarted(before, Without(after, c), memory, c)
  {
  }

  lemma TrimmedNone(armed: map<nat, Armed>, memory: map<nat, nat>)
    ensures Trimmed(armed, armed, memory)
  {
  }

  lemma TrimmedMore(before: map<nat, Armed>, armed: map<nat, Armed>, memory: map<nat, nat>, c: nat)
    requires Trimmed(before, armed, memory)
    ensures Trimmed(before, Pruned(armed, memory, c), memory)
  {
  }

  lemma TrimmedFits(before: map<nat, Armed>, after: map<nat, Armed>, memory: map<nat, nat>, coroutines: seq<Coroutine>)
    requires Trimmed(before, after, memory) && InPresentRuns(before, coroutines)
    ensures InPresentRuns(after, coroutines)
  {
  }

  /** Forgetting buffers that were overwritten leaves a coroutine something live exactly if it had. */
  lemma LiveKept(before: map<nat, Armed>, after: map<nat, Armed>, memory: map<nat, nat>, c: nat)
    requires Trimmed(before, after, memory)
    ensures HasLive(after, memory, c) <==> HasLive(before, memory, c)
  {
    if HasLive(before, memory, c) {
      var b :| b in before && before[b].owner == c && Live(memory, b, before[b]);
      assert after[b] == before[b];
    }
  }

  function Without(armed: map<nat, Armed>, c: nat): map<nat, Armed> {
    map b | b in armed && armed[b].owner != c :: armed[b]
  }
}
