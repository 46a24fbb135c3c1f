/**
 Guest threads as fibers: the manager whose methods change, field by field and context by
 context, what the functions of GuestFiberStates say.
 */
module GuestFibers {
  import opened Common
  import opened GuestFiberStates
  import opened HostContexts

  class FiberManager {
    const host: Host
    var initialized: bool
    var fibers: map<nat, GuestFiber>
    var pending: seq<nat>
    var scheduler: nat
    var thread: nat
    var seed: Option<File>

    var files: Files
    var ambient: File
    var interrupts: bool
    var running: nat
    var context: nat

    var frames: map<nat, Frame>
    var entering: bool

    ghost var given: set<nat>

    ghost function View(): State
      reads this, host
    {
      State(initialized, fibers, pending, scheduler, thread, seed, files, ambient, interrupts, running, context,
            frames, entering, host.current, host.live, host.argument, given)
    }

    ghost predicate Valid()
      reads this, host
    {
      host.Valid() && Sound(View())
    }

    constructor (h: Host)
      requires h.Valid() && h.live == {}
      ensures Valid() && host == h && View() == FRESH.(argument := h.argument)
    {
      host := h;
      initialized, fibers, pending, scheduler, thread, seed := false, map[], [], 0, 0, None;
      files, ambient, interrupts, running, context := map[], PERSISTENT, false, 0, 0;
      frames, entering, given := map[], false, {};
    }

    // ------------------------------------------------------------------ operations

    method Initialize(handle: nat)
      requires Valid() && !entering && handle != 0 && handle !in host.live
      modifies this, host
      ensures View() == Initialized(old(View()), handle)
      ensures Valid()
    {
      InitializedSound(View(), handle);
      if initialized {
        return;
      }
      host.InitializeScheduler(handle);
      scheduler := handle;
      thread := 0;
      initialized := true;
      given := {};
    }

    /** A main thread is registered on the scheduler's context, and is the current one. */
    method RegisterMainThreadAsFiber(t: nat, cpu: Option<File>) returns (ok: bool)
      requires Valid() && !entering
      modifies this`fibers, this`thread, this`given
      ensures View() == Registered(old(View()), t, cpu)
      ensures Valid() && ok == initialized
    {
      RegisteredSound(View(), t, cpu);
      hide Sound;
      if !initialized {
        return false;
      }
      if t in fibers {
        return true;
      }
      var registers := if cpu.Some? then Get(files, cpu.value) else CLEARED;
      fibers := fibers[t := GuestFiber(scheduler, 0, 0, registers, RUNNING, true, false)];
      thread := t;
      given := if host.current == scheduler then given else given + {t};
      ok := true;
    }

    /** Gives up a context: freed at once, or, when it is the one running this very call, once
        nothing runs on it any more. */
    method Release(handle: nat)
      requires host.Valid() && handle in host.live
      modifies this`pending, this`frames, host`live
      ensures host.Valid() && View() == Released(old(View()), handle)
    {
      if host.IsCurrent(handle) {
        pending := pending + [handle];
      } else {
        host.Destroy(handle);
        frames := frames - {handle};
      }
    }

    method ExitGuestThread(t: nat, finalState: ThreadState)
      requires Valid() && !entering
      modifies this`fibers, this`thread, this`pending, this`frames, host`live
      ensures View() == Exited(old(View()), t, finalState)
      ensures Valid()
    {
      ExitedSound(View(), t, finalState);
      OnLiveContext(t);
      hide Sound, Released, Over;
      if t !in fibers {
        return;
      }
      Terminate(t, finalState);
      if fibers[t].handle == 0 || fibers[t].isScheduler {
        return;
      }
      Release(fibers[t].handle);
      fibers := fibers[t := fibers[t].(handle := 0)];
    }

    /** Marks a thread as over. */
    method Terminate(t: nat, finalState: ThreadState)
      requires t in fibers
      modifies this`fibers, this`thread
      ensures View() == Over(old(View()), t, finalState)
      ensures t in fibers && fibers[t].handle == old(fibers)[t].handle
    {
      fibers := fibers[t := fibers[t].(state := finalState, terminated := true)];
      if thread == t {
        thread := 0;
        return;
      }
    }

    lemma OnLiveContext(t: nat)
      requires Valid()
      ensures 0 !in host.live
      ensures t in fibers && fibers[t].isScheduler ==> fibers[t].handle == scheduler
      ensures t in fibers && fibers[t].handle != 0 ==> fibers[t].handle in host.live
    {
      assert t in fibers ==> FiberFits(t, fibers[t], scheduler, host.live, pending, host.argument);
    }

    /** A fiber for a new thread, on a context the host gives (0 when it has none to give). A thread
        that has one already gives it up first. */
    method CreateGuestFiber(t: nat, entryPoint: nat, entryArg: nat, stackBase: nat, handle: nat) returns (ok: bool)
      requires Valid() && !entering && handle !in Forgotten(View(), t).live
      modifies this`fibers, this`pending, this`frames, this`given, host`live, host`argument
      ensures View() == Created(old(View()), t, entryPoint, entryArg, stackBase, handle)
      ensures Valid()
      ensures ok == (initialized && handle != 0)
      ensures ok ==>
                && t in fibers && fibers[t].handle == handle
                && fibers[t].entryPoint == entryPoint && fibers[t].entryArg == entryArg
                && fibers[t].state == WAITING && !fibers[t].terminated && !fibers[t].isScheduler
    {
      if initialized && handle != 0 {
        CreatedRecord(View(), t, entryPoint, entryArg, stackBase, handle);
      }
      CreatedSound(View(), t, entryPoint, entryArg, stackBase, handle);
      OnLiveContext(t);
      assert Newborn(entryPoint, entryArg, stackBase, handle).handle == handle;
      hide Sound, Forgotten, Newborn, Born;
      if !initialized {
        return false;
      }
      Forget(t);
      if handle == 0 {
        return false;
      }
      Bear(t, Newborn(entryPoint, entryArg, stackBase, handle));
      ok := true;
    }

    /** A new thread, on a context made for it. */
    method Bear(t: nat, g: GuestFiber)
      requires host.Valid() && g.handle != 0 && g.handle !in host.live
      modifies this`fibers, host`live, host`argument
      ensures host.Valid() && View() == Born(old(View()), t, g)
    {
      host.Create(g.handle, t);
      fibers := fibers[t := g];
    }

    /** Forgets a thread, and gives up the context it had. */
    method Forget(t: nat)
      requires host.Valid() && (t in fibers && fibers[t].handle != 0 ==> fibers[t].handle in host.live)
      modifies this`fibers, this`pending, this`frames, this`given, host`live
      ensures host.Valid() && View() == Forgotten(old(View()), t)
    {
      hide Released;
      if t !in fibers {
        return;
      }
      var g := fibers[t];
      if g.isScheduler {
        given := given + {t};
        fibers := fibers - {t};
        return;
      }
      if g.handle != 0 {
        Release(g.handle);
        fibers := fibers - {t};
        return;
      }
      fibers := fibers - {t};
    }

    /** Frees the contexts whose last run is over. */
    method PurgePendingFibers()
      requires Valid() && !entering
      modifies this`pending, this`frames, host`live
      ensures View() == Purged(old(View()))
      ensures Valid()
    {
      PurgedSound(View());
      PendingAreLive();
      hide Sound;
      var toDelete := pending;
      pending := [];
      var stillRunning := FreeAll(toDelete);
      pending := pending + stillRunning;
    }

    /** Frees every context but the one that runs, which is left for later. */
    method FreeAll(toDelete: seq<nat>) returns (stillRunning: seq<nat>)
      requires host.Valid() && (forall i | 0 <= i < |toDelete| :: toDelete[i] in host.live)
      requires forall i, j | 0 <= i < j < |toDelete| :: toDelete[i] != toDelete[j]
      modifies this`frames, host`live
      ensures host.Valid()
      ensures host.live == old(host.live) - (set h | h in toDelete && h != host.current)
      ensures frames == old(frames) - (set h | h in toDelete && h != host.current)
      ensures stillRunning == if host.current in toDelete then [host.current] else []
    {
      stillRunning := [];
      for i := 0 to |toDelete|
        invariant host.Valid()
        invariant host.live == old(host.live) - (set h | h in toDelete[..i] && h != host.current)
        invariant frames == old(frames) - (set h | h in toDelete[..i] && h != host.current)
        invariant stillRunning == if host.current in toDelete[..i] then [host.current] else []
      {
        var f := toDelete[i];
        assert toDelete[..i + 1] == toDelete[..i] + [f];
        assert f !in toDelete[..i];
        if host.IsCurrent(f) {
          stillRunning := stillRunning + [f];
        } else {
          host.Destroy(f);
          frames := frames - {f};
        }
      }
      assert toDelete[..|toDelete|] == toDelete;
    }

    lemma PendingAreLive()
      requires Valid()
      ensures forall i | 0 <= i < |pending| :: pending[i] in host.live && pending[i] != 0
      ensures forall i, j | 0 <= i < j < |pending| :: pending[i] != pending[j]
    {
    }

    /** Releases every thread's context and then the scheduler's own. */
    method Shutdown()
      requires Valid() && !entering && host.current == scheduler
      modifies this`initialized, this`fibers, this`pending, this`scheduler, this`frames, host`live, host`current
      ensures View() == Ended(old(View()))
      ensures Valid()
    {
      EndedSound(View());
      if !initialized {
        return;
      }
      EndedFrees(View());
      hide Sound, Emptied, Ended;
      FreeThreads();
      fibers := map[];
      host.ShutdownScheduler(scheduler);
      scheduler := 0;
      initialized := false;
    }

    /** Frees every thread's context. */
    method FreeThreads()
      requires host.Valid() && Sound(View()) && initialized && !entering && host.current == scheduler
      modifies this`fibers, this`pending, this`frames, host`live
      ensures host.Valid() && View() == Emptied(old(View()), {}).(fibers := fibers)
    {
      ghost var s := View();
      EndedFrees(s);
      hide Sound, Emptied, Released, Ended;
      var left := fibers.Keys;
      while left != {}
        invariant left <= fibers.Keys <= s.fibers.Keys && host.Valid()
        invariant View() == Emptied(s, left).(fibers := fibers)
        invariant forall t | t in left :: fibers[t] == s.fibers[t]
        decreases |left|
      {
        var t :| t in left;
        EmptiedMore(s, left, t);
        FreeThread(t, Emptied(s, left));
        left := left - {t};
      }
    }

    /** Frees a thread's context, if it has one of its own. */
    method FreeThread(t: nat, ghost s: State)
      requires host.Valid() && t in fibers && View() == s.(fibers := fibers)
      requires fibers[t].handle != 0 && !fibers[t].isScheduler ==> fibers[t].handle in host.live
      modifies this`fibers, this`pending, this`frames, host`live
      ensures host.Valid() && fibers.Keys == old(fibers).Keys
      ensures forall u | u in fibers && u != t :: fibers[u] == old(fibers)[u]
      ensures View() == (if old(fibers)[t].handle != 0 && !old(fibers)[t].isScheduler
                         then Released(s, old(fibers)[t].handle) else s).(fibers := fibers)
      ensures fibers[t].handle == 0 || fibers[t].isScheduler
    {
      ReleasedAnyway(s, fibers, fibers[t].handle);
      hide Released;
      if fibers[t].handle == 0 || fibers[t].isScheduler {
        return;
      }
      Release(fibers[t].handle);
      fibers := fibers[t := fibers[t].(handle := 0)];
    }

    // --------------------------------------------------------------------- switching

    /** Leaves the running thread for another. Where it gets as far as leaving the context, `Resume` is
        what comes after. */
    method SwitchToThread(t: nat, cpu: Option<File>) returns (left: bool)
      requires Valid() && !entering
      modifies this`fibers, this`thread, this`seed, this`files, this`frames, this`entering, this`pending, host`live,
        host`current
      ensures View() == Away(old(View()), t, cpu)
      ensures Valid() && entering == left && left == Leaves(old(View()), t)
    {
      AwaySound(View(), t, cpu);
      PurgedIs(View());
      hide Sound, Purged, Kept, Stayed, Left, FrameOf;
      PurgePendingFibers();
      if !initialized || t !in fibers || fibers[t].handle == 0 || fibers[t].terminated {
        return false;
      }
      OnLiveContext(t);
      var frame := FrameFor(cpu);
      KeptIs(View(), cpu, t);
      SaveCurrent(cpu);
      if host.IsCurrent(fibers[t].handle) {
        Stay(t, cpu);
        return false;
      }
      Leave(t, cpu, frame);
      left := true;
    }

    /** Keeps the current thread's registers with it. */
    method SaveCurrent(cpu: Option<File>)
      modifies this`fibers
      ensures View() == Kept(old(View()), cpu)
    {
      if thread != 0 && cpu.Some? && thread in fibers {
        fibers := fibers[thread := fibers[thread].(cpuContext := Get(files, cpu.value))];
      }
    }

    /** Goes on as another thread of the current context. */
    method Stay(t: nat, cpu: Option<File>)
      requires t in fibers
      modifies this`fibers, this`thread, this`seed
      ensures View() == Stayed(old(View()), t, cpu)
    {
      thread := t;
      fibers := fibers[t := fibers[t].(state := RUNNING)];
      seed := cpu;
    }

    /** Leaves the current context, with `frame` on it, for a thread's, with its registers. */
    method Leave(t: nat, cpu: Option<File>, frame: Frame)
      requires host.Valid() && t in fibers && fibers[t].handle in host.live && fibers[t].handle != 0
      modifies this`fibers, this`thread, this`seed, this`files, this`frames, this`entering, host`current
      ensures host.Valid() && View() == Left(old(View()), t, cpu, frame)
    {
      hide Loaded, Runs;
      var handle := fibers[t].handle;
      LoadFile(cpu, fibers[t].cpuContext);
      thread := t;
      SetRunning(t);
      seed := cpu;
      frames := frames[host.current := frame];
      host.Switch(handle);
      entering := true;
    }

    method LoadFile(cpu: Option<File>, registers: Registers)
      modifies this`files
      ensures files == Loaded(old(files), cpu, registers)
    {
      if cpu.Some? {
        files := files[cpu.value := registers];
      }
    }

    /** What a switch keeps on its stack: the caller's registers, the persistent file under a scratch
        caller, and what the host thread's fibers share. */
    method FrameFor(cpu: Option<File>) returns (frame: Frame)
      ensures frame == FrameOf(View(), cpu)
    {
      var caller := if cpu.Some? then Get(files, cpu.value) else CLEARED;
      var fromScratch := cpu.Some? && cpu.value != PERSISTENT;
      var interruptedFile := CLEARED;
      if fromScratch {
        interruptedFile := Get(files, PERSISTENT);
      }
      frame := Switching(cpu, thread, caller, interruptedFile, ambient, interrupts);
    }

    /** Control comes back to a switch. */
    method Resume()
      requires Valid() && entering && host.current in frames && frames[host.current].Switching?
      modifies this`files, this`ambient, this`interrupts, this`fibers, this`thread, this`frames, this`entering
      ensures View() == Resumed(old(View()))
      ensures Valid() && !entering
    {
      ResumedSound(View());
      hide Sound, Loaded, Runs;
      var f := frames[host.current];
      PutBackShared(f);
      if f.previous != 0 && running == f.previous && context == f.previous {
        thread := f.previous;
        if f.previous !in fibers {
          return;
        }
        LoadFile(f.cpu, fibers[f.previous].cpuContext);
        SetRunning(f.previous);
        return;
      }
      LoadFile(f.cpu, f.caller);
      thread := 0;
    }

    method SetRunning(t: nat)
      modifies this`fibers
      ensures fibers == Runs(old(fibers), t)
    {
      if t in fibers {
        fibers := fibers[t := fibers[t].(state := RUNNING)];
      }
    }

    /** Puts back what the host thread's fibers share. */
    method PutBackShared(f: Frame)
      requires f.Switching?
      modifies this`files, this`ambient, this`interrupts, this`frames, this`entering
      ensures View() == SharedBack(old(View()), f)
    {
      ambient, interrupts := f.ambient, f.interrupts;
      frames := frames - {host.current};
      entering := false;
      if f.cpu.Some? && f.cpu.value != PERSISTENT {
        files := files[PERSISTENT := f.interrupted];
        return;
      }
    }

    /** A thread that was never left runs its entry, on the persistent registers and with interrupts
        on. `words` are those of its saved context the guest memory has. */
    method StartFiber(words: seq<nat>)
      requires Valid() && entering && host.current !in frames
      modifies this`files, this`ambient, this`interrupts, this`entering
      ensures old(Known(View())) && View() == Started(old(View()), words)
      ensures Valid()
    {
      StartedSound(View(), words);
      hide Sound;
      hide Entered, Get;
      var seeded := Get(files, if seed.Some? then seed.value else PERSISTENT);
      var r := EntryRegisters(seeded, words, fibers[host.argument[host.current]]);
      files := files[PERSISTENT := r];
      ambient := PERSISTENT;
      interrupts := true;
      entering := false;
    }

    /** The registers of a thread's entry: what of its saved context could be read goes over the seed. */
    method EntryRegisters(seeded: Registers, words: seq<nat>, g: GuestFiber) returns (r: Registers)
      ensures r == Entered(seeded, words, g)
    {
      r := seeded;
      if |words| > 0 {
        r := r.(gpr := r.gpr[2 := words[0]]);
      }
      if |words| > 1 {
        r := r.(gpr := r.gpr[13 := words[1]]);
      }
      if |words| > 2 {
        r := r.(gpr := r.gpr[1 := words[2]]);
      }
      if |words| > 3 {
        r := r.(lr := words[3]);
      }
      r := r.(gpr := r.gpr[3 := g.entryArg], pc := g.entryPoint, srr0 := g.entryPoint);
    }

    /** A thread whose entry is not there yet lets the scheduler run. */
    method Yield()
      requires Valid() && !entering && initialized && host.current != scheduler
      modifies this`frames, this`entering, host`current
      ensures View() == Deferred(old(View()))
      ensures Valid()
    {
      DeferredSound(View());
      frames := frames[host.current := Deferring(ambient, interrupts)];
      host.Switch(scheduler);
      entering := true;
    }

    method ResumeDeferred()
      requires Valid() && entering && host.current in frames && frames[host.current].Deferring?
      modifies this`frames, this`entering, this`ambient, this`interrupts
      ensures View() == DeferringResumed(old(View()))
      ensures Valid()
    {
      DeferringResumedSound(View());
      ambient, interrupts := frames[host.current].ambient, frames[host.current].interrupts;
      frames := frames - {host.current};
      entering := false;
    }

    /** A thread's entry returned: nothing will switch to its context again, and the scheduler's
        suspended switch goes on. */
    method FinishThread()
      requires Valid() && !entering && initialized && host.current != scheduler
      modifies this`fibers, this`thread, this`frames, this`entering, this`running, this`context, host`current
      ensures old(host.current in host.argument) && View() == Ran(old(View()))
      ensures Valid()
    {
      HasArgument();
      RanSound(View());
      SchedulerIsLive();
      hide Sound, Returned, LeftForGood;
      End(host.argument[host.current]);
      LeaveForGood();
    }

    /** Lets the scheduler run, and never runs again. */
    method LeaveForGood()
      requires host.Valid() && scheduler in host.live
      modifies this`thread, this`frames, this`entering, host`current
      ensures host.Valid() && View() == LeftForGood(old(View()))
    {
      thread := 0;
      frames := frames[host.current := Finished];
      host.Switch(scheduler);
      entering := true;
    }

    /** A thread is over, and the guest's own record of what runs no longer names it. */
    method End(t: nat)
      modifies this`fibers, this`running, this`context
      ensures View() == Returned(old(View()), t)
    {
      hide Moribund;
      MarkMoribund(t);
      ForgetContexts(t);
    }

    method MarkMoribund(t: nat)
      modifies this`fibers
      ensures fibers == Moribund(old(fibers), t)
    {
      if t in fibers {
        fibers := fibers[t := fibers[t].(state := MORIBUND, terminated := true)];
      }
    }

    method ForgetContexts(t: nat)
      modifies this`running, this`context
      ensures running == if old(running) == t then 0 else old(running)
      ensures context == if old(context) == t then 0 else old(context)
    {
      if running == t {
        running := 0;
      }
      if context == t {
        context := 0;
      }
    }

    lemma HasArgument()
      requires Valid() && initialized && host.current != scheduler
      ensures host.current in host.argument
    {
    }

    lemma SchedulerIsLive()
      requires Valid() && initialized && host.current != scheduler
      ensures scheduler in host.live
    {
    }

    /** Guest code on the current context, or a native it calls: any registers, any ambient pointer. */
    method RunGuest(f: Files, a: File, i: bool, runs: nat, has: nat)
      requires Valid() && !entering
      modifies this`files, this`ambient, this`interrupts, this`running, this`context
      ensures View() == old(View()).(files := f, ambient := a, interrupts := i, running := runs, context := has)
      ensures Valid()
    {
      files, ambient, interrupts, running, context := f, a, i, runs, has;
    }

    // --------------------------------------------------------------------- whole runs

    /** One step of the run, if it is one that can happen now. */
    method Perform(step: Step)
      requires Valid()
      modifies this, host
      ensures View() == Next(old(View()), step)
      ensures Valid()
    {
      if entering {
        if step.Arrive? {
          Come(step.words);
        }
        return;
      }
      match step
      case Initialize(handle) =>
        if handle != 0 && handle !in host.live {
          Initialize(handle);
        }
      case Register(t, cpu) =>
        var _ := RegisterMainThreadAsFiber(t, cpu);
      case Create(t, entryPoint, entryArg, stackBase, handle) =>
        var free := MayUse(t, handle);
        if free {
          var _ := CreateGuestFiber(t, entryPoint, entryArg, stackBase, handle);
        }
      case Exit(t, state) =>
        ExitGuestThread(t, state);
      case SwitchTo(t, cpu) =>
        var _ := SwitchToThread(t, cpu);
      case Arrive(_) =>
      case Defer =>
        if initialized && host.current != scheduler {
          Yield();
        }
      case Return =>
        if initialized && host.current != scheduler {
          FinishThread();
        }
      case Guest(f, a, i, runs, has) =>
        RunGuest(f, a, i, runs, has);
      case Shutdown =>
        if host.current == scheduler {
          Shutdown();
        }
    }

    /** The host may give a handle that is free once the thread's old context is. */
    method MayUse(t: nat, handle: nat) returns (free: bool)
      requires Valid()
      ensures free <==> handle !in Forgotten(View(), t).live
    {
      OnLiveContext(t);
      hide Sound;
      free := handle !in host.live ||
              (t in fibers && fibers[t].handle == handle && !fibers[t].isScheduler && handle != host.current);
    }

    /** Control has come to the current context. */
    method Come(words: seq<nat>)
      requires Valid() && entering
      modifies this`files, this`ambient, this`interrupts, this`fibers, this`thread, this`frames, this`entering
      ensures View() == Arrived(old(View()), words) && !entering
      ensures Valid()
    {
      ArrivedSound(View(), words);
      SomethingToDo();
      hide Sound;
      if host.current !in frames {
        StartFiber(words);
      } else if frames[host.current].Switching? {
        Resume();
      } else {
        ResumeDeferred();
      }
    }

    lemma SomethingToDo()
      requires Valid() && entering
      ensures host.current in frames ==> frames[host.current] != Finished
    {
    }

    /** A switch and what comes after, while the others perform any steps: whether control comes back, and
        with what. */
    method SwitchAndReturn(t: nat, cpu: Option<File>, script: seq<Step>) returns (returned: bool)
      requires Valid() && !entering
      modifies this, host
      ensures Valid() && (returned <==> Leaves(old(View()), t) && Back(old(View()), t, cpu, script).Some?)
      ensures returned ==>
                && host.current == old(host.current) && ambient == old(ambient) && interrupts == old(interrupts)
                && (cpu.Some? && cpu.value != PERSISTENT ==> Get(files, PERSISTENT) == old(Get(files, PERSISTENT)))
                && (cpu.Some? && old(thread) !in given ==> Get(files, cpu.value) == old(Get(files, cpu.value)))
      ensures returned && cpu.Some?
              && old(thread !in given && (host.current != scheduler || NeverMade(script, thread))) ==>
                Get(files, cpu.value) == old(Get(files, cpu.value))
    {
      hide Sound, FirstReturn, Next, Away, Resumed;
      ghost var s := View();
      var source := host.current;
      returned := SwitchToThread(t, cpu);
      if returned {
        returned := RunUntilBack(source, script);
        if returned {
          SwitchComesBack(s, t, cpu, script);
          if s.thread !in s.given && (s.current != s.scheduler || NeverMade(script, s.thread)) {
            SwitchRestores(s, t, cpu, script);
          }
          Resume();
        }
      }
    }

    /** Performs steps until control is back on a context. */
    method RunUntilBack(source: nat, script: seq<Step>) returns (back: bool)
      requires Valid()
      modifies this, host
      ensures Valid() && back == FirstReturn(old(View()), source, script).Some?
      ensures back ==> View() == FirstReturn(old(View()), source, script).value
    {
      hide Sound, Next;
      ghost var all := FirstReturn(View(), source, script);
      assert script[0..] == script;
      for i := 0 to |script|
        invariant Valid() && FirstReturn(View(), source, script[i..]) == all
      {
        if host.current == source {
          return source in frames;
        }
        assert script[i..][1..] == script[i + 1..];
        Perform(script[i]);
      }
      back := host.current == source && source in frames;
    }
  }

  /** Some threads' contexts have been freed: those of the threads not in `left`. */
  ghost function Emptied(s: State, left: set<nat>): State {
    var gone := set t | t in s.fibers && t !in left && s.fibers[t].handle != 0 && !s.fibers[t].isScheduler ::
        s.fibers[t].handle;
    s.(live := s.live - gone, frames := s.frames - gone)
  }

  lemma EmptiedMore(s: State, left: set<nat>, t: nat)
    requires Sound(s) && s.initialized && s.current == s.scheduler && t in left && t in s.fibers
    ensures var g, e := s.fibers[t], Emptied(s, left);
            if g.handle != 0 && !g.isScheduler
            then g.handle in e.live && Emptied(s, left - {t}) == Released(e, g.handle)
            else Emptied(s, left - {t}) == e
  {
  }

  lemma ReleasedAnyway(s: State, fibers: map<nat, GuestFiber>, h: nat)
    ensures Released(s.(fibers := fibers), h) == Released(s, h).(fibers := fibers)
  {
    if h == s.current {
    } else {
    }
  }

  /** Shutting down frees everything but the contexts that still wait to be freed. */
  lemma EndedFrees(s: State)
    requires Sound(s) && s.initialized && !s.entering && s.current == s.scheduler
    ensures Ended(s).live == (set h | h in s.pending)
    ensures Ended(s) == Emptied(s, {}).(initialized := false, fibers := map[], scheduler := 0, current := 0,
                                        live := Emptied(s, {}).live - {s.scheduler})
    ensures Emptied(s, s.fibers.Keys) == s
    ensures s.scheduler in Emptied(s, {}).live
  {
  }
}
