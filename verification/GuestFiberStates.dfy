/**
 What fibers do, as functions of the whole state: which host context each guest thread runs on,
 when a context is freed, and what a thread finds when it runs again.

 A switch is two steps. It ends where the caller's context is left, with a frame that holds its
 locals; control then comes to another context, whose own frame, if it has one, goes on in
 `Resumed`. Between the two anything may happen to the registers, the ambient pointer, the
 interrupt flag and guest memory.
 */
module GuestFiberStates {
  import opened Common

  /** A register file: the persistent one, or a scratch context on somebody's stack. */
  type File = nat
  const PERSISTENT: File := 0

  datatype Registers = Registers(gpr: map<nat, nat>, lr: nat, pc: nat, srr0: nat, rest: seq<nat>)

  const CLEARED := Registers(map[], 0, 0, 0, [])

  type Files = map<File, Registers>

  /** What a file holds; one that was never written is cleared. */
  function Get(files: Files, f: File): Registers {
    if f in files then files[f] else CLEARED
  }

  datatype ThreadState = READY | RUNNING | WAITING | MORIBUND

  datatype GuestFiber = GuestFiber(handle: nat, entryPoint: nat, entryArg: nat, cpuContext: Registers,
                                   state: ThreadState, isScheduler: bool, terminated: bool)

  /** What a context that was left holds on its stack. */
  datatype Frame =
    | Switching(cpu: Option<File>, previous: nat, caller: Registers, interrupted: Registers, ambient: File,
      interrupts: bool)
    | Deferring(ambient: File, interrupts: bool)
    | Finished

  datatype State = State(
    initialized: bool, fibers: map<nat, GuestFiber>, pending: seq<nat>, scheduler: nat, thread: nat, seed: Option<File>,
    // the registers and what else the host thread's fibers share, and the guest's own record of what runs
    files: Files, ambient: File, interrupts: bool, running: nat, context: nat,
    // the stacks: what every context that was left holds, and whether control has come to the current
    // context without its code having run yet
    frames: map<nat, Frame>, entering: bool,
    // the host
    current: nat, live: set<nat>, argument: map<nat, nat>,
    // the structures of main threads that were given to new threads, or made main threads of elsewhere
    // than on the scheduler's context
    given: set<nat>)

  const FRESH := State(false, map[], [], 0, 0, None, map[], PERSISTENT, false, 0, 0, map[], false, 0, {}, map[], {})

  // -------------------------------------------------------------------- invariants

  /** A registered thread is on a live context of its own, or on the scheduler's. */
  ghost predicate FiberFits(t: nat, g: GuestFiber, scheduler: nat, live: set<nat>, pending: seq<nat>, argument: map<nat,
                            nat>) {
    && (g.isScheduler ==> g.handle == scheduler)
    && (g.handle != 0 ==>
          && g.handle in live && g.handle !in pending
          && (!g.isScheduler ==> g.handle != scheduler && g.handle in argument && argument[g.handle] == t))
  }

  ghost predicate FibersFit(fibers: map<nat, GuestFiber>, scheduler: nat, live: set<nat>, pending: seq<nat>,
                            argument: map<nat, nat>) {
    forall t | t in fibers :: FiberFits(t, fibers[t], scheduler, live, pending, argument)
  }

  /** A context waits to be freed once, and is a thread's. */
  ghost predicate PendingFits(pending: seq<nat>, scheduler: nat, live: set<nat>, argument: map<nat, nat>) {
    && (forall h | h in pending :: h in live && h != scheduler && h in argument)
    && (forall i, j | 0 <= i < j < |pending| :: pending[i] != pending[j])
  }

  /** The thread a context was made for has it. */
  ghost predicate Held(h: nat, fibers: map<nat, GuestFiber>, argument: map<nat, nat>) {
    h in argument && argument[h] in fibers && fibers[argument[h]].handle == h
  }

  ghost predicate NoneLost(live: set<nat>, scheduler: nat, pending: seq<nat>, fibers: map<nat, GuestFiber>,
                           argument: map<nat, nat>) {
    forall h | h in live :: h == scheduler || h in pending || Held(h, fibers, argument)
  }

  ghost predicate HostFits(s: State) {
    && 0 !in s.live && (s.initialized <==> s.current != 0) && (s.initialized ==> s.current in s.live)
    && (if s.initialized then s.scheduler in s.live else s.scheduler == 0 && s.fibers == map[])
    && s.frames.Keys <= s.live
  }

  /** No context that may still be used has been freed, none will be freed twice, and none is lost. */
  ghost predicate Lifetimes(s: State) {
    && HostFits(s)
    && FibersFit(s.fibers, s.scheduler, s.live, s.pending, s.argument)
    && PendingFits(s.pending, s.scheduler, s.live, s.argument)
    && NoneLost(s.live, s.scheduler, s.pending, s.fibers, s.argument)
  }

  /** Every context that was left has something to go on with, and a thread that can be switched
      to has not finished. */
  ghost predicate Stacks(s: State) {
    && (s.initialized && s.scheduler != s.current ==> s.scheduler in s.frames && s.frames[s.scheduler].Switching?)
    && (s.entering ==> s.initialized)
    && (!s.entering ==> s.current !in s.frames)
    && (s.entering && s.current !in s.frames ==>
          s.thread in s.fibers && s.fibers[s.thread].handle == s.current && !s.fibers[s.thread].isScheduler)
    && (s.entering && s.current in s.frames ==> s.frames[s.current] != Finished && s.current !in s.pending)
    && FinishedAreOver(s.fibers, s.frames)
  }

  ghost predicate FinishedAreOver(fibers: map<nat, GuestFiber>, frames: map<nat, Frame>) {
    forall t | t in fibers && fibers[t].handle in frames && frames[fibers[t].handle] == Finished :: fibers[t].terminated
  }

  /** A suspended switch will find its thread's registers where it put them, unless the thread's
      structure was a main thread's that was given away or registered elsewhere. */
  ghost predicate FrameFits(fibers: map<nat, GuestFiber>, given: set<nat>, h: nat, f: Frame) {
    f.Switching? && f.previous != 0 && f.previous !in given ==>
      && f.previous in fibers && fibers[f.previous].handle == h
      && (f.cpu.Some? ==> fibers[f.previous].cpuContext == f.caller)
  }

  ghost predicate FramesFit(fibers: map<nat, GuestFiber>, given: set<nat>, pending: seq<nat>, frames: map<nat, Frame>) {
    forall h | h in frames && h !in pending :: FrameFits(fibers, given, h, frames[h])
  }

  /** The current guest thread is on the current context, unless that one is about to go. */
  ghost predicate AtHome(s: State) {
    || s.thread == 0 || s.thread in s.given
    || (if s.current in s.pending
        then s.thread in s.fibers ==> s.fibers[s.thread].handle !in s.frames && s.fibers[s.thread].handle != s.current
        else s.thread in s.fibers && s.fibers[s.thread].handle == s.current)
  }

  ghost predicate Restoring(s: State) {
    && FramesFit(s.fibers, s.given, s.pending, s.frames)
    && (s.initialized ==> (s.entering && s.current in s.frames && s.frames[s.current].Switching?) || AtHome(s))
  }

  ghost predicate Sound(s: State) {
    Lifetimes(s) && Stacks(s) && Restoring(s)
  }

  // -------------------------------------------------------------------- operations

  function Initialized(s: State, handle: nat): State {
    if s.initialized then s
    else s.(initialized := true, scheduler := handle, thread := 0, current := handle, live := s.live + {handle},
      given := {})
  }

  /** Everything but what still waits to be freed is freed. */
  function Ended(s: State): State {
    if !s.initialized then s
    else s.(initialized := false, fibers := map[], scheduler := 0, current := 0,
            live := (set h | h in s.live && h in s.pending),
            frames := map h | h in s.frames && h in s.pending :: s.frames[h])
  }

  /** A main thread is registered on the scheduler's context, and is the current one, wherever this is
      called: on another context, that context's code now passes for it. */
  function Registered(s: State, t: nat, cpu: Option<File>): State {
    if !s.initialized || t in s.fibers then s
    else
      var registers := if cpu.Some? then Get(s.files, cpu.value) else CLEARED;
      s.(fibers := s.fibers[t := GuestFiber(s.scheduler, 0, 0, registers, RUNNING, true, false)], thread := t,
         given := if s.current == s.scheduler then s.given else s.given + {t})
  }

  /** A context given up is freed at once, or, when it is the one running this very call, once
      nothing runs on it any more. */
  function Released(s: State, h: nat): State {
    if h == s.current then s.(pending := s.pending + [h])
    else s.(live := s.live - {h}, frames := s.frames - {h})
  }

  /** The contexts whose last run is over are freed. */
  function Purged(s: State): State {
    var gone := set h | h in s.pending && h != s.current;
    s.(live := s.live - gone, frames := s.frames - gone, pending := if s.current in s.pending then [s.current] else [])
  }

  /** A thread is forgotten, and gives up the context it had. */
  function Forgotten(s: State, t: nat): State {
    if t !in s.fibers then s
    else if s.fibers[t].isScheduler then s.(fibers := s.fibers - {t}, given := s.given + {t})
    else if s.fibers[t].handle == 0 then s.(fibers := s.fibers - {t})
    else Released(s, s.fibers[t].handle).(fibers := s.fibers - {t})
  }

  /** A thread that has not run: its first registers. */
  function Newborn(entryPoint: nat, entryArg: nat, stackBase: nat, context: nat): GuestFiber {
    var registers := CLEARED.(gpr := map[1 := stackBase, 3 := entryArg], pc := entryPoint, srr0 := entryPoint);
    GuestFiber(context, entryPoint, entryArg, registers, WAITING, false, false)
  }

  function Born(s: State, t: nat, g: GuestFiber): State {
    s.(live := s.live + {g.handle}, argument := s.argument[g.handle := t], fibers := s.fibers[t := g])
  }

  /** A fiber for a new thread, on a context the host gives (0 when it has none to give). A thread
      that has one already gives it up first. */
  function Created(s: State, t: nat, entryPoint: nat, entryArg: nat, stackBase: nat, context: nat): State {
    if !s.initialized then s
    else
      var f := Forgotten(s, t);
      if context == 0 then f
      else Born(f, t, Newborn(entryPoint, entryArg, stackBase, context))
  }

  /** The thread is over, and is not the current one any more. */
  function Over(s: State, t: nat, finalState: ThreadState): State
    requires t in s.fibers
  {
    s.(fibers := s.fibers[t := s.fibers[t].(state := finalState, terminated := true)],
       thread := if s.thread == t then 0 else s.thread)
  }

  /** A thread exits: its context is no longer its own, unless it is the scheduler's. */
  function Exited(s: State, t: nat, finalState: ThreadState): State {
    if t !in s.fibers then s
    else
      var e := Over(s, t, finalState);
      if e.fibers[t].handle == 0 || e.fibers[t].isScheduler then e
      else Released(e, e.fibers[t].handle).(fibers := e.fibers[t := e.fibers[t].(handle := 0)])
  }

  /** The threads once the current one's registers are kept with it. */
  function Saved(fibers: map<nat, GuestFiber>, thread: nat, cpu: Option<File>, files: Files): map<nat, GuestFiber> {
    if thread != 0 && cpu.Some? && thread in fibers
    then fibers[thread := fibers[thread].(cpuContext := Get(files, cpu.value))]
    else fibers
  }

  function Runs(fibers: map<nat, GuestFiber>, t: nat): map<nat, GuestFiber> {
    if t in fibers then fibers[t := fibers[t].(state := RUNNING)] else fibers
  }

  /** A thread that a switch goes to, as another of the current context or on its own. */
  predicate Found(s: State, t: nat) {
    s.initialized && t in s.fibers && s.fibers[t].handle != 0 && !s.fibers[t].terminated
  }

  predicate Leaves(s: State, t: nat) {
    Found(s, t) && s.fibers[t].handle != s.current
  }

  /** What a switch keeps on its stack. */
  function FrameOf(s: State, cpu: Option<File>): Frame {
    Switching(cpu, s.thread,
              if cpu.Some? then Get(s.files, cpu.value) else CLEARED,
              if cpu.Some? && cpu.value != PERSISTENT then Get(s.files, PERSISTENT) else CLEARED,
              s.ambient, s.interrupts)
  }

  /** The current thread's registers are kept with it. */
  function Kept(s: State, cpu: Option<File>): State {
    s.(fibers := Saved(s.fibers, s.thread, cpu, s.files))
  }

  /** The current context goes on as another thread. */
  function Stayed(s: State, t: nat, cpu: Option<File>): State {
    s.(fibers := Runs(s.fibers, t), thread := t, seed := cpu)
  }

  function Loaded(files: Files, cpu: Option<File>, registers: Registers): Files {
    if cpu.Some? then files[cpu.value := registers] else files
  }

  /** The current context is left for a thread's, with `f` on it and the thread's registers loaded. */
  function Left(s: State, t: nat, cpu: Option<File>, f: Frame): State
    requires t in s.fibers
  {
    s.(fibers := Runs(s.fibers, t), thread := t, seed := cpu,
       files := Loaded(s.files, cpu, s.fibers[t].cpuContext),
       frames := s.frames[s.current := f], current := s.fibers[t].handle, entering := true)
  }

  /** The switch to a thread, up to where it leaves the context, if it does. */
  function Away(s: State, t: nat, cpu: Option<File>): State {
    var p := Purged(s);
    if !Found(p, t) then p
    else if p.fibers[t].handle == p.current then Stayed(Kept(p, cpu), t, cpu)
    else Left(Kept(p, cpu), t, cpu, FrameOf(p, cpu))
  }

  /** The guest's own record says the switch's thread is the one that runs again. */
  predicate Resumes(s: State, f: Frame)
    requires f.Switching?
  {
    f.previous != 0 && s.running == s.context == f.previous
  }

  /** What the host thread's fibers share is put back. */
  function SharedBack(s: State, f: Frame): State
    requires f.Switching?
  {
    s.(ambient := f.ambient, interrupts := f.interrupts, frames := s.frames - {s.current}, entering := false,
       files := if f.cpu.Some? && f.cpu.value != PERSISTENT then s.files[PERSISTENT := f.interrupted] else s.files)
  }

  /** Control comes back to a switch: the caller has its registers again, or, when the guest runs the
      switch's thread again, those of the thread's record, if it has one. */
  function Resumed(s: State): State
    requires s.current in s.frames && s.frames[s.current].Switching?
  {
    var f := s.frames[s.current];
    var r := SharedBack(s, f);
    if !Resumes(s, f) then r.(files := Loaded(r.files, f.cpu, f.caller), thread := 0)
    else if f.previous !in s.fibers then r.(thread := f.previous)
    else r.(files := Loaded(r.files, f.cpu, s.fibers[f.previous].cpuContext), fibers := Runs(s.fibers, f.previous),
            thread := f.previous)
  }

  /** The registers a thread's entry starts with: the seed's, with the words of the thread's saved
      context that could be read, its argument, and its entry. */
  function Entered(seed: Registers, words: seq<nat>, g: GuestFiber): Registers {
    var gpr := seed.gpr;
    var toc := if |words| > 0 then gpr[2 := words[0]] else gpr;
    var sda := if |words| > 1 then toc[13 := words[1]] else toc;
    var stack := if |words| > 2 then sda[1 := words[2]] else sda;
    seed.(gpr := stack[3 := g.entryArg], lr := if |words| > 3 then words[3] else seed.lr,
          pc := g.entryPoint, srr0 := g.entryPoint)
  }

  /** The thread a context was made for is registered. */
  predicate Known(s: State) {
    s.current in s.argument && s.argument[s.current] in s.fibers
  }

  /** A thread that was never left runs its entry, on the persistent registers and with interrupts on. */
  function Started(s: State, words: seq<nat>): State
    requires Known(s)
  {
    var seed := Get(s.files, if s.seed.Some? then s.seed.value else PERSISTENT);
    s.(files := s.files[PERSISTENT := Entered(seed, words, s.fibers[s.argument[s.current]])],
       ambient := PERSISTENT, interrupts := true, entering := false)
  }

  /** A thread whose entry is not there yet lets the scheduler run. */
  function Deferred(s: State): State {
    s.(frames := s.frames[s.current := Deferring(s.ambient, s.interrupts)], current := s.scheduler, entering := true)
  }

  function DeferringResumed(s: State): State
    requires s.current in s.frames && s.frames[s.current].Deferring?
  {
    var f := s.frames[s.current];
    s.(ambient := f.ambient, interrupts := f.interrupts, frames := s.frames - {s.current}, entering := false)
  }

  /** A thread's entry returned: it is over, and the guest's own record of what runs no longer names it. */
  function Returned(s: State, t: nat): State {
    s.(fibers := Moribund(s.fibers, t), running := if s.running == t then 0 else s.running,
       context := if s.context == t then 0 else s.context)
  }

  function Moribund(fibers: map<nat, GuestFiber>, t: nat): map<nat, GuestFiber> {
    if t in fibers then fibers[t := fibers[t].(state := MORIBUND, terminated := true)] else fibers
  }

  /** Nothing will switch to the current context again. */
  function LeftForGood(s: State): State {
    s.(thread := 0, frames := s.frames[s.current := Finished], current := s.scheduler, entering := true)
  }

  function Ran(s: State): State
    requires s.current in s.argument
  {
    LeftForGood(Returned(s, s.argument[s.current]))
  }

  // -------------------------------------------------------------------------- runs

  /** What the contexts of a run may do. */
  datatype Step =
    | Initialize(handle: nat)
    | Register(t: nat, cpu: Option<File>)
    | Create(t: nat, entryPoint: nat, entryArg: nat, stackBase: nat, context: nat)
    | Exit(t: nat, state: ThreadState)
    | SwitchTo(t: nat, cpu: Option<File>)
    | Arrive(words: seq<nat>)
    | Defer
    | Return
    | Guest(files: Files, ambient: File, interrupts: bool, running: nat, context: nat)
    | Shutdown

  /** Control has come to a context: it goes on with its frame, or starts. */
  function Arrived(s: State, words: seq<nat>): State {
    if s.current !in s.frames then (if Known(s) then Started(s, words) else s)
    else if s.frames[s.current].Switching? then Resumed(s)
    else if s.frames[s.current].Deferring? then DeferringResumed(s)
    else s
  }

  /** One step of a run; one that cannot happen now does nothing. */
  function Next(s: State, step: Step): State {
    if s.entering then (if step.Arrive? then Arrived(s, step.words) else s)
    else
      match step
      case Initialize(handle) => if handle != 0 && handle !in s.live then Initialized(s, handle) else s
      case Register(t, cpu) => Registered(s, t, cpu)
      case Create(t, entryPoint, entryArg, stackBase, context) =>
        if context !in Forgotten(s, t).live then Created(s, t, entryPoint, entryArg, stackBase, context) else s
      case Exit(t, state) => Exited(s, t, state)
      case SwitchTo(t, cpu) => Away(s, t, cpu)
      case Arrive(_) => s
      case Defer => if s.initialized && s.current != s.scheduler then Deferred(s) else s
      case Return => if s.initialized && s.current != s.scheduler && s.current in s.argument then Ran(s) else s
      case Guest(files, ambient, interrupts, running, context) =>
        s.(files := files, ambient := ambient, interrupts := interrupts, running := running, context := context)
      case Shutdown => if s.current == s.scheduler then Ended(s) else s
  }

  function Run(s: State, script: seq<Step>): State
    decreases |script|
  {
    if script == [] then s else Run(Next(s, script[0]), script[1..])
  }

  // ---------------------------------------------------- what every operation keeps

  lemma InitializedSound(s: State, handle: nat)
    requires Sound(s) && !s.entering && handle != 0 && handle !in s.live
    ensures Sound(Initialized(s, handle))
  {
  }

  lemma EndedSound(s: State)
    requires Sound(s) && !s.entering && s.current == s.scheduler
    ensures Sound(Ended(s))
  {
  }

  lemma RegisteredSound(s: State, t: nat, cpu: Option<File>)
    requires Sound(s) && !s.entering
    ensures Sound(Registered(s, t, cpu))
  {
  }

  lemma PurgedSound(s: State)
    requires Sound(s) && !s.entering
    ensures Sound(Purged(s))
  {
  }

  /** Giving up a thread's context: what is left of the threads has it no more. */
  lemma ReleasedLifetimes(s: State, t: nat, fibers: map<nat, GuestFiber>)
    requires Lifetimes(s) && s.initialized && !s.entering && s.current !in s.frames
    requires t in s.fibers && s.fibers[t].handle != 0 && !s.fibers[t].isScheduler
    requires fibers.Keys <= s.fibers.Keys
             && (forall u | u in s.fibers && u != t :: u in fibers && fibers[u] == s.fibers[u])
    requires t in fibers ==> fibers[t].handle == 0 && !fibers[t].isScheduler
    ensures Lifetimes(Released(s, s.fibers[t].handle).(fibers := fibers))
  {
    assert FiberFits(t, s.fibers[t], s.scheduler, s.live, s.pending, s.argument);
    ReleasedFibers(s, t, fibers);
    ReleasedNoneLost(s, t, fibers);
    ReleasedPending(s, s.fibers[t].handle);
    hide FibersFit, NoneLost, PendingFits;
    if s.fibers[t].handle == s.current {
    } else {
    }
  }

  lemma ReleasedPending(s: State, h: nat)
    requires PendingFits(s.pending, s.scheduler, s.live, s.argument) && h in s.live && h !in s.pending
    requires h != s.scheduler && h in s.argument
    ensures var r := Released(s, h); PendingFits(r.pending, r.scheduler, r.live, r.argument)
  {
    if h == s.current {
    } else {
    }
  }

  lemma ReleasedNoneLost(s: State, t: nat, fibers: map<nat, GuestFiber>)
    requires NoneLost(s.live, s.scheduler, s.pending, s.fibers, s.argument) && t in s.fibers
    requires FiberFits(t, s.fibers[t], s.scheduler, s.live, s.pending, s.argument)
    requires forall u | u in s.fibers && u != t :: u in fibers && fibers[u] == s.fibers[u]
    requires s.fibers[t].handle != 0 && !s.fibers[t].isScheduler
    ensures var r := Released(s, s.fibers[t].handle); NoneLost(r.live, r.scheduler, r.pending, fibers, r.argument)
  {
    if s.fibers[t].handle == s.current {
    } else {
    }
  }

  lemma ReleasedFibers(s: State, t: nat, fibers: map<nat, GuestFiber>)
    requires FibersFit(s.fibers, s.scheduler, s.live, s.pending, s.argument)
    requires t in s.fibers && s.fibers[t].handle != 0 && !s.fibers[t].isScheduler
    requires fibers.Keys <= s.fibers.Keys
             && (forall u | u in s.fibers && u != t :: u in fibers && fibers[u] == s.fibers[u])
    requires t in fibers ==> fibers[t].handle == 0 && !fibers[t].isScheduler
    ensures var r := Released(s, s.fibers[t].handle); FibersFit(fibers, r.scheduler, r.live, r.pending, r.argument)
  {
    assert FiberFits(t, s.fibers[t], s.scheduler, s.live, s.pending, s.argument);
  }

  /** The frames go with the context, or it is the one that runs and has none. */
  lemma ReleasedFrames(s: State, t: nat, fibers: map<nat, GuestFiber>)
    requires Sound(s) && s.initialized && !s.entering
    requires t in s.fibers && s.fibers[t].handle != 0 && !s.fibers[t].isScheduler
    requires forall u | u in s.fibers && u != t :: u in fibers && fibers[u] == s.fibers[u]
    ensures var r := Released(s, s.fibers[t].handle); FramesFit(fibers, s.given, r.pending, r.frames)
  {
  }

  /** And the current thread, if it is another, is where it was. */
  lemma ReleasedHome(s: State, t: nat, fibers: map<nat, GuestFiber>, thread: nat)
    requires Sound(s) && s.initialized && !s.entering
    requires t in s.fibers && s.fibers[t].handle != 0 && !s.fibers[t].isScheduler
    requires fibers.Keys <= s.fibers.Keys
             && (forall u | u in s.fibers && u != t :: u in fibers && fibers[u] == s.fibers[u])
    requires thread == 0 || (thread == s.thread && (thread != t || t !in fibers))
    ensures AtHome(Released(s, s.fibers[t].handle).(fibers := fibers, thread := thread))
  {
  }

  lemma GivenUpSound(s: State, t: nat, fibers: map<nat, GuestFiber>)
    requires Sound(s) && !s.entering && t in s.fibers && s.fibers[t].handle != 0 && !s.fibers[t].isScheduler
    requires fibers.Keys <= s.fibers.Keys
             && (forall u | u in s.fibers && u != t :: u in fibers && fibers[u] == s.fibers[u])
    requires t in fibers ==> fibers[t].handle == 0 && !fibers[t].isScheduler && (s.thread == t ==> t == 0)
    ensures Sound(Released(s, s.fibers[t].handle).(fibers := fibers))
  {
    ReleasedLifetimes(s, t, fibers);
    ReleasedStacks(s, t, fibers);
    ReleasedFrames(s, t, fibers);
    ReleasedHome(s, t, fibers, s.thread);
    hide Lifetimes, Stacks, FramesFit, AtHome;
  }

  lemma ForgottenSound(s: State, t: nat)
    requires Sound(s) && !s.entering
    ensures Sound(Forgotten(s, t))
  {
    if t in s.fibers {
      if s.fibers[t].isScheduler || s.fibers[t].handle == 0 {
        DroppedSound(s, t, if s.fibers[t].isScheduler then s.given + {t} else s.given);
      } else {
        GivenUpSound(s, t, s.fibers - {t});
      }
    }
    hide Sound, Released;
  }

  lemma DroppedSound(s: State, t: nat, given: set<nat>)
    requires Sound(s) && !s.entering && t in s.fibers && s.given <= given
    requires if s.fibers[t].isScheduler then t in given else s.fibers[t].handle == 0
    ensures Sound(s.(fibers := s.fibers - {t}, given := given))
  {
  }

  lemma OverSound(s: State, t: nat, finalState: ThreadState)
    requires Sound(s) && !s.entering && t in s.fibers
    ensures Sound(Over(s, t, finalState))
  {
  }

  lemma ReleasedStacks(s: State, t: nat, fibers: map<nat, GuestFiber>)
    requires Lifetimes(s) && Stacks(s) && s.initialized && !s.entering
    requires t in s.fibers && s.fibers[t].handle != 0 && !s.fibers[t].isScheduler
    requires fibers.Keys <= s.fibers.Keys
             && (forall u | u in s.fibers && u != t :: u in fibers && fibers[u] == s.fibers[u])
    requires t in fibers ==> fibers[t].handle == 0
    ensures Stacks(Released(s, s.fibers[t].handle).(fibers := fibers))
  {
  }

  lemma ExitedSound(s: State, t: nat, finalState: ThreadState)
    requires Sound(s) && !s.entering
    ensures Sound(Exited(s, t, finalState))
  {
    if t in s.fibers {
      var e := Over(s, t, finalState);
      OverSound(s, t, finalState);
      if e.fibers[t].handle != 0 && !e.fibers[t].isScheduler {
        GivenUpSound(e, t, e.fibers[t := e.fibers[t].(handle := 0)]);
      }
    }
    hide Sound, Released, Over;
  }

  lemma CreatedSound(s: State, t: nat, entryPoint: nat, entryArg: nat, stackBase: nat, context: nat)
    requires Sound(s) && !s.entering && context !in Forgotten(s, t).live
    ensures Sound(Created(s, t, entryPoint, entryArg, stackBase, context))
  {
    ForgottenSound(s, t);
    var f, g := Forgotten(s, t), Newborn(entryPoint, entryArg, stackBase, context);
    ForgottenIs(s, t);
    hide Sound, Forgotten;
    assert g.handle == context && !g.isScheduler;
    hide Newborn;
    if s.initialized && context != 0 {
      BornSound(f, t, g);
    }
  }

  lemma ForgottenIs(s: State, t: nat)
    ensures var f := Forgotten(s, t);
            f.initialized == s.initialized && f.entering == s.entering && f.fibers == s.fibers - {t}
  {
    if t !in s.fibers {
    } else if s.fibers[t].isScheduler || s.fibers[t].handle == 0 {
    } else if s.fibers[t].handle == s.current {
    } else {
    }
  }

  lemma BornSound(s: State, t: nat, g: GuestFiber)
    requires Sound(s) && !s.entering && s.initialized && t !in s.fibers
    requires g.handle != 0 && g.handle !in s.live && !g.isScheduler
    ensures Sound(Born(s, t, g))
  {
  }

  lemma KeptSound(s: State, cpu: Option<File>)
    requires Sound(s) && !s.entering && s.initialized
    ensures Sound(Kept(s, cpu))
            && (s.current !in s.pending ==> FrameFits(Kept(s, cpu).fibers, s.given, s.current, FrameOf(s, cpu)))
  {
  }

  lemma LeftSound(s: State, t: nat, cpu: Option<File>, f: Frame)
    requires Sound(s) && !s.entering && Leaves(s, t)
    requires f.Switching? && (s.current !in s.pending ==> FrameFits(s.fibers, s.given, s.current, f))
    ensures Sound(Left(s, t, cpu, f))
  {
  }

  lemma StayedSound(s: State, t: nat, cpu: Option<File>)
    requires Sound(s) && !s.entering && Found(s, t) && s.fibers[t].handle == s.current
    ensures Sound(Stayed(s, t, cpu))
  {
  }

  lemma AwaySound(s: State, t: nat, cpu: Option<File>)
    requires Sound(s) && !s.entering
    ensures Sound(Away(s, t, cpu)) && Away(s, t, cpu).entering == Leaves(s, t)
  {
    PurgedSound(s);
    var p := Purged(s);
    hide Lifetimes, Stacks, Restoring;
    if Found(p, t) {
      KeptSound(p, cpu);
      if Leaves(p, t) {
        LeftSound(Kept(p, cpu), t, cpu, FrameOf(p, cpu));
      } else {
        StayedSound(Kept(p, cpu), t, cpu);
      }
    }
  }

  lemma KeptIs(s: State, cpu: Option<File>, t: nat)
    requires t in s.fibers
    ensures var k := Kept(s, cpu);
            k.current == s.current && k.live == s.live && t in k.fibers && k.fibers[t].handle == s.fibers[t].handle
  {
  }

  lemma PurgedIs(s: State)
    ensures var p := Purged(s); p.initialized == s.initialized && p.fibers == s.fibers && p.current == s.current
  {
  }

  lemma ResumedSound(s: State)
    requires Sound(s) && s.entering && s.current in s.frames && s.frames[s.current].Switching?
    ensures Sound(Resumed(s))
  {
    var f := s.frames[s.current];
    if !Resumes(s, f) {
    } else if f.previous !in s.fibers {
    } else {
    }
  }

  lemma StartedSound(s: State, words: seq<nat>)
    requires Sound(s) && s.entering && s.current !in s.frames
    ensures Known(s) && s.argument[s.current] == s.thread && Sound(Started(s, words))
    ensures forall f: File | f != PERSISTENT :: Get(Started(s, words).files, f) == Get(s.files, f)
  {
    assert FiberFits(s.thread, s.fibers[s.thread], s.scheduler, s.live, s.pending, s.argument);
  }

  /** What a thread's entry finds in the registers: its argument, its own context's words as far as they could be
      read (stack, TOC, SDA and link), its entry point, and for the rest what the seed has. */
  lemma StartRegisters(s: State, words: seq<nat>)
    requires Known(s)
    ensures var g, r := s.fibers[s.argument[s.current]], Get(Started(s, words).files, PERSISTENT);
            && r.pc == r.srr0 == g.entryPoint && 3 in r.gpr && r.gpr[3] == g.entryArg
            && (|words| > 0 ==> 2 in r.gpr && r.gpr[2] == words[0])
            && (|words| > 1 ==> 13 in r.gpr && r.gpr[13] == words[1])
            && (|words| > 2 ==> 1 in r.gpr && r.gpr[1] == words[2])
            && (|words| > 3 ==> r.lr == words[3])
    ensures var seed, r := Get(s.files, if s.seed.Some? then s.seed.value else PERSISTENT),
            Get(Started(s, words).files, PERSISTENT);
            && r.rest == seed.rest && (|words| <= 3 ==> r.lr == seed.lr)
            && (forall n | n !in {1, 2, 3, 13} :: n in r.gpr <==> n in seed.gpr)
            && (forall n | n !in {1, 2, 3, 13} && n in r.gpr :: r.gpr[n] == seed.gpr[n])
  {
  }

  /** Control never comes to a context with nothing to do. */
  lemma ArrivedSound(s: State, words: seq<nat>)
    requires Sound(s) && s.entering
    ensures Sound(Arrived(s, words)) && !Arrived(s, words).entering
  {
    if s.current !in s.frames {
      StartedSound(s, words);
    } else if s.frames[s.current].Switching? {
      ResumedSound(s);
    } else {
      DeferringResumedSound(s);
    }
    hide Lifetimes, Restoring;
  }

  lemma DeferringResumedSound(s: State)
    requires Sound(s) && s.entering && s.current in s.frames && s.frames[s.current].Deferring?
    ensures Sound(DeferringResumed(s))
  {
  }

  lemma DeferredSound(s: State)
    requires Sound(s) && !s.entering && s.initialized && s.current != s.scheduler
    ensures Sound(Deferred(s))
  {
  }

  lemma RanSound(s: State)
    requires Sound(s) && !s.entering && s.initialized && s.current != s.scheduler && s.current in s.argument
    ensures Sound(Ran(s))
  {
  }

  lemma NextSound(s: State, step: Step)
    requires Sound(s)
    ensures Sound(Next(s, step))
  {
    match step
    case Initialize(handle) =>
      if !s.entering && handle != 0 && handle !in s.live { InitializedSound(s, handle); }
    case Register(t, cpu) =>
      if !s.entering { RegisteredSound(s, t, cpu); }
    case Create(t, entryPoint, entryArg, stackBase, context) =>
      if !s.entering
        && context !in Forgotten(s, t).live { CreatedSound(s, t, entryPoint, entryArg, stackBase, context); }
    case Exit(t, state) =>
      if !s.entering { ExitedSound(s, t, state); }
    case SwitchTo(t, cpu) =>
      if !s.entering { AwaySound(s, t, cpu); }
    case Arrive(words) =>
      if s.entering { ArrivedSound(s, words); }
    case Defer =>
      if !s.entering && s.initialized && s.current != s.scheduler { DeferredSound(s); }
    case Return =>
      if !s.entering && s.initialized && s.current != s.scheduler && s.current in s.argument { RanSound(s); }
    case Guest(_, _, _, _, _) =>
    case Shutdown =>
      if !s.entering && s.current == s.scheduler { EndedSound(s); }
  }

  /** Over every run from the start: no context that may still be used has been freed, none is freed
      twice, none is lost, and every suspended switch has its registers. */
  lemma {:induction false} RunSound(s: State, script: seq<Step>)
    requires Sound(s)
    ensures Sound(Run(s, script))
    decreases |script|
  {
    if script != [] {
      NextSound(s, script[0]);
      RunSound(Next(s, script[0]), script[1..]);
    }
  }

  lemma FreshSound()
    ensures Sound(FRESH)
  {
  }

  // -------------------------------------------------- what an operation makes of a thread

  /** A new thread's record: it waits, on a context of its own, to start at its entry with its argument. */
  lemma CreatedRecord(s: State, t: nat, entryPoint: nat, entryArg: nat, stackBase: nat, context: nat)
    requires s.initialized && context != 0
    ensures var c := Created(s, t, entryPoint, entryArg, stackBase, context);
            t in c.fibers &&
            var g := c.fibers[t];
            && g.handle == context && g.entryPoint == entryPoint && g.entryArg == entryArg
            && g.state == WAITING && !g.isScheduler && !g.terminated
            && g.cpuContext.gpr == map[1 := stackBase, 3 := entryArg]
            && g.cpuContext.lr == 0 && g.cpuContext.pc == entryPoint && g.cpuContext.srr0 == entryPoint
            && g.cpuContext.rest == []
  {
    assert Born(Forgotten(s, t), t, Newborn(entryPoint, entryArg, stackBase, context)).fibers[t] ==
           Newborn(entryPoint, entryArg, stackBase, context);
    hide Forgotten;
  }

  /** Nothing else changes but what the thread had. */
  lemma CreatedKeeps(s: State, t: nat, entryPoint: nat, entryArg: nat, stackBase: nat, context: nat)
    requires s.initialized && context != 0
    ensures var c := Created(s, t, entryPoint, entryArg, stackBase, context);
            && t in c.fibers && c.fibers == s.fibers[t := c.fibers[t]] && c.argument == s.argument[context := t]
            && c.thread == s.thread && c.seed == s.seed && c.files == s.files
            && c.current == s.current && c.entering == s.entering && c.initialized
  {
    ForgottenKeeps(s, t);
    assert Newborn(entryPoint, entryArg, stackBase, context).handle == context;
    hide Forgotten, Newborn;
  }

  lemma ForgottenKeeps(s: State, t: nat)
    ensures var f := Forgotten(s, t);
            && f.fibers == s.fibers - {t} && f.argument == s.argument && f.thread == s.thread && f.seed == s.seed
            && f.files == s.files && f.current == s.current
            && f.entering == s.entering && f.initialized == s.initialized
  {
    if t !in s.fibers {
    } else if s.fibers[t].isScheduler || s.fibers[t].handle == 0 {
    } else if s.fibers[t].handle == s.current {
    } else {
    }
  }

  /** A main thread's record: it runs, on the scheduler's context, with the registers given, and has no entry. */
  lemma RegisteredRecord(s: State, t: nat, cpu: Option<File>)
    requires s.initialized && t !in s.fibers
    ensures var r := Registered(s, t, cpu);
            r.thread == t && t in r.fibers &&
            var g := r.fibers[t];
            && g.handle == s.scheduler && g.state == RUNNING && g.isScheduler && !g.terminated
            && g.entryPoint == 0 && g.entryArg == 0
            && (cpu.Some? && cpu.value in s.files ==> g.cpuContext == s.files[cpu.value])
            && (cpu.None? ==> g.cpuContext == Registers(map[], 0, 0, 0, []))
  {
  }

  /** A thread that exits has the state it was given, and all others and its registers are as they were. */
  lemma ExitedRecord(s: State, t: nat, finalState: ThreadState)
    requires t in s.fibers
    ensures var e := Exited(s, t, finalState);
            e.fibers.Keys == s.fibers.Keys && (forall u | u in s.fibers && u != t :: e.fibers[u] == s.fibers[u]) &&
            var g, was := e.fibers[t], s.fibers[t];
            && g.state == finalState && g.terminated && g.handle == (if was.isScheduler then was.handle else 0)
            && g.cpuContext == was.cpuContext && g.isScheduler == was.isScheduler
            && e.thread == if s.thread == t then 0 else s.thread
  {
    var o := Over(s, t, finalState);
    assert t in o.fibers && (forall u | u in s.fibers && u != t :: o.fibers[u] == s.fibers[u]);
    assert o.fibers[t] == s.fibers[t].(state := finalState, terminated := true);
    if s.fibers[t].handle == 0 || s.fibers[t].isScheduler {
    } else {
      ReleasedThread(o, o.fibers[t].handle);
      hide Released, Over;
    }
  }

  /** A thread that returned has ended, and neither of the guest's two words for the running thread names it. */
  lemma RanRecord(s: State)
    requires s.current in s.argument && s.current != s.scheduler
    ensures var t, r := s.argument[s.current], Ran(s);
            && r.fibers.Keys == s.fibers.Keys && (forall u | u in s.fibers && u != t :: r.fibers[u] == s.fibers[u])
            && (t in s.fibers ==> r.fibers[t].state == MORIBUND && r.fibers[t].terminated)
            && r.running == (if s.running == t then 0 else s.running)
            && r.context == (if s.context == t then 0 else s.context)
            && r.thread == 0 && r.current == s.scheduler && r.entering
            && s.current in r.frames && r.frames[s.current] == Finished && r.files == s.files
  {
  }

  /** A switch that leaves keeps the current thread's registers in its record, and gives the register file those
      of the thread it goes to; one to another thread of the current context keeps them and goes on. */
  lemma AwayRecord(s: State, t: nat, cpu: File)
    requires !s.entering && Found(s, t) && t != s.thread && cpu in s.files
    ensures var a := Away(s, t, Some(cpu));
            && a.fibers.Keys == s.fibers.Keys && a.thread == t && a.seed == Some(cpu) && a.fibers[t].state == RUNNING
            && (s.thread != 0 && s.thread in s.fibers ==> a.fibers[s.thread].cpuContext == s.files[cpu])
            && (forall u | u in s.fibers && u != t && u != s.thread :: a.fibers[u] == s.fibers[u])
            && (forall f | f in s.files && f != cpu :: f in a.files && a.files[f] == s.files[f])
            && cpu in a.files
            && a.files[cpu] == (if s.fibers[t].handle == s.current then s.files[cpu] else s.fibers[t].cpuContext)
            && a.current == s.fibers[t].handle && a.entering == (s.fibers[t].handle != s.current)
  {
    if s.fibers[t].handle == s.current {
    } else {
    }
  }

  /** From its creation to its entry: a new thread, switched to, starts at its entry point with its argument, with
      the persistent registers and interrupts on. Unless it took over the structure of the thread that switches,
      it is on its own stack and has nothing of the others' registers. */
  lemma NewThreadStarts(s: State, t: nat, entryPoint: nat, entryArg: nat, stackBase: nat, context: nat, cpu: File,
                        words: seq<nat>)
    requires Sound(s) && s.initialized && !s.entering && context != 0 && context !in Forgotten(s, t).live
    ensures var script := [Create(t, entryPoint, entryArg, stackBase, context), SwitchTo(t, Some(cpu)), Arrive(words)];
            var n := Run(s, script);
            n.current == context && n.thread == t && !n.entering && n.ambient == 0 && n.interrupts && 0 in n.files &&
            var r := n.files[0];
            && r.pc == entryPoint && r.srr0 == entryPoint && 3 in r.gpr && r.gpr[3] == entryArg
            && (|words| > 0 ==> 2 in r.gpr && r.gpr[2] == words[0])
            && (|words| > 1 ==> 13 in r.gpr && r.gpr[13] == words[1])
            && (|words| > 2 ==> 1 in r.gpr && r.gpr[1] == words[2])
            && (|words| > 3 ==> r.lr == words[3])
            && (s.thread != t ==>
                  && (|words| <= 3 ==> r.lr == 0) && (|words| <= 2 ==> 1 in r.gpr && r.gpr[1] == stackBase)
                  && r.gpr.Keys == {1, 3} + (if |words| > 0 then {2} else {}) + (if |words| > 1 then {13} else {})
                  && r.rest == [])
  {
    NewThreadRuns(s, t, entryPoint, entryArg, stackBase, context, cpu, words);
    CreatedRecord(s, t, entryPoint, entryArg, stackBase, context);
    CreatedKeeps(s, t, entryPoint, entryArg, stackBase, context);
    var c := Created(s, t, entryPoint, entryArg, stackBase, context);
    hide Sound, Created, Forgotten, Run;
    EnteredFinds(SeedOf(c, t, cpu), words, c.fibers[t]);
    hide Entered, Get;
  }

  lemma NewThreadRuns(s: State, t: nat, entryPoint: nat, entryArg: nat, stackBase: nat, context: nat, cpu: File,
                      words: seq<nat>)
    requires Sound(s) && s.initialized && !s.entering && context != 0 && context !in Forgotten(s, t).live
    ensures var script := [Create(t, entryPoint, entryArg, stackBase, context), SwitchTo(t, Some(cpu)), Arrive(words)];
            var c, n := Created(s, t, entryPoint, entryArg, stackBase, context), Run(s, script);
            && t in c.fibers && 0 in n.files && n.files[0] == Entered(SeedOf(c, t, cpu), words, c.fibers[t])
            && n.current == context && n.thread == t && !n.entering && n.ambient == 0 && n.interrupts
  {
    var create, go := Create(t, entryPoint, entryArg, stackBase, context), SwitchTo(t, Some(cpu));
    CreatedRecord(s, t, entryPoint, entryArg, stackBase, context);
    CreatedKeeps(s, t, entryPoint, entryArg, stackBase, context);
    CreatedHas(s, t, entryPoint, entryArg, stackBase, context);
    var c := Created(s, t, entryPoint, entryArg, stackBase, context);
    NextCreates(s, t, entryPoint, entryArg, stackBase, context);
    hide Sound, Created, Forgotten, Run, Next;
    RunOfThree(s, create, go, Arrive(words));
    hide Entered, Get, SeedOf;
    FirstSwitch(c, t, cpu, words);
  }

  lemma NextCreates(s: State, t: nat, entryPoint: nat, entryArg: nat, stackBase: nat, context: nat)
    requires !s.entering && context !in Forgotten(s, t).live
    ensures Next(s, Create(t, entryPoint, entryArg, stackBase, context)) ==
            Created(s, t, entryPoint, entryArg, stackBase, context)
  {
    hide Created, Forgotten;
  }

  lemma RunOfThree(s: State, a: Step, b: Step, c: Step)
    ensures Run(s, [a, b, c]) == Next(Next(Next(s, a), b), c)
  {
    hide Next;
    assert [a, b, c] == [a] + ([b] + ([c] + []));
    RunFirst(s, a, [b] + ([c] + []));
    RunFirst(Next(s, a), b, [c] + []);
    RunFirst(Next(Next(s, a), b), c, []);
  }

  lemma EnteredFinds(seed: Registers, words: seq<nat>, g: GuestFiber)
    ensures var r := Entered(seed, words, g);
            && r.pc == g.entryPoint && r.srr0 == g.entryPoint && 3 in r.gpr && r.gpr[3] == g.entryArg
            && (|words| > 0 ==> 2 in r.gpr && r.gpr[2] == words[0])
            && (|words| > 1 ==> 13 in r.gpr && r.gpr[13] == words[1])
            && (|words| > 2 ==> 1 in r.gpr && r.gpr[1] == words[2])
            && (|words| > 3 ==> r.lr == words[3])
            && (|words| <= 3 ==> r.lr == seed.lr)
            && (|words| <= 2 && 1 in seed.gpr ==> 1 in r.gpr && r.gpr[1] == seed.gpr[1])
            && r.gpr.Keys == seed.gpr.Keys + {3} + (if |words| > 0 then {2} else {})
                             + (if |words| > 1 then {13} else {}) + (if |words| > 2 then {1} else {})
            && r.rest == seed.rest
  {
  }

  lemma CreatedHas(s: State, t: nat, entryPoint: nat, entryArg: nat, stackBase: nat, context: nat)
    requires Sound(s) && s.initialized && !s.entering && context != 0 && context !in Forgotten(s, t).live
    ensures var c := Created(s, t, entryPoint, entryArg, stackBase, context);
            context != s.current && context !in c.frames && context !in c.pending
  {
    if t !in s.fibers {
    } else if s.fibers[t].isScheduler || s.fibers[t].handle == 0 {
    } else if s.fibers[t].handle == s.current {
    } else {
    }
  }

  lemma FirstSwitch(c: State, t: nat, cpu: File, words: seq<nat>)
    requires c.initialized && !c.entering && t in c.fibers && c.fibers[t].handle !in {0, c.current}
    requires !c.fibers[t].terminated && c.fibers[t].handle !in c.frames && c.fibers[t].handle !in c.pending
    requires c.fibers[t].handle in c.argument && c.argument[c.fibers[t].handle] == t
    ensures var n := Next(Next(c, SwitchTo(t, Some(cpu))), Arrive(words));
            && n.current == c.fibers[t].handle && n.thread == t && !n.entering && n.ambient == 0 && n.interrupts
            && 0 in n.files
            && n.files[0] == Entered(SeedOf(c, t, cpu), words, c.fibers[t])
  {
    var a := Away(c, t, Some(cpu));
    assert a.entering && a.current == c.fibers[t].handle && a.current !in a.frames &&
           Get(a.files, cpu) == SeedOf(c, t, cpu) by {
      hide Entered;
      if c.thread == t {
      } else {
      }
    }
    assert a.seed == Some(cpu) && a.argument == c.argument && t in a.fibers && a.thread == t;
    assert a.fibers[t].entryPoint == c.fibers[t].entryPoint && a.fibers[t].entryArg == c.fibers[t].entryArg;
    hide Away, Get;
  }

  /** The registers a thread's first switch leaves in the register file: its record's, or, if it is the current
      thread's record, those that were just kept in it. */
  function SeedOf(c: State, t: nat, cpu: File): Registers
    requires t in c.fibers
  {
    if c.thread == t && t != 0 then Get(c.files, cpu) else c.fibers[t].cpuContext
  }


  // ------------------------------------------------------ which contexts are freed

  /** Of the contexts that waited, only the one that runs is kept, and it waits on. */
  lemma PurgedFrees(s: State, h: nat)
    requires Sound(s) && h in s.pending
    ensures (h in Purged(s).live <==> h == s.current) && (h in Purged(s).pending <==> h == s.current)
  {
  }

  /** A thread that exits is over and not current, and keeps no context of its own but the one that runs. */
  lemma ExitedGivesUp(s: State, t: nat, finalState: ThreadState)
    requires Sound(s) && t in s.fibers
    ensures var e := Exited(s, t, finalState);
            && t in e.fibers && e.fibers[t].terminated && (t != 0 ==> e.thread != t)
            && (s.fibers[t].handle in e.live ==> s.fibers[t].handle in {s.current, s.scheduler})
  {
    assert FiberFits(t, s.fibers[t], s.scheduler, s.live, s.pending, s.argument);
    assert 0 !in s.live && (s.fibers[t].isScheduler ==> s.fibers[t].handle == s.scheduler);
    hide Sound, FiberFits;
    if s.fibers[t].handle == 0 || s.fibers[t].isScheduler {
    } else {
      ReleasedFrees(Over(s, t, finalState), s.fibers[t].handle);
      ReleasedThread(Over(s, t, finalState), s.fibers[t].handle);
      hide Released;
    }
  }

  /** A thread made again gives up the context it had, but keeps it alive while it runs this very call. */
  lemma CreatedGivesUp(s: State, t: nat, entryPoint: nat, entryArg: nat, stackBase: nat, context: nat)
    requires Sound(s) && s.initialized && t in s.fibers && s.fibers[t].handle != 0 && !s.fibers[t].isScheduler
    ensures var c, h := Created(s, t, entryPoint, entryArg, stackBase, context), s.fibers[t].handle;
            && (h in c.live <==> h in {s.current, context})
            && (h == s.current ==> h in c.pending)
            && (if context == 0 then t !in c.fibers
                else t in c.fibers && c.fibers[t] == Newborn(entryPoint, entryArg, stackBase, context))
  {
    assert FiberFits(t, s.fibers[t], s.scheduler, s.live, s.pending, s.argument);
    var h := s.fibers[t].handle;
    if h == s.current {
    } else {
    }
  }

  /** A thread that returned hands over to the scheduler, which has a suspended switch to go on with. */
  lemma RanHandsOver(s: State)
    requires Sound(s) && !s.entering && s.initialized && s.current != s.scheduler
    ensures s.current in s.argument
    ensures var r := Ran(s);
            r.entering && r.current == s.scheduler && r.current in r.frames && r.frames[r.current].Switching?
  {
  }

  /** What a step frees. */
  ghost predicate FreesIdle(s: State, n: State) {
    forall h | h in s.live && h !in n.live :: h != s.current
  }

  lemma ReleasedFrees(s: State, h: nat)
    ensures FreesIdle(s, Released(s, h)) && Released(s, h).live == if h == s.current then s.live else s.live - {h}
  {
    if h == s.current {
    } else {
    }
  }

  lemma ReleasedThread(s: State, h: nat)
    ensures Released(s, h).thread == s.thread
  {
    if h == s.current {
    } else {
    }
  }

  lemma ForgottenFrees(s: State, t: nat)
    ensures FreesIdle(s, Forgotten(s, t))
  {
    if t !in s.fibers || s.fibers[t].isScheduler || s.fibers[t].handle == 0 {
    } else {
      ReleasedFrees(s, s.fibers[t].handle);
      hide Released;
    }
  }

  lemma ExitedFrees(s: State, t: nat, state: ThreadState)
    ensures FreesIdle(s, Exited(s, t, state))
  {
    if t !in s.fibers || s.fibers[t].isScheduler || s.fibers[t].handle == 0 {
    } else {
      ReleasedFrees(Over(s, t, state), s.fibers[t].handle);
      hide Released;
    }
  }

  lemma AwayFrees(s: State, t: nat, cpu: Option<File>)
    ensures FreesIdle(s, Away(s, t, cpu))
  {
    hide Saved, Loaded, FrameOf, Runs;
  }

  lemma ArrivedFrees(s: State, words: seq<nat>)
    ensures Arrived(s, words).live == s.live
  {
    if s.current in s.frames && s.frames[s.current].Switching? {
      if !Resumes(s, s.frames[s.current]) {
      } else if s.frames[s.current].previous !in s.fibers {
      } else {
      }
    }
  }

  /** A context a step of any run frees is not the one that runs, except that shutting down ends the
      scheduler's, and nothing names it any more: no thread, no stack and no later purge. */
  lemma FreedIsGone(s: State, step: Step, h: nat)
    requires Sound(s) && h in s.live && h !in Next(s, step).live
    ensures var n := Next(s, step);
            && (h == s.current ==> step.Shutdown? && h == s.scheduler)
            && h !in n.pending && h !in n.frames && (forall t | t in n.fibers :: n.fibers[t].handle != h)
  {
    NextSound(s, step);
    assert h != 0;
    GoneIsUnused(Next(s, step), h);
    hide Sound;
    if s.entering {
      ArrivedFrees(s, if step.Arrive? then step.words else []);
    } else {
      match step
      case SwitchTo(u, cpu) => AwayFrees(s, u, cpu);
      case Create(u, _, _, _, _) => ForgottenFrees(s, u);
      case Exit(u, state) => ExitedFrees(s, u, state);
      case _ =>
    }
    hide Away, Forgotten, Exited, Arrived, Newborn, Get;
  }

  lemma GoneIsUnused(s: State, h: nat)
    requires Sound(s) && h !in s.live && h != 0
    ensures h !in s.pending && h !in s.frames && (forall t | t in s.fibers :: s.fibers[t].handle != h)
  {
    forall t | t in s.fibers ensures s.fibers[t].handle != h {
      assert FiberFits(t, s.fibers[t], s.scheduler, s.live, s.pending, s.argument);
    }
  }

  // ------------------------------------------------------- a switch that comes back

  /** The state when control first comes back to the stack left on a context, if it does. */
  function FirstReturn(s: State, source: nat, script: seq<Step>): Option<State>
    decreases |script|
  {
    if s.current == source then (if source in s.frames then Some(s) else None)
    else if script == [] then None
    else FirstReturn(Next(s, script[0]), source, script[1..])
  }

  /** Of a context that is not the current one, a step leaves the frame as it is or frees the context, and
      one that waited to be freed still does. */
  ghost predicate LeftAlone(s: State, n: State, h: nat) {
    h in n.frames ==>
      && h in s.frames && n.frames[h] == s.frames[h] && (h in s.pending ==> h in n.pending)
      && (h !in n.pending && s.initialized ==> n.initialized && n.scheduler == s.scheduler)
  }

  lemma ForgottenAlone(s: State, t: nat, h: nat)
    ensures LeftAlone(s, Forgotten(s, t), h)
  {
    if t !in s.fibers {
    } else if s.fibers[t].isScheduler || s.fibers[t].handle == 0 {
    } else {
      ReleasedAlone(s, s.fibers[t].handle, h);
      hide Released;
    }
  }

  lemma AwayAlone(s: State, t: nat, cpu: Option<File>, h: nat)
    requires h != s.current
    ensures LeftAlone(s, Away(s, t, cpu), h)
  {
    hide Saved, Runs, FrameOf, Found;
  }

  lemma ArrivedAlone(s: State, words: seq<nat>, h: nat)
    requires h != s.current
    ensures LeftAlone(s, Arrived(s, words), h)
  {
    hide Runs, Entered, Get;
  }

  lemma ExitedAlone(s: State, t: nat, state: ThreadState, h: nat)
    ensures LeftAlone(s, Exited(s, t, state), h)
  {
    if t in s.fibers {
      ReleasedAlone(Over(s, t, state), s.fibers[t].handle, h);
    }
    hide Released;
  }

  lemma ReleasedAlone(s: State, r: nat, h: nat)
    ensures LeftAlone(s, Released(s, r), h)
  {
  }

  lemma NextAlone(s: State, step: Step, h: nat)
    requires h != s.current
    ensures LeftAlone(s, Next(s, step), h)
  {
    match step
    case SwitchTo(t, cpu) => AwayAlone(s, t, cpu, h);
    case Create(t, _, _, _, _) => ForgottenAlone(s, t, h);
    case Arrive(words) => ArrivedAlone(s, words, h);
    case Exit(t, state) => ExitedAlone(s, t, state, h);
    case _ =>
    hide Away, Arrived, Forgotten, Exited, Runs, Newborn, Entered, Get;
  }

  lemma {:induction false} ReturnsToFrame(s: State, source: nat, script: seq<Step>)
    requires Sound(s)
    ensures var back := FirstReturn(s, source, script);
            back.Some? ==>
              && Sound(back.value) && back.value.current == source && source in back.value.frames
              && source in s.frames && back.value.frames[source] == s.frames[source]
    decreases |script|
  {
    hide Sound, Next;
    if s.current != source && script != [] {
      NextSound(s, script[0]);
      ReturnsToFrame(Next(s, script[0]), source, script[1..]);
      if FirstReturn(s, source, script).Some? {
        NextAlone(s, script[0], source);
      }
    }
  }

  /** The state in which control comes back to a switch. */
  function Back(s: State, t: nat, cpu: Option<File>, script: seq<Step>): Option<State> {
    FirstReturn(Away(s, t, cpu), s.current, script)
  }

  /** What a switch finds when it comes back, whatever the others did meanwhile. The ambient pointer, the
      interrupt flag and, under a scratch caller, the persistent file are always as they were left. The
      caller's registers are, unless the guest runs the same thread again and the thread's record (or, if it
      has none, the file itself) is no longer what it was; and a record can only be another if the thread's
      structure was a main thread's and was given away, or was registered as one elsewhere than on the
      scheduler's context. */
  lemma SwitchComesBack(s: State, t: nat, cpu: Option<File>, script: seq<Step>)
    requires Sound(s) && !s.entering && Leaves(s, t) && Back(s, t, cpu, script).Some?
    ensures var b := Back(s, t, cpu, script).value;
            && b.entering && b.current == s.current && b.current in b.frames && b.frames[b.current] == FrameOf(s, cpu)
    ensures var r := Resumed(Back(s, t, cpu, script).value);
            && r.ambient == s.ambient && r.interrupts == s.interrupts
            && (cpu.Some? && cpu.value != PERSISTENT ==> Get(r.files, PERSISTENT) == Get(s.files, PERSISTENT))
    ensures var b := Back(s, t, cpu, script).value;
            cpu.Some? ==>
              var found := if s.thread in b.fibers then b.fibers[s.thread].cpuContext else Get(b.files, cpu.value);
              (Get(Resumed(b).files, cpu.value) == Get(s.files, cpu.value) <==>
               !Resumes(b, FrameOf(s, cpu)) || found == Get(s.files, cpu.value))
    ensures var b := Back(s, t, cpu, script).value;
            cpu.Some? && s.thread !in b.given ==> Get(Resumed(b).files, cpu.value) == Get(s.files, cpu.value)
  {
    AwaySound(s, t, cpu);
    ReturnsToFrame(Away(s, t, cpu), s.current, script);
    ReturnedFrame(Back(s, t, cpu, script).value);
    ResumedFinds(Back(s, t, cpu, script).value);
    hide Sound, FirstReturn, Away, Resumed;
  }

  /** What is put back when control comes back to a switch. */
  lemma ResumedFinds(s: State)
    requires s.current in s.frames && s.frames[s.current].Switching?
    ensures var f, r := s.frames[s.current], Resumed(s);
            && r.ambient == f.ambient && r.interrupts == f.interrupts
            && (f.cpu.Some? && f.cpu.value != PERSISTENT ==> Get(r.files, PERSISTENT) == f.interrupted)
    ensures var f := s.frames[s.current];
            f.cpu.Some? ==>
              Get(Resumed(s).files, f.cpu.value) ==
              if !Resumes(s, f) then f.caller
              else if f.previous in s.fibers then s.fibers[f.previous].cpuContext
              else Get(s.files, f.cpu.value)
  {
    var f := s.frames[s.current];
    if !Resumes(s, f) {
    } else if f.previous !in s.fibers {
    } else {
    }
  }

  lemma ReturnedFrame(s: State)
    requires Sound(s) && s.current in s.frames
    ensures s.entering && s.current !in s.pending && FrameFits(s.fibers, s.given, s.current, s.frames[s.current])
  {
  }

  // ----------------------------------------------------- structures that are given away

  /** A structure is given away by making a thread of it while it is a main thread's, or by registering it
      on another context than the scheduler's. */
  lemma NextGiven(s: State, step: Step, t: nat)
    requires t !in s.given && t in Next(s, step).given
    ensures (step.Create? && step.t == t && t in s.fibers && s.fibers[t].isScheduler) ||
            (step.Register? && step.t == t && t !in s.fibers && s.initialized && s.current != s.scheduler)
  {
    if s.entering {
      ArrivedGives(s, if step.Arrive? then step.words else []);
    } else {
      match step
      case SwitchTo(u, cpu) => AwayGives(s, u, cpu);
      case Create(u, _, _, _, _) => ForgottenGives(s, u);
      case Exit(u, state) => ExitedGives(s, u, state);
      case _ =>
    }
    hide Away, Forgotten, Exited, Arrived, Newborn, Get;
  }

  lemma AwayGives(s: State, t: nat, cpu: Option<File>)
    ensures Away(s, t, cpu).given == s.given
  {
  }

  lemma ForgottenGives(s: State, t: nat)
    ensures Forgotten(s, t).given == if t in s.fibers && s.fibers[t].isScheduler then s.given + {t} else s.given
  {
    if t !in s.fibers {
    } else if s.fibers[t].isScheduler {
    } else {
      hide Released;
      assert Released(s, s.fibers[t].handle).given == s.given by {
        ReleasedGives(s, s.fibers[t].handle);
      }
    }
  }

  lemma ReleasedGives(s: State, h: nat)
    ensures Released(s, h).given == s.given
  {
    if h == s.current {
    } else {
    }
  }

  lemma ExitedGives(s: State, t: nat, state: ThreadState)
    ensures Exited(s, t, state).given == s.given
  {
    if t !in s.fibers {
    } else if s.fibers[t].isScheduler {
    } else if s.fibers[t].handle == 0 {
    } else {
      ReleasedGives(Over(s, t, state), s.fibers[t].handle);
      hide Released;
    }
  }

  lemma ArrivedGives(s: State, words: seq<nat>)
    ensures Arrived(s, words).given == s.given
  {
  }

  /** Nobody makes a thread of a structure. */
  predicate NeverMade(script: seq<Step>, t: nat) {
    forall step | step in script :: step.Create? ==> step.t != t
  }

  /** A context left by a switch of thread `t`, that does not wait to be freed. */
  ghost predicate Waits(s: State, h: nat, t: nat) {
    && s.initialized && h in s.frames && h !in s.pending
    && s.frames[h].Switching? && s.frames[h].previous == t && t != 0 && t !in s.given
  }

  lemma StillWaits(s: State, step: Step, h: nat, t: nat)
    requires Sound(s) && h != s.current && h in Next(s, step).frames && h !in Next(s, step).pending
    requires h in s.frames && h !in s.pending ==> Waits(s, h, t)
    requires h == s.scheduler ==> !(step.Create? && step.t == t)
    ensures Waits(Next(s, step), h, t)
  {
    NextAlone(s, step, h);
    if t in Next(s, step).given {
      NextGiven(s, step, t);
      WaitingIsRegistered(s, h, t);
    }
    hide Sound, Next;
  }

  lemma WaitingIsRegistered(s: State, h: nat, t: nat)
    requires Sound(s) && Waits(s, h, t)
    ensures t in s.fibers && (s.fibers[t].isScheduler ==> h == s.scheduler)
  {
    assert FrameFits(s.fibers, s.given, h, s.frames[h]);
    assert FiberFits(t, s.fibers[t], s.scheduler, s.live, s.pending, s.argument);
  }

  lemma {:induction false} WaitsTillReturn(s: State, source: nat, script: seq<Step>, t: nat)
    requires Sound(s)
    requires source in s.frames && source !in s.pending ==> Waits(s, source, t)
    requires source in s.frames && source !in s.pending && source == s.scheduler ==> NeverMade(script, t)
    ensures var back := FirstReturn(s, source, script);
            back.Some? && source !in back.value.pending ==> t !in back.value.given
    decreases |script|
  {
    hide Sound, Next;
    if s.current != source && script != [] {
      var n := Next(s, script[0]);
      NextSound(s, script[0]);
      NextAlone(s, script[0], source);
      assert script[0] in script;
      if source in n.frames && source !in n.pending {
        StillWaits(s, script[0], source, t);
      }
      WaitsTillReturn(n, source, script[1..], t);
    }
  }

  /** Of the threads whose structure was not given away before the switch, only the main thread's own switches
      can come back to other registers, and only if a thread is made of its structure meanwhile. Registrations
      meanwhile, on whatever context, change nothing for them: the thread is registered already. */
  lemma SwitchRestores(s: State, t: nat, cpu: Option<File>, script: seq<Step>)
    requires Sound(s) && !s.entering && Leaves(s, t) && Back(s, t, cpu, script).Some? && s.thread !in s.given
    requires s.current != s.scheduler || NeverMade(script, s.thread)
    ensures var b := Back(s, t, cpu, script).value;
            && b.current in b.frames && b.frames[b.current].Switching?
            && (cpu.Some? ==> Get(Resumed(b).files, cpu.value) == Get(s.files, cpu.value))
  {
    hide Sound, FirstReturn, Away;
    SwitchComesBack(s, t, cpu, script);
    AwaySound(s, t, cpu);
    AwayWaits(s, t, cpu);
    if s.thread != 0 {
      WaitsTillReturn(Away(s, t, cpu), s.current, script, s.thread);
      ReturnsToFrame(Away(s, t, cpu), s.current, script);
      ReturnedFrame(Back(s, t, cpu, script).value);
    }
  }

  lemma AwayWaits(s: State, t: nat, cpu: Option<File>)
    requires Leaves(s, t)
    ensures var a := Away(s, t, cpu);
            && a.given == s.given && a.scheduler == s.scheduler
            && (s.thread != 0 && s.thread !in s.given && s.current !in a.pending ==>
                  Waits(a, s.current, s.thread))
  {
  }

  /** A main thread that had the registers `files` has them, and a thread beside it. */
  function BesideMain(scheduler: nat, main: nat, files: Files, worker: nat, entryPoint: nat, stackBase: nat,
                      context: nat): State {
    Run(FRESH, [Initialize(scheduler), Guest(files, PERSISTENT, true, main, main), Register(main, Some(PERSISTENT)),
                Create(worker, entryPoint, 0, stackBase, context)])
  }

  lemma RunFirst(s: State, step: Step, rest: seq<Step>)
    ensures Run(s, [step] + rest) == Run(Next(s, step), rest)
  {
    hide Next;
    assert ([step] + rest)[1..] == rest;
  }

  lemma ReturnLater(s: State, source: nat, step: Step, rest: seq<Step>)
    requires s.current != source
    ensures FirstReturn(s, source, [step] + rest) == FirstReturn(Next(s, step), source, rest)
  {
    hide Next;
    assert ([step] + rest)[1..] == rest;
  }

  lemma RunOfFour(s: State, a: Step, b: Step, c: Step, d: Step)
    ensures Run(s, [a, b, c, d]) == Next(Next(Next(Next(s, a), b), c), d)
  {
    hide Next;
    assert [a, b, c, d] == [a] + ([b] + ([c] + ([d] + [])));
    RunFirst(s, a, [b] + ([c] + ([d] + [])));
    RunFirst(Next(s, a), b, [c] + ([d] + []));
    RunFirst(Next(Next(s, a), b), c, [d] + []);
    RunFirst(Next(Next(Next(s, a), b), c), d, []);
  }

  lemma ReturnInFour(s: State, source: nat, a: Step, b: Step, c: Step, d: Step)
    requires source !in {s.current, Next(s, a).current, Next(Next(s, a), b).current,
             Next(Next(Next(s, a), b), c).current}
    ensures var n := Next(Next(Next(Next(s, a), b), c), d);
            n.current == source && source in n.frames ==> FirstReturn(s, source, [a, b, c, d]) == Some(n)
  {
    hide Next;
    assert [a, b, c, d] == [a] + ([b] + ([c] + ([d] + [])));
    ReturnLater(s, source, a, [b] + ([c] + ([d] + [])));
    ReturnLater(Next(s, a), source, b, [c] + ([d] + []));
    ReturnLater(Next(Next(s, a), b), source, c, [d] + []);
    ReturnLater(Next(Next(Next(s, a), b), c), source, d, []);
  }

  lemma BesideMainIs(scheduler: nat, main: nat, files: Files, worker: nat, entryPoint: nat, stackBase: nat,
                     context: nat)
    requires scheduler != 0 && main != 0 && worker != main && context !in {0, scheduler}
    ensures BesideMain(scheduler, main, files, worker, entryPoint, stackBase, context) ==
            FRESH.(initialized := true, scheduler := scheduler, current := scheduler, live := {scheduler, context},
                   files := files, interrupts := true, running := main, context := main, thread := main,
                   argument := map[context := worker],
                   fibers := map[main := GuestFiber(scheduler, 0, 0, Get(files, PERSISTENT), RUNNING, true, false),
                                 worker := Newborn(entryPoint, 0, stackBase, context)])
  {
    assert Newborn(entryPoint, 0, stackBase, context).handle == context;
    hide Get, Newborn;
    RunOfFour(FRESH, Initialize(scheduler), Guest(files, PERSISTENT, true, main, main),
      Register(main, Some(PERSISTENT)),
              Create(worker, entryPoint, 0, stackBase, context));
    hide Run;
  }

  /** The main thread is away, on `frame`, and the thread that runs takes its structure and returns. */
  lemma Usurped(s: State, main: nat, entryPoint: nat, stackBase: nat, other: nat, more: Files)
    requires s.initialized && s.entering && s.current !in s.frames && s.scheduler in s.frames
             && s.current != s.scheduler
    requires Known(s) && s.argument[s.current] != main
    requires main in s.fibers && s.fibers[main].isScheduler && other != 0 && other !in s.live && s.current in s.live
    ensures var a, b, c := Arrive([]), Create(main, entryPoint, 0, stackBase, other),
            Guest(more, PERSISTENT, true, main, main);
            && Next(s, a).current == Next(Next(s, a), b).current == Next(Next(Next(s, a), b), c).current == s.current
            && var n := Next(Next(Next(Next(s, a), b), c), Return);
               && n.current == s.scheduler && n.running == n.context == main
               && s.scheduler in n.frames && n.frames[s.scheduler] == s.frames[s.scheduler]
               && main in n.fibers && n.fibers[main] == Newborn(entryPoint, 0, stackBase, other)
  {
    assert Newborn(entryPoint, 0, stackBase, other).handle == other;
    hide Newborn, Entered, Get;
    var s1 := Next(s, Arrive([]));
    var s2 := Next(s1, Create(main, entryPoint, 0, stackBase, other));
    assert s2.fibers[main] == Newborn(entryPoint, 0, stackBase, other);
    var s3 := Next(s2, Guest(more, PERSISTENT, true, main, main));
    assert s3.argument[s3.current] == s.argument[s.current];
    var s4 := Next(s3, Return);
    assert s4.fibers[main] == s3.fibers[main];
  }

  /** The first exception, from the start: the main thread switches to another, which makes a new thread of the
      main thread's structure and returns. The scheduler's context is never freed, so the main thread's switch
      comes back, and to the new thread's first registers. */
  lemma MainThreadCreatedAgain(scheduler: nat, main: nat, files: Files, worker: nat, entryPoint: nat, stackBase: nat,
                               context: nat, other: nat, more: Files)
    requires scheduler != 0 && main != 0 && worker != main && context !in {0, scheduler}
             && other !in {0, scheduler, context}
    requires Get(files, PERSISTENT) != Newborn(entryPoint, 0, stackBase, other).cpuContext
    ensures var s := BesideMain(scheduler, main, files, worker, entryPoint, stackBase, context);
            var back := Back(s, worker, Some(PERSISTENT),
                             [Arrive([]), Create(main, entryPoint, 0, stackBase, other),
                              Guest(more, PERSISTENT, true, main, main), Return]);
            && Sound(s) && !s.entering && Leaves(s, worker)
            && back.Some? && back.value.current in back.value.frames && back.value.frames[back.value.current].Switching?
            && Get(Resumed(back.value).files, PERSISTENT) == Newborn(entryPoint, 0, stackBase, other).cpuContext
            && Get(Resumed(back.value).files, PERSISTENT) != Get(s.files, PERSISTENT)
  {
    FreshSound();
    RunSound(FRESH,
      [Initialize(scheduler), Guest(files, PERSISTENT, true, main, main), Register(main, Some(PERSISTENT)),
                     Create(worker, entryPoint, 0, stackBase, context)]);
    BesideMainIs(scheduler, main, files, worker, entryPoint, stackBase, context);
    var s := BesideMain(scheduler, main, files, worker, entryPoint, stackBase, context);
    assert Newborn(entryPoint, 0, stackBase, context).handle == context
           && !Newborn(entryPoint, 0, stackBase, context).terminated;
    hide Sound, BesideMain, Newborn, Next, FirstReturn, Run;
    var away := Away(s, worker, Some(PERSISTENT));
    Usurped(away, main, entryPoint, stackBase, other, more);
    ReturnInFour(away, scheduler, Arrive([]), Create(main, entryPoint, 0, stackBase, other),
                 Guest(more, PERSISTENT, true, main, main), Return);
  }

  /** The other thread runs, registers a structure as the main thread's, and has the registers `mine`. */
  function PassingForMain(scheduler: nat, main: nat, files: Files, worker: nat, entryPoint: nat, stackBase: nat,
                          context: nat, passing: nat, mine: Files): State {
    Run(BesideMain(scheduler, main, files, worker, entryPoint, stackBase, context),
        [SwitchTo(worker, Some(PERSISTENT)), Arrive([]), Register(passing, Some(PERSISTENT)),
         Guest(mine, PERSISTENT, true, main, main)])
  }

  /** Two structures stand for the scheduler's context, and the code of another one runs as the second. */
  ghost predicate Passing(s: State, main: nat, worker: nat, passing: nat) {
    && s.initialized && !s.entering && s.pending == [] && s.current != s.scheduler
    && main in s.fibers && s.fibers[main].handle == s.scheduler != 0 && !s.fibers[main].terminated
    && passing in s.fibers && s.fibers[passing].handle == s.scheduler && !s.fibers[passing].terminated
    && worker in s.fibers && s.fibers[worker].handle == s.current != 0 && !s.fibers[worker].terminated
    && s.thread == passing && s.running == s.context == main
    && s.scheduler in s.frames && s.frames[s.scheduler].Switching? && s.frames[s.scheduler].previous == main
  }

  lemma PassesForMain(s: State, main: nat, worker: nat, passing: nat, mine: Files)
    requires Sound(s) && s.initialized && !s.entering && s.pending == [] && s.current == s.scheduler && s.thread == main
    requires main in s.fibers && s.fibers[main].handle == s.scheduler && !s.fibers[main].terminated
    requires passing !in s.fibers && main != worker
    requires Leaves(s, worker) && s.fibers[worker].handle !in s.frames
    ensures var n :=
            Next(Next(Next(Next(s, SwitchTo(worker, Some(PERSISTENT))), Arrive([])),
              Register(passing, Some(PERSISTENT))),
                          Guest(mine, PERSISTENT, true, main, main));
            Passing(n, main, worker, passing) && n.files == mine
  {
    WorkerStarts(s, main, worker);
    hide Sound, Next;
    RegistersAs(Next(Next(s, SwitchTo(worker, Some(PERSISTENT))), Arrive([])), main, worker, passing, mine);
  }

  lemma RegistersAs(s: State, main: nat, worker: nat, passing: nat, mine: Files)
    requires s.initialized && !s.entering && s.pending == [] && s.current != s.scheduler && passing !in s.fibers
    requires main in s.fibers && s.fibers[main].handle == s.scheduler != 0 && !s.fibers[main].terminated
    requires worker in s.fibers && s.fibers[worker].handle == s.current != 0 && !s.fibers[worker].terminated
    requires s.scheduler in s.frames && s.frames[s.scheduler].Switching? && s.frames[s.scheduler].previous == main
    ensures var n := Next(Next(s, Register(passing, Some(PERSISTENT))), Guest(mine, PERSISTENT, true, main, main));
            Passing(n, main, worker, passing) && n.files == mine
  {
    hide Get;
    var s3 := Next(s, Register(passing, Some(PERSISTENT)));
    assert s3.thread == passing && s3.frames == s.frames;
  }

  lemma WorkerStarts(s: State, main: nat, worker: nat)
    requires Sound(s) && s.initialized && !s.entering && s.pending == [] && s.current == s.scheduler && s.thread == main
    requires main in s.fibers && s.fibers[main].handle == s.scheduler && !s.fibers[main].terminated && main != worker
    requires Leaves(s, worker) && s.fibers[worker].handle !in s.frames
    ensures var n := Next(Next(s, SwitchTo(worker, Some(PERSISTENT))), Arrive([]));
            && n.initialized && !n.entering && n.pending == [] && n.scheduler == s.scheduler
            && n.current == s.fibers[worker].handle && n.fibers.Keys == s.fibers.Keys
            && (forall t | t in {main, worker} :: n.fibers[t].handle == s.fibers[t].handle && !n.fibers[t].terminated)
            && n.scheduler in n.frames && n.frames[n.scheduler] == FrameOf(s, Some(PERSISTENT))
  {
    assert FiberFits(worker, s.fibers[worker], s.scheduler, s.live, s.pending, s.argument);
    hide Sound, Entered, Get;
    var n := Next(s, SwitchTo(worker, Some(PERSISTENT)));
    assert n.entering && n.current == s.fibers[worker].handle && Known(n);
  }

  lemma LoadedIs(files: Files, f: File, registers: Registers)
    ensures Get(Loaded(files, Some(f), registers), f) == registers
  {
  }

  /** The code that passes for the main thread switches to it, and the code on the scheduler's context then
      goes on as the same structure. */
  lemma PassedFor(s: State, main: nat, worker: nat, passing: nat)
    requires Sound(s) && Passing(s, main, worker, passing) && main != 0 && passing !in {0, main, worker}
             && worker != main
    ensures Leaves(s, main)
    ensures var a := Away(s, main, Some(PERSISTENT));
            var b := Next(a, Arrive([]));
            && a.current == b.current == s.scheduler && AsMain(b, main, worker, passing, s.current)
  {
    hide Sound, Get;
    var a := Away(s, main, Some(PERSISTENT));
    assert a.frames[s.current].previous == passing && a.frames[s.scheduler] == s.frames[s.scheduler];
  }

  /** `thread` runs on the scheduler's context, and a switch of the structure that passes for the main thread
      is suspended on `h`. */
  ghost predicate AsMain(s: State, thread: nat, worker: nat, passing: nat, h: nat) {
    && s.initialized && !s.entering && s.pending == [] && s.current == s.scheduler && s.thread == thread
    && passing in s.fibers && s.fibers[passing].handle == s.scheduler != 0 && !s.fibers[passing].terminated
    && worker in s.fibers && s.fibers[worker].handle == h != s.scheduler && h != 0 && !s.fibers[worker].terminated
    && h in s.frames && s.frames[h].Switching? && s.frames[h].previous == passing && s.frames[h].cpu == Some(PERSISTENT)
  }

  lemma GoesOnAs(s: State, main: nat, worker: nat, passing: nat, h: nat)
    requires AsMain(s, main, worker, passing, h) && worker != passing
    ensures var a := Away(s, passing, Some(PERSISTENT));
            AsMain(a, passing, worker, passing, h) && a.scheduler == s.scheduler
  {
  }

  lemma SwitchesAs(s: State, worker: nat, passing: nat, h: nat)
    requires AsMain(s, passing, worker, passing, h) && s.running == s.context == passing && passing !in {0, worker}
    ensures var n := Away(s, worker, Some(PERSISTENT));
            && n.current == h && h in n.frames && n.frames[h].Switching?
            && Get(Resumed(n).files, PERSISTENT) == Get(s.files, PERSISTENT)
  {
    var registers := Get(s.files, PERSISTENT);
    hide Get;
    var n := Away(s, worker, Some(PERSISTENT));
    assert n.frames[h] == s.frames[h] && n.fibers[passing].cpuContext == registers;
    LoadedIs(n.files, PERSISTENT, registers);
  }

  lemma ComesBackAs(b: State, main: nat, worker: nat, passing: nat, h: nat, more: Files)
    requires AsMain(b, main, worker, passing, h) && passing !in {0, main, worker} && worker != main
    ensures var c := Next(b, SwitchTo(passing, Some(PERSISTENT)));
            var d := Next(c, Guest(more, PERSISTENT, true, passing, passing));
            var n := Next(d, SwitchTo(worker, Some(PERSISTENT)));
            && c.current == d.current == b.scheduler
            && n.current == h && h in n.frames && n.frames[h].Switching?
            && Get(Resumed(n).files, PERSISTENT) == Get(more, PERSISTENT)
  {
    hide Get, Resumed, Away;
    GoesOnAs(b, main, worker, passing, h);
    var d := Next(Next(b, SwitchTo(passing, Some(PERSISTENT))), Guest(more, PERSISTENT, true, passing, passing));
    SwitchesAs(d, worker, passing, h);
  }

  /** The other exception, from the start: a thread's code registers a structure as the main thread's, so that
      the structure's record is used for two contexts. A switch by that code comes back to the registers the
      scheduler's code had. */
  lemma RegisteredElsewhere(scheduler: nat, main: nat, files: Files, worker: nat, entryPoint: nat, stackBase: nat,
                            context: nat, passing: nat, mine: Files, more: Files)
    requires scheduler != 0 && main != 0 && worker != main && context !in {0, scheduler}
             && passing !in {0, main, worker}
    requires Get(mine, PERSISTENT) != Get(more, PERSISTENT)
    ensures var s := PassingForMain(scheduler, main, files, worker, entryPoint, stackBase, context, passing, mine);
            var script :=
                [Arrive([]), SwitchTo(passing, Some(PERSISTENT)), Guest(more, PERSISTENT, true, passing, passing),
                           SwitchTo(worker, Some(PERSISTENT))];
            var back := Back(s, main, Some(PERSISTENT), script);
            && Sound(s) && !s.entering && Leaves(s, main) && s.current != s.scheduler && NeverMade(script, s.thread)
            && back.Some? && back.value.current in back.value.frames && back.value.frames[back.value.current].Switching?
            && Get(Resumed(back.value).files, PERSISTENT) == Get(more, PERSISTENT)
            && Get(Resumed(back.value).files, PERSISTENT) != Get(s.files, PERSISTENT)
  {
    hide Sound, Next, FirstReturn, Run, Away, Resumed;
    PassingIs(scheduler, main, files, worker, entryPoint, stackBase, context, passing, mine);
    var s := PassingForMain(scheduler, main, files, worker, entryPoint, stackBase, context, passing, mine);
    hide PassingForMain;
    PassedFor(s, main, worker, passing);
    ComesBackAs(Next(Away(s, main, Some(PERSISTENT)), Arrive([])), main, worker, passing, s.current, more);
    ReturnInFour(Away(s, main, Some(PERSISTENT)), s.current, Arrive([]), SwitchTo(passing, Some(PERSISTENT)),
                 Guest(more, PERSISTENT, true, passing, passing), SwitchTo(worker, Some(PERSISTENT)));
  }

  lemma PassingIs(scheduler: nat, main: nat, files: Files, worker: nat, entryPoint: nat, stackBase: nat, context: nat,
                  passing: nat, mine: Files)
    requires scheduler != 0 && main != 0 && worker != main && context !in {0, scheduler}
             && passing !in {0, main, worker}
    ensures var s := PassingForMain(scheduler, main, files, worker, entryPoint, stackBase, context, passing, mine);
            Sound(s) && Passing(s, main, worker, passing) && s.files == mine
  {
    FreshSound();
    RunSound(FRESH,
      [Initialize(scheduler), Guest(files, PERSISTENT, true, main, main), Register(main, Some(PERSISTENT)),
                     Create(worker, entryPoint, 0, stackBase, context)]);
    BesideMainIs(scheduler, main, files, worker, entryPoint, stackBase, context);
    assert Newborn(entryPoint, 0, stackBase, context).handle == context
           && !Newborn(entryPoint, 0, stackBase, context).terminated;
    var b := BesideMain(scheduler, main, files, worker, entryPoint, stackBase, context);
    hide Sound, BesideMain, Newborn, Next, Run, Passing;
    RunSound(b, [SwitchTo(worker, Some(PERSISTENT)), Arrive([]), Register(passing, Some(PERSISTENT)),
                 Guest(mine, PERSISTENT, true, main, main)]);
    RunOfFour(b, SwitchTo(worker, Some(PERSISTENT)), Arrive([]), Register(passing, Some(PERSISTENT)),
              Guest(mine, PERSISTENT, true, main, main));
    PassesForMain(b, main, worker, passing, mine);
  }
}
