# A verified model of libdol-nx

libdol-nx runs statically recompiled GameCube and Wii games. This project models the hard logic
of its CPU runtime, and of the codecs and text tools beside it, in Dafny 4.11, and proves what
that logic is for. `dafny verify dfyconfig.toml` checks all of it.

| file | models |
|---|---|
| `GuestLists.dfy`, `GuestQueues.dfy` | the doubly linked thread queues in guest memory, the mask of non-empty run queues, and waking a queue |
| `HostContexts.dfy`, `GuestFiberStates.dfy`, `GuestFibers.dfy` | guest threads as fibers: creating, exiting, switching, purging and shutting down host contexts; the operations as functions of the state with the whole-run theorems, and the manager that carries them out |
| `GuestJumps.dfy` | guest setjmp and longjmp over host coroutines |
| `MemoryTables.dfy`, `DeferredReads.dfy`, `GuestMemory.dfy` | the guest memory index: page table, biases, 4 KiB tables, executable write guard, deferred reads and the ledger of what became of each |
| `GuestFlat.dfy` | the flat mapping behind it: which host byte a guest address is, and which addresses share one |
| `Dispatch.dfy`, `DispatchRegistry.dfy` | the function registry, the generated two-level table, and the memo tables |
| `Yaz0.dfy`, `Decomp.dfy` | the Yaz0 decoder and the archive expander that drives it |
| `AesTables.dfy`, `Aes.dfy`, `AesExamples.dfy` | AES-128 decryption and CBC, with the encryption they invert, the S-box by the field, and the worked examples of FIPS 197 |
| `Demangle.dfy`, `DemangleTexts.dfy` | the CodeWarrior demangler, with the mangling it inverts, and what each code and some whole names read as |
| `Settings.dfy` | the settings writer that keeps comments and every other line |
| `PpcArithmetic.dfy`, `FloatBits.dfy`, `TimeBase.dfy` | carry and overflow, string loads and stores, single and double bit patterns, time base conversion |
| `Common.dfy` | bytes, optional values, powers of two |

Code that changes state is a class or a method over arrays with the source's own loops, proved
against a specification function; the theorems are about those functions and about the
invariants every operation keeps. Code that only computes is functions. What a constant, a table or
a small function that both the code and its specification use must be is stated with numbers and
texts written out.

What the theorems assume, and where the source assumes it:

- Mapped regions do not overlap (`WellMapped`, `GuestRegions`), fit 32 bits of guest and 64 bits
  of host addresses, and the host gives each section memory of its own (`Separate`). Whether a
  region also covers the MMIO window is not assumed: an access there that the tables do not admit
  is answered `Device`.
- A checked fast load is judged on its first byte's 1 MiB page only, so what is said about pending
  reads is said for accesses within one page.
- `written + count` in the Yaz0 decoder is 32-bit, and right exactly up to a declared size of
  2^32 - 273 (`BoundCheckIsExact`). For a larger one, where a run can pass the test by wrapping,
  the decoder is followed up to that run and no further (`Overruns`). Every larger declared size
  has such an input (`OverrunExists`).
- One guest thread uses longjmp, and it has a host context of its own; the other threads only take
  turns with it. Fiber lifetimes are stated without longjmp's rebinding, and shutdown is called on
  the scheduler's context.
- What the callback of a deferred read does is the loads it makes and whether it then succeeds, one
  list for each registration. No callback runs twice, so a callback that goes by what it loads is
  one such list too, and the theorems are for all of them. A violation in a callback is an exception
  that goes through the resolve, which its failure does as well; a device register whose load
  throws is where a callback's list ends, in failure.
- The tokens of deferred reads count up without wrapping, and host context handles are any nonzero
  numbers the host is not using.

Where the code does less than its documentation says, the code was followed:

- The demangler splits a name at the last two underscores a signature follows, so an identifier
  that ends in an underscore before a return type is split too late (`TrailingUnderscore`). The
  split is right exactly for the declarations `Unambiguous` describes (`SplitIsBase`), among them
  all whose identifiers have no two underscores in a row and none at the end; so is the rendered
  name (`DemangleExactly`).
- The settings writer finds what it wrote only when the key has no equals sign and no comment
  starts in the key or in a new section's header (`WriteIsFound`, `KeyReadsBack`,
  `HeaderReadsBack`, `SettingIsFound`), and exactly then writing it again changes nothing
  (`RepeatedWrite`, `WriteTwice`). A header that does not read back leaves the new line in another
  section, where it changes a setting of some file unless it sets nothing (`HarmlessKeepsAll`).
- A deferred read is produced before a checked load of its bytes returns, unless the callback of
  another that the same load overlaps fails first: then it is neither run nor on the list any more,
  and later loads do not wait for it (`LostRead`; `RunThenRead` says that there is no other case).
  Inside a callback, the other reads the same resolve took off the list are not waited for either
  (`SiblingNotRun`, `CheckedRead`). A callback fails only if it, or one its loads make run, reports
  failure or loads what is not mapped (`Faults`).
- A switch restores the caller's registers, with two exceptions, both about the record of a main
  thread's OSThread structure. It is given to a new thread while the main thread is away
  (`MainThreadCreatedAgain`); or it was registered as the main thread's by code on another context
  than the scheduler's, which then runs as that structure (`RegisteredElsewhere`).
  `SwitchComesBack` and `SwitchRestores` say that there is no other case.
- The fast stores stay clear of registered executable bytes by guest address. By host byte they do
  except through the physical view of RAM (`ReachesExecutable`, `StoreThroughPhysicalView`).
- AES initial vectors of fewer than 16 bytes are zipped short (`AesCbcDecrypt`).

## Model

| member | source | states |
|---|---|---|
| Yaz0.Yaz0Decode | src/format/archive/yaz0.cpp:27-101 | Expands a stream all or nothing: it succeeds exactly when the independent format says the stream is one, writes that expansion, reads only inside the source, and leaves every byte past the declared size as it was; a run that overruns the declared size, which only a size within 273 of 2^32 allows, is told apart. |
| Yaz0.HeaderLetters | src/format/archive/yaz0.cpp:13-25 | An input declares a size exactly when it starts with the letters Yaz0, and then the word behind them. |
| Yaz0.CopyRun | src/format/archive/yaz0.cpp:87-98 | Copying a reference byte by byte writes the periodic continuation of what is already there, also where source and target overlap. |
| Yaz0.BoundCheckIsExact | src/format/archive/yaz0.cpp:87 | The 32-bit test for a run past the end is the exact test if and only if the declared size is at most 2^32 - 273. |
| Yaz0.OverrunsNearWrap | src/format/archive/yaz0.cpp:87-89 | No stream whose declared size is at most 2^32 - 273 comes to a run past the end that the wrapping test lets through. |
| Yaz0.OverrunExists | src/format/archive/yaz0.cpp:87-98 | Every larger declared size has an input that does: literals up to the last byte, then a run of 273. |
| Yaz0.OverrunsExactly | src/format/archive/yaz0.cpp:45-98 | An input overruns if and only if it presents legal tokens that end in a run past the declared size whose wrapped sum is not past it. |
| Yaz0.StreamDecodes | src/format/archive/yaz0.cpp:45-101 | Every byte string the format relation reads as a token list decodes to that list's expansion. |
| Yaz0.DecodedIsStream | src/format/archive/yaz0.cpp:45-101 | Whatever decodes is a byte string of the format: there are legal tokens it presents. |
| Yaz0.DecodeIsExpansion | src/format/archive/yaz0.cpp:27-101 | Decoding gives some bytes if and only if the input presents a token list whose expansion they are. |
| Yaz0.EncodeIsStream | src/format/archive/yaz0.cpp:45-101 | The reference compressor's output presents the tokens it was given. |
| Yaz0.RoundTrip | src/format/archive/yaz0.cpp:20-101 | For every legal token list, decoding its encoding gives exactly the list's expansion, whatever follows it. |
| Decomp.ReadableFrom | src/accel/egg/decomp.cpp:25-54 | Doubling then bisection ends on a size that is readable and whose successor is not (or on the limit); for a monotone memory it is the exact extent. |
| Decomp.DecodeSzs | src/accel/egg/decomp.cpp:58-99 | Expands the archive at an address exactly when it fits the target and the readable extent decodes; nothing past the declared size is touched unless the decoder overruns it. |
| Decomp.ArchiveExpands | src/accel/egg/decomp.cpp:58-99 | An encoded archive that fits the limit is handed to the decoder whole and expands to its tokens. |
| AesTables.Multiply | tools/wiicrypto.py:39-46 | The shift-and-add loop is the product of polynomials over GF(2) modulo x^8 + x^4 + x^3 + x + 1. |
| AesTables.XtimeIsDoubling | tools/wiicrypto.py:35-36 | Doubling with a conditional subtraction is multiplication by x in that field. |
| AesTables.MulDistributes | tools/wiicrypto.py:39-46 | The product distributes over addition of bytes. |
| Aes.BuildInverseTable | tools/wiicrypto.py:29-31 | Filling a table from the S-box makes its inverse table. |
| Aes.ExpandKey | tools/wiicrypto.py:49-58 | The in-place expansion computes the key schedule of section 5.2 of FIPS 197, word by word. |
| AesExamples.SubIsAffine | tools/wiicrypto.py:20-28 | Every entry of the S-box is the affine map of section 5.1.1 of FIPS 197 of the inverse in the field; at zero it is 0x63. |
| AesExamples.RconDoubles | tools/wiicrypto.py:32 | The round constants start at 1 and double in the field. |
| AesExamples.KeysFollow | tools/wiicrypto.py:49-58 | For every key, the words of a round follow from those of the round before by one rotated, substituted word and the constant. |
| AesExamples.KeyExample | tools/wiicrypto.py:49-58 | The key of appendix A.1 of FIPS 197 expands to the words printed there. |
| AesExamples.MixByteIs | tools/wiicrypto.py:76-82 | MixColumns by doubling, as section 5.1.3 has it. |
| AesExamples.BlockExample | tools/wiicrypto.py:61-83 | The block of appendix B of FIPS 197 is enciphered and deciphered to what is printed there. |
| AesExamples.ChainExample | tools/wiicrypto.py:86-98 | The same on bytes, by the chained decryption with an initial vector of zeros. |
| Aes.MixColumnsInverse | tools/wiicrypto.py:76-82 | The equations of the decryption undo MixColumns. |
| Aes.InvCipherUndoesCipher | tools/wiicrypto.py:61-83 | For every key schedule, InvCipher (section 5.3 of FIPS 197) undoes Cipher (section 5.1). |
| Aes.CipherUndoesInvCipher | tools/wiicrypto.py:61-83 | And Cipher undoes InvCipher: both are bijections. |
| Aes.DecryptBlock | tools/wiicrypto.py:61-83 | The in-place decryption of a 4 by 4 state is InvCipher of the schedule and the block. |
| Aes.InvMixColumnsOf | tools/wiicrypto.py:75-82 | The column loop of a round multiplies every column by the inverse matrix. |
| Aes.InvShiftRowsOf | tools/wiicrypto.py:70-71 | The row loop rotates each row to the right by its number. |
| Aes.CbcDecryptUndoesEncrypt | tools/wiicrypto.py:86-98 | For any cipher with an inverse, any initial block and any list of blocks, CBC decryption (section 6.2 of NIST SP 800-38A) undoes CBC encryption. |
| Aes.CbcEncryptUndoesDecrypt | tools/wiicrypto.py:86-98 | And the other way around. |
| Aes.DecryptionIsInverse | tools/wiicrypto.py:86-98 | On bytes: decrypting what the key and the initial vector encrypted gives the plain text back, for every key, vector and list of blocks. |
| Aes.AesCbcDecrypt | tools/wiicrypto.py:86-98 | The loop over the data computes that decryption; a short key or a trailing partial block is an index error, and an initial vector of fewer than 16 bytes leaves a hole of zeros in the first block, or cuts it off where it is the only one. |
| GuestLists.BypassLinked | src/cpu/fiber_manager.cpp:150-176 | Taking a thread out of a doubly linked queue leaves the queue linked, without it. |
| GuestLists.AppendLinked | src/cpu/fiber_manager.cpp:212-226 | Appending a thread to a queue leaves it linked, with the thread last. |
| GuestQueues.GuestOs.ClearPendingMaskForEmptyQueue | src/cpu/fiber_manager.cpp:134-148 | Clears exactly the bit of an emptied run queue, and no bit for any other queue. |
| GuestQueues.GuestOs.RemoveThread | src/cpu/fiber_manager.cpp:150-176 | The thread leaves the one queue it was in; every list stays well linked, and bit 31-p stays set exactly when run queue p is not empty. |
| GuestQueues.GuestOs.WakeThreadsOnQueue | src/cpu/fiber_manager.cpp:178-235 | The first 256 threads leave the queue; each run queue becomes what it was followed, in order, by the woken runnable threads of that clamped priority; lists and mask stay right. |
| GuestQueues.WakingConserves | src/cpu/fiber_manager.cpp:178-235 | No thread is lost or doubled by waking: the threads of the queue are those spread over the run queues and those dropped as dead, moribund or suspended. |
| GuestQueues.SelectedMembers | src/cpu/fiber_manager.cpp:195-226 | A thread is put on run queue p exactly when it is neither dead (0) nor moribund (8), is not suspended, and p is its priority, or 0 for a lower and 31 for a higher one. |
| GuestQueues.GuestOs.ExitThread | src/cpu/fiber_manager.cpp:781-797 | A returning thread is in no queue afterwards, is moribund (dead when detached), its joiners are woken, and the running and current contexts no longer name it. |
| HostContexts.Host.Destroy | src/cpu/host_context.cpp:318-329 | A context is freed only while it is live and not current, and is then live no more. |
| HostContexts.Host.Switch | src/cpu/host_context.cpp:342-353 | Makes a live context current; a null or the current one is no switch. |
| HostContexts.Host.Create | src/cpu/host_context.cpp:302-316 | A new context is live and remembers its argument; a refusal changes nothing. |
| GuestFiberStates.RunSound | src/cpu/fiber_manager.cpp:275-545 | Over every run of initializing, registering, creating, exiting, switching, starting, finishing, purging and shutting down: no context that a thread or a suspended stack can still use has been freed, none waits to be freed twice, none is lost, and every suspended switch has its registers where it will look. |
| GuestFiberStates.FreedIsGone | src/cpu/fiber_manager.cpp:74-95 | A context that a step frees is not the one that runs (but for the scheduler's, at shutdown), and no thread, no suspended stack and no later purge names it any more. |
| GuestFiberStates.PurgedFrees | src/cpu/fiber_manager.cpp:74-95 | Of the contexts that waited, a purge frees all but the one that runs, which waits on. |
| GuestFiberStates.CreatedGivesUp | src/cpu/fiber_manager.cpp:299-368 | A thread made again gives up the context it had, which is freed unless this very call runs on it, and has the newborn registers on the new one. |
| GuestFiberStates.CreatedRecord | src/cpu/fiber_manager.cpp:328-341 | The record of a new thread: its context, entry and argument, waiting, not over, with its stack in r1, its argument in r3, no link and its entry as pc and srr0. |
| GuestFiberStates.NewThreadStarts | src/cpu/fiber_manager.cpp:328-341 | From creation over the first switch to the entry: it starts at its entry point with its argument, with interrupts on and the persistent registers, with the words of its saved context as far as they were read, and else on its own stack and with nothing of its creator. |
| GuestFiberStates.RegisteredRecord | src/cpu/fiber_manager.cpp:626-641 | The record of a main thread: running, on the scheduler's context, with the registers given. |
| GuestFiberStates.ExitedRecord | src/cpu/fiber_manager.cpp:401-423 | A thread that exits has the final state it was given and keeps its registers; no other thread changes. |
| GuestFiberStates.RanRecord | src/cpu/fiber_manager.cpp:765-815 | A thread that returned is moribund and over, no thread is current, and neither of the two words for what runs names it. |
| GuestFiberStates.AwayRecord | src/cpu/fiber_manager.cpp:470-545 | A switch keeps the current thread's registers in its record, gives the register file those of the target, which runs, and changes no other thread. |
| GuestFiberStates.ExitedGivesUp | src/cpu/fiber_manager.cpp:401-423 | A thread that exits is terminated, is not current, and keeps no context of its own but the one that runs. |
| GuestFiberStates.RanHandsOver | src/cpu/fiber_manager.cpp:804-815 | A thread that returned hands over to the scheduler, which always has a suspended switch to go on with. |
| GuestFiberStates.ArrivedSound | src/cpu/fiber_manager.cpp:667-815 | Control never comes to a context with nothing to do: there is a suspended switch or deferral to go on with, or a thread to start. |
| GuestFiberStates.StartedSound | src/cpu/fiber_manager.cpp:667-700 | A context that starts is that of the registered thread it was made for, and its start leaves every scratch register file alone. |
| GuestFiberStates.StartRegisters | src/cpu/fiber_manager.cpp:697-723 | An entry finds its argument, the stack, TOC, SDA and link of its saved context as far as they could be read, its entry point, and for the rest the registers of the caller that switched to it. |
| GuestFiberStates.ResumedFinds | src/cpu/fiber_manager.cpp:539-590 | What a switch that comes back puts where: the caller's registers, or the record of its thread if the guest runs that thread again and it has one. |
| GuestFiberStates.SwitchComesBack | src/cpu/fiber_manager.cpp:425-590 | Over every sequence of steps of the other contexts: a switch that comes back always has its ambient pointer, its interrupt flag and, under a scratch caller, the persistent file; it has the caller's registers too if and only if the guest does not run the thread again, or what is found in its place (the thread's record, or with none the file itself) is those registers; and it has them whenever the thread's structure is not a main thread's that was given away or was registered elsewhere than on the scheduler's context. |
| GuestFiberStates.SwitchRestores | src/cpu/fiber_manager.cpp:425-590 | A thread whose structure was not given away before comes back to its own registers over every such sequence, if it is not on the scheduler's context or nobody makes a thread of its structure meanwhile; registrations meanwhile, from whatever context, change nothing for it. |
| GuestFiberStates.RegisteredElsewhere | src/cpu/fiber_manager.cpp:613-644 | The other exception is reached from the start: code on another context than the scheduler's that registers a structure as the main thread's runs as that structure, and its next switch comes back to the registers of the scheduler's code, which are not its own. |
| GuestFiberStates.MainThreadCreatedAgain | src/cpu/fiber_manager.cpp:311-333 | One exception is reached from the start: a main thread that switches away while its structure is given to a new thread comes back to that thread's first registers, which are not its own. |
| GuestFibers.FiberManager.PurgePendingFibers | src/cpu/fiber_manager.cpp:74-95 | The loop frees exactly what the purge of the state does. |
| GuestFibers.FiberManager.CreateGuestFiber | src/cpu/fiber_manager.cpp:299-368 | Creating changes the state as the creation does whose effect on contexts `CreatedGivesUp` states, also when the host has no context to give; a thread that is made has the entry, argument and context given and waits. |
| GuestFibers.FiberManager.ExitGuestThread | src/cpu/fiber_manager.cpp:401-423 | Exiting changes the state as `Exited` does, for any thread, known or not. |
| GuestFibers.FiberManager.Shutdown | src/cpu/fiber_manager.cpp:275-293 | From the scheduler, every thread's context and then the scheduler's own are freed, each once. |
| GuestFibers.EndedFrees | src/cpu/fiber_manager.cpp:275-293 | What stays live after shutting down is exactly what still waits to be freed. |
| GuestFibers.FiberManager.RegisterMainThreadAsFiber | src/cpu/fiber_manager.cpp:613-644 | From whatever context it is called: an unknown thread is put on the scheduler's context with the registers given and becomes the current one; a known one, or no initialization, changes nothing. |
| GuestFibers.FiberManager.SwitchToThread | src/cpu/fiber_manager.cpp:425-545 | Leaves the context exactly when the thread is known, not terminated and elsewhere; the current thread's registers are kept with it and the target's loaded. |
| GuestFibers.FiberManager.Resume | src/cpu/fiber_manager.cpp:539-590 | A switch that comes back puts the shared things and the registers back as `Resumed` says. |
| GuestFibers.FiberManager.StartFiber | src/cpu/fiber_manager.cpp:667-728 | A thread that starts runs its entry on the persistent file with interrupts on, from the seed and the words of its saved context. |
| GuestFibers.FiberManager.FinishThread | src/cpu/fiber_manager.cpp:804-815 | A returning thread is terminated, forgotten as the running one, and left for the scheduler for good. |
| GuestFibers.FiberManager.Perform | src/cpu/fiber_manager.cpp:275-815 | Every operation of the manager is the step of the state the whole-run theorems are about. |
| GuestFibers.FiberManager.SwitchAndReturn | src/cpu/fiber_manager.cpp:425-590 | A switch comes back exactly when the run of the others' steps comes back to its stack, and then with the ambient pointer, the interrupt flag, the persistent file and, unless its structure was given away or registered elsewhere, the registers it had. |
| GuestJumps.Jumps.Reachable | src/cpu/guest_jmp.cpp:129-147 | Forgets exactly the overwritten buffers of a coroutine, and tells whether a live one is left. |
| GuestJumps.Jumps.StackFor | src/cpu/guest_jmp.cpp:149-186 | Gives the stack started at that pointer, else the first that nothing can jump back into, else, when all have something live, a new one; no live buffer is forgotten. |
| GuestJumps.Jumps.RebindHostContext | src/cpu/fiber_manager.cpp:260-273 | Everything that was on one context, the scheduler included, is on the other, and nothing else moves. |
| GuestJumps.Jumps.SwitchTo | src/cpu/guest_jmp.cpp:81-105 | Hands the thread to another stack: its fiber is that stack's context, and the stack goes on with what it was resumed for. |
| GuestJumps.Jumps.Enter | src/cpu/guest_jmp.cpp:107-124 | A stack that starts over has no armed buffer left, and a new run of its own. |
| GuestJumps.Jumps.Arm | src/cpu/guest_jmp.cpp:190-198 | A buffer is armed for the running stack's present run. |
| GuestJumps.Jumps.Jump | src/cpu/guest_jmp.cpp:200-238 | A jump resumes the owner of a buffer that is as it was armed, and otherwise starts a stack at the buffer's stack pointer; a parked stack is never resumed with nothing to do, a live buffer is lost only with a restart of its stack, the other threads stay where they were, and the scheduler's context goes with the thread if it was the thread's. |
| GuestJumps.Jumps.ComeBack | src/cpu/guest_jmp.cpp:81-86 | When the thread takes its turn again, control comes to the stack its code was on. |
| GuestJumps.Jumps.Perform | src/cpu/guest_jmp.cpp:190-238 | No step ends the life of an armed buffer but arming it again, overwriting it, a jump that cannot be made (an unreadable buffer, no memory for a stack), or starting its stack over from where it was started. |
| GuestJumps.Jumps.SetjmpThenLongjmp | src/cpu/guest_jmp.cpp:190-238 | Over every sequence of jumps, turns and writes that leaves a buffer alone, which the sequence and the words of memory decide, a jump to it comes back to the setjmp's own frame: its coroutine, in the run it was in, on its context. |
| MemoryTables.ResolveIsHost | src/cpu/memory.cpp:320-332 | An access that region resolution admits touches, byte by byte, the host bytes of its guest bytes. |
| MemoryTables.EntryIsHost | src/cpu/memory.cpp:228-251 | Bytes within a page entry's limit are the host bytes of the page. |
| MemoryTables.BiasIsHost | src/cpu/memory.cpp:256-267 | A biased access of up to eight bytes is at the host bytes of its guest bytes, also across two pages and through the 64-bit wrap of the bias. |
| MemoryTables.BiasServes | src/cpu/memory.cpp:250-268 | A page has a bias whenever one region holds it and seven bytes more, unless the host put it exactly one byte below its guest address. |
| MemoryTables.TouchedPages | src/cpu/recomp_mod_loader.cpp:76-99 | The pages marked for a range are exactly those with a byte of it. |
| GuestMemory.Index.TryGetPointerFast | src/cpu/include/memory_access.h:174-191 | A pointer it returns is, for every byte of the access, the host byte region resolution gives; an access within its page, in a region that holds the page's start, always gets one. |
| GuestMemory.Index.TryGetWritablePointerFast | src/cpu/include/memory_access.h:198-255 | So is a writable one, and no 4 KiB page of the access holds a registered executable byte; such an access within its page always gets one. |
| GuestMemory.Index.TryWriteGuestScalar | src/cpu/include/memory_access.h:403-430 | The same for the scalar store. |
| GuestMemory.Index.TryReadGuestScalar | src/cpu/include/memory_access.h:387-401 | A fast load is at the host bytes of its guest bytes, and within one page no pending read overlaps it; it takes place exactly when the page has a bias and no pending read covers it. |
| GuestMemory.Index.BuildPageTable | src/cpu/memory.cpp:228-267 | The loops make the page table and the biases that are the functions of the region list. |
| GuestMemory.Index.RefreshPage | src/cpu/memory.cpp:271-307 | Rebuilds one page's read, write and 4 KiB tables from its bias and the guard; there is a 4 KiB table exactly for a mapped page with both kinds of 4 KiB pages, and it closes only those that hold executable bytes. |
| GuestMemory.Index.RefreshFastPathTables | src/cpu/memory.cpp:269-318 | Restores the invariant of all tables; a page has a write bias exactly when it holds no executable byte. |
| GuestMemory.Index.Init | src/cpu/memory.cpp:566-603 | Establishes the invariant for any non-overlapping configuration. |
| GuestMemory.Index.Reset | src/cpu/memory.cpp:605-610 | Unmaps everything and drops every pending read. |
| GuestMemory.Index.MarkExecutableGuardPages | src/cpu/recomp_mod_loader.cpp:76-99 | Sets exactly the guard bytes of the pages of a range at all three levels, and clears their write biases. |
| GuestMemory.Index.AddExecutableRange | src/cpu/recomp_mod_loader.cpp:101-121 | The invariant, and with it the safety of the fast stores, holds as soon as a range is marked, before any refresh; a repetition adds nothing. |
| GuestMemory.Index.RegisterExecutableRange | src/cpu/recomp_mod_loader.cpp:371-393 | Registers a range and its cached and uncached mirrors, keeping the invariant, and keeping every registered range's mirrors registered. |
| GuestMemory.MirrorsOfAnyView | src/cpu/recomp_mod_loader.cpp:123-171 | A range of RAM registered through any of its views registers the same offsets in the cached and the uncached view. |
| GuestMemory.Index.ExecutableWriteGuardMayHit | src/cpu/include/recomp_mod_loader.h:144-193 | The three-level filter answers exactly what a scan of the 4 KiB guard pages of the access answers. |
| GuestMemory.HitIsHeld | src/cpu/include/recomp_mod_loader.h:144-193 | An access that intersects a registered range has a page the guard holds: the filter never misses one. |
| GuestMemory.FirstHitIs | src/cpu/recomp_mod_loader.cpp:179-187 | The range a store hits is the first in order with one of its bytes; none exactly when none has one. |
| GuestMemory.HitIsNotClear | src/cpu/include/memory_access.h:198-255 | An access that hits a registered range is not clear of executable pages. |
| GuestMemory.Index.HandleExecutableWrite | src/cpu/recomp_mod_loader.cpp:398-413 | The answer is that of the ranges alone: the filter in front never changes it. |
| GuestMemory.Index.RefreshDeferredReadPage | src/cpu/memory.cpp:96-106 | A page is flagged exactly when a pending read overlaps it, and has a read bias exactly when it is not. |
| GuestMemory.Index.RegisterDeferredRead | src/cpu/memory.cpp:147-171 | A read gets a token never used before and its pages are flagged; an empty, null or overlong one is refused. |
| GuestMemory.Index.TakeOverlapping | src/cpu/memory.cpp:190-214 | Takes exactly the overlapping reads off the list, in order, and keeps flags and biases right for the rest. |
| GuestMemory.Index.RunCallback | src/cpu/memory.cpp:216-221 | A callback is begun once and makes its loads in order, each answered as a checked load is, up to the first violation; it succeeds if and only if none is one and it reports success. It fails only when a callback begun in it, or itself, is at fault on its own account: it reports failure or loads what is not mapped. |
| GuestMemory.Index.RunCallbacks | src/cpu/memory.cpp:216-224 | Callbacks run in order up to the first that fails; those that succeed are done and the later ones are lost without being run; each takes its turn from where the one before left things. |
| GuestMemory.Index.ResolveDeferredReads | src/cpu/memory.cpp:190-224 | Runs the overlapping callbacks in order, each at most once over the whole run, nested loads of the callbacks included: up to the first that fails all succeeded, and the reads after it are lost; afterwards no pending read overlaps, and all that other reads became in between is what their own resolves made of them. |
| GuestMemory.Index.ClearDeferredReads | src/cpu/memory.cpp:173-188 | Drops every pending read and unflags every page. |
| DeferredReads.KeptAndMatched | src/cpu/memory.cpp:196-209 | Every pending read is either kept or matched, by whether the access overlaps it, and none twice. |
| GuestMemory.Index.GetPointer | src/cpu/memory.cpp:1115-1122 | The pointer is at the host bytes of the access, and there is one whenever a region holds the access. |
| GuestMemory.Index.CheckedRead | src/cpu/memory.cpp:919-978 | A checked load is at the host bytes of its guest bytes; within one page it returns only when every pending read of its bytes has been produced, and a registered read of them is then unproduced (and not cleared) if and only if it was overlooked at the start: in flight or running in a resolve the load is made in, failed, or lost to another's failure. It fails only for a hole in the map or a failed callback. |
| GuestMemory.Index.RunThenRead | src/cpu/memory.cpp:147-224 | After every sequence of registrations, loads, stores, clearings, initializations, resets, executable ranges and refreshes, a checked load within its page that comes back has an unproduced read of its bytes if and only if one failed or was lost to a failure. If at no load of the sequence a waiting callback is one that reports failure or loads what is not mapped then, a mapped load that is not a device's always comes back and misses nothing. |
| DeferredReads.TurnProduces | src/cpu/memory.cpp:216-221 | A callback that succeeded has made all its loads: no read of bytes it loaded within a page is pending any more. |
| DeferredReads.NoneFails | src/cpu/memory.cpp:216-222 | Where no waiting callback reports failure or loads what is not mapped, no access makes one fail. |
| DeferredReads.ResolveSettles | src/cpu/memory.cpp:190-224 | From before a resolve takes its reads to after its last callback: its own are done, failed or lost, every other read is what it was or has been through a resolve of its own, and the list is what is still pending, in order. |
| DeferredReads.UnproducedWasOverlooked | src/cpu/memory.cpp:216-224 | What a load can miss is exactly what was off the list and unproduced when it began. |
| DeferredReads.ProducedWhenIdle | src/cpu/memory.cpp:216-224 | Outside of resolves, what a load misses failed or was lost, and some callback did fail. |
| GuestMemory.LostRead | src/cpu/memory.cpp:216-222 | A concrete run in which a load is answered though a registered read of its bytes was neither run nor cleared: an earlier match failed. |
| GuestMemory.SiblingNotRun | src/cpu/memory.cpp:214-222 | A concrete load whose resolve runs two callbacks: the load that the first one makes is answered while the second is still in flight. |
| GuestMemory.Index.CheckedWrite | src/cpu/memory.cpp:464-477 | A checked store is at the host bytes of its guest bytes, and never in a registered range unless the game is loading it. It is a device's exactly from 0xCC000000 to 0xCDFFFFFF where the tables take no store, and else succeeds exactly when the tables take it, or an address is found and the first range it hits, if any, is being loaded. |
| GuestFlat.SameHostByte | src/cpu/guest_flat_memory.cpp:467-484 | Two mapped guest addresses are the same host byte if and only if they are the same byte of the same section. |
| GuestFlat.RamIsMirrored | src/cpu/memory.cpp:497-546 | The physical, cached and uncached views of MEM1 and of MEM2 are the same bytes. |
| GuestFlat.ReachesExecutable | src/cpu/recomp_mod_loader.cpp:123-177 | On the console's map, with every range in one view of RAM or outside it: an address that is not executable is the host byte of one that is, if and only if it names RAM through the physical view and its cached mirror is registered. |
| GuestFlat.StoreReachesExecutable | src/cpu/include/memory_access.h:198-255 | So a byte of a store the tables admit reaches the host byte of a registered executable byte exactly there, where nothing guards the physical view. |
| GuestFlat.StoreThroughPhysicalView | src/cpu/include/memory_access.h:198-255 | On the console's map, wherever its sections are put: with bytes of cached RAM registered, the tables do admit a store through the physical view, and it writes those bytes. |
| GuestFlat.FlatMapping.SizeSections | src/cpu/guest_flat_memory.cpp:627-639 | Every section is sized by the highest byte any of its regions reaches; an unaligned region is refused. |
| GuestFlat.PlaceInReach | src/cpu/guest_flat_memory.cpp:627-639 | Every mapped address is inside its section. |
| GuestFlat.FlatMapping.Initialize | src/cpu/guest_flat_memory.cpp:589-718 | Maps the regions once; a second call keeps the mapping and is refused for another layout. |
| GuestFlat.FlatMapping.HostPointer | src/cpu/guest_flat_memory.cpp:723-732 | The scan of the views finds the host byte of an address. |
| GuestFlat.InitMemory | src/cpu/memory.cpp:566-603 | Sets memory up, mapping it unless it is mapped already, so that region resolution, and the index over it, agree with the flat mapping at every guest address. |
| GuestFlat.DefaultsFit | src/cpu/memory.cpp:497-546 | The console's own map is a configuration the theorems apply to. |
| Dispatch.NeverTies | src/cpu/abi_bridge.cpp:126-147 | Of two registrations at an address one is better, or they are the same registration. |
| Dispatch.Ranks | src/cpu/abi_bridge.cpp:96-140 | The higher priority wins; without one a native counts as 10000, a module's function as 100 and a base one as 0; then the kind decides, then the module. |
| Dispatch.WinnerIsBest | src/cpu/abi_bridge.cpp:126-147 | The winner at an address beats every other registration there; there is none exactly when nothing is registered. |
| Dispatch.WinnerOfAll | src/cpu/abi_bridge.cpp:296-338 | The winner's identity is the maximum of all that was ever registered at the address. |
| Dispatch.WinnersIgnoreOrder | src/cpu/abi_bridge.cpp:296-338 | The same registrations in any order, any number of times, give the same winners. |
| Dispatch.FindStatic | src/cpu/include/abi_bridge.h:97-135 | The two-level search with its bisection, as a function of the table. |
| Dispatch.SegmentedIsLinear | src/cpu/include/abi_bridge.h:97-135 | In a validated table it finds, for every address, what a linear search finds. |
| Dispatch.RecordIs | src/cpu/include/abi_bridge.h:256-266 | A record has the function's address and entry, guards f14 and above of the registers it writes, and preserves the general ones around a native unless it loads a context. |
| DispatchRegistry.Registry.Register | src/cpu/abi_bridge.cpp:296-338 | The index stays that of the winners; a repetition changes nothing, and nothing is accepted after publication. |
| DispatchRegistry.Registry.RebuildIndices | src/cpu/abi_bridge.cpp:149-200 | Building all at once gives the index the registrations gave one by one, and the dynamic records of the winners in address order. |
| DispatchRegistry.Registry.ValidateTable | src/cpu/abi_bridge.cpp:202-253 | Accepts a table exactly when it is well formed, every entry is its address's present winner, and no translated winner is missing. |
| DispatchRegistry.Registry.Finalize | src/cpu/abi_bridge.cpp:340-370 | Publishes once, exactly when there is no table or a valid one. |
| DispatchRegistry.Registry.RawIsWinners | src/cpu/abi_bridge.cpp:391-404 | A published registry has a raw record of an address exactly when its winner is called through one, and it is the winner's. |
| DispatchRegistry.Registry.FindByAddress | src/cpu/include/abi_bridge.h:336-349 | A memoised lookup gives the winner, after any sequence of lookups. |
| DispatchRegistry.Registry.FindRaw | src/cpu/include/abi_bridge.h:356-388 | A memoised raw lookup gives what the tables give, after any sequence of lookups. |
| Demangle.ParseNumber | tools/cwdemangle.py:31-37 | Reads a decimal number and moves past it. |
| Demangle.ParseQualified | tools/cwdemangle.py:47-58 | Reads a class name and moves past it. |
| Demangle.ParseType | tools/cwdemangle.py:61-107 | Reads what the grammar says the text from the index on starts with, and moves the index forward, or fails where the grammar does. |
| Demangle.ParseParams | tools/cwdemangle.py:110-117 | Reads types up to an underscore or the end. |
| Demangle.ParseSignature | tools/cwdemangle.py:126-148 | Reads a whole signature with nothing left over. |
| Demangle.DemangleName | tools/cwdemangle.py:120-154 | Splits at the last two underscores a signature follows. |
| Demangle.TypeReads | tools/cwdemangle.py:61-107 | Reading a mangled type gives the rendered type and exactly the rest of the text. |
| DemangleTexts.ModifierTexts | tools/cwdemangle.py:94-107 | P, R, U and S make a pointer, a reference, unsigned and signed of the type behind them, and C a const in front, or behind a pointer or reference. |
| DemangleTexts.BuiltinTexts | tools/cwdemangle.py:20-23 | The letters of the built-in types, with `MoreBuiltinTexts`. |
| DemangleTexts.OtherLetters | tools/cwdemangle.py:69-93 | No other character starts a type. |
| DemangleTexts.ArrayTexts | tools/cwdemangle.py:75-80 | An array is its element type and its length in brackets. |
| DemangleTexts.FunctionTexts | tools/cwdemangle.py:81-87 | A function is what it returns, or void, and its parameters in the form of a pointer to it. |
| DemangleTexts.MemberTexts | tools/cwdemangle.py:88-91 | A member pointer is its type and its class with two colons and an asterisk. |
| DemangleTexts.ArgumentTexts | tools/cwdemangle.py:110-117 | Parameters are separated by a comma and a space; void alone is none. |
| DemangleTexts.AnimateName | tools/cwdemangle.py:3-7 | The documentation's example is demangled as it says, with parameters and without. |
| DemangleTexts.ConstName | tools/cwdemangle.py:94-107 | A name with references, pointers and const in all places is read as it should be. |
| DemangleTexts.ComposedName | tools/cwdemangle.py:75-93 | A name with an array, a function and a return type is read as it should be. |
| Demangle.SignatureReads | tools/cwdemangle.py:126-143 | Reading the signature of a mangled name gives the declaration's scope, constness and arguments. |
| Demangle.SplitIsBase | tools/cwdemangle.py:120-127 | The split is where the name's base ends if and only if no two underscores inside the signature start what reads as a signature. |
| Demangle.DemangleInvertsMangling | tools/cwdemangle.py:120-154 | Demangling the mangled form of such a declaration gives its rendered form, with or without parameters. |
| Demangle.DemangleExactly | tools/cwdemangle.py:120-154 | For names without colons and parentheses, demangling gives the rendered declaration if and only if no two underscores inside the signature start what reads as a signature. |
| Demangle.CleanIsUnambiguous | tools/cwdemangle.py:120-127 | Declarations whose identifiers have no two underscores in a row, and none at the end, are such. |
| Demangle.TrailingUnderscore | tools/cwdemangle.py:120-127 | An identifier that ends in an underscore before a return type is not: a concrete name is split too late. |
| Settings.Trim | src/cpu/include/runtime_config.h:142-152 | The two loops take exactly the spaces off both ends. |
| Settings.TrimmedOf | src/cpu/include/runtime_config.h:142-152 | Spaces around a tight text are all that trimming takes off. |
| Settings.RemoveComment | src/cpu/include/runtime_config.h:154-174 | The loop keeps the line up to the first comment sign outside quotes. |
| Settings.UncommentedAppend | src/cpu/include/runtime_config.h:154-174 | A comment of a joined line is found in the first part it starts in. |
| Settings.WriteSetting | src/cpu/include/runtime_config.h:624-671 | The scan and the edit in place compute the new lines, for a section that is there, that is new, and for a key that is or is not. |
| Settings.WriteIsFound | src/cpu/include/runtime_config.h:624-671 | After a write the writer's own scan finds the new line, if and only if that line reads as a setting of its key and the section can be found. |
| Settings.SettingIsFound | src/cpu/include/runtime_config.h:624-671 | In terms of the arguments: the scan finds the new line if and only if the trimmed key has no equals sign and no comment starts in it, its line does not read as a header, and the section is there or no comment starts in its header. |
| Settings.KeyReadsBack | src/cpu/include/runtime_config.h:651-654 | The new line reads back as its key if and only if the key has no equals sign and no comment starts in it. |
| Settings.HeaderReadsBack | src/cpu/include/runtime_config.h:628-646 | A new section's header reads back if and only if no comment starts in it. |
| Settings.KeyOpensNothing | src/cpu/include/runtime_config.h:628-631 | The line of a key that does not start with a bracket opens no section. |
| Settings.WriteKeepsOthers | src/cpu/include/runtime_config.h:624-671 | A write of a line that opens no section and sets no other key changes what no other section and key looks up, if the section is there, its new header reads back, or neither new line sets a key. |
| Settings.HarmlessKeepsAll | src/cpu/include/runtime_config.h:624-671 | Over all files, such a write changes no other setting if and only if the new header reads back or neither new line sets a key. |
| Settings.KeepsAllUnlessHeader | src/cpu/include/runtime_config.h:624-671 | For a section whose header can be read and a key a line can set, a write changes no other setting of any file if and only if its line does not read as a header. |
| Settings.WriteEditsOne | src/cpu/include/runtime_config.h:642-671 | Every line but the one that set the key is kept, in order; only the new line is added: behind the last line of its section that is not blank, or at the end with its header, after a blank line if the last line is not one. |
| Settings.SettingText | src/cpu/include/runtime_config.h:642 | The new line is the key, an equals sign between spaces, and the value. |
| Settings.WriteTwice | src/cpu/include/runtime_config.h:624-671 | A second write to a key is as if the first had not been, if and only if the first one's line reads as a setting of its key and the section can be found. |
| Settings.RepeatedWrite | src/cpu/include/runtime_config.h:624-671 | Repeating a write changes nothing if and only if its line reads as a setting of its key and the section can be found. |
| Settings.ReadsBack | src/cpu/include/runtime_config.h:614-622 | Reading a written file gives its lines. |
| PpcArithmetic.Cpu.AddWithXer | src/cpu/ppc_helpers.cpp:213-224 | The result, carry, overflow and sticky overflow of an addition with carry in. |
| PpcArithmetic.Cpu.SubfWithXer | src/cpu/ppc_helpers.cpp:226-243 | The same for a subtraction, as addition of the complement. |
| PpcArithmetic.Cpu.UpdateCarrySub | src/cpu/ppc_helpers.cpp:139-151 | The carry of a subtraction is that of adding the complement and one. |
| PpcArithmetic.ChainSum | src/cpu/ppc_helpers.cpp:125-137 | Over any number of words, the words and the final carry are the exact sum. |
| PpcArithmetic.ChainOverflow | src/cpu/ppc_helpers.cpp:213-224 | The overflow of the last word is that of the whole signed sum, which is exact without it. |
| PpcArithmetic.Cpu.AddChain | src/cpu/ppc_helpers.cpp:246-247 | An addc followed by adde computes the sum of two whole numbers of any length, with CA and OV those of the whole. |
| PpcArithmetic.Cpu.SubtractChain | src/cpu/ppc_helpers.cpp:251-252 | A subfc followed by subfe computes the difference; CA says that nothing is borrowed, OV that the signed difference does not fit. |
| PpcArithmetic.Cpu.UpdateCarryShiftRight | src/cpu/ppc_helpers.cpp:153-182 | Sets the carry exactly when a negative number loses a bit. |
| PpcArithmetic.Cpu.DivideByPowerOfTwo | src/cpu/ppc_helpers.cpp:153-182 | An algebraic shift and addze is division by a power of two rounded toward zero, for every shift below 64. |
| PpcArithmetic.Cpu.LoadString | src/cpu/ppc_helpers.cpp:292-318 | Registers get the bytes four by four, high byte first, the last filled up with zeros; the others keep theirs. |
| PpcArithmetic.Cpu.StoreString | src/cpu/ppc_helpers.cpp:320-338 | Memory gets the registers' bytes, and nothing else in memory changes. |
| PpcArithmetic.Cpu.CopyString | src/cpu/ppc_helpers.cpp:292-338 | A string of up to 128 bytes loaded and stored from the same register is copied, also around register 31. |
| FloatBits.Widen | src/cpu/include/memory_access.h:116-139 | The double denotes the single's number (or has its sign and payload, for infinities and NaNs), and narrowing it gives back all 32 bits, denormals and signalling NaNs included. |
| FloatBits.NarrowFields | src/cpu/include/memory_access.h:144-166 | Outside the subnormal window narrowing keeps the sign, the high bit and seven low bits of the exponent, and the top of the fraction. |
| FloatBits.NarrowCuts | src/cpu/include/memory_access.h:145-167 | For every double outside the subnormal window: the sign, the high bit and seven low bits of the exponent, and the fraction cut off behind 23 bits. |
| FloatBits.NarrowTruncates | src/cpu/include/memory_access.h:145-167 | In the range of normal singles the single stored is at most the double in magnitude, by less than one unit in the last place. |
| FloatBits.NarrowTiny | src/cpu/include/memory_access.h:154-160 | In the subnormal window it is the magnitude in units of the smallest single, rounded down. |
| FloatBits.DenormalMagnitude | src/cpu/include/memory_access.h:127-134 | Normalising a denormal's fraction keeps the number it denotes. |
| FloatBits.DenormalBits | src/cpu/include/memory_access.h:153-160 | The subnormal window shifts such a fraction back exactly. |
| TimeBase.ConversionIsExact | src/cpu/include/timebase_contract.h:24-29 | The split conversion is 243n/4000 rounded down, for every 64-bit n, and no intermediate overflows. |
| TimeBase.Seconds | src/cpu/include/timebase_contract.h:10-20 | A second is 60750000 ticks. |
| TimeBase.DurationIsExact | src/cpu/include/timebase_contract.h:33-48 | The duration is 4000t/243 rounded down and fits a signed 64-bit count, up to the stated maximum. |
| TimeBase.TicksThereAndBack | src/cpu/include/timebase_contract.h:24-48 | Ticks to nanoseconds to ticks is the same number when 243 divides it, and one less otherwise. |

## Left out

- The user interface, the launcher, the shader tool, downloads, TOML parsing, logging, popups, crash dumps and profiler fields.
- Assembly and stack switching inside a host context: a switch is an atomic change of the current handle. Mutexes: guest threads are cooperative on one host thread.
- Operating system mapping calls, page protection and fault handling of the flat view: every access takes the checked path, as on Switch.
- MMIO registers, the graphics FIFO and registered devices: an access to them is `Device`.
- The bytes behind host pointers: a load or store is the pointer it goes to.
- GuestMemory.Index.TakeOverlapping: the source refreshes each affected page once, after sorting them; the model may refresh one several times, with the same result.
- GuestMemory.Index.RegisterExecutableRange: the name an empty one is replaced by is not modelled; names are any strings.
- GuestMemory.Index.HandleExecutableWrite: which ranges the game is loading is a parameter, not read from the guest's registers.
- GuestMemory.Index.RunCallback: a callback that registers or clears deferred reads, and what it writes, are not modelled; its loads of device registers go on.
- GuestQueues.GuestOs.WakeThreadsOnQueue: the mask word is the set of its one bits, and marking the fiber of a woken thread ready and the log at the limit of 256 are not modelled.
- GuestFibers.FiberManager.StartFiber: the retried entry of a thread whose object is not filled in yet is the step `Yield`; reloading three registers after it, and the missing-function report, are not modelled. That the context's thread is registered, which the source tests, always holds (`StartedSound`).
- GuestFibers.FiberManager.Resume: a switch with no register file restores only the ambient pointer and the interrupt flag, as in the source; the guest's words of what runs are always readable.
- Ready and waiting marks of fibers that nothing but the scheduler outside these files reads (`ResumeGuestThread`, `SuspendGuestThread`), and the retrace counter.
- GuestJumps.Jumps.Jump: coroutines of a guest thread that exits are not freed by the source and not modelled; a coroutine's register file is a number.
- Host address lookup and nearest-function lookup of the registry, the count of overrides it reports, and bulk registration, which only calls `Register`.
- DispatchRegistry.Registry.RebuildIndices: the library sort is an insertion sort, and the library's lower bound a linear search.
- Demangle.ParseType: Python's limit on recursion and digits outside ASCII are not modelled; exceptions are failures.
- Yaz0.Yaz0Decode: a null source pointer is not modelled (a null target is), and nothing is said of what follows a run that overruns the declared size.
- Settings.WriteSetting: opening, creating and writing the file; `LinesOf` and `TextOf` are its text.
- The carry helpers without carry or with a fixed operand (`Addo`, `Addmeo`, `Subfo`, `Subfmeo`, `Subfzeo`, `Nego`), multiplication, division, condition register moves, reservations and paired singles: they would only add easy members.
- FloatBits.Widen: the host's exact conversion of a normal single is its exponent and fraction placed in a double.
