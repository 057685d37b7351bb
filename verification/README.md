# RayforceDB engine core: a verified model

Six parts of the engine, each modelled as the code is written (mutable objects and loops
where it updates in place, functions where it computes) and proved against
specifications that say what it is for.

* **Allocator** (`Tiles`, `FreeLists`, `HeapModel`, `HeapSteps`, `Sums`, `HeapBytes`, `Heap`,
  `HeapMerge`, `HeapReturn`, `HeapPairs`, `HeapStale`, `HeapAstray`, `HeapGc`, `HeapTheorems`,
  `HeapRuns`, `PoolWalk`). The heaps of all threads share one address space of
  pools; `Heap.Allocator` holds header bytes, circular free lists, slab stacks, foreign
  queues, pool tables and byte counters. A ghost tiling says which blocks there are and
  where each one is. `Settled` is the invariant between calls; `HeapRuns.Serve` carries it
  through every run, `HeapTheorems` says what it means for users. One walk of a collection
  can lose its list: `HeapReturn` and `HeapPairs` say exactly when, `HeapAstray` has a run,
  and `HeapStale` follows the bytes and links from there. `PoolWalk` looks for the pool of
  a block in the bytes alone.
* **Compiler and machine** (`Lang`, `Bytecode`, `CompileFacts`, `Layout`, `CompileCorrect`,
  `DirectEval`, `LangLaws`, `CompileLimits`, `Machine`, `VmCorrect`, `Compiler`, `Vm`). `CompilerObject.Compiler` grows and
  patches its buffers; `VmObject.Vm` is the dispatch loop over three fixed stacks.
  `Layout` reads bytecode back independently of how it was written, `DirectEval` is the
  meaning of a lambda body over one flat frame of slots, `LangLaws` says form by form what
  that is, and `VmCorrect` shows that the machine running compiled code computes it, for
  every lambda that compiles; `CompileLimits` says which ones do.
* **Dispatch and lock-free bookkeeping** (`Dispatch`, `DispatchRing`, `HeapIds`,
  `PendingHeaps`, `CInts`). Interleaved atomic steps under sequential consistency.
* **Text and calendars** (`Calendar`, `CalTable`, `TimeText`, `TimeLiteral`, `CsvTime`,
  `CsvText`, `CsvLines`, `CsvFile`, `CsvDetect`, `CsvRaces`, `CsvRuns`, `CsvParallel`). Two day-number
  algorithms, printing and parsing of dates and times, and CSV files with the quoting of
  section 2 of RFC 4180. `CsvRaces` and `CsvRuns` are about programs that share bytes,
  `CsvParallel` about the tasks of the reader, over the ranges of `DispatchRing.Ring.Fill`.
* **Messages** (`Bytes`, `IpcCodec`, `IpcTokens`, `IpcWire`, `IpcConn`, `IpcServer`, `IpcPoll`,
  `IpcSession`). The delta and run-length codec, framing, and two connection loops.
* **Reference counts** (`Ownership`, `RefCount`). Retain, release, free and copy on write
  over a graph of owned references.

## Assumptions

* The system hands out pool regions that are aligned to their size and not in use
  (`HeapModel.Unused`); whether it does is a parameter of each allocation.
* In the allocator, which pool a block lies in is taken as known for oversized pools: the
  downward walk at src/mem/heap.h:219-232 looks at bytes that may be a caller's, and
  `PoolWalk.FindsExactly` says when it is right. The mask of standard pools is proved exact.
* A dispatch is proved safe from a state in which every worker is parked (or on its way
  there with a claim beyond the new tasks) and no signal is left over. A new pool is in
  one; a finished dispatch need not leave one (see below). `Dispatch.SafeExactlyWhenReady`
  proves the condition exact.
* Signed overflow, where it is modelled, wraps around.
* Ownership graphs have no cycles, given as a rank.
* Builtins, dynamic evaluation of a form and the tree-walking fallback are functions of
  their arguments and the global environment that may fail (`Lang.Host`).

## Where the code does not do what one would expect

* `Dispatch.FirstTwo`: of two dispatches in a row the second can start a task twice or
  return early. The dispatcher may finish all tasks alone; the signals it sent then let
  workers into the next dispatch while count, tail and pending are stored one by one
  (src/core/pool.c:265-267).
* `HeapAstray.LedAstray`: returning listed blocks to their owners, a collection can go on at
  a block that was just merged away (src/mem/heap.c:956), if buddies were left apart while
  the parallel flag was up and then came to a heap that does not own their pool.
* `CalTable.DateToYmd`: dates before year 1 decode wrongly except in years after a leap
  year, because years are counted with division toward zero; near the greatest day number
  32 bits overflow. `Calendar.WrittenDateExactly`: so they do in the CSV writer.
* `CsvTime.CsvTimestampRoundTrip`, `TimeLiteral.TimestampRoundTrip`: below day -106751 the
  readers' 64-bit product of days overflows, though the sum fits again.
* `CalTable.YmdIsCivil`: literals with a year below 1 are numbered as if of year 1;
  `CalTable.MonthZero`: a month of 0 is January.
* `CsvTime.CsvTimeRoundTrip`: times of a day or more, and negative ones, are written but
  not read back. `TimeLiteral.TimeRoundTrip`: the same for literals from 100 hours on.
* `CsvLines.UnchangedExactly`: an empty string comes back as null, and a last string loses
  a carriage return at its end.
* `CsvLines.AnyRows`: rows that end in carriage returns alone are told apart only if there is
  a quote somewhere in the data; without one the file has a single row.
* `CsvText.QuotedField`: what stands between a closing quote and the next delimiter begins
  the next field.
* `CsvTime.LateFebruary`: the CSV reader takes 2023-02-31 for the third of March.
* `TimeLiteral.FiveForHalf`: the digits behind the point of a time are milliseconds, so ".5"
  is five of them; `TimeLiteral.LiteralKinds`: minutes and seconds of a timestamp are not
  checked to be digits.
* `CsvDetect.TabInName`: the writer always puts commas, but the reader, if not told, takes a
  file with more tabs than commas in its first line for tab-separated, even if they stand
  in quotes (`CsvDetect.DetectedExactly`).
* `CsvParallel.LostBit`: when the ring cuts the number of tasks, ranges need not start at
  multiples of 8, two tasks may write the same byte of null bits, and a bit can be lost;
  `CsvParallel.RightExactly` says for which files, `CsvParallel.EveryFileExactly` for which
  ranges.
* `PoolWalk.LedAway`: the pool order of a header is a byte that in any other block belongs
  to its null bits (src/mem/heap.h:147, src/mem/heap.h:209-217), so in an oversized pool a block at a 32 MB
  boundary can pass for a pool.
* `DirectEval.HeadsAgree`: a call headed by the name of a builtin calls the builtin even if
  a local has that name.
* `DirectEval.MissingIsZero`: self-calls are not checked for their number of arguments;
  parameters left over read as zero, where any other call is an error.
* `IpcSession.LoginAccepted`: credentials of 255 bytes are sent and never accepted; a
  colon in the user name shifts the password.
* `DispatchRing.Ring.Fill`: the number of tasks is a 32-bit value; beyond 2^32 - 1 grains
  some elements may be in no task, and for the greatest numbers of elements the grain of a
  cut ring overflows and none is (`DispatchRing.GreatestUnserved`).
* `TimeLiteral.PastTableExactly`: a month above 13 reads beyond the table, as in
  `TimeLiteral.MonthFourteen`.
* `HeapGc.OnlyIdle`: the walk over other heaps' queues is never what decides.

## Where the code differs from its comments

The model follows the code.

* src/mem/heap.c:1031-1034 expects queued blocks of an unmapped pool to be noticed later;
  a pool with a queued block is never unmapped (`HeapGc.OnlyIdle`).
* src/mem/heap.c:627 calls its flush of queued blocks local; the flush returns at once
  unless blocks go back to their owners (src/mem/heap.c:301), so nothing happens there
  (`Heap.Allocator.FlushForeign`).
* src/mem/heap.c:1234-1236 says pools that do not fit the table keep their owner; line 1246
  changes it (`Heap.Allocator.MergePools`).
* src/lang/eval.c:1620 says the compiler guarantees the number of arguments of a self-call;
  src/lang/compile.c:313-321 only bounds it (`DirectEval.MissingIsZero`).

## Model

| member | source | states |
|---|---|---|
| `VmCorrect.VmMatchesDirectEvaluation` | src/lang/eval.c:1291-1788 | main result: for every lambda the compiler compiles, every world and every arguments, the machine started on its bytecode halts with exactly the value and world, or the error, that direct evaluation of the body gives, also in every compiled lambda it calls |
| `VmCorrect.SimExpr` | src/lang/eval.c:1291-1788 | from any frame within the stack limits, the code of an expression leaves the same value, world and final slots as evaluating it, the stack exactly one higher and control at the end of that code, or raises the same error |
| `VmCorrect.SimIf` | src/lang/eval.c:1427-1444 | conditional: whichever arm is taken, same result and same stack height; the other arm is jumped over |
| `VmCorrect.SimLet` | src/lang/eval.c:1383-1405 | let: the value stays on the stack and its copy lands in the slot of the name |
| `VmCorrect.SimSeqFrom` | src/lang/eval.c:1391-1398 | a sequence keeps the value of its last form only; no pop ever reaches a local |
| `VmCorrect.SimAll` | src/lang/eval.c:1445-1503 | arguments are evaluated left to right at rising stack heights, and stop at the first error |
| `VmCorrect.SimCall` | src/lang/eval.c:1504-1605 | a call evaluates head, then arguments, then applies |
| `VmCorrect.SimPrim` | src/lang/eval.c:1445-1503 | whichever call instruction was chosen for a builtin, it gets exactly its arguments |
| `VmCorrect.SimFrame` | src/lang/eval.c:1504-1714 | a frame pushed by a call or a self-call, whatever the number of arguments, runs its body and comes back to the caller with the value pushed, nothing else changed |
| `VmCorrect.SimSelfCall` | src/lang/eval.c:1606-1630 | a self-call, with any number of arguments, runs the running lambda in a frame of its own: arguments missing are unset slots, surplus ones stay on the stack below what the body pushes |
| `VmCorrect.ReturnTo` | src/lang/eval.c:1669-1714 | return takes its value from the stack, drops exactly the callee's frame and restores the caller |
| `VmCorrect.SimTry` | src/lang/eval.c:1715-1788 | try: the body's value, or the handler applied to the payload in the frame the failing body left |
| `VmCorrect.Caught` | src/lang/eval.c:1753-1788 | an error at any call depth unwinds to the innermost trap: same frame, stack as high as when the trap was set, payload on top |
| `VmCorrect.ThrowSame` | src/lang/eval.c:1753-1788 | unwinding does not depend on what was pushed since the innermost trap was set |
| `VmCorrect.SimDyn` | src/lang/eval.c:1631-1668 | forms left to dynamic evaluation are handed over whole |
| `VmCorrect.SimHalt` | src/lang/eval.c:1669-1714 | the outermost return ends the run with the value on the stack |
| `CompileCorrect.CompiledReads` | src/lang/compile.c:426-486 | every compiled lambda is laid out as its body demands, read back by a reader that knows nothing of the compiler: each jump lands on the start of an instruction of the right form |
| `DirectEval.HeadsAgree` | src/lang/compile.c:324-346 | a call headed by the name of a builtin means what any other call means, unless a local has that name: then the compiler still takes the builtin |
| `DirectEval.MissingIsZero` | src/lang/eval.c:1606-1630 | a self-call with too few arguments: each parameter left over reads as zero |
| `LangLaws.IfTakes` | src/lang/internal.h:203-209 | what `if` means, for every condition and arms: the second form unless the value of the condition is null, false, 0 or 0.0; then the third, or zero if there is none; an error of the condition is the error of the form |
| `LangLaws.LocalRead` | src/lang/eval.c:1374-1382 | a local name reads the last slot declared for it, zero if it was never stored |
| `LangLaws.GlobalRead` | src/lang/eval.c:1406-1426 | a name that is no local is the builtin of that name, else the global, else an error |
| `LangLaws.LetBinds` | src/lang/compile.c:228-239 | after a `let` its name has the value of its form, and every other name still means what it meant |
| `LangLaws.DoSteps` | src/lang/compile.c:266-273 | a `do` evaluates its forms one after the other, each where the one before left off, and is the last; the first error ends it |
| `LangLaws.EvalSpares` | src/lang/compile.c:284-309 | no evaluation writes a hidden slot it did not reserve itself |
| `LangLaws.TryCatches` | src/lang/eval.c:1715-1788 | a `try` is its body's value, or the handler applied to exactly the payload the body raised, in the slots the body left; a seventeenth inside sixteen is an error |
| `LangLaws.LeftToHost` | src/lang/compile.c:222-226 | `set`, `fn` and other special forms go to dynamic evaluation whole |
| `LangLaws.BuiltinGets` | src/lang/eval.c:1445-1503 | a builtin gets its arguments in their order, as many as its kind takes; with fewer it is an arity error |
| `LangLaws.LeftFirst` | src/lang/eval.c:1464-1486 | of two arguments the left is evaluated first and the right in the world it leaves; the first error is the call's |
| `LangLaws.ValueCalled` | src/lang/eval.c:1504-1605 | a called value: what is no function is a type error; a lambda without bytecode is walked; a compiled one needs a frame within the limits, then as many arguments as it has parameters, and runs its body on them |
| `LangLaws.SelfCalled` | src/lang/eval.c:1606-1630 | a self-call runs the body of the running lambda on its arguments, whatever their number, if a frame is within the limits |
| `LangLaws.BodyIsDo` | src/lang/compile.c:441-447 | the body of a lambda is a `do` of its forms, in slots that hold the arguments in their order and are unset from there on |
| `LangLaws.PlainCall` | src/lang/compile.c:324-346 | a name that is neither a builtin's nor a form's own calls its value |
| `LangLaws.ParameterIsArgument` | src/lang/eval.c:1504-1605 | each parameter of a lambda is the argument in its place |
| `CompileLimits.CompilesExactly` | src/lang/compile.c:426-486 | a lambda whose code can be at most 32767 bytes gets bytecode if and only if its calls have at most 64 arguments each, its `let`s bind names, and it needs at most 256 slots |
| `CompileFacts.PoolDistinct` | src/lang/compile.c:129-158 | no constant that can be shared is twice in the pool of a compiled lambda |
| `CompileCorrect.ExprReads` | src/lang/compile.c:381-423 | the code of an expression reads back as that expression and ends where the compiler stood, also after any later patches |
| `CompileCorrect.ListReads` | src/lang/compile.c:209-378 | the same for every kind of list form |
| `CompileCorrect.IfReads` | src/lang/compile.c:245-269 | both patched jumps of a conditional go to the start of the else arm and to its end |
| `CompileCorrect.TryReads` | src/lang/compile.c:287-309 | the trap goes to the handler code, the jump behind the body to the end, and the hidden slot holds the payload |
| `CompileCorrect.PatchBytes` | src/lang/compile.c:186-192 | a patched offset, read as the machine reads it, is the position patching happened at, and no other byte changes |
| `CompileCorrect.LoadConstantReads` | src/lang/compile.c:117-158 | a constant is found again under the index emitted, narrow or wide |
| `CompileFacts.ExprDeclares` | src/lang/compile.c:381-423 | compiling only appends code and constants, keeps errors, and declares exactly the slots the form's scope says |
| `CompileFacts.ListDeclares` | src/lang/compile.c:209-378 | the same for list forms |
| `CompileFacts.FrameSize` | src/lang/compile.c:426-486 | the frame size recorded is the number of slots the body declares, and at most 256 |
| `Lang.Find` | src/lang/compile.c:161-165 | the last slot declared for a name, or none if there is none |
| `Bytecode.FindConstant` | src/lang/compile.c:129-158 | the first pool entry equal to a constant, if the pool has one it may share |
| `CompilerObject.Compiler.InternConstant` | src/lang/compile.c:129-158 | the index returned holds the constant; earlier entries stay |
| `CompilerObject.Compiler.FindLocal` | src/lang/compile.c:161-165 | the backward loop finds what the recursive search defines |
| `CompilerObject.Compiler.NewLocal` | src/lang/compile.c:167-175 | one more slot and the high-water mark, or none at 256 |
| `CompilerObject.Compiler.EmitWithIndex` | src/lang/compile.c:117-126 | one byte of index below 256, else the wide form |
| `CompilerObject.Compiler.JumpPlaceholder` | src/lang/compile.c:178-184 | three bytes, the offset position returned |
| `CompilerObject.Compiler.Patch` | src/lang/compile.c:186-192 | the two offset bytes written in place, or the error flag when the distance does not fit |
| `CompilerObject.Compiler.Expr` | src/lang/compile.c:381-423 | the recursive compiler on one mutable object leaves exactly the state of its functional specification, whose meaning the lemmas above prove |
| `CompilerObject.Compiler.Form` | src/lang/compile.c:209-378 | the same for list forms |
| `CompilerObject.Compiler.Conditional` | src/lang/compile.c:245-269 | the same for if, with both patches |
| `CompilerObject.Compiler.Try` | src/lang/compile.c:287-309 | the same for try, with the hidden slot |
| `CompilerObject.Compiler.FinishLet` | src/lang/compile.c:232-243 | the same for the tail of let |
| `CompilerObject.Compiler.BuiltinCall` | src/lang/compile.c:355-378 | the call instruction for a builtin's kind and argument count |
| `CompilerObject.Compiler.Sequence` | src/lang/compile.c:270-276 | forms one after the other, a pop between them |
| `CompilerObject.Compile` | src/lang/compile.c:426-486 | for every lambda: the code whose layout is proved above, or none exactly when the compiler gives up |
| `VmObject.Vm.Run` | src/lang/eval.c:1291-1788 | the dispatch loop over arrays and stack pointers goes through exactly the states of the machine that is proved correct |
| `VmObject.Vm.Step` | src/lang/eval.c:1349-1752 | one turn of the loop is one step of that machine |
| `VmObject.Vm.Throw` | src/lang/eval.c:1753-1788 | the unwinding loop: trap by trap until one can take the payload |
| `VmObject.Vm.Unwind` | src/lang/eval.c:1753-1788 | stack, return and trap pointers back to where the trap was set |
| `VmObject.Vm.CallValue` | src/lang/eval.c:1504-1605 | a frame for a compiled lambda with the limit and arity checks in their order, or a call on the spot |
| `VmObject.Vm.SelfCall` | src/lang/eval.c:1606-1630 | the arguments on the stack become the first locals |
| `VmObject.Vm.Return` | src/lang/eval.c:1669-1714 | the result and the caller's frame |
| `VmObject.Vm.Discard` | src/lang/eval.c:1391-1398 | pops a temporary but never a local |
| `VmObject.Vm.Store` | src/lang/eval.c:1383-1390 | the top of the stack into a slot, nothing else changed |
| `VmObject.Vm.Jump` | src/lang/eval.c:1427-1444 | jump, conditional jump and trap set-up |
| `VmObject.Vm.Extend` | src/lang/eval.c:1504-1605 | new locals on top: the arguments, then unset slots |
| `HeapRuns.Serve` | src/mem/heap.c:586-1276 | main result over whole runs: any sequence of allocations, frees, flushes, merges, retirements and collections on any number of heaps leaves the allocator sound and the client's own record equal to what is in use, no two blocks overlapping; the worlds between the calls are a run in which each call did what it is for: blocks handed out unless there is no memory, returned to cache, lists or queue, caches and queues emptied, heaps merged, spare pools given up. All calls are served exactly if every collection's walks keep to their lists, which they do without a pair of buddies to be given back on the collecting heap's lists, in particular if the parallel flag never went up or no heap was merged or retired; else the service ends with a collection that went astray. Without merges and retirements every byte counter is exact |
| `HeapRuns.CollectAll` | src/mem/heap.c:987-1130 | main result: every heap collected once nothing is in use, the parallel flag never having been up, all free memory is in one piece again: each pool is its header and one listed block of each order, and no spare oversized pool is left but a heap's last |
| `HeapReturn.ReturnForeign` | src/mem/heap.c:951-985 | the walks over all lists of a heap, each with its saved successor: they end exactly as the walks on values say, and a walk that goes on at an address inside a merged block is recognised there and then; walks that keep to their lists leave no block that should go to its pool's owner |
| `HeapReturn.ReturnOrder` | src/mem/heap.c:951-985 | the same for the list of one order |
| `HeapReturn.Visit` | src/mem/heap.c:955-982 | one turn: the block handed to the owner of its pool and merged there, if it is away from home; the walk is lost exactly if the block ahead was merged away |
| `HeapReturn.WalksMean` | src/mem/heap.c:951-985 | walks that keep to their lists touch no block in use, cached or queued and leave the invariants intact |
| `HeapReturn.WalksKept` | src/mem/heap.c:951-985 | without two buddies on the heap's lists in a pool to be given back from, every walk keeps to its list |
| `HeapReturn.CalmNoPair` | src/mem/heap.c:180-208 | there are no such buddies if the parallel flag never was up |
| `HeapReturn.CompleteNoPair` | src/mem/heap.c:951-985 | nor if every pool is in its owner's table and every free block with its owner |
| `HeapPairs.KeptExactly` | src/mem/heap.c:951-985 | there is no such pair if and only if the walks keep to their lists for every order the blocks may stand in |
| `HeapStale.RawIsMerged` | src/mem/heap.c:142-208 | merging on the raw links, header bytes and bits does what the merging on values does, as long as these describe a sound state |
| `HeapStale.StaleTurn` | src/mem/heap.c:955-982 | the next turn of a walk gone astray, at an address inside a free block, leaves links and bytes that describe no sound state at all |
| `HeapStale.Strays` | src/mem/heap.c:955-982 | a walk that stands on a merged block goes round another list and never meets the end of its own |
| `HeapStale.NoWayBack` | src/mem/heap.c:955-982 | every walk gone astray comes to one of these two ends |
| `HeapAstray.LedAstray` | src/mem/heap.c:951-985 | a run in which it happens: two buddies of heap 2 queued by heap 1, heap 1 merged into heap 0 while the flag is up, and heap 0 collects; the bytes and links come to one of those two ends |
| `HeapTheorems.PoolsTiled` | src/mem/heap.c:142-346 | the blocks of all pools are size-aligned, never overlap, and cover every address of every pool |
| `HeapTheorems.OnePlace` | src/mem/heap.c:142-346 | no block is in two places: one list once, one slab once, one queue once, or in use |
| `HeapTheorems.AllReturned` | src/mem/heap.c:180-282 | with the parallel flag down throughout, once nothing is in use and caches and queues are empty, every pool is exactly its initial cascade again, one listed block of each order |
| `HeapTheorems.AllFreeIsOne` | src/mem/heap.c:180-208 | in canonical form a stretch that is all free is one block |
| `HeapTheorems.CascadeOnly` | src/mem/heap.c:241-249 | free pool: the header and one block of each order, nothing else |
| `Tiles.BuddyIsTile` | src/mem/heap.h:243-245 | the buddy address of a tile is the start of a tile of no larger order, so its header bytes are never stale |
| `HeapModel.BuddyOfBlock` | src/mem/heap.h:243-245 | the same for the blocks of any pool |
| `Tiles.SplitTiles` | src/mem/heap.c:162-171 | halving a tile keeps the tiling |
| `Tiles.MergeTiles` | src/mem/heap.c:192-205 | joining two buddies keeps the tiling |
| `HeapModel.HeaderBytes` | src/mem/heap.c:197-198 | the rc and order bytes read in the coalescing test tell the truth: rc is 0 exactly for free blocks |
| `FreeLists.FreeList.Init` | src/mem/heap.h:164-167 | an empty ring |
| `FreeLists.FreeList.IsEmpty` | src/mem/heap.h:169-171 | the sentinel points to itself exactly when the list is empty |
| `FreeLists.FreeList.Insert` | src/mem/heap.c:142-148 | four pointer writes put a block in front of one list and touch no other |
| `FreeLists.FreeList.Remove` | src/mem/heap.h:175-178 | two pointer writes take a block off whatever list holds it |
| `FreeLists.FreeList.Splice` | src/mem/heap.c:1206-1229 | six pointer writes put a whole list in front of another |
| `FreeLists.FreeList.BytesWithin` | src/mem/heap.c:1056-1064 | the walk adds up exactly the list's blocks of a region |
| `FreeLists.FreeList.RemoveWithin` | src/mem/heap.c:1099-1111 | the walk with its saved successor unlinks exactly the blocks of a region |
| `HeapSteps.CeilLog2` | src/mem/heap.c:108-111 | the least power of two not below a number |
| `HeapSteps.OrderForSize` | src/mem/heap.c:113-119 | the least order, at least 6, that holds the data and the 32-byte header |
| `Heap.Allocator.InsertBlock` | src/mem/heap.c:142-152 | list, rc, order byte and bit together; all invariants kept |
| `Heap.Allocator.SplitBlock` | src/mem/heap.c:162-171 | down to the wanted order, the upper halves in front of the heap's lists, one of each order |
| `Heap.Allocator.Coalesce` | src/mem/heap.c:180-208 | ends in exactly the state that merging on values gives: free buddies joined while there are any, the result listed with this heap; used blocks keep place, order and status |
| `Heap.Allocator.Absorb` | src/mem/heap.c:192-205 | one turn: the free buddy off its list, wherever it is, and the two joined |
| `Heap.Allocator.AddPool` | src/mem/heap.c:214-257 | refused exactly for a full table, too large an order or no memory; else one listed block of each order in front of its list, header pinned, table extended |
| `Heap.Allocator.InitHeap` | src/mem/heap.c:885-909 | empty lists, stacks, queue and table; registered; counter 0 |
| `Heap.Allocator.PoolOf` | src/mem/heap.h:202-238 | the pool a block lies in, by mask or by walking down over the pools there are |
| `PoolWalk.PoolOf` | src/mem/heap.h:202-238 | the mask and the downward walk on whatever bytes are in memory |
| `PoolWalk.FindsExactly` | src/mem/heap.h:202-238 | main result of the walk: it finds the pool of a block if and only if no 32 MB boundary behind the pool header, up to the block, has bytes that pass for another header reaching the block |
| `PoolWalk.FindsStandard` | src/mem/heap.h:209-211 | so it always does in a pool of the standard size |
| `PoolWalk.LedAway` | src/mem/heap.h:209-211 | a block at such a boundary in a pool of twice the size, with the byte 25 where a header has its pool order: another pool is found |
| `Heap.Allocator.Locate` | src/mem/heap.h:289-297 | the pool of a block, by table or by its header |
| `Heap.Allocator.FindList` | src/mem/heap.c:621-651 | the search over possibly stale bits ends, at the least order with a listed block, asking for at most one pool and then only if no list has one; it fails exactly when there is no memory |
| `Heap.Allocator.Alloc` | src/mem/heap.c:586-678 | a block not in use before, of the least order that fits: the top of the cache, or the first block of the least list that has one, cut down; none exactly when the order is too large or cache, lists, table and system all fail; the counter grows by its size |
| `Heap.Allocator.AllocListed` | src/mem/heap.c:621-677 | the slow path: a pool added only if no list would do, then the first block of the least list that has one, its upper halves in front of their lists, every other list as it was |
| `Heap.Allocator.TakeSlab` | src/mem/heap.c:598-619 | the top of the cache stack |
| `Heap.Allocator.TakeListed` | src/mem/heap.c:653-677 | the first block of the list found, split and handed out |
| `Heap.Allocator.FreeBlock` | src/mem/heap.c:684-764 | the block leaves use and nothing else does; it goes to the top of the cache exactly if ours and there is room, to the front of the queue exactly if another heap owns its pool, else the state is the one that merging on values gives; the counter is debited exactly if the pool is ours |
| `Heap.Allocator.PushSlab` | src/mem/heap.c:731-746 | cached, the counter debited |
| `Heap.Allocator.PushForeign` | src/mem/heap.c:748-757 | queued, no counter touched |
| `Heap.Allocator.FlushSlabs` | src/mem/heap.c:263-282 | all caches of the heap empty, nothing in use changed |
| `Heap.Allocator.FlushForeign` | src/mem/heap.c:295-346 | all queued blocks back with their owners and off the owners' counters; nothing at all unless they may be returned |
| `Heap.Allocator.ReturnFirst` | src/mem/heap.c:303-345 | one queued block: merged and listed with its owner if registered, else here; the owner's counter debited exactly if it is another heap |
| `Heap.Allocator.MergeSlabs` | src/mem/heap.c:1162-1183 | caches move while they fit, the rest is listed |
| `Heap.Allocator.MergeForeign` | src/mem/heap.c:1185-1204 | the queue of the merged heap is listed by the other |
| `Heap.Allocator.MergeLists` | src/mem/heap.c:1206-1232 | every list of the merged heap is empty, its bits clear |
| `Heap.Allocator.MergePools` | src/mem/heap.c:1234-1250 | every pool changes owner; table entries move in order while there is room; no pool ends up in two tables |
| `Heap.Allocator.Merge` | src/mem/heap.c:1147-1251 | everything the merged heap held is the other's, its queue, caches, lists, pools and table entries; nothing in use changes |
| `Heap.Allocator.Unregister` | src/mem/heap.c:1273-1276 | a retired heap leaves the registry and nothing else changes |
| `Heap.Allocator.SetParallel` | src/mem/heap.c:1344-1348 | the flag; once up, buddies may stay apart |
| `HeapBytes.KeepsExact` | src/mem/heap.c:180-208 | counters stay exact when the owner of a pool merges and lists blocks of it |
| `HeapBytes.Credited` | src/mem/heap.c:731-764 | a block leaving use is off its owner's counter, all others unchanged |
| `HeapBytes.ChargeListed` | src/mem/heap.c:653-677 | a block split off and handed out is on the counter of its pool's owner, all others unchanged |
| `HeapBytes.ChargeCached` | src/mem/heap.c:598-619 | the same from the cache |
| `HeapBytes.QueuedKeeps` | src/mem/heap.c:748-757 | queueing a block changes no counter's target |
| `HeapBytes.QueuedAway` | src/mem/heap.c:303-345 | while counters are exact, the owner of a queued block is another live heap, so the local branch of the flush is never taken |
| `HeapBytes.FreshPoolBytes` | src/mem/heap.c:214-257 | a new pool charges nobody |
| `Sums.TilesFill` | src/mem/heap.c:162-171 | the sizes of the tiles of a region add up to it |
| `HeapGc.FullMeansIdle` | src/mem/heap.c:1049-1095 | the bytes found free or cached in a pool reach its capacity less the header exactly when every other block of it is idle |
| `HeapGc.CountTells` | src/mem/heap.c:1054-1071 | the same in terms of what the two counting loops add up |
| `HeapGc.CountListed` | src/mem/heap.c:1055-1064 | the loops over all lists count each free block of the pool once |
| `HeapGc.CountCached` | src/mem/heap.c:1065-1071 | the loops over the slab stacks count each cached block of the pool once |
| `HeapGc.QueuedElsewhere` | src/mem/heap.c:1078-1090 | whether another registered heap has a block of the pool queued |
| `HeapGc.OnlyIdle` | src/mem/heap.c:1049-1095 | the whole test holds exactly when nothing but the header is in use, queued, or with another heap; the walk over the queues never changes the verdict |
| `HeapGc.QueuedNotIdle` | src/mem/heap.c:1078-1095 | a queued block keeps the count below capacity |
| `HeapGc.SweepLists` | src/mem/heap.c:1099-1111 | exactly the pool's blocks leave the lists; a bit goes only with an emptied list |
| `HeapGc.SweepStacks` | src/mem/heap.c:1112-1121 | each stack packed over the pool's entries, order kept |
| `HeapGc.SwapMembers` | src/mem/heap.c:1124-1124 | the last entry fills the gap: the table keeps every other pool, once |
| `HeapGc.UnmappedKeeps` | src/mem/heap.c:1097-1124 | with the pool gone all invariants hold for what remains, and nothing in use was in it |
| `HeapGc.UnmappedBytes` | src/mem/heap.c:1097-1124 | no counter is affected |
| `HeapGc.Unmap` | src/mem/heap.c:1097-1124 | pool, table entry and blocks gone; all else as before |
| `HeapGc.SpareBack` | src/mem/heap.c:1035-1127 | giving up pools never makes another pool reclaimable |
| `HeapGc.ReclaimTable` | src/mem/heap.c:1039-1126 | no reclaimable pool is left in the table unless it is its last; other tables untouched |
| `HeapGc.ReclaimPools` | src/mem/heap.c:1035-1127 | over all registered heaps: only oversized pools with nothing but idle blocks go, all of them but a heap's last go, every other block and table entry stays |
| `HeapGc.Collect` | src/mem/heap.c:987-1130 | collection touches no block in use, leaves the heap's caches empty and no block cached by it, whether workers run or not, empties its queue unless they do, keeps counters exact; the walks of its second phase keep to their lists exactly as said there, surely if buddies were never left apart, or there is no pair, or counters are exact and tables complete; then only oversized pools are given up, until none is left to give up |
| `HeapGc.FlushOwn` | src/mem/heap.c:996-997 | the first two phases: the queue back to the owners if workers are idle, and every stack of the caches empty, no block cached by this heap any more, in any case |
| `HeapGc.CachesAgree` | src/mem/heap.c:263-282 | a heap's stacks are empty exactly if no block is cached by it |
| `HeapGc.ReturnAndReclaim` | src/mem/heap.c:999-1127 | the phases that need idle workers: return, then reclaim |
| `HeapIds.IdsUnique` | src/mem/heap.c:67-97 | for any number of threads and any interleaving of loads, compare-and-swaps (spuriously failing or not) and releases, no two threads hold the same id, none holds 0, and the bitmap says at every moment exactly which ids are held |
| `HeapIds.FromStart` | src/mem/heap.c:67-97 | so it is in every run from program start, for any number of words and threads |
| `HeapIds.AcquiredAlone` | src/mem/heap.c:67-88 | a thread that asks for an id while no other moves gets one if and only if some id is not held: that of the lowest clear bit of the first word that has one, going round from the cursor |
| `HeapIds.FirstIds` | src/mem/heap.c:67-88 | the first two to ask, one after the other, get 1 and 64 |
| `HeapIds.ReleasedAgain` | src/mem/heap.c:90-97 | so an id given back can be had again |
| `HeapIds.LowestClear` | src/mem/heap.c:75-79 | the lowest clear bit of a word |
| `PendingHeaps.EachTakenOnce` | src/mem/heap.c:1273-1301 | over every run of pushes and drains by any threads, heaps merged and heaps still waiting are together exactly the heaps pushed, each once |
| `PendingHeaps.FromStart` | src/mem/heap.c:1273-1301 | so it is in every run from program start; once the stack is empty and no drain is under way, merged and pushed are the same |
| `PendingHeaps.PushedAlone` | src/mem/heap.c:1273-1284 | a heap pushed without interference is the first to be taken |
| `PendingHeaps.DrainedAlone` | src/mem/heap.c:1286-1301 | a drain without interference merges every heap that waited, once each, in the order of the stack, and leaves it empty |
| `PendingHeaps.StepKeeps` | src/mem/heap.c:1273-1301 | every atomic step keeps the links, the lists they spell and the balance |
| `Dispatch.ReadyIsSafe` | src/core/pool.c:56-311 | main result: begun with parked workers and no signal left, every interleaving claims and starts each task at most once, leaves the spin loop only after all have finished, and with each started once unless cancelled |
| `Dispatch.CancelStops` | src/core/pool.c:56-88 | once the query is cancelled no further task is started, by anyone, in any interleaving |
| `Dispatch.SignalsCount` | src/core/pool.c:56-91 | in every run workers let go and signals left over are together the signals there were and those sent, and a dispatch sends as many as there are workers |
| `Dispatch.SafeExactlyWhenReady` | src/core/pool.c:56-311 | those promises hold in all interleavings exactly for such a start; the failing runs are constructed for every other one |
| `Dispatch.NextMayBegin` | src/core/pool.c:264-311 | a finished dispatch leaves a state from which the next may begin |
| `Dispatch.DoneAlone` | src/core/pool.c:264-311 | from every safe start the dispatcher may do all tasks itself before a worker wakes, leaving all its signals behind |
| `Dispatch.SecondMayFail` | src/core/pool.c:56-311 | so after a dispatch that kept all its promises the next one may begin in a state that is not safe, and break them |
| `Dispatch.FirstTwo` | src/core/pool.c:56-311 | from a new pool with any number of workers the first dispatch always keeps its promises, and there is a run of two dispatches in which the second does not |
| `Dispatch.EarlyClaimTwice` | src/core/pool.c:56-88 | a claim made before the new count is stored and compared after it runs a task twice |
| `Dispatch.LostDecrement` | src/core/pool.c:264-268 | a worker let in between the stores of tail and pending loses its decrement |
| `Dispatch.StraySignal` | src/core/pool.c:46-91 | a signal left over lets a worker through too early |
| `Dispatch.InvKeeps` | src/core/pool.c:56-311 | every atomic step keeps the claim bookkeeping |
| `DispatchRing.Ring.Fill` | src/core/pool.c:217-262 | the task ranges in 64-bit arithmetic: they partition the elements if and only if the number of grains fits 32 bits, or its low 32 bits exceed the ring and rounding up the new grain does not overflow; no start or end overflows; with a slot for every grain all grains are 8192 and start at multiples of 8, else each slot has a task and the grain is the number of elements by that of slots |
| `DispatchRing.Served` | src/core/pool.c:223-262 | that condition, from the ranges alone |
| `DispatchRing.GreatestUnserved` | src/core/pool.c:223-262 | the greatest number of elements is one that is not partitioned |
| `DispatchRing.Ring.Grow` | src/core/pool.c:232-243 | doubling to the first size that is enough, or to the greatest; nothing without memory |
| `DispatchRing.Ring.FillOne` | src/core/pool.c:328-405 | one task per partition, as many as the ring takes |
| `DispatchRing.RangesPartition` | src/core/pool.c:251-262 | equal ranges partition the elements exactly when together long enough |
| `DispatchRing.TrailingEmpty` | src/core/pool.c:251-262 | exactly the tasks that start past the end are empty |
| `DispatchRing.TrailingExample` | src/core/pool.c:245-262 | a cut ring does produce such tasks |
| `Calendar.DateOfCivil` | src/io/csv.c:533-541 | the date printed for the day number of a valid date is that date |
| `Calendar.CivilOfDate` | src/io/csv.c:1618-1631 | on numbers of any size every day number prints as a valid date, whose day number it is |
| `Calendar.WrittenDateExactly` | src/io/csv.c:1618-1631 | in 32 bits the date written is that one exactly if the shift by 730425 does not overflow; it is always a valid date |
| `Calendar.LastDayWritten` | src/io/csv.c:1618-1631 | the greatest day number is written with a negative year |
| `Calendar.DatesFollowCalendar` | src/io/csv.c:1618-1631 | day 0 is 2000-01-01 and successive numbers print as successive days of the proleptic Gregorian calendar |
| `Calendar.CivilInjective` | src/io/csv.c:533-541 | no two valid dates share a number |
| `Calendar.CivilNext` | src/io/csv.c:533-541 | the number of the next day is one more, across months, years and eras |
| `CalTable.YmdIsCivil` | src/lang/cal.h:75-82 | the table-driven numbering agrees with the era algorithm exactly from year 1 on |
| `CalTable.DateToYmd` | src/lang/cal.h:49-72 | in 32 bits, for any quotient within 0.4 of the true one, the loop decodes the same date as the era algorithm if and only if neither the offset nor the year start overflows and the day is in year 1 or later or in a year that follows a leap year |
| `CalTable.MonthZero` | src/lang/cal.h:75-82 | a month of 0 is taken for January |
| `CalTable.BeforeYearOneDiffers` | src/lang/cal.h:49-72 | the day before year 1 is one that comes out wrong |
| `CalTable.LastDaysDiffer` | src/lang/cal.h:49-72 | so do the greatest day number, whose offset overflows, and the greatest without that, whose year start may |
| `CalTable.RoundedYear` | src/lang/cal.h:51-56 | the rounded quotient is the year or the one after |
| `CalTable.Slips` | src/lang/cal.h:44-46 | how far division toward zero moves the start of a year below 0 |
| `TimeLiteral.TimestampRoundTrip` | src/lang/format.c:279-317 | every 64-bit timestamp printed and parsed again is the same; the parser's product overflows exactly below day -106751 |
| `TimeLiteral.PrintDate` | src/lang/format.c:300-304 | for years 1 to 9999 the printer, which decodes by table, prints what the era algorithm says |
| `TimeLiteral.PrintTimestamp` | src/lang/format.c:279-317 | the same for every 64-bit timestamp |
| `TimeLiteral.DateRoundTrip` | src/lang/format.c:300-304 | dates from year 1 to 9999 printed and parsed again are the same |
| `TimeLiteral.TimeRoundTrip` | src/lang/format.c:265-311 | any 32-bit time survives exactly if below a hundred hours either way |
| `TimeLiteral.LeastTime` | src/lang/format.c:265-277 | the least time prints as --596:-31:-23.-648 |
| `TimeLiteral.TimeRead` | src/lang/parse.c:143-176 | every time text: two digits each of hours, minutes and seconds, with or without a sign, and none to three digits of a fraction, reads as that many milliseconds, the fraction being their number however many digits it has |
| `TimeLiteral.FiveForHalf` | src/lang/parse.c:161-172 | so 00:00:00.5 is five milliseconds |
| `TimeLiteral.LiteralKinds` | src/lang/parse.c:179-285 | which texts begin with a time, which with a date, which with a timestamp, and which are an error |
| `TimeLiteral.StampFraction` | src/lang/parse.c:257-265 | a fraction of any number of digits behind a timestamp is cut, or padded, to nanoseconds |
| `TimeLiteral.ParseNumber` | src/lang/parse.c:179-285 | the loops of the number parser, dates, timestamps and times, on every text |
| `TimeLiteral.ParseClock` | src/lang/parse.c:242-270 | the clock part of a timestamp |
| `TimeLiteral.ReadNanos` | src/lang/parse.c:257-265 | the first nine fractional digits, padded |
| `TimeLiteral.SkipDigits` | src/lang/parse.c:216-219 | the maximal run of digits |
| `TimeLiteral.PastTableExactly` | src/lang/parse.c:220-240 | the parser reads beyond the table of months exactly for texts that begin like a date with a month above 13 |
| `TimeLiteral.MonthFourteen` | src/lang/parse.c:220-240 | 2024.14.01 is one |
| `CsvTime.CsvDateRoundTrip` | src/io/csv.c:1618-1631 | CSV dates with a four-digit year are read back |
| `CsvTime.CsvTimestampRoundTrip` | src/io/csv.c:1650-1673 | every 64-bit timestamp can be written and is read back; the reader's 64-bit product stays in range exactly from day -106751 on |
| `CsvTime.LeastStampOverflows` | src/io/csv.c:1650-1673 | the least timestamp is one for which it does not |
| `CsvTime.CsvTimeRoundTrip` | src/io/csv.c:1633-1648 | any 32-bit time is read back exactly if it is one of a day |
| `CsvTime.CsvTimeText` | src/io/csv.c:1633-1648 | what is written for any time of less than a hundred hours, character by character |
| `CsvTime.CsvTimestampText` | src/io/csv.c:1650-1673 | what is written for a timestamp: its date, a T, its clock and nine digits if it has a fraction of a second |
| `CsvTime.TimeFieldExactly` | src/io/csv.c:554-602 | which fields are read as a time, and as which one, for any separators and a fraction of any length |
| `CsvTime.DateFieldExactly` | src/io/csv.c:543-551 | which fields are read as a date: month and day are only compared with 12 and 31 |
| `CsvTime.LateFebruary` | src/io/csv.c:543-551 | so 2023-02-31 is read as the third of March |
| `CsvTime.StampFieldExactly` | src/io/csv.c:604-614 | a timestamp field is a date, any one character and a time |
| `CsvTime.ReadFraction` | src/io/csv.c:581-602 | the loop over fractional digits |
| `CsvTime.ReadTimeField` | src/io/csv.c:554-602 | the two clock readers on every text |
| `CsvLines.FileRoundTrip` | src/io/csv.c:1809-1882 | any table of string columns written and read gives the names and every cell, up to empty strings and a last carriage return |
| `CsvLines.UnchangedExactly` | src/io/csv.c:1593-1616 | it comes back unchanged exactly without empty strings and without a last string ending in a carriage return |
| `CsvText.FieldScan` | src/io/csv.c:247-328 | a written field in front of a delimiter, of either line end or of the end of the file is scanned back, and the scan stops right behind it |
| `CsvText.QuotedField` | src/io/csv.c:247-305 | a quoted field whatever follows its closing quote: only a delimiter is passed over |
| `CsvText.UnclosedField` | src/io/csv.c:247-305 | a quoted field that is not closed is the rest of the file |
| `CsvText.UnclosedRows` | src/io/csv.c:687-705 | and no row begins in it |
| `CsvLines.AnyRows` | src/io/csv.c:643-722 | main result: a file whose rows end in newlines, in carriage returns with newlines or in carriage returns, of any widths, the last row with or without an end: names and cells are those of the text if and only if rows do not end in carriage returns alone, or there is at most one, or a quote |
| `CsvLines.OffsetsOfTable` | src/io/csv.c:643-722 | the rows of such a text are found exactly where they start, by quote parity or by plain newlines, on the same condition |
| `CsvText.SplitsAgree` | src/io/csv.c:643-722 | both ways of splitting agree without quotes and carriage returns |
| `CsvText.UnescapeEscape` | src/io/csv.c:1593-1616 | doubling quotes is undone by the scanner's collapse |
| `CsvLines.HeaderRead` | src/io/csv.c:1184-1219 | the header line is counted and read back, and passed over with whichever line end it has |
| `CsvLines.WrittenExactly` | src/io/csv.c:1593-1616 | a string is written as it is exactly without comma, quote and line end, else between quotes |
| `CsvLines.SmallFile` | src/io/csv.c:1809-1882 | one whole file, character by character |
| `CsvLines.CellKept` | src/io/csv.c:859-995 | what is read for a cell that does not come back itself |
| `CsvFile.Writer.WriteStr` | src/io/csv.c:1593-1616 | the copy loop writes the quoted or plain form |
| `CsvFile.Writer.WriteFile` | src/io/csv.c:1809-1882 | header and rows in order |
| `CsvFile.Collapse` | src/io/csv.c:247-305 | the copy loop that makes one quote of two |
| `CsvFile.ScanQuoted` | src/io/csv.c:247-305 | the quoted scanner on every input, closed or not |
| `CsvFile.Scan` | src/io/csv.c:307-328 | the field scanner on every input |
| `CsvFile.BuildRowOffsets` | src/io/csv.c:643-722 | row starts on every input, as defined by the functions that `CsvLines.AnyRows` is about |
| `CsvFile.Columns.Store` | src/io/csv.c:966-988 | one cell, its null bit and the worker's flag; nothing else |
| `CsvFile.ParseRow` | src/io/csv.c:859-995 | one row filled as the file says, no other row or bit changed |
| `CsvFile.ParseSerial` | src/io/csv.c:1001-1139 | the serial reader fills every cell, bit and flag as the file says |
| `CsvFile.ParseTasks` | src/io/csv.c:1416-1424 | the tasks one after the other, in any order and by any workers, give the same cells, null bits and flags as the serial reader |
| `CsvRaces.KeptExactly` | src/io/csv.c:969-972 | for programs that write a byte only right after reading it: a run loses no bit if and only if no task ever writes a byte that another has read and not yet written back |
| `CsvRaces.StepKeeps` | src/io/csv.c:859-995 | every single step of any task keeps what the tasks have done so far in memory, and nothing else |
| `CsvRuns.SafeExactly` | src/core/pool.c:56-88 | over all runs of a pool, tasks claimed in order and finished one by one by their workers: every run keeps every bit if and only if no byte is written by two tasks, or the pool has one thread |
| `CsvRuns.LosingRun` | src/core/pool.c:56-88 | if two tasks write a byte, the run in which two threads lose one of its bits |
| `CsvParallel.SideBySide` | src/io/csv.c:859-995 | main result: with the steps of all tasks in any order, each store, each reading and each writing of a byte a step of its own, every cell and null flag comes out as the file says, and so do all bits of cells that are not null; those of null cells do if and only if no task ever writes a byte that another has read and not yet written back |
| `CsvParallel.RightExactly` | src/io/csv.c:859-995 | main result: every run of the pool fills the columns as the file says if and only if no column has null rows of two tasks in one byte, or the pool has one thread |
| `CsvParallel.ApartExactly` | src/core/pool.c:251-262 | no byte has rows of two ranges of a dispatch if and only if the grain is a multiple of 8, or there is one task, or the first takes everything |
| `CsvParallel.EveryFileExactly` | src/core/pool.c:251-262 | that is exactly when the ranges are safe for every file with so many rows; for all others a file with two nulls is constructed |
| `CsvParallel.ParseOnRing` | src/io/csv.c:1389-1424 | the rows of a file dispatched over a ring: with a slot for every grain every run reads the file right, and a ring that can grow has one for each of up to 65536; otherwise every run does exactly if no column has null rows of two tasks in one byte |
| `CsvParallel.SerialAndParallel` | src/io/csv.c:1389-1424 | with a slot for every grain each run of the pool leaves the cells, null bits and null flags the serial reader leaves |
| `CsvParallel.WrittenTable` | src/io/csv.c:1809-1882 | the rows and cells of a written table, as the reader's tasks see them |
| `CsvParallel.LostBit` | src/io/csv.c:969-972 | a file and a run that fail: 8388609 rows on a ring of 1024 slots that could not grow, nulls in rows 8192 and 8193; two threads are enough, one of the two bits is lost and no other |
| `CsvFile.Read` | src/io/csv.c:1145-1434 | refused exactly for an empty file and above 256 columns; else names, rows and cells of the file, the null bits those of the empty cells and the null flag of a column set exactly if it has one |
| `CsvDetect.DetectDelimiter` | src/io/csv.c:1175-1183 | the loop over the first line, quotes or not: tab if it has more tabs than commas, else comma |
| `CsvDetect.DetectedExactly` | src/io/csv.c:1175-1183 | a written file is taken for comma-separated if and only if the first line of its names joined by commas has no more tabs than commas |
| `CsvDetect.NoTabs` | src/io/csv.c:1175-1183 | names without tabs are enough |
| `CsvDetect.TabInName` | src/io/csv.c:1175-1183 | one column with a tab in its name is a file that is not |
| `CsvDetect.WriteThenDetect` | src/io/csv.c:1175-1434 | written and read without naming the delimiter: the cells come back if the comma is picked, which is so exactly under that condition |
| `CsvFile.WriteThenRead` | src/io/csv.c:1145-1434 | the two programs one after the other lose nothing but what the writer's format cannot say |
| `IpcCodec.CodecRoundTrip` | src/core/ipc.c:55-141 | decoding a code into a buffer of the original length gives the original |
| `IpcCodec.UndeltaSums` | src/core/ipc.c:131-137 | each byte decoded is the sum of the differences up to it, modulo 256 |
| `IpcTokens.TokensExpand` | src/core/ipc.c:103-130 | a code made of runs of 1 to 127 and literals of up to 128 stands for what these add up to |
| `IpcTokens.ExpandTokens` | src/core/ipc.c:103-130 | and whatever is decoded is what such tokens at the front of the code stand for: the whole code, or as many as fill the buffer |
| `IpcTokens.EncodedExactly` | src/core/ipc.c:68-96 | the code chosen is the only one whose runs are of equal differences, at least two and as many as there are up to 127, and whose literals have no two equal neighbours and end only at 128, at a run or at the end |
| `IpcCodec.EncodedBound` | src/core/ipc.c:55-101 | the code is at most a third longer: 3n <= 4 len + 2 |
| `IpcCodec.Compress` | src/core/ipc.c:55-101 | the loops write exactly the code, or yield 0 for a short input, a full buffer or no gain |
| `IpcCodec.Decompress` | src/core/ipc.c:103-141 | the loops decode any code, or yield 0 for one that breaks off, overruns the buffer or stands for nothing |
| `IpcCodec.Transfer` | src/core/ipc.c:55-141 | whatever the compressor yields the decompressor turns back |
| `IpcWire.HeaderRoundTrip` | src/core/ipc.c:183-234 | a header written is read back |
| `IpcWire.BodyOpens` | src/core/ipc.c:236-282 | a payload wrapped, compressed or not, is unwrapped to itself |
| `IpcWire.BodyExactly` | src/core/ipc.c:196-216 | a payload is sent compressed exactly if it has more than 2000 bytes and its code with four bytes of length is shorter |
| `IpcWire.OpenedExactly` | src/core/ipc.c:236-258 | which compressed bodies are opened, and to what: those that announce what their tokens stand for, 1 to 2^28 bytes |
| `IpcWire.HeaderBytes` | src/core/ipc.c:224-233 | the sixteen bytes of a header, one by one |
| `IpcWire.AcceptedExactly` | src/core/ipc.c:540-555 | a header is accepted if and only if it begins with the four bytes of the prefix and its size is 1 to 2^28; the other fields are read from their bytes |
| `IpcConn.StreamMeaning` | src/core/ipc.c:520-629 | byte by byte, a connection logs and closes exactly as reading its whole stream at once says |
| `IpcConn.FeedAppend` | src/core/ipc.c:609-629 | feeding in two parts is feeding at once |
| `IpcServer.Conn.OnReadable` | src/core/ipc.c:609-629 | one receive moves the connection as its bytes do, one by one; none closes it |
| `IpcServer.Conn.Dispatch` | src/core/ipc.c:520-607 | the phase handlers, on a full buffer |
| `IpcServer.Receive` | src/core/ipc.c:609-629 | however the stream is cut, the legacy connection delivers and closes as the whole stream says |
| `IpcPoll.Selector.OnReadable` | src/core/epoll.c:181-228 | one readable event serves exactly what its bytes amount to |
| `IpcPoll.Selector.RxRequest` | src/core/poll.c:66-79 | the buffer reused or replaced, empty |
| `IpcPoll.Selector.Read` | src/core/ipc.c:352-451 | the read callbacks, on a full buffer, without credentials |
| `IpcPoll.Serve` | src/core/epoll.c:181-228 | without credentials the poll-driven connection delivers and closes as the legacy one, for any events and cuts |
| `IpcSession.Exchange` | src/core/ipc.c:843-901 | messages within the limit sent to a server without a secret arrive one by one, decompressed and in order, however the stream is cut |
| `IpcSession.LoginAccepted` | src/core/ipc.c:903-950 | a right password is accepted exactly when the user has no colon and user, colon and password take at most 254 bytes; at 255 the length byte wraps to 0 and the server hangs up |
| `IpcSession.CredentialsJudged` | src/core/ipc.c:165-181 | the password is what follows the first colon |
| `IpcSession.JudgedExactly` | src/core/ipc.c:165-181 | any credentials of at most 255 bytes, with a colon or without, are accepted if and only if what follows the first colon, or all of them, less one zero byte at the end, is the password |
| `IpcSession.NothingBeforeLogin` | src/core/ipc.c:520-607 | main result: a server with a password of 1 to 255 bytes, none of them 0, asks for it, and delivers no message before it has accepted credentials, whatever it is sent |
| `IpcSession.Refused` | src/core/ipc.c:576-607 | wrong credentials end the connection, whatever follows them |
| `IpcSession.NeverAsks` | src/core/ipc.c:520-538 | a server without a password never asks for nor judges any |
| `IpcSession.LoginThenExchange` | src/core/ipc.c:520-629 | a whole session over a cut stream: handshake, the right credentials, then messages, and all of them arrive in order |
| `IpcSession.DroppedExactly` | src/core/ipc.c:540-555 | when the first header of a stream of messages ends the connection |
| `Ownership.LiveIsReachable` | src/mem/cow.c:36-63 | with right counts and no cycles the objects there are exactly those reachable from outside holders; none without holders |
| `Ownership.NothingDangles` | src/mem/heap.c:364-444 | no object refers to one that is gone |
| `Ownership.NoGarbage` | src/mem/heap.c:364-444 | every object is reached from a holder |
| `Ownership.UnownedUnseen` | src/mem/cow.c:69-79 | replacing objects nobody else owns, or adding some, changes no one else's view |
| `Ownership.ViewTells` | src/mem/cow.c:69-79 | what a view is: equal ones agree on every object that can be reached, however far down |
| `Ownership.OwnsExactly` | src/mem/heap.c:364-444 | an object owns each address as often as its fields hold it, and never 0 |
| `RefCount.Memory.Retain` | src/mem/cow.c:36-43 | one more holder, one more count |
| `RefCount.Memory.Release` | src/mem/cow.c:49-63 | one holder less; the object goes exactly with its last count; counts stay right all through the recursion, which ends |
| `RefCount.Memory.ReleaseExactly` | src/mem/cow.c:49-63 | frees exactly what no holder reaches any more and leaves the rest untouched |
| `RefCount.Memory.Free` | src/mem/heap.c:684-692 | pinned at one while what it owns is released, then gone, once |
| `RefCount.Memory.ReleaseOwned` | src/mem/heap.c:364-444 | every owned reference given up once |
| `RefCount.Memory.RetainOwned` | src/mem/heap.c:446-517 | every owned reference retained once |
| `RefCount.Memory.Copy` | src/mem/heap.c:770-808 | the same slots, counts right, the copy its own |
| `RefCount.Memory.Cow` | src/mem/cow.c:69-79 | the object itself for its only holder, else a copy of count one |
| `RefCount.Memory.CowThenSet` | src/mem/cow.c:69-79 | writing an element of a vector through it leaves every other holder's view as it was |
| `RefCount.Memory.Move` | src/mem/heap.c:818-863 | the object in a larger block: what it owned is the new block's, the old one is gone, no count of anything else moves |
| `RefCount.Memory.Writable` | src/mem/cow.c:69-79 | the object to write to: itself for its only holder with room, else a copy or the block it moved to; nobody else sees it, every other object is seen as before |
| `RefCount.Memory.VecAppend` | src/vec/vec.c:108-147 | the vector with one element more: in place for its only holder with room, else in a copy or a larger block; nobody else's view changes |
| `RefCount.Memory.AddColumn` | src/table/table.c:86-130 | a column added to a table, table and schema each in place, copied or moved to a larger block: written in place only if nobody else holds them, the column retained; every other object still there is seen as before, gone are at most the blocks moved out of, and counts stay right |

## Left out

- Builtins, dynamic forms and calls into the tree walker are uninterpreted; which names are builtins is fixed for a whole run.
- VmCorrect.VmMatchesDirectEvaluation: the meaning is direct evaluation over one flat frame, not the tree walker itself, which opens a scope for `do` (src/lang/eval.c:1102), asks locals first for the head of a call, checks the number of arguments of every call, and hands a handler the raised value where the machine hands over its own payload (src/lang/eval.c:112-115, src/lang/eval.c:1771-1776); running out of stack is an error of the meaning too. A lambda the compiler gives up on is the tree walker's, here as in the code.
- CompilerObject.Compile: a pool of more than 65536 constants falls to the tree walker in the model, where the code would truncate the index; so does a `let` whose target is not a name, where the code takes the bytes of the target for a symbol; typed nulls, debug spans, interrupts and reference counts of the machine's values are not modelled, and floats are reals.
- CompileLimits.CompilesExactly: only one way for lambdas whose code may be longer than 32767 bytes (`CompileLimits.CompiledEncodable`), where a jump may be out of reach.
- Heap.Allocator.Merge: a pool that no longer fits the table changes owner and is dropped from it, as the code does with assertions off; byte counters after a merge are the sum of the two and no more exact, since the merge does not debit the blocks it takes from the queue.
- HeapGc.Collect: the release of pages is not modelled. A collection whose walk goes astray ends there; `HeapStale.NoWayBack` says what the code's next turn does to the bytes and links, but not every later step.
- Heap.Allocator.PoolOf: for blocks of oversized pools the walk asks which addresses start a pool, where the code looks for header bytes in memory that may be a caller's; `PoolWalk.FindsExactly` says when the two agree.
- HeapRuns.Serve: a heap that is merged keeps its id and registration in the model, and its record is never freed.
- Heap.Allocator.FreeBlock: mapped files, arena blocks and errors are passed over by the code before the part modelled; a block freed is one in use.
- Heap destruction, peak and hit statistics, and the scratch arena.
- HeapIds.IdsUnique: sequential consistency; weaker memory orders are not modelled, here or in the other interleaved models.
- Dispatch.ReadyIsSafe: the parallel flag and the switch to atomic counting are not steps of the model; pool creation and shutdown are left out, and threads are not promised to run.
- CsvFile.ParseTasks: tasks are taken one at a time in any order; `CsvParallel` is about all interleavings.
- CsvParallel.RightExactly: a field is scanned in the step that stores it. The tasks are those of one dispatch that keeps its promises, none cancelled: claimed in order, each once, and each finished by its worker before that claims the next; `Dispatch.SafeExactlyWhenReady` says when a dispatch does.
- CsvFile.Read: string columns with commas between them and a header line; type inference, tab-separated files, numeric and boolean columns, string interning and failing allocations are left out.
- CsvTime.CsvDateRoundTrip: years from 0 to 9999, the width the reader looks at; other years print with more characters or a sign.
- TimeLiteral.ParseNumber: only the date, timestamp and time branches; numbers, strings and symbols, and where a malformed literal leaves the parser, are left out.
- IpcPoll.Serve: without credentials only; in the credential phase of the poll-driven loop the second request drops the length byte (src/core/ipc.c:379-381, src/core/poll.c:71-78).
- IpcServer.Receive: sockets are the bytes received and their cuts; peer close, failing allocation, the connection table and the evaluation of delivered messages are left out.
- RefCount.Memory.AddColumn: failing allocations, and tables without a schema; whether a block is full, and where the next one is, are parameters.
- RefCount.Memory.Cow: typed vectors and tables only; the copy of a list or lambda has no payload (src/mem/heap.c:773-793). The 32-bit width of counts, atomic counting, arena objects and a failing copy are left out; what a slice shows is its parent.
- The executor, optimizer, joins, the graph algorithms, the prompt and the display.
