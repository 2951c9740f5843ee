# DotNetAnywhere, verified

This project models six parts of the DotNetAnywhere runtime in Dafny and proves what they promise each other. Everything
is told for the 32-bit little-endian configuration: pointers and `U32` take four bytes.

* **Managed heap** (`HeapEntries`, `AaTree`, `AaRuns`, `HeapTree`, `Marking`, `Finalizers`, `Sweeping`, `ManagedHeap`,
  `FinalizerLife`). Every object is a node of an Andersson tree ordered by address. The methods relink the nodes in place
  and are proved against the pure functions of `AaTree`; those are proved to keep the level rules, the order and the set of
  nodes over every run. Marking is proved to reach a fixed point that is exactly reachability, sweeping to free exactly what
  is unreachable and finalized, and the heap object to keep its accounts and the life cycle of finalizable objects.
* **Translator and interpreter** (`MachineInts`, `IntegerOps`, `Cil`, `Assembly`, `Interpreter`, `Translator`, `Layout`,
  `Simulation`, `TypeTracking`, `TypeSoundness`, `EmittedCode`, `Translation`, `Correctness`, `CountDown`, `Choice`, `Jitter`,
  `TimeSlices`, `FramesInMemory`, `Leftovers`, `CallExample`, `LeftoverExamples`, `TailCallExample`). `Cil` is the typed
  machine of ECMA-335 Partition III for integers and branches, on values, and `Assembly` how its instructions are written;
  `Interpreter` is the untyped one of the runtime, on words. The single pass is proved to translate the one into the other;
  `CountDown` and `Choice` apply this to a method with a loop and one with a switch. `TimeSlices` has calls, the memory that
  frames lie in, and slices; `FramesInMemory` tells what that memory says.
* **Type identity** (`Signatures`, `TypeTable`, `TypeIdentity`, `SignatureReader`, `MethodSignatures`, `ParameterLayout`).
  Signature blobs, the table that interns arrays and generic instances, and the comparison of methods by addresses.
* **Virtual methods** (`VirtualMethods`, `FillOrder`, `VirtualTables`). Slots, tables, the order in which classes are filled
  in, and dispatch.
* **Threads** (`SyncBlocks`, `Monitors`, `Scheduler`, `WeakReferences`). Locks, waiting, scheduling and weak references.
* **String replacement** (`StringReplace`).

`Options` holds the option type and a stack, `Powers` the powers of two.

## What the code does not do

The proofs follow the code. Where it falls short of its standard or its own comments, one lemma says exactly when, and
another gives an input. Only for what is left in memory the condition is sufficient and no more: whether a run ever takes
a path that loads before it stores cannot be told from the code of the methods.

* `stloc` and `starg` do not truncate to a small type. The interpreter agrees with the standard exactly when the value stored
  is one of the type (`Correctness.StoreAgreesExactlyWhenItFits`, `Correctness.ArgumentStoreAgreesExactlyWhenItFits`). 300
  stored in a byte stays 300 (`Correctness.StoringIntoAByte`).
* After an unconditional branch the tracked type stack is restored from the copy kept for the next instruction, and no copy
  is kept for a branch to that very instruction. The pass is right exactly when no such branch is harmful
  (`TypeTracking.PassIsRightExactlyWhenHarmless`). In a method that loads a number, branches to the next instruction and
  returns, it is harmful (`TypeTracking.PassForgetsNumber`).
* The heap limit set after a collection leaves the promised room exactly when the largest limit that may be chosen does not
  wrap around (`ManagedHeap.LimitLeavesRoom`, `ManagedHeap.LimitBelowTheHeap`).
* A collection may leave entries that refer to freed ones. It leaves none exactly when what is kept without having been
  searched, which is what is pinned or waits for its finalizer, refers to survivors only
  (`ManagedHeap.NothingDanglesExactlyWhen`). An object that only an object waiting for its finalizer refers to is freed
  before that finalizer runs (`ManagedHeap.FinalizerMeetsFreedObject`).
* Suppressing the finalizer of an object that is queued or being finalized breaks the life cycle, and only that does
  (`ManagedHeap.Heap.SuppressFinalize`): a queued object can then be freed (`ManagedHeap.SuppressedTooLate`).
* The memory of a new frame is not cleared. If every path through every method stores each local before it loads it, what
  was there makes no difference (`Leftovers.MemoryPlaysNoPart`), and neither does where the run is cut into slices, although
  saving a thread writes to that memory (`Leftovers.SavingPlaysNoPart`). `ldloc.0; ret` returns whatever was there
  (`LeftoverExamples.LeftoverIsSeen`), and a program that reads an old frame header gives one result in one slice and
  another in two (`LeftoverExamples.SaveIsSeen`).
* A tail call lays the new frame in the place of its caller's without asking whether it fits. The frames stay in the chunk
  exactly when no such frame is too large for what is left of it (`TimeSlices.StepFits`). A method with 12,490 words of
  locals, called like this, loads the word that says where the frames end (`TailCallExample.TailCallRunsOver`,
  `TailCallExample.LoadsOfs`).
* A pointer type in a signature does not consume the type pointed to, and at general arrays, pointers to functions, typed
  references, custom modifiers, pinned variables and sentinels the reader crashes. Types and method signatures are read
  back, with the cursor behind them, exactly when none of these occurs in them (`Signatures.RoundTripExactlyWhenReadable`,
  `MethodSignatures.MethodRoundTrip`). Of `int32*` the `int32` is left over (`Signatures.PointerToInt32`), and `int32[,]` and
  a method that takes it are not read at all (`Signatures.ArrayOfInt32Crashes`, `MethodSignatures.ArrayParameterCrashes`).
* Methods are compared with void and all variables without a known argument erased, and arrays of them erased to
  `System.Array`: they compare equal exactly when the rest is equal (`MethodSignatures.KeysAreErasedSignatures`). The
  comparison tells a well-formed method from every other one exactly when there is no second variable, no void and no array
  to mistake anything in its signature for (`MethodSignatures.ComparesExactlyWhenCertain`). For a method that is not generic
  it always does, among classes whose arguments are known (`MethodSignatures.WithoutVariablesComparesExactly`). Four
  well-formed pairs that it takes for equal are in `MethodSignatures.VariablesCompareEqual`.
* A class is flagged as filled in long before it has its table, and a class derived from it that is filled in meanwhile does
  not find that table. Every class finds the table of its parent, whatever is filled in first, exactly when no class leads,
  through its parent or a field and on through any types but itself, to one derived from it
  (`FillOrder.TablesAreThereExactlyWhenSheltered`). If `A` has a field of type `B` derived from `A`, filling in `A` first
  fails and filling in `B` first does not (`FillOrder.FieldOfDerivedType`).
* A thread that does not get its turn for 2^31 milliseconds after its sleep is over sleeps again
  (`Scheduler.SleepsAsLongAsAsked`), and one that waits for a lock with a limit waits on (`Monitors.WaitsAsLongAsAsked`).
* A thread that leaves a monitor for the last time leaves it to others exactly when the object has no weak reference
  (`Monitors.LastExitFreesExactlyWithoutWeakReferences`, `Monitors.LeftButTaken`).
* The search for the next thread may go round for ever. While no thread runs, with a clock that goes on, it ends exactly when
  the previous thread is still running, or some running thread waits for nothing, for a time, for a lock that is free or for
  which it does not wait for ever, or for something that comes (`Scheduler.SearchEndsExactlyWhen`). A list on which it never
  ends is in `Scheduler.SearchGoesRoundForEver`.
* Replacing tries positions behind the end of the text exactly when the pattern is at least two longer than the text
  (`StringReplace.PositionsAreInTheTextExactlyWhen`, `StringReplace.BehindTheEnd`), and allocates enough for the result
  exactly when the block fits, the header of the heap entry included (`StringReplace.SizedExactlyWhenItFits`). A result whose
  characters fit and whose block does not is in `StringReplace.HeaderWrapsAround`.

## Model

| member | source | states |
|---|---|---|
| AaTree.InsertLevels | DotNetAnywhere/Heap.c:206-219 | insertion keeps the level rules and raises the root by at most one level |
| AaTree.RemoveLevels | DotNetAnywhere/Heap.c:221-261 | deletion keeps the level rules, with the node-swap and the rebalancing by skews and splits, and lowers the root by at most one level |
| AaTree.BalanceLeft | DotNetAnywhere/Heap.c:173-185 | when the left subtree has lost a level, lowering and rebalancing give a valid tree again |
| AaTree.BalanceRight | DotNetAnywhere/Heap.c:173-185 | the same when the right subtree has lost a level |
| AaRuns.InsertAdds | DotNetAnywhere/Heap.c:206-219 | insertion adds that node and no other, keeps the order by address, and adds its size |
| AaRuns.RemoveTakes | DotNetAnywhere/Heap.c:221-261 | deletion takes that node and no other and keeps the order, whether it is present or not |
| AaRuns.RemoveRoot | DotNetAnywhere/Heap.c:226-247 | although the swap puts the deleted node out of order below its heir, deleting it from there leaves the tree ordered |
| AaRuns.LevelBounds | DotNetAnywhere/Heap.c:96 | a tree of level n has at least 2^n - 1 nodes and no path of more than 2n nodes |
| AaRuns.ValidTreesAreShallow | DotNetAnywhere/Heap.c:335-392 | in a 32-bit address space a level never leaves its byte and no path has more than 64 nodes, so that 80 slots suffice |
| AaRuns.RunsKeepValid | DotNetAnywhere/Heap.c:206-261 | over every run of insertions and deletions the tree stays valid and holds exactly the nodes inserted and not deleted |
| HeapTree.TreeSkew | DotNetAnywhere/Heap.c:152-160 | relinking in place gives the skewed tree |
| HeapTree.TreeSplit | DotNetAnywhere/Heap.c:162-171 | relinking in place gives the split tree, its root one level up in a byte |
| HeapTree.TreeBalance | DotNetAnywhere/Heap.c:173-185 | relinking in place gives the rebalanced tree |
| HeapTree.TreeInsert | DotNetAnywhere/Heap.c:206-219 | the recursive insertion in place gives the tree with the entry inserted |
| HeapTree.SwapWithHeir | DotNetAnywhere/Heap.c:226-244 | the heir is found through the right links and changes places with the node to be deleted, links and level |
| HeapTree.TreeRemove | DotNetAnywhere/Heap.c:221-261 | the recursive deletion in place gives the tree with the entry deleted |
| HeapTree.TreeSearch | DotNetAnywhere/Heap.c:187-204 | finds the one entry whose closed extent contains the address, and nil exactly when there is none |
| Marking.HeapRoots.SetRoots | DotNetAnywhere/Heap.c:452-463 | an area of memory is put on the stack of roots, which grows when it is full |
| Marking.ReachableIsLeast | DotNetAnywhere/Heap.c:263-331 | no set closed under following references leaves out anything reachable |
| Marking.OthersAreNotFollowed | DotNetAnywhere/Heap.c:304-324 | nothing is reached through an entry whose type is no pointer, object or value type, or is the string type, that of weak references, or an array of anything else |
| Marking.Mark | DotNetAnywhere/Heap.c:263-331 | marking ends, and marked are exactly the pinned nodes and those reachable from the roots through unpinned nodes of a searched type |
| Marking.SearchLast | DotNetAnywhere/Heap.c:280-329 | one round makes progress although an area that led to new roots stays on the stack: fewer nodes are unmarked, or fewer areas are left |
| Finalizers.FinalizerQueue.AddFinalizer | DotNetAnywhere/Finalizer.c:45-51 | the queue grows by the object, doubling its array when full |
| Finalizers.FinalizerQueue.GetNextFinalizer | DotNetAnywhere/Finalizer.c:53-58 | takes the object added last |
| Sweeping.Visit | DotNetAnywhere/Heap.c:350-384 | what the sweep does to one node: unmark it, queue it, or put it on the deletion list |
| Sweeping.Walk | DotNetAnywhere/Heap.c:335-392 | the walk with 80 slots visits every node once and queues, lists and counts exactly the right ones |
| Sweeping.DeleteAll | DotNetAnywhere/Heap.c:394-402 | exactly the listed nodes leave the tree, and the node and byte counts follow |
| ManagedHeap.BytesWithin | DotNetAnywhere/Heap.c:98-107 | disjoint blocks in a 32-bit address space make byte and node counts that cannot wrap around |
| ManagedHeap.MarkThenSweep | DotNetAnywhere/Heap.c:405-432 | marking and then sweeping frees exactly the unreachable unpinned nodes that need no finalizer, queues exactly those that still need one, and restores all marks |
| ManagedHeap.CollectionKeepsOrder | DotNetAnywhere/Heap.c:357-366 | after a collection the finalizer queue still holds live objects in state 2, each once |
| ManagedHeap.LivingKeepAlive | DotNetAnywhere/Heap.c:304-324 | whatever a reached entry refers to survives, if the entry is not pinned and its type is one of those searched, told by the numbers of EvalStack.h |
| ManagedHeap.ObjectKeepsObject | DotNetAnywhere/Heap.c:304-324 | an example: a root refers to an object and that to another one, and neither is freed |
| ManagedHeap.Collect | DotNetAnywhere/Heap.c:405-432 | a collection in place does that and keeps the tree, the counts and the queue right |
| ManagedHeap.NothingDanglesExactlyWhen | DotNetAnywhere/Heap.c:302-324 | after a collection no entry left refers to a freed one exactly when no pinned entry and no unreached one not yet through with its finalizer, of a type that may hold references, refers to an entry that does not survive; no root ever does |
| ManagedHeap.FinalizerMeetsFreedObject | DotNetAnywhere/Heap.c:357-384 | an example: the finalizer of an unreached object still has to run, and what that object alone refers to is freed |
| ManagedHeap.SuppressedTooLate | DotNetAnywhere/Heap.c:434-436 | an example: a queued object whose finalizer is suppressed is freed by the next collection while it is in the queue |
| ManagedHeap.LimitLeavesRoom | DotNetAnywhere/Heap.c:472-483 | the new limit leaves room for MIN_HEAP_SIZE exactly when adding MAX_HEAP_EXCESS does not wrap around; then it is twice what is wanted, but leaves at least 1,000,000 bytes and at most 4,000,000 |
| ManagedHeap.LimitBelowTheHeap | DotNetAnywhere/Heap.c:472-483 | an example: a limit that wraps around to three megabytes with four gigabytes in use |
| ManagedHeap.Heap.GarbageCollect | DotNetAnywhere/Heap.c:405-442 | after every collection the heap is valid: the node count is the number of nodes, the tracked size the sum of their sizes; and nothing left refers to anything freed exactly when what is kept unsearched refers to survivors only |
| ManagedHeap.Heap.BeforeAlloc | DotNetAnywhere/Heap.c:465-484 | a collection happens exactly when the limit has been reached, and sets the next limit |
| ManagedHeap.Heap.AllocBlock | DotNetAnywhere/Heap.c:486-502 | the new block joins the tree with its size and its need of a finalizer |
| ManagedHeap.Heap.MakeUndeletable | DotNetAnywhere/Heap.c:514-517 | pins one object and changes no other |
| ManagedHeap.Heap.MakeDeletable | DotNetAnywhere/Heap.c:519-522 | unpins one object and changes no other |
| ManagedHeap.Heap.RunFinalizer | DotNetAnywhere/JIT_Execute.c:177-195 | takes the next object, which is live and in state 2, off the queue |
| ManagedHeap.Heap.FinalizerDone | DotNetAnywhere/MethodState.c:261-264 | when the frame of the finalizer is deleted the object goes to state 0 |
| ManagedHeap.Heap.SuppressFinalize | DotNetAnywhere/Heap.c:434-436 | leaves the heap valid exactly when the object is neither queued nor being finalized |
| FinalizerLife.RunsAreSound | DotNetAnywhere/Heap.c:357-384 | over every run the queue holds distinct live objects in state 2 |
| FinalizerLife.NeedToFinalizeAdvances | DotNetAnywhere/Heap.c:357-384 | the state only goes from 1 to 2 when queued, from 2 to 0 when finalized, from 1 to 0 when suppressed; only state 0 is freed |
| FinalizerLife.FinalizedOnce | DotNetAnywhere/Finalizer.c:45-58 | no object is queued twice or freed before its finalizer is through |
| FinalizerLife.AllocateStep | DotNetAnywhere/Heap.c:486-502 | allocating a block performs the allocation step of those runs |
| FinalizerLife.CollectStep | DotNetAnywhere/Heap.c:405-442 | a collection performs the collection step |
| FinalizerLife.PinStep | DotNetAnywhere/Heap.c:514-522 | pinning and unpinning perform the pinning step |
| FinalizerLife.StartStep | DotNetAnywhere/JIT_Execute.c:177-195 | taking an object off the queue performs the step that starts its finalizer, and there is none exactly when the queue is empty |
| FinalizerLife.FinishStep | DotNetAnywhere/MethodState.c:261-264 | the end of a finalizer performs the finishing step |
| FinalizerLife.SuppressStep | DotNetAnywhere/Heap.c:434-436 | suppressing a finalizer in time performs the suppressing step |
| IntegerOps.BinaryAgrees | DotNetAnywhere/JIT_Execute.c:1438-2341 | arithmetic on machine words agrees with that on signed values, and is undefined where the standard raises an exception |
| MachineInts.BitsAreCombined | DotNetAnywhere/JIT_Execute.c:2235-2268 | every bit of a bitwise and, or and exclusive or is that of the operands combined |
| IntegerOps.BitwiseInEveryBit | DotNetAnywhere/JIT_Execute.c:2235-2304 | on values, and, or, exclusive or and not are right in every bit of the width |
| IntegerOps.ShiftAgrees | DotNetAnywhere/JIT_Execute.c:1438-2341 | so do shifts, undefined for counts of the width or more |
| IntegerOps.CompareAgrees | DotNetAnywhere/JIT_Execute.c:1438-2341 | so do signed and unsigned comparisons |
| IntegerOps.ConversionAgrees | DotNetAnywhere/JIT_Execute.c:2425-2447 | shifting up and down, and masking, convert to the small types |
| IntegerOps.SignExtensionAgrees | DotNetAnywhere/JIT_Execute.c:2437-2445 | shifting up and back down extends the sign |
| MachineInts.TruncDivRem | DotNetAnywhere/JIT_Execute.c:1438-2341 | the division used truncates toward zero, with the remainder to match |
| Simulation.OpcodeArithmetic | DotNetAnywhere/JIT.c:363-1120 | whatever opcode the offset arithmetic selects, its label does what the instruction means for the operand types |
| Simulation.Performs | DotNetAnywhere/JIT_Execute.c:757-1014 | every op does to the words what the instruction does to the values |
| Assembly.WrittenIsRead | DotNetAnywhere/JIT.c:162-169 | every instruction of the fragment, written as Partition III lays it out, is read as itself: operands little-endian, branches relative to the next instruction, and those of a switch to the end of its table |
| Assembly.ReadIsWritten | DotNetAnywhere/JIT.c:363-953 | what is read has been written like this |
| TypeSoundness.ExecuteSound | DotNetAnywhere/JIT.c:363-953 | a well-typed instruction leads to a state of the types it promises, or is undefined on its operands |
| TypeSoundness.IllTypedGetsStuck | DotNetAnywhere/JIT.c:363-953 | an instruction that is not well typed cannot be done on operands of those types |
| TypeSoundness.TruncatedToType | DotNetAnywhere/JIT.c:553-575 | what the standard stores in a variable is the one value of its type with the same low bits |
| Layout.PushedWords | DotNetAnywhere/JIT_Execute.c:59-94 | what is pushed in words is popped again, for both widths |
| Layout.SlotsAt | DotNetAnywhere/JIT.c:480-575 | storing the words of a variable changes that variable alone |
| TypeTracking.SelectsTyped | DotNetAnywhere/JIT.c:363-1120 | every well-typed instruction is accepted and leaves the types of the typing on the tracked stack |
| TypeTracking.TrackedTypesAreRight | DotNetAnywhere/JIT.c:115-131 | the types tracked in one forward pass are those of the whole method, and the recorded size bounds every stack |
| TypeTracking.RecordedSizeIsNeeded | DotNetAnywhere/JIT.c:117-131 | the recorded size is no larger than it has to be: some instruction needs it all |
| TypeTracking.PassIsRightExactlyWhenHarmless | DotNetAnywhere/JIT.c:765-780 | that holds exactly when no unconditional branch leads to the very next instruction with a stack that is not empty and not kept by an earlier branch |
| TypeTracking.PassForgetsNumber | DotNetAnywhere/JIT.c:765-780 | an example: a well-typed body in which the stack is lost before a return |
| EmittedCode.CodeEverywhere | DotNetAnywhere/JIT.c:363-953 | in the finished code each instruction has the words selected for it, at the index recorded for it |
| Translation.TranslationSucceeds | DotNetAnywhere/JIT.c:1640-1652 | every well-typed body is translated, and every branch and switch operand becomes the index of the op it leads to |
| Correctness.StepSimulated | DotNetAnywhere/JIT_Execute.c:757-1014 | one turn of the interpreter mirrors one step of the typed machine |
| Correctness.TranslationPreservesMeaning | DotNetAnywhere/JIT.c:363-953 | every run of the method body, step for step, is a run of the translated ops: same locals, stack, branches and result, never off the stack |
| Correctness.StoreAgreesExactlyWhenItFits | DotNetAnywhere/JIT.c:553-575 | storing a local agrees with the standard exactly when the value is one of the type of the local |
| Correctness.ArgumentStoreAgreesExactlyWhenItFits | DotNetAnywhere/JIT.c:511-526 | the same for arguments |
| Correctness.StoringIntoAByte | DotNetAnywhere/JIT.c:553-575 | an example: the standard stores 300 in a byte as 44, the interpreter as 300 |
| CountDown.TranslatedRuns | DotNetAnywhere/JIT.c:363-953 | an example with a loop: from any positive number the method is well typed, is translated, and its ops run like it and return 0 |
| Choice.TranslatedChooses | DotNetAnywhere/JIT.c:783-800 | an example with a switch: the ops it is translated to return 2 for 0 and 1 for any other number |
| Jitter.CopyTypeStacks | DotNetAnywhere/JIT.c:115 | the type stack is kept for every branch target ahead of the cursor, which for a switch stands inside its table |
| TypeTracking.EmitKeepsTypes | DotNetAnywhere/JIT.c:180-207 | what is kept for branch targets and restored behind unconditional branches has the types of the instruction reached, so that each step of the pass hands the right types to the next |
| Jitter.FixBranches | DotNetAnywhere/JIT.c:1640-1652 | branch operands are rewritten in place |
| Jitter.JITit | DotNetAnywhere/JIT.c:363-953 | the loop over the method body computes the translation |
| TimeSlices.UncheckedOpsRunOut | DotNetAnywhere/JIT_Execute.c:252-254 | between two checked ops there are finitely many unchecked ones |
| TimeSlices.PreviousOpMatters | DotNetAnywhere/JIT_Execute.c:1241 | the previous opcode matters only if it is the tail-call prefix |
| TimeSlices.CallHandsOver | DotNetAnywhere/JIT_Execute.c:163-174 | the method called begins with its parameters, the last words of its caller's stack in their order, and the caller, unless its frame is reused, goes on without them |
| TimeSlices.ReturnHandsBack | DotNetAnywhere/JIT_Execute.c:1148-1185 | a return puts the last words of the stack, as many as the result has, on top of the caller's in their order, and changes nothing else there |
| CallExample.ParametersInOrder | DotNetAnywhere/JIT_Execute.c:163-174 | an example: a method of two parameters called with 10 and 3 returns their difference, 7 |
| CallExample.ResultInOrder | DotNetAnywhere/JIT_Execute.c:1148-1185 | an example: a 64-bit result is equal to the number returned |
| TimeSlices.PrefixIsNotLast | DotNetAnywhere/JIT_Execute.c:3390-3393 | the tail-call prefix is never the last op of a slice |
| TimeSlices.SlicingIsTransparent | DotNetAnywhere/JIT_Execute.c:130-147 | running k1 ops, reloading and running k2 more is one run of k1 + k2, memory and all, although the previous opcode is forgotten; the thread reloaded is the one not yet saved, and saving enters in `Leftovers.SavingPlaysNoPart` |
| TimeSlices.ThreadState.Execute | DotNetAnywhere/JIT_Execute.c:284-321 | the loop of the interpreter runs one slice on the thread and its memory, frames that run over the chunk included, written in place, and saves it |
| TimeSlices.ThreadState.EnterMethod | DotNetAnywhere/MethodState.c:120-225 | the frame of a call is laid behind those of its callers, wherever there is memory: the word that says where it ends, header, parameters, and whatever was there as locals |
| FramesInMemory.StepTells | DotNetAnywhere/MethodState.c:160-176 | word by word, the memory of a thread goes on telling the headers, stacks, parameters and locals of its calls, and where each was left |
| FramesInMemory.SlicesAreTold | DotNetAnywhere/JIT_Execute.c:130-147 | so after every slice, from the start of the thread on, as long as no frame runs over the chunk |
| FramesInMemory.SavedIsReloaded | DotNetAnywhere/JIT_Execute.c:130-147 | where methods have different addresses, the saved memory tells one stack of calls and no other, so it can be reloaded from there |
| FramesInMemory.EnteredLocals | DotNetAnywhere/MethodState.c:120-225 | the locals of a method begin with the words that lie in memory behind its parameters |
| TimeSlices.StepFits | DotNetAnywhere/MethodState.c:137-160 | an op keeps the frames apart, in the chunk and ending where the thread says exactly when it does not call a method in the place of its caller whose frame is too large for what is left of the chunk |
| TailCallExample.TailCallRunsOver | DotNetAnywhere/MethodState.c:146-153 | an example: the frame of a method called like this ends two words behind the chunk |
| TailCallExample.LoadsOfs | DotNetAnywhere/Thread.h:34-41 | and one of its locals is the word that says where the frames end |
| Leftovers.LeftoversPlayNoPart | DotNetAnywhere/MethodState.c:130-176 | if every method stores each local before it loads it, threads that differ only in what was left in memory and in locals not yet stored run alike |
| Leftovers.MemoryPlaysNoPart | DotNetAnywhere/Thread.c:100-141 | so what a method does from its start, and its result, do not depend on what the memory held |
| Leftovers.SavingPlaysNoPart | DotNetAnywhere/JIT_Execute.c:130-132 | so, however a run is cut into slices, saving the thread behind each, it is the one long slice |
| LeftoverExamples.LeftoverIsNotSeen | DotNetAnywhere/Thread.c:100-129 | an example: a method that stores its local first ends alike whatever the memory held |
| LeftoverExamples.LeftoverIsSeen | DotNetAnywhere/Thread.c:100-129 | an example: a method that loads before it stores returns what the memory held |
| LeftoverExamples.SaveIsSeen | DotNetAnywhere/JIT_Execute.c:3390-3393 | an example: a program that ends with 0 in one slice and with 2 when it is cut in two |
| Signatures.CompressedEntry | DotNetAnywhere/MetaData.c:31-56 | decoding a compressed integer gives it back and stops behind it |
| Signatures.PrintedToken | DotNetAnywhere/MetaData.c:58-63 | decoding a compressed token gives its table index |
| Signatures.TablesOfTokens | DotNetAnywhere/MetaData.c:58-63 | the low two bits of a token select table 2, 1 or 27, and the others are the row |
| Signatures.CodesRead | DotNetAnywhere/Type.c:217-328 | which codes stand for a type alone, which for void and for a pointer, and which the reader crashes at |
| Signatures.RoundTripExactlyWhenReadable | DotNetAnywhere/Type.c:215-329 | reading a printed type signature gives the type back and leaves the cursor at its end if and only if no pointer, general array, function pointer, typed reference, modifier or mark occurs in it |
| Signatures.Crashes | DotNetAnywhere/Type.c:325-328 | where no pointer has led it astray, the reader crashes at all of these |
| Signatures.ArrayOfInt32Crashes | DotNetAnywhere/Type.c:325-328 | an example: `int32[,]`, printed as 14 08 02 00 00 |
| Signatures.PointerIsNotConsumed | DotNetAnywhere/Type.c:265-266 | of a pointer only the first byte is read, whatever it points to |
| Signatures.PointerToInt32 | DotNetAnywhere/Type.c:265-266 | an example |
| Signatures.PrintIsInjective | DotNetAnywhere/Type.c:215-329 | different types have different blobs, those the reader cannot read included |
| TypeTable.AppendKeepsCanonical | DotNetAnywhere/Generics.c:124-128 | a type that was not there can be added without making two alike |
| TypeTable.Table.FindArray | DotNetAnywhere/Type.c:176-186 | the search finds the array type of an element type exactly if there is one |
| TypeTable.Table.FindInstance | DotNetAnywhere/Generics.c:114-122 | the search finds the instance with those arguments exactly if there is one |
| TypeTable.Table.GetArrayTypeDef | DotNetAnywhere/Type.c:170-195 | gives the array type of the element type, keeping the table canonical although building it asks for further types after it is published |
| TypeTable.Table.GetInstance | DotNetAnywhere/Generics.c:104-185 | the same for instances of generic types |
| TypeIdentity.TypeStays | DotNetAnywhere/Generics.c:124-131 | types stay what they are while the table grows |
| TypeIdentity.AddressesDecide | DotNetAnywhere/MetaData_Search.c:66-77 | two addresses are equal exactly when the types are |
| SignatureReader.SameMeaning | DotNetAnywhere/Type.c:215-329 | two signatures without variables mean the same type exactly when they are structurally equal, references erased |
| SignatureReader.AlikeMeaning | DotNetAnywhere/Type.c:215-329 | any two signatures mean the same type exactly when they are structurally equal with void and variables without a known argument erased to nothing and arrays of nothing to a name |
| SignatureReader.SameAddressExactlyWhenSame | DotNetAnywhere/MetaData_Search.c:66-77 | two closed signatures are resolved to the same address exactly when they mean the same type, which is when they are alike, and without variables when they are structurally equal |
| SignatureReader.PointersAreNumbers | DotNetAnywhere/Type.c:262-274 | a reference has the type of a native integer and a pointer that of an unsigned one, whatever they point to |
| SignatureReader.Reader.GetTypeFromSig | DotNetAnywhere/Type.c:215-329 | the recursive reader resolves a signature to the address of its meaning, with arguments for variables, and advances the cursor past it |
| SignatureReader.Reader.GetGenericTypeFromSig | DotNetAnywhere/Generics.c:42-60 | so for generic instances, whose core and arguments are filled in on the way |
| MethodSignatures.MethodRoundTrip | DotNetAnywhere/MetaData_Fill.c:96-139 | reading a printed method signature gives it back and leaves the cursor at its end if and only if nothing occurs in it that the reader cannot read |
| MethodSignatures.ConventionsRead | DotNetAnywhere/MetaData_Fill.c:96-101 | the number of variables is read exactly if the convention has the bit 0x10 |
| MethodSignatures.MethodCrashes | DotNetAnywhere/Type.c:325-328 | without pointers, it crashes otherwise |
| MethodSignatures.ArrayParameterCrashes | DotNetAnywhere/Type.c:325-328 | an example: `void M(int32[,])` |
| MethodSignatures.CompareNameAndSig | DotNetAnywhere/MetaData_Search.c:29-80 | compares equal exactly when the keys are equal: name, convention, number of type parameters, and all types as resolved without arguments for method variables |
| MethodSignatures.KeysAreErasedSignatures | DotNetAnywhere/MetaData_Search.c:29-80 | for all signatures that is equality of name, convention, number of type parameters and erased types |
| MethodSignatures.ComparesExactlyWhenCertain | DotNetAnywhere/MetaData_Search.c:29-80 | what well-formed method ever compares equal to a well-formed one has structurally the same signature if and only if nothing in that one can be taken for anything else: a variable for another one or for void returned, void returned for a variable, an array of a variable for `System.Array` or the other way round |
| MethodSignatures.WithoutVariablesComparesExactly | DotNetAnywhere/MetaData_Search.c:29-80 | so methods that are not generic are told apart among classes whose arguments are known |
| MethodSignatures.KeysAreSignatures | DotNetAnywhere/MetaData_Search.c:29-80 | of two methods without variables it is structural equality of name and signature |
| MethodSignatures.VariablesCompareEqual | DotNetAnywhere/MetaData_Search.c:66-77 | examples, all well-formed: `void M<A, B>(A)` and `void M<A, B>(B)`, `void M<A>()` and `A M<A>()`, `void M<A>(A[])` and `void M<A>(System.Array)`, and in a class whose argument `T` is not known `void M()` and `T M()` |
| ParameterLayout.MethodDef.Fill | DotNetAnywhere/MetaData_Fill.c:82-140 | the parameters get the types of the signature, the object first, one behind the other in 32 bits |
| ParameterLayout.ParametersAreApart | DotNetAnywhere/MetaData_Fill.c:103-139 | parameters whose sizes add up in 32 bits share no byte and lie within the parameter space |
| VirtualMethods.NewSlotsAreOwned | DotNetAnywhere/MetaData_Fill.c:192-222 | every slot a class adds is entered by one of its methods, so no slot is left unfilled |
| VirtualMethods.RunsKey | DotNetAnywhere/MetaData_Fill.c:326-359 | the method in a slot has the name and signature the slot was opened with |
| VirtualMethods.SlotsDiffer | DotNetAnywhere/MetaData_Fill.c:192-218 | the methods of a class get slots of their own |
| VirtualMethods.LastSlot | DotNetAnywhere/MetaData_Search.c:160-166 | which slot an override finds next |
| VirtualMethods.DispatchFollowsTheChain | DotNetAnywhere/JIT_Execute.c:1404-1415 | a call through a method of a base class runs the most derived override in the unbroken chain of overrides, told without slots |
| VirtualTables.TypeDef.SearchTable | DotNetAnywhere/MetaData_Search.c:160-166 | the table is searched from its end for the last method of that name and signature |
| VirtualTables.TypeDef.FindOverridden | DotNetAnywhere/MetaData_Search.c:141-169 | the overridden method is the last one in the table of the parent; searching further ancestors finds nothing more |
| VirtualTables.TypeDef.AssignSlots | DotNetAnywhere/MetaData_Fill.c:182-222 | when the parent has its table, each method gets the slot it opens or the one it overrides, and they are counted |
| VirtualTables.TypeDef.FillTable | DotNetAnywhere/MetaData_Fill.c:326-359 | copying the table of the parent and entering the methods gives a table whose slot i holds what runs in it, a method that knows it is in slot i |
| VirtualTables.MetaData.FillTypeDef | DotNetAnywhere/MetaData_Fill.c:142-375 | the recursive method flags the class, fills in its parent, gives slots, fills in what its fields ask for, makes the table and fills in what its methods ask for; it finds all tables exactly when the order of filling says so, and then every class with a table has the right one |
| VirtualTables.FillInOrder | DotNetAnywhere/MetaData.h:187 | from a start with nothing filled in, in any order, every class asked for ends with its table, if no class leads to one derived from it |
| FillOrder.TablesAreThereExactlyWhenSheltered | DotNetAnywhere/MetaData_Fill.c:142-330 | every class finds the table of its parent, whatever is filled in and in whatever order, if and only if no class leads, before it has its own table, to one derived from it |
| FillOrder.RouteFails | DotNetAnywhere/MetaData_Fill.c:250-258 | if one does, filling it in first fails |
| FillOrder.FieldOfDerivedType | DotNetAnywhere/MetaData_Fill.c:327-330 | an example: with a field of a derived type, the derived class does not find the table when the base class is filled in first, and does when it is itself |
| VirtualTables.CallVirtual | DotNetAnywhere/JIT_Execute.c:1404-1415 | indexing the table of the object's class by the slot of the named method runs the most derived override |
| SyncBlocks.Entry.EnsureSync | DotNetAnywhere/Heap.c:544-551 | makes a sync block when there is none |
| SyncBlocks.Entry.DeleteSync | DotNetAnywhere/Heap.c:553-560 | drops it when neither a lock count nor a weak reference needs it |
| Monitors.SyncTryEnter | DotNetAnywhere/Heap.c:564-582 | enters exactly when no other thread is named in the block, counting up |
| Monitors.SyncExit | DotNetAnywhere/Heap.c:584-597 | leaves exactly when this thread is named, counting down and dropping the block at zero |
| Monitors.RunsAreAccurate | DotNetAnywhere/Heap.c:544-597 | over every run in which threads leave only what they entered, the count is the holder's enters minus exits and no other thread holds anything |
| Monitors.MutualExclusion | DotNetAnywhere/Heap.c:564-597 | at most one thread is inside |
| Monitors.NobodyElseInside | DotNetAnywhere/Heap.c:564-597 | who is let in finds nobody else inside, and who is inside can always leave |
| Monitors.WeakReferencesLeaveLocks | DotNetAnywhere/Heap.c:599-623 | adding, removing and clearing weak references never takes a held lock away |
| Monitors.LastExitFreesExactlyWithoutWeakReferences | DotNetAnywhere/Heap.c:584-597 | after the last exit another thread can enter exactly when the object has no weak reference |
| Monitors.LeftButTaken | DotNetAnywhere/Heap.c:584-597 | an example: entered, weakly referred to and left, the object admits no other thread |
| Monitors.RemovingTheLastWeakReferenceFrees | DotNetAnywhere/Heap.c:620-623 | removing the last weak reference opens an object that nobody holds |
| Monitors.WaitsAsLongAsAsked | DotNetAnywhere/System.Threading.Monitor.c:53-58 | a thread waits as long as it was asked to, up to 2^31 milliseconds |
| Monitors.TryEntryCheck | DotNetAnywhere/System.Threading.Monitor.c:29-61 | a waiting thread goes on exactly when it could enter or gives up |
| Scheduler.Thread.Poll | DotNetAnywhere/Thread.c:230-296 | a thread is found ready exactly when what it waits for is there, and a lock is then entered in its own name |
| Scheduler.Thread.Start | DotNetAnywhere/System.Threading.Thread.c:53-54 | starting a thread makes it run and leaves it in the background if it was |
| Scheduler.RunningExactlyWhen | DotNetAnywhere/Thread.c:230 | a thread is running exactly if no bit of its state other than 0x0004 is set |
| Scheduler.BackgroundIsNotSeen | DotNetAnywhere/Thread.c:230 | two threads that differ in that bit alone look alike to the scheduler |
| Scheduler.KeepsAliveExactlyWhen | DotNetAnywhere/Thread.c:194-197 | in the background a thread never keeps the program alive, and otherwise exactly unless it is still to be started or suspended |
| Scheduler.BackgroundThreadRuns | DotNetAnywhere/Thread.c:220-309 | an example: a background thread that waits for nothing is selected |
| Scheduler.SleepsAsLongAsAsked | DotNetAnywhere/Thread.c:236-249 | a sleep is over exactly from the time asked for until 2^31 milliseconds later, because what is left is counted in signed 32-bit numbers |
| Scheduler.Scheduler.Next | DotNetAnywhere/Thread.c:220-309 | the first ready thread behind the previous one is selected, after as many laps as it takes; all blocked means that the previous thread runs, every thread was asked and none was ready; then the sleep asked for is no longer than any sleeper has left, or no longer than the polling interval |
| Scheduler.ReadyThreadsComeCloser | DotNetAnywhere/Thread.c:220-309 | a ready thread is not passed over |
| Scheduler.RunsWithinALap | DotNetAnywhere/Thread.c:220-309 | a thread that stays ready runs within one lap |
| Scheduler.SearchEndsExactlyWhen | DotNetAnywhere/Thread.c:220-309 | while no thread runs, the search ends exactly when the previous thread is running or some thread is running and waits for nothing, a time, a lock it can enter or does not wait for without limit, or something that comes |
| Scheduler.SearchGoesRoundForEver | DotNetAnywhere/Thread.c:220-309 | an example: a suspended previous thread and one that waits for a held lock without limit |
| Scheduler.NewThreadCostsOneTurn | DotNetAnywhere/Thread.c:92-95 | a new thread, put first in the list, is asked when its end is reached; threads behind the previous one are asked as soon as before, the others one turn later |
| Scheduler.Scheduler.Exited | DotNetAnywhere/Thread.c:170-210 | an exited thread, and only that, leaves the list, and the program ends exactly when no other thread keeps it alive |
| WeakReferences.KeptExactly | DotNetAnywhere/System.WeakReference.c:73-88 | kept are exactly the long references, or none |
| WeakReferences.KeptInOrder | DotNetAnywhere/System.WeakReference.c:73-88 | in their order |
| WeakReferences.TargetGone | DotNetAnywhere/System.WeakReference.c:73-88 | relinking in place leaves exactly those, and every other reference loses its target |
| WeakReferences.RemoveWeakRefTarget | DotNetAnywhere/Heap.c:599-601 | and the lock in the sync block stays: it is the step of that name in the runs of monitors |
| WeakReferences.Unlink | DotNetAnywhere/System.WeakReference.c:51-65 | the reference is found and unlinked, all others stay in their order, and the sync block keeps its lock or is dropped when neither lock nor list needs it |
| WeakReferences.SetWeakRefTarget | DotNetAnywhere/Heap.c:604-613 | the reference becomes the first in the list, and a lock in the sync block stays |
| WeakReferences.SetTarget | DotNetAnywhere/System.WeakReference.c:47-71 | the reference moves from the list of its old target to that of its new one, also when they are the same; to the locks of both it does what the runs of monitors say |
| WeakReferences.RunsAreConsistent | DotNetAnywhere/System.WeakReference.c:47-88 | over every run each reference with a target is in that target's list exactly once and in no other |
| WeakReferences.SetTargetIn | DotNetAnywhere/System.WeakReference.c:47-71 | among all references and objects, setting a target in place performs a step of those runs and leaves all other locks alone |
| WeakReferences.TargetGoneIn | DotNetAnywhere/System.WeakReference.c:73-88 | so does clearing the references to an object that has gone |
| StringReplace.FirstOccurrenceIsReplaced | DotNetAnywhere/System.String.c:273-333 | the first occurrence is replaced and the rest behind it treated alike: greedy, from the left, without overlap |
| StringReplace.NothingToReplace | DotNetAnywhere/System.String.c:273-333 | a text without the pattern stays as it is |
| StringReplace.ReplacedByItself | DotNetAnywhere/System.String.c:273-333 | replacing a pattern by itself changes nothing |
| StringReplace.LengthOfResult | DotNetAnywhere/System.String.c:305 | the matches counted give the length of the result |
| StringReplace.SizedExactlyWhenItFits | DotNetAnywhere/Heap.c:465-502 | the number of characters asked for is that of the result exactly when it fits, and the block allocated for them has room exactly when the block needed fits, its header included |
| StringReplace.HeaderWrapsAround | DotNetAnywhere/Heap.c:465-502 | an example: the characters fit in 32 bits, the block does not, and 18 bytes are allocated |
| StringReplace.PositionsAreInTheTextExactlyWhen | DotNetAnywhere/System.String.c:292 | the positions tried are in the text exactly when the pattern is at most one longer |
| StringReplace.BehindTheEnd | DotNetAnywhere/System.String.c:292 | an example |
| StringReplace.CountReplacements | DotNetAnywhere/System.String.c:291-304 | the first pass counts the matches |
| StringReplace.Fill | DotNetAnywhere/System.String.c:308-330 | the second pass finds the same matches and fills the buffer exactly |
| StringReplace.InternalReplace | DotNetAnywhere/System.String.c:273-333 | the result is the replaced text, for every pattern neither empty nor more than one longer than the text and every result whose block fits |

## Left out

- Sweeping.Walk: the deletion list is a sequence instead of being threaded through the `pSync` fields, because those also hold sync blocks; the order of deletion is the same.
- Sweeping.Visit: what the sweep does to sync blocks is not part of this model, neither that it clears weak references, which `WeakReferences` treats on its own, nor that it frees the block of an object it queues while the object keeps its address.
- ManagedHeap.Heap.GarbageCollect: asks for a tree that is not empty, because the walk acts on its root without a test.
- ManagedHeap.Heap.BeforeAlloc: the same, when the limit has been reached.
- ManagedHeap.Heap.AllocBlock: the address of the block comes from the caller, because the system allocator is not part of this model; that blocks do not meet, and that the size does not wrap around, is what is asked of it.
- ManagedHeap.Heap.RunFinalizer: the frame made for the finalizer is not part of the heap; which objects are being finalized is a ghost set.
- HeapEntries.HeapEntry: the size of an entry is a constant, because what `GetSize` computes from the type and the length is the size allocated.
- IntegerOps.BinaryAgrees: signed overflow, and left shifts of negative numbers, are undefined in C; they are taken to wrap around.
- Correctness.TranslationPreservesMeaning: stores that truncate are excluded, because the code does not truncate; exactly when it agrees is proved apart.
- Scheduler.Scheduler.Next: asks for a turn at which the search ends, because it may not end; exactly when there is one is proved apart. The debugger break is left out.
- Scheduler.SearchEndsExactlyWhen: a lap of the search is taken to last no more than a millisecond.
- WeakReferences.RunsAreConsistent: no weak reference object itself is collected in these runs.
- ParameterLayout.MethodDef.Fill: asks for parameters of known types, because the code crashes on others; stack sizes are a parameter.
- TypeTable.Table.GetArrayTypeDef: what building a type asks for is a finite tree given beforehand.
- TypeTable.Table.GetInstance: the same.
- SignatureReader.Reader.GetTypeFromSig: tokens are resolved to types beforehand, and what building or filling in a type asks for is a parameter; signatures the code crashes on are excluded.
- SignatureReader.Reader.GetGenericTypeFromSig: the same.
- VirtualTables.TypeDef.SearchTable: compares the keys that `MethodSignatures.CompareNameAndSig` is proved to decide, without running that comparison, and takes the key of a method to be the same in every class searched, which it is where no class is generic.
- VirtualTables.TypeDef.FindOverridden: explicit overrides are left out.
- VirtualTables.TypeDef.AssignSlots: the same, and generic method definitions; it asks for a parent that has its table, and `VirtualTables.MetaData.FillTypeDef` fails where there is none.
- VirtualTables.TypeDef.FillTable: the copying of methods for generic instances is left out.
- VirtualTables.MetaData.FillTypeDef: of fields, methods and interfaces only the types that they fill in are part of this model, and they are given beforehand; what the code does after a table was not there is not, nor are generic definitions, which get no table.
- VirtualTables.CallVirtual: interface calls and generic virtual calls are left out.
- TimeSlices.ThreadState.Execute: a further call from a frame that runs over the chunk is taken to crash, which it does unless the frame has overwritten the word that says where it ends.
- TimeSlices.SlicingIsTransparent: calls of native methods, virtual and interface calls, delegates and finalizers are left out of the slices.
- Opcodes on floating point, objects, pointers and value types, `conv.i8`, `conv.u8`, indirect loads and stores, and overflow-checking arithmetic.
- Exceptions: throw, unwind, leave, endfinally.
- Loading of files and metadata tables, names and RVA mapping.
- Native calls, files, sockets, console, clock and debugger; the clock and what is ready are parameters.
- The rest of the string, character and number library, which wraps C library calls.
- The combined opcodes, disabled in the configuration.
