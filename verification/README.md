# A verified model of JBLang

JBLang is a C-like language that is transpiled to C and linked with a memory runtime. This
project models its four hardest parts in Dafny 4.11 and proves what they are for.
`dafny verify dfyconfig.toml` checks everything.

**Reference counting at run time** (`RefCountStore`, `RefCountCascade`, `RefCountRuns`,
`RefCountHistory`). A block has a count and at most three recorded outgoing edges; a fourth
store raises a count and records nothing, which the model keeps as a *lost increment*. The
release cascade is modelled as a recursive method with its loop, and as the total function it
computes. Counts are exact through every half-done release; the survivors are the greatest
set that still has support, so the order of releases is immaterial; everything the handles
reach is live; and exactly the blocks on cycles or with lost increments, and what edges lead
to from them, are never freed. Edges, sizes and lost increments of any run are what its calls
alone tell, and a stored block lives at least as long as the block it is stored in.

**Mark and sweep** (`MarkSweepModel`, `MarkSweepRuns`, `MarkSweepRuntime`). Marking is exact
on cyclic heaps with interior addresses; the sweep unlinks from the doubly linked list it is
walking; statistics are conserved over whole runs.

**Inserting the counts** (`Scopes`, `Emit`, `Visitor`, `Machine`, `FrameFacts`,
`CountingOps`, `Accounts`, `Counting`, `FieldStores`, `OverRelease`, `Exactness`, `Erasure`,
`Meaning`, `Limits`). The visitors append to an output and mutate a symbol table; what they
append is the translation `Emit.Translate`. A machine runs the translation on the runtime
above and audits every count at every statement boundary. For every well-formed program and
every length of run the audits find nothing, no freed block is touched, and no pointer in a
field of a live block dangles. With counting off the emitted code is the counted code without
the calls. `Meaning` gives source programs a semantics of their own, on variables and objects
that are never freed: emitted without counts, every program computes just that, and emitted
with counts, every well-formed one does. `Limits` has programs outside the fragment whose
counts go wrong, and `Exactness` says exactly when a statement does.

**Classes** (`Hierarchy`, `Dispatch`, `Overriding`, `TypeSystem`) and **printing**
(`Printing`). The walks up the parent chain end, agree with each other, and fill vtables
with the nearest declaration; expressions are printed token by token, so grouping is lost.

## Reading the model

- Machine runs carry `fuel`, a bound on call depth plus loop iterations. The theorems hold
  for every fuel, so they cover every finite prefix of every run.
- `Source.StmtOk` says which programs the counting theorems are about: names declared once
  per scope, types agreeing, pointers initialised, parameters not assigned, a call not
  passing the variable its result is assigned to, no pointer result discarded, a function
  with a result ending in `return`. Early returns are in it wherever only the innermost scope
  declares pointers. A block in a branch or loop body may declare what it likes.
- What the environment provides is a parameter: the address `malloc` returns and what the
  memory held before, the words on the stack, the contents of global cells.
- Walks over classes take a ghost `rank`. One exists exactly when there is no cycle
  (`Hierarchy.RankedIff`); declaration order provides it (`Hierarchy.RegisterAllRanked`).
- The table below gives the lines each member is about. Properties that are false of the
  code have a lemma at a failing input and one with the exact condition:
  - not everything unreachable is freed: `RefCountRuns.SelfStoreLeaks` and
    `FourStoresLeak`, with `LeakIff` and `NeverFreedIff`;
  - a new block is not always there after its allocation:
    `MarkSweepRuns.FirstBlockFreed`, with `AllocOutcome`;
  - a mangled name does not always give the method name back, or stand for one method:
    `Mangling.MangleCollides`, with `BaseNameIff` for the first and `ClassesCollideIff` and
    `MangleSameIff` for the second;
  - the hierarchy is not always acyclic: `Hierarchy.SelfParentCycles` and
    `RedeclaringCycles`, with `RegisterAcyclicIff`;
  - the vtable field is not always there: `Overriding.ThirdLevelMisses`, with `AccessOkIff`;
  - a C lexer does not always read the source tokens: `Printing.NumberBeforeDot`, with
    `TokensPreservedInC`;
  - the inserted counts are not always right: `Limits.SelfCallFails` with
    `Exactness.AssignCallExactIff`; `DiscardedFails` with `CallStmtExactIff`;
    `NestedReturnFails` with `NestedReturnExactIff`; `AssignedParameterFails` with
    `ReturnExactIff` and `BodyEndExactIff`, where the assignment itself is exact
    (`Counting.AssignSettles`) and what counts is what the parameters hold at the end.
    These are conditions on the variables at one statement. The code that is run may be
    anything; only what the statement calls has to be well formed, with what that calls in
    turn (`Counting.Includes`). So they apply to the failing programs themselves:
    `Limits.SelfCallCondition`, `DiscardedCondition` and `AssignedParameterCondition`. For
    whole programs `Source.ProgramOk` is sufficient.

## Model

| member | source | states |
|---|---|---|
| `RefCountStore.DecRef` | runtime/src/reference_count_allocator.c:56-72 | `dec_ref_count` terminates on every heap; it adds no block, changes no size or recorded edge, raises no count, and never frees a block whose own release is in progress |
| `RefCountStore.DecAll` | runtime/src/reference_count_allocator.c:64-66 | the loop over the recorded targets, with the same guarantees |
| `RefCountStore.DecAllAppend` | runtime/src/reference_count_allocator.c:64-66 | releasing one list and then another is releasing the concatenation, faults included |
| `RefCountRuntime.Runtime.constructor` | runtime/src/reference_count_allocator.c:6 | nothing allocated, all statistics zero |
| `RefCountRuntime.Runtime.Alloc` | runtime/src/reference_count_allocator.c:21-39 | in place, a new block with count 1, no edges, and the statistics with the peak |
| `RefCountRuntime.Runtime.Inc` | runtime/src/reference_count_allocator.c:41-54 | in place, one more count, and an edge in the other block while it has fewer than three; otherwise the increment is lost |
| `RefCountRuntime.Runtime.Dec` | runtime/src/reference_count_allocator.c:56-72 | the recursive in-place release computes `DecRef` |
| `RefCountRuntime.Runtime.ReleaseTargets` | runtime/src/reference_count_allocator.c:64-66 | the in-place loop, which re-reads the header it is releasing, computes `DecAll` |
| `RefCountRuntime.Runtime.FreeBlock` | runtime/src/reference_count_allocator.c:67-69 | the accounting and the free at the end of a release |
| `RefCountRuntime.LoopPrefix` | runtime/src/reference_count_allocator.c:64-66 | while a block is released it stays allocated with its targets untouched, at every index of the loop |
| `RefCountCascade.DecSettles` | runtime/src/reference_count_allocator.c:56-72 | one release in the middle of any number of unfinished ones: no fault, blocks being released untouched, all other counts exact, every supported set survives |
| `RefCountCascade.DecAllSettles` | runtime/src/reference_count_allocator.c:64-66 | the same for the loop over recorded targets |
| `RefCountCascade.LastHandle` | runtime/src/reference_count_allocator.c:63-66 | when the last reference goes, nothing else refers to the block and its edges become references to release |
| `RefCountCascade.ReleaseSettles` | runtime/src/reference_count_allocator.c:56-72 | giving up a held handle never faults and leaves exact counts and every supported set |
| `RefCountCascade.ReleaseAllSettles` | runtime/src/reference_count_allocator.c:56-72 | the same for any list of held handles |
| `RefCountCascade.SettledSupported` | runtime/src/reference_count_allocator.c:56-72 | what survives is itself supported, hence the greatest supported set |
| `RefCountCascade.SettledUnique` | runtime/src/reference_count_allocator.c:56-72 | that outcome is unique: live blocks, counts and edges are determined by what is still held |
| `RefCountRuns.ReleaseOrderImmaterial` | runtime/src/reference_count_allocator.c:56-72 | releasing the same handles in any order ends in the same store, statistics included |
| `RefCountRuns.DecAccounts` | runtime/src/reference_count_allocator.c:67-68 | on every heap a release lowers `current_bytes` by the sizes it frees and counts each freed block once |
| `RefCountRuns.StepSound` | runtime/src/reference_count_allocator.c:21-72 | every allowed runtime call succeeds, keeps every count exact, and keeps the statistics true |
| `RefCountRuns.RunSound` | runtime/src/reference_count_allocator.c:21-72 | the same for every run from a sound state |
| `RefCountRuns.EveryRunSound` | runtime/src/reference_count_allocator.c:21-72 | the same for every run from the start of the program |
| `RefCountRuns.RunPeak` | runtime/src/reference_count_allocator.c:21-39 | over every run from a sound state, the peak is its old value or a value `current_bytes` had, and never below one |
| `RefCountRuns.EveryRunPeak` | runtime/src/reference_count_allocator.c:34-36 | over every run from the start, `peak_bytes` is the maximum `current_bytes` ever was |
| `RefCountRuns.RunKeepsSelfSupported` | runtime/src/reference_count_allocator.c:41-72 | a set of blocks kept alive by lost increments and its own edges outlives every continuation |
| `RefCountRuns.CyclesNeverFreed` | runtime/src/reference_count_allocator.c:46-71 | blocks on a cycle of recorded edges are never freed in any continuation |
| `RefCountRuns.LostNeverFreed` | runtime/src/reference_count_allocator.c:46-50 | a block with a lost increment is never freed in any continuation |
| `RefCountRuns.NeverFreedIff` | runtime/src/reference_count_allocator.c:46-71 | a block outlives every continuation if and only if recorded edges lead to it from a block on a cycle or with a lost increment (or it is one) |
| `RefCountRuns.DropEverything` | runtime/src/reference_count_allocator.c:56-72 | every sound state can be run to one without handles, and only self-supported blocks are left there |
| `RefCountRuns.EdgesStayLive` | runtime/src/reference_count_allocator.c:41-72 | one step: a handle or a recorded edge of a balanced heap ends at a live block |
| `RefCountRuns.PathLive` | runtime/src/reference_count_allocator.c:41-72 | every block on a path of recorded edges from a handle is live, at any distance; paths do not assume it |
| `RefCountRuns.ReachableIsLive` | runtime/src/reference_count_allocator.c:41-72 | the live set contains every block reachable from a held handle |
| `RefCountRuns.RunReachableIsLive` | runtime/src/reference_count_allocator.c:21-72 | the same in every state of every run from the start |
| `RefCountRuns.LeakIff` | runtime/src/reference_count_allocator.c:41-72 | some live block is unreachable if and only if an unreachable block has a lost increment or lies on an unreachable cycle |
| `RefCountRuns.AcyclicIsExact` | runtime/src/reference_count_allocator.c:41-72 | without cycles and lost increments the live blocks are exactly the reachable ones |
| `RefCountRuns.AllDroppedAllFreed` | runtime/src/reference_count_allocator.c:41-72 | then, once all handles are dropped, no block is left and `current_bytes` is 0 |
| `RefCountRuns.SelfStoreLeaks` | runtime/src/reference_count_allocator.c:46-71 | a failing input: allocate, store the block in itself, drop the handle; the block is never freed |
| `RefCountRuns.FourStoresLeak` | runtime/src/reference_count_allocator.c:46-50 | a failing input: four stores into one block, all handles dropped; the block stored is never freed |
| `RefCountHistory.IncRecords` | runtime/src/reference_count_allocator.c:41-54 | one store: one more count of the stored block, an edge out of the block stored into while it has room, a lost increment otherwise, and no other count, size or edge changes |
| `RefCountHistory.StoredLivesOn` | runtime/src/reference_count_allocator.c:41-72 | over every run, a block stored in another is live in every state as long as that one is |
| `RefCountHistory.PairFreed` | runtime/src/reference_count_allocator.c:46-72 | and no longer: with one handle each and no other reference, storing one block in the other and dropping both handles, in either order, frees both |
| `RefCountHistory.RunAgrees` | runtime/src/reference_count_allocator.c:21-72 | over every run, the live blocks have exactly the edges and sizes, and the lost increments are exactly those, that the calls alone tell |
| `RefCountHistory.EveryRunAgrees` | runtime/src/reference_count_allocator.c:21-72 | the same from the start, with the bytes in use the sum of the bytes asked for and 48 for each live block |
| `MarkSweepModel.Find` | runtime/src/mark_sweep_allocator.c:66-80 | the first listed block whose payload contains the word, interior addresses included |
| `MarkSweepModel.FindUnique` | runtime/src/mark_sweep_allocator.c:50-80 | with disjoint blocks, a word inside a payload finds that block |
| `MarkSweepModel.Mark` | runtime/src/mark_sweep_allocator.c:82-96 | marking terminates on cyclic heaps, stays within the listed blocks, and keeps what is marked |
| `MarkSweepModel.MarkAll` | runtime/src/mark_sweep_allocator.c:98-142 | the same for the loops over words |
| `MarkSweepModel.MarkCloses` | runtime/src/mark_sweep_allocator.c:82-96 | the block pointed into is marked, and every newly marked block has all its payload words followed |
| `MarkSweepModel.MarkStays` | runtime/src/mark_sweep_allocator.c:82-96 | marking never leaves a closed set that covers its words |
| `MarkSweepModel.MarkExact` | runtime/src/mark_sweep_allocator.c:82-142 | a block is marked if and only if it is reachable from the scanned words and roots through payload words |
| `MarkSweepModel.CollectedExact` | runtime/src/mark_sweep_allocator.c:172-185 | a collection keeps exactly the reachable blocks |
| `MarkSweepModel.KeepOrder` | runtime/src/mark_sweep_allocator.c:144-170 | the survivors keep their order |
| `MarkSweepModel.ReachAfterCollection` | runtime/src/mark_sweep_allocator.c:172-185 | taking out unreachable blocks does not change reachability |
| `MarkSweepModel.CollectTwice` | runtime/src/mark_sweep_allocator.c:172-185 | a second collection with the same words frees nothing |
| `MarkSweepModel.CollectMonotone` | runtime/src/mark_sweep_allocator.c:172-185 | scanning more words never frees more |
| `MarkSweepModel.UnreachedFreed` | runtime/src/mark_sweep_allocator.c:124-185 | one collection frees every set, cyclic or not, that no scanned word and no outside block points into |
| `MarkSweepModel.HeaderPointerMisses` | runtime/src/mark_sweep_allocator.c:56-58 | a pointer to a header points into no payload |
| `MarkSweepModel.HeaderWordsIgnored` | runtime/src/mark_sweep_allocator.c:56-58 | scanning additional words that point at headers reaches nothing more |
| `MarkSweepModel.KeepDropTo` | runtime/src/mark_sweep_allocator.c:144-170 | kept and dropped blocks split the list: bytes and lengths add up |
| `MarkSweepModel.KeepDropIds` | runtime/src/mark_sweep_allocator.c:144-170 | and each block identity is on exactly one side |
| `MarkSweepRuns.AddSound` | runtime/src/mark_sweep_allocator.c:189-201 | adding a block keeps the books; what is added is said by `AllocWithin` |
| `MarkSweepRuns.CollectSound` | runtime/src/mark_sweep_allocator.c:144-185 | a collection keeps the books and never makes `current_bytes` negative |
| `MarkSweepRuns.AllocSound` | runtime/src/mark_sweep_allocator.c:187-212 | so does an allocation, whether or not it collects |
| `MarkSweepRuns.AllocWithin` | runtime/src/mark_sweep_allocator.c:187-212 | an allocation within the threshold: bytes grow by the header and the size asked for, the new block with the words found there comes before the unchanged older ones, nothing is freed, and every payload address finds it |
| `MarkSweepRuns.AllocBeyond` | runtime/src/mark_sweep_allocator.c:187-212 | an allocation past the threshold: of the new block and the older ones exactly those reachable from the scanned words are left |
| `MarkSweepRuns.AllocOutcome` | runtime/src/mark_sweep_allocator.c:187-212 | afterwards the bytes are within the threshold or everything listed is reachable; the new block is listed exactly when no collection ran or its payload was reachable |
| `MarkSweepRuns.HeaderOnlyIsFreed` | runtime/src/mark_sweep_allocator.c:187-212 | the collection triggered by an allocation frees the new block itself when no scanned word and no older payload points past its header, whatever else is scanned |
| `MarkSweepRuns.FirstBlockFreed` | runtime/src/mark_sweep_allocator.c:187-212 | a failing input: the first allocation with threshold 0 and only the header address on the stack frees its own block |
| `MarkSweepRuns.CollectIdempotent` | runtime/src/mark_sweep_allocator.c:172-185 | collecting twice in a row is collecting once, statistics included |
| `MarkSweepRuns.ShutdownFreesEachOnce` | runtime/src/mark_sweep_allocator.c:249-260 | after shutdown the list is empty and every allocation ever made has been freed exactly once; the statistics still count the blocks that were reachable |
| `MarkSweepRuns.StepSound` | runtime/src/mark_sweep_allocator.c:144-212 | every step of a run keeps: bytes are the sum of listed sizes, allocations are listed plus collected, every identity listed or freed once |
| `MarkSweepRuns.StepPeak` | runtime/src/mark_sweep_allocator.c:187-212 | a step raises the peak only to a value reached on the way |
| `MarkSweepRuns.RunConserves` | runtime/src/mark_sweep_allocator.c:144-212 | over whole runs these hold and the peak is the maximum value `current_bytes` had |
| `MarkSweepRuns.EveryRunConserves` | runtime/src/mark_sweep_allocator.c:144-260 | the same from the start of the program |
| `MarkSweepRuns.EveryRunServes` | runtime/src/mark_sweep_allocator.c:187-212 | in every state of every run each listed block has the address and length asked for under its serial number |
| `MarkSweepHeaders.PushLinks` | runtime/src/mark_sweep_allocator.c:35-41 | pushing at the head gives a well-formed doubly linked list |
| `MarkSweepHeaders.UnlinkLinks` | runtime/src/mark_sweep_allocator.c:43-48 | unlinking any position leaves a well-formed list without it, all other headers unchanged but for links |
| `MarkSweepRuntime.Allocator.constructor` | runtime/src/mark_sweep_allocator.c:238-247 | an empty list, no roots, statistics zero |
| `MarkSweepRuntime.Allocator.RegisterRoot` | runtime/src/mark_sweep_allocator.c:26-33 | a root is added unless the table of 50 is full |
| `MarkSweepRuntime.Allocator.AddAllocation` | runtime/src/mark_sweep_allocator.c:35-41 | in place, the header becomes the head of the list |
| `MarkSweepRuntime.Allocator.RemoveAllocation` | runtime/src/mark_sweep_allocator.c:43-48 | in place, the neighbours or the head skip the header |
| `MarkSweepRuntime.Allocator.FindHeader` | runtime/src/mark_sweep_allocator.c:66-80 | the walk over the list finds what `Find` finds, NULL exactly when there is none |
| `MarkSweepRuntime.Allocator.IsValidPointer` | runtime/src/mark_sweep_allocator.c:50-64 | true exactly when some payload contains the word |
| `MarkSweepRuntime.Allocator.MarkFrom` | runtime/src/mark_sweep_allocator.c:82-96 | the recursive flag-setting marks exactly `Mark`, and changes nothing but flags |
| `MarkSweepRuntime.Allocator.MarkWords` | runtime/src/mark_sweep_allocator.c:91-121 | the word loop marks exactly `MarkAll` |
| `MarkSweepRuntime.Allocator.ClearMarks` | runtime/src/mark_sweep_allocator.c:130-134 | all flags cleared, nothing else changed |
| `MarkSweepRuntime.Allocator.DoMarkPhase` | runtime/src/mark_sweep_allocator.c:124-142 | afterwards a block is flagged if and only if it is reachable from a word on the stack or in a registered root cell, whatever the flags were before |
| `MarkSweepRuntime.Allocator.Reclaim` | runtime/src/mark_sweep_allocator.c:156-163 | an unmarked header is accounted for, unlinked and freed |
| `MarkSweepRuntime.Allocator.SweepOne` | runtime/src/mark_sweep_allocator.c:154-165 | one round of the sweep on the list it is changing: the rest of the walk is still there |
| `MarkSweepRuntime.Allocator.SweepPhase` | runtime/src/mark_sweep_allocator.c:144-170 | the list that is left is well formed and holds exactly the marked blocks in order; the others are freed and accounted for |
| `MarkSweepRuntime.Allocator.CollectGarbage` | runtime/src/mark_sweep_allocator.c:172-185 | the in-place collection computes `Collect`; what is left is exactly what the stack and the registered root cells reach |
| `MarkSweepRuntime.RootedIff` | runtime/src/mark_sweep_allocator.c:137-141 | the words scanned are those on the stack and in the root cells, no more and no fewer |
| `MarkSweepRuntime.RootKeeps` | runtime/src/mark_sweep_allocator.c:137-141 | a block that a registered root cell points into is among what a collection keeps |
| `MarkSweepRuntime.Allocator.AddBlock` | runtime/src/mark_sweep_allocator.c:189-201 | the in-place allocation before its threshold test computes `Add` |
| `MarkSweepRuntime.Allocator.Alloc` | runtime/src/mark_sweep_allocator.c:187-212 | the in-place allocation computes `Alloc` and returns the payload address; when `malloc` fails it returns NULL and changes nothing |
| `MarkSweepRuntime.Allocator.Shutdown` | runtime/src/mark_sweep_allocator.c:249-260 | the in-place shutdown computes `Shutdown` |
| `MarkSweepRuntime.Allocator.FreeAll` | runtime/src/mark_sweep_allocator.c:252-258 | freeing from the head empties the list, each header once |
| `Scopes.ExitUndoes` | include/jblang/types/SymbolTable.h:38-48 | leaving a scope undoes entering it and any number of declarations in between, which are what the scope then holds |
| `Scopes.AddLookup` | include/jblang/types/SymbolTable.h:55-86 | small fact: a declaration decides the lookup of its own name and of no other |
| `Scopes.EnterLookup` | include/jblang/types/SymbolTable.h:38-41 | small fact: an empty scope changes no lookup |
| `Scopes.InOrder` | include/jblang/types/SymbolTable.h:88-92 | the iteration of a scope lists each name once |
| `Scopes.InOrderSorted` | include/jblang/types/SymbolTable.h:88-92 | in ascending order, which `std::map` guarantees |
| `SymbolTables.SymbolTable.constructor` | include/jblang/types/SymbolTable.h:27-30 | one empty scope |
| `SymbolTables.SymbolTable.EnterScope` | include/jblang/types/SymbolTable.h:38-41 | in place, computes `Enter` |
| `SymbolTables.SymbolTable.ExitScope` | include/jblang/types/SymbolTable.h:43-48 | in place, computes `Exit`, also without scopes |
| `SymbolTables.SymbolTable.AddSymbol` | include/jblang/types/SymbolTable.h:55-64 | fails exactly when there is no scope; otherwise computes `Add` |
| `SymbolTables.SymbolTable.LookupSymbol` | include/jblang/types/SymbolTable.h:66-86 | the two loops find the innermost binding, then the first parameter |
| `SymbolTables.SymbolTable.CurrentScopeSymbols` | include/jblang/types/SymbolTable.h:88-92 | the innermost scope, or nothing |
| `Source.After` | src/ast/TranspilerVisitor.cpp:132-205 | a statement changes only the innermost scope of the table |
| `Source.BlockTable` | src/ast/TranspilerVisitor.cpp:179-205 | small fact: a block leaves the table as it found it |
| `Visitors.Visitor.IncOperand` | src/codegen/CCodeGenerator.cpp:110-118 | emits the increment exactly for pointer variables, and only when counting is on |
| `Visitors.Visitor.DecOperand` | src/codegen/CCodeGenerator.cpp:120-134 | the same for the release |
| `Visitors.Visitor.IncArguments` | src/ast/TranspilerVisitor.cpp:407-480 | the loop emits one increment per pointer argument, in order |
| `Visitors.Visitor.DecArguments` | src/ast/TranspilerVisitor.cpp:407-480 | and one release per pointer argument behind the call |
| `Visitors.Visitor.ReleaseScope` | src/ast/TranspilerVisitor.cpp:192-198 | the loop over the scope emits `ScopeDecs`: each pointer once, in name order |
| `Visitors.Visitor.VisitVarDecl` | src/ast/TranspilerVisitor.cpp:132-177 | appends exactly the translation of the declaration, and adds the name after its initializer was looked up |
| `Visitors.Visitor.VisitAssign` | src/ast/TranspilerVisitor.cpp:358-398 | appends exactly the translation of an assignment to a variable |
| `Visitors.Visitor.VisitStore` | src/ast/TranspilerVisitor.cpp:376-397 | appends exactly the translation of a store, with the increment only if the base is found and is a pointer |
| `Visitors.Visitor.VisitCall` | src/ast/TranspilerVisitor.cpp:407-480 | appends exactly the translation of a call statement |
| `Visitors.Visitor.VisitReturn` | src/ast/TranspilerVisitor.cpp:213-235 | appends exactly the translation of a return |
| `Visitors.Visitor.VisitBlock` | src/ast/TranspilerVisitor.cpp:179-205 | appends a braced block with the releases of its scope and restores the table |
| `Visitors.Visitor.VisitStatement` | src/ast/TranspilerVisitor.cpp:132-235 | for every statement, by structural recursion, appends `Translate` and leaves the table `After` |
| `Visitors.Visitor.VisitIf` | src/ast/TranspilerVisitor.cpp:887-907 | appends exactly the translation of an `if` |
| `Visitors.Visitor.VisitWhile` | src/ast/TranspilerVisitor.cpp:909-921 | appends exactly the translation of a `while` |
| `Visitors.Visitor.VisitFunction` | src/ast/TranspilerVisitor.cpp:93-130 | appends exactly the compiled body of a function |
| `CountingOps.IncExact` | runtime/src/reference_count_allocator.c:41-54 | an emitted increment of a live block keeps counts exact with one more holder |
| `CountingOps.RecordExact` | runtime/src/reference_count_allocator.c:46-50 | an increment with a second block keeps counts exact with one more recorded edge or lost increment |
| `CountingOps.DecExact` | runtime/src/reference_count_allocator.c:56-72 | an emitted release of a held block keeps counts exact with one holder fewer |
| `CountingOps.NewExact` | runtime/src/reference_count_allocator.c:21-39 | an allocation is counted once for whoever receives it |
| `CountingOps.BindExact` | src/ast/TranspilerVisitor.cpp:407-480 | the parameters of a callee hold exactly what was counted for the arguments |
| `CountingOps.BindAt` | src/ast/TranspilerVisitor.cpp:407-480 | each parameter gets the value of its own argument |
| `CountingOps.ScopeDecsExact` | src/ast/TranspilerVisitor.cpp:192-198 | the releases at the end of a scope take away exactly what its variables hold |
| `Emit.ScopeDecsSorted` | src/ast/TranspilerVisitor.cpp:192-198 | they are the releases of exactly the pointers of the scope, each once, in ascending order of names |
| `Counting.DeclSafe` | src/ast/TranspilerVisitor.cpp:150-170 | a declaration ends with exact counts and the new variable among the holders |
| `Counting.AssignSafe` | src/ast/TranspilerVisitor.cpp:366-397 | so does an assignment, which gives up the old value |
| `Counting.AssignSettles` | src/ast/TranspilerVisitor.cpp:366-397 | an assignment to a variable or to a parameter ends with exact counts for what the frame then holds, in any code whose part reached by the right-hand side is well formed |
| `Counting.StoreSafe` | src/ast/TranspilerVisitor.cpp:376-397 | so does a store to a field, and the pointer stored is then an edge of the block stored into or a lost increment |
| `FieldStores.StoreCounts` | src/ast/TranspilerVisitor.cpp:376-397 | running the translation of `v->f = w` on two pointers: the field holds the second, whose count is one higher, and the first block has the edge or the increment is lost |
| `FieldStores.StoreOutlives` | src/ast/TranspilerVisitor.cpp:376-397 | after `v->f = w`, whatever runs next: at every moment with exact counts, the stored block is live if the block stored into is |
| `FieldStores.FieldLive` | src/ast/TranspilerVisitor.cpp:376-397 | with exact counts no pointer in a field of a live block dangles |
| `FieldStores.ProgramFieldsLive` | src/ast/TranspilerVisitor.cpp:376-397 | so at the end of every run of every well-formed program |
| `Counting.CallStmtSafe` | src/ast/TranspilerVisitor.cpp:407-480 | so does a call statement |
| `Counting.CallSafe` | src/ast/TranspilerVisitor.cpp:407-480 | a call, recursive or not, gives its counted arguments back and hands over a result counted once |
| `Counting.BlockSafe` | src/ast/TranspilerVisitor.cpp:179-205 | a block ends with the holders it started with |
| `Counting.IfSafe` | src/ast/TranspilerVisitor.cpp:887-907 | so does a branch |
| `Counting.WhileSafe` | src/ast/TranspilerVisitor.cpp:909-921 | so does a loop, for any number of iterations |
| `Counting.ReturnSafe` | src/ast/TranspilerVisitor.cpp:213-235 | a return, from any depth where no enclosing scope declares a pointer, hands over a result counted once and leaves just the counts of the arguments |
| `Counting.StmtSafe` | src/ast/TranspilerVisitor.cpp:132-235 | every statement of the fragment, whether it goes on or returns: no use of freed memory, exact counts at every boundary inside and at the end |
| `Counting.BodySafe` | src/ast/TranspilerVisitor.cpp:93-130 | the same for a function body with its releases or its return |
| `Counting.ProgramSafe` | src/ast/TranspilerVisitor.cpp:93-235 | every run of every well-formed program stays exact at every statement boundary and never touches freed memory |
| `Counting.ProgramFreesAll` | src/ast/TranspilerVisitor.cpp:93-235 | without lost increments and cycles, a program whose `main` returns no pointer frees all it allocated: no block, no bytes in use, every allocation collected |
| `Accounts.ExecKeeps` | runtime/src/reference_count_allocator.c:21-72 | whatever emitted code runs, with right or wrong counts, the statistics stay true, and live blocks keep their edges |
| `Accounts.RunAccounted` | runtime/src/reference_count_allocator.c:21-72 | every run of every emitted program ends with bytes equal to the live sizes, allocations live or collected, and a peak not below them |
| `Counting.ReleaseOrder` | src/ast/TranspilerVisitor.cpp:192-198 | releasing the pointers of a scope in any order gives the same memory |
| `OverRelease.DecTracks` | runtime/src/reference_count_allocator.c:56-72 | a release of anything, with right or wrong counts and amid unfinished ones: every count stays references minus releases too many |
| `OverRelease.TrackedBalanced` | runtime/src/reference_count_allocator.c:56-72 | if the counts come out right after all, the releases were exactly the references too many |
| `Exactness.UniqueHolders` | runtime/src/reference_count_allocator.c:41-72 | exact counts determine the holders |
| `Exactness.ReleasesExactIff` | src/ast/TranspilerVisitor.cpp:407-480 | the releases behind a call settle the counts if and only if what was left to release is what they release |
| `Exactness.AssignCallExactIff` | src/ast/TranspilerVisitor.cpp:366-397 | `x = f(..)` in any code, with `f` well formed, is exact if and only if `x` is not passed as a pointer or gets the value it had |
| `Exactness.CallStmtExactIff` | src/ast/TranspilerVisitor.cpp:407-480 | a call statement in any code, its callee well formed, is exact if and only if its result is not a pointer, or NIL |
| `Exactness.ReturnExactIff` | src/ast/TranspilerVisitor.cpp:213-235 | a `return` at any depth is exact for the caller if and only if enclosing scopes and parameters hold what was counted for the arguments |
| `Exactness.NestedReturnExactIff` | src/ast/TranspilerVisitor.cpp:213-235 | with parameters as passed: if and only if the enclosing scopes hold no pointer |
| `Exactness.BodyEndExactIff` | src/ast/TranspilerVisitor.cpp:179-205 | a body that ends without `return` is exact for the caller if and only if the parameters hold what was counted for them |
| `Limits.SelfCallFails` | src/ast/TranspilerVisitor.cpp:366-397 | a failing input: `x = f(x)` ends in a wrong count, in every run long enough |
| `Limits.SelfCallCondition` | src/ast/TranspilerVisitor.cpp:366-397 | that program has the shape of `AssignCallExactIff`, and its condition fails there |
| `Limits.AssignedParameterFails` | src/ast/TranspilerVisitor.cpp:392-395 | a failing input: assigning to a parameter, whose reference the caller gives up again |
| `Limits.AssignedParameterCondition` | src/ast/TranspilerVisitor.cpp:392-395 | there the assignment is exact, and the condition of `BodyEndExactIff` fails |
| `Limits.NestedReturnFails` | src/ast/TranspilerVisitor.cpp:213-235 | a failing input: `return` in an inner block releases that scope only |
| `Limits.DiscardedFails` | src/ast/TranspilerVisitor.cpp:407-480 | a failing input: a pointer result that nobody takes keeps its count |
| `Limits.DiscardedCondition` | src/ast/TranspilerVisitor.cpp:407-480 | that program has the shape of `CallStmtExactIff`, and its condition fails there |
| `Erasure.OffIsErased` | src/codegen/CCodeGenerator.cpp:110-134 | with counting off, each statement translates to its counted translation without the counting calls |
| `Erasure.ProgramOffIsErased` | src/codegen/CCodeGenerator.cpp:110-134 | the same for whole programs |
| `Erasure.SameRun` | src/ast/TranspilerVisitor.cpp:132-235 | if the counted run has no counting error, the erased run takes the same course |
| `Erasure.CountingInvisible` | src/codegen/CCodeGenerator.cpp:110-134 | for every well-formed program both runs give the same result, the same field contents, and stop the same way |
| `Meaning.StmtMeans` | src/ast/TranspilerVisitor.cpp:132-235 | for every statement of every program, the translation without counts ends as the statement does when it is run directly on variables and objects |
| `Meaning.ApplyMeans` | src/ast/TranspilerVisitor.cpp:407-480 | the same for calls, with the body in scopes of its own |
| `Meaning.PlainMeans` | src/ast/TranspilerVisitor.cpp:93-235 | every run of every program emitted without counts is a run of its source: result, fields, sizes, way of stopping |
| `Meaning.CountedMeans` | src/ast/TranspilerVisitor.cpp:93-235 | so is every run of every well-formed program emitted with counts |
| `Mangling.FindUnderscore` | src/types/TypeSystem.cpp:309 | the first underscore, or none |
| `Mangling.BaseNameIff` | src/types/TypeSystem.cpp:309-350 | cutting at the first underscore recovers the method name if and only if the class name has no underscore |
| `Mangling.MangleSameIff` | src/ast/TranspilerVisitor.cpp:671 | exactly when two methods get the same emitted name |
| `Mangling.ClassesCollideIff` | src/ast/TranspilerVisitor.cpp:671 | methods of two classes can collide if and only if one class name followed by an underscore begins the other |
| `Mangling.MangleInjective` | src/ast/TranspilerVisitor.cpp:671 | different methods get different names, for underscore-free class names |
| `Mangling.MangleCollides` | src/ast/TranspilerVisitor.cpp:671 | with an underscore in the class name they can collide |
| `Hierarchy.RegisterAcyclicIff` | src/types/TypeSystem.cpp:204-219 | a declaration, also a repeated one, keeps the parent relation acyclic if and only if its parent is neither the class itself nor below it |
| `Hierarchy.RegisterIff` | src/types/TypeSystem.cpp:204-219 | a declaration fails exactly if its parent is neither known nor the class itself, and sets just this class |
| `Hierarchy.SelfParentCycles` | src/types/TypeSystem.cpp:204-219 | a failing input: `class A : A` is accepted and gives a cycle |
| `Hierarchy.RedeclaringCycles` | src/types/TypeSystem.cpp:157-163 | a failing input: declaring A, then B below A, then A below B is accepted and gives a cycle |
| `Hierarchy.RankedIff` | src/types/TypeSystem.cpp:221-238 | a rank that makes every walk up end exists if and only if there is no cycle |
| `Hierarchy.AcyclicIff` | src/ast/TranspilerVisitor.cpp:530-557 | for classes declared once, the relation is acyclic if and only if no class is its own parent |
| `Hierarchy.RegisterAllRanked` | src/ast/TranspilerVisitor.cpp:530-557 | declaration order ranks every parent below its children, which is why every walk ends |
| `Hierarchy.BothPasses` | src/ast/TranspilerVisitor.cpp:530-557 | the second pass reports no error and changes nothing |
| `Hierarchy.AboveTransitive` | src/types/TypeSystem.cpp:221-238 | being above is transitive |
| `Dispatch.SubclassIsClosure` | src/types/TypeSystem.cpp:221-238 | `isSubclassOf` is the strict transitive closure of the parent relation |
| `Dispatch.CompatibleIff` | include/jblang/types/TypeSystem.h:160-171 | class pointers are compatible exactly upwards |
| `Dispatch.CompatiblePartialOrder` | include/jblang/types/TypeSystem.h:160-171 | compatibility of class pointers is reflexive, antisymmetric and transitive |
| `Dispatch.CompatibleExact` | include/jblang/types/TypeSystem.h:160-171 | for all types: compatible exactly if C spells them the same, or as pointers to a class and a class above it |
| `Dispatch.AncestorLayoutIsPrefix` | src/types/TypeSystem.cpp:240-258 | at any depth, an ancestor's members are a prefix of its descendants' members |
| `Dispatch.LayoutExact` | src/types/TypeSystem.cpp:240-258 | the members of a class are those of its chain, the highest class first and its own last; an unknown class is an error |
| `Dispatch.MemberIff` | src/types/TypeSystem.cpp:240-258 | a class has exactly the members declared in it or above it |
| `Dispatch.AllVirtualsExact` | src/types/TypeSystem.cpp:277-300 | `getAllVirtualMethods` names exactly the methods virtual in the class or above it |
| `Dispatch.OwnByBase` | src/types/TypeSystem.cpp:348-354 | the first method of a class with the base name, or proof that there is none |
| `Dispatch.OwnByName` | src/ast/TranspilerVisitor.cpp:814-821 | the first method of a class with the emitted name, or proof that there is none |
| `Dispatch.OwnByBaseFirst` | src/types/TypeSystem.cpp:348-354 | of several with the base name it is the first |
| `Dispatch.OwnByNameFirst` | src/ast/TranspilerVisitor.cpp:814-821 | of several with the emitted name it is the first |
| `Dispatch.LookupsAgree` | src/ast/TranspilerVisitor.cpp:813-831 | the call-site walk and `findMethodImplementation` find the same function, and fail on the same names |
| `Dispatch.CallFindsNearest` | src/ast/TranspilerVisitor.cpp:813-831 | the call-site walk finds the nearest declaration at or above the class, and fails exactly if there is none |
| `Dispatch.VTableExact` | src/types/TypeSystem.cpp:323-342 | a vtable has one initialiser for each method virtual in the class or above it, and no other |
| `Dispatch.VTableSlotsExact` | src/types/TypeSystem.cpp:302-321 | the vtable type has a slot for exactly the methods virtual in some class |
| `Overriding.SaysVirtual` | src/ast/TranspilerVisitor.cpp:673-674 | every text with the word in it makes a method virtual |
| `Overriding.VirtualSplit` | src/ast/TranspilerVisitor.cpp:673-674 | and no other text does |
| `Overriding.DeclareClass` | src/ast/TranspilerVisitor.cpp:596-748 | for a new or repeated class, errors and resulting classes are those of `Register` |
| `Overriding.AddMethodsAppends` | src/types/TypeSystem.cpp:176-182 | methods are only appended, one per declaration, and only to their own class |
| `Overriding.VirtualInSame` | src/ast/TranspilerVisitor.cpp:673-687 | declaring a class changes nothing for the classes above it |
| `Overriding.DeclareClassSound` | src/ast/TranspilerVisitor.cpp:671-711 | a declared class keeps: names carry the class, and whatever overrides a virtual method is virtual |
| `Overriding.DeclareAllSound` | src/ast/TranspilerVisitor.cpp:596-748 | the same for every program of classes |
| `Overriding.SecondPassAgrees` | src/ast/TranspilerVisitor.cpp:673-687 | working `isVirtual` out again on the finished table gives what the first pass recorded, for every method of every class |
| `Overriding.VirtualBelow` | src/ast/TranspilerVisitor.cpp:673-687 | a method virtual in a class is virtual in every class below it, whichever of them overrides it |
| `Overriding.Dispatches` | src/types/TypeSystem.cpp:302-362 | for a virtual call on a class, every class below has the slot, filled once, with its nearest declaration, which is itself virtual |
| `Overriding.ProgramDispatches` | src/ast/TranspilerVisitor.cpp:596-831 | the same for every program as the first pass declares it |
| `Overriding.AccessOkIff` | src/ast/TranspilerVisitor.cpp:845-851 | the vtable field named by a virtual call exists if and only if the class is at most one step below the topmost class and that class has the field |
| `Overriding.ThirdLevelMisses` | src/ast/TranspilerVisitor.cpp:845-851 | a failing input: three classes the first pass accepts, where a virtual call on the third is found and names a field that does not exist |
| `TypeSystems.TypeSystem.constructor` | include/jblang/types/TypeSystem.h:115 | no classes, no methods |
| `TypeSystems.TypeSystem.RegisterClass` | src/types/TypeSystem.cpp:157-163 | in place, the class is (re)set to no parent and no members |
| `TypeSystems.TypeSystem.SetClassParent` | src/types/TypeSystem.cpp:204-219 | in place; each missing class gives its own error and changes nothing |
| `TypeSystems.TypeSystem.SetClassMembers` | src/types/TypeSystem.cpp:165-174 | in place; a missing class is an error and changes nothing |
| `TypeSystems.TypeSystem.RegisterClassMethod` | src/types/TypeSystem.cpp:176-182 | in place, the method is appended |
| `TypeSystems.TypeSystem.ClassFromCode` | src/ast/TranspilerVisitor.cpp:530-557 | both passes compute `Register` and `Revisit`, errors included |
| `TypeSystems.TypeSystem.DeclareMethod` | src/ast/TranspilerVisitor.cpp:674-710 | one method of a class is registered, virtual if it says so or overrides a virtual one |
| `TypeSystems.TypeSystem.DeclareClass` | src/ast/TranspilerVisitor.cpp:596-748 | the first pass over a class computes `DeclareClass` |
| `TypeSystems.TypeSystem.IsSubclassOf` | src/types/TypeSystem.cpp:221-238 | the loop ends and decides whether the one class is above the other |
| `TypeSystems.TypeSystem.GetAllClassMembers` | src/types/TypeSystem.cpp:240-258 | the recursion that appends to a vector computes `AllMembers`, errors included |
| `TypeSystems.TypeSystem.GetAllVirtualMethods` | src/types/TypeSystem.cpp:277-300 | the loops with their seen-set compute `AllVirtuals` |
| `TypeSystems.TypeSystem.FindMethodImplementation` | src/types/TypeSystem.cpp:344-362 | the loop computes `FindImplementation`, with the fallback name |
| `TypeSystems.TypeSystem.GenerateVTableInstance` | src/types/TypeSystem.cpp:323-342 | the loop computes the initialisers of `VTable` |
| `TypeSystems.TypeSystem.GenerateVTableStruct` | src/types/TypeSystem.cpp:302-321 | the loop collects exactly the methods virtual in some class |
| `TypeSystems.TypeSystem.ResolveCall` | src/ast/TranspilerVisitor.cpp:813-831 | the loop computes `CallSite`, with its error |
| `Printing.LexPrint` | src/ast/TranspilerVisitor.cpp:308-356 | reading the printed text of any tree back gives its source tokens, whatever follows it |
| `Printing.TokensPreserved` | src/ast/TranspilerVisitor.cpp:308-356 | the emitted tokens are the source tokens, as the lexer of JBLang splits the text |
| `Printing.TokensPreservedInC` | src/ast/TranspilerVisitor.cpp:308-356 | as a C lexer splits it they are, if and only if no number stands directly before a dot |
| `Printing.NumberBeforeDot` | src/ast/TranspilerVisitor.cpp:326-330 | small fact, a failing input: `1.f` |
| `Printing.PrintIsRender` | src/ast/TranspilerVisitor.cpp:308-356 | the printed text depends on the tokens alone |
| `Printing.SamePrintIff` | src/ast/TranspilerVisitor.cpp:308-356 | two trees print the same C if and only if they have the same tokens |
| `Printing.ArrowBelowAssign` | grammar/JBLang.g4:107-129 | small fact: with `->` below `=`, both groupings of `x = y->f` print alike, and are different trees |

## Left out

- Counting.ProgramSafe: covers the fragment of `Source.StmtOk`. Outside it the inserted calls do not follow the holders: programs with `x = f(x)`, an assigned parameter, a `return` inside a scope that declares a pointer and a discarded pointer result are proved to go wrong (`Limits`), and `Exactness` has the exact condition for each at the statement itself, for callees that are well formed. Pointer fields read on the right of an assignment, upcasts, uninitialised pointers, strings as pointers, address-of, arrays of pointers, `return` of a call, and calls nested in larger expressions cannot be written in the model.
- Machine: addresses are not reused after a free, so that touching a freed block is always noticed; the runtime models themselves allow reuse.
- RefCountRuntime.Runtime.Dec: the `offset` argument is always 0 in emitted code and is left out; counts and byte totals are unbounded integers.
- RefCountRuntime.Runtime.Alloc: a failing `malloc` is not modelled; the C code would write through it.
- MarkSweepRuntime.Allocator.Alloc: payloads are whole words, which the word-wise scan assumes, and byte totals are unbounded integers.
- MarkSweepRuntime.Allocator.RegisterRoot: a full table is reported to the caller, where the C code exits.
- Freeing one mark-sweep block by hand (`ms_dealloc`), the simple allocator and the dispatch between allocators: thin wrappers.
- Global variables of a program, which the emitted `main` registers as roots.
- Visitors.Visitor.VisitFunction: the emitted lines are statements and braces, not characters; indentation and signatures are not modelled, and the first pass over functions emits nothing.
- Overriding.DeclareClass: a declaration that makes a cycle is excluded, because the walk over its ancestors does not end.
- Dispatch.CompatibleIff: array types are left out of `isCompatible`.
- TypeSystems.TypeSystem.GenerateVTableStruct: the set of slots, without its printing.
- Constructors of classes, field access through `this->parent.`, and the argument passed to an inherited method that is not virtual.
- Printing.TokensPreserved: string literals, calls, `new`, unary operators, braces and `->` on classes are not in the trees.
- Overriding.ProgramDispatches: classes declared once; a repeated declaration keeps the methods of the earlier one (`AddMethodsAppends`), and nothing is claimed about its vtable.
- Lexing and parsing, `for`, `spawn`, `typedef` and `#define` handling, and the command line.
