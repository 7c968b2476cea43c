# Models and proofs for the Syli compiler and runtime

Syli is an ML-like language with a compiler written in OCaml and a runtime in C that
counts references and collects the cycles that counting misses. This project models the
parts where a slip would be hard to see, and proves what they are for. All files are plain
Dafny modules; `dafny verify dfyconfig.toml` checks them together.

## What is modelled

**The runtime** (`Heap`, `Registry`, `Dismantle`, `Releasing`, `LostCycles`, `ReclaimResult`,
`ReclaimExamples`, `Marking`, `Mutator`, `Collector`, `History`, `Generations`, `Disturbed`,
`DisturbedExamples`, `Machine`, `Runtime`). Objects carry a mark, flags, a count and slots;
a slot is empty, owns, borrows or holds a word, and only owning slots in reference fields of
the object's layout count. Every operation is a function on the whole runtime state that
marks misuse (an access to freed memory, a pop of an empty list, a failed assertion) in a
fault flag; `Runtime.SyliState` is the object whose fields the C code updates, and each of its
methods equals its function. The central notion is a set of objects that supports itself:
each member has an external owner, is owned from within, or is dead and queued. Everything
about safety and completeness of release and reclaim is said with such sets, and then with
what owners and release lists reach. `History` is about the runtime as it is driven: turns of
the tracing machine, turns of the releasing machine and mutator steps in any order, with a
collection cut into as many calls as its budgets ask for.

**Closure dispatch** (`DispatchIds`, `ClosureGraph`, `Oir`, `Trampolines`, `ClosureDispatch`,
`Application`, `ReturnTypes`, `ChainTypes`, `ApplicationExamples`, `DispatchExamples`,
`LinkExamples`, `StoredExamples`). Path numbering of the closure graph, path summaries, the
return types carried back from the leaves, the generated accumulators and wrappers as programs
of a small object-level language with an interpreter, and lowering that generates each function
once per name. Functions carry parameter and return types, calls the type they are made at, and a
call at other machine types than the function's own has no meaning. An application of a chain of
closure objects is followed from the call to the function that finally runs, and compared with
what the chain's own function would return.

**Graph analyses** (`Graphs`, `CyclicComponents`, `CyclicAnalysis`, `TypeReferences`,
`CyclicHeap`, `CyclicPrograms`). Kosaraju's two searches on arbitrary finite graphs, the
classification of types by mutable cycles, what edges the declarations call for, and the bridge
to the heap: for which programs registering the objects of mutable-cyclic types makes the
reclaim complete.

**Liveness** (`Cfg`, `Liveness`), **unification** (`Types`, `Unification`), the **chunked vector**
(`ChunkVector`), the **indentation pass** (`Layout`) and the **stack-map decoder** (`StackMap`).

## Where code and promise part

The model follows the code. These are the places where a promised property needs a
condition; each is stated as an if-and-only-if, with a concrete input where one fails.

- A candidate that owns itself is queued a second time by the release of its own fields and
  freed twice (`LostCycles.StepSoundIff`, `ReclaimExamples.SelfLoopFreedTwice`).
- A dead candidate on the waiting list is protected from the scan only by its mark, which the
  next toggle removes (`ReclaimExamples.WaitingCandidateFreed`).
- A reclaim that begins with objects on the release lists can half dismantle a candidate that
  such an object owns; the releasing machine, which does not look at that flag, then dismantles
  it again (`ReclaimExamples.OwnedCandidateDismantledTwice`). Nothing half dismantled is left if
  and only if no unmarked candidate hangs from an owner, a release list or a cycle that the scan
  leaves alone (`ReclaimResult.LeftoversIff`).
- Roots are collected once. A reference that is taken out of a field before the trace has come
  to it leads to an object that stays unmarked, and the reclaim frees what that object owns
  (`DisturbedExamples.TakenReferenceIsReclaimed`). What is reached stays untouched if and only if
  the registered objects among it are marked when the reclaim begins
  (`ReclaimResult.ReclaimSafeIff`), that is, if the trace was still going to come to them when
  the mutator last acted (`Disturbed.RestMarksShaded`, `Disturbed.DisturbedSafeIff`).
- The next collection needs every object to carry the current mark. An undisturbed collection leaves
  the heap so if and only if the release lists were empty and every cycle out of the owners' reach
  held a candidate (`Generations.CollectionRestsIff`). Any other does if and only if, where the
  mutator and the releasing machine last acted in it, all that owners, release lists and kept cycles
  hold was marked, or was still going to be (`Generations.DisturbedRestsIff`,
  `Disturbed.DisturbedRestIff`).
- The direct free of an object without fields looks at no list, and the releasing machine's free
  does not look at the barrier's list: the trace keeps its invariant if and only if what they free
  is not still to be walked (`Mutator.DropTraceIff`, `Mutator.ReleaseTraceIff`).
- The barrier ignores stores through borrowed pointers and into holders that are not traceable
  (`Mutator.BarrierIff`, `DisturbedExamples.BorrowedStoreIsMissed`).
- A closure that is moved gets no object of its own, so the weight of the edge into it is never
  added at run time (`Application.ChoosesPathIff`). Moved into two variables that are applied at
  two types, a closure runs the function specialised for the wrong one
  (`ApplicationExamples.MovedTwiceMisdirects`).
- An application means what it should if and only if all accumulators of its chain return what it
  asks for, and the id summed at run time leads to a wrapper that was generated, takes what the root
  passes on and calls the right function at the right types (`Application.MeaningIff`). The bullets
  below say when each of these fails.
- Carrying return types back forgets a type that it meets again, so a type that all leaves behind a
  node share is found there exactly when the number of paths to leaves through the node is odd
  (`ReturnTypes.ConcreteRetIff`); for a root that is the number of its specialisations
  (`ReturnTypes.RootCount`, `ReturnTypes.RootRetIff`). Every node decides for itself, so a chain's
  accumulators can return different types, and the call from one to the next, or from the
  application to the last, then has no meaning. Unless the result is a machine word, they agree if
  and only if every closure on the chain has its type found exactly when the application asks for
  it, that is when the last closure is not generic or nothing is returned
  (`ChainTypes.SiteAgreesIff`). For a root that has found a type every link must have found it too
  (`ChainTypes.OddRootAgreesIff`). Three applications that return floats, two of them of one partial
  application, leave the link without the type that its root has (`LinkExamples.LinkReturnsWord`).
- A root's accumulator may call a wrapper under a name that was never generated. A root with one
  specialisation calls it without a result cast, even where it was generated with one, and a root
  that is not generic calls its wrappers with a cast where they were generated without
  (`Application.WrapperNamesIff`, with the computed types `ReturnTypes.CalledIsGeneratedIff`). Both
  happen: two applications that return floats are stuck (`DispatchExamples.TwoFloatsAreStuck`), and
  so is one application of a closure that is also handed to a function
  (`DispatchExamples.HandedOverIsStuck`).
- A wrapper's name does not say how many of its arguments are stored, yet its parameter types depend
  on it: a stored reference is passed as a reference, an applied one as a word. Roots that share a
  wrapper pass on what it takes if and only if both store the same reference arguments
  (`Application.WrapperFitsIff`). One function, given its reference argument in one place and used
  bare in another, breaks it (`StoredExamples.StoredElsewhereIsStuck`).
- Wrappers are named by lowered types, and all arrow types lower to one pointer type. Every
  wrapper calls its own function if and only if all specialisations with one wrapper name have the
  same source types (`Application.CalleesIff`); a function applied to closures of two types breaks
  it (`DispatchExamples.SharedWrapperCallsOther`).
- An application that itself returns a closure has a specialisation that expects the result's
  parameters as well (`Application.ArityIff`). Arrows are flattened, so this takes a type variable
  that stands for an arrow (`DispatchExamples.ReturnedClosureIsStuck`).
- A child recorded twice leaves numbers below the count without a path
  (`DispatchIds.RanksOntoIff`).
- Elements of an array count as immutable in the type graph although the language can assign
  them (`TypeReferences.ArrayElementsCountAsImmutable`), and arrows have no edges at all although a
  closure can capture what it is stored into. Every cycle in every well-typed heap holds a
  registered object if and only if no closed walk through the program's shapes uses a field that
  can be assigned and avoids the registered ones (`CyclicHeap.CandidatesCoverIff`); such a walk
  passes through a closure or is closed by an array (`CyclicPrograms.BlindWalkIsClosureOrArray`).
  Both lose cycles (`CyclicPrograms.ClosureCycleIsMissed`, which is the shape of
  `test/exec/closure_cyclic_capture.t`, and `CyclicPrograms.ArrayCycleIsMissed`).
- For an alias that expands to itself the visited set ends the expansion where edges are still
  called for (`TypeReferences.LoopedAliasMissesEdge`).
- Closing brackets that were never opened: the first takes the top level away and the second
  puts it back. The context of every token of every input is given by `Layout.ContextIsBalance`;
  when it agrees with "all brackets are closed" is said by `Layout.TopLevelMeansBalancedIff`, and
  `Layout.StrayClosersToggleTopLevel` shows an input of each kind.
- The comment above `build_partial_closure_accum_dispatch` names the fields of a dispatching
  link in another order than the code loads them (`compiler/middle_end/gen_closure_helpers.ml`,
  lines 124-128); the model has the edge weight in field 1 and the parent in field 2, as
  `compiler/ir/cir.ml`, lines 18-26, does.

## Model

| member | source | states |
|---|---|---|
| CyclicComponents.FinishKeepsOrderInv | compiler/helpers/cyclic_components.ml:6-17 | finishing a node keeps the finish-order invariant: every finished node is settled in its component or mutually reachable with an open node |
| CyclicComponents.FinishOrder.Dfs | compiler/helpers/cyclic_components.ml:9-14 | the first search keeps that invariant and visits its start |
| CyclicComponents.FinishOrder.Run | compiler/helpers/cyclic_components.ml:6-17 | the finish order covers every node, also edge targets that are no keys |
| CyclicComponents.Collector.Collect | compiler/helpers/cyclic_components.ml:23-31 | the second search collects exactly the newly visited nodes, all reachable backwards from its start |
| CyclicComponents.CollectedIsComponent | compiler/helpers/cyclic_components.ml:23-37 | what one collection adds is the whole strongly connected component of its start |
| CyclicComponents.ReverseIsReverse | compiler/helpers/graph.ml:33-40 | the reversed graph has exactly the turned-around edges, among the same nodes |
| CyclicComponents.KosarajuScc | compiler/helpers/cyclic_components.ml:19-39 | the lists partition the nodes, and two nodes share a list if and only if each reaches the other |
| CyclicComponents.HasCycleMeansOnCycle | compiler/helpers/cyclic_components.ml:41-49 | a component passes the filter if and only if its nodes lie on closed walks |
| CyclicComponents.CyclicComponents | compiler/helpers/cyclic_components.ml:41-49 | exactly the components through which a closed walk passes are kept |
| Registry.RegisterKeepsRegistry | runtime/include/syli/gc_helpers.h:23-37 | registering keeps every entry at its stored index and the flag equal to membership |
| Registry.RemoveFacts | runtime/include/syli/gc_helpers.h:39-55 | swap-removal at any index keeps the registry sound, drops exactly that object and moves entries only downwards |
| Registry.FreeReleasedFacts | runtime/include/syli/gc_helpers.h:57-81 | freeing an object keeps the registry sound and touches nothing else; an object on the tracing list is only flagged |
| Dismantle.DecrChildKeeps | runtime/src/syli_state_gc_releasing.c:9-28 | dropping one reference keeps counts exact, lists sound and every self-supporting set alive, whatever becomes of the child |
| Dismantle.DismantleKeeps | runtime/src/syli_state_gc_releasing.c:36-77 | dismantling a whole object, under every layout, keeps all of that |
| Dismantle.EndFreed | runtime/src/syli_state_gc_releasing.c:79-80 | freeing the dismantled object restores the full invariant |
| Releasing.ReleaseStepKeeps | runtime/src/syli_state_gc_releasing.c:30-81 | one releasing step keeps counts exact, frees nothing that is still owned and consumes one object |
| Releasing.TurnKeeps | runtime/src/syli_state_gc_releasing.c:91-123 | every turn of the releasing machine keeps the invariant; exchanging the lists drops no entry |
| Releasing.DrainLeavesSupported | runtime/src/syli_state_gc_releasing.c:30-123 | draining the lists leaves exactly the members of self-supporting sets |
| Releasing.DrainExact | runtime/src/syli_state_gc_releasing.c:30-123 | draining leaves exactly what external owners reach if and only if no cycle of own references is out of their reach |
| LostCycles.ReclaimStepKeeps | runtime/src/syli_state_gc_tracing.c:169-285 | every reclaim step keeps counts exact, frees nothing protected and makes progress, unless it scans a candidate whose count is all its own |
| LostCycles.StepSoundIff | runtime/src/syli_state_gc_tracing.c:177-187 | a step keeps the reclaim's invariant if and only if the scanned candidate does not own itself into the queue twice |
| LostCycles.ProgressStep | runtime/src/syli_state_gc_tracing.c:169-285 | every step makes progress on (live objects, lost list and scan index) |
| LostCycles.Reclaim | runtime/src/syli_state_gc_tracing.c:373-383 | the reclaim ends, in a state with nothing lost and nothing left to scan |
| LostCycles.ReclaimExact | runtime/src/syli_state_gc_tracing.c:169-285 | a finished reclaim, with any release lists and after any trace, leaves untouched exactly the members of protected sets |
| ReclaimResult.ProtectedIsAnchored | runtime/src/syli_state_gc_tracing.c:169-285 | a protected set consists of what hangs from owners, release lists and cycles that the scan leaves alone |
| ReclaimResult.ReclaimSafe | runtime/src/syli_state_gc_tracing.c:238-285 | at every moment of a reclaim what the owners reach keeps its fields, if the scan was going to pass it by |
| ReclaimResult.ReclaimSafeIff | runtime/src/syli_state_gc_tracing.c:238-285 | however the trace went, a reclaim leaves all that the owners reach untouched if and only if every registered object among it was marked |
| ReclaimResult.UntouchedIff | runtime/src/syli_state_gc_tracing.c:238-285 | what is untouched hangs from owners, release lists or kept cycles, and is all of that if and only if the scan passes it by |
| ReclaimResult.LeftoversIff | runtime/src/syli_state_gc_tracing.c:238-285 | no survivor is half dismantled if and only if no unmarked candidate hangs from an owner, a release list or a kept cycle |
| ReclaimResult.ReclaimComplete | runtime/src/syli_state_gc_tracing.c:238-285 | exactly what owners and release lists hold survives, whole, if and only if the scan passes it by and every other cycle holds an unmarked candidate |
| ReclaimResult.RestsCurrentIff | runtime/src/syli_state_gc_tracing.c:238-285 | however the trace went and whatever the release lists hold, every survivor of a reclaim is whole and current if and only if all that owners, release lists and kept cycles hold was so when it began |
| ReclaimExamples.SelfLoopFreedTwice | runtime/src/syli_state_gc_tracing.c:182-187 | an unmarked candidate that owns itself is queued twice and freed twice |
| ReclaimExamples.WaitingCandidateFreed | runtime/include/syli/gc_helpers.h:114-130 | a dead candidate still on the waiting list is freed under the list once a toggle has taken its mark away |
| ReclaimExamples.OwnedCandidateDismantledTwice | runtime/src/syli_state_gc_releasing.c:30-81 | a reclaim that ends soundly leaves a candidate half dismantled, and releasing its dead owner dismantles it again |
| Marking.TraceStepKeeps | runtime/src/syli_state_gc_tracing.c:14-95 | a marking step keeps counts exact and every live marked holder covered |
| Marking.PrepareStepKeeps | runtime/src/syli_state_gc_tracing.c:97-162 | so does a mutation-prepare step |
| Marking.DrainedIsClosed | runtime/src/syli_state_gc_tracing.c:326-345 | with both lists empty, live marked objects own only marked objects |
| Marking.DrainedMarksShaded | runtime/src/syli_state_gc_tracing.c:326-345 | once both lists are empty the live marked objects are those owned from marked or listed live ones |
| Marking.TraceAllExact | runtime/src/syli_state_gc_tracing.c:14-95 | undisturbed, marking ends and marks exactly the objects owned from the roots |
| Marking.MarkedReach | runtime/src/syli_state_gc_tracing.c:14-95 | whatever an external owner reaches is marked when the lists are empty |
| Mutator.AllocSound | runtime/src/syli.c:11-27 | allocation enters a fresh object with exact counts, and registers mutable-cyclic ones (also runtime/src/syli.c, lines 142-161) |
| Mutator.DropSound | runtime/src/syli.c:44-70 | giving up an owner keeps counts exact, whether the object lives on, is queued or is freed at once |
| Mutator.DropTraceIff | runtime/src/syli.c:44-70 | giving up an owner keeps the trace's invariant if and only if it does not free an object that is on the worklist or the barrier's list |
| Mutator.ReleaseTraceIff | runtime/src/syli_state_gc_releasing.c:30-81 | a releasing step keeps the trace's invariant if and only if it frees nothing that is on the barrier's list |
| Mutator.BarrierIff | runtime/src/syli.c:112-136 | the tri-colour property survives a store if and only if the barrier covers the new edge |
| Mutator.TriColourAlways | runtime/src/syli.c:198-212 | after any interleaving of marking, prepare, releasing and mutator steps, drops that free included, every live marked holder is covered, and owns only marked objects once the lists are empty |
| Collector.StartTraceKeeps | runtime/src/syli_state_gc_tracing.c:301-334 | starting a trace from a rest, with any release lists, whitens the whole heap and begins from the collected roots |
| Collector.TurnAdvances | runtime/src/syli_state_gc_tracing.c:289-386 | every turn of the tracing machine advances an undisturbed collection without a fault |
| Collector.CycleResult | runtime/src/syli_state_gc_tracing.c:289-386 | back at idle, exactly what owners and release lists held at the start is left, whole, if and only if the lists held no candidate that the owners do not reach and every cycle out of reach holds one |
| Collector.CycleToIdle | runtime/src/syli_state_gc_tracing.c:289-386 | with empty release lists, exactly what the owners reached at the start is left if and only if every cycle out of their reach holds a registered candidate |
| Collector.ReachableStays | runtime/src/syli_state_gc_tracing.c:289-386 | at every moment of an undisturbed collection whatever the owners reach keeps its fields |
| History.TracingTurnKeeps | runtime/src/syli_state_gc_tracing.c:289-386 | every turn of the tracing machine keeps the runtime's invariant, in any phase |
| History.ReleasingTurnKeeps | runtime/src/syli_state_gc_releasing.c:91-123 | so does every turn of the releasing machine |
| History.MutatorStepKeeps | runtime/src/syli.c:11-212 | so does every mutator step, in the middle of a collection too, if the trace will still come to what it leaves owned |
| History.AlwaysSafe | runtime/src/syli_state_gc_tracing.c:289-386 | over any history of turns and mutator steps nothing faults, whatever the program reaches is in the heap, alive and whole, and at idle it carries the current mark |
| History.StartStateOk | runtime/src/syli_state.c:16-50 | the invariant holds in the empty state |
| History.DrainedMarksReached | runtime/src/syli_state_gc_tracing.c:326-345 | when the lists of a disturbed trace are empty, everything the program reaches is marked |
| History.TracingTurnKeepsReached | runtime/src/syli_state_gc_tracing.c:289-386 | a turn of the tracing machine leaves the fields and the life of everything reached as they are |
| History.ReleasingTurnKeepsReached | runtime/src/syli_state_gc_releasing.c:91-123 | so does a turn of the releasing machine |
| History.ReclaimLeaves | runtime/src/syli_state_gc_tracing.c:373-383 | when a reclaim is over, disturbed or not, what owners and release lists hold is whole, and what is whole hangs from them or from a kept cycle |
| History.BusyTurnLess | runtime/src/syli_state_gc_tracing.c:289-386 | every turn of a collection, disturbed or not, lowers the measure (phase, unmarked objects or live objects, list lengths) |
| History.RunToIdle | runtime/src/syli_state_gc_tracing.c:289-386 | from the middle of a collection, disturbed or not, the turns end, at idle or with the budget used up |
| Generations.EveryGeneration | runtime/src/syli_state_gc_tracing.c:312-333 | over any history of mutator steps, releasing turns and whole collections, undisturbed ones and ones that begin with any moves, that meet the two conditions below, counts are exact and all objects carry the current mark at every rest |
| Generations.CollectionRestsIff | runtime/src/syli_state_gc_tracing.c:289-386 | an undisturbed collection leaves every object whole and current if and only if it began with empty release lists and without a cycle out of reach that holds no candidate |
| Generations.DisturbedRestsIff | runtime/src/syli_state_gc_tracing.c:373-383 | a collection, from where the mutator and the releasing machine last acted in its reclaim, leaves every object whole and current if and only if all that owners, release lists and kept cycles hold was whole and marked there |
| Disturbed.RestMarksShaded | runtime/src/syli_state_gc_tracing.c:14-162 | after any mutation the rest of the trace, its two lists worked off in any order, marks exactly the live objects owned from marked or listed ones |
| Disturbed.DisturbedSafeIff | runtime/src/syli_state_gc_tracing.c:238-285 | the reclaim after a disturbed trace leaves all that is reached untouched if and only if the trace was still going to come to every registered object among it |
| Disturbed.DisturbedRestIff | runtime/src/syli_state_gc_tracing.c:238-285 | the collection leaves every object whole and current if and only if, when the mutator last acted in its trace, the trace was still going to come to all that owners and release lists hold and to every cycle without a registered object |
| DisturbedExamples.TakenReferenceIsReclaimed | runtime/src/syli_state_gc_tracing.c:309-324 | a reference taken out of a field in the middle of a trace leads to a freed object |
| DisturbedExamples.BorrowedStoreIsMissed | runtime/src/syli.c:198-212 | a store through a borrowed pointer breaks the tri-colour property, and the same store through an owning one does not |
| Machine.MachineAlways | runtime/src/syli_state_gc_tracing.c:289-386 | in every state reached by any actions the busy states have something to pop, the barrier list is empty outside a trace and exchanging the release lists loses nothing |
| Machine.AtMostOneStart | runtime/src/syli_state_gc_tracing.c:301-334 | one call starts at most one trace |
| Runtime.SyliState.RegisterCandidate | runtime/include/syli/gc_helpers.h:23-37 | the object-updating operation equals its specification on the whole state |
| Runtime.SyliState.RemoveCandidateAt | runtime/include/syli/gc_helpers.h:39-55 | the same for swap-removal |
| Runtime.SyliState.FreeReleasedObject | runtime/include/syli/gc_helpers.h:65-81 | the same for freeing |
| Runtime.SyliState.OneStepReleasing | runtime/src/syli_state_gc_releasing.c:30-81 | the same for a releasing step |
| Runtime.SyliState.SetReleasingWorking | runtime/src/syli_state_gc_releasing.c:83-89 | the same for exchanging the lists |
| Runtime.SyliState.GcReleasing | runtime/src/syli_state_gc_releasing.c:91-123 | the releasing loop runs until it must stop, keeps counts exact and every self-supporting set of live objects |
| Runtime.SyliState.OneStepTracing | runtime/src/syli_state_gc_tracing.c:14-95 | the same for a marking step |
| Runtime.SyliState.OneStepPrepareTracingMutations | runtime/src/syli_state_gc_tracing.c:97-162 | the same for a prepare step |
| Runtime.SyliState.OneStepScan | runtime/src/syli_state_gc_tracing.c:238-271 | the same for a scan step |
| Runtime.SyliState.OneStepFreeUnreachable | runtime/src/syli_state_gc_tracing.c:274-285 | the same for a free step |
| Runtime.SyliState.GcTracing | runtime/src/syli_state_gc_tracing.c:289-386 | a call, at any time, ends at idle or out of budget, keeps the invariant and everything the program reaches, and continues an undisturbed collection as one |
| Runtime.SyliState.OwnershipAllocObject | runtime/src/syli.c:142-161 | the same for allocation |
| Runtime.SyliState.ObjectDecr | runtime/src/syli.c:49-70 | the same for giving up an owner |
| Runtime.SyliState.OwnershipNotifyMutation | runtime/src/syli.c:198-212 | the same for the write barrier |
| DispatchIds.ComputeNExact | compiler/middle_end/closure_dispatch_id.ml:19-45 | the memo maps every node below a root to its true number of paths to leaves |
| DispatchIds.EdgeWeightExact | compiler/middle_end/closure_dispatch_id.ml:47-72 | below a root an edge weighs the path counts of the children before its last occurrence |
| DispatchIds.RankInRange | compiler/middle_end/closure_dispatch_id.ml:47-72 | the weights along a path sum to less than the path count of its start, within the first edge's interval |
| DispatchIds.RankInjective | compiler/middle_end/closure_dispatch_id.ml:47-72 | paths with equal sums are equal, also with repeated children |
| DispatchIds.Unrank | compiler/middle_end/closure_dispatch_id.ml:47-72 | with distinct children every number below the count is the sum of some path |
| DispatchIds.RanksOntoIff | compiler/middle_end/closure_dispatch_id.ml:47-72 | the sums fill 0..N-1 if and only if no node below repeats a child |
| ClosureGraph.GraphIsStmts | compiler/middle_end/closure_graph.ml:83-225 | edges, nodes and roots of the graph are exactly what the statements build, define and close over |
| ClosureGraph.OrderedIsAcyclic | compiler/middle_end/closure_graph.ml:126-225 | statements in definition order give an acyclic graph |
| ClosureGraph.SummariesArePaths | compiler/middle_end/closure_graph.ml:108-225 | the summaries headed by closures are exactly the paths from closures, with the end's types |
| ClosureGraph.CumulIsRank | compiler/middle_end/closure_graph.ml:428-439 | the cumulated tag of a path is its rank |
| ClosureGraph.SpecialisationsArePaths | compiler/middle_end/closure_graph.ml:421-456 | a root's specialisations are exactly those of its paths to leaves: function, argument types along the path, tag |
| ClosureGraph.TagsAreUnique | compiler/middle_end/closure_graph.ml:421-456 | two specialisations of one root with the same tag are the same |
| Trampolines.PartialDispatchRuns | compiler/middle_end/gen_closure_helpers.ml:132-317 | a dispatching link adds field 1 to the id, puts its stored arguments first and calls the accumulator of the parent in field 2 at its own return type |
| Trampolines.PartialRuns | compiler/middle_end/gen_closure_helpers.ml:334-469 | a plain link does so with the id unchanged and the parent in field 1 |
| Trampolines.RootSingleRuns | compiler/middle_end/gen_closure_helpers.ml:737-800 | a root with one specialisation calls its wrapper on stored and remaining arguments at its own return type, whatever the id |
| Trampolines.RootDispatchRuns | compiler/middle_end/gen_closure_helpers.ml:641-720 | a root with several calls the wrapper of the id's case in this way and has no meaning without one |
| Trampolines.WrapperRuns | compiler/middle_end/gen_closure_helpers.ml:512-624 | a wrapper hands every argument at its parameter's type to the callee and casts the result if it must; a callee declared with other types has no meaning |
| ClosureDispatch.LoweredOk | compiler/middle_end/lower_cir_to_oir.ml:322-435 | every generated function is the one its name stands for, although a name is generated once |
| ClosureDispatch.LinkRuns | compiler/middle_end/lower_cir_to_oir.ml:557-606 | called at some type, a node's accumulator has no meaning unless it returns that type, and then calls its parent at it with exactly the edge's weight added, with dispatch or without |
| ClosureDispatch.ChainRuns | compiler/middle_end/gen_closure_helpers.ml:132-469 | any chain, however long, called at some type reaches its root's accumulator with the id plus the weights on the way and the stored arguments oldest first, if all links return that type, and has no meaning otherwise |
| Application.LoweringHasTrampolines | compiler/middle_end/lower_cir_to_oir.ml:322-606 | every closure object's accumulator and every wrapper asked for is in the program |
| Application.ApplyRuns | compiler/middle_end/lower_cir_to_oir.ml:927-1081 | every application ends as the root's choice for the summed id, on stored arguments and then the applied ones, if all accumulators of the chain return the type that it calls at, and has no meaning otherwise |
| Application.RunIdIsRankLessMoves | compiler/middle_end/lower_cir_to_oir.ml:873-882 | the id summed at run time is the rank of the path less the weight of its moves |
| Application.ChoosesPathIff | compiler/middle_end/gen_closure_helpers.ml:641-720 | the root chooses the path's own specialisation if and only if it has no other or the moves on the path weigh nothing |
| Application.WrapperNamesIff | compiler/middle_end/lower_cir_to_oir.ml:350-394 | the wrapper called is the wrapper generated if and only if the return types agree, or the root is generic and has several specialisations |
| ReturnTypes.ConcreteRetIff | compiler/middle_end/closure_graph.ml:333-360 | if all leaves behind a node return one type, the analysis finds it there if and only if the number of paths to leaves through the node is odd |
| ReturnTypes.RootCount | compiler/middle_end/closure_graph.ml:421-456 | a root has as many specialisations as there are paths from it to leaves |
| ReturnTypes.RootRetIff | compiler/middle_end/closure_graph.ml:333-360 | if all specialisations of a root return one type, the analysis finds it if and only if their number is odd |
| ReturnTypes.CalledIsGeneratedIff | compiler/middle_end/lower_cir_to_oir.ml:345-394 | with the return types the analysis computes, the wrapper called is the one generated if and only if it returns a word, or the root is generic with several specialisations, or not generic with an odd number |
| ChainTypes.RetOnPath | compiler/middle_end/lower_cir_to_oir.ml:566-573 | on a path to a leaf a closure returns the leaf's type if the analysis has found it, and a word otherwise |
| ChainTypes.SiteAgreesIff | compiler/middle_end/lower_cir_to_oir.ml:1020-1080 | an application's chain returns what it asks for if and only if that is a machine word, or every closure has its type found exactly when the application asks for it |
| ChainTypes.OddRootAgreesIff | compiler/middle_end/closure_graph.ml:333-406 | below a root that is not generic and has an odd number of specialisations, all agree if and only if every link is not generic and has an odd number of paths to leaves, and the last closure asks for the type |
| LinkExamples.LinkReturnsWord | compiler/middle_end/lower_cir_to_oir.ml:566-573 | a root with three float results and a link with two of them: wrapper, callee and arguments of the link's application are right, and it has no meaning |
| DispatchExamples.TwoFloatsAreStuck | compiler/middle_end/closure_graph.ml:333-360 | a closure applied twice with float results: no application returns |
| DispatchExamples.HandedOverIsStuck | compiler/middle_end/closure_graph.ml:362-406 | a closure applied once with a float result and handed to a function: no application returns |
| Application.CalleesIff | compiler/middle_end/lower_cir_to_oir.ml:361-391 | every generated wrapper calls its own function if and only if all specialisations with one wrapper name have the same source types, where the function is specialised by type |
| DispatchExamples.SharedWrapperCallsOther | compiler/middle_end/lower_cir_to_oir.ml:361-391 | a function applied to closures of two types: both applications run one specialisation |
| Application.ArityIff | compiler/middle_end/closure_graph.ml:440-446 | the specialisation takes exactly the arguments at hand if and only if the application does not return a closure |
| DispatchExamples.ReturnedClosureIsStuck | compiler/middle_end/closure_graph.ml:440-446 | a polymorphic function applied at a closure type: the wrapper asks for an argument that no application passes |
| Application.OutcomeIff | compiler/middle_end/gen_closure_helpers.ml:512-720 | a root returns what a specialisation would, whatever the source functions mean, if and only if the id's choice exists, its wrapper was generated, takes what the root passes on and calls the specialisation's function at its types |
| Application.WrapperFitsIff | compiler/middle_end/gen_closure_helpers.ml:494-508 | a root passes on what a wrapper generated for another root takes if and only if both store the same reference arguments |
| StoredExamples.StoredElsewhereIsStuck | compiler/middle_end/lower_cir_to_oir.ml:376-391 | two closures of one function, one with its reference argument stored: the application of the other has no meaning, although name and callee of its wrapper are right |
| Application.MeaningIff | compiler/middle_end/lower_cir_to_oir.ml:927-1081 | an application of any chain returns what its path's own function returns on all arguments at their own types, whatever the source functions mean, if and only if all accumulators return the type that it calls at, and the id summed at run time leads to a generated wrapper that takes what the root passes on, with that callee, those parameter types and that cast |
| Application.ApplyCallsItsOwn | compiler/middle_end/lower_cir_to_oir.ml:927-1081 | in particular it does when the accumulators return the type that it calls at, the moves weigh nothing, the names agree and the wrapper takes what it is passed and calls its own function |
| ApplicationExamples.MovedTwiceMisdirects | compiler/middle_end/lower_cir_to_oir.ml:873-882 | a closure moved into two variables and applied at words and at floats: the application at words runs the function for floats and does not mean its own |
| Application.RootsAreSpecialised | compiler/middle_end/lower_cir_to_oir.ml:432-432 | every root has a specialisation, so lowering a closure never stops for want of one |
| Cfg.Search.Dfs | compiler/ir/oir_cfg.ml:51-57 | the search keeps its invariant and finishes what it visits |
| Cfg.ComputeRpo | compiler/ir/oir_cfg.ml:48-58 | the order lists exactly the reachable ids, each once |
| Liveness.NewEntrySound | compiler/middle_end/liveness.ml:91-116 | what the transfer finds from sound entry sets is live by a path |
| Liveness.Complete | compiler/middle_end/liveness.ml:91-150 | at a fixpoint everything live by a path is found |
| Liveness.MoreFacts | compiler/middle_end/liveness.ml:117-148 | a round that changes anything leaves strictly fewer facts to find |
| Liveness.Round | compiler/middle_end/liveness.ml:119-147 | one round computes all entries from the old ones, reports whether any changed, and fails exactly on a missing block |
| Liveness.Fixpoint | compiler/middle_end/liveness.ml:117-149 | the iteration ends for every graph, with a sound fixpoint |
| Liveness.DeadEntryExact | compiler/middle_end/liveness.ml:168-198 | a variable is in dead_entry if and only if it dies entering: a parameter dead at the first point, or live leaving every predecessor and dead on entry |
| Liveness.Analyze | compiler/middle_end/liveness.ml:82-205 | for every reachable block, entry, end and per-statement sets are exactly the variables with a path to a read and no definition on the way |
| Types.SubApply | compiler/ast_typing/subst.ml:9-18 | applying a substitution changes no type under the solutions of the substitution |
| Types.ApplyVars | compiler/ast_typing/subst.ml:9-18 | an applied type mentions no bound variable and none that was not there |
| Types.BindAcyclic | compiler/ast_typing/subst.ml:7-7 | binding an unbound variable to unbound variables closes no cycle |
| Unification.OccursIff | compiler/ast_typing/ty.ml:64-71 | the occurs check finds exactly the variables of the type |
| Unification.EqualTyIff | compiler/ast_typing/ty.ml:47-62 | without wildcards the type comparison is equality |
| Unification.Unify | compiler/ast_typing/ty.ml:73-133 | unification ends, and a result is acyclic and extends the input over the variables at hand |
| Unification.UnifyExact | compiler/ast_typing/ty.ml:73-133 | a choice of types solves the result if and only if it solves the input and unifies the two types |
| Unification.UnifyEquates | compiler/ast_typing/ty.ml:73-133 | the result equates both types |
| Unification.UnifySucceedsIff | compiler/ast_typing/ty.ml:73-133 | unification succeeds if and only if a unifier exists |
| Unification.ComposeIsResult | compiler/ast_typing/ty.ml:137-139 | composing with the old substitution gives exactly the result |
| Unification.AnyIsNotTransitive | compiler/ast_typing/ty.ml:77-77 | with the wildcard, types unify pairwise that no choice of types makes equal |
| CyclicAnalysis.BuildCtxOk | compiler/middle_end/pass_cyclic_analysis.ml:115-184 | every edge joins two nodes and mutable edges are edges |
| CyclicAnalysis.ComponentIff | compiler/middle_end/pass_cyclic_analysis.ml:195-205 | a component has a mutable edge inside if and only if its nodes lie on closed walks that use one |
| CyclicAnalysis.ReachableFrom | compiler/middle_end/pass_cyclic_analysis.ml:218-232 | the search returns exactly the nodes that reach a seed |
| CyclicAnalysis.Classify | compiler/middle_end/pass_cyclic_analysis.ml:186-246 | each class is characterised by closed walks through mutable edges and reachability |
| CyclicAnalysis.MutableCycleHasSource | compiler/middle_end/pass_cyclic_analysis.ml:207-217 | every closed walk that uses a mutable edge passes through a mutable-cyclic node |
| CyclicAnalysis.Analyze | compiler/middle_end/pass_cyclic_analysis.ml:271-272 | the whole analysis has that characterisation |
| TypeReferences.AddRefsExact | compiler/middle_end/pass_cyclic_analysis.ml:127-148 | for all declarations, a mentioned type adds exactly the edges that its unfolding calls for when no alias is expanded twice |
| TypeReferences.BuildCtxExact | compiler/middle_end/pass_cyclic_analysis.ml:151-184 | so the graph has exactly the edges that the declarations call for in this way, in any order |
| TypeReferences.AcyclicRefersOnce | compiler/middle_end/pass_cyclic_analysis.ml:127-148 | if no alias expands to itself, these are all edges that the unfolding calls for |
| TypeReferences.LoopedAliasMissesEdge | compiler/middle_end/pass_cyclic_analysis.ml:141-148 | two aliases that expand to each other: an edge that is called for is not in the graph |
| TypeReferences.ArrayElementsCountAsImmutable | compiler/middle_end/pass_cyclic_analysis.ml:136-139 | a record holding an array of itself in an immutable field is on a closed walk and yet on no mutable one |
| CyclicHeap.UncoveredGivesWalk | runtime/src/syli.c:149-158 | a cycle without candidate in a well-typed heap, closures, tuples and arrays included, walks through shapes that are not registered and uses a field that can be assigned |
| CyclicHeap.WalkGivesHeap | runtime/src/syli.c:149-158 | for every such walk there is a well-typed heap with exact counts whose lost cycle holds no candidate |
| CyclicHeap.CandidatesCoverIff | compiler/middle_end/pass_cyclic_analysis.ml:190-194 | for any declarations, every cycle in every well-typed heap holds a candidate if and only if there is no such walk |
| CyclicPrograms.BlindWalkIsClosureOrArray | compiler/middle_end/pass_cyclic_analysis.ml:127-148 | such a walk passes through a closure or assigns an element of an array |
| CyclicPrograms.CycleHasCandidate | runtime/src/syli.c:149-158 | a heap cycle holds a candidate unless it passes through a closure or one of its arrays refers to something not older |
| CyclicPrograms.PlainProgramsAreCovered | compiler/middle_end/pass_cyclic_analysis.ml:190-194 | programs without closures and assigned arrays of objects have no such walk |
| CyclicPrograms.TypesMakeCollectionComplete | compiler/middle_end/pass_cyclic_analysis.ml:190-194 | without such walks a finished collection leaves exactly what owners and release lists held if and only if the lists held no candidate out of the owners' reach |
| CyclicPrograms.ClosureCycleIsMissed | compiler/middle_end/lower_cir_to_oir.ml:447-456 | a closure stored into the record it captured: a lost cycle with exact counts and no candidate |
| CyclicPrograms.ArrayCycleIsMissed | compiler/middle_end/pass_cyclic_analysis.ml:136-139 | a record put into the array that its immutable field holds: another |
| ChunkVector.PlacesAreElements | runtime/include/syli/chunk_vector.h:61-66 | an index and a place in a chunk determine each other |
| ChunkVector.Vector.constructor | runtime/include/syli/chunk_vector.h:68-80 | a new vector is empty |
| ChunkVector.Vector.MakeRoom | runtime/include/syli/chunk_vector.h:130-146 | making room keeps every chunk in its place, also when the table doubles |
| ChunkVector.Vector.PushBack | runtime/include/syli/chunk_vector.h:127-150 | appends the value; existing elements keep their chunks |
| ChunkVector.Vector.AllocSlot | runtime/include/syli/chunk_vector.h:95-125 | hands out the place of the new last element |
| ChunkVector.Vector.PopBack | runtime/include/syli/chunk_vector.h:152-164 | drops the last element, also across a chunk boundary, and does nothing when empty |
| ChunkVector.Vector.At | runtime/include/syli/chunk_vector.h:166-176 | the element at the index, or none past the end |
| ChunkVector.Vector.Back | runtime/include/syli/chunk_vector.h:190-201 | the last element, or none when empty |
| ChunkVector.Vector.Clear | runtime/include/syli/chunk_vector.h:215-221 | empties the vector and keeps its chunks |
| Layout.ContextIsBalance | compiler/ast_parsing/syli_post_lex.ml:25-42 | for every input, a token is at top level if and only if no open bracket will still be closed and the number of brackets closed without having been opened is even |
| Layout.TopLevelMeansBalancedIff | compiler/ast_parsing/syli_post_lex.ml:25-42 | this agrees with all brackets being closed if and only if none was closed unopened, or the token stands neither at balance 0 nor, after an even number of such closers, at the least balance |
| Layout.StrayClosersToggleTopLevel | compiler/ast_parsing/syli_post_lex.ml:28-29 | one stray closer takes the top level away at balance 0, and a second brings it back |
| Layout.CollectIsLexed | compiler/ast_parsing/syli_post_lex.ml:32-42 | what is collected ends in its only end of file |
| Layout.StackStaysOk | compiler/ast_parsing/syli_post_lex.ml:53-63 | the indent stack stays strictly increasing over 0, and its top never exceeds the line's indentation |
| Layout.OutputBalanced | compiler/ast_parsing/syli_post_lex.ml:64-99 | from any state the output closes every open block by the end of the file, and never one more |
| Layout.OutputPasses | compiler/ast_parsing/syli_post_lex.ml:64-99 | apart from INDENT and DEDENT the output is the passing tokens in order |
| Layout.Layout | compiler/ast_parsing/syli_post_lex.ml:44-101 | the pass equals that output: balanced, no prefix negative, nothing else lost |
| StackMap.ReadBack | runtime/include/syli/gc_roots.h:12-53 | a little-endian field gives back the number that was written |
| StackMap.AdvanceOverRecord | runtime/src/syli_state_gc_roots.c:82-103 | from a record the walk advances over exactly that record |
| StackMap.RecordsAligned | runtime/src/syli_state_gc_roots.c:82-103 | every record starts at a multiple of 8 |
| StackMap.HeaderReadBack | runtime/src/syli_state_gc_roots.c:110-116 | counts and section starts read back from an encoded section |
| StackMap.BuildTable | runtime/src/syli_state_gc_roots.c:105-150 | the table of an encoded section lists every record in order: address plus offset modulo 2 to the 64, and the record's place |
| StackMap.LookupEntry | runtime/src/syli_state_gc_roots.c:152-182 | only an entry of the address is returned; in strictly increasing order it is found if and only if it is there |
| StackMap.DecodeAndLookup | runtime/src/syli_state_gc_roots.c:105-182 | with increasing addresses a return address is found if and only if some function has a record for it |

## Left out

- Stack unwinding, register decoding and the reading of roots from frames: the roots are a parameter.
- Failing allocations, environment thresholds and the heuristic that starts a trace: a due flag and the guard on allocations since the last trace stand for them.
- Statistics counters, the checking budget and printing.
- The shared zone and its atomic operations, and static objects: only local objects are modelled.
- The packing of headers and counts into words; marks, flags and counts are record fields, counters and budgets do not wrap around.
- History.MutatorStepKeeps: asks that the trace, while one is pending, will still come to what the step leaves owned; the program itself does not see to that, and `Disturbed.DisturbedSafeIff` says what happens otherwise.
- Type keys are taken to tell types apart.
- Closures that reach a function as an argument: their chains start at an unknown root and are not followed.
- The printed form of generated names: names are the data they are printed from, so two different names never print alike.
- Casts change a value's type and keep its word; how a cast moves bits is not part of the model, and neither is reference counting by the trampolines.
- Locations of layout tokens, and the lexer itself: the indentation pass starts from tokens.
- The uses and definitions that liveness reads off statements are given as sets of reference variables.
- Blocks that control never reaches: liveness of their own points is not characterised, only what they add to a successor's dead_entry.
- CyclicPrograms.BlindWalkIsClosureOrArray: assumes that no alias expands to itself; for those edges are missed, and only `CyclicHeap.CandidatesCoverIff` applies.
- CyclicPrograms.CycleHasCandidate: assumes the same of the aliases.
- CyclicPrograms.PlainProgramsAreCovered: assumes the same of the aliases.
- Captured values have no types in the cyclic analysis: a closure's fields may refer to objects of any shape.
- Unification.UnifyExact: is about types without the wildcard, since the wildcard unifies with everything and binds nothing.
- The materialised names of type instances are taken as computed.
- Type inference around unification, alpha renaming, closure conversion, pattern matching, monomorphisation, ownership insertion, register and LLVM output, visitors and printers.
- StackMap.BuildTable: asks that the header's record count is the sum of the functions' counts, as LLVM writes it.
