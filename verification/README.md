# PARCOACH in Dafny

PARCOACH looks for misuse of collective operations in parallel programs. Its static part is a chain of
graph analyses over LLVM IR; its run-time part checks MPI one-sided communication. This project models
the algorithms of both on finite graphs, sequences and state machines, and proves what each is for.

- **Points-to analysis** (`NodeFactory`, `PointsTo`, `ConstraintGraph`, `Propagation`, `Solver`, `Graphs`,
  `DepthFirst`, `Collapse`, `CycleDetector`, `Solve`): the inclusion-based solver with lazy cycle detection
  computes the least solution of the constraints and ends. Nodes are merged while a Nuutila-style search is
  still running; the argument is made per strongly connected component.
- **Memory SSA** (`Dominance`, `MemorySsaSpec`, `PhiPlacement`, `Renaming`, `MemorySsa`, `MemorySsaExample`): phi
  placement by iterated dominance frontiers and renaming with stacks, after Cytron et al. 1991; every use records
  the last definition on every path.
- **One-sided communication** (`RmaWindows`, `RmaTags`, `RmaLogs`, `RmaProtocol`, `RmaInvariant`, `RmaRuns`,
  `RmaTraffic`, `RmaClosing`, `RmaLeaks`, `IntervalStore`): windows, tag ranges and the epoch protocol of sections
  11.2, 11.5 and 11.7 of MPI 3.1 as a step relation over ranks and messages in flight, and the ordered store of
  memory accesses with its scan.
- **Taint** (`TaintGraph`, `PhiRewrite`, `PhiElimination`, `PhiRuns`, `TaintFlood`, `TaintSteps`,
  `TaintCalls`, `TaintRoutes`, `TaintChains`, `TaintContexts`, `TaintWalk`, `TaintExample`): flooding with resets, phi
  elimination as a rewrite that preserves flow, and the context-sensitive walk over the call graph, with bounds
  from both sides on what it finds, in terms of paths of edges on which calls and returns match.
- **Post-dominance frontiers** (`PostDominance`, `FrontierRange`), plain and iterated, with their caches, and what
  the iterated frontier means for executions.
- **Collective lists** (`CollectiveLists`, `CollectiveRuns`, `CollectiveComms`, `CollectiveMeaning`,
  `CfgTraversal`, `CollectiveAnalysis`, `LoopLists`): the lists against the sequences of collectives that section 5.13 of MPI 3.1
  requires to be the same.
- **Warnings** (`CallConditions`, `Divergence`, `Warnings`, `ReportedExample`): the conditions reported with a
  collective call, and why a program without loops and recursion gets a warning exactly if sequences of
  collectives can differ.
- **Mod/ref sets** (`ModRef`, `ModRefAnalysis`): the sets against paths of calls.

Code that updates state in place is a class with a specification on values; the lemmas are about those values.
Where a promised property fails, one lemma gives the failing input and another the exact condition:

- `IntervalStore`: the scan stops at the first neighbour that does not intersect. It finds all conflicts if and
  only if no stored interval lies inside another one (`ConflictsFoundIffNoneInside`); `MissedConflict` is a
  sequence of saves that leaves a conflict behind.
- `CollectiveMeaning`: `CollectiveList::navs` looks at the front element only. `UnnoticedIff` says at which
  blocks a difference is therefore not marked, `BarrierHidesBranch` gives a program with one. The difference is
  not lost: it is marked at the block ahead where the sequences part (`DifferenceIsMarkedAhead`) and reported
  from there (`Warnings.DifferenceIsReported`).
- `PhiRewrite`: `areSSANodesEquivalent` compares neither source nor reset status. `KeepsTaintIff` and
  `AddsNoTaintIff` are the exact conditions; `LostSource`, `LostReset`, `LostPhi` and `AddedTaint` the failures.
- `PhiElimination`: the edges that `removeEdge` expects are there if and only if the phi's predicates were linked
  to it and operands given up are not linked to each other (contract of `EliminatePhi`; `LinkedOperands` is a
  graph where they are). With `noPred` that fails for every phi with predicates (`WithoutPredEdges`), but the one
  place that builds the graph (`src/aSSA/DepGraphDCF.cpp:2620`) leaves `noPred` off.
- `RmaLeaks`: nothing leaks if and only if a window has at most 1024 epochs and nothing is sent after its last
  fence (`NeverLeaksIff`); `LeakingRun` is a run with 1025 epochs, `LeakingFence` one with a late message.
  `RmaWindows.FreedIndexIff` and `SharedTagsIff` say what happens to windows without a range.

`dafny verify dfyconfig.toml` checks everything.

## Model

| member | source | states |
|---|---|---|
| `Solve.SolveConstraints` | src/aSSA/andersen/ConstraintSolving.cpp:447-620 | With hybrid cycle detection off and lazy cycle detection on or off, for every constraint list the solver ends and `n -> pts[rep(n)]` is the least assignment that satisfies every ADDR_OF, COPY, LOAD and STORE constraint and agrees on the nodes merged beforehand. |
| `Solve.AnswerIsLeast` | src/aSSA/andersen/ConstraintSolving.cpp:447-620 | When nothing is pending, the invariant makes the final points-to sets a solution of all original constraints and contained in every solution. |
| `Solve.LeastIsUnique` | src/aSSA/andersen/ConstraintSolving.cpp:447-620 | There is only one least solution, so the answer does not depend on the order of the worklists or on which cycles were collapsed. |
| `Solve.StepKeepsInv` | src/aSSA/andersen/ConstraintSolving.cpp:490-616 | Taking one id off a worklist and processing its representative keeps: every representative is pending or has all its constraints met, all constraints are represented, nothing exceeds any solution. |
| `Solve.CollapseKeepsInv` | src/aSSA/andersen/ConstraintSolving.cpp:480-488 | Collapsing whole components keeps the same invariant with the same worklist, although single merges inside a component break it. |
| `Solve.RoundProgress` | src/aSSA/andersen/ConstraintSolving.cpp:477-619 | One round strictly decreases (representatives, missing points-to pairs, missing copy edges) lexicographically, or leaves no work. |
| `Solve.BuildConstraintGraph` | src/aSSA/andersen/ConstraintSolving.cpp:360-389 | The graph represents every constraint, points-to elements stay un-merged ids, and nothing is in it that some solution lacks. |
| `Solve.InitWorkList` | src/aSSA/andersen/ConstraintSolving.cpp:468-475 | Every representative left off the first worklist has all its constraints met already. |
| `Solve.CollapseCycles` | src/aSSA/andersen/ConstraintSolving.cpp:480-488 | The result is a quotient of the state before by strongly connected components of the copy graph, and each cycle through a candidate has become one node. |
| `Solve.Step` | src/aSSA/andersen/ConstraintSolving.cpp:490-616 | One element of the current worklist: the invariant holds again with what was enqueued next, and all that was enqueued was paid for by a new points-to pair or copy edge. |
| `Solve.Drain` | src/aSSA/andersen/ConstraintSolving.cpp:490-616 | The inner loop ends with the current worklist empty and the invariant over the next one. |
| `Solve.Round` | src/aSSA/andersen/ConstraintSolving.cpp:477-619 | One turn of the outer loop keeps the invariant and makes progress in the termination measure. |
| `PointsTo.AnswerSatisfies` | src/aSSA/andersen/ConstraintSolving.cpp:447-620 | A constraint represented in a state where every representative is done is satisfied by the answer. |
| `PointsTo.AnswerIsBelow` | src/aSSA/andersen/ConstraintSolving.cpp:447-620 | A state below a solution yields an answer contained in that solution. |
| `Solver.Andersen.AddCopyEdge` | src/aSSA/andersen/ConstraintSolving.cpp:547-551 | A copy edge that every solution respects is added, its source is enqueued if that changes anything and only then does the worklist grow; load and store edges stay. |
| `Solver.Andersen.AddIndirectCopies` | src/aSSA/andersen/ConstraintSolving.cpp:539-581 | Afterwards every object in the points-to set has its copy edges to all load targets and from all store sources; stale edges have been replaced by their representatives. |
| `Solver.Andersen.PropagateCopies` | src/aSSA/andersen/ConstraintSolving.cpp:583-610 | Afterwards every copy successor includes the node's points-to set, every target that changed is enqueued, and the worklist grew only together with some points-to set; with lazy detection on, the new cycle candidates are successors with the same set whose edge has not been checked, and all that had it before are among them. |
| `Solver.Andersen.VisitCopyEdge` | src/aSSA/andersen/ConstraintSolving.cpp:585-610 | One edge: the target takes the union; it becomes a candidate, and the edge checked, exactly if the sets were equal already and the edge is unchecked. |
| `Solver.OneSuspected` | src/aSSA/andersen/ConstraintSolving.cpp:596-606 | Looking at one more edge keeps the characterisation of the candidates. |
| `Solver.Andersen.ProcessNode` | src/aSSA/andersen/ConstraintSolving.cpp:495-615 | After processing, the node has all its constraints met in a state that only grew and stays below every solution. |
| `Solver.Andersen.CollapseNodes` | src/aSSA/andersen/ConstraintSolving.cpp:196-211 | Merging a representative into another unites points-to sets and all three kinds of edges and empties the merged one. |
| `Propagation.InsertCopyAdvances` | src/aSSA/andersen/ConstraintSolving.cpp:547-551 | Inserting a justified copy edge only grows the state, is paid for in the measure, and stays below every solution. |
| `Propagation.PropagateAdvances` | src/aSSA/andersen/ConstraintSolving.cpp:589-595 | So does a points-to union along a copy edge. |
| `Propagation.RewriteAdvances` | src/aSSA/andersen/ConstraintSolving.cpp:559-561 | Replacing an edge to a merged node by one to its representative changes no successor. |
| `Collapse.QuotientKeepsCovers` | src/aSSA/andersen/ConstraintSolving.cpp:196-211 | Collapsing loses no constraint. |
| `Collapse.QuotientStaysBelow` | src/aSSA/andersen/ConstraintSolving.cpp:196-211 | Collapsing nodes of one component of the copy graph adds no object that some solution lacks. |
| `Collapse.QuotientKeepsSettled` | src/aSSA/andersen/ConstraintSolving.cpp:402-410 | After whole components are collapsed each representative is pending or done, by an argument along the paths inside the component. |
| `Collapse.QuotientMeasure` | src/aSSA/andersen/ConstraintSolving.cpp:402-410 | Collapsing removes representatives or changes nothing in the measure. |
| `Collapse.MergeKeepsQuotient` | src/aSSA/andersen/ConstraintSolving.cpp:402-410 | Each pairwise merge leads from a quotient of the start to another one. |
| `ConstraintGraphs.ConstraintGraph.InsertCopyEdge` | src/aSSA/andersen/ConstraintSolving.cpp:100-109 | Reports whether the edge is new; the other edges are unchanged. |
| `ConstraintGraphs.ConstraintGraph.MergeAndDelete` | src/aSSA/andersen/ConstraintSolving.cpp:133-147 | All three edge sets of the source join those of the destination, and the source has none left. |
| `ConstraintGraphs.Replace` | src/aSSA/andersen/ConstraintSolving.cpp:59-67 | All stale ids are replaced by their targets, and nothing else changes. |
| `ConstraintGraphs.AndersWorkList.Enqueue` | src/aSSA/andersen/ConstraintSolving.cpp:223-228 | A FIFO queue without duplicates whose membership set is exact. |
| `ConstraintGraphs.AndersWorkList.Dequeue` | src/aSSA/andersen/ConstraintSolving.cpp:229-235 | Takes the oldest element. |
| `NodeFactory.AndersNodeFactory.MergeNode` | src/aSSA/andersen/NodeFactory.cpp:188-191 | Merging two representatives redirects exactly the nodes of one to the other and keeps the forest acyclic. |
| `NodeFactory.AndersNodeFactory.GetMergeTarget` | src/aSSA/andersen/NodeFactory.cpp:193-208 | Ends, returns the representative, compresses the path, and changes the representative of no node. |
| `NodeFactory.AndersNodeFactory.FindMergeTarget` | src/aSSA/andersen/NodeFactory.cpp:210-217 | The const lookup ends and returns the same representative. |
| `NodeFactory.LinkKeepsAcyclic` | src/aSSA/andersen/NodeFactory.cpp:188-191 | Linking one representative under another keeps the forest acyclic and merges exactly the two classes. |
| `NodeFactory.CompressKeepsRep` | src/aSSA/andersen/NodeFactory.cpp:202-204 | Pointing a node straight at its representative keeps all representatives and the forest acyclic. |
| `NodeFactory.RepMapUnique` | src/aSSA/andersen/NodeFactory.cpp:188-217 | An acyclic forest has one representative map, so the two lookups always agree. |
| `DepthFirst.ClosedGroupIsScc` | src/include/parcoach/andersen/CycleDetector.h:53-70 | On any graph, the nodes popped together with their root are exactly the strongly connected component of the root, though one overwritten number serves as time and low-link. |
| `DepthFirst.CloseReports` | src/include/parcoach/andersen/CycleDetector.h:60-72 | Reported groups are components and come out in reverse topological order: every successor of a member is in that group or an earlier one. |
| `DepthFirst.EnterKeeps` | src/include/parcoach/andersen/CycleDetector.h:36-39 | Starting a visit keeps the search invariant. |
| `DepthFirst.ChildReturned` | src/include/parcoach/andersen/CycleDetector.h:45-47 | A completed visit of a successor leaves the caller's visit intact but for the pending low-link. |
| `DepthFirst.LowerKeeps` | src/include/parcoach/andersen/CycleDetector.h:49-50 | Lowering the number keeps the invariant, for successors not in a closed component only. |
| `DepthFirst.LeaveKeeps` | src/include/parcoach/andersen/CycleDetector.h:53-58 | A node that is not a root waits on the stack and still reaches an older node on the path. |
| `DepthFirst.CloseKeeps` | src/include/parcoach/andersen/CycleDetector.h:60-70 | Closing a component keeps the invariant: closed nodes have closed successors only. |
| `CycleDetection.OnlineCycleDetector.Visit` | src/include/parcoach/andersen/CycleDetector.h:36-73 | Collapses components while searching: what is merged is whole components of the graph at the start, and the stack below is untouched. |
| `CycleDetection.OnlineCycleDetector.VisitSuccessor` | src/include/parcoach/andersen/CycleDetector.h:45-50 | One edge of the node being visited, to its current representative. |
| `CycleDetection.OnlineCycleDetector.PopComponent` | src/include/parcoach/andersen/CycleDetector.h:60-70 | The popping loop stops exactly where the stack was when the root was entered, and has merged everything above into the root. |
| `CycleDetection.OnlineCycleDetector.GetRep` | src/aSSA/andersen/ConstraintSolving.cpp:398-400 | Returns the current representative and inserts an empty node that changes no edges. |
| `CycleDetection.OnlineCycleDetector.PopNode` | src/aSSA/andersen/ConstraintSolving.cpp:402-410 | Merges one popped node into the root. |
| `CycleDetection.OnlineCycleDetector.RunOnNode` | src/include/parcoach/andersen/CycleDetector.h:107-115 | The stack is empty before and after, and the component of the node has been closed. |
| `CycleDetection.OnlineCycleDetector.Run` | src/aSSA/andersen/ConstraintSolving.cpp:422-426 | After all candidates, their components are closed and merged, and nothing but whole components is. |
| `MemorySsa.BuildSsa` | src/aSSA/MemorySSA.cpp:398-602 | On every path from the entry, each access has recorded the version defined last on that path; phi operands are the versions last defined before the edge; versions are unique per region; phi blocks are exactly the iterated dominance frontier, one phi per region and block. |
| `MemorySsaExample.MuReadsChi` | src/aSSA/MemorySSA.cpp:398-602 | On two blocks with a definition and a use, memory SSA computed: the use has recorded the version of the definition. |
| `MemorySsaSpec.EveryPathAgrees` | src/aSSA/MemorySSA.cpp:464-602 | With phis closed under dominance frontiers, the last definition on every path is the one found by climbing the dominator tree. |
| `MemorySsaSpec.PredecessorsAgree` | src/aSSA/MemorySSA.cpp:464-602 | Into a block without a phi all predecessors carry the definition of its immediate dominator. |
| `MemorySsaSpec.ClimbToIdom` | src/aSSA/MemorySSA.cpp:464-602 | No block strictly between a predecessor and the immediate dominator defines the region. |
| `MemorySsa.RecordedUsesAreLast` | src/aSSA/MemorySSA.cpp:484-546 | What renaming records at loads, calls, returns and chis is the last definition on every path. |
| `MemorySsa.FilledOperandsAreLast` | src/aSSA/MemorySSA.cpp:551-557 | The operand of each incoming edge is the last definition before the edge on every path. |
| `PhiPlacement.ComputePhi` | src/aSSA/MemorySSA.cpp:398-440 | For every region the blocks given a phi are the least set closed under the frontiers of the defining blocks and its own; none is given twice. |
| `PhiPlacement.PlaceRegion` | src/aSSA/MemorySSA.cpp:402-438 | The worklist of one region ends with exactly its iterated frontier. |
| `PhiPlacement.VisitFrontier` | src/aSSA/MemorySSA.cpp:423-437 | Each frontier block seen first gets one phi and is queued unless it has been queued before. |
| `PhiPlacement.PlacementIsClosed` | src/aSSA/MemorySSA.cpp:398-440 | Phi placement meets the closure that the path theorem needs. |
| `Renaming.Renamer.RenameBB` | src/aSSA/MemorySSA.cpp:464-602 | Renames a dominator subtree, records all its accesses and operands, and returns the stacks unchanged. |
| `Renaming.Renamer.RenameBlock` | src/aSSA/MemorySSA.cpp:467-557 | After a block the stack tops are its outgoing definitions, and its own definitions are all that was pushed. |
| `Renaming.Renamer.DefinePhis` | src/aSSA/MemorySSA.cpp:468-474 | Each phi gets the next version of its region and goes on the stack. |
| `Renaming.Renamer.RenameAccess` | src/aSSA/MemorySSA.cpp:490-543 | A mu records the stack top; a chi records it as operand and pushes a new version. |
| `Renaming.Renamer.FillOperands` | src/aSSA/MemorySSA.cpp:551-557 | The phis of all successors get the stack tops as operands at the index of this predecessor. |
| `Renaming.Renamer.PopPhis` | src/aSSA/MemorySSA.cpp:569-572 | Takes the phis of the block off the stacks. |
| `Renaming.Renamer.PopChis` | src/aSSA/MemorySSA.cpp:573-601 | Takes the chis of the block off, which restores the stacks. |
| `Renaming.Renamer.Rename` | src/aSSA/MemorySSA.cpp:442-462 | From version 0 of every entry chi, all blocks of the tree are renamed and each stack ends with its entry version only. |
| `Renaming.FindPred` | src/aSSA/MemorySSA.cpp:689-698 | Returns the index of the first occurrence of the predecessor. |
| `Dominance.DomAntisymmetric` | src/aSSA/MemorySSA.cpp:559-565 | Two blocks that dominate each other are the same block. |
| `RmaRuns.EpochsAreExact` | src/instrumentation/rma/rma_analyzer.cpp:276-314 | In every run in which ranks create and free windows in one order, ranges are reused, and nothing is sent in the epoch of a window's last fence, with at most 1024 epochs a window: from the moment a rank leaves an epoch, its checker thread has received exactly the multiset of messages ever sent to it in that epoch, and none of them is in flight. |
| `RmaTraffic.TakenIsSent` | src/instrumentation/rma/rma_analyzer.cpp:87-119 | In terms of the steps alone: from the moment a rank leaves an epoch of a window, the payloads its checker thread has received there are, as a multiset, those of all steps in which ranks in that epoch have sent to it over that window. |
| `RmaTraffic.SentIsLogged` | src/instrumentation/rma/rma_analyzer.cpp:368-376 | The log of a run holds for each window, epoch and target exactly the payloads of the steps that sent there. |
| `RmaTraffic.TakenIsLogged` | src/instrumentation/rma/rma_analyzer.cpp:98-118 | What a checker thread is said to have received in an epoch are the payloads of the receive steps it took there. |
| `RmaRuns.NothingLeaks` | src/instrumentation/rma/rma_analyzer.cpp:87-119 | In all those runs a checker thread receives only messages of its own window and epoch, although it matches by tag only and a range may have belonged to another window before. |
| `RmaLeaks.NeverLeaksIff` | src/instrumentation/rma/rma_analyzer.h:13-14 | Nothing leaks in any run of any program with the given number of epochs per window if and only if that number is at most 1024 and, unless it is 0, nothing is sent in epochs that freeing a window closes without counting; the code checks neither. |
| `RmaLeaks.LeakingRun` | src/instrumentation/rma/rma_analyzer.cpp:259-271 | Beyond 1024, a run in which the first window, in epoch 1025, takes a message of the second window's first epoch. |
| `RmaLeaks.LeakingFence` | src/instrumentation/rma/rma_analyzer_mpi_c_overload.cpp:241-263 | A run in which a message sent after the last fence of a window is under way when the window is freed, and is taken by the next window with the same range in its first epoch. |
| `RmaClosing.EveryEpochCloses` | src/instrumentation/rma/rma_analyzer.cpp:276-314 | From every state of every run in which all ranks have begun to close an epoch, or have left it, the reductions, receives and joins of that epoch can go on until all ranks have left it. |
| `RmaClosing.SomeRankGoesOn` | src/instrumentation/rma/rma_analyzer.cpp:292-306 | Until then some rank can always go on: the one that has been through the fewest reductions, or a draining one. |
| `RmaClosing.LeastCanReduce` | src/instrumentation/rma/rma_analyzer.cpp:292-296 | The rank with the fewest reductions is not held up as the root, since all others have handed over their counts. |
| `RmaClosing.StepIsWork` | src/instrumentation/rma/rma_analyzer.cpp:276-314 | Each of these steps is work done that the rank has not to do again, and none for others. |
| `RmaRuns.RanksAgree` | src/instrumentation/rma/rma_analyzer.cpp:163-180 | Ranks that have begun the same creates and frees hold the same tag ranges, though each has its own allocator. |
| `RmaRuns.DrainingIsNotStuck` | src/instrumentation/rma/rma_analyzer.cpp:101-118 | A rank waiting for its checker thread can leave or has a message in flight that it can receive. |
| `RmaRuns.RunInv` | src/instrumentation/rma/rma_analyzer.cpp:259-314 | The invariant holds in every state of every run. |
| `RmaInvariant.NextKeepsInv` | src/instrumentation/rma/rma_analyzer.cpp:259-314 | Every step (create, free, return from free, open, send, receive, begin close, close without counting, reduce, leave) keeps the protocol invariant. |
| `RmaInvariant.WindowKeepsInv` | src/instrumentation/rma/rma_analyzer_mpi_c_overload.cpp:245-263 | Creating a window, giving its range back and returning from the free keep it. |
| `RmaInvariant.SameRangeSameWindow` | src/instrumentation/rma/rma_analyzer.cpp:98-99 | A message in flight with a range that a window alive here holds belongs to that window: a rank returns from freeing a window only when all have begun to, and by then all its messages have been consumed. |
| `RmaInvariant.FreedIsConsumed` | src/instrumentation/rma/rma_analyzer.cpp:437-447 | A message is not in flight any more when its sender and its receiver have freed the window. |
| `RmaInvariant.ReceiveMatches` | src/instrumentation/rma/rma_analyzer.cpp:98-99 | A message with the right tag belongs to this window and epoch. |
| `RmaInvariant.ValueIsExact` | src/instrumentation/rma/rma_analyzer.cpp:293-297 | After the reductions the expected value is the number of messages sent to the rank in the epoch, and the count is the number received. |
| `RmaInvariant.LeaveConsumes` | src/instrumentation/rma/rma_analyzer.cpp:101-106 | A rank leaves only when everything sent to it in the epoch has been consumed. |
| `RmaInvariant.ConsumedStays` | src/instrumentation/rma/rma_analyzer.cpp:259-314 | Nothing is added to a consumed epoch later. |
| `RmaLogs.SendersPartition` | src/instrumentation/rma/rma_analyzer.cpp:293-297 | Summing the counts of all senders counts every message once. |
| `RmaWindows.AllTagsDifferIff` | src/instrumentation/rma/rma_analyzer.cpp:419-420 | The tags of epochs 1 to n of all ranges are pairwise different if and only if n is at most 1024. |
| `RmaWindows.TagsFill` | src/instrumentation/rma/rma_analyzer.h:13-19 | The tags in use are exactly 65536 to 98303: 32 ranges of 1024 epochs, no gap between them. |
| `RmaWindows.ReuseIsAfterFree` | src/instrumentation/rma/rma_analyzer.cpp:163-180 | Of two windows with the same range one is freed before the other is created. |
| `RmaWindows.AfterHeld` | src/instrumentation/rma/rma_analyzer.cpp:163-180 | With at most 32 windows alive at once each has a range of its own, and a range is marked exactly while a window that is alive has it. |
| `RmaWindows.FullIff` | src/instrumentation/rma/rma_analyzer.cpp:163-173 | A new window gets no range if and only if 32 windows that have one are alive. |
| `RmaWindows.SharedTagsIff` | src/instrumentation/rma/rma_analyzer.cpp:411-420 | Two windows alive at once share a tag in epochs 1 to 1024 if and only if neither got a range and the epochs are the same. |
| `RmaWindows.FreedIndexIff` | src/instrumentation/rma/rma_analyzer.cpp:177-180 | Freeing a window writes inside the array if and only if the window got a range, and then to the place of that range. |
| `RmaTags.TagRanges.GetTagRangeId` | src/instrumentation/rma/rma_analyzer.cpp:163-173 | Gives the first free range and marks exactly that one; gives -1 if and only if all are taken. |
| `RmaTags.TagRanges.FreeTagRange` | src/instrumentation/rma/rma_analyzer.cpp:177-180 | Frees exactly the range of the window; for a window that got -1 the place to write to is outside the array. |
| `IntervalStore.CompleteIffUppersSorted` | src/instrumentation/rma/rma_analyzer.cpp:184-204 | The neighbour scan finds everything that intersects, for every access, if and only if upper bounds are non-decreasing in stored order. |
| `IntervalStore.ScanIsComplete` | src/instrumentation/rma/rma_analyzer.cpp:184-204 | With ordered upper bounds one scan misses nothing. |
| `IntervalStore.MissedAccess` | src/instrumentation/rma/rma_analyzer.cpp:184-204 | For every stored pair with upper bounds out of order there is a remote write that conflicts with a stored access its search misses. |
| `IntervalStore.ConflictsFoundIffUppersSorted` | src/instrumentation/rma/rma_analyzer.cpp:184-215 | Every conflict of every access is found if and only if upper bounds are non-decreasing in stored order. |
| `IntervalStore.ConflictsFoundIffNoneInside` | src/instrumentation/rma/rma_analyzer.cpp:184-215 | The same without regard to where the accesses stand: every conflict of every access is found if and only if no stored interval has a smaller lower and a larger upper bound than another. |
| `IntervalStore.UppersSortedIff` | src/instrumentation/rma/Interval.h:51-53 | Ordered by lower and then by upper bounds, the upper bounds of a store are non-decreasing if and only if no interval lies inside another in that sense. |
| `IntervalStore.SaveRunIsConflictFree` | src/instrumentation/rma/rma_analyzer.cpp:43-80 | Any sequence of saves without an abort ends in a store free of conflicts, if only the final upper bounds are ordered. |
| `IntervalStore.NoneInsideNoConflict` | src/instrumentation/rma/rma_analyzer.cpp:43-80 | Saves from the empty store, none of which aborts, of accesses none of which lies inside another: the store holds just these accesses, and no two of them conflict. |
| `IntervalStore.MissedConflict` | src/instrumentation/rma/rma_analyzer.cpp:43-80 | Three saves from the empty store, none of which aborts, that leave a conflict: a long read, a short read in it, a remote write behind the short one. |
| `IntervalStore.SaveKeepsConflictFree` | src/instrumentation/rma/rma_analyzer.cpp:43-80 | One save without an abort into a store that is ordered afterwards adds no conflict. |
| `IntervalStore.ConflictMeans` | src/instrumentation/rma/Interval.h:105-114 | Two accesses conflict exactly when they share an address, one writes and one is remote. |
| `IntervalStore.Store.Intersecting` | src/instrumentation/rma/rma_analyzer.cpp:184-204 | Returns a contiguous run of stored accesses, all intersecting, and all of them when upper bounds are ordered. |
| `IntervalStore.Store.Conflicting` | src/instrumentation/rma/rma_analyzer.cpp:206-215 | Returns only conflicting accesses, and all of them when upper bounds are ordered. |
| `IntervalStore.Store.Save` | src/instrumentation/rma/rma_analyzer.cpp:43-80 | Aborts with real conflicts and leaves the store alone, or inserts, in the order of lower and then upper bounds, after a scan without conflict; while no stored interval lies inside another one it aborts exactly on a conflict. |
| `IntervalStore.InsertKeepsConflictFree` | src/instrumentation/rma/rma_analyzer.cpp:78-78 | Inserting an access that conflicts with nothing keeps the store conflict-free. |
| `TaintGraph.TaintedIffFlow` | src/aSSA/DepGraphDCF.cpp:1109-1187 | A node is in the least set that holds the sources and the children of tainted nodes that are no resets, if and only if a path leads to it from a source and leaves no reset node. |
| `TaintGraph.DepEdges.Add` | src/aSSA/DepGraphDCF.cpp:1542-1560 | Adds exactly one edge and keeps child and parent maps inverse to each other. |
| `PhiElimination.Pass.RemoveEdges` | src/aSSA/DepGraphDCF.cpp:1562-1596 | Removes exactly the given edges, keeps child and parent maps inverse to each other, and reports whether each was there, as the assertions on the number of erased elements demand. |
| `PhiRewrite.RewiringAddsNoTaint` | src/aSSA/DepGraphDCF.cpp:1339-1491 | Eliminating a phi with equivalent operands taints no node that is left, unless the phi is a reset node and the kept operand is not. |
| `PhiRewrite.AddsNoTaintIff` | src/aSSA/DepGraphDCF.cpp:1339-1491 | Exactly: over all graphs no taint is added if and only if the kept operand is a reset node whenever the phi is. |
| `PhiRewrite.FitKeepsTaint` | src/aSSA/DepGraphDCF.cpp:1339-1491 | All taint that does not come through a predicate of the phi is kept when the kept operand fits: if it is a reset node so are all operands and the phi is no live source; otherwise it is a source if any operand or the phi is a source and no reset. |
| `PhiElimination.AreEquivalent` | src/aSSA/DepGraphDCF.cpp:1242-1337 | True exactly when neither variable is a phi and both have the same entries and neighbours in all four maps. |
| `PhiElimination.EquivalentIff` | src/aSSA/DepGraphDCF.cpp:1242-1337 | In terms of the graph: two variables pass the test if and only if neither is a phi, they have the same edges out and in, and the same four tables have an entry for them. |
| `PhiElimination.CanEliminate` | src/aSSA/DepGraphDCF.cpp:1515-1532 | True exactly when every operand is equivalent to the next. |
| `PhiElimination.PassedTest` | src/aSSA/DepGraphDCF.cpp:1515-1532 | Then all operands have the same neighbours, are alive, are no phis, and all flow into the phi. |
| `PhiElimination.StaysWellFormed` | src/aSSA/DepGraphDCF.cpp:1339-1491 | After an elimination every other phi still has exactly its alive operands as parents, at least one of them. |
| `PhiElimination.ReplaceOperand` | src/aSSA/DepGraphDCF.cpp:1390-1406 | Replaces the first matching operand only. |
| `PhiElimination.Pass.MergeEdges` | src/aSSA/DepGraphDCF.cpp:1371-1481 | The edges left are exactly those of the rewritten graph, and all edges removed were there if and only if the predicates flow into the phi and no operand given up flows into another. |
| `PhiElimination.Pass.EliminatePhi` | src/aSSA/DepGraphDCF.cpp:1339-1491 | One elimination: the rewritten graph, the node set without the phi and the other operands, well-formedness, the child phis' operands, and when exactly every edge removed was there. |
| `PhiElimination.Pass.RemoveOperands` | src/aSSA/DepGraphDCF.cpp:1446-1481 | Removes all edges at the operands given up; an edge between two of them is looked for twice. |
| `PhiElimination.UnlinkedIffNoLoop` | src/aSSA/DepGraphDCF.cpp:1446-1481 | For equivalent operands that happens exactly if the kept one flows into itself and is not the only one. |
| `PhiElimination.WithoutPredEdges` | src/aSSA/DepGraphDCF.cpp:356-360 | In a graph built without predicate edges the removal finds all it looks for only if the phi has no predicates. |
| `PhiElimination.LinkedOperands` | src/aSSA/DepGraphDCF.cpp:1446-1481 | A well-formed graph with a phi that passes the test and whose operands are linked, whichever of them is kept. |
| `PhiRuns.RunKeepsPreds` | src/aSSA/DepGraphDCF.cpp:1371-1374 | In a graph built with its predicate edges they are all there for every elimination of every run. |
| `PhiRuns.EliminatePhis` | src/aSSA/DepGraphDCF.cpp:1493-1540 | The pass ends, keeps the maps inverse to each other, leaves no phi of a function that passes the test when its turn ends, adds no flow between nodes that are left and loses none but through predicates of eliminated phis. |
| `PhiRuns.EliminateInFunction` | src/aSSA/DepGraphDCF.cpp:1500-1538 | Passes over a function until no phi left in it passes the test. |
| `PhiRuns.ScanPhis` | src/aSSA/DepGraphDCF.cpp:1503-1537 | One pass; it reports a change exactly when it eliminated something. |
| `PhiRuns.RunPreservesFlow` | src/aSSA/DepGraphDCF.cpp:1493-1540 | Over every run of eliminations: flow between survivors is not added, and lost only through the removed predicate edges. |
| `PhiRuns.RunPreservesTaint` | src/aSSA/DepGraphDCF.cpp:1493-1540 | Over every run whose eliminations each meet the exact condition: survivors do not become tainted, and stop being tainted only for what came through removed predicate edges. |
| `PhiRuns.LabelledRunIsHarmless` | src/aSSA/DepGraphDCF.cpp:1493-1540 | One label per phi that its operands share, given on the initial graph, makes every elimination of every run meet the condition. |
| `PhiRuns.StepKeepsLabels` | src/aSSA/DepGraphDCF.cpp:1390-1406 | The labels hold after every elimination. |
| `PhiRewrite.KeepsTaintIff` | src/aSSA/DepGraphDCF.cpp:1339-1491 | Exactly: over all graphs, and whatever is a source or a reset node, one elimination keeps taint if and only if the kept operand fits. The code picks it by address and looks at neither. |
| `PhiRewrite.LostSource` | src/aSSA/DepGraphDCF.cpp:1339-1491 | For any phi and operands where a source is given up for one that is none, a graph on which its taint is lost. |
| `PhiRewrite.LostReset` | src/aSSA/DepGraphDCF.cpp:1339-1491 | For any phi and operands where a reset node is kept and another operand is none, a graph on which taint is lost. |
| `PhiRewrite.LostPhi` | src/aSSA/DepGraphDCF.cpp:1339-1491 | The same for a phi that is itself a source. |
| `PhiRewrite.AddedTaint` | src/aSSA/DepGraphDCF.cpp:1339-1491 | For a reset phi and a kept operand that is none, a graph on which taint is added. |
| `TaintFlood.FloodAll` | src/aSSA/DepGraphDCF.cpp:1109-1187 | The two interleaved queues compute exactly the least set closed under flow from the sources. |
| `TaintFlood.Drain` | src/aSSA/DepGraphDCF.cpp:1127-1183 | From any queue that holds the unsettled nodes the loop ends in the least closed superset. |
| `TaintFlood.Spread` | src/aSSA/DepGraphDCF.cpp:1135-1144 | Children that are not tainted yet become so and are queued, each once. |
| `TaintWalk.ContextSensitive` | src/aSSA/DepGraphDCF.cpp:2480-2526 | From all entries: a recorded condition belongs to a function that calls lead to, is tainted context-insensitively too, and, without recursion, along a path on which calls and returns match. For every function that calls lead to, the conditions its own sources taint inside it are recorded, those tainted by what passes over one call to or from another function (neither calling itself), and those that routes from a source reach: over any number of calls and returns, in the order of the calls, through functions with one caller. |
| `TaintWalk.Walk` | src/aSSA/DepGraphDCF.cpp:2528-2611 | The walk ends on every call graph, recursive ones included, visits exactly the functions that calls lead to, with the same bounds on what is recorded, and in the end only the entry's nodes carry taint. |
| `TaintWalk.WalkRound` | src/aSSA/DepGraphDCF.cpp:2540-2610 | One round keeps what the walk rests on, the taint along all routes and its contexts included, and takes a call not taken before or pops the stack. |
| `TaintChains.RoundKeepsChains` | src/aSSA/DepGraphDCF.cpp:2552-2608 | For every chain of only calls from the entry: once its last function has been on top, its conditions that routes reach are recorded, and until the caller has taken over from it all that routes reach in it stays tainted; once a callee has returned, also what they bring back from it. |
| `TaintRoutes.CallHolds` | src/aSSA/DepGraphDCF.cpp:2343-2438 | Crossing into the last function of a chain taints all that routes enter there from the one before, after any callee that is called earlier has returned. |
| `TaintRoutes.ReturnHolds` | src/aSSA/DepGraphDCF.cpp:2343-2438 | Crossing from a callee that has returned taints all that routes bring back from it. |
| `TaintRoutes.CrossingHolds` | src/aSSA/DepGraphDCF.cpp:2343-2438 | What has come into a function stays tainted, whatever crosses and in whichever order, where no reset variable interferes. |
| `TaintRoutes.FloodHoldsAll` | src/aSSA/DepGraphDCF.cpp:2215-2341 | Flooding a function then taints all that routes reach in it. |
| `TaintRoutes.CrossKeeps` | src/aSSA/DepGraphDCF.cpp:2343-2438 | A node that no reset variable flows to, or of another function, keeps its taint, whatever crosses and in whichever order. |
| `TaintChains.EarlierIsGone` | src/aSSA/DepGraphDCF.cpp:2585-2599 | When a function is pushed, all callees that its caller calls before it have returned. |
| `TaintChains.EndChains` | src/aSSA/DepGraphDCF.cpp:2528-2611 | When the stack is empty, all conditions that routes from the entry reach have been recorded. |
| `TaintContexts.RoundKeepsContexts` | src/aSSA/DepGraphDCF.cpp:2552-2608 | Without recursion, after each round all taint in functions on the stack is tainted in the context of the stack, and all that is recorded in some context. |
| `TaintContexts.FloodedIsPlaced` | src/aSSA/DepGraphDCF.cpp:2552-2577 | Crossing from the function below or a callee that has returned, and flooding, taint nothing out of the context of the stack. |
| `TaintContexts.PushedIsPlaced` | src/aSSA/DepGraphDCF.cpp:2441-2457 | A function that is pushed holds no taint but what an earlier walk from it as an entry has left, which is tainted in its new context too. |
| `TaintContexts.EndContexts` | src/aSSA/DepGraphDCF.cpp:2528-2611 | The walk from an entry leaves taint only where the entry itself has it in context. |
| `TaintExample.RecordedOverFiveCrossings` | src/aSSA/DepGraphDCF.cpp:2480-2611 | On a program where taint goes down two calls, comes back over both and goes down another one, the walk computed: the one condition recorded is that of the last function. |
| `TaintExample.NotRecordedForOtherCaller` | src/aSSA/DepGraphDCF.cpp:2480-2611 | On a program with a function that two others call, the walk computed: a condition of one that only taint of the other reaches over it is not recorded, though it is tainted context-insensitively. |
| `TaintWalk.CarryTaint` | src/aSSA/DepGraphDCF.cpp:2552-2582 | One round exactly: taint crosses from the function before, the one on top is flooded and its tainted conditions are recorded, and a returned callee is forgotten. |
| `TaintWalk.RoundCrosses` | src/aSSA/DepGraphDCF.cpp:2552-2608 | After each round every call taken has passed its taint on and back, but for the call just taken and those that have not returned. |
| `TaintCalls.CrossingIsRecorded` | src/aSSA/DepGraphDCF.cpp:2343-2478 | What a function's own sources taint and pass over a call is recorded where it taints conditions of the other function. |
| `TaintWalk.NextCallee` | src/aSSA/DepGraphDCF.cpp:2585-2599 | Picks the first callee not visited from here that stands for a function, and marks it and what it passes over. |
| `TaintSteps.FloodFunction` | src/aSSA/DepGraphDCF.cpp:2215-2341 | The least set closed under flow inside the function that holds the taint so far and the function's sources. |
| `TaintSteps.FloodFromFunction` | src/aSSA/DepGraphDCF.cpp:2343-2438 | Exactly the result of crossing node by node in some order, variables first; for functions with nodes of their own, taint crosses exactly to children in the other function and children of tainted resets only lose theirs; nothing outside changes. |
| `TaintSteps.RecordConditions` | src/aSSA/DepGraphDCF.cpp:2459-2478 | Adds exactly the tainted conditions of the function's call sites. |
| `TaintSteps.FloodFunctionCarried` | src/aSSA/DepGraphDCF.cpp:2215-2341 | Flooding a function taints nodes of that function only. |
| `PostDominance.Frontiers.PostdominanceFrontier` | src/aSSA/Utils.cpp:54-94 | Returns exactly the blocks Y other than BB such that BB post-dominates a successor of Y and does not strictly post-dominate Y; a cached answer equals a recomputed one. |
| `PostDominance.Frontiers.IteratedFrontier` | src/aSSA/Utils.cpp:100-148 | Returns the least set that holds the frontier of BB and the frontiers of its members; cached or not. |
| `PostDominance.Frontiers.Round` | src/aSSA/Utils.cpp:126-141 | One round adds the frontiers of the blocks of the last one, and what is new comes next. |
| `PostDominance.LocalPart` | src/aSSA/Utils.cpp:68-75 | A predecessor of BB is in the frontier exactly when BB is not its immediate post-dominator. |
| `PostDominance.UpPart` | src/aSSA/Utils.cpp:76-89 | A block of a child's frontier is in BB's exactly when BB is neither it nor its immediate post-dominator. |
| `PostDominance.NothingElse` | src/aSSA/Utils.cpp:76-89 | Every other frontier block comes from the frontier of some child. |
| `PostDominance.DominatorsAreComparable` | src/aSSA/Utils.cpp:54-94 | Of two blocks that post-dominate a third, one post-dominates the other. |
| `PostDominance.ChildTowards` | src/aSSA/Utils.cpp:76-80 | Below a strict post-dominator some child of it in the tree post-dominates too. |
| `CollectiveAnalysis.CollListVisitor.Run` | src/aSSA/CollListFunctionAnalysis.cpp:23-111 | On a loop-free program with acyclic calls, for every block: its list is NAVS-free if and only if all paths from it, calls included, issue the same sequence on the communicator, and then the list is that sequence; it is reported as NAVS if and only if a difference is met before any collective. |
| `CollectiveAnalysis.CollListVisitor.Visit` | src/include/parcoach/CFGVisitors.h:136-210 | The postponing traversal ends, visits each block of the function exactly once, and after all its successors. |
| `CollectiveAnalysis.CollListVisitor.VisitBlock` | src/aSSA/CollListFunctionAnalysis.cpp:65-90 | Computes the list of one block from lists that are there already. |
| `CollectiveAnalysis.Compute` | src/aSSA/CollListFunctionAnalysis.cpp:30-63 | The list of a block is the one the program defines: the mark where successors differ, else own elements and the successors' list. |
| `CollectiveAnalysis.CreateFromBlock` | src/aSSA/CollectiveList.cpp:91-134 | The elements of a block are those of its calls in order, callees included; the mark if neighbours differ. |
| `CollectiveAnalysis.ActOnCall` | src/aSSA/CollectiveList.cpp:103-112 | One call adds the collective, the callee's list, or nothing for another communicator. |
| `CollectiveAnalysis.NeighborsAreNavs` | src/include/parcoach/CollectiveList.h:85-105 | True exactly when two neighbouring lists differ as lists, although only printed forms are compared. |
| `CollectiveAnalysis.HiddenDifference` | src/aSSA/CollectiveList.cpp:29-34 | On a valid program with a barrier before a branch that differs, the analysis gives the first block a list that is not reported although the sequences from it differ. |
| `CollectiveMeaning.ListMeans` | src/aSSA/CollListFunctionAnalysis.cpp:30-63 | The list of a block means the set of sequences issued from it to the end of the function. |
| `CollectiveMeaning.OnwardListMeans` | src/include/parcoach/CollectiveList.h:85-105 | The successors' common list means what comes after the block; differing lists mean that the sequences differ. |
| `CollectiveMeaning.FrontIsFirst` | src/aSSA/CollectiveList.cpp:29-34 | The front element of a list is decided on the program: a branch whose lists differ first, then own calls and callees in order, then the first successor. |
| `CollectiveMeaning.FrontMeansRuns` | src/aSSA/CollectiveList.cpp:29-34 | That front says how all sequences from the block begin: with nothing at all, with one and the same collective, or differently. |
| `CollectiveMeaning.UnnoticedIff` | src/aSSA/CollectiveList.cpp:29-34 | Exactly at which blocks a difference is not marked: those where a collective is met before any branch whose lists differ; all sequences from the block begin with it. |
| `CollectiveMeaning.DifferenceIsMarkedAhead` | src/aSSA/CollListFunctionAnalysis.cpp:157-175 | Sequences from a block differ if and only if, along successors and calls, it leads to a block whose successors have different lists free of marks; the list of that block is nothing but the mark. |
| `FrontierRange.IteratedFrontierDecides` | src/aSSA/Utils.cpp:100-148 | The iterated post-dominance frontier of a block consists of exactly the other blocks from which an execution comes to it before it comes to their immediate post-dominator. |
| `FrontierRange.DecidingIsInFrontier` | src/aSSA/Utils.cpp:100-148 | Such an execution puts its first block in every set closed under frontiers. |
| `FrontierRange.FrontierDecides` | src/aSSA/Utils.cpp:54-94 | Each block of a frontier has such an execution. |
| `FrontierRange.DecidesOnward` | src/aSSA/Utils.cpp:126-141 | Such executions one after the other make one. |
| `CallConditions.CallInterIpdf` | src/aSSA/DepGraphDCF.cpp:1211-1240 | Ends on recursive call graphs, although a call site can be queued several times, and returns exactly the blocks of the iterated frontiers of the call and of all call sites that lead to its function. |
| `CallConditions.BlockIpdf` | src/aSSA/DepGraphDCF.cpp:1224-1228 | The iterated frontier of the block of one call. |
| `Divergence.DifferenceIsCovered` | src/aSSA/CollListFunctionAnalysis.cpp:131-168 | If sequences from a block differ, there are a block ahead whose list is the mark and a collective call that depends on its condition: through post-dominance in one function, or through the calls that lead to it. |
| `Divergence.PartingDecides` | src/aSSA/CollListFunctionAnalysis.cpp:131-138 | Where the successors' lists differ, the block decides about one that issues a collective or calls a function that does. |
| `Divergence.ListAtJoin` | src/aSSA/CollListFunctionAnalysis.cpp:30-63 | If it decides only about blocks that issue nothing, every block on the way to where its ways join has the list of the join. |
| `Divergence.CallInBlock` | src/aSSA/DepGraphDCF.cpp:1211-1240 | A block with elements of its own contains a collective call, or a call of a function that leads to one. |
| `Warnings.Checker.Run` | src/aSSA/CollListFunctionAnalysis.cpp:114-199 | The calls reported are exactly the direct calls of collectives that have a condition: a block they depend on, marked in a list for a communicator that concerns the call, with a tainted condition; all its conditions are reported with it. |
| `Warnings.CheckCall` | src/aSSA/CollListFunctionAnalysis.cpp:147-199 | The conditions reported with one call. |
| `Warnings.LooksMarked` | src/aSSA/CollListFunctionAnalysis.cpp:157-171 | Whether some list that concerns the call has the mark at the front. |
| `Warnings.DifferenceIsReported` | src/aSSA/CollListFunctionAnalysis.cpp:114-199 | No difference is overlooked: it is reported with some collective call, unless the condition where the sequences part is not tainted. |
| `Warnings.ConditionDiffers` | src/aSSA/CollListFunctionAnalysis.cpp:157-175 | From every reported condition sequences differ for some communicator: the one the call is given, if it is an MPI collective that is given one. |
| `Warnings.WarnedIffDifferent` | src/aSSA/CollListFunctionAnalysis.cpp:114-199 | With all conditions tainted there is a warning if and only if, for some communicator, sequences from some block differ. |
| `ReportedExample.ReportedDifference` | src/aSSA/CollListFunctionAnalysis.cpp:114-199 | On the program with the barrier before the branch, lists and warnings computed: the first block's list is not marked although the sequences from it differ, and a call is reported. |
| `CollectiveLists.SamePrintSameList` | src/include/parcoach/CollectiveList.h:78-80 | Two lists print alike if and only if they are the same list, nested loop lists included. |
| `CollectiveLists.PrintUnique` | src/aSSA/CollectiveList.cpp:71-89 | The printed form of a list can be read back from any text that begins with it. |
| `CollectiveRuns.MeansUniform` | src/include/parcoach/CollectiveList.h:85-105 | A list with this meaning is NAVS-free exactly when all sequences are the same, and then it is the only one. |
| `CollectiveRuns.MeansConcat` | src/aSSA/CollectiveList.cpp:50-65 | Lists one after the other mean sequences one after the other, marks included. |
| `CollectiveRuns.UnionMeans` | src/include/parcoach/CollectiveList.h:85-105 | Alternatives with one common list mean it; two different lists mean two different sequences. |
| `CollectiveComms.RunsAreTraces` | src/aSSA/CollectiveList.cpp:13-25 | The sequences counted for a communicator are those of all collectives that are issued, each with the communicator it is given, with the MPI collectives struck out that are given another one; those without a communicator and those that are not MPI stay. |
| `CfgTraversal.SomeReady` | src/include/parcoach/CFGVisitors.h:155-176 | Below every unvisited block some queued block has all its successors visited. |
| `CfgTraversal.PostponeProgress` | src/include/parcoach/CFGVisitors.h:172-176 | Putting a block back at the end brings the first ready block closer to the front. |
| `CfgTraversal.VisitKeepsInv` | src/include/parcoach/CFGVisitors.h:178-207 | A visited block moves behind its successors in the order and its predecessors are queued once. |
| `CfgTraversal.AllVisited` | src/include/parcoach/CFGVisitors.h:155-207 | An empty queue means that every block has been visited, once and after its successors. |
| `LoopLists.VisitLoop` | src/aSSA/CollListLoopAnalysis.cpp:22-76 | For an innermost loop: the list wrapped at the header has the mark in front, where it is looked for, if and only if some header-to-latch paths issue different sequences of direct collective calls; otherwise it is the one sequence, and k iterations issue it k times. The loop's successors are exactly the blocks outside it jumps to. |
| `LoopLists.TraverseBody` | src/include/parcoach/CFGVisitors.h:51-110 | The forward traversal ends with a correct list for every block of the loop. |
| `LoopLists.VisitBlock` | src/aSSA/CollListLoopAnalysis.cpp:22-63 | The header has the empty list; any other block gets a list that means the paths to it and, unless it is free of marks, begins with the mark. |
| `LoopLists.MarkedIffDifferent` | src/aSSA/CollectiveList.cpp:27-40 | A list whose marks show in front is marked if and only if the sequences it means differ. |
| `LoopLists.EnqueueSuccessors` | src/include/parcoach/CFGVisitors.h:86-107 | Successors in the loop are queued once; those outside are collected. |
| `LoopLists.PathMeans` | src/aSSA/CollListLoopAnalysis.cpp:44-53 | The predecessors' common list followed by the own calls means the paths to the block; differing lists mean that the sequences differ. |
| `LoopLists.RepeatedSingle` | src/aSSA/CollListLoopAnalysis.cpp:65-76 | If one iteration issues one sequence, k iterations issue it k times. |
| `ModRefAnalysis.Analysis.Analyze` | src/aSSA/ModRefAnalysis.cpp:340-450 | A region is in the final Mod (Ref) set of a function if and only if a path of calls from it, none of whose functions kills the region, ends in a function that modifies (references) it locally. |
| `ModRefAnalysis.Analysis.ComputeKill` | src/aSSA/ModRefAnalysis.cpp:357-399 | The kill set is the locals and kill sets of callees outside the component, and is taken off both sets. |
| `ModRefAnalysis.Analysis.ComputeKills` | src/aSSA/ModRefAnalysis.cpp:355-400 | All kill sets of a component, before its fixed point. |
| `ModRefAnalysis.Analysis.UpdateFunction` | src/aSSA/ModRefAnalysis.cpp:417-441 | A function takes over what its callees touch less its own kill set, and nothing without a path. |
| `ModRefAnalysis.Analysis.Pass` | src/aSSA/ModRefAnalysis.cpp:409-446 | A pass over the component that changes no size leaves all its functions closed. |
| `ModRefAnalysis.Analysis.FixedPoint` | src/aSSA/ModRefAnalysis.cpp:402-447 | The loop ends with exactly what paths lead to. |
| `ModRef.DoneMeans` | src/aSSA/ModRefAnalysis.cpp:402-447 | Sets that are closed and hold only what has a path are exactly the path sets. |
| `ModRef.KillIffPath` | src/aSSA/ModRefAnalysis.cpp:361-379 | A region is killed in a function exactly when calls that each leave their component lead to a function to which it is local. |
| `ModRef.PathIsHeld` | src/aSSA/ModRefAnalysis.cpp:417-441 | A closed set holds everything that a path leads to. |

## Left out

- Hybrid cycle detection (`src/aSSA/andersen/ConstraintSolving.cpp:245-358`, `505-537`): the solver is modelled with `EnableHCD` off. Offline merges over-approximate, and the online collapse at lines 516-524 merges into a node that it does not put on a worklist.
- Constraint collection, constraint optimisation (HVN/HU) and the tables of external functions: IR plumbing and code that is compiled out.
- Dominator and post-dominator trees, dominance frontiers for phi placement, LoopInfo and the order of call graph components: inputs with a stated definition. Blocks are reachable from the entry and, for post-dominance, reach the exit.
- Iteration over `std::set`, `DenseSet` and pointer order: an arbitrary order, so the results hold for all orders. The cycle detector identifies nodes by id where the code uses addresses.
- Fixed-width integers: time stamps, versions, counters, MPI counts and 64-bit addresses do not wrap around.
- MemorySsa.BuildSsa: no `invoke` (pushes and pops test different instruction classes at lines 487 and 576), and the return mus are accesses of one returning block, which is all there is after the pass that unifies exits (`src/aSSA/Parcoach.cpp:95`); the exit on a missing frontier entry (lines 415-420) is not modelled.
- RmaRuns.EpochsAreExact: steps are atomic, all ranks create and free windows in one order on one communicator, and at most 32 windows are alive at once. Ranks may close and open epochs at any time between these calls, so what a barrier does to all windows is covered, but not that its restart through `from_sync` can start a thread for a window whose epoch has ended. The separately sent file names (and their tag), partial locks and PSCW groups are not modelled.
- RmaTags.TagRanges.FreeTagRange: what the code does after writing outside the array is not modelled.
- IntervalStore.Store.Save: `fixForWindow`, source locations other than a line number, and accesses of size zero (whose upper bound wraps) are not modelled; completeness is for well-formed intervals.
- PhiElimination.Pass.EliminatePhi: an edge that is not there is skipped, as in a build without assertions; the contract says when that happens. Every phi has at least two operands, and one set of alive variables stands for the sets per function.
- PhiRuns.RunPreservesTaint: the exact condition is asked of each elimination; over a whole run it is sufficient, since on one given graph nothing need be lost although a step does not meet it.
- TaintWalk.Walk: entries and call graph nodes that are walked stand for functions. The bounds in terms of whole paths are for functions with their own nodes. From above also without recursion: a function that is on the stack twice has one set of nodes for both. From below along routes through functions with one caller among those called, from an entry that none of them calls: a function with several callers takes its own calls only once, and which of the callers has it then depends on the order. And no reset variable flows to a node at which a route enters or comes back: whether it keeps the taint depends on the order of the set of nodes (`src/aSSA/DepGraphDCF.cpp:2346-2379`). Elsewhere the bound from below is what crosses one call between functions that do not call themselves.
- PostDominance.Frontiers.PostdominanceFrontier: the caches are static and never invalidated; the graph is taken to be the same for all calls.
- CollectiveAnalysis.CollListVisitor.Run: one communicator at a time, direct calls only, no loops and no recursion. Function lists with loops aggregated and indirect calls (whose lists are all concatenated) are not modelled.
- Warnings.Checker.Run: for such programs, with the lists of all communicators; call sites are direct calls. Where conditions and their taint come from, debug locations and the text of warnings are not modelled.
- LoopLists.VisitLoop: innermost loops with one incoming and one back edge. Calls in the header and calls to functions are not in the list (`src/aSSA/CollListLoopAnalysis.cpp:28-33`), so the sequences are those of direct calls after the header; nested loops are not modelled.
- ModRefAnalysis.Analysis.Analyze: local sets and the global kill set come from instruction visitors that are not modelled.
- Graph construction from IR, dot output, debug traces, JSON, the Fortran wrappers, LocalConcurrencyAnalysis and RMAInstrumentation: I/O, IR rewriting or foreign alias queries.
