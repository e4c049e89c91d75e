# Dytan's taint analysis core

A model of the core of Dytan, a dynamic taint analysis tool, with proofs about it. Four components are
modelled, each as a specification on values with its theorems and as imperative code on the heap that is
proved to follow the specification.

**Control flow** (`Routine`, `AddressMaps`, `BlockScan`, `BlockSuccessors`, `GraphBlocks`, `GraphHandover`,
`BranchRules`, `RoutineGraph`, `ControlPlacement`, `ControlWalk`; `PostDominance`, `PostDominancePass`, `PassExactness`,
`DescendantRows`, `KeyedPass`, `BasicBlocks`, `PostDominanceTree`; `RunSteps`, `PostDominanceLimits`,
`SuccessorLimits`, `LimitRoutine`, `UndecidedExact`, `VisitOrders`). Two passes over a routine's instructions build
basic blocks. A worklist pass from the return block builds a tree of parent pointers in which every block also keeps
a map of its descendants, by which common ancestors are looked up. The tree is used to decide where control taint is
pushed and popped. The main results:

- On every graph the pass ends, takes each block at most once, keeps the pointers a tree, and attaches exactly
  the blocks from which the return block can be reached.
- Looking a block up leaves a NULL entry for it, and moving a block erases the entries of its map, so that the
  maps go wrong. They stay right about blocks not looked up before. Therefore the lookups find the lowest common
  ancestor in every run if no block precedes more than two blocks that lead to the return block, which holds of
  every routine's graph; with three, a run loses a post-dominator.
- Every true post-dominator is then a tree ancestor, in every state of every run.
- The finished tree is exact if and only if it is stable. All runs on a graph are exact if and only if no legal
  order of visits takes a post-dominator from a block that the visited one does not post-dominate; a condition
  without orders suffices, and a routine of six instructions has a run that is not exact.
- Over an exact tree, control entries can outlive the place of their pop if and only if two branches share one.
- The edges and blocks found are exactly those the instructions call for.

**Marks** (`Words`, `PackedBits`, `Bitset`, `MachineIntegers`, `TaintGenerators`, `TaintSources`, `OffsetSource`).
A word-packed bitset refines a set of naturals, a generator hands out marks round robin, and the sources of taint
stamp the bytes of a read.

**Propagation** (`Taint`, `TaintFlow`, `TaintIndependence`, `TagIndex`, `TagRuns`, `TagLists`, `Cells`,
`TaintMaps`, `Engine`). A call into the engine is an event on a map from locations to sets of marks. The main
results: a mark is where a chain of writes has led it; marks do not interfere, and exactly which pops break
that; what the reverse index from marks to addresses says, for all runs, and exactly when it is right, although
sources and clears write memory behind its back. The heap engine keeps a ghost history, and its invariant says that
bitsets and lists are what the history has made of the initial state, so that the theorems about runs, which exclude
no source, hold of every reachable engine.

**Instructions** (`Plans`, `Instructions`, `NamedEffects`, `Handlers`, `Effects`). A handler inserts calls before an
instruction; they communicate through shared scratch sets. Every plan of loads and stores is proved to act as a
simultaneous assignment, each handler is proved to insert the calls of its plan up to the first that it cannot, and
running them on the heap engine is proved to make the assignments that were reached.

## Reading the model

- Addresses are naturals. A written range must not wrap around and its size must fit in `int`; the tag lists'
  truncation of address differences to `int` is modelled.
- A 64-bit build is modelled: 64-bit words, and RFLAGS as the flags register, except in 32-bit MUL and DIV,
  which name EFLAGS.
- The order in which a set of pointers or a map is iterated is left open wherever the result does not depend
  on it, and is the order of the keys where it does.
- A lookup in `postDominated` by `operator[]` that finds nothing stores NULL under the key. The model keeps such
  entries, and the erasing loop erases them like all others.
- An instruction is abstracted to its address, kind, target and fall-through, or to its operands and whether
  their addresses can be computed.
- `bitset_is_subset(a, b)` decides whether b is a subset of a; the model follows the code.
- `RoutineGraph` never looks at the first instruction of a routine as a branch, the single post-dominance pass
  never revisits a block, PopControl stops at the first branch that is not pending, a tag list never drops a
  cleared record, and branches that rejoin at the return block are never popped. The model follows the code
  in each case, and states the exact condition.

## Model

| member | source | states |
|---|---|---|
| `PostDominance.Forest.CommonIsLowest` | include/BasicBlock.H:207-217 | the block that a climb is meant to find, the first one strictly above the predecessor, is the lowest common ancestor-or-self: every block above both is above or equal to it |
| `PostDominance.Forest.AttachUp` | include/BasicBlock.H:252-257 | hanging a new block below another keeps the tree acyclic and rooted at 2, and changes no other block's ancestors |
| `PostDominance.Forest.MoveUp` | include/BasicBlock.H:259-267 | moving a block up to an ancestor keeps the tree acyclic and rooted at 2, and says exactly which ancestors each block loses |
| `DescendantRows.FoundIsCommonIff` | include/BasicBlock.H:207-217 | whatever the maps hold, the climb finds the lowest common ancestor if and only if no map below that ancestor counts the predecessor and the ancestor's own does, unless it is the return block |
| `DescendantRows.AttachAbove` | include/BasicBlock.H:290-297 | an attach changes descendant sets by the new block, exactly for the blocks above it |
| `DescendantRows.MoveAbove` | include/BasicBlock.H:320-339 | a move up changes descendant sets by the moved subtree, exactly for the blocks from the old parent up to, but not including, the new one |
| `DescendantRows.AttachTracks` | include/BasicBlock.H:252-257 | maps that are right about all blocks not yet looked up stay so when a block is attached |
| `DescendantRows.MoveTracks` | include/BasicBlock.H:258-270 | visiting a block not looked up before, from maps right about all such blocks, finds the lowest common ancestor, and the maps stay right about all blocks but that one and those looked up before, which are also the only ones with NULL entries |
| `DescendantRows.MoveExactIff` | include/BasicBlock.H:207-339 | a move from maps that are right about all blocks leaves them right if and only if the moved block's map has no NULL entry for another block that one of the passed blocks has below it; the entry is erased with the others |
| `BasicBlocks.BasicBlock.GetCommonPostDominator` | include/BasicBlock.H:207-217 | on the heap, for any tree of pointers and any maps: terminates at the first block that counts the sibling or at the return block, and leaves a NULL entry in every map it looked in that had none |
| `BasicBlocks.BasicBlock.PassDownPostDominanceInfo` | include/BasicBlock.H:290-297 | adds the new child to the descendant maps of this block and all its ancestors, and to no other map |
| `BasicBlocks.BasicBlock.DeleteDownPostDominanceInfo` | include/BasicBlock.H:320-339 | erases every key of the given map, NULL entries included, and the moved block from the maps of the blocks from this one up to, but not including, the last one, or up to the return block if the last one is not above; no other map changes |
| `BasicBlocks.BasicBlock.AttachPredecessor` | include/BasicBlock.H:252-257 | after attaching, pointers and flags are those of the tree with one more block, and exactly the maps of the blocks above it have gained it |
| `BasicBlocks.BasicBlock.FindNewParent` | include/BasicBlock.H:260-263 | finds the new parent by the climb and erases the keys of the predecessor's map, as they are after the climb, from the maps up to it |
| `BasicBlocks.BasicBlock.MovePredecessor` | include/BasicBlock.H:258-270 | sets the pointer to the block the climb found; all maps are those of the climb followed by the erasing walk |
| `BasicBlocks.BasicBlock.AddPredecessorAsPostDominated` | include/BasicBlock.H:249-271 | the exact new pointers, flags and maps of one visit, for any tree of pointers and any maps |
| `DescendantRows.VisitedValid` | include/BasicBlock.H:249-271 | if maps count only blocks farther from the return block than their own, a visit leaves the pointers a tree, whatever else the maps hold and whichever block the climb finds |
| `DescendantRows.VisitedByRank` | include/BasicBlock.H:249-271 | and the maps it leaves again count only blocks farther away |
| `KeyedPass.KeyedTidy` | include/RoutineGraph.H:399-422 | in every state of every run of the code, on every graph: the pointers form a tree, maps count only blocks farther away, no block is queued twice or again once done, the attached blocks are those queued and done and are those that some visited edge leads from, and the return block can be reached from all of them |
| `KeyedPass.GoesOn` | include/RoutineGraph.H:399-422 | on every graph the pass can go on from every state in which something is left to visit or queued |
| `KeyedPass.AttachedIffReachesReturn` | include/RoutineGraph.H:403-420 | on every graph, whatever the lookups find: at the end a block other than the return block has a parent if and only if the return block can be reached from it |
| `KeyedPass.StepsDecrease` | include/RoutineGraph.H:403-420 | on every graph, including loops and self-loops, every step of the code takes a block never taken before or visits one more predecessor |
| `KeyedPass.QueuedAtMostOnce` | include/RoutineGraph.H:407-408 | on every graph no block enters the queue twice in any run of the code |
| `KeyedPass.KeyedFollows` | include/RoutineGraph.H:399-422 | if no block precedes three blocks from which the return block can be reached, in every state of every run of the code a tree ancestor is reached by a path avoiding higher ancestors, a block that is no ancestor can be avoided on the way to the return block, and the maps are right about all blocks not looked up yet |
| `KeyedPass.KeyedIsRun` | include/RoutineGraph.H:399-422 | then every run of the code with its maps is one in which every lookup finds the lowest common ancestor |
| `KeyedPass.KeyedAncestors` | include/RoutineGraph.H:399-422 | then in every state of every run of the code each true strict post-dominator of an attached block is a tree ancestor of it |
| `KeyedPass.RowsFollowTree` | include/BasicBlock.H:207-339 | then in every state of every run each map counts exactly the strict tree descendants among the blocks visited at most once |
| `KeyedPass.AskedAtEnd` | include/RoutineGraph.H:399-422 | the blocks visited more than once in a finished run are those that precede two blocks from which the return block can be reached |
| `SuccessorLimits.PostDominatorIsLost` | include/RoutineGraph.H:399-422 | a graph of twelve blocks, one of them preceding three others, and a run of the code on it after which a true strict post-dominator is no tree ancestor |
| `SuccessorLimits.TwoSuccessorsIff` | include/RoutineGraph.H:399-422 | the code keeps all post-dominators above the blocks they post-dominate, on all graphs whose blocks precede at most k blocks that lead to the return block and in all states of all runs, if and only if k is at most two |
| `PostDominanceLimits.MapsRightIff` | include/BasicBlock.H:207-339 | the maps of all blocks are right in all states of all runs on all graphs whose blocks precede at most k such blocks if and only if k is at most one; for two, a NULL entry erases a block from its own parent's map |
| `PostDominanceLimits.SinglePassIsNotExact` | include/RoutineGraph.H:399-422 | a graph and a run after which a tree ancestor is no post-dominator |
| `PassExactness.ExactIffStable` | include/RoutineGraph.H:399-422 | if no block precedes three such blocks, the ancestors a finished run has computed are exactly the strict post-dominators if and only if one more visit of every edge would change no parent |
| `PassExactness.AncestorsOnShortestPaths` | include/RoutineGraph.H:399-422 | then in every state of every run of the code the ancestors of a block lie on all shortest paths to the return block of the blocks it was visited from, and of the block itself once it was taken from the queue |
| `PassExactness.DecidedIsExact` | include/RoutineGraph.H:399-422 | a condition on the graph alone under which every finished run of the code, in any visiting order, is exact: a block on all shortest paths of all successors of another, and post-dominated by all its post-dominators, post-dominates it |
| `UndecidedExact.UndecidedYetExact` | include/RoutineGraph.H:399-422 | the condition is not necessary: a graph of seven blocks does not meet it, and every finished run on it is exact |
| `PassExactness.LayeredIsDecided` | include/RoutineGraph.H:399-422 | a graph whose edges all lead one step nearer to the return block meets that condition |
| `VisitOrders.ExactIffGentle` | include/RoutineGraph.H:399-422 | a finished run of the code is exact if and only if no visit of it, in the subgraph of the edges visited so far, took a post-dominator from a block that the visited one does not post-dominate |
| `VisitOrders.AllExactIff` | include/RoutineGraph.H:399-422 | the exact condition on the graph, without trees and maps: all runs of the code are exact if and only if no visit does so in any order in which the queue lets the edges be visited |
| `PostDominanceLimits.MissIsUndecided` | include/RoutineGraph.H:399-422 | the graph of the run that is not exact does not meet that condition |
| `LimitRoutine.RoutineIsNotExact` | include/RoutineGraph.H:54-78 | six instructions whose predecessor graph is the one on which a run is not exact, neither in its tree nor in its maps |
| `BlockSuccessors.AtMostTwo` | include/RoutineGraph.H:263-381 | in the predecessor graph of every routine a block precedes at most two blocks that lead to the return block: it ends once, and no branch leads to more than two |
| `PostDominanceTree.VisitPredecessor` | include/RoutineGraph.H:404-412 | one round of the loop performs a visit of the run on the heap, in pointers and in maps |
| `PostDominanceTree.VisitPredecessors` | include/RoutineGraph.H:401-414 | the loop visits every predecessor once, whatever the order, and performs a run of the state machine |
| `PostDominanceTree.BuildPostDominanceTree` | include/RoutineGraph.H:399-422 | on every graph the recursion terminates, and pointers, flags and maps end as those of a finished run |
| `Routine.TargetingIsTargeted` | include/RoutineGraph.H:98-162 | an address has a non-empty entry in the targets map exactly when some instruction branches, calls past or falls through to it |
| `RoutineGraphs.RoutineGraph.Mapper` | include/RoutineGraph.H:98-162 | records the targets and flags of one instruction in both maps, and changes no other entry |
| `RoutineGraphs.RoutineGraph.MapAll` | include/RoutineGraph.H:60-66 | after the first pass both maps hold exactly what the instructions say |
| `BranchRules.MapsHold` | include/RoutineGraph.H:98-162 | in the instruction's own fields: which targets, fall-throughs and flags the two maps hold for it after the first pass |
| `BranchRules.FlagsHold` | include/RoutineGraph.H:98-162 | flag 1 is recorded exactly for a direct call, 2 for a return, 4 for an indirect call and 5 for an indirect branch |
| `BlockScan.StepKeeps` | include/RoutineGraph.H:182-251 | every turn of the second pass keeps the block structure, the addresses mapped so far, and the edges those that the instructions so far call for |
| `BlockScan.StepNeverRemaps` | include/RoutineGraph.H:182-251 | an instruction address, once mapped, is never mapped to another block |
| `BlockScan.EveryInstructionMapped` | include/RoutineGraph.H:164-261 | every instruction is mapped to a block, and two share one exactly when no block starts between them |
| `BlockScan.TargetsStartBlocks` | include/RoutineGraph.H:214-222 | a recorded branch target is the first instruction of its block |
| `BlockScan.BranchesEndBlocks` | include/RoutineGraph.H:197-240 | every branch behind the routine's first instruction is the last instruction of its block |
| `BlockScan.FirstEndsBlockIff` | include/RoutineGraph.H:164-182 | the first instruction is never looked at as a branch: it ends its block if and only if the second one is a branch target |
| `BlockScan.EdgesExactly` | include/RoutineGraph.H:214-381 | the predecessor edges the scan finds are exactly those along which an instruction behind the first one leads: by falling from an open block into a branch target, or by branching |
| `BranchRules.BlocksBegin` | include/RoutineGraph.H:164-261 | in the instructions' own fields: a block begins at the first instruction, behind every branch, call and return but the first instruction, and at every direct target and fall-through of a branch or call; every other instruction is mapped to the block of the one before it |
| `BranchRules.BlockBounds` | include/RoutineGraph.H:164-261 | a block's starting and ending address are those of its first and last instruction |
| `BranchRules.EdgesInFields` | include/RoutineGraph.H:164-381 | the edges of the finished scan, each by the instruction it stems from, in the instructions' own fields |
| `BranchRules.EdgesOfBranch` | include/RoutineGraph.H:263-381 | all edges out of a block that a branch ends, of any mixture of kinds: the least entry decides, a second target is the next one, and a sole target that is the block's own start adds the instruction behind it |
| `BranchRules.EdgesOfFall` | include/RoutineGraph.H:214-222 | a block that runs into a branch target leads there and nowhere else |
| `BranchRules.EdgesByKind` | include/RoutineGraph.H:263-381 | a call, direct or not, leads to the instruction behind it only, a return to the return block only, an indirect branch nowhere, and a direct branch to its target and its fall-through, or behind itself if its only target is the start of its own block |
| `BlockScan.GraphWellFormed` | include/RoutineGraph.H:263-381 | the return block precedes no block and every predecessor is a block of the routine, as the pass needs |
| `RoutineGraphs.RoutineGraph.GetBasicBlockAt` | include/RoutineGraph.H:383-396 | returns the block mapped at the address, creating it if there is none, and replaces no block |
| `RoutineGraphs.RoutineGraph.BranchIns` | include/RoutineGraph.H:263-381 | ends the block and adds the predecessor edges of each kind of branch, as the specification of the scan says |
| `RoutineGraphs.RoutineGraph.ScanInstruction` | include/RoutineGraph.H:184-250 | one turn of the loop on the heap is one turn of the scan |
| `RoutineGraphs.RoutineGraph.BlockBuilder` | include/RoutineGraph.H:164-261 | the heap of blocks, address map and predecessor sets is the one the scan specifies |
| `GraphHandover.ReadyForPass` | include/RoutineGraph.H:164-261 | the finished blocks are a legal start for the post-dominance pass |
| `RoutineGraphs.RoutineGraph.constructor` | include/RoutineGraph.H:54-78 | for every instruction sequence the three passes leave a complete graph: blocks and edges of the scan, and the pointers and maps of a finished run |
| `RoutineGraphs.RoutineGraph.InstructionPostDominators` | include/RoutineGraph.H:54-78 | in a built graph an instruction's block has a parent exactly when control can reach the return block; then each of its true strict post-dominators is above it in the tree, and if the block precedes fewer than two blocks that lead there, exactly the blocks above it count it in their maps |
| `RoutineGraphs.RoutineGraph.DecidedTree` | include/RoutineGraph.H:54-78 | in a built graph of a routine whose predecessor graph meets the condition, the blocks above a block are exactly its strict post-dominators |
| `ControlPlacement.PlaceControls` | dytan.cpp:815-851 | exactly the conditional branches whose block has a parent are pushed, each listed under the start of that parent and under no other address |
| `ControlPlacement.PlacedIff` | dytan.cpp:815-851 | a branch is listed under an address exactly if it is conditional and its block's PostDominator is a block that starts there |
| `ControlPlacement.PopHasInstructionIff` | dytan.cpp:853-873 | a pushed branch has an instruction at which it is popped if and only if its block's parent is not the return block |
| `ControlPlacement.PopOnEveryPath` | dytan.cpp:815-873 | if one more visit of every edge would change no parent, every path from a pushed branch's block to the return block passes the place of its pop |
| `ControlPlacement.DecidedPopOnEveryPath` | dytan.cpp:815-873 | in a routine whose predecessor graph meets the condition, every path from a pushed branch's block to the return block passes the place of its pop |
| `ControlWalk.PopLeaves` | dytan.cpp:754-772 | a pop of a set of branches in rising order leaves pending exactly those not listed and those behind a listed one that is not pending |
| `ControlWalk.WaitingIff` | dytan.cpp:691-773 | a branch is pending after any number of blocks of a walk if and only if it was pending at the start or pushed on the way, and each pop since that lists it stopped before it |
| `ControlWalk.WalkedWaits` | dytan.cpp:691-773 | when a walk through a routine is run on taint states, from any control entries and with any other events between its pops and pushes, pops of other routines among them, the control entries of the routine's branches after each block are exactly these |
| `ControlWalk.MeetsItsPop` | dytan.cpp:815-873 | in a built routine with an exact tree a walk to the return block comes, behind every push, to the block at which it is popped |
| `ControlWalk.CleanIffApart` | dytan.cpp:691-873 | in a built routine with an exact tree no walk to the return block, whichever of its branches find tainted flags, leaves a branch pending that is popped somewhere, if and only if no two branches are popped at the same place |
| `PackedBits.SubsetIffWordsAbsorb` | bitset.cpp:194-203 | for every width, or-ing a set into another changes no word exactly when its marks are among the other's |
| `PackedBits.EqualIffSameMarks` | bitset.cpp:181-192 | packed word arrays are equal exactly when they hold the same marks |
| `PackedBits.EmptyIffZero` | bitset.cpp:205-212 | all words are zero exactly when no mark is held |
| `Bitsets.Bitset.Init` | bitset.cpp:62-74 | an empty set of the given width with clean padding |
| `Bitsets.Bitset.Copy` | bitset.cpp:76-82 | the same width and marks, in storage of its own |
| `Bitsets.Bitset.Reset` | bitset.cpp:84-86 | empties the set |
| `Bitsets.Bitset.ClearBit` | bitset.cpp:97-101 | removes one mark and no other, padding stays clean |
| `Bitsets.Bitset.SetBit` | bitset.cpp:103-107 | adds one mark and no other, padding stays clean |
| `Bitsets.Bitset.SetAll` | bitset.cpp:109-113 | takes over the source's marks; a wider set keeps what lies in words the source does not have |
| `Bitsets.Bitset.TestBit` | bitset.cpp:115-119 | decides membership |
| `Bitsets.Bitset.ToggleBit` | bitset.cpp:121-130 | removes the mark if it was there and adds it if not |
| `Bitsets.Bitset.Union` | bitset.cpp:132-139 | union in place, also with itself |
| `Bitsets.Bitset.Intersection` | bitset.cpp:154-161 | intersection in place |
| `Bitsets.Bitset.Difference` | bitset.cpp:163-170 | difference in place |
| `Bitsets.Bitset.SymmetricDifference` | bitset.cpp:172-179 | symmetric difference in place |
| `Bitsets.Bitset.Equal` | bitset.cpp:181-192 | decides equality of width and marks |
| `Bitsets.Bitset.IsSubset` | bitset.cpp:194-203 | decides whether the second argument's marks are among the first's (the code, not the name) |
| `Bitsets.Bitset.IsEmpty` | bitset.cpp:205-212 | decides emptiness |
| `Bitsets.Bitset.Population` | bitset.cpp:214-223 | counts the marks |
| `TaintFlow.StepCarries` | dytan.cpp:167-773 | one event: a mark is at a location afterwards exactly when it is introduced there or carried there from a location that held it |
| `TaintFlow.TaintedIffLed` | dytan.cpp:167-773 | after any run a mark is at a location if and only if a chain of writes without an intervening overwrite leads there from where the mark appeared; writes also read all pending control entries |
| `TaintFlow.PointerRegistersStayClean` | dytan.cpp:299-300 | no run ever gives the stack or frame pointer an entry |
| `TaintIndependence.StepAgrees` | dytan.cpp:691-773 | one event keeps two states in agreement on a mark, although a push branches on whether the flags are tainted at all |
| `TaintIndependence.RunsAgree` | dytan.cpp:691-773 | whole runs from states that agree on a mark end in states that agree on it, if every pop names one branch |
| `TaintIndependence.RestrictionCommutes` | dytan.cpp:691-773 | running and then keeping one mark gives the same taints as running from the start state restricted to that mark |
| `TaintIndependence.PopAgreesIff` | dytan.cpp:754-772 | a pop keeps marks apart in all states if and only if it can remove at most one entry |
| `TaintIndependence.LongPopInterferes` | dytan.cpp:754-772 | two states that agree on a mark until a pop of a longer list removes it from one of them |
| `Taint.PopRemovesPendingPrefix` | dytan.cpp:754-772 | a pop removes exactly the listed branches before the first one not pending at its turn |
| `Taint.PopRemovesAllPending` | dytan.cpp:754-772 | when all listed branches are pending, all are removed |
| `Taint.PopClearsAllIff` | dytan.cpp:754-772 | a pop leaves none of its branches pending if and only if no pending one is listed behind one that is not |
| `Taint.StepControl` | dytan.cpp:691-773 | no event makes a control entry empty or smaller, and only a pop that lists its branch removes it |
| `Taint.ControlOnlyGrows` | dytan.cpp:691-773 | in every run control entries are non-empty and grow until a pop lists their branch |
| `TagIndex.ToIntIs` | dytan.cpp:602-625 | an address difference is cut down to the int that differs from it by a multiple of 2^32 |
| `TagIndex.TaggedKept` | dytan.cpp:602-625 | tagging keeps at most one uncleared and at most one later cleared record per address |
| `TagIndex.TaggedRecords` | dytan.cpp:602-625 | tagging records an unrecorded address of the range if and only if no recorded address differs from it by a multiple of 2^32, and clears nothing |
| `TagIndex.ClearingDecreases` | dytan.cpp:631-649 | the clearing walk terminates although it appends to its list: twice the uncleared records ahead plus the cleared ones decreases |
| `TagIndex.ClearedRecords` | dytan.cpp:626-650 | clearing marks exactly the recorded addresses of the range as cleared, and keeps the list's shape |
| `TagLists.AppendTagged` | dytan.cpp:602-625 | the linked list ends up holding the tagged records and a fresh sentinel tail |
| `TagLists.AppendCleared` | dytan.cpp:626-650 | the walk over the growing linked list terminates with the cleared records and a sentinel tail |
| `TagLists.TagMemory.Update` | dytan.cpp:592-650 | one memory write updates every mark's list by tagging or clearing, and no node is ever in two lists |
| `TagRuns.IndexKept` | dytan.cpp:592-650 | in every run, with any sources and clears, every list keeps its shape |
| `TagRuns.HoldsIffGiven` | dytan.cpp:566-660 | a byte holds a mark that it did not hold at first if and only if a write, a source or a clear gave it the mark and none of them has taken it since |
| `TagRuns.ReportedHoldsIff` | dytan.cpp:592-660 | in every run an address recorded as not cleared holds the mark if and only if no source and no clear, which leave the lists alone, has taken it without its being given again |
| `TagRuns.ReportedHoldsMark` | dytan.cpp:592-660 | in every run an address recorded as not cleared holds the mark, if no source and no clear wrote to that address |
| `TagRuns.RecordedIffFirst` | dytan.cpp:602-625 | in every run an address is recorded if and only if it was the first of its residue class modulo 2^32 to be written with the mark |
| `TagRuns.AllRecordedIffNoAliases` | dytan.cpp:592-660 | in every run every byte that holds the mark since a write is recorded throughout if and only if no two addresses written with it differ by a multiple of 2^32 |
| `TagRuns.HeldByWriteHolds` | dytan.cpp:566-660 | these are all bytes that hold the mark, among those that no source and no clear wrote to |
| `TagRuns.ReportsIff` | dytan.cpp:592-650 | in every run without aliases the list reports exactly the addresses that were written with the mark and not without it after that |
| `TagRuns.NearMeansNoAliases` | dytan.cpp:606-609 | addresses whose distances fit in int meet that condition |
| `TagRuns.FarAddressIsLost` | dytan.cpp:606-609 | a run of two writes 2^32 apart whose second address is never recorded |
| `TagRuns.ReportRightIff` | dytan.cpp:592-660 | in every run without aliases the list is right about an address if and only if it is neither one that holds the mark and was never written with it or was written without it after that, nor one whose mark a source or a clear has taken |
| `TagRuns.SparedRightIff` | dytan.cpp:592-660 | for an address that no source and no clear wrote to: if and only if it is not one that holds the mark and was at some time written without it after being written with it |
| `Cells.Overwrite` | dytan.cpp:455-460 | overwriting one bitset in place changes the taint of its own location and of no other |
| `Cells.Bind` | dytan.cpp:458-460 | binding a location to a copy keeps all bitsets apart and of one width |
| `TaintMaps.Maps.AssignReg` | dytan.cpp:455-460 | in place or by a copy, exactly one register's taint changes |
| `TaintMaps.Maps.AssignMem` | dytan.cpp:653-660 | in place or by a copy, exactly one byte's taint changes |
| `TaintMaps.Maps.ControlTaint` | dytan.cpp:314-318 | the union of all pending control entries, in a bitset shared with no location |
| `TaintMaps.Maps.SourceTaint` | dytan.cpp:302-319 | the union of the argument sets and all pending control entries, in a bitset shared with no location |
| `TaintMaps.Maps.SetSubregisters` | dytan.cpp:328-452 | together with the write of the register itself, exactly the register and its listed subregisters are written |
| `Engines.Engine.constructor` | dytan.cpp:1156-1166 | a new engine: empty maps, scratch bitsets of one width apart from each other, no history |
| `Engines.Engine.ClearTaintSet` | dytan.cpp:167-170 | empties one scratch set; bitsets stay apart |
| `Engines.Engine.TaintForRegister` | dytan.cpp:173-207 | the scratch set holds the register's taint whatever it held before |
| `Engines.Engine.TaintForMemory` | dytan.cpp:209-287 | the scratch set holds the union of the range's taint whatever it held before |
| `Engines.Engine.SetTaintForRegister` | dytan.cpp:293-488 | the heap makes the register write of the event semantics: all widths agree, no other location changes |
| `Engines.Engine.ClearTaintForRegister` | dytan.cpp:491-523 | a register with an entry is left with control taint, one without stays without |
| `Engines.Engine.ClearTaintForMemory` | dytan.cpp:526-561 | bytes of the range with an entry are left with control taint |
| `Engines.Engine.SetTaintForMemory` | dytan.cpp:566-687 | the heap makes the memory write of the event semantics, and every tag list the matching update |
| `Engines.Engine.SetNewTaintForMemory` | dytan.cpp:923-962 | every byte of the range gets a bitset of its own with the mark |
| `Engines.Engine.PushControl` | dytan.cpp:691-711 | tainted flags are joined into the branch's entry, created if absent; clean flags change nothing |
| `Engines.Engine.PopControl` | dytan.cpp:738-773 | removes entries as the event semantics says, and stops at the first one not pending |
| `Engines.IndexOfEngine` | dytan.cpp:566-660 | in every reachable engine: list shape, which addresses are recorded, and when a reported address holds the mark |
| `Engines.ReportOfEngine` | dytan.cpp:566-660 | in every reachable engine without aliases: exactly when a list is right about an address |
| `Engines.CopyIsReported` | dytan.cpp:566-660 | a source taints one byte and an instruction copies it to another: the copy is reported and holds the mark; the source's byte holds it and is not recorded, as sources leave the lists alone |
| `Engines.OverwrittenIsReported` | dytan.cpp:923-962 | when a source then gives the copy's byte another mark, it is still reported for the one it has lost |
| `Engines.ControlOfEngine` | dytan.cpp:691-773 | in every reachable engine control entries are non-empty and the pointer registers clean |
| `NamedEffects.RegisterWrite` | dytan.cpp:293-488 | a register write reaches the register and its named parts, none for ESP and EBP, and nothing else |
| `NamedEffects.MemoryWrite` | dytan.cpp:526-687 | the three writes to memory reach exactly the bytes from the start address on |
| `NamedEffects.OperandHolds` | dytan.cpp:173-287 | an operand holds what its register, or one of its bytes, holds; an immediate holds nothing |
| `NamedEffects.ControlHolds` | dytan.cpp:314-318 | pending control taint is what some branch's entry holds |
| `NamedEffects.PushReadsFlags` | dytan.cpp:691-711 | a push joins the taint of RFLAGS into the branch's entry, and changes the state if and only if RFLAGS is tainted and the entry is missing or lacks one of its marks |
| `Plans.ActsSimultaneously` | instrument_functions.c:181-309 | any plan of loads into scratch sets followed by stores acts as a simultaneous assignment, from any residue and after any number of its calls |
| `Plans.ControlKept` | instrument_functions.c:181-309 | handlers leave control taint alone |
| `Instructions.AddTaint` | instrument_functions.c:181-309 | ADD: destination and flags get destination, source and control taint of the pre-state; all else keeps its taint |
| `Instructions.AdcTaint` | instrument_functions.c:413-522 | ADC: the same with the flags among the sources |
| `Instructions.XorSelfTaint` | instrument_functions.c:585-632 | XOR of a register with itself leaves it control taint only, and the flags get what it held |
| `Instructions.XorTaint` | instrument_functions.c:594-632 | XOR of different operands: destination and flags get both operands' taint and control taint |
| `Instructions.XchgTaint` | instrument_functions.c:994-1085 | XCHG: each operand gets what the other held; on an overlap the second write stays |
| `Instructions.XchgSwaps` | instrument_functions.c:994-1085 | XCHG swaps the taints of operands that do not overlap, up to control taint |
| `Instructions.XchgTwice` | instrument_functions.c:994-1085 | XCHG twice restores both taints up to control taint |
| `Instructions.XaddTaint` | instrument_functions.c:2076-2155 | XADD: destination and flags get the union, the source register what the destination held |
| `Instructions.MulTaint` | instrument_functions.c:741-813 | MUL: accumulator, data register and flags of the operand width get the union |
| `Instructions.DivTaint` | instrument_functions.c:2162-2240 | DIV: accumulator and data register get the union, the flags are cleared to control taint if they have an entry |
| `NamedEffects.Mul32` | instrument_functions.c:741-813 | 32-bit MUL, every register named: EAX, EDX, their parts and EFLAGS get the taint of EAX, operand and pending control; all else keeps its taint |
| `NamedEffects.Mul64` | instrument_functions.c:741-813 | 64-bit MUL: the same of RAX, RDX and RFLAGS |
| `NamedEffects.Div32` | instrument_functions.c:2162-2240 | 32-bit DIV, every register named: EAX, EDX and their parts get the taint of EAX, EDX, operand and pending control; EFLAGS are cleared to pending control |
| `NamedEffects.Div64` | instrument_functions.c:2162-2240 | 64-bit DIV: the same of RAX, RDX and RFLAGS |
| `NamedEffects.PushBehind64` | dytan.cpp:691-711 | the push behind a 64-bit MUL gives the branch the taint of RAX, operand and pending control; behind a 64-bit DIV pending control at most |
| `NamedEffects.PushBehind32` | dytan.cpp:691-711 | a 32-bit MUL or DIV makes no difference to the push behind it, since it writes EFLAGS and a push reads RFLAGS |
| `Instructions.MovTaint` | instrument_functions.c:1087-1156 | MOV, PUSH and POP: the destination gets the source's taint and control taint |
| `Instructions.LeaTaint` | instrument_functions.c:1257-1276 | LEA: the destination gets the taint of base and index |
| `Instructions.PushPop` | instrument_functions.c:311-401 | pushing a register and popping the same bytes into another, with nothing writing them between, moves its taint joined with the control taint of both moments; other memory keeps its taint |
| `NamedEffects.PushTaint` | instrument_functions.c:311-347 | PUSH of a register, a range or an immediate gives exactly the bytes on top of the stack its taint and pending control |
| `NamedEffects.PopTaint` | instrument_functions.c:349-401 | POP gives exactly the register with its parts, or the bytes of the range, the taint of the bytes on top of the stack and pending control |
| `Handlers.InstrumentADD` | instrument_functions.c:181-309 | inserts the calls of the plan in order, up to the first whose address cannot be computed |
| `Handlers.InstrumentADC` | instrument_functions.c:413-522 | likewise for ADC |
| `Handlers.InstrumentXOR` | instrument_functions.c:534-632 | likewise for XOR, with the test for equal registers |
| `Handlers.InstrumentXCHG` | instrument_functions.c:994-1085 | likewise for XCHG |
| `Handlers.InstrumentXADD` | instrument_functions.c:2076-2155 | likewise for XADD |
| `Handlers.InstrumentMUL` | instrument_functions.c:741-813 | likewise for MUL at both widths |
| `Handlers.InstrumentDIV` | instrument_functions.c:2162-2240 | likewise for DIV at both widths |
| `Handlers.WidthCalls` | instrument_functions.c:741-813 | the calls of MUL and, at lines 2162-2240, of DIV for each width, every register and scratch set named |
| `Handlers.InstrumentPUSH` | instrument_functions.c:311-347 | likewise for PUSH |
| `Handlers.InstrumentPOP` | instrument_functions.c:349-401 | likewise for POP |
| `Handlers.InstrumentMOV` | instrument_functions.c:1087-1156 | likewise for MOV |
| `Handlers.InstrumentLEA` | instrument_functions.c:1257-1276 | likewise for LEA |
| `Handlers.Execute` | instrument_functions.c:181-309 | running inserted calls in order makes the heap engine's state the run of those events |
| `Effects.InsertedReaches` | instrument_functions.c:181-309 | how many stores of a plan are reached: none if an operand in memory cannot be read, else those in front of the first that cannot be written |
| `Effects.InsertedAssign` | instrument_functions.c:181-309 | from any state, whatever early return the handler took, the inserted calls leave every register, byte and control entry with what the stores that are reached assign to it from that state |
| `Effects.ExecuteInserted` | instrument_functions.c:181-309 | the same of the heap engine that runs the calls |
| `Effects.RunADD` | instrument_functions.c:181-309 | ADD on the engine: both operands' taint and control taint in destination and flags, or no change at all if an operand cannot be addressed |
| `Effects.RunXORSelf` | instrument_functions.c:534-632 | XOR of a register with itself on the engine: control taint in the register, what it held in the flags, whatever can be addressed |
| `Effects.RunXCHG` | instrument_functions.c:994-1085 | XCHG on the engine: an exchange up to control taint, none if an operand cannot be read or the first not written, and half of one if only the second cannot be written |
| `Effects.RunPUSH` | instrument_functions.c:311-347 | PUSH on the engine: the operand's taint and pending control on top of the stack, or nothing if the operand cannot be read or the stack not written |
| `Effects.RunPOP` | instrument_functions.c:349-401 | POP on the engine, into registers and memory |
| `Effects.RunMUL` | instrument_functions.c:741-813 | MUL on the engine at both widths, every register named |
| `Effects.RunDIV` | instrument_functions.c:2162-2240 | DIV on the engine at both widths, every register named |
| `TaintGenerators.TaintGenerator.NextTaintMark` | include/taint_generator.h:60-63 | advances the counter by one and returns its machine remainder |
| `TaintGenerators.MarkIs` | include/taint_generator.h:60-63 | the k-th mark is the remainder of counter + k by max, or the negated remainder of its magnitude while that is negative |
| `TaintGenerators.MarkIsProperIff` | include/taint_generator.h:60-63 | the k-th mark lies in 0 to max - 1 if and only if the counter is not negative by then or is a multiple of max |
| `TaintGenerators.SameMarkIff` | include/taint_generator.h:60-63 | two marks are equal exactly when their numbers differ by a multiple of max |
| `TaintGenerators.WindowIsDistinct` | include/taint_generator.h:60-63 | any max consecutive marks are pairwise distinct |
| `TaintGenerators.WindowCovers` | include/taint_generator.h:60-63 | any max consecutive marks cover 0 to max - 1 |
| `TaintSources.ReadPerByte` | taint_source_path.cpp:116-181 | byte i of a read gets the (i+1)-th mark as its only taint, and nothing else changes |
| `TaintSources.ReadPerRead` | taint_source_path.cpp:183-227 | all bytes of a read get one new mark as their only taint, and nothing else changes |
| `TaintSources.PerByteMarks` | taint_source_path.cpp:161-171 | byte i gets (counter + i + 1) mod max, and a single mark is (counter + 1) mod max |
| `TaintSources.PerReadMarks` | taint_source_path.cpp:205-220 | all bytes of a read get the one mark |
| `TaintSources.StampedMeans` | taint_source_path.cpp:116-227 | byte i from the start address on holds its mark alone or what it held, and no other location changes |
| `TaintSources.PerByteDistinctIff` | taint_source_path.cpp:161-171 | a read of n bytes per byte gives n distinct taints if and only if n is at most max |
| `TaintSources.SetNewTaint` | dytan.cpp:923-962 | a caller's mark or, for -1, the generator's next; refused exactly if the generator is missing or no bitset can hold the caller's mark, and then nothing changes |
| `OffsetSources.NextOnTrack` | taint_source_path.cpp:272-294 | each round of the scan keeps the word index, the drawn marks and the stamped bytes in step |
| `OffsetSources.ByteOfWord` | taint_source_path.cpp:272-294 | a byte whose offset lies from a word's first to its last offset gets (counter + i + 1) mod max for word i, and every other byte none |
| `OffsetSources.OffsetReader.Read` | taint_source_path.cpp:235-304 | fails, at its first byte and before it stamps anything, if and only if it reads something and begins inside the first word behind its start; a read that begins no later than the first word gives every byte of word i the generator's mark number i + 1 and leaves bytes outside words alone; one that begins behind the first word stamps nothing |
| `OffsetSources.EmptyTableHasOneWord` | taint_source_path.cpp:274-280 | a table without words is read as the one word [0, 0], so a first read taints its first byte |

## Left out

- BlockScan.EdgesExactly: covers predecessor edges only. Successor sets, the blocks that stand for called routines and indirect targets, and the names of called routines are not modelled; the post-dominance pass does not read them.
- RoutineGraphs.RoutineGraph.BlockBuilder: does not model isEntry, visited and body, which nothing in the core reads, nor which blocks allBlocks holds beyond those of the routine.
- BasicBlocks.BasicBlock.AddPredecessorAsPostDominated: does not model immediatelyPostDominated, which the code erases on the wrong block and which nothing reads. It requires the pointers to form a tree before the visit, as they do in every run.
- PassExactness.DecidedIsExact: the condition is sufficient and not necessary, as UndecidedYetExact shows; the exact conditions are those of ExactIffStable, on the finished tree, and of AllExactIff, on the graph and its visiting orders.
- ControlWalk.WalkedWaits: pops of the routine's own branches between two stops of a walk, which a recursive call of the routine makes, are not covered.
- PostDominanceTree.BuildPostDominanceTree: the recursion's stack depth is not bounded by the model.
- ControlPlacement.PlaceControls: models where calls are placed, not the order of calls that other instrumentation places before the same instruction.
- OffsetSources.OffsetReader.Read: requires fewer than 256 words, since the code reads the table behind the last word, and ends in a failed result where the code fails the assertion that a bit to set lies in its set.
- Engines.Engine.SetTaintForMemory: sizes are limited to those that fit in int, as the flag array of the code is indexed by one; the sizes of instruction operands always do.
- TaintGenerators.TaintGenerator.NextTaintMark: requires the counter to stay below the largest int, beyond which the code's behaviour is undefined.
- TaintSources.SetNewTaint: a refused call stands for a failed assertion or an abort, after which the program does not go on.
- TaintMaps.Maps.TaintForMemory: models builds without IMPLICIT, in which base and index registers are not read.
- The dominance half of BasicBlock and RoutineGraph: deprecated and never called.
- dump_taints: it compacts the tag lists by a test on the wrong node, and supports no clean claim.
- ConstantTaintGenerator and RandomSetTaintGenerator: one returns a constant, the other a random number.
- Instruction handlers other than those in the table: repetitions of the modelled shapes, empty bodies, or bodies that depart from their own comments.
- The opcode dispatch table, Pin and XED calls, process start-up, configuration parsing, tracing, logging and system call monitors.
- The network and function taint sources, and the Windows variants of the path source.
- Allocation failure and the freeing of bitsets.
