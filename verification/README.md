# Control flow, call graph, bit-fields and address ranges of the decompiler

The decompiler in `libsla/src` turns machine code into structured source. This project models the algorithms
at its core and proves what they compute:

- **Control-flow graph** (`block.cc`). Blocks are joined by edges that are stored twice, once in the
  out-list of the source and once in the in-list of the target, each half holding the slot of the other
  (`Flow`). On these tables run the depth-first search that labels edges and puts the blocks in reverse
  post-order (`Forest`, `RootOrder`, `EntryLists`, `SpanningTree`), Tarjan's test for irreducible edges (`Reducibility`,
  `Irreducible`), the loop around the two (`LoopStructure`), the Cooper-Harvey-Kennedy dominators
  (`Dominance`, `Dominators`), also below several roots (`EntryPoints`), the nearest common dominator
  (`CommonBlock`), the collapse of a set of blocks into one (`Quotient`, `Deduplication`, `MovedLabels`,
  `Identify`) and the encoding of a graph by its in-edges alone (`EdgeCodec`).
- **Structuring** (`blockaction.cc`). Loop bodies are found by worklists (`LoopBodies`); rules collapse
  sequences, conditions, loops, switches and gotos until the graph is one block (`Shapes`, `Structuring`,
  `CollapseRules`, `SequenceRules`, `GotoRules`, `SwitchRules`, `Collapse`).
- **Call graph** (`callgraph.cc`). Cycles are snipped by depth-first traces, and an iterator without any
  memory of its own visits callees before callers (`CallTrace`, `CallForest`, `Calls`).
- **Bit-fields** (`bitfield.cc`, `address.cc`). Ranges of bits are sets of positions under either byte order
  (`Bits`, `BitRanges`); a write of several bit-fields is recovered by tracing each field backwards through
  p-code operators (`Pcode`, `BitFields`, `Traces`, `InsertTransforms`) and written back by new operators
  (`InsertOps`); one comparison of a word becomes one comparison for each field (`CompareGroups`).
- **Actions** (`action.cc`). Analyses run in nested groups that stop at break points and resume: as
  functions on values (`Actions`), as runs described round by round (`Runs`), and on the action objects
  themselves (`Scheduler`).
- **Address ranges** (`address.cc`). A set of addresses is kept as a sorted list of disjoint ranges
  (`RangeLists`).

A block, an action, a function of the call graph and a variable of the p-code graph are each the position of
their row in a table; the classes `BlockGraph`, `CallGraph`, `CollapseStructure`, `LoopBody`, `ActionTree`,
`BitFieldInsertTransform`, `BitFieldPullTransform`, `RangeList` and `Decoder` hold the tables as fields that
their methods update in place, loop for loop. `Wrappers` has the one option type.

## Model

| member | source | states |
|---|---|---|
| Flow.BlockGraph.AddInEdge | libsla/src/block.cc:73-80 | A new edge gets the next slot on both sides, and every edge half still names the slot of its partner. |
| Flow.RemoveUndoesAdd | libsla/src/block.cc:73-155 | Removing the newest edge gives the graph back exactly as it was before the edge was added, parallel edges and self loops included. |
| Flow.BlockGraph.HalfDeleteInEdge | libsla/src/block.cc:100-112 | The loop that slides the later in-edges down, telling each partner, yields the list without the slot and decrements exactly the partners of the slid edges. |
| Flow.BlockGraph.RemoveInEdge | libsla/src/block.cc:130-141 | Both halves of one edge go and the pairing holds again, also for a self loop, whose two deletions act on the same block. |
| Flow.RemoveInAt | libsla/src/block.cc:130-141 | Slot by slot, both tables after the removal: only the two rows that held the edge get shorter, all other edges keep ends, labels and order, and reverse slots fall by one just where a slot before them went. |
| Flow.BlockGraph.RemoveOutEdge | libsla/src/block.cc:144-155 | The same from the out-side. |
| Flow.BlockGraph.ReplaceInEdge | libsla/src/block.cc:160-173 | The source of an edge is replaced in place: its in-slot and label stay, its out-half moves to the end of the new source's list, and the pairing holds. |
| Flow.BlockGraph.ReplaceOutEdge | libsla/src/block.cc:178-191 | The same for the target. |
| Flow.BlockGraph.ReplaceEdgesThru | libsla/src/block.cc:198-216 | An in-edge and an out-edge of a block become one edge past it; the pairing holds, also when either is a self loop or both are the same edge. |
| Flow.ReplaceThruAt | libsla/src/block.cc:198-216 | Slot by slot, the tables after a block is bypassed: nothing but its two deleted slots is gone. |
| Flow.BlockGraph.SwapEdges | libsla/src/block.cc:218-236 | The two ways out change places and both partners learn of it, also when they are parallel or loop back. |
| SpanningTree.ClearEdgeFlags | libsla/src/block.cc:966-978 | The labels of a mask are cleared on both halves of every edge of the listed blocks; no edge end moves. |
| SpanningTree.FindSpanningTree | libsla/src/block.cc:1009-1136 | For every closed graph, the empty one included, with any number of roots: the list is permuted so that a block's index is its position; each edge has exactly one of the labels tree, forward, cross, back, which tells the truth about the final forest; every edge but back edges leads to a larger index; the exception is never thrown; the entry block stays first exactly under the condition of `StaysFirst`; the list of entry points is the one of `EntryLists`. |
| EntryLists.WhichEntries | libsla/src/block.cc:1018-1133 | The entry points, by what leads to what alone: different blocks that together lead to every block. All blocks without in-edges are among them; any other is the first block, if all blocks have in-edges, or one that none of the entries to start with leads to. The first entry is the first block without in-edges, or the first block. If the entries to start with lead to every block, the list is just the blocks without in-edges in their order, or the first block. |
| EntryLists.OneEntryList | libsla/src/block.cc:1018-1133 | The edges and the order of the blocks determine the whole list. |
| SpanningTree.FirstBlock | libsla/src/block.cc:1009-1136 | After the last attempt, index 0 goes to the block that was first in the list if and only if it has no in-edges, or all blocks have some and those that lead to it can be reached from it. |
| RootOrder.LastComesFirst | libsla/src/block.cc:1046-1108 | Of the roots given to one attempt, the last one gets index 0 if and only if no other given root leads to it. |
| SpanningTree.FirstBlockMoves | libsla/src/block.cc:1006-1033 | Two consistent graphs whose first block does not stay first. |
| Forest.IntervalIsSubtree | libsla/src/block.cc:1071-1107 | The interval [visitcount, visitcount + numdesc) holds exactly the blocks below a block in the spanning tree. |
| Forest.SearchFinished | libsla/src/block.cc:1046-1108 | The invariant of every state of the search implies, once all blocks are entered and the stack is empty, the full description of the spanning forest. |
| Irreducible.FindIrreducible | libsla/src/block.cc:1147-1199 | No tree edge is flagged, so a rebuild is never asked for; each flagged edge enters a loop from outside the subtree of its head; the graph without the flagged edges is reducible (each back edge leads to a block on all walks from the roots to its source); none is flagged if and only if the graph itself is reducible; the count is the number flagged. |
| Reducibility.EntryFromOutside | libsla/src/block.cc:1172-1183 | One edge like the flagged ones already makes the graph irreducible. |
| Reducibility.SourceDecides | libsla/src/block.cc:1169-1188 | The test on the representative of an edge's source decides about the source itself: outside the subtree the edge is a forward or cross edge and a second way into the loop, inside the representative leads to a tail of the loop without passing its head. |
| Reducibility.BodiesMakeReducible | libsla/src/block.cc:1147-1199 | If every head has a set of blocks below it that holds its tails and is entered only through the head, the graph is reducible. |
| LoopStructure.StructureLoops | libsla/src/block.cc:2194-2215 | The loop ends after one pass; labels, flags and order are those of `FindSpanningTree` and `FindIrreducible`, no edge moved, all marks are clear, every edge without the loop label ascends, and the entry points are those of `EntryLists`. |
| LoopStructure.CalcLoop | libsla/src/block.cc:2104-2147 | On what structureLoops hands over, the search finds no cycle: no edge is changed and both marks are clear again. |
| LoopStructure.NoCycleWithoutLoopEdges | libsla/src/block.cc:2194-2215 | A walk along edges without the loop label strictly rises in index, so it never returns. |
| LoopStructure.StructureReset | libsla/src/funcdata_block.cc:705-714 | For any number of entry points, which are those of `EntryLists`, the two calls leave labels, order, irreducible flags and the links of `DominatorForest` together; with one entry the links are the dominator tree. |
| Dominators.CalcForwardDominator | libsla/src/block.cc:1954-2032 | Ends for any entry points. They have no link; the link of any other block is its immediate dominator over all paths, in the graph whose first block leads to all entry points. Edges and indices are as before, although a virtual root comes and goes. |
| Dominators.OneEntryForest | libsla/src/block.cc:1954-2032 | With one entry point, every link is the immediate dominator over all paths from it. |
| Dominators.LinkIsRight | libsla/src/block.cc:1954-2032 | With several entry points, a link is the immediate dominator over all paths from all of them if and only if some other block is on all those paths; if none is, the link leads to the first block. |
| EntryPoints.StandInIsRight | libsla/src/block.cc:2004-2012 | The reason, on paths: standing in for a common root, the first block changes just the dominators of blocks that have none. |
| Dominators.TwoRoots | libsla/src/block.cc:1970-1973 | Two roots that lead to one block: the link can only lead to the first, but a path avoids it. |
| Dominators.Intersect | libsla/src/block.cc:2004-2012 | The two fingers meet at the deepest block above both. |
| Dominance.MeetIsLower | libsla/src/block.cc:1995-2018 | Each change of a link, if it is not the first, leads strictly higher: the meet of the predecessors is above the old link. |
| Dominators.FixpointIsForest | libsla/src/block.cc:1988-2021 | A sweep that changes nothing leaves the immediate dominators. |
| CommonBlock.DominatesQuery | libsla/src/block.cc:386-394 | True if and only if the block is on the chain of links above the other. |
| CommonBlock.OverIsDominance | libsla/src/block.cc:386-394 | In that tree, which always rises in index, being on the chain of links is the same as lying on every path from the entry. |
| CommonBlock.FindCommonPair | libsla/src/block.cc:736-790 | The alternating climb finds the nearest block above both, or nothing if there is none, and every mark is as it was. |
| CommonBlock.CommonIsNearestDominator | libsla/src/block.cc:736-790 | In the tree left by calcForwardDominator for one entry, a block is the nearest above both if and only if it lies on every path to either and every block that does lies on every path to it. |
| CommonBlock.FindCommonSet | libsla/src/block.cc:796-826 | The highest first meeting with the chains already marked is the nearest block above all of the set, and every mark is as it was. |
| CommonBlock.CommonOfAllIsNearestDominator | libsla/src/block.cc:796-826 | The same for every block of a set. |
| Deduplication.Dedup | libsla/src/block.cc:525-539 | No block is at the end of two in-edges or two out-edges, no neighbour is lost or gained, the pairing holds and all marks are clear again. Each kept edge has in the row of the block the labels of all edges parallel to it, and on its other half those of the first: for every neighbour whose halves match before, they match afterwards if and only if no edge has a label the first lacks. |
| Deduplication.EliminateInDups | libsla/src/block.cc:446-472 | The same for the in-edges from one block; all other edges keep both labels and their order. |
| Deduplication.EliminateOutDups | libsla/src/block.cc:475-501 | The same for the out-edges to one block. |
| Deduplication.MergedAgree | libsla/src/block.cc:446-501 | For any number of parallel edges with matching halves, merging them leaves matching halves if and only if the first has the labels of all the others. |
| Deduplication.GotoOnOneHalfOfAnEdge | libsla/src/block.cc:446-472 | Two parallel edges of which the second is a goto: only the in-half of the kept edge says so. |
| Identify.SelfIdentify | libsla/src/block.cc:895-931 | The new block is the quotient: no edge joins a collapsed block to any other, the new block has exactly one edge to (from) each outside block that some collapsed block had one to (from), and all edges wholly inside or outside keep labels and order. Its edge from (to) an outside block has, on its own half, the labels of all edges from (to) that block into the set, and on the other half the label of the first of them. |
| MovedLabels.TakenLabel | libsla/src/block.cc:895-931 | In-edge by in-edge of the new block: a label is on it if and only if it was on some edge from that block into the set, and a single such edge keeps its label on both halves. |
| MovedLabels.TakenOutLabel | libsla/src/block.cc:895-931 | The same for its out-edges. |
| Identify.IdentifyInternal | libsla/src/block.cc:940-963 | The same, and exactly the collapsed blocks left the list, the others in their order. |
| EdgeCodec.EncodeBody | libsla/src/block.cc:1373-1399 | The stream is that of the graph: all heads, then for every block its in-edges in order. |
| EdgeCodec.Decoder.DecodeBody | libsla/src/block.cc:1401-1423 | Reading that stream restores every in-list and every out-list, slot for slot, with the labels cleared, in whatever order the blocks came; nothing of the stream is left over. |
| EdgeCodec.DecodeNextInEdge | libsla/src/block.cc:85-97 | One in-edge is appended and its other half written to the slot it names, the out-list padded as far as needed. |
| LoopBodies.LoopBody.FindBase | libsla/src/blockaction.cc:119-144 | The body is the head and exactly the blocks from which a tail is reached along non-goto edges without touching the head, each once and marked; its first part is head and tails. |
| LoopBodies.BaseFound | libsla/src/blockaction.cc:119-144 | A finished trace from head and tails lists exactly that set. |
| LoopBodies.LoopBody.ExtendToContainer | libsla/src/blockaction.cc:46-85 | Given the marked body of an inner loop, exactly the missing blocks of the loop around it are listed and marked. |
| LoopBodies.LoopBody.Extend | libsla/src/blockaction.cc:150-176 | The least list that contains the body and every block, but the exit, all of whose in-edges are non-goto edges from the list; visit counts are back to zero. |
| Structuring.CollapseStructure.FromCopy | libsla/src/blockaction.cc:1877-1893 | A copy of any consistent graph is a valid start for the rules. |
| Structuring.CollapseStructure.NewSuper | libsla/src/block.cc:880-963 | For blocks with a single entry: the quotient by them, with self loops labelled as loop edges added until it has the forced number of ways out; labels of the other edges as `MovedLabels` says; how the block was made is recorded. |
| SequenceRules.RuleBlockCat | libsla/src/blockaction.cc:1284-1314 | Applies if and only if the block starts a chain; the longest chain becomes one block, entered only through its first, with the ways out of its last one, in order; the measure gets smaller. |
| SequenceRules.RuleBlockOr | libsla/src/blockaction.cc:1321-1371 | Applies if and only if two conditions share a clause; they become one condition whose false way out leads where the second one's did. |
| CollapseRules.RuleBlockProperIf | libsla/src/blockaction.cc:1378-1409 | Applies if and only if one way out leads to a block that only returns to the other; the two become one block, entered from outside only through the condition, whose one way out leads where both did. |
| CollapseRules.RuleBlockIfElse | libsla/src/blockaction.cc:1416-1444 | Applies if and only if both ways out lead to blocks that meet at one exit; the three become one block, entered only through the condition, whose one way out leads to that exit. |
| CollapseRules.RuleBlockIfNoExit | libsla/src/blockaction.cc:1481-1512 | Applies if and only if one way out leads to a block that ends there; the two become one block, entered only through the condition, with the other way out. |
| CollapseRules.RuleBlockWhileDo | libsla/src/blockaction.cc:1518-1549 | Applies if and only if a clause returns straight to the condition; the two become one block, entered only through the condition, with the other way out. |
| CollapseRules.RuleBlockDoWhile | libsla/src/blockaction.cc:1555-1574 | Applies if and only if one of two ways out loops back; the block is wrapped with the other way out. |
| CollapseRules.RuleBlockInfLoop | libsla/src/blockaction.cc:1579-1593 | Applies if and only if the one way out loops back; the wrapped block has none. |
| GotoRules.RuleBlockGoto | libsla/src/blockaction.cc:1450-1475 | Applies if and only if some way out is a goto; the block built in its place leads everywhere else but loses that edge, for one, two or many ways out; no other edge is touched. |
| GotoRules.NewBlockMultiGoto | libsla/src/block.cc:1719-1752 | One goto edge of a switch goes, also when it loops back and the wrapping lost it first. |
| SwitchRules.CheckSwitchSkips | libsla/src/blockaction.cc:1607-1644 | True if there is nothing to mark; otherwise exactly the edges that skip to the exit, but for the default, are marked goto. |
| SwitchRules.RuleBlockSwitch | libsla/src/blockaction.cc:1649-1723 | For a block without goto edges, as collapseInternal calls it: applies if and only if all cases end or lead to one exit; either edges that skip are marked, or switch and cases become one block, entered only through the switch, that leads to the exit if there is one. |
| SwitchRules.RuleCaseFallthru | libsla/src/blockaction.cc:1729-1762 | For a graph without goto edges, as collapseInternal calls it: applies if and only if a case falls through into another; exactly the first ways out of those cases are marked goto. |
| Collapse.TryRules | libsla/src/blockaction.cc:1792-1828 | One of the rules succeeds if and only if one applies; then the measure (blocks and edges, switches, edges not marked goto) is lexicographically smaller, otherwise nothing changed. |
| Collapse.CollapseInternal | libsla/src/blockaction.cc:1768-1851 | For every consistent graph and any target, the loops end, and no rule applies to any block of what is left; the result is the number of isolated blocks. Every block that was built had, when it was, a single entry: no edge from outside led past the first of its parts, and no goto was hidden inside it. |
| Collapse.AllIsolated | libsla/src/blockaction.cc:1877-1893 | The count of isolated blocks equals the size of the list if and only if every block is isolated. |
| Collapse.CollapseConditions | libsla/src/blockaction.cc:1854-1865 | Ends with a graph in which no two conditions share a clause any more. |
| Collapse.SelectGoto | libsla/src/blockaction.cc:1260-1277 | Whatever edges are picked, marking them makes the measure smaller; picking an edge that does not exist throws. |
| Collapse.CollapseAll | libsla/src/blockaction.cc:1877-1893 | Ends whichever edges are picked, and unless none could be picked every block is isolated in the end; every block built on the way had a single entry. |
| Calls.CallGraph.InsertBlankEdge | libsla/src/callgraph.cc:191-205 | Makes room at a slot: later out-edges move up and each of their callees learns its new slot. |
| Calls.CallGraph.AddEdge | libsla/src/callgraph.cc:243-268 | Exactly the call asked for is new, unless it was there; out-lists stay strictly sorted by callee address and every edge half names its partner's slot. |
| Calls.CallGraph.FindNoEntry | libsla/src/callgraph.cc:92-127 | The new seeds are all unmarked functions without callers, or, if each has some, the first with the fewest; true if and only if every unmarked function has none. |
| Calls.CallGraph.SnipCycles | libsla/src/callgraph.cc:129-162 | A trace finishes its start, last of all functions it met, keeps the invariant of the traces, leaves earlier traces and all calls alone, and meets no seed that waits. |
| Calls.CallGraph.CycleStructure | libsla/src/callgraph.cc:352-370 | Ends with all functions finished and all seeds traced, no call added or lost; a second call changes nothing. |
| CallForest.NoCycleIsLeft | libsla/src/callgraph.cc:352-370 | No path of edges without the cycle flag returns to its start. |
| CallForest.SnippedClosesCycle | libsla/src/callgraph.cc:164-180 | An edge is flagged if and only if its callee is an ancestor of its caller in the forest of followed edges, or the caller itself. |
| CallForest.OneParent | libsla/src/callgraph.cc:129-162 | The one followed edge into a function that is not a seed is the one its parentedge names; a seed has none. |
| CallForest.ReachedFromSeed | libsla/src/callgraph.cc:352-370 | Every function is reached from a seed by followed edges. |
| CallForest.ReachedOnce | libsla/src/callgraph.cc:352-370 | And along one path only. |
| Calls.CallGraph.NextLeaf | libsla/src/callgraph.cc:293-350 | From any function, with parentedge links alone, the walk goes to the next function in finish order, or ends after the last. |
| Calls.CallGraph.LeafOrder | libsla/src/callgraph.cc:321-350 | The walk visits every function exactly once, and for every edge without the cycle flag the callee before the caller. |
| BitRanges.IntersectionIsIntersection | libsla/src/address.cc:709-726 | As sets of absolute bit positions, under either byte order, the intersection is the intersection. |
| BitRanges.OverlapTestDecides | libsla/src/address.cc:685-704 | The code tells disjoint (and which is lower), equal, contained and containing sets exactly. |
| BitRanges.ShiftMoves | libsla/src/address.cc:754-770 | A shift moves every position and loses exactly those that leave the container. |
| BitRanges.ShiftUndone | libsla/src/address.cc:754-770 | The opposite shift undoes it if and only if the number of bits is kept. |
| BitRanges.TruncationIsIntersection | libsla/src/address.cc:774-802 | Both truncations intersect with the bytes that remain, which are the right end of the container. |
| BitRanges.ExtendKeepsSet | libsla/src/address.cc:806-812 | Extending the container keeps the set. |
| BitRanges.MinimizedIsLeast | libsla/src/address.cc:847-862 | The minimized container holds the same set, and no container that holds it has fewer bytes. |
| BitRanges.MaskedIsLeastCover | libsla/src/address.cc:731-750 | Intersecting with a mask gives the least range around the common bits, empty if and only if there are none. |
| BitRanges.LeastSigBitSet | libsla/src/address.cc:970-986 | The halving search finds the least bit set, or -1 for zero. |
| InsertTransforms.BitFieldInsertTransform.HandleAndBack | libsla/src/bitfield.cc:251-268 | Follows the field if and only if the mask covers it, records zero if and only if it misses it (and a field is sought); either way the root's bits are kept. |
| InsertTransforms.BitFieldInsertTransform.HandleOrBack | libsla/src/bitfield.cc:275-296 | Goes on at the input that holds the field when the other one's non-zero mask misses it, or records the constant that fills it. |
| InsertTransforms.BitFieldInsertTransform.HandleAddBack | libsla/src/bitfield.cc:298-315 | The same for a sum without carries. |
| InsertTransforms.BitFieldInsertTransform.HandleLeftBack | libsla/src/bitfield.cc:323-343 | Follows the field or records zero by the truncated shift amount, exactly when stated; the root's bits are kept under the condition of `LeftFollowedRight`. |
| InsertTransforms.BitFieldInsertTransform.HandleRightBack | libsla/src/bitfield.cc:349-365 | The same for the signed shift, under the condition of `SrightFollowedRight`. |
| InsertTransforms.BitFieldInsertTransform.HandleZextBack | libsla/src/bitfield.cc:372-389 | Follows the field if and only if all of it is in the input. |
| InsertTransforms.BitFieldInsertTransform.HandleMultBack | libsla/src/bitfield.cc:395-415 | Follows the field down by the exponent if and only if the factor is a power of two that leaves all of it. |
| InsertTransforms.BitFieldInsertTransform.HandleSubpieceBack | libsla/src/bitfield.cc:421-438 | Follows the field if and only if the code's shift loses none of it; the root's bits are kept for offset zero. |
| InsertTransforms.BitFieldInsertTransform.ProcessBackward | libsla/src/bitfield.cc:473-553 | A trace succeeds if and only if `Traces.Trace` finds an end for it: through copies, masks that cover the field, ors and sums whose other part is clear there, shifts, products and extensions that keep it, down to a constant, the original value, a variable that holds the field alone, or one where no bit beside it can be set. If it succeeds it adds a record that inserts exactly the root's bits, or shows that they are the original ones; if not it adds nothing. |
| Traces.TwoPartsTraced | libsla/src/bitfield.cc:473-553 | Any word of up to 8 bytes that is a masked low part or-ed with a value shifted up above it: both its fields are traced. |
| Traces.NibblesAreTwoParts | libsla/src/bitfield.cc:473-553 | Two four-bit values put together by an or in one byte, the second shifted left by 4, are such a tree. |
| InsertTransforms.BitFieldInsertTransform.RecoverStore | libsla/src/bitfield.cc:921-976 | Succeeds if and only if all fields and holes can be traced, some of them to a record, and nothing else writes the original bits. Then, after the new operators run, memory holds the stored value if it was loaded before; otherwise if and only if every record but the one stored last writes zero. |
| InsertTransforms.BitFieldInsertTransform.RecoverMapped | libsla/src/bitfield.cc:921-1013 | The same for a mapped variable tied to its address, but for small holes that are overwritten later; the new operators leave in it the value written before, bit for bit, but for fields that are overwritten later anyway. |
| InsertTransforms.BitFieldInsertTransform.ApplyStore | libsla/src/bitfield.cc:936-976 | The operators around the STORE: the first record is stored by the STORE itself, each further one, from the last to the second, by a LOAD (if there was one), an INSERT and a STORE of its own right behind it. |
| InsertTransforms.BitFieldInsertTransform.ApplyMapped | libsla/src/bitfield.cc:977-1013 | The chain of INSERT operators, the last record innermost. |
| InsertOps.StoresWithLoad | libsla/src/bitfield.cc:936-976 | With LOADs, memory ends as the original value with all records inserted. |
| InsertOps.StoresWithoutLoad | libsla/src/bitfield.cc:936-976 | Without, it ends as the one record that is stored last, inserted into zero. |
| InsertOps.LinksRun | libsla/src/bitfield.cc:977-1013 | The chain computes the original value with all records inserted. |
| InsertOps.LastAloneIsRight | libsla/src/bitfield.cc:936-976 | That one record is the whole value if and only if all others write zero. |
| InsertOps.LastAloneIsAlwaysRight | libsla/src/bitfield.cc:936-976 | It is so for all values if and only if all others are constants that write zero. |
| InsertOps.TwoFieldsStored | libsla/src/bitfield.cc:936-976 | Two fields of four bits stored without a LOAD: memory ends as 0x50, not 0x53. |
| InsertTransforms.InsertsRebuildRoot | libsla/src/bitfield.cc:921-934 | Once the trace is done, the records inserted into the original value (or zero) make up the root. |
| BitFields.InsertAllBit | libsla/src/bitfield.cc:657-701 | After any list of right records a bit is the root's where some record writes and the base's elsewhere. |
| BitFields.LeftFollowedRight | libsla/src/bitfield.cc:323-343 | The followed field agrees for all values if and only if the shift amount fits 32 bits. |
| BitFields.SrightFollowedRight | libsla/src/bitfield.cc:349-365 | The same, or the field is one bit that is moved onto the sign bit. |
| BitFields.SubpieceFollowedRight | libsla/src/bitfield.cc:421-438 | The followed field agrees for all values if and only if the offset is zero. |
| BitFields.ZpullIsOriginal | libsla/src/bitfield.cc:146-158 | An unsigned pull holds the field where the original has it, for all values, if and only if the position is zero. |
| BitFields.SpullIsOriginal | libsla/src/bitfield.cc:146-158 | A signed pull does if and only if the position is zero or the field has one bit. |
| BitFields.SupportedIsExact | libsla/src/bitfield.cc:473-553 | The condition that `RecoverStore` puts on an operator holds if and only if no field that can come to it is led astray. |
| CompareGroups.BitFieldPullTransform.TestCompareGroup | libsla/src/bitfield.cc:1409-1430 | A group of records of one comparison is kept if and only if none is aborted and the masks cover both the constant and the non-zero mask; otherwise exactly the group is erased. |
| CompareGroups.SplitIsRight | libsla/src/bitfield.cc:1409-1430 | Under that cover, word and constant are equal if and only if they agree in every field. |
| CompareGroups.BitFieldPullTransform.SplitCompare | libsla/src/bitfield.cc:1507-1549 | For any number of records the comparison becomes a chain of and (for equal) or or (for not equal) over one comparison each, and no other operator changes. |
| CompareGroups.BitFieldPullTransform.ApplyGroup | libsla/src/bitfield.cc:1435-1567 | For every word within the non-zero mask, the operator has the truth value it had before the group was rewritten. |
| Actions.PerformResumes | libsla/src/action.cc:298-362 | Continuing a run from where it stopped ends as the run without break points does. |
| Actions.ResumedIsUninterrupted | libsla/src/action.cc:298-582 | For any nesting of groups and restart groups and any break points, calling perform until it does not return -1 leads to the same history of applied actions and resets, the same count, the same state and the same number of steps as one call without break points; and one ends exactly when the other does. |
| Scheduler.ActionTree.Perform | libsla/src/action.cc:298-362 | The state machine on the action objects: whatever state a call finds, the action and everything in it, the history and the result are what `Actions.Perform` says, and no other action changes. What that is without break points, `Runs` describes. |
| Scheduler.ActionTree.GroupApply | libsla/src/action.cc:506-527 | The same for a group, which goes on at its current member and adds up their changes. |
| Scheduler.ActionTree.RestartApply | libsla/src/action.cc:553-582 | The same for a restart group: rounds until no restart is pending, or there were too many. |
| Scheduler.ActionTree.ResetAction | libsla/src/action.cc:408-551 | Resets the action and, member by member, everything in it, and nothing else. |
| Scheduler.ActionTree.RunToEnd | libsla/src/action.cc:298-582 | Calling perform until it does not return -1 leaves on the objects what one call without any break points leaves, but for the break points still set; and that is the run of `Runs`. |
| Runs.PerformIsRun | libsla/src/action.cc:298-582 | Without break points: perform ends within n steps if and only if there is a run of at most n, and there is one at most. In a run a repeating action goes round until a round makes no change; in each round a group performs every member once, in order, from the first, a restart group does so again after a reset while a restart is pending and allowed, a leaf is applied; the result is the sum of the changes, and the history is just what was applied and reset. |
| Runs.ResumedIsRun | libsla/src/action.cc:298-582 | With any break points, calling perform until it does not return -1 is such a run. |
| Runs.LeavesInOrder | libsla/src/action.cc:506-527 | In every round of a group of plain leaves each is applied once, in order. |
| Runs.ResetRenews | libsla/src/action.cc:408-551 | A reset puts every action of the tree back to its first status with its warning not yet given, a restart group to no restarts, and resets each leaf once, from left to right; nothing else of it changes. |
| Runs.ResetIsQuiet | libsla/src/action.cc:408-551 | After a reset, break points aside, no action is in the middle of anything, so what follows is a run from the first member on. |
| Actions.NoBreakNoStop | libsla/src/action.cc:298-362 | Without break points perform never returns -1. |
| RangeLists.RangeList.InsertRange | libsla/src/address.cc:383-410 | The list stays sorted and disjoint, and exactly the new addresses join the set. |
| RangeLists.RangeList.RemoveRange | libsla/src/address.cc:417-449 | The list stays sorted and disjoint, and exactly the given addresses leave the set; a range around them is split. |
| RangeLists.RemoveAfterInsert | libsla/src/address.cc:383-449 | Inserting and removing the same range leaves the other addresses alone and none of its own. |
| RangeLists.RangeList.Merge | libsla/src/address.cc:451-462 | The union of both sets. |
| RangeLists.RangeList.GetRange | libsla/src/address.cc:491-505 | The one range that holds the address, or nothing if and only if the address is not in the set. |
| RangeLists.RangeList.InRange | libsla/src/address.cc:468-487 | For a query inside the space: true if and only if one range holds all its addresses; and what it answers for a query that wraps. |
| RangeLists.InOneExactWhenGapped | libsla/src/address.cc:468-487 | "One range holds them" is "all are in the set", for all queries, if and only if no two ranges meet end to end. |
| RangeLists.RangeList.LongestFit | libsla/src/address.cc:512-537 | The size, as a 64-bit number, at the first range end of the covered run that makes it reach the limit; if none does, that of the run. |
| RangeLists.FitIsRight | libsla/src/address.cc:512-537 | The result is the length of the run below the limit, and between the two at or above it, unless the run is the whole space and no range but the last ends at or beyond the limit; then it is 0. |
| RangeLists.WholeSpace | libsla/src/address.cc:531-533 | One range that is the whole space has size 0 for any limit; two ranges that are, 0-10 and the rest, have size 11 for limit 5. |

## Findings

What the code was expected to do and does not, each with an input and the exact condition.

- **Entry block** (`SpanningTree.FirstBlockMoves`, `SpanningTree.FirstBlock`). The comment at
  libsla/src/block.cc:1006 says that the first block should remain the first. It does not for the list [0,
  1] with the one edge 1 -> 0, where 1 has no in-edges, nor for [0, 1, 2] with edges 1 -> 0, 1 -> 2 and 2 ->
  1, where the second attempt starts from 1. It does if and only if it has no in-edges, or all blocks have
  some and every block that leads to it can be reached from it.
- **Rebuild, second failure, cycle search** (`Irreducible.FindIrreducible`, `SpanningTree.Attempts`,
  `LoopStructure.CalcLoop`). On labels left by findSpanningTree, libsla/src/block.cc:1180 never asks for a
  rebuild, the exception at libsla/src/block.cc:1111 is never thrown, and calcLoop
  (libsla/src/block.cc:2104) never adds a loop edge. These branches are never taken.
- **Wide shift amounts** (`BitFields.LeftFollowedRight`, `BitFields.SrightFollowedRight`,
  `BitFields.WideShift`). libsla/src/bitfield.cc:323-343 and 349-366 truncate the amount to 32 bits before
  use: a shift left by 2^32 + 3 is followed like one by 3, though its result is zero. A followed field is
  right for all values if and only if the amount is below 2^32; for INT_SRIGHT also when the field is one
  bit that is moved onto the sign bit. A field recorded as zero is right however wide the amount
  (`BitFields.LeftClearedRight`).
- **SUBPIECE** (`BitFields.SubpieceFollowedRight`, `BitFields.SubpieceOfOneByte`).
  libsla/src/bitfield.cc:421-440 shifts the field down by the offset, where the input has it that much
  higher. For offset 1 the field at bit 8 of the output is looked for at bit 0 of the input. Right if and
  only if the offset is zero.
- **Pulls of the original value** (`BitFields.ZpullIsOriginal`, `BitFields.SpullIsOriginal`,
  `BitFields.PullAtOne`). libsla/src/bitfield.cc:146-158 takes a pull from position pos to be the original
  value when the field is sought at pos, but a pull has its bits at position zero. Position 1, one bit,
  value 2: the pull is 1, whose bit 1 is not set. Right if and only if pos is zero, or the pull is signed
  and of one bit.
- **Zero records of INT_ZEXT and INT_MULT** (`InsertTransforms.BitFieldInsertTransform.HandleZextBack`,
  `InsertTransforms.BitFieldInsertTransform.HandleMultBack`). libsla/src/bitfield.cc:384 and 411 test the
  old field for zero bits, not the moved one. The old field always has some, so a field of extension zeros
  is never recorded as zero: the trace just fails.
- **Labels after dedup** (`Deduplication.MergedAgree`, `Deduplication.GotoOnOneHalfOfAnEdge`).
  libsla/src/block.cc:446-500 adds the labels of dropped edges to one half of the kept edge alone. Of two
  parallel edges the second of which is a goto, only the in-half is a goto afterwards; a third edge without
  labels changes nothing. Halves that match before match afterwards if and only if the first of the parallel
  edges has all labels of the others.
- **Several roots** (`Dominators.LinkIsRight`, `Dominators.TwoRoots`). The virtual root that
  libsla/src/block.cc:1970-1973 puts above several roots has index 0 (libsla/src/block.cc:65), which is also
  that of the first block, so a finger that climbs to it (libsla/src/block.cc:2004-2012) stands at the first
  block. With roots 0 and 1 that both lead to 2, block 2 gets the immediate dominator 0, though the path
  from 1 avoids it. A link is right if and only if some other block lies on all paths from the roots.
- **STORE without a LOAD** (`InsertOps.TwoFieldsStored`, `InsertOps.LastAloneIsRight`,
  `InsertOps.LastAloneIsAlwaysRight`). If no original value was found, libsla/src/bitfield.cc:936-976
  inserts every record into the constant 0 and stores each result on its own, so the last STORE overwrites
  the others. For two fields of four bits, x = 3 and y = 5 in `*p = (x & 0xf) | (y << 4)`, the stored value
  is 0x53 and memory ends as 0x50. It ends right if and only if all records but the one stored last write
  zero; for all values, if and only if they are constants that do. With a LOAD it always ends right, and so
  does a mapped variable, but for fields that are overwritten later.
- **Calls as original values** (`InsertTransforms.BitFieldInsertTransform.TestCallOriginal`). A call is
  taken for the original value only if the variable is not address-tied (libsla/src/bitfield.cc:445-470),
  but for such a variable the constructor (libsla/src/bitfield.cc:791-824) establishes no field, so no trace
  ever gets there.
- **Adjacent ranges** (`RangeLists.AdjacentNotJoined`, `RangeLists.InOneExactWhenGapped`).
  libsla/src/address.cc:383-411 joins ranges that overlap, not ranges that meet end to end: after 0-3 and
  4-7 there are two, and inRange denies 0-7 though every address is in the set. It answers for all queries
  as the set would if and only if no two ranges meet.
- **Wrapped queries** (`RangeLists.RangeList.InRange`, `RangeLists.WrappedQuery`). libsla/src/address.cc:484
  computes the end of a query modulo 2^64: with the one range 0-15, four bytes from 2^64 - 2 on are said to
  be in range. For every query the answer is true if and only if a range of the space starts at or before
  the address and reaches the wrapped end.
- **The whole space** (`RangeLists.FitIsRight`, `RangeLists.WholeSpace`). libsla/src/address.cc:531 adds up
  sizes modulo 2^64, so one range that is the whole space has size 0. A covered run of 2^64 bytes is
  reported as 0, for a limit other than 0, if and only if no range but the last ends at or beyond the limit:
  for ranges 0-10 and 11 to 2^64 - 1 and limit 5 the result is 11. For every other run the result is right.

## Left out

- LoopStructure.StructureReset: jump tables and heritage are not part of it.
- Dominators.CalcForwardDominator: the exception for a single root that is not the first block; the list given is in reverse post-order from its roots, as structureLoops leaves it.
- CommonBlock.OverIsDominance: one entry only, as both forms of the nearest common dominator; the queries themselves are proved for any links that rise.
- Flow.BlockGraph.SwapEdges: the flag that remembers a flipped path.
- Collapse.SelectGoto: the edges are picked arbitrarily. Loop ordering, exits and containments (findExit, labelContainments, orderLoopBodies, updateLoopBody), the DAG traces and their scores, and the search of clipExtraRoots are not modelled; what is proved holds for any pick.
- SwitchRules.RuleBlockSwitch: the exception "Could not get switch leaf" of newBlockSwitch, which depends on the leaf a block was copied from, and the fields of the new block.
- CollapseRules.RuleBlockWhileDo: the marking for overflow syntax and the test isComplex, whose answer is given for every block and fixed.
- Structuring.CollapseStructure.NewSuper: targets and types of the goto and if blocks, and the counter of changes to data flow.
- RangeLists.RangeList.LongestFit: a limit beyond 64 bits cannot be given to the source; here it is any number.
- InsertTransforms.BitFieldInsertTransform.RecoverStore: conditions `Supported` and `Misread` exclude just the wide shifts, SUBPIECE offsets and pulls of the findings. Which variables hold the original value, whether a hole is overwritten later and whether nothing else writes the original bits are given: the tests on addresses and aliases (verifyLoadStoreOriginalValue, verifyMappedOriginalValue) are not modelled. Nor are data-types, marks for printing and the clean-up after the rewrite (destroyVarnodeRecursive, foldLoad, foldPtrsub, checkRedundancy).
- EdgeCodec.Decoder.DecodeBody: blocks that are themselves graphs, malformed streams beyond an unknown block, and the type names.
- Calls.CallGraph.AddEdge: an edge added after cycleStructure gets the flags of the edge it displaces; the traces are proved for graphs built before.
- Calls.CallGraph.LeafOrder: names and Funcdata pointers. The command at libsla/src/ifacedecomp.cc:219-226, which does not advance past a function without a name, is not modelled.
- Scheduler.ActionTree.Perform: pools of rules, and the statistics: the count of tests differs between the runs, because a start break skips its increment. A leaf completes in one apply. Repeating actions need not stop, so every call is given a number of steps; a call that uses them up is described no further.
- CompareGroups.BitFieldPullTransform.ApplyGroup: records of plain pulls, whose operators are rebuilt one for one, and the forward trace that collects the records, are given.
- BitRanges.LeastSigBitSet: the other bit utilities (population count, most significant bit) are functions with the result they should have, not the code's bit tricks. BitRange is a value; its methods return the new one.
- std::set and std::sort are functions on sequences; blocks, nodes and variables are rows of tables, so memory management is not modelled.
- The other passes of the decompiler, the printing and decoding of ranges, getLastSignedRange, buildDomSubTree, collectReachable, ConditionalJoin and everything outside `libsla/src`: plumbing, heuristics, or descriptions too loose to prove.
