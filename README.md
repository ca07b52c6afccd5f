# numba-rvsdg control-flow restructuring, modelled in Dafny

This project models the core of numba-rvsdg in Dafny. numba-rvsdg turns a Python
function's control-flow graph into a structured control-flow graph (SCFG), as a step
towards a regionalized value-state dependence graph. The model covers three parts.

- **Graph restructuring** (`numba_rvsdg/core/transformations.py`):
  - dominators, postdominators and immediate dominators;
  - loop selection among strongly connected components;
  - loop rotation into tail-controlled form, with its two paths. The fast path marks the
    backedges. The general path adds a synthetic exiting latch, a synthetic exit and
    control-variable assignment blocks;
  - partitioning a branch region into head, arms and tail;
  - collapsing a block set into a region block.
- **AST-to-CFG lowering** (`numba_rvsdg/core/datastructures/ast_transforms.py`):
  - `AST2SCFGTransformer` lowers a function's statement tree into `WritableASTBlock`s held
    in an `ASTCFG`;
  - the handlers cover function definitions, `if`, `while` (with `break`/`continue`) and
    `for`/`else`;
  - the `prune_unreachable` and `prune_empty` passes clean up the result.
- **The earlier prototype** `ASTHandler` (`numba_rvsdg/core/datastructures/ast_handler02.py`).

How the code maps to Dafny:

- **Pure functions.** Each handler and pass has a specification function on values:
  `Lower`, `LowerIf`, `PruneEmptyOver`, `LoopsAmong`, `Collapse` and so on.
- **Classes.** The transformer and the prototype handler are classes whose fields are the
  source's fields. The transformer has the counter, the block dictionary with its key
  order, the current block and the loop stack. Their methods carry out the source's steps
  on those fields and are proved equal to the specification functions.
- **Graph passes.** These are methods over a `Graph` value plus a label generator
  (`NameGen`). The `Transformations` module wraps them as methods on a `BlockMap` object
  that they update in place.
- **Jump targets.** `Block.jumpTargets` is a block's stored `_jump_targets` list.
  `Block.Targets()` is the `jump_targets` property of `basic_block.py` (not part of this
  model): the stored list without the block's backedges. The model reads `Targets()` wherever
  the code reads `jump_targets`. That covers `transformations.py` lines 101, 110, 153, 190-191,
  226, 281, 304, 317-319, 338, 380, 464, 500, 518 and 526, and the block-map stand-ins for
  headers, exits and reachability. Line 144 reads `_jump_targets`, and so does `ForShaped`.
  New blocks and `replace_jump_targets` set the stored list, and `Bounded` bounds it.
- **Errors.** Each Python exception the source can raise is a `Result` error:
  `AssertionError`, `KeyError`, `IndexError`, `ValueError`, `RuntimeError`,
  `StopIteration`, `AttributeError` and `NotImplementedError`.

Behaviours of the code that the model follows:

- `restructure_branch` handles only the first region that `_iter_branch_regions` reports in
  each call; it does not restart detection after every edit.
- `_iter_branch_regions` accepts any block with more than one jump target, not only blocks
  with exactly two.
- Loops and branch starts are visited in the order the code iterates Python sets and dicts,
  not in a sorted order. The model leaves set order as a free choice and states its
  properties for every order.
- `replace_backedge` overwrites the block's backedges with the single loop head, rather
  than keeping a set of marked jump targets.

## Model

| member | source | states |
|---|---|---|
| Cfg.Block.ReplaceJumpTargets | numba_rvsdg/core/transformations.py:113 | the copy has the given jump targets and keeps its backedges |
| Cfg.Block.ReplaceBackedge | numba_rvsdg/core/transformations.py:157 | the copy's backedges are exactly the loop head and its jump targets are unchanged |
| Cfg.ReplaceFirst | numba_rvsdg/core/transformations.py:112 | `jt[jt.index(a)] = b`: only the first occurrence of `a` becomes `b`, every other slot is kept, and a list without `a` is unchanged |
| Cfg.HeadersOf | numba_rvsdg/core/transformations.py:124 | a successful header computation yields a non-empty set; its only failure is `AssertionError` |
| Cfg.ExitingHasExit | numba_rvsdg/core/transformations.py:125 | a block set has an exiting block exactly when it has an exit target |
| Cfg.FindHead | numba_rvsdg/core/transformations.py:294 | succeeds exactly when the graph has one head, and returns it; otherwise `AssertionError` |
| Cfg.Redirect | numba_rvsdg/core/transformations.py:136 | every jump target in `from` becomes `to`, position by position; the others stay |
| Cfg.InsertBlockAndControlBlocks | numba_rvsdg/core/transformations.py:136 | the stand-in for the block map's header unification (`ControlBlocksInserted`): the control-variable counter advances by one; the only new key is a branch block on the old variable whose table lists each successor exactly once and is its jump-target list; every predecessor's jump targets into the successors are redirected to it in place; every other block is unchanged; no assignment blocks are added |
| Cfg.RedirectPreds | numba_rvsdg/core/transformations.py:136 | predecessors' targets in `succs` now point at the new label; all other blocks are unchanged and the key set is the same |
| Cfg.Block.Targets | numba_rvsdg/core/transformations.py:153 | the `jump_targets` property: a label is a target exactly when it is in the stored list and is not a backedge; a block without backedges has the stored list |
| Cfg.IsReachableDfs | numba_rvsdg/core/transformations.py:320 | `KeyError` exactly when `begin` is not a key; otherwise true exactly when some path of one or more jumps along `jump_targets` leads from `begin` to `end` (`JumpPath`), both directions; a direct jump target is reachable |
| Cfg.ClosureLeast | numba_rvsdg/core/transformations.py:320 | the closure of a set under jumps is contained in every jump-closed set that contains it: it is the least such set |
| Cfg.ClosureReached | numba_rvsdg/core/transformations.py:320 | the closure of `begin`'s jump targets is exactly the set of labels a jump path from `begin` reaches |
| Cfg.ReachedPath | numba_rvsdg/core/transformations.py:320 | a label is reached from `begin` exactly when a jump path leads there |
| Dominators.FindDominatorsInternal | numba_rvsdg/core/transformations.py:537-580 | `RuntimeError` exactly when there is no entry. Otherwise: one set per node; entries dominated only by themselves; every set within the nodes and containing its node; each non-entry set is `{n}` plus the meet of its predecessors' sets (the fixpoint equation); every node on an entry path to `n` dominates `n` (completeness) |
| Dominators.FixpointSound | numba_rvsdg/core/transformations.py:568-579 | at the fixpoint, every dominator of `n` lies on every path from an entry to `n` |
| Dominators.SumSizesShrinks | numba_rvsdg/core/transformations.py:576-578 | replacing a set with a strictly smaller one lowers the total size, which is why the worklist terminates |
| Dominators.EdgeTables | numba_rvsdg/core/transformations.py:499-504 | the predecessor and successor tables hold exactly the in-graph predecessors and successors of every node |
| Dominators.TablesAreConverse | numba_rvsdg/core/transformations.py:495-504 | the two tables are converse to each other and mention only graph nodes |
| Dominators.Doms | numba_rvsdg/core/transformations.py:492-511 | `RuntimeError` exactly when no block lacks a predecessor; otherwise the dominator sets satisfy the fixpoint equation and path dominance from the sources |
| Dominators.PostDoms | numba_rvsdg/core/transformations.py:514-534 | `RuntimeError` exactly when no block lacks an in-graph successor; otherwise the postdominator sets satisfy the reversed fixpoint equation and path dominance from the sinks |
| Dominators.ComputeDoms | numba_rvsdg/core/transformations.py:187 | the result of `_doms` satisfies `DominatorsOf` for the graph |
| Dominators.ImmediateUnique | numba_rvsdg/core/transformations.py:484-488 | with antisymmetric dominance, a node has at most one immediate dominator |
| Dominators.ImmDoms | numba_rvsdg/core/transformations.py:472-489 | (`ImmDomsOutcome`) the only errors are `KeyError` and `ValueError`; `KeyError` exactly when some dominator set names a non-key; a result has only keys of the map and maps a node to a strict dominator of it; nodes dominated only by themselves get no entry; under antisymmetry every immediate dominator is found; with layered, closed, antisymmetric maps it succeeds (no `ValueError`). `DominatorTree` shows that dominator maps of reached nodes meet these conditions |
| Dominators.ReduceAll | numba_rvsdg/core/transformations.py:473-482 | the reduction loop keeps every candidate set a set of dominators and, on layered maps, shrinks each to at most one element |
| Dominators.Pass | numba_rvsdg/core/transformations.py:476-482 | one sweep never increases the total candidate size and strictly decreases it when `changed` is set |
| Dominators.Visit | numba_rvsdg/core/transformations.py:477-482 | processing one key keeps the sweep invariant over the next position |
| Dominators.ReduceOne | numba_rvsdg/core/transformations.py:478-480 | removing the candidates of each candidate keeps a subset that still contains every immediate dominator, and at most one on layered maps |
| Dominators.DropAll | numba_rvsdg/core/transformations.py:479-480 | `vs -= idoms[v]` over a snapshot of `vs`: `KeyError` only when a snapshot element is not a key; otherwise the result is the set minus the union of their candidate sets |
| Dominators.SingleOut | numba_rvsdg/core/transformations.py:484-489 | `[v] = vs`: `ValueError` on a set of two or more; otherwise every singleton becomes the map entry and empty sets are dropped |
| Dominators.DomAntisymmetric | numba_rvsdg/core/transformations.py:472-489 | on a dominator map whose nodes are all reached from an entry, two distinct nodes never dominate each other |
| Dominators.DomChain | numba_rvsdg/core/transformations.py:472-489 | on such a map, two dominators of the same node are ordered: one of them dominates the other |
| Dominators.ImmediateExists | numba_rvsdg/core/transformations.py:484-488 | on such a map, a node with a strict dominator has an immediate dominator |
| Dominators.DominatorTree | numba_rvsdg/core/transformations.py:472-489 | a dominator map whose nodes are all reached from an entry is closed, antisymmetric and layered, and every node with a strict dominator has an immediate one: the conditions under which `ImmDoms` succeeds and finds every immediate dominator |
| Dominators.ImmDomsOnTree | numba_rvsdg/core/transformations.py:472-489 | on such a map, a table with the guarantees of `ImmDoms` has an entry exactly for the nodes with a strict dominator, and maps each to the strict dominator that every other strict dominator of the node dominates, by the path meaning (`ImmediateTable`) |
| Dominators.ImmediateDominators | numba_rvsdg/core/transformations.py:396 | `_imm_doms(_doms(g))` as `restructure_branch` computes it: `RuntimeError` when every block has a predecessor; when every block is reached from a block without one, it succeeds with the graph's immediate-dominator table |
| Dominators.ImmediatePostDominators | numba_rvsdg/core/transformations.py:394-395 | `_imm_doms(_post_doms(g))`: `RuntimeError` when every block has a successor; when every block reaches a block without one, it succeeds with the graph's immediate-postdominator table |
| Regions.ExtractRegion | numba_rvsdg/core/transformations.py:361-388 | (`Extracted`) fails exactly when the headers cannot be computed, the set names a non-key, or there is not exactly one header or one exiting block; a failure leaves the graph unchanged and is `KeyError` exactly for a non-key once the headers are found, otherwise `AssertionError`; a success returns the single header, and the graph is the collapse of the set around that header and its exiting block, whose region block jumps to the exiting block's `jump_targets` (backedges left out, line 380) |
| Regions.CollapseKeeps | numba_rvsdg/core/transformations.py:369-388 | the collapsed graph's keys are the old keys minus the set plus the header; blocks of the set sit unchanged in the subregion and outside blocks are untouched |
| Regions.CollapseClosed | numba_rvsdg/core/transformations.py:387-388 | a jump target from outside the region that was a key remains a key |
| Regions.CollapseExits | numba_rvsdg/core/transformations.py:373-380 | the region block's jump targets leaving the region are exactly the set's exit targets |
| Regions.CollapseTargets | numba_rvsdg/core/transformations.py:373-382 | the region block has no backedges and jumps to a label exactly when the exiting block jumps there and it is not one of that block's backedges; its targets all leave the set exactly when they are the set's exits |
| Regions.ExtractedBounded | numba_rvsdg/core/transformations.py:361-388 | extraction keeps every label below the label generator's counter |
| Loops.RotateForLoop | numba_rvsdg/core/transformations.py:93-116 | (`ForRotation`) headers that cannot be computed, a non-key in the loop, or more than one header fail with nothing changed. Otherwise a synthetic for-iterator label is drawn from the counter and added as a copy of the header's jump targets without backedges. With the header in the loop, the loop set swaps the header for the copy, every other loop block's first edge to the header goes to the copy, and all other blocks are unchanged. With the header outside the loop, `loop.remove` raises `KeyError` after the copy was added, and nothing else changes |
| Loops.RedirectToCopy | numba_rvsdg/core/transformations.py:108-113 | member blocks have their first edge to the header rewired to the copy; other blocks are unchanged |
| Loops.RemoveHeaders | numba_rvsdg/core/transformations.py:230-232 | the jump-target list minus one occurrence of each header, as a multiset |
| Loops.ReverseLookup | numba_rvsdg/core/transformations.py:179-184 | the first table index holding the value, or `Unused` exactly when the value is absent |
| Loops.ExitAssignmentRoundTrip | numba_rvsdg/core/transformations.py:192-211 | an exit edge's assignment sets the backedge variable to the synthetic-exit slot and the exit variable to the index that the exit table maps back to that exit |
| Loops.HeaderAssignmentRoundTrip | numba_rvsdg/core/transformations.py:212-241 | a header edge's assignment selects the loop head in the backedge table and the header's own slot in the header table (`Unused` when absent) |
| Loops.RewireBlock | numba_rvsdg/core/transformations.py:188-245 | rewiring one block adds only fresh assignment blocks, leaves every other block unchanged, and leaves the block rewired as `RewiredAt` specifies |
| Loops.RewireLoop | numba_rvsdg/core/transformations.py:188-245 | rewiring all exiting and backedge blocks satisfies `LoopRewired`: each exit or header edge goes through its own assignment block to the latch |
| Loops.MarkBackedges | numba_rvsdg/core/transformations.py:156-157 | every loop member's backedges become the loop head; other blocks are unchanged |
| Loops.PlanLatch | numba_rvsdg/core/transformations.py:160-184 | allocates the latch and synthetic exit from the next two indices and fresh variables, and builds the tables the plan describes |
| Loops.InstallLatch | numba_rvsdg/core/transformations.py:247-266 | after rewiring, the latch branches on the backedge variable to the synthetic exit or the head, and the synthetic exit branches over the exit table (`LatchInstalled`) |
| Loops.RotateGeneral | numba_rvsdg/core/transformations.py:160-266 | `RuntimeError` exactly when dominators cannot be seeded; otherwise the plan is built from the dominators and installed |
| Loops.ChooseHead | numba_rvsdg/core/transformations.py:124-150 | (`HeadChosen`) the three initial failures change nothing. A one-block loop keeps its block as head. Several headers are joined by a fresh synthetic head added as `InsertBlockAndControlBlocks` says, and the head joins the loop. A single for-shaped header (two jump targets, one leaving the loop) is rotated as `RotateForLoop` says and the head is a recomputed header; `AssertionError` when the rotated loop's headers cannot be computed (`ForHeadersFail`). Any other single header is the head, with nothing changed. The headers, exiting blocks and exits returned are those of the resulting graph and loop |
| Loops.TakeFastPath | numba_rvsdg/core/transformations.py:155-158 | one exiting block: every loop member's backedge is marked and the exiting block and exit are returned |
| Loops.RotateAfter | numba_rvsdg/core/transformations.py:152-266 | (`RotatedAfter`) with one backedge block and one exiting block (`FastCase`), the fast path marks the head as every loop block's backedge, keeps the keys, counter and loop, and returns the headers, head, exiting block and an exit; otherwise, on a graph with a source, the general path installs the latch (`GeneralFor`) and leaves `GeneralShape`. It fails exactly when the loop is not the fast case and the graph has no sources, with `RuntimeError` and the graph and loop unchanged (the fast path computes no dominators) |
| Loops.Rotate | numba_rvsdg/core/transformations.py:119-266 | (`RotateOutcome`) the header and entry failures change nothing; otherwise the outcome is either the for-loop prologue's `AssertionError` (`ForHeadersFail`), or a prologue as `ChooseHead` states (`HeadChosen`) followed by the fast or general path as `RotateAfter` states, or by `RuntimeError` exactly when the rotated loop is not the fast case on a graph without sources, leaving the graph after the prologue |
| Loops.RotateOutcomeFacts | numba_rvsdg/core/transformations.py:119-266 | every outcome of `loop_rotate` raises only `AssertionError`, `KeyError` or `RuntimeError`; a rotation needs a loop of keys with one entry and leaves the loop within the keys; the fast path makes the head every loop block's backedge; the general path leaves one latch and one synthetic exit (`GeneralShape`) |
| Loops.EntriesHaveHeaders | numba_rvsdg/core/transformations.py:124 | a block set with an entry has a successful header computation, and its headers lie in the set |
| Loops.LoopTestMeaning | numba_rvsdg/core/transformations.py:281 | the loop test succeeds exactly on non-empty components (a singleton must be a key) and then answers whether the component is a loop |
| Loops.LoopsAmongMeaning | numba_rvsdg/core/transformations.py:278-282 | the selection succeeds exactly when every test does, and then holds exactly the components that are loops |
| Loops.SelectLoops | numba_rvsdg/core/transformations.py:278-282 | the loop over the components computes `LoopsAmong` |
| Loops.RestructureLoops | numba_rvsdg/core/transformations.py:269-290 | (`LoopsRestructured`) a failed loop selection is returned with the graph unchanged; otherwise the loops `LoopsAmong` selects are processed in order. A success returns them, and a chain of states (`LoopChain`) leads from the input to the result in which each loop is rotated (`RotateOutcome`) and then extracted as a loop region (`Extracted`), whose targets are the exiting block's `jump_targets` without its backedges (`LoopRegionTargets`). A failure follows the chain over the loops before it, then fails on the next loop's rotation or extraction (`LoopFailed`); each rotation's `RuntimeError` arises only when the loop is not the fast case and the graph has no sources |
| Loops.RestructureOne | numba_rvsdg/core/transformations.py:288-290 | one loop of the pass: a success is `LoopCollapsed` (the loop rotated, then the rotated loop extracted as a loop region whose targets are the exiting block's `jump_targets` without backedges); a failure is `LoopFailed`, raising `KeyError`, `AssertionError` or `RuntimeError`; the `RuntimeError` only from a rotation outside the fast case on a graph without sources (`RotateOutcome`) |
| Loops.LoopRegionTargets | numba_rvsdg/core/transformations.py:288-290 | after a loop is rotated and extracted, the loop region has no backedges, its targets outside the rotated loop are exactly the loop's exits, and the loop head is not among its targets; after the general path its only target is the synthetic exit, so no loop block is among them |
| Loops.ChainSnoc | numba_rvsdg/core/transformations.py:287-290 | a chain followed by one collapsed loop is a chain one loop longer |
| Loops.LoopChainStep | numba_rvsdg/core/transformations.py:287-290 | in a chain, the i-th loop turns the i-th state into the next one |
| Loops.StepChainAt | numba_rvsdg/core/transformations.py:287-290 | in a chain of any step relation over the loops, the i-th step relates the i-th state to the next one |
| Loops.StepChainSnoc | numba_rvsdg/core/transformations.py:287-290 | a chain followed by one more step over the next loop is a chain one loop longer |
| Branches.IterBranchRegions | numba_rvsdg/core/transformations.py:460-469 | `KeyError` exactly when a forking block's postdominator has no immediate dominator entry; otherwise exactly the (begin, end) pairs with end's immediate dominator begin |
| Branches.FindHeadBlocks | numba_rvsdg/core/transformations.py:293-307 | succeeds exactly when a straight walk from the unique head reaches `begin`, and returns the walk's blocks; `AssertionError` without a unique head |
| Branches.NoWalkPast | numba_rvsdg/core/transformations.py:304-306 | once the walk meets a non-key, a fork or a repeated block before `begin`, no walk to `begin` exists |
| Branches.DomTables | numba_rvsdg/core/transformations.py:311-314 | the dominator computations fail exactly on a graph without sources or sinks, with `RuntimeError`; otherwise the maps are the graph's and both `_imm_doms` results are as `ImmDomsOutcome` states (`TablesOf`) |
| Branches.FindBranchRegions | numba_rvsdg/core/transformations.py:310-332 | `RuntimeError` from the dominator computations exactly on a graph without sources or sinks; otherwise the dominator and postdominator maps are the graph's (`TablesOf`), an error of `_imm_doms` on either is returned as that error (`ImmDomsOutcome`), `begin` outside the graph is `KeyError`, and then the result is as `FindArms` states (`ArmsStage`) |
| Branches.FindArms | numba_rvsdg/core/transformations.py:318-332 | (`ArmsFound`) the loop over the jump targets fails, with `KeyError`, exactly when some target's search fails (`ArmFails`); a success has one arm per target, each as `ArmFor` specifies |
| Branches.FindArm | numba_rvsdg/core/transformations.py:318-331 | fails exactly when a sibling that is not a key is tried before any sibling that reaches the start (`ArmFails`), and then with `KeyError`; a success satisfies `ArmFor` (no arm when a sibling reaches the start, else the blocks dominated by the start and not by `end`) |
| Branches.Dominated | numba_rvsdg/core/transformations.py:329-331 | exactly the keys dominated by the start and not by the end |
| Branches.FindTailBlocks | numba_rvsdg/core/transformations.py:344-358 | exactly the keys outside the head, the arms and `begin` |
| Branches.PartitionCovers | numba_rvsdg/core/transformations.py:344-358 | head, begin, arms and tail cover the graph, and the tail is disjoint from the others |
| Branches.RestructureBranch | numba_rvsdg/core/transformations.py:391-457 | (`BranchRestructured`) a graph without sources or sinks fails with `RuntimeError`; otherwise the maps are the graph's and an `_imm_doms` error (`ImmDomsOutcome`) is returned; a forking block whose postdominator has no immediate dominator entry is `KeyError` (`LookupFails`); no branch pair gives `NoRegions`; otherwise a branch pair (`IsBranchPair`) is partitioned: no straight walk to `begin` is `AssertionError` (always without a unique head), `KeyError` or divergence, a failing arm search (`ArmFails`) is `KeyError`, and otherwise the head walk, one `ArmFor` arm per jump target and the remaining tail are collapsed in order, head, each arm with interior, tail (`RegionsCollapsed`), or the first failed extraction is returned (`CollapseFailed`). Every error before the collapse leaves the graph unchanged |
| Branches.BranchRegions | numba_rvsdg/core/transformations.py:393-403 | after the maps are computed: `KeyError` exactly as `LookupFails` says, `NoRegions` with the graph unchanged exactly when no branch pair exists, otherwise the first pair is partitioned as `PartitionRegion` states (`RegionStage`) |
| Branches.PartitionRegion | numba_rvsdg/core/transformations.py:402-407 | (`PairStage`) the head-walk errors whenever no straight walk reaches `begin` (`AssertionError` without a unique head), the arm search's `KeyError` exactly when an arm fails, both with the graph unchanged; otherwise the partition (`Partition`) followed by `RegionsCollapsed` or `CollapseFailed` |
| Branches.BranchRuntimeError | numba_rvsdg/core/transformations.py:391-457 | `restructure_branch` fails with `RuntimeError` exactly when the graph has no sources or no sinks; its only errors are `RuntimeError`, `KeyError`, `ValueError`, `AssertionError` and divergence of the head walk |
| Branches.RegionErrors | numba_rvsdg/core/transformations.py:400-457 | after the maps, the only errors are `KeyError`, `AssertionError` and divergence |
| Branches.PairErrors | numba_rvsdg/core/transformations.py:402-457 | partitioning and collapsing a branch pair fails only with `KeyError`, `AssertionError` or divergence |
| Branches.CollapseErrors | numba_rvsdg/core/transformations.py:451-457 | a failed collapse fails with `KeyError` or `AssertionError` |
| Branches.BranchOnReachedGraph | numba_rvsdg/core/transformations.py:393-400 | on a graph whose blocks are all reached from a source and all reach a sink, both `_imm_doms` calls succeed with the immediate (post)dominator tables in the path sense (`ImmediateTable`), and the rest follows `RegionStage` over them |
| Branches.TablesOnReachedGraph | numba_rvsdg/core/transformations.py:393-396 | on such a graph, the `_imm_doms` results of the graph's dominator and postdominator maps are both `Ok` and are the immediate (post)dominator tables |
| Branches.CollapseRegions | numba_rvsdg/core/transformations.py:451-457 | the head, each arm with interior blocks and the tail are extracted in turn; a success is `RegionsCollapsed`; a failure is `CollapseFailed`: the extractions before it succeeded as in `RegionsCollapsed`, and the failed one (`Extracted` with an error) leaves the graph they produced |
| Branches.ArmsSnoc | numba_rvsdg/core/transformations.py:452-456 | an arm chain followed by one more collapsed arm is a chain one arm longer |
| Branches.ArmsCollapsedStep | numba_rvsdg/core/transformations.py:452-456 | in an arm chain, the i-th arm turns the i-th graph into the next one |
| Transformations.LoopRotateForLoop | numba_rvsdg/core/transformations.py:93-116 | `loop_rotate_for_loop` on a block map in place: graph, counter and loop set change exactly as `ForRotation` says, including the `KeyError` after the copy was added when the header is outside the loop; the control-variable counter is unchanged |
| Transformations.LoopRotate | numba_rvsdg/core/transformations.py:119-266 | `loop_rotate` on a block map in place: the new graph, counter and loop set are an outcome of the old ones as `RotateOutcome` says, with the consequences `RotateOutcomeFacts` states, including the `RuntimeError` exactly when the rotated loop is not the fast case on a graph without sources |
| Transformations.ExtractRegion | numba_rvsdg/core/transformations.py:361-388 | `extract_region` on a block map in place: the graph changes as `Extracted` says, the region block taking the exiting block's `jump_targets` without its backedges, and the counter is unchanged |
| Transformations.RestructureLoop | numba_rvsdg/core/transformations.py:269-290 | `restructure_loop` on a block map in place: the graph and counter change as `LoopsRestructured` says, each loop region taking its exiting block's `jump_targets` without backedges; errors are among `StopIteration`, `KeyError`, `AssertionError` and `RuntimeError`; a rotation's `RuntimeError` only outside the fast case on a graph without sources |
| Transformations.RestructureBranch | numba_rvsdg/core/transformations.py:391-457 | `restructure_branch` on a block map in place: the graph changes as `BranchRestructured` says and the counter is unchanged; `RuntimeError` exactly when the graph has no sources or no sinks; errors among `RuntimeError`, `KeyError`, `ValueError`, `AssertionError` and divergence |
| AstBlocks.WBlock.SetJumpTargets | numba_rvsdg/core/datastructures/ast_transforms.py:35-37 | only the target list changes |
| AstBlocks.WBlock.SealOutsideLoop | numba_rvsdg/core/datastructures/ast_transforms.py:57-64 | the block ends sealed; a return keeps its targets; any other block jumps to the index |
| AstBlocks.WBlock.SealInsideLoop | numba_rvsdg/core/datastructures/ast_transforms.py:66-80 | `continue` jumps to the head, `break` to the exit, a return keeps its targets, anything else to the default |
| AstBlocks.SealInsideAgrees | numba_rvsdg/core/datastructures/ast_transforms.py:57-80 | without `break` or `continue`, sealing inside a loop equals sealing outside |
| AstBlocks.AstCfg.ReachableNames | numba_rvsdg/core/datastructures/ast_transforms.py:126-135 | the worklist from block 0 raises `KeyError` exactly when a reachable name is not a key, else returns exactly the reachable keys |
| AstBlocks.AstCfg.PruneUnreachable | numba_rvsdg/core/datastructures/ast_transforms.py:124-140 | `KeyError` (nothing changes) exactly when a reachable name is not a key; otherwise the reachable blocks stay in their order and the unreachable ones are returned |
| AstBlocks.PathInside | numba_rvsdg/core/datastructures/ast_transforms.py:129-135 | a set containing 0 and closed under jumps contains every path's end |
| AstBlocks.PrunedStaysReachable | numba_rvsdg/core/datastructures/ast_transforms.py:136-139 | a kept block is still reachable in the pruned dictionary |
| AstBlocks.Redirect | numba_rvsdg/core/datastructures/ast_transforms.py:152-162 | the block keeps its name, instructions and number of targets |
| AstBlocks.RedirectSlots | numba_rvsdg/core/datastructures/ast_transforms.py:153-162 | for one or two targets, only the first slot naming the removed block takes its successor |
| AstBlocks.AstCfg.RedirectAll | numba_rvsdg/core/datastructures/ast_transforms.py:152-162 | every block is redirected and the order is kept |
| AstBlocks.AstCfg.PruneEmpty | numba_rvsdg/core/datastructures/ast_transforms.py:142-163 | the loop over the snapshot of items computes `PruneEmptyOver`: the new dictionary on success, and the same error otherwise |
| AstBlocks.PruneEmptyOutcome | numba_rvsdg/core/datastructures/ast_transforms.py:142-163 | a successful pass removes exactly the empty blocks among the names and redirects each edge into one of them |
| AstBlocks.NoEmptyLeft | numba_rvsdg/core/datastructures/ast_transforms.py:145-147 | after a successful pass over every key, no block without instructions remains |
| AstBlocks.PruneEmptySucceeds | numba_rvsdg/core/datastructures/ast_transforms.py:146-149 | if every empty block has a jump target, the pass succeeds |
| AstBlocks.PruneEmptyDeadEnd | numba_rvsdg/core/datastructures/ast_transforms.py:149 | an empty block without a jump target makes the pass raise `IndexError` |
| AstBlocks.PruneEmptyErr | numba_rvsdg/core/datastructures/ast_transforms.py:142-163 | the pass raises only `IndexError` or `KeyError` |
| AstBlocks.PruneEmptyNoKeyError | numba_rvsdg/core/datastructures/ast_transforms.py:145-147 | over distinct keys of the dictionary, the pass never raises `KeyError` |
| AstTransforms.WithBlock | numba_rvsdg/core/datastructures/ast_transforms.py:207-211 | the new current block is an empty block under the given index |
| AstTransforms.WithSeal | numba_rvsdg/core/datastructures/ast_transforms.py:213-222 | outside a loop the current block is sealed by `seal_outside_loop`, inside by `seal_inside_loop` with the innermost loop's head and exit |
| AstTransforms.Lower | numba_rvsdg/core/datastructures/ast_transforms.py:238-241 | lowering a statement list keeps the loop stack; a trailing simple statement ends the current block |
| AstTransforms.LowerFunctionDef | numba_rvsdg/core/datastructures/ast_transforms.py:268-273 | an empty body raises `IndexError`; otherwise the current block ends in a return |
| AstTransforms.WhileHead | numba_rvsdg/core/datastructures/ast_transforms.py:307-336 | the header code pushes the loop's head and exit on the loop stack |
| AstTransforms.LowerNode | numba_rvsdg/core/datastructures/ast_transforms.py:243-266 | `handle_ast_node`: a success keeps the current block a key and the loop stack as it was; `LowerNodeSound`, `LowerNodeGrows`, `LowerNodeFinishes` and `LowerNodeClosed` give the dictionary's well-formedness, fresh keys, sealing and closed targets |
| AstTransforms.LowerIf | numba_rvsdg/core/datastructures/ast_transforms.py:275-303 | `handle_if`: a success keeps the current block a key and the loop stack as it was; `IfShape` gives the block layout and `LowerIfSound`, `LowerIfGrows`, `LowerIfFinishes` and `LowerIfClosed` the invariants |
| AstTransforms.LowerWhile | numba_rvsdg/core/datastructures/ast_transforms.py:305-350 | the loop stack is balanced again after a `while` |
| AstTransforms.ForHead | numba_rvsdg/core/datastructures/ast_transforms.py:353-396 | the for header pushes (head, head + 3) on the loop stack |
| AstTransforms.LowerFor | numba_rvsdg/core/datastructures/ast_transforms.py:352-424 | the loop stack is balanced again after a `for` (corrected: the `else` clause's last block is sealed; see Findings and Left out) |
| AstTransforms.LowerForAsWritten | numba_rvsdg/core/datastructures/ast_transforms.py:352-424 | the outermost `for` lowered as written, its `else` clause's last block left unsealed, with the same balanced loop stack; its body and `else` clause go through `Lower` |
| AstTransforms.IfShape | numba_rvsdg/core/datastructures/ast_transforms.py:277-289 | `if` takes three indices; the block before it gets the test and the targets (then, else); the then block is current and empty |
| AstTransforms.WhileShape | numba_rvsdg/core/datastructures/ast_transforms.py:307-336 | an empty current block is reused as header (two indices), else a new header follows it (three indices); the header tests and targets (body, exit); the body block is current; the loop is on top of the stack |
| AstTransforms.ForShape | numba_rvsdg/core/datastructures/ast_transforms.py:353-396 | four indices; the pre-header jumps to the header; the header targets (body, else); the body is current; (head, exit) is on top of the stack |
| AstTransforms.ForElseShape | numba_rvsdg/core/datastructures/ast_transforms.py:403-420 | after the body the loop is popped and the else block is current, restoring the target and jumping to the exit |
| AstTransforms.LowerSound | numba_rvsdg/core/datastructures/ast_transforms.py:207-424 | lowering keeps every block under its own name and once in the key order |
| AstTransforms.LowerNodeSound | numba_rvsdg/core/datastructures/ast_transforms.py:243-266 | as `LowerSound`, for one statement |
| AstTransforms.LowerIfSound | numba_rvsdg/core/datastructures/ast_transforms.py:275-303 | as `LowerSound`, for `if` |
| AstTransforms.LowerWhileSound | numba_rvsdg/core/datastructures/ast_transforms.py:305-350 | as `LowerSound`, for `while` |
| AstTransforms.LowerForSound | numba_rvsdg/core/datastructures/ast_transforms.py:352-424 | as `LowerSound`, for `for` |
| AstTransforms.LowerGrows | numba_rvsdg/core/datastructures/ast_transforms.py:207-424 | the block counter never goes back; new keys are fresh indices; blocks left behind are never rewritten |
| AstTransforms.LowerIfGrows | numba_rvsdg/core/datastructures/ast_transforms.py:275-303 | as `LowerGrows`, for `if` |
| AstTransforms.LowerWhileGrows | numba_rvsdg/core/datastructures/ast_transforms.py:305-350 | as `LowerGrows`, for `while` |
| AstTransforms.LowerForGrows | numba_rvsdg/core/datastructures/ast_transforms.py:352-424 | as `LowerGrows`, for `for` |
| AstTransforms.LowerFinishes | numba_rvsdg/core/datastructures/ast_transforms.py:207-424 | every block except the current one is sealed (has a target or returns) |
| AstTransforms.LowerIfFinishes | numba_rvsdg/core/datastructures/ast_transforms.py:293-303 | as `LowerFinishes`, for `if` |
| AstTransforms.LowerWhileFinishes | numba_rvsdg/core/datastructures/ast_transforms.py:341-350 | as `LowerFinishes`, for `while` |
| AstTransforms.LowerForFinishes | numba_rvsdg/core/datastructures/ast_transforms.py:401-424 | as `LowerFinishes`, for the corrected `for` |
| AstTransforms.LowerClosed | numba_rvsdg/core/datastructures/ast_transforms.py:207-424 | every jump target is a key or one of the indices still pending from enclosing handlers; keys are kept |
| AstTransforms.LowerIfClosed | numba_rvsdg/core/datastructures/ast_transforms.py:275-303 | as `LowerClosed`, for `if` |
| AstTransforms.LowerWhileClosed | numba_rvsdg/core/datastructures/ast_transforms.py:305-350 | as `LowerClosed`, for `while` |
| AstTransforms.LowerForClosed | numba_rvsdg/core/datastructures/ast_transforms.py:352-424 | as `LowerClosed`, for `for` |
| AstTransformer.GenesisInvariants | numba_rvsdg/core/datastructures/ast_transforms.py:181-195 | the initial state (block 0, counter 1, empty stack) satisfies the lowering invariants |
| AstTransformer.LoweredFunction | numba_rvsdg/core/datastructures/ast_transforms.py:224-232 | a lowered function has a well-formed dictionary with block 0, targets all keys and no empty dead end |
| AstTransformer.ReachableKeys | numba_rvsdg/core/datastructures/ast_transforms.py:124-135 | when every target is a key, every reachable name is a key and `prune_unreachable` cannot fail |
| AstTransformer.KeptWellFormed | numba_rvsdg/core/datastructures/ast_transforms.py:136-139 | pruning unreachable blocks keeps the dictionary well formed and introduces no empty dead end |
| AstTransformer.TransformSucceeds | numba_rvsdg/core/datastructures/ast_transforms.py:224-236 | once lowering succeeds, `transform` raises nothing, and with pruning no empty block remains |
| AstTransformer.AsWrittenDeadEnd | numba_rvsdg/core/datastructures/ast_transforms.py:409-424 | as written, the for-else-if function (`for i in x: a` with `else: if c: b`, then `return y`) leaves its end-if block reachable, empty and without targets, so the pruning passes raise `IndexError` |
| AstTransformer.ForElseIfDeadEnd | numba_rvsdg/core/datastructures/ast_transforms.py:409-424 | the concrete for-else-if function: as written it lowers, then `prune_empty` fails with `IndexError`; the corrected lowering transforms it |
| AstTransformer.ForElseIfFixed | numba_rvsdg/core/datastructures/ast_transforms.py:409-424 | the corrected lowering transforms the for-else-if function without error |
| AstTransformer.Transformer.constructor | numba_rvsdg/core/datastructures/ast_transforms.py:181-195 | the fields are the genesis state and the prune flag |
| AstTransformer.Transformer.AddBlock | numba_rvsdg/core/datastructures/ast_transforms.py:207-211 | the state becomes `WithBlock` |
| AstTransformer.Transformer.Append | numba_rvsdg/core/datastructures/ast_transforms.py:258 | the state becomes `WithInstr` |
| AstTransformer.Transformer.SetJumpTargets | numba_rvsdg/core/datastructures/ast_transforms.py:35-37 | the state becomes `WithTargets` |
| AstTransformer.Transformer.Seal | numba_rvsdg/core/datastructures/ast_transforms.py:213-222 | the state becomes `WithSeal` |
| AstTransformer.Transformer.Codegen | numba_rvsdg/core/datastructures/ast_transforms.py:238-241 | the loop leaves the state `Lower` computes, or its error |
| AstTransformer.Transformer.HandleAstNode | numba_rvsdg/core/datastructures/ast_transforms.py:243-266 | the dispatch leaves the state `LowerNode` computes, or its error |
| AstTransformer.Transformer.HandleFunctionDef | numba_rvsdg/core/datastructures/ast_transforms.py:268-273 | the state `LowerFunctionDef` computes, or its error |
| AstTransformer.Transformer.HandleIf | numba_rvsdg/core/datastructures/ast_transforms.py:275-303 | the state `LowerIf` computes, or its error |
| AstTransformer.Transformer.HandleWhile | numba_rvsdg/core/datastructures/ast_transforms.py:305-350 | the state `LowerWhile` computes, or its error |
| AstTransformer.Transformer.HandleFor | numba_rvsdg/core/datastructures/ast_transforms.py:352-424 | the state the corrected `LowerFor` computes, or its error |
| AstTransformer.Transformer.Transform | numba_rvsdg/core/datastructures/ast_transforms.py:224-236 | succeeds exactly when `Transformed` does, leaving its dictionary and order, or raises its error |
| AstHandler02.TerminatorIsReturn | numba_rvsdg/core/datastructures/ast_handler02.py:24-26 | `is_terminator` is exactly `is_return` |
| AstHandler02.Seal | numba_rvsdg/core/datastructures/ast_handler02.py:127-128 | sealing an arm keeps the current block and the stack |
| AstHandler02.SealAgrees | numba_rvsdg/core/datastructures/ast_handler02.py:127-128 | outside loops the prototype's arm sealing is `seal_outside_loop` |
| AstHandler02.ArmSealed | numba_rvsdg/core/datastructures/ast_handler02.py:127-128 | the arm's block keeps name and instructions; a terminator keeps its targets, others jump to end-if |
| AstHandler02.ProtoLower | numba_rvsdg/core/datastructures/ast_handler02.py:74-77 | lowering keeps the stack; a trailing simple statement ends the current block |
| AstHandler02.ProtoLowerNode | numba_rvsdg/core/datastructures/ast_handler02.py:84-100 | `while` changes nothing; `for` raises `AttributeError`; `break`, `continue` and unsupported nodes raise `NotImplementedError` |
| AstHandler02.ProtoLowerFunctionDef | numba_rvsdg/core/datastructures/ast_handler02.py:102-107 | an empty body raises `IndexError`; otherwise the current block is a terminator |
| AstHandler02.ProtoLowerIf | numba_rvsdg/core/datastructures/ast_handler02.py:109-139 | an `if` keeps the stack |
| AstHandler02.LowerAgrees | numba_rvsdg/core/datastructures/ast_handler02.py:74-139 | on loop-free trees without `break`/`continue`, the prototype lowers exactly as `AST2SCFGTransformer` |
| AstHandler02.LowerNodeAgrees | numba_rvsdg/core/datastructures/ast_handler02.py:84-100 | as `LowerAgrees`, for one statement |
| AstHandler02.LowerFunctionDefAgrees | numba_rvsdg/core/datastructures/ast_handler02.py:102-107 | as `LowerAgrees`, for a function definition |
| AstHandler02.LowerIfAgrees | numba_rvsdg/core/datastructures/ast_handler02.py:109-139 | as `LowerAgrees`, for `if` |
| AstHandler02.Handler.constructor | numba_rvsdg/core/datastructures/ast_handler02.py:50-60 | the fields form the genesis state |
| AstHandler02.Handler.AddBlock | numba_rvsdg/core/datastructures/ast_handler02.py:79-82 | the state becomes `WithBlock` |
| AstHandler02.Handler.Append | numba_rvsdg/core/datastructures/ast_handler02.py:92 | the state becomes `WithInstr` |
| AstHandler02.Handler.SetJumpTargets | numba_rvsdg/core/datastructures/ast_handler02.py:120 | the state becomes `WithTargets` |
| AstHandler02.Handler.SealArm | numba_rvsdg/core/datastructures/ast_handler02.py:127-128 | the state becomes `Seal` |
| AstHandler02.Handler.Codegen | numba_rvsdg/core/datastructures/ast_handler02.py:74-77 | the state `ProtoLower` computes, or its error |
| AstHandler02.Handler.HandleAstNode | numba_rvsdg/core/datastructures/ast_handler02.py:84-100 | the state `ProtoLowerNode` computes, or its error |
| AstHandler02.Handler.HandleFunctionDef | numba_rvsdg/core/datastructures/ast_handler02.py:102-107 | the state `ProtoLowerFunctionDef` computes, or its error |
| AstHandler02.Handler.HandleIf | numba_rvsdg/core/datastructures/ast_handler02.py:109-139 | the state `ProtoLowerIf` computes, or its error |
| AstHandler02.Handler.HandleWhile | numba_rvsdg/core/datastructures/ast_handler02.py:141-142 | does nothing and succeeds |
| AstHandler02.Handler.Process | numba_rvsdg/core/datastructures/ast_handler02.py:62-72 | an empty tree raises `IndexError`; a first statement that is not a function definition raises `AssertionError`; otherwise the state `ProtoLower` computes |
| AstHandler02.Handler.PruneEmpty | numba_rvsdg/core/datastructures/ast_handler02.py:144-162 | the loop computes `PruneEmptyOver` on the blocks in key order: succeeds exactly when it does, with its dictionary and order, else its error |
| AstHandler02.Handler.RedirectAll | numba_rvsdg/core/datastructures/ast_handler02.py:152-162 | every block is redirected and the order is kept |

## Left out

- Parsing, `inspect.getsource`, `textwrap` and `ast.unparse` are out of scope. Statements are an
  abstract tree, and the code that `handle_for` generates becomes opaque `ForInstr` tokens.
- Rendering, printing and logging are left out. This covers `render`, `__repr__`, `print` and
  `_logger` calls.
- The export adapters are left out: `convert_blocks`, `to_dict`, `to_yaml`, `to_SCFG`,
  `transform_to_SCFG`, `AST2SCFG`, `convert` and `SCFG2AST`. They build other data
  structures for display or for a different package.
- `compute_scc` is not part of this model. `restructure_loop` takes the components as a
  parameter.
- The block map's helpers are not part of this model: `find_headers_and_entries`,
  `find_exiting_and_exits`, `find_head`, `insert_block_and_control_blocks`,
  `is_reachable_dfs` and `remove_blocks`. They are defined in Cfg from how the core uses
  them.
- Branches.RestructureBranch: the tail-header unification, synthetic tails and synthetic
  branches are not modelled (source lines 412-441), nor the recomputation of the regions
  after them. `join_tails_and_exits` is not part of this model, so the method extracts the
  regions of the first partition.
- Transformations.RestructureBranch: it inherits the omission of source lines 412-441 from
  `Branches.RestructureBranch`. The source's `clg.new_index()` calls at lines 415 and 436
  advance the name counter; the model's counter stays unchanged only because those lines are
  left out.
- Synthetic labels are not modelled as concrete numbers. They are a kind plus the
  generator's index. Python's `str` names of AST blocks are natural numbers.
- Iteration order of Python sets is a free choice in the model. The order `dict` iterates
  the block map in is not modelled either. The AST dictionary's key order is modelled,
  because `prune_empty`'s result depends on it.
- `_find_branch_regions` is not modelled. It is dead code that returns an empty list, or raises
  `KeyError` when `begin` is not a key of the block map.
- `ast_handler.py` is not part of this model. It is an older prototype and is not
  modelled.
- `handle_function_def` modifies the AST by appending `Return(None)` to the function's body.
  The model appends that return to the lowered statements and does not change the tree.
- `handle_while` ignores a `while` loop's `else` clause. So does the model.
- Nothing proves a concrete end-to-end scenario for `while` with `break` and `continue`.
  WhileShape, the seal rules and the families of invariants describe the blocks it builds.
- AstTransforms.Lower: its own `ensures` state only liveness, the loop stack and the last
  simple statement. The contents of the blocks it builds are stated by the Sound, Grows,
  Finishes and Closed families (`LowerSound`, `LowerGrows`, `LowerFinishes`, `LowerClosed`).
- AstTransforms.LowerNode: its own `ensures` state only liveness and the loop stack; the
  contents come from `LowerNodeSound`, `LowerNodeGrows`, `LowerNodeFinishes` and `LowerNodeClosed`.
- AstTransforms.LowerIf: its own `ensures` state only liveness and the loop stack; the contents
  come from `IfShape` and the `LowerIf` members of the four families.
- AstTransforms.LowerWhile: its own `ensures` state only liveness and the loop stack; the
  contents come from `WhileShape` and the `LowerWhile` members of the four families.
- AstTransforms.LowerFor: its own `ensures` state only liveness and the loop stack; the
  contents come from `ForShape`, `ForElseShape` and the `LowerFor` members of the four families.
- AstHandler02.ProtoLower: its own `ensures` state only liveness and the loop stack; the
  contents come from `AstHandler02.ArmSealed` and `AstHandler02.LowerAgrees`.
- AstHandler02.ProtoLowerIf: its own `ensures` state only liveness and the loop stack; the
  contents come from `AstHandler02.ArmSealed` and `AstHandler02.LowerIfAgrees`.
- Branches.RestructureBranch: `find_branch_regions` recomputes `_doms`, `_post_doms` and both
  `_imm_doms` on the unchanged graph (source lines 311-314). The model reuses the maps
  `restructure_branch` has just computed, since the same computation on the same graph succeeds
  again, and of the recomputed maps only `doms` is used. `Branches.FindBranchRegions` models the
  recomputation on its own.
- Loops.LoopRegionTargets: on the fast path the model keeps what the code does. The exiting
  block loses only its edges to the head, which are its backedges, so a loop region can keep
  a target inside the loop other than the head. The lemma states that no loop block is a
  target only for the general path.
- Cfg.InsertBlockAndControlBlocks: `block_map.py` is not part of this model. The stand-in adds
  the branch block and redirects the entry edges, but inserts no control-variable assignment
  blocks on the redirected edges.
- AstTransforms.LowerFor: the correction seals the block the `else` clause ends in, as the
  other handlers do. It differs from the code as written in two cases. (a) With no compound
  statement in the clause, the clause ends in the else block, whose `exit_index` target (source
  line 411 of `ast_transforms.py`) survives as written; only a trailing `break` or `continue`
  differs, which the correction sends to the enclosing loop's exit or head. (b) After a nested
  `if`, `while` or `for` in the clause, the block left open at the end has no target as written
  (see "## Findings"), and the correction seals it.
- AstTransforms.LowerForAsWritten: only the outermost `for` follows source lines 352-424 as
  written. Its body and `else` clause are lowered by `Lower`, which sends a nested `for` to the
  corrected `LowerFor`, so a nested `for` gets the seal while the source leaves it unsealed at
  every depth. The concrete function of "## Findings" has no nested `for`.

## Findings

| source | as written | input that shows it | evidently intended | confidence | as-written member | corrected member |
|---|---|---|---|---|---|---|
| numba_rvsdg/core/datastructures/ast_transforms.py:420-424 | `handle_for` lowers the `else` clause and calls `add_block(exit_index)` without sealing the block that ends the clause. An `else` clause ending in an `if` leaves that `if`'s empty end-if block without a jump target. When that end-if block is reachable (an arm of the `if` does not end in `return`), `prune_unreachable` keeps it and `prune_empty` reads `jump_targets[0]` of an empty list | `def f(): for i in x: a; else: if c: b; return y` is lowered, and pruning raises `IndexError` | the clause's last block is sealed towards `exit_index`, as `handle_if` and `handle_while` seal their arms (sealing also sends a trailing `break` or `continue` to the enclosing loop instead of `exit_index`) | not executed | AstTransformer.ForElseIfDeadEnd | AstTransformer.TransformSucceeds |
