/**
 * The passes of numba_rvsdg/core/transformations.py as they are called: on a
 * block map, whose graph and label generator they update in place. Each reads
 * both fields, runs the pass on their values and stores the results back.
 */
module Transformations {
  import opened Cfg
  import Dominators
  import Regions
  import Loops
  import Branches

  /** `loop_rotate_for_loop`: the loop set comes back with the header replaced by its synthetic copy. */
  method LoopRotateForLoop(bbmap: BlockMap, loop: set<Label>) returns (r: Result<Loops.ForIterRotation>, loop': set<Label>)
    requires bbmap.Valid()
    modifies bbmap
    ensures bbmap.Valid() && bbmap.clg.variable == old(bbmap.clg.variable)
    ensures Loops.ForRotation(old(bbmap.graph), old(bbmap.clg), loop, r, bbmap.graph, bbmap.clg, loop')
  {
    var g', clg';
    r, g', clg', loop' := Loops.RotateForLoop(bbmap.graph, bbmap.clg, loop);
    bbmap.graph, bbmap.clg := g', clg';
  }

  /** `loop_rotate`: the loop set comes back with the blocks the rotation added to the loop. */
  method LoopRotate(bbmap: BlockMap, loop: set<Label>) returns (r: Result<Loops.Rotation>, loop': set<Label>)
    requires bbmap.Valid()
    modifies bbmap
    ensures bbmap.Valid() && old(bbmap.clg.index) <= bbmap.clg.index && old(bbmap.clg.variable) <= bbmap.clg.variable
    ensures Loops.RotateOutcome(old(bbmap.graph), old(bbmap.clg), loop, r, bbmap.graph, bbmap.clg, loop')
    ensures r.Err? ==> r.error in {AssertionError, KeyError, RuntimeError}
    ensures r.Ok? ==> loop' <= bbmap.graph.Keys
    ensures r.Ok? && r.value.FastPath? ==> forall l | l in loop' :: bbmap.graph[l].backedges == [r.value.loopHead]
    ensures r.Ok? && r.value.GeneralPath? ==> Loops.GeneralShape(r.value.plan, bbmap.graph, loop')
  {
    var g', clg';
    r, g', clg', loop' := Loops.Rotate(bbmap.graph, bbmap.clg, loop);
    Loops.RotateOutcomeFacts(bbmap.graph, bbmap.clg, loop, r, g', clg', loop');
    bbmap.graph, bbmap.clg := g', clg';
  }

  /** `extract_region`: the blocks of `sub` collapsed into a region block under the header's label. */
  method ExtractRegion(bbmap: BlockMap, sub: set<Label>, kind: RegionKind) returns (r: Result<Label>)
    requires bbmap.Valid()
    modifies bbmap
    ensures bbmap.Valid() && bbmap.clg == old(bbmap.clg)
    ensures Regions.Extracted(old(bbmap.graph), sub, kind, r, bbmap.graph)
  {
    var g';
    r, g' := Regions.ExtractRegion(bbmap.graph, sub, kind);
    if r.Ok? {
      Regions.ExtractedBounded(bbmap.graph, sub, kind, r.value, g', bbmap.clg.index);
    }
    bbmap.graph := g';
  }

  /**
   * `restructure_loop`, with the strongly connected components of the graph
   * given as `scc`. The source returns `None`; the selected loops returned
   * here are an extra output of the model, which the contract refers to.
   */
  method RestructureLoop(bbmap: BlockMap, scc: seq<set<Label>>) returns (r: Result<seq<set<Label>>>)
    requires bbmap.Valid()
    modifies bbmap
    ensures bbmap.Valid() && old(bbmap.clg.index) <= bbmap.clg.index && old(bbmap.clg.variable) <= bbmap.clg.variable
    ensures Loops.LoopsRestructured(old(bbmap.graph), old(bbmap.clg), scc, r, bbmap.graph, bbmap.clg)
    ensures r.Err? ==> r.error in {StopIteration, KeyError, AssertionError, RuntimeError}
  {
    var g', clg';
    r, g', clg' := Loops.RestructureLoops(bbmap.graph, bbmap.clg, scc);
    bbmap.graph, bbmap.clg := g', clg';
  }

  /** `restructure_branch`, without the synthetic tail and branch insertions; the counter is unchanged only because those are left out. */
  method RestructureBranch(bbmap: BlockMap) returns (r: Result<Branches.BranchOutcome>)
    requires bbmap.Valid()
    modifies bbmap
    ensures bbmap.Valid() && bbmap.clg == old(bbmap.clg)
    ensures Branches.BranchRestructured(old(bbmap.graph), r, bbmap.graph)
    ensures r == Err(RuntimeError) <==> Dominators.Sources(old(bbmap.graph)) == {} || Dominators.Sinks(old(bbmap.graph)) == {}
    ensures r.Err? ==> r.error in {RuntimeError, KeyError, ValueError, AssertionError, Diverges}
  {
    var g';
    r, g' := Branches.RestructureBranch(bbmap.graph, bbmap.clg);
    Branches.BranchRuntimeError(bbmap.graph, r, g');
    bbmap.graph := g';
  }
}
