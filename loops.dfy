/**
 * Loop restructuring: selecting loops among the strongly connected
 * components, rotating a for loop so that a synthetic copy of its FOR_ITER
 * block controls the backedge, putting a loop into canonical form (one
 * exiting latch, one synthetic exit and the value tables between them),
 * and collapsing the rotated loop into a region block.
 *
 * Every pass works on the contents of the block map (its graph and its
 * label generator); the methods of `Transformations` read both fields of a
 * `BlockMap`, run the pass and store the results back.
 */
module Loops {
  import opened Cfg
  import opened Dominators
  import opened Regions

  /** The labels a for-loop rotation touched: the FOR_ITER header and its synthetic copy. */
  datatype ForIterRotation = ForIterRotation(forIter: Label, synth: Label)

  /** The block of a loop member after the for-loop rotation rewired its first edge to the header. */
  function Rewired(b: Block, forIter: Label, synth: Label): Block {
    b.ReplaceJumpTargets(ReplaceFirst(b.Targets(), forIter, synth))
  }

  /**
   * The outcome of `loop_rotate_for_loop` on `g`, `clg` and `loop`. A failed
   * header computation, a loop label that is not a key or a header count
   * other than one fails with nothing changed. Otherwise a fresh
   * `SyntheticForIter` copy of the header, with the header's jump targets, is
   * added. A header outside the loop (the graph's head, which the header
   * computation falls back to when nothing enters the loop) then fails the
   * removal from the loop set with `KeyError`, the copy staying in the graph.
   * A header inside the loop leaves the loop set, the copy joins it, and in
   * every other loop block the first edge to the header goes to the copy.
   */
  ghost predicate ForRotation(g: Graph, clg: NameGen, loop: set<Label>, r: Result<ForIterRotation>,
                              g': Graph, clg': NameGen, loop': set<Label>)
  {
    var hs := HeadersOf(g, loop);
    var synth := Label(SyntheticForIter, clg.index);
    && (r.Err? <==> hs.Err? || !(loop <= g.Keys) || |hs.value| != 1 || !(hs.value <= loop))
    && (r.Err? ==> r.error in {KeyError, AssertionError})
    && (r.Err? ==> (r.error == KeyError <==> hs.Ok? && (!(loop <= g.Keys) || |hs.value| == 1)))
    && (hs.Err? || !(loop <= g.Keys) || |hs.value| != 1 ==> g' == g && clg' == clg && loop' == loop)
    && (hs.Ok? && loop <= g.Keys && |hs.value| == 1 ==>
          && synth !in g && clg' == clg.(index := clg.index + 1) && g'.Keys == g.Keys + {synth}
          && forall h | h in hs.value ::
               && h in g && g'[synth] == Basic(g[h].Targets(), [])
               && if h in loop then
                    && r == Ok(ForIterRotation(h, synth)) && loop' == loop - {h} + {synth}
                    && (forall l | l in loop && l != h :: g'[l] == Rewired(g[l], h, synth))
                    && (forall l | l in g && (l !in loop || l == h) :: g'[l] == g[l])
                  else
                    r == Err(KeyError) && loop' == loop && forall l | l in g :: g'[l] == g[l])
  }

  /**
   * Rotation of a Python for loop. The single header is replicated into a
   * fresh `SyntheticForIter` block with the header's jump targets; the header
   * leaves the loop set, the copy joins it, and in every other loop block the
   * first edge to the header is redirected to the copy.
   */
  method RotateForLoop(g: Graph, clg: NameGen, loop: set<Label>)
    returns (r: Result<ForIterRotation>, g': Graph, clg': NameGen, loop': set<Label>)
    requires Bounded(g, clg.index)
    ensures Bounded(g', clg'.index) && clg'.variable == clg.variable
    ensures ForRotation(g, clg, loop, r, g', clg', loop')
  {
    var headers := HeadersOf(g, loop);
    if headers.Err? {
      return Err(AssertionError), g, clg, loop;
    }
    if !(loop <= g.Keys) {
      return Err(KeyError), g, clg, loop;
    }
    if |headers.value| != 1 {
      return Err(AssertionError), g, clg, loop;
    }
    var forIter := Single(headers.value);
    HeadersWithin(g, loop);
    var synth := Label(SyntheticForIter, clg.index);
    BoundedFresh(g, clg.index, SyntheticForIter);
    clg' := clg.(index := clg.index + 1);
    BoundedRaise(g, clg.index, clg'.index);
    var copy := Basic(g[forIter].Targets(), []);
    BoundedUpdate(g, synth, copy, clg'.index);
    if forIter !in loop {
      return Err(KeyError), g[synth := copy], clg', loop;
    }
    g' := RedirectToCopy(g[synth := copy], loop - {forIter}, forIter, synth, clg'.index);
    loop' := loop - {forIter} + {synth};
    r := Ok(ForIterRotation(forIter, synth));
  }

  /** The rewiring loop of the for-loop rotation: each member's first edge to `forIter` now goes to `synth`. */
  method RedirectToCopy(g: Graph, members: set<Label>, forIter: Label, synth: Label, next: nat) returns (g': Graph)
    requires members <= g.Keys && Bounded(g, next) && Below(synth, next)
    ensures Bounded(g', next) && g'.Keys == g.Keys
    ensures forall l | l in g :: g'[l] == if l in members then Rewired(g[l], forIter, synth) else g[l]
  {
    g' := g;
    var todo := members;
    while todo != {}
      invariant todo <= members
      invariant Bounded(g', next) && g'.Keys == g.Keys
      invariant forall l | l in g :: g'[l] == if l in members - todo then Rewired(g[l], forIter, synth) else g[l]
      decreases |todo|
    {
      var l :| l in todo;
      todo := todo - {l};
      assert TargetsBelow(Rewired(g'[l], forIter, synth), next) by {
        var jt := g'[l].Targets();
        forall t | t in jt ensures Below(t, next) {
          assert t in g'[l].jumpTargets;
        }
      }
      BoundedUpdate(g', l, Rewired(g'[l], forIter, synth), next);
      g' := g'[l := Rewired(g'[l], forIter, synth)];
    }
  }

  /** `list.remove(h)`: the first occurrence of `h` dropped. */
  function RemoveFirst(xs: seq<Label>, h: Label): (r: seq<Label>)
    requires h in xs
    ensures multiset(r) == multiset(xs) - multiset{h}
  {
    var i := IndexOf(xs, h);
    assert xs == xs[..i] + [h] + xs[i + 1..];
    xs[..i] + xs[i + 1..]
  }

  /** `for h in headers: if h in jts: jts.remove(h)`: one occurrence of each header dropped. */
  method RemoveHeaders(jts: seq<Label>, headers: set<Label>) returns (r: seq<Label>)
    ensures multiset(r) == multiset(jts) - multiset(headers)
    ensures forall x | x in r :: x in jts
  {
    r := jts;
    var todo := headers;
    ghost var done: set<Label> := {};
    while todo != {}
      invariant todo <= headers && done == headers - todo
      invariant multiset(r) == multiset(jts) - multiset(done)
      decreases |todo|
    {
      var h :| h in todo;
      todo := todo - {h};
      r := RemoveIfPresent(jts, r, done, h);
      done := done + {h};
    }
    DifferenceWithin(jts, headers, r);
  }

  /** One iteration of `RemoveHeaders`: `if h in jts: jts.remove(h)`. */
  method RemoveIfPresent(jts: seq<Label>, r: seq<Label>, ghost done: set<Label>, h: Label) returns (r': seq<Label>)
    requires multiset(r) == multiset(jts) - multiset(done) && h !in done
    ensures multiset(r') == multiset(jts) - multiset(done + {h})
  {
    RemoveStep(jts, r, done, h);
    r' := if h in r then RemoveFirst(r, h) else r;
  }

  lemma DifferenceWithin(jts: seq<Label>, headers: set<Label>, r: seq<Label>)
    requires multiset(r) == multiset(jts) - multiset(headers)
    ensures forall x | x in r :: x in jts
  {
    forall x | x in r ensures x in jts {
      assert x in multiset(r);
      assert multiset(jts)[x] >= multiset(r)[x];
    }
  }

  lemma RemoveStep(jts: seq<Label>, r: seq<Label>, done: set<Label>, h: Label)
    requires multiset(r) == multiset(jts) - multiset(done) && h !in done
    ensures h in r ==> multiset(RemoveFirst(r, h)) == multiset(jts) - multiset(done + {h})
    ensures h !in r ==> multiset(r) == multiset(jts) - multiset(done + {h})
  {
    var after := multiset(jts) - multiset(done + {h});
    if h in r {
      forall x ensures multiset(RemoveFirst(r, h))[x] == after[x] {
        if x == h {
        }
      }
    } else {
      assert multiset(r)[h] == 0;
      forall x ensures multiset(r)[x] == after[x] {
        if x == h {
        }
      }
    }
  }

  /**
   * `reverse_lookup`: the first key of the value table that maps to
   * `value`, or "UNUSED" when no key does.
   */
  function ReverseLookup(table: seq<Label>, value: Label): (r: Value)
    ensures r.Unused? <==> value !in table
    ensures r.Num? ==> r.n < |table| && table[r.n] == value
    ensures r.Num? ==> forall j | 0 <= j < r.n :: table[j] != value
  {
    if value in table then Num(IndexOf(table, value)) else Unused
  }

  /**
   * What the general path of the loop rotation fixed before rewiring: the
   * loop head, the fresh latch and exit labels, the two control variables,
   * the exit and header value tables, the headers, the exit blocks and the
   * dominator map of the graph as it was before the rewiring.
   */
  datatype LatchPlan = LatchPlan(
    loopHead: Label, latch: Label, synthExit: Label,
    backedgeVar: Variable, exitVar: Variable,
    exitTable: seq<Label>, headerTable: seq<Label>,
    headers: set<Label>, exits: set<Label>, doms: DomMap)

  /** The latch's value table: 0 continues at the loop head, 1 leaves through the synthetic exit. */
  function BackedgeTable(p: LatchPlan): seq<Label> {
    [p.loopHead, p.synthExit]
  }

  /** Whether the edge from `l` to `jt` is redirected through an assignment block. */
  predicate Taken(p: LatchPlan, l: Label, jt: Label) {
    jt in p.exits || (jt in p.headers && jt in p.doms && l !in p.doms[jt])
  }

  /** The assignment stored by the block that replaces an edge to `jt`. */
  function Assignment(p: LatchPlan, jt: Label): map<Variable, Value> {
    if jt in p.exits then
      map[p.backedgeVar := ReverseLookup(BackedgeTable(p), p.synthExit), p.exitVar := ReverseLookup(p.exitTable, jt)]
    else
      map[p.backedgeVar := ReverseLookup(BackedgeTable(p), p.loopHead), p.exitVar := ReverseLookup(p.headerTable, jt)]
  }

  function AssignBlock(p: LatchPlan, jt: Label): Block {
    ControlVariable([p.latch], [], Assignment(p, jt))
  }

  /**
   * An exit edge to `jt` stores 1 in the backedge variable, which the latch
   * maps to the synthetic exit, and in the exit variable the key that the
   * synthetic exit's table maps back to `jt`.
   */
  lemma ExitAssignmentRoundTrip(p: LatchPlan, jt: Label)
    requires jt in p.exits && Elems(p.exitTable) == p.exits
    requires p.backedgeVar != p.exitVar && p.loopHead != p.synthExit
    ensures Assignment(p, jt)[p.backedgeVar] == Num(1) && BackedgeTable(p)[1] == p.synthExit
    ensures Assignment(p, jt)[p.exitVar].Num? && p.exitTable[Assignment(p, jt)[p.exitVar].n] == jt
  {
  }

  /**
   * A redirected edge back to a header `jt` stores 0 in the backedge
   * variable, which the latch maps to the loop head, and in the exit variable
   * the key of `jt` in the header table, "UNUSED" when it has none.
   */
  lemma HeaderAssignmentRoundTrip(p: LatchPlan, jt: Label)
    requires jt !in p.exits
    requires p.backedgeVar != p.exitVar
    ensures Assignment(p, jt)[p.backedgeVar] == Num(0) && BackedgeTable(p)[0] == p.loopHead
    ensures jt in p.headerTable ==> p.headerTable[Assignment(p, jt)[p.exitVar].n] == jt
    ensures jt !in p.headerTable ==> Assignment(p, jt)[p.exitVar] == Unused
  {
  }

  /**
   * Block `l` of `g` has been rewired in `g'`: same number of jump targets,
   * other fields kept, every redirected edge now leads to a fresh assignment
   * block for its old target, and every other edge is kept.
   */
  ghost predicate RewiredAt(p: LatchPlan, g: Graph, g': Graph, l: Label) {
    l in g && l in g' &&
    var before := g[l].Targets();
    var after := g'[l].jumpTargets;
    g'[l] == g[l].ReplaceJumpTargets(after) && |after| == |before| &&
    forall j | 0 <= j < |before| ::
      if Taken(p, l, before[j]) then after[j] in g' && after[j] !in g && g'[after[j]] == AssignBlock(p, before[j])
      else after[j] == before[j]
  }

  lemma RewiredAtStable(p: LatchPlan, g: Graph, g1: Graph, g2: Graph, l: Label, l2: Label)
    requires RewiredAt(p, g, g1, l) && l != l2 && (l2 in g || l2 !in g1)
    requires g1.Keys <= g2.Keys && forall x | x in g1 && x != l2 :: g2[x] == g1[x]
    ensures RewiredAt(p, g, g2, l)
  {
  }

  lemma RewiredAtRebase(p: LatchPlan, g0: Graph, g1: Graph, g2: Graph, l: Label)
    requires RewiredAt(p, g1, g2, l) && l in g0 && g1[l] == g0[l] && g0.Keys <= g1.Keys
    ensures RewiredAt(p, g0, g2, l)
  {
  }

  /** The new blocks of the general path: assignment blocks that jump to the latch. */
  ghost predicate AssignBlocks(p: LatchPlan, g: Graph, added: set<Label>, c: nat) {
    forall a | a in added :: a in g && !Below(a, c) && g[a].ControlVariable? && g[a].jumpTargets == [p.latch] && g[a].backedges == []
  }

  /** The state of `RewireBlock` after it has visited the first `k` jump targets of `src`. */
  ghost predicate EdgesSoFar(p: LatchPlan, g: Graph, src: Label, c: nat, g': Graph, c': nat, added: set<Label>,
                             newJt: seq<Label>, k: nat)
  {
    EdgeFrame(p, g, src, c, g', c', added) && EdgeTargets(p, g, src, g', added, newJt, k)
  }

  /** What `RewireBlock` has changed so far: only `src`'s jump targets, and fresh assignment blocks added. */
  ghost predicate EdgeFrame(p: LatchPlan, g: Graph, src: Label, c: nat, g': Graph, c': nat, added: set<Label>) {
    src in g && c <= c' && Bounded(g', c') && AddedBlocks(p, g, c, g', c', added) && KeptBlocks(g, src, g')
  }

  /** The blocks added to `g` are assignment blocks issued between the counters `c` and `c'`. */
  ghost predicate AddedBlocks(p: LatchPlan, g: Graph, c: nat, g': Graph, c': nat, added: set<Label>) {
    added !! g.Keys && g'.Keys == g.Keys + added && AssignBlocks(p, g', added, c) &&
    (forall a | a in added :: Below(a, c'))
  }

  /** Every block of `g` is kept in `g'`, except for the jump targets of `src`. */
  ghost predicate KeptBlocks(g: Graph, src: Label, g': Graph) {
    src in g && src in g' &&
    (forall l | l in g && l != src :: l in g' && g'[l] == g[l]) &&
    g'[src] == g[src].ReplaceJumpTargets(g'[src].jumpTargets)
  }

  /** The new target list after `k` positions: replaced where the edge is taken, kept elsewhere. */
  ghost predicate EdgeTargets(p: LatchPlan, g: Graph, src: Label, g': Graph, added: set<Label>, newJt: seq<Label>, k: nat) {
    src in g && k <= |g[src].Targets()| &&
    var jts := g[src].Targets();
    |newJt| == |jts| && newJt[k..] == jts[k..] &&
    forall j | 0 <= j < k ::
      if Taken(p, src, jts[j]) then newJt[j] in added && newJt[j] in g' && g'[newJt[j]] == AssignBlock(p, jts[j])
      else newJt[j] == jts[j]
  }

  /**
   * The rewiring of one exiting or backedge block (the inner loop of the
   * general path): each edge to an exit block or, from a block that does not
   * dominate the header, to a header, is replaced by a fresh assignment block.
   */
  method RewireBlock(g: Graph, c: nat, src: Label, p: LatchPlan) returns (g': Graph, c': nat, added: set<Label>)
    requires src in g && Bounded(g, c) && Below(p.latch, c) && p.headers <= p.doms.Keys
    ensures c <= c' && Bounded(g', c')
    ensures added !! g.Keys && g'.Keys == g.Keys + added && AssignBlocks(p, g', added, c)
    ensures forall l | l in g && l != src :: g'[l] == g[l]
    ensures RewiredAt(p, g, g', src)
  {
    var jts := g[src].Targets();
    var newJt := jts;
    g', c', added := g, c, {};
    for k := 0 to |jts|
      invariant EdgesSoFar(p, g, src, c, g', c', added, newJt, k)
    {
      g', c', added, newJt := RewireEdge(p, g, src, c, g', c', added, newJt, k);
    }
    RewireDone(p, g, src, c, g', c', added, newJt);
    g' := g'[src := g'[src].ReplaceJumpTargets(newJt)];
  }

  /** One iteration of `RewireBlock`, on the jump target at position `k`. */
  method RewireEdge(p: LatchPlan, g: Graph, src: Label, c: nat, g1: Graph, c1: nat, added1: set<Label>, newJt1: seq<Label>, k: nat)
    returns (g': Graph, c': nat, added: set<Label>, newJt: seq<Label>)
    requires EdgesSoFar(p, g, src, c, g1, c1, added1, newJt1, k) && k < |g[src].Targets()|
    requires Bounded(g, c) && Below(p.latch, c)
    ensures EdgesSoFar(p, g, src, c, g', c', added, newJt, k + 1)
  {
    var jt := g[src].Targets()[k];
    if !Taken(p, src, jt) {
      EdgeKept(p, g, src, c, g1, c1, added1, newJt1, k);
      return g1, c1, added1, newJt1;
    }
    FirstUnrewritten(p, g, src, c, g1, c1, added1, newJt1, k);
    var a := Label(SyntheticAssignment, c1);
    var blk := g1[src];
    if jt !in p.exits {
      var trimmed := RemoveHeaders(g1[src].Targets(), p.headers);
      blk := g1[src].ReplaceJumpTargets(trimmed);
    }
    assert TargetsBelow(blk, c1);
    EdgeTaken(p, g, src, c, g1, blk, c1, added1, newJt1, k);
    g' := g1[src := blk][a := AssignBlock(p, jt)];
    c' := c1 + 1;
    added := added1 + {a};
    newJt := newJt1[IndexOf(newJt1, jt) := a];
  }

  /** `list.index` finds the edge at position `k`: every earlier edge to the same target was already replaced. */
  lemma FirstUnrewritten(p: LatchPlan, g: Graph, src: Label, c: nat, g1: Graph, c1: nat, added1: set<Label>, newJt1: seq<Label>, k: nat)
    requires EdgesSoFar(p, g, src, c, g1, c1, added1, newJt1, k) && k < |g[src].Targets()|
    requires Bounded(g, c) && Taken(p, src, g[src].Targets()[k])
    ensures g[src].Targets()[k] in newJt1 && IndexOf(newJt1, g[src].Targets()[k]) == k
  {
    var jts := g[src].Targets();
    assert newJt1[k..][0] == jts[k];
    assert jts[k] in jts;
    assert Below(jts[k], c);
    assert forall j | 0 <= j < k :: newJt1[j] != jts[k];
  }

  lemma EdgeKept(p: LatchPlan, g: Graph, src: Label, c: nat, g1: Graph, c1: nat, added1: set<Label>, newJt1: seq<Label>, k: nat)
    requires EdgesSoFar(p, g, src, c, g1, c1, added1, newJt1, k) && k < |g[src].Targets()|
    requires !Taken(p, src, g[src].Targets()[k])
    ensures EdgesSoFar(p, g, src, c, g1, c1, added1, newJt1, k + 1)
  {
    var jts := g[src].Targets();
    assert newJt1[k..][0] == jts[k];
    assert newJt1[k + 1..] == newJt1[k..][1..];
  }

  lemma EdgeTaken(p: LatchPlan, g: Graph, src: Label, c: nat, g1: Graph, blk: Block, c1: nat, added1: set<Label>,
                  newJt1: seq<Label>, k: nat)
    requires EdgesSoFar(p, g, src, c, g1, c1, added1, newJt1, k) && k < |g[src].Targets()|
    requires Bounded(g, c) && Below(p.latch, c) && Taken(p, src, g[src].Targets()[k])
    requires blk == g1[src].ReplaceJumpTargets(blk.jumpTargets) && TargetsBelow(blk, c1)
    ensures var a := Label(SyntheticAssignment, c1);
      EdgesSoFar(p, g, src, c, g1[src := blk][a := AssignBlock(p, g[src].Targets()[k])], c1 + 1, added1 + {a},
                 newJt1[k := a], k + 1)
  {
    var a := Label(SyntheticAssignment, c1);
    var g' := g1[src := blk][a := AssignBlock(p, g[src].Targets()[k])];
    BoundedFresh(g1, c1, SyntheticAssignment);
    EdgeTakenFrame(p, g, src, c, g1, blk, c1, added1, g[src].Targets()[k]);
    forall x | x in added1 ensures g'[x] == g1[x] {
      assert x != src && x != a;
    }
    EdgeTakenTargets(p, g, src, g1, g', added1, newJt1, k, a);
  }

  lemma EdgeTakenFrame(p: LatchPlan, g: Graph, src: Label, c: nat, g1: Graph, blk: Block, c1: nat, added1: set<Label>, jt: Label)
    requires EdgeFrame(p, g, src, c, g1, c1, added1) && Below(p.latch, c)
    requires blk == g1[src].ReplaceJumpTargets(blk.jumpTargets) && TargetsBelow(blk, c1)
    ensures var a := Label(SyntheticAssignment, c1);
      EdgeFrame(p, g, src, c, g1[src := blk][a := AssignBlock(p, jt)], c1 + 1, added1 + {a})
  {
    BoundedFresh(g1, c1, SyntheticAssignment);
    BoundedReplaceAdd(g1, src, blk, SyntheticAssignment, AssignBlock(p, jt), c1);
    AddedBlocksStep(p, g, src, c, g1, blk, c1, added1, jt);
    KeptBlocksStep(g, src, g1, blk, Label(SyntheticAssignment, c1), AssignBlock(p, jt));
  }

  lemma AddedBlocksStep(p: LatchPlan, g: Graph, src: Label, c: nat, g1: Graph, blk: Block, c1: nat, added1: set<Label>, jt: Label)
    requires AddedBlocks(p, g, c, g1, c1, added1) && src in g && c <= c1 && Label(SyntheticAssignment, c1) !in g1
    ensures var a := Label(SyntheticAssignment, c1);
      AddedBlocks(p, g, c, g1[src := blk][a := AssignBlock(p, jt)], c1 + 1, added1 + {a})
  {
    var a := Label(SyntheticAssignment, c1);
    var g' := g1[src := blk][a := AssignBlock(p, jt)];
    forall x | x in added1 ensures g'[x] == g1[x] {
      assert x != a && x != src;
    }
  }

  lemma KeptBlocksStep(g: Graph, src: Label, g1: Graph, blk: Block, a: Label, nb: Block)
    requires KeptBlocks(g, src, g1) && a !in g && blk == g1[src].ReplaceJumpTargets(blk.jumpTargets)
    ensures KeptBlocks(g, src, g1[src := blk][a := nb])
  {
    var g' := g1[src := blk][a := nb];
    forall l | l in g && l != src ensures l in g' && g'[l] == g[l] {
      assert l != a;
    }
  }

  lemma EdgeTakenTargets(p: LatchPlan, g: Graph, src: Label, g1: Graph, g': Graph, added1: set<Label>,
                         newJt1: seq<Label>, k: nat, a: Label)
    requires EdgeTargets(p, g, src, g1, added1, newJt1, k) && k < |g[src].Targets()|
    requires Taken(p, src, g[src].Targets()[k])
    requires a in g' && g'[a] == AssignBlock(p, g[src].Targets()[k])
    requires forall x | x in added1 :: x in g' && x in g1 && g'[x] == g1[x]
    ensures EdgeTargets(p, g, src, g', added1 + {a}, newJt1[k := a], k + 1)
  {
    var jts := g[src].Targets();
    assert newJt1[k..][0] == jts[k];
    assert newJt1[k := a][k + 1..] == newJt1[k..][1..];
  }

  lemma RewireDone(p: LatchPlan, g: Graph, src: Label, c: nat, g': Graph, c': nat, added: set<Label>, newJt: seq<Label>)
    requires src in g && EdgesSoFar(p, g, src, c, g', c', added, newJt, |g[src].Targets()|) && Bounded(g, c)
    ensures TargetsBelow(g'[src].ReplaceJumpTargets(newJt), c')
    ensures RewiredAt(p, g, g'[src := g'[src].ReplaceJumpTargets(newJt)], src)
  {
    var jts := g[src].Targets();
    forall t | t in newJt ensures Below(t, c') {
      var j :| 0 <= j < |newJt| && newJt[j] == t;
      assert jts[j] in jts;
      assert Below(jts[j], c);
    }
  }

  /** `for label in loop: bbmap.add_block(bbmap.graph.pop(label).replace_backedge(loop_head))`. */
  method MarkBackedges(g: Graph, loop: set<Label>, head: Label) returns (g': Graph)
    requires loop <= g.Keys
    ensures g'.Keys == g.Keys
    ensures forall l | l in g :: g'[l] == if l in loop then g[l].ReplaceBackedge(head) else g[l]
  {
    g' := g;
    var todo := loop;
    while todo != {}
      invariant todo <= loop && g'.Keys == g.Keys
      invariant forall l | l in g :: g'[l] == if l in loop - todo then g[l].ReplaceBackedge(head) else g[l]
      decreases |todo|
    {
      var l :| l in todo;
      todo := todo - {l};
      g' := g'[l := g'[l].ReplaceBackedge(head)];
    }
  }

  lemma MarkBackedgesBounded(g: Graph, g': Graph, next: nat)
    requires Bounded(g, next) && g'.Keys == g.Keys
    requires forall l | l in g :: g'[l].jumpTargets == g[l].jumpTargets
    ensures Bounded(g', next)
  {
  }

  /** The blocks of the loop that the general path rewires. */
  predicate Rewires(l: Label, exiting: set<Label>, backedgeBlocks: set<Label>) {
    l in exiting || l in backedgeBlocks
  }

  /**
   * Among the labels of `done`, the blocks that the general path selects are
   * rewired in `g'`; every other block of `g` is kept.
   */
  ghost predicate RewiredOnly(p: LatchPlan, g: Graph, g': Graph, done: set<Label>,
                              exiting: set<Label>, backedgeBlocks: set<Label>)
  {
    (forall l | l in g && !(l in done && Rewires(l, exiting, backedgeBlocks)) :: l in g' && g'[l] == g[l]) &&
    (forall l {:trigger RewiredAt(p, g, g', l)} | l in done && Rewires(l, exiting, backedgeBlocks) :: RewiredAt(p, g, g', l))
  }

  /** The state of `RewireLoop` after visiting the labels of `done`. */
  ghost predicate LoopRewired(p: LatchPlan, g: Graph, c: nat, g': Graph, c': nat, added: set<Label>, done: set<Label>,
                              exiting: set<Label>, backedgeBlocks: set<Label>)
  {
    c <= c' && Bounded(g', c') &&
    added !! g.Keys && g'.Keys == g.Keys + added && AssignBlocks(p, g', added, c) &&
    RewiredOnly(p, g, g', done, exiting, backedgeBlocks)
  }

  /**
   * The rewiring loop of the general path: every exiting or backedge block
   * of the loop is rewired, every other block is kept, and the new blocks
   * are the fresh assignment blocks.
   */
  method RewireLoop(g: Graph, c: nat, loop: set<Label>, exiting: set<Label>, backedgeBlocks: set<Label>, p: LatchPlan)
    returns (g': Graph, c': nat, added: set<Label>)
    requires loop <= g.Keys && Bounded(g, c) && Below(p.latch, c) && p.headers <= p.doms.Keys
    ensures LoopRewired(p, g, c, g', c', added, loop, exiting, backedgeBlocks)
  {
    g', c', added := g, c, {};
    var todo := loop;
    while todo != {}
      invariant todo <= loop
      invariant LoopRewired(p, g, c, g', c', added, loop - todo, exiting, backedgeBlocks)
      decreases |todo|
    {
      ghost var done := loop - todo;
      var l :| l in todo;
      todo := todo - {l};
      assert loop - todo == done + {l};
      g', c', added := RewireVisit(p, g, c, g', c', added, done, l, exiting, backedgeBlocks);
    }
  }

  /** One iteration of `RewireLoop`: the block `l` is rewired when the general path selects it. */
  method RewireVisit(p: LatchPlan, g: Graph, c: nat, g1: Graph, c1: nat, added1: set<Label>, ghost done: set<Label>, l: Label,
                     exiting: set<Label>, backedgeBlocks: set<Label>)
    returns (g': Graph, c': nat, added: set<Label>)
    requires LoopRewired(p, g, c, g1, c1, added1, done, exiting, backedgeBlocks)
    requires l in g && l !in done && Below(p.latch, c) && p.headers <= p.doms.Keys
    ensures LoopRewired(p, g, c, g', c', added, done + {l}, exiting, backedgeBlocks)
  {
    if Rewires(l, exiting, backedgeBlocks) {
      var more;
      g', c', more := RewireBlock(g1, c1, l, p);
      AssignBlocksStep(p, g, g1, g', c, c1, added1, more);
      RewireLoopStep(p, g, g1, g', l, done, exiting, backedgeBlocks);
      added := added1 + more;
    } else {
      RewiredOnlySkip(p, g, g1, done, l, exiting, backedgeBlocks);
      g', c', added := g1, c1, added1;
    }
  }

  lemma AssignBlocksStep(p: LatchPlan, g: Graph, g1: Graph, g2: Graph, c: nat, c1: nat, added1: set<Label>, more: set<Label>)
    requires c <= c1 && added1 !! g.Keys && g1.Keys == g.Keys + added1 && AssignBlocks(p, g1, added1, c)
    requires more !! g1.Keys && g2.Keys == g1.Keys + more && AssignBlocks(p, g2, more, c1)
    requires forall x | x in added1 :: g2[x] == g1[x]
    ensures added1 + more !! g.Keys && g2.Keys == g.Keys + (added1 + more) && AssignBlocks(p, g2, added1 + more, c)
  {
  }

  lemma RewireLoopStep(p: LatchPlan, g: Graph, g1: Graph, g2: Graph, l: Label, done: set<Label>,
                       exiting: set<Label>, backedgeBlocks: set<Label>)
    requires l in g && l !in done && Rewires(l, exiting, backedgeBlocks) && g.Keys <= g1.Keys
    requires RewiredOnly(p, g, g1, done, exiting, backedgeBlocks)
    requires g1.Keys <= g2.Keys && forall x | x in g1 && x != l :: g2[x] == g1[x]
    requires RewiredAt(p, g1, g2, l)
    ensures RewiredOnly(p, g, g2, done + {l}, exiting, backedgeBlocks)
  {
    assert g1[l] == g[l];
    RewiredAtRebase(p, g, g1, g2, l);
    forall x | x in done && Rewires(x, exiting, backedgeBlocks) ensures RewiredAt(p, g, g2, x) {
      RewiredAtStable(p, g, g1, g2, x, l);
    }
  }

  lemma RewiredOnlySkip(p: LatchPlan, g: Graph, g': Graph, done: set<Label>, l: Label,
                        exiting: set<Label>, backedgeBlocks: set<Label>)
    requires RewiredOnly(p, g, g', done, exiting, backedgeBlocks) && !Rewires(l, exiting, backedgeBlocks)
    ensures RewiredOnly(p, g, g', done + {l}, exiting, backedgeBlocks)
  {
  }

  /** Adding a block under a label the graph does not have keeps the rewiring. */
  lemma RewiredOnlyAdd(p: LatchPlan, g: Graph, g1: Graph, done: set<Label>, exiting: set<Label>,
                       backedgeBlocks: set<Label>, k: Label, blk: Block)
    requires RewiredOnly(p, g, g1, done, exiting, backedgeBlocks) && k !in g1
    ensures RewiredOnly(p, g, g1[k := blk], done, exiting, backedgeBlocks)
  {
    forall l | l in done && Rewires(l, exiting, backedgeBlocks) ensures RewiredAt(p, g, g1[k := blk], l) {
      RewiredAtStable(p, g, g1, g1[k := blk], l, k);
    }
  }

  /**
   * `p` is what the general path fixes for the graph `g`: the latch and the
   * synthetic exit are the next two fresh labels, the two control variables
   * differ, the exit table enumerates the exit blocks once each, the header
   * table and exit variable come from the unified header block when there is
   * one.
   */
  ghost predicate PlanFor(p: LatchPlan, g: Graph, clg: NameGen, headers: set<Label>, loopHead: Label,
                          unified: bool, solo: Label, exits: set<Label>)
  {
    p.loopHead == loopHead && p.headers == headers && p.exits == exits &&
    p.latch == Label(SyntheticExitingLatch, clg.index) && p.latch !in g &&
    p.synthExit == Label(SyntheticExit, clg.index + 1) && p.synthExit !in g &&
    p.backedgeVar != p.exitVar && p.loopHead != p.synthExit &&
    Distinct(p.exitTable) && Elems(p.exitTable) == exits &&
    (unified ==> solo in g && g[solo].Branch? && p.exitVar == g[solo].variable && p.headerTable == g[solo].table) &&
    (!unified ==> p.headerTable == [])
  }

  /**
   * The graph `g'` and loop set `loop'` after the general path: the new
   * labels are the latch (now in the loop), the synthetic exit (outside it)
   * and the assignment blocks (in it); the latch jumps to the synthetic exit
   * and the loop head and marks the head as its backedge; the synthetic exit
   * branches on the exit variable over the exit table; every selected block
   * is rewired and every other block is kept.
   */
  ghost predicate LatchInstalled(p: LatchPlan, g: Graph, g': Graph, loop: set<Label>, loop': set<Label>,
                                 exiting: set<Label>, backedgeBlocks: set<Label>, b: nat)
  {
    LatchShape(p, g, g', loop, loop', b) && RewiredOnly(p, g, g', loop, exiting, backedgeBlocks)
  }

  /** The new labels of the general path and the latch and synthetic exit blocks. */
  ghost predicate LatchShape(p: LatchPlan, g: Graph, g': Graph, loop: set<Label>, loop': set<Label>, b: nat) {
    loop <= loop' && p.latch in loop' - loop && p.synthExit !in loop' &&
    g'.Keys == g.Keys + (loop' - loop) + {p.synthExit} &&
    g'[p.latch] == Branch([p.synthExit, p.loopHead], [p.loopHead], p.backedgeVar, BackedgeTable(p)) &&
    g'[p.synthExit] == Branch(p.exitTable, [], p.exitVar, p.exitTable) &&
    AssignBlocks(p, g', loop' - loop - {p.latch}, b)
  }

  /**
   * The general path of `loop_rotate`: a fresh exiting latch and synthetic
   * exit, the two control variables (the exit variable reused from the
   * unified header block when there is one), the value tables, the dominator
   * map of the current graph, the rewiring of every exiting and backedge
   * block, and finally the latch and exit blocks.
   */
  method RotateGeneral(g: Graph, clg: NameGen, loop: set<Label>, headers: set<Label>, loopHead: Label,
                       unified: bool, solo: Label, exiting: set<Label>, exits: set<Label>, backedgeBlocks: set<Label>)
    returns (r: Result<LatchPlan>, g': Graph, clg': NameGen, loop': set<Label>)
    requires Bounded(g, clg.index) && loop <= g.Keys && headers <= g.Keys && loopHead in g
    requires forall e | e in exits :: Below(e, clg.index)
    requires unified ==> solo in g && g[solo].Branch? && g[solo].variable < clg.variable
    ensures Bounded(g', clg'.index) && clg.index + 2 <= clg'.index && clg.variable < clg'.variable
    ensures r.Err? <==> Sources(g) == {}
    ensures r.Err? ==> r.error == RuntimeError && g' == g && loop' == loop
    ensures r.Ok? ==> PlanFor(r.value, g, clg, headers, loopHead, unified, solo, exits)
    ensures r.Ok? ==> DominatorsOf(g, r.value.doms)
    ensures r.Ok? ==> LatchInstalled(r.value, g, g', loop, loop', exiting, backedgeBlocks, clg.index)
  {
    var doms := ComputeDoms(g);
    var p;
    p, clg' := PlanLatch(g, clg, headers, loopHead, unified, solo, exits, if doms.Ok? then doms.value else map[]);
    if doms.Err? {
      BoundedRaise(g, clg.index, clg'.index);
      return Err(RuntimeError), g, clg', loop;
    }
    var c;
    g', c, loop' := InstallLatch(g, clg.index, loop, exiting, backedgeBlocks, p);
    clg' := clg'.(index := c);
    r := Ok(p);
  }

  /** The rewiring of the general path followed by the latch and synthetic exit blocks. */
  method InstallLatch(g: Graph, b: nat, loop: set<Label>, exiting: set<Label>, backedgeBlocks: set<Label>, p: LatchPlan)
    returns (g': Graph, c: nat, loop': set<Label>)
    requires Bounded(g, b) && loop <= g.Keys && p.loopHead in g && p.headers <= p.doms.Keys
    requires p.latch == Label(SyntheticExitingLatch, b) && p.synthExit == Label(SyntheticExit, b + 1)
    requires forall e | e in p.exitTable :: Below(e, b)
    ensures b + 2 <= c && Bounded(g', c)
    ensures LatchInstalled(p, g, g', loop, loop', exiting, backedgeBlocks, b)
  {
    BoundedRaise(g, b, b + 2);
    var g1, added;
    g1, c, added := RewireLoop(g, b + 2, loop, exiting, backedgeBlocks, p);
    loop' := loop + added + {p.latch};
    g' := g1[p.latch := Branch([p.synthExit, p.loopHead], [p.loopHead], p.backedgeVar, BackedgeTable(p))]
            [p.synthExit := Branch(p.exitTable, [], p.exitVar, p.exitTable)];
    FinishGeneral(g, g1, g', b, c, loop, added, exiting, backedgeBlocks, p);
  }

  /** The labels, variables and tables of the general path, with the dominator map `doms`. */
  method PlanLatch(g: Graph, clg: NameGen, headers: set<Label>, loopHead: Label, unified: bool, solo: Label,
                   exits: set<Label>, doms: DomMap)
    returns (p: LatchPlan, clg': NameGen)
    requires Bounded(g, clg.index) && loopHead in g
    requires unified ==> solo in g && g[solo].Branch? && g[solo].variable < clg.variable
    ensures clg'.index == clg.index + 2 && clg.variable < clg'.variable
    ensures PlanFor(p, g, clg, headers, loopHead, unified, solo, exits) && p.doms == doms
  {
    var latch := Label(SyntheticExitingLatch, clg.index);
    var synthExit := Label(SyntheticExit, clg.index + 1);
    BoundedFresh(g, clg.index, SyntheticExitingLatch);
    var vars := clg.variable;
    var exitVar;
    if unified {
      exitVar := g[solo].variable;
    } else {
      exitVar := vars;
      vars := vars + 1;
    }
    var backedgeVar := vars;
    vars := vars + 1;
    var exitTable := SetToSeq(exits);
    var headerTable := if unified then g[solo].table else [];
    clg' := NameGen(clg.index + 2, vars);
    p := LatchPlan(loopHead, latch, synthExit, backedgeVar, exitVar, exitTable, headerTable, headers, exits, doms);
  }

  lemma FinishGeneral(g: Graph, g1: Graph, g': Graph, b: nat, c: nat, loop: set<Label>, added: set<Label>,
                      exiting: set<Label>, backedgeBlocks: set<Label>, p: LatchPlan)
    requires Bounded(g, b) && loop <= g.Keys && p.loopHead in g
    requires p.latch == Label(SyntheticExitingLatch, b) && p.synthExit == Label(SyntheticExit, b + 1)
    requires forall e | e in p.exitTable :: Below(e, b)
    requires LoopRewired(p, g, b + 2, g1, c, added, loop, exiting, backedgeBlocks)
    requires g' == g1[p.latch := Branch([p.synthExit, p.loopHead], [p.loopHead], p.backedgeVar, BackedgeTable(p))]
                     [p.synthExit := Branch(p.exitTable, [], p.exitVar, p.exitTable)]
    ensures Bounded(g', c)
    ensures LatchInstalled(p, g, g', loop, loop + added + {p.latch}, exiting, backedgeBlocks, b)
  {
    LatchFresh(g, g1, b, added, p);
    var g2 := g1[p.latch := Branch([p.synthExit, p.loopHead], [p.loopHead], p.backedgeVar, BackedgeTable(p))];
    BoundedUpdate(g1, p.latch, g2[p.latch], c);
    BoundedUpdate(g2, p.synthExit, g'[p.synthExit], c);
    FinishShape(g, g1, g2, g', b, loop, added, p);
    RewiredOnlyAdd(p, g, g1, loop, exiting, backedgeBlocks, p.latch, g2[p.latch]);
    RewiredOnlyAdd(p, g, g2, loop, exiting, backedgeBlocks, p.synthExit, g'[p.synthExit]);
  }

  lemma FinishShape(g: Graph, g1: Graph, g2: Graph, g': Graph, b: nat, loop: set<Label>, added: set<Label>, p: LatchPlan)
    requires loop <= g.Keys && added !! g.Keys && g1.Keys == g.Keys + added && AssignBlocks(p, g1, added, b + 2)
    requires p.latch !in g1 && p.synthExit !in g1 && p.latch.kind == SyntheticExitingLatch && p.synthExit.kind == SyntheticExit
    requires g2 == g1[p.latch := Branch([p.synthExit, p.loopHead], [p.loopHead], p.backedgeVar, BackedgeTable(p))]
    requires g' == g2[p.synthExit := Branch(p.exitTable, [], p.exitVar, p.exitTable)]
    ensures LatchShape(p, g, g', loop, loop + added + {p.latch}, b)
  {
    var loop' := loop + added + {p.latch};
    assert loop' - loop - {p.latch} == added;
    AssignBlocksAdd(p, g1, added, b + 2, b, p.latch, g2[p.latch]);
    AssignBlocksAdd(p, g2, added, b, b, p.synthExit, g'[p.synthExit]);
  }

  /** Adding a block under a label outside `added` keeps the assignment blocks. */
  lemma AssignBlocksAdd(p: LatchPlan, g: Graph, added: set<Label>, c: nat, c0: nat, k: Label, blk: Block)
    requires AssignBlocks(p, g, added, c) && c0 <= c && k !in added
    ensures AssignBlocks(p, g[k := blk], added, c0)
  {
  }

  /** The latch and the synthetic exit are new to the rewired graph, and the latch is new to the loop. */
  lemma LatchFresh(g: Graph, g1: Graph, b: nat, added: set<Label>, p: LatchPlan)
    requires Bounded(g, b) && g1.Keys == g.Keys + added && forall a | a in added :: !Below(a, b + 2)
    requires p.latch == Label(SyntheticExitingLatch, b) && p.synthExit == Label(SyntheticExit, b + 1)
    ensures p.latch !in g1 && p.synthExit !in g1 && p.latch !in added
  {
    BoundedFresh(g, b, SyntheticExitingLatch);
    BoundedFresh(g, b, SyntheticExit);
  }

  /** The loop blocks with an edge to one of the headers (`backedge_blocks`). */
  function BackedgeBlocks(g: Graph, loop: set<Label>, headers: set<Label>): set<Label>
    requires loop <= g.Keys
  {
    set b | b in loop && exists t | t in g[b].Targets() :: t in headers
  }

  /** What the first half of `loop_rotate` settles: the headers, the loop head and the exit sets. */
  datatype Prologue = Prologue(headers: set<Label>, loopHead: Label, unified: bool, solo: Label,
                               exiting: set<Label>, exits: set<Label>)

  /** The outcome of `loop_rotate`: the fast path's return value, or the plan of the general path. */
  datatype Rotation =
    | FastPath(headers: set<Label>, loopHead: Label, exiting: Label, exit: Label)
    | GeneralPath(plan: LatchPlan)

  /** A single header whose block has two jump targets, not both in the loop: the for-loop case of `loop_rotate`. */
  ghost predicate ForShaped(g: Graph, loop: set<Label>, h: Label) {
    h in g && |g[h].jumpTargets| == 2 && !(forall jt | jt in g[h].jumpTargets :: jt in loop)
  }

  /**
   * The first half of `loop_rotate` succeeded with the prologue `q`, leaving
   * `g'`, `clg'` and `loop'`. There is exactly one entry. A one-block loop is
   * its own head and nothing changes. Several headers are joined behind the
   * fresh `SyntheticHead` block, which joins the loop and becomes the head. A
   * for-shaped single header is rotated by `loop_rotate_for_loop`, and the
   * headers and exits are those of the rotated loop, the head one of its
   * headers. Any other single header is the head and nothing changes.
   */
  ghost predicate HeadChosen(g: Graph, clg: NameGen, loop: set<Label>, q: Prologue, g': Graph, clg': NameGen, loop': set<Label>) {
    && HeadersOf(g, loop).Ok? && loop <= g.Keys && |EntriesOf(g, loop)| == 1
    && q.solo == Label(SyntheticHead, clg.index)
    && loop' <= g'.Keys && q.headers <= g'.Keys && q.loopHead in g'
    && var headers := HeadersOf(g, loop).value;
       if |loop| == 1 then
         && g' == g && clg' == clg && loop' == loop && loop == {q.loopHead} && !q.unified
         && q.headers == headers && q.exiting == ExitingOf(g, loop) && q.exits == ExitsOf(g, loop)
       else if |headers| > 1 then
         && q.unified && q.loopHead == q.solo && q.solo !in g && loop' == loop + {q.solo}
         && q.headers == headers && q.exiting == ExitingOf(g, loop) && q.exits == ExitsOf(g, loop)
         && ControlBlocksInserted(g, clg.(index := clg.index + 1), q.solo, EntriesOf(g, loop), headers, g', clg')
       else
         && !q.unified
         && forall h | h in headers ::
              if ForShaped(g, loop, h) then
                && ForRotation(g, clg, loop, Ok(ForIterRotation(h, Label(SyntheticForIter, clg.index))), g', clg', loop')
                && HeadersOf(g', loop') == Ok(q.headers) && q.loopHead in q.headers
                && q.exiting == ExitingOf(g', loop') && q.exits == ExitsOf(g', loop')
              else
                && g' == g && clg' == clg && loop' == loop && q.loopHead == h
                && q.headers == headers && q.exiting == ExitingOf(g, loop) && q.exits == ExitsOf(g, loop)
  }

  /** The for-loop case whose rotated loop fails the recomputed header assertion. */
  ghost predicate ForHeadersFail(g: Graph, clg: NameGen, loop: set<Label>, g': Graph, clg': NameGen, loop': set<Label>) {
    && HeadersOf(g, loop).Ok? && |loop| != 1 && |HeadersOf(g, loop).value| == 1
    && forall h | h in HeadersOf(g, loop).value ::
         && ForShaped(g, loop, h)
         && ForRotation(g, clg, loop, Ok(ForIterRotation(h, Label(SyntheticForIter, clg.index))), g', clg', loop')
         && HeadersOf(g', loop').Err?
  }

  /** A block set that something enters has its headers inside it. */
  lemma EntriesHaveHeaders(g: Graph, sub: set<Label>)
    requires EntriesOf(g, sub) != {}
    ensures HeadersOf(g, sub) == Ok(RawHeaders(g, sub)) && RawHeaders(g, sub) <= sub
  {
    var o :| o in EntriesOf(g, sub);
    var t :| t in g[o].Targets() && t in sub;
    assert t in RawHeaders(g, sub);
  }

  /**
   * The first half of `loop_rotate`: exactly one entry is asserted; a
   * one-block loop is its own head; several headers are unified behind a
   * fresh `SyntheticHead` block that joins the loop; a single header whose
   * block has two jump targets, not both in the loop, is a for loop and is
   * rotated first, and the headers and exits are then recomputed.
   */
  method ChooseHead(g: Graph, clg: NameGen, loop: set<Label>)
    returns (r: Result<Prologue>, g': Graph, clg': NameGen, loop': set<Label>)
    requires Bounded(g, clg.index)
    ensures Bounded(g', clg'.index) && clg.index <= clg'.index && clg.variable <= clg'.variable
    ensures HeadersOf(g, loop).Err? ==> r == Err(AssertionError) && g' == g && clg' == clg && loop' == loop
    ensures HeadersOf(g, loop).Ok? && !(loop <= g.Keys) ==> r == Err(KeyError) && g' == g && clg' == clg && loop' == loop
    ensures HeadersOf(g, loop).Ok? && loop <= g.Keys && |EntriesOf(g, loop)| != 1 ==>
      r == Err(AssertionError) && g' == g && clg' == clg && loop' == loop
    ensures HeadersOf(g, loop).Ok? && loop <= g.Keys && |EntriesOf(g, loop)| == 1 && r.Err? ==>
      r.error == AssertionError && ForHeadersFail(g, clg, loop, g', clg', loop')
    ensures r.Err? ==> r.error in {AssertionError, KeyError}
    ensures r.Ok? ==> HeadChosen(g, clg, loop, r.value, g', clg', loop')
    ensures r.Ok? ==> forall e | e in r.value.exits :: Below(e, clg'.index)
    ensures r.Ok? ==> (r.value.exiting != {} <==> r.value.exits != {})
    ensures r.Ok? && r.value.unified ==> var solo := r.value.solo;
      solo in g' && g'[solo].Branch? && g'[solo].variable < clg'.variable
  {
    var hs := HeadersOf(g, loop);
    if hs.Err? {
      return Err(AssertionError), g, clg, loop;
    }
    if !(loop <= g.Keys) {
      return Err(KeyError), g, clg, loop;
    }
    var headers := hs.value;
    var entries := EntriesOf(g, loop);
    var exiting := ExitingOf(g, loop);
    var exits := ExitsOf(g, loop);
    if |entries| != 1 {
      return Err(AssertionError), g, clg, loop;
    }
    EntriesHaveHeaders(g, loop);
    ExitsBelow(g, loop, clg.index);
    ExitingHasExit(g, loop);
    HeadersWithin(g, loop);
    g', clg', loop' := g, clg, loop;
    var loopHead;
    var unified := false;
    var solo := Label(SyntheticHead, clg.index);
    if |loop| == 1 {
      loopHead := Single(loop);
    } else if |headers| > 1 {
      unified := true;
      BoundedFresh(g, clg.index, SyntheticHead);
      clg' := clg.(index := clg.index + 1);
      HeadersBelow(g, loop, clg'.index);
      BoundedRaise(g, clg.index, clg'.index);
      g', clg' := InsertBlockAndControlBlocks(g, clg', solo, entries, headers);
      loop' := loop + {solo};
      loopHead := solo;
    } else {
      loopHead := Single(headers);
      var jts := g[loopHead].jumpTargets;
      if |jts| == 2 && !(forall jt | jt in jts :: jt in loop) {
        var rotated;
        rotated, g', clg', loop' := RotateForLoop(g, clg, loop);
        assert ForShaped(g, loop, loopHead);
        var hs' := HeadersOf(g', loop');
        if hs'.Err? {
          return Err(AssertionError), g', clg', loop';
        }
        headers := hs'.value;
        exiting := ExitingOf(g', loop');
        exits := ExitsOf(g', loop');
        ExitsBelow(g', loop', clg'.index);
        ExitingHasExit(g', loop');
        loopHead :| loopHead in headers;
        HeadersWithin(g', loop');
      }
    }
    r := Ok(Prologue(headers, loopHead, unified, solo, exiting, exits));
  }

  lemma ExitsBelow(g: Graph, sub: set<Label>, next: nat)
    requires Bounded(g, next) && sub <= g.Keys
    ensures forall e | e in ExitsOf(g, sub) :: Below(e, next)
  {
  }

  lemma HeadersBelow(g: Graph, sub: set<Label>, next: nat)
    requires Bounded(g, next) && HeadersOf(g, sub).Ok?
    ensures forall h | h in HeadersOf(g, sub).value :: Below(h, next)
  {
  }

  lemma HeadersWithin(g: Graph, sub: set<Label>)
    requires sub <= g.Keys && HeadersOf(g, sub).Ok?
    ensures HeadersOf(g, sub).value <= g.Keys
  {
  }

  /** What the general path promises about the plan `p`, without reference to the graph it was made for. */
  ghost predicate GeneralShape(p: LatchPlan, g': Graph, loop': set<Label>) {
    p.latch in loop' && p.latch in g' && p.synthExit in g' && p.synthExit !in loop' &&
    g'[p.latch] == Branch([p.synthExit, p.loopHead], [p.loopHead], p.backedgeVar, BackedgeTable(p)) &&
    g'[p.synthExit] == Branch(p.exitTable, [], p.exitVar, p.exitTable) &&
    p.backedgeVar != p.exitVar && p.loopHead != p.synthExit && Distinct(p.exitTable) && Elems(p.exitTable) == p.exits
  }

  /**
   * The general path after the prologue `q` on `g`: `p` is the plan for `g`,
   * with the dominator map of `g`, and `g'`, `loop'` are `g` and `loop` with
   * the latch installed and the exiting and backedge blocks rewired.
   */
  ghost predicate GeneralFor(p: LatchPlan, g: Graph, clg: NameGen, loop: set<Label>, q: Prologue, g': Graph, loop': set<Label>) {
    loop <= g.Keys &&
    PlanFor(p, g, clg, q.headers, q.loopHead, q.unified, q.solo, q.exits) && DominatorsOf(g, p.doms) &&
    LatchInstalled(p, g, g', loop, loop', q.exiting, BackedgeBlocks(g, loop, q.headers), clg.index)
  }

  lemma GeneralShapeHolds(p: LatchPlan, g: Graph, clg: NameGen, loop: set<Label>, q: Prologue, g': Graph, loop': set<Label>)
    requires GeneralFor(p, g, clg, loop, q, g', loop')
    ensures GeneralShape(p, g', loop') && loop' <= g'.Keys
  {
  }

  /**
   * The second half of `loop_rotate` took the path `rot` from `g`, `clg` and
   * `loop`, as the prologue `q` left them: with one backedge block and one
   * exiting block, the fast path only marks the head as every loop block's
   * backedge and returns the headers, the head, the exiting block and an exit
   * block; otherwise the general path installs the latch (`GeneralFor`).
   */
  ghost predicate RotatedAfter(g: Graph, clg: NameGen, loop: set<Label>, q: Prologue, rot: Rotation,
                               g': Graph, clg': NameGen, loop': set<Label>)
  {
    && loop <= g.Keys
    && var fast := FastCase(g, loop, q);
       match rot
       case FastPath(headers, head, exiting, exit) =>
         && fast && headers == q.headers && head == q.loopHead && q.exiting == {exiting} && exit in q.exits
         && g'.Keys == g.Keys && clg' == clg && loop' == loop
         && forall l | l in g :: g'[l] == if l in loop then g[l].ReplaceBackedge(head) else g[l]
       case GeneralPath(p) =>
         !fast && Sources(g) != {} && GeneralFor(p, g, clg, loop, q, g', loop')
  }

  /** The loop has one backedge block and one exiting block: `loop_rotate` takes the fast path. */
  ghost predicate FastCase(g: Graph, loop: set<Label>, q: Prologue)
    requires loop <= g.Keys
  {
    |BackedgeBlocks(g, loop, q.headers)| == 1 && |q.exiting| == 1
  }

  /**
   * The second half of `loop_rotate`, on the graph the prologue left: a loop
   * with one backedge block and one exiting block only has the head marked as
   * every block's backedge (the fast path); any other loop takes the general
   * path.
   */
  method RotateAfter(g: Graph, clg: NameGen, loop: set<Label>, q: Prologue)
    returns (r: Result<Rotation>, g': Graph, clg': NameGen, loop': set<Label>)
    requires Bounded(g, clg.index) && loop <= g.Keys && q.headers <= g.Keys && q.loopHead in g
    requires forall e | e in q.exits :: Below(e, clg.index)
    requires q.unified ==> q.solo in g && g[q.solo].Branch? && g[q.solo].variable < clg.variable
    requires q.exiting != {} <==> q.exits != {}
    ensures Bounded(g', clg'.index) && clg.index <= clg'.index && clg.variable <= clg'.variable
    ensures r.Err? <==> !FastCase(g, loop, q) && Sources(g) == {}
    ensures r.Err? ==> r.error == RuntimeError && g' == g && loop' == loop
    ensures r.Ok? ==> RotatedAfter(g, clg, loop, q, r.value, g', clg', loop')
    ensures r.Ok? && r.value.GeneralPath? ==> GeneralShape(r.value.plan, g', loop') && loop' <= g'.Keys
  {
    var backedgeBlocks := BackedgeBlocks(g, loop, q.headers);
    if |backedgeBlocks| == 1 && |q.exiting| == 1 {
      var rotation;
      rotation, g' := TakeFastPath(g, clg, loop, q);
      return Ok(rotation), g', clg, loop;
    }
    var general;
    general, g', clg', loop' := RotateGeneral(g, clg, loop, q.headers, q.loopHead, q.unified, q.solo, q.exiting, q.exits, backedgeBlocks);
    if general.Err? {
      return Err(RuntimeError), g', clg', loop';
    }
    GeneralShapeHolds(general.value, g, clg, loop, q, g', loop');
    r := Ok(GeneralPath(general.value));
  }

  /**
   * The fast path of `loop_rotate`: the head becomes every loop block's
   * backedge, and the single exiting block and an exit block are returned.
   */
  method TakeFastPath(g: Graph, clg: NameGen, loop: set<Label>, q: Prologue) returns (r: Rotation, g': Graph)
    requires Bounded(g, clg.index) && loop <= g.Keys && |q.exiting| == 1 && (q.exiting != {} <==> q.exits != {})
    ensures Bounded(g', clg.index) && r.FastPath? && r.loopHead == q.loopHead && r.headers == q.headers
    ensures q.exiting == {r.exiting} && r.exit in q.exits
    ensures g'.Keys == g.Keys && forall l | l in g :: g'[l] == if l in loop then g[l].ReplaceBackedge(q.loopHead) else g[l]
  {
    g' := MarkBackedges(g, loop, q.loopHead);
    MarkBackedgesBounded(g, g', clg.index);
    var exiting := Single(q.exiting);
    var exit :| exit in q.exits;
    r := FastPath(q.headers, q.loopHead, exiting, exit);
  }

  /**
   * The outcome of `loop_rotate` on `g`, `clg` and `loop`: the header and
   * entry failures leave everything as it was; otherwise the prologue
   * succeeded (`HeadChosen`) and was followed by the fast or the general path
   * (`RotatedAfter`), or by the general path's `RuntimeError` on a graph
   * without sources (the fast path does not compute dominators), or the for-loop rotation's recomputed headers failed.
   */
  ghost predicate RotateOutcome(g: Graph, clg: NameGen, loop: set<Label>, r: Result<Rotation>,
                                g': Graph, clg': NameGen, loop': set<Label>)
  {
    var hs := HeadersOf(g, loop);
    && (hs.Err? ==> r == Err(AssertionError) && g' == g && clg' == clg && loop' == loop)
    && (hs.Ok? && !(loop <= g.Keys) ==> r == Err(KeyError) && g' == g && clg' == clg && loop' == loop)
    && (hs.Ok? && loop <= g.Keys && |EntriesOf(g, loop)| != 1 ==>
          r == Err(AssertionError) && g' == g && clg' == clg && loop' == loop)
    && (hs.Ok? && loop <= g.Keys && |EntriesOf(g, loop)| == 1 ==>
          || (r == Err(AssertionError) && ForHeadersFail(g, clg, loop, g', clg', loop'))
          || exists q, g1, clg1, loop1 ::
               && HeadChosen(g, clg, loop, q, g1, clg1, loop1)
               && (r.Ok? ==> RotatedAfter(g1, clg1, loop1, q, r.value, g', clg', loop'))
               && (r.Err? ==> r.error == RuntimeError && loop1 <= g1.Keys && !FastCase(g1, loop1, q) && Sources(g1) == {} && g' == g1 && loop' == loop1))
  }

  /** `loop_rotate`: the prologue, then the fast or the general path. */
  method Rotate(g: Graph, clg: NameGen, loop: set<Label>)
    returns (r: Result<Rotation>, g': Graph, clg': NameGen, loop': set<Label>)
    requires Bounded(g, clg.index)
    ensures Bounded(g', clg'.index) && clg.index <= clg'.index && clg.variable <= clg'.variable
    ensures RotateOutcome(g, clg, loop, r, g', clg', loop')
  {
    var pr, g1, clg1, loop1 := ChooseHead(g, clg, loop);
    if pr.Err? {
      return Err(pr.error), g1, clg1, loop1;
    }
    r, g', clg', loop' := RotateAfter(g1, clg1, loop1, pr.value);
    assert HeadChosen(g, clg, loop, pr.value, g1, clg1, loop1);
  }

  /**
   * What every outcome of `loop_rotate` guarantees: its errors, that a
   * rotation needs a loop of keys with one entry, that the loop stays within
   * the keys, that the fast path marks the head as every loop block's
   * backedge, and the shape the general path leaves.
   */
  lemma RotateOutcomeFacts(g: Graph, clg: NameGen, loop: set<Label>, r: Result<Rotation>,
                           g': Graph, clg': NameGen, loop': set<Label>)
    requires RotateOutcome(g, clg, loop, r, g', clg', loop')
    ensures r.Err? ==> r.error in {AssertionError, KeyError, RuntimeError}
    ensures r.Ok? ==> loop <= g.Keys && |EntriesOf(g, loop)| == 1 && loop' <= g'.Keys
    ensures r.Ok? && r.value.FastPath? ==> forall l | l in loop' :: g'[l].backedges == [r.value.loopHead]
    ensures r.Ok? && r.value.GeneralPath? ==> GeneralShape(r.value.plan, g', loop')
  {
    if r.Ok? {
      var q, g1, clg1, loop1 :| HeadChosen(g, clg, loop, q, g1, clg1, loop1) && RotatedAfter(g1, clg1, loop1, q, r.value, g', clg', loop');
      if r.value.GeneralPath? {
        GeneralShapeHolds(r.value.plan, g1, clg1, loop1, q, g', loop');
      }
    }
  }

  /** A component is a loop when it has more than one block, or its one block jumps to itself. */
  ghost predicate IsLoop(g: Graph, nodes: set<Label>) {
    |nodes| > 1 || exists x | x in nodes :: x in g && x in g[x].Targets()
  }

  /**
   * The loop test as `restructure_loop` evaluates it: the first element of an
   * empty component raises `StopIteration`, and the block of a one-block
   * component whose label is not a key raises `KeyError`.
   */
  ghost function LoopTest(g: Graph, nodes: set<Label>): Result<bool> {
    if |nodes| > 1 then Ok(true)
    else if nodes == {} then Err(StopIteration)
    else var x :| x in nodes; if x !in g then Err(KeyError) else Ok(x in g[x].Targets())
  }

  /** The loops among the components, in their order, or the error of the first component whose test fails. */
  ghost function LoopsAmong(g: Graph, scc: seq<set<Label>>): Result<seq<set<Label>>>
    decreases |scc|
  {
    if scc == [] then Ok([])
    else
      var last := scc[|scc| - 1];
      match LoopsAmong(g, scc[..|scc| - 1])
      case Err(e) => Err(e)
      case Ok(ls) =>
        match LoopTest(g, last)
        case Err(e) => Err(e)
        case Ok(b) => Ok(if b then ls + [last] else ls)
  }

  /** The test succeeds on exactly the non-empty components whose single block, if any, is a key, and then decides `IsLoop`. */
  lemma LoopTestMeaning(g: Graph, nodes: set<Label>)
    ensures LoopTest(g, nodes).Ok? <==> nodes != {} && (|nodes| == 1 ==> nodes <= g.Keys)
    ensures LoopTest(g, nodes).Ok? ==> (LoopTest(g, nodes).value <==> IsLoop(g, nodes))
    ensures LoopTest(g, nodes).Err? ==> LoopTest(g, nodes).error in {StopIteration, KeyError}
  {
    if |nodes| == 1 {
      var x :| x in nodes;
      forall y | y in nodes ensures y == x {
        if y != x {
          SubsetNoLarger({x, y}, nodes);
        }
      }
      assert nodes == {x};
    }
  }

  /** The selection succeeds exactly when every component's test does, and then keeps exactly the loops. */
  lemma LoopsAmongMeaning(g: Graph, scc: seq<set<Label>>)
    ensures LoopsAmong(g, scc).Ok? <==> forall i | 0 <= i < |scc| :: LoopTest(g, scc[i]).Ok?
    ensures LoopsAmong(g, scc).Ok? ==> forall n :: n in LoopsAmong(g, scc).value <==> n in scc && IsLoop(g, n)
    ensures LoopsAmong(g, scc).Err? ==> LoopsAmong(g, scc).error in {StopIteration, KeyError}
  {
    LoopsAmongOk(g, scc);
    LoopsAmongLoops(g, scc);
    LoopsAmongErr(g, scc);
  }

  lemma {:induction false} LoopsAmongOk(g: Graph, scc: seq<set<Label>>)
    ensures LoopsAmong(g, scc).Ok? <==> forall i | 0 <= i < |scc| :: LoopTest(g, scc[i]).Ok?
    decreases |scc|
  {
    if scc != [] {
      var init := scc[..|scc| - 1];
      LoopsAmongOk(g, init);
      assert forall i | 0 <= i < |init| :: init[i] == scc[i];
    }
  }

  lemma {:induction false} LoopsAmongLoops(g: Graph, scc: seq<set<Label>>)
    ensures LoopsAmong(g, scc).Ok? ==> forall n :: n in LoopsAmong(g, scc).value <==> n in scc && IsLoop(g, n)
    decreases |scc|
  {
    if scc != [] && LoopsAmong(g, scc).Ok? {
      var init := scc[..|scc| - 1];
      var last := scc[|scc| - 1];
      LoopsAmongLoops(g, init);
      LoopTestMeaning(g, last);
      assert scc == init + [last];
      forall n ensures n in LoopsAmong(g, scc).value <==> n in scc && IsLoop(g, n) {
        if n in scc && n != last {
          var i :| 0 <= i < |scc| && scc[i] == n;
          assert init[i] == n;
        }
      }
    }
  }

  lemma {:induction false} LoopsAmongErr(g: Graph, scc: seq<set<Label>>)
    ensures LoopsAmong(g, scc).Err? ==> LoopsAmong(g, scc).error in {StopIteration, KeyError}
    decreases |scc|
  {
    if scc != [] {
      LoopsAmongErr(g, scc[..|scc| - 1]);
      LoopTestMeaning(g, scc[|scc| - 1]);
    }
  }

  /** An error in a prefix of the components is the error of the whole selection. */
  lemma {:induction false} LoopsAmongPrefixErr(g: Graph, scc: seq<set<Label>>, k: nat)
    requires k <= |scc| && LoopsAmong(g, scc[..k]).Err?
    ensures LoopsAmong(g, scc) == LoopsAmong(g, scc[..k])
    decreases |scc| - k
  {
    if k < |scc| {
      var init := scc[..|scc| - 1];
      assert init[..k] == scc[..k];
      LoopsAmongPrefixErr(g, init, k);
    } else {
      assert scc[..k] == scc;
    }
  }

  /** The loop selection of `restructure_loop`, over the components in order. */
  method SelectLoops(g: Graph, scc: seq<set<Label>>) returns (r: Result<seq<set<Label>>>)
    ensures r == LoopsAmong(g, scc)
  {
    var loops := [];
    for i := 0 to |scc|
      invariant LoopsAmong(g, scc[..i]) == Ok(loops)
    {
      var nodes := scc[i];
      assert scc[..i + 1][..i] == scc[..i];
      var isLoop;
      if |nodes| > 1 {
        isLoop := true;
      } else if nodes == {} {
        LoopsAmongPrefixErr(g, scc, i + 1);
        return Err(StopIteration);
      } else {
        var x := Single(nodes);
        if x !in g {
          LoopsAmongPrefixErr(g, scc, i + 1);
          return Err(KeyError);
        }
        isLoop := x in g[x].Targets();
      }
      if isLoop {
        loops := loops + [nodes];
      }
    }
    assert scc[..|scc|] == scc;
    r := Ok(loops);
  }

  /** One step of `restructure_loop`: `loop` is rotated, then collapsed into a loop region. */
  ghost predicate LoopCollapsed(g: Graph, clg: NameGen, loop: set<Label>, g': Graph, clg': NameGen) {
    exists rot, g1, loop1, h ::
      RotateOutcome(g, clg, loop, Ok(rot), g1, clg', loop1) && Extracted(g1, loop1, LoopRegion, Ok(h), g')
  }

  /**
   * The loop region a successful step leaves under the header `h`: its
   * targets outside the rotated loop are exactly the loop's exits and the loop
   * head is never one of them. After the general path the region's only
   * target is the synthetic exit, so no block of the loop is among them; the
   * fast path keeps every other target of the exiting block.
   */
  lemma LoopRegionTargets(g: Graph, clg: NameGen, loop: set<Label>, rot: Rotation, g1: Graph, clg': NameGen,
                          loop1: set<Label>, h: Label, g': Graph)
    requires RotateOutcome(g, clg, loop, Ok(rot), g1, clg', loop1) && Extracted(g1, loop1, LoopRegion, Ok(h), g')
    ensures h in g' && g'[h].Region? && g'[h].backedges == [] && loop1 <= g1.Keys
    ensures (set t | t in g'[h].jumpTargets && t !in loop1) == ExitsOf(g1, loop1)
    ensures (if rot.FastPath? then rot.loopHead else rot.plan.loopHead) !in g'[h].jumpTargets
    ensures rot.GeneralPath? ==> g'[h].jumpTargets == [rot.plan.synthExit] && ExitsOf(g1, loop1) == {rot.plan.synthExit}
    ensures rot.GeneralPath? ==> forall t | t in g'[h].jumpTargets :: t !in loop1
  {
    RotateOutcomeFacts(g, clg, loop, Ok(rot), g1, clg', loop1);
    RotatedRegionTargets(g1, loop1, rot, h, g');
  }

  /** `LoopRegionTargets`, from what the rotation guarantees about the rotated loop. */
  lemma RotatedRegionTargets(g1: Graph, loop1: set<Label>, rot: Rotation, h: Label, g': Graph)
    requires loop1 <= g1.Keys && Extracted(g1, loop1, LoopRegion, Ok(h), g')
    requires rot.FastPath? ==> forall l | l in loop1 :: g1[l].backedges == [rot.loopHead]
    requires rot.GeneralPath? ==> GeneralShape(rot.plan, g1, loop1)
    ensures h in g' && g'[h].Region? && g'[h].backedges == []
    ensures (set t | t in g'[h].jumpTargets && t !in loop1) == ExitsOf(g1, loop1)
    ensures (if rot.FastPath? then rot.loopHead else rot.plan.loopHead) !in g'[h].jumpTargets
    ensures rot.GeneralPath? ==> g'[h].jumpTargets == [rot.plan.synthExit] && ExitsOf(g1, loop1) == {rot.plan.synthExit}
    ensures rot.GeneralPath? ==> forall t | t in g'[h].jumpTargets :: t !in loop1
  {
    var x :| ExitingOf(g1, loop1) == {x} && g' == Regions.Collapse(g1, loop1, LoopRegion, h, x);
    assert x in ExitingOf(g1, loop1);
    CollapseExits(g1, loop1, LoopRegion, h, x);
    CollapseTargets(g1, loop1, LoopRegion, h, x);
    if rot.GeneralPath? {
      var p := rot.plan;
      var jt := g1[p.latch].Targets();
      assert jt == [p.synthExit] by {
        assert Without([p.loopHead], [p.loopHead]) == [];
      }
      assert p.synthExit in jt;
      assert p.latch in ExitingOf(g1, loop1);
    }
  }

  /** The step of `restructure_loop` on `loop` failed with `e`, in the rotation or in the extraction. */
  ghost predicate LoopFailed(g: Graph, clg: NameGen, loop: set<Label>, e: Error, g': Graph, clg': NameGen) {
    || (exists loop1 :: RotateOutcome(g, clg, loop, Err(e), g', clg', loop1))
    || (exists rot, g1, loop1 :: RotateOutcome(g, clg, loop, Ok(rot), g1, clg', loop1) && Extracted(g1, loop1, LoopRegion, Err(e), g'))
  }

  /** A relation between a state, a loop and the state after it, as the chains below take it. */
  type StepRelation = (Graph, NameGen, set<Label>, Graph, NameGen) -> bool

  /** The step relation of `restructure_loop`: `LoopCollapsed`. */
  ghost function Collapse(): StepRelation {
    (g: Graph, clg: NameGen, loop: set<Label>, g': Graph, clg': NameGen) => LoopCollapsed(g, clg, loop, g', clg')
  }

  /** `gs`, `cs` are states that the first `n` loops of `loops` lead through, one `step` per loop. */
  ghost predicate StepChain(step: StepRelation, loops: seq<set<Label>>, n: nat, gs: seq<Graph>, cs: seq<NameGen>)
    decreases n
  {
    && n <= |loops| && |gs| == n + 1 && |cs| == n + 1
    && (n > 0 ==> StepChain(step, loops, n - 1, gs[..n], cs[..n]) && step(gs[n - 1], cs[n - 1], loops[n - 1], gs[n], cs[n]))
  }

  /** The `i`-th step of a chain relates `gs[i]` to `gs[i + 1]`. */
  lemma {:induction false} StepChainAt(step: StepRelation, loops: seq<set<Label>>, n: nat, gs: seq<Graph>, cs: seq<NameGen>, i: nat)
    requires StepChain(step, loops, n, gs, cs) && i < n
    ensures step(gs[i], cs[i], loops[i], gs[i + 1], cs[i + 1])
    decreases n
  {
    if i < n - 1 {
      StepChainAt(step, loops, n - 1, gs[..n], cs[..n], i);
      assert gs[..n][i] == gs[i] && gs[..n][i + 1] == gs[i + 1] && cs[..n][i] == cs[i] && cs[..n][i + 1] == cs[i + 1];
    }
  }

  /**
   * A chain followed by one more step is a chain one step longer; `ChainSnoc`
   * instantiates it with the loop-collapsing step.
   */
  lemma StepChainSnoc(step: StepRelation, loops: seq<set<Label>>, n: nat, gs: seq<Graph>, cs: seq<NameGen>, g': Graph, clg': NameGen)
    requires StepChain(step, loops, n, gs, cs) && n < |loops| && step(gs[n], cs[n], loops[n], g', clg')
    ensures StepChain(step, loops, n + 1, gs + [g'], cs + [clg'])
  {
    assert (gs + [g'])[..n + 1] == gs && (cs + [clg'])[..n + 1] == cs;
  }

  /** `gs`, `cs` are the states the first `n` loops of `loops` lead through, one collapsed loop each. */
  ghost predicate LoopChain(loops: seq<set<Label>>, n: nat, gs: seq<Graph>, cs: seq<NameGen>) {
    StepChain(Collapse(), loops, n, gs, cs)
  }

  /** Every step of a chain collapses its loop: the `i`-th loop turns `gs[i]` into `gs[i + 1]`. */
  lemma LoopChainStep(loops: seq<set<Label>>, n: nat, gs: seq<Graph>, cs: seq<NameGen>, i: nat)
    requires LoopChain(loops, n, gs, cs) && i < n
    ensures LoopCollapsed(gs[i], cs[i], loops[i], gs[i + 1], cs[i + 1])
  {
    StepChainAt(Collapse(), loops, n, gs, cs, i);
  }

  /**
   * The outcome of `restructure_loop` on `g`, `clg` and the components `scc`:
   * a failed loop selection leaves the graph as it was; otherwise every
   * selected loop in turn is rotated and collapsed into a loop region, and
   * the result is the list of loops, or the first step fails and ends the
   * pass with its error.
   */
  ghost predicate LoopsRestructured(g: Graph, clg: NameGen, scc: seq<set<Label>>, r: Result<seq<set<Label>>>,
                                    g': Graph, clg': NameGen)
  {
    var selected := LoopsAmong(g, scc);
    && (selected.Err? ==> r == selected && g' == g && clg' == clg)
    && (selected.Ok? && r.Ok? ==>
          && r == selected
          && exists gs, cs ::
               && LoopChain(selected.value, |selected.value|, gs, cs) && gs[0] == g && cs[0] == clg
               && gs[|selected.value|] == g' && cs[|selected.value|] == clg')
    && (selected.Ok? && r.Err? ==>
          exists n: nat, gs, cs ::
            && LoopChain(selected.value, n, gs, cs) && n < |selected.value| && gs[0] == g && cs[0] == clg
            && LoopFailed(gs[n], cs[n], selected.value[n], r.error, g', clg'))
  }

  /** The body of the loop of `restructure_loop`: `loop_rotate`, then `extract_region` of the rotated loop. */
  method RestructureOne(g: Graph, clg: NameGen, loop: set<Label>) returns (r: Result<Label>, g': Graph, clg': NameGen)
    requires Bounded(g, clg.index)
    ensures Bounded(g', clg'.index) && clg.index <= clg'.index && clg.variable <= clg'.variable
    ensures r.Ok? ==> LoopCollapsed(g, clg, loop, g', clg')
    ensures r.Err? ==> LoopFailed(g, clg, loop, r.error, g', clg') && r.error in {KeyError, AssertionError, RuntimeError}
  {
    var rotation, g1, loop1;
    rotation, g1, clg', loop1 := Rotate(g, clg, loop);
    if rotation.Err? {
      return Err(rotation.error), g1, clg';
    }
    r, g' := ExtractRegion(g1, loop1, LoopRegion);
    if r.Ok? {
      ExtractedBounded(g1, loop1, LoopRegion, r.value, g', clg'.index);
    }
  }

  /**
   * A chain of collapsed loops followed by one more collapsed loop is one loop
   * longer: the loop invariant `RestructureLoops` keeps after each iteration.
   */
  lemma ChainSnoc(loops: seq<set<Label>>, n: nat, gs: seq<Graph>, cs: seq<NameGen>, g': Graph, clg': NameGen)
    requires LoopChain(loops, n, gs, cs) && n < |loops| && LoopCollapsed(gs[n], cs[n], loops[n], g', clg')
    ensures LoopChain(loops, n + 1, gs + [g'], cs + [clg'])
  {
    StepChainSnoc(Collapse(), loops, n, gs, cs, g', clg');
  }

  /**
   * `restructure_loop` on the given strongly connected components: the loops
   * among them are selected, then each is rotated and collapsed into a loop
   * region, in order; the first error ends the pass. `restructure_loop`
   * itself returns `None`: the list of selected loops in the result is an
   * extra output of the model, which `LoopsRestructured` uses to name the
   * loops the chain of states walks through.
   */
  method RestructureLoops(g: Graph, clg: NameGen, scc: seq<set<Label>>)
    returns (r: Result<seq<set<Label>>>, g': Graph, clg': NameGen)
    requires Bounded(g, clg.index)
    ensures Bounded(g', clg'.index) && clg.index <= clg'.index && clg.variable <= clg'.variable
    ensures LoopsRestructured(g, clg, scc, r, g', clg')
    ensures r.Err? ==> r.error in {StopIteration, KeyError, AssertionError, RuntimeError}
  {
    var selected := SelectLoops(g, scc);
    LoopsAmongMeaning(g, scc);
    g', clg' := g, clg;
    if selected.Err? {
      return selected, g, clg;
    }
    var loops := selected.value;
    ghost var gs, cs := [g], [clg];
    for i := 0 to |loops|
      invariant Bounded(g', clg'.index) && clg.index <= clg'.index && clg.variable <= clg'.variable
      invariant LoopChain(loops, i, gs, cs) && gs[0] == g && cs[0] == clg && gs[i] == g' && cs[i] == clg'
    {
      var step, g2, clg2 := RestructureOne(g', clg', loops[i]);
      if step.Err? {
        return Err(step.error), g2, clg2;
      }
      ChainSnoc(loops, i, gs, cs, g2, clg2);
      gs, cs := gs + [g2], cs + [clg2];
      g', clg' := g2, clg2;
    }
    r := selected;
  }
}
