/**
 * Region extraction: a set of blocks with one header and one exiting block
 * is collapsed into a single region block that holds the set as its
 * subgraph, sits under the header's label, and jumps where the exiting block
 * jumped (its targets that are not backedges).
 */
module Regions {
  import opened Cfg

  /** The exit recorded for a region whose exiting block is `x`: a nested region passes on its own exit. */
  function RegionExit(g: Graph, x: Label): Label
    requires x in g
  {
    if g[x].Region? then g[x].exit else x
  }

  /** The region block that replaces `sub`, headed by `h` and leaving through `x`. */
  function RegionOf(g: Graph, sub: set<Label>, kind: RegionKind, h: Label, x: Label): Block
    requires sub <= g.Keys && x in g
  {
    Region(g[x].Targets(), [], kind, {h}, map l | l in sub :: g[l], RegionExit(g, x))
  }

  /** `g` with the blocks of `sub` removed and the region block stored under `h`. */
  function Collapse(g: Graph, sub: set<Label>, kind: RegionKind, h: Label, x: Label): Graph
    requires sub <= g.Keys && x in g
  {
    (map l | l in g && l !in sub :: g[l])[h := RegionOf(g, sub, kind, h, x)]
  }

  /**
   * The outcome `r`, `g'` of `extract_region` on `g` and `sub`: it fails,
   * leaving the graph as it was, exactly when the header computation fails, a
   * label of `sub` is not a key (`KeyError`) or there is not exactly one
   * header and one exiting block (`AssertionError`); otherwise the result is
   * the header and `g'` is `g` collapsed around it and the exiting block.
   */
  ghost predicate Extracted(g: Graph, sub: set<Label>, kind: RegionKind, r: Result<Label>, g': Graph) {
    var hs := HeadersOf(g, sub);
    && (r.Err? <==> hs.Err? || !(sub <= g.Keys) || |hs.value| != 1 || |ExitingOf(g, sub)| != 1)
    && (r.Err? ==> g' == g && r.error in {AssertionError, KeyError})
    && (r.Err? ==> (r.error == KeyError <==> hs.Ok? && !(sub <= g.Keys)))
    && (r.Ok? ==> hs == Ok({r.value}) && sub <= g.Keys &&
                  exists x :: ExitingOf(g, sub) == {x} && g' == Collapse(g, sub, kind, r.value, x))
  }

  /**
   * `extract_region`: the headers and the exiting blocks of `sub` are
   * computed (a label of `sub` that is not a key raises `KeyError`), exactly
   * one of each is asserted, and the graph is collapsed around them. The
   * result is the header.
   */
  method ExtractRegion(g: Graph, sub: set<Label>, kind: RegionKind) returns (r: Result<Label>, g': Graph)
    ensures Extracted(g, sub, kind, r, g')
  {
    var headers := HeadersOf(g, sub);
    if headers.Err? {
      return Err(AssertionError), g;
    }
    if !(sub <= g.Keys) {
      return Err(KeyError), g;
    }
    var exiting := ExitingOf(g, sub);
    if |headers.value| != 1 || |exiting| != 1 {
      return Err(AssertionError), g;
    }
    var h := Single(headers.value);
    var x := Single(exiting);
    var subgraph := map l | l in sub :: g[l];
    var exit := if g[x].Region? then g[x].exit else x;
    var region := Region(g[x].Targets(), [], kind, headers.value, subgraph, exit);
    g' := map l | l in g && l !in sub :: g[l];
    g' := g'[h := region];
    r := Ok(h);
  }

  /** The collapse keeps the counter bound: the region block jumps where a block of `g` jumped. */
  lemma CollapseBounded(g: Graph, sub: set<Label>, kind: RegionKind, h: Label, x: Label, next: nat)
    requires Bounded(g, next) && sub <= g.Keys && x in sub && HeadersOf(g, sub) == Ok({h})
    ensures Bounded(Collapse(g, sub, kind, h, x), next)
  {
    var raw := RawHeaders(g, sub);
    if raw == {} {
      assert h in HeadsOf(g);
    } else {
      assert h in raw;
    }
  }

  /**
   * Nothing outside the region is lost or changed, and the region block holds
   * exactly the blocks of `sub`, unchanged.
   */
  lemma CollapseKeeps(g: Graph, sub: set<Label>, kind: RegionKind, h: Label, x: Label, l: Label)
    requires sub <= g.Keys && x in sub && HeadersOf(g, sub) == Ok({h}) && l in g
    ensures var g' := Collapse(g, sub, kind, h, x);
      h in g' && (l in sub ==> l in g'[h].subregion && g'[h].subregion[l] == g[l]) &&
      (l !in sub && l != h ==> l in g' && g'[l] == g[l]) &&
      g'.Keys == g.Keys - sub + {h}
  {
    var raw := RawHeaders(g, sub);
    if raw == {} {
      assert h in HeadsOf(g);
    } else {
      assert h in raw;
    }
  }

  /**
   * The collapse leaves no dangling edge behind: a block outside the region
   * still jumps only to keys, because the one label of `sub` it can jump to
   * is the header, whose key the region block takes over.
   */
  lemma CollapseClosed(g: Graph, sub: set<Label>, kind: RegionKind, h: Label, x: Label, l: Label, t: Label)
    requires sub <= g.Keys && x in sub && HeadersOf(g, sub) == Ok({h})
    requires l in g && l !in sub && l != h && t in g[l].Targets() && t in g
    ensures t in Collapse(g, sub, kind, h, x)
  {
    if t in sub {
      assert t in RawHeaders(g, sub);
    }
  }

  /** With `x` the only exiting block, the region block leaves `sub` for exactly the exits of `sub`. */
  lemma CollapseExits(g: Graph, sub: set<Label>, kind: RegionKind, h: Label, x: Label)
    requires sub <= g.Keys && ExitingOf(g, sub) == {x}
    ensures var b := Collapse(g, sub, kind, h, x)[h];
      (set t | t in b.jumpTargets && t !in sub) == ExitsOf(g, sub)
  {
    var b := Collapse(g, sub, kind, h, x)[h];
    assert x in ExitingOf(g, sub);
    forall t | t in ExitsOf(g, sub) ensures t in b.jumpTargets && t !in sub {
      var y :| y in sub && t in g[y].Targets() && t !in sub;
      assert y in ExitingOf(g, sub);
    }
  }

  /**
   * The region block has no backedges of its own and jumps exactly where the
   * exiting block jumped, leaving out that block's backedges; its targets all
   * lie outside `sub` exactly when they are the exits of `sub`.
   */
  lemma CollapseTargets(g: Graph, sub: set<Label>, kind: RegionKind, h: Label, x: Label)
    requires sub <= g.Keys && ExitingOf(g, sub) == {x}
    ensures var b := Collapse(g, sub, kind, h, x)[h];
      && b.Region? && b.backedges == [] && b.Targets() == b.jumpTargets
      && (forall t :: t in b.jumpTargets <==> t in g[x].jumpTargets && t !in g[x].backedges)
      && ((forall t | t in b.jumpTargets :: t !in sub) <==> Elems(b.jumpTargets) == ExitsOf(g, sub))
  {
    CollapseExits(g, sub, kind, h, x);
  }

  /** A successful extraction keeps the counter bound. */
  lemma ExtractedBounded(g: Graph, sub: set<Label>, kind: RegionKind, h: Label, g': Graph, next: nat)
    requires Bounded(g, next) && sub <= g.Keys && HeadersOf(g, sub) == Ok({h})
    requires exists x :: ExitingOf(g, sub) == {x} && g' == Collapse(g, sub, kind, h, x)
    ensures Bounded(g', next)
  {
    var x :| ExitingOf(g, sub) == {x} && g' == Collapse(g, sub, kind, h, x);
    assert x in ExitingOf(g, sub);
    CollapseBounded(g, sub, kind, h, x, next);
  }
}
