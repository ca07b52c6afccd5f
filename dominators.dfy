/**
 * Dominator analysis of numba_rvsdg/core/transformations.py: the todo-list
 * fixed point `_find_dominators_internal`, its two seedings `_doms` and
 * `_post_doms`, and the reduction to immediate dominators `_imm_doms`.
 *
 * A predecessor table maps a node to the set of its predecessors; a successor
 * table is its converse. Both default to the empty set (`defaultdict(set)`).
 */
module Dominators {
  import opened Cfg

  type DomMap = map<Label, set<Label>>

  // ---------------------------------------------------------------------------
  // The data-flow equation

  /** The nodes of `universe` lying in every set `doms[p]`, `p` in `ps`. */
  function Meet(doms: DomMap, ps: set<Label>, universe: set<Label>): (r: set<Label>)
    ensures forall x :: x in r <==> x in universe && forall p | p in ps :: x in Get(doms, p)
  {
    set x | x in universe && forall p | p in ps :: x in Get(doms, p)
  }

  /** The right-hand side of the equation: `{n}` joined with the meet of the predecessors' sets. */
  function NewDoms(n: Label, preds: DomMap, doms: DomMap, universe: set<Label>): set<Label> {
    var ps := Get(preds, n);
    {n} + (if ps == {} then {} else Meet(doms, ps, universe))
  }

  /** Every predecessor and every successor named in the tables is a node. */
  ghost predicate TablesWithin(preds: DomMap, succs: DomMap, nodes: set<Label>) {
    && (forall n, p | p in Get(preds, n) :: p in nodes)
    && (forall n, s | s in Get(succs, n) :: s in nodes)
  }

  /** The successor table is the converse of the predecessor table. */
  ghost predicate Converse(preds: DomMap, succs: DomMap) {
    forall n, p | p in Get(preds, n) :: n in Get(succs, p)
  }

  /** Every node that is not an entry has a predecessor. */
  ghost predicate NonEntriesHavePreds(entries: set<Label>, preds: DomMap, nodes: set<Label>) {
    forall n | n in nodes && n !in entries :: Get(preds, n) != {}
  }

  // ---------------------------------------------------------------------------
  // Paths and the path meaning of dominance

  /** `path` runs from an entry to `n`, each step from a predecessor to its successor. */
  ghost predicate IsEntryPath(preds: DomMap, entries: set<Label>, path: seq<Label>, n: Label) {
    && |path| > 0
    && path[0] in entries
    && path[|path| - 1] == n
    && forall i | 0 <= i < |path| - 1 :: path[i] in Get(preds, path[i + 1])
  }

  /** `a` lies on every path from an entry to `n`. */
  ghost predicate OnEveryPath(preds: DomMap, entries: set<Label>, a: Label, n: Label) {
    forall path | IsEntryPath(preds, entries, path, n) :: a in path
  }

  /** The meaning of a dominator map: `doms[n]` holds exactly the nodes on every entry path to `n`. */
  ghost predicate PathDominators(doms: DomMap, preds: DomMap, entries: set<Label>, nodes: set<Label>) {
    forall n, a | n in doms :: a in doms[n] <==> a in nodes && OnEveryPath(preds, entries, a, n)
  }

  // ---------------------------------------------------------------------------
  // The state of the todo-list loop

  /** The sum of the sizes of the sets that `doms` gives the listed nodes. */
  function SumSizes(doms: DomMap, nodes: seq<Label>): nat {
    if nodes == [] then 0 else |Get(doms, nodes[0])| + SumSizes(doms, nodes[1..])
  }

  /** Replacing one set by a smaller one lowers the sum exactly when the node is listed. */
  lemma {:induction false} SumSizesShrinks(doms: DomMap, nodes: seq<Label>, n: Label, s: set<Label>)
    requires n in doms && |s| < |doms[n]|
    ensures n in nodes ==> SumSizes(doms[n := s], nodes) < SumSizes(doms, nodes)
    ensures n !in nodes ==> SumSizes(doms[n := s], nodes) == SumSizes(doms, nodes)
  {
    if nodes != [] {
      SumSizesShrinks(doms, nodes[1..], n, s);
    }
  }

  /**
   * The shape the loop keeps: the keys are the nodes, an entry has the set of
   * itself, every set is made of nodes, and a non-entry contains itself and
   * its right-hand side.
   */
  ghost predicate Shape(doms: DomMap, entries: set<Label>, universe: set<Label>, preds: DomMap) {
    && doms.Keys == universe
    && entries <= universe
    && (forall e | e in entries :: doms[e] == {e})
    && (forall n | n in doms :: doms[n] <= universe)
    && (forall n | n in doms && n !in entries :: n in doms[n] && NewDoms(n, preds, doms, universe) <= doms[n])
  }

  /** A non-entry that is not waiting in the todo list satisfies its equation. */
  ghost predicate Pending(doms: DomMap, todo: seq<Label>, entries: set<Label>, universe: set<Label>, preds: DomMap) {
    forall n | n in doms && n !in entries :: n in todo || doms[n] == NewDoms(n, preds, doms, universe)
  }

  /** Every node on all entry paths to `n` is still in the set of `n`. */
  ghost predicate Complete(doms: DomMap, entries: set<Label>, universe: set<Label>, preds: DomMap) {
    forall n, a | n in doms && a in universe && OnEveryPath(preds, entries, a, n) :: a in doms[n]
  }

  /** Shrinking the predecessors' sets can only shrink the right-hand side. */
  lemma NewDomsMonotone(n: Label, preds: DomMap, d1: DomMap, d2: DomMap, universe: set<Label>)
    requires forall p | p in Get(preds, n) :: Get(d2, p) <= Get(d1, p)
    ensures NewDoms(n, preds, d2, universe) <= NewDoms(n, preds, d1, universe)
  {
  }

  /** The right-hand side for `n` depends only on the sets of `n`'s predecessors. */
  lemma NewDomsLocal(n: Label, preds: DomMap, d1: DomMap, d2: DomMap, universe: set<Label>)
    requires forall p | p in Get(preds, n) :: Get(d2, p) == Get(d1, p)
    ensures NewDoms(n, preds, d2, universe) == NewDoms(n, preds, d1, universe)
  {
  }

  /** An update of one non-entry to its right-hand side keeps the shape. */
  lemma UpdateKeepsShape(doms: DomMap, n: Label, entries: set<Label>, universe: set<Label>, preds: DomMap)
    requires Shape(doms, entries, universe, preds)
    requires n in doms && n !in entries
    ensures Shape(doms[n := NewDoms(n, preds, doms, universe)], entries, universe, preds)
  {
    var d2 := doms[n := NewDoms(n, preds, doms, universe)];
    forall k | k in d2 && k !in entries
      ensures k in d2[k] && NewDoms(k, preds, d2, universe) <= d2[k]
    {
      NewDomsMonotone(k, preds, doms, d2, universe);
    }
  }

  /**
   * An update re-queues the successors of `n`; every other node off the list
   * keeps its equation because its predecessors' sets did not change.
   */
  lemma UpdateKeepsPending(doms: DomMap, todo: seq<Label>, n: Label, more: seq<Label>,
                           entries: set<Label>, universe: set<Label>, preds: DomMap, succs: DomMap)
    requires Converse(preds, succs)
    requires Pending(doms, todo + [n], entries, universe, preds)
    requires n in doms
    requires forall x :: x in more <==> x in Get(succs, n)
    ensures Pending(doms[n := NewDoms(n, preds, doms, universe)], todo + more, entries, universe, preds)
  {
    var d2 := doms[n := NewDoms(n, preds, doms, universe)];
    forall k | k in d2 && k !in entries && k !in todo + more
      ensures d2[k] == NewDoms(k, preds, d2, universe)
    {
      assert n !in Get(preds, k);
      NewDomsLocal(k, preds, doms, d2, universe);
      if k != n {
        assert k in todo + [n] ==> k in todo;
      }
    }
  }

  /** Popping a node that already satisfies its equation, or an entry, keeps the others pending. */
  lemma PopKeepsPending(doms: DomMap, todo: seq<Label>, n: Label, entries: set<Label>, universe: set<Label>, preds: DomMap)
    requires Pending(doms, todo + [n], entries, universe, preds)
    requires n in entries || n !in doms || doms[n] == NewDoms(n, preds, doms, universe)
    ensures Pending(doms, todo, entries, universe, preds)
  {
    forall k | k in doms && k !in entries && k !in todo
      ensures doms[k] == NewDoms(k, preds, doms, universe)
    {
      assert k in todo + [n] ==> k in todo || k == n;
    }
  }

  /**
   * Completeness step: if every node on all entry paths to a predecessor is in
   * that predecessor's set, the right-hand side for `n` keeps every node on all
   * entry paths to `n`.
   */
  lemma NewDomsKeepsPathDominators(n: Label, preds: DomMap, entries: set<Label>, doms: DomMap,
                                   universe: set<Label>, a: Label)
    requires Get(preds, n) != {}
    requires a in universe && OnEveryPath(preds, entries, a, n)
    requires forall p, b | p in Get(preds, n) && b in universe && OnEveryPath(preds, entries, b, p) :: b in Get(doms, p)
    ensures a in NewDoms(n, preds, doms, universe)
  {
    if a != n {
      forall p | p in Get(preds, n) ensures a in Get(doms, p) {
        forall path | IsEntryPath(preds, entries, path, p) ensures a in path {
          var longer := path + [n];
          assert IsEntryPath(preds, entries, longer, n);
          assert a in longer;
        }
      }
    }
  }

  /** An update keeps every path dominator, provided each non-entry has a predecessor. */
  lemma UpdateKeepsComplete(doms: DomMap, n: Label, entries: set<Label>, universe: set<Label>, preds: DomMap)
    requires NonEntriesHavePreds(entries, preds, universe)
    requires Complete(doms, entries, universe, preds)
    requires doms.Keys == universe
    requires forall p | p in Get(preds, n) :: p in doms
    requires n in doms && n !in entries
    ensures Complete(doms[n := NewDoms(n, preds, doms, universe)], entries, universe, preds)
  {
    var d2 := doms[n := NewDoms(n, preds, doms, universe)];
    forall k, a | k in d2 && a in universe && OnEveryPath(preds, entries, a, k) ensures a in d2[k] {
      if k == n {
        NewDomsKeepsPathDominators(n, preds, entries, doms, universe, a);
      }
    }
  }

  /**
   * Soundness: a map that solves the equation at every non-entry node and
   * gives every entry the set of itself only names nodes on every entry path.
   */
  lemma {:induction false} FixpointSound(doms: DomMap, preds: DomMap, entries: set<Label>,
                                         universe: set<Label>, path: seq<Label>, n: Label, a: Label)
    requires n in doms && a in doms[n]
    requires forall k, p | k in doms && p in Get(preds, k) :: p in doms
    requires forall e | e in entries && e in doms :: doms[e] == {e}
    requires forall k | k in doms && k !in entries :: doms[k] == NewDoms(k, preds, doms, universe)
    requires IsEntryPath(preds, entries, path, n)
    ensures a in path
    decreases |path|
  {
    if n in entries || a == n {
      assert path[|path| - 1] == n;
    } else {
      assert |path| > 1;
      var p := path[|path| - 2];
      assert p in Get(preds, n);
      assert a in doms[p];
      var shorter := path[..|path| - 1];
      assert IsEntryPath(preds, entries, shorter, p);
      FixpointSound(doms, preds, entries, universe, shorter, p, a);
    }
  }

  // ---------------------------------------------------------------------------
  // _find_dominators_internal

  /**
   * The todo-list fixed point. Entries get the set of themselves and are never
   * updated; every other node starts with all nodes and is recomputed when it
   * is popped from the end of the list; an update is always a strictly smaller
   * set (the assertion of the source, here proved) and queues the node's
   * successors. The result solves the equation at every non-entry and, when
   * every non-entry has a predecessor, keeps every node on all entry paths.
   */
  method FindDominatorsInternal(entries: set<Label>, nodes: seq<Label>, preds: DomMap, succs: DomMap)
    returns (r: Result<DomMap>)
    requires entries <= Elems(nodes)
    requires TablesWithin(preds, succs, Elems(nodes))
    ensures r.Err? <==> entries == {}
    ensures r.Err? ==> r.error == RuntimeError
    ensures r.Ok? ==> r.value.Keys == Elems(nodes)
    ensures r.Ok? ==> forall e | e in entries :: r.value[e] == {e}
    ensures r.Ok? ==> forall n | n in r.value :: r.value[n] <= Elems(nodes)
    ensures r.Ok? ==> forall n | n in r.value && n !in entries :: n in r.value[n]
    ensures r.Ok? && Converse(preds, succs) ==>
      forall n | n in r.value && n !in entries :: r.value[n] == NewDoms(n, preds, r.value, Elems(nodes))
    ensures r.Ok? && NonEntriesHavePreds(entries, preds, Elems(nodes)) ==>
      Complete(r.value, entries, Elems(nodes), preds)
  {
    if entries == {} {
      return Err(RuntimeError);
    }
    var universe := Elems(nodes);
    var doms, todo := InitialDoms(entries, nodes);
    ghost var withPreds := NonEntriesHavePreds(entries, preds, universe);
    ghost var converse := Converse(preds, succs);

    while todo != []
      invariant Shape(doms, entries, universe, preds)
      invariant forall t | t in todo :: t in universe
      invariant converse ==> Pending(doms, todo, entries, universe, preds)
      invariant withPreds ==> Complete(doms, entries, universe, preds)
      decreases SumSizes(doms, nodes), |todo|
    {
      ghost var full := todo;
      var n := todo[|todo| - 1];
      todo := todo[..|todo| - 1];
      assert todo + [n] == full;
      if n in entries {
        if converse { PopKeepsPending(doms, todo, n, entries, universe, preds); }
        continue;
      }
      var newDoms := NewDoms(n, preds, doms, universe);
      if newDoms != doms[n] {
        ProperSubsetSmaller(newDoms, doms[n]);
        assert |newDoms| < |doms[n]|;
        SumSizesShrinks(doms, nodes, n, newDoms);
        UpdateKeepsShape(doms, n, entries, universe, preds);
        assert forall p | p in Get(preds, n) :: p in doms;
        if withPreds { UpdateKeepsComplete(doms, n, entries, universe, preds); }
        var more := SetToSeq(Get(succs, n));
        if converse { UpdateKeepsPending(doms, todo, n, more, entries, universe, preds, succs); }
        doms := doms[n := newDoms];
        todo := todo + more;
      } else if converse {
        PopKeepsPending(doms, todo, n, entries, universe, preds);
      }
    }
    r := Ok(doms);
  }

  /** The seeding of the fixed point: entries get themselves, every other node all nodes and a place in the list. */
  method InitialDoms(entries: set<Label>, nodes: seq<Label>) returns (doms: DomMap, todo: seq<Label>)
    requires entries <= Elems(nodes)
    ensures forall preds :: Shape(doms, entries, Elems(nodes), preds)
    ensures forall preds :: Pending(doms, todo, entries, Elems(nodes), preds)
    ensures forall preds :: Complete(doms, entries, Elems(nodes), preds)
    ensures forall t | t in todo :: t in nodes
  {
    var universe := Elems(nodes);
    doms := map e | e in entries :: {e};
    todo := [];
    var i := 0;
    while i < |nodes|
      invariant 0 <= i <= |nodes|
      invariant doms.Keys == entries + Elems(nodes[..i])
      invariant forall e | e in entries :: doms[e] == {e}
      invariant forall n | n in doms && n !in entries :: doms[n] == universe
      invariant forall t | t in todo :: t in universe
      invariant forall n | n in nodes[..i] && n !in entries :: n in todo
    {
      var n := nodes[i];
      if n !in entries {
        doms := doms[n := universe];
        todo := todo + [n];
      }
      assert nodes[..i + 1] == nodes[..i] + [n];
      i := i + 1;
    }
    assert nodes[..i] == nodes;
    forall preds ensures Complete(doms, entries, universe, preds) {
      forall n, a | n in doms && a in universe && OnEveryPath(preds, entries, a, n) ensures a in doms[n] {
        if n in entries {
          assert IsEntryPath(preds, entries, [n], n);
        }
      }
    }
  }

  // ---------------------------------------------------------------------------
  // _doms and _post_doms

  /** The in-graph predecessors of `d`: the blocks whose jump targets name it. */
  function Preds(g: Graph, d: Label): set<Label> {
    if d in g then set s | s in g && d in g[s].Targets() else {}
  }

  /** The in-graph successors of `s`: its jump targets that are keys of the graph. */
  function Succs(g: Graph, s: Label): set<Label> {
    if s in g then Elems(g[s].Targets()) * g.Keys else {}
  }

  /** The predecessor table of a graph (`_doms` builds it with `defaultdict(set)`). */
  function PredTable(g: Graph): DomMap {
    map d | d in g :: Preds(g, d)
  }

  /** The successor table of a graph. */
  function SuccTable(g: Graph): DomMap {
    map s | s in g :: Succs(g, s)
  }

  /** Looking a block up in either table gives its predecessors or its successors. */
  lemma TableEntries(g: Graph)
    ensures forall d :: Get(PredTable(g), d) == Preds(g, d)
    ensures forall s :: Get(SuccTable(g), s) == Succs(g, s)
  {
  }

  /** The predecessors of `d` among the listed sources. */
  function PredsAmong(g: Graph, srcs: seq<Label>, d: Label): set<Label> {
    set s | s in srcs && s in g && d in g && d in g[s].Targets()
  }

  lemma PredsAmongSnoc(g: Graph, srcs: seq<Label>, src: Label)
    requires src in g
    ensures forall d :: PredsAmong(g, srcs + [src], d) == PredsAmong(g, srcs, d) + (if d in g && d in g[src].Targets() then {src} else {})
  {
    forall d ensures PredsAmong(g, srcs + [src], d) ==
      PredsAmong(g, srcs, d) + (if d in g && d in g[src].Targets() then {src} else {})
    {
      assert forall s :: s in srcs + [src] <==> s in srcs || s == src;
    }
  }

  /** The edges out of one block, as predecessors: `into[d]` gains `src` for each in-graph target `d`. */
  method AddInto(g: Graph, src: Label, into0: DomMap) returns (into: DomMap)
    requires src in g
    ensures forall d :: Get(into, d) == Get(into0, d) + (if d in g && d in g[src].Targets() then {src} else {})
  {
    into := into0;
    var targets := g[src].Targets();
    var j := 0;
    while j < |targets|
      invariant 0 <= j <= |targets|
      invariant forall d :: Get(into, d) == Get(into0, d) + (if d in g && d in targets[..j] then {src} else {})
    {
      var dst := targets[j];
      assert targets[..j + 1] == targets[..j] + [dst];
      if dst in g {
        into := into[dst := Get(into, dst) + {src}];
      }
      j := j + 1;
    }
    assert targets[..j] == targets;
  }

  /** The edges out of one block, as successors: `outOf[src]` gains each in-graph target. */
  method AddOut(g: Graph, src: Label, outOf0: DomMap) returns (outOf: DomMap)
    requires src in g
    ensures forall s :: Get(outOf, s) == Get(outOf0, s) + (if s == src then Elems(g[src].Targets()) * g.Keys else {})
  {
    outOf := outOf0;
    var targets := g[src].Targets();
    var j := 0;
    while j < |targets|
      invariant 0 <= j <= |targets|
      invariant forall s :: s != src ==> Get(outOf, s) == Get(outOf0, s)
      invariant Get(outOf, src) == Get(outOf0, src) + Elems(targets[..j]) * g.Keys
    {
      var dst := targets[j];
      assert targets[..j + 1] == targets[..j] + [dst];
      assert Elems(targets[..j + 1]) == Elems(targets[..j]) + {dst};
      if dst in g {
        outOf := outOf[src := Get(outOf, src) + {dst}];
      }
      j := j + 1;
    }
    assert targets[..j] == targets;
  }

  /**
   * The double loop of `_doms` and `_post_doms` over every block and every jump
   * target that is a key of the graph: `into[d]` collects the sources of edges
   * into `d`, `outOf[s]` the targets of edges out of `s`. The inner loop that
   * fills both tables at once is here one loop per table.
   */
  method EdgeTables(g: Graph, keys: seq<Label>) returns (into: DomMap, outOf: DomMap)
    requires forall k :: k in keys <==> k in g
    ensures forall n :: Get(into, n) == Preds(g, n)
    ensures forall n :: Get(outOf, n) == Succs(g, n)
  {
    into, outOf := map[], map[];
    var i := 0;
    while i < |keys|
      invariant 0 <= i <= |keys|
      invariant forall d :: Get(into, d) == PredsAmong(g, keys[..i], d)
      invariant forall s :: Get(outOf, s) == if s in keys[..i] then Succs(g, s) else {}
    {
      var src := keys[i];
      assert keys[..i + 1] == keys[..i] + [src];
      PredsAmongSnoc(g, keys[..i], src);
      into := AddInto(g, src, into);
      outOf := AddOut(g, src, outOf);
      i := i + 1;
    }
    assert keys[..i] == keys;
    forall d ensures PredsAmong(g, keys, d) == Preds(g, d) {
      assert forall s :: s in PredsAmong(g, keys, d) <==> s in Preds(g, d);
    }
  }

  /** The blocks without an in-graph predecessor, which seed `_doms`. */
  function Sources(g: Graph): set<Label> {
    set k | k in g && Preds(g, k) == {}
  }

  /** The blocks without an in-graph successor, which seed `_post_doms`. */
  function Sinks(g: Graph): set<Label> {
    set k | k in g && Succs(g, k) == {}
  }

  /** The two edge tables of a graph are each other's converse and name only blocks. */
  lemma TablesAreConverse(g: Graph)
    ensures Converse(PredTable(g), SuccTable(g))
    ensures Converse(SuccTable(g), PredTable(g))
    ensures TablesWithin(PredTable(g), SuccTable(g), g.Keys)
    ensures TablesWithin(SuccTable(g), PredTable(g), g.Keys)
  {
    TableEntries(g);
  }

  /**
   * `_doms`: dominators of every block, seeded with the blocks that have no
   * in-graph predecessor; jump targets that are not keys are ignored. The
   * result is exactly the path meaning: `a` dominates `n` iff `a` lies on
   * every path to `n` from a block without predecessor.
   */
  method Doms(g: Graph) returns (r: Result<DomMap>)
    ensures r.Err? <==> Sources(g) == {}
    ensures r.Err? ==> r.error == RuntimeError
    ensures r.Ok? ==> r.value.Keys == g.Keys
    ensures r.Ok? ==> forall e | e in Sources(g) :: r.value[e] == {e}
    ensures r.Ok? ==> forall n | n in g :: n in r.value[n]
    ensures r.Ok? ==> forall n | n in g && n !in Sources(g) ::
      r.value[n] == NewDoms(n, PredTable(g), r.value, g.Keys)
    ensures r.Ok? ==> PathDominators(r.value, PredTable(g), Sources(g), g.Keys)
  {
    var keys := KeyList(g);
    var preds, succs := EdgeTables(g, keys);
    var entries := NoPreds(g, keys, preds);
    TablesAreConverse(g);
    TableEntries(g);
    r := Seeded(g, keys, entries, preds, succs, PredTable(g), SuccTable(g));
  }

  /** The loop of `_doms` that collects the blocks with an empty predecessor set. */
  method NoPreds(g: Graph, keys: seq<Label>, preds: DomMap) returns (entries: set<Label>)
    requires forall k :: k in keys <==> k in g
    requires forall n :: Get(preds, n) == Preds(g, n)
    ensures entries == Sources(g)
  {
    entries := {};
    var i := 0;
    while i < |keys|
      invariant 0 <= i <= |keys|
      invariant forall k :: k in entries <==> k in keys[..i] && Preds(g, k) == {}
    {
      if Get(preds, keys[i]) == {} {
        entries := entries + {keys[i]};
      }
      assert keys[..i + 1] == keys[..i] + [keys[i]];
      i := i + 1;
    }
    assert keys[..i] == keys;
  }

  /**
   * `_post_doms`: postdominators, seeded with the blocks that have no in-graph
   * successor and computed over the reversed edges.
   */
  method PostDoms(g: Graph) returns (r: Result<DomMap>)
    ensures r.Err? <==> Sinks(g) == {}
    ensures r.Err? ==> r.error == RuntimeError
    ensures r.Ok? ==> r.value.Keys == g.Keys
    ensures r.Ok? ==> forall e | e in Sinks(g) :: r.value[e] == {e}
    ensures r.Ok? ==> forall n | n in g :: n in r.value[n]
    ensures r.Ok? ==> forall n | n in g && n !in Sinks(g) ::
      r.value[n] == NewDoms(n, SuccTable(g), r.value, g.Keys)
    ensures r.Ok? ==> PathDominators(r.value, SuccTable(g), Sinks(g), g.Keys)
  {
    var entries: set<Label> := {};
    var keys := KeyList(g);
    var i := 0;
    while i < |keys|
      invariant 0 <= i <= |keys|
      invariant forall k :: k in entries <==> k in keys[..i] && Succs(g, k) == {}
    {
      var k := keys[i];
      var targets := Elems(g[k].Targets()) * g.Keys;
      if targets == {} {
        entries := entries + {k};
      }
      assert keys[..i + 1] == keys[..i] + [k];
      i := i + 1;
    }
    assert keys[..i] == keys;
    assert entries == Sinks(g);
    var into, outOf := EdgeTables(g, keys);
    TablesAreConverse(g);
    TableEntries(g);
    r := Seeded(g, keys, entries, outOf, into, SuccTable(g), PredTable(g));
  }

  /** `doms` is the dominator map of `g`: one entry per block, each the blocks on every path from a source. */
  ghost predicate DominatorsOf(g: Graph, doms: DomMap) {
    doms.Keys == g.Keys && PathDominators(doms, PredTable(g), Sources(g), g.Keys)
  }

  /** `_doms` stated by its meaning: the dominator map, or the error of a graph without sources. */
  method ComputeDoms(g: Graph) returns (r: Result<DomMap>)
    ensures r.Err? <==> Sources(g) == {}
    ensures r.Err? ==> r.error == RuntimeError
    ensures r.Ok? ==> DominatorsOf(g, r.value)
  {
    r := Doms(g);
  }

  /** `postdoms` is the postdominator map of `g`: one entry per block, each the blocks on every path to a sink. */
  ghost predicate PostDominatorsOf(g: Graph, postdoms: DomMap) {
    postdoms.Keys == g.Keys && PathDominators(postdoms, SuccTable(g), Sinks(g), g.Keys)
  }

  /** `a` dominates `n` in `g`: both are blocks and `a` lies on every path to `n` from a source. */
  ghost predicate Dominates(g: Graph, a: Label, n: Label) {
    a in g && n in g && OnEveryPath(PredTable(g), Sources(g), a, n)
  }

  /** The common tail of `_doms` and `_post_doms`: run the fixed point and read off its meaning. */
  method Seeded(g: Graph, keys: seq<Label>, entries: set<Label>, preds: DomMap, succs: DomMap,
                predSpec: DomMap, succSpec: DomMap) returns (r: Result<DomMap>)
    requires forall k :: k in keys <==> k in g
    requires forall n :: Get(preds, n) == Get(predSpec, n) && Get(succs, n) == Get(succSpec, n)
    requires Converse(predSpec, succSpec) && TablesWithin(predSpec, succSpec, g.Keys)
    requires forall k :: k in entries <==> k in g && Get(predSpec, k) == {}
    ensures r.Err? <==> entries == {}
    ensures r.Err? ==> r.error == RuntimeError
    ensures r.Ok? ==> r.value.Keys == g.Keys
    ensures r.Ok? ==> forall e | e in entries :: r.value[e] == {e}
    ensures r.Ok? ==> forall n | n in g :: n in r.value[n] && r.value[n] <= g.Keys
    ensures r.Ok? ==> forall n | n in g && n !in entries :: r.value[n] == NewDoms(n, predSpec, r.value, g.Keys)
    ensures r.Ok? ==> PathDominators(r.value, predSpec, entries, g.Keys)
  {
    assert Elems(keys) == g.Keys;
    assert Converse(preds, succs) && TablesWithin(preds, succs, g.Keys);
    r := FindDominatorsInternal(entries, keys, preds, succs);
    if r.Ok? {
      var doms := r.value;
      assert NonEntriesHavePreds(entries, preds, g.Keys);
      forall n | n in g && n !in entries
        ensures doms[n] == NewDoms(n, predSpec, doms, g.Keys)
      {
        assert NewDoms(n, preds, doms, g.Keys) == NewDoms(n, predSpec, doms, g.Keys);
      }
      assert forall path, n :: IsEntryPath(predSpec, entries, path, n) <==> IsEntryPath(preds, entries, path, n);
      forall n, a | n in doms ensures a in doms[n] <==> a in g.Keys && OnEveryPath(predSpec, entries, a, n) {
        if a in doms[n] {
          forall path | IsEntryPath(predSpec, entries, path, n) ensures a in path {
            FixpointSound(doms, predSpec, entries, g.Keys, path, n, a);
          }
        } else if a in g.Keys && OnEveryPath(predSpec, entries, a, n) {
          assert OnEveryPath(preds, entries, a, n);
        }
      }
    }
  }

  // ---------------------------------------------------------------------------
  // _imm_doms

  /** Every strict dominator named in `doms` is itself a key of `doms`. */
  ghost predicate Closed(doms: DomMap) {
    forall k, v | k in doms && v in doms[k] && v != k :: v in doms
  }

  /** Two distinct nodes never dominate each other. */
  ghost predicate Antisymmetric(doms: DomMap) {
    forall a, b | a in doms && b in doms && a != b && a in doms[b] :: b !in doms[a]
  }

  /** `d` is the immediate dominator of `k`: a strict dominator dominated by every strict dominator of `k`. */
  ghost predicate IsImmediate(doms: DomMap, d: Label, k: Label) {
    && k in doms && d in doms
    && d in doms[k] && d != k
    && forall w | w in doms[k] && w != k :: w in doms[d]
  }

  /**
   * Every strict dominator of `k` that is not its immediate dominator is the
   * immediate dominator of another strict dominator of `k`, as in a dominator tree.
   */
  ghost predicate Layered(doms: DomMap) {
    forall k, w {:trigger IsImmediate(doms, w, k)} | k in doms && w in doms[k] && w != k && !IsImmediate(doms, w, k) ::
      exists v :: v in doms[k] && v != k && IsImmediate(doms, w, v)
  }

  /**
   * Two immediate dominators of the same node coincide. `FirstPassLeavesAtMostOne`
   * needs it to show that the unpacking `[v] = vs` of `_imm_doms` meets one value.
   */
  lemma ImmediateUnique(doms: DomMap, d1: Label, d2: Label, k: Label)
    requires Antisymmetric(doms)
    requires IsImmediate(doms, d1, k) && IsImmediate(doms, d2, k)
    ensures d1 == d2
  {
  }

  /** The facts every pass of `_imm_doms` keeps about the working sets. */
  ghost predicate Reducing(doms: DomMap, idoms: DomMap) {
    && idoms.Keys == doms.Keys
    && (forall k | k in idoms :: idoms[k] <= doms[k] - {k})
    && (forall k | k in idoms && doms[k] <= {k} :: idoms[k] == {})
    && (Antisymmetric(doms) ==> forall k, d | IsImmediate(doms, d, k) :: d in idoms[k])
  }

  /**
   * What `_imm_doms` guarantees of its outcome `r` on `doms`: `KeyError`
   * exactly when a strict dominator is not a key, otherwise `ValueError` or a
   * table that maps keys to strict dominators, leaves out the keys dominated
   * only by themselves, holds every immediate dominator when the map is
   * antisymmetric, and exists whenever the map is shaped like a dominator tree.
   */
  ghost predicate ImmDomsOutcome(doms: DomMap, r: Result<map<Label, Label>>) {
    && (r.Err? ==> r.error == KeyError || r.error == ValueError)
    && (r.Err? && r.error == KeyError <==> !Closed(doms))
    && (r.Ok? ==> r.value.Keys <= doms.Keys)
    && (r.Ok? ==> forall k | k in r.value :: r.value[k] != k && r.value[k] in doms[k])
    && (r.Ok? ==> forall k | k in doms && doms[k] <= {k} :: k !in r.value)
    && (r.Ok? && Antisymmetric(doms) ==>
          forall k, d | IsImmediate(doms, d, k) :: k in r.value && r.value[k] == d)
    && (Closed(doms) && Antisymmetric(doms) && Layered(doms) ==> r.Ok?)
  }

  /**
   * `_imm_doms`: every key starts with its strict dominators; each pass drops
   * from the set of `k` the current set of each of its members, until a pass
   * changes nothing; then a key whose set is one label maps to it, a key whose
   * set is empty is left out, and a larger set fails the one-element unpacking.
   * A strict dominator that is not a key fails the lookup. When the map is
   * antisymmetric the immediate dominator is never dropped, and when it is
   * also layered like a dominator tree the unpacking never fails.
   */
  method ImmDoms(doms: DomMap) returns (r: Result<map<Label, Label>>)
    ensures ImmDomsOutcome(doms, r)
  {
    var idoms, keys;
    r, idoms, keys := ReduceAll(doms);
    if r.Err? {
      return;
    }
    r := SingleOut(doms, idoms, keys);
  }



  // ---------------------------------------------------------------------------
  // Dominator maps of reached nodes form a tree

  /** Every node has a path from an entry. */
  ghost predicate AllReached(preds: DomMap, entries: set<Label>, nodes: set<Label>) {
    forall n | n in nodes :: exists path :: IsEntryPath(preds, entries, path, n)
  }

  /** Every block of `g` is reached from a block without in-graph predecessor. */
  ghost predicate Reached(g: Graph) {
    AllReached(PredTable(g), Sources(g), g.Keys)
  }

  /** Every block of `g` reaches a block without in-graph successor. */
  ghost predicate Reaching(g: Graph) {
    AllReached(SuccTable(g), Sinks(g), g.Keys)
  }

  /** `doms` has one entry per node and has the path meaning. */
  ghost predicate DomMapOn(doms: DomMap, preds: DomMap, entries: set<Label>, nodes: set<Label>) {
    doms.Keys == nodes && PathDominators(doms, preds, entries, nodes)
  }

  lemma PathPrefix(preds: DomMap, entries: set<Label>, path: seq<Label>, n: Label, i: nat)
    requires IsEntryPath(preds, entries, path, n) && i < |path|
    ensures IsEntryPath(preds, entries, path[..i + 1], path[i])
  {
  }

  /** A path to `p[j]` followed by the rest of the path `p` is a path to the end of `p`. */
  lemma PathSplice(preds: DomMap, entries: set<Label>, q: seq<Label>, p: seq<Label>, n: Label, j: nat)
    requires IsEntryPath(preds, entries, p, n) && j < |p| && IsEntryPath(preds, entries, q, p[j])
    ensures IsEntryPath(preds, entries, q + p[j + 1..], n)
  {
    var s := q + p[j + 1..];
    forall i | 0 <= i < |s| - 1 ensures s[i] in Get(preds, s[i + 1]) {
      if i < |q| - 1 {
        assert s[i] == q[i] && s[i + 1] == q[i + 1];
      } else if i == |q| - 1 {
        assert s[i] == p[j] && s[i + 1] == p[j + 1];
      } else {
        assert s[i] == p[i - |q| + j + 1] && s[i + 1] == p[i - |q| + j + 2];
      }
    }
    assert s[|s| - 1] == n;
  }

  /** The index of the first visit of `a` on `p`. */
  lemma FirstVisit(p: seq<Label>, a: Label) returns (i: nat)
    requires a in p
    ensures i < |p| && p[i] == a && a !in p[..i]
  {
    i := 0;
    while p[i] != a
      invariant i < |p| && a !in p[..i] && a in p[i..]
      decreases |p| - i
    {
      assert p[i..] == [p[i]] + p[i + 1..];
      assert p[..i + 1] == p[..i] + [p[i]];
      i := i + 1;
    }
  }

  /** The index of the last visit of `a` on `p`. */
  lemma LastVisit(p: seq<Label>, a: Label) returns (i: nat)
    requires a in p
    ensures i < |p| && p[i] == a && forall t | i < t < |p| :: p[t] != a
  {
    i := |p| - 1;
    while p[i] != a
      invariant i < |p| && (forall t | i < t < |p| :: p[t] != a) && a in p[..i + 1]
      decreases i
    {
      assert p[..i + 1] == p[..i] + [p[i]];
      i := i - 1;
    }
  }

  lemma DomReflexive(doms: DomMap, preds: DomMap, entries: set<Label>, nodes: set<Label>, n: Label)
    requires DomMapOn(doms, preds, entries, nodes) && n in nodes
    ensures n in doms[n]
  {
    forall path | IsEntryPath(preds, entries, path, n) ensures n in path {
      assert path[|path| - 1] == n;
    }
  }

  lemma DomTransitive(doms: DomMap, preds: DomMap, entries: set<Label>, nodes: set<Label>, a: Label, b: Label, c: Label)
    requires DomMapOn(doms, preds, entries, nodes) && c in nodes && b in doms[c] && a in doms[b]
    ensures a in doms[c]
  {
    assert OnEveryPath(preds, entries, b, c);
    assert OnEveryPath(preds, entries, a, b);
    forall p | IsEntryPath(preds, entries, p, c) ensures a in p {
      assert b in p;
      var j :| 0 <= j < |p| && p[j] == b;
      PathPrefix(preds, entries, p, c, j);
      assert a in p[..j + 1];
    }
  }

  /** The dominators of a dominator of `b` are dominators of `b`, and fewer unless `b` is among them. */
  lemma DomsNested(doms: DomMap, preds: DomMap, entries: set<Label>, nodes: set<Label>, a: Label, b: Label)
    requires DomMapOn(doms, preds, entries, nodes) && b in nodes && a in doms[b]
    ensures doms[a] <= doms[b]
    ensures b !in doms[a] ==> |doms[a]| < |doms[b]|
  {
    forall y | y in doms[a] ensures y in doms[b] {
      DomTransitive(doms, preds, entries, nodes, y, a, b);
    }
    DomReflexive(doms, preds, entries, nodes, b);
    if b !in doms[a] {
      ProperSubsetSmaller(doms[a], doms[b]);
    }
  }

  /** The path to `a` up to its first visit of `a` enters `b` on the way, so `a` does not dominate `b`. */
  lemma FirstVisitAvoids(doms: DomMap, preds: DomMap, entries: set<Label>, nodes: set<Label>, p: seq<Label>, a: Label, b: Label)
    requires DomMapOn(doms, preds, entries, nodes) && IsEntryPath(preds, entries, p, a)
    requires a in doms && b in doms && a != b && b in doms[a]
    ensures a !in doms[b]
  {
    assert p[|p| - 1] == a;
    var i := FirstVisit(p, a);
    PathPrefix(preds, entries, p, a, i);
    assert OnEveryPath(preds, entries, b, a);
    assert b in p[..i + 1];
    var j :| 0 <= j < i + 1 && p[..i + 1][j] == b;
    PathPrefix(preds, entries, p, a, j);
    assert p[..i] == p[..j + 1] + p[j + 1..i];
    assert IsEntryPath(preds, entries, p[..j + 1], b) && a !in p[..j + 1];
  }

  /** Over reached nodes, two distinct nodes never dominate each other. */
  lemma DomAntisymmetric(doms: DomMap, preds: DomMap, entries: set<Label>, nodes: set<Label>)
    requires DomMapOn(doms, preds, entries, nodes) && AllReached(preds, entries, nodes)
    ensures Antisymmetric(doms)
  {
    forall a, b | a in doms && b in doms && a != b && b in doms[a] ensures a !in doms[b] {
      var p :| IsEntryPath(preds, entries, p, a);
      FirstVisitAvoids(doms, preds, entries, nodes, p, a, b);
    }
  }

  /** The dominators of a reached node are ordered by dominance. */
  lemma DomChain(doms: DomMap, preds: DomMap, entries: set<Label>, nodes: set<Label>, p: seq<Label>, k: Label, a: Label, b: Label)
    requires DomMapOn(doms, preds, entries, nodes) && k in nodes && IsEntryPath(preds, entries, p, k)
    requires a in doms[k] && b in doms[k]
    ensures a in doms[b] || b in doms[a]
  {
    if a !in doms[b] {
      assert a in nodes && !OnEveryPath(preds, entries, a, b);
      var q :| IsEntryPath(preds, entries, q, b) && a !in q;
      var j := LastVisit(p, b);
      PathSplice(preds, entries, q, p, k, j);
      assert a in q + p[j + 1..];
      var m :| j + 1 <= m < |p| && p[m] == a;
      var i := LastVisit(p, a);
      assert j < m <= i;
      forall r | IsEntryPath(preds, entries, r, a) ensures b in r {
        PathSplice(preds, entries, r, p, k, i);
        assert b in r + p[i + 1..];
        assert b !in p[i + 1..];
      }
    }
  }

  /** A member of `s` whose dominator set is smallest. */
  lemma {:induction false} SmallestDoms(doms: DomMap, s: set<Label>) returns (v: Label)
    requires s != {} && s <= doms.Keys
    ensures v in s && forall x | x in s :: |doms[v]| <= |doms[x]|
    decreases |s|
  {
    var x :| x in s;
    if s == {x} {
      v := x;
    } else {
      var v' := SmallestDoms(doms, s - {x});
      v := if |doms[x]| < |doms[v']| then x else v';
    }
  }

  /** A member of `s` whose dominator set is largest. */
  lemma {:induction false} LargestDoms(doms: DomMap, s: set<Label>) returns (v: Label)
    requires s != {} && s <= doms.Keys
    ensures v in s && forall x | x in s :: |doms[x]| <= |doms[v]|
    decreases |s|
  {
    var x :| x in s;
    if s == {x} {
      v := x;
    } else {
      var v' := LargestDoms(doms, s - {x});
      v := if |doms[v']| < |doms[x]| then x else v';
    }
  }

  /** The strict dominator of `k` whose immediate dominator is `w`, when `w` is not the immediate dominator of `k`. */
  lemma LayerBelow(doms: DomMap, preds: DomMap, entries: set<Label>, nodes: set<Label>, k: Label, w: Label) returns (v: Label)
    requires DomMapOn(doms, preds, entries, nodes) && AllReached(preds, entries, nodes) && Antisymmetric(doms)
    requires k in doms && w in doms[k] && w != k && !IsImmediate(doms, w, k)
    ensures v in doms[k] && v != k && IsImmediate(doms, w, v)
  {
    var p :| IsEntryPath(preds, entries, p, k);
    var u :| u in doms[k] && u != k && u !in doms[w];
    DomChain(doms, preds, entries, nodes, p, k, u, w);
    DomReflexive(doms, preds, entries, nodes, w);
    var s := set x | x in doms[k] && x != k && x != w && w in doms[x];
    assert u in s;
    v := SmallestDoms(doms, s);
    forall x | x in doms[v] && x != v ensures x in doms[w] {
      DomTransitive(doms, preds, entries, nodes, x, v, k);
      DomChain(doms, preds, entries, nodes, p, k, x, w);
      DomsNested(doms, preds, entries, nodes, x, v);
    }
  }

  /** Every reached node with a strict dominator has an immediate one. */
  lemma ImmediateExists(doms: DomMap, preds: DomMap, entries: set<Label>, nodes: set<Label>, k: Label) returns (d: Label)
    requires DomMapOn(doms, preds, entries, nodes) && AllReached(preds, entries, nodes)
    requires k in doms && doms[k] - {k} != {}
    ensures IsImmediate(doms, d, k)
  {
    var p :| IsEntryPath(preds, entries, p, k);
    d := LargestDoms(doms, doms[k] - {k});
    forall w | w in doms[k] && w != k ensures w in doms[d] {
      DomChain(doms, preds, entries, nodes, p, k, w, d);
      DomReflexive(doms, preds, entries, nodes, w);
      if d in doms[w] {
        DomsNested(doms, preds, entries, nodes, d, w);
      }
    }
  }

  /**
   * The dominator map of nodes that are all reached from an entry is a tree:
   * closed, antisymmetric and layered, and every node with a strict dominator
   * has an immediate one.
   */
  lemma DominatorTree(doms: DomMap, preds: DomMap, entries: set<Label>, nodes: set<Label>)
    requires DomMapOn(doms, preds, entries, nodes) && AllReached(preds, entries, nodes)
    ensures Closed(doms) && Antisymmetric(doms) && Layered(doms)
    ensures forall k | k in doms && doms[k] - {k} != {} :: exists d :: IsImmediate(doms, d, k)
  {
    DomAntisymmetric(doms, preds, entries, nodes);
    forall k, w | k in doms && w in doms[k] && w != k && !IsImmediate(doms, w, k)
      ensures exists v :: v in doms[k] && v != k && IsImmediate(doms, w, v)
    {
      var v := LayerBelow(doms, preds, entries, nodes, k, w);
    }
    forall k | k in doms && doms[k] - {k} != {} ensures exists d :: IsImmediate(doms, d, k) {
      var d := ImmediateExists(doms, preds, entries, nodes, k);
    }
  }

  /** `d` is the immediate dominator of `k` by the path meaning over `nodes`. */
  ghost predicate ImmediateOnPaths(preds: DomMap, entries: set<Label>, nodes: set<Label>, d: Label, k: Label) {
    && d in nodes && k in nodes && d != k && OnEveryPath(preds, entries, d, k)
    && forall w | w in nodes && w != k && OnEveryPath(preds, entries, w, k) :: OnEveryPath(preds, entries, w, d)
  }

  /** `idom` maps exactly the nodes that have a strict dominator, each to its immediate dominator. */
  ghost predicate ImmediateTable(preds: DomMap, entries: set<Label>, nodes: set<Label>, idom: map<Label, Label>) {
    && idom.Keys <= nodes
    && forall k | k in nodes ::
         && (k in idom <==> exists a | a in nodes && a != k :: OnEveryPath(preds, entries, a, k))
         && (k in idom ==> ImmediateOnPaths(preds, entries, nodes, idom[k], k))
  }

  /** On a dominator map of reached nodes, a table with the properties `_imm_doms` guarantees is the immediate-dominator table. */
  lemma ImmDomsOnTree(doms: DomMap, preds: DomMap, entries: set<Label>, nodes: set<Label>, idom: map<Label, Label>)
    requires DomMapOn(doms, preds, entries, nodes) && AllReached(preds, entries, nodes)
    requires idom.Keys <= doms.Keys
    requires forall k | k in idom :: idom[k] != k && idom[k] in doms[k]
    requires forall k, d | IsImmediate(doms, d, k) :: k in idom && idom[k] == d
    ensures ImmediateTable(preds, entries, nodes, idom)
  {
    forall k | k in nodes
      ensures k in idom <==> exists a | a in nodes && a != k :: OnEveryPath(preds, entries, a, k)
      ensures k in idom ==> ImmediateOnPaths(preds, entries, nodes, idom[k], k)
    {
      if k in idom {
        assert idom[k] in doms[k] - {k};
        var d := ImmediateExists(doms, preds, entries, nodes, k);
        assert idom[k] == d;
        forall w | w in nodes && w != k && OnEveryPath(preds, entries, w, k) ensures OnEveryPath(preds, entries, w, d) {
          assert w in doms[k];
        }
      }
      if exists a | a in nodes && a != k :: OnEveryPath(preds, entries, a, k) {
        var a :| a in nodes && a != k && OnEveryPath(preds, entries, a, k);
        assert a in doms[k] - {k};
        var d := ImmediateExists(doms, preds, entries, nodes, k);
      }
    }
  }

  /**
   * `_imm_doms(_doms(g))`, as `restructure_branch` computes it: when every
   * block is reached from a source, the lookups and unpackings never fail and
   * the result is the immediate-dominator table of the graph.
   */
  method ImmediateDominators(g: Graph) returns (r: Result<map<Label, Label>>)
    ensures Sources(g) == {} ==> r == Err(RuntimeError)
    ensures Sources(g) != {} && Reached(g) ==> r.Ok? && ImmediateTable(PredTable(g), Sources(g), g.Keys, r.value)
  {
    var doms := ComputeDoms(g);
    if doms.Err? {
      return Err(RuntimeError);
    }
    r := ImmDoms(doms.value);
    if Reached(g) {
      DominatorTree(doms.value, PredTable(g), Sources(g), g.Keys);
      ImmDomsOnTree(doms.value, PredTable(g), Sources(g), g.Keys, r.value);
    }
  }

  /**
   * `_imm_doms(_post_doms(g))`: when every block reaches a sink, the result is
   * the immediate-postdominator table of the graph.
   */
  method ImmediatePostDominators(g: Graph) returns (r: Result<map<Label, Label>>)
    ensures Sinks(g) == {} ==> r == Err(RuntimeError)
    ensures Sinks(g) != {} && Reaching(g) ==> r.Ok? && ImmediateTable(SuccTable(g), Sinks(g), g.Keys, r.value)
  {
    var postdoms := PostDoms(g);
    if postdoms.Err? {
      return Err(RuntimeError);
    }
    r := ImmDoms(postdoms.value);
    if Reaching(g) {
      DominatorTree(postdoms.value, SuccTable(g), Sinks(g), g.Keys);
      ImmDomsOnTree(postdoms.value, SuccTable(g), Sinks(g), g.Keys, r.value);
    }
  }

  /** The strict dominators of every key, where `_imm_doms` starts. */
  function StrictDoms(doms: DomMap): (idoms: DomMap)
    ensures Reducing(doms, idoms)
    ensures forall k | k in idoms :: idoms[k] == doms[k] - {k}
  {
    map k | k in doms :: doms[k] - {k}
  }

  /** The passes of `_imm_doms`, repeated while one of them shrinks a set. */
  method ReduceAll(doms: DomMap) returns (r: Result<map<Label, Label>>, idoms: DomMap, keys: seq<Label>)
    ensures r.Err? ==> r.error == KeyError && !Closed(doms)
    ensures r.Ok? ==> Reducing(doms, idoms) && Closed(doms) && forall k :: k in keys <==> k in idoms
    ensures r.Ok? && Antisymmetric(doms) && Layered(doms) ==> forall k | k in idoms :: |idoms[k]| <= 1
  {
    idoms := StrictDoms(doms);
    keys := KeyList(idoms);
    ghost var tree := Antisymmetric(doms) && Layered(doms);
    var changed := true;
    ghost var firstPass := true;
    while changed
      invariant Reducing(doms, idoms) && forall k :: k in keys <==> k in idoms
      invariant firstPass ==> changed && forall k | k in idoms :: idoms[k] == doms[k] - {k}
      invariant !firstPass ==> Closed(doms)
      invariant !firstPass && tree ==> forall k | k in idoms :: |idoms[k]| <= 1
      decreases SumSizes(idoms, keys), if changed then 1 else 0
    {
      r, idoms, changed := Pass(doms, idoms, keys, firstPass);
      if r.Err? {
        return;
      }
      firstPass := false;
    }
    r := Ok(map[]);
  }

  /** Replacing the set of `k` by a subset that keeps its immediate dominator keeps the pass facts. */
  lemma UpdateKeepsReducing(doms: DomMap, idoms: DomMap, k: Label, reduced: set<Label>)
    requires Reducing(doms, idoms) && k in idoms && reduced <= idoms[k]
    requires Antisymmetric(doms) ==> forall d | IsImmediate(doms, d, k) :: d in reduced
    ensures Reducing(doms, idoms[k := reduced])
  {
  }

  /** What a pass knows after visiting the first `i` keys. */
  ghost predicate PassInv(doms: DomMap, idoms0: DomMap, idoms: DomMap, keys: seq<Label>, i: nat,
                          firstPass: bool, changed: bool) {
    && i <= |keys|
    && Reducing(doms, idoms)
    && (forall x | 0 <= x < |keys| :: keys[x] in idoms)
    && PassSums(idoms0, idoms, keys, changed)
    && (firstPass ==> FirstPassSoFar(doms, idoms, keys, i))
    && (!firstPass ==> Closed(doms))
    && (Antisymmetric(doms) && Layered(doms) ==> SingletonsSoFar(idoms, keys, i, firstPass))
  }

  /** The sets only shrink, and strictly once something changed. */
  ghost predicate PassSums(idoms0: DomMap, idoms: DomMap, keys: seq<Label>, changed: bool) {
    && SumSizes(idoms, keys) <= SumSizes(idoms0, keys)
    && (changed ==> SumSizes(idoms, keys) < SumSizes(idoms0, keys))
  }

  /** On the first pass the keys not yet visited keep their initial sets, and the visited ones are closed. */
  ghost predicate FirstPassSoFar(doms: DomMap, idoms: DomMap, keys: seq<Label>, i: nat)
    requires i <= |keys|
    requires forall x | 0 <= x < |keys| :: keys[x] in idoms && keys[x] in doms
  {
    && (forall x | i <= x < |keys| :: idoms[keys[x]] == doms[keys[x]] - {keys[x]})
    && (forall x, v | 0 <= x < i && v in doms[keys[x]] && v != keys[x] :: v in doms)
  }

  /** In a dominator tree the visited keys, and after the first pass all keys, hold at most one label. */
  ghost predicate SingletonsSoFar(idoms: DomMap, keys: seq<Label>, i: nat, firstPass: bool)
    requires forall x | 0 <= x < |keys| :: keys[x] in idoms
  {
    && (forall x | 0 <= x < i && x < |keys| :: |idoms[keys[x]]| <= 1)
    && (!firstPass ==> forall k | k in idoms :: |idoms[k]| <= 1)
  }

  /** One pass of `_imm_doms` over every key, reporting whether some set shrank. */
  method Pass(doms: DomMap, idoms0: DomMap, keys: seq<Label>, ghost firstPass: bool)
    returns (r: Result<map<Label, Label>>, idoms: DomMap, changed: bool)
    requires Reducing(doms, idoms0)
    requires Distinct(keys) && forall k :: k in keys <==> k in idoms0
    requires firstPass ==> forall k | k in idoms0 :: idoms0[k] == doms[k] - {k}
    requires !firstPass ==> Closed(doms)
    requires !firstPass && Antisymmetric(doms) && Layered(doms) ==> forall k | k in idoms0 :: |idoms0[k]| <= 1
    ensures r.Err? ==> r.error == KeyError && !Closed(doms)
    ensures r.Ok? ==> Reducing(doms, idoms) && Closed(doms)
    ensures r.Ok? ==> SumSizes(idoms, keys) <= SumSizes(idoms0, keys)
    ensures r.Ok? && changed ==> SumSizes(idoms, keys) < SumSizes(idoms0, keys)
    ensures r.Ok? && Antisymmetric(doms) && Layered(doms) ==> forall k | k in idoms :: |idoms[k]| <= 1
  {
    r := Ok(map[]);
    idoms := idoms0;
    changed := false;
    PassStart(doms, idoms0, keys, firstPass);
    var i := 0;
    while i < |keys|
      invariant r.Ok? && idoms.Keys == idoms0.Keys
      invariant PassInv(doms, idoms0, idoms, keys, i, firstPass, changed)
    {
      r, idoms, changed := Visit(doms, idoms0, idoms, keys, i, firstPass, changed);
      if r.Err? {
        return;
      }
      i := i + 1;
    }
    PassDone(doms, idoms0, idoms, keys, firstPass, changed);
  }

  /** Before a pass visits any key. */
  lemma PassStart(doms: DomMap, idoms0: DomMap, keys: seq<Label>, firstPass: bool)
    requires Reducing(doms, idoms0)
    requires forall k :: k in keys <==> k in idoms0
    requires firstPass ==> forall k | k in idoms0 :: idoms0[k] == doms[k] - {k}
    requires !firstPass ==> Closed(doms)
    requires !firstPass && Antisymmetric(doms) && Layered(doms) ==> forall k | k in idoms0 :: |idoms0[k]| <= 1
    ensures PassInv(doms, idoms0, idoms0, keys, 0, firstPass, false)
  {
  }

  /** A pass that visited every key has checked every key on the first pass and reduced every set in a tree. */
  lemma PassDone(doms: DomMap, idoms0: DomMap, idoms: DomMap, keys: seq<Label>, firstPass: bool, changed: bool)
    requires PassInv(doms, idoms0, idoms, keys, |keys|, firstPass, changed)
    requires forall k :: k in keys <==> k in idoms
    ensures Closed(doms)
    ensures Antisymmetric(doms) && Layered(doms) ==> forall k | k in idoms :: |idoms[k]| <= 1
  {
    if firstPass {
      forall k, v | k in doms && v in doms[k] && v != k ensures v in doms {
        var x :| 0 <= x < |keys| && keys[x] == k;
      }
    }
    if Antisymmetric(doms) && Layered(doms) {
      forall k | k in idoms ensures |idoms[k]| <= 1 {
        var x :| 0 <= x < |keys| && keys[x] == k;
      }
    }
  }

  /** The visit of key `keys[i]` within a pass. */
  method Visit(doms: DomMap, ghost idoms0: DomMap, idoms1: DomMap, keys: seq<Label>, i: nat,
               ghost firstPass: bool, changed1: bool)
    returns (r: Result<map<Label, Label>>, idoms: DomMap, changed: bool)
    requires i < |keys| && Distinct(keys) && forall k :: k in keys <==> k in idoms1
    requires PassInv(doms, idoms0, idoms1, keys, i, firstPass, changed1)
    ensures r.Err? ==> r.error == KeyError && !Closed(doms)
    ensures r.Ok? ==> idoms.Keys == idoms1.Keys && PassInv(doms, idoms0, idoms, keys, i + 1, firstPass, changed)
  {
    var k := keys[i];
    var nstart := |idoms1[k]|;
    var reduced;
    r, reduced := ReduceOne(doms, idoms1, k, firstPass);
    if r.Err? {
      return r, idoms1, changed1;
    }
    idoms := idoms1[k := reduced];
    changed := changed1 || |reduced| < nstart;
    UpdateKeepsReducing(doms, idoms1, k, reduced);
    VisitKeepsSums(idoms0, idoms1, keys, k, reduced, changed1);
    if firstPass {
      VisitKeepsFirstPass(doms, idoms1, keys, i, reduced);
    }
    if Antisymmetric(doms) && Layered(doms) {
      VisitKeepsSingletons(idoms1, keys, i, firstPass, reduced);
    }
  }

  lemma VisitKeepsSums(idoms0: DomMap, idoms1: DomMap, keys: seq<Label>, k: Label, reduced: set<Label>, changed1: bool)
    requires PassSums(idoms0, idoms1, keys, changed1)
    requires k in idoms1 && k in keys && reduced <= idoms1[k]
    ensures PassSums(idoms0, idoms1[k := reduced], keys, changed1 || |reduced| < |idoms1[k]|)
  {
    if |reduced| < |idoms1[k]| {
      SumSizesShrinks(idoms1, keys, k, reduced);
    } else if reduced != idoms1[k] {
      ProperSubsetSmaller(reduced, idoms1[k]);
    } else {
      assert idoms1[k := reduced] == idoms1;
    }
  }

  lemma VisitKeepsFirstPass(doms: DomMap, idoms1: DomMap, keys: seq<Label>, i: nat, reduced: set<Label>)
    requires i < |keys| && Distinct(keys)
    requires forall x | 0 <= x < |keys| :: keys[x] in idoms1 && keys[x] in doms
    requires FirstPassSoFar(doms, idoms1, keys, i)
    requires forall v | v in doms[keys[i]] && v != keys[i] :: v in doms
    ensures FirstPassSoFar(doms, idoms1[keys[i] := reduced], keys, i + 1)
  {
    var k := keys[i];
    var idoms := idoms1[k := reduced];
    forall x | i + 1 <= x < |keys| ensures idoms[keys[x]] == doms[keys[x]] - {keys[x]} {
      assert keys[x] != k;
    }
  }

  lemma VisitKeepsSingletons(idoms1: DomMap, keys: seq<Label>, i: nat, firstPass: bool, reduced: set<Label>)
    requires i < |keys| && Distinct(keys)
    requires forall x | 0 <= x < |keys| :: keys[x] in idoms1
    requires SingletonsSoFar(idoms1, keys, i, firstPass)
    requires |reduced| <= 1
    ensures SingletonsSoFar(idoms1[keys[i] := reduced], keys, i + 1, firstPass)
  {
    var k := keys[i];
    var idoms := idoms1[k := reduced];
    forall x | 0 <= x < i + 1 ensures |idoms[keys[x]]| <= 1 {
      if x != i {
        assert keys[x] != k;
      }
    }
  }

  /** Under antisymmetry the set of a strict dominator `v` of `k` never holds the immediate dominator of `k`. */
  lemma ImmediateNotDropped(doms: DomMap, k: Label, v: Label, s: set<Label>)
    requires Antisymmetric(doms)
    requires k in doms && v in doms && v in doms[k] && v != k && s <= doms[v] - {v}
    ensures forall d | IsImmediate(doms, d, k) :: d !in s
  {
    forall d | IsImmediate(doms, d, k) ensures d !in s {
      assert v in doms[d];
    }
  }

  /**
   * On the first pass the snapshot is every strict dominator; dropping the sets
   * of all of them leaves, in a layered antisymmetric map, at most the
   * immediate dominator.
   */
  lemma FirstPassLeavesAtMostOne(doms: DomMap, idoms: DomMap, k: Label, dropped: set<Label>)
    requires Antisymmetric(doms) && Layered(doms) && Reducing(doms, idoms)
    requires k in idoms && idoms[k] == doms[k] - {k}
    requires forall v | v in doms[k] && v != k :: v in idoms && idoms[v] <= dropped
    ensures |idoms[k] - dropped| <= 1
  {
    forall w | w in idoms[k] && !IsImmediate(doms, w, k) ensures w in dropped {
      var v :| v in doms[k] && v != k && IsImmediate(doms, w, v);
      assert w in idoms[v];
    }
    var reduced := idoms[k] - dropped;
    forall a, b | a in reduced && b in reduced ensures a == b {
      ImmediateUnique(doms, a, b, k);
    }
    AtMostOne(reduced);
  }

  /**
   * The pass of `_imm_doms` over one key: drop from the set of `k` the current
   * set of each label of a snapshot of it. On the first pass the snapshot is
   * every strict dominator, so a missing key is found there.
   */
  method ReduceOne(doms: DomMap, idoms: DomMap, k: Label, ghost firstPass: bool)
    returns (r: Result<map<Label, Label>>, reduced: set<Label>)
    requires Reducing(doms, idoms) && k in idoms
    requires firstPass ==> idoms[k] == doms[k] - {k}
    requires !firstPass ==> Closed(doms)
    requires !firstPass && Antisymmetric(doms) && Layered(doms) ==> |idoms[k]| <= 1
    ensures r.Err? ==> r.error == KeyError && !Closed(doms)
    ensures r.Ok? ==> reduced <= idoms[k]
    ensures r.Ok? && Antisymmetric(doms) ==> forall d | IsImmediate(doms, d, k) :: d in reduced
    ensures r.Ok? && firstPass ==> forall v | v in doms[k] && v != k :: v in doms
    ensures r.Ok? && Antisymmetric(doms) && Layered(doms) ==> |reduced| <= 1
  {
    var snapshot := SetToSeq(idoms[k]);
    ghost var dropped;
    r, reduced, dropped := DropAll(idoms, k, snapshot);
    if r.Err? {
      var j :| 0 <= j < |snapshot| && snapshot[j] !in idoms;
      assert snapshot[j] in doms[k] - {k};
      return;
    }
    assert idoms[k] <= doms[k] - {k};
    if firstPass {
      forall v | v in doms[k] && v != k ensures v in idoms && idoms[v] <= dropped {
        assert v in snapshot;
        var j :| 0 <= j < |snapshot| && snapshot[j] == v;
      }
    }
    if Antisymmetric(doms) {
      forall j | 0 <= j < |snapshot| ensures forall d | IsImmediate(doms, d, k) :: d !in idoms[snapshot[j]] {
        var v := snapshot[j];
        assert v in idoms[k];
        assert idoms[v] <= doms[v] - {v};
        ImmediateNotDropped(doms, k, v, idoms[v]);
      }
      assert forall d | IsImmediate(doms, d, k) :: d in idoms[k];
      if Layered(doms) {
        if firstPass {
          FirstPassLeavesAtMostOne(doms, idoms, k, dropped);
        } else {
          SubsetNoLarger(reduced, idoms[k]);
        }
      }
    }
  }

  /** The inner loop of `_imm_doms`: subtract from the set of `k` the set of each snapshot label in turn. */
  method DropAll(idoms: DomMap, k: Label, snapshot: seq<Label>)
    returns (r: Result<map<Label, Label>>, reduced: set<Label>, ghost dropped: set<Label>)
    requires k in idoms && k !in snapshot
    ensures r.Err? ==> r.error == KeyError && exists j :: 0 <= j < |snapshot| && snapshot[j] !in idoms
    ensures r.Ok? ==> reduced == idoms[k] - dropped
    ensures r.Ok? ==> forall j | 0 <= j < |snapshot| :: snapshot[j] in idoms && idoms[snapshot[j]] <= dropped
    ensures r.Ok? ==> forall x | x in dropped :: exists j :: 0 <= j < |snapshot| && snapshot[j] in idoms && x in idoms[snapshot[j]]
  {
    r := Ok(map[]);
    reduced := idoms[k];
    dropped := {};
    var j := 0;
    while j < |snapshot|
      invariant 0 <= j <= |snapshot|
      invariant reduced == idoms[k] - dropped
      invariant forall i | 0 <= i < j :: snapshot[i] in idoms && idoms[snapshot[i]] <= dropped
      invariant forall x | x in dropped :: exists i :: 0 <= i < j && snapshot[i] in idoms && x in idoms[snapshot[i]]
    {
      var v := snapshot[j];
      if v !in idoms {
        return Err(KeyError), reduced, dropped;
      }
      reduced := reduced - idoms[v];
      dropped := dropped + idoms[v];
      j := j + 1;
    }
  }

  /** The output loop of `_imm_doms`: a one-label set gives the key its immediate dominator. */
  method SingleOut(doms: DomMap, idoms: DomMap, keys: seq<Label>) returns (r: Result<map<Label, Label>>)
    requires Reducing(doms, idoms) && forall k :: k in keys <==> k in idoms
    ensures r.Err? ==> r.error == ValueError
    ensures r.Ok? ==> r.value.Keys <= doms.Keys
    ensures r.Ok? ==> forall k | k in r.value :: r.value[k] != k && r.value[k] in doms[k]
    ensures r.Ok? ==> forall k | k in doms && doms[k] <= {k} :: k !in r.value
    ensures r.Ok? ==> forall k, d | k in idoms && d in idoms[k] :: k in r.value && r.value[k] == d
    ensures (forall k | k in idoms :: |idoms[k]| <= 1) ==> r.Ok?
  {
    var out: map<Label, Label> := map[];
    var i := 0;
    while i < |keys|
      invariant 0 <= i <= |keys|
      invariant out.Keys <= doms.Keys
      invariant forall k | k in out :: out[k] != k && out[k] in doms[k] && idoms[k] == {out[k]}
      invariant forall k | k in keys[..i] && idoms[k] != {} :: k in out
      invariant forall k | k in out :: k in keys[..i]
    {
      var k := keys[i];
      var vs := idoms[k];
      if vs != {} {
        if |vs| != 1 {
          return Err(ValueError);
        }
        var v :| v in vs;
        assert vs == {v} by {
          if exists w :: w in vs && w != v {
            var w :| w in vs && w != v;
            SubsetNoLarger({v, w}, vs);
          }
        }
        out := out[k := v];
      }
      assert keys[..i + 1] == keys[..i] + [k];
      i := i + 1;
    }
    assert keys[..i] == keys;
    r := Ok(out);
  }
}
