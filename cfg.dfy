/**
 * Labels, blocks and the block map of the restructuring core.
 *
 * A control-flow graph is a map from label to block. Every block carries an
 * ordered list of jump targets and the list of targets it marks as backedges;
 * the variants add a control-variable assignment, a branch on a control
 * variable, or a nested region. The helpers that the restructuring passes call
 * on the block map (header/exit queries, the fresh-name generator, header
 * unification) are given simple definitional models here.
 */
module Cfg {

  /** The kinds of label: one for blocks of the original program, one per kind of synthetic block. */
  datatype LabelKind =
    | PythonBytecode
    | SyntheticForIter
    | SyntheticHead
    | SyntheticBranch
    | SyntheticExitingLatch
    | SyntheticExit
    | SyntheticAssignment

  /** A label: its kind and the number it was built from. */
  datatype Label = Label(kind: LabelKind, index: nat)

  predicate IsSynthetic(l: Label) {
    l.kind != PythonBytecode
  }

  /** Control variables are names issued by the shared generator; a number stands for the name. */
  type Variable = nat

  /** A value stored into a control variable: a table key, or the marker "UNUSED". */
  datatype Value = Num(n: nat) | Unused

  datatype RegionKind = HeadRegion | BranchRegion | LoopRegion | TailRegion

  /**
   * The closed set of block variants. A branch value table maps the value `i`
   * of its variable to `table[i]`; every table the core builds enumerates its
   * targets from 0, so a sequence holds it exactly.
   */
  datatype Block =
    | Basic(jumpTargets: seq<Label>, backedges: seq<Label>)
    | ControlVariable(jumpTargets: seq<Label>, backedges: seq<Label>, assignment: map<Variable, Value>)
    | Branch(jumpTargets: seq<Label>, backedges: seq<Label>, variable: Variable, table: seq<Label>)
    | Region(jumpTargets: seq<Label>, backedges: seq<Label>, kind: RegionKind,
             headers: set<Label>, subregion: map<Label, Block>, exit: Label)
  {
    /** Copy of this block with other jump targets. */
    function ReplaceJumpTargets(jt: seq<Label>): (b: Block)
      ensures b.jumpTargets == jt && b.backedges == backedges
    {
      this.(jumpTargets := jt)
    }

    /**
     * The `jump_targets` property: the jump targets that are not marked as
     * backedges, in order. The `jumpTargets` field is the stored list
     * (`_jump_targets`), which keeps them.
     */
    function Targets(): (r: seq<Label>)
      ensures forall t {:trigger t in r} :: t in r <==> t in jumpTargets && t !in backedges
      ensures |r| <= |jumpTargets|
      ensures backedges == [] ==> r == jumpTargets
    {
      Without(jumpTargets, backedges)
    }

    /** Copy of this block that marks `head` as its backedge. */
    function ReplaceBackedge(head: Label): (b: Block)
      ensures b.backedges == [head] && b.jumpTargets == jumpTargets
    {
      this.(backedges := [head])
    }
  }

  /** `xs` without the elements of `drop`, order kept. */
  function Without(xs: seq<Label>, drop: seq<Label>): (r: seq<Label>)
    ensures forall t {:trigger t in r} :: t in r <==> t in xs && t !in drop
    ensures |r| <= |xs|
    ensures drop == [] ==> r == xs
  {
    if xs == [] then []
    else (if xs[0] in drop then [] else [xs[0]]) + Without(xs[1..], drop)
  }

  type Graph = map<Label, Block>

  /** The exceptions the core can raise, and `Diverges` for a loop of the source that never ends. */
  datatype Error =
    | AssertionError
    | KeyError
    | ValueError
    | RuntimeError
    | StopIteration
    | Diverges

  datatype Result<T> = Ok(value: T) | Err(error: Error)

  /** Lookup in a table that defaults to the empty set, like a `defaultdict(set)`. */
  function Get(t: map<Label, set<Label>>, n: Label): set<Label> {
    if n in t then t[n] else {}
  }

  /** The labels listed in a sequence. */
  function Elems(xs: seq<Label>): (s: set<Label>)
    ensures forall x :: x in s <==> x in xs
  {
    set x | x in xs
  }

  predicate Distinct(xs: seq<Label>) {
    forall i, j :: 0 <= i < j < |xs| ==> xs[i] != xs[j]
  }

  /** Python's iteration over a set: every element once, in an unspecified order. */
  method SetToSeq(s: set<Label>) returns (xs: seq<Label>)
    ensures Distinct(xs) && |xs| == |s|
    ensures forall x :: x in xs <==> x in s
  {
    xs := [];
    var rest := s;
    while rest != {}
      invariant Distinct(xs)
      invariant rest !! Elems(xs) && rest + Elems(xs) == s
      invariant |xs| + |rest| == |s|
      decreases |rest|
    {
      var x :| x in rest;
      assert x !in xs;
      xs := xs + [x];
      rest := rest - {x};
    }
  }

  /** `list(d.keys())` of a dictionary: every key once, in an unspecified order. */
  method KeyList<V>(m: map<Label, V>) returns (xs: seq<Label>)
    ensures Distinct(xs) && |xs| == |m.Keys|
    ensures forall x :: x in xs <==> x in m
  {
    xs := SetToSeq(m.Keys);
  }

  lemma ProperSubsetSmaller(a: set<Label>, b: set<Label>)
    requires a <= b && a != b
    ensures |a| < |b|
  {
    var x :| x in b && x !in a;
    var c := b - a;
    assert b == a + c && a !! c;
    assert x in c;
  }

  lemma SubsetNoLarger(a: set<Label>, b: set<Label>)
    requires a <= b
    ensures |a| <= |b|
  {
    var c := b - a;
    assert b == a + c && a !! c;
  }

  lemma AtMostOne(s: set<Label>)
    requires forall a, b | a in s && b in s :: a == b
    ensures |s| <= 1
  {
    if s != {} {
      var a :| a in s;
      assert s == {a};
    }
  }

  /** Position of the first occurrence of `x`, like Python's `list.index`. */
  function IndexOf(xs: seq<Label>, x: Label): (i: nat)
    requires x in xs
    ensures i < |xs| && xs[i] == x
    ensures forall j | 0 <= j < i :: xs[j] != x
  {
    if xs[0] == x then 0 else 1 + IndexOf(xs[1..], x)
  }

  /** `jt[jt.index(a)] = b` when `a` occurs in `jt`; the list unchanged otherwise. */
  function ReplaceFirst(xs: seq<Label>, a: Label, b: Label): (r: seq<Label>)
    ensures |r| == |xs|
    ensures a !in xs ==> r == xs
    ensures a in xs ==> r[IndexOf(xs, a)] == b
    ensures forall j | 0 <= j < |xs| && (a !in xs || j != IndexOf(xs, a)) :: r[j] == xs[j]
  {
    if a in xs then xs[IndexOf(xs, a) := b] else xs
  }

  /** The counters of the shared label generator: the next block index and the next control variable. */
  datatype NameGen = NameGen(index: nat, variable: nat)

  /** `l` cannot collide with a synthetic label the generator issues from `next` on. */
  predicate Below(l: Label, next: nat) {
    IsSynthetic(l) ==> l.index < next
  }

  /** Every label the graph names, as a key or as a jump target, lies below the counter. */
  ghost predicate Bounded(g: Graph, next: nat) {
    forall l | l in g :: Below(l, next) && forall t | t in g[l].jumpTargets :: Below(t, next)
  }

  lemma BoundedFresh(g: Graph, next: nat, kind: LabelKind)
    requires Bounded(g, next) && kind != PythonBytecode
    ensures Label(kind, next) !in g
    ensures forall l | l in g :: Label(kind, next) !in g[l].jumpTargets
  {
  }

  /** The jump targets of `b` all lie below the counter. */
  predicate TargetsBelow(b: Block, next: nat) {
    forall t | t in b.jumpTargets :: Below(t, next)
  }

  lemma BoundedUpdate(g: Graph, l: Label, b: Block, next: nat)
    requires Bounded(g, next) && Below(l, next) && TargetsBelow(b, next)
    ensures Bounded(g[l := b], next)
  {
  }

  /** Replacing the block at a known key and adding one under the next fresh label keep the graph bounded. */
  lemma BoundedReplaceAdd(g: Graph, src: Label, b: Block, kind: LabelKind, nb: Block, next: nat)
    requires Bounded(g, next) && src in g && TargetsBelow(b, next) && TargetsBelow(nb, next + 1)
    ensures Bounded(g[src := b][Label(kind, next) := nb], next + 1)
  {
  }

  lemma BoundedRaise(g: Graph, next: nat, next': nat)
    requires Bounded(g, next) && next <= next'
    ensures Bounded(g, next')
  {
  }

  /**
   * The block map: the graph of blocks and the label generator it shares with
   * its subgraphs. The restructuring passes update both fields in place.
   */
  class BlockMap {
    var graph: Graph
    var clg: NameGen

    ghost predicate Valid()
      reads this
    {
      Bounded(graph, clg.index)
    }
  }

  /** Blocks outside `sub` that jump into it. */
  function EntriesOf(g: Graph, sub: set<Label>): set<Label> {
    set o | o in g && o !in sub && exists t | t in g[o].Targets() :: t in sub
  }

  /** Labels of `sub` that a block outside `sub` jumps to. */
  function RawHeaders(g: Graph, sub: set<Label>): set<Label> {
    set h | h in sub && exists o | o in g && o !in sub :: h in g[o].Targets()
  }

  /** Keys that no block jumps to. */
  function HeadsOf(g: Graph): set<Label> {
    set k | k in g && forall o | o in g :: k !in g[o].Targets()
  }

  /**
   * The headers of `sub`: the labels with an outside predecessor, or, when
   * there are none, the graph's single head (an assertion fails when the graph
   * does not have exactly one).
   */
  function HeadersOf(g: Graph, sub: set<Label>): (r: Result<set<Label>>)
    ensures r.Ok? ==> r.value != {}
    ensures r.Err? ==> r.error == AssertionError
  {
    var raw := RawHeaders(g, sub);
    if raw != {} then Ok(raw)
    else if |HeadsOf(g)| == 1 then Ok(HeadsOf(g))
    else Err(AssertionError)
  }

  /** Labels of `sub` with a jump target outside `sub`. */
  function ExitingOf(g: Graph, sub: set<Label>): set<Label>
    requires sub <= g.Keys
  {
    set x | x in sub && exists t | t in g[x].Targets() :: t !in sub
  }

  /** Jump targets outside `sub` of the labels of `sub`. */
  function ExitsOf(g: Graph, sub: set<Label>): set<Label>
    requires sub <= g.Keys
  {
    set x, t | x in sub && t in g[x].Targets() && t !in sub :: t
  }

  lemma ExitingHasExit(g: Graph, sub: set<Label>)
    requires sub <= g.Keys
    ensures ExitingOf(g, sub) != {} <==> ExitsOf(g, sub) != {}
  {
    if ExitingOf(g, sub) != {} {
      var x :| x in ExitingOf(g, sub);
      var t :| t in g[x].Targets() && t !in sub;
      assert t in ExitsOf(g, sub);
    }
    if ExitsOf(g, sub) != {} {
      var t :| t in ExitsOf(g, sub);
      var x :| x in sub && t in g[x].Targets() && t !in sub;
      assert x in ExitingOf(g, sub);
    }
  }

  /** The element of a singleton set, like `next(iter(s))`. */
  method Single(s: set<Label>) returns (x: Label)
    requires |s| == 1
    ensures s == {x}
  {
    x :| x in s;
    forall y | y in s ensures y == x {
      if y != x {
        SubsetNoLarger({y, x}, s);
      }
    }
  }

  /** The graph's unique head; an assertion fails unless there is exactly one. */
  method FindHead(g: Graph) returns (r: Result<Label>)
    ensures r.Ok? <==> |HeadsOf(g)| == 1
    ensures r.Ok? ==> HeadsOf(g) == {r.value}
    ensures r.Err? ==> r.error == AssertionError
  {
    var heads := HeadsOf(g);
    if |heads| != 1 {
      return Err(AssertionError);
    }
    var h := Single(heads);
    r := Ok(h);
  }

  /** `jt` with every target in `from` replaced by `to`. */
  function Redirect(jt: seq<Label>, from: set<Label>, to: Label): (r: seq<Label>)
    ensures |r| == |jt|
    ensures forall i | 0 <= i < |jt| :: r[i] == (if jt[i] in from then to else jt[i])
  {
    if jt == [] then [] else [if jt[0] in from then to else jt[0]] + Redirect(jt[1..], from, to)
  }

  /**
   * `g'` and `clg'` after the header unification stand-in put `newLabel`
   * between `preds` and `succs`: one new key, a branch block on the next
   * control variable whose table enumerates the successors once each, and
   * every predecessor's edges into the successors redirected to it.
   */
  ghost predicate ControlBlocksInserted(g: Graph, clg: NameGen, newLabel: Label, preds: set<Label>, succs: set<Label>,
                                        g': Graph, clg': NameGen)
  {
    && clg' == clg.(variable := clg.variable + 1)
    && g'.Keys == g.Keys + {newLabel}
    && g'[newLabel].Branch? && g'[newLabel].variable == clg.variable && g'[newLabel].backedges == []
    && g'[newLabel].jumpTargets == g'[newLabel].table
    && Distinct(g'[newLabel].table) && Elems(g'[newLabel].table) == succs
    && forall p | p in g && p != newLabel ::
         g'[p] == if p in preds then g[p].ReplaceJumpTargets(Redirect(g[p].Targets(), succs, newLabel)) else g[p]
  }

  /**
   * Stand-in for the block map's header unification: a branch block
   * `newLabel` that jumps to each successor, on a fresh control variable, and
   * every edge from a predecessor to a successor redirected to `newLabel`.
   */
  method InsertBlockAndControlBlocks(g: Graph, clg: NameGen, newLabel: Label, preds: set<Label>, succs: set<Label>)
    returns (g': Graph, clg': NameGen)
    requires Bounded(g, clg.index) && Below(newLabel, clg.index)
    requires forall s | s in succs :: Below(s, clg.index)
    ensures Bounded(g', clg'.index)
    ensures ControlBlocksInserted(g, clg, newLabel, preds, succs, g', clg')
  {
    clg' := clg.(variable := clg.variable + 1);
    g' := RedirectPreds(g, preds, succs, newLabel, clg.index);
    var successors := SetToSeq(succs);
    g' := g'[newLabel := Branch(successors, [], clg.variable, successors)];
  }

  /** The edges from `preds` to `succs` redirected to `newLabel`. */
  method RedirectPreds(g: Graph, preds: set<Label>, succs: set<Label>, newLabel: Label, next: nat) returns (g': Graph)
    requires Bounded(g, next) && Below(newLabel, next)
    ensures g'.Keys == g.Keys && Bounded(g', next)
    ensures forall p | p in g ::
      g'[p] == if p in preds then g[p].ReplaceJumpTargets(Redirect(g[p].Targets(), succs, newLabel)) else g[p]
  {
    g' := g;
    var todo := preds;
    while todo != {}
      invariant todo <= preds
      invariant g'.Keys == g.Keys && Bounded(g', next)
      invariant forall p | p in g ::
        g'[p] == if p in preds - todo then g[p].ReplaceJumpTargets(Redirect(g[p].Targets(), succs, newLabel)) else g[p]
      decreases |todo|
    {
      var p :| p in todo;
      todo := todo - {p};
      if p in g' {
        var jt := g'[p].Targets();
        var b := g'[p].ReplaceJumpTargets(Redirect(jt, succs, newLabel));
        assert TargetsBelow(b, next) by {
          forall t | t in b.jumpTargets ensures Below(t, next) {
            var i :| 0 <= i < |b.jumpTargets| && b.jumpTargets[i] == t;
            assert jt[i] in jt;
          }
        }
        BoundedUpdate(g', p, b, next);
        g' := g'[p := b];
      }
    }
  }

  /** Every label the graph names, as a key or as a jump target. */
  function Named(g: Graph): set<Label> {
    g.Keys + set l, t | l in g && t in g[l].jumpTargets :: t
  }

  /** The labels reachable from `s` by following the jump targets of the blocks among them. */
  function Closure(g: Graph, s: set<Label>): (r: set<Label>)
    requires s <= Named(g)
    ensures s <= r <= Named(g)
    ensures JumpClosed(g, r)
    decreases |Named(g) - s|
  {
    var s' := s + set n, t | n in s && n in g && t in g[n].Targets() :: t;
    if s' == s then s
    else
      ProperSubsetSmaller(Named(g) - s', Named(g) - s);
      Closure(g, s')
  }

  /** Every jump target of a block of `r` is in `r`. */
  ghost predicate JumpClosed(g: Graph, r: set<Label>) {
    forall n, t | n in r && n in g && t in g[n].Targets() :: t in r
  }

  /** The closure is the least closed set containing `s`. */
  lemma {:induction false} ClosureLeast(g: Graph, s: set<Label>, c: set<Label>)
    requires s <= Named(g) && s <= c && JumpClosed(g, c)
    ensures Closure(g, s) <= c
    decreases |Named(g) - s|
  {
    var s' := s + set n, t | n in s && n in g && t in g[n].Targets() :: t;
    if s' != s {
      ProperSubsetSmaller(Named(g) - s', Named(g) - s);
      ClosureLeast(g, s', c);
    }
  }

  /**
   * `path` leads from `begin` to `end` by one or more jumps, continuing only
   * through keys.
   */
  ghost predicate JumpPath(g: Graph, begin: Label, end: Label, path: seq<Label>) {
    && |path| >= 2 && path[0] == begin && path[|path| - 1] == end
    && forall i | 0 <= i < |path| - 1 :: path[i] in g && path[i + 1] in g[path[i]].Targets()
  }

  /** The labels reached from `begin` along a path. */
  ghost function ReachedFrom(g: Graph, begin: Label): set<Label> {
    set t | t in Named(g) && exists path :: JumpPath(g, begin, t, path)
  }

  lemma TargetNamed(g: Graph, n: Label, t: Label)
    requires n in g && t in g[n].Targets()
    ensures t in Named(g)
  {
  }

  lemma PathExtend(g: Graph, begin: Label, n: Label, t: Label, path: seq<Label>)
    requires JumpPath(g, begin, n, path) && n in g && t in g[n].Targets()
    ensures JumpPath(g, begin, t, path + [t])
  {
  }

  /** Every label on a path from `begin` lies in a closed set holding `begin`'s targets. */
  lemma {:induction false} PathInClosed(g: Graph, begin: Label, end: Label, path: seq<Label>, c: set<Label>)
    requires JumpPath(g, begin, end, path) && begin in g && Elems(g[begin].Targets()) <= c && JumpClosed(g, c)
    ensures end in c
    decreases |path|
  {
    if |path| > 2 {
      var prefix := path[..|path| - 1];
      assert JumpPath(g, begin, path[|path| - 2], prefix);
      PathInClosed(g, begin, path[|path| - 2], prefix, c);
    }
  }

  /** Exactly the labels reached by a path make up the closure of `begin`'s targets. */
  lemma ClosureReached(g: Graph, begin: Label)
    requires begin in g
    ensures Closure(g, Elems(g[begin].Targets())) == ReachedFrom(g, begin)
  {
    var seed := Elems(g[begin].Targets());
    var reached := ReachedFrom(g, begin);
    forall t | t in seed ensures t in reached {
      TargetNamed(g, begin, t);
      assert JumpPath(g, begin, t, [begin, t]);
    }
    forall n, t | n in reached && n in g && t in g[n].Targets() ensures t in reached {
      var path :| JumpPath(g, begin, n, path);
      PathExtend(g, begin, n, t, path);
      TargetNamed(g, n, t);
    }
    ClosureLeast(g, seed, reached);
    forall t | t in reached ensures t in Closure(g, seed) {
      var path :| JumpPath(g, begin, t, path);
      PathInClosed(g, begin, t, path, Closure(g, seed));
    }
  }

  /** A label is reached from `begin` exactly when a path leads to it. */
  lemma ReachedPath(g: Graph, begin: Label, end: Label)
    ensures end in ReachedFrom(g, begin) <==> exists path :: JumpPath(g, begin, end, path)
  {
    if path :| JumpPath(g, begin, end, path) {
      assert path[|path| - 2] in g && end in g[path[|path| - 2]].Targets();
      TargetNamed(g, path[|path| - 2], end);
    }
  }

  /**
   * The block map's depth-first reachability test: whether `end` is reached
   * from `begin` by one or more jumps, continuing only through keys; looking
   * up a `begin` that is not a key raises `KeyError`.
   */
  function IsReachableDfs(g: Graph, begin: Label, end: Label): (r: Result<bool>)
    ensures r.Err? <==> begin !in g
    ensures r.Err? ==> r.error == KeyError
    ensures r.Ok? ==> (r.value <==> exists path :: JumpPath(g, begin, end, path))
    ensures r.Ok? && end in g[begin].Targets() ==> r.value
  {
    if begin !in g then Err(KeyError)
    else
      ClosureReached(g, begin);
      ReachedPath(g, begin, end);
      assert end in g[begin].Targets() ==> JumpPath(g, begin, end, [begin, end]);
      Ok(end in Closure(g, Elems(g[begin].Targets())))
  }
}
