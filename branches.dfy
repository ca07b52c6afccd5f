/**
 * Branch restructuring: detecting branch regions from the immediate
 * dominators and postdominators, partitioning the graph into a head, one arm
 * per jump target of the branching block and a tail, and collapsing each
 * part into a region block.
 */
module Branches {
  import opened Cfg
  import opened Dominators
  import opened Regions

  /** A candidate branch region: the branching block and the block where its arms meet again. */
  datatype BranchPair = BranchPair(begin: Label, end: Label)

  /** `begin` has more than one jump target and an immediate postdominator. */
  predicate Forks(g: Graph, postimmdoms: map<Label, Label>, begin: Label)
    requires begin in g
  {
    |g[begin].Targets()| > 1 && begin in postimmdoms
  }

  /** The pair that `_iter_branch_regions` yields for `begin`: the arms meet at `end`, and `begin` dominates `end` immediately. */
  predicate IsBranchPair(g: Graph, immdoms: map<Label, Label>, postimmdoms: map<Label, Label>, p: BranchPair)
    requires p.begin in g
  {
    Forks(g, postimmdoms, p.begin) && postimmdoms[p.begin] == p.end && p.end in immdoms && immdoms[p.end] == p.begin
  }

  /**
   * `_iter_branch_regions` over the blocks listed in `keys`, in order: the
   * pairs for the forking blocks whose immediate postdominator has `begin`
   * as immediate dominator. Looking up an immediate postdominator that has
   * no immediate dominator raises `KeyError`.
   */
  function IterBranchRegions(g: Graph, keys: seq<Label>, immdoms: map<Label, Label>, postimmdoms: map<Label, Label>)
    : (r: Result<seq<BranchPair>>)
    requires forall k | k in keys :: k in g
    ensures r.Err? ==> r.error == KeyError
    ensures r.Err? <==> exists k | k in keys :: Forks(g, postimmdoms, k) && postimmdoms[k] !in immdoms
    ensures r.Ok? ==> forall p :: p in r.value <==> p.begin in keys && IsBranchPair(g, immdoms, postimmdoms, p)
  {
    if keys == [] then Ok([])
    else
      var begin := keys[0];
      var rest := IterBranchRegions(g, keys[1..], immdoms, postimmdoms);
      if !Forks(g, postimmdoms, begin) then rest
      else
        var end := postimmdoms[begin];
        if end !in immdoms then Err(KeyError)
        else if rest.Err? then rest
        else if immdoms[end] == begin then Ok([BranchPair(begin, end)] + rest.value)
        else rest
  }

  // ---------------------------------------------------------------------------
  // The head

  /**
   * `path` is the walk of `find_head_blocks`: it starts at the graph's single
   * head, ends at `begin`, visits no block twice, and each block before
   * `begin` has exactly one jump target, the next block of the walk.
   */
  ghost predicate WalkTo(g: Graph, path: seq<Label>, begin: Label) {
    && |path| > 0
    && HeadsOf(g) == {path[0]}
    && path[|path| - 1] == begin
    && Distinct(path)
    && forall i | 0 <= i < |path| - 1 :: path[i] in g && g[path[i]].Targets() == [path[i + 1]]
  }

  /**
   * `path` is a walk in progress: it starts at the single head, its steps are
   * single jumps, it visits no block twice, only its last block may be
   * `begin`, and it is a prefix of every complete walk.
   */
  ghost predicate WalkPrefix(g: Graph, path: seq<Label>, begin: Label) {
    && |path| > 0
    && HeadsOf(g) == {path[0]}
    && Distinct(path)
    && (forall i | 0 <= i < |path| - 1 :: path[i] in g && g[path[i]].Targets() == [path[i + 1]])
    && (forall i | 0 <= i < |path| - 1 :: path[i] != begin)
    && forall w | WalkTo(g, w, begin) :: |path| <= |w| && w[..|path|] == path
  }

  /**
   * `find_head_blocks`: the blocks on the straight-line walk from the graph's
   * single head to `begin`. The walk fails when the graph has no single head,
   * when it reaches a label that is not a key or a block without exactly one
   * jump target (an assertion), and it never ends when it comes back to a
   * block it has visited. The walk succeeds exactly when such a path exists.
   */
  method FindHeadBlocks(g: Graph, begin: Label) returns (r: Result<set<Label>>)
    ensures r.Err? ==> r.error in {AssertionError, KeyError, Diverges}
    ensures |HeadsOf(g)| != 1 ==> r == Err(AssertionError)
    ensures r.Ok? <==> exists path :: WalkTo(g, path, begin)
    ensures r.Ok? ==> exists path :: WalkTo(g, path, begin) && Elems(path) == r.value
  {
    var head := FindHead(g);
    if head.Err? {
      return Err(AssertionError);
    }
    var current := head.value;
    var blocks := {current};
    ghost var path := [current];
    WalkStart(g, current, begin);
    while current != begin
      invariant WalkPrefix(g, path, begin) && path[|path| - 1] == current
      invariant Elems(path) == blocks && blocks <= Named(g)
      decreases |Named(g) - blocks|
    {
      if current !in g {
        NoWalkPast(g, path, begin);
        return Err(KeyError);
      }
      var jt := g[current].Targets();
      if |jt| != 1 || jt[0] in blocks {
        NoWalkPast(g, path, begin);
        return Err(if |jt| != 1 then AssertionError else Diverges);
      }
      var next := jt[0];
      WalkStep(g, path, begin, next);
      NamedStep(g, blocks, current, next);
      path := path + [next];
      blocks := blocks + {next};
      current := next;
    }
    assert WalkTo(g, path, begin);
    r := Ok(blocks);
  }

  /** A jump target outside `blocks` enlarges them within the named labels. */
  lemma NamedStep(g: Graph, blocks: set<Label>, l: Label, next: Label)
    requires blocks <= Named(g) && l in g && |g[l].Targets()| == 1 && next == g[l].Targets()[0] && next !in blocks
    ensures blocks + {next} <= Named(g) && |Named(g) - (blocks + {next})| < |Named(g) - blocks|
  {
    assert next in g[l].Targets();
    ProperSubsetSmaller(Named(g) - (blocks + {next}), Named(g) - blocks);
  }

  /** The one-block walk at the single head is a prefix of every walk. */
  lemma WalkStart(g: Graph, head: Label, begin: Label)
    requires HeadsOf(g) == {head}
    ensures WalkPrefix(g, [head], begin)
  {
    forall w | WalkTo(g, w, begin) ensures 1 <= |w| && w[..1] == [head] {
      assert w[0] == head;
    }
  }

  /** A walk in progress that has not reached `begin` extends by the last block's single jump target. */
  lemma WalkStep(g: Graph, path: seq<Label>, begin: Label, next: Label)
    requires WalkPrefix(g, path, begin)
    requires path[|path| - 1] != begin && path[|path| - 1] in g && g[path[|path| - 1]].Targets() == [next]
    requires next !in path
    ensures WalkPrefix(g, path + [next], begin)
    ensures Elems(path + [next]) == Elems(path) + {next}
  {
    var path' := path + [next];
    forall w | WalkTo(g, w, begin) ensures |path'| <= |w| && w[..|path'|] == path' {
      WalkStepOne(g, path, begin, next, w);
    }
    forall i | 0 <= i < |path'| - 1 ensures path'[i] in g && g[path'[i]].Targets() == [path'[i + 1]] {
      if i < |path| - 1 {
        assert path'[i] == path[i] && path'[i + 1] == path[i + 1];
      }
    }
    forall i | 0 <= i < |path'| - 1 ensures path'[i] != begin {
      assert path'[i] == path[i];
    }
    forall i, j | 0 <= i < j < |path'| ensures path'[i] != path'[j] {
      if j < |path| {
        assert path'[i] == path[i] && path'[j] == path[j];
      } else {
        assert path'[i] == path[i] && path'[j] == next;
      }
    }
    assert Elems(path') == Elems(path) + {next};
  }

  lemma WalkStepOne(g: Graph, path: seq<Label>, begin: Label, next: Label, w: seq<Label>)
    requires WalkPrefix(g, path, begin) && WalkTo(g, w, begin)
    requires path[|path| - 1] != begin && path[|path| - 1] in g && g[path[|path| - 1]].Targets() == [next]
    ensures |path| + 1 <= |w| && w[..|path| + 1] == path + [next]
  {
    var k := |path| - 1;
    assert w[k] == path[k];
    assert k < |w| - 1;
    assert w[k + 1] == next;
    assert w[..k + 2] == w[..k + 1] + [w[k + 1]];
  }

  /** When the last block of a walk in progress is not `begin` and leads to no new block, no walk exists. */
  lemma NoWalkPast(g: Graph, path: seq<Label>, begin: Label)
    requires WalkPrefix(g, path, begin) && path[|path| - 1] != begin
    requires var c := path[|path| - 1];
      c !in g || |g[c].Targets()| != 1 || g[c].Targets()[0] in path
    ensures forall w :: !WalkTo(g, w, begin)
  {
    forall w ensures !WalkTo(g, w, begin) {
      NotWalk(g, path, begin, w);
    }
  }

  lemma NotWalk(g: Graph, path: seq<Label>, begin: Label, w: seq<Label>)
    requires WalkPrefix(g, path, begin) && path[|path| - 1] != begin
    requires var c := path[|path| - 1];
      c !in g || |g[c].Targets()| != 1 || g[c].Targets()[0] in path
    ensures !WalkTo(g, w, begin)
  {
    var k := |path| - 1;
    if |path| <= |w| && w[..|path|] == path {
      assert w[k] == path[k];
      if |w| == |path| {
        assert w[|w| - 1] != begin;
      } else if w[k] !in g || |g[w[k]].Targets()| != 1 || w[k + 1] != g[w[k]].Targets()[0] {
        assert k < |w| - 1 && !(w[k] in g && g[w[k]].Targets() == [w[k + 1]]);
      } else {
        var j :| 0 <= j < |path| && path[j] == w[k + 1];
        assert w[j] == w[k + 1] && j < k + 1;
      }
    }
  }

  // ---------------------------------------------------------------------------
  // The arms

  /** An arm of the branch: none when its start is reached from a sibling, else its start and interior. */
  datatype Arm = NoArm | Arm(start: Label, inner: set<Label>)

  /** The target `jt[i]` is reached from one of its siblings that is a key. */
  ghost predicate SiblingReaches(g: Graph, jt: seq<Label>, i: nat)
    requires i < |jt|
  {
    exists j | 0 <= j < |jt| :: jt[j] != jt[i] && jt[j] in g && IsReachableDfs(g, jt[j], jt[i]) == Ok(true)
  }

  /**
   * What `find_branch_regions` finds for the target `jt[i]`: no arm when a
   * sibling reaches it; otherwise the arm starting there, whose interior is
   * exactly the blocks the start dominates and `end` does not.
   */
  ghost predicate ArmFor(g: Graph, jt: seq<Label>, i: nat, end: Label, a: Arm)
    requires i < |jt|
  {
    && (a.NoArm? <==> SiblingReaches(g, jt, i))
    && (a.Arm? ==> a.start == jt[i] && forall k :: k in a.inner <==> Dominates(g, jt[i], k) && !Dominates(g, end, k))
  }

  /**
   * The reachability tests for `jt[i]` fail: its siblings are tried in order,
   * and one that is not a key is tried before any sibling that reaches it.
   */
  ghost predicate ArmFails(g: Graph, jt: seq<Label>, i: nat)
    requires i < |jt|
  {
    exists j | 0 <= j < |jt| ::
      && jt[j] != jt[i] && jt[j] !in g
      && forall j' | 0 <= j' < j && jt[j'] != jt[i] :: IsReachableDfs(g, jt[j'], jt[i]) == Ok(false)
  }

  /** The arms of the targets `jt`: `KeyError` exactly when the tests of some target fail, else one arm per target. */
  ghost predicate ArmsFound(g: Graph, jt: seq<Label>, end: Label, r: Result<seq<Arm>>) {
    && (r.Err? <==> exists i | 0 <= i < |jt| :: ArmFails(g, jt, i))
    && (r.Err? ==> r.error == KeyError)
    && (r.Ok? ==> |r.value| == |jt| && forall i | 0 <= i < |jt| :: ArmFor(g, jt, i, end, r.value[i]))
  }

  /** The maps `_doms` and `_post_doms` compute, and the outcomes of `_imm_doms` on them. */
  datatype Tables = Tables(doms: DomMap, postdoms: DomMap,
                           postimmdoms: Result<map<Label, Label>>, immdoms: Result<map<Label, Label>>)

  /**
   * `t` holds what the dominator computations give on a graph with a source
   * and a sink: its dominator and postdominator maps, the outcome of
   * `_imm_doms` on the postdominators, and, when that succeeds, the outcome of
   * `_imm_doms` on the dominators.
   */
  ghost predicate TablesOf(g: Graph, t: Tables) {
    && DominatorsOf(g, t.doms) && PostDominatorsOf(g, t.postdoms)
    && ImmDomsOutcome(t.postdoms, t.postimmdoms)
    && (t.postimmdoms.Ok? ==> ImmDomsOutcome(t.doms, t.immdoms))
  }

  /**
   * The outcome of `find_branch_regions` after the dominator computations:
   * the first failing `_imm_doms`, `KeyError` for a `begin` that is not a key,
   * or the arms of its jump targets.
   */
  ghost predicate ArmsStage(g: Graph, t: Tables, begin: Label, end: Label, r: Result<seq<Arm>>) {
    if t.postimmdoms.Err? then r == Err(t.postimmdoms.error)
    else if t.immdoms.Err? then r == Err(t.immdoms.error)
    else if begin !in g then r == Err(KeyError)
    else ArmsFound(g, g[begin].Targets(), end, r)
  }

  /**
   * `find_branch_regions`: the dominator, postdominator and both immediate
   * maps are computed (each can fail), then one arm per jump target of
   * `begin`, in order.
   */
  method FindBranchRegions(g: Graph, begin: Label, end: Label) returns (r: Result<seq<Arm>>)
    ensures Sources(g) == {} || Sinks(g) == {} ==> r == Err(RuntimeError)
    ensures Sources(g) != {} && Sinks(g) != {} ==> exists t :: TablesOf(g, t) && ArmsStage(g, t, begin, end, r)
  {
    var tables := DomTables(g);
    if tables.Err? {
      return Err(RuntimeError);
    }
    var t := tables.value;
    if t.postimmdoms.Err? {
      r := Err(t.postimmdoms.error);
    } else if t.immdoms.Err? {
      r := Err(t.immdoms.error);
    } else if begin !in g {
      r := Err(KeyError);
    } else {
      r := FindArms(g, g[begin].Targets(), end, t.doms);
    }
    assert ArmsStage(g, t, begin, end, r);
  }

  /**
   * The dominator computations that `find_branch_regions` and
   * `restructure_branch` start with: `_doms`, `_post_doms`, then `_imm_doms`
   * of the postdominators and, when that succeeds, of the dominators.
   */
  method DomTables(g: Graph) returns (r: Result<Tables>)
    ensures r.Err? <==> Sources(g) == {} || Sinks(g) == {}
    ensures r.Err? ==> r.error == RuntimeError
    ensures r.Ok? ==> TablesOf(g, r.value)
  {
    var doms := ComputeDoms(g);
    if doms.Err? {
      return Err(RuntimeError);
    }
    var postdoms := PostDoms(g);
    if postdoms.Err? {
      return Err(RuntimeError);
    }
    var postimmdoms := ImmDoms(postdoms.value);
    var immdoms := postimmdoms;
    if postimmdoms.Ok? {
      immdoms := ImmDoms(doms.value);
    }
    r := Ok(Tables(doms.value, postdoms.value, postimmdoms, immdoms));
  }

  /** The loop of `find_branch_regions` over the jump targets `jt` of `begin`, one arm each. */
  method FindArms(g: Graph, jt: seq<Label>, end: Label, doms: DomMap) returns (r: Result<seq<Arm>>)
    requires DominatorsOf(g, doms)
    ensures ArmsFound(g, jt, end, r)
  {
    var arms := [];
    for i := 0 to |jt|
      invariant |arms| == i
      invariant forall j | 0 <= j < i :: ArmFor(g, jt, j, end, arms[j]) && !ArmFails(g, jt, j)
    {
      var arm := FindArm(g, jt, i, end, doms);
      if arm.Err? {
        return Err(KeyError);
      }
      arms := arms + [arm.value];
    }
    r := Ok(arms);
  }

  /**
   * One arm of `find_branch_regions`: the siblings are tried in order, and
   * the first that reaches `jt[i]` leaves no arm; a sibling that is not a key
   * raises `KeyError` in the reachability test.
   */
  method FindArm(g: Graph, jt: seq<Label>, i: nat, end: Label, doms: DomMap) returns (r: Result<Arm>)
    requires i < |jt| && DominatorsOf(g, doms)
    ensures r.Err? <==> ArmFails(g, jt, i)
    ensures r.Err? ==> r.error == KeyError
    ensures r.Ok? ==> ArmFor(g, jt, i, end, r.value)
  {
    for j := 0 to |jt|
      invariant forall j' | 0 <= j' < j && jt[j'] != jt[i] :: IsReachableDfs(g, jt[j'], jt[i]) == Ok(false)
    {
      if jt[j] != jt[i] {
        var reach := IsReachableDfs(g, jt[j], jt[i]);
        if reach.Err? {
          return Err(KeyError);
        }
        if reach.value {
          NoFailurePast(g, jt, i, j);
          return Ok(NoArm);
        }
      }
    }
    var inner := Dominated(doms, jt[i], end);
    forall k ensures k in inner <==> Dominates(g, jt[i], k) && !Dominates(g, end, k) {
      if k in doms {
        assert jt[i] in doms[k] <==> Dominates(g, jt[i], k);
        assert end in doms[k] <==> Dominates(g, end, k);
      }
    }
    r := Ok(Arm(jt[i], inner));
  }

  /** The tests for `jt[i]` cannot fail once a key sibling `jt[j]`, tried after non-reaching ones, reaches it. */
  lemma NoFailurePast(g: Graph, jt: seq<Label>, i: nat, j: nat)
    requires i < |jt| && j < |jt| && jt[j] != jt[i] && IsReachableDfs(g, jt[j], jt[i]) == Ok(true)
    requires forall j' | 0 <= j' < j && jt[j'] != jt[i] :: IsReachableDfs(g, jt[j'], jt[i]) == Ok(false)
    ensures !ArmFails(g, jt, i)
  {
  }

  /** The blocks of the dominator map whose dominators include `start` and not `end`. */
  method Dominated(doms: DomMap, start: Label, end: Label) returns (inner: set<Label>)
    ensures forall k :: k in inner <==> k in doms && start in doms[k] && end !in doms[k]
  {
    var keys := KeyList(doms);
    inner := {};
    for i := 0 to |keys|
      invariant forall k :: k in inner <==> k in keys[..i] && start in doms[k] && end !in doms[k]
    {
      if start in doms[keys[i]] && end !in doms[keys[i]] {
        inner := inner + {keys[i]};
      }
      assert keys[..i + 1] == keys[..i] + [keys[i]];
    }
    assert keys[..|keys|] == keys;
  }

  // ---------------------------------------------------------------------------
  // The tail

  /** `k` is the start or an interior block of one of the arms. */
  ghost predicate InArm(arms: seq<Arm>, k: Label) {
    exists i | 0 <= i < |arms| :: arms[i].Arm? && (arms[i].start == k || k in arms[i].inner)
  }

  /**
   * `find_tail_blocks`: every key that is not a head block, not the start or
   * an interior block of an arm, and not `begin`.
   */
  method FindTailBlocks(g: Graph, begin: Label, head: set<Label>, arms: seq<Arm>) returns (tail: set<Label>)
    ensures forall k :: k in tail <==> k in g && k !in head && !InArm(arms, k) && k != begin
  {
    tail := g.Keys - head;
    for i := 0 to |arms|
      invariant forall k :: k in tail <==> k in g && k !in head && !InArm(arms[..i], k)
    {
      if arms[i].Arm? {
        tail := DiscardArm(tail, arms, i, g, head);
      }
      InArmSnoc(arms, i);
    }
    assert arms[..|arms|] == arms;
    tail := tail - {begin};
  }

  /** The start of the arm and then each of its interior blocks discarded from the tail. */
  method DiscardArm(tail: set<Label>, arms: seq<Arm>, i: nat, ghost g: Graph, ghost head: set<Label>) returns (tail': set<Label>)
    requires i < |arms| && arms[i].Arm?
    ensures tail' == tail - {arms[i].start} - arms[i].inner
  {
    tail' := tail - {arms[i].start};
    var todo := arms[i].inner;
    while todo != {}
      invariant todo <= arms[i].inner
      invariant tail' == tail - {arms[i].start} - (arms[i].inner - todo)
      decreases |todo|
    {
      var s :| s in todo;
      todo := todo - {s};
      tail' := tail' - {s};
    }
  }

  lemma InArmSnoc(arms: seq<Arm>, i: nat)
    requires i < |arms|
    ensures forall k :: InArm(arms[..i + 1], k) <==>
      InArm(arms[..i], k) || (arms[i].Arm? && (arms[i].start == k || k in arms[i].inner))
  {
    assert arms[..i + 1] == arms[..i] + [arms[i]];
    forall k | InArm(arms[..i + 1], k)
      ensures InArm(arms[..i], k) || (arms[i].Arm? && (arms[i].start == k || k in arms[i].inner))
    {
      var j :| 0 <= j < i + 1 && arms[..i + 1][j].Arm? &&
        (arms[..i + 1][j].start == k || k in arms[..i + 1][j].inner);
      if j < i {
        assert arms[..i][j] == arms[..i + 1][j];
        assert InArm(arms[..i], k);
      }
    }
    forall k | InArm(arms[..i], k) ensures InArm(arms[..i + 1], k) {
      var j :| 0 <= j < i && arms[..i][j].Arm? && (arms[..i][j].start == k || k in arms[..i][j].inner);
      assert arms[..i + 1][j] == arms[..i][j];
    }
    forall k | arms[i].Arm? && (arms[i].start == k || k in arms[i].inner) ensures InArm(arms[..i + 1], k) {
      assert arms[..i + 1][i] == arms[i];
    }
  }

  /**
   * The head, the arms and the tail cover the graph: every key is a head
   * block, `begin`, in an arm, or in the tail, and the tail shares no block
   * with the others.
   */
  lemma PartitionCovers(g: Graph, begin: Label, head: set<Label>, arms: seq<Arm>, tail: set<Label>)
    requires forall k :: k in tail <==> k in g && k !in head && !InArm(arms, k) && k != begin
    ensures forall k | k in g :: k in head || k == begin || InArm(arms, k) || k in tail
    ensures tail !! head && begin !in tail && forall k | k in tail :: !InArm(arms, k)
  {
  }

  // ---------------------------------------------------------------------------
  // restructure_branch

  /** What `restructure_branch` found: no branch region, or the first one and its partition. */
  datatype BranchOutcome =
    | NoRegions
    | Partitioned(begin: Label, end: Label, head: set<Label>, arms: seq<Arm>, tail: set<Label>)

  /**
   * The outcome of `restructure_branch` on `g`: a graph without sources or
   * sinks fails the dominator computations with `RuntimeError`; otherwise the
   * dominator maps and the `_imm_doms` outcomes on them decide the rest, as
   * `BranchStage` says.
   */
  ghost predicate BranchRestructured(g: Graph, r: Result<BranchOutcome>, g': Graph) {
    if Sources(g) == {} || Sinks(g) == {} then r == Err(RuntimeError) && g' == g
    else exists t :: TablesOf(g, t) && BranchStage(g, t, r, g')
  }

  /** A failing `_imm_doms` is the outcome and leaves the graph unchanged; otherwise the regions decide it. */
  ghost predicate BranchStage(g: Graph, t: Tables, r: Result<BranchOutcome>, g': Graph) {
    if t.postimmdoms.Err? then r == Err(t.postimmdoms.error) && g' == g
    else if t.immdoms.Err? then r == Err(t.immdoms.error) && g' == g
    else RegionStage(g, t.immdoms.value, t.postimmdoms.value, r, g')
  }

  /** Looking up the immediate dominator of the immediate postdominator of a forking key fails. */
  ghost predicate LookupFails(g: Graph, immdoms: map<Label, Label>, postimmdoms: map<Label, Label>) {
    exists k | k in g :: Forks(g, postimmdoms, k) && postimmdoms[k] !in immdoms
  }

  /** Some key forms a branch pair with the tables. */
  ghost predicate HasBranchPair(g: Graph, immdoms: map<Label, Label>, postimmdoms: map<Label, Label>) {
    exists p: BranchPair | p.begin in g :: IsBranchPair(g, immdoms, postimmdoms, p)
  }

  /**
   * `_iter_branch_regions` and what follows it: a failing lookup raises
   * `KeyError`; without a branch pair nothing changes; otherwise the region
   * of one branch pair is partitioned and collapsed as `PairStage` says.
   */
  ghost predicate RegionStage(g: Graph, immdoms: map<Label, Label>, postimmdoms: map<Label, Label>,
                              r: Result<BranchOutcome>, g': Graph)
  {
    if LookupFails(g, immdoms, postimmdoms) then r == Err(KeyError) && g' == g
    else if !HasBranchPair(g, immdoms, postimmdoms) then r == Ok(NoRegions) && g' == g
    else exists p: BranchPair | p.begin in g && IsBranchPair(g, immdoms, postimmdoms, p) :: PairStage(g, p, r, g')
  }

  /**
   * The partition of the region of `p`: the head blocks are the straight
   * walk to `p.begin`, one arm per jump target is found as `ArmFor` says, and
   * the tail is every other block.
   */
  ghost predicate Partition(g: Graph, p: BranchPair, head: set<Label>, arms: seq<Arm>, tail: set<Label>)
    requires p.begin in g
  {
    && (exists path :: WalkTo(g, path, p.begin) && Elems(path) == head)
    && |arms| == |g[p.begin].Targets()|
    && (forall i | 0 <= i < |arms| :: ArmFor(g, g[p.begin].Targets(), i, p.end, arms[i]))
    && (forall k :: k in tail <==> k in g && k !in head && !InArm(arms, k) && k != p.begin)
  }

  /**
   * The region of the branch pair `p`: no straight walk to `p.begin` fails
   * the head walk, failing reachability tests raise `KeyError`, both with the
   * graph unchanged; otherwise the partition is collapsed, and the outcome is
   * the partition when every extraction succeeds, and the error of the first
   * failing one otherwise.
   */
  ghost predicate PairStage(g: Graph, p: BranchPair, r: Result<BranchOutcome>, g': Graph)
    requires p.begin in g
  {
    var jt := g[p.begin].Targets();
    if forall path :: !WalkTo(g, path, p.begin) then
      && r.Err? && r.error in {AssertionError, KeyError, Diverges} && g' == g
      && (|HeadsOf(g)| != 1 ==> r.error == AssertionError)
    else if exists i | 0 <= i < |jt| :: ArmFails(g, jt, i) then r == Err(KeyError) && g' == g
    else exists head, arms, tail ::
      && Partition(g, p, head, arms, tail)
      && (r.Ok? ==> r.value == Partitioned(p.begin, p.end, head, arms, tail) && RegionsCollapsed(g, head, arms, tail, g'))
      && (r.Err? ==> CollapseFailed(g, head, arms, tail, r.error, g'))
  }

  /**
   * The regions of a partition are collapsed in order: the head into a head
   * region, each arm in turn, and the tail into a tail region, ending in `g'`.
   */
  ghost predicate RegionsCollapsed(g: Graph, head: set<Label>, arms: seq<Arm>, tail: set<Label>, g': Graph) {
    exists h, t, gs ::
      && ArmsCollapsed(arms, |arms|, gs)
      && Extracted(g, head, HeadRegion, Ok(h), gs[0])
      && Extracted(gs[|arms|], tail, TailRegion, Ok(t), g')
  }

  /**
   * The collapse stops at its first failing extraction, with error `e`: the
   * head's, the branch region of the first `n` arms' successor, or the tail's
   * after all arms; `g'` is what that failing extraction leaves.
   */
  ghost predicate CollapseFailed(g: Graph, head: set<Label>, arms: seq<Arm>, tail: set<Label>, e: Error, g': Graph) {
    || Extracted(g, head, HeadRegion, Err(e), g')
    || (exists h, gs, n: nat ::
          && ArmsCollapsed(arms, n, gs) && n < |arms| && arms[n].Arm? && arms[n].inner != {}
          && Extracted(g, head, HeadRegion, Ok(h), gs[0])
          && Extracted(gs[n], arms[n].inner, BranchRegion, Err(e), g'))
    || (exists h, gs ::
          && ArmsCollapsed(arms, |arms|, gs)
          && Extracted(g, head, HeadRegion, Ok(h), gs[0])
          && Extracted(gs[|arms|], tail, TailRegion, Err(e), g'))
  }

  /** The arm is collapsed into a branch region when it has interior blocks, and left alone otherwise. */
  ghost predicate ArmCollapsed(arm: Arm, g: Graph, g': Graph) {
    if arm.Arm? && arm.inner != {} then exists h :: Extracted(g, arm.inner, BranchRegion, Ok(h), g') else g' == g
  }

  /** `gs` are the graphs the first `n` arms lead through, one collapse per arm. */
  ghost predicate ArmsCollapsed(arms: seq<Arm>, n: nat, gs: seq<Graph>)
    decreases n
  {
    && n <= |arms| && |gs| == n + 1
    && (n > 0 ==> ArmsCollapsed(arms, n - 1, gs[..n]) && ArmCollapsed(arms[n - 1], gs[n - 1], gs[n]))
  }

  /** Every arm of the chain is collapsed: the `i`-th arm turns `gs[i]` into `gs[i + 1]`. */
  lemma {:induction false} ArmsCollapsedStep(arms: seq<Arm>, n: nat, gs: seq<Graph>, i: nat)
    requires ArmsCollapsed(arms, n, gs) && i < n
    ensures ArmCollapsed(arms[i], gs[i], gs[i + 1])
    decreases n
  {
    if i < n - 1 {
      ArmsCollapsedStep(arms, n - 1, gs[..n], i);
      assert gs[..n][i] == gs[i] && gs[..n][i + 1] == gs[i + 1];
    }
  }

  lemma ArmsSnoc(arms: seq<Arm>, n: nat, gs: seq<Graph>, g': Graph)
    requires ArmsCollapsed(arms, n, gs) && n < |arms| && ArmCollapsed(arms[n], gs[n], g')
    ensures ArmsCollapsed(arms, n + 1, gs + [g'])
  {
    assert (gs + [g'])[..n + 1] == gs;
  }

  /**
   * The collapsing steps of `restructure_branch`: the head blocks become a
   * head region, each arm with interior blocks a branch region, and the tail
   * blocks a tail region; the first extraction that fails ends the steps.
   */
  method CollapseRegions(g: Graph, clg: NameGen, head: set<Label>, arms: seq<Arm>, tail: set<Label>)
    returns (r: Result<Label>, g': Graph)
    requires Bounded(g, clg.index)
    ensures Bounded(g', clg.index)
    ensures r.Ok? ==> RegionsCollapsed(g, head, arms, tail, g')
    ensures r.Err? ==> CollapseFailed(g, head, arms, tail, r.error, g')
  {
    var extracted;
    extracted, g' := ExtractRegion(g, head, HeadRegion);
    if extracted.Err? {
      return Err(extracted.error), g';
    }
    ExtractedBounded(g, head, HeadRegion, extracted.value, g', clg.index);
    ghost var h, gs := extracted.value, [g'];
    for i := 0 to |arms|
      invariant Bounded(g', clg.index)
      invariant ArmsCollapsed(arms, i, gs) && gs[i] == g'
      invariant Extracted(g, head, HeadRegion, Ok(h), gs[0])
    {
      var arm := arms[i];
      var g1 := g';
      if arm.Arm? && arm.inner != {} {
        extracted, g' := ExtractRegion(g1, arm.inner, BranchRegion);
        if extracted.Err? {
          assert Extracted(gs[i], arms[i].inner, BranchRegion, Err(extracted.error), g');
          return Err(extracted.error), g';
        }
        ExtractedBounded(g1, arm.inner, BranchRegion, extracted.value, g', clg.index);
      }
      ArmsSnoc(arms, i, gs, g');
      gs := gs + [g'];
    }
    var g2 := g';
    extracted, g' := ExtractRegion(g2, tail, TailRegion);
    if extracted.Err? {
      assert Extracted(gs[|arms|], tail, TailRegion, Err(extracted.error), g');
      return Err(extracted.error), g';
    }
    ExtractedBounded(g2, tail, TailRegion, extracted.value, g', clg.index);
    assert ArmsCollapsed(arms, |arms|, gs) && Extracted(gs[|arms|], tail, TailRegion, Ok(extracted.value), g');
    r := extracted;
  }

  /**
   * `restructure_branch`: the dominator maps and the immediate tables are
   * computed, and when there is a branch region one of them is partitioned
   * and collapsed as `RegionStage` says.
   */
  method RestructureBranch(g: Graph, clg: NameGen) returns (r: Result<BranchOutcome>, g': Graph)
    requires Bounded(g, clg.index)
    ensures Bounded(g', clg.index)
    ensures BranchRestructured(g, r, g')
  {
    var tables := DomTables(g);
    if tables.Err? {
      return Err(RuntimeError), g;
    }
    var t := tables.value;
    if t.postimmdoms.Err? {
      r, g' := Err(t.postimmdoms.error), g;
    } else if t.immdoms.Err? {
      r, g' := Err(t.immdoms.error), g;
    } else {
      r, g' := BranchRegions(g, clg, t.doms, t.immdoms.value, t.postimmdoms.value);
    }
    assert BranchStage(g, t, r, g');
  }

  /**
   * The branch regions `_iter_branch_regions` lists over the keys, and the
   * partition and collapse of the first one.
   */
  method BranchRegions(g: Graph, clg: NameGen, doms: DomMap, immdoms: map<Label, Label>, postimmdoms: map<Label, Label>)
    returns (r: Result<BranchOutcome>, g': Graph)
    requires Bounded(g, clg.index) && DominatorsOf(g, doms)
    ensures Bounded(g', clg.index)
    ensures RegionStage(g, immdoms, postimmdoms, r, g')
  {
    var keys := KeyList(g);
    var regions := IterBranchRegions(g, keys, immdoms, postimmdoms);
    if regions.Err? {
      return Err(KeyError), g;
    }
    if regions.value == [] {
      assert !HasBranchPair(g, immdoms, postimmdoms);
      return Ok(NoRegions), g;
    }
    var p := regions.value[0];
    assert p in regions.value;
    r, g' := PartitionRegion(g, clg, doms, p);
  }

  /**
   * `find_head_blocks`, `find_branch_regions` and `find_tail_blocks` for the
   * branch pair `p`, then the collapse of the partition.
   */
  method PartitionRegion(g: Graph, clg: NameGen, doms: DomMap, p: BranchPair) returns (r: Result<BranchOutcome>, g': Graph)
    requires Bounded(g, clg.index) && DominatorsOf(g, doms) && p.begin in g
    ensures Bounded(g', clg.index)
    ensures PairStage(g, p, r, g')
  {
    var head := FindHeadBlocks(g, p.begin);
    if head.Err? {
      return Err(head.error), g;
    }
    var arms := FindArms(g, g[p.begin].Targets(), p.end, doms);
    if arms.Err? {
      return Err(KeyError), g;
    }
    var tail := FindTailBlocks(g, p.begin, head.value, arms.value);
    assert Partition(g, p, head.value, arms.value, tail);
    var collapsed;
    collapsed, g' := CollapseRegions(g, clg, head.value, arms.value, tail);
    if collapsed.Err? {
      r := Err(collapsed.error);
    } else {
      r := Ok(Partitioned(p.begin, p.end, head.value, arms.value, tail));
    }
  }

  /** `restructure_branch` raises `RuntimeError` exactly on a graph without sources or sinks. */
  lemma BranchRuntimeError(g: Graph, r: Result<BranchOutcome>, g': Graph)
    requires BranchRestructured(g, r, g')
    ensures r == Err(RuntimeError) <==> Sources(g) == {} || Sinks(g) == {}
    ensures r.Err? ==> r.error in {RuntimeError, KeyError, ValueError, AssertionError, Diverges}
  {
    if Sources(g) != {} && Sinks(g) != {} {
      var t := StageTables(g, r, g');
      if t.postimmdoms.Ok? && t.immdoms.Ok? {
        TablesFound(g, t, r, g');
        RegionErrors(g, t.immdoms.value, t.postimmdoms.value, r, g');
      }
    }
  }

  /** The errors after the immediate tables are found. */
  lemma RegionErrors(g: Graph, immdoms: map<Label, Label>, postimmdoms: map<Label, Label>, r: Result<BranchOutcome>, g': Graph)
    requires RegionStage(g, immdoms, postimmdoms, r, g')
    ensures r.Err? ==> r.error in {KeyError, AssertionError, Diverges}
  {
    if !LookupFails(g, immdoms, postimmdoms) && HasBranchPair(g, immdoms, postimmdoms) {
      var p: BranchPair :| p.begin in g && IsBranchPair(g, immdoms, postimmdoms, p) && PairStage(g, p, r, g');
      PairErrors(g, p, r, g');
    }
  }

  /** The errors of one region's partition and collapse. */
  lemma PairErrors(g: Graph, p: BranchPair, r: Result<BranchOutcome>, g': Graph)
    requires p.begin in g && PairStage(g, p, r, g')
    ensures r.Err? ==> r.error in {KeyError, AssertionError, Diverges}
  {
    var jt := g[p.begin].Targets();
    if r.Err? && (exists path :: WalkTo(g, path, p.begin)) && !(exists i | 0 <= i < |jt| :: ArmFails(g, jt, i)) {
      var head, arms, tail :| Partition(g, p, head, arms, tail) && CollapseFailed(g, head, arms, tail, r.error, g');
      CollapseErrors(g, head, arms, tail, r.error, g');
    }
  }

  /** A failed collapse fails with the error of an extraction. */
  lemma CollapseErrors(g: Graph, head: set<Label>, arms: seq<Arm>, tail: set<Label>, e: Error, g': Graph)
    requires CollapseFailed(g, head, arms, tail, e, g')
    ensures e in {KeyError, AssertionError}
  {
  }

  /**
   * On a graph whose blocks are all reached from a source and all reach a
   * sink, the immediate tables are found and the outcome is decided by the
   * branch pairs of the graph's own immediate-(post)dominator tables.
   */
  lemma BranchOnReachedGraph(g: Graph, r: Result<BranchOutcome>, g': Graph)
    requires Sources(g) != {} && Sinks(g) != {} && Reached(g) && Reaching(g)
    requires BranchRestructured(g, r, g')
    ensures exists immdoms, postimmdoms ::
      && ImmediateTable(PredTable(g), Sources(g), g.Keys, immdoms)
      && ImmediateTable(SuccTable(g), Sinks(g), g.Keys, postimmdoms)
      && RegionStage(g, immdoms, postimmdoms, r, g')
  {
    var t := StageTables(g, r, g');
    TablesOnReachedGraph(g, t);
    TablesFound(g, t, r, g');
  }

  /** The tables an outcome on a graph with a source and a sink was decided by. */
  lemma StageTables(g: Graph, r: Result<BranchOutcome>, g': Graph) returns (t: Tables)
    requires Sources(g) != {} && Sinks(g) != {} && BranchRestructured(g, r, g')
    ensures TablesOf(g, t) && BranchStage(g, t, r, g')
  {
    t :| TablesOf(g, t) && BranchStage(g, t, r, g');
  }

  /** When both immediate tables are found, the regions decide the outcome. */
  lemma TablesFound(g: Graph, t: Tables, r: Result<BranchOutcome>, g': Graph)
    requires BranchStage(g, t, r, g') && t.postimmdoms.Ok? && t.immdoms.Ok?
    ensures RegionStage(g, t.immdoms.value, t.postimmdoms.value, r, g')
  {
  }

  /** The tables of such a graph are its immediate-(post)dominator tables. */
  lemma TablesOnReachedGraph(g: Graph, t: Tables)
    requires Reached(g) && Reaching(g) && TablesOf(g, t)
    ensures t.postimmdoms.Ok? && ImmediateTable(SuccTable(g), Sinks(g), g.Keys, t.postimmdoms.value)
    ensures t.immdoms.Ok? && ImmediateTable(PredTable(g), Sources(g), g.Keys, t.immdoms.value)
  {
    TreeTable(t.postdoms, SuccTable(g), Sinks(g), g.Keys, t.postimmdoms);
    TreeTable(t.doms, PredTable(g), Sources(g), g.Keys, t.immdoms);
  }

  /** On a dominator map of reached nodes, `_imm_doms` succeeds with the immediate-dominator table. */
  lemma TreeTable(doms: DomMap, preds: DomMap, entries: set<Label>, nodes: set<Label>, r: Result<map<Label, Label>>)
    requires DomMapOn(doms, preds, entries, nodes) && AllReached(preds, entries, nodes)
    requires ImmDomsOutcome(doms, r)
    ensures r.Ok? && ImmediateTable(preds, entries, nodes, r.value)
  {
    DominatorTree(doms, preds, entries, nodes);
    ImmDomsOnTree(doms, preds, entries, nodes, r.value);
  }
}
