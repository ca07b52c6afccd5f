/**
 * The blocks the AST-to-CFG lowering writes into (`WritableASTBlock`) and the
 * dictionary that holds them (`ASTCFG`) with its two pruning passes. A block
 * is named by the decimal string of its index; the model names it by the
 * index itself. A dictionary is a map together with its insertion order.
 */
module AstBlocks {
  import opened PyAst

  /** `WritableASTBlock`, as a value. */
  datatype WBlock = WBlock(name: nat, instructions: seq<Instr>, jumpTargets: seq<nat>)
  {
    /** `set_jump_targets`: the target list is replaced, nothing else changes. */
    function SetJumpTargets(indices: seq<nat>): (b: WBlock)
      ensures b.name == name && b.instructions == instructions && b.jumpTargets == indices
    {
      this.(jumpTargets := indices)
    }

    /** `is_instruction`: the block has an instruction and the last one has type `t`. */
    predicate IsInstruction(t: NodeType) {
      |instructions| > 0 && HasType(instructions[|instructions| - 1], t)
    }

    predicate IsReturn() { IsInstruction(ReturnType) }
    predicate IsBreak() { IsInstruction(BreakType) }
    predicate IsContinue() { IsInstruction(ContinueType) }

    /** Control cannot fall off the end of the block: it jumps somewhere or returns. */
    predicate Sealed() { |jumpTargets| > 0 || IsReturn() }

    /** `seal_outside_loop`: a returning block keeps its targets, any other block jumps to `index`. */
    function SealOutsideLoop(index: nat): (b: WBlock)
      ensures b.name == name && b.instructions == instructions && b.Sealed()
      ensures IsReturn() ==> b.jumpTargets == jumpTargets
      ensures !IsReturn() ==> b.jumpTargets == [index]
    {
      if IsReturn() then this else SetJumpTargets([index])
    }

    /**
     * `seal_inside_loop`: `continue` jumps to the loop head, `break` to the
     * loop exit, a return keeps its targets and anything else jumps to
     * `defaultIndex`.
     */
    function SealInsideLoop(head: nat, exit: nat, defaultIndex: nat): (b: WBlock)
      ensures b.name == name && b.instructions == instructions && b.Sealed()
      ensures IsContinue() ==> b.jumpTargets == [head]
      ensures IsBreak() ==> b.jumpTargets == [exit]
      ensures IsReturn() ==> b.jumpTargets == jumpTargets
      ensures !IsContinue() && !IsBreak() && !IsReturn() ==> b.jumpTargets == [defaultIndex]
    {
      if IsContinue() then SetJumpTargets([head])
      else if IsBreak() then SetJumpTargets([exit])
      else if IsReturn() then this
      else SetJumpTargets([defaultIndex])
    }
  }

  /** Outside `continue` and `break`, sealing inside a loop is sealing outside one. */
  lemma SealInsideAgrees(b: WBlock, head: nat, exit: nat, defaultIndex: nat)
    requires !b.IsContinue() && !b.IsBreak()
    ensures b.SealInsideLoop(head, exit, defaultIndex) == b.SealOutsideLoop(defaultIndex)
  {
  }

  predicate Distinct(o: seq<nat>) {
    forall i, j | 0 <= i < j < |o| :: o[i] != o[j]
  }

  /** A dictionary of blocks: `order` lists its keys once each, and every block sits under its own name. */
  ghost predicate WellFormed(entries: map<nat, WBlock>, order: seq<nat>) {
    (forall k :: k in entries <==> k in order) && Distinct(order) &&
    (forall k | k in entries :: entries[k].name == k)
  }

  /**
   * `WellFormed` for the first `n` keys of the order, stated by peeling the
   * last of them off: they are listed once each, and every block sits under
   * its own name.
   */
  ghost predicate Counted(entries: map<nat, WBlock>, order: seq<nat>, n: nat)
    decreases n
  {
    n <= |order| &&
    if n == 0 then entries == map[]
    else order[n - 1] in entries && entries[order[n - 1]].name == order[n - 1] &&
         Counted(entries - {order[n - 1]}, order, n - 1)
  }

  lemma {:induction false} CountedPrefix(entries: map<nat, WBlock>, order: seq<nat>, n: nat)
    requires Counted(entries, order, n)
    ensures WellFormed(entries, order[..n])
    decreases n
  {
    if n != 0 {
      var x := order[n - 1];
      var init := order[..n - 1];
      CountedPrefix(entries - {x}, order, n - 1);
      assert order[..n] == init + [x];
      forall i, j | 0 <= i < j < n ensures order[..n][i] != order[..n][j] {
        if j < n - 1 {
          assert order[..n][i] == init[i] && order[..n][j] == init[j];
        } else {
          assert order[..n][i] in init;
        }
      }
    }
  }

  lemma CountedWellFormed(entries: map<nat, WBlock>, order: seq<nat>)
    requires Counted(entries, order, |order|)
    ensures WellFormed(entries, order)
  {
    CountedPrefix(entries, order, |order|);
    assert order[..|order|] == order;
  }

  /** Replacing a block by one with the same name keeps the dictionary well formed. */
  lemma {:induction false} CountedUpdate(entries: map<nat, WBlock>, order: seq<nat>, n: nat, k: nat, b: WBlock)
    requires Counted(entries, order, n) && k in entries && b.name == k
    ensures Counted(entries[k := b], order, n)
    decreases n
  {
    var x := order[n - 1];
    if x != k {
      CountedUpdate(entries - {x}, order, n - 1, k, b);
      assert entries[k := b] - {x} == (entries - {x})[k := b];
    } else {
      assert entries[k := b] - {x} == entries - {x};
    }
  }

  lemma {:induction false} CountedName(entries: map<nat, WBlock>, order: seq<nat>, n: nat, k: nat)
    requires Counted(entries, order, n) && k in entries
    ensures entries[k].name == k
    decreases n
  {
    var x := order[n - 1];
    if x != k {
      CountedName(entries - {x}, order, n - 1, k);
    }
  }

  /** Keys past the first `n` do not matter. */
  lemma {:induction false} CountedSnoc(entries: map<nat, WBlock>, order: seq<nat>, n: nat, k: nat)
    requires Counted(entries, order, n)
    ensures Counted(entries, order + [k], n)
    decreases n
  {
    if n != 0 {
      CountedSnoc(entries - {order[n - 1]}, order, n - 1, k);
    }
  }

  /** A new key at the end of the order. */
  lemma CountedAdd(entries: map<nat, WBlock>, order: seq<nat>, k: nat, b: WBlock)
    requires Counted(entries, order, |order|) && k !in entries && b.name == k
    ensures Counted(entries[k := b], order + [k], |order| + 1)
  {
    CountedSnoc(entries, order, |order|, k);
    assert entries[k := b] - {k} == entries;
  }

  /** The insertion order after the key `x` is popped. */
  function Drop(o: seq<nat>, x: nat): seq<nat> {
    if o == [] then []
    else if o[0] == x then o[1..]
    else [o[0]] + Drop(o[1..], x)
  }

  lemma {:induction false} DropMembers(o: seq<nat>, x: nat)
    requires Distinct(o)
    ensures Distinct(Drop(o, x)) && forall y :: y in Drop(o, x) <==> y in o && y != x
  {
    if o != [] && o[0] != x {
      assert Distinct(o[1..]) by {
        forall i, j | 0 <= i < j < |o[1..]| ensures o[1..][i] != o[1..][j] {
          assert o[1..][i] == o[i + 1] && o[1..][j] == o[j + 1];
        }
      }
      DropMembers(o[1..], x);
      var d := [o[0]] + Drop(o[1..], x);
      forall i, j | 0 <= i < j < |d| ensures d[i] != d[j] {
        if i == 0 {
          assert d[j] in Drop(o[1..], x);
          assert o[0] !in o[1..] by {
            forall k | 0 <= k < |o[1..]| ensures o[1..][k] != o[0] {
              assert o[1..][k] == o[k + 1];
            }
          }
        } else {
          assert d[i] == Drop(o[1..], x)[i - 1] && d[j] == Drop(o[1..], x)[j - 1];
        }
      }
    } else if o != [] {
      assert o[0] !in o[1..] by {
        forall k | 0 <= k < |o[1..]| ensures o[1..][k] != o[0] {
          assert o[1..][k] == o[k + 1];
        }
      }
      forall i, j | 0 <= i < j < |o[1..]| ensures o[1..][i] != o[1..][j] {
        assert o[1..][i] == o[i + 1] && o[1..][j] == o[j + 1];
      }
    }
  }

  /** The keys of `o` that are in `keep`, in order. */
  function Filter(o: seq<nat>, keep: set<nat>): (f: seq<nat>)
    decreases |o|
  {
    if o == [] then []
    else Filter(o[..|o| - 1], keep) + (if o[|o| - 1] in keep then [o[|o| - 1]] else [])
  }

  lemma {:induction false} FilterMembers(o: seq<nat>, keep: set<nat>)
    requires Distinct(o)
    ensures Distinct(Filter(o, keep)) && forall y :: y in Filter(o, keep) <==> y in o && y in keep
  {
    if o != [] {
      var init := o[..|o| - 1];
      var x := o[|o| - 1];
      assert Distinct(init);
      FilterMembers(init, keep);
      assert o == init + [x];
      assert x !in init;
    }
  }

  /** Filtering by two sets that agree on the keys of `o`. */
  lemma {:induction false} FilterSame(o: seq<nat>, a: set<nat>, b: set<nat>)
    requires forall x | x in o :: x in a <==> x in b
    ensures Filter(o, a) == Filter(o, b)
  {
    if o != [] {
      FilterSame(o[..|o| - 1], a, b);
    }
  }

  /** Popping the next key of a partly filtered order. */
  lemma DropNext(o: seq<nat>, i: nat, keep: set<nat>)
    requires Distinct(o) && i < |o|
    ensures Drop(Filter(o[..i], keep) + o[i..], o[i]) == Filter(o[..i], keep) + o[i + 1..]
  {
    assert Distinct(o[..i]);
    FilterMembers(o[..i], keep);
    assert o[i] !in Filter(o[..i], keep);
    DropPast(Filter(o[..i], keep), o[i], o[i + 1..]);
    assert o[i..] == [o[i]] + o[i + 1..];
    assert Filter(o[..i], keep) + o[i..] == Filter(o[..i], keep) + [o[i]] + o[i + 1..];
  }

  lemma {:induction false} DropPast(a: seq<nat>, x: nat, b: seq<nat>)
    requires x !in a
    ensures Drop(a + [x] + b, x) == a + b
  {
    if a == [] {
      assert a + [x] + b == [x] + b;
    } else {
      assert (a + [x] + b)[1..] == a[1..] + [x] + b;
      DropPast(a[1..], x, b);
      assert a + b == [a[0]] + (a[1..] + b);
    }
  }

  /** The dictionary and the popped blocks once the keys in `seen` are visited. */
  ghost function Kept(e0: map<nat, WBlock>, keep: set<nat>, seen: seq<nat>): map<nat, WBlock> {
    map k | k in e0 && (k in keep || k !in seen) :: e0[k]
  }

  ghost function Gone(e0: map<nat, WBlock>, keep: set<nat>, seen: seq<nat>): set<WBlock> {
    set k | k in seen && k in e0 && k !in keep :: e0[k]
  }

  /** One iteration of the popping loop of `prune_unreachable`. */
  lemma PopStep(e0: map<nat, WBlock>, keys: seq<nat>, i: nat, keep: set<nat>)
    requires WellFormed(e0, keys) && i < |keys|
    ensures keys[i] in Kept(e0, keep, keys[..i]) && Kept(e0, keep, keys[..i])[keys[i]] == e0[keys[i]]
    ensures keys[i] in keep ==> Kept(e0, keep, keys[..i + 1]) == Kept(e0, keep, keys[..i])
    ensures keys[i] in keep ==> Gone(e0, keep, keys[..i + 1]) == Gone(e0, keep, keys[..i])
    ensures keys[i] !in keep ==> Kept(e0, keep, keys[..i + 1]) == Kept(e0, keep, keys[..i]) - {keys[i]}
    ensures keys[i] !in keep ==> Gone(e0, keep, keys[..i + 1]) == Gone(e0, keep, keys[..i]) + {e0[keys[i]]}
  {
    assert keys[..i + 1] == keys[..i] + [keys[i]];
    assert keys[i] !in keys[..i];
  }

  /** The state of the popping loop of `prune_unreachable` after `i` keys. */
  ghost predicate Popping(e0: map<nat, WBlock>, keys: seq<nat>, keep: set<nat>, i: nat,
                          e: map<nat, WBlock>, o: seq<nat>, popped: set<WBlock>) {
    i <= |keys| && e == Kept(e0, keep, keys[..i]) && popped == Gone(e0, keep, keys[..i]) &&
    o == Filter(keys[..i], keep) + keys[i..]
  }

  lemma PopNext(e0: map<nat, WBlock>, keys: seq<nat>, keep: set<nat>, i: nat,
                e: map<nat, WBlock>, o: seq<nat>, popped: set<WBlock>)
    requires WellFormed(e0, keys) && i < |keys| && Popping(e0, keys, keep, i, e, o, popped)
    ensures keys[i] in e
    ensures keys[i] in keep ==> Popping(e0, keys, keep, i + 1, e, o, popped)
    ensures keys[i] !in keep ==>
      Popping(e0, keys, keep, i + 1, e - {keys[i]}, Drop(o, keys[i]), popped + {e[keys[i]]})
  {
    OrderStep(keys, i, keep, o);
    PopStep(e0, keys, i, keep);
  }

  /** The end of the popping loop of `prune_unreachable`: every key has been visited. */
  lemma PoppedAll(e0: map<nat, WBlock>, keys: seq<nat>, keep: set<nat>, e: map<nat, WBlock>, o: seq<nat>, popped: set<WBlock>)
    requires WellFormed(e0, keys) && Popping(e0, keys, keep, |keys|, e, o, popped)
    ensures e == map k | k in e0 && k in keep :: e0[k]
    ensures popped == set k | k in e0 && k !in keep :: e0[k]
    ensures WellFormed(e, o) && o == Filter(keys, e.Keys)
  {
    assert keys[..|keys|] == keys;
    FilterMembers(keys, keep);
    FilterSame(keys, keep, Kept(e0, keep, keys).Keys);
  }

  /** The insertion order after the key at position `i` is kept or popped. */
  lemma OrderStep(keys: seq<nat>, i: nat, keep: set<nat>, o: seq<nat>)
    requires Distinct(keys) && i < |keys| && o == Filter(keys[..i], keep) + keys[i..]
    ensures keys[i] !in keep ==> Drop(o, keys[i]) == Filter(keys[..i + 1], keep) + keys[i + 1..]
    ensures keys[i] in keep ==> o == Filter(keys[..i + 1], keep) + keys[i + 1..]
  {
    FilterSnoc(keys, i, keep);
    if keys[i] !in keep {
      DropNext(keys, i, keep);
    } else {
      assert keys[i..] == [keys[i]] + keys[i + 1..];
    }
  }

  lemma FilterSnoc(o: seq<nat>, i: nat, keep: set<nat>)
    requires i < |o|
    ensures Filter(o[..i + 1], keep) == Filter(o[..i], keep) + (if o[i] in keep then [o[i]] else [])
  {
    assert o[..i + 1][..i] == o[..i];
  }

  // ---------------------------------------------------------------------------------------------
  // Reachability from the entry block "0".

  /** A walk from the entry block along jump targets; every block it leaves is a key. */
  ghost predicate IsPath(e: map<nat, WBlock>, p: seq<nat>) {
    |p| > 0 && p[0] == 0 &&
    forall i | 0 <= i < |p| - 1 :: p[i] in e && p[i + 1] in e[p[i]].jumpTargets
  }

  ghost predicate Reachable(e: map<nat, WBlock>, n: nat) {
    exists p :: IsPath(e, p) && p[|p| - 1] == n
  }

  /** Every name the dictionary mentions, and the entry name. */
  function Named(e: map<nat, WBlock>): set<nat> {
    e.Keys + {0} + set k, t | k in e && t in e[k].jumpTargets :: t
  }

  lemma EntryReachable(e: map<nat, WBlock>)
    ensures Reachable(e, 0)
  {
    assert IsPath(e, [0]);
  }

  lemma ReachStep(e: map<nat, WBlock>, n: nat, t: nat)
    requires Reachable(e, n) && n in e && t in e[n].jumpTargets
    ensures Reachable(e, t)
  {
    var p :| IsPath(e, p) && p[|p| - 1] == n;
    var q := p + [t];
    assert IsPath(e, q);
  }

  lemma ReachSteps(e: map<nat, WBlock>, n: nat)
    requires Reachable(e, n) && n in e
    ensures forall t | t in e[n].jumpTargets :: Reachable(e, t)
    ensures (set t | t in e[n].jumpTargets) <= Named(e)
  {
    forall t | t in e[n].jumpTargets ensures Reachable(e, t) {
      ReachStep(e, n, t);
    }
  }

  /** Every jump target of a collected block is collected or still to visit. */
  ghost predicate Frontier(e: map<nat, WBlock>, reachable: set<nat>, toVisit: set<nat>) {
    reachable <= e.Keys &&
    forall n, t | n in reachable && t in e[n].jumpTargets :: t in reachable || t in toVisit
  }

  /** The state of the worklist walk of `prune_unreachable`. */
  ghost predicate Walking(e: map<nat, WBlock>, reachable: set<nat>, toVisit: set<nat>) {
    toVisit <= Named(e) &&
    (forall n | n in reachable :: Reachable(e, n)) &&
    (forall n | n in toVisit :: Reachable(e, n)) &&
    (0 in reachable || 0 in toVisit) &&
    Frontier(e, reachable, toVisit)
  }

  lemma WalkSkip(e: map<nat, WBlock>, reachable: set<nat>, toVisit: set<nat>, b: nat)
    requires Walking(e, reachable, toVisit) && b in reachable
    ensures Walking(e, reachable, toVisit - {b})
  {
    FrontierPop(e, reachable, toVisit, b);
  }

  lemma WalkVisit(e: map<nat, WBlock>, reachable: set<nat>, toVisit: set<nat>, b: nat)
    requires Walking(e, reachable, toVisit) && b in toVisit && b !in reachable && b in e
    ensures Walking(e, reachable + {b}, toVisit - {b} + set t | t in e[b].jumpTargets)
    ensures |Named(e) - (reachable + {b})| < |Named(e) - reachable|
  {
    ReachSteps(e, b);
    Smaller(Named(e), reachable, b);
    FrontierAdd(e, reachable, toVisit, b);
  }

  /** A collection closed under jump targets that holds the entry holds every reachable name. */
  lemma ClosedHoldsReachable(e: map<nat, WBlock>, reachable: set<nat>)
    requires Frontier(e, reachable, {}) && 0 in reachable
    ensures forall n | Reachable(e, n) :: n in reachable
  {
    forall n | Reachable(e, n) ensures n in reachable {
      var p :| IsPath(e, p) && p[|p| - 1] == n;
      PathInside(e, reachable, p);
    }
  }

  lemma FrontierPop(e: map<nat, WBlock>, reachable: set<nat>, toVisit: set<nat>, b: nat)
    requires Frontier(e, reachable, toVisit) && b in reachable
    ensures Frontier(e, reachable, toVisit - {b})
  {
  }

  lemma FrontierAdd(e: map<nat, WBlock>, reachable: set<nat>, toVisit: set<nat>, b: nat)
    requires Frontier(e, reachable, toVisit) && b in e
    ensures Frontier(e, reachable + {b}, toVisit - {b} + set t | t in e[b].jumpTargets)
  {
  }

  lemma Smaller(all: set<nat>, done: set<nat>, x: nat)
    requires x in all && x !in done
    ensures |all - (done + {x})| < |all - done|
  {
    var rest := all - (done + {x});
    assert all - done == rest + {x} && x !in rest;
  }

  /** A walk from the entry never leaves a set that holds the entry and is closed under jump targets. */
  lemma {:induction false} PathInside(e: map<nat, WBlock>, r: set<nat>, p: seq<nat>)
    requires 0 in r && IsPath(e, p)
    requires forall n, t | n in r && n in e && t in e[n].jumpTargets :: t in r
    ensures p[|p| - 1] in r
  {
    if |p| > 1 {
      var init := p[..|p| - 1];
      assert IsPath(e, init);
      PathInside(e, r, init);
      assert p[|p| - 2] in e && p[|p| - 1] in e[p[|p| - 2]].jumpTargets;
    }
  }

  /** The blocks reachable from the entry. */
  ghost function KeepReachable(e: map<nat, WBlock>): map<nat, WBlock> {
    map k | k in e && Reachable(e, k) :: e[k]
  }

  /**
   * The point of `prune_unreachable`: once every reachable name is a key,
   * every block that survives the pruning is still reachable in the pruned
   * dictionary.
   */
  lemma {:induction false} PrunedStaysReachable(e: map<nat, WBlock>, k: nat)
    requires forall n | Reachable(e, n) :: n in e
    requires k in KeepReachable(e)
    ensures Reachable(KeepReachable(e), k)
  {
    var p :| IsPath(e, p) && p[|p| - 1] == k;
    PathPrefixesReachable(e, p);
    var kept := KeepReachable(e);
    forall i | 0 <= i < |p| - 1 ensures p[i] in kept && p[i + 1] in kept[p[i]].jumpTargets {
      assert Reachable(e, p[i]);
    }
    assert IsPath(kept, p);
  }

  lemma PathPrefixesReachable(e: map<nat, WBlock>, p: seq<nat>)
    requires IsPath(e, p)
    ensures forall i | 0 <= i < |p| :: Reachable(e, p[i])
  {
    forall i | 0 <= i < |p| ensures Reachable(e, p[i]) {
      var q := p[..i + 1];
      assert IsPath(e, q) && q[|q| - 1] == p[i];
    }
  }

  // ---------------------------------------------------------------------------------------------
  // `prune_empty`, as a function of the dictionary.

  /**
   * The redirection `prune_empty` applies to every remaining block once the
   * block `name` is removed: a one-target block jumping to `name`, or the
   * first of the two slots of a two-target block that names it, now jumps to
   * `it`. Blocks with no target or more than two are left alone.
   */
  function Redirect(b: WBlock, name: nat, it: nat): (c: WBlock)
    ensures c.name == b.name && c.instructions == b.instructions && |c.jumpTargets| == |b.jumpTargets|
  {
    var jt := b.jumpTargets;
    if |jt| == 1 && jt[0] == name then b.(jumpTargets := jt[0 := it])
    else if |jt| == 2 && jt[0] == name then b.(jumpTargets := jt[0 := it])
    else if |jt| == 2 && jt[1] == name then b.(jumpTargets := jt[1 := it])
    else b
  }

  /** Exactly the first slot that names the removed block is replaced. */
  lemma RedirectSlots(b: WBlock, name: nat, it: nat)
    requires 0 < |b.jumpTargets| <= 2
    ensures var c := Redirect(b, name, it).jumpTargets;
      forall i | 0 <= i < |c| :: c[i] == (if i == IndexOf(b.jumpTargets, name) then it else b.jumpTargets[i])
  {
  }

  /** The first position of `x` in `o`, or `|o|`. */
  function IndexOf(o: seq<nat>, x: nat): (i: nat)
    ensures i <= |o| && (i < |o| ==> o[i] == x) && forall j | 0 <= j < i :: o[j] != x
  {
    if o == [] then 0 else if o[0] == x then 0 else 1 + IndexOf(o[1..], x)
  }

  /** The dictionary, its key order and the removed blocks, as `prune_empty` goes along. */
  datatype Pruned = Pruned(entries: map<nat, WBlock>, order: seq<nat>, removed: set<WBlock>)

  /**
   * One iteration of `prune_empty` for the key `name`: a block with no
   * instructions is popped and every remaining block is redirected to its
   * first target, which must exist.
   */
  function PruneEmptyStep(p: Pruned, name: nat): Result<Pruned> {
    if name !in p.entries then Err(KeyError)
    else if p.entries[name].instructions != [] then Ok(p)
    else if p.entries[name].jumpTargets == [] then Err(IndexError)
    else
      var it := p.entries[name].jumpTargets[0];
      Ok(Pruned(map k | k in p.entries && k != name :: Redirect(p.entries[k], name, it),
                Drop(p.order, name), p.removed + {p.entries[name]}))
  }

  /** `prune_empty` over the snapshot `names` of the keys. */
  function PruneEmptyOver(p: Pruned, names: seq<nat>): Result<Pruned>
    decreases |names|
  {
    if names == [] then Ok(p)
    else match PruneEmptyOver(p, names[..|names| - 1])
      case Err(e) => Err(e)
      case Ok(q) => PruneEmptyStep(q, names[|names| - 1])
  }

  /** The names in `names` of blocks of `e` with no instructions. */
  ghost function EmptyAmong(e: map<nat, WBlock>, names: seq<nat>): set<nat> {
    set n | n in names && n in e && e[n].instructions == []
  }

  ghost function NamesOf(bs: set<WBlock>): set<nat> {
    set b | b in bs :: b.name
  }

  /**
   * What a pass of `prune_empty` from `p` leading to `q` keeps and removes:
   * exactly the instruction-less blocks it visits are removed; every other
   * block keeps its instructions and its number of jump targets; the removed
   * blocks have no instructions; and the dictionary stays well formed.
   */
  ghost predicate PrunedFrom(p: Pruned, gone: set<nat>, q: Pruned) {
    WellFormed(q.entries, q.order) &&
    q.entries.Keys == p.entries.Keys - gone &&
    NamesOf(q.removed) == NamesOf(p.removed) + gone &&
    (forall b | b in q.removed && b !in p.removed :: b.instructions == []) &&
    (forall k | k in q.entries :: k in p.entries && q.entries[k].instructions == p.entries[k].instructions &&
                                  |q.entries[k].jumpTargets| == |p.entries[k].jumpTargets|)
  }

  /** One step of `prune_empty` removes the visited block exactly when it has no instructions. */
  lemma StepOutcome(q: Pruned, n: nat)
    requires WellFormed(q.entries, q.order) && PruneEmptyStep(q, n).Ok?
    ensures n in q.entries
    ensures PrunedFrom(q, if q.entries[n].instructions == [] then {n} else {}, PruneEmptyStep(q, n).value)
  {
    if q.entries[n].instructions == [] {
      DropMembers(q.order, n);
      var q' := PruneEmptyStep(q, n).value;
      assert q.entries[n].name == n;
      assert NamesOf(q'.removed) == NamesOf(q.removed) + {n};
    }
  }

  /** Two passes in a row compose. */
  lemma PrunedTrans(p: Pruned, a: set<nat>, q: Pruned, b: set<nat>, r: Pruned)
    requires PrunedFrom(p, a, q) && PrunedFrom(q, b, r) && b <= q.entries.Keys
    ensures PrunedFrom(p, a + b, r)
  {
  }

  lemma EmptyAmongSnoc(e: map<nat, WBlock>, names: seq<nat>)
    requires names != []
    ensures var n := names[|names| - 1];
      EmptyAmong(e, names) == EmptyAmong(e, names[..|names| - 1]) + (if n in e && e[n].instructions == [] then {n} else {})
  {
    assert names == names[..|names| - 1] + [names[|names| - 1]];
  }

  /** What `prune_empty` keeps and removes, in terms of the blocks it visits. */
  lemma {:induction false} PruneEmptyOutcome(p: Pruned, names: seq<nat>)
    requires WellFormed(p.entries, p.order)
    ensures PruneEmptyOver(p, names).Ok? ==> PrunedFrom(p, EmptyAmong(p.entries, names), PruneEmptyOver(p, names).value)
  {
    if names == [] {
      assert EmptyAmong(p.entries, names) == {};
    } else if PruneEmptyOver(p, names).Ok? {
      var init := names[..|names| - 1];
      var n := names[|names| - 1];
      PruneEmptyOutcome(p, init);
      var q := PruneEmptyOver(p, init).value;
      StepOutcome(q, n);
      var b := if q.entries[n].instructions == [] then {n} else {};
      PrunedTrans(p, EmptyAmong(p.entries, init), q, b, PruneEmptyStep(q, n).value);
      EmptyAmongSnoc(p.entries, names);
    }
  }

  /** After a pass over every key, no block without instructions is left. */
  lemma NoEmptyLeft(p: Pruned, names: seq<nat>)
    requires WellFormed(p.entries, p.order) && p.entries.Keys <= set n | n in names
    requires PruneEmptyOver(p, names).Ok?
    ensures forall k | k in PruneEmptyOver(p, names).value.entries :: PruneEmptyOver(p, names).value.entries[k].instructions != []
  {
    PruneEmptyOutcome(p, names);
  }

  /**
   * A pass over the distinct keys of the dictionary succeeds when every block
   * without instructions has a jump target: redirection never shortens a
   * target list, so the first target is always there.
   */
  lemma {:induction false} PruneEmptySucceeds(p: Pruned, names: seq<nat>)
    requires WellFormed(p.entries, p.order) && Distinct(names) && (forall n | n in names :: n in p.entries)
    requires forall k | k in p.entries && p.entries[k].instructions == [] :: p.entries[k].jumpTargets != []
    ensures PruneEmptyOver(p, names).Ok?
  {
    if names != [] {
      var init := names[..|names| - 1];
      var n := names[|names| - 1];
      assert Distinct(init);
      assert n !in init;
      PruneEmptySucceeds(p, init);
      PruneEmptyOutcome(p, init);
      assert n !in EmptyAmong(p.entries, init);
    }
  }

  /**
   * A block with neither instructions nor jump targets makes `prune_empty`
   * raise `IndexError`, whatever else the dictionary holds.
   */
  lemma {:induction false} PruneEmptyDeadEnd(p: Pruned, names: seq<nat>, k: nat)
    requires WellFormed(p.entries, p.order) && Distinct(names) && (forall n | n in names :: n in p.entries)
    requires k in names && p.entries[k].instructions == [] && p.entries[k].jumpTargets == []
    ensures PruneEmptyOver(p, names) == Err(IndexError)
  {
    var init := names[..|names| - 1];
    var n := names[|names| - 1];
    assert names == init + [n];
    assert Distinct(init);
    if k == n {
      assert n !in init;
      if PruneEmptyOver(p, init).Ok? {
        PruneEmptyOutcome(p, init);
        assert n !in EmptyAmong(p.entries, init);
      } else {
        PruneEmptyErr(p, init);
        assert k !in init;
        PruneEmptyNoKeyError(p, init);
      }
    } else {
      assert k in init;
      PruneEmptyDeadEnd(p, init, k);
    }
  }

  /** The pass over one more name is the pass so far followed by one step. */
  lemma PruneEmptyOverNext(p: Pruned, names: seq<nat>, k: nat, q: Pruned)
    requires k < |names| && PruneEmptyOver(p, names[..k]) == Ok(q)
    ensures PruneEmptyOver(p, names[..k + 1]) == PruneEmptyStep(q, names[k])
  {
    assert names[..k + 1][..k] == names[..k];
  }

  /** Once a prefix of the pass fails, the whole pass fails the same way. */
  lemma {:induction false} PruneEmptyErrSticks(p: Pruned, names: seq<nat>, j: nat)
    requires j <= |names| && PruneEmptyOver(p, names[..j]).Err?
    ensures PruneEmptyOver(p, names) == PruneEmptyOver(p, names[..j])
    decreases |names|
  {
    if j < |names| {
      var init := names[..|names| - 1];
      assert init[..j] == names[..j];
      PruneEmptyErrSticks(p, init, j);
    } else {
      assert names[..j] == names;
    }
  }

  /** A pass can only fail with `IndexError` or `KeyError`. */
  lemma {:induction false} PruneEmptyErr(p: Pruned, names: seq<nat>)
    ensures PruneEmptyOver(p, names).Err? ==> PruneEmptyOver(p, names).error in {IndexError, KeyError}
  {
    if names != [] {
      PruneEmptyErr(p, names[..|names| - 1]);
    }
  }

  /** Over distinct keys of the dictionary, a pass never raises `KeyError`. */
  lemma {:induction false} PruneEmptyNoKeyError(p: Pruned, names: seq<nat>)
    requires WellFormed(p.entries, p.order) && Distinct(names) && (forall n | n in names :: n in p.entries)
    ensures PruneEmptyOver(p, names) != Err(KeyError)
  {
    if names != [] {
      var init := names[..|names| - 1];
      var n := names[|names| - 1];
      assert Distinct(init);
      assert n !in init;
      PruneEmptyNoKeyError(p, init);
      if PruneEmptyOver(p, init).Ok? {
        PruneEmptyOutcome(p, init);
        assert n !in EmptyAmong(p.entries, init);
      }
    }
  }

  /**
   * The popping loop of `prune_unreachable` on the dictionary `e0` with key
   * order `keys`: the keys outside `keep` are popped one by one, in order.
   */
  method PopLoop(e0: map<nat, WBlock>, keys: seq<nat>, keep: set<nat>) returns (e: map<nat, WBlock>, o: seq<nat>, popped: set<WBlock>)
    requires WellFormed(e0, keys)
    ensures WellFormed(e, o) && e == map k | k in e0 && k in keep :: e0[k]
    ensures popped == set k | k in e0 && k !in keep :: e0[k]
    ensures o == Filter(keys, e.Keys)
  {
    e, o := e0, keys;
    popped := {};
    assert e == Kept(e0, keep, keys[..0]);
    for i := 0 to |keys|
      invariant Popping(e0, keys, keep, i, e, o, popped)
    {
      var block := keys[i];
      PopNext(e0, keys, keep, i, e, o, popped);
      if block !in keep {
        popped := popped + {e[block]};
        e := e - {block};
        o := Drop(o, block);
      }
    }
    PoppedAll(e0, keys, keep, e, o, popped);
  }

  /** The dictionary once the blocks in `done` are redirected from `name` to `it`. */
  ghost function Redirected(e0: map<nat, WBlock>, done: set<nat>, name: nat, it: nat): map<nat, WBlock> {
    map k | k in e0 :: if k in done then Redirect(e0[k], name, it) else e0[k]
  }

  lemma RedirectedStep(e0: map<nat, WBlock>, done: set<nat>, name: nat, it: nat, k: nat)
    requires k in e0 && k !in done
    ensures k in Redirected(e0, done, name, it) && Redirected(e0, done, name, it)[k] == e0[k]
    ensures Redirected(e0, done + {k}, name, it) ==
            Redirected(e0, done, name, it)[k := Redirect(e0[k], name, it)]
  {
  }

  /** `ASTCFG`: a dictionary of blocks with its two pruning passes. */
  class AstCfg {
    var entries: map<nat, WBlock>
    var order: seq<nat>

    ghost predicate Valid()
      reads this
    {
      WellFormed(entries, order)
    }

    constructor ()
      ensures entries == map[] && order == [] && Valid()
    {
      entries, order := map[], [];
    }

    /**
     * `prune_unreachable`: a worklist walk from "0" collects the reachable
     * names, raising `KeyError` at a reachable name that is not a key; then
     * every key not collected is popped, and the popped blocks are returned.
     */
    method PruneUnreachable() returns (r: Result<set<WBlock>>)
      requires Valid()
      modifies this
      ensures r.Err? <==> exists n :: Reachable(old(entries), n) && n !in old(entries)
      ensures r.Err? ==> r.error == KeyError && unchanged(this)
      ensures r.Ok? ==> Valid() && entries == KeepReachable(old(entries))
      ensures r.Ok? ==> r.value == set k | k in old(entries) && !Reachable(old(entries), k) :: old(entries)[k]
      ensures r.Ok? ==> order == Filter(old(order), entries.Keys)
    {
      var reachable := ReachableNames();
      if reachable.Err? {
        return Err(reachable.error);
      }
      var unreachable := PopAllBut(reachable.value);
      r := Ok(unreachable);
    }

    /** The worklist walk of `prune_unreachable`: the names reachable from "0", all of which must be keys. */
    method ReachableNames() returns (r: Result<set<nat>>)
      ensures r.Err? <==> exists n :: Reachable(entries, n) && n !in entries
      ensures r.Err? ==> r.error == KeyError
      ensures r.Ok? ==> r.value == set k | k in entries && Reachable(entries, k)
    {
      var e := entries;
      var toVisit: set<nat> := {0};
      var reachable: set<nat> := {};
      EntryReachable(e);
      while toVisit != {}
        invariant Walking(e, reachable, toVisit)
        decreases |Named(e) - reachable|, |toVisit|
      {
        var block :| block in toVisit;
        if block in reachable {
          WalkSkip(e, reachable, toVisit, block);
          toVisit := toVisit - {block};
        } else {
          if block !in e {
            assert Reachable(e, block);
            return Err(KeyError);
          }
          WalkVisit(e, reachable, toVisit, block);
          reachable := reachable + {block};
          toVisit := toVisit - {block} + set t | t in e[block].jumpTargets;
        }
      }
      ClosedHoldsReachable(e, reachable);
      r := Ok(reachable);
    }

    /** The popping loop of `prune_unreachable`: every key outside `keep` is popped and its block returned. */
    method PopAllBut(keep: set<nat>) returns (popped: set<WBlock>)
      requires Valid()
      modifies this
      ensures Valid() && entries == map k | k in old(entries) && k in keep :: old(entries)[k]
      ensures popped == set k | k in old(entries) && k !in keep :: old(entries)[k]
      ensures order == Filter(old(order), entries.Keys)
    {
      var e, o;
      e, o, popped := PopLoop(entries, order, keep);
      entries, order := e, o;
    }

    /**
     * `prune_empty`: over a snapshot of the keys, every block without
     * instructions is popped, its first target is taken (`IndexError` when it
     * has none), and every remaining block is redirected to it.
     */
    method PruneEmpty() returns (r: Result<set<WBlock>>)
      requires Valid()
      modifies this
      ensures r.Ok? ==> PruneEmptyOver(Pruned(old(entries), old(order), {}), old(order)) == Ok(Pruned(entries, order, r.value))
      ensures r.Err? ==> PruneEmptyOver(Pruned(old(entries), old(order), {}), old(order)) == Err(r.error)
    {
      ghost var p0 := Pruned(entries, order, {});
      var items := order;
      var empty: set<WBlock> := {};
      for i := 0 to |items|
        invariant PruneEmptyOver(p0, items[..i]) == Ok(Pruned(entries, order, empty))
      {
        var name := items[i];
        ghost var p := Pruned(entries, order, empty);
        PruneEmptyOverNext(p0, items, i, p);
        if name !in entries {
          PruneEmptyErrSticks(p0, items, i + 1);
          return Err(KeyError);
        }
        var block := entries[name];
        if block.instructions == [] {
          empty := empty + {block};
          entries := entries - {name};
          order := Drop(order, name);
          if block.jumpTargets == [] {
            PruneEmptyErrSticks(p0, items, i + 1);
            return Err(IndexError);
          }
          var it := block.jumpTargets[0];
          RedirectAll(name, it);
          assert entries == map k | k in p.entries && k != name :: Redirect(p.entries[k], name, it);
          assert Pruned(entries, order, empty) == PruneEmptyStep(p, name).value;
        }
      }
      assert items[..|items|] == items;
      r := Ok(empty);
    }

    /** The inner loop of `prune_empty`: every block is redirected from `name` to `it`. */
    method RedirectAll(name: nat, it: nat)
      modifies this
      ensures order == old(order)
      ensures entries == map k | k in old(entries) :: Redirect(old(entries)[k], name, it)
    {
      ghost var e0 := entries;
      var keys := entries.Keys;
      ghost var done: set<nat> := {};
      while keys != {}
        invariant keys + done == e0.Keys && keys !! done && order == old(order)
        invariant entries == Redirected(e0, done, name, it)
        decreases |keys|
      {
        var k :| k in keys;
        RedirectedStep(e0, done, name, it, k);
        entries := entries[k := Redirect(entries[k], name, it)];
        keys := keys - {k};
        done := done + {k};
      }
    }

  }
}
