/**
 * `ASTHandler`, the earlier prototype of the AST-to-CFG lowering. It lowers
 * assignments, expressions, returns and `if` statements; `while` is accepted
 * and ignored; `break` and `continue` raise `NotImplementedError` and `for`
 * calls a handler the class does not define. There is no loop stack: a block
 * an `if` arm leaves jumps to the end-if block unless it ends in a return.
 *
 * The functions below are the specification of the handlers; `Handler`
 * performs the same steps on its fields. On statement trees without loops,
 * `break` or `continue` the prototype lowers exactly as `AST2SCFGTransformer`
 * does (`LowerAgrees`).
 */
module AstHandler02 {
  import opened PyAst
  import opened AstBlocks
  import opened AstTransforms

  /** `WriteableBasicBlock.is_terminator`: the block has instructions and the last one is a return statement. */
  predicate IsTerminator(b: WBlock) {
    b.instructions != [] && b.instructions[|b.instructions| - 1].Node? &&
    b.instructions[|b.instructions| - 1].stmt.Return?
  }

  /** The prototype's terminator test is the transformer's `is_return`. */
  lemma TerminatorIsReturn(b: WBlock)
    ensures IsTerminator(b) <==> b.IsReturn()
  {
  }

  /** The end of an `if` arm: unless it ends in a return, the current block jumps to `enif` alone. */
  function Seal(s: Lowering, enif: nat): (t: Lowering)
    requires Live(s)
    ensures Live(t) && t.loopStack == s.loopStack && t.current == s.current
  {
    if IsTerminator(Current(s)) then s else WithTargets(s, [enif])
  }

  /** Without a loop, the prototype's seal is the transformer's. */
  lemma SealAgrees(s: Lowering, enif: nat)
    requires Live(s) && s.loopStack == []
    ensures Seal(s, enif) == WithSeal(s, enif)
  {
    TerminatorIsReturn(Current(s));
    if IsTerminator(Current(s)) {
      assert s.blocks[s.current := Current(s)] == s.blocks;
    }
  }

  /** `codegen`: the statements one after the other; the first exception stops it. */
  function ProtoLower(s: Lowering, tree: seq<Stmt>): (r: Result<Lowering>)
    requires Live(s)
    ensures r.Ok? ==> Live(r.value) && r.value.loopStack == s.loopStack
    ensures r.Ok? && tree != [] && IsSimple(tree[|tree| - 1]) ==>
      Current(r.value).instructions != [] &&
      Current(r.value).instructions[|Current(r.value).instructions| - 1] == Node(tree[|tree| - 1])
    decreases tree, 3
  {
    if tree == [] then Ok(s)
    else match ProtoLowerNode(s, tree[0])
      case Err(e) => Err(e)
      case Ok(t) => ProtoLower(t, tree[1..])
  }

  /**
   * `handle_ast_node`: assignments, expressions and returns are appended;
   * `while` changes nothing; `for` calls the missing `handle_for`
   * (`AttributeError`); anything else raises `NotImplementedError`.
   */
  function ProtoLowerNode(s: Lowering, node: Stmt): (r: Result<Lowering>)
    requires Live(s)
    ensures r.Ok? ==> Live(r.value) && r.value.loopStack == s.loopStack
    ensures node.While? ==> r == Ok(s)
    ensures node.For? ==> r == Err(AttributeError)
    ensures node.Break? || node.Continue? || node.Unsupported? ==> r == Err(NotImplementedError)
    decreases node, 2
  {
    match node
    case FunctionDef(_) => ProtoLowerFunctionDef(s, node)
    case If(_, _, _) => ProtoLowerIf(s, node)
    case While(_, _, _) => Ok(s)
    case For(_, _, _, _) => Err(AttributeError)
    case Assign(_) => Ok(WithInstr(s, Node(node)))
    case AugAssign(_) => Ok(WithInstr(s, Node(node)))
    case ExprStmt(_) => Ok(WithInstr(s, Node(node)))
    case Return(_) => Ok(WithInstr(s, Node(node)))
    case _ => Err(NotImplementedError)
  }

  /**
   * `handle_function_def`: the body, then `return None` unless it ends in a
   * return, so the last block returns; an empty body raises `IndexError`.
   */
  function ProtoLowerFunctionDef(s: Lowering, node: Stmt): (r: Result<Lowering>)
    requires Live(s) && node.FunctionDef?
    ensures r.Ok? ==> Live(r.value) && r.value.loopStack == s.loopStack && IsTerminator(Current(r.value))
    ensures node.body == [] ==> r == Err(IndexError)
    decreases node, 1
  {
    if node.body == [] then Err(IndexError)
    else match ProtoLower(s, node.body)
      case Err(e) => Err(e)
      case Ok(t) =>
        if node.body[|node.body| - 1].Return? then Ok(t) else Ok(WithInstr(t, Node(Return(NoneConst))))
  }

  /**
   * `handle_if`: the test block as in the transformer (`IfHead`), each arm
   * lowered in its block and sealed towards the end-if block, which becomes
   * current.
   */
  function ProtoLowerIf(s: Lowering, node: Stmt): (r: Result<Lowering>)
    requires Live(s) && node.If?
    ensures r.Ok? ==> Live(r.value) && r.value.loopStack == s.loopStack
    decreases node, 1
  {
    match ProtoLower(IfHead(s, node), node.body)
    case Err(e) => Err(e)
    case Ok(t) => ProtoIfElse(s, node, t)
  }

  /** The prototype's `handle_if` after the then branch ended in `t`: the arm is sealed and the else branch lowered. */
  function ProtoIfElse(s: Lowering, node: Stmt, t: Lowering): (r: Result<Lowering>)
    requires Live(t) && node.If?
    ensures r.Ok? ==> Live(r.value) && r.value.loopStack == t.loopStack
    decreases node, 0
  {
    match ProtoLower(WithBlock(Seal(t, s.blockIndex + 2), s.blockIndex + 1), node.orelse)
    case Err(e) => Err(e)
    case Ok(u) => Ok(WithBlock(Seal(u, s.blockIndex + 2), s.blockIndex + 2))
  }

  // ---------------------------------------------------------------------------------------------
  // The prototype and the transformer agree where the prototype lowers everything it meets.

  lemma {:induction false} LowerAgrees(s: Lowering, tree: seq<Stmt>)
    requires Live(s) && s.loopStack == [] && Straight(tree)
    ensures ProtoLower(s, tree) == Lower(s, tree)
    decreases tree, 3
  {
    if tree != [] {
      assert StraightStmt(tree[0]);
      LowerNodeAgrees(s, tree[0]);
      if ProtoLowerNode(s, tree[0]).Ok? {
        assert Straight(tree[1..]) by {
          forall i | 0 <= i < |tree[1..]| ensures StraightStmt(tree[1..][i]) {
            assert tree[1..][i] == tree[i + 1];
          }
        }
        LowerAgrees(ProtoLowerNode(s, tree[0]).value, tree[1..]);
      }
    }
  }

  lemma {:induction false} LowerNodeAgrees(s: Lowering, node: Stmt)
    requires Live(s) && s.loopStack == [] && StraightStmt(node)
    ensures ProtoLowerNode(s, node) == LowerNode(s, node)
    decreases node, 2
  {
    match node
    case FunctionDef(_) => LowerFunctionDefAgrees(s, node);
    case If(_, _, _) => LowerIfAgrees(s, node);
    case _ =>
  }

  lemma {:induction false} LowerFunctionDefAgrees(s: Lowering, node: Stmt)
    requires Live(s) && s.loopStack == [] && node.FunctionDef? && Straight(node.body)
    ensures ProtoLowerFunctionDef(s, node) == LowerFunctionDef(s, node)
    decreases node, 1
  {
    if node.body != [] {
      LowerAgrees(s, node.body);
    }
  }

  lemma {:induction false} LowerIfAgrees(s: Lowering, node: Stmt)
    requires Live(s) && s.loopStack == [] && node.If? && Straight(node.body) && Straight(node.orelse)
    ensures ProtoLowerIf(s, node) == LowerIf(s, node)
    decreases node, 1
  {
    LowerAgrees(IfHead(s, node), node.body);
    if ProtoLower(IfHead(s, node), node.body).Ok? {
      IfArmsAgree(s, node, ProtoLower(IfHead(s, node), node.body).value);
      IfThenDone(s, node, ProtoLower(IfHead(s, node), node.body).value);
    }
  }

  /** Both lowerings of an `if` whose then branch lowered to `t` continue with the else branch from `t`. */
  lemma IfThenDone(s: Lowering, node: Stmt, t: Lowering)
    requires Live(s) && node.If? && ProtoLower(IfHead(s, node), node.body) == Ok(t)
    requires Lower(IfHead(s, node), node.body) == Ok(t)
    ensures LowerIf(s, node) == Close(Lower(IfOrelse(s, t), node.orelse), s.blockIndex + 2)
    ensures ProtoLowerIf(s, node) == ProtoIfElse(s, node, t)
  {
    IfThenLowered(s, node, t);
    ProtoIfDone(s, node, t);
  }

  lemma ProtoIfDone(s: Lowering, node: Stmt, t: Lowering)
    requires Live(s) && node.If? && ProtoLower(IfHead(s, node), node.body) == Ok(t)
    ensures ProtoLowerIf(s, node) == ProtoIfElse(s, node, t)
  {
  }

  lemma {:induction false} IfArmsAgree(s: Lowering, node: Stmt, t: Lowering)
    requires Live(s) && Live(t) && s.loopStack == [] && t.loopStack == [] && node.If? && Straight(node.orelse)
    ensures ProtoLower(WithBlock(Seal(t, s.blockIndex + 2), s.blockIndex + 1), node.orelse) ==
            Lower(IfOrelse(s, t), node.orelse)
    ensures ProtoLower(WithBlock(Seal(t, s.blockIndex + 2), s.blockIndex + 1), node.orelse).Ok? ==>
            var u := ProtoLower(WithBlock(Seal(t, s.blockIndex + 2), s.blockIndex + 1), node.orelse).value;
            Ok(WithBlock(Seal(u, s.blockIndex + 2), s.blockIndex + 2)) == Close(Ok(u), s.blockIndex + 2)
    decreases node, 0
  {
    SealAgrees(t, s.blockIndex + 2);
    LowerAgrees(IfOrelse(s, t), node.orelse);
    if ProtoLower(IfOrelse(s, t), node.orelse).Ok? {
      SealAgrees(ProtoLower(IfOrelse(s, t), node.orelse).value, s.blockIndex + 2);
    }
  }

  /** The end of an arm: a block ending in a return keeps its jump targets, any other jumps to `enif` alone. */
  lemma ArmSealed(s: Lowering, enif: nat)
    requires Live(s)
    ensures Current(Seal(s, enif)).name == Current(s).name
    ensures Current(Seal(s, enif)).instructions == Current(s).instructions
    ensures IsTerminator(Current(s)) ==> Current(Seal(s, enif)).jumpTargets == Current(s).jumpTargets
    ensures !IsTerminator(Current(s)) ==> Current(Seal(s, enif)).jumpTargets == [enif]
  {
  }

  /** `ASTHandler`: the counter, the dictionary of blocks with its key order, and the current block's name. */
  class Handler {
    var blockIndex: nat
    var blocks: map<nat, WBlock>
    var order: seq<nat>
    var current: nat

    /** The fields as the state of the lowering, which has no loop stack here. */
    ghost function State(): Lowering
      reads this
    {
      Lowering(blockIndex, blocks, order, current, [])
    }

    /** `__init__`: the genesis block "0" in the dictionary and current, the counter at 1. */
    constructor ()
      ensures State() == Genesis()
    {
      blockIndex := 1;
      blocks := map[0 := WBlock(0, [], [])];
      order := [0];
      current := 0;
    }

    /** `add_block`: an empty block under `index`, which becomes current. */
    method AddBlock(index: nat)
      modifies this
      ensures State() == WithBlock(old(State()), index)
    {
      if index !in blocks {
        order := order + [index];
      }
      blocks := blocks[index := WBlock(index, [], [])];
      current := index;
    }

    /** An instruction appended to the current block. */
    method Append(i: Instr)
      requires Live(State())
      modifies this
      ensures State() == WithInstr(old(State()), i)
    {
      blocks := blocks[current := blocks[current].(instructions := blocks[current].instructions + [i])];
    }

    /** The current block's jump targets replaced. */
    method SetJumpTargets(targets: seq<nat>)
      requires Live(State())
      modifies this
      ensures State() == WithTargets(old(State()), targets)
    {
      blocks := blocks[current := blocks[current].(jumpTargets := targets)];
    }

    /** The end of an `if` arm. */
    method SealArm(enif: nat)
      requires Live(State())
      modifies this
      ensures State() == Seal(old(State()), enif)
    {
      if !IsTerminator(blocks[current]) {
        SetJumpTargets([enif]);
      }
    }

    /** `codegen`. */
    method Codegen(tree: seq<Stmt>) returns (r: Result<()>)
      requires Live(State())
      modifies this
      ensures r.Ok? ==> ProtoLower(old(State()), tree) == Ok(State())
      ensures r.Err? ==> ProtoLower(old(State()), tree) == Err(r.error)
      decreases tree, 3
    {
      for i := 0 to |tree|
        invariant Live(State()) && ProtoLower(old(State()), tree) == ProtoLower(State(), tree[i..])
      {
        assert tree[i..][0] == tree[i] && tree[i..][1..] == tree[i + 1..];
        r := HandleAstNode(tree[i]);
        if r.Err? {
          return;
        }
      }
      r := Ok(());
    }

    /** `handle_ast_node`; the handler of `for` does not exist. */
    method HandleAstNode(node: Stmt) returns (r: Result<()>)
      requires Live(State())
      modifies this
      ensures r.Ok? ==> ProtoLowerNode(old(State()), node) == Ok(State())
      ensures r.Err? ==> ProtoLowerNode(old(State()), node) == Err(r.error)
      decreases node, 2
    {
      match node
      case FunctionDef(_) => r := HandleFunctionDef(node);
      case If(_, _, _) => r := HandleIf(node);
      case While(_, _, _) => r := HandleWhile(node);
      case For(_, _, _, _) => r := Err(AttributeError);
      case Assign(_) => Append(Node(node)); r := Ok(());
      case AugAssign(_) => Append(Node(node)); r := Ok(());
      case ExprStmt(_) => Append(Node(node)); r := Ok(());
      case Return(_) => Append(Node(node)); r := Ok(());
      case _ => r := Err(NotImplementedError);
    }

    /** `handle_function_def`. */
    method HandleFunctionDef(node: Stmt) returns (r: Result<()>)
      requires Live(State()) && node.FunctionDef?
      modifies this
      ensures r.Ok? ==> ProtoLowerFunctionDef(old(State()), node) == Ok(State())
      ensures r.Err? ==> ProtoLowerFunctionDef(old(State()), node) == Err(r.error)
      decreases node, 1
    {
      if node.body == [] {
        return Err(IndexError);
      }
      r := Codegen(node.body);
      if r.Ok? && !node.body[|node.body| - 1].Return? {
        Append(Node(Return(NoneConst)));
      }
    }

    /** `handle_if`. */
    method HandleIf(node: Stmt) returns (r: Result<()>)
      requires Live(State()) && node.If?
      modifies this
      ensures r.Ok? ==> ProtoLowerIf(old(State()), node) == Ok(State())
      ensures r.Err? ==> ProtoLowerIf(old(State()), node) == Err(r.error)
      decreases node, 1
    {
      ghost var s := State();
      var elseIndex, enifIndex := IfTestCode(node);
      r := Codegen(node.body);
      if r.Err? {
        return;
      }
      ProtoIfDone(s, node, State());
      EndArm(enifIndex, elseIndex);
      r := Codegen(node.orelse);
      if r.Err? {
        return;
      }
      EndArm(enifIndex, enifIndex);
    }

    /** The end of an `if` arm, and the next block made current. */
    method EndArm(enif: nat, next: nat)
      requires Live(State())
      modifies this
      ensures State() == WithBlock(Seal(old(State()), enif), next)
    {
      SealArm(enif);
      AddBlock(next);
    }

    /** The test block of `handle_if`, which leaves the then block current. */
    method IfTestCode(node: Stmt) returns (elseIndex: nat, enifIndex: nat)
      requires Live(State()) && node.If?
      modifies this
      ensures State() == IfHead(old(State()), node)
      ensures elseIndex == old(blockIndex) + 1 && enifIndex == old(blockIndex) + 2
    {
      var thenIndex := blockIndex;
      elseIndex, enifIndex := blockIndex + 1, blockIndex + 2;
      blockIndex := blockIndex + 3;
      Append(Test(node.test));
      SetJumpTargets([thenIndex, elseIndex]);
      AddBlock(thenIndex);
    }

    /** `handle_while` does nothing. */
    method HandleWhile(node: Stmt) returns (r: Result<()>)
      requires node.While?
      ensures r == Ok(())
    {
      r := Ok(());
    }

    /**
     * `process` up to the conversion of the blocks: the first statement must
     * be a function definition, and the whole module body is lowered.
     */
    method Process(tree: seq<Stmt>) returns (r: Result<()>)
      requires Live(State())
      modifies this
      ensures tree == [] ==> r == Err(IndexError)
      ensures tree != [] && !tree[0].FunctionDef? ==> r == Err(AssertionError)
      ensures tree != [] && tree[0].FunctionDef? && r.Ok? ==> ProtoLower(old(State()), tree) == Ok(State())
      ensures tree != [] && tree[0].FunctionDef? && r.Err? ==> ProtoLower(old(State()), tree) == Err(r.error)
    {
      if tree == [] {
        return Err(IndexError);
      }
      if !tree[0].FunctionDef? {
        return Err(AssertionError);
      }
      r := Codegen(tree);
    }

    /**
     * `prune_empty`: over a snapshot of the blocks, every block without
     * instructions is popped and every remaining block is redirected from it
     * to its first target (`IndexError` when it has none).
     */
    method PruneEmpty() returns (r: Result<()>)
      modifies this
      ensures r.Ok? <==> PruneEmptyOver(Pruned(old(blocks), old(order), {}), old(order)).Ok?
      ensures r.Ok? ==> PruneEmptyOver(Pruned(old(blocks), old(order), {}), old(order)).value.entries == blocks
      ensures r.Ok? ==> PruneEmptyOver(Pruned(old(blocks), old(order), {}), old(order)).value.order == order
      ensures r.Err? ==> PruneEmptyOver(Pruned(old(blocks), old(order), {}), old(order)) == Err(r.error)
    {
      ghost var p0 := Pruned(blocks, order, {});
      ghost var removed: set<WBlock> := {};
      var items := order;
      for k := 0 to |items|
        invariant PruneEmptyOver(p0, items[..k]) == Ok(Pruned(blocks, order, removed))
      {
        var name := items[k];
        ghost var p := Pruned(blocks, order, removed);
        PruneEmptyOverNext(p0, items, k, p);
        if name !in blocks {
          PruneEmptyErrSticks(p0, items, k + 1);
          return Err(KeyError);
        }
        var i := blocks[name];
        if i.instructions == [] {
          removed := removed + {i};
          blocks := blocks - {name};
          order := Drop(order, name);
          if i.jumpTargets == [] {
            PruneEmptyErrSticks(p0, items, k + 1);
            return Err(IndexError);
          }
          var it := i.jumpTargets[0];
          RedirectAll(name, it);
          assert blocks == map j | j in p.entries && j != name :: Redirect(p.entries[j], name, it);
          assert Pruned(blocks, order, removed) == PruneEmptyStep(p, name).value;
        }
      }
      assert items[..|items|] == items;
      r := Ok(());
    }

    /** The inner loop of `prune_empty`: every block is redirected from `name` to `it`. */
    method RedirectAll(name: nat, it: nat)
      modifies this
      ensures order == old(order)
      ensures blocks == map k | k in old(blocks) :: Redirect(old(blocks)[k], name, it)
    {
      ghost var e0 := blocks;
      var keys := blocks.Keys;
      ghost var done: set<nat> := {};
      while keys != {}
        invariant keys + done == e0.Keys && keys !! done && order == old(order)
        invariant blocks == Redirected(e0, done, name, it)
        decreases |keys|
      {
        var k :| k in keys;
        RedirectedStep(e0, done, name, it, k);
        blocks := blocks[k := Redirect(blocks[k], name, it)];
        keys := keys - {k};
        done := done + {k};
      }
    }
  }
}
