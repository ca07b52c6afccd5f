/**
 * `AST2SCFGTransformer.transform`: a function's statement tree is lowered
 * into blocks from the genesis state and, when the transformer prunes, the
 * unreachable blocks and then the empty ones are removed. The functions
 * below say what `transform` computes; the lemmas prove that it raises no
 * exception once the lowering succeeds and that pruning leaves no empty
 * block; the class `Transformer` performs the same steps on its fields.
 */
module AstTransformer {
  import opened PyAst
  import opened AstBlocks
  import opened AstTransforms

  /**
   * `prune_unreachable` on the dictionary `e` with key order `o`: a
   * reachable name that is not a key raises `KeyError`; otherwise the
   * reachable blocks stay, in their order.
   */
  ghost function PrunedUnreachable(e: map<nat, WBlock>, o: seq<nat>): Result<Pruned> {
    if exists n :: Reachable(e, n) && n !in e then Err(KeyError)
    else Ok(Pruned(KeepReachable(e), Filter(o, KeepReachable(e).Keys), {}))
  }

  /** The two pruning passes of `transform`, one after the other, on the blocks of `t`. */
  ghost function Pruning(t: Lowering): Result<Pruned> {
    match PrunedUnreachable(t.blocks, t.order)
    case Err(e) => Err(e)
    case Ok(p) => PruneEmptyOver(p, p.order)
  }

  /**
   * `transform` from the state `s` on the parsed module body `tree`: its
   * first statement must be a function definition (`IndexError` on an empty
   * body, `AssertionError` otherwise); the whole body is lowered and pruned
   * when `prune` is set.
   */
  ghost function Transformed(s: Lowering, tree: seq<Stmt>, prune: bool): Result<Pruned>
    requires Live(s)
  {
    if tree == [] then Err(IndexError)
    else if !tree[0].FunctionDef? then Err(AssertionError)
    else match Lower(s, tree)
      case Err(e) => Err(e)
      case Ok(t) => if prune then Pruning(t) else Ok(Pruned(t.blocks, t.order, {}))
  }

  /** No block is a dead end: a block without instructions has a jump target. */
  ghost predicate NoDeadEnd(e: map<nat, WBlock>) {
    forall k | k in e && e[k].instructions == [] :: e[k].jumpTargets != []
  }

  /** Every jump target of every block is a key. */
  ghost predicate TargetsKeys(e: map<nat, WBlock>) {
    forall k, t | k in e && t in e[k].jumpTargets :: t in e
  }

  lemma GenesisInvariants()
    ensures Sound(Genesis()) && Finished(Genesis()) && Closed(Genesis(), {})
  {
    assert Genesis().blocks - {0} == map[];
  }

  /**
   * What the lowering of a function leaves: a well-formed dictionary that
   * holds the genesis block, whose every jump target is a key and in which
   * no block is a dead end.
   */
  lemma LoweredFunction(body: seq<Stmt>)
    requires Lower(Genesis(), [FunctionDef(body)]).Ok?
    ensures var t := Lower(Genesis(), [FunctionDef(body)]).value;
      WellFormed(t.blocks, t.order) && 0 in t.blocks && TargetsKeys(t.blocks) && NoDeadEnd(t.blocks)
  {
    GenesisInvariants();
    LowerSound(Genesis(), [FunctionDef(body)]);
    LowerFinishes(Genesis(), [FunctionDef(body)]);
    LowerClosed(Genesis(), [FunctionDef(body)], {});
    assert [FunctionDef(body)][1..] == [];
    assert [FunctionDef(body)][0] == FunctionDef(body);
    CountedWellFormed(Lower(Genesis(), [FunctionDef(body)]).value.blocks, Lower(Genesis(), [FunctionDef(body)]).value.order);
  }

  /** A dictionary whose targets are all keys and which holds "0" has every reachable name as a key. */
  lemma ReachableKeys(e: map<nat, WBlock>, o: seq<nat>)
    requires 0 in e && TargetsKeys(e)
    ensures forall n | Reachable(e, n) :: n in e
    ensures PrunedUnreachable(e, o).Ok?
  {
    forall n | Reachable(e, n) ensures n in e {
      var p :| IsPath(e, p) && p[|p| - 1] == n;
      PathInside(e, e.Keys, p);
    }
  }

  /** `prune_unreachable` keeps the dictionary well formed and adds no dead end. */
  lemma KeptWellFormed(e: map<nat, WBlock>, o: seq<nat>)
    requires WellFormed(e, o)
    ensures WellFormed(KeepReachable(e), Filter(o, KeepReachable(e).Keys))
    ensures NoDeadEnd(e) ==> NoDeadEnd(KeepReachable(e))
    ensures forall n | n in Filter(o, KeepReachable(e).Keys) :: n in KeepReachable(e)
  {
    FilterMembers(o, KeepReachable(e).Keys);
  }

  /**
   * The lowering of a function that succeeds is transformed without
   * exception, and pruning leaves no block without instructions: every
   * reachable target is a block, and every block without instructions has a
   * target to redirect its predecessors to.
   */
  lemma TransformSucceeds(body: seq<Stmt>, prune: bool)
    requires Lower(Genesis(), [FunctionDef(body)]).Ok?
    ensures Transformed(Genesis(), [FunctionDef(body)], prune).Ok?
    ensures prune ==> var p := Transformed(Genesis(), [FunctionDef(body)], prune).value;
      forall k | k in p.entries :: p.entries[k].instructions != []
  {
    LoweredFunction(body);
    var t := Lower(Genesis(), [FunctionDef(body)]).value;
    ReachableKeys(t.blocks, t.order);
    KeptWellFormed(t.blocks, t.order);
    var p := PrunedUnreachable(t.blocks, t.order).value;
    PruneEmptySucceeds(p, p.order);
    NoEmptyLeft(p, p.order);
  }

  // ---------------------------------------------------------------------------------------------
  // `handle_for` as written leaves the block its `else` clause ends in unsealed.

  /** `for i in <2>: <3>` with `else: if <4>: <5>`, followed by `return <6>`. */
  function ForElseIf(): Stmt {
    For(Opaque(1), Opaque(2), [Assign(Opaque(3))], [If(Opaque(4), [Assign(Opaque(5))], [])])
  }

  /** The `if` statement of the `else` clause of `ForElseIf`. */
  function ElseIf(): Stmt {
    If(Opaque(4), [Assign(Opaque(5))], [])
  }

  // The states the lowering of `ForElseIf` goes through from the genesis state.

  function ForLines(): map<nat, WBlock> {
    map[0 := WBlock(0, [ForInstr(IterInit, ForElseIf()), ForInstr(TargetInit, ForElseIf())], [1]),
        1 := WBlock(1, [ForInstr(SaveLast, ForElseIf()), ForInstr(Advance, ForElseIf()), ForInstr(NotSentinel, ForElseIf())], [2, 3]),
        2 := WBlock(2, [Node(Assign(Opaque(3)))], [1])]
  }

  /** Header done, body block current, loop pushed. */
  function AtBody(): Lowering {
    Lowering(5, ForLines()[2 := WBlock(2, [], [])], [0, 1, 2], 2, [LoopIndices(1, 4)])
  }

  /** The body lowered, not yet sealed. */
  function AfterBody(): Lowering {
    AtBody().(blocks := ForLines()[2 := WBlock(2, [Node(Assign(Opaque(3)))], [])])
  }

  /** Else block current, loop popped. */
  function AtElse(): Lowering {
    Lowering(5, ForLines()[3 := WBlock(3, [ForInstr(RestoreLast, ForElseIf())], [4])], [0, 1, 2, 3], 3, [])
  }

  /** The `if` of the `else` clause tested, its then block current. */
  function AtThen(): Lowering {
    Lowering(8, ForLines()[3 := WBlock(3, [ForInstr(RestoreLast, ForElseIf()), Test(Opaque(4))], [5, 6])]
                          [5 := WBlock(5, [], [])], [0, 1, 2, 3, 5], 5, [])
  }

  /** The end-if block of the `else` clause current. */
  function AtEndIf(): Lowering {
    Lowering(8, ForLines()[3 := WBlock(3, [ForInstr(RestoreLast, ForElseIf()), Test(Opaque(4))], [5, 6])]
                          [5 := WBlock(5, [Node(Assign(Opaque(5)))], [7])]
                          [6 := WBlock(6, [], [7])]
                          [7 := WBlock(7, [], [])], [0, 1, 2, 3, 5, 6, 7], 7, [])
  }

  lemma ForElseIfBody()
    ensures ForHead(Genesis(), ForElseIf()) == AtBody()
    ensures Lower(AtBody(), [Assign(Opaque(3))]) == Ok(AfterBody())
    ensures ForOrelse(Genesis(), ForElseIf(), AfterBody()) == AtElse()
  {
    assert [] + [ForInstr(IterInit, ForElseIf()), ForInstr(TargetInit, ForElseIf())] == ForLines()[0].instructions;
    assert ForEntry(Genesis(), ForElseIf()).blocks == map[0 := ForLines()[0]];
    assert [] + [ForInstr(SaveLast, ForElseIf()), ForInstr(Advance, ForElseIf()), ForInstr(NotSentinel, ForElseIf())] == ForLines()[1].instructions;
    assert ForAdvance(WithBlock(ForEntry(Genesis(), ForElseIf()), 1), ForElseIf(), 2).blocks == map[0 := ForLines()[0], 1 := ForLines()[1]];
    assert ForHead(Genesis(), ForElseIf()).blocks == AtBody().blocks;
    assert ForHead(Genesis(), ForElseIf()).order == [0, 1, 2];
    assert [] + [Node(Assign(Opaque(3)))] == [Node(Assign(Opaque(3)))];
    assert [Assign(Opaque(3))][1..] == [];
    assert WithInstr(AtBody(), Node(Assign(Opaque(3)))) == AfterBody();
    assert Lower(AfterBody(), []) == Ok(AfterBody());
    assert WithSeal(AfterBody(), 1).blocks == ForLines();
    assert [] + [ForInstr(RestoreLast, ForElseIf())] == [ForInstr(RestoreLast, ForElseIf())];
    assert ForOrelse(Genesis(), ForElseIf(), AfterBody()).blocks == AtElse().blocks;
    assert ForOrelse(Genesis(), ForElseIf(), AfterBody()).order == [0, 1, 2, 3];
  }

  lemma ForElseIfElse()
    ensures IfHead(AtElse(), ElseIf()) == AtThen()
    ensures Lower(AtThen(), [Assign(Opaque(5))]) == Ok(WithInstr(AtThen(), Node(Assign(Opaque(5)))))
  {
    assert [ForInstr(RestoreLast, ForElseIf())] + [Test(Opaque(4))] == [ForInstr(RestoreLast, ForElseIf()), Test(Opaque(4))];
    assert IfTest(AtElse(), ElseIf()).blocks == AtThen().blocks - {5};
    assert IfHead(AtElse(), ElseIf()).blocks == AtThen().blocks;
    assert IfHead(AtElse(), ElseIf()).order == AtThen().order;
    assert [Assign(Opaque(5))][1..] == [];
  }

  lemma ForElseIfEndIf()
    ensures Close(Lower(IfOrelse(AtElse(), WithInstr(AtThen(), Node(Assign(Opaque(5))))), []), 7) == Ok(AtEndIf())
  {
    assert [] + [Node(Assign(Opaque(5)))] == [Node(Assign(Opaque(5)))];
    assert WithInstr(AtThen(), Node(Assign(Opaque(5)))).blocks == AtThen().blocks[5 := WBlock(5, [Node(Assign(Opaque(5)))], [])];
    assert IfOrelse(AtElse(), WithInstr(AtThen(), Node(Assign(Opaque(5))))).blocks == AtEndIf().blocks[6 := WBlock(6, [], [])] - {7};
    assert IfOrelse(AtElse(), WithInstr(AtThen(), Node(Assign(Opaque(5))))).order == [0, 1, 2, 3, 5, 6];
    var u := IfOrelse(AtElse(), WithInstr(AtThen(), Node(Assign(Opaque(5)))));
    assert Lower(u, []) == Ok(u);
    assert u.current == 6 && u.loopStack == [] && u.blockIndex == 8;
    assert WithSeal(u, 7).blocks == u.blocks[6 := WBlock(6, [], [7])];
    assert WithSeal(u, 7).blocks == AtEndIf().blocks - {7};
    assert Close(Ok(u), 7).value.blocks == AtEndIf().blocks;
    assert Close(Ok(u), 7).value.order == AtEndIf().order;
  }

  lemma ForElseIfOrelse()
    ensures Lower(AtElse(), [ElseIf()]) == Ok(AtEndIf())
  {
    ForElseIfElse();
    ForElseIfEndIf();
    assert [ElseIf()][1..] == [];
  }

  /** The two ways to end `handle_for` differ only in the seal of block 7. */
  lemma ForElseIfLoop()
    ensures LowerForAsWritten(Genesis(), ForElseIf()) == Ok(WithBlock(AtEndIf(), 4))
    ensures LowerFor(Genesis(), ForElseIf()) == Close(Ok(AtEndIf()), 4)
  {
    ForElseIfBody();
    ForElseIfOrelse();
  }

  /** The function lowered with `handle_for` as written: the end-if block 7 is left with neither instructions nor targets. */
  function AsWritten(): Lowering {
    Lowering(8, AtEndIf().blocks[4 := WBlock(4, [Node(Return(Opaque(6)))], [])], [0, 1, 2, 3, 5, 6, 7, 4], 4, [])
  }

  lemma ForElseIfReturn()
    ensures Lower(WithBlock(AtEndIf(), 4), [Return(Opaque(6))]) == Ok(AsWritten())
  {
    assert [Return(Opaque(6))][1..] == [];
    assert [] + [Node(Return(Opaque(6)))] == [Node(Return(Opaque(6)))];
    assert WithInstr(WithBlock(AtEndIf(), 4), Node(Return(Opaque(6)))) == AsWritten();
    assert Lower(AsWritten(), []) == Ok(AsWritten());
  }

  lemma AsWrittenShape()
    ensures 0 in AsWritten().blocks && TargetsKeys(AsWritten().blocks) && WellFormed(AsWritten().blocks, AsWritten().order)
    ensures Reachable(AsWritten().blocks, 7) && AsWritten().blocks[7] == WBlock(7, [], [])
  {
    AsWrittenTargetsKeys();
    AsWrittenWellFormed();
    AsWrittenEndIfReachable();
  }

  lemma AsWrittenTargetsKeys() ensures TargetsKeys(AsWritten().blocks) {}
  lemma AsWrittenWellFormed() ensures WellFormed(AsWritten().blocks, AsWritten().order) {}
  lemma AsWrittenEndIfReachable() ensures Reachable(AsWritten().blocks, 7) && AsWritten().blocks[7] == WBlock(7, [], []) {
    assert IsPath(AsWritten().blocks, [0, 1, 3, 5, 7]);
  }

  /** Block 7 is reachable along 0, 1, 3, 5, 7 and survives `prune_unreachable`, and `prune_empty` fails on it. */
  lemma AsWrittenDeadEnd()
    ensures Pruning(AsWritten()) == Err(IndexError)
  {
    AsWrittenShape();
    ReachableKeys(AsWritten().blocks, AsWritten().order);
    KeptWellFormed(AsWritten().blocks, AsWritten().order);
    FilterMembers(AsWritten().order, KeepReachable(AsWritten().blocks).Keys);
    PruneEmptyDeadEnd(PrunedUnreachable(AsWritten().blocks, AsWritten().order).value,
                      PrunedUnreachable(AsWritten().blocks, AsWritten().order).value.order, 7);
  }

  /**
   * With `handle_for` as written, the function `for … else: if …` then
   * `return` is lowered with the end-if block of the `else` clause left
   * empty and without a jump target; it is reachable, so `prune_empty` raises
   * `IndexError`. The corrected lowering transforms it without exception.
   */
  lemma ForElseIfDeadEnd()
    ensures LowerForAsWritten(Genesis(), ForElseIf()).Ok?
    ensures Lower(LowerForAsWritten(Genesis(), ForElseIf()).value, [Return(Opaque(6))]).Ok?
    ensures Pruning(Lower(LowerForAsWritten(Genesis(), ForElseIf()).value, [Return(Opaque(6))]).value) == Err(IndexError)
    ensures Transformed(Genesis(), [FunctionDef([ForElseIf(), Return(Opaque(6))])], true).Ok?
  {
    ForElseIfLoop();
    ForElseIfReturn();
    AsWrittenDeadEnd();
    ForElseIfFixed();
  }

  /** A `return` always lowers. */
  lemma LowerReturn(s: Lowering, e: Expr)
    requires Live(s)
    ensures Lower(s, [Return(e)]).Ok?
  {
    assert [Return(e)][1..] == [];
  }

  /** The body of a function that lowers, and whose last statement returns, lowers as the function itself. */
  lemma LowerFunction(s: Lowering, body: seq<Stmt>)
    requires Live(s) && body != [] && body[|body| - 1].Return? && Lower(s, body).Ok?
    ensures Lower(s, [FunctionDef(body)]) == Lower(s, body)
  {
    assert LowerFunctionDef(s, FunctionDef(body)) == Lower(s, body);
    assert [FunctionDef(body)][1..] == [];
    assert Lower(Lower(s, body).value, []) == Lower(s, body);
  }

  /** Lowering a statement and then a return. */
  lemma LowerThenReturn(s: Lowering, node: Stmt, e: Expr)
    requires Live(s) && LowerNode(s, node).Ok?
    ensures Lower(s, [node, Return(e)]) == Lower(LowerNode(s, node).value, [Return(e)])
    ensures Lower(s, [node, Return(e)]).Ok?
  {
    assert [node, Return(e)][1..] == [Return(e)];
    LowerReturn(LowerNode(s, node).value, e);
  }

  lemma ForElseIfLowers()
    ensures LowerNode(Genesis(), ForElseIf()).Ok?
  {
    ForElseIfLoop();
    LowerNodeFor(Genesis(), ForElseIf());
  }

  lemma LowerNodeFor(s: Lowering, node: Stmt)
    requires Live(s) && node.For?
    ensures LowerNode(s, node) == LowerFor(s, node)
  {
  }

  lemma ForElseIfFixed()
    ensures Transformed(Genesis(), [FunctionDef([ForElseIf(), Return(Opaque(6))])], true).Ok?
  {
    ForElseIfLowers();
    LowerThenReturn(Genesis(), ForElseIf(), Opaque(6));
    LowerFunction(Genesis(), [ForElseIf(), Return(Opaque(6))]);
    TransformSucceeds([ForElseIf(), Return(Opaque(6))], true);
  }

  // ---------------------------------------------------------------------------------------------
  // `AST2SCFGTransformer` itself: each method changes the fields as the function of the same
  // handler above changes the state.

  /** Ending a block with one instruction and then its jump targets. */
  lemma EmitOne(s: Lowering, i: Instr, targets: seq<nat>)
    requires Live(s)
    ensures WithTargets(WithInstr(s, i), targets) == Emit(s, [i], targets)
  {
  }

  lemma EmitTwo(s: Lowering, i: Instr, j: Instr, targets: seq<nat>)
    requires Live(s)
    ensures WithTargets(WithInstr(WithInstr(s, i), j), targets) == Emit(s, [i, j], targets)
  {
    assert Current(s).instructions + [i] + [j] == Current(s).instructions + [i, j];
  }

  lemma EmitThree(s: Lowering, i: Instr, j: Instr, k: Instr, targets: seq<nat>)
    requires Live(s)
    ensures WithTargets(WithInstr(WithInstr(WithInstr(s, i), j), k), targets) == Emit(s, [i, j, k], targets)
  {
    assert Current(s).instructions + [i] + [j] + [k] == Current(s).instructions + [i, j, k];
  }

  /** `AST2SCFGTransformer`: the counter, the dictionary of blocks, the current block's name and the loop stack. */
  class Transformer {
    const prune: bool
    var blockIndex: nat
    const blocks: AstCfg
    var current: nat
    var loopStack: seq<LoopIndices>

    /** The fields as the state the lowering functions work on. */
    ghost function State(): Lowering
      reads this, blocks
    {
      Lowering(blockIndex, blocks.entries, blocks.order, current, loopStack)
    }

    /** The dictionary is well formed and holds the current block. */
    ghost predicate Valid()
      reads this, blocks
    {
      Sound(State())
    }

    /** `__init__`: an empty dictionary, the counter at 1, the genesis block "0" added and current, no loop. */
    constructor (prune: bool)
      ensures this.prune == prune && State() == Genesis() && Valid() && fresh(blocks)
    {
      this.prune := prune;
      blockIndex := 1;
      blocks := new AstCfg();
      current := 0;
      loopStack := [];
      new;
      AddBlock(0);
      GenesisInvariants();
    }

    /** `add_block`: an empty block under `index`, which becomes current. */
    method AddBlock(index: nat)
      modifies this, blocks
      ensures State() == WithBlock(old(State()), index)
    {
      if index !in blocks.entries {
        blocks.order := blocks.order + [index];
      }
      blocks.entries := blocks.entries[index := WBlock(index, [], [])];
      current := index;
    }

    /** An instruction appended to the current block. */
    method Append(i: Instr)
      requires Live(State())
      modifies blocks
      ensures State() == WithInstr(old(State()), i)
    {
      blocks.entries := blocks.entries[current := blocks.entries[current].(instructions := blocks.entries[current].instructions + [i])];
    }

    /** `set_jump_targets` on the current block. */
    method SetJumpTargets(targets: seq<nat>)
      requires Live(State())
      modifies blocks
      ensures State() == WithTargets(old(State()), targets)
    {
      blocks.entries := blocks.entries[current := blocks.entries[current].SetJumpTargets(targets)];
    }

    /** `seal`: inside the innermost loop when there is one, otherwise outside any loop. */
    method Seal(defaultIndex: nat)
      requires Live(State())
      modifies blocks
      ensures State() == WithSeal(old(State()), defaultIndex)
    {
      var b := blocks.entries[current];
      if loopStack != [] {
        var top := loopStack[|loopStack| - 1];
        b := b.SealInsideLoop(top.head, top.exit, defaultIndex);
      } else {
        b := b.SealOutsideLoop(defaultIndex);
      }
      blocks.entries := blocks.entries[current := b];
    }

    /** `codegen`: every statement of `tree` in turn; an exception stops the walk. */
    method Codegen(tree: seq<Stmt>) returns (r: Result<()>)
      requires Live(State())
      modifies this, blocks
      ensures r.Ok? ==> Lower(old(State()), tree) == Ok(State())
      ensures r.Err? ==> Lower(old(State()), tree) == Err(r.error)
      decreases tree, 3
    {
      for i := 0 to |tree|
        invariant Live(State()) && Lower(old(State()), tree) == Lower(State(), tree[i..])
      {
        assert tree[i..][0] == tree[i] && tree[i..][1..] == tree[i + 1..];
        r := HandleAstNode(tree[i]);
        if r.Err? {
          return;
        }
      }
      r := Ok(());
    }

    /** `handle_ast_node`: a simple statement is appended, a compound one goes to its handler. */
    method HandleAstNode(node: Stmt) returns (r: Result<()>)
      requires Live(State())
      modifies this, blocks
      ensures r.Ok? ==> LowerNode(old(State()), node) == Ok(State())
      ensures r.Err? ==> LowerNode(old(State()), node) == Err(r.error)
      decreases node, 2
    {
      match node
      case FunctionDef(_) => r := HandleFunctionDef(node);
      case If(_, _, _) => r := HandleIf(node);
      case While(_, _, _) => r := HandleWhile(node);
      case For(_, _, _, _) => r := HandleFor(node);
      case Unsupported(_) => r := Err(NotImplementedError);
      case _ =>
        Append(Node(node));
        r := Ok(());
    }

    /** `handle_function_def`: the body, then `return None` unless the body ends in a return. */
    method HandleFunctionDef(node: Stmt) returns (r: Result<()>)
      requires Live(State()) && node.FunctionDef?
      modifies this, blocks
      ensures r.Ok? ==> LowerFunctionDef(old(State()), node) == Ok(State())
      ensures r.Err? ==> LowerFunctionDef(old(State()), node) == Err(r.error)
      decreases node, 1
    {
      if node.body == [] {
        return Err(IndexError);
      }
      r := Codegen(node.body);
      if r.Ok? && !node.body[|node.body| - 1].Return? {
        Append(Node(Return(NoneConst)));
      }
    }

    /** `handle_if`. */
    method HandleIf(node: Stmt) returns (r: Result<()>)
      requires Live(State()) && node.If?
      modifies this, blocks
      ensures r.Ok? ==> LowerIf(old(State()), node) == Ok(State())
      ensures r.Err? ==> LowerIf(old(State()), node) == Err(r.error)
      decreases node, 1
    {
      ghost var s := State();
      var thenIndex, elseIndex, enifIndex := blockIndex, blockIndex + 1, blockIndex + 2;
      IfTestCode(node);
      AddBlock(thenIndex);
      r := Codegen(node.body);
      if r.Err? {
        return;
      }
      ghost var t := State();
      Seal(enifIndex);
      AddBlock(elseIndex);
      assert State() == IfOrelse(s, t);
      r := Codegen(node.orelse);
      if r.Err? {
        return;
      }
      Seal(enifIndex);
      AddBlock(enifIndex);
    }

    /** Three indices are taken; the test ends the current block, which jumps to the then and else blocks. */
    method IfTestCode(node: Stmt)
      requires Live(State()) && node.If?
      modifies this, blocks
      ensures State() == IfTest(old(State()), node)
    {
      ghost var s := State();
      var thenIndex, elseIndex := blockIndex, blockIndex + 1;
      blockIndex := blockIndex + 3;
      Append(Test(node.test));
      SetJumpTargets([thenIndex, elseIndex]);
      EmitOne(s.(blockIndex := s.blockIndex + 3), Test(node.test), [thenIndex, elseIndex]);
    }

    /** `handle_while`: an empty current block is reused as the header. */
    method HandleWhile(node: Stmt) returns (r: Result<()>)
      requires Live(State()) && node.While?
      modifies this, blocks
      ensures r.Ok? ==> LowerWhile(old(State()), node) == Ok(State())
      ensures r.Err? ==> LowerWhile(old(State()), node) == Err(r.error)
      decreases node, 1
    {
      ghost var s := State();
      var headIndex, bodyIndex, exitIndex := WhileHeaderCode();
      WhileTestCode(node, bodyIndex);
      AddBlock(bodyIndex);
      loopStack := loopStack + [LoopIndices(headIndex, exitIndex)];
      r := Codegen(node.body);
      if r.Err? {
        return;
      }
      Seal(headIndex);
      var loopIndices := loopStack[|loopStack| - 1];
      loopStack := loopStack[..|loopStack| - 1];
      assert loopIndices.head == headIndex && loopIndices.exit == exitIndex;
      AddBlock(exitIndex);
    }

    /** The header, body and exit indices of `handle_while`, with the header block made current. */
    method WhileHeaderCode() returns (headIndex: nat, bodyIndex: nat, exitIndex: nat)
      requires Live(State())
      modifies this, blocks
      ensures State() == WhileHeader(old(State()))
      ensures LoopIndices(headIndex, exitIndex) == WhileIndices(old(State())) && bodyIndex + 1 == exitIndex
    {
      if blocks.entries[current].instructions != [] {
        headIndex, bodyIndex, exitIndex := blockIndex, blockIndex + 1, blockIndex + 2;
        blockIndex := blockIndex + 3;
        SetJumpTargets([headIndex]);
        AddBlock(headIndex);
      } else {
        headIndex, bodyIndex, exitIndex := blocks.entries[current].name, blockIndex, blockIndex + 1;
        blockIndex := blockIndex + 2;
      }
    }

    /** The test ends the header, which jumps to the body block `bodyIndex` or the exit block after it. */
    method WhileTestCode(node: Stmt, bodyIndex: nat)
      requires Live(State()) && node.While?
      modifies blocks
      ensures State() == WhileTest(old(State()), node, bodyIndex)
    {
      ghost var h := State();
      Append(Test(node.test));
      SetJumpTargets([bodyIndex, bodyIndex + 1]);
      EmitOne(h, Test(node.test), [bodyIndex, bodyIndex + 1]);
    }

    /**
     * `handle_for`, with the block the `else` clause ends in sealed towards
     * the exit, as `LowerFor` states.
     */
    method HandleFor(node: Stmt) returns (r: Result<()>)
      requires Live(State()) && node.For?
      modifies this, blocks
      ensures r.Ok? ==> LowerFor(old(State()), node) == Ok(State())
      ensures r.Err? ==> LowerFor(old(State()), node) == Err(r.error)
      decreases node, 1
    {
      ghost var s := State();
      var headIndex, exitIndex := blockIndex, blockIndex + 3;
      ForHeader(node);
      r := Codegen(node.body);
      if r.Err? {
        return;
      }
      ForLatch(node, headIndex, s);
      r := Codegen(node.orelse);
      if r.Err? {
        return;
      }
      Seal(exitIndex);
      AddBlock(exitIndex);
    }

    /**
     * `handle_for` up to its body. The generated lines of code are simple
     * statements, which `handle_ast_node` appends to the current block.
     */
    method ForHeader(node: Stmt)
      requires Live(State()) && node.For?
      modifies this, blocks
      ensures State() == ForHead(old(State()), node)
    {
      ghost var s := State();
      var headIndex, bodyIndex, exitIndex := blockIndex, blockIndex + 1, blockIndex + 3;
      ForPreheader(node);
      AddBlock(headIndex);
      ForAdvanceCode(node, bodyIndex);
      AddBlock(bodyIndex);
      loopStack := loopStack + [LoopIndices(headIndex, exitIndex)];
    }

    /** Four indices are taken; the iterator is set up in the current block, which jumps to the header. */
    method ForPreheader(node: Stmt)
      requires Live(State()) && node.For?
      modifies this, blocks
      ensures State() == ForEntry(old(State()), node)
    {
      ghost var s := State();
      var headIndex := blockIndex;
      blockIndex := blockIndex + 4;
      Append(ForInstr(IterInit, node));
      Append(ForInstr(TargetInit, node));
      SetJumpTargets([headIndex]);
      EmitTwo(s.(blockIndex := s.blockIndex + 4), ForInstr(IterInit, node), ForInstr(TargetInit, node), [headIndex]);
    }

    /** The header advances the iterator and jumps to the body block `bodyIndex` or the else block after it. */
    method ForAdvanceCode(node: Stmt, bodyIndex: nat)
      requires Live(State()) && node.For?
      modifies blocks
      ensures State() == ForAdvance(old(State()), node, bodyIndex)
    {
      ghost var h := State();
      Append(ForInstr(SaveLast, node));
      Append(ForInstr(Advance, node));
      Append(ForInstr(NotSentinel, node));
      SetJumpTargets([bodyIndex, bodyIndex + 1]);
      EmitThree(h, ForInstr(SaveLast, node), ForInstr(Advance, node), ForInstr(NotSentinel, node), [bodyIndex, bodyIndex + 1]);
    }

    /** `handle_for` after its body, from the state `s` the handler started in with the header `headIndex`, up to the `else` clause. */
    method ForLatch(node: Stmt, headIndex: nat, ghost s: Lowering)
      requires node.For? && Live(State()) && headIndex == s.blockIndex
      requires loopStack == s.loopStack + [LoopIndices(s.blockIndex, s.blockIndex + 3)]
      modifies this, blocks
      ensures State() == ForOrelse(s, node, old(State()))
    {
      var elseIndex, exitIndex := headIndex + 2, headIndex + 3;
      Seal(headIndex);
      var loopIndices := loopStack[|loopStack| - 1];
      loopStack := loopStack[..|loopStack| - 1];
      assert loopIndices.head == headIndex && loopIndices.exit == exitIndex;
      AddBlock(elseIndex);
      SetJumpTargets([exitIndex]);
      Append(ForInstr(RestoreLast, node));
    }

    /**
     * `transform` on the parsed module body `tree`: its first statement must
     * be a function definition; the body is lowered and, when `prune` is set,
     * the unreachable and then the empty blocks are removed.
     */
    method Transform(tree: seq<Stmt>) returns (r: Result<()>)
      requires Valid()
      modifies this, blocks
      ensures r.Ok? <==> Transformed(old(State()), tree, prune).Ok?
      ensures r.Ok? ==> Transformed(old(State()), tree, prune).value.entries == blocks.entries
      ensures r.Ok? ==> Transformed(old(State()), tree, prune).value.order == blocks.order
      ensures r.Err? ==> Transformed(old(State()), tree, prune) == Err(r.error)
    {
      if tree == [] {
        return Err(IndexError);
      }
      if !tree[0].FunctionDef? {
        return Err(AssertionError);
      }
      LowerSound(State(), tree);
      r := Codegen(tree);
      if r.Err? || !prune {
        return;
      }
      CountedWellFormed(blocks.entries, blocks.order);
      var unreachable := blocks.PruneUnreachable();
      if unreachable.Err? {
        return Err(unreachable.error);
      }
      var empty := blocks.PruneEmpty();
      if empty.Err? {
        return Err(empty.error);
      }
    }
  }
}
