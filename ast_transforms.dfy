/**
 * The lowering of a Python function's statement tree to numbered blocks
 * (`AST2SCFGTransformer`). The lowering keeps a monotone block index counter,
 * the blocks in insertion order, the index of the block it is writing into
 * and a stack of the enclosing loops' head and exit indices. A statement
 * goes into the current block; a branch or loop ends the current block with
 * jump targets to blocks it preallocates, and "seals" each block it leaves
 * by the rules of `WritableASTBlock`.
 *
 * The functions below are the specification: the state after lowering a
 * statement list. The class `Transformer` of module `AstTransformer` performs
 * the same steps on its fields.
 */
module AstTransforms {
  import opened PyAst
  import opened AstBlocks

  /** `LoopIndices`: the head and exit block indices of an enclosing loop. */
  datatype LoopIndices = LoopIndices(head: nat, exit: nat)

  /** The transformer's state: counter, blocks with their key order, current block and loop stack. */
  datatype Lowering = Lowering(blockIndex: nat, blocks: map<nat, WBlock>, order: seq<nat>, current: nat,
                               loopStack: seq<LoopIndices>)

  /** The current block is in the dictionary, as `add_block` always leaves it. */
  predicate Live(s: Lowering) {
    s.current in s.blocks
  }

  /** The state `__init__` sets up: genesis block 0, current, and the counter at 1. */
  function Genesis(): Lowering {
    Lowering(1, map[0 := WBlock(0, [], [])], [0], 0, [])
  }

  function Current(s: Lowering): WBlock
    requires Live(s)
  {
    s.blocks[s.current]
  }

  /** An instruction appended to the current block. */
  function WithInstr(s: Lowering, i: Instr): (t: Lowering)
    requires Live(s)
    ensures Live(t) && Current(t).instructions == Current(s).instructions + [i]
  {
    s.(blocks := s.blocks[s.current := Current(s).(instructions := Current(s).instructions + [i])])
  }

  /** `set_jump_targets` on the current block. */
  function WithTargets(s: Lowering, targets: seq<nat>): (t: Lowering)
    requires Live(s)
    ensures Live(t) && Current(t).jumpTargets == targets
  {
    s.(blocks := s.blocks[s.current := Current(s).SetJumpTargets(targets)])
  }

  /** The current block gets `code` appended and then jumps to `targets`: how a handler ends a block. */
  function Emit(s: Lowering, code: seq<Instr>, targets: seq<nat>): (t: Lowering)
    requires Live(s)
    ensures Live(t) && Current(t) == WBlock(Current(s).name, Current(s).instructions + code, targets)
  {
    s.(blocks := s.blocks[s.current := WBlock(Current(s).name, Current(s).instructions + code, targets)])
  }

  /** `add_block`: an empty block stored under `index` becomes current; a new key goes last in the order. */
  function WithBlock(s: Lowering, index: nat): (t: Lowering)
    ensures Live(t) && t.current == index && Current(t) == WBlock(index, [], [])
  {
    s.(blocks := s.blocks[index := WBlock(index, [], [])],
       order := if index in s.blocks then s.order else s.order + [index],
       current := index)
  }

  /** `seal`: the current block is sealed inside the innermost loop, or outside any loop when the stack is empty. */
  function WithSeal(s: Lowering, defaultIndex: nat): (t: Lowering)
    requires Live(s)
    ensures Live(t) && Current(t).Sealed()
    ensures s.loopStack == [] ==> Current(t) == Current(s).SealOutsideLoop(defaultIndex)
    ensures s.loopStack != [] ==> Current(t) == Current(s).SealInsideLoop(Top(s).head, Top(s).exit, defaultIndex)
  {
    s.(blocks := s.blocks[s.current := if s.loopStack == [] then Current(s).SealOutsideLoop(defaultIndex)
                                       else Current(s).SealInsideLoop(Top(s).head, Top(s).exit, defaultIndex)])
  }

  /** The innermost enclosing loop. */
  function Top(s: Lowering): LoopIndices
    requires s.loopStack != []
  {
    s.loopStack[|s.loopStack| - 1]
  }

  /** `loop_stack.pop()`: the innermost loop is dropped. */
  function Popped(s: Lowering): (t: Lowering)
    requires s.loopStack != []
    ensures t.loopStack == s.loopStack[..|s.loopStack| - 1]
  {
    s.(loopStack := s.loopStack[..|s.loopStack| - 1])
  }

  /** A line of the code the lowering of `for` generates, as the statement it parses to. */
  function ForInstr(line: ForLine, node: Stmt): Instr
    requires node.For?
  {
    var code := ForCode(line, node.target, node.iter);
    if line == NotSentinel then Node(ExprStmt(code)) else Node(Assign(code))
  }

  /** `codegen`: the statements of `tree` lowered one after the other; the first exception stops it. */
  function Lower(s: Lowering, tree: seq<Stmt>): (r: Result<Lowering>)
    requires Live(s)
    ensures r.Ok? ==> Live(r.value) && r.value.loopStack == s.loopStack
    ensures r.Ok? && tree != [] && IsSimple(tree[|tree| - 1]) ==>
      Current(r.value).instructions != [] &&
      Current(r.value).instructions[|Current(r.value).instructions| - 1] == Node(tree[|tree| - 1])
    decreases tree, 3
  {
    if tree == [] then Ok(s)
    else match LowerNode(s, tree[0])
      case Err(e) => Err(e)
      case Ok(t) => Lower(t, tree[1..])
  }

  /**
   * `handle_ast_node`: a simple statement is appended to the current block,
   * a compound one goes to its handler, and anything else raises
   * `NotImplementedError`.
   */
  function LowerNode(s: Lowering, node: Stmt): (r: Result<Lowering>)
    requires Live(s)
    ensures r.Ok? ==> Live(r.value) && r.value.loopStack == s.loopStack
    decreases node, 2
  {
    match node
    case FunctionDef(_) => LowerFunctionDef(s, node)
    case If(_, _, _) => LowerIf(s, node)
    case While(_, _, _) => LowerWhile(s, node)
    case For(_, _, _, _) => LowerFor(s, node)
    case Unsupported(_) => Err(NotImplementedError)
    case _ => Ok(WithInstr(s, Node(node)))
  }

  /**
   * `handle_function_def`: the body is lowered in the current block and a
   * `return None` is appended unless the body already ends in a return, so the
   * function's last block always returns. An empty body raises `IndexError`.
   */
  function LowerFunctionDef(s: Lowering, node: Stmt): (r: Result<Lowering>)
    requires Live(s) && node.FunctionDef?
    ensures r.Ok? ==> Live(r.value) && r.value.loopStack == s.loopStack && Current(r.value).IsReturn()
    ensures node.body == [] ==> r == Err(IndexError)
    decreases node, 1
  {
    if node.body == [] then Err(IndexError)
    else match Lower(s, node.body)
      case Err(e) => Err(e)
      case Ok(t) => if node.body[|node.body| - 1].Return? then Ok(t) else Ok(WithInstr(t, Node(Return(NoneConst))))
  }

  /** `handle_if` up to its then branch: the then block is current. */
  function IfHead(s: Lowering, node: Stmt): (t: Lowering)
    requires Live(s) && node.If?
    ensures Live(t) && t.loopStack == s.loopStack
  {
    WithBlock(IfTest(s, node), s.blockIndex)
  }

  /** Three indices are preallocated, and the test ends the current block, which jumps to the then and else blocks. */
  function IfTest(s: Lowering, node: Stmt): (t: Lowering)
    requires Live(s) && node.If?
    ensures Live(t) && t.loopStack == s.loopStack
  {
    Emit(s.(blockIndex := s.blockIndex + 3), [Test(node.test)], [s.blockIndex, s.blockIndex + 1])
  }

  /**
   * `handle_if`: three indices are preallocated for the then, else and
   * end-if blocks; the test ends the current block, which jumps to the then
   * and else blocks; each arm is lowered in its block and sealed towards the
   * end-if block, which becomes current.
   */
  function LowerIf(s: Lowering, node: Stmt): (r: Result<Lowering>)
    requires Live(s) && node.If?
    ensures r.Ok? ==> Live(r.value) && r.value.loopStack == s.loopStack
    decreases node, 1
  {
    IfElse(s, node, Lower(IfHead(s, node), node.body))
  }

  /** `handle_if` after the then branch `body`: it is sealed towards the end-if block and the else branch is lowered. */
  function IfElse(s: Lowering, node: Stmt, body: Result<Lowering>): (r: Result<Lowering>)
    requires Live(s) && node.If? && (body.Ok? ==> Live(body.value) && body.value.loopStack == s.loopStack)
    ensures r.Ok? ==> Live(r.value) && r.value.loopStack == s.loopStack
    decreases node, 0
  {
    match body
    case Err(e) => Err(e)
    case Ok(t) => Close(Lower(IfOrelse(s, t), node.orelse), s.blockIndex + 2)
  }

  /** The then branch ends sealed towards the end-if block, and the else block becomes current. */
  function IfOrelse(s: Lowering, t: Lowering): (u: Lowering)
    requires Live(t)
    ensures Live(u) && u.loopStack == t.loopStack
  {
    WithBlock(WithSeal(t, s.blockIndex + 2), s.blockIndex + 1)
  }

  /**
   * The end of `handle_if`, and of `handle_for` with the correction below:
   * the block the last arm ends in is sealed towards `index`, which becomes current.
   */
  function Close(arm: Result<Lowering>, index: nat): (r: Result<Lowering>)
    requires arm.Ok? ==> Live(arm.value)
    ensures r.Ok? ==> arm.Ok? && Live(r.value) && r.value.loopStack == arm.value.loopStack
  {
    match arm
    case Err(e) => Err(e)
    case Ok(t) => Ok(WithBlock(WithSeal(t, index), index))
  }

  /**
   * The loop `handle_while` opens: an empty current block is reused as the
   * header, with the next two indices for body and exit; otherwise the next
   * three indices are header, body and exit.
   */
  function WhileIndices(s: Lowering): LoopIndices
    requires Live(s)
  {
    if Current(s).instructions == [] then LoopIndices(Current(s).name, s.blockIndex + 1)
    else LoopIndices(s.blockIndex, s.blockIndex + 2)
  }

  /**
   * `handle_while` up to its body: the indices are preallocated; unless it
   * is reused, the current block jumps to a new header block; the header
   * holds the test and jumps to body and exit; the body block is current and
   * the loop is pushed.
   */
  function WhileHead(s: Lowering, node: Stmt): (t: Lowering)
    requires Live(s) && node.While?
    ensures Live(t) && t.loopStack == s.loopStack + [WhileIndices(s)]
  {
    WithBlock(WhileTest(WhileHeader(s), node, WhileIndices(s).exit - 1), WhileIndices(s).exit - 1)
      .(loopStack := s.loopStack + [WhileIndices(s)])
  }

  /** The header block of `handle_while`: the empty current block itself, or a new block the current one jumps to. */
  function WhileHeader(s: Lowering): (t: Lowering)
    requires Live(s)
    ensures Live(t) && t.loopStack == s.loopStack
  {
    if Current(s).instructions == [] then s.(blockIndex := s.blockIndex + 2)
    else WithBlock(WithTargets(s.(blockIndex := s.blockIndex + 3), [s.blockIndex]), s.blockIndex)
  }

  /** The test ends the header, which jumps to the body block or to the exit block after it. */
  function WhileTest(header: Lowering, node: Stmt, body: nat): (t: Lowering)
    requires Live(header) && node.While?
    ensures Live(t) && t.loopStack == header.loopStack
  {
    Emit(header, [Test(node.test)], [body, body + 1])
  }

  /**
   * `handle_while`: the body is lowered with the loop on the stack and
   * sealed towards the header; the loop is popped and the exit block becomes
   * current. The `else` clause of the loop is not lowered.
   */
  function LowerWhile(s: Lowering, node: Stmt): (r: Result<Lowering>)
    requires Live(s) && node.While?
    ensures r.Ok? ==> Live(r.value) && r.value.loopStack == s.loopStack
    decreases node, 1
  {
    WhileEnd(s, Lower(WhileHead(s, node), node.body))
  }

  /** `handle_while` after the body: the pop returns the loop this handler pushed. */
  function WhileEnd(s: Lowering, body: Result<Lowering>): (r: Result<Lowering>)
    requires Live(s) && (body.Ok? ==> Live(body.value) && body.value.loopStack == s.loopStack + [WhileIndices(s)])
    ensures r.Ok? ==> Live(r.value) && r.value.loopStack == s.loopStack
  {
    match body
    case Err(e) => Err(e)
    case Ok(t) =>
      assert Top(WithSeal(t, WhileIndices(s).head)) == WhileIndices(s);
      Ok(WithBlock(Popped(WithSeal(t, WhileIndices(s).head)), WhileIndices(s).exit))
  }

  /**
   * `handle_for` up to its body: four indices are preallocated (header,
   * body, else, exit); the pre-header code goes into the current block,
   * which jumps to the header; the header advances the iterator and jumps to
   * body and else; the body block is current and the loop (header, exit) is
   * pushed, so a `break` in the body leaves to the exit, not to the else block.
   */
  function ForHead(s: Lowering, node: Stmt): (t: Lowering)
    requires Live(s) && node.For?
    ensures Live(t) && t.loopStack == s.loopStack + [LoopIndices(s.blockIndex, s.blockIndex + 3)]
  {
    WithBlock(ForAdvance(WithBlock(ForEntry(s, node), s.blockIndex), node, s.blockIndex + 1), s.blockIndex + 1)
      .(loopStack := s.loopStack + [LoopIndices(s.blockIndex, s.blockIndex + 3)])
  }

  /** The pre-header of `handle_for`: four indices are taken, the iterator is set up and the block jumps to the header. */
  function ForEntry(s: Lowering, node: Stmt): (t: Lowering)
    requires Live(s) && node.For?
    ensures Live(t) && t.loopStack == s.loopStack
  {
    Emit(s.(blockIndex := s.blockIndex + 4), [ForInstr(IterInit, node), ForInstr(TargetInit, node)], [s.blockIndex])
  }

  /** The header of `handle_for`: it advances the iterator and jumps to the body block or, once exhausted, the block after it. */
  function ForAdvance(header: Lowering, node: Stmt, body: nat): (t: Lowering)
    requires Live(header) && node.For?
    ensures Live(t) && t.loopStack == header.loopStack
  {
    Emit(header, [ForInstr(SaveLast, node), ForInstr(Advance, node), ForInstr(NotSentinel, node)], [body, body + 1])
  }

  /**
   * `handle_for` after the body: the else block, with the `else` clause
   * lowered into it, and then the exit block, which becomes current after the
   * block the `else` clause ends in is sealed towards it.
   */
  function ForElse(s: Lowering, node: Stmt, body: Result<Lowering>): (r: Result<Lowering>)
    requires Live(s) && node.For?
    requires body.Ok? ==> Live(body.value) && body.value.loopStack == s.loopStack + [LoopIndices(s.blockIndex, s.blockIndex + 3)]
    ensures r.Ok? ==> Live(r.value) && r.value.loopStack == s.loopStack
    decreases node, 0
  {
    match body
    case Err(e) => Err(e)
    case Ok(t) => Close(Lower(ForOrelse(s, node, t), node.orelse), s.blockIndex + 3)
  }

  /**
   * The body ends sealed towards the header and the loop is popped (the
   * pop returns the loop this handler pushed); the else block becomes
   * current, jumps to the exit and restores the loop target from its last value.
   */
  function ForOrelse(s: Lowering, node: Stmt, t: Lowering): (u: Lowering)
    requires node.For? && Live(t) && t.loopStack == s.loopStack + [LoopIndices(s.blockIndex, s.blockIndex + 3)]
    ensures Live(u) && u.loopStack == s.loopStack
  {
    assert Top(WithSeal(t, s.blockIndex)) == LoopIndices(s.blockIndex, s.blockIndex + 3);
    Emit(WithBlock(Popped(WithSeal(t, s.blockIndex)), s.blockIndex + 2), [ForInstr(RestoreLast, node)], [s.blockIndex + 3])
  }

  /**
   * `handle_for`, with the block the `else` clause ends in sealed towards
   * the exit before the exit block becomes current, as the other handlers
   * seal every block they leave.
   */
  function LowerFor(s: Lowering, node: Stmt): (r: Result<Lowering>)
    requires Live(s) && node.For?
    ensures r.Ok? ==> Live(r.value) && r.value.loopStack == s.loopStack
    decreases node, 1
  {
    ForElse(s, node, Lower(ForHead(s, node), node.body))
  }

  /** The outermost `for` as `handle_for` writes it: the exit block becomes current without the block the `else`
    * clause ends in being sealed. Its body and `else` clause go through `Lower`, so a nested `for` is the corrected one. */
  function LowerForAsWritten(s: Lowering, node: Stmt): (r: Result<Lowering>)
    requires Live(s) && node.For?
    ensures r.Ok? ==> Live(r.value) && r.value.loopStack == s.loopStack
  {
    match Lower(ForHead(s, node), node.body)
    case Err(e) => Err(e)
    case Ok(t) =>
      match Lower(ForOrelse(s, node, t), node.orelse)
      case Err(e) => Err(e)
      case Ok(u) => Ok(WithBlock(u, s.blockIndex + 3))
  }

  // ---------------------------------------------------------------------------------------------
  // The dictionary stays well formed: every block sits under its own name, once in the order.

  ghost predicate Sound(s: Lowering) {
    Live(s) && Counted(s.blocks, s.order, |s.order|)
  }

  /** A lowering that succeeds leaves the dictionary well formed. */
  ghost predicate Keeps(r: Result<Lowering>) {
    r.Ok? ==> Sound(r.value)
  }

  /** Rewriting the current block under its own name. */
  lemma EditSound(s: Lowering, b: WBlock)
    requires Sound(s) && b.name == Current(s).name
    ensures Sound(s.(blocks := s.blocks[s.current := b]))
  {
    CountedName(s.blocks, s.order, |s.order|, s.current);
    CountedUpdate(s.blocks, s.order, |s.order|, s.current, b);
  }

  lemma InstrSound(s: Lowering, i: Instr)
    requires Sound(s)
    ensures Sound(WithInstr(s, i))
  {
    EditSound(s, Current(s).(instructions := Current(s).instructions + [i]));
  }

  lemma EmitSound(s: Lowering, code: seq<Instr>, targets: seq<nat>)
    requires Sound(s)
    ensures Sound(Emit(s, code, targets))
  {
    EditSound(s, Current(Emit(s, code, targets)));
  }

  lemma TargetsSound(s: Lowering, targets: seq<nat>)
    requires Sound(s)
    ensures Sound(WithTargets(s, targets))
  {
    EditSound(s, Current(s).SetJumpTargets(targets));
  }

  lemma SealSound(s: Lowering, d: nat)
    requires Sound(s)
    ensures Sound(WithSeal(s, d))
  {
    EditSound(s, Current(WithSeal(s, d)));
  }

  /** `add_block` keeps the dictionary well formed whether the index is new or not. */
  lemma BlockSound(s: Lowering, i: nat)
    requires Counted(s.blocks, s.order, |s.order|)
    ensures Sound(WithBlock(s, i))
  {
    if i in s.blocks {
      CountedUpdate(s.blocks, s.order, |s.order|, i, WBlock(i, [], []));
    } else {
      CountedAdd(s.blocks, s.order, i, WBlock(i, [], []));
    }
  }

  lemma {:induction false} LowerSound(s: Lowering, tree: seq<Stmt>)
    requires Sound(s)
    ensures Keeps(Lower(s, tree))
    decreases tree, 3
  {
    if tree != [] {
      LowerNodeSound(s, tree[0]);
      if LowerNode(s, tree[0]).Ok? {
        LowerSound(LowerNode(s, tree[0]).value, tree[1..]);
      }
    }
  }

  lemma {:induction false} LowerNodeSound(s: Lowering, node: Stmt)
    requires Sound(s)
    ensures Keeps(LowerNode(s, node))
    decreases node, 2
  {
    if IsSimple(node) {
      InstrSound(s, Node(node));
    } else {
      match node
      case FunctionDef(_) => LowerFunctionDefSound(s, node);
      case If(_, _, _) => LowerIfSound(s, node);
      case While(_, _, _) => LowerWhileSound(s, node);
      case For(_, _, _, _) => LowerForSound(s, node);
      case _ =>
    }
  }

  lemma {:induction false} LowerFunctionDefSound(s: Lowering, node: Stmt)
    requires Sound(s) && node.FunctionDef?
    ensures Keeps(LowerFunctionDef(s, node))
    decreases node, 1
  {
    if node.body != [] {
      LowerSound(s, node.body);
      if Lower(s, node.body).Ok? {
        InstrSound(Lower(s, node.body).value, Node(Return(NoneConst)));
      }
    }
  }

  lemma IfHeadSound(s: Lowering, node: Stmt)
    requires Sound(s) && node.If?
    ensures Sound(IfHead(s, node))
  {
    EmitSound(s.(blockIndex := s.blockIndex + 3), [Test(node.test)], [s.blockIndex, s.blockIndex + 1]);
    BlockSound(IfTest(s, node), s.blockIndex);
  }

  lemma {:induction false} LowerIfSound(s: Lowering, node: Stmt)
    requires Sound(s) && node.If?
    ensures Keeps(LowerIf(s, node))
    decreases node, 1
  {
    IfHeadSound(s, node);
    LowerSound(IfHead(s, node), node.body);
    IfElseSound(s, node, Lower(IfHead(s, node), node.body));
  }

  lemma {:induction false} IfElseSound(s: Lowering, node: Stmt, body: Result<Lowering>)
    requires Live(s) && node.If? && (body.Ok? ==> Sound(body.value) && body.value.loopStack == s.loopStack)
    ensures Keeps(IfElse(s, node, body))
    decreases node, 0
  {
    if body.Ok? {
      IfOrelseSound(s, body.value);
      LowerSound(IfOrelse(s, body.value), node.orelse);
      CloseSound(Lower(IfOrelse(s, body.value), node.orelse), s.blockIndex + 2);
      IfElseOk(s, node, body.value);
    }
  }

  lemma IfOrelseSound(s: Lowering, t: Lowering)
    requires Sound(t)
    ensures Sound(IfOrelse(s, t))
  {
    SealSound(t, s.blockIndex + 2);
    BlockSound(WithSeal(t, s.blockIndex + 2), s.blockIndex + 1);
  }

  lemma CloseSound(arm: Result<Lowering>, index: nat)
    requires arm.Ok? ==> Sound(arm.value)
    ensures Keeps(Close(arm, index))
  {
    if arm.Ok? {
      SealSound(arm.value, index);
      BlockSound(WithSeal(arm.value, index), index);
    }
  }

  lemma WhileHeadSound(s: Lowering, node: Stmt)
    requires Sound(s) && node.While?
    ensures Sound(WhileHead(s, node))
  {
    if Current(s).instructions != [] {
      TargetsSound(s.(blockIndex := s.blockIndex + 3), [s.blockIndex]);
      BlockSound(WithTargets(s.(blockIndex := s.blockIndex + 3), [s.blockIndex]), s.blockIndex);
    }
    var header := WhileHeader(s);
    var body := WhileIndices(s).exit - 1;
    EmitSound(header, [Test(node.test)], [body, body + 1]);
    BlockSound(WhileTest(header, node, body), body);
  }

  lemma {:induction false} LowerWhileSound(s: Lowering, node: Stmt)
    requires Sound(s) && node.While?
    ensures Keeps(LowerWhile(s, node))
    decreases node, 1
  {
    WhileHeadSound(s, node);
    LowerSound(WhileHead(s, node), node.body);
    WhileEndSound(s, Lower(WhileHead(s, node), node.body));
  }

  lemma WhileEndSound(s: Lowering, body: Result<Lowering>)
    requires Live(s) && (body.Ok? ==> Sound(body.value) && body.value.loopStack == s.loopStack + [WhileIndices(s)])
    ensures Keeps(WhileEnd(s, body))
  {
    if body.Ok? {
      SealSound(body.value, WhileIndices(s).head);
      BlockSound(Popped(WithSeal(body.value, WhileIndices(s).head)), WhileIndices(s).exit);
    }
  }

  lemma ForHeadSound(s: Lowering, node: Stmt)
    requires Sound(s) && node.For?
    ensures Sound(ForHead(s, node))
  {
    EmitSound(s.(blockIndex := s.blockIndex + 4), [ForInstr(IterInit, node), ForInstr(TargetInit, node)], [s.blockIndex]);
    BlockSound(ForEntry(s, node), s.blockIndex);
    var header := WithBlock(ForEntry(s, node), s.blockIndex);
    EmitSound(header, [ForInstr(SaveLast, node), ForInstr(Advance, node), ForInstr(NotSentinel, node)], [s.blockIndex + 1, s.blockIndex + 2]);
    BlockSound(ForAdvance(header, node, s.blockIndex + 1), s.blockIndex + 1);
  }

  lemma {:induction false} LowerForSound(s: Lowering, node: Stmt)
    requires Sound(s) && node.For?
    ensures Keeps(LowerFor(s, node))
    decreases node, 1
  {
    ForHeadSound(s, node);
    LowerSound(ForHead(s, node), node.body);
    ForElseSound(s, node, Lower(ForHead(s, node), node.body));
  }

  lemma {:induction false} ForElseSound(s: Lowering, node: Stmt, body: Result<Lowering>)
    requires Live(s) && node.For?
    requires body.Ok? ==> Sound(body.value) && body.value.loopStack == s.loopStack + [LoopIndices(s.blockIndex, s.blockIndex + 3)]
    ensures Keeps(ForElse(s, node, body))
    decreases node, 0
  {
    if body.Ok? {
      ForOrelseSound(s, node, body.value);
      LowerSound(ForOrelse(s, node, body.value), node.orelse);
      CloseSound(Lower(ForOrelse(s, node, body.value), node.orelse), s.blockIndex + 3);
      ForElseOk(s, node, body.value);
    }
  }

  lemma ForOrelseSound(s: Lowering, node: Stmt, t: Lowering)
    requires node.For? && Sound(t) && t.loopStack == s.loopStack + [LoopIndices(s.blockIndex, s.blockIndex + 3)]
    ensures Sound(ForOrelse(s, node, t))
  {
    var b := s.blockIndex;
    SealSound(t, b);
    var latched := Popped(WithSeal(t, b));
    BlockSound(latched, b + 2);
    EmitSound(WithBlock(latched, b + 2), [ForInstr(RestoreLast, node)], [b + 3]);
  }


  // ---------------------------------------------------------------------------------------------
  // Fresh indices: the counter never goes back, a block is only ever added under an index that is
  // not yet a key, and a block the lowering has left is never rewritten.

  /** Every key is an index the counter has already handed out. */
  ghost predicate Bounded(s: Lowering) {
    Live(s) && forall k | k in s.blocks :: k < s.blockIndex
  }

  /**
   * `t` comes from `s` by lowering: the counter has not gone back; the keys
   * `t` added lie between `floor` and `t`'s counter; the blocks `s` had left
   * behind are untouched; and the current block is `s`'s or a new one.
   */
  ghost predicate Extends(s: Lowering, t: Lowering, floor: nat) {
    s.blockIndex <= t.blockIndex && s.current in t.blocks &&
    (t.current == s.current || t.current !in s.blocks) &&
    (forall k | k in t.blocks && k !in s.blocks :: floor <= k < t.blockIndex) &&
    (forall k | k in s.blocks && k != s.current :: k in t.blocks && t.blocks[k] == s.blocks[k])
  }

  /** A lowering that succeeds only adds keys the counter handed out after `s`. */
  ghost predicate Grows(s: Lowering, r: Result<Lowering>) {
    r.Ok? ==> Bounded(r.value) && Extends(s, r.value, s.blockIndex)
  }

  lemma ExtendsTrans(s: Lowering, t: Lowering, u: Lowering, f: nat, g: nat)
    requires Extends(s, t, f) && Extends(t, u, g) && f <= g
    ensures Extends(s, u, f)
  {
  }

  /** An index below the floor that was not a key is still not one. */
  lemma StillUnused(s: Lowering, t: Lowering, f: nat, k: nat)
    requires Extends(s, t, f) && k !in s.blocks && k < f
    ensures k !in t.blocks
  {
  }

  lemma {:induction false} LowerGrows(s: Lowering, tree: seq<Stmt>)
    requires Bounded(s)
    ensures Grows(s, Lower(s, tree))
    decreases tree, 3
  {
    if tree != [] {
      LowerNodeGrows(s, tree[0]);
      if LowerNode(s, tree[0]).Ok? {
        var t := LowerNode(s, tree[0]).value;
        LowerGrows(t, tree[1..]);
        if Lower(t, tree[1..]).Ok? {
          ExtendsTrans(s, t, Lower(t, tree[1..]).value, s.blockIndex, t.blockIndex);
        }
      }
    }
  }

  lemma {:induction false} LowerNodeGrows(s: Lowering, node: Stmt)
    requires Bounded(s)
    ensures Grows(s, LowerNode(s, node))
    decreases node, 2
  {
    match node
    case FunctionDef(_) => LowerFunctionDefGrows(s, node);
    case If(_, _, _) => LowerIfGrows(s, node);
    case While(_, _, _) => LowerWhileGrows(s, node);
    case For(_, _, _, _) => LowerForGrows(s, node);
    case _ =>
  }

  lemma {:induction false} LowerFunctionDefGrows(s: Lowering, node: Stmt)
    requires Bounded(s) && node.FunctionDef?
    ensures Grows(s, LowerFunctionDef(s, node))
    decreases node, 1
  {
    if node.body != [] {
      LowerGrows(s, node.body);
    }
  }

  lemma IfHeadGrows(s: Lowering, node: Stmt)
    requires Bounded(s) && node.If?
    ensures Bounded(IfHead(s, node)) && Extends(s, IfHead(s, node), s.blockIndex)
    ensures s.blockIndex + 1 !in IfHead(s, node).blocks && s.blockIndex + 2 !in IfHead(s, node).blocks
    ensures IfHead(s, node).blockIndex == s.blockIndex + 3
  {
  }

  lemma {:induction false} LowerIfGrows(s: Lowering, node: Stmt)
    requires Bounded(s) && node.If?
    ensures Grows(s, LowerIf(s, node))
    decreases node, 1
  {
    var h := IfHead(s, node);
    IfHeadGrows(s, node);
    LowerGrows(h, node.body);
    if Lower(h, node.body).Ok? {
      var t := Lower(h, node.body).value;
      ExtendsTrans(s, h, t, s.blockIndex, h.blockIndex);
      StillUnused(h, t, h.blockIndex, s.blockIndex + 1);
      StillUnused(h, t, h.blockIndex, s.blockIndex + 2);
    }
    IfElseGrows(s, node, Lower(h, node.body));
  }

  lemma {:induction false} IfElseGrows(s: Lowering, node: Stmt, body: Result<Lowering>)
    requires Live(s) && node.If? && (body.Ok? ==> Live(body.value) && body.value.loopStack == s.loopStack)
    requires body.Ok? ==> Bounded(body.value) && Extends(s, body.value, s.blockIndex) && s.blockIndex + 3 <= body.value.blockIndex
    requires body.Ok? ==> s.blockIndex + 1 !in body.value.blocks && s.blockIndex + 2 !in body.value.blocks
    ensures Grows(s, IfElse(s, node, body))
    decreases node, 0
  {
    if body.Ok? {
      IfOrelseGrows(s, body.value);
      ExtendsTrans(s, body.value, IfOrelse(s, body.value), s.blockIndex, s.blockIndex + 1);
      LowerGrows(IfOrelse(s, body.value), node.orelse);
      if Lower(IfOrelse(s, body.value), node.orelse).Ok? {
        ArmGrows(s, IfOrelse(s, body.value), Lower(IfOrelse(s, body.value), node.orelse).value, s.blockIndex + 2);
      }
      IfElseOk(s, node, body.value);
    }
  }

  lemma IfOrelseGrows(s: Lowering, t: Lowering)
    requires Bounded(t) && s.blockIndex + 3 <= t.blockIndex
    requires s.blockIndex + 1 !in t.blocks && s.blockIndex + 2 !in t.blocks
    ensures Bounded(IfOrelse(s, t)) && Extends(t, IfOrelse(s, t), s.blockIndex + 1)
    ensures IfOrelse(s, t).blockIndex == t.blockIndex && s.blockIndex + 2 !in IfOrelse(s, t).blocks
  {
  }

  /** An arm lowered from `o` and closed towards `index`, a fresh key below the counter, grows `s`. */
  lemma ArmGrows(s: Lowering, o: Lowering, arm: Lowering, index: nat)
    requires Bounded(o) && Extends(s, o, s.blockIndex) && s.blockIndex <= index < o.blockIndex && index !in o.blocks
    requires Bounded(arm) && Extends(o, arm, o.blockIndex)
    ensures Grows(s, Close(Ok(arm), index))
  {
    StillUnused(o, arm, o.blockIndex, index);
    ExtendsTrans(s, o, arm, s.blockIndex, o.blockIndex);
    CloseGrows(Ok(arm), index);
    ExtendsTrans(s, arm, Close(Ok(arm), index).value, s.blockIndex, index);
  }

  /** The index a block is closed towards is a new key. */
  lemma CloseGrows(arm: Result<Lowering>, index: nat)
    requires arm.Ok? ==> Bounded(arm.value) && index !in arm.value.blocks && index < arm.value.blockIndex
    ensures Close(arm, index).Ok? ==> Bounded(Close(arm, index).value) && Extends(arm.value, Close(arm, index).value, index)
  {
  }

  lemma WhileHeadGrows(s: Lowering, node: Stmt)
    requires Bounded(s) && node.While?
    ensures Bounded(WhileHead(s, node)) && Extends(s, WhileHead(s, node), s.blockIndex)
    ensures WhileIndices(s).exit !in WhileHead(s, node).blocks && WhileIndices(s).exit < WhileHead(s, node).blockIndex
  {
  }

  lemma {:induction false} LowerWhileGrows(s: Lowering, node: Stmt)
    requires Bounded(s) && node.While?
    ensures Grows(s, LowerWhile(s, node))
    decreases node, 1
  {
    var h := WhileHead(s, node);
    WhileHeadGrows(s, node);
    LowerGrows(h, node.body);
    if Lower(h, node.body).Ok? {
      var t := Lower(h, node.body).value;
      ExtendsTrans(s, h, t, s.blockIndex, h.blockIndex);
      StillUnused(h, t, h.blockIndex, WhileIndices(s).exit);
    }
    WhileEndGrows(s, Lower(h, node.body));
  }

  lemma WhileEndGrows(s: Lowering, body: Result<Lowering>)
    requires Live(s) && (body.Ok? ==> Live(body.value) && body.value.loopStack == s.loopStack + [WhileIndices(s)])
    requires body.Ok? ==> Bounded(body.value) && Extends(s, body.value, s.blockIndex)
    requires body.Ok? ==> WhileIndices(s).exit !in body.value.blocks && WhileIndices(s).exit < body.value.blockIndex
    ensures Grows(s, WhileEnd(s, body))
  {
    if body.Ok? {
      ExtendsTrans(s, body.value, WhileEnd(s, body).value, s.blockIndex, WhileIndices(s).exit);
    }
  }

  lemma ForHeadGrows(s: Lowering, node: Stmt)
    requires Bounded(s) && node.For?
    ensures Bounded(ForHead(s, node)) && Extends(s, ForHead(s, node), s.blockIndex)
    ensures s.blockIndex + 2 !in ForHead(s, node).blocks && s.blockIndex + 3 !in ForHead(s, node).blocks
    ensures ForHead(s, node).blockIndex == s.blockIndex + 4
  {
  }

  lemma {:induction false} LowerForGrows(s: Lowering, node: Stmt)
    requires Bounded(s) && node.For?
    ensures Grows(s, LowerFor(s, node))
    decreases node, 1
  {
    var h := ForHead(s, node);
    ForHeadGrows(s, node);
    LowerGrows(h, node.body);
    if Lower(h, node.body).Ok? {
      var t := Lower(h, node.body).value;
      ExtendsTrans(s, h, t, s.blockIndex, h.blockIndex);
      StillUnused(h, t, h.blockIndex, s.blockIndex + 2);
      StillUnused(h, t, h.blockIndex, s.blockIndex + 3);
    }
    ForElseGrows(s, node, Lower(h, node.body));
  }

  lemma {:induction false} ForElseGrows(s: Lowering, node: Stmt, body: Result<Lowering>)
    requires Live(s) && node.For?
    requires body.Ok? ==> Live(body.value) && body.value.loopStack == s.loopStack + [LoopIndices(s.blockIndex, s.blockIndex + 3)]
    requires body.Ok? ==> Bounded(body.value) && Extends(s, body.value, s.blockIndex) && s.blockIndex + 4 <= body.value.blockIndex
    requires body.Ok? ==> s.blockIndex + 2 !in body.value.blocks && s.blockIndex + 3 !in body.value.blocks
    ensures Grows(s, ForElse(s, node, body))
    decreases node, 0
  {
    if body.Ok? {
      ForOrelseGrows(s, node, body.value);
      ExtendsTrans(s, body.value, ForOrelse(s, node, body.value), s.blockIndex, s.blockIndex + 2);
      LowerGrows(ForOrelse(s, node, body.value), node.orelse);
      if Lower(ForOrelse(s, node, body.value), node.orelse).Ok? {
        ArmGrows(s, ForOrelse(s, node, body.value), Lower(ForOrelse(s, node, body.value), node.orelse).value, s.blockIndex + 3);
      }
      ForElseOk(s, node, body.value);
    }
  }

  lemma ForOrelseGrows(s: Lowering, node: Stmt, t: Lowering)
    requires node.For? && Live(t) && t.loopStack == s.loopStack + [LoopIndices(s.blockIndex, s.blockIndex + 3)]
    requires Bounded(t) && s.blockIndex + 4 <= t.blockIndex
    requires s.blockIndex + 2 !in t.blocks && s.blockIndex + 3 !in t.blocks
    ensures Bounded(ForOrelse(s, node, t)) && Extends(t, ForOrelse(s, node, t), s.blockIndex + 2)
    ensures ForOrelse(s, node, t).blockIndex == t.blockIndex && s.blockIndex + 3 !in ForOrelse(s, node, t).blocks
  {
  }


  // ---------------------------------------------------------------------------------------------
  // Every block the lowering leaves is sealed: it has a jump target or ends in a return.

  /** Every block but the current one is sealed. */
  ghost predicate Finished(s: Lowering) {
    Live(s) && forall k | k in s.blocks && k != s.current :: s.blocks[k].Sealed()
  }

  ghost predicate Finishes(r: Result<Lowering>) {
    r.Ok? ==> Finished(r.value)
  }

  /** `add_block` leaves the current block behind, so it must be sealed. */
  lemma BlockFinished(s: Lowering, i: nat)
    requires Finished(s) && Current(s).Sealed()
    ensures Finished(WithBlock(s, i))
  {
  }

  lemma {:induction false} LowerFinishes(s: Lowering, tree: seq<Stmt>)
    requires Finished(s)
    ensures Finishes(Lower(s, tree))
    decreases tree, 3
  {
    if tree != [] {
      LowerNodeFinishes(s, tree[0]);
      if LowerNode(s, tree[0]).Ok? {
        LowerFinishes(LowerNode(s, tree[0]).value, tree[1..]);
      }
    }
  }

  lemma {:induction false} LowerNodeFinishes(s: Lowering, node: Stmt)
    requires Finished(s)
    ensures Finishes(LowerNode(s, node))
    decreases node, 2
  {
    match node
    case FunctionDef(_) => LowerFunctionDefFinishes(s, node);
    case If(_, _, _) => LowerIfFinishes(s, node);
    case While(_, _, _) => LowerWhileFinishes(s, node);
    case For(_, _, _, _) => LowerForFinishes(s, node);
    case _ =>
  }

  lemma {:induction false} LowerFunctionDefFinishes(s: Lowering, node: Stmt)
    requires Finished(s) && node.FunctionDef?
    ensures Finishes(LowerFunctionDef(s, node))
    decreases node, 1
  {
    if node.body != [] {
      LowerFinishes(s, node.body);
    }
  }

  lemma IfHeadFinished(s: Lowering, node: Stmt)
    requires Finished(s) && node.If?
    ensures Finished(IfHead(s, node))
  {
    BlockFinished(IfTest(s, node), s.blockIndex);
  }

  lemma {:induction false} LowerIfFinishes(s: Lowering, node: Stmt)
    requires Finished(s) && node.If?
    ensures Finishes(LowerIf(s, node))
    decreases node, 1
  {
    IfHeadFinished(s, node);
    LowerFinishes(IfHead(s, node), node.body);
    IfElseFinishes(s, node, Lower(IfHead(s, node), node.body));
  }

  lemma {:induction false} IfElseFinishes(s: Lowering, node: Stmt, body: Result<Lowering>)
    requires Live(s) && node.If? && (body.Ok? ==> Finished(body.value) && body.value.loopStack == s.loopStack)
    ensures Finishes(IfElse(s, node, body))
    decreases node, 0
  {
    if body.Ok? {
      BlockFinished(WithSeal(body.value, s.blockIndex + 2), s.blockIndex + 1);
      LowerFinishes(IfOrelse(s, body.value), node.orelse);
      CloseFinishes(Lower(IfOrelse(s, body.value), node.orelse), s.blockIndex + 2);
      IfElseOk(s, node, body.value);
    }
  }

  lemma CloseFinishes(arm: Result<Lowering>, index: nat)
    requires arm.Ok? ==> Finished(arm.value)
    ensures Finishes(Close(arm, index))
  {
    if arm.Ok? {
      BlockFinished(WithSeal(arm.value, index), index);
    }
  }

  lemma WhileHeadFinished(s: Lowering, node: Stmt)
    requires Finished(s) && node.While?
    ensures Finished(WhileHead(s, node))
  {
    if Current(s).instructions != [] {
      BlockFinished(WithTargets(s.(blockIndex := s.blockIndex + 3), [s.blockIndex]), s.blockIndex);
    }
    BlockFinished(WhileTest(WhileHeader(s), node, WhileIndices(s).exit - 1), WhileIndices(s).exit - 1);
  }

  lemma {:induction false} LowerWhileFinishes(s: Lowering, node: Stmt)
    requires Finished(s) && node.While?
    ensures Finishes(LowerWhile(s, node))
    decreases node, 1
  {
    WhileHeadFinished(s, node);
    LowerFinishes(WhileHead(s, node), node.body);
    WhileEndFinishes(s, Lower(WhileHead(s, node), node.body));
  }

  lemma WhileEndFinishes(s: Lowering, body: Result<Lowering>)
    requires Live(s) && (body.Ok? ==> Finished(body.value) && body.value.loopStack == s.loopStack + [WhileIndices(s)])
    ensures Finishes(WhileEnd(s, body))
  {
    if body.Ok? {
      BlockFinished(Popped(WithSeal(body.value, WhileIndices(s).head)), WhileIndices(s).exit);
    }
  }

  lemma ForHeadFinished(s: Lowering, node: Stmt)
    requires Finished(s) && node.For?
    ensures Finished(ForHead(s, node))
  {
    BlockFinished(ForEntry(s, node), s.blockIndex);
    BlockFinished(ForAdvance(WithBlock(ForEntry(s, node), s.blockIndex), node, s.blockIndex + 1), s.blockIndex + 1);
  }

  lemma {:induction false} LowerForFinishes(s: Lowering, node: Stmt)
    requires Finished(s) && node.For?
    ensures Finishes(LowerFor(s, node))
    decreases node, 1
  {
    ForHeadFinished(s, node);
    LowerFinishes(ForHead(s, node), node.body);
    ForElseFinishes(s, node, Lower(ForHead(s, node), node.body));
  }

  lemma {:induction false} ForElseFinishes(s: Lowering, node: Stmt, body: Result<Lowering>)
    requires Live(s) && node.For?
    requires body.Ok? ==> Finished(body.value) && body.value.loopStack == s.loopStack + [LoopIndices(s.blockIndex, s.blockIndex + 3)]
    ensures Finishes(ForElse(s, node, body))
    decreases node, 0
  {
    if body.Ok? {
      BlockFinished(Popped(WithSeal(body.value, s.blockIndex)), s.blockIndex + 2);
      LowerFinishes(ForOrelse(s, node, body.value), node.orelse);
      CloseFinishes(Lower(ForOrelse(s, node, body.value), node.orelse), s.blockIndex + 3);
      ForElseOk(s, node, body.value);
    }
  }


  // ---------------------------------------------------------------------------------------------
  // No jump target dangles: every target is a key, or one of the indices `pending` that the
  // handlers around the statements being lowered add once those statements are lowered.

  /**
   * Every jump target is a key or pending; the current block sits under its
   * own name; and every loop on the stack has its header in the dictionary
   * and its exit a key or pending.
   */
  ghost predicate Closed(s: Lowering, pending: set<nat>) {
    Live(s) && Current(s).name == s.current &&
    (forall k | k in s.blocks :: Aims(s.blocks[k], s.blocks.Keys + pending)) &&
    (forall l | l in s.loopStack :: l.head in s.blocks && (l.exit in s.blocks || l.exit in pending))
  }

  /** Every jump target of `b` is in `names`. */
  ghost predicate Aims(b: WBlock, names: set<nat>) {
    forall t | t in b.jumpTargets :: t in names
  }

  /** A lowering that succeeds keeps every key and leaves only pending targets dangling. */
  ghost predicate Resolves(s: Lowering, r: Result<Lowering>, pending: set<nat>) {
    r.Ok? ==> s.blocks.Keys <= r.value.blocks.Keys && Closed(r.value, pending)
  }

  /** Ending the current block with `code` and jump targets that are keys or pending. */
  lemma EmitClosed(s: Lowering, code: seq<Instr>, targets: seq<nat>, pending: set<nat>)
    requires Closed(s, pending) && forall t | t in targets :: t in s.blocks || t in pending
    ensures Closed(Emit(s, code, targets), pending) && Emit(s, code, targets).blocks.Keys == s.blocks.Keys
  {
  }

  lemma InstrClosed(s: Lowering, i: Instr, pending: set<nat>)
    requires Closed(s, pending)
    ensures Closed(WithInstr(s, i), pending) && WithInstr(s, i).blocks.Keys == s.blocks.Keys
  {
  }

  lemma TargetsClosed(s: Lowering, targets: seq<nat>, pending: set<nat>)
    requires Closed(s, pending) && forall t | t in targets :: t in s.blocks || t in pending
    ensures Closed(WithTargets(s, targets), pending) && WithTargets(s, targets).blocks.Keys == s.blocks.Keys
  {
  }

  /** `seal` towards a key or a pending index: `continue` goes to a header and `break` to an exit. */
  lemma SealClosed(s: Lowering, d: nat, pending: set<nat>)
    requires Closed(s, pending) && (d in s.blocks || d in pending)
    ensures Closed(WithSeal(s, d), pending) && WithSeal(s, d).blocks.Keys == s.blocks.Keys
  {
    if s.loopStack != [] {
      assert Top(s) in s.loopStack;
    }
  }

  /** `add_block` of a pending index: it is a key from now on. */
  lemma BlockClosed(s: Lowering, i: nat, pending: set<nat>)
    requires Closed(s, pending + {i})
    ensures Closed(WithBlock(s, i), pending) && s.blocks.Keys <= WithBlock(s, i).blocks.Keys
  {
  }

  /** `t` is `s` with a loop pushed whose header is a key and whose exit is a key or pending. */
  lemma PushClosed(s: Lowering, t: Lowering, loop: LoopIndices, pending: set<nat>)
    requires Closed(s, pending) && t == s.(loopStack := s.loopStack + [loop])
    requires loop.head in s.blocks && (loop.exit in s.blocks || loop.exit in pending)
    ensures Closed(t, pending)
  {
  }

  lemma PopClosed(s: Lowering, pending: set<nat>)
    requires Closed(s, pending) && s.loopStack != []
    ensures Closed(Popped(s), pending) && Popped(s).blocks == s.blocks
  {
    forall l | l in Popped(s).loopStack ensures l in s.loopStack {
      var i :| 0 <= i < |Popped(s).loopStack| && Popped(s).loopStack[i] == l;
      assert s.loopStack[i] == l;
    }
  }

  lemma {:induction false} LowerClosed(s: Lowering, tree: seq<Stmt>, pending: set<nat>)
    requires Closed(s, pending)
    ensures Resolves(s, Lower(s, tree), pending)
    decreases tree, 3
  {
    if tree != [] {
      LowerNodeClosed(s, tree[0], pending);
      if LowerNode(s, tree[0]).Ok? {
        LowerClosed(LowerNode(s, tree[0]).value, tree[1..], pending);
      }
    }
  }

  lemma {:induction false} LowerNodeClosed(s: Lowering, node: Stmt, pending: set<nat>)
    requires Closed(s, pending)
    ensures Resolves(s, LowerNode(s, node), pending)
    decreases node, 2
  {
    match node
    case FunctionDef(_) => LowerFunctionDefClosed(s, node, pending);
    case If(_, _, _) => LowerIfClosed(s, node, pending);
    case While(_, _, _) => LowerWhileClosed(s, node, pending);
    case For(_, _, _, _) => LowerForClosed(s, node, pending);
    case Unsupported(_) =>
    case _ => InstrClosed(s, Node(node), pending);
  }

  lemma {:induction false} LowerFunctionDefClosed(s: Lowering, node: Stmt, pending: set<nat>)
    requires Closed(s, pending) && node.FunctionDef?
    ensures Resolves(s, LowerFunctionDef(s, node), pending)
    decreases node, 1
  {
    if node.body != [] {
      LowerClosed(s, node.body, pending);
      if Lower(s, node.body).Ok? {
        InstrClosed(Lower(s, node.body).value, Node(Return(NoneConst)), pending);
      }
    }
  }

  lemma IfHeadClosed(s: Lowering, node: Stmt, pending: set<nat>)
    requires Closed(s, pending) && node.If?
    ensures Closed(IfHead(s, node), pending + {s.blockIndex + 1}) && s.blocks.Keys <= IfHead(s, node).blocks.Keys
  {
    EmitClosed(s.(blockIndex := s.blockIndex + 3), [Test(node.test)], [s.blockIndex, s.blockIndex + 1],
               pending + {s.blockIndex + 1} + {s.blockIndex});
    BlockClosed(IfTest(s, node), s.blockIndex, pending + {s.blockIndex + 1});
  }

  lemma {:induction false} LowerIfClosed(s: Lowering, node: Stmt, pending: set<nat>)
    requires Closed(s, pending) && node.If?
    ensures Resolves(s, LowerIf(s, node), pending)
    decreases node, 1
  {
    IfHeadClosed(s, node, pending);
    LowerClosed(IfHead(s, node), node.body, pending + {s.blockIndex + 1});
    IfElseClosed(s, node, Lower(IfHead(s, node), node.body), pending);
  }

  lemma {:induction false} IfElseClosed(s: Lowering, node: Stmt, body: Result<Lowering>, pending: set<nat>)
    requires Live(s) && node.If?
    requires body.Ok? ==> Closed(body.value, pending + {s.blockIndex + 1}) && s.blocks.Keys <= body.value.blocks.Keys &&
                          body.value.loopStack == s.loopStack
    ensures Resolves(s, IfElse(s, node, body), pending)
    decreases node, 0
  {
    if body.Ok? {
      IfOrelseClosed(s, body.value, pending);
      ArmClosed(IfOrelse(s, body.value), node.orelse, s.blockIndex + 2, pending);
      IfElseOk(s, node, body.value);
    }
  }

  lemma IfOrelseClosed(s: Lowering, t: Lowering, pending: set<nat>)
    requires Closed(t, pending + {s.blockIndex + 1})
    ensures Closed(IfOrelse(s, t), pending + {s.blockIndex + 2}) && t.blocks.Keys <= IfOrelse(s, t).blocks.Keys
  {
    SealClosed(t, s.blockIndex + 2, pending + {s.blockIndex + 2} + {s.blockIndex + 1});
    BlockClosed(WithSeal(t, s.blockIndex + 2), s.blockIndex + 1, pending + {s.blockIndex + 2});
  }

  /** The last arm of `handle_if` or `handle_for`, lowered and closed towards the pending `index`. */
  lemma {:induction false} ArmClosed(u: Lowering, tree: seq<Stmt>, index: nat, pending: set<nat>)
    requires Closed(u, pending + {index})
    ensures Resolves(u, Close(Lower(u, tree), index), pending)
    decreases tree, 4
  {
    LowerClosed(u, tree, pending + {index});
    CloseClosed(Lower(u, tree), index, pending);
  }

  lemma CloseClosed(arm: Result<Lowering>, index: nat, pending: set<nat>)
    requires arm.Ok? ==> Closed(arm.value, pending + {index})
    ensures Close(arm, index).Ok? ==> arm.value.blocks.Keys <= Close(arm, index).value.blocks.Keys &&
                                      Closed(Close(arm, index).value, pending)
  {
    if arm.Ok? {
      SealClosed(arm.value, index, pending + {index});
      BlockClosed(WithSeal(arm.value, index), index, pending);
    }
  }

  lemma WhileHeadClosed(s: Lowering, node: Stmt, pending: set<nat>)
    requires Closed(s, pending) && node.While?
    ensures Closed(WhileHead(s, node), pending + {WhileIndices(s).exit}) && s.blocks.Keys <= WhileHead(s, node).blocks.Keys
  {
    var loop := WhileIndices(s);
    var body: nat := loop.exit - 1;
    var p := pending + {loop.exit};
    var header := WhileHeader(s);
    WhileHeaderClosed(s, p + {body});
    WhileTestClosed(header, node, body, p);
    var top := WithBlock(WhileTest(header, node, body), body);
    assert WhileHead(s, node) == top.(loopStack := top.loopStack + [loop]);
    PushClosed(top, WhileHead(s, node), loop, p);
  }

  /** The header of `handle_while` is a key and sits under its own name as the current block. */
  lemma WhileHeaderClosed(s: Lowering, pending: set<nat>)
    requires Closed(s, pending)
    ensures Closed(WhileHeader(s), pending) && s.blocks.Keys <= WhileHeader(s).blocks.Keys
    ensures WhileHeader(s).current == WhileIndices(s).head && WhileHeader(s).loopStack == s.loopStack
  {
    if Current(s).instructions != [] {
      TargetsClosed(s.(blockIndex := s.blockIndex + 3), [s.blockIndex], pending + {s.blockIndex});
      BlockClosed(WithTargets(s.(blockIndex := s.blockIndex + 3), [s.blockIndex]), s.blockIndex, pending);
    }
  }

  /** The header jumps to the body block, which becomes current, and to the pending block after it. */
  lemma WhileTestClosed(header: Lowering, node: Stmt, body: nat, pending: set<nat>)
    requires Closed(header, pending + {body}) && node.While? && body + 1 in pending
    ensures Closed(WithBlock(WhileTest(header, node, body), body), pending) &&
            header.blocks.Keys <= WithBlock(WhileTest(header, node, body), body).blocks.Keys
  {
    EmitClosed(header, [Test(node.test)], [body, body + 1], pending + {body});
    BlockClosed(WhileTest(header, node, body), body, pending);
  }

  lemma {:induction false} LowerWhileClosed(s: Lowering, node: Stmt, pending: set<nat>)
    requires Closed(s, pending) && node.While?
    ensures Resolves(s, LowerWhile(s, node), pending)
    decreases node, 1
  {
    WhileHeadClosed(s, node, pending);
    LowerClosed(WhileHead(s, node), node.body, pending + {WhileIndices(s).exit});
    WhileEndClosed(s, Lower(WhileHead(s, node), node.body), pending);
  }

  lemma WhileEndClosed(s: Lowering, body: Result<Lowering>, pending: set<nat>)
    requires Live(s)
    requires body.Ok? ==> Closed(body.value, pending + {WhileIndices(s).exit}) && s.blocks.Keys <= body.value.blocks.Keys &&
                          body.value.loopStack == s.loopStack + [WhileIndices(s)]
    ensures Resolves(s, WhileEnd(s, body), pending)
  {
    if body.Ok? {
      assert Top(body.value) == WhileIndices(s);
      LatchClosed(body.value, WhileIndices(s).head, pending + {WhileIndices(s).exit});
      BlockClosed(Popped(WithSeal(body.value, WhileIndices(s).head)), WhileIndices(s).exit, pending);
    }
  }

  /** A loop body's last block is sealed towards the header, a key, and the loop is popped. */
  lemma LatchClosed(t: Lowering, head: nat, pending: set<nat>)
    requires Closed(t, pending) && t.loopStack != [] && Top(t).head == head
    ensures Closed(Popped(WithSeal(t, head)), pending) && t.blocks.Keys == Popped(WithSeal(t, head)).blocks.Keys
  {
    SealClosed(t, head, pending);
    PopClosed(WithSeal(t, head), pending);
  }

  lemma ForHeadClosed(s: Lowering, node: Stmt, pending: set<nat>)
    requires Closed(s, pending) && node.For?
    ensures Closed(ForHead(s, node), pending + {s.blockIndex + 2, s.blockIndex + 3}) && s.blocks.Keys <= ForHead(s, node).blocks.Keys
  {
    ForEntryClosed(s, node, pending + {s.blockIndex + 2, s.blockIndex + 3});
    ForAdvanceClosed(WithBlock(ForEntry(s, node), s.blockIndex), node, s.blockIndex + 1, pending + {s.blockIndex + 2, s.blockIndex + 3});
    PushClosed(WithBlock(ForAdvance(WithBlock(ForEntry(s, node), s.blockIndex), node, s.blockIndex + 1), s.blockIndex + 1),
               ForHead(s, node), LoopIndices(s.blockIndex, s.blockIndex + 3), pending + {s.blockIndex + 2, s.blockIndex + 3});
  }

  /** The pre-header jumps to the header block, which becomes current; the body block is pending. */
  lemma ForEntryClosed(s: Lowering, node: Stmt, pending: set<nat>)
    requires Closed(s, pending) && node.For?
    ensures Closed(WithBlock(ForEntry(s, node), s.blockIndex), pending + {s.blockIndex + 1}) &&
            s.blocks.Keys <= WithBlock(ForEntry(s, node), s.blockIndex).blocks.Keys
  {
    EmitClosed(s.(blockIndex := s.blockIndex + 4), [ForInstr(IterInit, node), ForInstr(TargetInit, node)], [s.blockIndex],
               pending + {s.blockIndex + 1} + {s.blockIndex});
    BlockClosed(ForEntry(s, node), s.blockIndex, pending + {s.blockIndex + 1});
  }

  /** The header jumps to the body block, which becomes current, and to the pending block after it. */
  lemma ForAdvanceClosed(header: Lowering, node: Stmt, body: nat, pending: set<nat>)
    requires Closed(header, pending + {body}) && node.For? && body + 1 in pending
    ensures Closed(WithBlock(ForAdvance(header, node, body), body), pending) &&
            header.blocks.Keys <= WithBlock(ForAdvance(header, node, body), body).blocks.Keys
  {
    EmitClosed(header, [ForInstr(SaveLast, node), ForInstr(Advance, node), ForInstr(NotSentinel, node)], [body, body + 1],
               pending + {body});
    BlockClosed(ForAdvance(header, node, body), body, pending);
  }

  lemma {:induction false} LowerForClosed(s: Lowering, node: Stmt, pending: set<nat>)
    requires Closed(s, pending) && node.For?
    ensures Resolves(s, LowerFor(s, node), pending)
    decreases node, 1
  {
    ForHeadClosed(s, node, pending);
    LowerClosed(ForHead(s, node), node.body, pending + {s.blockIndex + 2, s.blockIndex + 3});
    if Lower(ForHead(s, node), node.body).Ok? {
      ForElseClosed(s, node, Lower(ForHead(s, node), node.body).value, pending);
    }
  }

  lemma {:induction false} ForElseClosed(s: Lowering, node: Stmt, t: Lowering, pending: set<nat>)
    requires Live(s) && node.For? && Closed(t, pending + {s.blockIndex + 2, s.blockIndex + 3})
    requires s.blocks.Keys <= t.blocks.Keys && t.loopStack == s.loopStack + [LoopIndices(s.blockIndex, s.blockIndex + 3)]
    ensures Resolves(s, ForElse(s, node, Ok(t)), pending)
    decreases node, 0
  {
    ForOrelseClosed(s, node, t, pending);
    ForElseOk(s, node, t);
    ArmResolves(s, ForOrelse(s, node, t), node.orelse, s.blockIndex + 3, pending, ForElse(s, node, Ok(t)));
  }

  /** A lowered then branch continues with the else branch, closed towards the end-if block. */
  lemma {:induction false} IfThenLowered(s: Lowering, node: Stmt, t: Lowering)
    requires Live(s) && node.If? && Lower(IfHead(s, node), node.body) == Ok(t)
    ensures LowerIf(s, node) == Close(Lower(IfOrelse(s, t), node.orelse), s.blockIndex + 2)
  {
    assert LowerIf(s, node) == IfElse(s, node, Ok(t));
    IfElseOk(s, node, t);
  }

  /** A lowered then branch `t` continues with the else branch, closed towards the end-if block. */
  lemma {:induction false} IfElseOk(s: Lowering, node: Stmt, t: Lowering)
    requires Live(s) && node.If? && Live(t) && t.loopStack == s.loopStack
    ensures IfElse(s, node, Ok(t)) == Close(Lower(IfOrelse(s, t), node.orelse), s.blockIndex + 2)
  {
  }

  /** A lowered body continues with the else clause, closed towards the exit. */
  lemma {:induction false} ForElseOk(s: Lowering, node: Stmt, t: Lowering)
    requires Live(s) && node.For? && Live(t) && t.loopStack == s.loopStack + [LoopIndices(s.blockIndex, s.blockIndex + 3)]
    ensures ForElse(s, node, Ok(t)) == Close(Lower(ForOrelse(s, node, t), node.orelse), s.blockIndex + 3)
  {
  }

  /** `r`, the arm `tree` lowered from `u` and closed towards `index`, keeps the keys of `s` and resolves. */
  lemma ArmResolves(s: Lowering, u: Lowering, tree: seq<Stmt>, index: nat, pending: set<nat>, r: Result<Lowering>)
    requires Closed(u, pending + {index}) && s.blocks.Keys <= u.blocks.Keys && r == Close(Lower(u, tree), index)
    ensures Resolves(s, r, pending)
    decreases tree, 5
  {
    ArmClosed(u, tree, index, pending);
  }

  lemma ForOrelseClosed(s: Lowering, node: Stmt, t: Lowering, pending: set<nat>)
    requires node.For? && Closed(t, pending + {s.blockIndex + 2, s.blockIndex + 3})
    requires t.loopStack == s.loopStack + [LoopIndices(s.blockIndex, s.blockIndex + 3)]
    ensures Closed(ForOrelse(s, node, t), pending + {s.blockIndex + 3}) && t.blocks.Keys <= ForOrelse(s, node, t).blocks.Keys
  {
    assert Top(t) == LoopIndices(s.blockIndex, s.blockIndex + 3);
    var exitPending := pending + {s.blockIndex + 3};
    assert exitPending + {s.blockIndex + 2} == pending + {s.blockIndex + 2, s.blockIndex + 3};
    LatchClosed(t, s.blockIndex, exitPending + {s.blockIndex + 2});
    var latched := Popped(WithSeal(t, s.blockIndex));
    BlockClosed(latched, s.blockIndex + 2, exitPending);
    EmitClosed(WithBlock(latched, s.blockIndex + 2), [ForInstr(RestoreLast, node)], [s.blockIndex + 3], exitPending);
    assert ForOrelse(s, node, t) == Emit(WithBlock(latched, s.blockIndex + 2), [ForInstr(RestoreLast, node)], [s.blockIndex + 3]);
  }

  // ---------------------------------------------------------------------------------------------
  // The blocks each handler lays out before it lowers the statements inside it.

  /** `handle_if`: three indices taken, the test appended, the then and else blocks as targets; the then block is current. */
  lemma IfShape(s: Lowering, node: Stmt)
    requires Bounded(s) && node.If?
    ensures IfHead(s, node).blockIndex == s.blockIndex + 3
    ensures IfHead(s, node).blocks[s.current] ==
            WBlock(Current(s).name, Current(s).instructions + [Test(node.test)], [s.blockIndex, s.blockIndex + 1])
    ensures IfHead(s, node).current == s.blockIndex && Current(IfHead(s, node)) == WBlock(s.blockIndex, [], [])
  {
  }

  /**
   * `handle_while`: an empty current block is the header and two indices are
   * taken; otherwise three are taken and the current block jumps to the new
   * header. Either way the header holds the test and jumps to body and exit,
   * the body block is current and the loop is on top of the stack.
   */
  lemma WhileShape(s: Lowering, node: Stmt)
    requires Bounded(s) && Current(s).name == s.current && node.While?
    ensures Current(s).instructions == [] ==>
      WhileIndices(s) == LoopIndices(s.current, s.blockIndex + 1) && WhileHead(s, node).blockIndex == s.blockIndex + 2
    ensures Current(s).instructions != [] ==>
      WhileIndices(s) == LoopIndices(s.blockIndex, s.blockIndex + 2) && WhileHead(s, node).blockIndex == s.blockIndex + 3 &&
      WhileHead(s, node).blocks[s.current] == Current(s).(jumpTargets := [s.blockIndex])
    ensures var loop := WhileIndices(s);
      WhileHead(s, node).blocks[loop.head].jumpTargets == [loop.exit - 1, loop.exit] &&
      WhileHead(s, node).blocks[loop.head].instructions[|WhileHead(s, node).blocks[loop.head].instructions| - 1] == Test(node.test) &&
      WhileHead(s, node).current == loop.exit - 1 && Current(WhileHead(s, node)) == WBlock(loop.exit - 1, [], []) &&
      Top(WhileHead(s, node)) == loop
  {
  }

  /**
   * `handle_for`: four indices taken; the pre-header jumps to the header,
   * the header to the body and the else block; the body block is current and
   * the loop on top of the stack is (header, exit).
   */
  lemma ForShape(s: Lowering, node: Stmt)
    requires Bounded(s) && node.For?
    ensures ForHead(s, node).blockIndex == s.blockIndex + 4
    ensures ForHead(s, node).blocks[s.current].jumpTargets == [s.blockIndex]
    ensures ForHead(s, node).blocks[s.blockIndex].jumpTargets == [s.blockIndex + 1, s.blockIndex + 2]
    ensures ForHead(s, node).current == s.blockIndex + 1 && Current(ForHead(s, node)) == WBlock(s.blockIndex + 1, [], [])
    ensures Top(ForHead(s, node)) == LoopIndices(s.blockIndex, s.blockIndex + 3)
  {
  }

  /**
   * After the body of `handle_for`: the loop is popped, and the else block is
   * current, restores the loop target and jumps to the exit.
   */
  lemma ForElseShape(s: Lowering, node: Stmt, t: Lowering)
    requires node.For? && Live(t) && t.loopStack == s.loopStack + [LoopIndices(s.blockIndex, s.blockIndex + 3)]
    ensures ForOrelse(s, node, t).loopStack == s.loopStack
    ensures ForOrelse(s, node, t).current == s.blockIndex + 2
    ensures Current(ForOrelse(s, node, t)) == WBlock(s.blockIndex + 2, [ForInstr(RestoreLast, node)], [s.blockIndex + 3])
  {
  }
}
