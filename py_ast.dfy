/**
 * The part of Python's abstract syntax tree that the AST-to-CFG lowering
 * looks at. Expressions are opaque tokens; the lowering only moves them into
 * blocks. The statements the lowering of a `for` loop generates from fixed
 * source text are tokens that carry the loop's target and iterable.
 */
module PyAst {
  /** The lines of code the lowering of a `for` loop generates. */
  datatype ForLine =
    | IterInit      // __iterator__ = iter(<iter>)
    | TargetInit    // <target> = None
    | SaveLast      // __iter_last__ = <target>
    | Advance       // <target> = next(__iterator__, "__sentinel__")
    | NotSentinel   // <target> != "__sentinel__"
    | RestoreLast   // <target> = __iter_last__

  datatype Expr =
    | Opaque(id: nat)
    | NoneConst
    | ForCode(line: ForLine, target: Expr, iter: Expr)

  datatype Stmt =
    | Assign(value: Expr)
    | AugAssign(value: Expr)
    | ExprStmt(value: Expr)
    | Return(value: Expr)
    | Break
    | Continue
    | If(test: Expr, body: seq<Stmt>, orelse: seq<Stmt>)
    | While(test: Expr, body: seq<Stmt>, orelse: seq<Stmt>)
    | For(target: Expr, iter: Expr, body: seq<Stmt>, orelse: seq<Stmt>)
    | FunctionDef(body: seq<Stmt>)
    | Unsupported(id: nat)

  /** An entry of a block's instruction list: a statement, or the test expression of a branch or loop. */
  datatype Instr = Node(stmt: Stmt) | Test(expr: Expr)

  /** The exceptions the lowering can raise. */
  datatype Error = NotImplementedError | IndexError | AssertionError | KeyError | AttributeError

  datatype Result<T> = Ok(value: T) | Err(error: Error)

  /** The statement kinds `is_instruction` is asked about. */
  datatype NodeType = ReturnType | BreakType | ContinueType

  predicate HasType(i: Instr, t: NodeType) {
    i.Node? && match t
      case ReturnType => i.stmt.Return?
      case BreakType => i.stmt.Break?
      case ContinueType => i.stmt.Continue?
  }

  /** Statements that go into the current block unchanged. */
  predicate IsSimple(s: Stmt) {
    s.Assign? || s.AugAssign? || s.ExprStmt? || s.Return? || s.Break? || s.Continue?
  }

  /** The statement tree contains no loop and no `break` or `continue`. */
  predicate Straight(ss: seq<Stmt>)
    decreases ss
  {
    forall i | 0 <= i < |ss| :: StraightStmt(ss[i])
  }

  predicate StraightStmt(s: Stmt)
    decreases s
  {
    match s
    case While(_, _, _) => false
    case For(_, _, _, _) => false
    case Break => false
    case Continue => false
    case If(_, body, orelse) => Straight(body) && Straight(orelse)
    case FunctionDef(body) => Straight(body)
    case _ => true
  }
}
