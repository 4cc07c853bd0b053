/** The syntax tree that the semantic passes hand to IR lowering, without
    function calls, arrays, doubles and void expressions. */
module CAst {
  import opened Wrappers
  import opened CTypes

  /** A scalar object: an automatic variable (or temporary) by unique id, or an
      object with linkage by name. */
  datatype Loc = Tmp(id: int) | Data(name: string)

  datatype Expr =
    | Const(num: int, cty: CType)
    | Var(loc: Loc, vty: CType)
    | Paren(inner: Expr)
    | Unary(uop: UnaryOp, operand: Expr, uty: CType)
    | Binary(bop: BinaryOp, left: Expr, right: Expr, bty: CType)
    | Logical(isAnd: bool, lhs: Expr, rhs: Expr)
    | Ternary(cond: Expr, thn: Expr, els: Expr, tty: CType)
      // compound: the right-hand side holds the left-hand side again, as a Twin
    | Assign(target: Expr, source: Expr, compound: bool, aty: CType)
    | Twin(shared: Expr)
    | IncDec(prefix: bool, increment: bool, place: Expr, ity: CType)
    | Deref(pointer: Expr, dty: CType)
    | AddressOf(lvalue: Expr, pty: CType)
    | Cast(from: Expr, toTy: CType)

  function TypeOf(e: Expr): CType {
    match e
    case Const(_, t) => t
    case Var(_, t) => t
    case Paren(i) => TypeOf(i)
    case Unary(_, _, t) => t
    case Binary(_, _, _, t) => t
    case Logical(_, _, _) => Int
    case Ternary(_, _, _, t) => t
    case Assign(_, _, _, t) => t
    case Twin(s) => TypeOf(s)
    case IncDec(_, _, _, t) => t
    case Deref(_, t) => t
    case AddressOf(_, t) => t
    case Cast(_, t) => t
  }

  function Unparen(e: Expr): (r: Expr)
    ensures !r.Paren?
    ensures r == e || r < e
    ensures TypeOf(r) == TypeOf(e)
  {
    if e.Paren? then Unparen(e.inner) else e
  }

  /** A list of statements, one cell per statement. */
  datatype Flat = Nil | Cons(car: Stmt, cdr: Flat)

  /** The values that an integer constant can have; those of character constants go
      down to -128. */
  type Literal = n: int | -0x80 <= n < 0x1_0000_0000_0000_0000

  datatype CaseEntry = CaseEntry(num: int, unique: int)

  datatype Stmt =
    | Expression(expr: Expr)
    | Empty
    | Declare(dloc: Loc, dtype: CType, init: Option<Expr>)
    | Return(result: Option<Expr>)
    | Block(statements: Flat)
    | IfElse(condition: Expr, thenClause: Flat, elseClause: Option<Flat>)
    | Loop(precond: Option<Expr>, body: Flat, incr: Option<Expr>, postcond: Option<Expr>,
           labelStart: int, labelContinue: int, labelEnd: int)
    | Break(breakTo: int)
    | Continue(continueTo: int)
    | Goto(targetLabel: string, targetUnique: int)
    | Label(name: string, unique: int)
    | Switch(control: Expr, switchBody: Flat, labelDefault: int, switchEnd: int,
             labelCases: seq<CaseEntry>)
    | Case(caseNum: Literal, caseUnique: int)
    | Default(defaultUnique: int)

  datatype Param = Param(id: int, ty: CType)
}
