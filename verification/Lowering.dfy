/** The code that IR lowering produces, as functions of the tree and of the two
    counters that name temporaries and labels. */
module Lowering {
  import opened Wrappers
  import opened CTypes
  import opened CAst
  import opened Ir

  datatype ExprCode = ExprCode(ops: seq<IrOp>, ret: IrVal, gen: int, lab: int)

  datatype FlatCode = FlatCode(ops: seq<IrOp>, gen: int, lab: int)

  function Temp(id: int, t: CType): IrVal {
    Variable(Tmp(id), t)
  }

  /** ud: the cached value of the left-hand side of a compound assignment
      through a pointer, for its second occurrence to reuse. The code is what the
      compiler produces where it does not stop (see `Lvalues`). */
  function LowerExpr(e: Expr, ud: Option<IrVal>, g: int, n: int): (c: ExprCode)
    ensures g <= c.gen && n <= c.lab
  {
    match e
    case Const(num, t) => ExprCode([], Constant(num, t), g, n)
    case Var(l, t) => ExprCode([], Variable(l, t), g, n)
    case Paren(i) => LowerExpr(i, ud, g, n)
    case Unary(op, o, t) =>
      var c := LowerExpr(o, ud, g, n);
      var dst := Temp(c.gen, t);
      ExprCode(c.ops + [UnaryOf(op, c.ret, dst)], dst, c.gen + 1, c.lab)
    case Binary(op, x, y, t) =>
      var a := LowerExpr(x, ud, g, n);
      var b := LowerExpr(y, ud, a.gen, a.lab);
      var f := FinishBinary(op, TypeOf(x), TypeOf(y), t, a.ret, b.ret, b.gen);
      ExprCode(a.ops + b.ops + f.ops, f.ret, f.gen, b.lab)
    case Logical(isAnd, x, y) =>
      var a := LowerExpr(x, ud, g, n + 1);
      var b := LowerExpr(y, ud, a.gen, a.lab);
      var dst := Temp(b.gen, Int);
      ExprCode(a.ops + [ShortCircuit(isAnd, a.ret, n)] + b.ops + [ShortCircuit(isAnd, b.ret, n)]
               + LogicalFooter(isAnd, dst, n, b.lab),
               dst, b.gen + 1, b.lab + 1)
    case Ternary(c, x, y, t) =>
      var k := LowerExpr(c, ud, g + 1, n + 2);
      var a := LowerExpr(x, ud, k.gen, k.lab);
      var b := LowerExpr(y, ud, a.gen, a.lab);
      ExprCode(k.ops + [JumpIfZero(k.ret, n)]
               + (a.ops + [Copy(a.ret, Temp(g, TypeOf(x)))] + [Jump(n + 1), LabelAt(n)])
               + (b.ops + [Copy(b.ret, Temp(g, TypeOf(y)))] + [LabelAt(n + 1)]),
               Temp(g, t), b.gen, b.lab)
    case Assign(target, source, compound, t) =>
      var u := Unparen(target);
      if u.Deref? then
        var a := LowerExpr(u.pointer, ud, g, n);
        var glue := Temp(a.gen, u.dty);
        if compound then
          var b := LowerExpr(source, Some(glue), a.gen + 1, a.lab);
          ExprCode(a.ops + [Load(a.ret, glue)] + b.ops + [Store(b.ret, a.ret)], b.ret, b.gen, b.lab)
        else
          var b := LowerExpr(source, None, a.gen, a.lab);
          ExprCode(a.ops + b.ops + [Store(b.ret, a.ret)], b.ret, b.gen, b.lab)
      else
        var b := LowerExpr(source, None, g, n);
        ExprCode(b.ops + [Copy(b.ret, DirectPlace(u, t))], b.ret, b.gen, b.lab)
    case Twin(s) => if ud.Some? then ExprCode([], ud.value, g, n) else LowerExpr(s, None, g, n)
    case IncDec(prefix, increment, p, t) =>
      var u := Unparen(p);
      if u.Deref? then
        var a := LowerExpr(u.pointer, ud, g, n);
        var work := Temp(a.gen, u.dty);
        var stash := Temp(a.gen + 1, t);
        ExprCode(a.ops + (if prefix then [] else [Load(a.ret, stash)])
                 + [Load(a.ret, work), IncDecOp(increment, work, t), Store(work, a.ret)],
                 if prefix then work else stash, if prefix then a.gen + 1 else a.gen + 2, a.lab)
      else
        var place := DirectPlace(u, t);
        var stash := Temp(g, t);
        if prefix then ExprCode([IncDecOp(increment, place, t)], place, g, n)
        else ExprCode([Copy(place, stash), IncDecOp(increment, place, t)], stash, g + 1, n)
    case Deref(p, t) =>
      if Unparen(p).AddressOf? then LowerExpr(Unparen(p).lvalue, ud, g, n) else
      var c := LowerExpr(p, ud, g, n);
      var dst := Temp(c.gen, t);
      ExprCode(c.ops + [Load(c.ret, dst)], dst, c.gen + 1, c.lab)
    case AddressOf(o, t) =>
      if Unparen(o).Deref? then LowerExpr(Unparen(o).pointer, ud, g, n) else
      var c := LowerExpr(o, ud, g, n);
      var dst := Temp(c.gen, t);
      ExprCode(c.ops + [GetAddress(c.ret, dst)], dst, c.gen + 1, c.lab)
    case Cast(f, t) =>
      var c := LowerExpr(f, ud, g, n);
      if TypeOf(f) == t then c else
      var dst := Temp(c.gen, t);
      ExprCode(c.ops + [CastOp(TypeOf(f), t, c.ret, dst)], dst, c.gen + 1, c.lab)
  }

  /** The operation of a binary operator, once its operands are available. */
  function FinishBinary(op: BinaryOp, lt: CType, rt: CType, t: CType, a: IrVal, b: IrVal, g: int): ExprCode {
    if op.Add? && lt.Pointer? then
      ExprCode([PointerAdd(a, b, lt.referent.Size(), Temp(g, t))], Temp(g, t), g + 1, 0)
    else if op.Add? && rt.Pointer? then
      ExprCode([PointerAdd(b, a, rt.referent.Size(), Temp(g, t))], Temp(g, t), g + 1, 0)
    else if op.Subtract? && lt.Pointer? && rt.Pointer? then
      ExprCode([BinaryOf(Subtract, a, b, Temp(g, t)),
                BinaryOf(Divide, Temp(g, t), Constant(lt.referent.Size(), t), Temp(g + 1, t))],
               Temp(g + 1, t), g + 2, 0)
    else if op.Subtract? && lt.Pointer? then
      ExprCode([UnaryOf(Negate, b, Temp(g, rt)),
                PointerAdd(a, Temp(g, rt), lt.referent.Size(), Temp(g + 1, t))],
               Temp(g + 1, t), g + 2, 0)
    else ExprCode([BinaryOf(op, a, b, Temp(g, t))], Temp(g, t), g + 1, 0)
  }

  function ShortCircuit(isAnd: bool, v: IrVal, l: int): IrOp {
    if isAnd then JumpIfZero(v, l) else JumpIfNotZero(v, l)
  }

  function LogicalFooter(isAnd: bool, dst: IrVal, l: int, end: int): seq<IrOp> {
    [Copy(Constant(if isAnd then 1 else 0, Char), dst),
     Jump(end),
     LabelAt(l),
     Copy(Constant(if isAnd then 0 else 1, Char), dst),
     LabelAt(end)]
  }

  /** An lvalue that is a variable, or one under a cast; the type is that of the node
      above it. */
  function DirectPlace(u: Expr, t: CType): IrVal {
    if u.Var? then Variable(u.loc, t)
    else if u.Cast? && u.from.Var? then Variable(u.from.loc, t)
    else Constant(0, t)
  }

  function IncDecOp(increment: bool, place: IrVal, t: CType): IrOp {
    if t.Pointer? then PointerAdd(place, Constant(if increment then 1 else -1, Long), t.referent.Size(), place)
    else Bump(increment, place)
  }

  function CastOp(from: CType, to: CType, src: IrVal, dst: IrVal): IrOp {
    if from.Size() == to.Size() || (from.Pointer? && to.Pointer?) then Copy(src, dst)
    else if from.Size() > to.Size() then Truncate(src, dst)
    else if from.IsSigned() then SignExtend(src, dst)
    else ZeroExtend(src, dst)
  }

  // ------------------------------------------------------------- statements

  /** An optional expression, and the jump that leaves the loop when it is zero. */
  function LowerGuard(e: Option<Expr>, end: int, g: int, n: int): (r: FlatCode)
    ensures g <= r.gen && n <= r.lab
  {
    if e.None? then FlatCode([], g, n) else
    var c := LowerExpr(e.value, None, g, n);
    FlatCode(c.ops + [JumpIfZero(c.ret, end)], c.gen, c.lab)
  }

  function LowerOptional(e: Option<Expr>, g: int, n: int): (r: FlatCode)
    ensures g <= r.gen && n <= r.lab
  {
    if e.None? then FlatCode([], g, n) else
    var c := LowerExpr(e.value, None, g, n);
    FlatCode(c.ops, c.gen, c.lab)
  }

  function LowerStmt(s: Stmt, g: int, n: int): (r: FlatCode)
    ensures g <= r.gen && n <= r.lab
    decreases s
  {
    match s
    case Expression(e) => LowerOptional(Some(e), g, n)
    case Empty => FlatCode([], g, n)
    case Declare(l, t, init) =>
      if init.None? then FlatCode([], g, n) else
      var c := LowerExpr(init.value, None, g, n);
      FlatCode(c.ops + [Copy(c.ret, Variable(l, t))], c.gen, c.lab)
    case Return(None) => FlatCode([Ret(None)], g, n)
    case Return(Some(e)) =>
      var c := LowerExpr(e, None, g, n);
      FlatCode(c.ops + [Ret(Some(c.ret))], c.gen, c.lab)
    case Block(f) => LowerFlat(f, g, n)
    case IfElse(c, a, None) =>
      var k := LowerExpr(c, None, g, n + 1);
      var x := LowerFlat(a, k.gen, k.lab);
      FlatCode(k.ops + [JumpIfZero(k.ret, n)] + x.ops + [LabelAt(n)], x.gen, x.lab)
    case IfElse(c, a, Some(b)) =>
      var k := LowerExpr(c, None, g, n + 2);
      var x := LowerFlat(a, k.gen, k.lab);
      var y := LowerFlat(b, x.gen, x.lab);
      FlatCode(k.ops + [JumpIfZero(k.ret, n)] + x.ops + [Jump(n + 1), LabelAt(n)] + y.ops + [LabelAt(n + 1)],
               y.gen, y.lab)
    case Loop(pre, body, incr, post, start, cont, end) =>
      var p := LowerGuard(pre, end, g, n);
      var b := LowerFlat(body, p.gen, p.lab);
      var i := LowerOptional(incr, b.gen, b.lab);
      var q := LowerGuard(post, end, i.gen, i.lab);
      FlatCode([LabelAt(start)] + p.ops + b.ops + [LabelAt(cont)] + i.ops + q.ops + [Jump(start), LabelAt(end)],
               q.gen, q.lab)
    case Break(l) => FlatCode([Jump(l)], g, n)
    case Continue(l) => FlatCode([Jump(l)], g, n)
    case Goto(_, l) => FlatCode([Jump(l)], g, n)
    case Label(_, l) => FlatCode([LabelAt(l)], g, n)
    case Switch(c, body, dflt, end, cases) =>
      var k := LowerExpr(c, None, g, n);
      var b := LowerFlat(body, k.gen + |cases|, k.lab);
      FlatCode(k.ops + CaseJumps(k.ret, TypeOf(c), cases, k.gen) + (if dflt >= 0 then [Jump(dflt)] else [])
               + [Jump(end)] + b.ops + [LabelAt(end)],
               b.gen, b.lab)
    case Case(_, l) => FlatCode([LabelAt(l)], g, n)
    case Default(l) => FlatCode([LabelAt(l)], g, n)
  }

  /** The code of a switch. */
  lemma SwitchUnfolds(s: Stmt, g: int, n: int)
    requires s.Switch?
    ensures var k := LowerExpr(s.control, None, g, n);
            var b := LowerFlat(s.switchBody, k.gen + |s.labelCases|, k.lab);
            LowerStmt(s, g, n) == FlatCode(
              k.ops + CaseJumps(k.ret, TypeOf(s.control), s.labelCases, k.gen)
              + (if s.labelDefault >= 0 then [Jump(s.labelDefault)] else []) + [Jump(s.switchEnd)] + b.ops + [LabelAt(s.switchEnd)],
              b.gen, b.lab)
  {
    hide LowerExpr, LowerFlat, CaseJumps;
  }

  function LowerFlat(f: Flat, g: int, n: int): (r: FlatCode)
    ensures g <= r.gen && n <= r.lab
    decreases f
  {
    if f.Nil? then FlatCode([], g, n) else
    var a := LowerStmt(f.car, g, n);
    var b := LowerFlat(f.cdr, a.gen, a.lab);
    FlatCode(a.ops + b.ops, b.gen, b.lab)
  }

  /** One comparison and jump for each case; the list is newest first, and each
      test is placed in front of the ones before it. */
  function CaseJumps(v: IrVal, t: CType, cases: seq<CaseEntry>, g: int): seq<IrOp> {
    if cases == [] then [] else
    CaseJumps(v, t, cases[1..], g + 1)
    + [BinaryOf(Equal, v, Constant(cases[0].num, t), Temp(g, Int)), JumpIfNotZero(Temp(g, Int), cases[0].unique)]
  }

  /** A function body, closed by a return when its last operation is not one. */
  function LowerFunction(body: Flat, isVoid: bool, g: int, n: int): FlatCode {
    var c := LowerFlat(body, g, n);
    if c.ops != [] && c.ops[|c.ops| - 1].Ret? then c
    else c.(ops := c.ops + [Ret(if isVoid then None else Some(Constant(0, Char)))])
  }
}
