/** IR lowering as the compiler performs it: a recursive walk over the tree that
    appends to lists of operations and counts up two shared counters. Every
    method is proved to stop exactly at a left side that lowering cannot handle,
    and else to produce the code of the function of the same purpose in `Lowering`,
    whose meaning the simulation lemmas are about. */
module IrBuilder {
  import opened Wrappers
  import opened CTypes
  import opened CAst
  import opened Ir
  import opened Lowering
  import opened Lvalues
  import ExprSimulation

  /** What a result is before there is one. */
  const NO_VALUE: IrVal := Constant(0, Char)

  /** The code of expressions with at most one operand, which is lowered first. */
  function OperandOf(e: Expr, cached: bool): Option<Expr> {
    match e
    case Paren(i) => Some(i)
    case Unary(_, o, _) => Some(o)
    case Twin(s) => if cached then None else Some(s)
    case Deref(p, _) => Some(if Unparen(p).AddressOf? then Unparen(p).lvalue else p)
    case AddressOf(o, _) => Some(if Unparen(o).Deref? then Unparen(o).pointer else o)
    case Cast(f, _) => Some(f)
    case _ => None
  }

  /** What follows the operand, if anything does. */
  function LastOf(e: Expr, v: IrVal, g: int): Option<IrOp> {
    match e
    case Unary(op, _, t) => Some(UnaryOf(op, v, Temp(g, t)))
    case Deref(p, t) => if Unparen(p).AddressOf? then None else Some(Load(v, Temp(g, t)))
    case AddressOf(o, t) => if Unparen(o).Deref? then None else Some(GetAddress(v, Temp(g, t)))
    case Cast(f, t) => if TypeOf(f) == t then None else Some(CastOp(TypeOf(f), t, v, Temp(g, t)))
    case _ => None
  }

  lemma OneOperandCode(e: Expr, ud: Option<IrVal>, g: int, n: int)
    ensures e.Const? ==> LowerExpr(e, ud, g, n) == ExprCode([], Constant(e.num, e.cty), g, n)
    ensures e.Var? ==> LowerExpr(e, ud, g, n) == ExprCode([], Variable(e.loc, e.vty), g, n)
    ensures e.Twin? && ud.Some? ==> LowerExpr(e, ud, g, n) == ExprCode([], ud.value, g, n)
    ensures var o := OperandOf(e, ud.Some?);
            o.Some? ==>
              var c := LowerExpr(o.value, if e.Twin? then None else ud, g, n);
              var last := LastOf(e, c.ret, c.gen);
              LowerExpr(e, ud, g, n) ==
              if last.None? then c else ExprCode(c.ops + [last.value], Temp(c.gen, TypeOf(e)), c.gen + 1, c.lab)
  {
    hide CastOp;
  }

  /** The code of an assignment, by what it works on. */
  lemma AssignmentCode(a: Expr, ud: Option<IrVal>, g: int, n: int)
    requires a.Assign? && AssignmentLvalue(a).Some?
    ensures LowerExpr(a, ud, g, n) ==
            var lvalue := AssignmentLvalue(a).value;
            if lvalue.Direct? then
              var b := LowerExpr(a.source, None, g, n);
              ExprCode(b.ops + [Copy(b.ret, lvalue.place)], b.ret, b.gen, b.lab)
            else
              var t := Unparen(a.target).dty;
              var p := LowerExpr(lvalue.pointer, ud, g, n);
              var glue := Temp(p.gen, t);
              var b := LowerExpr(a.source, if a.compound then Some(glue) else None, if a.compound then p.gen + 1 else p.gen, p.lab);
              ExprCode(p.ops + (if a.compound then [Load(p.ret, glue)] else []) + b.ops + [Store(b.ret, p.ret)], b.ret, b.gen, b.lab)
  {
    var u := Unparen(a.target);
    if u.Deref? {
      ExprSimulation.UnparenLowering(u.pointer, ud, g, n);
      var p := LowerExpr(u.pointer, ud, g, n);
      AssignThroughCode(a, ud, g, n);
      assert p.ops + [] == p.ops;
      hide LowerExpr;
    }
  }

  lemma AssignThroughCode(a: Expr, ud: Option<IrVal>, g: int, n: int)
    requires a.Assign? && Unparen(a.target).Deref?
    ensures var u := Unparen(a.target);
            var p := LowerExpr(u.pointer, ud, g, n);
            var glue := Temp(p.gen, u.dty);
            LowerExpr(a, ud, g, n) ==
            if a.compound then
              var b := LowerExpr(a.source, Some(glue), p.gen + 1, p.lab);
              ExprCode(p.ops + [Load(p.ret, glue)] + b.ops + [Store(b.ret, p.ret)], b.ret, b.gen, b.lab)
            else
              var b := LowerExpr(a.source, None, p.gen, p.lab);
              ExprCode(p.ops + b.ops + [Store(b.ret, p.ret)], b.ret, b.gen, b.lab)
  {
  }

  /** The same for a step. */
  lemma StepCode(a: Expr, ud: Option<IrVal>, g: int, n: int)
    requires a.IncDec? && AssignmentLvalue(a).Some?
    ensures LowerExpr(a, ud, g, n) ==
            var lvalue := AssignmentLvalue(a).value;
            if lvalue.Direct? then
              var stash := Temp(g, a.ity);
              ExprCode((if a.prefix then [] else [Copy(lvalue.place, stash)]) + [IncDecOp(a.increment, lvalue.place, a.ity)],
                       if a.prefix then lvalue.place else stash, if a.prefix then g else g + 1, n)
            else
              var p := LowerExpr(lvalue.pointer, ud, g, n);
              var work, stash := Temp(p.gen, Unparen(a.place).dty), Temp(p.gen + 1, a.ity);
              ExprCode(p.ops + (if a.prefix then [] else [Load(p.ret, stash)])
                       + [Load(p.ret, work), IncDecOp(a.increment, work, a.ity), Store(work, p.ret)],
                       if a.prefix then work else stash, if a.prefix then p.gen + 1 else p.gen + 2, p.lab)
  {
    var u := Unparen(a.place);
    if u.Deref? {
      ExprSimulation.UnparenLowering(u.pointer, ud, g, n);
    } else {
      var place, stash := DirectPlace(u, a.ity), Temp(g, a.ity);
      assert [] + [IncDecOp(a.increment, place, a.ity)] == [IncDecOp(a.increment, place, a.ity)];
      assert [Copy(place, stash)] + [IncDecOp(a.increment, place, a.ity)] == [Copy(place, stash), IncDecOp(a.increment, place, a.ity)];
    }
  }

  lemma FlatUnfolds(f: Flat, g: int, n: int)
    ensures f.Nil? ==> LowersFlat(f) && LowerFlat(f, g, n) == FlatCode([], g, n)
    ensures f.Cons? ==> (LowersFlat(f) <==> LowersStmt(f.car) && LowersFlat(f.cdr))
  {
    hide LowerStmt, AssignersStmt;
  }

  lemma SwitchParts(s: Stmt)
    requires s.Switch?
    ensures LowersStmt(s) <==> Lowers(s.control, false) && LowersFlat(s.switchBody)
  {
    hide Assigners, AssignersFlat;
  }

  lemma LogicalUnfolds(a: Expr, ud: Option<IrVal>, g: int, n: int)
    requires a.Logical?
    ensures Lowers(a, ud.Some?) <==> Lowers(a.lhs, ud.Some?) && Lowers(a.rhs, ud.Some?)
    ensures var x := LowerExpr(a.lhs, ud, g, n + 1);
            var y := LowerExpr(a.rhs, ud, x.gen, x.lab);
            var dst := Temp(y.gen, Int);
            LowerExpr(a, ud, g, n) == ExprCode(
              x.ops + [ShortCircuit(a.isAnd, x.ret, n)] + (y.ops + [ShortCircuit(a.isAnd, y.ret, n)] + LogicalFooter(a.isAnd, dst, n, y.lab)),
              dst, y.gen + 1, y.lab + 1)
  {
    var x := LowerExpr(a.lhs, ud, g, n + 1);
    var y := LowerExpr(a.rhs, ud, x.gen, x.lab);
    Joined(x.ops, ShortCircuit(a.isAnd, x.ret, n), y.ops, ShortCircuit(a.isAnd, y.ret, n), LogicalFooter(a.isAnd, Temp(y.gen, Int), n, y.lab));
  }

  lemma Joined(a: seq<IrOp>, x: IrOp, b: seq<IrOp>, y: IrOp, c: seq<IrOp>)
    ensures a + [x] + b + [y] + c == a + [x] + (b + [y] + c)
  {
  }

  lemma CaseJumpsFrom(v: IrVal, t: CType, cases: seq<CaseEntry>, g: int)
    requires cases != []
    ensures CaseJumps(v, t, cases, g) == CaseJumps(v, t, cases[1..], g + 1)
            + [BinaryOf(Equal, v, Constant(cases[0].num, t), Temp(g, Int)), JumpIfNotZero(Temp(g, Int), cases[0].unique)]
  {
  }

  lemma NoCaseJumps(v: IrVal, t: CType, g: int)
    ensures CaseJumps(v, t, [], g) == []
  {
  }

  class Intermediate {
    var generator: int
    var labels: int

    constructor (baseId: int, baseLabel: int)
      ensures generator == baseId && labels == baseLabel
    {
      generator, labels := baseId, baseLabel;
    }

    method FreshTemp(t: CType) returns (v: IrVal)
      modifies this`generator
      ensures v == Temp(old(generator), t) && generator == old(generator) + 1
    {
      v := Variable(Tmp(generator), t);
      generator := generator + 1;
    }

    method FreshLabel() returns (l: int)
      modifies this`labels
      ensures l == old(labels) && labels == old(labels) + 1
    {
      l := labels;
      labels := labels + 1;
    }

    method IrExpr(a: Expr, ud: Option<IrVal>) returns (status: Status, ops: seq<IrOp>, ret: IrVal)
      modifies this
      ensures status.Success? <==> Lowers(a, ud.Some?)
      ensures status.Success? ==> ExprCode(ops, ret, generator, labels) == LowerExpr(a, ud, old(generator), old(labels))
      decreases a, 1
    {
      hide Assigners, AllLower, Lowers, LowerExpr, CastOp;
      OneOperand(a, ud.Some?);
      OneOperandCode(a, ud, generator, labels);
      status, ops, ret := Success, [], NO_VALUE;
      match a
      case Const(num, t) => ops, ret := [], Constant(num, t);
      case Var(l, t) => ops, ret := [], Variable(l, t);
      case Paren(i) => ops, ret :- IrExpr(i, ud);
      case Unary(op, o, t) =>
        ops, ret :- IrExpr(o, ud);
        var dst := FreshTemp(t);
        ops, ret := ops + [UnaryOf(op, ret, dst)], dst;
      case Binary(_, _, _, _) => ops, ret :- IrBinary(a, ud);
      case Logical(_, _, _) => ops, ret :- IrLogicalOp(a, ud);
      case Ternary(_, _, _, _) => ops, ret :- IrTernary(a, ud);
      case Assign(_, _, _, _) => ops, ret :- IrAssignment(a, ud);
      case Twin(s) =>
        if ud.Some? {
          ops, ret := [], ud.value;
        } else {
          ops, ret :- IrExpr(s, None);
        }
      case IncDec(_, _, _, _) => ops, ret :- IrIncrDecr(a, ud);
      case Deref(p, t) =>
        if Unparen(p).AddressOf? {
          ops, ret :- IrExpr(Unparen(p).lvalue, ud);
        } else {
          ops, ret :- IrExpr(p, ud);
          var dst := FreshTemp(t);
          ops, ret := ops + [Load(ret, dst)], dst;
        }
      case AddressOf(o, t) =>
        if Unparen(o).Deref? {
          ops, ret :- IrExpr(Unparen(o).pointer, ud);
        } else {
          ops, ret :- IrExpr(o, ud);
          var dst := FreshTemp(t);
          ops, ret := ops + [GetAddress(ret, dst)], dst;
        }
      case Cast(f, t) =>
        ops, ret :- IrExpr(f, ud);
        if TypeOf(f) != t {
          var dst := FreshTemp(t);
          ops, ret := ops + [CastOp(TypeOf(f), t, ret, dst)], dst;
        }
    }

    /** Both operands, then pointer arithmetic or a plain operator. */
    method IrBinary(a: Expr, ud: Option<IrVal>) returns (status: Status, ops: seq<IrOp>, ret: IrVal)
      requires a.Binary?
      modifies this
      ensures status.Success? <==> Lowers(a, ud.Some?)
      ensures status.Success? ==> ExprCode(ops, ret, generator, labels) == LowerExpr(a, ud, old(generator), old(labels))
      decreases a, 0
    {
      status, ops, ret := Success, [], NO_VALUE;
      var lt, rt := TypeOf(a.left), TypeOf(a.right);
      var left, leftReturn :- IrExpr(a.left, ud);
      var right, rightReturn :- IrExpr(a.right, ud);
      ops := left + right;
      if a.bop.Add? && (lt.Pointer? || rt.Pointer?) {
        ret := FreshTemp(a.bty);
        if lt.Pointer? {
          ops := ops + [PointerAdd(leftReturn, rightReturn, lt.referent.Size(), ret)];
        } else {
          ops := ops + [PointerAdd(rightReturn, leftReturn, rt.referent.Size(), ret)];
        }
      } else if a.bop.Subtract? && lt.Pointer? && rt.Pointer? {
        var difference := FreshTemp(a.bty);
        ret := FreshTemp(a.bty);
        ops := ops + [BinaryOf(Subtract, leftReturn, rightReturn, difference),
                      BinaryOf(Divide, difference, Constant(lt.referent.Size(), a.bty), ret)];
      } else if a.bop.Subtract? && lt.Pointer? {
        var negated := FreshTemp(rt);
        ret := FreshTemp(a.bty);
        ops := ops + [UnaryOf(Negate, rightReturn, negated), PointerAdd(leftReturn, negated, lt.referent.Size(), ret)];
      } else {
        ret := FreshTemp(a.bty);
        ops := ops + [BinaryOf(a.bop, leftReturn, rightReturn, ret)];
      }
    }

    method IrLogicalOp(a: Expr, ud: Option<IrVal>) returns (status: Status, ops: seq<IrOp>, ret: IrVal)
      requires a.Logical?
      modifies this
      ensures status.Success? <==> Lowers(a, ud.Some?)
      ensures status.Success? ==> ExprCode(ops, ret, generator, labels) == LowerExpr(a, ud, old(generator), old(labels))
      decreases a, 0
    {
      hide LowerExpr, Assigners, AllLower, Lowers;
      LogicalUnfolds(a, ud, generator, labels);
      status, ops, ret := Success, [], NO_VALUE;
      var shortCircuit := FreshLabel();
      var left, leftReturn :- IrExpr(a.lhs, ud);
      left := left + [ShortCircuit(a.isAnd, leftReturn, shortCircuit)];
      var right, rightReturn :- IrExpr(a.rhs, ud);
      right := right + [ShortCircuit(a.isAnd, rightReturn, shortCircuit)];
      var end := FreshLabel();
      ret := FreshTemp(Int);
      var footer := [Copy(Constant(if a.isAnd then 1 else 0, Char), ret),
                     Jump(end),
                     LabelAt(shortCircuit),
                     Copy(Constant(if a.isAnd then 0 else 1, Char), ret),
                     LabelAt(end)];
      ops := left + (right + footer);
    }

    method IrTernary(a: Expr, ud: Option<IrVal>) returns (status: Status, ops: seq<IrOp>, ret: IrVal)
      requires a.Ternary?
      modifies this
      ensures status.Success? <==> Lowers(a, ud.Some?)
      ensures status.Success? ==> ExprCode(ops, ret, generator, labels) == LowerExpr(a, ud, old(generator), old(labels))
      decreases a, 0
    {
      status, ops, ret := Success, [], NO_VALUE;
      var condJumpTo := FreshLabel();
      var endJumpTo := FreshLabel();
      ret := FreshTemp(a.tty);
      var cond, condReturn :- IrExpr(a.cond, ud);
      var thn, thnReturn :- IrExpr(a.thn, ud);
      var els, elsReturn :- IrExpr(a.els, ud);
      ops := cond + [JumpIfZero(condReturn, condJumpTo)]
      + (thn + [Copy(thnReturn, Variable(ret.loc, TypeOf(a.thn)))] + [Jump(endJumpTo), LabelAt(condJumpTo)])
      + (els + [Copy(elsReturn, Variable(ret.loc, TypeOf(a.els)))] + [LabelAt(endJumpTo)]);
    }

    /** Through a pointer, a compound assignment loads the old value once, for
        the twin on its right-hand side. */
    method IrAssignment(a: Expr, ud: Option<IrVal>) returns (status: Status, ops: seq<IrOp>, ret: IrVal)
      requires a.Assign?
      modifies this
      ensures status.Success? <==> Lowers(a, ud.Some?)
      ensures status.Success? ==> ExprCode(ops, ret, generator, labels) == LowerExpr(a, ud, old(generator), old(labels))
      decreases a, 0
    {
      hide Assigners, AllLower, Lowers, LowerExpr, AssignmentLvalue;
      status, ops, ret := Success, [], NO_VALUE;
      AssignerParts(a, ud.Some?);
      var found := AssignmentLvalue(a);
      if found.None? {
        status := Stopped;
        return;
      }
      AssignmentCode(a, ud, generator, labels);
      var lvalue := found.value;
      var u := Unparen(a.target);
      var address: seq<IrOp>, glue: seq<IrOp>, twin: Option<IrVal> := [], [], None;
      var place: IrVal;
      if lvalue.Direct? {
        place := lvalue.place;
      } else {
        address, place :- IrExpr(lvalue.pointer, ud);
        if a.compound {
          var value := FreshTemp(u.dty);
          glue, twin := [Load(place, value)], Some(value);
        }
      }
      var rhs;
      rhs, ret :- IrExpr(a.source, twin);
      var assigner := if lvalue.Direct? then Copy(ret, place) else Store(ret, place);
      ops := address + glue + rhs + [assigner];
    }

    method IrIncrDecr(a: Expr, ud: Option<IrVal>) returns (status: Status, ops: seq<IrOp>, ret: IrVal)
      requires a.IncDec?
      modifies this
      ensures status.Success? <==> Lowers(a, ud.Some?)
      ensures status.Success? ==> ExprCode(ops, ret, generator, labels) == LowerExpr(a, ud, old(generator), old(labels))
      decreases a, 0
    {
      hide Assigners, AllLower, Lowers, LowerExpr, AssignmentLvalue;
      status, ops, ret := Success, [], NO_VALUE;
      AssignerParts(a, ud.Some?);
      var found := AssignmentLvalue(a);
      if found.None? {
        status := Stopped;
        return;
      }
      StepCode(a, ud, generator, labels);
      var lvalue := found.value;
      var u := Unparen(a.place);
      var address: seq<IrOp>, load: seq<IrOp>, store: seq<IrOp>, stash: seq<IrOp> := [], [], [], [];
      var pointer, place: IrVal;
      if lvalue.Direct? {
        place := lvalue.place;
        pointer := place;
      } else {
        address, pointer :- IrExpr(lvalue.pointer, ud);
        place := FreshTemp(u.dty);
        load, store := [Load(pointer, place)], [Store(place, pointer)];
      }
      if a.prefix {
        ret := place;
      } else {
        ret := FreshTemp(a.ity);
        stash := [if lvalue.Direct? then Copy(place, ret) else Load(pointer, ret)];
      }
      ops := address + stash + load + [IncDecOp(a.increment, place, a.ity)] + store;
    }

    // ----------------------------------------------------------- statements

    method IrOptional(e: Option<Expr>) returns (status: Status, ops: seq<IrOp>)
      modifies this
      ensures status.Success? <==> AllLower(AssignersOptional(e))
      ensures status.Success? ==> FlatCode(ops, generator, labels) == LowerOptional(e, old(generator), old(labels))
    {
      status, ops := Success, [];
      if e.Some? {
        var ret;
        ops, ret :- IrExpr(e.value, None);
      }
    }

    method IrGuard(e: Option<Expr>, goEnd: int) returns (status: Status, ops: seq<IrOp>)
      modifies this
      ensures status.Success? <==> AllLower(AssignersOptional(e))
      ensures status.Success? ==> FlatCode(ops, generator, labels) == LowerGuard(e, goEnd, old(generator), old(labels))
    {
      status, ops := Success, [];
      if e.Some? {
        var ret;
        ops, ret :- IrExpr(e.value, None);
        ops := ops + [JumpIfZero(ret, goEnd)];
      }
    }

    method IrStatement(s: Stmt) returns (status: Status, ops: seq<IrOp>)
      modifies this
      ensures status.Success? <==> LowersStmt(s)
      ensures status.Success? ==> FlatCode(ops, generator, labels) == LowerStmt(s, old(generator), old(labels))
      decreases s, 1
    {
      status, ops := Success, [];
      match s
      case Expression(e) => ops :- IrOptional(Some(e));
      case Empty =>
      case Declare(l, t, init) =>
        if init.Some? {
          var ret;
          ops, ret :- IrExpr(init.value, None);
          ops := ops + [Copy(ret, Variable(l, t))];
        }
      case Return(result) =>
        if result.None? {
          ops := [Ret(None)];
        } else {
          var ret;
          ops, ret :- IrExpr(result.value, None);
          ops := ops + [Ret(Some(ret))];
        }
      case Block(f) => ops :- IrBlock(f);
      case IfElse(_, _, _) => ops :- IrIfElse(s);
      case Loop(_, _, _, _, _, _, _) => ops :- IrLoop(s);
      case Break(l) => ops := [Jump(l)];
      case Continue(l) => ops := [Jump(l)];
      case Goto(_, l) => ops := [Jump(l)];
      case Label(_, l) => ops := [LabelAt(l)];
      case Switch(_, _, _, _, _) => ops :- IrSwitch(s);
      case Case(_, l) => ops := [LabelAt(l)];
      case Default(l) => ops := [LabelAt(l)];
    }

    method IrBlock(f: Flat) returns (status: Status, ops: seq<IrOp>)
      modifies this
      ensures status.Success? <==> LowersFlat(f)
      ensures status.Success? ==> FlatCode(ops, generator, labels) == LowerFlat(f, old(generator), old(labels))
      decreases f, 0
    {
      hide LowerStmt, LowersStmt, LowersFlat, AssignersStmt, AssignersFlat, AllLower;
      status, ops := Success, [];
      var cursor := f;
      while cursor.Cons?
        invariant status.Success? && (cursor == f || cursor < f)
        invariant LowersFlat(f) <==> LowersFlat(cursor)
        invariant LowerFlat(f, old(generator), old(labels))
               == var rest := LowerFlat(cursor, generator, labels); FlatCode(ops + rest.ops, rest.gen, rest.lab)
        decreases cursor
      {
        FlatUnfolds(cursor, generator, labels);
        var one :- IrStatement(cursor.car);
        ops := ops + one;
        cursor := cursor.cdr;
      }
      FlatUnfolds(cursor, generator, labels);
    }

    method IrIfElse(s: Stmt) returns (status: Status, ops: seq<IrOp>)
      requires s.IfElse?
      modifies this
      ensures status.Success? <==> LowersStmt(s)
      ensures status.Success? ==> FlatCode(ops, generator, labels) == LowerStmt(s, old(generator), old(labels))
      decreases s, 0
    {
      status, ops := Success, [];
      var condJumpTo := FreshLabel();
      var endJumpTo := -1;
      if s.elseClause.Some? {
        endJumpTo := FreshLabel();
      }
      var cond, condReturn :- IrExpr(s.condition, None);
      var thn :- IrBlock(s.thenClause);
      ops := cond + [JumpIfZero(condReturn, condJumpTo)] + thn;
      if s.elseClause.Some? {
        var els :- IrBlock(s.elseClause.value);
        ops := ops + [Jump(endJumpTo), LabelAt(condJumpTo)] + els + [LabelAt(endJumpTo)];
      } else {
        ops := ops + [LabelAt(condJumpTo)];
      }
    }

    method IrLoop(s: Stmt) returns (status: Status, ops: seq<IrOp>)
      requires s.Loop?
      modifies this
      ensures status.Success? <==> LowersStmt(s)
      ensures status.Success? ==> FlatCode(ops, generator, labels) == LowerStmt(s, old(generator), old(labels))
      decreases s, 0
    {
      status, ops := Success, [];
      var precond :- IrGuard(s.precond, s.labelEnd);
      var body :- IrBlock(s.body);
      var incr :- IrOptional(s.incr);
      var postcond :- IrGuard(s.postcond, s.labelEnd);
      ops := [LabelAt(s.labelStart)] + precond + body + [LabelAt(s.labelContinue)] + incr + postcond
      + [Jump(s.labelStart), LabelAt(s.labelEnd)];
    }

    /** The tests are placed one in front of the other. */
    method IrSwitch(s: Stmt) returns (status: Status, ops: seq<IrOp>)
      requires s.Switch?
      modifies this
      ensures status.Success? <==> LowersStmt(s)
      ensures status.Success? ==> FlatCode(ops, generator, labels) == LowerStmt(s, old(generator), old(labels))
      decreases s, 0
    {
      hide CaseJumps, LowerExpr, LowerFlat, LowerStmt, Assigners, AssignersFlat, AllLower;
      SwitchParts(s);
      SwitchUnfolds(s, generator, labels);
      status, ops := Success, [];
      var control, controlReturn :- IrExpr(s.control, None);
      ghost var g := generator;
      var t := TypeOf(s.control);
      var jumpers: seq<IrOp> := [];
      for i := 0 to |s.labelCases|
        invariant generator == g + i
        invariant labels == LowerExpr(s.control, None, old(generator), old(labels)).lab
        invariant CaseJumps(controlReturn, t, s.labelCases, g)
               == CaseJumps(controlReturn, t, s.labelCases[i..], generator) + jumpers
      {
        var equal := FreshTemp(Int);
        jumpers := [BinaryOf(Equal, controlReturn, Constant(s.labelCases[i].num, t), equal),
                    JumpIfNotZero(equal, s.labelCases[i].unique)] + jumpers;
        assert s.labelCases[i..][1..] == s.labelCases[i + 1..];
        CaseJumpsFrom(controlReturn, t, s.labelCases[i..], generator - 1);
      }
      var dflt := if s.labelDefault >= 0 then [Jump(s.labelDefault)] else [];
      NoCaseJumps(controlReturn, t, generator);
      assert jumpers == CaseJumps(controlReturn, t, s.labelCases, g);
      var body :- IrBlock(s.switchBody);
      ops := control + jumpers + dflt + [Jump(s.switchEnd)] + body + [LabelAt(s.switchEnd)];
    }

    method IrFunc(body: Flat, isVoid: bool) returns (status: Status, ops: seq<IrOp>)
      modifies this
      ensures status.Success? <==> LowersFlat(body)
      ensures status.Success? ==> FlatCode(ops, generator, labels) == LowerFunction(body, isVoid, old(generator), old(labels))
    {
      status, ops := Success, [];
      ops :- IrBlock(body);
      if ops == [] || !ops[|ops| - 1].Ret? {
        ops := ops + [Ret(if isVoid then None else Some(Constant(0, Char)))];
      }
    }
  }
}
