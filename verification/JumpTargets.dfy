/** Every jump of a lowered function goes to a label of the same function. */
module JumpTargets {
  import opened Wrappers
  import opened CTypes
  import opened CAst
  import opened Ir
  import opened CSemantics
  import opened Lowering
  import opened StmtSimulation
  import opened LabelUniqueness
  import opened LoopLabels
  import opened GotoLabels

  function TargetOf(op: IrOp): set<int> {
    match op
    case Jump(l) => {l}
    case JumpIfZero(_, l) => {l}
    case JumpIfNotZero(_, l) => {l}
    case _ => {}
  }

  /** The numbers that a list of operations jumps to. */
  ghost function JumpsIn(ops: seq<IrOp>): set<int> {
    if ops == [] then {} else JumpsIn(ops[..|ops| - 1]) + TargetOf(ops[|ops| - 1])
  }

  lemma {:induction false} JumpsJoin(a: seq<IrOp>, b: seq<IrOp>)
    ensures JumpsIn(a + b) == JumpsIn(a) + JumpsIn(b)
    decreases |b|
  {
    if b == [] {
      assert a + b == a;
    } else {
      assert (a + b)[..|a + b| - 1] == a + b[..|b| - 1];
      JumpsJoin(a, b[..|b| - 1]);
    }
  }

  lemma IdsJoin(a: seq<IrOp>, b: seq<IrOp>)
    ensures Ids(a + b) == Ids(a) + Ids(b)
  {
    var c := a + b;
    forall x ensures x in Ids(c) <==> x in Ids(a) + Ids(b) {
      if x in Ids(c) {
        var i :| 0 <= i < |c| && c[i].LabelAt? && c[i].id == x;
        assert if i < |a| then a[i] == c[i] else b[i - |a|] == c[i];
      }
      if x in Ids(a) {
        var i :| 0 <= i < |a| && a[i].LabelAt? && a[i].id == x;
        assert c[i] == a[i];
      }
      if x in Ids(b) {
        var i :| 0 <= i < |b| && b[i].LabelAt? && b[i].id == x;
        assert c[|a| + i] == b[i];
      }
    }
  }

  /** Every jump goes to a label of the list or to one of `outer`. */
  ghost predicate Closed(ops: seq<IrOp>, outer: set<int>) {
    JumpsIn(ops) <= Ids(ops) + outer
  }

  lemma Joined(a: seq<IrOp>, b: seq<IrOp>, outer: set<int>)
    requires Closed(a, outer) && Closed(b, outer)
    ensures Closed(a + b, outer)
  {
    JumpsJoin(a, b);
    IdsJoin(a, b);
  }

  lemma One(op: IrOp, outer: set<int>)
    requires TargetOf(op) <= outer
    ensures Closed([op], outer)
  {
    assert [op][..0] == [];
  }

  lemma Then(a: seq<IrOp>, op: IrOp, outer: set<int>)
    requires Closed(a, outer) && TargetOf(op) <= outer
    ensures Closed(a + [op], outer)
  {
    One(op, outer);
    Joined(a, [op], outer);
  }

  lemma Widen(a: seq<IrOp>, outer: set<int>, wider: set<int>)
    requires Closed(a, outer) && outer <= wider
    ensures Closed(a, wider)
  {
  }

  /** A label inside the list need not be counted as an outer one. */
  lemma Resolve(a: seq<IrOp>, i: nat, outer: set<int>, x: int)
    requires i < |a| && a[i] == LabelAt(x) && Closed(a, outer + {x})
    ensures Closed(a, outer)
  {
    assert x in Ids(a);
  }

  // -------------------------------------------------------------- expressions

  lemma {:induction false} ExprJumps(e: Expr, ud: Option<IrVal>, g: int, n: int)
    ensures Closed(LowerExpr(e, ud, g, n).ops, {})
    decreases e, 1
  {
    hide Ids, JumpsIn;
    match e
    case Const(_, _) => Nothing();
    case Var(_, _) => Nothing();
    case Paren(i) => ExprJumps(i, ud, g, n);
    case Unary(op, o, t) =>
      var c := LowerExpr(o, ud, g, n);
      ExprJumps(o, ud, g, n);
      Then(c.ops, UnaryOf(op, c.ret, Temp(c.gen, t)), {});
    case Binary(op, x, y, t) =>
      var a := LowerExpr(x, ud, g, n);
      var b := LowerExpr(y, ud, a.gen, a.lab);
      ExprJumps(x, ud, g, n);
      ExprJumps(y, ud, a.gen, a.lab);
      Joined(a.ops, b.ops, {});
      FinishJumps(op, TypeOf(x), TypeOf(y), t, a.ret, b.ret, b.gen);
      Joined(a.ops + b.ops, FinishBinary(op, TypeOf(x), TypeOf(y), t, a.ret, b.ret, b.gen).ops, {});
    case Logical(_, _, _) => LogicalJumps(e, ud, g, n);
    case Ternary(_, _, _, _) => TernaryJumps(e, ud, g, n);
    case Assign(_, _, _, _) => AssignJumps(e, ud, g, n);
    case Twin(s) =>
      Nothing();
      if ud.None? {
        ExprJumps(s, None, g, n);
      }
    case IncDec(_, _, _, _) => IncDecJumps(e, ud, g, n);
    case Deref(p, t) =>
      if Unparen(p).AddressOf? {
        ExprJumps(Unparen(p).lvalue, ud, g, n);
      } else {
        var c := LowerExpr(p, ud, g, n);
        ExprJumps(p, ud, g, n);
        Then(c.ops, Load(c.ret, Temp(c.gen, t)), {});
      }
    case AddressOf(o, t) =>
      if Unparen(o).Deref? {
        ExprJumps(Unparen(o).pointer, ud, g, n);
      } else {
        var c := LowerExpr(o, ud, g, n);
        ExprJumps(o, ud, g, n);
        Then(c.ops, GetAddress(c.ret, Temp(c.gen, t)), {});
      }
    case Cast(f, t) =>
      var c := LowerExpr(f, ud, g, n);
      ExprJumps(f, ud, g, n);
      Then(c.ops, CastOp(TypeOf(f), t, c.ret, Temp(c.gen, t)), {});
  }

  lemma Nothing()
    ensures Closed([], {})
  {
  }

  lemma FinishJumps(op: BinaryOp, lt: CType, rt: CType, t: CType, a: IrVal, b: IrVal, g: int)
    ensures Closed(FinishBinary(op, lt, rt, t, a, b, g).ops, {})
  {
    var f := FinishBinary(op, lt, rt, t, a, b, g).ops;
    One(f[0], {});
    if |f| == 2 {
      Then([f[0]], f[1], {});
      assert f == [f[0]] + [f[1]];
    } else {
      assert f == [f[0]];
    }
  }

  lemma {:induction false} LogicalJumps(e: Expr, ud: Option<IrVal>, g: int, n: int)
    requires e.Logical?
    ensures Closed(LowerExpr(e, ud, g, n).ops, {})
    decreases e, 0
  {
    var a := LowerExpr(e.lhs, ud, g, n + 1);
    var b := LowerExpr(e.rhs, ud, a.gen, a.lab);
    ExprJumps(e.lhs, ud, g, n + 1);
    ExprJumps(e.rhs, ud, a.gen, a.lab);
    var x, y, dst, end := ShortCircuit(e.isAnd, a.ret, n), ShortCircuit(e.isAnd, b.ret, n), Temp(b.gen, Int), b.lab;
    var f := LogicalFooter(e.isAnd, dst, n, end);
    assert LowerExpr(e, ud, g, n).ops == a.ops + [x] + b.ops + [y] + f;
    FooterJumps(e.isAnd, dst, n, end);
    assert f[2] == LabelAt(n);
    hide LowerExpr, Ids, JumpsIn, LogicalFooter;
    Widen(a.ops, {}, {} + {n});
    Widen(b.ops, {}, {} + {n});
    Widen(f, {}, {} + {n});
    Then(a.ops, x, {} + {n});
    Joined(a.ops + [x], b.ops, {} + {n});
    Then(a.ops + [x] + b.ops, y, {} + {n});
    Joined(a.ops + [x] + b.ops + [y], f, {} + {n});
    Resolve(a.ops + [x] + b.ops + [y] + f, |a.ops| + |b.ops| + 4, {}, n);
  }

  lemma FooterJumps(isAnd: bool, dst: IrVal, l: int, end: int)
    ensures Closed(LogicalFooter(isAnd, dst, l, end), {})
  {
    var f := LogicalFooter(isAnd, dst, l, end);
    var out := {} + {end};
    One(f[0], out);
    Then([f[0]], f[1], out);
    Then([f[0]] + [f[1]], f[2], out);
    Then([f[0]] + [f[1]] + [f[2]], f[3], out);
    Then([f[0]] + [f[1]] + [f[2]] + [f[3]], f[4], out);
    assert f == [f[0]] + [f[1]] + [f[2]] + [f[3]] + [f[4]];
    Resolve(f, 4, {}, end);
  }

  lemma {:induction false} TernaryJumps(e: Expr, ud: Option<IrVal>, g: int, n: int)
    requires e.Ternary?
    ensures Closed(LowerExpr(e, ud, g, n).ops, {})
    decreases e, 0
  {
    hide LowerExpr, Ids, JumpsIn, Closed;
    var k := LowerExpr(e.cond, ud, g + 1, n + 2);
    var a := LowerExpr(e.thn, ud, k.gen, k.lab);
    var b := LowerExpr(e.els, ud, a.gen, a.lab);
    ExprJumps(e.cond, ud, g + 1, n + 2);
    ExprJumps(e.thn, ud, k.gen, k.lab);
    ExprJumps(e.els, ud, a.gen, a.lab);
    var ca, cb := Copy(a.ret, Temp(g, TypeOf(e.thn))), Copy(b.ret, Temp(g, TypeOf(e.els)));
    TernaryOps(e, ud, g, n);
    Then(a.ops, ca, {});
    Then(b.ops, cb, {});
    TwoArms(k.ops, a.ops + [ca], b.ops + [cb], k.ret, n, {});
  }

  lemma TernaryOps(e: Expr, ud: Option<IrVal>, g: int, n: int)
    requires e.Ternary?
    ensures var k := LowerExpr(e.cond, ud, g + 1, n + 2);
            var a := LowerExpr(e.thn, ud, k.gen, k.lab);
            var b := LowerExpr(e.els, ud, a.gen, a.lab);
            var ca, cb := Copy(a.ret, Temp(g, TypeOf(e.thn))), Copy(b.ret, Temp(g, TypeOf(e.els)));
            LowerExpr(e, ud, g, n).ops ==
            k.ops + [JumpIfZero(k.ret, n)] + (a.ops + [ca]) + [Jump(n + 1)] + [LabelAt(n)] + (b.ops + [cb]) + [LabelAt(n + 1)]
  {
    var k := LowerExpr(e.cond, ud, g + 1, n + 2);
    var a := LowerExpr(e.thn, ud, k.gen, k.lab);
    var b := LowerExpr(e.els, ud, a.gen, a.lab);
    var ca, cb := Copy(a.ret, Temp(g, TypeOf(e.thn))), Copy(b.ret, Temp(g, TypeOf(e.els)));
    Spread(k.ops + [JumpIfZero(k.ret, n)], a.ops + [ca], Jump(n + 1), LabelAt(n), b.ops + [cb], LabelAt(n + 1));
  }

  lemma Spread(k: seq<IrOp>, a: seq<IrOp>, x: IrOp, y: IrOp, b: seq<IrOp>, z: IrOp)
    ensures k + (a + [x, y]) + (b + [z]) == k + a + [x] + [y] + b + [z]
  {
  }

  /** The common shape of an if with an else and of the conditional operator. */
  lemma TwoArms(k: seq<IrOp>, a: seq<IrOp>, b: seq<IrOp>, v: IrVal, n: int, out: set<int>)
    requires Closed(k, {}) && Closed(a, out) && Closed(b, out)
    ensures Closed(k + [JumpIfZero(v, n)] + a + [Jump(n + 1)] + [LabelAt(n)] + b + [LabelAt(n + 1)], out)
  {
    hide Ids, JumpsIn;
    var outer := out + {n + 1} + {n};
    var ops := k + [JumpIfZero(v, n)] + a + [Jump(n + 1)] + [LabelAt(n)] + b + [LabelAt(n + 1)];
    Widen(k, {}, outer);
    Widen(a, out, outer);
    Widen(b, out, outer);
    Then(k, JumpIfZero(v, n), outer);
    Joined(k + [JumpIfZero(v, n)], a, outer);
    Then(k + [JumpIfZero(v, n)] + a, Jump(n + 1), outer);
    Then(k + [JumpIfZero(v, n)] + a + [Jump(n + 1)], LabelAt(n), outer);
    Joined(k + [JumpIfZero(v, n)] + a + [Jump(n + 1)] + [LabelAt(n)], b, outer);
    Then(k + [JumpIfZero(v, n)] + a + [Jump(n + 1)] + [LabelAt(n)] + b, LabelAt(n + 1), outer);
    Resolve(ops, |k| + |a| + 2, out + {n + 1}, n);
    Resolve(ops, |ops| - 1, out, n + 1);
  }

  lemma {:induction false} AssignJumps(e: Expr, ud: Option<IrVal>, g: int, n: int)
    requires e.Assign?
    ensures Closed(LowerExpr(e, ud, g, n).ops, {})
    decreases e, 0
  {
    hide Ids, JumpsIn;
    var u := Unparen(e.target);
    if u.Deref? {
      var a := LowerExpr(u.pointer, ud, g, n);
      ExprJumps(u.pointer, ud, g, n);
      var glue := Temp(a.gen, u.dty);
      Then(a.ops, Load(a.ret, glue), {});
      if e.compound {
        var b := LowerExpr(e.source, Some(glue), a.gen + 1, a.lab);
        ExprJumps(e.source, Some(glue), a.gen + 1, a.lab);
        Joined(a.ops + [Load(a.ret, glue)], b.ops, {});
        Then(a.ops + [Load(a.ret, glue)] + b.ops, Store(b.ret, a.ret), {});
      } else {
        var b := LowerExpr(e.source, None, a.gen, a.lab);
        ExprJumps(e.source, None, a.gen, a.lab);
        Joined(a.ops, b.ops, {});
        Then(a.ops + b.ops, Store(b.ret, a.ret), {});
      }
    } else {
      var b := LowerExpr(e.source, None, g, n);
      ExprJumps(e.source, None, g, n);
      Then(b.ops, Copy(b.ret, DirectPlace(u, e.aty)), {});
    }
  }

  lemma {:induction false} IncDecJumps(e: Expr, ud: Option<IrVal>, g: int, n: int)
    requires e.IncDec?
    ensures Closed(LowerExpr(e, ud, g, n).ops, {})
    decreases e, 0
  {
    hide Ids, JumpsIn;
    var u := Unparen(e.place);
    var ops := LowerExpr(e, ud, g, n).ops;
    Nothing();
    if u.Deref? {
      var a := LowerExpr(u.pointer, ud, g, n);
      ExprJumps(u.pointer, ud, g, n);
      var work, stash := Temp(a.gen, u.dty), Temp(a.gen + 1, e.ity);
      var h := if e.prefix then a.ops else a.ops + [Load(a.ret, stash)];
      Then(a.ops, Load(a.ret, stash), {});
      Then(h, Load(a.ret, work), {});
      Then(h + [Load(a.ret, work)], IncDecOp(e.increment, work, e.ity), {});
      Then(h + [Load(a.ret, work)] + [IncDecOp(e.increment, work, e.ity)], Store(work, a.ret), {});
      assert ops == h + [Load(a.ret, work)] + [IncDecOp(e.increment, work, e.ity)] + [Store(work, a.ret)];
    } else {
      var place, stash := DirectPlace(u, e.ity), Temp(g, e.ity);
      One(IncDecOp(e.increment, place, e.ity), {});
      One(Copy(place, stash), {});
      Then([Copy(place, stash)], IncDecOp(e.increment, place, e.ity), {});
      assert ops == (if e.prefix then [] else [Copy(place, stash)]) + [IncDecOp(e.increment, place, e.ity)];
    }
  }

  // --------------------------------------------------------------- statements

  /** What jumps out of a statement may refer to. */
  ghost function Outside(ctx: Targets, inLoop: bool, inSwitch: bool): set<int> {
    ctx.names.Values + (if inLoop || inSwitch then {ctx.brk} else {}) + (if inLoop then {ctx.cont} else {})
  }

  lemma GuardJumps(e: Option<Expr>, end: int, g: int, n: int)
    ensures Closed(LowerGuard(e, end, g, n).ops, {end})
  {
    hide Ids, JumpsIn;
    Nothing();
    if e.Some? {
      var c := LowerExpr(e.value, None, g, n);
      ExprJumps(e.value, None, g, n);
      Widen(c.ops, {}, {end});
      Then(c.ops, JumpIfZero(c.ret, end), {end});
    } else {
      Widen([], {}, {end});
    }
  }

  lemma OptionalJumps(e: Option<Expr>, g: int, n: int)
    ensures Closed(LowerOptional(e, g, n).ops, {})
  {
    Nothing();
    if e.Some? {
      ExprJumps(e.value, None, g, n);
    }
  }

  lemma {:induction false} StmtJumps(s: Stmt, g: int, n: int, ctx: Targets, inLoop: bool, inSwitch: bool)
    requires WellLabelled(s, ctx) && Placed(s, inLoop, inSwitch)
    ensures Closed(LowerStmt(s, g, n).ops, Outside(ctx, inLoop, inSwitch))
    decreases s, 1
  {
    hide Ids, JumpsIn, CasesMatch;
    var out := Outside(ctx, inLoop, inSwitch);
    Nothing();
    Widen([], {}, out);
    match s
    case Expression(e) =>
      OptionalJumps(Some(e), g, n);
      Widen(LowerStmt(s, g, n).ops, {}, out);
    case Declare(l, t, init) =>
      if init.Some? {
        var c := LowerExpr(init.value, None, g, n);
        ExprJumps(init.value, None, g, n);
        Widen(c.ops, {}, out);
        Then(c.ops, Copy(c.ret, Variable(l, t)), out);
      }
    case Return(e) =>
      if e.Some? {
        var c := LowerExpr(e.value, None, g, n);
        ExprJumps(e.value, None, g, n);
        Widen(c.ops, {}, out);
        Then(c.ops, Ret(Some(c.ret)), out);
      } else {
        One(Ret(None), out);
      }
    case Block(f) => FlatJumps(f, g, n, ctx, inLoop, inSwitch);
    case IfElse(_, _, _) => IfJumps(s, g, n, ctx, inLoop, inSwitch);
    case Loop(_, _, _, _, _, _, _) => LoopJumps(s, g, n, ctx, inLoop, inSwitch);
    case Switch(_, _, _, _, _) => SwitchJumps(s, g, n, ctx, inLoop, inSwitch);
    case Empty =>
    case Break(l) => One(Jump(l), out);
    case Continue(l) => One(Jump(l), out);
    case Goto(_, l) => One(Jump(l), out);
    case Label(_, l) => One(LabelAt(l), out);
    case Case(_, l) => One(LabelAt(l), out);
    case Default(l) => One(LabelAt(l), out);
  }

  lemma {:induction false} FlatJumps(f: Flat, g: int, n: int, ctx: Targets, inLoop: bool, inSwitch: bool)
    requires WellLabelledFlat(f, ctx) && PlacedFlat(f, inLoop, inSwitch)
    ensures Closed(LowerFlat(f, g, n).ops, Outside(ctx, inLoop, inSwitch))
    decreases f, 0
  {
    hide Ids, JumpsIn;
    var out := Outside(ctx, inLoop, inSwitch);
    Nothing();
    Widen([], {}, out);
    if f.Cons? {
      var a := LowerStmt(f.car, g, n);
      StmtJumps(f.car, g, n, ctx, inLoop, inSwitch);
      FlatJumps(f.cdr, a.gen, a.lab, ctx, inLoop, inSwitch);
      Joined(a.ops, LowerFlat(f.cdr, a.gen, a.lab).ops, out);
    }
  }

  lemma {:induction false} IfJumps(s: Stmt, g: int, n: int, ctx: Targets, inLoop: bool, inSwitch: bool)
    requires s.IfElse? && WellLabelled(s, ctx) && Placed(s, inLoop, inSwitch)
    ensures Closed(LowerStmt(s, g, n).ops, Outside(ctx, inLoop, inSwitch))
    decreases s, 0
  {
    hide Ids, JumpsIn;
    var out := Outside(ctx, inLoop, inSwitch);
    var lab := if s.elseClause.Some? then n + 2 else n + 1;
    var k := LowerExpr(s.condition, None, g, lab);
    var x := LowerFlat(s.thenClause, k.gen, k.lab);
    ExprJumps(s.condition, None, g, lab);
    FlatJumps(s.thenClause, k.gen, k.lab, ctx, inLoop, inSwitch);
    if s.elseClause.Some? {
      var y := LowerFlat(s.elseClause.value, x.gen, x.lab);
      FlatJumps(s.elseClause.value, x.gen, x.lab, ctx, inLoop, inSwitch);
      TwoArms(k.ops, x.ops, y.ops, k.ret, n, out);
      assert LowerStmt(s, g, n).ops
          == k.ops + [JumpIfZero(k.ret, n)] + x.ops + [Jump(n + 1)] + [LabelAt(n)] + y.ops + [LabelAt(n + 1)] by {
        assert [Jump(n + 1), LabelAt(n)] == [Jump(n + 1)] + [LabelAt(n)];
      }
    } else {
      var ops := k.ops + [JumpIfZero(k.ret, n)] + x.ops + [LabelAt(n)];
      Widen(k.ops, {}, out + {n});
      Widen(x.ops, out, out + {n});
      Then(k.ops, JumpIfZero(k.ret, n), out + {n});
      Joined(k.ops + [JumpIfZero(k.ret, n)], x.ops, out + {n});
      Then(k.ops + [JumpIfZero(k.ret, n)] + x.ops, LabelAt(n), out + {n});
      Resolve(ops, |ops| - 1, out, n);
    }
  }

  lemma {:induction false} LoopJumps(s: Stmt, g: int, n: int, ctx: Targets, inLoop: bool, inSwitch: bool)
    requires s.Loop? && WellLabelled(s, ctx) && Placed(s, inLoop, inSwitch)
    ensures Closed(LowerStmt(s, g, n).ops, Outside(ctx, inLoop, inSwitch))
    decreases s, 0
  {
    hide Ids, JumpsIn;
    var out := Outside(ctx, inLoop, inSwitch);
    var start, cont, end := s.labelStart, s.labelContinue, s.labelEnd;
    var p := LowerGuard(s.precond, end, g, n);
    var b := LowerFlat(s.body, p.gen, p.lab);
    var i := LowerOptional(s.incr, b.gen, b.lab);
    var q := LowerGuard(s.postcond, end, i.gen, i.lab);
    GuardJumps(s.precond, end, g, n);
    FlatJumps(s.body, p.gen, p.lab, ctx.(brk := end, cont := cont), true, inSwitch);
    OptionalJumps(s.incr, b.gen, b.lab);
    GuardJumps(s.postcond, end, i.gen, i.lab);
    assert LowerStmt(s, g, n).ops
        == [LabelAt(start)] + p.ops + b.ops + [LabelAt(cont)] + i.ops + q.ops + [Jump(start)] + [LabelAt(end)] by {
      assert [Jump(start), LabelAt(end)] == [Jump(start)] + [LabelAt(end)];
    }
    LoopClosed(p.ops, b.ops, i.ops, q.ops, start, cont, end, ctx.names.Values);
    Widen(LowerStmt(s, g, n).ops, ctx.names.Values, out);
  }

  lemma LoopClosed(p: seq<IrOp>, b: seq<IrOp>, i: seq<IrOp>, q: seq<IrOp>, start: int, cont: int, end: int, out: set<int>)
    requires Closed(p, {end}) && Closed(b, out + {end} + {cont}) && Closed(i, {}) && Closed(q, {end})
    ensures Closed([LabelAt(start)] + p + b + [LabelAt(cont)] + i + q + [Jump(start)] + [LabelAt(end)], out)
  {
    hide Ids, JumpsIn;
    var outer := out + {start} + {end} + {cont};
    var ops := [LabelAt(start)] + p + b + [LabelAt(cont)] + i + q + [Jump(start)] + [LabelAt(end)];
    Widen(p, {end}, outer);
    Widen(b, out + {end} + {cont}, outer);
    Widen(i, {}, outer);
    Widen(q, {end}, outer);
    One(LabelAt(start), outer);
    Joined([LabelAt(start)], p, outer);
    Joined([LabelAt(start)] + p, b, outer);
    Then([LabelAt(start)] + p + b, LabelAt(cont), outer);
    Joined([LabelAt(start)] + p + b + [LabelAt(cont)], i, outer);
    Joined([LabelAt(start)] + p + b + [LabelAt(cont)] + i, q, outer);
    Then([LabelAt(start)] + p + b + [LabelAt(cont)] + i + q, Jump(start), outer);
    Then([LabelAt(start)] + p + b + [LabelAt(cont)] + i + q + [Jump(start)], LabelAt(end), outer);
    Resolve(ops, 1 + |p| + |b|, out + {start} + {end}, cont);
    Resolve(ops, |ops| - 1, out + {start}, end);
    Resolve(ops, 0, out, start);
  }

  /** The numbers of a case list. */
  function CaseIds(cases: seq<CaseEntry>): set<int> {
    set i | 0 <= i < |cases| :: cases[i].unique
  }

  lemma {:induction false} CaseJumpsClosed(v: IrVal, t: CType, cases: seq<CaseEntry>, g: int)
    ensures Closed(CaseJumps(v, t, cases, g), CaseIds(cases))
    decreases |cases|
  {
    Nothing();
    if cases != [] {
      var rest := CaseJumps(v, t, cases[1..], g + 1);
      CaseJumpsClosed(v, t, cases[1..], g + 1);
      assert CaseIds(cases[1..]) <= CaseIds(cases) && cases[0].unique in CaseIds(cases);
      hide Ids, JumpsIn, CaseIds;
      var test, jump := BinaryOf(Equal, v, Constant(cases[0].num, t), Temp(g, Int)), JumpIfNotZero(Temp(g, Int), cases[0].unique);
      Widen(rest, CaseIds(cases[1..]), CaseIds(cases));
      Then(rest, test, CaseIds(cases));
      Then(rest + [test], jump, CaseIds(cases));
      assert rest + [test, jump] == rest + [test] + [jump];
    }
  }

  lemma {:induction false} SwitchJumps(s: Stmt, g: int, n: int, ctx: Targets, inLoop: bool, inSwitch: bool)
    requires s.Switch? && WellLabelled(s, ctx) && Placed(s, inLoop, inSwitch)
    ensures Closed(LowerStmt(s, g, n).ops, Outside(ctx, inLoop, inSwitch))
    decreases s, 0
  {
    hide Ids, JumpsIn, LowerStmt, LowerExpr, CaseJumps, Closed;
    var out, end, t := Outside(ctx, inLoop, inSwitch), s.switchEnd, TypeOf(s.control);
    var k := LowerExpr(s.control, None, g, n);
    var tests := CaseJumps(k.ret, t, s.labelCases, k.gen);
    var b := LowerFlat(s.switchBody, k.gen + |s.labelCases|, k.lab);
    var d := if s.labelDefault >= 0 then [Jump(s.labelDefault)] else [];
    ExprJumps(s.control, None, g, n);
    CaseJumpsClosed(k.ret, t, s.labelCases, k.gen);
    FlatJumps(s.switchBody, k.gen + |s.labelCases|, k.lab, ctx.(brk := end), inLoop, true);
    CasesInside(t, s.switchBody, s.labelDefault, s.labelCases, k.gen + |s.labelCases|, k.lab);
    SwitchUnfolds(s, g, n);
    Nothing();
    Widen([], {}, Ids(b.ops));
    One(Jump(s.labelDefault), {s.labelDefault});
    if s.labelDefault >= 0 {
      Widen(d, {s.labelDefault}, Ids(b.ops));
    }
    Widen(tests, CaseIds(s.labelCases), Ids(b.ops));
    Widen(b.ops, Outside(ctx.(brk := end), inLoop, true), out + {end});
    SwitchClosed(k.ops, tests, d, b.ops, end, out);
  }

  lemma SwitchClosed(k: seq<IrOp>, tests: seq<IrOp>, d: seq<IrOp>, b: seq<IrOp>, end: int, out: set<int>)
    requires Closed(k, {}) && Closed(tests, Ids(b)) && Closed(d, Ids(b)) && Closed(b, out + {end})
    ensures Closed(k + tests + d + [Jump(end)] + b + [LabelAt(end)], out)
  {
    var ops := k + tests + d + [Jump(end)] + b + [LabelAt(end)];
    IdsJoin(k + tests + d + [Jump(end)], b);
    IdsJoin(k + tests + d + [Jump(end)] + b, [LabelAt(end)]);
    hide Ids, JumpsIn;
    var outer := out + Ids(b) + {end};
    Widen(k, {}, outer);
    Widen(tests, Ids(b), outer);
    Widen(d, Ids(b), outer);
    Widen(b, out + {end}, outer);
    Joined(k, tests, outer);
    Joined(k + tests, d, outer);
    Then(k + tests + d, Jump(end), outer);
    Joined(k + tests + d + [Jump(end)], b, outer);
    Then(k + tests + d + [Jump(end)] + b, LabelAt(end), outer);
    Resolve(ops, |ops| - 1, out + Ids(b), end);
    assert Ids(ops) + (out + Ids(b)) == Ids(ops) + out;
  }

  /** The tests of a switch jump into its body. */
  lemma CasesInside(t: CType, body: Flat, dflt: int, cases: seq<CaseEntry>, g: int, n: int)
    requires CasesMatch(t, body, dflt, cases)
    ensures CaseIds(cases) <= Ids(LowerFlat(body, g, n).ops) && (dflt >= 0 ==> dflt in Ids(LowerFlat(body, g, n).ops))
  {
    forall x | x in CaseIds(cases) ensures x in Ids(LowerFlat(body, g, n).ops) {
      var i :| 0 <= i < |cases| && cases[i].unique == x;
      assert CaseKnown(t, body, cases[i]);
      InIds(SeekCase(t, Bits(t, cases[i].num)), body, g, n);
    }
    if dflt >= 0 {
      InIds(SeekDefault, body, g, n);
    }
  }

  lemma InIds(m: Mode, body: Flat, g: int, n: int)
    requires HasFlat(m, body)
    ensures LabelOfFlat(m, body) in Ids(LowerFlat(body, g, n).ops)
  {
    LabelPresentFlat(m, body, g, n);
  }

  // ---------------------------------------------------------------- functions

  lemma {:induction false} NamePresent(s: Stmt, x: string)
    requires x in LabelNames(s)
    ensures Has(SeekLabel(x), s)
    decreases s
  {
    match s
    case Block(f) => NamePresentFlat(f, x);
    case IfElse(_, a, b) =>
      if x in LabelNamesFlat(a) {
        NamePresentFlat(a, x);
      } else {
        NamePresentFlat(b.value, x);
      }
    case Loop(_, body, _, _, _, _, _) => NamePresentFlat(body, x);
    case Switch(_, body, _, _, _) => NamePresentFlat(body, x);
    case _ =>
  }

  lemma {:induction false} NamePresentFlat(f: Flat, x: string)
    requires x in LabelNamesFlat(f)
    ensures HasFlat(SeekLabel(x), f)
    decreases f
  {
    if x in LabelNames(f.car) {
      NamePresent(f.car, x);
    } else {
      NamePresentFlat(f.cdr, x);
    }
  }

  /** Every jump of a function goes to a label of the function. */
  lemma FunctionJumps(body: Flat, isVoid: bool, names: map<string, int>, g: int, n: int)
    requires WellLabelledFlat(body, Targets(-1, -1, names)) && PlacedFlat(body, false, false)
    requires forall x :: x in names ==> HasFlat(SeekLabel(x), body) && LabelOfFlat(SeekLabel(x), body) == names[x]
    ensures JumpsIn(LowerFunction(body, isVoid, g, n).ops) <= Ids(LowerFunction(body, isVoid, g, n).ops)
  {
    var c := LowerFlat(body, g, n);
    FlatJumps(body, g, n, Targets(-1, -1, names), false, false);
    forall l | l in names.Values ensures l in Ids(c.ops) {
      var x :| x in names && names[x] == l;
      InIds(SeekLabel(x), body, g, n);
    }
    assert Closed(c.ops, {});
    Then(c.ops, Ret(if isVoid then None else Some(Constant(0, Char))), {});
  }
}
