/** A function with defined behaviour whose frame is laid out too small: its variable is
    first seen where it is truncated. */
module NarrowVariable {
  import opened Wrappers
  import opened CTypes
  import opened CAst
  import Ir
  import opened CSemantics
  import opened Lowering
  import opened StmtSimulation
  import opened TypedTrees
  import opened Pipeline
  import opened ModularArithmetic
  import opened Asm
  import opened MemoryMap
  import opened StackFrame
  import opened FixupLists
  import opened CallingSequence
  import CallMeaning
  import SelectionRuns
  import FixupMeaning
  import opened Selection
  import opened EndToEnd
  import opened LoweredShapes
  import opened SlotSizes
  import opened Compiler

  const BIG := 5000000000

  const X := Var(Tmp(1), Long)

  /** long x; goto init; use: return (int)x; init: x = BIG; goto use; */
  function Body(use: int, init: int): Flat {
    Cons(Declare(Tmp(1), Long, None),
    Cons(Goto("init", init),
    Cons(Label("use", use),
    Cons(Return(Some(Cast(X, Int))),
    Cons(Label("init", init),
    Cons(Expression(Assign(X, Const(BIG, Long), false, Long)),
    Cons(Goto("use", use), Nil)))))))
  }

  function Narrow(use: int, init: int): Function {
    Function([], [Param(1, Long)], Body(use, init), Some(Int))
  }

  function Code(use: int, init: int, g: int): (ops: seq<Ir.IrOp>)
    ensures |ops| == 8
  {
    var x, t := Ir.Variable(Tmp(1), Long), Temp(g, Int);
    [Ir.Jump(init), Ir.LabelAt(use), Ir.Truncate(x, t), Ir.Ret(Some(t)), Ir.LabelAt(init), Ir.Copy(Ir.Constant(BIG, Long), x), Ir.Jump(use),
     Ir.Ret(Some(Ir.Constant(0, Char)))]
  }

  lemma IsTypeChecked(use: int, init: int)
    ensures TypeChecked(Narrow(use, init), 1, map[])
  {
    hide WellTyped, Selectable, VarTypes, TypesOf, WellTypedStmt, SelectableStmt;
    var f := Narrow(use, init);
    var types := TypesOf(f, map[]);
    assert f.params + f.locals == [Param(1, Long)];
    TypesHere(use, init);
    Statements(types, use, init);
    var b := f.body;
    var b5 := b.cdr.cdr.cdr.cdr.cdr;
    assert WellTypedFlat(types, b5.cdr.cdr) && SelectableFlat(b5.cdr.cdr, 2) && ReturnsTypedFlat(b5.cdr.cdr, Some(Int));
    assert WellTypedFlat(types, b5.cdr) && SelectableFlat(b5.cdr, 2) && ReturnsTypedFlat(b5.cdr, Some(Int));
    assert WellTypedFlat(types, b5) && SelectableFlat(b5, 2) && ReturnsTypedFlat(b5, Some(Int));
    assert WellTypedFlat(types, b.cdr.cdr.cdr.cdr) && SelectableFlat(b.cdr.cdr.cdr.cdr, 2) && ReturnsTypedFlat(b.cdr.cdr.cdr.cdr, Some(Int));
    assert WellTypedFlat(types, b.cdr.cdr.cdr) && SelectableFlat(b.cdr.cdr.cdr, 2) && ReturnsTypedFlat(b.cdr.cdr.cdr, Some(Int));
    assert WellTypedFlat(types, b.cdr.cdr) && SelectableFlat(b.cdr.cdr, 2) && ReturnsTypedFlat(b.cdr.cdr, Some(Int));
    assert WellTypedFlat(types, b.cdr) && SelectableFlat(b.cdr, 2) && ReturnsTypedFlat(b.cdr, Some(Int));
    assert WellTypedFlat(types, b) && SelectableFlat(b, 2) && ReturnsTypedFlat(b, Some(Int));
    assert DistinctVars([Param(1, Long)], 1);
  }

  lemma TypesHere(use: int, init: int)
    ensures var types := TypesOf(Narrow(use, init), map[]); Tmp(1) in types && types[Tmp(1)].size == 8
  {
    var vars := [] + [Param(1, Long)];
    assert vars[..|vars| - 1] == [];
    assert VarTypes([]) == map[];
    assert VarTypes(vars)[Tmp(1)] == Slot(0, 8);
  }

  lemma Statements(types: Layout, use: int, init: int)
    requires Tmp(1) in types && types[Tmp(1)].size == 8
    ensures var b := Body(use, init);
            && WellTypedStmt(types, b.car) && WellTypedStmt(types, b.cdr.cdr.cdr.car) && WellTypedStmt(types, b.cdr.cdr.cdr.cdr.cdr.car)
            && SelectableStmt(b.car, 2) && SelectableStmt(b.cdr.cdr.cdr.car, 2) && SelectableStmt(b.cdr.cdr.cdr.cdr.cdr.car, 2)
    ensures forall name, l :: WellTypedStmt(types, Goto(name, l)) && WellTypedStmt(types, Label(name, l))
    ensures forall name, l :: SelectableStmt(Goto(name, l), 2) && SelectableStmt(Label(name, l), 2)
  {
    Expressions(types);
    hide WellTyped, Selectable;
  }

  lemma Expressions(types: Layout)
    requires Tmp(1) in types && types[Tmp(1)].size == 8
    ensures WellTyped(types, Cast(X, Int), None) && Selectable(Cast(X, Int), 2)
    ensures var e := Assign(X, Const(BIG, Long), false, Long); WellTyped(types, e, None) && Selectable(e, 2)
  {
    hide WellTypedStmt, SelectableStmt;
    assert WellTyped(types, X, None) && Selectable(X, 2);
    assert WellTyped(types, Const(BIG, Long), None) && Selectable(Const(BIG, Long), 2);
  }

  lemma IsLoweredTo(use: int, init: int, g: int, n: int)
    ensures LowerFunction(Body(use, init), false, g, n).ops == Code(use, init, g)
  {
    hide LowerExpr, LowerStmt, LowerFlat, Code;
    var body := Body(use, init);
    var x, t := Ir.Variable(Tmp(1), Long), Temp(g, Int);
    Lowered(use, init, g, n);
    var store, jump, back := [Ir.Copy(Ir.Constant(BIG, Long), x)], [Ir.Jump(use)], [Ir.Truncate(x, t), Ir.Ret(Some(t))];
    var tail := [Ir.LabelAt(init)] + (store + jump);
    LowerTail(use, init, g, n, store, jump);
    var later := [Ir.LabelAt(use)] + (back + tail);
    var b3 := body.cdr.cdr.cdr;
    Joined(b3, g, n, FlatCode(back, g + 1, n), FlatCode(tail, g + 1, n));
    Joined(body.cdr.cdr, g, n, FlatCode([Ir.LabelAt(use)], g, n), FlatCode(back + tail, g + 1, n));
    Joined(body.cdr, g, n, FlatCode([Ir.Jump(init)], g, n), FlatCode(later, g + 1, n));
    Joined(body, g, n, FlatCode([], g, n), FlatCode([Ir.Jump(init)] + later, g + 1, n));
    InOrder(use, init, g, store, jump, back);
    Closed(body, g, n, [Ir.Jump(init)] + later);
  }

  lemma LowerTail(use: int, init: int, g: int, n: int, store: seq<Ir.IrOp>, jump: seq<Ir.IrOp>)
    requires store == [Ir.Copy(Ir.Constant(BIG, Long), Ir.Variable(Tmp(1), Long))] && jump == [Ir.Jump(use)]
    ensures LowerFlat(Body(use, init).cdr.cdr.cdr.cdr, g + 1, n) == FlatCode([Ir.LabelAt(init)] + (store + jump), g + 1, n)
  {
    hide LowerExpr, LowerStmt, LowerFlat;
    Lowered(use, init, g, n);
    var b4 := Body(use, init).cdr.cdr.cdr.cdr;
    NothingLowered(g + 1, n);
    Joined(b4.cdr.cdr, g + 1, n, FlatCode(jump, g + 1, n), FlatCode([], g + 1, n));
    Joined(b4.cdr, g + 1, n, FlatCode(store, g + 1, n), FlatCode(jump, g + 1, n));
    Joined(b4, g + 1, n, FlatCode([Ir.LabelAt(init)], g + 1, n), FlatCode(store + jump, g + 1, n));
  }

  lemma InOrder(use: int, init: int, g: int, store: seq<Ir.IrOp>, jump: seq<Ir.IrOp>, back: seq<Ir.IrOp>)
    requires store == [Ir.Copy(Ir.Constant(BIG, Long), Ir.Variable(Tmp(1), Long))] && jump == [Ir.Jump(use)]
    requires back == [Ir.Truncate(Ir.Variable(Tmp(1), Long), Temp(g, Int)), Ir.Ret(Some(Temp(g, Int)))]
    ensures Code(use, init, g) ==
            [Ir.Jump(init)] + ([Ir.LabelAt(use)] + (back + ([Ir.LabelAt(init)] + (store + jump)))) + [Ir.Ret(Some(Ir.Constant(0, Char)))]
  {
  }

  lemma Closed(body: Flat, g: int, n: int, ops: seq<Ir.IrOp>)
    requires LowerFlat(body, g, n).ops == ops && ops != [] && !ops[|ops| - 1].Ret?
    ensures LowerFunction(body, false, g, n).ops == ops + [Ir.Ret(Some(Ir.Constant(0, Char)))]
  {
    hide LowerFlat;
  }

  lemma NothingLowered(g: int, n: int)
    ensures LowerFlat(Nil, g, n) == FlatCode([], g, n)
  {
  }

  lemma Joined(f: Flat, g: int, n: int, a: FlatCode, b: FlatCode)
    requires f.Cons? && LowerStmt(f.car, g, n) == a && LowerFlat(f.cdr, a.gen, a.lab) == b
    ensures LowerFlat(f, g, n) == FlatCode(a.ops + b.ops, b.gen, b.lab)
    ensures a.ops == [] ==> LowerFlat(f, g, n).ops == b.ops
    ensures b.ops == [] ==> LowerFlat(f, g, n) == FlatCode(a.ops, b.gen, b.lab)
  {
    assert a.ops + [] == a.ops && [] + b.ops == b.ops;
  }

  lemma Lowered(use: int, init: int, g: int, n: int)
    ensures LowerStmt(Declare(Tmp(1), Long, None), g, n) == FlatCode([], g, n)
    ensures LowerStmt(Goto("init", init), g, n) == FlatCode([Ir.Jump(init)], g, n)
    ensures LowerStmt(Label("use", use), g, n) == FlatCode([Ir.LabelAt(use)], g, n)
    ensures LowerStmt(Return(Some(Cast(X, Int))), g, n)
         == FlatCode([Ir.Truncate(Ir.Variable(Tmp(1), Long), Temp(g, Int)), Ir.Ret(Some(Temp(g, Int)))], g + 1, n)
    ensures LowerStmt(Label("init", init), g + 1, n) == FlatCode([Ir.LabelAt(init)], g + 1, n)
    ensures LowerStmt(Expression(Assign(X, Const(BIG, Long), false, Long)), g + 1, n)
         == FlatCode([Ir.Copy(Ir.Constant(BIG, Long), Ir.Variable(Tmp(1), Long))], g + 1, n)
    ensures LowerStmt(Goto("use", use), g + 1, n) == FlatCode([Ir.Jump(use)], g + 1, n)
  {
    hide LowerExpr;
    LoweredExpressions(g, n);
  }

  lemma LoweredExpressions(g: int, n: int)
    ensures var x, t := Ir.Variable(Tmp(1), Long), Temp(g, Int);
            && LowerExpr(Cast(X, Int), None, g, n) == ExprCode([Ir.Truncate(x, t)], t, g + 1, n)
            && LowerExpr(Assign(X, Const(BIG, Long), false, Long), None, g + 1, n)
               == ExprCode([Ir.Copy(Ir.Constant(BIG, Long), x)], Ir.Constant(BIG, Long), g + 1, n)
  {
    assert LowerExpr(X, None, g, n) == ExprCode([], Ir.Variable(Tmp(1), Long), g, n);
    assert LowerExpr(Const(BIG, Long), None, g + 1, n) == ExprCode([], Ir.Constant(BIG, Long), g + 1, n);
  }

  /** The two expressions. */
  lemma Evaluates(layout: Layout, s: CSemantics.Store, st: CSemantics.Store)
    requires Tmp(1) in s && st == s[Tmp(1) := BIG]
    ensures var r := Eval(layout, Assign(X, Const(BIG, Long), false, Long), None, s); r.Some? && r.value.st == st
    ensures var q := Eval(layout, Cast(X, Int), None, st); q.Some? && q.value.st == st && q.value.v == BIG % 0x1_0000_0000
  {
    hide LocAt;
    Stores(layout, s);
    Truncates(layout, st);
  }

  lemma Stores(layout: Layout, s: CSemantics.Store)
    requires Tmp(1) in s
    ensures var r := Eval(layout, Assign(X, Const(BIG, Long), false, Long), None, s); r.Some? && r.value.st == s[Tmp(1) := BIG]
  {
    hide LocAt;
    SmallMod(BIG, 0x1_0000_0000_0000_0000);
    assert Eval(layout, Const(BIG, Long), None, s) == Some(Res(BIG, s, {}, {}, {}));
    assert EvalPlace(layout, X, None, s) == Some((Tmp(1), Res(0, s, {}, {}, {})));
  }

  lemma Truncates(layout: Layout, st: CSemantics.Store)
    requires Tmp(1) in st && st[Tmp(1)] == BIG
    ensures var q := Eval(layout, Cast(X, Int), None, st); q.Some? && q.value.st == st && q.value.v == BIG % 0x1_0000_0000
  {
    hide LocAt, EvalPlace;
    assert Eval(layout, X, None, st) == Some(Res(BIG, st, {Tmp(1)}, {}, {}));
  }

  /** The source is defined: it returns the low 32 bits of the constant. */
  lemma SourceIsDefined(use: int, init: int, layout: Layout, s: CSemantics.Store)
    requires Tmp(1) in s
    ensures RunBody(layout, Body(use, init), Go, s, 2) == Done(Returned(Some(Typed(BIG % 0x1_0000_0000, Int))), s[Tmp(1) := BIG])
  {
    hide Eval, ExecFlat, HasFlat;
    var body := Body(use, init);
    var st := s[Tmp(1) := BIG];
    Pieces(use, init, layout, s, st);
    Labels(use, init);
    SeeksInit(use, init, layout, s, 1);
    SeeksUse(use, init, layout, st, 0);
    assert RunBody(layout, body, SeekLabel("use"), st, 0) == Done(Returned(Some(Typed(BIG % 0x1_0000_0000, Int))), st);
    assert RunBody(layout, body, SeekLabel("init"), s, 1) == RunBody(layout, body, SeekLabel("use"), st, 0);
  }

  /** The three stretches between the jumps. */
  lemma Pieces(use: int, init: int, layout: Layout, s: CSemantics.Store, st: CSemantics.Store)
    requires Tmp(1) in s && st == s[Tmp(1) := BIG]
    ensures ExecFlat(layout, Body(use, init), Go, s, 2) == Done(Jumped("init"), s)
    ensures var b4 := Body(use, init).cdr.cdr.cdr.cdr;
            HasFlat(SeekLabel("init"), b4) && ExecFlat(layout, b4, SeekLabel("init"), s, 1) == Done(Jumped("use"), st)
    ensures var b2 := Body(use, init).cdr.cdr;
            HasFlat(SeekLabel("use"), b2)
            && ExecFlat(layout, b2, SeekLabel("use"), st, 0) == Done(Returned(Some(Typed(BIG % 0x1_0000_0000, Int))), st)
  {
    hide Eval;
    Evaluates(layout, s, st);
    FirstPiece(use, init, layout, s);
    SecondPiece(use, init, layout, s, st);
    LastPiece(use, init, layout, st);
  }

  lemma FirstPiece(use: int, init: int, layout: Layout, s: CSemantics.Store)
    ensures ExecFlat(layout, Body(use, init), Go, s, 2) == Done(Jumped("init"), s)
  {
    hide Eval;
    assert ExecFlat(layout, Body(use, init).cdr, Go, s, 2) == Done(Jumped("init"), s);
  }

  lemma SecondPiece(use: int, init: int, layout: Layout, s: CSemantics.Store, st: CSemantics.Store)
    requires var r := Eval(layout, Assign(X, Const(BIG, Long), false, Long), None, s); r.Some? && r.value.st == st
    ensures var b4 := Body(use, init).cdr.cdr.cdr.cdr;
            HasFlat(SeekLabel("init"), b4) && ExecFlat(layout, b4, SeekLabel("init"), s, 1) == Done(Jumped("use"), st)
  {
    hide Eval;
    var b4 := Body(use, init).cdr.cdr.cdr.cdr;
    assert ExecFlat(layout, b4.cdr.cdr, Go, st, 1) == Done(Jumped("use"), st);
    assert ExecFlat(layout, b4.cdr, Go, s, 1) == Done(Jumped("use"), st);
  }

  lemma LastPiece(use: int, init: int, layout: Layout, st: CSemantics.Store)
    requires var q := Eval(layout, Cast(X, Int), None, st); q.Some? && q.value.st == st && q.value.v == BIG % 0x1_0000_0000
    ensures var b2 := Body(use, init).cdr.cdr;
            HasFlat(SeekLabel("use"), b2)
            && ExecFlat(layout, b2, SeekLabel("use"), st, 0) == Done(Returned(Some(Typed(BIG % 0x1_0000_0000, Int))), st)
  {
    hide Eval;
    var b3 := Body(use, init).cdr.cdr.cdr;
    assert ExecFlat(layout, b3, Go, st, 0) == Done(Returned(Some(Typed(BIG % 0x1_0000_0000, Int))), st);
  }

  lemma Labels(use: int, init: int)
    ensures HasFlat(SeekLabel("init"), Body(use, init)) && HasFlat(SeekLabel("use"), Body(use, init))
    ensures HasFlat(SeekLabel("init"), Body(use, init).cdr.cdr.cdr.cdr) && HasFlat(SeekLabel("use"), Body(use, init).cdr.cdr)
  {
    var body := Body(use, init);
    assert HasFlat(SeekLabel("init"), body.cdr.cdr.cdr.cdr);
    assert HasFlat(SeekLabel("init"), body.cdr.cdr.cdr);
    assert HasFlat(SeekLabel("init"), body.cdr.cdr);
    assert HasFlat(SeekLabel("init"), body.cdr);
    assert HasFlat(SeekLabel("use"), body.cdr.cdr);
    assert HasFlat(SeekLabel("use"), body.cdr);
  }

  lemma SeeksInit(use: int, init: int, layout: Layout, s: CSemantics.Store, fuel: nat)
    ensures HasFlat(SeekLabel("init"), Body(use, init)) && HasFlat(SeekLabel("init"), Body(use, init).cdr.cdr.cdr.cdr)
    ensures ExecFlat(layout, Body(use, init), SeekLabel("init"), s, fuel)
         == ExecFlat(layout, Body(use, init).cdr.cdr.cdr.cdr, SeekLabel("init"), s, fuel)
  {
    hide ExecStmt;
    Labels(use, init);
    var body, m := Body(use, init), SeekLabel("init");
    assert ExecFlat(layout, body, m, s, fuel) == ExecFlat(layout, body.cdr, m, s, fuel);
    assert ExecFlat(layout, body.cdr, m, s, fuel) == ExecFlat(layout, body.cdr.cdr, m, s, fuel);
    assert ExecFlat(layout, body.cdr.cdr, m, s, fuel) == ExecFlat(layout, body.cdr.cdr.cdr, m, s, fuel);
  }

  lemma SeeksUse(use: int, init: int, layout: Layout, s: CSemantics.Store, fuel: nat)
    ensures HasFlat(SeekLabel("use"), Body(use, init)) && HasFlat(SeekLabel("use"), Body(use, init).cdr.cdr)
    ensures ExecFlat(layout, Body(use, init), SeekLabel("use"), s, fuel) == ExecFlat(layout, Body(use, init).cdr.cdr, SeekLabel("use"), s, fuel)
  {
    hide ExecStmt;
    Labels(use, init);
    var body, m := Body(use, init), SeekLabel("use");
    assert ExecFlat(layout, body, m, s, fuel) == ExecFlat(layout, body.cdr, m, s, fuel);
    assert ExecFlat(layout, body.cdr, m, s, fuel) == ExecFlat(layout, body.cdr.cdr, m, s, fuel);
  }

  // ---------------------------------------------------------------- what goes wrong

  /** The variable is first seen where it is truncated, and used in whole later. */
  lemma NotAllFit(use: int, init: int, g: int)
    requires g != 1
    ensures var code := FunctionCode([], Code(use, init, g)); !AllAccessesFit(code, FrameOf(code))
  {
    hide FunctionCode, FrameOf, AllAccessesFit, WellShaped, NarrowFirst, UsedWider, Code;
    var sizes: Sizes := map[Tmp(1) := 8, Tmp(g) := 4];
    ShapesHere(use, init, g, sizes);
    FirstUseIs(use, init, g);
    AccessesFitExactly(sizes, [], Code(use, init, g));
  }

  lemma ShapesHere(use: int, init: int, g: int, sizes: Sizes)
    requires g != 1 && sizes == map[Tmp(1) := 8, Tmp(g) := 4]
    ensures WellShaped(sizes, Code(use, init, g))
  {
    var x, t := Ir.Variable(Tmp(1), Long), Temp(g, Int);
    assert ValSized(sizes, x) && ValSized(sizes, t);
    assert OperandsSized(sizes, Ir.Truncate(x, t)) && Shape(Ir.Truncate(x, t));
    assert OperandsSized(sizes, Ir.Ret(Some(t))) && OperandsSized(sizes, Ir.Ret(Some(Ir.Constant(0, Char))));
    assert OperandsSized(sizes, Ir.Copy(Ir.Constant(BIG, Long), x)) && Shape(Ir.Copy(Ir.Constant(BIG, Long), x));
  }

  lemma FirstUseIs(use: int, init: int, g: int)
    ensures NarrowFirst([], Code(use, init, g), 1) && UsedWider(Code(use, init, g), 1)
  {
    hide FirstUse;
    var ops := Code(use, init, g);
    assert IsVar(OperandsOf(ops[2])[0], 1);
    ThirdIsFirst(ops, 1);
    assert WiderThan(ops[5], 1, 4) by {
      assert IsVar(OperandsOf(ops[5])[1], 1) && UsedAs(ops[5], 1).Size() == 8;
    }
    assert ops[2].dst.ty.Size() == 4;
  }

  lemma ThirdIsFirst(ops: seq<Ir.IrOp>, id: int)
    requires |ops| >= 3 && !Mentions(ops[0], id) && !Mentions(ops[1], id) && Mentions(ops[2], id)
    ensures FirstUse(ops, id) == Some(ops[2])
  {
    hide Mentions;
    assert ops[1..][0] == ops[1] && ops[1..][1..][0] == ops[2];
    assert FirstUse(ops[1..][1..], id) == Some(ops[2]);
    assert FirstUse(ops[1..], id) == Some(ops[2]);
  }

  /** The assignment overwrites the caller's frame pointer, which is kept at rbp. */
  lemma SavedPointerLost(use: int, init: int, g: int, env: Env, m: Machine)
    requires g != 1 && 4 <= Reg64(m, RBP)
    ensures var code := FunctionCode([], Code(use, init, g));
            var f := FrameOf(code);
            && 1 in f.offs && f.offs[1] == 4
            && var store := OpInFrame(Select(Code(use, init, g)[5])[0], f.offs);
               var r := Exec(env, store, m);
               r.Some? && ByteAt(r.value.mem, Reg64(m, RBP)) == 1
  {
    hide FrameOf, FunctionCode, StoreBytes, ByteAt, Reg64, Exec;
    var f := FrameOf(FunctionCode([], Code(use, init, g)));
    OffsetIsFour(use, init, g);
    var store := AsmOp(Mov, Operand(Immediate(BIG), W64), Operand(Memory(-4, RBP), W64));
    assert OpInFrame(Select(Code(use, init, g)[5])[0], f.offs) == store;
    var a := Reg64(m, RBP) - 4;
    SmallMod(a, W64.Mod());
    SmallMod(BIG, W64.Mod());
    FixupMeaning.MoveEffect(env, store, BIG, m);
    assert WriteOp(env, store.b.kind, W64, BIG, m) == Some(m.(mem := StoreBytes(m.mem, a, BIG, 8)));
    FifthByte(m.mem, a);
  }

  lemma FifthByte(mem: Bytes, a: int)
    ensures ByteAt(StoreBytes(mem, a, BIG, 8), a + 4) == 1
  {
    assert BIG / 256 == 19531250 && 19531250 / 256 == 76293 && 76293 / 256 == 298 && 298 / 256 == 1;
    var m1 := mem[a := BIG % 256];
    var m2 := m1[a + 1 := 19531250 % 256];
    var m3 := m2[a + 2 := 76293 % 256];
    var m4 := m3[a + 3 := 298 % 256];
    var m5 := m4[a + 4 := 1 % 256];
    assert StoreBytes(mem, a, BIG, 8) == StoreBytes(m1, a + 1, 19531250, 7);
    assert StoreBytes(m1, a + 1, 19531250, 7) == StoreBytes(m2, a + 2, 76293, 6);
    assert StoreBytes(m2, a + 2, 76293, 6) == StoreBytes(m3, a + 3, 298, 5);
    assert StoreBytes(m3, a + 3, 298, 5) == StoreBytes(m4, a + 4, 1, 4);
    assert StoreBytes(m4, a + 4, 1, 4) == StoreBytes(m5, a + 5, 0, 3);
    StoreFrame(m5, a + 5, 0, 3, a + 4);
  }

  lemma OffsetIsFour(use: int, init: int, g: int)
    requires g != 1
    ensures var f := FrameOf(FunctionCode([], Code(use, init, g))); 1 in f.offs && f.offs[1] == 4
  {
    hide RoundUp, Code, SelectAll, FunctionCode, SettleAll, FrameSound;
    var ops := Code(use, init, g);
    var rest := SelectAll(ops[3..]);
    var first := [One(Jmp, Target(init)), One(LabelOp, Target(use)), Move(Operand(Pseudo(1), W32), Operand(Pseudo(g), W32))];
    FirstThree(use, init, g);
    FirstSettled(first);
    CallMeaning.SettleJoin(first, rest, NO_FRAME);
    NoArrays(ops[3..]);
    SettleAllSound(rest, SettleAll(first, NO_FRAME));
  }

  lemma FirstSettled(first: seq<AsmOp>)
    requires |first| == 3 && !HasPseudo(first[0]) && !HasPseudo(first[1])
    requires first[2].a == Operand(Pseudo(1), W32) && first[2].b.kind.Pseudo? && first[2].b.kind.id != 1
    ensures var f := SettleAll(first, NO_FRAME); 1 in f.offs && f.offs[1] == 4 && FrameSound(f)
  {
    hide RoundUp, FrameSound;
    FirstFour();
    var f := SettleOp(first[2], NO_FRAME);
    assert FrameSound(NO_FRAME) by { SettleNothing(); }
    SettleSound(first[2].a, NO_FRAME);
    SettleSound(first[2].b, Settle(first[2].a, NO_FRAME));
    assert first[1..][1..] == [first[2]] && [first[2]][1..] == [];
    assert SettleAll([first[2]], NO_FRAME) == SettleAll([], f) == f;
    assert SettleAll(first[1..], NO_FRAME) == f && SettleAll(first, NO_FRAME) == f;
  }

  lemma SettleNothing()
    ensures FrameSound(NO_FRAME)
  {
  }

  lemma FirstThree(use: int, init: int, g: int)
    ensures var ops := Code(use, init, g);
            FunctionCode([], ops) ==
            [One(Jmp, Target(init)), One(LabelOp, Target(use)), Move(Operand(Pseudo(1), W32), Operand(Pseudo(g), W32))] + SelectAll(ops[3..])
  {
    var ops := Code(use, init, g);
    var x, t := Ir.Variable(Tmp(1), Long), Temp(g, Int);
    assert ops == [ops[0]] + ([ops[1]] + ([ops[2]] + ops[3..]));
    SelectAllJoin([ops[0]], [ops[1]] + ([ops[2]] + ops[3..]));
    SelectAllJoin([ops[1]], [ops[2]] + ops[3..]);
    SelectAllJoin([ops[2]], ops[3..]);
    SelectionRuns.SelectAllOne(ops[0]);
    SelectionRuns.SelectAllOne(ops[1]);
    SelectionRuns.SelectAllOne(ops[2]);
    assert Select(Ir.Truncate(x, t)) == [Move(Operand(Pseudo(1), W32), Operand(Pseudo(g), W32))];
    assert Fetch(ArgsOf([]), 0) == [];
    hide SelectAll;
    assert FunctionCode([], ops) == SelectAll(ops);
  }
}
