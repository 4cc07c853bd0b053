/** The two round trips of pointer arithmetic on the machine: the repaired instructions
    for `(p + i) - p` and `(p + i) - i`, for elements of any size. */
module PointerCode {
  import opened Wrappers
  import opened CTypes
  import opened CAst
  import Ir
  import opened Asm
  import opened StackFrame
  import ModularArithmetic
  import opened Fixups
  import opened FixupMeaning
  import opened Selection
  import opened SelectionMeaning
  import opened SelectionRuns
  import opened EndToEnd
  import opened PointerArithmetic

  type IrOp = Ir.IrOp
  type IrVal = Ir.IrVal
  type Store = Ir.Store

  lemma {:induction false} AnywhereFits(code: seq<AsmOp>, cx: CxState, conds: set<Cond>)
    requires forall o :: o in code ==> RepairableAnywhere(o) && !o.opcode.SetIf? && !o.opcode.JmpIf?
    ensures BlockFits(code, cx, conds)
    decreases |code|
  {
    hide Repairable;
    if code != [] {
      assert code[0] in code;
      AnywhereFits(code[1..], NextCx(code[0], cx), NextConds(code[0], conds));
    }
  }

  /** Operations that neither test nor jump. */
  predicate Calculates(op: IrOp) {
    op.PointerAdd? || (op.BinaryOf? && !op.bop.IsCompare()) || (op.UnaryOf? && !op.uop.LogicalNot?)
  }

  lemma CalculationFits(w: World, op: IrOp)
    requires Calculates(op) && OpTyped(w.layout, op)
    ensures forall o :: o in Framed(w, Select(op)) ==> RepairableAnywhere(o) && !o.opcode.SetIf? && !o.opcode.JmpIf?
  {
    BlockRepairable(w, op);
    NoTests(op);
    hide Select, RepairableAnywhere, OpTyped;
    var code := Framed(w, Select(op));
    forall o | o in code ensures RepairableAnywhere(o) && !o.opcode.SetIf? && !o.opcode.JmpIf? {
      var i :| 0 <= i < |code| && code[i] == o;
      FramedAt(w, Select(op), i);
    }
  }

  lemma NoTests(op: IrOp)
    requires Calculates(op)
    ensures forall i :: 0 <= i < |Select(op)| ==> !Select(op)[i].opcode.SetIf? && !Select(op)[i].opcode.JmpIf?
  {
  }

  /** Three operations that calculate, as repaired instructions. */
  lemma ThreeRun(w: World, mem0: Bytes, p: IrOp, q: IrOp, r: IrOp, st: Store, st1: Store, st2: Store, st3: Store, m: Machine)
    returns (m': Machine)
    requires Calculates(p) && Calculates(q) && Calculates(r)
    requires OpTyped(w.layout, p) && OpTyped(w.layout, q) && OpTyped(w.layout, r) && Rel(w, mem0, st, m)
    requires Ir.Effect(w.layout, p, st) == Some(st1) && Ir.Effect(w.layout, q, st1) == Some(st2) && Ir.Effect(w.layout, r, st2) == Some(st3)
    ensures ExecAll(w.env, FixAll(CodeFor(w, [p, q, r])), m) == Some(m') && Rel(w, mem0, st3, m')
  {
    hide Select, Ir.Effect, OpTyped, Rel, ExecAll, FixAll, RepairableAnywhere, SameUpTo, FlagsAgree, BlockFits;
    var a, b, c := Framed(w, Select(p)), Framed(w, Select(q)), Framed(w, Select(r));
    var m1 := EffectSim(w, mem0, p, st, st1, m);
    var m2 := EffectSim(w, mem0, q, st1, st2, m1);
    var m3 := EffectSim(w, mem0, r, st2, st3, m2);
    ThreeCells(w, p, q, r);
    ExecJoin(w.env, a, b, m);
    ExecJoin(w.env, a + b, c, m);
    CalculationFits(w, p);
    CalculationFits(w, q);
    CalculationFits(w, r);
    AnywhereFits(a + b + c, Stale, {});
    AlwaysStale(m);
    FixAllExpands(a + b + c);
    m' := BlockSim(w.env, a + b + c, m, m, Stale, {}, m3);
    Kept(w, mem0, st3, m3, m', CxAfter(a + b + c, Stale));
  }

  lemma ThreeCells(w: World, p: IrOp, q: IrOp, r: IrOp)
    ensures CodeFor(w, [p, q, r]) == Framed(w, Select(p)) + Framed(w, Select(q)) + Framed(w, Select(r))
  {
    hide Select, CodeInFrame;
    assert [p, q, r] == [p] + [q] + [r];
    SelectAllJoin([p] + [q], [r]);
    SelectAllJoin([p], [q]);
    SelectAllOne(p);
    SelectAllOne(q);
    SelectAllOne(r);
    FramedJoin(w, Select(p) + Select(q), Select(r));
    FramedJoin(w, Select(p), Select(q));
  }

  lemma AlwaysStale(m: Machine)
    ensures SameUpTo(m, m, Stale) && FlagsAgree(m.flags, m.flags, {})
  {
  }

  lemma Kept(w: World, mem0: Bytes, st: Store, m: Machine, m': Machine, cx: CxState)
    requires Rel(w, mem0, st, m) && SameUpTo(m, m', cx)
    ensures Rel(w, mem0, st, m')
  {
    hide Rel, CxAgrees, Reg64;
    assert RBP !in JUNK;
    RegistersOnly(w, mem0, st, m, m');
  }

  // ------------------------------------------------------------------ the round trips

  /** A pointer and an index in variables or constants, and three temporaries. */
  ghost predicate Operands(w: World, p: IrVal, i: IrVal, t: CType, g: int) {
    && t.Pointer? && p.ty == t && i.ty == Long && Older(p, g) && Older(i, g) && ValTyped(w.layout, p) && ValTyped(w.layout, i)
    && (forall k :: g <= k < g + 3 ==> Tmp(k) in w.layout && w.layout[Tmp(k)].size == 8)
  }

  /** What the slot of the last temporary holds. */
  ghost predicate Yields(w: World, g: int, t: CType, m: Machine, v: nat) {
    ReadOp(w.env, Place(Ir.Variable(Tmp(g + 2), t), w).kind, W64, m) == Some(v)
  }

  lemma ResultHeld(w: World, mem0: Bytes, g: int, t: CType, st: Store, m: Machine, v: nat)
    requires Rel(w, mem0, st, m) && ValTyped(w.layout, Ir.Variable(Tmp(g + 2), t)) && t.Size() == 8
    requires Tmp(g + 2) in st && st[Tmp(g + 2)] < Modulus(Long)
    ensures Yields(w, g, t, m, v) <==> st[Tmp(g + 2)] == v
  {
    var x := Ir.Variable(Tmp(g + 2), t);
    ModularArithmetic.SmallMod(st[Tmp(g + 2)], Modulus(t));
    hide Rel, ReadOp, Place;
    ReadVal(w, mem0, x, t, st, m, st[Tmp(g + 2)]);
  }

  lemma SumTyped(w: World, p: IrVal, i: IrVal, t: CType, size: nat, g: int)
    requires Operands(w, p, i, t, g)
    ensures forall k :: 0 <= k < 3 ==>
              Calculates(SumLessPointerOps(p, i, t, size, g)[k]) && OpTyped(w.layout, SumLessPointerOps(p, i, t, size, g)[k])
              && Calculates(SumLessIndexOps(p, i, t, size, g)[k]) && OpTyped(w.layout, SumLessIndexOps(p, i, t, size, g)[k])
    ensures ValTyped(w.layout, Ir.Variable(Tmp(g + 2), t)) && ValTyped(w.layout, Ir.Variable(Tmp(g + 2), Long))
  {
    assert Tmp(g) in w.layout && Tmp(g + 1) in w.layout && Tmp(g + 2) in w.layout;
  }

  /** `(p + i) - p` is i on the machine exactly when the offset in bytes fits. */
  lemma SumLessPointerOnMachine(w: World, mem0: Bytes, p: IrVal, i: IrVal, t: CType, size: nat, g: int, a: nat, b: nat, st: Store, m: Machine)
    returns (m': Machine)
    requires Operands(w, p, i, t, g) && 0 < size < WORD / 2 && Rel(w, mem0, st, m)
    requires Ir.Read(p, st) == Some(a) && Ir.Read(i, st) == Some(b)
    ensures ExecAll(w.env, FixAll(CodeFor(w, SumLessPointerOps(p, i, t, size, g))), m) == Some(m')
    ensures Yields(w, g, Long, m', b) <==> OffsetFits(Signed64(b), size)
  {
    hide Rel, Ir.Effect, ExecAll, FixAll, CodeFor, OpTyped, Yields, OffsetFits;
    var ops := SumLessPointerOps(p, i, t, size, g);
    SumTyped(w, p, i, t, size, g);
    var st1, st2, st3 := SumLessPointerRuns(w.layout, p, i, t, size, g, a, b, st);
    assert ops == [ops[0], ops[1], ops[2]];
    m' := ThreeRun(w, mem0, ops[0], ops[1], ops[2], st, st1, st2, st3, m);
    ResultHeld(w, mem0, g, Long, st3, m', b);
  }

  /** `(p + i) - i` is p on the machine, always. */
  lemma SumLessIndexOnMachine(w: World, mem0: Bytes, p: IrVal, i: IrVal, t: CType, size: nat, g: int, a: nat, b: nat, st: Store, m: Machine)
    returns (m': Machine)
    requires Operands(w, p, i, t, g) && Rel(w, mem0, st, m)
    requires Ir.Read(p, st) == Some(a) && Ir.Read(i, st) == Some(b)
    ensures ExecAll(w.env, FixAll(CodeFor(w, SumLessIndexOps(p, i, t, size, g))), m) == Some(m')
    ensures Yields(w, g, t, m', a)
  {
    hide Rel, Ir.Effect, ExecAll, FixAll, CodeFor, OpTyped, Yields;
    var ops := SumLessIndexOps(p, i, t, size, g);
    SumTyped(w, p, i, t, size, g);
    var st1, st2, st3 := SumLessIndexRuns(w.layout, p, i, t, size, g, a, b, st);
    assert ops == [ops[0], ops[1], ops[2]];
    m' := ThreeRun(w, mem0, ops[0], ops[1], ops[2], st, st1, st2, st3, m);
    ReadBelow(p, st, a);
    ResultHeld(w, mem0, g, t, st3, m', a);
  }
}
