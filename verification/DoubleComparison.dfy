/** Comparison of two doubles: the only selected code that keeps a value in cx. What it
    computes when one of them is not a number, and that its repaired form computes the
    same wherever repaired shifts have been before. */
module DoubleComparison {
  import opened Wrappers
  import opened CTypes
  import Ir
  import opened Asm
  import opened MachineFacts
  import opened Fixups
  import opened FixupMeaning
  import opened Selection
  import opened SelectionMeaning
  import opened EndToEnd

  type IrVal = Ir.IrVal

  const RCX := InReg(CX, W64)

  /** The condition that comisd and the unsigned conditions give for an operator. */
  function FpCondition(op: BinaryOp): Cond
    requires op.IsCompare()
  {
    match op
    case Equal => E
    case NotEqual => NE
    case Less => B
    case LessEq => BE
    case Greater => Cond.A
    case GreaterEq => AE
  }

  /** Two comparisons are combined: the operator's own, and whether the operands can be
      compared at all. */
  function CompareDoubles(op: BinaryOp, x: Operand, y: Operand, d: Operand): seq<AsmOp>
    requires op.IsCompare()
  {
    [Two(FpCmp, y, x), Move(ZERO, d), Move(ZERO, RCX), One(SetIf(if op.NotEqual? then P else NP), RCX), One(SetIf(FpCondition(op)), d),
     Two(Arith(if op.NotEqual? then OrOp else AndOp), RCX, d)]
  }

  /** What the operator says about the order of two doubles (section 6.5.8 and 6.5.9);
      nothing but `!=` holds for operands without an order. */
  predicate Related(op: BinaryOp, o: FpOrder)
    requires op.IsCompare()
  {
    match op
    case Equal => o.FpEqual?
    case NotEqual => !o.FpEqual?
    case Less => o.FpLess?
    case LessEq => o.FpLess? || o.FpEqual?
    case Greater => o.FpGreater?
    case GreaterEq => o.FpGreater? || o.FpEqual?
  }

  function Truth(b: bool): nat {
    if b then 1 else 0
  }

  lemma TwoTests(op: BinaryOp, o: FpOrder)
    requires op.IsCompare()
    ensures var f := FpCompared(o);
            && Asm.Holds(FpCondition(op), f).Some? && Asm.Holds(if op.NotEqual? then P else NP, f).Some?
            && var p, q := Asm.Holds(FpCondition(op), f).value, Asm.Holds(if op.NotEqual? then P else NP, f).value;
               Related(op, o) == if op.NotEqual? then p || q else p && q
  {
  }

  /** A truth value is set up in cx. */
  lemma FlagInCx(env: Env, c: Cond, h: bool, m: Machine) returns (m1: Machine, m2: Machine)
    requires Asm.Holds(c, m.flags) == Some(h)
    ensures Exec(env, Move(ZERO, RCX), m) == Some(m1) && Exec(env, One(SetIf(c), RCX), m1) == Some(m2)
    ensures m2.mem == m.mem && m2.flags == m.flags && SameRegs(m, m2, {CX}) && Reg64(m2, CX) == Truth(h)
  {
    hide Asm.Holds, Exec, WriteReg, Reg64;
    m1 := WriteReg(m, CX, W64, 0);
    WrittenWide(m, CX, W64, 0);
    m2 := WriteReg(m1, CX, W8, Truth(h));
    WriteRegFrame(m, CX, W64, 0);
    WriteRegFrame(m1, CX, W8, Truth(h));
    FlagSteps(env, c, h, m);
    FlagByte(m1, h);
  }

  lemma FlagSteps(env: Env, c: Cond, h: bool, m: Machine)
    requires Asm.Holds(c, m.flags) == Some(h)
    ensures var m1 := WriteReg(m, CX, W64, 0);
            && Exec(env, Move(ZERO, RCX), m) == Some(m1)
            && (m1.flags == m.flags ==> Exec(env, One(SetIf(c), RCX), m1) == Some(WriteReg(m1, CX, W8, Truth(h))))
  {
    hide Asm.Holds, Reg64;
  }

  lemma FlagByte(m: Machine, h: bool)
    requires Reg64(m, CX) == 0
    ensures Reg64(WriteReg(m, CX, W8, Truth(h)), CX) == Truth(h)
  {
    MachineFacts.LowByte(0, Truth(h));
  }

  lemma BothBits(h: bool, p: bool)
    ensures BitAnd(Truth(h), Truth(p)) == Truth(h && p) && BitOr(Truth(h), Truth(p)) == Truth(h || p)
  {
    assert BitAnd(0, 0) == 0 && BitOr(0, 0) == 0;
  }

  lemma TruthCombined(either: bool, h: bool, p: bool)
    ensures ArithValue(if either then OrOp else AndOp, W32, Truth(h), Truth(p)) == Truth(if either then h || p else h && p)
  {
    BothBits(h, p);
    hide BitAnd, BitOr;
  }

  /** The two truth values are combined in the result. */
  lemma CombineFlags(w: World, mem0: Bytes, either: bool, d: IrVal, h: bool, p: bool, st: Ir.Store, m: Machine) returns (m': Machine)
    requires d.ty == Int && IsDest(w.layout, d) && Rel(w, mem0, st[d.loc := Truth(h)], m) && Reg64(m, CX) == Truth(p)
    ensures Exec(w.env, Two(Arith(if either then OrOp else AndOp), RCX, Place(d, w)), m) == Some(m')
    ensures Rel(w, mem0, st[d.loc := Truth(if either then h || p else h && p)], m')
  {
    hide Rel, Place, ArithValue, Exec, WriteOp;
    var st1, a := st[d.loc := Truth(h)], if either then OrOp else AndOp;
    ReadVal(w, mem0, d, Int, st1, m, Truth(h));
    DestPlace(w, d, m, mem0, st1);
    TruthCombined(either, h, p);
    var o := Two(Arith(a), RCX, Place(d, w));
    var v := Truth(if either then h || p else h && p);
    CombineEffect(w.env, o, Truth(h), Truth(p), m);
    RegistersOnly(w, mem0, st1, m, NoFlags(m));
    m' := WriteVal(w, mem0, d, v, st1, NoFlags(m));
    assert st1[d.loc := v] == st[d.loc := v];
  }

  /** The instructions yield what the operator says about the order of the operands. */
  lemma ComparisonMeans(w: World, mem0: Bytes, op: BinaryOp, x: Operand, y: Operand, d: IrVal, a: nat, b: nat, st: Ir.Store, m: Machine)
    returns (m': Machine)
    requires op.IsCompare() && d.ty == Int && IsDest(w.layout, d) && Rel(w, mem0, st, m)
    requires ReadOp(w.env, x.kind, W64, m) == Some(a) && ReadOp(w.env, y.kind, W64, m) == Some(b)
    ensures ExecAll(w.env, CompareDoubles(op, x, y, Place(d, w)), m) == Some(m')
    ensures Rel(w, mem0, st[d.loc := Truth(Related(op, w.env.fpu.order(a, b)))], m')
  {
    hide Rel, Exec, ExecAll, Asm.Holds, FpCondition, ReadOp, Reg64;
    var o := w.env.fpu.order(a, b);
    var p := Place(d, w);
    var c, q := FpCondition(op), if op.NotEqual? then P else NP;
    TwoTests(op, o);
    var h, ordered := Asm.Holds(c, FpCompared(o)).value, Asm.Holds(q, FpCompared(o)).value;
    var m1 := m.(flags := FpCompared(o));
    ComparesDoubles(w.env, x, y, a, b, m);
    SameRegisters(m, m1);
    RegistersOnly(w, mem0, st, m, m1);
    var m2 := ZeroToVar(w, mem0, d, st, m1);
    var m3, m4 := FlagInCx(w.env, q, ordered, m2);
    KeepsFramePointer(w, mem0, st[d.loc := 0], m2, m4, {CX});
    var m5 := SetFlagByte(w, mem0, d, c, h, st[d.loc := 0], m4);
    assert st[d.loc := 0][d.loc := Truth(h)] == st[d.loc := Truth(h)];
    CxStill(w.env, c, p, h, m4, m5);
    m' := CombineFlags(w, mem0, op.NotEqual?, d, h, ordered, st, m5);
    ExecThree(w.env, Two(FpCmp, y, x), Move(ZERO, p), Move(ZERO, RCX), m, m1, m2, m3);
    ExecThree(w.env, One(SetIf(q), RCX), One(SetIf(c), p), Two(Arith(if op.NotEqual? then OrOp else AndOp), RCX, p), m3, m4, m5, m');
    var first := [Two(FpCmp, y, x), Move(ZERO, p), Move(ZERO, RCX)];
    var second := [One(SetIf(q), RCX), One(SetIf(c), p), Two(Arith(if op.NotEqual? then OrOp else AndOp), RCX, p)];
    assert CompareDoubles(op, x, y, p) == first + second;
    ExecJoin(w.env, first, second, m);
  }

  lemma ComparesDoubles(env: Env, x: Operand, y: Operand, a: nat, b: nat, m: Machine)
    requires ReadOp(env, x.kind, W64, m) == Some(a) && ReadOp(env, y.kind, W64, m) == Some(b)
    ensures Exec(env, Two(FpCmp, y, x), m) == Some(m.(flags := FpCompared(env.fpu.order(a, b))))
  {
  }

  lemma CxStill(env: Env, c: Cond, d: Operand, h: bool, m: Machine, m': Machine)
    requires Exec(env, One(SetIf(c), d), m) == Some(m') && CX !in Uses(d.kind)
    ensures Reg64(m', CX) == Reg64(m, CX)
  {
    assert d.kind != Register(CX);
    KeepsCx(env, One(SetIf(c), d), m, m');
  }

  // ------------------------------------------------------------------ the repairs

  /** Whatever a repaired shift has left in cx: it is overwritten before it is read. */
  lemma ComparisonFits(op: BinaryOp, x: Operand, y: Operand, d: Operand, cx: CxState)
    requires op.IsCompare() && Usable(x) && Usable(y) && Usable(d) && x.word.W64? && d.word.W32?
    ensures BlockFits(CompareDoubles(op, x, y, d), cx, {})
  {
    hide Usable, Repairable, FpCondition;
    PartsFit(op, x, y, d);
    var code, c := CompareDoubles(op, x, y, d), {};
    var k1 := NextConds(code[0], c);
    assert k1 == ALL;
    assert NextCx(code[0], cx) == cx && NextCx(code[1], cx) == cx && NextCx(code[2], cx) == Whole;
    assert BlockFits(code[6..], Whole, KeptConds(code[5]));
    assert code[5..][0] == code[5] && code[5..][1..] == code[6..];
    assert BlockFits(code[5..], Whole, ALL);
    assert code[4..][0] == code[4] && code[4..][1..] == code[5..];
    AllConds({FpCondition(op)});
    assert BlockFits(code[4..], Whole, ALL);
    assert code[3..][0] == code[3] && code[3..][1..] == code[4..];
    assert BlockFits(code[3..], Whole, ALL);
    assert code[2..][0] == code[2] && code[2..][1..] == code[3..];
    assert BlockFits(code[2..], cx, ALL);
    assert code[1..][0] == code[1] && code[1..][1..] == code[2..];
    assert BlockFits(code[1..], cx, ALL);
  }

  lemma PartsFit(op: BinaryOp, x: Operand, y: Operand, d: Operand)
    requires op.IsCompare() && Usable(x) && Usable(y) && Usable(d) && x.word.W64? && d.word.W32?
    ensures var code := CompareDoubles(op, x, y, d);
            && (forall i :: 0 <= i < 6 ==> Repairable(code[i]) && FixShift(code[i]).None?)
            && !MentionsCx(code[0]) && !MentionsCx(code[1]) && SetsCx(code[2]) && !MentionsCx(code[4])
            && !SetsCx(code[0]) && !SetsCx(code[1]) && !SetsCx(code[3]) && !SetsCx(code[4]) && !SetsCx(code[5])
  {
    hide FpCondition;
  }

  /** So the repaired comparison yields the same, from any state that agrees with the
      original one up to what repaired shifts have left in cx. */
  lemma ComparisonRepaired(w: World, mem0: Bytes, op: BinaryOp, x: Operand, y: Operand, d: IrVal, a: nat, b: nat, st: Ir.Store,
                           m: Machine, t: Machine, cx: CxState) returns (t': Machine)
    requires op.IsCompare() && d.ty == Int && IsDest(w.layout, d) && Rel(w, mem0, st, m) && SameUpTo(m, t, cx)
    requires Usable(x) && Usable(y) && x.word.W64?
    requires ReadOp(w.env, x.kind, W64, m) == Some(a) && ReadOp(w.env, y.kind, W64, m) == Some(b)
    ensures ExecAll(w.env, FixAll(CompareDoubles(op, x, y, Place(d, w))), t) == Some(t')
    ensures Rel(w, mem0, st[d.loc := Truth(Related(op, w.env.fpu.order(a, b)))], t')
  {
    hide Rel, ExecAll, FixAll, Usable, SameUpTo, BlockFits, FlagsAgree, ReadOp, CompareDoubles;
    var code := CompareDoubles(op, x, y, Place(d, w));
    PlaceUses(w, d);
    ComparisonFits(op, x, y, Place(d, w), cx);
    var m' := ComparisonMeans(w, mem0, op, x, y, d, a, b, st, m);
    NoConditions(m.flags, t.flags);
    FixAllExpands(code);
    t' := BlockSim(w.env, code, m, t, cx, {}, m');
    Kept(w, mem0, st[d.loc := Truth(Related(op, w.env.fpu.order(a, b)))], m', t', CxAfter(code, cx));
  }

  lemma NoConditions(f: Flags, g: Flags)
    ensures FlagsAgree(f, g, {})
  {
  }

  lemma Kept(w: World, mem0: Bytes, st: Ir.Store, m: Machine, m': Machine, cx: CxState)
    requires Rel(w, mem0, st, m) && SameUpTo(m, m', cx)
    ensures Rel(w, mem0, st, m')
  {
    hide Rel, CxAgrees, Reg64;
    assert RBP !in JUNK;
    RegistersOnly(w, mem0, st, m, m');
  }
}
