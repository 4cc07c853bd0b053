/** Instruction selection: each IR operation becomes one to four instructions over
    pseudo registers. */
module Selection {
  import opened CTypes
  import opened Ir
  import Asm

  type AsmOp = Asm.AsmOp
  type Operand = Asm.Operand
  type Opcode = Asm.Opcode

  /** An operand; the type gives the word. */
  function MapOperand(v: IrVal): Operand {
    match v
    case Constant(n, t) => Asm.Operand(Asm.Immediate(n), Asm.WordOf(t))
    case Variable(Tmp(id), t) => Asm.Operand(Asm.Pseudo(id), Asm.WordOf(t))
    case Variable(Data(name), t) => Asm.Operand(Asm.Kind.Data(name), Asm.WordOf(t))
  }

  function Target(l: int): Operand {
    Asm.Operand(Asm.LabelRef(l), Asm.W8)
  }

  /** The zero that is compared with and copied from has no word type of its own. */
  const ZERO := Asm.Operand(Asm.Immediate(0), Asm.W8)

  function InReg(r: Asm.Reg, w: Asm.Word): Operand {
    Asm.Operand(Asm.Register(r), w)
  }

  /** What an address in ax points to; the word is that of the pointer or of the
      value. */
  function ThroughAx(t: CType): Operand {
    Asm.Operand(Asm.Memory(0, Asm.AX), Asm.WordOf(t))
  }

  function Plain(o: Opcode): AsmOp {
    Asm.AsmOp(o, Asm.NONE, Asm.NONE)
  }

  function One(o: Opcode, a: Operand): AsmOp {
    Asm.AsmOp(o, a, Asm.NONE)
  }

  function Two(o: Opcode, a: Operand, b: Operand): AsmOp {
    Asm.AsmOp(o, a, b)
  }

  function Move(a: Operand, b: Operand): AsmOp {
    Two(Asm.Mov, a, b)
  }

  predicate InPlaceUpdate(a: IrVal, dst: IrVal) {
    a.Variable? && dst.Variable? && a.loc == dst.loc
  }

  /** Signedness decides between the two kinds of shifts and conditions. */
  function BinaryOpcode(op: BinaryOp, signed: bool): Opcode {
    match op
    case Add => Asm.Arith(Asm.AddOp)
    case Subtract => Asm.Arith(Asm.SubOp)
    case Multiply => Asm.Arith(Asm.MulOp)
    case And => Asm.Arith(Asm.AndOp)
    case Or => Asm.Arith(Asm.OrOp)
    case Xor => Asm.Arith(Asm.XorOp)
    case ShiftLeft => Asm.ShiftLeftOp
    case _ => Asm.ShiftRightOp(signed)
  }

  function Condition(op: BinaryOp, signed: bool): Asm.Cond {
    match op
    case Equal => Asm.E
    case NotEqual => Asm.NE
    case Less => if signed then Asm.L else Asm.B
    case LessEq => if signed then Asm.LE else Asm.BE
    case Greater => if signed then Asm.G else Asm.A
    case _ => if signed then Asm.GE else Asm.AE
  }

  function SelectBinary(op: BinaryOp, a: IrVal, b: IrVal, dst: IrVal): seq<AsmOp> {
    var signed := a.ty.IsSigned();
    if op.Divide? || op.Remainder? then
      var w := Asm.WordOf(a.ty);
      [Move(MapOperand(a), InReg(Asm.AX, w)),
       if !signed then Move(ZERO, InReg(Asm.DX, Asm.W64)) else if w.W64? then Plain(Asm.Cqo) else Plain(Asm.Cdq),
       One(if signed then Asm.Idiv else Asm.Div, MapOperand(b)),
       Move(InReg(if op.Divide? then Asm.AX else Asm.DX, w), MapOperand(dst))]
    else if op.IsCompare() then
      [Two(Asm.Cmp, MapOperand(b), MapOperand(a)), Move(ZERO, MapOperand(dst)), One(Asm.SetIf(Condition(op, signed)), MapOperand(dst))]
    else
      (if InPlaceUpdate(a, dst) then [] else [Move(MapOperand(a), MapOperand(dst))])
      + [Two(BinaryOpcode(op, signed), MapOperand(b), MapOperand(dst))]
  }

  function Scaled(scale: int): Operand {
    Asm.Operand(Asm.Indexed(Asm.AX, Asm.DX, scale), Asm.W64)
  }

  function SelectPointerAdd(base: IrVal, index: IrVal, scale: nat, dst: IrVal): seq<AsmOp> {
    var place := MapOperand(dst).(word := Asm.W64);
    [Move(MapOperand(base), InReg(Asm.AX, Asm.W64)), Move(MapOperand(index), InReg(Asm.DX, Asm.W64))]
    + if scale == 1 || scale == 2 || scale == 4 || scale == 8 then [Two(Asm.Lea, Scaled(scale), place)]
      else [Two(Asm.Arith(Asm.MulOp), Asm.Operand(Asm.Immediate(scale), Asm.W8), InReg(Asm.DX, Asm.W64)),
            Two(Asm.Lea, Scaled(1), place)]
  }

  function Select(op: IrOp): (code: seq<AsmOp>)
    ensures code != []
  {
    match op
    case Ret(None) => [Plain(Asm.RetOp)]
    case Ret(Some(v)) => [Move(MapOperand(v), InReg(Asm.AX, Asm.WordOf(v.ty))), Plain(Asm.RetOp)]
    case UnaryOf(LogicalNot, src, dst) =>
      [Two(Asm.Cmp, ZERO, MapOperand(src)), Move(ZERO, MapOperand(dst)), One(Asm.SetIf(Asm.E), MapOperand(dst))]
    case UnaryOf(u, src, dst) =>
      [Move(MapOperand(src), MapOperand(dst)), One(if u.Negate? then Asm.Neg else Asm.Not, MapOperand(dst))]
    case Bump(increment, place) => [One(if increment then Asm.Inc else Asm.Dec, MapOperand(place))]
    case BinaryOf(b, x, y, dst) => SelectBinary(b, x, y, dst)
    case Copy(src, dst) => [Move(MapOperand(src), MapOperand(dst))]
    case SignExtend(src, dst) => [Two(Asm.MovSx, MapOperand(src), MapOperand(dst))]
    case ZeroExtend(src, dst) => [Two(Asm.MovZx, MapOperand(src), MapOperand(dst))]
    case Truncate(src, dst) => [Move(MapOperand(src).(word := Asm.WordOf(dst.ty)), MapOperand(dst))]
    case GetAddress(src, dst) => [Two(Asm.Lea, MapOperand(src), MapOperand(dst))]
    case Load(ptr, dst) =>
      [Move(MapOperand(ptr), InReg(Asm.AX, Asm.W64)), Move(ThroughAx(ptr.ty), MapOperand(dst))]
    case Store(src, ptr) =>
      [Move(MapOperand(ptr), InReg(Asm.AX, Asm.WordOf(ptr.ty))), Move(MapOperand(src), ThroughAx(src.ty))]
    case PointerAdd(base, index, scale, dst) => SelectPointerAdd(base, index, scale, dst)
    case Jump(l) => [One(Asm.Jmp, Target(l))]
    case JumpIfZero(v, l) => [Two(Asm.Cmp, ZERO, MapOperand(v)), One(Asm.JmpIf(Asm.E), Target(l))]
    case JumpIfNotZero(v, l) => [Two(Asm.Cmp, ZERO, MapOperand(v)), One(Asm.JmpIf(Asm.NE), Target(l))]
    case LabelAt(l) => [One(Asm.LabelOp, Target(l))]
  }

  function SelectAll(ops: seq<IrOp>): seq<AsmOp> {
    if ops == [] then [] else Select(ops[0]) + SelectAll(ops[1..])
  }

  lemma {:induction false} SelectAllJoin(a: seq<IrOp>, b: seq<IrOp>)
    ensures SelectAll(a + b) == SelectAll(a) + SelectAll(b)
    decreases |a|
  {
    if a == [] {
      assert a + b == b;
    } else {
      assert (a + b)[1..] == a[1..] + b;
      SelectAllJoin(a[1..], b);
    }
  }

  /** All operations of a function, one after the other. */
  method CodegenStatement(ops: seq<IrOp>) returns (code: seq<AsmOp>)
    ensures code == SelectAll(ops)
  {
    hide Select, SelectAll;
    code := [];
    assert ops[0..] == ops;
    for i := 0 to |ops|
      invariant SelectAll(ops) == code + SelectAll(ops[i..])
    {
      SelectFrom(ops, i);
      code := code + Select(ops[i]);
    }
    NothingSelected();
    assert ops[|ops|..] == [] && code + [] == code;
  }

  lemma SelectFrom(ops: seq<IrOp>, i: nat)
    requires i < |ops|
    ensures SelectAll(ops[i..]) == Select(ops[i]) + SelectAll(ops[i + 1..])
  {
    hide Select;
    assert ops[i..][1..] == ops[i + 1..];
  }

  lemma NothingSelected()
    ensures SelectAll([]) == []
  {
  }
}
