/** The three-address intermediate representation and the machine that runs it
    over bit patterns. */
module Ir {
  import opened Wrappers
  import opened CTypes
  import opened CAst
  import CSemantics

  type Store = CSemantics.Store
  type Layout = CSemantics.Layout

  datatype IrVal = Constant(num: int, ty: CType) | Variable(loc: Loc, ty: CType)

  datatype IrOp =
    | Ret(result: Option<IrVal>)
    | UnaryOf(uop: UnaryOp, src: IrVal, dst: IrVal)
    | Bump(increment: bool, place: IrVal)
    | BinaryOf(bop: BinaryOp, a: IrVal, b: IrVal, dst: IrVal)
    | Copy(src: IrVal, dst: IrVal)
    | SignExtend(src: IrVal, dst: IrVal)
    | Truncate(src: IrVal, dst: IrVal)
    | ZeroExtend(src: IrVal, dst: IrVal)
    | GetAddress(src: IrVal, dst: IrVal)
    | Load(ptr: IrVal, dst: IrVal)
    | Store(src: IrVal, ptr: IrVal)
    | PointerAdd(base: IrVal, index: IrVal, scale: nat, dst: IrVal)
    | Jump(target: int)
    | JumpIfZero(cond: IrVal, target: int)
    | JumpIfNotZero(cond: IrVal, target: int)
    | LabelAt(id: int)

  // ---------------------------------------------------------------- operands

  /** The bits of an operand at the width of type t. */
  function ReadAs(v: IrVal, t: CType, st: Store): Option<nat> {
    match v
    case Constant(n, _) => Some(Bits(t, n))
    case Variable(l, _) => if l in st then Some(st[l] % Modulus(t)) else None
  }

  function Read(v: IrVal, st: Store): Option<nat> {
    ReadAs(v, v.ty, st)
  }

  function Write(dst: IrVal, b: nat, st: Store): Option<Store> {
    if dst.Variable? then Some(st[dst.loc := b % Modulus(dst.ty)]) else None
  }

  // --------------------------------------------------- operators on bit patterns

  function UnaryBits(op: UnaryOp, t: CType, a: nat): nat {
    match op
    case Negate => Bits(t, 0 - a)
    case Complement => Bits(t, Modulus(t) - 1 - a)
    case LogicalNot => if a == 0 then 1 else 0
  }

  /** Two's complement arithmetic at the width and signedness of t. */
  function BinaryBits(op: BinaryOp, t: CType, a: nat, b: nat): Option<nat> {
    match op
    case Add => Some(Bits(t, a + b))
    case Subtract => Some(Bits(t, a - b))
    case Multiply => Some(Bits(t, a * b))
    case Divide => if DivideTraps(t, a, b) then None else Some(QuotientBits(t, a, b))
    case Remainder => if DivideTraps(t, a, b) then None else Some(RemainderBits(t, a, b))
    case And => Some(Bits(t, BitAnd(a, b)))
    case Or => Some(Bits(t, BitOr(a, b)))
    case Xor => Some(Bits(t, BitXor(a, b)))
    case ShiftLeft => if b < 8 * t.Size() then Some(Bits(t, a * Pow2(b))) else None
    case ShiftRight => if b < 8 * t.Size() then Some(ShiftRightBits(t, a, b)) else None
    case Equal => Some(if a == b then 1 else 0)
    case NotEqual => Some(if a != b then 1 else 0)
    case Less => Some(if BitsLess(t, a, b) then 1 else 0)
    case LessEq => Some(if !BitsLess(t, b, a) then 1 else 0)
    case Greater => Some(if BitsLess(t, b, a) then 1 else 0)
    case GreaterEq => Some(if !BitsLess(t, a, b) then 1 else 0)
  }

  /** Division by zero, and the quotient that does not fit. */
  predicate DivideTraps(t: CType, a: nat, b: nat) {
    Value(t, b) == 0 || (t.IsSigned() && a == Modulus(t) / 2 && b == Modulus(t) - 1)
  }

  function QuotientBits(t: CType, a: nat, b: nat): nat
    requires Value(t, b) != 0
  {
    Bits(t, TruncDiv(Value(t, a), Value(t, b)))
  }

  function RemainderBits(t: CType, a: nat, b: nat): nat
    requires Value(t, b) != 0
  {
    Bits(t, TruncRem(Value(t, a), Value(t, b)))
  }

  /** Arithmetic for signed types, logical for the others. */
  function ShiftRightBits(t: CType, a: nat, b: nat): nat {
    Bits(t, Value(t, a) / Pow2(b))
  }

  /** Signed comparison flips the sign bit and compares the patterns. */
  predicate BitsLess(t: CType, a: nat, b: nat) {
    var h := Modulus(t) / 2;
    if t.IsSigned() then (a + h) % Modulus(t) < (b + h) % Modulus(t) else a < b
  }

  /** Copies the sign bit of a pattern of `from` into the upper bits of `to`. */
  function SignExtendBits(from: CType, to: CType, a: nat): nat {
    if a >= Modulus(from) / 2 && Modulus(from) <= Modulus(to) then a + (Modulus(to) - Modulus(from)) else a
  }

  // ------------------------------------------------------------------ machine

  datatype Config =
    | Running(pc: nat, st: Store)
    | Halted(result: Option<Typed>, st: Store)
    | Stuck

  function FindLabel(code: seq<IrOp>, id: int): Option<nat> {
    FindLabelFrom(code, id, 0)
  }

  function FindLabelFrom(code: seq<IrOp>, id: int, i: nat): (r: Option<nat>)
    requires i <= |code|
    ensures r.Some? ==> i <= r.value < |code| && code[r.value] == LabelAt(id)
    decreases |code| - i
  {
    if i == |code| then None
    else if code[i] == LabelAt(id) then Some(i)
    else FindLabelFrom(code, id, i + 1)
  }

  function JumpTo(code: seq<IrOp>, id: int, st: Store): Config {
    match FindLabel(code, id)
    case Some(pc) => Running(pc, st)
    case None => Stuck
  }

  function Next(pc: nat, st: Option<Store>): Config {
    if st.Some? then Running(pc + 1, st.value) else Stuck
  }

  function BumpBits(increment: bool, t: CType, a: nat): nat {
    (a + if increment then 1 else Modulus(t) - 1) % Modulus(t)
  }

  /** The effect of an operation that falls through to the next one. */
  ghost function Effect(layout: Layout, op: IrOp, st: Store): Option<Store>
    requires !op.Ret? && !op.Jump? && !op.JumpIfZero? && !op.JumpIfNotZero?
  {
    match op
    case UnaryOf(u, src, dst) =>
      var a :- Read(src, st);
      Write(dst, UnaryBits(u, src.ty, a), st)
    case Bump(increment, place) =>
      var a :- Read(place, st);
      Write(place, BumpBits(increment, place.ty, a), st)
    case BinaryOf(bop, x, y, dst) =>
      var a :- Read(x, st);
      var b :- ReadAs(y, x.ty, st);
      var c :- BinaryBits(bop, x.ty, a, b);
      Write(dst, c, st)
    case Copy(src, dst) =>
      var a :- ReadAs(src, dst.ty, st);
      Write(dst, a, st)
    case SignExtend(src, dst) =>
      var a :- Read(src, st);
      Write(dst, SignExtendBits(src.ty, dst.ty, a), st)
    case Truncate(src, dst) =>
      var a :- ReadAs(src, dst.ty, st);
      Write(dst, a, st)
    case ZeroExtend(src, dst) =>
      var a :- Read(src, st);
      Write(dst, a, st)
    case GetAddress(src, dst) =>
      if src.Variable? && src.loc in layout then Write(dst, layout[src.loc].address, st) else None
    case Load(ptr, dst) =>
      var a :- Read(ptr, st);
      var l :- CSemantics.LocAt(layout, a, dst.ty.Size());
      if l in st then Write(dst, st[l], st) else None
    case Store(src, ptr) =>
      var a :- Read(ptr, st);
      var l :- CSemantics.LocAt(layout, a, src.ty.Size());
      var v :- Read(src, st);
      if l in st then Some(st[l := v]) else None
    case PointerAdd(base, index, scale, dst) =>
      var a :- Read(base, st);
      var i :- ReadAs(index, Long, st);
      Write(dst, a + i * scale, st)
    case LabelAt(_) => Some(st)
  }

  ghost function Step(code: seq<IrOp>, layout: Layout, c: Config): Config {
    if !c.Running? then c
    else if c.pc >= |code| then Stuck
    else
      match code[c.pc]
      case Ret(None) => Halted(None, c.st)
      case Ret(Some(v)) =>
        (match Read(v, c.st) case Some(b) => Halted(Some(Typed(b, v.ty)), c.st) case None => Stuck)
      case Jump(l) => JumpTo(code, l, c.st)
      case JumpIfZero(v, l) =>
        (match Read(v, c.st)
         case None => Stuck
         case Some(b) => if b == 0 then JumpTo(code, l, c.st) else Running(c.pc + 1, c.st))
      case JumpIfNotZero(v, l) =>
        (match Read(v, c.st)
         case None => Stuck
         case Some(b) => if b != 0 then JumpTo(code, l, c.st) else Running(c.pc + 1, c.st))
      case op => Next(c.pc, Effect(layout, op, c.st))
  }

  /** The configuration after k steps. */
  ghost function Iter(code: seq<IrOp>, layout: Layout, c: Config, k: nat): Config
    decreases k
  {
    if k == 0 then c else Iter(code, layout, Step(code, layout, c), k - 1)
  }
}
