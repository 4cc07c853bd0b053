/** The x86-64 instructions that the code generator uses, and a machine that runs
    them: 64-bit registers with narrower aliases, byte-addressed memory and the
    outcome of the last comparison. */
module Asm {
  import opened Wrappers
  import opened CTypes

  datatype Word = W8 | W32 | W64
  {
    function Bytes(): (n: nat)
      ensures n == 1 || n == 4 || n == 8
    {
      match this case W8 => 1 case W32 => 4 case W64 => 8
    }

    function Mod(): (m: nat)
      ensures m > 0 && m % 2 == 0
    {
      ModulusOfSize(Bytes())
    }
  }

  function WordOf(t: CType): (w: Word)
    ensures w.Bytes() == t.Size() && w.Mod() == Modulus(t)
  {
    if t.IsCharLike() then W8 else if t.Int? || t.UnsignedInt? then W32 else W64
  }

  datatype Reg = DI | SI | DX | CX | R8 | R9 | AX | R10 | R11 | RSP | RBP | Xmm(n: nat)

  datatype Kind =
    | NoOperand
    | Immediate(num: int)
    | Register(reg: Reg)
    | Pseudo(id: int)
    | PseudoMem(id: int, at: int, total: nat)
    | Memory(offset: int, base: Reg)
    | Indexed(base: Reg, index: Reg, scale: int)
    | LabelRef(target: int)
    | FunctionRef(name: string)
    | Data(name: string)
    | DoubleConst(bits: nat)
    | StringConst(id: int)

  /** An operand that is left unset is an 8-bit one. */
  datatype Operand = Operand(kind: Kind, word: Word)

  const NONE := Operand(NoOperand, W8)

  datatype ArithOp = AddOp | SubOp | MulOp | AndOp | OrOp | XorOp

  datatype FpOp = FpAdd | FpSub | FpMul | FpDiv | FpXor

  datatype Cond = E | NE | G | GE | L | LE | A | AE | B | BE | P | NP

  datatype Opcode =
    | Mov | MovSx | MovZx | Lea
    | CvtDoubleToInt | CvtIntToDouble
    | Neg | Not | Dec | Inc
    | Arith(arith: ArithOp)
    | ShiftLeftOp | ShiftRightOp(signed: bool)
    | Cmp
    | Idiv | Div | Cdq | Cqo
    | FpArith(fp: FpOp) | FpCmp
    | Jmp | JmpIf(cond: Cond) | SetIf(cond: Cond)
    | LabelOp | Push | Call | RetOp

  datatype AsmOp = AsmOp(opcode: Opcode, a: Operand, b: Operand)
  {
    /** The word type of the last operand decides the width of the operation. */
    function Width(): Word {
      if !b.kind.NoOperand? then b.word else if !a.kind.NoOperand? then a.word else W32
    }
  }

  // ------------------------------------------------------------------ machine

  datatype FpOrder = FpLess | FpEqual | FpGreater | FpUnordered

  /** Arithmetic on doubles, which are opaque 64-bit patterns here. */
  datatype Fpu = Fpu(binary: (FpOp, nat, nat) -> nat, order: (nat, nat) -> FpOrder,
                     toInt: (Word, nat) -> nat, fromInt: (Word, nat) -> nat)

  /** Where the linker has put the named objects. */
  datatype Env = Env(symbols: string -> nat, strings: int -> nat, fpu: Fpu)

  datatype Flags = Unknown | Compared(eq: bool, below: bool, less: bool) | FpCompared(order: FpOrder)

  type Bytes = map<int, nat>

  datatype Machine = Machine(regs: map<Reg, nat>, mem: Bytes, flags: Flags)

  function Reg64(m: Machine, r: Reg): (v: nat)
    ensures v < W64.Mod()
  {
    if r in m.regs then m.regs[r] % W64.Mod() else 0
  }

  function ByteAt(mem: Bytes, a: int): (v: nat)
    ensures v < 256
  {
    if a in mem then mem[a] % 256 else 0
  }

  function LoadBytes(mem: Bytes, a: int, n: nat): nat
    decreases n
  {
    if n == 0 then 0 else ByteAt(mem, a) + 256 * LoadBytes(mem, a + 1, n - 1)
  }

  function StoreBytes(mem: Bytes, a: int, v: nat, n: nat): Bytes
    decreases n
  {
    if n == 0 then mem else StoreBytes(mem[a := v % 256], a + 1, v / 256, n - 1)
  }

  /** The address of an operand that lies in memory. */
  function Address(env: Env, k: Kind, m: Machine): Option<nat> {
    match k
    case Memory(off, base) => Some((Reg64(m, base) + off) % W64.Mod())
    case Indexed(base, index, scale) => Some((Reg64(m, base) + Reg64(m, index) * scale) % W64.Mod())
    case Data(name) => Some(env.symbols(name) % W64.Mod())
    case StringConst(id) => Some(env.strings(id) % W64.Mod())
    case _ => None
  }

  function ReadOp(env: Env, k: Kind, w: Word, m: Machine): Option<nat> {
    match k
    case Immediate(n) => Some(n % w.Mod())
    case Register(r) => Some(Reg64(m, r) % w.Mod())
    case DoubleConst(bits) => Some(bits % w.Mod())
    case _ =>
      var a :- Address(env, k, m);
      Some(LoadBytes(m.mem, a, w.Bytes()))
  }

  /** A 32-bit write clears the upper half of a register, an 8-bit write keeps the
      other bytes. */
  function WriteReg(m: Machine, r: Reg, w: Word, v: nat): Machine {
    var x := Reg64(m, r);
    m.(regs := m.regs[r := if w.W8? then x - x % 256 + v % 256 else v % w.Mod()])
  }

  function WriteOp(env: Env, k: Kind, w: Word, v: nat, m: Machine): Option<Machine> {
    match k
    case Register(r) => Some(WriteReg(m, r, w, v))
    case Memory(_, _) => WriteMem(env, k, w, v, m)
    case Data(_) => WriteMem(env, k, w, v, m)
    case _ => None
  }

  function WriteMem(env: Env, k: Kind, w: Word, v: nat, m: Machine): Option<Machine> {
    var a :- Address(env, k, m);
    Some(m.(mem := StoreBytes(m.mem, a, v, w.Bytes())))
  }

  // ------------------------------------------------------------- instructions

  function Trunc(w: Word, v: int): (r: nat)
    ensures r < w.Mod()
  {
    v % w.Mod()
  }

  function Signed(w: Word, v: nat): int {
    if v >= w.Mod() / 2 then v - w.Mod() else v
  }

  function ArithValue(op: ArithOp, w: Word, x: nat, y: nat): nat {
    match op
    case AddOp => Trunc(w, x + y)
    case SubOp => Trunc(w, x - y)
    case MulOp => Trunc(w, x * y)
    case AndOp => Trunc(w, BitAnd(x, y))
    case OrOp => Trunc(w, BitOr(x, y))
    case XorOp => Trunc(w, BitXor(x, y))
  }

  /** The count is masked to five or six bits. */
  function ShiftCount(w: Word, c: nat): nat {
    if w.W64? then c % 64 else c % 32
  }

  function ShiftLeftValue(w: Word, x: nat, c: nat): nat {
    Trunc(w, x * Pow2(ShiftCount(w, c)))
  }

  function ShiftRightValue(signed: bool, w: Word, x: nat, c: nat): nat {
    Trunc(w, (if signed then Signed(w, x) else x) / Pow2(ShiftCount(w, c)))
  }

  function CompareFlags(w: Word, x: nat, y: nat): Flags {
    Compared(x == y, x < y, Signed(w, x) < Signed(w, y))
  }

  /** What a condition says about the last comparison, when it says anything. */
  function Holds(c: Cond, f: Flags): Option<bool> {
    match f
    case Unknown => None
    case Compared(eq, below, less) =>
      (match c
       case E => Some(eq)
       case NE => Some(!eq)
       case L => Some(less)
       case LE => Some(less || eq)
       case G => Some(!(less || eq))
       case GE => Some(!less)
       case B => Some(below)
       case BE => Some(below || eq)
       case A => Some(!(below || eq))
       case AE => Some(!below)
       case _ => None)
    case FpCompared(o) =>
      (match c
       case E => Some(o.FpEqual? || o.FpUnordered?)
       case NE => Some(!(o.FpEqual? || o.FpUnordered?))
       case B => Some(o.FpLess? || o.FpUnordered?)
       case BE => Some(!o.FpGreater?)
       case A => Some(o.FpGreater?)
       case AE => Some(o.FpGreater? || o.FpEqual?)
       case P => Some(o.FpUnordered?)
       case NP => Some(!o.FpUnordered?)
       case _ => None)
  }

  function NoFlags(m: Machine): Machine {
    m.(flags := Unknown)
  }

  /** Instructions with one operand that is read and written. */
  function UpdateOne(env: Env, op: AsmOp, m: Machine): Option<Machine>
    requires op.opcode.Neg? || op.opcode.Not? || op.opcode.Dec? || op.opcode.Inc?
  {
    var w := op.Width();
    var x :- ReadOp(env, op.a.kind, w, m);
    var v: int := if op.opcode.Neg? then 0 - x else if op.opcode.Not? then w.Mod() - 1 - x else if op.opcode.Inc? then x + 1 else x - 1;
    WriteOp(env, op.a.kind, w, Trunc(w, v), if op.opcode.Not? then m else NoFlags(m))
  }

  /** How wide the first operand is read. */
  function SourceWidth(op: AsmOp): Word {
    match op.opcode
    case MovSx => op.a.word
    case MovZx => op.a.word
    case CvtIntToDouble => op.a.word
    case CvtDoubleToInt => W64
    case FpCmp => W64
    case Push => W64
    case ShiftLeftOp => W8
    case ShiftRightOp(_) => W8
    case _ => op.Width()
  }

  function Source(env: Env, op: AsmOp, m: Machine): Option<nat> {
    if op.opcode.Lea? then Address(env, op.a.kind, m) else ReadOp(env, op.a.kind, SourceWidth(op), m)
  }

  predicate Moves(o: Opcode) {
    o.Mov? || o.MovSx? || o.MovZx? || o.Lea? || o.CvtDoubleToInt? || o.CvtIntToDouble?
  }

  predicate Combines(o: Opcode) {
    o.Arith? || o.FpArith? || o.ShiftLeftOp? || o.ShiftRightOp?
  }

  /** What a moving instruction writes when it has read v. */
  function Converted(env: Env, op: AsmOp, v: nat): nat {
    match op.opcode
    case MovSx => Trunc(op.Width(), Signed(op.a.word, v))
    case CvtDoubleToInt => env.fpu.toInt(op.Width(), v)
    case CvtIntToDouble => env.fpu.fromInt(op.a.word, v)
    case _ => v
  }

  /** What is written back when the second operand holds x and v has been read. */
  function Combined(env: Env, o: Opcode, w: Word, x: nat, v: nat): nat {
    match o
    case Arith(a) => ArithValue(a, w, x, v)
    case FpArith(f) => env.fpu.binary(f, x, v)
    case ShiftLeftOp => ShiftLeftValue(w, x, v)
    case ShiftRightOp(s) => ShiftRightValue(s, w, x, v)
    case _ => x
  }

  /** The dividend is in dx and ax together; the quotient must fit. */
  function Divided(signed: bool, w: Word, hi: nat, lo: nat, y: nat): Option<(nat, nat)> {
    var n := (if signed then Signed(w, hi) else hi) * w.Mod() + lo;
    var d := if signed then Signed(w, y) else y;
    if d == 0 then None else
    var q, r := TruncDiv(n, d), TruncRem(n, d);
    if (if signed then -(w.Mod() / 2) <= q < w.Mod() / 2 else 0 <= q < w.Mod()) then Some((Trunc(w, q), Trunc(w, r))) else None
  }

  function DivideBy(op: AsmOp, v: nat, m: Machine): Option<Machine> {
    var w := op.Width();
    if w.W8? then None else
    var (q, r) :- Divided(op.opcode.Idiv?, w, Reg64(m, DX) % w.Mod(), Reg64(m, AX) % w.Mod(), v);
    Some(WriteReg(WriteReg(NoFlags(m), AX, w, q), DX, w, r))
  }

  function PushValue(env: Env, v: nat, m: Machine): Option<Machine> {
    WriteOp(env, Memory(0, RSP), W64, v, WriteReg(m, RSP, W64, (Reg64(m, RSP) - 8) % W64.Mod()))
  }

  /** The effect of an instruction that has read v from its first operand. */
  function Apply(env: Env, op: AsmOp, v: nat, m: Machine): Option<Machine> {
    var w := op.Width();
    if Moves(op.opcode) then WriteOp(env, op.b.kind, w, Converted(env, op, v), m)
    else if Combines(op.opcode) then
      var x :- ReadOp(env, op.b.kind, w, m);
      WriteOp(env, op.b.kind, w, Combined(env, op.opcode, w, x, v), if op.opcode.FpArith? then m else NoFlags(m))
    else
      match op.opcode
      case Cmp =>
        var x :- ReadOp(env, op.b.kind, w, m);
        Some(m.(flags := CompareFlags(w, x, v)))
      case FpCmp =>
        var x :- ReadOp(env, op.b.kind, W64, m);
        Some(m.(flags := FpCompared(env.fpu.order(x, v))))
      case Idiv => DivideBy(op, v, m)
      case Div => DivideBy(op, v, m)
      case Push => PushValue(env, v, m)
      case _ => None
  }

  /** Extends the sign of ax into dx. */
  function SignIntoDx(w: Word, m: Machine): Machine {
    WriteReg(m, DX, w, if Reg64(m, AX) % w.Mod() >= w.Mod() / 2 then w.Mod() - 1 else 0)
  }

  function SetByte(env: Env, k: Kind, h: Option<bool>, m: Machine): Option<Machine> {
    if h.None? then None else WriteOp(env, k, W8, if h.value then 1 else 0, m)
  }

  /** The effect of an instruction that falls through to the next one. */
  function Exec(env: Env, op: AsmOp, m: Machine): Option<Machine> {
    match op.opcode
    case Neg => UpdateOne(env, op, m)
    case Not => UpdateOne(env, op, m)
    case Dec => UpdateOne(env, op, m)
    case Inc => UpdateOne(env, op, m)
    case Cdq => Some(SignIntoDx(W32, m))
    case Cqo => Some(SignIntoDx(W64, m))
    case SetIf(c) => SetByte(env, op.a.kind, Holds(c, m.flags), m)
    case LabelOp => Some(m)
    case Jmp => None
    case JmpIf(_) => None
    case Call => None
    case RetOp => None
    case _ =>
      var v :- Source(env, op, m);
      Apply(env, op, v, m)
  }
}
