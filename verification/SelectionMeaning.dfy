/** The selected instructions do on the machine what an IR operation does on the
    map of objects, once every pseudo register has its slot. */
module SelectionMeaning {
  import opened Wrappers
  import opened CTypes
  import opened CAst
  import Ir
  import CSemantics
  import opened BitArithmetic
  import ModularArithmetic
  import opened Asm
  import opened MachineFacts
  import opened MemoryMap
  import opened StackFrame
  import opened FixupMeaning
  import opened Selection

  type Store = CSemantics.Store
  type Layout = CSemantics.Layout
  type IrVal = Ir.IrVal
  type IrOp = Ir.IrOp

  /** Where everything is: the frame at rbp with its offsets, and the named objects. */
  datatype World = World(layout: Layout, env: Env, rbp: nat, offs: map<int, nat>)

  ghost predicate Located(w: World, l: Loc)
    requires l in w.layout
  {
    match l
    case Tmp(id) => id in w.offs && w.layout[l].address == w.rbp - w.offs[id]
    case Data(name) => w.layout[l].address == w.env.symbols(name)
  }

  ghost predicate WorldOk(w: World) {
    Disjoint(w.layout) && w.rbp < W64.Mod() && forall l :: l in w.layout ==> Located(w, l)
  }

  /** The machine holds the store in its memory, and nothing else has changed since
      the memory was mem0. */
  ghost predicate Rel(w: World, mem0: Bytes, st: Store, m: Machine) {
    WorldOk(w) && Stored(w.layout, st, m.mem) && Reg64(m, RBP) == w.rbp && Outside(w.layout, mem0, m.mem)
  }

  /** A variable is as wide as its slot. */
  ghost predicate ValTyped(layout: Layout, v: IrVal) {
    v.Variable? ==> v.loc in layout && layout[v.loc].size == v.ty.Size()
  }

  /** The place of an operand once it is in the frame. */
  function Place(v: IrVal, w: World): Operand {
    InFrame(MapOperand(v), w.offs)
  }

  // ----------------------------------------------------------------- operands

  lemma RegistersOnly(w: World, mem0: Bytes, st: Store, m: Machine, m': Machine)
    requires Rel(w, mem0, st, m) && m'.mem == m.mem && Reg64(m', RBP) == Reg64(m, RBP)
    ensures Rel(w, mem0, st, m')
  {
  }

  lemma AddressOfVariable(w: World, v: IrVal, m: Machine)
    requires WorldOk(w) && ValTyped(w.layout, v) && v.Variable? && Reg64(m, RBP) == w.rbp
    ensures Address(w.env, Place(v, w).kind, m) == Some(w.layout[v.loc].address)
    ensures Place(v, w).kind.Memory? || Place(v, w).kind.Data?
    ensures Uses(Place(v, w).kind) <= {RBP} && Place(v, w).word == WordOf(v.ty)
  {
    assert Located(w, v.loc);
  }

  /** Reading an operand, at its own width or narrower. */
  lemma ReadVal(w: World, mem0: Bytes, v: IrVal, t: CType, st: Store, m: Machine, x: nat)
    requires Rel(w, mem0, st, m) && ValTyped(w.layout, v) && (v.Variable? ==> t.Size() <= v.ty.Size())
    requires Ir.ReadAs(v, t, st) == Some(x)
    ensures ReadOp(w.env, Place(v, w).kind, WordOf(t), m) == Some(x) && x < Modulus(t)
  {
    if v.Variable? {
      AddressOfVariable(w, v, m);
      var p := w.layout[v.loc];
      LoadNarrow(m.mem, p.address, t.Size(), p.size);
      WordPower(WordOf(t));
    }
  }

  /** Writing a variable. */
  lemma WriteVal(w: World, mem0: Bytes, d: IrVal, x: nat, st: Store, m: Machine) returns (m': Machine)
    requires Rel(w, mem0, st, m) && ValTyped(w.layout, d) && d.Variable?
    ensures WriteOp(w.env, Place(d, w).kind, WordOf(d.ty), x, m) == Some(m')
    ensures Rel(w, mem0, st[d.loc := x % Modulus(d.ty)], m') && m'.regs == m.regs && m'.flags == m.flags
  {
    AddressOfVariable(w, d, m);
    StoreThrough(w.layout, st, m.mem, d.loc, x);
    hide StoreBytes, Disjoint, Stored, Located;
    var p := w.layout[d.loc];
    m' := m.(mem := StoreBytes(m.mem, p.address, x, p.size));
    OutsideTrans(w.layout, mem0, m.mem, m'.mem);
  }

  lemma OutsideTrans(layout: Layout, a: Bytes, b: Bytes, c: Bytes)
    requires Outside(layout, a, b) && Outside(layout, b, c)
    ensures Outside(layout, a, c)
  {
  }

  // ------------------------------------------------------------- typed operations

  ghost predicate Same(x: IrVal, y: IrVal) {
    x.Variable? ==> x.ty.Size() == y.ty.Size()
  }

  /** Operations as lowering produces them: equal word types where the selected
      instructions need them, and results that do not overwrite an operand. */
  ghost predicate OpTyped(layout: Layout, op: IrOp) {
    match op
    case Ret(v) => v.Some? ==> ValTyped(layout, v.value)
    case UnaryOf(u, s, d) => ValTyped(layout, s) && IsDest(layout, d) && (!u.LogicalNot? ==> s.ty.Size() == d.ty.Size())
    case Bump(_, p) => IsDest(layout, p)
    case BinaryOf(b, x, y, d) =>
      && ValTyped(layout, x) && ValTyped(layout, y) && IsDest(layout, d) && y.ty.Size() == x.ty.Size()
      && (if b.Divide? || b.Remainder? then !x.ty.IsCharLike() && x.ty.Size() == d.ty.Size()
          else !b.IsCompare() ==> x.ty.Size() == d.ty.Size() && (y.Variable? && y.loc == d.loc ==> InPlaceUpdate(x, d)))
    case Copy(s, d) => ValTyped(layout, s) && IsDest(layout, d) && Same(s, d)
    case SignExtend(s, d) => ValTyped(layout, s) && IsDest(layout, d) && s.ty.Size() < d.ty.Size()
    case ZeroExtend(s, d) => ValTyped(layout, s) && IsDest(layout, d) && s.ty.Size() < d.ty.Size()
    case Truncate(s, d) => ValTyped(layout, s) && IsDest(layout, d) && d.ty.Size() < s.ty.Size()
    case GetAddress(s, d) => s.Variable? && ValTyped(layout, s) && IsDest(layout, d) && d.ty.Size() == 8
    case Load(p, d) => ValTyped(layout, p) && p.ty.Size() == 8 && IsDest(layout, d)
    case Store(s, p) => ValTyped(layout, s) && ValTyped(layout, p) && p.ty.Size() == 8
    case PointerAdd(b, i, _, d) =>
      ValTyped(layout, b) && b.ty.Size() == 8 && ValTyped(layout, i) && i.ty.Size() == 8 && IsDest(layout, d) && d.ty.Size() == 8
    case JumpIfZero(v, _) => ValTyped(layout, v)
    case JumpIfNotZero(v, _) => ValTyped(layout, v)
    case _ => true
  }

  ghost predicate IsDest(layout: Layout, d: IrVal) {
    d.Variable? && ValTyped(layout, d)
  }

  // ------------------------------------------------------------ one instruction

  function Framed(w: World, code: seq<AsmOp>): seq<AsmOp> {
    CodeInFrame(code, w.offs)
  }

  /** Operands that are not pseudo registers stay. */
  lemma Unframed(w: World)
    ensures forall o: Operand :: !IsPseudo(o) ==> InFrame(o, w.offs) == o
    ensures InFrame(NONE, w.offs) == NONE && InFrame(ZERO, w.offs) == ZERO
  {
  }

  lemma FramedCells(w: World, code: seq<AsmOp>)
    ensures |code| == 1 ==> Framed(w, code) == [OpInFrame(code[0], w.offs)]
    ensures |code| == 2 ==> Framed(w, code) == [OpInFrame(code[0], w.offs), OpInFrame(code[1], w.offs)]
    ensures |code| == 3 ==>
              Framed(w, code) == [OpInFrame(code[0], w.offs), OpInFrame(code[1], w.offs), OpInFrame(code[2], w.offs)]
    ensures |code| == 4 ==>
              Framed(w, code) == [OpInFrame(code[0], w.offs), OpInFrame(code[1], w.offs), OpInFrame(code[2], w.offs),
                                  OpInFrame(code[3], w.offs)]
  {
  }

  /** Copying an operand to a variable, at the width of the variable. */
  lemma MoveToVar(w: World, mem0: Bytes, a: Operand, s: IrVal, d: IrVal, x: nat, st: Store, m: Machine) returns (m': Machine)
    requires Rel(w, mem0, st, m) && ValTyped(w.layout, s) && IsDest(w.layout, d) && (s.Variable? ==> d.ty.Size() <= s.ty.Size())
    requires Ir.ReadAs(s, d.ty, st) == Some(x) && a.kind == Place(s, w).kind
    ensures Exec(w.env, Move(a, Place(d, w)), m) == Some(m')
    ensures Rel(w, mem0, st[d.loc := x], m') && m'.regs == m.regs && m'.flags == m.flags
  {
    hide Exec, ReadOp, WriteOp, Rel, InFrame, MapOperand;
    ReadVal(w, mem0, s, d.ty, st, m, x);
    DestPlace(w, d, m, mem0, st);
    MoveEffect(w.env, Move(a, Place(d, w)), x, m);
    m' := WriteVal(w, mem0, d, x, st, m);
    SmallModulus(x, Modulus(d.ty));
  }

  lemma SmallModulus(x: nat, n: nat)
    requires x < n
    ensures x % n == x
  {
  }

  lemma DestPlace(w: World, d: IrVal, m: Machine, mem0: Bytes, st: Store)
    requires Rel(w, mem0, st, m) && IsDest(w.layout, d)
    ensures Place(d, w).word == WordOf(d.ty) && (Place(d, w).kind.Memory? || Place(d, w).kind.Data?)
  {
    AddressOfVariable(w, d, m);
  }

  /** Copying an operand to a register. */
  lemma MoveToReg(w: World, mem0: Bytes, s: IrVal, t: CType, r: Reg, x: nat, st: Store, m: Machine) returns (m': Machine)
    requires Rel(w, mem0, st, m) && ValTyped(w.layout, s) && (s.Variable? ==> t.Size() <= s.ty.Size()) && r != RBP
    requires Ir.ReadAs(s, t, st) == Some(x)
    ensures Exec(w.env, Move(Place(s, w), InReg(r, WordOf(t))), m) == Some(m') && m' == WriteReg(m, r, WordOf(t), x)
    ensures Rel(w, mem0, st, m') && Reg64(m', r) % Modulus(t) == x
  {
    hide Exec, ReadOp, Rel, InFrame, MapOperand, WriteReg;
    ReadVal(w, mem0, s, t, st, m, x);
    MoveEffect(w.env, Move(Place(s, w), InReg(r, WordOf(t))), x, m);
    m' := WriteReg(m, r, WordOf(t), x);
    WrittenReg(m, r, WordOf(t), x, WordOf(t));
    WriteRegFrame(m, r, WordOf(t), x);
    RegistersOnly(w, mem0, st, m, m');
    SmallModulus(x, Modulus(t));
  }

  /** Copying a register to a variable. */
  lemma MoveFromReg(w: World, mem0: Bytes, r: Reg, u: Word, d: IrVal, st: Store, m: Machine) returns (m': Machine)
    requires Rel(w, mem0, st, m) && IsDest(w.layout, d)
    ensures Exec(w.env, Move(InReg(r, u), Place(d, w)), m) == Some(m')
    ensures Rel(w, mem0, st[d.loc := Reg64(m, r) % Modulus(d.ty)], m')
  {
    hide Exec, WriteOp, Rel, InFrame, MapOperand;
    DestPlace(w, d, m, mem0, st);
    var x := Reg64(m, r) % Modulus(d.ty);
    MoveEffect(w.env, Move(InReg(r, u), Place(d, w)), x, m);
    m' := WriteVal(w, mem0, d, x, st, m);
    SmallModulus(x, Modulus(d.ty));
  }

  /** The zero without a word type is copied at the width of its destination. */
  lemma ZeroToVar(w: World, mem0: Bytes, d: IrVal, st: Store, m: Machine) returns (m': Machine)
    requires Rel(w, mem0, st, m) && IsDest(w.layout, d)
    ensures Exec(w.env, Move(ZERO, Place(d, w)), m) == Some(m')
    ensures Rel(w, mem0, st[d.loc := 0], m') && m'.regs == m.regs && m'.flags == m.flags
  {
    hide Exec, WriteOp, Rel, InFrame, MapOperand;
    DestPlace(w, d, m, mem0, st);
    MoveEffect(w.env, Move(ZERO, Place(d, w)), 0, m);
    m' := WriteVal(w, mem0, d, 0, st, m);
    SmallModulus(0, Modulus(d.ty));
  }

  /** A byte written into an object that holds zero. */
  lemma ByteIntoZero(mem: Bytes, a: int, v: nat, n: nat)
    requires n > 0 && v < 256 && LoadBytes(mem, a, n) == 0
    ensures LoadBytes(StoreBytes(mem, a, v, 1), a, n) == v
  {
    assert StoreBytes(mem, a, v, 1) == mem[a := v % 256];
    LoadElsewhere(mem, a, v, 1, a + 1, n - 1);
  }

  lemma SetFlagByte(w: World, mem0: Bytes, d: IrVal, c: Cond, h: bool, st: Store, m: Machine) returns (m': Machine)
    requires Rel(w, mem0, st, m) && IsDest(w.layout, d) && d.loc in st && st[d.loc] == 0 && Holds(c, m.flags) == Some(h)
    ensures Exec(w.env, One(SetIf(c), Place(d, w)), m) == Some(m')
    ensures Rel(w, mem0, st[d.loc := if h then 1 else 0], m')
  {
    hide StoreBytes, LoadBytes, Asm.Holds, InFrame, MapOperand, Exec, ByteAt, Located;
    AddressOfVariable(w, d, m);
    var p, v: nat := w.layout[d.loc], if h then 1 else 0;
    var mem' := StoreBytes(m.mem, p.address, v, 1);
    m' := m.(mem := mem');
    SetEffect(w.env, c, Place(d, w), h, p.address, m);
    ByteIntoZero(m.mem, p.address, v, p.size);
    forall k | k in st && k != d.loc ensures LoadBytes(mem', w.layout[k].address, w.layout[k].size) == st[k] {
      assert Apart(w.layout[k], p);
      LoadElsewhere(m.mem, p.address, v, 1, w.layout[k].address, w.layout[k].size);
    }
    forall b: int | forall k :: k in w.layout ==> !InSlot(w.layout[k], b) ensures ByteAt(mem', b) == ByteAt(mem0, b) {
      assert !InSlot(p, b);
      StoreFrame(m.mem, p.address, v, 1, b);
    }
  }

  lemma SetEffect(env: Env, c: Cond, d: Operand, h: bool, a: nat, m: Machine)
    requires Asm.Holds(c, m.flags) == Some(h) && Address(env, d.kind, m) == Some(a) && (d.kind.Memory? || d.kind.Data?)
    ensures Exec(env, One(SetIf(c), d), m) == Some(m.(mem := StoreBytes(m.mem, a, if h then 1 else 0, 1)))
  {
    hide Asm.Holds, StoreBytes, Address;
  }

  // ------------------------------------------------------------- whole operations

  lemma UnarySim(w: World, mem0: Bytes, op: IrOp, st: Store, st': Store, m: Machine) returns (m': Machine)
    requires op.UnaryOf? && !op.uop.LogicalNot? && Rel(w, mem0, st, m) && OpTyped(w.layout, op)
    requires Ir.Effect(w.layout, op, st) == Some(st')
    ensures ExecAll(w.env, Framed(w, Select(op)), m) == Some(m') && Rel(w, mem0, st', m')
  {
    hide Exec, ReadOp, WriteOp, Rel, InFrame, MapOperand, ExecAll;
    var s, d := op.src, op.dst;
    var x := Ir.Read(s, st).value;
    var m1 := MoveToVar(w, mem0, Place(s, w), s, d, x, st, m);
    var o := One(if op.uop.Negate? then Neg else Not, Place(d, w));
    DestPlace(w, d, m1, mem0, st[d.loc := x]);
    SmallModulus(x, Modulus(d.ty));
    ReadVal(w, mem0, d, d.ty, st[d.loc := x], m1, x);
    var m2 := if op.uop.Negate? then NoFlags(m1) else m1;
    RegistersOnly(w, mem0, st[d.loc := x], m1, m2);
    var y := Ir.UnaryBits(op.uop, s.ty, x);
    UpdateEffect(w.env, o, x, m1);
    assert Trunc(WordOf(d.ty), if op.uop.Negate? then 0 - x else Modulus(d.ty) - 1 - x) == y;
    m' := WriteVal(w, mem0, d, y, st[d.loc := x], m2);
    FramedCells(w, Select(op));
    Unframed(w);
    SmallModulus(y, Modulus(d.ty));
    assert st[d.loc := x][d.loc := y] == st[d.loc := y];
    ExecTwo(w.env, Move(Place(s, w), Place(d, w)), o, m, m1, m');
  }

  lemma UpdateEffect(env: Env, op: AsmOp, x: nat, m: Machine)
    requires (op.opcode.Neg? || op.opcode.Not? || op.opcode.Inc? || op.opcode.Dec?) && op.b == NONE && !op.a.kind.NoOperand?
    requires ReadOp(env, op.a.kind, op.a.word, m) == Some(x)
    ensures var n := op.a.word.Mod();
            var v: int := if op.opcode.Neg? then 0 - x else if op.opcode.Not? then n - 1 - x else if op.opcode.Inc? then x + 1 else x - 1;
            Exec(env, op, m) == WriteOp(env, op.a.kind, op.a.word, Trunc(op.a.word, v), if op.opcode.Not? then m else NoFlags(m))
  {
    hide ReadOp, WriteOp, Word.Mod, Trunc, NoFlags;
  }

  lemma BumpSim(w: World, mem0: Bytes, op: IrOp, st: Store, st': Store, m: Machine) returns (m': Machine)
    requires op.Bump? && Rel(w, mem0, st, m) && OpTyped(w.layout, op)
    requires Ir.Effect(w.layout, op, st) == Some(st')
    ensures ExecAll(w.env, Framed(w, Select(op)), m) == Some(m') && Rel(w, mem0, st', m')
  {
    hide Exec, ReadOp, WriteOp, Rel, InFrame, MapOperand, ExecAll;
    var d := op.place;
    var x := Ir.Read(d, st).value;
    var o := One(if op.increment then Inc else Dec, Place(d, w));
    DestPlace(w, d, m, mem0, st);
    ReadVal(w, mem0, d, d.ty, st, m, x);
    RegistersOnly(w, mem0, st, m, NoFlags(m));
    UpdateEffect(w.env, o, x, m);
    var y := (x + if op.increment then 1 else Modulus(d.ty) - 1) % Modulus(d.ty);
    assert Trunc(WordOf(d.ty), if op.increment then x + 1 else x - 1) == y by {
      if !op.increment {
        ModUniqueHere(x, Modulus(d.ty));
      }
    }
    m' := WriteVal(w, mem0, d, y, st, NoFlags(m));
    FramedCells(w, Select(op));
    Unframed(w);
    ExecOne(w.env, o, m, m');
  }

  lemma ModUniqueHere(x: nat, n: nat)
    requires n > 0
    ensures (x - 1) % n == (x + n - 1) % n
  {
    ModularArithmetic.ModUnique(x + n - 1, x - 1, n, 1);
  }

  lemma ExecOne(env: Env, p: AsmOp, m: Machine, m1: Machine)
    requires Exec(env, p, m) == Some(m1)
    ensures ExecAll(env, [p], m) == Some(m1)
  {
    hide Exec;
    assert [p][1..] == [] && ExecAll(env, [], m1) == Some(m1);
  }

  /** The test for zero in front of a set or a jump. */
  lemma TestSim(w: World, mem0: Bytes, v: IrVal, x: nat, st: Store, m: Machine) returns (m': Machine)
    requires Rel(w, mem0, st, m) && ValTyped(w.layout, v) && Ir.Read(v, st) == Some(x)
    ensures Exec(w.env, Two(Cmp, ZERO, Place(v, w)), m) == Some(m') && Rel(w, mem0, st, m')
    ensures Asm.Holds(E, m'.flags) == Some(x == 0) && Asm.Holds(NE, m'.flags) == Some(x != 0)
  {
    hide Exec, Rel;
    ReadVal(w, mem0, v, v.ty, st, m, x);
    assert Place(v, w).word == WordOf(v.ty) && !Place(v, w).kind.NoOperand?;
    CompareEffect(w.env, Two(Cmp, ZERO, Place(v, w)), x, 0, m);
    m' := m.(flags := CompareFlags(WordOf(v.ty), x, 0));
    RegistersOnly(w, mem0, st, m, m');
  }

  lemma NotSim(w: World, mem0: Bytes, op: IrOp, st: Store, st': Store, m: Machine) returns (m': Machine)
    requires op.UnaryOf? && op.uop.LogicalNot? && Rel(w, mem0, st, m) && OpTyped(w.layout, op)
    requires Ir.Effect(w.layout, op, st) == Some(st')
    ensures ExecAll(w.env, Framed(w, Select(op)), m) == Some(m') && Rel(w, mem0, st', m')
  {
    hide Exec, Rel, InFrame, MapOperand, ExecAll, Asm.Holds, Modulus;
    var x := Ir.Read(op.src, st).value;
    var m1 := TestSim(w, mem0, op.src, x, st, m);
    var m2, m3 := SetSim(w, mem0, op.dst, E, x == 0, st, m1);
    FramedCells(w, Select(op));
    Unframed(w);
    BooleanFits(op.dst.ty, x == 0);
    ExecThree(w.env, Two(Cmp, ZERO, Place(op.src, w)), Move(ZERO, Place(op.dst, w)), One(SetIf(E), Place(op.dst, w)), m, m1, m2, m3);
    m' := m3;
  }

  lemma BooleanFits(t: CType, h: bool)
    ensures (if h then 1 else 0) % Modulus(t) == (if h then 1 else 0)
  {
  }

  /** Zero, and then the byte of the condition. */
  lemma SetSim(w: World, mem0: Bytes, d: IrVal, c: Cond, h: bool, st: Store, m: Machine) returns (m1: Machine, m2: Machine)
    requires Rel(w, mem0, st, m) && IsDest(w.layout, d) && Asm.Holds(c, m.flags) == Some(h)
    ensures Exec(w.env, Move(ZERO, Place(d, w)), m) == Some(m1) && Exec(w.env, One(SetIf(c), Place(d, w)), m1) == Some(m2)
    ensures Rel(w, mem0, st[d.loc := if h then 1 else 0], m2)
  {
    hide Exec, Rel, InFrame, MapOperand, Asm.Holds;
    m1 := ZeroToVar(w, mem0, d, st, m);
    m2 := SetFlagByte(w, mem0, d, c, h, st[d.loc := 0], m1);
    assert st[d.loc := 0][d.loc := if h then 1 else 0] == st[d.loc := if h then 1 else 0];
  }

  /** A condition on flags is the comparison of the patterns. */
  lemma ConditionMeans(op: BinaryOp, t: CType, x: nat, y: nat)
    requires op.IsCompare() && x < Modulus(t) && y < Modulus(t)
    ensures Ir.BinaryBits(op, t, x, y).Some?
    ensures Asm.Holds(Condition(op, t.IsSigned()), CompareFlags(WordOf(t), x, y)) == Some(Ir.BinaryBits(op, t, x, y).value != 0)
    ensures Ir.BinaryBits(op, t, x, y).value == 0 || Ir.BinaryBits(op, t, x, y).value == 1
  {
    hide Modulus, Value, Ir.BitsLess, Bits;
    LessRefines(t, x, y);
    LessRefines(t, y, x);
    SignedValue(t, x, y);
    hide Signed;
  }

  lemma SignedValue(t: CType, x: nat, y: nat)
    requires x < Modulus(t) && y < Modulus(t)
    ensures t.IsSigned() ==> Signed(WordOf(t), x) == Value(t, x) && Signed(WordOf(t), y) == Value(t, y)
    ensures !t.IsSigned() ==> (Ir.BitsLess(t, x, y) <==> x < y) && (Ir.BitsLess(t, y, x) <==> y < x)
  {
  }

  lemma CompareSim(w: World, mem0: Bytes, op: IrOp, st: Store, st': Store, m: Machine) returns (m': Machine)
    requires op.BinaryOf? && op.bop.IsCompare() && Rel(w, mem0, st, m) && OpTyped(w.layout, op)
    requires Ir.Effect(w.layout, op, st) == Some(st')
    ensures ExecAll(w.env, Framed(w, Select(op)), m) == Some(m') && Rel(w, mem0, st', m')
  {
    hide Exec, Rel, InFrame, ExecAll, Asm.Holds, Modulus, CompareFlags, Ir.BinaryBits, Condition;
    var a, b, d, t := op.a, op.b, op.dst, op.a.ty;
    var x, y := Ir.Read(a, st).value, Ir.ReadAs(b, t, st).value;
    ReadVal(w, mem0, a, t, st, m, x);
    ReadVal(w, mem0, b, t, st, m, y);
    PlaceWord(a, w);
    PlaceWord(b, w);
    hide MapOperand;
    var c := Condition(op.bop, t.IsSigned());
    var p := Two(Cmp, Place(b, w), Place(a, w));
    CompareEffect(w.env, p, x, y, m);
    var m1 := m.(flags := CompareFlags(WordOf(t), x, y));
    RegistersOnly(w, mem0, st, m, m1);
    ConditionMeans(op.bop, t, x, y);
    var h := Ir.BinaryBits(op.bop, t, x, y).value != 0;
    var m2, m3 := SetSim(w, mem0, d, c, h, st, m1);
    FramedCells(w, Select(op));
    Unframed(w);
    BooleanFits(d.ty, h);
    ExecThree(w.env, p, Move(ZERO, Place(d, w)), One(SetIf(c), Place(d, w)), m, m1, m2, m3);
    m' := m3;
  }

  lemma PlaceWord(v: IrVal, w: World)
    ensures Place(v, w).word == WordOf(v.ty) && !Place(v, w).kind.NoOperand?
  {
  }

  // ------------------------------------------------------------- arithmetic

  lemma ArithMeans(env: Env, op: BinaryOp, t: CType, x: nat, y: nat)
    requires !op.IsCompare() && !op.Divide? && !op.Remainder? && x < Modulus(t) && y < Modulus(t)
    requires Ir.BinaryBits(op, t, x, y).Some?
    ensures Combined(env, BinaryOpcode(op, t.IsSigned()), WordOf(t), x, if op.IsShift() then y % 256 else y)
         == Ir.BinaryBits(op, t, x, y).value
    ensures Ir.BinaryBits(op, t, x, y).value < Modulus(t)
  {
    hide Pow2, BitAnd, BitOr, BitXor;
    if op.IsShift() {
      assert y < 8 * t.Size() && y % 256 == y && Asm.ShiftCount(WordOf(t), y) == y by {
        SmallCount(t, y);
      }
    }
  }

  lemma SmallCount(t: CType, y: nat)
    requires y < 8 * t.Size()
    ensures y % 256 == y && Asm.ShiftCount(WordOf(t), y) == y
  {
  }

  lemma CombinedEffect(env: Env, op: AsmOp, x: nat, v: nat, m: Machine)
    requires Combines(op.opcode) && !op.opcode.FpArith? && !op.b.kind.NoOperand?
    requires ReadOp(env, op.b.kind, op.b.word, m) == Some(x) && ReadOp(env, op.a.kind, SourceWidth(op), m) == Some(v)
    ensures Exec(env, op, m) == WriteOp(env, op.b.kind, op.b.word, Combined(env, op.opcode, op.b.word, x, v), NoFlags(m))
  {
    hide Combined, ReadOp, WriteOp;
  }

  lemma ArithSim(w: World, mem0: Bytes, op: IrOp, st: Store, st': Store, m: Machine) returns (m': Machine)
    requires op.BinaryOf? && !op.bop.IsCompare() && !op.bop.Divide? && !op.bop.Remainder?
    requires Rel(w, mem0, st, m) && OpTyped(w.layout, op) && Ir.Effect(w.layout, op, st) == Some(st')
    ensures ExecAll(w.env, Framed(w, Select(op)), m) == Some(m') && Rel(w, mem0, st', m')
  {
    hide Exec, Rel, InFrame, ExecAll, Ir.BinaryBits, BinaryOpcode, Modulus, MapOperand;
    var a, b, d, t := op.a, op.b, op.dst, op.a.ty;
    var x, y := Ir.Read(a, st).value, Ir.ReadAs(b, t, st).value;
    var c := Ir.BinaryBits(op.bop, t, x, y).value;
    SameModulus(t, d.ty);
    var m1, st1 := m, st;
    if !InPlaceUpdate(a, d) {
      m1 := MoveToVar(w, mem0, Place(a, w), a, d, x, st, m);
      st1 := st[d.loc := x];
      ReadBack(d, x);
    }
    ReadVal(w, mem0, d, d.ty, st1, m1, x);
    ReadVal(w, mem0, b, t, st1, m1, y);
    var o := Two(BinaryOpcode(op.bop, t.IsSigned()), Place(b, w), Place(d, w));
    m' := CombineSim(w, mem0, op, x, y, st1, m1);
    FramedCells(w, Select(op));
    Unframed(w);
    assert st1[d.loc := c] == st[d.loc := c];
    if InPlaceUpdate(a, d) {
      ExecOne(w.env, o, m, m');
    } else {
      ExecTwo(w.env, Move(Place(a, w), Place(d, w)), o, m, m1, m');
    }
  }

  lemma OpcodeShape(op: BinaryOp, signed: bool, a: Operand, b: Operand)
    requires !op.IsCompare() && !op.Divide? && !op.Remainder? && !b.kind.NoOperand?
    ensures var o := Two(BinaryOpcode(op, signed), a, b);
            Combines(o.opcode) && !o.opcode.FpArith? && SourceWidth(o) == (if op.IsShift() then W8 else b.word)
  {
  }

  lemma SameModulus(t: CType, u: CType)
    ensures t.Size() == u.Size() ==> Modulus(t) == Modulus(u) && WordOf(t) == WordOf(u)
  {
  }

  lemma ReadBack(d: IrVal, x: nat)
    ensures x < Modulus(d.ty) ==> x % Modulus(d.ty) == x
  {
  }

  /** The arithmetic instruction itself, when the destination holds the left operand. */
  lemma CombineSim(w: World, mem0: Bytes, op: IrOp, x: nat, y: nat, st: Store, m: Machine) returns (m': Machine)
    requires op.BinaryOf? && !op.bop.IsCompare() && !op.bop.Divide? && !op.bop.Remainder?
    requires Rel(w, mem0, st, m) && OpTyped(w.layout, op) && Ir.BinaryBits(op.bop, op.a.ty, x, y).Some?
    requires x < Modulus(op.a.ty) && y < Modulus(op.a.ty)
    requires ReadOp(w.env, Place(op.dst, w).kind, WordOf(op.a.ty), m) == Some(x)
    requires ReadOp(w.env, Place(op.b, w).kind, WordOf(op.a.ty), m) == Some(y)
    ensures Exec(w.env, Two(BinaryOpcode(op.bop, op.a.ty.IsSigned()), Place(op.b, w), Place(op.dst, w)), m) == Some(m')
    ensures Rel(w, mem0, st[op.dst.loc := Ir.BinaryBits(op.bop, op.a.ty, x, y).value], m')
    ensures Ir.BinaryBits(op.bop, op.a.ty, x, y).value < Modulus(op.a.ty)
  {
    hide Exec, Rel, InFrame, Ir.BinaryBits, BinaryOpcode, Modulus, MapOperand, ReadOp, WriteOp, Combined, SourceWidth, Combines;
    var d, t := op.dst, op.a.ty;
    var o := Two(BinaryOpcode(op.bop, t.IsSigned()), Place(op.b, w), Place(d, w));
    var c := Ir.BinaryBits(op.bop, t, x, y).value;
    var v := if op.bop.IsShift() then y % 256 else y;
    SameModulus(t, d.ty);
    DestPlace(w, d, m, mem0, st);
    OpcodeShape(op.bop, t.IsSigned(), Place(op.b, w), Place(d, w));
    NarrowRead(w.env, o.a.kind, WordOf(t), W8, m);
    ArithMeans(w.env, op.bop, t, x, y);
    CombinedEffect(w.env, o, x, v, m);
    RegistersOnly(w, mem0, st, m, NoFlags(m));
    m' := WriteVal(w, mem0, d, c, st, NoFlags(m));
    ReadBack(d, c);
  }

  // ---------------------------------------------------------------- division

  /** A quotient of numbers of a type is a number of that type, except for the
      least number divided by -1. */
  lemma QuotientFits(x: int, y: int, h: nat)
    requires y != 0 && 0 - h <= x < h && !(x == 0 - h && y == -1) && h > 0
    ensures 0 - h <= TruncDiv(x, y) < h
  {
    var q := Abs(x) / Abs(y);
    AbsQuotient(Abs(x), Abs(y));
    if x == 0 - h && y < 0 {
      StrictQuotient(Abs(x), Abs(y));
    }
  }

  lemma AbsQuotient(a: nat, b: nat)
    requires b > 0
    ensures 0 <= a / b <= a && (a > 0 && b > 1 ==> a / b < a)
  {
    var q := a / b;
    assert a == q * b + a % b;
    if q > 0 {
      ModularArithmetic.AtLeastOne(q, b);
      assert q * b >= q by {
        ModularArithmetic.AtLeastOne(b, q);
      }
      if b > 1 {
        ModularArithmetic.Difference(b, 1, q);
        ModularArithmetic.AtLeastOne(b - 1, q);
      }
    }
  }

  lemma StrictQuotient(a: nat, b: nat)
    requires b > 0
    ensures a > 0 && b > 1 ==> a / b < a
  {
    AbsQuotient(a, b);
  }

  function HighHalf(t: CType, x: nat): nat {
    if t.IsSigned() && x >= Modulus(t) / 2 then Modulus(t) - 1 else 0
  }

  /** The machine's division of the extended dividend is that of the numbers. */
  lemma DividedMeans(t: CType, x: nat, y: nat)
    requires x < Modulus(t) && y < Modulus(t) && !Ir.DivideTraps(t, x, y)
    ensures Divided(t.IsSigned(), WordOf(t), HighHalf(t, x), x, y)
         == Some((Ir.QuotientBits(t, x, y), Ir.RemainderBits(t, x, y)))
  {
    var n, d := Value(t, x), Value(t, y);
    SignedValue(t, x, y);
    if t.IsSigned() {
      assert Signed(WordOf(t), HighHalf(t, x)) * Modulus(t) + x == n;
      QuotientFits(n, d, Modulus(t) / 2);
    } else {
      AbsQuotient(x, y);
      assert TruncDiv(x, y) == x / y;
    }
  }

  /** The second instruction of a division. */
  function Extend(t: CType): AsmOp {
    if !t.IsSigned() then Move(ZERO, InReg(DX, W64)) else if WordOf(t).W64? then Plain(Cqo) else Plain(Cdq)
  }

  lemma ExtendEffect(env: Env, t: CType, x: nat, m: Machine) returns (m': Machine)
    requires !t.IsCharLike() && Reg64(m, AX) % Modulus(t) == x
    ensures Exec(env, Extend(t), m) == Some(m') && m'.mem == m.mem && SameRegs(m, m', {DX})
    ensures Reg64(m', DX) % Modulus(t) == HighHalf(t, x)
  {
    var u, h := WordOf(t), HighHalf(t, x);
    if t.IsSigned() {
      m' := WriteReg(m, DX, u, h);
      WrittenReg(m, DX, u, h, u);
      WriteRegFrame(m, DX, u, h);
      ReadBackModulus(t, h);
    } else {
      m' := WriteReg(m, DX, W64, 0);
      WrittenReg(m, DX, W64, 0, u);
      WriteRegFrame(m, DX, W64, 0);
    }
  }

  lemma ReadBackModulus(t: CType, x: nat)
    requires x < Modulus(t)
    ensures x % Modulus(t) == x
  {
  }

  lemma DivideEffect(env: Env, op: AsmOp, y: nat, q: nat, r: nat, m: Machine) returns (m': Machine)
    requires (op.opcode.Idiv? || op.opcode.Div?) && op.b == NONE && !op.a.kind.NoOperand? && !op.a.word.W8?
    requires ReadOp(env, op.a.kind, op.a.word, m) == Some(y)
    requires Divided(op.opcode.Idiv?, op.a.word, Reg64(m, DX) % op.a.word.Mod(), Reg64(m, AX) % op.a.word.Mod(), y) == Some((q, r))
    ensures Exec(env, op, m) == Some(m') && m'.mem == m.mem && SameRegs(m, m', {AX, DX})
    ensures Reg64(m', AX) % op.a.word.Mod() == q % op.a.word.Mod() && Reg64(m', DX) % op.a.word.Mod() == r % op.a.word.Mod()
  {
    hide Divided, ReadOp, WriteReg;
    var u := op.a.word;
    var m1 := WriteReg(NoFlags(m), AX, u, q);
    m' := WriteReg(m1, DX, u, r);
    WriteRegFrame(NoFlags(m), AX, u, q);
    WriteRegFrame(m1, DX, u, r);
    WrittenReg(NoFlags(m), AX, u, q, u);
    WrittenReg(m1, DX, u, r, u);
    assert Exec(env, op, m) == Some(m');
  }

  lemma ExecFour(env: Env, p: AsmOp, q: AsmOp, r: AsmOp, s: AsmOp, m: Machine, m1: Machine, m2: Machine, m3: Machine, m4: Machine)
    requires Exec(env, p, m) == Some(m1) && Exec(env, q, m1) == Some(m2) && Exec(env, r, m2) == Some(m3) && Exec(env, s, m3) == Some(m4)
    ensures ExecAll(env, [p, q, r, s], m) == Some(m4)
  {
    hide Exec;
    ExecThree(env, q, r, s, m1, m2, m3, m4);
    assert [p, q, r, s][1..] == [q, r, s];
  }

  lemma DivSim(w: World, mem0: Bytes, op: IrOp, st: Store, st': Store, m: Machine) returns (m': Machine)
    requires op.BinaryOf? && (op.bop.Divide? || op.bop.Remainder?)
    requires Rel(w, mem0, st, m) && OpTyped(w.layout, op) && Ir.Effect(w.layout, op, st) == Some(st')
    ensures ExecAll(w.env, Framed(w, Select(op)), m) == Some(m') && Rel(w, mem0, st', m')
  {
    hide Exec, Rel, InFrame, ExecAll, MapOperand, WriteReg, Reg64, ReadOp, Divided, Ir.DivideTraps, Ir.QuotientBits, Ir.RemainderBits,
      HighHalf, Bits;
    var a, b, d, t := op.a, op.b, op.dst, op.a.ty;
    var u := WordOf(t);
    var x, y := Ir.Read(a, st).value, Ir.ReadAs(b, t, st).value;
    NoTrap(op.bop, t, x, y);
    var q, r := Ir.QuotientBits(t, x, y), Ir.RemainderBits(t, x, y);
    DivisionResult(op.bop, t, x, y, d.ty);
    ReadVal(w, mem0, a, t, st, m, x);
    PlaceWord(b, w);
    SameModulus(t, b.ty);
    SameModulus(t, d.ty);
    hide Modulus;
    var m1 := MoveToReg(w, mem0, a, t, AX, x, st, m);
    var m2 := ExtendEffect(w.env, t, x, m1);
    KeepsFramePointer(w, mem0, st, m1, m2, {DX});
    ReadVal(w, mem0, b, t, st, m2, y);
    DividedMeans(t, x, y);
    var o := One(if t.IsSigned() then Idiv else Div, Place(b, w));
    var m3 := DivideEffect(w.env, o, y, q, r, m2);
    KeepsFramePointer(w, mem0, st, m2, m3, {AX, DX});
    var reg := if op.bop.Divide? then AX else DX;
    m' := MoveFromReg(w, mem0, reg, u, d, st, m3);
    FramedCells(w, Select(op));
    Unframed(w);
    ExecFour(w.env, Move(Place(a, w), InReg(AX, u)), Extend(t), o, Move(InReg(reg, u), Place(d, w)), m, m1, m2, m3, m');
  }

  lemma NoTrap(op: BinaryOp, t: CType, x: nat, y: nat)
    requires (op.Divide? || op.Remainder?) && Ir.BinaryBits(op, t, x, y).Some?
    ensures Value(t, y) != 0
  {
  }

  lemma DivisionResult(op: BinaryOp, t: CType, x: nat, y: nat, u: CType)
    requires op.Divide? || op.Remainder?
    requires Ir.BinaryBits(op, t, x, y).Some? && t.Size() == u.Size()
    ensures !Ir.DivideTraps(t, x, y)
    ensures var c := if op.Divide? then Ir.QuotientBits(t, x, y) else Ir.RemainderBits(t, x, y);
            Ir.BinaryBits(op, t, x, y).value == c && c % Modulus(u) == c
    ensures Ir.QuotientBits(t, x, y) % Modulus(u) == Ir.QuotientBits(t, x, y)
    ensures Ir.RemainderBits(t, x, y) % Modulus(u) == Ir.RemainderBits(t, x, y)
  {
    NoTrap(op, t, x, y);
    hide TruncDiv, TruncRem, Value, Modulus;
    SameModulus(t, u);
    ReadBackModulus(u, Ir.QuotientBits(t, x, y));
    ReadBackModulus(u, Ir.RemainderBits(t, x, y));
  }

  lemma KeepsFramePointer(w: World, mem0: Bytes, st: Store, m: Machine, m': Machine, junk: set<Reg>)
    requires Rel(w, mem0, st, m) && m'.mem == m.mem && SameRegs(m, m', junk) && RBP !in junk
    ensures Rel(w, mem0, st, m')
  {
    RegistersOnly(w, mem0, st, m, m');
  }

  // -------------------------------------------------- moves, loads and stores

  lemma MoveSim(w: World, mem0: Bytes, op: IrOp, st: Store, st': Store, m: Machine) returns (m': Machine)
    requires (op.Copy? || op.Truncate?) && Rel(w, mem0, st, m) && OpTyped(w.layout, op)
    requires Ir.Effect(w.layout, op, st) == Some(st')
    ensures ExecAll(w.env, Framed(w, Select(op)), m) == Some(m') && Rel(w, mem0, st', m')
  {
    hide Exec, Rel, ExecAll, MapOperand;
    var s, d := op.src, op.dst;
    var x := Ir.ReadAs(s, d.ty, st).value;
    var a := if op.Copy? then Place(s, w) else Place(s, w).(word := WordOf(d.ty));
    ReadVal(w, mem0, s, d.ty, st, m, x);
    ReadBack(d, x);
    m' := MoveToVar(w, mem0, a, s, d, x, st, m);
    NarrowedPlace(s, d.ty, w);
    hide InFrame;
    FramedCells(w, Select(op));
    ExecOne(w.env, Move(a, Place(d, w)), m, m');
  }

  lemma NarrowedPlace(s: IrVal, t: CType, w: World)
    ensures InFrame(MapOperand(s).(word := WordOf(t)), w.offs) == Place(s, w).(word := WordOf(t))
  {
  }

  lemma WidenSim(w: World, mem0: Bytes, op: IrOp, st: Store, st': Store, m: Machine) returns (m': Machine)
    requires (op.SignExtend? || op.ZeroExtend?) && Rel(w, mem0, st, m) && OpTyped(w.layout, op)
    requires Ir.Effect(w.layout, op, st) == Some(st')
    ensures ExecAll(w.env, Framed(w, Select(op)), m) == Some(m') && Rel(w, mem0, st', m')
  {
    var s, d := op.src, op.dst;
    var x := Ir.Read(s, st).value;
    ReadVal(w, mem0, s, s.ty, st, m, x);
    PlaceWord(s, w);
    DestPlace(w, d, m, mem0, st);
    var o := Two(if op.SignExtend? then MovSx else MovZx, Place(s, w), Place(d, w));
    var y := if op.SignExtend? then Trunc(WordOf(d.ty), Signed(WordOf(s.ty), x)) else x;
    var z := if op.SignExtend? then Ir.SignExtendBits(s.ty, d.ty, x) else x;
    WidenedBits(s.ty, d.ty, x);
    assert Exec(w.env, o, m) == WriteOp(w.env, Place(d, w).kind, WordOf(d.ty), y, m);
    hide Exec, Rel, ExecAll, MapOperand, InFrame, WriteOp;
    m' := WriteVal(w, mem0, d, y, st, m);
    FramedCells(w, Select(op));
    ExecOne(w.env, o, m, m');
  }

  lemma WidenedBits(t: CType, u: CType, x: nat)
    requires t.Size() < u.Size() && x < Modulus(t)
    ensures Trunc(WordOf(u), Signed(WordOf(t), x)) == Ir.SignExtendBits(t, u, x) < Modulus(u)
    ensures x % Modulus(u) == x
  {
    ModulusGrows(t, u);
    hide Modulus, Word.Mod;
    ModularArithmetic.SmallMod(x, Modulus(u));
    if x >= Modulus(t) / 2 {
      ModularArithmetic.DivModUnique(x - Modulus(t), Modulus(u), -1, x - Modulus(t) + Modulus(u));
    }
  }

  lemma ModulusGrows(t: CType, u: CType)
    requires t.Size() < u.Size()
    ensures Modulus(t) < Modulus(u)
  {
  }

  lemma AddressSim(w: World, mem0: Bytes, op: IrOp, st: Store, st': Store, m: Machine) returns (m': Machine)
    requires op.GetAddress? && Rel(w, mem0, st, m) && OpTyped(w.layout, op)
    requires Ir.Effect(w.layout, op, st) == Some(st')
    ensures ExecAll(w.env, Framed(w, Select(op)), m) == Some(m') && Rel(w, mem0, st', m')
  {
    var s, d := op.src, op.dst;
    AddressOfVariable(w, s, m);
    DestPlace(w, d, m, mem0, st);
    var o := Two(Lea, Place(s, w), Place(d, w));
    assert Exec(w.env, o, m) == WriteOp(w.env, Place(d, w).kind, WordOf(d.ty), w.layout[s.loc].address, m);
    hide Exec, Rel, ExecAll, MapOperand, InFrame, WriteOp;
    m' := WriteVal(w, mem0, d, w.layout[s.loc].address, st, m);
    FramedCells(w, Select(op));
    ExecOne(w.env, o, m, m');
  }

  /** An address in ax designates an object of the right size. */
  lemma ObjectAt(layout: Layout, a: nat, n: nat, l: Loc)
    requires CSemantics.LocAt(layout, a, n) == Some(l)
    ensures l in layout && layout[l] == CSemantics.Slot(a, n)
  {
  }

  lemma ThroughAxAddress(env: Env, t: CType, a: nat, m: Machine)
    requires Reg64(m, AX) == a
    ensures Address(env, ThroughAx(t).kind, m) == Some(a)
  {
  }

  lemma Whole64(m: Machine, r: Reg, t: CType)
    requires t.Size() == 8
    ensures WordOf(t) == W64 && Reg64(m, r) % Modulus(t) == Reg64(m, r) && Modulus(t) == W64.Mod()
  {
  }

  lemma LoadSim(w: World, mem0: Bytes, op: IrOp, st: Store, st': Store, m: Machine) returns (m': Machine)
    requires op.Load? && Rel(w, mem0, st, m) && OpTyped(w.layout, op)
    requires Ir.Effect(w.layout, op, st) == Some(st')
    ensures ExecAll(w.env, Framed(w, Select(op)), m) == Some(m') && Rel(w, mem0, st', m')
  {
    hide Exec, ExecAll, MapOperand, InFrame, WriteReg, Reg64, LoadBytes, Disjoint, Located, Modulus, CSemantics.LocAt, Outside;
    var p, d := op.ptr, op.dst;
    var a := Ir.Read(p, st).value;
    var l := CSemantics.LocAt(w.layout, a, d.ty.Size()).value;
    ObjectAt(w.layout, a, d.ty.Size(), l);
    Whole64(m, AX, p.ty);
    var m1 := MoveToReg(w, mem0, p, p.ty, AX, a, st, m);
    Whole64(m1, AX, p.ty);
    ThroughAxAddress(w.env, p.ty, a, m1);
    DestPlace(w, d, m1, mem0, st);
    var o := Move(ThroughAx(p.ty), Place(d, w));
    assert ReadOp(w.env, o.a.kind, o.b.word, m1) == Some(st[l]);
    MoveEffect(w.env, o, st[l], m1);
    hide Rel;
    m' := WriteVal(w, mem0, d, st[l], st, m1);
    FramedCells(w, Select(op));
    Unframed(w);
    ExecTwo(w.env, Move(Place(p, w), InReg(AX, W64)), o, m, m1, m');
  }

  lemma StoreSim(w: World, mem0: Bytes, op: IrOp, st: Store, st': Store, m: Machine) returns (m': Machine)
    requires op.Store? && Rel(w, mem0, st, m) && OpTyped(w.layout, op)
    requires Ir.Effect(w.layout, op, st) == Some(st')
    ensures ExecAll(w.env, Framed(w, Select(op)), m) == Some(m') && Rel(w, mem0, st', m')
  {
    hide Exec, ExecAll, MapOperand, InFrame, WriteReg, Reg64, LoadBytes, StoreBytes, Disjoint, Located, Modulus, CSemantics.LocAt,
      Outside, Stored;
    var s, p := op.src, op.ptr;
    var a, x := Ir.Read(p, st).value, Ir.Read(s, st).value;
    var l := CSemantics.LocAt(w.layout, a, s.ty.Size()).value;
    ObjectAt(w.layout, a, s.ty.Size(), l);
    Whole64(m, AX, p.ty);
    var m1 := MoveToReg(w, mem0, p, p.ty, AX, a, st, m);
    Whole64(m1, AX, p.ty);
    ThroughAxAddress(w.env, s.ty, a, m1);
    ReadVal(w, mem0, s, s.ty, st, m1, x);
    var o := Move(Place(s, w), ThroughAx(s.ty));
    MoveEffect(w.env, o, x, m1);
    m' := m1.(mem := StoreBytes(m1.mem, a, x, s.ty.Size()));
    assert WriteOp(w.env, o.b.kind, o.b.word, x, m1) == Some(m');
    StoreThrough(w.layout, st, m1.mem, l, x);
    SmallModulus(x, Modulus(s.ty));
    SizeModulus(s.ty);
    OutsideTrans(w.layout, mem0, m1.mem, m'.mem);
    SameRegisters(m1, m');
    FramedCells(w, Select(op));
    Unframed(w);
    ExecTwo(w.env, Move(Place(p, w), InReg(AX, W64)), o, m, m1, m');
  }

  lemma SizeModulus(t: CType)
    ensures ModulusOfSize(t.Size()) == Modulus(t)
  {
  }

  lemma SameRegisters(m: Machine, m': Machine)
    requires m.regs == m'.regs
    ensures forall r :: Reg64(m, r) == Reg64(m', r)
  {
  }

  // --------------------------------------------------------- pointer arithmetic

  lemma LeaEffect(env: Env, scale: int, d: Operand, a: nat, i: nat, m: Machine)
    requires Reg64(m, AX) == a && Reg64(m, DX) == i && d.word == W64 && !d.kind.NoOperand?
    ensures Exec(env, Two(Lea, Scaled(scale), d), m) == WriteOp(env, d.kind, W64, (a + i * scale) % W64.Mod(), m)
  {
  }

  lemma ScaleEffect(env: Env, scale: nat, i: nat, m: Machine) returns (m': Machine)
    requires Reg64(m, DX) == i
    ensures Exec(env, Two(Arith(MulOp), Operand(Immediate(scale), W8), InReg(DX, W64)), m) == Some(m')
    ensures m'.mem == m.mem && SameRegs(m, m', {DX}) && Reg64(m', DX) == (i * scale) % W64.Mod()
  {
    var o := Two(Arith(MulOp), Operand(Immediate(scale), W8), InReg(DX, W64));
    var v := scale % W64.Mod();
    var c := ArithValue(MulOp, W64, i, v);
    ReadBack64(i);
    CombinedEffect(env, o, i, v, m);
    m' := WriteReg(NoFlags(m), DX, W64, c);
    WriteRegFrame(NoFlags(m), DX, W64, c);
    WrittenWide(NoFlags(m), DX, W64, c);
    ProductMod(i, scale, W64.Mod());
    ReadBack64(c);
  }

  lemma ReadBack64(x: nat)
    ensures x < W64.Mod() ==> x % W64.Mod() == x
  {
  }

  lemma ScaledSum(a: nat, i: nat, scale: nat, n: nat)
    requires n > 0
    ensures (a + (i * scale) % n * 1) % n == (a + i * scale) % n
  {
    var p := i * scale;
    assert p == n * (p / n) + p % n;
    ModularArithmetic.ModUnique(a + p, a + p % n, n, p / n);
  }

  /** The pointer goes to ax and the index to dx. */
  lemma PointerOperands(w: World, mem0: Bytes, op: IrOp, a: nat, i: nat, st: Store, m: Machine) returns (m1: Machine, m2: Machine)
    requires op.PointerAdd? && Rel(w, mem0, st, m) && OpTyped(w.layout, op)
    requires Ir.Read(op.base, st) == Some(a) && Ir.ReadAs(op.index, Long, st) == Some(i)
    ensures Exec(w.env, Move(Place(op.base, w), InReg(AX, W64)), m) == Some(m1)
    ensures Exec(w.env, Move(Place(op.index, w), InReg(DX, W64)), m1) == Some(m2)
    ensures Rel(w, mem0, st, m2) && Reg64(m2, AX) == a && Reg64(m2, DX) == i
  {
    hide Exec, MapOperand, InFrame, WriteReg, Reg64, Modulus, Rel;
    var b := op.base;
    Whole64(m, AX, b.ty);
    Whole64(m, AX, Long);
    m1 := MoveToReg(w, mem0, b, b.ty, AX, a, st, m);
    m2 := MoveToReg(w, mem0, op.index, Long, DX, i, st, m1);
    WriteRegFrame(m1, DX, W64, i);
    Whole64(m1, AX, b.ty);
    Whole64(m2, DX, Long);
  }

  lemma PointerAddSim(w: World, mem0: Bytes, op: IrOp, st: Store, st': Store, m: Machine) returns (m': Machine)
    requires op.PointerAdd? && Rel(w, mem0, st, m) && OpTyped(w.layout, op)
    requires Ir.Effect(w.layout, op, st) == Some(st')
    ensures ExecAll(w.env, Framed(w, Select(op)), m) == Some(m') && Rel(w, mem0, st', m')
  {
    hide Exec, ExecAll, MapOperand, InFrame, Modulus, Rel, WriteOp, Reg64;
    var a, i := Ir.Read(op.base, st).value, Ir.ReadAs(op.index, Long, st).value;
    var m1, m2 := PointerOperands(w, mem0, op, a, i, st, m);
    if op.scale == 1 || op.scale == 2 || op.scale == 4 || op.scale == 8 {
      m' := ScaledAddress(w, mem0, op, a, i, st, m, m1, m2);
    } else {
      m' := MultipliedAddress(w, mem0, op, a, i, st, m, m1, m2);
    }
  }

  lemma ScaledAddress(w: World, mem0: Bytes, op: IrOp, a: nat, i: nat, st: Store, m: Machine, m1: Machine, m2: Machine) returns (m': Machine)
    requires op.PointerAdd? && Rel(w, mem0, st, m2) && OpTyped(w.layout, op) && (op.scale == 1 || op.scale == 2 || op.scale == 4 || op.scale == 8)
    requires Exec(w.env, Move(Place(op.base, w), InReg(AX, W64)), m) == Some(m1)
    requires Exec(w.env, Move(Place(op.index, w), InReg(DX, W64)), m1) == Some(m2)
    requires Reg64(m2, AX) == a && Reg64(m2, DX) == i
    ensures ExecAll(w.env, Framed(w, Select(op)), m) == Some(m')
    ensures Rel(w, mem0, st[op.dst.loc := (a + i * op.scale) % Modulus(op.dst.ty)], m')
  {
    hide Exec, ExecAll, MapOperand, InFrame, Modulus, Rel, WriteOp, Reg64, CType.Size;
    var d := op.dst;
    WidePlace(d, w);
    FramedCells(w, Select(op));
    Unframed(w);
    var o := Two(Lea, Scaled(op.scale), Place(d, w));
    m' := AddressWritten(w, mem0, op, a + i * op.scale, st, m2);
    LeaEffect(w.env, op.scale, Place(d, w), a, i, m2);
    ExecThree(w.env, Move(Place(op.base, w), InReg(AX, W64)), Move(Place(op.index, w), InReg(DX, W64)), o, m, m1, m2, m');
  }

  lemma MultipliedAddress(w: World, mem0: Bytes, op: IrOp, a: nat, i: nat, st: Store, m: Machine, m1: Machine, m2: Machine) returns (m': Machine)
    requires op.PointerAdd? && Rel(w, mem0, st, m2) && OpTyped(w.layout, op) && !(op.scale == 1 || op.scale == 2 || op.scale == 4 || op.scale == 8)
    requires Exec(w.env, Move(Place(op.base, w), InReg(AX, W64)), m) == Some(m1)
    requires Exec(w.env, Move(Place(op.index, w), InReg(DX, W64)), m1) == Some(m2)
    requires Reg64(m2, AX) == a && Reg64(m2, DX) == i
    ensures ExecAll(w.env, Framed(w, Select(op)), m) == Some(m')
    ensures Rel(w, mem0, st[op.dst.loc := (a + i * op.scale) % Modulus(op.dst.ty)], m')
  {
    hide Exec, ExecAll, MapOperand, InFrame, Modulus, Rel, WriteOp, Reg64, CType.Size;
    var d := op.dst;
    WidePlace(d, w);
    FramedCells(w, Select(op));
    Unframed(w);
    var r, o := Two(Arith(MulOp), Operand(Immediate(op.scale), W8), InReg(DX, W64)), Two(Lea, Scaled(1), Place(d, w));
    var m3 := ScaleEffect(w.env, op.scale, i, m2);
    KeepsFramePointer(w, mem0, st, m2, m3, {DX});
    ScaledSum(a, i, op.scale, W64.Mod());
    m' := AddressWritten(w, mem0, op, a + i * op.scale, st, m3);
    LeaEffect(w.env, 1, Place(d, w), a, (i * op.scale) % W64.Mod(), m3);
    ExecFour(w.env, Move(Place(op.base, w), InReg(AX, W64)), Move(Place(op.index, w), InReg(DX, W64)), r, o, m, m1, m2, m3, m');
  }

  lemma WidePlace(d: IrVal, w: World)
    requires d.ty.Size() == 8
    ensures InFrame(MapOperand(d).(word := W64), w.offs) == Place(d, w) && Place(d, w).word == W64 && !Place(d, w).kind.NoOperand?
  {
  }

  lemma AddressWritten(w: World, mem0: Bytes, op: IrOp, v: nat, st: Store, m: Machine) returns (m': Machine)
    requires op.PointerAdd? && Rel(w, mem0, st, m) && OpTyped(w.layout, op)
    ensures WriteOp(w.env, Place(op.dst, w).kind, W64, v % W64.Mod(), m) == Some(m')
    ensures Rel(w, mem0, st[op.dst.loc := v % Modulus(op.dst.ty)], m')
  {
    hide Rel, WriteOp, MapOperand, InFrame;
    Whole64(m, AX, op.dst.ty);
    m' := WriteVal(w, mem0, op.dst, v % W64.Mod(), st, m);
    ReadBack64(v % W64.Mod());
  }

  /** Every operation that falls through: its instructions have the same effect. */
  lemma EffectSim(w: World, mem0: Bytes, op: IrOp, st: Store, st': Store, m: Machine) returns (m': Machine)
    requires !op.Ret? && !op.Jump? && !op.JumpIfZero? && !op.JumpIfNotZero?
    requires Rel(w, mem0, st, m) && OpTyped(w.layout, op) && Ir.Effect(w.layout, op, st) == Some(st')
    ensures ExecAll(w.env, Framed(w, Select(op)), m) == Some(m') && Rel(w, mem0, st', m')
  {
    if op.UnaryOf? && op.uop.LogicalNot? {
      m' := NotSim(w, mem0, op, st, st', m);
    } else if op.UnaryOf? {
      m' := UnarySim(w, mem0, op, st, st', m);
    } else if op.Bump? {
      m' := BumpSim(w, mem0, op, st, st', m);
    } else if op.BinaryOf? && op.bop.IsCompare() {
      m' := CompareSim(w, mem0, op, st, st', m);
    } else if op.BinaryOf? && (op.bop.Divide? || op.bop.Remainder?) {
      m' := DivSim(w, mem0, op, st, st', m);
    } else if op.BinaryOf? {
      m' := ArithSim(w, mem0, op, st, st', m);
    } else if op.Copy? || op.Truncate? {
      m' := MoveSim(w, mem0, op, st, st', m);
    } else if op.SignExtend? || op.ZeroExtend? {
      m' := WidenSim(w, mem0, op, st, st', m);
    } else if op.GetAddress? {
      m' := AddressSim(w, mem0, op, st, st', m);
    } else if op.Load? {
      m' := LoadSim(w, mem0, op, st, st', m);
    } else if op.Store? {
      m' := StoreSim(w, mem0, op, st, st', m);
    } else if op.PointerAdd? {
      m' := PointerAddSim(w, mem0, op, st, st', m);
    } else {
      m' := m;
      FramedCells(w, Select(op));
      ExecOne(w.env, OpInFrame(Select(op)[0], w.offs), m, m);
    }
  }
}
