/** From the IR of a function to the instructions that are written out: selection,
    frame and repairs together. */
module EndToEnd {
  import opened Wrappers
  import opened CTypes
  import opened CAst
  import Ir
  import opened Asm
  import opened MachineFacts
  import opened MemoryMap
  import opened StackFrame
  import opened Fixups
  import opened FixupLists
  import opened FixupMeaning
  import opened FixupRuns
  import opened CallingSequence
  import opened CallMeaning
  import opened Selection
  import opened SelectionMeaning
  import opened SelectionRuns

  /** Constants that the repaired comparisons treat as they are: a constant is
      tested against zero only if its low byte is zero just when it is, and two
      constants, the second large, are not compared as signed numbers. */
  predicate Tame(op: IrOp) {
    match op
    case JumpIfZero(v, _) => TestsRight(v)
    case JumpIfNotZero(v, _) => TestsRight(v)
    case UnaryOf(LogicalNot, v, _) => TestsRight(v)
    case BinaryOf(b, x, y, _) =>
      b.IsCompare() && x.Constant? && y.Constant? && y.num > INT_MAX ==>
        x.ty.Size() == 8 || (x.ty.Size() == 4 && y.num < W32.Mod() && Condition(b, x.ty.IsSigned()) in UNSIGNED)
    case _ => true
  }

  predicate TestsRight(v: IrVal) {
    v.Constant? ==> (v.num % 256 == 0 <==> v.num % Modulus(v.ty) == 0)
  }

  // ------------------------------------------------- selected code can be repaired

  predicate Usable(o: Operand) {
    Uses(o.kind) !! JUNK && !o.kind.NoOperand?
  }

  lemma PlaceUses(w: World, v: IrVal)
    ensures Usable(Place(v, w)) && Place(v, w).word == WordOf(v.ty)
    ensures !BigImmediate(Place(v, w)) || v.Constant?
    ensures InMemory(Place(v, w)) ==> v.Variable?
    ensures Place(v, w).kind.Immediate? <==> v.Constant?
    ensures v.Constant? ==> Place(v, w).kind.num == v.num
    ensures !Place(v, w).kind.Register?
  {
  }

  lemma Registers(u: Word)
    ensures Usable(InReg(AX, u)) && Usable(InReg(DX, u)) && !InMemory(InReg(AX, u)) && !InMemory(InReg(DX, u))
    ensures Usable(ZERO) && !InMemory(ZERO)
  {
  }

  lemma MoveFits(a: Operand, b: Operand)
    requires Usable(a) && Usable(b) && (InMemory(a) && InMemory(b) ==> NoNarrower(a, b))
    ensures RepairableAnywhere(Move(a, b))
  {
  }

  lemma CompareFits(a: Operand, b: Operand)
    requires Usable(a) && Usable(b) && (InMemory(a) && InMemory(b) ==> NoNarrower(a, b))
    ensures RepairableAnywhere(Two(Cmp, a, b))
  {
  }

  lemma UpdateFits(o: Opcode, a: Operand)
    requires Usable(a) && (o.Neg? || o.Not? || o.Inc? || o.Dec? || o.SetIf?)
    ensures RepairableAnywhere(One(o, a))
  {
  }

  lemma ControlFits(o: Opcode, l: int)
    requires o.Jmp? || o.JmpIf? || o.LabelOp?
    ensures RepairableAnywhere(One(o, Target(l))) && RepairableAnywhere(Plain(RetOp))
  {
  }

  lemma AddressFits(a: Operand, b: Operand)
    requires Usable(a) && Usable(b)
    ensures RepairableAnywhere(Two(Lea, a, b))
  {
  }

  lemma ExtensionFits(a: Operand, b: Operand)
    requires Usable(a) && Usable(b) && !b.kind.Register?
    ensures RepairableAnywhere(Two(MovSx, a, b)) && RepairableAnywhere(Two(MovZx, a, b))
  {
  }

  lemma ArithFits(o: Opcode, a: Operand, b: Operand)
    requires Usable(a) && Usable(b) && NoNarrower(a, b) && (o.Arith? || o.ShiftLeftOp? || o.ShiftRightOp?)
    ensures RepairableAnywhere(Two(o, a, b))
  {
  }

  lemma DivisionFits(a: Operand)
    requires Usable(a)
    ensures RepairableAnywhere(Plain(Cqo)) && RepairableAnywhere(Plain(Cdq)) && RepairableAnywhere(One(Idiv, a)) && RepairableAnywhere(One(Div, a))
  {
  }

  /** The multiplication by a scale goes to a register. */
  lemma ScalingFits(scale: nat)
    ensures RepairableAnywhere(Two(Arith(MulOp), Operand(Immediate(scale), W8), InReg(DX, W64)))
    ensures Usable(Scaled(scale)) && Usable(Scaled(1))
  {
  }

  lemma ThroughFits(t: CType)
    ensures Usable(ThroughAx(t)) && ThroughAx(t).word == WordOf(t)
  {
  }

  lemma UnaryBlock(w: World, op: IrOp)
    requires op.UnaryOf? && OpTyped(w.layout, op)
    ensures forall i :: 0 <= i < |Select(op)| ==> RepairableAnywhere(OpInFrame(Select(op)[i], w.offs))
  {
    hide InFrame, MapOperand, RepairableAnywhere, Usable, InMemory;
    Unframed(w);
    PlaceUses(w, op.src);
    PlaceUses(w, op.dst);
    SameModulus(op.src.ty, op.dst.ty);
    Registers(W8);
    var s, d := Place(op.src, w), Place(op.dst, w);
    if op.uop.LogicalNot? {
      CompareFits(ZERO, s);
      MoveFits(ZERO, d);
      UpdateFits(SetIf(E), d);
    } else {
      MoveFits(s, d);
      UpdateFits(if op.uop.Negate? then Neg else Not, d);
    }
  }

  lemma CompareBlock(w: World, op: IrOp)
    requires op.BinaryOf? && op.bop.IsCompare() && OpTyped(w.layout, op)
    ensures forall i :: 0 <= i < |Select(op)| ==> RepairableAnywhere(OpInFrame(Select(op)[i], w.offs))
  {
    hide InFrame, MapOperand, Condition, RepairableAnywhere, Usable, InMemory;
    Unframed(w);
    PlaceUses(w, op.a);
    PlaceUses(w, op.b);
    PlaceUses(w, op.dst);
    SameModulus(op.a.ty, op.b.ty);
    Registers(W8);
    CompareFits(Place(op.b, w), Place(op.a, w));
    MoveFits(ZERO, Place(op.dst, w));
    UpdateFits(SetIf(Condition(op.bop, op.a.ty.IsSigned())), Place(op.dst, w));
  }

  lemma DivideBlock(w: World, op: IrOp)
    requires op.BinaryOf? && (op.bop.Divide? || op.bop.Remainder?) && OpTyped(w.layout, op)
    ensures forall i :: 0 <= i < |Select(op)| ==> RepairableAnywhere(OpInFrame(Select(op)[i], w.offs))
  {
    hide InFrame, MapOperand, WordOf, RepairableAnywhere, Usable, InMemory;
    Unframed(w);
    PlaceUses(w, op.a);
    PlaceUses(w, op.b);
    PlaceUses(w, op.dst);
    var u := WordOf(op.a.ty);
    Registers(u);
    Registers(W64);
    MoveFits(Place(op.a, w), InReg(AX, u));
    MoveFits(ZERO, InReg(DX, W64));
    MoveFits(InReg(AX, u), Place(op.dst, w));
    MoveFits(InReg(DX, u), Place(op.dst, w));
    DivisionFits(Place(op.b, w));
  }

  lemma ArithBlock(w: World, op: IrOp)
    requires op.BinaryOf? && !op.bop.IsCompare() && !op.bop.Divide? && !op.bop.Remainder? && OpTyped(w.layout, op)
    ensures forall i :: 0 <= i < |Select(op)| ==> RepairableAnywhere(OpInFrame(Select(op)[i], w.offs))
  {
    hide InFrame, MapOperand, RepairableAnywhere, Usable, InMemory;
    Unframed(w);
    PlaceUses(w, op.a);
    PlaceUses(w, op.b);
    PlaceUses(w, op.dst);
    SameModulus(op.a.ty, op.b.ty);
    SameModulus(op.a.ty, op.dst.ty);
    MoveFits(Place(op.a, w), Place(op.dst, w));
    ArithFits(BinaryOpcode(op.bop, op.a.ty.IsSigned()), Place(op.b, w), Place(op.dst, w));
  }

  lemma MoveBlock(w: World, op: IrOp)
    requires op.Copy? || op.Truncate? || op.SignExtend? || op.ZeroExtend? || op.GetAddress?
    requires OpTyped(w.layout, op)
    ensures forall i :: 0 <= i < |Select(op)| ==> RepairableAnywhere(OpInFrame(Select(op)[i], w.offs))
  {
    hide InFrame, MapOperand, RepairableAnywhere;
    Unframed(w);
    PlaceUses(w, op.src);
    PlaceUses(w, op.dst);
    NarrowedPlace(op.src, op.dst.ty, w);
    SameModulus(op.src.ty, op.dst.ty);
    var s, d := Place(op.src, w), Place(op.dst, w);
    if op.Copy? {
      MoveFits(s, d);
    } else if op.Truncate? {
      MoveFits(s.(word := WordOf(op.dst.ty)), d);
    } else if op.GetAddress? {
      AddressFits(s, d);
    } else {
      ExtensionFits(s, d);
    }
  }

  lemma MemoryBlock(w: World, op: IrOp)
    requires (op.Load? || op.Store?) && OpTyped(w.layout, op)
    ensures forall i :: 0 <= i < |Select(op)| ==> RepairableAnywhere(OpInFrame(Select(op)[i], w.offs))
  {
    hide InFrame, MapOperand, RepairableAnywhere, Usable, InMemory;
    Unframed(w);
    var v := if op.Load? then op.dst else op.src;
    PlaceUses(w, op.ptr);
    PlaceUses(w, v);
    SameModulus(op.ptr.ty, Long);
    Registers(W64);
    ThroughFits(op.ptr.ty);
    ThroughFits(v.ty);
    MoveFits(Place(op.ptr, w), InReg(AX, W64));
    if op.Load? {
      MoveFits(ThroughAx(op.ptr.ty), Place(v, w));
    } else {
      MoveFits(Place(v, w), ThroughAx(v.ty));
    }
  }

  lemma PointerBlock(w: World, op: IrOp)
    requires op.PointerAdd? && OpTyped(w.layout, op)
    ensures forall i :: 0 <= i < |Select(op)| ==> RepairableAnywhere(OpInFrame(Select(op)[i], w.offs))
  {
    hide InFrame, MapOperand, WordOf, RepairableAnywhere, Usable, InMemory, Scaled;
    Unframed(w);
    PlaceUses(w, op.base);
    PlaceUses(w, op.index);
    PlaceUses(w, op.dst);
    WidePlace(op.dst, w);
    Registers(W64);
    ScalingFits(op.scale);
    MoveFits(Place(op.base, w), InReg(AX, W64));
    MoveFits(Place(op.index, w), InReg(DX, W64));
    AddressFits(Scaled(op.scale), Place(op.dst, w));
    AddressFits(Scaled(1), Place(op.dst, w));
    NotPseudos(w, op.scale);
  }

  lemma NotPseudos(w: World, scale: nat)
    ensures InFrame(Scaled(scale), w.offs) == Scaled(scale) && InFrame(Scaled(1), w.offs) == Scaled(1)
  {
  }

  lemma ControlBlock(w: World, op: IrOp)
    requires op.Ret? || op.Bump? || op.Jump? || op.JumpIfZero? || op.JumpIfNotZero? || op.LabelAt?
    ensures forall i :: 0 <= i < |Select(op)| ==> RepairableAnywhere(OpInFrame(Select(op)[i], w.offs))
  {
    hide InFrame, MapOperand, WordOf, RepairableAnywhere, Usable, InMemory;
    Unframed(w);
    Registers(W8);
    ControlFits(Jmp, 0);
    if op.Ret? && op.result.Some? {
      var u := WordOf(op.result.value.ty);
      PlaceUses(w, op.result.value);
      Registers(u);
      MoveFits(Place(op.result.value, w), InReg(AX, u));
    } else if op.Bump? {
      PlaceUses(w, op.place);
      UpdateFits(if op.increment then Inc else Dec, Place(op.place, w));
    } else if op.JumpIfZero? || op.JumpIfNotZero? {
      PlaceUses(w, op.cond);
      CompareFits(ZERO, Place(op.cond, w));
      ControlFits(JmpIf(if op.JumpIfZero? then E else NE), op.target);
    } else if op.Jump? {
      ControlFits(Jmp, op.target);
    } else if op.LabelAt? {
      ControlFits(LabelOp, op.id);
    }
  }

  lemma BlockRepairable(w: World, op: IrOp)
    requires OpTyped(w.layout, op)
    ensures forall i :: 0 <= i < |Select(op)| ==> RepairableAnywhere(OpInFrame(Select(op)[i], w.offs))
  {
    if op.UnaryOf? {
      UnaryBlock(w, op);
    } else if op.BinaryOf? && op.bop.IsCompare() {
      CompareBlock(w, op);
    } else if op.BinaryOf? && (op.bop.Divide? || op.bop.Remainder?) {
      DivideBlock(w, op);
    } else if op.BinaryOf? {
      ArithBlock(w, op);
    } else if op.Copy? || op.Truncate? || op.SignExtend? || op.ZeroExtend? || op.GetAddress? {
      MoveBlock(w, op);
    } else if op.Load? || op.Store? {
      MemoryBlock(w, op);
    } else if op.PointerAdd? {
      PointerBlock(w, op);
    } else {
      ControlBlock(w, op);
    }
  }

  // ------------------------------------------------------ conditions that are used

  /** Every place in the code lies in the block of one operation. */
  lemma {:induction false} BlockAt(w: World, ops: seq<IrOp>, q: nat, n: nat) returns (pc: nat, i: nat)
    requires n <= |ops| && q < SelPos(ops, n)
    ensures pc < n && i < |Framed(w, Select(ops[pc]))| && q == SelPos(ops, pc) + i
    decreases n
  {
    hide Select, SelectAll, CodeInFrame;
    if n == 0 {
      StartSel(ops);
      assert false;
    } else {
      BlockPlaced(w, ops, n - 1);
      if q < SelPos(ops, n - 1) {
        pc, i := BlockAt(w, ops, q, n - 1);
      } else {
        pc, i := n - 1, q - SelPos(ops, n - 1);
      }
    }
  }

  lemma CodeEnds(w: World, ops: seq<IrOp>)
    ensures SelPos(ops, |ops|) == |CodeFor(w, ops)|
  {
    hide SelectAll, CodeInFrame;
    assert ops[..|ops|] == ops;
  }

  lemma CondsAfter(code: seq<AsmOp>, q: nat)
    requires q + 1 < |code| && !code[q + 1].opcode.LabelOp?
    ensures CondsAt(code, q + 1) == NextConds(code[q], CondsAt(code, q))
  {
  }

  /** The comparison in front of a set or a jump keeps the condition it uses. */
  lemma TestKept(w: World, op: IrOp)
    requires OpTyped(w.layout, op) && Tame(op)
    requires (op.UnaryOf? && op.uop.LogicalNot?) || op.JumpIfZero? || op.JumpIfNotZero? || (op.BinaryOf? && op.bop.IsCompare())
    ensures var cmp, last := OpInFrame(Select(op)[0], w.offs), Select(op)[|Select(op)| - 1];
            cmp.opcode.Cmp? && (last.opcode.SetIf? || last.opcode.JmpIf?) && last.opcode.cond in KeptConds(cmp)
  {
    Unframed(w);
    if op.UnaryOf? {
      PlaceUses(w, op.src);
      ZeroTestKept(Place(op.src, w), op.src);
    } else if op.JumpIfZero? || op.JumpIfNotZero? {
      PlaceUses(w, op.cond);
      ZeroTestKept(Place(op.cond, w), op.cond);
    } else {
      PlaceUses(w, op.a);
      PlaceUses(w, op.b);
      SameModulus(op.a.ty, op.b.ty);
    }
    hide InFrame, MapOperand, Condition;
  }

  lemma ZeroTestKept(p: Operand, v: IrVal)
    requires TestsRight(v) && p.word == WordOf(v.ty) && (p.kind.Immediate? <==> v.Constant?) && (v.Constant? ==> p.kind.num == v.num)
    ensures E in KeptConds(Two(Cmp, ZERO, p)) && NE in KeptConds(Two(Cmp, ZERO, p))
  {
  }

  /** The instruction with which a constant is tested. */
  lemma TestedConstant(n: int, t: CType, l: int, d: IrVal)
    ensures Select(Ir.JumpIfZero(Ir.Constant(n, t), l))[0] == TestConstant(n, WordOf(t))
    ensures Select(Ir.JumpIfNotZero(Ir.Constant(n, t), l))[0] == TestConstant(n, WordOf(t))
    ensures Select(Ir.UnaryOf(LogicalNot, Ir.Constant(n, t), d))[0] == TestConstant(n, WordOf(t))
  {
  }

  lemma NeedsMet(w: World, ops: seq<IrOp>, pc: nat, i: nat)
    requires pc < |ops| && i < |Framed(w, Select(ops[pc]))| && OpTyped(w.layout, ops[pc]) && Tame(ops[pc])
    ensures SelPos(ops, pc) + i < |CodeFor(w, ops)|
    ensures Needs(CodeFor(w, ops)[SelPos(ops, pc) + i], CondsAt(CodeFor(w, ops), SelPos(ops, pc) + i))
  {
    hide Select, SelectAll, CodeInFrame, KeptConds, SelPos, CondsAt, OpTyped, Tame;
    var op, code, p := ops[pc], CodeFor(w, ops), SelPos(ops, pc);
    var block := Framed(w, Select(op));
    BlockPlaced(w, ops, pc);
    AtOffset(code, p, block, i);
    FramedAt(w, Select(op), i);
    if block[i].opcode.SetIf? || block[i].opcode.JmpIf? {
      ConditionLast(w, op, i);
      TestKept(w, op);
      AtOffset(code, p, block, 0);
      AtOffset(code, p, block, 1);
      CondsAfter(code, p);
      if i == 2 {
        CondsAfter(code, p + 1);
      }
    }
  }

  lemma FramedAt(w: World, code: seq<AsmOp>, i: nat)
    requires i < |Framed(w, code)|
    ensures |Framed(w, code)| == |code| && Framed(w, code)[i].opcode == code[i].opcode
  {
  }

  /** Sets and conditional jumps are the last instruction of their block, and right
      behind a comparison or a move after it. */
  lemma ConditionLast(w: World, op: IrOp, i: nat)
    requires i < |Select(op)| && (Select(op)[i].opcode.SetIf? || Select(op)[i].opcode.JmpIf?)
    ensures |Framed(w, Select(op))| == |Select(op)| && i == |Select(op)| - 1 && (i == 1 || i == 2)
    ensures (op.UnaryOf? && op.uop.LogicalNot?) || op.JumpIfZero? || op.JumpIfNotZero? || (op.BinaryOf? && op.bop.IsCompare())
    ensures !Framed(w, Select(op))[1].opcode.LabelOp? && Framed(w, Select(op))[i].opcode == Select(op)[i].opcode
    ensures i == 2 ==> Framed(w, Select(op))[1].opcode.Mov? && !Framed(w, Select(op))[2].opcode.LabelOp?
    ensures Framed(w, Select(op))[0] == OpInFrame(Select(op)[0], w.offs)
  {
  }

  /** The selected code of a function can be repaired. */
  lemma CodeRepairable(w: World, ops: seq<IrOp>)
    requires AllTyped(w, ops) && forall i :: 0 <= i < |ops| ==> Tame(ops[i])
    ensures RepairableCode(CodeFor(w, ops))
  {
    hide Select, SelectAll, Tame, OpTyped, Repairable, MentionsCx, CondsAt, CxAt, Needs, SelPos;
    var code := CodeFor(w, ops);
    CodeEnds(w, ops);
    forall q | 0 <= q < |code| ensures Repairable(code[q]) && Needs(code[q], CondsAt(code, q)) && CxFits(code[q], CxAt(code, q)) {
      var pc, i := BlockAt(w, ops, q, |ops|);
      BlockPlaced(w, ops, pc);
      AtOffset(code, SelPos(ops, pc), Framed(w, Select(ops[pc])), i);
      BlockRepairable(w, ops[pc]);
      NeedsMet(w, ops, pc, i);
    }
  }

  // ------------------------------------------------------------- the whole back end

  function ParamVal(p: Param): IrVal {
    Ir.Variable(Tmp(p.id), p.ty)
  }

  function ArgsOf(params: seq<Param>): (r: seq<Arg>)
    ensures |r| == |params|
  {
    seq(|params|, i requires 0 <= i < |params| => Arg(MapOperand(ParamVal(params[i])), false))
  }

  /** The parameters are fetched first. */
  function FunctionCode(params: seq<Param>, ops: seq<IrOp>): seq<AsmOp> {
    Fetch(ArgsOf(params), |params|) + SelectAll(ops)
  }

  /** The instructions of a function: selected, put into the frame, with room made
      for it, and repaired. */
  function AsmOf(params: seq<Param>, ops: seq<IrOp>): seq<AsmOp> {
    var code := FunctionCode(params, ops);
    var f := FrameOf(code);
    FixAll(Prologue(f.cursor) + CodeInFrame(code, f.offs))
  }

  lemma {:induction false} FetchedPlainly(params: seq<Param>, n: nat)
    requires n <= |params|
    ensures forall o :: o in Fetch(ArgsOf(params), n) ==>
                          o.opcode.Mov? && !o.a.kind.PseudoMem? && !o.b.kind.PseudoMem? && !IsPseudo(o.a) && IsPseudo(o.b)
    decreases n
  {
    hide HomeOf;
    if n > 0 {
      FetchedPlainly(params, n - 1);
    }
  }

  lemma {:induction false} NoArrays(ops: seq<IrOp>)
    ensures forall o :: o in SelectAll(ops) ==> !o.a.kind.PseudoMem? && !o.b.kind.PseudoMem?
    decreases |ops|
  {
    if ops != [] {
      NoArrays(ops[1..]);
      NoArraysIn(ops[0]);
    }
  }

  lemma NoArraysIn(op: IrOp)
    ensures forall o :: o in Select(op) ==> !o.a.kind.PseudoMem? && !o.b.kind.PseudoMem?
  {
    if op.BinaryOf? {
      NoArraysInBinary(op.bop, op.a, op.b, op.dst);
    } else {
      var code := Select(op);
      assert forall i :: 0 <= i < |code| ==> !code[i].a.kind.PseudoMem? && !code[i].b.kind.PseudoMem?;
    }
  }

  lemma NoArraysInBinary(op: BinaryOp, a: Ir.IrVal, b: Ir.IrVal, dst: Ir.IrVal)
    ensures forall o :: o in SelectBinary(op, a, b, dst) ==> !o.a.kind.PseudoMem? && !o.b.kind.PseudoMem?
  {
    var code := SelectBinary(op, a, b, dst);
    assert forall i :: 0 <= i < |code| ==> !code[i].a.kind.PseudoMem? && !code[i].b.kind.PseudoMem?;
  }

  /** Zero extension writes to variables only. */
  predicate ExtendsVariables(ops: seq<IrOp>) {
    forall i :: 0 <= i < |ops| ==> (ops[i].ZeroExtend? ==> ops[i].dst.Variable?)
  }

  lemma {:induction false} SelectedExtends(ops: seq<IrOp>)
    requires ExtendsVariables(ops)
    ensures forall o :: o in SelectAll(ops) && o.opcode.MovZx? ==> IsPseudo(o.b) || o.b.kind.Data?
    decreases |ops|
  {
    if ops != [] {
      assert forall i :: 0 <= i < |ops[1..]| ==> ops[1..][i] == ops[i + 1];
      SelectedExtends(ops[1..]);
      SelectedExtendsIn(ops[0]);
    }
  }

  lemma SelectedExtendsIn(op: IrOp)
    requires op.ZeroExtend? ==> op.dst.Variable?
    ensures forall o :: o in Select(op) && o.opcode.MovZx? ==> IsPseudo(o.b) || o.b.kind.Data?
  {
    var code := Select(op);
    assert forall i :: 0 <= i < |code| && code[i].opcode.MovZx? ==> IsPseudo(code[i].b) || code[i].b.kind.Data?;
  }

  /** After slots have been given out, no zero extension has a register as its
      destination. */
  lemma FramedExtends(params: seq<Param>, ops: seq<IrOp>)
    requires ExtendsVariables(ops)
    ensures AllExtendToMemory(CodeInFrame(FunctionCode(params, ops), FrameOf(FunctionCode(params, ops)).offs))
    ensures SizesKnown(FunctionCode(params, ops))
  {
    var code := FunctionCode(params, ops);
    FetchedPlainly(params, |params|);
    NoArrays(ops);
    SelectedExtends(ops);
    assert forall o :: o in code ==> !o.a.kind.PseudoMem? && !o.b.kind.PseudoMem?;
    assert forall o :: o in code && o.opcode.MovZx? ==> IsPseudo(o.b) || o.b.kind.Data?;
    SettleAllSound(code, NO_FRAME);
    hide FunctionCode, SettleAll;
    var f := FrameOf(code);
    var framed := CodeInFrame(code, f.offs);
    forall o | o in framed ensures ExtendsToMemory(o) {
      var i :| 0 <= i < |framed| && framed[i] == o;
      assert code[i] in code;
    }
  }

  predicate NotLow(v: IrVal) {
    v.Constant? ==> INT_MIN <= v.num
  }

  predicate NothingLow(op: AsmOp) {
    !LowImmediate(op.a) && !LowImmediate(op.b)
  }

  predicate AllNotLow(code: seq<AsmOp>) {
    forall i :: 0 <= i < |code| ==> NothingLow(code[i])
  }

  /** No operand of an operation is below the range of 32 bits. */
  predicate InRange(op: IrOp) {
    match op
    case Ret(v) => v.Some? ==> NotLow(v.value)
    case UnaryOf(_, s, d) => NotLow(s) && NotLow(d)
    case Bump(_, p) => NotLow(p)
    case BinaryOf(_, x, y, d) => NotLow(x) && NotLow(y) && NotLow(d)
    case Copy(s, d) => NotLow(s) && NotLow(d)
    case SignExtend(s, d) => NotLow(s) && NotLow(d)
    case Truncate(s, d) => NotLow(s) && NotLow(d)
    case ZeroExtend(s, d) => NotLow(s) && NotLow(d)
    case GetAddress(s, d) => NotLow(s) && NotLow(d)
    case Load(p, d) => NotLow(p) && NotLow(d)
    case Store(s, p) => NotLow(s) && NotLow(p)
    case PointerAdd(b, i, _, d) => NotLow(b) && NotLow(i) && NotLow(d)
    case JumpIfZero(v, _) => NotLow(v)
    case JumpIfNotZero(v, _) => NotLow(v)
    case _ => true
  }

  lemma SelectedInRange(op: IrOp)
    requires InRange(op)
    ensures AllNotLow(Select(op))
  {
  }

  lemma {:induction false} AllSelectedInRange(ops: seq<IrOp>)
    requires forall i :: 0 <= i < |ops| ==> InRange(ops[i])
    ensures AllNotLow(SelectAll(ops))
    decreases |ops|
  {
    hide InRange, NothingLow;
    if ops != [] {
      SelectedInRange(ops[0]);
      AllSelectedInRange(ops[1..]);
    }
  }

  lemma {:induction false} FetchInRange(args: seq<Arg>, n: nat)
    requires n <= |args| && forall i :: 0 <= i < |args| ==> args[i].place.kind.Pseudo?
    ensures AllNotLow(Fetch(args, n))
    decreases n
  {
    if n > 0 {
      FetchInRange(args, n - 1);
    }
  }

  lemma FramedInRange(code: seq<AsmOp>, offs: map<int, nat>, stackUsage: nat)
    requires AllNotLow(code)
    ensures AllNotLow(Prologue(stackUsage) + CodeInFrame(code, offs))
  {
  }

  /** Every instruction of a function is one that x86-64 has. */
  lemma FunctionLegal(params: seq<Param>, ops: seq<IrOp>)
    requires ExtendsVariables(ops) && forall i :: 0 <= i < |ops| ==> InRange(ops[i])
    ensures AllLegal(AsmOf(params, ops))
  {
    hide FrameOf, CodeInFrame, FixAll, Prologue, Legal, InRange, NothingLow, Fetch, SelectAll, StaysLow;
    var code := FunctionCode(params, ops);
    FramedExtends(params, ops);
    PrologueExtends(FrameOf(code).cursor, CodeInFrame(code, FrameOf(code).offs));
    AllSelectedInRange(ops);
    FetchInRange(ArgsOf(params), |params|);
    FramedInRange(code, FrameOf(code).offs, FrameOf(code).cursor);
    var all := Prologue(FrameOf(code).cursor) + CodeInFrame(code, FrameOf(code).offs);
    forall i | 0 <= i < |all| ensures !StaysLow(all[i]) {
      NotLowNotKept(all[i]);
    }
    FixAllLegal(all);
  }

  lemma NotLowNotKept(op: AsmOp)
    requires NothingLow(op)
    ensures !StaysLow(op)
  {
  }

  /** Code generation as the compiler performs it: one list of instructions, whose
      operands and cells are then changed in place. */
  method Codegen(params: seq<Param>, ops: seq<IrOp>) returns (f: AsmFunction)
    requires ExtendsVariables(ops)
    ensures fresh(f) && f.Valid() && f.code == AsmOf(params, ops)
  {
    hide SelectAll, SettleAll, FixAll, CodeInFrame, SizesKnown, ExtendsVariables, AllExtendToMemory, Prologue, FrameOf, Fetch, ArgsOf;
    hide ExtendsToMemory, Chain, NoDuplicates, Carry, Inside;
    var fetch := FunctionParams(ArgsOf(params));
    var code := CodegenStatement(ops);
    code := fetch + code;
    FramedExtends(params, ops);
    var cells := new AsmOp[|code|](i requires 0 <= i < |code| => code[i]);
    assert cells[..] == code;
    var stackUsage := ReplacePseudo(cells);
    f := ListOf(cells);
    f.stackUsage := stackUsage;
    f.FixupInstructions();
  }

  /** The instructions as a list. */
  method ListOf(cells: array<AsmOp>) returns (f: AsmFunction)
    ensures fresh(f) && fresh(f.repr) && f.Valid() && f.code == cells[..]
  {
    hide Chain, NoDuplicates, Carry, Inside;
    f := new AsmFunction();
    var i := cells.Length;
    while i > 0
      invariant 0 <= i <= cells.Length && f.Valid() && fresh(f) && fresh(f.repr)
      invariant f.code == cells[i..]
    {
      i := i - 1;
      f.Prepend(cells[i]);
    }
  }

  // ------------------------------------------------------------------ shifted code

  function Shift(n: nat, c: Run): Run {
    if c.At? then At(n + c.pc, c.m) else c
  }

  ghost predicate Unlabelled(code: seq<AsmOp>) {
    forall i :: 0 <= i < |code| ==> !code[i].opcode.LabelOp?
  }

  lemma {:induction false} LabelShift(pre: seq<AsmOp>, code: seq<AsmOp>, id: int, i: nat)
    requires i <= |code|
    ensures LabelAddress(code, id, i).Some? ==> LabelAddress(pre + code, id, |pre| + i) == Some(|pre| + LabelAddress(code, id, i).value)
    ensures LabelAddress(code, id, i).None? ==> LabelAddress(pre + code, id, |pre| + i).None?
    decreases |code| - i
  {
    if i < |code| {
      assert (pre + code)[|pre| + i] == code[i];
      LabelShift(pre, code, id, i + 1);
    }
  }

  lemma GoToShift(pre: seq<AsmOp>, code: seq<AsmOp>, k: Kind, m: Machine)
    requires Unlabelled(pre)
    ensures GoTo(pre + code, k, m) == Shift(|pre|, GoTo(code, k, m))
  {
    if k.LabelRef? {
      LabelShift(pre, code, k.target, 0);
      assert forall i :: 0 <= i < |pre| ==> (pre + code)[i] == pre[i];
      SkipLabels(pre + code, k.target, 0, |pre|);
    }
  }

  lemma StepShift(env: Env, pre: seq<AsmOp>, code: seq<AsmOp>, c: Run)
    requires Unlabelled(pre)
    ensures StepAsm(env, pre + code, Shift(|pre|, c)) == Shift(|pre|, StepAsm(env, code, c))
  {
    hide Exec, Asm.Holds, LabelAddress;
    if c.At? && c.pc < |code| {
      assert (pre + code)[|pre| + c.pc] == code[c.pc];
      GoToShift(pre, code, code[c.pc].a.kind, c.m);
      hide GoTo;
    }
  }

  /** Code behind a straight piece of code runs as it does by itself. */
  lemma {:induction false} RunShift(env: Env, pre: seq<AsmOp>, code: seq<AsmOp>, c: Run, k: nat)
    requires Unlabelled(pre)
    ensures IterAsm(env, pre + code, Shift(|pre|, c), k) == Shift(|pre|, IterAsm(env, code, c, k))
    decreases k
  {
    if k > 0 {
      hide StepAsm;
      StepShift(env, pre, code, c);
      RunShift(env, pre, code, StepAsm(env, code, c), k - 1);
    }
  }

  // ------------------------------------------------------------ entering a function

  /** The variables with the values of the arguments. */
  function WithParams(st: Store, params: seq<Param>, values: seq<nat>, n: nat): Store
    requires n <= |params| == |values|
  {
    if n == 0 then st else WithParams(st, params, values, n - 1)[Tmp(params[n - 1].id) := values[n - 1]]
  }

  /** No object lies in a stretch of memory. */
  ghost predicate ClearOf(layout: Layout, low: int, high: int) {
    forall l, b: int :: l in layout && low <= b < high ==> !InSlot(layout[l], b)
  }

  /** The state in which a function is entered, behind the two instructions that set
      up its frame pointer: every argument is in its place, and the places on the
      stack belong to no object. */
  ghost predicate Entered(w: World, params: seq<Param>, values: seq<nat>, m: Machine) {
    var args := ArgsOf(params);
    var high := w.rbp + FIRST_STACK_ARG + PUSH_BYTES * Stacked(args, |args|);
    && |values| == |params| && Reg64(m, RBP) == w.rbp && Passed(args, values, m, w.rbp + FIRST_STACK_ARG)
    && high <= W64.Mod() && ClearOf(w.layout, w.rbp + FIRST_STACK_ARG, high)
    && (forall i :: 0 <= i < |params| ==> values[i] < Modulus(params[i].ty) && IsDest(w.layout, ParamVal(params[i])))
  }

  lemma {:induction false} LoadOutside(layout: Layout, mem: Bytes, mem': Bytes, a: int, n: nat)
    requires Outside(layout, mem, mem') && ClearOf(layout, a, a + n)
    ensures LoadBytes(mem', a, n) == LoadBytes(mem, a, n)
    decreases n
  {
    if n > 0 {
      LoadOutside(layout, mem, mem', a + 1, n - 1);
    }
  }

  lemma StackPosition(args: seq<Arg>, i: nat)
    requires i < |args| && HomeOf(args, i).OnStack?
    ensures HomeOf(args, i).position < Stacked(args, |args|)
  {
    StackedGrows(args, i, |args|);
  }

  lemma EnteredAt(w: World, params: seq<Param>, values: seq<nat>, i: nat, m: Machine)
    requires i < |params| && Entered(w, params, values, m)
    ensures |values| == |params| && Reg64(m, RBP) == w.rbp && PassedOne(ArgsOf(params), i, values[i], m, w.rbp + FIRST_STACK_ARG)
    ensures values[i] < Modulus(params[i].ty) && IsDest(w.layout, ParamVal(params[i]))
    ensures var h := HomeOf(ArgsOf(params), i);
            h.OnStack? ==>
              var at := w.rbp + FIRST_STACK_ARG + PUSH_BYTES * h.position;
              at + 8 <= W64.Mod() && ClearOf(w.layout, at, at + 8)
  {
    hide LoadBytes, ClearOf, IsDest, PassedOne, HomeOf, Stacked, Modulus, ArgsOf;
    var args := ArgsOf(params);
    assert PassedOne(args, i, values[i], m, w.rbp + FIRST_STACK_ARG);
    match HomeOf(args, i)
    case InRegister(r) =>
    case OnStack(k) =>
      var at := w.rbp + FIRST_STACK_ARG + PUSH_BYTES * k;
      StackPosition(args, i);
      Narrower(w.layout, w.rbp + FIRST_STACK_ARG, w.rbp + FIRST_STACK_ARG + PUSH_BYTES * Stacked(args, |args|), at, at + 8);
  }

  /** What a parameter is fetched from holds its argument. */
  lemma ArgumentThere(w: World, params: seq<Param>, values: seq<nat>, i: nat, st: Store, m: Machine, m1: Machine)
    requires i < |params| && Entered(w, params, values, m) && Rel(w, m.mem, st, m1) && m1.regs == m.regs
    ensures |values| == |params|
    ensures ReadOp(w.env, FetchFrom(HomeOf(ArgsOf(params), i), WordOf(params[i].ty)).kind, WordOf(params[i].ty), m1) == Some(values[i])
  {
    hide LoadBytes, ClearOf, Entered, HomeOf, WorldOk, Stored, Outside;
    EnteredAt(w, params, values, i, m);
    var u := WordOf(params[i].ty);
    match HomeOf(ArgsOf(params), i)
    case InRegister(r) =>
    case OnStack(k) =>
      var at := w.rbp + FIRST_STACK_ARG + PUSH_BYTES * k;
      Narrower(w.layout, at, at + 8, at, at + u.Bytes());
      LoadOutside(w.layout, m.mem, m1.mem, at, u.Bytes());
      ReadBack64(at);
  }

  lemma Narrower(layout: Layout, low: int, high: int, low': int, high': int)
    requires ClearOf(layout, low, high) && low <= low' && high' <= high
    ensures ClearOf(layout, low', high')
  {
  }

  /** The copies of the arguments, in the frame. */
  lemma {:induction false} FetchSim(w: World, params: seq<Param>, values: seq<nat>, n: nat, st: Store, m: Machine, m0: Machine)
    returns (m': Machine)
    requires n <= |params| && Entered(w, params, values, m) && Rel(w, m.mem, st, m0) && m0.regs == m.regs
    ensures ExecAll(w.env, Framed(w, Fetch(ArgsOf(params), n)), m0) == Some(m')
    ensures Rel(w, m.mem, WithParams(st, params, values, n), m') && m'.regs == m.regs
    decreases n
  {
    hide Exec, ExecAll, Rel, HomeOf, MapOperand, ReadOp, WriteOp, CodeInFrame, Entered;
    EnteredSizes(w, params, values, m);
    var args := ArgsOf(params);
    if n == 0 {
      m' := m0;
      NoFetch(w, args, m0);
    } else {
      var m1 := FetchSim(w, params, values, n - 1, st, m, m0);
      var d, v, st1 := ParamVal(params[n - 1]), values[n - 1], WithParams(st, params, values, n - 1);
      var from := FetchFrom(HomeOf(args, n - 1), WordOf(d.ty));
      ArgumentThere(w, params, values, n - 1, st1, m, m1);
      EnteredAt(w, params, values, n - 1, m);
      DestPlace(w, d, m1, m.mem, st1);
      MoveEffect(w.env, Move(from, Place(d, w)), v, m1);
      m' := WriteVal(w, m.mem, d, v, st1, m1);
      SmallModulus(v, Modulus(d.ty));
      FetchSplit(w, params, n);
      ExecSingle(w.env, Move(from, Place(d, w)), m1);
      ExecJoin(w.env, Framed(w, Fetch(args, n - 1)), [Move(from, Place(d, w))], m0);
    }
  }

  lemma NoFetch(w: World, args: seq<Arg>, m: Machine)
    ensures ExecAll(w.env, Framed(w, Fetch(args, 0)), m) == Some(m)
  {
  }

  lemma FetchSplit(w: World, params: seq<Param>, n: nat)
    requires 0 < n <= |params|
    ensures var args, d := ArgsOf(params), ParamVal(params[n - 1]);
            Framed(w, Fetch(args, n)) == Framed(w, Fetch(args, n - 1)) + [Move(FetchFrom(HomeOf(args, n - 1), WordOf(d.ty)), Place(d, w))]
  {
    hide HomeOf;
    var args, d := ArgsOf(params), ParamVal(params[n - 1]);
    var op := MoveOf(FetchFrom(HomeOf(args, n - 1), WordOf(d.ty)), MapOperand(d));
    FramedJoin(w, Fetch(args, n - 1), [op]);
    FramedCells(w, [op]);
  }

  // ----------------------------------------------------------------- main result

  lemma ReserveEffect(w: World, mem0: Bytes, st: Store, n: nat, m: Machine) returns (m': Machine)
    requires Rel(w, mem0, st, m)
    ensures Exec(w.env, Reserve(n), m) == Some(m') && Rel(w, mem0, st, m') && m'.mem == m.mem && SameRegs(m, m', {RSP})
  {
    var x, v := Reg64(m, RSP), n % W64.Mod();
    ReadBack64(x);
    CombinedEffect(w.env, Reserve(n), x, v, m);
    m' := WriteReg(NoFlags(m), RSP, W64, ArithValue(SubOp, W64, x, v));
    WriteRegFrame(NoFlags(m), RSP, W64, ArithValue(SubOp, W64, x, v));
    hide Rel, WriteReg, ArithValue;
    KeepsFramePointer(w, mem0, st, m, m', {RSP});
  }

  /** Room is made for the frame and the arguments are copied into it. */
  function Entry(w: World, params: seq<Param>, cursor: nat): seq<AsmOp> {
    Prologue(cursor) + Framed(w, Fetch(ArgsOf(params), |params|))
  }

  lemma PrologueRuns(w: World, params: seq<Param>, values: seq<nat>, cursor: nat, st: Store, m: Machine) returns (m': Machine)
    requires Rel(w, m.mem, st, m) && Entered(w, params, values, m)
    ensures ExecAll(w.env, Prologue(cursor), m) == Some(m') && Rel(w, m.mem, st, m') && Entered(w, params, values, m') && m'.mem == m.mem
  {
    hide Rel, Exec, ExecAll, Reserve, RoundUp, Entered;
    m' := m;
    if cursor == 0 {
      ExecNone(w.env, m);
    } else {
      m' := ReserveEffect(w, m.mem, st, RoundUp(cursor, 16), m);
      ExecSingle(w.env, Reserve(RoundUp(cursor, 16)), m);
      StillEntered(w, params, values, m, m');
    }
  }

  lemma StillEntered(w: World, params: seq<Param>, values: seq<nat>, m: Machine, m': Machine)
    requires Entered(w, params, values, m) && m'.mem == m.mem && SameRegs(m, m', {RSP})
    ensures Entered(w, params, values, m')
  {
    hide ClearOf, IsDest, Passed, Modulus;
    StillPassed(ArgsOf(params), values, m, m', w.rbp + FIRST_STACK_ARG);
  }

  lemma StillPassed(args: seq<Arg>, values: seq<nat>, m: Machine, m': Machine, at: int)
    requires |args| == |values| && Passed(args, values, m, at) && m'.mem == m.mem && SameRegs(m, m', {RSP})
    ensures Passed(args, values, m', at) && Reg64(m', RBP) == Reg64(m, RBP)
  {
    hide HomeOf, LoadBytes, Reg64;
    forall i | 0 <= i < |args| ensures PassedOne(args, i, values[i], m', at) {
      assert PassedOne(args, i, values[i], m, at);
      if HomeOf(args, i).InRegister? {
        HomeListed(args, i);
      }
    }
  }

  lemma EntryRuns(w: World, params: seq<Param>, values: seq<nat>, cursor: nat, st: Store, m: Machine) returns (m': Machine)
    requires Rel(w, m.mem, st, m) && Entered(w, params, values, m)
    ensures ExecAll(w.env, FixAll(Entry(w, params, cursor)), m) == Some(m')
    ensures Rel(w, m.mem, WithParams(st, params, values, |params|), m') && Unlabelled(FixAll(Entry(w, params, cursor)))
  {
    hide Rel, ExecAll, Entered, Prologue, FixAll, CodeInFrame, Straight, Fetch, Unlabelled, Passed, SameBut;
    var fetch := Framed(w, Fetch(ArgsOf(params), |params|));
    var m1 := PrologueRuns(w, params, values, cursor, st, m);
    assert |values| == |params| by { EnteredSizes(w, params, values, m); }
    var m2 := FetchSim(w, params, values, |params|, st, m1, m1);
    ExecJoin(w.env, Prologue(cursor), fetch, m);
    EntryStraight(w, params, values, cursor, m);
    SameAsItself(m);
    m' := StraightSim(w.env, Entry(w, params, cursor), m, m, m2);
    ScratchApart(w, m.mem, WithParams(st, params, values, |params|), m2, m');
  }

  lemma EnteredSizes(w: World, params: seq<Param>, values: seq<nat>, m: Machine)
    requires Entered(w, params, values, m)
    ensures |values| == |params|
  {
  }

  lemma ScratchApart(w: World, mem0: Bytes, st: Store, m: Machine, m': Machine)
    requires Rel(w, mem0, st, m) && SameBut(m, m', SCRATCH)
    ensures Rel(w, mem0, st, m')
  {
    hide Rel, Reg64;
    assert RBP !in SCRATCH;
    RegistersOnly(w, mem0, st, m, m');
  }

  lemma {:induction false} FetchPlain(w: World, params: seq<Param>, n: nat)
    requires n <= |params| && forall i :: 0 <= i < |params| ==> IsDest(w.layout, ParamVal(params[i]))
    ensures Straight(Framed(w, Fetch(ArgsOf(params), n))) && Unlabelled(Framed(w, Fetch(ArgsOf(params), n)))
    decreases n
  {
    hide Straight, HomeOf, Fetch, CodeInFrame, Place;
    var args := ArgsOf(params);
    if n == 0 {
      NothingFetched(w, args);
    } else {
      FetchPlain(w, params, n - 1);
      FetchSplit(w, params, n);
      var d := ParamVal(params[n - 1]);
      var from := FetchFrom(HomeOf(args, n - 1), WordOf(d.ty));
      if HomeOf(args, n - 1).InRegister? {
        HomeListed(args, n - 1);
      }
      PlaceUses(w, d);
      MoveStraight(from, Place(d, w));
      StraightJoin(Framed(w, Fetch(args, n - 1)), [MoveOf(from, Place(d, w))]);
    }
  }

  lemma NothingFetched(w: World, args: seq<Arg>)
    ensures Straight(Framed(w, Fetch(args, 0))) && Unlabelled(Framed(w, Fetch(args, 0)))
  {
  }

  lemma PrologueStraight(cursor: nat)
    ensures Straight(Prologue(cursor)) && Unlabelled(Prologue(cursor))
  {
    hide RoundUp;
  }

  lemma EntryStraight(w: World, params: seq<Param>, values: seq<nat>, cursor: nat, m: Machine)
    requires Entered(w, params, values, m)
    ensures Straight(Entry(w, params, cursor)) && Unlabelled(FixAll(Entry(w, params, cursor)))
  {
    hide Straight, Prologue, Fetch, CodeInFrame, FixAll, ExpandAll;
    PrologueStraight(cursor);
    FetchPlain(w, params, |params|);
    StraightJoin(Prologue(cursor), Framed(w, Fetch(ArgsOf(params), |params|)));
    FixAllExpands(Entry(w, params, cursor));
    ExpandedUnlabelled(Entry(w, params, cursor));
  }

  lemma {:induction false} ExpandedUnlabelled(code: seq<AsmOp>)
    requires Unlabelled(code)
    ensures Unlabelled(ExpandAll(code))
    decreases |code|
  {
    hide Expand;
    if code != [] {
      NoNewLabels(code[0]);
      assert Unlabelled(code[1..]) by {
        assert forall i :: 0 <= i < |code[1..]| ==> code[1..][i] == code[i + 1];
      }
      ExpandedUnlabelled(code[1..]);
    }
  }

  /** What the machine has to do for a run of the IR. */
  ghost predicate RunsAs(w: World, mem0: Bytes, ops: seq<IrOp>, c: Ir.Config, d: Run, j: nat, k: nat) {
    match c
    case Stuck => true
    case Halted(v, st) => d.Finished? && Rel(w, mem0, st, d.m) && ResultInAx(v, d.m)
    case Running(_, _) => d.At? && j >= k
  }

  lemma StillFollows(w: World, mem0: Bytes, ops: seq<IrOp>, c: Ir.Config, d: Run, e: Run, j: nat, k: nat)
    requires Follows(w, mem0, ops, c, d) && Matches(CodeFor(w, ops), d, e) && (c.Running? ==> j >= k)
    ensures RunsAs(w, mem0, ops, c, e, j, k)
  {
    if c.Halted? {
      RegistersOnly(w, mem0, c.st, d.m, e.m);
    }
  }

  /** The offsets of the world are those that the frame pass computes. */
  ghost predicate FramedRight(w: World, params: seq<Param>, ops: seq<IrOp>) {
    var code := FunctionCode(params, ops);
    Framed(w, code) == CodeInFrame(code, FrameOf(code).offs)
  }

  lemma CodeSplits(w: World, params: seq<Param>, ops: seq<IrOp>)
    requires FramedRight(w, params, ops)
    ensures AsmOf(params, ops) == FixAll(Entry(w, params, FrameOf(FunctionCode(params, ops)).cursor)) + FixAll(CodeFor(w, ops))
  {
    hide SelectAll, FrameOf, CodeInFrame, FixAll, Prologue, Fetch;
    var fetch, cursor := Fetch(ArgsOf(params), |params|), FrameOf(FunctionCode(params, ops)).cursor;
    FramedJoin(w, fetch, SelectAll(ops));
    FixAllJoin(Entry(w, params, cursor), CodeFor(w, ops));
    assert Prologue(cursor) + (Framed(w, fetch) + CodeFor(w, ops)) == Entry(w, params, cursor) + CodeFor(w, ops);
  }

  /** The instructions of a function, from its entry on, do what its IR does with the
      arguments as the values of the parameters: they stop with its result, with its
      objects in their places and all other memory unchanged, or they run as long as
      it does. */
  lemma BackEndKeepsRuns(w: World, params: seq<Param>, values: seq<nat>, ops: seq<IrOp>, st: Store, m: Machine, k: nat) returns (j: nat)
    requires Rel(w, m.mem, st, m) && Entered(w, params, values, m) && FramedRight(w, params, ops)
    requires AllTyped(w, ops) && forall i :: 0 <= i < |ops| ==> Tame(ops[i])
    ensures |values| == |params|
    ensures RunsAs(w, m.mem, ops, Ir.Iter(ops, w.layout, Ir.Running(0, WithParams(st, params, values, |params|)), k),
                   IterAsm(w.env, AsmOf(params, ops), At(0, m), j), j, k)
  {
    hide Rel, AllTyped, Tame, SelectAll, FrameOf, CodeInFrame, FixAll, Prologue, StepAsm, Ir.Step, Follows, Matches, Entered, Entry, FramedRight;
    hide AsmOf, RunsAs, CodeFor, FunctionCode, WithParams, IterAsm, Ir.Iter;
    EnteredSizes(w, params, values, m);
    var code, cursor, mem0, st1 := CodeFor(w, ops), FrameOf(FunctionCode(params, ops)).cursor, m.mem, WithParams(st, params, values, |params|);
    var pre, fixed := FixAll(Entry(w, params, cursor)), FixAll(code);
    CodeSplits(w, params, ops);
    var m1 := EntryRuns(w, params, values, cursor, st, m);
    PrefixPart(pre, fixed);
    RunBlock(w.env, AsmOf(params, ops), 0, pre, m, m1);
    CodeRepairable(w, ops);
    Starts(w, mem0, ops, st1, m1);
    var i := SelectionKeepsRuns(w, mem0, ops, Ir.Running(0, st1), At(0, m1), k);
    var l := FixAllKeepsRuns(w.env, code, At(0, m1), At(0, m1), i);
    RunShift(w.env, pre, fixed, At(0, m1), l);
    IterJoin(w.env, AsmOf(params, ops), At(0, m), |pre|, l);
    j := |pre| + l;
    var c := Ir.Iter(ops, w.layout, Ir.Running(0, st1), k);
    var d := IterAsm(w.env, code, At(0, m1), i);
    if c.Running? {
      assert d.At? by {
        RunningFollows(w, mem0, ops, c, d);
      }
    }
    StillFollows(w, mem0, ops, c, d, IterAsm(w.env, fixed, At(0, m1), l), j, k);
    Unshifted(w, mem0, ops, c, IterAsm(w.env, fixed, At(0, m1), l), |pre|, j, k);
  }

  lemma RunningFollows(w: World, mem0: Bytes, ops: seq<IrOp>, c: Ir.Config, d: Run)
    requires Follows(w, mem0, ops, c, d) && c.Running?
    ensures d.At?
  {
  }

  lemma Unshifted(w: World, mem0: Bytes, ops: seq<IrOp>, c: Ir.Config, d: Run, n: nat, j: nat, k: nat)
    requires RunsAs(w, mem0, ops, c, d, j, k)
    ensures RunsAs(w, mem0, ops, c, Shift(n, d), j, k)
  {
  }

  lemma PrefixPart(a: seq<AsmOp>, b: seq<AsmOp>)
    ensures (a + b)[0..0 + |a|] == a
  {
  }

  lemma Starts(w: World, mem0: Bytes, ops: seq<IrOp>, st: Store, m: Machine)
    requires Rel(w, mem0, st, m)
    ensures Follows(w, mem0, ops, Ir.Running(0, st), At(0, m)) && Matches(CodeFor(w, ops), At(0, m), At(0, m))
  {
    StartSel(ops);
    StartPos(CodeFor(w, ops));
    hide SelectAll, CodeFor, Rel;
  }
}
