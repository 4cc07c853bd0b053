/** The stack pointer of a function: it stands below the frame from the entry on, so
    that what the function calls leaves the frame alone. */
module StackRoom {
  import opened Wrappers
  import opened CTypes
  import opened CAst
  import Ir
  import opened Asm
  import opened ModularArithmetic
  import opened MachineFacts
  import opened StackFrame
  import opened Fixups
  import opened FixupLists
  import opened FixupMeaning
  import opened FixupRuns
  import opened CallingSequence
  import opened CallMeaning
  import opened Selection
  import opened EndToEnd
  import opened FrameWorld
  import opened WholeCalls

  // ------------------------------------------- instructions that leave rsp alone

  predicate LeavesRsp(op: AsmOp) {
    !op.opcode.Push? && !op.opcode.Call? && op.a.kind != Register(RSP) && op.b.kind != Register(RSP)
  }

  ghost predicate AllLeaveRsp(code: seq<AsmOp>) {
    forall i :: 0 <= i < |code| ==> LeavesRsp(code[i])
  }

  lemma OtherRegister(env: Env, k: Kind, w: Word, v: nat, m: Machine)
    requires k != Register(RSP) && WriteOp(env, k, w, v, m).Some?
    ensures Reg64(WriteOp(env, k, w, v, m).value, RSP) == Reg64(m, RSP)
  {
    hide StoreBytes, Word.Mod;
  }

  lemma ExecLeavesRsp(env: Env, op: AsmOp, m: Machine)
    requires LeavesRsp(op) && Exec(env, op, m).Some?
    ensures Reg64(Exec(env, op, m).value, RSP) == Reg64(m, RSP)
  {
    hide ReadOp, WriteOp, Source, Divided, Converted, Combined, Trunc, Asm.Holds, CompareFlags;
    match op.opcode
    case Neg => UpdateLeavesRsp(env, op, m);
    case Not => UpdateLeavesRsp(env, op, m);
    case Dec => UpdateLeavesRsp(env, op, m);
    case Inc => UpdateLeavesRsp(env, op, m);
    case SetIf(c) => OtherRegister(env, op.a.kind, W8, if Asm.Holds(c, m.flags).value then 1 else 0, m);
    case Cdq =>
    case Cqo =>
    case LabelOp =>
    case Jmp =>
    case JmpIf(_) =>
    case Call =>
    case RetOp =>
    case Push =>
    case _ => ApplyLeavesRsp(env, op, Source(env, op, m).value, m);
  }

  lemma UpdateLeavesRsp(env: Env, op: AsmOp, m: Machine)
    requires LeavesRsp(op) && (op.opcode.Neg? || op.opcode.Not? || op.opcode.Dec? || op.opcode.Inc?) && UpdateOne(env, op, m).Some?
    ensures Reg64(UpdateOne(env, op, m).value, RSP) == Reg64(m, RSP)
  {
    hide ReadOp, WriteOp, Trunc;
    var w := op.Width();
    var x := ReadOp(env, op.a.kind, w, m).value;
    var v: int := if op.opcode.Neg? then 0 - x else if op.opcode.Not? then w.Mod() - 1 - x else if op.opcode.Inc? then x + 1 else x - 1;
    OtherRegister(env, op.a.kind, w, Trunc(w, v), if op.opcode.Not? then m else NoFlags(m));
  }

  lemma ApplyLeavesRsp(env: Env, op: AsmOp, v: nat, m: Machine)
    requires LeavesRsp(op) && Apply(env, op, v, m).Some?
    ensures Reg64(Apply(env, op, v, m).value, RSP) == Reg64(m, RSP)
  {
    hide ReadOp, WriteOp, Divided, Converted, Combined, CompareFlags;
    var w := op.Width();
    if Moves(op.opcode) {
      OtherRegister(env, op.b.kind, w, Converted(env, op, v), m);
    } else if Combines(op.opcode) {
      var x := ReadOp(env, op.b.kind, w, m).value;
      OtherRegister(env, op.b.kind, w, Combined(env, op.opcode, w, x, v), if op.opcode.FpArith? then m else NoFlags(m));
    }
  }

  ghost predicate RspIs(d: Run, sp: nat) {
    d.Fault? || Reg64(d.m, RSP) == sp
  }

  lemma {:induction false} RunLeavesRsp(env: Env, code: seq<AsmOp>, c: Run, sp: nat, k: nat)
    requires AllLeaveRsp(code) && RspIs(c, sp)
    ensures RspIs(IterAsm(env, code, c, k), sp)
    decreases k
  {
    if k > 0 {
      StepLeavesRsp(env, code, c, sp);
      hide StepAsm;
      RunLeavesRsp(env, code, StepAsm(env, code, c), sp, k - 1);
    }
  }

  lemma StepLeavesRsp(env: Env, code: seq<AsmOp>, c: Run, sp: nat)
    requires AllLeaveRsp(code) && RspIs(c, sp)
    ensures RspIs(StepAsm(env, code, c), sp)
  {
    hide Exec, LeavesRsp, Reg64;
    if c.At? && c.pc < |code| && Exec(env, code[c.pc], c.m).Some? {
      ExecLeavesRsp(env, code[c.pc], c.m);
    }
  }

  // --------------------------------------------------- the instructions of a body

  lemma SelectedLeaveRsp(op: Ir.IrOp)
    ensures AllLeaveRsp(Select(op))
  {
    hide SelectBinary, SelectPointerAdd, WordOf;
    match op
    case BinaryOf(b, x, y, dst) => BinaryLeavesRsp(b, x, y, dst);
    case PointerAdd(base, index, scale, dst) => SumLeavesRsp(base, index, scale, dst);
    case _ =>
  }

  lemma BinaryLeavesRsp(b: BinaryOp, x: Ir.IrVal, y: Ir.IrVal, dst: Ir.IrVal)
    ensures AllLeaveRsp(SelectBinary(b, x, y, dst))
  {
  }

  lemma SumLeavesRsp(base: Ir.IrVal, index: Ir.IrVal, scale: nat, dst: Ir.IrVal)
    ensures AllLeaveRsp(SelectPointerAdd(base, index, scale, dst))
  {
  }

  lemma {:induction false} AllSelectedLeaveRsp(ops: seq<Ir.IrOp>)
    ensures AllLeaveRsp(SelectAll(ops))
    decreases |ops|
  {
    hide Select, LeavesRsp;
    if ops != [] {
      SelectedLeaveRsp(ops[0]);
      AllSelectedLeaveRsp(ops[1..]);
    }
  }

  lemma {:induction false} FetchLeavesRsp(args: seq<Arg>, n: nat)
    requires n <= |args| && forall i :: 0 <= i < |args| ==> args[i].place.kind.Pseudo?
    ensures AllLeaveRsp(Fetch(args, n))
    decreases n
  {
    if n > 0 {
      FetchLeavesRsp(args, n - 1);
    }
  }

  lemma FramedLeavesRsp(code: seq<AsmOp>, offs: map<int, nat>)
    requires AllLeaveRsp(code)
    ensures AllLeaveRsp(CodeInFrame(code, offs))
  {
  }

  lemma ExpandLeavesRsp(op: AsmOp)
    requires LeavesRsp(op)
    ensures AllLeaveRsp(Expand(op))
  {
    hide FirstFix;
    if !NeedsTwo(op) {
      FixerLeavesRsp(op, FirstFix(op, 0));
      hide Fix, LeavesRsp;
    }
  }

  lemma FixerLeavesRsp(op: AsmOp, k: nat)
    requires LeavesRsp(op)
    ensures AllLeaveRsp(FixedOne(k, op))
  {
    if k <= 5 {
      EarlyFixer(op, k);
    } else if Fix(k, op).Some? {
      LateFixer(op, k);
    }
    hide Fix, LeavesRsp;
  }

  lemma EarlyFixer(op: AsmOp, k: nat)
    requires LeavesRsp(op) && k <= 5
    ensures Fix(k, op).Some? ==> AllLeaveRsp(Fix(k, op).value)
  {
  }

  lemma LateFixer(op: AsmOp, k: nat)
    requires LeavesRsp(op) && 5 < k && Fix(k, op).Some?
    ensures AllLeaveRsp(Fix(k, op).value)
  {
  }

  lemma {:induction false} RepairsLeaveRsp(code: seq<AsmOp>)
    requires AllLeaveRsp(code)
    ensures AllLeaveRsp(ExpandAll(code))
    decreases |code|
  {
    hide Expand, LeavesRsp;
    if code != [] {
      ExpandLeavesRsp(code[0]);
      RepairsLeaveRsp(code[1..]);
    }
  }

  lemma BodyLeavesRsp(params: seq<Param>, ops: seq<Ir.IrOp>)
    ensures var code := FunctionCode(params, ops); AllLeaveRsp(FixAll(CodeInFrame(code, FrameOf(code).offs)))
  {
    hide Fetch, SelectAll, FrameOf, FixAll, CodeInFrame, LeavesRsp;
    var code := FunctionCode(params, ops);
    FetchLeavesRsp(ArgsOf(params), |params|);
    AllSelectedLeaveRsp(ops);
    assert AllLeaveRsp(code);
    FramedLeavesRsp(code, FrameOf(code).offs);
    RepairsLeaveRsp(CodeInFrame(code, FrameOf(code).offs));
    FixAllExpands(CodeInFrame(code, FrameOf(code).offs));
  }

  // ------------------------------------------------------------- the reservation

  /** The frame that a function has been given. */
  function FrameIn(params: seq<Param>, ops: seq<Ir.IrOp>): Frame {
    FrameOf(FunctionCode(params, ops))
  }

  lemma ReserveMovesRsp(env: Env, n: nat, m: Machine) returns (m': Machine)
    requires n <= Reg64(m, RSP)
    ensures Exec(env, Reserve(n), m) == Some(m') && Reg64(m', RSP) == Reg64(m, RSP) - n && m'.mem == m.mem
  {
    var x := Reg64(m, RSP);
    SmallMod(x, W64.Mod());
    SmallMod(n, W64.Mod());
    SmallMod(x - n, W64.Mod());
    CombineEffect(env, Reserve(n), x, n, m);
    m' := WriteReg(NoFlags(m), RSP, W64, x - n);
    WrittenWide(NoFlags(m), RSP, W64, x - n);
  }

  lemma PrologueMovesRsp(env: Env, cursor: nat, m: Machine) returns (m': Machine)
    requires RoundUp(cursor, 16) <= Reg64(m, RSP)
    ensures ExecAll(env, FixAll(Prologue(cursor)), m) == Some(m') && |FixAll(Prologue(cursor))| <= 2
    ensures Reg64(m', RSP) == Reg64(m, RSP) - RoundUp(cursor, 16) && m'.mem == m.mem
  {
    hide RoundUp, Exec, ExecAll, Straight, FixAll;
    PrologueSize(cursor);
    PrologueStraight(cursor);
    SameAsItself(m);
    var n := RoundUp(cursor, 16);
    RoundedUp(cursor, 16);
    var s' := m;
    if cursor == 0 {
      ExecNone(env, m);
    } else {
      s' := ReserveMovesRsp(env, n, m);
      OneInstruction(env, Reserve(n), m, s');
    }
    m' := StraightSim(env, Prologue(cursor), m, m, s');
    PointersKept(s', m');
  }

  lemma PrologueSize(cursor: nat)
    ensures |FixAll(Prologue(cursor))| <= 2
  {
    hide RoundUp;
    FixAllExpands(Prologue(cursor));
    if cursor > 0 {
      ExpandAllOne(Reserve(RoundUp(cursor, 16)));
      ReserveExpands(RoundUp(cursor, 16));
    }
  }

  lemma ReserveExpands(n: nat)
    ensures |Expand(Reserve(n))| <= 2
  {
    hide FirstFix;
  }

  /** After at most two instructions rsp stands below the frame by a multiple of 16, and
      it stays there until the function returns. */
  lemma ReservationStands(env: Env, params: seq<Param>, ops: seq<Ir.IrOp>, m: Machine) returns (entry: nat)
    requires Reserved(FrameIn(params, ops)) <= Reg64(m, RSP)
    ensures entry <= 2 && Reserved(FrameIn(params, ops)) % 16 == 0
    ensures forall j: nat :: j >= entry ==> RspIs(IterAsm(env, AsmOf(params, ops), At(0, m), j), Reg64(m, RSP) - Reserved(FrameIn(params, ops)))
  {
    hide FixAll, CodeInFrame, FrameOf, FunctionCode, Prologue, ExecAll, IterAsm, RoundUp, Unlabelled, AllLeaveRsp, Reg64;
    var code := FunctionCode(params, ops);
    var f := FrameOf(code);
    RoundedUp(f.cursor, 16);
    var pre, body := FixAll(Prologue(f.cursor)), FixAll(CodeInFrame(code, f.offs));
    FixAllJoin(Prologue(f.cursor), CodeInFrame(code, f.offs));
    var m1 := PrologueMovesRsp(env, f.cursor, m);
    PrefixPart(pre, body);
    RunBlock(env, AsmOf(params, ops), 0, pre, m, m1);
    entry := |pre|;
    BodyLeavesRsp(params, ops);
    RepairedUnlabelled(f.cursor);
    forall j: nat | j >= entry
      ensures RspIs(IterAsm(env, AsmOf(params, ops), At(0, m), j), Reg64(m, RSP) - Reserved(f))
    {
      IterJoin(env, AsmOf(params, ops), At(0, m), entry, j - entry);
      RunShift(env, pre, body, At(0, m1), j - entry);
      RunLeavesRsp(env, body, At(0, m1), Reg64(m1, RSP), j - entry);
    }
  }

  lemma RepairedUnlabelled(cursor: nat)
    ensures Unlabelled(FixAll(Prologue(cursor)))
  {
    hide Unlabelled, Prologue, FixAll, ExpandAll;
    PrologueStraight(cursor);
    FixAllExpands(Prologue(cursor));
    ExpandedUnlabelled(Prologue(cursor));
  }

  // ---------------------------------------------------------------- what survives

  /** A call from any state of a function leaves the bytes of its frame as they are, but
      for those of the result. */
  lemma FrameSurvivesCall(caller: seq<Param>, ops: seq<Ir.IrOp>, env: Env, objects: map<string, nat>, high: nat, m0: Machine, j: nat,
                          pc: nat, m: Machine, args: seq<Arg>, result: Option<Arg>, returnTo: nat, s': CSemantics.Store,
                          out: CSemantics.Outcome, d: Run)
    requires Reg64(m0, RSP) == Reg64(m0, RBP) && RoomFor(FrameIn(caller, ops), env, objects, Reg64(m0, RBP), high)
    requires j >= 2 && IterAsm(env, AsmOf(caller, ops), At(0, m0), j) == At(pc, m)
    requires BackAgain(objects, env, args, result, returnTo, m, s', out, d)
    ensures var rbp, r := Reg64(m0, RBP), Leaving(env, args, result, d.m).value;
            forall b: int :: rbp - Reserved(FrameIn(caller, ops)) <= b < rbp && !InResult(env, result, m, b) ==>
              ByteAt(r.mem, b) == ByteAt(m.mem, b)
  {
    hide FrameIn, AsmOf, Reserved, IterAsm, ByteAt, InResult, Leaving, Leave;
    var entry := ReservationStands(env, caller, ops, m0);
    assert RspIs(IterAsm(env, AsmOf(caller, ops), At(0, m0), j), Reg64(m0, RSP) - Reserved(FrameIn(caller, ops)));
    var rbp := Reg64(m0, RBP);
    forall b: int | rbp - Reserved(FrameIn(caller, ops)) <= b < rbp ensures !InObjects(env, objects, b) {
    }
  }
}
