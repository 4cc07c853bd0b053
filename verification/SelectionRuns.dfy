/** Whole runs of the IR machine, followed by the selected code in its frame. */
module SelectionRuns {
  import opened Wrappers
  import opened CTypes
  import Ir
  import opened Asm
  import opened StackFrame
  import opened FixupMeaning
  import opened FixupRuns
  import opened Selection
  import opened SelectionMeaning

  /** The code of a function, selected and put into the frame. */
  function CodeFor(w: World, ops: seq<IrOp>): seq<AsmOp> {
    Framed(w, SelectAll(ops))
  }

  function SelPos(ops: seq<IrOp>, pc: nat): nat
    requires pc <= |ops|
  {
    |SelectAll(ops[..pc])|
  }

  lemma FramedJoin(w: World, a: seq<AsmOp>, b: seq<AsmOp>)
    ensures Framed(w, a + b) == Framed(w, a) + Framed(w, b)
  {
    var c, d := Framed(w, a + b), Framed(w, a) + Framed(w, b);
    forall i | 0 <= i < |c| ensures c[i] == d[i] {
      assert (a + b)[i] == if i < |a| then a[i] else b[i - |a|];
    }
  }

  lemma SelectAllOne(op: IrOp)
    ensures SelectAll([op]) == Select(op)
  {
    hide Select;
    assert [op][1..] == [] && SelectAll([]) == [];
  }

  /** The instructions of one operation within the code. */
  lemma BlockPlaced(w: World, ops: seq<IrOp>, pc: nat)
    requires pc < |ops|
    ensures var p, b, code := SelPos(ops, pc), Framed(w, Select(ops[pc])), CodeFor(w, ops);
            p + |b| <= |code| && code[p..p + |b|] == b && SelPos(ops, pc + 1) == p + |b| && |b| >= 1
  {
    hide Select, SelectAll, CodeInFrame;
    var before, after, op := ops[..pc], ops[pc + 1..], ops[pc];
    assert ops == before + ([op] + after) && ops[..pc + 1] == before + [op];
    SelectAllOne(op);
    SelectAllJoin(before, [op] + after);
    SelectAllJoin([op], after);
    SelectAllJoin(before, [op]);
    FramedJoin(w, SelectAll(before), Select(op) + SelectAll(after));
    FramedJoin(w, Select(op), SelectAll(after));
    MiddlePart(Framed(w, SelectAll(before)), Framed(w, Select(op)), Framed(w, SelectAll(after)));
  }

  lemma LabelsOfBlock(w: World, op: IrOp, id: int)
    ensures op == Ir.LabelAt(id) ==> IsLabel(Framed(w, Select(op))[0], id)
    ensures op != Ir.LabelAt(id) ==> forall i :: 0 <= i < |Framed(w, Select(op))| ==> !IsLabel(Framed(w, Select(op))[i], id)
  {
    var code := Select(op);
    if op.LabelAt? {
      assert Framed(w, code)[0] == OpInFrame(code[0], w.offs);
    } else {
      NoLabelSelected(op);
      hide Select;
      forall i | 0 <= i < |code| ensures Framed(w, code)[i].opcode == code[i].opcode {
      }
    }
  }

  lemma NoLabelSelected(op: IrOp)
    requires !op.LabelAt?
    ensures forall i :: 0 <= i < |Select(op)| ==> !Select(op)[i].opcode.LabelOp?
  {
  }

  lemma {:induction false} JumpLands(w: World, ops: seq<IrOp>, id: int, i: nat)
    requires i <= |ops|
    ensures SelPos(ops, i) <= |CodeFor(w, ops)|
    ensures Ir.FindLabelFrom(ops, id, i).Some? ==>
              LabelAddress(CodeFor(w, ops), id, SelPos(ops, i)) == Some(SelPos(ops, Ir.FindLabelFrom(ops, id, i).value))
    decreases |ops| - i
  {
    hide Select, SelectAll, CodeInFrame, IsLabel;
    var code := CodeFor(w, ops);
    if i == |ops| {
      assert ops[..i] == ops;
    } else {
      BlockPlaced(w, ops, i);
      LabelsOfBlock(w, ops[i], id);
      JumpLands(w, ops, id, i + 1);
      var p, b := SelPos(ops, i), Framed(w, Select(ops[i]));
      if ops[i] == Ir.LabelAt(id) {
        assert code[p] == code[p..p + |b|][0];
      } else {
        forall j | p <= j < p + |b| ensures !IsLabel(code[j], id) {
          assert code[j] == code[p..p + |b|][j - p];
        }
        SkipLabels(code, id, p, p + |b|);
      }
    }
  }

  // ----------------------------------------------------------------- matching

  ghost predicate AllTyped(w: World, ops: seq<IrOp>) {
    forall i :: 0 <= i < |ops| ==> OpTyped(w.layout, ops[i])
  }

  /** The result is in ax, at the width of its type. */
  predicate ResultInAx(v: Option<Typed>, m: Machine) {
    v.Some? ==> Reg64(m, AX) % Modulus(v.value.ty) == v.value.bits
  }

  ghost predicate Follows(w: World, mem0: Bytes, ops: seq<IrOp>, c: Ir.Config, d: Run) {
    match c
    case Stuck => true
    case Halted(v, st) => d.Finished? && Rel(w, mem0, st, d.m) && ResultInAx(v, d.m)
    case Running(pc, st) => d.At? && pc <= |ops| && d.pc == SelPos(ops, pc) && Rel(w, mem0, st, d.m)
  }

  lemma JumpFollows(w: World, mem0: Bytes, ops: seq<IrOp>, l: int, st: Store, m: Machine)
    requires Rel(w, mem0, st, m)
    ensures Follows(w, mem0, ops, Ir.JumpTo(ops, l, st), GoTo(CodeFor(w, ops), LabelRef(l), m))
  {
    hide SelectAll, CodeFor, Rel, LabelAddress;
    JumpLands(w, ops, l, 0);
    assert ops[..0] == [] && SelPos(ops, 0) == 0 by {
      StartSel(ops);
    }
  }

  lemma StartSel(ops: seq<IrOp>)
    ensures SelPos(ops, 0) == 0
  {
    assert ops[..0] == [];
  }

  /** The instruction at an offset of a block. */
  lemma AtOffset(code: seq<AsmOp>, p: nat, b: seq<AsmOp>, i: nat)
    requires p + |b| <= |code| && code[p..p + |b|] == b && i < |b|
    ensures code[p + i] == b[i]
  {
    assert code[p + i] == code[p..p + |b|][i];
  }

  lemma StepFollows(w: World, mem0: Bytes, ops: seq<IrOp>, c: Ir.Config, d: Run) returns (k: nat)
    requires AllTyped(w, ops) && Follows(w, mem0, ops, c, d)
    ensures Follows(w, mem0, ops, Ir.Step(ops, w.layout, c), IterAsm(w.env, CodeFor(w, ops), d, k))
    ensures c.Running? && Ir.Step(ops, w.layout, c) != Ir.Stuck ==> k >= 1
  {
    k := 0;
    if c.Running? && c.pc < |ops| && Ir.Step(ops, w.layout, c) != Ir.Stuck {
      var op := ops[c.pc];
      if op.Ret? {
        k := RetFollows(w, mem0, ops, c, d);
      } else if op.Jump? {
        k := GotoFollows(w, mem0, ops, c, d);
      } else if op.JumpIfZero? || op.JumpIfNotZero? {
        k := BranchFollows(w, mem0, ops, c, d);
      } else {
        k := PlainFollows(w, mem0, ops, c, d);
      }
    }
  }

  lemma PlainFollows(w: World, mem0: Bytes, ops: seq<IrOp>, c: Ir.Config, d: Run) returns (k: nat)
    requires AllTyped(w, ops) && Follows(w, mem0, ops, c, d)
    requires c.Running? && c.pc < |ops| && Ir.Step(ops, w.layout, c) != Ir.Stuck
    requires !ops[c.pc].Ret? && !ops[c.pc].Jump? && !ops[c.pc].JumpIfZero? && !ops[c.pc].JumpIfNotZero?
    ensures Follows(w, mem0, ops, Ir.Step(ops, w.layout, c), IterAsm(w.env, CodeFor(w, ops), d, k)) && k >= 1
  {
    hide Rel, OpTyped, Select, SelectAll, CodeInFrame, ExecAll, Ir.Effect, SelPos;
    var op := ops[c.pc];
    var st' := Ir.Effect(w.layout, op, c.st).value;
    BlockPlaced(w, ops, c.pc);
    var m' := EffectSim(w, mem0, op, c.st, st', d.m);
    hide Framed;
    RunBlock(w.env, CodeFor(w, ops), d.pc, Framed(w, Select(op)), d.m, m');
    k := |Framed(w, Select(op))|;
  }

  lemma GotoFollows(w: World, mem0: Bytes, ops: seq<IrOp>, c: Ir.Config, d: Run) returns (k: nat)
    requires Follows(w, mem0, ops, c, d) && c.Running? && c.pc < |ops| && ops[c.pc].Jump?
    ensures Follows(w, mem0, ops, Ir.Step(ops, w.layout, c), IterAsm(w.env, CodeFor(w, ops), d, k)) && k >= 1
  {
    hide Rel, SelectAll, CodeFor, SelPos, LabelAddress, Ir.FindLabel;
    var l := ops[c.pc].target;
    BlockPlaced(w, ops, c.pc);
    FramedCells(w, Select(ops[c.pc]));
    AtOffset(CodeFor(w, ops), d.pc, Framed(w, Select(ops[c.pc])), 0);
    JumpFollows(w, mem0, ops, l, c.st, d.m);
    OneStep(w.env, CodeFor(w, ops), d);
    k := 1;
  }

  lemma RetFollows(w: World, mem0: Bytes, ops: seq<IrOp>, c: Ir.Config, d: Run) returns (k: nat)
    requires AllTyped(w, ops) && Follows(w, mem0, ops, c, d)
    requires c.Running? && c.pc < |ops| && ops[c.pc].Ret? && Ir.Step(ops, w.layout, c) != Ir.Stuck
    ensures Follows(w, mem0, ops, Ir.Step(ops, w.layout, c), IterAsm(w.env, CodeFor(w, ops), d, k)) && k >= 1
  {
    hide Rel, SelectAll, CodeFor, SelPos, Exec, WriteReg, Reg64, MapOperand, InFrame;
    var op, code := ops[c.pc], CodeFor(w, ops);
    var block := Framed(w, Select(op));
    BlockPlaced(w, ops, c.pc);
    FramedCells(w, Select(op));
    Unframed(w);
    AtOffset(code, d.pc, block, 0);
    OneStep(w.env, code, d);
    if op.result.None? {
      k := 1;
    } else {
      var v := op.result.value;
      var x := Ir.Read(v, c.st).value;
      assert OpTyped(w.layout, op);
      var m1 := MoveToReg(w, mem0, v, v.ty, AX, x, c.st, d.m);
      AtOffset(code, d.pc, block, 1);
      StraightStep(w.env, code, d.pc, d.m, m1);
      IterJoin(w.env, code, d, 1, 1);
      OneStep(w.env, code, At(d.pc + 1, m1));
      k := 2;
    }
  }

  lemma BranchFollows(w: World, mem0: Bytes, ops: seq<IrOp>, c: Ir.Config, d: Run) returns (k: nat)
    requires AllTyped(w, ops) && Follows(w, mem0, ops, c, d)
    requires c.Running? && c.pc < |ops| && (ops[c.pc].JumpIfZero? || ops[c.pc].JumpIfNotZero?)
    requires Ir.Step(ops, w.layout, c) != Ir.Stuck
    ensures Follows(w, mem0, ops, Ir.Step(ops, w.layout, c), IterAsm(w.env, CodeFor(w, ops), d, k)) && k >= 1
  {
    hide Rel, SelectAll, CodeFor, SelPos, Exec, MapOperand, InFrame, LabelAddress, Ir.FindLabel, Asm.Holds;
    var op, code := ops[c.pc], CodeFor(w, ops);
    var block := Framed(w, Select(op));
    var l := op.target;
    BlockPlaced(w, ops, c.pc);
    FramedCells(w, Select(op));
    Unframed(w);
    var x := Ir.Read(op.cond, c.st).value;
    assert OpTyped(w.layout, op);
    var m1 := TestSim(w, mem0, op.cond, x, c.st, d.m);
    AtOffset(code, d.pc, block, 0);
    AtOffset(code, d.pc, block, 1);
    StraightStep(w.env, code, d.pc, d.m, m1);
    OneStep(w.env, code, d);
    IterJoin(w.env, code, d, 1, 1);
    OneStep(w.env, code, At(d.pc + 1, m1));
    JumpFollows(w, mem0, ops, l, c.st, m1);
    k := 2;
  }

  /** The machine follows every run of the IR, and takes at least as many steps
      while that goes on. */
  lemma {:induction false} SelectionKeepsRuns(w: World, mem0: Bytes, ops: seq<IrOp>, c: Ir.Config, d: Run, k: nat) returns (j: nat)
    requires AllTyped(w, ops) && Follows(w, mem0, ops, c, d)
    ensures Follows(w, mem0, ops, Ir.Iter(ops, w.layout, c, k), IterAsm(w.env, CodeFor(w, ops), d, j))
    ensures Ir.Iter(ops, w.layout, c, k).Running? ==> j >= k
    decreases k
  {
    j := 0;
    if k > 0 {
      hide AllTyped, Follows, Ir.Step, CodeFor;
      var i := StepFollows(w, mem0, ops, c, d);
      var c', d' := Ir.Step(ops, w.layout, c), IterAsm(w.env, CodeFor(w, ops), d, i);
      var l := SelectionKeepsRuns(w, mem0, ops, c', d', k - 1);
      IterJoin(w.env, CodeFor(w, ops), d, i, l);
      j := i + l;
      if Ir.Iter(ops, w.layout, c, k).Running? && !(c.Running? && c' != Ir.Stuck) {
        NeverRunsAgain(ops, w.layout, c', k - 1);
        NotRunningBefore(ops, w.layout, c);
      }
    }
  }

  /** A run that has ended does not go on. */
  lemma {:induction false} NeverRunsAgain(ops: seq<IrOp>, layout: Layout, c: Ir.Config, k: nat)
    ensures Ir.Iter(ops, layout, c, k).Running? ==> c.Running?
    decreases k
  {
    if k > 0 {
      NeverRunsAgain(ops, layout, Ir.Step(ops, layout, c), k - 1);
    }
  }

  lemma NotRunningBefore(ops: seq<IrOp>, layout: Layout, c: Ir.Config)
    ensures Ir.Step(ops, layout, c).Running? ==> c.Running?
  {
  }
}
