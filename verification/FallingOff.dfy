/** The return that lowering adds at the end of a function hands back a zero of type
    char, which does not fill the register of the result. */
module FallingOff {
  import opened Wrappers
  import opened CTypes
  import opened CAst
  import opened Lowering
  import LoweringCorrectness
  import ModularArithmetic
  import opened Asm
  import opened MachineFacts
  import opened StackFrame
  import opened Fixups
  import opened FixupRuns
  import opened Selection
  import opened FixupLists
  import opened EndToEnd

  /** What the added return does in any state: it keeps all of ax but its low byte, so
      that an int result is zero exactly when the rest of it was zero before. */
  lemma FallingOffKeepsUpperBytes(env: Env, m: Machine) returns (m': Machine)
    ensures Select(LoweringCorrectness.FinalRet(false)) == FinalCode()
    ensures Exec(env, FinalCode()[0], m) == Some(m')
    ensures Reg64(m', AX) == Reg64(m, AX) - Reg64(m, AX) % 256
    ensures Reg64(m', AX) % Modulus(Int) == 0 <==> Reg64(m, AX) % Modulus(Int) < 256
  {
    var x := Reg64(m, AX);
    m' := WriteReg(m, AX, W8, 0);
    LowByte(x, 0);
    var y := x - x % 256;
    assert m'.regs == m.regs[AX := y];
    ModularArithmetic.SmallMod(y, W64.Mod());
    var q, r := x / Modulus(Int), x % Modulus(Int);
    var low := r / 256 * 256;
    assert x == q * Modulus(Int) + r && r == low + r % 256;
    assert x % 256 == r % 256 by {
      ModMod(x, W32, W8);
    }
    ModularArithmetic.DivModUnique(y, Modulus(Int), q, low);
  }

  function FinalCode(): (code: seq<AsmOp>)
    ensures |code| == 2
  {
    [AsmOp(Mov, Operand(Immediate(0), W8), Operand(Register(AX), W8)), AsmOp(RetOp, NONE, NONE)]
  }

  /** The instructions of `int main(void) {}`. */
  lemma EmptyFunctionCode(g: int, n: int)
    ensures AsmOf([], LowerFunction(Nil, false, g, n).ops) == FinalCode()
  {
    hide FixAll, CodeInFrame, FrameOf, FunctionCode;
    OnlyReturn(g, n);
    ReturnSelected();
    NothingSettled();
    NothingFramed();
    assert Prologue(0) + FinalCode() == FinalCode();
    NothingRepaired();
  }

  lemma OnlyReturn(g: int, n: int)
    ensures LowerFunction(Nil, false, g, n).ops == [LoweringCorrectness.FinalRet(false)]
  {
    assert LowerFlat(Nil, g, n).ops == [];
  }

  lemma ReturnSelected()
    ensures FunctionCode([], [LoweringCorrectness.FinalRet(false)]) == FinalCode()
  {
    var ops := [LoweringCorrectness.FinalRet(false)];
    assert SelectAll(ops[1..]) == [];
    assert SelectAll(ops) == FinalCode() + [];
    assert [] + FinalCode() == FinalCode();
  }

  lemma NothingFramed()
    ensures CodeInFrame(FinalCode(), map[]) == FinalCode()
  {
  }

  lemma NothingSettled()
    ensures FrameOf(FinalCode()).cursor == 0 && FrameOf(FinalCode()).offs == map[]
  {
  }

  lemma NothingRepaired()
    ensures FixAll(FinalCode()) == FinalCode()
  {
    hide FixAll, Expand, Fix;
    var code := FinalCode();
    FixAllExpands(code);
    NotRepaired(code[0]);
    NotRepaired(code[1]);
    assert ExpandAll(code[1..][1..]) == [];
    assert ExpandAll(code[1..]) == [code[1]] + [];
    assert ExpandAll(code) == [code[0]] + ExpandAll(code[1..]);
  }

  lemma NotRepaired(op: AsmOp)
    requires op.opcode.RetOp? || (op.opcode.Mov? && op.a.kind == Immediate(0) && op.b.kind == Register(AX))
    ensures Expand(op) == [op]
  {
    hide FirstFix;
    assert Fix(FirstFix(op, 0), op).None?;
  }

  /** Run from its entry, an empty function that returns int hands back zero exactly
      when its caller has left nothing in the upper bytes of eax. */
  lemma EmptyFunctionReturns(env: Env, g: int, n: int, m: Machine) returns (m': Machine)
    ensures IterAsm(env, AsmOf([], LowerFunction(Nil, false, g, n).ops), At(0, m), 2) == Finished(m')
    ensures Reg64(m', AX) % Modulus(Int) == 0 <==> Reg64(m, AX) % Modulus(Int) < 256
    ensures Reg64(m, AX) == 256 ==> Reg64(m', AX) % Modulus(Int) == 256
  {
    hide AsmOf, LowerFunction;
    EmptyFunctionCode(g, n);
    m' := FallingOffKeepsUpperBytes(env, m);
    TwoSteps(env, m, m');
  }

  lemma TwoSteps(env: Env, m: Machine, m': Machine)
    requires Exec(env, FinalCode()[0], m) == Some(m')
    ensures IterAsm(env, FinalCode(), At(0, m), 2) == Finished(m')
  {
    hide Exec;
    assert StepAsm(env, FinalCode(), At(0, m)) == At(1, m');
    assert StepAsm(env, FinalCode(), At(1, m')) == Finished(m');
    assert IterAsm(env, FinalCode(), At(1, m'), 1) == IterAsm(env, FinalCode(), Finished(m'), 0);
  }
}
