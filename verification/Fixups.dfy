/** The twelve repairs that replace instructions x86-64 does not have, in the order
    of their table, and what is left after all of them. */
module Fixups {
  import opened Wrappers
  import opened Asm

  function InR10(w: Word): Operand { Operand(Register(R10), w) }
  function InR11(w: Word): Operand { Operand(Register(R11), w) }
  function InCx(w: Word): Operand { Operand(Register(CX), w) }
  const XMM15 := Operand(Register(Xmm(15)), W64)

  const INT_MAX := 0x7FFF_FFFF
  const INT_MIN := -0x8000_0000

  predicate InMemory(o: Operand) {
    o.kind.Memory? || o.kind.Data? || o.kind.DoubleConst? || o.kind.StringConst?
  }

  predicate IsXmm(o: Operand) {
    o.kind.Register? && o.kind.reg.Xmm?
  }

  predicate BigImmediate(o: Operand) {
    o.kind.Immediate? && o.kind.num > INT_MAX
  }

  predicate LowImmediate(o: Operand) {
    o.kind.Immediate? && o.kind.num < INT_MIN
  }

  /** Only moves into registers take more than 32 bits. */
  predicate WideImmediate(o: Operand) {
    BigImmediate(o) || LowImmediate(o)
  }

  /** Addition, subtraction and the bitwise operators. */
  predicate BinaryIsh(o: Opcode) {
    (o.Arith? && !o.arith.MulOp?) || o.Cmp?
  }

  predicate IsShift(o: Opcode) {
    o.ShiftLeftOp? || o.ShiftRightOp?
  }

  // ------------------------------------------------------------------- fixers

  function FixS2s(op: AsmOp): Option<seq<AsmOp>> {
    if (op.opcode.Mov? || BinaryIsh(op.opcode)) && InMemory(op.a) && InMemory(op.b) then
      Some([AsmOp(Mov, op.a, InR10(op.a.word)), AsmOp(op.opcode, InR10(op.b.word), op.b)])
    else None
  }

  function FixImmBig(op: AsmOp): Option<seq<AsmOp>> {
    if ((op.opcode.Arith? || op.opcode.Cmp? || op.opcode.Push?) && BigImmediate(op.a))
       || (op.opcode.Mov? && BigImmediate(op.a) && InMemory(op.b))
       || (op.opcode.Mov? && op.a.kind.Immediate? && IsXmm(op.b))
    then Some([AsmOp(Mov, op.a, InR10(W64)), AsmOp(op.opcode, InR10(W64), op.b)])
    else None
  }

  function FixCmp(op: AsmOp): Option<seq<AsmOp>> {
    if op.opcode.Cmp? && op.b.kind.Immediate? then
      Some([AsmOp(Mov, op.b, InR11(op.b.word)), AsmOp(Cmp, op.a, InR11(op.a.word))])
    else None
  }

  function FixDiv(op: AsmOp): Option<seq<AsmOp>> {
    if (op.opcode.Idiv? || op.opcode.Div?) && op.a.kind.Immediate? then
      Some([AsmOp(Mov, op.a, InR10(op.a.word)), AsmOp(op.opcode, InR10(op.a.word), NONE)])
    else None
  }

  function FixMul(op: AsmOp): Option<seq<AsmOp>> {
    if op.opcode == Arith(MulOp) && InMemory(op.b) then
      Some([AsmOp(Mov, op.b, InR11(op.b.word)), AsmOp(op.opcode, op.a, InR11(op.a.word)), AsmOp(Mov, InR11(op.b.word), op.b)])
    else None
  }

  function FixShift(op: AsmOp): Option<seq<AsmOp>> {
    if IsShift(op.opcode) && !op.a.kind.Immediate? then
      Some([AsmOp(Mov, op.a, InCx(op.a.word)), AsmOp(op.opcode, InCx(op.b.word), op.b)])
    else None
  }

  function FixMovsxAndMovzx(op: AsmOp): Option<seq<AsmOp>> {
    if ((op.opcode.MovSx? && !op.a.word.W64?) || (op.opcode.MovZx? && op.a.word.W8?))
       && (op.a.kind.Immediate? || InMemory(op.b))
    then
      Some([AsmOp(Mov, op.a, InR10(op.a.word)), AsmOp(op.opcode, InR10(op.a.word), InR11(op.b.word)),
            AsmOp(Mov, InR11(op.b.word), op.b)])
    else None
  }

  function FixMovzx32bit(op: AsmOp): Option<seq<AsmOp>> {
    if op.opcode.MovZx? && op.a.word.W32? then
      if op.b.kind.Register? then Some([AsmOp(Mov, op.a, op.b)])
      else Some([AsmOp(Mov, op.a, InR11(op.a.word)), AsmOp(Mov, InR11(op.b.word), op.b)])
    else None
  }

  function FixCvtDoubleToInt(op: AsmOp): Option<seq<AsmOp>> {
    if op.opcode.CvtDoubleToInt? && InMemory(op.b) then
      Some([AsmOp(op.opcode, op.a, InR11(op.a.word)), AsmOp(Mov, InR11(op.b.word), op.b)])
    else None
  }

  function FixCvtIntToDouble(op: AsmOp): Option<seq<AsmOp>> {
    if op.opcode.CvtIntToDouble? && (op.a.kind.Immediate? || InMemory(op.b)) then
      Some([AsmOp(Mov, op.a, InR10(op.a.word)), AsmOp(op.opcode, InR10(op.a.word), XMM15), AsmOp(Mov, XMM15, op.b)])
    else None
  }

  function FixArithmeticOnDouble(op: AsmOp): Option<seq<AsmOp>> {
    if (op.opcode.FpCmp? || op.opcode.FpArith?) && InMemory(op.b) then
      Some([AsmOp(Mov, op.b, XMM15), AsmOp(op.opcode, op.a, XMM15)]
           + if op.opcode.FpCmp? then [] else [AsmOp(Mov, XMM15, op.b)])
    else None
  }

  function FixLea(op: AsmOp): Option<seq<AsmOp>> {
    if op.opcode.Lea? && InMemory(op.b) then
      Some([AsmOp(Lea, op.a, InR10(op.b.word)), AsmOp(Mov, InR10(op.b.word), op.b)])
    else None
  }

  const FIXERS := 12

  /** The table of fixers. */
  function Fix(k: nat, op: AsmOp): Option<seq<AsmOp>> {
    match k
    case 0 => FixS2s(op)
    case 1 => FixImmBig(op)
    case 2 => FixCmp(op)
    case 3 => FixDiv(op)
    case 4 => FixMul(op)
    case 5 => FixShift(op)
    case 6 => FixMovsxAndMovzx(op)
    case 7 => FixMovzx32bit(op)
    case 8 => FixCvtDoubleToInt(op)
    case 9 => FixCvtIntToDouble(op)
    case 10 => FixArithmeticOnDouble(op)
    case 11 => FixLea(op)
    case _ => None
  }

  // ------------------------------------------------------------------- passes

  function FixedOne(k: nat, op: AsmOp): seq<AsmOp> {
    var r := Fix(k, op);
    if r.Some? then r.value else [op]
  }

  /** One fixer on every instruction of a list. */
  function Pass(k: nat, code: seq<AsmOp>): seq<AsmOp> {
    if code == [] then [] else FixedOne(k, code[0]) + Pass(k, code[1..])
  }

  /** The fixers from the k-th one on. */
  function PassesFrom(k: nat, code: seq<AsmOp>): seq<AsmOp>
    decreases FIXERS - k
  {
    if k >= FIXERS then code else PassesFrom(k + 1, Pass(k, code))
  }

  function FixAll(code: seq<AsmOp>): seq<AsmOp> {
    PassesFrom(0, code)
  }

  lemma {:induction false} PassJoin(k: nat, a: seq<AsmOp>, b: seq<AsmOp>)
    ensures Pass(k, a + b) == Pass(k, a) + Pass(k, b)
    decreases |a|
  {
    if a == [] {
      assert a + b == b;
    } else {
      assert (a + b)[1..] == a[1..] + b;
      PassJoin(k, a[1..], b);
    }
  }

  lemma {:induction false} PassesJoin(k: nat, a: seq<AsmOp>, b: seq<AsmOp>)
    ensures PassesFrom(k, a + b) == PassesFrom(k, a) + PassesFrom(k, b)
    decreases FIXERS - k
  {
    if k < FIXERS {
      PassJoin(k, a, b);
      PassesJoin(k + 1, Pass(k, a), Pass(k, b));
    }
  }

  /** Fixing is done instruction by instruction. */
  lemma FixAllJoin(a: seq<AsmOp>, b: seq<AsmOp>)
    ensures FixAll(a + b) == FixAll(a) + FixAll(b)
  {
    PassesJoin(0, a, b);
  }

  // -------------------------------------------------- what becomes of an instruction

  /** No fixer from the k-th one on touches the instruction. */
  ghost predicate Final(op: AsmOp, k: nat) {
    forall j :: k <= j < FIXERS ==> Fix(j, op).None?
  }

  lemma {:induction false} FinalStays(code: seq<AsmOp>, k: nat)
    requires forall op :: op in code ==> Final(op, k)
    ensures PassesFrom(k, code) == code
    decreases FIXERS - k
  {
    if k < FIXERS {
      Untouched(code, k);
      FinalStays(code, k + 1);
    }
  }

  lemma {:induction false} Untouched(code: seq<AsmOp>, k: nat)
    requires forall op :: op in code ==> Fix(k, op).None?
    ensures Pass(k, code) == code
    decreases |code|
  {
    if code != [] {
      assert code[0] in code;
      Untouched(code[1..], k);
      assert [code[0]] + code[1..] == code;
    }
  }

  /** The first fixer that applies, if any. */
  function FirstFix(op: AsmOp, k: nat): (j: nat)
    ensures k <= j && (k <= FIXERS ==> j <= FIXERS)
    ensures j < FIXERS ==> Fix(j, op).Some?
    ensures forall i :: k <= i < j ==> Fix(i, op).None?
    decreases FIXERS - k
  {
    if k >= FIXERS || Fix(k, op).Some? then k else FirstFix(op, k + 1)
  }

  /** Two instructions need two fixers: a comparison of a large constant with a
      constant, and a multiplication in memory by a large constant. */
  predicate NeedsTwo(op: AsmOp) {
    BigImmediate(op.a) && ((op.opcode.Cmp? && op.b.kind.Immediate?) || (op.opcode == Arith(MulOp) && InMemory(op.b)))
  }

  /** What all fixers together make of one instruction. */
  function Expand(op: AsmOp): seq<AsmOp> {
    if NeedsTwo(op) && op.opcode.Cmp? then
      [AsmOp(Mov, op.a, InR10(W64)), AsmOp(Mov, op.b, InR11(op.b.word)), AsmOp(Cmp, InR10(W64), InR11(W64))]
    else if NeedsTwo(op) then
      [AsmOp(Mov, op.a, InR10(W64)), AsmOp(Mov, op.b, InR11(op.b.word)), AsmOp(op.opcode, InR10(W64), InR11(W64)),
       AsmOp(Mov, InR11(op.b.word), op.b)]
    else FixedOne(FirstFix(op, 0), op)
  }

  function ExpandAll(code: seq<AsmOp>): seq<AsmOp> {
    if code == [] then [] else Expand(code[0]) + ExpandAll(code[1..])
  }

  lemma {:induction false} SkipTo(op: AsmOp, k: nat, j: nat)
    requires k <= j <= FIXERS && forall i :: k <= i < j ==> Fix(i, op).None?
    ensures PassesFrom(k, [op]) == PassesFrom(j, [op])
    decreases j - k
  {
    if k < j {
      Untouched([op], k);
      SkipTo(op, k + 1, j);
    }
  }

  lemma OnePass(k: nat, op: AsmOp)
    ensures Pass(k, [op]) == FixedOne(k, op)
  {
    assert [op][1..] == [];
    assert Pass(k, []) == [];
  }

  /** Later fixers leave alone what an earlier one has made, with two exceptions. */
  lemma MadeFinal(op: AsmOp, k: nat)
    requires k < FIXERS && Fix(k, op).Some? && !NeedsTwo(op)
    ensures forall o :: o in Fix(k, op).value ==> Final(o, k + 1)
  {
    var made := Fix(k, op).value;
    forall o, j | o in made && k + 1 <= j < FIXERS ensures Fix(j, o).None? {
      var i :| 0 <= i < |made| && made[i] == o;
    }
  }

  lemma NextPass(k: nat, code: seq<AsmOp>)
    requires k < FIXERS
    ensures PassesFrom(k, code) == PassesFrom(k + 1, Pass(k, code))
  {
  }

  /** The k-th fixer is the last one that changes anything. */
  lemma LastFix(op: AsmOp, k: nat)
    requires k < FIXERS && Fix(k, op).Some? && !NeedsTwo(op)
    ensures PassesFrom(k, [op]) == Fix(k, op).value
  {
    hide Fix, Pass, PassesFrom;
    NextPass(k, [op]);
    OnePass(k, op);
    MadeFinal(op, k);
    FinalStays(Fix(k, op).value, k + 1);
  }

  lemma ExpandsOne(op: AsmOp)
    ensures FixAll([op]) == Expand(op)
  {
    assert Fix(FIXERS, op).None?;
    hide Fix, Pass, PassesFrom;
    if NeedsTwo(op) {
      ExpandsTwice(op);
    } else {
      var k := FirstFix(op, 0);
      SkipTo(op, 0, k);
      if k < FIXERS {
        LastFix(op, k);
      } else {
        FinalStays([op], k);
      }
    }
  }

  /** The two fixers of such an instruction, and what they make of it. */
  lemma TwiceFixed(op: AsmOp)
    requires NeedsTwo(op)
    ensures var load, use, k := AsmOp(Mov, op.a, InR10(W64)), AsmOp(op.opcode, InR10(W64), op.b), if op.opcode.Cmp? then 2 else 4;
            && Fix(0, op).None? && Fix(1, op) == Some([load, use])
            && (forall i :: 2 <= i < k ==> Fix(i, use).None?) && Fix(k, use).Some? && !NeedsTwo(use)
            && [load] + Fix(k, use).value == Expand(op)
  {
  }

  /** A move into a scratch register needs none of the later fixers. */
  lemma LoadFinal(a: Operand)
    requires BigImmediate(a)
    ensures Final(AsmOp(Mov, a, InR10(W64)), 2)
  {
  }

  lemma ExpandsTwice(op: AsmOp)
    requires NeedsTwo(op)
    ensures FixAll([op]) == Expand(op)
  {
    hide Fix, Pass, PassesFrom, Expand, Final;
    var load, use := AsmOp(Mov, op.a, InR10(W64)), AsmOp(op.opcode, InR10(W64), op.b);
    var k := if op.opcode.Cmp? then 2 else 4;
    TwiceFixed(op);
    LoadFinal(op.a);
    SkipTo(op, 0, 1);
    NextPass(1, [op]);
    OnePass(1, op);
    assert [load, use] == [load] + [use];
    PassesJoin(2, [load], [use]);
    FinalStays([load], 2);
    SkipTo(use, 2, k);
    LastFix(use, k);
  }

  /** All passes together replace each instruction by its expansion, in order. */
  lemma {:induction false} FixAllExpands(code: seq<AsmOp>)
    ensures FixAll(code) == ExpandAll(code)
    decreases |code|
  {
    if code == [] {
      FinalStays([], 0);
    } else {
      assert code == [code[0]] + code[1..];
      FixAllJoin([code[0]], code[1..]);
      ExpandsOne(code[0]);
      FixAllExpands(code[1..]);
    }
  }

  // ----------------------------------------------------------------- legality

  /** The operand combinations that x86-64 has, as far as the compiler uses them. */
  predicate Legal(op: AsmOp) {
    match op.opcode
    case Mov => !(InMemory(op.a) && InMemory(op.b)) && !(WideImmediate(op.a) && InMemory(op.b)) && !(op.a.kind.Immediate? && IsXmm(op.b))
    case Arith(MulOp) => !InMemory(op.b) && !WideImmediate(op.a)
    case Arith(_) => !(InMemory(op.a) && InMemory(op.b)) && !WideImmediate(op.a)
    case Cmp => !(InMemory(op.a) && InMemory(op.b)) && !WideImmediate(op.a) && !op.b.kind.Immediate?
    case Push => !WideImmediate(op.a)
    case Idiv => !op.a.kind.Immediate?
    case Div => !op.a.kind.Immediate?
    case ShiftLeftOp => op.a.kind.Immediate? || op.a.kind == Register(CX)
    case ShiftRightOp(_) => op.a.kind.Immediate? || op.a.kind == Register(CX)
    case MovSx => op.a.word.W64? || !(op.a.kind.Immediate? || InMemory(op.b))
    case MovZx => op.a.word.W64? || (op.a.word.W8? && !(op.a.kind.Immediate? || InMemory(op.b)))
    case CvtDoubleToInt => !InMemory(op.b)
    case CvtIntToDouble => !op.a.kind.Immediate? && !InMemory(op.b)
    case FpArith(_) => !InMemory(op.b)
    case FpCmp => !InMemory(op.b)
    case Lea => !InMemory(op.b)
    case _ => true
  }

  /** A 32-bit value is zero-extended into memory only: once pseudo registers have
      been given their slots, no register is left as its destination. */
  predicate ExtendsToMemory(op: AsmOp) {
    op.opcode.MovZx? && op.a.word.W32? ==> !op.b.kind.Register?
  }

  /** No repair moves such a constant to a register: the repairs look for constants
      that are too large only. */
  predicate StaysLow(op: AsmOp) {
    LowImmediate(op.a) && (op.opcode.Arith? || op.opcode.Cmp? || op.opcode.Push? || (op.opcode.Mov? && InMemory(op.b)))
  }

  lemma NoFixLegal(op: AsmOp)
    requires Final(op, 0)
    ensures Legal(op) <==> !StaysLow(op)
  {
    assert Fix(0, op).None? && Fix(1, op).None? && Fix(2, op).None? && Fix(3, op).None? && Fix(4, op).None? && Fix(5, op).None?;
    assert Fix(6, op).None? && Fix(7, op).None? && Fix(8, op).None? && Fix(9, op).None? && Fix(10, op).None? && Fix(11, op).None?;
  }

  /** What a fixer makes is legal, unless an earlier fixer should have been used. */
  lemma FixLegal(op: AsmOp, k: nat)
    requires ExtendsToMemory(op) && k < FIXERS && Fix(k, op).Some? && !NeedsTwo(op) && (forall i :: 0 <= i < k ==> Fix(i, op).None?)
    ensures (forall i :: 0 <= i < |Fix(k, op).value| ==> Legal(Fix(k, op).value[i])) <==> !StaysLow(op)
  {
    if k == 4 {
      assert Fix(1, op).None?;
    }
    if StaysLow(op) {
      assert k == 2 || k == 4;
      assert !Legal(Fix(k, op).value[1]);
    }
  }

  predicate AllLegal(code: seq<AsmOp>) {
    forall i :: 0 <= i < |code| ==> Legal(code[i])
  }

  lemma ExpansionLegal(op: AsmOp)
    requires ExtendsToMemory(op)
    ensures AllLegal(Expand(op)) <==> !StaysLow(op)
  {
    var k := FirstFix(op, 0);
    if !NeedsTwo(op) {
      hide Legal, Fix, StaysLow;
      if k < FIXERS {
        FixLegal(op, k);
      } else {
        NoFixLegal(op);
        assert Expand(op) == [op];
        assert AllLegal([op]) <==> Legal([op][0]);
      }
    }
  }

  /** After all fixers no instruction is left that x86-64 does not have, exactly when
      no constant below the range of 32 bits stands where only a register can hold it. */
  lemma {:induction false} FixAllLegal(code: seq<AsmOp>)
    requires forall o :: o in code ==> ExtendsToMemory(o)
    ensures AllLegal(FixAll(code)) <==> forall i :: 0 <= i < |code| ==> !StaysLow(code[i])
    decreases |code|
  {
    hide Legal, StaysLow, Expand, FixAll;
    FixAllExpands(code);
    if code != [] {
      ExpansionLegal(code[0]);
      FixAllLegal(code[1..]);
      FixAllExpands(code[1..]);
      LegalJoin(Expand(code[0]), ExpandAll(code[1..]));
      assert forall i :: 0 <= i < |code[1..]| ==> code[1..][i] == code[i + 1];
      assert forall i :: 1 <= i < |code| ==> code[i] == code[1..][i - 1];
    }
  }

  lemma LegalJoin(a: seq<AsmOp>, b: seq<AsmOp>)
    ensures AllLegal(a + b) <==> AllLegal(a) && AllLegal(b)
  {
    hide Legal;
    assert forall i :: 0 <= i < |a| ==> (a + b)[i] == a[i];
    assert forall i :: 0 <= i < |b| ==> (a + b)[|a| + i] == b[i];
  }

  // ------------------------------------------------------- sizes of replacements

  /** The code before the k-th pass. */
  function Before(k: nat, code: seq<AsmOp>): seq<AsmOp>
    decreases k
  {
    if k == 0 then code else Pass(k - 1, Before(k - 1, code))
  }

  lemma {:induction false} PassKeepsExtensions(k: nat, code: seq<AsmOp>)
    requires forall o :: o in code ==> ExtendsToMemory(o)
    ensures forall o :: o in Pass(k, code) ==> ExtendsToMemory(o)
    decreases |code|
  {
    if code != [] {
      PassKeepsExtensions(k, code[1..]);
      assert code[0] in code;
      var made := FixedOne(k, code[0]);
      assert forall i :: 0 <= i < |made| ==> ExtendsToMemory(made[i]);
    }
  }

  /** Every replacement has two or three instructions, as the splicing requires:
      the one-instruction form of the 32-bit zero extension never comes up. */
  lemma {:induction false} ReplacementSizes(k: nat, code: seq<AsmOp>)
    requires forall o :: o in code ==> ExtendsToMemory(o)
    ensures forall o :: o in Before(k, code) && Fix(k, o).Some? ==> 2 <= |Fix(k, o).value| <= 3
    ensures forall o :: o in Before(k, code) ==> ExtendsToMemory(o)
    decreases k
  {
    hide Fix;
    if k > 0 {
      ReplacementSizes(k - 1, code);
      PassKeepsExtensions(k - 1, Before(k - 1, code));
    }
    forall o | o in Before(k, code) && Fix(k, o).Some? ensures 2 <= |Fix(k, o).value| <= 3 {
      TwoOrThree(k, o);
    }
  }

  lemma TwoOrThree(k: nat, op: AsmOp)
    requires ExtendsToMemory(op) && Fix(k, op).Some?
    ensures 2 <= |Fix(k, op).value| <= 3
  {
  }

  lemma {:induction false} BeforeIsRest(k: nat, code: seq<AsmOp>)
    requires k <= FIXERS
    ensures PassesFrom(k, Before(k, code)) == FixAll(code)
    decreases k
  {
    if k > 0 {
      BeforeIsRest(k - 1, code);
    }
  }
}
