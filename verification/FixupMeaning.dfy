/** What the repairs keep: the machine state after the replacement of an
    instruction is that after the instruction itself, except for the scratch
    registers. */
module FixupMeaning {
  import opened Wrappers
  import opened Asm
  import opened MachineFacts
  import opened ModularArithmetic
  import opened Fixups

  function ExecAll(env: Env, code: seq<AsmOp>, m: Machine): Option<Machine>
    decreases |code|
  {
    if code == [] then Some(m) else
    var m' :- Exec(env, code[0], m);
    ExecAll(env, code[1..], m')
  }

  lemma ExecTwo(env: Env, p: AsmOp, q: AsmOp, m: Machine, m1: Machine, m2: Machine)
    requires Exec(env, p, m) == Some(m1) && Exec(env, q, m1) == Some(m2)
    ensures ExecAll(env, [p, q], m) == Some(m2)
  {
    hide Exec;
    assert [p, q][1..] == [q] && [q][1..] == [];
    assert ExecAll(env, [q], m1) == Some(m2);
  }

  lemma ExecThree(env: Env, p: AsmOp, q: AsmOp, r: AsmOp, m: Machine, m1: Machine, m2: Machine, m3: Machine)
    requires Exec(env, p, m) == Some(m1) && Exec(env, q, m1) == Some(m2) && Exec(env, r, m2) == Some(m3)
    ensures ExecAll(env, [p, q, r], m) == Some(m3)
  {
    hide Exec;
    ExecTwo(env, q, r, m1, m2, m3);
    assert [p, q, r][1..] == [q, r];
  }

  // ------------------------------------------------------------- conditions

  /** The registers that the repairs use for themselves. */
  const SCRATCH: set<Reg> := {R10, R11, Xmm(15)}

  /** Repairing a shift also overwrites cx, where the count has to be. */
  function Clobbers(op: AsmOp): set<Reg> {
    if FixShift(op).Some? then SCRATCH + {CX} else SCRATCH
  }

  /** Selected code does not mention the scratch registers. */
  ghost predicate Clean(op: AsmOp) {
    Uses(op.a.kind) + Uses(op.b.kind) !! SCRATCH && (FixShift(op).Some? ==> CX !in Uses(op.b.kind))
  }

  predicate NoNarrower(x: Operand, y: Operand) {
    y.word.Bytes() <= x.word.Bytes()
  }

  /** The word types with which a repair computes what the instruction does: the
      scratch register is as wide as the first operand, but the instruction as
      wide as the last one. */
  predicate WidthsFit(op: AsmOp) {
    && (op.opcode.Idiv? || op.opcode.Div? ==> op.b.kind.NoOperand?)
    && (FixS2s(op).Some? ==> NoNarrower(op.a, op.b))
    && (FixMul(op).Some? && !BigImmediate(op.a) ==> NoNarrower(op.a, op.b))
    && (FixCvtDoubleToInt(op).Some? ==> op.a.word == op.b.word)
    && (FixArithmeticOnDouble(op).Some? ==> op.b.word.W64?)
    && ExtendsToMemory(op)
  }

  const ALL: set<Cond> := {E, NE, G, GE, L, LE, A, AE, B, BE, P, NP}
  const UNSIGNED: set<Cond> := {E, NE, A, AE, B, BE}
  const EQUALITY: set<Cond> := {E, NE}

  /** Testing constants for equality at the width of the first operand gives the
      answer of the full width. */
  predicate SameEquality(op: AsmOp) {
    && op.a.kind.Immediate? && op.b.kind.Immediate? && NoNarrower(op.b, op.a)
    && ((op.a.kind.num % op.b.word.Mod() == op.b.kind.num % op.b.word.Mod())
        <==> (op.a.kind.num % op.a.word.Mod() == op.b.kind.num % op.a.word.Mod()))
  }

  /** The conditions that a repaired comparison decides as the original one. */
  function KeptConds(op: AsmOp): set<Cond> {
    if !op.opcode.Cmp? || !op.b.kind.Immediate? then ALL
    else if BigImmediate(op.a) then
      if op.b.word.W64? then ALL
      else if op.b.word.W32? && op.a.kind.num < W32.Mod() then UNSIGNED else {}
    else if op.a.word == op.b.word then ALL
    else if SameEquality(op) then EQUALITY
    else {}
  }

  ghost predicate FlagsAgree(f: Flags, g: Flags, conds: set<Cond>) {
    forall c :: c in conds ==> Holds(c, f) == Holds(c, g)
  }

  // --------------------------------------------------- running alike in two states

  /** Two operations that read the same value and have the same effect otherwise. */
  ghost predicate Alike(p: AsmOp, q: AsmOp) {
    && p.opcode == q.opcode && p.b.kind == q.b.kind && SourceWidth(p) == SourceWidth(q)
    && (p.opcode.Push? || p.Width() == q.Width())
    && (p.opcode.MovSx? || p.opcode.CvtIntToDouble? ==> p.a.word == q.a.word)
  }

  /** Instructions that leave the outcome of the last comparison alone. */
  predicate KeepsFlags(o: Opcode) {
    Moves(o) || o.FpArith? || o.Push? || o.Not? || o.SetIf? || o.Cdq? || o.Cqo? || o.LabelOp? || o.Jmp? || o.JmpIf?
  }

  ghost predicate FlagsFollow(o: Opcode, s: Machine, t: Machine, s': Machine, t': Machine) {
    if KeepsFlags(o) then s'.flags == s.flags && t'.flags == t.flags else s'.flags == t'.flags
  }

  lemma ApplyAlike(env: Env, p: AsmOp, q: AsmOp, v: nat, s: Machine, t: Machine, junk: set<Reg>, s': Machine) returns (t': Machine)
    requires Alike(p, q) && SameBut(s, t, junk) && Uses(p.b.kind) !! junk && {AX, DX, RSP} !! junk
    requires Apply(env, p, v, s) == Some(s')
    ensures Apply(env, q, v, t) == Some(t') && SameBut(s', t', junk) && FlagsFollow(p.opcode, s, t, s', t')
  {
    hide ReadOp, WriteOp, Converted, Combined;
    var w := p.Width();
    if Moves(p.opcode) {
      SameConverted(env, p, q, v);
      WriteFrame(env, p.b.kind, w, Converted(env, p, v), Converted(env, q, v), s, t, junk);
    } else if Combines(p.opcode) {
      ReadFrame(env, p.b.kind, w, s, t, junk);
      var x := ReadOp(env, p.b.kind, w, s).value;
      var y := Combined(env, p.opcode, w, x, v);
      WriteFrame(env, p.b.kind, w, y, y, if p.opcode.FpArith? then s else NoFlags(s), if p.opcode.FpArith? then t else NoFlags(t), junk);
    } else if p.opcode.Push? {
      PushFrame(env, v, s, t, junk);
    } else if p.opcode.Idiv? || p.opcode.Div? {
      DivideFrame(p, q, v, s, t, junk);
    } else {
      ReadFrame(env, p.b.kind, w, s, t, junk);
      ReadFrame(env, p.b.kind, W64, s, t, junk);
    }
    t' := Apply(env, q, v, t).value;
  }

  lemma SameConverted(env: Env, p: AsmOp, q: AsmOp, v: nat)
    requires Alike(p, q)
    ensures Converted(env, p, v) == Converted(env, q, v)
  {
  }

  lemma PushFrame(env: Env, v: nat, s: Machine, t: Machine, junk: set<Reg>)
    requires SameBut(s, t, junk) && RSP !in junk
    ensures PushValue(env, v, s).Some? && PushValue(env, v, t).Some?
    ensures SameBut(PushValue(env, v, s).value, PushValue(env, v, t).value, junk)
    ensures PushValue(env, v, s).value.flags == s.flags && PushValue(env, v, t).value.flags == t.flags
  {
    hide LoadBytes, StoreBytes;
    var n := (Reg64(s, RSP) - 8) % W64.Mod();
    WriteFrame(env, Memory(0, RSP), W64, v, v, WriteReg(s, RSP, W64, n), WriteReg(t, RSP, W64, n), junk);
  }

  lemma DivideFrame(p: AsmOp, q: AsmOp, v: nat, s: Machine, t: Machine, junk: set<Reg>)
    requires p.opcode == q.opcode && p.Width() == q.Width() && SameBut(s, t, junk) && {AX, DX} !! junk
    ensures DivideBy(p, v, s).Some? <==> DivideBy(q, v, t).Some?
    ensures DivideBy(p, v, s).Some? ==>
              SameBut(DivideBy(p, v, s).value, DivideBy(q, v, t).value, junk)
              && DivideBy(p, v, s).value.flags == DivideBy(q, v, t).value.flags
  {
    hide Divided;
    assert Reg64(s, AX) == Reg64(t, AX) && Reg64(s, DX) == Reg64(t, DX);
  }

  // ------------------------------------------------- the three ways of repairing

  /** Instructions that read a first operand and then apply it. */
  predicate ReadsFirst(o: Opcode) {
    Moves(o) || Combines(o) || o.Cmp? || o.FpCmp? || o.Idiv? || o.Div? || o.Push?
  }

  lemma ExecIsApply(env: Env, op: AsmOp, m: Machine)
    requires ReadsFirst(op.opcode)
    ensures Exec(env, op, m) == if Source(env, op, m).None? then None else Apply(env, op, Source(env, op, m).value, m)
  {
    hide Apply, Source;
  }

  lemma ReadsAtAnyWidth(env: Env, k: Kind, w: Word, v: Word, m: Machine)
    ensures ReadOp(env, k, w, m).Some? <==> ReadOp(env, k, v, m).Some?
  {
  }

  function Load(a: Operand, r: Reg, u: Word): AsmOp {
    AsmOp(Mov, a, Operand(Register(r), u))
  }

  /** The state after an operand has been copied to a register. */
  lemma LoadEffect(env: Env, a: Operand, r: Reg, u: Word, m: Machine) returns (x: nat, m1: Machine)
    requires ReadOp(env, a.kind, u, m).Some?
    ensures ReadOp(env, a.kind, u, m) == Some(x) && Exec(env, Load(a, r, u), m) == Some(m1) && m1 == WriteReg(m, r, u, x)
    ensures SameBut(m, m1, {r}) && m1.flags == m.flags
    ensures forall w: Word :: w.Bytes() <= u.Bytes() ==> ReadOp(env, Register(r), w, m1) == ReadOp(env, a.kind, w, m)
  {
    x := ReadOp(env, a.kind, u, m).value;
    m1 := WriteReg(m, r, u, x);
    ExecIsApply(env, Load(a, r, u), m);
    WriteRegFrame(m, r, u, x);
    forall w: Word | w.Bytes() <= u.Bytes() ensures ReadOp(env, Register(r), w, m1) == ReadOp(env, a.kind, w, m) {
      WrittenReg(m, r, u, x, w);
      NarrowRead(env, a.kind, u, w, m);
    }
  }

  /** First way: the first operand goes through a scratch register. */
  lemma ThroughScratch(env: Env, op: AsmOp, op': AsmOp, r: Reg, u: Word, m: Machine, m': Machine)
    returns (m1: Machine, m2: Machine)
    requires ReadsFirst(op.opcode) && !op.opcode.Lea? && Alike(op, op') && op'.a.kind == Register(r)
    requires SourceWidth(op).Bytes() <= u.Bytes() && r !in Uses(op.b.kind) && r !in {AX, DX, RSP}
    requires Exec(env, op, m) == Some(m')
    ensures Exec(env, Load(op.a, r, u), m) == Some(m1) && Exec(env, op', m1) == Some(m2)
    ensures SameBut(m', m2, {r}) && m'.flags == m2.flags && SameBut(m, m1, {r})
  {
    hide Exec, Apply, WriteReg, ReadOp, SourceWidth;
    ExecIsApply(env, op, m);
    ExecIsApply(env, op', m);
    ReadsAtAnyWidth(env, op.a.kind, SourceWidth(op), u, m);
    var x;
    x, m1 := LoadEffect(env, op.a, r, u, m);
    ExecIsApply(env, op', m1);
    m2 := ApplyAlike(env, op, op', Source(env, op, m).value, m, m1, {r}, m');
  }

  /** Second way: the result goes through a scratch register. */
  lemma ThroughResult(env: Env, op: AsmOp, r: Reg, u: Word, m: Machine, m': Machine) returns (m1: Machine, m2: Machine)
    requires Moves(op.opcode) && !op.opcode.Mov? && !op.b.kind.NoOperand? && op.b.word.Bytes() <= u.Bytes() && r !in Uses(op.b.kind)
    requires op.opcode.CvtDoubleToInt? || op.opcode.MovSx? ==> u == op.b.word
    requires Exec(env, op, m) == Some(m')
    ensures Exec(env, AsmOp(op.opcode, op.a, Operand(Register(r), u)), m) == Some(m1)
    ensures Exec(env, AsmOp(Mov, Operand(Register(r), op.b.word), op.b), m1) == Some(m2)
    ensures SameBut(m', m2, {r}) && m'.flags == m2.flags
  {
    var p, q := AsmOp(op.opcode, op.a, Operand(Register(r), u)), AsmOp(Mov, Operand(Register(r), op.b.word), op.b);
    ExecIsApply(env, op, m);
    ExecIsApply(env, p, m);
    var v := Source(env, op, m).value;
    var c := Converted(env, op, v);
    assert Converted(env, p, v) == c && Source(env, p, m) == Some(v);
    m1 := WriteReg(m, r, u, c);
    assert Exec(env, p, m) == Some(m1);
    WriteRegFrame(m, r, u, c);
    WrittenReg(m, r, u, c, op.b.word);
    ExecIsApply(env, q, m1);
    var y := Reg64(m1, r) % op.b.word.Mod();
    assert Source(env, q, m1) == Some(y) && y % op.b.word.Mod() == c % op.b.word.Mod() by {
      ModMod(Reg64(m1, r), op.b.word, op.b.word);
    }
    hide Exec, ReadOp, WriteReg, WriteOp, Converted;
    WriteFrame(env, op.b.kind, op.b.word, c, y, m, m1, {r});
    m2 := Exec(env, q, m1).value;
  }

  // ------------------------------------------------------- one repair at a time

  /** The state after the repaired code is that after the instruction, except for
      scratch registers and for conditions that are not kept. */
  ghost predicate Keeps(env: Env, op: AsmOp, code: seq<AsmOp>, m: Machine, m': Machine) {
    var r := ExecAll(env, code, m);
    r.Some? && SameBut(m', r.value, Clobbers(op)) && FlagsAgree(m'.flags, r.value.flags, KeptConds(op))
  }

  lemma KeptTwo(env: Env, op: AsmOp, p: AsmOp, q: AsmOp, m: Machine, m1: Machine, m2: Machine, m': Machine, r: Reg)
    requires Exec(env, p, m) == Some(m1) && Exec(env, q, m1) == Some(m2) && SameBut(m', m2, {r}) && m'.flags == m2.flags
    requires r in Clobbers(op)
    ensures Keeps(env, op, [p, q], m, m')
  {
    hide Exec, ExecAll;
    ExecTwo(env, p, q, m, m1, m2);
    SameButGrows(m', m2, {r}, Clobbers(op));
  }

  lemma FirstOperandRepaired(env: Env, op: AsmOp, k: nat, m: Machine, m': Machine)
    requires (k == 0 || k == 1 || k == 3 || k == 5) && Fix(k, op).Some? && Clean(op) && WidthsFit(op) && !NeedsTwo(op)
    requires Exec(env, op, m) == Some(m')
    ensures Keeps(env, op, Fix(k, op).value, m, m')
  {
    hide Exec, Apply, Source, Fix, Alike, SameBut, SourceWidth;
    FixedKinds(op, k);
    if !op.opcode.Push? && !op.opcode.Idiv? && !op.opcode.Div? {
      HasSecond(env, op, m);
    }
    FirstShape(op, k);
    var made := Fix(k, op).value;
    var p, q := made[0], made[1];
    var r := q.a.kind.reg;
    var m1, m2 := ThroughScratch(env, op, q, r, p.b.word, m, m');
    KeptTwo(env, op, p, q, m, m1, m2, m', r);
  }

  /** What moves, combines or compares has a second operand. */
  lemma HasSecond(env: Env, op: AsmOp, m: Machine)
    requires Exec(env, op, m).Some? && (Moves(op.opcode) || Combines(op.opcode) || op.opcode.Cmp? || op.opcode.FpCmp?)
    ensures !op.b.kind.NoOperand?
  {
    hide LoadBytes, StoreBytes, Reg64, Combined, Converted;
  }

  lemma FixedKinds(op: AsmOp, k: nat)
    requires (k == 0 || k == 1 || k == 3 || k == 5) && Fix(k, op).Some?
    ensures Moves(op.opcode) || Combines(op.opcode) || op.opcode.Cmp? || op.opcode.Push? || op.opcode.Idiv? || op.opcode.Div?
  {
  }

  lemma FirstShape(op: AsmOp, k: nat)
    requires (k == 0 || k == 1 || k == 3 || k == 5) && Fix(k, op).Some? && Clean(op) && WidthsFit(op) && !NeedsTwo(op)
    requires op.b.kind.NoOperand? ==> op.opcode.Push? || op.opcode.Idiv? || op.opcode.Div?
    ensures |Fix(k, op).value| == 2
    ensures var p, q := Fix(k, op).value[0], Fix(k, op).value[1];
            && q.a.kind.Register? && Fix(k, op).value == [p, q] && p == Load(op.a, q.a.kind.reg, p.b.word)
            && Alike(op, q) && SourceWidth(op).Bytes() <= p.b.word.Bytes()
            && ReadsFirst(op.opcode) && !op.opcode.Lea? && q.a.kind.reg !in Uses(op.b.kind) && q.a.kind.reg !in {AX, DX, RSP}
            && q.a.kind.reg in Clobbers(op)
  {
  }

  lemma ResultRepaired(env: Env, op: AsmOp, k: nat, m: Machine, m': Machine)
    requires (k == 8 || k == 11) && Fix(k, op).Some? && Clean(op) && WidthsFit(op)
    requires Exec(env, op, m) == Some(m')
    ensures Keeps(env, op, Fix(k, op).value, m, m')
  {
    var r, u := if k == 8 then R11 else R10, if k == 8 then op.a.word else op.b.word;
    hide Exec, Apply, Source;
    var m1, m2 := ThroughResult(env, op, r, u, m, m');
    KeptTwo(env, op, Fix(k, op).value[0], Fix(k, op).value[1], m, m1, m2, m', r);
  }

  /** Both operands go through scratch registers. */
  lemma BothRepaired(env: Env, op: AsmOp, k: nat, m: Machine, m': Machine)
    requires (k == 6 || k == 9) && Fix(k, op).Some? && Clean(op) && WidthsFit(op) && !op.b.kind.NoOperand?
    requires Exec(env, op, m) == Some(m')
    ensures Keeps(env, op, Fix(k, op).value, m, m')
  {
    hide Exec, Apply, Source, ExecAll, Fix, Alike, SameBut, WidthsFit, SourceWidth;
    BothShape(op, k);
    var made := Fix(k, op).value;
    var mid := AsmOp(op.opcode, InR10(op.a.word), op.b);
    var r, u := if k == 6 then R11 else Xmm(15), if k == 6 then op.b.word else W64;
    var m1, m2 := ThroughScratch(env, op, mid, R10, op.a.word, m, m');
    var m3, m4 := ThroughResult(env, mid, r, u, m1, m2);
    MoveWidth(env, r, u, op.b, m3);
    ExecThree(env, made[0], made[1], made[2], m, m1, m3, m4);
    SameButGrows(m', m2, {R10}, SCRATCH);
    SameButGrows(m2, m4, {r}, SCRATCH);
    SameButTrans(m', m2, m4, SCRATCH);
  }

  /** The width of a move is that of its destination. */
  lemma MoveWidth(env: Env, r: Reg, u: Word, b: Operand, m: Machine)
    requires !b.kind.NoOperand?
    ensures Exec(env, AsmOp(Mov, Operand(Register(r), u), b), m) == Exec(env, AsmOp(Mov, Operand(Register(r), b.word), b), m)
  {
    hide Reg64, WriteOp;
  }

  lemma BothShape(op: AsmOp, k: nat)
    requires (k == 6 || k == 9) && Fix(k, op).Some? && WidthsFit(op) && !op.b.kind.NoOperand?
    ensures var mid := AsmOp(op.opcode, InR10(op.a.word), op.b);
            var r, u := if k == 6 then R11 else Xmm(15), if k == 6 then op.b.word else W64;
            && Fix(k, op).value == [Load(op.a, R10, op.a.word), AsmOp(op.opcode, InR10(op.a.word), Operand(Register(r), u)),
                                    AsmOp(Mov, Operand(Register(r), u), op.b)]
            && Alike(op, mid) && SourceWidth(op) == op.a.word && (if k == 6 then op.opcode.MovSx? || op.opcode.MovZx? else op.opcode.CvtIntToDouble?)
            && op.b.word.Bytes() <= u.Bytes()
  {
  }

  lemma ZeroExtensionRepaired(env: Env, op: AsmOp, m: Machine, m': Machine)
    requires FixMovzx32bit(op).Some? && Clean(op) && WidthsFit(op) && !op.b.kind.NoOperand?
    requires Exec(env, op, m) == Some(m')
    ensures Keeps(env, op, FixMovzx32bit(op).value, m, m')
  {
    hide Apply, WriteReg, WriteOp, ReadOp, Reg64, Exec;
    var p, q := Load(op.a, R11, W32), AsmOp(Mov, InR11(op.b.word), op.b);
    ExecIsApply(env, op, m);
    var x, m1 := LoadEffect(env, op.a, R11, W32, m);
    ReadBound(env, op.a.kind, W32, m);
    RegisterValue(env, m, x, op.b.word);
    ExecIsApply(env, q, m1);
    var y := x % op.b.word.Mod();
    assert Source(env, op, m) == Some(x) && Source(env, q, m1) == Some(y);
    PlainMove(env, op, x, m);
    PlainMove(env, q, y, m1);
    ModMod(x, op.b.word, op.b.word);
    WriteFrame(env, op.b.kind, op.b.word, x, y, m, m1, {R11});
    KeptTwo(env, op, p, q, m, m1, Exec(env, q, m1).value, m', R11);
  }

  lemma PlainMove(env: Env, op: AsmOp, v: nat, m: Machine)
    requires (op.opcode.Mov? || op.opcode.MovZx?) && !op.b.kind.NoOperand?
    ensures Apply(env, op, v, m) == WriteOp(env, op.b.kind, op.b.word, v, m)
  {
  }

  /** A register that has been written with 32 bits holds just these. */
  lemma RegisterValue(env: Env, m: Machine, x: nat, w: Word)
    requires x < W32.Mod()
    ensures ReadOp(env, Register(R11), w, WriteReg(m, R11, W32, x)) == Some(x % w.Mod())
  {
    WrittenWide(m, R11, W32, x);
  }

  // -------------------------------------------- repairs of the second operand

  lemma CompareEffect(env: Env, op: AsmOp, x: nat, y: nat, m: Machine)
    requires op.opcode.Cmp?
    requires ReadOp(env, op.b.kind, op.Width(), m) == Some(x) && ReadOp(env, op.a.kind, op.Width(), m) == Some(y)
    ensures Exec(env, op, m) == Some(m.(flags := CompareFlags(op.Width(), x, y)))
  {
  }

  lemma CompareRepaired(env: Env, op: AsmOp, m: Machine, m': Machine)
    requires FixCmp(op).Some? && Clean(op) && !BigImmediate(op.a) && Exec(env, op, m) == Some(m') && !op.a.kind.NoOperand?
    ensures Keeps(env, op, FixCmp(op).value, m, m')
  {
    var p, q := Load(op.b, R11, op.b.word), AsmOp(Cmp, op.a, InR11(op.a.word));
    var y := ReadOp(env, op.a.kind, op.b.word, m).value;
    var x, m1 := LoadEffect(env, op.b, R11, op.b.word, m);
    CompareEffect(env, op, x, y, m);
    ReadFrame(env, op.a.kind, op.a.word, m, m1, {R11});
    ReadsAtAnyWidth(env, op.a.kind, op.b.word, op.a.word, m);
    var y' := ReadOp(env, op.a.kind, op.a.word, m).value;
    var x' := ReadOp(env, Register(R11), op.a.word, m1).value;
    CompareEffect(env, q, x', y', m1);
    var m2 := m1.(flags := CompareFlags(op.a.word, x', y'));
    assert m' == m.(flags := CompareFlags(op.b.word, x, y));
    hide Exec, ReadOp, WriteReg, CompareFlags;
    ExecTwo(env, p, q, m, m1, m2);
    SameButGrows(m', m2, {R11}, Clobbers(op));
    ComparedAlike(env, op, m, m1, x, y, x', y');
  }

  lemma ComparedAlike(env: Env, op: AsmOp, m: Machine, m1: Machine, x: nat, y: nat, x': nat, y': nat)
    requires FixCmp(op).Some? && !BigImmediate(op.a)
    requires ReadOp(env, op.b.kind, op.b.word, m) == Some(x) && ReadOp(env, op.a.kind, op.b.word, m) == Some(y)
    requires ReadOp(env, op.a.kind, op.a.word, m) == Some(y') && ReadOp(env, Register(R11), op.a.word, m1) == Some(x')
    requires NoNarrower(op.b, op.a) ==> ReadOp(env, Register(R11), op.a.word, m1) == ReadOp(env, op.b.kind, op.a.word, m)
    ensures FlagsAgree(CompareFlags(op.b.word, x, y), CompareFlags(op.a.word, x', y'), KeptConds(op))
  {
  }

  lemma MulLow(w: Word, v: Word, x: nat, y: nat)
    requires v.Bytes() <= w.Bytes()
    ensures ArithValue(MulOp, w, x, y) % v.Mod() == ArithValue(MulOp, v, x % v.Mod(), y % v.Mod())
  {
    ModMod(x * y, w, v);
    ProductMod(x, y, v.Mod());
  }

  lemma ProductMod(x: nat, y: nat, d: nat)
    requires d > 0
    ensures (x * y) % d == ((x % d) * (y % d)) % d
  {
    FactorMod(x, y, d);
    FactorMod(y, x % d, d);
    Swapped(y, x % d);
    Swapped(y % d, x % d);
  }

  lemma FactorMod(x: nat, y: nat, d: nat)
    requires d > 0
    ensures (x * y) % d == ((x % d) * y) % d
  {
    var q, r := x / d, x % d;
    assert x == q * d + r;
    Spread(q * d, r, y);
    assert q * d * y == q * y * d;
    ModUnique(x * y, r * y, d, q * y);
  }

  lemma Spread(a: int, b: int, y: int)
    ensures (a + b) * y == a * y + b * y
  {
  }

  lemma Swapped(a: int, b: int)
    ensures a * b == b * a
  {
  }

  lemma CombineEffect(env: Env, op: AsmOp, x: nat, v: nat, m: Machine)
    requires op.opcode.Arith? && !op.b.kind.NoOperand?
    requires ReadOp(env, op.b.kind, op.b.word, m) == Some(x) && ReadOp(env, op.a.kind, op.b.word, m) == Some(v)
    ensures Exec(env, op, m) == WriteOp(env, op.b.kind, op.b.word, ArithValue(op.opcode.arith, op.b.word, x, v), NoFlags(m))
  {
  }

  lemma MoveEffect(env: Env, op: AsmOp, v: nat, m: Machine)
    requires op.opcode.Mov? && !op.b.kind.NoOperand? && ReadOp(env, op.a.kind, op.b.word, m) == Some(v)
    ensures Exec(env, op, m) == WriteOp(env, op.b.kind, op.b.word, v, m)
  {
  }

  lemma MulRepaired(env: Env, op: AsmOp, m: Machine, m': Machine)
    requires FixMul(op).Some? && R11 !in Uses(op.a.kind) + Uses(op.b.kind) && NoNarrower(op.a, op.b) && Exec(env, op, m) == Some(m')
    ensures Keeps(env, op, FixMul(op).value, m, m')
  {
    var w, u := op.b.word, op.a.word;
    var p, q, r := Load(op.b, R11, w), AsmOp(op.opcode, op.a, InR11(u)), AsmOp(Mov, InR11(w), op.b);
    var v := ReadOp(env, op.a.kind, w, m).value;
    var x, m1 := LoadEffect(env, op.b, R11, w, m);
    CombineEffect(env, op, x, v, m);
    ReadFrame(env, op.a.kind, u, m, m1, {R11});
    ReadsAtAnyWidth(env, op.a.kind, w, u, m);
    NarrowRead(env, op.a.kind, u, w, m);
    var v', x' := ReadOp(env, op.a.kind, u, m).value, ReadOp(env, Register(R11), u, m1).value;
    NarrowRead(env, Register(R11), u, w, m1);
    CombineEffect(env, q, x', v', m1);
    MulLow(u, w, x', v');
    var c := ArithValue(MulOp, u, x', v');
    var m2 := WriteReg(NoFlags(m1), R11, u, c);
    assert Exec(env, q, m1) == Some(m2);
    WriteRegFrame(NoFlags(m1), R11, u, c);
    WrittenReg(NoFlags(m1), R11, u, c, w);
    var y := Reg64(m2, R11) % w.Mod();
    assert ReadOp(env, Register(R11), w, m2) == Some(y);
    ModMod(Reg64(m2, R11), w, w);
    ModMod(c, w, w);
    hide Exec, ReadOp, WriteReg, WriteOp, ArithValue;
    MoveEffect(env, r, y, m2);
    WriteFrame(env, op.b.kind, w, ArithValue(MulOp, w, x, v), y, NoFlags(m), m2, {R11});
    var m3 := Exec(env, r, m2).value;
    ExecThree(env, p, q, r, m, m1, m2, m3);
    SameButGrows(m', m3, {R11}, Clobbers(op));
  }

  lemma DoubleRepaired(env: Env, op: AsmOp, m: Machine, m': Machine)
    requires FixArithmeticOnDouble(op).Some? && Clean(op) && WidthsFit(op) && Exec(env, op, m) == Some(m')
    ensures Keeps(env, op, FixArithmeticOnDouble(op).value, m, m')
  {
    var p, q, r := Load(op.b, Xmm(15), W64), AsmOp(op.opcode, op.a, XMM15), AsmOp(Mov, XMM15, op.b);
    var v := ReadOp(env, op.a.kind, W64, m).value;
    var x, m1 := LoadEffect(env, op.b, Xmm(15), W64, m);
    ReadFrame(env, op.a.kind, W64, m, m1, {Xmm(15)});
    ExecIsApply(env, op, m);
    ExecIsApply(env, q, m1);
    if op.opcode.FpCmp? {
      var m2 := m1.(flags := FpCompared(env.fpu.order(x, v)));
      assert Exec(env, q, m1) == Some(m2) && m' == m.(flags := m2.flags);
      assert FixArithmeticOnDouble(op).value == [p, q];
      hide Exec, ReadOp, WriteReg;
      KeptTwo(env, op, p, q, m, m1, m2, m', Xmm(15));
    } else {
      var c := env.fpu.binary(op.opcode.fp, x, v);
      var m2 := WriteReg(m1, Xmm(15), W64, c);
      assert Exec(env, q, m1) == Some(m2) && WriteOp(env, op.b.kind, W64, c, m) == Some(m');
      WriteRegFrame(m1, Xmm(15), W64, c);
      WrittenReg(m1, Xmm(15), W64, c, W64);
      var y := Reg64(m2, Xmm(15)) % W64.Mod();
      ModMod(Reg64(m2, Xmm(15)), W64, W64);
      assert ReadOp(env, Register(Xmm(15)), W64, m2) == Some(y);
      hide Exec, ReadOp, WriteReg, WriteOp;
      MoveEffect(env, r, y, m2);
      WriteFrame(env, op.b.kind, W64, c, y, m, m2, {Xmm(15)});
      var m3 := Exec(env, r, m2).value;
      assert FixArithmeticOnDouble(op).value == [p, q, r];
      ExecThree(env, p, q, r, m, m1, m2, m3);
      SameButGrows(m', m3, {Xmm(15)}, Clobbers(op));
    }
  }

  // ------------------------------------------------------ two repairs at a time

  /** A large constant as first operand goes through r10 before anything else. */
  lemma LargeFirst(env: Env, op: AsmOp, m: Machine, m': Machine) returns (m1: Machine, m2: Machine)
    requires NeedsTwo(op) && Clean(op) && Exec(env, op, m) == Some(m')
    ensures Exec(env, Load(op.a, R10, W64), m) == Some(m1) && Exec(env, op.(a := InR10(W64)), m1) == Some(m2)
    ensures SameBut(m', m2, {R10}) && m'.flags == m2.flags && SameBut(m, m1, {R10})
    ensures ReadOp(env, Register(R10), W64, m1) == Some(op.a.kind.num % W64.Mod())
  {
    m1, m2 := ThroughScratch(env, op, op.(a := InR10(W64)), R10, W64, m, m');
    var x, n := LoadEffect(env, op.a, R10, W64, m);
  }

  lemma LargeProductRepaired(env: Env, op: AsmOp, m: Machine, m': Machine)
    requires NeedsTwo(op) && !op.opcode.Cmp? && Clean(op) && Exec(env, op, m) == Some(m')
    ensures Keeps(env, op, Expand(op), m, m')
  {
    var m1, m2 := LargeFirst(env, op, m, m');
    var op' := op.(a := InR10(W64));
    var code := FixMul(op').value;
    hide Exec, ReadOp;
    MulKept(env, op', m1, m2);
    var m3 := ExecAll(env, code, m1).value;
    assert Expand(op) == [Load(op.a, R10, W64)] + code && Expand(op)[1..] == code;
    assert ExecAll(env, Expand(op), m) == Some(m3);
    SameButGrows(m', m2, {R10}, SCRATCH);
    SameButTrans(m', m2, m3, SCRATCH);
  }

  /** The repaired product only needs r11 for itself. */
  lemma MulKept(env: Env, op: AsmOp, m: Machine, m': Machine)
    requires FixMul(op).Some? && R11 !in Uses(op.a.kind) + Uses(op.b.kind) && NoNarrower(op.a, op.b) && Exec(env, op, m) == Some(m')
    ensures ExecAll(env, FixMul(op).value, m).Some? && SameBut(m', ExecAll(env, FixMul(op).value, m).value, SCRATCH)
    ensures FlagsAgree(m'.flags, ExecAll(env, FixMul(op).value, m).value.flags, ALL)
  {
    MulRepaired(env, op, m, m');
  }

  lemma LargeComparisonRepaired(env: Env, op: AsmOp, m: Machine, m': Machine)
    requires NeedsTwo(op) && op.opcode.Cmp? && Clean(op) && Exec(env, op, m) == Some(m')
    ensures Keeps(env, op, Expand(op), m, m')
  {
    hide Exec, ExecAll, SameBut, CompareFlags, FlagsAgree, KeptConds, Word.Mod;
    var w := op.b.word;
    var a, n := op.a.kind.num, op.b.kind.num;
    CompareEffect(env, op, n % w.Mod(), a % w.Mod(), m);
    var d, m3 := ConstantsCompared(env, op.a, op.b, m);
    SameButFlags(m, m', m3, SCRATCH);
    LargeComparedAlike(op, d);
  }

  lemma SameButFlags(m: Machine, m': Machine, t: Machine, junk: set<Reg>)
    requires SameBut(m, t, junk) && m' == m.(flags := m'.flags)
    ensures SameBut(m', t, junk)
  {
    hide Reg64;
    assert forall r :: Reg64(m', r) == Reg64(m, r) by {
      AlikeRegisters(m, m');
    }
  }

  lemma AlikeRegisters(m: Machine, m': Machine)
    requires m'.regs == m.regs
    ensures forall r :: Reg64(m', r) == Reg64(m, r)
  {
  }

  /** Two constants are compared in scratch registers. */
  lemma ConstantsCompared(env: Env, a: Operand, b: Operand, m: Machine) returns (d: nat, m3: Machine)
    requires a.kind.Immediate? && b.kind.Immediate?
    ensures ExecAll(env, [Load(a, R10, W64), Load(b, R11, b.word), AsmOp(Cmp, InR10(W64), InR11(W64))], m) == Some(m3)
    ensures SameBut(m, m3, SCRATCH) && m3.flags == CompareFlags(W64, d, a.kind.num % W64.Mod())
    ensures !b.word.W8? ==> d == b.kind.num % b.word.Mod()
  {
    hide Exec, ExecAll, SameBut, CompareFlags, ReadOp, Reg64, Word.Mod;
    var p, q, r := Load(a, R10, W64), Load(b, R11, b.word), AsmOp(Cmp, InR10(W64), InR11(W64));
    var m1, m2 := ConstantsLoaded(env, a, b, m);
    d := Reg64(m2, R11);
    RegisterRead(env, R11, m2);
    CompareEffect(env, r, d, a.kind.num % W64.Mod(), m2);
    m3 := m2.(flags := CompareFlags(W64, d, a.kind.num % W64.Mod()));
    ExecThree(env, p, q, r, m, m1, m2, m3);
    FlagsApart(m, m2, m3, SCRATCH);
  }

  lemma ConstantsLoaded(env: Env, a: Operand, b: Operand, m: Machine) returns (m1: Machine, m2: Machine)
    requires a.kind.Immediate? && b.kind.Immediate?
    ensures Exec(env, Load(a, R10, W64), m) == Some(m1) && Exec(env, Load(b, R11, b.word), m1) == Some(m2)
    ensures ReadOp(env, Register(R10), W64, m2) == Some(a.kind.num % W64.Mod()) && SameBut(m, m2, SCRATCH)
    ensures !b.word.W8? ==> Reg64(m2, R11) == b.kind.num % b.word.Mod()
  {
    hide Exec, SameBut, WriteReg, ReadOp, Reg64, Word.Mod;
    m1 := ConstantLoaded(env, a, R10, W64, m);
    m2 := ConstantLoaded(env, b, R11, b.word, m1);
    ReadFrame(env, Register(R10), W64, m1, m2, {R11});
    SameButGrows(m, m1, {R10}, SCRATCH);
    SameButGrows(m1, m2, {R11}, SCRATCH);
    SameButTrans(m, m1, m2, SCRATCH);
  }

  lemma ConstantLoaded(env: Env, a: Operand, r: Reg, w: Word, m: Machine) returns (m': Machine)
    requires a.kind.Immediate?
    ensures Exec(env, Load(a, r, w), m) == Some(m') && SameBut(m, m', {r})
    ensures ReadOp(env, Register(r), w, m') == Some(a.kind.num % w.Mod())
    ensures !w.W8? ==> Reg64(m', r) == a.kind.num % w.Mod()
  {
    hide Exec, SameBut, WriteReg, Reg64, Word.Mod;
    ConstantRead(env, a, w, m);
    var x;
    x, m' := LoadEffect(env, a, r, w, m);
    if !w.W8? {
      WrittenWide(m, r, w, x);
      ModMod(a.kind.num % w.Mod(), w, w);
    }
  }

  lemma ConstantRead(env: Env, a: Operand, w: Word, m: Machine)
    requires a.kind.Immediate?
    ensures ReadOp(env, a.kind, w, m) == Some(a.kind.num % w.Mod())
  {
  }

  lemma RegisterRead(env: Env, r: Reg, m: Machine)
    ensures ReadOp(env, Register(r), W64, m) == Some(Reg64(m, r))
  {
    SmallMod(Reg64(m, r), W64.Mod());
  }

  lemma FlagsApart(m: Machine, m2: Machine, m3: Machine, junk: set<Reg>)
    requires SameBut(m, m2, junk) && m3 == m2.(flags := m3.flags)
    ensures SameBut(m, m3, junk)
  {
    hide Reg64;
    AlikeRegisters(m2, m3);
  }

  lemma LargeComparedAlike(op: AsmOp, d: nat)
    requires NeedsTwo(op) && op.opcode.Cmp?
    requires !op.b.word.W8? ==> d == op.b.kind.num % op.b.word.Mod()
    ensures var w, a, n := op.b.word, op.a.kind.num, op.b.kind.num;
            FlagsAgree(CompareFlags(w, n % w.Mod(), a % w.Mod()), CompareFlags(W64, d, a % W64.Mod()), KeptConds(op))
  {
  }

  // --------------------------------------------------------------- all repairs

  /** Whatever the instruction: if it can be run at all, its repaired form can, with
      the same effect but for scratch registers and conditions that are not kept. */
  lemma ExpandKeeps(env: Env, op: AsmOp, m: Machine, m': Machine)
    requires Clean(op) && WidthsFit(op) && Exec(env, op, m) == Some(m')
    requires op.opcode.Cmp? || Moves(op.opcode) ==> !op.a.kind.NoOperand? && !op.b.kind.NoOperand?
    ensures Keeps(env, op, Expand(op), m, m')
  {
    var k := FirstFix(op, 0);
    if NeedsTwo(op) {
      if op.opcode.Cmp? {
        LargeComparisonRepaired(env, op, m, m');
      } else {
        LargeProductRepaired(env, op, m, m');
      }
    } else if k >= FIXERS {
      Unrepaired(env, op, m, m');
    } else if k == 0 || k == 1 || k == 3 || k == 5 {
      FirstOperandRepaired(env, op, k, m, m');
    } else if k == 2 {
      assert Fix(1, op).None?;
      CompareRepaired(env, op, m, m');
    } else if k == 4 {
      assert Fix(1, op).None?;
      MulRepaired(env, op, m, m');
    } else if k == 7 {
      ZeroExtensionRepaired(env, op, m, m');
    } else if k == 6 || k == 9 {
      BothRepaired(env, op, k, m, m');
    } else if k == 10 {
      DoubleRepaired(env, op, m, m');
    } else {
      ResultRepaired(env, op, k, m, m');
    }
  }

  lemma Unrepaired(env: Env, op: AsmOp, m: Machine, m': Machine)
    requires Exec(env, op, m) == Some(m')
    ensures Keeps(env, op, [op], m, m')
  {
    hide Exec;
    assert [op][1..] == [];
    assert ExecAll(env, [], m') == Some(m');
  }

  // --------------------------------------------- the same instruction in two states

  /** The conditions that the flags decide alike after an instruction. */
  function NextConds(op: AsmOp, conds: set<Cond>): set<Cond> {
    if KeepsFlags(op.opcode) then conds else KeptConds(op)
  }

  predicate Needs(op: AsmOp, conds: set<Cond>) {
    (op.opcode.SetIf? || op.opcode.JmpIf?) ==> op.opcode.cond in conds
  }

  lemma ExecFrame(env: Env, op: AsmOp, s: Machine, t: Machine, junk: set<Reg>, conds: set<Cond>, s': Machine) returns (t': Machine)
    requires SameBut(s, t, junk) && FlagsAgree(s.flags, t.flags, conds) && Needs(op, conds)
    requires Uses(op.a.kind) + Uses(op.b.kind) !! junk && {AX, DX, RSP} !! junk && Exec(env, op, s) == Some(s')
    ensures Exec(env, op, t) == Some(t') && SameBut(s', t', junk) && FlagsFollow(op.opcode, s, t, s', t')
  {
    var o := op.opcode;
    if ReadsFirst(o) {
      ExecIsApply(env, op, s);
      ExecIsApply(env, op, t);
      SourceFrame(env, op, s, t, junk);
      hide Exec, Source, Apply;
      t' := ApplyAlike(env, op, op, Source(env, op, s).value, s, t, junk, s');
    } else if o.Neg? || o.Not? || o.Dec? || o.Inc? {
      t' := UpdateFrame(env, op, s, t, junk, s');
    } else if o.SetIf? {
      var h := Holds(o.cond, s.flags);
      WriteFrame(env, op.a.kind, W8, if h.value then 1 else 0, if h.value then 1 else 0, s, t, junk);
      t' := Exec(env, op, t).value;
    } else {
      assert Reg64(s, AX) == Reg64(t, AX);
      t' := Exec(env, op, t).value;
    }
  }

  lemma SourceFrame(env: Env, op: AsmOp, s: Machine, t: Machine, junk: set<Reg>)
    requires SameBut(s, t, junk) && Uses(op.a.kind) !! junk
    ensures Source(env, op, s) == Source(env, op, t)
  {
    AddressFrame(env, op.a.kind, s, t, junk);
    ReadFrame(env, op.a.kind, SourceWidth(op), s, t, junk);
  }

  lemma UpdateFrame(env: Env, op: AsmOp, s: Machine, t: Machine, junk: set<Reg>, s': Machine) returns (t': Machine)
    requires op.opcode.Neg? || op.opcode.Not? || op.opcode.Dec? || op.opcode.Inc?
    requires SameBut(s, t, junk) && Uses(op.a.kind) !! junk && UpdateOne(env, op, s) == Some(s')
    ensures UpdateOne(env, op, t) == Some(t') && SameBut(s', t', junk) && FlagsFollow(op.opcode, s, t, s', t')
  {
    hide ReadOp, WriteOp;
    var w := op.Width();
    ReadFrame(env, op.a.kind, w, s, t, junk);
    var x := ReadOp(env, op.a.kind, w, s).value;
    var v: int := if op.opcode.Neg? then 0 - x else if op.opcode.Not? then w.Mod() - 1 - x else if op.opcode.Inc? then x + 1 else x - 1;
    var s1, t1 := if op.opcode.Not? then s else NoFlags(s), if op.opcode.Not? then t else NoFlags(t);
    WriteFrame(env, op.a.kind, w, Trunc(w, v), Trunc(w, v), s1, t1, junk);
    t' := UpdateOne(env, op, t).value;
  }

  // ------------------------------------------------------------- the state of cx

  /** How far cx agrees with the code before the repairs: a repaired shift leaves its
      count there, until cx is written again, in whole or in its low byte. */
  datatype CxState = Stale | LowByte | Whole

  predicate MentionsCx(op: AsmOp) {
    CX in Uses(op.a.kind) + Uses(op.b.kind)
  }

  /** Overwrites cx without looking at it. */
  predicate SetsCx(op: AsmOp) {
    Moves(op.opcode) && op.b.kind == Register(CX) && CX !in Uses(op.a.kind)
  }

  function NextCx(op: AsmOp, cx: CxState): CxState {
    if FixShift(op).Some? then Stale
    else if SetsCx(op) && !op.Width().W8? then Whole
    else if SetsCx(op) && cx.Stale? then LowByte
    else cx
  }

  predicate CxAgrees(s: Machine, t: Machine, cx: CxState) {
    match cx
    case Whole => Reg64(s, CX) == Reg64(t, CX)
    case LowByte => Reg64(s, CX) % 256 == Reg64(t, CX) % 256
    case Stale => true
  }

  const JUNK: set<Reg> := SCRATCH + {CX}

  /** Two states that differ in scratch registers, and in cx as far as it is known. */
  ghost predicate SameUpTo(s: Machine, t: Machine, cx: CxState) {
    SameBut(s, t, JUNK) && CxAgrees(s, t, cx)
  }

  /** What the repairs ask of an instruction by itself. */
  ghost predicate Repairable(op: AsmOp) {
    && Clean(op) && WidthsFit(op)
    && (op.opcode.Cmp? || Moves(op.opcode) ==> !op.a.kind.NoOperand? && !op.b.kind.NoOperand?)
  }

  /** An instruction looks at cx only while all of it agrees. */
  predicate CxFits(op: AsmOp, cx: CxState) {
    MentionsCx(op) ==> cx.Whole? || SetsCx(op)
  }

  /** An instruction that can be repaired whatever is known of cx. */
  ghost predicate RepairableAnywhere(op: AsmOp) {
    Repairable(op) && !MentionsCx(op)
  }

  lemma WholeIsSame(s: Machine, t: Machine)
    ensures SameUpTo(s, t, Whole) <==> SameBut(s, t, SCRATCH)
  {
    assert SameUpTo(s, t, Whole) ==> forall r :: r !in SCRATCH ==> r == CX || r !in JUNK;
  }

  lemma WriteKeepsCx(env: Env, k: Kind, w: Word, v: nat, m: Machine)
    requires k != Register(CX)
    ensures WriteOp(env, k, w, v, m).Some? ==> Reg64(WriteOp(env, k, w, v, m).value, CX) == Reg64(m, CX)
  {
    hide Address, StoreBytes;
  }

  lemma ApplyKeepsCx(env: Env, op: AsmOp, v: nat, m: Machine)
    requires op.b.kind != Register(CX)
    ensures Apply(env, op, v, m).Some? ==> Reg64(Apply(env, op, v, m).value, CX) == Reg64(m, CX)
  {
    hide ReadOp, WriteOp, Converted, Combined, Divided;
    var w := op.Width();
    if Moves(op.opcode) {
      WriteKeepsCx(env, op.b.kind, w, Converted(env, op, v), m);
    } else if Combines(op.opcode) {
      var x := ReadOp(env, op.b.kind, w, m);
      if x.Some? {
        var c := Combined(env, op.opcode, w, x.value, v);
        WriteKeepsCx(env, op.b.kind, w, c, m);
        WriteKeepsCx(env, op.b.kind, w, c, NoFlags(m));
      }
    } else if op.opcode.Push? {
      var n := (Reg64(m, RSP) - 8) % W64.Mod();
      WriteRegFrame(m, RSP, W64, n);
      WriteKeepsCx(env, Memory(0, RSP), W64, v, WriteReg(m, RSP, W64, n));
    }
  }

  /** An instruction that does not mention cx keeps it. */
  lemma KeepsCx(env: Env, op: AsmOp, m: Machine, m': Machine)
    requires op.b.kind != Register(CX)
    requires op.opcode.Neg? || op.opcode.Not? || op.opcode.Dec? || op.opcode.Inc? || op.opcode.SetIf? ==> op.a.kind != Register(CX)
    requires Exec(env, op, m) == Some(m')
    ensures Reg64(m', CX) == Reg64(m, CX)
  {
    hide Source, Apply, ReadOp, WriteOp, Holds;
    if ReadsFirst(op.opcode) {
      ApplyKeepsCx(env, op, Source(env, op, m).value, m);
    } else if op.opcode.SetIf? {
      WriteKeepsCx(env, op.a.kind, W8, if Holds(op.opcode.cond, m.flags).value then 1 else 0, m);
    } else if op.opcode.Neg? || op.opcode.Not? || op.opcode.Dec? || op.opcode.Inc? {
      var x := ReadOp(env, op.a.kind, op.Width(), m).value;
      var v: int := if op.opcode.Neg? then 0 - x else if op.opcode.Not? then op.Width().Mod() - 1 - x
                    else if op.opcode.Inc? then x + 1 else x - 1;
      WriteKeepsCx(env, op.a.kind, op.Width(), Trunc(op.Width(), v), m);
      WriteKeepsCx(env, op.a.kind, op.Width(), Trunc(op.Width(), v), NoFlags(m));
    }
  }

  lemma NotCx(op: AsmOp)
    requires !MentionsCx(op)
    ensures op.a.kind != Register(CX) && op.b.kind != Register(CX)
  {
    assert CX in Uses(Register(CX));
  }

  lemma CxOverwritten(env: Env, op: AsmOp, s: Machine, t: Machine, cx: CxState, s': Machine) returns (t': Machine)
    requires SetsCx(op) && Repairable(op) && SameUpTo(s, t, cx) && Exec(env, op, s) == Some(s')
    ensures Exec(env, op, t) == Some(t') && SameUpTo(s', t', NextCx(op, cx))
    ensures s'.flags == s.flags && t'.flags == t.flags
  {
    SourceFrame(env, op, s, t, JUNK);
    ExecIsApply(env, op, s);
    ExecIsApply(env, op, t);
    hide Exec, Source, Converted, WriteReg;
    var v, w := Converted(env, op, Source(env, op, s).value), op.Width();
    t' := WriteReg(t, CX, w, v);
    assert s' == WriteReg(s, CX, w, v) && Exec(env, op, t) == Some(t');
    WriteRegFrame(s, CX, w, v);
    WriteRegFrame(t, CX, w, v);
    WrittenReg(s, CX, w, v, W8);
    WrittenReg(t, CX, w, v, W8);
    if !w.W8? {
      WrittenWide(s, CX, w, v);
      WrittenWide(t, CX, w, v);
    } else if cx.Whole? {
      LowByteWritten(s, t, v);
    }
  }

  lemma LowByteWritten(s: Machine, t: Machine, v: nat)
    requires Reg64(s, CX) == Reg64(t, CX)
    ensures Reg64(WriteReg(s, CX, W8, v), CX) == Reg64(WriteReg(t, CX, W8, v), CX)
  {
  }

  /** The instruction itself in both states. */
  lemma SameInstruction(env: Env, op: AsmOp, s: Machine, t: Machine, conds: set<Cond>, cx: CxState, s': Machine) returns (t': Machine)
    requires Repairable(op) && CxFits(op, cx) && Needs(op, conds) && Exec(env, op, s) == Some(s')
    requires SameUpTo(s, t, cx) && FlagsAgree(s.flags, t.flags, conds)
    ensures Exec(env, op, t) == Some(t') && FlagsFollow(op.opcode, s, t, s', t')
    ensures SameUpTo(s', t', if SetsCx(op) then NextCx(op, cx) else cx)
  {
    hide Exec, WidthsFit, Holds, Reg64;
    if cx.Whole? {
      WholeIsSame(s, t);
      t' := ExecFrame(env, op, s, t, SCRATCH, conds, s');
      WholeIsSame(s', t');
    } else if SetsCx(op) {
      t' := CxOverwritten(env, op, s, t, cx, s');
    } else {
      t' := ExecFrame(env, op, s, t, JUNK, conds, s');
      NotCx(op);
      KeepsCx(env, op, s, s');
      KeepsCx(env, op, t, t');
    }
  }

  /** One instruction on one side, its repaired form on the other. */
  lemma ExpandSim(env: Env, op: AsmOp, s: Machine, t: Machine, conds: set<Cond>, cx: CxState, s': Machine) returns (t': Machine)
    requires Repairable(op) && CxFits(op, cx) && Needs(op, conds) && Exec(env, op, s) == Some(s')
    requires SameUpTo(s, t, cx) && FlagsAgree(s.flags, t.flags, conds)
    ensures ExecAll(env, Expand(op), t) == Some(t') && SameUpTo(s', t', NextCx(op, cx))
    ensures FlagsAgree(s'.flags, t'.flags, NextConds(op, conds))
  {
    hide Exec, ExecAll, Expand, WidthsFit, Holds, Reg64, SetsCx, MentionsCx;
    var t1 := SameInstruction(env, op, s, t, conds, cx, s');
    ExpandKeeps(env, op, t, t1);
    t' := ExecAll(env, Expand(op), t).value;
    RepairedToo(op, s', t1, t', cx);
    AllConds(conds);
  }

  lemma RepairedToo(op: AsmOp, s': Machine, t1: Machine, t': Machine, cx: CxState)
    requires SameUpTo(s', t1, if SetsCx(op) then NextCx(op, cx) else cx) && SameBut(t1, t', Clobbers(op))
    ensures SameUpTo(s', t', NextCx(op, cx))
  {
    hide Reg64;
    SameButGrows(t1, t', Clobbers(op), JUNK);
    SameButTrans(s', t1, t', JUNK);
    assert FixShift(op).None? ==> CX !in Clobbers(op);
  }

  // ------------------------------------------------------------- straight code

  /** Straight code that can be repaired, entered with what is known of cx and of the
      conditions. */
  ghost predicate BlockFits(code: seq<AsmOp>, cx: CxState, conds: set<Cond>)
    decreases |code|
  {
    code != [] ==>
      && Repairable(code[0]) && CxFits(code[0], cx) && Needs(code[0], conds)
      && BlockFits(code[1..], NextCx(code[0], cx), NextConds(code[0], conds))
  }

  function CxAfter(code: seq<AsmOp>, cx: CxState): CxState
    decreases |code|
  {
    if code == [] then cx else CxAfter(code[1..], NextCx(code[0], cx))
  }

  /** Straight code and its repaired form. */
  lemma {:induction false} BlockSim(env: Env, code: seq<AsmOp>, s: Machine, t: Machine, cx: CxState, conds: set<Cond>, s': Machine)
    returns (t': Machine)
    requires BlockFits(code, cx, conds) && ExecAll(env, code, s) == Some(s')
    requires SameUpTo(s, t, cx) && FlagsAgree(s.flags, t.flags, conds)
    ensures ExecAll(env, ExpandAll(code), t) == Some(t') && SameUpTo(s', t', CxAfter(code, cx))
    decreases |code|
  {
    hide Exec, Expand, Repairable, CxFits, NextCx, Needs, NextConds, SameUpTo, FlagsAgree;
    if code == [] {
      t' := t;
    } else {
      var s1 := Exec(env, code[0], s).value;
      var t1 := ExpandSim(env, code[0], s, t, conds, cx, s1);
      t' := BlockSim(env, code[1..], s1, t1, NextCx(code[0], cx), NextConds(code[0], conds), s');
      ExecJoin(env, Expand(code[0]), ExpandAll(code[1..]), t);
    }
  }

  /** Nothing in the code overwrites cx behind its back. */
  ghost predicate Straight(code: seq<AsmOp>) {
    forall op :: op in code ==> Repairable(op) && FixShift(op).None? && !op.opcode.SetIf? && !op.opcode.JmpIf?
  }

  lemma {:induction false} StraightFits(code: seq<AsmOp>, conds: set<Cond>)
    requires Straight(code)
    ensures BlockFits(code, Whole, conds) && CxAfter(code, Whole) == Whole
    decreases |code|
  {
    hide Repairable;
    if code != [] {
      assert code[0] in code;
      StraightFits(code[1..], NextConds(code[0], conds));
    }
  }

  /** Code without shifts is repaired without a trace but in the scratch registers. */
  lemma StraightSim(env: Env, code: seq<AsmOp>, s: Machine, t: Machine, s': Machine) returns (t': Machine)
    requires Straight(code) && ExecAll(env, code, s) == Some(s') && SameBut(s, t, SCRATCH)
    ensures ExecAll(env, FixAll(code), t) == Some(t') && SameBut(s', t', SCRATCH)
  {
    hide ExecAll, Straight, BlockFits, SameUpTo, SameBut, FixAll;
    StraightFits(code, {});
    WholeIsSame(s, t);
    FixAllExpands(code);
    t' := BlockSim(env, code, s, t, Whole, {}, s');
    WholeIsSame(s', t');
  }

  lemma {:induction false} ExecJoin(env: Env, a: seq<AsmOp>, b: seq<AsmOp>, m: Machine)
    ensures ExecAll(env, a + b, m) == if ExecAll(env, a, m).None? then None else ExecAll(env, b, ExecAll(env, a, m).value)
    decreases |a|
  {
    hide Exec;
    if a == [] {
      assert a + b == b;
    } else {
      assert (a + b)[0] == a[0] && (a + b)[1..] == a[1..] + b;
      if Exec(env, a[0], m).Some? {
        ExecJoin(env, a[1..], b, Exec(env, a[0], m).value);
      }
    }
  }

  lemma AllConds(conds: set<Cond>)
    ensures conds <= ALL
  {
    forall c | c in conds ensures c in ALL {
      match c
      case E => case NE => case G => case GE => case L => case LE =>
      case A => case AE => case B => case BE => case P => case NP =>
    }
  }

  // ------------------------------------------------------------ where it fails

  /** A constant tested against zero, as it is selected for `if (n)` and `!n`: the
      zero has no word type of its own and counts as 8 bits wide. */
  function TestConstant(n: int, w: Word): AsmOp {
    AsmOp(Cmp, Operand(Immediate(0), W8), Operand(Immediate(n), w))
  }

  /** The repaired test looks at the low byte only. It is right exactly when the low
      byte is zero only if the constant is. */
  lemma ConstantTestExact(env: Env, n: int, w: Word, m: Machine)
    ensures var p, q := Exec(env, TestConstant(n, w), m), ExecAll(env, FixAll([TestConstant(n, w)]), m);
            && p.Some? && q.Some?
            && (Holds(E, p.value.flags) == Holds(E, q.value.flags) <==> (n % 256 == 0 <==> n % w.Mod() == 0))
  {
    var op := TestConstant(n, w);
    CompareEffect(env, op, n % w.Mod(), 0, m);
    var x, m1 := LoadEffect(env, op.b, R11, w, m);
    var q := AsmOp(Cmp, op.a, InR11(W8));
    assert ReadOp(env, Register(R11), W8, m1) == ReadOp(env, op.b.kind, W8, m) == Some(n % 256);
    CompareEffect(env, q, n % 256, 0, m1);
    var m2 := m1.(flags := CompareFlags(W8, n % 256, 0));
    hide Exec, ExecAll;
    ExpandsOne(op);
    assert Expand(op) == [Load(op.b, R11, w), q] by {
      assert FixS2s(op).None? && FixImmBig(op).None? && FixCmp(op).Some? && FirstFix(op, 2) == 2 && FirstFix(op, 0) == FirstFix(op, 1) == 2;
    }
    ExecTwo(env, Load(op.b, R11, w), q, m, m1, m2);
  }

  /** Testing the int constant 256 goes wrong. */
  lemma ConstantTestFails(env: Env, m: Machine)
    ensures var p, q := Exec(env, TestConstant(256, W32), m), ExecAll(env, FixAll([TestConstant(256, W32)]), m);
            p.Some? && q.Some? && Holds(E, p.value.flags) != Holds(E, q.value.flags)
  {
    hide Exec, ExecAll, FixAll, TestConstant;
    ConstantTestExact(env, 256, W32, m);
  }
}
