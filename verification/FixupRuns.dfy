/** Whole runs: a program and its repaired form, jump for jump. */
module FixupRuns {
  import opened Wrappers
  import opened Asm
  import opened MachineFacts
  import opened Fixups
  import opened FixupMeaning

  datatype Run = At(pc: nat, m: Machine) | Finished(m: Machine) | Fault

  function LabelAddress(code: seq<AsmOp>, id: int, i: nat): (r: Option<nat>)
    requires i <= |code|
    ensures r.Some? ==> i <= r.value < |code| && IsLabel(code[r.value], id)
    decreases |code| - i
  {
    if i == |code| then None else if IsLabel(code[i], id) then Some(i) else LabelAddress(code, id, i + 1)
  }

  predicate IsLabel(op: AsmOp, id: int) {
    op.opcode.LabelOp? && op.a.kind == LabelRef(id)
  }

  function GoTo(code: seq<AsmOp>, k: Kind, m: Machine): Run {
    if !k.LabelRef? then Fault else
    match LabelAddress(code, k.target, 0)
    case Some(pc) => At(pc, m)
    case None => Fault
  }

  function StepAsm(env: Env, code: seq<AsmOp>, c: Run): Run {
    if !c.At? then c
    else if c.pc >= |code| then Fault
    else
      var op := code[c.pc];
      match op.opcode
      case RetOp => Finished(c.m)
      case Jmp => GoTo(code, op.a.kind, c.m)
      case JmpIf(cond) =>
        (match Holds(cond, c.m.flags)
         case None => Fault
         case Some(h) => if h then GoTo(code, op.a.kind, c.m) else At(c.pc + 1, c.m))
      case _ =>
        match Exec(env, op, c.m)
        case None => Fault
        case Some(m') => At(c.pc + 1, m')
  }

  function IterAsm(env: Env, code: seq<AsmOp>, c: Run, k: nat): Run
    decreases k
  {
    if k == 0 then c else IterAsm(env, code, StepAsm(env, code, c), k - 1)
  }

  lemma {:induction false} IterJoin(env: Env, code: seq<AsmOp>, c: Run, j: nat, k: nat)
    ensures IterAsm(env, code, IterAsm(env, code, c, j), k) == IterAsm(env, code, c, j + k)
    decreases j
  {
    if j > 0 {
      IterJoin(env, code, StepAsm(env, code, c), j - 1, k);
    }
  }

  // ------------------------------------------------------- where things end up

  /** Where the repaired form of the pc-th instruction starts. */
  function Pos(code: seq<AsmOp>, pc: nat): nat
    requires pc <= |code|
  {
    |ExpandAll(code[..pc])|
  }

  lemma {:induction false} ExpandAllJoin(a: seq<AsmOp>, b: seq<AsmOp>)
    ensures ExpandAll(a + b) == ExpandAll(a) + ExpandAll(b)
    decreases |a|
  {
    if a == [] {
      assert a + b == b;
    } else {
      assert (a + b)[1..] == a[1..] + b;
      ExpandAllJoin(a[1..], b);
    }
  }

  lemma ExpandAllOne(op: AsmOp)
    ensures ExpandAll([op]) == Expand(op)
  {
    hide Expand;
    assert ExpandAll([]) == [];
  }

  lemma MiddlePart(a: seq<AsmOp>, b: seq<AsmOp>, c: seq<AsmOp>)
    ensures |a| + |b| <= |a + (b + c)| && (a + (b + c))[|a|..|a| + |b|] == b
  {
  }

  /** The repaired program around the repaired form of one instruction. */
  lemma Placed(code: seq<AsmOp>, pc: nat)
    requires pc < |code|
    ensures var p, e, all := Pos(code, pc), Expand(code[pc]), ExpandAll(code);
            p + |e| <= |all| && all[p..p + |e|] == e && Pos(code, pc + 1) == p + |e|
  {
    hide Expand, ExpandAll;
    var before, after := code[..pc], code[pc + 1..];
    assert code == before + ([code[pc]] + after) && code[..pc + 1] == before + [code[pc]];
    ExpandAllOne(code[pc]);
    ExpandAllJoin(before, [code[pc]] + after);
    ExpandAllJoin([code[pc]], after);
    ExpandAllJoin(before, [code[pc]]);
    MiddlePart(ExpandAll(before), Expand(code[pc]), ExpandAll(after));
  }

  lemma NoNewLabels(op: AsmOp)
    ensures op.opcode.LabelOp? ==> Expand(op) == [op]
    ensures !op.opcode.LabelOp? ==> forall i :: 0 <= i < |Expand(op)| ==> !Expand(op)[i].opcode.LabelOp?
  {
    var k := FirstFix(op, 0);
    if k < FIXERS {
      assert Fix(k, op).Some?;
    }
  }

  /** Control instructions are left as they are. */
  lemma ControlStays(op: AsmOp)
    requires op.opcode.Jmp? || op.opcode.JmpIf? || op.opcode.RetOp?
    ensures Expand(op) == [op]
  {
    assert Final(op, 0);
  }

  lemma {:induction false} LabelMoves(code: seq<AsmOp>, id: int, i: nat)
    requires i <= |code|
    ensures Pos(code, i) <= |ExpandAll(code)|
    ensures LabelAddress(code, id, i).Some? ==>
              LabelAddress(ExpandAll(code), id, Pos(code, i)) == Some(Pos(code, LabelAddress(code, id, i).value))
    decreases |code| - i
  {
    var all := ExpandAll(code);
    if i == |code| {
      assert code[..i] == code;
    } else {
      Placed(code, i);
      LabelMoves(code, id, i + 1);
      hide ExpandAll, Expand, Pos;
      if IsLabel(code[i], id) {
        LabelHere(code, id, i);
      } else {
        NoLabelHere(code, id, i);
      }
    }
  }

  lemma LabelHere(code: seq<AsmOp>, id: int, i: nat)
    requires i < |code| && IsLabel(code[i], id)
    ensures Pos(code, i) < |ExpandAll(code)| && IsLabel(ExpandAll(code)[Pos(code, i)], id)
  {
    hide ExpandAll, Expand, Pos;
    Placed(code, i);
    NoNewLabels(code[i]);
    var all, p := ExpandAll(code), Pos(code, i);
    assert all[p] == all[p..p + 1][0];
  }

  lemma NoLabelHere(code: seq<AsmOp>, id: int, i: nat)
    requires i < |code| && !IsLabel(code[i], id)
    ensures Pos(code, i) <= Pos(code, i + 1) <= |ExpandAll(code)|
    ensures LabelAddress(ExpandAll(code), id, Pos(code, i)) == LabelAddress(ExpandAll(code), id, Pos(code, i + 1))
  {
    hide ExpandAll, Expand, Pos, IsLabel;
    var all, p, q, e := ExpandAll(code), Pos(code, i), Pos(code, i + 1), Expand(code[i]);
    Placed(code, i);
    NotThisLabel(code[i], id);
    forall j | p <= j < q ensures !IsLabel(all[j], id) {
      assert all[j] == all[p..q][j - p];
    }
    SkipLabels(all, id, p, q);
  }

  lemma NotThisLabel(op: AsmOp, id: int)
    requires !IsLabel(op, id)
    ensures forall i :: 0 <= i < |Expand(op)| ==> !IsLabel(Expand(op)[i], id)
  {
    NoNewLabels(op);
    hide Expand;
  }

  lemma {:induction false} SkipLabels(code: seq<AsmOp>, id: int, i: nat, j: nat)
    requires i <= j <= |code| && forall k :: i <= k < j ==> !IsLabel(code[k], id)
    ensures LabelAddress(code, id, i) == LabelAddress(code, id, j)
    decreases j - i
  {
    if i < j {
      SkipLabels(code, id, i + 1, j);
    }
  }

  // -------------------------------------------------------------- running blocks

  /** A straight block of the program is run step by step. */
  lemma {:induction false} RunBlock(env: Env, code: seq<AsmOp>, p: nat, block: seq<AsmOp>, m: Machine, m': Machine)
    requires p + |block| <= |code| && code[p..p + |block|] == block && ExecAll(env, block, m) == Some(m')
    ensures IterAsm(env, code, At(p, m), |block|) == At(p + |block|, m')
    decreases |block|
  {
    if block != [] {
      assert code[p] == block[0] && code[p + 1..p + |block|] == block[1..];
      var m1 := Exec(env, block[0], m).value;
      StraightStep(env, code, p, m, m1);
      hide Exec;
      RunBlock(env, code, p + 1, block[1..], m1, m');
    }
  }

  lemma StraightStep(env: Env, code: seq<AsmOp>, p: nat, m: Machine, m': Machine)
    requires p < |code| && Exec(env, code[p], m) == Some(m')
    ensures StepAsm(env, code, At(p, m)) == At(p + 1, m')
  {
  }

  // ------------------------------------------------------------------- matching

  /** The conditions that the flags decide alike before the pc-th instruction. */
  function CondsAt(code: seq<AsmOp>, pc: nat): set<Cond>
    requires pc <= |code|
    decreases pc
  {
    if pc == 0 || (pc < |code| && code[pc].opcode.LabelOp?) then {}
    else NextConds(code[pc - 1], CondsAt(code, pc - 1))
  }

  /** What is known of cx before the pc-th instruction. */
  function CxAt(code: seq<AsmOp>, pc: nat): CxState
    requires pc <= |code|
    decreases pc
  {
    if pc < |code| && code[pc].opcode.LabelOp? then Stale
    else if pc == 0 then Whole
    else NextCx(code[pc - 1], CxAt(code, pc - 1))
  }

  /** Code that the repairs keep: every condition that is used has been kept, and cx
      is read only where no repaired shift can have overwritten it. */
  ghost predicate RepairableCode(code: seq<AsmOp>) {
    forall pc :: 0 <= pc < |code| ==>
                   Repairable(code[pc]) && Needs(code[pc], CondsAt(code, pc)) && CxFits(code[pc], CxAt(code, pc))
  }

  ghost predicate Matches(code: seq<AsmOp>, c: Run, d: Run) {
    match c
    case Fault => true
    case Finished(m) => d.Finished? && SameBut(m, d.m, JUNK)
    case At(pc, m) =>
      && d.At? && pc <= |code| && d.pc == Pos(code, pc) && SameUpTo(m, d.m, CxAt(code, pc))
      && FlagsAgree(m.flags, d.m.flags, CondsAt(code, pc))
  }

  lemma MatchStep(env: Env, code: seq<AsmOp>, c: Run, d: Run) returns (k: nat)
    requires RepairableCode(code) && Matches(code, c, d)
    ensures Matches(code, StepAsm(env, code, c), IterAsm(env, ExpandAll(code), d, k))
    ensures c.At? && StepAsm(env, code, c) != Fault ==> k >= 1
  {
    k := 0;
    if c.At? && c.pc < |code| && StepAsm(env, code, c) != Fault {
      var op := code[c.pc];
      Placed(code, c.pc);
      assert Repairable(op) && Needs(op, CondsAt(code, c.pc)) && CxFits(op, CxAt(code, c.pc));
      if op.opcode.Jmp? || op.opcode.JmpIf? || op.opcode.RetOp? {
        ControlStep(env, code, c, d);
        k := 1;
      } else {
        k := PlainStep(env, code, c, d);
      }
    }
  }

  lemma CondsNext(code: seq<AsmOp>, pc: nat, f: Flags, g: Flags)
    requires pc < |code|
    requires FlagsAgree(f, g, if KeepsFlags(code[pc].opcode) then CondsAt(code, pc) else KeptConds(code[pc]))
    ensures FlagsAgree(f, g, CondsAt(code, pc + 1))
  {
  }

  lemma CxNext(code: seq<AsmOp>, pc: nat, s: Machine, t: Machine)
    requires pc < |code| && SameUpTo(s, t, NextCx(code[pc], CxAt(code, pc)))
    ensures SameUpTo(s, t, CxAt(code, pc + 1))
  {
    hide SameBut, NextCx, Reg64;
  }

  lemma NotEmpty(op: AsmOp)
    ensures Expand(op) != []
  {
  }

  lemma PlainStepIs(env: Env, code: seq<AsmOp>, c: Run)
    requires c.At? && c.pc < |code| && StepAsm(env, code, c) != Fault
    requires !code[c.pc].opcode.Jmp? && !code[c.pc].opcode.JmpIf? && !code[c.pc].opcode.RetOp?
    ensures Exec(env, code[c.pc], c.m).Some? && StepAsm(env, code, c) == At(c.pc + 1, Exec(env, code[c.pc], c.m).value)
  {
    hide Exec, Holds, GoTo;
  }

  lemma PlainStep(env: Env, code: seq<AsmOp>, c: Run, d: Run) returns (k: nat)
    requires RepairableCode(code) && Matches(code, c, d) && c.At? && c.pc < |code| && StepAsm(env, code, c) != Fault
    requires !code[c.pc].opcode.Jmp? && !code[c.pc].opcode.JmpIf? && !code[c.pc].opcode.RetOp?
    ensures Matches(code, StepAsm(env, code, c), IterAsm(env, ExpandAll(code), d, k)) && k >= 1
  {
    hide Exec, Expand, ExpandAll, Repairable, Pos, CondsAt, FlagsAgree, Holds, SameUpTo, Needs, KeptConds, GoTo, IterAsm;
    hide CxAt, CxFits, NextCx;
    var op, conds, cx := code[c.pc], CondsAt(code, c.pc), CxAt(code, c.pc);
    Placed(code, c.pc);
    assert Repairable(op) && Needs(op, conds) && CxFits(op, cx);
    PlainStepIs(env, code, c);
    hide StepAsm, RepairableCode;
    var t' := ExpandSim(env, op, c.m, d.m, conds, cx, Exec(env, op, c.m).value);
    RunBlock(env, ExpandAll(code), d.pc, Expand(op), d.m, t');
    CondsNext(code, c.pc, Exec(env, op, c.m).value.flags, t'.flags);
    CxNext(code, c.pc, Exec(env, op, c.m).value, t');
    k := |Expand(op)|;
    NotEmpty(op);
  }

  lemma ControlStep(env: Env, code: seq<AsmOp>, c: Run, d: Run)
    requires RepairableCode(code) && Matches(code, c, d) && c.At? && c.pc < |code| && StepAsm(env, code, c) != Fault
    requires code[c.pc].opcode.Jmp? || code[c.pc].opcode.JmpIf? || code[c.pc].opcode.RetOp?
    ensures Matches(code, StepAsm(env, code, c), IterAsm(env, ExpandAll(code), d, 1))
  {
    hide Expand, ExpandAll, Pos, Holds, IsLabel, LabelAddress, SameBut, CondsAt, NextConds, CxAt, CxAgrees;
    var op, all := code[c.pc], ExpandAll(code);
    Placed(code, c.pc);
    ControlStays(op);
    assert Needs(op, CondsAt(code, c.pc));
    assert all[d.pc] == op by {
      assert all[d.pc..d.pc + 1][0] == op;
    }
    OneStep(env, all, d);
    if op.opcode.RetOp? {
    } else if op.opcode.JmpIf? && Holds(op.opcode.cond, c.m.flags) == Some(false) {
      CondsNext(code, c.pc, c.m.flags, d.m.flags);
      CxNext(code, c.pc, c.m, d.m);
    } else {
      JumpMatches(code, op.a.kind, c.m, d.m);
    }
  }

  lemma JumpMatches(code: seq<AsmOp>, k: Kind, m: Machine, n: Machine)
    requires SameBut(m, n, JUNK)
    ensures Matches(code, GoTo(code, k, m), GoTo(ExpandAll(code), k, n))
  {
    hide ExpandAll, SameBut, LabelAddress;
    if k.LabelRef? {
      assert code[..0] == [] && Pos(code, 0) == 0 by {
        StartPos(code);
      }
      LabelMoves(code, k.target, 0);
      hide Pos;
    }
  }

  lemma StartPos(code: seq<AsmOp>)
    ensures Pos(code, 0) == 0
  {
    assert code[..0] == [];
  }

  lemma OneStep(env: Env, code: seq<AsmOp>, d: Run)
    ensures IterAsm(env, code, d, 1) == StepAsm(env, code, d)
  {
    hide StepAsm;
  }

  /** Repairing keeps runs: whatever a program does in k steps, its repaired form
      does as well, up to the scratch registers; while the program runs, its repaired
      form has taken at least as many steps. */
  lemma {:induction false} FixAllKeepsRuns(env: Env, code: seq<AsmOp>, c: Run, d: Run, k: nat) returns (j: nat)
    requires RepairableCode(code) && Matches(code, c, d)
    ensures Matches(code, IterAsm(env, code, c, k), IterAsm(env, FixAll(code), d, j))
    ensures IterAsm(env, code, c, k).At? ==> j >= k
    decreases k
  {
    hide RepairableCode, Matches, StepAsm, FixAll, ExpandAll;
    FixAllExpands(code);
    j := 0;
    if k > 0 {
      var i := MatchStep(env, code, c, d);
      var d' := IterAsm(env, ExpandAll(code), d, i);
      var l := FixAllKeepsRuns(env, code, StepAsm(env, code, c), d', k - 1);
      IterJoin(env, ExpandAll(code), d, i, l);
      j := i + l;
      if IterAsm(env, code, c, k).At? {
        StillRunning(env, code, StepAsm(env, code, c), k - 1);
        StillRunning(env, code, c, 1);
        OneStep(env, code, c);
      }
    }
  }

  /** A run that has ended does not go on. */
  lemma {:induction false} StillRunning(env: Env, code: seq<AsmOp>, c: Run, k: nat)
    ensures IterAsm(env, code, c, k).At? ==> c.At?
    decreases k
  {
    if k > 0 {
      hide Exec, Holds, GoTo;
      StillRunning(env, code, StepAsm(env, code, c), k - 1);
    }
  }
}
