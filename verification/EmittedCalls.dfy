/** The code that a call emits, as one list: what the theorem about whole calls runs are
    the parts of this list in front of its one call instruction and behind it. */
module EmittedCalls {
  import opened Wrappers
  import opened Asm
  import opened FixupMeaning
  import opened Fixups
  import opened FixupRuns
  import opened CallingSequence
  import opened CallMeaning
  import opened WholeCalls

  ghost predicate NoCalls(code: seq<AsmOp>) {
    forall i :: 0 <= i < |code| ==> !code[i].opcode.Call?
  }

  lemma NoCallsJoin(a: seq<AsmOp>, b: seq<AsmOp>)
    requires NoCalls(a) && NoCalls(b)
    ensures NoCalls(a + b)
  {
  }

  lemma {:induction false} MovesNoCalls(args: seq<Arg>, n: nat)
    requires n <= |args|
    ensures NoCalls(RegisterMoves(args, n))
    decreases n
  {
    hide HomeOf;
    if n > 0 {
      MovesNoCalls(args, n - 1);
    }
  }

  lemma {:induction false} PushesNoCalls(s: seq<Arg>)
    ensures NoCalls(PushesOf(s))
    decreases |s|
  {
    if s != [] {
      PushesNoCalls(s[..|s| - 1]);
    }
  }

  lemma FixerNoCalls(op: AsmOp, k: nat)
    requires !op.opcode.Call?
    ensures NoCalls(FixedOne(k, op))
  {
    if k <= 5 {
      EarlyNoCalls(op, k);
    } else if Fix(k, op).Some? {
      LateNoCalls(op, k);
    }
    hide Fix;
  }

  lemma EarlyNoCalls(op: AsmOp, k: nat)
    requires !op.opcode.Call? && k <= 5
    ensures Fix(k, op).Some? ==> NoCalls(Fix(k, op).value)
  {
  }

  lemma LateNoCalls(op: AsmOp, k: nat)
    requires !op.opcode.Call? && 5 < k && Fix(k, op).Some?
    ensures NoCalls(Fix(k, op).value)
  {
  }

  lemma {:induction false} RepairsNoCalls(code: seq<AsmOp>)
    requires NoCalls(code)
    ensures NoCalls(ExpandAll(code))
    decreases |code|
  {
    hide Expand;
    if code != [] {
      assert !code[0].opcode.Call?;
      ExpandNoCalls(code[0]);
      RepairsNoCalls(code[1..]);
    }
  }

  lemma ExpandNoCalls(op: AsmOp)
    requires !op.opcode.Call?
    ensures NoCalls(Expand(op))
  {
    hide FirstFix;
    if !NeedsTwo(op) {
      FixerNoCalls(op, FirstFix(op, 0));
      hide Fix;
    }
  }

  function TheCall(callee: string): AsmOp {
    AsmOp(Call, Operand(FunctionRef(callee), W8), NONE)
  }

  lemma CallStays(callee: string)
    ensures Expand(TheCall(callee)) == [TheCall(callee)]
  {
    var k := FirstFix(TheCall(callee), 0);
    CallUnfixed(callee, k);
  }

  lemma CallUnfixed(callee: string, k: nat)
    ensures Fix(k, TheCall(callee)).None?
  {
  }

  /** In the emitted code of a call one instruction is a call, of the callee that is
      meant; entering the callee runs what stands in front of it, and coming back what
      stands behind it. */
  lemma CallIsEmitted(args: seq<Arg>, callee: string, result: Option<Arg>) returns (at: nat)
    ensures var code := FixAll(CallCode(args, callee, result));
            && at < |code| && code[at] == AsmOp(Call, Operand(FunctionRef(callee), W8), NONE)
            && (forall i :: 0 <= i < |code| && i != at ==> !code[i].opcode.Call?)
            && (forall env, returnTo, m :: Entering(env, args, returnTo, m) ==
                  match ExecAll(env, code[..at], m) case None => None case Some(m1) => Enter(env, returnTo, m1))
            && (forall env, m :: Leaving(env, args, result, m) == ExecAll(env, code[at + 1..], Leave(m).1))
  {
    hide FixAll, Prepare, Displacement, FetchResult, ExecAll, Enter, Leave, AdjustBy;
    var before, behind := Prepare(args), AdjustBy(AddOp, Displacement(args)) + FetchResult(result);
    EmittedParts(args, callee, result);
    at := |FixAll(before)|;
    var code := FixAll(CallCode(args, callee, result));
    assert code == FixAll(before) + [TheCall(callee)] + FixAll(behind);
    assert code[..at] == FixAll(before) && code[at + 1..] == FixAll(behind);
    PartsNoCalls(args, result);
    forall i | 0 <= i < |code| && i != at ensures !code[i].opcode.Call? {
      if i > at {
        assert code[i] == FixAll(behind)[i - at - 1];
      }
    }
  }

  lemma EmittedParts(args: seq<Arg>, callee: string, result: Option<Arg>)
    ensures FixAll(CallCode(args, callee, result)) ==
            FixAll(Prepare(args)) + [TheCall(callee)] + FixAll(AdjustBy(AddOp, Displacement(args)) + FetchResult(result))
  {
    hide FixAll, Prepare, Displacement, FetchResult, AdjustBy;
    var before, behind := Prepare(args), AdjustBy(AddOp, Displacement(args)) + FetchResult(result);
    assert CallCode(args, callee, result) == before + [TheCall(callee)] + behind;
    FixAllJoin(before + [TheCall(callee)], behind);
    FixAllJoin(before, [TheCall(callee)]);
    FixAllExpands([TheCall(callee)]);
    ExpandAllOne(TheCall(callee));
    CallStays(callee);
  }

  lemma PartsNoCalls(args: seq<Arg>, result: Option<Arg>)
    ensures NoCalls(FixAll(Prepare(args)))
    ensures NoCalls(FixAll(AdjustBy(AddOp, Displacement(args)) + FetchResult(result)))
  {
    hide FixAll, ExpandAll, Displacement, RegisterMoves, PushesOf, StackArgs;
    var before, behind := Prepare(args), AdjustBy(AddOp, Displacement(args)) + FetchResult(result);
    MovesNoCalls(args, |args|);
    PushesNoCalls(StackArgs(args, |args|));
    RepairsNoCalls(before);
    RepairsNoCalls(behind);
    FixAllExpands(before);
    FixAllExpands(behind);
  }
}
