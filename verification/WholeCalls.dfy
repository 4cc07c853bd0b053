/** A whole call: the caller's code, the callee from its entry to its return, and the
    caller's code again. */
module WholeCalls {
  import opened Wrappers
  import opened CTypes
  import opened CAst
  import Ir
  import opened CSemantics
  import Simulation
  import opened Pipeline
  import opened Asm
  import opened ModularArithmetic
  import opened MachineFacts
  import opened MemoryMap
  import opened StackFrame
  import opened Fixups
  import opened FixupMeaning
  import opened FixupRuns
  import opened CallingSequence
  import opened CallMeaning
  import opened EndToEnd
  import opened LoweredShapes
  import opened FrameWorld
  import opened Compiler

  /** From the caller's first instruction for the call to the callee's first one. */
  function Entering(env: Env, args: seq<Arg>, returnTo: nat, m: Machine): Option<Machine> {
    var m1 :- ExecAll(env, FixAll(Prepare(args)), m);
    Enter(env, returnTo, m1)
  }

  /** From the callee's return to the end of the caller's code for the call. */
  function Leaving(env: Env, args: seq<Arg>, result: Option<Arg>, m: Machine): Option<Machine> {
    ExecAll(env, FixAll(AdjustBy(AddOp, Displacement(args)) + FetchResult(result)), Leave(m).1)
  }

  /** The place for the result is a slot of the caller or a named object, as wide as
      what the callee returns. */
  predicate CanFetch(f: Function, result: Option<Arg>) {
    result.Some? ==>
      && !result.value.floating && f.returnType.Some? && result.value.place.word == WordOf(f.returnType.value)
      && var k := result.value.place.kind; k.Data? || (k.Memory? && k.base == RBP)
  }

  function ResultAt(env: Env, result: Arg, m: Machine): nat {
    var a := Address(env, result.place.kind, m);
    if a.Some? then a.value else 0
  }

  predicate InResult(env: Env, result: Option<Arg>, m: Machine, b: int) {
    result.Some? && var a := ResultAt(env, result.value, m); a <= b < a + result.value.place.word.Bytes()
  }

  /** The result has arrived: the returned value, or zero in its low byte when the
      callee has run into its end. */
  predicate Received(env: Env, result: Option<Arg>, out: Outcome, m: Machine, mem: Bytes) {
    result.Some? ==>
      var got := LoadBytes(mem, ResultAt(env, result.value, m), result.value.place.word.Bytes());
      if out.Returned? then out.v.Some? && got == out.v.value.bits else got % 256 == 0
  }

  /** Where the callee's frame pointer will be. */
  function BaseOf(args: seq<Arg>, m: Machine): int {
    Reg64(m, RSP) - Displacement(args) - 16
  }

  /** The caller can make the call: its arguments are in place, and there is room below
      its stack pointer for them and for the callee's frame. */
  ghost predicate CanCall(f: Function, ops: seq<Ir.IrOp>, env: Env, objects: map<string, nat>, args: seq<Arg>, s: CSemantics.Store, m: Machine) {
    var base := BaseOf(args, m);
    && SameClasses(args, ArgsOf(f.params)) && AllSteady(env, args, m, base + 16, Reg64(m, RSP))
    && 0 <= base && RoomFor(FrameFor(f.params, ops, f.locals), env, objects, base, Reg64(m, RSP))
    && Stored(WorldAt(f, ops, env, objects, base).layout, s, m.mem)
  }

  // -------------------------------------------------------------------- going in

  lemma PassedWithout(args: seq<Arg>, values: seq<nat>, m: Machine, m': Machine, at: int)
    requires |args| == |values| && Passed(args, values, m, at) && SameBut(m, m', SCRATCH)
    ensures Passed(args, values, m', at)
  {
    hide HomeOf, LoadBytes, Reg64;
    forall i | 0 <= i < |args| ensures PassedOne(args, i, values[i], m', at) {
      assert PassedOne(args, i, values[i], m, at);
      if HomeOf(args, i).InRegister? {
        HomeListed(args, i);
      }
    }
  }

  /** The callee is entered with its arguments in their places, above a frame that holds
      what is needed to come back. */
  lemma CallEnters(env: Env, args: seq<Arg>, params: seq<Arg>, returnTo: nat, m: Machine) returns (m': Machine)
    requires SameClasses(args, params) && returnTo < W64.Mod() && 0 <= BaseOf(args, m)
    requires AllSteady(env, args, m, BaseOf(args, m) + 16, Reg64(m, RSP))
    ensures Entering(env, args, returnTo, m) == Some(m') && FrameAt(m', BaseOf(args, m), returnTo, Reg64(m, RBP))
    ensures |params| == |args| && Passed(params, ValuesOf(env, args, m), m', BaseOf(args, m) + 16)
    ensures ChangedIn(m.mem, m'.mem, BaseOf(args, m), Reg64(m, RSP)) && Reg64(m', RSP) == BaseOf(args, m)
  {
    hide ExecAll, Straight, AllSteady, Prepare, Enter, FixAll, SameBut, Displacement, Reg64, ChangedIn, LoadBytes, ValueOf, SameRegs, Passed,
      SameClasses, Unscratched;
    var top, base, values := Reg64(m, RSP), BaseOf(args, m), ValuesOf(env, args, m);
    var s1 := PrepareRuns(env, args, m);
    var s2 := EnterEffect(env, returnTo, s1);
    StaysSame(s2);
    PassedOn(args, params, values, s1, s2, s2, base + 16);
    NoScratch(env, args, m, base + 16, top);
    PrepareStraight(args);
    SameAsItself(m);
    var t1 := StraightSim(env, Prepare(args), m, m, s1);
    m' := EnterFrame(env, returnTo, s1, t1, s2);
    SameCount(args, params);
    PassedWithout(params, values, s2, m', base + 16);
    FrameWithout(s1, s2, m', base, returnTo, Reg64(m, RBP), m);
    ChangedBoth(m.mem, s1.mem, s2.mem, base, top);
  }

  lemma NoScratch(env: Env, args: seq<Arg>, m: Machine, low: int, high: int)
    requires AllSteady(env, args, m, low, high)
    ensures Unscratched(args)
  {
    forall i | 0 <= i < |args| ensures Unclaimed(args[i].place.kind) {
      assert Steady(env, args[i].place, m, low, high);
    }
  }

  lemma StaysSame(m: Machine)
    ensures SameBut(m, m, {RSP})
  {
  }

  lemma SameCount(args: seq<Arg>, params: seq<Arg>)
    requires SameClasses(args, params)
    ensures |args| == |params|
  {
  }

  lemma FrameWithout(s1: Machine, s2: Machine, m': Machine, base: nat, returnTo: nat, savedRbp: nat, m: Machine)
    requires SameRegs(m, s1, CALLER_WRITES) && savedRbp == Reg64(m, RBP)
    requires Reg64(s2, RBP) == base && LoadBytes(s2.mem, base, 8) == Reg64(s1, RBP) && LoadBytes(s2.mem, base + 8, 8) == returnTo
    requires SameBut(s2, m', SCRATCH)
    ensures FrameAt(m', base, returnTo, savedRbp) && m'.mem == s2.mem && Reg64(m', RSP) == Reg64(s2, RSP)
  {
    hide Reg64, LoadBytes;
  }

  lemma ChangedBoth(mem: Bytes, mem1: Bytes, mem2: Bytes, base: int, top: int)
    requires ChangedIn(mem, mem1, base + 16, top) && ChangedIn(mem1, mem2, base, base + 16) && base + 16 <= top
    ensures ChangedIn(mem, mem2, base, top)
  {
  }

  // ------------------------------------------------------------ the callee's memory

  /** What lies outside the changed stretch keeps its values. */
  lemma StillStored(layout: Layout, s: CSemantics.Store, mem: Bytes, mem': Bytes, low: int, high: int)
    requires Stored(layout, s, mem) && ChangedIn(mem, mem', low, high)
    requires forall l :: l in layout ==> layout[l].address + layout[l].size <= low || high <= layout[l].address
    ensures Stored(layout, s, mem')
  {
    hide ChangedIn, LoadBytes;
    forall l | l in s ensures l in layout && LoadBytes(mem', layout[l].address, layout[l].size) == s[l] {
      LoadUnchanged(mem, mem', low, high, layout[l].address, layout[l].size);
    }
  }

  lemma SlotsElsewhere(f: Frame, env: Env, objects: map<string, nat>, rbp: nat, high: nat)
    requires FrameSound(f) && Scalars(f) && RoomFor(f, env, objects, rbp, high)
    ensures var layout := LayoutOf(f, env, objects, rbp);
            forall l :: l in layout ==> layout[l].address + layout[l].size <= rbp || high <= layout[l].address
  {
    hide FrameSound, Scalars, Reserved;
    var layout := LayoutOf(f, env, objects, rbp);
    forall l | l in layout ensures layout[l].address + layout[l].size <= rbp || high <= layout[l].address {
      if l.Tmp? {
        SlotInside(f, env, objects, rbp, high, l.id);
      }
    }
  }

  lemma LessRoom(f: Frame, env: Env, objects: map<string, nat>, rbp: nat, high: nat, high': nat)
    requires RoomFor(f, env, objects, rbp, high) && rbp <= high' <= high
    ensures RoomFor(f, env, objects, rbp, high')
  {
    hide Reserved;
  }

  lemma StackArgsBelow(f: Function, args: seq<Arg>, m: Machine)
    requires SameClasses(args, ArgsOf(f.params)) && 0 <= BaseOf(args, m)
    ensures BaseOf(args, m) <= StackArgsEnd(f, BaseOf(args, m)) <= Reg64(m, RSP)
  {
    StackSize(args, ArgsOf(f.params));
  }

  lemma ArgumentBounds(f: Function, env: Env, args: seq<Arg>, m: Machine, low: int, high: int)
    requires SameClasses(args, ArgsOf(f.params)) && AllSteady(env, args, m, low, high)
    ensures |args| == |f.params| && forall i :: 0 <= i < |f.params| ==> ValuesOf(env, args, m)[i] < Modulus(f.params[i].ty)
  {
    hide AllSteady, ValuesOf;
    ValuesFit(env, args, ArgsOf(f.params), m, low, high);
    assert forall i :: 0 <= i < |f.params| ==> ArgsOf(f.params)[i].place.word == WordOf(f.params[i].ty);
  }

  // --------------------------------------------------------------- the whole call

  /** A call that has come back: to its place, with the caller's stack and frame
      pointers, its result where the caller wants it, the other objects as they should
      be, and all other memory of the caller as it was. */
  ghost predicate BackAgain(objects: map<string, nat>, env: Env, args: seq<Arg>, result: Option<Arg>, returnTo: nat,
                            m: Machine, s': CSemantics.Store, out: Outcome, d: Run)
  {
    && d.Finished? && Leave(d.m).0 == returnTo
    && var r := Leaving(env, args, result, d.m);
       && r.Some? && Reg64(r.value, RSP) == Reg64(m, RSP) && Reg64(r.value, RBP) == Reg64(m, RBP)
       && Received(env, result, out, m, r.value.mem) && ObjectsHold(objects, env, result, m, s', r.value.mem)
       && CallerKept(objects, env, result, m, r.value.mem)
  }

  ghost predicate CallerKept(objects: map<string, nat>, env: Env, result: Option<Arg>, m: Machine, mem: Bytes) {
    forall b: int :: Reg64(m, RSP) <= b && !InObjects(env, objects, b) && !InResult(env, result, m, b) ==> ByteAt(mem, b) == ByteAt(m.mem, b)
  }

  ghost predicate ObjectsHold(objects: map<string, nat>, env: Env, result: Option<Arg>, m: Machine, s: CSemantics.Store, mem: Bytes) {
    forall n :: n in objects && Loc.Data(n) in s
                && (forall b: int :: env.symbols(n) <= b < env.symbols(n) + objects[n] ==> !InResult(env, result, m, b)) ==>
      LoadBytes(mem, env.symbols(n), objects[n]) == s[Loc.Data(n)]
  }

  /** The callee goes on as long as its source does, and comes back when it ends. */
  ghost predicate CallBehaves(f: Function, ops: seq<Ir.IrOp>, env: Env, objects: map<string, nat>, args: seq<Arg>, result: Option<Arg>,
                              returnTo: nat, m: Machine, entered: Machine, res: ExecResult, fuel: nat)
  {
    match res
    case Undefined => true
    case Timeout => exists j: nat :: j >= fuel && IterAsm(env, AsmOf(f.params, ops), At(0, entered), j).At?
    case Done(out, s') => exists j: nat ::
        BackAgain(objects, env, args, result, returnTo, m, s', out, IterAsm(env, AsmOf(f.params, ops), At(0, entered), j))
  }

  /** A call does what the source of its callee does with the values of the arguments:
      when that ends, the call returns with its result, which the caller finds where it
      wants it; when it goes on, so does the callee. */
  lemma CallReturns(f: Function, ops: seq<Ir.IrOp>, lastId: int, env: Env, objects: map<string, nat>, args: seq<Arg>, result: Option<Arg>,
                    returnTo: nat, s: CSemantics.Store, m: Machine, fuel: nat) returns (entered: Machine)
    requires TypeChecked(f, lastId, objects) && TameFlat(f.body) && SeenWhole(f.params, ops)
    requires LoweredFrom(f, ops, lastId) && Faithful(f, ops, lastId)
    requires CanCall(f, ops, env, objects, args, s, m) && CanFetch(f, result)
    requires Simulation.Below(s, lastId + 1) && returnTo < W64.Mod()
    ensures Entering(env, args, returnTo, m) == Some(entered)
    ensures CallBehaves(f, ops, env, objects, args, result, returnTo, m, entered, SourceRun(f, ops, env, objects, ValuesOf(env, args, m), s, entered, fuel), fuel)
  {
    hide TypeChecked, TameFlat, SeenWhole, LoweredFrom, Faithful, Simulation.Below, RunBody, AsmOf, StepAsm, Entering, BackAgain, WorldAt, FrameAt, ChangedIn,
      ValuesOf, Called, Ends, Passed, CanFetch, SourceRun;
    var values := ValuesOf(env, args, m);
    entered := CallEnters(env, args, ArgsOf(f.params), returnTo, m);
    CalleeReady(f, ops, lastId, env, objects, args, returnTo, s, m, entered);
    SourceToMachine(f, ops, lastId, env, objects, values, s, entered, fuel);
    var res := SourceRun(f, ops, env, objects, values, s, entered, fuel);
    if res.Done? {
      var j: nat :| Ends(f, ops, env, objects, entered, res.st, res.out, IterAsm(env, AsmOf(f.params, ops), At(0, entered), j));
      ComesBack(f, ops, env, objects, args, result, returnTo, s, m, entered, res.st, res.out, IterAsm(env, AsmOf(f.params, ops), At(0, entered), j));
    }
  }

  lemma CalleeReady(f: Function, ops: seq<Ir.IrOp>, lastId: int, env: Env, objects: map<string, nat>, args: seq<Arg>, returnTo: nat,
                    s: CSemantics.Store, m: Machine, entered: Machine)
    requires TypeChecked(f, lastId, objects) && LoweredFrom(f, ops, lastId) && SeenWhole(f.params, ops)
    requires CanCall(f, ops, env, objects, args, s, m) && FrameAt(entered, BaseOf(args, m), returnTo, Reg64(m, RBP))
    requires Passed(ArgsOf(f.params), ValuesOf(env, args, m), entered, BaseOf(args, m) + 16)
    requires ChangedIn(m.mem, entered.mem, BaseOf(args, m), Reg64(m, RSP))
    ensures Reg64(entered, RBP) == BaseOf(args, m) && Called(f, ops, env, objects, ValuesOf(env, args, m), s, entered)
  {
    hide TypeChecked, LoweredFrom, SeenWhole, RoomFor, Passed, ChangedIn, Stored, FrameFor, AllSteady, LayoutOf, ValuesOf, SameClasses, Displacement,
      Modulus, ArgsOf;
    var base, top := BaseOf(args, m), Reg64(m, RSP);
    var frame := FrameFor(f.params, ops, f.locals);
    FrameIsRight(f, ops, lastId, objects);
    SlotsElsewhere(frame, env, objects, base, top);
    StillStored(WorldAt(f, ops, env, objects, base).layout, s, m.mem, entered.mem, base, top);
    StackArgsBelow(f, args, m);
    LessRoom(frame, env, objects, base, top, StackArgsEnd(f, base));
    ArgumentBounds(f, env, args, m, base + 16, top);
  }

  lemma FrameIsRight(f: Function, ops: seq<Ir.IrOp>, lastId: int, objects: map<string, nat>)
    requires TypeChecked(f, lastId, objects) && LoweredFrom(f, ops, lastId) && SeenWhole(f.params, ops)
    ensures FrameSound(FrameFor(f.params, ops, f.locals)) && Scalars(FrameFor(f.params, ops, f.locals))
  {
    hide TypeChecked, LoweredFrom, FrameSound, SlotSizes.WellShaped, SlotSizes.VarsSized, SizesAgree, SlotSizes.AllCode;
    var sizes := LoweredWell(f, ops, lastId, objects, false);
    FrameForSound(sizes, f.params, ops, f.locals);
    SlotSizes.SlotSizesExact(sizes, f.params, ops, f.locals);
    SlotsAreScalars(sizes, objects, FrameFor(f.params, ops, f.locals));
  }

  /** Bytes that have not changed are loaded alike. */
  lemma {:induction false} LoadAlike(mem: Bytes, mem': Bytes, a: int, n: nat)
    requires forall b: int :: a <= b < a + n ==> ByteAt(mem', b) == ByteAt(mem, b)
    ensures LoadBytes(mem', a, n) == LoadBytes(mem, a, n)
    decreases n
  {
    if n > 0 {
      LoadAlike(mem, mem', a + 1, n - 1);
    }
  }

  lemma FrameKept(f: Frame, env: Env, objects: map<string, nat>, base: nat, top: nat, mem: Bytes, mem': Bytes)
    requires RoomFor(f, env, objects, base, top) && base + 16 <= top && OthersKept(f, env, objects, base, mem, mem')
    ensures LoadBytes(mem', base, 8) == LoadBytes(mem, base, 8) && LoadBytes(mem', base + 8, 8) == LoadBytes(mem, base + 8, 8)
  {
    hide Reserved, ByteAt, LoadBytes;
    forall b: int | base <= b < base + 16 ensures ByteAt(mem', b) == ByteAt(mem, b) {
      assert !InObjects(env, objects, b);
    }
    LoadAlike(mem, mem', base, 8);
    LoadAlike(mem, mem', base + 8, 8);
  }

  lemma ComesBack(f: Function, ops: seq<Ir.IrOp>, env: Env, objects: map<string, nat>, args: seq<Arg>, result: Option<Arg>, returnTo: nat,
                  s: CSemantics.Store, m: Machine, entered: Machine, s': CSemantics.Store, out: Outcome, d: Run)
    requires CanCall(f, ops, env, objects, args, s, m) && CanFetch(f, result)
    requires FrameAt(entered, BaseOf(args, m), returnTo, Reg64(m, RBP))
    requires ChangedIn(m.mem, entered.mem, BaseOf(args, m), Reg64(m, RSP)) && Ends(f, ops, env, objects, entered, s', out, d)
    ensures BackAgain(objects, env, args, result, returnTo, m, s', out, d)
  {
    hide RoomFor, LoadBytes, Stored, FrameFor, AllSteady, LayoutOf, SameClasses, Displacement, ExecAll, FixAll, Straight, ByteAt, InObjects, SameRegs,
      ResultRight, OthersKept, CanFetch, FetchResult, Received, ObjectsHold, CallerKept, InResult;
    var base, top := BaseOf(args, m), Reg64(m, RSP);
    FrameKept(FrameFor(f.params, ops, f.locals), env, objects, base, top, entered.mem, d.m.mem);
    var back := StackComesBack(env, args, returnTo, m, d.m);
    var fetched := ResultFetched(f, env, result, out, m, d.m, back);
    ExecJoin(env, AdjustBy(AddOp, Displacement(args)), FetchResult(result), Leave(d.m).1);
    AdjustStraight(AddOp, Displacement(args));
    StraightJoin(AdjustBy(AddOp, Displacement(args)), FetchResult(result));
    SameAsItself(Leave(d.m).1);
    var r := StraightSim(env, AdjustBy(AddOp, Displacement(args)) + FetchResult(result), Leave(d.m).1, Leave(d.m).1, fetched);
    PointersKept(fetched, r);
    ObjectsFromWorld(f, ops, env, objects, result, base, m, s', d.m.mem, fetched.mem);
    CallerMemory(FrameFor(f.params, ops, f.locals), env, objects, result, base, m, entered.mem, d.m.mem, fetched.mem);
  }

  lemma PointersKept(m: Machine, r: Machine)
    requires SameBut(m, r, SCRATCH)
    ensures Reg64(r, RSP) == Reg64(m, RSP) && Reg64(r, RBP) == Reg64(m, RBP) && r.mem == m.mem
  {
    hide Reg64;
  }

  /** Memory that differs at most where the result goes. */
  ghost predicate OnlyResult(env: Env, result: Option<Arg>, m: Machine, mem: Bytes, mem': Bytes) {
    forall b: int :: !InResult(env, result, m, b) ==> ByteAt(mem', b) == ByteAt(mem, b)
  }

  /** The last instruction of a call moves the result to its place. */
  lemma ResultFetched(f: Function, env: Env, result: Option<Arg>, out: Outcome, m: Machine, left: Machine, back: Machine) returns (m': Machine)
    requires CanFetch(f, result) && ResultRight(f, out, left) && SameRegs(left, back, {RSP, RBP})
    requires back.mem == left.mem && Reg64(back, RBP) == Reg64(m, RBP)
    ensures Straight(FetchResult(result)) && ExecAll(env, FetchResult(result), back) == Some(m')
    ensures Reg64(m', RSP) == Reg64(back, RSP) && Reg64(m', RBP) == Reg64(back, RBP)
    ensures Received(env, result, out, m, m'.mem) && OnlyResult(env, result, m, left.mem, m'.mem)
  {
    if result.None? {
      NothingStraight();
      m' := back;
    } else {
      m' := MoveToPlace(f, env, result.value, m, left, back);
      ValueReceived(f, env, result.value, out, m, left, m'.mem);
    }
  }

  lemma MoveToPlace(f: Function, env: Env, d: Arg, m: Machine, left: Machine, back: Machine) returns (m': Machine)
    requires CanFetch(f, Some(d)) && SameRegs(left, back, {RSP, RBP})
    requires back.mem == left.mem && Reg64(back, RBP) == Reg64(m, RBP)
    ensures Straight(FetchResult(Some(d))) && ExecAll(env, FetchResult(Some(d)), back) == Some(m') && m' == back.(mem := m'.mem)
    ensures m'.mem == StoreBytes(left.mem, ResultAt(env, d, m), Reg64(left, AX) % d.place.word.Mod(), d.place.word.Bytes())
  {
    hide Reg64, StoreBytes, Word.Mod, Straight, ExecAll, Modulus;
    var w := d.place.word;
    var op := MoveOf(Operand(Register(AX), w), d.place);
    assert AX !in {RSP, RBP};
    m' := back.(mem := StoreBytes(back.mem, ResultAt(env, d, m), Reg64(back, AX) % w.Mod(), w.Bytes()));
    OneInstruction(env, op, back, m');
    MoveStraight(Operand(Register(AX), w), d.place);
  }

  lemma ValueReceived(f: Function, env: Env, d: Arg, out: Outcome, m: Machine, left: Machine, mem: Bytes)
    requires CanFetch(f, Some(d)) && ResultRight(f, out, left)
    requires mem == StoreBytes(left.mem, ResultAt(env, d, m), Reg64(left, AX) % d.place.word.Mod(), d.place.word.Bytes())
    ensures Received(env, Some(d), out, m, mem) && OnlyResult(env, Some(d), m, left.mem, mem)
  {
    var w, a := d.place.word, ResultAt(env, d, m);
    var ax := Reg64(left, AX) % w.Mod();
    hide Reg64, ResultAt, ResultRight, Word.Mod, StoreBytes, ByteAt;
    LoadStored(left.mem, a, ax, w.Bytes());
    WordPower(w);
    SmallMod(ax, w.Mod());
    ResultValue(f, out, left, w);
    forall b: int | !InResult(env, Some(d), m, b) ensures ByteAt(mem, b) == ByteAt(left.mem, b) {
      StoreFrame(left.mem, a, ax, w.Bytes(), b);
    }
  }

  /** A double comes back in xmm0, and goes to its place from there. */
  lemma DoubleFetched(env: Env, d: Arg, m: Machine) returns (m': Machine)
    requires d.floating && d.place.word.W64? && (d.place.kind.Data? || d.place.kind.Memory?)
    ensures ExecAll(env, FetchResult(Some(d)), m) == Some(m') && m' == m.(mem := m'.mem)
    ensures LoadBytes(m'.mem, ResultAt(env, d, m), 8) == Reg64(m, Xmm(0)) && OnlyResult(env, Some(d), m, m.mem, m'.mem)
  {
    hide Reg64, StoreBytes, Word.Mod, ExecAll, Modulus, ByteAt;
    var x, a := Reg64(m, Xmm(0)), ResultAt(env, d, m);
    m' := m.(mem := StoreBytes(m.mem, a, x, 8));
    SmallMod(x, W64.Mod());
    OneInstruction(env, MoveOf(Operand(Register(Xmm(0)), W64), d.place), m, m');
    WordPower(W64);
    LoadStored(m.mem, a, x, 8);
    forall b: int | !InResult(env, Some(d), m, b) ensures ByteAt(m'.mem, b) == ByteAt(m.mem, b) {
      StoreFrame(m.mem, a, x, 8, b);
    }
  }

  lemma OneInstruction(env: Env, op: AsmOp, m: Machine, m': Machine)
    requires Exec(env, op, m) == Some(m')
    ensures ExecAll(env, [op], m) == Some(m')
  {
    hide Exec;
    assert ExecAll(env, [op][1..], m') == Some(m');
  }

  lemma ResultValue(f: Function, out: Outcome, m: Machine, w: Word)
    requires ResultRight(f, out, m) && f.returnType.Some? && w == WordOf(f.returnType.value)
    ensures if out.Returned? then out.v.Some? && Reg64(m, AX) % w.Mod() == out.v.value.bits else Reg64(m, AX) % w.Mod() % 256 == 0
  {
    hide Reg64, Word.Mod;
    ModMod(Reg64(m, AX), w, W8);
    assert W8.Mod() == 256 by { SmallestWord(); }
  }

  lemma SmallestWord()
    ensures W8.Mod() == 256
  {
  }

  lemma ObjectsFromWorld(f: Function, ops: seq<Ir.IrOp>, env: Env, objects: map<string, nat>, result: Option<Arg>, rbp: nat, m: Machine,
                         s: CSemantics.Store, mem: Bytes, mem': Bytes)
    requires Stored(WorldAt(f, ops, env, objects, rbp).layout, s, mem) && OnlyResult(env, result, m, mem, mem')
    ensures ObjectsHold(objects, env, result, m, s, mem')
  {
    hide FrameFor, LoadBytes, ByteAt, InResult;
    forall n | n in objects && Loc.Data(n) in s
               && (forall b: int :: env.symbols(n) <= b < env.symbols(n) + objects[n] ==> !InResult(env, result, m, b))
      ensures LoadBytes(mem', env.symbols(n), objects[n]) == s[Loc.Data(n)]
    {
      LoadAlike(mem, mem', env.symbols(n), objects[n]);
    }
  }

  lemma CallerMemory(f: Frame, env: Env, objects: map<string, nat>, result: Option<Arg>, base: nat, m: Machine, mem1: Bytes, mem2: Bytes,
                     mem3: Bytes)
    requires ChangedIn(m.mem, mem1, base, Reg64(m, RSP)) && OthersKept(f, env, objects, base, mem1, mem2) && base <= Reg64(m, RSP)
    requires OnlyResult(env, result, m, mem2, mem3)
    ensures CallerKept(objects, env, result, m, mem3)
  {
    hide Reserved, ByteAt, InObjects, Reg64, InResult;
  }
}
