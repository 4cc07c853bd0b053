/** What a call does to the machine: every argument arrives in the slot of its
    parameter, and the stack pointer comes back. */
module CallMeaning {
  import opened Wrappers
  import opened Asm
  import opened ModularArithmetic
  import opened MachineFacts
  import opened MemoryMap
  import opened Fixups
  import opened FixupLists
  import opened StackFrame
  import opened FixupMeaning
  import opened CallingSequence

  lemma ExecSingle(env: Env, p: AsmOp, m: Machine)
    ensures ExecAll(env, [p], m) == Exec(env, p, m)
  {
    hide Exec;
    assert [p][1..] == [];
    if Exec(env, p, m).Some? {
      assert ExecAll(env, [], Exec(env, p, m).value) == Some(Exec(env, p, m).value);
    }
  }

  // -------------------------------------------------------------------- memory

  /** Only bytes in a range have changed. */
  ghost predicate ChangedIn(mem: Bytes, mem': Bytes, low: int, high: int) {
    forall b: int :: b < low || high <= b ==> ByteAt(mem', b) == ByteAt(mem, b)
  }

  lemma {:induction false} LoadUnchanged(mem: Bytes, mem': Bytes, low: int, high: int, a: int, n: nat)
    requires ChangedIn(mem, mem', low, high) && (a + n <= low || high <= a)
    ensures LoadBytes(mem', a, n) == LoadBytes(mem, a, n)
    decreases n
  {
    if n > 0 {
      LoadUnchanged(mem, mem', low, high, a + 1, n - 1);
    }
  }

  lemma StoreChanges(mem: Bytes, a: int, v: nat, n: nat, low: int, high: int)
    requires low <= a && a + n <= high
    ensures ChangedIn(mem, StoreBytes(mem, a, v, n), low, high)
  {
    forall b: int | b < low || high <= b ensures ByteAt(StoreBytes(mem, a, v, n), b) == ByteAt(mem, b) {
      StoreFrame(mem, a, v, n, b);
    }
  }

  lemma LoadStoredWord(mem: Bytes, a: int, v: nat, w: Word)
    ensures LoadBytes(StoreBytes(mem, a, v, w.Bytes()), a, w.Bytes()) == v % w.Mod()
  {
    LoadStored(mem, a, v, w.Bytes());
    WordPower(w);
  }

  // ---------------------------------------------------------- argument values

  /** An operand that a call can read before, during and after its pushes: a
      constant, or an object that lies outside the range they write. */
  ghost predicate Steady(env: Env, a: Operand, m: Machine, low: int, high: int) {
    || a.kind.Immediate? || a.kind.DoubleConst?
    || (((a.kind.Memory? && a.kind.base == RBP) || a.kind.Data?)
        && var p := Address(env, a.kind, m).value;
           p + a.word.Bytes() <= low || high <= p)
  }

  ghost predicate AllSteady(env: Env, args: seq<Arg>, m: Machine, low: int, high: int) {
    forall i :: 0 <= i < |args| ==> Steady(env, args[i].place, m, low, high)
  }

  function ValueOf(env: Env, a: Operand, m: Machine): nat {
    var r := ReadOp(env, a.kind, a.word, m);
    if r.Some? then r.value else 0
  }

  lemma SteadyReads(env: Env, a: Operand, m: Machine, low: int, high: int)
    requires Steady(env, a, m, low, high)
    ensures ReadOp(env, a.kind, a.word, m) == Some(ValueOf(env, a, m)) && Uses(a.kind) <= {RBP}
    ensures ValueOf(env, a, m) < a.word.Mod()
  {
    hide LoadBytes;
    ReadBound(env, a.kind, a.word, m);
  }

  /** A step that keeps rbp and writes only in the range keeps a steady operand. */
  lemma SteadyStays(env: Env, a: Operand, m: Machine, m': Machine, low: int, high: int)
    requires Steady(env, a, m, low, high)
    requires Reg64(m, RBP) == Reg64(m', RBP) && ChangedIn(m.mem, m'.mem, low, high)
    ensures Steady(env, a, m', low, high) && ValueOf(env, a, m') == ValueOf(env, a, m)
  {
    hide LoadBytes, ChangedIn;
    assert Address(env, a.kind, m) == Address(env, a.kind, m');
    if !a.kind.Immediate? && !a.kind.DoubleConst? {
      LoadUnchanged(m.mem, m'.mem, low, high, Address(env, a.kind, m).value, a.word.Bytes());
    }
  }

  // ------------------------------------------------------------ register moves

  const ARGUMENT_REGISTERS: set<Reg> := {DI, SI, DX, CX, R8, R9, Xmm(0), Xmm(1), Xmm(2), Xmm(3), Xmm(4), Xmm(5), Xmm(6), Xmm(7)}

  lemma ArgRegisterListed(f: bool, k: nat)
    requires k < Limit(f)
    ensures ArgRegister(f, k) in ARGUMENT_REGISTERS
  {
  }

  lemma HomeListed(args: seq<Arg>, i: nat)
    requires i < |args| && HomeOf(args, i).InRegister?
    ensures HomeOf(args, i).reg in ARGUMENT_REGISTERS
  {
    ArgRegisterListed(args[i].floating, Earlier(args, i, args[i].floating));
  }

  /** The register of an argument holds its value. */
  ghost predicate InItsRegister(args: seq<Arg>, i: nat, v: nat, m: Machine)
    requires i < |args|
  {
    HomeOf(args, i).InRegister? ==> Reg64(m, HomeOf(args, i).reg) % args[i].place.word.Mod() == v
  }

  lemma {:induction false} MovesRun(env: Env, args: seq<Arg>, n: nat, m: Machine, low: int, high: int) returns (m': Machine)
    requires n <= |args| && AllSteady(env, args, m, low, high)
    ensures ExecAll(env, RegisterMoves(args, n), m) == Some(m')
    ensures SameBut(m, m', ARGUMENT_REGISTERS)
    ensures forall i :: 0 <= i < n ==> InItsRegister(args, i, ValueOf(env, args[i].place, m), m')
    decreases n
  {
    hide ExecAll, Exec, HomeOf, ReadOp, ChangedIn, Steady, ValueOf;
    if n == 0 {
      m' := m;
      assert ExecAll(env, [], m) == Some(m) by { ExecNone(env, m); }
      return;
    }
    var m1 := MovesRun(env, args, n - 1, m, low, high);
    ExecJoin(env, RegisterMoves(args, n - 1), IntoRegister(args, n - 1), m);
    m' := OneMove(env, args, n - 1, m, m1, low, high);
    forall i | 0 <= i < n ensures InItsRegister(args, i, ValueOf(env, args[i].place, m), m') {
      if i < n - 1 && HomeOf(args, i).InRegister? {
        HomesDiffer(args, i, n - 1);
      }
    }
  }

  lemma ExecNone(env: Env, m: Machine)
    ensures ExecAll(env, [], m) == Some(m)
  {
  }

  lemma OneMove(env: Env, args: seq<Arg>, i: nat, m: Machine, m1: Machine, low: int, high: int) returns (m': Machine)
    requires i < |args| && AllSteady(env, args, m, low, high) && SameBut(m, m1, ARGUMENT_REGISTERS)
    ensures ExecAll(env, IntoRegister(args, i), m1) == Some(m')
    ensures SameBut(m, m', ARGUMENT_REGISTERS)
    ensures InItsRegister(args, i, ValueOf(env, args[i].place, m), m')
    ensures forall r :: !(HomeOf(args, i).InRegister? && r == HomeOf(args, i).reg) ==> Reg64(m', r) == Reg64(m1, r)
  {
    hide Exec, HomeOf, ReadOp;
    var a := args[i].place;
    match HomeOf(args, i)
    case OnStack(_) =>
      m' := m1;
      ExecNone(env, m);
    case InRegister(r) =>
      HomeListed(args, i);
      SteadyReads(env, a, m, low, high);
      ReadFrame(env, a.kind, a.word, m, m1, ARGUMENT_REGISTERS);
      var x;
      x, m' := LoadEffect(env, a, r, a.word, m1);
      ExecSingle(env, MoveOf(a, Operand(Register(r), a.word)), m1);
      SmallMod(x, a.word.Mod());
      WrittenReg(m1, r, a.word, x, a.word);
  }

  // ------------------------------------------------------------------- pushes

  const PUSHING: set<Reg> := {AX, RSP}

  lemma PushEffect(env: Env, a: Operand, v: nat, m: Machine) returns (m': Machine)
    requires ReadOp(env, a.kind, W64, m) == Some(v) && Reg64(m, RSP) >= 8
    ensures Exec(env, AsmOp(Push, a, NONE), m) == Some(m')
    ensures Reg64(m', RSP) == Reg64(m, RSP) - 8 && SameRegs(m, m', {RSP})
    ensures m'.mem == StoreBytes(m.mem, Reg64(m, RSP) - 8, v, 8)
  {
    hide StoreBytes, LoadBytes;
    var s := Reg64(m, RSP) - 8;
    SmallMod(s, W64.Mod());
    ExecIsApply(env, AsmOp(Push, a, NONE), m);
    var m1 := WriteReg(m, RSP, W64, s);
    WrittenWide(m, RSP, W64, s);
    assert Address(env, Memory(0, RSP), m1) == Some(s);
    m' := m1.(mem := StoreBytes(m.mem, s, v, 8));
  }

  /** One argument is pushed. */
  lemma OnePush(env: Env, a: Arg, m: Machine, low: int, high: int) returns (m': Machine)
    requires Steady(env, a.place, m, low, high) && low <= Reg64(m, RSP) - 8 && Reg64(m, RSP) <= high && 0 <= low
    ensures ExecAll(env, PushOf(a), m) == Some(m')
    ensures Reg64(m', RSP) == Reg64(m, RSP) - 8 && SameRegs(m, m', PUSHING)
    ensures LoadBytes(m'.mem, Reg64(m', RSP), a.place.word.Bytes()) == ValueOf(env, a.place, m)
    ensures ChangedIn(m.mem, m'.mem, Reg64(m', RSP), Reg64(m, RSP))
  {
    hide Exec, ExecAll, Steady, StoreBytes, LoadBytes, ChangedIn, ReadOp;
    var w := a.place.word;
    SteadyReads(env, a.place, m, low, high);
    var v;
    if IsConstant(a) || w.W64? {
      ReadsAtAnyWidth(env, a.place.kind, w, W64, m);
      v := ReadOp(env, a.place.kind, W64, m).value;
      NarrowRead(env, a.place.kind, W64, w, m);
      ExecSingle(env, AsmOp(Push, a.place, NONE), m);
      m' := PushEffect(env, a.place, v, m);
    } else {
      var x, m1 := LoadEffect(env, a.place, AX, w, m);
      v := RegisterRead(env, m1, w, x, a.place, m);
      assert Reg64(m1, RSP) == Reg64(m, RSP);
      m' := PushEffect(env, Operand(Register(AX), W64), v, m1);
      ExecTwo(env, MoveOf(a.place, Operand(Register(AX), w)), AsmOp(Push, Operand(Register(AX), W64), NONE), m, m1, m');
    }
    StoreNarrowRead(m.mem, Reg64(m', RSP), v, w);
    StoreChanges(m.mem, Reg64(m', RSP), v, 8, Reg64(m', RSP), Reg64(m, RSP));
  }

  lemma RegisterRead(env: Env, m1: Machine, w: Word, x: nat, a: Operand, m: Machine) returns (v: nat)
    requires ReadOp(env, Register(AX), w, m1) == ReadOp(env, a.kind, w, m) == Some(x)
    ensures ReadOp(env, Register(AX), W64, m1) == Some(v) && v % w.Mod() == x
  {
    v := Reg64(m1, AX);
    ModMod(v, W64, w);
    SmallMod(v, W64.Mod());
  }

  /** The low bytes of eight stored bytes. */
  lemma StoreNarrowRead(mem: Bytes, a: int, v: nat, w: Word)
    ensures LoadBytes(StoreBytes(mem, a, v, 8), a, w.Bytes()) == v % w.Mod()
  {
    hide StoreBytes, LoadBytes;
    LoadNarrow(StoreBytes(mem, a, v, 8), a, w.Bytes(), 8);
    LoadStored(mem, a, v, 8);
    WordPower(w);
    WordPower(W64);
    ModMod(v, W64, w);
  }

  /** The stack arguments in memory, eight bytes apart. */
  ghost predicate OnTheStack(s: seq<Arg>, values: seq<nat>, mem: Bytes, at: int)
    requires |s| == |values|
  {
    forall p :: 0 <= p < |s| ==> LoadBytes(mem, at + 8 * p, s[p].place.word.Bytes()) == values[p]
  }

  function ValuesOf(env: Env, s: seq<Arg>, m: Machine): (v: seq<nat>)
    ensures |v| == |s|
  {
    seq(|s|, i requires 0 <= i < |s| => ValueOf(env, s[i].place, m))
  }

  lemma {:induction false} PushesRun(env: Env, s: seq<Arg>, m: Machine, low: int, high: int) returns (m': Machine)
    requires AllSteady(env, s, m, low, high)
    requires 0 <= low <= Reg64(m, RSP) - 8 * |s| && Reg64(m, RSP) <= high
    ensures ExecAll(env, PushesOf(s), m) == Some(m')
    ensures Reg64(m', RSP) == Reg64(m, RSP) - 8 * |s| && SameRegs(m, m', PUSHING)
    ensures OnTheStack(s, ValuesOf(env, s, m), m'.mem, Reg64(m', RSP))
    ensures ChangedIn(m.mem, m'.mem, Reg64(m', RSP), Reg64(m, RSP))
    decreases |s|
  {
    hide Exec, ExecAll, Steady, LoadBytes, ReadOp, PushOf, ValueOf;
    if s == [] {
      m' := m;
      ExecNone(env, m);
      return;
    }
    var k := |s| - 1;
    var top := s[k];
    var m1 := OnePush(env, top, m, low, high);
    ExecJoin(env, PushOf(top), PushesOf(s[..k]), m);
    ChangedWider(m.mem, m1.mem, Reg64(m1, RSP), Reg64(m, RSP), low, high);
    forall i | 0 <= i < k ensures Steady(env, s[i].place, m1, low, high) && ValueOf(env, s[i].place, m1) == ValueOf(env, s[i].place, m) {
      SteadyStays(env, s[i].place, m, m1, low, high);
    }
    m' := PushesRun(env, s[..k], m1, low, high);
    var at := Reg64(m', RSP);
    assert at + 8 * k == Reg64(m1, RSP);
    LoadUnchanged(m1.mem, m'.mem, at, at + 8 * k, at + 8 * k, top.place.word.Bytes());
    StackExtended(env, s, m, m1, m'.mem, at);
  }

  lemma ChangedWider(mem: Bytes, mem': Bytes, low: int, high: int, low': int, high': int)
    requires ChangedIn(mem, mem', low, high) && low' <= low && high <= high'
    ensures ChangedIn(mem, mem', low', high')
  {
  }

  lemma StackExtended(env: Env, s: seq<Arg>, m: Machine, m1: Machine, mem: Bytes, at: int)
    requires s != []
    requires forall i :: 0 <= i < |s| - 1 ==> ValueOf(env, s[i].place, m1) == ValueOf(env, s[i].place, m)
    requires OnTheStack(s[..|s| - 1], ValuesOf(env, s[..|s| - 1], m1), mem, at)
    requires LoadBytes(mem, at + 8 * (|s| - 1), s[|s| - 1].place.word.Bytes()) == ValueOf(env, s[|s| - 1].place, m)
    ensures OnTheStack(s, ValuesOf(env, s, m), mem, at)
  {
    hide LoadBytes, ValueOf;
    var k := |s| - 1;
    forall p | 0 <= p < |s| ensures LoadBytes(mem, at + 8 * p, s[p].place.word.Bytes()) == ValuesOf(env, s, m)[p] {
      if p < k {
        assert s[..k][p] == s[p];
      }
    }
  }

  // ------------------------------------------------------- the stack pointer

  lemma AdjustEffect(env: Env, o: ArithOp, bytes: nat, m: Machine) returns (m': Machine)
    requires o.AddOp? || o.SubOp?
    requires bytes < W64.Mod()
    requires if o.SubOp? then bytes <= Reg64(m, RSP) else Reg64(m, RSP) + bytes < W64.Mod()
    ensures ExecAll(env, AdjustBy(o, bytes), m) == Some(m')
    ensures Reg64(m', RSP) == if o.SubOp? then Reg64(m, RSP) - bytes else Reg64(m, RSP) + bytes
    ensures SameBut(m, m', {RSP})
  {
    if bytes == 0 {
      m' := m;
      ExecNone(env, m);
    } else {
      hide Reg64;
      var op, x := Adjust(o, bytes), Reg64(m, RSP);
      SmallMod(bytes, W64.Mod());
      SmallMod(x, W64.Mod());
      CombineEffect(env, op, x, bytes, m);
      var v := ArithValue(o, W64, x, bytes);
      SmallMod(if o.SubOp? then x - bytes else x + bytes, W64.Mod());
      m' := WriteReg(NoFlags(m), RSP, W64, v);
      WrittenWide(NoFlags(m), RSP, W64, v);
      WriteRegFrame(NoFlags(m), RSP, W64, v);
      assert SameBut(m, NoFlags(m), {RSP}) by { NoFlagsSame(m); }
      SameButTrans(m, NoFlags(m), m', {RSP});
      ExecSingle(env, op, m);
    }
  }

  lemma NoFlagsSame(m: Machine)
    ensures SameBut(m, NoFlags(m), {RSP})
  {
  }

  // ------------------------------------------------------------- the caller's part

  /** The arguments are where the callee looks for them; the stack arguments start
      at an address. */
  ghost predicate Passed(args: seq<Arg>, values: seq<nat>, m: Machine, at: int)
    requires |args| == |values|
  {
    forall i :: 0 <= i < |args| ==> PassedOne(args, i, values[i], m, at)
  }

  ghost predicate PassedOne(args: seq<Arg>, i: nat, v: nat, m: Machine, at: int)
    requires i < |args|
  {
    match HomeOf(args, i)
    case InRegister(r) => Reg64(m, r) % args[i].place.word.Mod() == v
    case OnStack(k) => LoadBytes(m.mem, at + 8 * k, args[i].place.word.Bytes()) == v
  }

  const CALLER_WRITES: set<Reg> := ARGUMENT_REGISTERS + PUSHING

  /** The instructions before a call. */
  lemma PrepareRuns(env: Env, args: seq<Arg>, m: Machine) returns (m': Machine)
    requires Displacement(args) <= Reg64(m, RSP)
    requires AllSteady(env, args, m, Reg64(m, RSP) - Displacement(args), Reg64(m, RSP))
    ensures ExecAll(env, Prepare(args), m) == Some(m')
    ensures Reg64(m', RSP) == Reg64(m, RSP) - Displacement(args) && SameRegs(m, m', CALLER_WRITES)
    ensures Passed(args, ValuesOf(env, args, m), m', Reg64(m', RSP))
    ensures ChangedIn(m.mem, m'.mem, Reg64(m', RSP), Reg64(m, RSP))
  {
    hide ExecAll, Exec, Steady, ValueOf, HomeOf, PushesOf, RegisterMoves;
    var top, low := Reg64(m, RSP), Reg64(m, RSP) - Displacement(args);
    var n, s := |args|, StackArgs(args, |args|);
    var pad := AdjustBy(SubOp, Padding(n));
    assert Displacement(args) == 8 * |s| + Padding(n);
    var m1 := AdjustEffect(env, SubOp, Padding(n), m);
    SteadyAll(env, args, m, m1, low, top);
    var m2 := MovesRun(env, args, n, m1, low, top);
    assert Reg64(m2, RSP) == top - Padding(n);
    SteadyAll(env, args, m1, m2, low, top);
    StackArgsSteady(env, args, n, m2, low, top);
    m' := PushesRun(env, s, m2, low, top);
    ExecJoin(env, pad, RegisterMoves(args, n), m);
    ExecJoin(env, pad + RegisterMoves(args, n), PushesOf(s), m);
    assert SameRegs(m, m', CALLER_WRITES) by {
      SameRegsChain(m, m1, m2, m');
    }
    ChangedWider(m2.mem, m'.mem, Reg64(m', RSP), Reg64(m2, RSP), Reg64(m', RSP), top);
    forall i | 0 <= i < n ensures PassedOne(args, i, ValuesOf(env, args, m)[i], m', Reg64(m', RSP)) {
      assert InItsRegister(args, i, ValueOf(env, args[i].place, m1), m2);
      PassedAfterPushes(env, args, i, m, m2, m');
    }
  }

  lemma SameRegsChain(m: Machine, m1: Machine, m2: Machine, m': Machine)
    requires SameRegs(m, m1, {RSP}) && SameRegs(m1, m2, ARGUMENT_REGISTERS) && SameRegs(m2, m', PUSHING)
    ensures SameRegs(m, m', CALLER_WRITES)
  {
    forall r | r !in CALLER_WRITES ensures Reg64(m, r) == Reg64(m', r) {
      assert r !in {RSP};
    }
  }

  lemma PassedAfterPushes(env: Env, args: seq<Arg>, i: nat, m: Machine, m2: Machine, m': Machine)
    requires i < |args| && InItsRegister(args, i, ValueOf(env, args[i].place, m), m2) && SameRegs(m2, m', PUSHING)
    requires ValueOf(env, args[i].place, m2) == ValueOf(env, args[i].place, m)
    requires var s := StackArgs(args, |args|); OnTheStack(s, ValuesOf(env, s, m2), m'.mem, Reg64(m', RSP))
    ensures PassedOne(args, i, ValuesOf(env, args, m)[i], m', Reg64(m', RSP))
  {
    hide ValueOf, LoadBytes;
    if HomeOf(args, i).InRegister? {
      HomeListed(args, i);
    } else {
      StackArgAt(args, |args|, i);
    }
  }

  lemma SteadyAll(env: Env, args: seq<Arg>, m: Machine, m': Machine, low: int, high: int)
    requires AllSteady(env, args, m, low, high) && Reg64(m, RBP) == Reg64(m', RBP) && ChangedIn(m.mem, m'.mem, low, high)
    ensures AllSteady(env, args, m', low, high)
    ensures forall i :: 0 <= i < |args| ==> ValueOf(env, args[i].place, m') == ValueOf(env, args[i].place, m)
  {
    hide Steady, ValueOf, ChangedIn;
    forall i | 0 <= i < |args| ensures Steady(env, args[i].place, m', low, high) && ValueOf(env, args[i].place, m') == ValueOf(env, args[i].place, m) {
      SteadyStays(env, args[i].place, m, m', low, high);
    }
  }

  lemma {:induction false} StackArgsSteady(env: Env, args: seq<Arg>, n: nat, m: Machine, low: int, high: int)
    requires n <= |args| && AllSteady(env, args, m, low, high)
    ensures AllSteady(env, StackArgs(args, n), m, low, high)
    decreases n
  {
    hide Steady;
    if n > 0 {
      StackArgsSteady(env, args, n - 1, m, low, high);
    }
  }

  // ------------------------------------------------------------- the callee's part

  /** The call pushes the return address; the callee saves rbp and takes a new one. */
  function Enter(env: Env, returnTo: nat, m: Machine): Option<Machine> {
    var m1 :- PushValue(env, returnTo, m);
    var m2 :- PushValue(env, Reg64(m1, RBP), m1);
    Some(WriteReg(m2, RBP, W64, Reg64(m2, RSP)))
  }

  lemma PushedValue(env: Env, v: nat, m: Machine) returns (m': Machine)
    requires Reg64(m, RSP) >= 8
    ensures PushValue(env, v, m) == Some(m')
    ensures Reg64(m', RSP) == Reg64(m, RSP) - 8 && SameRegs(m, m', {RSP})
    ensures LoadBytes(m'.mem, Reg64(m', RSP), 8) == v % W64.Mod()
    ensures ChangedIn(m.mem, m'.mem, Reg64(m', RSP), Reg64(m, RSP))
  {
    hide StoreBytes, LoadBytes, ChangedIn;
    var s := Reg64(m, RSP) - 8;
    SmallMod(s, W64.Mod());
    var m1 := WriteReg(m, RSP, W64, s);
    WrittenWide(m, RSP, W64, s);
    assert Address(env, Memory(0, RSP), m1) == Some(s);
    m' := m1.(mem := StoreBytes(m.mem, s, v, 8));
    StoreNarrowRead(m.mem, s, v, W64);
    StoreChanges(m.mem, s, v, 8, s, s + 8);
  }

  lemma EnterEffect(env: Env, returnTo: nat, m: Machine) returns (m': Machine)
    requires Reg64(m, RSP) >= 16 && returnTo < W64.Mod()
    ensures Enter(env, returnTo, m) == Some(m')
    ensures Reg64(m', RBP) == Reg64(m', RSP) == Reg64(m, RSP) - 16 && SameRegs(m, m', {RSP, RBP})
    ensures LoadBytes(m'.mem, Reg64(m', RBP), 8) == Reg64(m, RBP)
    ensures LoadBytes(m'.mem, Reg64(m', RBP) + 8, 8) == returnTo
    ensures ChangedIn(m.mem, m'.mem, Reg64(m', RSP), Reg64(m, RSP))
  {
    hide PushValue, LoadBytes, ChangedIn;
    var m1 := PushedValue(env, returnTo, m);
    var m2 := PushedValue(env, Reg64(m1, RBP), m1);
    var b := Reg64(m2, RSP);
    m' := WriteReg(m2, RBP, W64, b);
    WrittenWide(m2, RBP, W64, b);
    SmallMod(b, W64.Mod());
    SmallMod(returnTo, W64.Mod());
    SmallMod(Reg64(m, RBP), W64.Mod());
    LoadUnchanged(m1.mem, m2.mem, b, b + 8, b + 8, 8);
    ChangedWider(m.mem, m1.mem, b + 8, b + 16, b, b + 16);
    ChangedWider(m1.mem, m2.mem, b, b + 8, b, b + 16);
    ChangedTwice(m.mem, m1.mem, m2.mem, b, b + 16);
  }

  lemma ChangedTwice(mem: Bytes, mem1: Bytes, mem2: Bytes, low: int, high: int)
    requires ChangedIn(mem, mem1, low, high) && ChangedIn(mem1, mem2, low, high)
    ensures ChangedIn(mem, mem2, low, high)
  {
  }

  /** The slot of a parameter in a frame of some bytes below rbp. */
  predicate IsSlot(p: Arg, bytes: nat) {
    p.place.kind.Memory? && p.place.kind.base == RBP && 0 - bytes <= p.place.kind.offset && p.place.kind.offset + p.place.word.Bytes() <= 0
  }

  predicate SlotsOfTwo(p: Arg, q: Arg)
    requires p.place.kind.Memory? && q.place.kind.Memory?
  {
    p.place.kind.offset + p.place.word.Bytes() <= q.place.kind.offset || q.place.kind.offset + q.place.word.Bytes() <= p.place.kind.offset
  }

  ghost predicate ParamSlots(params: seq<Arg>, bytes: nat) {
    && (forall i :: 0 <= i < |params| ==> IsSlot(params[i], bytes))
    && (forall i, j :: 0 <= i < j < |params| ==> SlotsOfTwo(params[i], params[j]))
  }

  /** The slot of a parameter holds a value. */
  predicate Arrived(p: Arg, v: nat, m: Machine)
    requires p.place.kind.Memory?
  {
    LoadBytes(m.mem, Reg64(m, RBP) + p.place.kind.offset, p.place.word.Bytes()) == v
  }

  lemma {:induction false} FetchRuns(env: Env, params: seq<Arg>, n: nat, values: seq<nat>, bytes: nat, m: Machine) returns (m': Machine)
    requires n <= |params| == |values| && ParamSlots(params, bytes) && bytes <= Reg64(m, RBP)
    requires Reg64(m, RBP) + 16 + 8 * Stacked(params, |params|) <= W64.Mod()
    requires Passed(params, values, m, Reg64(m, RBP) + 16)
    requires ArgumentsFit(values, params)
    ensures ExecAll(env, Fetch(params, n), m) == Some(m') && m'.regs == m.regs
    ensures ChangedIn(m.mem, m'.mem, Reg64(m, RBP) - bytes, Reg64(m, RBP))
    ensures forall i :: 0 <= i < n ==> IsSlot(params[i], bytes) && Arrived(params[i], values[i], m')
    decreases n
  {
    hide ExecAll, Exec, HomeOf, LoadBytes, StoreBytes, ChangedIn, Arrived, IsSlot, Passed, ParamSlots, ArgumentsFit;
    var b := Reg64(m, RBP);
    if n == 0 {
      m' := m;
      ExecNone(env, m);
      NothingChanged(m.mem, b - bytes, b);
    } else {
      var m1 := FetchRuns(env, params, n - 1, values, bytes, m);
      m' := NextFetch(env, params, n - 1, values, bytes, m, m1);
      var op := MoveOf(FetchFrom(HomeOf(params, n - 1), params[n - 1].place.word), params[n - 1].place);
      ExecJoin(env, Fetch(params, n - 1), [op], m);
      ExecSingle(env, op, m1);
    }
  }

  /** One more parameter is copied into its slot. */
  lemma NextFetch(env: Env, params: seq<Arg>, n: nat, values: seq<nat>, bytes: nat, m: Machine, m1: Machine) returns (m': Machine)
    requires n < |params| == |values| && ParamSlots(params, bytes) && bytes <= Reg64(m, RBP)
    requires Reg64(m, RBP) + 16 + 8 * Stacked(params, |params|) <= W64.Mod()
    requires Passed(params, values, m, Reg64(m, RBP) + 16) && ArgumentsFit(values, params)
    requires m1.regs == m.regs && ChangedIn(m.mem, m1.mem, Reg64(m, RBP) - bytes, Reg64(m, RBP))
    requires forall i :: 0 <= i < n ==> IsSlot(params[i], bytes) && Arrived(params[i], values[i], m1)
    ensures Exec(env, MoveOf(FetchFrom(HomeOf(params, n), params[n].place.word), params[n].place), m1) == Some(m') && m'.regs == m.regs
    ensures ChangedIn(m.mem, m'.mem, Reg64(m, RBP) - bytes, Reg64(m, RBP))
    ensures forall i :: 0 <= i <= n ==> IsSlot(params[i], bytes) && Arrived(params[i], values[i], m')
  {
    hide Exec, HomeOf, LoadBytes, StoreBytes, ChangedIn, PassedOne, FetchFrom;
    var b, p := Reg64(m, RBP), params[n];
    assert IsSlot(p, bytes);
    assert PassedOne(params, n, values[n], m, b + 16);
    m' := OneFetch(env, params, n, values[n], bytes, m, m1);
    var at := b + p.place.kind.offset;
    ChangedWider(m1.mem, m'.mem, at, at + p.place.word.Bytes(), b - bytes, b);
    ChangedTwice(m.mem, m1.mem, m'.mem, b - bytes, b);
    forall i | 0 <= i < n ensures Arrived(params[i], values[i], m') {
      assert IsSlot(params[i], bytes) && SlotsOfTwo(params[i], p);
      StillArrived(params[i], values[i], p, bytes, m1, m');
    }
  }

  lemma NothingChanged(mem: Bytes, low: int, high: int)
    ensures ChangedIn(mem, mem, low, high)
  {
  }

  lemma StillArrived(p: Arg, v: nat, q: Arg, bytes: nat, m: Machine, m': Machine)
    requires IsSlot(p, bytes) && IsSlot(q, bytes) && SlotsOfTwo(p, q) && Arrived(p, v, m) && m'.regs == m.regs
    requires var at := Reg64(m, RBP) + q.place.kind.offset; ChangedIn(m.mem, m'.mem, at, at + q.place.word.Bytes())
    ensures Arrived(p, v, m')
  {
    hide LoadBytes, ChangedIn;
    var b, at := Reg64(m, RBP), Reg64(m, RBP) + q.place.kind.offset;
    LoadUnchanged(m.mem, m'.mem, at, at + q.place.word.Bytes(), b + p.place.kind.offset, p.place.word.Bytes());
  }

  lemma OneFetch(env: Env, params: seq<Arg>, i: nat, v: nat, bytes: nat, m: Machine, m1: Machine) returns (m': Machine)
    requires i < |params| && IsSlot(params[i], bytes) && bytes <= Reg64(m, RBP) && m1.regs == m.regs
    requires Reg64(m, RBP) + 16 + 8 * Stacked(params, |params|) <= W64.Mod()
    requires PassedOne(params, i, v, m, Reg64(m, RBP) + 16) && v < params[i].place.word.Mod()
    requires ChangedIn(m.mem, m1.mem, Reg64(m, RBP) - bytes, Reg64(m, RBP))
    ensures var p := params[i].place;
            && Exec(env, MoveOf(FetchFrom(HomeOf(params, i), p.word), p), m1) == Some(m') && m'.regs == m.regs
            && ChangedIn(m1.mem, m'.mem, Reg64(m, RBP) + p.kind.offset, Reg64(m, RBP) + p.kind.offset + p.word.Bytes())
            && LoadBytes(m'.mem, Reg64(m, RBP) + p.kind.offset, p.word.Bytes()) == v
  {
    hide LoadBytes, StoreBytes, ChangedIn, Exec;
    var b, p := Reg64(m, RBP), params[i].place;
    var from := FetchFrom(HomeOf(params, i), p.word);
    assert Reg64(m1, RBP) == b;
    match HomeOf(params, i) {
      case InRegister(r) =>
        assert ReadOp(env, from.kind, p.word, m1) == Some(v);
      case OnStack(k) =>
        StackedGrows(params, i, |params|);
        SmallMod(b + 16 + 8 * k, W64.Mod());
        LoadUnchanged(m.mem, m1.mem, b - bytes, b, b + 16 + 8 * k, p.word.Bytes());
        assert ReadOp(env, from.kind, p.word, m1) == Some(v);
    }
    var at := b + p.kind.offset;
    MoveEffect(env, MoveOf(from, p), v, m1);
    SmallMod(at, W64.Mod());
    assert Address(env, p.kind, m1) == Some(at);
    m' := m1.(mem := StoreBytes(m1.mem, at, v, p.word.Bytes()));
    StoreChanges(m1.mem, at, v, p.word.Bytes(), at, at + p.word.Bytes());
    LoadStoredWord(m1.mem, at, v, p.word);
    SmallMod(v, p.word.Mod());
  }

  // ------------------------------------------------------------ before the repairs

  /** From the caller's first instruction to the callee's last copy; bytes is what
      the callee reserves for its frame. */
  function Calling(env: Env, args: seq<Arg>, params: seq<Arg>, returnTo: nat, bytes: nat, m: Machine): Option<Machine> {
    var m1 :- ExecAll(env, Prepare(args), m);
    var m2 :- Enter(env, returnTo, m1);
    ExecAll(env, AdjustBy(SubOp, bytes) + Fetch(params, |params|), m2)
  }

  /** The frame that the callee has set up. */
  ghost predicate FrameAt(m: Machine, base: nat, returnTo: nat, savedRbp: nat) {
    && Reg64(m, RBP) == base
    && LoadBytes(m.mem, base, 8) == savedRbp
    && LoadBytes(m.mem, base + 8, 8) == returnTo
  }

  lemma CallingRuns(env: Env, args: seq<Arg>, params: seq<Arg>, returnTo: nat, bytes: nat, m: Machine) returns (m': Machine)
    requires SameClasses(args, params) && ParamSlots(params, bytes) && returnTo < W64.Mod()
    requires Displacement(args) + 16 + bytes <= Reg64(m, RSP)
    requires AllSteady(env, args, m, Reg64(m, RSP) - Displacement(args), Reg64(m, RSP))
    ensures Calling(env, args, params, returnTo, bytes, m) == Some(m')
    ensures var base := Reg64(m, RSP) - Displacement(args) - 16;
            && FrameAt(m', base, returnTo, Reg64(m, RBP))
            && ChangedIn(m.mem, m'.mem, base - bytes, Reg64(m, RSP))
            && SameRegs(m, m', CALLER_WRITES + {RBP})
    ensures forall i :: 0 <= i < |args| ==> IsSlot(params[i], bytes) && Arrived(params[i], ValueOf(env, args[i].place, m), m')
  {
    hide ExecAll, Exec, AllSteady, HomeOf, Prepare, Fetch, LoadBytes, ChangedIn, Enter, SameRegs, Passed, ParamSlots, ArgumentsFit;
    hide Displacement, SameClasses, AdjustBy;
    var top, values := Reg64(m, RSP), ValuesOf(env, args, m);
    var base := top - Displacement(args) - 16;
    var m1 := PrepareRuns(env, args, m);
    var m2 := EnterEffect(env, returnTo, m1);
    SmallFrame(bytes, m);
    var m3 := AdjustEffect(env, SubOp, bytes, m2);
    RegistersSoFar(m, m1, m2, m3);
    PassedOn(args, params, values, m1, m2, m3, base + 16);
    StackSize(args, params);
    ValuesFit(env, args, params, m, top - Displacement(args), top);
    m' := FetchRuns(env, params, |params|, values, bytes, m3);
    ExecJoin(env, AdjustBy(SubOp, bytes), Fetch(params, |params|), m2);
    FrameStays(m2, m3, m', base, bytes, returnTo, Reg64(m, RBP));
    ChangedThree(m.mem, m1.mem, m2.mem, m'.mem, base, bytes, top);
    assert forall i :: 0 <= i < |args| ==> values[i] == ValueOf(env, args[i].place, m);
  }

  predicate ArgumentsFit(values: seq<nat>, params: seq<Arg>) {
    |values| == |params| && forall i :: 0 <= i < |params| ==> values[i] < params[i].place.word.Mod()
  }

  lemma RegistersSoFar(m: Machine, m1: Machine, m2: Machine, m3: Machine)
    requires SameRegs(m, m1, CALLER_WRITES) && SameRegs(m1, m2, {RSP, RBP}) && SameBut(m2, m3, {RSP})
    ensures Reg64(m1, RBP) == Reg64(m, RBP) && Reg64(m3, RBP) == Reg64(m2, RBP)
    ensures forall m': Machine :: m'.regs == m3.regs ==> SameRegs(m, m', CALLER_WRITES + {RBP}) && Reg64(m', RBP) == Reg64(m3, RBP)
  {
    forall m': Machine, r | m'.regs == m3.regs && r !in CALLER_WRITES + {RBP} ensures Reg64(m, r) == Reg64(m', r) {
      assert r !in {RSP, RBP} && r !in {RSP} && r !in CALLER_WRITES;
      assert Reg64(m', r) == Reg64(m3, r);
    }
  }

  lemma StackSize(args: seq<Arg>, params: seq<Arg>)
    requires SameClasses(args, params)
    ensures |args| == |params| && 8 * Stacked(params, |params|) <= Displacement(args)
  {
    HomesAgree(args, params, |args|);
  }

  lemma FrameStays(m2: Machine, m3: Machine, m': Machine, base: nat, bytes: nat, returnTo: nat, savedRbp: nat)
    requires FrameAt(m2, base, returnTo, savedRbp) && m3.mem == m2.mem && ChangedIn(m3.mem, m'.mem, base - bytes, base)
    requires Reg64(m', RBP) == base
    ensures FrameAt(m', base, returnTo, savedRbp)
  {
    hide ChangedIn, LoadBytes;
    LoadUnchanged(m3.mem, m'.mem, base - bytes, base, base, 8);
    LoadUnchanged(m3.mem, m'.mem, base - bytes, base, base + 8, 8);
  }

  lemma ChangedThree(mem: Bytes, mem1: Bytes, mem2: Bytes, mem': Bytes, base: int, bytes: nat, top: int)
    requires ChangedIn(mem, mem1, base + 16, top) && ChangedIn(mem1, mem2, base, base + 16) && ChangedIn(mem2, mem', base - bytes, base)
    requires base + 16 <= top
    ensures ChangedIn(mem, mem', base - bytes, top)
  {
  }

  lemma SmallFrame(bytes: nat, m: Machine)
    requires bytes <= Reg64(m, RSP)
    ensures bytes < W64.Mod()
  {
  }

  lemma ValuesFit(env: Env, args: seq<Arg>, params: seq<Arg>, m: Machine, low: int, high: int)
    requires SameClasses(args, params) && AllSteady(env, args, m, low, high)
    ensures ArgumentsFit(ValuesOf(env, args, m), params)
  {
    hide Steady, ValueOf;
    forall i | 0 <= i < |params| ensures ValuesOf(env, args, m)[i] < params[i].place.word.Mod() {
      SteadyReads(env, args[i].place, m, low, high);
    }
  }

  /** What the caller has passed is there when the callee has its frame. */
  lemma PassedOn(args: seq<Arg>, params: seq<Arg>, values: seq<nat>, m1: Machine, m2: Machine, m3: Machine, at: int)
    requires SameClasses(args, params) && |values| == |args| && Passed(args, values, m1, at)
    requires SameRegs(m1, m2, {RSP, RBP}) && SameBut(m2, m3, {RSP}) && ChangedIn(m1.mem, m2.mem, at - 16, at)
    ensures Passed(params, values, m3, at)
  {
    hide LoadBytes, ChangedIn, HomeOf;
    forall i | 0 <= i < |params| ensures PassedOne(params, i, values[i], m3, at) {
      HomesAgree(args, params, i);
      assert PassedOne(args, i, values[i], m1, at);
      match HomeOf(args, i)
      case InRegister(r) => HomeListed(args, i);
      case OnStack(k) => LoadUnchanged(m1.mem, m2.mem, at - 16, at, at + 8 * k, args[i].place.word.Bytes());
    }
  }

  // ----------------------------------------------------------- the emitted code

  /** The same way through the code as it is emitted. */
  function EmittedCalling(env: Env, args: seq<Arg>, params: seq<Arg>, returnTo: nat, bytes: nat, m: Machine): Option<Machine> {
    var m1 :- ExecAll(env, FixAll(Prepare(args)), m);
    var m2 :- Enter(env, returnTo, m1);
    ExecAll(env, FixAll(AdjustBy(SubOp, bytes) + Fetch(params, |params|)), m2)
  }

  /** An operand that the repairs leave alone. */
  predicate Unclaimed(k: Kind) {
    Uses(k) !! SCRATCH && !k.NoOperand?
  }

  lemma MoveStraight(a: Operand, b: Operand)
    requires Unclaimed(a.kind) && Unclaimed(b.kind) && (InMemory(a) && InMemory(b) ==> a.word == b.word)
    ensures Straight([MoveOf(a, b)])
  {
  }

  lemma PushStraight(a: Operand)
    requires Unclaimed(a.kind)
    ensures Straight([AsmOp(Push, a, NONE)])
  {
  }

  lemma AdjustStraight(o: ArithOp, bytes: nat)
    requires o.AddOp? || o.SubOp?
    ensures Straight(AdjustBy(o, bytes))
  {
  }

  lemma StraightJoin(a: seq<AsmOp>, b: seq<AsmOp>)
    requires Straight(a) && Straight(b)
    ensures Straight(a + b)
  {
  }

  /** Operands of arguments do not mention registers that the repairs use. */
  ghost predicate Unscratched(args: seq<Arg>) {
    forall i :: 0 <= i < |args| ==> Unclaimed(args[i].place.kind)
  }

  lemma {:induction false} MovesStraight(args: seq<Arg>, n: nat)
    requires n <= |args| && Unscratched(args)
    ensures Straight(RegisterMoves(args, n))
    decreases n
  {
    hide Straight, HomeOf;
    NothingStraight();
    if n > 0 {
      MovesStraight(args, n - 1);
      var w := args[n - 1].place.word;
      match HomeOf(args, n - 1) {
        case InRegister(r) =>
          HomeListed(args, n - 1);
          MoveStraight(args[n - 1].place, Operand(Register(r), w));
        case OnStack(_) =>
      }
      StraightJoin(RegisterMoves(args, n - 1), IntoRegister(args, n - 1));
    }
  }

  lemma NothingStraight()
    ensures Straight([])
  {
  }

  lemma {:induction false} PushesStraight(s: seq<Arg>)
    requires Unscratched(s)
    ensures Straight(PushesOf(s))
    decreases |s|
  {
    hide Straight;
    NothingStraight();
    if s != [] {
      var k := |s| - 1;
      PushesStraight(s[..k]);
      PushStraight(s[k].place);
      PushStraight(Operand(Register(AX), W64));
      MoveStraight(s[k].place, Operand(Register(AX), s[k].place.word));
      StraightJoin([MoveOf(s[k].place, Operand(Register(AX), s[k].place.word))], [AsmOp(Push, Operand(Register(AX), W64), NONE)]);
      StraightJoin(PushOf(s[k]), PushesOf(s[..k]));
    }
  }

  lemma {:induction false} StackArgsUnscratched(args: seq<Arg>, n: nat)
    requires n <= |args| && Unscratched(args)
    ensures Unscratched(StackArgs(args, n))
    decreases n
  {
    hide Unclaimed;
    if n > 0 {
      StackArgsUnscratched(args, n - 1);
    }
  }

  lemma PrepareStraight(args: seq<Arg>)
    requires Unscratched(args)
    ensures Straight(Prepare(args))
  {
    hide Straight, Unscratched;
    AdjustStraight(SubOp, Padding(|args|));
    MovesStraight(args, |args|);
    StackArgsUnscratched(args, |args|);
    PushesStraight(StackArgs(args, |args|));
    StraightJoin(AdjustBy(SubOp, Padding(|args|)), RegisterMoves(args, |args|));
    StraightJoin(AdjustBy(SubOp, Padding(|args|)) + RegisterMoves(args, |args|), PushesOf(StackArgs(args, |args|)));
  }

  lemma {:induction false} FetchStraight(params: seq<Arg>, n: nat)
    requires n <= |params| && Unscratched(params)
    ensures Straight(Fetch(params, n))
    decreases n
  {
    hide Straight, HomeOf;
    NothingStraight();
    if n > 0 {
      FetchStraight(params, n - 1);
      var p := params[n - 1].place;
      var from := FetchFrom(HomeOf(params, n - 1), p.word);
      if HomeOf(params, n - 1).InRegister? {
        HomeListed(params, n - 1);
      }
      MoveStraight(from, p);
      StraightJoin(Fetch(params, n - 1), [MoveOf(from, p)]);
    }
  }

  /** Entering a function keeps what two states agree on. */
  lemma EnterFrame(env: Env, returnTo: nat, s: Machine, t: Machine, s': Machine) returns (t': Machine)
    requires SameBut(s, t, SCRATCH) && Enter(env, returnTo, s) == Some(s')
    ensures Enter(env, returnTo, t) == Some(t') && SameBut(s', t', SCRATCH)
  {
    hide PushValue, Reg64;
    PushFrame(env, returnTo, s, t, SCRATCH);
    var s1, t1 := PushValue(env, returnTo, s).value, PushValue(env, returnTo, t).value;
    assert Reg64(s1, RBP) == Reg64(t1, RBP);
    PushFrame(env, Reg64(s1, RBP), s1, t1, SCRATCH);
    var s2, t2 := PushValue(env, Reg64(s1, RBP), s1).value, PushValue(env, Reg64(s1, RBP), t1).value;
    assert Reg64(s2, RSP) == Reg64(t2, RSP);
    t' := WriteReg(t2, RBP, W64, Reg64(t2, RSP));
    WriteRegFrame(s2, RBP, W64, Reg64(s2, RSP));
    WriteRegFrame(t2, RBP, W64, Reg64(t2, RSP));
    WrittenWide(s2, RBP, W64, Reg64(s2, RSP));
    WrittenWide(t2, RBP, W64, Reg64(t2, RSP));
    BothWritten(s2, t2, s', t');
  }

  lemma BothWritten(s: Machine, t: Machine, s': Machine, t': Machine)
    requires SameBut(s, t, SCRATCH) && SameBut(s, s', {RBP}) && SameBut(t, t', {RBP}) && Reg64(s', RBP) == Reg64(t', RBP)
    ensures SameBut(s', t', SCRATCH)
  {
    hide Reg64;
    forall r | r !in SCRATCH ensures Reg64(s', r) == Reg64(t', r) {
      assert r != RBP ==> r !in {RBP};
    }
  }

  lemma SteadyUnscratched(env: Env, args: seq<Arg>, params: seq<Arg>, m: Machine, low: int, high: int, bytes: nat)
    requires AllSteady(env, args, m, low, high) && ParamSlots(params, bytes)
    ensures Unscratched(args) && Unscratched(params)
  {
    forall i | 0 <= i < |args| ensures Unclaimed(args[i].place.kind) {
      assert Steady(env, args[i].place, m, low, high);
    }
    forall i | 0 <= i < |params| ensures Unclaimed(params[i].place.kind) {
      assert IsSlot(params[i], bytes);
    }
  }

  /** Every argument arrives in the slot of its parameter, whatever the number and
      classes of the arguments, through the code as it is emitted; only stack below
      the caller's stack pointer is written. */
  lemma ArgumentsArrive(env: Env, args: seq<Arg>, params: seq<Arg>, returnTo: nat, bytes: nat, m: Machine) returns (m': Machine)
    requires SameClasses(args, params) && ParamSlots(params, bytes) && returnTo < W64.Mod()
    requires Displacement(args) + 16 + bytes <= Reg64(m, RSP)
    requires AllSteady(env, args, m, Reg64(m, RSP) - Displacement(args), Reg64(m, RSP))
    ensures EmittedCalling(env, args, params, returnTo, bytes, m) == Some(m')
    ensures var base := Reg64(m, RSP) - Displacement(args) - 16;
            && FrameAt(m', base, returnTo, Reg64(m, RBP))
            && ChangedIn(m.mem, m'.mem, base - bytes, Reg64(m, RSP))
            && SameRegs(m, m', CALLER_WRITES + {RBP} + SCRATCH)
    ensures forall i :: 0 <= i < |args| ==> IsSlot(params[i], bytes) && Arrived(params[i], ValueOf(env, args[i].place, m), m')
  {
    hide ExecAll, Straight, Unscratched, AllSteady, Prepare, Fetch, Enter, FixAll, ParamSlots, SameClasses, AdjustBy, SameBut, Displacement;
    hide Reg64, ChangedIn, LoadBytes, ValueOf, SameRegs;
    var low := Reg64(m, RSP) - Displacement(args);
    var n := CallingRuns(env, args, params, returnTo, bytes, m);
    SteadyUnscratched(env, args, params, m, low, Reg64(m, RSP), bytes);
    PrepareStraight(args);
    FetchStraight(params, |params|);
    AdjustStraight(SubOp, bytes);
    StraightJoin(AdjustBy(SubOp, bytes), Fetch(params, |params|));
    var s1 := ExecAll(env, Prepare(args), m).value;
    SameAsItself(m);
    var t1 := StraightSim(env, Prepare(args), m, m, s1);
    var t2 := EnterFrame(env, returnTo, s1, t1, Enter(env, returnTo, s1).value);
    m' := StraightSim(env, AdjustBy(SubOp, bytes) + Fetch(params, |params|), Enter(env, returnTo, s1).value, t2, n);
    ScratchOnly(m, n, m');
    assert FrameAt(m', low - 16, returnTo, Reg64(m, RBP));
  }

  lemma SameAsItself(m: Machine)
    ensures SameBut(m, m, SCRATCH)
  {
  }

  lemma ScratchOnly(m: Machine, n: Machine, m': Machine)
    requires SameRegs(m, n, CALLER_WRITES + {RBP}) && SameBut(n, m', SCRATCH)
    ensures SameRegs(m, m', CALLER_WRITES + {RBP} + SCRATCH) && m'.mem == n.mem && Reg64(m', RBP) == Reg64(n, RBP)
  {
    hide Reg64;
  }

  /** What the emitted return does: the old rbp and the return address are popped. */
  function Leave(m: Machine): (nat, Machine) {
    var base := Reg64(m, RBP);
    var m1 := WriteReg(m, RBP, W64, LoadBytes(m.mem, base, 8));
    (LoadBytes(m.mem, (base + 8) % W64.Mod(), 8), WriteReg(m1, RSP, W64, base + 16))
  }

  /** A callee that still has its frame returns to the caller, whose stack and frame
      pointers come back. */
  lemma StackComesBack(env: Env, args: seq<Arg>, returnTo: nat, m: Machine, m': Machine) returns (back: Machine)
    requires Displacement(args) + 16 <= Reg64(m, RSP)
    requires FrameAt(m', Reg64(m, RSP) - Displacement(args) - 16, returnTo, Reg64(m, RBP))
    ensures Leave(m').0 == returnTo
    ensures ExecAll(env, AdjustBy(AddOp, Displacement(args)), Leave(m').1) == Some(back)
    ensures Reg64(back, RSP) == Reg64(m, RSP) && Reg64(back, RBP) == Reg64(m, RBP)
    ensures back.mem == m'.mem && SameRegs(m', back, {RSP, RBP})
  {
    hide ExecAll, Exec, LoadBytes, Displacement;
    var base := Reg64(m, RSP) - Displacement(args) - 16;
    SmallMod(base + 8, W64.Mod());
    SmallMod(base + 16, W64.Mod());
    SmallMod(Reg64(m, RBP), W64.Mod());
    var m1 := Leave(m').1;
    WrittenWide(m', RBP, W64, Reg64(m, RBP));
    WrittenWide(WriteReg(m', RBP, W64, Reg64(m, RBP)), RSP, W64, base + 16);
    back := AdjustEffect(env, AddOp, Displacement(args), m1);
  }

  // ---------------------------------------------------- slots of the parameters

  /** The parameters are different pseudo registers. */
  ghost predicate ArePseudos(params: seq<Arg>) {
    && (forall i :: 0 <= i < |params| ==> params[i].place.kind.Pseudo?)
    && (forall i, j :: 0 <= i < j < |params| ==> params[i].place.kind.id != params[j].place.kind.id)
  }

  function SettledParams(params: seq<Arg>, offs: map<int, nat>): (r: seq<Arg>)
    ensures |r| == |params|
  {
    seq(|params|, i requires 0 <= i < |params| => Arg(InFrame(params[i].place, offs), params[i].floating))
  }

  lemma {:induction false} SettleJoin(a: seq<AsmOp>, b: seq<AsmOp>, f: Frame)
    ensures SettleAll(a + b, f) == SettleAll(b, SettleAll(a, f))
    decreases |a|
  {
    if a == [] {
      assert a + b == b;
    } else {
      assert (a + b)[1..] == a[1..] + b;
      SettleJoin(a[1..], b, SettleOp(a[0], f));
    }
  }

  lemma {:induction false} FetchSettles(params: seq<Arg>, n: nat)
    requires n <= |params| && ArePseudos(params)
    ensures var f := SettleAll(Fetch(params, n), NO_FRAME);
            && (forall i :: 0 <= i < n ==> params[i].place.kind.id in f.sizes && f.sizes[params[i].place.kind.id] == params[i].place.word.Bytes())
            && (forall id :: id in f.offs || id in f.sizes ==> exists i :: 0 <= i < n && params[i].place.kind.id == id)
    decreases n
  {
    hide HomeOf, RoundUp, SettleOp;
    if n > 0 {
      FetchSettles(params, n - 1);
      var p := params[n - 1].place;
      var op := MoveOf(FetchFrom(HomeOf(params, n - 1), p.word), p);
      SettleAllJoin(Fetch(params, n - 1), op, NO_FRAME);
      var f := SettleAll(Fetch(params, n - 1), NO_FRAME);
      SettleFetched(op, f);
      assert p.kind.id !in f.sizes && p.kind.id !in f.offs;
    }
  }

  lemma SettleFetched(op: AsmOp, f: Frame)
    requires op.opcode.Mov? && !IsPseudo(op.a) && op.b.kind.Pseudo?
    ensures var f', id := SettleOp(op, f), op.b.kind.id;
            && (forall i :: i in f'.offs || i in f'.sizes ==> i == id || i in f.offs || i in f.sizes)
            && (forall i :: i in f.sizes && i != id ==> i in f'.sizes && f'.sizes[i] == f.sizes[i])
            && (id !in f.sizes && id !in f.offs ==> id in f'.sizes && f'.sizes[id] == op.b.word.Bytes())
  {
    hide RoundUp;
  }

  lemma {:induction false} FetchHasNoArrays(params: seq<Arg>, n: nat)
    requires n <= |params| && ArePseudos(params)
    ensures SizesKnown(Fetch(params, n))
    decreases n
  {
    hide HomeOf;
    if n > 0 {
      FetchHasNoArrays(params, n - 1);
    }
  }

  /** The slots that a function with these parameters gives them are large enough,
      apart, and in the frame. */
  lemma {:induction false} ParamsGetSlots(params: seq<Arg>, body: seq<AsmOp>)
    requires ArePseudos(params) && SizesKnown(body)
    ensures var f := FrameOf(Fetch(params, |params|) + body);
            ParamSlots(SettledParams(params, f.offs), RoundUp(f.cursor, 16))
  {
    var fetch := Fetch(params, |params|);
    var f0 := SettleAll(fetch, NO_FRAME);
    var f := FrameOf(fetch + body);
    FetchHasNoArrays(params, |params|);
    FetchSettles(params, |params|);
    SettleJoin(fetch, body, NO_FRAME);
    SettleAllSound(fetch, NO_FRAME);
    SettleAllSound(body, f0);
    FrameIsSound(fetch + body);
    hide SettleAll, FrameOf, Fetch, RoundUp, FrameSound;
    SlotsFromFrame(params, f, RoundUp(f.cursor, 16));
  }

  lemma SlotsFromFrame(params: seq<Arg>, f: Frame, bytes: nat)
    requires ArePseudos(params) && FrameSound(f)
    requires forall i :: i in f.offs ==> f.offs[i] <= bytes
    requires forall i :: 0 <= i < |params| ==> params[i].place.kind.id in f.sizes && f.sizes[params[i].place.kind.id] == params[i].place.word.Bytes()
    ensures ParamSlots(SettledParams(params, f.offs), bytes)
  {
    var s := SettledParams(params, f.offs);
    forall i | 0 <= i < |s| ensures IsSlot(s[i], bytes) {
      assert SlotFits(f, params[i].place.kind.id);
    }
    forall i, j | 0 <= i < j < |s| ensures SlotsOfTwo(s[i], s[j]) {
      assert IsSlot(s[i], bytes) && IsSlot(s[j], bytes);
      assert SlotsApart(f, params[i].place.kind.id, params[j].place.kind.id);
    }
  }

  /** Replacing the pseudo registers replaces the parameters. */
  lemma {:induction false} FetchInFrame(params: seq<Arg>, n: nat, offs: map<int, nat>)
    requires n <= |params| && ArePseudos(params)
    ensures CodeInFrame(Fetch(params, n), offs) == Fetch(SettledParams(params, offs), n)
    decreases n
  {
    hide HomeOf;
    if n > 0 {
      FetchInFrame(params, n - 1, offs);
      SettledHome(params, n - 1, offs);
    }
  }

  lemma SettledHome(params: seq<Arg>, i: nat, offs: map<int, nat>)
    requires i < |params|
    ensures HomeOf(SettledParams(params, offs), i) == HomeOf(params, i)
  {
    HomesAgree(params, SettledParams(params, offs), i);
  }
}
