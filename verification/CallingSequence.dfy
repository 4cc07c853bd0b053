/** Calls: where arguments go, the instructions of the caller that put them there and
    those of the callee that fetch them. */
module CallingSequence {
  import opened Wrappers
  import opened Asm

  /** An argument or parameter: its operand, and whether it is a double. */
  datatype Arg = Arg(place: Operand, floating: bool)

  const GENERAL: seq<Reg> := [DI, SI, DX, CX, R8, R9]
  const PUSH_BYTES: nat := 8
  const FIRST_STACK_ARG: nat := 16

  function Limit(floating: bool): nat {
    if floating then 8 else |GENERAL|
  }

  function ArgRegister(floating: bool, k: nat): Reg
    requires k < Limit(floating)
  {
    if floating then Xmm(k) else GENERAL[k]
  }

  // ------------------------------------------------------- where arguments go

  /** How many of the first i arguments are of a class. */
  function Earlier(args: seq<Arg>, i: nat, floating: bool): (n: nat)
    requires i <= |args|
    ensures n <= i
  {
    if i == 0 then 0 else Earlier(args, i - 1, floating) + if args[i - 1].floating == floating then 1 else 0
  }

  datatype Home = InRegister(reg: Reg) | OnStack(position: nat)

  /** Section 3.2.3 of the System V AMD64 psABI: registers of the class of an
      argument are taken in order; when they are used up it goes to the stack. */
  function HomeOf(args: seq<Arg>, i: nat): Home
    requires i < |args|
  {
    var f := args[i].floating;
    if Earlier(args, i, f) < Limit(f) then InRegister(ArgRegister(f, Earlier(args, i, f))) else OnStack(Stacked(args, i))
  }

  /** How many of the first i arguments are on the stack. */
  function Stacked(args: seq<Arg>, i: nat): (n: nat)
    requires i <= |args|
    ensures n <= i
  {
    if i == 0 then 0
    else Stacked(args, i - 1) + if Earlier(args, i - 1, args[i - 1].floating) < Limit(args[i - 1].floating) then 0 else 1
  }

  // ------------------------------------------------------------------ the caller

  function Adjust(o: ArithOp, bytes: nat): AsmOp {
    AsmOp(Arith(o), Operand(Immediate(bytes), W8), Operand(Register(RSP), W64))
  }

  function MoveOf(a: Operand, b: Operand): AsmOp {
    AsmOp(Mov, a, b)
  }

  predicate IsConstant(a: Arg) {
    a.place.kind.Immediate? || a.place.kind.DoubleConst?
  }

  function IntoRegister(args: seq<Arg>, i: nat): seq<AsmOp>
    requires i < |args|
  {
    match HomeOf(args, i)
    case InRegister(r) => [MoveOf(args[i].place, Operand(Register(r), args[i].place.word))]
    case OnStack(_) => []
  }

  function RegisterMoves(args: seq<Arg>, n: nat): seq<AsmOp>
    requires n <= |args|
  {
    if n == 0 then [] else RegisterMoves(args, n - 1) + IntoRegister(args, n - 1)
  }

  function StackArgs(args: seq<Arg>, n: nat): (s: seq<Arg>)
    requires n <= |args|
    ensures |s| == Stacked(args, n)
  {
    if n == 0 then [] else StackArgs(args, n - 1) + if HomeOf(args, n - 1).OnStack? then [args[n - 1]] else []
  }

  /** A narrow argument goes through ax, because only eight bytes can be pushed. */
  function PushOf(a: Arg): seq<AsmOp> {
    if IsConstant(a) || a.place.word.W64? then [AsmOp(Push, a.place, NONE)]
    else [MoveOf(a.place, Operand(Register(AX), a.place.word)), AsmOp(Push, Operand(Register(AX), W64), NONE)]
  }

  function PushesOf(s: seq<Arg>): seq<AsmOp> {
    if s == [] then [] else PushOf(s[|s| - 1]) + PushesOf(s[..|s| - 1])
  }

  /** The padding goes by the parity of all arguments. */
  function Padding(n: nat): nat {
    if n % 2 == 1 then PUSH_BYTES else 0
  }

  function AdjustBy(o: ArithOp, bytes: nat): seq<AsmOp> {
    if bytes > 0 then [Adjust(o, bytes)] else []
  }

  function Prepare(args: seq<Arg>): seq<AsmOp> {
    AdjustBy(SubOp, Padding(|args|)) + RegisterMoves(args, |args|) + PushesOf(StackArgs(args, |args|))
  }

  /** How far the stack pointer is moved for a call. */
  function Displacement(args: seq<Arg>): nat {
    PUSH_BYTES * Stacked(args, |args|) + Padding(|args|)
  }

  function FetchResult(result: Option<Arg>): seq<AsmOp> {
    match result
    case None => []
    case Some(r) =>
      [MoveOf(if r.floating then Operand(Register(Xmm(0)), W64) else Operand(Register(AX), r.place.word), r.place)]
  }

  function CallCode(args: seq<Arg>, callee: string, result: Option<Arg>): seq<AsmOp> {
    Prepare(args) + [AsmOp(Call, Operand(FunctionRef(callee), W8), NONE)] + AdjustBy(AddOp, Displacement(args)) + FetchResult(result)
  }

  method OpCall(args: seq<Arg>, callee: string, result: Option<Arg>) returns (code: seq<AsmOp>)
    ensures code == CallCode(args, callee, result)
  {
    hide RegisterMoves, PushesOf, StackArgs, Stacked;
    var padding := if |args| % 2 == 1 then PUSH_BYTES else 0;
    code := [];
    if padding > 0 {
      code := [Adjust(SubOp, padding)];
    }
    var moves, onStack := MoveArguments(args);
    var pushes := PushArguments(onStack);
    code := code + moves + pushes;
    code := code + [AsmOp(Call, Operand(FunctionRef(callee), W8), NONE)];
    var release := PUSH_BYTES * |onStack| + padding;
    if release > 0 {
      code := code + [Adjust(AddOp, release)];
    }
    if result.None? {
      return;
    }
    var from := if result.value.floating then Operand(Register(Xmm(0)), W64) else Operand(Register(AX), result.value.place.word);
    code := code + [MoveOf(from, result.value.place)];
  }

  method MoveArguments(args: seq<Arg>) returns (code: seq<AsmOp>, onStack: seq<Arg>)
    ensures code == RegisterMoves(args, |args|) && onStack == StackArgs(args, |args|)
  {
    code, onStack := [], [];
    var general, doubles := 0, 0;
    for i := 0 to |args|
      invariant general == Used(args, i, false) && doubles == Used(args, i, true)
      invariant onStack == StackArgs(args, i)
      invariant code == RegisterMoves(args, i)
    {
      var floating := args[i].floating;
      var found: Option<Reg> := None;
      if floating && doubles < Limit(true) {
        found := Some(Xmm(doubles));
        doubles := doubles + 1;
      } else if !floating && general < Limit(false) {
        found := Some(GENERAL[general]);
        general := general + 1;
      }
      if found.Some? {
        code := code + [MoveOf(args[i].place, Operand(Register(found.value), args[i].place.word))];
      } else {
        onStack := onStack + [args[i]];
      }
    }
  }

  /** The last argument is pushed first. */
  method PushArguments(onStack: seq<Arg>) returns (code: seq<AsmOp>)
    ensures code == PushesOf(onStack)
  {
    hide PushOf;
    code := [];
    assert onStack[..|onStack|] == onStack;
    for i := |onStack| downto 0
      invariant code + PushesOf(onStack[..i]) == PushesOf(onStack)
    {
      assert onStack[..i + 1][..i] == onStack[..i];
      var push := PushArgument(onStack[i]);
      code := code + push;
    }
  }

  method PushArgument(a: Arg) returns (code: seq<AsmOp>)
    ensures code == PushOf(a)
  {
    if IsConstant(a) || a.place.word.W64? {
      code := [AsmOp(Push, a.place, NONE)];
    } else {
      code := [MoveOf(a.place, Operand(Register(AX), a.place.word))];
      code := code + [AsmOp(Push, Operand(Register(AX), W64), NONE)];
    }
  }

  /** What the caller counts: the registers of a class that are taken. */
  function Used(args: seq<Arg>, i: nat, floating: bool): nat
    requires i <= |args|
  {
    if Earlier(args, i, floating) < Limit(floating) then Earlier(args, i, floating) else Limit(floating)
  }

  // ------------------------------------------------------------------ the callee

  function FetchFrom(h: Home, w: Word): Operand {
    match h
    case InRegister(r) => Operand(Register(r), w)
    case OnStack(k) => Operand(Memory(FIRST_STACK_ARG + PUSH_BYTES * k, RBP), w)
  }

  function Fetch(params: seq<Arg>, n: nat): (code: seq<AsmOp>)
    requires n <= |params|
    ensures |code| == n
  {
    if n == 0 then [] else
    var p := params[n - 1].place;
    Fetch(params, n - 1) + [MoveOf(FetchFrom(HomeOf(params, n - 1), p.word), p)]
  }

  method FunctionParams(params: seq<Arg>) returns (code: seq<AsmOp>)
    ensures code == Fetch(params, |params|)
  {
    code := [];
    var general, doubles, stack := 0, 0, 0;
    for i := 0 to |params|
      invariant general == Earlier(params, i, false) && doubles == Earlier(params, i, true)
      invariant stack == Stacked(params, i)
      invariant code == Fetch(params, i)
    {
      var p := params[i].place;
      var floating := params[i].floating;
      if floating && doubles < Limit(true) {
        code := code + [MoveOf(Operand(Register(Xmm(doubles)), p.word), p)];
      } else if !floating && general < Limit(false) {
        code := code + [MoveOf(Operand(Register(GENERAL[general]), p.word), p)];
      } else {
        code := code + [MoveOf(Operand(Memory(FIRST_STACK_ARG + PUSH_BYTES * stack, RBP), p.word), p)];
        stack := stack + 1;
      }
      if floating {
        doubles := doubles + 1;
      } else {
        general := general + 1;
      }
    }
  }

  // ------------------------------------------------------------ facts about homes

  /** The arguments before the i-th that are of its class. */
  function OfItsClass(args: seq<Arg>, i: nat, floating: bool): set<nat>
    requires i <= |args|
  {
    set j: nat | j < i && args[j].floating == floating
  }

  /** The arguments before the i-th that find no register. */
  function WithoutRegister(args: seq<Arg>, i: nat): set<nat>
    requires i <= |args|
  {
    set j: nat | j < i && |OfItsClass(args, j, args[j].floating)| >= (if args[j].floating then 8 else 6)
  }

  lemma {:induction false} EarlierCounts(args: seq<Arg>, i: nat, floating: bool)
    requires i <= |args|
    ensures Earlier(args, i, floating) == |OfItsClass(args, i, floating)|
  {
    if i == 0 {
      assert OfItsClass(args, i, floating) == {};
    } else {
      EarlierCounts(args, i - 1, floating);
      OneMoreOfClass(args, i - 1, floating);
    }
  }

  lemma OneMoreOfClass(args: seq<Arg>, i: nat, floating: bool)
    requires i < |args|
    ensures |OfItsClass(args, i + 1, floating)| == |OfItsClass(args, i, floating)| + if args[i].floating == floating then 1 else 0
  {
    var before := OfItsClass(args, i, floating);
    if args[i].floating == floating {
      assert OfItsClass(args, i + 1, floating) == before + {i};
    } else {
      assert OfItsClass(args, i + 1, floating) == before;
    }
  }

  lemma {:induction false} StackedCounts(args: seq<Arg>, i: nat)
    requires i <= |args|
    ensures Stacked(args, i) == |WithoutRegister(args, i)|
  {
    if i == 0 {
      assert WithoutRegister(args, i) == {};
    } else {
      StackedCounts(args, i - 1);
      var f := args[i - 1].floating;
      EarlierCounts(args, i - 1, f);
      var one: set<nat> := if |OfItsClass(args, i - 1, f)| >= (if f then 8 else 6) then {i - 1} else {};
      assert WithoutRegister(args, i) == WithoutRegister(args, i - 1) + one;
    }
  }

  /** Where an argument goes: the first six general ones into rdi, rsi, rdx, rcx, r8 and
      r9, the first eight doubles into xmm0 to xmm7, and the others to the stack, each
      behind those that went there before it. */
  lemma ArgumentHomes(args: seq<Arg>, i: nat)
    requires i < |args|
    ensures var k := |OfItsClass(args, i, args[i].floating)|;
            HomeOf(args, i) ==
              if args[i].floating && k < 8 then InRegister(Xmm(k))
              else if !args[i].floating && k == 0 then InRegister(DI)
              else if !args[i].floating && k == 1 then InRegister(SI)
              else if !args[i].floating && k == 2 then InRegister(DX)
              else if !args[i].floating && k == 3 then InRegister(CX)
              else if !args[i].floating && k == 4 then InRegister(R8)
              else if !args[i].floating && k == 5 then InRegister(R9)
              else OnStack(|WithoutRegister(args, i)|)
  {
    EarlierCounts(args, i, args[i].floating);
    StackedCounts(args, i);
  }

  ghost predicate SameClasses(args: seq<Arg>, params: seq<Arg>) {
    |args| == |params| && forall i :: 0 <= i < |args| ==> args[i].floating == params[i].floating && args[i].place.word == params[i].place.word
  }

  /** Arguments and parameters of the same classes have the same homes. */
  lemma {:induction false} HomesAgree(args: seq<Arg>, params: seq<Arg>, i: nat)
    requires SameClasses(args, params) && i <= |args|
    ensures Earlier(args, i, true) == Earlier(params, i, true) && Earlier(args, i, false) == Earlier(params, i, false)
    ensures Stacked(args, i) == Stacked(params, i)
    ensures i < |args| ==> HomeOf(args, i) == HomeOf(params, i)
    decreases i
  {
    if i > 0 {
      HomesAgree(args, params, i - 1);
    }
  }

  lemma {:induction false} EarlierGrows(args: seq<Arg>, i: nat, j: nat, floating: bool)
    requires i <= j <= |args|
    ensures Earlier(args, i, floating) <= Earlier(args, j, floating)
    ensures i < j && args[i].floating == floating ==> Earlier(args, i, floating) < Earlier(args, j, floating)
    decreases j
  {
    if i < j {
      EarlierGrows(args, i, j - 1, floating);
    }
  }

  lemma {:induction false} StackedGrows(args: seq<Arg>, i: nat, j: nat)
    requires i <= j <= |args|
    ensures Stacked(args, i) <= Stacked(args, j)
    ensures i < j && HomeOf(args, i).OnStack? ==> Stacked(args, i) < Stacked(args, j)
    decreases j
  {
    if i < j {
      StackedGrows(args, i, j - 1);
    }
  }

  lemma RegistersDiffer(f: bool, k: nat, g: bool, l: nat)
    requires k < Limit(f) && l < Limit(g) && (f != g || k != l)
    ensures ArgRegister(f, k) != ArgRegister(g, l)
  {
  }

  /** No two arguments share a home. */
  lemma HomesDiffer(args: seq<Arg>, i: nat, j: nat)
    requires i < j < |args|
    ensures HomeOf(args, i) != HomeOf(args, j)
  {
    var f, g := args[i].floating, args[j].floating;
    EarlierGrows(args, i, j, f);
    StackedGrows(args, i, j);
    if HomeOf(args, i).InRegister? && HomeOf(args, j).InRegister? {
      RegistersDiffer(f, Earlier(args, i, f), g, Earlier(args, j, g));
    }
  }

  /** The stack arguments in order of their positions. */
  lemma {:induction false} StackArgAt(args: seq<Arg>, n: nat, i: nat)
    requires i < n <= |args| && HomeOf(args, i).OnStack?
    ensures HomeOf(args, i).position < |StackArgs(args, n)| && StackArgs(args, n)[HomeOf(args, i).position] == args[i]
    decreases n
  {
    if i < n - 1 {
      StackArgAt(args, n - 1, i);
    }
  }

  // --------------------------------------------------------------- alignment

  /** At the call the stack is aligned to 16 bytes exactly when the stack arguments
      and all arguments are both even or both odd in number. */
  lemma AlignedAtCall(args: seq<Arg>, rsp: nat)
    requires rsp % 16 == 0
    ensures (rsp - Displacement(args)) % 16 == 0 <==> Stacked(args, |args|) % 2 == |args| % 2
  {
    var s, n := Stacked(args, |args|), |args|;
    assert Displacement(args) == 8 * (s + n % 2);
  }

  /** With fewer than seven arguments of each class the stack is misaligned at the
      call whenever their number is odd. */
  lemma {:induction false} NoStackArgs(args: seq<Arg>, n: nat)
    requires n <= |args| && Earlier(args, n, false) <= 6 && Earlier(args, n, true) <= 8
    ensures Stacked(args, n) == 0
    decreases n
  {
    if n > 0 {
      NoStackArgs(args, n - 1);
    }
  }

  lemma OneArgumentMisaligns(a: Arg, rsp: nat)
    requires rsp % 16 == 0
    ensures (rsp - Displacement([a])) % 16 != 0
  {
    NoStackArgs([a], 1);
    AlignedAtCall([a], rsp);
  }
}
