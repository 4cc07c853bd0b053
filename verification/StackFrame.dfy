/** Pseudo registers get slots on the stack, in the order of their first
    appearance; the slot is as large as the first appearance says. */
module StackFrame {
  import opened Wrappers
  import opened Asm
  import opened FixupLists

  predicate IsPseudo(o: Operand) {
    o.kind.Pseudo? || o.kind.PseudoMem?
  }

  function SlotSize(o: Operand): nat {
    if o.kind.PseudoMem? then o.kind.total else o.word.Bytes()
  }

  function SlotAlign(o: Operand): (r: nat)
    ensures r == 1 || r == 4 || r == 8 || r == 16
  {
    if o.kind.PseudoMem? then 16 else o.word.Bytes()
  }

  /** The frame so far: the deepest byte, and a distance below rbp, a size and an
      alignment for each pseudo register. */
  datatype Frame = Frame(cursor: nat, offs: map<int, nat>, sizes: map<int, nat>, aligns: map<int, nat>)

  const NO_FRAME := Frame(0, map[], map[], map[])

  function Settle(o: Operand, f: Frame): Frame {
    if !IsPseudo(o) || o.kind.id in f.offs then f else
    var cursor := RoundUp(f.cursor + SlotSize(o), SlotAlign(o));
    Frame(cursor, f.offs[o.kind.id := cursor], f.sizes[o.kind.id := SlotSize(o)], f.aligns[o.kind.id := SlotAlign(o)])
  }

  function SettleOp(op: AsmOp, f: Frame): Frame {
    Settle(op.b, Settle(op.a, f))
  }

  function SettleAll(code: seq<AsmOp>, f: Frame): Frame {
    if code == [] then f else SettleAll(code[1..], SettleOp(code[0], f))
  }

  function FrameOf(code: seq<AsmOp>): Frame {
    SettleAll(code, NO_FRAME)
  }

  /** A settled operand in memory. */
  function InFrame(o: Operand, offs: map<int, nat>): Operand {
    if !IsPseudo(o) || o.kind.id !in offs then o else
    var at := if o.kind.PseudoMem? then o.kind.at else 0;
    Operand(Memory(at - offs[o.kind.id], RBP), o.word)
  }

  function OpInFrame(op: AsmOp, offs: map<int, nat>): AsmOp {
    AsmOp(op.opcode, InFrame(op.a, offs), InFrame(op.b, offs))
  }

  function CodeInFrame(code: seq<AsmOp>, offs: map<int, nat>): (r: seq<AsmOp>)
    ensures |r| == |code|
  {
    seq(|code|, i requires 0 <= i < |code| => OpInFrame(code[i], offs))
  }

  // ------------------------------------------------------------ the frame is sound

  predicate SlotFits(f: Frame, id: int)
    requires id in f.offs && id in f.sizes
  {
    0 < f.sizes[id] <= f.offs[id] <= f.cursor
  }

  /** Two slots do not overlap; slots are counted downwards. */
  predicate SlotsApart(f: Frame, i: int, j: int)
    requires i in f.offs && i in f.sizes && j in f.offs && j in f.sizes
  {
    f.offs[i] + f.sizes[j] <= f.offs[j] || f.offs[j] + f.sizes[i] <= f.offs[i]
  }

  /** Slots lie below rbp and above the cursor, are aligned and do not overlap. */
  ghost predicate FrameSound(f: Frame) {
    && f.offs.Keys == f.sizes.Keys == f.aligns.Keys && (f.cursor > 0 ==> exists i :: i in f.offs && f.offs[i] == f.cursor)
    && (forall i :: i in f.offs ==> SlotFits(f, i) && SlotAligned(f, i))
    && (forall i, j :: i in f.offs && j in f.offs && i != j ==> SlotsApart(f, i, j))
  }

  /** The slot keeps its alignment: 16 for an array, its size for a scalar. */
  predicate SlotAligned(f: Frame, i: int)
    requires i in f.offs && i in f.aligns
  {
    f.aligns[i] in {1, 4, 8, 16} && f.offs[i] % f.aligns[i] == 0
  }

  /** Arrays are not empty. */
  predicate SizeKnown(o: Operand) {
    o.kind.PseudoMem? ==> o.kind.total > 0
  }

  ghost predicate SizesKnown(code: seq<AsmOp>) {
    forall op :: op in code ==> SizeKnown(op.a) && SizeKnown(op.b)
  }

  lemma SettleSound(o: Operand, f: Frame)
    requires FrameSound(f) && SizeKnown(o)
    ensures FrameSound(Settle(o, f)) && Grows(f, Settle(o, f)) && Settled(o, Settle(o, f))
  {
    if IsPseudo(o) && o.kind.id !in f.offs {
      var g := Settle(o, f);
      RoundedUp(f.cursor + SlotSize(o), SlotAlign(o));
      hide RoundUp;
      assert g.offs[o.kind.id] == g.cursor;
      forall i | i in g.offs ensures SlotFits(g, i) && SlotAligned(g, i) {
        assert i != o.kind.id ==> SlotFits(f, i) && SlotAligned(f, i);
      }
      forall i, j | i in g.offs && j in g.offs && i != j ensures SlotsApart(g, i, j) {
        assert i != o.kind.id ==> SlotFits(f, i);
        assert j != o.kind.id ==> SlotFits(f, j);
        assert i != o.kind.id && j != o.kind.id ==> SlotsApart(f, i, j);
      }
    }
  }

  /** Slots that have been given out stay where they are. */
  ghost predicate Grows(f: Frame, g: Frame) {
    && f.cursor <= g.cursor
    && (forall i :: i in f.offs ==> i in g.offs && g.offs[i] == f.offs[i])
    && (forall i :: i in f.sizes ==> i in g.sizes && g.sizes[i] == f.sizes[i])
    && (forall i :: i in f.aligns ==> i in g.aligns && g.aligns[i] == f.aligns[i])
  }

  lemma {:induction false} SettleAllSound(code: seq<AsmOp>, f: Frame)
    requires FrameSound(f) && SizesKnown(code)
    ensures FrameSound(SettleAll(code, f)) && Grows(f, SettleAll(code, f))
    ensures forall op :: op in code ==> Settled(op.a, SettleAll(code, f)) && Settled(op.b, SettleAll(code, f))
    decreases |code|
  {
    if code != [] {
      assert code[0] in code;
      SettleSound(code[0].a, f);
      SettleSound(code[0].b, Settle(code[0].a, f));
      SettleAllSound(code[1..], SettleOp(code[0], f));
    }
  }

  /** The first operand that mentions a pseudo register. */
  function FirstMention(code: seq<AsmOp>, id: int): (r: Option<Operand>)
    ensures r.Some? ==> IsPseudo(r.value) && r.value.kind.id == id
  {
    if code == [] then None
    else if IsPseudo(code[0].a) && code[0].a.kind.id == id then Some(code[0].a)
    else if IsPseudo(code[0].b) && code[0].b.kind.id == id then Some(code[0].b)
    else FirstMention(code[1..], id)
  }

  /** The first mention of a pseudo register gives its slot size and alignment. */
  lemma {:induction false} FirstDecides(code: seq<AsmOp>, f: Frame, id: int)
    requires f.offs.Keys == f.sizes.Keys == f.aligns.Keys
    ensures var g := SettleAll(code, f);
            && g.offs.Keys == g.sizes.Keys == g.aligns.Keys
            && (id in g.offs <==> id in f.offs || FirstMention(code, id).Some?)
            && (id !in f.offs && id in g.offs ==>
                  g.sizes[id] == SlotSize(FirstMention(code, id).value) && g.aligns[id] == SlotAlign(FirstMention(code, id).value))
            && (id in f.offs ==> g.sizes[id] == f.sizes[id] && g.aligns[id] == f.aligns[id])
    decreases |code|
  {
    hide RoundUp;
    if code != [] {
      FirstDecides(code[1..], SettleOp(code[0], f), id);
    }
  }

  predicate Settled(o: Operand, f: Frame) {
    IsPseudo(o) ==> o.kind.id in f.offs
  }

  /** The frame of a function: slots below rbp, aligned, apart from each other and
      within the space that the prologue reserves. */
  lemma FrameIsSound(code: seq<AsmOp>)
    requires SizesKnown(code)
    ensures FrameSound(FrameOf(code))
    ensures forall i :: i in FrameOf(code).offs ==>
                          FirstMention(code, i).Some?
                          && FrameOf(code).sizes[i] == SlotSize(FirstMention(code, i).value)
                          && FrameOf(code).offs[i] % SlotAlign(FirstMention(code, i).value) == 0
                          && if FirstMention(code, i).value.kind.PseudoMem?
                             then FrameOf(code).sizes[i] == FirstMention(code, i).value.kind.total && FrameOf(code).offs[i] % 16 == 0
                             else FrameOf(code).sizes[i] == FirstMention(code, i).value.word.Bytes()
                                  && FrameOf(code).offs[i] % FirstMention(code, i).value.word.Bytes() == 0
    ensures forall i :: i in FrameOf(code).offs ==> FrameOf(code).offs[i] <= RoundUp(FrameOf(code).cursor, 16)
  {
    SettleAllSound(code, NO_FRAME);
    RoundedUp(FrameOf(code).cursor, 16);
    hide RoundUp, FrameOf;
    forall i | i in FrameOf(code).offs
      ensures FirstMention(code, i).Some? && FrameOf(code).sizes[i] == SlotSize(FirstMention(code, i).value)
      ensures FrameOf(code).offs[i] % SlotAlign(FirstMention(code, i).value) == 0
    {
      FirstDecides(code, NO_FRAME, i);
      assert SlotAligned(FrameOf(code), i);
    }
    assert forall i :: i in FrameOf(code).offs ==> SlotFits(FrameOf(code), i);
  }

  /** An access stays inside the slot when it is not wider than the first one. */
  predicate AccessFits(o: Operand, f: Frame) {
    IsPseudo(o) ==> && o.kind.id in f.offs && o.kind.id in f.sizes
                    && (if o.kind.PseudoMem? then 0 <= o.kind.at && o.kind.at + o.word.Bytes() <= f.sizes[o.kind.id]
                        else o.word.Bytes() <= f.sizes[o.kind.id])
  }

  /** Where an operand in the frame lies, relative to rbp. */
  function Low(o: Operand, f: Frame): int
    requires IsPseudo(o) && o.kind.id in f.offs
  {
    (if o.kind.PseudoMem? then o.kind.at else 0) - f.offs[o.kind.id]
  }

  /** Accesses to different pseudo registers never touch, and stay in the frame. */
  lemma AccessesApart(code: seq<AsmOp>, o: Operand, p: Operand)
    requires SizesKnown(code) && IsPseudo(o) && IsPseudo(p) && o.kind.id != p.kind.id
    requires AccessFits(o, FrameOf(code)) && AccessFits(p, FrameOf(code))
    ensures var f := FrameOf(code);
            && (Low(o, f) + o.word.Bytes() <= Low(p, f) || Low(p, f) + p.word.Bytes() <= Low(o, f))
            && 0 - f.cursor <= Low(o, f) && Low(o, f) + o.word.Bytes() <= 0
  {
    FrameIsSound(code);
    var f := FrameOf(code);
    hide FrameOf;
    assert SlotFits(f, o.kind.id) && SlotFits(f, p.kind.id) && SlotsApart(f, o.kind.id, p.kind.id);
  }

  /** The condition is needed: when a long is first seen through a truncation, its
      slot has four bytes, and a later write to all of it reaches beyond rbp. */
  lemma FirstUseDecides(i: int, j: int, n: int)
    requires i != j
    ensures var x, y, wide := Operand(Pseudo(i), W32), Operand(Pseudo(j), W32), Operand(Pseudo(i), W64);
            var f := FrameOf([AsmOp(Mov, x, y), AsmOp(Mov, Operand(Immediate(n), W64), wide)]);
            && i in f.offs && i in f.sizes && f.sizes[i] == 4
            && !AccessFits(wide, f) && Low(wide, f) + wide.word.Bytes() > 0
  {
    var x, y, wide := Operand(Pseudo(i), W32), Operand(Pseudo(j), W32), Operand(Pseudo(i), W64);
    var p, q := AsmOp(Mov, x, y), AsmOp(Mov, Operand(Immediate(n), W64), wide);
    TwoSettled(p, q);
    FirstFour();
    NextFour();
    hide FrameOf, SettleAll, RoundUp;
    assert Settle(x, NO_FRAME) == Frame(4, map[i := 4], map[i := 4], map[i := 4]);
    assert SettleOp(p, NO_FRAME) == Frame(8, map[i := 4, j := 8], map[i := 4, j := 4], map[i := 4, j := 4]);
  }

  lemma FirstFour()
    ensures RoundUp(4, 4) == 4
  {
    assert 7 / 4 == 1;
  }

  lemma NextFour()
    ensures RoundUp(8, 4) == 8
  {
    assert 11 / 4 == 2;
  }

  lemma TwoSettled(p: AsmOp, q: AsmOp)
    ensures FrameOf([p, q]) == SettleOp(q, SettleOp(p, NO_FRAME))
  {
    hide SettleOp;
    var f := SettleOp(p, NO_FRAME);
    assert [p, q][1..] == [q] && [q][1..] == [];
    assert SettleAll([q], f) == SettleAll([], SettleOp(q, f)) == SettleOp(q, f);
    assert SettleAll([p, q], NO_FRAME) == SettleAll([q], f);
  }

  // ----------------------------------------------------------------- the pass

  /** The array of offsets, counted from the smallest id; 0 stands for unset. */
  ghost predicate Mirrors(offsets: seq<nat>, low: int, offs: map<int, nat>) {
    && (forall i :: 0 <= i < |offsets| ==> offsets[i] == if low + i in offs then offs[low + i] else 0)
    && (forall i :: i in offs ==> low <= i < low + |offsets| && offs[i] > 0)
  }

  predicate InRange(o: Operand, low: int, high: int) {
    IsPseudo(o) ==> low <= o.kind.id <= high
  }

  ghost predicate AllInRange(code: seq<AsmOp>, low: int, high: int) {
    forall op :: op in code ==> InRange(op.a, low, high) && InRange(op.b, low, high)
  }

  predicate HasPseudo(op: AsmOp) {
    IsPseudo(op.a) || IsPseudo(op.b)
  }

  /** The preliminary walk: the range of the ids, if there are any. */
  method Preflight(ops: array<AsmOp>) returns (any: bool, low: int, high: int)
    ensures AllInRange(ops[..], low, high) && (any ==> low <= high)
    ensures !any ==> forall op :: op in ops[..] ==> !HasPseudo(op)
  {
    any, low, high := false, 0, -1;
    for i := 0 to ops.Length
      invariant AllInRange(ops[..i], low, high) && (any ==> low <= high)
      invariant !any ==> low == 0 && high == -1 && forall op :: op in ops[..i] ==> !HasPseudo(op)
    {
      for j := 0 to 2
        invariant AllInRange(ops[..i], low, high) && (any ==> low <= high)
        invariant !any ==> low == 0 && high == -1 && forall op :: op in ops[..i] ==> !HasPseudo(op)
        invariant j > 0 ==> InRange(ops[i].a, low, high) && (IsPseudo(ops[i].a) ==> any)
        invariant j > 1 ==> InRange(ops[i].b, low, high) && (IsPseudo(ops[i].b) ==> any)
      {
        var arg := if j == 0 then ops[i].a else ops[i].b;
        if IsPseudo(arg) {
          if !any {
            any, low, high := true, arg.kind.id, arg.kind.id;
          } else {
            low := if arg.kind.id < low then arg.kind.id else low;
            high := if arg.kind.id > high then arg.kind.id else high;
          }
        }
      }
      assert ops[..i + 1] == ops[..i] + [ops[i]];
    }
    assert ops[..ops.Length] == ops[..];
  }

  /** Settles one operand and puts it into the frame. */
  method SettleOperand(arg: Operand, low: int, offsets: array<nat>, cursor: nat, ghost f: Frame)
    returns (arg': Operand, cursor': nat)
    requires cursor == f.cursor && Mirrors(offsets[..], low, f.offs) && InRange(arg, low, low + offsets.Length - 1) && SizeKnown(arg)
    modifies offsets
    ensures var g := Settle(arg, f);
            cursor' == g.cursor && Mirrors(offsets[..], low, g.offs) && arg' == InFrame(arg, g.offs)
  {
    arg', cursor' := arg, cursor;
    if IsPseudo(arg) {
      var idx := arg.kind.id - low;
      RoundedUp(cursor + SlotSize(arg), SlotAlign(arg));
      assert offsets[..][idx] == offsets[idx];
      if offsets[idx] == 0 {
        cursor' := RoundUp(cursor + SlotSize(arg), SlotAlign(arg));
        offsets[idx] := cursor';
      }
      assert offsets[..][idx] == offsets[idx];
      arg' := Operand(Memory((if arg.kind.PseudoMem? then arg.kind.at else 0) - offsets[idx], RBP), arg.word);
    }
  }

  lemma {:induction false} SettleAllJoin(a: seq<AsmOp>, op: AsmOp, f: Frame)
    ensures SettleAll(a + [op], f) == SettleOp(op, SettleAll(a, f))
    decreases |a|
  {
    if a == [] {
      assert [op][1..] == [] && a + [op] == [op];
      assert SettleAll([], SettleOp(op, f)) == SettleOp(op, f);
    } else {
      assert (a + [op])[1..] == a[1..] + [op];
      SettleAllJoin(a[1..], op, SettleOp(a[0], f));
    }
  }

  /** An operand in the frame stays what it is when more slots are given out. */
  lemma InFrameStays(o: Operand, f: Frame, g: Frame)
    requires Settled(o, f) && Grows(f, g)
    ensures InFrame(o, g.offs) == InFrame(o, f.offs) && Settled(o, g)
  {
  }

  lemma GrowsOn(f: Frame, g: Frame, h: Frame)
    requires Grows(f, g) && Grows(g, h)
    ensures Grows(f, h)
  {
  }

  /** The pass itself: slots are given out while the operands are rewritten in
      place; the deepest slot is the stack usage. */
  method ReplacePseudo(ops: array<AsmOp>) returns (stackUsage: nat)
    requires SizesKnown(ops[..])
    modifies ops
    ensures var f := FrameOf(old(ops[..])); ops[..] == CodeInFrame(old(ops[..]), f.offs) && stackUsage == f.cursor
  {
    hide Settle, SettleAll, FrameSound, Mirrors, InFrame, Grows, RoundUp, AllInRange;
    ghost var code := ops[..];
    var any, low, high := Preflight(ops);
    SettleAllSound(code, NO_FRAME);
    if !any {
      NothingToSettle(code, NO_FRAME);
      return 0;
    }
    var offsets := new nat[1 + high - low](_ => 0);
    var cursor := 0;
    ghost var f := NO_FRAME;
    EmptyFrame(offsets[..], low);
    for i := 0 to ops.Length
      invariant f == SettleAll(code[..i], NO_FRAME) && cursor == f.cursor && FrameSound(f)
      invariant Mirrors(offsets[..], low, f.offs) && offsets.Length == 1 + high - low
      invariant forall k :: 0 <= k < i ==> ops[k] == OpInFrame(code[k], f.offs) && Settled(code[k].a, f) && Settled(code[k].b, f)
      invariant forall k :: i <= k < ops.Length ==> ops[k] == code[k]
    {
      var op := ops[i];
      assert code[i] in code && code[..i + 1] == code[..i] + [op];
      SettleAllJoin(code[..i], op, NO_FRAME);
      RangesAt(code, low, high, op);
      SettleSound(op.a, f);
      SettleSound(op.b, Settle(op.a, f));
      var a, b;
      a, cursor := SettleOperand(op.a, low, offsets, cursor, f);
      b, cursor := SettleOperand(op.b, low, offsets, cursor, Settle(op.a, f));
      ops[i] := AsmOp(op.opcode, a, b);
      ghost var g := SettleOp(op, f);
      InFrameStays(op.a, Settle(op.a, f), g);
      GrowsOn(f, Settle(op.a, f), g);
      forall k | 0 <= k < i
        ensures OpInFrame(code[k], g.offs) == OpInFrame(code[k], f.offs) && Settled(code[k].a, g) && Settled(code[k].b, g)
      {
        InFrameStays(code[k].a, f, g);
        InFrameStays(code[k].b, f, g);
      }
      f := g;
    }
    assert forall k :: 0 <= k < ops.Length ==> ops[k] == OpInFrame(code[k], f.offs);
    assert code[..ops.Length] == code;
    stackUsage := DeepestSlot(offsets, low, f);
  }

  lemma EmptyFrame(offsets: seq<nat>, low: int)
    requires forall i :: 0 <= i < |offsets| ==> offsets[i] == 0
    ensures Mirrors(offsets, low, NO_FRAME.offs) && FrameSound(NO_FRAME) && SettleAll([], NO_FRAME) == NO_FRAME
  {
  }

  lemma RangesAt(code: seq<AsmOp>, low: int, high: int, op: AsmOp)
    requires AllInRange(code, low, high) && op in code
    ensures InRange(op.a, low, high) && InRange(op.b, low, high)
  {
  }

  method DeepestSlot(offsets: array<nat>, low: int, ghost f: Frame) returns (deepest: nat)
    requires Mirrors(offsets[..], low, f.offs) && FrameSound(f)
    ensures deepest == f.cursor
  {
    deepest := 0;
    for i := 0 to offsets.Length
      invariant forall k :: 0 <= k < i ==> offsets[k] <= deepest
      invariant deepest <= f.cursor
    {
      assert offsets[..][i] == offsets[i];
      if low + i in f.offs {
        assert SlotFits(f, low + i);
      }
      if offsets[i] > deepest {
        deepest := offsets[i];
      }
    }
    if f.cursor > 0 {
      ghost var i :| i in f.offs && f.offs[i] == f.cursor;
      assert offsets[..][i - low] == offsets[i - low];
    }
  }

  lemma {:induction false} NothingToSettle(code: seq<AsmOp>, f: Frame)
    requires forall op :: op in code ==> !HasPseudo(op)
    ensures SettleAll(code, f) == f && CodeInFrame(code, f.offs) == code
    decreases |code|
  {
    if code != [] {
      assert code[0] in code;
      NothingToSettle(code[1..], f);
      assert forall i :: 0 <= i < |code| ==> code[i] in code;
    }
  }
}
