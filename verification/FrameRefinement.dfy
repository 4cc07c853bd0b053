/** Slots refine pseudo registers: memory that is used through the slots of the computed
    frame behaves as if every pseudo register, scalar or array, had bytes of its own. */
module FrameRefinement {
  import opened Wrappers
  import opened Asm
  import opened ModularArithmetic
  import opened MemoryMap
  import opened StackFrame
  import opened CallMeaning

  /** The bytes of each pseudo register. */
  type Cells = map<int, Bytes>

  function CellOf(cells: Cells, id: int): Bytes {
    if id in cells then cells[id] else map[]
  }

  function OffsetIn(o: Operand): int {
    if o.kind.PseudoMem? then o.kind.at else 0
  }

  function ReadCell(cells: Cells, o: Operand): nat
    requires IsPseudo(o)
  {
    LoadBytes(CellOf(cells, o.kind.id), OffsetIn(o), o.word.Bytes())
  }

  function WriteCell(cells: Cells, o: Operand, v: nat): Cells
    requires IsPseudo(o)
  {
    cells[o.kind.id := StoreBytes(CellOf(cells, o.kind.id), OffsetIn(o), v, o.word.Bytes())]
  }

  /** An access to a pseudo register that stays inside its slot. */
  predicate Access(o: Operand, f: Frame) {
    IsPseudo(o) && AccessFits(o, f)
  }

  ghost predicate AllAccesses(writes: seq<(Operand, nat)>, f: Frame) {
    forall i :: 0 <= i < |writes| ==> Access(writes[i].0, f)
  }

  /** Writes to the pseudo registers, and the same writes through their slots. */
  ghost function WriteCells(cells: Cells, f: Frame, writes: seq<(Operand, nat)>): Cells
    requires AllAccesses(writes, f)
    decreases |writes|
  {
    if writes == [] then cells else
    assert Access(writes[0].0, f);
    WriteCells(WriteCell(cells, writes[0].0, writes[0].1), f, writes[1..])
  }

  function WriteSlots(env: Env, f: Frame, writes: seq<(Operand, nat)>, m: Machine): Option<Machine>
    decreases |writes|
  {
    if writes == [] then Some(m) else
    var o := InFrame(writes[0].0, f.offs);
    var m1 :- WriteOp(env, o.kind, o.word, writes[0].1, m);
    WriteSlots(env, f, writes[1..], m1)
  }

  /** The slots hold the bytes of the pseudo registers. */
  ghost predicate Represents(f: Frame, rbp: int, cells: Cells, mem: Bytes) {
    forall id :: id in f.offs && id in f.sizes ==> SlotHolds(mem, rbp - f.offs[id], CellOf(cells, id), f.sizes[id])
  }

  ghost predicate SlotHolds(mem: Bytes, at: int, cell: Bytes, size: nat) {
    forall k: int :: 0 <= k < size ==> ByteAt(mem, at + k) == ByteAt(cell, k)
  }

  // ------------------------------------------------------------------ one access

  lemma {:induction false} LoadsAgree(mem: Bytes, at: int, cell: Bytes, size: nat, k: int, n: nat)
    requires SlotHolds(mem, at, cell, size) && 0 <= k && k + n <= size
    ensures LoadBytes(mem, at + k, n) == LoadBytes(cell, k, n)
    decreases n
  {
    if n > 0 {
      LoadsAgree(mem, at, cell, size, k + 1, n - 1);
      assert ByteAt(mem, at + k) == ByteAt(cell, k);
    }
  }

  lemma OneByteAgrees(mem: Bytes, at: int, cell: Bytes, size: nat, k: int, x: nat)
    requires SlotHolds(mem, at, cell, size)
    ensures SlotHolds(mem[at + k := x], at, cell[k := x], size)
  {
    var mem', cell' := mem[at + k := x], cell[k := x];
    forall j: int | 0 <= j < size ensures ByteAt(mem', at + j) == ByteAt(cell', j) {
      assert ByteAt(mem, at + j) == ByteAt(cell, j);
    }
  }

  lemma {:induction false} StoresAgree(mem: Bytes, at: int, cell: Bytes, size: nat, k: int, v: nat, n: nat)
    requires SlotHolds(mem, at, cell, size)
    ensures SlotHolds(StoreBytes(mem, at + k, v, n), at, StoreBytes(cell, k, v, n), size)
    decreases n
  {
    if n > 0 {
      OneByteAgrees(mem, at, cell, size, k, v % 256);
      StoresAgree(mem[at + k := v % 256], at, cell[k := v % 256], size, k + 1, v / 256, n - 1);
    }
  }

  lemma StoredElsewhere(mem: Bytes, at: int, cell: Bytes, size: nat, a: int, v: nat, n: nat)
    requires SlotHolds(mem, at, cell, size) && (a + n <= at || at + size <= a)
    ensures SlotHolds(StoreBytes(mem, a, v, n), at, cell, size)
  {
    forall k: int | 0 <= k < size ensures ByteAt(StoreBytes(mem, a, v, n), at + k) == ByteAt(cell, k) {
      StoreFrame(mem, a, v, n, at + k);
    }
  }

  /** The address of an access. */
  lemma AccessAddress(env: Env, f: Frame, o: Operand, m: Machine)
    requires FrameSound(f) && Access(o, f) && f.cursor <= Reg64(m, RBP)
    ensures var p, a := InFrame(o, f.offs), Reg64(m, RBP) + Low(o, f);
            && p.kind.Memory? && p.word == o.word && 0 <= a && Address(env, p.kind, m) == Some(a)
            && Reg64(m, RBP) - f.cursor <= a && a + o.word.Bytes() <= Reg64(m, RBP)
            && a == Reg64(m, RBP) - f.offs[o.kind.id] + OffsetIn(o) && 0 <= OffsetIn(o) && OffsetIn(o) + o.word.Bytes() <= f.sizes[o.kind.id]
  {
    assert SlotFits(f, o.kind.id);
    SmallMod(Reg64(m, RBP) + Low(o, f), W64.Mod());
  }

  lemma OneWrite(env: Env, f: Frame, o: Operand, v: nat, cells: Cells, m: Machine) returns (m': Machine)
    requires FrameSound(f) && Access(o, f) && f.cursor <= Reg64(m, RBP) && Represents(f, Reg64(m, RBP), cells, m.mem)
    ensures WriteOp(env, InFrame(o, f.offs).kind, InFrame(o, f.offs).word, v, m) == Some(m') && m'.regs == m.regs
    ensures Represents(f, Reg64(m, RBP), WriteCell(cells, o, v), m'.mem)
    ensures ChangedIn(m.mem, m'.mem, Reg64(m, RBP) - f.cursor, Reg64(m, RBP))
  {
    hide StoreBytes, ByteAt, Reg64, SlotHolds, ChangedIn, InFrame;
    AccessAddress(env, f, o, m);
    var rbp, id, n := Reg64(m, RBP), o.kind.id, o.word.Bytes();
    var a := rbp + Low(o, f);
    m' := m.(mem := StoreBytes(m.mem, a, v, n));
    StoreChanges(m.mem, a, v, n, rbp - f.cursor, rbp);
    forall i | i in f.offs && i in f.sizes ensures SlotHolds(m'.mem, rbp - f.offs[i], CellOf(WriteCell(cells, o, v), i), f.sizes[i]) {
      if i == id {
        StoresAgree(m.mem, rbp - f.offs[id], CellOf(cells, id), f.sizes[id], OffsetIn(o), v, n);
      } else {
        assert SlotsApart(f, i, id);
        StoredElsewhere(m.mem, rbp - f.offs[i], CellOf(cells, i), f.sizes[i], a, v, n);
      }
    }
  }

  lemma OneRead(env: Env, f: Frame, o: Operand, cells: Cells, m: Machine)
    requires FrameSound(f) && Access(o, f) && f.cursor <= Reg64(m, RBP) && Represents(f, Reg64(m, RBP), cells, m.mem)
    ensures ReadOp(env, InFrame(o, f.offs).kind, InFrame(o, f.offs).word, m) == Some(ReadCell(cells, o))
  {
    hide LoadBytes, ByteAt, Reg64, SlotHolds, InFrame;
    AccessAddress(env, f, o, m);
    LoadsAgree(m.mem, Reg64(m, RBP) - f.offs[o.kind.id], CellOf(cells, o.kind.id), f.sizes[o.kind.id], OffsetIn(o), o.word.Bytes());
  }

  // -------------------------------------------------------------------- all of them

  lemma {:induction false} WritesRefine(env: Env, f: Frame, writes: seq<(Operand, nat)>, cells: Cells, m: Machine) returns (m': Machine)
    requires FrameSound(f) && AllAccesses(writes, f) && f.cursor <= Reg64(m, RBP) && Represents(f, Reg64(m, RBP), cells, m.mem)
    ensures WriteSlots(env, f, writes, m) == Some(m') && m'.regs == m.regs
    ensures Represents(f, Reg64(m, RBP), WriteCells(cells, f, writes), m'.mem)
    ensures ChangedIn(m.mem, m'.mem, Reg64(m, RBP) - f.cursor, Reg64(m, RBP))
    decreases |writes|
  {
    hide FrameSound, Represents, WriteOp, WriteCell, InFrame, ChangedIn;
    var rbp := Reg64(m, RBP);
    if writes == [] {
      m' := m;
      NothingChanged(m.mem, rbp - f.cursor, rbp);
    } else {
      var o, v := writes[0].0, writes[0].1;
      assert Access(o, f);
      var m1 := OneWrite(env, f, o, v, cells, m);
      assert Reg64(m1, RBP) == rbp;
      m' := WritesRefine(env, f, writes[1..], WriteCell(cells, o, v), m1);
      ChangedTwice(m.mem, m1.mem, m'.mem, rbp - f.cursor, rbp);
    }
  }

  /** Whatever has been written through the slots of the frame that is computed for some
      code, every read through a slot yields what the pseudo register holds; nothing
      outside the frame has changed. */
  lemma FrameRefinesCells(env: Env, code: seq<AsmOp>, writes: seq<(Operand, nat)>, o: Operand, cells: Cells, m: Machine)
    returns (m': Machine)
    requires SizesKnown(code) && AllAccesses(writes, FrameOf(code)) && Access(o, FrameOf(code))
    requires FrameOf(code).cursor <= Reg64(m, RBP) && Represents(FrameOf(code), Reg64(m, RBP), cells, m.mem)
    ensures WriteSlots(env, FrameOf(code), writes, m) == Some(m')
    ensures ReadOp(env, InFrame(o, FrameOf(code).offs).kind, o.word, m') == Some(ReadCell(WriteCells(cells, FrameOf(code), writes), o))
    ensures ChangedIn(m.mem, m'.mem, Reg64(m, RBP) - FrameOf(code).cursor, Reg64(m, RBP))
  {
    hide FrameOf, FrameSound, Represents, ReadOp, ReadCell, ChangedIn, WriteSlots, WriteCells;
    FrameIsSound(code);
    m' := WritesRefine(env, FrameOf(code), writes, cells, m);
    assert Reg64(m', RBP) == Reg64(m, RBP);
    OneRead(env, FrameOf(code), o, WriteCells(cells, FrameOf(code), writes), m');
  }
}
