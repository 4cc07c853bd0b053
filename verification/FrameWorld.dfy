/** The frame that the compiler lays out, as the place where the variables of a
    function live: slots that lie apart from each other, below rbp and away from the
    named objects, so that every variable can be read and written by itself. */
module FrameWorld {
  import opened CAst
  import Ir
  import opened CSemantics
  import opened Asm
  import opened MemoryMap
  import opened StackFrame
  import opened FixupLists
  import opened SelectionMeaning
  import opened EndToEnd
  import opened LoweredShapes
  import opened SlotSizes

  /** Where the objects are: slots below rbp for the pseudo registers, and the places
      that the linker chose for the named objects, which are given with their sizes. */
  function LayoutOf(f: Frame, env: Env, objects: map<string, nat>, rbp: nat): Layout {
    map l: Loc | l in Locs(f, objects) :: SlotAt(f, env, objects, rbp, l)
  }

  function Locs(f: Frame, objects: map<string, nat>): set<Loc> {
    (set id | id in f.offs :: Loc.Tmp(id)) + (set name | name in objects :: Loc.Data(name))
  }

  function SlotAt(f: Frame, env: Env, objects: map<string, nat>, rbp: nat, l: Loc): Slot {
    match l
    case Tmp(id) => if id in f.offs && id in f.sizes && f.offs[id] <= rbp then Slot(rbp - f.offs[id], f.sizes[id]) else Slot(0, 0)
    case Data(name) => Slot(env.symbols(name), if name in objects then objects[name] else 0)
  }

  /** The bytes that the prologue reserves. */
  function Reserved(f: Frame): nat {
    RoundUp(f.cursor, 16)
  }

  /** There is room below rbp for the frame, and no named object overlaps another one,
      the frame, or what lies above it up to a limit. */
  ghost predicate RoomFor(f: Frame, env: Env, objects: map<string, nat>, rbp: nat, high: nat) {
    && Reserved(f) <= rbp <= high <= W64.Mod() && rbp < W64.Mod()
    && (forall n :: n in objects ==>
          && objects[n] in {1, 4, 8} && env.symbols(n) + objects[n] <= W64.Mod()
          && (env.symbols(n) + objects[n] <= rbp - Reserved(f) || high <= env.symbols(n)))
    && (forall n, k :: n in objects && k in objects && n != k ==>
          env.symbols(n) + objects[n] <= env.symbols(k) || env.symbols(k) + objects[k] <= env.symbols(n))
  }

  /** All variables are scalars. */
  ghost predicate Scalars(f: Frame) {
    forall id :: id in f.offs ==> id in f.sizes && f.sizes[id] in {1, 4, 8}
  }

  function FrameWorldOf(f: Frame, env: Env, objects: map<string, nat>, rbp: nat): World {
    World(LayoutOf(f, env, objects, rbp), env, rbp, f.offs)
  }

  /** Every slot of the frame lies in the space that has been reserved. */
  ghost predicate SlotsInside(f: Frame, layout: Layout, rbp: nat) {
    forall l :: l in layout && l.Tmp? ==> rbp - Reserved(f) <= layout[l].address && layout[l].address + layout[l].size <= rbp
  }

  lemma SlotInside(f: Frame, env: Env, objects: map<string, nat>, rbp: nat, high: nat, id: int)
    requires FrameSound(f) && Scalars(f) && RoomFor(f, env, objects, rbp, high) && id in f.offs
    ensures var s := SlotAt(f, env, objects, rbp, Tmp(id));
            && s == Slot(rbp - f.offs[id], f.sizes[id]) && s.size in {1, 4, 8}
            && rbp - Reserved(f) <= s.address && s.address + s.size <= rbp
  {
    hide RoundUp;
    assert SlotFits(f, id);
    ModularRoom(f);
  }

  lemma ModularRoom(f: Frame)
    ensures f.cursor <= Reserved(f)
  {
    RoundedUp(f.cursor, 16);
  }

  lemma TwoSlots(f: Frame, env: Env, objects: map<string, nat>, rbp: nat, high: nat, l: Loc, k: Loc)
    requires FrameSound(f) && Scalars(f) && RoomFor(f, env, objects, rbp, high)
    requires l in Locs(f, objects) && k in Locs(f, objects) && l != k
    ensures Apart(SlotAt(f, env, objects, rbp, l), SlotAt(f, env, objects, rbp, k))
  {
    hide Reserved;
    if l.Tmp? {
      SlotInside(f, env, objects, rbp, high, l.id);
    }
    if k.Tmp? {
      SlotInside(f, env, objects, rbp, high, k.id);
    }
    if l.Tmp? && k.Tmp? {
      assert SlotsApart(f, l.id, k.id);
    }
  }

  /** The frame and the named objects make a world: nothing overlaps, every variable is
      where its operand says, inside the reserved space, and the stretch from rbp to the
      limit belongs to no object. */
  lemma WorldFromFrame(f: Frame, env: Env, objects: map<string, nat>, rbp: nat, high: nat)
    requires FrameSound(f) && Scalars(f) && RoomFor(f, env, objects, rbp, high)
    ensures var w := FrameWorldOf(f, env, objects, rbp);
            WorldOk(w) && SlotsInside(f, w.layout, rbp) && ClearOf(w.layout, rbp, high)
  {
    hide FrameSound, Scalars, Reserved, SlotAt, Locs;
    var w := FrameWorldOf(f, env, objects, rbp);
    forall l | l in w.layout
      ensures w.layout[l].size in {1, 4, 8} && w.layout[l].address + w.layout[l].size <= W64.Mod() && Located(w, l)
      ensures l.Tmp? ==> rbp - Reserved(f) <= w.layout[l].address && w.layout[l].address + w.layout[l].size <= rbp
      ensures forall b: int :: rbp <= b < high ==> !InSlot(w.layout[l], b)
    {
      OneSlot(f, env, objects, rbp, high, l);
    }
    forall l, k | l in w.layout && k in w.layout && l != k ensures Apart(w.layout[l], w.layout[k]) {
      TwoSlots(f, env, objects, rbp, high, l, k);
    }
  }

  lemma OneSlot(f: Frame, env: Env, objects: map<string, nat>, rbp: nat, high: nat, l: Loc)
    requires FrameSound(f) && Scalars(f) && RoomFor(f, env, objects, rbp, high) && l in Locs(f, objects)
    ensures var s := SlotAt(f, env, objects, rbp, l);
            && s.size in {1, 4, 8} && s.address + s.size <= W64.Mod()
            && (match l case Tmp(id) => id in f.offs && s.address == rbp - f.offs[id] case Data(name) => s.address == env.symbols(name))
            && (l.Tmp? ==> rbp - Reserved(f) <= s.address && s.address + s.size <= rbp)
            && (forall b: int :: rbp <= b < high ==> !InSlot(s, b))
  {
    hide FrameSound, Scalars, Reserved;
    if l.Tmp? {
      SlotInside(f, env, objects, rbp, high, l.id);
    }
  }

  // ------------------------------------------------------- the frame of a function

  /** The frame of a function with its parameters and its other variables; those that
      the code does not mention come last. */
  function FrameFor(params: seq<Param>, ops: seq<Ir.IrOp>, vars: seq<Param>): Frame {
    FrameOf(AllCode(params, ops, vars))
  }

  function WorldFor(params: seq<Param>, ops: seq<Ir.IrOp>, vars: seq<Param>, env: Env, objects: map<string, nat>, rbp: nat): World {
    FrameWorldOf(FrameFor(params, ops, vars), env, objects, rbp)
  }

  /** What a function may name: its variables and temporaries with the sizes of scalars,
      and the objects. */
  ghost predicate SizesAgree(sizes: Sizes, objects: map<string, nat>) {
    forall l :: l in sizes ==>
                  sizes[l] in {1, 4, 8} && (l.Data? ==> l.name in objects && objects[l.name] == sizes[l])
  }

  /** No variable is first seen where it is truncated. */
  ghost predicate SeenWhole(params: seq<Param>, ops: seq<Ir.IrOp>) {
    forall id :: !NarrowFirst(params, ops, id)
  }

  lemma {:induction false} TouchedScalars(vars: seq<Param>)
    ensures SizesKnown(Touched(vars))
    decreases |vars|
  {
    if vars != [] {
      TouchedScalars(vars[1..]);
    }
  }

  lemma FrameForSound(sizes: Sizes, params: seq<Param>, ops: seq<Ir.IrOp>, vars: seq<Param>)
    requires WellShaped(sizes, ops) && VarsSized(sizes, params) && VarsSized(sizes, vars)
    ensures FrameSound(FrameFor(params, ops, vars))
  {
    hide FunctionCode, SettleAll, Touched;
    TouchedScalars(vars);
    FramedExtends(params, ops) by {
      ShapedWidens(sizes, ops);
    }
    assert SizesKnown(AllCode(params, ops, vars));
    FrameIsSound(AllCode(params, ops, vars));
  }

  lemma ShapedWidens(sizes: Sizes, ops: seq<Ir.IrOp>)
    requires WellShaped(sizes, ops)
    ensures ExtendsVariables(ops)
  {
    assert forall i :: 0 <= i < |ops| ==> Shape(ops[i]);
  }

  /** Slots for variables that the code does not mention change nothing in the code. */
  lemma FramedTheSame(params: seq<Param>, ops: seq<Ir.IrOp>, vars: seq<Param>, w: World)
    requires ExtendsVariables(ops) && w.offs == FrameFor(params, ops, vars).offs
    ensures FramedRight(w, params, ops)
  {
    hide FunctionCode, SettleAll, Touched, FrameSound, InFrame, Grows;
    var code := FunctionCode(params, ops);
    FramedExtends(params, ops);
    TouchedScalars(vars);
    var f, g := FrameOf(code), FrameFor(params, ops, vars);
    SettleAllSound(code, NO_FRAME);
    CallMeaning.SettleJoin(code, Touched(vars), NO_FRAME);
    SettleAllSound(Touched(vars), f);
    forall i | 0 <= i < |code| ensures OpInFrame(code[i], g.offs) == OpInFrame(code[i], f.offs) {
      assert code[i] in code;
      InFrameStays(code[i].a, f, g);
      InFrameStays(code[i].b, f, g);
    }
  }

  /** From the frame pass to the hypotheses about memory that the run of a function
      needs: with room for the frame, the world that it lays out is sound, every operand
      has a slot of its own size, and the code is the one that has been put into it. */
  lemma WorldHolds(sizes: Sizes, params: seq<Param>, ops: seq<Ir.IrOp>, vars: seq<Param>, env: Env, objects: map<string, nat>,
                   rbp: nat, high: nat)
    requires WellShaped(sizes, ops) && VarsSized(sizes, params) && VarsSized(sizes, vars) && SizesAgree(sizes, objects)
    requires SeenWhole(params, ops) && RoomFor(FrameFor(params, ops, vars), env, objects, rbp, high)
    ensures var w, f := WorldFor(params, ops, vars, env, objects, rbp), FrameFor(params, ops, vars);
            && WorldOk(w) && SlotsInside(f, w.layout, rbp) && ClearOf(w.layout, rbp, high)
            && SlotsMatch(w.layout, ops) && FramedRight(w, params, ops) && HasVars(w.layout, params) && HasVars(w.layout, vars)
  {
    hide AllCode, WellShaped, VarsSized, FrameOf, FrameSound, WorldOk, RoomFor, SizesAgree, NarrowFirst, ClearOf, SlotsInside, SlotsMatch,
      FramedRight, HasVars;
    var f := FrameFor(params, ops, vars);
    FrameForSound(sizes, params, ops, vars);
    SlotSizesExact(sizes, params, ops, vars);
    SlotsAreScalars(sizes, objects, f);
    WorldFromFrame(f, env, objects, rbp, high);
    ShapedWidens(sizes, ops);
    FramedTheSame(params, ops, vars, WorldFor(params, ops, vars, env, objects, rbp));
    OperandsPlaced(sizes, params, ops, vars, env, objects, rbp, high);
  }

  lemma SlotsAreScalars(sizes: Sizes, objects: map<string, nat>, f: Frame)
    requires SizesAgree(sizes, objects) && f.offs.Keys == f.sizes.Keys
    requires forall id :: id in f.offs ==> Tmp(id) in sizes && f.sizes[id] == sizes[Tmp(id)]
    ensures Scalars(f)
  {
  }

  ghost predicate HasVars(layout: Layout, vars: seq<Param>) {
    forall i :: 0 <= i < |vars| ==> IsDest(layout, ParamVal(vars[i]))
  }

  /** A variable with a slot of its size. */
  lemma PlacedIn(sizes: Sizes, objects: map<string, nat>, f: Frame, env: Env, rbp: nat, v: Ir.IrVal)
    requires ValSized(sizes, v) && SizesAgree(sizes, objects) && Reserved(f) <= rbp && FrameSound(f)
    requires v.Variable? && v.loc.Tmp? ==> v.loc.id in f.offs
    requires forall id :: id in f.offs ==> Tmp(id) in sizes && f.sizes[id] == sizes[Tmp(id)]
    ensures ValTyped(LayoutOf(f, env, objects, rbp), v)
  {
    hide RoundUp;
    ModularRoom(f);
    if v.Variable? && v.loc.Tmp? {
      assert SlotFits(f, v.loc.id);
    }
  }

  lemma OperandsPlaced(sizes: Sizes, params: seq<Param>, ops: seq<Ir.IrOp>, vars: seq<Param>, env: Env, objects: map<string, nat>,
                       rbp: nat, high: nat)
    requires WellShaped(sizes, ops) && VarsSized(sizes, params) && VarsSized(sizes, vars) && SizesAgree(sizes, objects)
    requires SeenWhole(params, ops) && RoomFor(FrameFor(params, ops, vars), env, objects, rbp, high)
    ensures var layout := LayoutOf(FrameFor(params, ops, vars), env, objects, rbp);
            SlotsMatch(layout, ops) && HasVars(layout, params) && HasVars(layout, vars)
  {
    hide AllCode, FrameOf, FrameSound, SizesAgree, NarrowFirst, LayoutOf, Reserved, Mentions;
    var f := FrameFor(params, ops, vars);
    var layout := LayoutOf(f, env, objects, rbp);
    FrameForSound(sizes, params, ops, vars);
    SlotSizesExact(sizes, params, ops, vars);
    forall i, j | 0 <= i < |ops| && 0 <= j < |OperandsOf(ops[i])| ensures ValTyped(layout, OperandsOf(ops[i])[j]) {
      var v := OperandsOf(ops[i])[j];
      assert OperandsSized(sizes, ops[i]) && ValSized(sizes, v);
      if v.Variable? && v.loc.Tmp? {
        HasSlot(sizes, params, ops, vars, i, j, v.loc.id);
      }
      PlacedIn(sizes, objects, f, env, rbp, v);
    }
    forall i | 0 <= i < |params| ensures IsDest(layout, ParamVal(params[i])) {
      ListedSlot(sizes, params, ops, vars, params[i].id);
      PlacedIn(sizes, objects, f, env, rbp, ParamVal(params[i]));
    }
    forall i | 0 <= i < |vars| ensures IsDest(layout, ParamVal(vars[i])) {
      ListedSlot(sizes, params, ops, vars, vars[i].id);
      PlacedIn(sizes, objects, f, env, rbp, ParamVal(vars[i]));
    }
  }

  lemma HasSlot(sizes: Sizes, params: seq<Param>, ops: seq<Ir.IrOp>, vars: seq<Param>, i: nat, j: nat, id: int)
    requires WellShaped(sizes, ops) && VarsSized(sizes, params) && VarsSized(sizes, vars)
    requires i < |ops| && j < |OperandsOf(ops[i])| && IsVar(OperandsOf(ops[i])[j], id)
    ensures id in FrameFor(params, ops, vars).offs
  {
    hide AllCode, SettleAll, FirstMention, WellShaped, VarsSized;
    assert Mentions(ops[i], id);
    FirstOfAll(sizes, params, ops, vars, id);
    FirstDecides(AllCode(params, ops, vars), NO_FRAME, id);
  }

  lemma ListedSlot(sizes: Sizes, params: seq<Param>, ops: seq<Ir.IrOp>, vars: seq<Param>, id: int)
    requires WellShaped(sizes, ops) && VarsSized(sizes, params) && VarsSized(sizes, vars) && (Listed(params, id) || Listed(vars, id))
    ensures id in FrameFor(params, ops, vars).offs
  {
    hide AllCode, SettleAll, FirstMention, WellShaped, VarsSized, Listed;
    FirstOfAll(sizes, params, ops, vars, id);
    FirstDecides(AllCode(params, ops, vars), NO_FRAME, id);
  }

  // ------------------------------------------------------------------ consequences

  ghost predicate InObjects(env: Env, objects: map<string, nat>, b: int) {
    exists n :: n in objects && env.symbols(n) <= b < env.symbols(n) + objects[n]
  }

  /** What a function leaves alone: all bytes from rbp upwards and below the reserved
      space, unless they belong to a named object. */
  lemma CallerUntouched(f: Frame, env: Env, objects: map<string, nat>, rbp: nat, mem: Bytes, mem': Bytes, b: int)
    requires var layout := LayoutOf(f, env, objects, rbp); Outside(layout, mem, mem') && SlotsInside(f, layout, rbp)
    requires (b < rbp - Reserved(f) || rbp <= b) && !InObjects(env, objects, b)
    ensures ByteAt(mem', b) == ByteAt(mem, b)
  {
    hide Reserved, ByteAt;
    var layout := LayoutOf(f, env, objects, rbp);
    forall l | l in layout ensures !InSlot(layout[l], b) {
      if l.Data? {
        assert layout[l] == Slot(env.symbols(l.name), objects[l.name]);
      }
    }
  }

  /** Writes to the objects of a function act as writes to a map: whatever has been
      written, every variable reads as what was written to it last. */
  lemma FrameRefinesMap(f: Frame, env: Env, objects: map<string, nat>, rbp: nat, high: nat, st: Store, mem: Bytes,
                        writes: seq<(Loc, nat)>, l: Loc)
    requires FrameSound(f) && Scalars(f) && RoomFor(f, env, objects, rbp, high)
    requires var layout := LayoutOf(f, env, objects, rbp); Stored(layout, st, mem) && forall w :: w in writes ==> w.0 in layout
    requires l in WriteAll(st, LayoutOf(f, env, objects, rbp), writes)
    ensures var layout := LayoutOf(f, env, objects, rbp);
            l in layout && LoadBytes(StoreAll(mem, layout, writes), layout[l].address, layout[l].size) == WriteAll(st, layout, writes)[l]
  {
    hide FrameSound, Scalars, RoomFor, LayoutOf, LoadBytes, StoreBytes;
    WorldFromFrame(f, env, objects, rbp, high);
    SlotsRefineMap(LayoutOf(f, env, objects, rbp), st, mem, writes, l);
  }
}
