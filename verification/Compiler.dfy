/** The whole way from the typed tree of a program to its instructions. */
module Compiler {
  import opened Wrappers
  import opened CTypes
  import opened CAst
  import Ir
  import opened CSemantics
  import opened Lowering
  import opened Lvalues
  import opened Simulation
  import opened StmtSimulation
  import LoweringCorrectness
  import opened LoopLabels
  import opened PlainMeaning
  import opened Pipeline
  import Asm
  import opened MachineFacts
  import opened MemoryMap
  import StackFrame
  import FixupLists
  import opened FixupRuns
  import opened SelectionMeaning
  import opened SelectionRuns
  import opened EndToEnd
  import opened LoweredShapes
  import opened TypedTrees
  import opened SlotSizes
  import opened FrameWorld
  import opened CallingSequence
  import opened CallMeaning
  import Fixups

  type Machine = Asm.Machine

  // ---------------------------------------------------------------- accepted trees

  lemma {:induction false} PlainSelectable(s: Stmt, base: int)
    ensures SelectableStmt(Plain(s), base) <==> SelectableStmt(s, base)
    decreases s
  {
    match s
    case Block(f) => PlainSelectableFlat(f, base);
    case IfElse(_, a, b) =>
      PlainSelectableFlat(a, base);
      if b.Some? {
        PlainSelectableFlat(b.value, base);
      }
    case Loop(_, b, _, _, _, _, _) => PlainSelectableFlat(b, base);
    case Switch(_, b, _, _, _) => PlainSelectableFlat(b, base);
    case _ =>
  }

  lemma {:induction false} PlainSelectableFlat(f: Flat, base: int)
    ensures SelectableFlat(PlainFlat(f), base) <==> SelectableFlat(f, base)
    decreases f
  {
    if f.Cons? {
      PlainSelectable(f.car, base);
      PlainSelectableFlat(f.cdr, base);
    }
  }

  lemma {:induction false} PlainTame(s: Stmt)
    ensures TameStmt(Plain(s)) <==> TameStmt(s)
    decreases s
  {
    match s
    case Block(f) => PlainTameFlat(f);
    case IfElse(_, a, b) =>
      PlainTameFlat(a);
      if b.Some? {
        PlainTameFlat(b.value);
      }
    case Loop(_, b, _, _, _, _, _) => PlainTameFlat(b);
    case Switch(_, b, _, _, _) => PlainTameFlat(b);
    case _ =>
  }

  lemma {:induction false} PlainTameFlat(f: Flat)
    ensures TameFlat(PlainFlat(f)) <==> TameFlat(f)
    decreases f
  {
    if f.Cons? {
      PlainTame(f.car);
      PlainTameFlat(f.cdr);
    }
  }

  // --------------------------------------------------------------- typed functions

  /** A layout that gives the variables their sizes; where they are does not matter. */
  function VarTypes(vars: seq<Param>): Layout {
    if vars == [] then map[] else
    var v := vars[|vars| - 1];
    VarTypes(vars[..|vars| - 1])[Tmp(v.id) := Slot(0, v.ty.Size())]
  }

  function TypesOf(f: Function, objects: map<string, nat>): Layout {
    VarTypes(f.params + f.locals) + map l: Loc | l in NamesOf(objects) :: Slot(0, if l.Data? && l.name in objects then objects[l.name] else 0)
  }

  function NamesOf(objects: map<string, nat>): set<Loc> {
    set name | name in objects :: Loc.Data(name)
  }

  ghost predicate DistinctVars(vars: seq<Param>, lastId: int) {
    && (forall i :: 0 <= i < |vars| ==> vars[i].id <= lastId)
    && (forall i, j :: 0 <= i < j < |vars| ==> vars[i].id != vars[j].id)
  }

  lemma {:induction false} VarTypesAre(vars: seq<Param>, lastId: int)
    requires DistinctVars(vars, lastId)
    ensures forall i :: 0 <= i < |vars| ==> Tmp(vars[i].id) in VarTypes(vars) && VarTypes(vars)[Tmp(vars[i].id)] == Slot(0, vars[i].ty.Size())
    ensures forall l :: l in VarTypes(vars) ==> l.Tmp? && Listed(vars, l.id) && VarTypes(vars)[l].size in {1, 4, 8}
    decreases |vars|
  {
    if vars != [] {
      var rest := vars[..|vars| - 1];
      VarTypesAre(rest, lastId);
      forall i | 0 <= i < |vars| ensures Tmp(vars[i].id) in VarTypes(vars) && VarTypes(vars)[Tmp(vars[i].id)] == Slot(0, vars[i].ty.Size()) {
        if i < |vars| - 1 {
          assert rest[i] == vars[i] && vars[i].id != vars[|vars| - 1].id;
        }
      }
      forall l | l in VarTypes(vars) ensures l.Tmp? && Listed(vars, l.id) && VarTypes(vars)[l].size in {1, 4, 8} {
        if l != Tmp(vars[|vars| - 1].id) {
          var i :| 0 <= i < |rest| && rest[i].id == l.id;
          assert vars[i].id == l.id;
        }
      }
    }
  }

  /** The trees that the type checker lets through: typed by the declarations of the
      function and of the named objects, with ids of variables up to lastId, and
      returning what the function returns. */
  ghost predicate TypeChecked(f: Function, lastId: int, objects: map<string, nat>) {
    && DistinctVars(f.params + f.locals, lastId) && (forall n :: n in objects ==> objects[n] in {1, 4, 8})
    && SelectableFlat(f.body, lastId + 1) && WellTypedFlat(TypesOf(f, objects), f.body) && ReturnsTypedFlat(f.body, f.returnType)
  }

  lemma TypesAre(f: Function, lastId: int, objects: map<string, nat>)
    requires TypeChecked(f, lastId, objects)
    ensures var types := TypesOf(f, objects);
            && (forall l :: l in types ==> types[l].size in {1, 4, 8}
                                           && match l case Tmp(id) => id <= lastId && (Listed(f.params, id) || Listed(f.locals, id))
                                                      case Data(n) => n in objects && objects[n] == types[l].size)
            && (forall i :: 0 <= i < |f.params| ==> Tmp(f.params[i].id) in types && types[Tmp(f.params[i].id)].size == f.params[i].ty.Size())
            && (forall i :: 0 <= i < |f.locals| ==> Tmp(f.locals[i].id) in types && types[Tmp(f.locals[i].id)].size == f.locals[i].ty.Size())
  {
    hide SelectableFlat, WellTypedFlat, ReturnsTypedFlat, CType.Size, VarTypes, TypesOf;
    var vars, types := f.params + f.locals, TypesOf(f, objects);
    VarTypesAre(vars, lastId);
    NamesAndVars(f, objects, lastId);
    forall l | l in types && l.Tmp? ensures Listed(f.params, l.id) || Listed(f.locals, l.id) {
      var i :| 0 <= i < |vars| && vars[i].id == l.id;
      assert vars[i] == if i < |f.params| then f.params[i] else f.locals[i - |f.params|];
    }
    forall i | 0 <= i < |f.params| ensures Tmp(f.params[i].id) in types && types[Tmp(f.params[i].id)].size == f.params[i].ty.Size() {
      assert vars[i] == f.params[i];
    }
    forall i | 0 <= i < |f.locals| ensures Tmp(f.locals[i].id) in types && types[Tmp(f.locals[i].id)].size == f.locals[i].ty.Size() {
      assert vars[|f.params| + i] == f.locals[i];
    }
  }

  /** The layout holds the variables and the named objects. */
  lemma NamesAndVars(f: Function, objects: map<string, nat>, lastId: int)
    requires DistinctVars(f.params + f.locals, lastId)
    ensures var types, vars := TypesOf(f, objects), VarTypes(f.params + f.locals);
            && (forall l :: l in vars ==> l in types && types[l] == vars[l])
            && (forall l :: l in types ==> match l case Tmp(_) => l in vars
                                                   case Data(n) => n in objects && types[l].size == objects[n])
  {
    hide CType.Size;
    VarTypesAre(f.params + f.locals, lastId);
    hide VarTypes;
  }

  /** The operations of a function: shapes that selection can use, one size for every
      variable, and constants as tame as those of the source. */
  lemma LoweredWell(f: Function, ops: seq<Ir.IrOp>, lastId: int, objects: map<string, nat>, tame: bool) returns (sizes: Sizes)
    requires TypeChecked(f, lastId, objects) && LoweredFrom(f, ops, lastId) && (tame ==> TameFlat(f.body))
    ensures WellShaped(sizes, ops) && VarsSized(sizes, f.params) && VarsSized(sizes, f.locals) && SizesAgree(sizes, objects)
    ensures tame ==> forall i :: 0 <= i < |ops| ==> Tame(ops[i])
  {
    hide Shaped, LowerFunction, TypesOf, WellTypedFlat, SelectableFlat, TameFlat, SmallCasesFlat, ReturnsTypedFlat, WellLabelledFlat, PlainFlat;
    var types := TypesOf(f, objects);
    TypesAre(f, lastId, objects);
    hide TypeChecked;
    var body, g, n, names :| IsLowered(f, ops, lastId, body, g, n, names);
    assert FineFlat(Setting(types, lastId + 1, tame), body) by {
      BodyFine(f, body, lastId, objects, tame, names);
    }
    sizes := FunctionShapes(Setting(types, lastId + 1, tame), body, f.IsVoid(), g, n);
    ShapedMeans(Setting(types, lastId + 1, tame), sizes, ops);
  }

  lemma BodyFine(f: Function, body: Flat, lastId: int, objects: map<string, nat>, tame: bool, names: map<string, int>)
    requires TypeChecked(f, lastId, objects) && (tame ==> TameFlat(f.body))
    requires PlainFlat(body) == PlainFlat(f.body) && WellLabelledFlat(body, Targets(-1, -1, names))
    ensures FineFlat(Setting(TypesOf(f, objects), lastId + 1, tame), body)
  {
    hide TypesOf, PlainFlat, WellLabelledFlat, ReturnsTypedFlat;
    PlainTypedFlat(TypesOf(f, objects), f.body);
    PlainTypedFlat(TypesOf(f, objects), body);
    PlainSelectableFlat(f.body, lastId + 1);
    PlainSelectableFlat(body, lastId + 1);
    PlainTameFlat(f.body);
    PlainTameFlat(body);
    LabelledSmallFlat(body, Targets(-1, -1, names));
  }

  lemma ShapedMeans(k: Setting, sizes: Sizes, ops: seq<Ir.IrOp>)
    requires Shaped(k, sizes, ops)
    ensures WellShaped(sizes, ops) && (k.tame ==> forall i :: 0 <= i < |ops| ==> Tame(ops[i]))
  {
    hide Shape, OperandsSized, Tame;
    assert forall i :: 0 <= i < |ops| ==> OpFits(k, sizes, ops[i]);
  }

  // ------------------------------------------------------------------ the compiler

  lemma CheckedLowers(f: Function, lastId: int, objects: map<string, nat>)
    requires TypeChecked(f, lastId, objects)
    ensures LowersFlat(f.body)
  {
    hide WellTypedFlat, SelectableFlat, ReturnsTypedFlat, TypesOf, LowersFlat;
    TypedFlatLowers(TypesOf(f, objects), f.body);
  }

  lemma ShapedInRange(sizes: Sizes, ops: seq<Ir.IrOp>)
    requires WellShaped(sizes, ops)
    ensures forall i :: 0 <= i < |ops| ==> InRange(ops[i])
  {
    hide Shape;
    forall i | 0 <= i < |ops| ensures InRange(ops[i]) {
      var v := OperandsOf(ops[i]);
      assert |v| > 0 ==> ValSized(sizes, v[0]);
      assert |v| > 1 ==> ValSized(sizes, v[1]);
      assert |v| > 2 ==> ValSized(sizes, v[2]);
    }
  }

  /** Every pass, for every function. */
  method Compile(fs: seq<Function>, lastId: int, ghost objects: map<string, nat>)
    returns (r: Option<seq<FixupLists.AsmFunction>>, ghost ir: seq<seq<Ir.IrOp>>)
    requires forall i :: 0 <= i < |fs| ==> TypeChecked(fs[i], lastId, objects)
    ensures r.Some? <==> forall i :: 0 <= i < |fs| ==> Accepted(fs[i].body)
    ensures r.Some? ==> |r.value| == |ir| == |fs|
    ensures r.Some? ==> forall i :: 0 <= i < |fs| ==> Faithful(fs[i], ir[i], lastId) && LoweredFrom(fs[i], ir[i], lastId)
    ensures r.Some? ==> forall i :: 0 <= i < |fs| ==> r.value[i].Valid() && r.value[i].code == AsmOf(fs[i].params, ir[i])
    ensures r.Some? ==> forall i :: 0 <= i < |fs| ==> Fixups.AllLegal(AsmOf(fs[i].params, ir[i]))
  {
    hide TypeChecked, Accepted, LowersFlat, Faithful, LoweredFrom, AsmOf, Fixups.AllLegal, InRange, WellShaped, VarsSized, SizesAgree, ExtendsVariables;
    var lowered := CompileProgram(fs, lastId);
    forall i | 0 <= i < |fs| ensures LowersFlat(fs[i].body) {
      CheckedLowers(fs[i], lastId, objects);
    }
    if !lowered.Translated? {
      return None, [];
    }
    ir := lowered.code;
    var out: seq<FixupLists.AsmFunction> := [];
    for i := 0 to |fs|
      invariant |out| == i
      invariant forall j :: 0 <= j < i ==> out[j].Valid() && out[j].code == AsmOf(fs[j].params, ir[j])
      invariant forall j :: 0 <= j < i ==> Fixups.AllLegal(AsmOf(fs[j].params, ir[j]))
    {
      ghost var sizes := LoweredWell(fs[i], ir[i], lastId, objects, false);
      ShapedWidens(sizes, ir[i]);
      ShapedInRange(sizes, ir[i]);
      FunctionLegal(fs[i].params, ir[i]);
      var f := Codegen(fs[i].params, lowered.code[i]);
      out := out + [f];
    }
    return Some(out), ir;
  }

  // ---------------------------------------------------------------- what it means

  lemma AllTypedHere(sizes: Sizes, w: World, ops: seq<Ir.IrOp>)
    requires WellShaped(sizes, ops) && SlotsMatch(w.layout, ops)
    ensures AllTyped(w, ops)
  {
    hide OperandsSized;
    forall i | 0 <= i < |ops| ensures OpTyped(w.layout, ops[i]) {
      assert Shape(ops[i]);
      ShapedAndSlotted(w.layout, ops[i]);
    }
  }

  /** Where a function finds what it works on: the frame that has been laid out for it
      below its frame pointer, and the named objects. */
  function WorldAt(f: Function, ops: seq<Ir.IrOp>, env: Asm.Env, objects: map<string, nat>, rbp: nat): World {
    WorldFor(f.params, ops, f.locals, env, objects, rbp)
  }

  function StackArgsEnd(f: Function, rbp: nat): nat {
    rbp + FIRST_STACK_ARG + PUSH_BYTES * Stacked(ArgsOf(f.params), |f.params|)
  }

  /** A function is called: there is room for its frame, its arguments are where they
      belong, and the objects hold the values of the store. */
  ghost predicate Called(f: Function, ops: seq<Ir.IrOp>, env: Asm.Env, objects: map<string, nat>, values: seq<nat>, s: CSemantics.Store,
                         m: Machine)
  {
    var rbp := Asm.Reg64(m, Asm.RBP);
    && RoomFor(FrameFor(f.params, ops, f.locals), env, objects, rbp, StackArgsEnd(f, rbp))
    && |values| == |f.params| && Passed(ArgsOf(f.params), values, m, rbp + FIRST_STACK_ARG)
    && (forall i :: 0 <= i < |values| ==> values[i] < Modulus(f.params[i].ty))
    && Stored(WorldAt(f, ops, env, objects, rbp).layout, s, m.mem)
  }

  /** The value of a return has the return type and is in ax at its width; a function
      that is not void and runs into its end leaves zero in the low byte of ax. */
  ghost predicate ResultRight(f: Function, out: Outcome, m: Machine) {
    if out.Returned? then
      f.returnType.Some? ==> out.v.Some? && out.v.value.ty == f.returnType.value
                             && Asm.Reg64(m, Asm.AX) % Modulus(f.returnType.value) == out.v.value.bits
    else f.returnType.Some? ==> Asm.Reg64(m, Asm.AX) % 256 == 0
  }

  /** A run that has ended: the objects of the program hold what they should, and of
      everything else only bytes below the frame pointer that the function has reserved
      may have changed. */
  ghost predicate Ends(f: Function, ops: seq<Ir.IrOp>, env: Asm.Env, objects: map<string, nat>, m: Machine, s': CSemantics.Store,
                       out: Outcome, d: Run)
  {
    var rbp := Asm.Reg64(m, Asm.RBP);
    && d.Finished? && Stored(WorldAt(f, ops, env, objects, rbp).layout, s', d.m.mem) && ResultRight(f, out, d.m)
    && Asm.Reg64(d.m, Asm.RBP) == rbp && OthersKept(FrameFor(f.params, ops, f.locals), env, objects, rbp, m.mem, d.m.mem)
  }

  ghost predicate OthersKept(frame: StackFrame.Frame, env: Asm.Env, objects: map<string, nat>, rbp: nat, mem: Asm.Bytes, mem': Asm.Bytes) {
    forall b: int :: (b < rbp - Reserved(frame) || rbp <= b) && !InObjects(env, objects, b) ==> Asm.ByteAt(mem', b) == Asm.ByteAt(mem, b)
  }

  /** What a source execution promises about the machine. */
  ghost predicate MachineBehaves(f: Function, ops: seq<Ir.IrOp>, env: Asm.Env, objects: map<string, nat>, m: Machine, res: ExecResult,
                                 fuel: nat)
  {
    match res
    case Undefined => true
    case Timeout => exists j: nat :: j >= fuel && IterAsm(env, AsmOf(f.params, ops), At(0, m), j).At?
    case Done(out, s') => exists j: nat :: Ends(f, ops, env, objects, m, s', out, IterAsm(env, AsmOf(f.params, ops), At(0, m), j))
  }

  /** The values of the arguments are those of the parameters. */
  function OnEntry(f: Function, s: CSemantics.Store, values: seq<nat>): CSemantics.Store {
    if |values| == |f.params| then WithParams(s, f.params, values, |f.params|) else s
  }

  /** The source execution of a call with these values. */
  ghost function SourceRun(f: Function, ops: seq<Ir.IrOp>, env: Asm.Env, objects: map<string, nat>, values: seq<nat>, s: CSemantics.Store,
                           m: Machine, fuel: nat): ExecResult
  {
    RunBody(WorldAt(f, ops, env, objects, Asm.Reg64(m, Asm.RBP)).layout, f.body, Go, OnEntry(f, s, values), fuel)
  }

  // ----------------------------------------------------------------- preparations

  lemma WorldMoves(f: Function, lastId: int, objects: map<string, nat>, layout: Layout)
    requires TypeChecked(f, lastId, objects) && HasVars(layout, f.params) && HasVars(layout, f.locals)
    requires forall n :: n in objects ==> Loc.Data(n) in layout && layout[Loc.Data(n)].size == objects[n]
    ensures WellTypedFlat(layout, f.body)
  {
    hide WellTypedFlat, SelectableFlat, ReturnsTypedFlat, TypesOf, HasVars;
    var types := TypesOf(f, objects);
    TypesAre(f, lastId, objects);
    forall l | l in types ensures l in layout && layout[l].size == types[l].size {
      if l.Tmp? {
        if Listed(f.params, l.id) {
          var i :| 0 <= i < |f.params| && f.params[i].id == l.id;
          VarHere(layout, f.params, i);
        } else {
          var i :| 0 <= i < |f.locals| && f.locals[i].id == l.id;
          VarHere(layout, f.locals, i);
        }
      }
    }
    MovedFlat(types, layout, f.body);
  }

  lemma VarHere(layout: Layout, vars: seq<Param>, i: nat)
    requires i < |vars| && HasVars(layout, vars)
    ensures Tmp(vars[i].id) in layout && layout[Tmp(vars[i].id)].size == vars[i].ty.Size() && IsDest(layout, ParamVal(vars[i]))
  {
    assert IsDest(layout, ParamVal(vars[i]));
  }

  lemma ObjectsHere(f: Function, ops: seq<Ir.IrOp>, env: Asm.Env, objects: map<string, nat>, rbp: nat)
    ensures var layout := WorldAt(f, ops, env, objects, rbp).layout;
            forall n :: n in objects ==> Loc.Data(n) in layout && layout[Loc.Data(n)].size == objects[n]
  {
    hide FrameFor;
  }

  /** What a call sets up is what a run needs. */
  lemma CalledReady(f: Function, ops: seq<Ir.IrOp>, lastId: int, env: Asm.Env, objects: map<string, nat>, values: seq<nat>,
                    s: CSemantics.Store, m: Machine, sizes: Sizes)
    requires TypeChecked(f, lastId, objects) && SeenWhole(f.params, ops) && Called(f, ops, env, objects, values, s, m)
    requires WellShaped(sizes, ops) && VarsSized(sizes, f.params) && VarsSized(sizes, f.locals) && SizesAgree(sizes, objects)
    ensures var w := WorldAt(f, ops, env, objects, Asm.Reg64(m, Asm.RBP));
            && Rel(w, m.mem, s, m) && Entered(w, f.params, values, m) && FramedRight(w, f.params, ops) && AllTyped(w, ops)
            && WellTypedFlat(w.layout, f.body)
            && SlotsInside(FrameFor(f.params, ops, f.locals), w.layout, w.rbp)
  {
    hide TypeChecked, WellShaped, VarsSized, SizesAgree, SeenWhole, RoomFor, FrameFor, FrameWorldOf, WorldOk, SlotsMatch, FramedRight, HasVars,
      ClearOf, SlotsInside, Stored, WellTypedFlat, AllTyped, Passed, Modulus;
    var rbp := Asm.Reg64(m, Asm.RBP);
    var w := WorldAt(f, ops, env, objects, rbp);
    assert w.rbp == rbp && w.env == env by { WorldParts(f, ops, env, objects, rbp); }
    WorldHolds(sizes, f.params, ops, f.locals, env, objects, rbp, StackArgsEnd(f, rbp));
    AllTypedHere(sizes, w, ops);
    ObjectsHere(f, ops, env, objects, rbp);
    WorldMoves(f, lastId, objects, w.layout);
    Unchanged(w.layout, m.mem);
    forall i | 0 <= i < |f.params| ensures IsDest(w.layout, ParamVal(f.params[i])) {
      VarHere(w.layout, f.params, i);
    }
    RoomEnds(FrameFor(f.params, ops, f.locals), env, objects, rbp, StackArgsEnd(f, rbp));
    EnteredHere(f, w, values, m);
  }

  lemma RoomEnds(frame: StackFrame.Frame, env: Asm.Env, objects: map<string, nat>, rbp: nat, high: nat)
    requires RoomFor(frame, env, objects, rbp, high)
    ensures high <= Asm.Word.W64.Mod() && Reserved(frame) <= rbp
  {
  }

  lemma WorldParts(f: Function, ops: seq<Ir.IrOp>, env: Asm.Env, objects: map<string, nat>, rbp: nat)
    ensures WorldAt(f, ops, env, objects, rbp).rbp == rbp && WorldAt(f, ops, env, objects, rbp).env == env
  {
  }

  lemma Unchanged(layout: Layout, mem: Asm.Bytes)
    ensures Outside(layout, mem, mem)
  {
  }

  lemma EnteredHere(f: Function, w: World, values: seq<nat>, m: Machine)
    requires w.rbp == Asm.Reg64(m, Asm.RBP) && StackArgsEnd(f, w.rbp) <= Asm.Word.W64.Mod() && ClearOf(w.layout, w.rbp, StackArgsEnd(f, w.rbp))
    requires |values| == |f.params| && Passed(ArgsOf(f.params), values, m, w.rbp + FIRST_STACK_ARG)
    requires forall i :: 0 <= i < |values| ==> values[i] < Modulus(f.params[i].ty)
    requires forall i :: 0 <= i < |f.params| ==> IsDest(w.layout, ParamVal(f.params[i]))
    ensures Entered(w, f.params, values, m)
  {
    hide ClearOf, Passed, Modulus, IsDest, Asm.Reg64;
    Narrower(w.layout, w.rbp, StackArgsEnd(f, w.rbp), w.rbp + FIRST_STACK_ARG, StackArgsEnd(f, w.rbp));
  }

  lemma StoredOk(w: World, mem0: Asm.Bytes, s: CSemantics.Store, m: Machine)
    requires Rel(w, mem0, s, m)
    ensures StoreOk(w.layout, s)
  {
    forall l | l in s ensures l in w.layout && s[l] < ModulusOfSize(w.layout[l].size) {
      var p := w.layout[l];
      LoadBound(m.mem, p.address, p.size);
      WordPower(if p.size == 1 then Asm.W8 else if p.size == 4 then Asm.W32 else Asm.W64);
    }
  }

  /** The store with which the body starts. */
  lemma {:induction false} EntryStoreOk(layout: Layout, s: CSemantics.Store, params: seq<Param>, values: seq<nat>, n: nat, lastId: int)
    requires StoreOk(layout, s) && Below(s, lastId + 1) && n <= |params| == |values|
    requires forall i :: 0 <= i < |params| ==>
               IsDest(layout, ParamVal(params[i])) && values[i] < Modulus(params[i].ty) && params[i].id <= lastId
    ensures StoreOk(layout, WithParams(s, params, values, n)) && Below(WithParams(s, params, values, n), lastId + 1)
    decreases n
  {
    if n > 0 {
      EntryStoreOk(layout, s, params, values, n - 1, lastId);
      assert IsDest(layout, ParamVal(params[n - 1]));
    }
  }

  lemma UseFaithful(f: Function, ops: seq<Ir.IrOp>, lastId: int, layout: Layout, s: CSemantics.Store, fuel: nat)
    requires Faithful(f, ops, lastId) && WellTypedFlat(layout, f.body) && StoreOk(layout, s) && Below(s, lastId + 1)
    ensures LoweringCorrectness.Behaves(ops, layout, RunBody(layout, f.body, Go, s, fuel), f.IsVoid(), s, fuel)
  {
    hide WellTypedFlat, StoreOk, Below, RunBody, LoweringCorrectness.Behaves;
    assert Agree(s, s);
  }

  lemma StoredAgrees(w: World, mem0: Asm.Bytes, s: CSemantics.Store, t: CSemantics.Store, m: Machine)
    requires Agree(s, t) && Rel(w, mem0, t, m)
    ensures Stored(w.layout, s, m.mem) && Outside(w.layout, mem0, m.mem) && Asm.Reg64(m, Asm.RBP) == w.rbp
  {
  }

  /** The source execution of a call, on the IR. */
  lemma IrBehaves(f: Function, ops: seq<Ir.IrOp>, lastId: int, env: Asm.Env, objects: map<string, nat>, values: seq<nat>,
                  s: CSemantics.Store, m: Machine, fuel: nat, sizes: Sizes)
    requires TypeChecked(f, lastId, objects) && SeenWhole(f.params, ops) && Called(f, ops, env, objects, values, s, m)
    requires WellShaped(sizes, ops) && VarsSized(sizes, f.params) && VarsSized(sizes, f.locals) && SizesAgree(sizes, objects)
    requires Faithful(f, ops, lastId) && Below(s, lastId + 1)
    ensures var layout, s1 := WorldAt(f, ops, env, objects, Asm.Reg64(m, Asm.RBP)).layout, OnEntry(f, s, values);
            LoweringCorrectness.Behaves(ops, layout, RunBody(layout, f.body, Go, s1, fuel), f.IsVoid(), s1, fuel)
  {
    hide WellShaped, VarsSized, SizesAgree, SeenWhole, Faithful, RunBody, WorldAt, Rel, AllTyped, FramedRight, StoreOk, Below, WellTypedFlat,
      SelectableFlat, ReturnsTypedFlat, Modulus, TypesOf, LoweringCorrectness.Behaves, Passed, RoomFor, SlotsInside, Stored;
    CalledReady(f, ops, lastId, env, objects, values, s, m, sizes);
    var w := WorldAt(f, ops, env, objects, Asm.Reg64(m, Asm.RBP));
    StoredOk(w, m.mem, s, m);
    forall i | 0 <= i < |f.params| ensures IsDest(w.layout, ParamVal(f.params[i])) && values[i] < Modulus(f.params[i].ty) && f.params[i].id <= lastId {
      assert (f.params + f.locals)[i] == f.params[i];
      EnteredAt(w, f.params, values, i, m);
    }
    EntryStoreOk(w.layout, s, f.params, values, |f.params|, lastId);
    UseFaithful(f, ops, lastId, w.layout, OnEntry(f, s, values), fuel);
  }

  // ------------------------------------------------------------------- main result

  /** The instructions of a compiled function, entered with its arguments in their
      places, do what its source does with these values of the parameters, for every
      input and every amount of fuel; they leave the frame of the caller alone. */
  lemma SourceToMachine(f: Function, ops: seq<Ir.IrOp>, lastId: int, env: Asm.Env, objects: map<string, nat>, values: seq<nat>,
                        s: CSemantics.Store, m: Machine, fuel: nat)
    requires TypeChecked(f, lastId, objects) && TameFlat(f.body) && SeenWhole(f.params, ops)
    requires LoweredFrom(f, ops, lastId) && Faithful(f, ops, lastId)
    requires Called(f, ops, env, objects, values, s, m) && Below(s, lastId + 1)
    ensures MachineBehaves(f, ops, env, objects, m, SourceRun(f, ops, env, objects, values, s, m, fuel), fuel)
  {
    hide TypeChecked, TameFlat, SeenWhole, LoweredFrom, Called, Below, WellShaped, VarsSized, SizesAgree, AllTyped, Tame, Rel, Entered, FramedRight,
      WellTypedFlat, RunBody, Ir.Step, StepAsm, AsmOf, WorldAt, FrameFor, SlotsInside, ResultRight, Faithful, Stored;
    var w := WorldAt(f, ops, env, objects, Asm.Reg64(m, Asm.RBP));
    WorldParts(f, ops, env, objects, Asm.Reg64(m, Asm.RBP));
    var sizes := LoweredWell(f, ops, lastId, objects, true);
    CalledReady(f, ops, lastId, env, objects, values, s, m, sizes);
    IrBehaves(f, ops, lastId, env, objects, values, s, m, fuel, sizes);
    EnteredSizes(w, f.params, values, m);
    var s1 := OnEntry(f, s, values);
    var res := RunBody(w.layout, f.body, Go, s1, fuel);
    if res.Timeout? {
      var j := BackEndKeepsRuns(w, f.params, values, ops, s, m, fuel);
    } else if res.Done? {
      var v := if res.out.Returned? then res.out.v else LoweringCorrectness.FallOff(f.IsVoid());
      var k: nat, t' :| Ir.Iter(ops, w.layout, Ir.Running(0, s1), k) == Ir.Halted(v, t') && Agree(res.st, t');
      var j := BackEndKeepsRuns(w, f.params, values, ops, s, m, k);
      var d := IterAsm(env, AsmOf(f.params, ops), At(0, m), j);
      EndsRight(f, ops, lastId, env, objects, m, s1, fuel, v, t', d);
    }
  }

  lemma EndsRight(f: Function, ops: seq<Ir.IrOp>, lastId: int, env: Asm.Env, objects: map<string, nat>, m: Machine, s1: CSemantics.Store,
                  fuel: nat, v: Option<Typed>, t': CSemantics.Store, d: Run)
    requires TypeChecked(f, lastId, objects)
    requires var w, res := WorldAt(f, ops, env, objects, Asm.Reg64(m, Asm.RBP)),
                           RunBody(WorldAt(f, ops, env, objects, Asm.Reg64(m, Asm.RBP)).layout, f.body, Go, s1, fuel);
             && res.Done? && v == (if res.out.Returned? then res.out.v else LoweringCorrectness.FallOff(f.IsVoid())) && Agree(res.st, t')
             && d.Finished? && Rel(w, m.mem, t', d.m) && ResultInAx(v, d.m)
             && SlotsInside(FrameFor(f.params, ops, f.locals), w.layout, w.rbp)
    ensures var res := RunBody(WorldAt(f, ops, env, objects, Asm.Reg64(m, Asm.RBP)).layout, f.body, Go, s1, fuel);
            Ends(f, ops, env, objects, m, res.st, res.out, d)
  {
    hide Rel, RunBody, FrameFor, SlotsInside, Stored, Outside, Agree, SelectableFlat, WellTypedFlat, TypesOf, ReturnsTypedFlat;
    var rbp := Asm.Reg64(m, Asm.RBP);
    var w := WorldAt(f, ops, env, objects, rbp);
    var res := RunBody(w.layout, f.body, Go, s1, fuel);
    BodyReturns(w.layout, f.body, Go, s1, fuel, f.returnType);
    StoredAgrees(w, m.mem, res.st, t', d.m);
    forall b: int | (b < rbp - Reserved(FrameFor(f.params, ops, f.locals)) || rbp <= b) && !InObjects(env, objects, b)
      ensures Asm.ByteAt(d.m.mem, b) == Asm.ByteAt(m.mem, b)
    {
      CallerUntouched(FrameFor(f.params, ops, f.locals), env, objects, rbp, m.mem, d.m.mem, b);
    }
  }
}
