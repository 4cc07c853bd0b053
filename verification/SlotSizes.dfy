/** Slot sizes against the uses of the variables: the slot of a variable is as large as
    its first use, which may be a truncation. */
module SlotSizes {
  import opened Wrappers
  import opened CTypes
  import opened CAst
  import Ir
  import opened Asm
  import opened StackFrame
  import opened CallingSequence
  import opened Selection
  import opened EndToEnd
  import opened LoweredShapes

  type IrOp = Ir.IrOp
  type IrVal = Ir.IrVal

  // ------------------------------------------------------------- first mentions

  lemma {:induction false} FirstMentionJoin(a: seq<AsmOp>, b: seq<AsmOp>, id: int)
    ensures FirstMention(a + b, id) == if FirstMention(a, id).Some? then FirstMention(a, id) else FirstMention(b, id)
    decreases |a|
  {
    if a == [] {
      assert a + b == b;
    } else {
      assert (a + b)[1..] == a[1..] + b;
      FirstMentionJoin(a[1..], b, id);
    }
  }

  predicate IsVar(v: IrVal, id: int) {
    v.Variable? && v.loc == Tmp(id)
  }

  predicate Mentions(op: IrOp, id: int) {
    exists j :: 0 <= j < |OperandsOf(op)| && IsVar(OperandsOf(op)[j], id)
  }

  /** The variable is truncated. */
  predicate Narrows(op: IrOp, id: int) {
    op.Truncate? && IsVar(op.src, id)
  }

  /** The type at which an operation uses its j-th operand. */
  function UsedAs(op: IrOp, j: nat): CType
    requires j < |OperandsOf(op)|
  {
    if op.Truncate? && j == 0 then op.dst.ty else OperandsOf(op)[j].ty
  }

  function MapUse(op: IrOp, j: nat): Operand
    requires j < |OperandsOf(op)|
  {
    MapOperand(OperandsOf(op)[j]).(word := WordOf(UsedAs(op, j)))
  }

  predicate UseOf(op: IrOp, o: Operand, j: nat) {
    j < |OperandsOf(op)| && o == MapUse(op, j)
  }

  predicate HasOperand(code: seq<AsmOp>, o: Operand) {
    exists i :: 0 <= i < |code| && (code[i].a == o || code[i].b == o)
  }

  /** The pseudo registers in the instructions of an operation are its operands, as
      wide as it uses them. */
  lemma OperandIsUse(op: IrOp, o: Operand)
    requires Shape(op) && HasOperand(Select(op), o) && IsPseudo(o)
    ensures exists j: nat :: UseOf(op, o, j)
  {
    var i :| 0 <= i < |Select(op)| && (Select(op)[i].a == o || Select(op)[i].b == o);
    if op.BinaryOf? {
      BinaryOperand(op, o, i);
    } else if op.PointerAdd? {
      PointerOperand(op, o, i);
    } else {
      OtherOperand(op, o, i);
    }
  }

  lemma BinaryOperand(op: IrOp, o: Operand, i: nat)
    requires op.BinaryOf? && HasAt(Select(op), i, o) && IsPseudo(o)
    ensures exists j: nat :: UseOf(op, o, j)
  {
    hide MapOperand, BinaryOpcode, Condition;
    assert o == MapOperand(op.a) || o == MapOperand(op.b) || o == MapOperand(op.dst);
    PlainUses(op, o);
    assert UseOf(op, o, 0) || UseOf(op, o, 1) || UseOf(op, o, 2);
  }

  lemma PointerOperand(op: IrOp, o: Operand, i: nat)
    requires op.PointerAdd? && Shape(op) && HasAt(Select(op), i, o) && IsPseudo(o)
    ensures exists j: nat :: UseOf(op, o, j)
  {
    hide MapOperand;
    WideOperand(op.dst);
    assert o == MapOperand(op.base) || o == MapOperand(op.index) || o == MapOperand(op.dst);
    PlainUses(op, o);
    assert UseOf(op, o, 0) || UseOf(op, o, 1) || UseOf(op, o, 2);
  }

  lemma WideOperand(v: IrVal)
    requires v.ty.Size() == 8
    ensures MapOperand(v).(word := W64) == MapOperand(v)
  {
  }

  lemma OtherOperand(op: IrOp, o: Operand, i: nat)
    requires !op.BinaryOf? && !op.PointerAdd? && HasAt(Select(op), i, o) && IsPseudo(o)
    ensures exists j: nat :: UseOf(op, o, j)
  {
    hide MapOperand;
    var v := OperandsOf(op);
    if op.Truncate? && o == MapOperand(op.src).(word := WordOf(op.dst.ty)) {
      assert UseOf(op, o, 0);
    } else {
      assert |v| > 0 && (o == MapOperand(v[0]) || (|v| > 1 && o == MapOperand(v[1])));
      assert op.Truncate? ==> o == MapOperand(v[1]);
      PlainUses(op, o);
    }
  }

  lemma PlainUses(op: IrOp, o: Operand)
    ensures forall j :: 0 <= j < |OperandsOf(op)| && (op.Truncate? ==> j != 0) && o == MapOperand(OperandsOf(op)[j]) ==> UseOf(op, o, j)
  {
  }

  predicate HasAt(code: seq<AsmOp>, i: nat, o: Operand) {
    i < |code| && (code[i].a == o || code[i].b == o)
  }

  /** And every variable that the operation uses is there. */
  lemma UseIsOperand(op: IrOp, j: nat)
    requires Shape(op) && j < |OperandsOf(op)| && OperandsOf(op)[j].Variable?
    ensures HasOperand(Select(op), MapUse(op, j))
  {
    var code := Select(op);
    var o := MapUse(op, j);
    if op.BinaryOf? {
      SameWord(op.a.ty, op.b.ty);
      SameWord(op.a.ty, op.dst.ty);
    }
    if op.PointerAdd? {
      assert WordOf(op.dst.ty) == W64;
    }
    assert HasAt(code, 0, o) || HasAt(code, 1, o) || HasAt(code, 2, o) || HasAt(code, 3, o);
  }

  lemma SameWord(t: CType, u: CType)
    ensures t.Size() == u.Size() ==> WordOf(t) == WordOf(u)
  {
  }
  // ------------------------------------------------------------- the first use

  /** The first operation that mentions a variable. */
  function FirstUse(ops: seq<IrOp>, id: int): (r: Option<IrOp>)
    ensures r.Some? ==> Mentions(r.value, id) && r.value in ops
    ensures r.None? ==> forall i :: 0 <= i < |ops| ==> !Mentions(ops[i], id)
  {
    if ops == [] then None
    else if Mentions(ops[0], id) then Some(ops[0])
    else
      var r := FirstUse(ops[1..], id);
      assert forall i :: 1 <= i < |ops| ==> ops[i] == ops[1..][i - 1];
      r
  }

  ghost predicate WellShaped(sizes: Sizes, ops: seq<IrOp>) {
    forall i :: 0 <= i < |ops| ==> Shape(ops[i]) && OperandsSized(sizes, ops[i])
  }

  /** The first mention of a variable in the instructions of one operation. */
  lemma FirstInOp(sizes: Sizes, op: IrOp, id: int)
    requires Shape(op) && OperandsSized(sizes, op)
    ensures var r := FirstMention(Select(op), id);
            && (r.Some? <==> Mentions(op, id))
            && (r.Some? ==> r.value.kind.Pseudo? && Tmp(id) in sizes
                            && r.value.word.Bytes() == if Narrows(op, id) then op.dst.ty.Size() else sizes[Tmp(id)])
  {
    hide Select;
    var r := FirstMention(Select(op), id);
    if r.Some? {
      MentionIsOperand(Select(op), id);
      OperandIsUse(op, r.value);
      var j: nat :| UseOf(op, r.value, j);
      assert IsVar(OperandsOf(op)[j], id) && ValSized(sizes, OperandsOf(op)[j]);
      if Narrows(op, id) && j != 0 {
        TruncateFirst(op, id);
      }
    } else if Mentions(op, id) {
      var j :| 0 <= j < |OperandsOf(op)| && IsVar(OperandsOf(op)[j], id);
      UseIsOperand(op, j);
      NoMention(Select(op), id, MapUse(op, j));
    }
  }

  lemma TruncateFirst(op: IrOp, id: int)
    requires Narrows(op, id)
    ensures FirstMention(Select(op), id) == Some(MapUse(op, 0))
  {
  }

  lemma {:induction false} MentionIsOperand(code: seq<AsmOp>, id: int)
    requires FirstMention(code, id).Some?
    ensures HasOperand(code, FirstMention(code, id).value)
    decreases |code|
  {
    var o := FirstMention(code, id).value;
    if code[0].a == o || code[0].b == o {
    } else {
      MentionIsOperand(code[1..], id);
      var i :| 0 <= i < |code[1..]| && (code[1..][i].a == o || code[1..][i].b == o);
      assert code[i + 1] == code[1..][i];
    }
  }

  lemma {:induction false} NoMention(code: seq<AsmOp>, id: int, o: Operand)
    requires FirstMention(code, id).None? && IsPseudo(o) && o.kind.id == id
    ensures !HasOperand(code, o)
    decreases |code|
  {
    if code != [] {
      NoMention(code[1..], id, o);
      assert forall i :: 1 <= i < |code| ==> code[i] == code[1..][i - 1];
    }
  }

  lemma {:induction false} FirstInCode(sizes: Sizes, ops: seq<IrOp>, id: int)
    requires WellShaped(sizes, ops)
    ensures var r, u := FirstMention(SelectAll(ops), id), FirstUse(ops, id);
            && (r.Some? <==> u.Some?)
            && (r.Some? ==> r.value.kind.Pseudo? && Tmp(id) in sizes
                            && r.value.word.Bytes() == if Narrows(u.value, id) then u.value.dst.ty.Size() else sizes[Tmp(id)])
    decreases |ops|
  {
    hide Select;
    if ops != [] {
      assert Shape(ops[0]) && OperandsSized(sizes, ops[0]);
      assert WellShaped(sizes, ops[1..]) by { RestShaped(sizes, ops); }
      FirstInOp(sizes, ops[0], id);
      FirstInCode(sizes, ops[1..], id);
      FirstMentionJoin(Select(ops[0]), SelectAll(ops[1..]), id);
    }
  }

  lemma RestShaped(sizes: Sizes, ops: seq<IrOp>)
    requires WellShaped(sizes, ops) && ops != []
    ensures WellShaped(sizes, ops[1..])
  {
    assert forall i :: 0 <= i < |ops[1..]| ==> ops[1..][i] == ops[i + 1];
  }

  // ------------------------------------------------- parameters and other variables

  /** The operands of some variables, mentioned once more behind the code. */
  function Touched(vars: seq<Param>): seq<AsmOp> {
    if vars == [] then [] else [AsmOp(Mov, MapOperand(ParamVal(vars[0])), NONE)] + Touched(vars[1..])
  }

  ghost predicate VarsSized(sizes: Sizes, vars: seq<Param>) {
    forall i :: 0 <= i < |vars| ==> Tmp(vars[i].id) in sizes && sizes[Tmp(vars[i].id)] == vars[i].ty.Size()
  }

  predicate Listed(vars: seq<Param>, id: int) {
    exists i :: 0 <= i < |vars| && vars[i].id == id
  }

  lemma {:induction false} FirstTouched(sizes: Sizes, vars: seq<Param>, id: int)
    requires VarsSized(sizes, vars)
    ensures var r := FirstMention(Touched(vars), id);
            && (r.Some? <==> Listed(vars, id))
            && (r.Some? ==> r.value.kind.Pseudo? && Tmp(id) in sizes && r.value.word.Bytes() == sizes[Tmp(id)])
    decreases |vars|
  {
    if vars != [] {
      assert forall i :: 1 <= i < |vars| ==> vars[i] == vars[1..][i - 1];
      assert forall i :: 0 <= i < |vars[1..]| ==> vars[1..][i] == vars[i + 1];
      FirstTouched(sizes, vars[1..], id);
      assert Touched(vars)[1..] == Touched(vars[1..]);
    }
  }

  lemma {:induction false} FirstFetched(sizes: Sizes, params: seq<Param>, n: nat, id: int)
    requires n <= |params| && VarsSized(sizes, params)
    ensures var r := FirstMention(Fetch(ArgsOf(params), n), id);
            && (r.Some? <==> Listed(params[..n], id))
            && (r.Some? ==> r.value.kind.Pseudo? && Tmp(id) in sizes && r.value.word.Bytes() == sizes[Tmp(id)])
    decreases n
  {
    hide HomeOf;
    var args := ArgsOf(params);
    if n > 0 {
      FirstFetched(sizes, params, n - 1, id);
      var p := params[n - 1];
      var op := MoveOf(FetchFrom(HomeOf(args, n - 1), args[n - 1].place.word), args[n - 1].place);
      FirstMentionJoin(Fetch(args, n - 1), [op], id);
      assert FirstMention([op], id) == if p.id == id then Some(args[n - 1].place) else None by {
        assert [op][1..] == [];
      }
      ListedMore(params, n, id);
    }
  }

  lemma ListedMore(params: seq<Param>, n: nat, id: int)
    requires 0 < n <= |params|
    ensures Listed(params[..n], id) <==> Listed(params[..n - 1], id) || params[n - 1].id == id
  {
    if Listed(params[..n - 1], id) {
      var i :| 0 <= i < n - 1 && params[..n - 1][i].id == id;
      assert params[..n][i].id == id;
    }
    if params[n - 1].id == id {
      assert params[..n][n - 1].id == id;
    }
    if Listed(params[..n], id) {
      var i :| 0 <= i < n && params[..n][i].id == id;
      if i < n - 1 {
        assert params[..n - 1][i].id == id;
      }
    }
  }

  // ------------------------------------------------------- which slots are right

  /** The variable is first seen where it is truncated, so that its slot is as narrow
      as the result. */
  predicate NarrowFirst(params: seq<Param>, ops: seq<IrOp>, id: int) {
    !Listed(params, id) && FirstUse(ops, id).Some? && Narrows(FirstUse(ops, id).value, id)
  }

  /** The code of a function, with all its variables. */
  function AllCode(params: seq<Param>, ops: seq<IrOp>, vars: seq<Param>): seq<AsmOp> {
    FunctionCode(params, ops) + Touched(vars)
  }

  lemma FirstOfAll(sizes: Sizes, params: seq<Param>, ops: seq<IrOp>, vars: seq<Param>, id: int)
    requires WellShaped(sizes, ops) && VarsSized(sizes, params) && VarsSized(sizes, vars)
    ensures var r := FirstMention(AllCode(params, ops, vars), id);
            && (r.Some? <==> Listed(params, id) || FirstUse(ops, id).Some? || Listed(vars, id))
            && (r.Some? ==> r.value.kind.Pseudo? && Tmp(id) in sizes
                            && r.value.word.Bytes() ==
                               if NarrowFirst(params, ops, id) then FirstUse(ops, id).value.dst.ty.Size() else sizes[Tmp(id)])
  {
    hide SelectAll, Fetch, Touched, FirstMention, Narrows, ArgsOf, Mentions;
    FirstFetched(sizes, params, |params|, id);
    assert params[..|params|] == params;
    FirstInCode(sizes, ops, id);
    FirstTouched(sizes, vars, id);
    FirstMentionJoin(Fetch(ArgsOf(params), |params|), SelectAll(ops), id);
    FirstMentionJoin(FunctionCode(params, ops), Touched(vars), id);
  }

  /** Every slot has the size of its variable exactly when no variable is first seen
      where it is truncated. */
  lemma SlotSizesExact(sizes: Sizes, params: seq<Param>, ops: seq<IrOp>, vars: seq<Param>)
    requires WellShaped(sizes, ops) && VarsSized(sizes, params) && VarsSized(sizes, vars)
    ensures var f := FrameOf(AllCode(params, ops, vars));
            && f.offs.Keys == f.sizes.Keys
            && (forall id :: id in f.offs ==> Tmp(id) in sizes)
            && ((forall id :: id in f.offs ==> f.sizes[id] == sizes[Tmp(id)]) <==> (forall id :: !NarrowFirst(params, ops, id)))
  {
    hide AllCode, Listed, FirstUse, VarsSized;
    var code := AllCode(params, ops, vars);
    var f := FrameOf(code);
    assert f.offs.Keys == f.sizes.Keys by { FirstDecides(code, NO_FRAME, 0); }
    forall id
      ensures id in f.offs ==> Tmp(id) in sizes && (f.sizes[id] == sizes[Tmp(id)] <==> !NarrowFirst(params, ops, id))
      ensures NarrowFirst(params, ops, id) ==> id in f.offs
    {
      FirstDecides(code, NO_FRAME, id);
      FirstOfAll(sizes, params, ops, vars, id);
      if NarrowFirst(params, ops, id) {
        NarrowerThan(sizes, ops, id);
      }
    }
    assert (forall id :: id in f.offs ==> f.sizes[id] == sizes[Tmp(id)]) <== (forall id :: !NarrowFirst(params, ops, id));
  }

  lemma NarrowerThan(sizes: Sizes, ops: seq<IrOp>, id: int)
    requires WellShaped(sizes, ops) && FirstUse(ops, id).Some? && Narrows(FirstUse(ops, id).value, id)
    ensures Tmp(id) in sizes && FirstUse(ops, id).value.dst.ty.Size() < sizes[Tmp(id)]
  {
    var op := FirstUse(ops, id).value;
    var i :| 0 <= i < |ops| && ops[i] == op;
    assert Shape(op) && OperandsSized(sizes, op);
    assert ValSized(sizes, OperandsOf(op)[0]);
  }

  // --------------------------------------------------------------- which accesses fit

  ghost predicate AllAccessesFit(code: seq<AsmOp>, f: Frame) {
    forall o :: HasOperand(code, o) ==> AccessFits(o, f)
  }

  /** Some operation uses the variable with more bytes than the first one leaves for it. */
  predicate UsedWider(ops: seq<IrOp>, id: int) {
    FirstUse(ops, id).Some? && FirstUse(ops, id).value.Truncate?
    && exists i :: 0 <= i < |ops| && WiderThan(ops[i], id, FirstUse(ops, id).value.dst.ty.Size())
  }

  predicate WiderThan(op: IrOp, id: int, n: nat) {
    exists j :: 0 <= j < |OperandsOf(op)| && IsVar(OperandsOf(op)[j], id) && UsedAs(op, j).Size() > n
  }

  lemma HasOperandJoin(a: seq<AsmOp>, b: seq<AsmOp>, o: Operand)
    ensures HasOperand(a + b, o) <==> HasOperand(a, o) || HasOperand(b, o)
  {
    if HasOperand(a, o) {
      var i :| 0 <= i < |a| && (a[i].a == o || a[i].b == o);
      assert (a + b)[i] == a[i];
    }
    if HasOperand(b, o) {
      var i :| 0 <= i < |b| && (b[i].a == o || b[i].b == o);
      assert (a + b)[|a| + i] == b[i];
    }
    if HasOperand(a + b, o) {
      var i :| 0 <= i < |a + b| && ((a + b)[i].a == o || (a + b)[i].b == o);
      assert (a + b)[i] == if i < |a| then a[i] else b[i - |a|];
    }
  }

  /** An operand of the code of a function is one of an operation. */
  lemma {:induction false} OperandInOps(ops: seq<IrOp>, o: Operand) returns (i: nat)
    requires HasOperand(SelectAll(ops), o)
    ensures i < |ops| && HasOperand(Select(ops[i]), o)
    decreases |ops|
  {
    hide Select;
    if ops == [] {
      assert false;
    } else {
      HasOperandJoin(Select(ops[0]), SelectAll(ops[1..]), o);
      if HasOperand(Select(ops[0]), o) {
        i := 0;
      } else {
        var k := OperandInOps(ops[1..], o);
        i := k + 1;
      }
    }
  }

  lemma {:induction false} OpInCode(ops: seq<IrOp>, i: nat, o: Operand)
    requires i < |ops| && HasOperand(Select(ops[i]), o)
    ensures HasOperand(SelectAll(ops), o)
    decreases |ops|
  {
    hide Select, HasOperand;
    HasOperandJoin(Select(ops[0]), SelectAll(ops[1..]), o);
    if i > 0 {
      OpInCode(ops[1..], i - 1, o);
    }
  }

  lemma {:induction false} FetchedOperand(sizes: Sizes, params: seq<Param>, n: nat, o: Operand)
    requires n <= |params| && VarsSized(sizes, params) && HasOperand(Fetch(ArgsOf(params), n), o) && IsPseudo(o)
    ensures o.kind.Pseudo? && Listed(params, o.kind.id) && Tmp(o.kind.id) in sizes && o.word.Bytes() == sizes[Tmp(o.kind.id)]
    decreases n
  {
    hide HomeOf, HasOperand;
    var args := ArgsOf(params);
    if n == 0 {
      assert !HasOperand([], o) by { NothingIn(o); }
    } else {
      var op := MoveOf(FetchFrom(HomeOf(args, n - 1), args[n - 1].place.word), args[n - 1].place);
      HasOperandJoin(Fetch(args, n - 1), [op], o);
      if HasOperand(Fetch(args, n - 1), o) {
        FetchedOperand(sizes, params, n - 1, o);
      } else {
        OnlyOperands(op, o);
      }
    }
  }

  lemma NothingIn(o: Operand)
    ensures !HasOperand([], o)
  {
  }

  lemma OnlyOperands(op: AsmOp, o: Operand)
    requires HasOperand([op], o)
    ensures o == op.a || o == op.b
  {
  }

  lemma SlotOf(sizes: Sizes, params: seq<Param>, ops: seq<IrOp>, id: int)
    requires WellShaped(sizes, ops) && VarsSized(sizes, params)
    ensures var f := FrameOf(FunctionCode(params, ops));
            && f.offs.Keys == f.sizes.Keys && (id in f.offs <==> Listed(params, id) || FirstUse(ops, id).Some?)
            && (id in f.offs ==> Tmp(id) in sizes
                                 && f.sizes[id] == if NarrowFirst(params, ops, id) then FirstUse(ops, id).value.dst.ty.Size() else sizes[Tmp(id)])
  {
    hide FunctionCode, FirstMention, SettleAll;
    assert AllCode(params, ops, []) == FunctionCode(params, ops);
    FirstOfAll(sizes, params, ops, [], id);
    FirstDecides(FunctionCode(params, ops), NO_FRAME, id);
    assert !Listed([], id);
  }

  /** Every access of a function stays inside its slot exactly when no variable that is
      first seen where it is truncated is used with more bytes elsewhere. */
  lemma AccessesFitExactly(sizes: Sizes, params: seq<Param>, ops: seq<IrOp>)
    requires WellShaped(sizes, ops) && VarsSized(sizes, params)
    ensures AllAccessesFit(FunctionCode(params, ops), FrameOf(FunctionCode(params, ops)))
            <==> forall id :: !(NarrowFirst(params, ops, id) && UsedWider(ops, id))
  {
    hide WellShaped, VarsSized, FrameOf, HasOperand, FirstUse, AccessFits, UsedWider, NarrowFirst, FunctionCode;
    var code := FunctionCode(params, ops);
    var f := FrameOf(code);
    forall id | NarrowFirst(params, ops, id) && UsedWider(ops, id) ensures !AllAccessesFit(code, f) {
      var o := WideOperandOf(sizes, params, ops, id);
    }
    if forall id :: !(NarrowFirst(params, ops, id) && UsedWider(ops, id)) {
      forall o | HasOperand(code, o) ensures AccessFits(o, f) {
        if IsPseudo(o) {
          OperandFits(sizes, params, ops, o);
        } else {
          NoAccess(o, f);
        }
      }
    }
  }

  lemma NoAccess(o: Operand, f: Frame)
    requires !IsPseudo(o)
    ensures AccessFits(o, f)
  {
  }

  /** An access that does not fit. */
  lemma WideOperandOf(sizes: Sizes, params: seq<Param>, ops: seq<IrOp>, id: int) returns (o: Operand)
    requires WellShaped(sizes, ops) && VarsSized(sizes, params) && NarrowFirst(params, ops, id) && UsedWider(ops, id)
    ensures HasOperand(FunctionCode(params, ops), o) && !AccessFits(o, FrameOf(FunctionCode(params, ops)))
  {
    hide FrameOf, HasOperand, Select, SelectAll, Fetch, Mentions, FunctionCode;
    SlotOf(sizes, params, ops, id);
    var n := FirstUse(ops, id).value.dst.ty.Size();
    var i :| 0 <= i < |ops| && WiderThan(ops[i], id, n);
    var j: nat :| j < |OperandsOf(ops[i])| && IsVar(OperandsOf(ops[i])[j], id) && UsedAs(ops[i], j).Size() > n;
    o := MapUse(ops[i], j);
    assert Shape(ops[i]);
    UseIsOperand(ops[i], j);
    OpInCode(ops, i, o);
    InFunction(params, ops, o);
  }

  lemma InFunction(params: seq<Param>, ops: seq<IrOp>, o: Operand)
    ensures HasOperand(FunctionCode(params, ops), o) <==> HasOperand(Fetch(ArgsOf(params), |params|), o) || HasOperand(SelectAll(ops), o)
  {
    HasOperandJoin(Fetch(ArgsOf(params), |params|), SelectAll(ops), o);
  }

  lemma OperandFits(sizes: Sizes, params: seq<Param>, ops: seq<IrOp>, o: Operand)
    requires WellShaped(sizes, ops) && VarsSized(sizes, params) && HasOperand(FunctionCode(params, ops), o) && IsPseudo(o)
    requires forall id :: !(NarrowFirst(params, ops, id) && UsedWider(ops, id))
    ensures AccessFits(o, FrameOf(FunctionCode(params, ops)))
  {
    hide FrameOf, HasOperand, Select, SelectAll, Fetch, Mentions, FunctionCode, Listed, VarsSized, UseOf;
    InFunction(params, ops, o);
    var id := o.kind.id;
    SlotOf(sizes, params, ops, id);
    if HasOperand(Fetch(ArgsOf(params), |params|), o) {
      FetchedOperand(sizes, params, |params|, o);
    } else {
      var i := OperandInOps(ops, o);
      assert Shape(ops[i]) && OperandsSized(sizes, ops[i]);
      OperandIsUse(ops[i], o);
      var j: nat :| UseOf(ops[i], o, j);
      UseOfVariable(ops, i, o, j);
      UseFits(sizes, params, ops, i, j, id);
    }
  }

  lemma UseOfVariable(ops: seq<IrOp>, i: nat, o: Operand, j: nat)
    requires i < |ops| && UseOf(ops[i], o, j) && IsPseudo(o)
    ensures j < |OperandsOf(ops[i])| && IsVar(OperandsOf(ops[i])[j], o.kind.id) && o.kind.Pseudo? && o.word.Bytes() == UsedAs(ops[i], j).Size()
    ensures FirstUse(ops, o.kind.id).Some?
  {
    if FirstUse(ops, o.kind.id).None? {
      assert !Mentions(ops[i], o.kind.id);
    }
  }

  lemma UseFits(sizes: Sizes, params: seq<Param>, ops: seq<IrOp>, i: nat, j: nat, id: int)
    requires i < |ops| && j < |OperandsOf(ops[i])| && IsVar(OperandsOf(ops[i])[j], id)
    requires Shape(ops[i]) && OperandsSized(sizes, ops[i]) && !(NarrowFirst(params, ops, id) && UsedWider(ops, id))
    ensures Tmp(id) in sizes && UsedAs(ops[i], j).Size() <= sizes[Tmp(id)]
    ensures NarrowFirst(params, ops, id) ==> UsedAs(ops[i], j).Size() <= FirstUse(ops, id).value.dst.ty.Size()
  {
    hide Mentions, FirstUse;
    assert ValSized(sizes, OperandsOf(ops[i])[j]);
    if NarrowFirst(params, ops, id) {
      assert !WiderThan(ops[i], id, FirstUse(ops, id).value.dst.ty.Size());
    }
  }
}
