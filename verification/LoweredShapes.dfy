/** The IR that lowering produces has the word types that selection relies on, and
    its results do not overwrite operands that are still needed. */
module LoweredShapes {
  import opened Wrappers
  import opened CTypes
  import opened CAst
  import opened Ir
  import opened Lowering
  import opened CSemantics
  import opened StmtSimulation
  import SelectionMeaning
  import EndToEnd
  import Asm
  import Fixups
  import FixupMeaning
  import Selection

  // ------------------------------------------------------------------- trees

  /** Constants are not below those of type int, variables are older than the counter of temporaries,
      and operands of divisions have been promoted. */
  predicate Selectable(e: Expr, base: int) {
    match e
    case Const(n, _) => Fixups.INT_MIN <= n
    case Var(l, _) => l.Tmp? ==> l.id < base
    case Paren(i) => Selectable(i, base)
    case Unary(_, o, _) => Selectable(o, base)
    case Binary(op, x, y, _) =>
      Selectable(x, base) && Selectable(y, base) && (op.Divide? || op.Remainder? ==> !TypeOf(x).IsCharLike())
    case Logical(_, x, y) => Selectable(x, base) && Selectable(y, base)
    case Ternary(c, x, y, _) => Selectable(c, base) && Selectable(x, base) && Selectable(y, base)
    case Assign(t, s, _, _) => Selectable(t, base) && Selectable(s, base)
    case Twin(s) => Selectable(s, base)
    case IncDec(_, _, p, _) => Selectable(p, base)
    case Deref(p, _) => Selectable(p, base)
    case AddressOf(o, _) => Selectable(o, base)
    case Cast(f, _) => Selectable(f, base)
  }

  predicate SelectableOptional(e: Option<Expr>, base: int) {
    e.Some? ==> Selectable(e.value, base)
  }

  predicate SelectableStmt(s: Stmt, base: int) {
    match s
    case Expression(e) => Selectable(e, base)
    case Declare(l, _, init) => (l.Tmp? ==> l.id < base) && SelectableOptional(init, base)
    case Return(e) => SelectableOptional(e, base)
    case Block(f) => SelectableFlat(f, base)
    case IfElse(c, a, b) => Selectable(c, base) && SelectableFlat(a, base) && (b.Some? ==> SelectableFlat(b.value, base))
    case Loop(p, b, i, q, _, _, _) =>
      SelectableOptional(p, base) && SelectableFlat(b, base) && SelectableOptional(i, base) && SelectableOptional(q, base)
    case Switch(c, b, _, _, _) => Selectable(c, base) && SelectableFlat(b, base)
    case _ => true
  }

  predicate SelectableFlat(f: Flat, base: int) {
    f.Cons? ==> SelectableStmt(f.car, base) && SelectableFlat(f.cdr, base)
  }

  /** The constant that an expression is lowered to, if it is one. */
  function LeftConstant(e: Expr): Option<int> {
    match e
    case Const(n, _) => Some(n)
    case Paren(i) => LeftConstant(i)
    case Assign(_, s, _, _) => LeftConstant(s)
    case Twin(s) => LeftConstant(s)
    case Deref(p, _) => if Unparen(p).AddressOf? then LeftConstant(Unparen(p).lvalue) else None
    case AddressOf(o, _) => if Unparen(o).Deref? then LeftConstant(Unparen(o).pointer) else None
    case Cast(f, t) => if TypeOf(f) == t then LeftConstant(f) else None
    case _ => None
  }

  /** A tested constant whose low byte is zero only if it is zero itself. */
  predicate TestedRight(e: Expr) {
    var n := LeftConstant(e);
    n.Some? ==> (n.value % 256 == 0 <==> n.value % Modulus(TypeOf(e)) == 0)
  }

  /** Two constants, the second large, are compared for equality, as unsigned ints or
      with 64 bits only. */
  predicate ComparedRight(op: BinaryOp, t: CType, a: Option<int>, b: Option<int>) {
    op.IsCompare() && a.Some? && b.Some? && b.value > Fixups.INT_MAX ==>
      t.Size() == 8
      || (t.Size() == 4 && b.value < 0x1_0000_0000 && Selection.Condition(op, t.IsSigned()) in FixupMeaning.UNSIGNED)
  }

  /** Constants that the repaired comparisons treat as they are. */
  predicate TameExpr(e: Expr) {
    match e
    case Const(_, _) => true
    case Var(_, _) => true
    case Paren(i) => TameExpr(i)
    case Unary(u, o, _) => TameExpr(o) && (u.LogicalNot? ==> TestedRight(o))
    case Binary(op, x, y, _) =>
      TameExpr(x) && TameExpr(y) && ComparedRight(op, TypeOf(x), LeftConstant(x), LeftConstant(y))
    case Logical(_, x, y) => TameExpr(x) && TameExpr(y) && TestedRight(x) && TestedRight(y)
    case Ternary(c, x, y, _) => TameExpr(c) && TameExpr(x) && TameExpr(y) && TestedRight(c)
    case Assign(t, s, _, _) => TameExpr(t) && TameExpr(s)
    case Twin(s) => TameExpr(s)
    case IncDec(_, _, p, _) => TameExpr(p)
    case Deref(p, _) => TameExpr(p)
    case AddressOf(o, _) => TameExpr(o)
    case Cast(f, _) => TameExpr(f)
  }

  predicate TameOptional(e: Option<Expr>) {
    e.Some? ==> TameExpr(e.value)
  }

  predicate TameGuard(e: Option<Expr>) {
    e.Some? ==> TameExpr(e.value) && TestedRight(e.value)
  }

  predicate TameStmt(s: Stmt) {
    match s
    case Expression(e) => TameExpr(e)
    case Declare(_, _, init) => TameOptional(init)
    case Return(e) => TameOptional(e)
    case Block(f) => TameFlat(f)
    case IfElse(c, a, b) => TameExpr(c) && TestedRight(c) && TameFlat(a) && (b.Some? ==> TameFlat(b.value))
    case Loop(p, b, i, q, _, _, _) => TameGuard(p) && TameFlat(b) && TameOptional(i) && TameGuard(q)
    case Switch(c, b, _, _, _) => TameExpr(c) && TameFlat(b)
    case _ => true
  }

  predicate TameFlat(f: Flat) {
    f.Cons? ==> TameStmt(f.car) && TameFlat(f.cdr)
  }

  /** The case values have been converted to the type of the controlling expression. */
  predicate SmallCases(s: Stmt) {
    match s
    case Block(f) => SmallCasesFlat(f)
    case IfElse(_, a, b) => SmallCasesFlat(a) && (b.Some? ==> SmallCasesFlat(b.value))
    case Loop(_, b, _, _, _, _, _) => SmallCasesFlat(b)
    case Switch(c, b, _, _, cases) =>
      SmallCasesFlat(b) && forall i :: 0 <= i < |cases| ==> 0 <= cases[i].num < Modulus(TypeOf(c))
    case _ => true
  }

  predicate SmallCasesFlat(f: Flat) {
    f.Cons? ==> SmallCases(f.car) && SmallCasesFlat(f.cdr)
  }

  lemma {:induction false} LabelledSmall(s: Stmt, ctx: Targets)
    requires WellLabelled(s, ctx)
    ensures SmallCases(s)
    decreases s
  {
    match s
    case Block(f) => LabelledSmallFlat(f, ctx);
    case IfElse(_, a, b) =>
      LabelledSmallFlat(a, ctx);
      if b.Some? {
        LabelledSmallFlat(b.value, ctx);
      }
    case Loop(_, b, _, _, _, cont, end) => LabelledSmallFlat(b, ctx.(brk := end, cont := cont));
    case Switch(c, b, _, end, cases) =>
      LabelledSmallFlat(b, ctx.(brk := end));
      forall i | 0 <= i < |cases| ensures 0 <= cases[i].num < Modulus(TypeOf(c)) {
        assert CaseKnown(TypeOf(c), b, cases[i]);
      }
    case _ =>
  }

  lemma {:induction false} LabelledSmallFlat(f: Flat, ctx: Targets)
    requires WellLabelledFlat(f, ctx)
    ensures SmallCasesFlat(f)
    decreases f
  {
    if f.Cons? {
      LabelledSmall(f.car, ctx);
      LabelledSmallFlat(f.cdr, ctx);
    }
  }

  // -------------------------------------------------------------------- shapes

  /** The word types of an operation fit together. */
  predicate Shape(op: IrOp) {
    match op
    case UnaryOf(u, s, d) => d.Variable? && (!u.LogicalNot? ==> s.ty.Size() == d.ty.Size())
    case Bump(_, p) => p.Variable?
    case BinaryOf(b, x, y, d) =>
      && d.Variable? && y.ty.Size() == x.ty.Size()
      && (if b.Divide? || b.Remainder? then !x.ty.IsCharLike() && x.ty.Size() == d.ty.Size()
          else !b.IsCompare() ==>
            x.ty.Size() == d.ty.Size() && (y.Variable? && y.loc == d.loc ==> x.Variable? && x.loc == d.loc))
    case Copy(s, d) => d.Variable? && (s.Variable? ==> s.ty.Size() == d.ty.Size())
    case SignExtend(s, d) => d.Variable? && s.ty.Size() < d.ty.Size()
    case ZeroExtend(s, d) => d.Variable? && s.ty.Size() < d.ty.Size()
    case Truncate(s, d) => d.Variable? && d.ty.Size() < s.ty.Size()
    case GetAddress(s, d) => s.Variable? && d.Variable? && d.ty.Size() == 8
    case Load(p, d) => p.ty.Size() == 8 && d.Variable?
    case Store(_, p) => p.ty.Size() == 8
    case PointerAdd(b, i, _, d) => b.ty.Size() == 8 && i.ty.Size() == 8 && d.Variable? && d.ty.Size() == 8
    case _ => true
  }

  function OperandsOf(op: IrOp): seq<IrVal> {
    match op
    case Ret(v) => if v.Some? then [v.value] else []
    case UnaryOf(_, s, d) => [s, d]
    case Bump(_, p) => [p]
    case BinaryOf(_, x, y, d) => [x, y, d]
    case Copy(s, d) => [s, d]
    case SignExtend(s, d) => [s, d]
    case Truncate(s, d) => [s, d]
    case ZeroExtend(s, d) => [s, d]
    case GetAddress(s, d) => [s, d]
    case Load(p, d) => [p, d]
    case Store(s, p) => [s, p]
    case PointerAdd(b, i, _, d) => [b, i, d]
    case JumpIfZero(v, _) => [v]
    case JumpIfNotZero(v, _) => [v]
    case _ => []
  }

  /** Every variable is used at the width of its slot. */
  ghost predicate SlotsMatch(layout: Layout, ops: seq<IrOp>) {
    forall i, j :: 0 <= i < |ops| && 0 <= j < |OperandsOf(ops[i])| ==> SelectionMeaning.ValTyped(layout, OperandsOf(ops[i])[j])
  }

  lemma ShapedAndSlotted(layout: Layout, op: IrOp)
    requires Shape(op) && forall j :: 0 <= j < |OperandsOf(op)| ==> SelectionMeaning.ValTyped(layout, OperandsOf(op)[j])
    ensures SelectionMeaning.OpTyped(layout, op)
  {
    var v := OperandsOf(op);
    assert |v| > 0 ==> SelectionMeaning.ValTyped(layout, v[0]);
    assert |v| > 1 ==> SelectionMeaning.ValTyped(layout, v[1]);
    assert |v| > 2 ==> SelectionMeaning.ValTyped(layout, v[2]);
  }

  // ---------------------------------------------------------------------- sizes

  /** The size of every variable and temporary. */
  type Sizes = map<Loc, nat>

  /** Variables have their size, and constants are not below those of type int. */
  predicate ValSized(sizes: Sizes, v: IrVal) {
    if v.Variable? then v.loc in sizes && sizes[v.loc] == v.ty.Size() else Fixups.INT_MIN <= v.num
  }

  ghost predicate OperandsSized(sizes: Sizes, op: IrOp) {
    forall j :: 0 <= j < |OperandsOf(op)| ==> ValSized(sizes, OperandsOf(op)[j])
  }

  /** What is known of a function: its variables, the first id of a temporary, and
      whether its constants are tame. */
  datatype Setting = Setting(layout: Layout, base: int, tame: bool)

  /** The sizes of all variables and of the temporaries below g. */
  ghost predicate Ready(k: Setting, sizes: Sizes, g: int) {
    && k.base <= g && (forall l :: l in sizes && l.Tmp? ==> l.id < g)
    && (forall l :: l in sizes ==> sizes[l] in {1, 4, 8} && (l.Data? ==> l in k.layout && k.layout[l].size == sizes[l]))
    && (forall l :: l in k.layout && (l.Tmp? ==> l.id < k.base) ==> l in sizes && sizes[l] == k.layout[l].size)
  }

  ghost predicate Extends(sizes: Sizes, more: Sizes) {
    forall l :: l in sizes ==> l in more && more[l] == sizes[l]
  }

  ghost predicate Later(k: Setting, sizes: Sizes, g: int, more: Sizes, h: int) {
    g <= h && Ready(k, more, h) && Extends(sizes, more)
  }

  ghost predicate OpFits(k: Setting, sizes: Sizes, op: IrOp) {
    Shape(op) && OperandsSized(sizes, op) && (k.tame ==> EndToEnd.Tame(op))
  }

  ghost predicate Shaped(k: Setting, sizes: Sizes, ops: seq<IrOp>) {
    forall i :: 0 <= i < |ops| ==> OpFits(k, sizes, ops[i])
  }

  lemma Joined(k: Setting, sizes: Sizes, more: Sizes, a: seq<IrOp>, b: seq<IrOp>)
    requires Shaped(k, sizes, a) && Shaped(k, more, b) && Extends(sizes, more)
    ensures Shaped(k, more, a + b)
  {
    forall i | 0 <= i < |a + b| ensures OpFits(k, more, (a + b)[i]) {
      var op := (a + b)[i];
      if i < |a| {
        assert op == a[i] && OpFits(k, sizes, op);
        StillSized(sizes, more, op);
      } else {
        assert op == b[i - |a|];
      }
    }
  }

  lemma StillSized(sizes: Sizes, more: Sizes, op: IrOp)
    requires OperandsSized(sizes, op) && Extends(sizes, more)
    ensures OperandsSized(more, op)
  {
    forall j | 0 <= j < |OperandsOf(op)| ensures ValSized(more, OperandsOf(op)[j]) {
      assert ValSized(sizes, OperandsOf(op)[j]);
    }
  }

  lemma Then(k: Setting, sizes: Sizes, more: Sizes, a: seq<IrOp>, op: IrOp)
    requires Shaped(k, sizes, a) && OpFits(k, more, op) && Extends(sizes, more)
    ensures Shaped(k, more, a + [op])
  {
    assert Shaped(k, more, [op]);
    hide OpFits, Extends;
    Joined(k, sizes, more, a, [op]);
  }

  lemma Empty(k: Setting, sizes: Sizes)
    ensures Shaped(k, sizes, [])
  {
  }

  lemma LaterOn(k: Setting, s0: Sizes, g0: int, s1: Sizes, g1: int, s2: Sizes, g2: int)
    requires Later(k, s0, g0, s1, g1) && Later(k, s1, g1, s2, g2)
    ensures Later(k, s0, g0, s2, g2)
  {
  }

  lemma NotLater(k: Setting, sizes: Sizes, g: int)
    requires Ready(k, sizes, g)
    ensures Later(k, sizes, g, sizes, g)
  {
  }

  /** A temporary more. */
  lemma AddTemp(k: Setting, sizes: Sizes, g: int, t: CType) returns (more: Sizes)
    requires Ready(k, sizes, g)
    ensures more == sizes[Tmp(g) := t.Size()] && Tmp(g) !in sizes
    ensures Later(k, sizes, g, more, g + 1) && ValSized(more, Temp(g, t))
  {
    more := sizes[Tmp(g) := t.Size()];
  }

  lemma ValStays(sizes: Sizes, more: Sizes, v: IrVal)
    requires ValSized(sizes, v) && Extends(sizes, more)
    ensures ValSized(more, v)
  {
  }

  // --------------------------------------------------------------- expressions

  ghost predicate Cached(sizes: Sizes, ud: Option<IrVal>, shared: Option<Expr>) {
    ud.Some? ==> shared.Some? && ud.value.ty == TypeOf(shared.value) && ud.value.Variable? && ValSized(sizes, ud.value)
  }

  lemma CachedStays(sizes: Sizes, more: Sizes, ud: Option<IrVal>, shared: Option<Expr>)
    requires Cached(sizes, ud, shared) && Extends(sizes, more)
    ensures Cached(more, ud, shared)
  {
  }

  ghost predicate Fine(k: Setting, e: Expr, shared: Option<Expr>) {
    WellTyped(k.layout, e, shared) && Selectable(e, k.base) && (k.tame ==> TameExpr(e))
  }

  /** Code with the right shapes whose result has the type of the expression. */
  ghost predicate Good(k: Setting, sizes: Sizes, c: ExprCode, e: Expr) {
    && Shaped(k, sizes, c.ops) && c.ret.ty == TypeOf(e) && ValSized(sizes, c.ret)
    && (c.ret.Constant? ==> LeftConstant(e) == Some(c.ret.num))
  }

  lemma UnparenKeeps(k: Setting, e: Expr, shared: Option<Expr>)
    requires Fine(k, e, shared)
    ensures Fine(k, Unparen(e), shared)
    decreases e
  {
    if e.Paren? {
      UnparenKeeps(k, e.inner, shared);
    }
  }

  lemma {:induction false} ExprShapes(k: Setting, e: Expr, shared: Option<Expr>, ud: Option<IrVal>, g: int, n: int, sizes: Sizes)
    returns (more: Sizes)
    requires Fine(k, e, shared) && Ready(k, sizes, g) && Cached(sizes, ud, shared)
    ensures Good(k, more, LowerExpr(e, ud, g, n), e) && Later(k, sizes, g, more, LowerExpr(e, ud, g, n).gen)
    decreases e, 2
  {
    hide Shaped, Later, Extends;
    NotLater(k, sizes, g);
    Empty(k, sizes);
    more := sizes;
    match e
    case Const(_, _) =>
    case Var(_, _) =>
    case Paren(i) => more := ExprShapes(k, i, shared, ud, g, n, sizes);
    case Unary(_, _, _) => more := UnaryShapes(k, e, shared, ud, g, n, sizes);
    case Binary(_, _, _, _) => more := BinaryShapes(k, e, shared, ud, g, n, sizes);
    case Logical(_, _, _) => more := LogicalShapes(k, e, shared, ud, g, n, sizes);
    case Ternary(_, _, _, _) => more := TernaryShapes(k, e, shared, ud, g, n, sizes);
    case Assign(_, _, _, _) => more := AssignShapes(k, e, shared, ud, g, n, sizes);
    case Twin(s) =>
      if ud.None? {
        more := ExprShapes(k, s, None, None, g, n, sizes);
      }
    case IncDec(_, _, _, _) => more := IncDecShapes(k, e, shared, ud, g, n, sizes);
    case Deref(_, _) => more := DerefShapes(k, e, shared, ud, g, n, sizes);
    case AddressOf(_, _) => more := AddressShapes(k, e, shared, ud, g, n, sizes);
    case Cast(_, _) => more := CastShapes(k, e, shared, ud, g, n, sizes);
  }

  /** Some code, and one operation more that fills a new temporary. */
  lemma OneMore(k: Setting, s0: Sizes, g: int, s1: Sizes, h: int, ops: seq<IrOp>, op: IrOp, t: CType) returns (more: Sizes)
    requires Later(k, s0, g, s1, h) && Shaped(k, s1, ops) && Shape(op) && (k.tame ==> EndToEnd.Tame(op))
    requires |OperandsOf(op)| == 2 && ValSized(s1, OperandsOf(op)[0]) && OperandsOf(op)[1] == Temp(h, t)
    ensures Shaped(k, more, ops + [op]) && Later(k, s0, g, more, h + 1) && ValSized(more, Temp(h, t)) && Extends(s1, more)
  {
    more := AddTemp(k, s1, h, t);
    ValStays(s1, more, OperandsOf(op)[0]);
    Then(k, s1, more, ops, op);
    LaterOn(k, s0, g, s1, h, more, h + 1);
  }

  lemma {:induction false} UnaryShapes(k: Setting, e: Expr, shared: Option<Expr>, ud: Option<IrVal>, g: int, n: int, sizes: Sizes)
    returns (more: Sizes)
    requires e.Unary? && Fine(k, e, shared) && Ready(k, sizes, g) && Cached(sizes, ud, shared)
    ensures Good(k, more, LowerExpr(e, ud, g, n), e) && Later(k, sizes, g, more, LowerExpr(e, ud, g, n).gen)
    decreases e, 1
  {
    hide Shaped, Later, Ready, Extends;
    var c := LowerExpr(e.operand, ud, g, n);
    var s1 := ExprShapes(k, e.operand, shared, ud, g, n, sizes);
    more := OneMore(k, sizes, g, s1, c.gen, c.ops, UnaryOf(e.uop, c.ret, Temp(c.gen, e.uty)), e.uty);
  }

  lemma {:induction false} CastShapes(k: Setting, e: Expr, shared: Option<Expr>, ud: Option<IrVal>, g: int, n: int, sizes: Sizes)
    returns (more: Sizes)
    requires e.Cast? && Fine(k, e, shared) && Ready(k, sizes, g) && Cached(sizes, ud, shared)
    ensures Good(k, more, LowerExpr(e, ud, g, n), e) && Later(k, sizes, g, more, LowerExpr(e, ud, g, n).gen)
    decreases e, 1
  {
    hide Shaped, Later, Ready, Extends;
    var f, t := e.from, e.toTy;
    var c := LowerExpr(f, ud, g, n);
    more := ExprShapes(k, f, shared, ud, g, n, sizes);
    if TypeOf(f) != t {
      more := OneMore(k, sizes, g, more, c.gen, c.ops, CastOp(TypeOf(f), t, c.ret, Temp(c.gen, t)), t);
    }
  }

  lemma {:induction false} BinaryShapes(k: Setting, e: Expr, shared: Option<Expr>, ud: Option<IrVal>, g: int, n: int, sizes: Sizes)
    returns (more: Sizes)
    requires e.Binary? && Fine(k, e, shared) && Ready(k, sizes, g) && Cached(sizes, ud, shared)
    ensures Good(k, more, LowerExpr(e, ud, g, n), e) && Later(k, sizes, g, more, LowerExpr(e, ud, g, n).gen)
    decreases e, 1
  {
    hide Shaped, Ready, Extends;
    var a := LowerExpr(e.left, ud, g, n);
    var b := LowerExpr(e.right, ud, a.gen, a.lab);
    var f := FinishBinary(e.bop, TypeOf(e.left), TypeOf(e.right), e.bty, a.ret, b.ret, b.gen);
    var s1 := ExprShapes(k, e.left, shared, ud, g, n, sizes);
    CachedStays(sizes, s1, ud, shared);
    var s2 := ExprShapes(k, e.right, shared, ud, a.gen, a.lab, s1);
    ValStays(s1, s2, a.ret);
    hide ValSized;
    more := FinishShapes(k, e, a.ret, b.ret, b.gen, s2);
    Joined(k, s1, s2, a.ops, b.ops);
    Joined(k, s2, more, a.ops + b.ops, f.ops);
    LaterOn(k, sizes, g, s1, a.gen, s2, b.gen);
    LaterOn(k, sizes, g, s2, b.gen, more, f.gen);
  }

  lemma FinishShapes(k: Setting, e: Expr, a: IrVal, b: IrVal, g: int, sizes: Sizes) returns (more: Sizes)
    requires e.Binary? && WellTypedBinary(e.bop, TypeOf(e.left), TypeOf(e.right), e.bty)
    requires a.ty == TypeOf(e.left) && b.ty == TypeOf(e.right) && ValSized(sizes, a) && ValSized(sizes, b) && Ready(k, sizes, g)
    requires e.bop.Divide? || e.bop.Remainder? ==> !a.ty.IsCharLike()
    requires k.tame ==> ComparedRight(e.bop, a.ty, LeftConstant(e.left), LeftConstant(e.right))
    requires (a.Constant? ==> LeftConstant(e.left) == Some(a.num)) && (b.Constant? ==> LeftConstant(e.right) == Some(b.num))
    ensures var f := FinishBinary(e.bop, a.ty, b.ty, e.bty, a, b, g);
            Shaped(k, more, f.ops) && Later(k, sizes, g, more, f.gen) && f.ret.ty == e.bty && ValSized(more, f.ret) && f.ret.Variable?
  {
    hide Later, Ready, Extends, Shaped;
    var f := FinishBinary(e.bop, a.ty, b.ty, e.bty, a, b, g);
    if |f.ops| == 1 {
      more := AddTemp(k, sizes, g, e.bty);
      assert Extends(sizes, more) by { TempExtends(sizes, g, e.bty); }
      ValStays(sizes, more, a);
      ValStays(sizes, more, b);
      OneFits(k, e, a, b, g, more);
      hide OpFits, ValSized, FinishBinary;
      JustOne(k, more, f.ops);
    } else {
      var u := f.ops[0].dst.ty;
      var mid := AddTemp(k, sizes, g, u);
      more := AddTemp(k, mid, g + 1, e.bty);
      LaterOn(k, sizes, g, mid, g + 1, more, g + 2);
      TempExtends(sizes, g, u);
      TempExtends(mid, g + 1, e.bty);
      ValStays(sizes, mid, a);
      ValStays(sizes, mid, b);
      ValStays(mid, more, a);
      ValStays(mid, more, b);
      ValStays(mid, more, Temp(g, u));
      TwoFit(k, e, a, b, g, more);
      hide OpFits, ValSized, FinishBinary;
      JustTwo(k, more, f.ops);
    }
  }

  lemma TempExtends(sizes: Sizes, g: int, t: CType)
    requires Tmp(g) !in sizes
    ensures Extends(sizes, sizes[Tmp(g) := t.Size()])
  {
  }

  lemma JustOne(k: Setting, sizes: Sizes, ops: seq<IrOp>)
    requires |ops| == 1 && OpFits(k, sizes, ops[0])
    ensures Shaped(k, sizes, ops)
  {
  }

  lemma JustTwo(k: Setting, sizes: Sizes, ops: seq<IrOp>)
    requires |ops| == 2 && OpFits(k, sizes, ops[0]) && OpFits(k, sizes, ops[1])
    ensures Shaped(k, sizes, ops)
  {
  }

  /** An operand that a new temporary does not overwrite. */
  predicate NotTemp(v: IrVal, g: int) {
    v.Variable? ==> v.loc != Tmp(g)
  }

  lemma OneFits(k: Setting, e: Expr, a: IrVal, b: IrVal, g: int, sizes: Sizes)
    requires e.Binary? && WellTypedBinary(e.bop, TypeOf(e.left), TypeOf(e.right), e.bty)
    requires a.ty == TypeOf(e.left) && b.ty == TypeOf(e.right) && ValSized(sizes, a) && ValSized(sizes, b)
    requires ValSized(sizes, Temp(g, e.bty)) && NotTemp(a, g) && NotTemp(b, g)
    requires e.bop.Divide? || e.bop.Remainder? ==> !a.ty.IsCharLike()
    requires k.tame ==> ComparedRight(e.bop, a.ty, LeftConstant(e.left), LeftConstant(e.right))
    requires (a.Constant? ==> LeftConstant(e.left) == Some(a.num)) && (b.Constant? ==> LeftConstant(e.right) == Some(b.num))
    ensures var f := FinishBinary(e.bop, a.ty, b.ty, e.bty, a, b, g); |f.ops| == 1 ==> OpFits(k, sizes, f.ops[0])
  {
    hide LeftConstant, CType.IsCharLike;
    var op := FinishBinary(e.bop, a.ty, b.ty, e.bty, a, b, g).ops[0];
    assert EndToEnd.Tame(op) <== k.tame;
    assert Shape(op) <== |FinishBinary(e.bop, a.ty, b.ty, e.bty, a, b, g).ops| == 1;
  }

  lemma TwoFit(k: Setting, e: Expr, a: IrVal, b: IrVal, g: int, sizes: Sizes)
    requires e.Binary? && WellTypedBinary(e.bop, TypeOf(e.left), TypeOf(e.right), e.bty)
    requires a.ty == TypeOf(e.left) && b.ty == TypeOf(e.right) && ValSized(sizes, a) && ValSized(sizes, b)
    requires var f := FinishBinary(e.bop, a.ty, b.ty, e.bty, a, b, g);
             |f.ops| == 2 && ValSized(sizes, Temp(g, f.ops[0].dst.ty)) && ValSized(sizes, Temp(g + 1, e.bty)) && NotTemp(b, g)
    ensures var f := FinishBinary(e.bop, a.ty, b.ty, e.bty, a, b, g); OpFits(k, sizes, f.ops[0]) && OpFits(k, sizes, f.ops[1])
  {
    var f := FinishBinary(e.bop, a.ty, b.ty, e.bty, a, b, g);
    assert e.bop.Subtract? && a.ty.Pointer?;
    assert Shape(f.ops[0]) && Shape(f.ops[1]);
  }

  lemma LogicalCode(e: Expr, ud: Option<IrVal>, g: int, n: int)
    requires e.Logical?
    ensures var a := LowerExpr(e.lhs, ud, g, n + 1);
            var b := LowerExpr(e.rhs, ud, a.gen, a.lab);
            LowerExpr(e, ud, g, n) ==
            ExprCode(a.ops + [ShortCircuit(e.isAnd, a.ret, n)] + b.ops + [ShortCircuit(e.isAnd, b.ret, n)]
                     + LogicalFooter(e.isAnd, Temp(b.gen, Int), n, b.lab),
                     Temp(b.gen, Int), b.gen + 1, b.lab + 1)
  {
  }

  lemma TestFits(k: Setting, sizes: Sizes, isAnd: bool, e: Expr, v: IrVal, l: int)
    requires k.tame ==> TestedRight(e)
    requires v.ty == TypeOf(e) && ValSized(sizes, v) && (v.Constant? ==> LeftConstant(e) == Some(v.num))
    ensures OpFits(k, sizes, ShortCircuit(isAnd, v, l))
  {
  }

  lemma {:induction false} LogicalShapes(k: Setting, e: Expr, shared: Option<Expr>, ud: Option<IrVal>, g: int, n: int, sizes: Sizes)
    returns (more: Sizes)
    requires e.Logical? && Fine(k, e, shared) && Ready(k, sizes, g) && Cached(sizes, ud, shared)
    ensures Good(k, more, LowerExpr(e, ud, g, n), e) && Later(k, sizes, g, more, LowerExpr(e, ud, g, n).gen)
    decreases e, 1
  {
    hide Shaped, Ready, Extends, LowerExpr, OpFits, ShortCircuit, LogicalFooter, TestedRight;
    LogicalCode(e, ud, g, n);
    var a := LowerExpr(e.lhs, ud, g, n + 1);
    var b := LowerExpr(e.rhs, ud, a.gen, a.lab);
    var s1 := ExprShapes(k, e.lhs, shared, ud, g, n + 1, sizes);
    CachedStays(sizes, s1, ud, shared);
    var s2 := ExprShapes(k, e.rhs, shared, ud, a.gen, a.lab, s1);
    var j1, j2 := ShortCircuit(e.isAnd, a.ret, n), ShortCircuit(e.isAnd, b.ret, n);
    TestFits(k, s1, e.isAnd, e.lhs, a.ret, n);
    TestFits(k, s2, e.isAnd, e.rhs, b.ret, n);
    more := AddTemp(k, s2, b.gen, Int);
    FooterShapes(k, more, e.isAnd, b.gen, n, b.lab);
    hide ValSized, WellTyped, Selectable, TameExpr;
    SameSizes(s1);
    SameSizes(s2);
    Then(k, s1, s1, a.ops, j1);
    Joined(k, s1, s2, a.ops + [j1], b.ops);
    Then(k, s2, s2, a.ops + [j1] + b.ops, j2);
    Joined(k, s2, more, a.ops + [j1] + b.ops + [j2], LogicalFooter(e.isAnd, Temp(b.gen, Int), n, b.lab));
    LaterOn(k, sizes, g, s1, a.gen, s2, b.gen);
    LaterOn(k, sizes, g, s2, b.gen, more, b.gen + 1);
  }

  lemma SameSizes(sizes: Sizes)
    ensures Extends(sizes, sizes)
  {
  }

  lemma FooterShapes(k: Setting, sizes: Sizes, isAnd: bool, g: int, l: int, end: int)
    requires ValSized(sizes, Temp(g, Int))
    ensures Shaped(k, sizes, LogicalFooter(isAnd, Temp(g, Int), l, end))
  {
  }

  lemma TernaryCode(e: Expr, ud: Option<IrVal>, g: int, n: int)
    requires e.Ternary?
    ensures var c := LowerExpr(e.cond, ud, g + 1, n + 2);
            var a := LowerExpr(e.thn, ud, c.gen, c.lab);
            var b := LowerExpr(e.els, ud, a.gen, a.lab);
            LowerExpr(e, ud, g, n) ==
            ExprCode(c.ops + [JumpIfZero(c.ret, n)]
                     + (a.ops + [Copy(a.ret, Temp(g, TypeOf(e.thn)))] + [Jump(n + 1), LabelAt(n)])
                     + (b.ops + [Copy(b.ret, Temp(g, TypeOf(e.els)))] + [LabelAt(n + 1)]),
                     Temp(g, e.tty), b.gen, b.lab)
  {
  }

  lemma {:induction false} TernaryShapes(k: Setting, e: Expr, shared: Option<Expr>, ud: Option<IrVal>, g: int, n: int, sizes: Sizes)
    returns (more: Sizes)
    requires e.Ternary? && Fine(k, e, shared) && Ready(k, sizes, g) && Cached(sizes, ud, shared)
    ensures Good(k, more, LowerExpr(e, ud, g, n), e) && Later(k, sizes, g, more, LowerExpr(e, ud, g, n).gen)
    decreases e, 1
  {
    hide Shaped, Ready, Extends, LowerExpr, TestedRight;
    TernaryCode(e, ud, g, n);
    var s0 := AddTemp(k, sizes, g, e.tty);
    CachedStays(sizes, s0, ud, shared);
    var c := LowerExpr(e.cond, ud, g + 1, n + 2);
    var a := LowerExpr(e.thn, ud, c.gen, c.lab);
    var b := LowerExpr(e.els, ud, a.gen, a.lab);
    var s1 := ExprShapes(k, e.cond, shared, ud, g + 1, n + 2, s0);
    CachedStays(s0, s1, ud, shared);
    var s2 := ExprShapes(k, e.thn, shared, ud, c.gen, c.lab, s1);
    CachedStays(s1, s2, ud, shared);
    more := ExprShapes(k, e.els, shared, ud, a.gen, a.lab, s2);
    var x, y := Copy(a.ret, Temp(g, TypeOf(e.thn))), Copy(b.ret, Temp(g, TypeOf(e.els)));
    ValStays(s0, s1, Temp(g, e.tty));
    ValStays(s1, s2, Temp(g, e.tty));
    ValStays(s2, more, Temp(g, e.tty));
    TestFits(k, s1, true, e.cond, c.ret, n);
    assert OpFits(k, s2, x) && OpFits(k, more, y);
    Marks(k, s2, n);
    Marks(k, more, n);
    hide ValSized, OpFits, WellTyped, Selectable, TameExpr;
    SameSizes(s1);
    SameSizes(s2);
    SameSizes(more);
    Then(k, s1, s1, c.ops, JumpIfZero(c.ret, n));
    Then(k, s2, s2, a.ops, x);
    Then(k, more, more, b.ops, y);
    Joined(k, s2, s2, a.ops + [x], [Jump(n + 1), LabelAt(n)]);
    Joined(k, more, more, b.ops + [y], [LabelAt(n + 1)]);
    Joined(k, s1, s2, c.ops + [JumpIfZero(c.ret, n)], a.ops + [x] + [Jump(n + 1), LabelAt(n)]);
    Joined(k, s2, more, c.ops + [JumpIfZero(c.ret, n)] + (a.ops + [x] + [Jump(n + 1), LabelAt(n)]), b.ops + [y] + [LabelAt(n + 1)]);
    LaterOn(k, sizes, g, s0, g + 1, s1, c.gen);
    LaterOn(k, sizes, g, s1, c.gen, s2, a.gen);
    LaterOn(k, sizes, g, s2, a.gen, more, b.gen);
  }

  lemma Marks(k: Setting, sizes: Sizes, n: int)
    ensures Shaped(k, sizes, [Jump(n + 1), LabelAt(n)]) && Shaped(k, sizes, [LabelAt(n + 1)])
  {
  }

  lemma {:induction false} AssignShapes(k: Setting, e: Expr, shared: Option<Expr>, ud: Option<IrVal>, g: int, n: int, sizes: Sizes)
    returns (more: Sizes)
    requires e.Assign? && Fine(k, e, shared) && Ready(k, sizes, g) && Cached(sizes, ud, shared)
    ensures Good(k, more, LowerExpr(e, ud, g, n), e) && Later(k, sizes, g, more, LowerExpr(e, ud, g, n).gen)
    decreases e, 1
  {
    hide Shaped, Ready, Extends;
    var u := Unparen(e.target);
    UnparenKeeps(k, e.target, shared);
    if u.Deref? {
      more := AssignThrough(k, e, shared, ud, g, n, sizes);
    } else {
      var b := LowerExpr(e.source, None, g, n);
      more := ExprShapes(k, e.source, if e.compound then Some(e.target) else None, None, g, n, sizes);
      var place := DirectPlace(u, e.aty);
      assert ValSized(more, place) by {
        PlaceSized(k, u, shared, e.aty, sizes, g);
        ValStays(sizes, more, place);
      }
      SameSizes(more);
      Then(k, more, more, b.ops, Copy(b.ret, place));
    }
  }

  /** A variable of the program has its size. */
  lemma PlaceSized(k: Setting, u: Expr, shared: Option<Expr>, t: CType, sizes: Sizes, g: int)
    requires u.Var? && Fine(k, u, shared) && Ready(k, sizes, g) && t == TypeOf(u)
    ensures ValSized(sizes, DirectPlace(u, t))
  {
  }

  lemma AssignCode(e: Expr, ud: Option<IrVal>, g: int, n: int)
    requires e.Assign? && Unparen(e.target).Deref?
    ensures var a, t := LowerExpr(Unparen(e.target).pointer, ud, g, n), Unparen(e.target).dty;
            if e.compound then
              var b := LowerExpr(e.source, Some(Temp(a.gen, t)), a.gen + 1, a.lab);
              LowerExpr(e, ud, g, n) == ExprCode(a.ops + [Load(a.ret, Temp(a.gen, t))] + b.ops + [Store(b.ret, a.ret)], b.ret, b.gen, b.lab)
            else
              var b := LowerExpr(e.source, None, a.gen, a.lab);
              LowerExpr(e, ud, g, n) == ExprCode(a.ops + b.ops + [Store(b.ret, a.ret)], b.ret, b.gen, b.lab)
  {
  }

  lemma {:induction false} AssignThrough(k: Setting, e: Expr, shared: Option<Expr>, ud: Option<IrVal>, g: int, n: int, sizes: Sizes)
    returns (more: Sizes)
    requires e.Assign? && Unparen(e.target).Deref? && Fine(k, e, shared) && Fine(k, Unparen(e.target), shared)
    requires Ready(k, sizes, g) && Cached(sizes, ud, shared)
    ensures Good(k, more, LowerExpr(e, ud, g, n), e) && Later(k, sizes, g, more, LowerExpr(e, ud, g, n).gen)
    decreases e, 0
  {
    hide Shaped, Ready, Extends, Later, Good, Fine, LowerExpr, ValSized, TypeOf, OpFits;
    AssignCode(e, ud, g, n);
    AssignParts(k, e, shared);
    var p := Unparen(e.target).pointer;
    var a := LowerExpr(p, ud, g, n);
    var s1 := ExprShapes(k, p, shared, ud, g, n, sizes);
    GoodMeans(k, s1, a, p);
    var s2, h, pre, ud' := GlueShaped(k, e, sizes, g, s1, a);
    LaterReady(k, sizes, g, s2, h);
    var b := LowerExpr(e.source, ud', h, a.lab);
    more := ExprShapes(k, e.source, if e.compound then Some(e.target) else None, ud', h, a.lab, s2);
    GoodMeans(k, more, b, e.source);
    StoreShaped(k, s2, h, more, b.gen, pre, b.ops, b.ret, a.ret);
    LaterOn(k, sizes, g, s2, h, more, b.gen);
    GoodAssign(k, more, LowerExpr(e, ud, g, n), b, e);
  }

  lemma AssignParts(k: Setting, e: Expr, shared: Option<Expr>)
    requires e.Assign? && Unparen(e.target).Deref? && Fine(k, e, shared) && Fine(k, Unparen(e.target), shared)
    ensures var u := Unparen(e.target);
            && u.dty == e.aty && u.pointer < e && Fine(k, u.pointer, shared) && TypeOf(u.pointer) == Pointer(e.aty)
            && TypeOf(e.target) == TypeOf(e.source) == e.aty && Fine(k, e.source, if e.compound then Some(e.target) else None)
  {
  }

  lemma LaterReady(k: Setting, sizes: Sizes, g: int, more: Sizes, h: int)
    requires Later(k, sizes, g, more, h)
    ensures Ready(k, more, h)
  {
    hide Ready;
  }

  /** A compound assignment loads the old value. */
  lemma GlueShaped(k: Setting, e: Expr, sizes: Sizes, g: int, s1: Sizes, a: ExprCode)
    returns (s2: Sizes, h: int, pre: seq<IrOp>, ud: Option<IrVal>)
    requires e.Assign? && TypeOf(e.target) == e.aty && Later(k, sizes, g, s1, a.gen)
    requires Shaped(k, s1, a.ops) && ValSized(s1, a.ret) && a.ret.ty == Pointer(e.aty)
    ensures h == (if e.compound then a.gen + 1 else a.gen)
    ensures pre == if e.compound then a.ops + [Load(a.ret, Temp(a.gen, e.aty))] else a.ops
    ensures ud == if e.compound then Some(Temp(a.gen, e.aty)) else None
    ensures Later(k, sizes, g, s2, h) && Shaped(k, s2, pre) && ValSized(s2, a.ret)
    ensures Cached(s2, ud, if e.compound then Some(e.target) else None)
  {
    hide Shaped, Ready, Extends;
    s2, h, pre, ud := s1, a.gen, a.ops, None;
    if e.compound {
      var glue := Temp(a.gen, e.aty);
      s2 := OneMore(k, sizes, g, s1, a.gen, a.ops, Load(a.ret, glue), e.aty);
      ValStays(s1, s2, a.ret);
      h, pre, ud := a.gen + 1, a.ops + [Load(a.ret, glue)], Some(glue);
    }
  }

  lemma StoreShaped(k: Setting, s2: Sizes, h: int, more: Sizes, h': int, pre: seq<IrOp>, ops: seq<IrOp>, v: IrVal, p: IrVal)
    requires Later(k, s2, h, more, h') && Shaped(k, s2, pre) && Shaped(k, more, ops)
    requires ValSized(more, v) && ValSized(s2, p) && p.ty.Size() == 8
    ensures Shaped(k, more, pre + ops + [Store(v, p)])
  {
    hide Shaped, Ready, Extends;
    ValStays(s2, more, p);
    assert OpFits(k, more, Store(v, p));
    SameSizes(more);
    Joined(k, s2, more, pre, ops);
    Then(k, more, more, pre + ops, Store(v, p));
  }

  lemma GoodAssign(k: Setting, sizes: Sizes, c: ExprCode, b: ExprCode, e: Expr)
    requires e.Assign? && Shaped(k, sizes, c.ops) && c.ret == b.ret && Good(k, sizes, b, e.source) && TypeOf(e.source) == e.aty
    ensures Good(k, sizes, c, e)
  {
    hide Shaped, ValSized;
  }

  lemma {:induction false} IncDecShapes(k: Setting, e: Expr, shared: Option<Expr>, ud: Option<IrVal>, g: int, n: int, sizes: Sizes)
    returns (more: Sizes)
    requires e.IncDec? && Fine(k, e, shared) && Ready(k, sizes, g) && Cached(sizes, ud, shared)
    ensures Good(k, more, LowerExpr(e, ud, g, n), e) && Later(k, sizes, g, more, LowerExpr(e, ud, g, n).gen)
    decreases e, 1
  {
    hide Shaped, Ready, Extends;
    var u := Unparen(e.place);
    UnparenKeeps(k, e.place, shared);
    if u.Deref? {
      more := UpdateThrough(k, e, shared, ud, g, n, sizes);
    } else {
      PlaceSized(k, u, shared, e.ity, sizes, g);
      more := UpdatePlace(k, e.increment, e.prefix, DirectPlace(u, e.ity), e.ity, g, sizes);
    }
  }

  lemma UpdatePlace(k: Setting, increment: bool, prefix: bool, place: IrVal, t: CType, g: int, sizes: Sizes) returns (more: Sizes)
    requires place.Variable? && place.ty == t && ValSized(sizes, place) && Ready(k, sizes, g)
    ensures ValSized(more, if prefix then place else Temp(g, t)) && Later(k, sizes, g, more, if prefix then g else g + 1)
    ensures Shaped(k, more, if prefix then [IncDecOp(increment, place, t)] else [Copy(place, Temp(g, t)), IncDecOp(increment, place, t)])
  {
    if prefix {
      more := sizes;
      NotLater(k, sizes, g);
    } else {
      more := AddTemp(k, sizes, g, t);
      ValStays(sizes, more, place);
    }
    hide Ready, Extends;
    assert OpFits(k, more, IncDecOp(increment, place, t));
  }

  lemma {:induction false} UpdateThrough(k: Setting, e: Expr, shared: Option<Expr>, ud: Option<IrVal>, g: int, n: int, sizes: Sizes)
    returns (more: Sizes)
    requires e.IncDec? && Unparen(e.place).Deref? && Fine(k, e, shared) && Fine(k, Unparen(e.place), shared)
    requires Ready(k, sizes, g) && Cached(sizes, ud, shared)
    ensures Good(k, more, LowerExpr(e, ud, g, n), e) && Later(k, sizes, g, more, LowerExpr(e, ud, g, n).gen)
    decreases e, 0
  {
    hide Shaped, Ready, Extends, Later, Good, Fine, LowerExpr, ValSized, IncDecOp, TypeOf;
    StepParts(k, e, shared);
    StepCode(e, ud, g, n);
    var p := Unparen(e.place).pointer;
    var a := LowerExpr(p, ud, g, n);
    var s1 := ExprShapes(k, p, shared, ud, g, n, sizes);
    GoodMeans(k, s1, a, p);
    more := StepTemps(k, sizes, g, s1, a.gen, a.ret, e.ity, e.prefix);
    StepsShaped(k, more, e.increment, e.prefix, a.ret, a.gen, e.ity);
    StepJoined(k, s1, more, a.ops, e.increment, e.prefix, a.ret, a.gen, e.ity);
    GoodStep(k, more, LowerExpr(e, ud, g, n), e);
  }

  lemma StepParts(k: Setting, e: Expr, shared: Option<Expr>)
    requires e.IncDec? && Unparen(e.place).Deref? && Fine(k, e, shared) && Fine(k, Unparen(e.place), shared)
    ensures var u := Unparen(e.place);
            u.dty == e.ity && u.pointer < e && Fine(k, u.pointer, shared) && TypeOf(u.pointer) == Pointer(e.ity)
  {
  }

  lemma StepCode(e: Expr, ud: Option<IrVal>, g: int, n: int)
    requires e.IncDec? && Unparen(e.place).Deref? && Unparen(e.place).dty == e.ity
    ensures var a := LowerExpr(Unparen(e.place).pointer, ud, g, n);
            var work, stash := Temp(a.gen, e.ity), Temp(a.gen + 1, e.ity);
            LowerExpr(e, ud, g, n) ==
            ExprCode(a.ops + (if e.prefix then [] else [Load(a.ret, stash)])
                     + [Load(a.ret, work), IncDecOp(e.increment, work, e.ity), Store(work, a.ret)],
                     if e.prefix then work else stash, if e.prefix then a.gen + 1 else a.gen + 2, a.lab)
  {
    hide IncDecOp;
  }

  lemma GoodMeans(k: Setting, sizes: Sizes, c: ExprCode, e: Expr)
    requires Good(k, sizes, c, e)
    ensures Shaped(k, sizes, c.ops) && ValSized(sizes, c.ret) && c.ret.ty == TypeOf(e)
  {
  }

  lemma GoodStep(k: Setting, sizes: Sizes, c: ExprCode, e: Expr)
    requires e.IncDec? && Shaped(k, sizes, c.ops) && ValSized(sizes, c.ret) && c.ret.Variable? && c.ret.ty == e.ity
    ensures Good(k, sizes, c, e)
  {
    hide Shaped, ValSized;
  }

  /** The temporaries of a step: the working copy and, behind a postfix operator, the
      old value. */
  lemma StepTemps(k: Setting, sizes: Sizes, g: int, s1: Sizes, h: int, p: IrVal, t: CType, prefix: bool) returns (more: Sizes)
    requires Later(k, sizes, g, s1, h) && ValSized(s1, p)
    ensures Later(k, sizes, g, more, if prefix then h + 1 else h + 2) && Extends(s1, more)
    ensures ValSized(more, p) && ValSized(more, Temp(h, t)) && (!prefix ==> ValSized(more, Temp(h + 1, t)))
  {
    hide Ready, Extends, ValSized;
    var s2 := AddTemp(k, s1, h, t);
    ValStays(s1, s2, p);
    LaterOn(k, sizes, g, s1, h, s2, h + 1);
    more := s2;
    if !prefix {
      more := AddTemp(k, s2, h + 1, t);
      ValStays(s2, more, p);
      ValStays(s2, more, Temp(h, t));
      LaterOn(k, s1, h, s2, h + 1, more, h + 2);
      LaterOn(k, sizes, g, s2, h + 1, more, h + 2);
    }
  }

  lemma StepJoined(k: Setting, s1: Sizes, more: Sizes, ops: seq<IrOp>, increment: bool, prefix: bool, p: IrVal, g: int, t: CType)
    requires var h := if prefix then [] else [Load(p, Temp(g + 1, t))];
             var tail := [Load(p, Temp(g, t)), IncDecOp(increment, Temp(g, t), t), Store(Temp(g, t), p)];
             Shaped(k, s1, ops) && Extends(s1, more) && Shaped(k, more, h) && Shaped(k, more, tail)
    ensures var h := if prefix then [] else [Load(p, Temp(g + 1, t))];
            var tail := [Load(p, Temp(g, t)), IncDecOp(increment, Temp(g, t), t), Store(Temp(g, t), p)];
            Shaped(k, more, ops + h + tail)
  {
    hide Shaped, Extends, IncDecOp;
    var h := if prefix then [] else [Load(p, Temp(g + 1, t))];
    var tail := [Load(p, Temp(g, t)), IncDecOp(increment, Temp(g, t), t), Store(Temp(g, t), p)];
    SameSizes(more);
    Joined(k, s1, more, ops, h);
    Joined(k, more, more, ops + h, tail);
  }

  lemma StepsShaped(k: Setting, sizes: Sizes, increment: bool, prefix: bool, p: IrVal, g: int, t: CType)
    requires p.ty.Size() == 8 && ValSized(sizes, p) && ValSized(sizes, Temp(g, t)) && (!prefix ==> ValSized(sizes, Temp(g + 1, t)))
    ensures Shaped(k, sizes, if prefix then [] else [Load(p, Temp(g + 1, t))])
    ensures Shaped(k, sizes, [Load(p, Temp(g, t)), IncDecOp(increment, Temp(g, t), t), Store(Temp(g, t), p)])
  {
  }

  lemma {:induction false} DerefShapes(k: Setting, e: Expr, shared: Option<Expr>, ud: Option<IrVal>, g: int, n: int, sizes: Sizes)
    returns (more: Sizes)
    requires e.Deref? && Fine(k, e, shared) && Ready(k, sizes, g) && Cached(sizes, ud, shared)
    ensures Good(k, more, LowerExpr(e, ud, g, n), e) && Later(k, sizes, g, more, LowerExpr(e, ud, g, n).gen)
    decreases e, 1
  {
    hide Shaped, Later, Ready, Extends;
    var u := Unparen(e.pointer);
    UnparenKeeps(k, e.pointer, shared);
    if u.AddressOf? {
      more := ExprShapes(k, u.lvalue, shared, ud, g, n, sizes);
    } else {
      var c := LowerExpr(e.pointer, ud, g, n);
      more := ExprShapes(k, e.pointer, shared, ud, g, n, sizes);
      more := OneMore(k, sizes, g, more, c.gen, c.ops, Load(c.ret, Temp(c.gen, e.dty)), e.dty);
    }
  }

  lemma {:induction false} AddressShapes(k: Setting, e: Expr, shared: Option<Expr>, ud: Option<IrVal>, g: int, n: int, sizes: Sizes)
    returns (more: Sizes)
    requires e.AddressOf? && Fine(k, e, shared) && Ready(k, sizes, g) && Cached(sizes, ud, shared)
    ensures Good(k, more, LowerExpr(e, ud, g, n), e) && Later(k, sizes, g, more, LowerExpr(e, ud, g, n).gen)
    decreases e, 1
  {
    hide Shaped, Later, Ready, Extends;
    var u := Unparen(e.lvalue);
    UnparenKeeps(k, e.lvalue, shared);
    if u.Deref? {
      more := ExprShapes(k, u.pointer, shared, ud, g, n, sizes);
    } else {
      var c := LowerExpr(e.lvalue, ud, g, n);
      more := ExprShapes(k, e.lvalue, shared, ud, g, n, sizes);
      LoweredVariable(e.lvalue, ud, g, n);
      more := OneMore(k, sizes, g, more, c.gen, c.ops, GetAddress(c.ret, Temp(c.gen, e.pty)), e.pty);
    }
  }

  lemma LoweredVariable(e: Expr, ud: Option<IrVal>, g: int, n: int)
    requires Unparen(e).Var?
    ensures LowerExpr(e, ud, g, n) == ExprCode([], Variable(Unparen(e).loc, Unparen(e).vty), g, n)
    decreases e
  {
    if e.Paren? {
      LoweredVariable(e.inner, ud, g, n);
    }
  }

  // --------------------------------------------------------------- statements

  ghost predicate FineOptional(k: Setting, e: Option<Expr>) {
    e.Some? ==> Fine(k, e.value, None)
  }

  ghost predicate FineStmt(k: Setting, s: Stmt) {
    WellTypedStmt(k.layout, s) && SelectableStmt(s, k.base) && SmallCases(s) && (k.tame ==> TameStmt(s))
  }

  ghost predicate FineFlat(k: Setting, f: Flat) {
    WellTypedFlat(k.layout, f) && SelectableFlat(f, k.base) && SmallCasesFlat(f) && (k.tame ==> TameFlat(f))
  }

  lemma OptionalShapes(k: Setting, e: Option<Expr>, g: int, n: int, sizes: Sizes) returns (more: Sizes)
    requires FineOptional(k, e) && Ready(k, sizes, g)
    ensures Shaped(k, more, LowerOptional(e, g, n).ops) && Later(k, sizes, g, more, LowerOptional(e, g, n).gen)
  {
    hide Shaped, Later;
    NotLater(k, sizes, g);
    Empty(k, sizes);
    more := sizes;
    if e.Some? {
      more := ExprShapes(k, e.value, None, None, g, n, sizes);
    }
  }

  lemma GuardShapes(k: Setting, e: Option<Expr>, end: int, g: int, n: int, sizes: Sizes) returns (more: Sizes)
    requires FineOptional(k, e) && (k.tame ==> TameGuard(e)) && Ready(k, sizes, g)
    ensures Shaped(k, more, LowerGuard(e, end, g, n).ops) && Later(k, sizes, g, more, LowerGuard(e, end, g, n).gen)
  {
    hide Shaped, Later, Extends;
    NotLater(k, sizes, g);
    Empty(k, sizes);
    more := sizes;
    if e.Some? {
      var c := LowerExpr(e.value, None, g, n);
      more := ExprShapes(k, e.value, None, None, g, n, sizes);
      SameSizes(more);
      Then(k, more, more, c.ops, JumpIfZero(c.ret, end));
    }
  }

  lemma JumpsAndLabels(k: Setting, sizes: Sizes, l: int)
    ensures OpFits(k, sizes, Jump(l)) && OpFits(k, sizes, LabelAt(l)) && OpFits(k, sizes, Ret(None))
    ensures Shaped(k, sizes, [Jump(l)]) && Shaped(k, sizes, [LabelAt(l)]) && Shaped(k, sizes, [Ret(None)])
  {
  }

  lemma {:induction false} StmtShapes(k: Setting, s: Stmt, g: int, n: int, sizes: Sizes) returns (more: Sizes)
    requires FineStmt(k, s) && Ready(k, sizes, g)
    ensures Shaped(k, more, LowerStmt(s, g, n).ops) && Later(k, sizes, g, more, LowerStmt(s, g, n).gen)
    decreases s, 1
  {
    hide Shaped, Later, Ready, Extends, WellTyped, Selectable, TameExpr, LowerExpr;
    Empty(k, sizes);
    NotLater(k, sizes, g);
    SameSizes(sizes);
    more := sizes;
    match s
    case Expression(e) => more := OptionalShapes(k, Some(e), g, n, sizes);
    case Declare(_, _, _) => more := DeclareShapes(k, s, g, n, sizes);
    case Return(e) =>
      if e.Some? {
        var c := LowerExpr(e.value, None, g, n);
        more := ExprShapes(k, e.value, None, None, g, n, sizes);
        SameSizes(more);
        Then(k, more, more, c.ops, Ret(Some(c.ret)));
      } else {
        JumpsAndLabels(k, sizes, 0);
      }
    case Block(f) => more := FlatShapes(k, f, g, n, sizes);
    case IfElse(_, _, _) => more := IfShapes(k, s, g, n, sizes);
    case Loop(_, _, _, _, _, _, _) => more := LoopShapes(k, s, g, n, sizes);
    case Switch(_, _, _, _, _) => more := SwitchShapes(k, s, g, n, sizes);
    case Empty =>
    case Break(l) => JumpsAndLabels(k, sizes, l);
    case Continue(l) => JumpsAndLabels(k, sizes, l);
    case Goto(_, l) => JumpsAndLabels(k, sizes, l);
    case Label(_, l) => JumpsAndLabels(k, sizes, l);
    case Case(_, l) => JumpsAndLabels(k, sizes, l);
    case Default(l) => JumpsAndLabels(k, sizes, l);
  }

  lemma DeclareShapes(k: Setting, s: Stmt, g: int, n: int, sizes: Sizes) returns (more: Sizes)
    requires s.Declare? && FineStmt(k, s) && Ready(k, sizes, g)
    ensures Shaped(k, more, LowerStmt(s, g, n).ops) && Later(k, sizes, g, more, LowerStmt(s, g, n).gen)
  {
    hide Shaped, Extends, WellTyped, Selectable, TameExpr, LowerExpr;
    Empty(k, sizes);
    NotLater(k, sizes, g);
    more := sizes;
    if s.init.Some? {
      var c, place := LowerExpr(s.init.value, None, g, n), Variable(s.dloc, s.dtype);
      more := ExprShapes(k, s.init.value, None, None, g, n, sizes);
      ValStays(sizes, more, place);
      SameSizes(more);
      Then(k, more, more, c.ops, Copy(c.ret, place));
    }
  }

  lemma {:induction false} FlatShapes(k: Setting, f: Flat, g: int, n: int, sizes: Sizes) returns (more: Sizes)
    requires FineFlat(k, f) && Ready(k, sizes, g)
    ensures Shaped(k, more, LowerFlat(f, g, n).ops) && Later(k, sizes, g, more, LowerFlat(f, g, n).gen)
    decreases f, 0
  {
    hide Shaped, Ready, Extends, LowerStmt, WellTypedStmt, SelectableStmt, TameStmt;
    Empty(k, sizes);
    NotLater(k, sizes, g);
    more := sizes;
    if f.Cons? {
      var a := LowerStmt(f.car, g, n);
      var b := LowerFlat(f.cdr, a.gen, a.lab);
      var s1 := StmtShapes(k, f.car, g, n, sizes);
      more := FlatShapes(k, f.cdr, a.gen, a.lab, s1);
      Joined(k, s1, more, a.ops, b.ops);
      LaterOn(k, sizes, g, s1, a.gen, more, b.gen);
    }
  }

  lemma {:induction false} IfShapes(k: Setting, s: Stmt, g: int, n: int, sizes: Sizes) returns (more: Sizes)
    requires s.IfElse? && FineStmt(k, s) && Ready(k, sizes, g)
    ensures Shaped(k, more, LowerStmt(s, g, n).ops) && Later(k, sizes, g, more, LowerStmt(s, g, n).gen)
    decreases s, 0
  {
    hide Shaped, Ready, Extends, LowerExpr, LowerFlat, WellTyped, Selectable, TameExpr;
    var lab := if s.elseClause.Some? then n + 2 else n + 1;
    var c := LowerExpr(s.condition, None, g, lab);
    var x := LowerFlat(s.thenClause, c.gen, c.lab);
    var s1 := ExprShapes(k, s.condition, None, None, g, lab, sizes);
    var s2 := FlatShapes(k, s.thenClause, c.gen, c.lab, s1);
    assert OpFits(k, s1, JumpIfZero(c.ret, n));
    JumpsAndLabels(k, s2, n);
    JumpsAndLabels(k, s2, n + 1);
    LaterOn(k, sizes, g, s1, c.gen, s2, x.gen);
    SameSizes(s1);
    SameSizes(s2);
    hide OpFits;
    Then(k, s1, s1, c.ops, JumpIfZero(c.ret, n));
    Joined(k, s1, s2, c.ops + [JumpIfZero(c.ret, n)], x.ops);
    var h := c.ops + [JumpIfZero(c.ret, n)] + x.ops;
    if s.elseClause.Some? {
      var y := LowerFlat(s.elseClause.value, x.gen, x.lab);
      more := FlatShapes(k, s.elseClause.value, x.gen, x.lab, s2);
      Then(k, s2, s2, h, Jump(n + 1));
      Then(k, s2, s2, h + [Jump(n + 1)], LabelAt(n));
      assert h + [Jump(n + 1)] + [LabelAt(n)] == h + [Jump(n + 1), LabelAt(n)];
      Joined(k, s2, more, h + [Jump(n + 1), LabelAt(n)], y.ops);
      JumpsAndLabels(k, more, n + 1);
      SameSizes(more);
      Then(k, more, more, h + [Jump(n + 1), LabelAt(n)] + y.ops, LabelAt(n + 1));
      LaterOn(k, sizes, g, s2, x.gen, more, y.gen);
    } else {
      more := s2;
      Then(k, s2, s2, h, LabelAt(n));
    }
  }

  lemma {:induction false} LoopShapes(k: Setting, s: Stmt, g: int, n: int, sizes: Sizes) returns (more: Sizes)
    requires s.Loop? && FineStmt(k, s) && Ready(k, sizes, g)
    ensures Shaped(k, more, LowerStmt(s, g, n).ops) && Later(k, sizes, g, more, LowerStmt(s, g, n).gen)
    decreases s, 0
  {
    hide Shaped, Ready, Extends, LowerExpr, LowerFlat, LowerGuard, LowerOptional, WellTyped, Selectable, TameExpr;
    var start, cont, end := s.labelStart, s.labelContinue, s.labelEnd;
    var p := LowerGuard(s.precond, end, g, n);
    var b := LowerFlat(s.body, p.gen, p.lab);
    var i := LowerOptional(s.incr, b.gen, b.lab);
    var q := LowerGuard(s.postcond, end, i.gen, i.lab);
    var s1 := GuardShapes(k, s.precond, end, g, n, sizes);
    var s2 := FlatShapes(k, s.body, p.gen, p.lab, s1);
    var s3 := OptionalShapes(k, s.incr, b.gen, b.lab, s2);
    more := GuardShapes(k, s.postcond, end, i.gen, i.lab, s3);
    var h := [LabelAt(start)] + p.ops + b.ops;
    assert LowerStmt(s, g, n).ops == h + [LabelAt(cont)] + i.ops + q.ops + [Jump(start)] + [LabelAt(end)] by {
      assert [Jump(start), LabelAt(end)] == [Jump(start)] + [LabelAt(end)];
    }
    assert LowerStmt(s, g, n).gen == q.gen;
    LaterOn(k, sizes, g, s1, p.gen, s2, b.gen);
    LaterOn(k, sizes, g, s2, b.gen, s3, i.gen);
    LaterOn(k, sizes, g, s3, i.gen, more, q.gen);
    JumpsAndLabels(k, s1, start);
    JumpsAndLabels(k, s2, cont);
    JumpsAndLabels(k, more, start);
    JumpsAndLabels(k, more, end);
    hide LowerStmt, OpFits, FineStmt;
    SameSizes(s1);
    SameSizes(s2);
    SameSizes(more);
    Joined(k, s1, s1, [LabelAt(start)], p.ops);
    Joined(k, s1, s2, [LabelAt(start)] + p.ops, b.ops);
    Then(k, s2, s2, h, LabelAt(cont));
    Joined(k, s2, s3, h + [LabelAt(cont)], i.ops);
    Joined(k, s3, more, h + [LabelAt(cont)] + i.ops, q.ops);
    Then(k, more, more, h + [LabelAt(cont)] + i.ops + q.ops, Jump(start));
    Then(k, more, more, h + [LabelAt(cont)] + i.ops + q.ops + [Jump(start)], LabelAt(end));
  }

  lemma {:induction false} CaseShapes(k: Setting, v: IrVal, cases: seq<CaseEntry>, g: int, sizes: Sizes) returns (more: Sizes)
    requires ValSized(sizes, v) && Ready(k, sizes, g)
    requires forall i :: 0 <= i < |cases| ==> 0 <= cases[i].num < Modulus(v.ty)
    ensures Shaped(k, more, CaseJumps(v, v.ty, cases, g)) && Later(k, sizes, g, more, g + |cases|)
    decreases |cases|
  {
    hide Shaped, Ready, Extends;
    Empty(k, sizes);
    NotLater(k, sizes, g);
    more := sizes;
    if cases != [] {
      var rest := CaseJumps(v, v.ty, cases[1..], g + 1);
      var test, jump := BinaryOf(Equal, v, Constant(cases[0].num, v.ty), Temp(g, Int)), JumpIfNotZero(Temp(g, Int), cases[0].unique);
      var s1 := AddTemp(k, sizes, g, Int);
      ValStays(sizes, s1, v);
      more := CaseShapes(k, v, cases[1..], g + 1, s1);
      ValStays(s1, more, v);
      ValStays(s1, more, Temp(g, Int));
      CaseTame(v, cases[0].num);
      assert OpFits(k, more, test) && OpFits(k, more, jump);
      SameSizes(more);
      LaterOn(k, sizes, g, s1, g + 1, more, g + |cases|);
      hide OpFits, ValSized;
      Then(k, more, more, rest, test);
      Then(k, more, more, rest + [test], jump);
      assert rest + [test] + [jump] == rest + [test, jump];
    }
  }

  /** A case value fits the type of the controlling expression, so that the comparison
      with it is kept. */
  lemma CaseTame(v: IrVal, n: int)
    requires 0 <= n < Modulus(v.ty)
    ensures ComparedRight(Equal, v.ty, if v.Constant? then Some(v.num) else None, Some(n))
  {
  }

  lemma {:induction false} SwitchShapes(k: Setting, s: Stmt, g: int, n: int, sizes: Sizes) returns (more: Sizes)
    requires s.Switch? && FineStmt(k, s) && Ready(k, sizes, g)
    ensures Shaped(k, more, LowerStmt(s, g, n).ops) && Later(k, sizes, g, more, LowerStmt(s, g, n).gen)
    decreases s, 0
  {
    hide Shaped, Ready, Extends, LowerExpr, LowerFlat, CaseJumps, WellTyped, Selectable, TameExpr;
    var c := LowerExpr(s.control, None, g, n);
    var next := c.gen + |s.labelCases|;
    var tests := CaseJumps(c.ret, TypeOf(s.control), s.labelCases, c.gen);
    var b := LowerFlat(s.switchBody, next, c.lab);
    var d := if s.labelDefault >= 0 then [Jump(s.labelDefault)] else [];
    var s1 := ExprShapes(k, s.control, None, None, g, n, sizes);
    var s2 := CaseShapes(k, c.ret, s.labelCases, c.gen, s1);
    more := FlatShapes(k, s.switchBody, next, c.lab, s2);
    assert LowerStmt(s, g, n).ops == c.ops + tests + d + [Jump(s.switchEnd)] + b.ops + [LabelAt(s.switchEnd)];
    assert LowerStmt(s, g, n).gen == b.gen;
    LaterOn(k, sizes, g, s1, c.gen, s2, next);
    LaterOn(k, sizes, g, s2, next, more, b.gen);
    Empty(k, s2);
    JumpsAndLabels(k, s2, s.labelDefault);
    JumpsAndLabels(k, s2, s.switchEnd);
    JumpsAndLabels(k, more, s.switchEnd);
    hide LowerStmt, OpFits, FineStmt;
    SameSizes(s2);
    SameSizes(more);
    Joined(k, s1, s2, c.ops, tests);
    Joined(k, s2, s2, c.ops + tests, d);
    Then(k, s2, s2, c.ops + tests + d, Jump(s.switchEnd));
    Joined(k, s2, more, c.ops + tests + d + [Jump(s.switchEnd)], b.ops);
    Then(k, more, more, c.ops + tests + d + [Jump(s.switchEnd)] + b.ops, LabelAt(s.switchEnd));
  }

  /** The sizes of the variables of a function. */
  function VariableSizes(k: Setting): Sizes {
    map l | l in k.layout && (l.Tmp? ==> l.id < k.base) :: k.layout[l].size
  }

  /** Lowering gives every temporary one size and uses every variable at its own; all
      operations have the right shapes, and the constants in them are tame if those
      of the tree are. */
  lemma FunctionShapes(k: Setting, body: Flat, isVoid: bool, g: int, n: int) returns (sizes: Sizes)
    requires FineFlat(k, body) && k.base <= g && forall l :: l in k.layout ==> k.layout[l].size in {1, 4, 8}
    ensures Shaped(k, sizes, LowerFunction(body, isVoid, g, n).ops) && Extends(VariableSizes(k), sizes)
    ensures Ready(k, sizes, LowerFunction(body, isVoid, g, n).gen)
  {
    var c := LowerFlat(body, g, n);
    sizes := FlatShapes(k, body, g, n, VariableSizes(k));
    SameSizes(sizes);
    hide FineFlat, LowerFlat;
    Then(k, sizes, sizes, c.ops, Ret(if isVoid then None else Some(Constant(0, Char))));
  }

  /** How a constant comes to be tested: after `if (x = n)` it is the constant that is
      compared with zero, by the instruction that the repairs narrow to its low byte. */
  lemma AssignmentIsTested(x: Loc, n: int, g: int, l: int)
    ensures var cond := Assign(Var(x, Int), Const(n, Int), false, Int);
            && LowerStmt(IfElse(cond, Nil, None), g, l).ops ==
               [Copy(Constant(n, Int), Variable(x, Int)), JumpIfZero(Constant(n, Int), l), LabelAt(l)]
            && Selection.Select(JumpIfZero(Constant(n, Int), l))[0] == FixupMeaning.TestConstant(n, Asm.W32)
            && (TestedRight(cond) <==> (n % 256 == 0 <==> n % Modulus(Int) == 0))
  {
    var cond := Assign(Var(x, Int), Const(n, Int), false, Int);
    assert LowerExpr(Const(n, Int), None, g, l + 1) == ExprCode([], Constant(n, Int), g, l + 1);
    assert LowerExpr(cond, None, g, l + 1) == ExprCode([Copy(Constant(n, Int), Variable(x, Int))], Constant(n, Int), g, l + 1);
    assert LeftConstant(cond) == Some(n);
  }
}
