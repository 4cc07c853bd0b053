/** The code of an expression computes the value that the source semantics
    gives it, and has the same effect on the objects of the program. */
module ExprSimulation {
  import opened Wrappers
  import opened CTypes
  import opened CAst
  import opened Ir
  import opened CSemantics
  import opened BitArithmetic
  import opened ModularArithmetic
  import opened Lowering
  import opened Simulation

  // --------------------------------------------------- values stay in range

  ghost predicate TwinFits(tw: Option<TwinValue>, shared: Option<Expr>) {
    tw.Some? ==> shared.Some? && tw.value.v < Modulus(TypeOf(shared.value))
  }

  ghost predicate InRange(layout: Layout, e: Expr, r: Res) {
    r.v < Modulus(TypeOf(e)) && StoreOk(layout, r.st)
  }

  lemma {:induction false} EvalRange(layout: Layout, e: Expr, shared: Option<Expr>, tw: Option<TwinValue>, s: Store)
    requires WellTyped(layout, e, shared) && StoreOk(layout, s) && TwinFits(tw, shared)
    requires Eval(layout, e, tw, s).Some?
    ensures InRange(layout, e, Eval(layout, e, tw, s).value)
    decreases e, 2
  {
    match e
    case Const(_, _) =>
    case Var(_, _) =>
    case Paren(i) => EvalRange(layout, i, shared, tw, s);
    case Unary(_, o, _) => EvalRange(layout, o, shared, tw, s);
    case Binary(_, _, _, _) => BinaryRange(layout, e, shared, tw, s);
    case Logical(_, _, _) => LogicalRange(layout, e, shared, tw, s);
    case Ternary(_, _, _, _) => TernaryRange(layout, e, shared, tw, s);
    case Assign(_, _, _, _) => AssignRange(layout, e, shared, tw, s);
    case Twin(sh) =>
      if tw.None? {
        EvalRange(layout, sh, None, None, s);
      }
    case IncDec(_, _, _, _) => IncDecRange(layout, e, shared, tw, s);
    case Deref(_, _) => AccessRange(layout, e, shared, tw, s);
    case AddressOf(_, _) => AccessRange(layout, e, shared, tw, s);
    case Cast(f, _) => EvalRange(layout, f, shared, tw, s);
  }

  lemma {:induction false} AccessRange(layout: Layout, e: Expr, shared: Option<Expr>, tw: Option<TwinValue>, s: Store)
    requires e.Deref? || e.AddressOf?
    requires WellTyped(layout, e, shared) && StoreOk(layout, s) && TwinFits(tw, shared)
    requires Eval(layout, e, tw, s).Some?
    ensures InRange(layout, e, Eval(layout, e, tw, s).value)
    decreases e, 1
  {
    if e.Deref? {
      if Unparen(e.pointer).AddressOf? {
        UnparenTyped(layout, e.pointer, shared);
        EvalRange(layout, Unparen(e.pointer).lvalue, shared, tw, s);
      } else {
        PlaceRange(layout, e, shared, tw, s);
      }
    } else if Unparen(e.lvalue).Deref? {
      UnparenTyped(layout, e.lvalue, shared);
      EvalRange(layout, Unparen(e.lvalue).pointer, shared, tw, s);
    }
  }

  lemma {:induction false} BinaryRange(layout: Layout, e: Expr, shared: Option<Expr>, tw: Option<TwinValue>, s: Store)
    requires e.Binary?
    requires WellTyped(layout, e, shared) && StoreOk(layout, s) && TwinFits(tw, shared)
    requires Eval(layout, e, tw, s).Some?
    ensures InRange(layout, e, Eval(layout, e, tw, s).value)
    decreases e, 1
  {
    OperandValues(layout, e, shared, tw, s);
    hide Eval, WellTyped, TypeOf, StoreOk, Modulus;
    EvalRange(layout, e.left, shared, tw, s);
    var a := Eval(layout, e.left, tw, s).value;
    EvalRange(layout, e.right, shared, tw, a.st);
    BinaryBound(e, a, Eval(layout, e.right, tw, a.st).value);
  }

  lemma OperandValues(layout: Layout, e: Expr, shared: Option<Expr>, tw: Option<TwinValue>, s: Store)
    requires e.Binary? && WellTyped(layout, e, shared) && Eval(layout, e, tw, s).Some?
    ensures WellTyped(layout, e.left, shared) && WellTyped(layout, e.right, shared)
    ensures var a := Eval(layout, e.left, tw, s);
            && a.Some? && Eval(layout, e.right, tw, a.value.st).Some?
            && Eval(layout, e, tw, s) == BinaryResult(e, a.value, Eval(layout, e.right, tw, a.value.st).value)
  {
  }

  lemma BinaryBound(e: Expr, a: Res, b: Res)
    requires e.Binary? && BinaryResult(e, a, b).Some?
    ensures var r := BinaryResult(e, a, b).value; r.v < Modulus(TypeOf(e)) && r.st == b.st
  {
    hide ArithmeticValue, Value;
  }

  lemma {:induction false} LogicalRange(layout: Layout, e: Expr, shared: Option<Expr>, tw: Option<TwinValue>, s: Store)
    requires e.Logical?
    requires WellTyped(layout, e, shared) && StoreOk(layout, s) && TwinFits(tw, shared)
    requires Eval(layout, e, tw, s).Some?
    ensures InRange(layout, e, Eval(layout, e, tw, s).value)
    decreases e, 1
  {
    EvalRange(layout, e.lhs, shared, tw, s);
    var a := Eval(layout, e.lhs, tw, s).value;
    if (a.v != 0) == e.isAnd {
      EvalRange(layout, e.rhs, shared, tw, a.st);
    }
  }

  lemma {:induction false} TernaryRange(layout: Layout, e: Expr, shared: Option<Expr>, tw: Option<TwinValue>, s: Store)
    requires e.Ternary?
    requires WellTyped(layout, e, shared) && StoreOk(layout, s) && TwinFits(tw, shared)
    requires Eval(layout, e, tw, s).Some?
    ensures InRange(layout, e, Eval(layout, e, tw, s).value)
    decreases e, 1
  {
    EvalRange(layout, e.cond, shared, tw, s);
    var a := Eval(layout, e.cond, tw, s).value;
    if a.v != 0 {
      EvalRange(layout, e.thn, shared, tw, a.st);
    } else {
      EvalRange(layout, e.els, shared, tw, a.st);
    }
  }

  lemma {:induction false} AssignRange(layout: Layout, e: Expr, shared: Option<Expr>, tw: Option<TwinValue>, s: Store)
    requires e.Assign?
    requires WellTyped(layout, e, shared) && StoreOk(layout, s) && TwinFits(tw, shared)
    requires Eval(layout, e, tw, s).Some?
    ensures InRange(layout, e, Eval(layout, e, tw, s).value)
    decreases e, 1
  {
    hide Eval, EvalPlace, WellTyped, Modulus, TypeOf, Unparen;
    var l, a, b, tw' := AssignSteps(layout, e, shared, tw, s);
    PlaceRange(layout, e.target, shared, tw, s);
    CellBound(layout, a.st, l, e.aty);
    EvalRange(layout, e.source, if e.compound then Some(e.target) else None, tw', a.st);
  }

  lemma CellBound(layout: Layout, s: Store, l: Loc, t: CType)
    requires StoreOk(layout, s) && l in s && l in layout && layout[l].size == t.Size()
    ensures s[l] < Modulus(t) == ModulusOfSize(layout[l].size)
  {
  }

  lemma AssignSteps(layout: Layout, e: Expr, shared: Option<Expr>, tw: Option<TwinValue>, s: Store)
    returns (l: Loc, a: Res, b: Res, tw': Option<TwinValue>)
    requires e.Assign? && WellTyped(layout, e, shared) && Eval(layout, e, tw, s).Some?
    ensures WellTyped(layout, e.target, shared) && WellTyped(layout, e.source, if e.compound then Some(e.target) else None)
    ensures TypeOf(e.target) == TypeOf(e.source) == TypeOf(e) == e.aty
    ensures EvalPlace(layout, e.target, tw, s) == Some((l, a)) && tw' in {None, Some(TwinValue(l, a.st[l]))}
    ensures tw'.Some? ==> e.compound
    ensures Eval(layout, e.source, tw', a.st) == Some(b) && Eval(layout, e, tw, s).value.v == b.v && Eval(layout, e, tw, s).value.st == b.st[l := b.v]
  {
    hide EvalPlace;
    var (l', a') := EvalPlace(layout, e.target, tw, s).value;
    l, a := l', a';
    tw' := if e.compound && Unparen(e.target).Deref? then Some(TwinValue(l, a.st[l])) else None;
    b := Eval(layout, e.source, tw', a.st).value;
  }

  lemma {:induction false} IncDecRange(layout: Layout, e: Expr, shared: Option<Expr>, tw: Option<TwinValue>, s: Store)
    requires e.IncDec?
    requires WellTyped(layout, e, shared) && StoreOk(layout, s) && TwinFits(tw, shared)
    requires Eval(layout, e, tw, s).Some?
    ensures InRange(layout, e, Eval(layout, e, tw, s).value)
    decreases e, 1
  {
    PlaceRange(layout, e.place, shared, tw, s);
  }

  lemma {:induction false} PlaceRange(layout: Layout, e: Expr, shared: Option<Expr>, tw: Option<TwinValue>, s: Store)
    requires WellTyped(layout, e, shared) && StoreOk(layout, s) && TwinFits(tw, shared)
    requires EvalPlace(layout, e, tw, s).Some?
    ensures StoreOk(layout, EvalPlace(layout, e, tw, s).value.1.st)
    ensures var l := EvalPlace(layout, e, tw, s).value.0; l in layout && layout[l].size == TypeOf(e).Size()
    decreases e, 0
  {
    UnparenTyped(layout, e, shared);
    if Unparen(e).Deref? {
      EvalRange(layout, Unparen(e).pointer, shared, tw, s);
    }
  }

  lemma UnparenTyped(layout: Layout, e: Expr, shared: Option<Expr>)
    requires WellTyped(layout, e, shared)
    ensures WellTyped(layout, Unparen(e), shared)
  {
  }

  lemma UnparenLowering(e: Expr, ud: Option<IrVal>, g: int, n: int)
    ensures LowerExpr(e, ud, g, n) == LowerExpr(Unparen(e), ud, g, n)
  {
  }

  // ------------------------------------------------------------- simulation

  /** The cached left-hand side of a compound assignment, on both sides. */
  ghost predicate TwinReady(tw: Option<TwinValue>, ud: Option<IrVal>, shared: Option<Expr>, s: Store, t: Store, g: int) {
    && (tw.Some? <==> ud.Some?)
    && (tw.Some? ==>
          && shared.Some? && ud.value.Variable? && ud.value.ty == TypeOf(shared.value)
          && ud.value.loc.Tmp? && ud.value.loc.id < g && ud.value.loc !in s && ud.value.loc in t
          && t[ud.value.loc] == tw.value.v < Modulus(ud.value.ty))
  }

  ghost predicate Ready(code: seq<IrOp>, layout: Layout, e: Expr, shared: Option<Expr>, tw: Option<TwinValue>,
                        ud: Option<IrVal>, s: Store, t: Store, g: int) {
    && UniqueLabels(code) && WellTyped(layout, e, shared) && StoreOk(layout, s)
    && TwinReady(tw, ud, shared, s, t, g) && Agree(s, t) && Below(s, g)
  }

  /** The store t' that the code c leaves is right for the result r. */
  ghost predicate Simulated(e: Expr, c: ExprCode, r: Res, s: Store, t: Store, t': Store, g: int) {
    && g <= c.gen && c.ret.ty == TypeOf(e) && Agree(r.st, t') && Frame(t, t', r.wr, g, c.gen)
    && Read(c.ret, t') == Some(r.v) && Settled(c.ret, r, s, c.gen)
  }

  /** Running the code of e from p simulates its evaluation. */
  lemma {:induction false} ExprSim(code: seq<IrOp>, layout: Layout, e: Expr, shared: Option<Expr>, tw: Option<TwinValue>,
      ud: Option<IrVal>, s: Store, t: Store, g: int, n: int, p: nat, c: ExprCode, r: Res) returns (k: nat, t': Store)
    requires Ready(code, layout, e, shared, tw, ud, s, t, g)
    requires LowerExpr(e, ud, g, n) == c && Eval(layout, e, tw, s) == Some(r) && CodeAt(code, p, c.ops)
    ensures Iter(code, layout, Running(p, t), k) == Running(p + |c.ops|, t') && Simulated(e, c, r, s, t, t', g)
    decreases e, 3
  {
    match e
    case Const(_, _) => k, t' := 0, t;
    case Var(l, ty) =>
      k, t' := 0, t;
      ReadBits(Variable(l, ty), t, s[l]);
    case Paren(i) => k, t' := ExprSim(code, layout, i, shared, tw, ud, s, t, g, n, p, c, r);
    case Unary(_, _, _) => k, t' := UnarySim(code, layout, e, shared, tw, ud, s, t, g, n, p, c, r);
    case Binary(_, _, _, _) => k, t' := BinarySim(code, layout, e, shared, tw, ud, s, t, g, n, p, c, r);
    case Cast(_, _) => k, t' := CastSim(code, layout, e, shared, tw, ud, s, t, g, n, p, c, r);
    case Logical(_, _, _) => k, t' := LogicalSim(code, layout, e, shared, tw, ud, s, t, g, n, p, c, r);
    case Ternary(_, _, _, _) => k, t' := TernarySim(code, layout, e, shared, tw, ud, s, t, g, n, p, c, r);
    case Assign(_, _, _, _) => k, t' := AssignSim(code, layout, e, shared, tw, ud, s, t, g, n, p, c, r);
    case IncDec(_, _, _, _) => k, t' := IncDecSim(code, layout, e, shared, tw, ud, s, t, g, n, p, c, r);
    case Deref(_, _) => k, t' := DerefSim(code, layout, e, shared, tw, ud, s, t, g, n, p, c, r);
    case AddressOf(_, _) => k, t' := AddressOfSim(code, layout, e, shared, tw, ud, s, t, g, n, p, c, r);
    case Twin(x) =>
      if tw.Some? {
        k, t' := 0, t;
        ReadBits(ud.value, t, tw.value.v);
      } else {
        k, t' := ExprSim(code, layout, x, None, None, None, s, t, g, n, p, c, r);
      }
  }

  lemma TwinPersists(tw: Option<TwinValue>, ud: Option<IrVal>, shared: Option<Expr>, s: Store, s': Store,
                     t: Store, t': Store, wr: set<Loc>, g: int, g': int)
    requires TwinReady(tw, ud, shared, s, t, g) && Frame(t, t', wr, g, g') && g <= g'
    requires s'.Keys == s.Keys && wr <= s.Keys
    ensures TwinReady(tw, ud, shared, s', t', g')
  {
    if tw.Some? {
      assert ud.value.loc !in wr && !Fresh(ud.value.loc, g, g');
    }
  }

  /** What holds before a subexpression that is evaluated first. */
  lemma ReadyFirst(code: seq<IrOp>, layout: Layout, e: Expr, x: Expr, shared: Option<Expr>, tw: Option<TwinValue>,
                   ud: Option<IrVal>, s: Store, t: Store, g: int, g': int)
    requires Ready(code, layout, e, shared, tw, ud, s, t, g) && WellTyped(layout, x, shared) && g <= g'
    ensures Ready(code, layout, x, shared, tw, ud, s, t, g')
  {
    hide WellTyped, UniqueLabels, StoreOk, Agree, TypeOf;
  }

  /** What holds before a subexpression that is evaluated after x. */
  lemma ReadyAfter(code: seq<IrOp>, layout: Layout, x: Expr, y: Expr, shared: Option<Expr>, tw: Option<TwinValue>,
                   ud: Option<IrVal>, s: Store, t: Store, u: Store, g: int, n: int, c: ExprCode, a: Res)
    requires Ready(code, layout, x, shared, tw, ud, s, t, g) && WellTyped(layout, y, shared)
    requires Eval(layout, x, tw, s) == Some(a) && Simulated(x, c, a, s, t, u, g)
    ensures Ready(code, layout, y, shared, tw, ud, a.st, u, c.gen)
  {
    RangeOf(code, layout, x, shared, tw, ud, s, t, g, a);
    assert a.st.Keys == s.Keys && a.wr <= s.Keys by {
      hide Frame, Agree, Below, StoreOk;
    }
    TwinPersists(tw, ud, shared, s, a.st, t, u, a.wr, g, c.gen);
    hide Eval, WellTyped, UniqueLabels, TwinReady, Frame, Agree, StoreOk, TypeOf, Settled, Read;
  }

  lemma RangeOf(code: seq<IrOp>, layout: Layout, e: Expr, shared: Option<Expr>, tw: Option<TwinValue>, ud: Option<IrVal>,
                s: Store, t: Store, g: int, r: Res)
    requires Ready(code, layout, e, shared, tw, ud, s, t, g) && Eval(layout, e, tw, s) == Some(r)
    ensures r.v < Modulus(TypeOf(e)) && StoreOk(layout, r.st)
  {
    hide WellTyped, UniqueLabels, Agree, Below, Eval, StoreOk, Modulus, TypeOf;
    EvalRange(layout, e, shared, tw, s);
  }

  lemma Append(code: seq<IrOp>, p: nat, ops: seq<IrOp>, op: IrOp)
    requires CodeAt(code, p, ops + [op])
    ensures CodeAt(code, p, ops) && p + |ops| < |code| && code[p + |ops|] == op
  {
    Split(code, p, ops, [op]);
    assert code[p + |ops| + 0] == [op][0];
  }

  /** An operation at q that leaves b in a fresh temporary. */
  lemma FreshResult(code: seq<IrOp>, layout: Layout, from: Config, j: nat, q: nat, t: Store, u: Store, s: Store, wr: set<Loc>,
                    op: IrOp, dst: IrVal, b: nat, g: int) returns (k: nat, t': Store)
    requires Iter(code, layout, from, j) == Running(q, u) && q < |code| && code[q] == op && Straight(op)
    requires dst.Variable? && dst.loc.Tmp? && g <= dst.loc.id && b < Modulus(dst.ty)
    requires Effect(layout, op, u) == Write(dst, b, u)
    requires Agree(s, u) && Frame(t, u, wr, g, dst.loc.id) && dst.loc !in s
    ensures Iter(code, layout, from, k) == Running(q + 1, t')
    ensures t' == u[dst.loc := b]
    ensures Agree(s, t') && Frame(t, t', wr, g, dst.loc.id + 1) && Read(dst, t') == Some(b)
  {
    WriteBits(dst, u, b);
    t' := u[dst.loc := b];
    ThenStep(code, layout, from, j, q, u, t');
    k := j + 1;
    ReadBits(dst, t', b);
  }

  lemma UnaryParts(layout: Layout, e: Expr, shared: Option<Expr>, tw: Option<TwinValue>, ud: Option<IrVal>, s: Store,
      g: int, n: int, c: ExprCode, r: Res) returns (ci: ExprCode, a: Res)
    requires e.Unary? && WellTyped(layout, e, shared) && LowerExpr(e, ud, g, n) == c && Eval(layout, e, tw, s) == Some(r)
    ensures WellTyped(layout, e.operand, shared)
    ensures e.uty == if e.uop.LogicalNot? then Int else TypeOf(e.operand)
    ensures LowerExpr(e.operand, ud, g, n) == ci && Eval(layout, e.operand, tw, s) == Some(a)
    ensures c == ExprCode(ci.ops + [UnaryOf(e.uop, ci.ret, Temp(ci.gen, e.uty))], Temp(ci.gen, e.uty), ci.gen + 1, ci.lab)
    ensures r == a.(v := Bits(e.uty, UnaryValue(e.uop, Value(TypeOf(e.operand), a.v))))
  {
    ci := LowerExpr(e.operand, ud, g, n);
    a := Eval(layout, e.operand, tw, s).value;
  }

  lemma {:induction false} UnarySim(code: seq<IrOp>, layout: Layout, e: Expr, shared: Option<Expr>, tw: Option<TwinValue>,
      ud: Option<IrVal>, s: Store, t: Store, g: int, n: int, p: nat, c: ExprCode, r: Res) returns (k: nat, t': Store)
    requires e.Unary?
    requires Ready(code, layout, e, shared, tw, ud, s, t, g)
    requires LowerExpr(e, ud, g, n) == c && Eval(layout, e, tw, s) == Some(r) && CodeAt(code, p, c.ops)
    ensures Iter(code, layout, Running(p, t), k) == Running(p + |c.ops|, t') && Simulated(e, c, r, s, t, t', g)
    decreases e, 1
  {
    hide Eval, EvalPlace, LowerExpr, WellTyped, Modulus, UnaryBits, UnaryValue, UniqueLabels;
    var ci, a := UnaryParts(layout, e, shared, tw, ud, s, g, n, c, r);
    var dst := Temp(ci.gen, e.uty);
    var op := UnaryOf(e.uop, ci.ret, dst);
    Append(code, p, ci.ops, op);
    var j, u := ExprSim(code, layout, e.operand, shared, tw, ud, s, t, g, n, p, ci, a);
    EvalRange(layout, e.operand, shared, tw, s);
    UnaryRefines(e.uop, TypeOf(e.operand), a.v);
    k, t' := FreshResult(code, layout, Running(p, t), j, p + |ci.ops|, t, u, a.st, a.wr, op, dst, r.v, g);
  }

  lemma CastParts(layout: Layout, e: Expr, shared: Option<Expr>, tw: Option<TwinValue>, ud: Option<IrVal>, s: Store,
      g: int, n: int, c: ExprCode, r: Res) returns (ci: ExprCode, a: Res)
    requires e.Cast? && WellTyped(layout, e, shared) && LowerExpr(e, ud, g, n) == c && Eval(layout, e, tw, s) == Some(r)
    ensures WellTyped(layout, e.from, shared)
    ensures LowerExpr(e.from, ud, g, n) == ci && Eval(layout, e.from, tw, s) == Some(a)
    ensures r == a.(v := Bits(e.toTy, Value(TypeOf(e.from), a.v)))
    ensures c == if TypeOf(e.from) == e.toTy then ci else
                 ExprCode(ci.ops + [CastOp(TypeOf(e.from), e.toTy, ci.ret, Temp(ci.gen, e.toTy))], Temp(ci.gen, e.toTy), ci.gen + 1, ci.lab)
  {
    ci := LowerExpr(e.from, ud, g, n);
    a := Eval(layout, e.from, tw, s).value;
  }

  lemma {:induction false} CastSim(code: seq<IrOp>, layout: Layout, e: Expr, shared: Option<Expr>, tw: Option<TwinValue>,
      ud: Option<IrVal>, s: Store, t: Store, g: int, n: int, p: nat, c: ExprCode, r: Res) returns (k: nat, t': Store)
    requires e.Cast?
    requires Ready(code, layout, e, shared, tw, ud, s, t, g)
    requires LowerExpr(e, ud, g, n) == c && Eval(layout, e, tw, s) == Some(r) && CodeAt(code, p, c.ops)
    ensures Iter(code, layout, Running(p, t), k) == Running(p + |c.ops|, t') && Simulated(e, c, r, s, t, t', g)
    decreases e, 1
  {
    hide Eval, EvalPlace, LowerExpr, WellTyped, Modulus, UniqueLabels, CastOp;
    var f, to := TypeOf(e.from), e.toTy;
    var ci, a := CastParts(layout, e, shared, tw, ud, s, g, n, c, r);
    EvalRange(layout, e.from, shared, tw, s);
    if f == to {
      k, t' := ExprSim(code, layout, e.from, shared, tw, ud, s, t, g, n, p, ci, a);
      BitsOfValue(f, a.v);
    } else {
      var op := CastOp(f, to, ci.ret, Temp(ci.gen, to));
      Append(code, p, ci.ops, op);
      var j, u := ExprSim(code, layout, e.from, shared, tw, ud, s, t, g, n, p, ci, a);
      CastEffect(layout, f, to, ci.ret, Temp(ci.gen, to), a.v, u);
      k, t' := FreshResult(code, layout, Running(p, t), j, p + |ci.ops|, t, u, a.st, a.wr, op, Temp(ci.gen, to), r.v, g);
    }
  }

  lemma CastEffect(layout: Layout, f: CType, to: CType, src: IrVal, dst: IrVal, v: nat, u: Store)
    requires src.ty == f && dst.Variable? && dst.ty == to && v < Modulus(f) && Read(src, u) == Some(v)
    ensures Straight(CastOp(f, to, src, dst))
    ensures Effect(layout, CastOp(f, to, src, dst), u) == Write(dst, Bits(to, Value(f, v)), u)
  {
    ConversionRefines(f, to, v);
    if f.Size() >= to.Size() {
      NarrowRead(src, to, u, v);
    }
  }

  /** Reading an operand at a narrower width reads its low bytes. */
  lemma NarrowRead(src: IrVal, to: CType, u: Store, v: nat)
    requires src.ty.Size() >= to.Size() && Read(src, u) == Some(v)
    ensures ReadAs(src, to, u) == Some(v % Modulus(to))
  {
    SizesDivide(src.ty, to);
    var k :| Modulus(src.ty) == k * Modulus(to);
    var x := if src.Constant? then src.num else u[src.loc];
    var q := x / Modulus(src.ty);
    assert x == v + q * Modulus(src.ty);
    assert q * (k * Modulus(to)) == (q * k) * Modulus(to);
    ModUnique(x, v, Modulus(to), q * k);
  }

  /** Two operands, one after the other: the value of the first survives the
      second, because the two evaluations are unsequenced. */
  lemma {:induction false} OperandsSim(code: seq<IrOp>, layout: Layout, e: Expr, x: Expr, y: Expr, shared: Option<Expr>,
      tw: Option<TwinValue>, ud: Option<IrVal>, s: Store, t: Store, g: int, n: int, p: nat,
      ca: ExprCode, cb: ExprCode, a: Res, b: Res) returns (k: nat, t': Store)
    requires x < e && y < e
    requires Ready(code, layout, x, shared, tw, ud, s, t, g) && WellTyped(layout, y, shared)
    requires LowerExpr(x, ud, g, n) == ca && LowerExpr(y, ud, ca.gen, ca.lab) == cb && CodeAt(code, p, ca.ops + cb.ops)
    requires Eval(layout, x, tw, s) == Some(a) && Eval(layout, y, tw, a.st) == Some(b) && Unsequenced(a, b)
    ensures Iter(code, layout, Running(p, t), k) == Running(p + |ca.ops + cb.ops|, t')
    ensures g <= ca.gen <= cb.gen && ca.ret.ty == TypeOf(x) && cb.ret.ty == TypeOf(y)
    ensures Agree(b.st, t') && Frame(t, t', a.wr + b.wr, g, cb.gen)
    ensures Read(ca.ret, t') == Some(a.v) && Read(cb.ret, t') == Some(b.v)
    ensures Settled(ca.ret, a, s, ca.gen) && Settled(cb.ret, b, s, cb.gen)
    decreases e, 0
  {
    hide Eval, EvalPlace, LowerExpr, WellTyped, Modulus, UniqueLabels, CodeAt, Frame, Agree, Settled, Below, StoreOk,
      TwinReady, Read, ReadAs, Iter, Step, FindLabel, Effect, TypeOf, Unparen;
    Split(code, p, ca.ops, cb.ops);
    var j, u := ExprSim(code, layout, x, shared, tw, ud, s, t, g, n, p, ca, a);
    ReadyAfter(code, layout, x, y, shared, tw, ud, s, t, u, g, n, ca, a);
    var i, w := ExprSim(code, layout, y, shared, tw, ud, a.st, u, ca.gen, ca.lab, p + |ca.ops|, cb, b);
    Chain(code, layout, Running(p, t), j, Running(p + |ca.ops|, u), i, Running(p + |ca.ops| + |cb.ops|, w));
    k, t' := j + i, w;
    BothOperands(layout, x, y, tw, s, t, u, w, g, ca, cb, a, b);
  }

  lemma BothOperands(layout: Layout, x: Expr, y: Expr, tw: Option<TwinValue>, s: Store, t: Store, u: Store, w: Store, g: int,
                     ca: ExprCode, cb: ExprCode, a: Res, b: Res)
    requires Simulated(x, ca, a, s, t, u, g) && Simulated(y, cb, b, a.st, u, w, ca.gen) && Below(s, g) && Unsequenced(a, b)
    requires Eval(layout, x, tw, s) == Some(a) && Eval(layout, y, tw, a.st) == Some(b)
    ensures Frame(t, w, a.wr + b.wr, g, cb.gen) && Read(ca.ret, w) == Some(a.v) && Settled(cb.ret, b, s, cb.gen)
  {
    assert a.st.Keys == s.Keys && b.wr <= s.Keys;
    hide Eval, TypeOf;
    OperandStable(ca.ret, a, s, u, w, b.wr, ca.gen, cb.gen);
    FrameTrans(t, u, w, a.wr, b.wr, g, ca.gen, cb.gen);
  }

  lemma BinaryParts(layout: Layout, e: Expr, shared: Option<Expr>, tw: Option<TwinValue>, ud: Option<IrVal>, s: Store,
      g: int, n: int, c: ExprCode, r: Res) returns (ca: ExprCode, cb: ExprCode, f: ExprCode, a: Res, b: Res)
    requires e.Binary? && WellTyped(layout, e, shared) && LowerExpr(e, ud, g, n) == c && Eval(layout, e, tw, s) == Some(r)
    ensures WellTyped(layout, e.left, shared) && WellTyped(layout, e.right, shared)
    ensures WellTypedBinary(e.bop, TypeOf(e.left), TypeOf(e.right), e.bty)
    ensures LowerExpr(e.left, ud, g, n) == ca && LowerExpr(e.right, ud, ca.gen, ca.lab) == cb
    ensures f == FinishBinary(e.bop, TypeOf(e.left), TypeOf(e.right), e.bty, ca.ret, cb.ret, cb.gen)
    ensures c == ExprCode(ca.ops + cb.ops + f.ops, f.ret, f.gen, cb.lab)
    ensures Eval(layout, e.left, tw, s) == Some(a) && Eval(layout, e.right, tw, a.st) == Some(b) && Unsequenced(a, b)
    ensures BinaryValue(e.bop, TypeOf(e.left), TypeOf(e.right), e.bty, a.v, b.v) == Some(r.v)
    ensures r == Res(r.v, b.st, a.rd + b.rd, a.wr + b.wr, r.pending)
  {
    ca := LowerExpr(e.left, ud, g, n);
    cb := LowerExpr(e.right, ud, ca.gen, ca.lab);
    f := FinishBinary(e.bop, TypeOf(e.left), TypeOf(e.right), e.bty, ca.ret, cb.ret, cb.gen);
    a := Eval(layout, e.left, tw, s).value;
    b := Eval(layout, e.right, tw, a.st).value;
  }

  lemma {:induction false} BinarySim(code: seq<IrOp>, layout: Layout, e: Expr, shared: Option<Expr>, tw: Option<TwinValue>,
      ud: Option<IrVal>, s: Store, t: Store, g: int, n: int, p: nat, c: ExprCode, r: Res) returns (k: nat, t': Store)
    requires e.Binary?
    requires Ready(code, layout, e, shared, tw, ud, s, t, g)
    requires LowerExpr(e, ud, g, n) == c && Eval(layout, e, tw, s) == Some(r) && CodeAt(code, p, c.ops)
    ensures Iter(code, layout, Running(p, t), k) == Running(p + |c.ops|, t') && Simulated(e, c, r, s, t, t', g)
    decreases e, 1
  {
    hide Eval, EvalPlace, LowerExpr, WellTyped, Modulus, UniqueLabels, CodeAt, Frame, Agree, Settled, Below, StoreOk,
      TwinReady, Read, ReadAs, Iter, Step, FindLabel, Effect, TypeOf, Unparen, FinishBinary, BinaryValue;
    var ca, cb, f, a, b := BinaryParts(layout, e, shared, tw, ud, s, g, n, c, r);
    var q := p + |ca.ops + cb.ops|;
    Split(code, p, ca.ops + cb.ops, f.ops);
    ReadyFirst(code, layout, e, e.left, shared, tw, ud, s, t, g, g);
    var j, u := OperandsSim(code, layout, e, e.left, e.right, shared, tw, ud, s, t, g, n, p, ca, cb, a, b);
    BinaryRanges(code, layout, e, shared, tw, ud, s, t, g, a, b, ca, cb.gen);
    var h, x := FinishSim(code, layout, e.bop, TypeOf(e.left), TypeOf(e.right), e.bty, ca.ret, cb.ret, cb.gen,
                          a.v, b.v, q, b.st, u);
    Chain(code, layout, Running(p, t), j, Running(q, u), h, Running(q + |f.ops|, x));
    k, t' := j + h, x;
    BinaryEnd(e, c, r, s, t, u, x, g, cb.gen, f, a, b);
  }

  lemma BinaryRanges(code: seq<IrOp>, layout: Layout, e: Expr, shared: Option<Expr>, tw: Option<TwinValue>, ud: Option<IrVal>,
                     s: Store, t: Store, g: int, a: Res, b: Res, ca: ExprCode, g': int)
    requires Ready(code, layout, e, shared, tw, ud, s, t, g) && e.Binary? && ca.gen <= g' && g <= ca.gen
    requires WellTyped(layout, e.left, shared) && WellTyped(layout, e.right, shared) && Settled(ca.ret, a, s, ca.gen)
    requires Eval(layout, e.left, tw, s) == Some(a) && Eval(layout, e.right, tw, a.st) == Some(b)
    ensures a.v < Modulus(TypeOf(e.left)) && b.v < Modulus(TypeOf(e.right)) && Below(b.st, g') && b.st.Keys == s.Keys
    ensures ca.ret.Variable? && ca.ret.loc.Tmp? ==> ca.ret.loc.id < g'
  {
    assert a.st.Keys == s.Keys && b.st.Keys == s.Keys;
    hide WellTyped, UniqueLabels, Eval, Modulus, TypeOf, Agree;
    EvalRange(layout, e.left, shared, tw, s);
    EvalRange(layout, e.right, shared, tw, a.st);
  }

  lemma BinaryEnd(e: Expr, c: ExprCode, r: Res, s: Store, t: Store, u: Store, x: Store, g: int, g': int, f: ExprCode, a: Res, b: Res)
    requires e.Binary? && b.st.Keys == s.Keys && Below(s, g) && g <= g'
    requires c.ret == f.ret && c.gen == f.gen && f.ret.ty == e.bty && r == Res(r.v, b.st, a.rd + b.rd, a.wr + b.wr, r.pending)
    requires Frame(t, u, a.wr + b.wr, g, g') && Finished(f, b.st, u, x, g', r.v)
    ensures Simulated(e, c, r, s, t, x, g)
  {
    FrameTrans(t, u, x, a.wr + b.wr, {}, g, g', f.gen);
    assert a.wr + b.wr + {} == a.wr + b.wr;
  }

  ghost predicate Finished(f: ExprCode, s: Store, t: Store, t': Store, g: int, v: nat) {
    && g <= f.gen && Agree(s, t') && Frame(t, t', {}, g, f.gen) && Read(f.ret, t') == Some(v)
    && f.ret.Variable? && f.ret.loc.Tmp? && g <= f.ret.loc.id < f.gen
  }

  /** The operations of a binary operator compute its value from its operands. */
  lemma FinishSim(code: seq<IrOp>, layout: Layout, op: BinaryOp, lt: CType, rt: CType, ty: CType, va: IrVal, vb: IrVal, g: int,
                  a: nat, b: nat, p: nat, s: Store, t: Store) returns (k: nat, t': Store)
    requires CodeAt(code, p, FinishBinary(op, lt, rt, ty, va, vb, g).ops)
    requires WellTypedBinary(op, lt, rt, ty) && va.ty == lt && vb.ty == rt
    requires Read(va, t) == Some(a) && Read(vb, t) == Some(b) && a < Modulus(lt) && b < Modulus(rt)
    requires BinaryValue(op, lt, rt, ty, a, b).Some? && Agree(s, t) && Below(s, g)
    requires va.Variable? && va.loc.Tmp? ==> va.loc.id < g
    ensures var f := FinishBinary(op, lt, rt, ty, va, vb, g);
            && Iter(code, layout, Running(p, t), k) == Running(p + |f.ops|, t')
            && f.ret.ty == ty && Finished(f, s, t, t', g, BinaryValue(op, lt, rt, ty, a, b).value)
  {
    hide UniqueLabels, ArithmeticValue, Modulus, Value, Bits;
    if op.Add? && lt.Pointer? {
      k, t' := PointerAddSim(code, layout, va, vb, lt.referent.Size(), Temp(g, ty), rt, a, b, p, s, t, g);
    } else if op.Add? && rt.Pointer? {
      k, t' := PointerAddSim(code, layout, vb, va, rt.referent.Size(), Temp(g, ty), lt, b, a, p, s, t, g);
    } else if op.Subtract? && lt.Pointer? && rt.Pointer? {
      k, t' := PointerDifferenceSim(code, layout, lt, va, vb, g, a, b, p, s, t);
    } else if op.Subtract? && lt.Pointer? {
      k, t' := PointerSubtractSim(code, layout, lt, va, vb, g, a, b, p, s, t);
    } else {
      k, t' := PlainBinarySim(code, layout, op, lt, ty, va, vb, g, a, b, p, s, t);
    }
  }

  lemma PlainBinarySim(code: seq<IrOp>, layout: Layout, op: BinaryOp, lt: CType, ty: CType, va: IrVal, vb: IrVal, g: int,
                       a: nat, b: nat, p: nat, s: Store, t: Store) returns (k: nat, t': Store)
    requires CodeAt(code, p, [BinaryOf(op, va, vb, Temp(g, ty))])
    requires va.ty == lt && vb.ty == lt && ty == (if op.IsCompare() then Int else lt)
    requires Read(va, t) == Some(a) && Read(vb, t) == Some(b) && a < Modulus(lt) && b < Modulus(lt)
    requires ArithmeticValue(op, lt, Value(lt, a), Value(lt, b)).Some? && Agree(s, t) && Below(s, g)
    ensures Iter(code, layout, Running(p, t), k) == Running(p + 1, t')
    ensures Finished(ExprCode([BinaryOf(op, va, vb, Temp(g, ty))], Temp(g, ty), g + 1, 0), s, t, t', g,
                     Bits(ty, ArithmeticValue(op, lt, Value(lt, a), Value(lt, b)).value))
  {
    hide UniqueLabels, ArithmeticValue, BinaryBits, Modulus;
    assert code[p + 0] == [BinaryOf(op, va, vb, Temp(g, ty))][0];
    BinaryRefines(op, lt, a, b);
    assert Iter(code, layout, Running(p, t), 0) == Running(p, t);
    var v := Bits(ty, ArithmeticValue(op, lt, Value(lt, a), Value(lt, b)).value);
    k, t' := FreshResult(code, layout, Running(p, t), 0, p, t, t, s, {}, BinaryOf(op, va, vb, Temp(g, ty)), Temp(g, ty), v, g);
  }

  lemma PointerAddSim(code: seq<IrOp>, layout: Layout, vp: IrVal, vi: IrVal, size: nat, dst: IrVal, w: CType,
                      x: nat, i: nat, p: nat, s: Store, t: Store, g: int) returns (k: nat, t': Store)
    requires CodeAt(code, p, [PointerAdd(vp, vi, size, dst)])
    requires dst == Temp(g, dst.ty) && vi.ty == w && w == Long && dst.ty.Pointer?
    requires Read(vp, t) == Some(x) && Read(vi, t) == Some(i) && i < Modulus(w)
    requires Agree(s, t) && Below(s, g)
    ensures Iter(code, layout, Running(p, t), k) == Running(p + 1, t')
    ensures Finished(ExprCode([PointerAdd(vp, vi, size, dst)], dst, g + 1, 0), s, t, t', g,
                     Bits(dst.ty, x + Value(w, i) * size))
  {
    hide UniqueLabels;
    var op := PointerAdd(vp, vi, size, dst);
    assert code[p + 0] == [op][0];
    assert Iter(code, layout, Running(p, t), 0) == Running(p, t);
    IndexBits(dst.ty, x, w, i, size);
    var v := Bits(dst.ty, x + i * size);
    assert Effect(layout, op, t) == Write(dst, v, t) by {
      SmallMod(v, Modulus(dst.ty));
    }
    k, t' := FreshResult(code, layout, Running(p, t), 0, p, t, t, s, {}, op, dst, v, g);
  }

  lemma PointerSubtractSim(code: seq<IrOp>, layout: Layout, ty: CType, va: IrVal, vb: IrVal, g: int,
                           a: nat, b: nat, p: nat, s: Store, t: Store) returns (k: nat, t': Store)
    requires ty.Pointer? && va.ty == ty && vb.ty == Long
    requires CodeAt(code, p, FinishBinary(Subtract, ty, Long, ty, va, vb, g).ops)
    requires Read(va, t) == Some(a) && Read(vb, t) == Some(b) && a < Modulus(ty) && b < Modulus(Long)
    requires Agree(s, t) && Below(s, g)
    requires va.Variable? && va.loc.Tmp? ==> va.loc.id < g
    ensures var f := FinishBinary(Subtract, ty, Long, ty, va, vb, g);
            && Iter(code, layout, Running(p, t), k) == Running(p + |f.ops|, t')
            && f.ret.ty == ty && Finished(f, s, t, t', g, BinaryValue(Subtract, ty, Long, ty, a, b).value)
  {
    hide UniqueLabels, Modulus, ModulusOfSize, Value, FinishBinary, BinaryValue;
    var m, dst, size := Temp(g, Long), Temp(g + 1, ty), ty.referent.Size();
    var c := Bits(Long, 0 - b);
    PointerSubtractCode(ty, va, vb, g, a, b);
    Append(code, p, [UnaryOf(Negate, vb, m)], PointerAdd(va, m, size, dst));
    Append(code, p, [], UnaryOf(Negate, vb, m));
    assert Iter(code, layout, Running(p, t), 0) == Running(p, t);
    var j, u := FreshResult(code, layout, Running(p, t), 0, p, t, t, s, {}, UnaryOf(Negate, vb, m), m, c, g);
    assert Read(va, u) == Some(a);
    var i, w := PointerAddSim(code, layout, va, m, size, dst, Long, a, c, p + 1, s, u, g + 1);
    Chain(code, layout, Running(p, t), j, Running(p + 1, u), i, Running(p + 2, w));
    SubtractIndex(ty, a, b, size);
    k, t' := j + i, w;
  }

  lemma PointerSubtractCode(ty: CType, va: IrVal, vb: IrVal, g: int, a: nat, b: nat)
    requires ty.Pointer?
    ensures var m, dst, size := Temp(g, Long), Temp(g + 1, ty), ty.referent.Size();
            && FinishBinary(Subtract, ty, Long, ty, va, vb, g) ==
               ExprCode([UnaryOf(Negate, vb, m)] + [PointerAdd(va, m, size, dst)], dst, g + 2, 0)
            && BinaryValue(Subtract, ty, Long, ty, a, b) == Some(Bits(ty, a - Value(Long, b) * size))
  {
  }

  lemma PointerDifferenceSim(code: seq<IrOp>, layout: Layout, pt: CType, va: IrVal, vb: IrVal, g: int,
                             a: nat, b: nat, p: nat, s: Store, t: Store) returns (k: nat, t': Store)
    requires pt.Pointer? && va.ty == pt && vb.ty == pt
    requires CodeAt(code, p, FinishBinary(Subtract, pt, pt, Long, va, vb, g).ops)
    requires Read(va, t) == Some(a) && Read(vb, t) == Some(b) && a < Modulus(pt) && b < Modulus(pt)
    requires Agree(s, t) && Below(s, g)
    ensures var f := FinishBinary(Subtract, pt, pt, Long, va, vb, g);
            && Iter(code, layout, Running(p, t), k) == Running(p + |f.ops|, t')
            && f.ret.ty == Long && Finished(f, s, t, t', g, BinaryValue(Subtract, pt, pt, Long, a, b).value)
  {
    hide FinishBinary, BinaryValue, CodeAt, Iter, Step, Effect, Agree, Read, Modulus;
    var d, v := Bits(Long, a - b), Bits(Long, TruncDiv(Value(Long, Bits(Long, a - b)), pt.referent.Size()));
    var less, part := BinaryOf(Subtract, va, vb, Temp(g, Long)), BinaryOf(Divide, Temp(g, Long), Constant(pt.referent.Size(), Long), Temp(g + 1, Long));
    PointerDifferenceCode(pt, va, vb, g, a, b);
    Append(code, p, [less], part);
    Append(code, p, [], less);
    NoSteps(code, layout, Running(p, t));
    DifferenceEffect(layout, pt, va, vb, g, a, b, t);
    var j, u := FreshResult(code, layout, Running(p, t), 0, p, t, t, s, {}, less, Temp(g, Long), d, g);
    QuotientEffect(layout, pt, g, d, u);
    k, t' := FreshResult(code, layout, Running(p, t), j, p + 1, t, u, s, {}, part, Temp(g + 1, Long), v, g);
  }

  lemma NoSteps(code: seq<IrOp>, layout: Layout, from: Config)
    ensures Iter(code, layout, from, 0) == from
  {
  }

  lemma PointerDifferenceCode(pt: CType, va: IrVal, vb: IrVal, g: int, a: nat, b: nat)
    requires pt.Pointer?
    ensures FinishBinary(Subtract, pt, pt, Long, va, vb, g) ==
            ExprCode([BinaryOf(Subtract, va, vb, Temp(g, Long))]
                     + [BinaryOf(Divide, Temp(g, Long), Constant(pt.referent.Size(), Long), Temp(g + 1, Long))], Temp(g + 1, Long), g + 2, 0)
    ensures BinaryValue(Subtract, pt, pt, Long, a, b) == Some(Bits(Long, TruncDiv(Value(Long, Bits(Long, a - b)), pt.referent.Size())))
  {
  }

  lemma DifferenceEffect(layout: Layout, pt: CType, va: IrVal, vb: IrVal, g: int, a: nat, b: nat, t: Store)
    requires pt.Pointer? && va.ty == pt && vb.ty == pt && Read(va, t) == Some(a) && Read(vb, t) == Some(b)
    ensures Effect(layout, BinaryOf(Subtract, va, vb, Temp(g, Long)), t) == Write(Temp(g, Long), Bits(Long, a - b), t)
  {
  }

  lemma QuotientEffect(layout: Layout, pt: CType, g: int, d: nat, u: Store)
    requires pt.Pointer? && Read(Temp(g, Long), u) == Some(d) && d < Modulus(Long)
    ensures var size := pt.referent.Size();
            Effect(layout, BinaryOf(Divide, Temp(g, Long), Constant(size, Long), Temp(g + 1, Long)), u)
            == Write(Temp(g + 1, Long), Bits(Long, TruncDiv(Value(Long, d), size)), u)
  {
    var size := pt.referent.Size();
    SmallMod(size, Modulus(Long));
    assert Value(Long, size) == size && !DivideTraps(Long, d, size);
  }

  // ------------------------------------------------- short-circuit operators

  lemma LogicalParts(layout: Layout, e: Expr, shared: Option<Expr>, tw: Option<TwinValue>, ud: Option<IrVal>, s: Store,
      g: int, n: int, c: ExprCode, r: Res) returns (ca: ExprCode, cb: ExprCode, a: Res)
    requires e.Logical? && WellTyped(layout, e, shared) && LowerExpr(e, ud, g, n) == c && Eval(layout, e, tw, s) == Some(r)
    ensures WellTyped(layout, e.lhs, shared) && WellTyped(layout, e.rhs, shared)
    ensures LowerExpr(e.lhs, ud, g, n + 1) == ca && LowerExpr(e.rhs, ud, ca.gen, ca.lab) == cb
    ensures c.ops == ca.ops + [ShortCircuit(e.isAnd, ca.ret, n)] + cb.ops + [ShortCircuit(e.isAnd, cb.ret, n)]
                     + LogicalFooter(e.isAnd, Temp(cb.gen, Int), n, cb.lab)
    ensures c.ret == Temp(cb.gen, Int) && c.gen == cb.gen + 1 && g <= ca.gen <= cb.gen && |c.ops| == |ca.ops| + |cb.ops| + 7
    ensures Eval(layout, e.lhs, tw, s) == Some(a)
    ensures (a.v != 0) != e.isAnd ==> r == a.(v := if e.isAnd then 0 else 1)
    ensures (a.v != 0) == e.isAnd ==>
              && Eval(layout, e.rhs, tw, a.st).Some?
              && var b := Eval(layout, e.rhs, tw, a.st).value;
                 r == Res(if b.v != 0 then 1 else 0, b.st, a.rd + b.rd, a.wr + b.wr, b.pending)
  {
    ca := LowerExpr(e.lhs, ud, g, n + 1);
    cb := LowerExpr(e.rhs, ud, ca.gen, ca.lab);
    a := Eval(layout, e.lhs, tw, s).value;
  }

  /** Where the pieces of a short-circuit operator lie: the first test at q, the
      second at z. */
  ghost predicate LogicalPlaced(code: seq<IrOp>, p: nat, q: nat, z: nat, isAnd: bool, ca: ExprCode, cb: ExprCode, n: int) {
    && q == p + |ca.ops| && z == q + 1 + |cb.ops| && z + 6 <= |code|
    && CodeAt(code, p, ca.ops) && code[q] == ShortCircuit(isAnd, ca.ret, n)
    && CodeAt(code, q + 1, cb.ops) && code[z] == ShortCircuit(isAnd, cb.ret, n)
    && IsFooter(code, z + 1, isAnd, Temp(cb.gen, Int), n, cb.lab)
  }

  lemma LogicalPlaces(code: seq<IrOp>, p: nat, isAnd: bool, ca: ExprCode, cb: ExprCode, n: int)
    requires CodeAt(code, p, ca.ops + [ShortCircuit(isAnd, ca.ret, n)] + cb.ops + [ShortCircuit(isAnd, cb.ret, n)]
                             + LogicalFooter(isAnd, Temp(cb.gen, Int), n, cb.lab))
    ensures LogicalPlaced(code, p, p + |ca.ops|, p + |ca.ops| + 1 + |cb.ops|, isAnd, ca, cb, n)
  {
    var dst, foot := Temp(cb.gen, Int), LogicalFooter(isAnd, Temp(cb.gen, Int), n, cb.lab);
    var x, y := ShortCircuit(isAnd, ca.ret, n), ShortCircuit(isAnd, cb.ret, n);
    Split(code, p, ca.ops + [x] + cb.ops + [y], foot);
    Split(code, p, ca.ops + [x] + cb.ops, [y]);
    Split(code, p, ca.ops + [x], cb.ops);
    Split(code, p, ca.ops, [x]);
    var q, z := p + |ca.ops|, p + |ca.ops| + 1 + |cb.ops|;
    FooterAt(code, z + 1, isAnd, dst, n, cb.lab);
    assert z == p + |ca.ops + [x] + cb.ops|;
    assert code[q + 0] == [x][0] && code[z + 0] == [y][0];
  }

  lemma {:induction false} LogicalSim(code: seq<IrOp>, layout: Layout, e: Expr, shared: Option<Expr>, tw: Option<TwinValue>,
      ud: Option<IrVal>, s: Store, t: Store, g: int, n: int, p: nat, c: ExprCode, r: Res) returns (k: nat, t': Store)
    requires e.Logical?
    requires Ready(code, layout, e, shared, tw, ud, s, t, g)
    requires LowerExpr(e, ud, g, n) == c && Eval(layout, e, tw, s) == Some(r) && CodeAt(code, p, c.ops)
    ensures Iter(code, layout, Running(p, t), k) == Running(p + |c.ops|, t') && Simulated(e, c, r, s, t, t', g)
    decreases e, 1
  {
    hide Eval, EvalPlace, LowerExpr, WellTyped, Modulus, UniqueLabels, CodeAt, Frame, Agree, Settled, Below, StoreOk,
      TwinReady, Read, ReadAs, Iter, Step, FindLabel, Effect, TypeOf, Unparen, LogicalFooter;
    var ca, cb, a := LogicalParts(layout, e, shared, tw, ud, s, g, n, c, r);
    var dst := Temp(cb.gen, Int);
    LogicalPlaces(code, p, e.isAnd, ca, cb, n);
    var q, z := p + |ca.ops|, p + |ca.ops| + 1 + |cb.ops|;
    ReadyFirst(code, layout, e, e.lhs, shared, tw, ud, s, t, g, g);
    var j, u := ExprSim(code, layout, e.lhs, shared, tw, ud, s, t, g, n + 1, p, ca, a);
    ThenBranch(code, layout, Running(p, t), j, q, u, a.v, z + 3);
    BelowKept(layout, e.lhs, tw, s, a, g);
    if (a.v != 0) != e.isAnd {
      FreshOutside(s, g, cb.gen);
      k, t' := FooterSim(code, layout, Running(p, t), j + 1, z + 1, e.isAnd, dst, n, cb.lab, true, a.st, t, u, a.wr, g, ca.gen);
      LogicalEnd(e, c, r, s, t, t', g, cb.gen);
    } else {
      var b := Eval(layout, e.rhs, tw, a.st).value;
      ReadyAfter(code, layout, e.lhs, e.rhs, shared, tw, ud, s, t, u, g, n + 1, ca, a);
      k, t' := LogicalRight(code, layout, e, shared, tw, ud, a.st, u, n, p, q, z, ca, cb, b, Running(p, t), j + 1);
      FrameTrans(t, u, t', a.wr, b.wr, g, ca.gen, cb.gen + 1);
      LogicalEnd(e, c, r, s, t, t', g, cb.gen);
    }
  }

  lemma FreshOutside(s: Store, g: int, id: int)
    requires Below(s, g) && g <= id
    ensures Tmp(id) !in s
  {
  }

  lemma LogicalEnd(e: Expr, c: ExprCode, r: Res, s: Store, t: Store, t': Store, g: int, g': int)
    requires e.Logical? && c.ret == Temp(g', Int) && c.gen == g' + 1 && g <= g' && Below(s, g)
    requires Agree(r.st, t') && Frame(t, t', r.wr, g, g' + 1) && Read(c.ret, t') == Some(r.v)
    ensures Simulated(e, c, r, s, t, t', g)
  {
  }

  /** The second operand, when the first has not decided the result. */
  lemma {:induction false} LogicalRight(code: seq<IrOp>, layout: Layout, e: Expr, shared: Option<Expr>, tw: Option<TwinValue>,
      ud: Option<IrVal>, s: Store, t: Store, n: int, p: nat, q: nat, z: nat, ca: ExprCode, cb: ExprCode, b: Res,
      from: Config, j: nat) returns (k: nat, t': Store)
    requires e.Logical? && Ready(code, layout, e.rhs, shared, tw, ud, s, t, ca.gen)
    requires LowerExpr(e.rhs, ud, ca.gen, ca.lab) == cb && Eval(layout, e.rhs, tw, s) == Some(b)
    requires LogicalPlaced(code, p, q, z, e.isAnd, ca, cb, n) && Iter(code, layout, from, j) == Running(q + 1, t)
    ensures Iter(code, layout, from, k) == Running(z + 6, t') && ca.gen <= cb.gen
    ensures Agree(b.st, t') && Frame(t, t', b.wr, ca.gen, cb.gen + 1)
    ensures Read(Temp(cb.gen, Int), t') == Some(if b.v != 0 then 1 else 0)
    decreases e, 0
  {
    hide Eval, EvalPlace, LowerExpr, WellTyped, Modulus, UniqueLabels, CodeAt, Frame, Agree, Settled, Below, StoreOk,
      TwinReady, Read, ReadAs, Iter, Step, FindLabel, Effect, TypeOf, Unparen;
    var i, w := ExprSim(code, layout, e.rhs, shared, tw, ud, s, t, ca.gen, ca.lab, q + 1, cb, b);
    BelowKept(layout, e.rhs, tw, s, b, ca.gen);
    FreshOutside(b.st, ca.gen, cb.gen);
    Chain(code, layout, from, j, Running(q + 1, t), i, Running(z, w));
    ThenBranch(code, layout, from, j + i, z, w, b.v, z + 3);
    k, t' := FooterSim(code, layout, from, j + i + 1, z + 1, e.isAnd, Temp(cb.gen, Int), n, cb.lab,
                       (b.v != 0) != e.isAnd, b.st, t, w, b.wr, ca.gen, cb.gen);
  }

  ghost predicate IsFooter(code: seq<IrOp>, q: nat, isAnd: bool, dst: IrVal, l: int, end: int) {
    && q + 5 <= |code|
    && code[q] == Copy(Constant(if isAnd then 1 else 0, Char), dst) && code[q + 1] == Jump(end)
    && code[q + 2] == LabelAt(l)
    && code[q + 3] == Copy(Constant(if isAnd then 0 else 1, Char), dst) && code[q + 4] == LabelAt(end)
  }

  lemma FooterAt(code: seq<IrOp>, q: nat, isAnd: bool, dst: IrVal, l: int, end: int)
    requires CodeAt(code, q, LogicalFooter(isAnd, dst, l, end))
    ensures IsFooter(code, q, isAnd, dst, l, end)
  {
    var f := LogicalFooter(isAnd, dst, l, end);
    assert code[q + 0] == f[0] && code[q + 1] == f[1] && code[q + 2] == f[2] && code[q + 3] == f[3] && code[q + 4] == f[4];
  }

  /** The end of a short-circuit operator: the run arrives at its start, or
      through a jump at its first label, and leaves a truth value. */
  lemma FooterSim(code: seq<IrOp>, layout: Layout, from: Config, j: nat, q: nat, isAnd: bool, dst: IrVal, l: int, end: int,
                  jumped: bool, s: Store, t: Store, u: Store, wr: set<Loc>, g: int, m: int) returns (k: nat, t': Store)
    requires UniqueLabels(code) && IsFooter(code, q, isAnd, dst, l, end)
    requires Iter(code, layout, from, j) == Running(if jumped then q + 2 else q, u)
    requires dst.Variable? && dst.loc.Tmp? && dst.ty == Int && g <= dst.loc.id && dst.loc !in s
    requires Agree(s, u) && m <= dst.loc.id && Frame(t, u, wr, g, m)
    ensures Iter(code, layout, from, k) == Running(q + 5, t')
    ensures Agree(s, t') && Frame(t, t', wr, g, dst.loc.id + 1)
    ensures Read(dst, t') == Some(if jumped != isAnd then 1 else 0)
  {
    hide UniqueLabels, FindLabel;
    var b: nat := if jumped != isAnd then 1 else 0;
    t' := u[dst.loc := b];
    SmallMod(b, Modulus(Int));
    ReadBits(dst, t', b);
    if jumped {
      ThenStep(code, layout, from, j, q + 2, u, u);
      ThenStep(code, layout, from, j + 1, q + 3, u, t');
      ThenStep(code, layout, from, j + 2, q + 4, t', t');
    } else {
      ThenStep(code, layout, from, j, q, u, t');
      ThenJump(code, layout, from, j + 1, q + 1, t', q + 4);
      ThenStep(code, layout, from, j + 2, q + 4, t', t');
    }
    k := j + 3;
  }

  // -------------------------------------------------- conditional expression

  lemma TernaryParts(layout: Layout, e: Expr, shared: Option<Expr>, tw: Option<TwinValue>, ud: Option<IrVal>, s: Store,
      g: int, n: int, c: ExprCode, r: Res) returns (ck: ExprCode, ca: ExprCode, cb: ExprCode, a: Res, b: Res)
    requires e.Ternary? && WellTyped(layout, e, shared) && LowerExpr(e, ud, g, n) == c && Eval(layout, e, tw, s) == Some(r)
    ensures WellTyped(layout, e.cond, shared) && WellTyped(layout, e.thn, shared) && WellTyped(layout, e.els, shared)
    ensures TypeOf(e.thn) == e.tty && TypeOf(e.els) == e.tty
    ensures LowerExpr(e.cond, ud, g + 1, n + 2) == ck
    ensures LowerExpr(e.thn, ud, ck.gen, ck.lab) == ca && LowerExpr(e.els, ud, ca.gen, ca.lab) == cb
    ensures c.ops == ck.ops + [JumpIfZero(ck.ret, n)]
                     + (ca.ops + [Copy(ca.ret, Temp(g, e.tty))] + [Jump(n + 1), LabelAt(n)])
                     + (cb.ops + [Copy(cb.ret, Temp(g, e.tty))] + [LabelAt(n + 1)])
    ensures c.ret == Temp(g, e.tty) && c.gen == cb.gen && g + 1 <= ck.gen <= ca.gen <= cb.gen
    ensures Eval(layout, e.cond, tw, s) == Some(a)
    ensures Eval(layout, if a.v != 0 then e.thn else e.els, tw, a.st) == Some(b)
    ensures r == Res(b.v, b.st, a.rd + b.rd, a.wr + b.wr, b.pending)
  {
    ck := LowerExpr(e.cond, ud, g + 1, n + 2);
    ca := LowerExpr(e.thn, ud, ck.gen, ck.lab);
    cb := LowerExpr(e.els, ud, ca.gen, ca.lab);
    a := Eval(layout, e.cond, tw, s).value;
    b := Eval(layout, if a.v != 0 then e.thn else e.els, tw, a.st).value;
  }

  /** Where the pieces of a conditional expression lie: the test before q1, the
      end of the first arm at q2, the end of the second at q4. */
  ghost predicate TernaryPlaced(code: seq<IrOp>, p: nat, q1: nat, q2: nat, q4: nat, ck: ExprCode, ca: ExprCode, cb: ExprCode,
                                dst: IrVal, n: int) {
    && q1 == p + |ck.ops| + 1 && q2 == q1 + |ca.ops| && q4 == q2 + 3 + |cb.ops| && q4 + 2 <= |code|
    && CodeAt(code, p, ck.ops) && code[q1 - 1] == JumpIfZero(ck.ret, n)
    && CodeAt(code, q1, ca.ops) && code[q2] == Copy(ca.ret, dst) && code[q2 + 1] == Jump(n + 1) && code[q2 + 2] == LabelAt(n)
    && CodeAt(code, q2 + 3, cb.ops) && code[q4] == Copy(cb.ret, dst) && code[q4 + 1] == LabelAt(n + 1)
  }

  lemma TernaryPlaces(code: seq<IrOp>, p: nat, ck: ExprCode, ca: ExprCode, cb: ExprCode, dst: IrVal, n: int)
    requires CodeAt(code, p, ck.ops + [JumpIfZero(ck.ret, n)]
                             + (ca.ops + [Copy(ca.ret, dst)] + [Jump(n + 1), LabelAt(n)])
                             + (cb.ops + [Copy(cb.ret, dst)] + [LabelAt(n + 1)]))
    ensures var q1 := p + |ck.ops| + 1; var q2 := q1 + |ca.ops|;
            TernaryPlaced(code, p, q1, q2, q2 + 3 + |cb.ops|, ck, ca, cb, dst, n)
  {
    var jz := JumpIfZero(ck.ret, n);
    var x, y := ca.ops + [Copy(ca.ret, dst)] + [Jump(n + 1), LabelAt(n)], cb.ops + [Copy(cb.ret, dst)] + [LabelAt(n + 1)];
    Split(code, p, ck.ops + [jz] + x, y);
    Split(code, p, ck.ops + [jz], x);
    Split(code, p, ck.ops, [jz]);
    var q1 := p + |ck.ops| + 1;
    var q2 := q1 + |ca.ops|;
    var q4 := q2 + 3 + |cb.ops|;
    ArmAt(code, q1, ca.ops, Copy(ca.ret, dst), [Jump(n + 1), LabelAt(n)]);
    ArmAt(code, q2 + 3, cb.ops, Copy(cb.ret, dst), [LabelAt(n + 1)]);
    assert code[q1 - 1 + 0] == [jz][0];
    assert code[q2 + 1 + 0] == [Jump(n + 1), LabelAt(n)][0] && code[q2 + 1 + 1] == [Jump(n + 1), LabelAt(n)][1];
    assert code[q4 + 1 + 0] == [LabelAt(n + 1)][0];
  }

  lemma {:induction false} TernarySim(code: seq<IrOp>, layout: Layout, e: Expr, shared: Option<Expr>, tw: Option<TwinValue>,
      ud: Option<IrVal>, s: Store, t: Store, g: int, n: int, p: nat, c: ExprCode, r: Res) returns (k: nat, t': Store)
    requires e.Ternary?
    requires Ready(code, layout, e, shared, tw, ud, s, t, g)
    requires LowerExpr(e, ud, g, n) == c && Eval(layout, e, tw, s) == Some(r) && CodeAt(code, p, c.ops)
    ensures Iter(code, layout, Running(p, t), k) == Running(p + |c.ops|, t') && Simulated(e, c, r, s, t, t', g)
    decreases e, 2
  {
    hide Eval, EvalPlace, LowerExpr, WellTyped, Modulus, UniqueLabels, CodeAt, Frame, Agree, Settled, Below, StoreOk,
      TwinReady, Read, ReadAs, Iter, Step, FindLabel, Effect, TypeOf, Unparen;
    var ck, ca, cb, a, b := TernaryParts(layout, e, shared, tw, ud, s, g, n, c, r);
    TernaryPlaces(code, p, ck, ca, cb, Temp(g, e.tty), n);
    var q1 := p + |ck.ops| + 1;
    var q2 := q1 + |ca.ops|;
    var q4 := q2 + 3 + |cb.ops|;
    ReadyFirst(code, layout, e, e.cond, shared, tw, ud, s, t, g, g + 1);
    var j, u := ExprSim(code, layout, e.cond, shared, tw, ud, s, t, g + 1, n + 2, p, ck, a);
    ThenBranch(code, layout, Running(p, t), j, q1 - 1, u, a.v, q2 + 2);
    BelowKept(layout, e.cond, tw, s, a, g);
    if a.v != 0 {
      ReadyAfter(code, layout, e.cond, e.thn, shared, tw, ud, s, t, u, g + 1, n + 2, ck, a);
      k, t' := ThenArm(code, layout, e, shared, tw, ud, a.st, u, g, n, p, q1, q2, q4, ck, ca, cb, b, Running(p, t), j + 1);
    } else {
      ReadyAfter(code, layout, e.cond, e.els, shared, tw, ud, s, t, u, g + 1, n + 2, ck, a);
      ReadyFirst(code, layout, e.els, e.els, shared, tw, ud, a.st, u, ck.gen, ca.gen);
      k, t' := ElseArm(code, layout, e, shared, tw, ud, a.st, u, g, n, p, q1, q2, q4, ck, ca, cb, b, Running(p, t), j + 1);
    }
    TernaryEnd(e, c, r, s, t, u, t', a, b, g, ck.gen, ca.gen, cb.gen);
  }

  lemma BelowKept(layout: Layout, x: Expr, tw: Option<TwinValue>, s: Store, a: Res, g: int)
    requires Eval(layout, x, tw, s) == Some(a) && Below(s, g)
    ensures Below(a.st, g) && a.st.Keys == s.Keys
  {
  }

  lemma TernaryEnd(e: Expr, c: ExprCode, r: Res, s: Store, t: Store, u: Store, w: Store, a: Res, b: Res, g: int, k: int, h: int, i: int)
    requires e.Ternary? && c.ret == Temp(g, e.tty) && c.gen == i && r == Res(b.v, b.st, a.rd + b.rd, a.wr + b.wr, b.pending)
    requires Frame(t, u, a.wr, g + 1, k) && g + 1 <= k <= h <= i && Below(s, g)
    requires Frame(u, w, b.wr + {Tmp(g)}, k, h) || Frame(u, w, b.wr + {Tmp(g)}, h, i)
    requires Agree(b.st, w) && Read(c.ret, w) == Some(b.v)
    ensures Simulated(e, c, r, s, t, w, g)
  {
    ArmFrames(t, u, w, a.wr, b.wr, g, k, h, i);
  }

  lemma {:induction false} ThenArm(code: seq<IrOp>, layout: Layout, e: Expr, shared: Option<Expr>, tw: Option<TwinValue>,
      ud: Option<IrVal>, s: Store, t: Store, g: int, n: int, p: nat, q1: nat, q2: nat, q4: nat,
      ck: ExprCode, ca: ExprCode, cb: ExprCode, b: Res, from: Config, j: nat) returns (k: nat, t': Store)
    requires e.Ternary? && TypeOf(e.thn) == e.tty && g < ck.gen && Below(s, g)
    requires Ready(code, layout, e.thn, shared, tw, ud, s, t, ck.gen) && LowerExpr(e.thn, ud, ck.gen, ck.lab) == ca
    requires Eval(layout, e.thn, tw, s) == Some(b)
    requires TernaryPlaced(code, p, q1, q2, q4, ck, ca, cb, Temp(g, e.tty), n) && Iter(code, layout, from, j) == Running(q1, t)
    ensures Iter(code, layout, from, k) == Running(q4 + 2, t')
    ensures Agree(b.st, t') && Frame(t, t', b.wr + {Tmp(g)}, ck.gen, ca.gen) && Read(Temp(g, e.tty), t') == Some(b.v)
    decreases e, 1
  {
    hide Eval, EvalPlace, LowerExpr, WellTyped, Modulus, UniqueLabels, CodeAt, Frame, Agree, Settled, Below, StoreOk,
      TwinReady, Read, ReadAs, Iter, Step, FindLabel, TypeOf, Unparen;
    var i, w := ArmSim(code, layout, e, e.thn, shared, tw, ud, s, t, ck.gen, ck.lab, q1, ca, b, from, j, g);
    ThenJump(code, layout, from, i, q2 + 1, w, q4 + 1);
    ThenStep(code, layout, from, i + 1, q4 + 1, w, w);
    k, t' := i + 2, w;
  }

  lemma {:induction false} ElseArm(code: seq<IrOp>, layout: Layout, e: Expr, shared: Option<Expr>, tw: Option<TwinValue>,
      ud: Option<IrVal>, s: Store, t: Store, g: int, n: int, p: nat, q1: nat, q2: nat, q4: nat,
      ck: ExprCode, ca: ExprCode, cb: ExprCode, b: Res, from: Config, j: nat) returns (k: nat, t': Store)
    requires e.Ternary? && TypeOf(e.els) == e.tty && g < ca.gen && Below(s, g)
    requires Ready(code, layout, e.els, shared, tw, ud, s, t, ca.gen) && LowerExpr(e.els, ud, ca.gen, ca.lab) == cb
    requires Eval(layout, e.els, tw, s) == Some(b)
    requires TernaryPlaced(code, p, q1, q2, q4, ck, ca, cb, Temp(g, e.tty), n) && Iter(code, layout, from, j) == Running(q2 + 2, t)
    ensures Iter(code, layout, from, k) == Running(q4 + 2, t')
    ensures Agree(b.st, t') && Frame(t, t', b.wr + {Tmp(g)}, ca.gen, cb.gen) && Read(Temp(g, e.tty), t') == Some(b.v)
    decreases e, 1
  {
    hide Eval, EvalPlace, LowerExpr, WellTyped, Modulus, UniqueLabels, CodeAt, Frame, Agree, Settled, Below, StoreOk,
      TwinReady, Read, ReadAs, Iter, Step, FindLabel, TypeOf, Unparen;
    ThenStep(code, layout, from, j, q2 + 2, t, t);
    var i, w := ArmSim(code, layout, e, e.els, shared, tw, ud, s, t, ca.gen, ca.lab, q2 + 3, cb, b, from, j + 1, g);
    ThenStep(code, layout, from, i, q4 + 1, w, w);
    k, t' := i + 1, w;
  }

  lemma ArmFrames(t: Store, u: Store, w: Store, v: set<Loc>, v': set<Loc>, g: int, k: int, a: int, b: int)
    requires Frame(t, u, v, g + 1, k) && g + 1 <= k <= a <= b
    requires Frame(u, w, v' + {Tmp(g)}, k, a) || Frame(u, w, v' + {Tmp(g)}, a, b)
    ensures Frame(t, w, v + v', g, b)
  {
  }

  lemma ArmAt(code: seq<IrOp>, q: nat, ops: seq<IrOp>, copy: IrOp, rest: seq<IrOp>)
    requires CodeAt(code, q, ops + [copy] + rest)
    ensures CodeAt(code, q, ops) && CodeAt(code, q + |ops|, [copy]) && CodeAt(code, q + |ops| + 1, rest)
    ensures code[q + |ops|] == copy
  {
    Split(code, q, ops + [copy], rest);
    Split(code, q, ops, [copy]);
    assert code[q + |ops| + 0] == [copy][0];
  }

  /** One arm of a conditional expression, and the copy of its value. */
  lemma {:induction false} ArmSim(code: seq<IrOp>, layout: Layout, e: Expr, x: Expr, shared: Option<Expr>,
      tw: Option<TwinValue>, ud: Option<IrVal>, s: Store, t: Store, g: int, n: int, p: nat, c: ExprCode, b: Res,
      from: Config, j: nat, d: int) returns (k: nat, t': Store)
    requires x < e && d < g && Below(s, d)
    requires Ready(code, layout, x, shared, tw, ud, s, t, g) && LowerExpr(x, ud, g, n) == c
    requires Eval(layout, x, tw, s) == Some(b) && CodeAt(code, p, c.ops)
    requires p + |c.ops| < |code| && code[p + |c.ops|] == Copy(c.ret, Temp(d, TypeOf(x)))
    requires Iter(code, layout, from, j) == Running(p, t)
    ensures Iter(code, layout, from, k) == Running(p + |c.ops| + 1, t')
    ensures Agree(b.st, t') && Frame(t, t', b.wr + {Tmp(d)}, g, c.gen) && Read(Temp(d, TypeOf(x)), t') == Some(b.v)
    decreases e, 0
  {
    hide Eval, EvalPlace, LowerExpr, WellTyped, Modulus, UniqueLabels;
    EvalRange(layout, x, shared, tw, s);
    var i, w := ExprSim(code, layout, x, shared, tw, ud, s, t, g, n, p, c, b);
    Chain(code, layout, from, j, Running(p, t), i, Running(p + |c.ops|, w));
    var dst := Temp(d, TypeOf(x));
    WriteBits(dst, w, b.v);
    t' := w[Tmp(d) := b.v];
    ReadBits(dst, t', b.v);
    ThenStep(code, layout, from, j + i, p + |c.ops|, w, t');
    k := j + i + 1;
  }

  // ------------------------------------------------------------ dereferences

  lemma DerefParts(layout: Layout, e: Expr, shared: Option<Expr>, tw: Option<TwinValue>, ud: Option<IrVal>, s: Store,
      g: int, n: int, c: ExprCode, r: Res) returns (ci: ExprCode, a: Res, l: Loc)
    requires e.Deref? && !Unparen(e.pointer).AddressOf? && WellTyped(layout, e, shared) && LowerExpr(e, ud, g, n) == c && Eval(layout, e, tw, s) == Some(r)
    ensures WellTyped(layout, e.pointer, shared) && TypeOf(e.pointer) == Pointer(e.dty)
    ensures LowerExpr(e.pointer, ud, g, n) == ci && Eval(layout, e.pointer, tw, s) == Some(a)
    ensures LocAt(layout, a.v, e.dty.Size()) == Some(l) && l in a.st
    ensures r == Res(a.st[l], a.st, a.rd + {l}, a.wr, a.pending)
    ensures c == ExprCode(ci.ops + [Load(ci.ret, Temp(ci.gen, e.dty))], Temp(ci.gen, e.dty), ci.gen + 1, ci.lab)
  {
    ci := LowerExpr(e.pointer, ud, g, n);
    a := Eval(layout, e.pointer, tw, s).value;
    l := LocAt(layout, a.v, e.dty.Size()).value;
  }

  lemma {:induction false} DerefSim(code: seq<IrOp>, layout: Layout, e: Expr, shared: Option<Expr>, tw: Option<TwinValue>,
      ud: Option<IrVal>, s: Store, t: Store, g: int, n: int, p: nat, c: ExprCode, r: Res) returns (k: nat, t': Store)
    requires e.Deref?
    requires Ready(code, layout, e, shared, tw, ud, s, t, g)
    requires LowerExpr(e, ud, g, n) == c && Eval(layout, e, tw, s) == Some(r) && CodeAt(code, p, c.ops)
    ensures Iter(code, layout, Running(p, t), k) == Running(p + |c.ops|, t') && Simulated(e, c, r, s, t, t', g)
    decreases e, 2
  {
    if Unparen(e.pointer).AddressOf? {
      UnparenTyped(layout, e.pointer, shared);
      k, t' := ExprSim(code, layout, Unparen(e.pointer).lvalue, shared, tw, ud, s, t, g, n, p, c, r);
    } else {
      k, t' := LoadSim(code, layout, e, shared, tw, ud, s, t, g, n, p, c, r);
    }
  }

  lemma {:induction false} LoadSim(code: seq<IrOp>, layout: Layout, e: Expr, shared: Option<Expr>, tw: Option<TwinValue>,
      ud: Option<IrVal>, s: Store, t: Store, g: int, n: int, p: nat, c: ExprCode, r: Res) returns (k: nat, t': Store)
    requires e.Deref? && !Unparen(e.pointer).AddressOf?
    requires Ready(code, layout, e, shared, tw, ud, s, t, g)
    requires LowerExpr(e, ud, g, n) == c && Eval(layout, e, tw, s) == Some(r) && CodeAt(code, p, c.ops)
    ensures Iter(code, layout, Running(p, t), k) == Running(p + |c.ops|, t') && Simulated(e, c, r, s, t, t', g)
    decreases e, 1
  {
    hide Eval, EvalPlace, LowerExpr, WellTyped, Modulus, UniqueLabels, CodeAt, Iter, Step, FindLabel, Effect, Ready, Simulated, Agree, Frame,
      StoreOk, TypeOf, Read, LocAt, Unparen;
    ReadyMeans(code, layout, e, shared, tw, ud, s, t, g);
    var ci, a, l := DerefParts(layout, e, shared, tw, ud, s, g, n, c, r);
    var dst := Temp(ci.gen, e.dty);
    Append(code, p, ci.ops, Load(ci.ret, dst));
    RangeOf(code, layout, e, shared, tw, ud, s, t, g, r);
    ReadyFirst(code, layout, e, e.pointer, shared, tw, ud, s, t, g, g);
    var j, u := ExprSim(code, layout, e.pointer, shared, tw, ud, s, t, g, n, p, ci, a);
    SimulatedMeans(e.pointer, ci, a, s, t, u, g);
    LoadedValue(layout, ci.ret, dst, a, l, u);
    DerefType(e);
    k, t' := FreshResult(code, layout, Running(p, t), j, p + |ci.ops|, t, u, a.st, a.wr, Load(ci.ret, dst), dst, r.v, g);
    LoadedEnd(e, c, r, s, t, t', g);
  }

  lemma DerefType(e: Expr)
    requires e.Deref?
    ensures TypeOf(e) == e.dty
  {
  }

  lemma LoadedValue(layout: Layout, p: IrVal, dst: IrVal, a: Res, l: Loc, u: Store)
    requires Read(p, u) == Some(a.v) && LocAt(layout, a.v, dst.ty.Size()) == Some(l) && l in a.st && Agree(a.st, u)
    ensures Effect(layout, Load(p, dst), u) == Write(dst, a.st[l], u)
  {
    hide Read, LocAt;
  }

  lemma LoadedEnd(e: Expr, c: ExprCode, r: Res, s: Store, t: Store, t': Store, g: int)
    requires e.Deref? && c.ret.Variable? && c.ret.loc.Tmp? && g <= c.ret.loc.id < c.gen && c.ret.loc !in s && c.ret.ty == e.dty
    requires Agree(r.st, t') && Frame(t, t', r.wr, g, c.gen) && Read(c.ret, t') == Some(r.v)
    ensures Simulated(e, c, r, s, t, t', g)
  {
    hide Agree, Frame, Read;
  }

  lemma {:induction false} AddressOfSim(code: seq<IrOp>, layout: Layout, e: Expr, shared: Option<Expr>, tw: Option<TwinValue>,
      ud: Option<IrVal>, s: Store, t: Store, g: int, n: int, p: nat, c: ExprCode, r: Res) returns (k: nat, t': Store)
    requires e.AddressOf?
    requires Ready(code, layout, e, shared, tw, ud, s, t, g)
    requires LowerExpr(e, ud, g, n) == c && Eval(layout, e, tw, s) == Some(r) && CodeAt(code, p, c.ops)
    ensures Iter(code, layout, Running(p, t), k) == Running(p + |c.ops|, t') && Simulated(e, c, r, s, t, t', g)
    decreases e, 1
  {
    hide Eval, EvalPlace, LowerExpr, WellTyped, Modulus, UniqueLabels, CodeAt;
    AddressOfParts(layout, e, shared, tw, ud, s, g, n);
    if Unparen(e.lvalue).Deref? {
      k, t' := ExprSim(code, layout, Unparen(e.lvalue).pointer, shared, tw, ud, s, t, g, n, p, c, r);
    } else {
      var l := Unparen(e.lvalue).loc;
      var src, dst := Variable(l, Unparen(e.lvalue).vty), Temp(g, e.pty);
      Append(code, p, [], GetAddress(src, dst));
      assert Iter(code, layout, Running(p, t), 0) == Running(p, t);
      assert Effect(layout, GetAddress(src, dst), t) == Write(dst, r.v, t) by {
        BitsFixed(e.pty, r.v);
      }
      k, t' := FreshResult(code, layout, Running(p, t), 0, p, t, t, s, {}, GetAddress(src, dst), dst, r.v, g);
    }
  }

  lemma AddressOfParts(layout: Layout, e: Expr, shared: Option<Expr>, tw: Option<TwinValue>, ud: Option<IrVal>, s: Store, g: int, n: int)
    requires e.AddressOf? && WellTyped(layout, e, shared)
    ensures var u := Unparen(e.lvalue);
            if u.Deref? then
              && u.pointer < e && WellTyped(layout, u.pointer, shared) && TypeOf(u.pointer) == e.pty
              && LowerExpr(e, ud, g, n) == LowerExpr(u.pointer, ud, g, n) && Eval(layout, e, tw, s) == Eval(layout, u.pointer, tw, s)
            else
              && u.Var? && u.loc in layout && e.pty.Pointer?
              && LowerExpr(e, ud, g, n) == ExprCode([] + [GetAddress(Variable(u.loc, u.vty), Temp(g, e.pty))], Temp(g, e.pty), g + 1, n)
              && Eval(layout, e, tw, s) == Some(Res(Bits(e.pty, layout[u.loc].address), s, {}, {}, {}))
  {
    UnparenTyped(layout, e.lvalue, shared);
    UnparenLowering(e.lvalue, ud, g, n);
  }

  // -------------------------------------------------------------- assignments

  lemma {:induction false} AssignSim(code: seq<IrOp>, layout: Layout, e: Expr, shared: Option<Expr>, tw: Option<TwinValue>,
      ud: Option<IrVal>, s: Store, t: Store, g: int, n: int, p: nat, c: ExprCode, r: Res) returns (k: nat, t': Store)
    requires e.Assign?
    requires Ready(code, layout, e, shared, tw, ud, s, t, g)
    requires LowerExpr(e, ud, g, n) == c && Eval(layout, e, tw, s) == Some(r) && CodeAt(code, p, c.ops)
    ensures Iter(code, layout, Running(p, t), k) == Running(p + |c.ops|, t') && Simulated(e, c, r, s, t, t', g)
    decreases e, 2
  {
    if Unparen(e.target).Deref? {
      k, t' := AssignIndirectSim(code, layout, e, shared, tw, ud, s, t, g, n, p, c, r);
    } else {
      k, t' := AssignDirectSim(code, layout, e, shared, tw, ud, s, t, g, n, p, c, r);
    }
  }

  function SharedOf(e: Expr): Option<Expr>
    requires e.Assign?
  {
    if e.compound then Some(e.target) else None
  }

  lemma AssignDirectParts(layout: Layout, e: Expr, shared: Option<Expr>, tw: Option<TwinValue>, ud: Option<IrVal>, s: Store,
      g: int, n: int, c: ExprCode, r: Res) returns (cb: ExprCode, b: Res, l: Loc)
    requires e.Assign? && !Unparen(e.target).Deref? && WellTyped(layout, e, shared) && LowerExpr(e, ud, g, n) == c && Eval(layout, e, tw, s) == Some(r)
    ensures WellTyped(layout, e.source, SharedOf(e)) && TypeOf(e.source) == e.aty
    ensures LowerExpr(e.source, None, g, n) == cb && Eval(layout, e.source, None, s) == Some(b)
    ensures l in s && r == Res(b.v, b.st[l := b.v], b.rd, b.wr + {l}, b.pending + {l})
    ensures c == ExprCode(cb.ops + [Copy(cb.ret, Variable(l, e.aty))], cb.ret, cb.gen, cb.lab)
  {
    cb := LowerExpr(e.source, None, g, n);
    var (l', a) := EvalPlace(layout, e.target, tw, s).value;
    b := Eval(layout, e.source, None, s).value;
    l := l';
    assert a == Res(0, s, {}, {}, {});
    assert {} + b.rd == b.rd && {} + b.wr + {l} == b.wr + {l} && {} + b.pending + {l} == b.pending + {l};
  }

  lemma {:induction false} AssignDirectSim(code: seq<IrOp>, layout: Layout, e: Expr, shared: Option<Expr>, tw: Option<TwinValue>,
      ud: Option<IrVal>, s: Store, t: Store, g: int, n: int, p: nat, c: ExprCode, r: Res) returns (k: nat, t': Store)
    requires e.Assign? && !Unparen(e.target).Deref?
    requires Ready(code, layout, e, shared, tw, ud, s, t, g)
    requires LowerExpr(e, ud, g, n) == c && Eval(layout, e, tw, s) == Some(r) && CodeAt(code, p, c.ops)
    ensures Iter(code, layout, Running(p, t), k) == Running(p + |c.ops|, t') && Simulated(e, c, r, s, t, t', g)
    decreases e, 1
  {
    hide Eval, EvalPlace, LowerExpr, WellTyped, Modulus, UniqueLabels, CodeAt, Frame, Agree, Settled, Below, StoreOk,
      TwinReady, Read, ReadAs, Iter, Step, FindLabel, Effect, TypeOf, Unparen, Simulated;
    ReadyMeans(code, layout, e, shared, tw, ud, s, t, g);
    var cb, b, l := AssignDirectParts(layout, e, shared, tw, ud, s, g, n, c, r);
    Append(code, p, cb.ops, Copy(cb.ret, Variable(l, e.aty)));
    EvalRange(layout, e.source, SharedOf(e), None, s);
    var j, u := ExprSim(code, layout, e.source, SharedOf(e), None, None, s, t, g, n, p, cb, b);
    k, t' := DirectEnd(code, layout, Running(p, t), j, p + |cb.ops|, e, c, cb, b, l, r, s, t, u, g);
  }

  /** The copy at the end of an assignment to a variable. */
  lemma DirectEnd(code: seq<IrOp>, layout: Layout, from: Config, j: nat, q: nat, e: Expr, c: ExprCode, cb: ExprCode, b: Res, l: Loc,
                  r: Res, s: Store, t: Store, u: Store, g: int) returns (k: nat, t': Store)
    requires e.Assign? && TypeOf(e.source) == e.aty && l in b.st && b.v < Modulus(e.aty)
    requires Iter(code, layout, from, j) == Running(q, u) && q < |code| && code[q] == Copy(cb.ret, Variable(l, e.aty))
    requires Simulated(e.source, cb, b, s, t, u, g)
    requires r == Res(b.v, b.st[l := b.v], b.rd, b.wr + {l}, b.pending + {l})
    requires c.ret == cb.ret && c.gen == cb.gen
    ensures Iter(code, layout, from, k) == Running(q + 1, t') && Simulated(e, c, r, s, t, t', g)
  {
    hide Modulus, Iter, Step;
    var dst := Variable(l, e.aty);
    k, t' := AssignEnd(code, layout, from, j, q, t, u, b.st, b.wr, Copy(cb.ret, dst), dst, cb.ret, b.v, g, cb.gen);
  }

  /** The operation at q that stores the value v of the operand ret in the object dst. */
  lemma AssignEnd(code: seq<IrOp>, layout: Layout, from: Config, j: nat, q: nat, t: Store, u: Store, s: Store, wr: set<Loc>,
                  op: IrOp, dst: IrVal, ret: IrVal, v: nat, g: int, g': int) returns (k: nat, t': Store)
    requires Iter(code, layout, from, j) == Running(q, u) && q < |code| && code[q] == op && Straight(op)
    requires dst.Variable? && dst.loc in s && v < Modulus(dst.ty) && ret.ty == dst.ty && Read(ret, u) == Some(v)
    requires Effect(layout, op, u) == Write(dst, v, u) && Agree(s, u) && Frame(t, u, wr, g, g')
    ensures Iter(code, layout, from, k) == Running(q + 1, t')
    ensures Agree(s[dst.loc := v], t') && Frame(t, t', wr + {dst.loc}, g, g') && Read(ret, t') == Some(v)
  {
    WriteBits(dst, u, v);
    t' := u[dst.loc := v];
    ThenStep(code, layout, from, j, q, u, t');
    k := j + 1;
    if ret.Variable? && ret.loc == dst.loc {
      ReadBits(ret, t', v);
    }
  }

  lemma AssignIndirectParts(layout: Layout, e: Expr, shared: Option<Expr>, tw: Option<TwinValue>, ud: Option<IrVal>, s: Store,
      g: int, n: int, c: ExprCode, r: Res)
    returns (d: Expr, ca: ExprCode, cb: ExprCode, ud': Option<IrVal>, tw': Option<TwinValue>, a: Res, b: Res, l: Loc)
    requires e.Assign? && Unparen(e.target).Deref? && WellTyped(layout, e, shared) && LowerExpr(e, ud, g, n) == c && Eval(layout, e, tw, s) == Some(r)
    ensures d == Unparen(e.target).pointer && d < e
    ensures WellTyped(layout, d, shared) && WellTyped(layout, e.source, SharedOf(e))
    ensures TypeOf(d) == Pointer(e.aty) && TypeOf(e.source) == e.aty && TypeOf(e.target) == e.aty
    ensures LowerExpr(d, ud, g, n) == ca && Eval(layout, d, tw, s) == Some(a)
    ensures LocAt(layout, a.v, e.aty.Size()) == Some(l) && l in s && a.st.Keys == s.Keys
    ensures ud' == (if e.compound then Some(Temp(ca.gen, e.aty)) else None)
    ensures tw' == (if e.compound then Some(TwinValue(l, a.st[l])) else None)
    ensures LowerExpr(e.source, ud', if e.compound then ca.gen + 1 else ca.gen, ca.lab) == cb
    ensures Eval(layout, e.source, tw', a.st) == Some(b)
    ensures Unsequenced(a, b) && r == Res(b.v, b.st[l := b.v], a.rd + b.rd, a.wr + b.wr + {l}, r.pending)
    ensures c == ExprCode(ca.ops + (if e.compound then [Load(ca.ret, Temp(ca.gen, e.aty))] else []) + cb.ops + [Store(cb.ret, ca.ret)],
                          cb.ret, cb.gen, cb.lab)
  {
    hide Eval, EvalPlace, WellTyped, TypeOf, Unparen, LocAt;
    d := Unparen(e.target).pointer;
    a, b, l := AssignMeaning(layout, e, shared, tw, s, r);
    tw' := if e.compound then Some(TwinValue(l, a.st[l])) else None;
    ca := LowerExpr(d, ud, g, n);
    ud' := if e.compound then Some(Temp(ca.gen, e.aty)) else None;
    cb := LowerExpr(e.source, ud', if e.compound then ca.gen + 1 else ca.gen, ca.lab);
    assert ca.ops + [] + cb.ops == ca.ops + cb.ops;
  }

  lemma AssignMeaning(layout: Layout, e: Expr, shared: Option<Expr>, tw: Option<TwinValue>, s: Store, r: Res)
    returns (a: Res, b: Res, l: Loc)
    requires e.Assign? && Unparen(e.target).Deref? && WellTyped(layout, e, shared) && Eval(layout, e, tw, s) == Some(r)
    ensures var d := Unparen(e.target).pointer;
            && d < e && WellTyped(layout, d, shared) && WellTyped(layout, e.source, SharedOf(e))
            && TypeOf(d) == Pointer(e.aty) && TypeOf(e.source) == e.aty && TypeOf(e.target) == e.aty && Unparen(e.target).dty == e.aty
            && Eval(layout, d, tw, s) == Some(a)
    ensures LocAt(layout, a.v, e.aty.Size()) == Some(l) && l in s && a.st.Keys == s.Keys
    ensures Eval(layout, e.source, if e.compound then Some(TwinValue(l, a.st[l])) else None, a.st) == Some(b)
    ensures Unsequenced(a, b) && r == Res(b.v, b.st[l := b.v], a.rd + b.rd, a.wr + b.wr + {l}, r.pending)
  {
    UnparenTyped(layout, e.target, shared);
    var (l', a') := EvalPlace(layout, e.target, tw, s).value;
    l, a := l', a';
    b := Eval(layout, e.source, if e.compound then Some(TwinValue(l, a.st[l])) else None, a.st).value;
  }

  /** Where the pieces of an assignment through a pointer lie: the address before
      q1, the right-hand side from q2 to q3. */
  ghost predicate StorePlaced(code: seq<IrOp>, p: nat, q1: nat, q2: nat, q3: nat, compound: bool, ca: ExprCode, cb: ExprCode, ty: CType) {
    && q1 == p + |ca.ops| && q2 == (if compound then q1 + 1 else q1) && q3 == q2 + |cb.ops| && q3 < |code|
    && CodeAt(code, p, ca.ops) && (compound ==> code[q1] == Load(ca.ret, Temp(ca.gen, ty)))
    && CodeAt(code, q2, cb.ops) && code[q3] == Store(cb.ret, ca.ret)
  }

  lemma StorePlaces(code: seq<IrOp>, p: nat, compound: bool, ca: ExprCode, cb: ExprCode, ty: CType)
    requires CodeAt(code, p, ca.ops + (if compound then [Load(ca.ret, Temp(ca.gen, ty))] else []) + cb.ops + [Store(cb.ret, ca.ret)])
    ensures var q1 := p + |ca.ops|; var q2 := if compound then q1 + 1 else q1;
            StorePlaced(code, p, q1, q2, q2 + |cb.ops|, compound, ca, cb, ty)
  {
    var glue := if compound then [Load(ca.ret, Temp(ca.gen, ty))] else [];
    Append(code, p, ca.ops + glue + cb.ops, Store(cb.ret, ca.ret));
    Split(code, p, ca.ops + glue, cb.ops);
    if compound {
      Append(code, p, ca.ops, glue[0]);
    } else {
      assert ca.ops + glue == ca.ops;
    }
  }

  lemma {:induction false} AssignIndirectSim(code: seq<IrOp>, layout: Layout, e: Expr, shared: Option<Expr>, tw: Option<TwinValue>,
      ud: Option<IrVal>, s: Store, t: Store, g: int, n: int, p: nat, c: ExprCode, r: Res) returns (k: nat, t': Store)
    requires e.Assign? && Unparen(e.target).Deref?
    requires Ready(code, layout, e, shared, tw, ud, s, t, g)
    requires LowerExpr(e, ud, g, n) == c && Eval(layout, e, tw, s) == Some(r) && CodeAt(code, p, c.ops)
    ensures Iter(code, layout, Running(p, t), k) == Running(p + |c.ops|, t') && Simulated(e, c, r, s, t, t', g)
    decreases e, 1
  {
    hide Eval, EvalPlace, LowerExpr, WellTyped, Modulus, UniqueLabels, CodeAt, Frame, Agree, Settled, Below, StoreOk,
      TwinReady, Read, ReadAs, Iter, Step, FindLabel, Effect, TypeOf, Unparen, Unsequenced, LocAt, StorePlaced, Simulated, Ready;
    ReadyMeans(code, layout, e, shared, tw, ud, s, t, g);
    var d, ca, cb, ud', tw', a, b, l := AssignIndirectParts(layout, e, shared, tw, ud, s, g, n, c, r);
    var q1, q2 := PartsPlaced(code, p, e.compound, c, ca, cb, e.aty);
    ReadyFirst(code, layout, e, d, shared, tw, ud, s, t, g, g);
    var j, u := ExprSim(code, layout, d, shared, tw, ud, s, t, g, n, p, ca, a);
    RangeOf(code, layout, d, shared, tw, ud, s, t, g, a);
    CountersUp(d, ca, a, s, t, u, g);
    k, t' := StoreThrough(code, layout, Running(p, t), j, p, q1, q2, e, d, s, t, u, g, c, ca, cb, ud', tw', a, b, r, l);
  }

  /** From the pointer to the end of an assignment through it. */
  lemma {:induction false} StoreThrough(code: seq<IrOp>, layout: Layout, from: Config, j: nat, p: nat, q1: nat, q2: nat, e: Expr, d: Expr,
      s: Store, t: Store, u: Store, g: int, c: ExprCode, ca: ExprCode, cb: ExprCode, ud': Option<IrVal>, tw': Option<TwinValue>,
      a: Res, b: Res, r: Res, l: Loc) returns (k: nat, t': Store)
    requires e.Assign? && UniqueLabels(code) && WellTyped(layout, e.source, SharedOf(e)) && TypeOf(e.source) == TypeOf(e.target) == e.aty
    requires q2 == (if e.compound then q1 + 1 else q1) && StorePlaced(code, p, q1, q2, q2 + |cb.ops|, e.compound, ca, cb, e.aty)
    requires Iter(code, layout, from, j) == Running(q1, u) && Simulated(d, ca, a, s, t, u, g)
    requires TypeOf(d) == Pointer(e.aty) && StoreOk(layout, a.st) && Below(s, g) && g <= ca.gen
    requires LocAt(layout, a.v, e.aty.Size()) == Some(l) && l in s && a.st.Keys == s.Keys
    requires ud' == (if e.compound then Some(Temp(ca.gen, e.aty)) else None)
    requires tw' == (if e.compound then Some(TwinValue(l, a.st[l])) else None)
    requires LowerExpr(e.source, ud', if e.compound then ca.gen + 1 else ca.gen, ca.lab) == cb
    requires Eval(layout, e.source, tw', a.st) == Some(b) && Unsequenced(a, b)
    requires r == Res(b.v, b.st[l := b.v], a.rd + b.rd, a.wr + b.wr + {l}, r.pending) && c.ret == cb.ret && c.gen == cb.gen
    ensures Iter(code, layout, from, k) == Running(q2 + |cb.ops| + 1, t') && Simulated(e, c, r, s, t, t', g)
    decreases e, 0
  {
    hide Eval, EvalPlace, LowerExpr, WellTyped, Modulus, UniqueLabels, CodeAt, Frame, Agree, Settled, Below, StoreOk, TwinReady, Read, ReadAs,
      Iter, Step, Effect, TypeOf, Unsequenced, LocAt, StorePlaced, Simulated;
    SimulatedMeans(d, ca, a, s, t, u, g);
    GluePlaced(code, p, q1, q2, q2 + |cb.ops|, e.compound, ca, cb, e.aty);
    var i, w := GlueSim(code, layout, from, j, q1, t, u, a, e.compound, ca.ret, e.aty, l, g, ca.gen, s, e.target);
    k, t' := StoreSim(code, layout, e, d, s, t, g, p, q1, q2, ca, cb, ud', tw', a, b, l, from, i, w);
    AssignedEnd(e, c, r, s, t, t', g, a, b, l);
  }

  /** Where the parts of the code for an assignment through a pointer stand. */
  lemma PartsPlaced(code: seq<IrOp>, p: nat, compound: bool, c: ExprCode, ca: ExprCode, cb: ExprCode, ty: CType) returns (q1: nat, q2: nat)
    requires c.ops == ca.ops + (if compound then [Load(ca.ret, Temp(ca.gen, ty))] else []) + cb.ops + [Store(cb.ret, ca.ret)]
    requires CodeAt(code, p, c.ops)
    ensures q1 == p + |ca.ops| && q2 == (if compound then q1 + 1 else q1) && p + |c.ops| == q2 + |cb.ops| + 1
    ensures StorePlaced(code, p, q1, q2, q2 + |cb.ops|, compound, ca, cb, ty) && CodeAt(code, p, ca.ops)
  {
    hide CodeAt;
    q1 := p + |ca.ops|;
    q2 := if compound then q1 + 1 else q1;
    StorePlaces(code, p, compound, ca, cb, ty);
  }

  lemma CountersUp(e: Expr, c: ExprCode, r: Res, s: Store, t: Store, t': Store, g: int)
    requires Simulated(e, c, r, s, t, t', g)
    ensures g <= c.gen
  {
  }

  lemma GluePlaced(code: seq<IrOp>, p: nat, q1: nat, q2: nat, q3: nat, compound: bool, ca: ExprCode, cb: ExprCode, ty: CType)
    requires StorePlaced(code, p, q1, q2, q3, compound, ca, cb, ty)
    ensures CodeAt(code, p, ca.ops) && (compound ==> q1 < |code| && code[q1] == Load(ca.ret, Temp(ca.gen, ty)))
  {
  }

  lemma ReadyMeans(code: seq<IrOp>, layout: Layout, e: Expr, shared: Option<Expr>, tw: Option<TwinValue>, ud: Option<IrVal>, s: Store,
                   t: Store, g: int)
    requires Ready(code, layout, e, shared, tw, ud, s, t, g)
    ensures UniqueLabels(code) && WellTyped(layout, e, shared) && StoreOk(layout, s) && Agree(s, t) && Below(s, g)
  {
  }

  lemma SimulatedMeans(e: Expr, c: ExprCode, r: Res, s: Store, t: Store, t': Store, g: int)
    requires Simulated(e, c, r, s, t, t', g)
    ensures g <= c.gen && c.ret.ty == TypeOf(e) && Agree(r.st, t') && Frame(t, t', r.wr, g, c.gen)
    ensures Read(c.ret, t') == Some(r.v) && Settled(c.ret, r, s, c.gen)
  {
  }

  lemma AssignedEnd(e: Expr, c: ExprCode, r: Res, s: Store, t: Store, t': Store, g: int, a: Res, b: Res, l: Loc)
    requires e.Assign? && r == Res(b.v, b.st[l := b.v], a.rd + b.rd, a.wr + b.wr + {l}, r.pending) && c.ret.ty == e.aty
    requires g <= c.gen && Agree(r.st, t') && Frame(t, t', r.wr, g, c.gen)
    requires Read(c.ret, t') == Some(b.v) && Settled(c.ret, b, s, c.gen)
    ensures Simulated(e, c, r, s, t, t', g)
  {
  }

  /** A compound assignment reads the old value once, before its right-hand side. */
  lemma GlueSim(code: seq<IrOp>, layout: Layout, from: Config, j: nat, q: nat, t: Store, u: Store, a: Res, compound: bool,
                ptr: IrVal, ty: CType, l: Loc, g: int, h: int, s: Store, target: Expr) returns (k: nat, w: Store)
    requires compound ==> q < |code| && code[q] == Load(ptr, Temp(h, ty))
    requires Iter(code, layout, from, j) == Running(q, u) && Frame(t, u, a.wr, g, h) && g <= h
    requires Agree(a.st, u) && StoreOk(layout, a.st) && a.st.Keys == s.Keys && Below(s, g)
    requires LocAt(layout, a.v, ty.Size()) == Some(l) && l in a.st && Read(ptr, u) == Some(a.v) && Settled(ptr, a, s, h)
    requires TypeOf(target) == ty
    ensures Iter(code, layout, from, k) == Running(if compound then q + 1 else q, w)
    ensures var h' := if compound then h + 1 else h;
            && Agree(a.st, w) && Frame(t, w, a.wr, g, h') && Read(ptr, w) == Some(a.v)
            && TwinReady(if compound then Some(TwinValue(l, a.st[l])) else None,
                         if compound then Some(Temp(h, ty)) else None,
                         if compound then Some(target) else None, a.st, w, h')
  {
    if compound {
      CellInRange(layout, a.st, l, ty);
      hide Modulus;
      var dst := Temp(h, ty);
      k, w := FreshResult(code, layout, from, j, q, t, u, a.st, a.wr, Load(ptr, dst), dst, a.st[l], g);
    } else {
      k, w := j, u;
    }
  }

  lemma {:induction false} StoreSim(code: seq<IrOp>, layout: Layout, e: Expr, d: Expr, s: Store, t: Store, g: int, p: nat, q1: nat, q2: nat,
      ca: ExprCode, cb: ExprCode, ud': Option<IrVal>, tw': Option<TwinValue>, a: Res, b: Res, l: Loc,
      from: Config, i: nat, w: Store) returns (k: nat, t': Store)
    requires e.Assign? && UniqueLabels(code) && WellTyped(layout, e.source, SharedOf(e))
    requires ca.ret.ty == TypeOf(d) == Pointer(e.aty) && TypeOf(e.source) == e.aty && g <= ca.gen
    requires LocAt(layout, a.v, e.aty.Size()) == Some(l) && l in s && a.st.Keys == s.Keys && StoreOk(layout, a.st) && Below(s, g)
    requires var h := if e.compound then ca.gen + 1 else ca.gen;
             && LowerExpr(e.source, ud', h, ca.lab) == cb && TwinReady(tw', ud', SharedOf(e), a.st, w, h)
             && Frame(t, w, a.wr, g, h)
    requires Eval(layout, e.source, tw', a.st) == Some(b) && Unsequenced(a, b)
    requires StorePlaced(code, p, q1, q2, q2 + |cb.ops|, e.compound, ca, cb, e.aty)
    requires Iter(code, layout, from, i) == Running(q2, w)
    requires Agree(a.st, w) && Read(ca.ret, w) == Some(a.v) && Settled(ca.ret, a, s, ca.gen)
    ensures Iter(code, layout, from, k) == Running(q2 + |cb.ops| + 1, t')
    ensures g <= cb.gen && cb.ret.ty == e.aty && Agree(b.st[l := b.v], t') && Frame(t, t', a.wr + b.wr + {l}, g, cb.gen)
    ensures Read(cb.ret, t') == Some(b.v) && Settled(cb.ret, b, s, cb.gen)
    decreases e, 0, 0
  {
    hide Eval, EvalPlace, LowerExpr, WellTyped, Modulus, UniqueLabels, CodeAt, Frame, Agree, Settled, Below, StoreOk,
      TwinReady, Read, ReadAs, Iter, Step, FindLabel, Effect, TypeOf, Unparen;
    var h := if e.compound then ca.gen + 1 else ca.gen;
    var q3 := q2 + |cb.ops|;
    SourceReady(code, layout, e, s, w, g, h, ud', tw', a);
    var j, x := ExprSim(code, layout, e.source, SharedOf(e), tw', ud', a.st, w, h, ca.lab, q2, cb, b);
    Chain(code, layout, from, i, Running(q2, w), j, Running(q3, x));
    RangeOf(code, layout, e.source, SharedOf(e), tw', ud', a.st, w, h, b);
    SourceDone(layout, e, s, t, w, x, g, ca, cb, h, tw', a, b);
    var dst := Variable(l, e.aty);
    StoreEffect(layout, cb.ret, ca.ret, l, a.v, b.v, x, e.aty, b.st);
    k, t' := AssignEnd(code, layout, from, i + j, q3, t, x, b.st, a.wr + b.wr, Store(cb.ret, ca.ret), dst, cb.ret, b.v, g, cb.gen);
  }

  lemma SourceReady(code: seq<IrOp>, layout: Layout, e: Expr, s: Store, w: Store, g: int, h: int,
                    ud': Option<IrVal>, tw': Option<TwinValue>, a: Res)
    requires e.Assign? && UniqueLabels(code) && WellTyped(layout, e.source, SharedOf(e)) && StoreOk(layout, a.st)
    requires a.st.Keys == s.Keys && Below(s, g) && g <= h && TwinReady(tw', ud', SharedOf(e), a.st, w, h) && Agree(a.st, w)
    ensures Ready(code, layout, e.source, SharedOf(e), tw', ud', a.st, w, h)
  {
    hide WellTyped, UniqueLabels, StoreOk, Agree, TwinReady;
  }

  /** The address survives the evaluation of the right-hand side. */
  lemma SourceDone(layout: Layout, e: Expr, s: Store, t: Store, w: Store, x: Store, g: int, ca: ExprCode, cb: ExprCode, h: int,
                   tw': Option<TwinValue>, a: Res, b: Res)
    requires e.Assign? && Eval(layout, e.source, tw', a.st) == Some(b) && Unsequenced(a, b) && a.st.Keys == s.Keys && Below(s, g)
    requires Simulated(e.source, cb, b, a.st, w, x, h) && Frame(t, w, a.wr, g, h) && g <= ca.gen <= h
    requires Read(ca.ret, w) == Some(a.v) && Settled(ca.ret, a, s, ca.gen)
    ensures Read(ca.ret, x) == Some(a.v) && Frame(t, x, a.wr + b.wr, g, cb.gen) && Settled(cb.ret, b, s, cb.gen)
    ensures b.st.Keys == s.Keys
  {
    assert b.wr <= s.Keys && b.st.Keys == s.Keys;
    hide Eval, TypeOf;
    OperandStable(ca.ret, a, s, w, x, b.wr, h, cb.gen);
    FrameTrans(t, w, x, a.wr, b.wr, g, h, cb.gen);
  }

  lemma StoreEffect(layout: Layout, src: IrVal, ptr: IrVal, l: Loc, address: nat, v: nat, x: Store, ty: CType, s: Store)
    requires src.ty == ty && v < Modulus(ty) && Read(src, x) == Some(v) && Read(ptr, x) == Some(address)
    requires LocAt(layout, address, ty.Size()) == Some(l) && l in s && Agree(s, x)
    ensures Effect(layout, Store(src, ptr), x) == Write(Variable(l, ty), v, x)
  {
    WriteBits(Variable(l, ty), x, v);
  }

  // ------------------------------------------------- increment and decrement

  lemma {:induction false} IncDecSim(code: seq<IrOp>, layout: Layout, e: Expr, shared: Option<Expr>, tw: Option<TwinValue>,
      ud: Option<IrVal>, s: Store, t: Store, g: int, n: int, p: nat, c: ExprCode, r: Res) returns (k: nat, t': Store)
    requires e.IncDec?
    requires Ready(code, layout, e, shared, tw, ud, s, t, g)
    requires LowerExpr(e, ud, g, n) == c && Eval(layout, e, tw, s) == Some(r) && CodeAt(code, p, c.ops)
    ensures Iter(code, layout, Running(p, t), k) == Running(p + |c.ops|, t') && Simulated(e, c, r, s, t, t', g)
    decreases e, 2
  {
    if Unparen(e.place).Deref? {
      k, t' := IncDecIndirectSim(code, layout, e, shared, tw, ud, s, t, g, n, p, c, r);
    } else {
      k, t' := IncDecDirectSim(code, layout, e, shared, tw, ud, s, t, g, n, p, c, r);
    }
  }

  /** The operation in the middle of an increment or decrement. */
  lemma IncDecEffect(layout: Layout, increment: bool, place: IrVal, b: nat, u: Store)
    requires place.Variable? && Read(place, u) == Some(b) && b < Modulus(place.ty)
    ensures Straight(IncDecOp(increment, place, place.ty))
    ensures Effect(layout, IncDecOp(increment, place, place.ty), u) == Some(u[place.loc := IncDecValue(increment, place.ty, b)])
  {
    var t := place.ty;
    var v := IncDecValue(increment, t, b);
    WriteBits(place, u, v);
    if t.Pointer? {
      PointerStep(increment, t, b);
      hide IncDecValue;
      PointerStepEffect(layout, place, if increment then 1 else -1, t.referent.Size(), b, v, u);
    } else {
      BumpRefines(t, increment, b);
      hide IncDecValue;
      SmallMod(v, Modulus(t));
    }
  }

  lemma PointerStep(increment: bool, t: CType, b: nat)
    requires t.Pointer?
    ensures IncDecValue(increment, t, b) == Bits(t, b + Bits(Long, if increment then 1 else -1) * t.referent.Size())
  {
    var m, size := Modulus(Long), t.referent.Size();
    var d: int := if increment then 1 else -1;
    var low := Bits(Long, d);
    assert d == low + (d / m) * m;
    ScaledBits(m, b, d, low, d / m, size);
    assert IncDecValue(increment, t, b) == Bits(t, b + d * size);
  }

  lemma PointerStepEffect(layout: Layout, place: IrVal, d: int, size: nat, b: nat, v: nat, u: Store)
    requires place.Variable? && Read(place, u) == Some(b) && v == Bits(place.ty, b + Bits(Long, d) * size)
    ensures Effect(layout, PointerAdd(place, Constant(d, Long), size, place), u) == Write(place, v, u)
  {
    hide Modulus;
    var w := b + Bits(Long, d) * size;
    BitsTwice(place.ty, w);
  }

  lemma BitsTwice(t: CType, w: int)
    ensures Bits(t, Bits(t, w)) == Bits(t, w)
  {
    BitsFixed(t, Bits(t, w));
  }

  lemma IncDecDirectParts(layout: Layout, e: Expr, shared: Option<Expr>, tw: Option<TwinValue>, ud: Option<IrVal>, s: Store,
      g: int, n: int, c: ExprCode, r: Res) returns (l: Loc)
    requires e.IncDec? && !Unparen(e.place).Deref? && WellTyped(layout, e, shared) && LowerExpr(e, ud, g, n) == c && Eval(layout, e, tw, s) == Some(r)
    ensures l in s && l in layout && layout[l].size == e.ity.Size()
    ensures var v := IncDecValue(e.increment, e.ity, s[l]);
            r == Res(if e.prefix then v else s[l], s[l := v], {l}, {l}, {l})
    ensures c == if e.prefix then ExprCode([IncDecOp(e.increment, Variable(l, e.ity), e.ity)], Variable(l, e.ity), g, n)
                 else ExprCode([Copy(Variable(l, e.ity), Temp(g, e.ity))] + [IncDecOp(e.increment, Variable(l, e.ity), e.ity)],
                               Temp(g, e.ity), g + 1, n)
  {
    UnparenTyped(layout, e.place, shared);
    var (l', a) := EvalPlace(layout, e.place, tw, s).value;
    l := l';
    assert a == Res(0, s, {}, {}, {});
    assert {} + {l} == {l};
  }

  lemma {:induction false} IncDecDirectSim(code: seq<IrOp>, layout: Layout, e: Expr, shared: Option<Expr>, tw: Option<TwinValue>,
      ud: Option<IrVal>, s: Store, t: Store, g: int, n: int, p: nat, c: ExprCode, r: Res) returns (k: nat, t': Store)
    requires e.IncDec? && !Unparen(e.place).Deref?
    requires Ready(code, layout, e, shared, tw, ud, s, t, g)
    requires LowerExpr(e, ud, g, n) == c && Eval(layout, e, tw, s) == Some(r) && CodeAt(code, p, c.ops)
    ensures Iter(code, layout, Running(p, t), k) == Running(p + |c.ops|, t') && Simulated(e, c, r, s, t, t', g)
    decreases e, 1
  {
    hide Eval, EvalPlace, LowerExpr, WellTyped, Modulus, UniqueLabels, IncDecOp, IncDecValue, Step, StoreOk;
    var l := IncDecDirectParts(layout, e, shared, tw, ud, s, g, n, c, r);
    var place, stash := Variable(l, e.ity), Temp(g, e.ity);
    var op, v := IncDecOp(e.increment, place, e.ity), IncDecValue(e.increment, e.ity, s[l]);
    assert Iter(code, layout, Running(p, t), 0) == Running(p, t);
    CellInRange(layout, s, l, e.ity);
    ReadBits(place, t, s[l]);
    EvalRange(layout, e, shared, tw, s);
    if e.prefix {
      IncDecEffect(layout, e.increment, place, s[l], t);
      t' := t[l := v];
      assert code[p + 0] == c.ops[0];
      ThenStep(code, layout, Running(p, t), 0, p, t, t');
      k := 1;
      ReadBits(place, t', v);
    } else {
      assert code[p + 0] == c.ops[0] && code[p + 1] == c.ops[1];
      var j, u := FreshResult(code, layout, Running(p, t), 0, p, t, t, s, {}, Copy(place, stash), stash, s[l], g);
      IncDecEffect(layout, e.increment, place, s[l], u);
      t' := u[l := v];
      ThenStep(code, layout, Running(p, t), j, p + 1, u, t');
      k := j + 1;
    }
  }

  lemma IncDecIndirectParts(layout: Layout, e: Expr, shared: Option<Expr>, tw: Option<TwinValue>, ud: Option<IrVal>, s: Store,
      g: int, n: int, c: ExprCode, r: Res) returns (d: Expr, ca: ExprCode, a: Res, l: Loc)
    requires e.IncDec? && Unparen(e.place).Deref? && WellTyped(layout, e, shared) && LowerExpr(e, ud, g, n) == c && Eval(layout, e, tw, s) == Some(r)
    ensures d == Unparen(e.place).pointer && d < e && WellTyped(layout, d, shared) && TypeOf(d) == Pointer(e.ity)
    ensures LowerExpr(d, ud, g, n) == ca && Eval(layout, d, tw, s) == Some(a)
    ensures LocAt(layout, a.v, e.ity.Size()) == Some(l) && l in a.st && a.st.Keys == s.Keys
    ensures var v := IncDecValue(e.increment, e.ity, a.st[l]);
            r == Res(if e.prefix then v else a.st[l], a.st[l := v], a.rd + {l}, a.wr + {l}, r.pending)
    ensures var work, stash := Temp(ca.gen, e.ity), Temp(ca.gen + 1, e.ity);
            c == ExprCode(ca.ops + (if e.prefix then [] else [Load(ca.ret, stash)])
                          + [Load(ca.ret, work), IncDecOp(e.increment, work, e.ity), Store(work, ca.ret)],
                          if e.prefix then work else stash, if e.prefix then ca.gen + 1 else ca.gen + 2, ca.lab)
  {
    hide Eval, LowerExpr, WellTyped, IncDecValue, IncDecOp, LocAt;
    d := Unparen(e.place).pointer;
    ca := LowerExpr(d, ud, g, n);
    a, l := IncDecMeaning(layout, e, shared, tw, s, r);
    IncDecCode(layout, e, shared, ud, g, n);
  }

  lemma IncDecMeaning(layout: Layout, e: Expr, shared: Option<Expr>, tw: Option<TwinValue>, s: Store, r: Res) returns (a: Res, l: Loc)
    requires e.IncDec? && Unparen(e.place).Deref? && WellTyped(layout, e, shared) && Eval(layout, e, tw, s) == Some(r)
    ensures var d := Unparen(e.place).pointer;
            d < e && WellTyped(layout, d, shared) && TypeOf(d) == Pointer(e.ity) && Eval(layout, d, tw, s) == Some(a)
    ensures LocAt(layout, a.v, e.ity.Size()) == Some(l) && l in a.st && a.st.Keys == s.Keys
    ensures var v := IncDecValue(e.increment, e.ity, a.st[l]);
            r == Res(if e.prefix then v else a.st[l], a.st[l := v], a.rd + {l}, a.wr + {l}, r.pending)
  {
    hide IncDecValue, LocAt;
    UnparenTyped(layout, e.place, shared);
    var (l', a') := EvalPlace(layout, e.place, tw, s).value;
    l, a := l', a';
  }

  lemma IncDecCode(layout: Layout, e: Expr, shared: Option<Expr>, ud: Option<IrVal>, g: int, n: int)
    requires e.IncDec? && Unparen(e.place).Deref? && WellTyped(layout, e, shared)
    ensures var ca := LowerExpr(Unparen(e.place).pointer, ud, g, n);
            var work, stash := Temp(ca.gen, e.ity), Temp(ca.gen + 1, e.ity);
            LowerExpr(e, ud, g, n) == ExprCode(ca.ops + (if e.prefix then [] else [Load(ca.ret, stash)])
                          + [Load(ca.ret, work), IncDecOp(e.increment, work, e.ity), Store(work, ca.ret)],
                          if e.prefix then work else stash, if e.prefix then ca.gen + 1 else ca.gen + 2, ca.lab)
  {
    hide IncDecOp;
    assert Unparen(e.place).dty == e.ity;
  }

  /** Where the pieces of an update through a pointer lie: the address before q1,
      the three operations of the update from q2 on. */
  ghost predicate UpdatePlaced(code: seq<IrOp>, p: nat, q1: nat, q2: nat, prefix: bool, increment: bool, ca: ExprCode, ty: CType) {
    && q1 == p + |ca.ops| && q2 == (if prefix then q1 else q1 + 1) && q2 + 3 <= |code|
    && CodeAt(code, p, ca.ops) && (!prefix ==> code[q1] == Load(ca.ret, Temp(ca.gen + 1, ty)))
    && code[q2] == Load(ca.ret, Temp(ca.gen, ty)) && code[q2 + 1] == IncDecOp(increment, Temp(ca.gen, ty), ty)
    && code[q2 + 2] == Store(Temp(ca.gen, ty), ca.ret)
  }

  lemma UpdatePlaces(code: seq<IrOp>, p: nat, prefix: bool, increment: bool, ca: ExprCode, ty: CType)
    requires var work := Temp(ca.gen, ty);
             CodeAt(code, p, ca.ops + (if prefix then [] else [Load(ca.ret, Temp(ca.gen + 1, ty))])
                             + [Load(ca.ret, work), IncDecOp(increment, work, ty), Store(work, ca.ret)])
    ensures var q1 := p + |ca.ops|;
            UpdatePlaced(code, p, q1, if prefix then q1 else q1 + 1, prefix, increment, ca, ty)
  {
    var work := Temp(ca.gen, ty);
    var keep := if prefix then [] else [Load(ca.ret, Temp(ca.gen + 1, ty))];
    var update := [Load(ca.ret, work), IncDecOp(increment, work, ty), Store(work, ca.ret)];
    Split(code, p, ca.ops + keep, update);
    if prefix {
      assert ca.ops + keep == ca.ops;
    } else {
      Append(code, p, ca.ops, keep[0]);
    }
    var q2 := p + |ca.ops + keep|;
    assert code[q2 + 0] == update[0] && code[q2 + 1] == update[1] && code[q2 + 2] == update[2];
  }

  lemma {:induction false} IncDecIndirectSim(code: seq<IrOp>, layout: Layout, e: Expr, shared: Option<Expr>, tw: Option<TwinValue>,
      ud: Option<IrVal>, s: Store, t: Store, g: int, n: int, p: nat, c: ExprCode, r: Res) returns (k: nat, t': Store)
    requires e.IncDec? && Unparen(e.place).Deref?
    requires Ready(code, layout, e, shared, tw, ud, s, t, g)
    requires LowerExpr(e, ud, g, n) == c && Eval(layout, e, tw, s) == Some(r) && CodeAt(code, p, c.ops)
    ensures Iter(code, layout, Running(p, t), k) == Running(p + |c.ops|, t') && Simulated(e, c, r, s, t, t', g)
    decreases e, 1
  {
    hide Eval, EvalPlace, LowerExpr, WellTyped, Modulus, UniqueLabels, CodeAt, Frame, Agree, Settled, Below, StoreOk,
      TwinReady, Read, ReadAs, Iter, Step, FindLabel, Effect, TypeOf, Unparen, IncDecOp, IncDecValue, Simulated, LocAt, UpdatePlaced;
    var d, ca, a, l := IncDecIndirectParts(layout, e, shared, tw, ud, s, g, n, c, r);
    var q1 := p + |ca.ops|;
    var q2 := if e.prefix then q1 else q1 + 1;
    UpdatePlaces(code, p, e.prefix, e.increment, ca, e.ity);
    ReadyFirst(code, layout, e, d, shared, tw, ud, s, t, g, g);
    RangeOf(code, layout, d, shared, tw, ud, s, t, g, a);
    var j, u := ExprSim(code, layout, d, shared, tw, ud, s, t, g, n, p, ca, a);
    BelowHere(code, layout, e, shared, tw, ud, s, t, g);
    k, t' := StepThrough(code, layout, Running(p, t), j, p, q1, q2, e, d, s, t, u, g, c, ca, a, r, l);
  }

  lemma BelowHere(code: seq<IrOp>, layout: Layout, e: Expr, shared: Option<Expr>, tw: Option<TwinValue>, ud: Option<IrVal>, s: Store,
                  t: Store, g: int)
    requires Ready(code, layout, e, shared, tw, ud, s, t, g)
    ensures Below(s, g)
  {
    hide UniqueLabels, WellTyped, StoreOk, Agree, TwinReady;
  }

  /** From the pointer to the end of a step through it. */
  lemma StepThrough(code: seq<IrOp>, layout: Layout, from: Config, j: nat, p: nat, q1: nat, q2: nat, e: Expr, d: Expr, s: Store, t: Store,
                    u: Store, g: int, c: ExprCode, ca: ExprCode, a: Res, r: Res, l: Loc) returns (k: nat, t': Store)
    requires e.IncDec? && UpdatePlaced(code, p, q1, q2, e.prefix, e.increment, ca, e.ity)
    requires Iter(code, layout, from, j) == Running(q1, u) && Simulated(d, ca, a, s, t, u, g)
    requires TypeOf(d) == Pointer(e.ity) && StoreOk(layout, a.st) && a.v < Modulus(TypeOf(d)) && Below(s, g)
    requires LocAt(layout, a.v, e.ity.Size()) == Some(l) && l in a.st && a.st.Keys == s.Keys
    requires c.gen == (if e.prefix then ca.gen + 1 else ca.gen + 2)
    requires c.ret == if e.prefix then Temp(ca.gen, e.ity) else Temp(ca.gen + 1, e.ity)
    requires var v := IncDecValue(e.increment, e.ity, a.st[l]);
             r == Res(if e.prefix then v else a.st[l], a.st[l := v], a.rd + {l}, a.wr + {l}, r.pending)
    ensures Iter(code, layout, from, k) == Running(q2 + 3, t') && Simulated(e, c, r, s, t, t', g)
  {
    hide Modulus, UniqueLabels, CodeAt, Frame, Agree, Settled, Below, StoreOk, Read, ReadAs, Iter, Step, Effect, TypeOf, IncDecOp, IncDecValue,
      LocAt, Simulated;
    SimulatedMeans(d, ca, a, s, t, u, g);
    var i, w := StashSim(code, layout, from, j, q1, t, u, a, e.prefix, ca.ret, e.ity, l, g, ca.gen, s);
    BelowMore(s, g, ca.gen);
    k, t' := UpdateSim(code, layout, from, i, q2, w, a, e.increment, ca.ret, e.ity, l, ca.gen, s);
    UpdateFrame(e, c, a, r, s, t, w, t', l, g, ca.gen);
  }

  lemma BelowMore(s: Store, g: int, g': int)
    requires Below(s, g) && g <= g'
    ensures Below(s, g')
  {
  }

  lemma UpdateFrame(e: Expr, c: ExprCode, a: Res, r: Res, s: Store, t: Store, w: Store, t': Store, l: Loc, g: int, h: int)
    requires e.IncDec? && l in a.st && a.st.Keys == s.Keys && Below(s, g) && g <= h
    requires c.gen == (if e.prefix then h + 1 else h + 2)
    requires c.ret == if e.prefix then Temp(h, e.ity) else Temp(h + 1, e.ity)
    requires var v := IncDecValue(e.increment, e.ity, a.st[l]);
             && r == Res(if e.prefix then v else a.st[l], a.st[l := v], a.rd + {l}, a.wr + {l}, r.pending)
             && t' == w[Tmp(h) := v][l := v] && Read(Temp(h, e.ity), t') == Some(v)
    requires Agree(a.st, w) && Frame(t, w, a.wr, g, h + 2) && (e.prefix ==> Frame(t, w, a.wr, g, h))
    requires !e.prefix ==> Read(Temp(h + 1, e.ity), w) == Some(a.st[l])
    ensures Simulated(e, c, r, s, t, t', g)
  {
    hide IncDecValue, Modulus;
    assert Tmp(h) !in s && Tmp(h + 1) !in s;
    assert Agree(r.st, t') && Frame(t, t', r.wr, g, c.gen);
  }

  /** A postfix operator first saves the old value. */
  lemma StashSim(code: seq<IrOp>, layout: Layout, from: Config, j: nat, q: nat, t: Store, u: Store, a: Res, prefix: bool, ptr: IrVal,
                 ty: CType, l: Loc, g: int, h: int, s: Store) returns (k: nat, w: Store)
    requires !prefix ==> q < |code| && code[q] == Load(ptr, Temp(h + 1, ty))
    requires Iter(code, layout, from, j) == Running(q, u) && Frame(t, u, a.wr, g, h) && g <= h
    requires Agree(a.st, u) && StoreOk(layout, a.st) && a.st.Keys == s.Keys && Below(s, g)
    requires LocAt(layout, a.v, ty.Size()) == Some(l) && l in a.st && Read(ptr, u) == Some(a.v) && Settled(ptr, a, s, h)
    ensures Iter(code, layout, from, k) == Running(if prefix then q else q + 1, w)
    ensures Agree(a.st, w) && Frame(t, w, a.wr, g, h + 2) && Read(ptr, w) == Some(a.v)
    ensures prefix ==> Frame(t, w, a.wr, g, h)
    ensures !prefix ==> Read(Temp(h + 1, ty), w) == Some(a.st[l])
  {
    if prefix {
      k, w := j, u;
    } else {
      CellInRange(layout, a.st, l, ty);
      hide Modulus;
      var dst := Temp(h + 1, ty);
      k, w := FreshResult(code, layout, from, j, q, t, u, a.st, a.wr, Load(ptr, dst), dst, a.st[l], g);
    }
  }

  /** Load, change, store. */
  lemma UpdateSim(code: seq<IrOp>, layout: Layout, from: Config, j: nat, q: nat, u: Store, a: Res, increment: bool, ptr: IrVal,
                  ty: CType, l: Loc, h: int, s: Store) returns (k: nat, t': Store)
    requires q + 3 <= |code| && code[q] == Load(ptr, Temp(h, ty)) && code[q + 1] == IncDecOp(increment, Temp(h, ty), ty)
    requires code[q + 2] == Store(Temp(h, ty), ptr)
    requires Iter(code, layout, from, j) == Running(q, u)
    requires Agree(a.st, u) && StoreOk(layout, a.st) && a.st.Keys == s.Keys && Below(s, h)
    requires LocAt(layout, a.v, ty.Size()) == Some(l) && l in a.st && Read(ptr, u) == Some(a.v) && Settled(ptr, a, s, h)
    ensures var v := IncDecValue(increment, ty, a.st[l]);
            && t' == u[Tmp(h) := v][l := v] && Read(Temp(h, ty), t') == Some(v)
    ensures Iter(code, layout, from, k) == Running(q + 3, t')
  {
    var work, before := Temp(h, ty), a.st[l];
    CellInRange(layout, a.st, l, ty);
    hide Modulus, IncDecOp, IncDecValue, Iter, Step, FindLabel, Below, StoreOk;
    var v := IncDecValue(increment, ty, before);
    WriteBits(work, u, before);
    var u1 := u[Tmp(h) := before];
    ThenStep(code, layout, from, j, q, u, u1);
    ReadBits(work, u1, before);
    IncDecEffect(layout, increment, work, before, u1);
    var u2 := u1[Tmp(h) := v];
    assert u2 == u[Tmp(h) := v];
    ThenStep(code, layout, from, j + 1, q + 1, u1, u2);
    IncDecInRange(increment, ty, before);
    ReadBits(work, u2, v);
    t' := u2[l := v];
    ThenStep(code, layout, from, j + 2, q + 2, u2, t');
    ReadBits(work, t', v);
    k := j + 3;
  }

  lemma CellInRange(layout: Layout, s: Store, l: Loc, ty: CType)
    requires StoreOk(layout, s) && l in s && layout[l].size == ty.Size()
    ensures s[l] < Modulus(ty)
  {
  }

  lemma IncDecInRange(increment: bool, ty: CType, b: nat)
    ensures IncDecValue(increment, ty, b) < Modulus(ty)
  {
  }
}
