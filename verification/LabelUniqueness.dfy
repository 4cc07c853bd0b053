/** The labels of a lowered function: every number is defined once. */
module LabelUniqueness {
  import opened Wrappers
  import opened CTypes
  import opened CAst
  import opened Ir
  import opened Lowering
  import opened Simulation

  /** The numbers that a list of operations defines. */
  ghost function Ids(ops: seq<IrOp>): set<int> {
    set i | 0 <= i < |ops| && ops[i].LabelAt? :: ops[i].id
  }

  predicate Within(x: int, lo: int, hi: int) {
    lo <= x < hi
  }

  lemma Concat(a: seq<IrOp>, b: seq<IrOp>)
    requires UniqueLabels(a) && UniqueLabels(b) && (forall x :: x in Ids(a) ==> x !in Ids(b))
    ensures UniqueLabels(a + b) && Ids(a + b) == Ids(a) + Ids(b)
  {
    var c := a + b;
    assert forall i :: 0 <= i < |a| && c[i].LabelAt? ==> c[i] == a[i] && a[i].id in Ids(a);
    assert forall i :: |a| <= i < |c| && c[i].LabelAt? ==> c[i] == b[i - |a|] && b[i - |a|].id in Ids(b);
    forall x ensures x in Ids(c) <==> x in Ids(a) + Ids(b) {
      if x in Ids(a) {
        var i :| 0 <= i < |a| && a[i].LabelAt? && a[i].id == x;
        assert c[i] == a[i];
      }
      if x in Ids(b) {
        var i :| 0 <= i < |b| && b[i].LabelAt? && b[i].id == x;
        assert c[|a| + i] == b[i];
      }
    }
  }

  lemma NoLabel(op: IrOp)
    requires !op.LabelAt?
    ensures UniqueLabels([op]) && Ids([op]) == {}
  {
  }

  lemma OneLabel(x: int)
    ensures UniqueLabels([LabelAt(x)]) && Ids([LabelAt(x)]) == {x}
  {
    assert [LabelAt(x)][0] == LabelAt(x);
  }

  /** Operations without labels in front or behind change nothing. */
  lemma Pad(a: seq<IrOp>, op: IrOp)
    requires UniqueLabels(a) && !op.LabelAt?
    ensures UniqueLabels(a + [op]) && Ids(a + [op]) == Ids(a)
  {
    NoLabel(op);
    Concat(a, [op]);
  }

  lemma Close(a: seq<IrOp>, x: int)
    requires UniqueLabels(a) && x !in Ids(a)
    ensures UniqueLabels(a + [LabelAt(x)]) && Ids(a + [LabelAt(x)]) == Ids(a) + {x}
  {
    OneLabel(x);
    Concat(a, [LabelAt(x)]);
  }

  // --------------------------------------------------------------- expressions

  /** The labels of an expression are new: its own range of the counter. */
  ghost predicate OwnLabels(ops: seq<IrOp>, lo: int, hi: int) {
    UniqueLabels(ops) && forall x :: x in Ids(ops) ==> Within(x, lo, hi)
  }

  lemma DisjointOwn(a: seq<IrOp>, b: seq<IrOp>, lo: int, mid: int, hi: int)
    requires OwnLabels(a, lo, mid) && OwnLabels(b, mid, hi)
    ensures Ids(a) !! Ids(b)
  {
    hide UniqueLabels, Ids;
    forall x | x in Ids(a) ensures x !in Ids(b) {
    }
  }

  lemma OwnConcat(a: seq<IrOp>, b: seq<IrOp>, lo: int, mid: int, hi: int)
    requires OwnLabels(a, lo, mid) && OwnLabels(b, mid, hi) && lo <= mid <= hi
    ensures OwnLabels(a + b, lo, hi)
  {
    DisjointOwn(a, b, lo, mid, hi);
    Concat(a, b);
    forall x | x in Ids(a + b) ensures Within(x, lo, hi) {
      assert x in Ids(a) || x in Ids(b);
      assert Within(x, lo, mid) || Within(x, mid, hi);
    }
  }

  lemma OwnPad(a: seq<IrOp>, op: IrOp, lo: int, hi: int)
    requires OwnLabels(a, lo, hi) && !op.LabelAt?
    ensures OwnLabels(a + [op], lo, hi)
  {
    Pad(a, op);
  }

  lemma OwnWiden(a: seq<IrOp>, lo: int, hi: int, lo': int, hi': int)
    requires OwnLabels(a, lo, hi) && lo' <= lo && hi <= hi'
    ensures OwnLabels(a, lo', hi')
  {
    forall x | x in Ids(a) ensures Within(x, lo', hi') {
      assert Within(x, lo, hi);
    }
  }

  lemma OwnClose(a: seq<IrOp>, x: int, lo: int, hi: int)
    requires OwnLabels(a, lo, hi) && Within(x, lo, hi) && x !in Ids(a)
    ensures OwnLabels(a + [LabelAt(x)], lo, hi)
  {
    Close(a, x);
  }

  lemma NotIn(a: seq<IrOp>, lo: int, hi: int, x: int)
    requires OwnLabels(a, lo, hi) && !Within(x, lo, hi)
    ensures x !in Ids(a)
  {
  }

  lemma FinishOwn(op: BinaryOp, lt: CType, rt: CType, t: CType, a: IrVal, b: IrVal, g: int, n: int)
    ensures OwnLabels(FinishBinary(op, lt, rt, t, a, b, g).ops, n, n)
  {
    var ops := FinishBinary(op, lt, rt, t, a, b, g).ops;
    assert |ops| == 2 ==> !ops[0].LabelAt? && !ops[1].LabelAt?;
    assert |ops| == 1 ==> !ops[0].LabelAt?;
    assert Ids(ops) == {};
  }

  lemma {:induction false} ExprLabels(e: Expr, ud: Option<IrVal>, g: int, n: int)
    ensures var c := LowerExpr(e, ud, g, n); OwnLabels(c.ops, n, c.lab)
    decreases e, 1
  {
    match e
    case Const(_, _) =>
    case Var(_, _) =>
    case Paren(i) => ExprLabels(i, ud, g, n);
    case Unary(op, o, t) =>
      var c := LowerExpr(o, ud, g, n);
      ExprLabels(o, ud, g, n);
      OwnPad(c.ops, UnaryOf(op, c.ret, Temp(c.gen, t)), n, c.lab);
    case Binary(op, x, y, t) =>
      var a := LowerExpr(x, ud, g, n);
      var b := LowerExpr(y, ud, a.gen, a.lab);
      ExprLabels(x, ud, g, n);
      ExprLabels(y, ud, a.gen, a.lab);
      OwnConcat(a.ops, b.ops, n, a.lab, b.lab);
      FinishOwn(op, TypeOf(x), TypeOf(y), t, a.ret, b.ret, b.gen, b.lab);
      OwnConcat(a.ops + b.ops, FinishBinary(op, TypeOf(x), TypeOf(y), t, a.ret, b.ret, b.gen).ops, n, b.lab, b.lab);
    case Logical(_, _, _) => LogicalLabels(e, ud, g, n);
    case Ternary(_, _, _, _) => TernaryLabels(e, ud, g, n);
    case Assign(_, _, _, _) => AssignLabels(e, ud, g, n);
    case Twin(s) =>
      if ud.None? {
        ExprLabels(s, None, g, n);
      }
    case IncDec(_, _, _, _) => IncDecLabels(e, ud, g, n);
    case Deref(p, t) =>
      if Unparen(p).AddressOf? {
        ExprLabels(Unparen(p).lvalue, ud, g, n);
      } else {
        var c := LowerExpr(p, ud, g, n);
        ExprLabels(p, ud, g, n);
        OwnPad(c.ops, Load(c.ret, Temp(c.gen, t)), n, c.lab);
      }
    case AddressOf(o, t) =>
      if Unparen(o).Deref? {
        ExprLabels(Unparen(o).pointer, ud, g, n);
      } else {
        var c := LowerExpr(o, ud, g, n);
        ExprLabels(o, ud, g, n);
        OwnPad(c.ops, GetAddress(c.ret, Temp(c.gen, t)), n, c.lab);
      }
    case Cast(f, t) =>
      var c := LowerExpr(f, ud, g, n);
      ExprLabels(f, ud, g, n);
      OwnPad(c.ops, CastOp(TypeOf(f), t, c.ret, Temp(c.gen, t)), n, c.lab);
  }

  lemma {:induction false} LogicalLabels(e: Expr, ud: Option<IrVal>, g: int, n: int)
    requires e.Logical?
    ensures var c := LowerExpr(e, ud, g, n); OwnLabels(c.ops, n, c.lab)
    decreases e, 0
  {
    var a := LowerExpr(e.lhs, ud, g, n + 1);
    var b := LowerExpr(e.rhs, ud, a.gen, a.lab);
    ExprLabels(e.lhs, ud, g, n + 1);
    ExprLabels(e.rhs, ud, a.gen, a.lab);
    var x, y, dst, end := ShortCircuit(e.isAnd, a.ret, n), ShortCircuit(e.isAnd, b.ret, n), Temp(b.gen, Int), b.lab;
    var f := LogicalFooter(e.isAnd, dst, n, end);
    assert LowerExpr(e, ud, g, n).ops == a.ops + [x] + b.ops + [y] + f;
    hide LowerExpr, LogicalFooter;
    OwnPad(a.ops, x, n + 1, a.lab);
    OwnConcat(a.ops + [x], b.ops, n + 1, a.lab, b.lab);
    OwnPad(a.ops + [x] + b.ops, y, n + 1, b.lab);
    var ops := a.ops + [x] + b.ops + [y];
    NotIn(ops, n + 1, b.lab, n);
    NotIn(ops, n + 1, b.lab, end);
    FooterLabels(e.isAnd, dst, n, end);
    Concat(ops, f);
    OwnWiden(ops, n + 1, b.lab, n, b.lab + 1);
  }

  lemma FooterLabels(isAnd: bool, dst: IrVal, l: int, end: int)
    requires l != end
    ensures UniqueLabels(LogicalFooter(isAnd, dst, l, end)) && Ids(LogicalFooter(isAnd, dst, l, end)) == {l, end}
  {
    var f := LogicalFooter(isAnd, dst, l, end);
    assert f[2] == LabelAt(l) && f[4] == LabelAt(end);
  }

  lemma {:induction false} TernaryLabels(e: Expr, ud: Option<IrVal>, g: int, n: int)
    requires e.Ternary?
    ensures var c := LowerExpr(e, ud, g, n); OwnLabels(c.ops, n, c.lab)
    decreases e, 0
  {
    var k := LowerExpr(e.cond, ud, g + 1, n + 2);
    var a := LowerExpr(e.thn, ud, k.gen, k.lab);
    var b := LowerExpr(e.els, ud, a.gen, a.lab);
    ExprLabels(e.cond, ud, g + 1, n + 2);
    ExprLabels(e.thn, ud, k.gen, k.lab);
    ExprLabels(e.els, ud, a.gen, a.lab);
    var jz, ca, cb := JumpIfZero(k.ret, n), Copy(a.ret, Temp(g, TypeOf(e.thn))), Copy(b.ret, Temp(g, TypeOf(e.els)));
    assert LowerExpr(e, ud, g, n).ops == k.ops + [jz] + (a.ops + [ca] + [Jump(n + 1), LabelAt(n)]) + (b.ops + [cb] + [LabelAt(n + 1)]);
    assert k.ops + [jz] + (a.ops + [ca] + [Jump(n + 1), LabelAt(n)]) + (b.ops + [cb] + [LabelAt(n + 1)])
        == k.ops + [jz] + a.ops + [ca] + [Jump(n + 1)] + [LabelAt(n)] + (b.ops + [cb]) + [LabelAt(n + 1)];
    hide LowerExpr;
    TernaryOwn(k.ops, a.ops, b.ops, jz, ca, cb, n, k.lab, a.lab, b.lab);
  }

  lemma TernaryOwn(k: seq<IrOp>, a: seq<IrOp>, b: seq<IrOp>, jz: IrOp, ca: IrOp, cb: IrOp, n: int, nk: int, na: int, nb: int)
    requires OwnLabels(k, n + 2, nk) && OwnLabels(a, nk, na) && OwnLabels(b, na, nb) && n + 2 <= nk <= na <= nb
    requires !jz.LabelAt? && !ca.LabelAt? && !cb.LabelAt?
    ensures OwnLabels(k + [jz] + a + [ca] + [Jump(n + 1)] + [LabelAt(n)] + (b + [cb]) + [LabelAt(n + 1)], n, nb)
  {
    OwnPad(k, jz, n + 2, nk);
    OwnConcat(k + [jz], a, n + 2, nk, na);
    OwnPad(k + [jz] + a, ca, n + 2, na);
    var x := k + [jz] + a + [ca] + [Jump(n + 1)];
    OwnPad(k + [jz] + a + [ca], Jump(n + 1), n + 2, na);
    NotIn(x, n + 2, na, n);
    NotIn(x, n + 2, na, n + 1);
    OwnWiden(x, n + 2, na, n, na);
    OwnClose(x, n, n, na);
    Close(x, n);
    OwnPad(b, cb, na, nb);
    OwnConcat(x + [LabelAt(n)], b + [cb], n, na, nb);
    NotIn(b + [cb], na, nb, n + 1);
    DisjointOwn(x + [LabelAt(n)], b + [cb], n, na, nb);
    Concat(x + [LabelAt(n)], b + [cb]);
    OwnClose(x + [LabelAt(n)] + (b + [cb]), n + 1, n, nb);
  }

  lemma {:induction false} AssignLabels(e: Expr, ud: Option<IrVal>, g: int, n: int)
    requires e.Assign?
    ensures var c := LowerExpr(e, ud, g, n); OwnLabels(c.ops, n, c.lab)
    decreases e, 0
  {
    var u := Unparen(e.target);
    if u.Deref? {
      var a := LowerExpr(u.pointer, ud, g, n);
      var glue := Temp(a.gen, u.dty);
      ExprLabels(u.pointer, ud, g, n);
      if e.compound {
        var b := LowerExpr(e.source, Some(glue), a.gen + 1, a.lab);
        ExprLabels(e.source, Some(glue), a.gen + 1, a.lab);
        hide LowerExpr;
        OwnPad(a.ops, Load(a.ret, glue), n, a.lab);
        OwnConcat(a.ops + [Load(a.ret, glue)], b.ops, n, a.lab, b.lab);
        OwnPad(a.ops + [Load(a.ret, glue)] + b.ops, Store(b.ret, a.ret), n, b.lab);
      } else {
        var b := LowerExpr(e.source, None, a.gen, a.lab);
        ExprLabels(e.source, None, a.gen, a.lab);
        OwnConcat(a.ops, b.ops, n, a.lab, b.lab);
        OwnPad(a.ops + b.ops, Store(b.ret, a.ret), n, b.lab);
      }
    } else {
      var b := LowerExpr(e.source, None, g, n);
      ExprLabels(e.source, None, g, n);
      OwnPad(b.ops, Copy(b.ret, DirectPlace(u, e.aty)), n, b.lab);
    }
  }

  lemma {:induction false} IncDecLabels(e: Expr, ud: Option<IrVal>, g: int, n: int)
    requires e.IncDec?
    ensures var c := LowerExpr(e, ud, g, n); OwnLabels(c.ops, n, c.lab)
    decreases e, 0
  {
    var u, t := Unparen(e.place), e.ity;
    if u.Deref? {
      var a := LowerExpr(u.pointer, ud, g, n);
      ExprLabels(u.pointer, ud, g, n);
      var work, stash := Temp(a.gen, u.dty), Temp(a.gen + 1, t);
      var keep, update := if e.prefix then [] else [Load(a.ret, stash)],
                          [Load(a.ret, work), IncDecOp(e.increment, work, t), Store(work, a.ret)];
      assert LowerExpr(e, ud, g, n).ops == a.ops + keep + update;
      assert Ids(keep) == {} && Ids(update) == {};
      OwnConcat(a.ops, keep, n, a.lab, a.lab);
      OwnConcat(a.ops + keep, update, n, a.lab, a.lab);
    } else {
      assert Ids(LowerExpr(e, ud, g, n).ops) == {};
    }
  }

  // ---------------------------------------------------------------- statements

  /** The labels that the source statement itself carries. */
  function SourceLabels(s: Stmt): set<int> {
    match s
    case Block(f) => SourceLabelsFlat(f)
    case IfElse(_, a, b) => SourceLabelsFlat(a) + if b.Some? then SourceLabelsFlat(b.value) else {}
    case Loop(_, body, _, _, x, y, z) => SourceLabelsFlat(body) + {x, y, z}
    case Switch(_, body, _, end, _) => SourceLabelsFlat(body) + {end}
    case Label(_, x) => {x}
    case Case(_, x) => {x}
    case Default(x) => {x}
    case _ => {}
  }

  function SourceLabelsFlat(f: Flat): set<int> {
    if f.Nil? then {} else SourceLabels(f.car) + SourceLabelsFlat(f.cdr)
  }

  /** No number is given to two labels of the source. */
  predicate SourceDistinct(s: Stmt) {
    match s
    case Block(f) => SourceDistinctFlat(f)
    case IfElse(_, a, b) =>
      SourceDistinctFlat(a) && (b.Some? ==> SourceDistinctFlat(b.value) && SourceLabelsFlat(a) !! SourceLabelsFlat(b.value))
    case Loop(_, body, _, _, x, y, z) =>
      SourceDistinctFlat(body) && x != y && y != z && x != z && SourceLabelsFlat(body) !! {x, y, z}
    case Switch(_, body, _, end, _) => SourceDistinctFlat(body) && end !in SourceLabelsFlat(body)
    case _ => true
  }

  predicate SourceDistinctFlat(f: Flat) {
    f.Cons? ==> SourceDistinct(f.car) && SourceDistinctFlat(f.cdr) && SourceLabels(f.car) !! SourceLabelsFlat(f.cdr)
  }

  /** A piece of code defines the labels `src` of the source, and new ones. */
  ghost predicate Defines(ops: seq<IrOp>, src: set<int>, lo: int, hi: int) {
    && UniqueLabels(ops) && src <= Ids(ops) && lo <= hi
    && (forall x :: x in Ids(ops) ==> x in src || Within(x, lo, hi)) && (forall x :: x in src ==> x < lo)
  }

  lemma DefinesOwn(ops: seq<IrOp>, lo: int, hi: int)
    requires OwnLabels(ops, lo, hi) && lo <= hi
    ensures Defines(ops, {}, lo, hi)
  {
  }

  ghost predicate SourceBelow(src: set<int>, n: int) {
    forall x :: x in src ==> x < n
  }

  lemma GuardLabels(e: Option<Expr>, end: int, g: int, n: int)
    ensures var c := LowerGuard(e, end, g, n); OwnLabels(c.ops, n, c.lab)
  {
    if e.Some? {
      var c := LowerExpr(e.value, None, g, n);
      ExprLabels(e.value, None, g, n);
      OwnPad(c.ops, JumpIfZero(c.ret, end), n, c.lab);
    }
  }

  lemma OptionalLabels(e: Option<Expr>, g: int, n: int)
    ensures var c := LowerOptional(e, g, n); OwnLabels(c.ops, n, c.lab)
  {
    if e.Some? {
      ExprLabels(e.value, None, g, n);
    }
  }

  lemma {:induction false} StmtLabels(s: Stmt, g: int, n: int)
    requires SourceDistinct(s) && SourceBelow(SourceLabels(s), n)
    ensures var c := LowerStmt(s, g, n); Defines(c.ops, SourceLabels(s), n, c.lab)
    decreases s, 1
  {
    match s
    case Expression(e) =>
      OptionalLabels(Some(e), g, n);
      DefinesOwn(LowerStmt(s, g, n).ops, n, LowerStmt(s, g, n).lab);
    case Declare(l, t, init) =>
      if init.Some? {
        var c := LowerExpr(init.value, None, g, n);
        ExprLabels(init.value, None, g, n);
        OwnPad(c.ops, Copy(c.ret, Variable(l, t)), n, c.lab);
        DefinesOwn(c.ops + [Copy(c.ret, Variable(l, t))], n, c.lab);
      }
    case Return(e) =>
      if e.Some? {
        var c := LowerExpr(e.value, None, g, n);
        ExprLabels(e.value, None, g, n);
        OwnPad(c.ops, Ret(Some(c.ret)), n, c.lab);
        DefinesOwn(c.ops + [Ret(Some(c.ret))], n, c.lab);
      }
    case Block(f) => FlatLabels(f, g, n);
    case IfElse(_, _, None) => IfLabels(s, g, n);
    case IfElse(_, _, Some(_)) => IfElseLabels(s, g, n);
    case Loop(_, _, _, _, _, _, _) => LoopLabels(s, g, n);
    case Switch(_, _, _, _, _) => SwitchLabels(s, g, n);
    case Label(_, x) => OneLabel(x);
    case Case(_, x) => OneLabel(x);
    case Default(x) => OneLabel(x);
    case _ =>
  }

  lemma {:induction false} FlatLabels(f: Flat, g: int, n: int)
    requires SourceDistinctFlat(f) && SourceBelow(SourceLabelsFlat(f), n)
    ensures var c := LowerFlat(f, g, n); Defines(c.ops, SourceLabelsFlat(f), n, c.lab)
    decreases f, 0
  {
    if f.Cons? {
      var a := LowerStmt(f.car, g, n);
      var b := LowerFlat(f.cdr, a.gen, a.lab);
      hide Ids, UniqueLabels, LowerStmt;
      StmtLabels(f.car, g, n);
      FlatLabels(f.cdr, a.gen, a.lab);
      Concat(a.ops, b.ops);
    }
  }

  lemma {:induction false} IfLabels(s: Stmt, g: int, n: int)
    requires s.IfElse? && s.elseClause.None?
    requires SourceDistinct(s) && SourceBelow(SourceLabels(s), n)
    ensures var c := LowerStmt(s, g, n); Defines(c.ops, SourceLabels(s), n, c.lab)
    decreases s, 0
  {
    var k := LowerExpr(s.condition, None, g, n + 1);
    var x := LowerFlat(s.thenClause, k.gen, k.lab);
    ExprLabels(s.condition, None, g, n + 1);
    FlatLabels(s.thenClause, k.gen, k.lab);
    var jz := JumpIfZero(k.ret, n);
    assert LowerStmt(s, g, n).ops == k.ops + [jz] + x.ops + [LabelAt(n)];
    hide Ids, UniqueLabels, LowerStmt, LowerExpr, LowerFlat;
    Pad(k.ops, jz);
    Concat(k.ops + [jz], x.ops);
    Close(k.ops + [jz] + x.ops, n);
  }

  lemma {:induction false} IfElseLabels(s: Stmt, g: int, n: int)
    requires s.IfElse? && s.elseClause.Some?
    requires SourceDistinct(s) && SourceBelow(SourceLabels(s), n)
    ensures var c := LowerStmt(s, g, n); Defines(c.ops, SourceLabels(s), n, c.lab)
    decreases s, 0
  {
    var sa, sb := SourceLabelsFlat(s.thenClause), SourceLabelsFlat(s.elseClause.value);
    var k := LowerExpr(s.condition, None, g, n + 2);
    var x := LowerFlat(s.thenClause, k.gen, k.lab);
    var y := LowerFlat(s.elseClause.value, x.gen, x.lab);
    ExprLabels(s.condition, None, g, n + 2);
    FlatLabels(s.thenClause, k.gen, k.lab);
    FlatLabels(s.elseClause.value, x.gen, x.lab);
    assert LowerStmt(s, g, n).ops
        == k.ops + [JumpIfZero(k.ret, n)] + x.ops + [Jump(n + 1)] + [LabelAt(n)] + y.ops + [LabelAt(n + 1)] by {
      assert [Jump(n + 1), LabelAt(n)] == [Jump(n + 1)] + [LabelAt(n)];
    }
    hide LowerStmt, LowerExpr, LowerFlat, SourceLabelsFlat;
    IfElseDefines(k.ops, x.ops, y.ops, k.ret, sa, sb, n, k.lab, x.lab, y.lab);
  }

  lemma IfElseDefines(k: seq<IrOp>, x: seq<IrOp>, y: seq<IrOp>, v: IrVal, sa: set<int>, sb: set<int>, n: int, i: int, j: int, h: int)
    requires OwnLabels(k, n + 2, i) && Defines(x, sa, i, j) && Defines(y, sb, j, h) && n + 2 <= i && sa !! sb
    requires SourceBelow(sa, n) && SourceBelow(sb, n)
    ensures Defines(k + [JumpIfZero(v, n)] + x + [Jump(n + 1)] + [LabelAt(n)] + y + [LabelAt(n + 1)], sa + sb, n, h)
  {
    hide Ids, UniqueLabels;
    var jz := JumpIfZero(v, n);
    Pad(k, jz);
    Concat(k + [jz], x);
    Pad(k + [jz] + x, Jump(n + 1));
    Close(k + [jz] + x + [Jump(n + 1)], n);
    Concat(k + [jz] + x + [Jump(n + 1)] + [LabelAt(n)], y);
    Close(k + [jz] + x + [Jump(n + 1)] + [LabelAt(n)] + y, n + 1);
  }

  lemma {:induction false} LoopLabels(s: Stmt, g: int, n: int)
    requires s.Loop?
    requires SourceDistinct(s) && SourceBelow(SourceLabels(s), n)
    ensures var c := LowerStmt(s, g, n); Defines(c.ops, SourceLabels(s), n, c.lab)
    decreases s, 0
  {
    var start, cont, end := s.labelStart, s.labelContinue, s.labelEnd;
    var sb := SourceLabelsFlat(s.body);
    var p := LowerGuard(s.precond, end, g, n);
    var b := LowerFlat(s.body, p.gen, p.lab);
    var i := LowerOptional(s.incr, b.gen, b.lab);
    var q := LowerGuard(s.postcond, end, i.gen, i.lab);
    GuardLabels(s.precond, end, g, n);
    FlatLabels(s.body, p.gen, p.lab);
    OptionalLabels(s.incr, b.gen, b.lab);
    GuardLabels(s.postcond, end, i.gen, i.lab);
    var c := [LabelAt(start)] + p.ops + b.ops + [LabelAt(cont)] + i.ops + q.ops;
    assert LowerStmt(s, g, n).ops == c + [Jump(start)] + [LabelAt(end)] by {
      assert LowerStmt(s, g, n).ops == c + [Jump(start), LabelAt(end)];
      assert [Jump(start), LabelAt(end)] == [Jump(start)] + [LabelAt(end)];
    }
    hide LowerStmt, LowerGuard, LowerOptional, LowerFlat, SourceLabelsFlat;
    LoopDefines(p.ops, b.ops, i.ops, q.ops, sb, start, cont, end, n, p.lab, b.lab, i.lab, q.lab);
  }

  lemma LoopDefines(p: seq<IrOp>, b: seq<IrOp>, i: seq<IrOp>, q: seq<IrOp>, sb: set<int>, start: int, cont: int, end: int,
                    n0: int, n1: int, n2: int, n3: int, n4: int)
    requires OwnLabels(p, n0, n1) && Defines(b, sb, n1, n2) && OwnLabels(i, n2, n3) && OwnLabels(q, n3, n4)
    requires n0 <= n1 <= n2 <= n3 <= n4 && sb !! {start, cont, end} && start != cont && cont != end && start != end
    requires SourceBelow(sb, n0) && start < n0 && cont < n0 && end < n0
    ensures Defines([LabelAt(start)] + p + b + [LabelAt(cont)] + i + q + [Jump(start)] + [LabelAt(end)],
                    sb + {start, cont, end}, n0, n4)
  {
    hide Ids, UniqueLabels;
    OneLabel(start);
    Concat([LabelAt(start)], p);
    Concat([LabelAt(start)] + p, b);
    var h := [LabelAt(start)] + p + b;
    assert Defines(h, sb + {start}, n0, n2);
    Close(h, cont);
    var h' := h + [LabelAt(cont)];
    assert Defines(h', sb + {start, cont}, n0, n2);
    Concat(h', i);
    Concat(h' + i, q);
    Pad(h' + i + q, Jump(start));
    assert Defines(h' + i + q + [Jump(start)], sb + {start, cont}, n0, n4);
    Close(h' + i + q + [Jump(start)], end);
  }

  lemma CaseLabels(v: IrVal, t: CType, cases: seq<CaseEntry>, g: int)
    ensures Ids(CaseJumps(v, t, cases, g)) == {} && UniqueLabels(CaseJumps(v, t, cases, g))
    decreases |cases|
  {
    if cases != [] {
      CaseLabels(v, t, cases[1..], g + 1);
      var test := [BinaryOf(Equal, v, Constant(cases[0].num, t), Temp(g, Int)), JumpIfNotZero(Temp(g, Int), cases[0].unique)];
      assert Ids(test) == {};
      Concat(CaseJumps(v, t, cases[1..], g + 1), test);
    }
  }

  lemma JumpHasNoLabel(l: int)
    ensures Ids([]) == {} && UniqueLabels([]) && Ids([Jump(l)]) == {} && UniqueLabels([Jump(l)])
  {
  }

  lemma {:induction false} SwitchLabels(s: Stmt, g: int, n: int)
    requires s.Switch? && SourceDistinct(s) && SourceBelow(SourceLabels(s), n)
    ensures var c := LowerStmt(s, g, n); Defines(c.ops, SourceLabels(s), n, c.lab)
    decreases s, 0
  {
    hide UniqueLabels, LowerStmt, LowerExpr, LowerFlat, CaseJumps;
    var k := LowerExpr(s.control, None, g, n);
    var tests := CaseJumps(k.ret, TypeOf(s.control), s.labelCases, k.gen);
    var b := LowerFlat(s.switchBody, k.gen + |s.labelCases|, k.lab);
    var d := if s.labelDefault >= 0 then [Jump(s.labelDefault)] else [];
    ExprLabels(s.control, None, g, n);
    CaseLabels(k.ret, TypeOf(s.control), s.labelCases, k.gen);
    FlatLabels(s.switchBody, k.gen + |s.labelCases|, k.lab);
    JumpHasNoLabel(s.labelDefault);
    SwitchUnfolds(s, g, n);
    hide Ids;
    Concat(k.ops, tests);
    Concat(k.ops + tests, d);
    Pad(k.ops + tests + d, Jump(s.switchEnd));
    Concat(k.ops + tests + d + [Jump(s.switchEnd)], b.ops);
    Close(k.ops + tests + d + [Jump(s.switchEnd)] + b.ops, s.switchEnd);
  }

  /** A whole function defines every label once. */
  lemma FunctionLabels(body: Flat, isVoid: bool, g: int, n: int)
    requires SourceDistinctFlat(body) && SourceBelow(SourceLabelsFlat(body), n)
    ensures var c := LowerFunction(body, isVoid, g, n); Defines(c.ops, SourceLabelsFlat(body), n, c.lab)
  {
    FlatLabels(body, g, n);
    var c := LowerFlat(body, g, n);
    Pad(c.ops, Ret(if isVoid then None else Some(Constant(0, Char))));
  }
}
