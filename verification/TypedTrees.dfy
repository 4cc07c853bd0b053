/** Types of whole functions: only the sizes of variables matter for typing, and the
    value that a function returns has its return type. */
module TypedTrees {
  import opened Wrappers
  import opened CTypes
  import opened CAst
  import opened CSemantics
  import opened StmtSimulation

  // --------------------------------------------------------------- other addresses

  ghost predicate SizesKept(types: Layout, layout: Layout) {
    forall l :: l in types ==> l in layout && layout[l].size == types[l].size
  }

  lemma {:induction false} MovedExpr(types: Layout, layout: Layout, e: Expr, shared: Option<Expr>)
    requires SizesKept(types, layout) && WellTyped(types, e, shared)
    ensures WellTyped(layout, e, shared)
    decreases e
  {
    match e
    case Const(_, _) =>
    case Var(_, _) =>
    case Paren(i) => MovedExpr(types, layout, i, shared);
    case Unary(_, o, _) => MovedExpr(types, layout, o, shared);
    case Binary(_, x, y, _) => MovedExpr(types, layout, x, shared); MovedExpr(types, layout, y, shared);
    case Logical(_, x, y) => MovedExpr(types, layout, x, shared); MovedExpr(types, layout, y, shared);
    case Ternary(c, x, y, _) =>
      MovedExpr(types, layout, c, shared);
      MovedExpr(types, layout, x, shared);
      MovedExpr(types, layout, y, shared);
    case Assign(t, s, compound, _) =>
      MovedExpr(types, layout, t, shared);
      MovedExpr(types, layout, s, if compound then Some(t) else None);
    case Twin(s) => MovedExpr(types, layout, s, None);
    case IncDec(_, _, p, _) => MovedExpr(types, layout, p, shared);
    case Deref(p, _) => MovedExpr(types, layout, p, shared);
    case AddressOf(o, _) => MovedExpr(types, layout, o, shared);
    case Cast(f, _) => MovedExpr(types, layout, f, shared);
  }

  lemma MovedOptional(types: Layout, layout: Layout, e: Option<Expr>)
    requires SizesKept(types, layout) && WellTypedOptional(types, e)
    ensures WellTypedOptional(layout, e)
  {
    if e.Some? {
      MovedExpr(types, layout, e.value, None);
    }
  }

  lemma {:induction false} MovedStmt(types: Layout, layout: Layout, s: Stmt)
    requires SizesKept(types, layout) && WellTypedStmt(types, s)
    ensures WellTypedStmt(layout, s)
    decreases s
  {
    hide WellTyped;
    match s
    case Expression(e) => MovedExpr(types, layout, e, None);
    case Declare(_, _, init) => MovedOptional(types, layout, init);
    case Return(e) => MovedOptional(types, layout, e);
    case Block(f) => MovedFlat(types, layout, f);
    case IfElse(c, a, b) =>
      MovedExpr(types, layout, c, None);
      MovedFlat(types, layout, a);
      if b.Some? {
        MovedFlat(types, layout, b.value);
      }
    case Loop(p, b, i, q, _, _, _) =>
      MovedOptional(types, layout, p);
      MovedFlat(types, layout, b);
      MovedOptional(types, layout, i);
      MovedOptional(types, layout, q);
    case Switch(c, b, _, _, _) =>
      MovedExpr(types, layout, c, None);
      MovedFlat(types, layout, b);
    case _ =>
  }

  /** A function stays well typed when its variables move. */
  lemma {:induction false} MovedFlat(types: Layout, layout: Layout, f: Flat)
    requires SizesKept(types, layout) && WellTypedFlat(types, f)
    ensures WellTypedFlat(layout, f)
    decreases f
  {
    if f.Cons? {
      MovedStmt(types, layout, f.car);
      MovedFlat(types, layout, f.cdr);
    }
  }

  // ------------------------------------------------------------------ return types

  /** Every return hands back a value of the return type, or none if there is none. */
  predicate ReturnsTyped(s: Stmt, t: Option<CType>) {
    match s
    case Return(e) => if e.Some? then t == Some(TypeOf(e.value)) else t.None?
    case Block(f) => ReturnsTypedFlat(f, t)
    case IfElse(_, a, b) => ReturnsTypedFlat(a, t) && (b.Some? ==> ReturnsTypedFlat(b.value, t))
    case Loop(_, b, _, _, _, _, _) => ReturnsTypedFlat(b, t)
    case Switch(_, b, _, _, _) => ReturnsTypedFlat(b, t)
    case _ => true
  }

  predicate ReturnsTypedFlat(f: Flat, t: Option<CType>) {
    f.Cons? ==> ReturnsTyped(f.car, t) && ReturnsTypedFlat(f.cdr, t)
  }

  ghost predicate ResultTyped(r: ExecResult, t: Option<CType>) {
    r.Done? && r.out.Returned? ==> if r.out.v.Some? then t == Some(r.out.v.value.ty) else t.None?
  }

  lemma {:induction false} StmtReturns(layout: Layout, s: Stmt, m: Mode, st: Store, fuel: nat, t: Option<CType>)
    requires (m.Go? || Has(m, s)) && ReturnsTyped(s, t)
    ensures ResultTyped(ExecStmt(layout, s, m, st, fuel), t)
    decreases fuel, s, 2
  {
    hide Eval;
    match s
    case Block(f) => FlatReturns(layout, f, m, st, fuel, t);
    case IfElse(c, a, b) =>
      if m.Go? {
        var r := Eval(layout, c, None, st);
        if r.Some? && r.value.v != 0 {
          FlatReturns(layout, a, Go, r.value.st, fuel, t);
        } else if r.Some? && b.Some? {
          FlatReturns(layout, b.value, Go, r.value.st, fuel, t);
        }
      } else if HasFlat(m, a) {
        FlatReturns(layout, a, m, st, fuel, t);
      } else {
        FlatReturns(layout, b.value, m, st, fuel, t);
      }
    case Loop(_, _, _, _, _, _, _) => LoopReturns(layout, s, m, st, fuel, t);
    case Switch(c, body, _, _, _) =>
      if m.Go? {
        var r := Eval(layout, c, None, st);
        if r.Some? && HasFlat(SeekCase(TypeOf(c), r.value.v), body) {
          FlatReturns(layout, body, SeekCase(TypeOf(c), r.value.v), r.value.st, fuel, t);
        } else if r.Some? && HasFlat(SeekDefault, body) {
          FlatReturns(layout, body, SeekDefault, r.value.st, fuel, t);
        }
      } else {
        FlatReturns(layout, body, m, st, fuel, t);
      }
    case _ =>
  }

  lemma {:induction false} FlatReturns(layout: Layout, f: Flat, m: Mode, st: Store, fuel: nat, t: Option<CType>)
    requires (m.Go? || HasFlat(m, f)) && ReturnsTypedFlat(f, t)
    ensures ResultTyped(ExecFlat(layout, f, m, st, fuel), t)
    decreases fuel, f, 0
  {
    if f.Nil? {
    } else if !m.Go? && !Has(m, f.car) {
      FlatReturns(layout, f.cdr, m, st, fuel, t);
    } else {
      StmtReturns(layout, f.car, m, st, fuel, t);
      var r := ExecStmt(layout, f.car, m, st, fuel);
      if r.Done? && r.out.Normal? {
        FlatReturns(layout, f.cdr, Go, r.st, fuel, t);
      }
    }
  }

  lemma {:induction false} LoopReturns(layout: Layout, s: Stmt, m: Mode, st: Store, fuel: nat, t: Option<CType>)
    requires s.Loop? && (m.Go? || Has(m, s)) && ReturnsTyped(s, t)
    ensures ResultTyped(ExecLoop(layout, s, m, st, fuel), t)
    decreases fuel, s, 1
  {
    hide EvalOptional;
    if fuel == 0 {
    } else if !m.Go? {
      FlatReturns(layout, s.body, m, st, fuel, t);
      RestReturns(layout, s, ExecFlat(layout, s.body, m, st, fuel), fuel, t);
    } else {
      var pre := EvalOptional(layout, s.precond, st);
      if pre.Some? && pre.value.v != 0 {
        FlatReturns(layout, s.body, Go, pre.value.st, fuel, t);
        RestReturns(layout, s, ExecFlat(layout, s.body, Go, pre.value.st, fuel), fuel, t);
      }
    }
  }

  lemma {:induction false} RestReturns(layout: Layout, s: Stmt, r: ExecResult, fuel: nat, t: Option<CType>)
    requires s.Loop? && fuel > 0 && ReturnsTyped(s, t) && ResultTyped(r, t)
    ensures ResultTyped(LoopRest(layout, s, r, fuel), t)
    decreases fuel, s, 0
  {
    hide EvalOptional;
    if r.Done? && (r.out.Normal? || r.out.Continued?) {
      var i := EvalOptional(layout, s.incr, r.st);
      if i.Some? {
        var post := EvalOptional(layout, s.postcond, i.value.st);
        if post.Some? && post.value.v != 0 {
          LoopReturns(layout, s, Go, post.value.st, fuel - 1, t);
        }
      }
    }
  }

  /** The value that a function returns has its return type. */
  lemma {:induction false} BodyReturns(layout: Layout, body: Flat, m: Mode, st: Store, fuel: nat, t: Option<CType>)
    requires (m.Go? || HasFlat(m, body)) && ReturnsTypedFlat(body, t)
    ensures ResultTyped(RunBody(layout, body, m, st, fuel), t)
    decreases fuel
  {
    hide ExecFlat, HasFlat;
    FlatReturns(layout, body, m, st, fuel, t);
    var r := ExecFlat(layout, body, m, st, fuel);
    if r.Done? && r.out.Jumped? && HasFlat(SeekLabel(r.out.name), body) && fuel > 0 {
      BodyReturns(layout, body, SeekLabel(r.out.name), r.st, fuel - 1, t);
    }
  }
}
