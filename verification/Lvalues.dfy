/** The left sides of assignments and steps: what the semantic pass lets through, and
    where lowering stops at a failed assertion. */
module Lvalues {
  import opened Wrappers
  import opened CTypes
  import opened CAst
  import opened CSemantics
  import opened Ir
  import opened StmtSimulation
  import opened LoopLabels

  /** A variable itself, or the pointer to store through. */
  datatype Lvalue = Direct(place: IrVal) | Indirect(pointer: Expr)

  predicate IsAssigner(a: Expr) {
    a.Assign? || a.IncDec?
  }

  function Operand(a: Expr): Expr
    requires IsAssigner(a)
  {
    if a.Assign? then a.target else a.place
  }

  /** What an assignment or step works on; nothing when an assertion fails. */
  function AssignmentLvalue(a: Expr): (r: Option<Lvalue>)
    requires IsAssigner(a)
    ensures r.Some? && r.value.Indirect? ==> Unparen(Operand(a)).Deref? && r.value.pointer == Unparen(Unparen(Operand(a)).pointer)
  {
    var candidate := Unparen(Operand(a));
    if candidate.Deref? && !Unparen(candidate.pointer).AddressOf? then Some(Indirect(Unparen(candidate.pointer)))
    else if a.Assign? && candidate.Cast? then
      if candidate.from.Var? then Some(Direct(Variable(candidate.from.loc, TypeOf(a)))) else None
    else if candidate.Var? then Some(Direct(Variable(candidate.loc, TypeOf(a))))
    else None
  }

  // ------------------------------------------------------- all of them in a tree

  /** The assignments and steps of an expression; a left side that stands for a cached
      value counts for nothing. */
  function Assigners(e: Expr, cached: bool): (r: set<Expr>)
    ensures forall a :: a in r ==> IsAssigner(a)
  {
    match e
    case Const(_, _) => {}
    case Var(_, _) => {}
    case Paren(i) => Assigners(i, cached)
    case Unary(_, o, _) => Assigners(o, cached)
    case Binary(_, x, y, _) => Assigners(x, cached) + Assigners(y, cached)
    case Logical(_, x, y) => Assigners(x, cached) + Assigners(y, cached)
    case Ternary(c, x, y, _) => Assigners(c, cached) + Assigners(x, cached) + Assigners(y, cached)
    case Assign(target, source, compound, _) =>
      {e} + Assigners(target, cached) + Assigners(source, compound && Unparen(target).Deref?)
    case Twin(s) => if cached then {} else Assigners(s, false)
    case IncDec(_, _, p, _) => {e} + Assigners(p, cached)
    case Deref(p, _) => Assigners(p, cached)
    case AddressOf(o, _) => Assigners(o, cached)
    case Cast(f, _) => Assigners(f, cached)
  }

  function AssignersOptional(e: Option<Expr>): (r: set<Expr>)
    ensures forall a :: a in r ==> IsAssigner(a)
  {
    if e.None? then {} else Assigners(e.value, false)
  }

  function AssignersStmt(s: Stmt): (r: set<Expr>)
    ensures forall a :: a in r ==> IsAssigner(a)
  {
    match s
    case Expression(e) => Assigners(e, false)
    case Declare(_, _, init) => AssignersOptional(init)
    case Return(result) => AssignersOptional(result)
    case Block(f) => AssignersFlat(f)
    case IfElse(c, a, b) => Assigners(c, false) + AssignersFlat(a) + if b.Some? then AssignersFlat(b.value) else {}
    case Loop(pre, body, incr, post, _, _, _) =>
      AssignersOptional(pre) + AssignersFlat(body) + AssignersOptional(incr) + AssignersOptional(post)
    case Switch(c, body, _, _, _) => Assigners(c, false) + AssignersFlat(body)
    case _ => {}
  }

  function AssignersFlat(f: Flat): (r: set<Expr>)
    ensures forall a :: a in r ==> IsAssigner(a)
  {
    if f.Nil? then {} else AssignersStmt(f.car) + AssignersFlat(f.cdr)
  }

  /** Every left side is one that lowering can handle. */
  predicate AllLower(assigners: set<Expr>)
    requires forall a :: a in assigners ==> IsAssigner(a)
  {
    forall a :: a in assigners ==> AssignmentLvalue(a).Some?
  }

  predicate Lowers(e: Expr, cached: bool) {
    AllLower(Assigners(e, cached))
  }

  predicate LowersStmt(s: Stmt) {
    AllLower(AssignersStmt(s))
  }

  predicate LowersFlat(f: Flat) {
    AllLower(AssignersFlat(f))
  }

  lemma {:induction false} ThroughParens(e: Expr, cached: bool)
    ensures Assigners(Unparen(e), cached) == Assigners(e, cached)
    decreases e
  {
    if e.Paren? {
      ThroughParens(e.inner, cached);
    }
  }

  /** What an assignment or step asks of its parts. */
  lemma AssignerParts(a: Expr, cached: bool)
    requires IsAssigner(a)
    ensures var lvalue := AssignmentLvalue(a);
            Lowers(a, cached) <==> lvalue.Some? && (lvalue.value.Indirect? ==> Lowers(lvalue.value.pointer, cached))
                                   && (a.Assign? ==> Lowers(a.source, a.compound && lvalue.value.Indirect?))
  {
    ThroughParens(Operand(a), cached);
    var candidate := Unparen(Operand(a));
    if candidate.Deref? {
      ThroughParens(candidate.pointer, cached);
    }
    assert a in Assigners(a, cached);
  }

  /** The same for expressions with one operand. */
  lemma OneOperand(e: Expr, cached: bool)
    ensures e.Const? || e.Var? ==> Lowers(e, cached)
    ensures e.Twin? ==> (Lowers(e, cached) <==> cached || Lowers(e.shared, false))
    ensures e.Paren? ==> Lowers(e, cached) == Lowers(e.inner, cached)
    ensures e.Unary? ==> Lowers(e, cached) == Lowers(e.operand, cached)
    ensures e.Cast? ==> Lowers(e, cached) == Lowers(e.from, cached)
    ensures e.Deref? ==> Lowers(e, cached) == Lowers(e.pointer, cached)
    ensures e.Deref? && Unparen(e.pointer).AddressOf? ==> Lowers(e, cached) == Lowers(Unparen(e.pointer).lvalue, cached)
    ensures e.AddressOf? ==> Lowers(e, cached) == Lowers(e.lvalue, cached)
    ensures e.AddressOf? && Unparen(e.lvalue).Deref? ==> Lowers(e, cached) == Lowers(Unparen(e.lvalue).pointer, cached)
  {
    if e.Deref? {
      ThroughParens(e.pointer, cached);
    } else if e.AddressOf? {
      ThroughParens(e.lvalue, cached);
    }
  }

  // ---------------------------------------------------------------- when it stops

  /** What the semantic pass lets through is lowered unless it takes the address of an
      object only to follow it. */
  lemma StopsExactly(a: Expr)
    requires IsAssigner(a) && IsNodeLvalue(Operand(a))
    ensures AssignmentLvalue(a).None? <==> UndoesAddress(Operand(a))
    ensures IsPlace(Operand(a)) <==> AssignmentLvalue(a).Some?
  {
  }

  /** The same for a whole body, in which every left side has passed the check. */
  lemma BodyStopsExactly(body: Flat)
    requires forall a :: a in AssignersFlat(body) ==> IsNodeLvalue(Operand(a))
    ensures LowersFlat(body) <==> forall a :: a in AssignersFlat(body) ==> !UndoesAddress(Operand(a))
  {
    hide AssignmentLvalue, IsNodeLvalue, UndoesAddress, IsPlace, AssignersFlat, Operand;
    forall a | a in AssignersFlat(body) ensures AssignmentLvalue(a).None? <==> UndoesAddress(Operand(a)) {
      StopsExactly(a);
    }
  }

  /** `*&x = 1` gives x the value 1, and `(*&x)++` passes the same check; lowering
      handles neither. */
  lemma AddressOfVariable(x: Loc)
    ensures var place := Deref(AddressOf(Var(x, Int), Pointer(Int)), Int);
            var assignment, step := Assign(place, Const(1, Int), false, Int), IncDec(false, true, place, Int);
            && IsNodeLvalue(place) && !Lowers(assignment, false) && !Lowers(step, false)
            && Eval(map[x := Slot(0, 4)], assignment, None, map[x := 0]) == Some(Res(1, map[x := 1], {}, {x}, {x}))
  {
    AddressNotLowered(x);
    AddressAssigned(x);
    hide Eval, Lowers, Assigners, AllLower;
  }

  lemma AddressNotLowered(x: Loc)
    ensures var place := Deref(AddressOf(Var(x, Int), Pointer(Int)), Int);
            !Lowers(Assign(place, Const(1, Int), false, Int), false) && !Lowers(IncDec(false, true, place, Int), false)
  {
    var place := Deref(AddressOf(Var(x, Int), Pointer(Int)), Int);
    AssignerParts(Assign(place, Const(1, Int), false, Int), false);
    AssignerParts(IncDec(false, true, place, Int), false);
    hide Lowers, Assigners, AllLower;
  }

  lemma AddressAssigned(x: Loc)
    ensures var place := Deref(AddressOf(Var(x, Int), Pointer(Int)), Int);
            Eval(map[x := Slot(0, 4)], Assign(place, Const(1, Int), false, Int), None, map[x := 0]) == Some(Res(1, map[x := 1], {}, {x}, {x}))
  {
    hide Eval, EvalPlace, AssignResult;
    var layout: Layout := map[x := Slot(0, 4)];
    var place := Deref(AddressOf(Var(x, Int), Pointer(Int)), Int);
    AddressedPlace(x);
    EvalConst(layout, 1, Int, None, map[x := 0]);
    EvalAssign(layout, Assign(place, Const(1, Int), false, Int), None, map[x := 0]);
    AssignedThere(x);
  }

  lemma AssignedThere(x: Loc)
    ensures AssignResult(x, Res(0, map[x := 0], {}, {}, {}), Res(1, map[x := 0], {}, {}, {})) == Some(Res(1, map[x := 1], {}, {x}, {x}))
  {
    var none: set<Loc> := {};
    assert (map[x := 0])[x := 1] == map[x := 1];
    assert none + none == none && none + none + {x} == {x};
  }

  lemma AddressedPlace(x: Loc)
    ensures var place := Deref(AddressOf(Var(x, Int), Pointer(Int)), Int);
            EvalPlace(map[x := Slot(0, 4)], place, None, map[x := 0]) == Some((x, Res(0, map[x := 0], {}, {}, {})))
  {
    var layout: Layout := map[x := Slot(0, 4)];
    var address := AddressOf(Var(x, Int), Pointer(Int));
    assert layout[x] == Slot(0, 4);
    assert Eval(layout, address, None, map[x := 0]) == Some(Res(0, map[x := 0], {}, {}, {}));
    assert LocAt(layout, 0, 4) == Some(x);
    assert Unparen(Deref(address, Int)) == Deref(address, Int);
  }

  // ------------------------------------------------------------------- typed trees

  /** Typed trees are lowered. */
  lemma {:induction false} TypedLowers(layout: Layout, e: Expr, shared: Option<Expr>, cached: bool)
    requires WellTyped(layout, e, shared)
    ensures Lowers(e, cached)
    decreases e
  {
    match e
    case Const(_, _) =>
    case Var(_, _) =>
    case Paren(i) => TypedLowers(layout, i, shared, cached);
    case Unary(_, o, _) => TypedLowers(layout, o, shared, cached);
    case Binary(_, x, y, _) =>
      TypedLowers(layout, x, shared, cached);
      TypedLowers(layout, y, shared, cached);
    case Logical(_, x, y) =>
      TypedLowers(layout, x, shared, cached);
      TypedLowers(layout, y, shared, cached);
    case Ternary(c, x, y, _) =>
      TypedLowers(layout, c, shared, cached);
      TypedLowers(layout, x, shared, cached);
      TypedLowers(layout, y, shared, cached);
    case Assign(target, source, compound, _) =>
      TypedLowers(layout, target, shared, cached);
      TypedLowers(layout, source, if compound then Some(target) else None, compound && Unparen(target).Deref?);
    case Twin(s) => TypedLowers(layout, s, None, false);
    case IncDec(_, _, p, _) => TypedLowers(layout, p, shared, cached);
    case Deref(p, _) => TypedLowers(layout, p, shared, cached);
    case AddressOf(o, _) => TypedLowers(layout, o, shared, cached);
    case Cast(f, _) => TypedLowers(layout, f, shared, cached);
  }

  lemma TypedOptionalLowers(layout: Layout, e: Option<Expr>)
    requires WellTypedOptional(layout, e)
    ensures AllLower(AssignersOptional(e))
  {
    if e.Some? {
      TypedLowers(layout, e.value, None, false);
    }
  }

  lemma {:induction false} TypedStmtLowers(layout: Layout, s: Stmt)
    requires WellTypedStmt(layout, s)
    ensures LowersStmt(s)
    decreases s
  {
    hide WellTyped, Assigners, AssignmentLvalue, IsAssigner;
    match s
    case Expression(e) => TypedLowers(layout, e, None, false);
    case Declare(_, _, init) => TypedOptionalLowers(layout, init);
    case Return(result) => TypedOptionalLowers(layout, result);
    case Block(f) => TypedFlatLowers(layout, f);
    case IfElse(c, a, b) =>
      TypedLowers(layout, c, None, false);
      TypedFlatLowers(layout, a);
      if b.Some? {
        TypedFlatLowers(layout, b.value);
      }
    case Loop(pre, body, incr, post, _, _, _) =>
      TypedOptionalLowers(layout, pre);
      TypedFlatLowers(layout, body);
      TypedOptionalLowers(layout, incr);
      TypedOptionalLowers(layout, post);
    case Switch(c, body, _, _, _) =>
      TypedLowers(layout, c, None, false);
      TypedFlatLowers(layout, body);
    case _ =>
  }

  lemma {:induction false} TypedFlatLowers(layout: Layout, f: Flat)
    requires WellTypedFlat(layout, f)
    ensures LowersFlat(f)
    decreases f
  {
    if f.Cons? {
      TypedStmtLowers(layout, f.car);
      TypedFlatLowers(layout, f.cdr);
    }
  }

  // ------------------------------------------------------------- trees with numbers

  lemma {:induction false} PlainAssigners(s: Stmt)
    ensures AssignersStmt(Plain(s)) == AssignersStmt(s)
    decreases s
  {
    match s
    case Block(f) => PlainAssignersFlat(f);
    case IfElse(_, a, b) =>
      PlainAssignersFlat(a);
      if b.Some? {
        PlainAssignersFlat(b.value);
      }
    case Loop(_, body, _, _, _, _, _) => PlainAssignersFlat(body);
    case Switch(_, body, _, _, _) => PlainAssignersFlat(body);
    case _ =>
  }

  lemma {:induction false} PlainAssignersFlat(f: Flat)
    ensures AssignersFlat(PlainFlat(f)) == AssignersFlat(f)
    decreases f
  {
    if f.Cons? {
      PlainAssigners(f.car);
      PlainAssignersFlat(f.cdr);
    }
  }
}
