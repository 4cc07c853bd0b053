/** A compound assignment through a pointer evaluates its left-hand side once: it
    has the effect of keeping the pointer in a fresh object and assigning through
    that. */
module CompoundAssignment {
  import opened Wrappers
  import opened CTypes
  import opened CAst
  import opened CSemantics

  /** What the semantic pass makes of `lhs op= rhs`: a plain assignment whose
      right-hand side holds the left-hand side again, linked to the first one. */
  function Expand(op: BinaryOp, lhs: Expr, rhs: Expr, ty: CType): Expr {
    Assign(lhs, Binary(op, Twin(lhs), rhs, ty), true, ty)
  }

  predicate Mentions(e: Expr, l: Loc) {
    match e
    case Const(_, _) => false
    case Var(k, _) => k == l
    case Paren(i) => Mentions(i, l)
    case Unary(_, o, _) => Mentions(o, l)
    case Binary(_, x, y, _) => Mentions(x, l) || Mentions(y, l)
    case Logical(_, x, y) => Mentions(x, l) || Mentions(y, l)
    case Ternary(c, x, y, _) => Mentions(c, l) || Mentions(x, l) || Mentions(y, l)
    case Assign(x, y, _, _) => Mentions(x, l) || Mentions(y, l)
    case Twin(s) => Mentions(s, l)
    case IncDec(_, _, p, _) => Mentions(p, l)
    case Deref(p, _) => Mentions(p, l)
    case AddressOf(o, _) => Mentions(o, l)
    case Cast(f, _) => Mentions(f, l)
  }

  lemma {:induction e} MentionsUnparen(e: Expr, l: Loc)
    ensures Mentions(Unparen(e), l) == Mentions(e, l)
  {
  }

  // ------------------------------------------------- an object that is not used

  ghost predicate Kept(r: Option<Res>, r': Option<Res>, t: Loc, x: nat) {
    r.Some? ==> t !in r.value.rd + r.value.wr && r' == Some(r.value.(st := r.value.st[t := x]))
  }

  ghost predicate KeptPlace(r: Option<(Loc, Res)>, r': Option<(Loc, Res)>, t: Loc, x: nat) {
    r.Some? ==> r.value.0 != t && t !in r.value.1.rd + r.value.1.wr
                && r' == Some((r.value.0, r.value.1.(st := r.value.1.st[t := x])))
  }

  lemma SwapWrites(s: Store, l: Loc, v: nat, t: Loc, x: nat)
    requires l != t
    ensures s[t := x][l := v] == s[l := v][t := x]
  {
  }

  /** Evaluation does not notice an object that has no address and is not named. */
  lemma {:induction false} FreshFrame(layout: Layout, e: Expr, tw: Option<TwinValue>, s: Store, t: Loc, x: nat)
    requires t !in layout && !Mentions(e, t) && (tw.Some? ==> tw.value.loc != t)
    ensures Kept(Eval(layout, e, tw, s), Eval(layout, e, tw, s[t := x]), t, x)
    decreases e, 1
  {
    match e
    case Const(_, _) =>
    case Var(_, _) =>
    case Paren(i) => FreshFrame(layout, i, tw, s, t, x);
    case Unary(_, o, _) => FreshFrame(layout, o, tw, s, t, x);
    case Twin(shared) => if tw.None? { FreshFrame(layout, shared, None, s, t, x); }
    case Cast(f, _) => FreshFrame(layout, f, tw, s, t, x);
    case Binary(_, _, _, _) => FreshPair(layout, e, tw, s, t, x);
    case Logical(_, _, _) => FreshPair(layout, e, tw, s, t, x);
    case Ternary(_, _, _, _) => FreshPair(layout, e, tw, s, t, x);
    case _ => FreshAccess(layout, e, tw, s, t, x);
  }

  /** The expressions that evaluate one operand after another. */
  lemma {:induction false} FreshPair(layout: Layout, e: Expr, tw: Option<TwinValue>, s: Store, t: Loc, x: nat)
    requires e.Binary? || e.Logical? || e.Ternary?
    requires t !in layout && !Mentions(e, t) && (tw.Some? ==> tw.value.loc != t)
    ensures Kept(Eval(layout, e, tw, s), Eval(layout, e, tw, s[t := x]), t, x)
    decreases e, 0, 1
  {
    hide Eval, Unsequenced, BinaryValue;
    if e.Binary? {
      EvalBinary(layout, e, tw, s);
      EvalBinary(layout, e, tw, s[t := x]);
      FreshFrame(layout, e.left, tw, s, t, x);
      var a := Eval(layout, e.left, tw, s);
      if a.Some? {
        FreshFrame(layout, e.right, tw, a.value.st, t, x);
        var b := Eval(layout, e.right, tw, a.value.st);
        if b.Some? { SameSequencing(a.value, b.value, t, x); }
      }
    } else if e.Logical? {
      EvalLogical(layout, e, tw, s);
      EvalLogical(layout, e, tw, s[t := x]);
      FreshFrame(layout, e.lhs, tw, s, t, x);
      var a := Eval(layout, e.lhs, tw, s);
      if a.Some? { FreshFrame(layout, e.rhs, tw, a.value.st, t, x); }
    } else {
      EvalTernary(layout, e, tw, s);
      EvalTernary(layout, e, tw, s[t := x]);
      FreshFrame(layout, e.cond, tw, s, t, x);
      var a := Eval(layout, e.cond, tw, s);
      if a.Some? { FreshFrame(layout, if a.value.v != 0 then e.thn else e.els, tw, a.value.st, t, x); }
    }
  }

  lemma SameSequencing(a: Res, b: Res, t: Loc, x: nat)
    ensures Unsequenced(a.(st := a.st[t := x]), b.(st := b.st[t := x])) == Unsequenced(a, b)
  {
  }

  /** The expressions that are about an lvalue. */
  lemma {:induction false} FreshAccess(layout: Layout, e: Expr, tw: Option<TwinValue>, s: Store, t: Loc, x: nat)
    requires e.Assign? || e.IncDec? || e.Deref? || e.AddressOf?
    requires t !in layout && !Mentions(e, t) && (tw.Some? ==> tw.value.loc != t)
    ensures Kept(Eval(layout, e, tw, s), Eval(layout, e, tw, s[t := x]), t, x)
    decreases e, 0, 1
  {
    if e.Assign? {
      FreshAssign(layout, e, tw, s, t, x);
    } else if e.IncDec? {
      FreshIncDec(layout, e, tw, s, t, x);
    } else if e.Deref? {
      MentionsUnparen(e.pointer, t);
      if Unparen(e.pointer).AddressOf? { FreshFrame(layout, Unparen(e.pointer).lvalue, tw, s, t, x); } else { FreshPlace(layout, e, tw, s, t, x); }
    } else {
      MentionsUnparen(e.lvalue, t);
      if Unparen(e.lvalue).Deref? { FreshFrame(layout, Unparen(e.lvalue).pointer, tw, s, t, x); }
    }
  }

  lemma {:induction false} FreshAssign(layout: Layout, e: Expr, tw: Option<TwinValue>, s: Store, t: Loc, x: nat)
    requires e.Assign? && t !in layout && !Mentions(e, t) && (tw.Some? ==> tw.value.loc != t)
    ensures Kept(Eval(layout, e, tw, s), Eval(layout, e, tw, s[t := x]), t, x)
    decreases e, 0, 0
  {
    hide Eval, EvalPlace, Mentions, Unsequenced;
    MentionsParts(e, t);
    EvalAssign(layout, e, tw, s);
    EvalAssign(layout, e, tw, s[t := x]);
    FreshPlace(layout, e.target, tw, s, t, x);
    var p := EvalPlace(layout, e.target, tw, s);
    if p.Some? {
      var (l, a) := p.value;
      var inner := Remembered(e, l, a);
      assert inner == Remembered(e, l, a.(st := a.st[t := x]));
      FreshFrame(layout, e.source, inner, a.st, t, x);
      var b := Eval(layout, e.source, inner, a.st);
      if b.Some? {
        SameSequencing(a, b.value, t, x);
        SwapWrites(b.value.st, l, b.value.v, t, x);
      }
    }
  }

  lemma MentionsParts(e: Expr, t: Loc)
    requires e.Assign? && !Mentions(e, t)
    ensures !Mentions(e.target, t) && !Mentions(e.source, t)
  {
  }

  lemma {:induction false} FreshIncDec(layout: Layout, e: Expr, tw: Option<TwinValue>, s: Store, t: Loc, x: nat)
    requires e.IncDec? && t !in layout && !Mentions(e, t) && (tw.Some? ==> tw.value.loc != t)
    ensures Kept(Eval(layout, e, tw, s), Eval(layout, e, tw, s[t := x]), t, x)
    decreases e, 0, 0
  {
    hide EvalPlace;
    FreshPlace(layout, e.place, tw, s, t, x);
    var p := EvalPlace(layout, e.place, tw, s);
    if p.Some? {
      SwapWrites(p.value.1.st, p.value.0, IncDecValue(e.increment, e.ity, p.value.1.st[p.value.0]), t, x);
    }
  }

  lemma {:induction false} FreshPlace(layout: Layout, e: Expr, tw: Option<TwinValue>, s: Store, t: Loc, x: nat)
    requires t !in layout && !Mentions(e, t) && (tw.Some? ==> tw.value.loc != t)
    ensures KeptPlace(EvalPlace(layout, e, tw, s), EvalPlace(layout, e, tw, s[t := x]), t, x)
    decreases e, 0, 0
  {
    MentionsUnparen(e, t);
    if Unparen(e).Deref? {
      FreshFrame(layout, Unparen(e).pointer, tw, s, t, x);
    }
  }

  // ------------------------------------------------------------- the second look

  /** The expression with the left-hand side read anew, through a given lvalue. */
  function Untwin(e: Expr, place: Expr): Expr {
    match e
    case Const(_, _) => e
    case Var(_, _) => e
    case Paren(i) => Paren(Untwin(i, place))
    case Unary(op, o, t) => Unary(op, Untwin(o, place), t)
    case Binary(op, x, y, t) => Binary(op, Untwin(x, place), Untwin(y, place), t)
    case Logical(a, x, y) => Logical(a, Untwin(x, place), Untwin(y, place))
    case Ternary(c, x, y, t) => Ternary(Untwin(c, place), Untwin(x, place), Untwin(y, place), t)
    case Assign(x, y, c, t) => Assign(Untwin(x, place), y, c, t)
    case Twin(_) => place
    case IncDec(p, i, o, t) => IncDec(p, i, Untwin(o, place), t)
    case Deref(p, t) => Deref(Untwin(p, place), t)
    case AddressOf(o, t) => AddressOf(Untwin(o, place), t)
    case Cast(f, t) => Cast(Untwin(f, place), t)
  }

  lemma {:induction e} UntwinForm(e: Expr, place: Expr)
    requires place.Deref?
    ensures Unparen(Untwin(e, place)) == Untwin(Unparen(e), place)
  {
  }

  /** Twins are values: they do not stand where an lvalue is wanted. */
  predicate TwinsAreValues(e: Expr) {
    match e
    case Const(_, _) => true
    case Var(_, _) => true
    case Paren(i) => TwinsAreValues(i)
    case Unary(_, o, _) => TwinsAreValues(o)
    case Binary(_, x, y, _) => TwinsAreValues(x) && TwinsAreValues(y)
    case Logical(_, x, y) => TwinsAreValues(x) && TwinsAreValues(y)
    case Ternary(c, x, y, _) => TwinsAreValues(c) && TwinsAreValues(x) && TwinsAreValues(y)
    case Assign(x, _, _, _) => TwinsAreValues(x) && !Unparen(x).Twin?
    case Twin(_) => true
    case IncDec(_, _, p, _) => TwinsAreValues(p) && !Unparen(p).Twin?
    case Deref(p, _) => TwinsAreValues(p) && (Unparen(p).AddressOf? ==> !Unparen(Unparen(p).lvalue).Twin?)
    case AddressOf(o, _) => TwinsAreValues(o) && !Unparen(o).Twin?
    case Cast(f, _) => TwinsAreValues(f)
  }

  lemma {:induction e} ValuesUnparen(e: Expr)
    requires TwinsAreValues(e)
    ensures TwinsAreValues(Unparen(e))
  {
  }

  /** Through the fresh pointer the object l is read again. */
  ghost predicate PointsTo(layout: Layout, t: Loc, x: nat, ty: CType, l: Loc) {
    t !in layout && l != t && LocAt(layout, x, ty.Size()) == Some(l)
  }

  /** The two evaluations agree, but for reads of the fresh pointer and of l. */
  ghost predicate SameLook(r: Option<Res>, r': Option<Res>, t: Loc, x: nat) {
    r.Some? ==> && r'.Some? && r'.value.v == r.value.v && r'.value.st == r.value.st[t := x]
                && r'.value.wr == r.value.wr && r'.value.pending == r.value.pending && t !in r.value.wr && t !in r.value.rd
                && r.value.rd <= r'.value.rd <= r.value.rd + {t}
  }

  lemma ReadThrough(layout: Layout, t: Loc, x: nat, ty: CType, l: Loc, s: Store)
    requires PointsTo(layout, t, x, ty, l) && l in s
    ensures Eval(layout, Deref(Var(t, Pointer(ty)), ty), None, s[t := x]) == Some(Res(s[l], s[t := x], {t, l}, {}, {}))
  {
    var place := Deref(Var(t, Pointer(ty)), ty);
    assert Unparen(place) == place && Unparen(place.pointer) == place.pointer;
    assert EvalPlace(layout, place, None, s[t := x]) == Some((l, Res(x, s[t := x], {t}, {}, {})));
    assert {t} + {l} == {t, l};
  }

  // ------------------------------------------------------- writes still pending

  /** What is pending has been written. */
  lemma {:induction false} PendingWritten(layout: Layout, e: Expr, tw: Option<TwinValue>, s: Store)
    ensures var r := Eval(layout, e, tw, s); r.Some? ==> r.value.pending <= r.value.wr
    decreases e, 1
  {
    match e
    case Const(_, _) =>
    case Var(_, _) =>
    case Paren(i) => PendingWritten(layout, i, tw, s);
    case Unary(_, o, _) => PendingWritten(layout, o, tw, s);
    case Twin(shared) => if tw.None? { PendingWritten(layout, shared, None, s); }
    case Cast(f, _) => PendingWritten(layout, f, tw, s);
    case Binary(_, x, y, _) =>
      EvalBinary(layout, e, tw, s);
      PendingWritten(layout, x, tw, s);
      if Eval(layout, x, tw, s).Some? { PendingWritten(layout, y, tw, Eval(layout, x, tw, s).value.st); }
    case Logical(_, x, y) =>
      EvalLogical(layout, e, tw, s);
      PendingWritten(layout, x, tw, s);
      if Eval(layout, x, tw, s).Some? { PendingWritten(layout, y, tw, Eval(layout, x, tw, s).value.st); }
    case Ternary(c, x, y, _) =>
      EvalTernary(layout, e, tw, s);
      var a := Eval(layout, c, tw, s);
      if a.Some? { PendingWritten(layout, if a.value.v != 0 then x else y, tw, a.value.st); }
    case Assign(target, source, _, _) =>
      EvalAssign(layout, e, tw, s);
      PendingPlace(layout, target, tw, s);
      var p := EvalPlace(layout, target, tw, s);
      if p.Some? { PendingWritten(layout, source, Remembered(e, p.value.0, p.value.1), p.value.1.st); }
    case _ => PendingAccess(layout, e, tw, s);
  }

  lemma {:induction false} PendingAccess(layout: Layout, e: Expr, tw: Option<TwinValue>, s: Store)
    requires e.IncDec? || e.Deref? || e.AddressOf?
    ensures var r := Eval(layout, e, tw, s); r.Some? ==> r.value.pending <= r.value.wr
    decreases e, 0, 1
  {
    match e
    case IncDec(_, _, p, _) => PendingPlace(layout, p, tw, s);
    case Deref(p, _) =>
      if Unparen(p).AddressOf? { PendingWritten(layout, Unparen(p).lvalue, tw, s); } else { PendingPlace(layout, e, tw, s); }
    case AddressOf(o, _) => if Unparen(o).Deref? { PendingWritten(layout, Unparen(o).pointer, tw, s); }
  }

  lemma {:induction false} PendingPlace(layout: Layout, e: Expr, tw: Option<TwinValue>, s: Store)
    ensures var p := EvalPlace(layout, e, tw, s); p.Some? ==> p.value.1.pending <= p.value.1.wr
    decreases e, 0, 0
  {
    if Unparen(e).Deref? { PendingWritten(layout, Unparen(e).pointer, tw, s); }
  }

  // ------------------------------------------------------- objects not written

  ghost predicate Unchanged(r: Option<Res>, s: Store, l: Loc) {
    r.Some? && l !in r.value.wr && l in s ==> l in r.value.st && r.value.st[l] == s[l]
  }

  /** What an evaluation does not list as written keeps its value. */
  lemma {:induction false} Unwritten(layout: Layout, e: Expr, tw: Option<TwinValue>, s: Store, l: Loc)
    ensures Unchanged(Eval(layout, e, tw, s), s, l)
    decreases e, 1
  {
    match e
    case Const(_, _) =>
    case Var(_, _) =>
    case Paren(i) => Unwritten(layout, i, tw, s, l);
    case Unary(_, o, _) => Unwritten(layout, o, tw, s, l);
    case Twin(shared) => if tw.None? { Unwritten(layout, shared, None, s, l); }
    case Cast(f, _) => Unwritten(layout, f, tw, s, l);
    case Binary(_, x, y, _) =>
      EvalBinary(layout, e, tw, s);
      Unwritten(layout, x, tw, s, l);
      if Eval(layout, x, tw, s).Some? { Unwritten(layout, y, tw, Eval(layout, x, tw, s).value.st, l); }
    case Logical(_, x, y) =>
      EvalLogical(layout, e, tw, s);
      Unwritten(layout, x, tw, s, l);
      if Eval(layout, x, tw, s).Some? { Unwritten(layout, y, tw, Eval(layout, x, tw, s).value.st, l); }
    case Ternary(c, x, y, _) =>
      EvalTernary(layout, e, tw, s);
      Unwritten(layout, c, tw, s, l);
      var a := Eval(layout, c, tw, s);
      if a.Some? { Unwritten(layout, if a.value.v != 0 then x else y, tw, a.value.st, l); }
    case Assign(target, source, _, _) =>
      EvalAssign(layout, e, tw, s);
      UnwrittenPlace(layout, target, tw, s, l);
      var p := EvalPlace(layout, target, tw, s);
      if p.Some? { Unwritten(layout, source, Remembered(e, p.value.0, p.value.1), p.value.1.st, l); }
    case IncDec(_, _, p, _) => UnwrittenPlace(layout, p, tw, s, l);
    case Deref(p, _) => if Unparen(p).AddressOf? { Unwritten(layout, Unparen(p).lvalue, tw, s, l); } else { UnwrittenPlace(layout, e, tw, s, l); }
    case AddressOf(o, _) => if Unparen(o).Deref? { Unwritten(layout, Unparen(o).pointer, tw, s, l); }
  }

  lemma {:induction false} UnwrittenPlace(layout: Layout, e: Expr, tw: Option<TwinValue>, s: Store, l: Loc)
    ensures var p := EvalPlace(layout, e, tw, s);
            p.Some? && l !in p.value.1.wr && l in s ==> l in p.value.1.st && p.value.1.st[l] == s[l]
    decreases e, 0
  {
    if Unparen(e).Deref? { Unwritten(layout, Unparen(e).pointer, tw, s, l); }
  }

  // --------------------------------------------------------- the same effect

  /** The value of l has not changed since it was remembered. */
  ghost predicate StillHolds(s: Store, tw: TwinValue) {
    tw.loc in s && s[tw.loc] == tw.v
  }

  ghost predicate SameLookPlace(r: Option<(Loc, Res)>, r': Option<(Loc, Res)>, t: Loc, x: nat) {
    r.Some? ==> && r'.Some? && r'.value.0 == r.value.0 != t && r'.value.1.st == r.value.1.st[t := x]
                && r'.value.1.wr == r.value.1.wr && r'.value.1.pending == r.value.1.pending && t !in r.value.1.wr && t !in r.value.1.rd
                && r.value.1.rd <= r'.value.1.rd <= r.value.1.rd + {t}
  }

  lemma LookSequencing(a: Res, b: Res, a': Res, b': Res, t: Loc)
    requires Unsequenced(a, b) && t !in a.wr + b.wr
    requires a'.wr == a.wr && b'.wr == b.wr && a'.rd <= a.rd + {t} && b'.rd <= b.rd + {t}
    ensures Unsequenced(a', b')
  {
  }

  lemma LookBinary(e: Expr, f: Expr, a: Res, b: Res, a': Res, b': Res, t: Loc, x: nat)
    requires e.Binary? && f.Binary? && f.bop == e.bop && f.bty == e.bty
    requires TypeOf(f.left) == TypeOf(e.left) && TypeOf(f.right) == TypeOf(e.right)
    requires SameLook(Some(a), Some(a'), t, x) && SameLook(Some(b), Some(b'), t, x)
    ensures SameLook(BinaryResult(e, a, b), BinaryResult(f, a', b'), t, x)
  {
    hide BinaryValue;
    if Unsequenced(a, b) {
      LookSequencing(a, b, a', b', t);
    }
  }

  lemma LookAssign(l: Loc, a: Res, b: Res, a': Res, b': Res, t: Loc, x: nat)
    requires SameLook(Some(a.(v := 0)), Some(a'.(v := 0)), t, x) && SameLook(Some(b), Some(b'), t, x) && l != t
    ensures SameLook(AssignResult(l, a, b), AssignResult(l, a', b'), t, x)
  {
    if Unsequenced(a, b) {
      LookSequencing(a, b, a', b', t);
      SwapWrites(b.st, l, b.v, t, x);
    }
  }

  lemma {:induction e} UntwinType(e: Expr, shared: Expr, place: Expr, layout: Layout)
    requires WellTyped(layout, e, Some(shared)) && TypeOf(place) == TypeOf(shared)
    ensures TypeOf(Untwin(e, place)) == TypeOf(e)
  {
  }

  /** Reading the left-hand side again through the kept pointer gives what was
      remembered, as long as it is not written in between. */
  lemma {:induction false} SecondLook(layout: Layout, e: Expr, shared: Expr, tw: TwinValue, s: Store, t: Loc, x: nat)
    requires WellTyped(layout, e, Some(shared)) && TwinsAreValues(e) && !Mentions(e, t)
    requires PointsTo(layout, t, x, TypeOf(shared), tw.loc) && StillHolds(s, tw)
    ensures var r := Eval(layout, e, Some(tw), s);
            r.Some? && tw.loc !in r.value.wr ==>
              && SameLook(r, Eval(layout, Untwin(e, Through(t, shared)), None, s[t := x]), t, x)
              && StillHolds(r.value.st, tw)
    decreases e, 1
  {
    Unwritten(layout, e, Some(tw), s, tw.loc);
    match e
    case Const(_, _) =>
    case Var(_, _) => FreshFrame(layout, e, None, s, t, x);
    case Paren(i) => SecondLook(layout, i, shared, tw, s, t, x);
    case Unary(_, _, _) => LookAtOne(layout, e, shared, tw, s, t, x);
    case Cast(_, _) => LookAtOne(layout, e, shared, tw, s, t, x);
    case Twin(_) => ReadThrough(layout, t, x, TypeOf(shared), tw.loc, s);
    case Binary(_, _, _, _) => LookAtBinary(layout, e, shared, tw, s, t, x);
    case Logical(_, _, _) => LookAtLogical(layout, e, shared, tw, s, t, x);
    case Ternary(_, _, _, _) => LookAtTernary(layout, e, shared, tw, s, t, x);
    case _ => LookAtAccess(layout, e, shared, tw, s, t, x);
  }

  /** The left-hand side as it is reached through the kept pointer. */
  function Through(t: Loc, shared: Expr): Expr {
    Deref(Var(t, Pointer(TypeOf(shared))), TypeOf(shared))
  }

  lemma {:induction false} LookAtOne(layout: Layout, e: Expr, shared: Expr, tw: TwinValue, s: Store, t: Loc, x: nat)
    requires e.Unary? || e.Cast?
    requires WellTyped(layout, e, Some(shared)) && TwinsAreValues(e) && !Mentions(e, t)
    requires PointsTo(layout, t, x, TypeOf(shared), tw.loc) && StillHolds(s, tw)
    ensures var r := Eval(layout, e, Some(tw), s);
            r.Some? && tw.loc !in r.value.wr ==> SameLook(r, Eval(layout, Untwin(e, Through(t, shared)), None, s[t := x]), t, x)
    decreases e, 0
  {
    hide PointsTo;
    var o := if e.Unary? then e.operand else e.from;
    SecondLook(layout, o, shared, tw, s, t, x);
    UntwinType(o, shared, Through(t, shared), layout);
  }

  lemma {:induction false} LookAtBinary(layout: Layout, e: Expr, shared: Expr, tw: TwinValue, s: Store, t: Loc, x: nat)
    requires e.Binary? && WellTyped(layout, e, Some(shared)) && TwinsAreValues(e) && !Mentions(e, t)
    requires PointsTo(layout, t, x, TypeOf(shared), tw.loc) && StillHolds(s, tw)
    ensures var r := Eval(layout, e, Some(tw), s);
            r.Some? && tw.loc !in r.value.wr ==> SameLook(r, Eval(layout, Untwin(e, Through(t, shared)), None, s[t := x]), t, x)
    decreases e, 0
  {
    hide Eval, PointsTo, BinaryValue, Unsequenced;
    var place := Through(t, shared);
    var f := Untwin(e, place);
    assert f == Binary(e.bop, Untwin(e.left, place), Untwin(e.right, place), e.bty);
    EvalBinary(layout, e, Some(tw), s);
    EvalBinary(layout, f, None, s[t := x]);
    SecondLook(layout, e.left, shared, tw, s, t, x);
    UntwinType(e.left, shared, place, layout);
    UntwinType(e.right, shared, place, layout);
    hide Untwin, WellTyped, TwinsAreValues, Mentions, TypeOf;
    var a := Eval(layout, e.left, Some(tw), s);
    if a.Some? && tw.loc !in a.value.wr {
      SecondLook(layout, e.right, shared, tw, a.value.st, t, x);
      var b := Eval(layout, e.right, Some(tw), a.value.st);
      if b.Some? && tw.loc !in b.value.wr {
        var a' := Eval(layout, f.left, None, s[t := x]);
        LookBinary(e, f, a.value, b.value, a'.value, Eval(layout, f.right, None, a'.value.st).value, t, x);
      }
    }
  }

  lemma {:induction false} LookAtLogical(layout: Layout, e: Expr, shared: Expr, tw: TwinValue, s: Store, t: Loc, x: nat)
    requires e.Logical? && WellTyped(layout, e, Some(shared)) && TwinsAreValues(e) && !Mentions(e, t)
    requires PointsTo(layout, t, x, TypeOf(shared), tw.loc) && StillHolds(s, tw)
    ensures var r := Eval(layout, e, Some(tw), s);
            r.Some? && tw.loc !in r.value.wr ==> SameLook(r, Eval(layout, Untwin(e, Through(t, shared)), None, s[t := x]), t, x)
    decreases e, 0
  {
    hide Eval, PointsTo;
    EvalLogical(layout, e, Some(tw), s);
    EvalLogical(layout, Untwin(e, Through(t, shared)), None, s[t := x]);
    SecondLook(layout, e.lhs, shared, tw, s, t, x);
    var a := Eval(layout, e.lhs, Some(tw), s);
    if a.Some? && tw.loc !in a.value.wr {
      SecondLook(layout, e.rhs, shared, tw, a.value.st, t, x);
    }
  }

  lemma {:induction false} LookAtTernary(layout: Layout, e: Expr, shared: Expr, tw: TwinValue, s: Store, t: Loc, x: nat)
    requires e.Ternary? && WellTyped(layout, e, Some(shared)) && TwinsAreValues(e) && !Mentions(e, t)
    requires PointsTo(layout, t, x, TypeOf(shared), tw.loc) && StillHolds(s, tw)
    ensures var r := Eval(layout, e, Some(tw), s);
            r.Some? && tw.loc !in r.value.wr ==> SameLook(r, Eval(layout, Untwin(e, Through(t, shared)), None, s[t := x]), t, x)
    decreases e, 0
  {
    hide Eval, PointsTo;
    EvalTernary(layout, e, Some(tw), s);
    EvalTernary(layout, Untwin(e, Through(t, shared)), None, s[t := x]);
    SecondLook(layout, e.cond, shared, tw, s, t, x);
    var a := Eval(layout, e.cond, Some(tw), s);
    if a.Some? && tw.loc !in a.value.wr {
      SecondLook(layout, if a.value.v != 0 then e.thn else e.els, shared, tw, a.value.st, t, x);
    }
  }

  lemma {:induction false} LookAtAccess(layout: Layout, e: Expr, shared: Expr, tw: TwinValue, s: Store, t: Loc, x: nat)
    requires e.Assign? || e.IncDec? || e.Deref? || e.AddressOf?
    requires WellTyped(layout, e, Some(shared)) && TwinsAreValues(e) && !Mentions(e, t)
    requires PointsTo(layout, t, x, TypeOf(shared), tw.loc) && StillHolds(s, tw)
    ensures var r := Eval(layout, e, Some(tw), s);
            r.Some? && tw.loc !in r.value.wr ==> SameLook(r, Eval(layout, Untwin(e, Through(t, shared)), None, s[t := x]), t, x)
    decreases e, 0, 1
  {
    hide Eval, PointsTo, WellTyped, TwinsAreValues, Mentions;
    if e.Assign? {
      LookAtAssign(layout, e, shared, tw, s, t, x);
    } else if e.IncDec? {
      LookAtIncDec(layout, e, shared, tw, s, t, x);
    } else if e.Deref? {
      LookAtDeref(layout, e, shared, tw, s, t, x);
    } else {
      LookAtAddress(layout, e, shared, tw, s, t, x);
    }
  }

  /** What holds of the parts of an expression under parentheses. */
  lemma PartsOf(layout: Layout, e: Expr, shared: Expr, t: Loc)
    requires WellTyped(layout, e, Some(shared)) && TwinsAreValues(e) && !Mentions(e, t)
    ensures var u := Unparen(e);
            && (u.Deref? ==> WellTyped(layout, u.pointer, Some(shared)) && TwinsAreValues(u.pointer) && !Mentions(u.pointer, t))
            && (u.AddressOf? ==> WellTyped(layout, u.lvalue, Some(shared)) && TwinsAreValues(u.lvalue) && !Mentions(u.lvalue, t))
  {
    MentionsUnparen(e, t);
    ValuesUnparen(e);
    TypedUnparen(layout, e, shared);
  }

  lemma EvalDeref(layout: Layout, e: Expr, tw: Option<TwinValue>, s: Store)
    requires e.Deref?
    ensures Eval(layout, e, tw, s) ==
            if Unparen(e.pointer).AddressOf? then Eval(layout, Unparen(e.pointer).lvalue, tw, s) else
            var (l, a) :- EvalPlace(layout, e, tw, s);
            Some(Res(a.st[l], a.st, a.rd + {l}, a.wr, a.pending))
  {
  }

  lemma {:induction false} LookAtDeref(layout: Layout, e: Expr, shared: Expr, tw: TwinValue, s: Store, t: Loc, x: nat)
    requires e.Deref? && WellTyped(layout, e, Some(shared)) && TwinsAreValues(e) && !Mentions(e, t)
    requires PointsTo(layout, t, x, TypeOf(shared), tw.loc) && StillHolds(s, tw)
    ensures var r := Eval(layout, e, Some(tw), s);
            r.Some? && tw.loc !in r.value.wr ==> SameLook(r, Eval(layout, Untwin(e, Through(t, shared)), None, s[t := x]), t, x)
    decreases e, 0, 0, 1
  {
    var f := Untwin(e, Through(t, shared));
    assert WellTyped(layout, e.pointer, Some(shared)) && TwinsAreValues(e.pointer) && !Mentions(e.pointer, t);
    hide Eval, EvalPlace, PointsTo, WellTyped, TwinsAreValues, Mentions;
    UntwinForm(e.pointer, Through(t, shared));
    PartsOf(layout, e.pointer, shared, t);
    EvalDeref(layout, e, Some(tw), s);
    EvalDeref(layout, f, None, s[t := x]);
    if Unparen(e.pointer).AddressOf? {
      SecondLook(layout, Unparen(e.pointer).lvalue, shared, tw, s, t, x);
    } else {
      LookAtPlace(layout, e, shared, tw, s, t, x);
    }
  }

  lemma {:induction false} LookAtAddress(layout: Layout, e: Expr, shared: Expr, tw: TwinValue, s: Store, t: Loc, x: nat)
    requires e.AddressOf? && WellTyped(layout, e, Some(shared)) && TwinsAreValues(e) && !Mentions(e, t)
    requires PointsTo(layout, t, x, TypeOf(shared), tw.loc) && StillHolds(s, tw)
    ensures var r := Eval(layout, e, Some(tw), s);
            r.Some? && tw.loc !in r.value.wr ==> SameLook(r, Eval(layout, Untwin(e, Through(t, shared)), None, s[t := x]), t, x)
    decreases e, 0, 0, 1
  {
    assert WellTyped(layout, e.lvalue, Some(shared)) && TwinsAreValues(e.lvalue) && !Mentions(e.lvalue, t) && !Unparen(e.lvalue).Twin?;
    hide PointsTo, WellTyped, TwinsAreValues, Mentions;
    UntwinForm(e.lvalue, Through(t, shared));
    PartsOf(layout, e.lvalue, shared, t);
    if Unparen(e.lvalue).Deref? { SecondLook(layout, Unparen(e.lvalue).pointer, shared, tw, s, t, x); }
  }

  lemma NamesApart(e: Expr, t: Loc)
    requires !Mentions(e, t)
    ensures Unparen(e).Var? ==> Unparen(e).loc != t
  {
    MentionsUnparen(e, t);
  }

  lemma {:induction e} TypedUnparen(layout: Layout, e: Expr, shared: Expr)
    requires WellTyped(layout, e, Some(shared))
    ensures WellTyped(layout, Unparen(e), Some(shared))
  {
  }

  lemma {:induction false} LookAtPlace(layout: Layout, e: Expr, shared: Expr, tw: TwinValue, s: Store, t: Loc, x: nat)
    requires WellTyped(layout, e, Some(shared)) && TwinsAreValues(e) && !Mentions(e, t) && !Unparen(e).Twin?
    requires PointsTo(layout, t, x, TypeOf(shared), tw.loc) && StillHolds(s, tw)
    ensures var r := EvalPlace(layout, e, Some(tw), s);
            r.Some? && tw.loc !in r.value.1.wr ==>
              && SameLookPlace(r, EvalPlace(layout, Untwin(e, Through(t, shared)), None, s[t := x]), t, x)
              && StillHolds(r.value.1.st, tw)
    decreases e, 0, 0, 0
  {
    hide Eval, WellTyped, TwinsAreValues, Mentions;
    UntwinForm(e, Through(t, shared));
    PartsOf(layout, e, shared, t);
    NamesApart(e, t);
    if Unparen(e).Deref? {
      SecondLook(layout, Unparen(e).pointer, shared, tw, s, t, x);
    }
  }

  lemma {:induction false} LookAtAssign(layout: Layout, e: Expr, shared: Expr, tw: TwinValue, s: Store, t: Loc, x: nat)
    requires e.Assign? && WellTyped(layout, e, Some(shared)) && TwinsAreValues(e) && !Mentions(e, t)
    requires PointsTo(layout, t, x, TypeOf(shared), tw.loc) && StillHolds(s, tw)
    ensures var r := Eval(layout, e, Some(tw), s);
            r.Some? && tw.loc !in r.value.wr ==> SameLook(r, Eval(layout, Untwin(e, Through(t, shared)), None, s[t := x]), t, x)
    decreases e, 0, 0
  {
    var f := Untwin(e, Through(t, shared));
    UntwinForm(e.target, Through(t, shared));
    LookAtPlace(layout, e.target, shared, tw, s, t, x);
    assert t !in layout;
    hide Eval, EvalPlace, PointsTo, WellTyped, TwinsAreValues;
    EvalAssign(layout, e, Some(tw), s);
    EvalAssign(layout, f, None, s[t := x]);
    var p := EvalPlace(layout, e.target, Some(tw), s);
    if p.Some? && tw.loc !in p.value.1.wr {
      var (l, a) := p.value;
      var a' := EvalPlace(layout, f.target, None, s[t := x]).value.1;
      assert Remembered(f, l, a') == Remembered(e, l, a);
      FreshFrame(layout, e.source, Remembered(e, l, a), a.st, t, x);
      var b := Eval(layout, e.source, Remembered(e, l, a), a.st);
      if b.Some? {
        LookAssign(l, a, b.value, a', b.value.(st := b.value.st[t := x]), t, x);
      }
    }
  }

  lemma PlaceParts(layout: Layout, e: Expr, shared: Expr, t: Loc)
    requires e.IncDec? && WellTyped(layout, e, Some(shared)) && TwinsAreValues(e) && !Mentions(e, t)
    ensures WellTyped(layout, e.place, Some(shared)) && TwinsAreValues(e.place) && !Mentions(e.place, t) && !Unparen(e.place).Twin?
  {
  }

  lemma {:induction false} LookAtIncDec(layout: Layout, e: Expr, shared: Expr, tw: TwinValue, s: Store, t: Loc, x: nat)
    requires e.IncDec? && WellTyped(layout, e, Some(shared)) && TwinsAreValues(e) && !Mentions(e, t)
    requires PointsTo(layout, t, x, TypeOf(shared), tw.loc) && StillHolds(s, tw)
    ensures var r := Eval(layout, e, Some(tw), s);
            r.Some? && tw.loc !in r.value.wr ==> SameLook(r, Eval(layout, Untwin(e, Through(t, shared)), None, s[t := x]), t, x)
    decreases e, 0, 0
  {
    hide Eval, EvalPlace, PointsTo, WellTyped, TwinsAreValues, Mentions, IncDecValue;
    PlaceParts(layout, e, shared, t);
    EvalStep(layout, e, Some(tw), s);
    EvalStep(layout, Untwin(e, Through(t, shared)), None, s[t := x]);
    LookAtPlace(layout, e.place, shared, tw, s, t, x);
    var p := EvalPlace(layout, e.place, Some(tw), s);
    if p.Some? && tw.loc !in p.value.1.wr {
      SwapWrites(p.value.1.st, p.value.0, IncDecValue(e.increment, e.ity, p.value.1.st[p.value.0]), t, x);
    }
  }

  // ---------------------------------------------------------- the main statement

  /** `t = &*lhs` */
  function Keep(lhs: Expr, t: Loc): Expr
    requires Unparen(lhs).Deref?
  {
    Assign(Var(t, Pointer(TypeOf(lhs))), Unparen(lhs).pointer, false, Pointer(TypeOf(lhs)))
  }

  /** `*t = *t op r` */
  function AssignThrough(lhs: Expr, source: Expr, t: Loc): Expr {
    Assign(Through(t, lhs), Untwin(source, Through(t, lhs)), false, TypeOf(lhs))
  }

  lemma KeepEffect(layout: Layout, lhs: Expr, s: Store, t: Loc)
    requires Unparen(lhs).Deref? && t !in layout && !Mentions(lhs, t)
    requires Eval(layout, Unparen(lhs).pointer, None, s).Some?
    ensures var a := Eval(layout, Unparen(lhs).pointer, None, s).value;
            var r := Eval(layout, Keep(lhs, t), None, s[t := 0]);
            r.Some? && r.value.v == a.v && r.value.st == a.st[t := a.v]
  {
    hide Eval, EvalPlace, TypeOf;
    var e, p := Keep(lhs, t), Unparen(lhs).pointer;
    MentionsUnparen(lhs, t);
    hide Mentions;
    FreshFrame(layout, p, None, s, t, 0);
    PendingWritten(layout, p, None, s);
    EvalAssign(layout, e, None, s[t := 0]);
    var a := Eval(layout, p, None, s).value;
    VarPlace(layout, t, Pointer(TypeOf(lhs)), s[t := 0]);
    assert a.st[t := 0][t := a.v] == a.st[t := a.v];
  }

  lemma VarPlace(layout: Layout, t: Loc, ty: CType, s: Store)
    requires t in s
    ensures EvalPlace(layout, Var(t, ty), None, s) == Some((t, Res(0, s, {}, {}, {})))
  {
  }

  lemma ThroughPlace(layout: Layout, t: Loc, x: nat, ty: CType, l: Loc, st: Store)
    requires PointsTo(layout, t, x, ty, l) && l in st
    ensures EvalPlace(layout, Deref(Var(t, Pointer(ty)), ty), None, st[t := x]) == Some((l, Res(x, st[t := x], {t}, {}, {})))
  {
    var pointer := Var(t, Pointer(ty));
    assert Unparen(Deref(pointer, ty)) == Deref(pointer, ty);
    assert Eval(layout, pointer, None, st[t := x]) == Some(Res(x, st[t := x], {t}, {}, {}));
  }

  lemma ThroughEffect(layout: Layout, lhs: Expr, source: Expr, st: Store, t: Loc, x: nat, l: Loc, b: Res)
    requires WellTyped(layout, source, Some(lhs)) && TwinsAreValues(source) && !Mentions(source, t)
    requires PointsTo(layout, t, x, TypeOf(lhs), l) && l in st && l !in b.wr
    requires Eval(layout, source, Some(TwinValue(l, st[l])), st) == Some(b)
    ensures var r := Eval(layout, AssignThrough(lhs, source, t), None, st[t := x]);
            r.Some? && r.value.v == b.v && r.value.st == b.st[l := b.v][t := x]
  {
    hide Eval, EvalPlace, WellTyped, TwinsAreValues, Mentions, Untwin, TypeOf, LocAt;
    var e := AssignThrough(lhs, source, t);
    SecondLook(layout, source, lhs, TwinValue(l, st[l]), st, t, x);
    PendingWritten(layout, source, Some(TwinValue(l, st[l])), st);
    ThroughPlace(layout, t, x, TypeOf(lhs), l, st);
    EvalAssign(layout, e, None, st[t := x]);
    SwapWrites(b.st, l, b.v, t, x);
  }

  lemma {:induction e} TypeUnparen(e: Expr)
    ensures TypeOf(Unparen(e)) == TypeOf(e)
  {
  }

  /** The old value is an operand of the new one, as in every tree that the semantic
      pass builds; casts may stand in between. */
  predicate UsesTwin(e: Expr) {
    match e
    case Twin(_) => true
    case Paren(i) => UsesTwin(i)
    case Cast(f, _) => UsesTwin(f)
    case Binary(_, x, _, _) => UsesTwin(x)
    case _ => false
  }

  /** Such an operand is unsequenced with the other one, which therefore does not write
      the object. */
  lemma {:induction false} TwinNotWritten(layout: Layout, e: Expr, tw: TwinValue, s: Store)
    requires UsesTwin(e) && Eval(layout, e, Some(tw), s).Some?
    ensures var r := Eval(layout, e, Some(tw), s).value; tw.loc in r.rd && tw.loc !in r.wr
    decreases e
  {
    match e
    case Twin(_) =>
    case Paren(i) => TwinNotWritten(layout, i, tw, s);
    case Cast(f, _) => TwinNotWritten(layout, f, tw, s);
    case Binary(_, x, _, _) =>
      EvalBinary(layout, e, Some(tw), s);
      TwinNotWritten(layout, x, tw, s);
  }

  lemma SourceTyped(layout: Layout, lhs: Expr, source: Expr)
    requires WellTyped(layout, Assign(lhs, source, true, TypeOf(lhs)), None)
    ensures WellTyped(layout, source, Some(lhs))
  {
  }

  lemma PlaceThere(layout: Layout, lhs: Expr, s: Store)
    requires Unparen(lhs).Deref? && EvalPlace(layout, lhs, None, s).Some?
    ensures var (l, a) := EvalPlace(layout, lhs, None, s).value;
            LocAt(layout, a.v, TypeOf(lhs).Size()) == Some(l) && Eval(layout, Unparen(lhs).pointer, None, s) == Some(a)
  {
    hide Eval, LocAt;
    TypeUnparen(lhs);
  }

  /** Section 6.5.16.2: whatever the left-hand side does, it does once. */
  lemma LeftSideOnce(layout: Layout, lhs: Expr, source: Expr, s: Store, t: Loc)
    requires WellTyped(layout, Assign(lhs, source, true, TypeOf(lhs)), None) && TwinsAreValues(source) && UsesTwin(source)
    requires Unparen(lhs).Deref? && t !in layout && !Mentions(lhs, t) && !Mentions(source, t)
    requires Eval(layout, Assign(lhs, source, true, TypeOf(lhs)), None, s).Some?
    ensures var r := Eval(layout, Assign(lhs, source, true, TypeOf(lhs)), None, s).value;
            var kept := Eval(layout, Keep(lhs, t), None, s[t := 0]);
            && kept.Some?
            && var done := Eval(layout, AssignThrough(lhs, source, t), None, kept.value.st);
               done.Some? && done.value.v == r.v && done.value.st == r.st[t := kept.value.v]
  {
    var e := Assign(lhs, source, true, TypeOf(lhs));
    SourceTyped(layout, lhs, source);
    EvalAssign(layout, e, None, s);
    PlaceThere(layout, lhs, s);
    var (l, a) := EvalPlace(layout, lhs, None, s).value;
    hide Eval, EvalPlace, WellTyped, TwinsAreValues, UsesTwin, Mentions, TypeOf, LocAt, Untwin, Unsequenced;
    KeepEffect(layout, lhs, s, t);
    var b := Eval(layout, source, Some(TwinValue(l, a.st[l])), a.st).value;
    TwinNotWritten(layout, source, TwinValue(l, a.st[l]), a.st);
    ThroughEffect(layout, lhs, source, a.st, t, a.v, l, b);
  }

  /** The same for the tree that the semantic pass builds. */
  lemma CompoundOnce(layout: Layout, op: BinaryOp, lhs: Expr, rhs: Expr, s: Store, t: Loc)
    requires WellTyped(layout, Expand(op, lhs, rhs, TypeOf(lhs)), None) && TwinsAreValues(rhs)
    requires Unparen(lhs).Deref? && t !in layout && !Mentions(lhs, t) && !Mentions(rhs, t)
    requires Eval(layout, Expand(op, lhs, rhs, TypeOf(lhs)), None, s).Some?
    ensures var r := Eval(layout, Expand(op, lhs, rhs, TypeOf(lhs)), None, s).value;
            var kept := Eval(layout, Keep(lhs, t), None, s[t := 0]);
            var again := Binary(op, Through(t, lhs), Untwin(rhs, Through(t, lhs)), TypeOf(lhs));
            && kept.Some?
            && var done := Eval(layout, Assign(Through(t, lhs), again, false, TypeOf(lhs)), None, kept.value.st);
               done.Some? && done.value.v == r.v && done.value.st == r.st[t := kept.value.v]
  {
    hide Eval, EvalPlace, WellTyped, TwinsAreValues, Mentions;
    ExpandedParts(op, lhs, rhs, t);
    LeftSideOnce(layout, lhs, Binary(op, Twin(lhs), rhs, TypeOf(lhs)), s, t);
  }

  lemma ExpandedParts(op: BinaryOp, lhs: Expr, rhs: Expr, t: Loc)
    requires TwinsAreValues(rhs) && !Mentions(lhs, t) && !Mentions(rhs, t)
    ensures var source := Binary(op, Twin(lhs), rhs, TypeOf(lhs));
            && TwinsAreValues(source) && !Mentions(source, t)
            && AssignThrough(lhs, source, t) ==
               Assign(Through(t, lhs), Binary(op, Through(t, lhs), Untwin(rhs, Through(t, lhs)), TypeOf(lhs)), false, TypeOf(lhs))
  {
    assert TwinsAreValues(Twin(lhs)) && Mentions(Twin(lhs), t) == Mentions(lhs, t);
    assert Untwin(Twin(lhs), Through(t, lhs)) == Through(t, lhs);
  }

  // ------------------------------------------------------------ what it computes

  /** An expression that stands in no compound assignment of its own does not ask for
      a remembered object. */
  lemma {:induction false} NothingAsked(layout: Layout, e: Expr, tw: Option<TwinValue>, s: Store)
    requires WellTyped(layout, e, None)
    ensures Eval(layout, e, tw, s) == Eval(layout, e, None, s)
    decreases e, 1
  {
    match e
    case Const(_, _) =>
    case Var(_, _) =>
    case Paren(i) => NothingAsked(layout, i, tw, s);
    case Unary(_, o, _) => NothingAsked(layout, o, tw, s);
    case Twin(_) =>
    case Cast(f, _) => NothingAsked(layout, f, tw, s);
    case Binary(_, x, y, _) => NothingAskedBoth(layout, e, x, y, y, tw, s);
    case Logical(_, x, y) => NothingAskedBoth(layout, e, x, y, y, tw, s);
    case Ternary(c, x, y, _) => NothingAskedBoth(layout, e, c, x, y, tw, s);
    case _ => NothingAskedAccess(layout, e, tw, s);
  }

  lemma {:induction false} NothingAskedBoth(layout: Layout, e: Expr, first: Expr, second: Expr, third: Expr, tw: Option<TwinValue>, s: Store)
    requires WellTyped(layout, e, None)
    requires match e
             case Binary(_, x, y, _) => first == x && second == y && third == y
             case Logical(_, x, y) => first == x && second == y && third == y
             case Ternary(c, x, y, _) => first == c && second == x && third == y
             case _ => false
    ensures Eval(layout, e, tw, s) == Eval(layout, e, None, s)
    decreases e, 0
  {
    PartsTyped(layout, e, first, second, third);
    hide Eval, BinaryResult, Both, WellTyped;
    NothingAsked(layout, first, tw, s);
    var a := Eval(layout, first, None, s);
    if a.Some? {
      NothingAsked(layout, second, tw, a.value.st);
      NothingAsked(layout, third, tw, a.value.st);
    }
    if e.Binary? {
      EvalBinary(layout, e, tw, s);
      EvalBinary(layout, e, None, s);
    } else if e.Logical? {
      EvalLogical(layout, e, tw, s);
      EvalLogical(layout, e, None, s);
    } else {
      EvalTernary(layout, e, tw, s);
      EvalTernary(layout, e, None, s);
    }
  }

  lemma PartsTyped(layout: Layout, e: Expr, first: Expr, second: Expr, third: Expr)
    requires WellTyped(layout, e, None)
    requires match e
             case Binary(_, x, y, _) => first == x && second == y && third == y
             case Logical(_, x, y) => first == x && second == y && third == y
             case Ternary(c, x, y, _) => first == c && second == x && third == y
             case _ => false
    ensures WellTyped(layout, first, None) && WellTyped(layout, second, None) && WellTyped(layout, third, None)
  {
  }

  lemma {:induction false} NothingAskedAccess(layout: Layout, e: Expr, tw: Option<TwinValue>, s: Store)
    requires WellTyped(layout, e, None) && (e.Assign? || e.IncDec? || e.Deref? || e.AddressOf?)
    ensures Eval(layout, e, tw, s) == Eval(layout, e, None, s)
    decreases e, 0, 1
  {
    if e.Assign? {
      NothingAskedPlace(layout, e.target, tw, s);
      EvalAssign(layout, e, tw, s);
      EvalAssign(layout, e, None, s);
    } else if e.IncDec? {
      NothingAskedPlace(layout, e.place, tw, s);
      EvalStep(layout, e, tw, s);
      EvalStep(layout, e, None, s);
    } else if e.Deref? {
      NothingAskedDeref(layout, e, tw, s);
    } else {
      TypedPlain(layout, e.lvalue);
      if Unparen(e.lvalue).Deref? { NothingAsked(layout, Unparen(e.lvalue).pointer, tw, s); }
    }
  }

  lemma {:induction false} NothingAskedDeref(layout: Layout, e: Expr, tw: Option<TwinValue>, s: Store)
    requires WellTyped(layout, e, None) && e.Deref?
    ensures Eval(layout, e, tw, s) == Eval(layout, e, None, s)
    decreases e, 0, 0, 1
  {
    TypedPlain(layout, e.pointer);
    if Unparen(e.pointer).AddressOf? { NothingAsked(layout, Unparen(e.pointer).lvalue, tw, s); } else { NothingAskedPlace(layout, e, tw, s); }
  }

  lemma {:induction e} TypedPlain(layout: Layout, e: Expr)
    requires WellTyped(layout, e, None)
    ensures WellTyped(layout, Unparen(e), None)
  {
  }

  lemma {:induction false} NothingAskedPlace(layout: Layout, e: Expr, tw: Option<TwinValue>, s: Store)
    requires WellTyped(layout, e, None)
    ensures EvalPlace(layout, e, tw, s) == EvalPlace(layout, e, None, s)
    decreases e, 0, 0, 0
  {
    TypedPlain(layout, e);
    if Unparen(e).Deref? { NothingAsked(layout, Unparen(e).pointer, tw, s); }
  }

  /** Whether the two sides can be taken in any order, and none of them writes the
      object that is assigned to. */
  ghost predicate SidesApart(l: Loc, a: Res, b: Res) {
    Unsequenced(a, b) && l !in a.wr && l !in b.wr
  }

  /** The old value, as the left operand reads it. */
  lemma OldValue(layout: Layout, lhs: Expr, l: Loc, a: Res, s: Store)
    requires IsNodeLvalue(lhs) && EvalPlace(layout, lhs, None, s) == Some((l, a))
    ensures var tw := if Unparen(lhs).Deref? then Some(TwinValue(l, a.st[l])) else None;
            Eval(layout, Twin(lhs), tw, a.st) == Some(Res(a.st[l], a.st, {l}, {}, {}))
  {
    if Unparen(lhs).Var? {
      ParenValue(layout, lhs, None, a.st);
      assert Eval(layout, Twin(lhs), None, a.st) == Eval(layout, lhs, None, a.st);
    }
  }

  lemma {:induction e} ParenValue(layout: Layout, e: Expr, tw: Option<TwinValue>, s: Store)
    ensures Eval(layout, e, tw, s) == Eval(layout, Unparen(e), tw, s)
  {
  }

  /** For every operator and every target, variable or dereference: the object that held
      v ends with `v op b`, where b is the value of the right side, and that is the value
      of the expression; all else is as the right side leaves it. It is undefined exactly
      when a side or the operator is, or when the sides get in each other's way. */
  lemma CompoundValue(layout: Layout, op: BinaryOp, lhs: Expr, rhs: Expr, ty: CType, s: Store)
    requires IsNodeLvalue(lhs) && WellTyped(layout, rhs, None)
    ensures var r := Eval(layout, Expand(op, lhs, rhs, ty), None, s);
            match EvalPlace(layout, lhs, None, s)
            case None => r.None?
            case Some((l, a)) =>
              match Eval(layout, rhs, None, a.st)
              case None => r.None?
              case Some(b) =>
                var n := BinaryValue(op, TypeOf(lhs), TypeOf(rhs), ty, a.st[l], b.v);
                && (r.Some? <==> n.Some? && SidesApart(l, a, b))
                && (r.Some? ==> r.value.v == n.value && r.value.st == b.st[l := n.value])
  {
    hide BinaryValue, WellTyped, Unsequenced;
    var e := Expand(op, lhs, rhs, ty);
    EvalAssign(layout, e, None, s);
    var p := EvalPlace(layout, lhs, None, s);
    if p.Some? {
      var (l, a) := p.value;
      var tw := if Unparen(lhs).Deref? then Some(TwinValue(l, a.st[l])) else None;
      OldValue(layout, lhs, l, a, s);
      EvalBinary(layout, e.source, tw, a.st);
      NothingAsked(layout, rhs, tw, a.st);
      PendingPlace(layout, lhs, None, s);
      PendingWritten(layout, rhs, None, a.st);
      hide Eval, EvalPlace;
      var b := Eval(layout, rhs, None, a.st);
      if b.Some? {
        CompoundResult(e, l, a, Res(a.st[l], a.st, {l}, {}, {}), b.value);
      }
    }
  }

  lemma SidesMeet(l: Loc, a: Res, held: Res, b: Res, v: nat)
    requires held.rd == {l} && held.wr == {} && held.pending == {} && a.pending <= a.wr && b.pending <= b.wr
    ensures var both := Both(held, b, v, held.pending + b.pending);
            (Unsequenced(held, b) && Unsequenced(a, both) && l !in a.pending + both.pending) <==> SidesApart(l, a, b)
  {
  }

  lemma CompoundResult(e: Expr, l: Loc, a: Res, held: Res, b: Res)
    requires e.Assign? && e.source.Binary? && l in a.st
    requires held.rd == {l} && held.wr == {} && held.pending == {} && a.pending <= a.wr && b.pending <= b.wr
    ensures var op := e.source;
            var n := BinaryValue(op.bop, TypeOf(op.left), TypeOf(op.right), op.bty, held.v, b.v);
            var c := BinaryResult(op, held, b);
            var r := if c.None? then None else AssignResult(l, a, c.value);
            && (r.Some? <==> n.Some? && SidesApart(l, a, b))
            && (r.Some? ==> r.value.v == n.value && r.value.st == b.st[l := n.value])
  {
    hide BinaryValue, Unsequenced, SidesApart, TypeOf;
    var op := e.source;
    var n := BinaryValue(op.bop, TypeOf(op.left), TypeOf(op.right), op.bty, held.v, b.v);
    SidesMeet(l, a, held, b, if n.Some? then n.value else 0);
  }
}
