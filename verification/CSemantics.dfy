/** What the source program means: a big-step semantics of expressions that
    follows the sequencing rules of ISO C11 (section 6.5 paragraph 2) and an
    execution function for statements. `None` and `Undefined` stand for
    undefined behaviour. */
module CSemantics {
  import opened Wrappers
  import opened CTypes
  import opened CAst

  /** Where the objects live: an address and a size for each. */
  datatype Slot = Slot(address: nat, size: nat)
  type Layout = map<Loc, Slot>
  type Store = map<Loc, nat>

  ghost predicate StoreOk(layout: Layout, s: Store) {
    forall l :: l in s ==> l in layout && s[l] < ModulusOfSize(layout[l].size)
  }

  /** The object that a pointer to `size` bytes designates. */
  ghost function LocAt(layout: Layout, address: nat, size: nat): Option<Loc> {
    if exists l :: l in layout && layout[l] == Slot(address, size)
    then var l :| l in layout && layout[l] == Slot(address, size); Some(l)
    else None
  }

  // ---------------------------------------------------------------- typing

  /** The shape that the type checker leaves behind: casts have been inserted,
      so that the two sides of an operator agree. `shared` is the left-hand side
      of the innermost enclosing compound assignment. */
  ghost predicate WellTyped(layout: Layout, e: Expr, shared: Option<Expr>)
    decreases e
  {
    match e
    case Const(_, _) => true
    case Var(l, t) => l in layout && layout[l].size == t.Size()
    case Paren(i) => WellTyped(layout, i, shared)
    case Unary(op, o, t) =>
      && WellTyped(layout, o, shared)
      && (if op.LogicalNot? then t == Int else t == TypeOf(o))
    case Binary(op, l, r, t) =>
      WellTyped(layout, l, shared) && WellTyped(layout, r, shared) && WellTypedBinary(op, TypeOf(l), TypeOf(r), t)
    case Logical(_, l, r) => WellTyped(layout, l, shared) && WellTyped(layout, r, shared)
    case Ternary(c, a, b, t) =>
      && WellTyped(layout, c, shared) && WellTyped(layout, a, shared) && WellTyped(layout, b, shared)
      && TypeOf(a) == t && TypeOf(b) == t
    case Assign(target, source, compound, t) =>
      && IsPlace(target) && WellTyped(layout, target, shared)
      && WellTyped(layout, source, if compound then Some(target) else None)
      && TypeOf(target) == t && TypeOf(source) == t
    case Twin(s) => shared == Some(s) && IsPlace(s) && WellTyped(layout, s, None)
    case IncDec(_, _, p, t) => IsPlace(p) && WellTyped(layout, p, shared) && TypeOf(p) == t
    case Deref(p, t) => WellTyped(layout, p, shared) && TypeOf(p) == Pointer(t)
    case AddressOf(o, t) =>
      && WellTyped(layout, o, shared) && t == Pointer(TypeOf(o))
      && IsNodeLvalue(o)
    case Cast(f, _) => WellTyped(layout, f, shared)
  }

  predicate WellTypedBinary(op: BinaryOp, lt: CType, rt: CType, t: CType) {
    if op.Add? && lt.Pointer? then rt == Long && t == lt
    else if op.Add? && rt.Pointer? then lt == Long && t == rt
    else if op.Subtract? && lt.Pointer? && rt.Pointer? then lt == rt && t == Long
    else if op.Subtract? && lt.Pointer? then rt == Long && t == lt
    else lt == rt && t == (if op.IsCompare() then Int else lt)
  }

  /** Lvalues: a variable or a dereference. */
  predicate IsNodeLvalue(e: Expr) {
    Unparen(e).Var? || Unparen(e).Deref?
  }

  /** The form *&x, in any parentheses. */
  predicate UndoesAddress(e: Expr) {
    Unparen(e).Deref? && Unparen(Unparen(e).pointer).AddressOf?
  }

  /** Lvalues that lowering can assign to. */
  predicate IsPlace(e: Expr) {
    IsNodeLvalue(e) && !UndoesAddress(e)
  }

  // ------------------------------------------------------------ expressions

  /** The value of an expression, the store it leaves, the objects that its evaluation
      read and wrote, and those that it wrote with no sequence point behind. */
  datatype Res = Res(v: nat, st: Store, rd: set<Loc>, wr: set<Loc>, pending: set<Loc>)

  /** The object behind the left-hand side of a compound assignment, and its
      value before the assignment. */
  datatype TwinValue = TwinValue(loc: Loc, v: nat)

  /** Section 6.5 paragraph 2: no side effect of one evaluation is unsequenced
      relative to an access of the same object in the other. */
  ghost predicate Unsequenced(a: Res, b: Res) {
    a.wr !! b.rd + b.wr && b.wr !! a.rd
  }

  function UnaryValue(op: UnaryOp, v: int): int {
    match op
    case Negate => -v
    case Complement => -v - 1
    case LogicalNot => if v == 0 then 1 else 0
  }

  function Truth(b: bool): int {
    if b then 1 else 0
  }

  /** Integer operators on integers; the operands and the result of the bitwise
      ones are object representations. */
  function ArithmeticValue(op: BinaryOp, t: CType, x: int, y: int): Option<int> {
    match op
    case Add => Some(x + y)
    case Subtract => Some(x - y)
    case Multiply => Some(x * y)
    case Divide => if y == 0 || (t.IsSigned() && x == -(Modulus(t) / 2) && y == -1) then None else Some(TruncDiv(x, y))
    case Remainder => if y == 0 || (t.IsSigned() && x == -(Modulus(t) / 2) && y == -1) then None else Some(TruncRem(x, y))
    case And => Some(BitAnd(Bits(t, x), Bits(t, y)))
    case Or => Some(BitOr(Bits(t, x), Bits(t, y)))
    case Xor => Some(BitXor(Bits(t, x), Bits(t, y)))
    case ShiftLeft => if 0 <= y < 8 * t.Size() then Some(x * Pow2(y)) else None
    case ShiftRight => if 0 <= y < 8 * t.Size() then Some(x / Pow2(y)) else None
    case Equal => Some(Truth(x == y))
    case NotEqual => Some(Truth(x != y))
    case Less => Some(Truth(x < y))
    case LessEq => Some(Truth(x <= y))
    case Greater => Some(Truth(x > y))
    case GreaterEq => Some(Truth(x >= y))
  }

  /** Binary operators, with pointer arithmetic in units of the referent
      (section 6.5.6). */
  function BinaryValue(op: BinaryOp, lt: CType, rt: CType, t: CType, a: nat, b: nat): Option<nat> {
    if op.Add? && lt.Pointer? then Some(Bits(t, a + Value(rt, b) * lt.referent.Size()))
    else if op.Add? && rt.Pointer? then Some(Bits(t, b + Value(lt, a) * rt.referent.Size()))
    else if op.Subtract? && lt.Pointer? && rt.Pointer? then
      Some(Bits(t, TruncDiv(Value(t, Bits(t, a - b)), lt.referent.Size())))
    else if op.Subtract? && lt.Pointer? then Some(Bits(t, a - Value(rt, b) * lt.referent.Size()))
    else
      var v :- ArithmeticValue(op, lt, Value(lt, a), Value(rt, b));
      Some(Bits(t, v))
  }

  function IncDecValue(increment: bool, t: CType, b: nat): nat {
    var unit := if t.Pointer? then t.referent.Size() else 1;
    Bits(t, Value(t, b) + if increment then unit else -unit)
  }

  /** One evaluation after another. */
  ghost function Both(a: Res, b: Res, v: nat, pending: set<Loc>): Res {
    Res(v, b.st, a.rd + b.rd, a.wr + b.wr, pending)
  }

  ghost function BinaryResult(e: Expr, a: Res, b: Res): (r: Option<Res>)
    requires e.Binary?
    ensures r.Some? ==> r.value.st == b.st && r.value.wr == a.wr + b.wr
  {
    if !Unsequenced(a, b) then None else
    var v :- BinaryValue(e.bop, TypeOf(e.left), TypeOf(e.right), e.bty, a.v, b.v);
    Some(Both(a, b, v, a.pending + b.pending))
  }

  /** The object l gets the value of b. */
  ghost function AssignResult(l: Loc, a: Res, b: Res): (r: Option<Res>)
    ensures r.Some? ==> r.value.st.Keys == b.st.Keys + {l} && r.value.wr == a.wr + b.wr + {l}
  {
    if !Unsequenced(a, b) || l in a.pending + b.pending then None
    else Some(Res(b.v, b.st[l := b.v], a.rd + b.rd, a.wr + b.wr + {l}, a.pending + b.pending + {l}))
  }

  /** What a compound assignment through a pointer remembers. */
  ghost function Remembered(e: Expr, l: Loc, a: Res): Option<TwinValue>
    requires e.Assign? && l in a.st
  {
    if e.compound && Unparen(e.target).Deref? then Some(TwinValue(l, a.st[l])) else None
  }

  ghost function StepResult(e: Expr, l: Loc, a: Res): (r: Option<Res>)
    requires e.IncDec? && l in a.st
    ensures r.Some? ==> r.value.st.Keys == a.st.Keys && r.value.wr == a.wr + {l}
  {
    if l in a.pending then None else
    var v := IncDecValue(e.increment, e.ity, a.st[l]);
    Some(Res(if e.prefix then v else a.st[l], a.st[l := v], a.rd + {l}, a.wr + {l}, a.pending + {l}))
  }

  ghost function Eval(layout: Layout, e: Expr, tw: Option<TwinValue>, s: Store): (r: Option<Res>)
    ensures r.Some? ==> r.value.st.Keys == s.Keys && r.value.wr <= s.Keys
    decreases e, 1
  {
    hide BinaryResult, AssignResult, StepResult, Both, Remembered, Bits, Value, LocAt, UnaryValue;
    match e
    case Const(n, t) => Some(Res(Bits(t, n), s, {}, {}, {}))
    case Var(l, t) => if l in s then Some(Res(s[l], s, {l}, {}, {})) else None
    case Paren(i) => Eval(layout, i, tw, s)
    case Unary(op, o, t) =>
      var r :- Eval(layout, o, tw, s);
      Some(r.(v := Bits(t, UnaryValue(op, Value(TypeOf(o), r.v)))))
    case Binary(op, x, y, t) =>
      var a :- Eval(layout, x, tw, s);
      var b :- Eval(layout, y, tw, a.st);
      BinaryResult(e, a, b)
    case Logical(isAnd, x, y) =>
      var a :- Eval(layout, x, tw, s);
      if (a.v != 0) != isAnd then Some(a.(v := if isAnd then 0 else 1)) else
      var b :- Eval(layout, y, tw, a.st);
      Some(Both(a, b, if b.v != 0 then 1 else 0, b.pending))
    case Ternary(c, x, y, t) =>
      var a :- Eval(layout, c, tw, s);
      var b :- Eval(layout, if a.v != 0 then x else y, tw, a.st);
      Some(Both(a, b, b.v, b.pending))
    case Assign(target, source, compound, t) =>
      var (l, a) :- EvalPlace(layout, target, tw, s);
      var b :- Eval(layout, source, Remembered(e, l, a), a.st);
      AssignResult(l, a, b)
    case Twin(shared) =>
      if tw.Some? then Some(Res(tw.value.v, s, {tw.value.loc}, {}, {})) else Eval(layout, shared, None, s)
    case IncDec(prefix, increment, p, t) =>
      var (l, a) :- EvalPlace(layout, p, tw, s);
      StepResult(e, l, a)
    case Deref(p, t) =>
      if Unparen(p).AddressOf? then Eval(layout, Unparen(p).lvalue, tw, s) else
      var (l, a) :- EvalPlace(layout, e, tw, s);
      Some(a.(v := a.st[l], rd := a.rd + {l}))
    case AddressOf(o, t) =>
      if Unparen(o).Deref? then Eval(layout, Unparen(o).pointer, tw, s)
      else if Unparen(o).Var? && Unparen(o).loc in layout then Some(Res(Bits(t, layout[Unparen(o).loc].address), s, {}, {}, {}))
      else None
    case Cast(f, t) =>
      var r :- Eval(layout, f, tw, s);
      Some(r.(v := Bits(t, Value(TypeOf(f), r.v))))
  }

  /** The object that an lvalue designates. */
  ghost function EvalPlace(layout: Layout, e: Expr, tw: Option<TwinValue>, s: Store): (r: Option<(Loc, Res)>)
    ensures r.Some? ==> r.value.1.st.Keys == s.Keys && r.value.1.wr <= s.Keys && r.value.0 in s
    decreases e, 0
  {
    match Unparen(e)
    case Var(l, t) => if l in s then Some((l, Res(0, s, {}, {}, {}))) else None
    case Deref(p, t) =>
      var a :- Eval(layout, p, tw, s);
      var l :- LocAt(layout, a.v, t.Size());
      if l in s then Some((l, a)) else None
    case _ => None
  }

  lemma EvalBinary(layout: Layout, e: Expr, tw: Option<TwinValue>, s: Store)
    requires e.Binary?
    ensures Eval(layout, e, tw, s) ==
            var a :- Eval(layout, e.left, tw, s);
            var b :- Eval(layout, e.right, tw, a.st);
            BinaryResult(e, a, b)
  {
  }

  lemma EvalAssign(layout: Layout, e: Expr, tw: Option<TwinValue>, s: Store)
    requires e.Assign?
    ensures Eval(layout, e, tw, s) ==
            var (l, a) :- EvalPlace(layout, e.target, tw, s);
            var b :- Eval(layout, e.source, Remembered(e, l, a), a.st);
            AssignResult(l, a, b)
  {
  }

  lemma EvalStep(layout: Layout, e: Expr, tw: Option<TwinValue>, s: Store)
    requires e.IncDec?
    ensures Eval(layout, e, tw, s) ==
            var (l, a) :- EvalPlace(layout, e.place, tw, s);
            StepResult(e, l, a)
  {
  }

  lemma EvalLogical(layout: Layout, e: Expr, tw: Option<TwinValue>, s: Store)
    requires e.Logical?
    ensures Eval(layout, e, tw, s) ==
            var a :- Eval(layout, e.lhs, tw, s);
            if (a.v != 0) != e.isAnd then Some(a.(v := if e.isAnd then 0 else 1)) else
            var b :- Eval(layout, e.rhs, tw, a.st);
            Some(Both(a, b, if b.v != 0 then 1 else 0, b.pending))
  {
  }

  lemma EvalTernary(layout: Layout, e: Expr, tw: Option<TwinValue>, s: Store)
    requires e.Ternary?
    ensures Eval(layout, e, tw, s) ==
            var a :- Eval(layout, e.cond, tw, s);
            var b :- Eval(layout, if a.v != 0 then e.thn else e.els, tw, a.st);
            Some(Both(a, b, b.v, b.pending))
  {
  }

  lemma EvalVarPlace(layout: Layout, l: Loc, ty: CType, tw: Option<TwinValue>, s: Store)
    requires l in s
    ensures EvalPlace(layout, Var(l, ty), tw, s) == Some((l, Res(0, s, {}, {}, {})))
  {
  }

  lemma EvalConst(layout: Layout, n: int, ty: CType, tw: Option<TwinValue>, s: Store)
    ensures Eval(layout, Const(n, ty), tw, s) == Some(Res(Bits(ty, n), s, {}, {}, {}))
  {
  }

  /** A controlling expression; an absent one counts as true. */
  ghost function EvalOptional(layout: Layout, e: Option<Expr>, s: Store): Option<Res> {
    if e.Some? then Eval(layout, e.value, None, s) else Some(Res(1, s, {}, {}, {}))
  }

  /** `x = x++ && 1` has a sequence point behind the step, and `x = x++` has none
      (sections 6.5.13 and 6.5.16). */
  lemma SequencePoints(layout: Layout, x: Loc)
    ensures var step := IncDec(false, true, Var(x, Int), Int);
            var both := Logical(true, step, Const(1, Int));
            && Eval(layout, Assign(Var(x, Int), both, false, Int), None, map[x := 7]) == Some(Res(1, map[x := 1], {x}, {x}, {x}))
            && Eval(layout, Assign(Var(x, Int), step, false, Int), None, map[x := 7]) == None
  {
    hide Eval, EvalPlace, Unsequenced, IncDecValue;
    var s: Store := map[x := 7];
    var step := IncDec(false, true, Var(x, Int), Int);
    var both := Logical(true, step, Const(1, Int));
    StepOnce(layout, x);
    EvalConst(layout, 1, Int, None, map[x := 8]);
    EvalLogical(layout, both, None, s);
    EvalVarPlace(layout, x, Int, None, s);
    EvalAssign(layout, Assign(Var(x, Int), both, false, Int), None, s);
    EvalAssign(layout, Assign(Var(x, Int), step, false, Int), None, s);
    AssignedOnce(x);
  }

  lemma StepOnce(layout: Layout, x: Loc)
    ensures Eval(layout, IncDec(false, true, Var(x, Int), Int), None, map[x := 7]) == Some(Res(7, map[x := 8], {x}, {x}, {x}))
  {
    hide Eval, EvalPlace;
    var s: Store := map[x := 7];
    EvalVarPlace(layout, x, Int, None, s);
    EvalStep(layout, IncDec(false, true, Var(x, Int), Int), None, s);
    assert s[x := 8] == map[x := 8] && {} + {x} == {x};
  }

  lemma AssignedOnce(x: Loc)
    ensures var a, b, c := Res(0, map[x := 7], {}, {}, {}), Res(1, map[x := 8], {x}, {x}, {}), Res(7, map[x := 8], {x}, {x}, {x});
            && AssignResult(x, a, b) == Some(Res(1, map[x := 1], {x}, {x}, {x})) && AssignResult(x, a, c) == None
            && Both(c, Res(1, map[x := 8], {}, {}, {}), 1, {}) == b
  {
    assert (map[x := 8])[x := 1] == map[x := 1];
    var none: set<Loc> := {};
    assert none + none == none && none + {x} == {x} && {x} + none == {x} && {x} + {x} == {x};
  }

  // ------------------------------------------------------------- statements

  /** How a statement is entered: at its start, or at a label inside it. */
  datatype Mode = Go | SeekCase(ty: CType, v: nat) | SeekDefault | SeekLabel(name: string)

  datatype Outcome = Normal | Broke | Continued | Returned(v: Option<Typed>) | Jumped(name: string)

  datatype ExecResult = Timeout | Undefined | Done(out: Outcome, st: Store)

  /** Whether the label that m looks for is inside s. The case labels of an inner
      switch belong to that switch. */
  predicate Has(m: Mode, s: Stmt) {
    match s
    case Label(n, _) => m == SeekLabel(n)
    case Case(n, _) => m.SeekCase? && Bits(m.ty, n) == m.v
    case Default(_) => m.SeekDefault?
    case Block(f) => HasFlat(m, f)
    case IfElse(_, a, b) => HasFlat(m, a) || (b.Some? && HasFlat(m, b.value))
    case Loop(_, b, _, _, _, _, _) => HasFlat(m, b)
    case Switch(_, b, _, _, _) => m.SeekLabel? && HasFlat(m, b)
    case _ => false
  }

  predicate HasFlat(m: Mode, f: Flat) {
    f.Cons? && (Has(m, f.car) || HasFlat(m, f.cdr))
  }

  /** The number of the label that m looks for. */
  function LabelOf(m: Mode, s: Stmt): int
    requires Has(m, s)
  {
    match s
    case Label(_, l) => l
    case Case(_, l) => l
    case Default(l) => l
    case Block(f) => LabelOfFlat(m, f)
    case IfElse(_, a, b) => if HasFlat(m, a) then LabelOfFlat(m, a) else LabelOfFlat(m, b.value)
    case Loop(_, b, _, _, _, _, _) => LabelOfFlat(m, b)
    case Switch(_, b, _, _, _) => LabelOfFlat(m, b)
  }

  function LabelOfFlat(m: Mode, f: Flat): int
    requires HasFlat(m, f)
  {
    if Has(m, f.car) then LabelOf(m, f.car) else LabelOfFlat(m, f.cdr)
  }

  ghost function ExecStmt(layout: Layout, s: Stmt, m: Mode, st: Store, fuel: nat): ExecResult
    requires m.Go? || Has(m, s)
    decreases fuel, s, 2
  {
    match s
    case Expression(e) =>
      (match Eval(layout, e, None, st) case None => Undefined case Some(r) => Done(Normal, r.st))
    case Empty => Done(Normal, st)
    case Declare(l, t, init) =>
      if init.None? then Done(Normal, st) else
      (match Eval(layout, init.value, None, st)
       case None => Undefined
       case Some(r) => if l in st then Done(Normal, r.st[l := r.v]) else Undefined)
    case Return(None) => Done(Returned(None), st)
    case Return(Some(e)) =>
      (match Eval(layout, e, None, st) case None => Undefined case Some(r) => Done(Returned(Some(Typed(r.v, TypeOf(e)))), r.st))
    case Block(f) => ExecFlat(layout, f, m, st, fuel)
    case IfElse(c, a, b) =>
      if m.Go? then
        match Eval(layout, c, None, st)
        case None => Undefined
        case Some(r) =>
          if r.v != 0 then ExecFlat(layout, a, Go, r.st, fuel)
          else if b.Some? then ExecFlat(layout, b.value, Go, r.st, fuel)
          else Done(Normal, r.st)
      else if HasFlat(m, a) then ExecFlat(layout, a, m, st, fuel)
      else ExecFlat(layout, b.value, m, st, fuel)
    case Loop(_, _, _, _, _, _, _) => ExecLoop(layout, s, m, st, fuel)
    case Break(_) => Done(Broke, st)
    case Continue(_) => Done(Continued, st)
    case Goto(n, _) => Done(Jumped(n), st)
    case Label(_, _) => Done(Normal, st)
    case Case(_, _) => Done(Normal, st)
    case Default(_) => Done(Normal, st)
    case Switch(c, body, _, _, _) =>
      if m.Go? then
        match Eval(layout, c, None, st)
        case None => Undefined
        case Some(r) =>
          var chosen := SeekCase(TypeOf(c), r.v);
          if HasFlat(chosen, body) then AfterSwitch(ExecFlat(layout, body, chosen, r.st, fuel))
          else if HasFlat(SeekDefault, body) then AfterSwitch(ExecFlat(layout, body, SeekDefault, r.st, fuel))
          else Done(Normal, r.st)
      else AfterSwitch(ExecFlat(layout, body, m, st, fuel))
  }

  function AfterSwitch(r: ExecResult): ExecResult {
    if r.Done? && r.out.Broke? then Done(Normal, r.st) else r
  }

  ghost function ExecFlat(layout: Layout, f: Flat, m: Mode, st: Store, fuel: nat): ExecResult
    requires m.Go? || HasFlat(m, f)
    decreases fuel, f, 0
  {
    if f.Nil? then Done(Normal, st)
    else if !m.Go? && !Has(m, f.car) then ExecFlat(layout, f.cdr, m, st, fuel)
    else
      var r := ExecStmt(layout, f.car, m, st, fuel);
      if r.Done? && r.out.Normal? then ExecFlat(layout, f.cdr, Go, r.st, fuel) else r
  }

  /** One pass through a loop, entered at its top or at a label in its body, and
      then the passes after it. */
  ghost function ExecLoop(layout: Layout, s: Stmt, m: Mode, st: Store, fuel: nat): ExecResult
    requires s.Loop? && (m.Go? || Has(m, s))
    decreases fuel, s, 1
  {
    if fuel == 0 then Timeout
    else if !m.Go? then LoopRest(layout, s, ExecFlat(layout, s.body, m, st, fuel), fuel)
    else
      match EvalOptional(layout, s.precond, st)
      case None => Undefined
      case Some(pre) =>
        if pre.v == 0 then Done(Normal, pre.st)
        else LoopRest(layout, s, ExecFlat(layout, s.body, Go, pre.st, fuel), fuel)
  }

  /** What follows the body of a loop. */
  ghost function LoopRest(layout: Layout, s: Stmt, r: ExecResult, fuel: nat): ExecResult
    requires s.Loop? && fuel > 0
    decreases fuel, s, 0
  {
    if r.Done? && r.out.Broke? then Done(Normal, r.st)
    else if !r.Done? || !(r.out.Normal? || r.out.Continued?) then r
    else
      match EvalOptional(layout, s.incr, r.st)
      case None => Undefined
      case Some(i) =>
        match EvalOptional(layout, s.postcond, i.st)
        case None => Undefined
        case Some(post) =>
          if post.v == 0 then Done(Normal, post.st) else ExecLoop(layout, s, Go, post.st, fuel - 1)
  }

  /** A function body: a goto resumes at its label. */
  ghost function RunBody(layout: Layout, body: Flat, m: Mode, st: Store, fuel: nat): ExecResult
    requires m.Go? || HasFlat(m, body)
    decreases fuel
  {
    var r := ExecFlat(layout, body, m, st, fuel);
    if !r.Done? then r
    else if r.out.Broke? || r.out.Continued? then Undefined
    else if !r.out.Jumped? then r
    else if !HasFlat(SeekLabel(r.out.name), body) then Undefined
    else if fuel == 0 then Timeout
    else RunBody(layout, body, SeekLabel(r.out.name), r.st, fuel - 1)
  }
}
