/** The code of a statement follows its execution: every way of leaving the
    statement, every way of entering it, and every unfinished run. */
module StmtSimulation {
  import opened Wrappers
  import opened CTypes
  import opened CAst
  import opened Ir
  import opened CSemantics
  import opened Lowering
  import opened Simulation
  import opened ExprSimulation

  // --------------------------------------------------------------- well-formed

  ghost predicate WellTypedOptional(layout: Layout, e: Option<Expr>) {
    e.Some? ==> WellTyped(layout, e.value, None)
  }

  ghost predicate WellTypedStmt(layout: Layout, s: Stmt) {
    match s
    case Expression(e) => WellTyped(layout, e, None)
    case Declare(l, t, init) =>
      l in layout && layout[l].size == t.Size() && WellTypedOptional(layout, init) && (init.Some? ==> TypeOf(init.value) == t)
    case Return(e) => WellTypedOptional(layout, e)
    case Block(f) => WellTypedFlat(layout, f)
    case IfElse(c, a, b) =>
      WellTyped(layout, c, None) && WellTypedFlat(layout, a) && (b.Some? ==> WellTypedFlat(layout, b.value))
    case Loop(pre, body, incr, post, _, _, _) =>
      && WellTypedOptional(layout, pre) && WellTypedFlat(layout, body)
      && WellTypedOptional(layout, incr) && WellTypedOptional(layout, post)
    case Switch(c, body, _, _, _) => WellTyped(layout, c, None) && WellTypedFlat(layout, body)
    case _ => true
  }

  ghost predicate WellTypedFlat(layout: Layout, f: Flat) {
    f.Cons? ==> WellTypedStmt(layout, f.car) && WellTypedFlat(layout, f.cdr)
  }

  /** What break, continue and goto refer to. */
  datatype Targets = Targets(brk: int, cont: int, names: map<string, int>)

  /** Every jump carries the number of the label it refers to: break that of the
      innermost loop or switch, continue that of the innermost loop. */
  ghost predicate WellLabelled(s: Stmt, ctx: Targets) {
    match s
    case Break(l) => l == ctx.brk
    case Continue(l) => l == ctx.cont
    case Goto(n, l) => n in ctx.names && ctx.names[n] == l
    case Block(f) => WellLabelledFlat(f, ctx)
    case IfElse(_, a, b) => WellLabelledFlat(a, ctx) && (b.Some? ==> WellLabelledFlat(b.value, ctx))
    case Loop(_, body, _, _, _, cont, end) => WellLabelledFlat(body, ctx.(brk := end, cont := cont))
    case Switch(c, body, dflt, end, cases) =>
      WellLabelledFlat(body, ctx.(brk := end)) && CasesMatch(TypeOf(c), body, dflt, cases)
    case _ => true
  }

  ghost predicate WellLabelledFlat(f: Flat, ctx: Targets) {
    f.Cons? ==> WellLabelled(f.car, ctx) && WellLabelledFlat(f.cdr, ctx)
  }

  /** The case list of a switch names exactly the case labels of its body. */
  ghost predicate CasesMatch(ty: CType, body: Flat, dflt: int, cases: seq<CaseEntry>) {
    && (forall i :: 0 <= i < |cases| ==> CaseKnown(ty, body, cases[i]))
    && (forall v: nat :: HasFlat(SeekCase(ty, v), body) ==> exists i :: 0 <= i < |cases| && Bits(ty, cases[i].num) == v)
    && (if HasFlat(SeekDefault, body) then dflt >= 0 && dflt == LabelOfFlat(SeekDefault, body) else dflt < 0)
  }

  predicate CaseKnown(ty: CType, body: Flat, c: CaseEntry) {
    var m := SeekCase(ty, Bits(ty, c.num));
    HasFlat(m, body) && LabelOfFlat(m, body) == c.unique && 0 <= c.num < Modulus(ty)
  }

  // ------------------------------------------------------------------- results

  ghost predicate Fits(code: seq<IrOp>, layout: Layout, s: Store, t: Store, g: int) {
    UniqueLabels(code) && StoreOk(layout, s) && Agree(s, t) && Below(s, g)
  }

  ghost function Entry(code: seq<IrOp>, m: Mode, s: Stmt, p: nat, t: Store): Config
    requires m.Go? || Has(m, s)
  {
    if m.Go? then Running(p, t) else JumpTo(code, LabelOf(m, s), t)
  }

  ghost function EntryFlat(code: seq<IrOp>, m: Mode, f: Flat, p: nat, t: Store): Config
    requires m.Go? || HasFlat(m, f)
  {
    if m.Go? then Running(p, t) else JumpTo(code, LabelOfFlat(m, f), t)
  }

  /** Where a run is when the source statement has left in the given way. */
  ghost function Exit(code: seq<IrOp>, out: Outcome, next: nat, ctx: Targets, t: Store): Config {
    match out
    case Normal => Running(next, t)
    case Broke => JumpTo(code, ctx.brk, t)
    case Continued => JumpTo(code, ctx.cont, t)
    case Returned(v) => Halted(v, t)
    case Jumped(n) => if n in ctx.names then JumpTo(code, ctx.names[n], t) else Stuck
  }

  /** k steps from `from` match the result of the source execution; when that has
      used up its fuel, the machine has made at least as many steps. */
  ghost predicate Follows(code: seq<IrOp>, layout: Layout, from: Config, res: ExecResult, next: nat, ctx: Targets,
                          st: Store, fuel: nat, k: nat, t': Store) {
    match res
    case Undefined => true
    case Timeout => k >= fuel && Iter(code, layout, from, k).Running?
    case Done(out, st') =>
      && Iter(code, layout, from, k) == Exit(code, out, next, ctx, t') && (out.Normal? || k >= 1)
      && Agree(st', t') && StoreOk(layout, st') && st'.Keys == st.Keys
  }

  lemma FollowsAfter(code: seq<IrOp>, layout: Layout, from: Config, j: nat, mid: Config, res: ExecResult, next: nat, ctx: Targets,
                     st: Store, st0: Store, fuel: nat, fuel0: nat, k: nat, t': Store)
    requires Iter(code, layout, from, j) == mid && Follows(code, layout, mid, res, next, ctx, st, fuel, k, t')
    requires st.Keys == st0.Keys && fuel0 <= fuel + j
    ensures Follows(code, layout, from, res, next, ctx, st0, fuel0, j + k, t')
  {
    Chain(code, layout, from, j, mid, k, Iter(code, layout, mid, k));
  }

  /** A full expression: afterwards the value can be read, also after writes to
      temporaries that come later. */
  lemma FullExpression(code: seq<IrOp>, layout: Layout, e: Expr, s: Store, t: Store, g: int, n: int, p: nat, c: ExprCode, r: Res)
    returns (k: nat, t': Store)
    requires Fits(code, layout, s, t, g) && WellTyped(layout, e, None)
    requires LowerExpr(e, None, g, n) == c && Eval(layout, e, None, s) == Some(r) && CodeAt(code, p, c.ops)
    ensures Iter(code, layout, Running(p, t), k) == Running(p + |c.ops|, t')
    ensures Fits(code, layout, r.st, t', c.gen) && r.st.Keys == s.Keys && Read(c.ret, t') == Some(r.v)
    ensures c.ret.ty == TypeOf(e) && r.v < Modulus(TypeOf(e))
    ensures c.ret.Variable? ==> c.ret.loc in s || (c.ret.loc.Tmp? && c.ret.loc.id < c.gen)
  {
    assert r.st.Keys == s.Keys by {
      hide UniqueLabels, WellTyped, StoreOk, Agree, Below;
    }
    hide Eval, LowerExpr, WellTyped, UniqueLabels, Modulus, CodeAt, TypeOf, Read;
    k, t' := ExprSim(code, layout, e, None, None, None, s, t, g, n, p, c, r);
    RangeOf(code, layout, e, None, None, None, s, t, g, r);
  }

  // ------------------------------------------------------------- small pieces

  /** A statement ends normally at next1, and from there the run goes on to next2. */
  lemma Extend(code: seq<IrOp>, layout: Layout, from: Config, res: ExecResult, next1: nat, next2: nat, ctx: Targets, st: Store,
               fuel: nat, k: nat, t': Store, d: nat) returns (k2: nat)
    requires Follows(code, layout, from, res, next1, ctx, st, fuel, k, t')
    requires Iter(code, layout, Running(next1, t'), d) == Running(next2, t')
    ensures Follows(code, layout, from, res, next2, ctx, st, fuel, k2, t')
  {
    if res.Done? && res.out.Normal? {
      Chain(code, layout, from, k, Running(next1, t'), d, Running(next2, t'));
      k2 := k + d;
    } else {
      k2 := k;
    }
  }

  lemma PassLabel(code: seq<IrOp>, layout: Layout, q: nat, t: Store)
    requires q < |code| && code[q].LabelAt?
    ensures Iter(code, layout, Running(q, t), 1) == Running(q + 1, t)
  {
    Straightforward(code, layout, q, t, t);
  }

  lemma JumpPastLabel(code: seq<IrOp>, layout: Layout, q: nat, l: nat, t: Store)
    requires UniqueLabels(code) && q < |code| && code[q].Jump? && l < |code| && code[l] == LabelAt(code[q].target)
    ensures Iter(code, layout, Running(q, t), 2) == Running(l + 1, t)
  {
    hide UniqueLabels, FindLabel;
    assert Iter(code, layout, Running(q, t), 0) == Running(q, t);
    ThenJump(code, layout, Running(q, t), 0, q, t, l);
    PassLabel(code, layout, l, t);
    Chain(code, layout, Running(q, t), 1, Running(l, t), 1, Running(l + 1, t));
  }

  lemma FitsMore(code: seq<IrOp>, layout: Layout, s: Store, t: Store, g: int, g': int)
    requires Fits(code, layout, s, t, g) && g <= g'
    ensures Fits(code, layout, s, t, g')
  {
    hide UniqueLabels, StoreOk, Agree;
  }

  lemma OptionalSim(code: seq<IrOp>, layout: Layout, e: Option<Expr>, s: Store, t: Store, g: int, n: int, p: nat, c: FlatCode, r: Res)
    returns (k: nat, t': Store)
    requires Fits(code, layout, s, t, g) && WellTypedOptional(layout, e)
    requires LowerOptional(e, g, n) == c && EvalOptional(layout, e, s) == Some(r) && CodeAt(code, p, c.ops)
    ensures Iter(code, layout, Running(p, t), k) == Running(p + |c.ops|, t')
    ensures Fits(code, layout, r.st, t', c.gen) && r.st.Keys == s.Keys
  {
    if e.Some? {
      var x := LowerExpr(e.value, None, g, n);
      hide Eval, LowerExpr, WellTyped, UniqueLabels, CodeAt, Agree, Below, StoreOk, Modulus;
      k, t' := FullExpression(code, layout, e.value, s, t, g, n, p, x, r);
    } else {
      k, t' := 0, t;
    }
  }

  /** A condition of a loop; the label behind the loop is at q. */
  lemma GuardSim(code: seq<IrOp>, layout: Layout, e: Option<Expr>, end: int, s: Store, t: Store, g: int, n: int, p: nat, q: nat,
                 c: FlatCode, r: Res) returns (k: nat, t': Store)
    requires Fits(code, layout, s, t, g) && WellTypedOptional(layout, e)
    requires LowerGuard(e, end, g, n) == c && EvalOptional(layout, e, s) == Some(r) && CodeAt(code, p, c.ops)
    requires q < |code| && code[q] == LabelAt(end)
    ensures Iter(code, layout, Running(p, t), k) == Running(if r.v == 0 then q else p + |c.ops|, t')
    ensures Fits(code, layout, r.st, t', c.gen) && r.st.Keys == s.Keys
  {
    hide Eval, LowerExpr, WellTyped, UniqueLabels, CodeAt, Agree, Below, StoreOk, Modulus, Read, Step;
    if e.Some? {
      var x := LowerExpr(e.value, None, g, n);
      Append(code, p, x.ops, JumpIfZero(x.ret, end));
      var j, u := FullExpression(code, layout, e.value, s, t, g, n, p, x, r);
      ThenBranch(code, layout, Running(p, t), j, p + |x.ops|, u, r.v, q);
      k, t' := j + 1, u;
    } else {
      k, t' := 0, t;
    }
  }

  // ----------------------------------------------------- the simple statements

  lemma {:induction false} ExpressionSim(code: seq<IrOp>, layout: Layout, s: Stmt, m: Mode, st: Store, t: Store, fuel: nat,
      g: int, n: int, p: nat, ctx: Targets, c: FlatCode) returns (k: nat, t': Store)
    requires s.Expression?
    requires (m.Go? || Has(m, s)) && Fits(code, layout, st, t, g) && WellTypedStmt(layout, s) && WellLabelled(s, ctx)
    requires LowerStmt(s, g, n) == c && CodeAt(code, p, c.ops)
    ensures Follows(code, layout, Entry(code, m, s, p, t), ExecStmt(layout, s, m, st, fuel), p + |c.ops|, ctx, st, fuel, k, t')
    decreases fuel, s, 2
  {
    hide Eval, LowerExpr, WellTyped, UniqueLabels, CodeAt, Agree, Below, StoreOk, Modulus;
    k, t' := 0, t;
    if Eval(layout, s.expr, None, st).Some? {
      var x, r := LowerExpr(s.expr, None, g, n), Eval(layout, s.expr, None, st).value;
      k, t' := FullExpression(code, layout, s.expr, st, t, g, n, p, x, r);
    }
  }

  lemma {:induction false} ReturnSim(code: seq<IrOp>, layout: Layout, s: Stmt, m: Mode, st: Store, t: Store, fuel: nat,
      g: int, n: int, p: nat, ctx: Targets, c: FlatCode) returns (k: nat, t': Store)
    requires s.Return?
    requires (m.Go? || Has(m, s)) && Fits(code, layout, st, t, g) && WellTypedStmt(layout, s) && WellLabelled(s, ctx)
    requires LowerStmt(s, g, n) == c && CodeAt(code, p, c.ops)
    ensures Follows(code, layout, Entry(code, m, s, p, t), ExecStmt(layout, s, m, st, fuel), p + |c.ops|, ctx, st, fuel, k, t')
    decreases fuel, s, 2
  {
    hide Eval, LowerExpr, WellTyped, UniqueLabels, Agree, Below, StoreOk, Modulus, Read;
    k, t' := 0, t;
    if s.result.None? {
      k, t' := 1, t;
      assert code[p + 0] == c.ops[0];
      Once(code, layout, Running(p, t));
    } else if Eval(layout, s.result.value, None, st).Some? {
      var e := s.result.value;
      var x, r := LowerExpr(e, None, g, n), Eval(layout, e, None, st).value;
      Append(code, p, x.ops, Ret(Some(x.ret)));
      hide CodeAt;
      var j, u := FullExpression(code, layout, e, st, t, g, n, p, x, r);
      Once(code, layout, Running(p + |x.ops|, u));
      Chain(code, layout, Running(p, t), j, Running(p + |x.ops|, u), 1, Halted(Some(Typed(r.v, TypeOf(e))), u));
      k, t' := j + 1, u;
    }
  }

  lemma {:induction false} DeclareSim(code: seq<IrOp>, layout: Layout, s: Stmt, m: Mode, st: Store, t: Store, fuel: nat,
      g: int, n: int, p: nat, ctx: Targets, c: FlatCode) returns (k: nat, t': Store)
    requires s.Declare?
    requires (m.Go? || Has(m, s)) && Fits(code, layout, st, t, g) && WellTypedStmt(layout, s) && WellLabelled(s, ctx)
    requires LowerStmt(s, g, n) == c && CodeAt(code, p, c.ops)
    ensures Follows(code, layout, Entry(code, m, s, p, t), ExecStmt(layout, s, m, st, fuel), p + |c.ops|, ctx, st, fuel, k, t')
    decreases fuel, s, 2
  {
    hide Eval, LowerExpr, WellTyped, UniqueLabels, Modulus, Read, TypeOf, Agree, StoreOk, Step, FindLabel, Effect;
    k, t' := 0, t;
    if s.init.Some? && Eval(layout, s.init.value, None, st).Some? && s.dloc in st {
      var e := s.init.value;
      var x, r := LowerExpr(e, None, g, n), Eval(layout, e, None, st).value;
      var dst := Variable(s.dloc, s.dtype);
      Append(code, p, x.ops, Copy(x.ret, dst));
      hide CodeAt;
      var j, u := FullExpression(code, layout, e, st, t, g, n, p, x, r);
      t' := u[s.dloc := r.v];
      CopyEffect(layout, x.ret, dst, u, r.v);
      ThenStep(code, layout, Running(p, t), j, p + |x.ops|, u, t');
      k := j + 1;
      DeclaredOk(layout, r.st, u, s.dloc, s.dtype, r.v);
    }
  }

  lemma CopyEffect(layout: Layout, src: IrVal, dst: IrVal, u: Store, v: nat)
    requires dst.Variable? && src.ty == dst.ty && Read(src, u) == Some(v) && v < Modulus(dst.ty)
    ensures Effect(layout, Copy(src, dst), u) == Some(u[dst.loc := v])
  {
    WriteBits(dst, u, v);
  }

  lemma DeclaredOk(layout: Layout, s: Store, u: Store, l: Loc, ty: CType, v: nat)
    requires StoreOk(layout, s) && Agree(s, u) && l in layout && layout[l].size == ty.Size() && v < Modulus(ty)
    ensures StoreOk(layout, s[l := v]) && Agree(s[l := v], u[l := v])
  {
  }

  /** A jump out of the statement, or a label inside it. */
  lemma {:induction false} TransferSim(code: seq<IrOp>, layout: Layout, s: Stmt, m: Mode, st: Store, t: Store, fuel: nat,
      g: int, n: int, p: nat, ctx: Targets, c: FlatCode) returns (k: nat, t': Store)
    requires s.Break? || s.Continue? || s.Goto? || s.Label? || s.Case? || s.Default? || s.Empty?
    requires (m.Go? || Has(m, s)) && Fits(code, layout, st, t, g) && WellTypedStmt(layout, s) && WellLabelled(s, ctx)
    requires LowerStmt(s, g, n) == c && CodeAt(code, p, c.ops)
    ensures Follows(code, layout, Entry(code, m, s, p, t), ExecStmt(layout, s, m, st, fuel), p + |c.ops|, ctx, st, fuel, k, t')
    decreases fuel, s, 2
  {
    hide UniqueLabels, Agree, Below, StoreOk, FindLabel, WellTypedStmt, LowerExpr, Eval;
    t' := t;
    if s.Empty? {
      k := 0;
    } else {
      assert code[p + 0] == c.ops[0];
      Once(code, layout, Running(p, t));
      if !m.Go? {
        LabelFound(code, p, LabelOf(m, s));
      }
      k := 1;
    }
  }

  // ---------------------------------------------------------------- sequences

  /** Where a statement ends does not matter when it is left by a jump. */
  lemma LeavesAlike(code: seq<IrOp>, layout: Layout, from: Config, res: ExecResult, next1: nat, next2: nat, ctx: Targets,
                    st: Store, fuel: nat, k: nat, t': Store)
    requires Follows(code, layout, from, res, next1, ctx, st, fuel, k, t') && !(res.Done? && res.out.Normal?)
    ensures Follows(code, layout, from, res, next2, ctx, st, fuel, k, t')
  {
  }

  lemma AfterNormal(code: seq<IrOp>, layout: Layout, from: Config, res: ExecResult, next: nat, ctx: Targets, st: Store, t: Store,
                    fuel: nat, k: nat, t': Store, g: int, g': int)
    requires Follows(code, layout, from, res, next, ctx, st, fuel, k, t') && res.Done? && res.out.Normal?
    requires Fits(code, layout, st, t, g) && g <= g'
    ensures Fits(code, layout, res.st, t', g') && res.st.Keys == st.Keys && Iter(code, layout, from, k) == Running(next, t')
  {
    AfterFits(code, layout, st, res.st, t, t', g, g');
  }

  lemma NilSim(code: seq<IrOp>, layout: Layout, st: Store, t: Store, fuel: nat, g: int, n: int, p: nat, ctx: Targets)
    requires Fits(code, layout, st, t, g)
    ensures Follows(code, layout, Running(p, t), Done(Normal, st), p + |LowerFlat(Nil, g, n).ops|, ctx, st, fuel, 0, t)
  {
  }

  lemma ConsCode(f: Flat, g: int, n: int)
    requires f.Cons?
    ensures var a := LowerStmt(f.car, g, n);
            var b := LowerFlat(f.cdr, a.gen, a.lab);
            LowerFlat(f, g, n) == FlatCode(a.ops + b.ops, b.gen, b.lab)
  {
  }

  lemma {:induction false} FlatSim(code: seq<IrOp>, layout: Layout, f: Flat, m: Mode, st: Store, t: Store, fuel: nat,
      g: int, n: int, p: nat, ctx: Targets, c: FlatCode) returns (k: nat, t': Store)
    requires (m.Go? || HasFlat(m, f)) && Fits(code, layout, st, t, g) && WellTypedFlat(layout, f) && WellLabelledFlat(f, ctx)
    requires LowerFlat(f, g, n) == c && CodeAt(code, p, c.ops)
    ensures Follows(code, layout, EntryFlat(code, m, f, p, t), ExecFlat(layout, f, m, st, fuel), p + |c.ops|, ctx, st, fuel, k, t')
    decreases fuel, f, 0
  {
    hide Eval, LowerStmt, WellTypedStmt, WellLabelled, UniqueLabels, Agree, Below, StoreOk, Step, FindLabel, ExecStmt;
    hide CodeAt, Iter, Follows, Fits, LowerFlat;
    k, t' := 0, t;
    if f.Nil? {
      NilSim(code, layout, st, t, fuel, g, n, p, ctx);
    } else {
      ConsCode(f, g, n);
      var a := LowerStmt(f.car, g, n);
      var b := LowerFlat(f.cdr, a.gen, a.lab);
      Split(code, p, a.ops, b.ops);
      if !m.Go? && !Has(m, f.car) {
        FitsMore(code, layout, st, t, g, a.gen);
        k, t' := FlatSim(code, layout, f.cdr, m, st, t, fuel, a.gen, a.lab, p + |a.ops|, ctx, b);
      } else {
        k, t' := StmtSim(code, layout, f.car, m, st, t, fuel, g, n, p, ctx, a);
        var r := ExecStmt(layout, f.car, m, st, fuel);
        if r.Done? && r.out.Normal? {
          AfterNormal(code, layout, EntryFlat(code, m, f, p, t), r, p + |a.ops|, ctx, st, t, fuel, k, t', g, a.gen);
          var i, u := FlatSim(code, layout, f.cdr, Go, r.st, t', fuel, a.gen, a.lab, p + |a.ops|, ctx, b);
          FollowsAfter(code, layout, EntryFlat(code, m, f, p, t), k, Running(p + |a.ops|, t'),
                       ExecFlat(layout, f.cdr, Go, r.st, fuel), p + |c.ops|, ctx, r.st, st, fuel, fuel, i, u);
          k, t' := k + i, u;
        } else {
          LeavesAlike(code, layout, EntryFlat(code, m, f, p, t), r, p + |a.ops|, p + |c.ops|, ctx, st, fuel, k, t');
        }
      }
    }
  }

  lemma AfterFits(code: seq<IrOp>, layout: Layout, s: Store, s': Store, t: Store, t': Store, g: int, g': int)
    requires Fits(code, layout, s, t, g) && g <= g' && s'.Keys == s.Keys && Agree(s', t') && StoreOk(layout, s')
    ensures Fits(code, layout, s', t', g')
  {
    hide UniqueLabels, StoreOk, Agree;
  }

  lemma {:induction false} StmtSim(code: seq<IrOp>, layout: Layout, s: Stmt, m: Mode, st: Store, t: Store, fuel: nat,
      g: int, n: int, p: nat, ctx: Targets, c: FlatCode) returns (k: nat, t': Store)
    requires (m.Go? || Has(m, s)) && Fits(code, layout, st, t, g) && WellTypedStmt(layout, s) && WellLabelled(s, ctx)
    requires LowerStmt(s, g, n) == c && CodeAt(code, p, c.ops)
    ensures Follows(code, layout, Entry(code, m, s, p, t), ExecStmt(layout, s, m, st, fuel), p + |c.ops|, ctx, st, fuel, k, t')
    decreases fuel, s, 3
  {
    hide Follows, Fits, WellTypedStmt, WellLabelled, LowerStmt, CodeAt, Entry, ExecStmt, Has;
    match s
    case Expression(_) => k, t' := ExpressionSim(code, layout, s, m, st, t, fuel, g, n, p, ctx, c);
    case Return(_) => k, t' := ReturnSim(code, layout, s, m, st, t, fuel, g, n, p, ctx, c);
    case Declare(_, _, _) => k, t' := DeclareSim(code, layout, s, m, st, t, fuel, g, n, p, ctx, c);
    case Block(_) => k, t' := BlockFollows(code, layout, s, m, st, t, fuel, g, n, p, ctx, c);
    case IfElse(_, _, None) => k, t' := IfSim(code, layout, s, m, st, t, fuel, g, n, p, ctx, c);
    case IfElse(_, _, Some(_)) => k, t' := IfElseSim(code, layout, s, m, st, t, fuel, g, n, p, ctx, c);
    case Loop(_, _, _, _, _, _, _) => k, t' := LoopSim(code, layout, s, m, st, t, fuel, g, n, p, ctx, c);
    case Switch(_, _, _, _, _) => k, t' := SwitchSim(code, layout, s, m, st, t, fuel, g, n, p, ctx, c);
    case _ => k, t' := TransferSim(code, layout, s, m, st, t, fuel, g, n, p, ctx, c);
  }

  lemma {:induction false} BlockFollows(code: seq<IrOp>, layout: Layout, s: Stmt, m: Mode, st: Store, t: Store, fuel: nat,
      g: int, n: int, p: nat, ctx: Targets, c: FlatCode) returns (k: nat, t': Store)
    requires s.Block?
    requires (m.Go? || Has(m, s)) && Fits(code, layout, st, t, g) && WellTypedStmt(layout, s) && WellLabelled(s, ctx)
    requires LowerStmt(s, g, n) == c && CodeAt(code, p, c.ops)
    ensures Follows(code, layout, Entry(code, m, s, p, t), ExecStmt(layout, s, m, st, fuel), p + |c.ops|, ctx, st, fuel, k, t')
    decreases fuel, s, 2
  {
    hide Follows, Fits, WellTypedFlat, WellLabelledFlat, LowerFlat, CodeAt, ExecFlat, HasFlat;
    k, t' := FlatSim(code, layout, s.statements, m, st, t, fuel, g, n, p, ctx, c);
  }

  // ------------------------------------------------------------- if statement

  lemma IfPlaces(code: seq<IrOp>, p: nat, k: ExprCode, x: FlatCode, n: int)
    requires CodeAt(code, p, k.ops + [JumpIfZero(k.ret, n)] + x.ops + [LabelAt(n)])
    ensures var q1 := p + |k.ops| + 1; var q2 := q1 + |x.ops|;
            && q2 < |code| && CodeAt(code, p, k.ops) && code[q1 - 1] == JumpIfZero(k.ret, n)
            && CodeAt(code, q1, x.ops) && code[q2] == LabelAt(n)
  {
    Append(code, p, k.ops + [JumpIfZero(k.ret, n)] + x.ops, LabelAt(n));
    Split(code, p, k.ops + [JumpIfZero(k.ret, n)], x.ops);
    Append(code, p, k.ops, JumpIfZero(k.ret, n));
  }

  lemma {:induction false} IfSim(code: seq<IrOp>, layout: Layout, s: Stmt, m: Mode, st: Store, t: Store, fuel: nat,
      g: int, n: int, p: nat, ctx: Targets, c: FlatCode) returns (k: nat, t': Store)
    requires s.IfElse? && s.elseClause.None?
    requires (m.Go? || Has(m, s)) && Fits(code, layout, st, t, g) && WellTypedStmt(layout, s) && WellLabelled(s, ctx)
    requires LowerStmt(s, g, n) == c && CodeAt(code, p, c.ops)
    ensures Follows(code, layout, Entry(code, m, s, p, t), ExecStmt(layout, s, m, st, fuel), p + |c.ops|, ctx, st, fuel, k, t')
    decreases fuel, s, 2
  {
    hide Eval, ExecFlat, LowerExpr, LowerFlat, WellTyped, WellTypedFlat, WellLabelledFlat, UniqueLabels, Agree, Below, StoreOk,
      Read, Iter, Step, FindLabel, CodeAt, Modulus;
    k, t' := 0, t;
    var x := LowerExpr(s.condition, None, g, n + 1);
    var a := LowerFlat(s.thenClause, x.gen, x.lab);
    IfPlaces(code, p, x, a, n);
    var q1 := p + |x.ops| + 1;
    var q2 := q1 + |a.ops|;
    if !m.Go? {
      FitsMore(code, layout, st, t, g, x.gen);
      var i, u := FlatSim(code, layout, s.thenClause, m, st, t, fuel, x.gen, x.lab, q1, ctx, a);
      PassLabel(code, layout, q2, u);
      t' := u;
      k := Extend(code, layout, Entry(code, m, s, p, t), ExecFlat(layout, s.thenClause, m, st, fuel), q2, q2 + 1, ctx, st, fuel, i, u, 1);
    } else if Eval(layout, s.condition, None, st).Some? {
      var r := Eval(layout, s.condition, None, st).value;
      var j, u := FullExpression(code, layout, s.condition, st, t, g, n + 1, p, x, r);
      ThenBranch(code, layout, Running(p, t), j, q1 - 1, u, r.v, q2);
      if r.v == 0 {
        PassLabel(code, layout, q2, u);
        Chain(code, layout, Running(p, t), j + 1, Running(q2, u), 1, Running(q2 + 1, u));
        k, t' := j + 2, u;
      } else {
        var i, w := FlatSim(code, layout, s.thenClause, Go, r.st, u, fuel, x.gen, x.lab, q1, ctx, a);
        PassLabel(code, layout, q2, w);
        var h := Extend(code, layout, Running(q1, u), ExecFlat(layout, s.thenClause, Go, r.st, fuel), q2, q2 + 1, ctx, r.st, fuel, i, w, 1);
        FollowsAfter(code, layout, Running(p, t), j + 1, Running(q1, u), ExecFlat(layout, s.thenClause, Go, r.st, fuel), q2 + 1, ctx,
                     r.st, st, fuel, fuel, h, w);
        k, t' := j + 1 + h, w;
      }
    }
  }

  lemma IfElsePlaces(code: seq<IrOp>, p: nat, k: ExprCode, x: FlatCode, y: FlatCode, n: int)
    requires CodeAt(code, p, k.ops + [JumpIfZero(k.ret, n)] + x.ops + [Jump(n + 1), LabelAt(n)] + y.ops + [LabelAt(n + 1)])
    ensures var q1 := p + |k.ops| + 1; var q2 := q1 + |x.ops|; var q3 := q2 + 2 + |y.ops|;
            && q3 < |code| && CodeAt(code, p, k.ops) && code[q1 - 1] == JumpIfZero(k.ret, n)
            && CodeAt(code, q1, x.ops) && code[q2] == Jump(n + 1) && code[q2 + 1] == LabelAt(n)
            && CodeAt(code, q2 + 2, y.ops) && code[q3] == LabelAt(n + 1)
  {
    var head := k.ops + [JumpIfZero(k.ret, n)] + x.ops;
    Append(code, p, head + [Jump(n + 1), LabelAt(n)] + y.ops, LabelAt(n + 1));
    Split(code, p, head + [Jump(n + 1), LabelAt(n)], y.ops);
    Split(code, p, head, [Jump(n + 1), LabelAt(n)]);
    Split(code, p, k.ops + [JumpIfZero(k.ret, n)], x.ops);
    Append(code, p, k.ops, JumpIfZero(k.ret, n));
    var q2 := p + |head|;
    assert code[q2 + 0] == [Jump(n + 1), LabelAt(n)][0] && code[q2 + 1] == [Jump(n + 1), LabelAt(n)][1];
  }

  lemma {:induction false} IfElseSim(code: seq<IrOp>, layout: Layout, s: Stmt, m: Mode, st: Store, t: Store, fuel: nat,
      g: int, n: int, p: nat, ctx: Targets, c: FlatCode) returns (k: nat, t': Store)
    requires s.IfElse? && s.elseClause.Some?
    requires (m.Go? || Has(m, s)) && Fits(code, layout, st, t, g) && WellTypedStmt(layout, s) && WellLabelled(s, ctx)
    requires LowerStmt(s, g, n) == c && CodeAt(code, p, c.ops)
    ensures Follows(code, layout, Entry(code, m, s, p, t), ExecStmt(layout, s, m, st, fuel), p + |c.ops|, ctx, st, fuel, k, t')
    decreases fuel, s, 2
  {
    hide Eval, ExecFlat, LowerExpr, LowerFlat, WellTyped, WellTypedFlat, WellLabelledFlat, UniqueLabels, Agree, Below, StoreOk,
      Read, Iter, Step, FindLabel, CodeAt, Modulus;
    k, t' := 0, t;
    var x := LowerExpr(s.condition, None, g, n + 2);
    var a := LowerFlat(s.thenClause, x.gen, x.lab);
    var b := LowerFlat(s.elseClause.value, a.gen, a.lab);
    IfElsePlaces(code, p, x, a, b, n);
    var q1 := p + |x.ops| + 1;
    var q2 := q1 + |a.ops|;
    var q3 := q2 + 2 + |b.ops|;
    if !m.Go? {
      if HasFlat(m, s.thenClause) {
        FitsMore(code, layout, st, t, g, x.gen);
        k, t' := ThenClauseSim(code, layout, s, m, st, t, fuel, x.gen, x.lab, q1, q2, q3, ctx, a);
      } else {
        FitsMore(code, layout, st, t, g, a.gen);
        k, t' := ElseClauseSim(code, layout, s, m, st, t, fuel, a.gen, a.lab, q2, q3, ctx, b);
      }
    } else if Eval(layout, s.condition, None, st).Some? {
      var r := Eval(layout, s.condition, None, st).value;
      var j, u := FullExpression(code, layout, s.condition, st, t, g, n + 2, p, x, r);
      ThenBranch(code, layout, Running(p, t), j, q1 - 1, u, r.v, q2 + 1);
      if r.v != 0 {
        var i, w := ThenClauseSim(code, layout, s, Go, r.st, u, fuel, x.gen, x.lab, q1, q2, q3, ctx, a);
        FollowsAfter(code, layout, Running(p, t), j + 1, Running(q1, u), ExecFlat(layout, s.thenClause, Go, r.st, fuel), q3 + 1, ctx,
                     r.st, st, fuel, fuel, i, w);
        k, t' := j + 1 + i, w;
      } else {
        FitsMore(code, layout, r.st, u, x.gen, a.gen);
        PassLabel(code, layout, q2 + 1, u);
        Chain(code, layout, Running(p, t), j + 1, Running(q2 + 1, u), 1, Running(q2 + 2, u));
        var i, w := ElseClauseSim(code, layout, s, Go, r.st, u, fuel, a.gen, a.lab, q2, q3, ctx, b);
        FollowsAfter(code, layout, Running(p, t), j + 2, Running(q2 + 2, u), ExecFlat(layout, s.elseClause.value, Go, r.st, fuel),
                     q3 + 1, ctx, r.st, st, fuel, fuel, i, w);
        k, t' := j + 2 + i, w;
      }
    }
  }

  lemma {:induction false} ThenClauseSim(code: seq<IrOp>, layout: Layout, s: Stmt, m: Mode, st: Store, t: Store, fuel: nat,
      g: int, n: int, q1: nat, q2: nat, q3: nat, ctx: Targets, a: FlatCode) returns (k: nat, t': Store)
    requires s.IfElse? && (m.Go? || HasFlat(m, s.thenClause)) && Fits(code, layout, st, t, g)
    requires WellTypedFlat(layout, s.thenClause) && WellLabelledFlat(s.thenClause, ctx)
    requires LowerFlat(s.thenClause, g, n) == a && CodeAt(code, q1, a.ops) && q2 == q1 + |a.ops|
    requires q2 < |code| && code[q2].Jump? && q3 < |code| && code[q3] == LabelAt(code[q2].target)
    ensures Follows(code, layout, EntryFlat(code, m, s.thenClause, q1, t), ExecFlat(layout, s.thenClause, m, st, fuel),
                    q3 + 1, ctx, st, fuel, k, t')
    decreases fuel, s, 1
  {
    hide ExecFlat, LowerFlat, WellTypedFlat, WellLabelledFlat, UniqueLabels, Agree, Below, StoreOk, Iter, Step, FindLabel, CodeAt, HasFlat;
    var i, u := FlatSim(code, layout, s.thenClause, m, st, t, fuel, g, n, q1, ctx, a);
    JumpPastLabel(code, layout, q2, q3, u);
    k := Extend(code, layout, EntryFlat(code, m, s.thenClause, q1, t), ExecFlat(layout, s.thenClause, m, st, fuel), q2, q3 + 1, ctx,
                st, fuel, i, u, 2);
    t' := u;
  }

  lemma {:induction false} ElseClauseSim(code: seq<IrOp>, layout: Layout, s: Stmt, m: Mode, st: Store, t: Store, fuel: nat,
      g: int, n: int, q2: nat, q3: nat, ctx: Targets, b: FlatCode) returns (k: nat, t': Store)
    requires s.IfElse? && s.elseClause.Some? && (m.Go? || HasFlat(m, s.elseClause.value)) && Fits(code, layout, st, t, g)
    requires WellTypedFlat(layout, s.elseClause.value) && WellLabelledFlat(s.elseClause.value, ctx)
    requires LowerFlat(s.elseClause.value, g, n) == b && CodeAt(code, q2 + 2, b.ops) && q3 == q2 + 2 + |b.ops|
    requires q3 < |code| && code[q3].LabelAt?
    ensures Follows(code, layout, EntryFlat(code, m, s.elseClause.value, q2 + 2, t), ExecFlat(layout, s.elseClause.value, m, st, fuel),
                    q3 + 1, ctx, st, fuel, k, t')
    decreases fuel, s, 1
  {
    hide ExecFlat, LowerFlat, WellTypedFlat, WellLabelledFlat, UniqueLabels, Agree, Below, StoreOk, Iter, Step, FindLabel, CodeAt, HasFlat;
    var f := s.elseClause.value;
    var i, u := FlatSim(code, layout, f, m, st, t, fuel, g, n, q2 + 2, ctx, b);
    PassLabel(code, layout, q3, u);
    k := Extend(code, layout, EntryFlat(code, m, f, q2 + 2, t), ExecFlat(layout, f, m, st, fuel), q3, q3 + 1, ctx, st, fuel, i, u, 1);
    t' := u;
  }

  // ----------------------------------------------------- labels inside the code

  /** A label that can be looked for is in the code of the statement. */
  lemma {:induction false} LabelPresent(m: Mode, s: Stmt, g: int, n: int)
    requires Has(m, s)
    ensures LabelAt(LabelOf(m, s)) in LowerStmt(s, g, n).ops
    decreases s
  {
    match s
    case Block(f) => LabelPresentFlat(m, f, g, n);
    case IfElse(c, a, b) =>
      var k := LowerExpr(c, None, g, if b.Some? then n + 2 else n + 1);
      var x := LowerFlat(a, k.gen, k.lab);
      if HasFlat(m, a) {
        LabelPresentFlat(m, a, k.gen, k.lab);
      } else {
        LabelPresentFlat(m, b.value, x.gen, x.lab);
      }
    case Loop(pre, body, _, _, _, _, end) =>
      var k := LowerGuard(pre, end, g, n);
      LabelPresentFlat(m, body, k.gen, k.lab);
    case Switch(c, body, _, _, cases) =>
      var k := LowerExpr(c, None, g, n);
      LabelPresentFlat(m, body, k.gen + |cases|, k.lab);
    case Label(_, _) => OnlyLabel(m, s, g, n);
    case Case(_, _) => OnlyLabel(m, s, g, n);
    case Default(_) => OnlyLabel(m, s, g, n);
  }

  lemma OnlyLabel(m: Mode, s: Stmt, g: int, n: int)
    requires Has(m, s) && (s.Label? || s.Case? || s.Default?)
    ensures LabelAt(LabelOf(m, s)) in LowerStmt(s, g, n).ops
  {
    assert LowerStmt(s, g, n).ops[0] == LabelAt(LabelOf(m, s));
  }

  lemma {:induction false} LabelPresentFlat(m: Mode, f: Flat, g: int, n: int)
    requires HasFlat(m, f)
    ensures LabelAt(LabelOfFlat(m, f)) in LowerFlat(f, g, n).ops
    decreases f
  {
    var a := LowerStmt(f.car, g, n);
    if Has(m, f.car) {
      LabelPresent(m, f.car, g, n);
    } else {
      LabelPresentFlat(m, f.cdr, a.gen, a.lab);
    }
  }

  lemma EntryRuns(code: seq<IrOp>, m: Mode, s: Stmt, g: int, n: int, p: nat, t: Store)
    requires UniqueLabels(code) && (m.Go? || Has(m, s)) && CodeAt(code, p, LowerStmt(s, g, n).ops)
    ensures Entry(code, m, s, p, t).Running?
  {
    if !m.Go? {
      hide LowerStmt, UniqueLabels, FindLabel;
      LabelPresent(m, s, g, n);
      var ops := LowerStmt(s, g, n).ops;
      var i :| 0 <= i < |ops| && ops[i] == LabelAt(LabelOf(m, s));
      assert code[p + i] == LabelAt(LabelOf(m, s));
      LabelFound(code, p + i, LabelOf(m, s));
    }
  }

  // --------------------------------------------------------------------- loops

  /** The pieces of the code of a loop, and where they lie: the body from qb to
      qc, the increment after the label at qc, the last condition from qq to qj. */
  datatype LoopCode = LoopCode(pre: FlatCode, b: FlatCode, inc: FlatCode, post: FlatCode, qb: nat, qc: nat, qq: nat, qj: nat)

  ghost predicate LoopIn(code: seq<IrOp>, p: nat, s: Stmt, g: int, n: int, l: LoopCode)
    requires s.Loop?
  {
    && l.pre == LowerGuard(s.precond, s.labelEnd, g, n) && l.b == LowerFlat(s.body, l.pre.gen, l.pre.lab)
    && l.inc == LowerOptional(s.incr, l.b.gen, l.b.lab) && l.post == LowerGuard(s.postcond, s.labelEnd, l.inc.gen, l.inc.lab)
    && l.qb == p + 1 + |l.pre.ops| && l.qc == l.qb + |l.b.ops| && l.qq == l.qc + 1 + |l.inc.ops|
    && l.qj == l.qq + |l.post.ops| && l.qj + 2 <= |code|
    && code[p] == LabelAt(s.labelStart) && CodeAt(code, p + 1, l.pre.ops) && CodeAt(code, l.qb, l.b.ops)
    && code[l.qc] == LabelAt(s.labelContinue) && CodeAt(code, l.qc + 1, l.inc.ops) && CodeAt(code, l.qq, l.post.ops)
    && code[l.qj] == Jump(s.labelStart) && code[l.qj + 1] == LabelAt(s.labelEnd)
    && g <= l.pre.gen <= l.b.gen <= l.inc.gen
  }

  lemma LoopPlaces(code: seq<IrOp>, p: nat, s: Stmt, g: int, n: int, c: FlatCode) returns (l: LoopCode)
    requires s.Loop? && LowerStmt(s, g, n) == c && CodeAt(code, p, c.ops)
    ensures LoopIn(code, p, s, g, n, l) && p + |c.ops| == l.qj + 2
  {
    var pre := LowerGuard(s.precond, s.labelEnd, g, n);
    var b := LowerFlat(s.body, pre.gen, pre.lab);
    var i := LowerOptional(s.incr, b.gen, b.lab);
    var post := LowerGuard(s.postcond, s.labelEnd, i.gen, i.lab);
    var h, cont, tail := [LabelAt(s.labelStart)], LabelAt(s.labelContinue), [Jump(s.labelStart), LabelAt(s.labelEnd)];
    var a := h + pre.ops + b.ops;
    assert c.ops == a + [cont] + i.ops + post.ops + tail;
    hide LowerStmt, LowerFlat, LowerGuard, LowerOptional;
    Split(code, p, a + [cont] + i.ops + post.ops, tail);
    Split(code, p, a + [cont] + i.ops, post.ops);
    Split(code, p, a + [cont], i.ops);
    Append(code, p, a, cont);
    Split(code, p, h + pre.ops, b.ops);
    Split(code, p, h, pre.ops);
    var qb := p + 1 + |pre.ops|;
    var qc := qb + |b.ops|;
    var qq := qc + 1 + |i.ops|;
    var qj := qq + |post.ops|;
    assert code[p + 0] == h[0] && code[qj + 0] == tail[0] && code[qj + 1] == tail[1];
    l := LoopCode(pre, b, i, post, qb, qc, qq, qj);
  }

  lemma {:induction false} LoopSim(code: seq<IrOp>, layout: Layout, s: Stmt, m: Mode, st: Store, t: Store, fuel: nat,
      g: int, n: int, p: nat, ctx: Targets, c: FlatCode) returns (k: nat, t': Store)
    requires s.Loop?
    requires (m.Go? || Has(m, s)) && Fits(code, layout, st, t, g) && WellTypedStmt(layout, s) && WellLabelled(s, ctx)
    requires LowerStmt(s, g, n) == c && CodeAt(code, p, c.ops)
    ensures Follows(code, layout, Entry(code, m, s, p, t), ExecStmt(layout, s, m, st, fuel), p + |c.ops|, ctx, st, fuel, k, t')
    decreases fuel, s, 2
  {
    hide Eval, EvalOptional, ExecFlat, LoopRest, LowerGuard, LowerOptional, LowerFlat, LowerStmt, WellTypedOptional, WellTypedFlat,
      WellLabelledFlat, UniqueLabels, Agree, Below, StoreOk, Iter, Step, FindLabel, CodeAt, HasFlat, LabelOfFlat;
    var l := LoopPlaces(code, p, s, g, n, c);
    k, t' := 0, t;
    if fuel == 0 {
      EntryRuns(code, m, s, g, n, p, t);
      NoSteps(code, layout, Entry(code, m, s, p, t));
    } else if !m.Go? {
      k, t' := LoopBodySim(code, layout, s, m, st, t, fuel, g, n, p, ctx, c, l);
    } else if EvalOptional(layout, s.precond, st).Some? {
      var r := EvalOptional(layout, s.precond, st).value;
      PassLabel(code, layout, p, t);
      var j, u := GuardSim(code, layout, s.precond, s.labelEnd, st, t, g, n, p + 1, l.qj + 1, l.pre, r);
      if r.v == 0 {
        Chain(code, layout, Running(p, t), 1, Running(p + 1, t), j, Running(l.qj + 1, u));
        PassLabel(code, layout, l.qj + 1, u);
        Chain(code, layout, Running(p, t), 1 + j, Running(l.qj + 1, u), 1, Running(l.qj + 2, u));
        k, t' := 1 + j + 1, u;
      } else {
        Chain(code, layout, Running(p, t), 1, Running(p + 1, t), j, Running(l.qb, u));
        BelowSame(st, r.st, g);
        FitsBelow(code, layout, r.st, u, l.pre.gen, g);
        var i, w := LoopBodySim(code, layout, s, Go, r.st, u, fuel, g, n, p, ctx, c, l);
        FollowsAfter(code, layout, Running(p, t), 1 + j, Running(l.qb, u),
                     LoopRest(layout, s, ExecFlat(layout, s.body, Go, r.st, fuel), fuel), l.qj + 2, ctx, r.st, st, fuel, fuel, i, w);
        k, t' := 1 + j + i, w;
      }
    }
  }

  lemma NoSteps(code: seq<IrOp>, layout: Layout, c: Config)
    ensures Iter(code, layout, c, 0) == c
  {
  }

  lemma BelowSame(s: Store, s': Store, g: int)
    requires Below(s, g) && s'.Keys == s.Keys
    ensures Below(s', g)
  {
  }

  lemma FitsBelow(code: seq<IrOp>, layout: Layout, s: Store, t: Store, g: int, g': int)
    requires Fits(code, layout, s, t, g) && Below(s, g')
    ensures Fits(code, layout, s, t, g')
  {
  }

  /** A run that is at a label or has jumped there goes on behind it. */
  lemma ToLabel(code: seq<IrOp>, layout: Layout, from: Config, i: nat, q: nat, id: int, u: Store)
    requires UniqueLabels(code) && q < |code| && code[q] == LabelAt(id)
    requires Iter(code, layout, from, i) == Running(q, u) || Iter(code, layout, from, i) == JumpTo(code, id, u)
    ensures Iter(code, layout, from, i + 1) == Running(q + 1, u)
  {
    hide UniqueLabels, Iter, Step, FindLabel;
    LabelFound(code, q, id);
    PassLabel(code, layout, q, u);
    Chain(code, layout, from, i, Running(q, u), 1, Running(q + 1, u));
  }

  lemma LoopBodyParts(code: seq<IrOp>, layout: Layout, s: Stmt, st: Store, t: Store, g: int, ctx: Targets)
    requires s.Loop? && Fits(code, layout, st, t, g) && WellTypedStmt(layout, s) && WellLabelled(s, ctx)
    ensures UniqueLabels(code) && WellTypedFlat(layout, s.body)
    ensures WellLabelledFlat(s.body, ctx.(brk := s.labelEnd, cont := s.labelContinue))
  {
    hide UniqueLabels, StoreOk, Agree, Below;
  }

  /** From the body on. */
  lemma {:induction false} LoopBodySim(code: seq<IrOp>, layout: Layout, s: Stmt, m: Mode, st: Store, t: Store, fuel: nat,
      g: int, n: int, p: nat, ctx: Targets, c: FlatCode, l: LoopCode) returns (k: nat, t': Store)
    requires s.Loop? && fuel > 0 && (m.Go? || Has(m, s)) && LoopIn(code, p, s, g, n, l) && p + |c.ops| == l.qj + 2
    requires Fits(code, layout, st, t, g) && WellTypedStmt(layout, s) && WellLabelled(s, ctx)
    requires LowerStmt(s, g, n) == c && CodeAt(code, p, c.ops)
    ensures Follows(code, layout, EntryFlat(code, m, s.body, l.qb, t),
                    LoopRest(layout, s, ExecFlat(layout, s.body, m, st, fuel), fuel), l.qj + 2, ctx, st, fuel, k, t')
    decreases fuel, s, 1
  {
    hide Eval, EvalOptional, ExecFlat, ExecLoop, LowerGuard, LowerOptional, LowerFlat, LowerStmt, WellTypedOptional, WellTypedFlat,
      WellLabelledFlat, UniqueLabels, Agree, Below, StoreOk, Iter, Step, FindLabel, CodeAt, HasFlat, LabelOfFlat, WellTypedStmt, WellLabelled, Fits;
    LoopBodyParts(code, layout, s, st, t, g, ctx);
    var from := EntryFlat(code, m, s.body, l.qb, t);
    var body := ExecFlat(layout, s.body, m, st, fuel);
    FitsMore(code, layout, st, t, g, l.pre.gen);
    var i, u := FlatSim(code, layout, s.body, m, st, t, fuel, l.pre.gen, l.pre.lab, l.qb,
                        ctx.(brk := s.labelEnd, cont := s.labelContinue), l.b);
    k, t' := i, u;
    if body.Done? && body.out.Broke? {
      ToLabel(code, layout, from, i, l.qj + 1, s.labelEnd, u);
      k := i + 1;
    } else if body.Done? && (body.out.Normal? || body.out.Continued?) {
      ToLabel(code, layout, from, i, l.qc, s.labelContinue, u);
      AfterFits(code, layout, st, body.st, t, u, g, g);
      var j, w := LoopAgain(code, layout, s, body.st, u, fuel, g, n, p, ctx, c, l);
      FollowsAfter(code, layout, from, i + 1, Running(l.qc + 1, u), LoopRest(layout, s, body, fuel), l.qj + 2, ctx, body.st, st,
                   fuel, fuel, j, w);
      k, t' := i + 1 + j, w;
    }
  }

  /** The increment, the last condition and the jump back. */
  lemma {:induction false} LoopAgain(code: seq<IrOp>, layout: Layout, s: Stmt, st: Store, t: Store, fuel: nat,
      g: int, n: int, p: nat, ctx: Targets, c: FlatCode, l: LoopCode) returns (k: nat, t': Store)
    requires s.Loop? && fuel > 0 && LoopIn(code, p, s, g, n, l) && p + |c.ops| == l.qj + 2
    requires Fits(code, layout, st, t, g) && WellTypedStmt(layout, s) && WellLabelled(s, ctx)
    requires LowerStmt(s, g, n) == c && CodeAt(code, p, c.ops)
    ensures Follows(code, layout, Running(l.qc + 1, t), LoopRest(layout, s, Done(Normal, st), fuel), l.qj + 2, ctx, st, fuel, k, t')
    decreases fuel, s, 0
  {
    hide Eval, EvalOptional, ExecFlat, ExecLoop, LowerGuard, LowerOptional, LowerFlat, LowerStmt, WellTypedOptional, WellTypedFlat,
      WellLabelledFlat, UniqueLabels, Agree, Below, StoreOk, Iter, Step, FindLabel, CodeAt, HasFlat, LabelOfFlat;
    k, t' := 0, t;
    if EvalOptional(layout, s.incr, st).Some? {
      var r := EvalOptional(layout, s.incr, st).value;
      FitsMore(code, layout, st, t, g, l.b.gen);
      var i, u := OptionalSim(code, layout, s.incr, st, t, l.b.gen, l.b.lab, l.qc + 1, l.inc, r);
      if EvalOptional(layout, s.postcond, r.st).Some? {
        var q := EvalOptional(layout, s.postcond, r.st).value;
        var j, w := GuardSim(code, layout, s.postcond, s.labelEnd, r.st, u, l.inc.gen, l.inc.lab, l.qq, l.qj + 1, l.post, q);
        var from := Running(l.qc + 1, t);
        if q.v == 0 {
          Chain(code, layout, from, i, Running(l.qq, u), j, Running(l.qj + 1, w));
          PassLabel(code, layout, l.qj + 1, w);
          Chain(code, layout, from, i + j, Running(l.qj + 1, w), 1, Running(l.qj + 2, w));
          k, t' := i + j + 1, w;
        } else {
          Chain(code, layout, from, i, Running(l.qq, u), j, Running(l.qj, w));
          ThenJump(code, layout, from, i + j, l.qj, w, p);
          BelowSame(st, q.st, g);
          FitsBelow(code, layout, q.st, w, l.post.gen, g);
          var h, x := LoopSim(code, layout, s, Go, q.st, w, fuel - 1, g, n, p, ctx, c);
          FollowsAfter(code, layout, from, i + j + 1, Running(p, w), ExecLoop(layout, s, Go, q.st, fuel - 1), l.qj + 2, ctx,
                       q.st, st, fuel - 1, fuel, h, x);
          k, t' := i + j + 1 + h, x;
        }
      }
    }
  }

  // -------------------------------------------------------------------- switch

  /** The list of tests jumps to the label of a case that has the value, or falls
      through when no case has it. */
  lemma {:induction false} CaseJumpsSim(code: seq<IrOp>, layout: Layout, v: IrVal, ty: CType, cases: seq<CaseEntry>, s: Store, t: Store,
      g: int, b: nat, q: nat) returns (k: nat, t': Store)
    requires Fits(code, layout, s, t, g) && CodeAt(code, q, CaseJumps(v, ty, cases, g)) && v.ty == ty && Read(v, t) == Some(b)
    requires v.Variable? ==> v.loc in s || (v.loc.Tmp? && v.loc.id < g)
    ensures Fits(code, layout, s, t', g) && Read(v, t') == Some(b)
    ensures if exists i :: 0 <= i < |cases| && Bits(ty, cases[i].num) == b
            then (exists i :: 0 <= i < |cases| && Bits(ty, cases[i].num) == b
                              && Iter(code, layout, Running(q, t), k) == JumpTo(code, cases[i].unique, t'))
            else Iter(code, layout, Running(q, t), k) == Running(q + |CaseJumps(v, ty, cases, g)|, t')
    decreases |cases|
  {
    k, t' := 0, t;
    if cases != [] {
      var rest := CaseJumps(v, ty, cases[1..], g + 1);
      var test := [BinaryOf(Equal, v, Constant(cases[0].num, ty), Temp(g, Int)), JumpIfNotZero(Temp(g, Int), cases[0].unique)];
      Split(code, q, rest, test);
      var z := q + |rest|;
      assert code[z + 0] == test[0] && code[z + 1] == test[1];
      hide UniqueLabels, CodeAt, StoreOk, Modulus;
      var j, u := CaseJumpsSim(code, layout, v, ty, cases[1..], s, t, g + 1, b, q);
      if exists i :: 0 <= i < |cases[1..]| && Bits(ty, cases[1..][i].num) == b {
        var i :| 0 <= i < |cases[1..]| && Bits(ty, cases[1..][i].num) == b
                 && Iter(code, layout, Running(q, t), j) == JumpTo(code, cases[1..][i].unique, u);
        assert cases[i + 1] == cases[1..][i];
        k, t' := j, u;
      } else {
        var i, w := OneCaseSim(code, layout, Running(q, t), j, v, ty, cases[0], s, u, g, b, z);
        assert forall i :: 1 <= i < |cases| ==> cases[i] == cases[1..][i - 1];
        k, t' := i, w;
      }
    }
  }

  lemma OneCaseSim(code: seq<IrOp>, layout: Layout, from: Config, j: nat, v: IrVal, ty: CType, c: CaseEntry, s: Store, t: Store,
      g: int, b: nat, z: nat) returns (k: nat, t': Store)
    requires Fits(code, layout, s, t, g) && v.ty == ty && Read(v, t) == Some(b)
    requires v.Variable? ==> v.loc in s || (v.loc.Tmp? && v.loc.id < g)
    requires z + 2 <= |code| && code[z] == BinaryOf(Equal, v, Constant(c.num, ty), Temp(g, Int))
    requires code[z + 1] == JumpIfNotZero(Temp(g, Int), c.unique)
    requires Iter(code, layout, from, j) == Running(z, t)
    ensures Fits(code, layout, s, t', g) && Read(v, t') == Some(b)
    ensures Iter(code, layout, from, k) == if Bits(ty, c.num) == b then JumpTo(code, c.unique, t') else Running(z + 2, t')
  {
    hide UniqueLabels, StoreOk, Modulus, FindLabel;
    var x: nat := if Bits(ty, c.num) == b then 1 else 0;
    var dst := Temp(g, Int);
    BitsFixedInt(x);
    WriteBits(dst, t, x);
    t' := t[Tmp(g) := x];
    ReadBits(dst, t', x);
    ThenStep(code, layout, from, j, z, t, t');
    Once(code, layout, Running(z + 1, t'));
    Chain(code, layout, from, j + 1, Running(z + 1, t'), 1, Step(code, layout, Running(z + 1, t')));
    k := j + 2;
  }

  lemma BitsFixedInt(x: nat)
    requires x <= 1
    ensures x < Modulus(Int)
  {
  }

  datatype SwitchCode = SwitchCode(x: ExprCode, tests: seq<IrOp>, b: FlatCode, qt: nat, qd: nat, qe: nat, qb: nat, qz: nat)

  /** Where the pieces of a switch lie: the tests from qt to qd, the jump to the
      end at qe, the body from qb to qz. */
  ghost predicate SwitchIn(code: seq<IrOp>, p: nat, s: Stmt, g: int, n: int, l: SwitchCode)
    requires s.Switch?
  {
    && l.x == LowerExpr(s.control, None, g, n) && l.tests == CaseJumps(l.x.ret, TypeOf(s.control), s.labelCases, l.x.gen)
    && l.b == LowerFlat(s.switchBody, l.x.gen + |s.labelCases|, l.x.lab)
    && l.qt == p + |l.x.ops| && l.qd == l.qt + |l.tests| && l.qe == (if s.labelDefault >= 0 then l.qd + 1 else l.qd)
    && l.qb == l.qe + 1 && l.qz == l.qb + |l.b.ops| && l.qz < |code|
    && CodeAt(code, p, l.x.ops) && CodeAt(code, l.qt, l.tests)
    && (s.labelDefault >= 0 ==> code[l.qd] == Jump(s.labelDefault)) && code[l.qe] == Jump(s.switchEnd)
    && CodeAt(code, l.qb, l.b.ops) && code[l.qz] == LabelAt(s.switchEnd)
  }

  lemma SwitchPlaces(code: seq<IrOp>, p: nat, s: Stmt, g: int, n: int, c: FlatCode) returns (l: SwitchCode)
    requires s.Switch? && LowerStmt(s, g, n) == c && CodeAt(code, p, c.ops)
    ensures SwitchIn(code, p, s, g, n, l) && p + |c.ops| == l.qz + 1
  {
    hide LowerFlat, LowerExpr, CaseJumps, CodeAt;
    var x := LowerExpr(s.control, None, g, n);
    var tests := CaseJumps(x.ret, TypeOf(s.control), s.labelCases, x.gen);
    var b := LowerFlat(s.switchBody, x.gen + |s.labelCases|, x.lab);
    var d := if s.labelDefault >= 0 then [Jump(s.labelDefault)] else [];
    assert c.ops == x.ops + tests + d + [Jump(s.switchEnd)] + b.ops + [LabelAt(s.switchEnd)];
    hide LowerStmt;
    Append(code, p, x.ops + tests + d + [Jump(s.switchEnd)] + b.ops, LabelAt(s.switchEnd));
    Split(code, p, x.ops + tests + d + [Jump(s.switchEnd)], b.ops);
    Append(code, p, x.ops + tests + d, Jump(s.switchEnd));
    if s.labelDefault >= 0 {
      Append(code, p, x.ops + tests, d[0]);
    } else {
      assert x.ops + tests + d == x.ops + tests;
    }
    Split(code, p, x.ops, tests);
    var qt := p + |x.ops|;
    var qd := qt + |tests|;
    var qe := if s.labelDefault >= 0 then qd + 1 else qd;
    l := SwitchCode(x, tests, b, qt, qd, qe, qe + 1, qe + 1 + |b.ops|);
  }

  lemma SwitchTyped(layout: Layout, s: Stmt, ctx: Targets)
    requires s.Switch? && WellTypedStmt(layout, s) && WellLabelled(s, ctx)
    ensures WellTyped(layout, s.control, None) && CasesMatch(TypeOf(s.control), s.switchBody, s.labelDefault, s.labelCases)
  {
    hide CasesMatch;
  }

  lemma {:induction false} SwitchSim(code: seq<IrOp>, layout: Layout, s: Stmt, m: Mode, st: Store, t: Store, fuel: nat,
      g: int, n: int, p: nat, ctx: Targets, c: FlatCode) returns (k: nat, t': Store)
    requires s.Switch?
    requires (m.Go? || Has(m, s)) && Fits(code, layout, st, t, g) && WellTypedStmt(layout, s) && WellLabelled(s, ctx)
    requires LowerStmt(s, g, n) == c && CodeAt(code, p, c.ops)
    ensures Follows(code, layout, Entry(code, m, s, p, t), ExecStmt(layout, s, m, st, fuel), p + |c.ops|, ctx, st, fuel, k, t')
    decreases fuel, s, 2
  {
    hide Eval, ExecFlat, LowerFlat, LowerStmt, LowerExpr, WellTyped, WellTypedFlat, WellLabelledFlat, UniqueLabels, Agree, Below,
      StoreOk, Iter, Step, FindLabel, CodeAt, HasFlat, LabelOfFlat, CaseJumps, Read, Modulus, TypeOf, CasesMatch, WellTypedStmt, WellLabelled;
    SwitchTyped(layout, s, ctx);
    var l := SwitchPlaces(code, p, s, g, n, c);
    k, t' := 0, t;
    if !m.Go? {
      k, t' := SwitchBodySim(code, layout, s, m, st, t, fuel, g, n, p, ctx, l);
    } else if Eval(layout, s.control, None, st).Some? {
      var r := Eval(layout, s.control, None, st).value;
      var i, u := FullExpression(code, layout, s.control, st, t, g, n, p, l.x, r);
      var j, w := CaseJumpsSim(code, layout, l.x.ret, TypeOf(s.control), s.labelCases, r.st, u, l.x.gen, r.v, l.qt);
      Chain(code, layout, Running(p, t), i, Running(l.qt, u), j, Iter(code, layout, Running(l.qt, u), j));
      BelowSame(st, r.st, g);
      FitsBelow(code, layout, r.st, w, l.x.gen, g);
      var h, m', jumped := SwitchChoice(code, layout, s, Running(p, t), i + j, r.st, w, g, n, p, ctx, l, r.v, Running(l.qt, u), j);
      if jumped {
        var d, y := SwitchBodySim(code, layout, s, m', r.st, w, fuel, g, n, p, ctx, l);
        FollowsAfter(code, layout, Running(p, t), h, EntryFlat(code, m', s.switchBody, l.qb, w),
                     AfterSwitch(ExecFlat(layout, s.switchBody, m', r.st, fuel)), l.qz + 1, ctx, r.st, st, fuel, fuel, d, y);
        k, t' := h + d, y;
      } else {
        k, t' := h, w;
      }
    }
  }

  /** After the tests the run is at the chosen label, or behind the switch. */
  lemma SwitchChoice(code: seq<IrOp>, layout: Layout, s: Stmt, from: Config, i: nat, st: Store, w: Store, g: int, n: int, p: nat,
                     ctx: Targets, l: SwitchCode, v: nat, tests: Config, j: nat) returns (h: nat, m: Mode, jumped: bool)
    requires s.Switch? && SwitchIn(code, p, s, g, n, l) && UniqueLabels(code)
    requires CasesMatch(TypeOf(s.control), s.switchBody, s.labelDefault, s.labelCases)
    requires Iter(code, layout, from, i) == Iter(code, layout, tests, j)
    requires var cases, ty := s.labelCases, TypeOf(s.control);
             if exists i :: 0 <= i < |cases| && Bits(ty, cases[i].num) == v
             then (exists i :: 0 <= i < |cases| && Bits(ty, cases[i].num) == v
                               && Iter(code, layout, tests, j) == JumpTo(code, cases[i].unique, w))
             else Iter(code, layout, tests, j) == Running(l.qd, w)
    ensures jumped ==> HasFlat(m, s.switchBody) && !m.Go? && Iter(code, layout, from, h) == JumpTo(code, LabelOfFlat(m, s.switchBody), w)
    ensures !jumped ==> Iter(code, layout, from, h) == Running(l.qz + 1, w)
    ensures var chosen := SeekCase(TypeOf(s.control), v);
            if HasFlat(chosen, s.switchBody) then jumped && m == chosen
            else if HasFlat(SeekDefault, s.switchBody) then jumped && m == SeekDefault
            else !jumped
  {
    hide UniqueLabels, LowerFlat, LowerExpr, CaseJumps, CodeAt, FindLabel, Iter, HasFlat, LabelOfFlat, Modulus, TypeOf;
    var cases, ty := s.labelCases, TypeOf(s.control);
    m := SeekCase(ty, v);
    if exists i :: 0 <= i < |cases| && Bits(ty, cases[i].num) == v {
      var e :| 0 <= e < |cases| && Bits(ty, cases[e].num) == v && Iter(code, layout, tests, j) == JumpTo(code, cases[e].unique, w);
      assert CaseKnown(ty, s.switchBody, cases[e]);
      h, jumped := i, true;
    } else if s.labelDefault >= 0 {
      Once(code, layout, Running(l.qd, w));
      Chain(code, layout, from, i, Running(l.qd, w), 1, Step(code, layout, Running(l.qd, w)));
      h, m, jumped := i + 1, SeekDefault, true;
    } else {
      JumpPastLabel(code, layout, l.qe, l.qz, w);
      Chain(code, layout, from, i, Running(l.qe, w), 2, Running(l.qz + 1, w));
      h, jumped := i + 2, false;
    }
  }

  lemma {:induction false} SwitchBodySim(code: seq<IrOp>, layout: Layout, s: Stmt, m: Mode, st: Store, t: Store, fuel: nat,
      g: int, n: int, p: nat, ctx: Targets, l: SwitchCode) returns (k: nat, t': Store)
    requires s.Switch? && !m.Go? && HasFlat(m, s.switchBody) && SwitchIn(code, p, s, g, n, l)
    requires Fits(code, layout, st, t, g) && WellTypedStmt(layout, s) && WellLabelled(s, ctx)
    ensures Follows(code, layout, EntryFlat(code, m, s.switchBody, l.qb, t), AfterSwitch(ExecFlat(layout, s.switchBody, m, st, fuel)),
                    l.qz + 1, ctx, st, fuel, k, t')
    decreases fuel, s, 1
  {
    hide Eval, ExecFlat, LowerFlat, WellTyped, WellTypedFlat, WellLabelledFlat, CasesMatch, UniqueLabels, Agree, Below, StoreOk, Iter,
      CodeAt, HasFlat, LabelOfFlat;
    var g' := l.x.gen + |s.labelCases|;
    assert g <= g';
    hide Eval, ExecFlat, LowerFlat, LowerExpr, WellTyped, WellTypedFlat, WellLabelledFlat, UniqueLabels, Agree, Below,
      StoreOk, Iter, Step, FindLabel, CodeAt, HasFlat, LabelOfFlat, CaseJumps, CasesMatch, TypeOf;
    var from := EntryFlat(code, m, s.switchBody, l.qb, t);
    var body := ExecFlat(layout, s.switchBody, m, st, fuel);
    FitsMore(code, layout, st, t, g, g');
    var i, u := FlatSim(code, layout, s.switchBody, m, st, t, fuel, g', l.x.lab, l.qb, ctx.(brk := s.switchEnd), l.b);
    PassLabel(code, layout, l.qz, u);
    k, t' := i, u;
    if body.Done? && body.out.Broke? {
      LabelFound(code, l.qz, s.switchEnd);
      Chain(code, layout, from, i, Running(l.qz, u), 1, Running(l.qz + 1, u));
      k := i + 1;
    } else if body.Done? && body.out.Normal? {
      Chain(code, layout, from, i, Running(l.qz, u), 1, Running(l.qz + 1, u));
      k := i + 1;
    }
  }
}
