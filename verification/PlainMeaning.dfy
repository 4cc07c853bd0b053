/** The numbers in a tree do not matter to what it means: two trees that differ
    only in their numbers run alike. */
module PlainMeaning {
  import opened Wrappers
  import opened CAst
  import opened CSemantics
  import opened StmtSimulation
  import opened LoopLabels

  lemma {:induction false} PlainHas(m: Mode, s: Stmt)
    ensures Has(m, Plain(s)) <==> Has(m, s)
    decreases s
  {
    match s
    case Block(f) => PlainHasFlat(m, f);
    case IfElse(_, a, b) =>
      PlainHasFlat(m, a);
      if b.Some? {
        PlainHasFlat(m, b.value);
      }
    case Loop(_, body, _, _, _, _, _) => PlainHasFlat(m, body);
    case Switch(_, body, _, _, _) => PlainHasFlat(m, body);
    case _ =>
  }

  lemma {:induction false} PlainHasFlat(m: Mode, f: Flat)
    ensures HasFlat(m, PlainFlat(f)) <==> HasFlat(m, f)
    decreases f
  {
    if f.Cons? {
      PlainHas(m, f.car);
      PlainHasFlat(m, f.cdr);
    }
  }

  lemma {:induction false} PlainTyped(layout: Layout, s: Stmt)
    ensures WellTypedStmt(layout, Plain(s)) <==> WellTypedStmt(layout, s)
    decreases s
  {
    match s
    case Block(f) => PlainTypedFlat(layout, f);
    case IfElse(_, a, b) =>
      PlainTypedFlat(layout, a);
      if b.Some? {
        PlainTypedFlat(layout, b.value);
      }
    case Loop(_, body, _, _, _, _, _) => PlainTypedFlat(layout, body);
    case Switch(_, body, _, _, _) => PlainTypedFlat(layout, body);
    case _ =>
  }

  lemma {:induction false} PlainTypedFlat(layout: Layout, f: Flat)
    ensures WellTypedFlat(layout, PlainFlat(f)) <==> WellTypedFlat(layout, f)
    decreases f
  {
    if f.Cons? {
      PlainTyped(layout, f.car);
      PlainTypedFlat(layout, f.cdr);
    }
  }

  lemma {:induction false} PlainExec(layout: Layout, s: Stmt, m: Mode, st: Store, fuel: nat)
    requires m.Go? || Has(m, s)
    ensures m.Go? || Has(m, Plain(s))
    ensures ExecStmt(layout, Plain(s), m, st, fuel) == ExecStmt(layout, s, m, st, fuel)
    decreases fuel, s, 2
  {
    hide Eval;
    PlainHas(m, s);
    match s
    case Block(f) => PlainExecFlat(layout, f, m, st, fuel);
    case IfElse(c, a, b) =>
      if m.Go? {
        var r := Eval(layout, c, None, st);
        if r.Some? {
          if r.value.v != 0 {
            PlainExecFlat(layout, a, Go, r.value.st, fuel);
          } else if b.Some? {
            PlainExecFlat(layout, b.value, Go, r.value.st, fuel);
          }
        }
      } else {
        PlainHasFlat(m, a);
        if HasFlat(m, a) {
          PlainExecFlat(layout, a, m, st, fuel);
        } else {
          PlainExecFlat(layout, b.value, m, st, fuel);
        }
      }
    case Loop(_, _, _, _, _, _, _) => PlainExecLoop(layout, s, m, st, fuel);
    case Switch(c, body, _, _, _) =>
      if m.Go? {
        var r := Eval(layout, c, None, st);
        if r.Some? {
          var chosen := SeekCase(TypeOf(c), r.value.v);
          PlainHasFlat(chosen, body);
          PlainHasFlat(SeekDefault, body);
          if HasFlat(chosen, body) {
            PlainExecFlat(layout, body, chosen, r.value.st, fuel);
          } else if HasFlat(SeekDefault, body) {
            PlainExecFlat(layout, body, SeekDefault, r.value.st, fuel);
          }
        }
      } else {
        PlainExecFlat(layout, body, m, st, fuel);
      }
    case _ =>
  }

  lemma {:induction false} PlainExecFlat(layout: Layout, f: Flat, m: Mode, st: Store, fuel: nat)
    requires m.Go? || HasFlat(m, f)
    ensures m.Go? || HasFlat(m, PlainFlat(f))
    ensures ExecFlat(layout, PlainFlat(f), m, st, fuel) == ExecFlat(layout, f, m, st, fuel)
    decreases fuel, f, 0
  {
    PlainHasFlat(m, f);
    if f.Cons? {
      PlainHas(m, f.car);
      if !m.Go? && !Has(m, f.car) {
        PlainExecFlat(layout, f.cdr, m, st, fuel);
      } else {
        PlainExec(layout, f.car, m, st, fuel);
        var r := ExecStmt(layout, f.car, m, st, fuel);
        if r.Done? && r.out.Normal? {
          PlainExecFlat(layout, f.cdr, Go, r.st, fuel);
        }
      }
    }
  }

  lemma {:induction false} PlainExecLoop(layout: Layout, s: Stmt, m: Mode, st: Store, fuel: nat)
    requires s.Loop? && (m.Go? || Has(m, s))
    ensures m.Go? || Has(m, Plain(s))
    ensures ExecLoop(layout, Plain(s), m, st, fuel) == ExecLoop(layout, s, m, st, fuel)
    decreases fuel, s, 1
  {
    hide Eval;
    PlainHas(m, s);
    if fuel > 0 {
      if !m.Go? {
        PlainExecFlat(layout, s.body, m, st, fuel);
        PlainLoopRest(layout, s, ExecFlat(layout, s.body, m, st, fuel), fuel);
      } else {
        var pre := EvalOptional(layout, s.precond, st);
        if pre.Some? && pre.value.v != 0 {
          PlainExecFlat(layout, s.body, Go, pre.value.st, fuel);
          PlainLoopRest(layout, s, ExecFlat(layout, s.body, Go, pre.value.st, fuel), fuel);
        }
      }
    }
  }

  lemma {:induction false} PlainLoopRest(layout: Layout, s: Stmt, r: ExecResult, fuel: nat)
    requires s.Loop? && fuel > 0
    ensures LoopRest(layout, Plain(s), r, fuel) == LoopRest(layout, s, r, fuel)
    decreases fuel, s, 0
  {
    hide Eval;
    if r.Done? && (r.out.Normal? || r.out.Continued?) {
      var i := EvalOptional(layout, s.incr, r.st);
      if i.Some? {
        var post := EvalOptional(layout, s.postcond, i.value.st);
        if post.Some? && post.value.v != 0 {
          PlainExecLoop(layout, s, Go, post.value.st, fuel - 1);
        }
      }
    }
  }

  lemma {:induction false} PlainRun(layout: Layout, body: Flat, m: Mode, st: Store, fuel: nat)
    requires m.Go? || HasFlat(m, body)
    ensures m.Go? || HasFlat(m, PlainFlat(body))
    ensures RunBody(layout, PlainFlat(body), m, st, fuel) == RunBody(layout, body, m, st, fuel)
    decreases fuel
  {
    PlainExecFlat(layout, body, m, st, fuel);
    var r := ExecFlat(layout, body, m, st, fuel);
    if r.Done? && r.out.Jumped? {
      PlainHasFlat(SeekLabel(r.out.name), body);
      if HasFlat(SeekLabel(r.out.name), body) && fuel > 0 {
        PlainRun(layout, body, SeekLabel(r.out.name), r.st, fuel - 1);
      }
    }
  }
}
