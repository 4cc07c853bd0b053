/** Main results about IR lowering: the lowered function behaves as the source
    function does, with the same result, and it stops exactly when that stops. */
module LoweringCorrectness {
  import opened Wrappers
  import opened CTypes
  import opened CAst
  import opened Ir
  import opened CSemantics
  import opened Lowering
  import opened Simulation
  import opened StmtSimulation
  import opened LabelUniqueness

  /** Every goto label of the body is known under its number. */
  ghost predicate NamesMatch(body: Flat, names: map<string, int>) {
    forall x :: HasFlat(SeekLabel(x), body) ==> x in names && names[x] == LabelOfFlat(SeekLabel(x), body)
  }

  /** A function body as the semantic passes leave it, below the counters g and n. */
  ghost predicate Checked(layout: Layout, body: Flat, names: map<string, int>, n: int) {
    && WellTypedFlat(layout, body) && WellLabelledFlat(body, Targets(-1, -1, names)) && NamesMatch(body, names)
    && SourceDistinctFlat(body) && SourceBelow(SourceLabelsFlat(body), n)
  }

  // ------------------------------------------------------------ function bodies

  lemma FlatEntryRuns(code: seq<IrOp>, m: Mode, f: Flat, g: int, n: int, p: nat, t: Store)
    requires UniqueLabels(code) && HasFlat(m, f) && CodeAt(code, p, LowerFlat(f, g, n).ops)
    ensures JumpTo(code, LabelOfFlat(m, f), t).Running?
  {
    hide LowerFlat, UniqueLabels, FindLabel;
    LabelPresentFlat(m, f, g, n);
    var ops := LowerFlat(f, g, n).ops;
    var i :| 0 <= i < |ops| && ops[i] == LabelAt(LabelOfFlat(m, f));
    assert code[p + i] == LabelAt(LabelOfFlat(m, f));
    LabelFound(code, p + i, LabelOfFlat(m, f));
  }

  lemma {:induction false} BodySim(code: seq<IrOp>, layout: Layout, body: Flat, m: Mode, st: Store, t: Store, fuel: nat,
      g: int, n: int, names: map<string, int>, c: FlatCode) returns (k: nat, t': Store)
    requires (m.Go? || HasFlat(m, body)) && Fits(code, layout, st, t, g) && WellTypedFlat(layout, body)
    requires WellLabelledFlat(body, Targets(-1, -1, names)) && NamesMatch(body, names)
    requires LowerFlat(body, g, n) == c && CodeAt(code, 0, c.ops)
    ensures Follows(code, layout, EntryFlat(code, m, body, 0, t), RunBody(layout, body, m, st, fuel), |c.ops|,
                    Targets(-1, -1, names), st, fuel, k, t')
    decreases fuel
  {
    hide ExecFlat, LowerFlat, WellTypedFlat, WellLabelledFlat, UniqueLabels, Agree, Below, StoreOk, Iter, Step, FindLabel, CodeAt,
      HasFlat, LabelOfFlat, NamesMatch;
    var ctx := Targets(-1, -1, names);
    var from := EntryFlat(code, m, body, 0, t);
    var i, u := FlatSim(code, layout, body, m, st, t, fuel, g, n, 0, ctx, c);
    var r := ExecFlat(layout, body, m, st, fuel);
    k, t' := i, u;
    if r.Done? && r.out.Jumped? && HasFlat(SeekLabel(r.out.name), body) {
      var m' := SeekLabel(r.out.name);
      NameKnown(body, names, r.out.name);
      FlatEntryRuns(code, m', body, g, n, 0, u);
      if fuel > 0 {
        AfterFits(code, layout, st, r.st, t, u, g, g);
        var j, w := BodySim(code, layout, body, m', r.st, u, fuel - 1, g, n, names, c);
        FollowsAfter(code, layout, from, i, EntryFlat(code, m', body, 0, u), RunBody(layout, body, m', r.st, fuel - 1), |c.ops|, ctx,
                     r.st, st, fuel - 1, fuel, j, w);
        k, t' := i + j, w;
      }
    }
  }

  lemma NameKnown(body: Flat, names: map<string, int>, x: string)
    requires NamesMatch(body, names) && HasFlat(SeekLabel(x), body)
    ensures x in names && names[x] == LabelOfFlat(SeekLabel(x), body)
  {
  }

  // ----------------------------------------------------- runs that have ended

  /** A run that has ended stays where it is. */
  lemma EndedStays(code: seq<IrOp>, layout: Layout, c: Config, j: nat, k: nat)
    requires j <= k && !Iter(code, layout, c, j).Running?
    ensures Iter(code, layout, c, k) == Iter(code, layout, c, j)
    decreases k
  {
    if j > 0 {
      EndedStays(code, layout, Step(code, layout, c), j - 1, k - 1);
    } else if k > 0 {
      EndedStays(code, layout, Step(code, layout, c), 0, k - 1);
    }
  }

  /** Control never runs off the end of a list whose last operation is a return. */
  lemma StaysInside(code: seq<IrOp>, layout: Layout, c: Config, k: nat)
    requires code != [] && code[|code| - 1].Ret? && (c.Running? ==> c.pc < |code|)
    ensures Iter(code, layout, c, k).Running? ==> Iter(code, layout, c, k).pc < |code|
    decreases k
  {
    if k > 0 {
      StaysInside(code, layout, Step(code, layout, c), k - 1);
    }
  }

  // -------------------------------------------------------------- main results

  /** The result of a function whose end is reached: a zero of type char. */
  function FallOff(isVoid: bool): Option<Typed> {
    if isVoid then None else Some(Typed(0, Char))
  }

  function FinalRet(isVoid: bool): IrOp {
    Ret(if isVoid then None else Some(Constant(0, Char)))
  }

  /** The code of a function starts with the code of its body, and ends with a return. */
  lemma FunctionShape(body: Flat, isVoid: bool, g: int, n: int)
    ensures var c, f := LowerFlat(body, g, n), LowerFunction(body, isVoid, g, n);
            && f.ops != [] && f.ops[|f.ops| - 1].Ret? && CodeAt(f.ops, 0, c.ops)
            && (f.ops == c.ops || (|f.ops| == |c.ops| + 1
                                   && f.ops[|c.ops|] == FinalRet(isVoid)))
  {
  }

  lemma FinalReturn(code: seq<IrOp>, layout: Layout, q: nat, isVoid: bool, t: Store)
    requires q < |code| && code[q] == FinalRet(isVoid)
    ensures Iter(code, layout, Running(q, t), 1) == Halted(FallOff(isVoid), t)
  {
    Once(code, layout, Running(q, t));
  }

  /** What a finished or unfinished source execution promises about the machine. */
  ghost predicate Behaves(code: seq<IrOp>, layout: Layout, res: ExecResult, isVoid: bool, t: Store, fuel: nat) {
    match res
    case Undefined => true
    case Timeout => Iter(code, layout, Running(0, t), fuel).Running?
    case Done(out, s') =>
      var v := if out.Returned? then out.v else FallOff(isVoid);
      (out.Normal? || out.Returned?)
      && exists k: nat, t' :: Iter(code, layout, Running(0, t), k) == Halted(v, t') && Agree(s', t')
  }

  /** Lowering preserves meaning: for every checked function body and every
      amount of fuel, the machine that runs the lowered code does what the source
      execution does; when the source execution is unfinished, so is the run. */
  lemma LoweringPreservesMeaning(layout: Layout, body: Flat, isVoid: bool, names: map<string, int>, g: int, n: int,
                                 s: Store, t: Store, fuel: nat)
    requires Checked(layout, body, names, n) && StoreOk(layout, s) && Agree(s, t) && Below(s, g)
    ensures Behaves(LowerFunction(body, isVoid, g, n).ops, layout, RunBody(layout, body, Go, s, fuel), isVoid, t, fuel)
  {
    hide LowerFlat, LowerFunction, WellTypedFlat, WellLabelledFlat, Agree, Below, StoreOk, NamesMatch, RunBody, CodeAt, Iter, Step, Checked,
      Follows, Behaves, Fits, FinalRet, EntryFlat;
    var c, f := LowerFlat(body, g, n), LowerFunction(body, isVoid, g, n);
    var code := f.ops;
    FunctionShape(body, isVoid, g, n);
    BodyFits(layout, body, isVoid, names, g, n, s, t);
    var k, t' := BodySim(code, layout, body, Go, s, t, fuel, g, n, names, c);
    RunBodyOutcomes(layout, body, Go, s, fuel);
    FollowsBehaves(code, layout, RunBody(layout, body, Go, s, fuel), isVoid, |c.ops|, Targets(-1, -1, names), s, t, fuel, k, t');
  }

  lemma BodyFits(layout: Layout, body: Flat, isVoid: bool, names: map<string, int>, g: int, n: int, s: Store, t: Store)
    requires Checked(layout, body, names, n) && StoreOk(layout, s) && Agree(s, t) && Below(s, g)
    ensures var code := LowerFunction(body, isVoid, g, n).ops;
            Fits(code, layout, s, t, g) && EntryFlat(code, Go, body, 0, t) == Running(0, t)
    ensures WellTypedFlat(layout, body) && WellLabelledFlat(body, Targets(-1, -1, names)) && NamesMatch(body, names)
  {
    hide LowerFlat, LowerFunction, WellTypedFlat, WellLabelledFlat, UniqueLabels, Agree, Below, StoreOk, NamesMatch, SourceDistinctFlat, SourceBelow;
    FunctionLabels(body, isVoid, g, n);
  }

  lemma FollowsBehaves(code: seq<IrOp>, layout: Layout, res: ExecResult, isVoid: bool, end: nat, ctx: Targets, s: Store, t: Store,
                       fuel: nat, k: nat, t': Store)
    requires Follows(code, layout, Running(0, t), res, end, ctx, s, fuel, k, t')
    requires res.Done? ==> res.out.Normal? || res.out.Returned?
    requires code != [] && code[|code| - 1].Ret? && (end == |code| || (end < |code| && code[end] == FinalRet(isVoid)))
    ensures Behaves(code, layout, res, isVoid, t, fuel)
  {
    hide Agree, StoreOk, Step, Iter;
    if res.Timeout? {
      if !Iter(code, layout, Running(0, t), fuel).Running? {
        EndedStays(code, layout, Running(0, t), fuel, k);
      }
    } else if res.Done? && res.out.Normal? {
      StaysInside(code, layout, Running(0, t), k);
      var v := FallOff(isVoid);
      FinalReturn(code, layout, end, isVoid, t');
      Chain(code, layout, Running(0, t), k, Running(end, t'), 1, Halted(v, t'));
    }
  }

  /** A function body ends by falling off its end or by returning. */
  lemma {:induction false} RunBodyOutcomes(layout: Layout, body: Flat, m: Mode, st: Store, fuel: nat)
    requires m.Go? || HasFlat(m, body)
    ensures var r := RunBody(layout, body, m, st, fuel); r.Done? ==> r.out.Normal? || r.out.Returned?
    decreases fuel
  {
    hide ExecFlat, HasFlat;
    var r := ExecFlat(layout, body, m, st, fuel);
    if r.Done? && r.out.Jumped? && HasFlat(SeekLabel(r.out.name), body) && fuel > 0 {
      RunBodyOutcomes(layout, body, SeekLabel(r.out.name), r.st, fuel - 1);
    }
  }

  /** The converse: when the source has no undefined behaviour, every run of the
      lowered code that halts does so with the result of the source execution. */
  lemma HaltsOnlyAsSource(layout: Layout, body: Flat, isVoid: bool, names: map<string, int>, g: int, n: int,
                          s: Store, t: Store, k: nat, v: Option<Typed>, t': Store)
    requires Checked(layout, body, names, n) && StoreOk(layout, s) && Agree(s, t) && Below(s, g)
    requires forall fuel: nat :: !RunBody(layout, body, Go, s, fuel).Undefined?
    requires Iter(LowerFunction(body, isVoid, g, n).ops, layout, Running(0, t), k) == Halted(v, t')
    ensures exists fuel: nat ::
              var r := RunBody(layout, body, Go, s, fuel);
              r.Done? && Agree(r.st, t') && v == (if r.out.Returned? then r.out.v else FallOff(isVoid))
  {
    var code := LowerFunction(body, isVoid, g, n).ops;
    hide LowerFunction, RunBody, Agree, Below, StoreOk, Step;
    LoweringPreservesMeaning(layout, body, isVoid, names, g, n, s, t, k);
    var r := RunBody(layout, body, Go, s, k);
    if r.Done? {
      var w := if r.out.Returned? then r.out.v else FallOff(isVoid);
      var j: nat, u :| Iter(code, layout, Running(0, t), j) == Halted(w, u) && Agree(r.st, u);
      if j <= k {
        EndedStays(code, layout, Running(0, t), j, k);
      } else {
        EndedStays(code, layout, Running(0, t), k, j);
      }
    }
  }

  /** A function that never finishes has code that never halts. */
  lemma DivergencePreserved(layout: Layout, body: Flat, isVoid: bool, names: map<string, int>, g: int, n: int, s: Store, t: Store, k: nat)
    requires Checked(layout, body, names, n) && StoreOk(layout, s) && Agree(s, t) && Below(s, g)
    requires forall fuel: nat :: RunBody(layout, body, Go, s, fuel).Timeout?
    ensures Iter(LowerFunction(body, isVoid, g, n).ops, layout, Running(0, t), k).Running?
  {
    LoweringPreservesMeaning(layout, body, isVoid, names, g, n, s, t, k);
  }
}
