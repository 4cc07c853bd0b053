/** From the typed tree of a whole program to the IR of its functions: both label
    passes over all functions, then lowering, with counters that run on from one
    function to the next. */
module Pipeline {
  import opened Wrappers
  import opened CTypes
  import opened CAst
  import opened Ir
  import opened CSemantics
  import opened Lowering
  import opened Simulation
  import opened StmtSimulation
  import opened LabelUniqueness
  import opened LoweringCorrectness
  import opened LoopLabels
  import opened GotoLabels
  import opened SemaLabels
  import opened PlainMeaning
  import opened JumpTargets
  import opened Lvalues
  import opened IrBuilder

  /** A function with its parameters, its other variables and its return type, if it
      is not void. */
  datatype Function = Function(params: seq<Param>, locals: seq<Param>, body: Flat, returnType: Option<CType>)
  {
    predicate IsVoid() {
      returnType.None?
    }
  }

  /** The goto rules: a label stands once, and every goto has one
      (sections 6.8.1 and 6.8.6.1). */
  ghost predicate GotosResolve(body: Flat) {
    AllNew(LabelNamesFlat(body), {}) && GotoNamesFlat(body) <= (set n | n in LabelNamesFlat(body))
  }

  ghost predicate Accepted(body: Flat) {
    AcceptableFlat(body, []) && GotosResolve(body)
  }

  /** The numbering that the two passes leave: the loop numbers of the function in
      lo..hi, those of its named labels in from+1..to. */
  ghost predicate Numbering(body: Flat, lo: int, hi: int, from: int, to: int) {
    && SourceDistinctFlat(body) && (exists names :: Resolved(body, names)) && PlacedFlat(body, false, false)
    && (forall x :: x in SourceLabelsFlat(body) ==> InRanges(x, lo, hi, from, to))
  }

  predicate InRanges(x: int, lo: int, hi: int, from: int, to: int) {
    lo <= x < hi || from < x <= to
  }

  ghost predicate Resolved(body: Flat, names: map<string, int>) {
    && WellLabelledFlat(body, Targets(-1, -1, names)) && NamesMatch(body, names)
    && forall x :: x in names ==> HasFlat(SeekLabel(x), body)
  }

  lemma AfterBothPasses(body: Flat, b: Flat, names: map<string, int>, lo: int, hi: int, from: int, to: int)
    requires AcceptableFlat(body, []) && LabelledFlat(body, b, [], [], lo, hi) && 0 <= lo && hi <= from
    requires KnownFlat(b, names) && GotosResolve(b) && Above(names, from) && (forall n :: n in names ==> names[n] <= to)
    ensures var f := RenamedFlat(b, names); Numbering(f, lo, hi, from, to) && PlainFlat(f) == PlainFlat(body)
  {
    var met := LabelNamesFlat(b);
    var small := map n | n in names && n in met :: names[n];
    RenamedMoreFlat(b, small, names);
    var f := RenamedFlat(b, small);
    RenamedCasesFlat(Int, b, small);
    PlainPlacedFlat(b, false, false);
    PlainPlacedFlat(body, false, false);
    PlainPlacedFlat(f, false, false);
    BothLabelledFlat(b, small, -1, -1, lo, hi, false, false);
    DistinctNumbersFlat(b, small, lo, hi, from);
    AllResolved(b, small);
    forall x | x in SourceLabelsFlat(f) ensures InRanges(x, lo, hi, from, to) {
      assert Origin(x, lo, hi, met, small);
    }
  }

  lemma AllResolved(b: Flat, names: map<string, int>)
    requires KnownFlat(b, names) && forall x :: x in names ==> x in LabelNamesFlat(b)
    requires WellLabelledFlat(RenamedFlat(b, names), Targets(-1, -1, names)) && PlainFlat(RenamedFlat(b, names)) == PlainFlat(b)
    ensures Resolved(RenamedFlat(b, names), names)
  {
    hide WellLabelledFlat, KnownFlat, PlainFlat, RenamedFlat;
    var f := RenamedFlat(b, names);
    PlainNamesFlat(f);
    PlainNamesFlat(b);
    forall x | HasFlat(SeekLabel(x), f) ensures x in names && names[x] == LabelOfFlat(SeekLabel(x), f) {
      NamesFoundFlat(b, names, x);
    }
    forall x | x in names ensures HasFlat(SeekLabel(x), f) {
      NamePresentFlat(f, x);
    }
  }

  // ---------------------------------------------------------------- the passes

  method SemaLabelLoops(fs: seq<Flat>) returns (r: Option<seq<Flat>>, next: int, ghost bounds: seq<int>)
    ensures r.Some? <==> forall i :: 0 <= i < |fs| ==> AcceptableFlat(fs[i], [])
    ensures r.Some? ==> |r.value| == |fs| && Bounds(bounds, |fs|, 0, next)
    ensures r.Some? ==> forall i :: 0 <= i < |fs| ==> LabelledFlat(fs[i], r.value[i], [], [], bounds[i], bounds[i + 1])
  {
    var labeller := new LoopLabeller(0);
    var out: seq<Flat> := [];
    next, bounds := 0, [0];
    for i := 0 to |fs|
      invariant |out| == i && Bounds(bounds, i, 0, labeller.generator) && labeller.container == []
      invariant forall j :: 0 <= j < i ==> AcceptableFlat(fs[j], []) && LabelledFlat(fs[j], out[j], [], [], bounds[j], bounds[j + 1])
    {
      var b := labeller.LabelFlat(fs[i]);
      if b.None? {
        return None, 0, bounds;
      }
      out, bounds := out + [b.value], bounds + [labeller.generator];
    }
    return Some(out), labeller.generator, bounds;
  }

  /** A rising list of n + 1 bounds. */
  ghost predicate Bounds(bounds: seq<int>, n: nat, first: int, last: int) {
    && |bounds| == n + 1 && bounds[0] == first && bounds[n] == last
    && forall i, j :: 0 <= i <= j <= n ==> bounds[i] <= bounds[j]
  }

  method SemaLabelGotos(fs: seq<Flat>, start: int) returns (r: Option<seq<Flat>>, next: int, ghost bounds: seq<int>,
                                                            ghost names: seq<map<string, int>>)
    ensures r.Some? <==> forall i :: 0 <= i < |fs| ==> GotosResolve(fs[i])
    ensures r.Some? ==> |r.value| == |fs| == |names| && Bounds(bounds, |fs|, start, next)
    ensures r.Some? ==> forall i :: 0 <= i < |fs| ==> Numbers(fs[i], r.value[i], names[i], bounds[i], bounds[i + 1])
  {
    var labeller := new GotoLabeller(start);
    var out: seq<Flat> := [];
    next, bounds, names := 0, [start], [];
    for i := 0 to |fs|
      invariant |out| == i == |names| && Bounds(bounds, i, start, labeller.generator)
      invariant forall j :: 0 <= j < i ==> GotosResolve(fs[j]) && Numbers(fs[j], out[j], names[j], bounds[j], bounds[j + 1])
    {
      ghost var known;
      var b;
      b, known := labeller.RenameFunction(fs[i]);
      if b.None? {
        return None, 0, bounds, names;
      }
      out, bounds, names := out + [b.value], bounds + [labeller.generator], names + [known];
    }
    return Some(out), labeller.generator, bounds, names;
  }

  ghost predicate Numbers(f: Flat, f': Flat, names: map<string, int>, from: int, to: int) {
    && f' == RenamedFlat(f, names) && KnownFlat(f, names) && Above(names, from)
    && forall n :: n in names ==> names[n] <= to
  }

  /** The code of f behaves as f does, from every state whose temporaries are
      older than the counter. */
  ghost predicate Faithful(f: Function, code: seq<IrOp>, lastId: int) {
    forall layout, s, t, fuel: nat ::
      WellTypedFlat(layout, f.body) && StoreOk(layout, s) && Agree(s, t) && Below(s, lastId + 1) ==>
        Behaves(code, layout, RunBody(layout, f.body, Go, s, fuel), f.IsVoid(), t, fuel)
  }

  ghost predicate SelfContained(code: seq<IrOp>) {
    UniqueLabels(code) && JumpsIn(code) <= Ids(code)
  }

  /** The code is the lowered form of f, numbered, with newer temporaries. */
  ghost predicate LoweredFrom(f: Function, code: seq<IrOp>, lastId: int) {
    exists body, g, n, names :: IsLowered(f, code, lastId, body, g, n, names)
  }

  ghost predicate IsLowered(f: Function, code: seq<IrOp>, lastId: int, body: Flat, g: int, n: int, names: map<string, int>) {
    && PlainFlat(body) == PlainFlat(f.body) && WellLabelledFlat(body, Targets(-1, -1, names))
    && lastId < g && code == LowerFunction(body, f.IsVoid(), g, n).ops
  }

  /** The label passes do not get through, with an error or at the assertion on case
      constants; lowering stops at a failed assertion; or there is code. */
  datatype Translation = Rejected | Aborted | Translated(code: seq<seq<IrOp>>)

  /** The label passes get through exactly the programs that keep the rules for jumps
      and labels and have no negative case constant, and lowering stops exactly at a left side that it cannot handle. Otherwise the code
      of each function is faithful to its source and jumps only to labels of its own,
      and no label is defined twice in the whole program. */
  method CompileProgram(fs: seq<Function>, lastId: int) returns (r: Translation)
    ensures r.Rejected? <==> exists i :: 0 <= i < |fs| && !Accepted(fs[i].body)
    ensures r.Translated? <==> forall i :: 0 <= i < |fs| ==> Accepted(fs[i].body) && LowersFlat(fs[i].body)
    ensures r.Translated? ==> |r.code| == |fs|
    ensures r.Translated? ==> forall i :: 0 <= i < |fs| ==> Faithful(fs[i], r.code[i], lastId) && SelfContained(r.code[i])
    ensures r.Translated? ==> forall i :: 0 <= i < |fs| ==> LoweredFrom(fs[i], r.code[i], lastId)
    ensures r.Translated? ==> forall i, j :: 0 <= i < j < |fs| ==> Ids(r.code[i]) !! Ids(r.code[j])
  {
    hide AssignersFlat, AllLower, Faithful, SelfContained, LoweredFrom, Ids, Numbering, PlainFlat, AcceptableFlat, KnownFlat;
    var bodies := seq(|fs|, i requires 0 <= i < |fs| => fs[i].body);
    ghost var bounds, ends, names;
    var loops, gotos, next;
    loops, next, bounds := SemaLabelLoops(bodies);
    if loops.None? {
      ghost var i :| 0 <= i < |fs| && !AcceptableFlat(bodies[i], []);
      assert bodies[i] == fs[i].body;
      return Rejected;
    }
    forall i | 0 <= i < |fs| ensures GotosResolve(loops.value[i]) <==> GotosResolve(fs[i].body) {
      assert LabelledFlat(bodies[i], loops.value[i], [], [], bounds[i], bounds[i + 1]);
      PlainNamesFlat(loops.value[i]);
      PlainNamesFlat(bodies[i]);
    }
    gotos, next, ends, names := SemaLabelGotos(loops.value, next);
    if gotos.None? {
      ghost var i :| 0 <= i < |fs| && !GotosResolve(loops.value[i]);
      assert !Accepted(fs[i].body);
      return Rejected;
    }
    forall i | 0 <= i < |fs| ensures Accepted(fs[i].body) {
      assert bodies[i] == fs[i].body;
    }
    var fs' := seq(|fs|, i requires 0 <= i < |fs| => fs[i].(body := gotos.value[i]));
    forall i | 0 <= i < |fs|
      ensures Numbering(fs'[i].body, bounds[i], bounds[i + 1], ends[i], ends[i + 1])
      ensures PlainFlat(fs'[i].body) == PlainFlat(fs[i].body)
      ensures LowersFlat(fs'[i].body) <==> LowersFlat(fs[i].body)
    {
      AfterBothPasses(bodies[i], loops.value[i], names[i], bounds[i], bounds[i + 1], ends[i], ends[i + 1]);
      PlainAssignersFlat(fs[i].body);
      PlainAssignersFlat(fs'[i].body);
    }
    var status, code := IrProgram(fs', lastId + 1, next + 1, bounds, ends);
    if status.Stopped? {
      return Aborted;
    }
    forall i | 0 <= i < |fs| ensures Faithful(fs[i], code[i], lastId) && LoweredFrom(fs[i], code[i], lastId) {
      SameMeaning(fs[i], fs'[i], code[i], lastId);
      SameSource(fs[i], fs'[i], code[i], lastId);
    }
    return Translated(code);
  }

  /** All functions, one after the other, with counters that start at the given
      numbers. */
  method IrProgram(fs: seq<Function>, baseId: int, baseLabel: int, ghost bounds: seq<int>, ghost ends: seq<int>)
    returns (status: Status, code: seq<seq<IrOp>>)
    requires |bounds| == |ends| == |fs| + 1
    requires Bounds(bounds, |fs|, bounds[0], bounds[|fs|]) && Bounds(ends, |fs|, bounds[|fs|], baseLabel - 1)
    requires forall i :: 0 <= i < |fs| ==> Numbering(fs[i].body, bounds[i], bounds[i + 1], ends[i], ends[i + 1])
    ensures status.Success? <==> forall i :: 0 <= i < |fs| ==> LowersFlat(fs[i].body)
    ensures status.Success? ==> |code| == |fs|
    ensures status.Success? ==> forall i :: 0 <= i < |fs| ==> Faithful(fs[i], code[i], baseId - 1) && SelfContained(code[i])
    ensures status.Success? ==> forall i :: 0 <= i < |fs| ==> LoweredFrom(fs[i], code[i], baseId - 1)
    ensures status.Success? ==> forall i, j :: 0 <= i < j < |fs| ==> Ids(code[i]) !! Ids(code[j])
  {
    hide Faithful, SelfContained, Uses, Numbering, Ids, Bounds, LowerFunction, LoweredFrom, LowersFlat;
    var ir := new Intermediate(baseId, baseLabel);
    status, code := Success, [];
    for i := 0 to |fs|
      invariant status.Success? && |code| == i && baseId <= ir.generator && baseLabel <= ir.labels
      invariant forall j :: 0 <= j < i ==> LowersFlat(fs[j].body)
      invariant forall j :: 0 <= j < i ==> Faithful(fs[j], code[j], baseId - 1) && SelfContained(code[j])
      invariant forall j :: 0 <= j < i ==> LoweredFrom(fs[j], code[j], baseId - 1)
      invariant forall j :: 0 <= j < i ==> Uses(code[j], bounds[j], bounds[j + 1], ends[j], ends[j + 1], baseLabel, ir.labels)
      invariant forall j, k :: 0 <= j < k < i ==> Ids(code[j]) !! Ids(code[k])
    {
      ghost var g, n := ir.generator, ir.labels;
      InBounds(bounds, ends, i, |fs|, baseLabel);
      var ops :- ir.IrFunc(fs[i].body, fs[i].IsVoid());
      FunctionResult(fs[i], g, n, baseId - 1, bounds[i], bounds[i + 1], ends[i], ends[i + 1]);
      UsesGrow(ops, bounds[i], bounds[i + 1], ends[i], ends[i + 1], n, ir.labels, baseLabel, ir.labels);
      forall j | 0 <= j < i
        ensures Ids(code[j]) !! Ids(ops)
        ensures Uses(code[j], bounds[j], bounds[j + 1], ends[j], ends[j + 1], baseLabel, ir.labels)
      {
        UsesApart(code[j], ops, bounds, ends, j, i, |fs|, baseLabel, n, ir.labels);
        UsesGrow(code[j], bounds[j], bounds[j + 1], ends[j], ends[j + 1], baseLabel, n, baseLabel, ir.labels);
      }
      code := code + [ops];
    }
  }

  /** The labels of a function: numbers from the label passes and numbers of its
      own. */
  ghost predicate Uses(code: seq<IrOp>, lo: int, hi: int, from: int, to: int, first: int, last: int) {
    forall x :: x in Ids(code) ==> InRanges(x, lo, hi, from, to) || Within(x, first, last)
  }

  lemma UsesGrow(code: seq<IrOp>, lo: int, hi: int, from: int, to: int, first: int, last: int, first': int, last': int)
    requires Uses(code, lo, hi, from, to, first, last) && first' <= first && last <= last'
    ensures Uses(code, lo, hi, from, to, first', last')
  {
  }

  lemma InBounds(bounds: seq<int>, ends: seq<int>, i: nat, n: nat, baseLabel: int)
    requires i < n && |bounds| == |ends| == n + 1
    requires Bounds(bounds, n, bounds[0], bounds[n]) && Bounds(ends, n, bounds[n], baseLabel - 1)
    ensures bounds[i + 1] <= ends[i] <= ends[i + 1] < baseLabel
  {
  }

  lemma UsesApart(a: seq<IrOp>, b: seq<IrOp>, bounds: seq<int>, ends: seq<int>, i: nat, j: nat, n: nat,
                  first: int, mid: int, last: int)
    requires i < j < n && |bounds| == n + 1 == |ends|
    requires Bounds(bounds, n, bounds[0], bounds[n]) && Bounds(ends, n, bounds[n], first - 1) && first <= mid
    requires Uses(a, bounds[i], bounds[i + 1], ends[i], ends[i + 1], first, mid)
    requires Uses(b, bounds[j], bounds[j + 1], ends[j], ends[j + 1], mid, last)
    ensures Ids(a) !! Ids(b)
  {
    hide Ids;
    forall x | x in Ids(a) ensures x !in Ids(b) {
    }
  }

  lemma FunctionResult(f: Function, g: int, n: int, lastId: int, lo: int, hi: int, from: int, to: int)
    requires Numbering(f.body, lo, hi, from, to) && hi <= from && from <= to < n && lastId < g
    ensures var c := LowerFunction(f.body, f.IsVoid(), g, n);
            Faithful(f, c.ops, lastId) && SelfContained(c.ops) && LoweredFrom(f, c.ops, lastId) && Uses(c.ops, lo, hi, from, to, n, c.lab) && g <= c.gen && n <= c.lab
  {
    hide LowerFunction, Resolved, Faithful, SourceDistinctFlat, Ids, PlacedFlat, UniqueLabels, JumpsIn, InRanges;
    var c := LowerFunction(f.body, f.IsVoid(), g, n);
    var names :| Resolved(f.body, names);
    BelowAll(f.body, lo, hi, from, to, n);
    CountersGrow(f.body, f.IsVoid(), g, n);
    FunctionLabels(f.body, f.IsVoid(), g, n);
    ResolvedJumps(f, names, g, n);
    FaithfulHere(f, names, g, n, lastId);
    assert IsLowered(f, c.ops, lastId, f.body, g, n, names) by { ResolvedLabels(f.body, names); }
  }

  lemma ResolvedLabels(body: Flat, names: map<string, int>)
    requires Resolved(body, names)
    ensures WellLabelledFlat(body, Targets(-1, -1, names))
  {
  }

  lemma CountersGrow(body: Flat, isVoid: bool, g: int, n: int)
    ensures g <= LowerFunction(body, isVoid, g, n).gen && n <= LowerFunction(body, isVoid, g, n).lab
  {
  }

  lemma BelowAll(body: Flat, lo: int, hi: int, from: int, to: int, n: int)
    requires Numbering(body, lo, hi, from, to) && hi <= from && from <= to < n
    ensures SourceBelow(SourceLabelsFlat(body), n)
  {
    hide SourceDistinctFlat, PlacedFlat, Resolved, SourceLabelsFlat;
  }

  lemma ResolvedJumps(f: Function, names: map<string, int>, g: int, n: int)
    requires Resolved(f.body, names) && PlacedFlat(f.body, false, false)
    ensures JumpsIn(LowerFunction(f.body, f.IsVoid(), g, n).ops) <= Ids(LowerFunction(f.body, f.IsVoid(), g, n).ops)
  {
    hide LowerFunction, Ids, JumpsIn, WellLabelledFlat, PlacedFlat;
    FunctionJumps(f.body, f.IsVoid(), names, g, n);
  }

  lemma FaithfulHere(f: Function, names: map<string, int>, g: int, n: int, lastId: int)
    requires Resolved(f.body, names) && SourceDistinctFlat(f.body) && SourceBelow(SourceLabelsFlat(f.body), n) && lastId < g
    ensures Faithful(f, LowerFunction(f.body, f.IsVoid(), g, n).ops, lastId)
  {
    hide LowerFunction, WellTypedFlat, WellLabelledFlat, SourceDistinctFlat, NamesMatch, RunBody, Behaves, StoreOk, Agree;
    var c := LowerFunction(f.body, f.IsVoid(), g, n);
    forall layout, s, t, fuel: nat | WellTypedFlat(layout, f.body) && StoreOk(layout, s) && Agree(s, t) && Below(s, lastId + 1)
      ensures Behaves(c.ops, layout, RunBody(layout, f.body, Go, s, fuel), f.IsVoid(), t, fuel)
    {
      LoweringPreservesMeaning(layout, f.body, f.IsVoid(), names, g, n, s, t, fuel);
    }
  }

  lemma SameSource(f: Function, f': Function, code: seq<IrOp>, lastId: int)
    requires PlainFlat(f'.body) == PlainFlat(f.body) && f'.returnType == f.returnType && LoweredFrom(f', code, lastId)
    ensures LoweredFrom(f, code, lastId)
  {
    hide LowerFunction, PlainFlat, WellLabelledFlat;
    var body, g, n, names :| IsLowered(f', code, lastId, body, g, n, names);
    assert IsLowered(f, code, lastId, body, g, n, names);
  }

  /** Numbering a function does not change what it means. */
  lemma SameMeaning(f: Function, f': Function, code: seq<IrOp>, lastId: int)
    requires PlainFlat(f'.body) == PlainFlat(f.body) && f'.returnType == f.returnType && Faithful(f', code, lastId)
    ensures Faithful(f, code, lastId)
  {
    forall layout, s, t, fuel: nat | WellTypedFlat(layout, f.body) && StoreOk(layout, s) && Agree(s, t) && Below(s, lastId + 1)
      ensures Behaves(code, layout, RunBody(layout, f.body, Go, s, fuel), f.IsVoid(), t, fuel)
    {
      PlainTypedFlat(layout, f.body);
      PlainTypedFlat(layout, f'.body);
      PlainRun(layout, f.body, Go, s, fuel);
      PlainRun(layout, f'.body, Go, s, fuel);
    }
  }
}
