/** Both label passes together: a function body that they accept is numbered as
    the lowering needs it, and means what it meant before. */
module SemaLabels {
  import opened CTypes
  import opened CAst
  import opened CSemantics
  import opened StmtSimulation
  import opened LabelUniqueness
  import opened LoopLabels
  import opened GotoLabels

  // ------------------------------------------------- what the numbers leave alone

  lemma {:induction false} PlainNames(s: Stmt)
    ensures LabelNames(Plain(s)) == LabelNames(s) && GotoNames(Plain(s)) == GotoNames(s)
    decreases s
  {
    match s
    case Block(f) => PlainNamesFlat(f);
    case IfElse(_, a, b) =>
      PlainNamesFlat(a);
      if b.Some? {
        PlainNamesFlat(b.value);
      }
    case Loop(_, body, _, _, _, _, _) => PlainNamesFlat(body);
    case Switch(_, body, _, _, _) => PlainNamesFlat(body);
    case _ =>
  }

  lemma {:induction false} PlainNamesFlat(f: Flat)
    ensures LabelNamesFlat(PlainFlat(f)) == LabelNamesFlat(f) && GotoNamesFlat(PlainFlat(f)) == GotoNamesFlat(f)
    decreases f
  {
    if f.Cons? {
      PlainNames(f.car);
      PlainNamesFlat(f.cdr);
    }
  }

  lemma {:induction false} PlainPlaced(s: Stmt, inLoop: bool, inSwitch: bool)
    ensures Placed(Plain(s), inLoop, inSwitch) <==> Placed(s, inLoop, inSwitch)
    decreases s
  {
    match s
    case Block(f) => PlainPlacedFlat(f, inLoop, inSwitch);
    case IfElse(_, a, b) =>
      PlainPlacedFlat(a, inLoop, inSwitch);
      if b.Some? {
        PlainPlacedFlat(b.value, inLoop, inSwitch);
      }
    case Loop(_, body, _, _, _, _, _) => PlainPlacedFlat(body, true, inSwitch);
    case Switch(c, body, _, _, _) =>
      PlainPlacedFlat(body, inLoop, true);
      PlainCasesFlat(TypeOf(c), body);
    case _ =>
  }

  lemma {:induction false} PlainPlacedFlat(f: Flat, inLoop: bool, inSwitch: bool)
    ensures PlacedFlat(PlainFlat(f), inLoop, inSwitch) <==> PlacedFlat(f, inLoop, inSwitch)
    decreases f
  {
    if f.Cons? {
      PlainPlaced(f.car, inLoop, inSwitch);
      PlainPlacedFlat(f.cdr, inLoop, inSwitch);
    }
  }

  lemma {:induction false} RenamedCases(t: CType, s: Stmt, names: map<string, int>)
    ensures CasesOf(t, Renamed(s, names)) == CasesOf(t, s) && DefaultsOf(Renamed(s, names)) == DefaultsOf(s)
    ensures Plain(Renamed(s, names)) == Plain(s)
    decreases s
  {
    match s
    case Block(f) => RenamedCasesFlat(t, f, names);
    case IfElse(_, a, b) =>
      RenamedCasesFlat(t, a, names);
      if b.Some? {
        RenamedCasesFlat(t, b.value, names);
      }
    case Loop(_, body, _, _, _, _, _) => RenamedCasesFlat(t, body, names);
    case Switch(_, body, _, _, _) => RenamedCasesFlat(t, body, names);
    case _ =>
  }

  lemma {:induction false} RenamedCasesFlat(t: CType, f: Flat, names: map<string, int>)
    ensures CasesOfFlat(t, RenamedFlat(f, names)) == CasesOfFlat(t, f) && DefaultsOfFlat(RenamedFlat(f, names)) == DefaultsOfFlat(f)
    ensures PlainFlat(RenamedFlat(f, names)) == PlainFlat(f)
    decreases f
  {
    if f.Cons? {
      RenamedCases(t, f.car, names);
      RenamedCasesFlat(t, f.cdr, names);
    }
  }

  // -------------------------------------------------------- cases are found

  ghost predicate NotNegative(cases: seq<CaseEntry>) {
    forall c :: c in cases ==> c.num >= 0
  }

  /** The case constants of a body that is accepted are not negative. */
  lemma {:induction false} PlacedCases(t: CType, s: Stmt, inLoop: bool, inSwitch: bool)
    requires Placed(s, inLoop, inSwitch)
    ensures NotNegative(CasesOf(t, s))
    decreases s
  {
    match s
    case Block(f) => PlacedCasesFlat(t, f, inLoop, inSwitch);
    case IfElse(_, a, b) =>
      PlacedCasesFlat(t, a, inLoop, inSwitch);
      if b.Some? {
        PlacedCasesFlat(t, b.value, inLoop, inSwitch);
      }
    case Loop(_, body, _, _, _, _, _) => PlacedCasesFlat(t, body, true, inSwitch);
    case Case(x, _) => CaseStopsExactly(t, x);
    case _ =>
  }

  lemma {:induction false} PlacedCasesFlat(t: CType, f: Flat, inLoop: bool, inSwitch: bool)
    requires PlacedFlat(f, inLoop, inSwitch)
    ensures NotNegative(CasesOfFlat(t, f))
    decreases f
  {
    if f.Cons? {
      PlacedCases(t, f.car, inLoop, inSwitch);
      PlacedCasesFlat(t, f.cdr, inLoop, inSwitch);
    }
  }

  lemma {:induction false} SeekFindsCase(t: CType, v: nat, s: Stmt)
    requires NotNegative(CasesOf(t, s))
    ensures Has(SeekCase(t, v), s) <==> exists l :: CaseEntry(v, l) in CasesOf(t, s)
    ensures Has(SeekCase(t, v), s) ==> CaseEntry(v, LabelOf(SeekCase(t, v), s)) in CasesOf(t, s)
    decreases s
  {
    match s
    case Block(f) => SeekFindsCaseFlat(t, v, f);
    case IfElse(_, a, b) =>
      SeekFindsCaseFlat(t, v, a);
      if b.Some? {
        SeekFindsCaseFlat(t, v, b.value);
      }
    case Loop(_, body, _, _, _, _, _) => SeekFindsCaseFlat(t, v, body);
    case Case(x, l) =>
      assert CaseEntry(CaseValue(t, x), l) in CasesOf(t, s);
      CaseStopsExactly(t, x);
      CaseValueIsConversion(t, x);
    case _ =>
  }

  lemma {:induction false} SeekFindsCaseFlat(t: CType, v: nat, f: Flat)
    requires NotNegative(CasesOfFlat(t, f))
    ensures HasFlat(SeekCase(t, v), f) <==> exists l :: CaseEntry(v, l) in CasesOfFlat(t, f)
    ensures HasFlat(SeekCase(t, v), f) ==> CaseEntry(v, LabelOfFlat(SeekCase(t, v), f)) in CasesOfFlat(t, f)
    decreases f
  {
    if f.Cons? {
      SeekFindsCase(t, v, f.car);
      SeekFindsCaseFlat(t, v, f.cdr);
    }
  }

  lemma {:induction false} SeekFindsDefault(s: Stmt)
    ensures Has(SeekDefault, s) <==> DefaultsOf(s) != []
    ensures Has(SeekDefault, s) ==> LabelOf(SeekDefault, s) == DefaultsOf(s)[0]
    decreases s
  {
    match s
    case Block(f) => SeekFindsDefaultFlat(f);
    case IfElse(_, a, b) =>
      SeekFindsDefaultFlat(a);
      if b.Some? {
        SeekFindsDefaultFlat(b.value);
      }
    case Loop(_, body, _, _, _, _, _) => SeekFindsDefaultFlat(body);
    case _ =>
  }

  lemma {:induction false} SeekFindsDefaultFlat(f: Flat)
    ensures HasFlat(SeekDefault, f) <==> DefaultsOfFlat(f) != []
    ensures HasFlat(SeekDefault, f) ==> LabelOfFlat(SeekDefault, f) == DefaultsOfFlat(f)[0]
    decreases f
  {
    if f.Cons? {
      SeekFindsDefault(f.car);
      SeekFindsDefaultFlat(f.cdr);
    }
  }

  lemma CaseListMatches(t: CType, body: Flat, dflt: int)
    requires Distinct(Nums(CasesOfFlat(t, body))) && NotNegative(CasesOfFlat(t, body)) && (forall x :: x in DefaultsOfFlat(body) ==> x >= 0)
    requires dflt == (if DefaultsOfFlat(body) == [] then UNSET else DefaultsOfFlat(body)[0])
    ensures CasesMatch(t, body, dflt, CasesOfFlat(t, body))
  {
    var cases := CasesOfFlat(t, body);
    EntriesConvertedFlat(t, body);
    forall i | 0 <= i < |cases| ensures CaseKnown(t, body, cases[i]) {
      assert Converted(t, cases[i]);
      var v: nat := cases[i].num;
      SeekFindsCaseFlat(t, v, body);
      assert CaseEntry(v, cases[i].unique) in cases;
      var l := LabelOfFlat(SeekCase(t, v), body);
      var j :| 0 <= j < |cases| && cases[j] == CaseEntry(v, l);
      assert Nums(cases)[i] == Nums(cases)[j];
    }
    forall v: nat | HasFlat(SeekCase(t, v), body) ensures exists i :: 0 <= i < |cases| && Bits(t, cases[i].num) == v {
      SeekFindsCaseFlat(t, v, body);
      var i :| 0 <= i < |cases| && cases[i] == CaseEntry(v, LabelOfFlat(SeekCase(t, v), body));
      assert Converted(t, cases[i]);
    }
    SeekFindsDefaultFlat(body);
    if DefaultsOfFlat(body) != [] {
      assert dflt in DefaultsOfFlat(body);
    }
  }

  ghost predicate Converted(t: CType, c: CaseEntry) {
    c.num >= 0 && Bits(t, c.num) == c.num
  }

  /** The entries of a case list hold converted values. */
  lemma {:induction false} EntriesConverted(t: CType, s: Stmt)
    requires NotNegative(CasesOf(t, s))
    ensures forall c :: c in CasesOf(t, s) ==> Converted(t, c)
    decreases s
  {
    hide Converted, CaseValue;
    match s
    case Block(f) => EntriesConvertedFlat(t, f);
    case IfElse(_, a, b) =>
      EntriesConvertedFlat(t, a);
      if b.Some? {
        EntriesConvertedFlat(t, b.value);
      }
    case Loop(_, body, _, _, _, _, _) => EntriesConvertedFlat(t, body);
    case Case(v, l) =>
      assert CaseEntry(CaseValue(t, v), l) in CasesOf(t, s);
      OneConverted(t, v, l);
    case _ =>
  }

  lemma OneConverted(t: CType, v: Literal, l: int)
    requires CaseValue(t, v) >= 0
    ensures forall c :: c in CasesOf(t, Case(v, l)) ==> Converted(t, c)
  {
    hide CaseValue;
    CaseStopsExactly(t, v);
    CaseValueIsConversion(t, v);
    assert Bits(t, Bits(t, v)) == Bits(t, v);
    assert forall c :: c in CasesOf(t, Case(v, l)) ==> c == CaseEntry(Bits(t, v), l);
  }

  lemma {:induction false} EntriesConvertedFlat(t: CType, f: Flat)
    requires NotNegative(CasesOfFlat(t, f))
    ensures forall c :: c in CasesOfFlat(t, f) ==> Converted(t, c)
    decreases f
  {
    if f.Cons? {
      EntriesConverted(t, f.car);
      EntriesConvertedFlat(t, f.cdr);
    }
  }

  // -------------------------------------------------- the result of both passes

  lemma {:induction false} BothLabelled(s: Stmt, names: map<string, int>, brk: int, cont: int, lo: int, hi: int, inLoop: bool, inSwitch: bool)
    requires LoopLabelled(s, brk, cont) && Known(s, names) && Numbered(s, lo, hi) && lo >= 0 && Placed(s, inLoop, inSwitch)
    ensures WellLabelled(Renamed(s, names), Targets(brk, cont, names))
    decreases s
  {
    match s
    case Block(f) => BothLabelledFlat(f, names, brk, cont, lo, hi, inLoop, inSwitch);
    case IfElse(_, a, b) =>
      if b.None? {
        BothLabelledFlat(a, names, brk, cont, lo, hi, inLoop, inSwitch);
      } else {
        var m :| NumberedFlat(a, lo, m) && NumberedFlat(b.value, m, hi);
        DefaultsCountedFlat(a, lo, m);
        BothLabelledFlat(a, names, brk, cont, lo, m, inLoop, inSwitch);
        BothLabelledFlat(b.value, names, brk, cont, m, hi, inLoop, inSwitch);
      }
    case Loop(_, body, _, _, _, c, e) => BothLabelledFlat(body, names, e, c, lo + 3, hi, true, inSwitch);
    case Switch(c, body, d, e, _) =>
      BothLabelledFlat(body, names, e, cont, lo + 1, hi, inLoop, true);
      RenamedCasesFlat(TypeOf(c), body, names);
      DefaultsCountedFlat(body, lo + 1, hi);
      PlacedCasesFlat(TypeOf(c), body, inLoop, true);
      CaseListMatches(TypeOf(c), RenamedFlat(body, names), d);
    case Goto(n, _) =>
      assert n in GotoNames(s);
    case _ =>
  }

  lemma {:induction false} BothLabelledFlat(f: Flat, names: map<string, int>, brk: int, cont: int, lo: int, hi: int, inLoop: bool, inSwitch: bool)
    requires LoopLabelledFlat(f, brk, cont) && KnownFlat(f, names) && NumberedFlat(f, lo, hi) && lo >= 0 && PlacedFlat(f, inLoop, inSwitch)
    ensures WellLabelledFlat(RenamedFlat(f, names), Targets(brk, cont, names))
    decreases f
  {
    if f.Cons? {
      var m :| Numbered(f.car, lo, m) && NumberedFlat(f.cdr, m, hi);
      DefaultsCounted(f.car, lo, m);
      BothLabelled(f.car, names, brk, cont, lo, m, inLoop, inSwitch);
      BothLabelledFlat(f.cdr, names, brk, cont, m, hi, inLoop, inSwitch);
    }
  }

  lemma {:induction false} NamesFound(s: Stmt, names: map<string, int>, x: string)
    requires Known(s, names) && Has(SeekLabel(x), Renamed(s, names))
    ensures x in names && LabelOf(SeekLabel(x), Renamed(s, names)) == names[x]
    decreases s
  {
    match s
    case Block(f) => NamesFoundFlat(f, names, x);
    case IfElse(_, a, b) =>
      if HasFlat(SeekLabel(x), RenamedFlat(a, names)) {
        NamesFoundFlat(a, names, x);
      } else {
        NamesFoundFlat(b.value, names, x);
      }
    case Loop(_, body, _, _, _, _, _) => NamesFoundFlat(body, names, x);
    case Switch(_, body, _, _, _) => NamesFoundFlat(body, names, x);
    case Label(n, _) =>
      assert LabelNames(s)[0] == n;
    case _ =>
  }

  lemma {:induction false} NamesFoundFlat(f: Flat, names: map<string, int>, x: string)
    requires KnownFlat(f, names) && HasFlat(SeekLabel(x), RenamedFlat(f, names))
    ensures x in names && LabelOfFlat(SeekLabel(x), RenamedFlat(f, names)) == names[x]
    decreases f
  {
    if Has(SeekLabel(x), Renamed(f.car, names)) {
      NamesFound(f.car, names, x);
    } else {
      NamesFoundFlat(f.cdr, names, x);
    }
  }

  // ------------------------------------------------------------- distinctness

  /** The numbers of named labels are different, and above those of the others. */
  ghost predicate Above(names: map<string, int>, top: int) {
    && (forall n :: n in names ==> names[n] > top)
    && (forall m, n :: m in names && n in names && m != n ==> names[m] != names[n])
  }

  /** Where the numbers of a labelled statement come from. */
  ghost predicate Origin(x: int, lo: int, hi: int, met: seq<string>, names: map<string, int>) {
    lo <= x < hi || exists n :: n in met && n in names && names[n] == x
  }

  lemma OriginsDisjoint(x: int, lo: int, mid: int, hi: int, a: seq<string>, b: seq<string>, names: map<string, int>, top: int)
    requires Origin(x, lo, mid, a, names) && Above(names, top) && NoRepeats(a + b) && lo <= mid <= hi <= top
    ensures !Origin(x, mid, hi, b, names)
  {
    NewJoin(a, b, {});
  }

  lemma {:induction false} DistinctNumbers(s: Stmt, names: map<string, int>, lo: int, hi: int, top: int)
    requires Numbered(s, lo, hi) && Known(s, names) && Above(names, top) && NoRepeats(LabelNames(s)) && 0 <= lo && hi <= top
    ensures SourceDistinct(Renamed(s, names))
    ensures forall x :: x in SourceLabels(Renamed(s, names)) ==> Origin(x, lo, hi, LabelNames(s), names)
    decreases s
  {
    match s
    case Block(f) => DistinctNumbersFlat(f, names, lo, hi, top);
    case IfElse(_, a, b) =>
      if b.None? {
        DistinctNumbersFlat(a, names, lo, hi, top);
      } else {
        var m :| NumberedFlat(a, lo, m) && NumberedFlat(b.value, m, hi);
        DefaultsCountedFlat(a, lo, m);
        DefaultsCountedFlat(b.value, m, hi);
        NewJoin(LabelNamesFlat(a), LabelNamesFlat(b.value), {});
        DistinctNumbersFlat(a, names, lo, m, top);
        DistinctNumbersFlat(b.value, names, m, hi, top);
        Together(SourceLabelsFlat(RenamedFlat(a, names)), SourceLabelsFlat(RenamedFlat(b.value, names)), lo, m, hi,
                 LabelNamesFlat(a), LabelNamesFlat(b.value), names, top);
      }
    case Loop(_, body, _, _, x, y, z) => DistinctNumbersFlat(body, names, lo + 3, hi, top);
      DefaultsCountedFlat(body, lo + 3, hi);
    case Switch(_, body, _, e, _) => DistinctNumbersFlat(body, names, lo + 1, hi, top);
      DefaultsCountedFlat(body, lo + 1, hi);
    case Label(n, _) =>
      assert LabelNames(s)[0] == n;
    case _ =>
  }

  lemma {:induction false} DistinctNumbersFlat(f: Flat, names: map<string, int>, lo: int, hi: int, top: int)
    requires NumberedFlat(f, lo, hi) && KnownFlat(f, names) && Above(names, top) && NoRepeats(LabelNamesFlat(f)) && 0 <= lo && hi <= top
    ensures SourceDistinctFlat(RenamedFlat(f, names))
    ensures forall x :: x in SourceLabelsFlat(RenamedFlat(f, names)) ==> Origin(x, lo, hi, LabelNamesFlat(f), names)
    decreases f
  {
    if f.Cons? {
      var m :| Numbered(f.car, lo, m) && NumberedFlat(f.cdr, m, hi);
      DefaultsCounted(f.car, lo, m);
      DefaultsCountedFlat(f.cdr, m, hi);
      NewJoin(LabelNames(f.car), LabelNamesFlat(f.cdr), {});
      DistinctNumbers(f.car, names, lo, m, top);
      DistinctNumbersFlat(f.cdr, names, m, hi, top);
      Together(SourceLabels(Renamed(f.car, names)), SourceLabelsFlat(RenamedFlat(f.cdr, names)), lo, m, hi,
               LabelNames(f.car), LabelNamesFlat(f.cdr), names, top);
    }
  }

  lemma Together(a: set<int>, b: set<int>, lo: int, mid: int, hi: int, x: seq<string>, y: seq<string>, names: map<string, int>, top: int)
    requires forall n :: n in a ==> Origin(n, lo, mid, x, names)
    requires forall n :: n in b ==> Origin(n, mid, hi, y, names)
    requires Above(names, top) && NoRepeats(x + y) && lo <= mid <= hi <= top
    ensures a !! b && forall n :: n in a + b ==> Origin(n, lo, hi, x + y, names)
  {
    forall n | n in a ensures n !in b {
      OriginsDisjoint(n, lo, mid, hi, x, y, names, top);
    }
    forall n | n in a + b ensures Origin(n, lo, hi, x + y, names) {
    }
  }
}
