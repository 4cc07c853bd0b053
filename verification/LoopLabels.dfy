/** The first label pass: it numbers the labels of loops, switches and cases, and
    tells every break, continue and case where it belongs. */
module LoopLabels {
  import opened Wrappers
  import opened CTypes
  import opened CAst

  // ------------------------------------------------------------- case values

  const UNSET := -100

  /** The value of a character constant: a byte of type char, which is signed. */
  function CharacterValue(byte: nat): Literal
    requires byte < 0x100
  {
    if byte < 0x80 then byte else byte - 0x100
  }

  /** A case constant at the type of the controlling expression. An assertion demands
      that it is not negative. */
  function CaseValue(t: CType, x: Literal): Literal {
    if ((t.Char? || t.SignedChar?) && x > 127) || (t.UnsignedChar? && x > 255) then x % 0x100
    else if (t.Int? && x > 0x7FFF_FFFF) || (t.UnsignedInt? && x > 0xFFFF_FFFF) then x % 0x1_0000_0000
    else x
  }

  /** It is the representation of the constant after conversion
      (section 6.8.4.2 paragraph 5). */
  lemma CaseValueIsConversion(t: CType, x: Literal)
    requires x >= 0
    ensures CaseValue(t, x) == Bits(t, x)
  {
  }

  /** The assertion fails exactly at negative constants, whatever the type. */
  lemma CaseStopsExactly(t: CType, x: Literal)
    ensures CaseValue(t, x) < 0 <==> x < 0
  {
  }

  /** These are the characters whose byte is 0x80 or above. */
  lemma CharacterLabelStops(t: CType, byte: nat)
    requires byte < 0x100
    ensures CaseValue(t, CharacterValue(byte)) < 0 <==> byte >= 0x80
    ensures CharacterValue(byte) == Value(Char, byte)
  {
    CaseStopsExactly(t, CharacterValue(byte));
  }

  // ------------------------------------------------------------------- shapes

  /** A statement without its numbers. */
  function Plain(s: Stmt): Stmt {
    match s
    case Block(f) => Block(PlainFlat(f))
    case IfElse(c, a, b) => IfElse(c, PlainFlat(a), if b.None? then None else Some(PlainFlat(b.value)))
    case Loop(pre, body, incr, post, _, _, _) => Loop(pre, PlainFlat(body), incr, post, 0, 0, 0)
    case Break(_) => Break(0)
    case Continue(_) => Continue(0)
    case Goto(n, _) => Goto(n, 0)
    case Label(n, _) => Label(n, 0)
    case Switch(c, body, _, _, _) => Switch(c, PlainFlat(body), 0, 0, [])
    case Case(v, _) => Case(v, 0)
    case Default(_) => Default(0)
    case _ => s
  }

  function PlainFlat(f: Flat): Flat {
    if f.Nil? then Nil else Cons(Plain(f.car), PlainFlat(f.cdr))
  }

  /** The case labels of the innermost switch around s, newest first. */
  function CasesOf(t: CType, s: Stmt): seq<CaseEntry> {
    match s
    case Block(f) => CasesOfFlat(t, f)
    case IfElse(_, a, b) => if b.Some? then CasesOfFlat(t, b.value) + CasesOfFlat(t, a) else CasesOfFlat(t, a)
    case Loop(_, body, _, _, _, _, _) => CasesOfFlat(t, body)
    case Case(v, l) => [CaseEntry(CaseValue(t, v), l)]
    case _ => []
  }

  function CasesOfFlat(t: CType, f: Flat): seq<CaseEntry> {
    if f.Nil? then [] else CasesOfFlat(t, f.cdr) + CasesOf(t, f.car)
  }

  function DefaultsOf(s: Stmt): seq<int> {
    match s
    case Block(f) => DefaultsOfFlat(f)
    case IfElse(_, a, b) => if b.Some? then DefaultsOfFlat(a) + DefaultsOfFlat(b.value) else DefaultsOfFlat(a)
    case Loop(_, body, _, _, _, _, _) => DefaultsOfFlat(body)
    case Default(l) => [l]
    case _ => []
  }

  function DefaultsOfFlat(f: Flat): seq<int> {
    if f.Nil? then [] else DefaultsOf(f.car) + DefaultsOfFlat(f.cdr)
  }

  function Nums(cases: seq<CaseEntry>): (r: seq<int>)
    ensures |r| == |cases|
  {
    seq(|cases|, i requires 0 <= i < |cases| => cases[i].num)
  }

  /** No two cases have the same value. */
  ghost predicate Distinct(nums: seq<int>) {
    forall i, j :: 0 <= i < j < |nums| ==> nums[i] != nums[j]
  }

  /** The constraints on where jump statements and labels may stand
      (sections 6.8.1, 6.8.4.2 and 6.8.6), and what the pass demands of case
      constants. */
  ghost predicate Placed(s: Stmt, inLoop: bool, inSwitch: bool) {
    match s
    case Block(f) => PlacedFlat(f, inLoop, inSwitch)
    case IfElse(_, a, b) => PlacedFlat(a, inLoop, inSwitch) && (b.Some? ==> PlacedFlat(b.value, inLoop, inSwitch))
    case Loop(_, body, _, _, _, _, _) => PlacedFlat(body, true, inSwitch)
    case Break(_) => inLoop || inSwitch
    case Continue(_) => inLoop
    case Switch(c, body, _, _, _) =>
      PlacedFlat(body, inLoop, true) && Distinct(Nums(CasesOfFlat(TypeOf(c), body))) && |DefaultsOfFlat(body)| <= 1
    case Case(v, _) => inSwitch && v >= 0
    case Default(_) => inSwitch
    case _ => true
  }

  ghost predicate PlacedFlat(f: Flat, inLoop: bool, inSwitch: bool) {
    f.Cons? ==> Placed(f.car, inLoop, inSwitch) && PlacedFlat(f.cdr, inLoop, inSwitch)
  }

  /** Break has the number of the innermost loop or switch, continue that of the
      innermost loop, and the case list of a switch is that of its body. */
  predicate LoopLabelled(s: Stmt, brk: int, cont: int) {
    match s
    case Break(l) => l == brk
    case Continue(l) => l == cont
    case Block(f) => LoopLabelledFlat(f, brk, cont)
    case IfElse(_, a, b) => LoopLabelledFlat(a, brk, cont) && (b.Some? ==> LoopLabelledFlat(b.value, brk, cont))
    case Loop(_, body, _, _, _, c, e) => LoopLabelledFlat(body, e, c)
    case Switch(c, body, dflt, e, cases) =>
      && LoopLabelledFlat(body, e, cont) && cases == CasesOfFlat(TypeOf(c), body)
      && dflt == (if DefaultsOfFlat(body) == [] then UNSET else DefaultsOfFlat(body)[0])
    case _ => true
  }

  predicate LoopLabelledFlat(f: Flat, brk: int, cont: int) {
    f.Cons? ==> LoopLabelled(f.car, brk, cont) && LoopLabelledFlat(f.cdr, brk, cont)
  }

  /** The numbers of s lie in lo..hi and are all different. */
  ghost predicate Numbered(s: Stmt, lo: int, hi: int) {
    match s
    case Block(f) => NumberedFlat(f, lo, hi)
    case IfElse(_, a, b) =>
      if b.None? then NumberedFlat(a, lo, hi) else exists m :: NumberedFlat(a, lo, m) && NumberedFlat(b.value, m, hi)
    case Loop(_, body, _, _, x, y, z) => x == lo && y == lo + 1 && z == lo + 2 && NumberedFlat(body, lo + 3, hi)
    case Switch(_, body, _, e, _) => e == lo && NumberedFlat(body, lo + 1, hi)
    case Case(_, l) => l == lo && hi == lo + 1
    case Default(l) => l == lo && hi == lo + 1
    case _ => lo == hi
  }

  ghost predicate NumberedFlat(f: Flat, lo: int, hi: int) {
    if f.Nil? then lo == hi else exists m :: Numbered(f.car, lo, m) && NumberedFlat(f.cdr, m, hi)
  }

  // --------------------------------------------------------------- containers

  datatype Container =
    | InLoop(cont: int, end: int)
    | InSwitch(ty: CType, end: int, dflt: int, cases: seq<CaseEntry>)

  /** The place of the innermost loop or switch, or -1. */
  function Innermost(c: seq<Container>, wantLoop: bool): (i: int)
    ensures -1 <= i < |c| && (i >= 0 ==> c[i].InLoop? == wantLoop)
    decreases |c|
  {
    if c == [] then -1 else if c[|c| - 1].InLoop? == wantLoop then |c| - 1 else Innermost(c[..|c| - 1], wantLoop)
  }

  lemma InnermostIs(c: seq<Container>, wantLoop: bool, i: int)
    requires -1 <= i < |c| && (i >= 0 ==> c[i].InLoop? == wantLoop)
    requires forall j :: i < j < |c| ==> c[j].InLoop? != wantLoop
    ensures Innermost(c, wantLoop) == i
    decreases |c|
  {
    if i < |c| - 1 {
      InnermostIs(c[..|c| - 1], wantLoop, i);
    }
  }

  /** Only the kinds of the containers decide which one is innermost. */
  lemma SameKinds(c: seq<Container>, d: seq<Container>, wantLoop: bool)
    requires |c| == |d| && forall j :: 0 <= j < |c| ==> c[j].InLoop? == d[j].InLoop?
    ensures Innermost(c, wantLoop) == Innermost(d, wantLoop)
    decreases |c|
  {
    if c != [] {
      SameKinds(c[..|c| - 1], d[..|d| - 1], wantLoop);
    }
  }

  function BreakOf(c: seq<Container>): int {
    if c == [] then -1 else c[|c| - 1].end
  }

  function ContinueOf(c: seq<Container>): int {
    var i := Innermost(c, true);
    if i < 0 then -1 else c[i].cont
  }

  /** The type of the controlling expression of the innermost switch. */
  function SwitchType(c: seq<Container>): CType {
    var i := Innermost(c, false);
    if i < 0 then Int else c[i].ty
  }

  /** Case and default labels are added to the innermost switch. */
  function Grow(c: seq<Container>, cases: seq<CaseEntry>, defaults: seq<int>): seq<Container> {
    var i := Innermost(c, false);
    if i < 0 then c
    else c[i := c[i].(cases := cases + c[i].cases, dflt := if defaults == [] then c[i].dflt else defaults[0])]
  }

  /** The labels to be added are new to the switch. */
  ghost predicate Admits(c: seq<Container>, nums: seq<int>, defaults: nat) {
    var i := Innermost(c, false);
    i >= 0 ==>
      && Distinct(nums) && (forall x :: x in nums ==> x !in Nums(c[i].cases))
      && defaults + (if c[i].dflt == UNSET then 0 else 1) <= 1
  }

  ghost predicate Acceptable(s: Stmt, c: seq<Container>) {
    && Placed(s, Innermost(c, true) >= 0, Innermost(c, false) >= 0)
    && Admits(c, Nums(CasesOf(SwitchType(c), s)), |DefaultsOf(s)|)
  }

  ghost predicate AcceptableFlat(f: Flat, c: seq<Container>) {
    && PlacedFlat(f, Innermost(c, true) >= 0, Innermost(c, false) >= 0)
    && Admits(c, Nums(CasesOfFlat(SwitchType(c), f)), |DefaultsOfFlat(f)|)
  }

  /** What labelling makes of a statement, the containers and the counter. */
  ghost predicate Labelled(s: Stmt, s': Stmt, c: seq<Container>, c': seq<Container>, g: int, g': int) {
    && Plain(s') == Plain(s) && Numbered(s', g, g') && g <= g' && LoopLabelled(s', BreakOf(c), ContinueOf(c))
    && c' == Grow(c, CasesOf(SwitchType(c), s'), DefaultsOf(s'))
  }

  ghost predicate LabelledFlat(f: Flat, f': Flat, c: seq<Container>, c': seq<Container>, g: int, g': int) {
    && PlainFlat(f') == PlainFlat(f) && NumberedFlat(f', g, g') && g <= g' && LoopLabelledFlat(f', BreakOf(c), ContinueOf(c))
    && c' == Grow(c, CasesOfFlat(SwitchType(c), f'), DefaultsOfFlat(f'))
  }

  // ------------------------------------------------------------------- lemmas

  lemma {:induction false} PlainCases(t: CType, s: Stmt)
    ensures Nums(CasesOf(t, s)) == Nums(CasesOf(t, Plain(s))) && |DefaultsOf(s)| == |DefaultsOf(Plain(s))|
    decreases s
  {
    match s
    case Block(f) => PlainCasesFlat(t, f);
    case IfElse(_, a, b) =>
      PlainCasesFlat(t, a);
      if b.Some? {
        PlainCasesFlat(t, b.value);
        NumsJoin(CasesOfFlat(t, b.value), CasesOfFlat(t, a));
        NumsJoin(CasesOfFlat(t, PlainFlat(b.value)), CasesOfFlat(t, PlainFlat(a)));
      }
    case Loop(_, body, _, _, _, _, _) => PlainCasesFlat(t, body);
    case _ =>
  }

  lemma {:induction false} PlainCasesFlat(t: CType, f: Flat)
    ensures Nums(CasesOfFlat(t, f)) == Nums(CasesOfFlat(t, PlainFlat(f)))
    ensures |DefaultsOfFlat(f)| == |DefaultsOfFlat(PlainFlat(f))|
    decreases f
  {
    if f.Cons? {
      PlainCases(t, f.car);
      PlainCasesFlat(t, f.cdr);
      NumsJoin(CasesOfFlat(t, f.cdr), CasesOf(t, f.car));
      NumsJoin(CasesOfFlat(t, PlainFlat(f.cdr)), CasesOf(t, Plain(f.car)));
    }
  }

  lemma NumsJoin(a: seq<CaseEntry>, b: seq<CaseEntry>)
    ensures Nums(a + b) == Nums(a) + Nums(b)
  {
  }

  /** Statements one after the other: the second one finds the containers as the
      first one left them. */
  lemma AdmitsBoth(c: seq<Container>, c1: seq<Container>, a: seq<CaseEntry>, b: seq<CaseEntry>, x: seq<int>, y: seq<int>)
    requires c1 == Grow(c, a, x)
    requires Admits(c, Nums(a), |x|) && (x != [] ==> x[0] != UNSET)
    ensures Innermost(c1, true) == Innermost(c, true) && Innermost(c1, false) == Innermost(c, false)
    ensures SwitchType(c1) == SwitchType(c) && BreakOf(c1) == BreakOf(c) && ContinueOf(c1) == ContinueOf(c)
    ensures Admits(c1, Nums(b), |y|) <==> Admits(c, Nums(b + a), |x + y|)
    ensures Admits(c1, Nums(b), |y|) ==> Grow(c1, b, y) == Grow(c, b + a, x + y)
  {
    SameKinds(c, c1, true);
    SameKinds(c, c1, false);
    var i := Innermost(c, false);
    NumsJoin(b, a);
    DistinctJoin(Nums(b), Nums(a));
    if i >= 0 {
      var k := c[i].cases;
      NumsJoin(a, k);
      assert b + (a + k) == b + a + k;
    }
  }

  lemma DistinctJoin(a: seq<int>, b: seq<int>)
    ensures Distinct(a + b) <==> Distinct(a) && Distinct(b) && (forall x :: x in a ==> x !in b)
  {
    var c := a + b;
    if Distinct(c) {
      forall i, j | 0 <= i < j < |a| ensures a[i] != a[j] {
        assert c[i] == a[i] && c[j] == a[j];
      }
      forall i, j | 0 <= i < j < |b| ensures b[i] != b[j] {
        assert c[|a| + i] == b[i] && c[|a| + j] == b[j];
      }
      forall i, j | 0 <= i < |a| && 0 <= j < |b| ensures a[i] != b[j] {
        assert c[i] == a[i] && c[|a| + j] == b[j];
      }
    }
    if Distinct(a) && Distinct(b) && (forall x :: x in a ==> x !in b) {
      forall i, j | 0 <= i < j < |c| ensures c[i] != c[j] {
        if i < |a| <= j {
          assert c[i] in a && c[j] in b;
        }
      }
    }
  }

  lemma AdmitsFewer(c: seq<Container>, a: seq<int>, b: seq<int>, x: nat, y: nat)
    requires Admits(c, b + a, x + y)
    ensures Admits(c, a, x)
  {
    DistinctJoin(b, a);
  }

  lemma InsideLoop(c: seq<Container>, l: Container)
    requires l.InLoop?
    ensures Innermost(c + [l], true) == |c| && Innermost(c + [l], false) == Innermost(c, false)
    ensures SwitchType(c + [l]) == SwitchType(c)
    ensures forall a, x :: Grow(c + [l], a, x) == Grow(c, a, x) + [l]
    ensures forall nums, n :: Admits(c + [l], nums, n) <==> Admits(c, nums, n)
  {
    assert (c + [l])[..|c|] == c;
    forall a, x ensures Grow(c + [l], a, x) == Grow(c, a, x) + [l] {
    }
  }

  lemma InsideSwitch(c: seq<Container>, t: CType, e: int)
    ensures var sw := InSwitch(t, e, UNSET, []);
            && Innermost(c + [sw], true) == Innermost(c, true) && Innermost(c + [sw], false) == |c|
            && SwitchType(c + [sw]) == t && ContinueOf(c + [sw]) == ContinueOf(c)
            && (forall a, x: seq<int> :: Grow(c + [sw], a, x) == c + [InSwitch(t, e, if x == [] then UNSET else x[0], a)])
            && (forall nums, n :: Admits(c + [sw], nums, n) <==> Distinct(nums) && n <= 1)
  {
    var sw := InSwitch(t, e, UNSET, []);
    assert (c + [sw])[..|c|] == c;
    assert forall a: seq<CaseEntry> :: a + [] == a;
  }

  /** The defaults of a numbered statement are counted numbers. */
  lemma {:induction false} DefaultsCounted(s: Stmt, lo: int, hi: int)
    requires Numbered(s, lo, hi) && lo >= 0
    ensures lo <= hi && forall x :: x in DefaultsOf(s) ==> lo <= x
    decreases s
  {
    match s
    case Block(f) => DefaultsCountedFlat(f, lo, hi);
    case IfElse(_, a, b) =>
      if b.None? {
        DefaultsCountedFlat(a, lo, hi);
      } else {
        var m :| NumberedFlat(a, lo, m) && NumberedFlat(b.value, m, hi);
        DefaultsCountedFlat(a, lo, m);
        DefaultsCountedFlat(b.value, m, hi);
      }
    case Loop(_, body, _, _, _, _, _) => DefaultsCountedFlat(body, lo + 3, hi);
    case Switch(_, body, _, _, _) => DefaultsCountedFlat(body, lo + 1, hi);
    case _ =>
  }

  lemma {:induction false} DefaultsCountedFlat(f: Flat, lo: int, hi: int)
    requires NumberedFlat(f, lo, hi) && lo >= 0
    ensures lo <= hi && forall x :: x in DefaultsOfFlat(f) ==> lo <= x
    decreases f
  {
    if f.Cons? {
      var m :| Numbered(f.car, lo, m) && NumberedFlat(f.cdr, m, hi);
      DefaultsCounted(f.car, lo, m);
      DefaultsCountedFlat(f.cdr, m, hi);
    }
  }

  // ------------------------------------------- composing the labelled pieces

  lemma FirstCounted(s: Stmt, lo: int, hi: int)
    requires Numbered(s, lo, hi) && lo >= 0
    ensures DefaultsOf(s) != [] ==> DefaultsOf(s)[0] != UNSET
  {
    hide Numbered;
    DefaultsCounted(s, lo, hi);
    assert DefaultsOf(s) != [] ==> DefaultsOf(s)[0] in DefaultsOf(s);
  }

  lemma FirstAcceptable(f: Flat, c: seq<Container>)
    requires f.Cons? && AcceptableFlat(f, c)
    ensures Acceptable(f.car, c)
  {
    var t := SwitchType(c);
    NumsJoin(CasesOfFlat(t, f.cdr), CasesOf(t, f.car));
    AdmitsFewer(c, Nums(CasesOf(t, f.car)), Nums(CasesOfFlat(t, f.cdr)), |DefaultsOf(f.car)|, |DefaultsOfFlat(f.cdr)|);
  }

  /** What a labelled piece with the cases a and the defaults x, equal in number
      to those of the source, leaves for the rest, with b and y. */
  lemma RestAdmitted(c: seq<Container>, c1: seq<Container>, a0: seq<CaseEntry>, a: seq<CaseEntry>, b: seq<CaseEntry>,
                     x0: seq<int>, x: seq<int>, y: seq<int>)
    requires c1 == Grow(c, a, x) && Nums(a) == Nums(a0) && |x| == |x0| && (x != [] ==> x[0] != UNSET)
    requires Admits(c, Nums(a0), |x0|)
    ensures Innermost(c1, true) == Innermost(c, true) && Innermost(c1, false) == Innermost(c, false)
    ensures SwitchType(c1) == SwitchType(c) && BreakOf(c1) == BreakOf(c) && ContinueOf(c1) == ContinueOf(c)
    ensures Admits(c1, Nums(b), |y|) <==> Admits(c, Nums(b + a0), |x0 + y|)
  {
    AdmitsBoth(c, c1, a, b, x, y);
    NumsJoin(b, a0);
    NumsJoin(b, a);
  }

  lemma RestAcceptable(f: Flat, a: Stmt, c: seq<Container>, c1: seq<Container>, g: int, g1: int)
    requires f.Cons? && g >= 0 && Acceptable(f.car, c) && Labelled(f.car, a, c, c1, g, g1)
    ensures AcceptableFlat(f, c) <==> AcceptableFlat(f.cdr, c1)
  {
    hide Grow, Numbered, LoopLabelled, Innermost, Nums, Admits, Distinct, BreakOf, ContinueOf, Plain;
    var t := SwitchType(c);
    PlainCases(t, f.car);
    PlainCases(t, a);
    FirstCounted(a, g, g1);
    RestAdmitted(c, c1, CasesOf(t, f.car), CasesOf(t, a), CasesOfFlat(t, f.cdr), DefaultsOf(f.car), DefaultsOf(a), DefaultsOfFlat(f.cdr));
  }

  lemma FlatLabelled(f: Flat, a: Stmt, b: Flat, c: seq<Container>, c1: seq<Container>, c2: seq<Container>, g: int, g1: int, g2: int)
    requires f.Cons? && g >= 0 && AcceptableFlat(f, c)
    requires Labelled(f.car, a, c, c1, g, g1) && LabelledFlat(f.cdr, b, c1, c2, g1, g2)
    ensures LabelledFlat(f, Cons(a, b), c, c2, g, g2)
  {
    hide Numbered, LoopLabelled, Innermost, Nums, Admits, Distinct, BreakOf, ContinueOf, Placed, PlacedFlat, Grow;
    FirstAcceptable(f, c);
    RestAcceptable(f, a, c, c1, g, g1);
    var t := SwitchType(c);
    PlainCases(t, f.car);
    PlainCases(t, a);
    PlainCasesFlat(t, f.cdr);
    PlainCasesFlat(t, b);
    FirstCounted(a, g, g1);
    AdmitsBoth(c, c1, CasesOf(t, a), CasesOfFlat(t, b), DefaultsOf(a), DefaultsOfFlat(b));
  }

  lemma GrowNothing(c: seq<Container>)
    ensures Grow(c, [], []) == c
  {
    assert forall k: seq<CaseEntry> :: [] + k == k;
  }

  /** The two arms of an if are taken as two statements in a row. */
  lemma ArmsInARow(s: Stmt, c: seq<Container>)
    requires s.IfElse? && s.elseClause.Some?
    ensures Acceptable(s, c) <==> AcceptableFlat(Cons(Block(s.thenClause), s.elseClause.value), c)
  {
    var inLoop, inSwitch := Innermost(c, true) >= 0, Innermost(c, false) >= 0;
    assert Placed(Block(s.thenClause), inLoop, inSwitch) == PlacedFlat(s.thenClause, inLoop, inSwitch);
    SameLabels(SwitchType(c), s.condition, s.thenClause, s.elseClause.value);
  }

  lemma SameLabels(t: CType, e: Expr, a: Flat, b: Flat)
    ensures CasesOf(t, IfElse(e, a, Some(b))) == CasesOfFlat(t, Cons(Block(a), b))
    ensures DefaultsOf(IfElse(e, a, Some(b))) == DefaultsOfFlat(Cons(Block(a), b))
  {
    assert CasesOf(t, Block(a)) == CasesOfFlat(t, a) && DefaultsOf(Block(a)) == DefaultsOfFlat(a);
  }

  lemma IfElseLabelled(s: Stmt, a: Flat, b: Flat, c: seq<Container>, c1: seq<Container>, c2: seq<Container>, g: int, g1: int, g2: int)
    requires s.IfElse? && s.elseClause.Some? && g >= 0 && Acceptable(s, c)
    requires LabelledFlat(s.thenClause, a, c, c1, g, g1) && LabelledFlat(s.elseClause.value, b, c1, c2, g1, g2)
    ensures Labelled(s, IfElse(s.condition, a, Some(b)), c, c2, g, g2)
  {
    ArmsInARow(s, c);
    BlockLabelled(s.thenClause, a, c, c1, g, g1);
    hide Labelled, LabelledFlat, Innermost, Admits, Distinct, Placed, PlacedFlat, Grow, SwitchType, BreakOf, ContinueOf, Acceptable,
      AcceptableFlat;
    var f := Cons(Block(s.thenClause), s.elseClause.value);
    FlatLabelled(f, Block(a), b, c, c1, c2, g, g1, g2);
    FromBothArms(s.condition, s.thenClause, s.elseClause.value, a, b, c, c2, g, g2);
  }

  lemma BlockLabelled(f: Flat, a: Flat, c: seq<Container>, c1: seq<Container>, g: int, g1: int)
    ensures Acceptable(Block(f), c) <==> AcceptableFlat(f, c)
    ensures Labelled(Block(f), Block(a), c, c1, g, g1) <==> LabelledFlat(f, a, c, c1, g, g1)
  {
  }

  lemma FromBothArms(e: Expr, a0: Flat, b0: Flat, a: Flat, b: Flat, c: seq<Container>, c2: seq<Container>, g: int, g': int)
    requires LabelledFlat(Cons(Block(a0), b0), Cons(Block(a), b), c, c2, g, g')
    ensures Labelled(IfElse(e, a0, Some(b0)), IfElse(e, a, Some(b)), c, c2, g, g')
  {
    hide SwitchType, BreakOf, ContinueOf, Grow;
    SameLabels(SwitchType(c), e, a, b);
    hide CasesOf, CasesOfFlat, DefaultsOf, DefaultsOfFlat;
    BothArms(e, a0, b0, a, b, BreakOf(c), ContinueOf(c), g, g');
  }

  lemma ArmAlone(s: Stmt, a: Flat, c: seq<Container>, c1: seq<Container>, g: int, g1: int)
    requires s.IfElse?
    ensures s.elseClause.None? ==> (Acceptable(s, c) <==> AcceptableFlat(s.thenClause, c))
    ensures s.elseClause.None? && LabelledFlat(s.thenClause, a, c, c1, g, g1) ==> Labelled(s, IfElse(s.condition, a, None), c, c1, g, g1)
  {
  }

  lemma BothArms(e: Expr, a0: Flat, b0: Flat, a: Flat, b: Flat, brk: int, cont: int, g: int, g': int)
    requires PlainFlat(Cons(Block(a), b)) == PlainFlat(Cons(Block(a0), b0))
    requires NumberedFlat(Cons(Block(a), b), g, g') && LoopLabelledFlat(Cons(Block(a), b), brk, cont)
    ensures Plain(IfElse(e, a, Some(b))) == Plain(IfElse(e, a0, Some(b0)))
    ensures Numbered(IfElse(e, a, Some(b)), g, g') && LoopLabelled(IfElse(e, a, Some(b)), brk, cont)
  {
    hide Plain, PlainFlat, Numbered, NumberedFlat, LoopLabelled, LoopLabelledFlat;
    ArmsPlain(e, a0, b0, a, b);
    ArmsNumbered(e, a, b, g, g');
    ArmsLabelled(e, a, b, brk, cont);
  }

  lemma ArmsPlain(e: Expr, a0: Flat, b0: Flat, a: Flat, b: Flat)
    requires PlainFlat(Cons(Block(a), b)) == PlainFlat(Cons(Block(a0), b0))
    ensures Plain(IfElse(e, a, Some(b))) == Plain(IfElse(e, a0, Some(b0)))
  {
    assert Plain(Block(a)) == Block(PlainFlat(a)) && Plain(Block(a0)) == Block(PlainFlat(a0));
  }

  lemma ArmsNumbered(e: Expr, a: Flat, b: Flat, g: int, g': int)
    requires NumberedFlat(Cons(Block(a), b), g, g')
    ensures Numbered(IfElse(e, a, Some(b)), g, g')
  {
    hide CasesOfFlat, DefaultsOfFlat;
    var m :| Numbered(Block(a), g, m) && NumberedFlat(b, m, g');
    assert NumberedFlat(a, g, m);
  }

  lemma ArmsLabelled(e: Expr, a: Flat, b: Flat, brk: int, cont: int)
    requires LoopLabelledFlat(Cons(Block(a), b), brk, cont)
    ensures LoopLabelled(IfElse(e, a, Some(b)), brk, cont)
  {
    hide CasesOfFlat, DefaultsOfFlat;
    assert LoopLabelled(Block(a), brk, cont);
  }

  // ----------------------------------------------------------------- the pass

  class LoopLabeller {
    var generator: int
    var container: seq<Container>

    constructor (start: int)
      ensures generator == start && container == []
    {
      generator, container := start, [];
    }

    method Fresh() returns (l: int)
      modifies this`generator
      ensures l == old(generator) && generator == l + 1
    {
      l := generator;
      generator := generator + 1;
    }

    /** The innermost container of the wanted kind, searched from the inside. */
    method HasContainer(wantLoop: bool) returns (i: int)
      ensures i == Innermost(container, wantLoop)
    {
      i := |container| - 1;
      while i >= 0 && container[i].InLoop? != wantLoop
        invariant -1 <= i < |container|
        invariant forall j :: i < j < |container| ==> container[j].InLoop? != wantLoop
      {
        i := i - 1;
      }
      InnermostIs(container, wantLoop, i);
    }

    /** Adds a case to a switch unless its value is there already; stops at the
        assertion when the value is negative. */
    method CasePrepend(at: nat, v: Literal, unique: int) returns (status: Status, ok: bool)
      requires at < |container| && container[at].InSwitch?
      modifies this`container
      ensures status.Stopped? <==> v < 0
      ensures var sw, num := old(container)[at], CaseValue(old(container)[at].ty, v);
              && (status.Success? ==> (ok <==> num !in Nums(sw.cases)))
              && container == if status.Success? && ok then old(container)[at := sw.(cases := [CaseEntry(num, unique)] + sw.cases)]
                              else old(container)
    {
      var sw := container[at];
      var num := CaseValue(sw.ty, v);
      CaseStopsExactly(sw.ty, v);
      if num < 0 {
        return Stopped, false;
      }
      var i := 0;
      while i < |sw.cases|
        invariant 0 <= i <= |sw.cases|
        invariant num !in Nums(sw.cases)[..i]
      {
        if sw.cases[i].num == num {
          assert Nums(sw.cases)[i] == num;
          return Success, false;
        }
        i := i + 1;
      }
      container := container[at := sw.(cases := [CaseEntry(num, unique)] + sw.cases)];
      return Success, true;
    }

    method LabelStmt(s: Stmt) returns (r: Option<Stmt>)
      requires generator >= 0
      modifies this
      ensures r.Some? <==> Acceptable(s, old(container))
      ensures r.Some? ==> Labelled(s, r.value, old(container), container, old(generator), generator)
      decreases s, 1
    {
      r := None;
      GrowNothing(container);
      match s
      case Block(f) =>
        var b := LabelFlat(f);
        if b.Some? {
          r := Some(Block(b.value));
        }
      case IfElse(_, _, _) => r := LabelIfElse(s);
      case Loop(_, _, _, _, _, _, _) => r := LabelLoop(s);
      case Switch(_, _, _, _, _) => r := LabelSwitch(s);
      case Break(_) =>
        if container != [] {
          r := Some(Break(container[|container| - 1].end));
        }
      case Continue(_) =>
        var i := HasContainer(true);
        if i >= 0 {
          r := Some(Continue(container[i].cont));
        }
      case Case(v, _) => r := LabelCase(s);
      case Default(_) => r := LabelDefault(s);
      case _ => r := Some(s);
    }

    method LabelFlat(f: Flat) returns (r: Option<Flat>)
      requires generator >= 0
      modifies this
      ensures r.Some? <==> AcceptableFlat(f, old(container))
      ensures r.Some? ==> LabelledFlat(f, r.value, old(container), container, old(generator), generator)
      decreases f
    {
      if f.Nil? {
        GrowNothing(container);
        return Some(Nil);
      }
      ghost var c, g := container, generator;
      var a := LabelStmt(f.car);
      if a.None? {
        if AcceptableFlat(f, c) {
          FirstAcceptable(f, c);
        }
        return None;
      }
      ghost var c1, g1 := container, generator;
      RestAcceptable(f, a.value, c, c1, g, g1);
      var b := LabelFlat(f.cdr);
      if b.None? {
        return None;
      }
      FlatLabelled(f, a.value, b.value, c, c1, container, g, g1, generator);
      return Some(Cons(a.value, b.value));
    }

    method LabelIfElse(s: Stmt) returns (r: Option<Stmt>)
      requires generator >= 0 && s.IfElse?
      modifies this
      ensures r.Some? <==> Acceptable(s, old(container))
      ensures r.Some? ==> Labelled(s, r.value, old(container), container, old(generator), generator)
      decreases s, 0
    {
      hide Labelled, LabelledFlat, AcceptableFlat, Innermost, Admits, Placed, PlacedFlat, Grow, SwitchType, BreakOf, ContinueOf;
      ghost var c, g := container, generator;
      BlockLabelled(s.thenClause, Nil, c, c, g, g);
      var a := LabelFlat(s.thenClause);
      if a.None? {
        ArmAlone(s, Nil, c, c, g, g);
        if s.elseClause.Some? && Acceptable(s, c) {
          ArmsInARow(s, c);
          FirstAcceptable(Cons(Block(s.thenClause), s.elseClause.value), c);
        }
        return None;
      }
      if s.elseClause.None? {
        ArmAlone(s, a.value, c, container, g, generator);
        return Some(IfElse(s.condition, a.value, None));
      }
      ghost var c1, g1 := container, generator;
      ArmsInARow(s, c);
      BlockLabelled(s.thenClause, a.value, c, c1, g, g1);
      RestAcceptable(Cons(Block(s.thenClause), s.elseClause.value), Block(a.value), c, c1, g, g1);
      var b := LabelFlat(s.elseClause.value);
      if b.None? {
        return None;
      }
      IfElseLabelled(s, a.value, b.value, c, c1, container, g, g1, generator);
      return Some(IfElse(s.condition, a.value, Some(b.value)));
    }

    method LabelLoop(s: Stmt) returns (r: Option<Stmt>)
      requires generator >= 0 && s.Loop?
      modifies this
      ensures r.Some? <==> Acceptable(s, old(container))
      ensures r.Some? ==> Labelled(s, r.value, old(container), container, old(generator), generator)
      decreases s, 0
    {
      ghost var c := container;
      var start := Fresh();
      var cont := Fresh();
      var end := Fresh();
      InsideLoop(container, InLoop(cont, end));
      container := container + [InLoop(cont, end)];
      var b := LabelFlat(s.body);
      if b.None? {
        return None;
      }
      assert container[..|container| - 1] == Grow(c, CasesOfFlat(SwitchType(c), b.value), DefaultsOfFlat(b.value));
      container := container[..|container| - 1];
      return Some(Loop(s.precond, b.value, s.incr, s.postcond, start, cont, end));
    }

    method LabelSwitch(s: Stmt) returns (r: Option<Stmt>)
      requires generator >= 0 && s.Switch?
      modifies this
      ensures r.Some? <==> Acceptable(s, old(container))
      ensures r.Some? ==> Labelled(s, r.value, old(container), container, old(generator), generator)
      decreases s, 0
    {
      hide Innermost, Grow;
      ghost var c := container;
      var end := Fresh();
      InsideSwitch(container, TypeOf(s.control), end);
      container := container + [InSwitch(TypeOf(s.control), end, UNSET, [])];
      var b := LabelFlat(s.switchBody);
      if b.None? {
        return None;
      }
      GrowNothing(c);
      var sw := container[|container| - 1];
      container := container[..|container| - 1];
      return Some(Switch(s.control, b.value, sw.dflt, end, sw.cases));
    }

    method LabelCase(s: Stmt) returns (r: Option<Stmt>)
      requires generator >= 0 && s.Case?
      modifies this
      ensures r.Some? <==> Acceptable(s, old(container))
      ensures r.Some? ==> Labelled(s, r.value, old(container), container, old(generator), generator)
    {
      var i := HasContainer(false);
      if i < 0 {
        return None;
      }
      var unique := Fresh();
      ghost var num := CaseValue(container[i].ty, s.caseNum);
      assert Nums([CaseEntry(num, s.caseUnique)]) == [num];
      var status, ok := CasePrepend(i, s.caseNum, unique);
      return if status.Success? && ok then Some(Case(s.caseNum, unique)) else None;
    }

    method LabelDefault(s: Stmt) returns (r: Option<Stmt>)
      requires generator >= 0 && s.Default?
      modifies this
      ensures r.Some? <==> Acceptable(s, old(container))
      ensures r.Some? ==> Labelled(s, r.value, old(container), container, old(generator), generator)
    {
      var i := HasContainer(false);
      if i < 0 {
        return None;
      }
      var unique := Fresh();
      if container[i].dflt != UNSET {
        return None;
      }
      assert [] + container[i].cases == container[i].cases;
      container := container[i := container[i].(dflt := unique)];
      return Some(Default(unique));
    }
  }
}
