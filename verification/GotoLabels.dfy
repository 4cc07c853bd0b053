/** The second label pass: it numbers the named labels of each function and
    resolves every goto against a list of the names met so far. */
module GotoLabels {
  import opened Wrappers
  import opened CAst

  /** The labels of a statement, in the order of the text. */
  function LabelNames(s: Stmt): seq<string> {
    match s
    case Block(f) => LabelNamesFlat(f)
    case IfElse(_, a, b) => if b.Some? then LabelNamesFlat(a) + LabelNamesFlat(b.value) else LabelNamesFlat(a)
    case Loop(_, body, _, _, _, _, _) => LabelNamesFlat(body)
    case Switch(_, body, _, _, _) => LabelNamesFlat(body)
    case Label(n, _) => [n]
    case _ => []
  }

  function LabelNamesFlat(f: Flat): seq<string> {
    if f.Nil? then [] else LabelNames(f.car) + LabelNamesFlat(f.cdr)
  }

  /** The targets of its goto statements. */
  function GotoNames(s: Stmt): set<string> {
    match s
    case Block(f) => GotoNamesFlat(f)
    case IfElse(_, a, b) => if b.Some? then GotoNamesFlat(a) + GotoNamesFlat(b.value) else GotoNamesFlat(a)
    case Loop(_, body, _, _, _, _, _) => GotoNamesFlat(body)
    case Switch(_, body, _, _, _) => GotoNamesFlat(body)
    case Goto(n, _) => {n}
    case _ => {}
  }

  function GotoNamesFlat(f: Flat): set<string> {
    if f.Nil? then {} else GotoNames(f.car) + GotoNamesFlat(f.cdr)
  }

  ghost predicate NoRepeats(names: seq<string>) {
    forall i, j :: 0 <= i < j < |names| ==> names[i] != names[j]
  }

  function NumberOf(n: string, names: map<string, int>): int {
    if n in names then names[n] else 0
  }

  /** The statement with the numbers of its named labels and gotos filled in. */
  function Renamed(s: Stmt, names: map<string, int>): Stmt {
    match s
    case Block(f) => Block(RenamedFlat(f, names))
    case IfElse(c, a, b) =>
      IfElse(c, RenamedFlat(a, names), if b.Some? then Some(RenamedFlat(b.value, names)) else None)
    case Loop(pre, body, incr, post, x, y, z) => Loop(pre, RenamedFlat(body, names), incr, post, x, y, z)
    case Switch(c, body, d, e, cases) => Switch(c, RenamedFlat(body, names), d, e, cases)
    case Goto(n, _) => Goto(n, NumberOf(n, names))
    case Label(n, _) => Label(n, NumberOf(n, names))
    case _ => s
  }

  function RenamedFlat(f: Flat, names: map<string, int>): Flat {
    if f.Nil? then Nil else Cons(Renamed(f.car, names), RenamedFlat(f.cdr, names))
  }

  // ------------------------------------------------------------ the list of names

  datatype NamedLabel = NamedLabel(name: string, id: int, isLabel: bool, isTarget: bool)

  /** Newest first, with ids that count up from base + 1, and no name twice. */
  ghost predicate Listed(labels: seq<NamedLabel>, base: int) {
    && (forall i :: 0 <= i < |labels| ==> labels[i].id == base + |labels| - i)
    && (forall i, j :: 0 <= i < j < |labels| ==> labels[i].name != labels[j].name)
  }

  /** A name that is not there yet, in front. */
  lemma ListedMore(labels: seq<NamedLabel>, base: int, name: string)
    requires Listed(labels, base) && forall j :: 0 <= j < |labels| ==> labels[j].name != name
    ensures Listed([NamedLabel(name, base + |labels| + 1, false, false)] + labels, base)
  {
    var more := [NamedLabel(name, base + |labels| + 1, false, false)] + labels;
    assert forall j :: 0 < j < |more| ==> more[j] == labels[j - 1];
  }

  function NamesOf(labels: seq<NamedLabel>): map<string, int> {
    if labels == [] then map[] else NamesOf(labels[1..])[labels[0].name := labels[0].id]
  }

  function Labelling(labels: seq<NamedLabel>): set<string> {
    set i | 0 <= i < |labels| && labels[i].isLabel :: labels[i].name
  }

  function Targeted(labels: seq<NamedLabel>): set<string> {
    set i | 0 <= i < |labels| && labels[i].isTarget :: labels[i].name
  }

  lemma {:induction false} NamesOfAt(labels: seq<NamedLabel>, base: int)
    requires Listed(labels, base)
    ensures forall i :: 0 <= i < |labels| ==> labels[i].name in NamesOf(labels) && NamesOf(labels)[labels[i].name] == labels[i].id
    ensures forall n :: n in NamesOf(labels) ==> exists i :: 0 <= i < |labels| && labels[i].name == n
    decreases |labels|
  {
    if labels != [] {
      var rest := labels[1..];
      assert forall i :: 0 < i < |labels| ==> labels[i] == rest[i - 1];
      NamesOfAt(rest, base);
    }
  }

  lemma {:induction false} NamesIgnoreFlags(a: seq<NamedLabel>, b: seq<NamedLabel>)
    requires |a| == |b| && forall i :: 0 <= i < |a| ==> a[i].name == b[i].name && a[i].id == b[i].id
    ensures NamesOf(a) == NamesOf(b)
    decreases |a|
  {
    if a != [] {
      NamesIgnoreFlags(a[1..], b[1..]);
    }
  }

  // ------------------------------------------------------------------- growth

  /** More names do not change what has been numbered. */
  ghost predicate Extends(small: map<string, int>, large: map<string, int>) {
    forall n :: n in small ==> n in large && large[n] == small[n]
  }

  ghost predicate Known(s: Stmt, names: map<string, int>) {
    (forall n :: n in LabelNames(s) ==> n in names) && GotoNames(s) <= names.Keys
  }

  ghost predicate KnownFlat(f: Flat, names: map<string, int>) {
    (forall n :: n in LabelNamesFlat(f) ==> n in names) && GotoNamesFlat(f) <= names.Keys
  }

  lemma {:induction false} RenamedMore(s: Stmt, small: map<string, int>, large: map<string, int>)
    requires Known(s, small) && Extends(small, large)
    ensures Renamed(s, small) == Renamed(s, large) && Known(s, large)
    decreases s
  {
    match s
    case Block(f) => RenamedMoreFlat(f, small, large);
    case IfElse(_, a, b) =>
      RenamedMoreFlat(a, small, large);
      if b.Some? {
        RenamedMoreFlat(b.value, small, large);
      }
    case Loop(_, body, _, _, _, _, _) => RenamedMoreFlat(body, small, large);
    case Switch(_, body, _, _, _) => RenamedMoreFlat(body, small, large);
    case Goto(n, _) =>
      assert n in GotoNames(s);
    case _ =>
  }

  lemma {:induction false} RenamedMoreFlat(f: Flat, small: map<string, int>, large: map<string, int>)
    requires KnownFlat(f, small) && Extends(small, large)
    ensures RenamedFlat(f, small) == RenamedFlat(f, large) && KnownFlat(f, large)
    decreases f
  {
    if f.Cons? {
      RenamedMore(f.car, small, large);
      RenamedMoreFlat(f.cdr, small, large);
    }
  }

  /** What the pass has done to the list, given the labels and gotos it has met. */
  ghost predicate Grown(before: seq<NamedLabel>, now: seq<NamedLabel>, base: int, met: seq<string>, gotos: set<string>) {
    && Listed(now, base) && |before| <= |now| && Extends(NamesOf(before), NamesOf(now))
    && Labelling(now) == Labelling(before) + (set n | n in met) && Targeted(now) == Targeted(before) + gotos
  }

  /** The label names are all different, and none is a label already. */
  ghost predicate AllNew(met: seq<string>, taken: set<string>) {
    NoRepeats(met) && forall n :: n in met ==> n !in taken
  }

  lemma NewJoin(a: seq<string>, b: seq<string>, taken: set<string>)
    ensures AllNew(a + b, taken) <==> AllNew(a, taken) && AllNew(b, taken + set n | n in a)
  {
    var c := a + b;
    if AllNew(c, taken) {
      forall i, j | 0 <= i < j < |a| ensures a[i] != a[j] {
        assert c[i] == a[i] && c[j] == a[j];
      }
      forall i, j | 0 <= i < j < |b| ensures b[i] != b[j] {
        assert c[|a| + i] == b[i] && c[|a| + j] == b[j];
      }
      forall i, j | 0 <= i < |a| && 0 <= j < |b| ensures a[i] != b[j] {
        assert c[i] == a[i] && c[|a| + j] == b[j];
      }
    }
    if AllNew(a, taken) && AllNew(b, taken + set n | n in a) {
      forall i, j | 0 <= i < j < |c| ensures c[i] != c[j] {
        if i < |a| <= j {
          assert c[i] in a && c[j] in b;
        }
      }
    }
  }

  lemma GrownBoth(x: seq<NamedLabel>, y: seq<NamedLabel>, z: seq<NamedLabel>, base: int, a: seq<string>, b: seq<string>,
                  s: set<string>, t: set<string>)
    requires Grown(x, y, base, a, s) && Grown(y, z, base, b, t)
    ensures Grown(x, z, base, a + b, s + t)
  {
    hide Listed, NamesOf;
  }

  class GotoLabeller {
    var generator: int
    var labels: seq<NamedLabel>

    ghost predicate Valid(base: int)
      reads this
    {
      Listed(labels, base) && generator == base + |labels|
    }

    constructor (start: int)
      ensures generator == start && labels == []
    {
      generator, labels := start, [];
    }

    /** The entry of a name, at the head of the list when it is new. */
    method LabelsPrepend(name: string, ghost base: int) returns (i: nat)
      requires Valid(base)
      modifies this
      ensures Valid(base) && i < |labels| && labels[i].name == name
      ensures labels == old(labels) || labels == [NamedLabel(name, generator, false, false)] + old(labels)
    {
      hide Listed;
      i := 0;
      while i < |labels|
        invariant 0 <= i <= |labels|
        invariant forall j :: 0 <= j < i ==> labels[j].name != name
      {
        if labels[i].name == name {
          return;
        }
        i := i + 1;
      }
      ListedMore(labels, base, name);
      generator := generator + 1;
      labels := [NamedLabel(name, generator, false, false)] + labels;
      return 0;
    }

    method Mark(i: nat, asLabel: bool)
      requires i < |labels|
      modifies this`labels
      ensures labels == var l := old(labels)[i];
                        old(labels)[i := if asLabel then l.(isLabel := true) else l.(isTarget := true)]
    {
      labels := labels[i := if asLabel then labels[i].(isLabel := true) else labels[i].(isTarget := true)];
    }

    method RenameGoto(n: string, ghost base: int) returns (l: int)
      requires Valid(base)
      modifies this
      ensures Valid(base) && Grown(old(labels), labels, base, [], {n})
      ensures n in NamesOf(labels) && l == NamesOf(labels)[n]
    {
      var i := LabelsPrepend(n, base);
      ghost var met := labels;
      Mark(i, false);
      Marked(old(labels), met, labels, base, n, i, false);
      l := labels[i].id;
    }

    method RenameLabel(n: string, ghost base: int) returns (l: Option<int>)
      requires Valid(base)
      modifies this
      ensures Valid(base) && (l.Some? <==> n !in Labelling(old(labels)))
      ensures l.Some? ==> Grown(old(labels), labels, base, [n], {}) && n in NamesOf(labels) && l.value == NamesOf(labels)[n]
    {
      var i := LabelsPrepend(n, base);
      ghost var met := labels;
      Looked(old(labels), met, base, n);
      if labels[i].isLabel {
        assert n in Labelling(met);
        return None;
      }
      NotYetLabel(met, base, n, i);
      Mark(i, true);
      Marked(old(labels), met, labels, base, n, i, true);
      return Some(labels[i].id);
    }

    method RenameStmt(s: Stmt, ghost base: int) returns (r: Option<Stmt>)
      requires Valid(base)
      modifies this
      ensures Valid(base)
      ensures r.Some? <==> AllNew(LabelNames(s), Labelling(old(labels)))
      ensures r.Some? ==> && Grown(old(labels), labels, base, LabelNames(s), GotoNames(s))
                          && Known(s, NamesOf(labels)) && r.value == Renamed(s, NamesOf(labels))
      decreases s, 1
    {
      match s
      case Block(f) =>
        var b := RenameFlat(f, base);
        r := if b.Some? then Some(Block(b.value)) else None;
      case IfElse(_, _, _) => r := RenameIfElse(s, base);
      case Loop(pre, body, incr, post, x, y, z) =>
        var b := RenameFlat(body, base);
        r := if b.Some? then Some(Loop(pre, b.value, incr, post, x, y, z)) else None;
      case Switch(c, body, d, e, cases) =>
        var b := RenameFlat(body, base);
        r := if b.Some? then Some(Switch(c, b.value, d, e, cases)) else None;
      case Goto(n, _) =>
        var l := RenameGoto(n, base);
        r := Some(Goto(n, l));
      case Label(n, _) =>
        var l := RenameLabel(n, base);
        assert LabelNames(s)[0] == n;
        r := if l.Some? then Some(Label(n, l.value)) else None;
      case _ => r := Some(s);
    }

    method RenameFlat(f: Flat, ghost base: int) returns (r: Option<Flat>)
      requires Valid(base)
      modifies this
      ensures Valid(base)
      ensures r.Some? <==> AllNew(LabelNamesFlat(f), Labelling(old(labels)))
      ensures r.Some? ==> && Grown(old(labels), labels, base, LabelNamesFlat(f), GotoNamesFlat(f))
                          && KnownFlat(f, NamesOf(labels)) && r.value == RenamedFlat(f, NamesOf(labels))
      decreases f, 0
    {
      if f.Nil? {
        return Some(Nil);
      }
      hide Listed, NamesOf, Labelling, Targeted, AllNew;
      NewJoin(LabelNames(f.car), LabelNamesFlat(f.cdr), Labelling(labels));
      var a := RenameStmt(f.car, base);
      if a.None? {
        return None;
      }
      ghost var met := labels;
      var b := RenameFlat(f.cdr, base);
      if b.None? {
        return None;
      }
      GrownBoth(old(labels), met, labels, base, LabelNames(f.car), LabelNamesFlat(f.cdr), GotoNames(f.car), GotoNamesFlat(f.cdr));
      RenamedMore(f.car, NamesOf(met), NamesOf(labels));
      return Some(Cons(a.value, b.value));
    }

    method RenameIfElse(s: Stmt, ghost base: int) returns (r: Option<Stmt>)
      requires Valid(base) && s.IfElse?
      modifies this
      ensures Valid(base)
      ensures r.Some? <==> AllNew(LabelNames(s), Labelling(old(labels)))
      ensures r.Some? ==> && Grown(old(labels), labels, base, LabelNames(s), GotoNames(s))
                          && Known(s, NamesOf(labels)) && r.value == Renamed(s, NamesOf(labels))
      decreases s, 0
    {
      hide Listed, NamesOf, Labelling, Targeted, AllNew;
      var a := RenameFlat(s.thenClause, base);
      if s.elseClause.None? {
        return if a.Some? then Some(IfElse(s.condition, a.value, None)) else None;
      }
      var els := s.elseClause.value;
      NewJoin(LabelNamesFlat(s.thenClause), LabelNamesFlat(els), Labelling(old(labels)));
      if a.None? {
        return None;
      }
      ghost var met := labels;
      var b := RenameFlat(els, base);
      if b.None? {
        return None;
      }
      GrownBoth(old(labels), met, labels, base, LabelNamesFlat(s.thenClause), LabelNamesFlat(els),
                GotoNamesFlat(s.thenClause), GotoNamesFlat(els));
      RenamedMoreFlat(s.thenClause, NamesOf(met), NamesOf(labels));
      return Some(IfElse(s.condition, a.value, Some(b.value)));
    }

    /** One function: every goto must have met a label in the end. */
    method RenameFunction(body: Flat) returns (r: Option<Flat>, ghost names: map<string, int>)
      modifies this
      ensures r.Some? <==> AllNew(LabelNamesFlat(body), {}) && GotoNamesFlat(body) <= (set n | n in LabelNamesFlat(body))
      ensures r.Some? ==> r.value == RenamedFlat(body, names) && KnownFlat(body, names) && old(generator) <= generator
      ensures r.Some? ==> forall n :: n in names ==> old(generator) < names[n] <= generator
      ensures r.Some? ==> forall m, n :: m in names && n in names && m != n ==> names[m] != names[n]
    {
      hide RenamedFlat, KnownFlat, LabelNamesFlat, GotoNamesFlat, NamesOf, AllNew;
      labels := [];
      ghost var base := generator;
      assert Labelling(labels) == {} && Targeted(labels) == {};
      r := RenameFlat(body, base);
      names := NamesOf(labels);
      if r.Some? {
        NamesOfAt(labels, base);
        var i := 0;
        while i < |labels|
          invariant 0 <= i <= |labels|
          invariant forall j :: 0 <= j < i && labels[j].isTarget ==> labels[j].isLabel
        {
          if labels[i].isTarget && !labels[i].isLabel {
            assert labels[i].name in Targeted(labels);
            LoneName(labels, base, i);
            return None, names;
          }
          i := i + 1;
        }
        assert Targeted(labels) <= Labelling(labels);
      }
      labels := [];
    }
  }

  /** A name that is not flagged where it stands is not flagged at all. */
  lemma NotYetLabel(labels: seq<NamedLabel>, base: int, n: string, i: nat)
    requires Listed(labels, base) && i < |labels| && labels[i].name == n && !labels[i].isLabel
    ensures n !in Labelling(labels)
  {
  }

  lemma LoneName(labels: seq<NamedLabel>, base: int, i: nat)
    requires Listed(labels, base) && i < |labels| && !labels[i].isLabel
    ensures labels[i].name !in Labelling(labels)
  {
    NotYetLabel(labels, base, labels[i].name, i);
  }

  /** Looking a name up changes neither the numbers nor the flags of the others. */
  lemma Looked(before: seq<NamedLabel>, met: seq<NamedLabel>, base: int, n: string)
    requires Listed(before, base) && Listed(met, base)
    requires met == before || (met != [] && met == [NamedLabel(n, base + |met|, false, false)] + before)
    ensures |before| <= |met| && Extends(NamesOf(before), NamesOf(met))
    ensures Labelling(met) == Labelling(before) && Targeted(met) == Targeted(before)
  {
    if met != before {
      assert met[1..] == before;
      assert forall j :: 0 <= j < |before| ==> met[j + 1] == before[j];
      assert !met[0].isLabel && !met[0].isTarget;
      assert met[0].name !in NamesOf(before) by {
        NamesOfAt(before, base);
      }
      Shifted(before, met);
    }
  }

  lemma Shifted(before: seq<NamedLabel>, met: seq<NamedLabel>)
    requires met != [] && met[1..] == before && !met[0].isLabel && !met[0].isTarget
    ensures Labelling(met) == Labelling(before) && Targeted(met) == Targeted(before)
  {
    assert forall j :: 0 <= j < |before| ==> before[j] == met[j + 1];
    assert forall j :: 0 < j < |met| ==> met[j] == before[j - 1];
  }

  lemma Marked(before: seq<NamedLabel>, met: seq<NamedLabel>, now: seq<NamedLabel>, base: int, n: string, i: nat, asLabel: bool)
    requires Listed(before, base) && Listed(met, base) && i < |met| && met[i].name == n
    requires met == before || (met != [] && met == [NamedLabel(n, base + |met|, false, false)] + before)
    requires now == met[i := if asLabel then met[i].(isLabel := true) else met[i].(isTarget := true)]
    ensures Grown(before, now, base, if asLabel then [n] else [], if asLabel then {} else {n})
    ensures n in NamesOf(now) && NamesOf(now)[n] == now[i].id
  {
    hide NamesOf, Labelling, Targeted;
    Looked(before, met, base, n);
    NamesIgnoreFlags(met, now);
    NamesOfAt(now, base);
    Flagged(met, now, i, asLabel);
  }

  lemma Flagged(met: seq<NamedLabel>, now: seq<NamedLabel>, i: nat, asLabel: bool)
    requires i < |met| && now == met[i := if asLabel then met[i].(isLabel := true) else met[i].(isTarget := true)]
    ensures Labelling(now) == Labelling(met) + if asLabel then {met[i].name} else {}
    ensures Targeted(now) == Targeted(met) + if asLabel then {} else {met[i].name}
  {
    assert forall j :: 0 <= j < |met| ==> now[j].name == met[j].name;
    assert forall j :: 0 <= j < |met| && j != i ==> now[j] == met[j];
    assert if asLabel then now[i].isLabel else now[i].isTarget;
    assert forall j :: 0 <= j < |met| && met[j].isLabel ==> now[j].isLabel;
    assert forall j :: 0 <= j < |met| && met[j].isTarget ==> now[j].isTarget;
  }
}
