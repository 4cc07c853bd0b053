/** Name resolution over a stack of scopes: the reference that the linked symbol
    list refines, and what holds of the identifiers it hands out. */
module Scopes {
  import opened Wrappers

  datatype Linkage = NoLinkage | Internal | External
  {
    function Rank(): nat {
      match this case NoLinkage => 0 case Internal => 1000 case External => 2000
    }
  }

  function MaxLinkage(a: Linkage, b: Linkage): Linkage {
    if a.Rank() > b.Rank() then a else b
  }

  /** An identifier in an expression. */
  datatype Usage = Usage(name: string, isCall: bool)

  /** The parts of a syntax tree that resolution visits; the identifiers of an
      expression are listed in the order of the visit. */
  datatype Item =
    | Expression(uses: seq<Usage>)
    | Declaration(name: string, isExtern: bool, init: seq<Usage>)
    | Block(body: Items)
    | IfElse(condition: seq<Usage>, thenPart: Items, elsePart: Items)
    | Loop(precond: seq<Usage>, postcond: seq<Usage>, incr: seq<Usage>, body: Items)
    | Switch(control: seq<Usage>, body: Items)
    | Function(name: string, params: seq<string>, isDefinition: bool, body: Items)

  datatype Items = NoItems | MoreItems(item: Item, rest: Items)

  datatype ResolveError = VariableUndeclared(name: string) | FunctionUndeclared(name: string) | Duplicate(name: string)

  datatype Result<+T> = Ok(value: T) | Err(error: ResolveError)

  datatype Entry = Entry(unique: int, linkage: Linkage)

  type Scope = map<string, Entry>

  /** The innermost scope first, and the next identifier. */
  datatype Table = Table(scopes: seq<Scope>, next: int)

  /** How an identifier in the tree came by its number. */
  datatype Origin = Fresh | Again | Use

  /** What is written into the tree at an identifier. */
  datatype Bound = Bound(name: string, entry: Entry, origin: Origin)

  datatype Resolved = Resolved(bound: seq<Bound>, table: Table)

  function Visible(scopes: seq<Scope>, name: string): Option<Entry> {
    if scopes == [] then None
    else if name in scopes[0] then Some(scopes[0][name])
    else Visible(scopes[1..], name)
  }

  function ResolveUses(uses: seq<Usage>, t: Table): Result<seq<Bound>> {
    if uses == [] then Ok([]) else
    var first := ResolveUses(uses[..|uses| - 1], t);
    if first.Err? then first else
    var u := uses[|uses| - 1];
    match Visible(t.scopes, u.name)
    case None => Err(if u.isCall then FunctionUndeclared(u.name) else VariableUndeclared(u.name))
    case Some(e) => Ok(first.value + [Bound(u.name, e, Use)])
  }

  /** A new entry in the innermost scope. */
  function Enter(t: Table, name: string, e: Entry): Table
    requires t.scopes != []
  {
    Table([t.scopes[0][name := e]] + t.scopes[1..], t.next + 1)
  }

  /** Whether an extern declaration takes over the object of a visible one. */
  predicate TakesOver(t: Table, name: string, linkage: Linkage) {
    linkage.External? && Visible(t.scopes, name).Some? && !Visible(t.scopes, name).value.linkage.NoLinkage?
  }

  function Declare(t: Table, name: string, linkage: Linkage): Result<Resolved>
    requires t.scopes != []
  {
    if name in t.scopes[0] then
      var e := t.scopes[0][name];
      if e.linkage.External? && linkage.External? then Ok(Resolved([Bound(name, e, Again)], t)) else Err(Duplicate(name))
    else if TakesOver(t, name, linkage) then
      var e := Visible(t.scopes, name).value;
      Ok(Resolved([Bound(name, e, Again)], Enter(t, name, e)))
    else
      var e := Entry(t.next, linkage);
      Ok(Resolved([Bound(name, e, Fresh)], Enter(t, name, e)))
  }

  function DeclareNew(t: Table, name: string): Resolved
    requires t.scopes != []
  {
    var e := Entry(t.next, NoLinkage);
    Resolved([Bound(name, e, Fresh)], Enter(t, name, e))
  }

  function DeclareParams(t: Table, params: seq<string>): (r: Resolved)
    requires t.scopes != []
    ensures r.table.scopes != [] && r.table.scopes[1..] == t.scopes[1..]
  {
    if params == [] then Resolved([], t) else
    var first := DeclareParams(t, params[..|params| - 1]);
    var last := DeclareNew(first.table, params[|params| - 1]);
    Resolved(first.bound + last.bound, last.table)
  }

  function Push(t: Table): Table {
    Table([map[]] + t.scopes, t.next)
  }

  /** What comes after, with what was bound before put in front. */
  function Then(before: seq<Bound>, r: Result<Resolved>): Result<Resolved> {
    if r.Err? then r else Ok(Resolved(before + r.value.bound, r.value.table))
  }

  function AfterUses(uses: seq<Usage>, t: Table): Result<Resolved> {
    var r := ResolveUses(uses, t);
    if r.Err? then Err(r.error) else Ok(Resolved(r.value, t))
  }

  /** A part of the tree whose declarations end with it. */
  function Within(items: Items, inner: Table, outer: Table): (r: Result<Resolved>)
    requires inner.scopes != []
    ensures r.Ok? ==> r.value.table.scopes == outer.scopes
    decreases items, 1
  {
    var r := ResolveItems(items, inner);
    if r.Err? then r else Ok(Resolved(r.value.bound, Table(outer.scopes, r.value.table.next)))
  }

  function ResolveBlock(items: Items, t: Table): (r: Result<Resolved>)
    ensures r.Ok? ==> r.value.table.scopes == t.scopes
    decreases items, 2
  {
    Within(items, Push(t), t)
  }

  function ResolveDeclaration(t: Table, name: string, isExtern: bool, init: seq<Usage>, assumed: Linkage): (r: Result<Resolved>)
    requires t.scopes != []
    ensures r.Ok? ==> r.value.table.scopes != []
  {
    var d := Declare(t, name, MaxLinkage(assumed, if isExtern then External else NoLinkage));
    if d.Err? then d else Then(d.value.bound, AfterUses(init, d.value.table))
  }

  /** The parameters and the outermost declarations of the body share a scope. */
  function ResolveFunction(t: Table, name: string, params: seq<string>, isDefinition: bool, body: Items): (r: Result<Resolved>)
    requires t.scopes != []
    ensures r.Ok? ==> r.value.table.scopes != []
    decreases body, 3
  {
    var f := DeclareNew(t, name);
    var p := DeclareParams(Push(f.table), params);
    if isDefinition then Then(f.bound + p.bound, Within(body, p.table, f.table))
    else Ok(Resolved(f.bound + p.bound, Table(f.table.scopes, p.table.next)))
  }

  function ResolveItem(item: Item, t: Table): (r: Result<Resolved>)
    requires t.scopes != []
    ensures r.Ok? ==> r.value.table.scopes != []
    decreases item, 4
  {
    match item
    case Expression(uses) => AfterUses(uses, t)
    case Declaration(name, isExtern, init) => ResolveDeclaration(t, name, isExtern, init, NoLinkage)
    case Block(body) => ResolveBlock(body, t)
    case IfElse(condition, thenPart, elsePart) =>
      var c := AfterUses(condition, t);
      if c.Err? then c else
      var a := Then(c.value.bound, ResolveBlock(thenPart, t));
      if a.Err? then a else Then(a.value.bound, ResolveBlock(elsePart, a.value.table))
    case Loop(precond, postcond, incr, body) =>
      var c := AfterUses(precond + postcond + incr, t);
      if c.Err? then c else Then(c.value.bound, ResolveBlock(body, t))
    case Switch(control, body) =>
      var c := AfterUses(control, t);
      if c.Err? then c else Then(c.value.bound, ResolveBlock(body, t))
    case Function(name, params, isDefinition, body) => ResolveFunction(t, name, params, isDefinition, body)
  }

  function ResolveItems(items: Items, t: Table): (r: Result<Resolved>)
    requires t.scopes != []
    ensures r.Ok? ==> r.value.table.scopes != []
    decreases items, 0
  {
    match items
    case NoItems => Ok(Resolved([], t))
    case MoreItems(item, rest) =>
      var first := ResolveItem(item, t);
      if first.Err? then first else Then(first.value.bound, ResolveItems(rest, first.value.table))
  }

  // --------------------------------------------------- what the numbers stand for

  /** One name for every number that has been handed out: the names that share a
      number are the same name. */
  type Owners = map<int, string>

  predicate EntryOwned(name: string, e: Entry, owners: Owners) {
    e.unique in owners && owners[e.unique] == name
  }

  ghost predicate ScopeOwned(s: Scope, owners: Owners) {
    forall name :: name in s ==> EntryOwned(name, s[name], owners)
  }

  ghost predicate Consistent(t: Table, owners: Owners) {
    && (forall i :: 0 <= i < |t.scopes| ==> ScopeOwned(t.scopes[i], owners))
    && (forall u :: u in owners ==> u < t.next)
  }

  ghost predicate AllOwned(bound: seq<Bound>, owners: Owners) {
    forall i :: 0 <= i < |bound| ==> EntryOwned(bound[i].name, bound[i].entry, owners)
  }

  /** The new numbers, in the order in which they were handed out. */
  function FreshOf(bound: seq<Bound>): seq<int> {
    if bound == [] then [] else
    var b := bound[|bound| - 1];
    FreshOf(bound[..|bound| - 1]) + if b.origin.Fresh? then [b.entry.unique] else []
  }

  predicate Ascending(s: seq<int>, low: int, high: int) {
    && (forall i :: 0 <= i < |s| ==> low <= s[i] < high)
    && (forall i, j :: 0 <= i < j < |s| ==> s[i] < s[j])
  }

  ghost predicate Extends(owners: Owners, owners': Owners) {
    forall u :: u in owners ==> u in owners' && owners'[u] == owners[u]
  }

  /** What a part of the tree keeps. */
  ghost predicate Good(r: Resolved, t: Table, owners: Owners, owners': Owners) {
    && Consistent(r.table, owners') && AllOwned(r.bound, owners') && Extends(owners, owners')
    && t.next <= r.table.next && Ascending(FreshOf(r.bound), t.next, r.table.next)
  }

  lemma {:induction false} FreshJoin(a: seq<Bound>, b: seq<Bound>)
    ensures FreshOf(a + b) == FreshOf(a) + FreshOf(b)
    decreases |b|
  {
    if b == [] {
      assert a + b == a;
    } else {
      assert (a + b)[..|a + b| - 1] == a + b[..|b| - 1];
      FreshJoin(a, b[..|b| - 1]);
    }
  }

  lemma GoodThen(before: seq<Bound>, r: Resolved, t: Table, mid: Table, owners: Owners, owners1: Owners, owners': Owners)
    requires Good(Resolved(before, mid), t, owners, owners1) && Good(r, mid, owners1, owners')
    ensures Good(Resolved(before + r.bound, r.table), t, owners, owners')
  {
    hide Consistent;
    FreshJoin(before, r.bound);
  }

  lemma {:induction false} VisibleOwned(scopes: seq<Scope>, name: string, owners: Owners)
    requires forall i :: 0 <= i < |scopes| ==> ScopeOwned(scopes[i], owners)
    requires Visible(scopes, name).Some?
    ensures EntryOwned(name, Visible(scopes, name).value, owners)
    decreases |scopes|
  {
    assert ScopeOwned(scopes[0], owners);
    if name !in scopes[0] {
      VisibleOwned(scopes[1..], name, owners);
    }
  }

  lemma {:induction false} UsesGood(uses: seq<Usage>, t: Table, owners: Owners)
    requires Consistent(t, owners) && ResolveUses(uses, t).Ok?
    ensures Good(Resolved(ResolveUses(uses, t).value, t), t, owners, owners)
    ensures |ResolveUses(uses, t).value| == |uses|
    ensures forall i :: 0 <= i < |uses| ==>
      var b := ResolveUses(uses, t).value[i]; b.name == uses[i].name && b.origin.Use? && Visible(t.scopes, uses[i].name) == Some(b.entry)
    decreases |uses|
  {
    if uses == [] {
      NothingGood(t, owners);
    } else {
      hide Consistent, Good, Visible;
      UsesGood(uses[..|uses| - 1], t, owners);
      var last := uses[|uses| - 1].name;
      OneUseOwned(t, last, owners);
      GoodUse(ResolveUses(uses[..|uses| - 1], t).value, Bound(last, Visible(t.scopes, last).value, Use), t, owners);
    }
  }

  lemma GoodUse(before: seq<Bound>, b: Bound, t: Table, owners: Owners)
    requires Good(Resolved(before, t), t, owners, owners) && EntryOwned(b.name, b.entry, owners) && b.origin.Use?
    ensures Good(Resolved(before + [b], t), t, owners, owners)
  {
    hide Consistent, Ascending, Extends, AllOwned, FreshOf;
    NothingFresh(before, b);
    OneMoreOwned(before, b, owners);
  }

  lemma NothingFresh(before: seq<Bound>, b: Bound)
    requires b.origin.Use?
    ensures FreshOf(before + [b]) == FreshOf(before)
  {
    assert (before + [b])[..|before + [b]| - 1] == before;
  }

  lemma OneMoreOwned(before: seq<Bound>, b: Bound, owners: Owners)
    requires AllOwned(before, owners) && EntryOwned(b.name, b.entry, owners)
    ensures AllOwned(before + [b], owners)
  {
    hide EntryOwned;
  }

  lemma OneUseOwned(t: Table, name: string, owners: Owners)
    requires Consistent(t, owners) && Visible(t.scopes, name).Some?
    ensures EntryOwned(name, Visible(t.scopes, name).value, owners)
  {
    VisibleOwned(t.scopes, name, owners);
  }

  lemma EnterGood(t: Table, name: string, e: Entry, origin: Origin, owners: Owners) returns (owners': Owners)
    requires Consistent(t, owners) && t.scopes != [] && !origin.Use?
    requires if origin.Fresh? then e.unique == t.next else EntryOwned(name, e, owners)
    ensures Good(Resolved([Bound(name, e, origin)], Enter(t, name, e)), t, owners, owners')
  {
    owners' := owners[e.unique := name];
    var t' := Enter(t, name, e);
    forall i | 0 <= i < |t'.scopes| ensures ScopeOwned(t'.scopes[i], owners') {
      assert ScopeOwned(t.scopes[i], owners);
    }
    var one := [Bound(name, e, origin)];
    assert one[..|one| - 1] == [] && FreshOf([]) == [];
    assert FreshOf(one) == if origin.Fresh? then [e.unique] else [];
  }

  lemma DeclareGood(t: Table, name: string, linkage: Linkage, owners: Owners) returns (owners': Owners)
    requires Consistent(t, owners) && t.scopes != [] && Declare(t, name, linkage).Ok?
    ensures Good(Declare(t, name, linkage).value, t, owners, owners')
  {
    if name in t.scopes[0] {
      owners' := owners;
      assert ScopeOwned(t.scopes[0], owners);
      var one := [Bound(name, t.scopes[0][name], Again)];
      assert one[..|one| - 1] == [] && FreshOf([]) == [];
      assert FreshOf(one) == [];
    } else if TakesOver(t, name, linkage) {
      OneUseOwned(t, name, owners);
      owners' := EnterGood(t, name, Visible(t.scopes, name).value, Again, owners);
    } else {
      owners' := EnterGood(t, name, Entry(t.next, linkage), Fresh, owners);
    }
  }

  lemma PushGood(t: Table, owners: Owners)
    requires Consistent(t, owners)
    ensures Consistent(Push(t), owners)
  {
    var t' := Push(t);
    forall i | 0 <= i < |t'.scopes| ensures ScopeOwned(t'.scopes[i], owners) {
      if i > 0 {
        assert t'.scopes[i] == t.scopes[i - 1];
      }
    }
  }

  lemma NothingGood(t: Table, owners: Owners)
    requires Consistent(t, owners)
    ensures Good(Resolved([], t), t, owners, owners)
  {
  }

  lemma {:induction false} ParamsGood(t: Table, params: seq<string>, owners: Owners) returns (owners': Owners)
    requires Consistent(t, owners) && t.scopes != []
    ensures Good(DeclareParams(t, params), t, owners, owners')
    decreases |params|
  {
    if params == [] {
      owners' := owners;
      NothingGood(t, owners);
    } else {
      hide Good, Consistent;
      var owners1 := ParamsGood(t, params[..|params| - 1], owners);
      var first := DeclareParams(t, params[..|params| - 1]);
      GoodParts(first, t, owners, owners1);
      owners' := EnterGood(first.table, params[|params| - 1], Entry(first.table.next, NoLinkage), Fresh, owners1);
      GoodThen(first.bound, DeclareNew(first.table, params[|params| - 1]), t, first.table, owners, owners1, owners');
    }
  }

  lemma GoodParts(r: Resolved, t: Table, owners: Owners, owners': Owners)
    requires Good(r, t, owners, owners')
    ensures Consistent(r.table, owners') && Extends(owners, owners') && t.next <= r.table.next
  {
  }

  /** The table of an outer scope, with the numbers of the inner part used up. */
  lemma OuterGood(r: Resolved, t: Table, outer: Table, owners: Owners, owners': Owners)
    requires Good(r, t, owners, owners')
    requires forall i :: 0 <= i < |outer.scopes| ==> ScopeOwned(outer.scopes[i], owners)
    ensures Good(Resolved(r.bound, Table(outer.scopes, r.table.next)), t, owners, owners')
  {
    forall i | 0 <= i < |outer.scopes| ensures ScopeOwned(outer.scopes[i], owners') {
      assert ScopeOwned(outer.scopes[i], owners);
    }
  }

  lemma {:induction false} WithinGood(items: Items, inner: Table, outer: Table, owners: Owners) returns (owners': Owners)
    requires inner.scopes != [] && Consistent(inner, owners) && Within(items, inner, outer).Ok?
    requires forall i :: 0 <= i < |outer.scopes| ==> ScopeOwned(outer.scopes[i], owners)
    ensures Good(Within(items, inner, outer).value, inner, owners, owners')
    decreases items, 1
  {
    hide ResolveItems, Good, Consistent, ScopeOwned;
    owners' := ItemsGood(items, inner, owners);
    OuterGood(ResolveItems(items, inner).value, inner, outer, owners, owners');
  }

  lemma {:induction false} BlockGood(items: Items, t: Table, owners: Owners) returns (owners': Owners)
    requires Consistent(t, owners) && ResolveBlock(items, t).Ok?
    ensures Good(ResolveBlock(items, t).value, t, owners, owners')
    decreases items, 2
  {
    hide Good;
    PushGood(t, owners);
    owners' := WithinGood(items, Push(t), t, owners);
    SameNext(ResolveBlock(items, t).value, Push(t), t, owners, owners');
  }

  lemma SameNext(r: Resolved, t: Table, u: Table, owners: Owners, owners': Owners)
    requires Good(r, t, owners, owners') && t.next == u.next
    ensures Good(r, u, owners, owners')
  {
  }

  lemma {:induction false} UsesThenBlock(uses: seq<Usage>, body: Items, t: Table, owners: Owners) returns (owners': Owners)
    requires Consistent(t, owners) && ResolveUses(uses, t).Ok? && ResolveBlock(body, t).Ok?
    ensures Good(Then(ResolveUses(uses, t).value, ResolveBlock(body, t)).value, t, owners, owners')
    decreases body, 3
  {
    hide Good, Consistent;
    UsesGood(uses, t, owners);
    owners' := BlockGood(body, t, owners);
    GoodThen(ResolveUses(uses, t).value, ResolveBlock(body, t).value, t, t, owners, owners, owners');
  }

  lemma {:induction false} FunctionGood(t: Table, name: string, params: seq<string>, isDefinition: bool, body: Items, owners: Owners)
    returns (owners': Owners)
    requires Consistent(t, owners) && t.scopes != [] && ResolveFunction(t, name, params, isDefinition, body).Ok?
    ensures Good(ResolveFunction(t, name, params, isDefinition, body).value, t, owners, owners')
    decreases body, 3
  {
    hide Good, Consistent, Within, Ascending;
    var f := DeclareNew(t, name);
    var owners1 := EnterGood(t, name, Entry(t.next, NoLinkage), Fresh, owners);
    GoodParts(f, t, owners, owners1);
    PushGood(f.table, owners1);
    var p := DeclareParams(Push(f.table), params);
    var owners2 := ParamsGood(Push(f.table), params, owners1);
    GoodParts(p, Push(f.table), owners1, owners2);
    SameNext(p, Push(f.table), f.table, owners1, owners2);
    GoodThen(f.bound, p, t, f.table, owners, owners1, owners2);
    ScopesStay(f.table, owners1, owners2);
    var both := Resolved(f.bound + p.bound, p.table);
    if isDefinition {
      owners' := WithinGood(body, p.table, f.table, owners2);
      GoodThen(f.bound + p.bound, Within(body, p.table, f.table).value, t, p.table, owners, owners2, owners');
    } else {
      owners' := owners2;
      OuterStays(both, t, f.table, owners, owners2);
    }
  }

  lemma OuterStays(r: Resolved, t: Table, outer: Table, owners: Owners, owners': Owners)
    requires Good(r, t, owners, owners')
    requires forall i :: 0 <= i < |outer.scopes| ==> ScopeOwned(outer.scopes[i], owners')
    ensures Good(Resolved(r.bound, Table(outer.scopes, r.table.next)), t, owners, owners')
  {
  }

  lemma ScopesStay(t: Table, owners: Owners, owners': Owners)
    requires Consistent(t, owners) && Extends(owners, owners')
    ensures forall i :: 0 <= i < |t.scopes| ==> ScopeOwned(t.scopes[i], owners')
  {
    forall i | 0 <= i < |t.scopes| ensures ScopeOwned(t.scopes[i], owners') {
      assert ScopeOwned(t.scopes[i], owners);
    }
  }

  lemma {:induction false} ItemGood(item: Item, t: Table, owners: Owners) returns (owners': Owners)
    requires Consistent(t, owners) && t.scopes != [] && ResolveItem(item, t).Ok?
    ensures Good(ResolveItem(item, t).value, t, owners, owners')
    decreases item, 4
  {
    hide Good, Consistent, Declare, ResolveBlock, ResolveFunction, ResolveUses;
    match item
    case Expression(uses) => UsesGood(uses, t, owners); owners' := owners;
    case Declaration(name, isExtern, init) =>
      owners' := DeclarationGood(t, name, isExtern, init, NoLinkage, owners);
    case Block(body) => owners' := BlockGood(body, t, owners);
    case IfElse(condition, thenPart, elsePart) =>
      var owners1 := UsesThenBlock(condition, thenPart, t, owners);
      var a := Then(ResolveUses(condition, t).value, ResolveBlock(thenPart, t)).value;
      GoodParts(a, t, owners, owners1);
      owners' := BlockGood(elsePart, a.table, owners1);
      GoodThen(a.bound, ResolveBlock(elsePart, a.table).value, t, a.table, owners, owners1, owners');
    case Loop(precond, postcond, incr, body) => owners' := UsesThenBlock(precond + postcond + incr, body, t, owners);
    case Switch(control, body) => owners' := UsesThenBlock(control, body, t, owners);
    case Function(name, params, isDefinition, body) => owners' := FunctionGood(t, name, params, isDefinition, body, owners);
  }

  lemma DeclarationGood(t: Table, name: string, isExtern: bool, init: seq<Usage>, assumed: Linkage, owners: Owners) returns (owners': Owners)
    requires Consistent(t, owners) && t.scopes != [] && ResolveDeclaration(t, name, isExtern, init, assumed).Ok?
    ensures Good(ResolveDeclaration(t, name, isExtern, init, assumed).value, t, owners, owners')
  {
    hide Good, Consistent, Declare, ResolveUses;
    var linkage := MaxLinkage(assumed, if isExtern then External else NoLinkage);
    owners' := DeclareGood(t, name, linkage, owners);
    var d := Declare(t, name, linkage).value;
    GoodParts(d, t, owners, owners');
    UsesGood(init, d.table, owners');
    GoodThen(d.bound, Resolved(ResolveUses(init, d.table).value, d.table), t, d.table, owners, owners', owners');
  }

  /** Over a whole run: numbers that are handed out ascend, and no two names ever
      share one, so that replacing names by numbers captures nothing. */
  lemma {:induction false} ItemsGood(items: Items, t: Table, owners: Owners) returns (owners': Owners)
    requires Consistent(t, owners) && t.scopes != [] && ResolveItems(items, t).Ok?
    ensures Good(ResolveItems(items, t).value, t, owners, owners')
    decreases items, 0
  {
    hide Good, Consistent, ResolveItem;
    match items
    case NoItems => owners' := owners; NothingGood(t, owners);
    case MoreItems(item, rest) =>
      var owners1 := ItemGood(item, t, owners);
      var first := ResolveItem(item, t).value;
      GoodParts(first, t, owners, owners1);
      owners' := ItemsGood(rest, first.table, owners1);
      GoodThen(first.bound, ResolveItems(rest, first.table).value, t, first.table, owners, owners1, owners');
  }

  // ----------------------------------------------------------------- a program

  /** A file holds functions and declarations. */
  predicate IsFile(items: Items) {
    items.MoreItems? ==> (items.item.Function? || items.item.Declaration?) && IsFile(items.rest)
  }

  /** Objects declared in a file have external linkage. */
  function ResolveFile(items: Items, t: Table): (r: Result<Resolved>)
    requires t.scopes != [] && IsFile(items)
    ensures r.Ok? ==> r.value.table.scopes != []
    decreases items
  {
    match items
    case NoItems => Ok(Resolved([], t))
    case MoreItems(item, rest) =>
      var first :=
        if item.Function? then ResolveFunction(t, item.name, item.params, item.isDefinition, item.body)
        else ResolveDeclaration(t, item.name, item.isExtern, item.init, External);
      if first.Err? then first else Then(first.value.bound, ResolveFile(rest, first.value.table))
  }

  lemma {:induction false} FileGood(items: Items, t: Table, owners: Owners) returns (owners': Owners)
    requires Consistent(t, owners) && t.scopes != [] && IsFile(items) && ResolveFile(items, t).Ok?
    ensures Good(ResolveFile(items, t).value, t, owners, owners')
    decreases items
  {
    hide Good, Consistent, ResolveFunction, ResolveDeclaration;
    match items
    case NoItems => owners' := owners; NothingGood(t, owners);
    case MoreItems(item, rest) =>
      var owners1;
      var first: Resolved;
      if item.Function? {
        owners1 := FunctionGood(t, item.name, item.params, item.isDefinition, item.body, owners);
        first := ResolveFunction(t, item.name, item.params, item.isDefinition, item.body).value;
      } else {
        owners1 := DeclarationGood(t, item.name, item.isExtern, item.init, External, owners);
        first := ResolveDeclaration(t, item.name, item.isExtern, item.init, External).value;
      }
      GoodParts(first, t, owners, owners1);
      owners' := FileGood(rest, first.table, owners1);
      GoodThen(first.bound, ResolveFile(rest, first.table).value, t, first.table, owners, owners1, owners');
  }

  /** An empty file scope. */
  const EMPTY: Table := Table([map[]], 0)

  /** In a whole file, identifiers with the same number have the same name, the new
      numbers ascend from 0, and all numbers lie below the next one. */
  lemma FileCapturesNothing(items: Items)
    requires IsFile(items) && ResolveFile(items, EMPTY).Ok?
    ensures var r := ResolveFile(items, EMPTY).value;
            && (forall i, j :: 0 <= i < |r.bound| && 0 <= j < |r.bound| && r.bound[i].entry.unique == r.bound[j].entry.unique
                               ==> r.bound[i].name == r.bound[j].name)
            && (forall i :: 0 <= i < |r.bound| ==> r.bound[i].entry.unique < r.table.next)
            && Ascending(FreshOf(r.bound), 0, r.table.next)
  {
    assert Consistent(EMPTY, map[]);
    var owners := FileGood(items, EMPTY, map[]);
    var r := ResolveFile(items, EMPTY).value;
    assert AllOwned(r.bound, owners) && Consistent(r.table, owners);
    hide ResolveFile;
    forall i | 0 <= i < |r.bound| ensures EntryOwned(r.bound[i].name, r.bound[i].entry, owners) && r.bound[i].entry.unique < r.table.next {
    }
  }
}
