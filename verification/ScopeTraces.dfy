/** What the numbers of identifiers mean, stated of the order of the text: scopes that
    open and close, declarations, and uses. Nothing here mentions the table of scopes;
    resolution is proved to give every identifier the number that this asks for. */
module ScopeTraces {
  import opened Wrappers
  import opened Scopes

  /** The text from left to right. A function or parameter is declared without a look
      at what its scope holds already. */
  datatype Event = Open | Close | Declares(name: string, linkage: Linkage, checked: bool) | Mentions(usage: Usage)

  predicate Binds(e: Event) {
    e.Declares? || e.Mentions?
  }

  function UseEvents(uses: seq<Usage>): seq<Event> {
    if uses == [] then [] else UseEvents(uses[..|uses| - 1]) + [Mentions(uses[|uses| - 1])]
  }

  function ParamEvents(params: seq<string>): seq<Event> {
    if params == [] then [] else ParamEvents(params[..|params| - 1]) + [Declares(params[|params| - 1], NoLinkage, false)]
  }

  function BlockEvents(body: Items): seq<Event>
    decreases body, 2
  {
    [Open] + ItemsEvents(body) + [Close]
  }

  function FunctionEvents(name: string, params: seq<string>, isDefinition: bool, body: Items): seq<Event>
    decreases body, 3
  {
    [Declares(name, NoLinkage, false), Open] + ParamEvents(params) + (if isDefinition then ItemsEvents(body) else []) + [Close]
  }

  function DeclarationEvents(name: string, linkage: Linkage, init: seq<Usage>): seq<Event> {
    [Declares(name, linkage, true)] + UseEvents(init)
  }

  function ItemEvents(item: Item): seq<Event>
    decreases item, 4
  {
    match item
    case Expression(uses) => UseEvents(uses)
    case Declaration(name, isExtern, init) => DeclarationEvents(name, if isExtern then External else NoLinkage, init)
    case Block(body) => BlockEvents(body)
    case IfElse(condition, thenPart, elsePart) => UseEvents(condition) + BlockEvents(thenPart) + BlockEvents(elsePart)
    case Loop(precond, postcond, incr, body) => UseEvents(precond + postcond + incr) + BlockEvents(body)
    case Switch(control, body) => UseEvents(control) + BlockEvents(body)
    case Function(name, params, isDefinition, body) => FunctionEvents(name, params, isDefinition, body)
  }

  function ItemsEvents(items: Items): seq<Event>
    decreases items, 0
  {
    match items
    case NoItems => []
    case MoreItems(item, rest) => ItemEvents(item) + ItemsEvents(rest)
  }

  /** Objects of a file have external linkage. */
  function FileEvents(items: Items): seq<Event>
    requires IsFile(items)
  {
    match items
    case NoItems => []
    case MoreItems(item, rest) =>
      (if item.Function? then FunctionEvents(item.name, item.params, item.isDefinition, item.body)
       else DeclarationEvents(item.name, External, item.init)) + FileEvents(rest)
  }

  // ------------------------------------------------------------- what is meant

  function Front<T>(s: seq<T>): seq<T>
    requires s != []
  {
    s[..|s| - 1]
  }

  /** The entry of the last declaration of a name whose scope is still open; skip counts
      the closed scopes that the search is in. With `here` only the innermost scope is
      searched. The entries stand in bound, one for each declaration and use. */
  function Seen(events: seq<Event>, bound: seq<Bound>, name: string, skip: nat, here: bool): Option<Entry>
    decreases |events|
  {
    if events == [] then None else
    var last := events[|events| - 1];
    if Binds(last) && bound == [] then None else
    match last
    case Open =>
      if skip > 0 then Seen(Front(events), bound, name, skip - 1, here)
      else if here then None
      else Seen(Front(events), bound, name, 0, here)
    case Close => Seen(Front(events), bound, name, skip + 1, here)
    case Declares(n, _, _) =>
      if skip == 0 && n == name then Some(bound[|bound| - 1].entry) else Seen(Front(events), Front(bound), name, skip, here)
    case Mentions(_) => Seen(Front(events), Front(bound), name, skip, here)
  }

  /** What is wrong with an event behind others: a name without a declaration, or one
      that its scope declares already, unless both declarations are external. */
  function Offence(e: Event, before: seq<Event>, bound: seq<Bound>): Option<ResolveError>
    requires Binds(e)
  {
    match e
    case Mentions(u) =>
      if Seen(before, bound, u.name, 0, false).Some? then None
      else Some(if u.isCall then FunctionUndeclared(u.name) else VariableUndeclared(u.name))
    case Declares(name, linkage, checked) =>
      var held := Seen(before, bound, name, 0, true);
      if !checked || held.None? || (held.value.linkage.External? && linkage.External?) then None else Some(Duplicate(name))
  }

  predicate IsNew(u: int, bound: seq<Bound>) {
    forall i :: 0 <= i < |bound| ==> bound[i].entry.unique != u
  }

  /** An identifier in an expression has the entry of the innermost declaration before
      it. An external declaration of an object that is visible with linkage has its
      entry (section 6.2.2 paragraph 4 of ISO C11); every other declaration has a number
      that occurs nowhere before, and the linkage that it asks for. */
  predicate Right(e: Event, b: Bound, before: seq<Event>, bound: seq<Bound>)
    requires Binds(e)
  {
    Offence(e, before, bound).None? &&
    match e
    case Mentions(u) => b.name == u.name && b.origin.Use? && Seen(before, bound, u.name, 0, false) == Some(b.entry)
    case Declares(name, linkage, checked) =>
      && b.name == name
      && var seen := Seen(before, bound, name, 0, false);
         if checked && linkage.External? && seen.Some? && !seen.value.linkage.NoLinkage? then b.origin.Again? && b.entry == seen.value
         else b.origin.Fresh? && b.entry.linkage == linkage && IsNew(b.entry.unique, bound)
  }

  predicate AllRight(events: seq<Event>, bound: seq<Bound>)
    decreases |events|
  {
    if events == [] then bound == [] else
    var last := events[|events| - 1];
    if !Binds(last) then AllRight(Front(events), bound)
    else bound != [] && AllRight(Front(events), Front(bound)) && Right(last, bound[|bound| - 1], Front(events), Front(bound))
  }

  /** Everything before one event is right, and the event is wrong. */
  predicate FailsAt(events: seq<Event>, k: nat, bound: seq<Bound>, error: ResolveError) {
    k < |events| && Binds(events[k]) && AllRight(events[..k], bound) && Offence(events[k], events[..k], bound) == Some(error)
  }

  ghost predicate Fails(events: seq<Event>, error: ResolveError) {
    exists k: nat, bound :: FailsAt(events, k, bound, error)
  }

  // ------------------------------------------------------ the table and the events

  /** The table gives every name the entry that the events give it. */
  ghost predicate Represents(t: Table, events: seq<Event>, bound: seq<Bound>) {
    && t.scopes != [] && (forall i :: 0 <= i < |bound| ==> bound[i].entry.unique < t.next)
    && (forall name :: Visible(t.scopes, name) == Seen(events, bound, name, 0, false))
    && (forall name :: Seen(events, bound, name, 0, true) == if name in t.scopes[0] then Some(t.scopes[0][name]) else None)
  }

  /** What resolution of a part of the text does after what stands before it. */
  ghost predicate Traced(r: Result<Resolved>, before: seq<Event>, events: seq<Event>, bound: seq<Bound>) {
    match r
    case Ok(v) => AllRight(before + events, bound + v.bound) && Represents(v.table, before + events, bound + v.bound)
    case Err(e) => Fails(before + events, e)
  }

  lemma FailsLonger(events: seq<Event>, more: seq<Event>, error: ResolveError)
    requires Fails(events, error)
    ensures Fails(events + more, error)
  {
    var k: nat, bound :| FailsAt(events, k, bound, error);
    hide AllRight, Offence;
    assert (events + more)[..k] == events[..k];
    assert FailsAt(events + more, k, bound, error);
  }

  lemma OneMore(events: seq<Event>, bound: seq<Bound>, e: Event, b: Bound)
    requires Binds(e) && AllRight(events, bound) && Right(e, b, events, bound)
    ensures AllRight(events + [e], bound + [b])
  {
    hide Right;
    assert Front(events + [e]) == events && Front(bound + [b]) == bound;
  }

  lemma OneWrong(events: seq<Event>, bound: seq<Bound>, e: Event, error: ResolveError)
    requires Binds(e) && AllRight(events, bound) && Offence(e, events, bound) == Some(error)
    ensures Fails(events + [e], error)
  {
    hide AllRight, Offence;
    assert (events + [e])[..|events|] == events;
    assert FailsAt(events + [e], |events|, bound, error);
  }

  lemma SeenBehind(events: seq<Event>, bound: seq<Bound>, e: Event, b: Bound, name: string, here: bool)
    requires Binds(e)
    ensures Seen(events + [e], bound + [b], name, 0, here) ==
            if e.Declares? && e.name == name then Some(b.entry) else Seen(events, bound, name, 0, here)
  {
    assert Front(events + [e]) == events && Front(bound + [b]) == bound;
  }

  // --------------------------------------------------------------------- uses

  lemma {:induction false} UsesTraced(uses: seq<Usage>, t: Table, before: seq<Event>, bound: seq<Bound>)
    requires Represents(t, before, bound) && AllRight(before, bound)
    ensures Traced(AfterUses(uses, t), before, UseEvents(uses), bound)
    decreases |uses|
  {
    hide AllRight, Seen, Fails, Visible;
    if uses == [] {
      assert before + [] == before && bound + [] == bound;
    } else {
      var front, u := uses[..|uses| - 1], uses[|uses| - 1];
      UsesTraced(front, t, before, bound);
      var events := before + UseEvents(front);
      assert before + UseEvents(uses) == events + [Mentions(u)];
      var first := ResolveUses(front, t);
      if first.Err? {
        FailsLonger(events, [Mentions(u)], first.error);
      } else if Visible(t.scopes, u.name).None? {
        OneWrong(events, bound + first.value, Mentions(u), if u.isCall then FunctionUndeclared(u.name) else VariableUndeclared(u.name));
      } else {
        var b := Bound(u.name, Visible(t.scopes, u.name).value, Use);
        assert bound + (first.value + [b]) == bound + first.value + [b];
        UseRight(t, events, bound + first.value, u, b);
      }
    }
  }

  lemma UseRight(t: Table, events: seq<Event>, bound: seq<Bound>, u: Usage, b: Bound)
    requires Represents(t, events, bound) && AllRight(events, bound)
    requires Visible(t.scopes, u.name) == Some(b.entry) && b == Bound(u.name, b.entry, Use)
    ensures AllRight(events + [Mentions(u)], bound + [b]) && Represents(t, events + [Mentions(u)], bound + [b])
  {
    hide AllRight;
    OneMore(events, bound, Mentions(u), b);
    SeenNumber(t, events, bound, u.name);
    hide Visible;
    forall name, here ensures Seen(events + [Mentions(u)], bound + [b], name, 0, here) == Seen(events, bound, name, 0, here) {
      SeenBehind(events, bound, Mentions(u), b, name, here);
    }
  }

  /** A visible entry is one of those that have been handed out. */
  lemma SeenNumber(t: Table, events: seq<Event>, bound: seq<Bound>, name: string)
    requires Represents(t, events, bound) && Visible(t.scopes, name).Some?
    ensures Visible(t.scopes, name).value.unique < t.next
  {
    hide Visible;
    SeenAmong(events, bound, name, 0, false);
  }

  lemma {:induction false} SeenAmong(events: seq<Event>, bound: seq<Bound>, name: string, skip: nat, here: bool)
    requires Seen(events, bound, name, skip, here).Some?
    ensures exists i :: 0 <= i < |bound| && bound[i].entry == Seen(events, bound, name, skip, here).value
    decreases |events|
  {
    var last := events[|events| - 1];
    match last
    case Open => SeenAmong(Front(events), bound, name, if skip > 0 then skip - 1 else 0, here);
    case Close => SeenAmong(Front(events), bound, name, skip + 1, here);
    case Declares(n, _, _) =>
      if skip == 0 && n == name {
        assert bound[|bound| - 1].entry == Seen(events, bound, name, skip, here).value;
      } else {
        SeenAmong(Front(events), Front(bound), name, skip, here);
      }
    case Mentions(_) => SeenAmong(Front(events), Front(bound), name, skip, here);
  }

  // -------------------------------------------------------------- declarations

  /** An entry for a name, in the table and in the text. */
  lemma EnterTraced(t: Table, events: seq<Event>, bound: seq<Bound>, e: Event, b: Bound)
    requires e.Declares? && Represents(t, events, bound) && AllRight(events, bound) && Right(e, b, events, bound)
    requires b.entry.unique <= t.next
    ensures AllRight(events + [e], bound + [b]) && Represents(Enter(t, e.name, b.entry), events + [e], bound + [b])
  {
    hide AllRight, Right, Seen;
    OneMore(events, bound, e, b);
    var t' := Enter(t, e.name, b.entry);
    forall name
      ensures Visible(t'.scopes, name) == Seen(events + [e], bound + [b], name, 0, false)
      ensures Seen(events + [e], bound + [b], name, 0, true) == if name in t'.scopes[0] then Some(t'.scopes[0][name]) else None
    {
      SeenBehind(events, bound, e, b, name, false);
      SeenBehind(events, bound, e, b, name, true);
      assert t'.scopes[1..] == t.scopes[1..];
    }
  }

  lemma NewNumber(t: Table, events: seq<Event>, bound: seq<Bound>)
    requires Represents(t, events, bound)
    ensures IsNew(t.next, bound)
  {
  }

  lemma NewTraced(t: Table, events: seq<Event>, bound: seq<Bound>, name: string)
    requires Represents(t, events, bound) && AllRight(events, bound)
    ensures var r := DeclareNew(t, name); var e := Declares(name, NoLinkage, false);
            AllRight(events + [e], bound + r.bound) && Represents(r.table, events + [e], bound + r.bound)
  {
    hide AllRight, Seen;
    var e, b := Declares(name, NoLinkage, false), Bound(name, Entry(t.next, NoLinkage), Fresh);
    NewNumber(t, events, bound);
    assert Right(e, b, events, bound);
    EnterTraced(t, events, bound, e, b);
  }

  lemma DeclareTraced(t: Table, events: seq<Event>, bound: seq<Bound>, name: string, linkage: Linkage)
    requires Represents(t, events, bound) && AllRight(events, bound)
    ensures Traced(Declare(t, name, linkage), events, [Declares(name, linkage, true)], bound)
  {
    hide AllRight, Seen, Fails;
    var e := Declares(name, linkage, true);
    NewNumber(t, events, bound);
    if name in t.scopes[0] {
      var held := t.scopes[0][name];
      assert Visible(t.scopes, name) == Some(held);
      if held.linkage.External? && linkage.External? {
        AgainTraced(t, events, bound, e, held);
      } else {
        OneWrong(events, bound, e, Duplicate(name));
      }
    } else if Visible(t.scopes, name).Some? && linkage.External? && !Visible(t.scopes, name).value.linkage.NoLinkage? {
      var b := Bound(name, Visible(t.scopes, name).value, Again);
      SeenNumber(t, events, bound, name);
      assert Right(e, b, events, bound);
      EnterTraced(t, events, bound, e, b);
    } else {
      var b := Bound(name, Entry(t.next, linkage), Fresh);
      assert Right(e, b, events, bound);
      EnterTraced(t, events, bound, e, b);
    }
  }

  /** A second external declaration in one scope. */
  lemma AgainTraced(t: Table, events: seq<Event>, bound: seq<Bound>, e: Event, held: Entry)
    requires Represents(t, events, bound) && AllRight(events, bound) && e.Declares? && e.checked && e.linkage.External?
    requires e.name in t.scopes[0] && t.scopes[0][e.name] == held && held.linkage.External?
    ensures var b := Bound(e.name, held, Again); AllRight(events + [e], bound + [b]) && Represents(t, events + [e], bound + [b])
  {
    hide AllRight, Seen;
    var b := Bound(e.name, held, Again);
    assert Visible(t.scopes, e.name) == Some(held);
    SeenNumber(t, events, bound, e.name);
    assert Right(e, b, events, bound);
    OneMore(events, bound, e, b);
    forall name, here ensures Seen(events + [e], bound + [b], name, 0, here) == Seen(events, bound, name, 0, here) {
      SeenBehind(events, bound, e, b, name, here);
    }
  }

  lemma DeclarationTraced(t: Table, before: seq<Event>, bound: seq<Bound>, name: string, isExtern: bool, init: seq<Usage>, assumed: Linkage)
    requires Represents(t, before, bound) && AllRight(before, bound) && !assumed.Internal?
    ensures var linkage := if isExtern || assumed.External? then External else NoLinkage;
            Traced(ResolveDeclaration(t, name, isExtern, init, assumed), before, DeclarationEvents(name, linkage, init), bound)
  {
    hide AllRight, Represents, Declare, ResolveUses, Fails, UseEvents;
    var linkage := if isExtern || assumed.External? then External else NoLinkage;
    assert linkage == MaxLinkage(assumed, if isExtern then External else NoLinkage);
    TablesExist(t, before, bound);
    DeclareTraced(t, before, bound, name, linkage);
    var d := Declare(t, name, linkage);
    if d.Ok? {
      UsesTraced(init, d.value.table, before + [Declares(name, linkage, true)], bound + d.value.bound);
    }
    ThenTraced(d, if d.Ok? then AfterUses(init, d.value.table) else d, before, [Declares(name, linkage, true)], UseEvents(init), bound);
  }

  /** One part of the text after another. */
  lemma ThenTraced(first: Result<Resolved>, second: Result<Resolved>, before: seq<Event>, a: seq<Event>, b: seq<Event>, bound: seq<Bound>)
    requires Traced(first, before, a, bound) && (first.Ok? ==> Traced(second, before + a, b, bound + first.value.bound))
    ensures Traced(if first.Err? then first else Then(first.value.bound, second), before, a + b, bound)
  {
    hide AllRight, Represents, Fails;
    assert before + a + b == before + (a + b);
    if first.Err? {
      FailsLonger(before + a, b, first.error);
    } else if second.Ok? {
      assert bound + first.value.bound + second.value.bound == bound + (first.value.bound + second.value.bound);
    }
  }

  lemma {:induction false} ParamsTraced(t: Table, before: seq<Event>, bound: seq<Bound>, params: seq<string>)
    requires Represents(t, before, bound) && AllRight(before, bound)
    ensures Traced(Ok(DeclareParams(t, params)), before, ParamEvents(params), bound)
    decreases |params|
  {
    hide AllRight, Represents, DeclareNew;
    TablesExist(t, before, bound);
    if params == [] {
      assert before + [] == before && bound + [] == bound;
    } else {
      var front, name := params[..|params| - 1], params[|params| - 1];
      ParamsTraced(t, before, bound, front);
      var first := DeclareParams(t, front);
      NewTraced(first.table, before + ParamEvents(front), bound + first.bound, name);
      ThenTraced(Ok(first), Ok(DeclareNew(first.table, name)), before, ParamEvents(front), [Declares(name, NoLinkage, false)], bound);
    }
  }

  // --------------------------------------------------------------------- scopes

  lemma OpenTraced(t: Table, events: seq<Event>, bound: seq<Bound>)
    requires Represents(t, events, bound) && AllRight(events, bound)
    ensures AllRight(events + [Open], bound) && Represents(Push(t), events + [Open], bound)
  {
    assert Front(events + [Open]) == events;
    var t' := Push(t);
    forall name
      ensures Visible(t'.scopes, name) == Seen(events + [Open], bound, name, 0, false)
      ensures Seen(events + [Open], bound, name, 0, true) == if name in t'.scopes[0] then Some(t'.scopes[0][name]) else None
    {
      assert t'.scopes[1..] == t.scopes;
    }
  }

  /** How many entries some events have. */
  function Count(events: seq<Event>): nat {
    if events == [] then 0 else Count(Front(events)) + if Binds(events[|events| - 1]) then 1 else 0
  }

  lemma {:induction false} RightCount(events: seq<Event>, bound: seq<Bound>)
    requires AllRight(events, bound)
    ensures |bound| == Count(events)
    decreases |events|
  {
    hide Right;
    if events != [] {
      RightCount(Front(events), if Binds(events[|events| - 1]) then Front(bound) else bound);
    }
  }

  lemma {:induction false} CountJoin(a: seq<Event>, b: seq<Event>)
    ensures Count(a + b) == Count(a) + Count(b)
    decreases |b|
  {
    if b == [] {
      assert a + b == a;
    } else {
      assert Front(a + b) == a + Front(b);
      CountJoin(a, Front(b));
    }
  }

  /** Events that open no scope without closing it are passed over when they lie in a
      closed scope. */
  ghost predicate Passed(inner: seq<Event>) {
    forall before: seq<Event>, bound: seq<Bound>, more: seq<Bound>, name: string, skip: nat, here: bool ::
      Unseen(inner, before, bound, more, name, skip, here)
  }

  predicate Unseen(inner: seq<Event>, before: seq<Event>, bound: seq<Bound>, more: seq<Bound>, name: string, skip: nat, here: bool) {
    |more| == Count(inner) ==> Seen(before + inner, bound + more, name, skip + 1, here) == Seen(before, bound, name, skip + 1, here)
  }

  lemma NothingPassed()
    ensures Passed([])
  {
    forall before: seq<Event>, bound: seq<Bound>, more: seq<Bound>, name: string, skip: nat, here: bool | |more| == Count([])
      ensures Unseen([], before, bound, more, name, skip, here)
    {
      assert before + [] == before && bound + more == bound;
    }
  }

  lemma OnePassed(e: Event)
    requires Binds(e)
    ensures Passed([e])
  {
    forall before: seq<Event>, bound: seq<Bound>, more: seq<Bound>, name: string, skip: nat, here: bool | |more| == Count([e])
      ensures Unseen([e], before, bound, more, name, skip, here)
    {
      assert Front([e]) == [] && Count([]) == 0;
      assert |more| == 1;
      assert Front(before + [e]) == before && Front(bound + more) == bound;
    }
  }

  lemma BothPassed(a: seq<Event>, b: seq<Event>)
    requires Passed(a) && Passed(b)
    ensures Passed(a + b)
  {
    CountJoin(a, b);
    forall before: seq<Event>, bound: seq<Bound>, more: seq<Bound>, name: string, skip: nat, here: bool | |more| == Count(a + b)
      ensures Unseen(a + b, before, bound, more, name, skip, here)
    {
      hide Seen, Count;
      var x, y := more[..Count(a)], more[Count(a)..];
      assert before + (a + b) == before + a + b && bound + more == bound + x + y;
      assert Unseen(a, before, bound, x, name, skip, here) && Unseen(b, before + a, bound + x, y, name, skip, here);
    }
  }

  lemma ScopePassed(inner: seq<Event>)
    requires Passed(inner)
    ensures Passed([Open] + inner + [Close])
  {
    hide Passed;
    var events := [Open] + inner + [Close];
    ScopeCount(inner);
    forall before: seq<Event>, bound: seq<Bound>, more: seq<Bound>, name: string, skip: nat, here: bool | |more| == Count(events)
      ensures Unseen(events, before, bound, more, name, skip, here)
    {
      ScopeSkipped(before, inner, bound, more, name, skip + 1, here);
    }
    PassedIs(events);
  }

  lemma PassedIs(inner: seq<Event>)
    requires forall before: seq<Event>, bound: seq<Bound>, more: seq<Bound>, name: string, skip: nat, here: bool ::
               |more| == Count(inner) ==> Unseen(inner, before, bound, more, name, skip, here)
    ensures Passed(inner)
  {
  }

  lemma ScopeCount(inner: seq<Event>)
    ensures Count([Open] + inner + [Close]) == Count(inner)
  {
    CountJoin([Open] + inner, [Close]);
    CountJoin([Open], inner);
    assert Front([Close]) == [] && Front([Open]) == [];
    assert Count([Close]) == 0 && Count([Open]) == 0;
  }

  /** A closed scope hides what it declares. */
  lemma ScopeSkipped(before: seq<Event>, inner: seq<Event>, bound: seq<Bound>, more: seq<Bound>, name: string, skip: nat, here: bool)
    requires Passed(inner) && |more| == Count(inner)
    ensures Seen(before + ([Open] + inner + [Close]), bound + more, name, skip, here) == Seen(before, bound, name, skip, here)
  {
    var events := before + ([Open] + inner + [Close]);
    assert Front(events) == before + [Open] + inner && events[|events| - 1] == Close;
    assert Unseen(inner, before + [Open], bound, more, name, skip, here);
    assert Seen(before + [Open] + inner, bound + more, name, skip + 1, here) == Seen(before + [Open], bound, name, skip + 1, here);
    assert Front(before + [Open]) == before;
  }

  lemma {:induction false} UsesPassed(uses: seq<Usage>)
    ensures Passed(UseEvents(uses))
    decreases |uses|
  {
    hide Passed;
    if uses == [] {
      NothingPassed();
    } else {
      UsesPassed(uses[..|uses| - 1]);
      OnePassed(Mentions(uses[|uses| - 1]));
      BothPassed(UseEvents(uses[..|uses| - 1]), [Mentions(uses[|uses| - 1])]);
    }
  }

  lemma {:induction false} ParamsPassed(params: seq<string>)
    ensures Passed(ParamEvents(params))
    decreases |params|
  {
    hide Passed;
    if params == [] {
      NothingPassed();
    } else {
      ParamsPassed(params[..|params| - 1]);
      OnePassed(Declares(params[|params| - 1], NoLinkage, false));
      BothPassed(ParamEvents(params[..|params| - 1]), [Declares(params[|params| - 1], NoLinkage, false)]);
    }
  }

  lemma {:induction false} BlockPassed(body: Items)
    ensures Passed(BlockEvents(body))
    decreases body, 2
  {
    hide Passed, ItemsEvents;
    ItemsPassed(body);
    ScopePassed(ItemsEvents(body));
  }

  lemma {:induction false} FunctionPassed(name: string, params: seq<string>, isDefinition: bool, body: Items)
    ensures Passed(FunctionEvents(name, params, isDefinition, body))
    decreases body, 3
  {
    hide Passed, ItemsEvents, ParamEvents;
    var inner := ParamEvents(params) + if isDefinition then ItemsEvents(body) else [];
    InnerPassed(params, isDefinition, body);
    ScopePassed(inner);
    OnePassed(Declares(name, NoLinkage, false));
    BothPassed([Declares(name, NoLinkage, false)], [Open] + inner + [Close]);
    FunctionShape(name, params, isDefinition, body);
  }

  lemma {:induction false} InnerPassed(params: seq<string>, isDefinition: bool, body: Items)
    ensures Passed(ParamEvents(params) + if isDefinition then ItemsEvents(body) else [])
    decreases body, 1
  {
    hide Passed, ItemsEvents, ParamEvents;
    ParamsPassed(params);
    if isDefinition {
      ItemsPassed(body);
      BothPassed(ParamEvents(params), ItemsEvents(body));
    } else {
      NothingPassed();
      BothPassed(ParamEvents(params), []);
    }
  }

  lemma FunctionShape(name: string, params: seq<string>, isDefinition: bool, body: Items)
    ensures var inner := ParamEvents(params) + if isDefinition then ItemsEvents(body) else [];
            FunctionEvents(name, params, isDefinition, body) == [Declares(name, NoLinkage, false)] + ([Open] + inner + [Close])
  {
    hide ItemsEvents, ParamEvents;
  }

  lemma {:induction false} ItemPassed(item: Item)
    ensures Passed(ItemEvents(item))
    decreases item, 4
  {
    hide Passed, UseEvents, BlockEvents, FunctionEvents;
    match item
    case Expression(uses) => UsesPassed(uses);
    case Declaration(name, isExtern, init) =>
      OnePassed(Declares(name, if isExtern then External else NoLinkage, true));
      UsesPassed(init);
      BothPassed([Declares(name, if isExtern then External else NoLinkage, true)], UseEvents(init));
    case Block(body) => BlockPassed(body);
    case IfElse(condition, thenPart, elsePart) =>
      UsesPassed(condition);
      BlockPassed(thenPart);
      BlockPassed(elsePart);
      BothPassed(UseEvents(condition), BlockEvents(thenPart));
      BothPassed(UseEvents(condition) + BlockEvents(thenPart), BlockEvents(elsePart));
    case Loop(precond, postcond, incr, body) =>
      UsesPassed(precond + postcond + incr);
      BlockPassed(body);
      BothPassed(UseEvents(precond + postcond + incr), BlockEvents(body));
    case Switch(control, body) =>
      UsesPassed(control);
      BlockPassed(body);
      BothPassed(UseEvents(control), BlockEvents(body));
    case Function(name, params, isDefinition, body) => FunctionPassed(name, params, isDefinition, body);
  }

  lemma {:induction false} ItemsPassed(items: Items)
    ensures Passed(ItemsEvents(items))
    decreases items, 0
  {
    hide Passed, ItemEvents;
    match items
    case NoItems => NothingPassed();
    case MoreItems(item, rest) =>
      ItemPassed(item);
      ItemsPassed(rest);
      BothPassed(ItemEvents(item), ItemsEvents(rest));
  }

  /** Leaving a scope brings back the table of the outer one. */
  lemma CloseTraced(outer: Table, r: Resolved, before: seq<Event>, inner: seq<Event>, bound: seq<Bound>)
    requires Represents(outer, before, bound) && Passed(inner) && Count(inner) == |r.bound|
    requires Represents(r.table, before + [Open] + inner, bound + r.bound) && AllRight(before + [Open] + inner, bound + r.bound)
    ensures var events := before + ([Open] + inner + [Close]);
            AllRight(events, bound + r.bound) && Represents(Table(outer.scopes, r.table.next), events, bound + r.bound)
  {
    hide Seen, Passed, Visible, Right, Count;
    var events := before + ([Open] + inner + [Close]);
    assert Front(events) == before + [Open] + inner && events[|events| - 1] == Close;
    forall name, here ensures Seen(events, bound + r.bound, name, 0, here) == Seen(before, bound, name, 0, here) {
      ScopeSkipped(before, inner, bound, r.bound, name, 0, here);
    }
  }

  lemma BoundCount(r: Resolved, before: seq<Event>, inner: seq<Event>, bound: seq<Bound>)
    requires AllRight(before, bound) && AllRight(before + [Open] + inner, bound + r.bound)
    ensures |r.bound| == Count(inner)
  {
    hide AllRight;
    RightCount(before, bound);
    RightCount(before + [Open] + inner, bound + r.bound);
    CountJoin(before + [Open], inner);
    CountJoin(before, [Open]);
    assert Front([Open]) == [] && Count([Open]) == 0;
  }

  // ------------------------------------------------------------------ the tree

  lemma {:induction false} BlockTraced(body: Items, t: Table, before: seq<Event>, bound: seq<Bound>)
    requires Represents(t, before, bound) && AllRight(before, bound)
    ensures Traced(ResolveBlock(body, t), before, BlockEvents(body), bound)
    decreases body, 2
  {
    hide AllRight, Represents, ResolveItems, ItemsEvents, Fails, Passed, Count;
    OpenTraced(t, before, bound);
    TablesExist(t, before, bound);
    ItemsTraced(body, Push(t), before + [Open], bound);
    var r, inner := ResolveItems(body, Push(t)), ItemsEvents(body);
    if r.Err? {
      FailsLonger(before + [Open] + inner, [Close], r.error);
      assert before + [Open] + inner + [Close] == before + BlockEvents(body);
    } else {
      ItemsPassed(body);
      BoundCount(r.value, before, inner, bound);
      CloseTraced(t, r.value, before, inner, bound);
    }
  }

  lemma TablesExist(t: Table, events: seq<Event>, bound: seq<Bound>)
    requires Represents(t, events, bound)
    ensures t.scopes != []
  {
  }

  lemma {:induction false} FunctionTraced(t: Table, name: string, params: seq<string>, isDefinition: bool, body: Items,
                                          before: seq<Event>, bound: seq<Bound>)
    requires Represents(t, before, bound) && AllRight(before, bound)
    ensures Traced(ResolveFunction(t, name, params, isDefinition, body), before, FunctionEvents(name, params, isDefinition, body), bound)
    decreases body, 3
  {
    hide AllRight, Represents, DeclareParams, Fails, Passed, Count, Within, ItemsEvents, ParamEvents;
    TablesExist(t, before, bound);
    var f, head := DeclareNew(t, name), [Declares(name, NoLinkage, false)];
    NewTraced(t, before, bound, name);
    InnerTraced(f.table, params, isDefinition, body, before + head, bound + f.bound);
    FunctionShape(name, params, isDefinition, body);
    var inner := ParamEvents(params) + if isDefinition then ItemsEvents(body) else [];
    var rest := InnerResult(f.table, params, isDefinition, body);
    ThenTraced(Ok(f), rest, before, head, [Open] + inner + [Close], bound);
    FunctionParts(t, name, params, isDefinition, body);
  }

  /** The parameters and the body of a function, in a scope of their own. */
  function InnerResult(t: Table, params: seq<string>, isDefinition: bool, body: Items): Result<Resolved>
    requires t.scopes != []
  {
    var p := DeclareParams(Push(t), params);
    if isDefinition then Then(p.bound, Within(body, p.table, t)) else Ok(Resolved(p.bound, Table(t.scopes, p.table.next)))
  }

  lemma FunctionParts(t: Table, name: string, params: seq<string>, isDefinition: bool, body: Items)
    requires t.scopes != []
    ensures var f := DeclareNew(t, name);
            ResolveFunction(t, name, params, isDefinition, body) == Then(f.bound, InnerResult(f.table, params, isDefinition, body))
  {
    hide Within, DeclareParams;
    var f := DeclareNew(t, name);
    var p := DeclareParams(Push(f.table), params);
    if isDefinition && Within(body, p.table, f.table).Ok? {
      var b := Within(body, p.table, f.table).value.bound;
      assert f.bound + p.bound + b == f.bound + (p.bound + b);
    }
  }

  lemma {:induction false} InnerTraced(t: Table, params: seq<string>, isDefinition: bool, body: Items, before: seq<Event>, bound: seq<Bound>)
    requires Represents(t, before, bound) && AllRight(before, bound) && t.scopes != []
    ensures var inner := ParamEvents(params) + if isDefinition then ItemsEvents(body) else [];
            Traced(InnerResult(t, params, isDefinition, body), before, [Open] + inner + [Close], bound)
    decreases body, 2
  {
    hide AllRight, Represents, DeclareParams, Fails, Passed, Count, ResolveItems, ItemsEvents, ParamEvents;
    OpenTraced(t, before, bound);
    ParamsTraced(Push(t), before + [Open], bound, params);
    var p := DeclareParams(Push(t), params);
    var r := if isDefinition then ResolveItems(body, p.table) else Ok(Resolved([], p.table));
    var last := if isDefinition then ItemsEvents(body) else [];
    if isDefinition {
      ItemsTraced(body, p.table, before + [Open] + ParamEvents(params), bound + p.bound);
    } else {
      NothingTraced(p.table, before + [Open] + ParamEvents(params), bound + p.bound);
    }
    ThenTraced(Ok(p), r, before + [Open], ParamEvents(params), last, bound);
    var inner := ParamEvents(params) + last;
    if r.Err? {
      FailsLonger(before + [Open] + inner, [Close], r.error);
      assert before + [Open] + inner + [Close] == before + ([Open] + inner + [Close]);
    } else {
      var all := Resolved(p.bound + r.value.bound, r.value.table);
      InnerPassed(params, isDefinition, body);
      BoundCount(all, before, inner, bound);
      CloseTraced(t, all, before, inner, bound);
      assert p.bound + [] == p.bound;
    }
  }

  lemma NothingTraced(t: Table, before: seq<Event>, bound: seq<Bound>)
    requires Represents(t, before, bound) && AllRight(before, bound)
    ensures Traced(Ok(Resolved([], t)), before, [], bound)
  {
    hide AllRight, Represents;
    assert before + [] == before && bound + [] == bound;
  }

  lemma {:induction false} UsesThenBlockTraced(uses: seq<Usage>, body: Items, t: Table, before: seq<Event>, bound: seq<Bound>)
    requires Represents(t, before, bound) && AllRight(before, bound)
    ensures var c := AfterUses(uses, t);
            Traced(if c.Err? then c else Then(c.value.bound, ResolveBlock(body, t)), before, UseEvents(uses) + BlockEvents(body), bound)
    decreases body, 3
  {
    hide AllRight, Represents, ResolveBlock, BlockEvents, UseEvents, Fails, ResolveUses;
    UsesTraced(uses, t, before, bound);
    var c := AfterUses(uses, t);
    if c.Ok? {
      BlockTraced(body, t, before + UseEvents(uses), bound + c.value.bound);
    }
    ThenTraced(c, ResolveBlock(body, t), before, UseEvents(uses), BlockEvents(body), bound);
  }

  lemma {:induction false} ItemTraced(item: Item, t: Table, before: seq<Event>, bound: seq<Bound>)
    requires Represents(t, before, bound) && AllRight(before, bound) && t.scopes != []
    ensures Traced(ResolveItem(item, t), before, ItemEvents(item), bound)
    decreases item, 4
  {
    hide AllRight, Represents, ResolveBlock, ResolveFunction, ResolveDeclaration, BlockEvents, FunctionEvents, DeclarationEvents, UseEvents, Traced;
    match item
    case Expression(uses) => UsesTraced(uses, t, before, bound);
    case Declaration(name, isExtern, init) => DeclarationTraced(t, before, bound, name, isExtern, init, NoLinkage);
    case Block(body) => BlockTraced(body, t, before, bound);
    case IfElse(condition, thenPart, elsePart) => ArmsTraced(condition, thenPart, elsePart, t, before, bound);
    case Loop(precond, postcond, incr, body) => UsesThenBlockTraced(precond + postcond + incr, body, t, before, bound);
    case Switch(control, body) => UsesThenBlockTraced(control, body, t, before, bound);
    case Function(name, params, isDefinition, body) => FunctionTraced(t, name, params, isDefinition, body, before, bound);
  }

  lemma {:induction false} ArmsTraced(condition: seq<Usage>, thenPart: Items, elsePart: Items, t: Table, before: seq<Event>, bound: seq<Bound>)
    requires Represents(t, before, bound) && AllRight(before, bound) && t.scopes != []
    ensures Traced(ResolveItem(IfElse(condition, thenPart, elsePart), t), before,
                   UseEvents(condition) + BlockEvents(thenPart) + BlockEvents(elsePart), bound)
    decreases IfElse(condition, thenPart, elsePart), 3
  {
    hide AllRight, Represents, ResolveBlock, BlockEvents, UseEvents, Fails, ResolveUses;
    UsesThenBlockTraced(condition, thenPart, t, before, bound);
    var c := AfterUses(condition, t);
    var a := if c.Err? then c else Then(c.value.bound, ResolveBlock(thenPart, t));
    var events := UseEvents(condition) + BlockEvents(thenPart);
    if a.Ok? {
      BlockTraced(elsePart, a.value.table, before + events, bound + a.value.bound);
    }
    ThenTraced(a, if a.Ok? then ResolveBlock(elsePart, a.value.table) else a, before, events, BlockEvents(elsePart), bound);
  }

  lemma {:induction false} ItemsTraced(items: Items, t: Table, before: seq<Event>, bound: seq<Bound>)
    requires Represents(t, before, bound) && AllRight(before, bound) && t.scopes != []
    ensures Traced(ResolveItems(items, t), before, ItemsEvents(items), bound)
    decreases items, 0
  {
    hide AllRight, Represents, ResolveItem, ItemEvents, Fails;
    match items
    case NoItems => NothingTraced(t, before, bound);
    case MoreItems(item, rest) =>
      ItemTraced(item, t, before, bound);
      var first := ResolveItem(item, t);
      if first.Ok? {
        ItemsTraced(rest, first.value.table, before + ItemEvents(item), bound + first.value.bound);
      }
      ThenTraced(first, if first.Ok? then ResolveItems(rest, first.value.table) else first, before, ItemEvents(item), ItemsEvents(rest), bound);
  }

  lemma {:induction false} FileTraced(items: Items, t: Table, before: seq<Event>, bound: seq<Bound>)
    requires Represents(t, before, bound) && AllRight(before, bound) && t.scopes != [] && IsFile(items)
    ensures Traced(ResolveFile(items, t), before, FileEvents(items), bound)
    decreases items
  {
    hide AllRight, Represents, ResolveFunction, ResolveDeclaration, FunctionEvents, DeclarationEvents, Fails;
    match items
    case NoItems => NothingTraced(t, before, bound);
    case MoreItems(item, rest) =>
      var first, events;
      if item.Function? {
        FunctionTraced(t, item.name, item.params, item.isDefinition, item.body, before, bound);
        first := ResolveFunction(t, item.name, item.params, item.isDefinition, item.body);
        events := FunctionEvents(item.name, item.params, item.isDefinition, item.body);
      } else {
        DeclarationTraced(t, before, bound, item.name, item.isExtern, item.init, External);
        first := ResolveDeclaration(t, item.name, item.isExtern, item.init, External);
        events := DeclarationEvents(item.name, External, item.init);
      }
      if first.Ok? {
        FileTraced(rest, first.value.table, before + events, bound + first.value.bound);
      }
      ThenTraced(first, if first.Ok? then ResolveFile(rest, first.value.table) else first, before, events, FileEvents(rest), bound);
  }

  // -------------------------------------------------------- one verdict per text

  /** Entries that may differ in their numbers only. */
  predicate Alike(a: seq<Bound>, b: seq<Bound>) {
    |a| == |b| && forall i :: 0 <= i < |a| ==> a[i].entry.linkage == b[i].entry.linkage
  }

  function LinkageOf(e: Option<Entry>): Option<Linkage> {
    match e case None => None case Some(x) => Some(x.linkage)
  }

  lemma {:induction false} SeenAlike(events: seq<Event>, a: seq<Bound>, b: seq<Bound>, name: string, skip: nat, here: bool)
    requires Alike(a, b)
    ensures LinkageOf(Seen(events, a, name, skip, here)) == LinkageOf(Seen(events, b, name, skip, here))
    decreases |events|
  {
    if events == [] || (Binds(events[|events| - 1]) && a == []) {
      return;
    }
    var last, front := events[|events| - 1], Front(events);
    match last
    case Open => SeenAlike(front, a, b, name, if skip > 0 then skip - 1 else 0, here);
    case Close => SeenAlike(front, a, b, name, skip + 1, here);
    case Declares(_, _, _) => SeenAlike(front, Front(a), Front(b), name, skip, here);
    case Mentions(_) => SeenAlike(front, Front(a), Front(b), name, skip, here);
  }

  lemma OffenceAlike(e: Event, events: seq<Event>, a: seq<Bound>, b: seq<Bound>)
    requires Binds(e) && Alike(a, b)
    ensures Offence(e, events, a) == Offence(e, events, b)
  {
    hide Seen, Alike;
    var name, here := if e.Declares? then e.name else e.usage.name, e.Declares?;
    SeenAlike(events, a, b, name, 0, here);
    SeenAlike(events, a, b, name, 0, false);
  }

  lemma EntriesAlike(e: Event, x: Bound, y: Bound, events: seq<Event>, a: seq<Bound>, b: seq<Bound>)
    requires Binds(e) && Alike(a, b) && Right(e, x, events, a) && Right(e, y, events, b)
    ensures x.entry.linkage == y.entry.linkage
  {
    hide Seen, Offence, Alike;
    SeenAlike(events, a, b, if e.Declares? then e.name else e.usage.name, 0, false);
  }

  lemma {:induction false} RightAlike(events: seq<Event>, a: seq<Bound>, b: seq<Bound>)
    requires AllRight(events, a) && AllRight(events, b)
    ensures Alike(a, b)
    decreases |events|
  {
    hide Seen, Offence;
    if events != [] {
      var e := events[|events| - 1];
      if Binds(e) {
        RightAlike(Front(events), Front(a), Front(b));
        hide Right;
        EntriesAlike(e, a[|a| - 1], b[|b| - 1], Front(events), Front(a), Front(b));
        forall i | 0 <= i < |a| ensures a[i].entry.linkage == b[i].entry.linkage {
          if i < |a| - 1 {
            assert a[i] == Front(a)[i] && b[i] == Front(b)[i];
          }
        }
      } else {
        RightAlike(Front(events), a, b);
      }
    }
  }

  lemma {:induction false} RightSoFar(events: seq<Event>, bound: seq<Bound>, k: nat) returns (b: seq<Bound>)
    requires AllRight(events, bound) && k < |events| && Binds(events[k])
    ensures AllRight(events[..k], b) && Offence(events[k], events[..k], b).None?
    decreases |events|
  {
    hide Offence, Seen;
    if k == |events| - 1 {
      b := Front(bound);
    } else {
      assert Front(events)[..k] == events[..k];
      b := RightSoFar(Front(events), if Binds(events[|events| - 1]) then Front(bound) else bound, k);
    }
  }

  lemma {:induction false} RightNeverFails(events: seq<Event>, bound: seq<Bound>, error: ResolveError)
    requires AllRight(events, bound)
    ensures !Fails(events, error)
  {
    hide AllRight, Offence;
    if Fails(events, error) {
      var k: nat, other :| FailsAt(events, k, other, error);
      var mine := RightSoFar(events, bound, k);
      RightAlike(events[..k], mine, other);
      OffenceAlike(events[k], events[..k], mine, other);
      assert false;
    }
  }

  /** A file is accepted exactly when no declaration or use in it offends; then all of
      them have the numbers that are meant. Otherwise the error is that of the first one
      that does. */
  lemma FileMeaning(items: Items)
    requires IsFile(items)
    ensures ResolveFile(items, EMPTY).Ok? <==> exists bound :: AllRight(FileEvents(items), bound)
    ensures match ResolveFile(items, EMPTY)
            case Ok(r) => AllRight(FileEvents(items), r.bound)
            case Err(e) => Fails(FileEvents(items), e)
  {
    hide AllRight, Fails, ResolveFile, FileEvents;
    EmptyRepresented();
    FileTraced(items, EMPTY, [], []);
    assert [] + FileEvents(items) == FileEvents(items);
    var r := ResolveFile(items, EMPTY);
    if r.Ok? {
      assert [] + r.value.bound == r.value.bound;
      assert AllRight(FileEvents(items), r.value.bound);
    } else if exists bound :: AllRight(FileEvents(items), bound) {
      var bound :| AllRight(FileEvents(items), bound);
      RightNeverFails(FileEvents(items), bound, r.error);
      assert false;
    }
  }

  lemma EmptyRepresented()
    ensures Represents(EMPTY, [], []) && AllRight([], [])
  {
    forall name ensures Visible(EMPTY.scopes, name) == None {
      assert EMPTY.scopes[1..] == [];
      assert Visible([], name) == None;
    }
  }
}
