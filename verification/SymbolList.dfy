/** The symbol table as the compiler keeps it: one linked list of symbols, newest
    first, where a flag on a node marks the end of an inner scope. It refines the
    stack of scopes. */
module SymbolList {
  import opened Wrappers
  import opened Scopes

  datatype Named = Named(name: string, entry: Entry)

  datatype Cell = Cell(named: Named, delimiter: bool)

  /** One scope, newest symbol first. */
  type Names = seq<Named>

  /** There is always a file scope. */
  type Stack = s: seq<Names> | |s| > 0 witness [[]]

  function MapOf(names: Names): Scope {
    if names == [] then map[] else MapOf(names[1..])[names[0].name := names[0].entry]
  }

  function MapsOf(scopes: seq<Names>): (r: seq<Scope>)
    ensures |r| == |scopes|
  {
    seq(|scopes|, i requires 0 <= i < |scopes| => MapOf(scopes[i]))
  }

  function Plain(names: Names): (r: seq<Cell>)
    ensures |r| == |names|
  {
    seq(|names|, i requires 0 <= i < |names| => Cell(names[i], false))
  }

  function Marked(cells: seq<Cell>): (r: seq<Cell>)
    ensures |r| == |cells|
  {
    if cells == [] then [] else [Cell(cells[0].named, true)] + cells[1..]
  }

  /** The list for a stack of scopes: the newest symbol of each outer scope is
      marked. */
  function Cells(scopes: seq<Names>): seq<Cell> {
    if scopes == [] then []
    else Plain(scopes[0]) + if |scopes| == 1 then [] else Marked(Cells(scopes[1..]))
  }

  function Lookup(cells: seq<Cell>, name: string, stop: bool): Option<Entry> {
    if cells == [] || (stop && cells[0].delimiter) then None
    else if cells[0].named.name == name then Some(cells[0].named.entry)
    else Lookup(cells[1..], name, stop)
  }

  // ------------------------------------------------------ the list is the stack

  function InScope(s: Scope, name: string): Option<Entry> {
    if name in s then Some(s[name]) else None
  }

  lemma {:induction false} LookupSkips(names: Names, rest: seq<Cell>, name: string, stop: bool)
    ensures Lookup(Plain(names) + rest, name, stop) ==
            if name in MapOf(names) then Some(MapOf(names)[name]) else Lookup(rest, name, stop)
    decreases |names|
  {
    var all := Plain(names) + rest;
    if names == [] {
      assert all == rest;
    } else {
      assert all[1..] == Plain(names[1..]) + rest;
      LookupSkips(names[1..], rest, name, stop);
    }
  }

  /** Up to the first mark lies the innermost scope. */
  lemma LimitedIsInnermost(scopes: seq<Names>, name: string)
    requires scopes != []
    ensures Lookup(Cells(scopes), name, true) == InScope(MapOf(scopes[0]), name)
  {
    var rest := if |scopes| == 1 then [] else Marked(Cells(scopes[1..]));
    assert Lookup(rest, name, true) == None;
    LookupSkips(scopes[0], rest, name, true);
  }

  lemma MarksDoNotMatter(cells: seq<Cell>, name: string)
    ensures Lookup(Marked(cells), name, false) == Lookup(cells, name, false)
  {
    if cells != [] {
      assert Marked(cells)[1..] == cells[1..];
    }
  }

  /** The whole list is searched from the innermost scope outwards. */
  lemma {:induction false} AnywhereIsVisible(scopes: seq<Names>, name: string)
    ensures Lookup(Cells(scopes), name, false) == Visible(MapsOf(scopes), name)
    decreases |scopes|
  {
    if scopes != [] {
      var rest := if |scopes| == 1 then [] else Marked(Cells(scopes[1..]));
      LookupSkips(scopes[0], rest, name, false);
      assert MapsOf(scopes)[1..] == MapsOf(scopes[1..]);
      AnywhereIsVisible(scopes[1..], name);
      MarksDoNotMatter(Cells(scopes[1..]), name);
      assert |scopes| == 1 ==> Cells(scopes[1..]) == [];
    }
  }

  function WithNew(scopes: seq<Names>, n: Named): seq<Names>
    requires scopes != []
  {
    [[n] + scopes[0]] + scopes[1..]
  }

  lemma NewCell(scopes: seq<Names>, n: Named)
    requires scopes != []
    ensures WithNew(scopes, n) != [] && Cells(WithNew(scopes, n)) == [Cell(n, false)] + Cells(scopes)
  {
    hide Cells, Plain, Marked;
    var s := WithNew(scopes, n);
    assert s[1..] == scopes[1..] && s[0] == [n] + scopes[0] && |s| == |scopes|;
    CellsParts(s);
    CellsParts(scopes);
    OneMorePlain(n, scopes[0]);
    var p, rest := Plain(scopes[0]), if |scopes| == 1 then [] else Marked(Cells(scopes[1..]));
    assert ([Cell(n, false)] + p) + rest == [Cell(n, false)] + (p + rest);
  }

  lemma CellsParts(scopes: seq<Names>)
    requires scopes != []
    ensures Cells(scopes) == Plain(scopes[0]) + if |scopes| == 1 then [] else Marked(Cells(scopes[1..]))
  {
  }

  lemma OneMorePlain(n: Named, names: Names)
    ensures Plain([n] + names) == [Cell(n, false)] + Plain(names)
  {
  }

  lemma NewInMap(scopes: seq<Names>, n: Named)
    requires scopes != []
    ensures MapsOf(WithNew(scopes, n)) == [MapOf(scopes[0])[n.name := n.entry]] + MapsOf(scopes)[1..]
  {
    var s := WithNew(scopes, n);
    assert s[0][1..] == scopes[0];
    assert forall i :: 1 <= i < |s| ==> s[i] == scopes[i];
  }

  lemma EnteredCells(scopes: seq<Names>)
    requires scopes != []
    ensures Cells([[]] + scopes) == Marked(Cells(scopes))
    ensures MapsOf([[]] + scopes) == [map[]] + MapsOf(scopes)
  {
    var s: seq<Names> := [[]] + scopes;
    assert s[1..] == scopes && s[0] == [];
    EmptyInFront(s);
    var maps := [map[]] + MapsOf(scopes);
    forall i | 0 <= i < |s| ensures MapsOf(s)[i] == maps[i] {
      if i > 0 {
        assert s[i] == scopes[i - 1];
      }
    }
  }

  lemma EmptyInFront(s: seq<Names>)
    requires |s| > 1 && s[0] == []
    ensures Cells(s) == Marked(Cells(s[1..]))
  {
    var rest := Marked(Cells(s[1..]));
    hide Marked;
    assert Plain(s[0]) == [];
    assert Cells(s) == [] + rest;
  }

  /** The scopes have been extended in the innermost one only. */
  ghost predicate Extended(old_: seq<Names>, new_: seq<Names>) {
    && old_ != [] && |new_| == |old_| && new_[1..] == old_[1..]
    && |old_[0]| <= |new_[0]| && new_[0][|new_[0]| - |old_[0]|..] == old_[0]
  }

  lemma ExtendedCells(old_: seq<Names>, new_: seq<Names>)
    requires Extended(old_, new_)
    ensures var d := |new_[0]| - |old_[0]|; |Cells(new_)| == d + |Cells(old_)| && Cells(new_)[d..] == Cells(old_)
  {
    hide Cells, Marked;
    var d := |new_[0]| - |old_[0]|;
    CellsParts(old_);
    CellsParts(new_);
    assert Plain(new_[0])[d..] == Plain(old_[0]);
  }

  lemma ExtendedTwice(a: seq<Names>, b: seq<Names>, c: seq<Names>)
    requires Extended(a, b) && Extended(b, c)
    ensures Extended(a, c)
  {
    var d, e := |c[0]| - |b[0]|, |b[0]| - |a[0]|;
    assert c[0][d + e..] == c[0][d..][e..];
  }

  // --------------------------------------------------------------------- nodes

  class SymbolNode {
    const name: string
    var unique: int
    var linkage: Linkage
    var cookie: int
    var levelDelimiter: bool
    var next: SymbolNode?

    constructor (name: string, next: SymbolNode?)
      ensures this.name == name && unique == 0 && linkage == NoLinkage && cookie == 0 && !levelDelimiter && this.next == next
    {
      this.name, this.next := name, next;
      unique, linkage, cookie, levelDelimiter := 0, NoLinkage, 0, false;
    }

    predicate Carries(c: Cell)
      reads `unique, `linkage, `levelDelimiter
    {
      c == Cell(Named(name, Entry(unique, linkage)), levelDelimiter)
    }
  }

  ghost function NodeAt(nodes: seq<SymbolNode>, i: nat): SymbolNode? {
    if i < |nodes| then nodes[i] else null
  }

  ghost predicate Distinct(nodes: seq<SymbolNode>) {
    forall i, j :: 0 <= i < j < |nodes| ==> nodes[i] != nodes[j]
  }

  ghost predicate Linked(nodes: seq<SymbolNode>)
    reads nodes`next
  {
    forall i :: 0 <= i < |nodes| ==> nodes[i].next == NodeAt(nodes, i + 1)
  }

  ghost predicate Carry(nodes: seq<SymbolNode>, cells: seq<Cell>)
    reads nodes`unique, nodes`linkage, nodes`levelDelimiter
  {
    |nodes| == |cells| && forall i :: 0 <= i < |nodes| ==> nodes[i].Carries(cells[i])
  }

  /** The numbers lie below the next one. */
  ghost predicate Below(nodes: seq<SymbolNode>, next: int)
    reads nodes`unique
  {
    forall i :: 0 <= i < |nodes| ==> nodes[i].unique < next
  }

  /** The newest symbol knows the largest number so far. */
  ghost predicate Counts(head: SymbolNode?, next: int)
    reads head
  {
    if head == null then next == 0 else head.cookie == next - 1
  }

  lemma Suffix(nodes: seq<SymbolNode>, cells: seq<Cell>, next: int, k: nat)
    requires k <= |nodes| && Distinct(nodes) && Linked(nodes) && Carry(nodes, cells) && Below(nodes, next)
    ensures Distinct(nodes[k..]) && Linked(nodes[k..]) && Carry(nodes[k..], cells[k..]) && Below(nodes[k..], next)
  {
    var s := nodes[k..];
    forall i | 0 <= i < |s| ensures s[i].Carries(cells[k..][i]) {
      assert nodes[i + k].Carries(cells[i + k]);
    }
    forall i | 0 <= i < |s| ensures s[i].next == NodeAt(s, i + 1) {
      assert s[i] == nodes[i + k];
    }
  }

  lemma Prefixed(node: SymbolNode, nodes: seq<SymbolNode>, cell: Cell, cells: seq<Cell>, next: int)
    requires Distinct(nodes) && Linked(nodes) && Carry(nodes, cells) && Below(nodes, next)
    requires node !in nodes && node.next == NodeAt(nodes, 0) && node.Carries(cell) && node.unique < next
    ensures var s := [node] + nodes; Distinct(s) && Linked(s) && Carry(s, [cell] + cells) && Below(s, next) && NodeAt(s, 0) == node
  {
    var s := [node] + nodes;
    forall i | 0 <= i < |s| ensures s[i].Carries(([cell] + cells)[i]) && s[i].next == NodeAt(s, i + 1) && s[i].unique < next {
      if i > 0 {
        assert s[i] == nodes[i - 1] && nodes[i - 1].Carries(cells[i - 1]);
        assert nodes[i - 1].next == NodeAt(nodes, i) == NodeAt(s, i + 1);
      }
    }
  }

  lemma FirstNode(nodes: seq<SymbolNode>)
    ensures NodeAt(nodes, 0) == null <==> nodes == []
    ensures nodes != [] ==> NodeAt(nodes, 0) == nodes[0]
  {
  }

  lemma OldestKnown(nodes: seq<SymbolNode>, next: int)
    requires Below(nodes, next)
    ensures nodes != [] ==> nodes[0].unique < next
  {
  }

  lemma BelowMore(nodes: seq<SymbolNode>, next: int, more: int)
    requires Below(nodes, next) && next <= more
    ensures Below(nodes, more)
  {
  }

  function Max(a: int, b: int): int {
    if a > b then a else b
  }

  /** The table once the scope of a block has begun. */
  lemma EnteredTable(outer: seq<Names>, next: int, enter: bool)
    requires outer != []
    ensures var inner := (if enter then [[]] else []) + outer;
            && Table(MapsOf(inner), next) == (if enter then Push(Table(MapsOf(outer), next)) else Table(MapsOf(outer), next))
            && (if enter then inner[1..] == outer else inner == outer)
  {
    hide MapsOf;
    EnteredCells(outer);
    assert [] + outer == outer;
  }

  lemma BlockMeans(items: Items, t0: Table, t: Table, enter: bool)
    requires t0.scopes != [] && t == if enter then Push(t0) else t0
    ensures (if enter then Scopes.ResolveBlock(items, t0) else Within(items, t0, t0)) ==
            var r := ResolveItems(items, t);
            if r.Err? then r else Ok(Resolved(r.value.bound, Table(t0.scopes, r.value.table.next)))
  {
    hide ResolveItems;
  }

  class Resolver {
    var head: SymbolNode?
    ghost var nodes: seq<SymbolNode>
    ghost var scopes: Stack
    ghost var next: int
    ghost var repr: set<SymbolNode>

    ghost predicate Valid()
      reads this, repr
    {
      && scopes != [] && (forall i :: 0 <= i < |nodes| ==> nodes[i] in repr)
      && Distinct(nodes) && Linked(nodes) && head == NodeAt(nodes, 0)
      && Carry(nodes, Cells(scopes)) && Below(nodes, next) && Counts(head, next)
    }

    ghost function Contents(): Table
      reads this
    {
      Table(MapsOf(scopes), next)
    }

    constructor ()
      ensures Valid() && Contents() == EMPTY && scopes == [[]] && fresh(repr)
    {
      head, nodes, scopes, next, repr := null, [], [[]], 0, {};
    }

    // ------------------------------------------------------------ symbol.c

    method Prepend(name: string)
      requires Valid()
      modifies this
      ensures Valid() && head != null && fresh(head) && nodes == [head] + old(nodes) && repr == old(repr) + {head}
      ensures scopes == WithNew(old(scopes), Named(name, Entry(old(next), NoLinkage)))
      ensures next == old(next) + 1
    {
      hide Cells, Distinct, Linked, Carry, Below, WithNew, NodeAt, SymbolNode.Carries, Lookup, MapsOf;
      ghost var named := Named(name, Entry(next, NoLinkage));
      NewCell(scopes, named);
      OldestKnown(nodes, next);
      FirstNode(nodes);
      var node := new SymbolNode(name, head);
      if head != null {
        var base := Max(head.unique, head.cookie);
        node.unique := base + 1;
        node.cookie := Max(node.unique, head.cookie);
      }
      head := node;
      BelowMore(nodes, next, next + 1);
      Prefixed(node, nodes, Cell(named, false), Cells(scopes), next + 1);
      nodes := [node] + nodes;
      scopes := WithNew(scopes, named);
      next := next + 1;
      repr := repr + {node};
    }

    method GetImpl(name: string, stopAtDelimiter: bool) returns (found: SymbolNode?)
      requires Valid()
      ensures found == null <==> Lookup(Cells(scopes), name, stopAtDelimiter).None?
      ensures found != null ==> Lookup(Cells(scopes), name, stopAtDelimiter) == Some(Entry(found.unique, found.linkage)) && found in repr
      ensures found != null ==> found.name == name && found.unique < next
    {
      hide Cells;
      ghost var cells := Cells(scopes);
      ghost var i: nat := 0;
      found := head;
      while found != null
        invariant i <= |nodes| && found == NodeAt(nodes, i)
        invariant Lookup(cells, name, stopAtDelimiter) == Lookup(cells[i..], name, stopAtDelimiter)
        decreases |nodes| - i
      {
        assert found.Carries(cells[i]) && cells[i..][0] == cells[i];
        assert cells[i..][1..] == cells[i + 1..];
        if stopAtDelimiter && found.levelDelimiter {
          return null;
        }
        if found.name == name {
          return found;
        }
        found := found.next;
        i := i + 1;
      }
    }

    method GetLimited(name: string) returns (found: SymbolNode?)
      requires Valid()
      ensures found == null <==> name !in Contents().scopes[0]
      ensures found != null ==> Contents().scopes[0][name] == Entry(found.unique, found.linkage)
      ensures found != null ==> found in repr && found.name == name
    {
      hide Cells, MapOf;
      LimitedIsInnermost(scopes, name);
      found := GetImpl(name, true);
    }

    method GetAnywhere(name: string) returns (found: SymbolNode?)
      requires Valid()
      ensures found == null <==> Visible(Contents().scopes, name).None?
      ensures found != null ==> Visible(Contents().scopes, name) == Some(Entry(found.unique, found.linkage))
      ensures found != null ==> found in repr && found.unique < next && found.name == name
    {
      hide Cells, MapOf;
      AnywhereIsVisible(scopes, name);
      found := GetImpl(name, false);
    }

    /** Drops the symbols before a node; the count of numbers moves to it. */
    method ResetScope(resetPoint: SymbolNode, ghost k: nat, ghost outer: seq<Names>)
      requires Valid() && k < |nodes| && nodes[k] == resetPoint
      requires outer != [] && Cells(outer) == Cells(scopes)[k..]
      modifies this, resetPoint`cookie
      ensures Valid() && head == resetPoint && nodes == old(nodes)[k..] && scopes == outer && next == old(next) && repr == old(repr)
    {
      hide Cells, Distinct, Linked, Carry, Below;
      Suffix(nodes, Cells(scopes), next, k);
      resetPoint.cookie := head.cookie;
      head := resetPoint;
      nodes := nodes[k..];
      scopes := outer;
    }

    // ----------------------------------------------------------- resolve.c

    /** Replaces the number and the linkage of the newest symbol. */
    method SetHead(unique: int, linkage: Linkage, ghost before: seq<Names>)
      requires Valid() && head != null && unique < next && before != []
      requires scopes == WithNew(before, Named(head.name, Entry(head.unique, head.linkage)))
      modifies this, head
      ensures Valid() && head == old(head) && nodes == old(nodes) && next == old(next) && repr == old(repr)
      ensures scopes == WithNew(before, Named(head.name, Entry(unique, linkage)))
      ensures head.unique == unique && head.linkage == linkage
    {
      hide Cells, Distinct, Linked, Carry, Below;
      ghost var named := Named(head.name, Entry(unique, linkage));
      NewCell(before, Named(head.name, Entry(head.unique, head.linkage)));
      NewCell(before, named);
      ghost var tail, cells := nodes[1..], Cells(before);
      Suffix(nodes, Cells(scopes), next, 1);
      assert Cells(scopes)[1..] == cells && nodes == [head] + tail;
      HeadParts(nodes, Cells(scopes));
      TailApart(nodes);
      head.unique := unique;
      head.linkage := linkage;
      Prefixed(head, tail, Cell(named, false), cells, next);
      scopes := WithNew(before, named);
    }

    twostate predicate Matches(new r: Result<seq<Bound>>, new spec: Result<Resolved>)
      reads this
    {
      match r
      case Ok(bound) => spec.Ok? && bound == spec.value.bound && Contents() == spec.value.table
      case Err(e) => spec == Err(e)
    }

    twostate predicate Grown()
      reads this
    {
      Growth(old(nodes), old(scopes), nodes, scopes) && repr >= old(repr) && fresh(repr - old(repr))
    }

    method ResolveUse(u: Usage) returns (r: Result<Bound>)
      requires Valid()
      ensures ResolveOne(u, Contents()) == r
    {
      var resolved := GetAnywhere(u.name);
      if resolved == null {
        return Err(if u.isCall then FunctionUndeclared(u.name) else VariableUndeclared(u.name));
      }
      return Ok(Bound(u.name, Entry(resolved.unique, resolved.linkage), Use));
    }

    method ResolveExpr(uses: seq<Usage>) returns (r: Result<seq<Bound>>)
      requires Valid()
      ensures r == ResolveUses(uses, Contents())
    {
      hide Valid, Contents;
      var bound: seq<Bound> := [];
      for i := 0 to |uses|
        invariant ResolveUses(uses[..i], Contents()) == Ok(bound)
      {
        var one := ResolveUse(uses[i]);
        UsesStep(uses, i, Contents());
        if one.Err? {
          UsesFail(uses, i + 1, Contents());
          return Err(one.error);
        }
        bound := bound + [one.value];
      }
      assert uses[..|uses|] == uses;
      return Ok(bound);
    }

    /** A symbol for a name that the innermost scope does not have; what an external
        name stands for already is taken over. */
    method NewSymbol(name: string, linkage: Linkage) returns (bound: Bound)
      requires Valid() && Contents().scopes != [] && name !in Contents().scopes[0]
      modifies this
      ensures Valid() && Grown() && Declare(old(Contents()), name, linkage) == Ok(Resolved([bound], Contents()))
    {
      hide Valid, Cells, MapOf;
      ghost var before := scopes;
      ScopesExist();
      var anywhere := GetAnywhere(name);
      Prepend(name);
      HeadNumber();
      SetHead(head.unique, linkage, before);
      var origin := Fresh;
      if linkage.External? && anywhere != null && !anywhere.linkage.NoLinkage? {
        SetHead(anywhere.unique, anywhere.linkage, before);
        origin := Again;
      }
      bound := Bound(name, Entry(head.unique, head.linkage), origin);
      NewInMap(before, Named(name, bound.entry));
      NewExtends(before, Named(name, bound.entry));
    }

    method ResolveDeclaration(name: string, isExtern: bool, init: seq<Usage>, assumed: Linkage) returns (r: Result<seq<Bound>>)
      requires Valid()
      modifies this, repr
      ensures r.Ok? ==> Valid() && Grown()
      ensures Matches(r, Scopes.ResolveDeclaration(old(Contents()), name, isExtern, init, assumed))
    {
      hide Valid, Cells, MapOf;
      ghost var before, t := scopes, Contents();
      ScopesExist();
      var linkage := MaxLinkage(assumed, if isExtern then External else NoLinkage);
      var inScope := GetLimited(name);
      if inScope != null && !(inScope.linkage.External? && linkage.External?) {
        return Err(Duplicate(inScope.name));
      }
      var bound: Bound;
      if inScope != null {
        bound := Bound(name, Entry(inScope.unique, inScope.linkage), Again);
        StaysExtended(scopes);
      } else {
        bound := NewSymbol(name, linkage);
      }
      assert Declare(t, name, linkage) == Ok(Resolved([bound], Contents()));
      var uses := ResolveExpr(init);
      if uses.Err? {
        return Err(uses.error);
      }
      return Ok([bound] + uses.value);
    }

    /** Marks the end of the scopes so far, unless it is marked already; a new scope
        begins. */
    method PrepareDelimiter(point: SymbolNode, ghost enter: bool) returns (cleanup: bool)
      requires Valid() && head != null
      requires if enter then point == head else point.levelDelimiter
      modifies this, point`levelDelimiter
      ensures Valid() && nodes == old(nodes) && next == old(next) && repr == old(repr) && head == old(head)
      ensures scopes == (if enter then [[]] else []) + old(scopes)
      ensures cleanup <==> !old(point.levelDelimiter)
    {
      hide Cells, Linked, Below;
      EnteredCells(scopes);
      ghost var cells := Cells(scopes);
      CarriedNames(nodes, cells);
      if !point.levelDelimiter {
        cleanup := true;
        point.levelDelimiter := true;
      } else {
        cleanup := false;
      }
      if enter {
        MarkedHead(nodes, cells);
        scopes := [[]] + scopes;
      } else {
        assert [] + scopes == scopes;
      }
    }

    /** Leaves an empty scope, when there is one to leave. */
    method CleanUp(point: SymbolNode, cleanup: bool, ghost leave: bool)
      requires Valid()
      requires leave ==> head == point && |scopes| > 1 && scopes[0] == [] && (cleanup <==> !DelimiterOf(scopes[1..]))
      requires !leave ==> !cleanup
      modifies this, point`levelDelimiter
      ensures Valid() && nodes == old(nodes) && next == old(next) && repr == old(repr) && head == old(head)
      ensures scopes == if leave then old(scopes)[1..] else old(scopes)
    {
      hide Cells, Linked, Below;
      ghost var cells := Cells(scopes[1..]);
      if leave {
        assert scopes == [[]] + scopes[1..];
        EnteredCells(scopes[1..]);
        CarriedNames(nodes, Cells(scopes));
      }
      if cleanup {
        point.levelDelimiter := false;
      }
      if leave {
        UnmarkedHead(nodes, cells);
        scopes := scopes[1..];
      }
    }

    method ResolveBlock(items: Items) returns (r: Result<seq<Bound>>)
      requires Valid() && head != null
      modifies this, repr
      ensures r.Ok? ==> Valid() && Restored()
      ensures Matches(r, Scopes.ResolveBlock(items, old(Contents())))
      decreases items, 3
    {
      r := ResolveBlockWithDelimiter(items, head, true);
    }

    /** Everything is as before, except that numbers have been used up. */
    twostate predicate Restored()
      reads this
    {
      && nodes == old(nodes) && scopes == old(scopes) && head == old(head)
      && repr >= old(repr) && fresh(repr - old(repr))
    }

    /** The point ends the scope around the items: a new scope begins at the newest
        symbol, or it has begun already. */
    method ResolveBlockWithDelimiter(items: Items, point: SymbolNode, ghost enter: bool) returns (r: Result<seq<Bound>>)
      requires Valid() && head != null
      requires if enter then point == head else point in nodes && point.levelDelimiter
      modifies this, repr
      ensures r.Ok? ==> Valid() && Restored()
      ensures Matches(r, if enter then Scopes.ResolveBlock(items, old(Contents())) else Within(items, old(Contents()), old(Contents())))
      decreases items, 2
    {
      hide Valid, Cells, MapOf, MapsOf, ResolveItems, Growth, DelimiterOf, Marked, Within, Scopes.ResolveBlock, Push;
      ghost var t0, outer, wasNodes := Contents(), scopes, nodes;
      ScopesExist();
      PointFlag(point, enter);
      var cleanup := PrepareDelimiter(point, enter);
      var outerResetter := head;
      ghost var inner, t := scopes, Contents();
      EnteredTable(outer, next, enter);
      ScopesExist();
      BlockMeans(items, t0, t, enter);
      r := ResolveList(items);
      if r.Err? {
        return;
      }
      GrowthParts(wasNodes, inner, nodes, scopes);
      ListLength();
      ResetScope(outerResetter, |nodes| - |wasNodes|, inner);
      CleanUp(point, cleanup, enter);
    }

    /** The loop over the items of a block. */
    method ResolveList(items: Items) returns (r: Result<seq<Bound>>)
      requires Valid() && head != null
      modifies this, repr
      ensures r.Ok? ==> Valid() && Grown()
      ensures Matches(r, ResolveItems(items, old(Contents())))
      decreases items, 1
    {
      hide Valid, Cells, MapOf, Growth, ResolveItem;
      var a := items;
      var bound: seq<Bound> := [];
      ScopesExist();
      NoGrowth(nodes, scopes);
      ThenNothing(ResolveItems(items, Contents()));
      while a.MoreItems?
        invariant a == items || a < items
        invariant Valid() && head != null && Grown() && Contents().scopes != []
        invariant Then(bound, ResolveItems(a, Contents())) == ResolveItems(items, old(Contents()))
        decreases a
      {
        ghost var mid, midNodes, t := scopes, nodes, Contents();
        ScopesExist();
        var one := ResolveOneItem(a.item);
        if one.Err? {
          return Err(one.error);
        }
        GrowthTwice(old(nodes), old(scopes), midNodes, mid, nodes, scopes);
        ScopesExist();
        StillNodes(midNodes, mid, nodes, scopes);
        assert ResolveItems(a, t) == Then(one.value, ResolveItems(a.rest, Contents()));
        ThenTwice(bound, one.value, ResolveItems(a.rest, Contents()));
        bound := bound + one.value;
        a := a.rest;
      }
      assert ResolveItems(a, Contents()) == Ok(Resolved([], Contents()));
      assert bound + [] == bound;
      return Ok(bound);
    }

    method ResolveOneItem(item: Item) returns (r: Result<seq<Bound>>)
      requires Valid() && head != null
      modifies this, repr
      ensures r.Ok? ==> Valid() && Grown()
      ensures Matches(r, ResolveItem(item, old(Contents())))
      decreases item, 5
    {
      hide Valid, Cells, MapOf, Growth;
      hide Scopes.ResolveDeclaration, Scopes.ResolveFunction, Scopes.ResolveBlock;
      ScopesExist();
      match item {
        case Function(name, params, isDefinition, body) =>
          r := ResolveFunction(name, params, isDefinition, body);
        case Declaration(name, isExtern, init) =>
          r := ResolveDeclaration(name, isExtern, init, NoLinkage);
        case Block(body) =>
          var resetter := head;
          NoGrowth(nodes, scopes);
          r := ResolveBlock(body);
          if r.Ok? {
            assert Cells(scopes) == Cells(scopes)[0..] && nodes == nodes[0..];
            ScopesExist();
            ListLength();
            ResetScope(resetter, 0, scopes);
          }
        case _ =>
          NoGrowth(nodes, scopes);
          r := ResolveStatement(item);
      }
    }

    /** What is not a declaration: expressions and the parts of statements. */
    method ResolveStatement(item: Item) returns (r: Result<seq<Bound>>)
      requires Valid() && head != null
      requires item.Expression? || item.IfElse? || item.Loop? || item.Switch?
      modifies this, repr
      ensures r.Ok? ==> Valid() && Restored()
      ensures Matches(r, ResolveItem(item, old(Contents())))
      decreases item, 4
    {
      hide Valid, Cells, MapOf, Scopes.ResolveBlock;
      ScopesExist();
      ghost var t := Contents();
      match item {
        case Expression(uses) =>
          r := ResolveExpr(uses);
        case IfElse(condition, thenPart, elsePart) =>
          var c := ResolveExpr(condition);
          if c.Err? {
            return c;
          }
          var a := ResolveBlock(thenPart);
          if a.Err? {
            return a;
          }
          var b := ResolveBlock(elsePart);
          if b.Err? {
            return b;
          }
          r := Ok(c.value + a.value + b.value);
        case Loop(precond, postcond, incr, body) =>
          var all := precond + postcond + incr;
          var c := ResolveExpr(all);
          if c.Err? {
            return c;
          }
          var a := ResolveBlock(body);
          r := if a.Err? then a else Ok(c.value + a.value);
        case Switch(control, body) =>
          var c := ResolveExpr(control);
          if c.Err? {
            return c;
          }
          var a := ResolveBlock(body);
          r := if a.Err? then a else Ok(c.value + a.value);
      }
    }

    method ResolveFunction(name: string, params: seq<string>, isDefinition: bool, body: Items) returns (r: Result<seq<Bound>>)
      requires Valid()
      modifies this, repr
      ensures r.Ok? ==> Valid() && Grown()
      ensures Matches(r, Scopes.ResolveFunction(old(Contents()), name, params, isDefinition, body))
      decreases body, 4
    {
      hide Valid, Cells, MapOf, Growth, ResolveItems, DeclareParams;
      ghost var before, t := scopes, Contents();
      ScopesExist();
      Prepend(name);
      HeadNumber();
      var f := [Bound(name, Entry(head.unique, head.linkage), Fresh)];
      NewInMap(before, Named(name, f[0].entry));
      ghost var outer, outerNodes, t1 := scopes, nodes, Contents();
      assert Resolved(f, t1) == DeclareNew(t, name);
      PrependGrows(before, old(nodes), Named(name, f[0].entry), head);
      var beforeParams := head;
      PointFlag(beforeParams, true);
      var cleanup := PrepareDelimiter(beforeParams, true);
      EnteredCells(outer);
      assert Contents() == Push(t1);
      var p := ResolveParams(params);
      var bound := f + p;
      if isDefinition {
        EndOfParams(beforeParams, outerNodes, outer);
        var b := ResolveBlockWithDelimiter(body, beforeParams, false);
        if b.Err? {
          return b;
        }
        bound := bound + b.value;
      }
      GrowthParts(outerNodes, [[]] + outer, nodes, scopes);
      ListLength();
      ResetScope(beforeParams, |nodes| - |outerNodes|, [[]] + outer);
      assert scopes[1..] == outer;
      CleanUp(beforeParams, cleanup, true);
      return Ok(bound);
    }

    /** All of a file; the largest number is handed on when there are symbols. */
    method ResolveProgram(items: Items, generator: int) returns (r: Result<seq<Bound>>, largest: int)
      requires Valid() && IsFile(items)
      modifies this, repr
      ensures r.Ok? ==> Valid() && largest == if head == null then generator else next - 1
      ensures Matches(r, ResolveFile(items, old(Contents())))
    {
      hide Valid, Cells, MapOf, Growth, Scopes.ResolveFunction, Scopes.ResolveDeclaration;
      var a := items;
      var bound: seq<Bound> := [];
      largest := generator;
      ThenNothing(ResolveFile(items, Contents()));
      while a.MoreItems?
        invariant a == items || a < items
        invariant Valid() && fresh(repr - old(repr)) && IsFile(a)
        invariant Then(bound, ResolveFile(a, Contents())) == ResolveFile(items, old(Contents()))
        decreases a
      {
        ghost var t := Contents();
        var one;
        if a.item.Function? {
          one := ResolveFunction(a.item.name, a.item.params, a.item.isDefinition, a.item.body);
        } else {
          one := ResolveDeclaration(a.item.name, a.item.isExtern, a.item.init, External);
        }
        if one.Err? {
          return Err(one.error), generator;
        }
        assert ResolveFile(a, t) == Then(one.value, ResolveFile(a.rest, Contents()));
        ThenTwice(bound, one.value, ResolveFile(a.rest, Contents()));
        bound := bound + one.value;
        a := a.rest;
      }
      assert ResolveFile(a, Contents()) == Ok(Resolved([], Contents()));
      assert bound + [] == bound;
      if head != null {
        HeadCounts();
        largest := head.cookie;
      }
      return Ok(bound), largest;
    }

    lemma HeadCounts()
      requires Valid() && head != null
      ensures head.cookie == next - 1
    {
    }

    method ResolveParams(params: seq<string>) returns (bound: seq<Bound>)
      requires Valid() && head != null
      modifies this
      ensures Valid() && Grown() && head != null
      ensures Resolved(bound, Contents()) == DeclareParams(old(Contents()), params)
    {
      hide Valid, Cells, MapOf, Growth, DeclareParams;
      bound := [];
      ScopesExist();
      NoGrowth(nodes, scopes);
      ParamsFrom(params, 0, Contents());
      for i := 0 to |params|
        invariant Valid() && head != null && Grown()
        invariant Resolved(bound, Contents()) == DeclareParams(old(Contents()), params[..i])
      {
        ghost var before, beforeNodes := scopes, nodes;
        ScopesExist();
        Prepend(params[i]);
        HeadNumber();
        ghost var named := Named(params[i], Entry(head.unique, head.linkage));
        NewInMap(before, named);
        PrependGrows(before, beforeNodes, named, head);
        GrowthTwice(old(nodes), old(scopes), beforeNodes, before, nodes, scopes);
        bound := bound + [Bound(params[i], Entry(head.unique, head.linkage), Fresh)];
        ParamsFrom(params, i + 1, old(Contents()));
      }
      assert params[..|params|] == params;
    }

    /** The function's own symbol ends the scope of its parameters. */
    lemma EndOfParams(point: SymbolNode, outerNodes: seq<SymbolNode>, outer: seq<Names>)
      requires Valid() && outer != [] && outerNodes != [] && outerNodes[0] == point
      requires Growth(outerNodes, [[]] + outer, nodes, scopes)
      ensures point in nodes && point.levelDelimiter
    {
      hide Cells;
      var d := |nodes| - |outerNodes|;
      assert nodes[d..][0] == nodes[d] == point;
      ExtendedCells([[]] + outer, scopes);
      EnteredCells(outer);
      assert Cells(scopes)[d..][0] == Cells(scopes)[d];
      assert point.Carries(Cells(scopes)[d]);
    }

    lemma ListLength()
      requires Valid()
      ensures |nodes| == |Cells(scopes)|
    {
    }

    lemma PointFlag(point: SymbolNode, enter: bool)
      requires Valid() && head != null && (enter ==> point == head)
      ensures enter ==> (point.levelDelimiter <==> DelimiterOf(scopes))
      ensures point in nodes ==> point in repr
    {
      assert head.Carries(Cells(scopes)[0]);
    }

    lemma ScopesExist()
      requires Valid()
      ensures scopes != [] && Contents().scopes != [] && head == NodeAt(nodes, 0) && forall n :: n in nodes ==> n in repr
    {
    }

    /** The newest symbol is the first cell of the list. */
    lemma HeadNumber()
      requires Valid() && head != null && scopes != [] && scopes[0] != []
      ensures scopes[0][0] == Named(head.name, Entry(head.unique, head.linkage)) && head.unique < next
    {
      assert head.Carries(Cells(scopes)[0]);
    }
  }

  ghost predicate DelimiterOf(scopes: seq<Names>)
  {
    Cells(scopes) != [] && Cells(scopes)[0].delimiter
  }

  /** The nodes carry the cells, whatever the flag of the first one. */
  ghost predicate CarryNames(nodes: seq<SymbolNode>, cells: seq<Cell>)
    reads nodes
  {
    && |nodes| == |cells|
    && (forall i :: 0 <= i < |nodes| ==> cells[i].named == Named(nodes[i].name, Entry(nodes[i].unique, nodes[i].linkage)))
    && (forall i :: 1 <= i < |nodes| ==> nodes[i].levelDelimiter == cells[i].delimiter)
  }

  lemma CarriedNames(nodes: seq<SymbolNode>, cells: seq<Cell>)
    requires Carry(nodes, cells)
    ensures CarryNames(nodes, cells)
    ensures nodes != [] ==> nodes[0].levelDelimiter == cells[0].delimiter
  {
    assert forall i :: 0 <= i < |nodes| ==> nodes[i].Carries(cells[i]);
  }

  lemma MarkedHead(nodes: seq<SymbolNode>, cells: seq<Cell>)
    requires CarryNames(nodes, cells) && nodes != [] && nodes[0].levelDelimiter
    ensures Carry(nodes, Marked(cells))
  {
  }

  lemma UnmarkedHead(nodes: seq<SymbolNode>, cells: seq<Cell>)
    requires CarryNames(nodes, Marked(cells)) && |nodes| == |cells| && nodes != [] && nodes[0].levelDelimiter == cells[0].delimiter
    ensures Carry(nodes, cells)
  {
  }

  /** Only the innermost scope has grown, by new nodes in front. */
  ghost predicate Growth(nodes0: seq<SymbolNode>, scopes0: seq<Names>, nodes1: seq<SymbolNode>, scopes1: seq<Names>) {
    && Extended(scopes0, scopes1) && |nodes1| - |nodes0| == |scopes1[0]| - |scopes0[0]|
    && |nodes1| >= |nodes0| && nodes1[|nodes1| - |nodes0|..] == nodes0
  }

  lemma GrowthTwice(n0: seq<SymbolNode>, s0: seq<Names>, n1: seq<SymbolNode>, s1: seq<Names>, n2: seq<SymbolNode>, s2: seq<Names>)
    requires Growth(n0, s0, n1, s1) && Growth(n1, s1, n2, s2)
    ensures Growth(n0, s0, n2, s2)
  {
    ExtendedTwice(s0, s1, s2);
    assert n2[|n2| - |n0|..] == n2[|n2| - |n1|..][|n1| - |n0|..];
  }

  lemma NoGrowth(nodes: seq<SymbolNode>, scopes: seq<Names>)
    requires scopes != []
    ensures Growth(nodes, scopes, nodes, scopes)
  {
  }

  lemma GrowthParts(n0: seq<SymbolNode>, s0: seq<Names>, n1: seq<SymbolNode>, s1: seq<Names>)
    requires Growth(n0, s0, n1, s1) && n0 != []
    ensures var k := |n1| - |n0|; k >= 0 && n1[k] == n0[0] && n1[k..] == n0 && |Cells(s1)| >= k && Cells(s1)[k..] == Cells(s0)
  {
    ExtendedCells(s0, s1);
    assert n1[|n1| - |n0|..][0] == n1[|n1| - |n0|];
  }

  lemma PrependGrows(scopes: seq<Names>, nodes: seq<SymbolNode>, n: Named, node: SymbolNode)
    requires scopes != []
    ensures Growth(nodes, scopes, [node] + nodes, WithNew(scopes, n))
  {
    NewExtends(scopes, n);
    assert ([node] + nodes)[1..] == nodes;
  }

  lemma ParamsFrom(params: seq<string>, i: nat, t: Table)
    requires i <= |params| && t.scopes != []
    ensures i == 0 ==> DeclareParams(t, params[..i]) == Resolved([], t)
    ensures i > 0 ==> var first := DeclareParams(t, params[..i - 1]);
                      var last := DeclareNew(first.table, params[i - 1]);
                      DeclareParams(t, params[..i]) == Resolved(first.bound + last.bound, last.table)
  {
    if i > 0 {
      assert params[..i][..i - 1] == params[..i - 1];
    }
  }

  lemma StillNodes(n0: seq<SymbolNode>, s0: seq<Names>, n1: seq<SymbolNode>, s1: seq<Names>)
    requires Growth(n0, s0, n1, s1) && n0 != []
    ensures n1 != []
  {
  }

  lemma ThenNothing(r: Result<Resolved>)
    ensures Then([], r) == r
  {
    if r.Ok? {
      assert [] + r.value.bound == r.value.bound;
    }
  }

  lemma ThenTwice(a: seq<Bound>, b: seq<Bound>, r: Result<Resolved>)
    ensures Then(a, Then(b, r)) == Then(a + b, r)
  {
    if r.Ok? {
      assert a + (b + r.value.bound) == a + b + r.value.bound;
    }
  }

  lemma StaysExtended(scopes: seq<Names>)
    requires scopes != []
    ensures Extended(scopes, scopes)
  {
  }

  lemma NewExtends(scopes: seq<Names>, n: Named)
    requires scopes != []
    ensures Extended(scopes, WithNew(scopes, n))
  {
  }

  function ResolveOne(u: Usage, t: Table): Result<Bound> {
    match Visible(t.scopes, u.name)
    case None => Err(if u.isCall then FunctionUndeclared(u.name) else VariableUndeclared(u.name))
    case Some(e) => Ok(Bound(u.name, e, Use))
  }

  lemma UsesStep(uses: seq<Usage>, i: nat, t: Table)
    requires i < |uses|
    ensures ResolveUses(uses[..i + 1], t) ==
            var first, one := ResolveUses(uses[..i], t), ResolveOne(uses[i], t);
            if first.Err? then first else if one.Err? then Err(one.error) else Ok(first.value + [one.value])
  {
    assert uses[..i + 1][..i] == uses[..i];
  }

  lemma {:induction false} UsesFail(uses: seq<Usage>, i: nat, t: Table)
    requires i <= |uses| && ResolveUses(uses[..i], t).Err?
    ensures ResolveUses(uses, t) == ResolveUses(uses[..i], t)
    decreases |uses| - i
  {
    if i == |uses| {
      assert uses[..i] == uses;
    } else {
      UsesStep(uses, i, t);
      UsesFail(uses, i + 1, t);
    }
  }

  lemma HeadParts(nodes: seq<SymbolNode>, cells: seq<Cell>)
    requires Carry(nodes, cells) && Linked(nodes) && nodes != []
    ensures nodes[0].Carries(cells[0]) && nodes[0].next == NodeAt(nodes[1..], 0)
  {
  }

  lemma TailApart(nodes: seq<SymbolNode>)
    requires Distinct(nodes) && nodes != []
    ensures nodes[0] !in nodes[1..]
  {
  }
}
