/** Declarators are read as section 6.7.6 of ISO C11 says, however they are
    parenthesized, and every type built from pointers and arrays can be written and
    read again. */
module DeclaratorMeaning {
  import opened Wrappers
  import opened Declarators

  /** A declarator: stars in front and sizes behind, around a name or nothing in
      some pairs of parentheses, or around another declarator in parentheses. */
  datatype Shape =
    | Leaf(stars: nat, name: Option<string>, parens: nat, sizes: seq<nat>)
    | Around(stars: nat, inner: Shape, sizes: seq<nat>)

  function Repeat(t: Token, n: nat, k: Tokens): Tokens
    decreases n
  {
    if n == 0 then k else Tok(t, Repeat(t, n - 1, k))
  }

  function NameOf(name: Option<string>, k: Tokens): Tokens {
    match name case None => k case Some(x) => Tok(Ident(x), k)
  }

  function SizesOf(sizes: seq<nat>, k: Tokens): Tokens {
    if sizes == [] then k else Tok(SubOpen, Tok(Number(sizes[0], false), Tok(SubClose, SizesOf(sizes[1..], k))))
  }

  /** The text of a declarator, followed by k. */
  function Spell(s: Shape, k: Tokens): Tokens
    decreases s
  {
    match s
    case Leaf(stars, name, parens, sizes) =>
      Repeat(Star, stars, Repeat(Open, parens, NameOf(name, Repeat(Close, parens, SizesOf(sizes, k)))))
    case Around(stars, inner, sizes) =>
      Repeat(Star, stars, Tok(Open, Spell(inner, Tok(Close, SizesOf(sizes, k)))))
  }

  /** The type that a declarator makes of a type: sizes bind more tightly than
      stars, and what is inside is applied to what is outside. */
  function TypeOf(s: Shape, t: Type): Type
    decreases s
  {
    match s
    case Leaf(stars, _, _, sizes) => Arrays(sizes, PointersTo(stars, t))
    case Around(stars, inner, sizes) => TypeOf(inner, Arrays(sizes, PointersTo(stars, t)))
  }

  function PointersTo(n: nat, t: Type): Type {
    if n == 0 then t else PointerTo(PointersTo(n - 1, t))
  }

  function Arrays(sizes: seq<nat>, t: Type): Type {
    if sizes == [] then t else ArrayOf(sizes[0], Arrays(sizes[1..], t))
  }

  predicate IsBare(s: Shape) {
    s.Leaf? && s.stars == 0 && s.sizes == []
  }

  predicate AllPositive(sizes: seq<nat>) {
    forall i :: 0 <= i < |sizes| ==> sizes[i] > 0
  }

  /** Each parenthesis has one place: around the bare name it counts for the leaf,
      and empty parentheses are no declarator. */
  predicate WellFormed(s: Shape, isAbstract: bool) {
    && AllPositive(s.sizes)
    && match s
       case Leaf(_, name, parens, _) => if isAbstract then name.None? && parens == 0 else name.Some?
       case Around(_, inner, _) => WellFormed(inner, isAbstract) && !IsBare(inner)
  }

  function NameIn(s: Shape): Option<string> {
    match s
    case Leaf(_, name, _, _) => name
    case Around(_, inner, _) => NameIn(inner)
  }

  /** What may follow a declarator. */
  predicate Follows(k: Tokens, f: Flags) {
    if f.isAbstract then k.Tok? && k.token.Close?
    else k.Tok? ==> EndsGroup(k.token, f, 0)
  }

  // --------------------------------------------------------------- lonely names

  lemma {:induction false} ClosesCount(n: nat, opens: nat, k: Tokens)
    requires n > 0
    ensures LonelyCloses(Repeat(Close, n, k), n, opens) == opens
    decreases n
  {
    if n > 1 {
      ClosesCount(n - 1, opens, k);
    }
  }

  lemma {:induction false} OpensCount(n: nat, before: nat, x: string, k: Tokens)
    requires before + n > 0
    ensures LonelyOpens(Repeat(Open, n, Tok(Ident(x), Repeat(Close, before + n, k))), before) == before + n
    decreases n
  {
    if n == 0 {
      ClosesCount(before, before, k);
    } else {
      OpensCount(n - 1, before + 1, x, k);
    }
  }

  /** Around anything but a bare name the parentheses are not lonely. */
  lemma {:induction false} NotLonely(s: Shape, f: Flags, opens: nat, k: Tokens)
    requires WellFormed(s, f.isAbstract) && !IsBare(s) && opens > 0
    ensures LonelyOpens(Spell(s, Tok(Close, k)), opens) == 0
    decreases s
  {
    if s.stars == 0 {
      match s
      case Around(_, inner, sizes) => NotLonely(inner, f, opens + 1, SizesOf(sizes, Tok(Close, k)));
      case Leaf(_, name, parens, sizes) =>
        if name.Some? {
          LeafNotLonely(name.value, parens, parens, opens, SizesOf(sizes, Tok(Close, k)));
        }
    }
  }

  lemma {:induction false} LeafNotLonely(x: string, n: nat, parens: nat, opens: nat, k: Tokens)
    requires opens > 0 && At(k, SubOpen) && n <= parens
    ensures LonelyOpens(Repeat(Open, n, Tok(Ident(x), Repeat(Close, parens, k))), opens + parens - n) == 0
    decreases n
  {
    if n == 0 {
      TooFewCloses(parens, opens + parens, opens + parens, k);
    } else {
      LeafNotLonely(x, n - 1, parens, opens, k);
    }
  }

  lemma {:induction false} TooFewCloses(n: nat, left: nat, opens: nat, k: Tokens)
    requires n < left && At(k, SubOpen)
    ensures LonelyCloses(Repeat(Close, n, k), left, opens) == 0
    decreases n
  {
    if n > 0 {
      TooFewCloses(n - 1, left - 1, opens, k);
    }
  }

  // ------------------------------------------------------------------- splitting

  function GroupOf(s: Shape): Group
    decreases s
  {
    match s
    case Leaf(stars, name, _, sizes) => Group(Repeat(Star, stars, NameOf(name, SizesOf(sizes, End))), None)
    case Around(stars, inner, sizes) => Group(Repeat(Star, stars, SizesOf(sizes, End)), Some(GroupOf(inner)))
  }

  /** The part that begins with a token, or with several. */
  function Before(t: Token, r: Result<Part>): Result<Part> {
    if r.Err? then r else Ok(r.value.(tokens := Tok(t, r.value.tokens)))
  }

  lemma {:induction false} SplitStars(n: nat, k: Tokens, f: Flags)
    ensures Split(Repeat(Star, n, k), f, false, false, 0) ==
            var r := Split(k, f, false, false, 0);
            if r.Err? then r else Ok(r.value.(tokens := Repeat(Star, n, r.value.tokens)))
    decreases n
  {
    if n > 0 {
      SplitStars(n - 1, k, f);
      assert Lonely(Repeat(Star, n, k)) == 0;
    }
  }

  /** Sizes are kept up to what follows. */
  lemma {:induction false} SplitSizes(sizes: seq<nat>, k: Tokens, f: Flags, hasChild: bool, gotName: bool)
    requires k.Tok? ==> EndsGroup(k.token, f, 0) && !k.token.Open?
    ensures Split(SizesOf(sizes, k), f, hasChild, gotName, 0) == Ok(Part(SizesOf(sizes, End), None, k))
    decreases |sizes|
  {
    if sizes == [] {
      if k.Tok? {
        assert Lonely(k) == 0;
      }
    } else {
      var k3 := SizesOf(sizes[1..], k);
      var k2 := Tok(SubClose, k3);
      var k1 := Tok(Number(sizes[0], false), k2);
      SplitSizes(sizes[1..], k, f, hasChild, gotName);
      PlainStep(SubClose, k3, f, hasChild, gotName);
      PlainStep(Number(sizes[0], false), k2, f, hasChild, gotName);
      PlainStep(SubOpen, k1, f, hasChild, gotName);
    }
  }

  lemma PlainStep(t: Token, k: Tokens, f: Flags, hasChild: bool, gotName: bool)
    requires t.SubOpen? || t.SubClose? || t.Number?
    ensures Split(Tok(t, k), f, hasChild, gotName, 0) == Before(t, Split(k, f, hasChild, gotName, 0))
  {
    assert Lonely(Tok(t, k)) == 0;
  }

  lemma {:induction false} DropAll(t: Token, n: nat, k: Tokens)
    ensures Drop(Repeat(t, n, k), n) == k
    decreases n
  {
    if n > 0 {
      DropAll(t, n - 1, k);
    }
  }

  lemma NameStep(x: string, parens: nat, k: Tokens, f: Flags)
    ensures Split(Repeat(Open, parens, Tok(Ident(x), Repeat(Close, parens, k))), f, false, false, 0) ==
            Before(Ident(x), Split(k, f, false, true, 0))
  {
    var named := Tok(Ident(x), Repeat(Close, parens, k));
    if parens == 0 {
      assert Lonely(named) == 0;
    } else {
      OpensCount(parens, 0, x, k);
    }
    DropAll(Open, parens, named);
    DropAll(Close, parens, k);
  }

  lemma ChildStep(s: Shape, after: Tokens, f: Flags)
    requires WellFormed(s, f.isAbstract) && !IsBare(s)
    requires Split(Spell(s, Tok(Close, after)), f, false, false, 0) == Ok(Part(GroupOf(s).tokens, GroupOf(s).child, Tok(Close, after)))
    ensures Split(Tok(Open, Spell(s, Tok(Close, after))), f, false, false, 0) ==
            var r := Split(after, f, true, false, 0);
            if r.Err? then r else Ok(Part(r.value.tokens, Some(GroupOf(s)), r.value.rest))
  {
    hide Spell, GroupOf;
    NotLonely(s, f, 1, after);
  }

  lemma {:induction false} SplitReads(s: Shape, k: Tokens, f: Flags)
    requires WellFormed(s, f.isAbstract)
    requires k.Tok? ==> EndsGroup(k.token, f, 0) && !k.token.Open?
    ensures Split(Spell(s, k), f, false, false, 0) == Ok(Part(GroupOf(s).tokens, GroupOf(s).child, k))
    decreases s
  {
    hide Split;
    match s
    case Leaf(stars, name, parens, sizes) =>
      var rest := Repeat(Open, parens, NameOf(name, Repeat(Close, parens, SizesOf(sizes, k))));
      SplitStars(stars, rest, f);
      SplitSizes(sizes, k, f, false, name.Some?);
      if name.Some? {
        NameStep(name.value, parens, SizesOf(sizes, k), f);
      }
    case Around(stars, inner, sizes) =>
      var after := SizesOf(sizes, k);
      SplitReads(inner, Tok(Close, after), f);
      ChildStep(inner, after, f);
      SplitSizes(sizes, k, f, true, false);
      SplitStars(stars, Tok(Open, Spell(inner, Tok(Close, after))), f);
  }

  // -------------------------------------------------------------------- scanning

  lemma {:induction false} ScanStars(n: nat, k: Tokens, leaf: bool, f: Flags, s: Found)
    requires !s.params
    ensures ScanFrom(Repeat(Star, n, k), leaf, f, s, 0) == ScanFrom(k, leaf, f, s.(stars := s.stars + n), 0)
    decreases n
  {
    if n > 0 {
      ScanStars(n - 1, k, leaf, f, s.(stars := s.stars + 1));
    }
  }

  /** The first bracket is found. */
  lemma {:induction false} ScanSizes(sizes: seq<nat>, leaf: bool, f: Flags, s: Found)
    requires !s.params && (s.name.Some? || f.isAbstract || !leaf)
    ensures ScanFrom(SizesOf(sizes, End), leaf, f, s, 0) ==
            Ok(if s.subscript.End? then s.(subscript := SizesOf(sizes, End)) else s)
    decreases |sizes|
  {
    if sizes != [] {
      var here := SizesOf(sizes, End);
      var s' := if s.subscript.End? then s.(subscript := here) else s;
      ScanSizes(sizes[1..], leaf, f, s');
      assert ScanOne(here, leaf, f, s, 0) == Ok(s');
      assert ScanFrom(here, leaf, f, s, 0) == ScanFrom(here.next, leaf, f, s', 0);
      assert ScanFrom(here.next, leaf, f, s', 0) == ScanFrom(here.next.next, leaf, f, s', 0);
      assert ScanFrom(here.next.next, leaf, f, s', 0) == ScanFrom(here.next.next.next, leaf, f, s', 0);
    }
  }

  lemma ScanReads(s: Shape, f: Flags)
    requires WellFormed(s, f.isAbstract)
    ensures ScanFrom(GroupOf(s).tokens, s.Leaf?, f, NOTHING, 0) ==
            Ok(Found(s.stars, if s.Leaf? then s.name else None, SizesOf(s.sizes, End), false))
  {
    hide ScanFrom;
    var started := NOTHING.(stars := s.stars);
    match s
    case Leaf(stars, name, _, sizes) =>
      ScanStars(stars, NameOf(name, SizesOf(sizes, End)), true, f, NOTHING);
      if name.Some? {
        ScanName(name.value, SizesOf(sizes, End), f, started);
      }
      ScanSizes(sizes, true, f, started.(name := name));
    case Around(stars, _, sizes) =>
      ScanStars(stars, SizesOf(sizes, End), false, f, NOTHING);
      ScanSizes(sizes, false, f, started);
  }

  lemma ScanName(x: string, k: Tokens, f: Flags, s: Found)
    requires s.name.None?
    ensures ScanFrom(Tok(Ident(x), k), true, f, s, 0) == ScanFrom(k, true, f, s.(name := Some(x)), 0)
  {
  }

  function ArrayParts(sizes: seq<nat>): seq<Fragment> {
    if sizes == [] then [] else [ArrayPart(sizes[0])] + ArrayParts(sizes[1..])
  }

  lemma {:induction false} SizesRead(sizes: seq<nat>)
    requires AllPositive(sizes)
    ensures Sizes(SizesOf(sizes, End)) == Ok(ArrayParts(sizes))
    decreases |sizes|
  {
    if sizes != [] {
      SizesRead(sizes[1..]);
    }
  }

  // -------------------------------------------------------------------- building

  lemma {:induction false} BuildJoin(a: seq<Fragment>, b: seq<Fragment>, t: Type)
    ensures Build(a + b, t) == Build(a, Build(b, t))
    decreases |a|
  {
    if a == [] {
      assert a + b == b;
    } else {
      assert (a + b)[1..] == a[1..] + b;
      BuildJoin(a[1..], b, t);
    }
  }

  lemma {:induction false} BuildPointers(n: nat, t: Type)
    ensures Build(Pointers(n), t) == PointersTo(n, t)
    decreases n
  {
    if n > 0 {
      BuildJoin(Pointers(n - 1), [PointerPart], t);
      assert Build([PointerPart], t) == PointerTo(Build([], t));
      BuildPointers(n - 1, PointerTo(t));
      PointerInside(n - 1, t);
    }
  }

  lemma {:induction false} PointerInside(n: nat, t: Type)
    ensures PointersTo(n, PointerTo(t)) == PointerTo(PointersTo(n, t))
    decreases n
  {
    if n > 0 {
      PointerInside(n - 1, t);
    }
  }

  lemma {:induction false} BuildArrays(sizes: seq<nat>, t: Type)
    ensures Build(ArrayParts(sizes), t) == Arrays(sizes, t)
    decreases |sizes|
  {
    if sizes != [] {
      BuildArrays(sizes[1..], t);
      assert ArrayParts(sizes)[1..] == ArrayParts(sizes[1..]);
    }
  }

  lemma {:induction false} PointersAdd(m: nat, n: nat, t: Type)
    ensures PointersTo(m, PointersTo(n, t)) == PointersTo(m + n, t)
    decreases m
  {
    if m > 0 {
      PointersAdd(m - 1, n, t);
    }
  }

  /** The type that has been read so far. */
  function Pending(d: Declarator, basic: Type): Type {
    PointersTo(d.prefix, Build(d.fragment, basic))
  }

  lemma Gathered(sizes: seq<nat>, d: Declarator, basic: Type)
    requires sizes != []
    ensures Pending(AddSizes(ArrayParts(sizes), d), basic) == Arrays(sizes, Pending(d, basic))
  {
    var a, p := ArrayParts(sizes), Pointers(d.prefix);
    assert a != [];
    BuildJoin(a + p, d.fragment, basic);
    BuildJoin(a, p, Build(d.fragment, basic));
    BuildPointers(d.prefix, Build(d.fragment, basic));
    BuildArrays(sizes, Pending(d, basic));
  }

  /** The groups from outside in give the declarator's type. */
  lemma {:induction false} GroupsMean(s: Shape, f: Flags, d: Declarator, basic: Type)
    requires WellFormed(s, f.isAbstract) && d.topLevel == 0 && d.name.None?
    ensures var r := ByGroup(GroupOf(s), f, d);
            r.Ok? && r.value.name == NameIn(s) && MapDeclarator(basic, r.value) == TypeOf(s, Pending(d, basic))
    decreases s
  {
    hide ScanFrom;
    ScanReads(s, f);
    SizesRead(s.sizes);
    var d1 := d.(prefix := d.prefix + s.stars, name := if s.Leaf? then s.name else None);
    PointersAdd(s.stars, d.prefix, Build(d.fragment, basic));
    assert Pending(d1, basic) == PointersTo(s.stars, Pending(d, basic));
    if s.sizes != [] {
      Gathered(s.sizes, d1, basic);
      assert SizesOf(s.sizes, End).Tok?;
    }
    var d3 := AddSizes(ArrayParts(s.sizes), d1);
    assert Pending(d3, basic) == Arrays(s.sizes, Pending(d1, basic));
    if s.Leaf? {
      LeafMeans(s, d1, d3, basic);
    } else {
      GroupsMean(s.inner, f, d3, basic);
    }
  }

  /** At the innermost group the pointers that are left are the outermost ones of
      the type. */
  lemma LeafMeans(s: Shape, d1: Declarator, d3: Declarator, basic: Type)
    requires s.Leaf? && d1.topLevel == 0 && d3 == AddSizes(ArrayParts(s.sizes), d1)
    ensures var last := if s.sizes == [] then d3.(topLevel := d1.prefix) else d3;
            MapDeclarator(basic, last) == Pending(d3, basic)
  {
    if s.sizes == [] {
      BuildJoin(Pointers(d1.prefix), d1.fragment, basic);
      BuildPointers(d1.prefix, Build(d1.fragment, basic));
    } else {
      assert ArrayParts(s.sizes) != [];
      assert Pointers(0) + d3.fragment == d3.fragment;
    }
  }

  // -------------------------------------------------------------------- precheck

  lemma {:induction false} StarsFirstRepeat(t: Token, n: nat, k: Tokens, open: nat)
    requires t.Star? || t.Open?
    ensures StarsFirst(Repeat(t, n, k), open, false) == StarsFirst(k, if t.Open? then open + n else open, false)
    decreases n
  {
    if n > 0 {
      StarsFirstRepeat(t, n - 1, k, if t.Open? then open + 1 else open);
    }
  }

  lemma {:induction false} StarsFirstSizes(sizes: seq<nat>, k: Tokens, open: nat, closed: bool)
    ensures StarsFirst(SizesOf(sizes, k), open, closed) == StarsFirst(k, open, closed)
    decreases |sizes|
  {
    if sizes != [] {
      StarsFirstSizes(sizes[1..], k, open, closed);
      var k2 := Tok(SubClose, SizesOf(sizes[1..], k));
      assert StarsFirst(k2, open, closed) == StarsFirst(SizesOf(sizes[1..], k), open, closed);
      assert StarsFirst(Tok(Number(sizes[0], false), k2), open, closed) == StarsFirst(k2, open, closed);
    }
  }

  /** In a declarator all stars come before the first closing parenthesis, or
      before the name. */
  lemma {:induction false} StarsComeFirst(s: Shape, f: Flags, k: Tokens, open: nat)
    requires WellFormed(s, f.isAbstract)
    requires f.isAbstract ==> k.Tok? && k.token.Close? && (open > 0 ==> StarsFirst(k.next, open - 1, true))
    ensures StarsFirst(Spell(s, k), open, false)
    decreases s
  {
    match s
    case Leaf(stars, name, parens, sizes) =>
      var rest := Repeat(Open, parens, NameOf(name, Repeat(Close, parens, SizesOf(sizes, k))));
      StarsFirstRepeat(Star, stars, rest, open);
      StarsFirstRepeat(Open, parens, NameOf(name, Repeat(Close, parens, SizesOf(sizes, k))), open);
      if f.isAbstract {
        StarsFirstSizes(sizes, k, open, false);
      }
    case Around(stars, inner, sizes) =>
      var after := Tok(Close, SizesOf(sizes, k));
      StarsFirstRepeat(Star, stars, Tok(Open, Spell(inner, after)), open);
      if f.isAbstract {
        StarsFirstSizes(sizes, k, open, true);
      }
      StarsComeFirst(inner, f, after, open + 1);
  }

  // ----------------------------------------------------------- incomplete elements

  /** Somewhere inside, the type has an array whose elements are void. */
  ghost predicate HasVoidElements(t: Type) {
    exists parts: seq<Fragment>, n: nat :: t == Build(parts + [ArrayPart(n)], Basic(true))
  }

  lemma VoidElementsAt(parts: seq<Fragment>, n: nat)
    ensures HasVoidElements(Build(parts + [ArrayPart(n)], Basic(true)))
  {
  }

  /** What the check looks for. A pointer to void is complete, and so is a pointer to
      anything else. */
  lemma {:induction false} VoidElementsExactly(t: Type)
    ensures HasArrayOfVoid(t) <==> HasVoidElements(t)
    decreases t
  {
    match t
    case Basic(_) => BasicHasNone(t);
    case PointerTo(r) => VoidElementsExactly(r); OuterPart(PointerPart, r);
    case ArrayOf(n, e) =>
      VoidElementsExactly(e);
      OuterPart(ArrayPart(n), e);
  }

  lemma BasicHasNone(t: Type)
    requires t.Basic?
    ensures !HasVoidElements(t)
  {
    forall parts: seq<Fragment>, n: nat ensures t != Build(parts + [ArrayPart(n)], Basic(true)) {
      BuildJoin(parts, [ArrayPart(n)], Basic(true));
    }
  }

  /** One part more on the outside. */
  lemma OuterPart(p: Fragment, t: Type)
    ensures HasVoidElements(Build([p], t)) <==> HasVoidElements(t) || (p.ArrayPart? && t == Basic(true))
    ensures Build([p], t) == match p case PointerPart => PointerTo(t) case ArrayPart(n) => ArrayOf(n, t)
  {
    assert [p][1..] == [] && Build([], t) == t;
    var outer := Build([p], t);
    if HasVoidElements(t) {
      var parts: seq<Fragment>, n: nat :| t == Build(parts + [ArrayPart(n)], Basic(true));
      assert [p] + (parts + [ArrayPart(n)]) == ([p] + parts) + [ArrayPart(n)];
      BuildJoin([p], parts + [ArrayPart(n)], Basic(true));
      VoidElementsAt([p] + parts, n);
    }
    if p.ArrayPart? && t == Basic(true) {
      assert [] + [p] == [p];
      VoidElementsAt([], p.size);
    }
    if HasVoidElements(outer) {
      var parts: seq<Fragment>, n: nat :| outer == Build(parts + [ArrayPart(n)], Basic(true));
      if parts == [] {
        assert parts + [ArrayPart(n)] == [ArrayPart(n)];
        assert outer == ArrayOf(n, Build([], Basic(true)));
      } else {
        assert (parts + [ArrayPart(n)])[1..] == parts[1..] + [ArrayPart(n)];
        assert t == Build(parts[1..] + [ArrayPart(n)], Basic(true));
      }
    }
  }

  // ----------------------------------------------------------- the main statements

  /** Every declarator, with any parentheses, is read with the type that the
      standard gives it, unless that has an array of void inside. */
  lemma DeclaratorIsRead(s: Shape, k: Tokens, f: Flags, basic: Type)
    requires WellFormed(s, f.isAbstract) && Follows(k, f)
    ensures ParseType(Spell(s, k), f, basic) ==
            var t := TypeOf(s, basic);
            if HasVoidElements(t) then Err(ArrayIncomplete) else Ok(Typed(t, NameIn(s), k))
  {
    hide Split, ByGroup, StarsFirst, Spell, GroupOf, TypeOf, HasVoidElements, HasArrayOfVoid;
    VoidElementsExactly(TypeOf(s, basic));
    StarsComeFirst(s, f, k, 0);
    SplitReads(s, k, f);
    GroupsMean(s, f, EMPTY, basic);
    assert Pending(EMPTY, basic) == basic;
    NamesFit(s, f.isAbstract);
    assert Group(GroupOf(s).tokens, GroupOf(s).child) == GroupOf(s);
  }

  lemma {:induction false} NamesFit(s: Shape, isAbstract: bool)
    requires WellFormed(s, isAbstract)
    ensures NameIn(s).None? <==> isAbstract
    decreases s
  {
    if s.Around? {
      NamesFit(s.inner, isAbstract);
    }
  }

  /** A declarator grows outwards while the type is taken apart; parentheses are put
      where a size would otherwise bind to the name instead of the pointer. */
  function Print(t: Type, s: Shape): Shape
    decreases t
  {
    match t
    case Basic(_) => s
    case PointerTo(r) => Print(r, s.(stars := s.stars + 1))
    case ArrayOf(n, e) => Print(e, if s.stars > 0 then Around(0, s, [n]) else s.(sizes := s.sizes + [n]))
  }

  function BasicOf(t: Type): Type {
    match t
    case Basic(_) => t
    case PointerTo(r) => BasicOf(r)
    case ArrayOf(_, e) => BasicOf(e)
  }

  /** Arrays have a size, and their elements are complete. */
  predicate Sized(t: Type) {
    match t
    case Basic(_) => true
    case PointerTo(r) => Sized(r)
    case ArrayOf(n, e) => n > 0 && Sized(e)
  }

  lemma {:induction false} ArraysAppend(sizes: seq<nat>, n: nat, t: Type)
    ensures Arrays(sizes + [n], t) == Arrays(sizes, ArrayOf(n, t))
    decreases |sizes|
  {
    if sizes == [] {
      assert [] + [n] == [n];
      assert Arrays([n], t) == ArrayOf(n, Arrays([], t));
    } else {
      assert (sizes + [n])[1..] == sizes[1..] + [n];
      ArraysAppend(sizes[1..], n, t);
    }
  }

  lemma {:induction false} PrintMeans(t: Type, s: Shape, isAbstract: bool)
    requires WellFormed(s, isAbstract) && Sized(t)
    ensures TypeOf(Print(t, s), BasicOf(t)) == TypeOf(s, t)
    ensures WellFormed(Print(t, s), isAbstract) && NameIn(Print(t, s)) == NameIn(s)
    decreases t
  {
    match t
    case Basic(_) =>
    case PointerTo(r) =>
      var s' := s.(stars := s.stars + 1);
      PointerInside(s.stars, r);
      assert TypeOf(s', r) == TypeOf(s, t);
      PrintMeans(r, s', isAbstract);
    case ArrayOf(n, e) =>
      if s.stars > 0 {
        var s' := Around(0, s, [n]);
        assert Arrays([n], e) == ArrayOf(n, Arrays([], e));
        PrintMeans(e, s', isAbstract);
      } else {
        var s' := s.(sizes := s.sizes + [n]);
        ArraysAppend(s.sizes, n, e);
        assert TypeOf(s', e) == TypeOf(s, t);
        PrintMeans(e, s', isAbstract);
      }
  }

  /** Round trip: a type written as a declarator, named or abstract, is read back. */
  lemma TypesRoundTrip(t: Type, name: Option<string>, k: Tokens, acceptParams: bool)
    requires Sized(t) && !HasVoidElements(t)
    requires Follows(k, Flags(name.None?, acceptParams))
    ensures ParseType(Spell(Print(t, Leaf(0, name, 0, [])), k), Flags(name.None?, acceptParams), BasicOf(t)) == Ok(Typed(t, name, k))
  {
    var bare := Leaf(0, name, 0, []);
    PrintMeans(t, bare, name.None?);
    DeclaratorIsRead(Print(t, bare), k, Flags(name.None?, acceptParams), BasicOf(t));
    assert TypeOf(bare, t) == t;
  }
}
