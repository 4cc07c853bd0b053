/** Which of the texts that the declarator parser accepts are declarators: those whose
    tokens stand in order. */
module DeclaratorTexts {
  import opened Wrappers
  import opened Declarators
  import opened DeclaratorMeaning

  /** Stars and parentheses, the name, closing parentheses and sizes, in this order, up
      to what ends a declarator; depth parentheses are open, and behind says whether the
      place of the name has been passed. */
  predicate InOrder(k: Tokens, f: Flags, depth: nat, behind: bool) {
    k.Tok? ==>
      match k.token
      case Star => !behind && InOrder(k.next, f, depth, false)
      case Open => !behind && !At(k.next, Close) && InOrder(k.next, f, depth + 1, false)
      case Ident(_) => !behind && InOrder(k.next, f, depth, true)
      case SubOpen => OneSize(k) && InOrder(k.next.next.next, f, depth, true)
      case Close => depth == 0 || InOrder(k.next, f, depth - 1, true)
      case _ => EndsGroup(k.token, f, 0)
  }

  predicate OneSize(k: Tokens) {
    && At(k, SubOpen) && k.next.Tok? && k.next.token.Number? && !k.next.token.isDouble && At(k.next.next, SubClose)
  }

  /** What ends a declarator. */
  predicate Ends(k: Tokens, f: Flags) {
    k.Tok? ==> EndsGroup(k.token, f, 0)
  }

  // ------------------------------------------------------- declarators in order

  lemma {:induction false} OpensInOrder(n: nat, k: Tokens, f: Flags, depth: nat)
    requires InOrder(k, f, depth + n, false) && !At(k, Close)
    ensures InOrder(Repeat(Open, n, k), f, depth, false) && !At(Repeat(Open, n, k), Close)
    decreases n
  {
    if n > 0 {
      OpensInOrder(n - 1, k, f, depth + 1);
    }
  }

  lemma {:induction false} ClosesInOrder(n: nat, k: Tokens, f: Flags, depth: nat)
    ensures InOrder(k, f, depth, true) ==> InOrder(Repeat(Close, n, k), f, depth + n, true)
    ensures InOrder(Repeat(Close, n, k), f, depth + n, true) && n > 0 ==> InOrder(k, f, depth, true)
    decreases n
  {
    if n > 0 {
      ClosesInOrder(n - 1, k, f, depth);
    }
  }

  lemma {:induction false} StarsInOrder(n: nat, k: Tokens, f: Flags, depth: nat)
    requires InOrder(k, f, depth, false)
    ensures InOrder(Repeat(Star, n, k), f, depth, false)
    decreases n
  {
    if n > 0 {
      StarsInOrder(n - 1, k, f, depth);
    }
  }

  lemma {:induction false} SizesInOrder(sizes: seq<nat>, k: Tokens, f: Flags, depth: nat)
    requires InOrder(k, f, depth, true)
    ensures InOrder(SizesOf(sizes, k), f, depth, true)
    decreases |sizes|
  {
    if sizes != [] {
      SizesInOrder(sizes[1..], k, f, depth);
    }
  }

  /** Where no name comes, it makes no difference whether the place of the name has been
      passed. */
  lemma PassedUnnamed(k: Tokens, f: Flags, depth: nat)
    requires k.Tok? ==> !k.token.Star? && !k.token.Open? && !k.token.Ident?
    ensures InOrder(k, f, depth, false) == InOrder(k, f, depth, true)
  {
  }

  lemma {:induction false} SpelledInOrder(s: Shape, k: Tokens, f: Flags, depth: nat)
    requires WellFormed(s, f.isAbstract) && InOrder(k, f, depth, true)
    requires k.Tok? ==> !k.token.Star? && !k.token.Open? && !k.token.Ident?
    ensures InOrder(Spell(s, k), f, depth, false)
    ensures At(k, Close) && !IsBare(s) ==> !At(Spell(s, k), Close)
    decreases s
  {
    hide InOrder;
    SizesInOrder(s.sizes, k, f, depth);
    match s
    case Leaf(stars, name, parens, sizes) =>
      var tail := SizesOf(sizes, k);
      if name.Some? {
        ClosesInOrder(parens, tail, f, depth);
        NameInOrder(name.value, Repeat(Close, parens, tail), f, depth + parens);
        OpensInOrder(parens, Tok(Ident(name.value), Repeat(Close, parens, tail)), f, depth);
      } else {
        PassedUnnamed(tail, f, depth);
      }
      StarsInOrder(stars, Repeat(Open, parens, NameOf(name, Repeat(Close, parens, tail))), f, depth);
    case Around(stars, inner, sizes) =>
      var after := Tok(Close, SizesOf(sizes, k));
      CloseInOrder(SizesOf(sizes, k), f, depth);
      SpelledInOrder(inner, after, f, depth + 1);
      OpensInOrder(1, Spell(inner, after), f, depth);
      assert Repeat(Open, 1, Spell(inner, after)) == Tok(Open, Repeat(Open, 0, Spell(inner, after)));
      StarsInOrder(stars, Tok(Open, Spell(inner, after)), f, depth);
  }

  lemma NameInOrder(x: string, k: Tokens, f: Flags, depth: nat)
    requires InOrder(k, f, depth, true)
    ensures InOrder(Tok(Ident(x), k), f, depth, false)
  {
  }

  lemma CloseInOrder(k: Tokens, f: Flags, depth: nat)
    ensures InOrder(Tok(Close, k), f, depth + 1, true) == InOrder(k, f, depth, true)
  {
  }

  // ----------------------------------------------------- texts in order are spelled

  /** A shape whose parentheses have one place each. */
  predicate Formed(s: Shape) {
    match s
    case Leaf(_, name, parens, _) => parens > 0 ==> name.Some?
    case Around(_, inner, _) => Formed(inner) && !IsBare(inner)
  }

  /** Behind the name there are sizes. */
  lemma {:induction false} BackIsSizes(k: Tokens, f: Flags, depth: nat, hasChild: bool, gotName: bool)
    returns (sizes: seq<nat>, rest: Tokens)
    requires InOrder(k, f, depth, true)
    ensures k == SizesOf(sizes, rest) && InOrder(rest, f, depth, true) && Ends(rest, f)
    ensures Split(k, f, hasChild, gotName, 0) == Ok(Part(SizesOf(sizes, End), None, rest))
    decreases k
  {
    if At(k, SubOpen) {
      var tail := k.next.next.next;
      sizes, rest := BackIsSizes(tail, f, depth, hasChild, gotName);
      var n := k.next.token.num;
      sizes := [n] + sizes;
      assert sizes[1..] == sizes[1..][..];
      hide Split;
      PlainStep(SubClose, tail, f, hasChild, gotName);
      PlainStep(Number(n, false), Tok(SubClose, tail), f, hasChild, gotName);
      PlainStep(SubOpen, Tok(Number(n, false), Tok(SubClose, tail)), f, hasChild, gotName);
    } else {
      sizes, rest := [], k;
      if k.Tok? {
        assert Lonely(k) == 0;
      }
    }
  }

  /** What lonely parentheses stand around. */
  lemma {:induction false} LonelyIs(k: Tokens, opens: nat) returns (x: string, tail: Tokens)
    requires LonelyOpens(k, opens) > 0
    ensures var n := LonelyOpens(k, opens);
            n >= opens && k == Repeat(Open, n - opens, Tok(Ident(x), Repeat(Close, n, tail)))
    decreases k
  {
    if k.token.Open? {
      x, tail := LonelyIs(k.next, opens + 1);
    } else {
      x := k.token.name;
      tail := LonelyTail(k.next, opens, opens);
    }
  }

  lemma {:induction false} LonelyTail(k: Tokens, left: nat, opens: nat) returns (tail: Tokens)
    requires left > 0 && opens > 0 && LonelyCloses(k, left, opens) > 0
    ensures LonelyCloses(k, left, opens) == opens && k == Repeat(Close, left, tail)
    decreases k
  {
    if left == 1 {
      tail := k.next;
      assert Repeat(Close, 0, tail) == tail;
    } else {
      tail := LonelyTail(k.next, left - 1, opens);
    }
  }

  lemma {:induction false} OrderInside(n: nat, k: Tokens, f: Flags, depth: nat)
    requires InOrder(Repeat(Open, n, k), f, depth, false)
    ensures InOrder(k, f, depth + n, false)
    decreases n
  {
    if n > 0 {
      OrderInside(n - 1, k, f, depth + 1);
    }
  }

  lemma {:induction false} OneMoreClose(n: nat, k: Tokens)
    ensures Repeat(Close, n, Tok(Close, k)) == Repeat(Close, n + 1, k)
    decreases n
  {
    if n > 0 {
      OneMoreClose(n - 1, k);
    }
  }

  /** The text is that of a shape, and the parser has split it as the shape says. */
  ghost predicate SpelledBy(s: Shape, k: Tokens, rest: Tokens, f: Flags, depth: nat) {
    && Formed(s) && Spell(s, rest) == k && InOrder(rest, f, depth, true) && Ends(rest, f)
    && Split(k, f, false, false, 0) == Ok(Part(GroupOf(s).tokens, GroupOf(s).child, rest))
  }

  /** Every text in order that the parser can split is that of a shape. */
  lemma {:induction false} FrontIsShape(k: Tokens, f: Flags, depth: nat) returns (s: Shape, rest: Tokens)
    requires InOrder(k, f, depth, false) && Split(k, f, false, false, 0).Ok?
    ensures SpelledBy(s, k, rest, f, depth)
    decreases k
  {
    if k.End? || !(k.token.Star? || k.token.Open? || k.token.Ident?) {
      PassedUnnamed(k, f, depth);
      var sizes;
      sizes, rest := BackIsSizes(k, f, depth, false, false);
      s := Leaf(0, None, 0, sizes);
    } else if k.token.Star? {
      s, rest := AfterStar(k, f, depth);
    } else if k.token.Ident? {
      s, rest := NamedShape(k.token.name, 0, k.next, f, depth);
    } else if Lonely(k) > 0 {
      var x, tail := LonelyIs(k, 0);
      var n := Lonely(k);
      OrderInside(n, Tok(Ident(x), Repeat(Close, n, tail)), f, depth);
      ClosesInOrder(n, tail, f, depth);
      s, rest := NamedShape(x, n, tail, f, depth);
    } else {
      s, rest := AroundShape(k, f, depth);
    }
  }

  lemma {:induction false} AfterStar(k: Tokens, f: Flags, depth: nat) returns (s: Shape, rest: Tokens)
    requires At(k, Star) && InOrder(k, f, depth, false) && Split(k, f, false, false, 0).Ok?
    ensures SpelledBy(s, k, rest, f, depth)
    decreases k, 0
  {
    hide Split;
    assert Repeat(Star, 1, k.next) == Tok(Star, Repeat(Star, 0, k.next)) == k;
    SplitStars(1, k.next, f);
    var inner;
    inner, rest := FrontIsShape(k.next, f, depth);
    s := inner.(stars := inner.stars + 1);
    assert Repeat(Star, 1, GroupOf(inner).tokens) == Tok(Star, Repeat(Star, 0, GroupOf(inner).tokens));
  }

  lemma NamedShape(x: string, n: nat, tail: Tokens, f: Flags, depth: nat) returns (s: Shape, rest: Tokens)
    requires InOrder(tail, f, depth, true)
    ensures SpelledBy(s, Repeat(Open, n, Tok(Ident(x), Repeat(Close, n, tail))), rest, f, depth)
  {
    hide Split;
    NameStep(x, n, tail, f);
    var sizes;
    sizes, rest := BackIsSizes(tail, f, depth, false, true);
    s := Leaf(0, Some(x), n, sizes);
  }

  lemma {:induction false} AroundShape(k: Tokens, f: Flags, depth: nat) returns (s: Shape, rest: Tokens)
    requires At(k, Open) && Lonely(k) == 0 && InOrder(k, f, depth, false) && Split(k, f, false, false, 0).Ok?
    ensures SpelledBy(s, k, rest, f, depth)
    decreases k, 0
  {
    var part := Split(k.next, f, false, false, 0);
    assert part.Ok? && At(part.value.rest, Close);
    var inner, close := FrontIsShape(k.next, f, depth + 1);
    var tail := close.next;
    var sizes;
    sizes, rest := BackIsSizes(tail, f, depth, true, false);
    s := Around(0, inner, sizes);
    NotBare(inner, k, tail, f, depth);
  }

  /** Parentheses around a bare name are lonely, and there are none around nothing. */
  lemma NotBare(inner: Shape, k: Tokens, tail: Tokens, f: Flags, depth: nat)
    requires Formed(inner) && At(k, Open) && k.next == Spell(inner, Tok(Close, tail))
    requires Lonely(k) == 0 && InOrder(k, f, depth, false)
    ensures !IsBare(inner)
  {
    if IsBare(inner) {
      if inner.name.Some? {
        var n := inner.parens;
        OneMoreClose(n, tail);
        OpensCount(n + 1, 0, inner.name.value, tail);
        assert false;
      } else {
        assert false;
      }
    }
  }

  // ------------------------------------------------------------- names and sizes

  predicate SizesPositive(s: Shape) {
    AllPositive(s.sizes) && (s.Around? ==> SizesPositive(s.inner))
  }

  lemma {:induction false} ReadPositive(sizes: seq<nat>)
    requires Sizes(SizesOf(sizes, End)).Ok?
    ensures AllPositive(sizes)
    decreases |sizes|
  {
    if sizes != [] {
      ReadPositive(sizes[1..]);
      forall i | 0 <= i < |sizes| ensures sizes[i] > 0 {
        assert i > 0 ==> sizes[i] == sizes[1..][i - 1];
      }
    }
  }

  /** What the scan finds, if it accepts the group. */
  lemma ScanFound(s: Shape, f: Flags)
    requires Formed(s) && ScanFrom(GroupOf(s).tokens, s.Leaf?, f, NOTHING, 0).Ok?
    ensures ScanFrom(GroupOf(s).tokens, s.Leaf?, f, NOTHING, 0) ==
            Ok(Found(s.stars, if s.Leaf? then s.name else None, SizesOf(s.sizes, End), false))
  {
    hide ScanFrom;
    var started := NOTHING.(stars := s.stars);
    match s
    case Leaf(stars, name, _, sizes) =>
      ScanStars(stars, NameOf(name, SizesOf(sizes, End)), true, f, NOTHING);
      if name.Some? {
        ScanName(name.value, SizesOf(sizes, End), f, started);
        ScanSizes(sizes, true, f, started.(name := name));
      } else if f.isAbstract {
        ScanSizes(sizes, true, f, started);
      } else {
        TooEarly(sizes, f, started);
      }
    case Around(stars, _, sizes) =>
      ScanStars(stars, SizesOf(sizes, End), false, f, NOTHING);
      ScanSizes(sizes, false, f, started);
  }

  lemma TooEarly(sizes: seq<nat>, f: Flags, s: Found)
    requires s.name.None? && !f.isAbstract && s.subscript.End?
    ensures ScanFrom(SizesOf(sizes, End), true, f, s, 0) == if sizes == [] then Ok(s) else Err(EarlySubscript)
  {
  }

  lemma {:induction false} GroupsAccepted(s: Shape, f: Flags, d: Declarator)
    requires Formed(s) && d.name.None? && ByGroup(GroupOf(s), f, d).Ok?
    ensures SizesPositive(s) && ByGroup(GroupOf(s), f, d).value.name == NameIn(s)
    decreases s
  {
    hide ScanFrom, Sizes;
    ScanFound(s, f);
    ReadPositive(s.sizes);
    if s.Around? {
      var d1 := d.(prefix := d.prefix + s.stars);
      GroupsAccepted(s.inner, f, AddSizes(Sizes(SizesOf(s.sizes, End)).value, d1));
    }
  }

  lemma {:induction false} AcceptedForm(s: Shape, isAbstract: bool)
    requires Formed(s) && SizesPositive(s) && (NameIn(s).None? <==> isAbstract)
    ensures WellFormed(s, isAbstract)
    decreases s
  {
    if s.Around? {
      AcceptedForm(s.inner, isAbstract);
    }
  }

  // ---------------------------------------------------------- the main statements

  ghost predicate IsDeclarator(k: Tokens, rest: Tokens, isAbstract: bool) {
    exists s :: WellFormed(s, isAbstract) && Spell(s, rest) == k
  }

  /** What the parser accepts is a declarator exactly when its tokens stand in order. */
  lemma DeclaratorsInOrder(k: Tokens, f: Flags, basic: Type)
    requires ParseType(k, f, basic).Ok?
    ensures IsDeclarator(k, ParseType(k, f, basic).value.rest, f.isAbstract) <==> InOrder(k, f, 0, false)
  {
    hide Split, ByGroup, InOrder, Spell, WellFormed;
    var rest := ParseType(k, f, basic).value.rest;
    if InOrder(k, f, 0, false) {
      var s, end := FrontIsShape(k, f, 0);
      assert Group(GroupOf(s).tokens, GroupOf(s).child) == GroupOf(s);
      GroupsAccepted(s, f, EMPTY);
      AcceptedForm(s, f.isAbstract);
      assert end == rest;
    }
    if IsDeclarator(k, rest, f.isAbstract) {
      var s :| WellFormed(s, f.isAbstract) && Spell(s, rest) == k;
      SplitEnds(k, f, false, false, 0);
      EndInOrder(rest, f);
      SpelledInOrder(s, rest, f, 0);
    }
  }

  lemma EndInOrder(k: Tokens, f: Flags)
    requires Ends(k, f)
    ensures InOrder(k, f, 0, true) && (k.Tok? ==> !k.token.Star? && !k.token.Open? && !k.token.Ident?)
  {
  }

  lemma {:induction false} SplitEnds(k: Tokens, f: Flags, hasChild: bool, gotName: bool, open: nat)
    requires Split(k, f, hasChild, gotName, open).Ok?
    ensures Ends(Split(k, f, hasChild, gotName, open).value.rest, f)
    decreases k
  {
    if k.Tok? {
      var n := Lonely(k);
      var here := Drop(k, n);
      if here.Tok? {
        if here.token.Open? && !gotName {
          var inner := Split(here.next, f, false, false, 0);
          SplitEnds(inner.value.rest.next, f, true, false, open);
        } else if !EndsGroup(here.token, f, open) {
          SplitEnds(Drop(here.next, n), f, hasChild, gotName || here.token.Ident?, OpenAfter(here.token, open));
        }
      }
    }
  }

  /** A star behind a part in parentheses, with no name before it, is an error. */
  lemma StarBehindParens(s: Shape, k: Tokens, f: Flags, basic: Type)
    requires WellFormed(s, true)
    ensures ParseType(Tok(Open, Spell(s, Tok(Close, Tok(Star, k)))), f, basic) == Err(PointerAfterParens)
  {
    StarFound(s, Tok(Close, Tok(Star, k)), 1);
  }

  lemma {:induction false} StarFound(s: Shape, k: Tokens, open: nat)
    requires WellFormed(s, true) && !StarsFirst(k, open, false) && !StarsFirst(k, open, true)
    ensures !StarsFirst(Spell(s, k), open, false)
    decreases s
  {
    match s
    case Leaf(stars, _, _, sizes) =>
      StarsFirstRepeat(Star, stars, SizesOf(sizes, k), open);
      StarsFirstSizes(sizes, k, open, false);
    case Around(stars, inner, sizes) =>
      var after := Tok(Close, SizesOf(sizes, k));
      StarsFirstRepeat(Star, stars, Tok(Open, Spell(inner, after)), open);
      StarsFirstSizes(sizes, k, open, true);
      StarFound(inner, after, open + 1);
  }

  lemma KeptToken(t: Token, k: Tokens, f: Flags, gotName: bool)
    requires !t.Open? && !t.Close? && !EndsGroup(t, f, 0)
    ensures Split(Tok(t, k), f, false, gotName, 0) == Before(t, Split(k, f, false, gotName || t.Ident?, 0))
  {
    assert Lonely(Tok(t, k)) == 0;
    assert Drop(Tok(t, k), 0) == Tok(t, k) && Drop(k, 0) == k;
  }

  lemma GroupEnd(k: Tokens, f: Flags)
    requires At(k, Ender)
    ensures Split(k, f, false, true, 0) == Ok(Part(End, None, k))
  {
    assert Lonely(k) == 0;
  }

  /** A leaf group with one star somewhere, whose first name counts. */
  lemma OneStar(x: string, k: Tokens, f: Flags, basic: Type)
    requires ScanFrom(Tok(Ident(x), k), true, f, NOTHING, 0) == Ok(Found(1, Some(x), End, false))
    ensures var d := ByGroup(Group(Tok(Ident(x), k), None), f, EMPTY);
            d.Ok? && d.value.name == Some(x) && MapDeclarator(basic, d.value) == PointerTo(basic)
  {
    hide ScanFrom;
    BuildPointers(1, basic);
    assert PointersTo(1, basic) == PointerTo(PointersTo(0, basic));
    assert Pointers(1) + [] == Pointers(1);
  }

  lemma StarCounts(x: string, y: string, f: Flags)
    ensures ScanFrom(Tok(Ident(x), Tok(Star, End)), true, f, NOTHING, 0) == Ok(Found(1, Some(x), End, false))
    ensures ScanFrom(Tok(Ident(x), Tok(Comma, Tok(Star, Tok(Ident(y), End)))), true, f, NOTHING, 0) == Ok(Found(1, Some(x), End, false))
  {
    var named, starred := Found(0, Some(x), End, false), Found(1, Some(x), End, false);
    var second := Tok(Ident(y), End);
    assert ScanFrom(End, true, f, starred, 0) == Ok(starred);
    assert ScanFrom(second, true, f, starred, 0) == ScanFrom(End, true, f, starred, 0);
    assert ScanFrom(Tok(Star, second), true, f, named, 0) == ScanFrom(second, true, f, starred, 0);
    assert ScanFrom(Tok(Comma, Tok(Star, second)), true, f, named, 0) == ScanFrom(Tok(Star, second), true, f, named, 0);
    assert ScanFrom(Tok(Star, End), true, f, named, 0) == ScanFrom(End, true, f, starred, 0);
  }

  /** Out of order: a star behind the name makes a pointer, and so does one of a second
      declarator behind a comma, whose name is dropped. */
  lemma OutOfOrder(x: string, y: string, rest: Tokens)
    requires At(rest, Ender)
    ensures var f := Flags(false, true);
            && ParseType(Tok(Ident(x), Tok(Star, rest)), f, Basic(false)) == Ok(Typed(PointerTo(Basic(false)), Some(x), rest))
            && ParseType(Tok(Ident(x), Tok(Comma, Tok(Star, Tok(Ident(y), rest)))), f, Basic(false))
               == Ok(Typed(PointerTo(Basic(false)), Some(x), rest))
  {
    var f := Flags(false, true);
    GroupEnd(rest, f);
    StarCounts(x, y, f);
    hide Split, ByGroup;
    KeptToken(Star, rest, f, true);
    KeptToken(Ident(x), Tok(Star, rest), f, false);
    OneStar(x, Tok(Star, End), f, Basic(false));
    KeptToken(Ident(y), rest, f, true);
    KeptToken(Star, Tok(Ident(y), rest), f, true);
    KeptToken(Comma, Tok(Star, Tok(Ident(y), rest)), f, true);
    KeptToken(Ident(x), Tok(Comma, Tok(Star, Tok(Ident(y), rest))), f, false);
    OneStar(x, Tok(Comma, Tok(Star, Tok(Ident(y), End))), f, Basic(false));
  }
}
