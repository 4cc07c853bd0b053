/** The declarator parser as it runs: a token cursor, and a declarator whose fields
    are filled in group by group. */
module DeclaratorParser {
  import opened Wrappers
  import opened Declarators

  /** The tokens of a sequence as a list, with more tokens behind. */
  function ListThen(s: seq<Token>, tail: Tokens): Tokens {
    if s == [] then tail else ListThen(s[..|s| - 1], Tok(s[|s| - 1], tail))
  }

  /** A group of which some tokens and perhaps the child have been collected. */
  function Joined(s: seq<Token>, child: Option<Group>, r: Result<Part>): Result<Part> {
    if r.Err? then r
    else Ok(Part(ListThen(s, r.value.tokens), if child.Some? then child else r.value.child, r.value.rest))
  }

  class Cursor {
    var tok: Tokens

    constructor (tokens: Tokens)
      ensures tok == tokens
    {
      tok := tokens;
    }

    method Consume()
      requires tok.Tok?
      modifies this
      ensures tok == old(tok).next
    {
      tok := tok.next;
    }

    method Skip(n: nat)
      modifies this
      ensures tok == Drop(old(tok), n)
    {
      var i: nat := n;
      while i > 0 && tok.Tok?
        invariant i <= n && Drop(old(tok), n) == Drop(tok, i)
      {
        Consume();
        i := i - 1;
      }
    }

    method Precheck() returns (ok: bool)
      ensures ok == StarsFirst(tok, 0, false)
    {
      var t := tok;
      var open: nat, closed := 0, false;
      while t.Tok?
        invariant StarsFirst(tok, 0, false) == StarsFirst(t, open, closed)
        decreases t
      {
        if t.token.Ident? || (t.token.Close? && open == 0) {
          break;
        }
        if t.token.Open? {
          open := open + 1;
        } else if t.token.Close? {
          open := open - 1;
          closed := true;
        } else if t.token.Star? && closed {
          return false;
        }
        t := t.next;
      }
      return true;
    }

    /** Counts opening parentheses, then looks for a name and as many closing ones. */
    method LonelySymbol() returns (n: nat)
      ensures n == Lonely(tok)
    {
      var t := tok;
      var opens := 0;
      while t.Tok? && t.token.Open?
        invariant Lonely(tok) == LonelyOpens(t, opens)
        decreases t
      {
        opens := opens + 1;
        t := t.next;
      }
      if t.End? || !t.token.Ident? || opens == 0 {
        return 0;
      }
      t := t.next;
      var left := opens;
      while t.Tok? && t.token.Close?
        invariant left > 0 && Lonely(tok) == LonelyCloses(t, left, opens)
        decreases t
      {
        left := left - 1;
        if left == 0 {
          return opens;
        }
        t := t.next;
      }
      return 0;
    }

    method GroupSplit(f: Flags) returns (r: Result<Group>)
      modifies this
      ensures var spec := Split(old(tok), f, false, false, 0);
              match r
              case Ok(g) => spec == Ok(Part(g.tokens, g.child, tok))
              case Err(e) => spec == Err(e)
      decreases tok
    {
      ghost var start := tok;
      var tokens: seq<Token> := [];
      var child: Option<Group> := None;
      var gotName, open := false, 0;
      while tok.Tok?
        invariant tok == start || tok < start
        invariant Split(start, f, false, false, 0) == Joined(tokens, child, Split(tok, f, child.Some?, gotName, open))
        decreases tok
      {
        var lonely := LonelySymbol();
        Skip(lonely);
        if tok.End? {
          break;
        }
        if tok.token.Open? && !gotName {
          Consume();
          if child.Some? {
            return Err(ParensInvalid);
          }
          var inner := GroupSplit(f);
          if inner.Err? {
            return inner;
          }
          if !At(tok, Close) {
            return Err(ExpectParenClose);
          }
          Consume();
          child := Some(inner.value);
        } else {
          if EndsGroup(tok.token, f, open) {
            break;
          }
          tokens := tokens + [tok.token];
          gotName := gotName || tok.token.Ident?;
          open := OpenAfter(tok.token, open);
          Consume();
          Skip(lonely);
        }
      }
      return Ok(Group(ListThen(tokens, End), child));
    }
  }

  method ScanGroup(g: Group, f: Flags) returns (r: Result<Found>)
    ensures r == ScanFrom(g.tokens, g.child.None?, f, NOTHING, 0)
  {
    var s, open, t := NOTHING, 0, g.tokens;
    while t.Tok?
      invariant ScanFrom(g.tokens, g.child.None?, f, NOTHING, 0) == ScanFrom(t, g.child.None?, f, s, open)
      decreases t
    {
      var one := ScanOne(t, g.child.None?, f, s, open);
      if one.Err? {
        return one;
      }
      s := one.value;
      open := OpenAfter(t.token, open);
      t := t.next;
    }
    return Ok(s);
  }

  /** The sizes of brackets, collected one after the other. */
  method ReadSizes(start: Tokens) returns (r: Result<seq<Fragment>>)
    ensures r == Sizes(start)
  {
    var t := start;
    var sizes: seq<Fragment> := [];
    NoSizes(Sizes(start));
    while At(t, SubOpen)
      invariant Sizes(start) == AfterSizes(sizes, Sizes(t))
      decreases t
    {
      t := t.next;
      if !t.Tok? || !t.token.Number? {
        return Err(SizeNonConstant);
      }
      if t.token.isDouble {
        return Err(SizeFloatingPoint);
      }
      if t.token.num == 0 {
        return Err(SizeNonPositive);
      }
      var size := ArrayPart(t.token.num);
      t := t.next;
      if !At(t, SubClose) {
        return Err(ExpectSquareClose);
      }
      t := t.next;
      MoreSizes(sizes, size, Sizes(t));
      sizes := sizes + [size];
    }
    assert sizes + [] == sizes;
    return Ok(sizes);
  }

  function AfterSizes(sizes: seq<Fragment>, r: Result<seq<Fragment>>): Result<seq<Fragment>> {
    if r.Err? then r else Ok(sizes + r.value)
  }

  lemma NoSizes(r: Result<seq<Fragment>>)
    ensures AfterSizes([], r) == r
  {
    if r.Ok? {
      assert [] + r.value == r.value;
    }
  }

  lemma MoreSizes(sizes: seq<Fragment>, size: Fragment, r: Result<seq<Fragment>>)
    ensures AfterSizes(sizes, AfterSizes([size], r)) == AfterSizes(sizes + [size], r)
  {
    if r.Ok? {
      assert sizes + ([size] + r.value) == sizes + [size] + r.value;
    }
  }

  class DeclaratorBuilder {
    var topLevel: nat
    var prefix: nat
    var fragment: seq<Fragment>
    var name: Option<string>

    function Contents(): Declarator
      reads this
    {
      Declarator(topLevel, prefix, fragment, name)
    }

    constructor ()
      ensures Contents() == EMPTY
    {
      topLevel, prefix, fragment, name := 0, 0, [], None;
    }

    /** Brackets take along the pointers that have been counted so far. */
    method AddBrackets(subscript: Tokens) returns (error: Option<DeclError>)
      modifies this
      ensures match Sizes(subscript)
              case Ok(sizes) => error == None && Contents() == AddSizes(sizes, old(Contents()))
              case Err(e) => error == Some(e)
    {
      var sizes := ReadSizes(subscript);
      if sizes.Err? {
        return Some(sizes.error);
      }
      if sizes.value != [] {
        var parts := sizes.value;
        ghost var all := prefix;
        while prefix > 0
          invariant parts + Pointers(prefix) == sizes.value + Pointers(all)
          invariant Contents() == old(Contents()).(prefix := prefix)
        {
          assert Pointers(prefix) == Pointers(prefix - 1) + [PointerPart];
          PointersCommute(prefix - 1);
          parts := parts + [PointerPart];
          prefix := prefix - 1;
        }
        fragment := parts + fragment;
      }
      return None;
    }

    method ByGroup(g: Group, f: Flags) returns (error: Option<DeclError>)
      modifies this
      ensures match Declarators.ByGroup(g, f, old(Contents()))
              case Ok(d) => error == None && Contents() == d
              case Err(e) => error == Some(e)
      decreases g
    {
      var scan := ScanGroup(g, f);
      if scan.Err? {
        return Some(scan.error);
      }
      var s := scan.value;
      prefix := prefix + s.stars;
      if s.name.Some? {
        name := s.name;
      }
      if g.child.None? && s.subscript.End? {
        topLevel := prefix;
      }
      error := AddBrackets(s.subscript);
      if error.Some? {
        return;
      }
      if s.params {
        return Some(ParamsNotModelled);
      }
      if g.child.Some? {
        error := ByGroup(g.child.value, f);
      }
    }

    method MapToType(basic: Type) returns (t: Type)
      ensures t == MapDeclarator(basic, Contents())
    {
      var parts := Pointers(topLevel) + fragment;
      t := basic;
      assert parts[|parts|..] == [];
      for i := |parts| downto 0
        invariant t == Build(parts[i..], basic)
      {
        assert parts[i..][1..] == parts[i + 1..];
        match parts[i] {
          case PointerPart => t := PointerTo(t);
          case ArrayPart(n) => t := ArrayOf(n, t);
        }
      }
      assert parts[0..] == parts;
    }
  }

  lemma {:induction false} PointersCommute(n: nat)
    ensures Pointers(n) + [PointerPart] == [PointerPart] + Pointers(n)
  {
    if n > 0 {
      PointersCommute(n - 1);
    }
  }

  /** The whole of it: the type and the name, and the cursor behind the declarator. */
  method ReadType(c: Cursor, f: Flags, basic: Type) returns (r: Result<(Type, Option<string>)>)
    modifies c
    ensures match ParseType(old(c.tok), f, basic)
            case Ok(typed) => r == Ok((typed.ty, typed.name)) && c.tok == typed.rest
            case Err(e) => r == Err(e)
  {
    hide Split, Declarators.ByGroup, StarsFirst;
    var ok := c.Precheck();
    if !ok {
      return Err(PointerAfterParens);
    }
    var group := c.GroupSplit(f);
    if group.Err? {
      return Err(group.error);
    }
    var d := new DeclaratorBuilder();
    var error := d.ByGroup(group.value, f);
    if error.Some? {
      return Err(error.value);
    }
    if !f.isAbstract && d.name.None? {
      return Err(IdentifierMissing);
    }
    if f.isAbstract && d.name.Some? {
      return Err(IdentifierUnexpected);
    }
    var t := d.MapToType(basic);
    if HasArrayOfVoid(t) {
      return Err(ArrayIncomplete);
    }
    return Ok((t, d.name));
  }
}
