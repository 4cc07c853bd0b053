/** The declarator parser: tokens are split into nested groups, each group is scanned
    for pointers, a name and array sizes, and a type is put together from the
    outside in. */
module Declarators {
  import opened Wrappers

  datatype Token =
    | Star | Open | Close | SubOpen | SubClose | Comma
    | Ident(name: string)
    | Number(num: nat, isDouble: bool)
    | Ender          // a semicolon, an equals sign, a brace or an operator that ends a declarator
    | Keyword
    | OtherToken

  datatype Tokens = End | Tok(token: Token, next: Tokens)

  datatype Flags = Flags(isAbstract: bool, acceptParams: bool)

  /** Nested parentheses: the tokens of a pair without those of the pair inside. */
  datatype Group = Group(tokens: Tokens, child: Option<Group>)

  datatype DeclError =
    | PointerAfterParens | ParensInvalid | ExpectParenClose | EarlySubscript | FuncPtrUnsupported
    | SizeNonConstant | SizeFloatingPoint | SizeNonPositive | ExpectSquareClose
    | ParamsNotModelled | IdentifierMissing | IdentifierUnexpected | ArrayIncomplete

  datatype Result<+T> = Ok(value: T) | Err(error: DeclError)

  predicate At(k: Tokens, t: Token) {
    k.Tok? && k.token == t
  }

  // ------------------------------------------------------------------- splitting

  /** How many parentheses stand around a name and nothing else. */
  function Lonely(k: Tokens): nat {
    LonelyOpens(k, 0)
  }

  function LonelyOpens(k: Tokens, opens: nat): nat {
    if k.End? then 0
    else if k.token.Open? then LonelyOpens(k.next, opens + 1)
    else if k.token.Ident? && opens > 0 then LonelyCloses(k.next, opens, opens)
    else 0
  }

  function LonelyCloses(k: Tokens, left: nat, opens: nat): nat
    requires left > 0
  {
    if k.End? || !k.token.Close? then 0
    else if left == 1 then opens
    else LonelyCloses(k.next, left - 1, opens)
  }

  /** A parser state: a stretch of tokens has been dropped. */
  function Drop(k: Tokens, n: nat): (r: Tokens)
    ensures n == 0 ==> r == k
    ensures r == k || r < k
    decreases n
  {
    if n == 0 || k.End? then k else Drop(k.next, n - 1)
  }

  /** Whether a token ends the group, given how many parentheses are open. */
  predicate EndsGroup(t: Token, f: Flags, open: nat) {
    || (t.Close? && open == 0)
    || t.Ender? || (t.Comma? && !f.acceptParams) || (f.isAbstract && t.Keyword?)
  }

  function OpenAfter(t: Token, open: nat): nat {
    if t.Close? && open > 0 then open - 1 else if t.Open? then open + 1 else open
  }

  datatype Part = Part(tokens: Tokens, child: Option<Group>, rest: Tokens)

  /** The tokens of a group from here on; the child is the one pair of parentheses
      that comes before a name. */
  function Split(k: Tokens, f: Flags, hasChild: bool, gotName: bool, open: nat): (r: Result<Part>)
    ensures r.Ok? ==> r.value.rest == k || r.value.rest < k
    decreases k
  {
    if k.End? then Ok(Part(End, None, k)) else
    var n := Lonely(k);
    var here := Drop(k, n);
    if here.End? then Ok(Part(End, None, here))
    else if here.token.Open? && !gotName then
      if hasChild then Err(ParensInvalid) else
      var inner := Split(here.next, f, false, false, 0);
      if inner.Err? then inner
      else if !At(inner.value.rest, Close) then Err(ExpectParenClose)
      else
        var others := Split(inner.value.rest.next, f, true, false, open);
        if others.Err? then others
        else Ok(Part(others.value.tokens, Some(Group(inner.value.tokens, inner.value.child)), others.value.rest))
    else if EndsGroup(here.token, f, open) then Ok(Part(End, None, here))
    else
      var others := Split(Drop(here.next, n), f, hasChild, gotName || here.token.Ident?, OpenAfter(here.token, open));
      if others.Err? then others else Ok(others.value.(tokens := Tok(here.token, others.value.tokens)))
  }

  // -------------------------------------------------------------------- scanning

  datatype Found = Found(stars: nat, name: Option<string>, subscript: Tokens, params: bool)

  const NOTHING := Found(0, None, End, false)

  function ScanOne(k: Tokens, leaf: bool, f: Flags, s: Found, open: nat): Result<Found>
    requires k.Tok?
  {
    match k.token
    case Star => Ok(if s.params then s else s.(stars := s.stars + 1))
    case Ident(name) =>
      if s.name.Some? then Ok(s) else if !leaf then Err(ParensInvalid) else Ok(s.(name := Some(name)))
    case SubOpen =>
      var s' := if open == 0 && s.subscript.End? then s.(subscript := k) else s;
      if s'.subscript.Tok? && s'.name.None? && !f.isAbstract && leaf then Err(EarlySubscript) else Ok(s')
    case Open =>
      if !s.params then Ok(s.(params := true)) else if open == 0 then Err(FuncPtrUnsupported) else Ok(s)
    case _ => Ok(s)
  }

  function ScanFrom(k: Tokens, leaf: bool, f: Flags, s: Found, open: nat): Result<Found> {
    if k.End? then Ok(s) else
    var one := ScanOne(k, leaf, f, s, open);
    if one.Err? then one else ScanFrom(k.next, leaf, f, one.value, OpenAfter(k.token, open))
  }

  // ------------------------------------------------------------- putting together

  datatype Fragment = PointerPart | ArrayPart(size: nat)

  datatype Declarator = Declarator(topLevel: nat, prefix: nat, fragment: seq<Fragment>, name: Option<string>)

  const EMPTY := Declarator(0, 0, [], None)

  /** The sizes in the brackets that follow one another. */
  function Sizes(k: Tokens): Result<seq<Fragment>> {
    if !At(k, SubOpen) then Ok([])
    else if !k.next.Tok? || !k.next.token.Number? then Err(SizeNonConstant)
    else if k.next.token.isDouble then Err(SizeFloatingPoint)
    else if k.next.token.num == 0 then Err(SizeNonPositive)
    else if !At(k.next.next, SubClose) then Err(ExpectSquareClose)
    else
      var others := Sizes(k.next.next.next);
      if others.Err? then others else Ok([ArrayPart(k.next.token.num)] + others.value)
  }

  function Pointers(n: nat): (p: seq<Fragment>)
    ensures |p| == n
  {
    if n == 0 then [] else Pointers(n - 1) + [PointerPart]
  }

  /** Array sizes take the pointers so far with them. */
  function AddSizes(sizes: seq<Fragment>, d: Declarator): Declarator {
    if sizes == [] then d else d.(prefix := 0, fragment := sizes + Pointers(d.prefix) + d.fragment)
  }

  function ByGroup(g: Group, f: Flags, d: Declarator): Result<Declarator>
    decreases g
  {
    var scan := ScanFrom(g.tokens, g.child.None?, f, NOTHING, 0);
    if scan.Err? then Err(scan.error) else
    var s := scan.value;
    var d1 := d.(prefix := d.prefix + s.stars, name := if s.name.Some? then s.name else d.name);
    var d2 := if g.child.None? && s.subscript.End? then d1.(topLevel := d1.prefix) else d1;
    var sizes := Sizes(s.subscript);
    if sizes.Err? then Err(sizes.error)
    else if s.params then Err(ParamsNotModelled)
    else
      var d3 := AddSizes(sizes.value, d2);
      if g.child.None? then Ok(d3) else ByGroup(g.child.value, f, d3)
  }

  /** No star may follow a closing parenthesis before the name. */
  predicate StarsFirst(k: Tokens, open: nat, closed: bool) {
    if k.End? || k.token.Ident? || (k.token.Close? && open == 0) then true
    else if k.token.Open? then StarsFirst(k.next, open + 1, closed)
    else if k.token.Close? then StarsFirst(k.next, open - 1, true)
    else !(k.token.Star? && closed) && StarsFirst(k.next, open, closed)
  }

  datatype Parsed = Parsed(declarator: Declarator, rest: Tokens)

  function ParseDeclarator(k: Tokens, f: Flags): Result<Parsed> {
    if !StarsFirst(k, 0, false) then Err(PointerAfterParens) else
    var split := Split(k, f, false, false, 0);
    if split.Err? then Err(split.error) else
    var d := ByGroup(Group(split.value.tokens, split.value.child), f, EMPTY);
    if d.Err? then Err(d.error)
    else if !f.isAbstract && d.value.name.None? then Err(IdentifierMissing)
    else if f.isAbstract && d.value.name.Some? then Err(IdentifierUnexpected)
    else Ok(Parsed(d.value, split.value.rest))
  }

  datatype Type = Basic(isVoid: bool) | PointerTo(referent: Type) | ArrayOf(size: nat, element: Type)

  /** A type with the parts around it, the first one outermost. */
  function Build(parts: seq<Fragment>, t: Type): Type {
    if parts == [] then t else
    match parts[0]
    case PointerPart => PointerTo(Build(parts[1..], t))
    case ArrayPart(n) => ArrayOf(n, Build(parts[1..], t))
  }

  function MapDeclarator(basic: Type, d: Declarator): Type {
    Build(Pointers(d.topLevel) + d.fragment, basic)
  }

  predicate HasArrayOfVoid(t: Type) {
    match t
    case Basic(_) => false
    case PointerTo(r) => HasArrayOfVoid(r)
    case ArrayOf(_, e) => e == Basic(true) || HasArrayOfVoid(e)
  }

  datatype Typed = Typed(ty: Type, name: Option<string>, rest: Tokens)

  /** The type that a declarator gives to its name, or to nothing. */
  function ParseType(k: Tokens, f: Flags, basic: Type): Result<Typed> {
    var p := ParseDeclarator(k, f);
    if p.Err? then Err(p.error) else
    var t := MapDeclarator(basic, p.value.declarator);
    if HasArrayOfVoid(t) then Err(ArrayIncomplete) else Ok(Typed(t, p.value.declarator.name, p.value.rest))
  }
}
