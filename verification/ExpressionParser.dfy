/** The precedence-climbing expression parser: as functions of the token list, and
    as methods that move a cursor. */
module ExpressionParser {
  import opened Wrappers
  import opened ExpressionTrees

  datatype ParseError =
    | ExpectReasonable | ExpectParenClose | ExpectCallParenClose | ExpectSquareClose | ExpectColon
    | ConstantTooLarge

  datatype Result<+T> = Ok(value: T) | Err(error: ParseError)

  datatype Read<+T> = Read(tree: T, rest: Tokens)

  predicate At(k: Tokens, t: Token) {
    k.Tok? && k.token == t
  }

  /** The infix operator at the head of the list. */
  function InfixAt(k: Tokens): Option<InfixOp> {
    if k.Tok? then InfixOf(k.token) else None
  }

  function ParseExpr(k: Tokens, minimum: nat): (r: Result<Read<Tree>>)
    ensures r.Ok? ==> r.value.rest < k
    decreases k, 4
  {
    var f := ParseFactor(k);
    if f.Err? then f else ParseOperators(f.value.tree, f.value.rest, minimum)
  }

  /** The loop over the operators that bind at least as tightly as the minimum. */
  function ParseOperators(left: Tree, k: Tokens, minimum: nat): (r: Result<Read<Tree>>)
    ensures r.Ok? ==> r.value.rest == k || r.value.rest < k
    decreases k, 0, 0
  {
    var found := InfixAt(k);
    if found.None? || Precedence(found.value) < minimum then Ok(Read(left, k)) else
    var op := found.value;
    if op.Ternary? then
      var middle := ParseExpr(k.next, 0);
      if middle.Err? then middle
      else if !At(middle.value.rest, Colon) then Err(ExpectColon) else
      var right := ParseExpr(middle.value.rest.next, RightMinimum(op));
      if right.Err? then right
      else ParseOperators(Conditional(left, middle.value.tree, right.value.tree), right.value.rest, minimum)
    else
      var right := ParseExpr(k.next, RightMinimum(op));
      if right.Err? then right
      else ParseOperators(Infix(op, left, right.value.tree), right.value.rest, minimum)
  }

  function ParseFactor(k: Tokens): (r: Result<Read<Tree>>)
    ensures r.Ok? ==> r.value.rest < k
    decreases k, 3
  {
    var core := ParseCore(k);
    if core.Err? then core else AfterCore(core.value.tree, core.value.rest)
  }

  /** A primary expression, or a prefix operator and its operand. */
  function ParseCore(k: Tokens): (r: Result<Read<Tree>>)
    ensures r.Ok? ==> r.value.rest < k
    decreases k, 2
  {
    if k.End? then Err(ExpectReasonable)
    else if PrefixOf(k.token).Some? then
      var operand := ParseFactor(k.next);
      if operand.Err? then operand else Ok(Read(Prefix(PrefixOf(k.token).value, operand.value.tree), operand.value.rest))
    else
      match k.token
      case Constant(text, readable) => if readable then Ok(Read(Number(text), k.next)) else Err(ConstantTooLarge)
      case StringToken(text) => Ok(Read(StringLiteral(text), k.next))
      case Identifier(name) =>
        if !At(k.next, ParenOpen) then Ok(Read(Name(name), k.next))
        else if At(k.next.next, ParenClose) then Ok(Read(CallTo(name, NoTrees), k.next.next.next))
        else
          var args := ParseArgs(k.next.next);
          if args.Err? then Err(args.error) else Ok(Read(CallTo(name, args.value.tree), args.value.rest))
      case ParenOpen =>
        var inner := ParseExpr(k.next, 0);
        if inner.Err? then inner
        else if !At(inner.value.rest, ParenClose) then Err(ExpectParenClose)
        else Ok(Read(Enclosed(inner.value.tree), inner.value.rest.next))
      case _ => Err(ExpectReasonable)
  }

  /** One or more arguments and the closing parenthesis. */
  function ParseArgs(k: Tokens): (r: Result<Read<Trees>>)
    ensures r.Ok? ==> r.value.rest < k && r.value.tree.MoreTrees?
    decreases k, 5
  {
    var first := ParseExpr(k, 0);
    if first.Err? then Err(first.error)
    else if At(first.value.rest, Comma) then
      var others := ParseArgs(first.value.rest.next);
      if others.Err? then others else Ok(Read(MoreTrees(first.value.tree, others.value.tree), others.value.rest))
    else if !At(first.value.rest, ParenClose) then Err(ExpectCallParenClose)
    else Ok(Read(MoreTrees(first.value.tree, NoTrees), first.value.rest.next))
  }

  predicate AtPostfixStep(k: Tokens) {
    At(k, PlusPlus) || At(k, HyphenHyphen)
  }

  /** At most one increment or decrement. */
  function TakePostfix(t: Tree, k: Tokens): (r: Read<Tree>)
    ensures r.rest == k || r.rest < k
  {
    if AtPostfixStep(k) then Read(Postfix(k.token.PlusPlus?, t), k.next) else Read(t, k)
  }

  function ParseSubscripts(t: Tree, k: Tokens): (r: Result<Read<Tree>>)
    ensures r.Ok? ==> r.value.rest == k || r.value.rest < k
    decreases k, 0, 0
  {
    if !At(k, SquareOpen) then Ok(Read(t, k)) else
    var index := ParseExpr(k.next, 0);
    if index.Err? then index
    else if !At(index.value.rest, SquareClose) then Err(ExpectSquareClose)
    else ParseSubscripts(Subscript(t, index.value.tree), index.value.rest.next)
  }

  /** A postfix step, subscripts, and one more postfix step. */
  function AfterCore(t: Tree, k: Tokens): (r: Result<Read<Tree>>)
    ensures r.Ok? ==> r.value.rest == k || r.value.rest < k
    decreases k, 1
  {
    var first := TakePostfix(t, k);
    AfterPostfix(first.tree, first.rest)
  }

  function AfterPostfix(t: Tree, k: Tokens): (r: Result<Read<Tree>>)
    ensures r.Ok? ==> r.value.rest == k || r.value.rest < k
    decreases k, 0, 1
  {
    var subscripts := ParseSubscripts(t, k);
    if subscripts.Err? then subscripts else Ok(TakePostfix(subscripts.value.tree, subscripts.value.rest))
  }

  // --------------------------------------------------------------------- cursor

  /** The trees of a sequence, followed by more trees. */
  function ListOf(s: seq<Tree>, tail: Trees): Trees {
    if s == [] then tail else ListOf(s[..|s| - 1], MoreTrees(s[|s| - 1], tail))
  }

  function AfterArgs(args: seq<Tree>, r: Result<Read<Trees>>): Result<Read<Trees>> {
    if r.Err? then r else Ok(Read(ListOf(args, r.value.tree), r.value.rest))
  }

  class Cursor {
    var tok: Tokens

    constructor (tokens: Tokens)
      ensures tok == tokens
    {
      tok := tokens;
    }

    /** Where the cursor stands after a successful read. */
    twostate predicate Reads<T>(spec: Result<Read<T>>, new r: Result<T>)
      reads this
    {
      match spec
      case Ok(read) => r == Ok(read.tree) && tok == read.rest
      case Err(e) => r == Err(e)
    }

    method Consume()
      requires tok.Tok?
      modifies this
      ensures tok == old(tok).next
    {
      tok := tok.next;
    }

    method Expr(minimum: nat) returns (r: Result<Tree>)
      modifies this
      ensures Reads(ParseExpr(old(tok), minimum), r)
      decreases tok, 4
    {
      ghost var start := tok;
      r := Factor();
      if r.Err? {
        return;
      }
      var left := r.value;
      ghost var after := tok;
      while true
        invariant tok == after || tok < after
        invariant ParseExpr(start, minimum) == ParseOperators(left, tok, minimum)
        decreases tok
      {
        var found := InfixAt(tok);
        if found.None? || Precedence(found.value) < minimum {
          break;
        }
        var op := found.value;
        Consume();
        if op.Ternary? {
          var middle := Expr(0);
          if middle.Err? {
            return middle;
          }
          if !At(tok, Colon) {
            return Err(ExpectColon);
          }
          Consume();
          var right := Expr(RightMinimum(op));
          if right.Err? {
            return right;
          }
          left := Conditional(left, middle.value, right.value);
        } else {
          var right := Expr(RightMinimum(op));
          if right.Err? {
            return right;
          }
          left := Infix(op, left, right.value);
        }
      }
      return Ok(left);
    }

    method Symbol() returns (r: Result<Tree>)
      requires tok.Tok? && tok.token.Identifier?
      modifies this
      ensures Reads(ParseCore(old(tok)), r)
      decreases tok, 1
    {
      var name := tok.token.name;
      Consume();
      if !At(tok, ParenOpen) {
        return Ok(Name(name));
      }
      Consume();
      if At(tok, ParenClose) {
        Consume();
        return Ok(CallTo(name, NoTrees));
      }
      var args := Args();
      r := if args.Err? then Err(args.error) else Ok(CallTo(name, args.value));
    }

    method Args() returns (r: Result<Trees>)
      modifies this
      ensures Reads(ParseArgs(old(tok)), r)
      decreases tok, 5
    {
      ghost var start := tok;
      var args: seq<Tree> := [];
      while true
        invariant tok == start || tok < start
        invariant ParseArgs(start) == AfterArgs(args, ParseArgs(tok))
        decreases tok
      {
        var arg := Expr(0);
        if arg.Err? {
          return Err(arg.error);
        }
        args := args + [arg.value];
        if !At(tok, Comma) {
          break;
        }
        Consume();
      }
      if !At(tok, ParenClose) {
        return Err(ExpectCallParenClose);
      }
      Consume();
      return Ok(ListOf(args, NoTrees));
    }

    method PostfixStep(t: Tree) returns (r: Tree)
      modifies this
      ensures Read(r, tok) == TakePostfix(t, old(tok))
    {
      r := t;
      if At(tok, PlusPlus) {
        r := Postfix(true, t);
        Consume();
      } else if At(tok, HyphenHyphen) {
        r := Postfix(false, t);
        Consume();
      }
    }

    method Factor() returns (r: Result<Tree>)
      modifies this
      ensures Reads(ParseFactor(old(tok)), r)
      decreases tok, 3
    {
      ghost var start := tok;
      var t: Tree;
      if tok.Tok? && PrefixOf(tok.token).Some? {
        var op := PrefixOf(tok.token).value;
        Consume();
        var operand := Factor();
        if operand.Err? {
          return operand;
        }
        t := Prefix(op, operand.value);
      } else if tok.Tok? && tok.token.Constant? {
        if !tok.token.readable {
          return Err(ConstantTooLarge);
        }
        t := Number(tok.token.text);
        Consume();
      } else if tok.Tok? && tok.token.StringToken? {
        t := StringLiteral(tok.token.text);
        Consume();
      } else if tok.Tok? && tok.token.Identifier? {
        var symbol := Symbol();
        if symbol.Err? {
          return symbol;
        }
        t := symbol.value;
      } else if At(tok, ParenOpen) {
        Consume();
        var inner := Expr(0);
        if inner.Err? {
          return inner;
        }
        if !At(tok, ParenClose) {
          return Err(ExpectParenClose);
        }
        Consume();
        t := Enclosed(inner.value);
      } else {
        return Err(ExpectReasonable);
      }
      assert ParseCore(start) == Ok(Read(t, tok));

      t := PostfixStep(t);
      while At(tok, SquareOpen)
        invariant tok < start
        invariant ParseFactor(start) == AfterPostfix(t, tok)
        decreases tok
      {
        Consume();
        var index := Expr(0);
        if index.Err? {
          return index;
        }
        if !At(tok, SquareClose) {
          return Err(ExpectSquareClose);
        }
        t := Subscript(t, index.value);
        Consume();
      }
      t := PostfixStep(t);
      return Ok(t);
    }
  }
}
