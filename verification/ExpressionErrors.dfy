/** What an error of the expression parser says: somewhere in the text stands what the
    error names. Nothing here is said in terms of the parser's own readings. */
module ExpressionErrors {
  import opened Wrappers
  import opened ExpressionTrees
  import opened ExpressionParser
  import opened ExpressionGrammar

  predicate Suffix(q: Tokens, k: Tokens) {
    q == k || (k.Tok? && Suffix(q, k.next))
  }

  /** An expression as far as it goes, and what stands behind it. */
  ghost predicate Whole(k: Tokens, t: Tree, rest: Tokens) {
    k == Emit(t, rest) && Climbs(t, 0) && EdgeEnds(t, rest) && Below(rest, 0)
  }

  /** Something is opened, an expression follows, and what should close it does not. */
  ghost predicate Unclosed(q: Tokens, open: Token, close: Token) {
    At(q, open) && exists t, rest :: Whole(q.next, t, rest) && !At(rest, close)
  }

  predicate StartsNothing(q: Tokens) {
    q.Tok? ==>
      && (forall op :: q.token != PrefixToken(op))
      && !q.token.Constant? && !q.token.StringToken? && !q.token.Identifier? && !q.token.ParenOpen?
  }

  ghost predicate Faulty(q: Tokens, e: ParseError) {
    match e
    case ExpectReasonable => StartsNothing(q)
    case ConstantTooLarge => q.Tok? && q.token.Constant? && !q.token.readable
    case ExpectParenClose => Unclosed(q, ParenOpen, ParenClose)
    case ExpectSquareClose => Unclosed(q, SquareOpen, SquareClose)
    case ExpectColon => Unclosed(q, Question, Colon)
    case ExpectCallParenClose =>
      (At(q, ParenOpen) || At(q, Comma)) && exists t, rest :: Whole(q.next, t, rest) && !At(rest, Comma) && !At(rest, ParenClose)
  }

  ghost predicate Justified(k: Tokens, e: ParseError) {
    exists q :: Suffix(q, k) && Faulty(q, e)
  }

  ghost predicate Told<T>(r: Result<Read<T>>, k: Tokens) {
    match r
    case Ok(v) => Suffix(v.rest, k)
    case Err(e) => Justified(k, e)
  }

  lemma {:induction false} SuffixOf(p: Tokens, q: Tokens, k: Tokens)
    requires Suffix(p, q) && Suffix(q, k)
    ensures Suffix(p, k)
    decreases k
  {
    if q != k {
      SuffixOf(p, q, k.next);
    }
  }

  /** What is told of a part is told of the whole. */
  lemma ToldLater<T>(r: Result<Read<T>>, q: Tokens, k: Tokens)
    requires Told(r, q) && Suffix(q, k)
    ensures Told(r, k)
  {
    hide Faulty, Suffix;
    match r
    case Ok(v) => SuffixOf(v.rest, q, k);
    case Err(e) =>
      var p :| Suffix(p, q) && Faulty(p, e);
      SuffixOf(p, q, k);
  }

  lemma Here<T>(r: Result<Read<T>>, q: Tokens, k: Tokens)
    requires r.Err? && Faulty(q, r.error) && Suffix(q, k)
    ensures Told(r, k)
  {
    hide Faulty, Suffix;
  }

  lemma Next(k: Tokens)
    requires k.Tok?
    ensures Suffix(k.next, k)
  {
  }

  lemma WholeRead(k: Tokens)
    requires ParseExpr(k, 0).Ok?
    ensures Whole(k, ParseExpr(k, 0).value.tree, ParseExpr(k, 0).value.rest)
  {
    hide ParseExpr, Climbs, EdgeEnds, Below, Emit;
    ParserReads(k, ParseExpr(k, 0).value.tree, ParseExpr(k, 0).value.rest);
  }

  lemma {:induction false} ExprTold(k: Tokens, minimum: nat)
    ensures Told(ParseExpr(k, minimum), k)
    decreases k, 4
  {
    hide Suffix, Faulty, ParseFactor, ParseOperators, Justified;
    FactorTold(k);
    var f := ParseFactor(k);
    if f.Ok? {
      OperatorsTold(f.value.tree, f.value.rest, minimum);
      ToldLater(ParseOperators(f.value.tree, f.value.rest, minimum), f.value.rest, k);
    }
  }

  lemma {:induction false} OperatorsTold(left: Tree, k: Tokens, minimum: nat)
    ensures Told(ParseOperators(left, k, minimum), k)
    decreases k, 0, 1
  {
    var found := InfixAt(k);
    if found.Some? && Precedence(found.value) >= minimum {
      Next(k);
      if found.value.Ternary? {
        TernaryTold(left, k, minimum);
      } else {
        hide Suffix, Faulty, ParseExpr, Justified;
        ExprTold(k.next, RightMinimum(found.value));
        ToldLater(ParseExpr(k.next, RightMinimum(found.value)), k.next, k);
        var right := ParseExpr(k.next, RightMinimum(found.value));
        if right.Ok? {
          OperatorsTold(Infix(found.value, left, right.value.tree), right.value.rest, minimum);
          ToldLater(ParseOperators(Infix(found.value, left, right.value.tree), right.value.rest, minimum), right.value.rest, k);
        }
      }
    }
  }

  lemma {:induction false} TernaryTold(left: Tree, k: Tokens, minimum: nat)
    requires InfixAt(k) == Some(Ternary) && Precedence(Ternary) >= minimum
    ensures Told(ParseOperators(left, k, minimum), k)
    decreases k, 0, 0
  {
    Next(k);
    QuestionHere(k);
    hide Suffix, Faulty, ParseExpr, Justified;
    ExprTold(k.next, 0);
    ToldLater(ParseExpr(k.next, 0), k.next, k);
    var middle := ParseExpr(k.next, 0);
    if middle.Ok? {
      if !At(middle.value.rest, Colon) {
        NotClosed(k, Question, Colon, ExpectColon);
        Here(ParseOperators(left, k, minimum), k, k);
      } else {
        var after := middle.value.rest.next;
        Next(middle.value.rest);
        SuffixOf(after, middle.value.rest, k);
        ExprTold(after, RightMinimum(Ternary));
        ToldLater(ParseExpr(after, RightMinimum(Ternary)), after, k);
        var right := ParseExpr(after, RightMinimum(Ternary));
        if right.Ok? {
          var t := Conditional(left, middle.value.tree, right.value.tree);
          OperatorsTold(t, right.value.rest, minimum);
          ToldLater(ParseOperators(t, right.value.rest, minimum), right.value.rest, k);
        }
      }
    }
  }

  lemma QuestionHere(k: Tokens)
    requires InfixAt(k) == Some(Ternary)
    ensures At(k, Question) && Suffix(k, k)
  {
  }

  /** The expression behind the opening token ends in front of something else. */
  lemma NotClosed(q: Tokens, open: Token, close: Token, e: ParseError)
    requires At(q, open) && ParseExpr(q.next, 0).Ok? && !At(ParseExpr(q.next, 0).value.rest, close)
    requires (open, close, e) in {(ParenOpen, ParenClose, ExpectParenClose), (SquareOpen, SquareClose, ExpectSquareClose), (Question, Colon, ExpectColon)}
    ensures Faulty(q, e) && Suffix(q, q)
  {
    hide Whole, ParseExpr;
    WholeRead(q.next);
  }

  lemma {:induction false} FactorTold(k: Tokens)
    ensures Told(ParseFactor(k), k)
    decreases k, 3
  {
    hide Suffix, Faulty, ParseCore, AfterCore, Justified;
    CoreTold(k);
    var core := ParseCore(k);
    if core.Ok? {
      AfterTold(core.value.tree, core.value.rest);
      ToldLater(AfterCore(core.value.tree, core.value.rest), core.value.rest, k);
    }
  }

  lemma {:induction false} CoreTold(k: Tokens)
    ensures Told(ParseCore(k), k)
    decreases k, 2
  {
    if k.End? {
      Here(ParseCore(k), k, k);
    } else if PrefixOf(k.token).Some? {
      Next(k);
      hide Suffix, Faulty, ParseFactor, Justified;
      FactorTold(k.next);
      ToldLater(ParseFactor(k.next), k.next, k);
    } else {
      PrimaryTold(k);
    }
  }

  lemma {:induction false} PrimaryTold(k: Tokens)
    requires k.Tok? && PrefixOf(k.token).None?
    ensures Told(ParseCore(k), k)
    decreases k, 1
  {
    Next(k);
    match k.token
    case Identifier(name) => NameTold(name, k);
    case ParenOpen =>
      hide Suffix, Faulty, ParseExpr, Justified;
      ExprTold(k.next, 0);
      ToldLater(ParseExpr(k.next, 0), k.next, k);
      var inner := ParseExpr(k.next, 0);
      if inner.Ok? {
        if At(inner.value.rest, ParenClose) {
          Next(inner.value.rest);
          SuffixOf(inner.value.rest.next, inner.value.rest, k);
        } else {
          NotClosed(k, ParenOpen, ParenClose, ExpectParenClose);
          Here(ParseCore(k), k, k);
        }
      }
    case Constant(text, readable) =>
      if !readable {
        Here(ParseCore(k), k, k);
      }
    case StringToken(text) =>
    case _ => NothingStarts(k);
  }

  lemma NothingStarts(k: Tokens)
    requires k.Tok? && PrefixOf(k.token).None?
    requires !k.token.Constant? && !k.token.StringToken? && !k.token.Identifier? && !k.token.ParenOpen?
    ensures Told(ParseCore(k), k)
  {
    NoPrefix(k.token);
    Here(ParseCore(k), k, k);
  }

  lemma NoPrefix(t: Token)
    requires PrefixOf(t).None?
    ensures forall op :: t != PrefixToken(op)
  {
  }

  lemma {:induction false} NameTold(name: string, k: Tokens)
    requires At(k, Identifier(name))
    ensures Told(ParseCore(k), k)
    decreases k, 0
  {
    Next(k);
    if At(k.next, ParenOpen) {
      Next(k.next);
      SuffixOf(k.next.next, k.next, k);
      if At(k.next.next, ParenClose) {
        Next(k.next.next);
        SuffixOf(k.next.next.next, k.next.next, k);
      } else {
        hide Suffix, Faulty, ParseArgs, Justified;
        ArgsTold(k.next);
        ToldLater(ParseArgs(k.next.next), k.next, k);
      }
    }
  }

  /** The arguments behind an opening parenthesis or a comma. */
  lemma {:induction false} ArgsTold(q: Tokens)
    requires At(q, ParenOpen) || At(q, Comma)
    ensures Told(ParseArgs(q.next), q)
    decreases q.next, 5
  {
    Next(q);
    hide Suffix, Faulty, ParseExpr, Justified;
    ExprTold(q.next, 0);
    ToldLater(ParseExpr(q.next, 0), q.next, q);
    var first := ParseExpr(q.next, 0);
    if first.Ok? {
      var behind := first.value.rest;
      if At(behind, Comma) {
        ArgsTold(behind);
        ToldLater(ParseArgs(behind.next), behind, q);
      } else if At(behind, ParenClose) {
        Next(behind);
        SuffixOf(behind.next, behind, q);
      } else {
        CallNotClosed(q);
        Here(ParseArgs(q.next), q, q);
      }
    }
  }

  lemma CallNotClosed(q: Tokens)
    requires (At(q, ParenOpen) || At(q, Comma)) && ParseExpr(q.next, 0).Ok?
    requires !At(ParseExpr(q.next, 0).value.rest, Comma) && !At(ParseExpr(q.next, 0).value.rest, ParenClose)
    ensures Faulty(q, ExpectCallParenClose) && Suffix(q, q)
  {
    hide Whole, ParseExpr;
    WholeRead(q.next);
  }

  lemma StepTold(t: Tree, k: Tokens)
    ensures Suffix(TakePostfix(t, k).rest, k)
  {
    if AtPostfixStep(k) {
      Next(k);
    }
  }

  lemma {:induction false} AfterTold(t: Tree, k: Tokens)
    ensures Told(AfterCore(t, k), k)
    decreases k, 1
  {
    var first := TakePostfix(t, k);
    StepTold(t, k);
    hide Suffix, Faulty, Justified, ParseSubscripts, TakePostfix;
    SubscriptsTold(first.tree, first.rest);
    ToldLater(ParseSubscripts(first.tree, first.rest), first.rest, k);
    var subscripts := ParseSubscripts(first.tree, first.rest);
    if subscripts.Ok? {
      StepTold(subscripts.value.tree, subscripts.value.rest);
      SuffixOf(TakePostfix(subscripts.value.tree, subscripts.value.rest).rest, subscripts.value.rest, k);
    }
  }

  lemma {:induction false} SubscriptsTold(t: Tree, k: Tokens)
    ensures Told(ParseSubscripts(t, k), k)
    decreases k, 0, 0
  {
    if At(k, SquareOpen) {
      Next(k);
      hide Suffix, Faulty, ParseExpr, Justified;
      ExprTold(k.next, 0);
      ToldLater(ParseExpr(k.next, 0), k.next, k);
      var index := ParseExpr(k.next, 0);
      if index.Ok? {
        if At(index.value.rest, SquareClose) {
          var after := index.value.rest.next;
          Next(index.value.rest);
          SuffixOf(after, index.value.rest, k);
          SubscriptsTold(Subscript(t, index.value.tree), after);
          ToldLater(ParseSubscripts(Subscript(t, index.value.tree), after), after, k);
        } else {
          NotClosed(k, SquareOpen, SquareClose, ExpectSquareClose);
          Here(ParseSubscripts(t, k), k, k);
        }
      }
    }
  }

  /** When the parser fails, the text holds what its error names. */
  lemma ErrorsJustified(k: Tokens, minimum: nat)
    requires ParseExpr(k, minimum).Err?
    ensures exists q :: Suffix(q, k) && Faulty(q, ParseExpr(k, minimum).error)
  {
    hide Suffix, Faulty, ParseExpr;
    ExprTold(k, minimum);
  }
}
