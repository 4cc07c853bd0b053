/** What the expression parser reads: it inverts the flattening of exactly the trees
    that `Climbs` describes, and these are the trees of the grammar of section 6.5
    of ISO C11 up to the two differences that `StandardGrammar` names. */
module ExpressionGrammar {
  import opened Wrappers
  import opened ExpressionTrees
  import opened ExpressionParser

  // -------------------------------------------------------- the trees that are read

  /** How far a chain of postfix operators has come: 0 no operator yet, 1 one step,
      2 a subscript, 3 a closing step, 4 a chain that is never read. */
  function Stage(t: Tree): (s: nat)
    ensures s <= 4
  {
    match t
    case Postfix(_, place) => var s := Stage(place); if s == 0 then 1 else if s < 3 then 3 else 4
    case Subscript(a, _) => if Stage(a) < 3 then 2 else 4
    case _ => 0
  }

  /** An operand may follow a prefix operator and still leave a postfix operator to
      the whole only when its own chain is closed. */
  predicate LeavesPostfix(t: Tree) {
    t.Prefix? ==> Stage(t.operand) >= 3
  }

  predicate IsFactor(t: Tree)
    decreases t, 0
  {
    match t
    case Number(_) => true
    case StringLiteral(_) => true
    case Name(_) => true
    case CallTo(_, args) => AreArgs(args)
    case Enclosed(inner) => Climbs(inner, 0)
    case Prefix(_, operand) => IsFactor(operand)
    case Postfix(_, place) => IsFactor(place) && Stage(place) < 3 && LeavesPostfix(place)
    case Subscript(a, index) => IsFactor(a) && Stage(a) < 3 && LeavesPostfix(a) && Climbs(index, 0)
    case _ => false
  }

  predicate AreArgs(args: Trees)
    decreases args, 0
  {
    args.MoreTrees? ==> Climbs(args.head, 0) && AreArgs(args.tail)
  }

  /** The least precedence that the left operand may have. */
  function LeftMinimum(op: InfixOp): nat {
    Precedence(op) + if RightAssociative(op) then 1 else 0
  }

  /** Every operator binds at least as tightly as its place demands. */
  predicate Climbs(t: Tree, minimum: nat)
    decreases t, 1
  {
    match t
    case Infix(op, left, right) =>
      !op.Ternary? && Precedence(op) >= minimum && Climbs(left, LeftMinimum(op)) && Climbs(right, RightMinimum(op))
    case Conditional(c, a, b) =>
      Precedence(Ternary) >= minimum && Climbs(c, LeftMinimum(Ternary)) && Climbs(a, 0) && Climbs(b, RightMinimum(Ternary))
    case _ => IsFactor(t)
  }

  predicate StartsPostfix(k: Tokens) {
    AtPostfixStep(k) || At(k, SquareOpen)
  }

  /** What follows does not extend the factor t. */
  predicate CoreEnds(t: Tree, k: Tokens)
    decreases t, 0
  {
    match t
    case Name(_) => !At(k, ParenOpen)
    case Prefix(_, operand) => Ends(operand, k)
    case _ => true
  }

  predicate Ends(t: Tree, k: Tokens)
    decreases t, 1
  {
    CoreEnds(t, k) && (Stage(t) < 3 ==> !StartsPostfix(k))
  }

  /** The same for the last factor of an expression. */
  predicate EdgeEnds(t: Tree, k: Tokens) {
    match t
    case Infix(_, _, right) => EdgeEnds(right, k)
    case Conditional(_, _, b) => EdgeEnds(b, k)
    case _ => Ends(t, k)
  }

  /** No operator of at least this precedence follows. */
  predicate Below(k: Tokens, minimum: nat) {
    InfixAt(k).Some? ==> Precedence(InfixAt(k).value) < minimum
  }

  /** An operator of this precedence would still be taken into the right operand. */
  predicate BelowRight(t: Tree, k: Tokens) {
    match t
    case Infix(op, _, _) => Below(k, RightMinimum(op))
    case Conditional(_, _, _) => Below(k, RightMinimum(Ternary))
    case _ => true
  }

  lemma ClimbsLess(t: Tree, minimum: nat, less: nat)
    requires Climbs(t, minimum) && less <= minimum
    ensures Climbs(t, less)
  {
  }

  // ------------------------------------------------------------------ completeness

  function AfterStage(t: Tree, k: Tokens): Result<Read<Tree>> {
    if Stage(t) == 0 then AfterCore(t, k) else if Stage(t) < 3 then AfterPostfix(t, k) else Ok(Read(t, k))
  }

  lemma EndsAfterStage(t: Tree, k: Tokens)
    requires Ends(t, k)
    ensures AfterStage(t, k) == Ok(Read(t, k))
  {
    if Stage(t) < 3 {
      assert ParseSubscripts(t, k) == Ok(Read(t, k));
      assert AfterPostfix(t, k) == Ok(Read(t, k));
    }
  }

  lemma PostfixIsTaken(t: Tree, increment: bool, k: Tokens)
    requires Stage(t) < 3
    ensures AfterStage(t, Tok(PostfixToken(increment), k)) == AfterStage(Postfix(increment, t), k)
  {
    var k' := Tok(PostfixToken(increment), k);
    assert TakePostfix(t, k') == Read(Postfix(increment, t), k);
    if Stage(t) == 0 {
      assert AfterCore(t, k') == AfterPostfix(Postfix(increment, t), k);
    } else {
      assert ParseSubscripts(t, k') == Ok(Read(t, k'));
      assert AfterPostfix(t, k') == Ok(TakePostfix(t, k'));
    }
  }

  lemma PostfixFollows(t: Tree, k: Tokens)
    requires Stage(t) < 3 && LeavesPostfix(t) && StartsPostfix(k)
    ensures CoreEnds(t, k)
  {
    if t.Prefix? {
      assert CoreEnds(t.operand, k);
    }
  }

  lemma SubscriptIsTaken(t: Tree, index: Tree, k: Tokens)
    requires Stage(t) < 3
    requires ParseExpr(Emit(index, Tok(SquareClose, k)), 0) == Ok(Read(index, Tok(SquareClose, k)))
    ensures AfterStage(t, Tok(SquareOpen, Emit(index, Tok(SquareClose, k)))) == AfterStage(Subscript(t, index), k)
  {
    var k' := Tok(SquareOpen, Emit(index, Tok(SquareClose, k)));
    assert TakePostfix(t, k') == Read(t, k');
    assert ParseSubscripts(t, k') == ParseSubscripts(Subscript(t, index), k);
    assert AfterPostfix(t, k') == AfterPostfix(Subscript(t, index), k);
  }

  lemma CoreIsTaken(t: Tree, k: Tokens, rest: Tokens)
    requires ParseCore(k) == Ok(Read(t, rest)) && Stage(t) == 0
    ensures ParseFactor(k) == AfterStage(t, rest)
  {
  }

  lemma {:induction false} FactorIsRead(t: Tree, k: Tokens)
    requires IsFactor(t) && CoreEnds(t, k)
    ensures ParseFactor(Emit(t, k)) == AfterStage(t, k)
    decreases t, 1
  {
    hide AfterStage, ParseFactor, ParseExpr;
    if t.Postfix? {
      var after := Tok(PostfixToken(t.increment), k);
      PostfixIsTaken(t.place, t.increment, k);
      PostfixFollows(t.place, after);
      FactorIsRead(t.place, after);
    } else if t.Subscript? {
      var close := Tok(SquareClose, k);
      var after := Tok(SquareOpen, Emit(t.index, close));
      EdgeBeforeCloser(t.index, close);
      ExprIsRead(t.index, close, 0);
      SubscriptIsTaken(t.base, t.index, k);
      PostfixFollows(t.base, after);
      FactorIsRead(t.base, after);
    } else {
      CoreIsRead(t, k);
      CoreIsTaken(t, Emit(t, k), k);
    }
  }

  lemma {:induction false} CoreIsRead(t: Tree, k: Tokens)
    requires IsFactor(t) && CoreEnds(t, k) && Stage(t) == 0
    ensures ParseCore(Emit(t, k)) == Ok(Read(t, k))
    decreases t, 0
  {
    hide ParseFactor, ParseExpr, ParseArgs, AfterStage, PrefixToken, Precedence;
    match t
    case CallTo(_, args) =>
      if args.MoreTrees? {
        ArgsAreRead(args, k);
        ArgsStart(args, k);
      }
    case Enclosed(inner) =>
      EdgeBeforeCloser(inner, Tok(ParenClose, k));
      ExprIsRead(inner, Tok(ParenClose, k), 0);
    case Prefix(op, operand) =>
      TokenOfPrefix(op);
      FactorIsRead(operand, k);
      EndsAfterStage(operand, k);
    case _ =>
  }

  lemma TokenOfPrefix(op: PrefixOp)
    ensures PrefixOf(PrefixToken(op)) == Some(op)
  {
  }

  /** A token that ends every factor. */
  predicate Closes(k: Tokens) {
    !StartsPostfix(k) && !At(k, ParenOpen)
  }

  lemma {:induction t} FactorBeforeCloser(t: Tree, k: Tokens)
    requires Closes(k)
    ensures CoreEnds(t, k) && Ends(t, k)
  {
  }

  lemma {:induction t} EdgeBeforeCloser(t: Tree, k: Tokens)
    requires Closes(k)
    ensures EdgeEnds(t, k)
  {
    FactorBeforeCloser(t, k);
  }

  /** A list of arguments does not begin with the parenthesis that ends it. */
  lemma {:induction false} NoExprStartsClosed(t: Tree, k: Tokens)
    requires Climbs(t, 0)
    ensures !At(Emit(t, k), ParenClose)
  {
    match t
    case Infix(op, left, right) =>
      ClimbsLess(left, LeftMinimum(op), 0);
      NoExprStartsClosed(left, Tok(InfixToken(op), Emit(right, k)));
    case Conditional(c, a, b) =>
      ClimbsLess(c, LeftMinimum(Ternary), 0);
      NoExprStartsClosed(c, Tok(Question, Emit(a, Tok(Colon, Emit(b, k)))));
    case Postfix(increment, place) =>
      NoExprStartsClosed(place, Tok(PostfixToken(increment), k));
    case Subscript(a, index) =>
      NoExprStartsClosed(a, Tok(SquareOpen, Emit(index, Tok(SquareClose, k))));
    case _ =>
  }

  lemma ArgsStart(args: Trees, k: Tokens)
    requires args.MoreTrees? && AreArgs(args)
    ensures !At(EmitArgs(args, k), ParenClose)
  {
    NoExprStartsClosed(args.head, if args.tail.NoTrees? then Tok(ParenClose, k) else Tok(Comma, EmitArgs(args.tail, k)));
  }

  lemma {:induction false} ArgsAreRead(args: Trees, k: Tokens)
    requires args.MoreTrees? && AreArgs(args)
    ensures ParseArgs(EmitArgs(args, k)) == Ok(Read(args, k))
    decreases args, 0
  {
    var after := if args.tail.NoTrees? then Tok(ParenClose, k) else Tok(Comma, EmitArgs(args.tail, k));
    EdgeBeforeCloser(args.head, after);
    ExprIsRead(args.head, after, 0);
    if args.tail.MoreTrees? {
      ArgsAreRead(args.tail, k);
    }
  }

  lemma TokenOfInfix(op: InfixOp)
    ensures InfixOf(InfixToken(op)) == Some(op)
    ensures forall k :: Closes(Tok(InfixToken(op), k))
  {
  }

  lemma TokenOfTernary()
    ensures InfixToken(Ternary) == Question
  {
  }

  lemma InfixIsTaken(op: InfixOp, left: Tree, right: Tree, k: Tokens, minimum: nat)
    requires !op.Ternary? && Precedence(op) >= minimum
    requires ParseExpr(Emit(right, k), RightMinimum(op)) == Ok(Read(right, k))
    ensures ParseOperators(left, Tok(InfixToken(op), Emit(right, k)), minimum) == ParseOperators(Infix(op, left, right), k, minimum)
  {
    hide ParseExpr, Emit, InfixOf, InfixToken, Precedence, RightMinimum;
    TokenOfInfix(op);
  }

  lemma ConditionalIsTaken(c: Tree, a: Tree, b: Tree, k: Tokens, minimum: nat)
    requires Precedence(Ternary) >= minimum
    requires ParseExpr(Emit(a, Tok(Colon, Emit(b, k))), 0) == Ok(Read(a, Tok(Colon, Emit(b, k))))
    requires ParseExpr(Emit(b, k), RightMinimum(Ternary)) == Ok(Read(b, k))
    ensures ParseOperators(c, Tok(Question, Emit(a, Tok(Colon, Emit(b, k)))), minimum) == ParseOperators(Conditional(c, a, b), k, minimum)
  {
    hide ParseExpr, Emit, Precedence, RightMinimum;
  }

  /** The operator behind a left operand is left to the loop. */
  lemma LeftLeavesOperator(op: InfixOp, left: Tree, k: Tokens)
    requires Climbs(left, LeftMinimum(op))
    ensures BelowRight(left, Tok(InfixToken(op), k))
    ensures EdgeEnds(left, Tok(InfixToken(op), k))
  {
    hide InfixOf, InfixToken, Closes;
    TokenOfInfix(op);
    EdgeBeforeCloser(left, Tok(InfixToken(op), k));
    if left.Infix? {
      NoLevelMixes(left.op, op);
    }
  }

  /** Operators of one precedence associate alike. */
  lemma NoLevelMixes(p: InfixOp, q: InfixOp)
    requires Precedence(p) >= LeftMinimum(q)
    ensures Precedence(q) < RightMinimum(p)
  {
    AssociatesByLevel(p);
    AssociatesByLevel(q);
    hide Precedence, RightAssociative;
  }

  /** Conditionals and assignments, the two lowest levels, group to the right. */
  lemma AssociatesByLevel(op: InfixOp)
    ensures RightAssociative(op) <==> Precedence(op) <= 2 * PRECEDENCE_INCREMENT
  {
  }

  /** Having read t, the parser goes on with the operators behind it. */
  lemma {:induction false} OperandIsRead(t: Tree, k: Tokens, minimum: nat)
    requires Climbs(t, minimum) && EdgeEnds(t, k) && BelowRight(t, k)
    ensures ParseExpr(Emit(t, k), minimum) == ParseOperators(t, k, minimum)
    decreases t, 2
  {
    hide ParseOperators, AfterStage, Precedence, InfixToken;
    TokenOfTernary();
    match t
    case Infix(op, left, right) =>
      ClimbsLess(left, LeftMinimum(op), minimum);
      LeftLeavesOperator(op, left, Emit(right, k));
      OperandIsRead(left, Tok(InfixToken(op), Emit(right, k)), minimum);
      ExprIsRead(right, k, RightMinimum(op));
      InfixIsTaken(op, left, right, k, minimum);
    case Conditional(c, a, b) =>
      var after := Tok(Colon, Emit(b, k));
      ClimbsLess(c, LeftMinimum(Ternary), minimum);
      LeftLeavesOperator(Ternary, c, Emit(a, after));
      OperandIsRead(c, Tok(Question, Emit(a, after)), minimum);
      EdgeBeforeCloser(a, after);
      ExprIsRead(a, after, 0);
      ExprIsRead(b, k, RightMinimum(Ternary));
      ConditionalIsTaken(c, a, b, k, minimum);
    case _ =>
      FactorIsRead(t, k);
      EndsAfterStage(t, k);
  }

  /** The parser inverts flattening. */
  lemma {:induction false} ExprIsRead(t: Tree, k: Tokens, minimum: nat)
    requires Climbs(t, minimum) && EdgeEnds(t, k) && Below(k, minimum)
    ensures ParseExpr(Emit(t, k), minimum) == Ok(Read(t, k))
    decreases t, 3
  {
    OperandIsRead(t, k, minimum);
  }

  // --------------------------------------------------------------------- soundness

  /** A factor that has been read from k, up to rest. */
  predicate FactorFrom(k: Tokens, read: Read<Tree>) {
    k == Emit(read.tree, read.rest) && IsFactor(read.tree)
  }

  lemma {:induction false} ExprIsSound(k: Tokens, minimum: nat)
    requires ParseExpr(k, minimum).Ok?
    ensures var read := ParseExpr(k, minimum).value;
            && k == Emit(read.tree, read.rest)
            && Climbs(read.tree, minimum) && EdgeEnds(read.tree, read.rest) && Below(read.rest, minimum)
    decreases k, 4
  {
    hide ParseFactor;
    FactorIsSound(k);
    var f := ParseFactor(k).value;
    FactorIsOperand(f.tree, f.rest);
    OperatorsAreSound(f.tree, f.rest, minimum, k);
  }

  lemma FactorIsOperand(t: Tree, k: Tokens)
    requires IsFactor(t) && Ends(t, k)
    ensures forall m: nat :: Climbs(t, m)
    ensures EdgeEnds(t, k) && BelowRight(t, k)
  {
  }

  /** A left operand that has been read from start. */
  predicate LeftRead(start: Tokens, left: Tree, k: Tokens, minimum: nat) {
    start == Emit(left, k) && Climbs(left, minimum) && EdgeEnds(left, k) && BelowRight(left, k)
  }

  lemma {:induction false} OperatorsAreSound(left: Tree, k: Tokens, minimum: nat, start: Tokens)
    requires ParseOperators(left, k, minimum).Ok? && LeftRead(start, left, k, minimum)
    ensures var read := ParseOperators(left, k, minimum).value;
            && start == Emit(read.tree, read.rest)
            && Climbs(read.tree, minimum) && EdgeEnds(read.tree, read.rest) && Below(read.rest, minimum)
    decreases k, 0
  {
    hide ParseExpr, Emit, Climbs, EdgeEnds, Precedence, InfixOf, InfixToken, RightMinimum, LeftMinimum;
    var found := InfixAt(k);
    if found.Some? && Precedence(found.value) >= minimum {
      var op := found.value;
      if op.Ternary? {
        ExprIsSound(k.next, 0);
        var middle := ParseExpr(k.next, 0).value;
        ExprIsSound(middle.rest.next, RightMinimum(op));
        var right := ParseExpr(middle.rest.next, RightMinimum(op)).value;
        ConditionalRead(start, left, k, minimum, middle, right);
        OperatorsAreSound(Conditional(left, middle.tree, right.tree), right.rest, minimum, start);
      } else {
        ExprIsSound(k.next, RightMinimum(op));
        var right := ParseExpr(k.next, RightMinimum(op)).value;
        InfixRead(start, left, k, minimum, op, right);
        OperatorsAreSound(Infix(op, left, right.tree), right.rest, minimum, start);
      }
    }
  }

  lemma InfixRead(start: Tokens, left: Tree, k: Tokens, minimum: nat, op: InfixOp, right: Read<Tree>)
    requires LeftRead(start, left, k, minimum) && InfixAt(k) == Some(op) && !op.Ternary? && Precedence(op) >= minimum
    requires k.next == Emit(right.tree, right.rest) && Climbs(right.tree, RightMinimum(op))
    requires EdgeEnds(right.tree, right.rest) && Below(right.rest, RightMinimum(op))
    ensures LeftRead(start, Infix(op, left, right.tree), right.rest, minimum)
  {
    hide Precedence, InfixOf, InfixToken, RightMinimum, LeftMinimum, Ends;
    InfixAtToken(k);
    LeftClimbs(left, minimum, op, k);
    EdgeOfRight(Infix(op, left, right.tree), right.rest);
  }

  lemma ConditionalRead(start: Tokens, left: Tree, k: Tokens, minimum: nat, middle: Read<Tree>, right: Read<Tree>)
    requires LeftRead(start, left, k, minimum) && InfixAt(k) == Some(Ternary) && Precedence(Ternary) >= minimum
    requires k.next == Emit(middle.tree, middle.rest) && Climbs(middle.tree, 0) && At(middle.rest, Colon)
    requires middle.rest.next == Emit(right.tree, right.rest) && Climbs(right.tree, RightMinimum(Ternary))
    requires EdgeEnds(right.tree, right.rest) && Below(right.rest, RightMinimum(Ternary))
    ensures LeftRead(start, Conditional(left, middle.tree, right.tree), right.rest, minimum)
  {
    hide Precedence, InfixOf, RightMinimum, LeftMinimum, Ends;
    InfixAtToken(k);
    LeftClimbs(left, minimum, Ternary, k);
    EdgeOfRight(Conditional(left, middle.tree, right.tree), right.rest);
  }

  lemma EdgeOfRight(t: Tree, k: Tokens)
    requires t.Infix? ==> EdgeEnds(t.right, k)
    requires t.Conditional? ==> EdgeEnds(t.elseTree, k)
    requires t.Infix? || t.Conditional?
    ensures EdgeEnds(t, k)
  {
  }

  lemma PrefixAtToken(k: Tokens)
    requires k.Tok? && PrefixOf(k.token).Some?
    ensures k.token == PrefixToken(PrefixOf(k.token).value)
  {
  }

  lemma InfixAtToken(k: Tokens)
    requires InfixAt(k).Some?
    ensures k.token == InfixToken(InfixAt(k).value)
  {
    var op := InfixAt(k).value;
    if Assigns(op) {
      AssigningToken(k.token);
    } else if RightAssociative(op) || Precedence(op) >= 8 * PRECEDENCE_INCREMENT {
      ComputingToken(k.token);
    } else {
      LogicalToken(k.token);
    }
  }

  lemma AssigningToken(t: Token)
    requires InfixOf(t).Some? && Assigns(InfixOf(t).value)
    ensures t == InfixToken(InfixOf(t).value)
  {
  }

  lemma ComputingToken(t: Token)
    requires InfixOf(t).Some? && !Assigns(InfixOf(t).value)
    requires RightAssociative(InfixOf(t).value) || Precedence(InfixOf(t).value) >= 8 * PRECEDENCE_INCREMENT
    ensures t == InfixToken(InfixOf(t).value)
  {
  }

  lemma LogicalToken(t: Token)
    requires InfixOf(t).Some? && !RightAssociative(InfixOf(t).value) && Precedence(InfixOf(t).value) < 8 * PRECEDENCE_INCREMENT
    ensures t == InfixToken(InfixOf(t).value)
  {
  }

  /** What has been read so far may stand to the left of the next operator. */
  lemma LeftClimbs(left: Tree, minimum: nat, op: InfixOp, k: Tokens)
    requires Climbs(left, minimum) && BelowRight(left, k) && InfixAt(k) == Some(op)
    ensures Climbs(left, LeftMinimum(op))
  {
    if left.Infix? {
      NoLevelIsShared(left.op, op);
    } else if left.Conditional? {
      NoLevelIsShared(Ternary, op);
    }
  }

  lemma NoLevelIsShared(p: InfixOp, q: InfixOp)
    requires Precedence(q) < RightMinimum(p)
    ensures Precedence(p) >= LeftMinimum(q)
  {
    AssociatesByLevel(p);
    AssociatesByLevel(q);
    hide Precedence, RightAssociative;
  }

  lemma {:induction false} FactorIsSound(k: Tokens)
    requires ParseFactor(k).Ok?
    ensures var read := ParseFactor(k).value; FactorFrom(k, read) && Ends(read.tree, read.rest)
    decreases k, 3
  {
    hide ParseCore, AfterPostfix;
    CoreIsSound(k);
    var core := ParseCore(k).value;
    var first := TakePostfix(core.tree, core.rest);
    PostfixIsSound(k, core.tree, core.rest);
    AfterPostfixIsSound(k, first.tree, first.rest);
  }

  lemma {:induction false} CoreIsSound(k: Tokens)
    requires ParseCore(k).Ok?
    ensures var read := ParseCore(k).value;
            FactorFrom(k, read) && Stage(read.tree) == 0 && CoreEnds(read.tree, read.rest)
    ensures var read := ParseCore(k).value; StartsPostfix(read.rest) ==> LeavesPostfix(read.tree)
    decreases k, 2
  {
    hide ParseFactor, ParseExpr, ParseArgs;
    if PrefixOf(k.token).Some? {
      FactorIsSound(k.next);
      PrefixAtToken(k);
      var read := ParseCore(k).value;
      assert k == Emit(read.tree, read.rest);
      assert CoreEnds(read.tree, read.rest);
    } else if k.token.Identifier? {
      var read := ParseCore(k).value;
      if At(k.next, ParenOpen) {
        if At(k.next.next, ParenClose) {
          assert k.next.next == EmitArgs(NoTrees, read.rest) && AreArgs(NoTrees);
          assert IsFactor(read.tree);
          assert FactorFrom(k, read);
        } else {
          ArgsAreSound(k.next.next);
          assert k.next.next == EmitArgs(read.tree.args, read.rest);
          assert IsFactor(read.tree);
          assert FactorFrom(k, read);
        }
      }
      assert k == Emit(read.tree, read.rest);
    } else if k.token.ParenOpen? {
      ExprIsSound(k.next, 0);
    }
  }

  lemma {:induction false} ArgsAreSound(k: Tokens)
    requires ParseArgs(k).Ok?
    ensures var read := ParseArgs(k).value; k == EmitArgs(read.tree, read.rest) && AreArgs(read.tree)
    decreases k, 5
  {
    hide ParseExpr;
    ExprIsSound(k, 0);
    var first := ParseExpr(k, 0).value;
    if At(first.rest, Comma) {
      ArgsAreSound(first.rest.next);
    }
  }

  /** A postfix step on a chain that is still open. */
  lemma PostfixIsSound(start: Tokens, t: Tree, k: Tokens)
    requires FactorFrom(start, Read(t, k)) && Stage(t) < 3
    requires CoreEnds(t, k) && (StartsPostfix(k) ==> LeavesPostfix(t))
    ensures var read := TakePostfix(t, k);
            && FactorFrom(start, read) && CoreEnds(read.tree, read.rest)
            && (StartsPostfix(read.rest) ==> LeavesPostfix(read.tree))
            && (read.tree != t ==> Stage(read.tree) == if Stage(t) == 0 then 1 else 3)
            && (Stage(read.tree) < 3 && AtPostfixStep(read.rest) ==> Stage(read.tree) == 1)
  {
  }

  lemma {:induction false} AfterPostfixIsSound(start: Tokens, t: Tree, k: Tokens)
    requires AfterPostfix(t, k).Ok?
    requires FactorFrom(start, Read(t, k)) && Stage(t) < 3 && CoreEnds(t, k)
    requires StartsPostfix(k) ==> LeavesPostfix(t)
    requires AtPostfixStep(k) ==> Stage(t) > 0
    ensures var read := AfterPostfix(t, k).value; FactorFrom(start, read) && Ends(read.tree, read.rest)
    decreases k, 1
  {
    hide ParseSubscripts;
    SubscriptsAreSound(start, t, k);
    var s := ParseSubscripts(t, k).value;
    PostfixIsSound(start, s.tree, s.rest);
  }

  lemma {:induction false} SubscriptsAreSound(start: Tokens, t: Tree, k: Tokens)
    requires ParseSubscripts(t, k).Ok?
    requires FactorFrom(start, Read(t, k)) && Stage(t) < 3 && CoreEnds(t, k)
    requires StartsPostfix(k) ==> LeavesPostfix(t)
    requires AtPostfixStep(k) ==> Stage(t) > 0
    ensures var read := ParseSubscripts(t, k).value;
            && FactorFrom(start, read) && Stage(read.tree) < 3 && CoreEnds(read.tree, read.rest)
            && !At(read.rest, SquareOpen)
            && (StartsPostfix(read.rest) ==> LeavesPostfix(read.tree))
            && (AtPostfixStep(read.rest) ==> Stage(read.tree) > 0)
    decreases k, 0
  {
    hide ParseExpr;
    if At(k, SquareOpen) {
      ExprIsSound(k.next, 0);
      var index := ParseExpr(k.next, 0).value;
      SubscriptsAreSound(start, Subscript(t, index.tree), index.rest.next);
    }
  }

  // ----------------------------------------------------------- the main statements

  /** The parser accepts exactly the flattened trees, and returns the one tree there
      is. */
  lemma ParserReads(k: Tokens, t: Tree, rest: Tokens)
    ensures ParseExpr(k, 0) == Ok(Read(t, rest))
       <==> k == Emit(t, rest) && Climbs(t, 0) && EdgeEnds(t, rest) && Below(rest, 0)
  {
    if ParseExpr(k, 0) == Ok(Read(t, rest)) {
      ExprIsSound(k, 0);
    } else if k == Emit(t, rest) && Climbs(t, 0) && EdgeEnds(t, rest) && Below(rest, 0) {
      ExprIsRead(t, rest, 0);
    }
  }

  /** A text that ends where no expression goes on has at most one reading. */
  lemma OneReading(t: Tree, u: Tree, k: Tokens)
    requires Climbs(t, 0) && Climbs(u, 0) && Closes(k) && InfixAt(k).None?
    requires Emit(t, k) == Emit(u, k)
    ensures t == u
  {
    EdgeBeforeCloser(t, k);
    EdgeBeforeCloser(u, k);
    ExprIsRead(t, k, 0);
    ExprIsRead(u, k, 0);
  }
}
