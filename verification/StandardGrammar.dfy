/** The expression grammar of section 6.5 of ISO C11, without casts, sizeof, member
    access, compound literals and the comma operator, and how far the parser's trees
    agree with it. */
module StandardGrammar {
  import opened ExpressionTrees
  import opened ExpressionParser
  import opened ExpressionGrammar

  datatype Nonterminal =
    | PrimaryExpr | PostfixExpr | UnaryExpr
    | MultiplicativeExpr | AdditiveExpr | ShiftExpr | RelationalExpr | EqualityExpr
    | AndExpr | ExclusiveOrExpr | InclusiveOrExpr | LogicalAndExpr | LogicalOrExpr
    | ConditionalExpr | AssignmentExpr
  {
    function Rank(): nat {
      match this
      case PrimaryExpr => 0 case PostfixExpr => 1 case UnaryExpr => 2
      case MultiplicativeExpr => 3 case AdditiveExpr => 4 case ShiftExpr => 5
      case RelationalExpr => 6 case EqualityExpr => 7 case AndExpr => 8
      case ExclusiveOrExpr => 9 case InclusiveOrExpr => 10 case LogicalAndExpr => 11
      case LogicalOrExpr => 12 case ConditionalExpr => 13 case AssignmentExpr => 14
    }
  }

  predicate Derives(n: Nonterminal, t: Tree)
    decreases t, n.Rank()
  {
    match n
    case PrimaryExpr =>
      t.Number? || t.StringLiteral? || t.Name? || (t.Enclosed? && Derives(AssignmentExpr, t.inner))
    case PostfixExpr =>
      || Derives(PrimaryExpr, t)
      || (t.Subscript? && Derives(PostfixExpr, t.base) && Derives(AssignmentExpr, t.index))
      || (t.CallTo? && DeriveArgs(t.args))
      || (t.Postfix? && Derives(PostfixExpr, t.place))
    case UnaryExpr =>
      Derives(PostfixExpr, t) || (t.Prefix? && Derives(UnaryExpr, t.operand))
    case MultiplicativeExpr =>
      || Derives(UnaryExpr, t)
      || (t.Infix? && t.op in {Multiply, Divide, Remainder} && Derives(MultiplicativeExpr, t.left) && Derives(UnaryExpr, t.right))
    case AdditiveExpr =>
      || Derives(MultiplicativeExpr, t)
      || (t.Infix? && t.op in {Add, Subtract} && Derives(AdditiveExpr, t.left) && Derives(MultiplicativeExpr, t.right))
    case ShiftExpr =>
      || Derives(AdditiveExpr, t)
      || (t.Infix? && t.op in {ShiftLeft, ShiftRight} && Derives(ShiftExpr, t.left) && Derives(AdditiveExpr, t.right))
    case RelationalExpr =>
      || Derives(ShiftExpr, t)
      || (t.Infix? && t.op in {Less, LessEq, More, MoreEq} && Derives(RelationalExpr, t.left) && Derives(ShiftExpr, t.right))
    case EqualityExpr =>
      || Derives(RelationalExpr, t)
      || (t.Infix? && t.op in {Equal, NotEqual} && Derives(EqualityExpr, t.left) && Derives(RelationalExpr, t.right))
    case AndExpr =>
      || Derives(EqualityExpr, t)
      || (t.Infix? && t.op == BitwiseAnd && Derives(AndExpr, t.left) && Derives(EqualityExpr, t.right))
    case ExclusiveOrExpr =>
      || Derives(AndExpr, t)
      || (t.Infix? && t.op == BitwiseXor && Derives(ExclusiveOrExpr, t.left) && Derives(AndExpr, t.right))
    case InclusiveOrExpr =>
      || Derives(ExclusiveOrExpr, t)
      || (t.Infix? && t.op == BitwiseOr && Derives(InclusiveOrExpr, t.left) && Derives(ExclusiveOrExpr, t.right))
    case LogicalAndExpr =>
      || Derives(InclusiveOrExpr, t)
      || (t.Infix? && t.op == LogicalAnd && Derives(LogicalAndExpr, t.left) && Derives(InclusiveOrExpr, t.right))
    case LogicalOrExpr =>
      || Derives(LogicalAndExpr, t)
      || (t.Infix? && t.op == LogicalOr && Derives(LogicalOrExpr, t.left) && Derives(LogicalAndExpr, t.right))
    case ConditionalExpr =>
      || Derives(LogicalOrExpr, t)
      || (t.Conditional? && Derives(LogicalOrExpr, t.condition) && Derives(AssignmentExpr, t.thenTree) && Derives(ConditionalExpr, t.elseTree))
    case AssignmentExpr =>
      || Derives(ConditionalExpr, t)
      || (t.Infix? && Assigns(t.op) && Derives(UnaryExpr, t.left) && Derives(AssignmentExpr, t.right))
  }

  predicate DeriveArgs(args: Trees)
    decreases args, 0
  {
    args.MoreTrees? ==> Derives(AssignmentExpr, args.head) && DeriveArgs(args.tail)
  }

  /** The parser takes a step, subscripts and a step, and no other chain. */
  predicate ChainsFit(t: Tree)
    decreases t
  {
    Stage(t) < 4 &&
    match t
    case Number(_) => true
    case StringLiteral(_) => true
    case Name(_) => true
    case CallTo(_, args) => ChainsFitArgs(args)
    case Enclosed(inner) => ChainsFit(inner)
    case Prefix(_, operand) => ChainsFit(operand)
    case Postfix(_, place) => ChainsFit(place)
    case Subscript(a, index) => ChainsFit(a) && ChainsFit(index)
    case Infix(_, left, right) => ChainsFit(left) && ChainsFit(right)
    case Conditional(c, a, b) => ChainsFit(c) && ChainsFit(a) && ChainsFit(b)
  }

  predicate ChainsFitArgs(args: Trees)
    decreases args
  {
    args.MoreTrees? ==> ChainsFit(args.head) && ChainsFitArgs(args.tail)
  }

  predicate IsInfix(t: Tree) {
    t.Infix? || t.Conditional?
  }

  /** Two things that the parser reads and the grammar does not have: an assignment
      to an operator expression, and a postfix operator on a prefix expression. */
  predicate TargetsFit(t: Tree)
    decreases t
  {
    match t
    case Number(_) => true
    case StringLiteral(_) => true
    case Name(_) => true
    case CallTo(_, args) => TargetsFitArgs(args)
    case Enclosed(inner) => TargetsFit(inner)
    case Prefix(_, operand) => TargetsFit(operand)
    case Postfix(_, place) => TargetsFit(place) && !place.Prefix?
    case Subscript(a, index) => TargetsFit(a) && !a.Prefix? && TargetsFit(index)
    case Infix(op, left, right) => TargetsFit(left) && TargetsFit(right) && (Assigns(op) ==> !IsInfix(left))
    case Conditional(c, a, b) => TargetsFit(c) && TargetsFit(a) && TargetsFit(b)
  }

  predicate TargetsFitArgs(args: Trees)
    decreases args
  {
    args.MoreTrees? ==> TargetsFit(args.head) && TargetsFitArgs(args.tail)
  }

  /** The least precedence of the operators that a nonterminal derives. */
  function Floor(n: Nonterminal): (p: nat) {
    if n.Rank() <= 2 then 130 else (15 - n.Rank()) * PRECEDENCE_INCREMENT
  }


  function Below1(n: Nonterminal): (m: Nonterminal)
    requires n.Rank() > 2
    ensures m.Rank() == n.Rank() - 1
  {
    match n
    case MultiplicativeExpr => UnaryExpr
    case AdditiveExpr => MultiplicativeExpr
    case ShiftExpr => AdditiveExpr
    case RelationalExpr => ShiftExpr
    case EqualityExpr => RelationalExpr
    case AndExpr => EqualityExpr
    case ExclusiveOrExpr => AndExpr
    case InclusiveOrExpr => ExclusiveOrExpr
    case LogicalAndExpr => InclusiveOrExpr
    case LogicalOrExpr => LogicalAndExpr
    case ConditionalExpr => LogicalOrExpr
    case AssignmentExpr => ConditionalExpr
  }

  /** The nonterminal whose own rule an operator belongs to. */
  function Rule(op: InfixOp): (n: Nonterminal) {
    match op
    case Multiply | Divide | Remainder => MultiplicativeExpr
    case Add | Subtract => AdditiveExpr
    case ShiftLeft | ShiftRight => ShiftExpr
    case Less | LessEq | More | MoreEq => RelationalExpr
    case Equal | NotEqual => EqualityExpr
    case BitwiseAnd => AndExpr
    case BitwiseXor => ExclusiveOrExpr
    case BitwiseOr => InclusiveOrExpr
    case LogicalAnd => LogicalAndExpr
    case LogicalOr => LogicalOrExpr
    case Ternary => ConditionalExpr
    case _ => AssignmentExpr
  }

  lemma RuleFloor(op: InfixOp)
    ensures Floor(Rule(op)) == Precedence(op) && Rule(op).Rank() >= 3
  {
  }

  /** The part of a rule that takes the operator. */
  predicate OwnRule(t: Tree)
    requires IsInfix(t)
  {
    if t.Conditional? then Derives(LogicalOrExpr, t.condition) && Derives(AssignmentExpr, t.thenTree) && Derives(ConditionalExpr, t.elseTree)
    else !t.op.Ternary? && if Assigns(t.op) then Derives(UnaryExpr, t.left) && Derives(AssignmentExpr, t.right)
    else Derives(Rule(t.op), t.left) && Derives(Below1(Rule(t.op)), t.right)
  }

  lemma RuleStep(n: Nonterminal, t: Tree)
    requires IsInfix(t) && n.Rank() >= 3
    ensures Derives(n, t) <==> Derives(Below1(n), t) || (n == RuleOf(t) && OwnRule(t))
  {
  }

  function RuleOf(t: Tree): Nonterminal
    requires IsInfix(t)
  {
    if t.Conditional? then ConditionalExpr else Rule(t.op)
  }

  lemma RanksDiffer(m: Nonterminal, n: Nonterminal)
    requires m.Rank() == n.Rank()
    ensures m == n
  {
  }

  lemma NotPostfix(n: Nonterminal, t: Tree)
    requires IsInfix(t) && n.Rank() < 3
    ensures !Derives(n, t)
  {
    assert !Derives(PrimaryExpr, t);
    assert !Derives(PostfixExpr, t);
  }

  /** An operator expression is derived by its own rule, and by the nonterminals
      above it. */
  lemma {:induction false} DerivedByRule(n: Nonterminal, t: Tree)
    requires IsInfix(t)
    ensures Derives(n, t) <==> RuleOf(t).Rank() <= n.Rank() && OwnRule(t)
    decreases n.Rank()
  {
    hide OwnRule, Rule;
    if t.Infix? { RuleFloor(t.op); }
    if n.Rank() >= 3 {
      hide Derives;
      RuleStep(n, t);
      DerivedByRule(Below1(n), t);
      if RuleOf(t).Rank() == n.Rank() {
        RanksDiffer(RuleOf(t), n);
      }
    } else {
      NotPostfix(n, t);
    }
  }

  /** Anything else is derived by every nonterminal from the unary level up. */
  lemma {:induction false} DerivedFromUnary(n: Nonterminal, t: Tree)
    requires !IsInfix(t) && n.Rank() >= 2
    ensures Derives(n, t) <==> Derives(UnaryExpr, t)
    decreases n.Rank()
  {
    if n.Rank() > 2 {
      FromUnaryStep(n, t);
      DerivedFromUnary(Below1(n), t);
    }
  }

  lemma FromUnaryStep(n: Nonterminal, t: Tree)
    requires !IsInfix(t) && n.Rank() >= 3
    ensures Derives(n, t) <==> Derives(Below1(n), t)
  {
  }

  lemma PostfixIsUnary(t: Tree)
    ensures Derives(PostfixExpr, t) <==> Derives(UnaryExpr, t) && !t.Prefix?
  {
    assert t.Prefix? ==> !Derives(PrimaryExpr, t);
  }

  /** No operator lies strictly between two levels. */
  lemma NextLevel(t: Tree, low: nat, high: nat)
    requires low <= high && high % 10 == 0 && low > high - 10
    ensures Climbs(t, low) <==> Climbs(t, high)
  {
  }

  // ------------------------------------------------------------------- agreement

  /** What the parser reads at the level of a nonterminal is what the nonterminal
      derives, for trees with the chains that the parser takes and the targets that
      the grammar has. */
  lemma {:induction false} Agrees(n: Nonterminal, t: Tree)
    requires n.Rank() >= 2
    ensures Derives(n, t) && ChainsFit(t) <==> Climbs(t, Floor(n)) && TargetsFit(t)
    decreases t, 2
  {
    hide Derives;
    if t.Infix? {
      DerivedByRule(n, t);
      RuleFloor(t.op);
      InfixAgrees(t);
      assert Precedence(t.op) >= Floor(n) <==> Rule(t.op).Rank() <= n.Rank() by { hide Precedence, Rule; }
    } else if t.Conditional? {
      DerivedByRule(n, t);
      ConditionalAgrees(t);
    } else {
      DerivedFromUnary(n, t);
      FactorAgrees(t);
    }
  }

  lemma {:induction false} InfixAgrees(t: Tree)
    requires t.Infix?
    ensures OwnRule(t) && ChainsFit(t) <==>
            !t.op.Ternary? && Climbs(t.left, LeftMinimum(t.op)) && Climbs(t.right, RightMinimum(t.op)) && TargetsFit(t)
    decreases t, 1
  {
    hide Derives, Climbs;
    var op := t.op;
    if Assigns(op) {
      Agrees(UnaryExpr, t.left);
      Agrees(AssignmentExpr, t.right);
      if IsInfix(t.left) {
        NotPostfix(UnaryExpr, t.left);
      } else {
        FactorClimbs(t.left, LeftMinimum(op), Floor(UnaryExpr));
      }
    } else if !op.Ternary? {
      RuleFloor(op);
      Agrees(Rule(op), t.left);
      Agrees(Below1(Rule(op)), t.right);
      RightLevel(op);
      NextLevel(t.right, RightMinimum(op), Floor(Below1(Rule(op))));
    }
  }

  lemma FactorClimbs(t: Tree, m: nat, n: nat)
    requires !IsInfix(t)
    ensures Climbs(t, m) <==> Climbs(t, n)
  {
  }

  lemma RightLevel(op: InfixOp)
    requires !RightAssociative(op)
    ensures var high := Floor(Below1(Rule(op))); RightMinimum(op) <= high && high % 10 == 0 && RightMinimum(op) > high - 10
    ensures LeftMinimum(op) == Floor(Rule(op))
  {
  }

  lemma {:induction false} ConditionalAgrees(t: Tree)
    requires t.Conditional?
    ensures OwnRule(t) && ChainsFit(t) <==>
            && Climbs(t.condition, LeftMinimum(Ternary)) && Climbs(t.thenTree, 0)
            && Climbs(t.elseTree, RightMinimum(Ternary)) && TargetsFit(t)
    decreases t, 1
  {
    hide Derives, Climbs;
    Agrees(LogicalOrExpr, t.condition);
    NextLevel(t.condition, LeftMinimum(Ternary), Floor(LogicalOrExpr));
    Agrees(AssignmentExpr, t.thenTree);
    AnyLevel(t.thenTree);
    Agrees(ConditionalExpr, t.elseTree);
  }

  lemma AnyLevel(t: Tree)
    ensures Climbs(t, 0) <==> Climbs(t, Floor(AssignmentExpr))
  {
  }

  lemma {:induction false} ExprAgrees(t: Tree)
    ensures Derives(AssignmentExpr, t) && ChainsFit(t) <==> Climbs(t, 0) && TargetsFit(t)
    decreases t, 3
  {
    Agrees(AssignmentExpr, t);
    AnyLevel(t);
  }

  lemma {:induction false} FactorAgrees(t: Tree)
    requires !IsInfix(t)
    ensures Derives(UnaryExpr, t) && ChainsFit(t) <==> IsFactor(t) && TargetsFit(t)
    decreases t, 1
  {
    PostfixIsUnary(t);
    match t
    case Number(_) => assert Derives(PrimaryExpr, t);
    case StringLiteral(_) => assert Derives(PrimaryExpr, t);
    case Name(_) => assert Derives(PrimaryExpr, t);
    case CallTo(_, args) => ArgsAgree(args);
    case Enclosed(inner) => ExprAgrees(inner);
      assert Derives(PostfixExpr, t) <==> Derives(PrimaryExpr, t);
    case Prefix(_, operand) => OperandAgrees(operand);
    case Postfix(_, place) => OperandAgrees(place); PostfixIsUnary(place);
    case Subscript(a, index) => OperandAgrees(a); PostfixIsUnary(a); ExprAgrees(index);
  }

  /** An operand that must not be an operator expression. */
  lemma {:induction false} OperandAgrees(t: Tree)
    ensures Derives(UnaryExpr, t) && ChainsFit(t) <==> IsFactor(t) && TargetsFit(t)
    decreases t, 2
  {
    if IsInfix(t) {
      NotPostfix(UnaryExpr, t);
    } else {
      FactorAgrees(t);
    }
  }

  lemma {:induction false} ArgsAgree(args: Trees)
    ensures DeriveArgs(args) && ChainsFitArgs(args) <==> AreArgs(args) && TargetsFitArgs(args)
    decreases args, 0
  {
    hide Derives, Climbs, ChainsFit, TargetsFit;
    if args.MoreTrees? {
      ExprAgrees(args.head);
      ArgsAgree(args.tail);
    }
  }

  // ----------------------------------------------------------- the main statements

  /** A tree of the standard's grammar is what the parser makes of its text exactly
      when its chains of postfix operators fit. */
  lemma StandardTreesAreRead(t: Tree, k: Tokens)
    requires Derives(AssignmentExpr, t) && Closes(k) && InfixAt(k).None?
    ensures ParseExpr(Emit(t, k), 0) == Ok(Read(t, k)) <==> ChainsFit(t)
  {
    hide Derives, ParseExpr;
    if ChainsFit(t) {
      ExprAgrees(t);
      EdgeBeforeCloser(t, k);
      ExprIsRead(t, k, 0);
    }
    if ParseExpr(Emit(t, k), 0) == Ok(Read(t, k)) {
      ParserReads(Emit(t, k), t, k);
      ClimbingChainsFit(t, 0);
    }
  }

  /** What the parser reads is a tree of the standard's grammar exactly when its
      targets fit. */
  lemma ReadTreesAreStandard(k: Tokens)
    requires ParseExpr(k, 0).Ok?
    ensures var t := ParseExpr(k, 0).value.tree; Derives(AssignmentExpr, t) <==> TargetsFit(t)
  {
    var t := ParseExpr(k, 0).value.tree;
    ExprIsSound(k, 0);
    ExprAgrees(t);
    if Climbs(t, 0) { ClimbingChainsFit(t, 0); }
  }

  /** A tree that is read has chains that fit. */
  lemma {:induction false} ClimbingChainsFit(t: Tree, minimum: nat)
    requires Climbs(t, minimum)
    ensures ChainsFit(t)
    decreases t
  {
    match t
    case Infix(op, left, right) => ClimbingChainsFit(left, LeftMinimum(op)); ClimbingChainsFit(right, RightMinimum(op));
    case Conditional(c, a, b) => ClimbingChainsFit(c, LeftMinimum(Ternary)); ClimbingChainsFit(a, 0); ClimbingChainsFit(b, RightMinimum(Ternary));
    case CallTo(_, args) => ClimbingArgsFit(args);
    case Enclosed(inner) => ClimbingChainsFit(inner, 0);
    case Prefix(_, operand) => ClimbingChainsFit(operand, 0);
    case Postfix(_, place) => ClimbingChainsFit(place, 0);
    case Subscript(a, index) => ClimbingChainsFit(a, 0); ClimbingChainsFit(index, 0);
    case _ =>
  }

  lemma {:induction false} ClimbingArgsFit(args: Trees)
    requires AreArgs(args)
    ensures ChainsFitArgs(args)
    decreases args
  {
    if args.MoreTrees? {
      ClimbingChainsFit(args.head, 0);
      ClimbingArgsFit(args.tail);
    }
  }

  /** `-a[i]++[j]` is read as a subscript of the negation, which the standard's
      grammar does not derive; the standard's reading is lost. */
  lemma PrefixTakesLateSubscript(k: Tokens)
    requires Closes(k) && InfixAt(k).None?
    ensures var standard, read := Prefix(Negate, Subscript(CLOSED_CHAIN, Name("j"))), Subscript(Prefix(Negate, CLOSED_CHAIN), Name("j"));
            && Derives(AssignmentExpr, standard) && !Derives(AssignmentExpr, read)
            && Emit(standard, k) == Emit(read, k)
            && ParseExpr(Emit(standard, k), 0) == Ok(Read(read, k))
  {
    var standard, read := Prefix(Negate, Subscript(CLOSED_CHAIN, Name("j"))), Subscript(Prefix(Negate, CLOSED_CHAIN), Name("j"));
    StandardReading();
    ReadingOfParser();
    EdgeBeforeCloser(read, k);
    ExprIsRead(read, k, 0);
    ExprAgrees(read);
    SubscriptSlides(CLOSED_CHAIN, Name("j"), k);
  }

  /** `a[i]++` */
  const CLOSED_CHAIN: Tree := Postfix(true, Subscript(Name("a"), Name("i")))

  lemma SubscriptSlides(a: Tree, index: Tree, k: Tokens)
    ensures Emit(Prefix(Negate, Subscript(a, index)), k) == Emit(Subscript(Prefix(Negate, a), index), k)
  {
    var tail := Tok(SquareOpen, Emit(index, Tok(SquareClose, k)));
    assert Emit(Subscript(Prefix(Negate, a), index), k) == Emit(Prefix(Negate, a), tail);
  }

  lemma NameDerives(name: string)
    ensures Derives(PostfixExpr, Name(name)) && Derives(AssignmentExpr, Name(name)) && Climbs(Name(name), 0)
  {
    assert Derives(PrimaryExpr, Name(name));
    assert Derives(UnaryExpr, Name(name));
    DerivedFromUnary(AssignmentExpr, Name(name));
  }

  lemma StandardReading()
    ensures Derives(AssignmentExpr, Prefix(Negate, Subscript(CLOSED_CHAIN, Name("j"))))
  {
    hide Derives;
    var s := Subscript(Name("a"), Name("i"));
    NameDerives("a");
    NameDerives("i");
    NameDerives("j");
    ChainStep(s);
    ChainStep(CLOSED_CHAIN);
    ChainStep(Subscript(CLOSED_CHAIN, Name("j")));
    PrefixStep(Prefix(Negate, Subscript(CLOSED_CHAIN, Name("j"))));
  }

  lemma ChainStep(t: Tree)
    requires t.Subscript? || t.Postfix?
    requires if t.Postfix? then Derives(PostfixExpr, t.place) else Derives(PostfixExpr, t.base) && Derives(AssignmentExpr, t.index)
    ensures Derives(PostfixExpr, t)
  {
  }

  lemma PrefixStep(t: Tree)
    requires t.Prefix? && Derives(PostfixExpr, t.operand)
    ensures Derives(AssignmentExpr, t)
  {
    assert Derives(UnaryExpr, t.operand);
    assert Derives(UnaryExpr, t);
    DerivedFromUnary(AssignmentExpr, t);
  }

  lemma ReadingOfParser()
    ensures var read := Subscript(Prefix(Negate, CLOSED_CHAIN), Name("j")); Climbs(read, 0) && ChainsFit(read) && !TargetsFit(read)
  {
    var s := Subscript(Name("a"), Name("i"));
    var read := Subscript(Prefix(Negate, CLOSED_CHAIN), Name("j"));
    assert IsFactor(s) && Stage(s) == 2;
    assert IsFactor(CLOSED_CHAIN) && Stage(CLOSED_CHAIN) == 3;
    assert IsFactor(Prefix(Negate, CLOSED_CHAIN));
    assert IsFactor(read);
    ClimbingChainsFit(read, 0);
  }
}
