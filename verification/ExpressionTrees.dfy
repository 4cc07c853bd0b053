/** Tokens and trees of C expressions, without casts and sizeof, and the text that
    a tree stands for. */
module ExpressionTrees {
  import opened Wrappers

  datatype Token =
    | Constant(text: string, readable: bool)  // readable: the literal is in range
    | StringToken(text: string)
    | Identifier(name: string)
    | ParenOpen | ParenClose | SquareOpen | SquareClose | Comma | Colon | Question
    | Tilde | Exclamation | PlusPlus | HyphenHyphen
    | Plus | Hyphen | Asterisk | Slash | Percent | Ampersand | VertBar | Caret
    | LessLess | MoreMore | AmpAmp | BarBar | Equals | EqualsEquals | ExclamationEquals
    | LessThan | LessThanEquals | MoreThan | MoreThanEquals
    | PlusEquals | HyphenEquals | AsteriskEquals | SlashEquals | PercentEquals
    | AmpersandEquals | VertBarEquals | CaretEquals | LessLessEquals | MoreMoreEquals
    | Other(text: string)

  /** The linked list of tokens that the lexer leaves. */
  datatype Tokens = End | Tok(token: Token, next: Tokens)

  datatype PrefixOp = Complement | Negate | LogicalNot | Dereference | AddressOf | PreDecrement | PreIncrement

  datatype InfixOp =
    | Add | Subtract | Multiply | Divide | Remainder
    | BitwiseAnd | BitwiseOr | BitwiseXor | ShiftLeft | ShiftRight
    | LogicalAnd | LogicalOr | Assignment
    | Equal | NotEqual | Less | LessEq | More | MoreEq
    | AssignAdd | AssignSub | AssignMul | AssignDiv | AssignRem
    | AssignAnd | AssignOr | AssignXor | AssignShiftLeft | AssignShiftRight
    | Ternary

  datatype Tree =
    | Number(text: string)
    | StringLiteral(text: string)
    | Name(name: string)
    | CallTo(name: string, args: Trees)
    | Enclosed(inner: Tree)
    | Prefix(prefixOp: PrefixOp, operand: Tree)
    | Postfix(increment: bool, place: Tree)
    | Subscript(base: Tree, index: Tree)
    | Infix(op: InfixOp, left: Tree, right: Tree)
    | Conditional(condition: Tree, thenTree: Tree, elseTree: Tree)

  datatype Trees = NoTrees | MoreTrees(head: Tree, tail: Trees)

  // ------------------------------------------------------------- operator tables

  function PrefixOf(t: Token): Option<PrefixOp> {
    match t
    case Tilde => Some(Complement)
    case Hyphen => Some(Negate)
    case Exclamation => Some(LogicalNot)
    case Asterisk => Some(Dereference)
    case Ampersand => Some(AddressOf)
    case HyphenHyphen => Some(PreDecrement)
    case PlusPlus => Some(PreIncrement)
    case _ => None
  }

  function PrefixToken(op: PrefixOp): Token {
    match op
    case Complement => Tilde
    case Negate => Hyphen
    case LogicalNot => Exclamation
    case Dereference => Asterisk
    case AddressOf => Ampersand
    case PreDecrement => HyphenHyphen
    case PreIncrement => PlusPlus
  }

  function PostfixToken(increment: bool): Token {
    if increment then PlusPlus else HyphenHyphen
  }

  function InfixOf(t: Token): Option<InfixOp> {
    match t
    case Plus => Some(Add)
    case Hyphen => Some(Subtract)
    case Asterisk => Some(Multiply)
    case Slash => Some(Divide)
    case Percent => Some(Remainder)
    case Ampersand => Some(BitwiseAnd)
    case VertBar => Some(BitwiseOr)
    case Caret => Some(BitwiseXor)
    case LessLess => Some(ShiftLeft)
    case MoreMore => Some(ShiftRight)
    case AmpAmp => Some(LogicalAnd)
    case BarBar => Some(LogicalOr)
    case Equals => Some(Assignment)
    case EqualsEquals => Some(Equal)
    case ExclamationEquals => Some(NotEqual)
    case LessThan => Some(Less)
    case LessThanEquals => Some(LessEq)
    case MoreThan => Some(More)
    case MoreThanEquals => Some(MoreEq)
    case PlusEquals => Some(AssignAdd)
    case HyphenEquals => Some(AssignSub)
    case AsteriskEquals => Some(AssignMul)
    case SlashEquals => Some(AssignDiv)
    case PercentEquals => Some(AssignRem)
    case AmpersandEquals => Some(AssignAnd)
    case VertBarEquals => Some(AssignOr)
    case CaretEquals => Some(AssignXor)
    case LessLessEquals => Some(AssignShiftLeft)
    case MoreMoreEquals => Some(AssignShiftRight)
    case Question => Some(Ternary)
    case _ => None
  }

  function InfixToken(op: InfixOp): Token {
    match op
    case Add => Plus
    case Subtract => Hyphen
    case Multiply => Asterisk
    case Divide => Slash
    case Remainder => Percent
    case BitwiseAnd => Ampersand
    case BitwiseOr => VertBar
    case BitwiseXor => Caret
    case ShiftLeft => LessLess
    case ShiftRight => MoreMore
    case LogicalAnd => AmpAmp
    case LogicalOr => BarBar
    case Assignment => Equals
    case Equal => EqualsEquals
    case NotEqual => ExclamationEquals
    case Less => LessThan
    case LessEq => LessThanEquals
    case More => MoreThan
    case MoreEq => MoreThanEquals
    case AssignAdd => PlusEquals
    case AssignSub => HyphenEquals
    case AssignMul => AsteriskEquals
    case AssignDiv => SlashEquals
    case AssignRem => PercentEquals
    case AssignAnd => AmpersandEquals
    case AssignOr => VertBarEquals
    case AssignXor => CaretEquals
    case AssignShiftLeft => LessLessEquals
    case AssignShiftRight => MoreMoreEquals
    case Ternary => Question
  }

  predicate Assigns(op: InfixOp) {
    op.Assignment? || op.AssignAdd? || op.AssignSub? || op.AssignMul? || op.AssignDiv? || op.AssignRem?
    || op.AssignAnd? || op.AssignOr? || op.AssignXor? || op.AssignShiftLeft? || op.AssignShiftRight?
  }

  predicate RightAssociative(op: InfixOp) {
    Assigns(op) || op.Ternary?
  }

  const PRECEDENCE_INCREMENT: nat := 10

  function Precedence(op: InfixOp): (p: nat) {
    (match op
     case Multiply | Divide | Remainder => 12
     case Add | Subtract => 11
     case ShiftLeft | ShiftRight => 10
     case Less | LessEq | More | MoreEq => 9
     case Equal | NotEqual => 8
     case BitwiseAnd => 7
     case BitwiseXor => 6
     case BitwiseOr => 5
     case LogicalAnd => 4
     case LogicalOr => 3
     case Ternary => 2
     case _ => 1) * PRECEDENCE_INCREMENT
  }

  /** The least precedence that the right operand may have. */
  function RightMinimum(op: InfixOp): nat {
    Precedence(op) + if RightAssociative(op) then 0 else 1
  }

  // ------------------------------------------------------------------- the text

  /** The tokens of t, followed by k. */
  function Emit(t: Tree, k: Tokens): Tokens
    decreases t
  {
    match t
    case Number(text) => Tok(Constant(text, true), k)
    case StringLiteral(text) => Tok(StringToken(text), k)
    case Name(name) => Tok(Identifier(name), k)
    case CallTo(name, args) => Tok(Identifier(name), Tok(ParenOpen, EmitArgs(args, k)))
    case Enclosed(inner) => Tok(ParenOpen, Emit(inner, Tok(ParenClose, k)))
    case Prefix(op, operand) => Tok(PrefixToken(op), Emit(operand, k))
    case Postfix(increment, place) => Emit(place, Tok(PostfixToken(increment), k))
    case Subscript(a, index) => Emit(a, Tok(SquareOpen, Emit(index, Tok(SquareClose, k))))
    case Infix(op, left, right) => Emit(left, Tok(InfixToken(op), Emit(right, k)))
    case Conditional(c, a, b) => Emit(c, Tok(Question, Emit(a, Tok(Colon, Emit(b, k)))))
  }

  /** The arguments, the commas between them and the closing parenthesis. */
  function EmitArgs(args: Trees, k: Tokens): Tokens
    decreases args
  {
    match args
    case NoTrees => Tok(ParenClose, k)
    case MoreTrees(head, tail) => Emit(head, if tail.NoTrees? then Tok(ParenClose, k) else Tok(Comma, EmitArgs(tail, k)))
  }
}
