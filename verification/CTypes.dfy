/** The scalar types of the compiler and the object representation of their values.
    A value is kept as its bit pattern, a natural number below `Modulus`. */
module CTypes {
  datatype CType =
    | Char | SignedChar | UnsignedChar
    | Int | UnsignedInt | Long | UnsignedLong
    | Pointer(referent: CType)
  {
    function Size(): (n: nat)
      ensures n == 1 || n == 4 || n == 8
    {
      match this
      case Char | SignedChar | UnsignedChar => 1
      case Int | UnsignedInt => 4
      case Long | UnsignedLong | Pointer(_) => 8
    }

    predicate IsSigned() {
      Char? || SignedChar? || Int? || Long?
    }

    predicate IsCharLike() {
      Char? || SignedChar? || UnsignedChar?
    }
  }

  /** A bit pattern and the type it has. */
  datatype Typed = Typed(bits: nat, ty: CType)

  function ModulusOfSize(size: nat): (m: nat)
    ensures m > 0 && m % 2 == 0
  {
    if size == 1 then 0x100
    else if size == 4 then 0x1_0000_0000
    else 0x1_0000_0000_0000_0000
  }

  function Modulus(t: CType): (m: nat)
    ensures m > 0 && m % 2 == 0
  {
    ModulusOfSize(t.Size())
  }

  /** The bit pattern of an integer converted to type t. */
  function Bits(t: CType, v: int): (b: nat)
    ensures b < Modulus(t)
  {
    v % Modulus(t)
  }

  /** The integer that a bit pattern of type t stands for. */
  function Value(t: CType, b: nat): int {
    if t.IsSigned() && b >= Modulus(t) / 2 then b - Modulus(t) else b
  }

  function Pow2(k: nat): (p: nat)
    ensures p > 0
  {
    if k == 0 then 1 else 2 * Pow2(k - 1)
  }

  function BitAnd(a: nat, b: nat): nat {
    if a == 0 || b == 0 then 0 else (a % 2) * (b % 2) + 2 * BitAnd(a / 2, b / 2)
  }

  function BitOr(a: nat, b: nat): nat
    decreases a + b
  {
    if a == 0 then b else if b == 0 then a
    else (if a % 2 + b % 2 > 0 then 1 else 0) + 2 * BitOr(a / 2, b / 2)
  }

  function BitXor(a: nat, b: nat): nat
    decreases a + b
  {
    if a == 0 then b else if b == 0 then a
    else (a + b) % 2 + 2 * BitXor(a / 2, b / 2)
  }

  /** Quotient rounded towards zero, and the remainder that goes with it. */
  function TruncDiv(x: int, y: int): int
    requires y != 0
  {
    if (x >= 0) == (y > 0) then Abs(x) / Abs(y) else -(Abs(x) / Abs(y))
  }

  function TruncRem(x: int, y: int): int
    requires y != 0
  {
    x - y * TruncDiv(x, y)
  }

  function Abs(x: int): nat {
    if x < 0 then -x else x
  }

  datatype UnaryOp = Negate | Complement | LogicalNot

  datatype BinaryOp =
    | Add | Subtract | Multiply | Divide | Remainder
    | And | Or | Xor | ShiftLeft | ShiftRight
    | Equal | NotEqual | Less | LessEq | Greater | GreaterEq
  {
    predicate IsCompare() {
      Equal? || NotEqual? || Less? || LessEq? || Greater? || GreaterEq?
    }

    predicate IsShift() {
      ShiftLeft? || ShiftRight?
    }
  }
}
