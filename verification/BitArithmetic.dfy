/** Two's complement arithmetic on bit patterns computes the integer operators
    of the source language. */
module BitArithmetic {
  import opened Wrappers
  import opened CTypes
  import opened Ir
  import opened CSemantics
  import opened ModularArithmetic

  lemma BitsFixed(t: CType, b: nat)
    requires b < Modulus(t)
    ensures Bits(t, b) == b
  {
    SmallMod(b, Modulus(t));
  }

  /** A pattern and the integer it stands for agree modulo 2^n. */
  lemma BitsOfValue(t: CType, b: nat)
    requires b < Modulus(t)
    ensures Bits(t, Value(t, b)) == b
    ensures exists q :: Value(t, b) == b + q * Modulus(t)
  {
    SmallMod(b, Modulus(t));
    if t.IsSigned() && b >= Modulus(t) / 2 {
      assert Value(t, b) == b + (-1) * Modulus(t);
      ModUnique(Value(t, b), b, Modulus(t), -1);
    } else {
      assert Value(t, b) == b + 0 * Modulus(t);
    }
  }

  lemma ValueMultiple(t: CType, b: nat) returns (q: int)
    requires b < Modulus(t)
    ensures Value(t, b) == b + q * Modulus(t)
  {
    BitsOfValue(t, b);
    q :| Value(t, b) == b + q * Modulus(t);
  }

  lemma SumBits(t: CType, a: nat, b: nat)
    requires a < Modulus(t) && b < Modulus(t)
    ensures Bits(t, Value(t, a) + Value(t, b)) == Bits(t, a + b)
    ensures Bits(t, Value(t, a) - Value(t, b)) == Bits(t, a - b)
  {
    var q := ValueMultiple(t, a);
    var r := ValueMultiple(t, b);
    var m := Modulus(t);
    assert Value(t, a) + Value(t, b) == a + b + (q + r) * m;
    ModUnique(Value(t, a) + Value(t, b), a + b, m, q + r);
    assert Value(t, a) - Value(t, b) == a - b + (q - r) * m;
    ModUnique(Value(t, a) - Value(t, b), a - b, m, q - r);
  }

  lemma ProductBits(t: CType, a: nat, b: nat)
    requires a < Modulus(t) && b < Modulus(t)
    ensures Bits(t, Value(t, a) * Value(t, b)) == Bits(t, a * b)
  {
    var q := ValueMultiple(t, a);
    var r := ValueMultiple(t, b);
    ProductShift(a, b, q, r, Modulus(t));
    ModUnique(Value(t, a) * Value(t, b), a * b, Modulus(t), a * r + q * b + q * r * Modulus(t));
  }

  lemma ProductShift(a: int, b: int, q: int, r: int, m: int)
    ensures (a + q * m) * (b + r * m) == a * b + (a * r + q * b + q * r * m) * m
  {
    calc {
      (a + q * m) * (b + r * m);
      a * (b + r * m) + (q * m) * (b + r * m);
      a * b + a * (r * m) + (q * m) * b + (q * m) * (r * m);
      { assert a * (r * m) == (a * r) * m; assert (q * m) * b == (q * b) * m;
        assert (q * m) * (r * m) == (q * r * m) * m; }
      a * b + (a * r) * m + (q * b) * m + (q * r * m) * m;
      a * b + (a * r + q * b + q * r * m) * m;
    }
  }

  /** Scaling an index: only its value modulo 2^n matters. */
  lemma ScaledBits(m: nat, x: int, v: int, b: int, q: int, s: int)
    requires m > 0 && v == b + q * m
    ensures (x + v * s) % m == (x + b * s) % m
  {
    assert v * s == b * s + (q * s) * m by {
      assert (q * m) * s == (q * s) * m;
    }
    ModUnique(x + v * s, x + b * s, m, q * s);
  }

  lemma NegatedIndex(m: nat, x: int, v: int, b: int, q: int, s: int)
    requires m > 0 && v == b + q * m
    ensures (x - v * s) % m == (x + ((0 - b) % m) * s) % m
  {
    var c, p := (0 - b) % m, (0 - b) / m;
    assert 0 - b == p * m + c;
    Difference(p, q, m);
    ScaledBits(m, x, -v, c, p - q, s);
    NegatedProduct(v, s);
  }

  lemma NegatedProduct(v: int, s: int)
    ensures (-v) * s == -(v * s)
  {
  }

  lemma IndexBits(t: CType, x: int, w: CType, b: nat, s: nat)
    requires b < Modulus(w) && Modulus(w) == Modulus(t)
    ensures Bits(t, x + Value(w, b) * s) == Bits(t, x + b * s)
    ensures Bits(t, x - Value(w, b) * s) == Bits(t, x + Bits(w, 0 - b) * s)
  {
    var q := ValueMultiple(w, b);
    ScaledBits(Modulus(t), x, Value(w, b), b, q, s);
    NegatedIndex(Modulus(t), x, Value(w, b), b, q, s);
  }

  /** Subtracting an index is adding its negation. */
  lemma SubtractIndex(t: CType, a: nat, b: nat, s: nat)
    requires t.Pointer? && b < Modulus(Long)
    ensures Bits(t, a + Value(Long, Bits(Long, 0 - b)) * s) == Bits(t, a - Value(Long, b) * s)
  {
    IndexBits(t, a, Long, b, s);
    IndexBits(t, a, Long, Bits(Long, 0 - b), s);
  }

  lemma UnaryRefines(op: UnaryOp, t: CType, a: nat)
    requires a < Modulus(t)
    ensures op.LogicalNot? ==> UnaryBits(op, t, a) == Bits(Int, UnaryValue(op, Value(t, a)))
    ensures !op.LogicalNot? ==> UnaryBits(op, t, a) == Bits(t, UnaryValue(op, Value(t, a)))
  {
    var q := ValueMultiple(t, a);
    var m := Modulus(t);
    if op.Negate? {
      assert -Value(t, a) == 0 - a + (-q) * m;
      ModUnique(-Value(t, a), 0 - a, m, -q);
    } else if op.Complement? {
      assert -Value(t, a) - 1 == m - 1 - a + (-q - 1) * m;
      ModUnique(-Value(t, a) - 1, m - 1 - a, m, -q - 1);
    } else {
      ValueZero(t, a);
    }
  }

  lemma ValueZero(t: CType, a: nat)
    requires a < Modulus(t)
    ensures Value(t, a) == 0 <==> a == 0
  {
  }

  /** Signed comparison by flipping the sign bit. */
  lemma LessRefines(t: CType, a: nat, b: nat)
    requires a < Modulus(t) && b < Modulus(t)
    ensures BitsLess(t, a, b) <==> Value(t, a) < Value(t, b)
    ensures a == b <==> Value(t, a) == Value(t, b)
  {
    var m, h := Modulus(t), Modulus(t) / 2;
    FlipSign(t, a);
    FlipSign(t, b);
  }

  lemma FlipSign(t: CType, a: nat)
    requires a < Modulus(t)
    ensures t.IsSigned() ==> (a + Modulus(t) / 2) % Modulus(t) == Value(t, a) + Modulus(t) / 2
  {
    var m, h := Modulus(t), Modulus(t) / 2;
    if a >= h {
      DivModUnique(a + h, m, 1, a - h);
    } else {
      DivModUnique(a + h, m, 0, a + h);
    }
  }

  lemma DivideTrapsRefines(t: CType, a: nat, b: nat)
    requires a < Modulus(t) && b < Modulus(t)
    ensures DivideTraps(t, a, b) <==>
            Value(t, b) == 0 || (t.IsSigned() && Value(t, a) == -(Modulus(t) / 2) && Value(t, b) == -1)
  {
  }

  lemma ShiftCount(t: CType, b: nat)
    requires b < Modulus(t)
    ensures 0 <= Value(t, b) < 8 * t.Size() <==> b < 8 * t.Size()
    ensures b < 8 * t.Size() ==> Value(t, b) == b
  {
  }

  lemma BinaryRefines(op: BinaryOp, t: CType, a: nat, b: nat)
    requires a < Modulus(t) && b < Modulus(t)
    ensures ArithmeticValue(op, t, Value(t, a), Value(t, b)).Some? <==> BinaryBits(op, t, a, b).Some?
    ensures BinaryBits(op, t, a, b).Some? ==>
              BinaryBits(op, t, a, b).value
              == Bits(if op.IsCompare() then Int else t, ArithmeticValue(op, t, Value(t, a), Value(t, b)).value)
  {
    if op.IsCompare() {
      CompareRefines(op, t, a, b);
    } else if op.IsShift() {
      ShiftRefines(op, t, a, b);
    } else if op.Divide? || op.Remainder? {
      DivideTrapsRefines(t, a, b);
    } else if op.Multiply? {
      ProductBits(t, a, b);
    } else {
      SumBits(t, a, b);
      BitsOfValue(t, a);
      BitsOfValue(t, b);
    }
  }

  lemma ShiftRefines(op: BinaryOp, t: CType, a: nat, b: nat)
    requires a < Modulus(t) && b < Modulus(t) && op.IsShift()
    ensures ArithmeticValue(op, t, Value(t, a), Value(t, b)).Some? <==> BinaryBits(op, t, a, b).Some?
    ensures BinaryBits(op, t, a, b).Some? ==>
              BinaryBits(op, t, a, b).value == Bits(t, ArithmeticValue(op, t, Value(t, a), Value(t, b)).value)
  {
    ShiftCount(t, b);
    if b < 8 * t.Size() {
      ShiftLeftBits(t, a, Pow2(b));
    }
  }

  lemma CompareRefines(op: BinaryOp, t: CType, a: nat, b: nat)
    requires a < Modulus(t) && b < Modulus(t) && op.IsCompare()
    ensures ArithmeticValue(op, t, Value(t, a), Value(t, b)).Some?
    ensures BinaryBits(op, t, a, b) == Some(Bits(Int, ArithmeticValue(op, t, Value(t, a), Value(t, b)).value))
  {
    LessRefines(t, a, b);
    LessRefines(t, b, a);
    BitsFixed(Int, 0);
    BitsFixed(Int, 1);
  }

  lemma ShiftLeftBits(t: CType, a: nat, p: nat)
    requires a < Modulus(t)
    ensures Bits(t, Value(t, a) * p) == Bits(t, a * p)
  {
    var q := ValueMultiple(t, a);
    assert (a + q * Modulus(t)) * p == a * p + (q * p) * Modulus(t) by {
      assert (q * Modulus(t)) * p == (q * p) * Modulus(t);
    }
    ModUnique(Value(t, a) * p, a * p, Modulus(t), q * p);
  }

  /** The four conversion operations compute the conversion of the value. */
  lemma ConversionRefines(from: CType, to: CType, a: nat)
    requires a < Modulus(from)
    ensures from.Size() >= to.Size() ==> Bits(to, Value(from, a)) == a % Modulus(to)
    ensures from.Size() < to.Size() && from.IsSigned() ==> Bits(to, Value(from, a)) == SignExtendBits(from, to, a)
    ensures from.Size() < to.Size() && !from.IsSigned() ==> Bits(to, Value(from, a)) == a
  {
    if from.Size() >= to.Size() {
      Narrowed(from, to, a);
    } else if from.IsSigned() && a >= Modulus(from) / 2 {
      WidenedNegative(a, Modulus(from), Modulus(to));
    } else {
      SmallMod(a, Modulus(to));
    }
  }

  lemma Narrowed(from: CType, to: CType, a: nat)
    requires a < Modulus(from) && from.Size() >= to.Size()
    ensures Bits(to, Value(from, a)) == a % Modulus(to)
  {
    var q := ValueMultiple(from, a);
    SizesDivide(from, to);
    hide Modulus, Value;
    var k :| Modulus(from) == k * Modulus(to);
    Regrouped(q, k, Modulus(to));
    ModUnique(Value(from, a), a, Modulus(to), q * k);
  }

  lemma Regrouped(q: int, k: int, m: int)
    ensures q * (k * m) == q * k * m
  {
  }

  lemma WidenedNegative(a: nat, m: nat, n: nat)
    requires 0 < m < n && a < m
    ensures (a - m) % n == a + (n - m)
  {
    ModUnique(a - m, a + (n - m), n, -1);
    SmallMod(a + (n - m), n);
  }

  lemma SizesDivide(from: CType, to: CType)
    requires from.Size() >= to.Size()
    ensures exists k :: Modulus(from) == k * Modulus(to)
  {
    if from.Size() == to.Size() {
      assert Modulus(from) == 1 * Modulus(to);
    } else if from.Size() == 4 {
      assert Modulus(from) == 0x100_0000 * Modulus(to);
    } else if to.Size() == 4 {
      assert Modulus(from) == 0x1_0000_0000 * Modulus(to);
    } else {
      assert Modulus(from) == 0x100_0000_0000_0000 * Modulus(to);
    }
  }

  /** Increment and decrement by a constant in two's complement. */
  lemma BumpRefines(t: CType, increment: bool, a: nat)
    requires a < Modulus(t) && !t.Pointer?
    ensures IncDecValue(increment, t, a) == (a + if increment then 1 else Modulus(t) - 1) % Modulus(t)
  {
    var q := ValueMultiple(t, a);
    var m := Modulus(t);
    if increment {
      ModUnique(Value(t, a) + 1, a + 1, m, q);
    } else {
      assert Value(t, a) - 1 == a + (m - 1) + (q - 1) * m;
      ModUnique(Value(t, a) - 1, a + (m - 1), m, q - 1);
    }
  }

  // -------------------------------------------- what the patterns and operators mean

  /** The values of the types on this machine (section 3.1.2 of the System V AMD64
      psABI; char is signed). */
  predicate InRange(t: CType, v: int) {
    match t
    case Char | SignedChar => -128 <= v <= 127
    case UnsignedChar => 0 <= v <= 255
    case Int => -2147483648 <= v <= 2147483647
    case UnsignedInt => 0 <= v <= 4294967295
    case Long => -9223372036854775808 <= v <= 9223372036854775807
    case UnsignedLong | Pointer(_) => 0 <= v <= 18446744073709551615
  }

  /** Patterns and the values of a type stand for one another. */
  lemma ValuesOfTypes(t: CType, v: int, b: nat)
    ensures InRange(t, v) <==> Value(t, Bits(t, v)) == v
    ensures b < Modulus(t) ==> InRange(t, Value(t, b)) && Bits(t, Value(t, b)) == b
  {
    if b < Modulus(t) {
      BitsOfValue(t, b);
    }
    if InRange(t, v) {
      if v < 0 {
        ModUnique(v, v + Modulus(t), Modulus(t), -1);
      } else {
        SmallMod(v, Modulus(t));
      }
    }
  }

  /** The k-th bit of a number. */
  predicate BitAt(x: nat, k: nat) {
    if k == 0 then x % 2 == 1 else BitAt(x / 2, k - 1)
  }

  lemma {:induction false} NoBits(k: nat)
    ensures !BitAt(0, k)
  {
    if k > 0 {
      NoBits(k - 1);
    }
  }

  /** The operators work bit by bit. */
  lemma {:induction false} BitByBit(a: nat, b: nat, k: nat)
    ensures BitAt(BitAnd(a, b), k) <==> BitAt(a, k) && BitAt(b, k)
    ensures BitAt(BitOr(a, b), k) <==> BitAt(a, k) || BitAt(b, k)
    ensures BitAt(BitXor(a, b), k) <==> BitAt(a, k) != BitAt(b, k)
    decreases k
  {
    NoBits(k);
    hide BitAnd, BitOr, BitXor;
    NothingAdded(a, b);
    if a != 0 && b != 0 {
      LowAnd(a, b);
      LowOr(a, b);
      LowXor(a, b);
      if k > 0 {
        BitByBit(a / 2, b / 2, k - 1);
      }
    }
  }

  lemma NothingAdded(a: nat, b: nat)
    ensures a == 0 ==> BitAnd(a, b) == 0 && BitOr(a, b) == b == BitXor(a, b)
    ensures b == 0 ==> BitAnd(a, b) == 0 && BitOr(a, b) == a == BitXor(a, b)
  {
  }

  /** A number from its lowest bit and the others. */
  lemma LowestOf(x: nat, low: nat, high: nat)
    requires low < 2 && x == low + 2 * high
    ensures x % 2 == low && x / 2 == high
  {
  }

  lemma LowAnd(a: nat, b: nat)
    requires a != 0 && b != 0
    ensures (BitAnd(a, b) % 2 == 1 <==> a % 2 == 1 && b % 2 == 1) && BitAnd(a, b) / 2 == BitAnd(a / 2, b / 2)
  {
    var low := if a % 2 == 1 && b % 2 == 1 then 1 else 0;
    assert low == (a % 2) * (b % 2) by {
      if a % 2 == 0 {
      } else {
        assert a % 2 == 1;
      }
    }
    var high := BitAnd(a / 2, b / 2);
    assert BitAnd(a, b) == low + 2 * high;
    LowestOf(BitAnd(a, b), low, high);
  }

  lemma LowOr(a: nat, b: nat)
    requires a != 0 && b != 0
    ensures (BitOr(a, b) % 2 == 1 <==> a % 2 == 1 || b % 2 == 1) && BitOr(a, b) / 2 == BitOr(a / 2, b / 2)
  {
    var low := if a % 2 + b % 2 > 0 then 1 else 0;
    var high := BitOr(a / 2, b / 2);
    assert BitOr(a, b) == low + 2 * high;
    LowestOf(BitOr(a, b), low, high);
  }

  lemma LowXor(a: nat, b: nat)
    requires a != 0 && b != 0
    ensures (BitXor(a, b) % 2 == 1 <==> (a % 2 == 1) != (b % 2 == 1)) && BitXor(a, b) / 2 == BitXor(a / 2, b / 2)
  {
    hide BitXor;
    XorUnfolds(a, b);
    Parity(a, b);
    LowestOf(BitXor(a, b), (a + b) % 2, BitXor(a / 2, b / 2));
  }

  lemma XorUnfolds(a: nat, b: nat)
    requires a != 0 && b != 0
    ensures BitXor(a, b) == (a + b) % 2 + 2 * BitXor(a / 2, b / 2)
  {
  }

  lemma Parity(a: nat, b: nat)
    ensures (a + b) % 2 == 1 <==> (a % 2 == 1) != (b % 2 == 1)
  {
  }

  /** Shifts by one place at a time. */
  function Down(x: nat, n: nat): nat {
    if n == 0 then x else Down(x / 2, n - 1)
  }

  function Up(x: nat, n: nat): nat {
    if n == 0 then x else 2 * Up(x, n - 1)
  }

  lemma {:induction false} DownBits(x: nat, n: nat, k: nat)
    ensures BitAt(Down(x, n), k) <==> BitAt(x, k + n)
    decreases n
  {
    if n > 0 {
      DownBits(x / 2, n - 1, k);
    }
  }

  lemma {:induction false} UpBits(x: nat, n: nat, k: nat)
    ensures BitAt(Up(x, n), k) <==> k >= n && BitAt(x, k - n)
    decreases n
  {
    if n > 0 && k > 0 {
      UpBits(x, n - 1, k - 1);
      assert Up(x, n) / 2 == Up(x, n - 1);
    }
  }

  lemma {:induction false} DownIs(x: nat, n: nat)
    ensures Down(x, n) == x / Pow2(n)
    decreases n
  {
    if n > 0 {
      DownIs(x / 2, n - 1);
      HalvesAgain(x, Pow2(n - 1), Pow2(n));
    }
  }

  lemma {:induction false} UpIs(x: nat, n: nat)
    ensures Up(x, n) == x * Pow2(n)
    decreases n
  {
    if n > 0 {
      UpIs(x, n - 1);
      Doubled(Pow2(n - 1), x);
    }
  }

  /** A shift moves the bits. */
  lemma ShiftedBits(x: nat, n: nat, k: nat, down: nat, up: nat)
    requires down == x / Pow2(n) && up == x * Pow2(n)
    ensures BitAt(down, k) <==> BitAt(x, k + n)
    ensures BitAt(up, k) <==> k >= n && BitAt(x, k - n)
  {
    hide BitAt, Pow2, Up, Down;
    DownIs(x, n);
    UpIs(x, n);
    DownBits(x, n, k);
    UpBits(x, n, k);
  }

  lemma HalvesAgain(x: nat, p: nat, q: nat)
    requires p > 0 && q == 2 * p
    ensures x / q == x / 2 / p
  {
    var h := x / 2;
    var d, r := h / p, h % p;
    assert h == p * d + r;
    Doubled(p, d);
    DivModUnique(x, q, d, 2 * r + x % 2);
  }

  lemma Doubled(p: int, q: int)
    ensures 2 * p * q == 2 * (p * q) == q * (2 * p) == 2 * (q * p)
  {
  }

  /** The quotient is rounded towards zero, and the remainder has the sign of the
      dividend (section 6.5.5 paragraph 6). */
  lemma QuotientTowardsZero(x: int, y: int)
    requires y != 0
    ensures var q, r := TruncDiv(x, y), TruncRem(x, y);
            x == y * q + r && Abs(r) < Abs(y) && (x >= 0 ==> r >= 0) && (x <= 0 ==> r <= 0)
  {
    var a: int, b: int := Abs(x), Abs(y);
    var q, r := a / b, a % b;
    PositiveQuotient(a, b, q, r);
    QuotientSigns(b, q);
  }

  lemma PositiveQuotient(a: int, b: int, q: int, r: int)
    requires a >= 0 && b > 0 && q == a / b && r == a % b
    ensures a == b * q + r && 0 <= r < b
  {
  }

  lemma QuotientSigns(b: int, q: int)
    ensures (-b) * q == -(b * q) && b * (-q) == -(b * q) && (-b) * (-q) == b * q
  {
  }
}
