/** Pointer addition and pointer difference undo each other, as far as the offset in
    bytes fits a signed 64-bit integer. */
module PointerArithmetic {
  import opened Wrappers
  import opened CTypes
  import opened CAst
  import opened CSemantics
  import opened ModularArithmetic
  import Ir
  import Lowering

  const WORD: int := 0x1_0000_0000_0000_0000

  /** The signed reading of a 64-bit pattern. */
  function Signed64(b: nat): int {
    Value(Long, b)
  }

  /** The offset in bytes fits. */
  predicate OffsetFits(i: int, size: nat) {
    -(WORD / 2) <= i * size < WORD / 2
  }

  lemma SignedOfDifference(a: nat, d: int)
    requires a < WORD
    ensures Bits(Long, Bits(Long, a + d) - a) == d % WORD
  {
    var sum := a + d;
    assert sum == (sum / WORD) * WORD + sum % WORD;
    ModUnique(d, sum % WORD - a, WORD, sum / WORD);
  }

  lemma SignedBack(d: int)
    ensures -(WORD / 2) <= d < WORD / 2 ==> Signed64(d % WORD) == d
    ensures (Signed64(d % WORD) - d) % WORD == 0 && -(WORD / 2) <= Signed64(d % WORD) < WORD / 2
  {
    var q, r := d / WORD, d % WORD;
    assert d == q * WORD + r;
    if r >= WORD / 2 {
      DivModUnique(r - WORD - d, WORD, -1 - q, 0);
    } else {
      DivModUnique(r - d, WORD, -q, 0);
    }
    if 0 <= d < WORD / 2 {
      SmallMod(d, WORD);
    } else if -(WORD / 2) <= d < 0 {
      DivModUnique(d, WORD, -1, d + WORD);
    }
  }

  lemma MultipleSmall(r: int, size: int)
    requires r % WORD == 0 && -WORD < r < WORD
    ensures r == 0
  {
    if r >= 0 {
      SmallMod(r, WORD);
    } else {
      DivModUnique(r, WORD, -1, r + WORD);
    }
  }

  /** Truncation is the same on both sides of zero. */
  lemma QuotientParts(n: nat, size: nat) returns (q: nat)
    requires size > 0
    ensures TruncDiv(n, size) == q && TruncDiv(0 - n, size) == 0 - q
    ensures 0 <= n - q * size < size && q <= n
  {
    q := n / size;
    assert n == q * size + n % size;
    if q > 0 {
      AtLeastOne(size, q);
      assert q * size == size * q;
    }
    BothSides(n, size);
  }

  lemma BothSides(n: nat, size: nat)
    requires size > 0
    ensures TruncDiv(n, size) == n / size && TruncDiv(0 - n, size) == 0 - n / size
  {
  }

  /** Truncating division leaves a remainder smaller than the divisor. */
  lemma TruncatedParts(w: int, size: nat)
    requires size > 0
    ensures 0 - size < w - TruncDiv(w, size) * size < size
    ensures Abs(TruncDiv(w, size)) <= Abs(w)
    ensures if w >= 0 then TruncDiv(w, size) >= 0 else TruncDiv(w, size) <= 0
  {
    hide TruncDiv;
    var q := QuotientParts(Abs(w), size);
    NegativeProduct(q, size);
  }

  lemma NegativeProduct(q: int, size: nat)
    ensures (0 - q) * size == 0 - q * size
  {
  }

  lemma ExactQuotient(i: int, size: nat)
    requires size > 0
    ensures TruncDiv(i * size, size) == i
  {
    if i >= 0 {
      AtMost(i, size);
      DivModUnique(i * size, size, i, 0);
    } else {
      var k: nat := 0 - i;
      AtMost(k, size);
      assert i * size == 0 - k * size;
      DivModUnique(k * size, size, k, 0);
      if k * size == 0 { AtLeastOne(k, size); }
    }
  }

  lemma AtMost(i: nat, size: nat)
    ensures i * size >= 0
  {
  }

  /** The quotient is the index exactly when the offset fits. */
  lemma QuotientIsIndex(i: int, size: nat)
    requires 0 < size < WORD / 2
    ensures TruncDiv(Signed64((i * size) % WORD), size) == i <==> OffsetFits(i, size)
  {
    var d := i * size;
    var w := Signed64(d % WORD);
    SignedBack(d);
    TruncatedParts(w, size);
    if TruncDiv(w, size) == i {
      var r := w - d;
      MultipleSmall(r, size);
    }
    if OffsetFits(i, size) {
      ExactQuotient(i, size);
    }
  }

  /** Two's complement patterns are equal only for equal integers. */
  lemma PatternsDiffer(x: int, y: int)
    requires -(WORD / 2) <= x < WORD / 2 && -(WORD / 2) <= y < WORD / 2
    ensures x % WORD == y % WORD <==> x == y
  {
    SignedBack(x);
    SignedBack(y);
  }

  // ------------------------------------------------------- the source language

  /** `(p + i) - p` is i exactly when the offset fits. */
  lemma SumLessPointer(t: CType, p: nat, i: int)
    requires t.Pointer? && p < WORD && -(WORD / 2) <= i < WORD / 2
    ensures var sum := BinaryValue(Add, t, Long, t, p, Bits(Long, i)).value;
            BinaryValue(Subtract, t, t, Long, sum, p) == Some(Bits(Long, i)) <==> OffsetFits(i, t.referent.Size())
  {
    hide TruncDiv, OffsetFits, Value;
    var size := t.referent.Size();
    SignedBack(i);
    SumPattern(t, p, i, size);
    SignedOfDifference(p, i * size);
    PatternIsIndex(i, size);
  }

  lemma SumPattern(t: CType, p: nat, i: int, size: nat)
    requires t.Pointer? && size == t.referent.Size() && Signed64(i % WORD) == i
    ensures BinaryValue(Add, t, Long, t, p, Bits(Long, i)) == Some(Bits(Long, p + i * size))
  {
  }

  lemma PatternIsIndex(i: int, size: nat)
    requires 0 < size < WORD / 2 && -(WORD / 2) <= i < WORD / 2
    ensures Bits(Long, TruncDiv(Signed64((i * size) % WORD), size)) == Bits(Long, i) <==> OffsetFits(i, size)
  {
    hide TruncDiv, OffsetFits;
    var w := Signed64((i * size) % WORD);
    QuotientIsIndex(i, size);
    SignedBack(i * size);
    TruncatedParts(w, size);
    PatternsDiffer(TruncDiv(w, size), i);
  }

  /** `(p + i) - i` is p, always. */
  lemma SumLessIndex(t: CType, p: nat, i: nat)
    requires t.Pointer? && p < WORD && i < WORD
    ensures var sum := BinaryValue(Add, t, Long, t, p, i).value;
            BinaryValue(Subtract, t, Long, t, sum, i) == Some(p)
  {
    var d := Value(Long, i) * t.referent.Size();
    var sum := p + d;
    assert sum == (sum / WORD) * WORD + sum % WORD;
    ModUnique(sum % WORD - d, p, WORD, -(sum / WORD));
    SmallMod(p, WORD);
  }

  // ------------------------------------------------------------- the operations

  /** The code for `(p + i) - p` when an element has `size` bytes, behind the code of
      its operands. */
  function SumLessPointerOps(p: Ir.IrVal, i: Ir.IrVal, t: CType, size: nat, g: int): seq<Ir.IrOp> {
    [Ir.PointerAdd(p, i, size, Ir.Variable(Tmp(g), t)),
     Ir.BinaryOf(Subtract, Ir.Variable(Tmp(g), t), p, Ir.Variable(Tmp(g + 1), Long)),
     Ir.BinaryOf(Divide, Ir.Variable(Tmp(g + 1), Long), Ir.Constant(size, Long), Ir.Variable(Tmp(g + 2), Long))]
  }

  /** The code for `(p + i) - i`. */
  function SumLessIndexOps(p: Ir.IrVal, i: Ir.IrVal, t: CType, size: nat, g: int): seq<Ir.IrOp> {
    [Ir.PointerAdd(p, i, size, Ir.Variable(Tmp(g), t)),
     Ir.UnaryOf(Negate, i, Ir.Variable(Tmp(g + 1), Long)),
     Ir.PointerAdd(Ir.Variable(Tmp(g), t), Ir.Variable(Tmp(g + 1), Long), size, Ir.Variable(Tmp(g + 2), t))]
  }

  /** An operand that the three temporaries do not overwrite. */
  predicate Older(v: Ir.IrVal, g: int) {
    v.Variable? ==> v.loc != Tmp(g) && v.loc != Tmp(g + 1) && v.loc != Tmp(g + 2)
  }

  /** This is what lowering makes of them. */
  lemma LoweredArithmetic(p: Ir.IrVal, i: Ir.IrVal, t: CType, g: int)
    requires t.Pointer? && i.ty == Long
    ensures var size, sum := t.referent.Size(), Lowering.FinishBinary(Add, t, Long, t, p, i, g);
            && sum.ops + Lowering.FinishBinary(Subtract, t, t, Long, sum.ret, p, sum.gen).ops == SumLessPointerOps(p, i, t, size, g)
            && sum.ops + Lowering.FinishBinary(Subtract, t, Long, t, sum.ret, i, sum.gen).ops == SumLessIndexOps(p, i, t, size, g)
  {
  }

  /** The operations for `(p + i) - p` yield the index exactly when the offset fits,
      whatever the size of an element. */
  lemma SumLessPointerRuns(layout: Ir.Layout, p: Ir.IrVal, i: Ir.IrVal, t: CType, size: nat, g: int, a: nat, b: nat, st: Ir.Store)
    returns (st1: Ir.Store, st2: Ir.Store, st3: Ir.Store)
    requires t.Pointer? && p.ty == t && i.ty == Long && Older(p, g) && Older(i, g) && 0 < size < WORD / 2
    requires Ir.Read(p, st) == Some(a) && Ir.Read(i, st) == Some(b)
    ensures var ops := SumLessPointerOps(p, i, t, size, g);
            && Ir.Effect(layout, ops[0], st) == Some(st1) && Ir.Effect(layout, ops[1], st1) == Some(st2)
            && Ir.Effect(layout, ops[2], st2) == Some(st3)
    ensures Tmp(g + 2) in st3 && st3[Tmp(g + 2)] < WORD && (st3[Tmp(g + 2)] == b <==> OffsetFits(Signed64(b), size))
  {
    hide Ir.Effect, BinaryValue, TruncDiv;
    ReadBelow(p, st, a);
    ReadBelow(i, st, b);
    var sum := (a + b * size) % WORD;
    st1 := st[Tmp(g) := sum];
    AddStep(layout, p, i, size, t, g, a, b, st);
    var diff := Bits(Long, sum - a);
    st2 := st1[Tmp(g + 1) := diff];
    assert Ir.Read(p, st1) == Some(a);
    SubtractStep(layout, p, t, g, sum, a, st1);
    var quotient := Bits(Long, TruncDiv(Signed64(diff), size));
    st3 := st2[Tmp(g + 2) := quotient];
    DivideStep(layout, g, size, diff, st2);
    SignedBits(b);
    UnsignedOffset(a, b, size);
    QuotientOfSum(size, a, Signed64(b), sum);
  }

  /** The operations for `(p + i) - i` always yield p. */
  lemma SumLessIndexRuns(layout: Ir.Layout, p: Ir.IrVal, i: Ir.IrVal, t: CType, size: nat, g: int, a: nat, b: nat, st: Ir.Store)
    returns (st1: Ir.Store, st2: Ir.Store, st3: Ir.Store)
    requires t.Pointer? && p.ty == t && i.ty == Long && Older(p, g) && Older(i, g)
    requires Ir.Read(p, st) == Some(a) && Ir.Read(i, st) == Some(b)
    ensures var ops := SumLessIndexOps(p, i, t, size, g);
            && Ir.Effect(layout, ops[0], st) == Some(st1) && Ir.Effect(layout, ops[1], st1) == Some(st2)
            && Ir.Effect(layout, ops[2], st2) == Some(st3)
    ensures Tmp(g + 2) in st3 && st3[Tmp(g + 2)] == a
  {
    hide Ir.Effect, BinaryValue;
    ReadBelow(p, st, a);
    ReadBelow(i, st, b);
    var sum := (a + b * size) % WORD;
    st1 := st[Tmp(g) := sum];
    AddStep(layout, p, i, size, t, g, a, b, st);
    var back := (0 - b) % WORD;
    st2 := st1[Tmp(g + 1) := back];
    assert Ir.Read(i, st1) == Some(b);
    NegateStep(layout, i, g, b, st1);
    st3 := st2[Tmp(g + 2) := a];
    SmallMod(sum, WORD);
    SmallMod(back, WORD);
    AddStep(layout, Ir.Variable(Tmp(g), t), Ir.Variable(Tmp(g + 1), Long), size, t, g + 2, sum, back, st2);
    ForthAndBack(a, b, size);
  }

  lemma NegateStep(layout: Ir.Layout, i: Ir.IrVal, g: int, b: nat, st: Ir.Store)
    requires i.ty == Long && Ir.Read(i, st) == Some(b) && b < WORD
    ensures Ir.Effect(layout, Ir.UnaryOf(Negate, i, Ir.Variable(Tmp(g + 1), Long)), st) == Some(st[Tmp(g + 1) := (0 - b) % WORD])
  {
    SmallMod((0 - b) % WORD, WORD);
  }

  lemma ForthAndBack(a: nat, b: nat, size: nat)
    requires a < WORD
    ensures ((a + b * size) % WORD + (0 - b) % WORD * size) % WORD == a
  {
    var sum, c := a + b * size, (0 - b) % WORD;
    var q, r := sum / WORD, (0 - b) / WORD;
    assert sum == q * WORD + sum % WORD && 0 - b == r * WORD + c;
    assert c * size == (0 - b - r * WORD) * size;
    ScaledDifference(b, r, size);
    ModUnique(sum % WORD + c * size, a, WORD, -q - r * size);
    SmallMod(a, WORD);
  }

  lemma ScaledDifference(b: nat, r: int, size: nat)
    ensures (0 - b - r * WORD) * size == 0 - b * size - (r * size) * WORD
  {
    assert (r * WORD) * size == (r * size) * WORD;
    Difference(0 - b, r * WORD, size);
  }

  lemma AddStep(layout: Ir.Layout, p: Ir.IrVal, i: Ir.IrVal, size: nat, t: CType, g: int, a: nat, b: nat, st: Ir.Store)
    requires t.Pointer? && i.ty == Long && Ir.Read(p, st) == Some(a) && Ir.Read(i, st) == Some(b)
    ensures Ir.Effect(layout, Ir.PointerAdd(p, i, size, Ir.Variable(Tmp(g), t)), st) == Some(st[Tmp(g) := (a + b * size) % WORD])
  {
  }

  lemma SubtractStep(layout: Ir.Layout, p: Ir.IrVal, t: CType, g: int, sum: nat, a: nat, st: Ir.Store)
    requires t.Pointer? && p.ty == t && Tmp(g) in st && st[Tmp(g)] == sum < WORD && Ir.Read(p, st) == Some(a)
    ensures Ir.Effect(layout, Ir.BinaryOf(Subtract, Ir.Variable(Tmp(g), t), p, Ir.Variable(Tmp(g + 1), Long)), st)
         == Some(st[Tmp(g + 1) := Bits(Long, sum - a)])
  {
    SmallMod(sum, WORD);
    SmallMod(Bits(Long, sum - a), WORD);
  }

  lemma DivideStep(layout: Ir.Layout, g: int, size: nat, diff: nat, st: Ir.Store)
    requires 0 < size < WORD / 2 && Tmp(g + 1) in st && st[Tmp(g + 1)] == diff < WORD
    ensures Ir.Effect(layout, Ir.BinaryOf(Divide, Ir.Variable(Tmp(g + 1), Long), Ir.Constant(size, Long), Ir.Variable(Tmp(g + 2), Long)), st)
         == Some(st[Tmp(g + 2) := Bits(Long, TruncDiv(Signed64(diff), size))])
  {
    hide TruncDiv;
    SmallMod(diff, WORD);
    SmallMod(size, WORD);
    SmallMod(Bits(Long, TruncDiv(Signed64(diff), size)), WORD);
  }

  lemma QuotientOfSum(size: nat, a: nat, i: int, sum: nat)
    requires 0 < size < WORD / 2 && a < WORD && -(WORD / 2) <= i < WORD / 2 && sum == (a + i * size) % WORD
    ensures Bits(Long, TruncDiv(Signed64(Bits(Long, sum - a)), size)) == Bits(Long, i) <==> OffsetFits(i, size)
  {
    hide TruncDiv, OffsetFits, Value;
    SignedOfDifference(a, i * size);
    PatternIsIndex(i, size);
  }

  lemma ReadBelow(v: Ir.IrVal, st: Ir.Store, a: nat)
    requires Ir.Read(v, st) == Some(a) && v.ty.Size() == 8
    ensures a < WORD
  {
  }

  lemma SignedBits(b: nat)
    requires b < WORD
    ensures Bits(Long, Signed64(b)) == b && -(WORD / 2) <= Signed64(b) < WORD / 2
  {
    if b >= WORD / 2 {
      DivModUnique(b - WORD, WORD, -1, b);
    } else {
      SmallMod(b, WORD);
    }
  }

  /** An index counted modulo 2^64 gives the same address. */
  lemma UnsignedOffset(a: nat, b: nat, size: nat)
    requires b < WORD
    ensures (a + b * size) % WORD == (a + Signed64(b) * size) % WORD
  {
    if b >= WORD / 2 {
      assert a + b * size == a + (b - WORD) * size + size * WORD by {
        Difference(b, WORD, size);
      }
      ModUnique(a + b * size, a + (b - WORD) * size, WORD, size);
    }
  }
}
