/** Array initializers: missing elements are filled in, and the elements are copied
    to consecutive places in row-major order. */
module ArrayInitializers {
  /** A scalar of some bytes, or an array. */
  datatype Type = Scalar(bytes: nat) | Array(count: nat, element: Type)

  /** An expression of the program, or a zero that the compiler has added. */
  datatype Value = Given(expr: int) | Zero

  /** One expression, or a list in braces. */
  datatype Init = Single(value: Value) | Multi(items: seq<Init>)

  datatype InitError = ScalarWithCompound | CompoundEmpty | ExcessElements

  datatype Result<+T> = Ok(value: T) | Err(error: InitError)

  function SizeOf(t: Type): nat {
    match t case Scalar(n) => n case Array(n, e) => n * SizeOf(e)
  }

  /** Every level of an array has its own braces. */
  ghost predicate Shaped(t: Type, init: Init)
    decreases t
  {
    t.Array? ==> init.Multi? && forall i :: 0 <= i < |init.items| ==> Shaped(t.element, init.items[i])
  }

  // -------------------------------------------------------------------- padding

  const MISSING: Init := Multi([])

  function ItemAt(items: seq<Init>, i: nat): Init {
    if i < |items| then items[i] else MISSING
  }

  function Pad(t: Type, init: Init): Init
    decreases t, 0
  {
    match t
    case Scalar(_) => if init.Single? then init else Single(Zero)
    case Array(n, e) =>
      if init.Single? then init else
      Multi(PadItems(e, init.items, n) + if |init.items| > n then init.items[n..] else [])
  }

  function PadItems(e: Type, items: seq<Init>, n: nat): (r: seq<Init>)
    ensures |r| == n
    decreases e, 1, n
  {
    if n == 0 then [] else PadItems(e, items, n - 1) + [Pad(e, ItemAt(items, n - 1))]
  }

  lemma {:induction false} PaddedItem(e: Type, items: seq<Init>, n: nat, i: nat)
    requires i < n
    ensures PadItems(e, items, n)[i] == Pad(e, ItemAt(items, i))
    decreases n
  {
    if i < n - 1 {
      PaddedItem(e, items, n - 1, i);
    }
  }

  /** The list is walked over, and cells are added at its end. */
  method ZeroPad(t: Type, init: Init) returns (r: Init)
    requires Shaped(t, init)
    ensures r == Pad(t, init)
    decreases t, 1
  {
    if t.Scalar? {
      r := if init.Single? then init else Single(Zero);
    } else {
      r := ZeroPadArray(t, init);
    }
  }

  method ZeroPadArray(t: Type, init: Init) returns (r: Init)
    requires t.Array? && Shaped(t, init)
    ensures r == Pad(t, init)
    decreases t, 0
  {
    hide Padding, Shaped, PadItems, Pad, ItemAt;
    IsList(t, init);
    var items := init.items;
    var count := 0;
    NoPadding(t.element, items);
    while count < t.count
      invariant 0 <= count <= t.count && items == Padding(t.element, init.items, count)
    {
      OnePadded(t.element, init.items, count);
      if count == |items| {
        items := items + [MISSING];
      }
      ShapedItem(t, init, count);
      var padded := ZeroPad(t.element, items[count]);
      items := items[count := padded];
      count := count + 1;
    }
    AllPadding(t, init);
    r := Multi(items);
  }

  lemma IsList(t: Type, init: Init)
    requires t.Array? && Shaped(t, init)
    ensures init.Multi?
  {
  }

  /** The list when some of its elements have been padded. */
  function Padding(e: Type, items: seq<Init>, n: nat): seq<Init> {
    PadItems(e, items, n) + if |items| > n then items[n..] else []
  }

  lemma NoPadding(e: Type, items: seq<Init>)
    ensures Padding(e, items, 0) == items
  {
  }

  lemma OnePadded(e: Type, items: seq<Init>, n: nat)
    ensures var p := Padding(e, items, n);
            var longer := if |p| == n then p + [MISSING] else p;
            n < |longer| && longer[n] == ItemAt(items, n) && longer[n := Pad(e, ItemAt(items, n))] == Padding(e, items, n + 1)
  {
    hide Pad;
  }

  lemma AllPadding(t: Type, init: Init)
    requires t.Array? && init.Multi?
    ensures Pad(t, init) == Multi(Padding(t.element, init.items, t.count))
  {
  }

  lemma ShapedItem(t: Type, init: Init, i: nat)
    requires t.Array? && Shaped(t, init)
    ensures Shaped(t.element, ItemAt(init.items, i))
  {
    MissingShaped(t.element);
  }

  lemma MissingShaped(t: Type)
    ensures Shaped(t, MISSING)
  {
  }

  // ------------------------------------------------------------------- checking

  function Check(t: Type, init: Init): Result<Init>
    decreases t, 1
  {
    if init.Single? then Ok(init)
    else if t.Scalar? then Err(ScalarWithCompound)
    else
      var items := CheckItems(t.element, init.items, |init.items|);
      if items.Err? then Err(items.error)
      else if init.items == [] then Err(CompoundEmpty)
      else if |init.items| > t.count then Err(ExcessElements)
      else Ok(Pad(t, Multi(items.value)))
  }

  function CheckItems(e: Type, items: seq<Init>, n: nat): (r: Result<seq<Init>>)
    requires n <= |items|
    ensures r.Ok? ==> |r.value| == n
    decreases e, 2, n
  {
    if n == 0 then Ok([]) else
    var before := CheckItems(e, items, n - 1);
    if before.Err? then before else
    var last := Check(e, items[n - 1]);
    if last.Err? then Err(last.error) else Ok(before.value + [last.value])
  }

  /** What the language asks of a braced initializer here: no empty list, and no more
      elements than the array has. */
  ghost predicate Braced(t: Type, init: Init)
    decreases t
  {
    match t
    case Scalar(_) => init.Single?
    case Array(n, e) => init.Multi? && 0 < |init.items| <= n && forall i :: 0 <= i < |init.items| ==> Braced(e, init.items[i])
  }

  /** Every array has all of its elements. */
  ghost predicate Full(t: Type, init: Init)
    decreases t
  {
    match t
    case Scalar(_) => init.Single?
    case Array(n, e) => init.Multi? && |init.items| == n && forall i :: 0 <= i < n ==> Full(e, init.items[i])
  }

  lemma {:induction false} PadFills(t: Type, init: Init)
    requires Braced(t, init) || init == MISSING || Full(t, init)
    ensures Full(t, Pad(t, init))
    decreases t
  {
    if t.Array? && (Braced(t, init) || init == MISSING || Full(t, init)) {
      var r := Pad(t, init);
      forall i | 0 <= i < t.count ensures Full(t.element, r.items[i]) {
        PaddedItem(t.element, init.items, t.count, i);
        PadFills(t.element, ItemAt(init.items, i));
      }
    }
  }

  /** Padding a list whose elements have been padded is padding the list. */
  lemma {:induction false} PadFull(t: Type, init: Init)
    requires Full(t, init)
    ensures Pad(t, init) == init
    decreases t
  {
    if t.Array? {
      var r := Pad(t, init);
      forall i | 0 <= i < t.count ensures r.items[i] == init.items[i] {
        PaddedItem(t.element, init.items, t.count, i);
        PadFull(t.element, init.items[i]);
      }
      assert r.items == init.items;
    }
  }

  lemma PadTwice(t: Type, init: Init)
    requires Braced(t, init)
    ensures Pad(t, Pad(t, init)) == Pad(t, init)
  {
    PadFills(t, init);
    PadFull(t, Pad(t, init));
  }

  /** An initializer is accepted exactly when it is braced as it should be, and then
      only padding has happened to it. */
  lemma {:induction false} CheckExactly(t: Type, init: Init)
    requires Shaped(t, init)
    ensures Check(t, init).Ok? <==> Braced(t, init)
    ensures Check(t, init).Ok? ==> Check(t, init).value == Pad(t, init)
    decreases t, 1
  {
    if t.Array? {
      ItemsExactly(t.element, init.items, |init.items|);
      if Braced(t, init) {
        var checked := CheckItems(t.element, init.items, |init.items|).value;
        SamePadding(t.element, init.items, checked, t.count);
      }
    }
  }

  lemma {:induction false} ItemsExactly(e: Type, items: seq<Init>, n: nat)
    requires n <= |items| && forall i :: 0 <= i < |items| ==> Shaped(e, items[i])
    ensures CheckItems(e, items, n).Ok? <==> forall i :: 0 <= i < n ==> Braced(e, items[i])
    ensures CheckItems(e, items, n).Ok? ==> forall i :: 0 <= i < n ==> CheckItems(e, items, n).value[i] == Pad(e, items[i])
    decreases e, 2, n
  {
    if n > 0 {
      ItemsExactly(e, items, n - 1);
      CheckExactly(e, items[n - 1]);
    }
  }

  lemma {:induction false} SamePadding(e: Type, items: seq<Init>, checked: seq<Init>, n: nat)
    requires |checked| == |items| && forall i :: 0 <= i < |items| ==> Braced(e, items[i]) && checked[i] == Pad(e, items[i])
    ensures PadItems(e, checked, n) == PadItems(e, items, n)
    decreases n
  {
    if n > 0 {
      SamePadding(e, items, checked, n - 1);
      if n - 1 < |items| {
        PadTwice(e, items[n - 1]);
      }
    }
  }

  /** Somewhere in the initializer there is this to find fault with. */
  ghost predicate Faulty(t: Type, init: Init, e: InitError)
    decreases t
  {
    init.Multi? &&
    match t
    case Scalar(_) => e == ScalarWithCompound
    case Array(n, element) =>
      || (exists i :: 0 <= i < |init.items| && Faulty(element, init.items[i], e))
      || (|init.items| == 0 && e == CompoundEmpty)
      || (|init.items| > n && e == ExcessElements)
  }

  /** A rejected initializer has the fault that the error names. */
  lemma {:induction false} RejectedFor(t: Type, init: Init)
    ensures Check(t, init).Err? ==> Faulty(t, init, Check(t, init).error)
    decreases t, 1
  {
    if t.Array? && init.Multi? {
      ItemRejectedFor(t.element, init.items, |init.items|);
    }
  }

  lemma {:induction false} ItemRejectedFor(e: Type, items: seq<Init>, n: nat)
    requires n <= |items|
    ensures CheckItems(e, items, n).Err? ==> exists i :: 0 <= i < n && Faulty(e, items[i], CheckItems(e, items, n).error)
    decreases e, 2, n
  {
    if n > 0 {
      ItemRejectedFor(e, items, n - 1);
      RejectedFor(e, items[n - 1]);
    }
  }

  // -------------------------------------------------------------------- copying

  /** A value and the offset of the place it is copied to. */
  datatype Copy = Copy(value: Value, offset: nat)

  datatype Emitted = Emitted(copies: seq<Copy>, pos: nat)

  function Emit(t: Type, init: Init, pos: nat): Emitted
    decreases init, 1
  {
    if init.Single? then Emitted([Copy(init.value, pos)], pos + SizeOf(t))
    else EmitItems(if t.Array? then t.element else t, init.items, pos)
  }

  function EmitItems(e: Type, items: seq<Init>, pos: nat): Emitted
    decreases items, 0
  {
    if items == [] then Emitted([], pos) else
    var first := Emit(e, items[0], pos);
    var others := EmitItems(e, items[1..], first.pos);
    Emitted(first.copies + others.copies, others.pos)
  }

  method DeclInitMulti(t: Type, init: Init, at: nat) returns (copies: seq<Copy>, pos: nat)
    requires Full(t, init)
    ensures Emitted(copies, pos) == Emit(t, init, at)
    decreases t
  {
    pos := at;
    if init.Single? {
      copies := [Copy(init.value, pos)];
      pos := pos + SizeOf(t);
      return;
    }
    copies := [];
    assert init.items[0..] == init.items;
    for i := 0 to |init.items|
      invariant var others := EmitItems(t.element, init.items[i..], pos);
                Emit(t, init, at) == Emitted(copies + others.copies, others.pos)
    {
      var part, next := DeclInitMulti(t.element, init.items[i], pos);
      assert init.items[i..][1..] == init.items[i + 1..];
      JoinThree(copies, part, EmitItems(t.element, init.items[i + 1..], next).copies);
      copies := copies + part;
      pos := next;
    }
    assert copies + [] == copies;
  }

  lemma JoinThree(a: seq<Copy>, b: seq<Copy>, c: seq<Copy>)
    ensures a + (b + c) == a + b + c
  {
  }

  // ------------------------------------------------------------------- the tiling

  /** The scalars of an object. */
  function Leaves(t: Type): nat {
    match t case Scalar(_) => 1 case Array(n, e) => n * Leaves(e)
  }

  function ScalarBytes(t: Type): nat {
    match t case Scalar(n) => n case Array(_, e) => ScalarBytes(e)
  }

  lemma {:induction false} SizeIsLeaves(t: Type)
    ensures SizeOf(t) == Leaves(t) * ScalarBytes(t)
  {
    if t.Array? {
      SizeIsLeaves(t.element);
      Product(t.count, Leaves(t.element), ScalarBytes(t));
    }
  }

  lemma Product(a: nat, b: nat, c: nat)
    ensures a * (b * c) == a * b * c
  {
  }

  /** Subscripts, one for each level. */
  ghost predicate Subscripts(t: Type, index: seq<nat>)
    decreases t
  {
    match t
    case Scalar(_) => index == []
    case Array(n, e) => index != [] && index[0] < n && Subscripts(e, index[1..])
  }

  /** The place of an element in row-major order. */
  function RowMajor(t: Type, index: seq<nat>): nat
    decreases t
  {
    if t.Scalar? || index == [] then 0 else index[0] * Leaves(t.element) + RowMajor(t.element, index[1..])
  }

  /** What the program says an element starts as (section 6.7.9): its initializer, or
      zero when there is none. */
  function InitialValue(t: Type, init: Init, index: seq<nat>): Value
    decreases t
  {
    if t.Scalar? then (if init.Single? then init.value else Zero)
    else if init.Single? || index == [] || index[0] >= |init.items| then Zero
    else InitialValue(t.element, init.items[index[0]], index[1..])
  }

  lemma {:induction false} RowMajorBelow(t: Type, index: seq<nat>)
    requires Subscripts(t, index)
    ensures RowMajor(t, index) < Leaves(t)
    decreases t
  {
    if t.Array? {
      RowMajorBelow(t.element, index[1..]);
      RowBelow(index[0], t.count, Leaves(t.element), RowMajor(t.element, index[1..]));
    }
  }

  lemma RowBelow(i: nat, n: nat, m: nat, r: nat)
    requires i < n && r < m
    ensures i * m + r < n * m
  {
    assert n * m == i * m + (n - i) * m;
    assert (n - i) * m >= m by {
      var d := n - i - 1;
      assert (n - i) * m == d * m + m;
    }
  }

  /** The subscripts of the k-th scalar. */
  function Digits(t: Type, k: nat): seq<nat>
    decreases t
  {
    if t.Scalar? || Leaves(t.element) == 0 then [] else [k / Leaves(t.element)] + Digits(t.element, k % Leaves(t.element))
  }

  lemma {:induction false} DigitsRight(t: Type, k: nat)
    requires k < Leaves(t)
    ensures Subscripts(t, Digits(t, k)) && RowMajor(t, Digits(t, k)) == k
    decreases t
  {
    if t.Array? {
      var m := Leaves(t.element);
      SomeLeaves(t.count, m);
      DigitBelow(k, t.count, m);
      DigitsRight(t.element, k % m);
      assert Digits(t, k)[1..] == Digits(t.element, k % m);
    }
  }

  lemma SomeLeaves(n: nat, m: nat)
    requires n * m > 0
    ensures m > 0
  {
  }

  lemma DigitBelow(k: nat, n: nat, m: nat)
    requires m > 0 && k < n * m
    ensures k / m < n && k == (k / m) * m + k % m
  {
    if k / m >= n {
      MoreRows(k / m, n, m);
    }
  }

  lemma MoreRows(a: nat, b: nat, m: nat)
    requires a >= b
    ensures a * m >= b * m
  {
    assert a * m == b * m + (a - b) * m;
  }

  /** The copies of a full initializer lie one after the other. */
  ghost predicate Tiled(t: Type, init: Init, pos: nat, e: Emitted) {
    && |e.copies| == Leaves(t) && e.pos == pos + SizeOf(t)
    && forall k :: 0 <= k < |e.copies| ==> e.copies[k].offset == pos + k * ScalarBytes(t)
  }

  lemma {:induction false} EmitTiles(t: Type, init: Init, pos: nat)
    requires Full(t, init)
    ensures Tiled(t, init, pos, Emit(t, init, pos))
    ensures forall index :: Subscripts(t, index) ==>
      RowMajor(t, index) < Leaves(t) && Emit(t, init, pos).copies[RowMajor(t, index)].value == InitialValue(t, init, index)
    decreases t, 1
  {
    forall index | Subscripts(t, index) ensures RowMajor(t, index) < Leaves(t) {
      RowMajorBelow(t, index);
    }
    if t.Array? {
      ItemsTile(t.element, init.items, pos);
      var r := EmitItems(t.element, init.items, pos);
      forall index | Subscripts(t, index) ensures r.copies[RowMajor(t, index)].value == InitialValue(t, init, index) {
        assert ValueAt(t.element, init.items, r, index[0], index[1..]);
      }
    } else {
      assert forall index :: Subscripts(t, index) ==> RowMajor(t, index) == 0;
    }
  }

  /** The same for the elements of an array, which have the same type. */
  ghost predicate ItemsTiled(e: Type, items: seq<Init>, pos: nat, r: Emitted) {
    && |r.copies| == |items| * Leaves(e) && r.pos == pos + |items| * SizeOf(e)
    && (forall k :: 0 <= k < |r.copies| ==> r.copies[k].offset == pos + k * ScalarBytes(e))
    && (forall i, index :: 0 <= i < |items| && Subscripts(e, index) ==> ValueAt(e, items, r, i, index))
  }

  ghost predicate ValueAt(e: Type, items: seq<Init>, r: Emitted, i: nat, index: seq<nat>)
    requires i < |items|
  {
    var k := i * Leaves(e) + RowMajor(e, index);
    k < |r.copies| && r.copies[k].value == InitialValue(e, items[i], index)
  }

  lemma {:induction false} ItemsTile(e: Type, items: seq<Init>, pos: nat)
    requires forall i :: 0 <= i < |items| ==> Full(e, items[i])
    ensures ItemsTiled(e, items, pos, EmitItems(e, items, pos))
    decreases e, 2, |items|
  {
    hide Emit, InitialValue, SizeOf, Leaves, ScalarBytes, RowMajor, Subscripts, Full;
    if items != [] {
      var first := Emit(e, items[0], pos);
      EmitTiles(e, items[0], pos);
      ItemsTile(e, items[1..], first.pos);
      OneMoreItem(e, items, pos, first, EmitItems(e, items[1..], first.pos));
    } else {
      assert 0 * Leaves(e) == 0 && 0 * SizeOf(e) == 0;
    }
  }

  lemma OneMoreItem(e: Type, items: seq<Init>, pos: nat, first: Emitted, others: Emitted)
    requires items != [] && Tiled(e, items[0], pos, first) && ItemsTiled(e, items[1..], first.pos, others)
    requires forall index :: Subscripts(e, index) ==>
      RowMajor(e, index) < Leaves(e) && first.copies[RowMajor(e, index)].value == InitialValue(e, items[0], index)
    ensures ItemsTiled(e, items, pos, Emitted(first.copies + others.copies, others.pos))
  {
    hide InitialValue, SizeOf, Leaves, ScalarBytes, RowMajor, Subscripts, ValueAt;
    var r := Emitted(first.copies + others.copies, others.pos);
    OneMore(|items|, Leaves(e));
    OneMore(|items|, SizeOf(e));
    SizeIsLeaves(e);
    forall k | 0 <= k < |r.copies| ensures r.copies[k].offset == pos + k * ScalarBytes(e) {
      OffsetAt(e, pos, first, others, k);
    }
    forall i, index | 0 <= i < |items| && Subscripts(e, index) ensures ValueAt(e, items, r, i, index) {
      if i > 0 {
        assert ValueAt(e, items[1..], others, i - 1, index);
        LaterValue(e, items, first, others, i, index);
      } else {
        FirstValue(e, items, first, others, index);
      }
    }
  }

  lemma OffsetAt(e: Type, pos: nat, first: Emitted, others: Emitted, k: nat)
    requires |first.copies| == Leaves(e) && first.pos == pos + SizeOf(e) && SizeOf(e) == Leaves(e) * ScalarBytes(e)
    requires forall j :: 0 <= j < |first.copies| ==> first.copies[j].offset == pos + j * ScalarBytes(e)
    requires forall j :: 0 <= j < |others.copies| ==> others.copies[j].offset == first.pos + j * ScalarBytes(e)
    requires k < |first.copies| + |others.copies|
    ensures (first.copies + others.copies)[k].offset == pos + k * ScalarBytes(e)
  {
    hide SizeOf, Leaves, ScalarBytes;
    var m := Leaves(e);
    if k >= m {
      assert (first.copies + others.copies)[k] == others.copies[k - m];
      Shifted(k, m, ScalarBytes(e));
    }
  }

  lemma FirstValue(e: Type, items: seq<Init>, first: Emitted, others: Emitted, index: seq<nat>)
    requires items != [] && |first.copies| == Leaves(e)
    requires RowMajor(e, index) < Leaves(e) && first.copies[RowMajor(e, index)].value == InitialValue(e, items[0], index)
    ensures ValueAt(e, items, Emitted(first.copies + others.copies, others.pos), 0, index)
  {
    hide InitialValue, RowMajor, Leaves;
    assert 0 * Leaves(e) == 0;
  }

  lemma LaterValue(e: Type, items: seq<Init>, first: Emitted, others: Emitted, i: nat, index: seq<nat>)
    requires 0 < i < |items| && |first.copies| == Leaves(e) && ValueAt(e, items[1..], others, i - 1, index)
    ensures ValueAt(e, items, Emitted(first.copies + others.copies, others.pos), i, index)
  {
    hide InitialValue, RowMajor, Leaves;
    var m, at := Leaves(e), (i - 1) * Leaves(e) + RowMajor(e, index);
    OneMore(i, m);
    assert (first.copies + others.copies)[m + at] == others.copies[at];
    assert items[1..][i - 1] == items[i];
  }

  lemma OneMore(n: nat, m: nat)
    requires n > 0
    ensures n * m == m + (n - 1) * m
  {
  }

  lemma Shifted(k: nat, m: nat, b: nat)
    requires k >= m
    ensures k * b == (k - m) * b + m * b
  {
  }

  /** Padding does not change what an element starts as. */
  lemma {:induction false} PadKeepsValues(t: Type, init: Init, index: seq<nat>)
    requires Subscripts(t, index) && (Braced(t, init) || init == MISSING)
    ensures InitialValue(t, Pad(t, init), index) == InitialValue(t, init, index)
    decreases t
  {
    if t.Array? {
      PaddedItem(t.element, init.items, t.count, index[0]);
      PadKeepsValues(t.element, ItemAt(init.items, index[0]), index[1..]);
      MissingIsZero(t.element, index[1..]);
    }
  }

  lemma {:induction false} MissingIsZero(t: Type, index: seq<nat>)
    ensures InitialValue(t, MISSING, index) == Zero
  {
  }

  /** The copies of an accepted initializer tile the object: as many as it has
      scalars, at the offsets 0, s, 2s and so on up to its size, and the k-th one
      writes what the program says the k-th element starts as. */
  lemma InitializerTiles(t: Type, init: Init)
    requires Shaped(t, init) && Check(t, init).Ok?
    ensures var e := Emit(t, Check(t, init).value, 0);
            && Tiled(t, Check(t, init).value, 0, e)
            && forall k :: 0 <= k < |e.copies| ==> e.copies[k].value == InitialValue(t, init, Digits(t, k))
  {
    CheckExactly(t, init);
    PadFills(t, init);
    var padded := Pad(t, init);
    EmitTiles(t, padded, 0);
    var e := Emit(t, padded, 0);
    forall k | 0 <= k < |e.copies| ensures e.copies[k].value == InitialValue(t, init, Digits(t, k)) {
      DigitsRight(t, k);
      PadKeepsValues(t, init, Digits(t, k));
    }
  }
}
