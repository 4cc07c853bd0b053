/** Memory as a map from objects to values: objects whose bytes do not overlap can
    be read and written independently. */
module MemoryMap {
  import opened CTypes
  import opened CAst
  import opened CSemantics
  import opened Asm
  import opened MachineFacts

  lemma {:induction false} StoreFrame(mem: Bytes, a: int, v: nat, n: nat, b: int)
    requires b < a || a + n <= b
    ensures ByteAt(StoreBytes(mem, a, v, n), b) == ByteAt(mem, b)
    decreases n
  {
    if n > 0 {
      StoreFrame(mem[a := v % 256], a + 1, v / 256, n - 1, b);
    }
  }

  /** What has been stored is loaded again. */
  lemma {:induction false} LoadStored(mem: Bytes, a: int, v: nat, n: nat)
    ensures LoadBytes(StoreBytes(mem, a, v, n), a, n) == v % Pow256(n)
    decreases n
  {
    if n == 0 {
      assert v % 1 == 0;
    } else {
      var mem1 := mem[a := v % 256];
      assert StoreBytes(mem, a, v, n) == StoreBytes(mem1, a + 1, v / 256, n - 1);
      LoadStored(mem1, a + 1, v / 256, n - 1);
      StoreFrame(mem1, a + 1, v / 256, n - 1, a);
      assert ByteAt(mem1, a) == v % 256;
      hide StoreBytes, ByteAt;
      SplitMod(v / 256, v % 256, Pow256(n - 1));
    }
  }

  /** A store elsewhere does not change what is loaded. */
  lemma {:induction false} LoadElsewhere(mem: Bytes, a: int, v: nat, n: nat, b: int, k: nat)
    requires b + k <= a || a + n <= b
    ensures LoadBytes(StoreBytes(mem, a, v, n), b, k) == LoadBytes(mem, b, k)
    decreases k
  {
    if k > 0 {
      StoreFrame(mem, a, v, n, b);
      LoadElsewhere(mem, a, v, n, b + 1, k - 1);
    }
  }

  // ------------------------------------------------------------------- objects

  predicate Apart(p: Slot, q: Slot) {
    p.address + p.size <= q.address || q.address + q.size <= p.address
  }

  /** Every object has a size the machine can move, lies in the address space and
      overlaps no other. */
  ghost predicate Disjoint(layout: Layout) {
    && (forall l :: l in layout ==> layout[l].size in {1, 4, 8} && layout[l].address + layout[l].size <= W64.Mod())
    && (forall l, k :: l in layout && k in layout && l != k ==> Apart(layout[l], layout[k]))
  }

  /** The memory holds the values of the store. */
  ghost predicate Stored(layout: Layout, st: Store, mem: Bytes) {
    forall l :: l in st ==> l in layout && LoadBytes(mem, layout[l].address, layout[l].size) == st[l]
  }

  /** Outside the objects nothing has changed. */
  ghost predicate Outside(layout: Layout, mem: Bytes, mem': Bytes) {
    forall b: int :: (forall l :: l in layout ==> !InSlot(layout[l], b)) ==> ByteAt(mem', b) == ByteAt(mem, b)
  }

  predicate InSlot(s: Slot, b: int) {
    s.address <= b < s.address + s.size
  }

  /** A write to an object is a write to the map. */
  lemma StoreThrough(layout: Layout, st: Store, mem: Bytes, l: Loc, v: nat)
    requires Disjoint(layout) && Stored(layout, st, mem) && l in layout
    ensures var mem' := StoreBytes(mem, layout[l].address, v, layout[l].size);
            Stored(layout, st[l := v % ModulusOfSize(layout[l].size)], mem') && Outside(layout, mem, mem')
  {
    hide StoreBytes, LoadBytes, ByteAt;
    var p := layout[l];
    var st', mem' := st[l := v % ModulusOfSize(p.size)], StoreBytes(mem, p.address, v, p.size);
    forall k | k in st' ensures k in layout && LoadBytes(mem', layout[k].address, layout[k].size) == st'[k] {
      if k == l {
        LoadStored(mem, p.address, v, p.size);
        WordPower(if p.size == 1 then W8 else if p.size == 4 then W32 else W64);
      } else {
        assert Apart(layout[k], p);
        LoadElsewhere(mem, p.address, v, p.size, layout[k].address, layout[k].size);
      }
    }
    forall b: int | forall k :: k in layout ==> !InSlot(layout[k], b) ensures ByteAt(mem', b) == ByteAt(mem, b) {
      assert !InSlot(p, b);
      StoreFrame(mem, p.address, v, p.size, b);
    }
  }

  /** A sequence of writes: every object holds what was written to it last. */
  function WriteAll(st: Store, layout: Layout, writes: seq<(Loc, nat)>): Store
    requires forall w :: w in writes ==> w.0 in layout
    decreases |writes|
  {
    if writes == [] then st else
    WriteAll(st[writes[0].0 := writes[0].1 % ModulusOfSize(layout[writes[0].0].size)], layout, writes[1..])
  }

  function StoreAll(mem: Bytes, layout: Layout, writes: seq<(Loc, nat)>): Bytes
    requires forall w :: w in writes ==> w.0 in layout
    decreases |writes|
  {
    if writes == [] then mem else
    var p := layout[writes[0].0];
    StoreAll(StoreBytes(mem, p.address, writes[0].1, p.size), layout, writes[1..])
  }

  lemma {:induction false} SlotsRefineMap(layout: Layout, st: Store, mem: Bytes, writes: seq<(Loc, nat)>, l: Loc)
    requires Disjoint(layout) && Stored(layout, st, mem) && (forall w :: w in writes ==> w.0 in layout)
    requires l in WriteAll(st, layout, writes)
    ensures l in layout
    ensures LoadBytes(StoreAll(mem, layout, writes), layout[l].address, layout[l].size) == WriteAll(st, layout, writes)[l]
    decreases |writes|
  {
    if writes != [] {
      hide Disjoint, Stored, StoreBytes, LoadBytes;
      var k, v := writes[0].0, writes[0].1;
      StoreThrough(layout, st, mem, k, v);
      SlotsRefineMap(layout, st[k := v % ModulusOfSize(layout[k].size)], StoreBytes(mem, layout[k].address, v, layout[k].size),
                     writes[1..], l);
    }
  }
}
