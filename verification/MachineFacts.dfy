/** Facts about the machine: what a register or memory access depends on, and what
    a write leaves alone. */
module MachineFacts {
  import opened Wrappers
  import opened CTypes
  import opened Asm
  import opened ModularArithmetic

  /** The registers that an operand mentions. */
  function Uses(k: Kind): set<Reg> {
    match k
    case Register(r) => {r}
    case Memory(_, base) => {base}
    case Indexed(base, index, _) => {base, index}
    case _ => {}
  }

  ghost predicate SameRegs(s: Machine, t: Machine, junk: set<Reg>) {
    forall r :: r !in junk ==> Reg64(s, r) == Reg64(t, r)
  }

  /** Two states that differ in some registers only. */
  ghost predicate SameBut(s: Machine, t: Machine, junk: set<Reg>) {
    s.mem == t.mem && SameRegs(s, t, junk)
  }

  // ----------------------------------------------------------------- widths

  /** How many times wider one word is than another. */
  function Ratio(w: Word, v: Word): nat
    requires v.Bytes() <= w.Bytes()
  {
    if v == w then 1 else if w.W32? then 0x100_0000 else if v.W8? then 0x100_0000_0000_0000 else 0x1_0000_0000
  }

  lemma ModMod(n: int, w: Word, v: Word)
    requires v.Bytes() <= w.Bytes()
    ensures n % w.Mod() % v.Mod() == n % v.Mod()
  {
    assert w.Mod() == v.Mod() * Ratio(w, v);
    ModOfMultiple(n, v.Mod(), Ratio(w, v));
  }

  lemma ModOfMultiple(n: int, d: nat, c: nat)
    requires d > 0 && c > 0 && d * c > 0
    ensures n % (d * c) % d == n % d
  {
    var q, r := n / (d * c), n % (d * c);
    assert n == d * c * q + r;
    assert d * c * q == d * (c * q);
    assert r == d * (r / d) + r % d;
    assert d * (c * q) + d * (r / d) == d * (c * q + r / d);
    DivModUnique(n, d, c * q + r / d, r % d);
  }

  function Pow256(n: nat): (p: nat)
    ensures p > 0
  {
    if n == 0 then 1 else 256 * Pow256(n - 1)
  }

  lemma WordPower(w: Word)
    ensures Pow256(w.Bytes()) == w.Mod()
  {
    assert Pow256(1) == 256 * Pow256(0);
    assert Pow256(4) == 256 * (256 * (256 * (256 * Pow256(0))));
    assert Pow256(8) == 256 * (256 * (256 * (256 * Pow256(4))));
  }

  lemma {:induction false} LoadBound(mem: Bytes, a: int, n: nat)
    ensures LoadBytes(mem, a, n) < Pow256(n)
    decreases n
  {
    if n > 0 {
      LoadBound(mem, a + 1, n - 1);
    }
  }

  /** A narrow load sees the low bytes of a wide one. */
  lemma {:induction false} LoadNarrow(mem: Bytes, a: int, k: nat, n: nat)
    requires k <= n
    ensures LoadBytes(mem, a, n) % Pow256(k) == LoadBytes(mem, a, k)
    decreases n
  {
    if k > 0 {
      LoadNarrow(mem, a + 1, k - 1, n - 1);
      var p, x, b := Pow256(k - 1), LoadBytes(mem, a + 1, n - 1), ByteAt(mem, a);
      LoadBound(mem, a + 1, k - 1);
      SplitMod(x, b, p);
    } else {
      assert forall x: nat :: x % 1 == 0;
    }
  }

  lemma SplitMod(x: nat, b: nat, p: nat)
    requires p > 0 && b < 256
    ensures (b + 256 * x) % (256 * p) == b + 256 * (x % p)
  {
    var q := x / p;
    assert x == q * p + x % p;
    assert b + 256 * x == (256 * p) * q + (b + 256 * (x % p));
    DivModUnique(b + 256 * x, 256 * p, q, b + 256 * (x % p));
  }

  // ------------------------------------------------------------------- reads

  lemma AddressFrame(env: Env, k: Kind, s: Machine, t: Machine, junk: set<Reg>)
    requires SameRegs(s, t, junk) && Uses(k) !! junk
    ensures Address(env, k, s) == Address(env, k, t)
  {
    assert k.Memory? ==> k.base in Uses(k);
    assert k.Indexed? ==> k.base in Uses(k) && k.index in Uses(k);
  }

  lemma ReadFrame(env: Env, k: Kind, w: Word, s: Machine, t: Machine, junk: set<Reg>)
    requires SameBut(s, t, junk) && Uses(k) !! junk
    ensures ReadOp(env, k, w, s) == ReadOp(env, k, w, t)
  {
    hide LoadBytes;
    AddressFrame(env, k, s, t, junk);
    assert k.Register? ==> k.reg in Uses(k);
  }

  lemma NarrowRead(env: Env, k: Kind, w: Word, v: Word, m: Machine)
    requires v.Bytes() <= w.Bytes() && ReadOp(env, k, w, m).Some?
    ensures ReadOp(env, k, v, m) == Some(ReadOp(env, k, w, m).value % v.Mod())
  {
    hide LoadBytes;
    if k.Immediate? {
      ModMod(k.num, w, v);
    } else if k.Register? {
      ModMod(Reg64(m, k.reg), w, v);
    } else if k.DoubleConst? {
      ModMod(k.bits, w, v);
    } else {
      LoadNarrow(m.mem, Address(env, k, m).value, v.Bytes(), w.Bytes());
      WordPower(v);
    }
  }

  lemma ReadBound(env: Env, k: Kind, w: Word, m: Machine)
    ensures ReadOp(env, k, w, m).Some? ==> ReadOp(env, k, w, m).value < w.Mod()
  {
    var a := Address(env, k, m);
    if a.Some? {
      LoadBound(m.mem, a.value, w.Bytes());
      WordPower(w);
    }
  }

  // ------------------------------------------------------------------ writes

  lemma WriteRegFrame(m: Machine, r: Reg, w: Word, v: nat)
    ensures SameBut(m, WriteReg(m, r, w, v), {r}) && WriteReg(m, r, w, v).flags == m.flags
  {
  }

  lemma LowByte(x: nat, b: nat)
    requires b < 256 && x < W64.Mod()
    ensures 0 <= x - x % 256 + b < W64.Mod() && (x - x % 256 + b) % 256 == b
  {
    DivModUnique(x - x % 256 + b, 256, x / 256, b);
  }

  /** What a register holds after a write, as far as it was written. */
  lemma WrittenReg(m: Machine, r: Reg, w: Word, v: nat, u: Word)
    requires u.Bytes() <= w.Bytes()
    ensures Reg64(WriteReg(m, r, w, v), r) % u.Mod() == v % u.Mod()
  {
    if w.W8? {
      var x := Reg64(m, r);
      LowByte(x, v % 256);
      var y := x - x % 256 + v % 256;
      assert WriteReg(m, r, w, v).regs == m.regs[r := y] && y % W64.Mod() == y;
    } else {
      ModMod(v, w, u);
      ModMod(v % w.Mod(), W64, u);
    }
  }

  /** A 32-bit write clears the upper half. */
  lemma WrittenWide(m: Machine, r: Reg, w: Word, v: nat)
    requires !w.W8?
    ensures Reg64(WriteReg(m, r, w, v), r) == v % w.Mod()
  {
  }

  lemma SameButGrows(s: Machine, t: Machine, junk: set<Reg>, more: set<Reg>)
    requires SameBut(s, t, junk) && junk <= more
    ensures SameBut(s, t, more)
  {
  }

  lemma SameButTrans(s: Machine, t: Machine, u: Machine, junk: set<Reg>)
    requires SameBut(s, t, junk) && SameBut(t, u, junk)
    ensures SameBut(s, u, junk)
  {
  }

  /** The same value written to the same place in both states. */
  lemma WriteFrame(env: Env, k: Kind, w: Word, v: nat, v': nat, s: Machine, t: Machine, junk: set<Reg>)
    requires SameBut(s, t, junk) && Uses(k) !! junk && v % w.Mod() == v' % w.Mod()
    ensures WriteOp(env, k, w, v, s).Some? <==> WriteOp(env, k, w, v', t).Some?
    ensures WriteOp(env, k, w, v, s).Some? ==> SameBut(WriteOp(env, k, w, v, s).value, WriteOp(env, k, w, v', t).value, junk)
    ensures WriteOp(env, k, w, v, s).Some? ==> WriteOp(env, k, w, v, s).value.flags == s.flags
    ensures WriteOp(env, k, w, v', t).Some? ==> WriteOp(env, k, w, v', t).value.flags == t.flags
  {
    AddressFrame(env, k, s, t, junk);
    if k.Register? {
      assert k.reg in Uses(k);
      assert w.W8? ==> v % 256 == v' % 256;
    } else if k.Memory? || k.Data? {
      StoreNarrow(s.mem, Address(env, k, s).value, v, v', w.Bytes());
    }
  }

  /** Only the low bytes of a value are stored. */
  lemma {:induction false} StoreLow(mem: Bytes, a: int, v: nat, v': nat, n: nat)
    requires v % Pow256(n) == v' % Pow256(n)
    ensures StoreBytes(mem, a, v, n) == StoreBytes(mem, a, v', n)
    decreases n
  {
    if n > 0 {
      var p := Pow256(n - 1);
      SplitMod(v / 256, v % 256, p);
      SplitMod(v' / 256, v' % 256, p);
      assert v == v % 256 + 256 * (v / 256) && v' == v' % 256 + 256 * (v' / 256);
      StoreLow(mem[a := v % 256], a + 1, v / 256, v' / 256, n - 1);
    }
  }

  lemma StoreNarrow(mem: Bytes, a: int, v: nat, v': nat, n: nat)
    requires (n == 1 || n == 4 || n == 8) && v % ModulusOfSize(n) == v' % ModulusOfSize(n)
    ensures StoreBytes(mem, a, v, n) == StoreBytes(mem, a, v', n)
  {
    WordPower(if n == 1 then W8 else if n == 4 then W32 else W64);
    StoreLow(mem, a, v, v', n);
  }
}
