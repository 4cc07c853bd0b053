/** Vocabulary of the simulation: where code lies, how runs compose, and how the
    store of the IR machine relates to the store of the source program. */
module Simulation {
  import opened Wrappers
  import opened CTypes
  import opened CAst
  import opened Ir
  import opened CSemantics
  import opened ModularArithmetic

  // -------------------------------------------------------------------- code

  ghost predicate CodeAt(code: seq<IrOp>, p: nat, ops: seq<IrOp>) {
    p + |ops| <= |code| && forall i :: 0 <= i < |ops| ==> code[p + i] == ops[i]
  }

  lemma Split(code: seq<IrOp>, p: nat, a: seq<IrOp>, b: seq<IrOp>)
    requires CodeAt(code, p, a + b)
    ensures CodeAt(code, p, a) && CodeAt(code, p + |a|, b)
  {
    forall i | 0 <= i < |a| ensures code[p + i] == a[i] {
      assert (a + b)[i] == a[i];
    }
    forall i | 0 <= i < |b| ensures code[p + |a| + i] == b[i] {
      assert (a + b)[|a| + i] == b[i];
      assert code[p + (|a| + i)] == (a + b)[|a| + i];
    }
  }

  ghost predicate UniqueLabels(code: seq<IrOp>) {
    forall i, j :: 0 <= i < |code| && 0 <= j < |code| && code[i].LabelAt? && code[i] == code[j] ==> i == j
  }

  lemma LabelFound(code: seq<IrOp>, p: nat, id: int)
    requires UniqueLabels(code) && p < |code| && code[p] == LabelAt(id)
    ensures FindLabel(code, id) == Some(p)
  {
    LabelFoundFrom(code, p, id, 0);
  }

  lemma LabelFoundFrom(code: seq<IrOp>, p: nat, id: int, i: nat)
    requires UniqueLabels(code) && i <= p < |code| && code[p] == LabelAt(id)
    ensures FindLabelFrom(code, id, i) == Some(p)
    decreases p - i
  {
    if i < p && code[i] != LabelAt(id) {
      LabelFoundFrom(code, p, id, i + 1);
    }
  }

  // -------------------------------------------------------------------- runs

  lemma Chain(code: seq<IrOp>, layout: Layout, a: Config, j: nat, b: Config, k: nat, c: Config)
    requires Iter(code, layout, a, j) == b && Iter(code, layout, b, k) == c
    ensures Iter(code, layout, a, j + k) == c
    decreases j
  {
    if j > 0 {
      Chain(code, layout, Step(code, layout, a), j - 1, b, k, c);
    }
  }

  lemma Once(code: seq<IrOp>, layout: Layout, a: Config)
    ensures Iter(code, layout, a, 1) == Step(code, layout, a)
  {
    assert Iter(code, layout, Step(code, layout, a), 0) == Step(code, layout, a);
  }

  predicate Straight(op: IrOp) {
    !op.Ret? && !op.Jump? && !op.JumpIfZero? && !op.JumpIfNotZero?
  }

  lemma Straightforward(code: seq<IrOp>, layout: Layout, p: nat, t: Store, t': Store)
    requires p < |code| && Straight(code[p]) && Effect(layout, code[p], t) == Some(t')
    ensures Iter(code, layout, Running(p, t), 1) == Running(p + 1, t')
  {
    Once(code, layout, Running(p, t));
  }

  /** One more operation after a run. */
  lemma ThenStep(code: seq<IrOp>, layout: Layout, a: Config, j: nat, p: nat, t: Store, t': Store)
    requires Iter(code, layout, a, j) == Running(p, t)
    requires p < |code| && Straight(code[p]) && Effect(layout, code[p], t) == Some(t')
    ensures Iter(code, layout, a, j + 1) == Running(p + 1, t')
  {
    Straightforward(code, layout, p, t, t');
    Chain(code, layout, a, j, Running(p, t), 1, Running(p + 1, t'));
  }

  /** One more jump after a run: the label is at q. */
  lemma ThenJump(code: seq<IrOp>, layout: Layout, a: Config, j: nat, p: nat, t: Store, q: nat)
    requires Iter(code, layout, a, j) == Running(p, t) && UniqueLabels(code)
    requires p < |code| && code[p].Jump? && q < |code| && code[q] == LabelAt(code[p].target)
    ensures Iter(code, layout, a, j + 1) == Running(q, t)
  {
    LabelFound(code, q, code[p].target);
    Once(code, layout, Running(p, t));
    Chain(code, layout, a, j, Running(p, t), 1, Running(q, t));
  }

  /** One more conditional jump after a run, taken or not. */
  lemma ThenBranch(code: seq<IrOp>, layout: Layout, a: Config, j: nat, p: nat, t: Store, b: nat, q: nat)
    requires Iter(code, layout, a, j) == Running(p, t) && UniqueLabels(code)
    requires p < |code| && (code[p].JumpIfZero? || code[p].JumpIfNotZero?) && Read(code[p].cond, t) == Some(b)
    requires q < |code| && code[q] == LabelAt(code[p].target)
    ensures Iter(code, layout, a, j + 1)
         == Running(if (b == 0) == code[p].JumpIfZero? then q else p + 1, t)
  {
    LabelFound(code, q, code[p].target);
    Once(code, layout, Running(p, t));
    Chain(code, layout, a, j, Running(p, t), 1, Step(code, layout, Running(p, t)));
  }

  // ------------------------------------------------------------------ stores

  ghost predicate Agree(s: Store, t: Store) {
    forall l :: l in s ==> l in t && t[l] == s[l]
  }

  /** No object of the program is a temporary numbered g or above. */
  ghost predicate Below(s: Store, g: int) {
    forall l :: l in s && l.Tmp? ==> l.id < g
  }

  predicate Fresh(l: Loc, g: int, g': int) {
    l.Tmp? && g <= l.id < g'
  }

  /** The run from t to t' wrote to the objects wr and the temporaries g..g'. */
  ghost predicate Frame(t: Store, t': Store, wr: set<Loc>, g: int, g': int) {
    forall l :: l in t && l !in wr && !Fresh(l, g, g') ==> l in t' && t'[l] == t[l]
  }

  lemma FrameTrans(t0: Store, t1: Store, t2: Store, v: set<Loc>, w: set<Loc>, g0: int, g1: int, g2: int)
    requires Frame(t0, t1, v, g0, g1) && Frame(t1, t2, w, g1, g2) && g0 <= g1 <= g2
    ensures Frame(t0, t2, v + w, g0, g2)
  {
  }

  /** The operand that an expression leaves behind: a constant, a temporary, or
      an object that the evaluation accessed. */
  ghost predicate Settled(v: IrVal, r: Res, s: Store, g: int) {
    v.Variable? ==> (v.loc in s && v.loc in r.rd + r.wr) || (v.loc !in s && v.loc.Tmp? && v.loc.id < g)
  }

  /** Later code that does not write what the expression accessed leaves its
      operand alone. */
  lemma OperandStable(v: IrVal, r: Res, s: Store, t: Store, t': Store, wr: set<Loc>, g: int, g': int)
    requires Settled(v, r, s, g) && Below(s, g) && Frame(t, t', wr, g, g') && wr <= s.Keys && wr !! r.rd + r.wr
    ensures Read(v, t).Some? ==> Read(v, t') == Read(v, t)
    ensures forall ty: CType :: ReadAs(v, ty, t).Some? ==> ReadAs(v, ty, t') == ReadAs(v, ty, t)
  {
    if v.Variable? && v.loc in t {
      assert v.loc !in wr && !Fresh(v.loc, g, g');
    }
  }

  lemma ReadBits(v: IrVal, t: Store, b: nat)
    requires v.Variable? && v.loc in t && t[v.loc] == b < Modulus(v.ty)
    ensures Read(v, t) == Some(b)
  {
    SmallMod(b, Modulus(v.ty));
  }

  lemma WriteBits(v: IrVal, t: Store, b: nat)
    requires v.Variable? && b < Modulus(v.ty)
    ensures Write(v, b, t) == Some(t[v.loc := b])
  {
    SmallMod(b, Modulus(v.ty));
  }
}
