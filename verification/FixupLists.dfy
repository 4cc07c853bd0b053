/** Fixing as the compiler performs it: instructions are cells of a singly linked
    list, and a cell that needs a fix is cut out and replaced in place. */
module FixupLists {
  import opened Asm
  import opened Fixups

  class AsmNode {
    var op: AsmOp
    var next: AsmNode?

    constructor (op: AsmOp)
      ensures this.op == op && next == null
    {
      this.op, next := op, null;
    }
  }

  /** The cells follow each other, and the last one leads to `end`. */
  ghost predicate Chain(cells: seq<AsmNode>, end: AsmNode?)
    reads cells
  {
    && (forall i, j :: 0 <= i < |cells| && j == i + 1 && j < |cells| ==> cells[i].next == cells[j])
    && (cells != [] ==> cells[|cells| - 1].next == end)
  }

  ghost predicate NoDuplicates(cells: seq<AsmNode>) {
    forall i, j :: 0 <= i < j < |cells| ==> cells[i] != cells[j]
  }

  ghost function FirstOf(cells: seq<AsmNode>, end: AsmNode?): AsmNode? {
    if cells == [] then end else cells[0]
  }

  lemma ChainNext(c: seq<AsmNode>, end: AsmNode?, i: nat)
    requires Chain(c, end) && i < |c|
    ensures i + 1 < |c| ==> c[i].next == c[i + 1]
    ensures i + 1 == |c| ==> c[i].next == end
  {
  }

  lemma ChainJoin(a: seq<AsmNode>, b: seq<AsmNode>, end: AsmNode?)
    requires Chain(a, FirstOf(b, end)) && Chain(b, end)
    ensures Chain(a + b, end)
  {
    var c := a + b;
    forall i, j | 0 <= i < |c| && j == i + 1 && j < |c| ensures c[i].next == c[j] {
      if j < |a| {
        assert c[i] == a[i] && c[j] == a[j];
      } else if i < |a| {
        assert c[i] == a[|a| - 1] && c[j] == b[0];
      } else {
        assert c[i] == b[i - |a|] && c[j] == b[j - |a|];
      }
    }
    if b != [] {
      assert c[|c| - 1] == b[|b| - 1];
    } else {
      assert c == a;
    }
  }

  lemma ChainSplit(c: seq<AsmNode>, at: nat, end: AsmNode?)
    requires Chain(c, end) && at <= |c|
    ensures Chain(c[..at], FirstOf(c[at..], end)) && Chain(c[at..], end)
  {
    var a, b := c[..at], c[at..];
    forall i, j | 0 <= i < |a| && j == i + 1 && j < |a| ensures a[i].next == a[j] {
      assert a[i] == c[i] && a[j] == c[j];
    }
    forall i, j | 0 <= i < |b| && j == i + 1 && j < |b| ensures b[i].next == b[j] {
      assert b[i] == c[at + i] && b[j] == c[at + j];
    }
    if b != [] {
      assert b[|b| - 1] == c[|c| - 1];
      if a != [] {
        assert a[|a| - 1] == c[at - 1] && b[0] == c[at];
      }
    } else {
      assert a == c;
    }
  }

  lemma NoDuplicatesJoin(a: seq<AsmNode>, b: seq<AsmNode>)
    requires NoDuplicates(a) && NoDuplicates(b) && forall n :: n in a ==> n !in b
    ensures NoDuplicates(a + b)
  {
    var c := a + b;
    forall i, j | 0 <= i < j < |c| ensures c[i] != c[j] {
      if i < |a| <= j {
        assert c[i] in a && c[j] in b;
      }
    }
  }

  /** The cells hold the given instructions. */
  ghost predicate Carry(cells: seq<AsmNode>, code: seq<AsmOp>)
    reads cells
  {
    |cells| == |code| && forall i :: 0 <= i < |cells| ==> cells[i].op == code[i]
  }

  ghost predicate Inside(cells: seq<AsmNode>, repr: set<AsmNode>) {
    forall i :: 0 <= i < |cells| ==> cells[i] in repr
  }

  lemma InsideJoin(before: seq<AsmNode>, spliced: seq<AsmNode>, after: seq<AsmNode>, repr: set<AsmNode>, repr': set<AsmNode>)
    requires Inside(before, repr) && Inside(after, repr) && repr <= repr' && forall n :: n in spliced ==> n in repr'
    ensures Inside(before + (spliced + after), repr')
  {
  }

  lemma InsideAround(cells: seq<AsmNode>, repr: set<AsmNode>, at: nat)
    requires Inside(cells, repr) && at < |cells|
    ensures Inside(cells[..at], repr) && Inside(cells[at + 1..], repr) && cells[at] in repr && (at > 0 ==> cells[at - 1] in repr)
  {
  }

  lemma CarryJoin(a: seq<AsmNode>, b: seq<AsmNode>, x: seq<AsmOp>, y: seq<AsmOp>)
    requires Carry(a, x) && Carry(b, y)
    ensures Carry(a + b, x + y)
  {
  }

  lemma CarryAround(cells: seq<AsmNode>, code: seq<AsmOp>, at: nat)
    requires Carry(cells, code) && at < |cells|
    ensures Carry(cells[..at], code[..at]) && Carry(cells[at + 1..], code[at + 1..]) && cells[at].op == code[at]
  {
  }

  lemma JoinThree(before: seq<AsmNode>, spliced: seq<AsmNode>, after: seq<AsmNode>, x: seq<AsmOp>, y: seq<AsmOp>, z: seq<AsmOp>)
    requires spliced != [] && Chain(before, spliced[0]) && Chain(spliced, FirstOf(after, null)) && Chain(after, null)
    requires Carry(before, x) && Carry(spliced, y) && Carry(after, z)
    ensures Chain(before + (spliced + after), null) && Carry(before + (spliced + after), x + (y + z))
  {
    hide Chain, Carry;
    ChainJoin(spliced, after, null);
    ChainJoin(before, spliced + after, null);
    CarryJoin(spliced, after, y, z);
    CarryJoin(before, spliced + after, x, y + z);
  }

  /** Only the last cell before the cut, the cell cut out and the last new cell
      have their links changed. */
  lemma LinksApart(before: seq<AsmNode>, spliced: seq<AsmNode>, after: seq<AsmNode>, prev: AsmNode?, cur: AsmNode, last: AsmNode)
    requires cur !in before + spliced + after && NoDuplicates(before) && NoDuplicates(spliced) && spliced != []
    requires spliced[|spliced| - 1] == last && (forall n :: n in spliced ==> n !in before && n !in after)
    requires (forall n :: n in before ==> n !in after) && prev == (if before == [] then null else before[|before| - 1])
    ensures forall i :: 0 <= i < |after| ==> after[i] != cur && after[i] != prev && after[i] != last
    ensures forall i :: 0 <= i < |spliced| ==> spliced[i] != cur && spliced[i] != prev && (i < |spliced| - 1 ==> spliced[i] != last)
    ensures forall i :: 0 <= i < |before| ==> before[i] != cur && before[i] != last && (i < |before| - 1 ==> before[i] != prev)
    ensures last != cur && last != prev && cur != prev
  {
    assert last in spliced && (prev != null ==> prev in before);
    assert forall i :: 0 <= i < |after| ==> after[i] in after;
    assert forall i :: 0 <= i < |spliced| ==> spliced[i] in spliced;
    assert forall i :: 0 <= i < |before| ==> before[i] in before;
  }

  /** The parts of a list around one of its cells. */
  lemma ListAround(cells: seq<AsmNode>, at: nat)
    requires at < |cells| && Chain(cells, null) && NoDuplicates(cells)
    ensures var before, after := cells[..at], cells[at + 1..];
            && Chain(before, cells[at]) && cells[at].next == FirstOf(after, null) && Chain(after, null)
            && NoDuplicates(before) && NoDuplicates(after) && cells[at] !in before + after && (forall n :: n in before ==> n !in after)
  {
    ChainSplit(cells, at, null);
    ChainSplit(cells, at + 1, null);
    ChainNext(cells, null, at);
  }

  lemma Surrounded(before: seq<AsmNode>, spliced: seq<AsmNode>, after: seq<AsmNode>, cur: AsmNode)
    requires NoDuplicates(before) && NoDuplicates(spliced) && NoDuplicates(after)
    requires forall n :: n in spliced ==> n !in before && n !in after && n != cur
    requires cur !in before + after && (forall n :: n in before ==> n !in after)
    ensures cur !in before + spliced + after && NoDuplicates(before + (spliced + after))
  {
    NoDuplicatesJoin(spliced, after);
    NoDuplicatesJoin(before, spliced + after);
  }

  function RoundUp(n: nat, base: nat): nat
    requires base == 1 || base == 4 || base == 8 || base == 16
  {
    (n + base - 1) / base * base
  }

  /** It is the next multiple of the base. */
  lemma RoundedUp(n: nat, base: nat)
    requires base == 1 || base == 4 || base == 8 || base == 16
    ensures n <= RoundUp(n, base) < n + base && RoundUp(n, base) % base == 0
  {
    if base == 1 {
    } else if base == 4 {
      assert RoundUp(n, 4) == (n + 3) / 4 * 4;
    } else if base == 8 {
      assert RoundUp(n, 8) == (n + 7) / 8 * 8;
    } else {
      assert RoundUp(n, 16) == (n + 15) / 16 * 16;
    }
  }

  /** The instruction that makes room for the frame; its operand is left with the
      word type of an unset one. */
  function Reserve(bytes: nat): AsmOp {
    AsmOp(Arith(SubOp), Operand(Immediate(bytes), W8), Operand(Register(RSP), W64))
  }

  function Prologue(stackUsage: nat): seq<AsmOp> {
    if stackUsage == 0 then [] else [Reserve(RoundUp(stackUsage, 16))]
  }

  class AsmFunction {
    var ops: AsmNode?
    var stackUsage: nat
    ghost var cells: seq<AsmNode>
    ghost var code: seq<AsmOp>
    ghost var repr: set<AsmNode>

    ghost predicate Valid()
      reads this, cells, repr
    {
      |cells| == |code| && Inside(cells, repr) && Chain(cells, null) && NoDuplicates(cells) && Carry(cells, code) && ops == FirstOf(cells, null)
    }

    constructor ()
      ensures Valid() && code == [] && stackUsage == 0 && repr == {}
    {
      ops, stackUsage, cells, code, repr := null, 0, [], [], {};
    }

    /** Puts an instruction in front of the list. */
    method Prepend(op: AsmOp)
      requires Valid()
      modifies this
      ensures Valid() && code == [op] + old(code) && stackUsage == old(stackUsage)
      ensures fresh(repr - old(repr))
    {
      var node := new AsmNode(op);
      node.next := ops;
      NoDuplicatesJoin([node], cells);
      ChainJoin([node], cells, null);
      CarryJoin([node], cells, [op], code);
      hide Chain, NoDuplicates, Carry;
      ops, cells, code, repr := node, [node] + cells, [op] + code, repr + {node};
    }

    /** Walks to the last cell of a list and hangs another list behind it. */
    static method Concat(first: AsmNode, second: AsmNode?, ghost chain: seq<AsmNode>, ghost end: AsmNode)
      requires chain != [] && chain[0] == first && chain[|chain| - 1] == end && Chain(chain, null)
      modifies end`next
      ensures end.next == second
    {
      var last := first;
      ghost var i := 0;
      while last.next != null
        invariant 0 <= i < |chain| && last == chain[i] && Chain(chain, null)
        decreases |chain| - i
      {
        ChainNext(chain, null, i);
        last := last.next;
        i := i + 1;
      }
      ChainNext(chain, null, i);
      last.next := second;
    }

    /** New cells for the instructions that replace one. */
    static method Trampoline(made: seq<AsmOp>) returns (first: AsmNode, last: AsmNode, ghost spliced: seq<AsmNode>)
      requires 2 <= |made| <= 3
      ensures |spliced| == |made| && first == spliced[0] && last == spliced[|made| - 1]
      ensures Chain(spliced, null) && NoDuplicates(spliced) && Carry(spliced, made)
      ensures forall i :: 0 <= i < |spliced| ==> fresh(spliced[i])
    {
      first := new AsmNode(made[0]);
      last := new AsmNode(made[1]);
      Concat(first, last, [first], first);
      spliced := [first, last];
      if |made| == 3 {
        var third := new AsmNode(made[2]);
        Concat(last, third, [last], last);
        last, spliced := third, [first, last, third];
      }
    }

    /** Cuts `cur` out of the list and puts new cells in its place. */
    method Splice(prev: AsmNode?, cur: AsmNode, first: AsmNode, last: AsmNode,
                  ghost before: seq<AsmNode>, ghost spliced: seq<AsmNode>, ghost after: seq<AsmNode>, ghost edited: set<AsmNode>,
                  ghost x: seq<AsmOp>, ghost y: seq<AsmOp>, ghost z: seq<AsmOp>)
      returns (remainder: AsmNode?)
      requires Chain(before, cur) && cur.next == FirstOf(after, null) && Chain(after, null) && Chain(spliced, null)
      requires NoDuplicates(before) && NoDuplicates(spliced) && cur !in before + spliced + after && spliced != [] && spliced[0] == first
      requires spliced[|spliced| - 1] == last && (forall n :: n in spliced ==> n !in before && n !in after)
      requires forall n :: n in before ==> n !in after
      requires prev == (if before == [] then null else before[|before| - 1]) && ops == FirstOf(before, cur)
      requires Carry(before, x) && Carry(spliced, y) && Carry(after, z)
      requires edited == (if prev == null then {cur, last} else {cur, last, prev})
      modifies this`ops, edited`next
      ensures Chain(before + (spliced + after), null) && ops == FirstOf(before, first) && remainder == FirstOf(after, null)
      ensures Carry(before + (spliced + after), x + (y + z))
    {
      hide NoDuplicates;
      LinksApart(before, spliced, after, prev, cur, last);
      remainder := cur.next;
      cur.next := null;
      if prev != null {
        prev.next := null;
      }
      if prev == null {
        ops := first;
      } else {
        Concat(prev, first, [prev], prev);
      }
      Concat(last, remainder, [last], last);
      assert Chain(before, first) && Chain(spliced, remainder) && Chain(after, null);
      assert Carry(before, x) && Carry(spliced, y) && Carry(after, z);
      hide Chain, Carry;
      JoinThree(before, spliced, after, x, y, z);
    }

    /** Puts cells with other instructions in the place of `cur`. */
    method Exchange(made: seq<AsmOp>, prev: AsmNode?, cur: AsmNode, ghost at: nat) returns (last: AsmNode, newCur: AsmNode?)
      requires Valid() && at < |cells| && cells[at] == cur && prev == (if at == 0 then null else cells[at - 1])
      requires 2 <= |made| <= 3
      modifies this, repr
      ensures Valid() && stackUsage == old(stackUsage)
      ensures fresh(repr - old(repr))
      ensures code == old(code)[..at] + (made + old(code)[at + 1..])
      ensures var next := at + |made|;
              next <= |cells| && last == cells[next - 1] && newCur != cur && newCur == (if next < |cells| then cells[next] else null)
    {
      hide Chain, NoDuplicates, Carry, Inside, FirstOf;
      CarryAround(cells, code, at);
      FirstAround(cells, at);
      ghost var before, after := cells[..at], cells[at + 1..];
      ListAround(cells, at);
      InsideAround(cells, repr, at);
      var first;
      ghost var spliced;
      first, last, spliced := Trampoline(made);
      Surrounded(before, spliced, after, cur);
      InsideJoin(before, spliced, after, repr, repr + set n | n in spliced);
      ghost var edited := if prev == null then {cur, last} else {cur, last, prev};
      newCur := Splice(prev, cur, first, last, before, spliced, after, edited, code[..at], made, code[at + 1..]);
      repr := repr + set n | n in spliced;
      cells, code := before + (spliced + after), code[..at] + (made + code[at + 1..]);
      BehindSpliced(before, spliced, after);
    }

    /** Replaces the cell `cur` when its instruction needs the k-th fix; the next
        cell to look at comes behind the replacement. */
    method Apply(k: nat, prev: AsmNode?, cur: AsmNode, ghost at: nat) returns (newPrev: AsmNode?, newCur: AsmNode?)
      requires Valid() && at < |cells| && cells[at] == cur && prev == (if at == 0 then null else cells[at - 1])
      requires Fix(k, cur.op).Some? ==> 2 <= |Fix(k, cur.op).value| <= 3
      modifies this, repr
      ensures Valid() && stackUsage == old(stackUsage)
      ensures fresh(repr - old(repr))
      ensures code == Replaced(k, old(code), at)
      ensures Fix(k, old(code)[at]).None? ==> cells == old(cells) && newPrev == prev && newCur == cur
      ensures Fix(k, old(code)[at]).Some? ==>
                var n := |FixedOne(k, old(code)[at])|;
                newPrev == cells[at + n - 1] && newCur != cur && newCur == (if at + n < |cells| then cells[at + n] else null)
    {
      hide Fix, Chain, NoDuplicates, Carry, Inside, Replaced, FixedOne;
      CarryAround(cells, code, at);
      ReplacedBy(k, code, at);
      var made := Fix(k, cur.op);
      if made.None? {
        return prev, cur;
      }
      newPrev, newCur := Exchange(made.value, prev, cur, at);
    }

    /** Fixes a cell if it needs it and moves on behind it. */
    method Visit(k: nat, prev: AsmNode?, cur: AsmNode, ghost at: nat) returns (newPrev: AsmNode?, newCur: AsmNode?)
      requires Valid() && at < |cells| && cells[at] == cur && prev == (if at == 0 then null else cells[at - 1])
      requires Fix(k, cur.op).Some? ==> 2 <= |Fix(k, cur.op).value| <= 3
      modifies this, repr
      ensures Valid() && stackUsage == old(stackUsage) && fresh(repr - old(repr))
      ensures code == Replaced(k, old(code), at)
      ensures var next := at + |FixedOne(k, old(code)[at])|;
              && 0 < next <= |cells| && newPrev == cells[next - 1]
              && newCur == (if next < |cells| then cells[next] else null)
    {
      hide Fix, NoDuplicates, Inside;
      newPrev, newCur := Apply(k, prev, cur, at);
      if newCur == cur {
        ChainNext(cells, null, at);
        newPrev, newCur := cur, cur.next;
      }
    }

    /** One fixer on the whole list: every cell of the original list is looked at
        once, and no cell of a replacement. */
    method FixupFunction(k: nat)
      requires Valid()
      requires SizesFit(k, code)
      modifies this, repr
      ensures Valid() && code == Pass(k, old(code)) && stackUsage == old(stackUsage)
      ensures fresh(repr - old(repr))
    {
      hide Pass, Fix, Chain, NoDuplicates, Carry, Inside, FixedOne, SizesFit, Partly, Replaced;
      ghost var all := code;
      var prev: AsmNode?, cur: AsmNode? := null, ops;
      ghost var at, seen := 0, 0;
      PartlyEnds(k, all);
      while cur != null
        invariant Valid() && stackUsage == old(stackUsage) && fresh(repr - old(repr))
        invariant 0 <= seen <= |all| && 0 <= at && |cells| == at + |all| - seen && code == Partly(k, all, seen)
        invariant prev == (if at == 0 then null else cells[at - 1]) && cur == (if at < |cells| then cells[at] else null)
        decreases |all| - seen
      {
        PassStep(k, all, seen, at);
        CarryAround(cells, code, at);
        prev, cur := Visit(k, prev, cur, at);
        at, seen := at + |FixedOne(k, all[seen])|, seen + 1;
      }
    }

    /** The frame is reserved first, and then every fixer runs over the list. */
    method FixupInstructions()
      requires Valid() && AllExtendToMemory(code)
      modifies this, repr
      ensures Valid() && code == FixAll(Prologue(old(stackUsage)) + old(code))
    {
      hide Pass, Fix, Chain, NoDuplicates, Carry, Inside, FixAll, ExtendsToMemory, RoundUp, SizesFit;
      ghost var all := Prologue(stackUsage) + code;
      PrologueExtends(stackUsage, code);
      if stackUsage != 0 {
        Prepend(Reserve(RoundUp(stackUsage, 16)));
      }
      for k := 0 to FIXERS
        invariant Valid() && code == Before(k, all)
        invariant fresh(repr - old(repr))
      {
        SizesFitBefore(k, all);
        FixupFunction(k);
      }
      BeforeIsRest(FIXERS, all);
    }
  }

  ghost predicate AllExtendToMemory(code: seq<AsmOp>) {
    forall o :: o in code ==> ExtendsToMemory(o)
  }

  lemma PrologueExtends(stackUsage: nat, code: seq<AsmOp>)
    requires AllExtendToMemory(code)
    ensures AllExtendToMemory(Prologue(stackUsage) + code)
  {
  }

  lemma SizesFitBefore(k: nat, code: seq<AsmOp>)
    requires AllExtendToMemory(code)
    ensures SizesFit(k, Before(k, code))
  {
    ReplacementSizes(k, code);
  }

  /** The replacements of a list have two or three instructions. */
  ghost predicate SizesFit(k: nat, code: seq<AsmOp>) {
    forall o :: o in code && Fix(k, o).Some? ==> 2 <= |Fix(k, o).value| <= 3
  }

  /** The list with the fixed instruction at a place. */
  function Replaced(k: nat, code: seq<AsmOp>, at: nat): seq<AsmOp>
    requires at < |code|
  {
    code[..at] + FixedOne(k, code[at]) + code[at + 1..]
  }

  /** The last spliced cell and the one behind it. */
  lemma BehindSpliced(before: seq<AsmNode>, spliced: seq<AsmNode>, after: seq<AsmNode>)
    requires spliced != []
    ensures var cells, next := before + (spliced + after), |before| + |spliced|;
            && cells[next - 1] == spliced[|spliced| - 1] && |cells| == next + |after|
            && FirstOf(after, null) == (if next < |cells| then cells[next] else null)
            && FirstOf(cells, null) == FirstOf(before, spliced[0])
  {
  }

  lemma FirstAround(cells: seq<AsmNode>, at: nat)
    requires at < |cells|
    ensures FirstOf(cells, null) == FirstOf(cells[..at], cells[at])
  {
  }

  lemma ReplacedBy(k: nat, code: seq<AsmOp>, at: nat)
    requires at < |code|
    ensures Fix(k, code[at]).None? ==> Replaced(k, code, at) == code
    ensures Fix(k, code[at]).Some? ==> FixedOne(k, code[at]) == Fix(k, code[at]).value
    ensures Fix(k, code[at]).Some? ==> Replaced(k, code, at) == code[..at] + (Fix(k, code[at]).value + code[at + 1..])
  {
    assert code == code[..at] + [code[at]] + code[at + 1..];
  }

  /** The list when its first `seen` instructions have been fixed. */
  function Partly(k: nat, all: seq<AsmOp>, seen: nat): seq<AsmOp>
    requires seen <= |all|
  {
    Pass(k, all[..seen]) + all[seen..]
  }

  lemma PartlyEnds(k: nat, all: seq<AsmOp>)
    ensures Partly(k, all, 0) == all && Partly(k, all, |all|) == Pass(k, all)
  {
    assert all[..0] == [] && all[..|all|] == all;
  }

  /** One more instruction of a list that has been fixed up to `seen`. */
  lemma PassStep(k: nat, all: seq<AsmOp>, seen: nat, at: nat)
    requires seen < |all| && |Partly(k, all, seen)| == at + |all| - seen && SizesFit(k, all)
    ensures Partly(k, all, seen)[at] == all[seen] && Replaced(k, Partly(k, all, seen), at) == Partly(k, all, seen + 1)
    ensures |Partly(k, all, seen + 1)| == at + |FixedOne(k, all[seen])| + |all| - (seen + 1)
    ensures Fix(k, all[seen]).Some? ==> 2 <= |Fix(k, all[seen]).value| <= 3
  {
    hide Pass, Fix;
    assert all[..seen + 1] == all[..seen] + [all[seen]];
    PassJoin(k, all[..seen], [all[seen]]);
    OnePass(k, all[seen]);
    var done := Pass(k, all[..seen]);
    var now := done + all[seen..];
    assert now[..at] == done && now[at + 1..] == all[seen + 1..];
  }
}
