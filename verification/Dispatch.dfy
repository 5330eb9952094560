/** The dispatch loop: from a pc to the block function that starts there. */
module Dispatch {
  import opened Words
  import opened Wasm
  import opened Translate

  /** A block address and its index in the function table. */
  datatype Entry = Entry(addr: u64, idx: u32)

  type Entries = seq<Entry>

  /** In the order of the address map, all below 2^31. */
  predicate Sorted(es: Entries) {
    && (forall k | 0 <= k < |es| :: es[k].addr < TWO31)
    && (forall j, k | 0 <= j < k < |es| :: es[j].addr < es[k].addr)
  }

  // ---- alignment ----

  function Gcd(a: nat, b: nat): (g: nat)
    decreases b
  {
    if b == 0 then a else Gcd(b, a % b)
  }

  predicate Divides(d: nat, a: int) { if d == 0 then a == 0 else a % d == 0 }

  lemma {:induction false} DivSum(d: nat, a: int, b: int, k: int)
    requires d > 0 && Divides(d, a) && Divides(d, b)
    ensures Divides(d, a + k * b)
  {
    var p, q := a / d, b / d;
    assert a == d * p && b == d * q;
    assert k * (d * q) == d * (k * q);
    assert a + k * b == d * (p + k * q);
    DivModUnique(a + k * b, d, p + k * q, 0);
  }

  /** The greatest common divisor: it divides both, and every common divisor divides it. */
  lemma {:induction false} GcdSpec(a: nat, b: nat)
    ensures a > 0 || b > 0 ==> Gcd(a, b) > 0 && Divides(Gcd(a, b), a) && Divides(Gcd(a, b), b)
    ensures forall d: nat | d > 0 && Divides(d, a) && Divides(d, b) :: Divides(d, Gcd(a, b))
    decreases b
  {
    if b > 0 {
      var g := Gcd(b, a % b);
      GcdSpec(b, a % b);
      assert a % b == a + (-(a / b)) * b;
      assert a == a % b + (a / b) * b;
      DivSum(g, a % b, b, a / b);
      forall d: nat | d > 0 && Divides(d, a) && Divides(d, b) ensures Divides(d, g) {
        DivSum(d, a, b, -(a / b));
      }
    } else {
      assert a > 0 ==> a == a * 1 + 0;
      if a > 0 { DivModUnique(a, a, 1, 0); DivModUnique(0, a, 0, 0); }
    }
  }

  /** Divides every offset from the first address. */
  predicate Aligned(es: Entries, g: nat)
    requires es != []
  {
    forall k | 0 <= k < |es| :: Divides(g, es[k].addr - es[0].addr)
  }

  lemma {:induction false} GcdBound(g: nat, off: nat)
    requires off > 0
    ensures 0 < Gcd(g, off) <= off
  {
    GcdSpec(g, off);
    DivBound(Gcd(g, off), off);
  }

  /** The GCD of the first k offsets. */
  function OffsetsGcd(es: Entries, k: nat): (g: nat)
    requires Sorted(es) && 1 <= k <= |es|
    ensures k > 1 ==> 0 < g < TWO31
  {
    if k == 1 then 0
    else
      var off: int := es[k - 1].addr - es[0].addr;
      GcdBound(OffsetsGcd(es, k - 1), off);
      Gcd(OffsetsGcd(es, k - 1), off)
  }

  /** The alignment the dispatch uses. */
  function Alignment(es: Entries): (g: nat)
    requires Sorted(es)
    ensures 0 < g < TWO31
  {
    if |es| <= 1 then 2 else OffsetsGcd(es, |es|)
  }

  /** compute_addr_alignment: the greatest divisor of the offsets, for two or more addresses. */
  method ComputeAddrAlignment(es: Entries) returns (g: nat)
    requires Sorted(es)
    ensures g == Alignment(es) && (|es| <= 1 ==> g == 2)
    ensures |es| > 1 ==> 0 < g <= es[1].addr - es[0].addr && Aligned(es, g)
    ensures |es| > 1 ==> forall d: nat | d > 0 && Aligned(es, d) :: Divides(d, g)
  {
    if |es| <= 1 { return 2; }
    g := 0;
    for k := 1 to |es|
      invariant g == OffsetsGcd(es, k)
      invariant k > 1 ==> 0 < g <= es[1].addr - es[0].addr
      invariant forall j | 0 <= j < k :: Divides(g, es[j].addr - es[0].addr)
      invariant forall d: nat | d > 0 && Aligned(es, d) :: Divides(d, g)
    {
      var off: int := es[k].addr - es[0].addr;
      var h := Gcd(g, off);
      GcdSpec(g, off);
      forall j | 0 <= j < k ensures Divides(h, es[j].addr - es[0].addr) {
        DivTrans(h, g, es[j].addr - es[0].addr);
      }
      DivBound(h, if k == 1 then off else g);
      g := h;
    }
  }

  /** The alignment divides every offset. */
  lemma {:induction false} AlignmentAligned(es: Entries)
    requires es != [] && Sorted(es)
    ensures Aligned(es, Alignment(es))
  {
    if |es| > 1 {
      forall j | 0 <= j < |es| ensures Divides(Alignment(es), es[j].addr - es[0].addr) { OffsetDivided(es, |es|, j); }
    }
  }

  lemma {:induction false} OffsetDivided(es: Entries, k: nat, j: nat)
    requires Sorted(es) && j < k <= |es| && k > 1
    ensures Divides(OffsetsGcd(es, k), es[j].addr - es[0].addr)
    decreases k
  {
    var g, off: int := OffsetsGcd(es, k - 1), es[k - 1].addr - es[0].addr;
    GcdSpec(g, off);
    if j < k - 1 {
      if k > 2 { OffsetDivided(es, k - 1, j); }
      DivTrans(Gcd(g, off), g, es[j].addr - es[0].addr);
    }
  }

  lemma {:induction false} DivTrans(h: nat, g: nat, a: int)
    requires h > 0 && (g == 0 || Divides(h, g)) && Divides(g, a)
    ensures Divides(h, a)
  {
    if g == 0 {
      DivModUnique(0, h, 0, 0);
    } else {
      DivModUnique(0, h, 0, 0);
      DivSum(h, 0, g, a / g);
      assert a == (a / g) * g;
    }
  }

  lemma {:induction false} DivBound(h: nat, a: nat)
    requires h > 0 && a > 0 && Divides(h, a)
    ensures h <= a
  {
    if a < h { DivModUnique(a, h, 0, a); }
  }

  // ---- emitted code ----

  function TrailingZeros(a: nat): (z: nat)
    requires a > 0
    ensures Pow2(z) <= a && z < a
  {
    if a % 2 == 1 then 0 else 1 + TrailingZeros(a / 2)
  }

  predicate IsPowerOfTwo(a: nat)
    requires a > 0
  {
    a == Pow2(TrailingZeros(a))
  }

  /** The operation that divides the index by the alignment: a shift where that is
      possible, a division, or none for alignment 1. */
  function DivOp(align: nat): Option<(u32, Bin)>
    requires 0 < align < TWO31
  {
    var z := TrailingZeros(align);
    if IsPowerOfTwo(align) && z > 0 then Some((z, ShrU))
    else if align > 1 then Some((align, DivU))
    else None
  }

  function DivCode(align: nat): Code
    requires 0 < align < TWO31
  {
    match DivOp(align) case None => [] case Some((c, op)) => [I32Const(c), I32Bin(op)]
  }

  /** The position of an address. */
  function CaseOf(es: Entries, addr: int): (r: Option<nat>)
    ensures r.Some? ==> r.value < |es| && es[r.value].addr == addr
    ensures r.None? ==> forall k | 0 <= k < |es| :: es[k].addr != addr
  {
    if es == [] then None
    else if es[|es| - 1].addr == addr then Some(|es| - 1)
    else CaseOf(es[..|es| - 1], addr)
  }

  /** Branch depth for table slot i: 0 is the default handler, j + 1 is case j. */
  function TargetAt(es: Entries, base: int, align: nat, i: nat): nat {
    match CaseOf(es, base + Times(align, i)) case Some(j) => j + 1 case None => 0
  }

  function Targets(es: Entries, base: int, align: nat, size: nat): (r: seq<nat>)
    ensures |r| == size && forall i: nat | i < size :: r[i] == TargetAt(es, base, align, i)
  {
    seq(size, i requires 0 <= i => TargetAt(es, base, align, i))
  }

  function Blocks(n: nat): Code { if n == 0 then [] else [Block] + Blocks(n - 1) }

  const HALT: u32 := 0xFFFF_FFFF

  /** Call block function `idx` and keep its result as the pc. */
  function CallCode(idx: u32): Code { [LocalGet(0), I32Const(idx), CallIndirect, LocalSet(2)] }

  /** The case handlers; a handler with d cases after it leaves by `br d`. */
  function Cases(es: Entries): Code {
    if es == [] then [] else [End] + CallCode(es[0].idx) + [Br(|es| - 1)] + Cases(es[1..])
  }

  function IndexCode(base: u64, align: nat): Code
    requires 0 < align < TWO31
  {
    [LocalGet(2), I32Const(Wrap32(base)), I32Bin(Sub)] + DivCode(align)
  }

  function BrTableCode(es: Entries, align: nat, size: nat): Code
    requires es != [] && 0 < align < TWO31
  {
    Blocks(|es| + 2) + IndexCode(es[0].addr, align) + [BrTable(Targets(es, es[0].addr, align, size), 0)]
    + [End, I32Const(HALT), LocalSet(2), Br(|es|)] + Cases(es) + [End]
  }

  function IfElseCases(es: Entries): Code {
    if es == [] then []
    else [LocalGet(2), I32Const(Wrap32(es[0].addr)), I32Rel(Eq), If] + CallCode(es[0].idx) + [Br(1), End]
         + IfElseCases(es[1..])
  }

  function IfElseCode(es: Entries): Code { IfElseCases(es) + [I32Const(HALT), LocalSet(2)] }

  /** Slots of the branch table. */
  function TableSize(es: Entries, align: nat): nat
    requires es != [] && align > 0 && Sorted(es)
  {
    Quot(es[|es| - 1].addr - es[0].addr, align) + 1
  }

  // ---- emitters ----

  /** The loops of emit_br_table_dispatch: block nesting, table targets, case handlers. */
  method EmitBlocks(n: nat) returns (code: Code)
    ensures code == Blocks(n)
  {
    code := [];
    for k := 0 to n
      invariant code + Blocks(n - k) == Blocks(n)
    {
      assert code + Blocks(n - k) == code + [Block] + Blocks(n - (k + 1));
      code := code + [Block];
    }
  }

  method BuildTargets(es: Entries, base: int, align: nat, size: nat) returns (targets: seq<nat>)
    ensures targets == Targets(es, base, align, size)
  {
    targets := [];
    for i := 0 to size
      invariant |targets| == i && forall k: nat | k < i :: targets[k] == TargetAt(es, base, align, k)
    {
      targets := targets + [TargetAt(es, base, align, i)];
    }
  }

  method EmitCases(es: Entries) returns (code: Code)
    ensures code == Cases(es)
  {
    var n := |es|;
    code := [];
    for c := 0 to n
      invariant code + Cases(es[c..]) == Cases(es)
    {
      ghost var before := code;
      var handler := [End] + CallCode(es[c].idx) + [Br(n - 1 - c)];
      assert es[c..][1..] == es[c + 1..];
      assert Cases(es[c..]) == handler + Cases(es[c + 1..]);
      code := code + handler;
      assert before + (handler + Cases(es[c + 1..])) == code + Cases(es[c + 1..]);
    }
  }

  method EmitBrTableDispatch(es: Entries, align: nat, size: nat) returns (code: Code)
    requires es != [] && 0 < align < TWO31
    ensures code == BrTableCode(es, align, size)
  {
    code := EmitBlocks(|es| + 2);
    var targets := BuildTargets(es, es[0].addr, align, size);
    code := code + IndexCode(es[0].addr, align) + [BrTable(targets, 0)];
    code := code + [End, I32Const(HALT), LocalSet(2), Br(|es|)];
    var handlers := EmitCases(es);
    code := code + handlers + [End];
  }

  /** emit_if_else_dispatch. */
  method EmitIfElseDispatch(es: Entries) returns (code: Code)
    ensures code == IfElseCode(es)
  {
    code := [];
    for c := 0 to |es|
      invariant code + IfElseCases(es[c..]) == IfElseCases(es)
    {
      ghost var before := code;
      var one := [LocalGet(2), I32Const(Wrap32(es[c].addr)), I32Rel(Eq), If] + CallCode(es[c].idx) + [Br(1), End];
      assert es[c..][1..] == es[c + 1..];
      assert IfElseCases(es[c..]) == one + IfElseCases(es[c + 1..]);
      code := code + one;
      assert before + (one + IfElseCases(es[c + 1..])) == code + IfElseCases(es[c + 1..]);
    }
    code := code + [I32Const(HALT), LocalSet(2)];
  }

  const TABLE_LIMIT := 65536

  /** A branch table when it is small enough, else a chain of tests. */
  function SparseCode(es: Entries): Code
    requires es != [] && Sorted(es)
  {
    var size := TableSize(es, Alignment(es));
    if size <= TABLE_LIMIT then BrTableCode(es, Alignment(es), size) else IfElseCode(es)
  }

  /** A branch table if and only if its slots, one per step of the alignment from the first address
      to the last, are at most 65536. */
  lemma {:induction false} SparseExact(es: Entries, slots: nat)
    requires es != [] && Sorted(es) && slots == (es[|es| - 1].addr - es[0].addr) / Alignment(es) + 1
    ensures SparseCode(es) == if slots <= 65536 then BrTableCode(es, Alignment(es), slots) else IfElseCode(es)
    ensures |es| == 1 ==> Alignment(es) == 2
  {
    Slots(es, Alignment(es));
  }

  lemma {:induction false} Slots(es: Entries, align: nat)
    requires es != [] && Sorted(es) && align > 0
    ensures TableSize(es, align) == (es[|es| - 1].addr - es[0].addr) / align + 1
  {
    QuotIsQuotient(es[|es| - 1].addr - es[0].addr, align);
  }

  lemma {:induction false} ZerosOfPower(z: nat)
    ensures TrailingZeros(Pow2(z)) == z
  {
    if z > 0 { ZerosOfPower(z - 1); }
  }

  /** The index is shifted if and only if the alignment is a power of two other than 1, by its
      exponent. */
  lemma {:induction false} ShiftsExactly(align: nat, z: nat)
    requires 0 < align < TWO31 && z < 31
    ensures DivOp(align) == Some((z, ShrU)) <==> z > 0 && align == Pow2(z)
  {
    ZerosOfPower(z);
  }

  /** emit_sparse_dispatch. */
  method EmitSparseDispatch(es: Entries) returns (code: Code)
    requires Sorted(es)
    ensures es == [] ==> code == [I32Const(HALT), LocalSet(2)]
    ensures es != [] ==> code == SparseCode(es)
  {
    if es == [] { return [I32Const(HALT), LocalSet(2)]; }
    var g := ComputeAddrAlignment(es);
    var size := TableSize(es, g);
    if size <= TABLE_LIMIT {
      code := EmitBrTableDispatch(es, g, size);
    } else {
      code := EmitIfElseDispatch(es);
    }
  }
}
