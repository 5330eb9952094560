/** Several code sections: compile joins their instructions before it cuts blocks, and a later
    block replaces an earlier one with its start. */
module Sections {
  import opened Words
  import opened Translate
  import opened Cfg
  import R = RiscV

  datatype CodeSection = CodeSection(vaddr: u64, data: seq<byte>)

  /** The instructions swept from a section. */
  predicate SweptFrom(part: seq<Inst>, sec: CodeSection, d: Decoders) {
    && Contiguous(part) && (part != [] ==> part[0].addr == sec.vaddr)
    && (forall k | 0 <= k < |part| :: DecodedAt(part[k], sec.vaddr, sec.data, d))
    && sec.vaddr <= EndOf(part, sec.vaddr) <= sec.vaddr + |sec.data|
    && Truncated(sec.data, EndOf(part, sec.vaddr) - sec.vaddr)
  }

  function Joined(parts: seq<seq<Inst>>): seq<Inst> {
    if parts == [] then [] else Joined(parts[..|parts| - 1]) + parts[|parts| - 1]
  }

  ghost predicate AllSwept(parts: seq<seq<Inst>>, sections: seq<CodeSection>, d: Decoders) {
    |parts| <= |sections| && forall k | 0 <= k < |parts| :: SweptFrom(parts[k], sections[k], d)
  }

  lemma {:induction false} SweptAppend(parts: seq<seq<Inst>>, part: seq<Inst>, sections: seq<CodeSection>, d: Decoders)
    requires AllSwept(parts, sections, d) && |parts| < |sections| && SweptFrom(part, sections[|parts|], d)
    ensures AllSwept(parts + [part], sections, d) && Joined(parts + [part]) == Joined(parts) + part
  {
    assert (parts + [part])[..|parts|] == parts;
  }

  /** The loop of compile over the sections. */
  method SweepAll(sections: seq<CodeSection>, d: Decoders) returns (insts: seq<Inst>, parts: seq<seq<Inst>>)
    requires forall k | 0 <= k < |sections| :: sections[k].vaddr + |sections[k].data| < TWO64
    ensures insts == Joined(parts) && |parts| == |sections| && AllSwept(parts, sections, d)
  {
    insts, parts := [], [];
    for n := 0 to |sections|
      invariant insts == Joined(parts) && |parts| == n && AllSwept(parts, sections, d)
    {
      var part := Disassemble(sections[n].vaddr, sections[n].data, d);
      SweptAppend(parts, part, sections, d);
      insts, parts := insts + part, parts + [part];
    }
  }

  /** The blocks of each section, cut on its own. */
  function CutAll(parts: seq<seq<Inst>>, bs: set<int>): seq<BasicBlock> {
    if parts == [] then [] else CutAll(parts[..|parts| - 1], bs) + Cut(parts[|parts| - 1], bs)
  }

  // ---- where blocks start ----

  /** The addresses on boundaries, in order. */
  function OnBounds(insts: seq<Inst>, bs: set<int>): seq<int> {
    if insts == [] then []
    else
      var n := |insts| - 1;
      OnBounds(insts[..n], bs) + if insts[n].addr in bs then [insts[n].addr] else []
  }

  /** Blocks start at them. */
  lemma {:induction false} CutStarts(insts: seq<Inst>, bs: set<int>)
    ensures |Cut(insts, bs)| == |OnBounds(insts, bs)|
    ensures forall n | 0 <= n < |Cut(insts, bs)| :: Cut(insts, bs)[n].start == OnBounds(insts, bs)[n]
    decreases |insts|
  {
    if insts != [] { CutStarts(insts[..|insts| - 1], bs); }
  }

  lemma {:induction false} OnBoundsAppend(a: seq<Inst>, b: seq<Inst>, bs: set<int>)
    ensures OnBounds(a + b, bs) == OnBounds(a, bs) + OnBounds(b, bs)
    decreases |b|
  {
    if b == [] {
      assert a + b == a;
    } else {
      var n := |b| - 1;
      OnBoundsAppend(a, b[..n], bs);
      assert (a + b)[..|a + b| - 1] == a + b[..n];
    }
  }

  lemma {:induction false} OnBoundsExact(insts: seq<Inst>, bs: set<int>, x: int)
    ensures x in OnBounds(insts, bs) <==> x in bs && exists q :: 0 <= q < |insts| && insts[q].addr == x
    decreases |insts|
  {
    if insts != [] {
      var n := |insts| - 1;
      var front := insts[..n];
      OnBoundsExact(front, bs, x);
      if q :| 0 <= q < n && insts[q].addr == x { assert front[q].addr == x; }
      if q :| 0 <= q < |front| && front[q].addr == x { assert insts[q].addr == x; }
      assert insts[n].addr == x ==> exists q :: 0 <= q < |insts| && insts[q].addr == x;
    }
  }

  /** Where the first boundary is. */
  function First(insts: seq<Inst>, bs: set<int>): (k: nat)
    ensures k <= |insts| && (k < |insts| ==> insts[k].addr in bs)
    ensures forall j | 0 <= j < k :: insts[j].addr !in bs
  {
    if insts == [] then 0
    else
      var k := First(insts[..|insts| - 1], bs);
      if k < |insts| - 1 || insts[k].addr in bs then k else k + 1
  }

  /** Cutting keeps the instructions from the first boundary on, in order. */
  lemma {:induction false} CutKeeps(insts: seq<Inst>, bs: set<int>)
    ensures Flat(Cut(insts, bs)) == insts[First(insts, bs)..]
    ensures Cut(insts, bs) == [] <==> First(insts, bs) == |insts|
    decreases |insts|
  {
    if insts != [] {
      var n := |insts| - 1;
      CutKeeps(insts[..n], bs);
      AddKeeps(Cut(insts[..n], bs), insts[n], bs);
      var k := First(insts, bs);
      if k <= n { assert insts[k..] == insts[..n][k..] + [insts[n]]; }
    }
  }

  lemma {:induction false} AddKeeps(list: seq<BasicBlock>, i: Inst, bs: set<int>)
    ensures Flat(AddInst(list, i, bs)) == Flat(list) + (if i.addr in bs || list != [] then [i] else [])
    ensures AddInst(list, i, bs) == [] <==> i.addr !in bs && list == []
  {
    var next := AddInst(list, i, bs);
    if i.addr in bs {
      assert next[..|next| - 1] == list;
    } else if list != [] {
      assert next[..|next| - 1] == list[..|list| - 1];
    }
  }

  /** A stream with its only boundary first and no terminator before its end is one block. */
  lemma {:induction false} CutStraight(code: seq<Inst>, bs: set<int>)
    requires code != [] && code[0].addr in bs && forall k | 0 < k < |code| :: code[k].addr !in bs
    requires forall k | 0 <= k < |code| - 1 :: !code[k].op.IsTerminator()
    ensures var last := code[|code| - 1];
            Cut(code, bs) == [BasicBlock(code[0].addr, last.NextAddr(), code,
                                         if last.op.IsTerminator() then ComputeSuccessors(last) else [])]
    decreases |code|
  {
    var n := |code| - 1;
    var front, i := code[..n], code[n];
    assert code == front + [i];
    CutLast(code, front, i, bs);
    if n > 0 { CutStraight(front, bs); }
  }

  lemma {:induction false} CutIs(code: seq<Inst>, bs: set<int>, b: BasicBlock)
    requires code != [] && code[0].addr in bs && forall k | 0 < k < |code| :: code[k].addr !in bs
    requires forall k | 0 <= k < |code| - 1 :: !code[k].op.IsTerminator()
    requires b.start == code[0].addr && b.end == code[|code| - 1].NextAddr() && b.instructions == code
    requires code[|code| - 1].op.IsTerminator() && b.successors == ComputeSuccessors(code[|code| - 1])
    ensures Cut(code, bs) == [b]
  {
    CutStraight(code, bs);
  }

  // ---- one stream after another ----

  /** The stream does not start on a boundary. */
  predicate Astray(b: seq<Inst>, bs: set<int>) { b != [] && b[0].addr !in bs }

  /** The blocks of a then those of b, with the last block of a longer if it was grown. */
  ghost predicate JoinOf(r: seq<BasicBlock>, a: seq<BasicBlock>, b: seq<BasicBlock>, grown: bool) {
    && |r| == |a| + |b| && (forall n | |a| <= n < |r| :: r[n] == b[n - |a|])
    && (forall n | 0 <= n < |a| :: r[n].start == a[n].start && (n < |a| - 1 || !grown ==> r[n] == a[n]))
    && (grown && a != [] ==> |r[|a| - 1].instructions| > |a[|a| - 1].instructions|)
  }

  lemma {:induction false} JoinStep(r: seq<BasicBlock>, a: seq<BasicBlock>, b: seq<BasicBlock>, grown: bool,
                                    i: Inst, bs: set<int>)
    requires JoinOf(r, a, b, grown)
    ensures JoinOf(AddInst(r, i, bs), a, AddInst(b, i, bs), grown || (b == [] && i.addr !in bs))
  {
  }

  /** A stream that starts on a boundary is cut as if it stood alone. One that does not loses its
      first instructions to the last block before it, and is otherwise cut as if it stood alone. */
  lemma {:induction false} JoinCut(a: seq<Inst>, b: seq<Inst>, bs: set<int>)
    ensures JoinOf(Cut(a + b, bs), Cut(a, bs), Cut(b, bs), Astray(b, bs))
    decreases |b|
  {
    if b == [] {
      assert a + b == a;
    } else {
      var n := |b| - 1;
      var front := b[..n];
      JoinCut(a, front, bs);
      assert a + b == a + front + [b[n]] && b == front + [b[n]];
      CutLast(a + b, a + front, b[n], bs);
      CutLast(b, front, b[n], bs);
      CutKeeps(front, bs);
      JoinStep(Cut(a + front, bs), Cut(a, bs), Cut(front, bs), Astray(front, bs), b[n], bs);
    }
  }

  lemma {:induction false} CutAppend(a: seq<Inst>, b: seq<Inst>, bs: set<int>)
    requires !Astray(b, bs)
    ensures Cut(a + b, bs) == Cut(a, bs) + Cut(b, bs)
  {
    JoinCut(a, b, bs);
  }

  // ---- the map of blocks ----

  /** No later block has the start of block n. */
  ghost predicate IsLast(list: seq<BasicBlock>, n: int) {
    0 <= n < |list| && forall m | n < m < |list| :: list[m].start != list[n].start
  }

  lemma {:induction false} IndexLast(list: seq<BasicBlock>, n: nat)
    requires IsLast(list, n)
    ensures list[n].start in Index(list) && Index(list)[list[n].start] == list[n]
    decreases |list|
  {
    if n < |list| - 1 {
      var front := list[..|list| - 1];
      assert IsLast(front, n);
      IndexLast(front, n);
    }
  }

  lemma {:induction false} LastWith(list: seq<BasicBlock>, a: int) returns (n: nat)
    requires a in Index(list)
    ensures IsLast(list, n) && list[n].start == a
    decreases |list|
  {
    var m := |list| - 1;
    if list[m].start == a { n := m; } else { n := LastWith(list[..m], a); }
  }

  /** create_blocks, given the blocks of its first loop in order. */
  ghost function MapOf(list: seq<BasicBlock>): map<int, BasicBlock> { Index(FallThrough(list)) }

  lemma {:induction false} MapDepends(list: seq<BasicBlock>, other: seq<BasicBlock>)
    requires Index(list) == Index(other)
    ensures MapOf(list) == MapOf(other)
  {
    IndexFallThrough(list, FallThrough(list), Index(list).Keys);
    IndexFallThrough(other, FallThrough(other), Index(other).Keys);
  }

  /** The code of block n, if it is the last with its start, is in the map. */
  lemma {:induction false} MapLast(list: seq<BasicBlock>, n: nat)
    requires IsLast(list, n)
    ensures list[n].start in MapOf(list) && MapOf(list)[list[n].start].instructions == list[n].instructions
  {
    var r := FallThrough(list);
    assert IsLast(r, n);
    IndexLast(r, n);
  }

  ghost predicate SameStarts(list: seq<BasicBlock>, other: seq<BasicBlock>) {
    |list| == |other| && forall n | 0 <= n < |list| :: list[n].start == other[n].start
  }

  /** Lists with the same starts give the same map if they agree on every block that is the last
      with its start. */
  lemma {:induction false} SameMap(list: seq<BasicBlock>, other: seq<BasicBlock>)
    requires SameStarts(list, other) && forall n | IsLast(list, n) :: list[n] == other[n]
    ensures MapOf(list) == MapOf(other)
  {
    forall a | a in Index(list) ensures a in Index(other) && Index(list)[a] == Index(other)[a] {
      var n := LastWith(list, a);
      assert IsLast(other, n);
      IndexLast(list, n);
      IndexLast(other, n);
    }
    forall a | a in Index(other) ensures a in Index(list) {
      var n := LastWith(other, a);
      assert list[n].start == a;
    }
    assert Index(list) == Index(other);
    MapDepends(list, other);
  }

  lemma {:induction false} OtherMap(list: seq<BasicBlock>, n: nat, other: seq<BasicBlock>, p: nat)
    requires IsLast(list, n) && IsLast(other, p) && list[n].start == other[p].start
    requires |list[n].instructions| != |other[p].instructions|
    ensures MapOf(list) != MapOf(other)
  {
    MapLast(list, n);
    MapLast(other, p);
  }

  // ---- any number of sections ----

  /** Section k does not start on a boundary, and a block is open before it. */
  ghost predicate Stray(parts: seq<seq<Inst>>, k: int, bs: set<int>) {
    0 <= k < |parts| && Astray(parts[k], bs) && OnBounds(Joined(parts[..k]), bs) != []
  }

  /** The number of the block that section k goes on with. */
  ghost function Open(parts: seq<seq<Inst>>, k: nat, bs: set<int>): int
    requires k <= |parts|
  {
    |OnBounds(Joined(parts[..k]), bs)| - 1
  }

  ghost predicate Touched(parts: seq<seq<Inst>>, n: int, bs: set<int>) {
    exists k :: Stray(parts, k, bs) && Open(parts, k, bs) == n
  }

  lemma {:induction false} TouchedLast(parts: seq<seq<Inst>>, n: int, bs: set<int>)
    requires parts != []
    ensures var m := |parts| - 1;
            Touched(parts, n, bs) <==> Touched(parts[..m], n, bs) || (Stray(parts, m, bs) && Open(parts, m, bs) == n)
  {
    var m := |parts| - 1;
    var front := parts[..m];
    forall k | 0 <= k < m
      ensures Stray(front, k, bs) <==> Stray(parts, k, bs)
      ensures Open(front, k, bs) == Open(parts, k, bs)
    {
      assert front[..k] == parts[..k];
    }
    if k :| Stray(front, k, bs) && Open(front, k, bs) == n { assert Stray(parts, k, bs) && Open(parts, k, bs) == n; }
    if k :| Stray(parts, k, bs) && Open(parts, k, bs) == n {
      if k < m { assert Stray(front, k, bs) && Open(front, k, bs) == n; }
    }
  }

  /** Block n of the joined sections is the one of its own section, or longer. */
  ghost predicate Grows(list: seq<BasicBlock>, own: seq<BasicBlock>, n: int, touched: bool)
    requires 0 <= n < |list| && n < |own|
  {
    if touched then |list[n].instructions| > |own[n].instructions| else list[n] == own[n]
  }

  lemma {:induction false} JoinGrows(list: seq<BasicBlock>, own: seq<BasicBlock>, b: seq<BasicBlock>,
                                     r: seq<BasicBlock>, grown: bool, n: nat, before: bool)
    requires SameStarts(list, own) && JoinOf(r, list, b, grown) && n < |r|
    requires n < |list| ==> Grows(list, own, n, before)
    requires n >= |list| ==> !before
    ensures |r| == |own + b| && r[n].start == (own + b)[n].start
    ensures Grows(r, own + b, n, before || (grown && n == |list| - 1))
  {
  }

  lemma {:induction false} NotYet(parts: seq<seq<Inst>>, n: nat, bs: set<int>)
    requires n >= |OnBounds(Joined(parts), bs)|
    ensures !Touched(parts, n, bs)
    decreases |parts|
  {
    if parts != [] {
      var m := |parts| - 1;
      OnBoundsAppend(Joined(parts[..m]), parts[m], bs);
      NotYet(parts[..m], n, bs);
      TouchedLast(parts, n, bs);
    }
  }

  /** The joined sections have the blocks of the single ones, and exactly the touched are longer. */
  lemma {:induction false} PartsGrow(parts: seq<seq<Inst>>, bs: set<int>)
    ensures var list, own := Cut(Joined(parts), bs), CutAll(parts, bs);
            SameStarts(list, own) && forall n | 0 <= n < |list| :: Grows(list, own, n, Touched(parts, n, bs))
    decreases |parts|
  {
    if parts != [] {
      var m := |parts| - 1;
      var front, part := parts[..m], parts[m];
      PartsGrow(front, bs);
      JoinCut(Joined(front), part, bs);
      CutStarts(Joined(front), bs);
      var list, own, b, r := Cut(Joined(front), bs), CutAll(front, bs), Cut(part, bs), Cut(Joined(parts), bs);
      var own': seq<BasicBlock> := own + b;
      forall n | 0 <= n < |r|
        ensures |r| == |own'| && r[n].start == own'[n].start && Grows(r, own', n, Touched(parts, n, bs))
      {
        if n >= |list| { NotYet(front, n, bs); }
        JoinGrows(list, own, b, r, Astray(part, bs), n, Touched(front, n, bs));
        TouchedLast(parts, n, bs);
      }
    }
  }

  /** The start of the block that section k goes on with is again the address of an instruction
      from there on. */
  ghost predicate Recurs(parts: seq<seq<Inst>>, k: int, bs: set<int>)
    requires Stray(parts, k, bs)
  {
    var x, rest := OnBounds(Joined(parts[..k]), bs)[Open(parts, k, bs)], Joined(parts[k..]);
    exists q :: 0 <= q < |rest| && rest[q].addr == x
  }

  lemma {:induction false} JoinedSplit(parts: seq<seq<Inst>>, k: nat)
    requires k <= |parts|
    ensures Joined(parts) == Joined(parts[..k]) + Joined(parts[k..])
    decreases |parts|
  {
    if k == |parts| {
      assert parts[..k] == parts;
    } else {
      var m := |parts| - 1;
      JoinedSplit(parts[..m], k);
      assert parts[..m][..k] == parts[..k] && parts[..m][k..] == parts[k..][..|parts[k..]| - 1];
    }
  }

  /** The block a stray section goes on with is replaced later if and only if its start recurs. */
  lemma {:induction false} ReplacedExact(parts: seq<seq<Inst>>, k: nat, bs: set<int>)
    requires Stray(parts, k, bs)
    ensures IsLast(Cut(Joined(parts), bs), Open(parts, k, bs)) <==> !Recurs(parts, k, bs)
  {
    var before, rest := Joined(parts[..k]), Joined(parts[k..]);
    var n, list := Open(parts, k, bs), Cut(Joined(parts), bs);
    var x := OnBounds(before, bs)[n];
    JoinedSplit(parts, k);
    OnBoundsAppend(before, rest, bs);
    CutStarts(Joined(parts), bs);
    OnBoundsExact(before, bs, x);
    OnBoundsExact(rest, bs, x);
    assert list[n].start == x;
    if x in OnBounds(rest, bs) {
      var q :| 0 <= q < |OnBounds(rest, bs)| && OnBounds(rest, bs)[q] == x;
      assert list[n + 1 + q].start == x;
    }
    if m :| n < m < |list| && list[m].start == x { assert OnBounds(rest, bs)[m - n - 1] == x; }
  }

  /** Every section either starts on a boundary, or goes on with a block that is replaced. */
  ghost predicate AllReplaced(parts: seq<seq<Inst>>, bs: set<int>) {
    forall k | Stray(parts, k, bs) :: Recurs(parts, k, bs)
  }

  /** create_blocks on the joined sections, overlapping or not, gives the blocks of each section,
      a later section's before an earlier one's, if and only if every section that does not
      start on a boundary goes on with a block whose start is the address of an instruction
      from there on. */
  lemma {:induction false} SectionsExact(parts: seq<seq<Inst>>, bs: set<int>)
    ensures Index(BlockList(Joined(parts), bs)) == MapOf(CutAll(parts, bs)) <==> AllReplaced(parts, bs)
  {
    var list, own := Cut(Joined(parts), bs), CutAll(parts, bs);
    PartsGrow(parts, bs);
    if AllReplaced(parts, bs) {
      forall n | IsLast(list, n) ensures list[n] == own[n] {
        assert Grows(list, own, n, Touched(parts, n, bs));
        if Touched(parts, n, bs) {
          var k :| Stray(parts, k, bs) && Open(parts, k, bs) == n;
          ReplacedExact(parts, k, bs);
        }
      }
      SameMap(list, own);
    } else {
      var k :| Stray(parts, k, bs) && !Recurs(parts, k, bs);
      var n := Open(parts, k, bs);
      ReplacedExact(parts, k, bs);
      assert Touched(parts, n, bs) && Grows(list, own, n, true) && IsLast(own, n);
      OtherMap(list, n, own, n);
    }
  }

  lemma {:induction false} MergeUpdate<K, V>(m: map<K, V>, n: map<K, V>, k: K, v: V)
    ensures (m + n)[k := v] == m + n[k := v]
  {
  }

  lemma {:induction false} IndexOne(list: seq<BasicBlock>, front: seq<BasicBlock>, b: BasicBlock)
    requires list == front + [b]
    ensures Index(list) == Index(front)[b.start := b]
  {
    assert list[..|list| - 1] == front;
  }

  lemma {:induction false} IndexAppend(list: seq<BasicBlock>, more: seq<BasicBlock>)
    ensures Index(list + more) == Index(list) + Index(more)
    decreases |more|
  {
    if more == [] {
      assert list + more == list && Index(more) == map[];
    } else {
      var n := |more| - 1;
      IndexAppend(list, more[..n]);
      IndexOne(more, more[..n], more[n]);
      IndexOne(list + more, list + more[..n], more[n]);
      MergeUpdate(Index(list), Index(more[..n]), more[n].start, more[n]);
    }
  }

  /** The blocks of one more section are added to the map and replace those with their starts. */
  lemma {:induction false} LaterWins(parts: seq<seq<Inst>>, part: seq<Inst>, bs: set<int>)
    ensures Index(CutAll(parts + [part], bs)) == Index(CutAll(parts, bs)) + Index(Cut(part, bs))
  {
    assert (parts + [part])[..|parts|] == parts;
    IndexAppend(CutAll(parts, bs), Cut(part, bs));
  }

  // ---- sections apart ----

  /** Every section that has instructions starts on a boundary. */
  predicate AllStart(parts: seq<seq<Inst>>, bs: set<int>) { forall k | 0 <= k < |parts| :: !Astray(parts[k], bs) }

  /** No two instructions have one address. */
  ghost predicate Apart(insts: seq<Inst>) { forall p, q | 0 <= p < q < |insts| :: insts[p].addr != insts[q].addr }

  lemma {:induction false} BlockBefore(parts: seq<seq<Inst>>, k: nat, entry: int, bs: set<int>)
    requires (forall a :: a in bs <==> IsBoundary(Joined(parts), entry, a)) && k < |parts| && Astray(parts[k], bs)
    ensures Stray(parts, k, bs)
  {
    var before := Joined(parts[..k]);
    JoinedSplit(parts, k);
    JoinedSplit(parts[k..], 1);
    assert parts[k..][..1] == [parts[k]] && [parts[k]][..0] == [] && Joined([parts[k]]) == [] + parts[k];
    assert Joined(parts)[0].addr in bs;
    if before != [] {
      assert before[0] == Joined(parts)[0];
      OnBoundsExact(before, bs, before[0].addr);
    }
  }

  lemma {:induction false} NeverRecurs(parts: seq<seq<Inst>>, k: nat, bs: set<int>)
    requires Apart(Joined(parts)) && Stray(parts, k, bs)
    ensures !Recurs(parts, k, bs)
  {
    var before, rest := Joined(parts[..k]), Joined(parts[k..]);
    var x := OnBounds(before, bs)[Open(parts, k, bs)];
    JoinedSplit(parts, k);
    OnBoundsExact(before, bs, x);
    var p :| 0 <= p < |before| && before[p].addr == x;
    forall q | 0 <= q < |rest| ensures rest[q].addr != x {
      assert Joined(parts)[p] == before[p] && Joined(parts)[|before| + q] == rest[q];
    }
  }

  /** For sections without a common address the map is that of their blocks, none of them lost,
      if and only if every section that has instructions starts on a boundary. */
  lemma {:induction false} ApartExact(parts: seq<seq<Inst>>, entry: int, bs: set<int>)
    requires (forall a :: a in bs <==> IsBoundary(Joined(parts), entry, a)) && Apart(Joined(parts))
    ensures Index(BlockList(Joined(parts), bs)) == MapOf(CutAll(parts, bs)) <==> AllStart(parts, bs)
    ensures var own := CutAll(parts, bs); forall b | b in own :: b.start in Index(own) && Index(own)[b.start] == b
  {
    SectionsExact(parts, bs);
    forall k | Stray(parts, k, bs) ensures !Recurs(parts, k, bs) { NeverRecurs(parts, k, bs); }
    forall k | 0 <= k < |parts| && Astray(parts[k], bs) ensures Stray(parts, k, bs) {
      BlockBefore(parts, k, entry, bs);
    }
    forall b | b in CutAll(parts, bs)
      ensures b.start in Index(CutAll(parts, bs)) && Index(CutAll(parts, bs))[b.start] == b
    {
      var n :| 0 <= n < |CutAll(parts, bs)| && CutAll(parts, bs)[n] == b;
      ApartLast(parts, bs, n);
      IndexLast(CutAll(parts, bs), n);
    }
  }

  lemma {:induction false} OnBoundsApart(insts: seq<Inst>, bs: set<int>)
    requires Apart(insts)
    ensures forall m, n | 0 <= m < n < |OnBounds(insts, bs)| :: OnBounds(insts, bs)[m] != OnBounds(insts, bs)[n]
    decreases |insts|
  {
    if insts != [] {
      var k := |insts| - 1;
      OnBoundsApart(insts[..k], bs);
      OnBoundsExact(insts[..k], bs, insts[k].addr);
    }
  }

  lemma {:induction false} ApartLast(parts: seq<seq<Inst>>, bs: set<int>, n: nat)
    requires Apart(Joined(parts)) && n < |CutAll(parts, bs)|
    ensures IsLast(CutAll(parts, bs), n)
  {
    PartsGrow(parts, bs);
    CutStarts(Joined(parts), bs);
    OnBoundsApart(Joined(parts), bs);
  }

  const ADD := R.Instruction(0x1000, 4, R.ADDI, Some(1), Some(1), None, Some(1))
  const RETURN := R.Instruction(0x2000, 2, R.C_JR, None, Some(1), None, None)

  /** An addition that ends a section at 0x1004 and a return that starts one at 0x2000 become
      one block. */
  lemma {:induction false} SectionsMerge(bs: set<int>)
    requires bs == {0x1000, 0x2002}
    ensures forall a :: a in bs <==> IsBoundary([ADD] + [RETURN], 0x1000, a)
    ensures Cut([ADD] + [RETURN], bs) == [BasicBlock(0x1000, 0x2002, [ADD, RETURN], [])]
  {
    var both := [ADD] + [RETURN];
    forall a ensures a in bs <==> IsBoundary(both, 0x1000, a) {
      if a == 0x2002 { assert Bounds(both[1], a); }
    }
    var first := BasicBlock(0x1000, 0x1004, [ADD], []);
    CutLast([ADD], [], ADD, bs);
    assert Cut([ADD], bs) == [] + [first];
    CutLast(both, [ADD], RETURN, bs);
    assert [first][..0] == [] && [ADD, RETURN] == both;
  }
}
