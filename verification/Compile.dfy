/** The whole compiler: from the bytes of a code section to block functions and a dispatch
    function. */
module Compile {
  import opened Words
  import opened Translate
  import opened Cfg
  import opened Optimize
  import opened Dispatch
  import opened DispatchLoop
  import F = Functions
  import S = Sections
  import O = Overlap

  /** The blocks of a graph in address order. */
  ghost predicate InOrder(list: seq<BasicBlock>, blocks: map<int, BasicBlock>) {
    && (forall j, k | 0 <= j < k < |list| :: list[j].start < list[k].start)
    && (forall k | 0 <= k < |list| :: list[k].start in blocks && blocks[list[k].start] == list[k])
    && (forall a | a in blocks :: exists k :: 0 <= k < |list| && list[k].start == a)
  }

  /** Iteration over the block map, which is ordered by address. */
  method InAddressOrder(blocks: map<int, BasicBlock>) returns (list: seq<BasicBlock>)
    requires forall a | a in blocks :: blocks[a].start == a
    ensures InOrder(list, blocks)
  {
    list := [];
    var todo: set<int> := blocks.Keys;
    while todo != {}
      invariant todo <= blocks.Keys && InOrder(list, map a | a in blocks && a !in todo :: blocks[a])
      invariant forall k, a | 0 <= k < |list| && a in todo :: list[k].start < a
    {
      ghost var least := F.Least(todo);
      var e :| e in todo && forall x | x in todo :: e <= x;
      OrderAppend(list, blocks, todo, e);
      list := list + [blocks[e]];
      todo := todo - {e};
    }
    assert (map a | a in blocks && a !in todo :: blocks[a]) == blocks;
  }

  lemma {:induction false} OrderAppend(list: seq<BasicBlock>, blocks: map<int, BasicBlock>, todo: set<int>, e: int)
    requires todo <= blocks.Keys && e in todo && (forall x | x in todo :: e <= x) && blocks[e].start == e
    requires InOrder(list, map a | a in blocks && a !in todo :: blocks[a])
    requires forall k, a | 0 <= k < |list| && a in todo :: list[k].start < a
    ensures InOrder(list + [blocks[e]], map a | a in blocks && a !in todo - {e} :: blocks[a])
  {
    var done := map a | a in blocks && a !in todo :: blocks[a];
    var done' := map a | a in blocks && a !in todo - {e} :: blocks[a];
    var list' := list + [blocks[e]];
    forall a | a in done' ensures exists k :: 0 <= k < |list'| && list'[k].start == a {
      if a == e {
        assert list'[|list|].start == a;
      } else {
        assert a in done;
        var k :| 0 <= k < |list| && list[k].start == a;
        assert list'[k].start == a;
      }
    }
  }

  lemma {:induction false} AtMostLast(list: seq<BasicBlock>, blocks: map<int, BasicBlock>, a: int)
    requires InOrder(list, blocks) && a in blocks
    ensures list != [] && a <= list[|list| - 1].start
  {
  }

  lemma {:induction false} SameLast(a: seq<BasicBlock>, b: seq<BasicBlock>, blocks: map<int, BasicBlock>)
    requires InOrder(a, blocks) && InOrder(b, blocks) && a != []
    ensures b != [] && b[|b| - 1] == a[|a| - 1]
  {
    AtMostLast(b, blocks, a[|a| - 1].start);
    AtMostLast(a, blocks, b[|b| - 1].start);
  }

  lemma {:induction false} SameEnds<T>(a: seq<T>, b: seq<T>)
    requires a != [] && b != [] && a[|a| - 1] == b[|b| - 1] && a[..|a| - 1] == b[..|b| - 1]
    ensures a == b
  {
    assert a == a[..|a| - 1] + [a[|a| - 1]] && b == b[..|b| - 1] + [b[|b| - 1]];
  }

  /** There is only one such order. */
  lemma {:induction false} OrderUnique(a: seq<BasicBlock>, b: seq<BasicBlock>, blocks: map<int, BasicBlock>)
    requires InOrder(a, blocks) && InOrder(b, blocks)
    ensures a == b
    decreases |a|
  {
    if a != [] {
      SameLast(a, b, blocks);
      OrderFront(a, blocks);
      OrderFront(b, blocks);
      OrderUnique(a[..|a| - 1], b[..|b| - 1], blocks - {a[|a| - 1].start});
      SameEnds(a, b);
    } else if b != [] {
      SameLast(b, a, blocks);
    }
  }

  lemma {:induction false} OrderFront(list: seq<BasicBlock>, blocks: map<int, BasicBlock>)
    requires InOrder(list, blocks) && list != []
    ensures InOrder(list[..|list| - 1], blocks - {list[|list| - 1].start})
  {
    var n := |list| - 1;
    forall a | a in blocks - {list[n].start} ensures exists k :: 0 <= k < n && list[..n][k].start == a {
      var k :| 0 <= k < |list| && list[k].start == a;
      assert list[..n][k].start == a;
    }
  }

  /** A block list with rising addresses is the order of its index. */
  lemma {:induction false} IndexInOrder(list: seq<BasicBlock>)
    requires forall j, k | 0 <= j < k < |list| :: list[j].start < list[k].start
    ensures InOrder(list, Index(list)) && forall a | a in Index(list) :: Index(list)[a].start == a
  {
    forall k | 0 <= k < |list| ensures list[k].start in Index(list) && Index(list)[list[k].start] == list[k] {
      IndexAt(list, k);
    }
    forall a | a in Index(list) ensures Index(list)[a].start == a {
      var k :| 0 <= k < |list| && list[k].start == a;
    }
  }

  /** The addresses known to the inline caches. */
  function Starts(list: seq<BasicBlock>): (r: seq<int>)
    ensures |r| == |list| && forall k | 0 <= k < |r| :: r[k] == list[k].start
  {
    seq(|list|, k requires 0 <= k < |list| => list[k].start)
  }

  /** The function of block k: guards and no comments from optimization level 2 on. */
  function FunctionCode(list: seq<BasicBlock>, k: nat, level: nat): Code
    requires k < |list|
  {
    if level >= 2 then Strip(BlockCode(list[k], Starts(list))) else BlockCode(list[k], [])
  }

  ghost predicate CodesOf(functions: seq<Code>, list: seq<BasicBlock>, icTargets: seq<int>) {
    |functions| <= |list| && forall k | 0 <= k < |functions| :: functions[k] == BlockCode(list[k], icTargets)
  }

  lemma {:induction false} AppendCode(functions: seq<Code>, list: seq<BasicBlock>, icTargets: seq<int>, f: Code)
    requires CodesOf(functions, list, icTargets) && |functions| < |list| && f == BlockCode(list[|functions|], icTargets)
    ensures CodesOf(functions + [f], list, icTargets)
  {
  }

  method TranslateBlocks(list: seq<BasicBlock>, icTargets: seq<int>) returns (functions: seq<Code>)
    ensures |functions| == |list| && CodesOf(functions, list, icTargets)
  {
    functions := [];
    for k := 0 to |list|
      invariant |functions| == k && CodesOf(functions, list, icTargets)
    {
      var f := TranslateBlock(list[k], icTargets);
      AppendCode(functions, list, icTargets, f);
      functions := functions + [f];
    }
  }

  method OptimizeAll(bodies: seq<Code>) returns (functions: seq<Code>)
    ensures |functions| == |bodies| && forall k | 0 <= k < |bodies| :: functions[k] == Strip(bodies[k])
  {
    functions := bodies;
    for k := 0 to |bodies|
      invariant |functions| == |bodies|
      invariant forall j | 0 <= j < |bodies| :: functions[j] == if j < k then Strip(bodies[j]) else bodies[j]
    {
      var f := OptimizeFunction(functions[k]);
      functions := functions[k := f];
    }
  }

  /** translate: one function per block, in address order. */
  method TranslateAll(blocks: map<int, BasicBlock>, level: nat) returns (list: seq<BasicBlock>, functions: seq<Code>)
    requires forall a | a in blocks :: blocks[a].start == a
    ensures InOrder(list, blocks) && |functions| == |list|
    ensures forall k | 0 <= k < |list| :: functions[k] == FunctionCode(list, k, level)
  {
    list := InAddressOrder(blocks);
    var icTargets := if level >= 2 then Starts(list) else [];
    functions := TranslateBlocks(list, icTargets);
    if level >= 2 { functions := OptimizeAll(functions); }
  }

  /** The table entries of a list of blocks. */
  function EntriesOf(list: seq<BasicBlock>): (es: Entries)
    requires |list| < TWO32
    ensures |es| == |list| && Numbered(es) && forall k | 0 <= k < |es| :: es[k].addr == list[k].start
  {
    seq(|list|, k requires 0 <= k < |list| => Entry(list[k].start, k))
  }

  /** A stream below 2^31 with the boundaries found in it. */
  ghost predicate Section(insts: seq<Inst>, entry: int, bs: set<int>) {
    BoundarySet(bs, insts, entry) && EndOf(insts, 0) < TWO31
  }

  lemma {:induction false} StartAtLeast(list: seq<BasicBlock>, k: nat)
    requires k < |list| && forall i, j | 0 <= i < j < |list| :: list[i].start < list[j].start
    ensures list[k].start >= k
    decreases k
  {
    if k > 0 { StartAtLeast(list, k - 1); }
  }

  /** Every instruction of a block is in the stream. */
  lemma {:induction false} InStream(list: seq<BasicBlock>, k: nat, p: nat) returns (j: nat)
    requires k < |list| && p < |list[k].instructions|
    ensures j < |Flat(list)| && Flat(list)[j] == list[k].instructions[p]
    ensures k == |list| - 1 ==> |Flat(list)| - j == |list[k].instructions| - p
    decreases |list|
  {
    var n := |list| - 1;
    if k == n {
      j := |Flat(list[..n])| + p;
    } else {
      j := InStream(list[..n], k, p);
    }
  }

  /** The blocks of a section: a partition of it, few enough and low enough to dispatch on. */
  lemma {:induction false} SectionBlocks(insts: seq<Inst>, entry: int, bs: set<int>)
    requires Section(insts, entry, bs)
    ensures var list := BlockList(insts, bs);
            Partition(list, insts, bs) && |list| < TWO32 && Sorted(EntriesOf(list))
  {
    BoundaryBounds(insts, entry, bs);
    BlocksPartition(insts, bs);
    var list := BlockList(insts, bs);
    forall k | 0 <= k < |list| ensures list[k].start < TWO31 {
      assert IsBlock(list[k], bs);
      var j := InStream(list, k, 0);
      Rising(insts, j, |insts| - 1);
    }
    if list != [] { StartAtLeast(list, |list| - 1); }
  }

  /** compile, for one code section: the block functions in address order and the body of the
      dispatch loop. */
  method CompileSection(vaddr: u64, data: seq<byte>, d: Decoders, entry: u64, level: nat)
    returns (insts: seq<Inst>, bs: set<int>, functions: seq<Code>, dispatch: Code)
    requires vaddr + |data| < TWO31
    ensures Contiguous(insts) && forall k | 0 <= k < |insts| :: DecodedAt(insts[k], vaddr, data, d)
    ensures vaddr <= EndOf(insts, vaddr) <= vaddr + |data| && Truncated(data, EndOf(insts, vaddr) - vaddr)
    ensures Section(insts, entry, bs) && |BlockList(insts, bs)| < TWO32
    ensures |functions| == |BlockList(insts, bs)|
    ensures forall k | 0 <= k < |functions| :: functions[k] == FunctionCode(BlockList(insts, bs), k, level)
    ensures Sorted(EntriesOf(BlockList(insts, bs))) && dispatch == DispatchBody(EntriesOf(BlockList(insts, bs)))
  {
    insts := Disassemble(vaddr, data, d);
    bs := FindBlockBoundaries(insts, entry);
    var blocks := CreateBlocks(insts, bs);
    SectionBlocks(insts, entry, bs);
    IndexInOrder(BlockList(insts, bs));
    var list;
    list, functions := TranslateAll(blocks, level);
    OrderUnique(list, BlockList(insts, bs), blocks);
    dispatch := BuildDispatch(EntriesOf(list));
  }

  // ---- all sections ----

  lemma {:induction false} SweptBelow(parts: seq<seq<Inst>>, sections: seq<S.CodeSection>, d: Decoders)
    requires S.AllSwept(parts, sections, d)
    requires forall k | 0 <= k < |sections| :: sections[k].vaddr + |sections[k].data| < TWO31
    ensures forall q | 0 <= q < |S.Joined(parts)| :: S.Joined(parts)[q].addr < TWO31
    decreases |parts|
  {
    if parts != [] {
      var n := |parts| - 1;
      var front := parts[..n];
      assert forall k | 0 <= k < n :: front[k] == parts[k];
      SweptBelow(front, sections, d);
      assert forall q | 0 <= q < |parts[n]| :: DecodedAt(parts[n][q], sections[n].vaddr, sections[n].data, d);
    }
  }

  /** A block of the map is found under its start, the address of an instruction. */
  lemma {:induction false} KeyIs(insts: seq<Inst>, bs: set<int>, a: int) returns (q: nat)
    requires a in Index(BlockList(insts, bs))
    ensures Index(BlockList(insts, bs))[a].start == a && q < |insts| && insts[q].addr == a
  {
    var list := BlockList(insts, bs);
    var n := S.LastWith(list, a);
    S.IndexLast(list, n);
    assert Cut(insts, bs)[n].start == a;
    q := O.StartIs(insts, bs, n);
  }

  lemma {:induction false} MapBelow(insts: seq<Inst>, bs: set<int>, m: map<int, BasicBlock>)
    requires (forall q | 0 <= q < |insts| :: insts[q].addr < TWO31) && m == Index(BlockList(insts, bs))
    ensures forall a | a in m :: m[a].start == a && 0 <= a < TWO31
  {
    forall a | a in m ensures m[a].start == a && 0 <= a < TWO31 {
      var q := KeyIs(insts, bs, a);
    }
  }

  /** Blocks in address order below 2^31 can be dispatched on. */
  lemma {:induction false} OrderedEntries(list: seq<BasicBlock>, blocks: map<int, BasicBlock>)
    requires InOrder(list, blocks) && forall a | a in blocks :: 0 <= a < TWO31
    ensures |list| < TWO32 && Sorted(EntriesOf(list))
  {
    if list != [] {
      assert list[0].start in blocks;
      StartAtLeast(list, |list| - 1);
    }
  }

  /** compile: the instructions of all sections, their boundaries, one function per block in
      address order, and the body of the dispatch loop. */
  method CompileSections(sections: seq<S.CodeSection>, d: Decoders, entry: u64, level: nat)
    returns (parts: seq<seq<Inst>>, bs: set<int>, list: seq<BasicBlock>, functions: seq<Code>, dispatch: Code)
    requires forall k | 0 <= k < |sections| :: sections[k].vaddr + |sections[k].data| < TWO31
    ensures |parts| == |sections| && S.AllSwept(parts, sections, d)
    ensures forall a :: a in bs <==> IsBoundary(S.Joined(parts), entry, a)
    ensures InOrder(list, Index(BlockList(S.Joined(parts), bs))) && |list| < TWO32 && Sorted(EntriesOf(list))
    ensures |functions| == |list| && forall k | 0 <= k < |list| :: functions[k] == FunctionCode(list, k, level)
    ensures dispatch == DispatchBody(EntriesOf(list))
  {
    var insts;
    insts, parts := S.SweepAll(sections, d);
    bs := FindBlockBoundaries(insts, entry);
    var blocks := CreateBlocks(insts, bs);
    SweptBelow(parts, sections, d);
    MapBelow(insts, bs, blocks);
    list, functions := TranslateAll(blocks, level);
    OrderedEntries(list, blocks);
    dispatch := BuildDispatch(EntriesOf(list));
  }

  lemma {:induction false} SameOrder(list: seq<BasicBlock>, m: map<int, BasicBlock>, n: map<int, BasicBlock>)
    requires InOrder(list, m) && InOrder(list, n)
    ensures m == n
  {
    forall a | a in m ensures a in n && m[a] == n[a] {
      var k :| 0 <= k < |list| && list[k].start == a;
    }
    forall a | a in n ensures a in m {
      var k :| 0 <= k < |list| && list[k].start == a;
    }
  }

  /** From a segment and a section that is a slice of it, compile makes the blocks of the segment
      alone if and only if the section keeps them. */
  lemma {:induction false} SegmentWithText(seg: seq<Inst>, i: nat, j: nat, entry: int, bs: set<int>,
                                           list: seq<BasicBlock>)
    requires Section(seg, entry, bs) && i < j <= |seg| && InOrder(list, Index(BlockList(seg + seg[i..j], bs)))
    ensures list == BlockList(seg, bs) <==> O.TextKeeps(seg, i, j, bs)
  {
    var own := BlockList(seg, bs);
    SectionBlocks(seg, entry, bs);
    IndexInOrder(own);
    BoundaryBounds(seg, entry, bs);
    O.TextExact(seg, i, j, bs);
    if O.TextKeeps(seg, i, j, bs) {
      OrderUnique(list, own, Index(own));
    } else if list == own {
      SameOrder(list, Index(own), Index(BlockList(seg + seg[i..j], bs)));
    }
  }

  /** The sections of a segment and of a `.text` inside it that starts at an instruction: the
      second stream is a slice of the first, and the boundaries are those of the segment. */
  lemma {:induction false} TwoSections(seg: S.CodeSection, text: S.CodeSection, parts: seq<seq<Inst>>, d: Decoders,
                                       entry: int, bs: set<int>, i: nat)
    requires |parts| == 2 && S.SweptFrom(parts[0], seg, d) && S.SweptFrom(parts[1], text, d) && O.Inside(text, seg)
    requires i < |parts[0]| && text.vaddr == parts[0][i].addr && parts[1] != [] && seg.vaddr + |seg.data| < TWO31
    requires forall a :: a in bs <==> IsBoundary(S.Joined(parts), entry, a)
    ensures var j := i + |parts[1]|;
            j <= |parts[0]| && S.Joined(parts) == parts[0] + parts[0][i..j] && Section(parts[0], entry, bs)
  {
    O.TextIsSlice(parts[1], parts[0], text, seg, d, i);
    O.SweptEnd(parts[0], seg, d);
    SliceTwo(parts, i, i + |parts[1]|, entry, bs);
  }

  lemma {:induction false} SliceTwo(parts: seq<seq<Inst>>, i: nat, j: nat, entry: int, bs: set<int>)
    requires |parts| == 2 && i < j <= |parts[0]| && parts[1] == parts[0][i..j]
    requires Contiguous(parts[0]) && EndOf(parts[0], 0) < TWO31
    requires forall a :: a in bs <==> IsBoundary(S.Joined(parts), entry, a)
    ensures S.Joined(parts) == parts[0] + parts[0][i..j] && Section(parts[0], entry, bs)
  {
    JoinedTwo(parts);
    SliceSection(parts[0], i, j, entry, bs);
  }

  lemma {:induction false} JoinedTwo(parts: seq<seq<Inst>>)
    requires |parts| == 2
    ensures S.Joined(parts) == parts[0] + parts[1]
  {
    var one := [parts[0]];
    assert parts[..1] == one && one[..0] == [] && S.Joined(one) == [] + parts[0];
  }

  lemma {:induction false} SliceSection(seg: seq<Inst>, i: nat, j: nat, entry: int, bs: set<int>)
    requires Contiguous(seg) && EndOf(seg, 0) < TWO31 && i < j <= |seg|
    requires forall a :: a in bs <==> IsBoundary(seg + seg[i..j], entry, a)
    ensures Section(seg, entry, bs)
  {
    forall a ensures a in bs <==> IsBoundary(seg, entry, a) {
      O.SliceBoundaries(seg, i, j, entry, a);
      assert a in bs <==> IsBoundary(seg + seg[i..j], entry, a);
    }
  }
}
