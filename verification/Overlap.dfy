/** A segment and a `.text` section inside it: the usual way two code sections overlap. */
module Overlap {
  import opened Words
  import opened Translate
  import opened Cfg
  import opened Sections
  import R = RiscV

  // ---- the sweep of a part ----

  /** The bytes of the section are those of the segment at its addresses. */
  predicate Inside(text: CodeSection, seg: CodeSection) {
    && seg.vaddr <= text.vaddr && text.vaddr + |text.data| <= seg.vaddr + |seg.data|
    && text.data == seg.data[text.vaddr - seg.vaddr..text.vaddr - seg.vaddr + |text.data|]
  }

  lemma {:induction false} SameShort(t: seq<byte>, s: seq<byte>, p: nat, q: nat)
    requires p <= q && p + 2 <= |t| && |t| + (q - p) <= |s| && t == s[q - p..q - p + |t|]
    ensures ShortAt(t, p) == ShortAt(s, q)
  {
  }

  lemma {:induction false} SameLong(t: seq<byte>, s: seq<byte>, p: nat, q: nat)
    requires p <= q && p + 4 <= |t| && |t| + (q - p) <= |s| && t == s[q - p..q - p + |t|]
    ensures LongAt(t, p) == LongAt(s, q)
  {
  }

  /** Both sweeps decode the same instruction at an address. */
  lemma {:induction false} SameDecoding(a: Inst, b: Inst, text: CodeSection, seg: CodeSection, d: Decoders)
    requires a.addr == b.addr && Inside(text, seg)
    requires DecodedAt(a, text.vaddr, text.data, d) && DecodedAt(b, seg.vaddr, seg.data, d)
    ensures a == b
  {
    var p, q := a.addr - text.vaddr, a.addr - seg.vaddr;
    assert text.data[p] == seg.data[q];
    if text.data[p] % 4 != 3 {
      assert ShortAt(text.data, p) == ShortAt(seg.data, q) by { SameShort(text.data, seg.data, p, q); }
      SameFromShort(a, b, text, seg, d, p, q);
    } else {
      assert LongAt(text.data, p) == LongAt(seg.data, q) by { SameLong(text.data, seg.data, p, q); }
      SameFromLong(a, b, text, seg, d, p, q);
    }
  }

  lemma {:induction false} SameFromShort(a: Inst, b: Inst, text: CodeSection, seg: CodeSection, d: Decoders,
                                         p: nat, q: nat)
    requires a.addr == b.addr && p + 2 <= |text.data| && q + 2 <= |seg.data|
    requires ShortAt(text.data, p) == ShortAt(seg.data, q)
    requires a == d.short(ShortAt(text.data, p)).(addr := a.addr, len := 2)
    requires b == d.short(ShortAt(seg.data, q)).(addr := b.addr, len := 2)
    ensures a == b
  {
  }

  lemma {:induction false} SameFromLong(a: Inst, b: Inst, text: CodeSection, seg: CodeSection, d: Decoders,
                                         p: nat, q: nat)
    requires a.addr == b.addr && p + 4 <= |text.data| && q + 4 <= |seg.data|
    requires LongAt(text.data, p) == LongAt(seg.data, q)
    requires a == d.long(LongAt(text.data, p)).(addr := a.addr, len := 4)
    requires b == d.long(LongAt(seg.data, q)).(addr := b.addr, len := 4)
    ensures a == b
  {
  }

  /** The sweep of the segment does not stop where the one of the section still decodes. */
  lemma {:induction false} GoesOn(a: Inst, text: CodeSection, seg: CodeSection, d: Decoders, end: int)
    requires DecodedAt(a, text.vaddr, text.data, d) && Inside(text, seg)
    requires seg.vaddr <= end <= seg.vaddr + |seg.data| && Truncated(seg.data, end - seg.vaddr)
    ensures a.addr != end
  {
    var p, q := a.addr - text.vaddr, a.addr - seg.vaddr;
    assert text.data[p] == seg.data[q];
  }

  /** Where instruction n is or would be. */
  function AddressOf(insts: seq<Inst>, n: nat): int
    requires n <= |insts|
  {
    if n < |insts| then insts[n].addr else EndOf(insts, 0)
  }

  /** If instruction m of the section is where instruction n of the segment is or would be, the
      two are the same. */
  ghost predicate InSync(part: seq<Inst>, insts: seq<Inst>, m: nat, n: nat) {
    m < |part| && n <= |insts| && part[m].addr == AddressOf(insts, n) ==> n < |insts| && part[m] == insts[n]
  }

  lemma {:induction false} SweepsInSync(part: seq<Inst>, insts: seq<Inst>, text: CodeSection, seg: CodeSection,
                                        d: Decoders, m: nat, n: nat)
    requires SweptFrom(part, text, d) && SweptFrom(insts, seg, d) && Inside(text, seg) && insts != []
    ensures InSync(part, insts, m, n)
  {
    if m < |part| && n <= |insts| && part[m].addr == AddressOf(insts, n) {
      GoesOn(part[m], text, seg, d, EndOf(insts, seg.vaddr));
      SameDecoding(part[m], insts[n], text, seg, d);
    }
  }

  lemma {:induction false} NextAddress(insts: seq<Inst>, n: nat)
    requires Contiguous(insts) && n < |insts|
    ensures insts[n].NextAddr() == AddressOf(insts, n + 1)
  {
  }

  /** Streams in sync stay so. */
  lemma {:induction false} StayInSync(part: seq<Inst>, insts: seq<Inst>, i: nat, n: nat)
    requires Contiguous(part) && Contiguous(insts) && forall m, k :: InSync(part, insts, m, k)
    requires i < |insts| && n < |part| && part[0].addr == insts[i].addr
    ensures i + n < |insts| && part[n] == insts[i + n]
    decreases n
  {
    if n > 0 {
      StayInSync(part, insts, i, n - 1);
      NextAddress(insts, i + n - 1);
    }
    assert InSync(part, insts, n, i + n);
  }

  /** A section inside a segment that starts at one of its instructions is swept to a slice of
      the segment's instructions. */
  lemma {:induction false} TextIsSlice(part: seq<Inst>, insts: seq<Inst>, text: CodeSection, seg: CodeSection,
                                       d: Decoders, i: nat)
    requires SweptFrom(part, text, d) && SweptFrom(insts, seg, d) && Inside(text, seg)
    requires i < |insts| && text.vaddr == insts[i].addr
    ensures i + |part| <= |insts| && part == insts[i..i + |part|]
  {
    forall m, k ensures InSync(part, insts, m, k) { SweepsInSync(part, insts, text, seg, d, m, k); }
    forall n | 0 <= n < |part| ensures i + n < |insts| && part[n] == insts[i + n] {
      StayInSync(part, insts, i, n);
    }
  }

  lemma {:induction false} SweptEnd(part: seq<Inst>, sec: CodeSection, d: Decoders)
    requires SweptFrom(part, sec, d) && part != []
    ensures Contiguous(part) && EndOf(part, 0) <= sec.vaddr + |sec.data|
  {
  }

  /** Instructions that are swept twice add no boundary. */
  lemma {:induction false} SliceBoundaries(seg: seq<Inst>, i: nat, j: nat, entry: int, a: int)
    requires i < j <= |seg|
    ensures IsBoundary(seg + seg[i..j], entry, a) <==> IsBoundary(seg, entry, a)
  {
    var both := seg + seg[i..j];
    if k :| 0 <= k < |both| && Bounds(both[k], a) {
      assert both[k] == seg[if k < |seg| then k else k - |seg| + i];
    }
    if k :| 0 <= k < |seg| && Bounds(seg[k], a) { assert both[k] == seg[k]; }
  }

  // ---- the blocks ----

  /** The slice from i to j changes no block: if it reaches the end, a block starts in it;
      otherwise blocks start at both its ends. */
  ghost predicate TextKeeps(seg: seq<Inst>, i: nat, j: nat, bs: set<int>)
    requires i < j <= |seg|
  {
    if j == |seg| then exists k :: i <= k < |seg| && seg[k].addr in bs
    else seg[i].addr in bs && seg[j].addr in bs
  }

  /** Blocks that are added again leave the map as it is, if the one that has grown is among
      them. */
  lemma {:induction false} AddedAgain(r: seq<BasicBlock>, a: seq<BasicBlock>, b: seq<BasicBlock>, grown: bool)
    requires JoinOf(r, a, b, grown) && Adjoining(a) && (forall n | 0 <= n < |b| :: b[n] in a)
    requires grown && a != [] ==> a[|a| - 1] in b
    ensures MapOf(r) == MapOf(a)
  {
    forall x | x in Index(r) ensures x in Index(a) && Index(r)[x] == Index(a)[x] {
      var n := LastWith(r, x);
      IndexLast(r, n);
      if n >= |a| { assert r[n] == b[n - |a|]; } else { NotGrown(r, a, b, grown, n); }
      var p :| 0 <= p < |a| && a[p] == r[n];
      assert IsLast(a, p);
      IndexLast(a, p);
    }
    forall x | x in Index(a) ensures x in Index(r) {
      var p :| 0 <= p < |a| && a[p].start == x;
      assert r[p].start == x;
    }
    assert Index(r) == Index(a);
    MapDepends(r, a);
  }

  lemma {:induction false} AddedLater(r: seq<BasicBlock>, a: seq<BasicBlock>, b: seq<BasicBlock>, grown: bool)
    requires JoinOf(r, a, b, grown) && a != [] && a[|a| - 1] in b
    ensures !IsLast(r, |a| - 1)
  {
    var q :| 0 <= q < |b| && b[q] == a[|a| - 1];
    assert r[|a| + q] == b[q];
  }

  lemma {:induction false} NotGrown(r: seq<BasicBlock>, a: seq<BasicBlock>, b: seq<BasicBlock>, grown: bool, n: nat)
    requires JoinOf(r, a, b, grown) && n < |a| && IsLast(r, n) && (grown ==> a[|a| - 1] in b)
    ensures r[n] == a[n]
  {
    if grown { AddedLater(r, a, b, grown); }
  }

  /** What is cut from the last boundaries on is part of what is cut from the whole. */
  lemma {:induction false} CutTail(insts: seq<Inst>, k: nat, bs: set<int>)
    requires k < |insts| && insts[k].addr in bs
    ensures Cut(insts, bs) == Cut(insts[..k], bs) + Cut(insts[k..], bs) && Cut(insts[k..], bs) != []
  {
    assert insts == insts[..k] + insts[k..];
    CutAppend(insts[..k], insts[k..], bs);
    CutKeeps(insts[k..], bs);
  }

  lemma {:induction false} CutLate(insts: seq<Inst>, bs: set<int>)
    ensures var k := First(insts, bs); Cut(insts, bs) == Cut(insts[k..], bs)
  {
    var k := First(insts, bs);
    var lead, rest := insts[..k], insts[k..];
    assert insts == lead + rest;
    CutAppend(lead, rest, bs);
    assert forall j | 0 <= j < |lead| :: lead[j] == insts[j];
    CutKeeps(lead, bs);
  }

  lemma {:induction false} TailOf<T>(all: seq<T>, front: seq<T>, tail: seq<T>)
    requires all == front + tail
    ensures (forall n | 0 <= n < |tail| :: tail[n] in all) && (tail != [] ==> all != [] && all[|all| - 1] in tail)
  {
    assert forall n | 0 <= n < |tail| :: tail[n] == all[|front| + n];
  }

  lemma {:induction false} CutFrom(seg: seq<Inst>, i: nat, k: nat, bs: set<int>) returns (f: nat)
    requires i <= k < |seg| && seg[k].addr in bs
    ensures f < |seg| && seg[f].addr in bs && Cut(seg[i..], bs) == Cut(seg[f..], bs)
  {
    var text := seg[i..];
    assert text[k - i] == seg[k];
    CutLate(text, bs);
    f := i + First(text, bs);
    assert text[f - i] == seg[f] && text[f - i..] == seg[f..];
  }

  lemma {:induction false} KeepsToEnd(seg: seq<Inst>, i: nat, k: nat, bs: set<int>)
    requires i <= k < |seg| && seg[k].addr in bs
    ensures var a, b := Cut(seg, bs), Cut(seg[i..], bs);
            (forall n | 0 <= n < |b| :: b[n] in a) && a != [] && a[|a| - 1] in b
  {
    var f := CutFrom(seg, i, k, bs);
    CutTail(seg, f, bs);
    TailOf(Cut(seg, bs), Cut(seg[..f], bs), Cut(seg[f..], bs));
  }

  lemma {:induction false} KeepsInside(seg: seq<Inst>, i: nat, j: nat, bs: set<int>)
    requires i < j < |seg| && seg[i].addr in bs && seg[j].addr in bs
    ensures forall n | 0 <= n < |Cut(seg[i..j], bs)| :: Cut(seg[i..j], bs)[n] in Cut(seg, bs)
  {
    CutTail(seg, i, bs);
    assert seg[i..] == seg[i..j] + seg[j..];
    CutAppend(seg[i..j], seg[j..], bs);
  }

  /** The last of the blocks added again is shorter than the one before. */
  lemma {:induction false} ShortAgain(x: seq<BasicBlock>, b: seq<BasicBlock>, d: seq<BasicBlock>, y: seq<BasicBlock>,
                                      a: seq<BasicBlock>, r: seq<BasicBlock>, lead: bool, again: bool)
    requires JoinOf(d, x, b, lead) && JoinOf(a, d, y, true) && JoinOf(r, a, b, again) && Adjoining(a) && b != []
    ensures MapOf(r) != MapOf(a)
  {
    assert d[|d| - 1] == b[|b| - 1] && r[|r| - 1] == b[|b| - 1];
    assert IsLast(r, |r| - 1) && IsLast(a, |d| - 1);
    OtherMap(r, |r| - 1, a, |d| - 1);
  }

  /** The last block of the slice is cut short. */
  lemma {:induction false} CutShort(seg: seq<Inst>, i: nat, j: nat, bs: set<int>)
    requires Bounded(seg, bs) && i < j < |seg| && seg[j].addr !in bs && Cut(seg[i..j], bs) != []
    ensures MapOf(Cut(seg + seg[i..j], bs)) != MapOf(Cut(seg, bs))
  {
    var text, front := seg[i..j], seg[..j];
    JoinCut(seg[..i], text, bs);
    assert seg[..i] + text == front;
    JoinCut(front, seg[j..], bs);
    assert front + seg[j..] == seg;
    JoinCut(seg, text, bs);
    CutCorrect(seg, bs);
    ShortAgain(Cut(seg[..i], bs), Cut(text, bs), Cut(front, bs), Cut(seg[j..], bs), Cut(seg, bs), Cut(seg + text, bs),
               Astray(text, bs), Astray(text, bs));
  }

  /** The last block of the segment has grown and stays. */
  lemma {:induction false} StaysGrown(seg: seq<Inst>, i: nat, j: nat, bs: set<int>)
    requires Bounded(seg, bs) && i < j <= |seg| && seg[i].addr !in bs
    requires Cut(seg[i..j], bs) == [] || (j < |seg| && seg[j].addr in bs)
    ensures MapOf(Cut(seg + seg[i..j], bs)) != MapOf(Cut(seg, bs))
  {
    var text := seg[i..j];
    var a, r := Cut(seg, bs), Cut(seg + text, bs);
    JoinCut(seg, text, bs);
    CutCorrect(seg, bs);
    var n := |a| - 1;
    if Cut(text, bs) != [] { LastPast(seg, i, j, bs); }
    assert IsLast(r, n) && IsLast(a, n);
    OtherMap(r, n, a, n);
  }

  lemma {:induction false} LastPast(seg: seq<Inst>, i: nat, j: nat, bs: set<int>)
    requires Bounded(seg, bs) && i < j < |seg| && seg[j].addr in bs
    ensures var a, b := Cut(seg, bs), Cut(seg[i..j], bs);
            a != [] && forall n | 0 <= n < |b| :: b[n].start != a[|a| - 1].start
  {
    var a, b, tail := Cut(seg, bs), Cut(seg[i..j], bs), Cut(seg[j..], bs);
    CutTail(seg, j, bs);
    var x := a[|a| - 1].start;
    assert x == tail[|tail| - 1].start;
    var q := StartIs(seg[j..], bs, |tail| - 1);
    forall n | 0 <= n < |b| ensures b[n].start != x {
      var p := StartIs(seg[i..j], bs, n);
      Rising(seg, i + p, j + q);
    }
  }

  /** A block starts at an instruction. */
  lemma {:induction false} StartIs(insts: seq<Inst>, bs: set<int>, n: nat) returns (q: nat)
    requires n < |Cut(insts, bs)|
    ensures q < |insts| && insts[q].addr == Cut(insts, bs)[n].start
  {
    CutStarts(insts, bs);
    OnBoundsExact(insts, bs, Cut(insts, bs)[n].start);
    var p :| 0 <= p < |insts| && insts[p].addr == Cut(insts, bs)[n].start;
    q := p;
  }

  lemma {:induction false} EndAddsNothing(seg: seq<Inst>, i: nat, k: nat, bs: set<int>)
    requires Bounded(seg, bs) && i <= k < |seg| && seg[k].addr in bs
    ensures MapOf(Cut(seg + seg[i..], bs)) == MapOf(Cut(seg, bs))
  {
    var text := seg[i..];
    JoinCut(seg, text, bs);
    assert Adjoining(Cut(seg, bs)) by { CutCorrect(seg, bs); }
    KeepsToEnd(seg, i, k, bs);
    AddedAgain(Cut(seg + text, bs), Cut(seg, bs), Cut(text, bs), Astray(text, bs));
  }

  lemma {:induction false} MiddleAddsNothing(seg: seq<Inst>, i: nat, j: nat, bs: set<int>)
    requires Bounded(seg, bs) && i < j < |seg| && seg[i].addr in bs && seg[j].addr in bs
    ensures MapOf(Cut(seg + seg[i..j], bs)) == MapOf(Cut(seg, bs))
  {
    var text := seg[i..j];
    JoinCut(seg, text, bs);
    assert Adjoining(Cut(seg, bs)) by { CutCorrect(seg, bs); }
    KeepsInside(seg, i, j, bs);
    assert !Astray(text, bs);
    AddedAgain(Cut(seg + text, bs), Cut(seg, bs), Cut(text, bs), false);
  }

  lemma {:induction false} NothingCut(seg: seq<Inst>, i: nat, j: nat, bs: set<int>)
    requires i < j <= |seg|
    ensures Cut(seg[i..j], bs) == [] <==> forall k | i <= k < j :: seg[k].addr !in bs
  {
    var text := seg[i..j];
    CutKeeps(text, bs);
    assert forall k | 0 <= k < |text| :: text[k] == seg[i + k];
    assert forall k | i <= k < j :: seg[k] == text[k - i];
  }

  /** A section that is a slice of a segment, swept after it, leaves the map of blocks as it is
      without it if and only if it reaches the segment's end and a block starts in it, or blocks
      start where it begins and where it ends. */
  lemma {:induction false} TextExact(seg: seq<Inst>, i: nat, j: nat, bs: set<int>)
    requires Bounded(seg, bs) && i < j <= |seg|
    ensures Index(BlockList(seg + seg[i..j], bs)) == Index(BlockList(seg, bs)) <==> TextKeeps(seg, i, j, bs)
  {
    NothingCut(seg, i, j, bs);
    if TextKeeps(seg, i, j, bs) {
      if j == |seg| {
        var k :| i <= k < |seg| && seg[k].addr in bs;
        assert seg[i..j] == seg[i..];
        EndAddsNothing(seg, i, k, bs);
      } else {
        MiddleAddsNothing(seg, i, j, bs);
      }
    } else if j < |seg| && seg[j].addr !in bs && Cut(seg[i..j], bs) != [] {
      CutShort(seg, i, j, bs);
    } else {
      StaysGrown(seg, i, j, bs);
    }
  }

  // ---- two inputs ----

  const FIRST := R.Instruction(0x1000, 4, R.ADDI, Some(1), Some(1), None, Some(1))
  const SECOND := R.Instruction(0x1004, 4, R.ADDI, Some(1), Some(1), None, Some(1))
  const RETURN := R.Instruction(0x1008, 2, R.C_JR, None, Some(1), None, None)
  const SEGMENT := [FIRST, SECOND, RETURN]

  lemma {:induction false} SegmentBounds(entry: int, bs: set<int>)
    requires bs == {entry, 0x1000, 0x100A}
    ensures BoundarySet(bs, SEGMENT, entry) && Bounded(SEGMENT, bs)
  {
    forall a ensures a in bs <==> IsBoundary(SEGMENT, entry, a) {
      if a == 0x100A { assert Bounds(SEGMENT[2], a); }
    }
    BoundaryBounds(SEGMENT, entry, bs);
  }

  /** The last block of the section is in the map. */
  lemma {:induction false} LastCounts(seg: seq<Inst>, text: seq<Inst>, bs: set<int>, b: BasicBlock)
    requires Cut(text, bs) == [b]
    ensures var m := Index(BlockList(seg + text, bs)); b.start in m && m[b.start].instructions == b.instructions
  {
    JoinCut(seg, text, bs);
    var r := Cut(seg + text, bs);
    assert IsLast(r, |r| - 1) && r[|r| - 1] == b;
    MapLast(r, |r| - 1);
  }

  lemma {:induction false} CutSecond(bs: set<int>)
    requires 0x1004 in bs
    ensures SEGMENT[1..2] == [SECOND] && Cut([SECOND], bs) == [BasicBlock(0x1004, 0x1008, [SECOND], [])]
  {
    CutLast([SECOND], [], SECOND, bs);
    assert AddInst([], SECOND, bs) == [] + [BasicBlock(0x1004, 0x1008, [SECOND], [])];
  }

  /** A slice that ends inside a block changes the map. */
  lemma {:induction false} TextLoses(seg: seq<Inst>, i: nat, j: nat, bs: set<int>)
    requires Bounded(seg, bs) && i < j < |seg| && seg[j].addr !in bs
    ensures Index(BlockList(seg + seg[i..j], bs)) != Index(BlockList(seg, bs))
  {
    TextExact(seg, i, j, bs);
  }

  lemma {:induction false} SecondChanges(bs: set<int>, seg: seq<Inst>, text: seq<Inst>)
    requires 0x1008 !in bs && Bounded(seg, bs) && seg == SEGMENT && text == seg[1..2]
    ensures Index(BlockList(seg + text, bs)) != Index(BlockList(seg, bs))
  {
    TextLoses(seg, 1, 2, bs);
  }

  lemma {:induction false} SecondCounts(bs: set<int>, seg: seq<Inst>, text: seq<Inst>)
    requires 0x1004 in bs && seg == SEGMENT && text == seg[1..2]
    ensures var m := Index(BlockList(seg + text, bs)); 0x1004 in m && m[0x1004].instructions == [SECOND]
  {
    CutSecond(bs);
    LastCounts(seg, text, bs, BasicBlock(0x1004, 0x1008, [SECOND], []));
  }

  lemma {:induction false} BothStart(bs: set<int>, seg: seq<Inst>, text: seq<Inst>)
    requires bs == {0x1004, 0x1000, 0x100A} && seg == SEGMENT && text == seg[1..2]
    ensures AllStart([seg, text], bs)
  {
  }

  /** The entry and the section at 0x1004, and the section four bytes long: both sections start
      on boundaries, and yet the block of the segment at 0x1004 is replaced by one without the
      return. */
  lemma {:induction false} TextLosesReturn(bs: set<int>)
    requires bs == {0x1004, 0x1000, 0x100A}
    ensures BoundarySet(bs, SEGMENT, 0x1004) && AllStart([SEGMENT, SEGMENT[1..2]], bs)
    ensures var m := Index(BlockList(SEGMENT + SEGMENT[1..2], bs));
            m != Index(BlockList(SEGMENT, bs)) && 0x1004 in m && m[0x1004].instructions == [SECOND]
  {
    SegmentBounds(0x1004, bs);
    SecondChanges(bs, SEGMENT, SEGMENT[1..2]);
    SecondCounts(bs, SEGMENT, SEGMENT[1..2]);
    BothStart(bs, SEGMENT, SEGMENT[1..2]);
  }

  /** The entry at 0x1008 and the section from 0x1004 to the end: it does not start on a
      boundary, and yet no block changes. */
  lemma {:induction false} TextHarmless(bs: set<int>)
    requires bs == {0x1008, 0x1000, 0x100A}
    ensures BoundarySet(bs, SEGMENT, 0x1008) && Astray(SEGMENT[1..3], bs)
    ensures Index(BlockList(SEGMENT + SEGMENT[1..3], bs)) == Index(BlockList(SEGMENT, bs))
  {
    SegmentBounds(0x1008, bs);
    assert SEGMENT[2].addr in bs;
    TextExact(SEGMENT, 1, 3, bs);
  }
}
