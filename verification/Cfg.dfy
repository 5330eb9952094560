/** From the bytes of a code section to basic blocks. */
module Cfg {
  import opened Words
  import opened Translate
  import R = RiscV

  type Inst = R.Instruction

  // ---- the sweep ----

  /** Field decoders for 16-bit and 32-bit encodings; the sweep fills in address and length. */
  datatype Decoders = Decoders(short: nat -> Inst, long: nat -> Inst)

  function ShortAt(data: seq<byte>, p: nat): nat
    requires p + 2 <= |data|
  {
    data[p] + data[p + 1] as int * 0x100
  }

  function LongAt(data: seq<byte>, p: nat): nat
    requires p + 4 <= |data|
  {
    data[p] + data[p + 1] as int * 0x100 + data[p + 2] as int * 0x1_0000 + data[p + 3] as int * 0x100_0000
  }

  /** Instruction i is the decoding of the bytes at its address. */
  predicate DecodedAt(i: Inst, vaddr: u64, data: seq<byte>, d: Decoders) {
    var p := i.addr - vaddr;
    && 0 <= p < |data|
    && (data[p] % 4 != 3 ==> p + 2 <= |data| && i == d.short(ShortAt(data, p)).(addr := i.addr, len := 2))
    && (data[p] % 4 == 3 ==> p + 4 <= |data| && i == d.long(LongAt(data, p)).(addr := i.addr, len := 4))
  }

  /** Each instruction starts where the one before it ends. */
  predicate Contiguous(insts: seq<Inst>) {
    && (forall k | 0 <= k < |insts| :: insts[k].len > 0)
    && (forall k | 0 < k < |insts| :: insts[k].addr == insts[k - 1].NextAddr())
  }

  function EndOf(insts: seq<Inst>, vaddr: int): int {
    if insts == [] then vaddr else insts[|insts| - 1].NextAddr()
  }

  /** No whole instruction starts at offset p. */
  predicate Truncated(data: seq<byte>, p: nat)
    requires p <= |data|
  {
    p == |data| || p + (if data[p] % 4 == 3 then 4 else 2) > |data|
  }

  /** disassemble: a contiguous stream from the start of the section to its first truncated
      instruction, each decoded from the bytes at its address. */
  method Disassemble(vaddr: u64, data: seq<byte>, d: Decoders) returns (insts: seq<Inst>)
    requires vaddr + |data| < TWO64
    ensures insts != [] ==> insts[0].addr == vaddr
    ensures Contiguous(insts) && forall k | 0 <= k < |insts| :: DecodedAt(insts[k], vaddr, data, d)
    ensures vaddr <= EndOf(insts, vaddr) <= vaddr + |data| && Truncated(data, EndOf(insts, vaddr) - vaddr)
  {
    insts := [];
    var offset := 0;
    while offset < |data|
      invariant 0 <= offset <= |data| && EndOf(insts, vaddr) == vaddr + offset
      invariant insts != [] ==> insts[0].addr == vaddr
      invariant Contiguous(insts)
      invariant forall k | 0 <= k < |insts| :: DecodedAt(insts[k], vaddr, data, d)
    {
      var addr: u64 := vaddr + offset;
      if data[offset] % 4 != 3 {
        if offset + 2 > |data| { break; }
        var i := d.short(ShortAt(data, offset)).(addr := addr, len := 2);
        assert DecodedAt(i, vaddr, data, d);
        insts := insts + [i];
        offset := offset + 2;
      } else {
        if offset + 4 > |data| { break; }
        var i := d.long(LongAt(data, offset)).(addr := addr, len := 4);
        assert DecodedAt(i, vaddr, data, d);
        insts := insts + [i];
        offset := offset + 4;
      }
    }
  }

  // ---- boundaries ----

  /** A direct branch or jump. */
  predicate Direct(i: Inst) { (i.op.IsBranch() || i.op.IsJump()) && i.imm.Some? }

  /** Instruction i makes address a start a block. */
  predicate Bounds(i: Inst, a: int) {
    (i.op.IsTerminator() && a == i.NextAddr()) || (Direct(i) && a == i.Target())
  }

  ghost predicate IsBoundary(insts: seq<Inst>, entry: int, a: int) {
    a == entry || (insts != [] && a == insts[0].addr) || exists k :: 0 <= k < |insts| && Bounds(insts[k], a)
  }

  /** find_block_boundaries. */
  method FindBlockBoundaries(insts: seq<Inst>, entry: u64) returns (boundaries: set<int>)
    ensures forall a :: a in boundaries <==> IsBoundary(insts, entry, a)
  {
    boundaries := {entry};
    if insts != [] { boundaries := boundaries + {insts[0].addr}; }
    for n := 0 to |insts|
      invariant forall a :: a in boundaries <==>
        a == entry || (insts != [] && a == insts[0].addr) || exists k :: 0 <= k < n && Bounds(insts[k], a)
    {
      var i := insts[n];
      ghost var before := boundaries;
      if i.op.IsTerminator() { boundaries := boundaries + {i.NextAddr()}; }
      if (i.op.IsBranch() || i.op.IsJump()) && i.imm.Some? { boundaries := boundaries + {i.Target()}; }
      if (i.op.JAL? || i.op.C_JAL?) && i.imm.Some? { boundaries := boundaries + {i.Target()}; }
      assert forall a :: a in boundaries <==> a in before || Bounds(i, a);
    }
  }

  // ---- cutting ----

  function ComputeSuccessors(i: Inst): seq<int> {
    if i.op.IsBranch() then (if i.imm.Some? then [i.Target()] else []) + [i.NextAddr()]
    else if i.op.JAL? || i.op.C_J? || i.op.C_JAL? then
      if i.imm.None? then [] else (if i.Rd() != 0 then [i.NextAddr()] else []) + [i.Target()]
    else if i.op.JALR? || i.op.C_JR? || i.op.C_JALR? then (if i.Rd() != 0 then [i.NextAddr()] else [])
    else [i.NextAddr()]
  }

  /** The finished blocks in order, then the open one. */
  function Cut(insts: seq<Inst>, bs: set<int>): seq<BasicBlock> {
    if insts == [] then [] else AddInst(Cut(insts[..|insts| - 1], bs), insts[|insts| - 1], bs)
  }

  lemma {:induction false} CutLast(insts: seq<Inst>, front: seq<Inst>, i: Inst, bs: set<int>)
    requires insts == front + [i]
    ensures Cut(insts, bs) == AddInst(Cut(front, bs), i, bs)
  {
    assert insts[..|insts| - 1] == front;
  }

  /** An instruction on a boundary opens a block; any other extends the open block. */
  function AddInst(list: seq<BasicBlock>, i: Inst, bs: set<int>): seq<BasicBlock> {
    var next := if i.op.IsTerminator() then ComputeSuccessors(i) else [];
    if i.addr in bs then list + [BasicBlock(i.addr, i.NextAddr(), [i], next)]
    else if list == [] then []
    else
      var b := list[|list| - 1];
      list[..|list| - 1] + [BasicBlock(b.start, i.NextAddr(), b.instructions + [i],
                                       if i.op.IsTerminator() then next else b.successors)]
  }

  /** Inserting the blocks in order, each at its start address. */
  function Index(list: seq<BasicBlock>): (m: map<int, BasicBlock>)
    ensures forall a :: a in m <==> exists k :: 0 <= k < |list| && list[k].start == a
  {
    if list == [] then map[] else Index(list[..|list| - 1])[list[|list| - 1].start := list[|list| - 1]]
  }

  /** The fall-through successor of a block without successors. */
  function WithFallThrough(b: BasicBlock, starts: set<int>): BasicBlock {
    if b.successors == [] && b.end in starts then b.(successors := [b.end]) else b
  }

  function FallThrough(list: seq<BasicBlock>): (r: seq<BasicBlock>)
    ensures |r| == |list|
    ensures forall k | 0 <= k < |list| :: r[k] == WithFallThrough(list[k], Index(list).Keys)
  {
    seq(|list|, k requires 0 <= k < |list| => WithFallThrough(list[k], Index(list).Keys))
  }

  /** The loop of create_blocks over the instructions. */
  method CutBlocks(insts: seq<Inst>, boundaries: set<int>) returns (blocks: map<int, BasicBlock>)
    ensures blocks == Index(Cut(insts, boundaries))
  {
    blocks := map[];
    var current: Option<BasicBlock> := None;
    for n := 0 to |insts|
      invariant current.None? ==> Cut(insts[..n], boundaries) == [] && blocks == map[]
      invariant current.Some? ==>
        var list := Cut(insts[..n], boundaries);
        list != [] && current.value == list[|list| - 1] && blocks == Index(list[..|list| - 1])
    {
      ghost var list := Cut(insts[..n], boundaries);
      assert insts[..n + 1][..n] == insts[..n];
      var i := insts[n];
      if i.addr in boundaries {
        if current.Some? {
          blocks := blocks[current.value.start := current.value];
          assert list == list[..|list| - 1] + [current.value];
        }
        assert blocks == Index(list);
        current := Some(BasicBlock(i.addr, i.NextAddr(), [i], []));
        assert (list + [current.value])[..|list|] == list;
      } else if current.Some? {
        current := Some(current.value.(instructions := current.value.instructions + [i], end := i.NextAddr()));
      }
      if i.op.IsTerminator() && current.Some? {
        current := Some(current.value.(successors := ComputeSuccessors(i)));
      }
      ghost var list' := Cut(insts[..n + 1], boundaries);
      assert list' == AddInst(list, i, boundaries);
      assert i.addr in boundaries ==> list'[..|list'| - 1] == list;
      assert i.addr !in boundaries && list != [] ==> list'[..|list'| - 1] == list[..|list| - 1];
    }
    assert insts[..|insts|] == insts;
    if current.Some? {
      blocks := blocks[current.value.start := current.value];
      ghost var list := Cut(insts, boundaries);
      assert list == list[..|list| - 1] + [current.value];
    }
  }

  /** The second loop of create_blocks: fall-through successors. */
  method AddFallThrough(blocks0: map<int, BasicBlock>) returns (blocks: map<int, BasicBlock>)
    ensures blocks.Keys == blocks0.Keys
    ensures forall a | a in blocks0 :: blocks[a] == WithFallThrough(blocks0[a], blocks0.Keys)
  {
    blocks := blocks0;
    var todo: set<int> := blocks.Keys;
    while todo != {}
      invariant blocks.Keys == blocks0.Keys && todo <= blocks0.Keys
      invariant forall a | a in blocks0 ::
                  blocks[a] == if a in todo then blocks0[a] else WithFallThrough(blocks0[a], blocks0.Keys)
    {
      Inhabited(todo);
      var addr :| addr in todo;
      todo := todo - {addr};
      var block := blocks[addr];
      if block.successors == [] && block.end in blocks {
        blocks := blocks[addr := block.(successors := [block.end])];
      }
    }
  }

  lemma {:induction false} IndexFallThrough(list: seq<BasicBlock>, r: seq<BasicBlock>, keys: set<int>)
    requires |r| == |list| && forall k | 0 <= k < |list| :: r[k] == WithFallThrough(list[k], keys)
    ensures Index(r) == map a | a in Index(list) :: WithFallThrough(Index(list)[a], keys)
    decreases |list|
  {
    if list != [] {
      var n := |list| - 1;
      IndexFallThrough(list[..n], r[..n], keys);
    }
  }

  lemma {:induction false} FallThroughMap(list: seq<BasicBlock>, cut: map<int, BasicBlock>,
                                          blocks: map<int, BasicBlock>)
    requires cut == Index(list) && blocks.Keys == cut.Keys
    requires forall a | a in cut :: blocks[a] == WithFallThrough(cut[a], cut.Keys)
    ensures blocks == Index(FallThrough(list))
  {
    IndexFallThrough(list, FallThrough(list), Index(list).Keys);
    assert blocks == map a | a in cut :: WithFallThrough(cut[a], cut.Keys);
  }

  /** The blocks of a stream in address order. */
  ghost function BlockList(insts: seq<Inst>, boundaries: set<int>): seq<BasicBlock> {
    FallThrough(Cut(insts, boundaries))
  }

  /** create_blocks. */
  method CreateBlocks(insts: seq<Inst>, boundaries: set<int>) returns (blocks: map<int, BasicBlock>)
    ensures blocks == Index(BlockList(insts, boundaries))
  {
    var cut := CutBlocks(insts, boundaries);
    blocks := AddFallThrough(cut);
    FallThroughMap(Cut(insts, boundaries), cut, blocks);
  }

  // ---- what the blocks are ----

  /** All instructions of the blocks, in order. */
  ghost function Flat(list: seq<BasicBlock>): seq<Inst> {
    if list == [] then [] else Flat(list[..|list| - 1]) + list[|list| - 1].instructions
  }

  function Last(b: BasicBlock): Inst
    requires b.instructions != []
  {
    b.instructions[|b.instructions| - 1]
  }

  /** A block starts on a boundary, holds no other, is contiguous and has a terminator
      only at its end. */
  ghost predicate IsBlock(b: BasicBlock, boundaries: set<int>) {
    && b.instructions != [] && b.start == b.instructions[0].addr && b.end == Last(b).NextAddr()
    && Contiguous(b.instructions)
    && b.start in boundaries
    && (forall j | 0 < j < |b.instructions| :: b.instructions[j].addr !in boundaries)
    && (forall j | 0 <= j < |b.instructions| - 1 :: !b.instructions[j].op.IsTerminator())
  }

  /** Each block starts where the one before it ends, at a higher address. */
  ghost predicate Adjoining(list: seq<BasicBlock>) {
    && (forall k | 0 < k < |list| :: list[k].start == list[k - 1].end)
    && (forall j, k | 0 <= j < k < |list| :: list[j].start < list[k].start)
  }

  /** The successors the terminator gives. */
  function OwnSuccessors(b: BasicBlock): seq<int>
    requires b.instructions != []
  {
    if Last(b).op.IsTerminator() then ComputeSuccessors(Last(b)) else []
  }

  ghost predicate AllBlocks(list: seq<BasicBlock>, bs: set<int>) {
    forall k | 0 <= k < |list| :: IsBlock(list[k], bs) && list[k].successors == OwnSuccessors(list[k])
  }

  lemma {:induction false} AllAppend(list: seq<BasicBlock>, b: BasicBlock, bs: set<int>)
    requires AllBlocks(list, bs) && IsBlock(b, bs) && b.successors == OwnSuccessors(b)
    ensures AllBlocks(list + [b], bs)
  {
  }

  ghost predicate CutOf(list: seq<BasicBlock>, insts: seq<Inst>, bs: set<int>) {
    && Flat(list) == insts && Adjoining(list)
    && AllBlocks(list, bs)
    && (insts != [] ==> list != [] && list[|list| - 1].end == EndOf(insts, 0))
  }

  /** The stream starts on a boundary and every terminator is followed by one. */
  ghost predicate Bounded(insts: seq<Inst>, bs: set<int>) {
    && Contiguous(insts) && (insts != [] ==> insts[0].addr in bs)
    && forall k | 0 <= k < |insts| && insts[k].op.IsTerminator() :: insts[k].NextAddr() in bs
  }

  lemma {:induction false} OpenBlock(list: seq<BasicBlock>, b: BasicBlock, insts: seq<Inst>, i: Inst, bs: set<int>)
    requires CutOf(list, insts, bs) && i.len > 0 && (insts != [] ==> i.addr == EndOf(insts, 0))
    requires i.addr in bs
             && b == BasicBlock(i.addr, i.NextAddr(), [i], if i.op.IsTerminator() then ComputeSuccessors(i) else [])
    requires insts == [] ==> list == []
    ensures CutOf(list + [b], insts + [i], bs)
  {
    if list != [] {
      var last := list[|list| - 1];
      BlockSpan(last, bs, |last.instructions| - 1);
    }
    AdjoinAppend(list, b);
    SingleBlock(b, i, bs);
    AllAppend(list, b, bs);
    assert (list + [b])[..|list|] == list;
  }

  lemma {:induction false} AdjoinAppend(list: seq<BasicBlock>, b: BasicBlock)
    requires Adjoining(list) && (list != [] ==> list[|list| - 1].end == b.start && list[|list| - 1].start < b.start)
    ensures Adjoining(list + [b])
  {
    var r := list + [b];
    forall j, k | 0 <= j < k < |r| ensures r[j].start < r[k].start {
      if k == |list| && j < |list| - 1 { assert list[j].start < list[|list| - 1].start; }
    }
  }

  lemma {:induction false} SingleBlock(b: BasicBlock, i: Inst, bs: set<int>)
    requires b.instructions == [i] && b.start == i.addr && b.end == i.NextAddr() && i.len > 0 && i.addr in bs
    ensures IsBlock(b, bs)
  {
  }

  lemma {:induction false} BlockSpan(b: BasicBlock, bs: set<int>, j: nat)
    requires IsBlock(b, bs) && j < |b.instructions|
    ensures b.start <= b.instructions[j].addr < b.end
    decreases |b.instructions| - j
  {
    Rising(b.instructions, 0, j);
    Rising(b.instructions, j, |b.instructions| - 1);
  }

  lemma {:induction false} Rising(insts: seq<Inst>, j: nat, k: nat)
    requires Contiguous(insts) && j <= k < |insts|
    ensures insts[j].addr <= insts[k].addr && (j < k ==> insts[j].NextAddr() <= insts[k].addr)
    decreases k
  {
    if j < k { Rising(insts, j, k - 1); }
  }

  lemma {:induction false} ExtendIsBlock(b: BasicBlock, i: Inst, bs: set<int>)
    requires IsBlock(b, bs) && !Last(b).op.IsTerminator() && i.len > 0 && i.addr == b.end && i.addr !in bs
    ensures IsBlock(b.(end := i.NextAddr(), instructions := b.instructions + [i]), bs)
  {
    var more := b.instructions + [i];
    assert forall j | 0 <= j < |b.instructions| :: more[j] == b.instructions[j];
    assert Contiguous(more);
  }

  /** Changing only the end of the last block. */
  lemma {:induction false} AdjoinExtend(front: seq<BasicBlock>, b: BasicBlock, b': BasicBlock)
    requires Adjoining(front + [b]) && b'.start == b.start
    ensures Adjoining(front + [b'])
  {
    var list, list' := front + [b], front + [b'];
    assert forall k | 0 <= k < |list'| ::
        list'[k].start == list[k].start && (k < |front| ==> list'[k].end == list[k].end);
  }

  lemma {:induction false} ExtendBlock(front: seq<BasicBlock>, b: BasicBlock, b': BasicBlock, insts: seq<Inst>,
                                       i: Inst, bs: set<int>)
    requires CutOf(front + [b], insts, bs) && i.len > 0 && insts != [] && i.addr == EndOf(insts, 0) && i.addr !in bs
    requires insts[|insts| - 1].op.IsTerminator() ==> insts[|insts| - 1].NextAddr() in bs
    requires b' == BasicBlock(b.start, i.NextAddr(), b.instructions + [i],
                              if i.op.IsTerminator() then ComputeSuccessors(i) else b.successors)
    ensures CutOf(front + [b'], insts + [i], bs)
  {
    var list := front + [b];
    assert list[|list| - 1] == b;
    assert insts[|insts| - 1] == Last(b);
    ExtendIsBlock(b, i, bs);
    SameShape(b.(end := i.NextAddr(), instructions := b.instructions + [i]), b', bs);
    AdjoinExtend(front, b, b');
    assert forall k | 0 <= k < |front| :: front[k] == list[k];
    AllAppend(front, b', bs);
    assert Flat(front + [b']) == insts + [i];
  }

  lemma {:induction false} SameShape(b: BasicBlock, b': BasicBlock, bs: set<int>)
    requires IsBlock(b, bs) && b' == b.(successors := b'.successors)
    ensures IsBlock(b', bs)
  {
  }

  lemma {:induction false} CutCorrect(insts: seq<Inst>, bs: set<int>)
    requires Bounded(insts, bs)
    ensures CutOf(Cut(insts, bs), insts, bs) && (insts == [] ==> Cut(insts, bs) == [])
    decreases |insts|
  {
    if insts != [] {
      var n := |insts| - 1;
      var front, i := insts[..n], insts[n];
      CutCorrect(front, bs);
      var list := Cut(front, bs);
      assert insts == front + [i];
      if i.addr in bs {
        OpenBlock(list, AddInst(list, i, bs)[|list|], front, i, bs);
      } else {
        assert list == list[..|list| - 1] + [list[|list| - 1]];
        ExtendBlock(list[..|list| - 1], list[|list| - 1], AddInst(list, i, bs)[|list| - 1], front, i, bs);
      }
    }
  }

  /** Lists that differ only in successors. */
  ghost predicate SameBlocks(r: seq<BasicBlock>, list: seq<BasicBlock>) {
    |r| == |list| && forall k | 0 <= k < |list| :: r[k] == list[k].(successors := r[k].successors)
  }

  lemma {:induction false} SameFlat(r: seq<BasicBlock>, list: seq<BasicBlock>)
    requires SameBlocks(r, list)
    ensures Flat(r) == Flat(list)
    decreases |list|
  {
    if list != [] { SameFlat(r[..|list| - 1], list[..|list| - 1]); }
  }

  /** Every instruction of a list of blocks is in one of the blocks. */
  lemma {:induction false} Locate(list: seq<BasicBlock>, j: nat) returns (k: nat, p: nat)
    requires j < |Flat(list)|
    ensures k < |list| && p < |list[k].instructions| && list[k].instructions[p] == Flat(list)[j]
    decreases |list|
  {
    var n := |list| - 1;
    var front := Flat(list[..n]);
    if j < |front| {
      k, p := Locate(list[..n], j);
    } else {
      k, p := n, j - |front|;
    }
  }

  /** Each address in the index leads to its block. */
  lemma {:induction false} IndexAt(list: seq<BasicBlock>, k: nat)
    requires k < |list| && forall i, j | 0 <= i < j < |list| :: list[i].start < list[j].start
    ensures list[k].start in Index(list) && Index(list)[list[k].start] == list[k]
    decreases |list|
  {
    if k < |list| - 1 { IndexAt(list[..|list| - 1], k); }
  }

  /** The blocks, in address order, of a contiguous stream. */
  ghost predicate Partition(list: seq<BasicBlock>, insts: seq<Inst>, bs: set<int>) {
    && Flat(list) == insts && Adjoining(list)
    && forall k | 0 <= k < |list| :: IsBlock(list[k], bs)
  }

  /** The boundaries find_block_boundaries gives a contiguous stream. */
  ghost predicate BoundarySet(bs: set<int>, insts: seq<Inst>, entry: int) {
    Contiguous(insts) && forall a :: a in bs <==> IsBoundary(insts, entry, a)
  }

  lemma {:induction false} BoundaryBounds(insts: seq<Inst>, entry: int, bs: set<int>)
    requires BoundarySet(bs, insts, entry)
    ensures Bounded(insts, bs)
  {
    assert forall k | 0 <= k < |insts| && insts[k].op.IsTerminator() :: Bounds(insts[k], insts[k].NextAddr());
  }

  /** The blocks are a partition of the stream. */
  lemma {:induction false} BlocksPartition(insts: seq<Inst>, bs: set<int>)
    requires Bounded(insts, bs)
    ensures Partition(BlockList(insts, bs), insts, bs)
  {
    CutCorrect(insts, bs);
    var cut, list := Cut(insts, bs), BlockList(insts, bs);
    SameFlat(list, cut);
    SameAdjoining(list, cut);
    forall k | 0 <= k < |list| ensures IsBlock(list[k], bs) {
      SameShape(cut[k], list[k], bs);
    }
  }

  lemma {:induction false} SameAdjoining(r: seq<BasicBlock>, list: seq<BasicBlock>)
    requires SameBlocks(r, list) && Adjoining(list)
    ensures Adjoining(r)
  {
    assert forall k | 0 <= k < |list| :: r[k].start == list[k].start && r[k].end == list[k].end;
  }

  /** An instruction on a boundary starts a block. */
  lemma {:induction false} BoundaryStartsBlock(list: seq<BasicBlock>, insts: seq<Inst>, bs: set<int>, j: nat)
    requires Partition(list, insts, bs) && j < |insts| && insts[j].addr in bs
    ensures insts[j].addr in Index(list)
  {
    var k, p := Locate(list, j);
    assert IsBlock(list[k], bs);
    assert list[k].start == insts[j].addr;
  }

  /** A direct branch or jump to an instruction of the stream leads to the start of a block. */
  lemma {:induction false} TargetsStartBlocks(insts: seq<Inst>, entry: int, bs: set<int>, i: nat, j: nat)
    requires BoundarySet(bs, insts, entry)
    requires i < |insts| && j < |insts| && Direct(insts[i]) && insts[i].Target() == insts[j].addr
    ensures insts[j].addr in Index(BlockList(insts, bs))
  {
    BoundaryBounds(insts, entry, bs);
    BlocksPartition(insts, bs);
    assert Bounds(insts[i], insts[j].addr);
    BoundaryStartsBlock(BlockList(insts, bs), insts, bs, j);
  }

  /** A block ends where another starts exactly when it is not the last. */
  lemma {:induction false} EndStartsNext(list: seq<BasicBlock>, bs: set<int>, k: nat)
    requires Adjoining(list) && k < |list| && forall j | 0 <= j < |list| :: IsBlock(list[j], bs)
    ensures list[k].end in Index(list) <==> k + 1 < |list|
  {
    if k + 1 < |list| {
      assert list[k + 1].start == list[k].end;
    } else {
      BlockSpan(list[k], bs, 0);
      forall j | 0 <= j < |list| ensures list[j].start < list[k].end {
        if j < k { assert list[j].start < list[k].start; }
      }
    }
  }

  lemma {:induction false} FallThroughExact(b: BasicBlock, starts: set<int>)
    requires b.instructions != [] && b.successors == OwnSuccessors(b)
    ensures var r := WithFallThrough(b, starts);
            && r.instructions == b.instructions && r.end == b.end && OwnSuccessors(r) == OwnSuccessors(b)
            && r.successors == if OwnSuccessors(b) != [] then OwnSuccessors(b)
                               else if b.end in starts then [b.end] else []
  {
  }

  /** The successors of a block: those of its terminator, or the next block when there are none. */
  lemma {:induction false} SuccessorsExact(insts: seq<Inst>, bs: set<int>, k: nat)
    requires Bounded(insts, bs) && k < |BlockList(insts, bs)|
    ensures var list := BlockList(insts, bs);
            && list[k].instructions != []
            && list[k].successors == if OwnSuccessors(list[k]) != [] then OwnSuccessors(list[k])
                                     else if k + 1 < |list| then [list[k].end] else []
  {
    CutCorrect(insts, bs);
    var cut := Cut(insts, bs);
    assert IsBlock(cut[k], bs) && cut[k].successors == OwnSuccessors(cut[k]);
    EndStartsNext(cut, bs, k);
    FallThroughExact(cut[k], Index(cut).Keys);
  }

  // ---- successors and the instructions' own control flow ----

  /** Where a direct branch or jump goes is among its successors, for every register contents. */
  lemma {:induction false} SuccessorsSound(i: Inst, x: R.Regs)
    requires Direct(i) && !i.op.JALR? && !i.op.C_JALR? && !i.op.C_JR? && i.NextAddr() < TWO64
    ensures R.Transfer(i, x).0 in ComputeSuccessors(i)
  {
    GoesDirect(i, x, R.Transfer(i, x).0);
    Listed(i);
  }

  lemma {:induction false} GoesDirect(i: Inst, x: R.Regs, a: u64)
    requires Direct(i) && !i.op.JALR? && !i.op.C_JALR? && !i.op.C_JR? && i.NextAddr() < TWO64 && a == R.Transfer(i, x).0
    ensures a == i.Target() || (i.op.IsBranch() && a == i.NextAddr())
  {
  }

  lemma {:induction false} Listed(i: Inst)
    requires Direct(i) && !i.op.JALR? && !i.op.C_JALR? && !i.op.C_JR?
    ensures i.Target() in ComputeSuccessors(i) && (i.op.IsBranch() ==> i.NextAddr() in ComputeSuccessors(i))
  {
    var r := ComputeSuccessors(i);
    if i.op.IsBranch() {
      assert r[0] == i.Target() && r[1] == i.NextAddr();
    } else {
      assert r[|r| - 1] == i.Target();
    }
  }

  /** The successors by opcode: a branch has its target, then the next address; a direct jump the
      next address if it links, then its target; an indirect jump the next address if it links;
      everything else the next address. */
  lemma {:induction false} SuccessorList(i: Inst)
    ensures i.op.IsBranch() && i.imm.Some? ==> ComputeSuccessors(i) == [i.Target(), i.NextAddr()]
    ensures i.op.IsBranch() && i.imm.None? ==> ComputeSuccessors(i) == [i.NextAddr()]
    ensures (i.op.JAL? || i.op.C_J? || i.op.C_JAL?) && i.imm.Some? ==>
              ComputeSuccessors(i) == if i.rd.Some? && i.rd.value != 0 then [i.NextAddr(), i.Target()] else [i.Target()]
    ensures (i.op.JAL? || i.op.C_J? || i.op.C_JAL?) && i.imm.None? ==> ComputeSuccessors(i) == []
    ensures i.op.JALR? || i.op.C_JR? || i.op.C_JALR? ==>
              ComputeSuccessors(i) == if i.rd.Some? && i.rd.value != 0 then [i.NextAddr()] else []
    ensures !i.op.IsBranch() && !i.op.IsJump() ==> ComputeSuccessors(i) == [i.NextAddr()]
  {
  }
}
