/** The branch table and the chain of tests reach the same handler. */
module DispatchProof {
  import opened Words
  import opened Memory
  import opened Wasm
  import opened Translate
  import opened Dispatch

  /** The frame of the dispatch function: $m, the start pc and the current pc. */
  ghost predicate AtPc(st: State, m: u32, pc: u32) {
    |st.locals| == 3 && st.locals[0] == I32(m) && st.locals[2] == I32(pc)
  }

  /** What calling a block function does. */
  ghost function CallBlock(env: Env, idx: u32, m: u32, mem: Mem): Option<(Val, Mem)> {
    if env.Top? && idx < |env.table| then
      match Exec(Leaf, env.table[idx], Frame(m, mem))
      case Returned(v, mem') => Some((v, mem'))
      case _ => None
    else None
  }

  /** The state a handler leaves: the halt pc, or the result of the block called. */
  ghost function Handled(env: Env, st: State, m: u32, dest: Option<u32>): Option<State>
    requires |st.locals| == 3
  {
    match dest
    case None => Some(st.(locals := st.locals[2 := I32(HALT)]))
    case Some(idx) =>
      match CallBlock(env, idx, m, st.mem)
      case None => None
      case Some((v, mem')) => Some(st.(locals := st.locals[2 := v], mem := mem'))
  }

  lemma {:induction false} CallCodeExec(env: Env, idx: u32, rest: Code, st: State, m: u32)
    requires |st.locals| == 3 && st.locals[0] == I32(m)
    ensures Exec(env, CallCode(idx) + rest, st)
         == match Handled(env, st, m, Some(idx)) { case None => Trap case Some(st') => Exec(env, rest, st') }
  {
    var c1 := [CallIndirect, LocalSet(2)] + rest;
    var st1 := st.(stack := Push(I32(idx), Push(I32(m), st.stack)));
    assert CallCode(idx) + rest == [LocalGet(0), I32Const(idx)] + c1;
    StepsTwo(LocalGet(0), I32Const(idx), st);
    ExecStraight(env, [LocalGet(0), I32Const(idx)], c1, st);
    assert c1[1..] == [LocalSet(2)] + rest;
    match CallBlock(env, idx, m, st.mem)
    case None =>
    case Some((v, mem')) =>
      var st2 := st.(stack := Push(v, st.stack), mem := mem');
      assert Exec(env, c1, st1) == Exec(env, c1[1..], st2);
      assert ([LocalSet(2)] + rest)[1..] == rest;
  }

  function Heights(n: nat, h: nat): (r: seq<nat>) { seq(n, _ => h) }

  lemma {:induction false} BlocksExec(env: Env, n: nat, rest: Code, st: State)
    ensures Exec(env, Blocks(n) + rest, st)
         == Exec(env, rest, st.(labels := st.labels + Heights(n, Height(st.stack))))
  {
    if n == 0 {
      assert Blocks(0) + rest == rest;
      assert st.labels + Heights(0, Height(st.stack)) == st.labels;
    } else {
      var h := Height(st.stack);
      var st1 := st.(labels := st.labels + [h]);
      assert (Blocks(n) + rest)[1..] == Blocks(n - 1) + rest;
      BlocksExec(env, n - 1, rest, st1);
      assert st1.labels + Heights(n - 1, h) == st.labels + Heights(n, h);
    }
  }

  /** A branch out of l + 1 of the n open blocks. */
  lemma {:induction false} JumpBlocks(env: Env, rest: Code, st: State, base: seq<nat>, n: nat, l: nat)
    requires st.labels == base + Heights(n, Height(st.stack)) && l < n
    ensures Jump(env, rest, st, l)
         == Exec(env, SkipOut(rest, l), st.(labels := base + Heights(n - 1 - l, Height(st.stack))))
  {
    var keep := |st.labels| - 1 - l;
    assert st.labels[keep] == Height(st.stack);
    assert st.labels[..keep] == base + Heights(n - 1 - l, Height(st.stack));
  }

  lemma {:induction false} SkipStraight(code: Code, rest: Code, d: nat)
    requires forall k | 0 <= k < |code| :: !code[k].Block? && !code[k].If? && !code[k].Loop? && !code[k].End?
    ensures SkipOut(code + rest, d) == SkipOut(rest, d)
    decreases |code|
  {
    if code == [] {
      assert code + rest == rest;
    } else {
      assert (code + rest)[1..] == code[1..] + rest;
      SkipStraight(code[1..], rest, d);
    }
  }

  lemma {:induction false} CasesShape(es: Entries, rest: Code)
    requires es != []
    ensures var handler := CallCode(es[0].idx) + [Br(|es| - 1)];
            && Cases(es) + rest == [End] + (handler + (Cases(es[1..]) + rest))
            && handler + (Cases(es[1..]) + rest) == handler + Cases(es[1..]) + rest
  {
  }

  /** Skipping over the first case handler. */
  lemma {:induction false} SkipHandler(es: Entries, rest: Code, d: nat)
    requires es != []
    ensures SkipOut(Cases(es) + rest, d)
         == if d == 0 then CallCode(es[0].idx) + [Br(|es| - 1)] + Cases(es[1..]) + rest
            else SkipOut(Cases(es[1..]) + rest, d - 1)
  {
    CasesShape(es, rest);
    SkipEnd(CallCode(es[0].idx) + [Br(|es| - 1)], Cases(es[1..]) + rest, d);
  }

  lemma {:induction false} SkipEnd(handler: Code, after: Code, d: nat)
    requires forall k | 0 <= k < |handler| ::
               !handler[k].Block? && !handler[k].If? && !handler[k].Loop? && !handler[k].End?
    ensures SkipOut([End] + (handler + after), d) == if d == 0 then handler + after else SkipOut(after, d - 1)
  {
    assert ([End] + (handler + after))[1..] == handler + after;
    if d > 0 { SkipStraight(handler, after, d - 1); }
  }

  /** Skipping into a case handler, and past all of them. */
  lemma {:induction false} SkipIntoCase(es: Entries, rest: Code, d: nat)
    requires d < |es|
    ensures SkipOut(Cases(es) + rest, d) == CallCode(es[d].idx) + [Br(|es| - 1 - d)] + Cases(es[d + 1..]) + rest
    decreases |es|
  {
    SkipHandler(es, rest, d);
    if d > 0 {
      SkipIntoCase(es[1..], rest, d - 1);
      assert es[1..][d - 1] == es[d] && es[1..][d..] == es[d + 1..];
    }
  }

  lemma {:induction false} SkipPastCases(es: Entries, rest: Code, d: nat)
    requires d >= |es|
    ensures SkipOut(Cases(es) + rest, d) == SkipOut(rest, d - |es|)
    decreases |es|
  {
    if es == [] {
      assert Cases(es) + rest == rest;
    } else {
      SkipHandler(es, rest, d);
      SkipPastCases(es[1..], rest, d - 1);
    }
  }

  /** The branch at the end of a handler leaves all the blocks. */
  lemma {:induction false} LeaveBlocks(env: Env, later: Entries, rest: Code, st: State, base: seq<nat>)
    requires st.labels == base + Heights(|later| + 1, Height(st.stack))
    ensures Exec(env, [Br(|later|)] + (Cases(later) + ([End] + rest)), st) == Exec(env, rest, st.(labels := base))
  {
    var tail := Cases(later) + ([End] + rest);
    assert ([Br(|later|)] + tail)[1..] == tail;
    JumpBlocks(env, tail, st, base, |later| + 1, |later|);
    SkipPastCases(later, [End] + rest, |later|);
    assert ([End] + rest)[1..] == rest;
    assert base + Heights(0, Height(st.stack)) == base;
  }

  /** A case handler calls its block and leaves all the blocks. */
  lemma {:induction false} CaseExec(env: Env, idx: u32, later: Entries, rest: Code, st: State, base: seq<nat>, m: u32)
    requires |st.locals| == 3 && st.locals[0] == I32(m)
    requires st.labels == base + Heights(|later| + 1, Height(st.stack))
    ensures Exec(env, CallCode(idx) + [Br(|later|)] + Cases(later) + [End] + rest, st)
         == match Handled(env, st.(labels := base), m, Some(idx)) {
              case None => Trap
              case Some(st') => Exec(env, rest, st')
            }
  {
    var tail := Cases(later) + ([End] + rest);
    assert CallCode(idx) + [Br(|later|)] + Cases(later) + [End] + rest == CallCode(idx) + ([Br(|later|)] + tail);
    CallCodeExec(env, idx, [Br(|later|)] + tail, st, m);
    if Handled(env, st, m, Some(idx)).Some? {
      var st' := Handled(env, st, m, Some(idx)).value;
      LeaveBlocks(env, later, rest, st', base);
    }
  }

  /** The default handler. */
  lemma {:induction false} DefaultExec(env: Env, es: Entries, rest: Code, st: State, base: seq<nat>)
    requires |st.locals| == 3
    requires st.labels == base + Heights(|es| + 1, Height(st.stack))
    ensures Exec(env, [I32Const(HALT), LocalSet(2), Br(|es|)] + Cases(es) + [End] + rest, st)
         == Exec(env, rest, st.(labels := base, locals := st.locals[2 := I32(HALT)]))
  {
    var tail := Cases(es) + ([End] + rest);
    var st' := st.(locals := st.locals[2 := I32(HALT)]);
    assert [I32Const(HALT), LocalSet(2), Br(|es|)] + Cases(es) + [End] + rest
        == [I32Const(HALT), LocalSet(2)] + ([Br(|es|)] + tail);
    StepsTwo(I32Const(HALT), LocalSet(2), st);
    ExecStraight(env, [I32Const(HALT), LocalSet(2)], [Br(|es|)] + tail, st);
    LeaveBlocks(env, es, rest, st', base);
  }

  // ---- the table index ----

  lemma {:induction false} ZerosBelow32(a: nat)
    requires 0 < a < TWO31
    ensures TrailingZeros(a) < 32
  {
    Pow2Values();
    if TrailingZeros(a) >= 32 { Pow2Grows(32, TrailingZeros(a)); }
  }

  lemma {:induction false} Pow2Grows(a: nat, b: nat)
    requires a <= b
    ensures Pow2(a) <= Pow2(b)
    decreases b
  {
    if a < b { Pow2Grows(a, b - 1); }
  }

  lemma {:induction false} Const32Steps(c: u32, bin: Bin, d: u32, r: u32, st: State)
    requires Bin32(bin, d, c) == Some(r)
    ensures AllStraight([I32Const(c), I32Bin(bin)])
    ensures Steps([I32Const(c), I32Bin(bin)], st.(stack := Push(I32(d), st.stack)))
         == Some(st.(stack := Push(I32(r), st.stack)))
  {
    StepsTwo(I32Const(c), I32Bin(bin), st.(stack := Push(I32(d), st.stack)));
  }

  /** The shift, the division or nothing at all divides by the alignment. */
  lemma {:induction false} DivOpCorrect(align: nat, d: u32, r: u32)
    requires 0 < align < TWO31 && r == Quot(d, align)
    ensures match DivOp(align) case None => r == d case Some((c, op)) => Bin32(op, d, c) == Some(r)
  {
    if DivOp(align).None? {
      QuotBound(d, align);
    } else if DivOp(align).value.1 == ShrU {
      ZerosBelow32(align);
      ShiftBin(d, TrailingZeros(align), align);
    }
  }

  lemma {:induction false} DivSteps(align: nat, d: u32, r: u32, st: State)
    requires 0 < align < TWO31 && r == Quot(d, align)
    ensures AllStraight(DivCode(align))
    ensures Steps(DivCode(align), st.(stack := Push(I32(d), st.stack))) == Some(st.(stack := Push(I32(r), st.stack)))
  {
    DivOpCorrect(align, d, r);
    match DivOp(align)
    case None =>
    case Some((c, op)) => Const32Steps(c, op, d, r, st);
  }

  lemma {:induction false} QuotBound(d: nat, a: nat)
    requires a > 0
    ensures Quot(d, a) <= d && (a == 1 ==> Quot(d, a) == d)
    decreases d
  {
    if d >= a { QuotBound(d - a, a); }
  }

  lemma {:induction false} ShiftBin(d: u32, z: nat, align: nat)
    requires z < 32 && align == Pow2(z)
    ensures Bin32(ShrU, d, z) == Some(Quot(d, align))
  {
    QuotBound(d, align);
    ShiftIsQuot(d, z, align);
  }

  lemma {:induction false} ShiftIsQuot(d: nat, z: nat, align: nat)
    requires align == Pow2(z)
    ensures ShiftRight(d, z) == Quot(d, align)
  {
    ShiftRightIsQuotient(d, z);
    QuotIsQuotient(d, align);
  }

  lemma {:induction false} SubSteps(base: u64, st: State, m: u32, pc: u32)
    requires AtPc(st, m, pc) && base < TWO31
    ensures AllStraight([LocalGet(2), I32Const(Wrap32(base)), I32Bin(Sub)])
    ensures Steps([LocalGet(2), I32Const(Wrap32(base)), I32Bin(Sub)], st)
         == Some(st.(stack := Push(I32(Wrap32(pc - base)), st.stack)))
  {
    var sub := [LocalGet(2), I32Const(Wrap32(base)), I32Bin(Sub)];
    var st1 := st.(stack := Push(I32(pc), st.stack));
    assert sub[1..] == [I32Const(Wrap32(base)), I32Bin(Sub)];
    SubBin(pc, base);
    StepsTwo(I32Const(Wrap32(base)), I32Bin(Sub), st1);
  }

  lemma {:induction false} SubBin(pc: u32, base: u64)
    ensures Bin32(Sub, pc, Wrap32(base)) == Some(Wrap32(pc - base))
  {
    var k := base / TWO32;
    assert pc - Wrap32(base) == (pc - base) + TWO32 * k;
  }

  lemma {:induction false} IndexSteps(base: u64, align: nat, st: State, m: u32, pc: u32)
    requires AtPc(st, m, pc) && 0 < align < TWO31 && base < TWO31
    ensures AllStraight(IndexCode(base, align))
    ensures Quot(Wrap32(pc - base), align) < TWO32
    ensures Steps(IndexCode(base, align), st)
         == Some(st.(stack := Push(I32(Quot(Wrap32(pc - base), align)), st.stack)))
  {
    var d := Wrap32(pc - base);
    SubSteps(base, st, m, pc);
    QuotBound(d, align);
    DivSteps(align, d, Quot(d, align), st);
    Compose([LocalGet(2), I32Const(Wrap32(base)), I32Bin(Sub)], DivCode(align), st,
            st.(stack := Push(I32(d), st.stack)), Some(st.(stack := Push(I32(Quot(d, align)), st.stack))));
  }

  /** The case the branch table reaches for `pc`: rounding down to the alignment. */
  function BrCase(es: Entries, align: nat, pc: u32): Option<nat>
    requires es != [] && align > 0
  {
    var base := es[0].addr;
    if pc < base then None else CaseOf(es, base + Times(align, Quot(pc - base, align)))
  }

  function Depth(c: Option<nat>): nat { match c case None => 0 case Some(j) => j + 1 }

  /** Rounding down to a multiple. */
  lemma {:induction false} FloorBounds(d: nat, align: nat)
    requires align > 0
    ensures Times(align, Quot(d, align)) <= d < Times(align, Quot(d, align)) + align
    decreases d
  {
    if d >= align { FloorBounds(d - align, align); }
  }

  lemma {:induction false} TimesMono(a: nat, p: nat, q: nat)
    requires p <= q
    ensures Times(a, p) <= Times(a, q)
    decreases q
  {
    if p < q { TimesMono(a, p, q - 1); }
  }

  /** Below the base the 32-bit index wraps past the table. */
  lemma {:induction false} BelowTable(es: Entries, align: nat, pc: u32, q: nat)
    requires es != [] && Sorted(es) && 0 < align < TWO31 && pc < es[0].addr && q == Quot(Wrap32(pc - es[0].addr), align)
    ensures q >= TableSize(es, align)
  {
    var span, size := es[|es| - 1].addr - es[0].addr, TableSize(es, align);
    FloorBounds(Wrap32(pc - es[0].addr), align);
    FloorBounds(span, align);
    if q < size { TimesMono(align, q, size - 1); }
  }

  /** The slot selected for `pc`, including 32-bit wrap-around below the base. */
  lemma {:induction false} SlotFor(es: Entries, align: nat, pc: u32)
    requires es != [] && Sorted(es) && 0 < align < TWO31 && Aligned(es, align) && pc < TWO31
    ensures var q, size := Quot(Wrap32(pc - es[0].addr), align), TableSize(es, align);
            var ts := Targets(es, es[0].addr, align, size);
            (if q < size then ts[q] else 0) == Depth(BrCase(es, align, pc))
  {
    var q := Quot(Wrap32(pc - es[0].addr), align);
    if pc < es[0].addr {
      BelowTable(es, align, pc, q);
    } else if q >= TableSize(es, align) {
      PastTable(es, align, pc, q);
    }
  }

  /** Beyond the last slot there is no entry. */
  lemma {:induction false} PastTable(es: Entries, align: nat, pc: u32, q: nat)
    requires es != [] && Sorted(es) && align > 0 && pc >= es[0].addr && q == Quot(pc - es[0].addr, align)
             && q >= TableSize(es, align)
    ensures CaseOf(es, es[0].addr + Times(align, q)) == None
  {
    var span, size := es[|es| - 1].addr - es[0].addr, TableSize(es, align);
    FloorBounds(span, align);
    TimesMono(align, size, q);
  }

  /** The code after the br_table instruction. */
  function Handlers(es: Entries, rest: Code): Code {
    [End, I32Const(HALT), LocalSet(2), Br(|es|)] + Cases(es) + [End] + rest
  }

  lemma {:induction false} BrTableShape(es: Entries, align: nat, size: nat, rest: Code)
    requires es != [] && 0 < align < TWO31
    ensures BrTableCode(es, align, size) + rest
         == Blocks(|es| + 2) + (IndexCode(es[0].addr, align)
                                + ([BrTable(Targets(es, es[0].addr, align, size), 0)] + Handlers(es, rest)))
  {
  }

  lemma {:induction false} TableJump(env: Env, ts: seq<nat>, rest: Code, st: State, q: u32)
    ensures Exec(env, [BrTable(ts, 0)] + rest, st.(stack := Push(I32(q), st.stack)))
         == Jump(env, rest, st, if q < |ts| then ts[q] else 0)
  {
    assert ([BrTable(ts, 0)] + rest)[1..] == rest;
  }

  lemma {:induction false} IndexJump(env: Env, base: u64, align: nat, ts: seq<nat>, hs: Code, st: State, m: u32,
                                     pc: u32)
    requires AtPc(st, m, pc) && 0 < align < TWO31 && base < TWO31
    ensures var q := Quot(Wrap32(pc - base), align);
            Exec(env, IndexCode(base, align) + ([BrTable(ts, 0)] + hs), st)
            == Jump(env, hs, st, if q < |ts| then ts[q] else 0)
  {
    IndexSteps(base, align, st, m, pc);
    ExecStraight(env, IndexCode(base, align), [BrTable(ts, 0)] + hs, st);
    TableJump(env, ts, hs, st, Quot(Wrap32(pc - base), align));
  }

  /** Up to the br_table: all blocks open, and a jump to the selected depth. */
  lemma {:induction false} OpenAndJump(env: Env, n: nat, base: u64, align: nat, ts: seq<nat>, hs: Code,
                                       l: nat, st: State, m: u32, pc: u32)
    requires AtPc(st, m, pc) && 0 < align < TWO31 && base < TWO31
    requires l == var q := Quot(Wrap32(pc - base), align); if q < |ts| then ts[q] else 0
    ensures Exec(env, Blocks(n) + (IndexCode(base, align) + ([BrTable(ts, 0)] + hs)), st)
         == Jump(env, hs, st.(labels := st.labels + Heights(n, Height(st.stack))), l)
  {
    BlocksExec(env, n, IndexCode(base, align) + ([BrTable(ts, 0)] + hs), st);
    IndexJump(env, base, align, ts, hs, st.(labels := st.labels + Heights(n, Height(st.stack))), m, pc);
  }

  lemma {:induction false} ReachTable(env: Env, es: Entries, align: nat, rest: Code, st: State, m: u32, pc: u32)
    requires AtPc(st, m, pc) && pc < TWO31
    requires es != [] && Sorted(es) && 0 < align < TWO31 && Aligned(es, align)
    ensures Exec(env, BrTableCode(es, align, TableSize(es, align)) + rest, st)
         == Jump(env, Handlers(es, rest), st.(labels := st.labels + Heights(|es| + 2, Height(st.stack))),
                 Depth(BrCase(es, align, pc)))
  {
    var size, depth := TableSize(es, align), Depth(BrCase(es, align, pc));
    var ts := Targets(es, es[0].addr, align, size);
    assert depth == var q := Quot(Wrap32(pc - es[0].addr), align); if q < |ts| then ts[q] else 0 by {
      SlotFor(es, align, pc);
    }
    BrTableShape(es, align, size, rest);
    OpenAndJump(env, |es| + 2, es[0].addr, align, ts, Handlers(es, rest), depth, st, m, pc);
  }

  /** Where a jump of depth 0, or j + 1, continues. */
  lemma {:induction false} SkipToDefault(es: Entries, rest: Code)
    ensures SkipOut(Handlers(es, rest), 0) == [I32Const(HALT), LocalSet(2), Br(|es|)] + Cases(es) + [End] + rest
  {
    var hs := Handlers(es, rest);
    assert hs[0] == End && hs[1..] == [I32Const(HALT), LocalSet(2), Br(|es|)] + Cases(es) + [End] + rest;
  }

  lemma {:induction false} SkipToCase(es: Entries, rest: Code, j: nat)
    requires j < |es|
    ensures SkipOut(Handlers(es, rest), j + 1)
         == CallCode(es[j].idx) + [Br(|es| - 1 - j)] + Cases(es[j + 1..]) + [End] + rest
  {
    var hs, inner := Handlers(es, rest), [I32Const(HALT), LocalSet(2), Br(|es|)];
    assert hs[0] == End && hs[1..] == inner + (Cases(es) + ([End] + rest));
    SkipStraight(inner, Cases(es) + ([End] + rest), j);
    SkipIntoCase(es, [End] + rest, j);
    var front := CallCode(es[j].idx) + [Br(|es| - 1 - j)] + Cases(es[j + 1..]);
    assert front + ([End] + rest) == front + [End] + rest;
  }

  /** From the jump to the end of the handlers. */
  lemma {:induction false} ReachDefault(env: Env, es: Entries, rest: Code, st: State)
    requires |st.locals| == 3
    ensures Jump(env, Handlers(es, rest), st.(labels := st.labels + Heights(|es| + 2, Height(st.stack))), 0)
         == Exec(env, rest, st.(locals := st.locals[2 := I32(HALT)]))
  {
    var n, h, base := |es|, Height(st.stack), st.labels;
    JumpBlocks(env, Handlers(es, rest), st.(labels := base + Heights(n + 2, h)), base, n + 2, 0);
    SkipToDefault(es, rest);
    DefaultExec(env, es, rest, st.(labels := base + Heights(n + 1, h)), base);
  }

  lemma {:induction false} ReachCase(env: Env, es: Entries, j: nat, rest: Code, st: State, m: u32)
    requires |st.locals| == 3 && st.locals[0] == I32(m) && j < |es|
    ensures Jump(env, Handlers(es, rest), st.(labels := st.labels + Heights(|es| + 2, Height(st.stack))), j + 1)
         == match Handled(env, st, m, Some(es[j].idx)) { case None => Trap case Some(st') => Exec(env, rest, st') }
  {
    var n, h, base := |es|, Height(st.stack), st.labels;
    JumpBlocks(env, Handlers(es, rest), st.(labels := base + Heights(n + 2, h)), base, n + 2, j + 1);
    SkipToCase(es, rest, j);
    CaseExec(env, es[j].idx, es[j + 1..], rest, st.(labels := base + Heights(n - j, h)), base, m);
  }

  /** The whole branch-table code reaches the handler of the case, and then `rest`. */
  lemma {:induction false} BrTableExec(env: Env, es: Entries, align: nat, rest: Code, st: State, m: u32, pc: u32)
    requires AtPc(st, m, pc) && pc < TWO31
    requires es != [] && Sorted(es) && 0 < align < TWO31 && Aligned(es, align)
    ensures Exec(env, BrTableCode(es, align, TableSize(es, align)) + rest, st)
         == match Handled(env, st, m, IndexOf(es, BrCase(es, align, pc))) {
              case None => Trap
              case Some(st') => Exec(env, rest, st')
            }
  {
    ReachTable(env, es, align, rest, st, m, pc);
    match BrCase(es, align, pc)
    case None => ReachDefault(env, es, rest, st);
    case Some(j) => ReachCase(env, es, j, rest, st, m);
  }

  function IndexOf(es: Entries, c: Option<nat>): Option<u32>
    requires c.Some? ==> c.value < |es|
  {
    match c case None => None case Some(j) => Some(es[j].idx)
  }

  // ---- the chain of tests ----

  /** The first entry whose address, as an i32, is the pc. */
  function TestCase(es: Entries, pc: u32): (r: Option<nat>)
    ensures r.Some? ==> r.value < |es|
  {
    if es == [] then None
    else if Wrap32(es[0].addr) == pc then Some(0)
    else match TestCase(es[1..], pc) case None => None case Some(j) => Some(j + 1)
  }

  lemma {:induction false} TestSteps(addr: u64, st: State, m: u32, pc: u32)
    requires AtPc(st, m, pc)
    ensures AllStraight([LocalGet(2), I32Const(Wrap32(addr)), I32Rel(Eq)])
    ensures Steps([LocalGet(2), I32Const(Wrap32(addr)), I32Rel(Eq)], st)
         == Some(st.(stack := Push(Flag(pc == Wrap32(addr)), st.stack)))
  {
    assert [LocalGet(2), I32Const(Wrap32(addr)), I32Rel(Eq)][1..] == [I32Const(Wrap32(addr)), I32Rel(Eq)];
    StepsTwo(I32Const(Wrap32(addr)), I32Rel(Eq), st.(stack := Push(I32(pc), st.stack)));
  }

  /** One test: continue the loop through its block, or go on to the next test. */
  lemma {:induction false} OneTest(env: Env, e: Entry, rest: Code, st: State, m: u32, pc: u32)
    requires AtPc(st, m, pc) && st.labels == []
    ensures Exec(env, [LocalGet(2), I32Const(Wrap32(e.addr)), I32Rel(Eq), If] + CallCode(e.idx)
                      + [Br(1), End] + rest, st)
         == if pc == Wrap32(e.addr)
            then (match Handled(env, st, m, Some(e.idx)) case None => Trap case Some(st') => Branch(0, st'))
            else Exec(env, rest, st)
  {
    var test := [LocalGet(2), I32Const(Wrap32(e.addr)), I32Rel(Eq)];
    var body := CallCode(e.idx) + ([Br(1), End] + rest);
    assert [LocalGet(2), I32Const(Wrap32(e.addr)), I32Rel(Eq), If] + CallCode(e.idx) + [Br(1), End] + rest
        == test + ([If] + body);
    TestSteps(e.addr, st, m, pc);
    ExecStraight(env, test, [If] + body, st);
    assert ([If] + body)[1..] == body;
    if pc == Wrap32(e.addr) {
      var st1 := st.(labels := [Height(st.stack)]);
      assert [] + [Height(st.stack)] == [Height(st.stack)];
      CallCodeExec(env, e.idx, [Br(1), End] + rest, st1, m);
    } else {
      SkipIf(e.idx, rest);
    }
  }

  lemma {:induction false} SkipIf(idx: u32, rest: Code)
    ensures SkipOut(CallCode(idx) + ([Br(1), End] + rest), 0) == rest
  {
    var handler := CallCode(idx) + [Br(1)];
    assert CallCode(idx) + ([Br(1), End] + rest) == handler + ([End] + rest);
    SkipStraight(handler, [End] + rest, 0);
    assert ([End] + rest)[1..] == rest;
  }

  lemma {:induction false} IfElseExec(env: Env, es: Entries, rest: Code, st: State, m: u32, pc: u32)
    requires AtPc(st, m, pc) && st.labels == []
    ensures Exec(env, IfElseCode(es) + rest, st)
         == match TestCase(es, pc)
            case None => Exec(env, rest, st.(locals := st.locals[2 := I32(HALT)]))
            case Some(j) =>
              (match Handled(env, st, m, Some(es[j].idx)) case None => Trap case Some(st') => Branch(0, st'))
    decreases |es|
  {
    var halt := [I32Const(HALT), LocalSet(2)];
    if es == [] {
      assert IfElseCode(es) + rest == halt + rest;
      StepsTwo(I32Const(HALT), LocalSet(2), st);
      ExecStraight(env, halt, rest, st);
    } else {
      var next := IfElseCode(es[1..]) + rest;
      var one := [LocalGet(2), I32Const(Wrap32(es[0].addr)), I32Rel(Eq), If] + CallCode(es[0].idx) + [Br(1), End];
      assert IfElseCode(es) + rest == one + next;
      OneTest(env, es[0], next, st, m, pc);
      if pc != Wrap32(es[0].addr) { IfElseExec(env, es[1..], rest, st, m, pc); }
    }
  }

  // ---- agreement ----

  /** On a sorted list the tests find the entry at the pc, if there is one. */
  lemma {:induction false} TestCaseIsCaseOf(es: Entries, pc: u32)
    requires Sorted(es)
    ensures TestCase(es, pc) == CaseOf(es, pc)
  {
    TestCaseFinds(es, pc);
    if CaseOf(es, pc).Some? {
      var j := CaseOf(es, pc).value;
      assert es[j].addr == pc;
    }
  }

  lemma {:induction false} TestCaseFinds(es: Entries, pc: u32)
    requires forall k | 0 <= k < |es| :: es[k].addr < TWO31
    ensures TestCase(es, pc).Some? ==> es[TestCase(es, pc).value].addr == pc
    ensures TestCase(es, pc).None? ==> forall k | 0 <= k < |es| :: es[k].addr != pc
    decreases |es|
  {
    if es != [] {
      assert forall k | 0 <= k < |es[1..]| :: es[1..][k] == es[k + 1];
      TestCaseFinds(es[1..], pc);
      if TestCase(es, pc).None? {
        forall k | 0 <= k < |es| ensures es[k].addr != pc {
          if k > 0 { assert es[1..][k - 1].addr != pc; }
        }
      }
    }
  }

  /** The pc lies strictly inside the slot of a block. */
  predicate InsideSlot(es: Entries, align: nat, pc: u32) {
    exists k :: 0 <= k < |es| && es[k].addr < pc < es[k].addr + align
  }

  /** The branch table picks the block the tests pick exactly when the pc is not strictly
      inside a block's slot. */
  lemma {:induction false} SameCase(es: Entries, align: nat, pc: u32)
    requires es != [] && Sorted(es) && align > 0 && Aligned(es, align)
    ensures BrCase(es, align, pc) == TestCase(es, pc) <==> !InsideSlot(es, align, pc)
  {
    TestCaseIsCaseOf(es, pc);
    if pc >= es[0].addr {
      var low := es[0].addr + Times(align, Quot(pc - es[0].addr, align));
      OnlySlot(es, align, pc, low);
      SameCaseAt(es, align, pc, low);
    }
  }

  /** The only slot that can hold the pc. */
  lemma {:induction false} OnlySlot(es: Entries, align: nat, pc: u32, low: int)
    requires es != [] && align > 0 && Aligned(es, align) && pc >= es[0].addr
    requires low == es[0].addr + Times(align, Quot(pc - es[0].addr, align))
    ensures low <= pc < low + align
    ensures forall k | 0 <= k < |es| && es[k].addr <= pc < es[k].addr + align :: es[k].addr == low
  {
    FloorBounds(pc - es[0].addr, align);
    forall k | 0 <= k < |es| && es[k].addr <= pc < es[k].addr + align ensures es[k].addr == low {
      SlotStart(es[0].addr, align, es[k].addr, pc);
    }
  }

  lemma {:induction false} SameCaseAt(es: Entries, align: nat, pc: u32, low: int)
    requires low <= pc < low + align
    requires forall k | 0 <= k < |es| && es[k].addr <= pc < es[k].addr + align :: es[k].addr == low
    requires forall j, k | 0 <= j < k < |es| :: es[j].addr < es[k].addr
    ensures CaseOf(es, low) == CaseOf(es, pc) <==> !InsideSlot(es, align, pc)
  {
    if low < pc && CaseOf(es, low).Some? {
      var k := CaseOf(es, low).value;
      assert es[k].addr < pc < es[k].addr + align;
    }
  }

  lemma {:induction false} SlotStart(base: int, align: nat, a: int, pc: int)
    requires align > 0 && Divides(align, a - base) && a <= pc < a + align && base <= pc
    ensures a == base + Times(align, Quot(pc - base, align))
  {
    var j := (a - base) / align;
    assert a - base == align * j;
    DivModUnique(pc - base, align, j, pc - a);
    QuotIsQuotient(pc - base, align);
    TimesIsProduct(align, j);
  }

  /** In particular for every pc below the first block or a multiple of the alignment
      above it. */
  lemma {:induction false} SameCaseAligned(es: Entries, align: nat, pc: u32)
    requires es != [] && Sorted(es) && align > 0 && Aligned(es, align)
    requires pc < es[0].addr || Divides(align, pc - es[0].addr)
    ensures BrCase(es, align, pc) == TestCase(es, pc)
  {
    if InsideSlot(es, align, pc) {
      var k :| 0 <= k < |es| && es[k].addr < pc < es[k].addr + align;
      assert Divides(align, es[k].addr - es[0].addr);
      DivSum(align, pc - es[0].addr, es[k].addr - es[0].addr, -1);
      DivBound(align, pc - es[k].addr);
    }
    SameCase(es, align, pc);
  }
}
