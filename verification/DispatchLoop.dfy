/** The dispatch function, one loop iteration at a time. */
module DispatchLoop {
  import opened Words
  import opened Memory
  import opened Wasm
  import opened Translate
  import opened Terminators
  import opened Dispatch
  import opened DispatchProof

  const HALT_CHECK: Code := [LocalGet(2), I32Const(HALT), I32Rel(Eq), If, I32Const(0), Return, End]

  const SYSCALL_CHECK: Code :=
    [LocalGet(2), I32Const(SYSCALL_FLAG), I32Bin(Logic(And)), If,
     LocalGet(0), LocalGet(2), Call(0), LocalSet(2), Br(1), End]

  /** Everything between Loop and its End. */
  function LoopBody(dispatch: Code): Code { HALT_CHECK + SYSCALL_CHECK + dispatch + [Br(0)] }

  /** Going round the loop again with the state a handler left. */
  ghost function Continue(r: Option<State>): Outcome {
    match r case None => Trap case Some(st) => Branch(0, st)
  }

  lemma {:induction false} HaltTest(st: State, m: u32, pc: u32)
    requires AtPc(st, m, pc)
    ensures AllStraight([LocalGet(2), I32Const(HALT), I32Rel(Eq)])
    ensures Steps([LocalGet(2), I32Const(HALT), I32Rel(Eq)], st) == Some(st.(stack := Push(Flag(pc == HALT), st.stack)))
  {
    assert [LocalGet(2), I32Const(HALT), I32Rel(Eq)][1..] == [I32Const(HALT), I32Rel(Eq)];
    StepsTwo(I32Const(HALT), I32Rel(Eq), st.(stack := Push(I32(pc), st.stack)));
  }

  lemma {:induction false} IfExec(env: Env, body: Code, st: State, b: bool)
    ensures Exec(env, [If] + body, st.(stack := Push(Flag(b), st.stack)))
         == if b then Exec(env, body, st.(labels := st.labels + [Height(st.stack)]))
            else Exec(env, SkipOut(body, 0), st)
  {
    assert ([If] + body)[1..] == body;
  }

  lemma {:induction false} HaltExec(env: Env, rest: Code, st: State, m: u32, pc: u32)
    requires AtPc(st, m, pc) && st.labels == []
    ensures Exec(env, HALT_CHECK + rest, st) == if pc == HALT then Returned(I32(0), st.mem) else Exec(env, rest, st)
  {
    var test := [LocalGet(2), I32Const(HALT), I32Rel(Eq)];
    var body := [I32Const(0), Return, End] + rest;
    assert HALT_CHECK + rest == test + ([If] + body);
    HaltTest(st, m, pc);
    ExecStraight(env, test, [If] + body, st);
    IfExec(env, body, st, pc == HALT);
    if pc == HALT {
      ReturnZero(env, rest, st.(labels := st.labels + [Height(st.stack)]));
    } else {
      SkipReturn(rest);
    }
  }

  lemma {:induction false} SkipReturn(rest: Code)
    ensures SkipOut([I32Const(0), Return, End] + rest, 0) == rest
  {
    SkipStraight([I32Const(0), Return], [End] + rest, 0);
    assert [I32Const(0), Return] + ([End] + rest) == [I32Const(0), Return, End] + rest && ([End] + rest)[1..] == rest;
  }

  lemma {:induction false} ReturnZero(env: Env, rest: Code, st: State)
    ensures Exec(env, [I32Const(0), Return, End] + rest, st) == Returned(I32(0), st.mem)
  {
    var code, c1 := [I32Const(0), Return, End] + rest, [Return, End] + rest;
    assert code[1..] == c1;
    assert Exec(env, code, st) == Exec(env, c1, st.(stack := Push(I32(0), st.stack)));
  }

  lemma {:induction false} FlagSteps(st: State, m: u32, pc: u32)
    requires AtPc(st, m, pc)
    ensures AllStraight([LocalGet(2), I32Const(SYSCALL_FLAG), I32Bin(Logic(And))])
    ensures Steps([LocalGet(2), I32Const(SYSCALL_FLAG), I32Bin(Logic(And))], st)
         == Some(st.(stack := Push(I32(if pc >= TWO31 then TWO31 else 0), st.stack)))
  {
    var code := [LocalGet(2), I32Const(SYSCALL_FLAG), I32Bin(Logic(And))];
    assert code[1..] == [I32Const(SYSCALL_FLAG), I32Bin(Logic(And))];
    FlagBin(pc);
    Const32Steps(SYSCALL_FLAG, Logic(And), pc, if pc >= TWO31 then TWO31 else 0, st);
  }

  lemma {:induction false} FlagBin(pc: u32)
    ensures Bin32(Logic(And), pc, SYSCALL_FLAG) == Some(if pc >= TWO31 then TWO31 else 0)
  {
    TestSign(pc, SYSCALL_FLAG);
    AndBin(pc, SYSCALL_FLAG);
  }

  lemma {:induction false} AndBin(a: u32, b: u32)
    ensures Bin32(Logic(And), a, b) == Some(Bits32(And, a, b))
  {
  }

  /** The state after the syscall handler. */
  ghost function Serviced(env: Env, st: State, m: u32, pc: u32): Option<State>
    requires |st.locals| == 3
  {
    if env.Top? then
      var (v, mem') := (env.syscall)(st.mem, m, pc);
      Some(st.(locals := st.locals[2 := I32(v)], mem := mem'))
    else None
  }

  lemma {:induction false} SyscallBody(env: Env, rest: Code, st: State, m: u32, pc: u32)
    requires AtPc(st, m, pc) && |st.labels| == 1
    ensures Exec(env, [LocalGet(0), LocalGet(2), Call(0), LocalSet(2), Br(1), End] + rest, st)
         == Continue(Serviced(env, st.(labels := []), m, pc))
  {
    var c1 := [Call(0), LocalSet(2), Br(1), End] + rest;
    assert [LocalGet(0), LocalGet(2), Call(0), LocalSet(2), Br(1), End] + rest == [LocalGet(0), LocalGet(2)] + c1;
    StepsTwo(LocalGet(0), LocalGet(2), st);
    ExecStraight(env, [LocalGet(0), LocalGet(2)], c1, st);
    if env.Top? {
      var (v, mem') := (env.syscall)(st.mem, m, pc);
      var c2, c3 := [LocalSet(2), Br(1), End] + rest, [Br(1), End] + rest;
      assert c1[1..] == c2 && c2[1..] == c3;
      var st1 := st.(stack := Push(I32(v), st.stack), mem := mem');
      var st2 := st.(locals := st.locals[2 := I32(v)], mem := mem');
      assert Exec(env, c1, st.(stack := Push(I32(pc), Push(I32(m), st.stack)))) == Exec(env, c2, st1);
      assert Exec(env, c2, st1) == Exec(env, c3, st2);
      assert Jump(env, c3[1..], st2, 1) == Branch(0, st2.(labels := []));
    }
  }

  lemma {:induction false} SyscallExec(env: Env, rest: Code, st: State, m: u32, pc: u32)
    requires AtPc(st, m, pc) && st.labels == []
    ensures Exec(env, SYSCALL_CHECK + rest, st)
         == if pc >= TWO31 then Continue(Serviced(env, st, m, pc)) else Exec(env, rest, st)
  {
    var test := [LocalGet(2), I32Const(SYSCALL_FLAG), I32Bin(Logic(And))];
    var body := [LocalGet(0), LocalGet(2), Call(0), LocalSet(2), Br(1), End] + rest;
    assert SYSCALL_CHECK + rest == test + ([If] + body);
    FlagSteps(st, m, pc);
    ExecStraight(env, test, [If] + body, st);
    assert ([If] + body)[1..] == body;
    if pc >= TWO31 {
      SyscallBody(env, rest, st.(labels := st.labels + [Height(st.stack)]), m, pc);
      assert st.(labels := []) == st;
    } else {
      var inner := [LocalGet(0), LocalGet(2), Call(0), LocalSet(2), Br(1)];
      assert body == inner + ([End] + rest);
      SkipStraight(inner, [End] + rest, 0);
      assert ([End] + rest)[1..] == rest;
    }
  }

  /** One iteration: halt, service a syscall, or dispatch. */
  lemma {:induction false} IterationExec(env: Env, dispatch: Code, st: State, m: u32, pc: u32)
    requires AtPc(st, m, pc) && st.labels == []
    ensures Exec(env, LoopBody(dispatch), st)
         == if pc == HALT then Returned(I32(0), st.mem)
            else if pc >= TWO31 then Continue(Serviced(env, st, m, pc))
            else Exec(env, dispatch + [Br(0)], st)
  {
    var rest := dispatch + [Br(0)];
    assert LoopBody(dispatch) == HALT_CHECK + (SYSCALL_CHECK + rest);
    HaltExec(env, SYSCALL_CHECK + rest, st, m, pc);
    SyscallExec(env, rest, st, m, pc);
  }

  lemma {:induction false} LoopAgain(env: Env, st: State)
    requires st.labels == []
    ensures Exec(env, [Br(0)], st) == Branch(0, st)
  {
    assert st.(labels := []) == st;
  }

  /** Both sparse forms continue with the block at the pc, or halt if there is none. */
  lemma {:induction false} IfElseIteration(env: Env, es: Entries, st: State, m: u32, pc: u32)
    requires AtPc(st, m, pc) && st.labels == [] && Sorted(es)
    ensures Exec(env, IfElseCode(es) + [Br(0)], st) == Continue(Handled(env, st, m, IndexOf(es, CaseOf(es, pc))))
  {
    IfElseExec(env, es, [Br(0)], st, m, pc);
    TestCaseIsCaseOf(es, pc);
    LoopAgain(env, st.(locals := st.locals[2 := I32(HALT)]));
  }

  lemma {:induction false} BrTableIteration(env: Env, es: Entries, align: nat, st: State, m: u32, pc: u32)
    requires AtPc(st, m, pc) && st.labels == [] && pc < TWO31
    requires es != [] && Sorted(es) && 0 < align < TWO31 && Aligned(es, align)
    requires !InsideSlot(es, align, pc)
    ensures Exec(env, BrTableCode(es, align, TableSize(es, align)) + [Br(0)], st)
         == Continue(Handled(env, st, m, IndexOf(es, CaseOf(es, pc))))
  {
    SameCase(es, align, pc);
    TestCaseIsCaseOf(es, pc);
    BrTableExec(env, es, align, [Br(0)], st, m, pc);
    var r := Handled(env, st, m, IndexOf(es, CaseOf(es, pc)));
    if r.Some? { LoopAgain(env, r.value); }
  }

  // ---- the dense form ----

  /** Blocks in address order carry their position as table index. */
  predicate Numbered(es: Entries) { forall k | 0 <= k < |es| :: es[k].idx == k }

  function DenseCode(base: u64): Code {
    [LocalGet(0), LocalGet(2), I32Const(Wrap32(base)), I32Bin(Sub), I32Const(2), I32Bin(ShrU), CallIndirect,
     LocalSet(2)]
  }

  function DenseIndex(base: u64, pc: u32): u32 { Wrap32(pc - base) / 4 }

  /** can_use_dense_table. */
  predicate CanUseDense(es: Entries)
    requires Sorted(es)
  {
    |es| <= 1 || (es[|es| - 1].addr - es[0].addr) / 4 + 1 <= 2 * |es|
  }

  lemma {:induction false} Quarter(a: u32)
    ensures Bin32(ShrU, a, 2) == Some(a / 4)
  {
    ShiftRightIsQuotient(a, 2);
  }

  lemma {:induction false} DenseSteps(base: u64, st: State, m: u32, pc: u32)
    requires AtPc(st, m, pc)
    ensures var code := [LocalGet(0), LocalGet(2), I32Const(Wrap32(base)), I32Bin(Sub), I32Const(2), I32Bin(ShrU)];
            && AllStraight(code)
            && Steps(code, st) == Some(st.(stack := Push(I32(DenseIndex(base, pc)), Push(I32(m), st.stack))))
  {
    var c1 := [LocalGet(0), LocalGet(2)];
    var c2 := [I32Const(Wrap32(base)), I32Bin(Sub)];
    var c3 := [I32Const(2), I32Bin(ShrU)];
    var st1 := st.(stack := Push(I32(pc), Push(I32(m), st.stack)));
    var st2 := st.(stack := Push(I32(Wrap32(pc - base)), Push(I32(m), st.stack)));
    StepsTwo(LocalGet(0), LocalGet(2), st);
    SubBin(pc, base);
    StepsTwo(I32Const(Wrap32(base)), I32Bin(Sub), st1);
    Quarter(Wrap32(pc - base));
    StepsTwo(I32Const(2), I32Bin(ShrU), st2);
    Compose(c1, c2, st, st1, Some(st2));
    Compose(c1 + c2, c3, st, st2, Some(st.(stack := Push(I32(DenseIndex(base, pc)), Push(I32(m), st.stack)))));
    assert c1 + c2 + c3 == [LocalGet(0), LocalGet(2), I32Const(Wrap32(base)), I32Bin(Sub), I32Const(2), I32Bin(ShrU)];
  }

  /** The dense form calls the function at index (pc - base) / 4. */
  lemma {:induction false} DenseIteration(env: Env, base: u64, st: State, m: u32, pc: u32)
    requires AtPc(st, m, pc) && st.labels == []
    ensures Exec(env, DenseCode(base) + [Br(0)], st) == Continue(Handled(env, st, m, Some(DenseIndex(base, pc))))
  {
    var head := [LocalGet(0), LocalGet(2), I32Const(Wrap32(base)), I32Bin(Sub), I32Const(2), I32Bin(ShrU)];
    var idx := DenseIndex(base, pc);
    var tail := [CallIndirect, LocalSet(2)] + [Br(0)];
    assert DenseCode(base) + [Br(0)] == head + tail;
    DenseSteps(base, st, m, pc);
    ExecStraight(env, head, tail, st);
    CallCodeExec(env, idx, [Br(0)], st, m);
    assert CallCode(idx) + [Br(0)] == [LocalGet(0), I32Const(idx)] + tail;
    StepsTwo(LocalGet(0), I32Const(idx), st);
    ExecStraight(env, [LocalGet(0), I32Const(idx)], tail, st);
    var r := Handled(env, st, m, Some(idx));
    if r.Some? { LoopAgain(env, r.value); }
  }

  /** A table in which only function k returns. */
  ghost function OnlyReturns(k: u32, n: nat): Env {
    Top(seq(n, i => if i == k then [I32Const(0), Return] else []), (mem, m, pc) => (0, mem))
  }

  lemma {:induction false} OnlyCalls(k: u32, n: nat, m: u32, mem: Mem)
    requires k < n
    ensures CallBlock(OnlyReturns(k, n), k, m, mem) == Some((I32(0), mem))
    ensures forall j: u32 | j != k :: CallBlock(OnlyReturns(k, n), j, m, mem) == None
  {
    ConstReturn(Leaf, 0, Frame(m, mem));
  }

  /** The loop body of the dense form calls block k at the start of block k, whatever the table
      holds, if and only if that block starts in the k-th word. */
  lemma {:induction false} DenseExact(es: Entries, k: nat, st: State, m: u32)
    requires Sorted(es) && Numbered(es) && k < |es| && AtPc(st, m, es[k].addr) && st.labels == []
    ensures (forall env: Env ::
               Exec(env, LoopBody(DenseCode(es[0].addr)), st) == Continue(Handled(env, st, m, Some(es[k].idx))))
       <==> 4 * k <= es[k].addr - es[0].addr < 4 * k + 4
  {
    var base, pc := es[0].addr, es[k].addr;
    var idx := DenseIndex(base, pc);
    assert idx == (pc - base) / 4;
    forall env: Env ensures Exec(env, LoopBody(DenseCode(base)), st) == Continue(Handled(env, st, m, Some(idx))) {
      IterationExec(env, DenseCode(base), st, m, pc);
      DenseIteration(env, base, st, m, pc);
    }
    if idx != k {
      var env := OnlyReturns(es[k].idx, k + 1);
      OnlyCalls(es[k].idx, k + 1, m, st.mem);
      assert Exec(env, LoopBody(DenseCode(base)), st) == Continue(Handled(env, st, m, Some(idx))) == Trap;
      assert Continue(Handled(env, st, m, Some(k))) != Trap;
    }
  }

  /** Two blocks eight bytes apart pass the density test, and calling the second traps. */
  lemma {:induction false} DenseTraps(env: Env, es: Entries, st: State, m: u32)
    requires es == [Entry(0x1000, 0), Entry(0x1008, 1)]
    requires env.Top? && |env.table| == 2 && AtPc(st, m, 0x1008) && st.labels == []
    ensures Sorted(es) && Numbered(es) && CanUseDense(es)
    ensures Exec(env, LoopBody(DenseCode(es[0].addr)), st) == Trap
  {
    IterationExec(env, DenseCode(es[0].addr), st, m, 0x1008);
    DenseIteration(env, es[0].addr, st, m, 0x1008);
  }

  // ---- building ----

  /** The dispatch of the form the addresses allow. */
  function DispatchCode(es: Entries): Code
    requires Sorted(es)
  {
    if es == [] then [I32Const(0), Return] else if CanUseDense(es) then DenseCode(es[0].addr) else SparseCode(es)
  }

  function DispatchBody(es: Entries): Code
    requires Sorted(es)
  {
    LoopBody(DispatchCode(es))
  }

  /** The dispatch of a program without blocks returns 0. */
  lemma {:induction false} EmptyDispatch(env: Env, st: State)
    ensures Exec(env, DispatchCode([]), st) == Returned(I32(0), st.mem)
  {
    ConstReturn(env, 0, st);
  }

  /** build_dispatch_function: the loop body for these blocks. */
  method BuildDispatch(es: Entries) returns (body: Code)
    requires Sorted(es)
    ensures body == DispatchBody(es)
  {
    body := HALT_CHECK + SYSCALL_CHECK;
    if es == [] {
      body := body + [I32Const(0), Return];
    } else if CanUseDense(es) {
      body := body + DenseCode(es[0].addr);
    } else {
      var d := EmitSparseDispatch(es);
      body := body + d;
    }
    body := body + [Br(0)];
  }

  /** There are two or more blocks, and they span more than twice as many words. */
  predicate FarApart(es: Entries)
    requires Sorted(es)
  {
    |es| >= 2 && (es[|es| - 1].addr - es[0].addr) / 4 + 1 > 2 * |es|
  }

  /** Blocks that are not far apart have block k in word k. */
  predicate WordPerBlock(es: Entries)
    requires Sorted(es)
  {
    FarApart(es) || forall k | 0 <= k < |es| :: 4 * k <= es[k].addr - es[0].addr < 4 * k + 4
  }

  /** At the start of a block the dispatch function calls that block and goes round. */
  lemma {:induction false} DispatchIteration(env: Env, es: Entries, st: State, m: u32, k: nat)
    requires Sorted(es) && Numbered(es) && WordPerBlock(es) && k < |es|
    requires AtPc(st, m, es[k].addr) && st.labels == []
    ensures Exec(env, DispatchBody(es), st) == Continue(Handled(env, st, m, Some(es[k].idx)))
  {
    DispatchExact(es, k, st, m);
  }

  /** At the start of block k the dispatch function calls that block, whatever the table holds,
      if and only if the blocks are far apart or it starts in the k-th word. */
  lemma {:induction false} DispatchExact(es: Entries, k: nat, st: State, m: u32)
    requires Sorted(es) && Numbered(es) && k < |es| && AtPc(st, m, es[k].addr) && st.labels == []
    ensures (forall env: Env :: Exec(env, DispatchBody(es), st) == Continue(Handled(env, st, m, Some(es[k].idx))))
       <==> FarApart(es) || 4 * k <= es[k].addr - es[0].addr < 4 * k + 4
  {
    if FarApart(es) {
      forall env: Env ensures Exec(env, DispatchBody(es), st) == Continue(Handled(env, st, m, Some(es[k].idx))) {
        SparseIteration(env, es, st, m, k);
      }
    } else {
      assert DispatchBody(es) == LoopBody(DenseCode(es[0].addr));
      DenseExact(es, k, st, m);
    }
  }

  /** Three blocks sixteen bytes apart go through the branch table. */
  lemma {:induction false} ThreeFarApart(env: Env, es: Entries, st: State, m: u32)
    requires es == [Entry(0x1000, 0), Entry(0x1010, 1), Entry(0x1020, 2)]
    requires AtPc(st, m, 0x1010) && st.labels == []
    ensures Exec(env, DispatchBody(es), st) == Continue(Handled(env, st, m, Some(1)))
  {
    DispatchExact(es, 1, st, m);
  }

  /** At the start of a block either sparse form calls that block and goes round. */
  lemma {:induction false} SparseIteration(env: Env, es: Entries, st: State, m: u32, k: nat)
    requires es != [] && Sorted(es) && k < |es|
    requires AtPc(st, m, es[k].addr) && st.labels == []
    ensures Exec(env, LoopBody(SparseCode(es)), st) == Continue(Handled(env, st, m, Some(es[k].idx)))
  {
    var pc, g := es[k].addr, Alignment(es);
    IterationExec(env, SparseCode(es), st, m, pc);
    assert CaseOf(es, pc) == Some(k);
    if TableSize(es, g) > TABLE_LIMIT {
      IfElseIteration(env, es, st, m, pc);
    } else {
      AlignmentAligned(es);
      NotInside(es, g, k);
      BrTableIteration(env, es, g, st, m, pc);
    }
  }

  lemma {:induction false} NotInside(es: Entries, g: nat, k: nat)
    requires es != [] && Sorted(es) && 0 < g < TWO31 && Aligned(es, g) && k < |es|
    ensures !InsideSlot(es, g, es[k].addr)
  {
    SameCaseAligned(es, g, es[k].addr);
    SameCase(es, g, es[k].addr);
  }
}
