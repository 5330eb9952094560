/** What a translated block returns as the next pc, and when that is RISC-V's. */
module Terminators {
  import opened Words
  import opened Memory
  import opened Wasm
  import opened Translate
  import opened TranslateProof
  import opened Numerics
  import R = RiscV

  /** Clearing bit 0. */
  function Even(v: u64): u64 { v - v % 2 }

  /** Select picks its second operand when the top of the stack is zero. */
  function Selected(v1: u32, v2: u32, c: u32): u32 { if c != 0 then v1 else v2 }

  function Bool(b: bool): u32 { if b then 1 else 0 }

  /** The registers once the link of a call is written. */
  function Linked(i: R.Instruction, x: R.Regs): R.Regs
  {
    if i.op.JAL? || i.op.C_JAL? || i.op.JALR? || i.op.C_JALR?
    then R.SetReg(x, i.Rd(), Wrap64(i.NextAddr())) else x
  }

  /** The value the code after the last instruction returns, in registers `x`. */
  function ReturnValue(i: R.Instruction, end: int, x: R.Regs): u32 {
    var t, f := Wrap32(i.Target()), Wrap32(end);
    if i.op.IsBranch() then
      var taken := R.Taken(i.op, x[i.Rs1()], x[i.Rs2()]);
      if i.op.C_BNEZ? then Selected(Bool(!taken), f, t) else Selected(Bool(taken), t, f)
    else if i.op.JAL? || i.op.C_JAL? || i.op.C_J? then t
    else if i.op.JALR? || i.op.C_JALR? then Wrap32(Even(Wrap64(Linked(i, x)[i.Rs1()] + i.Imm())))
    else if i.op.C_JR? then Wrap32(x[i.Rs1()])
    else if i.op.ECALL? then Bits32(Or, SYSCALL_FLAG, Wrap32(i.addr))
    else if i.op.EBREAK? || i.op.C_EBREAK? then Bits32(Or, BREAK_FLAG, Wrap32(i.addr))
    else f
  }

  /** Returns `v` with the memory holding `s'`. */
  ghost predicate Returns(env: Env, code: Code, st: State, m: u32, v: u32, s': R.Arch) {
    var o := Exec(env, code, st);
    o.Returned? && o.value == I32(v) && Holds(o.mem, m, s')
  }

  lemma {:induction false} ConstReturn(env: Env, v: u32, st: State)
    ensures Exec(env, [I32Const(v), Return], st) == Returned(I32(v), st.mem)
  {
    assert [I32Const(v), Return][1..] == [Return];
  }

  lemma {:induction false} ReturnTop(env: Env, st: State, v: u32)
    requires st.stack.Push? && st.stack.top == I32(v)
    ensures Exec(env, [Return], st) == Returned(I32(v), st.mem)
  {
  }

  /** Code that leads to `s'`, then a return. */
  lemma {:induction false} LeadsThenReturn(env: Env, code: Code, v: u32, st: State, m: u32, s': R.Arch)
    requires Leads(code, st, m, s')
    ensures Returns(env, code + [I32Const(v), Return], st, m, v, s')
  {
    ExecStraight(env, code, [I32Const(v), Return], st);
    ConstReturn(env, v, Steps(code, st).value);
  }

  lemma {:induction false} LinkLeads(i: R.Instruction, st: State, m: u32, s: R.Arch)
    requires At(st, m, s)
    ensures Leads(LinkCode(i), st, m, s.(x := R.SetReg(s.x, i.Rd(), Wrap64(i.NextAddr()))))
  {
    var c := Wrap64(i.NextAddr());
    ConstPushes(c, Pushed(st, I32(m)));
    AssignLeads(i.Rd(), [I64Const(c)], c, st, m, s);
  }

  lemma {:induction false} MaskBin(v: u64)
    ensures Bin64(Logic(And), v, TWO64 - 2) == Some(Even(v))
  {
    LogicBin(And, v, TWO64 - 2);
    AndNotOne(v, TWO64 - 2);
  }

  lemma {:induction false} MaskSteps(v: u64, st: State)
    ensures AllStraight([I64Const(TWO64 - 2), I64Bin(Logic(And)), I32WrapI64])
    ensures Steps([I64Const(TWO64 - 2), I64Bin(Logic(And)), I32WrapI64], Pushed(st, I64(v)))
         == Some(Pushed(st, I32(Wrap32(Even(v)))))
  {
    var mask := [I64Const(TWO64 - 2), I64Bin(Logic(And))];
    MaskBin(v);
    ConstBinSteps(TWO64 - 2, Logic(And), v, Even(v), st);
    StepsAppend(mask, [I32WrapI64], Pushed(st, I64(v)));
    StepsOne(I32WrapI64, Pushed(st, I64(Even(v))));
    assert mask + [I32WrapI64] == [I64Const(TWO64 - 2), I64Bin(Logic(And)), I32WrapI64];
  }

  /** (x[rs1] + imm) & !1, with no addition emitted for a zero immediate. */
  lemma {:induction false} JalrTargetSteps(i: R.Instruction, st: State, m: u32, s: R.Arch)
    requires At(st, m, s)
    ensures AllStraight(PushJalrTarget(i))
    ensures Steps(PushJalrTarget(i), st) == Some(Pushed(st, I32(Wrap32(Even(Wrap64(s.x[i.Rs1()] + i.Imm()))))))
  {
    var a, v := s.x[i.Rs1()], Wrap64(s.x[i.Rs1()] + i.Imm());
    var add: Code := if i.Imm() == 0 then [] else [I64Const(Wrap64(i.Imm())), I64Bin(Add)];
    PushRegSteps(i.Rs1(), st, m, s);
    OptionalAdd(a, i.Imm(), st);
    Compose(PushReg(i.Rs1()), add, st, Pushed(st, I64(a)), Some(Pushed(st, I64(v))));
    MaskSteps(v, st);
    Compose(PushReg(i.Rs1()) + add, [I64Const(TWO64 - 2), I64Bin(Logic(And)), I32WrapI64], st, Pushed(st, I64(v)),
            Some(Pushed(st, I32(Wrap32(Even(v))))));
  }

  lemma {:induction false} OptionalAdd(a: u64, imm: i64, st: State)
    ensures var add: Code := if imm == 0 then [] else [I64Const(Wrap64(imm)), I64Bin(Add)];
            AllStraight(add) && Steps(add, Pushed(st, I64(a))) == Some(Pushed(st, I64(Wrap64(a + imm))))
  {
    if imm != 0 {
      AddConst(a, imm);
      ConstBinSteps(Wrap64(imm), Add, a, Wrap64(a + imm), st);
    }
  }

  /** One guard returns the cached target, which is the computed one, or does nothing. */
  lemma {:induction false} GuardExec(env: Env, t: int, rest: Code, st: State, v: u32)
    requires |st.locals| > 1 && st.locals[1] == I32(v)
    ensures Exec(env, Guard(t) + rest, st)
         == if v == Wrap32(t) then Returned(I32(v), st.mem) else Exec(env, rest, st)
  {
    var c := I32Const(Wrap32(t));
    var code := Guard(t) + rest;
    var st1 := st.(labels := st.labels + [Height(st.stack)]);
    var body := [LocalGet(1), c, I32Rel(Ne)];
    var tail := [BrIf(0), c, Return, End] + rest;
    assert code[1..] == body + tail;
    ExecStraight(env, body, tail, st1);
    GuardTest(v, Wrap32(t), st1);
    var st2 := Pushed(st1, Flag(v != Wrap32(t)));
    assert tail[1..] == [c, Return, End] + rest;
    assert Exec(env, code, st) == Exec(env, tail, st2);
    if v == Wrap32(t) {
      var c1, c2 := [c, Return, End] + rest, [Return, End] + rest;
      assert c1[1..] == c2;
      assert Exec(env, tail, st2) == Exec(env, c1, st1);
      assert Exec(env, c1, st1) == Exec(env, c2, Pushed(st1, I32(v)));
    } else {
      GuardSkip(c, rest);
      assert st1.labels[..|st1.labels| - 1] == st.labels;
      assert Unwind(st1.stack, Height(st.stack)) == st.stack;
    }
  }

  lemma {:induction false} GuardTest(v: u32, w: u32, st: State)
    requires |st.locals| > 1 && st.locals[1] == I32(v)
    ensures AllStraight([LocalGet(1), I32Const(w), I32Rel(Ne)])
    ensures Steps([LocalGet(1), I32Const(w), I32Rel(Ne)], st) == Some(Pushed(st, Flag(v != w)))
  {
    assert [LocalGet(1), I32Const(w), I32Rel(Ne)][1..] == [I32Const(w), I32Rel(Ne)];
    StepsTwo(I32Const(w), I32Rel(Ne), Pushed(st, I32(v)));
  }

  lemma {:induction false} GuardSkip(c: Inst, rest: Code)
    requires Straight(c)
    ensures SkipOut([c, Return, End] + rest, 0) == rest
  {
    var c1, c2, c3 := [c, Return, End] + rest, [Return, End] + rest, [End] + rest;
    assert c1[1..] == c2 && c2[1..] == c3 && c3[1..] == rest;
    assert SkipOut(c1, 0) == SkipOut(c2, 0);
    assert SkipOut(c2, 0) == SkipOut(c3, 0);
  }

  /** The whole guard chain returns the computed target, whatever is cached. */
  lemma {:induction false} GuardsExec(env: Env, ts: seq<int>, st: State, v: u32)
    requires |st.locals| > 1 && st.locals[1] == I32(v)
    ensures Exec(env, Guards(ts) + [LocalGet(1), Return], st) == Returned(I32(v), st.mem)
    decreases |ts|
  {
    var tail := [LocalGet(1), Return];
    if ts == [] {
      assert Guards(ts) + tail == tail;
      assert tail[1..] == [Return];
      ReturnTop(env, Pushed(st, I32(v)), v);
    } else {
      assert Guards(ts) + tail == Guard(ts[0]) + (Guards(ts[1..]) + tail);
      GuardExec(env, ts[0], Guards(ts[1..]) + tail, st, v);
      GuardsExec(env, ts[1..], st, v);
    }
  }

  /** The tail of an indirect call, with or without guards. */
  lemma {:induction false} JalrTail(env: Env, cached: seq<int>, st: State, v: u32)
    requires |st.locals| > 1 && st.stack.Push? && st.stack.top == I32(v)
    ensures var tail := if cached == [] then [Return] else [LocalSet(1)] + Guards(cached) + [LocalGet(1), Return];
            Exec(env, tail, st) == Returned(I32(v), st.mem)
  {
    if cached == [] {
      ReturnTop(env, st, v);
    } else {
      var rest := Guards(cached) + [LocalGet(1), Return];
      var code := [LocalSet(1)] + Guards(cached) + [LocalGet(1), Return];
      assert code[1..] == rest;
      GuardsExec(env, cached, st.(locals := st.locals[1 := I32(v)], stack := st.stack.rest), v);
    }
  }

  lemma {:induction false} JalrReturns(env: Env, i: R.Instruction, cached: seq<int>, st: State, m: u32, s: R.Arch)
    requires At(st, m, s) && (i.op.JALR? || i.op.C_JALR?)
    ensures Returns(env, JalrCode(i, cached), st, m, Wrap32(Even(Wrap64(Linked(i, s.x)[i.Rs1()] + i.Imm()))),
                    s.(x := Linked(i, s.x)))
  {
    var s1 := s.(x := Linked(i, s.x));
    LinkLeads(i, st, m, s);
    var st1 := Steps(LinkCode(i), st).value;
    JalrTargetSteps(i, st1, m, s1);
    var v := Wrap32(Even(Wrap64(s1.x[i.Rs1()] + i.Imm())));
    StepsAppend(LinkCode(i), PushJalrTarget(i), st);
    var tail := if cached == [] then [Return] else [LocalSet(1)] + Guards(cached) + [LocalGet(1), Return];
    ExecStraight(env, LinkCode(i) + PushJalrTarget(i), tail, st);
    JalrTail(env, cached, Pushed(st1, I32(v)), v);
  }

  lemma {:induction false} SelectReturn(env: Env, c1: u32, c2: u32, st: State, v: u32)
    requires st.stack.Push? && st.stack.top == I32(v)
    ensures Exec(env, [I32Const(c1), I32Const(c2), Select, Return], st) == Returned(I32(Selected(v, c1, c2)), st.mem)
  {
    var st1 := st.(stack := Push(I32(c1), st.stack));
    var st2 := st1.(stack := Push(I32(c2), st1.stack));
    var code := [I32Const(c1), I32Const(c2), Select, Return];
    assert code[1..] == [I32Const(c2), Select, Return];
    assert code[1..][1..] == [Select, Return];
    assert [Select, Return][1..] == [Return];
    assert Exec(env, code, st) == Exec(env, [I32Const(c2), Select, Return], st1);
    assert Exec(env, [I32Const(c2), Select, Return], st1) == Exec(env, [Select, Return], st2);
    var st3 := st.(stack := Push(I32(Selected(v, c1, c2)), st.stack.rest));
    assert Exec(env, [Select, Return], st2) == Exec(env, [Return], st3);
    ReturnTop(env, st3, Selected(v, c1, c2));
  }

  /** The test of a conditional branch, pushed as 0 or 1. */
  function BranchTest(i: R.Instruction): Code
    requires i.op.IsBranch()
  {
    if i.op.C_BEQZ? || i.op.C_BNEZ? then PushReg(i.Rs1()) + [I64Eqz]
    else PushReg(i.Rs1()) + PushReg(i.Rs2()) + [I64Rel(BranchRel(i.op))]
  }

  lemma {:induction false} BranchTestSteps(i: R.Instruction, st: State, m: u32, s: R.Arch)
    requires At(st, m, s) && i.op.IsBranch()
    ensures AllStraight(BranchTest(i))
    ensures var taken := R.Taken(i.op, s.x[i.Rs1()], s.x[i.Rs2()]);
            Steps(BranchTest(i), st) == Some(Pushed(st, I32(Bool(if i.op.C_BNEZ? then !taken else taken))))
  {
    var a, b := s.x[i.Rs1()], s.x[i.Rs2()];
    if i.op.C_BEQZ? || i.op.C_BNEZ? {
      PushRegSteps(i.Rs1(), st, m, s);
      StepsAppend(PushReg(i.Rs1()), [I64Eqz], st);
      StepsOne(I64Eqz, Pushed(st, I64(a)));
    } else {
      TwoRegs(i.Rs1(), i.Rs2(), st, m, s);
      StepsAppend(PushReg(i.Rs1()) + PushReg(i.Rs2()), [I64Rel(BranchRel(i.op))], st);
      StepsOne(I64Rel(BranchRel(i.op)), Pushed(Pushed(st, I64(a)), I64(b)));
    }
  }

  /** A test, two addresses and the selection between them. */
  lemma {:induction false} TestReturns(env: Env, test: Code, c1: u32, c2: u32, v: u32, st: State)
    requires AllStraight(test) && Steps(test, st) == Some(Pushed(st, I32(v)))
    ensures Exec(env, test + [I32Const(c1), I32Const(c2), Select, Return], st)
         == Returned(I32(Selected(v, c1, c2)), st.mem)
  {
    ExecStraight(env, test, [I32Const(c1), I32Const(c2), Select, Return], st);
    SelectReturn(env, c1, c2, Pushed(st, I32(v)), v);
  }

  lemma {:induction false} BranchReturns(env: Env, i: R.Instruction, end: int, st: State, m: u32, s: R.Arch)
    requires At(st, m, s) && i.op.IsBranch()
    ensures Returns(env, BranchCode(i, end), st, m, ReturnValue(i, end, s.x), s)
  {
    var t, f := Wrap32(i.Target()), Wrap32(end);
    var taken := R.Taken(i.op, s.x[i.Rs1()], s.x[i.Rs2()]);
    var c1, c2 := if i.op.C_BNEZ? then f else t, if i.op.C_BNEZ? then t else f;
    BranchTestSteps(i, st, m, s);
    TestReturns(env, BranchTest(i), c1, c2, Bool(if i.op.C_BNEZ? then !taken else taken), st);
    assert BranchCode(i, end) == BranchTest(i) + [I32Const(c1), I32Const(c2), Select, Return];
  }

  lemma {:induction false} JalReturns(env: Env, i: R.Instruction, end: int, st: State, m: u32, s: R.Arch)
    requires At(st, m, s) && (i.op.JAL? || i.op.C_JAL?)
    ensures Returns(env, LinkCode(i) + [I32Const(Wrap32(i.Target())), Return], st, m, ReturnValue(i, end, s.x),
                    s.(x := Linked(i, s.x)))
  {
    LinkLeads(i, st, m, s);
    LeadsThenReturn(env, LinkCode(i), ReturnValue(i, end, s.x), st, m, s.(x := Linked(i, s.x)));
  }

  lemma {:induction false} JrReturns(env: Env, r: R.Reg, st: State, m: u32, s: R.Arch)
    requires At(st, m, s)
    ensures Returns(env, PushReg(r) + [I32WrapI64, Return], st, m, Wrap32(s.x[r]), s)
  {
    var v := Wrap32(s.x[r]);
    PushWordSteps(r, st, m, s);
    ExecStraight(env, PushReg(r) + [I32WrapI64], [Return], st);
    assert PushReg(r) + [I32WrapI64] + [Return] == PushReg(r) + [I32WrapI64, Return];
    ReturnTop(env, Pushed(st, I32(v)), v);
  }

  /** Every terminator returns `ReturnValue`, for any list of cached targets. */
  lemma {:induction false} TerminatorReturns(env: Env, i: R.Instruction, block: BasicBlock, ic: seq<int>,
                                             st: State, m: u32, s: R.Arch)
    requires At(st, m, s)
    ensures Returns(env, TerminatorCode(i, block, ic), st, m, ReturnValue(i, block.end, s.x), s.(x := Linked(i, s.x)))
  {
    var v := ReturnValue(i, block.end, s.x);
    if i.op.IsBranch() {
      BranchReturns(env, i, block.end, st, m, s);
    } else if i.op.JALR? || i.op.C_JALR? {
      JalrReturns(env, i, if i.Rd() != 0 then CachedTargets(block.successors, ic, 2) else [], st, m, s);
    } else if i.op.JAL? || i.op.C_JAL? {
      JalReturns(env, i, block.end, st, m, s);
    } else if i.op.C_JR? {
      JrReturns(env, i.Rs1(), st, m, s);
    } else {
      ConstReturn(env, v, st);
    }
  }

  /** The number that differs in bit 0 only. */
  function Partner(u: int): int { if u % 2 == 0 then u + 1 else u - 1 }

  /** The base register already held the link address, modulo 2^32 and up to the bit that
      is cleared after the immediate is added. */
  predicate NearLink(v: u64, link: int, imm: int) {
    Wrap32(v) == Wrap32(link) || Wrap32(v) == Wrap32(Partner(link + imm) - imm)
  }

  /** When the returned value is RISC-V's next pc (modulo 2^32). */
  predicate NextPcCondition(i: R.Instruction, x: R.Regs) {
    var t, f := Wrap32(i.Target()), Wrap32(i.NextAddr());
    if i.op.IsBranch() then
      var taken := R.Taken(i.op, x[i.Rs1()], x[i.Rs2()]);
      if i.op.C_BNEZ? then if t == 0 then !taken || f == 0 else !taken && f == 1
      else if f == 0 then taken || t == 0 else taken && t == 1
    else if i.op.JALR? || i.op.C_JALR? then
      i.Rd() == 0 || i.Rd() != i.Rs1() || NearLink(x[i.Rs1()], i.NextAddr(), i.Imm())
    else i.op.C_JR? ==> x[i.Rs1()] % 2 == 0
  }

  lemma {:induction false} NextPcExact(i: R.Instruction, x: R.Regs)
    requires !i.op.ECALL? && !i.op.EBREAK? && !i.op.C_EBREAK?
    ensures ReturnValue(i, i.NextAddr(), x) == Wrap32(R.Transfer(i, x).0) <==> NextPcCondition(i, x)
    ensures Linked(i, x) == R.Transfer(i, x).1
  {
    WrapOf64(i.NextAddr());
    if i.op.JALR? || i.op.C_JALR? {
      NextPcJalr(i, x);
    } else if i.op.C_JR? {
      EvenWrap(x[i.Rs1()]);
    }
  }

  lemma {:induction false} NextPcJalr(i: R.Instruction, x: R.Regs)
    requires i.op.JALR? || i.op.C_JALR?
    ensures ReturnValue(i, i.NextAddr(), x) == Wrap32(R.Transfer(i, x).0) <==> NextPcCondition(i, x)
    ensures Linked(i, x) == R.Transfer(i, x).1
  {
    JalrLink(i);
    SameTarget(x[i.Rs1()], i.NextAddr(), i.Imm());
  }

  /** JALR with its link in its base register, as in `jalr ra, 0(ra)`: it returns to the
      instruction after it instead of jumping. */
  lemma {:induction false} LinkIsBaseFails(i: R.Instruction, x: R.Regs)
    requires i.op.JALR? && i.Rd() == i.Rs1() == 1 && i.Imm() == 0
    requires i.NextAddr() == 0x1_0004 && x[1] == 0x2_0000
    ensures ReturnValue(i, i.NextAddr(), x) == 0x1_0004 && R.Transfer(i, x).0 == 0x2_0000 && !NextPcCondition(i, x)
  {
  }

  lemma {:induction false} SamePair(x: int, y: int)
    ensures x - x % 2 == y - y % 2 <==> y == x || y == Partner(x)
  {
  }

  lemma {:induction false} PartnerLow(u: int)
    requires Wrap32(u) % 2 == u % 2
    ensures Wrap32(Partner(u)) == Partner(Wrap32(u))
  {
    var q := u / TWO32;
    assert u == TWO32 * q + Wrap32(u);
    assert Partner(u) == TWO32 * q + Partner(Wrap32(u));
  }

  /** Bit 0 aside, two targets agree exactly when they are equal or partners. */
  lemma {:induction false} SameEven(u: int, w: int)
    ensures Wrap32(Even(Wrap64(u))) == Wrap32(Even(Wrap64(w)))
            <==> Wrap32(w) == Wrap32(u) || Wrap32(w) == Wrap32(Partner(u))
  {
    EvenLow(u);
    EvenLow(w);
    PartnerLow(u);
    SamePair(Wrap32(u), Wrap32(w));
  }

  lemma {:induction false} EvenLow(u: int)
    ensures Wrap32(Even(Wrap64(u))) == Wrap32(u) - u % 2 && Wrap32(u) % 2 == u % 2
  {
    WrapOf64(u);
    ModOfMod(u, TWO31, 2);
    ModOfMod(Wrap64(u), TWO31, 2);
  }

  lemma {:induction false} WrapShift(a: int, b: int, c: int)
    ensures Wrap32(a + c) == Wrap32(b + c) <==> Wrap32(a) == Wrap32(b)
  {
  }

  lemma {:induction false} SameTarget(v: u64, link: int, imm: int)
    ensures Wrap32(Even(Wrap64(link + imm))) == Wrap32(Even(Wrap64(v + imm))) <==> NearLink(v, link, imm)
  {
    SameEven(link + imm, v + imm);
    WrapShift(v, link, imm);
    WrapShift(v, Partner(link + imm) - imm, imm);
  }

  lemma {:induction false} WrapOf64(v: int)
    ensures Wrap32(Wrap64(v)) == Wrap32(v)
  {
    ModOfMod(v, TWO32, TWO32);
  }

  lemma {:induction false} JalrLink(i: R.Instruction)
    ensures Wrap64(Wrap64(i.NextAddr()) + i.Imm()) == Wrap64(i.NextAddr() + i.Imm())
  {
    var k := i.NextAddr() / TWO64;
    assert i.NextAddr() + i.Imm() == (Wrap64(i.NextAddr()) + i.Imm()) + TWO64 * k;
  }

  lemma {:induction false} EvenWrap(v: u64)
    ensures Wrap32(v) == Wrap32(Even(v)) <==> v % 2 == 0
  {
    ModOfMod(v, TWO31, 2);
    ModOfMod(Even(v), TWO31, 2);
  }

  /** At ordinary addresses (even, not 0 modulo 2^32) no conditional branch returns the
      right pc: `select` consumes the fall-through address as its condition. */
  lemma {:induction false} BranchNeverCorrect(i: R.Instruction, x: R.Regs)
    requires i.op.IsBranch()
    requires Wrap32(i.Target()) % 2 == 0 && Wrap32(i.Target()) != 0
    requires Wrap32(i.NextAddr()) % 2 == 0 && Wrap32(i.NextAddr()) != 0
    ensures ReturnValue(i, i.NextAddr(), x) != Wrap32(R.Transfer(i, x).0)
  {
    NextPcExact(i, x);
  }

  /** ECALL returns its own address with the syscall flag exactly below 2^31. */
  lemma {:induction false} EcallFlagged(i: R.Instruction, end: int, x: R.Regs)
    requires i.op.ECALL?
    ensures ReturnValue(i, end, x) == 0x8000_0000 + i.addr <==> i.addr < 0x8000_0000
  {
    EcallReturn(i, end, x);
    if i.addr < TWO31 {
      WrapSmall(i.addr);
      SetSign(SYSCALL_FLAG, Wrap32(i.addr));
    }
    TooHigh(ReturnValue(i, end, x), i.addr);
  }

  /** An EBREAK returns its address with both flag bits if and only if the address has neither. */
  lemma {:induction false} BreakFlagged(i: R.Instruction, end: int, x: R.Regs)
    requires i.op.EBREAK? || i.op.C_EBREAK?
    ensures ReturnValue(i, end, x) == 0xC000_0000 + i.addr <==> i.addr < 0x4000_0000
  {
    BreakReturn(i, end, x);
    if i.addr < 0x4000_0000 {
      WrapSmall(i.addr);
      SetTopBits(BREAK_FLAG, Wrap32(i.addr));
    }
  }

  lemma {:induction false} BreakReturn(i: R.Instruction, end: int, x: R.Regs)
    requires i.op.EBREAK? || i.op.C_EBREAK?
    ensures ReturnValue(i, end, x) == Bits32(Or, BREAK_FLAG, Wrap32(i.addr))
  {
  }

  lemma {:induction false} EcallReturn(i: R.Instruction, end: int, x: R.Regs)
    requires i.op.ECALL?
    ensures ReturnValue(i, end, x) == Bits32(Or, SYSCALL_FLAG, Wrap32(i.addr))
  {
  }

  lemma {:induction false} WrapSmall(a: u64)
    requires a < TWO32
    ensures Wrap32(a) == a
  {
  }

  lemma {:induction false} TooHigh(v: u32, addr: u64)
    requires addr < TWO31 ==> v == SYSCALL_FLAG + addr
    ensures v == SYSCALL_FLAG + addr <==> addr < TWO31
  {
  }

  /** A block without instructions returns its end and changes nothing. */
  lemma {:induction false} EmptyBlock(env: Env, block: BasicBlock, ic: seq<int>, st: State)
    requires block.instructions == []
    ensures Exec(env, BlockCode(block, ic), st) == Returned(I32(Wrap32(block.end)), st.mem)
  {
    assert BlockCode(block, ic) == [I32Const(Wrap32(block.end)), Return];
    ConstReturn(env, Wrap32(block.end), st);
  }

  /** A block, from entry to the returned pc. Registers, RAM and next pc are RISC-V's. */
  lemma {:induction false} BlockCorrect(env: Env, block: BasicBlock, ic: seq<int>, w: Mem, m: u32, s: R.Arch)
    requires Holds(w, m, s) && block.instructions != []
    requires FaithfulRun(block.instructions, s) && R.Run(block.instructions, s).Some?
    ensures var last := block.instructions[|block.instructions| - 1];
            var s1 := R.Run(block.instructions, s).value;
            Returns(env, BlockCode(block, ic), Frame(m, w), m, ReturnValue(last, block.end, s1.x),
                    s1.(x := Linked(last, s1.x)))
  {
    var insts := block.instructions;
    var last, st := insts[|insts| - 1], Frame(m, w);
    BodyCorrect(insts, st, m, s);
    var st1 := Steps(InstCodes(insts), st).value;
    ExecStraight(env, InstCodes(insts), TerminatorCode(last, block, ic), st);
    TerminatorReturns(env, last, block, ic, st1, m, R.Run(insts, s).value);
  }

  /** The meaning of a block whose last instruction returns the right pc. */
  lemma {:induction false} BlockNextPc(env: Env, block: BasicBlock, ic: seq<int>, w: Mem, m: u32, s: R.Arch)
    requires Holds(w, m, s) && block.instructions != []
    requires FaithfulRun(block.instructions, s) && R.Run(block.instructions, s).Some?
    requires var last := block.instructions[|block.instructions| - 1];
             && block.end == last.NextAddr() && !last.op.ECALL? && !last.op.EBREAK? && !last.op.C_EBREAK?
             && NextPcCondition(last, R.Run(block.instructions, s).value.x)
    ensures var last := block.instructions[|block.instructions| - 1];
            var s1 := R.Run(block.instructions, s).value;
            var (pc, x') := R.Transfer(last, s1.x);
            Returns(env, BlockCode(block, ic), Frame(m, w), m, Wrap32(pc), s1.(x := x'))
  {
    BlockCorrect(env, block, ic, w, m, s);
    NextPcExact(block.instructions[|block.instructions| - 1], R.Run(block.instructions, s).value.x);
  }
}
