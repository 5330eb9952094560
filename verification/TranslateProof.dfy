/** The translated code does what the RISC-V instructions do. */
module TranslateProof {
  import opened Words
  import opened Memory
  import opened Wasm
  import opened Translate
  import opened Numerics
  import R = RiscV

  const FILE := 256  // bytes of the integer register file

  predicate InFile(k: int, m: int) { m <= k < m + FILE }

  /** The wasm memory `w` holds the registers at $m and the guest RAM everywhere else. */
  ghost predicate Holds(w: Mem, m: u32, s: R.Arch) {
    && Mapped(w, m, FILE)
    && (forall k | k in w :: 0 <= k < TWO32)
    && (forall r: R.Reg :: Load(w, m + 8 * r, 8) == s.x[r])
    && (forall k :: k in s.ram <==> k in w && !InFile(k, m))
    && (forall k | k in s.ram :: s.ram[k] == w[k])
  }

  /** A frame of a block function on machine state `s`. */
  ghost predicate At(st: State, m: u32, s: R.Arch) {
    && |st.locals| == 1 + NUM_LOCALS && st.locals[0] == I32(m)
    && Holds(st.mem, m, s)
  }

  /** `st` with v pushed. */
  function Pushed(st: State, v: Val): State { st.(stack := Push(v, st.stack)) }

  lemma {:induction false} PushRegSteps(r: R.Reg, st: State, m: u32, s: R.Arch)
    requires At(st, m, s)
    ensures AllStraight(PushReg(r)) && Steps(PushReg(r), st) == Some(Pushed(st, I64(s.x[r])))
  {
    StepsTwo(LocalGet(0), I64Load(8, false, 8 * r), st);
  }

  /** Registers do not overlap. */
  lemma {:induction false} RegAfterStore(w: Mem, m: u32, s: R.Arch, rd: R.Reg, v: u64, r: R.Reg)
    requires Holds(w, m, s) && rd != 0
    ensures Mapped(w, m + 8 * rd, 8)
    ensures Load(Store(w, m + 8 * rd, 8, v), m + 8 * r, 8) == R.SetReg(s.x, rd, v)[r]
  {
    if r == rd {
      LoadStore64(w, m + 8 * rd, v);
    } else {
      LoadSame(w, Store(w, m + 8 * rd, 8, v), m + 8 * r, 8);
    }
  }

  /** Writing x[rd]. */
  lemma {:induction false} StoreReg(w: Mem, m: u32, s: R.Arch, rd: R.Reg, v: u64)
    requires Holds(w, m, s) && rd != 0
    ensures Mapped(w, m + 8 * rd, 8)
    ensures Holds(Store(w, m + 8 * rd, 8, v), m, s.(x := R.SetReg(s.x, rd, v)))
  {
    forall r: R.Reg
      ensures Load(Store(w, m + 8 * rd, 8, v), m + 8 * r, 8) == R.SetReg(s.x, rd, v)[r]
    {
      RegAfterStore(w, m, s, rd, v, r);
    }
  }

  /** Code that pushes one value and touches nothing else. */
  ghost predicate Pushes(e: Code, st: State, v: u64) {
    AllStraight(e) && Steps(e, st) == Some(Pushed(st, I64(v)))
  }

  lemma {:induction false} AssignRuns(rd: R.Reg, e: Code, v: u64, st: State, m: u32)
    requires |st.locals| > 0 && st.locals[0] == I32(m) && rd != 0 && Mapped(st.mem, m + 8 * rd, 8)
    requires Pushes(e, Pushed(st, I32(m)), v)
    ensures AllStraight(Assign(rd, e))
    ensures Steps(Assign(rd, e), st) == Some(st.(mem := Store(st.mem, m + 8 * rd, 8, v)))
  {
    StepsOne(LocalGet(0), st);
    StepsAppend([LocalGet(0)], e, st);
    StepsAppend([LocalGet(0)] + e, [I64Store(8, 8 * rd)], st);
    StepsOne(I64Store(8, 8 * rd), Pushed(Pushed(st, I32(m)), I64(v)));
  }

  lemma {:induction false} AssignSteps(rd: R.Reg, e: Code, v: u64, st: State, m: u32, s: R.Arch)
    requires At(st, m, s)
    requires rd != 0 ==> Pushes(e, Pushed(st, I32(m)), v)
    ensures AllStraight(Assign(rd, e)) && Steps(Assign(rd, e), st).Some?
    ensures var st' := Steps(Assign(rd, e), st).value;
            st' == st.(mem := st'.mem) && At(st', m, s.(x := R.SetReg(s.x, rd, v)))
  {
    if rd != 0 {
      StoreReg(st.mem, m, s, rd, v);
      AssignRuns(rd, e, v, st, m);
    }
  }

  /** Two pushed operands. */
  lemma {:induction false} TwoRegs(r1: R.Reg, r2: R.Reg, st: State, m: u32, s: R.Arch)
    requires At(st, m, s)
    ensures AllStraight(PushReg(r1) + PushReg(r2))
    ensures Steps(PushReg(r1) + PushReg(r2), st) == Some(Pushed(Pushed(st, I64(s.x[r1])), I64(s.x[r2])))
  {
    PushRegSteps(r1, st, m, s);
    PushRegSteps(r2, Pushed(st, I64(s.x[r1])), m, s);
    StepsAppend(PushReg(r1), PushReg(r2), st);
  }

  /** Operand code followed by an operation on the operands. */
  lemma {:induction false} ThenOp(e: Code, op: Code, st: State, st1: State, v: u64)
    requires AllStraight(e) && AllStraight(op)
    requires Steps(e, st) == Some(st1) && Steps(op, st1) == Some(Pushed(st, I64(v)))
    ensures Pushes(e + op, st, v)
  {
    StepsAppend(e, op, st);
  }

  function AsPush(st: State, r: Option<u64>): Option<State> {
    match r case None => None case Some(v) => Some(Pushed(st, I64(v)))
  }

  lemma {:induction false} BinSteps(code: Code, bin: Bin, a: u64, b: u64, r: Option<u64>, st: State)
    requires code == [I64Bin(bin)] && Bin64(bin, a, b) == r
    ensures AllStraight(code) && Steps(code, Pushed(Pushed(st, I64(a)), I64(b))) == AsPush(st, r)
  {
    StepsOne(I64Bin(bin), Pushed(Pushed(st, I64(a)), I64(b)));
  }

  lemma {:induction false} LessSteps(code: Code, rel: Rel, a: u64, b: u64, r: Option<u64>, st: State)
    requires code == [I64Rel(rel), I64ExtendI32U]
    requires r == Some(if Compare(rel, a, Signed64(a), b, Signed64(b)) then 1 else 0)
    ensures AllStraight(code) && Steps(code, Pushed(Pushed(st, I64(a)), I64(b))) == AsPush(st, r)
  {
    CompareSteps(rel, a, b, st);
  }

  lemma {:induction false} RegRegSteps(op: R.Opcode, a: u64, b: u64, st: State)
    requires R.IsRegReg(op)
    ensures AllStraight(RegRegOp(op))
    ensures Steps(RegRegOp(op), Pushed(Pushed(st, I64(a)), I64(b))) == AsPush(st, Result(op, a, b))
  {
    if op.SLT? {
      LessSteps(RegRegOp(op), LtS, a, b, Result(op, a, b), st);
    } else if op.SLTU? {
      LessSteps(RegRegOp(op), LtU, a, b, Result(op, a, b), st);
    } else {
      Agrees64(op, a, b);
      BinSteps(RegRegOp(op), RegRegBin(op), a, b, Result(op, a, b), st);
    }
  }

  lemma {:induction false} CompareSteps(rel: Rel, a: u64, b: u64, st: State)
    ensures Steps([I64Rel(rel), I64ExtendI32U], Pushed(Pushed(st, I64(a)), I64(b)))
         == Some(Pushed(st, I64(if Compare(rel, a, Signed64(a), b, Signed64(b)) then 1 else 0)))
  {
    StepsTwo(I64Rel(rel), I64ExtendI32U, Pushed(Pushed(st, I64(a)), I64(b)));
  }

  lemma {:induction false} ConstBinSteps(c: u64, bin: Bin, a: u64, v: u64, st: State)
    requires Bin64(bin, a, c) == Some(v)
    ensures Steps([I64Const(c), I64Bin(bin)], Pushed(st, I64(a))) == Some(Pushed(st, I64(v)))
  {
    StepsTwo(I64Const(c), I64Bin(bin), Pushed(st, I64(a)));
  }

  lemma {:induction false} ConstCompareSteps(c: u64, rel: Rel, a: u64, st: State)
    ensures Steps([I64Const(c), I64Rel(rel), I64ExtendI32U], Pushed(st, I64(a)))
         == Some(Pushed(st, I64(if Compare(rel, a, Signed64(a), c, Signed64(c)) then 1 else 0)))
  {
    assert [I64Const(c), I64Rel(rel), I64ExtendI32U][1..] == [I64Rel(rel), I64ExtendI32U];
    CompareSteps(rel, a, c, st);
  }

  /** Truncating the top of the stack to a sign-extended word. */
  lemma {:induction false} SextSteps(v: u64, st: State)
    ensures Steps([I32WrapI64, I64ExtendI32S], Pushed(st, I64(v))) == Some(Pushed(st, I64(R.Sext32(v))))
  {
    StepsTwo(I32WrapI64, I64ExtendI32S, Pushed(st, I64(v)));
  }

  lemma {:induction false} RegImmSteps(op: R.Opcode, a: u64, imm: i64, st: State)
    requires R.IsRegImm(op)
    ensures AllStraight(RegImmOp(op, imm))
    ensures Steps(RegImmOp(op, imm), Pushed(st, I64(a))) == Some(Pushed(st, I64(R.AluImm(op, a, imm))))
  {
    var c := Wrap64(imm);
    if op.SLTI? {
      ConstCompareSteps(c, LtS, a, st);
      SignedConst(imm);
    } else if op.SLTIU? {
      ConstCompareSteps(c, LtU, a, st);
    } else if op.ADDIW? || op.C_ADDIW? {
      AddWordSteps(a, imm, st);
    } else {
      RegImmBinSteps(op, a, imm, st);
    }
  }

  lemma {:induction false} RegImmBinSteps(op: R.Opcode, a: u64, imm: i64, st: State)
    requires R.IsRegImm(op) && !op.SLTI? && !op.SLTIU? && !op.ADDIW? && !op.C_ADDIW?
    ensures AllStraight(RegImmOp(op, imm))
    ensures Steps(RegImmOp(op, imm), Pushed(st, I64(a))) == Some(Pushed(st, I64(R.AluImm(op, a, imm))))
  {
    AgreesImm64(op, a, imm);
    ConstBinSteps(ImmConst(op, imm), RegImmBin(op), a, R.AluImm(op, a, imm), st);
  }

  lemma {:induction false} AddWordSteps(a: u64, imm: i64, st: State)
    ensures Steps([I64Const(Wrap64(imm)), I64Bin(Add), I32WrapI64, I64ExtendI32S], Pushed(st, I64(a)))
         == Some(Pushed(st, I64(R.Sext32(a + imm))))
  {
    var c := Wrap64(imm);
    AddConst(a, imm);
    ConstBinSteps(c, Add, a, Wrap64(a + imm), st);
    SextSteps(Wrap64(a + imm), st);
    SextOf64(a + imm);
    StepsAppend([I64Const(c), I64Bin(Add)], [I32WrapI64, I64ExtendI32S], Pushed(st, I64(a)));
    assert [I64Const(c), I64Bin(Add)] + [I32WrapI64, I64ExtendI32S]
           == [I64Const(c), I64Bin(Add), I32WrapI64, I64ExtendI32S];
  }

  /** Register-register instructions: the value, or the trap, of the whole code. */
  lemma {:induction false} RegRegValue(i: R.Instruction, st: State, m: u32, s: R.Arch)
    requires At(st, m, s) && R.IsRegReg(i.op)
    ensures var e := PushReg(i.Rs1()) + PushReg(i.Rs2()) + RegRegOp(i.op);
            AllStraight(e) && Steps(e, st) == AsPush(st, Result(i.op, s.x[i.Rs1()], s.x[i.Rs2()]))
  {
    TwoRegs(i.Rs1(), i.Rs2(), st, m, s);
    RegRegSteps(i.op, s.x[i.Rs1()], s.x[i.Rs2()], st);
    StepsAppend(PushReg(i.Rs1()) + PushReg(i.Rs2()), RegRegOp(i.op), st);
  }

  /** A register truncated to 32 bits. */
  lemma {:induction false} PushWordSteps(r: R.Reg, st: State, m: u32, s: R.Arch)
    requires At(st, m, s)
    ensures AllStraight(PushReg(r) + [I32WrapI64])
    ensures Steps(PushReg(r) + [I32WrapI64], st) == Some(Pushed(st, I32(Wrap32(s.x[r]))))
  {
    PushRegSteps(r, st, m, s);
    StepsAppend(PushReg(r), [I32WrapI64], st);
    StepsOne(I32WrapI64, Pushed(st, I64(s.x[r])));
  }

  lemma {:induction false} WordBinSteps(bin: Bin, a: u32, b: u32, r: Option<u64>, st: State)
    requires Extended(Bin32(bin, a, b)) == r
    ensures AllStraight([I32Bin(bin), I64ExtendI32S])
    ensures Steps([I32Bin(bin), I64ExtendI32S], Pushed(Pushed(st, I32(a)), I32(b))) == AsPush(st, r)
  {
    var st2 := Pushed(Pushed(st, I32(a)), I32(b));
    StepsTwo(I32Bin(bin), I64ExtendI32S, st2);
    match Bin32(bin, a, b)
    case None => assert Step(I32Bin(bin), st2) == None;
    case Some(v) => WordResult(bin, a, b, v, st); ExtendResult(v, st);
  }

  lemma {:induction false} WordResult(bin: Bin, a: u32, b: u32, v: u32, st: State)
    requires Bin32(bin, a, b) == Some(v)
    ensures Step(I32Bin(bin), Pushed(Pushed(st, I32(a)), I32(b))) == Some(Pushed(st, I32(v)))
  {
  }

  lemma {:induction false} ExtendResult(v: u32, st: State)
    ensures Step(I64ExtendI32S, Pushed(st, I32(v))) == Some(Pushed(st, I64(R.Sext32(v))))
  {
  }

  lemma {:induction false} WordRegRegValue(i: R.Instruction, st: State, m: u32, s: R.Arch)
    requires At(st, m, s) && R.IsWordRegReg(i.op)
    ensures var e := (PushReg(i.Rs1()) + [I32WrapI64]) + (PushReg(i.Rs2()) + [I32WrapI64])
                     + [I32Bin(WordOp(i.op)), I64ExtendI32S];
            AllStraight(e) && Steps(e, st) == AsPush(st, Result(i.op, s.x[i.Rs1()], s.x[i.Rs2()]))
  {
    var a, b := s.x[i.Rs1()], s.x[i.Rs2()];
    var c1, c2 := PushReg(i.Rs1()) + [I32WrapI64], PushReg(i.Rs2()) + [I32WrapI64];
    PushWordSteps(i.Rs1(), st, m, s);
    PushWordSteps(i.Rs2(), Pushed(st, I32(Wrap32(a))), m, s);
    StepsAppend(c1, c2, st);
    Agrees32(i.op, a, b);
    WordBinSteps(WordOp(i.op), Wrap32(a), Wrap32(b), Result(i.op, a, b), st);
    StepsAppend(c1 + c2, [I32Bin(WordOp(i.op)), I64ExtendI32S], st);
  }

  lemma {:induction false} WordShiftValue(i: R.Instruction, st: State, m: u32, s: R.Arch)
    requires At(st, m, s) && R.IsWordShiftImm(i.op)
    ensures Pushes((PushReg(i.Rs1()) + [I32WrapI64])
                   + [I32Const(ShiftAmount(i.Imm(), 32)), I32Bin(WordOp(i.op)), I64ExtendI32S],
                   st, R.AluImm(i.op, s.x[i.Rs1()], i.Imm()))
  {
    var a, sh, bin := s.x[i.Rs1()], ShiftAmount(i.Imm(), 32), WordOp(i.op);
    var st1 := Pushed(st, I32(Wrap32(a)));
    PushWordSteps(i.Rs1(), st, m, s);
    AgreesShiftImm(i.op, a, i.Imm());
    WordBinSteps(bin, Wrap32(a), sh, Some(R.AluImm(i.op, a, i.Imm())), st);
    var op := [I32Const(sh), I32Bin(bin), I64ExtendI32S];
    assert op[1..] == [I32Bin(bin), I64ExtendI32S];
    assert Step(I32Const(sh), st1) == Some(Pushed(st1, I32(sh)));
    ThenOp(PushReg(i.Rs1()) + [I32WrapI64], op, st, st1, R.AluImm(i.op, a, i.Imm()));
  }

  lemma {:induction false} RegImmValue(i: R.Instruction, st: State, m: u32, s: R.Arch)
    requires At(st, m, s) && R.IsRegImm(i.op)
    ensures Pushes(PushReg(i.Rs1()) + RegImmOp(i.op, i.Imm()), st, R.AluImm(i.op, s.x[i.Rs1()], i.Imm()))
  {
    PushRegSteps(i.Rs1(), st, m, s);
    RegImmSteps(i.op, s.x[i.Rs1()], i.Imm(), st);
    ThenOp(PushReg(i.Rs1()), RegImmOp(i.op, i.Imm()), st, Pushed(st, I64(s.x[i.Rs1()])),
           R.AluImm(i.op, s.x[i.Rs1()], i.Imm()));
  }

  lemma {:induction false} SpOffsetValue(i: R.Instruction, st: State, m: u32, s: R.Arch)
    requires At(st, m, s)
    ensures Pushes(PushReg(2) + [I64Const(Wrap64(i.Imm())), I64Bin(Add)], st, Wrap64(s.x[2] + i.Imm()))
  {
    PushRegSteps(2, st, m, s);
    AddConst(s.x[2], i.Imm());
    ConstBinSteps(Wrap64(i.Imm()), Add, s.x[2], Wrap64(s.x[2] + i.Imm()), st);
    ThenOp(PushReg(2), [I64Const(Wrap64(i.Imm())), I64Bin(Add)], st, Pushed(st, I64(s.x[2])),
           Wrap64(s.x[2] + i.Imm()));
  }

  /** The effective address, which keeps its low 32 bits. */
  lemma {:induction false} OffsetSteps(a: u64, imm: i64, st: State)
    ensures AllStraight([I64Const(Wrap64(imm)), I64Bin(Add), I32WrapI64])
    ensures Steps([I64Const(Wrap64(imm)), I64Bin(Add), I32WrapI64], Pushed(st, I64(a)))
         == Some(Pushed(st, I32(Wrap32(Wrap64(a + imm)))))
  {
    var c, v := Wrap64(imm), Wrap64(a + imm);
    AddConst(a, imm);
    ConstBinSteps(c, Add, a, v, st);
    StepsOne(I32WrapI64, Pushed(st, I64(v)));
    Compose([I64Const(c), I64Bin(Add)], [I32WrapI64], Pushed(st, I64(a)), Pushed(st, I64(v)),
            Some(Pushed(st, I32(Wrap32(v)))));
    assert [I64Const(c), I64Bin(Add)] + [I32WrapI64] == [I64Const(c), I64Bin(Add), I32WrapI64];
  }

  lemma {:induction false} AddrSteps(i: R.Instruction, st: State, m: u32, s: R.Arch)
    requires At(st, m, s)
    ensures AllStraight(PushAddr(i))
    ensures Steps(PushAddr(i), st) == Some(Pushed(st, I32(Wrap32(Wrap64(s.x[i.Rs1()] + i.Imm())))))
  {
    var a := s.x[i.Rs1()];
    PushRegSteps(i.Rs1(), st, m, s);
    OffsetSteps(a, i.Imm(), st);
    Compose(PushReg(i.Rs1()), [I64Const(Wrap64(i.Imm())), I64Bin(Add), I32WrapI64], st, Pushed(st, I64(a)),
            Some(Pushed(st, I32(Wrap32(Wrap64(a + i.Imm()))))));
  }

  /** A guest access that RISC-V allows is at the same place in the wasm memory. */
  lemma {:induction false} AccessInMemory(w: Mem, m: u32, s: R.Arch, ea: u64, n: nat)
    requires Holds(w, m, s) && Mapped(s.ram, ea, n) && n > 0
    ensures Wrap32(ea) == ea && Mapped(w, ea, n)
    ensures Load(w, ea, n) == Load(s.ram, ea, n)
  {
    assert ea in s.ram;
    LoadSame(w, s.ram, ea, n);
  }

  lemma {:induction false} LoadStep(ld: Inst, w: nat, signed: bool, st: State, m: u32, s: R.Arch, ea: u64)
    requires At(st, m, s) && w > 0 && Mapped(s.ram, ea, w) && ld == I64Load(w, signed, 0)
    ensures Wrap32(ea) == ea
    ensures Steps([ld], Pushed(st, I32(ea))) == Some(Pushed(st, I64(R.Loaded(Load(s.ram, ea, w), w, signed))))
  {
    AccessInMemory(st.mem, m, s, ea, w);
    StepsOne(ld, Pushed(st, I32(ea)));
  }

  lemma {:induction false} LoadValue(i: R.Instruction, st: State, m: u32, s: R.Arch)
    requires At(st, m, s) && R.AccessOf(i.op).LoadOf?
    requires Mapped(s.ram, Wrap64(s.x[i.Rs1()] + i.Imm()), R.AccessOf(i.op).width)
    ensures var acc, ea := R.AccessOf(i.op), Wrap64(s.x[i.Rs1()] + i.Imm());
            Pushes(PushAddr(i) + [I64Load(acc.width, acc.signed, 0)], st,
                   R.Loaded(Load(s.ram, ea, acc.width), acc.width, acc.signed))
  {
    var w, signed, ea := R.AccessOf(i.op).width, R.AccessOf(i.op).signed, Wrap64(s.x[i.Rs1()] + i.Imm());
    var ld := I64Load(w, signed, 0);
    AddrSteps(i, st, m, s);
    LoadStep(ld, w, signed, st, m, s, ea);
    ThenOp(PushAddr(i), [ld], st, Pushed(st, I32(ea)), R.Loaded(Load(s.ram, ea, w), w, signed));
  }

  /** Storing to guest RAM leaves the register file alone. */
  lemma {:induction false} StoreRam(w: Mem, m: u32, s: R.Arch, ea: u64, n: nat, v: u64)
    requires Holds(w, m, s) && Mapped(s.ram, ea, n) && Mapped(w, ea, n)
    ensures Holds(Store(w, ea, n, v), m, s.(ram := Store(s.ram, ea, n, v)))
  {
    var w', ram' := Store(w, ea, n, v), Store(s.ram, ea, n, v);
    forall r: R.Reg ensures Load(w', m + 8 * r, 8) == s.x[r] {
      forall k | m + 8 * r <= k < m + 8 * r + 8 ensures w'[k] == w[k] {
        assert InFile(k, m);
        assert k !in s.ram;
      }
      LoadSame(w', w, m + 8 * r, 8);
    }
    StoreAgrees(w, s.ram, ea, n, v);
  }

  /** A store whose address and value code push `ea` and `v`. */
  lemma {:induction false} StoreRuns(ac: Code, vc: Code, width: nat, ea: u32, v: u64, st: State)
    requires AllStraight(ac) && Steps(ac, st) == Some(Pushed(st, I32(ea)))
    requires Pushes(vc, Pushed(st, I32(ea)), v) && Mapped(st.mem, ea, width)
    ensures AllStraight(ac + vc + [I64Store(width, 0)])
    ensures Steps(ac + vc + [I64Store(width, 0)], st) == Some(st.(mem := Store(st.mem, ea, width, v)))
  {
    var st2 := Pushed(Pushed(st, I32(ea)), I64(v));
    Compose(ac, vc, st, Pushed(st, I32(ea)), Some(st2));
    StepsOne(I64Store(width, 0), st2);
    Compose(ac + vc, [I64Store(width, 0)], st, st2, Some(st.(mem := Store(st.mem, ea, width, v))));
  }

  lemma {:induction false} StoreForm(i: R.Instruction, s: R.Arch, s': R.Arch)
    requires R.AccessOf(i.op).StoreOf? && R.Step(i, s) == Some(s')
    ensures var n, ea := R.AccessOf(i.op).width, Wrap64(s.x[i.Rs1()] + i.Imm());
            && InstCode(i) == PushAddr(i) + PushReg(i.Rs2()) + [I64Store(n, 0)]
            && Mapped(s.ram, ea, n) && s' == s.(ram := Store(s.ram, ea, n, s.x[i.Rs2()]))
  {
  }

  lemma {:induction false} StoreSteps(i: R.Instruction, st: State, m: u32, s: R.Arch, s': R.Arch)
    requires At(st, m, s) && R.AccessOf(i.op).StoreOf? && R.Step(i, s) == Some(s')
    ensures Leads(InstCode(i), st, m, s')
  {
    var n, ea := R.AccessOf(i.op).width, Wrap64(s.x[i.Rs1()] + i.Imm());
    StoreForm(i, s, s');
    AccessInMemory(st.mem, m, s, ea, n);
    AddrSteps(i, st, m, s);
    PushRegSteps(i.Rs2(), Pushed(st, I32(ea)), m, s);
    StoreRuns(PushAddr(i), PushReg(i.Rs2()), n, ea, s.x[i.Rs2()], st);
    StoreRam(st.mem, m, s, ea, n, s.x[i.Rs2()]);
  }

  lemma {:induction false} LoadForm(i: R.Instruction, s: R.Arch, s': R.Arch)
    requires R.AccessOf(i.op).LoadOf? && R.Step(i, s) == Some(s')
    ensures var acc, ea := R.AccessOf(i.op), Wrap64(s.x[i.Rs1()] + i.Imm());
            && InstCode(i) == Assign(i.Rd(), PushAddr(i) + [I64Load(acc.width, acc.signed, 0)])
            && Mapped(s.ram, ea, acc.width)
            && s' == s.(x := R.SetReg(s.x, i.Rd(), R.Loaded(Load(s.ram, ea, acc.width), acc.width, acc.signed)))
  {
  }

  lemma {:induction false} LoadSteps(i: R.Instruction, st: State, m: u32, s: R.Arch, s': R.Arch)
    requires At(st, m, s) && R.AccessOf(i.op).LoadOf? && R.Step(i, s) == Some(s')
    ensures Leads(InstCode(i), st, m, s')
  {
    var acc, ea := R.AccessOf(i.op), Wrap64(s.x[i.Rs1()] + i.Imm());
    LoadForm(i, s, s');
    LoadValue(i, Pushed(st, I32(m)), m, s);
    AssignLeads(i.Rd(), PushAddr(i) + [I64Load(acc.width, acc.signed, 0)],
                R.Loaded(Load(s.ram, ea, acc.width), acc.width, acc.signed), st, m, s);
  }

  /** When the emitted code computes the instruction: a division WebAssembly defines,
      and a high multiply, stored as the constant 0, whose product fits the low word. */
  predicate Faithful(i: R.Instruction, x: R.Regs) {
    var a, b := x[i.Rs1()], x[i.Rs2()];
    && !i.op.Unknown?
    && (R.IsRegReg(i.op) || R.IsWordRegReg(i.op) ==> i.Rd() == 0 || !Traps(i.op, a, b))
    && (R.IsMulHigh(i.op) ==> i.Rd() == 0 || ProductFits(i.op, a, b))
  }

  /** Running `code` in `st` leaves the operand stack, locals and labels as they were and
      the memory holding `s'`. */
  ghost predicate Leads(code: Code, st: State, m: u32, s': R.Arch) {
    && AllStraight(code)
    && Steps(code, st).Some?
    && var st' := Steps(code, st).value;
       st' == st.(mem := st'.mem) && At(st', m, s')
  }

  /** An assignment whose value code traps. */
  lemma {:induction false} AssignTraps(rd: R.Reg, e: Code, st: State, m: u32, s: R.Arch)
    requires At(st, m, s) && rd != 0
    requires AllStraight(e) && Steps(e, Pushed(st, I32(m))) == None
    ensures AllStraight(Assign(rd, e)) && Steps(Assign(rd, e), st) == None
  {
    StepsOne(LocalGet(0), st);
    StepsAppend([LocalGet(0)], e, st);
    StepsAppend([LocalGet(0)] + e, [I64Store(8, 8 * rd)], st);
  }

  /** The kinds of instruction exclude one another. */
  lemma {:induction false} Kinds(op: R.Opcode)
    ensures R.IsRegReg(op) || R.IsWordRegReg(op) || R.IsMulHigh(op) ==>
              R.AccessOf(op) == R.NoAccess && !R.IsRegImm(op) && !R.IsWordShiftImm(op)
    ensures !(R.IsRegReg(op) && R.IsWordRegReg(op))
    ensures R.IsMulHigh(op) ==> !R.IsRegReg(op) && !R.IsWordRegReg(op)
  {
    if R.IsRegReg(op) {
      KindRegReg(op);
    } else if R.IsWordRegReg(op) {
      KindWord(op);
    }
  }

  lemma {:induction false} KindRegReg(op: R.Opcode)
    requires R.IsRegReg(op)
    ensures R.AccessOf(op) == R.NoAccess && !R.IsRegImm(op) && !R.IsWordShiftImm(op)
    ensures !R.IsWordRegReg(op) && !R.IsMulHigh(op)
  {
    OnlyRegReg(op);
  }

  lemma {:induction false} OnlyRegReg(op: R.Opcode)
    requires R.IsRegReg(op)
    ensures !R.IsRegImm(op) && !R.IsWordShiftImm(op) && !R.IsWordRegReg(op) && !R.IsMulHigh(op)
  {
  }

  lemma {:induction false} KindWord(op: R.Opcode)
    requires R.IsWordRegReg(op)
    ensures R.AccessOf(op) == R.NoAccess && !R.IsRegImm(op) && !R.IsWordShiftImm(op)
    ensures !R.IsRegReg(op) && !R.IsMulHigh(op)
  {
    NoAccessWord(op);
    OnlyWord(op);
  }

  lemma {:induction false} NoAccessWord(op: R.Opcode)
    requires R.IsWordRegReg(op)
    ensures R.AccessOf(op) == R.NoAccess
  {
  }

  lemma {:induction false} OnlyWord(op: R.Opcode)
    requires R.IsWordRegReg(op)
    ensures !R.IsRegImm(op) && !R.IsWordShiftImm(op) && !R.IsRegReg(op) && !R.IsMulHigh(op)
  {
  }

  /** What the code and the ISA say about a register-register instruction. */
  lemma {:induction false} RegRegForm(i: R.Instruction, s: R.Arch)
    requires R.IsRegReg(i.op) || R.IsWordRegReg(i.op)
    ensures InstCode(i) == Assign(i.Rd(), RegRegValueCode(i))
    ensures R.Step(i, s) == Some(s.(x := R.SetReg(s.x, i.Rd(), R.Alu(i.op, s.x[i.Rs1()], s.x[i.Rs2()]))))
  {
    Kinds(i.op);
  }

  function RegRegValueCode(i: R.Instruction): Code
    requires R.IsRegReg(i.op) || R.IsWordRegReg(i.op)
  {
    if R.IsRegReg(i.op) then PushReg(i.Rs1()) + PushReg(i.Rs2()) + RegRegOp(i.op)
    else (PushReg(i.Rs1()) + [I32WrapI64]) + (PushReg(i.Rs2()) + [I32WrapI64])
         + [I32Bin(WordOp(i.op)), I64ExtendI32S]
  }

  lemma {:induction false} AssignLeads(rd: R.Reg, e: Code, v: u64, st: State, m: u32, s: R.Arch)
    requires At(st, m, s)
    requires rd != 0 ==> Pushes(e, Pushed(st, I32(m)), v)
    ensures Leads(Assign(rd, e), st, m, s.(x := R.SetReg(s.x, rd, v)))
  {
    AssignSteps(rd, e, v, st, m, s);
  }

  /** A result that is assigned, or a trap. */
  lemma {:induction false} AssignResult(rd: R.Reg, e: Code, r: Option<u64>, v: u64, st: State, m: u32, s: R.Arch)
    requires At(st, m, s) && AllStraight(e)
    requires Steps(e, Pushed(st, I32(m))) == AsPush(Pushed(st, I32(m)), r)
    requires r == None || r == Some(v)
    ensures rd == 0 || r != None ==> Leads(Assign(rd, e), st, m, s.(x := R.SetReg(s.x, rd, v)))
    ensures rd != 0 && r == None ==> AllStraight(Assign(rd, e)) && Steps(Assign(rd, e), st) == None
  {
    if rd == 0 || r != None {
      AssignLeads(rd, e, v, st, m, s);
    } else {
      AssignTraps(rd, e, st, m, s);
    }
  }

  lemma {:induction false} RegRegCorrect(i: R.Instruction, st: State, m: u32, s: R.Arch, s': R.Arch)
    requires At(st, m, s) && (R.IsRegReg(i.op) || R.IsWordRegReg(i.op)) && R.Step(i, s) == Some(s')
    ensures AllStraight(InstCode(i))
    ensures Faithful(i, s.x) <==> Leads(InstCode(i), st, m, s')
  {
    var a, b, st1 := s.x[i.Rs1()], s.x[i.Rs2()], Pushed(st, I32(m));
    Kinds(i.op);
    RegRegForm(i, s);
    if R.IsRegReg(i.op) { RegRegValue(i, st1, m, s); } else { WordRegRegValue(i, st1, m, s); }
    AssignResult(i.Rd(), RegRegValueCode(i), Result(i.op, a, b), R.Alu(i.op, a, b), st, m, s);
  }

  lemma {:induction false} ConstPushes(c: u64, st: State)
    ensures Pushes([I64Const(c)], st, c)
  {
    StepsOne(I64Const(c), st);
  }

  /** Two register values in the same slot are the same. */
  lemma {:induction false} HoldsOne(w: Mem, m: u32, s: R.Arch, x1: R.Regs, x2: R.Regs, r: R.Reg)
    requires Holds(w, m, s.(x := x1)) && Holds(w, m, s.(x := x2))
    ensures x1[r] == x2[r]
  {
    assert Load(w, m + 8 * r, 8) == s.(x := x1).x[r];
    assert Load(w, m + 8 * r, 8) == s.(x := x2).x[r];
  }

  lemma {:induction false} MulHighForm(i: R.Instruction, s: R.Arch)
    requires R.IsMulHigh(i.op)
    ensures InstCode(i) == Assign(i.Rd(), [I64Const(0)])
    ensures R.Step(i, s) == Some(s.(x := R.SetReg(s.x, i.Rd(), R.Alu(i.op, s.x[i.Rs1()], s.x[i.Rs2()]))))
  {
    Kinds(i.op);
  }

  /** A high multiply is correct exactly when its product fits the low word. */
  lemma {:induction false} MulHighCorrect(i: R.Instruction, st: State, m: u32, s: R.Arch, s': R.Arch)
    requires At(st, m, s) && R.IsMulHigh(i.op) && R.Step(i, s) == Some(s')
    ensures AllStraight(InstCode(i)) && (Faithful(i, s.x) <==> Leads(InstCode(i), st, m, s'))
  {
    var v := R.Alu(i.op, s.x[i.Rs1()], s.x[i.Rs2()]);
    HighZeroExact(i.op, s.x[i.Rs1()], s.x[i.Rs2()]);
    Kinds(i.op);
    MulHighForm(i, s);
    ConstPushes(0, Pushed(st, I32(m)));
    AssignLeads(i.Rd(), [I64Const(0)], 0, st, m, s);
    if Leads(InstCode(i), st, m, s') {
      HoldsOne(Steps(InstCode(i), st).value.mem, m, s, R.SetReg(s.x, i.Rd(), 0), R.SetReg(s.x, i.Rd(), v), i.Rd());
    }
  }

  /** One instruction: the emitted code does what RISC-V does if and only if the
      instruction is faithful in these registers. */
  lemma {:induction false} InstructionCorrect(i: R.Instruction, st: State, m: u32, s: R.Arch, s': R.Arch)
    requires At(st, m, s) && R.Step(i, s) == Some(s') && !i.op.Unknown?
    ensures AllStraight(InstCode(i))
    ensures Faithful(i, s.x) <==> Leads(InstCode(i), st, m, s')
  {
    Kinds(i.op);
    if R.AccessOf(i.op).LoadOf? {
      LoadSteps(i, st, m, s, s');
    } else if R.AccessOf(i.op).StoreOf? {
      StoreSteps(i, st, m, s, s');
    } else if R.IsRegReg(i.op) || R.IsWordRegReg(i.op) {
      RegRegCorrect(i, st, m, s, s');
    } else if R.IsMulHigh(i.op) {
      MulHighCorrect(i, st, m, s, s');
    } else if R.IsRegImm(i.op) || R.IsWordShiftImm(i.op) {
      ImmCorrect(i, st, m, s, s');
    } else {
      OtherCorrect(i, st, m, s, s');
    }
  }

  lemma {:induction false} ImmCorrect(i: R.Instruction, st: State, m: u32, s: R.Arch, s': R.Arch)
    requires At(st, m, s) && R.AccessOf(i.op).NoAccess? && R.Step(i, s) == Some(s')
    requires !R.IsRegReg(i.op) && !R.IsWordRegReg(i.op) && !R.IsMulHigh(i.op)
    requires R.IsRegImm(i.op) || R.IsWordShiftImm(i.op)
    ensures Leads(InstCode(i), st, m, s')
  {
    var rd, st1, v := i.Rd(), Pushed(st, I32(m)), R.AluImm(i.op, s.x[i.Rs1()], i.Imm());
    if R.IsRegImm(i.op) {
      RegImmValue(i, st1, m, s);
      AssignLeads(rd, PushReg(i.Rs1()) + RegImmOp(i.op, i.Imm()), v, st, m, s);
    } else {
      WordShiftValue(i, st1, m, s);
      AssignLeads(rd, (PushReg(i.Rs1()) + [I32WrapI64])
                      + [I32Const(ShiftAmount(i.Imm(), 32)), I32Bin(WordOp(i.op)), I64ExtendI32S], v, st, m, s);
    }
  }

  predicate IsOther(op: R.Opcode) {
    && R.AccessOf(op).NoAccess? && !op.Unknown? && !R.IsRegReg(op) && !R.IsWordRegReg(op) && !R.IsMulHigh(op)
    && !R.IsRegImm(op) && !R.IsWordShiftImm(op)
  }

  predicate IsMove(op: R.Opcode) { op.LUI? || op.C_LUI? || op.AUIPC? || op.C_MV? || op.C_ADDI4SPN? || op.C_ADDI16SP? }

  /** The register, code and value of a constant, a move or a stack-pointer offset. */
  lemma {:induction false} MoveForm(i: R.Instruction, s: R.Arch) returns (rd: R.Reg, e: Code, v: u64)
    requires IsOther(i.op) && IsMove(i.op)
    ensures InstCode(i) == Assign(rd, e) && R.Step(i, s) == Some(s.(x := R.SetReg(s.x, rd, v)))
    ensures || e == [I64Const(v)] || (e == PushReg(i.Rs2()) && v == s.x[i.Rs2()])
            || (e == PushReg(2) + [I64Const(Wrap64(i.Imm())), I64Bin(Add)] && v == Wrap64(s.x[2] + i.Imm()))
  {
    if i.op.LUI? || i.op.C_LUI? {
      rd, e, v := i.Rd(), [I64Const(Wrap64(i.Imm()))], Wrap64(i.Imm());
    } else if i.op.AUIPC? {
      rd, e, v := i.Rd(), [I64Const(Wrap64(i.addr + i.Imm()))], Wrap64(i.addr + i.Imm());
    } else if i.op.C_MV? {
      rd, e, v := i.Rd(), PushReg(i.Rs2()), s.x[i.Rs2()];
    } else {
      rd := if i.op.C_ADDI4SPN? then i.Rd() else 2;
      e, v := PushReg(2) + [I64Const(Wrap64(i.Imm())), I64Bin(Add)], Wrap64(s.x[2] + i.Imm());
    }
  }

  lemma {:induction false} NoneForm(i: R.Instruction, s: R.Arch)
    requires IsOther(i.op) && !IsMove(i.op)
    ensures InstCode(i) == [] && R.Step(i, s) == Some(s)
  {
  }

  lemma {:induction false} OtherCorrect(i: R.Instruction, st: State, m: u32, s: R.Arch, s': R.Arch)
    requires At(st, m, s) && IsOther(i.op) && R.Step(i, s) == Some(s')
    ensures Leads(InstCode(i), st, m, s')
  {
    var st1 := Pushed(st, I32(m));
    if IsMove(i.op) {
      var rd, e, v := MoveForm(i, s);
      if e == [I64Const(v)] {
        ConstPushes(v, st1);
      } else if e == PushReg(i.Rs2()) && v == s.x[i.Rs2()] {
        PushRegSteps(i.Rs2(), st1, m, s);
      } else {
        SpOffsetValue(i, st1, m, s);
      }
      AssignLeads(rd, e, v, st, m, s);
    } else {
      NoneForm(i, s);
    }
  }

  /** Every instruction of the run is faithful where it is reached. */
  ghost predicate FaithfulRun(insts: seq<R.Instruction>, s: R.Arch) {
    insts != [] ==>
      && Faithful(insts[0], s.x)
      && (R.Step(insts[0], s).Some? ==> FaithfulRun(insts[1..], R.Step(insts[0], s).value))
  }

  /** Any list of instructions: same registers and RAM as RISC-V, operand stack as before. */
  lemma {:induction false} BodyCorrect(insts: seq<R.Instruction>, st: State, m: u32, s: R.Arch)
    requires At(st, m, s) && FaithfulRun(insts, s) && R.Run(insts, s).Some?
    ensures Leads(InstCodes(insts), st, m, R.Run(insts, s).value)
    decreases |insts|
  {
    if insts != [] {
      InstructionCorrect(insts[0], st, m, s, R.Step(insts[0], s).value);
      var st1 := Steps(InstCode(insts[0]), st).value;
      BodyCorrect(insts[1..], st1, m, R.Step(insts[0], s).value);
      StepsAppend(InstCode(insts[0]), InstCodes(insts[1..]), st);
    }
  }
}
