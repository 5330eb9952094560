/** Translation of a basic block to a WebAssembly function body. Register x_r lives
    at byte 8*r of the machine state that local 0 points to. */
module Translate {
  import opened Words
  import opened Wasm
  import R = RiscV

  type Code = seq<Inst>

  datatype BasicBlock = BasicBlock(
    start: u64, end: int, instructions: seq<R.Instruction>, successors: seq<int>)

  /** Pushes x[r]. */
  function PushReg(r: R.Reg): Code { [LocalGet(0), I64Load(8, false, 8 * r)] }

  /** x[rd] = the value `value` pushes; a write to x0 emits nothing. */
  function Assign(rd: R.Reg, value: Code): Code {
    if rd == 0 then [] else [LocalGet(0)] + value + [I64Store(8, 8 * rd)]
  }

  /** Pushes the 32-bit address x[rs1] + imm. */
  function PushAddr(i: R.Instruction): Code {
    PushReg(i.Rs1()) + [I64Const(Wrap64(i.Imm())), I64Bin(Add), I32WrapI64]
  }

  /** The 64-bit operation of a register-register instruction. */
  function RegRegBin(op: R.Opcode): Bin
    requires R.IsRegReg(op) && !op.SLT? && !op.SLTU?
  {
    match op
    case ADD | C_ADD => Add
    case SUB | C_SUB => Sub
    case AND | C_AND => Logic(And)
    case OR | C_OR => Logic(Or)
    case XOR | C_XOR => Logic(Xor)
    case SLL => Shl
    case SRL => ShrU
    case SRA => ShrS
    case MUL => Mul
    case DIV => DivS
    case DIVU => DivU
    case REM => RemS
    case REMU => RemU
  }

  function RegRegOp(op: R.Opcode): Code
    requires R.IsRegReg(op)
  {
    if op.SLT? then [I64Rel(LtS), I64ExtendI32U]
    else if op.SLTU? then [I64Rel(LtU), I64ExtendI32U]
    else [I64Bin(RegRegBin(op))]
  }

  /** `imm & 0x3f` or `imm & 0x1f`: by AndLowMask, the remainder by 64 or 32. */
  function ShiftAmount(imm: int, n: nat): u32
    requires n == 32 || n == 64
  {
    Wrap64(imm) % n
  }

  /** The 64-bit operation of a register-immediate instruction. */
  function RegImmBin(op: R.Opcode): Bin
    requires R.IsRegImm(op) && !op.SLTI? && !op.SLTIU?
  {
    match op
    case ADDI | C_ADDI | C_LI | ADDIW | C_ADDIW => Add
    case ANDI | C_ANDI => Logic(And)
    case ORI => Logic(Or)
    case XORI => Logic(Xor)
    case SLLI | C_SLLI => Shl
    case SRLI | C_SRLI => ShrU
    case SRAI | C_SRAI => ShrS
  }

  /** The constant operand: the immediate, masked for a shift. */
  function ImmConst(op: R.Opcode, imm: i64): u64
    requires R.IsRegImm(op) && !op.SLTI? && !op.SLTIU?
  {
    if RegImmBin(op) in {Shl, ShrU, ShrS} then ShiftAmount(imm, 64) else Wrap64(imm)
  }

  /** The immediate constant and the operation on it. */
  function RegImmOp(op: R.Opcode, imm: i64): Code
    requires R.IsRegImm(op)
  {
    var c := I64Const(Wrap64(imm));
    if op.SLTI? then [c, I64Rel(LtS), I64ExtendI32U]
    else if op.SLTIU? then [c, I64Rel(LtU), I64ExtendI32U]
    else if op.ADDIW? || op.C_ADDIW? then [c, I64Bin(Add), I32WrapI64, I64ExtendI32S]
    else [I64Const(ImmConst(op, imm)), I64Bin(RegImmBin(op))]
  }

  /** The 32-bit operation of a word instruction. */
  function WordOp(op: R.Opcode): Bin
    requires R.IsWordRegReg(op) || R.IsWordShiftImm(op)
  {
    match op
    case ADDW | C_ADDW => Add
    case SUBW | C_SUBW => Sub
    case SLLW | SLLIW => Shl
    case SRLW | SRLIW => ShrU
    case SRAW | SRAIW => ShrS
    case MULW => Mul
    case DIVW => DivS
    case DIVUW => DivU
    case REMW => RemS
    case REMUW => RemU
  }

  /** The code pushed for one instruction. Control transfers are left to the end of
      the block; an opcode with no translation returns -1. */
  function InstCode(i: R.Instruction): Code {
    var rd, a, b := i.Rd(), PushReg(i.Rs1()), PushReg(i.Rs2());
    var acc := R.AccessOf(i.op);
    if acc.LoadOf? then Assign(rd, PushAddr(i) + [I64Load(acc.width, acc.signed, 0)])
    else if acc.StoreOf? then PushAddr(i) + b + [I64Store(acc.width, 0)]
    else if R.IsRegReg(i.op) then Assign(rd, a + b + RegRegOp(i.op))
    else if R.IsRegImm(i.op) then Assign(rd, a + RegImmOp(i.op, i.Imm()))
    else if R.IsWordRegReg(i.op) then
      Assign(rd, (a + [I32WrapI64]) + (b + [I32WrapI64]) + [I32Bin(WordOp(i.op)), I64ExtendI32S])
    else if R.IsWordShiftImm(i.op) then
      Assign(rd, (a + [I32WrapI64]) + [I32Const(ShiftAmount(i.Imm(), 32)), I32Bin(WordOp(i.op)), I64ExtendI32S])
    else if R.IsMulHigh(i.op) then Assign(rd, [I64Const(0)])
    else if i.op.LUI? || i.op.C_LUI? then Assign(rd, [I64Const(Wrap64(i.Imm()))])
    else if i.op.AUIPC? then Assign(rd, [I64Const(Wrap64(i.addr + i.Imm()))])
    else if i.op.C_MV? then Assign(rd, b)
    else if i.op.C_ADDI4SPN? then Assign(rd, PushReg(2) + [I64Const(Wrap64(i.Imm())), I64Bin(Add)])
    else if i.op.C_ADDI16SP? then Assign(2, PushReg(2) + [I64Const(Wrap64(i.Imm())), I64Bin(Add)])
    else if i.op.Unknown? then [Comment, I32Const(Wrap32(-1)), Return]
    else []
  }

  /** Bodies of the block's instructions, in order. */
  function InstCodes(insts: seq<R.Instruction>): Code {
    if insts == [] then [] else InstCode(insts[0]) + InstCodes(insts[1..])
  }

  function BranchRel(op: R.Opcode): Rel
    requires op.IsBranch() && !op.C_BEQZ? && !op.C_BNEZ?
  {
    match op
    case BEQ => Eq
    case BNE => Ne
    case BLT => LtS
    case BGE => GeS
    case BLTU => LtU
    case BGEU => GeU
  }

  /** Return `target` or `fallthrough`: the comparison is pushed below the two
      addresses, as emitted. */
  function BranchCode(i: R.Instruction, fallthrough: int): Code
    requires i.op.IsBranch()
  {
    var t, f := I32Const(Wrap32(i.Target())), I32Const(Wrap32(fallthrough));
    if i.op.C_BEQZ? then PushReg(i.Rs1()) + [I64Eqz, t, f, Select, Return]
    else if i.op.C_BNEZ? then PushReg(i.Rs1()) + [I64Eqz, f, t, Select, Return]
    else PushReg(i.Rs1()) + PushReg(i.Rs2()) + [I64Rel(BranchRel(i.op)), t, f, Select, Return]
  }

  /** The first two successors that are known blocks. */
  function CachedTargets(successors: seq<int>, icTargets: seq<int>, max: nat): (r: seq<int>)
    ensures |r| <= max && forall t | t in r :: t in successors && t in icTargets
  {
    if successors == [] || max == 0 then []
    else if successors[0] in icTargets then [successors[0]] + CachedTargets(successors[1..], icTargets, max - 1)
    else CachedTargets(successors[1..], icTargets, max)
  }

  /** One inline-cache guard: return the cached target when it is the computed one. */
  function Guard(t: int): Code {
    var c := I32Const(Wrap32(t));
    [Block, LocalGet(1), c, I32Rel(Ne), BrIf(0), c, Return, End]
  }

  function Guards(ts: seq<int>): Code {
    if ts == [] then [] else Guard(ts[0]) + Guards(ts[1..])
  }

  function LinkCode(i: R.Instruction): Code { Assign(i.Rd(), [I64Const(Wrap64(i.NextAddr()))]) }

  /** Pushes (x[rs1] + imm) & !1 as an i32. */
  function PushJalrTarget(i: R.Instruction): Code {
    PushReg(i.Rs1())
    + (if i.Imm() == 0 then [] else [I64Const(Wrap64(i.Imm())), I64Bin(Add)])
    + [I64Const(TWO64 - 2), I64Bin(Logic(And)), I32WrapI64]
  }

  function JalrCode(i: R.Instruction, cached: seq<int>): Code {
    LinkCode(i) + PushJalrTarget(i)
    + (if cached == [] then [Return] else [LocalSet(1)] + Guards(cached) + [LocalGet(1), Return])
  }

  const SYSCALL_FLAG: u32 := 0x8000_0000
  const BREAK_FLAG: u32 := 0xC000_0000

  /** The return of the next pc after the last instruction. */
  function TerminatorCode(i: R.Instruction, block: BasicBlock, icTargets: seq<int>): Code {
    if i.op.IsBranch() then BranchCode(i, block.end)
    else if i.op.JAL? || i.op.C_JAL? then LinkCode(i) + [I32Const(Wrap32(i.Target())), Return]
    else if i.op.C_J? then [I32Const(Wrap32(i.Target())), Return]
    else if i.op.JALR? || i.op.C_JALR? then
      JalrCode(i, if i.Rd() != 0 then CachedTargets(block.successors, icTargets, 2) else [])
    else if i.op.C_JR? then PushReg(i.Rs1()) + [I32WrapI64, Return]
    else if i.op.ECALL? then [I32Const(Bits32(Or, SYSCALL_FLAG, Wrap32(i.addr))), Return]
    else if i.op.EBREAK? || i.op.C_EBREAK? then [I32Const(Bits32(Or, BREAK_FLAG, Wrap32(i.addr))), Return]
    else [I32Const(Wrap32(block.end)), Return]
  }

  function BlockCode(block: BasicBlock, icTargets: seq<int>): Code {
    var insts := block.instructions;
    InstCodes(insts)
    + if insts == [] then [I32Const(Wrap32(block.end)), Return]
      else TerminatorCode(insts[|insts| - 1], block, icTargets)
  }

  lemma {:induction false} CodesStep(body: Code, insts: seq<R.Instruction>, k: nat)
    requires k < |insts|
    ensures body + InstCodes(insts[k..]) == body + InstCode(insts[k]) + InstCodes(insts[k + 1..])
  {
    assert insts[k..][1..] == insts[k + 1..];
    Assoc(body, InstCode(insts[k]), InstCodes(insts[k + 1..]), []);
  }

  /** The loop of translate_block: appends the code of each instruction. */
  method EmitInstructions(insts: seq<R.Instruction>) returns (body: Code)
    ensures body == InstCodes(insts)
  {
    body := [];
    for k := 0 to |insts|
      invariant body + InstCodes(insts[k..]) == InstCodes(insts)
    {
      CodesStep(body, insts, k);
      body := body + InstCode(insts[k]);
    }
  }

  /** The loop of add_terminator_return over the cached targets. */
  method EmitGuards(cached: seq<int>) returns (body: Code)
    ensures body == Guards(cached)
  {
    body := [];
    for k := 0 to |cached|
      invariant body + Guards(cached[k..]) == Guards(cached)
    {
      ghost var before := body;
      assert cached[k..][1..] == cached[k + 1..];
      body := body + Guard(cached[k]);
      assert before + (Guard(cached[k]) + Guards(cached[k + 1..])) == body + Guards(cached[k + 1..]);
    }
  }

  /** emit_branch_compare and emit_branch_zero. */
  method EmitBranch(start: Code, i: R.Instruction, next: int) returns (body: Code)
    requires i.op.IsBranch()
    ensures body == start + BranchCode(i, next)
  {
    var target, fallthrough := I32Const(Wrap32(i.Target())), I32Const(Wrap32(next));
    body := start + [LocalGet(0)];
    body := body + [I64Load(8, false, 8 * i.Rs1())];
    if i.op.C_BEQZ? || i.op.C_BNEZ? {
      body := body + [I64Eqz];
    } else {
      body := body + [LocalGet(0)];
      body := body + [I64Load(8, false, 8 * i.Rs2())];
      body := body + [I64Rel(BranchRel(i.op))];
    }
    if i.op.C_BNEZ? {
      body := body + [fallthrough];
      body := body + [target];
    } else {
      body := body + [target];
      body := body + [fallthrough];
    }
    body := body + [Select];
    body := body + [Return];
  }

  /** The link of a call, unless it goes to x0. */
  method EmitLink(start: Code, i: R.Instruction) returns (body: Code)
    ensures body == start + LinkCode(i)
  {
    body := start;
    if i.Rd() != 0 {
      body := body + [LocalGet(0)];
      body := body + [I64Const(Wrap64(i.NextAddr()))];
      body := body + [I64Store(8, 8 * i.Rd())];
    }
  }

  /** The target of an indirect jump. */
  method EmitJalrTarget(start: Code, i: R.Instruction) returns (body: Code)
    ensures body == start + PushJalrTarget(i)
  {
    body := start + [LocalGet(0)];
    body := body + [I64Load(8, false, 8 * i.Rs1())];
    if i.Imm() != 0 {
      body := body + [I64Const(Wrap64(i.Imm()))];
      body := body + [I64Bin(Add)];
    }
    body := body + [I64Const(TWO64 - 2)];
    body := body + [I64Bin(Logic(And))];
    body := body + [I32WrapI64];
  }

  /** An indirect jump: link, target, guards over the cached targets. */
  method EmitJalr(i: R.Instruction, block: BasicBlock, icTargets: seq<int>) returns (body: Code)
    ensures body == JalrCode(i, if i.Rd() != 0 then CachedTargets(block.successors, icTargets, 2) else [])
  {
    body := EmitLink([], i);
    body := EmitJalrTarget(body, i);
    var cached := if i.Rd() != 0 then CachedTargets(block.successors, icTargets, 2) else [];
    if cached != [] {
      body := body + [LocalSet(1)];
      var guards := EmitGuards(cached);
      body := body + guards;
      body := body + [LocalGet(1)];
    }
    body := body + [Return];
  }

  /** add_terminator_return. */
  method EmitTerminator(i: R.Instruction, block: BasicBlock, icTargets: seq<int>) returns (body: Code)
    ensures body == TerminatorCode(i, block, icTargets)
  {
    body := [];
    if i.op.IsBranch() {
      body := EmitBranch(body, i, block.end);
      return;
    } else if i.op.JALR? || i.op.C_JALR? {
      body := EmitJalr(i, block, icTargets);
      return;
    } else if i.op.JAL? || i.op.C_JAL? {
      body := EmitLink(body, i);
      body := body + [I32Const(Wrap32(i.Target()))];
    } else if i.op.C_J? {
      body := body + [I32Const(Wrap32(i.Target()))];
    } else if i.op.C_JR? {
      body := body + [LocalGet(0)];
      body := body + [I64Load(8, false, 8 * i.Rs1())];
      body := body + [I32WrapI64];
    } else if i.op.ECALL? {
      body := body + [I32Const(Bits32(Or, SYSCALL_FLAG, Wrap32(i.addr)))];
    } else if i.op.EBREAK? || i.op.C_EBREAK? {
      body := body + [I32Const(Bits32(Or, BREAK_FLAG, Wrap32(i.addr)))];
    } else {
      body := body + [I32Const(Wrap32(block.end))];
    }
    body := body + [Return];
  }

  /** translate_block: the instructions, then the return of the next pc. */
  method TranslateBlock(block: BasicBlock, icTargets: seq<int>) returns (body: Code)
    ensures body == BlockCode(block, icTargets)
  {
    var insts := block.instructions;
    body := EmitInstructions(insts);
    var tail := [I32Const(Wrap32(block.end)), Return];
    if insts != [] {
      tail := EmitTerminator(insts[|insts| - 1], block, icTargets);
    }
    body := body + tail;
  }
}
