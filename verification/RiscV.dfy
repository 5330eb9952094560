/** Decoded RV64 integer instructions and their meaning in the RISC-V Unprivileged
    ISA 20191213 (chapters 2, 5, 7 and 16; a compressed form means its expansion). */
module RiscV {
  import opened Words
  import opened Memory

  datatype Opcode =
    | LUI | AUIPC | JAL | JALR | BEQ | BNE | BLT | BGE | BLTU | BGEU
    | LB | LH | LW | LBU | LHU | SB | SH | SW
    | ADDI | SLTI | SLTIU | XORI | ORI | ANDI | SLLI | SRLI | SRAI
    | ADD | SUB | SLL | SLT | SLTU | XOR | SRL | SRA | OR | AND
    | FENCE | ECALL | EBREAK
    | LWU | LD | SD | ADDIW | SLLIW | SRLIW | SRAIW | ADDW | SUBW | SLLW | SRLW | SRAW
    | MUL | MULH | MULHSU | MULHU | DIV | DIVU | REM | REMU
    | MULW | DIVW | DIVUW | REMW | REMUW
    | C_ADDI4SPN | C_LW | C_SW | C_NOP | C_ADDI | C_JAL | C_LI | C_ADDI16SP | C_LUI
    | C_SRLI | C_SRAI | C_ANDI | C_SUB | C_XOR | C_OR | C_AND | C_J | C_BEQZ | C_BNEZ
    | C_SLLI | C_LWSP | C_JR | C_MV | C_EBREAK | C_JALR | C_ADD | C_SWSP
    | C_LD | C_SD | C_LDSP | C_SDSP | C_ADDIW | C_SUBW | C_ADDW
    | Unknown
  {
    predicate IsBranch() {
      BEQ? || BNE? || BLT? || BGE? || BLTU? || BGEU? || C_BEQZ? || C_BNEZ?
    }

    predicate IsJump() { JAL? || JALR? || C_J? || C_JAL? || C_JR? || C_JALR? }

    /** C_EBREAK is not listed in the source. */
    predicate IsTerminator() { IsBranch() || IsJump() || ECALL? || EBREAK? }
  }

  type Reg = r: int | 0 <= r < 32

  datatype Instruction = Instruction(
    addr: u64, len: nat, op: Opcode,
    rd: Option<Reg>, rs1: Option<Reg>, rs2: Option<Reg>, imm: Option<i64>)
  {
    function Rd(): Reg { if rd.Some? then rd.value else 0 }
    function Rs1(): Reg { if rs1.Some? then rs1.value else 0 }
    function Rs2(): Reg { if rs2.Some? then rs2.value else 0 }
    function Imm(): i64 { if imm.Some? then imm.value else 0 }
    /** Address of the following instruction. */
    function NextAddr(): int { addr + len }
    /** PC-relative target of a direct branch or jump. */
    function Target(): u64 { Wrap64(addr + Imm()) }
  }

  type Regs = x: seq<u64> | |x| == 32 && x[0] == 0 witness seq(32, _ => 0)

  datatype Arch = Arch(x: Regs, ram: Mem)

  function SetReg(x: Regs, rd: Reg, v: u64): Regs { if rd == 0 then x else x[rd := v] }

  /** The low 32 bits, sign-extended. */
  function Sext32(v: int): u64 { Wrap64(Signed32(Wrap32(v))) }

  predicate IsRegReg(op: Opcode) {
    op.ADD? || op.C_ADD? || op.SUB? || op.C_SUB? || op.AND? || op.C_AND? || op.OR? || op.C_OR? || op.XOR? || op.C_XOR?
    || op.SLL? || op.SRL? || op.SRA? || op.SLT? || op.SLTU? || op.MUL? || op.DIV? || op.DIVU? || op.REM? || op.REMU?
  }

  /** Operations on the low words. */
  predicate IsWordRegReg(op: Opcode) {
    op.ADDW? || op.C_ADDW? || op.SUBW? || op.C_SUBW? || op.SLLW? || op.SRLW? || op.SRAW?
    || op.MULW? || op.DIVW? || op.DIVUW? || op.REMW? || op.REMUW?
  }

  predicate IsMulHigh(op: Opcode) { op.MULH? || op.MULHU? || op.MULHSU? }

  predicate IsRegImm(op: Opcode) {
    op.ADDI? || op.C_ADDI? || op.C_LI? || op.ANDI? || op.C_ANDI? || op.ORI? || op.XORI? || op.SLTI? || op.SLTIU?
    || op.SLLI? || op.C_SLLI? || op.SRLI? || op.C_SRLI? || op.SRAI? || op.C_SRAI? || op.ADDIW? || op.C_ADDIW?
  }

  predicate IsWordShiftImm(op: Opcode) { op.SLLIW? || op.SRLIW? || op.SRAIW? }

  /** Quotient and remainder rounded toward zero, with the ISA's results for a zero
      divisor (section 7.2). The overflowing quotient of the least integer by -1 wraps
      to the dividend, as section 7.2 asks. */
  function Quotient(a: int, b: int): int { if b == 0 then -1 else TruncDiv(a, b) }

  function Remainder(a: int, b: int): int { if b == 0 then a else TruncRem(a, b) }

  function Alu(op: Opcode, a: u64, b: u64): u64
    requires IsRegReg(op) || IsWordRegReg(op) || IsMulHigh(op)
  {
    match op
    case ADD | C_ADD => Wrap64(a + b)
    case SUB | C_SUB => Wrap64(a - b)
    case AND | C_AND => Bits64(And, a, b)
    case OR | C_OR => Bits64(Or, a, b)
    case XOR | C_XOR => Bits64(Xor, a, b)
    case SLL => Wrap64(ShiftLeft(a, b % 64))
    case SRL => Wrap64(ShiftRight(a, b % 64))
    case SRA => Wrap64(ShiftRight(Signed64(a), b % 64))
    case SLT => if Signed64(a) < Signed64(b) then 1 else 0
    case SLTU => if a < b then 1 else 0
    case MUL => Wrap64(Times(a, b))
    case MULH => Wrap64(SignedTimes(Signed64(a), Signed64(b)) / TWO64)
    case MULHU => Wrap64(Times(a, b) / TWO64)
    case MULHSU => Wrap64(Times(Signed64(a), b) / TWO64)
    case DIV => Wrap64(Quotient(Signed64(a), Signed64(b)))
    case DIVU => if b == 0 then TWO64 - 1 else Wrap64(Quot(a, b))
    case REM => Wrap64(Remainder(Signed64(a), Signed64(b)))
    case REMU => if b == 0 then a else Wrap64(Rem(a, b))
    case ADDW | C_ADDW => Sext32(a + b)
    case SUBW | C_SUBW => Sext32(a - b)
    case SLLW => Sext32(ShiftLeft(Wrap32(a), b % 32))
    case SRLW => Sext32(ShiftRight(Wrap32(a), b % 32))
    case SRAW => Sext32(ShiftRight(Signed32(Wrap32(a)), b % 32))
    case MULW => Sext32(Times(Wrap32(a), Wrap32(b)))
    case DIVW => Sext32(Quotient(Signed32(Wrap32(a)), Signed32(Wrap32(b))))
    case DIVUW => if Wrap32(b) == 0 then TWO64 - 1 else Sext32(Quot(Wrap32(a), Wrap32(b)))
    case REMW => Sext32(Remainder(Signed32(Wrap32(a)), Signed32(Wrap32(b))))
    case REMUW => if Wrap32(b) == 0 then Sext32(a) else Sext32(Rem(Wrap32(a), Wrap32(b)))
  }

  function AluImm(op: Opcode, a: u64, imm: i64): u64
    requires IsRegImm(op) || IsWordShiftImm(op)
  {
    match op
    case ADDI | C_ADDI | C_LI => Wrap64(a + imm)
    case ANDI | C_ANDI => Bits64(And, a, Wrap64(imm))
    case ORI => Bits64(Or, a, Wrap64(imm))
    case XORI => Bits64(Xor, a, Wrap64(imm))
    case SLTI => if Signed64(a) < imm then 1 else 0
    case SLTIU => if a < Wrap64(imm) then 1 else 0
    case SLLI | C_SLLI => Wrap64(ShiftLeft(a, imm % 64))
    case SRLI | C_SRLI => Wrap64(ShiftRight(a, imm % 64))
    case SRAI | C_SRAI => Wrap64(ShiftRight(Signed64(a), imm % 64))
    case ADDIW | C_ADDIW => Sext32(a + imm)
    case SLLIW => Sext32(ShiftLeft(Wrap32(a), imm % 32))
    case SRLIW => Sext32(ShiftRight(Wrap32(a), imm % 32))
    case SRAIW => Sext32(ShiftRight(Signed32(Wrap32(a)), imm % 32))
  }

  datatype Access = NoAccess | LoadOf(width: nat, signed: bool) | StoreOf(width: nat)

  function AccessOf(op: Opcode): (r: Access)
    ensures r.LoadOf? || r.StoreOf? ==> r.width in {1, 2, 4, 8}
  {
    if op.LB? then LoadOf(1, true)
    else if op.LBU? then LoadOf(1, false)
    else if op.LH? then LoadOf(2, true)
    else if op.LHU? then LoadOf(2, false)
    else if op.LW? || op.C_LW? || op.C_LWSP? then LoadOf(4, true)
    else if op.LWU? then LoadOf(4, false)
    else if op.LD? || op.C_LD? || op.C_LDSP? then LoadOf(8, false)
    else if op.SB? then StoreOf(1)
    else if op.SH? then StoreOf(2)
    else if op.SW? || op.C_SW? || op.C_SWSP? then StoreOf(4)
    else if op.SD? || op.C_SD? || op.C_SDSP? then StoreOf(8)
    else NoAccess
  }

  /** What a load of `width` bytes puts in a register. */
  function Loaded(raw: nat, width: nat, signed: bool): u64
    requires width > 0
  {
    Wrap64(if signed && raw >= Pow2(8 * width - 1) then raw - Pow2(8 * width) else raw)
  }

  /** Effect of a non-control instruction; None is an access fault. Control transfers
      and fences leave the state alone here. */
  ghost function Step(i: Instruction, s: Arch): Option<Arch> {
    var a, b, ea := s.x[i.Rs1()], s.x[i.Rs2()], Wrap64(s.x[i.Rs1()] + i.Imm());
    var acc := AccessOf(i.op);
    if acc.LoadOf? then
      if Mapped(s.ram, ea, acc.width)
      then Some(s.(x := SetReg(s.x, i.Rd(), Loaded(Load(s.ram, ea, acc.width), acc.width, acc.signed))))
      else None
    else if acc.StoreOf? then
      if Mapped(s.ram, ea, acc.width) then Some(s.(ram := Store(s.ram, ea, acc.width, b))) else None
    else if IsRegReg(i.op) || IsWordRegReg(i.op) || IsMulHigh(i.op) then
      Some(s.(x := SetReg(s.x, i.Rd(), Alu(i.op, a, b))))
    else if IsRegImm(i.op) || IsWordShiftImm(i.op) then
      Some(s.(x := SetReg(s.x, i.Rd(), AluImm(i.op, a, i.Imm()))))
    else if i.op.LUI? || i.op.C_LUI? then Some(s.(x := SetReg(s.x, i.Rd(), Wrap64(i.Imm()))))
    else if i.op.AUIPC? then Some(s.(x := SetReg(s.x, i.Rd(), Wrap64(i.addr + i.Imm()))))
    else if i.op.C_MV? then Some(s.(x := SetReg(s.x, i.Rd(), b)))
    else if i.op.C_ADDI4SPN? then Some(s.(x := SetReg(s.x, i.Rd(), Wrap64(s.x[2] + i.Imm()))))
    else if i.op.C_ADDI16SP? then Some(s.(x := SetReg(s.x, 2, Wrap64(s.x[2] + i.Imm()))))
    else Some(s)
  }

  ghost function Run(code: seq<Instruction>, s: Arch): Option<Arch> {
    if code == [] then Some(s) else
      match Step(code[0], s)
      case None => None
      case Some(s1) => Run(code[1..], s1)
  }

  predicate Taken(op: Opcode, a: u64, b: u64)
    requires op.IsBranch()
  {
    match op
    case BEQ => a == b
    case BNE => a != b
    case BLT => Signed64(a) < Signed64(b)
    case BGE => Signed64(a) >= Signed64(b)
    case BLTU => a < b
    case BGEU => a >= b
    case C_BEQZ => a == 0
    case C_BNEZ => a != 0
  }

  /** Where control goes after the last instruction of a block, and the registers it
      leaves (the link register of a call). */
  function Transfer(i: Instruction, x: Regs): (u64, Regs) {
    var link := SetReg(x, i.Rd(), Wrap64(i.NextAddr()));
    if i.op.IsBranch()
    then (if Taken(i.op, x[i.Rs1()], x[i.Rs2()]) then i.Target() else Wrap64(i.NextAddr()), x)
    else if i.op.JAL? || i.op.C_JAL? then (i.Target(), link)
    else if i.op.C_J? then (i.Target(), x)
    else if i.op.JALR? || i.op.C_JALR? then
      var t := Wrap64(x[i.Rs1()] + i.Imm());
      (t - t % 2, link)
    else if i.op.C_JR? then (x[i.Rs1()] - x[i.Rs1()] % 2, x)
    else (Wrap64(i.NextAddr()), x)
  }
}
