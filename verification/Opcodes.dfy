/** The classes of opcodes, listed one by one. */
module Opcodes {
  import opened RiscV

  datatype Class = LoadClass | StoreClass | RegisterClass | ImmediateClass | OtherClass

  function ClassOf(op: Opcode): Class {
    match op
    case LB | LBU | LH | LHU | LW | LWU | LD | C_LW | C_LWSP | C_LD | C_LDSP => LoadClass
    case SB | SH | SW | SD | C_SW | C_SWSP | C_SD | C_SDSP => StoreClass
    case ADD | C_ADD | SUB | C_SUB | AND | C_AND | OR | C_OR | XOR | C_XOR | SLL | SRL | SRA | SLT | SLTU
      | MUL | MULH | MULHU | MULHSU | DIV | DIVU | REM | REMU
      | ADDW | C_ADDW | SUBW | C_SUBW | SLLW | SRLW | SRAW | MULW | DIVW | DIVUW | REMW | REMUW => RegisterClass
    case ADDI | C_ADDI | C_LI | ANDI | C_ANDI | ORI | XORI | SLTI | SLTIU | SLLI | C_SLLI | SRLI | C_SRLI
      | SRAI | C_SRAI | ADDIW | C_ADDIW | SLLIW | SRLIW | SRAIW => ImmediateClass
    case _ => OtherClass
  }

  predicate IsLoad(op: Opcode) { ClassOf(op).LoadClass? }

  predicate IsStore(op: Opcode) { ClassOf(op).StoreClass? }

  predicate IsRegisterOp(op: Opcode) { ClassOf(op).RegisterClass? }

  predicate IsImmediateOp(op: Opcode) { ClassOf(op).ImmediateClass? }

  lemma {:induction false} RegisterListed(op: Opcode)
    ensures IsRegReg(op) ==> IsRegisterOp(op)
  {
  }

  lemma {:induction false} WordListed(op: Opcode)
    ensures IsWordRegReg(op) ==> IsRegisterOp(op)
  {
  }

  lemma {:induction false} HighListed(op: Opcode)
    ensures IsMulHigh(op) ==> IsRegisterOp(op)
  {
  }

  lemma {:induction false} ImmediateListed(op: Opcode)
    ensures IsRegImm(op) ==> IsImmediateOp(op)
  {
  }

  lemma {:induction false} ShiftListed(op: Opcode)
    ensures IsWordShiftImm(op) ==> IsImmediateOp(op)
  {
  }

  lemma {:induction false} LoadListed(op: Opcode)
    ensures AccessOf(op).LoadOf? ==> IsLoad(op)
  {
  }

  lemma {:induction false} StoreListed(op: Opcode)
    ensures AccessOf(op).StoreOf? ==> IsStore(op)
  {
  }

  lemma {:induction false} IsRegister(op: Opcode)
    requires IsRegisterOp(op)
    ensures IsRegReg(op) || IsWordRegReg(op) || IsMulHigh(op)
  {
  }

  lemma {:induction false} IsImmediate(op: Opcode)
    requires IsImmediateOp(op)
    ensures IsRegImm(op) || IsWordShiftImm(op)
  {
  }

  /** An opcode of one class is of no other class of the model either. */
  lemma {:induction false} OneClass(op: Opcode)
    ensures !IsLoad(op) ==> !AccessOf(op).LoadOf?
    ensures !IsStore(op) ==> !AccessOf(op).StoreOf?
    ensures !IsRegisterOp(op) ==> !IsRegReg(op) && !IsWordRegReg(op) && !IsMulHigh(op)
    ensures !IsImmediateOp(op) ==> !IsRegImm(op) && !IsWordShiftImm(op)
  {
    LoadListed(op);
    StoreListed(op);
    RegisterListed(op);
    WordListed(op);
    HighListed(op);
    ImmediateListed(op);
    ShiftListed(op);
  }
}
