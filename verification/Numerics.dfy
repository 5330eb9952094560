/** WebAssembly's numeric instructions compute the RISC-V operations, and trap exactly
    on the divisions WebAssembly leaves undefined. */
module Numerics {
  import opened Words
  import opened Wasm
  import opened Translate
  import R = RiscV

  /** A signed quotient leaves the range only for the least integer by -1. */
  lemma {:induction false} DivOverflow(a: int, b: int, half: int)
    requires half > 1 && -half <= a < half && b != 0
    ensures TruncDiv(a, b) == half <==> a == -half && b == -1
  {
    QuotientShrinks(Abs(a), Abs(b));
  }

  lemma {:induction false} QuotientShrinks(p: nat, q: nat)
    requires q > 0
    ensures q == 1 ==> Quot(p, q) == p
    ensures q > 1 ==> 2 * Quot(p, q) <= p
  {
    if p >= q { QuotientShrinks(p - q, q); }
  }

  /** The divisions WebAssembly traps on. */
  predicate Traps(op: R.Opcode, a: u64, b: u64) {
    if op.DIV? then b == 0 || (a == TWO63 && b == TWO64 - 1)
    else if op.DIVU? || op.REM? || op.REMU? then b == 0
    else if op.DIVW? then Wrap32(b) == 0 || (Wrap32(a) == TWO31 && Wrap32(b) == TWO32 - 1)
    else if op.DIVUW? || op.REMW? || op.REMUW? then Wrap32(b) == 0
    else false
  }

  /** What the code of a register-register operation leaves: nothing if it traps. */
  function Result(op: R.Opcode, a: u64, b: u64): Option<u64>
    requires R.IsRegReg(op) || R.IsWordRegReg(op)
  {
    if Traps(op, a, b) then None else Some(R.Alu(op, a, b))
  }

  lemma {:induction false} WrapTwice64(x: int)
    ensures Wrap64(x % TWO64) == Wrap64(x)
  {
  }

  lemma {:induction false} Add64(op: R.Opcode, a: u64, b: u64)
    requires op.ADD? || op.C_ADD?
    ensures Bin64(RegRegBin(op), a, b) == Result(op, a, b)
  {
    WrapTwice64(a + b);
  }

  lemma {:induction false} Sub64(op: R.Opcode, a: u64, b: u64)
    requires op.SUB? || op.C_SUB?
    ensures Bin64(RegRegBin(op), a, b) == Result(op, a, b)
  {
    WrapTwice64(a - b);
  }

  lemma {:induction false} LogicBin(l: BitOp, a: u64, b: u64)
    ensures Bin64(Logic(l), a, b) == Some(Bits64(l, a, b))
  {
  }

  lemma {:induction false} And64(op: R.Opcode, a: u64, b: u64)
    requires op.AND? || op.C_AND?
    ensures Bin64(RegRegBin(op), a, b) == Result(op, a, b)
  {
    LogicBin(And, a, b);
  }

  lemma {:induction false} Or64(op: R.Opcode, a: u64, b: u64)
    requires op.OR? || op.C_OR?
    ensures Bin64(RegRegBin(op), a, b) == Result(op, a, b)
  {
    LogicBin(Or, a, b);
  }

  lemma {:induction false} Xor64(op: R.Opcode, a: u64, b: u64)
    requires op.XOR? || op.C_XOR?
    ensures Bin64(RegRegBin(op), a, b) == Result(op, a, b)
  {
    LogicBin(Xor, a, b);
  }

  lemma {:induction false} Shift64(op: R.Opcode, a: u64, b: u64)
    requires op.SLL? || op.SRL? || op.SRA?
    ensures Bin64(RegRegBin(op), a, b) == Result(op, a, b)
  {
    WrapTwice64(ShiftLeft(a, b % 64));
    WrapTwice64(ShiftRight(Signed64(a), b % 64));
  }

  lemma {:induction false} Mul64(op: R.Opcode, a: u64, b: u64)
    requires op.MUL?
    ensures Bin64(RegRegBin(op), a, b) == Result(op, a, b)
  {
    WrapTwice64(Times(a, b));
  }

  lemma {:induction false} SignedDiv64(op: R.Opcode, a: u64, b: u64)
    requires op.DIV? || op.REM?
    ensures Bin64(RegRegBin(op), a, b) == Result(op, a, b)
  {
    if b != 0 {
      var sa, sb := Signed64(a), Signed64(b);
      DivOverflow(sa, sb, TWO63);
      WrapTwice64(TruncDiv(sa, sb));
      WrapTwice64(TruncRem(sa, sb));
    }
  }

  lemma {:induction false} UnsignedDiv64(op: R.Opcode, a: u64, b: u64)
    requires op.DIVU? || op.REMU?
    ensures Bin64(RegRegBin(op), a, b) == Result(op, a, b)
  {
  }

  /** Every 64-bit operation computes its instruction, or traps as `Traps` says. */
  lemma {:induction false} Agrees64(op: R.Opcode, a: u64, b: u64)
    requires R.IsRegReg(op) && !op.SLT? && !op.SLTU?
    ensures Bin64(RegRegBin(op), a, b) == Result(op, a, b)
  {
    match op
    case ADD | C_ADD => Add64(op, a, b);
    case SUB | C_SUB => Sub64(op, a, b);
    case AND | C_AND => And64(op, a, b);
    case OR | C_OR => Or64(op, a, b);
    case XOR | C_XOR => Xor64(op, a, b);
    case SLL | SRL | SRA => Shift64(op, a, b);
    case MUL => Mul64(op, a, b);
    case DIV | REM => SignedDiv64(op, a, b);
    case DIVU | REMU => UnsignedDiv64(op, a, b);
  }

  function Extended(r: Option<u32>): Option<u64> {
    match r case None => None case Some(v) => Some(R.Sext32(v))
  }

  lemma {:induction false} SextWrap(x: int)
    ensures R.Sext32(Wrap32(x % TWO32)) == R.Sext32(x) && R.Sext32(Wrap32(x)) == R.Sext32(x)
  {
  }

  lemma {:induction false} SextSame(x: int, y: int, k: int)
    requires x == y + TWO32 * k
    ensures R.Sext32(x) == R.Sext32(y)
  {
  }

  lemma {:induction false} Add32(op: R.Opcode, a: u64, b: u64)
    requires op.ADDW? || op.C_ADDW?
    ensures Extended(Bin32(WordOp(op), Wrap32(a), Wrap32(b))) == Result(op, a, b)
  {
    SextWrap(Wrap32(a) + Wrap32(b));
    SextSame(a + b, Wrap32(a) + Wrap32(b), a / TWO32 + b / TWO32);
  }

  lemma {:induction false} Sub32(op: R.Opcode, a: u64, b: u64)
    requires op.SUBW? || op.C_SUBW?
    ensures Extended(Bin32(WordOp(op), Wrap32(a), Wrap32(b))) == Result(op, a, b)
  {
    SextWrap(Wrap32(a) - Wrap32(b));
    SextSame(a - b, Wrap32(a) - Wrap32(b), a / TWO32 - b / TWO32);
  }

  lemma {:induction false} Mul32(op: R.Opcode, a: u64, b: u64)
    requires op.MULW?
    ensures Extended(Bin32(WordOp(op), Wrap32(a), Wrap32(b))) == Result(op, a, b)
  {
    SextWrap(Times(Wrap32(a), Wrap32(b)));
  }

  lemma {:induction false} SignedDiv32(op: R.Opcode, a: u64, b: u64)
    requires op.DIVW? || op.REMW?
    ensures Extended(Bin32(WordOp(op), Wrap32(a), Wrap32(b))) == Result(op, a, b)
  {
    if Wrap32(b) != 0 {
      var sa, sb := Signed32(Wrap32(a)), Signed32(Wrap32(b));
      DivOverflow(sa, sb, TWO31);
      SextWrap(TruncDiv(sa, sb));
      SextWrap(TruncRem(sa, sb));
    }
  }

  lemma {:induction false} UnsignedDiv32(op: R.Opcode, a: u64, b: u64)
    requires op.DIVUW? || op.REMUW?
    ensures Extended(Bin32(WordOp(op), Wrap32(a), Wrap32(b))) == Result(op, a, b)
  {
    SextWrap(a);
    if Wrap32(b) != 0 {
      SextWrap(Quot(Wrap32(a), Wrap32(b)));
      SextWrap(Rem(Wrap32(a), Wrap32(b)));
    }
  }

  /** A shift of a low word by `sh`, which has the low five bits of `n`. */
  lemma {:induction false} ShiftWord(a: u64, sh: u32, n: int)
    requires sh % 32 == n % 32
    ensures Extended(Bin32(Shl, Wrap32(a), sh)) == Some(R.Sext32(ShiftLeft(Wrap32(a), n % 32)))
    ensures Extended(Bin32(ShrU, Wrap32(a), sh)) == Some(R.Sext32(ShiftRight(Wrap32(a), n % 32)))
    ensures Extended(Bin32(ShrS, Wrap32(a), sh)) == Some(R.Sext32(ShiftRight(Signed32(Wrap32(a)), n % 32)))
  {
    SextWrap(ShiftLeft(Wrap32(a), n % 32));
    SextWrap(ShiftRight(Wrap32(a), n % 32));
    SextWrap(ShiftRight(Signed32(Wrap32(a)), n % 32));
  }

  lemma {:induction false} Sll32(op: R.Opcode, a: u64, b: u64)
    requires op.SLLW?
    ensures Extended(Bin32(WordOp(op), Wrap32(a), Wrap32(b))) == Result(op, a, b)
  {
    LowBits(b);
    ShiftWord(a, Wrap32(b), b);
  }

  lemma {:induction false} Srl32(op: R.Opcode, a: u64, b: u64)
    requires op.SRLW?
    ensures Extended(Bin32(WordOp(op), Wrap32(a), Wrap32(b))) == Result(op, a, b)
  {
    LowBits(b);
    ShiftWord(a, Wrap32(b), b);
  }

  lemma {:induction false} Sra32(op: R.Opcode, a: u64, b: u64)
    requires op.SRAW?
    ensures Extended(Bin32(WordOp(op), Wrap32(a), Wrap32(b))) == Result(op, a, b)
  {
    LowBits(b);
    ShiftWord(a, Wrap32(b), b);
  }

  /** Every word operation computes its instruction, or traps as `Traps` says. */
  lemma {:induction false} Agrees32(op: R.Opcode, a: u64, b: u64)
    requires R.IsWordRegReg(op)
    ensures Extended(Bin32(WordOp(op), Wrap32(a), Wrap32(b))) == Result(op, a, b)
  {
    match op
    case ADDW | C_ADDW => Add32(op, a, b);
    case SUBW | C_SUBW => Sub32(op, a, b);
    case MULW => Mul32(op, a, b);
    case SLLW => Sll32(op, a, b);
    case SRLW => Srl32(op, a, b);
    case SRAW => Sra32(op, a, b);
    case DIVW | REMW => SignedDiv32(op, a, b);
    case DIVUW | REMUW => UnsignedDiv32(op, a, b);
  }

  /** Word shifts by an immediate. */
  lemma {:induction false} AgreesShiftImm(op: R.Opcode, a: u64, imm: i64)
    requires R.IsWordShiftImm(op)
    ensures Extended(Bin32(WordOp(op), Wrap32(a), ShiftAmount(imm, 32))) == Some(R.AluImm(op, a, imm))
  {
    LowBits(imm);
    ShiftWord(a, ShiftAmount(imm, 32), imm);
  }

  /** Low bits survive the reduction of a 64-bit value or immediate. */
  lemma {:induction false} LowBits(x: int)
    ensures Wrap64(x) % 64 == x % 64 && Wrap64(x) % 32 == x % 32 && Wrap32(x) % 32 == x % 32
  {
    ModOfMod(x, TWO64 / 64, 64);
    ModOfMod(x, TWO64 / 32, 32);
    ModOfMod(x, TWO32 / 32, 32);
  }

  /** Adding a 64-bit constant. */
  lemma {:induction false} AddConst(a: u64, imm: int)
    ensures Bin64(Add, a, Wrap64(imm)) == Some(Wrap64(a + imm))
  {
    WrapTwice64(a + Wrap64(imm));
    var k := imm / TWO64;
    assert a + imm == (a + Wrap64(imm)) + TWO64 * k;
  }

  lemma {:induction false} SextOf64(x: int)
    ensures R.Sext32(Wrap64(x)) == R.Sext32(x)
  {
    var k := x / TWO64;
    SextSame(x, Wrap64(x), TWO32 * k);
  }

  /** Shifts of 64-bit values by an immediate. */
  lemma {:induction false} ShiftImm64(op: R.Opcode, a: u64, imm: i64)
    requires R.IsRegImm(op) && (op.SLLI? || op.C_SLLI? || op.SRLI? || op.C_SRLI? || op.SRAI? || op.C_SRAI?)
    ensures Bin64(RegImmBin(op), a, ShiftAmount(imm, 64)) == Some(R.AluImm(op, a, imm))
  {
    LowBits(imm);
    WrapTwice64(ShiftLeft(a, imm % 64));
    WrapTwice64(ShiftRight(Signed64(a), imm % 64));
  }

  lemma {:induction false} LogicImm64(op: R.Opcode, a: u64, imm: i64)
    requires op.ANDI? || op.C_ANDI? || op.ORI? || op.XORI?
    ensures Bin64(RegImmBin(op), a, Wrap64(imm)) == Some(R.AluImm(op, a, imm))
  {
    LogicBin(if op.ORI? then Or else if op.XORI? then Xor else And, a, Wrap64(imm));
  }

  lemma {:induction false} SignedConst(imm: i64)
    ensures Signed64(Wrap64(imm)) == imm
  {
  }

  /** Every 64-bit operation with an immediate computes its instruction. */
  lemma {:induction false} AgreesImm64(op: R.Opcode, a: u64, imm: i64)
    requires R.IsRegImm(op) && !op.SLTI? && !op.SLTIU? && !op.ADDIW? && !op.C_ADDIW?
    ensures Bin64(RegImmBin(op), a, ImmConst(op, imm)) == Some(R.AluImm(op, a, imm))
  {
    if RegImmBin(op) in {Shl, ShrU, ShrS} {
      ShiftImm64(op, a, imm);
    } else if RegImmBin(op) == Add {
      AddConst(a, imm);
    } else {
      LogicImm64(op, a, imm);
    }
  }

  // ---- the high half of a product ----

  /** The 128-bit product of the operands, read signed or unsigned as the opcode says. */
  function WideProduct(op: R.Opcode, a: u64, b: u64): int
    requires R.IsMulHigh(op)
  {
    if op.MULH? then Signed64(a) * Signed64(b) else if op.MULHU? then a * b else Signed64(a) * b
  }

  /** The product fits the low word: no part of it is left for the high word. */
  predicate ProductFits(op: R.Opcode, a: u64, b: u64)
    requires R.IsMulHigh(op)
  {
    0 <= WideProduct(op, a, b) < TWO64
  }

  lemma {:induction false} MulBound(a: int, b: int, n: int)
    requires 0 <= n && -n <= a <= n && -TWO64 < b < TWO64
    ensures -n * TWO64 <= a * b <= n * TWO64
  {
    var c := if b < 0 then -b else b;
    SignRule(a, b);
    MulMono(c, a, n);
    MulMono(c, -n, a);
    MulMono(n, c, TWO64);
    assert c * -n == -(n * c);
  }

  lemma {:induction false} HighOfWide(p: int)
    requires -TWO64 * TWO63 <= p < TWO64 * TWO64
    ensures Wrap64(p / TWO64) == 0 <==> 0 <= p < TWO64
  {
  }

  lemma {:induction false} UnsignedBound(a: u64, b: u64)
    ensures 0 <= a * b < TWO64 * TWO64
  {
    MulMono(b, a, TWO64 - 1);
    MulMono(b, 0, a);
    MulMono(TWO64 - 1, b, TWO64 - 1);
  }

  /** The high word of a product is zero exactly when the product fits the low word. */
  lemma {:induction false} HighZeroExact(op: R.Opcode, a: u64, b: u64)
    requires R.IsMulHigh(op)
    ensures R.Alu(op, a, b) == 0 <==> ProductFits(op, a, b)
  {
    var sa, sb := Signed64(a), Signed64(b);
    if op.MULH? {
      MulBound(sa, sb, TWO63);
      SignedTimesIsProduct(sa, sb);
      HighOfWide(sa * sb);
    } else if op.MULHU? {
      UnsignedBound(a, b);
      TimesIsProduct(a, b);
      HighOfWide(a * b);
    } else {
      MulBound(sa, b, TWO63);
      TimesIsProduct(sa, b);
      HighOfWide(sa * b);
    }
  }

  lemma {:induction false} SignedTimesIsProduct(a: int, b: int)
    ensures SignedTimes(a, b) == a * b
  {
    if b < 0 { TimesIsProduct(a, -b); SignRule(a, b); } else { TimesIsProduct(a, b); }
  }
}
