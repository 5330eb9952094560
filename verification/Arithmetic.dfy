/** What the register and immediate instructions compute, in the ordinary arithmetic of the
    integers: products, quotients and powers of two, and bit by bit for and, or and xor. */
module Arithmetic {
  import opened Words
  import opened RiscV

  /** The signed reading of 64 bits, and of the low 32. */
  function Signed(a: int): int {
    var x := a % 0x1_0000_0000_0000_0000;
    if x >= 0x8000_0000_0000_0000 then x - 0x1_0000_0000_0000_0000 else x
  }

  function SignedLow(a: int): int {
    var x := a % 0x1_0000_0000;
    if x >= 0x8000_0000 then x - 0x1_0000_0000 else x
  }

  /** A result cut to 64 bits, and one of a word instruction. */
  function Double(v: int): int { v % 0x1_0000_0000_0000_0000 }

  function Low(v: int): int { v % 0x1_0000_0000 }

  function Word(v: int): int { Double(SignedLow(v)) }

  /** The quotient rounded toward zero; -1 for a zero divisor. */
  function Divided(a: int, b: int): int {
    if b == 0 then -1
    else if a >= 0 && b > 0 then a / b
    else if a >= 0 then -(a / -b)
    else if b > 0 then -((-a) / b)
    else (-a) / (-b)
  }

  function Left(a: int, b: int): int { if b == 0 then a else a - b * Divided(a, b) }

  /** Bit k of a word. */
  function BitOf(a: nat, k: nat): int { a / Pow2(k) % 2 }

  ghost predicate IsAnd(a: nat, b: nat, v: nat) {
    forall k: nat | k < 64 :: BitOf(v, k) == BitOf(a, k) * BitOf(b, k)
  }

  ghost predicate IsOr(a: nat, b: nat, v: nat) {
    forall k: nat | k < 64 :: BitOf(v, k) == Max(BitOf(a, k), BitOf(b, k))
  }

  ghost predicate IsXor(a: nat, b: nat, v: nat) {
    forall k: nat | k < 64 :: BitOf(v, k) == (BitOf(a, k) + BitOf(b, k)) % 2
  }

  predicate IsSum(op: Opcode, a: u64, b: u64, v: u64) {
    if op.ADD? || op.C_ADD? then v == Double(a + b)
    else if op.SUB? || op.C_SUB? then v == Double(a - b)
    else if op.SLT? then v == (if Signed(a) < Signed(b) then 1 else 0)
    else if op.SLTU? then v == (if a < b then 1 else 0)
    else if op.ADDW? || op.C_ADDW? then v == Word(a + b)
    else if op.SUBW? || op.C_SUBW? then v == Word(a - b)
    else false
  }

  /** A shift of a by k places, or by l for a word. */
  predicate IsShift(op: Opcode, a: u64, k: nat, l: nat, v: u64) {
    if op.SLL? || op.SLLI? || op.C_SLLI? then v == Double(a * Pow2(k))
    else if op.SRL? || op.SRLI? || op.C_SRLI? then v == a / Pow2(k)
    else if op.SRA? || op.SRAI? || op.C_SRAI? then v == Double(Signed(a) / Pow2(k))
    else if op.SLLW? || op.SLLIW? then v == Word(Low(a) * Pow2(l))
    else if op.SRLW? || op.SRLIW? then v == Word(Low(a) / Pow2(l))
    else if op.SRAW? || op.SRAIW? then v == Word(SignedLow(a) / Pow2(l))
    else false
  }

  predicate IsProduct(op: Opcode, a: u64, b: u64, v: u64) {
    if op.MUL? then v == Double(a * b)
    else if op.MULH? then v == Double(Signed(a) * Signed(b) / 0x1_0000_0000_0000_0000)
    else if op.MULHU? then v == Double(a * b / 0x1_0000_0000_0000_0000)
    else if op.MULHSU? then v == Double(Signed(a) * b / 0x1_0000_0000_0000_0000)
    else if op.MULW? then v == Word(Low(a) * Low(b))
    else false
  }

  predicate IsDivision(op: Opcode, a: u64, b: u64, v: u64) {
    if op.DIV? then v == Double(Divided(Signed(a), Signed(b)))
    else if op.DIVU? then v == Double(Divided(a, b))
    else if op.REM? then v == Double(Left(Signed(a), Signed(b)))
    else if op.REMU? then v == Double(Left(a, b))
    else if op.DIVW? then v == Word(Divided(SignedLow(a), SignedLow(b)))
    else if op.DIVUW? then v == Word(Divided(Low(a), Low(b)))
    else if op.REMW? then v == Word(Left(SignedLow(a), SignedLow(b)))
    else if op.REMUW? then v == Word(Left(Low(a), Low(b)))
    else false
  }

  /** v is the result of a register instruction on a and b. */
  ghost predicate IsResult(op: Opcode, a: u64, b: u64, v: u64) {
    if op.AND? || op.C_AND? then IsAnd(a, b, v)
    else if op.OR? || op.C_OR? then IsOr(a, b, v)
    else if op.XOR? || op.C_XOR? then IsXor(a, b, v)
    else if op.SLL? || op.SRL? || op.SRA? || op.SLLW? || op.SRLW? || op.SRAW? then IsShift(op, a, b % 64, b % 32, v)
    else if op.MUL? || op.MULH? || op.MULHU? || op.MULHSU? || op.MULW? then IsProduct(op, a, b, v)
    else if op.DIV? || op.DIVU? || op.REM? || op.REMU? || op.DIVW? || op.DIVUW? || op.REMW? || op.REMUW? then
      IsDivision(op, a, b, v)
    else IsSum(op, a, b, v)
  }

  /** v is the result of an immediate instruction on a and the constant c. */
  ghost predicate IsImmediateResult(op: Opcode, a: u64, c: i64, v: u64) {
    if op.ADDI? || op.C_ADDI? || op.C_LI? then v == Double(a + c)
    else if op.ADDIW? || op.C_ADDIW? then v == Word(a + c)
    else if op.SLTI? then v == (if Signed(a) < c then 1 else 0)
    else if op.SLTIU? then v == (if a < Double(c) then 1 else 0)
    else if op.ANDI? || op.C_ANDI? then IsAnd(a, Double(c), v)
    else if op.ORI? then IsOr(a, Double(c), v)
    else if op.XORI? then IsXor(a, Double(c), v)
    else IsShift(op, a, c % 64, c % 32, v)
  }

  // ---- bits ----

  lemma {:induction false} Halves(op: BitOp, a: nat, b: nat, n: nat)
    requires n > 0
    ensures Bitwise(op, a, b, n) % 2 == Bit(op, a % 2, b % 2)
    ensures Bitwise(op, a, b, n) / 2 == Bitwise(op, a / 2, b / 2, n - 1)
  {
  }

  lemma {:induction false} BitwiseAt(op: BitOp, a: nat, b: nat, n: nat, k: nat)
    requires k < n
    ensures BitOf(Bitwise(op, a, b, n), k) == Bit(op, BitOf(a, k), BitOf(b, k))
    decreases n
  {
    Halves(op, a, b, n);
    if k == 0 {
      LowestBit(a);
      LowestBit(b);
      LowestBit(Bitwise(op, a, b, n));
    } else {
      BitwiseAt(op, a / 2, b / 2, n - 1, k - 1);
      HigherBit(a, k);
      HigherBit(b, k);
      HigherBit(Bitwise(op, a, b, n), k);
    }
  }

  lemma {:induction false} LowestBit(a: nat)
    ensures BitOf(a, 0) == a % 2
  {
    assert Pow2(0) == 1;
  }

  lemma {:induction false} HigherBit(a: nat, k: nat)
    requires k > 0
    ensures BitOf(a, k) == BitOf(a / 2, k - 1)
  {
    HalfMod(a, Pow2(k - 1));
  }

  lemma {:induction false} Logic(op: BitOp, a: u64, b: u64, v: nat, n: nat)
    requires n == 64 && v == Bitwise(op, a, b, n)
    ensures op == And ==> IsAnd(a, b, v)
    ensures op == Or ==> IsOr(a, b, v)
    ensures op == Xor ==> IsXor(a, b, v)
  {
    forall k: nat | k < n ensures BitOf(v, k) == Bit(op, BitOf(a, k), BitOf(b, k)) { BitwiseAt(op, a, b, n, k); }
    ByTable(op, a, b, v, n);
  }

  lemma {:induction false} ByTable(op: BitOp, a: u64, b: u64, v: nat, n: nat)
    requires n == 64 && forall k: nat | k < n :: BitOf(v, k) == Bit(op, BitOf(a, k), BitOf(b, k))
    ensures op == And ==> IsAnd(a, b, v)
    ensures op == Or ==> IsOr(a, b, v)
    ensures op == Xor ==> IsXor(a, b, v)
  {
    forall k: nat | k < n ensures Bit(And, BitOf(a, k), BitOf(b, k)) == BitOf(a, k) * BitOf(b, k) {
      BitTable(BitOf(a, k), BitOf(b, k));
    }
  }

  lemma {:induction false} BitTable(x: int, y: int)
    requires 0 <= x < 2 && 0 <= y < 2
    ensures Bit(And, x, y) == x * y
  {
  }

  lemma {:induction false} AllBits(op: BitOp, a: u64, b: u64, n: nat)
    requires n == 64
    ensures Bits64(op, a, b) == Bitwise(op, a, b, n)
  {
    Pow2At(n);
  }

  lemma {:induction false} Pow2At(n: nat)
    requires n == 64
    ensures Pow2(n) == TWO64
  {
    Pow2Values();
  }

  // ---- products and quotients ----

  lemma {:induction false} Product(a: int, b: int)
    ensures SignedTimes(a, b) == a * b
  {
    TimesIsProduct(a, Abs(b));
    SignRule(a, b);
  }

  lemma {:induction false} Division(a: int, b: int)
    ensures Quotient(a, b) == Divided(a, b) && Remainder(a, b) == Left(a, b)
  {
    if b != 0 {
      QuotIsQuotient(Abs(a), Abs(b));
      TruncDivMod(a, b);
    }
  }

  lemma {:induction false} NatDivision(a: nat, b: nat)
    requires b > 0
    ensures Quot(a, b) == Divided(a, b) && Rem(a, b) == Left(a, b)
    ensures Divided(a, b) <= a && Left(a, b) <= a
  {
    QuotIsQuotient(a, b);
    assert Left(a, b) == a % b;
    MulMono(a / b, 1, b);
  }

  // ---- shifts ----

  lemma {:induction false} Shifts(a: int, k: nat)
    ensures ShiftLeft(a, k) == a * Pow2(k) && ShiftRight(a, k) == a / Pow2(k)
  {
    ShiftLeftIsProduct(a, k);
    ShiftRightIsQuotient(a, k);
  }

  lemma {:induction false} QuotientFits(a: nat, p: nat)
    requires p > 0
    ensures 0 <= a / p <= a
  {
    var q := a / p;
    assert a == p * q + a % p;
    MulMono(q, 1, p);
  }

  lemma {:induction false} Readings(a: u64)
    ensures Signed64(a) == Signed(a) && Wrap32(a) == Low(a) && Signed32(Wrap32(a)) == SignedLow(a)
  {
  }

  lemma {:induction false} WordResult(v: int)
    ensures Sext32(v) == Word(v)
  {
  }

  // ---- the instructions ----

  lemma {:induction false} SumOps(op: Opcode, a: u64, b: u64)
    requires op.ADD? || op.C_ADD? || op.SUB? || op.C_SUB? || op.SLT? || op.SLTU?
             || op.ADDW? || op.C_ADDW? || op.SUBW? || op.C_SUBW?
    ensures IsSum(op, a, b, Alu(op, a, b))
  {
    Readings(a);
    Readings(b);
    WordResult(a + b);
    WordResult(a - b);
  }

  lemma {:induction false} LogicOps(op: Opcode, a: u64, b: u64, n: nat)
    requires n == 64 && (op.AND? || op.C_AND? || op.OR? || op.C_OR? || op.XOR? || op.C_XOR?)
    ensures IsResult(op, a, b, Alu(op, a, b))
  {
    var l := if op.AND? || op.C_AND? then And else if op.OR? || op.C_OR? then Or else Xor;
    AllBits(l, a, b, n);
    assert Alu(op, a, b) == Bits64(l, a, b);
    Logic(l, a, b, Alu(op, a, b), n);
  }

  /** The shifts of a by k places. */
  lemma {:induction false} ShiftValues(a: u64, k: nat)
    ensures Wrap64(ShiftLeft(a, k)) == Double(a * Pow2(k)) && Wrap64(ShiftRight(a, k)) == a / Pow2(k)
    ensures Wrap64(ShiftRight(Signed64(a), k)) == Double(Signed(a) / Pow2(k))
  {
    Readings(a);
    Shifts(a, k);
    Shifts(Signed(a), k);
    QuotientFits(a, Pow2(k));
  }

  /** The word shifts of a by l places; `low` and `signed` are readings of a. */
  lemma {:induction false} WordShiftValues(low: nat, signed: int, l: nat)
    ensures Sext32(ShiftLeft(low, l)) == Word(low * Pow2(l)) && Sext32(ShiftRight(low, l)) == Word(low / Pow2(l))
    ensures Sext32(ShiftRight(signed, l)) == Word(signed / Pow2(l))
  {
    Shifts(low, l);
    Shifts(signed, l);
    WordResult(low * Pow2(l));
    WordResult(low / Pow2(l));
    WordResult(signed / Pow2(l));
  }

  lemma {:induction false} ShiftOps(op: Opcode, a: u64, b: u64)
    requires op.SLL? || op.SRL? || op.SRA? || op.SLLW? || op.SRLW? || op.SRAW?
    ensures IsShift(op, a, b % 64, b % 32, Alu(op, a, b))
  {
    Readings(a);
    ShiftValues(a, b % 64);
    WordShiftValues(Low(a), SignedLow(a), b % 32);
  }

  lemma {:induction false} ProductOps(op: Opcode, a: u64, b: u64)
    requires op.MUL? || op.MULH? || op.MULHU? || op.MULHSU? || op.MULW?
    ensures IsProduct(op, a, b, Alu(op, a, b))
  {
    Readings(a);
    Readings(b);
    TimesIsProduct(a, b);
    Product(Signed(a), Signed(b));
    TimesIsProduct(Signed(a), b);
    TimesIsProduct(Low(a), Low(b));
    WordResult(Low(a) * Low(b));
  }

  lemma {:induction false} DivisionOps(op: Opcode, a: u64, b: u64)
    requires op.DIV? || op.DIVU? || op.REM? || op.REMU?
    ensures IsDivision(op, a, b, Alu(op, a, b))
  {
    Readings(a);
    Readings(b);
    Division(Signed(a), Signed(b));
    if b > 0 { NatDivision(a, b); }
  }

  lemma {:induction false} WordDivisionOps(op: Opcode, a: u64, b: u64)
    requires op.DIVW? || op.REMW?
    ensures IsDivision(op, a, b, Alu(op, a, b))
  {
    Readings(a);
    Readings(b);
    Division(SignedLow(a), SignedLow(b));
    WordResult(Divided(SignedLow(a), SignedLow(b)));
    WordResult(Left(SignedLow(a), SignedLow(b)));
  }

  lemma {:induction false} UnsignedWordOps(op: Opcode, a: u64, b: u64, d: nat)
    requires (op.DIVUW? || op.REMUW?) && d == Low(b)
    ensures IsDivision(op, a, b, Alu(op, a, b))
  {
    var n := Low(a);
    if d > 0 { NatDivision(n, d); }
    WordResult(Divided(n, d));
    WordResult(Left(n, d));
    WordResult(a);
  }

  /** Every register instruction computes what its name says. */
  lemma {:induction false} RegisterOps(op: Opcode, a: u64, b: u64, n: nat)
    requires n == 64 && (IsRegReg(op) || IsWordRegReg(op) || IsMulHigh(op))
    ensures IsResult(op, a, b, Alu(op, a, b))
  {
    match op
    case AND | C_AND | OR | C_OR | XOR | C_XOR => LogicOps(op, a, b, n);
    case SLL | SRL | SRA | SLLW | SRLW | SRAW => ShiftOps(op, a, b);
    case MUL | MULH | MULHU | MULHSU | MULW => ProductOps(op, a, b);
    case DIV | DIVU | REM | REMU => DivisionOps(op, a, b);
    case DIVW | REMW => WordDivisionOps(op, a, b);
    case DIVUW | REMUW => UnsignedWordOps(op, a, b, Low(b));
    case _ => SumOps(op, a, b);
  }

  lemma {:induction false} ImmediateLogic(op: Opcode, a: u64, c: i64, n: nat)
    requires n == 64 && (op.ANDI? || op.C_ANDI? || op.ORI? || op.XORI?)
    ensures IsImmediateResult(op, a, c, AluImm(op, a, c))
  {
    var l := if op.ANDI? || op.C_ANDI? then And else if op.ORI? then Or else Xor;
    AllBits(l, a, Wrap64(c), n);
    assert AluImm(op, a, c) == Bits64(l, a, Wrap64(c));
    Logic(l, a, Wrap64(c), AluImm(op, a, c), n);
  }

  lemma {:induction false} ImmediateShifts(op: Opcode, a: u64, c: i64)
    requires op.SLLI? || op.C_SLLI? || op.SRLI? || op.C_SRLI? || op.SRAI? || op.C_SRAI?
             || op.SLLIW? || op.SRLIW? || op.SRAIW?
    ensures IsShift(op, a, c % 64, c % 32, AluImm(op, a, c))
  {
    Readings(a);
    ShiftValues(a, c % 64);
    WordShiftValues(Low(a), SignedLow(a), c % 32);
  }

  /** Every immediate instruction computes what its name says. */
  lemma {:induction false} ImmediateOps(op: Opcode, a: u64, c: i64, n: nat)
    requires n == 64 && (IsRegImm(op) || IsWordShiftImm(op))
    ensures IsImmediateResult(op, a, c, AluImm(op, a, c))
  {
    match op
    case ANDI | C_ANDI | ORI | XORI => ImmediateLogic(op, a, c, n);
    case ADDI | C_ADDI | C_LI | SLTI | SLTIU => Readings(a);
    case ADDIW | C_ADDIW => WordResult(a + c);
    case _ => ImmediateShifts(op, a, c);
  }
}
