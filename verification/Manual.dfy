/** The integer instructions one by one, as chapters 2, 5, 7 and 16 of the RISC-V Unprivileged
    ISA 20191213 list them, with loads and stores written out on bytes of memory. */
module Manual {
  import opened Words
  import opened Memory
  import W = Wasm
  import opened Opcodes
  import opened RiscV
  import Translate
  import T = TranslateProof

  // ---- memory ----

  ghost predicate Has2(ram: Mem, a: int) { a in ram && a + 1 in ram }

  ghost predicate Has4(ram: Mem, a: int) { Has2(ram, a) && Has2(ram, a + 2) }

  ghost predicate Has8(ram: Mem, a: int) { Has4(ram, a) && Has4(ram, a + 4) }

  ghost function Half(ram: Mem, a: int): nat
    requires Has2(ram, a)
  {
    ram[a] + 0x100 * ram[a + 1] as int
  }

  ghost function Word(ram: Mem, a: int): nat
    requires Has4(ram, a)
  {
    Half(ram, a) + 0x1_0000 * Half(ram, a + 2)
  }

  ghost function Double(ram: Mem, a: int): nat
    requires Has8(ram, a)
  {
    Word(ram, a) + 0x1_0000_0000 * Word(ram, a + 4)
  }

  ghost function Put2(ram: Mem, a: int, v: int): Mem { ram[a := v % 0x100][a + 1 := v / 0x100 % 0x100] }

  ghost function Put4(ram: Mem, a: int, v: int): Mem { Put2(Put2(ram, a, v), a + 2, v / 0x1_0000) }

  ghost function Put8(ram: Mem, a: int, v: int): Mem { Put4(Put4(ram, a, v), a + 4, v / 0x1_0000_0000) }

  /** The bytes at an address as a number, read as signed or not; None is a fault. */
  ghost function ByteAt(ram: Mem, a: int, signed: bool): Option<u64> {
    if a !in ram then None
    else if signed && ram[a] >= 0x80 then Some(Wrap64(ram[a] as int - 0x100)) else Some(ram[a])
  }

  ghost function HalfAt(ram: Mem, a: int, signed: bool): Option<u64> {
    if !Has2(ram, a) then None
    else if signed && Half(ram, a) >= 0x8000 then Some(Wrap64(Half(ram, a) - 0x1_0000)) else Some(Wrap64(Half(ram, a)))
  }

  ghost function WordAt(ram: Mem, a: int, signed: bool): Option<u64> {
    if !Has4(ram, a) then None
    else if signed && Word(ram, a) >= 0x8000_0000 then Some(Wrap64(Word(ram, a) - 0x1_0000_0000))
    else Some(Wrap64(Word(ram, a)))
  }

  ghost function DoubleAt(ram: Mem, a: int): Option<u64> {
    if !Has8(ram, a) then None else Some(Wrap64(Double(ram, a)))
  }

  /** What a load puts in its register; None is a fault. */
  ghost function Loads(op: Opcode, ram: Mem, a: int): Option<u64> {
    match op
    case LB => ByteAt(ram, a, true)
    case LBU => ByteAt(ram, a, false)
    case LH => HalfAt(ram, a, true)
    case LHU => HalfAt(ram, a, false)
    case LW | C_LW | C_LWSP => WordAt(ram, a, true)
    case LWU => WordAt(ram, a, false)
    case LD | C_LD | C_LDSP => DoubleAt(ram, a)
    case _ => None
  }

  /** The memory after a store; None is a fault. */
  ghost function Stores(op: Opcode, ram: Mem, a: int, v: u64): Option<Mem> {
    match op
    case SB => if a in ram then Some(ram[a := v % 0x100]) else None
    case SH => if Has2(ram, a) then Some(Put2(ram, a, v)) else None
    case SW | C_SW | C_SWSP => if Has4(ram, a) then Some(Put4(ram, a, v)) else None
    case SD | C_SD | C_SDSP => if Has8(ram, a) then Some(Put8(ram, a, v)) else None
    case _ => None
  }

  // ---- instructions ----

  /** A register operand; a missing one is x0. */
  function Operand(r: Option<Reg>): Reg { if r.Some? then r.value else 0 }

  /** The immediate; a missing one is 0. */
  function Constant(c: Option<i64>): i64 { if c.Some? then c.value else 0 }

  /** A register written; x0 stays 0. */
  function Write(x: Regs, r: Reg, v: u64): Regs { if r == 0 then x else x[r := v] }

  /** What the remaining instructions compute; None is one that writes no register here. */
  function Moves(i: Instruction, b: u64, sp: u64): Option<u64> {
    var c: int := Constant(i.imm);
    match i.op
    case LUI | C_LUI => Some(c % 0x1_0000_0000_0000_0000)
    case AUIPC => Some((i.addr + c) % 0x1_0000_0000_0000_0000)
    case C_MV => Some(b)
    case C_ADDI4SPN | C_ADDI16SP => Some((sp + c) % 0x1_0000_0000_0000_0000)
    case _ => None
  }

  /** The address of a load or store. */
  function Address(i: Instruction, x: Regs): u64 {
    (x[Operand(i.rs1)] + Constant(i.imm)) % 0x1_0000_0000_0000_0000
  }

  /** An instruction's effect on registers and memory, apart from the pc and the link register;
      None is a fault. */
  ghost function Meaning(i: Instruction, s: Arch): Option<Arch> {
    var rd, a, b := Operand(i.rd), s.x[Operand(i.rs1)], s.x[Operand(i.rs2)];
    if IsLoad(i.op) then
      match Loads(i.op, s.ram, Address(i, s.x))
      case None => None
      case Some(v) => Some(s.(x := Write(s.x, rd, v)))
    else if IsStore(i.op) then
      match Stores(i.op, s.ram, Address(i, s.x), b)
      case None => None
      case Some(ram) => Some(s.(ram := ram))
    else if IsRegisterOp(i.op) then
      IsRegister(i.op);
      Some(s.(x := Write(s.x, rd, Alu(i.op, a, b))))
    else if IsImmediateOp(i.op) then
      IsImmediate(i.op);
      Some(s.(x := Write(s.x, rd, AluImm(i.op, a, Constant(i.imm)))))
    else
      match Moves(i, b, s.x[2])
      case None => Some(s)
      case Some(v) => Some(s.(x := Write(s.x, if i.op.C_ADDI16SP? then 2 else rd, v)))
  }

  // ---- control flow ----

  /** Whether a conditional branch is taken. */
  predicate Branches(op: Opcode, a: u64, b: u64) {
    var sa, sb := if a >= TWO63 then a - TWO64 else a, if b >= TWO63 then b - TWO64 else b;
    match op
    case BEQ => a == b
    case BNE => a != b
    case BLT => sa < sb
    case BGE => sa >= sb
    case BLTU => a < b
    case BGEU => a >= b
    case C_BEQZ => a == 0
    case C_BNEZ => a != 0
    case _ => false
  }

  /** The next pc. */
  function NextPc(i: Instruction, x: Regs): u64 {
    var next := (i.addr + i.len) % 0x1_0000_0000_0000_0000;
    var target := (i.addr + Constant(i.imm)) % 0x1_0000_0000_0000_0000;
    match i.op
    case BEQ | BNE | BLT | BGE | BLTU | BGEU | C_BEQZ | C_BNEZ =>
      if Branches(i.op, x[Operand(i.rs1)], x[Operand(i.rs2)]) then target else next
    case JAL | C_JAL | C_J => target
    case JALR | C_JALR => Address(i, x) / 2 * 2
    case C_JR => x[Operand(i.rs1)] / 2 * 2
    case _ => next
  }

  /** The registers after a call has written its return address. */
  function WithLink(i: Instruction, x: Regs): Regs {
    match i.op
    case JAL | C_JAL | JALR | C_JALR => Write(x, Operand(i.rd), (i.addr + i.len) % 0x1_0000_0000_0000_0000)
    case _ => x
  }

  /** The model's control transfer is the manual's. */
  lemma {:induction false} TransferIsManual(i: Instruction, x: Regs)
    ensures Transfer(i, x) == (NextPc(i, x), WithLink(i, x))
  {
    if i.op.IsBranch() { TakenIsManual(i.op, x[i.Rs1()], x[i.Rs2()]); }
  }

  lemma {:induction false} TakenIsManual(op: Opcode, a: u64, b: u64)
    requires op.IsBranch()
    ensures Taken(op, a, b) <==> Branches(op, a, b)
  {
  }

  // ---- bytes ----

  lemma {:induction false} Load1(ram: Mem, a: int)
    requires Mapped(ram, a, 1)
    ensures Load(ram, a, 1) == ram[a]
  {
    assert Load(ram, a + 1, 0) == 0;
  }

  lemma {:induction false} LoadMore(ram: Mem, a: int, n: nat)
    requires Mapped(ram, a, n + 1)
    ensures Load(ram, a, n + 1) == ram[a] + 256 * Load(ram, a + 1, n)
  {
  }

  lemma {:induction false} Load2(ram: Mem, a: int)
    requires Mapped(ram, a, 2)
    ensures Has2(ram, a) && Load(ram, a, 2) == Half(ram, a)
  {
    var n := 1;
    LoadMore(ram, a, n);
    Load1(ram, a + 1);
  }

  lemma {:induction false} LoadTwice(ram: Mem, a: int, n: nat)
    requires Mapped(ram, a, n + 2)
    ensures Has2(ram, a) && Load(ram, a, n + 2) == Half(ram, a) + 0x1_0000 * Load(ram, a + 2, n)
  {
    LoadMore(ram, a, n + 1);
    LoadMore(ram, a + 1, n);
  }

  lemma {:induction false} Load4(ram: Mem, a: int)
    requires Mapped(ram, a, 4)
    ensures Has4(ram, a) && Load(ram, a, 4) == Word(ram, a)
  {
    var n := 2;
    LoadTwice(ram, a, n);
    Load2(ram, a + 2);
  }

  lemma {:induction false} LoadFour(ram: Mem, a: int, n: nat)
    requires Mapped(ram, a, n + 4)
    ensures Has4(ram, a) && Load(ram, a, n + 4) == Word(ram, a) + 0x1_0000_0000 * Load(ram, a + 4, n)
  {
    LoadTwice(ram, a, n + 2);
    LoadTwice(ram, a + 2, n);
  }

  lemma {:induction false} Load8(ram: Mem, a: int)
    requires Mapped(ram, a, 8)
    ensures Has8(ram, a) && Load(ram, a, 8) == Double(ram, a)
  {
    var n := 4;
    LoadFour(ram, a, n);
    Load4(ram, a + 4);
  }

  lemma {:induction false} MappedBytes(ram: Mem, a: int)
    ensures (Mapped(ram, a, 1) <==> a in ram) && (Mapped(ram, a, 2) <==> Has2(ram, a))
    ensures (Mapped(ram, a, 4) <==> Has4(ram, a)) && (Mapped(ram, a, 8) <==> Has8(ram, a))
  {
    if Has8(ram, a) {
      forall k | a <= k < a + 8 ensures k in ram {
        assert k == a || k == a + 1 || k == a + 2 || k == a + 3 || k == a + 4 || k == a + 5 || k == a + 6 || k == a + 7;
      }
    }
  }

  lemma {:induction false} StoreMore(ram: Mem, a: int, n: nat, v: nat)
    requires Mapped(ram, a, n + 1)
    ensures Mapped(ram[a := v % 256], a + 1, n)
    ensures Store(ram, a, n + 1, v) == Store(ram[a := v % 256], a + 1, n, v / 256)
  {
  }

  lemma {:induction false} StoreTwice(ram: Mem, a: int, n: nat, v: nat)
    requires Mapped(ram, a, n + 2)
    ensures Mapped(Put2(ram, a, v), a + 2, n)
    ensures Store(ram, a, n + 2, v) == Store(Put2(ram, a, v), a + 2, n, v / 0x1_0000)
  {
    StoreMore(ram, a, n + 1, v);
    StoreMore(ram[a := v % 256], a + 1, n, v / 256);
    assert v / 256 / 256 == v / 0x1_0000;
  }

  lemma {:induction false} Store2(ram: Mem, a: int, v: nat)
    requires Mapped(ram, a, 2)
    ensures Store(ram, a, 2, v) == Put2(ram, a, v)
  {
    var n := 0;
    StoreTwice(ram, a, n, v);
  }

  lemma {:induction false} Store4(ram: Mem, a: int, v: nat)
    requires Mapped(ram, a, 4)
    ensures Store(ram, a, 4, v) == Put4(ram, a, v)
  {
    var n := 2;
    StoreTwice(ram, a, n, v);
    Store2(Put2(ram, a, v), a + 2, v / 0x1_0000);
  }

  lemma {:induction false} Store8(ram: Mem, a: int, v: nat)
    requires Mapped(ram, a, 8)
    ensures Store(ram, a, 8, v) == Put8(ram, a, v)
  {
    var n := 6;
    StoreTwice(ram, a, n, v);
    var ram2, m := Put2(ram, a, v), 4;
    StoreTwice(ram2, a + 2, m, v / 0x1_0000);
    assert v / 0x1_0000 / 0x1_0000 == v / 0x1_0000_0000;
    Store4(Put2(ram2, a + 2, v / 0x1_0000), a + 4, v / 0x1_0000_0000);
  }

  lemma {:induction false} Store1(ram: Mem, a: int, v: nat)
    requires Mapped(ram, a, 1)
    ensures Store(ram, a, 1, v) == ram[a := v % 256]
  {
    var n := 0;
    StoreMore(ram, a, n, v);
  }

  // ---- the tables agree ----

  lemma {:induction false} SmallPowers(n: nat)
    ensures n == 7 ==> Pow2(n) == 0x80 && Pow2(n + 1) == 0x100
    ensures n == 15 ==> Pow2(n) == 0x8000 && Pow2(n + 1) == 0x1_0000
    ensures n == 31 ==> Pow2(n) == 0x8000_0000 && Pow2(n + 1) == 0x1_0000_0000
  {
    if n == 7 {
      assert Pow2(2) == 4 && Pow2(4) == 16 && Pow2(6) == 64;
    } else if n == 15 {
      Sixteenfold(0, n, 1);
    } else if n == 31 {
      Pow2Values();
    }
  }

  lemma {:induction false} MappedWidth(ram: Mem, a: int, w: nat)
    requires w == 1 || w == 2 || w == 4 || w == 8
    ensures Mapped(ram, a, w) <==> if w == 1 then a in ram else if w == 2 then Has2(ram, a)
                                   else if w == 4 then Has4(ram, a) else Has8(ram, a)
  {
    MappedBytes(ram, a);
  }

  lemma {:induction false} StoredBytes(ram: Mem, a: int, v: u64, w: nat)
    requires (w == 1 || w == 2 || w == 4 || w == 8) && Mapped(ram, a, w)
    ensures Store(ram, a, w, v) == if w == 1 then ram[a := v % 0x100] else if w == 2 then Put2(ram, a, v)
                                   else if w == 4 then Put4(ram, a, v) else Put8(ram, a, v)
  {
    if w == 1 { Store1(ram, a, v); } else if w == 2 { Store2(ram, a, v); }
    else if w == 4 { Store4(ram, a, v); } else { Store8(ram, a, v); }
  }

  /** The bytes by width and sign. */
  ghost function BytesAt(ram: Mem, a: int, w: nat, signed: bool): Option<u64> {
    if w == 1 then ByteAt(ram, a, signed) else if w == 2 then HalfAt(ram, a, signed)
    else if w == 4 then WordAt(ram, a, signed) else DoubleAt(ram, a)
  }

  lemma {:induction false} BytesLoaded(ram: Mem, a: int, w: nat, signed: bool)
    requires w == 1 || w == 2 || w == 4 || (w == 8 && !signed)
    ensures BytesAt(ram, a, w, signed) == if Mapped(ram, a, w) then Some(Loaded(Load(ram, a, w), w, signed)) else None
  {
    MappedWidth(ram, a, w);
    if Mapped(ram, a, w) {
      SmallPowers(8 * w - 1);
      if w == 1 { Load1(ram, a); }
      else if w == 2 { Load2(ram, a); }
      else if w == 4 { Load4(ram, a); }
      else { Load8(ram, a); }
    }
  }

  lemma {:induction false} LoadsTable(op: Opcode, ram: Mem, a: int) returns (w: nat, signed: bool)
    requires IsLoad(op)
    ensures w == 1 || w == 2 || w == 4 || (w == 8 && !signed)
    ensures AccessOf(op) == LoadOf(w, signed) && Loads(op, ram, a) == BytesAt(ram, a, w, signed)
  {
    signed := op.LB? || op.LH? || op.LW? || op.C_LW? || op.C_LWSP?;
    w := if op.LB? || op.LBU? then 1 else if op.LH? || op.LHU? then 2
         else if op.LD? || op.C_LD? || op.C_LDSP? then 8 else 4;
  }

  ghost function BytesPut(ram: Mem, a: int, v: u64, w: nat): Option<Mem> {
    if w == 1 then if a in ram then Some(ram[a := v % 0x100]) else None
    else if w == 2 then if Has2(ram, a) then Some(Put2(ram, a, v)) else None
    else if w == 4 then if Has4(ram, a) then Some(Put4(ram, a, v)) else None
    else if Has8(ram, a) then Some(Put8(ram, a, v)) else None
  }

  lemma {:induction false} BytesStored(ram: Mem, a: int, v: u64, w: nat)
    requires w == 1 || w == 2 || w == 4 || w == 8
    ensures BytesPut(ram, a, v, w) == if Mapped(ram, a, w) then Some(Store(ram, a, w, v)) else None
  {
    MappedWidth(ram, a, w);
    if Mapped(ram, a, w) { StoredBytes(ram, a, v, w); }
  }

  lemma {:induction false} StoresTable(op: Opcode, ram: Mem, a: int, v: u64) returns (w: nat)
    requires IsStore(op)
    ensures w == 1 || w == 2 || w == 4 || w == 8
    ensures AccessOf(op) == StoreOf(w) && Stores(op, ram, a, v) == BytesPut(ram, a, v, w)
  {
    w := if op.SB? then 1 else if op.SH? then 2 else if op.SD? || op.C_SD? || op.C_SDSP? then 8 else 4;
  }

  lemma {:induction false} LoadAgrees(i: Instruction, s: Arch)
    requires IsLoad(i.op)
    ensures Step(i, s) == Meaning(i, s)
  {
    var ea := Address(i, s.x);
    var w, signed := LoadsTable(i.op, s.ram, ea);
    BytesLoaded(s.ram, ea, w, signed);
    MeaningOfLoad(i, s, ea);
    StepOfLoad(i, s, ea, w, signed);
  }

  lemma {:induction false} StepOfLoad(i: Instruction, s: Arch, ea: u64, w: nat, signed: bool)
    requires AccessOf(i.op) == LoadOf(w, signed) && ea == Wrap64(s.x[i.Rs1()] + i.Imm()) && w > 0
    ensures Step(i, s) == if Mapped(s.ram, ea, w)
                          then Some(s.(x := SetReg(s.x, i.Rd(), Loaded(Load(s.ram, ea, w), w, signed)))) else None
  {
  }

  lemma {:induction false} MeaningOfLoad(i: Instruction, s: Arch, ea: u64)
    requires IsLoad(i.op) && ea == Address(i, s.x)
    ensures Meaning(i, s) == match Loads(i.op, s.ram, ea)
                             case None => None
                             case Some(v) => Some(s.(x := SetReg(s.x, i.Rd(), v)))
  {
  }

  lemma {:induction false} StepOfStore(i: Instruction, s: Arch, ea: u64, w: nat)
    requires AccessOf(i.op) == StoreOf(w) && ea == Wrap64(s.x[i.Rs1()] + i.Imm())
    ensures Step(i, s) == if Mapped(s.ram, ea, w) then Some(s.(ram := Store(s.ram, ea, w, s.x[i.Rs2()]))) else None
  {
  }

  lemma {:induction false} MeaningOfStore(i: Instruction, s: Arch, ea: u64)
    requires IsStore(i.op) && ea == Address(i, s.x)
    ensures Meaning(i, s) == match Stores(i.op, s.ram, ea, s.x[Operand(i.rs2)])
                             case None => None
                             case Some(ram) => Some(s.(ram := ram))
  {
  }

  lemma {:induction false} StoreAgrees(i: Instruction, s: Arch)
    requires IsStore(i.op)
    ensures Step(i, s) == Meaning(i, s)
  {
    var ea, b := Address(i, s.x), s.x[Operand(i.rs2)];
    var w := StoresTable(i.op, s.ram, ea, b);
    BytesStored(s.ram, ea, b, w);
    MeaningOfStore(i, s, ea);
    StepOfStore(i, s, ea, w);
  }

  lemma {:induction false} RegisterAgrees(i: Instruction, s: Arch)
    requires IsRegisterOp(i.op)
    ensures Step(i, s) == Meaning(i, s)
  {
    IsRegister(i.op);
    if IsMulHigh(i.op) { T.MulHighForm(i, s); } else { T.RegRegForm(i, s); }
  }

  lemma {:induction false} StepOfImmediate(i: Instruction, s: Arch)
    requires AccessOf(i.op).NoAccess? && !IsRegReg(i.op) && !IsWordRegReg(i.op) && !IsMulHigh(i.op)
    requires IsRegImm(i.op) || IsWordShiftImm(i.op)
    ensures Step(i, s) == Some(s.(x := SetReg(s.x, i.Rd(), AluImm(i.op, s.x[i.Rs1()], i.Imm()))))
  {
  }

  lemma {:induction false} ImmediateAgrees(i: Instruction, s: Arch)
    requires IsImmediateOp(i.op)
    ensures Step(i, s) == Meaning(i, s)
  {
    IsImmediate(i.op);
    OneClass(i.op);
    StepOfImmediate(i, s);
  }

  lemma {:induction false} NoMove(i: Instruction, b: u64, sp: u64)
    requires !T.IsMove(i.op)
    ensures Moves(i, b, sp) == None
  {
  }

  lemma {:induction false} StepOfOther(i: Instruction, s: Arch)
    requires AccessOf(i.op).NoAccess? && !IsRegReg(i.op) && !IsWordRegReg(i.op) && !IsMulHigh(i.op)
    requires !IsRegImm(i.op) && !IsWordShiftImm(i.op)
    ensures Step(i, s) == match Moves(i, s.x[Operand(i.rs2)], s.x[2])
                          case None => Some(s)
                          case Some(v) => Some(s.(x := Write(s.x, if i.op.C_ADDI16SP? then 2 else Operand(i.rd), v)))
  {
    if !T.IsMove(i.op) { NoMove(i, s.x[Operand(i.rs2)], s.x[2]); }
  }

  lemma {:induction false} MoveAgrees(i: Instruction, s: Arch)
    requires !IsLoad(i.op) && !IsStore(i.op) && !IsRegisterOp(i.op) && !IsImmediateOp(i.op)
    ensures Step(i, s) == Meaning(i, s)
  {
    OneClass(i.op);
    StepOfOther(i, s);
  }

  /** The model's instruction step is the manual's, opcode by opcode. */
  lemma {:induction false} StepIsManual(i: Instruction, s: Arch)
    ensures Step(i, s) == Meaning(i, s)
  {
    if IsLoad(i.op) {
      LoadAgrees(i, s);
    } else if IsStore(i.op) {
      StoreAgrees(i, s);
    } else if IsRegisterOp(i.op) {
      RegisterAgrees(i, s);
    } else if IsImmediateOp(i.op) {
      ImmediateAgrees(i, s);
    } else {
      MoveAgrees(i, s);
    }
  }

  /** The emitted code of an instruction that does not fault has the manual's effect if and only
      if it is Faithful. */
  lemma {:induction false} CodeIsManual(i: Instruction, st: W.State, m: u32, s: Arch)
    requires T.At(st, m, s) && Meaning(i, s).Some? && !i.op.Unknown?
    ensures T.Faithful(i, s.x) <==> T.Leads(Translate.InstCode(i), st, m, Meaning(i, s).value)
  {
    StepIsManual(i, s);
    T.InstructionCorrect(i, st, m, s, Meaning(i, s).value);
  }

  lemma {:induction false} AccessFaithful(i: Instruction, x: Regs)
    requires IsLoad(i.op) || IsStore(i.op)
    ensures T.Faithful(i, x) && !i.op.Unknown?
  {
    OneClass(i.op);
  }

  /** The code of every load, of any width and sign, compressed or not, puts the manual's value
      of the bytes in its register. */
  lemma {:induction false} LoadIsManual(i: Instruction, st: W.State, m: u32, s: Arch, v: u64)
    requires T.At(st, m, s) && IsLoad(i.op) && Loads(i.op, s.ram, Address(i, s.x)) == Some(v)
    ensures T.Leads(Translate.InstCode(i), st, m, s.(x := Write(s.x, Operand(i.rd), v)))
  {
    AccessFaithful(i, s.x);
    MeaningOfLoad(i, s, Address(i, s.x));
    CodeIsManual(i, st, m, s);
  }

  /** The code of every store changes the manual's bytes and nothing else. */
  lemma {:induction false} StoreIsManual(i: Instruction, st: W.State, m: u32, s: Arch, ram: Mem)
    requires T.At(st, m, s) && IsStore(i.op)
    requires Stores(i.op, s.ram, Address(i, s.x), s.x[Operand(i.rs2)]) == Some(ram)
    ensures T.Leads(Translate.InstCode(i), st, m, s.(ram := ram))
  {
    AccessFaithful(i, s.x);
    MeaningOfStore(i, s, Address(i, s.x));
    CodeIsManual(i, st, m, s);
  }

  /** `lbu` of the byte 0x80 gives 0x80, and `lb` gives it sign-extended. */
  lemma {:induction false} ByteLoads(i: Instruction, st: W.State, m: u32, s: Arch, ea: u64)
    requires T.At(st, m, s) && ea == Address(i, s.x) && ea in s.ram && s.ram[ea] == 0x80
    ensures i.op.LBU? ==> T.Leads(Translate.InstCode(i), st, m, s.(x := Write(s.x, Operand(i.rd), 0x80)))
    ensures i.op.LB? ==>
              T.Leads(Translate.InstCode(i), st, m, s.(x := Write(s.x, Operand(i.rd), 0xFFFF_FFFF_FFFF_FF80)))
  {
    if i.op.LBU? { LoadIsManual(i, st, m, s, 0x80); }
    if i.op.LB? { LoadIsManual(i, st, m, s, 0xFFFF_FFFF_FFFF_FF80); }
  }
}
