/** A section of two blocks that jump to each other and count in x1: an instance of the main
    theorem that goes through the branch table. */
module Hop {
  import opened Words
  import opened Memory
  import opened Wasm
  import opened Translate
  import opened Dispatch
  import opened DispatchLoop
  import opened Compile
  import opened Isa
  import opened Runs
  import opened Program
  import T = TranslateProof
  import R = RiscV
  import C = Cfg
  import S = Sections
  import Spin

  const AT: u64 := 0x1000
  const MID: u64 := 0x1010

  function Add(addr: u64): R.Instruction { R.Instruction(addr, 4, R.ADDI, Some(1), Some(1), None, Some(1)) }

  const FORTH := R.Instruction(0x100C, 4, R.JAL, None, None, None, Some(4))
  const BACK := R.Instruction(MID, 4, R.JAL, None, None, None, Some(-16))
  const LEFT := [Add(AT), Add(0x1004), Add(0x1008), FORTH]
  const CODE := [Add(AT), Add(0x1004), Add(0x1008), FORTH, BACK]
  const ENDS: set<int> := {AT, MID, 0x1014}
  const NEAR := BasicBlock(AT, MID, LEFT, [MID])
  const FAR := BasicBlock(MID, 0x1014, [BACK], [AT])
  const BLOCKS := [NEAR, FAR]

  ghost function Hops(): Isa.Prog { Isa.Prog(CODE, AT, ENDS, c => None) }

  lemma {:induction false} IsSection()
    ensures Section(CODE, AT, ENDS)
  {
    assert FORTH.Target() == MID && BACK.Target() == AT;
    forall a ensures a in ENDS <==> C.IsBoundary(CODE, AT, a) {
      if a == MID { assert C.Bounds(CODE[3], a); }
      if a == 0x1014 { assert C.Bounds(CODE[4], a); }
    }
  }

  lemma {:induction false} JumpSuccessors(i: R.Instruction)
    requires i.op.JAL? && i.Rd() == 0 && i.imm.Some?
    ensures C.ComputeSuccessors(i) == [i.Target()]
  {
  }

  lemma {:induction false} CutLeft(code: seq<R.Instruction>, bs: set<int>)
    requires code == LEFT && bs == ENDS
    ensures C.Cut(code, bs) == [NEAR]
  {
    JumpSuccessors(FORTH);
    S.CutIs(code, bs, NEAR);
  }

  lemma {:induction false} CutRight(code: seq<R.Instruction>, bs: set<int>)
    requires code == [BACK] && bs == ENDS
    ensures C.Cut(code, bs) == [FAR]
  {
    JumpSuccessors(BACK);
    S.CutIs(code, bs, FAR);
  }

  lemma {:induction false} CutBoth(code: seq<R.Instruction>, bs: set<int>)
    requires code == CODE && bs == ENDS
    ensures C.Cut(code, bs) == BLOCKS
  {
    var left, right := code[..4], code[4..];
    assert left == LEFT && right == [BACK] && left + right == code;
    CutLeft(left, bs);
    CutRight(right, bs);
    S.CutAppend(left, right, bs);
  }

  lemma {:induction false} TwoBlocks()
    ensures C.BlockList(CODE, ENDS) == BLOCKS
  {
    CutBoth(CODE, ENDS);
    var list := C.FallThrough(BLOCKS);
    assert list[0] == BLOCKS[0] && list[1] == BLOCKS[1];
  }

  lemma {:induction false} SmallTable(d: nat, align: nat)
    requires align > 0
    ensures Quot(d, align) <= d
    decreases d
  {
    if d >= align { SmallTable(d - align, align); }
  }

  /** The two blocks are too far apart for the dense form. */
  lemma {:induction false} UsesTable()
    ensures Sorted(EntriesOf(BLOCKS)) && WordPerBlock(EntriesOf(BLOCKS))
    ensures var es := EntriesOf(BLOCKS);
            DispatchCode(es) == BrTableCode(es, Alignment(es), TableSize(es, Alignment(es)))
  {
    var es := EntriesOf(BLOCKS);
    assert Sorted(es) && !CanUseDense(es);
    SmallTable(16, Alignment(es));
  }

  lemma {:induction false} StartsLand()
    ensures Lands(Hops(), AT) && Lands(Hops(), MID)
  {
    TwoBlocks();
    assert BLOCKS[0].start == AT && BLOCKS[1].start == MID;
  }

  function Added(s: R.Arch): R.Arch { s.(x := R.SetReg(s.x, 1, R.AluImm(R.ADDI, s.x[1], 1))) }

  lemma {:induction false} AddMoves(p: Isa.Prog, addr: u64, s: R.Arch)
    requires addr + 4 < TWO31
    ensures IsaOutcome(p, Add(addr), s) == Some(Machine(addr + 4, Added(s)))
    ensures IsaTranslates(p, Add(addr), s, addr + 4)
  {
    T.Kinds(R.ADDI);
  }

  lemma {:induction false} JumpMoves(p: Isa.Prog, i: R.Instruction, s: R.Arch)
    requires i.op.JAL? && i.Rd() == 0 && i.imm.Some? && i.Target() < TWO31
    ensures IsaOutcome(p, i, s) == Some(Machine(i.Target(), s)) && IsaTranslates(p, i, s, i.Target())
  {
    T.NoneForm(i, s);
  }

  lemma {:induction false} Fetched(k: nat)
    requires k < |CODE|
    ensures Fetch(CODE, CODE[k].addr) == Some(CODE[k])
  {
    IsSection();
    FetchAt(CODE, k);
  }

  lemma {:induction false} StepIs(k: nat, s: R.Arch, c: Machine)
    requires k < |CODE| && IsaOutcome(Hops(), CODE[k], s) == Some(c) && IsaTranslates(Hops(), CODE[k], s, c.pc)
    ensures IsaStep(Hops(), Machine(CODE[k].addr, s)) == Some(c)
  {
    Fetched(k);
  }

  lemma {:induction false} CodeAt(k: nat)
    requires k < |CODE|
    ensures CODE[k].addr == 0x1000 + 4 * k
    ensures CODE[k] == if k < 3 then Add(0x1000 + 4 * k) else if k == 3 then FORTH else BACK
  {
  }

  lemma {:induction false} AddStep(k: nat, s: R.Arch)
    requires k < 3
    ensures IsaStep(Hops(), Machine(0x1000 + 4 * k, s)) == Some(Machine(0x1004 + 4 * k, Added(s)))
  {
    CodeAt(k);
    AddMoves(Hops(), 0x1000 + 4 * k, s);
    StepIs(k, s, Machine(0x1004 + 4 * k, Added(s)));
  }

  lemma {:induction false} JumpStep(k: nat, s: R.Arch)
    requires 3 <= k < 5
    ensures IsaStep(Hops(), Machine(0x1000 + 4 * k, s)) == Some(Machine(if k == 3 then MID else AT, s))
  {
    CodeAt(k);
    JumpMoves(Hops(), CODE[k], s);
    StepIs(k, s, Machine(CODE[k].Target(), s));
  }

  /** The state after n rounds of three additions. */
  function Rounds(s: R.Arch, n: nat): R.Arch
    decreases n
  {
    if n == 0 then s else Rounds(Added(Added(Added(s))), n - 1)
  }

  lemma {:induction false} WrapSum(a: int, b: int)
    ensures (Wrap64(a) + b) % TWO64 == (a + b) % TWO64
  {
    assert a == a / TWO64 * TWO64 + Wrap64(a);
  }

  lemma {:induction false} AddedOnce(s: R.Arch, b: int)
    ensures (Added(s).x[1] + b) % TWO64 == (s.x[1] + (b + 1)) % TWO64
  {
    var v: int := s.x[1];
    assert Added(s).x[1] == Wrap64(v + 1);
    WrapSum(v + 1, b);
  }

  /** It has counted to 3n. */
  lemma {:induction false} RoundsCount(s: R.Arch, n: nat)
    ensures Rounds(s, n).x[1] == (s.x[1] + 3 * n) % TWO64
    decreases n
  {
    if n > 0 {
      RoundsCount(Added(Added(Added(s))), n - 1);
      AddedOnce(Added(Added(s)), 3 * n - 3);
      AddedOnce(Added(s), 3 * n - 2);
      AddedOnce(s, 3 * n - 1);
    }
  }

  lemma {:induction false} OneMore<T>(step: T -> Option<T>, c: T, c1: T, n: nat)
    requires step(c) == Some(c1) && n > 0
    ensures Iterate(step, c, n) == Iterate(step, c1, n - 1)
  {
  }

  lemma {:induction false} FiveSteps(isa: Stepper, s: R.Arch, n: nat)
    requires IsaSteps(isa, Hops()) && n >= 5
    ensures Iterate(isa, Machine(AT, s), n) == Iterate(isa, Machine(AT, Added(Added(Added(s)))), n - 5)
  {
    var s1, s2, s3 := Added(s), Added(Added(s)), Added(Added(Added(s)));
    AddStep(0, s);
    AddStep(1, s1);
    AddStep(2, s2);
    JumpStep(3, s3);
    JumpStep(4, s3);
    assert IsaAt(isa, Hops(), Machine(AT, s)) && IsaAt(isa, Hops(), Machine(0x1004, s1));
    assert IsaAt(isa, Hops(), Machine(0x1008, s2)) && IsaAt(isa, Hops(), Machine(0x100C, s3));
    assert IsaAt(isa, Hops(), Machine(MID, s3));
    OneMore(isa, Machine(AT, s), Machine(0x1004, s1), n);
    OneMore(isa, Machine(0x1004, s1), Machine(0x1008, s2), n - 1);
    OneMore(isa, Machine(0x1008, s2), Machine(0x100C, s3), n - 2);
    OneMore(isa, Machine(0x100C, s3), Machine(MID, s3), n - 3);
    OneMore(isa, Machine(MID, s3), Machine(AT, s3), n - 4);
  }

  lemma {:induction false} RunsRounds(isa: Stepper, s: R.Arch, n: nat)
    requires IsaSteps(isa, Hops())
    ensures Iterate(isa, Machine(AT, s), 5 * n) == Some(Machine(AT, Rounds(s, n)))
    decreases n
  {
    if n > 0 {
      FiveSteps(isa, s, 5 * n);
      RunsRounds(isa, Added(Added(Added(s))), n - 1);
    }
  }

  lemma {:induction false} BuildsHop(m: u32) returns (loop: Looper, env: Env)
    ensures Built(loop, env, Hops(), BLOCKS, m)
  {
    var p := Hops();
    IsSection();
    TwoBlocks();
    UsesTable();
    env := Spin.TableFor(BLOCKS, (mem, m, pc) => (0, mem));
    Spin.NoCalls(env, m, p);
    loop := Spin.Builds(p, BLOCKS, env, m);
  }

  /** The dispatch loop built for the section, with a branch table, runs any number of rounds
      through both blocks. */
  lemma {:induction false} HopsOn(st: State, m: u32, s: R.Arch, n: nat) returns (loop: Looper, env: Env)
    requires Represents(st, m, Machine(AT, s))
    ensures Built(loop, env, Hops(), BLOCKS, m) && !CanUseDense(EntriesOf(BLOCKS))
    ensures Reaches(loop, RepOf(m), st, Machine(AT, Rounds(s, n)), 10 * n)
    ensures Rounds(s, n).x[1] == (s.x[1] + 3 * n) % TWO64
  {
    loop, env := BuildsHop(m);
    var p := Hops();
    var isa: Stepper := c => IsaStep(p, c);
    StartsLand();
    RunsRounds(isa, s, n);
    ProgramCorrect(loop, env, isa, p, BLOCKS, st, m, Machine(AT, s), 5 * n);
    UsesTable();
    RoundsCount(s, n);
  }
}
