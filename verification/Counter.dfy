/** A section that counts in x1 and asks the environment for an answer in a0 each time round:
    an instance of the main theorem with arithmetic and system calls. */
module Counter {
  import opened Words
  import opened Memory
  import opened Wasm
  import opened Translate
  import opened Compile
  import opened Isa
  import opened Runs
  import opened Program
  import opened Spin
  import T = TranslateProof
  import R = RiscV
  import C = Cfg

  const ADD := R.Instruction(AT, 4, R.ADDI, Some(1), Some(1), None, Some(1))
  const CALL := R.Instruction(0x1004, 4, R.ECALL, None, None, None, None)
  const CODE := [ADD, CALL]
  const ENDS: set<int> := {AT, 0x1008}
  const WHOLE := BasicBlock(AT, 0x1008, CODE, [0x1008])
  const ANSWER: u64 := 42

  function Answered(s: R.Arch): R.Arch { s.(x := R.SetReg(s.x, 10, ANSWER)) }

  /** The environment answers in a0 and goes back to the start. */
  ghost function Asks(): Isa.Prog { Isa.Prog(CODE, AT, ENDS, (c: Machine) => Some(Machine(AT, Answered(c.arch)))) }

  /** The handler stores the answer in the slot of a0. */
  ghost function Answer(mem: Mem, m: u32, pc: u32): (u32, Mem) {
    (AT, if Mapped(mem, m + 80, 8) then Store(mem, m + 80, 8, ANSWER) else mem)
  }

  lemma {:induction false} AnswerServes(env: Env, m: u32)
    requires env.Top? && env.syscall == Answer
    ensures Serves(env, m, Asks())
  {
    forall mem: Mem, pc: u32, s: R.Arch ensures ServesOne(env, m, Asks(), mem, pc, s) {
      if T.Holds(mem, m, s) { T.StoreReg(mem, m, s, 10, ANSWER); }
    }
  }

  lemma {:induction false} IsSection()
    ensures Section(CODE, AT, ENDS)
  {
    forall a ensures a in ENDS <==> C.IsBoundary(CODE, AT, a) {
      if a == 0x1008 { assert C.Bounds(CODE[1], a); }
    }
  }

  const FIRST := BasicBlock(AT, 0x1004, [ADD], [])

  lemma {:induction false} CutFirst()
    ensures C.Cut([ADD], ENDS) == [FIRST]
  {
    C.CutLast([ADD], [], ADD, ENDS);
    assert C.AddInst([], ADD, ENDS) == [] + [FIRST];
  }

  lemma {:induction false} CutBoth()
    ensures C.Cut(CODE, ENDS) == [WHOLE]
  {
    CutFirst();
    C.CutLast(CODE, [ADD], CALL, ENDS);
    assert C.ComputeSuccessors(CALL) == [0x1008] && [ADD] + [CALL] == CODE;
    assert C.AddInst([FIRST], CALL, ENDS) == [FIRST][..0] + [WHOLE];
  }

  lemma {:induction false} OneBlock()
    ensures C.BlockList(CODE, ENDS) == [WHOLE]
  {
    CutBoth();
    var list := C.FallThrough([WHOLE]);
    assert list[0] == WHOLE;
  }

  lemma {:induction false} StartLands()
    ensures Lands(Asks(), AT)
  {
    OneBlock();
    assert [WHOLE][0].start == AT;
  }

  function AddOne(v: u64): u64 { R.AluImm(R.ADDI, v, 1) }

  function Added(s: R.Arch): R.Arch { s.(x := R.SetReg(s.x, 1, AddOne(s.x[1]))) }

  lemma {:induction false} AddStep(s: R.Arch)
    ensures IsaStep(Asks(), Machine(AT, s)) == Some(Machine(0x1004, Added(s)))
  {
    assert Fetch(CODE, AT) == Some(ADD);
    T.Kinds(R.ADDI);
  }

  lemma {:induction false} CallStep(s: R.Arch)
    ensures IsaStep(Asks(), Machine(0x1004, s)) == Some(Machine(AT, Answered(s)))
  {
    assert CODE[1..] == [CALL] && Fetch([CALL], 0x1004) == Some(CALL) && Fetch(CODE, 0x1004) == Some(CALL);
    EcallStep(CALL, s);
    StartLands();
  }

  /** The state after n rounds. */
  function Rounds(s: R.Arch, n: nat): R.Arch
    decreases n
  {
    if n == 0 then s else Rounds(Answered(Added(s)), n - 1)
  }

  lemma {:induction false} RoundSets(s: R.Arch)
    ensures Answered(Added(s)).x[1] == AddOne(s.x[1]) && Answered(Added(s)).x[10] == ANSWER
  {
  }

  lemma {:induction false} AddOneMore(v: u64, n: nat)
    requires n > 0
    ensures (AddOne(v) + (n - 1)) % TWO64 == (v + n) % TWO64
  {
    if v == TWO64 - 1 { assert (v + n) == (n - 1) + TWO64; }
  }

  lemma {:induction false} RoundsLast(s: R.Arch, n: nat)
    requires s.x[10] == ANSWER
    ensures Rounds(s, n).x[10] == ANSWER
    decreases n
  {
    if n > 0 {
      RoundSets(s);
      RoundsLast(Answered(Added(s)), n - 1);
    }
  }

  /** It has counted to n and has the answer. */
  lemma {:induction false} RoundsCount(s: R.Arch, n: nat)
    ensures Rounds(s, n).x[1] == (s.x[1] + n) % TWO64 && (n > 0 ==> Rounds(s, n).x[10] == ANSWER)
    decreases n
  {
    if n > 0 {
      var next := Answered(Added(s));
      RoundSets(s);
      AddOneMore(s.x[1], n);
      RoundsCount(next, n - 1);
      RoundsLast(next, n - 1);
    }
  }

  lemma {:induction false} OneRound(isa: Stepper, s: R.Arch, mid: Machine, next: Machine)
    requires IsaSteps(isa, Asks()) && mid == Machine(0x1004, Added(s)) && next == Machine(AT, Answered(Added(s)))
    ensures isa(Machine(AT, s)) == Some(mid) && isa(mid) == Some(next)
  {
    assert IsaAt(isa, Asks(), Machine(AT, s)) && IsaAt(isa, Asks(), mid);
    AddStep(s);
    CallStep(Added(s));
  }

  lemma {:induction false} TwoOn<S>(step: S -> Option<S>, c: S, c1: S, c2: S, n: nat)
    requires step(c) == Some(c1) && step(c1) == Some(c2) && n >= 2
    ensures Iterate(step, c, n) == Iterate(step, c2, n - 2)
  {
    assert Iterate(step, c1, n - 1) == Iterate(step, c2, n - 2);
  }

  lemma {:induction false} RunsRounds(isa: Stepper, s: R.Arch, n: nat)
    requires IsaSteps(isa, Asks())
    ensures Iterate(isa, Machine(AT, s), 2 * n) == Some(Machine(AT, Rounds(s, n)))
    decreases n
  {
    if n > 0 {
      var mid, next := Machine(0x1004, Added(s)), Machine(AT, Answered(Added(s)));
      OneRound(isa, s, mid, next);
      TwoOn(isa, Machine(AT, s), mid, next, 2 * n);
      RunsRounds(isa, next.arch, n - 1);
    }
  }

  lemma {:induction false} BuildsCounter(m: u32) returns (loop: Looper, env: Env)
    ensures Built(loop, env, Asks(), [WHOLE], m)
  {
    var p := Asks();
    var list := C.BlockList(p.insts, p.bs);
    IsSection();
    SectionBlocks(p.insts, p.entry, p.bs);
    assert |list| == 1 && list == [WHOLE] by { OneBlock(); }
    OneWord(list);
    env := TableFor(list, Answer);
    AnswerServes(env, m);
    loop := Builds(p, list, env, m);
  }

  /** The dispatch loop built for the section counts any number of rounds, with an answered
      system call in each. */
  lemma {:induction false} Counts(st: State, m: u32, s: R.Arch, n: nat) returns (loop: Looper, env: Env)
    requires Represents(st, m, Machine(AT, s))
    ensures Built(loop, env, Asks(), [WHOLE], m)
    ensures Reaches(loop, RepOf(m), st, Machine(AT, Rounds(s, n)), 4 * n)
    ensures Rounds(s, n).x[1] == (s.x[1] + n) % TWO64 && (n > 0 ==> Rounds(s, n).x[10] == ANSWER)
  {
    loop, env := BuildsCounter(m);
    var p := Asks();
    var isa: Stepper := c => IsaStep(p, c);
    StartLands();
    RunsRounds(isa, s, n);
    ProgramCorrect(loop, env, isa, p, [WHOLE], st, m, Machine(AT, s), 2 * n);
    RoundsCount(s, n);
  }
}
