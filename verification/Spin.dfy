/** A section that jumps to itself: an instance of the main theorem on compiled programs. */
module Spin {
  import opened Words
  import opened Memory
  import opened Wasm
  import opened Translate
  import opened Dispatch
  import opened DispatchLoop
  import opened Compile
  import opened Isa
  import opened Runs
  import opened Program
  import T = TranslateProof
  import R = RiscV
  import C = Cfg

  const AT: u64 := 0x1000

  const JUMP := R.Instruction(AT, 2, R.C_J, None, None, None, Some(0))

  const BOUNDARIES: set<int> := {AT, 0x1002}

  ghost function Prog(): Isa.Prog { Isa.Prog([JUMP], AT, BOUNDARIES, c => None) }

  const BLOCK := BasicBlock(AT, 0x1002, [JUMP], [AT])

  lemma {:induction false} IsSection()
    ensures Section([JUMP], AT, BOUNDARIES)
  {
    forall a ensures a in BOUNDARIES <==> C.IsBoundary([JUMP], AT, a) {
      if a in BOUNDARIES { assert C.Bounds([JUMP][0], a); }
    }
  }

  lemma {:induction false} CutOne()
    ensures C.Cut([JUMP], BOUNDARIES) == [BLOCK]
  {
    assert [JUMP][..0] == [] && C.Cut([], BOUNDARIES) == [];
    assert C.ComputeSuccessors(JUMP) == [AT];
    assert C.AddInst([], JUMP, BOUNDARIES) == [] + [BLOCK];
  }

  lemma {:induction false} OneBlock()
    ensures C.BlockList([JUMP], BOUNDARIES) == [BLOCK]
  {
    CutOne();
    var list := C.FallThrough([BLOCK]);
    assert list[0] == BLOCK;
  }

  /** One block is always in the first word. */
  lemma {:induction false} OneWord(list: seq<BasicBlock>)
    requires |list| == 1 && Sorted(EntriesOf(list))
    ensures WordPerBlock(EntriesOf(list))
  {
  }

  lemma {:induction false} StepsToItself(s: R.Arch)
    ensures IsaStep(Prog(), Machine(AT, s)) == Some(Machine(AT, s))
  {
    T.NoneForm(JUMP, s);
  }

  lemma {:induction false} Stays<S>(step: S -> Option<S>, c: S, n: nat)
    requires step(c) == Some(c)
    ensures Iterate(step, c, n) == Some(c)
    decreases n
  {
    if n > 0 { Stays(step, c, n - 1); }
  }

  lemma {:induction false} LoopFor(env: Env, body: Code) returns (loop: Looper)
    ensures Loops(loop, env, body)
  {
    loop := st => LoopStep(env, body, st);
  }

  lemma {:induction false} TableFor(list: seq<BasicBlock>, syscall: (Mem, u32, u32) -> (u32, Mem)) returns (env: Env)
    ensures Compiled(list, env) && env.syscall == syscall
  {
    env := Top(seq(|list|, k requires 0 <= k < |list| => FunctionCode(list, k, 0)), syscall);
    assert CompiledAt(list, env.table, 0);
  }

  lemma {:induction false} NoCalls(env: Env, m: u32, p: Isa.Prog)
    requires env.Top? && forall c :: p.handler(c) == None
    ensures Serves(env, m, p)
  {
  }

  /** Every section whose dense form, if it has one, has block k in word k has a dispatch loop. */
  lemma {:induction false} Builds(p: Isa.Prog, list: seq<BasicBlock>, env: Env, m: u32) returns (loop: Looper)
    requires Section(p.insts, p.entry, p.bs) && list == C.BlockList(p.insts, p.bs)
    requires |list| < TWO32 && Sorted(EntriesOf(list)) && WordPerBlock(EntriesOf(list))
    requires Compiled(list, env) && Serves(env, m, p)
    ensures Built(loop, env, p, list, m)
  {
    SectionBlocks(p.insts, p.entry, p.bs);
    loop := LoopFor(env, DispatchBody(EntriesOf(list)));
  }

  lemma {:induction false} BuildsSpin(m: u32) returns (loop: Looper, env: Env)
    ensures Built(loop, env, Prog(), [BLOCK], m)
  {
    var p := Prog();
    var list := C.BlockList(p.insts, p.bs);
    IsSection();
    SectionBlocks(p.insts, p.entry, p.bs);
    assert |list| == 1 && list == [BLOCK] by { OneBlock(); }
    OneWord(list);
    env := TableFor(list, (mem, m, pc) => (0, mem));
    NoCalls(env, m, p);
    loop := Builds(p, list, env, m);
  }

  /** The premises of ProgramCorrect can be met: the section runs for any number of steps, and
      the dispatch loop built for it stays at its pc, registers and RAM. */
  lemma {:induction false} Instance(st: State, m: u32, s: R.Arch, n: nat) returns (loop: Looper, env: Env, isa: Stepper)
    requires Represents(st, m, Machine(AT, s))
    ensures IsaSteps(isa, Prog()) && Built(loop, env, Prog(), [BLOCK], m)
    ensures Lands(Prog(), AT) && Iterate(isa, Machine(AT, s), n) == Some(Machine(AT, s))
    ensures Reaches(loop, RepOf(m), st, Machine(AT, s), 2 * n)
  {
    loop, env := BuildsSpin(m);
    var p := Prog();
    isa := c => IsaStep(p, c);
    OneBlock();
    assert [BLOCK][0].start == AT;
    StepsToItself(s);
    Stays(isa, Machine(AT, s), n);
    ProgramCorrect(loop, env, isa, p, [BLOCK], st, m, Machine(AT, s), n);
  }
}
