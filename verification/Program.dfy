/** Compiled programs: the dispatch function over the translated blocks of a section runs the
    section one instruction at a time. */
module Program {
  import opened Words
  import opened Memory
  import opened Wasm
  import opened Translate
  import opened TranslateProof
  import opened Terminators
  import opened Dispatch
  import opened DispatchProof
  import opened DispatchLoop
  import opened Compile
  import opened Optimize
  import opened Isa
  import opened Runs
  import R = RiscV
  import C = Cfg
  import O = Overlap

  /** The table holds the functions of the blocks, at some optimization level. */
  ghost predicate Compiled(list: seq<BasicBlock>, env: Env) {
    env.Top? && |env.table| == |list| && exists level :: CompiledAt(list, env.table, level)
  }

  ghost predicate CompiledAt(list: seq<BasicBlock>, table: seq<Code>, level: nat) {
    |table| == |list| && forall k | 0 <= k < |list| :: table[k] == FunctionCode(list, k, level)
  }

  /** The dispatch function is at machine state c. */
  ghost predicate Represents(st: State, m: u32, c: Machine) {
    0 <= c.pc < TWO31 && AtPc(st, m, c.pc) && Holds(st.mem, m, c.arch) && st.labels == []
  }

  /** The imported handler does for a flagged pc what the environment does for the call there. */
  ghost predicate Serves(env: Env, m: u32, p: Prog) {
    env.Top? && forall mem: Mem, pc: u32, s: R.Arch :: ServesOne(env, m, p, mem, pc, s)
  }

  ghost predicate ServesOne(env: Env, m: u32, p: Prog, mem: Mem, pc: u32, s: R.Arch)
    requires env.Top?
  {
    var call := p.handler(Machine(pc, s));
    Holds(mem, m, s) && pc < TWO31 && call.Some? && 0 <= call.value.pc < TWO31 ==>
      var (v, mem') := (env.syscall)(mem, m, SYSCALL_FLAG + pc);
      v == call.value.pc && Holds(mem', m, call.value.arch)
  }

  /** One iteration of the dispatch loop. */
  ghost function LoopStep(env: Env, body: Code, st: State): Option<State> {
    match Exec(env, body, st) case Branch(0, st1) => Some(st1) case _ => None
  }

  /** The dispatch loop as a step function. */
  type Looper = State -> Option<State>

  ghost predicate LoopsAt(loop: Looper, env: Env, body: Code, st: State) { loop(st) == LoopStep(env, body, st) }

  ghost predicate Loops(loop: Looper, env: Env, body: Code) {
    forall st {:trigger LoopsAt(loop, env, body, st)} :: LoopsAt(loop, env, body, st)
  }

  /** What a call returns: the value and a memory that holds the state. */
  ghost predicate CallGives(env: Env, k: nat, m: u32, mem: Mem, v: int, s: R.Arch)
    requires k < TWO32
  {
    0 <= v < TWO32 && exists mem' :: CallBlock(env, k, m, mem) == Some((I32(v), mem')) && Holds(mem', m, s)
  }

  lemma {:induction false} CallReturns(env: Env, code: Code, k: nat, m: u32, mem: Mem, v: u32, s: R.Arch)
    requires env.Top? && k < |env.table| && k < TWO32
    requires Exec(Leaf, env.table[k], Frame(m, mem)) == Exec(Leaf, code, Frame(m, mem))
    requires Returns(Leaf, code, Frame(m, mem), m, v, s)
    ensures CallGives(env, k, m, mem, v, s)
  {
    var o := Exec(Leaf, env.table[k], Frame(m, mem));
    assert CallBlock(env, k, m, mem) == Some((I32(v), o.mem)) && Holds(o.mem, m, s);
  }

  /** The code of a function is, in meaning, that of its block at any optimization level. */
  lemma {:induction false} FunctionMeans(env: Env, list: seq<BasicBlock>, k: nat, level: nat, st: State)
    requires k < |list|
    ensures Exec(env, FunctionCode(list, k, level), st)
         == Exec(env, BlockCode(list[k], if level >= 2 then Starts(list) else []), st)
  {
    if level >= 2 { StripExec(env, BlockCode(list[k], Starts(list)), st); }
  }

  /** A call of block k returns where its last instruction goes, in RISC-V's registers and RAM. */
  lemma {:induction false} PlainCall(env: Env, p: Prog, list: seq<BasicBlock>, k: nat, m: u32, mem: Mem, s: R.Arch,
                                     c: Machine)
    requires Known(p, list, k) && k < TWO32 && Compiled(list, env) && Holds(mem, m, s)
    requires RunsBlock(p, list[k].instructions, s, c) && !C.Last(list[k]).op.ECALL?
    ensures CallGives(env, k, m, mem, c.pc, c.arch)
  {
    var b := list[k];
    var level :| CompiledAt(list, env.table, level);
    var ic := if level >= 2 then Starts(list) else [];
    FunctionMeans(Leaf, list, k, level, Frame(m, mem));
    BlockCorrect(Leaf, b, ic, mem, m, s);
    CallReturns(env, BlockCode(b, ic), k, m, mem, c.pc, c.arch);
  }

  lemma {:induction false} EcallBlock(p: Prog, list: seq<BasicBlock>, k: nat, ic: seq<int>, m: u32, mem: Mem,
                                      s: R.Arch, c: Machine)
    requires Known(p, list, k) && Holds(mem, m, s)
    requires RunsBlock(p, list[k].instructions, s, c) && C.Last(list[k]).op.ECALL?
    ensures C.Last(list[k]).addr < TWO31 - 1
    ensures Returns(Leaf, BlockCode(list[k], ic), Frame(m, mem), m, SYSCALL_FLAG + C.Last(list[k]).addr,
                    R.Run(list[k].instructions, s).value)
  {
    LastBelow(p, list, k);
    EcallReturns(list[k], ic, m, mem, s);
  }

  lemma {:induction false} LastBelow(p: Prog, list: seq<BasicBlock>, k: nat)
    requires Known(p, list, k)
    ensures C.Last(list[k]).addr < TWO31 - 1
  {
    FetchInBlock(p, list, k, |list[k].instructions| - 1);
  }

  lemma {:induction false} EcallReturns(b: BasicBlock, ic: seq<int>, m: u32, mem: Mem, s: R.Arch)
    requires Holds(mem, m, s) && b.instructions != [] && FaithfulRun(b.instructions, s)
             && R.Run(b.instructions, s).Some?
    requires C.Last(b).op.ECALL? && C.Last(b).addr < TWO31
    ensures Returns(Leaf, BlockCode(b, ic), Frame(m, mem), m, SYSCALL_FLAG + C.Last(b).addr,
                    R.Run(b.instructions, s).value)
  {
    var s1 := R.Run(b.instructions, s).value;
    EcallFlagged(C.Last(b), b.end, s1.x);
    NoLink(C.Last(b), s1);
    BlockCorrect(Leaf, b, ic, mem, m, s);
  }

  /** A call of a block that ends in a system call returns the flagged address of the call. */
  lemma {:induction false} EcallCall(env: Env, p: Prog, list: seq<BasicBlock>, k: nat, m: u32, mem: Mem, s: R.Arch,
                                     c: Machine)
    requires Known(p, list, k) && k < TWO32 && Compiled(list, env) && Holds(mem, m, s)
    requires RunsBlock(p, list[k].instructions, s, c) && C.Last(list[k]).op.ECALL?
    ensures C.Last(list[k]).addr < TWO31 - 1
    ensures CallGives(env, k, m, mem, SYSCALL_FLAG + C.Last(list[k]).addr, R.Run(list[k].instructions, s).value)
  {
    var level :| CompiledAt(list, env.table, level);
    var ic := if level >= 2 then Starts(list) else [];
    FunctionMeans(Leaf, list, k, level, Frame(m, mem));
    EcallBlock(p, list, k, ic, m, mem, s, c);
    CallReturns(env, BlockCode(list[k], ic), k, m, mem, SYSCALL_FLAG + C.Last(list[k]).addr,
                R.Run(list[k].instructions, s).value);
  }

  lemma {:induction false} NoLink(i: R.Instruction, s: R.Arch)
    requires i.op.ECALL?
    ensures s.(x := Linked(i, s.x)) == s
  {
  }

  /** An iteration that calls block k. */
  lemma {:induction false} CallIteration(loop: Looper, env: Env, es: Entries, k: nat, st: State, m: u32, v: u32,
                                         s: R.Arch)
    returns (st1: State)
    requires Sorted(es) && Numbered(es) && WordPerBlock(es) && k < |es| && k < TWO32
             && Loops(loop, env, DispatchBody(es))
    requires AtPc(st, m, es[k].addr) && st.labels == [] && CallGives(env, k, m, st.mem, v, s)
    ensures loop(st) == Some(st1)
    ensures AtPc(st1, m, v) && Holds(st1.mem, m, s) && st1.labels == []
  {
    assert LoopsAt(loop, env, DispatchBody(es), st);
    DispatchIteration(env, es, st, m, k);
    var mem' :| CallBlock(env, k, m, st.mem) == Some((I32(v), mem')) && Holds(mem', m, s);
    st1 := st.(locals := st.locals[2 := I32(v)], mem := mem');
  }

  /** An iteration that hands a flagged pc to the system-call handler. */
  lemma {:induction false} ServiceIteration(loop: Looper, env: Env, p: Prog, es: Entries, st: State, m: u32, pc: u32,
                                            s: R.Arch, c: Machine)
    returns (st1: State)
    requires Sorted(es) && Loops(loop, env, DispatchBody(es)) && Serves(env, m, p) && pc < TWO31 - 1
             && AtPc(st, m, SYSCALL_FLAG + pc) && st.labels == []
    requires Holds(st.mem, m, s) && p.handler(Machine(pc, s)) == Some(c) && 0 <= c.pc < TWO31
    ensures loop(st) == Some(st1) && Represents(st1, m, c)
  {
    assert LoopsAt(loop, env, DispatchBody(es), st);
    IterationExec(env, DispatchCode(es), st, m, SYSCALL_FLAG + pc);
    assert ServesOne(env, m, p, st.mem, pc, s);
    var (v, mem') := (env.syscall)(st.mem, m, SYSCALL_FLAG + pc);
    st1 := st.(locals := st.locals[2 := I32(v)], mem := mem');
  }

  /** The whole compiled section. */
  ghost predicate Built(loop: Looper, env: Env, p: Prog, list: seq<BasicBlock>, m: u32) {
    && Section(p.insts, p.entry, p.bs) && list == C.BlockList(p.insts, p.bs) && C.Partition(list, p.insts, p.bs)
    && |list| < TWO32 && Sorted(EntriesOf(list)) && WordPerBlock(EntriesOf(list))
    && Loops(loop, env, DispatchBody(EntriesOf(list))) && Compiled(list, env) && Serves(env, m, p)
  }

  lemma {:induction false} ThroughEcall(loop: Looper, env: Env, p: Prog, list: seq<BasicBlock>, k: nat, st: State,
                                        m: u32, s: R.Arch, c: Machine)
    returns (st1: State)
    requires Built(loop, env, p, list, m) && Known(p, list, k) && C.Last(list[k]).op.ECALL?
    requires Represents(st, m, Machine(list[k].start, s)) && RunsBlock(p, list[k].instructions, s, c)
    ensures Iterate(loop, st, 2) == Some(st1) && Represents(st1, m, c)
  {
    var last, s1 := C.Last(list[k]), R.Run(list[k].instructions, s).value;
    var st' := FlagIteration(loop, env, p, list, k, st, m, s, c);
    st1 := ServiceIteration(loop, env, p, EntriesOf(list), st', m, last.addr, s1, c);
    TwoSteps(loop, st, st', st1);
  }

  /** The iteration that calls a block with a system call at its end. */
  lemma {:induction false} FlagIteration(loop: Looper, env: Env, p: Prog, list: seq<BasicBlock>, k: nat, st: State,
                                         m: u32, s: R.Arch, c: Machine)
    returns (st': State)
    requires Built(loop, env, p, list, m) && Known(p, list, k) && C.Last(list[k]).op.ECALL?
    requires Represents(st, m, Machine(list[k].start, s)) && RunsBlock(p, list[k].instructions, s, c)
    ensures C.Last(list[k]).addr < TWO31 - 1 && loop(st) == Some(st')
    ensures AtPc(st', m, SYSCALL_FLAG + C.Last(list[k]).addr)
            && Holds(st'.mem, m, R.Run(list[k].instructions, s).value) && st'.labels == []
  {
    EcallCall(env, p, list, k, m, st.mem, s, c);
    st' := CallIteration(loop, env, EntriesOf(list), k, st, m, SYSCALL_FLAG + C.Last(list[k]).addr,
                         R.Run(list[k].instructions, s).value);
  }

  lemma {:induction false} ThroughPlain(loop: Looper, env: Env, p: Prog, list: seq<BasicBlock>, k: nat, st: State,
                                        m: u32, s: R.Arch, c: Machine)
    returns (st1: State)
    requires Built(loop, env, p, list, m) && Known(p, list, k) && !C.Last(list[k]).op.ECALL?
    requires Represents(st, m, Machine(list[k].start, s)) && RunsBlock(p, list[k].instructions, s, c)
    ensures Iterate(loop, st, 1) == Some(st1) && Represents(st1, m, c)
  {
    PlainCall(env, p, list, k, m, st.mem, s, c);
    st1 := CallIteration(loop, env, EntriesOf(list), k, st, m, c.pc, c.arch);
    OneStep(loop, st, st1);
  }

  lemma {:induction false} OneStep(step: Looper, st: State, st1: State)
    requires step(st) == Some(st1)
    ensures Iterate(step, st, 1) == Some(st1)
  {
    assert Iterate(step, st1, 0) == Some(st1);
  }

  lemma {:induction false} TwoSteps(step: Looper, st: State, st': State, st1: State)
    requires step(st) == Some(st') && step(st') == Some(st1)
    ensures Iterate(step, st, 2) == Some(st1)
  {
    OneStep(step, st', st1);
  }

  /** One block is one iteration, or two when it ends in a system call. */
  lemma {:induction false} ThroughBlock(loop: Looper, env: Env, p: Prog, list: seq<BasicBlock>, k: nat, st: State,
                                        m: u32, s: R.Arch, c: Machine)
    returns (st1: State, n: nat)
    requires Built(loop, env, p, list, m) && Known(p, list, k)
    requires Represents(st, m, Machine(list[k].start, s)) && RunsBlock(p, list[k].instructions, s, c)
    ensures 1 <= n <= 2 && Iterate(loop, st, n) == Some(st1) && Represents(st1, m, c)
  {
    if C.Last(list[k]).op.ECALL? {
      st1 := ThroughEcall(loop, env, p, list, k, st, m, s, c);
      n := 2;
    } else {
      st1 := ThroughPlain(loop, env, p, list, k, st, m, s, c);
      n := 1;
    }
  }

  /** The block the machine stands at. */
  lemma {:induction false} BlockAt(code: Stepper, p: Prog, list: seq<BasicBlock>, c: Machine) returns (k: nat)
    requires Section(p.insts, p.entry, p.bs) && list == C.BlockList(p.insts, p.bs) && C.Partition(list, p.insts, p.bs)
    requires CodeSteps(code, p) && Lands(p, c.pc) && code(c).Some?
    ensures Known(p, list, k) && list[k].start == c.pc == list[k].instructions[0].addr
  {
    assert StepsAt(code, p, c);
    var i :| 0 <= i < |list| && list[i].start == c.pc;
    k := i;
    assert C.IsBlock(list[k], p.bs);
  }

  /** The first steps of a run, over the whole block. */
  lemma {:induction false} WholeBlock(code: Stepper, p: Prog, list: seq<BasicBlock>, k: nat, c: Machine, c1: Machine)
    requires CodeSteps(code, p) && Section(p.insts, p.entry, p.bs) && Known(p, list, k)
             && c.pc == list[k].instructions[0].addr
    requires Iterate(code, c, |list[k].instructions|) == Some(c1)
    ensures RunsBlock(p, list[k].instructions, c.arch, c1) && Lands(p, c1.pc)
  {
    var insts := list[k].instructions;
    assert c == Machine(insts[0].addr, c.arch) && insts[0..] == insts;
    TailRuns(code, p, list, k, 0, c.arch, c1);
    BlockLands(p, list, k, c.arch, c1);
  }

  /** From one block start to the next, on both sides. */
  lemma {:induction false} Round(loop: Looper, env: Env, code: Stepper, p: Prog, list: seq<BasicBlock>, st: State,
                                 m: u32, c: Machine, n: nat)
    returns (st1: State, i: nat, c1: Machine, len: nat)
    requires CodeSteps(code, p) && Built(loop, env, p, list, m) && Represents(st, m, c) && Lands(p, c.pc) && n > 0
    requires Iterate(code, c, n).Some? && Lands(p, Iterate(code, c, n).value.pc)
    ensures 0 < len <= n && 1 <= i <= 2 && Lands(p, c1.pc) && Represents(st1, m, c1)
    ensures Iterate(loop, st, i) == Some(st1)
    ensures Iterate(code, c1, n - len) == Iterate(code, c, n)
  {
    var k := BlockAt(code, p, list, c);
    len := |list[k].instructions|;
    EnoughSteps(code, p, list, k, c, n);
    c1 := IterateTo(code, c, len, n);
    WholeBlock(code, p, list, k, c, c1);
    st1, i := ThroughBlock(loop, env, p, list, k, st, m, c.arch, c1);
  }

  /** A run that ends at a block start covers the block it starts in. */
  lemma {:induction false} EnoughSteps(code: Stepper, p: Prog, list: seq<BasicBlock>, k: nat, c: Machine, n: nat)
    requires CodeSteps(code, p) && Known(p, list, k) && c.pc == list[k].instructions[0].addr && n > 0
    requires Iterate(code, c, n).Some? && Lands(p, Iterate(code, c, n).value.pc)
    ensures |list[k].instructions| <= n
  {
    if n < |list[k].instructions| { InsideBlock(code, p, list, k, 0, n, c.arch); }
  }

  ghost function RepOf(m: u32): (State, Machine) -> bool { (st, c) => Represents(st, m, c) }

  ghost function RestOf(p: Prog): Machine -> bool { (c: Machine) => Lands(p, c.pc) }

  lemma {:induction false} RoundMatches(loop: Looper, env: Env, code: Stepper, p: Prog, list: seq<BasicBlock>,
                                        st: State, m: u32, c: Machine, n: nat)
    requires CodeSteps(code, p) && Built(loop, env, p, list, m)
    ensures Matches(loop, code, RepOf(m), RestOf(p), st, c, n)
  {
    if Represents(st, m, c) && n > 0 && Stops(code, RestOf(p), c, n) {
      var st1, i, c1, len := Round(loop, env, code, p, list, st, m, c, n);
      assert Matched(loop, code, RepOf(m), RestOf(p), st, c, n, st1, i, c1, len);
    }
  }

  /** A compiled program moves as its code does. Whenever the instructions with their emitted
      control transfers, started at a block, have run n steps and stand at a block or have left
      the section, the dispatch loop reaches the same pc, registers and RAM in at most 2n
      iterations. */
  lemma {:induction false} CodeCorrect(loop: Looper, env: Env, code: Stepper, p: Prog, list: seq<BasicBlock>,
                                       st: State, m: u32, c: Machine, n: nat)
    requires CodeSteps(code, p) && Built(loop, env, p, list, m) && Represents(st, m, c)
    requires Stops(code, RestOf(p), c, n)
    ensures Reaches(loop, RepOf(m), st, Iterate(code, c, n).value, 2 * n)
  {
    forall st, c, n ensures Matches(loop, code, RepOf(m), RestOf(p), st, c, n) {
      RoundMatches(loop, env, code, p, list, st, m, c, n);
    }
    SimulationRun(loop, code, RepOf(m), RestOf(p), st, c, n);
  }

  /** The code runs every RISC-V run whose instructions translate. */
  lemma {:induction false} CodeRuns(isa: Stepper, p: Prog, c: Machine, n: nat) returns (code: Stepper)
    requires IsaSteps(isa, p) && Section(p.insts, p.entry, p.bs) && Iterate(isa, c, n).Some?
    ensures CodeSteps(code, p) && Iterate(code, c, n) == Iterate(isa, c, n)
  {
    code := c => CodeStep(p, c);
    forall c ensures Extends(isa, code, c) {
      assert IsaAt(isa, p, c);
      if isa(c).Some? { IsaIsCode(p, c); }
    }
    IterateExtends(isa, code, c, n);
  }

  /** Whenever the RISC-V machine, started at a block, has run n instructions that translate and
      stands at a block or has left the section, the dispatch loop reaches the same pc,
      registers and RAM in at most 2n iterations. */
  lemma {:induction false} ProgramCorrect(loop: Looper, env: Env, isa: Stepper, p: Prog, list: seq<BasicBlock>,
                                          st: State, m: u32, c: Machine, n: nat)
    requires IsaSteps(isa, p) && Built(loop, env, p, list, m) && Represents(st, m, c) && Lands(p, c.pc)
    requires Iterate(isa, c, n).Some? && Lands(p, Iterate(isa, c, n).value.pc)
    ensures Reaches(loop, RepOf(m), st, Iterate(isa, c, n).value, 2 * n)
  {
    var code := CodeRuns(isa, p, c, n);
    CodeCorrect(loop, env, code, p, list, st, m, c, n);
  }

  // ---- a segment and its .text ----

  /** What compile made of the segment p and the section that is its slice from i to j. */
  ghost predicate BuiltWithText(loop: Looper, env: Env, p: Prog, i: nat, j: nat, list: seq<BasicBlock>, m: u32)
    requires i < j <= |p.insts|
  {
    && Section(p.insts, p.entry, p.bs) && InOrder(list, C.Index(C.BlockList(p.insts + p.insts[i..j], p.bs)))
    && |list| < TWO32 && Sorted(EntriesOf(list)) && WordPerBlock(EntriesOf(list))
    && Loops(loop, env, DispatchBody(EntriesOf(list))) && Compiled(list, env) && Serves(env, m, p)
  }

  /** It is what compile makes of the segment alone if the section keeps its blocks. */
  lemma {:induction false} TextBuilt(loop: Looper, env: Env, p: Prog, i: nat, j: nat, list: seq<BasicBlock>, m: u32)
    requires i < j <= |p.insts| && BuiltWithText(loop, env, p, i, j, list, m) && O.TextKeeps(p.insts, i, j, p.bs)
    ensures Built(loop, env, p, list, m)
  {
    SegmentWithText(p.insts, i, j, p.entry, p.bs, list);
    SectionBlocks(p.insts, p.entry, p.bs);
  }

  /** CodeCorrect for a segment and its `.text` section. */
  lemma {:induction false} CodeCorrectWithText(loop: Looper, env: Env, code: Stepper, p: Prog, i: nat, j: nat,
                                               list: seq<BasicBlock>, st: State, m: u32, c: Machine, n: nat)
    requires i < j <= |p.insts| && BuiltWithText(loop, env, p, i, j, list, m) && O.TextKeeps(p.insts, i, j, p.bs)
    requires CodeSteps(code, p) && Represents(st, m, c) && Stops(code, RestOf(p), c, n)
    ensures Reaches(loop, RepOf(m), st, Iterate(code, c, n).value, 2 * n)
  {
    TextBuilt(loop, env, p, i, j, list, m);
    CodeCorrect(loop, env, code, p, list, st, m, c, n);
  }

  /** ProgramCorrect for a segment and its `.text` section. */
  lemma {:induction false} ProgramCorrectWithText(loop: Looper, env: Env, isa: Stepper, p: Prog, i: nat, j: nat,
                                                  list: seq<BasicBlock>, st: State, m: u32, c: Machine, n: nat)
    requires i < j <= |p.insts| && BuiltWithText(loop, env, p, i, j, list, m) && O.TextKeeps(p.insts, i, j, p.bs)
    requires IsaSteps(isa, p) && Represents(st, m, c) && Lands(p, c.pc)
    requires Iterate(isa, c, n).Some? && Lands(p, Iterate(isa, c, n).value.pc)
    ensures Reaches(loop, RepOf(m), st, Iterate(isa, c, n).value, 2 * n)
  {
    TextBuilt(loop, env, p, i, j, list, m);
    ProgramCorrect(loop, env, isa, p, list, st, m, c, n);
  }
}
