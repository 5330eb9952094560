/** Two machines that execute a section one instruction at a time: one moves as the emitted
    code does, the other as RISC-V does. What they do over a whole block of the control flow
    graph, and where they agree. */
module Isa {
  import opened Words
  import opened Translate
  import opened TranslateProof
  import opened Terminators
  import opened Compile
  import opened Cfg
  import opened Runs
  import R = RiscV

  datatype Machine = Machine(pc: int, arch: R.Arch)

  /** A section and what the environment does with its system calls. */
  datatype Prog = Prog(insts: seq<Inst>, entry: int, bs: set<int>, handler: Machine -> Option<Machine>)

  /** The instruction at the pc. */
  function Fetch(insts: seq<Inst>, pc: int): (r: Option<Inst>)
    ensures r.Some? ==> r.value in insts && r.value.addr == pc
    ensures r.None? ==> forall i | i in insts :: i.addr != pc
  {
    if insts == [] then None else if insts[0].addr == pc then Some(insts[0]) else Fetch(insts[1..], pc)
  }

  /** Where the code of an instruction returns to after it had effect s. */
  function Emitted(i: Inst, s: R.Arch): Machine {
    Machine(ReturnValue(i, i.NextAddr(), s.x), s.(x := Linked(i, s.x)))
  }

  /** What the code of an instruction, or the environment, does; None is a fault. */
  ghost function Outcome(p: Prog, i: Inst, s: R.Arch): Option<Machine> {
    if i.op.ECALL? then p.handler(Machine(i.addr, s))
    else
      match R.Step(i, s)
      case None => None
      case Some(s1) => Some(Emitted(i, s1))
  }

  /** Control leaves for an address the section does not name. */
  predicate Indirect(i: Inst) {
    i.op.JALR? || i.op.C_JALR? || i.op.C_JR? || i.op.ECALL? || ((i.op.IsBranch() || i.op.IsJump()) && i.imm.None?)
  }

  ghost predicate StartsBlock(list: seq<BasicBlock>, pc: int) { exists k :: 0 <= k < |list| && list[k].start == pc }

  /** The start of a block, or outside the section. */
  ghost predicate Lands(p: Prog, pc: int) { Fetch(p.insts, pc).None? || StartsBlock(BlockList(p.insts, p.bs), pc) }

  /** Control may go where the section's boundaries do not lead: an indirect transfer, or a
      branch or jump that goes neither to its target nor on. */
  predicate Strays(i: Inst, pc: int) { Indirect(i) || (Direct(i) && pc != i.Target() && pc != i.NextAddr()) }

  /** The dispatch loop can go on: no breakpoint, an unflagged pc, and control that strays goes
      to the start of a block or leaves the section. */
  ghost predicate Leaves(p: Prog, i: Inst, pc: int) {
    !i.op.EBREAK? && !i.op.C_EBREAK? && 0 <= pc < TWO31 && (Strays(i, pc) ==> Lands(p, pc))
  }

  /** The instruction has faithful code after which the loop can go on. */
  ghost predicate Translates(p: Prog, i: Inst, s: R.Arch, pc: int) {
    Faithful(i, s.x) && R.Step(i, s).Some? && Leaves(p, i, pc)
  }

  /** One instruction, with the control transfer of its code. */
  ghost function CodeStep(p: Prog, c: Machine): Option<Machine> {
    match Fetch(p.insts, c.pc)
    case None => None
    case Some(i) =>
      var next := Outcome(p, i, c.arch);
      if next.Some? && Translates(p, i, c.arch, next.value.pc) then next else None
  }

  /** A machine as a step function. */
  type Stepper = Machine -> Option<Machine>

  ghost predicate StepsAt(step: Stepper, p: Prog, c: Machine) { step(c) == CodeStep(p, c) }

  ghost predicate CodeSteps(step: Stepper, p: Prog) { forall c {:trigger StepsAt(step, p, c)} :: StepsAt(step, p, c) }

  // ---- over a block ----

  lemma {:induction false} FetchAt(insts: seq<Inst>, j: nat)
    requires Contiguous(insts) && j < |insts|
    ensures Fetch(insts, insts[j].addr) == Some(insts[j])
  {
    var i := Fetch(insts, insts[j].addr).value;
    var k :| 0 <= k < |insts| && insts[k] == i;
    if k < j { Rising(insts, k, j); } else { Rising(insts, j, k); }
  }

  /** What is known of block b, the k-th of the list, of a section. */
  ghost predicate Known(p: Prog, list: seq<BasicBlock>, k: nat) {
    && Contiguous(p.insts) && EndOf(p.insts, 0) < TWO31 && list == BlockList(p.insts, p.bs)
    && Partition(list, p.insts, p.bs) && k < |list| && IsBlock(list[k], p.bs)
  }

  lemma {:induction false} FetchInFlat(insts: seq<Inst>, list: seq<BasicBlock>, k: nat, j: nat)
    requires Contiguous(insts) && Flat(list) == insts && k < |list| && j < |list[k].instructions|
    ensures var i := list[k].instructions[j];
            Fetch(insts, i.addr) == Some(i) && i in insts && i.NextAddr() <= EndOf(insts, 0)
  {
    var t := InStream(list, k, j);
    FetchAt(insts, t);
    Rising(insts, t, |insts| - 1);
  }

  lemma {:induction false} FetchInBlock(p: Prog, list: seq<BasicBlock>, k: nat, j: nat)
    requires Known(p, list, k) && j < |list[k].instructions|
    ensures var i := list[k].instructions[j];
            Fetch(p.insts, i.addr) == Some(i) && i in p.insts && i.NextAddr() < TWO31
  {
    FetchInFlat(p.insts, list, k, j);
  }

  /** These instructions, the last of a block, run and leave the block. */
  ghost predicate RunsBlock(p: Prog, code: seq<Inst>, s: R.Arch, c: Machine) {
    && code != [] && FaithfulRun(code, s) && R.Run(code, s).Some?
    && var last, s1 := code[|code| - 1], R.Run(code, s).value;
       && Leaves(p, last, c.pc)
       && Some(c) == if last.op.ECALL? then p.handler(Machine(last.addr, s1)) else Some(Emitted(last, s1))
  }

  lemma {:induction false} EcallStep(i: Inst, s: R.Arch)
    requires i.op.ECALL?
    ensures R.Step(i, s) == Some(s)
  {
    NoneForm(i, s);
  }

  lemma {:induction false} LastRuns(p: Prog, i: Inst, s: R.Arch, c: Machine)
    requires Outcome(p, i, s) == Some(c) && Translates(p, i, s, c.pc)
    ensures RunsBlock(p, [i], s, c)
  {
    var s1 := R.Step(i, s).value;
    if i.op.ECALL? { EcallStep(i, s); }
    EmptyRun(s1);
    ConsRun(i, [], s, s1);
    assert [i] + [] == [i];
  }

  lemma {:induction false} EmptyRun(s: R.Arch)
    ensures FaithfulRun([], s) && R.Run([], s) == Some(s)
  {
  }

  lemma {:induction false} ConsRun(i: Inst, rest: seq<Inst>, s: R.Arch, s1: R.Arch)
    requires R.Step(i, s) == Some(s1) && Faithful(i, s.x) && FaithfulRun(rest, s1)
    ensures FaithfulRun([i] + rest, s) && R.Run([i] + rest, s) == R.Run(rest, s1)
  {
    var code := [i] + rest;
    assert code[0] == i && code[1..] == rest;
  }

  lemma {:induction false} MoreRuns(p: Prog, i: Inst, rest: seq<Inst>, s: R.Arch, s1: R.Arch, c: Machine)
    requires R.Step(i, s) == Some(s1) && Faithful(i, s.x) && RunsBlock(p, rest, s1, c)
    ensures RunsBlock(p, [i] + rest, s, c)
  {
    ConsRun(i, rest, s, s1);
  }

  lemma {:induction false} PlainNext(i: Inst, s: R.Arch)
    requires !i.op.IsTerminator() && !i.op.C_EBREAK? && i.NextAddr() < TWO31
    ensures Emitted(i, s) == Machine(i.NextAddr(), s)
  {
    WrapSmall(i.NextAddr());
  }

  /** A step inside a block goes to the next instruction. */
  lemma {:induction false} InnerStep(step: Stepper, p: Prog, list: seq<BasicBlock>, k: nat, j: nat, s: R.Arch)
    requires CodeSteps(step, p) && Known(p, list, k) && j + 1 < |list[k].instructions|
    requires step(Machine(list[k].instructions[j].addr, s)).Some?
    ensures var i := list[k].instructions[j];
            && Faithful(i, s.x) && R.Step(i, s).Some?
            && step(Machine(i.addr, s)) == Some(Machine(list[k].instructions[j + 1].addr, R.Step(i, s).value))
  {
    var i := list[k].instructions[j];
    assert StepsAt(step, p, Machine(i.addr, s));
    FetchInBlock(p, list, k, j);
    PlainNext(i, R.Step(i, s).value);
  }

  lemma {:induction false} LastStep(step: Stepper, p: Prog, list: seq<BasicBlock>, k: nat, s: R.Arch, c: Machine)
    requires CodeSteps(step, p) && Known(p, list, k) && step(Machine(Last(list[k]).addr, s)) == Some(c)
    ensures RunsBlock(p, [Last(list[k])], s, c)
  {
    assert StepsAt(step, p, Machine(Last(list[k]).addr, s));
    FetchInBlock(p, list, k, |list[k].instructions| - 1);
    LastRuns(p, Last(list[k]), s, c);
  }

  lemma {:induction false} TailMore(p: Prog, code: seq<Inst>, j: nat, s: R.Arch, c: Machine)
    requires j + 1 < |code| && Faithful(code[j], s.x) && R.Step(code[j], s).Some?
    requires RunsBlock(p, code[j + 1..], R.Step(code[j], s).value, c)
    ensures RunsBlock(p, code[j..], s, c)
  {
    MoreRuns(p, code[j], code[j + 1..], s, R.Step(code[j], s).value, c);
    assert code[j..] == [code[j]] + code[j + 1..];
  }

  /** As many steps as a block has instructions left run the rest of it. */
  lemma {:induction false} TailRuns(step: Stepper, p: Prog, list: seq<BasicBlock>, k: nat, j: nat, s: R.Arch,
                                    c: Machine)
    requires CodeSteps(step, p) && Known(p, list, k) && j < |list[k].instructions|
    requires Iterate(step, Machine(list[k].instructions[j].addr, s), |list[k].instructions| - j) == Some(c)
    ensures RunsBlock(p, list[k].instructions[j..], s, c)
    decreases |list[k].instructions| - j
  {
    var code := list[k].instructions;
    if j == |code| - 1 {
      LastStep(step, p, list, k, s, c);
      assert code[j..] == [Last(list[k])];
    } else {
      InnerStep(step, p, list, k, j, s);
      TailRuns(step, p, list, k, j + 1, R.Step(code[j], s).value, c);
      TailMore(p, code, j, s, c);
    }
  }

  /** Fewer steps end at an instruction that starts no block. */
  lemma {:induction false} InsideBlock(step: Stepper, p: Prog, list: seq<BasicBlock>, k: nat, j: nat, n: nat, s: R.Arch)
    requires CodeSteps(step, p) && Known(p, list, k) && 0 < n && j + n < |list[k].instructions|
    requires Iterate(step, Machine(list[k].instructions[j].addr, s), n).Some?
    ensures !Lands(p, Iterate(step, Machine(list[k].instructions[j].addr, s), n).value.pc)
    decreases n
  {
    var code := list[k].instructions;
    InnerStep(step, p, list, k, j, s);
    var c1 := Machine(code[j + 1].addr, R.Step(code[j], s).value);
    assert Iterate(step, Machine(code[j].addr, s), n) == Iterate(step, c1, n - 1);
    if n > 1 {
      InsideBlock(step, p, list, k, j + 1, n - 1, c1.arch);
    } else {
      FetchInBlock(p, list, k, j + 1);
      NoStartInside(p, list, k, j + 1);
      assert Iterate(step, c1, 0) == Some(c1);
    }
  }

  lemma {:induction false} NoStartInside(p: Prog, list: seq<BasicBlock>, k: nat, j: nat)
    requires Known(p, list, k) && 0 < j < |list[k].instructions|
    ensures !StartsBlock(list, list[k].instructions[j].addr)
  {
    forall n | 0 <= n < |list| ensures list[n].start != list[k].instructions[j].addr {
      assert IsBlock(list[n], p.bs);
    }
  }

  // ---- where a block leads ----

  /** A direct target: by the boundaries, it starts a block if it is in the section. */
  lemma {:induction false} TargetLands(p: Prog, list: seq<BasicBlock>, i: Inst)
    requires Section(p.insts, p.entry, p.bs) && list == BlockList(p.insts, p.bs) && i in p.insts && Direct(i)
    ensures Lands(p, i.Target())
  {
    if Fetch(p.insts, i.Target()).Some? {
      TargetStarts(p.insts, p.entry, p.bs, i, Fetch(p.insts, i.Target()).value);
    }
  }

  lemma {:induction false} TargetStarts(insts: seq<Inst>, entry: int, bs: set<int>, i: Inst, t: Inst)
    requires BoundarySet(bs, insts, entry) && i in insts && t in insts && Direct(i) && i.Target() == t.addr
    ensures StartsBlock(BlockList(insts, bs), t.addr)
  {
    var n :| 0 <= n < |insts| && insts[n] == i;
    var j :| 0 <= j < |insts| && insts[j] == t;
    TargetsStartBlocks(insts, entry, bs, n, j);
  }

  lemma {:induction false} EndLands(p: Prog, list: seq<BasicBlock>, k: nat)
    requires Known(p, list, k)
    ensures Lands(p, list[k].end)
  {
    if k + 1 < |list| {
      assert list[k + 1].start == list[k].end;
    } else {
      NothingAtEnd(p, list);
    }
  }

  lemma {:induction false} NothingAtEnd(p: Prog, list: seq<BasicBlock>)
    requires list != [] && Known(p, list, |list| - 1)
    ensures Fetch(p.insts, list[|list| - 1].end) == None
  {
    PastEnd(p.insts);
    var t := InStream(list, |list| - 1, |list[|list| - 1].instructions| - 1);
  }

  lemma {:induction false} PastEnd(insts: seq<Inst>)
    requires Contiguous(insts)
    ensures Fetch(insts, EndOf(insts, 0)) == None
  {
    forall i | i in insts ensures i.addr != EndOf(insts, 0) {
      var j :| 0 <= j < |insts| && insts[j] == i;
      Rising(insts, j, |insts| - 1);
    }
  }

  /** After a block, control is at the start of a block or outside the section. */
  lemma {:induction false} BlockLands(p: Prog, list: seq<BasicBlock>, k: nat, s: R.Arch, c: Machine)
    requires Section(p.insts, p.entry, p.bs) && Known(p, list, k) && RunsBlock(p, list[k].instructions, s, c)
    ensures Lands(p, c.pc)
  {
    var i := Last(list[k]);
    FetchInBlock(p, list, k, |list[k].instructions| - 1);
    if !Strays(i, c.pc) {
      if !Direct(i) { PlainNext(i, R.Run(list[k].instructions, s).value); }
      if c.pc == i.NextAddr() { EndLands(p, list, k); } else { TargetLands(p, list, i); }
    }
  }

  // ---- RISC-V ----

  function Transferred(i: Inst, s: R.Arch): Machine {
    Machine(R.Transfer(i, s.x).0, s.(x := R.Transfer(i, s.x).1))
  }

  ghost function IsaOutcome(p: Prog, i: Inst, s: R.Arch): Option<Machine> {
    if i.op.ECALL? then p.handler(Machine(i.addr, s))
    else
      match R.Step(i, s)
      case None => None
      case Some(s1) => Some(Transferred(i, s1))
  }

  /** The instruction translates: faithful code, no breakpoint, RISC-V's next pc, and an
      indirect target that starts a block or leaves the section. */
  ghost predicate IsaTranslates(p: Prog, i: Inst, s: R.Arch, pc: int) {
    && Faithful(i, s.x) && R.Step(i, s).Some? && !i.op.EBREAK? && !i.op.C_EBREAK?
    && (!i.op.ECALL? ==> NextPcCondition(i, R.Step(i, s).value.x))
    && 0 <= pc < TWO31 && (Indirect(i) ==> Lands(p, pc))
  }

  /** One RISC-V instruction that translates. */
  ghost function IsaStep(p: Prog, c: Machine): Option<Machine> {
    match Fetch(p.insts, c.pc)
    case None => None
    case Some(i) =>
      var next := IsaOutcome(p, i, c.arch);
      if next.Some? && IsaTranslates(p, i, c.arch, next.value.pc) then next else None
  }

  ghost predicate IsaAt(step: Stepper, p: Prog, c: Machine) { step(c) == IsaStep(p, c) }

  ghost predicate IsaSteps(step: Stepper, p: Prog) { forall c {:trigger IsaAt(step, p, c)} :: IsaAt(step, p, c) }

  lemma {:induction false} DirectNext(i: Inst, x: R.Regs)
    requires !Indirect(i) && i.NextAddr() < TWO31
    ensures !Strays(i, R.Transfer(i, x).0)
  {
  }

  lemma {:induction false} FetchedBelow(insts: seq<Inst>, i: Inst)
    requires Contiguous(insts) && i in insts
    ensures i.NextAddr() <= EndOf(insts, 0)
  {
    var j :| 0 <= j < |insts| && insts[j] == i;
    Rising(insts, j, |insts| - 1);
  }

  /** Where RISC-V's next pc is returned, the emitted code goes there. */
  lemma {:induction false} SameMove(i: Inst, s: R.Arch)
    requires !i.op.ECALL? && !i.op.EBREAK? && !i.op.C_EBREAK? && NextPcCondition(i, s.x)
    requires R.Transfer(i, s.x).0 < TWO31
    ensures Emitted(i, s) == Transferred(i, s)
  {
    NextPcExact(i, s.x);
    WrapSmall(R.Transfer(i, s.x).0);
  }

  /** A RISC-V instruction that translates is one step of the emitted code. */
  lemma {:induction false} IsaIsCode(p: Prog, c: Machine)
    requires Contiguous(p.insts) && EndOf(p.insts, 0) < TWO31 && IsaStep(p, c).Some?
    ensures CodeStep(p, c) == IsaStep(p, c)
  {
    var i := Fetch(p.insts, c.pc).value;
    var s1 := R.Step(i, c.arch).value;
    FetchedBelow(p.insts, i);
    if !i.op.ECALL? { SameMove(i, s1); }
    if !Indirect(i) { DirectNext(i, s1.x); }
  }

  /** The emitted code of a conditional branch between addresses other than 0 modulo 2^32 goes
      to address 0 or 1, whatever its target is. */
  lemma {:induction false} BranchGoesLow(i: Inst, s: R.Arch)
    requires i.op.IsBranch() && Wrap32(i.Target()) != 0 && Wrap32(i.NextAddr()) != 0
    ensures var taken := R.Taken(i.op, s.x[i.Rs1()], s.x[i.Rs2()]);
            Emitted(i, s) == Machine(if taken == !i.op.C_BNEZ? then 1 else 0, s)
  {
  }
}
