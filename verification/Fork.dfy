/** Fork by snapshot and rollback. */
module Fork {
  import opened Words
  import opened Ram
  import opened Sched

  /** A saved range; empty data means nothing saved. */
  datatype Region = Region(addr: int, data: seq<byte>)

  predicate Covers(r: Region, a: int) { r.addr <= a < r.addr + |r.data| }

  /** Where the writable parts of the process are. */
  datatype Layout = Layout(
    rwStart: u64, rwEnd: u64, interpStart: u64, interpEnd: u64, stackTop: u64, heapStart: u64, heapSize: u64)

  datatype Fork = Fork(
    inChild: bool, parent: Context, childPid: int, exitStatus: int, reaped: bool,
    exec: Region, interp: Region, stack: Region, mmap: Region, fds: set<int>)

  datatype Process = Process(cpu: Context, ram: Ram, fds: set<int>, layout: Layout, frontier: nat, nextPid: int,
                             fork: Fork)

  const SP := 2
  const ECHILD := -10

  function Save(old0: Region, when: bool, ram: Ram, start: nat, end: nat): Region
    requires when ==> start <= end
  {
    if when then Region(start, CopyOut(ram, start, end - start)) else old0
  }

  /** The end of data and break area, and the start of the guest's mappings. */
  function DataEnd(l: Layout): u64 { Max(l.heapStart, l.rwEnd) }

  function MmapStart(l: Layout): u64 { Wrap64(l.heapStart + l.heapSize) }

  /** Which of the optional regions a fork saves. */
  predicate SavesData(l: Layout) { l.rwStart > 0 && DataEnd(l) > l.rwStart }

  predicate SavesInterp(l: Layout) { l.interpStart > 0 && l.interpEnd > l.interpStart }

  predicate SavesMappings(l: Layout, frontier: nat) { l.heapStart > 0 && l.heapSize > 0 && frontier > MmapStart(l) }

  /** A stack pointer above the saved stack top makes the size wrap, and resizing the stack
      snapshot throws. */
  predicate ForkThrows(p: Process) { !p.fork.inChild && p.cpu.regs[SP] > p.layout.stackTop }

  /** The record up to the stack: registers, pid, data and interpreter snapshots. */
  function FirstSaves(p: Process): Fork {
    var l, f := p.layout, p.fork;
    f.(parent := p.cpu, childPid := p.nextPid, exitStatus := 0,
       exec := Save(f.exec, SavesData(l), p.ram, l.rwStart, DataEnd(l)),
       interp := Save(f.interp, SavesInterp(l), p.ram, l.interpStart, l.interpEnd))
  }

  /** The fork form of sys_clone. A fork that throws stays in the parent with what it saved. */
  function CloneFork(p: Process): Process {
    var l, f, sp := p.layout, FirstSaves(p), p.cpu.regs[SP];
    if p.fork.inChild then p.(cpu := p.cpu.Result(EAGAIN))
    else if sp > l.stackTop then p.(nextPid := p.nextPid + 1, fork := f.(stack := f.stack.(addr := sp)))
    else
      p.(cpu := p.cpu.Result(0), nextPid := p.nextPid + 1,
         fork := f.(stack := Save(f.stack, true, p.ram, sp, l.stackTop),
                    mmap := Save(f.mmap, SavesMappings(l, p.frontier), p.ram, MmapStart(l), p.frontier),
                    fds := p.fds, inChild := true, reaped := false))
  }

  function Restore(ram: Ram, r: Region): Ram { if r.data != [] then CopyIn(ram, r.addr, r.data) else ram }

  function Cleared(r: Region): Region { r.(data := []) }

  /** The fork branch of sys_exit. */
  function ExitChild(p: Process): Process {
    var f := p.fork;
    p.(ram := Restore(Restore(Restore(Restore(p.ram, f.exec), f.interp), f.stack), f.mmap),
       fds := p.fds * f.fds,
       cpu := Context(f.parent.regs[0 := p.cpu.regs[0]], f.parent.pc).Result(f.childPid),
       fork := f.(inChild := false, exitStatus := Signed32(Wrap32(p.cpu.regs[A0])),
                  exec := Cleared(f.exec), interp := Cleared(f.interp), stack := Cleared(f.stack),
                  mmap := Cleared(f.mmap), fds := {}))
  }

  /** sys_wait4; the status word is stored by bytes. */
  function Wait4(p: Process): Process {
    if p.fork.reaped || p.fork.childPid == 0 then p.(cpu := p.cpu.Result(ECHILD))
    else
      var a := p.cpu.regs[A0 + 1];
      p.(ram := if a != 0 then CopyIn(p.ram, a, [0, p.fork.exitStatus % 256, 0, 0]) else p.ram,
         fork := p.fork.(reaped := true), cpu := p.cpu.Result(p.fork.childPid))
  }

  /** The process as the handlers update it. */
  class Host {
    var cpu: Context
    var ram: Ram
    var fds: set<int>
    var layout: Layout
    var frontier: nat
    var nextPid: int
    var fork: Fork

    function View(): Process
      reads this
    {
      Process(cpu, ram, fds, layout, frontier, nextPid, fork)
    }

    /** The fork form of sys_clone, region by region. */
    method Clone()
      modifies this
      ensures View() == CloneFork(old(View()))
    {
      if fork.inChild {
        cpu := cpu.Result(EAGAIN);
        return;
      }
      fork := fork.(parent := cpu, childPid := nextPid, exitStatus := 0);
      nextPid := nextPid + 1;
      var l, sp := layout, cpu.regs[SP];
      fork := fork.(exec := Save(fork.exec, SavesData(l), ram, l.rwStart, DataEnd(l)));
      fork := fork.(interp := Save(fork.interp, SavesInterp(l), ram, l.interpStart, l.interpEnd));
      if sp > l.stackTop {
        fork := fork.(stack := fork.stack.(addr := sp));
        return;
      }
      fork := fork.(stack := Save(fork.stack, true, ram, sp, l.stackTop));
      fork := fork.(mmap := Save(fork.mmap, SavesMappings(l, frontier), ram, MmapStart(l), frontier));
      fork := fork.(fds := fds, inChild := true, reaped := false);
      cpu := cpu.Result(0);
    }

    /** Closes what the parent did not have open. */
    method CloseChildFds()
      modifies `fds
      ensures fds == old(fds) * fork.fds
    {
      var todo := fds;
      while todo != {}
        invariant todo <= old(fds) && fds == todo + (old(fds) - todo) * fork.fds
      {
        assert exists a :: a in todo by { Inhabited(todo); }
        var fd :| fd in todo;
        todo := todo - {fd};
        if fd !in fork.fds { fds := fds - {fd}; }
      }
    }

    /** The fork branch of sys_exit. */
    method Exit()
      requires fork.inChild
      modifies this
      ensures View() == ExitChild(old(View()))
    {
      fork := fork.(exitStatus := Signed32(Wrap32(cpu.regs[A0])), inChild := false);
      ram := Restore(ram, fork.exec);
      ram := Restore(ram, fork.interp);
      ram := Restore(ram, fork.stack);
      ram := Restore(ram, fork.mmap);
      fork := fork.(exec := Cleared(fork.exec), interp := Cleared(fork.interp), stack := Cleared(fork.stack),
                    mmap := Cleared(fork.mmap));
      CloseChildFds();
      fork := fork.(fds := {});
      var regs: seq<u64> := cpu.regs;
      for i := 1 to 32
        invariant |regs| == 32 && regs[0] == cpu.regs[0] && forall k | 1 <= k < i :: regs[k] == fork.parent.regs[k]
      {
        regs := regs[i := fork.parent.regs[i]];
      }
      assert regs == fork.parent.regs[0 := cpu.regs[0]];
      cpu := Context(regs, fork.parent.pc).Result(fork.childPid);
    }

    /** sys_wait4. */
    method Wait()
      modifies this
      ensures View() == Wait4(old(View()))
    {
      if fork.reaped || fork.childPid == 0 {
        cpu := cpu.Result(ECHILD);
        return;
      }
      var addr := cpu.regs[A0 + 1];
      if addr != 0 { ram := CopyIn(ram, addr, [0, fork.exitStatus % 256, 0, 0]); }
      fork := fork.(reaped := true);
      cpu := cpu.Result(fork.childPid);
    }
  }

  // ---- what a fork gives back ----

  /** Nothing is saved outside a fork. */
  ghost predicate NothingSaved(f: Fork) {
    f.exec.data == [] && f.interp.data == [] && f.stack.data == [] && f.mmap.data == []
  }

  /** Every saved byte is the byte of this memory. */
  ghost predicate SnapshotOf(r: Region, ram: Ram) {
    forall a | Covers(r, a) :: r.data[a - r.addr] == ByteAt(ram, a)
  }

  lemma {:induction false} RestoreBytes(ram: Ram, r: Region, a: int)
    ensures ByteAt(Restore(ram, r), a) == if Covers(r, a) then r.data[a - r.addr] else ByteAt(ram, a)
  {
  }

  /** Memory saved by a fork. */
  ghost predicate Saved(f: Fork, a: int) {
    Covers(f.exec, a) || Covers(f.interp, a) || Covers(f.stack, a) || Covers(f.mmap, a)
  }

  lemma {:induction false} RestoreFour(ram: Ram, f: Fork, was: Ram, a: int)
    requires SnapshotOf(f.exec, was) && SnapshotOf(f.interp, was) && SnapshotOf(f.stack, was) && SnapshotOf(f.mmap, was)
    ensures ByteAt(Restore(Restore(Restore(Restore(ram, f.exec), f.interp), f.stack), f.mmap), a)
         == ByteAt(if Saved(f, a) then was else ram, a)
  {
    var r1 := Restore(ram, f.exec);
    var r2 := Restore(r1, f.interp);
    var r3 := Restore(r2, f.stack);
    RestoreBytes(ram, f.exec, a);
    RestoreBytes(r1, f.interp, a);
    RestoreBytes(r2, f.stack, a);
    RestoreBytes(r3, f.mmap, a);
  }

  // ---- the child's run ----

  /** Guest execution is any change of registers, memory, descriptors, layout and mappings. */
  datatype Event =
    | Guest(cpu: Context, ram: Ram, fds: set<int>, layout: Layout, frontier: nat)
    | CallFork
    | CallWait
    | CallExit

  function Step(p: Process, e: Event): Process {
    match e
    case Guest(cpu, ram, fds, layout, frontier) =>
      p.(cpu := cpu, ram := ram, fds := fds, layout := layout, frontier := frontier)
    case CallFork => CloneFork(p)
    case CallWait => Wait4(p)
    case CallExit => if p.fork.inChild then ExitChild(p) else p
  }

  function Run(p: Process, es: seq<Event>): Process
    decreases |es|
  {
    if es == [] then p else Run(Step(p, es[0]), es[1..])
  }

  /** The child of fork record f: all but the reaped mark is as the fork left it. */
  ghost predicate ChildOf(f: Fork, q: Process) { f.inChild && q.fork == f.(reaped := q.fork.reaped) }

  lemma {:induction false} ChildRun(f: Fork, q: Process, es: seq<Event>)
    requires ChildOf(f, q) && Event.CallExit !in es
    ensures ChildOf(f, Run(q, es))
    decreases |es|
  {
    if es != [] { ChildRun(f, Step(q, es[0]), es[1..]); }
  }

  /** Equal but for the result register. */
  predicate SameButResult(p: Process, q: Process) {
    && q == p.(cpu := q.cpu) && q.cpu.pc == p.cpu.pc
    && forall i | 0 <= i < 32 && i != A0 :: q.cpu.regs[i] == p.cpu.regs[i]
  }

  function WithoutForks(es: seq<Event>): seq<Event> {
    if es == [] then [] else (if es[0].CallFork? then [] else [es[0]]) + WithoutForks(es[1..])
  }

  /** Forks in a child change nothing but results: its run is the one without them, up to the
      result register. */
  lemma {:induction false} NestedForksInvisible(f: Fork, p: Process, q: Process, es: seq<Event>)
    requires ChildOf(f, p) && SameButResult(p, q) && Event.CallExit !in es
    ensures SameButResult(Run(p, es), Run(q, WithoutForks(es)))
    decreases |es|
  {
    if es != [] {
      var rest := es[1..];
      if es[0].CallFork? {
        assert WithoutForks(es) == WithoutForks(rest);
        NestedForksInvisible(f, Step(p, es[0]), q, rest);
      } else {
        assert WithoutForks(es)[0] == es[0] && WithoutForks(es)[1..] == WithoutForks(rest);
        NestedForksInvisible(f, Step(p, es[0]), Step(q, es[0]), rest);
      }
    }
  }

  /** No region this fork leaves alone holds an earlier snapshot. */
  ghost predicate Fresh(p: Process) {
    && (p.fork.exec.data == [] || SavesData(p.layout)) && (p.fork.interp.data == [] || SavesInterp(p.layout))
    && (p.fork.mmap.data == [] || SavesMappings(p.layout, p.frontier))
  }

  lemma {:induction false} CloneSnapshots(p: Process)
    requires !p.fork.inChild && !ForkThrows(p) && Fresh(p)
    ensures var f := CloneFork(p).fork;
            SnapshotOf(f.exec, p.ram) && SnapshotOf(f.interp, p.ram) && SnapshotOf(f.stack, p.ram)
            && SnapshotOf(f.mmap, p.ram)
  {
  }

  /** After any run of the child and its exit, the parent has its registers and pc, with the
      child's pid as result; the saved memory as it was at the fork, overlaps included; and
      no file descriptor it did not have. Nothing stays saved. */
  lemma {:induction false} ParentRestored(p: Process, es: seq<Event>)
    requires !p.fork.inChild && !ForkThrows(p) && Fresh(p) && Event.CallExit !in es
    ensures var f, q := CloneFork(p).fork, Run(CloneFork(p), es);
            var r := Step(q, Event.CallExit);
            && r.cpu.pc == p.cpu.pc && r.cpu.regs[10] == Wrap64(p.nextPid) && r.cpu.regs[0] == q.cpu.regs[0]
            && (forall i | 1 <= i < 32 && i != 10 :: r.cpu.regs[i] == p.cpu.regs[i])
            && (forall a :: ByteAt(r.ram, a) == ByteAt(if Saved(f, a) then p.ram else q.ram, a))
            && r.fds == q.fds * p.fds && !r.fork.inChild && NothingSaved(r.fork)
  {
    var f, q := CloneFork(p).fork, Run(CloneFork(p), es);
    ChildRun(f, CloneFork(p), es);
    CloneSnapshots(p);
    forall a ensures ByteAt(ExitChild(q).ram, a) == ByteAt(if Saved(f, a) then p.ram else q.ram, a) {
      RestoreFour(q.ram, q.fork, p.ram, a);
    }
  }

  /** Which memory is saved: data and break area, interpreter data, stack and mappings. */
  lemma {:induction false} SavedExactly(p: Process, a: int)
    requires !p.fork.inChild && !ForkThrows(p) && Fresh(p)
    ensures var l := p.layout;
            Saved(CloneFork(p).fork, a)
            <==> || (l.rwStart > 0 && l.rwStart <= a < Max(l.heapStart, l.rwEnd))
                 || (l.interpStart > 0 && l.interpStart <= a < l.interpEnd)
                 || p.cpu.regs[2] <= a < l.stackTop
                 || (l.heapStart > 0 && l.heapSize > 0 && Wrap64(l.heapStart + l.heapSize) <= a < p.frontier)
  {
  }

  // ---- whole process runs ----

  /** Outside a child nothing is saved. */
  ghost predicate Inv(p: Process) { !p.fork.inChild ==> NothingSaved(p.fork) }

  /** No fork of the run throws. */
  predicate NoneThrows(p: Process, es: seq<Event>)
    decreases |es|
  {
    es != [] ==> !(es[0].CallFork? && ForkThrows(p)) && NoneThrows(Step(p, es[0]), es[1..])
  }

  /** In every state a process reaches without a fork that throws, a fork finds no snapshot
      left over from an earlier one. */
  lemma {:induction false} NothingLeftOver(p: Process, es: seq<Event>)
    requires Inv(p) && NoneThrows(p, es)
    ensures Inv(Run(p, es))
    decreases |es|
  {
    if es != [] { NothingLeftOver(Step(p, es[0]), es[1..]); }
  }

  /** A fork leaves a snapshot behind if and only if it throws after saving one. */
  lemma {:induction false} LeftOverExact(p: Process)
    requires !p.fork.inChild && NothingSaved(p.fork)
    ensures Inv(CloneFork(p)) <==> !ForkThrows(p) || (!SavesData(p.layout) && !SavesInterp(p.layout))
  {
    if SavesData(p.layout) { assert |FirstSaves(p).exec.data| > 0; }
    if SavesInterp(p.layout) { assert |FirstSaves(p).interp.data| > 0; }
  }

  /** A thread on a mapped stack at 0x20000000, above the stack top 0x1900000, leaves the data
      snapshot of its fork behind. */
  lemma {:induction false} ThreadForkLeavesSnapshot(p: Process)
    requires !p.fork.inChild && NothingSaved(p.fork) && p.cpu.regs[SP] == 0x2000_0000
    requires p.layout.stackTop == 0x190_0000 && p.layout.rwStart == 0x8_0000 && p.layout.rwEnd == 0x9_0000
    ensures ForkThrows(p) && !Inv(CloneFork(p)) && !CloneFork(p).fork.inChild
  {
    LeftOverExact(p);
  }

  /** A child that exits is reaped once: the first wait gives its pid and status, every later
      one ECHILD, until the next fork. */
  lemma {:induction false} ReapedOnce(p: Process, n: nat)
    requires !p.fork.inChild && !p.fork.reaped && p.fork.childPid != 0
    ensures Wait4(p).cpu.regs[A0] == Wrap64(p.fork.childPid) && Wait4(p).fork.reaped
    ensures p.cpu.regs[A0 + 1] != 0 ==> StatusAt(Wait4(p).ram, p.cpu.regs[A0 + 1]) == p.fork.exitStatus % 256 * 256
    ensures Waits(Wait4(p), n + 1).cpu.regs[A0] == Wrap64(ECHILD)
  {
    WaitsFail(Wait4(p), n + 1);
    StatusWord(p.ram, p.cpu.regs[A0 + 1], p.fork.exitStatus % 256);
  }

  /** Events of the guest alone. */
  ghost predicate Quiet(es: seq<Event>) { forall k | 0 <= k < |es| :: es[k].Guest? }

  lemma {:induction false} QuietKeeps(p: Process, es: seq<Event>)
    requires Quiet(es)
    ensures Run(p, es).fork == p.fork && Run(p, es).nextPid == p.nextPid
    decreases |es|
  {
    if es != [] { QuietKeeps(Step(p, es[0]), es[1..]); }
  }

  /** A child that waits reaps itself. */
  lemma {:induction false} ChildReaps(f: Fork, q: Process, es: seq<Event>)
    requires ChildOf(f, q) && Event.CallExit !in es && f.childPid != 0
    ensures Run(q, es).fork.reaped <==> q.fork.reaped || Event.CallWait in es
    decreases |es|
  {
    if es != [] {
      ChildReaps(f, Step(q, es[0]), es[1..]);
      assert es == [es[0]] + es[1..];
    }
  }

  /** A guest step is any change that leaves the fork record and the pids alone. */
  lemma {:induction false} GuestIsAny(p: Process, q: Process)
    requires q.fork == p.fork && q.nextPid == p.nextPid
    ensures Step(p, Event.Guest(q.cpu, q.ram, q.fds, q.layout, q.frontier)) == q
  {
  }

  /** A child that waits gets its own pid and status 0. */
  lemma {:induction false} ChildWaits(p: Process, es: seq<Event>)
    requires !p.fork.inChild && !ForkThrows(p) && Quiet(es) && p.nextPid != 0
    ensures var q := Run(CloneFork(p), es);
            var w := Step(q, Event.CallWait);
            w.cpu.regs[10] == Wrap64(p.nextPid)
            && (q.cpu.regs[11] != 0 ==> StatusAt(w.ram, q.cpu.regs[11]) == 0)
  {
    QuietKeeps(CloneFork(p), es);
    var q := Run(CloneFork(p), es);
    StatusWord(q.ram, q.cpu.regs[11], 0);
  }

  /** In the child fork gives 0, and the parent's registers but that one; outside a child exit and
      wait change no memory of a process that has not forked. */
  lemma {:induction false} ForkReturnsZero(p: Process, i: nat)
    requires !p.fork.inChild && !ForkThrows(p) && i < 32
    ensures var q := Step(p, Event.CallFork);
            && q.cpu.pc == p.cpu.pc && q.cpu.regs[i] == (if i == 10 then 0 else p.cpu.regs[i]) && q.ram == p.ram
            && q.fds == p.fds && q.fork.inChild && q.nextPid == p.nextPid + 1
            && Step(p, Event.CallExit) == p
  {
  }

  /** A fork throws if and only if the process is no child and its stack pointer, x2, is above the
      stack top; a fork in a child fails with -EAGAIN. */
  lemma {:induction false} ForkThrowsExact(p: Process)
    ensures ForkThrows(p) <==> !p.fork.inChild && p.cpu.regs[2] > p.layout.stackTop
    ensures p.fork.inChild ==> Step(p, Event.CallFork) == p.(cpu := p.cpu.(regs := p.cpu.regs[10 := Wrap64(-11)]))
  {
  }

  /** The low byte of a register, also as a signed 32-bit number. */
  lemma {:induction false} LowByte(v: u64)
    ensures Signed32(Wrap32(v)) % 256 == v % 256
  {
  }

  /** Over a whole run: a child is forked, runs and exits with a status in a0; the parent goes on
      and waits. If the child never waited itself, the parent gets the child's pid and the low
      byte of that status, shifted by eight, in the word a1 points to; otherwise ECHILD. */
  lemma {:induction false} StatusReaped(p: Process, es: seq<Event>, gs: seq<Event>)
    requires !p.fork.inChild && !ForkThrows(p) && Event.CallExit !in es && Quiet(gs) && p.nextPid != 0
    ensures var q := Run(CloneFork(p), es);
            var r := Run(Step(q, Event.CallExit), gs);
            var a, w := r.cpu.regs[11], Step(r, Event.CallWait);
            && (Event.CallWait !in es ==> w.cpu.regs[10] == Wrap64(p.nextPid))
            && (Event.CallWait !in es && a != 0 ==> StatusAt(w.ram, a) == q.cpu.regs[10] % 256 * 256)
            && (Event.CallWait in es ==> w.cpu.regs[10] == Wrap64(-10) && w.ram == r.ram)
  {
    var f, q := CloneFork(p).fork, Run(CloneFork(p), es);
    ChildRun(f, CloneFork(p), es);
    ChildReaps(f, CloneFork(p), es);
    QuietKeeps(ExitChild(q), gs);
    LowByte(q.cpu.regs[10]);
    var r := Run(ExitChild(q), gs);
    StatusWord(r.ram, r.cpu.regs[11], r.fork.exitStatus % 256);
  }

  /** The 32-bit word at an address. */
  function StatusAt(ram: Ram, a: int): int { FromLittle(CopyOut(ram, a, 4)) }

  lemma {:induction false} StatusWord(ram: Ram, a: int, b: byte)
    ensures StatusAt(CopyIn(ram, a, [0, b, 0, 0]), a) == 256 * b
  {
    var w := CopyOut(CopyIn(ram, a, [0, b, 0, 0]), a, 4);
    forall k | 0 <= k < 4 ensures w[k] == [0, b, 0, 0][k] { CopiedByte(ram, a, [0, b, 0, 0], a + k); }
    assert w == [0, b, 0, 0];
    assert w[1..] == [b, 0, 0] && w[1..][1..] == [0, 0] && w[1..][1..][1..] == [0] && w[1..][1..][1..][1..] == [];
    assert FromLittle([0]) == 0 && FromLittle([0, 0]) == 0 && FromLittle([b, 0, 0]) == b;
  }

  function Waits(p: Process, n: nat): Process { if n == 0 then p else Wait4(Waits(p, n - 1)) }

  lemma {:induction false} WaitsFail(p: Process, n: nat)
    requires p.fork.reaped && n > 0
    ensures Waits(p, n).cpu.regs[A0] == Wrap64(ECHILD) && Waits(p, n).fork.reaped
  {
    if n > 1 { WaitsFail(p, n - 1); }
  }
}
