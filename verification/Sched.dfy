/** The cooperative thread scheduler as a transition system. */
module Sched {
  import opened Words

  const MAX_THREADS := 8
  const QUANTUM := 50000
  const A0 := 10
  const EAGAIN := -11
  const ENOSYS := -38

  type Registers = x: seq<u64> | |x| == 32 witness seq(32, _ => 0)

  /** The register file and pc of one thread. */
  datatype Context = Context(regs: Registers, pc: u64)
  {
    /** set_result. */
    function Result(v: int): Context { this.(regs := regs[A0 := Wrap64(v)]) }
  }

  datatype Thread = Thread(
    ctx: Context, tid: int, active: bool, waiting: bool, futexAddr: u64, futexVal: int, clearTid: u64, budget: nat)

  type Threads = seq<Thread>

  /** Guest memory, by 32-bit word. */
  type Words32 = map<u64, int>

  datatype System = System(
    threads: Threads, current: nat, count: int, cpu: Context, mem: Words32, nextPid: int, stopped: bool)

  function Word(mem: Words32, a: u64): int { if a in mem then mem[a] else 0 }

  // ---- the scheduler's searches ----

  predicate Runnable(t: Thread) { t.active && !t.waiting }

  /** The first runnable slot from i on, other than `skip`; -1 if none. */
  function NextRunnable(ts: Threads, skip: int, i: nat): (r: int)
    requires i <= |ts|
    ensures r == -1 || (i <= r < |ts| && r != skip && Runnable(ts[r]))
    ensures forall k | i <= k < (if r == -1 then |ts| else r) :: k == skip || !Runnable(ts[k])
    decreases |ts| - i
  {
    if i == |ts| then -1 else if i != skip && Runnable(ts[i]) then i else NextRunnable(ts, skip, i + 1)
  }

  /** The first free slot from i on; -1 if none. */
  function FirstFree(ts: Threads, i: nat): (r: int)
    requires i <= |ts|
    ensures r == -1 || (i <= r < |ts| && !ts[r].active)
    ensures forall k | i <= k < (if r == -1 then |ts| else r) :: ts[k].active
    decreases |ts| - i
  {
    if i == |ts| then -1 else if !ts[i].active then i else FirstFree(ts, i + 1)
  }

  predicate WaitsOn(t: Thread, addr: u64) { t.active && t.waiting && t.futexAddr == addr }

  /** Wakes waiters on addr from slot i on, in order, while fewer than max are woken. */
  function WakeFrom(ts: Threads, addr: u64, max: int, woken: nat, i: nat): (r: (Threads, nat))
    requires i <= |ts|
    ensures |r.0| == |ts|
    decreases |ts| - i
  {
    if i == |ts| || woken >= max then (ts, woken)
    else if WaitsOn(ts[i], addr) then WakeFrom(ts[i := ts[i].(waiting := false)], addr, max, woken + 1, i + 1)
    else WakeFrom(ts, addr, max, woken, i + 1)
  }

  function Wake(ts: Threads, addr: u64, max: int): (Threads, nat) { WakeFrom(ts, addr, max, 0, 0) }

  /** The first slot that waits, other than the current one; -1 if none. */
  function FirstWaiter(ts: Threads, skip: int, i: nat): (r: int)
    requires i <= |ts|
    ensures r == -1 || (i <= r < |ts| && r != skip && ts[r].active && ts[r].waiting)
    ensures forall k | i <= k < (if r == -1 then |ts| else r) :: k == skip || !ts[k].active || !ts[k].waiting
    decreases |ts| - i
  {
    if i == |ts| then -1 else if i != skip && ts[i].active && ts[i].waiting then i else FirstWaiter(ts, skip, i + 1)
  }

  // ---- handlers ----

  predicate Shape(s: System) { |s.threads| == MAX_THREADS && s.current < MAX_THREADS }

  function Arg(s: System, k: nat): u64
    requires k < 6
  {
    s.cpu.regs[A0 + k]
  }

  /** sysarg<int>. */
  function IntArg(s: System, k: nat): int
    requires k < 6
  {
    Signed32(Wrap32(Arg(s, k)))
  }

  predicate HasFlag(flags: u64, bit: nat)
    requires bit > 0
  {
    flags / bit % 2 == 1
  }

  function SetResult(s: System, v: int): System { s.(cpu := s.cpu.Result(v)) }

  /** switch_to_thread: save the current context, restore the target's. */
  function Switch(s: System, target: int): System
    requires Shape(s) && target < MAX_THREADS
  {
    if target < 0 || target == s.current then s
    else
      var saved := s.threads[s.current := s.threads[s.current].(ctx := s.cpu)];
      s.(threads := saved[target := saved[target].(budget := QUANTUM)], cpu := saved[target].ctx, current := target)
  }

  function Next(s: System): int
    requires Shape(s)
  {
    NextRunnable(s.threads, s.current, 0)
  }

  /** maybe_preempt. */
  function Preempt(s: System): System
    requires Shape(s)
  {
    var cur := s.threads[s.current];
    if s.count <= 1 then s
    else if cur.budget > 0 then s.(threads := s.threads[s.current := cur.(budget := cur.budget - 1)])
    else if Next(s) >= 0 then Switch(s, Next(s))
    else s.(threads := s.threads[s.current := cur.(budget := QUANTUM)])
  }

  function Yield(s: System): System
    requires Shape(s)
  {
    var s1 := SetResult(s, 0);
    if s.count > 1 && Next(s) >= 0 then Switch(s1, Next(s)) else s1
  }

  /** The yield of sys_nanosleep; the sleep itself ends with result 0. */
  function Nanosleep(s: System): System
    requires Shape(s)
  {
    if s.count > 1 && Next(s) >= 0 then Switch(s, Next(s)) else SetResult(s, 0)
  }

  function FutexWait(s: System): System
    requires Shape(s)
  {
    var addr, expected := Arg(s, 0), IntArg(s, 2);
    if Word(s.mem, addr) != expected then SetResult(s, EAGAIN)
    else if s.count > 1 then
      var cur := s.threads[s.current].(waiting := true, futexAddr := addr, futexVal := expected);
      var s1 := SetResult(s.(threads := s.threads[s.current := cur]), 0);
      var next, waiter := Next(s1), FirstWaiter(s1.threads, s.current, 0);
      if next >= 0 then Switch(s1, next)
      else if waiter >= 0 then
        Switch(s1.(threads := s1.threads[waiter := s1.threads[waiter].(waiting := false)]), waiter)
      else LastResort(s1.(threads := s1.threads[s.current := cur.(waiting := false)]), addr)
    else SetResult(s, EAGAIN)
  }

  /** The write of 0 to the futex word when no other thread is left to run. */
  function LastResort(s: System, addr: u64): System { SetResult(s.(mem := s.mem[addr := 0]), 0) }

  function FutexWake(s: System): System
    requires Shape(s)
  {
    var (ts, woken) := Wake(s.threads, Arg(s, 0), IntArg(s, 2));
    SetResult(s.(threads := ts), woken)
  }

  /** sys_futex. */
  function Futex(s: System): System
    requires Shape(s)
  {
    var cmd := IntArg(s, 1) % 128;
    if cmd == 0 || cmd == 9 then FutexWait(s)
    else if cmd == 1 || cmd == 10 then FutexWake(s)
    else SetResult(s, ENOSYS)
  }

  const CLONE_VM := 0x100
  const CLONE_VFORK := 0x4000
  const CLONE_THREAD := 0x1_0000
  const CLONE_SETTLS := 0x8_0000
  const CLONE_PARENT_SETTID := 0x10_0000
  const CLONE_CHILD_CLEARTID := 0x20_0000

  predicate IsThreadClone(flags: u64) {
    HasFlag(flags, CLONE_THREAD) || (HasFlag(flags, CLONE_VM) && !HasFlag(flags, CLONE_VFORK))
  }

  /** The scheduler with slot 0 for the main thread. */
  function Initialised(s: System): System
    requires Shape(s)
  {
    if s.count == 0 then
      s.(threads := s.threads[0 := s.threads[0].(tid := s.nextPid - 2, active := true, waiting := false)],
         current := 0, count := 1)
    else s
  }

  /** The registers the new thread starts with. */
  function ChildContext(s: System): Context {
    var c := s.cpu.(regs := s.cpu.regs[2 := Arg(s, 1)]).Result(0);
    if HasFlag(Arg(s, 0), CLONE_SETTLS) then c.(regs := c.regs[4 := Arg(s, 3)]) else c
  }

  /** The next tid taken, the tid stored for the parent, and the scheduler set up. */
  function CloneBase(s: System): System
    requires Shape(s)
  {
    var store := HasFlag(Arg(s, 0), CLONE_PARENT_SETTID) && Arg(s, 2) != 0;
    Initialised(s.(nextPid := s.nextPid + 1, mem := if store then s.mem[Arg(s, 2) := s.nextPid] else s.mem))
  }

  /** The new thread's slot. */
  function ChildThread(s: System, free: Thread): Thread {
    free.(tid := s.nextPid, active := true, waiting := false, budget := QUANTUM,
         clearTid := if HasFlag(Arg(s, 0), CLONE_CHILD_CLEARTID) then Arg(s, 4) else 0,
         ctx := free.ctx.(pc := s.cpu.pc))
  }

  /** Suspends the current thread with context `parent` and runs a new one in `slot`. */
  function Spawned(s: System, slot: nat, parent: Context, child: Thread, cpu: Context): System
    requires Shape(s) && slot < MAX_THREADS
  {
    s.(threads := s.threads[s.current := s.threads[s.current].(ctx := parent)][slot := child],
       count := s.count + 1, cpu := cpu, current := slot)
  }

  /** The thread form of sys_clone; with no free slot the tid is handed out all the same. */
  function CloneThread(s: System): System
    requires Shape(s)
  {
    var s1 := CloneBase(s);
    var slot := FirstFree(s1.threads, 0);
    if slot < 0 then SetResult(s1, s.nextPid)
    else Spawned(s1, slot, s.cpu.Result(s.nextPid), ChildThread(s, s1.threads[slot]), ChildContext(s))
  }

  function Stop(s: System): System { s.(stopped := true) }

  /** sys_exit outside a fork child. */
  function Exit(s: System): System
    requires Shape(s)
  {
    if s.count > 1 && s.current != 0 then
      var addr := s.threads[s.current].clearTid;
      var woken := if addr != 0 then Wake(s.threads, addr, 1).0 else s.threads;
      var mem := if addr != 0 then s.mem[addr := 0] else s.mem;
      var ts := woken[s.current := woken[s.current].(active := false, waiting := false)];
      var s1 := s.(threads := ts, mem := mem, count := s.count - 1);
      var next := NextRunnable(ts, s.current, 0);
      if next >= 0 then s1.(cpu := ts[next].ctx, current := next) else Stop(SetResult(s1, IntArg(s, 0)))
    else Stop(SetResult(s, IntArg(s, 0)))
  }

  /** sys_exit_group outside a fork child. */
  function ExitGroup(s: System): System
    requires Shape(s)
  {
    Stop(SetResult(s.(threads := AllInactive(s.threads), count := 0), IntArg(s, 0)))
  }

  function AllInactive(ts: Threads): Threads {
    seq(|ts|, i requires 0 <= i < |ts| => ts[i].(active := false, waiting := false))
  }

  function SetTidAddress(s: System): System
    requires Shape(s)
  {
    if s.count > 0 then
      var cur := s.threads[s.current].(clearTid := Arg(s, 0));
      SetResult(s.(threads := s.threads[s.current := cur]), cur.tid)
    else SetResult(s, 1)
  }

  /** Guest execution is any change of registers and memory. */
  datatype Event =
    | Guest(cpu: Context, mem: Words32)
    | CallClone | CallFutex | CallYield | CallNanosleep | CallSetTid | CallPreempt | CallExit | CallExitGroup

  predicate Enabled(s: System, e: Event) {
    Shape(s) && !s.stopped && (e.CallClone? ==> IsThreadClone(Arg(s, 0)))
  }

  function Step(s: System, e: Event): System
    requires Enabled(s, e)
  {
    match e
    case Guest(cpu, mem) => s.(cpu := cpu, mem := mem)
    case CallClone => CloneThread(s)
    case CallFutex => Futex(s)
    case CallYield => Yield(s)
    case CallNanosleep => Nanosleep(s)
    case CallSetTid => SetTidAddress(s)
    case CallPreempt => Preempt(s)
    case CallExit => Exit(s)
    case CallExitGroup => ExitGroup(s)
  }
}
