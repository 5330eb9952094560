/** What each call of a thread does to every slot, to memory and to the registers, stated
    call by call on the step of the scheduler. */
module SchedCalls {
  import opened Words
  import opened Sched
  import opened SchedProof
  import opened SchedRuns

  predicate Ready(t: Thread) { t.active && !t.waiting }

  /** Slot t is the first, other than the current one, whose thread can run. */
  ghost predicate FirstReady(s: System, t: int) {
    && Shape(s) && 0 <= t < MAX_THREADS && t != s.current && Ready(s.threads[t])
    && forall k | 0 <= k < t :: k == s.current || !Ready(s.threads[k])
  }

  ghost predicate NoneReady(s: System) {
    Shape(s) && forall k | 0 <= k < MAX_THREADS :: k == s.current || !Ready(s.threads[k])
  }

  /** The context with the call's result in a0. */
  function With(c: Context, v: int): Context { c.(regs := c.regs[10 := Wrap64(v)]) }

  /** The current thread is suspended with context c, and thread t goes on with its own context
      and a full budget. Nothing else changes. */
  ghost predicate Switched(s: System, s': System, c: Context, t: int)
    requires Shape(s) && 0 <= t < MAX_THREADS
  {
    && s' == s.(threads := s'.threads, cpu := s.threads[t].ctx, current := t) && |s'.threads| == MAX_THREADS
    && forall i | 0 <= i < MAX_THREADS ::
         s'.threads[i] == if i == s.current then s.threads[i].(ctx := c)
                          else if i == t then s.threads[i].(budget := 50000) else s.threads[i]
  }

  lemma {:induction false} NextIsFirst(s: System, t: int)
    requires Shape(s)
    ensures FirstReady(s, t) ==> NextRunnable(s.threads, s.current, 0) == t
    ensures NoneReady(s) ==> NextRunnable(s.threads, s.current, 0) == -1
    ensures NoneReady(s) || exists k :: FirstReady(s, k)
  {
    var n := NextRunnable(s.threads, s.current, 0);
    if n >= 0 { assert FirstReady(s, n); }
  }

  /** sched_yield. */
  lemma {:induction false} YieldExact(s: System, t: int)
    requires Enabled(s, CallYield)
    ensures var s' := Step(s, CallYield);
            && (s.count > 1 && FirstReady(s, t) ==> Switched(s, s', With(s.cpu, 0), t))
            && (s.count <= 1 || NoneReady(s) ==> s' == s.(cpu := With(s.cpu, 0)))
  {
    NextIsFirst(s, t);
  }

  /** nanosleep: a thread that switches is suspended without a result. */
  lemma {:induction false} NanosleepExact(s: System, t: int)
    requires Enabled(s, CallNanosleep)
    ensures var s' := Step(s, CallNanosleep);
            && (s.count > 1 && FirstReady(s, t) ==> Switched(s, s', s.cpu, t))
            && (s.count <= 1 || NoneReady(s) ==> s' == s.(cpu := With(s.cpu, 0)))
  {
    NextIsFirst(s, t);
  }

  /** The preemption check at a system call: one unit of budget, or a switch when none is left. */
  lemma {:induction false} PreemptExact(s: System, t: int)
    requires Enabled(s, CallPreempt)
    ensures var s', cur := Step(s, CallPreempt), s.threads[s.current];
            && (s.count <= 1 ==> s' == s)
            && (s.count > 1 && cur.budget > 0 ==>
                  s' == s.(threads := s.threads[s.current := cur.(budget := cur.budget - 1)]))
            && (s.count > 1 && cur.budget == 0 && FirstReady(s, t) ==> Switched(s, s', s.cpu, t))
            && (s.count > 1 && cur.budget == 0 && NoneReady(s) ==>
                  s' == s.(threads := s.threads[s.current := cur.(budget := 50000)]))
  {
    NextIsFirst(s, t);
  }

  // ---- futex ----

  /** A wake call releases as many waiters on its address as its limit allows, gives their number
      in a0, and changes no other slot and no memory. */
  lemma {:induction false} WakeReleases(s: System, e: Event)
    requires Enabled(s, e) && IsWake(s, e)
    ensures var s', limit := Step(s, e), IntArg(s, 2);
            var n := Min(if limit > 0 then limit else 0, Waiters(s.threads, Arg(s, 0), 0));
            && |s'.threads| == MAX_THREADS && Waiters(s'.threads, Arg(s, 0), 0) == Waiters(s.threads, Arg(s, 0), 0) - n
            && s' == s.(threads := s'.threads, cpu := With(s.cpu, n))
            && forall i | 0 <= i < MAX_THREADS ::
                 || s'.threads[i] == s.threads[i]
                 || (WaitsOn(s.threads[i], Arg(s, 0)) && s'.threads[i] == s.threads[i].(waiting := false))
  {
    WakeExact(s.threads, Arg(s, 0), IntArg(s, 2));
  }

  /** Waiters are released from the lowest slot up: one that stays behind keeps all after it. */
  lemma {:induction false} WakeInOrder(ts: Threads, addr: u64, max: int, woken: nat, i: nat, j: nat, k: nat)
    requires i <= j < k < |ts| && WaitsOn(ts[j], addr)
    ensures var r := WakeFrom(ts, addr, max, woken, i).0; WaitsOn(r[j], addr) ==> r[k] == ts[k]
    decreases |ts| - i
  {
    if i < |ts| && woken < max {
      var ts' := if WaitsOn(ts[i], addr) then ts[i := ts[i].(waiting := false)] else ts;
      var woken' := if WaitsOn(ts[i], addr) then woken + 1 else woken;
      if i < j { WakeInOrder(ts', addr, max, woken', i + 1, j, k); } else { WakeKeeps(ts', addr, max, woken', i + 1); }
    }
  }

  /** A waiter that a wake call leaves waiting keeps every waiter in a higher slot waiting. */
  lemma {:induction false} LowestFirst(s: System, e: Event, j: nat, k: nat)
    requires Enabled(s, e) && IsWake(s, e) && j < k < MAX_THREADS && WaitsOn(s.threads[j], Arg(s, 0))
    ensures var ts := Step(s, e).threads;
            |ts| == MAX_THREADS && (WaitsOn(ts[j], Arg(s, 0)) ==> ts[k] == s.threads[k])
  {
    WakeInOrder(s.threads, Arg(s, 0), IntArg(s, 2), 0, 0, j, k);
  }

  lemma {:induction false} NoWaiter(ts: Threads, addr: u64, i: nat, k: nat)
    requires i <= k < |ts| && Waiters(ts, addr, i) == 0
    ensures !WaitsOn(ts[k], addr)
    decreases k - i
  {
    if i < k { NoWaiter(ts, addr, i + 1, k); }
  }

  lemma {:induction false} OneWaiter(ts: Threads, addr: u64, i: nat, k: nat)
    requires i <= k < |ts| && WaitsOn(ts[k], addr) && forall j | i <= j < |ts| && j != k :: !WaitsOn(ts[j], addr)
    ensures Waiters(ts, addr, i) == 1
    decreases |ts| - i
  {
    if i < k {
      OneWaiter(ts, addr, i + 1, k);
    } else {
      NoneWaits(ts, addr, i + 1);
    }
  }

  lemma {:induction false} NoneWaits(ts: Threads, addr: u64, i: nat)
    requires i <= |ts| && forall j | i <= j < |ts| :: !WaitsOn(ts[j], addr)
    ensures Waiters(ts, addr, i) == 0
    decreases |ts| - i
  {
    if i < |ts| { NoneWaits(ts, addr, i + 1); }
  }

  /** The only thread that waits on the address can run after a wake with a limit of at least 1. */
  lemma {:induction false} SoleWaiterRuns(s: System, e: Event, k: nat)
    requires Enabled(s, e) && IsWake(s, e) && IntArg(s, 2) >= 1 && k < MAX_THREADS && WaitsOn(s.threads[k], Arg(s, 0))
    requires forall j | 0 <= j < MAX_THREADS && j != k :: !WaitsOn(s.threads[j], Arg(s, 0))
    ensures var s' := Step(s, e); |s'.threads| == MAX_THREADS && Ready(s'.threads[k]) && s'.cpu.regs[10] == 1
  {
    WakeReleases(s, e);
    OneWaiter(s.threads, Arg(s, 0), 0, k);
    NoWaiter(Step(s, e).threads, Arg(s, 0), 0, k);
  }

  /** The thread as it waits. */
  function Waiting(t: Thread, c: Context, addr: u64, expected: int): Thread {
    t.(ctx := c, waiting := true, futexAddr := addr, futexVal := expected)
  }

  /** The first other slot whose thread waits. */
  ghost predicate FirstAsleep(s: System, t: int) {
    && Shape(s) && 0 <= t < MAX_THREADS && t != s.current && s.threads[t].active && s.threads[t].waiting
    && forall k | 0 <= k < t :: k == s.current || !s.threads[k].active || !s.threads[k].waiting
  }

  lemma {:induction false} FirstAsleepIs(s: System, ts: Threads, t: int)
    requires FirstAsleep(s, t) && |ts| == MAX_THREADS
    requires forall k | 0 <= k < MAX_THREADS && k != s.current :: ts[k] == s.threads[k]
    ensures FirstWaiter(ts, s.current, 0) == t
  {
  }

  /** The state after a wait that blocks: the caller waits with result 0, and thread t goes on. */
  ghost predicate Blocked(s: System, s': System, t: int)
    requires Shape(s) && 0 <= t < MAX_THREADS
  {
    && s' == s.(threads := s'.threads, cpu := s.threads[t].ctx, current := t) && |s'.threads| == MAX_THREADS
    && forall i | 0 <= i < MAX_THREADS ::
         s'.threads[i] == if i == s.current then Waiting(s.threads[i], With(s.cpu, 0), Arg(s, 0), IntArg(s, 2))
                          else if i == t then s.threads[i].(waiting := false, budget := 50000) else s.threads[i]
  }

  lemma {:induction false} WaitGoesOn(s: System, t: int)
    requires Shape(s) && Word(s.mem, Arg(s, 0)) == IntArg(s, 2) && s.count > 1
    requires FirstReady(s, t) || (NoneReady(s) && FirstAsleep(s, t))
    ensures Blocked(s, FutexWait(s), t)
  {
    var cur := s.threads[s.current].(waiting := true, futexAddr := Arg(s, 0), futexVal := IntArg(s, 2));
    var ts := s.threads[s.current := cur];
    NextIsFirst(s, t);
    NextSame(s.threads, ts, s.current, 0);
    if !FirstReady(s, t) { FirstAsleepIs(s, ts, t); }
  }

  /** A wait whose word holds the expected value blocks, if there is another thread: the first
      that can run goes on or, when none can, the first that waits. Every other wait fails with
      -EAGAIN and changes nothing else. */
  lemma {:induction false} WaitExact(s: System, e: Event, t: int)
    requires Enabled(s, e) && IsWait(s, e)
    ensures var s', equal := Step(s, e), Word(s.mem, Arg(s, 0)) == IntArg(s, 2);
            && (equal && s.count > 1 && (FirstReady(s, t) || (NoneReady(s) && FirstAsleep(s, t))) ==> Blocked(s, s', t))
            && (!equal || s.count <= 1 ==> s' == s.(cpu := With(s.cpu, -11)))
  {
    if
      && Word(s.mem, Arg(s, 0)) == IntArg(s, 2) && s.count > 1
      && (FirstReady(s, t) || (NoneReady(s) && FirstAsleep(s, t)))
    {
      WaitGoesOn(s, t);
    }
  }

  /** Other futex commands fail with -ENOSYS. */
  lemma {:induction false} OtherFutex(s: System)
    requires Enabled(s, CallFutex) && !IsWait(s, CallFutex) && !IsWake(s, CallFutex)
    ensures Step(s, CallFutex) == s.(cpu := With(s.cpu, -38))
  {
  }

  // ---- clone ----

  /** Bit n of the flags. */
  predicate Bit(flags: u64, n: nat) { flags / Pow2(n) % 2 == 1 }

  lemma {:induction false} FlagBits(flags: u64)
    ensures Pow2(8) == 0x100 && Pow2(14) == 0x4000 && Pow2(16) == 0x1_0000
    ensures Pow2(19) == 0x8_0000 && Pow2(20) == 0x10_0000 && Pow2(21) == 0x20_0000
  {
    assert Pow2(2) == 4 && Pow2(4) == 16 && Pow2(6) == 64 && Pow2(10) == 1024 && Pow2(12) == 4096;
    assert Pow2(14) == 0x4000 && Pow2(18) == 0x4_0000;
  }

  /** Which calls make a thread: CLONE_THREAD is bit 16, CLONE_VM bit 8 and CLONE_VFORK bit 14. */
  lemma {:induction false} ThreadCloneExact(flags: u64)
    ensures IsThreadClone(flags) <==> Bit(flags, 16) || (Bit(flags, 8) && !Bit(flags, 14))
  {
    FlagBits(flags);
  }

  /** The registers of the new thread: the given stack pointer in x2, the thread pointer in x4 if
      CLONE_SETTLS (bit 19) is set, 0 in a0, and the caller's everywhere else. */
  lemma {:induction false} ChildRegisters(s: System, r: nat)
    requires r < 32
    ensures ChildContext(s).pc == s.cpu.pc
    ensures ChildContext(s).regs[r] == if r == 2 then s.cpu.regs[11]
                                       else if r == 4 && Bit(s.cpu.regs[10], 19) then s.cpu.regs[13]
                                       else if r == 10 then 0 else s.cpu.regs[r]
  {
    FlagBits(s.cpu.regs[10]);
  }

  /** The slots before the new thread is added: the first clone puts the main thread in slot 0. */
  ghost function Base(s: System): Threads
    requires Shape(s)
  {
    if s.count == 0
    then s.threads[0 := s.threads[0].(tid := s.nextPid - 1, active := true, waiting := false)] else s.threads
  }

  ghost function Main(s: System): nat { if s.count == 0 then 0 else s.current }

  /** Slot k is the first free one. */
  ghost predicate FirstUnused(ts: Threads, k: int) {
    0 <= k < |ts| && !ts[k].active && forall j | 0 <= j < k :: ts[j].active
  }

  /** The tid is stored for the parent if CLONE_PARENT_SETTID (bit 20) is set. */
  ghost function ParentWord(s: System): Words32 {
    if Bit(s.cpu.regs[10], 20) && s.cpu.regs[12] != 0 then s.mem[s.cpu.regs[12] := s.nextPid] else s.mem
  }

  /** The slots after a clone that makes thread k. */
  ghost function WithChild(s: System, k: nat): Threads
    requires Shape(s) && k < MAX_THREADS
  {
    var base, flags := Base(s), s.cpu.regs[10];
    seq(MAX_THREADS, i requires 0 <= i < MAX_THREADS =>
      if i == k then
        base[i].(tid := s.nextPid, active := true, waiting := false, budget := 50000,
                 clearTid := if Bit(flags, 21) then s.cpu.regs[14] else 0, ctx := base[i].ctx.(pc := s.cpu.pc))
      else if i == Main(s) then base[i].(ctx := With(s.cpu, s.nextPid)) else base[i])
  }

  lemma {:induction false} UnusedIs(ts: Threads, k: int)
    ensures FirstUnused(ts, k) ==> FirstFree(ts, 0) == k
    ensures (forall j | 0 <= j < |ts| :: ts[j].active) ==> FirstFree(ts, 0) == -1
  {
  }

  lemma {:induction false} BaseIs(s: System)
    requires Shape(s)
    ensures CloneBase(s) == s.(threads := Base(s), current := Main(s), count := if s.count == 0 then 1 else s.count,
                               nextPid := s.nextPid + 1, mem := ParentWord(s))
  {
    FlagBits(s.cpu.regs[10]);
  }

  /** clone of a thread: the first free slot takes the new thread, which goes on at once with its
      own registers; the caller is suspended with the new tid in a0. Without a free slot the
      caller goes on with the tid all the same. */
  lemma {:induction false} CloneExact(s: System, k: int)
    requires Enabled(s, CallClone)
    ensures IsThreadClone(s.cpu.regs[10])
    ensures var s', base := Step(s, CallClone), Base(s);
            var count := if s.count == 0 then 1 else s.count;
            && (FirstUnused(base, k) && base[Main(s)].active ==>
                  s' == s.(threads := WithChild(s, k), current := k, count := count + 1, nextPid := s.nextPid + 1,
                           mem := ParentWord(s), cpu := ChildContext(s)))
            && ((forall j | 0 <= j < 8 :: base[j].active) ==>
                  s' == s.(threads := base, current := Main(s), count := count, nextPid := s.nextPid + 1,
                           mem := ParentWord(s), cpu := With(s.cpu, s.nextPid)))
  {
    BaseIs(s);
    UnusedIs(Base(s), k);
    if FirstUnused(Base(s), k) && Base(s)[Main(s)].active { ChildSlots(s, k); }
  }

  lemma {:induction false} ChildSlots(s: System, k: nat)
    requires Enabled(s, CallClone) && FirstUnused(Base(s), k) && Base(s)[Main(s)].active
    ensures CloneThread(s).threads == WithChild(s, k)
  {
    BaseIs(s);
    UnusedIs(Base(s), k);
    FlagBits(s.cpu.regs[10]);
  }

  // ---- exit ----

  /** Slot w is the first that waits on the address. */
  ghost predicate FirstOn(ts: Threads, addr: u64, w: int) {
    0 <= w < |ts| && WaitsOn(ts[w], addr) && forall k | 0 <= k < w :: !WaitsOn(ts[k], addr)
  }

  lemma {:induction false} WakeOne(ts: Threads, addr: u64, w: int, i: nat)
    requires i <= |ts| && (FirstOn(ts, addr, w) ==> i <= w)
    ensures FirstOn(ts, addr, w) ==> WakeFrom(ts, addr, 1, 0, i).0 == ts[w := ts[w].(waiting := false)]
    ensures (forall k | i <= k < |ts| :: !WaitsOn(ts[k], addr)) ==> WakeFrom(ts, addr, 1, 0, i).0 == ts
    decreases |ts| - i
  {
    if i < |ts| && !WaitsOn(ts[i], addr) { WakeOne(ts, addr, w, i + 1); }
  }

  /** The slots after the current thread has left and slot w, if it is one, was released. */
  ghost function WithoutCurrent(s: System, w: int): Threads
    requires Shape(s)
  {
    seq(MAX_THREADS, i requires 0 <= i < MAX_THREADS =>
      if i == s.current then s.threads[i].(active := false, waiting := false)
      else if i == w then s.threads[i].(waiting := false) else s.threads[i])
  }

  /** Slot w is the thread that waits on the leaving thread's clear-tid word, or -1. */
  ghost predicate Joins(s: System, w: int)
    requires Shape(s)
  {
    var addr := s.threads[s.current].clearTid;
    if addr == 0 || forall k | 0 <= k < MAX_THREADS :: !WaitsOn(s.threads[k], addr) then w == -1
    else FirstOn(s.threads, addr, w)
  }

  /** The exit of a thread other than the main one: its clear-tid word becomes 0, the first thread
      that waits on it is released, its slot is free, and the first thread that can run goes on
      with its own context; the machine stops when there is none. */
  lemma {:induction false} ExitExact(s: System, w: int, t: int)
    requires Enabled(s, CallExit) && s.count > 1 && s.current != 0 && Joins(s, w)
    ensures var s', addr := Step(s, CallExit), s.threads[s.current].clearTid;
            var ts := WithoutCurrent(s, w);
            var left := s.(threads := ts, count := s.count - 1, mem := if addr != 0 then s.mem[addr := 0] else s.mem);
            && (FirstReady(left, t) ==> s' == left.(cpu := ts[t].ctx, current := t))
            && (NoneReady(left) ==> s' == left.(cpu := With(s.cpu, IntArg(s, 0)), stopped := true))
  {
    var addr := s.threads[s.current].clearTid;
    WakeOne(s.threads, addr, w, 0);
    var woken := if addr != 0 then Wake(s.threads, addr, 1).0 else s.threads;
    assert woken[s.current := woken[s.current].(active := false, waiting := false)] == WithoutCurrent(s, w);
    var left := s.(threads := WithoutCurrent(s, w), count := s.count - 1,
                   mem := if addr != 0 then s.mem[addr := 0] else s.mem);
    NextIsFirst(left, t);
  }

  /** The exit of the main thread, or of the only one, stops the machine with its status. */
  lemma {:induction false} MainExits(s: System)
    requires Enabled(s, CallExit) && (s.count <= 1 || s.current == 0)
    ensures Step(s, CallExit) == s.(cpu := With(s.cpu, IntArg(s, 0)), stopped := true)
  {
  }

  /** exit_group stops the machine with its status and frees every slot. */
  lemma {:induction false} GroupExits(s: System)
    requires Enabled(s, CallExitGroup)
    ensures var s' := Step(s, CallExitGroup);
            && s' == s.(threads := s'.threads, count := 0, cpu := With(s.cpu, IntArg(s, 0)), stopped := true)
            && |s'.threads| == MAX_THREADS
            && forall i | 0 <= i < MAX_THREADS :: s'.threads[i] == s.threads[i].(active := false, waiting := false)
  {
  }

  /** set_tid_address sets the caller's clear-tid address and gives its tid. */
  lemma {:induction false} SetTidExact(s: System)
    requires Enabled(s, CallSetTid)
    ensures var s', cur := Step(s, CallSetTid), s.threads[s.current];
            && (s.count > 0 ==> s' == s.(threads := s.threads[s.current := cur.(clearTid := s.cpu.regs[10])],
                                         cpu := With(s.cpu, cur.tid)))
            && (s.count <= 0 ==> s' == s.(cpu := With(s.cpu, 1)))
  {
  }

  /** Arguments are a0 to a5; a 32-bit argument is the low half of its register, signed. */
  lemma {:induction false} Arguments(s: System, k: nat)
    requires k < 6
    ensures Arg(s, k) == s.cpu.regs[10 + k]
    ensures IntArg(s, k) % 0x1_0000_0000 == s.cpu.regs[10 + k] % 0x1_0000_0000
    ensures -0x8000_0000 <= IntArg(s, k) < 0x8000_0000
  {
  }
}
