/** Whole runs of the scheduler, and what waiting and waking mean. */
module SchedRuns {
  import opened Words
  import opened Sched
  import opened SchedProof
  import opened SchedRefine

  /** No thread created yet: the program itself runs. */
  function Initial(threads: Threads, cpu: Context, mem: Words32, nextPid: int): System
    requires |threads| == MAX_THREADS
  {
    System(AllInactive(threads), 0, 0, cpu, mem, nextPid, false)
  }

  lemma {:induction false} InitialInv(threads: Threads, cpu: Context, mem: Words32, nextPid: int)
    requires |threads| == MAX_THREADS
    ensures Inv(Initial(threads, cpu, mem, nextPid))
  {
    CountZero(AllInactive(threads));
  }

  ghost predicate IsRun(s: System, es: seq<Event>)
    decreases |es|
  {
    es != [] ==> Enabled(s, es[0]) && !Step(s, es[0]).stopped && IsRun(Step(s, es[0]), es[1..])
  }

  ghost function After(s: System, es: seq<Event>): System
    requires IsRun(s, es)
    decreases |es|
  {
    if es == [] then s else After(Step(s, es[0]), es[1..])
  }

  /** The invariant holds in every state of every run. */
  lemma {:induction false} RunInv(s: System, es: seq<Event>)
    requires Inv(s) && IsRun(s, es)
    ensures Inv(After(s, es)) && (After(s, es).stopped ==> s.stopped)
    decreases |es|
  {
    if es != [] {
      StepInv(s, es[0]);
      RunInv(Step(s, es[0]), es[1..]);
    }
  }

  /** In no state of any run does a futex wait fall through to the last-resort write: a
      thread to switch to is found, and no futex call changes guest memory. */
  lemma {:induction false} LastResortUnreachable(s: System, es: seq<Event>)
    requires Inv(s) && IsRun(s, es)
    ensures var s1 := After(s, es);
            && Shape(s1) && Futex(s1).mem == s1.mem
            && (s1.count > 1 ==>
                  var cur := s1.threads[s1.current].(waiting := true, futexAddr := Arg(s1, 0),
                                                             futexVal := IntArg(s1, 2));
                  var ts := s1.threads[s1.current := cur];
                  NextRunnable(ts, s1.current, 0) >= 0 || FirstWaiter(ts, s1.current, 0) >= 0)
  {
    RunInv(s, es);
    var s1 := After(s, es);
    if s1.count > 1 {
      WaiterExists(s1, s1.threads[s1.current].(waiting := true, futexAddr := Arg(s1, 0), futexVal := IntArg(s1, 2)));
    }
  }

  // ---- suspended threads ----

  /** Thread i is not the running one at the start of any step. */
  ghost predicate Suspended(s: System, es: seq<Event>, i: nat)
    requires IsRun(s, es)
    decreases |es|
  {
    es != [] ==> s.current != i && Suspended(Step(s, es[0]), es[1..], i)
  }

  lemma {:induction false} SpawnIsFree(s: System, e: Event)
    requires Inv(s) && Enabled(s, e) && ActionOf(s, e).Spawn?
    ensures ActionOf(s, e).slot !in View(s).files
  {
    BaseInv(s);
    BaseAbs(s);
    var s1 := CloneBase(s);
    assert FirstFree(s1.threads, 0) !in Alive(s1);
    assert View(s1).files == View(s).files;
  }

  /** No step changes the registers of a thread that is not running. */
  lemma {:induction false} StepFrame(s: System, e: Event, i: nat)
    requires Inv(s) && Enabled(s, e) && !Step(s, e).stopped && i in Alive(s) && i != s.current
    ensures Shape(Step(s, e)) && i in Alive(Step(s, e)) && ContextOf(Step(s, e), i) == ContextOf(s, i)
  {
    StepRefines(s, e);
    if ActionOf(s, e).Spawn? { SpawnIsFree(s, e); }
    assert i in View(Step(s, e)).files;
  }

  /** A thread resumes with exactly the registers and pc it was suspended with. */
  lemma {:induction false} ResumesAsSuspended(s: System, es: seq<Event>, i: nat)
    requires Inv(s) && IsRun(s, es) && Suspended(s, es, i) && i in Alive(s)
    ensures Shape(After(s, es)) && i in Alive(After(s, es)) && ContextOf(After(s, es), i) == ContextOf(s, i)
    decreases |es|
  {
    if es != [] {
      StepFrame(s, es[0], i);
      StepInv(s, es[0]);
      ResumesAsSuspended(Step(s, es[0]), es[1..], i);
    }
  }

  /** A thread that yields, waits on a futex or clones is suspended with its call's result in
      a0, and is restored so when it runs again. */
  lemma {:induction false} ResumesWithResult(s: System, e: Event, es: seq<Event>)
    requires Inv(s) && IsRun(s, [e] + es) && Suspended(Step(s, e), es, s.current)
    requires || e.CallYield? || e.CallClone?
             || (IsWait(s, e) && Word(s.mem, Arg(s, 0)) == IntArg(s, 2) && s.count > 1)
    requires Step(s, e).current != s.current
    ensures var s1 := After(Step(s, e), es);
            Shape(s1) && ContextOf(s1, s.current) == s.cpu.Result(if e.CallClone? then s.nextPid else 0)
  {
    assert ([e] + es)[1..] == es;
    StepRefines(s, e);
    StepInv(s, e);
    var s' := Step(s, e);
    assert s.current in Alive(s);
    if e.CallClone? {
      assert ActionOf(s, e).Spawn?;
    }
    assert s.current in View(s').files
           && View(s').files[s.current] == s.cpu.Result(if e.CallClone? then s.nextPid else 0);
    ResumesAsSuspended(s', es, s.current);
  }

  // ---- futex ----

  function Waiters(ts: Threads, addr: u64, i: nat): nat
    requires i <= |ts|
    decreases |ts| - i
  {
    if i == |ts| then 0 else (if WaitsOn(ts[i], addr) then 1 else 0) + Waiters(ts, addr, i + 1)
  }

  lemma {:induction false} WaitersSame(a: Threads, b: Threads, addr: u64, i: nat)
    requires i <= |a| == |b| && forall k | i <= k < |a| :: a[k] == b[k]
    ensures Waiters(a, addr, i) == Waiters(b, addr, i)
    decreases |a| - i
  {
    if i < |a| { WaitersSame(a, b, addr, i + 1); }
  }

  lemma {:induction false} WakeCount(ts: Threads, addr: u64, max: int, woken: nat, i: nat)
    requires i <= |ts|
    ensures var (r, w) := WakeFrom(ts, addr, max, woken, i);
            && w == woken + Min(if max > woken then max - woken else 0, Waiters(ts, addr, i))
            && Waiters(r, addr, i) == Waiters(ts, addr, i) - (w - woken)
            && forall k | 0 <= k < i :: r[k] == ts[k]
    decreases |ts| - i
  {
    if i < |ts| && woken < max {
      if WaitsOn(ts[i], addr) {
        var ts' := ts[i := ts[i].(waiting := false)];
        WakeCount(ts', addr, max, woken + 1, i + 1);
        WaitersSame(ts, ts', addr, i + 1);
      } else {
        WakeCount(ts, addr, max, woken, i + 1);
      }
    }
  }

  /** A wake frees exactly min(max(0, limit), waiters) threads on its address, no others. */
  lemma {:induction false} WakeExact(ts: Threads, addr: u64, max: int)
    ensures var (r, woken) := Wake(ts, addr, max);
            && |r| == |ts|
            && woken == Min(if max > 0 then max else 0, Waiters(ts, addr, 0))
            && Waiters(r, addr, 0) == Waiters(ts, addr, 0) - woken
            && forall k | 0 <= k < |ts| :: r[k] == ts[k] || (WaitsOn(ts[k], addr) && r[k] == ts[k].(waiting := false))
  {
    WakeCount(ts, addr, max, 0, 0);
    WakeKeeps(ts, addr, max, 0, 0);
  }

  predicate IsWait(s: System, e: Event)
  {
    e.CallFutex? && (IntArg(s, 1) % 128 == 0 || IntArg(s, 1) % 128 == 9)
  }

  predicate IsWake(s: System, e: Event) {
    e.CallFutex? && (IntArg(s, 1) % 128 == 1 || IntArg(s, 1) % 128 == 10)
  }

  /** A switch leaves every waiting flag as it was. */
  lemma {:induction false} SwitchQuiet(s: System, t: int)
    requires Shape(s) && t < MAX_THREADS
    ensures forall i | 0 <= i < MAX_THREADS :: Switch(s, t).threads[i].waiting == s.threads[i].waiting
  {
  }

  /** Steps other than futex calls and exits start no wait and end none. */
  lemma {:induction false} QuietSteps(s: System, e: Event, i: nat)
    requires Inv(s) && Enabled(s, e) && !e.CallFutex? && !e.CallExit? && !e.CallExitGroup? && i < MAX_THREADS
    ensures var s' := Step(s, e);
            |s'.threads| == MAX_THREADS && (s'.threads[i].waiting ==> s.threads[i].waiting)
            && (s.threads[i].active ==> s'.threads[i].waiting == s.threads[i].waiting)
  {
    if e.CallYield? {
      if Next(s) >= 0 { SwitchQuiet(SetResult(s, 0), Next(s)); }
    } else if e.CallNanosleep? || e.CallPreempt? {
      if Next(s) >= 0 { SwitchQuiet(s, Next(s)); }
    } else if e.CallClone? {
      CountZero(s.threads);
    }
  }

  /** Changing the skipped slot does not change the search. */
  lemma {:induction false} NextSame(a: Threads, b: Threads, skip: int, i: nat)
    requires i <= |a| == |b| && forall k | 0 <= k < |a| && k != skip :: a[k] == b[k]
    ensures NextRunnable(a, skip, i) == NextRunnable(b, skip, i)
    decreases |a| - i
  {
    if i < |a| { NextSame(a, b, skip, i + 1); }
  }

  /** Every other slot is free or waiting: the wait that finds this breaks the deadlock. */
  predicate Deadlock(s: System)
    requires Shape(s)
  {
    NextRunnable(s.threads, s.current, 0) < 0
  }

  /** What a futex wait does to the waiting flags. */
  lemma {:induction false} WaitFlags(s: System, i: nat)
    requires Inv(s) && i < MAX_THREADS
    ensures var s', t := FutexWait(s), s.threads[i];
            var blocks := Word(s.mem, Arg(s, 0)) == IntArg(s, 2) && s.count > 1;
            && |s'.threads| == MAX_THREADS
            && (t.waiting && !s'.threads[i].waiting ==> Deadlock(s))
            && (!t.waiting && s'.threads[i].waiting ==>
                  blocks && i == s.current && s'.threads[i].futexAddr == Arg(s, 0)
                  && s'.threads[i].futexVal == IntArg(s, 2))
  {
    if Word(s.mem, Arg(s, 0)) == IntArg(s, 2) && s.count > 1 {
      var cur := s.threads[s.current].(waiting := true, futexAddr := Arg(s, 0), futexVal := IntArg(s, 2));
      var s1 := SetResult(s.(threads := s.threads[s.current := cur]), 0);
      WaiterExists(s, cur);
      NextSame(s.threads, s1.threads, s.current, 0);
      var next, waiter := Next(s1), FirstWaiter(s1.threads, s.current, 0);
      if next >= 0 {
        SwitchQuiet(s1, next);
      } else {
        SwitchQuiet(s1.(threads := s1.threads[waiter := s1.threads[waiter].(waiting := false)]), waiter);
      }
    }
  }

  /** A thread starts to wait only by its own futex call, on a word that holds what it expects. */
  lemma {:induction false} WaitsOnlyWhenEqual(s: System, e: Event, i: nat)
    requires Inv(s) && Enabled(s, e) && !Step(s, e).stopped && i < MAX_THREADS
    requires !s.threads[i].waiting && i < |Step(s, e).threads| && Step(s, e).threads[i].waiting
    ensures i == s.current && IsWait(s, e) && Word(s.mem, Arg(s, 0)) == IntArg(s, 2)
    ensures Step(s, e).threads[i].futexAddr == Arg(s, 0) && Step(s, e).threads[i].futexVal == IntArg(s, 2)
  {
    if e.CallFutex? {
      WakeKeeps(s.threads, Arg(s, 0), IntArg(s, 2), 0, 0);
      WaitFlags(s, i);
    } else if e.CallExit? {
      WakeKeeps(s.threads, s.threads[s.current].clearTid, 1, 0, 0);
    } else if !e.CallExitGroup? {
      QuietSteps(s, e, i);
    }
  }

  /** A waiter is released only by a wake on its address, by the exit of a thread whose
      clear-tid address it waits on, or by a deadlock break. */
  lemma {:induction false} ReleasedOnlyBy(s: System, e: Event, i: nat)
    requires Inv(s) && Enabled(s, e) && !Step(s, e).stopped && i < MAX_THREADS
    requires s.threads[i].active && s.threads[i].waiting && i < |Step(s, e).threads| && !Step(s, e).threads[i].waiting
    ensures || (IsWake(s, e) && Arg(s, 0) == s.threads[i].futexAddr)
            || (e.CallExit? && s.threads[s.current].clearTid == s.threads[i].futexAddr != 0)
            || (IsWait(s, e) && Deadlock(s))
  {
    if e.CallFutex? {
      WakeKeeps(s.threads, Arg(s, 0), IntArg(s, 2), 0, 0);
      WaitFlags(s, i);
    } else if e.CallExit? {
      WakeKeeps(s.threads, s.threads[s.current].clearTid, 1, 0, 0);
    } else if !e.CallExitGroup? {
      QuietSteps(s, e, i);
    }
  }
}
