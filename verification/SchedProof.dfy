/** What every run of the scheduler keeps. */
module SchedProof {
  import opened Words
  import opened Sched

  // ---- counting ----

  function Count(ts: Threads): nat {
    if ts == [] then 0 else Count(ts[..|ts| - 1]) + if ts[|ts| - 1].active then 1 else 0
  }

  lemma {:induction false} CountUpdate(ts: Threads, i: nat, t: Thread)
    requires i < |ts|
    ensures Count(ts[i := t]) == Count(ts) - (if ts[i].active then 1 else 0) + (if t.active then 1 else 0)
    decreases |ts|
  {
    var n := |ts| - 1;
    if i == n {
      assert ts[i := t][..n] == ts[..n];
    } else {
      assert ts[i := t][..n] == ts[..n][i := t];
      CountUpdate(ts[..n], i, t);
    }
  }

  lemma {:induction false} CountSame(a: Threads, b: Threads)
    requires |a| == |b| && forall k | 0 <= k < |a| :: a[k].active == b[k].active
    ensures Count(a) == Count(b)
    decreases |a|
  {
    if a != [] { CountSame(a[..|a| - 1], b[..|b| - 1]); }
  }

  lemma {:induction false} CountZero(ts: Threads)
    ensures Count(ts) == 0 <==> forall k | 0 <= k < |ts| :: !ts[k].active
    decreases |ts|
  {
    if ts != [] {
      CountZero(ts[..|ts| - 1]);
      assert ts == ts[..|ts| - 1] + [ts[|ts| - 1]];
    }
  }

  /** Besides slot i, another one is active when the count is above one. */
  lemma {:induction false} AnotherActive(ts: Threads, i: nat)
    requires i < |ts| && ts[i].active && Count(ts) > 1
    ensures exists k :: 0 <= k < |ts| && k != i && ts[k].active
  {
    var off := ts[i := ts[i].(active := false)];
    CountUpdate(ts, i, ts[i].(active := false));
    CountZero(off);
    var k :| 0 <= k < |off| && off[k].active;
    assert ts[k].active && k != i;
  }

  // ---- the invariant ----

  /** Count is the number of active slots; once there are threads, slot 0 is active and the
      current slot is active and not waiting. */
  ghost predicate Inv(s: System) {
    && Shape(s) && s.count == Count(s.threads)
    && (s.count == 0 ==> s.current == 0)
    && (s.count > 0 ==> s.threads[0].active && Runnable(s.threads[s.current]))
  }

  lemma {:induction false} WakeKeeps(ts: Threads, addr: u64, max: int, woken: nat, i: nat)
    requires i <= |ts|
    ensures var r := WakeFrom(ts, addr, max, woken, i).0;
            |r| == |ts| && forall k | 0 <= k < |ts| ::
              r[k] == ts[k] || (i <= k && WaitsOn(ts[k], addr) && r[k] == ts[k].(waiting := false))
    decreases |ts| - i
  {
    if i < |ts| && woken < max {
      if WaitsOn(ts[i], addr) {
        WakeKeeps(ts[i := ts[i].(waiting := false)], addr, max, woken + 1, i + 1);
      } else {
        WakeKeeps(ts, addr, max, woken, i + 1);
      }
    }
  }

  lemma {:induction false} SwitchInv(s: System, t: int)
    requires Inv(s) || (Shape(s) && s.count == Count(s.threads) && s.threads[0].active && s.threads[s.current].active)
    requires 0 <= t < MAX_THREADS && Runnable(s.threads[t]) && t != s.current && s.count > 0
    ensures Inv(Switch(s, t))
  {
    CountSame(s.threads, Switch(s, t).threads);
  }

  lemma {:induction false} PreemptInv(s: System)
    requires Inv(s)
    ensures Inv(Preempt(s))
  {
    if s.count > 1 {
      if s.threads[s.current].budget == 0 && Next(s) >= 0 { SwitchInv(s, Next(s)); }
      CountSame(s.threads, Preempt(s).threads);
    }
  }

  /** When the only runnable thread starts to wait, some other thread waits: the deadlock
      break finds it, and the last-resort write to the futex word is never reached. */
  lemma {:induction false} WaiterExists(s: System, cur: Thread)
    requires Inv(s) && s.count > 1
             && cur == s.threads[s.current].(waiting := true, futexAddr := cur.futexAddr, futexVal := cur.futexVal)
    ensures var ts := s.threads[s.current := cur];
            NextRunnable(ts, s.current, 0) >= 0 || FirstWaiter(ts, s.current, 0) >= 0
  {
    AnotherActive(s.threads, s.current);
    var k :| 0 <= k < |s.threads| && k != s.current && s.threads[k].active;
    assert s.threads[s.current := cur][k] == s.threads[k];
  }

  lemma {:induction false} FutexWaitInv(s: System)
    requires Inv(s)
    ensures Inv(FutexWait(s))
  {
    var addr, expected := Arg(s, 0), IntArg(s, 2);
    if Word(s.mem, addr) == expected && s.count > 1 {
      var cur := s.threads[s.current].(waiting := true, futexAddr := addr, futexVal := expected);
      var s1 := SetResult(s.(threads := s.threads[s.current := cur]), 0);
      WaiterExists(s, cur);
      CountSame(s.threads, s1.threads);
      var next, waiter := Next(s1), FirstWaiter(s1.threads, s.current, 0);
      if next >= 0 {
        SwitchInv(s1, next);
      } else {
        var s2 := s1.(threads := s1.threads[waiter := s1.threads[waiter].(waiting := false)]);
        CountSame(s1.threads, s2.threads);
        SwitchInv(s2, waiter);
      }
    }
  }

  lemma {:induction false} FutexWakeInv(s: System)
    requires Inv(s)
    ensures Inv(FutexWake(s))
  {
    WakeKeeps(s.threads, Arg(s, 0), IntArg(s, 2), 0, 0);
    CountSame(s.threads, FutexWake(s).threads);
  }

  lemma {:induction false} InitInv(s: System)
    requires Inv(s)
    ensures Inv(Initialised(s)) && Initialised(s).count > 0
  {
    if s.count == 0 {
      CountZero(s.threads);
      CountUpdate(s.threads, 0, Initialised(s).threads[0]);
    }
  }

  lemma {:induction false} SpawnInv(s: System, slot: nat, parent: Context, child: Thread, cpu: Context)
    requires Inv(s) && s.count > 0 && slot < MAX_THREADS && !s.threads[slot].active && Runnable(child)
    ensures Inv(Spawned(s, slot, parent, child, cpu))
  {
    var saved := s.threads[s.current].(ctx := parent);
    CountUpdate(s.threads, s.current, saved);
    CountUpdate(s.threads[s.current := saved], slot, child);
  }

  lemma {:induction false} BaseInv(s: System)
    requires Inv(s)
    ensures Inv(CloneBase(s)) && CloneBase(s).count > 0
  {
    var store := HasFlag(Arg(s, 0), CLONE_PARENT_SETTID) && Arg(s, 2) != 0;
    InitInv(s.(nextPid := s.nextPid + 1, mem := if store then s.mem[Arg(s, 2) := s.nextPid] else s.mem));
  }

  lemma {:induction false} CloneInv(s: System)
    requires Inv(s)
    ensures Inv(CloneThread(s))
  {
    BaseInv(s);
    var s1 := CloneBase(s);
    var slot := FirstFree(s1.threads, 0);
    if slot >= 0 {
      SpawnInv(s1, slot, s.cpu.Result(s.nextPid), ChildThread(s, s1.threads[slot]), ChildContext(s));
    }
  }

  lemma {:induction false} ExitInv(s: System)
    requires Inv(s) && !Exit(s).stopped && !s.stopped
    ensures Inv(Exit(s))
  {
    var addr := s.threads[s.current].clearTid;
    var woken := if addr != 0 then Wake(s.threads, addr, 1).0 else s.threads;
    WakeKeeps(s.threads, addr, 1, 0, 0);
    CountSame(s.threads, woken);
    CountUpdate(woken, s.current, woken[s.current].(active := false, waiting := false));
  }

  /** Every step keeps the invariant until the machine stops. */
  lemma {:induction false} StepInv(s: System, e: Event)
    requires Inv(s) && Enabled(s, e)
    ensures Step(s, e).stopped || Inv(Step(s, e))
  {
    match e
    case Guest(_, _) =>
    case CallClone => CloneInv(s);
    case CallFutex => FutexWaitInv(s); FutexWakeInv(s);
    case CallYield => if s.count > 1 && Next(s) >= 0 { SwitchInv(SetResult(s, 0), Next(s)); }
    case CallNanosleep => if s.count > 1 && Next(s) >= 0 { SwitchInv(s, Next(s)); }
    case CallSetTid => CountSame(s.threads, SetTidAddress(s).threads);
    case CallPreempt => PreemptInv(s);
    case CallExit => if !Exit(s).stopped { ExitInv(s); }
    case CallExitGroup =>
  }
}
