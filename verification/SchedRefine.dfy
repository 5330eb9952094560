/** One CPU with saved slots refines a machine where each thread owns its registers. */
module SchedRefine {
  import opened Words
  import opened Sched
  import opened SchedProof

  /** The machine a guest program sees: a register file per thread and one of them running. */
  datatype Owned = Owned(files: map<nat, Context>, running: nat, mem: Words32)

  datatype Action =
    | Run(cpu: Context, mem: Words32)
    | Return(value: Option<int>, next: nat)
    | Spawn(tid: int, slot: nat, child: Context, mem: Words32)
    | Leave(next: nat, mem: Words32)

  /** A thread changes only its own registers, except that it may start another one. */
  function Act(o: Owned, a: Action): Owned
    requires o.running in o.files
  {
    match a
    case Run(cpu, mem) => o.(files := o.files[o.running := cpu], mem := mem)
    case Return(v, next) =>
      var c := o.files[o.running];
      o.(files := o.files[o.running := if v.Some? then c.Result(v.value) else c], running := next)
    case Spawn(tid, slot, child, mem) =>
      Owned(o.files[o.running := o.files[o.running].Result(tid)][slot := child], slot, mem)
    case Leave(next, mem) => Owned(o.files - {o.running}, next, mem)
  }

  // ---- abstraction ----

  function ContextOf(s: System, i: nat): Context
    requires Shape(s) && i < MAX_THREADS
  {
    if i == s.current then s.cpu else s.threads[i].ctx
  }

  function Alive(s: System): set<nat>
    requires Shape(s)
  {
    set i: nat | i < MAX_THREADS && (s.threads[i].active || i == s.current)
  }

  function View(s: System): Owned
    requires Shape(s)
  {
    Owned(map i: nat | i in Alive(s) :: ContextOf(s, i), s.current, s.mem)
  }

  /** What the current thread's call does, in terms of the owned machine. */
  function ActionOf(s: System, e: Event): Action
    requires Enabled(s, e)
  {
    var cmd := IntArg(s, 1) % 128;
    if e.Guest? then Run(e.cpu, e.mem)
    else if e.CallClone? then
      var s1 := CloneBase(s);
      var slot := FirstFree(s1.threads, 0);
      if slot < 0 then Run(s.cpu.Result(s.nextPid), s1.mem) else Spawn(s.nextPid, slot, ChildContext(s), s1.mem)
    else if e.CallFutex? && (cmd == 0 || cmd == 9) then
      if Word(s.mem, Arg(s, 0)) == IntArg(s, 2) && s.count > 1 then Return(Some(0), Step(s, e).current)
      else Return(Some(EAGAIN), s.current)
    else if e.CallFutex? && (cmd == 1 || cmd == 10) then
      Return(Some(Wake(s.threads, Arg(s, 0), IntArg(s, 2)).1), s.current)
    else if e.CallFutex? then Return(Some(ENOSYS), s.current)
    else if e.CallYield? then Return(Some(0), Step(s, e).current)
    else if e.CallNanosleep? then
      Return(if s.count > 1 && Next(s) >= 0 then None else Some(0), Step(s, e).current)
    else if e.CallSetTid? then Return(Some(if s.count > 0 then s.threads[s.current].tid else 1), s.current)
    else if e.CallPreempt? then Return(None, Step(s, e).current)
    else Leave(Step(s, e).current, Step(s, e).mem)
  }

  /** A switch moves on; every thread keeps its registers. */
  lemma {:induction false} SwitchRefines(s: System, t: int)
    requires Shape(s) && 0 <= t < MAX_THREADS && s.threads[t].active && s.threads[s.current].active && t != s.current
    ensures Shape(Switch(s, t)) && View(Switch(s, t)) == View(s).(running := t)
  {
    var s' := Switch(s, t);
    assert Alive(s') == Alive(s);
    assert forall i | i in Alive(s) :: ContextOf(s', i) == ContextOf(s, i);
  }

  lemma {:induction false} ResultRefines(s: System, v: int)
    requires Shape(s)
    ensures View(SetResult(s, v)) == View(s).(files := View(s).files[s.current := s.cpu.Result(v)])
  {
    assert Alive(SetResult(s, v)) == Alive(s);
    assert s.current in Alive(s);
  }

  /** Slots that keep their activity and saved contexts look the same. */
  lemma {:induction false} SameAbs(s: System, s': System)
    requires Shape(s) && Shape(s') && s'.current == s.current && s'.cpu == s.cpu && s'.mem == s.mem
    requires forall i | 0 <= i < MAX_THREADS ::
               s'.threads[i].active == s.threads[i].active && s'.threads[i].ctx == s.threads[i].ctx
    ensures View(s') == View(s)
  {
    assert Alive(s') == Alive(s);
  }

  lemma {:induction false} PreemptRefines(s: System)
    requires Inv(s)
    ensures Shape(Preempt(s)) && View(Preempt(s)) == Act(View(s), Return(None, Preempt(s).current))
  {
    assert s.current in Alive(s);
    assert View(s).files[s.current := View(s).files[s.current]] == View(s).files;
    if s.count > 1 && s.threads[s.current].budget == 0 && Next(s) >= 0 {
      SwitchRefines(s, Next(s));
    } else {
      SameAbs(s, Preempt(s));
    }
  }

  lemma {:induction false} WaitRefines(s: System)
    requires Inv(s) && Word(s.mem, Arg(s, 0)) == IntArg(s, 2) && s.count > 1
    ensures Shape(FutexWait(s)) && View(FutexWait(s)) == Act(View(s), Return(Some(0), FutexWait(s).current))
  {
    var cur := s.threads[s.current].(waiting := true, futexAddr := Arg(s, 0), futexVal := IntArg(s, 2));
    var s0 := s.(threads := s.threads[s.current := cur]);
    var s1 := SetResult(s0, 0);
    WaiterExists(s, cur);
    SameAbs(s, s0);
    ResultRefines(s0, 0);
    assert s.current in Alive(s);
    var next, waiter := Next(s1), FirstWaiter(s1.threads, s.current, 0);
    if next >= 0 {
      SwitchRefines(s1, next);
    } else {
      var s2 := s1.(threads := s1.threads[waiter := s1.threads[waiter].(waiting := false)]);
      SameAbs(s1, s2);
      SwitchRefines(s2, waiter);
    }
  }

  lemma {:induction false} WakeRefines(s: System)
    requires Inv(s)
    ensures var woken := Wake(s.threads, Arg(s, 0), IntArg(s, 2)).1;
            Shape(FutexWake(s)) && View(FutexWake(s)) == Act(View(s), Return(Some(woken), s.current))
  {
    var (ts, woken) := Wake(s.threads, Arg(s, 0), IntArg(s, 2));
    WakeKeeps(s.threads, Arg(s, 0), IntArg(s, 2), 0, 0);
    SameAbs(s, s.(threads := ts));
    ResultRefines(s.(threads := ts), woken);
    assert s.current in Alive(s);
  }

  lemma {:induction false} YieldRefines(s: System)
    requires Inv(s)
    ensures Shape(Yield(s)) && View(Yield(s)) == Act(View(s), Return(Some(0), Yield(s).current))
  {
    ResultRefines(s, 0);
    assert s.current in Alive(s);
    if s.count > 1 && Next(s) >= 0 { SwitchRefines(SetResult(s, 0), Next(s)); }
  }

  /** nanosleep records its result exactly when it does not switch. */
  lemma {:induction false} NanosleepRefines(s: System)
    requires Inv(s)
    ensures var switches := s.count > 1 && Next(s) >= 0;
            Shape(Nanosleep(s))
            && View(Nanosleep(s)) == Act(View(s), Return(if switches then None else Some(0), Nanosleep(s).current))
  {
    ResultRefines(s, 0);
    assert s.current in Alive(s);
    assert View(s).files[s.current := View(s).files[s.current]] == View(s).files;
    if s.count > 1 && Next(s) >= 0 { SwitchRefines(s, Next(s)); }
  }

  lemma {:induction false} BaseAbs(s: System)
    requires Inv(s)
    ensures var s1 := CloneBase(s); Shape(s1) && s1.cpu == s.cpu && View(s1) == View(s).(mem := s1.mem)
  {
    BaseInv(s);
    var s1 := CloneBase(s);
    CountZero(s.threads);
    assert Alive(s1) == Alive(s);
    assert forall i | i in Alive(s) :: ContextOf(s1, i) == ContextOf(s, i);
  }

  lemma {:induction false} SpawnRefines(s: System, slot: nat, tid: int, child: Thread, cpu: Context)
    requires Inv(s) && s.count > 0 && slot < MAX_THREADS && !s.threads[slot].active && child.active
    ensures var s' := Spawned(s, slot, s.cpu.Result(tid), child, cpu);
            Shape(s') && View(s') == Act(View(s), Spawn(tid, slot, cpu, s.mem))
  {
    var s' := Spawned(s, slot, s.cpu.Result(tid), child, cpu);
    assert s.current in Alive(s);
    assert Alive(s') == Alive(s) + {slot};
    assert forall i | i in Alive(s') ::
      ContextOf(s', i) == if i == slot then cpu else if i == s.current then s.cpu.Result(tid) else ContextOf(s, i);
  }

  lemma {:induction false} CloneRefines(s: System)
    requires Inv(s)
    ensures var s1 := CloneBase(s);
            var slot := FirstFree(s1.threads, 0);
            Shape(CloneThread(s)) && View(CloneThread(s)) == Act(View(s),
              if slot < 0 then Run(s.cpu.Result(s.nextPid), s1.mem)
              else Spawn(s.nextPid, slot, ChildContext(s), s1.mem))
  {
    BaseAbs(s);
    BaseInv(s);
    var s1 := CloneBase(s);
    var slot := FirstFree(s1.threads, 0);
    if slot < 0 {
      ResultRefines(s1, s.nextPid);
    } else {
      SpawnRefines(s1, slot, s.nextPid, ChildThread(s, s1.threads[slot]), ChildContext(s));
    }
  }

  lemma {:induction false} ExitRefines(s: System)
    requires Inv(s) && !s.stopped && !Exit(s).stopped
    ensures Shape(Exit(s)) && View(Exit(s)) == Act(View(s), Leave(Exit(s).current, Exit(s).mem))
  {
    var addr, s' := s.threads[s.current].clearTid, Exit(s);
    WakeKeeps(s.threads, addr, 1, 0, 0);
    assert s.current in Alive(s);
    assert Alive(s') == Alive(s) - {s.current};
    assert forall i | i in Alive(s') :: ContextOf(s', i) == ContextOf(s, i);
  }

  /** Every step of the scheduler is a step of the machine with owned registers. */
  lemma {:induction false} StepRefines(s: System, e: Event)
    requires Inv(s) && Enabled(s, e) && !Step(s, e).stopped
    ensures Shape(Step(s, e)) && s.current in View(s).files && View(Step(s, e)) == Act(View(s), ActionOf(s, e))
  {
    assert s.current in Alive(s);
    match e
    case Guest(cpu, mem) => assert Alive(Step(s, e)) == Alive(s);
    case CallClone => CloneRefines(s);
    case CallFutex => FutexRefines(s);
    case CallYield => YieldRefines(s);
    case CallNanosleep => NanosleepRefines(s);
    case CallSetTid => SetTidRefines(s);
    case CallPreempt => PreemptRefines(s);
    case CallExit => ExitRefines(s);
    case CallExitGroup => assert false;
  }

  lemma {:induction false} SetTidRefines(s: System)
    requires Inv(s)
    ensures Shape(SetTidAddress(s))
    ensures View(SetTidAddress(s))
            == Act(View(s), Return(Some(if s.count > 0 then s.threads[s.current].tid else 1), s.current))
  {
    assert s.current in Alive(s);
    if s.count > 0 {
      var cur := s.threads[s.current].(clearTid := Arg(s, 0));
      var s1 := s.(threads := s.threads[s.current := cur]);
      SameAbs(s, s1);
      ResultRefines(s1, cur.tid);
    } else {
      ResultRefines(s, 1);
    }
  }

  lemma {:induction false} FutexRefines(s: System)
    requires Inv(s) && Enabled(s, CallFutex)
    ensures Shape(Futex(s)) && View(Futex(s)) == Act(View(s), ActionOf(s, CallFutex))
  {
    var cmd := IntArg(s, 1) % 128;
    assert s.current in Alive(s);
    if cmd == 0 || cmd == 9 {
      if Word(s.mem, Arg(s, 0)) == IntArg(s, 2) && s.count > 1 {
        WaitRefines(s);
      } else {
        ResultRefines(s, EAGAIN);
      }
    } else if cmd == 1 || cmd == 10 {
      WakeRefines(s);
    } else {
      ResultRefines(s, ENOSYS);
    }
  }
}
