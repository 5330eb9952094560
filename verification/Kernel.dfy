/** The scheduler's handlers, updating slots and the CPU in place. */
module Kernel {
  import opened Words
  import S = Sched

  class Machine {
    const threads: array<S.Thread>
    var current: nat
    var count: int
    var cpu: S.Context
    var mem: S.Words32
    var nextPid: int
    var stopped: bool

    /** The whole state as a value. */
    function View(): S.System
      reads this, threads
    {
      S.System(threads[..], current, count, cpu, mem, nextPid, stopped)
    }

    predicate Valid()
      reads this, threads
    {
      S.Shape(View())
    }

    /** No thread slots in use. */
    constructor (slot: S.Thread, cpu0: S.Context, mem0: S.Words32)
      ensures fresh(threads) && Valid() && count == 0 && current == 0 && !stopped && cpu == cpu0 && mem == mem0
      ensures forall i | 0 <= i < S.MAX_THREADS :: !threads[i].active
    {
      threads := new S.Thread[S.MAX_THREADS](_ => slot.(active := false, waiting := false));
      current, count, cpu, mem, nextPid, stopped := 0, 0, cpu0, mem0, 100, false;
    }

    /** next_runnable. */
    method FindRunnable(skip: int) returns (r: int)
      ensures r == S.NextRunnable(threads[..], skip, 0)
    {
      for i := 0 to threads.Length
        invariant S.NextRunnable(threads[..], skip, i) == S.NextRunnable(threads[..], skip, 0)
      {
        if i != skip && threads[i].active && !threads[i].waiting { return i; }
      }
      return -1;
    }

    /** wake. */
    method WakeThreads(addr: u64, maxWake: int) returns (woken: nat)
      modifies threads
      ensures (threads[..], woken) == S.Wake(old(threads[..]), addr, maxWake)
    {
      woken := 0;
      var i := 0;
      while i < threads.Length && woken < maxWake
        invariant 0 <= i <= threads.Length
        invariant S.WakeFrom(threads[..], addr, maxWake, woken, i) == S.Wake(old(threads[..]), addr, maxWake)
      {
        if threads[i].active && threads[i].waiting && threads[i].futexAddr == addr {
          ghost var before := threads[..];
          threads[i] := threads[i].(waiting := false);
          assert threads[..] == before[i := before[i].(waiting := false)];
          woken := woken + 1;
        }
        i := i + 1;
      }
    }

    /** add_thread. */
    method AddThread(tid: int) returns (slot: int)
      modifies this`count, threads
      ensures slot == S.FirstFree(old(threads[..]), 0)
      ensures slot < 0 ==> threads[..] == old(threads[..]) && count == old(count)
      ensures slot >= 0 ==> count == old(count) + 1 && threads[..] == old(threads[..])[slot := old(threads[..])[slot].(
                tid := tid, active := true, waiting := false, clearTid := 0, budget := S.QUANTUM)]
    {
      for i := 0 to threads.Length
        invariant threads[..] == old(threads[..]) && count == old(count)
        invariant S.FirstFree(threads[..], i) == S.FirstFree(threads[..], 0)
      {
        if !threads[i].active {
          threads[i] := threads[i].(tid := tid, active := true, waiting := false, clearTid := 0, budget := S.QUANTUM);
          count := count + 1;
          return i;
        }
      }
      return -1;
    }

    /** switch_to_thread. */
    method SwitchTo(target: int)
      requires Valid() && target < S.MAX_THREADS
      modifies this, threads
      ensures View() == S.Switch(old(View()), target)
    {
      if target < 0 || target == current { return; }
      threads[current] := threads[current].(ctx := cpu);
      cpu := threads[target].ctx;
      current := target;
      threads[target] := threads[target].(budget := S.QUANTUM);
    }

    method SetResult(v: int)
      modifies this`cpu
      ensures View() == S.SetResult(old(View()), v)
    {
      cpu := cpu.(regs := cpu.regs[S.A0 := Wrap64(v)]);
    }

    /** maybe_preempt. */
    method MaybePreempt()
      requires Valid()
      modifies this, threads
      ensures View() == S.Preempt(old(View()))
    {
      if count <= 1 { return; }
      var cur := threads[current];
      if cur.budget > 0 {
        threads[current] := cur.(budget := cur.budget - 1);
        return;
      }
      var next := FindRunnable(current);
      if next >= 0 {
        SwitchTo(next);
      } else {
        threads[current] := cur.(budget := S.QUANTUM);
      }
    }

    /** sys_sched_yield. */
    method SchedYield()
      requires Valid()
      modifies this, threads
      ensures View() == S.Yield(old(View()))
    {
      SetResult(0);
      if count > 1 {
        var next := FindRunnable(current);
        if next >= 0 { SwitchTo(next); }
      }
    }

    /** The deadlock break: release the first other waiter and run it. */
    method ReleaseWaiter() returns (found: bool)
      requires Valid()
      modifies this, threads
      ensures var s, w := old(View()), S.FirstWaiter(old(threads[..]), old(current), 0);
              && found == (w >= 0)
              && View() == if w >= 0
                           then S.Switch(s.(threads := s.threads[w := s.threads[w].(waiting := false)]), w) else s
    {
      for i := 0 to threads.Length
        invariant View() == old(View())
        invariant S.FirstWaiter(threads[..], current, i) == S.FirstWaiter(threads[..], current, 0)
      {
        if i != current && threads[i].active && threads[i].waiting {
          threads[i] := threads[i].(waiting := false);
          assert threads[..] == old(threads[..])[i := old(threads[..])[i].(waiting := false)];
          SwitchTo(i);
          return true;
        }
      }
      return false;
    }

    /** The FUTEX_WAIT half of sys_futex. */
    method FutexWait()
      requires Valid()
      modifies this, threads
      ensures View() == S.FutexWait(old(View()))
    {
      var addr: u64, expected: int := cpu.regs[10], Signed32(Wrap32(cpu.regs[12]));
      if S.Word(mem, addr) != expected {
        SetResult(S.EAGAIN);
        return;
      }
      if count > 1 {
        threads[current] := threads[current].(waiting := true, futexAddr := addr, futexVal := expected);
        SetResult(0);
        var next := FindRunnable(current);
        if next >= 0 {
          SwitchTo(next);
          return;
        }
        var found := ReleaseWaiter();
        if found { return; }
        threads[current] := threads[current].(waiting := false);
      }
      if count <= 1 {
        SetResult(S.EAGAIN);
        return;
      }
      mem := mem[addr := 0];
      SetResult(0);
    }

    /** sys_futex. */
    method Futex()
      requires Valid()
      modifies this, threads
      ensures View() == S.Futex(old(View()))
    {
      var cmd := Signed32(Wrap32(cpu.regs[11])) % 128;
      if cmd == 0 || cmd == 9 {
        FutexWait();
      } else if cmd == 1 || cmd == 10 {
        var woken := WakeThreads(cpu.regs[10], Signed32(Wrap32(cpu.regs[12])));
        SetResult(woken);
      } else {
        SetResult(S.ENOSYS);
      }
    }

    /** The first half of a thread clone: tid, parent tid word, scheduler set-up. */
    method PrepareClone()
      requires Valid()
      modifies this, threads
      ensures View() == S.CloneBase(old(View()))
    {
      var tid := nextPid;
      nextPid := nextPid + 1;
      if S.HasFlag(cpu.regs[10], S.CLONE_PARENT_SETTID) && cpu.regs[12] != 0 { mem := mem[cpu.regs[12] := tid]; }
      if count == 0 {
        threads[0] := threads[0].(tid := nextPid - 2, active := true, waiting := false);
        current, count := 0, 1;
      }
    }

    /** The child's stack pointer, result and thread pointer. */
    method StartChild()
      modifies this`cpu
      ensures View() == old(View()).(cpu := S.ChildContext(old(View())))
    {
      var flags, tls := cpu.regs[10], cpu.regs[13];
      cpu := cpu.(regs := cpu.regs[2 := cpu.regs[11]]);
      SetResult(0);
      if S.HasFlag(flags, S.CLONE_SETTLS) { cpu := cpu.(regs := cpu.regs[4 := tls]); }
    }

    /** Saves the parent and fills the child's slot. */
    method FillSlots(slot: nat, tid: int)
      requires Valid() && slot < S.MAX_THREADS && slot != current
      modifies threads
      ensures var ts, clear := old(threads[..]), S.HasFlag(cpu.regs[10], S.CLONE_CHILD_CLEARTID);
              threads[..] == ts[current := ts[current].(ctx := cpu.Result(tid))]
                               [slot := ts[slot].(clearTid := if clear then cpu.regs[14] else ts[slot].clearTid,
                                                  ctx := ts[slot].ctx.(pc := cpu.pc))]
    {
      threads[current] := threads[current].(ctx := cpu.Result(tid));
      if S.HasFlag(cpu.regs[10], S.CLONE_CHILD_CLEARTID) { threads[slot] := threads[slot].(clearTid := cpu.regs[14]); }
      threads[slot] := threads[slot].(ctx := threads[slot].ctx.(pc := cpu.pc));
    }

    /** The thread form of sys_clone. */
    method CloneThread()
      requires Valid() && (count != 0 ==> threads[current].active)
      modifies this, threads
      ensures View() == S.CloneThread(old(View()))
    {
      ghost var s := View();
      var tid := nextPid;
      PrepareClone();
      ghost var base := View();
      assert base.threads[base.current].active;
      var slot := AddThread(tid);
      if slot < 0 {
        SetResult(tid);
        return;
      }
      FillSlots(slot, tid);
      assert threads[..] == base.threads[current := base.threads[current].(ctx := cpu.Result(tid))]
                                        [slot := S.ChildThread(s, base.threads[slot])];
      StartChild();
      current := slot;
    }

    /** sys_exit outside a fork child. */
    method Exit()
      requires Valid()
      modifies this, threads
      ensures View() == S.Exit(old(View()))
    {
      var code := Signed32(Wrap32(cpu.regs[10]));
      if count > 1 && current != 0 {
        var addr := threads[current].clearTid;
        if addr != 0 {
          mem := mem[addr := 0];
          var woken := WakeThreads(addr, 1);
        }
        threads[current] := threads[current].(active := false, waiting := false);
        count := count - 1;
        var next := FindRunnable(current);
        if next >= 0 {
          cpu := threads[next].ctx;
          current := next;
          return;
        }
      }
      stopped := true;
      SetResult(code);
    }

    /** sys_exit_group outside a fork child. */
    method ExitGroup()
      requires Valid()
      modifies this, threads
      ensures View() == S.ExitGroup(old(View()))
    {
      var code := Signed32(Wrap32(cpu.regs[10]));
      for i := 0 to threads.Length
        invariant forall k | 0 <= k < i :: threads[k] == old(threads[k]).(active := false, waiting := false)
        invariant forall k | i <= k < threads.Length :: threads[k] == old(threads[k])
        invariant View().(threads := []) == old(View()).(threads := [])
      {
        threads[i] := threads[i].(active := false, waiting := false);
      }
      count, stopped := 0, true;
      assert threads[..] == S.AllInactive(old(threads[..]));
      SetResult(code);
    }
  }
}
