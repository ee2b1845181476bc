/** The scheduler's code on its mutable statics, proved against the step system. */
module SchedulerCode {
  import opened Wrappers
  import opened Schedule
  import opened Scheduler

  class Kernel {
    var threads: seq<Thread>
    var current: nat
    var handoff: nat
    var ticks: nat
    var cpu: Cpu
    var kernelCr3: nat
    var halted: bool
    ghost var roots: map<nat, Phase>
    ghost var nextId: nat

    ghost function View(): State
      reads this
    {
      State(threads, current, handoff, ticks, cpu, kernelCr3, roots, nextId, halted)
    }

    predicate Runnable(i: nat)
      reads this
    {
      i < |threads| && !threads[i].dead && threads[i].wake <= ticks
    }

    predicate IsHeld(i: nat)
      reads this
    {
      i < |threads| && threads[i].demoted && threads[i].nextTurn > ticks
    }

    /** Make slot `i`'s address space and ring-0 entry stack the live ones. */
    method Activate(i: nat)
      requires i < |threads|
      modifies `cpu
      ensures cpu.cr3 == if threads[i].cr3 == 0 then old(cpu).cr3 else threads[i].cr3
      ensures cpu.rsp0 == if threads[i].rsp0 != 0 then threads[i].rsp0 else old(cpu).rsp0
      ensures cpu.rsp == old(cpu).rsp && cpu.fpu == old(cpu).fpu
    {
      var want := if threads[i].cr3 == 0 then cpu.cr3 else threads[i].cr3;
      if cpu.cr3 != want {
        cpu := cpu.(cr3 := want);
      }
      if threads[i].rsp0 != 0 {
        cpu := cpu.(rsp0 := threads[i].rsp0);
      }
    }

    /** Kill the interrupted thread if it overran its stack. */
    method CheckStack()
      requires current < |threads|
      modifies `threads
      ensures View() == CheckCanary(old(View())) && |threads| == |old(threads)|
    {
      if current != 0 && !threads[current].dead && !threads[current].intact {
        threads := threads[current := threads[current].(dead := true)];
      }
    }

    method Choose(timerTick: bool, due: bool) returns (next: Option<nat>)
      requires current < |threads|
      modifies `handoff
      ensures next == Pick(old(View()), timerTick, due)
      ensures handoff == if Boosted(old(View()), due) then old(handoff) else NO_HINT
    {
      hide NextRunnableHeld;
      ghost var s := View();
      if due && Runnable(0) {
        return Some(0);
      }
      var hint := handoff;
      handoff := NO_HINT;
      if !timerTick && hint < |threads| && hint != current && Runnable(hint) {
        return Some(hint);
      }
      var ready := seq(|threads|, i requires 0 <= i reads this => Runnable(i));
      var held := seq(|threads|, i requires 0 <= i reads this => IsHeld(i));
      assert ready == ReadyMap(s) && held == HeldMap(s);
      next := NextRunnableHeld(current, ready, held);
    }

    /** Charge a demoted slot for its turn, then save, switch and load unless it already runs. */
    method RunNext(next: Option<nat>)
      requires current < |threads| && (next.Some? ==> next.value < |threads|)
      modifies `threads, `current, `cpu, `halted
      ensures View() == Resume(old(View()), next)
    {
      match next {
        case None =>
          halted := true;
        case Some(i) =>
          if threads[i].demoted {
            threads := threads[i := threads[i].(nextTurn := ticks + DEMOTED_GAP)];
          }
          if i == current {
            return;
          }
          threads := threads[current := threads[current].(fpu := cpu.fpu)];
          threads := threads[current := threads[current].(rsp := cpu.rsp)];
          current := i;
          cpu := cpu.(fpu := threads[i].fpu);
          Activate(i);
          cpu := cpu.(rsp := threads[i].rsp);
      }
    }

    method Reschedule(timerTick: bool, due: bool)
      requires current < |threads|
      modifies this
      ensures View() == Resched(old(View()), timerTick, due)
    {
      hide Resume, Boosted;
      CheckStack();
      var next := Choose(timerTick, due);
      RunNext(next);
    }

    /** Kill the running thread and jump into another one. */
    method KillRunning()
      requires current < |threads|
      modifies this
      ensures View() == KillCurrent(old(View()))
    {
      hide NextRunnable;
      threads := threads[current := threads[current].(dead := true)];
      ghost var s1 := View();
      var ready := seq(|threads|, i requires 0 <= i reads this => Runnable(i));
      assert ready == ReadyMap(s1);
      var next := NextRunnable(current, ready);
      assert next == PickAny(s1);
      match next {
        case None =>
          halted := true;
        case Some(i) =>
          current := i;
          cpu := cpu.(fpu := threads[i].fpu);
          Activate(i);
          cpu := cpu.(rsp := threads[i].rsp);
      }
    }

    /** Leave `root` if it is the live one. */
    method ReleaseRoot(root: nat)
      requires Enabled(View(), ReleaseCr3(root))
      modifies `cpu, `roots
      ensures View() == Step(old(View()), ReleaseCr3(root))
      ensures kernelCr3 != 0 && root != kernelCr3 ==> cpu.cr3 != root
    {
      if cpu.cr3 == root && kernelCr3 != 0 {
        cpu := cpu.(cr3 := kernelCr3);
      }
      roots := roots[root := Unborrowed];
    }
  }
}
