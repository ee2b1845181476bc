/** What holds over whole runs of the scheduler. */
module SchedulerRuns {
  import opened Wrappers
  import opened Schedule
  import opened Scheduler

  /** `Boot`: the boot context registered as thread 0 on the kernel's own page tables. */
  datatype Run = Boot(kernelCr3: nat, rsp: nat, fpu: Image) | Then(prev: Run, e: Event)

  function Now(r: Run): State
    requires Legal(r)
    decreases r, 1
  {
    match r
    case Boot(k, rsp, fpu) =>
      State([Thread(0, 0, 0, 0, fpu, true, 0, false, false, 0, false)], 0, NO_HINT, 0,
            Cpu(rsp, fpu, k, 0), k, map[], 1, false)
    case Then(p, e) => Step(Now(p), e)
  }

  predicate Legal(r: Run)
    decreases r, 0
  {
    match r
    case Boot(k, _, _) => k != 0
    case Then(p, e) => Legal(p) && Enabled(Now(p), e)
  }

  predicate Continues(r: Run, past: Run) {
    r == past || (r.Then? && Continues(r.prev, past))
  }

  lemma {:induction false} RunInv(r: Run)
    requires Legal(r)
    ensures Inv(Now(r))
  {
    if r.Then? {
      RunInv(r.prev);
      StepKeepsInv(Now(r.prev), r.e);
    }
  }

  lemma Extend(r: Run, e: Event)
    requires Legal(r) && Enabled(Now(r), e)
    ensures Legal(Then(r, e)) && Now(Then(r, e)) == Step(Now(r), e)
  {
  }

  // ---- page-table roots ----

  /** Freed page tables are never the live ones, although kernel threads run on whatever root happens
      to be loaded. */
  lemma FreedRootNeverLive(r: Run, root: nat)
    requires Legal(r)
    requires root in Now(r).roots && Now(r).roots[root].Freed?
    ensures Now(r).cpu.cr3 != root
    ensures forall i | 0 <= i < |Now(r).threads| && Now(r).threads[i].cr3 == root :: Now(r).threads[i].dead
  {
    RunInv(r);
    var s := Now(r);
    assert forall i | 0 <= i < |s.threads| :: SlotOk(s.threads[i], i, s.current, s.roots, s.nextId);
  }

  // ---- what a reschedule does ----

  /** Slot `i` before and after a reschedule that runs `next`. */
  predicate SlotAfter(s: State, s': State, i: nat) {
    && |s'.threads| == |s.threads| && i < |s.threads|
    && var t, t' := s.threads[i], s'.threads[i];
       && t'.id == t.id && (t.dead ==> t'.dead) && t'.demoted == t.demoted && t'.wake == t.wake
       && t'.intact == t.intact && t'.cr3 == t.cr3 && t'.rsp0 == t.rsp0
       && (i != s.current ==> t'.rsp == t.rsp && t'.fpu == t.fpu && t'.dead == t.dead)
  }

  /** The processor runs `next` with the context its slot held; a thread left behind had its context saved. */
  predicate Ran(s: State, s': State, next: nat) {
    && next < |s.threads| && s'.current == next && s'.halted == s.halted
    && (next == s.current ==> s'.cpu == s.cpu)
    && (next != s.current ==>
          && s'.cpu.rsp == s.threads[next].rsp && s'.cpu.fpu == s.threads[next].fpu
          && s.current < |s'.threads| && s'.threads[s.current].rsp == s.cpu.rsp
              && s'.threads[s.current].fpu == s.cpu.fpu)
  }

  lemma ResumeFacts(s: State, next: Option<nat>, i: nat)
    requires s.current < |s.threads| && i < |s.threads| && (next.Some? ==> next.value < |s.threads|)
    ensures SlotAfter(s, Resume(s, next), i) && Resume(s, next).ticks == s.ticks
    ensures i < |Resume(s, next).threads| && Resume(s, next).threads[i].dead == s.threads[i].dead
    ensures if next.None? then Resume(s, next) == s.(halted := true) else Ran(s, Resume(s, next), next.value)
    ensures i < |Resume(s, next).threads| && Resume(s, next).threads[i].nextTurn ==
              if next == Some(i) && s.threads[i].demoted then s.ticks + DEMOTED_GAP else s.threads[i].nextTurn
  {
  }

  lemma ReschedFacts(s: State, timerTick: bool, due: bool, i: nat)
    requires s.current < |s.threads| && i < |s.threads|
    ensures var s' := Resched(s, timerTick, due);
            var next := Pick(CheckCanary(s), timerTick, due);
            && SlotAfter(s, s', i) && s'.ticks == s.ticks
            && (s.threads[i].intact ==> s'.threads[i].dead == s.threads[i].dead)
            && (if next.None? then s'.halted && s'.current == s.current
                else Ran(s, s', next.value) && !s.threads[next.value].dead)
            && s'.threads[i].nextTurn ==
                 if next == Some(i) && s.threads[i].demoted then s.ticks + DEMOTED_GAP else s.threads[i].nextTurn
  {
    hide NextRunnableHeld, ReadyMap, HeldMap, Boosted, Hinted, Resume;
    var s1 := CheckCanary(s);
    var s2 := s1.(handoff := if Boosted(s1, due) then s1.handoff else NO_HINT);
    ResumeFacts(s2, Pick(s1, timerTick, due), i);
  }

  lemma KillFacts(s: State, i: nat)
    requires s.current < |s.threads| && i < |s.threads|
    ensures var s' := KillCurrent(s);
            var next := PickAny(WithThread(s, s.current, s.threads[s.current].(dead := true)));
            && SlotAfter(s, s', i) && s'.ticks == s.ticks && s'.threads[i].nextTurn == s.threads[i].nextTurn
            && (if next.None? then s'.halted && s'.current == s.current
                else next.value < |s.threads| && s'.current == next.value != s.current && !s.threads[next.value].dead
                     && s'.cpu.rsp == s.threads[next.value].rsp && s'.cpu.fpu == s.threads[next.value].fpu)
  {
    hide NextRunnable, ReadyMap;
  }

  // ---- one slot while it is not running ----

  /** The same thread, with the same saved context and tables. */
  predicate SameContext(t: Thread, t': Thread) {
    t'.id == t.id && t'.rsp == t.rsp && t'.fpu == t.fpu && t'.cr3 == t.cr3 && t'.rsp0 == t.rsp0
  }

  /** What any step does to a slot that is not running: nothing to its saved context, unless the slot is
      given to a new thread; and if the step switches to it, exactly that context is loaded. */
  lemma OtherSlot(s: State, e: Event, i: nat)
    requires Inv(s) && Enabled(s, e) && i < |s.threads| && i != s.current
    ensures i < |Step(s, e).threads|
    ensures var t, t' := s.threads[i], Step(s, e).threads[i];
            || (SameContext(t, t') && (t.dead ==> t'.dead))
            || (t'.id == s.nextId && Step(s, e).current != i)
    ensures Step(s, e).current == i ==>
              && !s.threads[i].dead
              && Step(s, e).cpu.rsp == s.threads[i].rsp && Step(s, e).cpu.fpu == s.threads[i].fpu
  {
    hide SlotsOk, LiveRootOk, Resched, KillCurrent, Pick, PickAny, CheckCanary, FreeSlot;
    match e {
      case Tick(due) => ReschedFacts(s.(ticks := s.ticks + 1), true, due, i);
      case SubTick(due) => ReschedFacts(s, false, due, i);
      case Yield(due) => ReschedFacts(s, false, due, i);
      case Fault => KillFacts(s, i);
      case _ =>
    }
  }

  /** From `past` to `r`, slot `i` never runs. */
  predicate Away(r: Run, past: Run, i: nat)
    requires Legal(r) && Continues(r, past)
  {
    Now(r).current != i && (r == past || Away(r.prev, past, i))
  }

  /** The context saved in a slot stays there while the slot is away. */
  lemma {:induction false} ContextStays(past: Run, r: Run, i: nat)
    requires Legal(r) && Continues(r, past) && Legal(past) && Away(r, past, i) && i < |Now(past).threads|
    ensures i < |Now(r).threads|
    ensures var t, t' := Now(past).threads[i], Now(r).threads[i];
            t.id <= t'.id && (t'.id == t.id ==> SameContext(t, t'))
  {
    if r != past {
      ContextStays(past, r.prev, i);
      RunInv(r.prev);
      var s := Now(r.prev);
      OtherSlot(s, r.e, i);
      assert SlotOk(s.threads[i], i, s.current, s.roots, s.nextId);
    }
  }

  /** The context of a thread switched out by `e` stays in its slot while it is away. */
  lemma SavedWhileAway(p: Run, e: Event, r: Run, i: nat)
    requires Legal(r) && Continues(r, Then(p, e)) && Legal(Then(p, e)) && Away(r, Then(p, e), i)
    requires i == Now(p).current && !e.Fault?
    ensures i < |Now(r).threads|
    ensures var t, t' := Now(p).threads[i], Now(r).threads[i];
            && t.id <= t'.id
            && (t'.id == t.id ==> t'.rsp == Now(p).cpu.rsp && t'.fpu == Now(p).cpu.fpu)
  {
    hide Step, Away;
    RunInv(p);
    ContinuedAway(r, Then(p, e), i);
    SwitchedOut(Now(p), e);
    ContextStays(Then(p, e), r, i);
  }

  lemma {:induction false} ContinuedAway(r: Run, past: Run, i: nat)
    requires Legal(r) && Continues(r, past) && Legal(past) && Away(r, past, i)
    ensures Now(past).current != i
  {
    if r != past {
      ContinuedAway(r.prev, past, i);
    }
  }

  lemma SwitchedOut(s: State, e: Event)
    requires Inv(s) && Enabled(s, e) && !e.Fault? && Step(s, e).current != s.current
    ensures s.current < |Step(s, e).threads|
    ensures var t := Step(s, e).threads[s.current];
            t.id == s.threads[s.current].id && t.rsp == s.cpu.rsp && t.fpu == s.cpu.fpu
  {
    hide SlotsOk, LiveRootOk, Resched, Pick, CheckCanary, FreeSlot;
    match e {
      case Tick(due) => ReschedFacts(s.(ticks := s.ticks + 1), true, due, s.current);
      case SubTick(due) => ReschedFacts(s, false, due, s.current);
      case Yield(due) => ReschedFacts(s, false, due, s.current);
      case _ =>
    }
  }

  /** A thread resumes with exactly the stack pointer and FPU image it was switched out with, whatever
      the others did meanwhile. */
  lemma ResumesExactly(p: Run, e: Event, r: Run, back: Event)
    requires Legal(r) && Continues(r, Then(p, e)) && Legal(Then(p, e)) && !e.Fault?
    requires Away(r, Then(p, e), Now(p).current)
    requires Enabled(Now(r), back) && Step(Now(r), back).current == Now(p).current
    requires Now(p).current < |Step(Now(r), back).threads|
    requires Step(Now(r), back).threads[Now(p).current].id == Now(p).threads[Now(p).current].id
    ensures Step(Now(r), back).cpu.rsp == Now(p).cpu.rsp
    ensures Step(Now(r), back).cpu.fpu == Now(p).cpu.fpu
  {
    var i := Now(p).current;
    SavedWhileAway(p, e, r, i);
    RunInv(r);
    OtherSlot(Now(r), back, i);
  }

  /** A thread that is dead and not running never runs again, in any continuation. */
  lemma {:induction false} DeadNeverRuns(past: Run, r: Run, i: nat)
    requires Legal(r) && Continues(r, past) && Legal(past)
    requires i < |Now(past).threads| && Now(past).threads[i].dead && i != Now(past).current
    ensures i < |Now(r).threads|
    ensures var t, t' := Now(past).threads[i], Now(r).threads[i];
            t.id <= t'.id && (t'.id == t.id ==> t'.dead && Now(r).current != i)
  {
    if r != past {
      DeadNeverRuns(past, r.prev, i);
      RunInv(r.prev);
      var s := Now(r.prev);
      assert SlotOk(s.threads[i], i, s.current, s.roots, s.nextId);
      IdsGrow(s, r.e, i);
      if i != s.current {
        OtherSlot(s, r.e, i);
      }
    }
  }

  /** A slot keeps its thread until it is given to a new one, with a larger id. */
  lemma IdsGrow(s: State, e: Event, i: nat)
    requires Inv(s) && Enabled(s, e) && i < |s.threads|
    ensures i < |Step(s, e).threads| && s.threads[i].id <= Step(s, e).threads[i].id
  {
    if i != s.current {
      assert SlotOk(s.threads[i], i, s.current, s.roots, s.nextId);
      OtherSlot(s, e, i);
    } else {
      RunningKeepsId(s, e);
    }
  }

  lemma RunningNotFree(s: State)
    requires Inv(s)
    ensures !s.threads[s.current].free
  {
    assert SlotOk(s.threads[s.current], s.current, s.current, s.roots, s.nextId);
  }

  lemma RunningKeepsId(s: State, e: Event)
    requires Inv(s) && Enabled(s, e)
    ensures s.current < |Step(s, e).threads| && Step(s, e).threads[s.current].id == s.threads[s.current].id
  {
    hide SlotsOk, LiveRootOk, Resched, KillCurrent, FreeSlot, Pick, PickAny, CheckCanary, Ready, Ran;
    RunningNotFree(s);
    if e.Tick? || e.SubTick? || e.Yield? {
      var s1 := if e.Tick? then s.(ticks := s.ticks + 1) else s;
      ReschedFacts(s1, e.Tick?, e.due, s.current);
    } else if e.Fault? {
      KillFacts(s, s.current);
    }
  }

  /** The two shortcuts past the round. A due picture brings the compositor, if it can run, and leaves a
      hand-off hint standing; otherwise a yield goes to the hinted slot, if it can run, a tick does not,
      and either way the hint is used up. */
  lemma Shortcuts(s: State, timerTick: bool, due: bool)
    requires Inv(s) && s.threads[s.current].intact
    ensures var s' := Resched(s, timerTick, due);
            if due && Ready(s, 0) then s'.current == 0 && s'.handoff == s.handoff
            else
              && s'.handoff == NO_HINT
              && (!timerTick && s.handoff != s.current && Ready(s, s.handoff) ==> s'.current == s.handoff)
              && (timerTick ==> Resched(s.(handoff := NO_HINT), timerTick, due) == s')
  {
    hide SlotsOk, LiveRootOk, NextRunnableHeld;
    assert CheckCanary(s) == s && CheckCanary(s.(handoff := NO_HINT)) == s.(handoff := NO_HINT);
    assert ReadyMap(s.(handoff := NO_HINT)) == ReadyMap(s) && HeldMap(s.(handoff := NO_HINT)) == HeldMap(s);
  }

  /** `a` runs, and `a` and `b` can both go on. */
  predicate Pair(s: State, a: nat, b: nat) {
    !s.halted && s.current == a != b && Ready(s, a) && Ready(s, b) && s.threads[a].intact && s.threads[b].intact
  }

  /** Whose turn it is after `k` exchanges begun by `a`. */
  function Turn(a: nat, b: nat, k: nat): nat {
    if k % 2 == 0 then a else b
  }

  /** From `r`, where `a` runs, `a` and `b` hand the processor to each other `k` times. */
  function Exchanges(r: Run, a: nat, b: nat, k: nat): Run {
    if k == 0 then r else Then(Then(Exchanges(r, a, b, k - 1), HandOff(Turn(a, b, k))), Yield(false))
  }

  lemma ExchangeOnce(s: State, a: nat, b: nat)
    requires Inv(s) && Pair(s, b, a)
    ensures Enabled(s, HandOff(a)) && Enabled(Step(s, HandOff(a)), Yield(false))
    ensures Pair(Step(Step(s, HandOff(a)), Yield(false)), a, b)
  {
    hide SlotsOk, LiveRootOk, Resched;
    var s1 := Step(s, HandOff(a));
    assert Inv(s1);
    Shortcuts(s1, false, false);
    ReschedFacts(s1, false, false, a);
    ReschedFacts(s1, false, false, b);
    HaltsIffNobodyReady(s1, false, false);
    assert CheckCanary(s1) == s1;
  }

  /** Two threads that hand the processor to each other exchange it with nobody in between, any number of
      times, whoever else is ready and whether or not either of them is demoted and held. */
  lemma {:induction false} ExchangesUndisturbed(r: Run, a: nat, b: nat, k: nat)
    requires Legal(r) && Pair(Now(r), a, b)
    ensures Legal(Exchanges(r, a, b, k))
    ensures Pair(Now(Exchanges(r, a, b, k)), Turn(a, b, k), Turn(b, a, k))
  {
    hide Legal, Now, Pair, Step, Enabled, Inv;
    if k > 0 {
      var p, next := Exchanges(r, a, b, k - 1), Turn(a, b, k);
      ExchangesUndisturbed(r, a, b, k - 1);
      RunInv(p);
      ExchangeOnce(Now(p), next, Turn(b, a, k));
      Extend(p, HandOff(next));
      Extend(Then(p, HandOff(next)), Yield(false));
    }
  }

  /** A slot marked dead while it runs is left at the next reschedule. */
  lemma DeadIsLeft(s: State, timerTick: bool, due: bool)
    requires Inv(s) && s.threads[s.current].dead
    ensures Resched(s, timerTick, due).halted || Resched(s, timerTick, due).current != s.current
  {
    hide Resched, SlotsOk, LiveRootOk, NextRunnableHeld, ReadyMap, HeldMap;
    ReschedFacts(s, timerTick, due, s.current);
  }

  /** A reschedule stops the machine exactly when no slot at all can run. */
  lemma HaltsIffNobodyReady(s: State, timerTick: bool, due: bool)
    requires s.current < |s.threads| && !s.halted
    ensures Resched(s, timerTick, due).halted <==> forall i: nat :: !Ready(CheckCanary(s), i)
  {
    hide Resched, NextRunnableHeld, ReadyMap, HeldMap, Boosted, Hinted;
    ReschedFacts(s, timerTick, due, s.current);
  }

  /** The compositor is never dead (its canary, a fault and a kill all spare slot 0), so in no run does any
      event stop the machine while the compositor is not blocked. */
  lemma CompositorKeepsRunning(r: Run, e: Event)
    requires Legal(r) && Enabled(Now(r), e)
    requires |Now(r).threads| > 0 && Now(r).threads[0].wake <= Now(r).ticks
    ensures !Step(Now(r), e).halted
    ensures |Step(Now(r), e).threads| > 0 && !Step(Now(r), e).threads[0].dead
  {
    hide Step, SlotsOk, LiveRootOk, Enabled, Legal, Now;
    RunInv(r);
    StepKeepsInv(Now(r), e);
    NoHalt(Now(r), e);
  }

  lemma NoHalt(s: State, e: Event)
    requires Inv(s) && Enabled(s, e) && s.threads[0].wake <= s.ticks
    ensures !Step(s, e).halted
  {
    hide SlotsOk, LiveRootOk, Resched, KillCurrent, FreeSlot, Pick, PickAny;
    if e.Tick? || e.SubTick? || e.Yield? {
      var s1 := if e.Tick? then s.(ticks := s.ticks + 1) else s;
      HaltsIffNobodyReady(s1, e.Tick?, e.due);
      assert Ready(CheckCanary(s1), 0);
    } else if e.Fault? {
      KillHalts(s);
      assert Ready(WithThread(s, s.current, s.threads[s.current].(dead := true)), 0);
    }
  }

  /** A fault stops the machine exactly when no other slot can run. */
  lemma KillHalts(s: State)
    requires s.current < |s.threads| && !s.halted
    ensures KillCurrent(s).halted <==>
              forall i: nat :: !Ready(WithThread(s, s.current, s.threads[s.current].(dead := true)), i)
  {
    hide NextRunnable, ReadyMap, Ready;
  }

  /** It is reachable: the compositor alone blocks and yields, and the machine stops. */
  lemma MachineCanHalt(k: nat, until: nat) returns (r: Run)
    requires k != 0 && until > 0
    ensures Legal(r) && Now(r).halted
  {
    hide Legal, Now, Resched;
    BootState(k);
    Extend(Boot(k, 0, 0), SetWake(0, until));
    var r1 := Then(Boot(k, 0, 0), SetWake(0, until));
    Extend(r1, Yield(false));
    r := Then(r1, Yield(false));
    HaltsIffNobodyReady(Now(r1), false, false);
  }

  /** The user process in slot 1 runs on its own root, and the compositor could run. */
  predicate OnOwnRoot(s: State, root: nat) {
    && !s.halted && s.current == 1 && s.cpu.cr3 == root && |s.threads| == 2 && s.roots == map[root := InUse]
    && s.threads[0].cr3 == 0 && Ready(s, 0) && s.threads[1].cr3 == root && !s.threads[1].free
  }

  /** A user process is spawned and runs on its own root. */
  lemma UserRuns(k: nat, root: nat) returns (r: Run)
    requires k != 0 && root != 0 && k != root
    ensures Legal(r) && OnOwnRoot(Now(r), root)
  {
    hide Legal, Now, NextRunnableHeld, ReadyMap, HeldMap;
    var b := Boot(k, 0, 0);
    BootState(k);
    var user := SpawnUser(root, 0, 0, 0);
    Extend(b, user);
    var r1 := Then(b, user);
    Extend(r1, HandOff(1));
    var r2 := Then(r1, HandOff(1));
    assert Ready(Now(r2), 1) && Now(r2).threads[1].cr3 == root;
    Extend(r2, Yield(false));
    r := Then(r2, Yield(false));
    assert Now(r).current == 1 && Now(r).cpu.cr3 == root;
  }

  /** Why `release_cr3` is needed: when a process is reaped its root can still be the live one, borrowed
      by the compositor. */
  lemma ReapedRootCanBeLive(k: nat, root: nat) returns (r: Run)
    requires k != 0 && root != 0 && k != root
    ensures Legal(r) && root in Now(r).roots && Now(r).roots[root].Released? && Now(r).cpu.cr3 == root
  {
    hide Legal, Now, NextRunnableHeld, ReadyMap, HeldMap;
    var r3 := UserRuns(k, root);
    Extend(r3, KillUser(1));
    var r4 := Then(r3, KillUser(1));
    assert Ready(Now(r4), 0);
    Extend(r4, Yield(true));
    var r5 := Then(r4, Yield(true));
    assert Now(r5).current == 0 && Now(r5).cpu.cr3 == root;
    Extend(r5, ReleaseDeadUser(1));
    r := Then(r5, ReleaseDeadUser(1));
  }

  lemma BootState(k: nat)
    requires k != 0
    ensures Legal(Boot(k, 0, 0))
    ensures Now(Boot(k, 0, 0)) ==
              State([Thread(0, 0, 0, 0, 0, true, 0, false, false, 0, false)], 0, NO_HINT, 0, Cpu(0, 0, k, 0), k,
                  map[], 1, false)
  {
  }
}
