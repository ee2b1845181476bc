/** What a thread can count on over its life: its page tables, its first run, its death, its sleep, and what
    becomes of its memory. */
module SchedulerProcesses {
  import opened Wrappers
  import opened Schedule
  import opened Scheduler
  import opened SchedulerRuns
  import opened SchedulerFairness

  // ---- page tables ----

  /** The thread that runs has its own page tables and ring-0 entry stack loaded, if it has any. */
  predicate OnOwnTables(s: State)
    requires s.current < |s.threads|
  {
    var t := s.threads[s.current];
    (t.cr3 != 0 ==> s.cpu.cr3 == t.cr3) && (t.rsp0 != 0 ==> s.cpu.rsp0 == t.rsp0)
  }

  /** What a switch to slot `i` does to page tables and ring-0 stack: a process gets its own, a kernel thread
      borrows whatever is loaded. */
  predicate TablesSwitched(s: State, s': State, i: nat)
    requires i < |s.threads|
  {
    && s'.cpu.cr3 == (if s.threads[i].cr3 == 0 then s.cpu.cr3 else s.threads[i].cr3)
    && s'.cpu.rsp0 == (if s.threads[i].rsp0 == 0 then s.cpu.rsp0 else s.threads[i].rsp0)
    && |s'.threads| == |s.threads|
    && s'.threads[i].cr3 == s.threads[i].cr3 && s'.threads[i].rsp0 == s.threads[i].rsp0
  }

  lemma ReschedTables(s: State, timerTick: bool, due: bool)
    requires s.current < |s.threads|
    ensures var s' := Resched(s, timerTick, due);
            && s'.current < |s.threads|
            && if s'.current != s.current then TablesSwitched(s, s', s'.current)
               else
                 && s'.cpu == s.cpu && |s'.threads| == |s.threads|
                 && s'.threads[s.current].cr3 == s.threads[s.current].cr3
                 && s'.threads[s.current].rsp0 == s.threads[s.current].rsp0
  {
    hide NextRunnableHeld, ReadyMap, HeldMap, Boosted, Hinted, Resume;
    var s1 := CheckCanary(s);
    ResumeTables(s1.(handoff := if Boosted(s1, due) then s1.handoff else NO_HINT), Pick(s1, timerTick, due));
  }

  lemma ResumeTables(s: State, next: Option<nat>)
    requires s.current < |s.threads| && (next.Some? ==> next.value < |s.threads|)
    ensures var s' := Resume(s, next);
            && s'.current < |s.threads|
            && if s'.current != s.current then TablesSwitched(s, s', s'.current)
               else
                 && s'.cpu == s.cpu && |s'.threads| == |s.threads|
                 && s'.threads[s.current].cr3 == s.threads[s.current].cr3
                 && s'.threads[s.current].rsp0 == s.threads[s.current].rsp0
  {
  }

  lemma KillTables(s: State)
    requires s.current < |s.threads|
    ensures var s' := KillCurrent(s);
            && s'.current < |s.threads|
            && if s'.current != s.current then TablesSwitched(s, s', s'.current)
               else
                 && s'.cpu == s.cpu && |s'.threads| == |s.threads|
                 && s'.threads[s.current].cr3 == s.threads[s.current].cr3
                 && s'.threads[s.current].rsp0 == s.threads[s.current].rsp0
  {
    hide NextRunnable, ReadyMap;
  }

  /** Any event that changes the running thread switches its tables in; any other event leaves the loaded ones
      alone, unless it makes the kernel leave a root about to be freed. */
  lemma SwitchLoadsTables(s: State, e: Event)
    requires Inv(s) && Enabled(s, e)
    ensures Step(s, e).current < |s.threads|
    ensures Step(s, e).current != s.current ==> TablesSwitched(s, Step(s, e), Step(s, e).current)
    ensures Step(s, e).current == s.current && !e.ReleaseCr3? ==>
              Step(s, e).cpu.cr3 == s.cpu.cr3 && Step(s, e).cpu.rsp0 == s.cpu.rsp0
    ensures e.ReleaseCr3? ==>
              && Step(s, e).current == s.current && Step(s, e).cpu.rsp0 == s.cpu.rsp0
              && Step(s, e).cpu.cr3 == if s.cpu.cr3 == e.root then s.kernelCr3 else s.cpu.cr3
  {
    hide SlotsOk, Resched, KillCurrent, FreeSlot;
    match e {
      case Tick(due) => ReschedTables(s.(ticks := s.ticks + 1), true, due);
      case SubTick(due) => ReschedTables(s, false, due);
      case Yield(due) => ReschedTables(s, false, due);
      case Fault => KillTables(s);
      case _ =>
    }
  }

  lemma OwnTablesStep(s: State, e: Event)
    requires Inv(s) && Enabled(s, e) && OnOwnTables(s)
    ensures Step(s, e).current < |Step(s, e).threads| && OnOwnTables(Step(s, e))
  {
    hide SlotsOk, LiveRootOk, Resched, KillCurrent, FreeSlot, Pick, PickAny;
    SwitchLoadsTables(s, e);
    RunningNotFree(s);
    RunningRootInUse(s);
    match e {
      case Tick(due) => ReschedTables(s.(ticks := s.ticks + 1), true, due);
      case SubTick(due) => ReschedTables(s, false, due);
      case Yield(due) => ReschedTables(s, false, due);
      case Fault => KillTables(s);
      case _ =>
    }
  }

  lemma RunningRootInUse(s: State)
    requires Inv(s)
    ensures var t := s.threads[s.current]; t.cr3 != 0 ==> t.cr3 in s.roots && s.roots[t.cr3].InUse?
  {
    RunningNotFree(s);
    assert SlotOk(s.threads[s.current], s.current, s.current, s.roots, s.nextId);
  }

  /** At every point of every run a process runs on its own page tables, with its own ring-0 stack set. */
  lemma {:induction false} RunsOnOwnTables(r: Run)
    requires Legal(r)
    ensures Now(r).current < |Now(r).threads| && OnOwnTables(Now(r))
  {
    hide Step, SlotsOk, LiveRootOk, OnOwnTables;
    RunInv(r);
    if r.Then? {
      RunsOnOwnTables(r.prev);
      RunInv(r.prev);
      OwnTablesStep(Now(r.prev), r.e);
    } else {
      BootTables(r);
    }
  }

  lemma BootTables(r: Run)
    requires Legal(r) && r.Boot?
    ensures Now(r).current < |Now(r).threads| && OnOwnTables(Now(r))
  {
  }

  // ---- the first run ----

  /** The slot a spawned thread gets: a process the lowest free one, or a new one when none is free; a kernel
      thread always a new one. */
  function SpawnSlot(s: State, e: Event): nat {
    if e.SpawnUser? then FreeSlot(s.threads) else |s.threads|
  }

  /** What the thread is given: a kernel thread has no page tables and no ring-0 stack of its own. */
  predicate SpawnedBy(t: Thread, id: nat, e: Event)
    requires e.SpawnUser? || e.SpawnKernel?
  {
    if e.SpawnUser? then SpawnedAs(t, id, e.root, e.rsp0, e.rsp, e.fpu) else SpawnedAs(t, id, 0, 0, e.rsp, e.fpu)
  }

  lemma SpawnTakesLowest(s: State, e: Event)
    requires Enabled(s, e) && (e.SpawnUser? || e.SpawnKernel?)
    ensures var s', i := Step(s, e), SpawnSlot(s, e);
            && i < |s'.threads| && SpawnedBy(s'.threads[i], s.nextId, e)
            && |s'.threads| == (if i < |s.threads| then |s.threads| else |s.threads| + 1)
            && (i < |s.threads| ==> s.threads[i].free)
            // The earliest next turn an earlier thread left behind stays, so the new one may start held.
            && s'.threads[i].nextTurn == (if i < |s.threads| then s.threads[i].nextTurn else 0)
            && (e.SpawnUser? ==> forall k | 0 <= k < |s.threads| && s.threads[k].free :: i <= k)
            && (forall k | 0 <= k < |s.threads| && k != i :: s'.threads[k] == s.threads[k])
            && s'.current == s.current
            && s'.roots == if e.SpawnUser? then s.roots[e.root := InUse] else s.roots
  {
  }

  /** A thread that has not run yet: alive, not blocked, not demoted, with the context it was given. */
  predicate SpawnedAs(t: Thread, id: nat, cr3: nat, rsp0: nat, rsp: nat, fpu: Image) {
    && t.id == id && t.cr3 == cr3 && t.rsp0 == rsp0 && t.rsp == rsp && t.fpu == fpu
    && t.intact && t.wake == 0 && !t.dead && !t.demoted && !t.free
  }

  /** The switch that a thread's first run begins with starts it with the stack pointer, FPU image, page tables
      and ring-0 stack it was spawned with, whatever the others did meanwhile. */
  lemma FirstRun(p: Run, spawn: Event, r: Run, i: nat, back: Event)
    requires Legal(Then(p, spawn)) && (spawn.SpawnUser? || spawn.SpawnKernel?) && i == SpawnSlot(Now(p), spawn)
    requires Legal(r) && Continues(r, Then(p, spawn)) && Away(r, Then(p, spawn), i)
    requires Enabled(Now(r), back) && Step(Now(r), back).current == i
    requires i < |Now(r).threads| && Now(r).threads[i].id == Now(p).nextId
    ensures var cpu := Step(Now(r), back).cpu;
            && cpu.rsp == spawn.rsp && cpu.fpu == spawn.fpu
            && cpu.cr3 == (if spawn.SpawnUser? then spawn.root else Now(r).cpu.cr3)
            && (spawn.SpawnUser? && spawn.rsp0 != 0 ==> cpu.rsp0 == spawn.rsp0)
  {
    hide Step, Enabled;
    SpawnTakesLowest(Now(p), spawn);
    if spawn.SpawnUser? {
      RootNotZero(Now(p), spawn);
    }
    ContextStays(Then(p, spawn), r, i);
    RunInv(r);
    OtherSlot(Now(r), back, i);
    SwitchLoadsTables(Now(r), back);
  }

  /** `a` computes, hands the processor to `b`, and `b` hands it back. */
  function ThereAndBack(r: Run, a: nat, b: nat, rsp: nat, fpu: Image): Run {
    Exchanges(Then(r, Compute(rsp, fpu, true)), a, b, 2)
  }

  /** Whatever registers the thread had computed, it has them again. */
  lemma ContextRoundTrip(r: Run, a: nat, b: nat, rsp: nat, fpu: Image)
    requires Legal(r) && Pair(Now(r), a, b)
    ensures var r' := ThereAndBack(r, a, b, rsp, fpu);
            Legal(r') && Pair(Now(r'), a, b) && Now(r').cpu.rsp == rsp && Now(r').cpu.fpu == fpu
  {
    hide Legal, Now, Step;
    RunInv(r);
    ComputeStep(Now(r), a, b, rsp, fpu);
    var r0 := Then(r, Compute(rsp, fpu, true));
    Extend(r, Compute(rsp, fpu, true));
    ExchangesUndisturbed(r0, a, b, 1);
    ExchangesUndisturbed(r0, a, b, 2);
    RunInv(r0);
    HandedOver(Now(r0), a, b);
    var r1 := Exchanges(r0, a, b, 1);
    Exchanged(r0, b);
    RunInv(r1);
    HandedOver(Now(r1), b, a);
    Exchanged(r1, a);
  }

  lemma ComputeStep(s: State, a: nat, b: nat, rsp: nat, fpu: Image)
    requires Inv(s) && Pair(s, a, b)
    ensures var s' := Step(s, Compute(rsp, fpu, true));
            Enabled(s, Compute(rsp, fpu, true)) && Pair(s', a, b) && s'.cpu.rsp == rsp && s'.cpu.fpu == fpu
  {
  }

  lemma Exchanged(r: Run, b: nat)
    requires Legal(r) && Enabled(Now(r), HandOff(b)) && Enabled(Step(Now(r), HandOff(b)), Yield(false))
    ensures Legal(Then(Then(r, HandOff(b)), Yield(false)))
    ensures Now(Then(Then(r, HandOff(b)), Yield(false))) == Step(Step(Now(r), HandOff(b)), Yield(false))
  {
    Extend(r, HandOff(b));
    Extend(Then(r, HandOff(b)), Yield(false));
  }

  /** One hand-over: the context of `a` is saved, that of `b` loaded. */
  lemma HandedOver(s: State, a: nat, b: nat)
    requires Inv(s) && Pair(s, a, b)
    ensures Enabled(s, HandOff(b)) && Enabled(Step(s, HandOff(b)), Yield(false))
    ensures var s' := Step(Step(s, HandOff(b)), Yield(false));
            && |s'.threads| == |s.threads|
            && s'.cpu.rsp == s.threads[b].rsp && s'.cpu.fpu == s.threads[b].fpu
            && s'.threads[a].rsp == s.cpu.rsp && s'.threads[a].fpu == s.cpu.fpu
  {
    hide SlotsOk, LiveRootOk, Resched;
    ExchangeOnce(s, b, a);
    var s1 := Step(s, HandOff(b));
    assert Inv(s1);
    Shortcuts(s1, false, false);
    ReschedFacts(s1, false, false, a);
  }

  lemma RootNotZero(s: State, e: Event)
    requires Enabled(s, e) && e.SpawnUser?
    ensures e.root != 0
  {
  }

  // ---- death ----

  /** Who dies at a step: the slot killed from outside, the running thread that faults, and the running thread,
      the compositor excepted, found with a clobbered canary at a choice. */
  predicate Dies(s: State, e: Event, i: nat)
    requires i < |s.threads|
  {
    || e == KillUser(i)
    || (i == s.current && e.Fault?)
    || (i == s.current && Chooses(s, e) && i != 0 && !s.threads[i].intact)
  }

  lemma DiesExactly(s: State, e: Event, i: nat)
    requires Inv(s) && Enabled(s, e) && i < |s.threads|
    ensures i < |Step(s, e).threads|
    ensures Step(s, e).threads[i].id == s.threads[i].id ==>
              (Step(s, e).threads[i].dead <==> s.threads[i].dead || Dies(s, e, i))
  {
    hide SlotsOk, LiveRootOk, Resched, KillCurrent, Pick, PickAny, FreeSlot, Ready, Ran;
    IdBelowNext(s, i);
    IdsGrow(s, e, i);
    match e {
      case Tick(due) => ReschedDeaths(s.(ticks := s.ticks + 1), true, due, i);
      case SubTick(due) => ReschedDeaths(s, false, due, i);
      case Yield(due) => ReschedDeaths(s, false, due, i);
      case Fault => KillDeaths(s, i);
      case _ =>
    }
  }

  lemma ReschedDeaths(s: State, timerTick: bool, due: bool, i: nat)
    requires s.current < |s.threads| && i < |s.threads|
    ensures var s' := Resched(s, timerTick, due);
            && i < |s'.threads|
            && s'.threads[i].dead == (s.threads[i].dead || (i == s.current && i != 0 && !s.threads[i].intact))
  {
    hide NextRunnableHeld, ReadyMap, HeldMap, Boosted, Hinted, Resume;
    var s1 := CheckCanary(s);
    var s2 := s1.(handoff := if Boosted(s1, due) then s1.handoff else NO_HINT);
    ResumeFacts(s2, Pick(s1, timerTick, due), i);
  }

  lemma KillDeaths(s: State, i: nat)
    requires s.current < |s.threads| && i < |s.threads|
    ensures i < |KillCurrent(s).threads|
    ensures KillCurrent(s).threads[i].dead == (s.threads[i].dead || i == s.current)
  {
    hide NextRunnable, ReadyMap;
  }

  /** A thread killed from outside does not run after the next choice, in any continuation. */
  lemma {:induction false} KilledNeverRuns(p: Run, i: nat, r: Run)
    requires Legal(Then(p, KillUser(i))) && Legal(r) && Continues(r, Then(p, KillUser(i)))
    ensures i < |Now(p).threads| && i < |Now(r).threads| && Now(p).threads[i].id <= Now(r).threads[i].id
    ensures Now(r).threads[i].id == Now(p).threads[i].id ==>
              && Now(r).threads[i].dead
              && (Choices(r, Then(p, KillUser(i))) > 0 ==> Now(r).current != i || Now(r).halted)
  {
    hide Step, Inv, Dies, Chooses;
    var past := Then(p, KillUser(i));
    RunInv(p);
    KillEnabled(Now(p), i);
    if r == past {
      DiesExactly(Now(p), KillUser(i), i);
      IdsGrow(Now(p), KillUser(i), i);
      NowKilled(Now(p), i);
    } else {
      KilledNeverRuns(p, i, r.prev);
      RunInv(r.prev);
      IdsGrow(Now(r.prev), r.e, i);
      DiesExactly(Now(r.prev), r.e, i);
      if Now(r.prev).threads[i].dead {
        DeadStep(Now(r.prev), r.e, i);
      }
    }
  }

  lemma KillEnabled(s: State, i: nat)
    requires Enabled(s, KillUser(i))
    ensures i < |s.threads|
  {
  }

  lemma NowKilled(s: State, i: nat)
    requires Enabled(s, KillUser(i))
    ensures i < |Step(s, KillUser(i)).threads| && Step(s, KillUser(i)).threads[i].dead
  {
  }

  /** A dead thread is left at a choice, and not chosen. */
  lemma DeadStep(s: State, e: Event, i: nat)
    requires Inv(s) && Enabled(s, e) && i < |s.threads| && s.threads[i].dead
    ensures i != s.current || Chooses(s, e) ==> Step(s, e).current != i || Step(s, e).halted
  {
    hide SlotsOk, LiveRootOk, Resched, KillCurrent, Pick, PickAny, FreeSlot, Ready;
    if i != s.current {
      OtherSlot(s, e, i);
    } else if e.Fault? {
      KillFacts(s, i);
    } else if Chooses(s, e) {
      var s1 := if e.Tick? then s.(ticks := s.ticks + 1) else s;
      assert Inv(s1);
      DeadIsLeft(s1, e.Tick?, e.due);
    }
  }

  // ---- sleep ----

  /** Nobody sets slot `i`'s wake-up tick after `past`, and it keeps its thread. */
  predicate WakeUntouched(r: Run, past: Run, i: nat)
    requires Legal(r) && Legal(past) && Continues(r, past)
  {
    && i < |Now(r).threads| && i < |Now(past).threads| && Now(r).threads[i].id == Now(past).threads[i].id
    && (r == past || (WakeUntouched(r.prev, past, i) && !(r.e.SetWake? && r.e.slot == i)))
  }

  lemma WakeStep(s: State, e: Event, i: nat)
    requires Inv(s) && Enabled(s, e) && i < |s.threads| && i < |Step(s, e).threads|
    requires Step(s, e).threads[i].id == s.threads[i].id && !(e.SetWake? && e.slot == i)
    ensures Step(s, e).threads[i].wake == s.threads[i].wake
  {
    hide SlotsOk, LiveRootOk, Resched, KillCurrent, Pick, PickAny, FreeSlot, Ready, Ran;
    IdBelowNext(s, i);
    match e {
      case Tick(due) => ReschedFacts(s.(ticks := s.ticks + 1), true, due, i);
      case SubTick(due) => ReschedFacts(s, false, due, i);
      case Yield(due) => ReschedFacts(s, false, due, i);
      case Fault => KillFacts(s, i);
      case _ =>
    }
  }

  lemma {:induction false} WakeStays(past: Run, r: Run, i: nat)
    requires Legal(r) && Legal(past) && Continues(r, past) && WakeUntouched(r, past, i)
    ensures Now(r).threads[i].wake == Now(past).threads[i].wake
  {
    if r != past {
      hide Step;
      WakeStays(past, r.prev, i);
      RunInv(r.prev);
      WakeStep(Now(r.prev), r.e, i);
    }
  }

  /** A thread told to sleep until `until` can run, while it lives and until it is told otherwise, exactly from
      that tick on. */
  lemma ReadyExactly(p: Run, i: nat, until: nat, r: Run)
    requires Legal(Then(p, SetWake(i, until))) && Legal(r) && Continues(r, Then(p, SetWake(i, until)))
    requires WakeUntouched(r, Then(p, SetWake(i, until)), i)
    ensures Ready(Now(r), i) <==> !Now(r).threads[i].dead && until <= Now(r).ticks
  {
    hide Resched, KillCurrent;
    WakeStays(Then(p, SetWake(i, until)), r, i);
  }

  /** And before that tick no event brings it back to the processor. */
  lemma SleepsUntil(p: Run, i: nat, until: nat, r: Run, e: Event)
    requires Legal(Then(p, SetWake(i, until))) && Legal(r) && Continues(r, Then(p, SetWake(i, until)))
    requires WakeUntouched(r, Then(p, SetWake(i, until)), i)
    requires Enabled(Now(r), e) && Now(r).current != i && Step(Now(r), e).ticks < until
    ensures Step(Now(r), e).current != i
  {
    hide Step, Ready;
    RunInv(r);
    WakeStays(Then(p, SetWake(i, until)), r, i);
    SetWakeSets(Now(p), i, until);
    NotReadyNotChosen(Now(r), e, i);
  }

  lemma SetWakeSets(s: State, i: nat, until: nat)
    requires Enabled(s, SetWake(i, until))
    ensures i < |Step(s, SetWake(i, until)).threads| && Step(s, SetWake(i, until)).threads[i].wake == until
  {
  }

  lemma NotReadyNotChosen(s: State, e: Event, i: nat)
    requires Inv(s) && Enabled(s, e) && i < |s.threads| && i != s.current && s.threads[i].wake > Step(s, e).ticks
    ensures Step(s, e).current != i
  {
    hide SlotsOk, LiveRootOk, Resched, KillCurrent, FreeSlot, NextRunnable, NextRunnableHeld, ReadyMap, HeldMap;
    match e {
      case Tick(due) => ReschedFacts(s.(ticks := s.ticks + 1), true, due, i);
      case SubTick(due) => ReschedFacts(s, false, due, i);
      case Yield(due) => ReschedFacts(s, false, due, i);
      case Fault => KillFacts(s, i);
      case _ =>
    }
  }

  // ---- demotion, in ticks ----

  /** From `past` to `r` slot `d` keeps its thread and no choice gives it a turn. */
  predicate NoTurn(r: Run, past: Run, d: nat)
    requires Legal(r) && Legal(past) && Continues(r, past)
  {
    && d < |Now(r).threads| && d < |Now(past).threads| && Now(r).threads[d].id == Now(past).threads[d].id
    && (r == past || (NoTurn(r.prev, past, d) && !(Chooses(Now(r.prev), r.e) && Now(r).current == d)))
  }

  lemma TurnlessStep(s: State, e: Event, d: nat)
    requires Inv(s) && Enabled(s, e) && d < |s.threads| && d < |Step(s, e).threads|
    requires Step(s, e).threads[d].id == s.threads[d].id && !(Chooses(s, e) && Step(s, e).current == d)
    ensures Step(s, e).threads[d].nextTurn == s.threads[d].nextTurn
  {
    hide SlotsOk, LiveRootOk, Resched, KillCurrent, Pick, PickAny, CheckCanary, FreeSlot, Ready;
    IdBelowNext(s, d);
    match e {
      case Tick(due) => ReschedFacts(s.(ticks := s.ticks + 1), true, due, d);
      case SubTick(due) => ReschedFacts(s, false, due, d);
      case Yield(due) => ReschedFacts(s, false, due, d);
      case Fault => KillFacts(s, d);
      case _ =>
    }
  }

  lemma {:induction false} TurnlessRun(past: Run, r: Run, d: nat)
    requires Legal(r) && Legal(past) && Continues(r, past) && NoTurn(r, past, d)
    ensures Now(r).threads[d].nextTurn == Now(past).threads[d].nextTurn
  {
    if r != past {
      hide Step;
      TurnlessRun(past, r.prev, d);
      RunInv(r.prev);
      TurnlessStep(Now(r.prev), r.e, d);
    }
  }

  /** A thread is demoted exactly when the last word about its slot since it was spawned was to demote it. */
  lemma DemotedExactly(s: State, e: Event, d: nat)
    requires Inv(s) && Enabled(s, e) && d < |s.threads|
    ensures d < |Step(s, e).threads|
    ensures var t, t' := s.threads[d], Step(s, e).threads[d];
            t'.demoted == if t'.id != t.id then false else if e.SetDemoted? && e.slot == d then e.on else t.demoted
  {
    hide SlotsOk, LiveRootOk, Resched, KillCurrent, Pick, PickAny, CheckCanary, FreeSlot, Ready, Ran;
    IdBelowNext(s, d);
    match e {
      case Tick(due) => ReschedFacts(s.(ticks := s.ticks + 1), true, due, d);
      case SubTick(due) => ReschedFacts(s, false, due, d);
      case Yield(due) => ReschedFacts(s, false, due, d);
      case Fault => KillFacts(s, d);
      case _ =>
    }
  }

  /** A demoted slot that got a turn, not from a fault, is held exactly for the `DEMOTED_GAP - 1` ticks after it,
      if it gets no other meanwhile: at the choice of tick `DEMOTED_GAP` after its turn it competes again. */
  lemma HeldExactly(p: Run, turn: Event, r: Run, d: nat)
    requires Legal(Then(p, turn)) && Legal(r) && Continues(r, Then(p, turn)) && NoTurn(r, Then(p, turn), d)
    requires Chooses(Now(p), turn) && !turn.Fault? && d < |Now(p).threads| && Now(p).threads[d].demoted
    requires Now(Then(p, turn)).current == d && !Now(Then(p, turn)).halted
    ensures Held(Now(r), d) <==>
              Now(r).threads[d].demoted && Now(r).ticks < Now(Then(p, turn)).ticks + DEMOTED_GAP
  {
    hide Step, Chooses, Inv, NoTurn;
    RunInv(p);
    TurnIsCharged(Now(p), turn, d);
    TurnlessRun(Then(p, turn), r, d);
    NoTurnThere(r, Then(p, turn), d);
  }

  lemma NoTurnThere(r: Run, past: Run, d: nat)
    requires Legal(r) && Legal(past) && Continues(r, past) && NoTurn(r, past, d)
    ensures d < |Now(r).threads| && d < |Now(past).threads|
  {
  }

  // ---- the end of a process ----

  function Reaped(r: Run, i: nat, root: nat): Run {
    Then(Then(Then(r, ReleaseDeadUser(i)), ReleaseCr3(root)), FreeRoot(root))
  }

  /** A process that is dead and not running can always be reaped: its slot becomes free, its page tables are
      freed, and the processor is not on them, although a kernel thread may have been. */
  lemma ReapFrees(r: Run, i: nat)
    requires Legal(r) && !Now(r).halted
    requires 0 < i < |Now(r).threads| && i != Now(r).current
    requires Now(r).threads[i].dead && Now(r).threads[i].cr3 != 0 && !Now(r).threads[i].free
    ensures var root := Now(r).threads[i].cr3;
            var r' := Reaped(r, i, root);
            && Legal(r') && root in Now(r').roots && Now(r').roots[root].Freed? && Now(r').cpu.cr3 != root
            && i < |Now(r').threads| && Now(r').threads[i].free
            && FreshRoot(Now(r'), root)
  {
    hide Legal, Now, Resched, KillCurrent, FreeSlot, SlotsOk;
    RunInv(r);
    var root := Now(r).threads[i].cr3;
    Extend(r, ReleaseDeadUser(i));
    var r1 := Then(r, ReleaseDeadUser(i));
    RunInv(r1);
    Extend(r1, ReleaseCr3(root));
    var r2 := Then(r1, ReleaseCr3(root));
    Extend(r2, FreeRoot(root));
    var r3 := Then(r2, FreeRoot(root));
    RunInv(r3);
  }
}
