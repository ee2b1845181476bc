/** The choice a fault makes, which demotion does not restrain. */
module SchedulerFaults {
  import opened Wrappers
  import opened Schedule
  import opened Scheduler
  import opened SchedulerRuns
  import opened SchedulerFairness

  /** A fault gives the processor to the nearest ready slot, held or not, and moves nobody's next turn. */
  lemma FaultTakesNearest(s: State, i: nat)
    requires Inv(s) && Enabled(s, Fault) && i < |s.threads|
    ensures |Step(s, Fault).threads| == |s.threads| && Step(s, Fault).threads[i].nextTurn == s.threads[i].nextTurn
    ensures var c, next := ChoiceState(s, Fault), Step(s, Fault).current;
            if Step(s, Fault).halted then forall w: nat :: !Ready(c, w)
            else
              && Ready(c, next) && next != s.current
              && (Ready(c, i) ==> Distance(s.current, next, |s.threads|) <= Distance(s.current, i, |s.threads|))
  {
    hide SlotsOk, LiveRootOk, KillCurrent, NextRunnable;
    var c := ChoiceState(s, Fault);
    KillFacts(s, i);
    KillHalts(s);
    NearestReady(c.current, ReadyMap(c));
    assert Ready(c, i) ==> ReadyMap(c)[i];
  }

  // ---- runs in which that breaks the gap ----

  /** Four threads at tick 0, the one in slot 2 demoted, `gone` (if it is a slot) dead. */
  predicate Four(s: State, turn: nat, gone: nat) {
    && !s.halted && s.ticks == 0 && |s.threads| == 4
    && s.threads[2].nextTurn == turn
    && forall i | 0 <= i < 4 ::
         && s.threads[i].intact && s.threads[i].wake == 0
         && (s.threads[i].dead <==> i == gone) && (s.threads[i].demoted <==> i == 2)
  }

  /** One hand-off. */
  lemma HandTo(s: State, b: nat, turn: nat, gone: nat)
    requires Inv(s) && Four(s, turn, gone) && s.current != gone && b < 4 && b != gone && b != s.current
    ensures Enabled(s, HandOff(b)) && Enabled(Step(s, HandOff(b)), Yield(false))
    ensures var s' := Step(Step(s, HandOff(b)), Yield(false));
            && s'.current == b && s'.handoff == NO_HINT
            && Four(s', if b == 2 then DEMOTED_GAP else turn, gone)
  {
    hide SlotsOk, LiveRootOk, Resched, Ran;
    ExchangeOnce(s, b, s.current);
    var s1 := Step(s, HandOff(b));
    assert Inv(s1);
    Shortcuts(s1, false, false);
    CanaryIdle(s1);
    assert Pick(s1, false, false) == Some(b);
    forall i: nat | i < 4
      ensures SlotAfter(s1, Resched(s1, false, false), i) && Resched(s1, false, false).ticks == 0
      ensures Resched(s1, false, false).threads[i].dead == s1.threads[i].dead
      ensures Resched(s1, false, false).threads[i].nextTurn ==
                if i == b && i == 2 then DEMOTED_GAP else s1.threads[i].nextTurn
    {
      ReschedFacts(s1, false, false, i);
    }
  }

  /** `b` runs, with no hint standing. */
  predicate HasIt(r: Run, b: nat, turn: nat, gone: nat) {
    Legal(r) && Four(Now(r), turn, gone) && Now(r).current == b && Now(r).handoff == NO_HINT
  }

  lemma HandToRun(r: Run, b: nat, turn: nat, gone: nat)
    requires Legal(r) && Four(Now(r), turn, gone)
    requires Now(r).current != gone && b < 4 && b != gone && b != Now(r).current
    ensures HasIt(Then(Then(r, HandOff(b)), Yield(false)), b, if b == 2 then DEMOTED_GAP else turn, gone)
  {
    hide Legal, Now, Four;
    RunInv(r);
    HandTo(Now(r), b, turn, gone);
    Extend(r, HandOff(b));
    Extend(Then(r, HandOff(b)), Yield(false));
  }

  lemma StartFour(k: nat) returns (r: Run)
    requires k != 0
    ensures Legal(r) && Four(Now(r), 0, 4) && Now(r).current == 0
  {
    hide Legal, Now;
    BootState(k);
    var r1 := Then(Boot(k, 0, 0), SpawnKernel(0, 0));
    Extend(Boot(k, 0, 0), SpawnKernel(0, 0));
    var r2 := Then(r1, SpawnKernel(0, 0));
    Extend(r1, SpawnKernel(0, 0));
    var r3 := Then(r2, SpawnKernel(0, 0));
    Extend(r2, SpawnKernel(0, 0));
    r := Then(r3, SetDemoted(2, true));
    Extend(r3, SetDemoted(2, true));
  }

  /** The thread in slot 1 faults: slot 2 is next, held or not. */
  lemma SlotOneFaults(s: State, turn: nat)
    requires Inv(s) && Four(s, turn, 4) && s.current == 1
    ensures Enabled(s, Fault)
    ensures Step(s, Fault).current == 2 && Four(Step(s, Fault), turn, 1)
  {
    hide SlotsOk, LiveRootOk, KillCurrent, NextRunnable;
    var c := ChoiceState(s, Fault);
    assert Ready(c, 2);
    FaultTakesNearest(s, 2);
    forall i: nat | i < 4
      ensures SlotAfter(s, KillCurrent(s), i) && KillCurrent(s).ticks == 0
      ensures KillCurrent(s).threads[i].nextTurn == s.threads[i].nextTurn
      ensures KillCurrent(s).threads[1].dead
    {
      KillFacts(s, i);
      KilledIsDead(s);
    }
  }

  lemma KilledIsDead(s: State)
    requires s.current < |s.threads|
    ensures |KillCurrent(s).threads| == |s.threads| && KillCurrent(s).threads[s.current].dead
  {
    hide NextRunnable, ReadyMap;
  }

  /** `first` after `p` gives the demoted slot 2 a turn; `again` after the continuation `r` gives it another,
      by the round, at the same tick, slot 3 being ready and not held. */
  predicate TooEarly(p: Run, first: Event, r: Run, again: Event) {
    && Legal(r) && Continues(r, Then(p, first)) && Legal(Then(p, first))
    && Now(Then(p, first)).current == 2 && |Now(p).threads| > 2 && Now(p).threads[2].demoted
    && Enabled(Now(r), again) && Chooses(Now(r), again) && RoundRobin(Now(r), again)
    && Step(Now(r), again).current == 2
    && var c := ChoiceState(Now(r), again);
       Ready(c, 3) && !Held(c, 3) && c.ticks == Now(Then(p, first)).ticks
  }

  /** A turn given by a fault comes early, although slot 2 is held. */
  lemma FaultRunsHeldSlot(k: nat) returns (p: Run, r: Run)
    requires k != 0
    ensures TooEarly(p, Yield(false), r, Fault) && Held(ChoiceState(Now(r), Fault), 2)
  {
    var r0 := StartFour(k);
    HandToRun(r0, 2, 0, 4);
    p := Then(r0, HandOff(2));
    var r1 := Then(p, Yield(false));
    HandToRun(r1, 1, DEMOTED_GAP, 4);
    var q := Then(r1, HandOff(1));
    r := Then(q, Yield(false));
    assert Continues(r, q) && Continues(q, r1);
    assert Now(p) == Now(r0).(handoff := 2);
    hide Legal, Now;
    RunInv(r);
    SlotOneFaults(Now(r), DEMOTED_GAP);
  }

  /** A turn given by a fault is not charged: the next one comes early. */
  lemma FaultTurnNotCharged(k: nat) returns (p: Run, r: Run)
    requires k != 0
    ensures TooEarly(p, Fault, r, Yield(false))
  {
    var r0 := StartFour(k);
    HandToRun(r0, 1, 0, 4);
    p := Then(Then(r0, HandOff(1)), Yield(false));
    RunInv(p);
    SlotOneFaults(Now(p), 0);
    var r1 := Then(p, Fault);
    HandToRun(r1, 0, 0, 1);
    var q := Then(r1, HandOff(0));
    r := Then(q, Yield(false));
    assert Continues(r, q) && Continues(q, r1);
    hide Legal, Now;
    RunInv(r);
    YieldToTwo(Now(r));
  }

  lemma YieldToTwo(s: State)
    requires Inv(s) && Four(s, 0, 1) && s.current == 0 && s.handoff == NO_HINT
    ensures Enabled(s, Yield(false)) && RoundRobin(s, Yield(false)) && ChoiceState(s, Yield(false)) == s
    ensures Step(s, Yield(false)).current == 2
  {
    hide SlotsOk, LiveRootOk, Resched, NextRunnableHeld, NextRunnable;
    ChosenRuns(s, Yield(false));
    PicksEligible(0, ReadyMap(s), HeldMap(s), 2);
  }
}
