/** Who gets the processor: the round-robin bound, and what demotion does and does not promise. */
module SchedulerFairness {
  import opened Wrappers
  import opened Schedule
  import opened Scheduler
  import opened SchedulerRuns

  /** The event reaches the scheduler's choice. */
  predicate Chooses(s: State, e: Event) {
    e.Tick? || e.Yield? || e.Fault? || (e.SubTick? && e.due && s.current != 0)
  }

  /** The state the choice is made in: the clock advanced by a tick, the dead marked. */
  function ChoiceState(s: State, e: Event): State
    requires s.current < |s.threads|
  {
    if e.Fault? then WithThread(s, s.current, s.threads[s.current].(dead := true))
    else CheckCanary(if e.Tick? then s.(ticks := s.ticks + 1) else s)
  }

  /** Neither the picture boost nor a hand-off hint decides. */
  predicate RoundRobin(s: State, e: Event)
    requires s.current < |s.threads| && Chooses(s, e)
  {
    e.Fault? || (var c := ChoiceState(s, e); !Boosted(c, e.due) && !Hinted(c, e.Tick?, e.due))
  }

  /** The slot a round-robin choice gives. */
  function Chosen(s: State, e: Event): Option<nat>
    requires s.current < |s.threads| && Chooses(s, e)
  {
    var c := ChoiceState(s, e);
    if e.Fault? then NextRunnable(c.current, ReadyMap(c))
    else NextRunnableHeld(c.current, ReadyMap(c), HeldMap(c))
  }

  lemma ChosenRuns(s: State, e: Event)
    requires Inv(s) && Enabled(s, e) && Chooses(s, e) && RoundRobin(s, e)
    ensures ChoiceState(s, e).current == s.current && |ChoiceState(s, e).threads| == |s.threads| == |Step(s, e).threads|
    ensures Chosen(s, e).Some? ==> Chosen(s, e).value < |s.threads| && Step(s, e).current == Chosen(s, e).value
    ensures Chosen(s, e).None? ==> Step(s, e).halted
  {
    hide SlotsOk, LiveRootOk, Resched, KillCurrent, ReadyMap, HeldMap, NextRunnableHeld, NextRunnable;
    if e.Fault? {
      KillFacts(s, s.current);
    } else {
      ReschedFacts(if e.Tick? then s.(ticks := s.ticks + 1) else s, e.Tick?, e.due, s.current);
    }
  }

  /** At this event, if it is a choice, slot `t` is ready and not held, and the round decides. */
  predicate FairFor(s: State, e: Event, t: nat)
    requires Enabled(s, e)
  {
    Chooses(s, e) ==>
      && RoundRobin(s, e)
      && Ready(ChoiceState(s, e), t) && !Held(ChoiceState(s, e), t)
  }

  lemma ChoiceApproaches(s: State, e: Event, t: nat)
    requires Inv(s) && Enabled(s, e) && Chooses(s, e) && FairFor(s, e, t) && t != s.current
    ensures |Step(s, e).threads| == |s.threads| && t < |s.threads|
    ensures Step(s, e).current == t ||
        Distance(Step(s, e).current, t, |s.threads|) < Distance(s.current, t, |s.threads|)
  {
    hide SlotsOk, LiveRootOk, Resched, KillCurrent, NextRunnableHeld, NextRunnable, Step;
    ChosenRuns(s, e);
    var c := ChoiceState(s, e);
    assert ReadyMap(c)[t] && !HeldMap(c)[t];
    if e.Fault? {
      NearestReady(c.current, ReadyMap(c));
    } else {
      PickApproaches(c.current, ReadyMap(c), HeldMap(c), t);
    }
  }

  /** From `past` to `r` slot `t` is ready and not held at every choice, the round decides every choice,
      no slot is added, and `t` never runs. */
  predicate Waiting(r: Run, past: Run, t: nat)
    requires Legal(r) && Continues(r, past)
  {
    && Now(r).current != t
    && (r == past ||
        (Waiting(r.prev, past, t) && FairFor(Now(r.prev), r.e, t) && |Now(r).threads| == |Now(r.prev).threads|))
  }

  /** Choices made from `past` to `r`. */
  function Choices(r: Run, past: Run): nat
    requires Legal(r) && Continues(r, past)
  {
    if r == past then 0 else Choices(r.prev, past) + if Chooses(Now(r.prev), r.e) then 1 else 0
  }

  lemma {:induction false} WaitingApproaches(r: Run, past: Run, t: nat)
    requires Legal(r) && Continues(r, past) && Legal(past) && Waiting(r, past, t) && t < |Now(past).threads|
    ensures |Now(r).threads| == |Now(past).threads| && Now(past).current != t && Now(r).current != t
    ensures Distance(Now(r).current, t, |Now(r).threads|) + Choices(r, past) <=
        Distance(Now(past).current, t, |Now(r).threads|)
  {
    if r != past {
      WaitingApproaches(r.prev, past, t);
      RunInv(r.prev);
      var s := Now(r.prev);
      if Chooses(s, r.e) {
        ChoiceApproaches(s, r.e, t);
      } else {
        NoChoiceNoSwitch(s, r.e);
      }
    }
  }

  lemma NoChoiceNoSwitch(s: State, e: Event)
    requires Enabled(s, e) && !Chooses(s, e)
    ensures Step(s, e).current == s.current
  {
  }

  /** With `n` slots, a slot that is ready and not held whenever a choice is made is passed over at most
      `n - 2` times in a row: the `(n - 1)`-th choice at the latest is its turn. */
  lemma TurnWithinOneRound(r: Run, past: Run, t: nat)
    requires Legal(r) && Continues(r, past) && Legal(past) && Waiting(r, past, t) && t < |Now(past).threads|
    ensures Choices(r, past) <= |Now(past).threads| - 2
  {
    hide Now, Legal, Waiting, SlotsOk, LiveRootOk, Choices;
    WaitingApproaches(r, past, t);
    RunInv(r);
    RunInv(past);
  }

  // ---- demotion ----

  /** Every ready slot, the running one aside, is held. */
  ghost predicate OthersHeld(c: State) {
    forall w: nat | w != c.current && Ready(c, w) :: Held(c, w)
  }

  /** A round-robin choice takes a held slot exactly when it is the nearest ready slot and the choice is made
      by a fault, which ignores holding, or every other ready slot, the running one aside, is held too. */
  lemma HeldChosenIff(s: State, e: Event, d: nat)
    requires Inv(s) && Enabled(s, e) && Chooses(s, e) && RoundRobin(s, e)
    requires Held(ChoiceState(s, e), d)
    ensures Chosen(s, e) == Some(d) <==>
              && NextRunnable(s.current, ReadyMap(ChoiceState(s, e))) == Some(d)
              && (e.Fault? || OthersHeld(ChoiceState(s, e)))
  {
    hide SlotsOk, LiveRootOk, NextRunnableHeld, NextRunnable;
    var c := ChoiceState(s, e);
    HeldPick(c.current, ReadyMap(c), HeldMap(c));
    if w: nat :| w != c.current && Ready(c, w) && !Held(c, w) {
      assert Eligible(ReadyMap(c), HeldMap(c), w);
      PicksEligible(c.current, ReadyMap(c), HeldMap(c), w);
    } else {
      assert forall w: nat | w != c.current :: !Eligible(ReadyMap(c), HeldMap(c), w);
      PicksHeld(c.current, ReadyMap(c), HeldMap(c));
    }
  }

  /** The earliest next turn of a demoted slot only moves away. */
  lemma {:induction false} NextTurnStays(past: Run, r: Run, d: nat, turn: nat)
    requires Legal(r) && Continues(r, past) && Legal(past) && d < |Now(past).threads|
    requires Now(past).threads[d].nextTurn >= turn && Now(past).ticks + DEMOTED_GAP >= turn
    ensures d < |Now(r).threads| && Now(r).ticks >= Now(past).ticks
    ensures Now(past).threads[d].id <= Now(r).threads[d].id
    ensures Now(r).threads[d].id == Now(past).threads[d].id ==> Now(r).threads[d].nextTurn >= turn
  {
    if r != past {
      NextTurnStays(past, r.prev, d, turn);
      RunInv(r.prev);
      IdsGrow(Now(r.prev), r.e, d);
      NextTurnStep(Now(r.prev), r.e, d);
    }
  }

  lemma NextTurnStep(s: State, e: Event, d: nat)
    requires Inv(s) && Enabled(s, e) && d < |s.threads| && d < |Step(s, e).threads|
    ensures s.ticks <= Step(s, e).ticks <= s.ticks + 1
    ensures Step(s, e).threads[d].id == s.threads[d].id ==>
              || Step(s, e).threads[d].nextTurn == s.threads[d].nextTurn
              || Step(s, e).threads[d].nextTurn == Step(s, e).ticks + DEMOTED_GAP
  {
    hide SlotsOk, LiveRootOk, Resched, KillCurrent, Pick, PickAny, CheckCanary, FreeSlot, Ready;
    IdBelowNext(s, d);
    match e {
      case Tick(due) => ReschedFacts(s.(ticks := s.ticks + 1), true, due, d);
      case SubTick(due) => ReschedFacts(s, false, due, d);
      case Yield(due) => ReschedFacts(s, false, due, d);
      case Fault => KillFacts(s, d);
      case _ =>
    }
  }

  lemma IdBelowNext(s: State, d: nat)
    requires Inv(s) && d < |s.threads|
    ensures s.threads[d].id < s.nextId
  {
    assert SlotOk(s.threads[d], d, s.current, s.roots, s.nextId);
  }

  /** A demoted slot that gets a turn is charged for it, unless the turn comes from a fault. */
  lemma TurnIsCharged(s: State, e: Event, d: nat)
    requires Inv(s) && Enabled(s, e) && Chooses(s, e)
    requires d < |s.threads| && s.threads[d].demoted && Step(s, e).current == d && !Step(s, e).halted
    ensures d < |Step(s, e).threads| && Step(s, e).threads[d].id == s.threads[d].id
    ensures Step(s, e).threads[d].nextTurn ==
              if e.Fault? then s.threads[d].nextTurn else Step(s, e).ticks + DEMOTED_GAP
  {
    hide SlotsOk, LiveRootOk, Resched, KillCurrent, CheckCanary, Boosted, Hinted, NextRunnableHeld, ReadyMap, HeldMap;
    if e.Fault? {
      KillFacts(s, d);
    } else {
      ReschedFacts(if e.Tick? then s.(ticks := s.ticks + 1) else s, e.Tick?, e.due, d);
    }
  }

  /** A choice `first` gives the demoted slot `d` a turn. If a later round-robin choice `again` gives the same
      thread another one fewer than `DEMOTED_GAP` ticks after it, then one of the two was made by a fault, or
      no other slot (the one being left aside) was ready and unheld at the second. */
  lemma DemotedGap(p: Run, first: Event, r: Run, again: Event, d: nat)
    requires Legal(r) && Continues(r, Then(p, first)) && Legal(Then(p, first)) && Chooses(Now(p), first)
    requires Now(Then(p, first)).current == d && !Now(Then(p, first)).halted
    requires d < |Now(p).threads| && Now(p).threads[d].demoted
    requires Enabled(Now(r), again) && Chooses(Now(r), again) && RoundRobin(Now(r), again)
    requires Chosen(Now(r), again) == Some(d) && d < |Now(r).threads|
    requires Now(r).threads[d].id == Now(p).threads[d].id && Now(r).threads[d].demoted
    requires ChoiceState(Now(r), again).ticks < Now(Then(p, first)).ticks + DEMOTED_GAP
    ensures first.Fault? || again.Fault? || OthersHeld(ChoiceState(Now(r), again))
  {
    hide OthersHeld;
    if !first.Fault? && !again.Fault? {
      RunInv(p);
      RunInv(r);
      TurnIsCharged(Now(p), first, d);
      var past := Then(p, first);
      NextTurnStays(past, r, d, Now(past).ticks + DEMOTED_GAP);
      HeldChosenIff(Now(r), again, d);
    }
  }

  /** `a` runs and `b` can run; of the other slots none can up to tick `last`. */
  predicate OnlyTwo(s: State, a: nat, b: nat, last: nat) {
    && !s.halted && a < |s.threads| && b < |s.threads| && s.current == a != b
    && CanRun(s, a) && CanRun(s, b)
    && forall w: nat | w < |s.threads| && w != a && w != b :: s.threads[w].dead || s.threads[w].wake > last
  }

  predicate CanRun(s: State, i: nat)
    requires i < |s.threads|
  {
    s.threads[i].intact && !s.threads[i].dead && s.threads[i].wake <= s.ticks
  }

  /** Against a single competitor demotion has no effect: a tick gives the processor to the other slot,
      demoted and held or not, however many slots are blocked or dead. */
  lemma SingleCompetitorAlternates(s: State, a: nat, b: nat, last: nat)
    requires Inv(s) && OnlyTwo(s, a, b, last) && s.ticks < last
    ensures Step(s, Tick(false)).current == b && Step(s, Tick(false)).ticks == s.ticks + 1
    ensures OnlyTwo(Step(s, Tick(false)), b, a, last)
  {
    hide SlotsOk, LiveRootOk, Resched, NextRunnableHeld, NextRunnable, CheckCanary;
    var e := Tick(false);
    var c := ChoiceState(s, e);
    assert c == s.(ticks := s.ticks + 1) by { CanaryIdle(s.(ticks := s.ticks + 1)); }
    ChosenRuns(s, e);
    HeldPick(a, ReadyMap(c), HeldMap(c));
    NearestReady(a, ReadyMap(c));
    assert ReadyMap(c)[b] && forall w: nat | w < |s.threads| && w != a && w != b :: !ReadyMap(c)[w];
    if Held(c, b) {
      HeldChosenIff(s, e, b);
    } else {
      PicksEligible(a, ReadyMap(c), HeldMap(c), b);
    }
    OnlyTwoStays(s, a, b, last);
  }

  lemma CanaryIdle(s: State)
    requires s.current < |s.threads| && s.threads[s.current].intact
    ensures CheckCanary(s) == s
  {
  }

  lemma OnlyTwoStays(s: State, a: nat, b: nat, last: nat)
    requires OnlyTwo(s, a, b, last) && Step(s, Tick(false)).current == b
    ensures OnlyTwo(Step(s, Tick(false)), b, a, last) && Step(s, Tick(false)).ticks == s.ticks + 1
  {
    hide Resched, Pick, CheckCanary, Ran;
    var s1 := s.(ticks := s.ticks + 1);
    CanaryIdle(s1);
    HaltsIffNobodyReady(s1, true, false);
    assert Ready(s1, b);
    ReschedFacts(s1, true, false, a);
    forall w: nat | w < |s.threads|
      ensures SlotAfter(s1, Resched(s1, true, false), w)
      ensures s.threads[w].intact ==> Resched(s1, true, false).threads[w].dead == s.threads[w].dead
    {
      ReschedFacts(s1, true, false, w);
    }
  }

  /** `r` followed by `k` ticks. */
  function Ticking(r: Run, k: nat): Run {
    if k == 0 then r else Then(Ticking(r, k - 1), Tick(false))
  }

  /** So over any number of ticks during which only `a` and `b` can run each of them gets every second one. */
  lemma {:induction false} EverySecondTick(r: Run, a: nat, b: nat, k: nat, last: nat)
    requires Legal(r) && OnlyTwo(Now(r), a, b, last) && Now(r).ticks + k <= last
    ensures Legal(Ticking(r, k)) && Now(Ticking(r, k)).ticks == Now(r).ticks + k
    ensures OnlyTwo(Now(Ticking(r, k)), Turn(a, b, k), Turn(b, a, k), last)
    ensures Now(Ticking(r, k)).current == Turn(a, b, k)
  {
    hide OnlyTwo, Step, Enabled, Now, Legal, Inv;
    if k > 0 {
      EverySecondTick(r, a, b, k - 1, last);
      var p := Ticking(r, k - 1);
      RunInv(p);
      TickEnabled(Now(p), Turn(a, b, k - 1), Turn(b, a, k - 1), last);
      Extend(p, Tick(false));
      SingleCompetitorAlternates(Now(p), Turn(a, b, k - 1), Turn(b, a, k - 1), last);
    } else {
      TickEnabled(Now(r), a, b, last);
    }
  }

  lemma TickEnabled(s: State, a: nat, b: nat, last: nat)
    requires OnlyTwo(s, a, b, last)
    ensures Enabled(s, Tick(false)) && s.current == a
  {
  }

  /** Slots 0 and 1 can run, 0 runs, 1 is demoted and held at the next tick, and that tick runs it. */
  predicate HeldYetNext(r: Run) {
    && Legal(r) && OnlyTwo(Now(r), 0, 1, 3)
    && Now(r).threads[1].demoted && Held(ChoiceState(Now(r), Tick(false)), 1)
    && Step(Now(r), Tick(false)).current == 1
  }

  /** A reachable case: slot 1 is demoted, had its turn a tick ago and is held, and the next tick gives it the
      processor again although the compositor could go on. */
  lemma HeldSlotRunsAgain(k: nat) returns (r: Run)
    requires k != 0
    ensures HeldYetNext(r)
  {
    hide Legal, Now, Resched;
    BootState(k);
    Extend(Boot(k, 0, 0), SpawnKernel(0, 0));
    var r1 := Then(Boot(k, 0, 0), SpawnKernel(0, 0));
    Extend(r1, SetDemoted(1, true));
    var r2 := Then(r1, SetDemoted(1, true));
    RunInv(r2);
    SingleCompetitorAlternates(Now(r2), 0, 1, 3);
    Extend(r2, Tick(false));
    var r3 := Then(r2, Tick(false));
    TurnIsCharged(Now(r2), Tick(false), 1);
    RunInv(r3);
    SingleCompetitorAlternates(Now(r3), 1, 0, 3);
    Extend(r3, Tick(false));
    r := Then(r3, Tick(false));
    ReschedFacts(Now(r2).(ticks := Now(r2).ticks + 1), true, false, 1);
    ReschedFacts(Now(r3).(ticks := Now(r3).ticks + 1), true, false, 1);
    RunInv(r);
    SingleCompetitorAlternates(Now(r), 0, 1, 3);
    Extend(r, Tick(false));
  }
}
