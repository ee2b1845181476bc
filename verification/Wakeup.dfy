/** The request/wake handshake of the worker threads (`logd`, `audiod`) with `sched::block`, every atomic
    access a step. The worker runs with interrupts on, so it is taken off the processor between any two of
    its steps and put back only when the scheduler finds it runnable. Requests may come from any number of
    threads (or interrupt handlers) at any moment, also before the worker has published its slot. */
module Wakeup {
  const FOREVER: nat := 0xFFFF_FFFF_FFFF_FFFF

  /** A requester: the work is posted first, then the flag is set, the worker's slot loaded, and the
      worker woken if it had one. */
  datatype Requester = Idle | SetFlag | LoadSlot | Wake

  datatype Worker =
    | Publish                       // store the slot
    | Clear                         // take the flag
    | Work(got: bool)               // act on it
    | Announce(until: nat)          // `block`: store the wake-up tick
    | CheckIdle                     // is there still nothing to do?
    | CheckWake                     // is the wake-up tick still ahead?
    | Yield                         // give up the processor
    | Recheck                       // back: runnable?
    | HaltCheck                     // interrupts masked: anything to do, or halt
    | Halted
    | Leave                         // store 0

  /** `pending`: work is posted that the worker has not looked at since. `always`: the worker looks every
      round (`audiod`); otherwise only when it found the flag set (`logd`). `running`: the worker has the
      processor. */
  datatype State = State(
    always: bool, flag: bool, published: bool, wake: nat, now: nat, pending: bool,
    running: bool, worker: Worker, requesters: seq<Requester>)

  datatype Event =
    | Request(i: nat)
    | WorkerStep(until: nat)
    | Tick                          // the clock
    | Preempt                       // an interrupt takes the worker off the processor
    | Resume                        // the scheduler chooses the worker

  predicate Runnable(s: State) {
    s.wake <= s.now
  }

  predicate Enabled(s: State, e: Event) {
    match e
    case Request(i) => i < |s.requesters|
    case WorkerStep(_) => s.running
    case Tick => true
    case Preempt => s.running && !s.worker.HaltCheck?
    case Resume => !s.running && Runnable(s)
  }

  function Step(s: State, e: Event): State
    requires Enabled(s, e)
  {
    match e
    case Tick => s.(now := s.now + 1)
    case Preempt => s.(running := false)
    case Resume => s.(running := true)
    case Request(i) =>
      (match s.requesters[i]
       case Idle => s.(pending := true, requesters := s.requesters[i := SetFlag])
       case SetFlag => s.(flag := true, requesters := s.requesters[i := LoadSlot])
       case LoadSlot => s.(requesters := s.requesters[i := if s.published then Wake else Idle])
       case Wake => s.(wake := 0, requesters := s.requesters[i := Idle]))
    case WorkerStep(until) =>
      match s.worker
      case Publish => s.(published := true, worker := Clear)
      case Clear => s.(flag := false, worker := Work(s.flag))
      case Work(got) => s.(pending := s.pending && !(s.always || got), worker := Announce(until))
      case Announce(tick) => s.(wake := tick, worker := CheckIdle)
      case CheckIdle => s.(worker := if s.flag then Leave else CheckWake)
      case CheckWake => s.(worker := if Runnable(s) then Leave else Yield)
      // The reschedule; a worker found runnable after all may be resumed at once.
      case Yield => s.(worker := Recheck, running := false)
      case Recheck => s.(worker := if Runnable(s) then Leave else HaltCheck)
      case HaltCheck => s.(worker := if Runnable(s) || s.flag then CheckIdle else Halted)
      case Halted => s.(worker := CheckIdle)
      case Leave => s.(wake := 0, worker := Clear)
  }

  // ---- the invariant ----

  /** Some requester is about to execute `r`. */
  predicate Someone(requesters: seq<Requester>, r: Requester) {
    exists i | 0 <= i < |requesters| :: requesters[i] == r
  }

  /** Some requester has set the flag and not returned yet. */
  predicate WakeComing(requesters: seq<Requester>) {
    Someone(requesters, LoadSlot) || Someone(requesters, Wake)
  }

  /** The worker has seen the flag clear and is on its way to sleep, or asleep. */
  predicate Committed(w: Worker) {
    w.CheckWake? || w.Yield? || w.Recheck?
  }

  /** The worker is not inside `block`. */
  predicate Outside(w: Worker) {
    w.Publish? || w.Clear? || w.Work? || w.Announce?
  }

  /** Where the worker is and what its wake-up tick then is. In particular the `hlt` at the end of
      `block`'s loop is never reached: a worker back from its yield is runnable. */
  predicate PlaceOk(s: State) {
    && (!s.worker.Publish? ==> s.published)
    && (Outside(s.worker) ==> s.wake == 0)
    && !s.worker.HaltCheck? && !s.worker.Halted?
    && (s.worker.Recheck? && s.running ==> Runnable(s))
    && (s.worker.Leave? ==> s.flag || Runnable(s))
  }

  /** The worker is in a round that will look at the work. */
  predicate AboutToLook(s: State) {
    s.worker.Work? && (s.always || s.worker.got)
  }

  /** Posted work is behind a request about to set the flag, the flag, or a round already under way. */
  predicate PendingOk(s: State) {
    s.pending ==> Someone(s.requesters, SetFlag) || s.flag || AboutToLook(s)
  }

  /** A flag set behind the worker's back, the worker not woken yet: a requester still has to wake it. */
  predicate FlagOk(s: State) {
    s.flag && Committed(s.worker) && s.wake != 0 ==> WakeComing(s.requesters)
  }

  predicate Inv(s: State) {
    PlaceOk(s) && PendingOk(s) && FlagOk(s)
  }

  lemma OthersStay(rs: seq<Requester>, i: nat, r: Requester, x: Requester)
    requires i < |rs| && Someone(rs, x) && rs[i] != x
    ensures Someone(rs[i := r], x)
  {
    var j :| 0 <= j < |rs| && rs[j] == x;
    assert rs[i := r][j] == x;
  }

  lemma BecomesOne(rs: seq<Requester>, i: nat, r: Requester)
    requires i < |rs|
    ensures Someone(rs[i := r], r)
  {
    assert rs[i := r][i] == r;
  }

  /** A requester's step, as the other requesters see it. */
  lemma RequestFacts(s: State, i: nat)
    requires i < |s.requesters|
    ensures var rs, rs' := s.requesters, Step(s, Request(i)).requesters;
            && (rs[i].Idle? ==> Someone(rs', SetFlag))
            && (rs[i].SetFlag? ==> Someone(rs', LoadSlot))
            && (rs[i].LoadSlot? && s.published ==> Someone(rs', Wake))
            && (!rs[i].SetFlag? && Someone(rs, SetFlag) ==> Someone(rs', SetFlag))
            && ((rs[i].Idle? || rs[i].SetFlag?) && WakeComing(rs) ==> WakeComing(rs'))
  {
    var rs, becomes := s.requesters, Step(s, Request(i)).requesters[i];
    BecomesOne(rs, i, becomes);
    forall x | rs[i] != x && Someone(rs, x)
      ensures Someone(rs[i := becomes], x)
    {
      OthersStay(rs, i, becomes, x);
    }
  }

  lemma RequestKeepsInv(s: State, i: nat)
    requires Inv(s) && i < |s.requesters|
    ensures Inv(Step(s, Request(i)))
  {
    hide Someone;
    RequestFacts(s, i);
  }

  lemma StepKeepsInv(s: State, e: Event)
    requires Inv(s) && Enabled(s, e)
    ensures Inv(Step(s, e))
  {
    hide Someone;
    if e.Request? {
      RequestKeepsInv(s, e.i);
    }
  }

  // ---- runs ----

  datatype Run = Start(always: bool, n: nat) | Then(prev: Run, e: Event)

  function Now(r: Run): State
    requires Legal(r)
    decreases r, 1
  {
    match r
    case Start(always, n) => State(always, false, false, 0, 0, false, false, Publish, seq(n, _ => Idle))
    case Then(p, e) => Step(Now(p), e)
  }

  predicate Legal(r: Run)
    decreases r, 0
  {
    r.Then? ==> Legal(r.prev) && Enabled(Now(r.prev), r.e)
  }

  lemma {:induction false} RunInv(r: Run)
    requires Legal(r)
    ensures Inv(Now(r))
  {
    if r.Then? {
      RunInv(r.prev);
      StepKeepsInv(Now(r.prev), r.e);
    }
  }

  /** `r` continues `past`. */
  predicate Continues(r: Run, past: Run) {
    r == past || (r.Then? && Continues(r.prev, past))
  }

  // ---- deadlines and rounds ----

  /** The deadline the worker's last round asked for. */
  function AskedUntil(r: Run): nat
    requires Legal(r)
  {
    if r.Start? then 0
    else if r.e.WorkerStep? && Now(r.prev).worker.Work? then r.e.until
    else AskedUntil(r.prev)
  }

  /** Between the announcement and the withdrawal. */
  predicate InBlock(w: Worker) {
    !Outside(w)
  }

  /** The wake-up tick is the one asked for, unless the worker was woken. */
  predicate AskedOk(s: State, until: nat) {
    && (s.worker.Announce? ==> s.worker.until == until)
    && (InBlock(s.worker) ==> s.wake == 0 || s.wake == until)
  }

  lemma AskedStep(s: State, e: Event, until: nat)
    requires Enabled(s, e) && AskedOk(s, until)
    ensures AskedOk(Step(s, e), if e.WorkerStep? && s.worker.Work? then e.until else until)
  {
    hide Runnable;
    if e.WorkerStep? {
      AskedWorkerStep(s, e.until, until);
    } else {
      assert Step(s, e).worker == s.worker && (Step(s, e).wake == s.wake || Step(s, e).wake == 0);
    }
  }

  lemma AskedWorkerStep(s: State, next: nat, until: nat)
    requires s.running && AskedOk(s, until)
    ensures AskedOk(Step(s, WorkerStep(next)), if s.worker.Work? then next else until)
  {
    hide Runnable;
  }

  lemma {:induction false} WakeIsAsked(r: Run)
    requires Legal(r)
    ensures AskedOk(Now(r), AskedUntil(r))
  {
    hide Step, AskedOk, Enabled;
    if r.Then? {
      WakeIsAsked(r.prev);
      AskedStep(Now(r.prev), r.e, AskedUntil(r.prev));
    } else {
      AskedAtStart(r);
    }
  }

  lemma AskedAtStart(r: Run)
    requires Legal(r) && r.Start?
    ensures AskedOk(Now(r), 0)
  {
  }

  /** A blocked worker can run exactly when it was woken or the deadline its round asked for has come. */
  lemma RunsAtDeadline(r: Run)
    requires Legal(r) && InBlock(Now(r).worker)
    ensures Runnable(Now(r)) <==> Now(r).wake == 0 || AskedUntil(r) <= Now(r).now
  {
    WakeIsAsked(r);
  }

  /** Ticks in the run. */
  function Ticks(r: Run): nat {
    if r.Start? then 0 else Ticks(r.prev) + if r.e.Tick? then 1 else 0
  }

  /** Work was posted since the worker last looked. */
  predicate Posted(r: Run)
    requires Legal(r)
  {
    && r.Then?
    && if r.e.Request? && Now(r.prev).requesters[r.e.i] == Idle then true
       else if r.e.WorkerStep? && AboutToLook(Now(r.prev)) then false
       else Posted(r.prev)
  }

  lemma PostedStep(s: State, e: Event)
    requires Enabled(s, e)
    ensures e.Request? ==> e.i < |s.requesters|
    ensures Step(s, e).now == s.now + if e.Tick? then 1 else 0
    ensures Step(s, e).pending ==
              if e.Request? && s.requesters[e.i] == Idle then true
              else if e.WorkerStep? && AboutToLook(s) then false else s.pending
  {
  }

  /** The clock counts the ticks, and work is pending exactly from when it is posted to the next look. */
  lemma {:induction false} PendingExactly(r: Run)
    requires Legal(r)
    ensures Now(r).now == Ticks(r)
    ensures Now(r).pending <==> Posted(r)
  {
    hide Step, Enabled, AboutToLook;
    if r.Then? {
      PendingExactly(r.prev);
      PostedStep(Now(r.prev), r.e);
    }
  }

  /** A request has set the flag since the worker last took it. */
  predicate Asked(r: Run)
    requires Legal(r)
  {
    && r.Then?
    && if r.e.Request? && Now(r.prev).requesters[r.e.i] == SetFlag then true
       else if r.e.WorkerStep? && Now(r.prev).worker.Clear? then false
       else Asked(r.prev)
  }

  /** The same, when the worker last took the flag. */
  predicate AskedAtTake(r: Run)
    requires Legal(r)
  {
    && r.Then?
    && if r.e.WorkerStep? && Now(r.prev).worker.Clear? then Asked(r.prev) else AskedAtTake(r.prev)
  }

  lemma FlagStep(s: State, e: Event)
    requires Enabled(s, e)
    ensures e.Request? ==> e.i < |s.requesters|
    ensures Step(s, e).flag ==
              if e.Request? && s.requesters[e.i] == SetFlag then true
              else if e.WorkerStep? && s.worker.Clear? then false else s.flag
    ensures Step(s, e).worker.Work? ==>
              if e.WorkerStep? && s.worker.Clear? then Step(s, e).worker.got == s.flag
              else Step(s, e).worker == s.worker
  {
  }

  /** The flag tells exactly whether the worker was asked since it last took it, so a round acts exactly on
      requests made since the round before took the flag. */
  lemma {:induction false} RoundsAnswerRequests(r: Run)
    requires Legal(r)
    ensures Now(r).flag <==> Asked(r)
    ensures Now(r).worker.Work? ==> (Now(r).worker.got <==> AskedAtTake(r))
  {
    hide Step, Enabled;
    if r.Then? {
      RoundsAnswerRequests(r.prev);
      FlagStep(Now(r.prev), r.e);
    }
  }

  // ---- when a wakeup is lost ----

  predicate AllReturned(s: State) {
    forall i | 0 <= i < |s.requesters| :: s.requesters[i] == Idle
  }

  /** Work is posted, every request has returned, and the worker is off the processor and blocked. */
  predicate Lost(s: State) {
    s.pending && AllReturned(s) && !s.running && !Runnable(s)
  }

  /** The worker has announced its block and not withdrawn it, although the flag is set: it is about to
      find the flag, or has found it and is about to leave. */
  predicate Exposed(s: State) {
    (s.worker.CheckIdle? || s.worker.Leave?) && s.flag && !Runnable(s)
  }

  /** The worker was last taken off the processor while `Exposed`, and since then nobody has woken it and
      its deadline has not come. */
  predicate Caught(r: Run)
    requires Legal(r)
  {
    && r.Then?
    && match r.e
       case Preempt => Exposed(Now(r.prev))
       case Request(i) => Caught(r.prev) && Now(r.prev).requesters[i] != Wake
       case Tick => Caught(r.prev) && !Runnable(Now(r))
       case WorkerStep(_) => false
       case Resume => false
  }

  lemma {:induction false} CaughtFacts(r: Run)
    requires Legal(r) && Caught(r)
    ensures !Now(r).running && Exposed(Now(r))
  {
    if !r.e.Preempt? {
      CaughtFacts(r.prev);
    }
  }

  /** A blocked worker off the processor with the flag set: it was caught, or a wake is on its way. */
  lemma {:induction false} BlockedWithFlag(r: Run)
    requires Legal(r) && Blocked(Now(r))
    ensures Caught(r) || WakeComing(Now(r).requesters)
  {
    if r.Then? {
      hide Blocked, Inv, WakeComing, Step, Exposed;
      RunInv(r.prev);
      BlockedStep(Now(r.prev), r.e);
      if Blocked(Now(r.prev)) {
        BlockedWithFlag(r.prev);
      }
    }
  }

  /** Off the processor, not runnable, and the flag set. */
  predicate Blocked(s: State) {
    !s.running && !Runnable(s) && s.flag
  }

  /** How a step leads to `Blocked`: it was so before and no wake is stored; or a wake is on its way; or
      the worker is taken off while `Exposed`. */
  lemma BlockedStep(s: State, e: Event)
    requires Inv(s) && Enabled(s, e) && Blocked(Step(s, e))
    ensures match e
            case Preempt => Exposed(s) || WakeComing(Step(s, e).requesters)
            case Request(i) =>
              || WakeComing(Step(s, e).requesters)
              || (Blocked(s) && s.requesters[i] != Wake && !WakeComing(s.requesters))
            case Tick => Blocked(s) && Step(s, e).requesters == s.requesters
            case WorkerStep(_) => WakeComing(Step(s, e).requesters)
            case Resume => false
  {
    hide Someone;
    if e.Request? {
      RequestFacts(s, e.i);
    }
  }

  lemma NobodyLeft(s: State)
    requires AllReturned(s)
    ensures !Someone(s.requesters, SetFlag) && !WakeComing(s.requesters)
  {
  }

  /** A wakeup is lost exactly when the worker was caught: taken off the processor after it announced its
      block, with the flag already set, before it withdrew the announcement. */
  lemma LostExactly(r: Run)
    requires Legal(r) && Now(r).pending && AllReturned(Now(r))
    ensures Lost(Now(r)) <==> Caught(r)
  {
    hide Someone;
    RunInv(r);
    NobodyLeft(Now(r));
    if Caught(r) {
      CaughtFacts(r);
    } else if Lost(Now(r)) {
      BlockedWithFlag(r);
    }
  }

  /** Interrupts are masked wherever the worker is `Exposed`: from the announcement to the look at the flag
      and, if that finds it set, on to the withdrawal. */
  predicate Shielded(r: Run)
    requires Legal(r)
  {
    r.Then? ==> Shielded(r.prev) && (r.e.Preempt? ==> !Exposed(Now(r.prev)))
  }

  lemma {:induction false} ShieldedNeverCaught(r: Run)
    requires Legal(r) && Shielded(r)
    ensures !Caught(r)
  {
    if r.Then? {
      ShieldedNeverCaught(r.prev);
    }
  }

  /** Then no wakeup is ever lost. */
  lemma NoLostWakeup(r: Run)
    requires Legal(r) && Shielded(r)
    ensures !Lost(Now(r))
  {
    ShieldedNeverCaught(r);
    if Lost(Now(r)) {
      LostExactly(r);
    }
  }

  /** The continuation makes no request. */
  predicate NoRequest(r: Run, past: Run)
    requires Continues(r, past)
  {
    r == past || (NoRequest(r.prev, past) && !r.e.Request?)
  }

  /** A lost wakeup stays lost: until the deadline, or another request, the worker makes no step. */
  lemma {:induction false} LostStays(past: Run, r: Run)
    requires Legal(past) && Lost(Now(past))
    requires Legal(r) && Continues(r, past) && NoRequest(r, past) && Now(r).now < Now(past).wake
    ensures Now(r) == Now(past).(now := Now(r).now)
  {
    hide Lost, Step;
    if r != past {
      ClockStep(Now(r.prev), r.e);
      LostStays(past, r.prev);
      LostStep(Now(past), Now(r.prev).now, r.e);
    }
  }

  lemma ClockStep(s: State, e: Event)
    requires Enabled(s, e)
    ensures s.now <= Step(s, e).now
  {
  }

  lemma LostStep(s: State, now: nat, e: Event)
    requires Lost(s) && now < s.wake && Enabled(s.(now := now), e) && !e.Request?
    ensures Step(s.(now := now), e) == s.(now := Step(s.(now := now), e).now)
  {
  }

  // ---- when it is not ----

  /** Steps of its own until the worker has looked. */
  function Distance(s: State): nat {
    match s.worker
    case Publish => 3
    case Clear => 2
    case Work(got) => if s.always || got then 1 else 6
    case Announce(_) => 5
    case CheckIdle => 4
    case CheckWake => 4
    case Yield => 5
    case Recheck => 4
    case HaltCheck => 5
    case Halted => 5
    case Leave => 3
  }

  /** Once every request has returned, posted work is looked at after at most six steps of the worker: each
      step brings it one nearer, and unless it was caught the worker always can step. */
  lemma AllReturnedMeansLook(r: Run, until: nat)
    requires Legal(r) && Now(r).pending && AllReturned(Now(r))
    ensures 1 <= Distance(Now(r)) <= 6
    ensures Enabled(Now(r), WorkerStep(until)) || Enabled(Now(r), Resume) || Caught(r)
    ensures Enabled(Now(r), WorkerStep(until)) ==>
              var s' := Step(Now(r), WorkerStep(until));
              if Distance(Now(r)) == 1 then !s'.pending else s'.pending && Distance(s') == Distance(Now(r)) - 1
  {
    hide Someone;
    RunInv(r);
    NobodyLeft(Now(r));
    LostExactly(r);
  }

  // ---- lost wakeups happen ----

  /** Every request step is made while the worker is off the processor, as one core has it when all
      requesters are threads. */
  predicate ThreadsOnly(r: Run)
    requires Legal(r)
  {
    r.Then? ==> ThreadsOnly(r.prev) && (r.e.Request? ==> !Now(r.prev).running)
  }

  /** `logd` has started, found nothing and is about to announce its block, when it is preempted and a
      whole request passes. */
  lemma RequestBeforeAnnounce() returns (r: Run)
    ensures Legal(r) && ThreadsOnly(r)
    ensures Now(r) == State(false, true, true, 0, 1, true, true, Announce(FOREVER), [Idle])
  {
    hide Legal, Now;
    var r0 := StartOne();
    var r1 := Extended(r0, Resume);
    var r2 := Extended(r1, WorkerStep(0));
    var r3 := Extended(r2, WorkerStep(0));
    var r4 := Extended(r3, WorkerStep(FOREVER));
    var r5 := Extended(r4, Tick);
    var r6 := Extended(r5, Preempt);
    var r7 := OneRequest(r6);
    r := Extended(r7, Resume);
  }

  lemma StartOne() returns (r: Run)
    ensures Legal(r) && ThreadsOnly(r)
    ensures Now(r) == State(false, false, false, 0, 0, false, false, Publish, [Idle])
  {
    r := Start(false, 1);
    assert Now(r).requesters == [Idle];
  }

  lemma Extended(r: Run, e: Event) returns (r': Run)
    requires Legal(r) && ThreadsOnly(r) && Enabled(Now(r), e) && (e.Request? ==> !Now(r).running)
    ensures Legal(r') && ThreadsOnly(r') && r' == Then(r, e) && Now(r') == Step(Now(r), e)
  {
    r' := Then(r, e);
  }

  /** One whole request of the single requester. */
  lemma OneRequest(r: Run) returns (r': Run)
    requires Legal(r) && ThreadsOnly(r) && Now(r).requesters == [Idle] && Now(r).published && !Now(r).running
    ensures Legal(r') && ThreadsOnly(r')
    ensures Now(r') == Now(r).(pending := true, flag := true, wake := 0)
  {
    hide Legal, Now;
    var r1 := Extended(r, Request(0));
    var r2 := Extended(r1, Request(0));
    var r3 := Extended(r2, Request(0));
    r' := Extended(r3, Request(0));
    assert Now(r').requesters == [Idle];
  }

  /** A run with thread requesters only that ends with a lost wakeup and no deadline. */
  predicate LosingRun(r: Run) {
    Legal(r) && ThreadsOnly(r) && Lost(Now(r)) && Now(r).wake == FOREVER
  }

  /** A tick between the announcement and the first look at the flag, and, in a second run, a tick between
      that look and the withdrawal: either way the request has returned and the worker sleeps for good. */
  lemma WakeupsAreLost() returns (atCheck: Run, atLeave: Run)
    ensures LosingRun(atCheck) && Now(atCheck).worker.CheckIdle?
    ensures LosingRun(atLeave) && Now(atLeave).worker.Leave?
  {
    hide Legal, Now;
    var r := RequestBeforeAnnounce();
    var r1 := Extended(r, WorkerStep(0));
    var r2 := Extended(r1, Tick);
    atCheck := Extended(r2, Preempt);
    var r3 := Extended(r1, WorkerStep(0));
    var r4 := Extended(r3, Tick);
    atLeave := Extended(r4, Preempt);
  }
}
