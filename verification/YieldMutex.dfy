/** `YieldMutex` as micro-steps: every atomic access of `lock` and of the guard's `drop` is one step, and
    threads interleave (and die) between any two of them. */
module YieldMutex {
  import opened Wrappers

  const MAX_THREADS: nat := 16
  const NO_OWNER: nat := 0xFFFF_FFFF_FFFF_FFFF
  const IRQ_OFF_SPINS: nat := 1_000_000

  datatype Outcome = Acquired | Reentrant | OwnerDead | Timeout

  /** Where a thread is: outside the lock's code (with the outcome of its last call), or about to
      execute the named access. */
  datatype Pc =
    | Outside(last: Option<Outcome>)
    | CompareExchange(spins: nat)
    | StoreOwner
    | LoadOwner(spins: nat)
    | Judge(loaded: nat, spins: nat)
    | Wait(spins: nat)
    | ClearLocked

  /** `guard`: the thread has a `YieldGuard` it has not started to drop. */
  datatype Thread = Thread(guard: bool, pc: Pc, dead: bool)

  function NewThread(): Thread {
    Thread(false, Outside(None), false)
  }

  datatype State = State(locked: bool, owner: nat, threads: seq<Thread>)

  datatype Event =
    | Call                          // enter `lock`
    | Access(interruptsOn: bool)    // the next access of `lock` or `drop`
    | Drop                          // start dropping the guard: clear `owner`
    | Die                           // a contained fault, or killed from outside
    | Respawn                       // the slot of a dead thread is given to a new one

  /** In the window between winning the compare-exchange and clearing `locked`. */
  predicate Holds(t: Thread) {
    t.guard || t.pc.StoreOwner? || t.pc.ClearLocked?
  }

  predicate IsDead(s: State, id: nat) {
    id < MAX_THREADS && id < |s.threads| && s.threads[id].dead
  }

  predicate Enabled(s: State, i: nat, e: Event) {
    && i < |s.threads|
    && var t := s.threads[i];
       match e
       case Call => !t.dead && t.pc.Outside?
       case Access(_) => !t.dead && !t.pc.Outside?
       case Drop => !t.dead && t.pc.Outside? && t.guard
       case Die => !t.dead
       case Respawn => t.dead
  }

  function Goto(s: State, i: nat, t: Thread): State
    requires i < |s.threads|
  {
    s.(threads := s.threads[i := t])
  }

  function Step(s: State, i: nat, e: Event): State
    requires Enabled(s, i, e)
  {
    var t := s.threads[i];
    match e
    case Call => Goto(s, i, t.(pc := CompareExchange(0)))
    case Drop => Goto(s, i, t.(guard := false, pc := ClearLocked)).(owner := NO_OWNER)
    case Die => Goto(s, i, t.(dead := true))
    case Respawn => Goto(s, i, NewThread())
    case Access(interruptsOn) =>
      match t.pc
      case CompareExchange(spins) =>
        if !s.locked then Goto(s, i, t.(pc := StoreOwner)).(locked := true)
        else Goto(s, i, t.(pc := LoadOwner(spins)))
      case StoreOwner => Goto(s, i, t.(guard := true, pc := Outside(Some(Acquired)))).(owner := i)
      case LoadOwner(spins) => Goto(s, i, t.(pc := Judge(s.owner, spins)))
      case Judge(loaded, spins) =>
        if loaded == i then Goto(s, i, t.(pc := Outside(Some(Reentrant))))
        else if loaded != NO_OWNER && IsDead(s, loaded) then Goto(s, i, t.(pc := Outside(Some(OwnerDead))))
        else Goto(s, i, t.(pc := Wait(spins)))
      case Wait(spins) =>
        if interruptsOn then Goto(s, i, t.(pc := CompareExchange(spins)))
        else if spins + 1 > IRQ_OFF_SPINS then Goto(s, i, t.(pc := Outside(Some(Timeout))))
        else Goto(s, i, t.(pc := CompareExchange(spins + 1)))
      case ClearLocked => Goto(s, i, t.(pc := Outside(None))).(locked := false)
  }

  // ---- runs ----

  datatype Run = Start(n: nat) | Then(prev: Run, i: nat, e: Event)

  function Now(r: Run): State
    requires Legal(r)
    decreases r, 1
  {
    match r
    case Start(n) => State(false, NO_OWNER, seq(n, _ => NewThread()))
    case Then(p, i, e) => Step(Now(p), i, e)
  }

  /** A legal run: at most `MAX_THREADS` slots, every event enabled when it happens. */
  predicate Legal(r: Run)
    decreases r, 0
  {
    match r
    case Start(n) => n <= MAX_THREADS
    case Then(p, i, e) => Legal(p) && Enabled(Now(p), i, e)
  }

  /** No slot is given to a new thread while the lock still names it as owner. */
  predicate CleanReuse(r: Run)
    requires Legal(r)
  {
    r.Then? ==> CleanReuse(r.prev) && (r.e.Respawn? ==> Now(r.prev).owner != r.i)
  }

  /** `r` continues `past`. */
  predicate Continues(r: Run, past: Run) {
    r == past || (r.Then? && Continues(r.prev, past))
  }

  /** From `past` to `r` slot `i` is not reused. */
  predicate NotReused(r: Run, past: Run, i: nat)
    requires Continues(r, past)
  {
    r == past || (NotReused(r.prev, past, i) && !(r.i == i && r.e.Respawn?))
  }

  // ---- the invariant ----

  /** Thread `i` and the two words: `locked` is set while it is in the window, `owner` names it exactly from
      storing itself there to starting the drop, and an owner it has loaded is itself exactly when `owner`
      still names it. */
  predicate ThreadOk(s: State, i: nat)
    requires i < |s.threads|
  {
    var t := s.threads[i];
    && (Holds(t) ==> s.locked)
    && (t.guard ==> s.owner == i && !t.pc.StoreOwner? && !t.pc.ClearLocked? && !t.pc.Wait?)
    && (t.pc.StoreOwner? || t.pc.ClearLocked? ==> s.owner == NO_OWNER)
    && (t.pc.Judge? ==> (t.pc.loaded == i <==> s.owner == i))
  }

  predicate WordsOk(s: State) {
    && |s.threads| <= MAX_THREADS
    && (s.owner == NO_OWNER || (s.owner < |s.threads| && s.locked))
    && (forall i | 0 <= i < |s.threads| :: ThreadOk(s, i))
    && (forall i, j | 0 <= i < j < |s.threads| :: !(Holds(s.threads[i]) && Holds(s.threads[j])))
  }

  /** The lock names nobody, or a thread that has the guard. */
  predicate OwnerHasGuard(s: State) {
    s.owner < |s.threads| ==> s.threads[s.owner].guard
  }

  lemma StepKeepsThreadOk(s: State, i: nat, e: Event, j: nat)
    requires WordsOk(s) && Enabled(s, i, e) && j < |s.threads|
    ensures j < |Step(s, i, e).threads| && ThreadOk(Step(s, i, e), j)
    ensures j != i ==> Step(s, i, e).threads[j] == s.threads[j]
  {
    assert ThreadOk(s, j) && ThreadOk(s, i);
    assert i < j || j < i || i == j;
  }

  /** Only a thread that finds `locked` clear enters the window, and `owner` names somebody only while
      `locked` is set. */
  lemma EntersWhenClear(s: State, i: nat, e: Event)
    requires WordsOk(s) && Enabled(s, i, e)
    ensures i < |Step(s, i, e).threads| == |s.threads|
    ensures Holds(Step(s, i, e).threads[i]) ==> Holds(s.threads[i]) || !s.locked
    ensures Step(s, i, e).owner == s.owner || Step(s, i, e).owner == i || Step(s, i, e).owner == NO_OWNER
    ensures Step(s, i, e).owner != NO_OWNER ==> Step(s, i, e).locked
  {
    assert ThreadOk(s, i);
  }

  lemma StepKeepsWords(s: State, i: nat, e: Event)
    requires WordsOk(s) && Enabled(s, i, e)
    ensures WordsOk(Step(s, i, e))
  {
    hide Step, Holds;
    var s' := Step(s, i, e);
    EntersWhenClear(s, i, e);
    forall j | 0 <= j < |s'.threads|
      ensures ThreadOk(s', j)
      ensures j != i ==> !(Holds(s'.threads[j]) && Holds(s'.threads[i])) && s'.threads[j] == s.threads[j]
    {
      StepKeepsThreadOk(s, i, e, j);
      assert ThreadOk(s, j);
      assert i < j || j < i || i == j;
    }
  }

  lemma {:induction false} RunWords(r: Run)
    requires Legal(r)
    ensures WordsOk(Now(r))
  {
    if r.Then? {
      RunWords(r.prev);
      StepKeepsWords(Now(r.prev), r.i, r.e);
    }
  }

  lemma StepKeepsOwner(s: State, i: nat, e: Event)
    requires WordsOk(s) && OwnerHasGuard(s) && Enabled(s, i, e)
    requires e.Respawn? ==> s.owner != i
    ensures OwnerHasGuard(Step(s, i, e))
  {
    assert ThreadOk(s, i);
  }

  /** At every point of every run without reuse of a named slot: the words agree with where every thread is,
      and the lock names nobody or a thread that has the guard. */
  lemma {:induction false} RunInv(r: Run)
    requires Legal(r) && CleanReuse(r)
    ensures WordsOk(Now(r)) && OwnerHasGuard(Now(r))
  {
    RunWords(r);
    if r.Then? {
      RunInv(r.prev);
      StepKeepsOwner(Now(r.prev), r.i, r.e);
    }
  }

  /** At every point of every run, whatever slots are reused: at most one thread is in the window between
      winning the compare-exchange and clearing `locked`; `locked` is set while one is, and while `owner`
      names anybody; `owner` names the thread that has the guard, and without reuse of a named slot nobody
      else. */
  lemma MutualExclusion(r: Run, i: nat, j: nat)
    requires Legal(r) && i < |Now(r).threads| && j < |Now(r).threads|
    ensures Holds(Now(r).threads[i]) && Holds(Now(r).threads[j]) ==> i == j
    ensures Holds(Now(r).threads[i]) || Now(r).owner == i ==> Now(r).locked
    ensures Now(r).threads[i].guard ==> Now(r).owner == i
    ensures CleanReuse(r) ==> (Now(r).threads[i].guard <==> Now(r).owner == i)
  {
    RunWords(r);
    if CleanReuse(r) {
      RunInv(r);
    }
    assert ThreadOk(Now(r), i);
    assert i < j || j < i || i == j;
  }

  /** A call ends in `Reentrant` exactly when the lock names the caller's slot; without reuse of a named slot
      that is exactly when the caller itself has the guard. */
  lemma ReentrantIffHolder(r: Run, i: nat, on: bool)
    requires Legal(r) && Enabled(Now(r), i, Access(on)) && Now(r).threads[i].pc.Judge?
    ensures var told := Step(Now(r), i, Access(on)).threads[i].pc == Outside(Some(Reentrant));
            && (told <==> Now(r).owner == i)
            && (CleanReuse(r) ==> (told <==> Now(r).threads[i].guard))
  {
    RunWords(r);
    if CleanReuse(r) {
      RunInv(r);
    }
    assert ThreadOk(Now(r), i);
  }

  /** A holder that calls `lock` again never waits and never wins. */
  lemma HolderNeverWaits(r: Run, i: nat)
    requires Legal(r) && i < |Now(r).threads| && Now(r).threads[i].guard
    ensures !Now(r).threads[i].pc.Wait? && !Now(r).threads[i].pc.StoreOwner?
  {
    RunWords(r);
    assert ThreadOk(Now(r), i);
  }

  /** Accesses of thread `i` from `past` to `r`. */
  function AccessesOf(r: Run, past: Run, i: nat): nat
    requires Continues(r, past)
  {
    if r == past then 0 else AccessesOf(r.prev, past, i) + if r.i == i && r.e.Access? then 1 else 0
  }

  /** Where a holder is `k` accesses into a second call. */
  function Relocking(i: nat, k: nat): Pc {
    if k == 0 then CompareExchange(0) else if k == 1 then LoadOwner(0) else Judge(i, 0)
  }

  /** It is told `Reentrant` at its third access, whatever the others do meanwhile: before that it is on its
      way, dead or alive, with the guard. */
  lemma {:induction false} HolderIsTold(p: Run, i: nat, r: Run)
    requires Legal(Then(p, i, Call)) && i < |Now(p).threads| && Now(p).threads[i].guard
    requires Legal(r) && Continues(r, Then(p, i, Call)) && NotReused(r, Then(p, i, Call), i)
    requires AccessesOf(r, Then(p, i, Call), i) <= 2
    ensures i < |Now(r).threads| && Now(r).threads[i].guard
    ensures Now(r).threads[i].pc == Relocking(i, AccessesOf(r, Then(p, i, Call), i))
    ensures AccessesOf(r, Then(p, i, Call), i) == 2 && !Now(r).threads[i].dead ==>
              && Enabled(Now(r), i, Access(true))
              && Step(Now(r), i, Access(true)).threads[i].pc == Outside(Some(Reentrant))
              && Step(Now(r), i, Access(true)).threads[i].guard
  {
    var past := Then(p, i, Call);
    if r != past {
      HolderIsTold(p, i, r.prev);
      RunWords(r.prev);
      RelockStep(Now(r.prev), r.i, r.e, i, AccessesOf(r.prev, past, i));
    }
  }

  lemma RelockStep(s: State, j: nat, e: Event, i: nat, k: nat)
    requires WordsOk(s) && Enabled(s, j, e) && i < |s.threads| && s.threads[i].guard && !(j == i && e.Respawn?)
    requires k <= 2 && s.threads[i].pc == Relocking(i, k) && (j == i && e.Access? ==> k < 2)
    ensures i < |Step(s, j, e).threads| && Step(s, j, e).threads[i].guard
    ensures Step(s, j, e).threads[i].pc == Relocking(i, if j == i && e.Access? then k + 1 else k)
  {
    assert ThreadOk(s, i);
  }

  // ---- when the lock is taken ----

  predicate SomeoneHolds(s: State) {
    exists i | 0 <= i < |s.threads| :: Holds(s.threads[i])
  }

  /** The slot of a thread that died in the window was given to a new thread. */
  predicate HolderReused(r: Run)
    requires Legal(r)
  {
    r.Then? && (HolderReused(r.prev) || (r.e.Respawn? && Holds(Now(r.prev).threads[r.i])))
  }

  /** `locked` is set exactly while somebody is in the window, or, with nobody in it any more, from the reuse
      of a dead holder's slot on. So a lock that was dropped is free, and in a run without such a reuse a
      lock nobody holds is free. */
  lemma {:induction false} LockedExactly(r: Run)
    requires Legal(r)
    ensures Now(r).locked <==> SomeoneHolds(Now(r)) || HolderReused(r)
    ensures HolderReused(r) ==> !SomeoneHolds(Now(r))
  {
    if r.Then? {
      LockedExactly(r.prev);
      RunWords(r.prev);
      HoldersStep(Now(r.prev), r.i, r.e);
    } else {
      assert forall i | 0 <= i < |Now(r).threads| :: !Holds(Now(r).threads[i]);
    }
  }

  /** Who is in the window after a step: whoever wins the free lock word; nobody once the holder clears it or
      its slot is reused; otherwise whoever was. */
  lemma HoldersStep(s: State, i: nat, e: Event)
    requires WordsOk(s) && Enabled(s, i, e)
    ensures var s', was := Step(s, i, e), s.threads[i];
            && (SomeoneHolds(s') <==>
                 if Holds(was) then !e.Respawn? && !(e.Access? && was.pc.ClearLocked?)
                 else SomeoneHolds(s) || (e.Access? && was.pc.CompareExchange? && !s.locked))
            && (s'.locked <==>
                 (s.locked && !(e.Access? && was.pc.ClearLocked?)) || (e.Access? && was.pc.CompareExchange?))
  {
    var s' := Step(s, i, e);
    assert ThreadOk(s, i);
    assert forall j | 0 <= j < |s.threads| && j != i :: s'.threads[j] == s.threads[j];
    if Holds(s.threads[i]) {
      forall j | 0 <= j < |s.threads| && j != i
        ensures !Holds(s'.threads[j])
      {
        assert i < j || j < i;
      }
    }
    assert Holds(s'.threads[i]) ==> SomeoneHolds(s');
    if j :| 0 <= j < |s.threads| && j != i && Holds(s.threads[j]) {
      assert Holds(s'.threads[j]);
    }
  }

  /** The compare-exchange wins exactly when nobody is in the window and no holder's slot was ever reused; the
      winner's next access makes it the owner, with the guard, and returns. */
  lemma WinsIffFree(r: Run, i: nat, on: bool, on': bool)
    requires Legal(r) && Enabled(Now(r), i, Access(on)) && Now(r).threads[i].pc.CompareExchange?
    ensures var s' := Step(Now(r), i, Access(on));
            && (s'.threads[i].pc.StoreOwner? <==> !SomeoneHolds(Now(r)) && !HolderReused(r))
            && (s'.threads[i].pc.StoreOwner? ==>
                  && s'.locked && Enabled(s', i, Access(on'))
                  && var won := Step(s', i, Access(on'));
                     won.owner == i && won.threads[i] == Thread(true, Outside(Some(Acquired)), false))
            && (!s'.threads[i].pc.StoreOwner? ==> s'.threads[i].pc.LoadOwner?)
  {
    LockedExactly(r);
  }

  /** Dropping the guard clears `owner`, and its last access frees the lock: nobody is in the window, and the
      next compare-exchange of any thread wins. */
  lemma DropFrees(r: Run, i: nat, on: bool)
    requires Legal(r) && i < |Now(r).threads|
    ensures Enabled(Now(r), i, Drop) ==>
              var s' := Step(Now(r), i, Drop);
              s'.owner == NO_OWNER && s'.threads[i] == Thread(false, ClearLocked, false)
    ensures Enabled(Now(r), i, Access(on)) && Now(r).threads[i].pc.ClearLocked? ==>
              var s' := Step(Now(r), i, Access(on));
              && !s'.locked && s'.owner == NO_OWNER && !SomeoneHolds(s')
              && s'.threads[i] == Thread(false, Outside(None), false)
  {
    RunWords(r);
    assert ThreadOk(Now(r), i);
    if Enabled(Now(r), i, Access(on)) {
      HoldersStep(Now(r), i, Access(on));
    }
  }

  // ---- the interrupts-off budget ----

  /** How often thread `i` has waited with interrupts off in its current call. */
  function OffWaits(r: Run, i: nat): nat
    requires Legal(r)
  {
    if r.Start? || (r.i == i && (r.e.Call? || r.e.Respawn?)) then 0
    else OffWaits(r.prev, i) +
         if r.i == i && r.e == Access(false) && Now(r.prev).threads[i].pc.Wait? then 1 else 0
  }

  function SpinsOf(pc: Pc): Option<nat> {
    match pc
    case CompareExchange(spins) => Some(spins)
    case LoadOwner(spins) => Some(spins)
    case Judge(_, spins) => Some(spins)
    case Wait(spins) => Some(spins)
    case _ => None
  }

  lemma {:induction false} SpinsCountOffWaits(r: Run, i: nat)
    requires Legal(r) && i < |Now(r).threads|
    ensures var spins := SpinsOf(Now(r).threads[i].pc);
            spins.Some? ==> spins.value == OffWaits(r, i) <= IRQ_OFF_SPINS
  {
    if r.Then? {
      var s := Now(r.prev);
      SpinsStep(s, r.i, r.e, i);
      SpinsCountOffWaits(r.prev, i);
    }
  }

  /** One step and the spin count of thread `i`. */
  lemma SpinsStep(s: State, j: nat, e: Event, i: nat)
    requires Enabled(s, j, e) && i < |Step(s, j, e).threads|
    ensures i < |s.threads|
    ensures var was, now := SpinsOf(s.threads[i].pc), SpinsOf(Step(s, j, e).threads[i].pc);
            now.Some? ==>
              if j == i && e.Call? then now.value == 0
              else
                && was.Some?
                && if j == i && e == Access(false) && s.threads[i].pc.Wait?
                   then now.value == was.value + 1 <= IRQ_OFF_SPINS else now == was
    ensures j == i && e.Respawn? ==> SpinsOf(Step(s, j, e).threads[i].pc).None?
  {
  }

  /** A wait gives up with `Timeout` exactly when interrupts are off and the call has already waited so
      `IRQ_OFF_SPINS` times; with interrupts on it always tries again. */
  lemma TimeoutExactly(r: Run, i: nat, on: bool)
    requires Legal(r) && Enabled(Now(r), i, Access(on)) && Now(r).threads[i].pc.Wait?
    ensures var pc' := Step(Now(r), i, Access(on)).threads[i].pc;
            && (pc' == Outside(Some(Timeout)) <==> !on && OffWaits(r, i) == IRQ_OFF_SPINS)
            && (pc'.Outside? || pc'.CompareExchange?)
  {
    SpinsCountOffWaits(r, i);
  }

  /** Where each answer comes from. */
  lemma AnswersComeFrom(r: Run, i: nat, on: bool)
    requires Legal(r) && Enabled(Now(r), i, Access(on)) && Step(Now(r), i, Access(on)).threads[i].pc.Outside?
    ensures var pc := Now(r).threads[i].pc;
            match Step(Now(r), i, Access(on)).threads[i].pc.last
            case None => pc.ClearLocked?
            case Some(Acquired) => pc.StoreOwner?
            case Some(Reentrant) => pc.Judge? && Now(r).owner == i
            case Some(OwnerDead) => pc.Judge? && IsDead(Now(r), pc.loaded)
            case Some(Timeout) => pc.Wait? && !on && OffWaits(r, i) == IRQ_OFF_SPINS
  {
    RunWords(r);
    assert ThreadOk(Now(r), i);
    SpinsCountOffWaits(r, i);
  }

  // ---- a holder that dies ----

  predicate DeadHolder(s: State, d: nat) {
    d < |s.threads| && s.threads[d].dead && Holds(s.threads[d])
  }

  /** The lock word is set and no living thread will clear it. */
  predicate Poisoned(s: State) {
    s.locked && forall i | 0 <= i < |s.threads| && Holds(s.threads[i]) :: s.threads[i].dead
  }

  /** A dead thread stays where it died, in every continuation, until its slot is reused. */
  lemma {:induction false} DeadStaysPut(p: Run, i: nat, r: Run)
    requires Legal(Then(p, i, Die)) && Legal(r) && Continues(r, Then(p, i, Die)) && NotReused(r, Then(p, i, Die), i)
    ensures i < |Now(p).threads| && i < |Now(r).threads|
    ensures Now(r).threads[i] == Now(p).threads[i].(dead := true)
  {
    if r != Then(p, i, Die) {
      DeadStaysPut(p, i, r.prev);
      DeadUnmoved(Now(r.prev), r.i, r.e, i);
    }
  }

  lemma DeadUnmoved(s: State, j: nat, e: Event, i: nat)
    requires Enabled(s, j, e) && i < |s.threads| && s.threads[i].dead && !(j == i && e.Respawn?)
    ensures i < |Step(s, j, e).threads| && Step(s, j, e).threads[i] == s.threads[i]
  {
  }

  /** A thread that dies in the window poisons the lock. */
  lemma DeathPoisons(r: Run, d: nat)
    requires Legal(r) && DeadHolder(Now(r), d)
    ensures Poisoned(Now(r))
    ensures Now(r).owner == if Now(r).threads[d].guard then d else NO_OWNER
  {
    RunWords(r);
    var s := Now(r);
    assert ThreadOk(s, d);
    forall i | 0 <= i < |s.threads| && Holds(s.threads[i])
      ensures i == d
    {
      assert i < d || d < i || i == d;
    }
  }

  lemma PoisonedStep(s: State, i: nat, e: Event)
    requires Poisoned(s) && Enabled(s, i, e)
    ensures Poisoned(Step(s, i, e)) && Step(s, i, e).owner == s.owner
    ensures |Step(s, i, e).threads| == |s.threads|
  {
  }

  /** A poisoned lock is poisoned for good: whatever happens afterwards, whatever slots are reused, `locked`
      and `owner` never change again and no living thread ever has the lock. */
  lemma {:induction false} PoisonedForGood(past: Run, r: Run)
    requires Legal(r) && Continues(r, past) && Legal(past) && Poisoned(Now(past))
    ensures Poisoned(Now(r)) && Now(r).owner == Now(past).owner && |Now(r).threads| == |Now(past).threads|
  {
    hide Poisoned, Step;
    if r != past {
      PoisonedForGood(past, r.prev);
      PoisonedStep(Now(r.prev), r.i, r.e);
    }
  }

  /** The owner of a poisoned lock is dead, unless its slot was given away. */
  lemma PoisonedOwner(r: Run)
    requires Legal(r) && CleanReuse(r) && Poisoned(Now(r)) && Now(r).owner != NO_OWNER
    ensures Now(r).owner < |Now(r).threads| && Now(r).threads[Now(r).owner].dead
  {
    RunInv(r);
  }

  /** Reusing the slot of a poisoned lock's owner is the only way to leave `CleanReuse`, so a run is clean or
      the lock is poisoned for good with an owner published. */
  lemma {:induction false} CleanOrPoisoned(r: Run)
    requires Legal(r) && !CleanReuse(r)
    ensures Poisoned(Now(r)) && Now(r).owner != NO_OWNER
  {
    if CleanReuse(r.prev) {
      RunInv(r.prev);
      var s := Now(r.prev);
      assert DeadHolder(s, r.i);
      DeathPoisons(r.prev, r.i);
    } else {
      CleanOrPoisoned(r.prev);
    }
    PoisonedStep(Now(r.prev), r.i, r.e);
  }

  // ---- calls on a poisoned lock ----

  /** Whatever a living caller was doing when the lock was poisoned, the access that ends its call says
      `OwnerDead` or, with interrupts off, `Timeout`; `Reentrant` only in the slot the lock names, given to
      a new thread. */
  lemma PoisonedAnswers(r: Run, i: nat, on: bool)
    requires Legal(r) && Poisoned(Now(r)) && Enabled(Now(r), i, Access(on))
    ensures var pc' := Step(Now(r), i, Access(on)).threads[i].pc;
            pc'.Outside? ==>
              || pc'.last == Some(OwnerDead)
              || (pc'.last == Some(Timeout) && !on)
              || (pc'.last == Some(Reentrant) && Now(r).owner == i && !CleanReuse(r))
  {
    RunWords(r);
    assert ThreadOk(Now(r), i);
    if CleanReuse(r) {
      RunInv(r);
    }
  }

  /** A call is told `OwnerDead` exactly when the slot it found named is dead as it judges. Then the lock is
      poisoned, or that owner is no longer the one named: it had dropped the lock before it died. */
  lemma OwnerDeadMeans(r: Run, i: nat, on: bool)
    requires Legal(r) && Enabled(Now(r), i, Access(on)) && Now(r).threads[i].pc.Judge?
    ensures var loaded := Now(r).threads[i].pc.loaded;
            var told := Step(Now(r), i, Access(on)).threads[i].pc == Outside(Some(OwnerDead));
            && (told <==> loaded != i && IsDead(Now(r), loaded))
            && (told ==> Poisoned(Now(r)) || Now(r).owner != loaded)
  {
    RunWords(r);
    var loaded := Now(r).threads[i].pc.loaded;
    if IsDead(Now(r), loaded) && Now(r).owner == loaded && CleanReuse(r) {
      RunInv(r);
      DeathPoisons(r, loaded);
    }
    if !CleanReuse(r) {
      CleanOrPoisoned(r);
    }
  }

  /** A call begun after the death: the owner it may have loaded is the one the lock names for good. */
  predicate LateCall(pc: Pc, owner: nat) {
    !pc.StoreOwner? && !pc.ClearLocked? && (pc.Judge? ==> pc.loaded == owner)
  }

  lemma LateCallStep(s: State, j: nat, e: Event, i: nat)
    requires Poisoned(s) && Enabled(s, j, e) && i < |s.threads| && LateCall(s.threads[i].pc, s.owner)
    ensures i < |Step(s, j, e).threads| && LateCall(Step(s, j, e).threads[i].pc, s.owner)
  {
  }

  lemma {:induction false} LateCalls(past: Run, r: Run, i: nat)
    requires Legal(r) && Continues(r, past) && Legal(past) && Poisoned(Now(past))
    requires i < |Now(past).threads| && Now(past).threads[i].pc.Outside?
    ensures i < |Now(r).threads| && LateCall(Now(r).threads[i].pc, Now(past).owner)
  {
    hide Poisoned, Step;
    if r != past {
      LateCalls(past, r.prev, i);
      PoisonedForGood(past, r.prev);
      LateCallStep(Now(r.prev), r.i, r.e, i);
    }
  }

  /** What a call begun later gets, whatever slots are reused, also the owner's: its accesses go round
      compare-exchange, load, judge and wait; the judgement is `OwnerDead` exactly when the slot the lock
      names holds a dead thread at that access, and otherwise the call waits. */
  lemma LateCallAnswered(past: Run, r: Run, i: nat, on: bool)
    requires Legal(r) && Continues(r, past) && Legal(past) && Poisoned(Now(past))
    requires i < |Now(past).threads| && i != Now(past).owner && Now(past).threads[i].pc.Outside?
    requires Enabled(Now(r), i, Access(on))
    ensures var s, pc' := Now(r), Step(Now(r), i, Access(on)).threads[i].pc;
            match s.threads[i].pc
            case CompareExchange(_) => pc'.LoadOwner?
            case LoadOwner(_) => pc'.Judge?
            case Judge(_, _) => if IsDead(s, s.owner) then pc' == Outside(Some(OwnerDead)) else pc'.Wait?
            case Wait(_) => pc'.CompareExchange? || (pc' == Outside(Some(Timeout)) && !on)
            case _ => false
  {
    LateCalls(past, r, i);
    PoisonedForGood(past, r);
    RunWords(r);
  }

  lemma {:induction false} LateAttemptsNeverWait(past: Run, r: Run, i: nat)
    requires Legal(r) && CleanReuse(r) && Continues(r, past)
    requires Legal(past) && Poisoned(Now(past)) && Now(past).owner != NO_OWNER
    requires i < |Now(past).threads| && i != Now(past).owner && Now(past).threads[i].pc.Outside?
    ensures i < |Now(r).threads| && !Now(r).threads[i].pc.Wait?
  {
    hide Poisoned, Step;
    if r != past {
      LateAttemptsNeverWait(past, r.prev, i);
      LateCalls(past, r.prev, i);
      PoisonedForGood(past, r.prev);
      PoisonedOwner(r.prev);
      NoWaitStep(r.prev, r.i, r.e, i);
    }
  }

  /** Accesses left before such a call returns. */
  function Remaining(pc: Pc): nat {
    if pc.CompareExchange? then 3 else if pc.LoadOwner? then 2 else if pc.Judge? then 1 else 0
  }

  /** So once a published owner is dead, and while its slot is not given away, every call begun later ends in
      `OwnerDead` at its third access: each access brings it one nearer, and it never waits. */
  lemma LateAttemptsSeeOwnerDead(past: Run, r: Run, i: nat, on: bool)
    requires Legal(r) && CleanReuse(r) && Continues(r, past)
    requires Legal(past) && Poisoned(Now(past)) && Now(past).owner != NO_OWNER
    requires i < |Now(past).threads| && i != Now(past).owner && Now(past).threads[i].pc.Outside?
    requires Enabled(Now(r), i, Access(on))
    ensures var pc, pc' := Now(r).threads[i].pc, Step(Now(r), i, Access(on)).threads[i].pc;
            && Remaining(pc') == Remaining(pc) - 1
            && (Remaining(pc') == 0 ==> pc' == Outside(Some(OwnerDead)))
  {
    LateAttemptsNeverWait(past, r, i);
    LateCallAnswered(past, r, i, on);
    PoisonedForGood(past, r);
    PoisonedOwner(r);
    RunWords(r);
  }

  lemma NoWaitStep(r: Run, j: nat, e: Event, i: nat)
    requires Legal(r) && Enabled(Now(r), j, e) && i < |Now(r).threads| && !Now(r).threads[i].pc.Wait?
    requires Now(r).owner < |Now(r).threads| && Now(r).threads[Now(r).owner].dead && i != Now(r).owner
    requires LateCall(Now(r).threads[i].pc, Now(r).owner)
    ensures i < |Step(Now(r), j, e).threads| && !Step(Now(r), j, e).threads[i].pc.Wait?
  {
    RunWords(r);
  }

  /** The exact limit of the dead-owner check: when the lock is poisoned with no owner published (the holder
      died before it stored `owner` or after it cleared it), a caller that arrives later gets no answer with
      interrupts on: none of its accesses ends the call, in any continuation, whatever slots are reused, also
      in the dead holder's own slot. */
  lemma UnpublishedDeathNeverAnswered(past: Run, r: Run, i: nat)
    requires Legal(r) && Continues(r, past)
    requires Legal(past) && Poisoned(Now(past)) && Now(past).owner == NO_OWNER
    requires i < |Now(past).threads| && Now(past).threads[i].pc.Outside?
    ensures |Now(r).threads| == |Now(past).threads|
    ensures Enabled(Now(r), i, Access(true)) ==> !Step(Now(r), i, Access(true)).threads[i].pc.Outside?
    ensures Enabled(Now(r), i, Access(false)) && Step(Now(r), i, Access(false)).threads[i].pc.Outside? ==>
              Step(Now(r), i, Access(false)).threads[i].pc == Outside(Some(Timeout))
  {
    PoisonedForGood(past, r);
    RunWords(r);
    if Enabled(Now(r), i, Access(true)) {
      LateCallAnswered(past, r, i, true);
      LateCallAnswered(past, r, i, false);
    }
  }

  /** Slot `d` is reused after its thread died as an unpublished holder: the lock stays poisoned, with nobody
      in the window any more. */
  lemma ReusedHolder(r: Run, d: nat)
    requires Legal(r) && DeadHolder(Now(r), d) && !Now(r).threads[d].guard
    ensures var r' := Then(r, d, Respawn);
            && Legal(r') && Poisoned(Now(r')) && Now(r').owner == NO_OWNER
            && forall i | 0 <= i < |Now(r').threads| :: !Holds(Now(r').threads[i])
  {
    DeathPoisons(r, d);
    RunWords(r);
    PoisonedStep(Now(r), d, Respawn);
    var s := Now(r);
    forall i | 0 <= i < |s.threads| && i != d
      ensures !Holds(s.threads[i])
    {
      assert i < d || d < i;
    }
  }

  // ---- slot reuse ----

  /** The run in which slot `i` is reused and its new thread calls `lock` once. */
  function ReuseAndLock(r: Run, i: nat): Run {
    Then(Then(Then(Then(Then(r, i, Respawn), i, Call), i, Access(true)), i, Access(true)), i, Access(true))
  }

  lemma Extend(r: Run, i: nat, e: Event)
    requires Legal(r) && Enabled(Now(r), i, e)
    ensures Legal(Then(r, i, e)) && Now(Then(r, i, e)) == Step(Now(r), i, e)
  {
  }

  /** `CleanReuse` is exactly what the reentrancy answer needs: giving away a slot the lock still names
      as owner always lets the new thread be told `Reentrant` although it holds nothing. */
  lemma DirtyReuseMisleads(r: Run, i: nat)
    requires Legal(r)
    requires i < |Now(r).threads| && Now(r).threads[i].dead && Now(r).owner == i
    ensures var r2 := ReuseAndLock(r, i);
            && Legal(r2) && !CleanReuse(r2)
            && Now(r2).threads[i].pc == Outside(Some(Reentrant)) && !Holds(Now(r2).threads[i])
  {
    assert Now(r).locked by {
      RunWords(r);
    }
    hide Legal, Now;
    var r1 := Then(r, i, Respawn);
    Extend(r, i, Respawn);
    var r2 := Then(r1, i, Call);
    Extend(r1, i, Call);
    var r3 := Then(r2, i, Access(true));
    Extend(r2, i, Access(true));
    var r4 := Then(r3, i, Access(true));
    Extend(r3, i, Access(true));
    Extend(r4, i, Access(true));
    assert !CleanReuse(r1) && !CleanReuse(r2) && !CleanReuse(r3) && !CleanReuse(r4);
  }

  /** A thread that has the guard drops it and dies after a caller has loaded it as the owner: the caller is
      told `OwnerDead` although the lock is free. */
  predicate EndsMisjudged(r: Run, i: nat) {
    && Legal(r) && CleanReuse(r) && Enabled(Now(r), i, Access(true)) && !Now(r).locked
    && Step(Now(r), i, Access(true)).threads[i].pc == Outside(Some(OwnerDead))
  }

  lemma StaleOwnerDead() returns (r: Run)
    ensures EndsMisjudged(r, 0)
  {
    hide Legal, Now;
    var r1 := Extended(StartTwo(), 1, Call);
    var r2 := Extended(r1, 1, Access(true));
    var r3 := Extended(r2, 1, Access(true));
    var r4 := Extended(r3, 0, Call);
    var r5 := Extended(r4, 0, Access(true));
    var r6 := Extended(r5, 0, Access(true));
    assert Now(r6).threads[0].pc == Judge(1, 0);
    var r7 := Extended(r6, 1, Drop);
    var r8 := Extended(r7, 1, Access(true));
    r := Extended(r8, 1, Die);
  }

  lemma Extended(r: Run, i: nat, e: Event) returns (r': Run)
    requires Legal(r) && CleanReuse(r) && Enabled(Now(r), i, e) && !e.Respawn?
    ensures Legal(r') && CleanReuse(r') && Now(r') == Step(Now(r), i, e)
  {
    r' := Then(r, i, e);
  }

  function StartTwo(): (r: Run)
    ensures Legal(r) && CleanReuse(r) && Now(r) == State(false, NO_OWNER, [NewThread(), NewThread()])
  {
    assert Now(Start(2)).threads == [NewThread(), NewThread()];
    Start(2)
  }

  /** A run without reuse that ends with thread 1 dead in the window, `owner` as given, and thread 0 alive and
      yet to call `lock`. */
  predicate EndsInDeath(r: Run, owner: nat) {
    && Legal(r) && CleanReuse(r)
    && var s := Now(r);
       |s.threads| == 2 && s.threads[0] == NewThread() && DeadHolder(s, 1) && s.owner == owner
  }

  /** Such runs exist: a thread takes the lock and dies with it, and, in a second run, dies before it has
      published itself. */
  lemma OwnerCanDie() returns (published: Run, unpublished: Run)
    ensures EndsInDeath(published, 1) && EndsInDeath(unpublished, NO_OWNER)
  {
    var r0 := Start(2);
    var r1 := Then(r0, 1, Call);
    var r2 := Then(r1, 1, Access(true));
    assert Now(r2).threads[1].pc == StoreOwner && Now(r2).threads[0] == NewThread();
    unpublished := Then(r2, 1, Die);
    var r3 := Then(r2, 1, Access(true));
    assert Now(r3).threads[1] == Thread(true, Outside(Some(Acquired)), false);
    published := Then(r3, 1, Die);
  }
}
