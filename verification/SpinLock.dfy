/** The interrupt-masking `SpinLock` on one core: each instruction that touches a lock word or the
    interrupt flag is one step, and a timer tick may switch threads wherever the flag allows it. */
module SpinLock {
  import opened Wrappers

  /** A live guard: the lock it holds (`None` for a bare `without_interrupts` section) and the interrupt
      flag it found. */
  datatype Frame = Frame(lock: Option<nat>, intsEnabled: bool)

  datatype Pc =
    | Normal
    | Disable(section: Option<nat>, intsEnabled: bool)   // flag read, `cli` next
    | CompareExchange(lock: nat, intsEnabled: bool)      // interrupts off, trying the lock word
    | Restore(intsEnabled: bool)                         // lock word cleared, maybe `sti` next

  /** `saved` is the interrupt flag in the saved context of a thread that is switched out; `base` the
      flag it runs with outside every guard. */
  datatype Thread = Thread(frames: seq<Frame>, pc: Pc, saved: bool, base: bool, dead: bool)

  datatype State = State(threads: seq<Thread>, cur: nat, interrupts: bool, locked: set<nat>)

  datatype Event =
    | ReadFlag(lock: Option<nat>)   // enter `lock` or `without_interrupts`
    | Continue                      // the next instruction of `lock` or `drop`
    | Drop(k: nat)                  // drop the guard at depth `k`: clear its lock word
    | Switch(to: nat)               // timer tick or yield
    | Kill(slot: nat)               // mark a slot dead
    | BootEnable                    // `interrupts::init` turns interrupts on

  function LocksOf(frames: seq<Frame>): set<nat> {
    set i | 0 <= i < |frames| && frames[i].lock.Some? :: frames[i].lock.value
  }

  predicate Enabled(s: State, e: Event) {
    && s.cur < |s.threads|
    && var t := s.threads[s.cur];
       match e
       case ReadFlag(_) => t.pc.Normal?
       case Continue => !t.pc.Normal?
       case Drop(k) => t.pc.Normal? && k < |t.frames|
       // A tick needs the flag, and `yield_now` returns at once without it.
       case Switch(to) => s.interrupts && to < |s.threads| && to != s.cur && !s.threads[to].dead
       case Kill(slot) => 0 < slot < |s.threads|
       case BootEnable => s.cur == 0 && t.pc.Normal? && t.frames == []
  }

  function Running(s: State, t: Thread): State
    requires s.cur < |s.threads|
  {
    s.(threads := s.threads[s.cur := t])
  }

  function Step(s: State, e: Event): State
    requires Enabled(s, e)
  {
    var t := s.threads[s.cur];
    match e
    case ReadFlag(lock) => Running(s, t.(pc := Disable(lock, s.interrupts)))
    case Continue =>
      (match t.pc
       case Normal => s
       case Disable(lock, on) =>
         var s' := s.(interrupts := false);
         if lock.None? then Running(s', t.(pc := Normal, frames := t.frames + [Frame(None, on)]))
         else Running(s', t.(pc := CompareExchange(lock.value, on)))
       case CompareExchange(lock, on) =>
         if lock in s.locked then s
         else Running(s.(locked := s.locked + {lock}), t.(pc := Normal, frames := t.frames + [Frame(Some(lock), on)]))
       case Restore(on) => Running(if on then s.(interrupts := true) else s, t.(pc := Normal)))
    case Drop(k) =>
      var f := t.frames[k];
      var s' := if f.lock.Some? then s.(locked := s.locked - {f.lock.value}) else s;
      Running(s', t.(frames := t.frames[..k] + t.frames[k + 1..], pc := Restore(f.intsEnabled)))
    case Switch(to) =>
      var s' := Running(s, t.(saved := s.interrupts));
      s'.(cur := to, interrupts := s.threads[to].saved)
    case Kill(slot) => s.(threads := s.threads[slot := s.threads[slot].(dead := true)])
    case BootEnable => Running(s, t.(base := true)).(interrupts := true)
  }

  /** Guards are dropped in the opposite order of their creation. */
  predicate WellNested(s: State, e: Event) {
    e.Drop? ==> s.cur < |s.threads| && e.k == |s.threads[s.cur].frames| - 1
  }

  // ---- the invariant ----

  predicate FramesOk(t: Thread) {
    && (forall i | 0 < i < |t.frames| :: !t.frames[i].intsEnabled)
    && (|t.frames| > 0 ==> t.frames[0].intsEnabled == t.base)
    && (forall i, j | 0 <= i < j < |t.frames| && t.frames[i].lock.Some? :: t.frames[i].lock != t.frames[j].lock)
  }

  /** The interrupt flag a thread sees, from its guards and where it is. */
  function FlagOf(t: Thread): bool {
    t.base && t.frames == [] && (t.pc.Normal? || t.pc.Disable?)
  }

  predicate PcOk(t: Thread) {
    match t.pc
    case Normal => true
    case Disable(_, on) => on == (t.base && t.frames == [])
    case CompareExchange(_, on) => on == (t.base && t.frames == [])
    case Restore(on) => on == (t.base && t.frames == [])
  }

  predicate Parked(t: Thread) {
    t.saved && t.base && t.frames == [] && (t.pc.Normal? || t.pc.Disable?)
  }

  predicate Inv(s: State) {
    && s.cur < |s.threads|
    && var t := s.threads[s.cur];
    && s.interrupts == FlagOf(t)
    && FramesOk(t)
    && s.locked == LocksOf(t.frames)
    && (forall i | 0 <= i < |s.threads| :: PcOk(s.threads[i]))
    && (forall i | 0 <= i < |s.threads| && i != s.cur :: Parked(s.threads[i]))
  }

  lemma LocksOfPush(frames: seq<Frame>, f: Frame)
    ensures LocksOf(frames + [f]) == LocksOf(frames) + if f.lock.Some? then {f.lock.value} else {}
  {
    var fs := frames + [f];
    assert fs[|frames|] == f;
    assert forall i | 0 <= i < |frames| :: fs[i] == frames[i];
    forall x | x in LocksOf(frames) ensures x in LocksOf(fs) {
      var i :| 0 <= i < |frames| && frames[i].lock == Some(x);
      assert fs[i].lock == Some(x);
    }
  }

  /** A step of the running thread needs only to be right about that thread. */
  lemma LocalStep(s: State, t: Thread, interrupts: bool, locked: set<nat>)
    requires Inv(s)
    requires FramesOk(t) && PcOk(t) && interrupts == FlagOf(t) && locked == LocksOf(t.frames)
    ensures Inv(State(s.threads[s.cur := t], s.cur, interrupts, locked))
  {
  }

  lemma PushOk(t: Thread, f: Frame)
    requires FramesOk(t) && f.intsEnabled == (t.base && t.frames == [])
    requires f.lock.Some? ==> f.lock.value !in LocksOf(t.frames)
    ensures FramesOk(t.(frames := t.frames + [f], pc := Normal))
    ensures LocksOf(t.frames + [f]) == LocksOf(t.frames) + if f.lock.Some? then {f.lock.value} else {}
  {
    LocksOfPush(t.frames, f);
    forall i | 0 <= i < |t.frames| && t.frames[i].lock.Some?
      ensures t.frames[i].lock != f.lock
    {
      assert t.frames[i].lock.value in LocksOf(t.frames);
    }
  }

  lemma PopOk(t: Thread, k: nat)
    requires FramesOk(t) && k == |t.frames| - 1
    ensures var f := t.frames[k];
            var rest := t.frames[..k] + t.frames[k + 1..];
            && FramesOk(t.(frames := rest, pc := Restore(f.intsEnabled)))
            && f.intsEnabled == (t.base && rest == [])
            && LocksOf(rest) == LocksOf(t.frames) - if f.lock.Some? then {f.lock.value} else {}
  {
    assert t.frames[..k] + t.frames[k + 1..] == t.frames[..k];
    assert t.frames == t.frames[..k] + [t.frames[k]];
    LocksOfPush(t.frames[..k], t.frames[k]);
  }

  lemma ContinueKeepsInv(s: State)
    requires Inv(s) && Enabled(s, Continue)
    ensures Inv(Step(s, Continue))
  {
    var t := s.threads[s.cur];
    assert PcOk(t);
    match t.pc {
      case Disable(section, on) =>
        if section.None? {
          PushOk(t, Frame(None, on));
          LocalStep(s, t.(pc := Normal, frames := t.frames + [Frame(None, on)]), false, s.locked);
        } else {
          LocalStep(s, t.(pc := CompareExchange(section.value, on)), false, s.locked);
        }
      case CompareExchange(lock, on) =>
        if lock !in s.locked {
          PushOk(t, Frame(Some(lock), on));
          LocalStep(s, t.(pc := Normal, frames := t.frames + [Frame(Some(lock), on)]), false, s.locked + {lock});
        }
      case Restore(on) =>
        LocalStep(s, t.(pc := Normal), on, s.locked);
    }
  }

  lemma StepKeepsInv(s: State, e: Event)
    requires Inv(s) && Enabled(s, e) && WellNested(s, e)
    ensures Inv(Step(s, e))
  {
    var t := s.threads[s.cur];
    match e {
      case ReadFlag(lock) =>
        LocalStep(s, t.(pc := Disable(lock, s.interrupts)), s.interrupts, s.locked);
      case Continue =>
        ContinueKeepsInv(s);
      case Drop(k) =>
        PopOk(t, k);
        var rest := t.frames[..k] + t.frames[k + 1..];
        LocalStep(s, t.(frames := rest, pc := Restore(t.frames[k].intsEnabled)), false, LocksOf(rest));
      case BootEnable =>
        LocalStep(s, t.(base := true), true, s.locked);
      case Switch(to) =>
        SwitchKeepsInv(s, to);
      case Kill(slot) =>
    }
  }

  lemma SwitchKeepsInv(s: State, to: nat)
    requires Inv(s) && Enabled(s, Switch(to))
    ensures Inv(Step(s, Switch(to)))
  {
    assert Parked(s.threads[to]);
    assert PcOk(s.threads[s.cur]) && PcOk(s.threads[to]);
  }

  // ---- runs ----

  datatype Run = Boot(n: nat) | Then(prev: Run, e: Event)

  /** At boot thread 0 runs with interrupts off; the other threads start with them on. */
  function Now(r: Run): State
    requires Legal(r)
    decreases r, 1
  {
    match r
    case Boot(n) => State(seq(n + 1, i => Thread([], Normal, i != 0, i != 0, false)), 0, false, {})
    case Then(p, e) => Step(Now(p), e)
  }

  predicate Legal(r: Run)
    decreases r, 0
  {
    r.Then? ==> Legal(r.prev) && Enabled(Now(r.prev), r.e)
  }

  predicate Nested(r: Run)
    requires Legal(r)
  {
    r.Then? ==> Nested(r.prev) && WellNested(Now(r.prev), r.e)
  }

  lemma {:induction false} RunInv(r: Run)
    requires Legal(r) && Nested(r)
    ensures Inv(Now(r))
  {
    if r.Then? {
      RunInv(r.prev);
      StepKeepsInv(Now(r.prev), r.e);
    }
  }

  /** While any lock word is set, interrupts are off, the holder is the running thread, and no other
      thread (dead or alive) holds anything: a thread that died was not inside a lock. */
  lemma HeldMeansMaskedAndRunning(r: Run, lock: nat)
    requires Legal(r) && Nested(r)
    ensures lock in Now(r).locked <==> lock in LocksOf(Now(r).threads[Now(r).cur].frames)
    ensures lock in Now(r).locked ==> !Now(r).interrupts
    ensures forall i | 0 <= i < |Now(r).threads| && i != Now(r).cur :: LocksOf(Now(r).threads[i].frames) == {}
  {
    RunInv(r);
    assert forall i | 0 <= i < |Now(r).threads| && i != Now(r).cur :: Parked(Now(r).threads[i]);
  }

  /** The spin loop finds the lock taken exactly when the caller itself already holds it. */
  lemma SpinsIffSelfHeld(r: Run)
    requires Legal(r) && Nested(r) && Enabled(Now(r), Continue)
    requires Now(r).threads[Now(r).cur].pc.CompareExchange?
    ensures var t := Now(r).threads[Now(r).cur];
            Step(Now(r), Continue) == Now(r) <==> t.pc.lock in LocksOf(t.frames)
  {
    RunInv(r);
  }

  /** Taking a lock one already holds hangs the machine: no tick can come, nothing ever changes. */
  lemma SelfDeadlock(r: Run, e: Event)
    requires Legal(r) && Nested(r) && Enabled(Now(r), e) && !e.Kill?
    requires var t := Now(r).threads[Now(r).cur];
             t.pc.CompareExchange? && t.pc.lock in LocksOf(t.frames)
    ensures Step(Now(r), e) == Now(r)
  {
    RunInv(r);
  }

  predicate Continues(r: Run, past: Run) {
    r == past || (r.Then? && Continues(r.prev, past))
  }

  /** A thread killed while it was switched out never runs again, and never holds anything. */
  lemma {:induction false} KilledHoldsNothing(p: Run, i: nat, r: Run)
    requires Legal(Then(p, Kill(i))) && i != Now(p).cur
    requires Legal(r) && Nested(r) && Continues(r, Then(p, Kill(i)))
    ensures i < |Now(r).threads| && Now(r).threads[i].dead && Now(r).cur != i
    ensures LocksOf(Now(r).threads[i].frames) == {}
  {
    if r != Then(p, Kill(i)) {
      KilledHoldsNothing(p, i, r.prev);
    }
    HeldMeansMaskedAndRunning(r, 0);
  }

  /** Dropping the outermost guard brings back the flag its creation found; dropping an inner one
      leaves interrupts off. */
  lemma OutermostRestores(r: Run)
    requires Legal(r) && Nested(r) && Now(r).threads[Now(r).cur].pc.Restore?
    ensures Enabled(Now(r), Continue)
    ensures var t := Now(r).threads[Now(r).cur];
            Step(Now(r), Continue).interrupts == (t.frames == [] && t.base)
  {
    RunInv(r);
  }

  lemma Extend(r: Run, e: Event)
    requires Legal(r) && Enabled(Now(r), e)
    ensures Legal(Then(r, e)) && Now(Then(r, e)) == Step(Now(r), e)
  {
  }

  /** Why the order matters: clearing a guard that is not the last, the flag comes back on, with the
      other guards' locks still held, exactly when it is the outermost guard of a thread that runs
      with interrupts on. */
  lemma OutOfOrderDrop(r: Run, k: nat)
    requires Legal(r) && Nested(r) && Enabled(Now(r), Drop(k))
    requires k + 1 < |Now(r).threads[Now(r).cur].frames|
    ensures var t := Now(r).threads[Now(r).cur];
            var s1 := Step(Now(r), Drop(k));
            && Enabled(s1, Continue)
            && (Step(s1, Continue).interrupts <==> k == 0 && t.base)
            && forall j | 0 <= j < |t.frames| && j != k && t.frames[j].lock.Some? ::
                t.frames[j].lock.value in Step(s1, Continue).locked
  {
    RunInv(r);
    var t := Now(r).threads[Now(r).cur];
    assert forall j | 0 <= j < |t.frames| && t.frames[j].lock.Some? :: t.frames[j].lock.value in LocksOf(t.frames);
  }

  /** The steps that take a guard: two for a bare section without interrupts, three for a lock. */
  function Guarded(s: State, section: Option<nat>): State
    requires Enabled(s, ReadFlag(section))
  {
    var s1 := Step(s, ReadFlag(section));
    var s2 := if Enabled(s1, Continue) then Step(s1, Continue) else s1;
    if section.Some? && Enabled(s2, Continue) then Step(s2, Continue) else s2
  }

  /** A guard is taken: the section or lock is the thread's innermost, it remembers the interrupt flag it found,
      and interrupts are off; nothing else changes. */
  lemma GuardTaken(r: Run, section: Option<nat>)
    requires Legal(r) && Enabled(Now(r), ReadFlag(section))
    requires section.Some? ==> section.value !in Now(r).locked
    ensures var s := Now(r);
            var t := s.threads[s.cur];
            Guarded(s, section) ==
              State(s.threads[s.cur := t.(frames := t.frames + [Frame(section, s.interrupts)])], s.cur, false,
                    s.locked + if section.Some? then {section.value} else {})
  {
  }

  /** The boot thread turns interrupts on, for good outside its guards. */
  lemma BootEnables(r: Run)
    requires Legal(r) && Nested(r) && Enabled(Now(r), BootEnable)
    ensures var s' := Step(Now(r), BootEnable);
            s'.interrupts && s'.threads[0].base && s'.locked == {} && Inv(s')
  {
    RunInv(r);
    StepKeepsInv(Now(r), BootEnable);
  }

  /** One more lock taken by the running thread, in three steps. */
  lemma TakeLock(r: Run, lock: nat) returns (r': Run)
    requires Legal(r) && Now(r).cur == 0 && |Now(r).threads| > 0 && Enabled(Now(r), ReadFlag(Some(lock)))
    requires lock !in Now(r).locked
    ensures Legal(r') && Now(r').cur == 0
    ensures Now(r') == Now(r).(interrupts := false, locked := Now(r).locked + {lock}, threads := Now(r').threads)
    ensures Now(r').threads == Now(r).threads[0 := Now(r).threads[0].(
              frames := Now(r).threads[0].frames + [Frame(Some(lock), Now(r).interrupts)])]
  {
    hide Legal, Now, LocksOf;
    Extend(r, ReadFlag(Some(lock)));
    var r1 := Then(r, ReadFlag(Some(lock)));
    Extend(r1, Continue);
    var r2 := Then(r1, Continue);
    Extend(r2, Continue);
    r' := Then(r2, Continue);
  }

  /** A run that does it: lock 0, lock 1, drop the guard of 0 first. Interrupts are on, lock 1 is held. */
  lemma UnnestedRun() returns (r: Run)
    ensures Legal(r) && !Nested(r)
    ensures Now(r).interrupts && 1 in Now(r).locked
  {
    var b := Then(Boot(1), BootEnable);
    assert Now(b).threads == [Thread([], Normal, false, true, false), Thread([], Normal, true, true, false)];
    hide Legal, Now, LocksOf;
    var r1 := TakeLock(b, 0);
    var r2 := TakeLock(r1, 1);
    var c1 := Then(r2, Drop(0));
    Extend(r2, Drop(0));
    Extend(c1, Continue);
    r := Then(c1, Continue);
    assert !Nested(c1);
  }
}
