/** The preemptive scheduler: thread records, the processor state that is switched with them, and the
    life of user page-table roots, as a step system. */
module Scheduler {
  import opened Wrappers
  import opened Schedule

  const MAX_THREADS: nat := 16
  const NO_HINT: nat := 0xFFFF_FFFF_FFFF_FFFF
  const DEMOTED_GAP: nat := 6

  /** An x87/SSE register image. */
  type Image = nat

  /** One slot. `id` tells apart the threads that use the slot one after the other. */
  datatype Thread = Thread(
    id: nat, cr3: nat, rsp0: nat, rsp: nat, fpu: Image, intact: bool,
    wake: nat, dead: bool, demoted: bool, nextTurn: nat, free: bool)

  datatype Cpu = Cpu(rsp: nat, fpu: Image, cr3: nat, rsp0: nat)

  /** A user page-table root: used by its thread; its thread reaped; no longer the live root; freed. */
  datatype Phase = InUse | Released | Unborrowed | Freed

  datatype State = State(
    threads: seq<Thread>, current: nat, handoff: nat, ticks: nat, cpu: Cpu,
    kernelCr3: nat, roots: map<nat, Phase>, nextId: nat, halted: bool)

  datatype Event =
    | Tick(due: bool) | SubTick(due: bool) | Yield(due: bool)
    | Compute(rsp: nat, fpu: Image, intact: bool)
    | SetWake(slot: nat, until: nat)
    | Fault
    | KillUser(slot: nat)
    | SetDemoted(slot: nat, on: bool)
    | HandOff(slot: nat)
    | SpawnKernel(rsp: nat, fpu: Image)
    | SpawnUser(root: nat, rsp0: nat, rsp: nat, fpu: Image)
    | ReleaseDeadUser(slot: nat)
    | ReleaseCr3(root: nat)
    | FreeRoot(root: nat)

  // ---- choosing ----

  predicate Ready(s: State, i: nat) {
    i < |s.threads| && !s.threads[i].dead && s.threads[i].wake <= s.ticks
  }

  predicate Held(s: State, i: nat) {
    i < |s.threads| && s.threads[i].demoted && s.threads[i].nextTurn > s.ticks
  }

  function ReadyMap(s: State): seq<bool> {
    seq(|s.threads|, i requires 0 <= i => Ready(s, i))
  }

  function HeldMap(s: State): seq<bool> {
    seq(|s.threads|, i requires 0 <= i => Held(s, i))
  }

  /** A picture is due and the compositor can run. */
  predicate Boosted(s: State, due: bool) {
    due && Ready(s, 0)
  }

  predicate Hinted(s: State, timerTick: bool, due: bool) {
    !Boosted(s, due) && !timerTick && s.handoff < |s.threads| && s.handoff != s.current && Ready(s, s.handoff)
  }

  /** The slot to run next. By whichever route it is chosen (picture boost, hand-off hint, round-robin)
      it is alive and not blocked, and there is none exactly when no slot can run. */
  function Pick(s: State, timerTick: bool, due: bool): (r: Option<nat>)
    requires s.current < |s.threads|
    ensures r.Some? ==> Ready(s, r.value)
    ensures r.None? <==> forall i: nat :: !Ready(s, i)
  {
    if Boosted(s, due) then Some(0)
    else if Hinted(s, timerTick, due) then Some(s.handoff)
    else
      HeldPick(s.current, ReadyMap(s), HeldMap(s));
      assert forall i: nat | i < |s.threads| :: ReadyMap(s)[i] == Ready(s, i);
      NextRunnableHeld(s.current, ReadyMap(s), HeldMap(s))
  }

  /** The plain round-robin choice `kill_current` makes. */
  function PickAny(s: State): (r: Option<nat>)
    requires s.current < |s.threads|
    ensures r.Some? ==> Ready(s, r.value)
    ensures r.None? <==> forall i: nat :: !Ready(s, i)
  {
    NearestReady(s.current, ReadyMap(s));
    assert forall i: nat | i < |s.threads| :: ReadyMap(s)[i] == Ready(s, i);
    NextRunnable(s.current, ReadyMap(s))
  }

  // ---- switching ----

  function WithThread(s: State, i: nat, t: Thread): State
    requires i < |s.threads|
  {
    s.(threads := s.threads[i := t])
  }

  /** A clobbered canary kills the interrupted thread, never the compositor. */
  function CheckCanary(s: State): State
    requires s.current < |s.threads|
  {
    var t := s.threads[s.current];
    if s.current != 0 && !t.dead && !t.intact then WithThread(s, s.current, t.(dead := true)) else s
  }

  function Charge(s: State, i: nat): State
    requires i < |s.threads|
  {
    var t := s.threads[i];
    if t.demoted then WithThread(s, i, t.(nextTurn := s.ticks + DEMOTED_GAP)) else s
  }

  function Save(s: State): State
    requires s.current < |s.threads|
  {
    WithThread(s, s.current, s.threads[s.current].(rsp := s.cpu.rsp, fpu := s.cpu.fpu))
  }

  /** Load slot `i`; a kernel thread (`cr3 == 0`) keeps whatever root is loaded. */
  function Load(s: State, i: nat): State
    requires i < |s.threads|
  {
    var t := s.threads[i];
    s.(current := i,
       cpu := Cpu(t.rsp, t.fpu,
                  if t.cr3 == 0 then s.cpu.cr3 else t.cr3,
                  if t.rsp0 != 0 then t.rsp0 else s.cpu.rsp0))
  }

  function Resume(s: State, next: Option<nat>): State
    requires s.current < |s.threads| && (next.Some? ==> next.value < |s.threads|)
  {
    if next.None? then s.(halted := true)
    else
      var s1 := Charge(s, next.value);
      if next.value == s.current then s1 else Load(Save(s1), next.value)
  }

  function Resched(s: State, timerTick: bool, due: bool): State
    requires s.current < |s.threads|
  {
    var s1 := CheckCanary(s);
    var hint := if Boosted(s1, due) then s1.handoff else NO_HINT;
    Resume(s1.(handoff := hint), Pick(s1, timerTick, due))
  }

  /** The running thread dies and its context is abandoned. */
  function KillCurrent(s: State): State
    requires s.current < |s.threads|
  {
    var s1 := WithThread(s, s.current, s.threads[s.current].(dead := true));
    match PickAny(s1)
    case None => s1.(halted := true)
    case Some(i) => Load(s1, i)
  }

  // ---- the step system ----

  predicate FreshRoot(s: State, root: nat) {
    root != 0 && root != s.kernelCr3 && (root in s.roots ==> s.roots[root].Freed?)
  }

  /** The first slot marked free, or one past the end. */
  function FreeSlot(threads: seq<Thread>): (i: nat)
    ensures i <= |threads|
    ensures i < |threads| ==> threads[i].free
    ensures forall j | 0 <= j < i :: !threads[j].free
  {
    if threads == [] then 0 else if threads[0].free then 0 else 1 + FreeSlot(threads[1..])
  }

  predicate Enabled(s: State, e: Event) {
    && !s.halted && s.current < |s.threads|
    && match e
       case Tick(_) => true
       case SubTick(_) => true
       case Yield(_) => true
       case Compute(_, _, _) => true
       case SetWake(slot, _) => slot < |s.threads|
       case Fault => s.current != 0
       case KillUser(slot) => 0 < slot < |s.threads|
       case SetDemoted(slot, _) => slot < |s.threads|
       case HandOff(_) => true
       case SpawnKernel(_, _) => |s.threads| < MAX_THREADS
       case SpawnUser(root, _, _, _) => FreshRoot(s, root) && FreeSlot(s.threads) < MAX_THREADS
       case ReleaseDeadUser(slot) =>
         && 0 < slot < |s.threads| && slot != s.current
         && s.threads[slot].dead && s.threads[slot].cr3 != 0 && !s.threads[slot].free
       case ReleaseCr3(root) => root in s.roots && s.roots[root].Released?
       case FreeRoot(root) => root in s.roots && s.roots[root].Unborrowed?
  }

  /** Spawning into slot `i` resets its flags and its wake-up tick; the earliest next turn that an earlier
      thread of the slot left behind stays. */
  function NewThread(s: State, i: nat, cr3: nat, rsp0: nat, rsp: nat, fpu: Image): Thread {
    var nextTurn := if i < |s.threads| then s.threads[i].nextTurn else 0;
    Thread(s.nextId, cr3, rsp0, rsp, fpu, true, 0, false, false, nextTurn, false)
  }

  function Step(s: State, e: Event): State
    requires Enabled(s, e)
  {
    match e
    case Tick(due) => Resched(s.(ticks := s.ticks + 1), true, due)
    case SubTick(due) => if due && s.current != 0 then Resched(s, false, due) else s
    case Yield(due) => Resched(s, false, due)
    case Compute(rsp, fpu, intact) =>
      WithThread(s, s.current, s.threads[s.current].(intact := intact)).(cpu := s.cpu.(rsp := rsp, fpu := fpu))
    case SetWake(slot, until) => WithThread(s, slot, s.threads[slot].(wake := until))
    case Fault => KillCurrent(s)
    case KillUser(slot) => WithThread(s, slot, s.threads[slot].(dead := true))
    case SetDemoted(slot, on) => WithThread(s, slot, s.threads[slot].(demoted := on))
    case HandOff(slot) => s.(handoff := slot)
    case SpawnKernel(rsp, fpu) =>
      s.(threads := s.threads + [NewThread(s, |s.threads|, 0, 0, rsp, fpu)], nextId := s.nextId + 1)
    case SpawnUser(root, rsp0, rsp, fpu) =>
      var i := FreeSlot(s.threads);
      var t := NewThread(s, i, root, rsp0, rsp, fpu);
      s.(threads := if i < |s.threads| then s.threads[i := t] else s.threads + [t],
         nextId := s.nextId + 1, roots := s.roots[root := InUse])
    case ReleaseDeadUser(slot) =>
      WithThread(s, slot, s.threads[slot].(free := true)).(roots := s.roots[s.threads[slot].cr3 := Released])
    case ReleaseCr3(root) =>
      var cpu := if s.cpu.cr3 == root && s.kernelCr3 != 0 then s.cpu.(cr3 := s.kernelCr3) else s.cpu;
      s.(cpu := cpu, roots := s.roots[root := Unborrowed])
    case FreeRoot(root) => s.(roots := s.roots[root := Freed])
  }

  // ---- the invariant ----

  /** Slot `i` is consistent: a free slot is dead and not running, a used user slot has a root in use. */
  predicate SlotOk(t: Thread, i: nat, current: nat, roots: map<nat, Phase>, nextId: nat) {
    && t.id < nextId
    && (t.free ==> t.dead && i != current)
    && (t.cr3 != 0 && !t.free ==> t.cr3 in roots && roots[t.cr3].InUse?)
  }

  predicate SlotsOk(threads: seq<Thread>, current: nat, roots: map<nat, Phase>, nextId: nat) {
    && (forall i | 0 <= i < |threads| :: SlotOk(threads[i], i, current, roots, nextId))
    && (forall i, j | 0 <= i < j < |threads| ::
          && threads[i].id != threads[j].id
          && (threads[i].cr3 == threads[j].cr3 != 0 ==> threads[i].free || threads[j].free))
  }

  predicate LiveRootOk(cr3: nat, kernelCr3: nat, roots: map<nat, Phase>) {
    && kernelCr3 != 0 && kernelCr3 !in roots && 0 !in roots
    && (cr3 == kernelCr3 || (cr3 in roots && (roots[cr3].InUse? || roots[cr3].Released?)))
  }

  predicate Inv(s: State) {
    && 0 < |s.threads| <= MAX_THREADS && s.current < |s.threads|
    && !s.threads[0].dead && s.threads[0].cr3 == 0
    && SlotsOk(s.threads, s.current, s.roots, s.nextId)
    && LiveRootOk(s.cpu.cr3, s.kernelCr3, s.roots)
  }

  /** What a change of one slot must respect for `Inv` to survive. */
  predicate SameSlot(t: Thread, t': Thread) {
    t'.id == t.id && t'.cr3 == t.cr3 && t'.free == t.free && (t.dead ==> t'.dead)
  }

  lemma UpdateKeepsInv(s: State, i: nat, t': Thread)
    requires Inv(s) && i < |s.threads| && SameSlot(s.threads[i], t') && (i == 0 ==> !t'.dead)
    ensures Inv(WithThread(s, i, t'))
  {
    assert SlotOk(s.threads[i], i, s.current, s.roots, s.nextId);
  }

  lemma LoadKeepsInv(s: State, i: nat)
    requires Inv(s) && Ready(s, i)
    ensures Inv(Load(s, i))
  {
    assert SlotOk(s.threads[i], i, s.current, s.roots, s.nextId);
  }

  lemma CanaryKeepsInv(s: State)
    requires Inv(s)
    ensures Inv(CheckCanary(s))
  {
    UpdateKeepsInv(s, s.current, s.threads[s.current].(dead := s.current != 0 || s.threads[s.current].dead));
  }

  lemma ResumeKeepsInv(s: State, next: Option<nat>)
    requires Inv(s) && (next.Some? ==> Ready(s, next.value))
    ensures Inv(Resume(s, next))
  {
    hide SlotsOk, LiveRootOk;
    if next.Some? {
      var t := s.threads[next.value];
      UpdateKeepsInv(s, next.value, t.(nextTurn := s.ticks + DEMOTED_GAP));
      var s1 := Charge(s, next.value);
      if next.value != s1.current {
        UpdateKeepsInv(s1, s1.current, s1.threads[s1.current].(rsp := s1.cpu.rsp, fpu := s1.cpu.fpu));
        LoadKeepsInv(Save(s1), next.value);
      }
    }
  }

  lemma ReschedKeepsInv(s: State, timerTick: bool, due: bool)
    requires Inv(s)
    ensures Inv(Resched(s, timerTick, due))
  {
    hide SlotsOk, LiveRootOk, Resume;
    CanaryKeepsInv(s);
    var s1 := CheckCanary(s);
    var s2 := s1.(handoff := if Boosted(s1, due) then s1.handoff else NO_HINT);
    ResumeKeepsInv(s2, Pick(s1, timerTick, due));
  }

  lemma KillKeepsInv(s: State)
    requires Inv(s) && s.current != 0
    ensures Inv(KillCurrent(s))
  {
    hide SlotsOk, LiveRootOk;
    var s1 := WithThread(s, s.current, s.threads[s.current].(dead := true));
    UpdateKeepsInv(s, s.current, s.threads[s.current].(dead := true));
    var next := PickAny(s1);
    if next.Some? {
      LoadKeepsInv(s1, next.value);
    }
  }

  lemma AppendKeepsInv(s: State, t: Thread, roots: map<nat, Phase>)
    requires Inv(s) && |s.threads| < MAX_THREADS && t.id == s.nextId && !t.free
    requires roots == s.roots || (FreshRoot(s, t.cr3) && roots == s.roots[t.cr3 := InUse])
    requires t.cr3 != 0 ==> roots != s.roots || FreshRoot(s, t.cr3)
    requires t.cr3 != 0 ==> t.cr3 in roots && roots[t.cr3].InUse?
    ensures Inv(s.(threads := s.threads + [t], nextId := s.nextId + 1, roots := roots))
  {
    assert forall k | 0 <= k < |s.threads| :: SlotOk(s.threads[k], k, s.current, s.roots, s.nextId);
  }

  lemma ReuseKeepsInv(s: State, i: nat, t: Thread)
    requires Inv(s) && i < |s.threads| && s.threads[i].free && t.id == s.nextId && !t.free
    requires FreshRoot(s, t.cr3)
    ensures Inv(s.(threads := s.threads[i := t], nextId := s.nextId + 1, roots := s.roots[t.cr3 := InUse]))
  {
    assert forall k | 0 <= k < |s.threads| :: SlotOk(s.threads[k], k, s.current, s.roots, s.nextId);
  }

  lemma SpawnKeepsInv(s: State, e: Event)
    requires Inv(s) && Enabled(s, e) && (e.SpawnKernel? || e.SpawnUser?)
    ensures Inv(Step(s, e))
  {
    hide SlotsOk, LiveRootOk, FreeSlot;
    if e.SpawnKernel? {
      AppendKeepsInv(s, NewThread(s, |s.threads|, 0, 0, e.rsp, e.fpu), s.roots);
    } else {
      var i := FreeSlot(s.threads);
      var t := NewThread(s, i, e.root, e.rsp0, e.rsp, e.fpu);
      if i < |s.threads| {
        ReuseKeepsInv(s, i, t);
      } else {
        AppendKeepsInv(s, t, s.roots[e.root := InUse]);
      }
    }
  }

  lemma ReapKeepsInv(s: State, e: Event)
    requires Inv(s) && Enabled(s, e) && (e.ReleaseDeadUser? || e.ReleaseCr3? || e.FreeRoot?)
    ensures Inv(Step(s, e))
  {
    if e.ReleaseDeadUser? {
      assert SlotOk(s.threads[e.slot], e.slot, s.current, s.roots, s.nextId);
    }
    assert forall k | 0 <= k < |s.threads| :: SlotOk(s.threads[k], k, s.current, s.roots, s.nextId);
  }

  lemma StepKeepsInv(s: State, e: Event)
    requires Inv(s) && Enabled(s, e)
    ensures Inv(Step(s, e))
  {
    hide SlotsOk, LiveRootOk, Resched, KillCurrent;
    match e {
      case Tick(due) => ReschedKeepsInv(s.(ticks := s.ticks + 1), true, due);
      case SubTick(due) => ReschedKeepsInv(s, false, due);
      case Yield(due) => ReschedKeepsInv(s, false, due);
      case Compute(_, _, intact) => UpdateKeepsInv(s, s.current, s.threads[s.current].(intact := intact));
      case SetWake(slot, until) => UpdateKeepsInv(s, slot, s.threads[slot].(wake := until));
      case Fault => KillKeepsInv(s);
      case KillUser(slot) => UpdateKeepsInv(s, slot, s.threads[slot].(dead := true));
      case SetDemoted(slot, on) => UpdateKeepsInv(s, slot, s.threads[slot].(demoted := on));
      case HandOff(_) =>
      case SpawnKernel(_, _) => SpawnKeepsInv(s, e);
      case SpawnUser(_, _, _, _) => SpawnKeepsInv(s, e);
      case ReleaseDeadUser(_) => ReapKeepsInv(s, e);
      case ReleaseCr3(_) => ReapKeepsInv(s, e);
      case FreeRoot(_) => ReapKeepsInv(s, e);
    }
  }
}
