/** The input ring between the keyboard and mouse interrupts and the compositor: one producer, one
    consumer, each atomic access a step, any interleaving. */
module InputRing {
  const RING_CAP: nat := 512

  datatype Producer =
    | Ready
    | LoadTail(value: nat)
    | LoadHead(value: nat, tail: nat)
    | Write(value: nat, tail: nat, next: nat)
    | Publish(value: nat, tail: nat, next: nat)

  datatype Consumer =
    | Away
    | CheckTail(head: nat)
    | Read(head: nat)
    | Advance(head: nat, value: nat)

  /** The shared ring and the two program counters; `accepted`, `popped` and `dropped` record history. */
  datatype State = State(
    buf: seq<nat>, head: nat, tail: nat, producer: Producer, consumer: Consumer,
    accepted: seq<nat>, popped: seq<nat>, dropped: nat)

  datatype Event = Push(value: nat) | ProducerStep | Pop | ConsumerStep

  function Next(i: nat): (k: nat)
    ensures k < RING_CAP
  {
    (i + 1) % RING_CAP
  }

  predicate Enabled(s: State, e: Event) {
    && |s.buf| == RING_CAP && s.head < RING_CAP && s.tail < RING_CAP
    && match e
       case Push(_) => s.producer.Ready?
       case ProducerStep => !s.producer.Ready? && (s.producer.Write? ==> s.producer.tail < RING_CAP)
       case Pop => s.consumer.Away?
       case ConsumerStep => !s.consumer.Away? && (s.consumer.Read? ==> s.consumer.head < RING_CAP)
  }

  function Step(s: State, e: Event): State
    requires Enabled(s, e)
  {
    match e
    case Push(v) => s.(producer := LoadTail(v))
    case ProducerStep =>
      (match s.producer
       case Ready => s
       case LoadTail(v) => s.(producer := LoadHead(v, s.tail))
       case LoadHead(v, tail) =>
         var next := Next(tail);
         if next == s.head then s.(producer := Ready, dropped := s.dropped + 1)
         else s.(producer := Write(v, tail, next))
       case Write(v, tail, next) => s.(buf := s.buf[tail := v], producer := Publish(v, tail, next))
       case Publish(v, tail, next) => s.(tail := next, producer := Ready, accepted := s.accepted + [v]))
    case Pop => s.(consumer := CheckTail(s.head))
    case ConsumerStep =>
      (match s.consumer
       case Away => s
       case CheckTail(head) => s.(consumer := if head == s.tail then Away else Read(head))
       case Read(head) => s.(consumer := Advance(head, s.buf[head]))
       case Advance(head, v) => s.(head := Next(head), consumer := Away, popped := s.popped + [v]))
  }

  /** Where the `i`-th byte ever accepted lies. */
  function Slot(i: nat): (k: nat)
    ensures k < RING_CAP
  {
    i % RING_CAP
  }

  /** Fewer than `RING_CAP` apart, two bytes share a slot only if they are the same byte. */
  lemma SlotInjective(i: nat, j: nat)
    requires i < j + RING_CAP && j < i + RING_CAP
    ensures Slot(i) == Slot(j) <==> i == j
  {
  }

  lemma SlotNext(i: nat)
    ensures Next(Slot(i)) == Slot(i + 1)
  {
  }

  /** Bytes published and not yet popped. */
  function Unread(s: State): int {
    |s.accepted| - |s.popped|
  }

  predicate ProducerOk(s: State) {
    match s.producer
    case Ready => true
    case LoadTail(_) => true
    case LoadHead(_, tail) => tail == s.tail
    case Write(_, tail, next) => tail == s.tail && next == Next(tail) && Unread(s) <= RING_CAP - 2
    case Publish(v, tail, next) =>
      tail == s.tail && next == Next(tail) && Unread(s) <= RING_CAP - 2 && tail < |s.buf| && s.buf[tail] == v
  }

  predicate ConsumerOk(s: State) {
    match s.consumer
    case Away => true
    case CheckTail(head) => head == s.head
    case Read(head) => head == s.head && Unread(s) > 0
    case Advance(head, v) => head == s.head && Unread(s) > 0 && v == s.accepted[|s.popped|]
  }

  ghost predicate Inv(s: State) {
    && |s.buf| == RING_CAP
    && 0 <= Unread(s) <= RING_CAP - 1
    && s.head == Slot(|s.popped|) && s.tail == Slot(|s.accepted|)
    && (forall i | |s.popped| <= i < |s.accepted| :: s.buf[Slot(i)] == s.accepted[i])
    && (forall i | 0 <= i < |s.popped| :: s.popped[i] == s.accepted[i])
    && ProducerOk(s) && ConsumerOk(s)
  }

  lemma ProducerKeepsInv(s: State)
    requires Inv(s) && Enabled(s, ProducerStep)
    ensures Inv(Step(s, ProducerStep))
  {
    hide Slot, Next;
    SlotNext(|s.accepted|);
    SlotNext(|s.popped|);
    match s.producer {
      case LoadTail(_) =>
      case LoadHead(_, _) =>
        FullIff(s);
      case Write(v, tail, _) =>
        forall i | |s.popped| <= i < |s.accepted|
          ensures s.buf[tail := v][Slot(i)] == s.accepted[i]
        {
          SlotInjective(i, |s.accepted|);
        }
      case Publish(_, _, _) =>
    }
  }

  /** The producer finds the ring full exactly when `RING_CAP - 1` bytes are unread. */
  lemma FullIff(s: State)
    requires Inv(s)
    ensures Next(s.tail) == s.head <==> Unread(s) == RING_CAP - 1
  {
    hide Next, ProducerOk, ConsumerOk;
    SlotNext(|s.accepted|);
  }

  lemma ConsumerKeepsInv(s: State)
    requires Inv(s) && Enabled(s, ConsumerStep)
    ensures Inv(Step(s, ConsumerStep))
  {
    hide Slot, Next;
    SlotNext(|s.popped|);
    SlotInjective(|s.popped|, |s.accepted|);
  }

  lemma StepKeepsInv(s: State, e: Event)
    requires Inv(s) && Enabled(s, e)
    ensures Inv(Step(s, e))
  {
    hide Slot, Next;
    if e.ProducerStep? {
      ProducerKeepsInv(s);
    } else if e.ConsumerStep? {
      ConsumerKeepsInv(s);
    }
  }

  // ---- runs ----

  datatype Run = Start | Then(prev: Run, e: Event)

  function Now(r: Run): State
    requires Legal(r)
    decreases r, 1
  {
    match r
    case Start => State(seq(RING_CAP, _ => 0), 0, 0, Ready, Away, [], [], 0)
    case Then(p, e) => Step(Now(p), e)
  }

  predicate Legal(r: Run)
    decreases r, 0
  {
    r.Then? ==> Legal(r.prev) && Enabled(Now(r.prev), r.e)
  }

  lemma {:induction false} RunInv(r: Run)
    requires Legal(r)
    ensures Inv(Now(r))
  {
    if r.Then? {
      RunInv(r.prev);
      StepKeepsInv(Now(r.prev), r.e);
    }
  }

  /** In every interleaving the popped bytes are a prefix of the accepted ones: in order, none repeated,
      none invented; and `input_pending` is right about the rest. */
  lemma FirstInFirstOut(r: Run)
    requires Legal(r)
    ensures Now(r).popped <= Now(r).accepted
    ensures Now(r).head != Now(r).tail <==> |Now(r).popped| < |Now(r).accepted|
  {
    hide Slot, Next, Legal, Now;
    RunInv(r);
    SlotInjective(|Now(r).popped|, |Now(r).accepted|);
  }

  /** A byte is dropped exactly when `RING_CAP - 1` bytes are unread as the producer looks. */
  lemma DropsIffFull(r: Run)
    requires Legal(r) && Enabled(Now(r), ProducerStep) && Now(r).producer.LoadHead?
    ensures Step(Now(r), ProducerStep).dropped == Now(r).dropped + 1 <==> Unread(Now(r)) == RING_CAP - 1
    ensures Step(Now(r), ProducerStep).dropped == Now(r).dropped <==> Unread(Now(r)) < RING_CAP - 1
  {
    hide Slot, Next, Legal, Now;
    RunInv(r);
    FullIff(Now(r));
  }

  /** The two sides never meet in a slot: while the consumer is about to read one, the producer is not
      about to write it, and what is read was published. */
  lemma NeverSameSlot(r: Run)
    requires Legal(r) && Now(r).consumer.Read?
    ensures Now(r).producer.Write? ==> Now(r).producer.tail != Now(r).consumer.head
    ensures Enabled(Now(r), ConsumerStep)
    ensures |Now(r).popped| < |Now(r).accepted|
    ensures Step(Now(r), ConsumerStep).consumer == Advance(Now(r).head, Now(r).accepted[|Now(r).popped|])
  {
    hide Slot, Next, Legal, Now;
    RunInv(r);
    SlotInjective(|Now(r).popped|, |Now(r).accepted|);
  }

  // ---- what a pop returns ----

  /** A pop finds the ring empty exactly when no byte is unread as it looks. */
  lemma FindsIffUnread(r: Run)
    requires Legal(r) && Enabled(Now(r), ConsumerStep) && Now(r).consumer.CheckTail?
    ensures var s' := Step(Now(r), ConsumerStep);
            && (s'.consumer.Read? <==> Unread(Now(r)) > 0) && (s'.consumer.Away? <==> Unread(Now(r)) == 0)
            && s'.popped == Now(r).popped
  {
    hide Slot, Next, Legal, Now;
    RunInv(r);
    SlotInjective(|Now(r).popped|, |Now(r).accepted|);
  }

  predicate Continues(r: Run, past: Run) {
    r == past || (r.Then? && Continues(r.prev, past))
  }

  /** Consumer steps made from `past` to `r`. */
  function ConsumerSteps(r: Run, past: Run): nat
    requires Continues(r, past)
  {
    if r == past then 0 else ConsumerSteps(r.prev, past) + if r.e.ConsumerStep? then 1 else 0
  }

  /** Where the consumer is `k` steps into a pop that has something to return. */
  predicate InPop(c: Consumer, k: nat) {
    if k == 0 then c.CheckTail? else if k == 1 then c.Read? else c.Advance?
  }

  lemma {:induction false} PopProgress(p: Run, r: Run)
    requires Legal(Then(p, Pop)) && Unread(Now(p)) > 0
    requires Legal(r) && Continues(r, Then(p, Pop)) && ConsumerSteps(r, Then(p, Pop)) <= 2
    ensures InPop(Now(r).consumer, ConsumerSteps(r, Then(p, Pop)))
    ensures Now(r).popped == Now(p).popped && Now(p).accepted <= Now(r).accepted
  {
    if r != Then(p, Pop) {
      PopProgress(p, r.prev);
      RunInv(r.prev);
      if r.e.ConsumerStep? && Now(r.prev).consumer.CheckTail? {
        FindsIffUnread(r.prev);
      }
    }
  }

  /** A pop begun with a byte unread returns the oldest one at its third step, whatever the producer does in
      between. */
  lemma PopReturnsOldest(p: Run, r: Run)
    requires Legal(Then(p, Pop)) && Unread(Now(p)) > 0
    requires Legal(r) && Continues(r, Then(p, Pop)) && ConsumerSteps(r, Then(p, Pop)) == 2
    ensures |Now(p).popped| < |Now(p).accepted|
    ensures Enabled(Now(r), ConsumerStep)
    ensures var s' := Step(Now(r), ConsumerStep);
            s'.consumer.Away? && s'.popped == Now(p).popped + [Now(p).accepted[|Now(p).popped|]]
  {
    hide Slot, Next, Legal, Now;
    PopProgress(p, r);
    RunInv(r);
  }

  // ---- what is accepted ----

  /** The value of the last push begun. */
  function LastPushed(r: Run): nat {
    if r.Start? then 0 else if r.e.Push? then r.e.value else LastPushed(r.prev)
  }

  /** The producer looks for room. */
  predicate Looks(r: Run)
    requires Legal(r)
  {
    r.Then? && r.e.ProducerStep? && Now(r.prev).producer.LoadHead?
  }

  /** The values pushed, in order, without those that found `RING_CAP - 1` bytes unread. */
  function Kept(r: Run): seq<nat>
    requires Legal(r)
  {
    if r.Start? then []
    else if Looks(r) && Unread(Now(r.prev)) < RING_CAP - 1 then Kept(r.prev) + [LastPushed(r.prev)]
    else Kept(r.prev)
  }

  function Pushes(r: Run): nat {
    if r.Start? then 0 else Pushes(r.prev) + if r.e.Push? then 1 else 0
  }

  /** The push under way that has found room and is not published yet. */
  function UnderWay(p: Producer): seq<nat> {
    if p.Write? || p.Publish? then [p.value] else []
  }

  lemma AcceptStep(s: State, e: Event)
    requires Inv(s) && Enabled(s, e)
    ensures var s' := Step(s, e);
            var looks := e.ProducerStep? && s.producer.LoadHead?;
            && s'.accepted + UnderWay(s'.producer) ==
                 s.accepted + UnderWay(s.producer) +
                 (if looks && Unread(s) < RING_CAP - 1 then [s.producer.value] else [])
            && (!s'.producer.Ready? ==>
                  s'.producer.value == if e.Push? then e.value else if s.producer.Ready? then 0 else s.producer.value)
            && |s'.accepted| + s'.dropped + (if s'.producer.Ready? then 0 else 1) ==
                 |s.accepted| + s.dropped + (if s.producer.Ready? then 0 else 1) + (if e.Push? then 1 else 0)
            && (s.producer.Ready? && !e.Push? ==> s'.producer.Ready?)
  {
    hide Slot, Next;
    FullIff(s);
  }

  /** The bytes accepted are the values pushed, in order, without the dropped ones; and every push finished is
      accepted or counted as dropped. */
  lemma {:induction false} AcceptedAreKept(r: Run)
    requires Legal(r)
    ensures Now(r).accepted + UnderWay(Now(r).producer) == Kept(r)
    ensures !Now(r).producer.Ready? ==> Now(r).producer.value == LastPushed(r)
    ensures |Now(r).accepted| + Now(r).dropped + (if Now(r).producer.Ready? then 0 else 1) == Pushes(r)
  {
    hide Inv, Step, Enabled, Unread;
    if r.Then? {
      AcceptedAreKept(r.prev);
      RunInv(r.prev);
      AcceptStep(Now(r.prev), r.e);
    }
  }
}
