/** The dead-controller backoff of the ATA driver: when a failing controller is left alone and when it is
    tried again. */
module Ata {
  import opened Wrappers

  const SECTOR: nat := 512
  const LBA28_SECTORS: nat := 0x1000_0000
  const TWO_64: nat := 0x1_0000_0000_0000_0000
  const MAX_FAILS: nat := 3
  const DEAD_RETRY_US: nat := 10_000_000

  /** `FAILS` and `DEAD_SINCE_US`. */
  datatype Counters = Counters(fails: nat, deadSince: nat)

  predicate DeadRetryDue(deadSince: nat, now: nat) {
    (if now < deadSince then 0 else now - deadSince) >= DEAD_RETRY_US
  }

  /** What a call asks for: `len` bytes from sector `lba` of a disk of `total` sectors, or a flush. */
  datatype Ask = Sectors(total: nat, lba: nat, len: nat) | Flush

  /** One call of `read_sectors`, `write_sectors` or `flush`: what is asked; looked at `start`, with the ports
      lock taken or refused, and, if the hardware is tried, settled at `end` with success or not. */
  datatype Call = Call(ask: Ask, start: nat, ports: bool, end: nat, ok: bool)

  datatype Outcome = Done | BadLength | OutOfRange | Failed

  datatype Result = Count(n: nat) | Refused(why: Outcome)

  /** `check_transfer`: the sectors to move, or the reason for refusing. */
  function CheckTransfer(total: nat, lba: nat, len: nat): Result {
    if len % SECTOR != 0 then Refused(BadLength)
    else
      var end := lba + len / SECTOR;
      if end >= TWO_64 || end > total || end > LBA28_SECTORS then Refused(OutOfRange) else Count(len / SECTOR)
  }

  /** A transfer passes exactly when it is whole sectors inside the disk and inside 28-bit addressing. */
  lemma TransferInside(total: nat, lba: nat, len: nat)
    ensures CheckTransfer(total, lba, len).Count? <==>
              exists n: nat :: len == SECTOR * n && lba + n <= total && lba + n <= LBA28_SECTORS
    ensures CheckTransfer(total, lba, len).Count? ==> len == SECTOR * CheckTransfer(total, lba, len).n
  {
    var n := len / SECTOR;
    assert len % SECTOR == 0 ==> len == SECTOR * n;
    forall m: nat | len == SECTOR * m
      ensures len % SECTOR == 0 && m == n
    {
    }
  }

  /** What is settled before the controller is looked at: a refusal, or nothing to move. */
  function Early(ask: Ask): Option<Outcome> {
    if ask.Flush? then None
    else
      match CheckTransfer(ask.total, ask.lba, ask.len)
      case Refused(why) => Some(why)
      case Count(n) => if n == 0 then Some(Done) else None
  }

  /** The history of attempts: failures since the last success, and when the last failure was settled. */
  datatype History = History(streak: nat, lastEnd: nat)

  datatype State = State(c: Counters, h: History, clock: nat)

  /** There is something for the hardware to do: a flush, or at least one whole sector, all inside the disk and
      inside 28-bit addressing. */
  predicate WorkToDo(ask: Ask) {
    ask.Flush? ||
    (ask.len > 0 && ask.len % SECTOR == 0 &&
     ask.lba + ask.len / SECTOR <= ask.total && ask.lba + ask.len / SECTOR <= LBA28_SECTORS)
  }

  /** What is settled early, and how: parts of sectors, then what lies outside, then nothing to move. */
  lemma EarlyExactly(ask: Ask)
    ensures Early(ask).None? <==> WorkToDo(ask)
    ensures Early(ask) == Some(BadLength) <==> ask.Sectors? && ask.len % SECTOR != 0
    ensures Early(ask) == Some(OutOfRange) <==>
              && ask.Sectors? && ask.len % SECTOR == 0
              && !(ask.lba + ask.len / SECTOR <= ask.total && ask.lba + ask.len / SECTOR <= LBA28_SECTORS)
    ensures Early(ask) == Some(Done) <==>
              ask.Sectors? && ask.len == 0 && ask.lba <= ask.total && ask.lba <= LBA28_SECTORS
    ensures Early(ask) != Some(Failed)
  {
  }

  /** `dead`: the answer, and the counters after it. */
  function Dead(c: Counters, now: nat): (bool, Counters) {
    if c.fails < MAX_FAILS then (false, c)
    else if DeadRetryDue(c.deadSince, now) then (false, Counters(MAX_FAILS - 1, now))
    else (true, c)
  }

  function Settle(c: Counters, ok: bool, now: nat): Counters {
    if ok then c.(fails := 0)
    else Counters(c.fails + 1, if c.fails + 1 == MAX_FAILS then now else c.deadSince)
  }

  /** Does the call reach the hardware? */
  predicate Attempts(c: Counters, call: Call) {
    Early(call.ask).None? && !Dead(c, call.start).0 && call.ports
  }

  function After(c: Counters, call: Call): Counters {
    if Early(call.ask).Some? then c
    else
      var (dead, c1) := Dead(c, call.start);
      if dead || !call.ports then c1 else Settle(c1, call.ok, call.end)
  }

  function Step(s: State, call: Call): State {
    State(After(s.c, call),
          if !Attempts(s.c, call) then s.h
          else if call.ok then s.h.(streak := 0)
          else History(s.h.streak + 1, call.end),
          if Attempts(s.c, call) then call.end else call.start)
  }

  /** Callers come one at a time and the clock does not run backwards. */
  predicate InOrder(s: State, call: Call) {
    s.clock <= call.start <= call.end
  }

  /** Counters and history agree: below `MAX_FAILS` failures in a row they are counted; from then on either the
      controller is dead since the last failure, or a retry was let through, at `deadSince`. */
  predicate Inv(s: State) {
    && s.h.lastEnd <= s.clock
    && if s.h.streak < MAX_FAILS then s.c.fails == s.h.streak
       else
         || (s.c.fails == MAX_FAILS && s.c.deadSince == s.h.lastEnd)
         || (s.c.fails == MAX_FAILS - 1 && s.h.lastEnd + DEAD_RETRY_US <= s.c.deadSince <= s.clock)
  }

  datatype Run = Start | Then(prev: Run, call: Call)

  function Now(r: Run): State {
    match r
    case Start => State(Counters(0, 0), History(0, 0), 0)
    case Then(p, call) => Step(Now(p), call)
  }

  predicate Legal(r: Run) {
    r.Then? ==> Legal(r.prev) && InOrder(Now(r.prev), r.call)
  }

  lemma {:induction false} RunInv(r: Run)
    requires Legal(r)
    ensures Inv(Now(r))
  {
    if r.Then? {
      RunInv(r.prev);
    }
  }

  /** After `MAX_FAILS` failures in a row, and until a success, every attempt starts at least the retry
      interval after the previous one was settled; and once the interval is over, a call with something to do
      that gets the ports reaches the hardware. A call with nothing to do never does. */
  lemma RetriesAreSpaced(r: Run, call: Call)
    requires Legal(r) && InOrder(Now(r), call)
    ensures Attempts(Now(r).c, call) <==>
              && WorkToDo(call.ask) && call.ports
              && (Now(r).h.streak >= MAX_FAILS ==> call.start >= Now(r).h.lastEnd + DEAD_RETRY_US)
    ensures !WorkToDo(call.ask) ==> After(Now(r).c, call) == Now(r).c
  {
    RunInv(r);
    EarlyExactly(call.ask);
  }

  /** One success clears everything: the controller is as good as new. */
  lemma SuccessClears(r: Run, call: Call)
    requires Legal(r) && InOrder(Now(r), call) && Attempts(Now(r).c, call) && call.ok
    ensures Now(Then(r, call)).c.fails == 0 && Now(Then(r, call)).h.streak == 0
  {
    RunInv(r);
  }

  /** Why one at a time: the check comes before the ports lock. Two callers that both looked before either
      settled both go through, the second right after the first has declared the controller dead. */
  lemma TwoLooksTwoAttempts(r: Run, t: nat)
    requires Legal(r) && Now(r).h.streak >= MAX_FAILS && Now(r).clock <= t && t >= Now(r).h.lastEnd + DEAD_RETRY_US
    ensures var (dead1, c1) := Dead(Now(r).c, t);
            var (dead2, c2) := Dead(c1, t);
            !dead1 && !dead2 && Settle(c2, false, t) == Counters(MAX_FAILS, t)
  {
    RunInv(r);
  }

  /** The driver's statics and the code that works on them. */
  class Driver {
    var fails: nat
    var deadSince: nat

    function View(): Counters
      reads this
    {
      Counters(fails, deadSince)
    }

    method IsDead(now: nat) returns (dead: bool)
      modifies this
      ensures (dead, View()) == Dead(old(View()), now)
    {
      if fails < MAX_FAILS {
        return false;
      }
      if DeadRetryDue(deadSince, now) {
        deadSince := now;
        fails := MAX_FAILS - 1;
        return false;
      }
      dead := true;
    }

    method SettleResult(ok: bool, now: nat)
      modifies this
      ensures View() == Settle(old(View()), ok, now)
    {
      if ok {
        fails := 0;
      } else {
        fails := fails + 1;
        if fails == MAX_FAILS {
          deadSince := now;
        }
      }
    }

    /** The common body of the block-device entry points: a refused transfer and an empty one come back
        before the controller is looked at; a dead controller, a refused lock and a failed attempt are errors. */
    method Transfer(call: Call) returns (out: Outcome)
      modifies this
      ensures View() == After(old(View()), call)
      ensures out == match Early(call.ask)
                     case Some(early) => early
                     case None => if Attempts(old(View()), call) && call.ok then Done else Failed
      ensures !WorkToDo(call.ask) ==> View() == old(View())
      ensures out.Done? && WorkToDo(call.ask) ==> Attempts(old(View()), call) && call.ok
    {
      EarlyExactly(call.ask);
      var early := Early(call.ask);
      if early.Some? {
        return early.value;
      }
      var dead := IsDead(call.start);
      if dead || !call.ports {
        return Failed;
      }
      SettleResult(call.ok, call.end);
      out := if call.ok then Done else Failed;
    }
  }
}
