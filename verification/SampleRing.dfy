/** The entropy sample ring: producers take an index and store later (or much later), the consumer folds
    with interrupts off. Each method is one indivisible step, so any sequence of calls is an interleaving. */
module SampleRing {
  const RING_N: nat := 256
  const VALID: bv64 := 1 << 55
  const TS_MASK: bv64 := VALID - 1

  /** One event: who and when. */
  datatype Sample = Sample(src: bv8, tsc: bv64)

  function Pack(s: Sample): bv64 {
    ((s.src as bv64) << 56) | VALID | (s.tsc & TS_MASK)
  }

  predicate IsValid(v: bv64) {
    v & VALID != 0
  }

  function Source(v: bv64): bv8 {
    ((v >> 56) & 0xFF) as bv8
  }

  function Stamp(v: bv64): bv64 {
    v & TS_MASK
  }

  /** A stored word is never the empty word, and gives back its source and the low 55 bits of its time. */
  lemma PackRoundTrip(s: Sample)
    ensures IsValid(Pack(s)) && !IsValid(0)
    ensures Source(Pack(s)) == s.src
    ensures Stamp(Pack(s)) == s.tsc & TS_MASK
  {
  }

  /** What became of the sample of an index. */
  datatype Fate = InFlight | Resident | Folded | Overwritten

  /** How many entries of the ledger are skips. */
  function Skips(ledger: seq<bool>): nat {
    if ledger == [] then 0 else Skips(ledger[..|ledger| - 1]) + if ledger[|ledger| - 1] then 1 else 0
  }

  // ---- where every sample is ----

  /** The ring's words, what was handed to the pool, and the history that explains them: the sample and
      fate of every index handed out, the index whose sample each slot holds (-1: none), and the indices
      folded, in order. */
  datatype Books = Books(
    words: seq<bv64>, pool: seq<(bv8, bv64)>,
    samples: seq<Sample>, fate: seq<Fate>, holder: seq<int>, folded: seq<nat>)

  function Slot(i: nat): (k: nat)
    ensures k < RING_N
  {
    i % RING_N
  }

  predicate SlotOk(b: Books, k: nat)
    requires k < |b.words| && k < |b.holder| && |b.fate| == |b.samples|
  {
    var i := b.holder[k];
    if i < 0 then b.words[k] == 0
    else i < |b.samples| && Slot(i) == k && b.fate[i] == Resident && b.words[k] == Pack(b.samples[i])
  }

  predicate FoldedOk(b: Books, j: nat)
    requires j < |b.folded| && |b.pool| == |b.folded| && |b.fate| == |b.samples|
  {
    var i := b.folded[j];
    i < |b.samples| && b.fate[i] == Folded && b.pool[j] == (b.samples[i].src, b.samples[i].tsc & TS_MASK)
  }

  ghost predicate BooksOk(b: Books) {
    && |b.words| == |b.holder| == RING_N && |b.fate| == |b.samples| && |b.pool| == |b.folded|
    && (forall k | 0 <= k < RING_N :: SlotOk(b, k))
    && (forall i | 0 <= i < |b.fate| && b.fate[i] == Resident :: b.holder[Slot(i)] == i)
    && (forall j | 0 <= j < |b.folded| :: FoldedOk(b, j))
    && (forall j, k | 0 <= j < k < |b.folded| :: b.folded[j] != b.folded[k])
    && (forall i | 0 <= i < |b.fate| && b.fate[i] == Folded :: i in b.folded)
  }

  function TakeIndex(b: Books, s: Sample): Books {
    b.(samples := b.samples + [s], fate := b.fate + [InFlight])
  }

  /** The producer of index `i` stores: whatever the slot held is overwritten. */
  function StoreAt(b: Books, i: nat): Books
    requires |b.words| == |b.holder| == RING_N && i < |b.fate| == |b.samples|
  {
    var k := Slot(i);
    var was := b.holder[k];
    var fate := if 0 <= was < |b.fate| then b.fate[was := Overwritten] else b.fate;
    b.(words := b.words[k := Pack(b.samples[i])], fate := fate[i := Resident], holder := b.holder[k := i])
  }

  /** The consumer swaps slot `k` for 0 and folds what it found, if it is a sample. */
  function ReadAt(b: Books, k: nat): Books
    requires |b.words| == |b.holder| == RING_N && k < RING_N && |b.fate| == |b.samples|
  {
    var v := b.words[k];
    var was := b.holder[k];
    var emptied := b.(words := b.words[k := 0], holder := b.holder[k := -1]);
    if IsValid(v) && 0 <= was < |b.fate|
    then emptied.(pool := b.pool + [(Source(v), Stamp(v))], folded := b.folded + [was], fate := b.fate[was := Folded])
    else emptied
  }

  lemma TakeKeepsBooks(b: Books, s: Sample)
    requires BooksOk(b)
    ensures BooksOk(TakeIndex(b, s))
  {
    hide Slot, Pack;
    var b' := TakeIndex(b, s);
    forall k | 0 <= k < RING_N ensures SlotOk(b', k) { assert SlotOk(b, k); }
    forall j | 0 <= j < |b'.folded| ensures FoldedOk(b', j) { assert FoldedOk(b, j); }
  }

  lemma StoreKeepsBooks(b: Books, i: nat)
    requires BooksOk(b) && i < |b.fate| && b.fate[i] == InFlight
    ensures BooksOk(StoreAt(b, i))
  {
    hide Slot, Pack;
    var b' := StoreAt(b, i);
    assert SlotOk(b, Slot(i));
    forall k | 0 <= k < RING_N ensures SlotOk(b', k) { assert SlotOk(b, k); }
    forall j | 0 <= j < |b'.folded| ensures FoldedOk(b', j) { assert FoldedOk(b, j); }
  }

  lemma ReadKeepsBooks(b: Books, k: nat)
    requires BooksOk(b) && k < RING_N
    ensures BooksOk(ReadAt(b, k))
    ensures IsValid(b.words[k]) <==> b.holder[k] >= 0
  {
    hide Slot, Pack, Source, Stamp, IsValid;
    var b' := ReadAt(b, k);
    assert SlotOk(b, k);
    var was := b.holder[k];
    if was >= 0 {
      PackRoundTrip(b.samples[was]);
    } else {
      PackRoundTrip(Sample(0, 0));
    }
    forall m | 0 <= m < RING_N ensures SlotOk(b', m) { assert SlotOk(b, m); }
    forall j | 0 <= j < |b'.folded|
      ensures FoldedOk(b', j)
      ensures j < |b.folded| ==> b.folded[j] != was
    {
      assert j < |b.folded| ==> FoldedOk(b, j);
    }
    forall i | 0 <= i < |b'.fate| && b'.fate[i] == Folded
      ensures i in b'.folded
    {
      if i == was {
        assert b'.folded[|b.folded|] == was;
      } else {
        assert i in b.folded;
      }
    }
  }

  lemma SkipsAppend(ledger: seq<bool>, x: bool)
    ensures Skips(ledger + [x]) == Skips(ledger) + if x then 1 else 0
  {
    assert (ledger + [x])[..|ledger|] == ledger;
  }

  lemma {:induction false} SkipsMany(ledger: seq<bool>, n: nat)
    ensures Skips(ledger + seq(n, _ => true)) == Skips(ledger) + n
  {
    if n == 0 {
      assert ledger + seq(n, _ => true) == ledger;
    } else {
      SkipsMany(ledger, n - 1);
      assert ledger + seq(n, _ => true) == (ledger + seq(n - 1, _ => true)) + [true];
      SkipsAppend(ledger + seq(n - 1, _ => true), true);
    }
  }

  // ---- how far LOST is from the number of overwritten samples ----

  ghost function WithFate(fate: seq<Fate>, f: Fate): set<int> {
    set i | 0 <= i < |fate| && fate[i] == f
  }

  /** The stalled indices in `[lo, hi)`: those whose sample was not stored in one go. */
  ghost function Stalled(late: seq<bool>, lo: int, hi: int): set<int> {
    set i | 0 <= i < |late| && lo <= i < hi && late[i]
  }

  /** Slot `k` belongs to an index of `[lo, hi)`. */
  ghost predicate SlotPending(k: nat, lo: nat, hi: nat) {
    exists t: nat | lo <= t < hi :: Slot(t) == k
  }

  /** What stalls leave true: only a stalled sample is in flight; the slot of a pending index less than a
      ring behind is full unless that index stalled; a sample left in a slot that no pending index will
      read stalled; and a slot read was full, unless its index stalled. */
  ghost predicate Tracked(b: Books, ledger: seq<bool>, late: seq<bool>)
    requires BooksOk(b)
  {
    && |late| == |b.fate| && |ledger| <= |b.fate|
    && (forall i | 0 <= i < |b.fate| && b.fate[i] == InFlight :: late[i])
    && (forall t: nat | |ledger| <= t < |b.fate| && |b.fate| <= t + RING_N && !late[t] :: b.holder[Slot(t)] >= 0)
    && (forall k | 0 <= k < RING_N && 0 <= b.holder[k] < |late| && !late[b.holder[k]] ::
          SlotPending(k, |ledger|, |b.fate|))
    && |b.folded| <= |ledger| - Skips(ledger) <= |b.folded| + |Stalled(late, 0, |ledger|)|
  }

  lemma SameSlot(t: nat, u: nat)
    requires Slot(t) == Slot(u) && t < u
    ensures t + RING_N <= u
  {
  }

  lemma StalledGrows(late: seq<bool>, x: bool, lo: int, hi: int)
    requires hi <= |late|
    ensures Stalled(late + [x], lo, hi) == Stalled(late, lo, hi)
  {
  }

  lemma TrackedTake(b: Books, ledger: seq<bool>, late: seq<bool>, s: Sample)
    requires BooksOk(b) && Tracked(b, ledger, late)
    ensures BooksOk(TakeIndex(b, s)) && Tracked(TakeIndex(b, s), ledger, late + [true])
  {
    hide Slot, Pack, Skips, BooksOk;
    TakeKeepsBooks(b, s);
    BooksSized(b, 0);
    StalledGrows(late, true, 0, |ledger|);
    PendingGrows(b, ledger, late);
  }

  lemma PendingGrows(b: Books, ledger: seq<bool>, late: seq<bool>)
    requires BooksOk(b) && Tracked(b, ledger, late)
    ensures |b.holder| == RING_N
    ensures forall k | 0 <= k < RING_N && 0 <= b.holder[k] < |late| && !late[b.holder[k]] ::
              SlotPending(k, |ledger|, |b.fate| + 1)
  {
    forall k | 0 <= k < RING_N && 0 <= b.holder[k] < |late| && !late[b.holder[k]]
      ensures SlotPending(k, |ledger|, |b.fate| + 1)
    {
      assert SlotPending(k, |ledger|, |b.fate|);
      var t: nat :| |ledger| <= t < |b.fate| && Slot(t) == k;
      assert Slot(t) == k;
    }
  }

  lemma TrackedStore(b: Books, ledger: seq<bool>, late: seq<bool>, i: nat)
    requires BooksOk(b) && Tracked(b, ledger, late) && i < |b.fate| && b.fate[i] == InFlight
    ensures BooksOk(StoreAt(b, i)) && Tracked(StoreAt(b, i), ledger, late)
  {
    hide Slot, Pack, Skips, BooksOk;
    StoreKeepsBooks(b, i);
    BooksSized(b, Slot(i));
  }

  lemma TrackedSample(b: Books, ledger: seq<bool>, late: seq<bool>, s: Sample)
    requires BooksOk(b) && Tracked(b, ledger, late)
    ensures BooksOk(TakeIndex(b, s)) && |TakeIndex(b, s).fate| == |b.fate| + 1
    ensures var b' := StoreAt(TakeIndex(b, s), |b.fate|); BooksOk(b') && Tracked(b', ledger, late + [false])
  {
    hide Slot, Pack, Skips, BooksOk, SlotPending;
    TakeKeepsBooks(b, s);
    BooksSized(b, 0);
    var n := |b.fate|;
    forall k | 0 <= k < RING_N
      ensures b.holder[k] < n
    {
      BooksSized(b, k);
    }
    BooksSized(TakeIndex(b, s), Slot(n));
    StoreKeepsBooks(TakeIndex(b, s), n);
    StalledGrows(late, false, 0, |ledger|);
    PendingGrows(b, ledger, late);
    OwnSlotPending(n, |ledger|);
  }

  lemma OwnSlotPending(n: nat, lo: nat)
    requires lo <= n
    ensures SlotPending(Slot(n), lo, n + 1)
  {
  }

  lemma TrackedRead(b: Books, ledger: seq<bool>, late: seq<bool>)
    requires BooksOk(b) && Tracked(b, ledger, late) && |ledger| < |b.fate| <= |ledger| + RING_N
    ensures BooksOk(ReadAt(b, Slot(|ledger|))) && Tracked(ReadAt(b, Slot(|ledger|)), ledger + [false], late)
  {
    hide Slot, Pack, Skips, BooksOk, IsValid, Source, Stamp;
    var t := |ledger|;
    ReadKeepsBooks(b, Slot(t));
    BooksSized(b, Slot(t));
    SkipsAppend(ledger, false);
    StalledNext(late, t);
    var b' := ReadAt(b, Slot(t));
    forall u: nat | t + 1 <= u < |b.fate| && !late[u]
      ensures b'.holder[Slot(u)] >= 0
    {
      if Slot(u) == Slot(t) { SameSlot(t, u); }
      assert b.holder[Slot(u)] >= 0;
    }
    forall k | 0 <= k < RING_N && 0 <= b'.holder[k] < |late| && !late[b'.holder[k]]
      ensures SlotPending(k, t + 1, |b.fate|)
    {
      assert SlotPending(k, t, |b.fate|);
      var u: nat :| t <= u < |b.fate| && Slot(u) == k;
      assert Slot(u) == k;
    }
  }

  lemma StalledNext(late: seq<bool>, t: nat)
    requires t < |late|
    ensures |Stalled(late, 0, t + 1)| == |Stalled(late, 0, t)| + if late[t] then 1 else 0
  {
    assert Stalled(late, 0, t + 1) == Stalled(late, 0, t) + if late[t] then {t as int} else {};
  }

  lemma TrackedSkip(b: Books, ledger: seq<bool>, late: seq<bool>, n: nat)
    requires BooksOk(b) && Tracked(b, ledger, late) && |ledger| + n + RING_N == |b.fate|
    ensures Tracked(b, ledger + seq(n, _ => true), late)
  {
    hide Pack, Skips, BooksOk;
    BooksSized(b, 0);
    var ledger' := ledger + seq(n, _ => true);
    SkipsMany(ledger, n);
    StalledSubset(late, |ledger|, |ledger'|);
    forall k: nat | k < RING_N
      ensures SlotPending(k, |ledger'|, |b.fate|)
    {
      LatestInSlot(k, |b.fate|);
    }
  }

  lemma StalledSubset(late: seq<bool>, t: nat, u: nat)
    requires t <= u
    ensures |Stalled(late, 0, t)| <= |Stalled(late, 0, u)|
  {
    SubsetCard(Stalled(late, 0, t), Stalled(late, 0, u));
  }

  lemma SubsetCard(a: set<int>, b: set<int>)
    requires a <= b
    ensures |a| <= |b|
  {
    assert b == a + (b - a);
  }

  /** The last index below `head` that uses slot `k`. */
  function Latest(k: nat, head: nat): int {
    head - 1 - (head - 1 - k) % RING_N
  }

  lemma LatestInSlot(k: nat, head: nat)
    requires k < RING_N <= head
    ensures head - RING_N <= Latest(k, head) < head && Slot(Latest(k, head)) == k
  {
    var q := (head - 1 - k) / RING_N;
    assert Latest(k, head) == k + RING_N * q;
  }

  // ---- counting ----

  lemma {:induction false} InjectionCard<T(!new)>(a: set<T>, b: set<T>, f: T -> T)
    requires forall x | x in a :: f(x) in b
    requires forall x, y | x in a && y in a && f(x) == f(y) :: x == y
    ensures |a| <= |b|
  {
    if a != {} {
      var x :| x in a;
      InjectionCard(a - {x}, b - {f(x)}, f);
    }
  }

  /** The indices `[lo, hi)`. */
  ghost function Range(lo: int, hi: int): (r: set<int>)
    requires lo <= hi
    ensures forall i :: i in r <==> lo <= i < hi
    ensures |r| == hi - lo
    decreases hi - lo
  {
    if lo == hi then {} else Range(lo, hi - 1) + {hi - 1}
  }

  /** Every index has exactly one fate. */
  lemma FatesPartition(fate: seq<Fate>)
    ensures |fate| == |WithFate(fate, InFlight)| + |WithFate(fate, Resident)|
                    + |WithFate(fate, Folded)| + |WithFate(fate, Overwritten)|
  {
    var a := WithFate(fate, InFlight) + WithFate(fate, Resident);
    var b := WithFate(fate, Folded) + WithFate(fate, Overwritten);
    assert a !! b && Range(0, |fate|) == a + b;
  }

  lemma {:induction false} DistinctCard(xs: seq<nat>, elems: set<int>)
    requires forall j, k | 0 <= j < k < |xs| :: xs[j] != xs[k]
    requires forall x: int :: x in elems <==> x >= 0 && x in xs
    ensures |elems| == |xs|
  {
    if xs == [] {
      assert forall x :: x !in elems;
    } else {
      var n := |xs| - 1;
      assert xs == xs[..n] + [xs[n]];
      DistinctCard(xs[..n], elems - {xs[n]});
    }
  }

  lemma FoldedCard(b: Books)
    requires BooksOk(b)
    ensures |WithFate(b.fate, Folded)| == |b.folded|
  {
    forall x | x in b.folded
      ensures x < |b.fate| && b.fate[x] == Folded
    {
      var j :| 0 <= j < |b.folded| && b.folded[j] == x;
      assert FoldedOk(b, j);
    }
    DistinctCard(b.folded, WithFate(b.fate, Folded));
  }

  /** How many of the pending indices are less than a ring behind. */
  function Window(pending: nat): nat {
    if pending < RING_N then pending else RING_N
  }

  /** A full slot in the window accounts for a resident sample of its own. */
  lemma ResidentsAtLeast(b: Books, ledger: seq<bool>, late: seq<bool>)
    requires BooksOk(b) && Tracked(b, ledger, late)
    ensures var n := |b.fate|;
            var w := Window(n - |ledger|);
            w <= |WithFate(b.fate, Resident)| + |Stalled(late, n - w, n)|
  {
    hide Stalled, WithFate, FullSlots, Tracked, BooksOk;
    TrackedSized(b, ledger, late);
    var n := |b.fate|;
    var lo := n - Window(n - |ledger|);
    FullCard(b, lo, n);
    EmptyIsStalled(b, ledger, late, lo);
  }

  lemma EmptyIsStalled(b: Books, ledger: seq<bool>, late: seq<bool>, lo: nat)
    requires BooksOk(b) && Tracked(b, ledger, late) && |ledger| <= lo <= |b.fate| <= lo + RING_N
    ensures |b.holder| == RING_N
    ensures |b.fate| - lo <= |FullSlots(b.holder, lo, |b.fate|)| + |Stalled(late, lo, |b.fate|)|
  {
    hide Pack, Skips, SlotPending, Range;
    var n := |b.fate|;
    var full, stalled := FullSlots(b.holder, lo, n), Stalled(late, lo, n);
    forall t | t in Range(lo, n)
      ensures t in full + stalled
    {
      assert Slot(t) == t % RING_N;
    }
    SubsetCard(Range(lo, n), full + stalled);
  }

  /** The indices of `[lo, hi)` whose slot holds something. */
  ghost function FullSlots(holder: seq<int>, lo: nat, hi: nat): set<int>
    requires |holder| == RING_N
  {
    set t: int | lo <= t < hi && holder[t % RING_N] >= 0
  }

  lemma FullCard(b: Books, lo: nat, hi: nat)
    requires BooksOk(b) && lo <= hi <= lo + RING_N
    ensures |b.holder| == RING_N && |FullSlots(b.holder, lo, hi)| <= |WithFate(b.fate, Resident)|
  {
    hide Pack, BooksOk;
    BooksSized(b, 0);
    var full := FullSlots(b.holder, lo, hi);
    var f := t => if |b.holder| == RING_N then b.holder[t % RING_N] else 0;
    forall t | t in full
      ensures f(t) in WithFate(b.fate, Resident) && f(t) % RING_N == t % RING_N
    {
      HeldIsResident(b, Slot(t));
    }
    forall t, u | t in full && u in full && f(t) == f(u)
      ensures t == u
    {
      assert t % RING_N == u % RING_N;
    }
    InjectionCard(full, WithFate(b.fate, Resident), f);
  }

  lemma HeldIsResident(b: Books, k: nat)
    requires BooksOk(b) && k < RING_N && b.holder[k] >= 0
    ensures b.holder[k] < |b.fate| && b.fate[b.holder[k]] == Resident && Slot(b.holder[k]) == k
  {
    assert SlotOk(b, k);
  }

  /** A resident sample that did not stall has a slot in the window to itself. */
  lemma ResidentsAtMost(b: Books, ledger: seq<bool>, late: seq<bool>)
    requires BooksOk(b) && Tracked(b, ledger, late)
    ensures |WithFate(b.fate, InFlight)| + |WithFate(b.fate, Resident)|
              <= Window(|b.fate| - |ledger|) + |Stalled(late, 0, |b.fate|)|
  {
    hide Pack, Skips, BooksOk, SlotPending;
    BooksSized(b, 0);
    var n := |b.fate|;
    var lo := n - Window(n - |ledger|);
    var flight, resident := WithFate(b.fate, InFlight), WithFate(b.fate, Resident);
    var stalled := Stalled(late, 0, n);
    SubsetCard(flight + (resident * stalled), stalled);
    assert flight !! (resident * stalled);
    assert resident == (resident * stalled) + (resident - stalled);
    var window := Range(lo, n);
    var f := i => if 0 <= i then Latest(i % RING_N, n) else 0;
    forall i | i in resident - stalled
      ensures f(i) in window && b.holder[i % RING_N] == i && f(i) % RING_N == i % RING_N
    {
      PromptInWindow(b, ledger, late, i);
    }
    InjectionCard(resident - stalled, window, f);
  }

  lemma PromptInWindow(b: Books, ledger: seq<bool>, late: seq<bool>, i: nat)
    requires BooksOk(b) && Tracked(b, ledger, late) && i < |b.fate| && b.fate[i] == Resident && !late[i]
    ensures b.holder[i % RING_N] == i
    ensures var t, n := Latest(i % RING_N, |b.fate|), |b.fate|;
            n - Window(n - |ledger|) <= t < n && t % RING_N == i % RING_N
  {
    var n, k := |b.fate|, Slot(i);
    assert b.holder[Slot(i)] == i;
    assert SlotPending(k, |ledger|, n);
    var t: nat :| |ledger| <= t < n && Slot(t) == k;
    LatestIsLast(k, n, t);
  }

  lemma LatestIsLast(k: nat, head: nat, t: nat)
    requires k < RING_N && t < head && Slot(t) == k
    ensures t <= Latest(k, head) < head && head - RING_N <= Latest(k, head) && Latest(k, head) % RING_N == k
  {
    var q := t / RING_N;
    var p := (head - 1 - k) / RING_N;
    assert t == k + RING_N * q && Latest(k, head) == k + RING_N * p;
  }

  /** In every run, with any stalls: `LOST` plus the part of a burst not yet skipped differs from the number of
      samples overwritten by no more than the number of samples that stalled. Without stalls it is exact. */
  lemma LostIsOverwritten(b: Books, ledger: seq<bool>, late: seq<bool>)
    requires BooksOk(b) && Tracked(b, ledger, late)
    ensures var pending := |b.fate| - |ledger|;
            var counted := Skips(ledger) + pending - Window(pending);
            var stalls := |Stalled(late, 0, |b.fate|)|;
            counted - stalls <= |WithFate(b.fate, Overwritten)| <= counted + stalls
  {
    hide BooksOk, Skips;
    var n := |b.fate|;
    var lo := n - Window(n - |ledger|);
    FatesPartition(b.fate);
    FoldedCard(b);
    ResidentsAtLeast(b, ledger, late);
    ResidentsAtMost(b, ledger, late);
    var early, recent := Stalled(late, 0, |ledger|), Stalled(late, lo, n);
    assert early !! recent;
    SubsetCard(early + recent, Stalled(late, 0, n));
  }

  class Ring {
    const ring: array<bv64>
    var head: nat
    var lost: nat
    var tail: nat
    /** What `Entropy::sample` was given, in order. */
    var pool: seq<(bv8, bv64)>
    ghost var samples: seq<Sample>
    ghost var fate: seq<Fate>
    ghost var holder: seq<int>
    ghost var folded: seq<nat>
    /** One entry per index below `tail`: skipped (and counted in `lost`), or read. */
    ghost var ledger: seq<bool>
    /** One entry per index: was its sample stored later than it was taken? */
    ghost var late: seq<bool>

    ghost function View(): Books
      reads this, ring
    {
      Books(ring[..], pool, samples, fate, holder, folded)
    }

    /** Every index handed out is read, counted as lost, or pending; every sample is in exactly one place;
        what was folded was folded once, with its own source and time. */
    ghost predicate Valid()
      reads this, ring
    {
      && ring.Length == RING_N
      && BooksOk(View()) && |samples| == head
      && tail <= head && |ledger| == tail && Skips(ledger) == lost
      && Tracked(View(), ledger, late)
    }

    /** How many samples stalled between taking their index and storing. */
    ghost function Stalls(): nat
      reads this
    {
      |Stalled(late, 0, |late|)|
    }

    /** How many samples were overwritten before they were read. */
    ghost function Overwrites(): nat
      reads this
    {
      |WithFate(fate, Overwritten)|
    }

    constructor ()
      ensures Valid() && fresh(ring) && head == 0 && tail == 0 && lost == 0 && pool == []
      ensures samples == [] && fate == [] && late == []
    {
      ring := new bv64[RING_N](_ => 0);
      head, lost, tail, pool := 0, 0, 0, [];
      samples, fate, folded, ledger, late := [], [], [], [], [];
      holder := seq(RING_N, _ => -1);
      new;
      assert ring[..] == seq(RING_N, _ => 0);
    }

    /** First half of `sample`, when something comes between the halves: read the clock, take an index. */
    method Take(s: Sample) returns (i: nat, packed: bv64)
      requires Valid()
      modifies `head, `samples, `fate, `late
      ensures Valid() && i == old(head) && head == i + 1
      ensures fate == old(fate) + [InFlight] && samples == old(samples) + [s] && late == old(late) + [true]
      ensures packed == Pack(s)
    {
      hide BooksOk, Tracked, Pack, Skips;
      BooksSized(View(), 0);
      TrackedTake(View(), ledger, late, s);
      packed := Pack(s);
      i := head;
      head := head + 1;
      samples := samples + [s];
      fate := fate + [InFlight];
      late := late + [true];
    }

    /** `sample` without a stall in the middle. */
    method SampleNow(s: Sample)
      requires Valid()
      modifies `head, `samples, `fate, `late, ring, `holder
      ensures Valid() && head == old(head) + 1 && samples == old(samples) + [s]
      ensures View() == StoreAt(TakeIndex(old(View()), s), old(head))
      ensures late == old(late) + [false]
    {
      hide BooksOk, Tracked, Pack, Skips;
      ghost var b, stalls := View(), late;
      BooksSized(b, 0);
      TrackedSample(b, ledger, late, s);
      var i, packed := Take(s);
      assert View() == TakeIndex(b, s);
      Store(i, packed);
      late := stalls + [false];
    }

    /** Second half of `sample`, at any later time. */
    method Store(i: nat, packed: bv64)
      requires Valid() && i < |fate| && fate[i] == InFlight && packed == Pack(samples[i])
      modifies ring, `fate, `holder
      ensures Valid() && View() == StoreAt(old(View()), i)
    {
      hide BooksOk, Tracked, Pack, Skips;
      ghost var b := View();
      BooksSized(b, 0);
      TrackedStore(b, ledger, late, i);
      ring[i % RING_N] := packed;
      assert ring[..] == b.words[Slot(i) := packed];
      fate := StoreAt(b, i).fate;
      holder := StoreAt(b, i).holder;
    }

    /** Swap the slot at `tail` for 0 and fold what was there. */
    method ReadOne()
      requires Valid() && tail < head <= tail + RING_N
      modifies this, ring
      ensures Valid() && View() == ReadAt(old(View()), Slot(old(tail)))
      ensures tail == old(tail) + 1 && head == old(head) && lost == old(lost)
      ensures ledger == old(ledger) + [false] && late == old(late)
    {
      hide BooksOk, Tracked, Source, Stamp, IsValid, Skips, Pack;
      ghost var b := View();
      BooksSized(b, 0);
      TrackedRead(b, ledger, late);
      ReadKeepsBooks(b, Slot(tail));
      BooksSized(b, Slot(tail));
      var v := ring[tail % RING_N];
      ring[tail % RING_N] := 0;
      assert ring[..] == b.words[Slot(tail) := 0];
      folded := ReadAt(b, Slot(tail)).folded;
      fate := ReadAt(b, Slot(tail)).fate;
      holder := ReadAt(b, Slot(tail)).holder;
      if IsValid(v) {
        pool := pool + [(Source(v), Stamp(v))];
      }
      SkipsAppend(ledger, false);
      ledger := ledger + [false];
      tail := tail + 1;
    }

    /** A burst bigger than the ring: give up on what is more than a ring behind. */
    method SkipBehind()
      requires Valid()
      modifies `lost, `tail, `ledger
      ensures Valid() && head - tail <= RING_N
      ensures var behind := head - old(tail);
              var skipped := if behind > RING_N then behind - RING_N else 0;
              && lost == old(lost) + skipped && tail == old(tail) + skipped
              && ledger == old(ledger) + seq(skipped, _ => true)
    {
      hide BooksOk, Skips, Tracked;
      BooksSized(View(), 0);
      var behind := head - tail;
      if behind > RING_N {
        SkipsMany(ledger, behind - RING_N);
        TrackedSkip(View(), ledger, late, behind - RING_N);
        ledger := ledger + seq(behind - RING_N, _ => true);
        lost := lost + (behind - RING_N);
        tail := head - RING_N;
      }
    }

    /** Fold up to `max` samples; returns how many slots were read. */
    method Fold(max: nat) returns (n: nat)
      requires Valid()
      modifies this, ring
      ensures Valid() && head == old(head) && samples == old(samples)
      ensures var behind := old(head) - old(tail);
              var skipped := if behind > RING_N then behind - RING_N else 0;
              && lost == old(lost) + skipped
              && n == (if max < behind - skipped then max else behind - skipped)
              && tail == old(tail) + skipped + n
              && ledger == old(ledger) + seq(skipped, _ => true) + seq(n, _ => false)
      ensures old(pool) <= pool && old(folded) <= folded && |pool| <= |old(pool)| + n
      ensures late == old(late) && OnlyFolded(old(fate), fate)
      ensures lost - Stalls() <= Overwrites() <= lost + Stalls()
    {
      hide BooksOk, Skips, Source, Stamp, IsValid, Slot, Tracked, OnlyFolded;
      OnlyFoldedRefl(fate);
      var h := head;
      SkipBehind();
      ghost var skipLedger, start, skipLost := ledger, tail, lost;
      n := 0;
      while tail != h && n < max
        invariant Valid() && head == h && samples == old(samples) && lost == skipLost
        invariant tail == start + n <= h && n <= max && h - tail <= RING_N
        invariant ledger == skipLedger + seq(n, _ => false)
        invariant late == old(late) && OnlyFolded(old(fate), fate)
        invariant old(pool) <= pool && old(folded) <= folded && |pool| <= |old(pool)| + n
      {
        BooksSized(View(), 0);
        ReadOnlyFolds(View(), Slot(tail), old(fate));
        ReadOne();
        n := n + 1;
      }
      LostIsOverwritten(View(), ledger, late);
      TrackedSized(View(), ledger, late);
    }

    /** The drain of `step`: with interrupts off nothing is added, so folding 64 at a time ends, with
        nothing pending. */
    method Drain()
      requires Valid()
      modifies this, ring
      ensures Valid() && head == old(head) && tail == head
    {
      hide BooksOk, Skips;
      var more := true;
      while more
        invariant Valid() && head == old(head)
        invariant !more ==> tail == head
        decreases head - tail, more
      {
        var n := Fold(64);
        more := n == 64;
      }
    }
  }

  lemma BooksSized(b: Books, k: nat)
    requires BooksOk(b) && k < RING_N
    ensures |b.words| == |b.holder| == RING_N && |b.fate| == |b.samples| && |b.pool| == |b.folded|
    ensures b.holder[k] < |b.fate|
  {
    assert SlotOk(b, k);
  }

  lemma TrackedSized(b: Books, ledger: seq<bool>, late: seq<bool>)
    requires BooksOk(b) && Tracked(b, ledger, late)
    ensures |late| == |b.fate| == |b.samples| && |ledger| <= |b.fate|
  {
  }

  /** A fold changes no fate but from resident to folded. */
  predicate OnlyFolded(fate: seq<Fate>, fate': seq<Fate>) {
    && |fate'| == |fate|
    && forall i | 0 <= i < |fate| :: fate'[i] == fate[i] || (fate[i] == Resident && fate'[i] == Folded)
  }

  lemma OnlyFoldedRefl(fate: seq<Fate>)
    ensures OnlyFolded(fate, fate)
  {
  }

  lemma ReadOnlyFolds(b: Books, k: nat, before: seq<Fate>)
    requires BooksOk(b) && k < RING_N && OnlyFolded(before, b.fate)
    ensures |b.words| == |b.holder| == RING_N && |b.fate| == |b.samples|
    ensures OnlyFolded(before, ReadAt(b, k).fate)
  {
    assert SlotOk(b, k);
  }

  /** The first ring of indices meets only empty slots while index 0 is in flight. */
  lemma NothingThere(b: Books)
    requires BooksOk(b) && 0 < |b.fate| <= RING_N && b.fate[0] == InFlight
    ensures b.holder[Slot(|b.fate|)] < 0
  {
    var k := Slot(|b.fate|);
    if b.holder[k] >= 0 {
      HeldIsResident(b, k);
      SameSlot(b.holder[k], |b.fate|);
    }
  }

  /** With nothing pending and the only stalled sample in flight, the ring is empty. */
  lemma RingEmpty(b: Books, ledger: seq<bool>, late: seq<bool>, k: nat)
    requires BooksOk(b) && Tracked(b, ledger, late) && |ledger| == |b.fate| > 0 && k < RING_N
    requires b.fate[0] == InFlight && forall i | 0 < i < |late| :: !late[i]
    ensures b.holder[k] < 0
  {
    assert !SlotPending(k, |ledger|, |b.fate|);
    if b.holder[k] >= 0 {
      HeldIsResident(b, k);
    }
  }

  /** One stalled store is enough to make `LOST` wrong: a producer takes index 0, a ring of others is taken
      and stored, a fold gives index 0 up as lost and reads the rest, and the sample of index 0 arrives
      afterwards, overwriting nothing. */
  method StalledStoreMiscounts(s: Sample) returns (r: Ring)
    ensures fresh(r) && r.Valid() && r.Stalls() == 1
    ensures r.lost == 1 && r.Overwrites() == 0
  {
    hide BooksOk, Tracked, Slot, Pack, Skips;
    r := new Ring();
    var first, packed := r.Take(s);
    for i := 1 to RING_N + 1
      invariant r.Valid() && fresh(r) && fresh(r.ring) && r.head == i && r.tail == 0 && r.lost == 0
      invariant 0 < |r.samples| == |r.fate| == i && r.samples[0] == s && r.fate[0] == InFlight
      invariant r.late == [true] + seq(i - 1, _ => false)
      invariant forall j | 0 <= j < i :: r.fate[j] != Overwritten
    {
      BooksSized(r.View(), 0);
      NothingThere(r.View());
      r.SampleNow(s);
    }
    var n := r.Fold(RING_N);
    BooksSized(r.View(), 0);
    TrackedSized(r.View(), r.ledger, r.late);
    RingEmpty(r.View(), r.ledger, r.late, Slot(first));
    r.Store(first, packed);
    assert Stalled(r.late, 0, |r.late|) == {0};
    assert WithFate(r.fate, Overwritten) == {};
  }
}
