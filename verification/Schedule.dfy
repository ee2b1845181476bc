/** Round-robin choice of the next slot (`kitsune_core::system::schedule`). */
module Schedule {
  import opened Wrappers

  /** The first ready slot among `cur + step, cur + step + 1, ..., cur + n`, modulo `n`. */
  function ScanFrom(cur: nat, ready: seq<bool>, step: nat): Option<nat>
    requires |ready| > 0
    decreases |ready| + 1 - step
  {
    if step > |ready| then None
    else if ready[(cur + step) % |ready|] then Some((cur + step) % |ready|)
    else ScanFrom(cur, ready, step + 1)
  }

  function NextRunnable(cur: nat, ready: seq<bool>): Option<nat> {
    if |ready| == 0 then None else ScanFrom(cur, ready, 1)
  }

  function Unheld(ready: seq<bool>, held: seq<bool>): seq<bool>
    requires |ready| == |held|
  {
    seq(|ready|, i requires 0 <= i < |ready| => ready[i] && !held[i])
  }

  function NextRunnableHeld(cur: nat, ready: seq<bool>, held: seq<bool>): Option<nat>
    requires |ready| == |held|
  {
    var first := NextRunnable(cur, Unheld(ready, held));
    if first.Some? && first.value != cur then first else NextRunnable(cur, ready)
  }

  /** How many slots after `cur` slot `i` comes in the round; `cur` itself comes last. */
  function Distance(cur: nat, i: nat, n: nat): int {
    if i > cur then i - cur else i - cur + n
  }

  lemma StepSlot(cur: nat, step: nat, n: nat)
    requires cur < n && 1 <= step <= n
    ensures (cur + step) % n == if cur + step < n then cur + step else cur + step - n
    ensures Distance(cur, (cur + step) % n, n) == step
  {
    if cur + step < n {
      assert (cur + step) % n == cur + step;
    } else {
      assert cur + step == 1 * n + (cur + step - n);
    }
  }

  lemma {:induction false} ScanNearest(cur: nat, ready: seq<bool>, step: nat)
    requires cur < |ready| && 1 <= step
    ensures match ScanFrom(cur, ready, step) {
              case None => forall i | 0 <= i < |ready| && step <= Distance(cur, i, |ready|) :: !ready[i]
              case Some(r) =>
                && r < |ready| && ready[r] && step <= Distance(cur, r, |ready|)
                && forall i | 0 <= i < |ready| && ready[i] && step <= Distance(cur, i, |ready|) ::
                     Distance(cur, r, |ready|) <= Distance(cur, i, |ready|)
            }
    decreases |ready| + 1 - step
  {
    if step <= |ready| {
      StepSlot(cur, step, |ready|);
      if !ready[(cur + step) % |ready|] {
        ScanNearest(cur, ready, step + 1);
      }
    }
  }

  /** The pick is the ready slot that comes first after `cur`; there is none only when nobody is ready. */
  lemma NearestReady(cur: nat, ready: seq<bool>)
    requires cur < |ready|
    ensures match NextRunnable(cur, ready) {
              case None => forall i | 0 <= i < |ready| :: !ready[i]
              case Some(r) =>
                && r < |ready| && ready[r]
                && forall i | 0 <= i < |ready| && ready[i] :: Distance(cur, r, |ready|) <= Distance(cur, i, |ready|)
            }
  {
    ScanNearest(cur, ready, 1);
  }

  predicate Eligible(ready: seq<bool>, held: seq<bool>, i: nat)
    requires |ready| == |held|
  {
    i < |ready| && ready[i] && !held[i]
  }

  /** While a slot other than `cur` is ready and not held, the pick is such a slot, the nearest one. */
  lemma PicksEligible(cur: nat, ready: seq<bool>, held: seq<bool>, w: nat)
    requires cur < |ready| == |held| && Eligible(ready, held, w) && w != cur
    ensures var r := NextRunnableHeld(cur, ready, held);
            && r.Some? && Eligible(ready, held, r.value) && r.value != cur
            && Distance(cur, r.value, |ready|) <= Distance(cur, w, |ready|)
  {
    NearestReady(cur, Unheld(ready, held));
    assert Unheld(ready, held)[w];
  }

  /** Otherwise holding is ignored: any ready slot may be picked, held or not. */
  lemma PicksHeld(cur: nat, ready: seq<bool>, held: seq<bool>)
    requires cur < |ready| == |held|
    requires forall w: nat | w != cur :: !Eligible(ready, held, w)
    ensures NextRunnableHeld(cur, ready, held) == NextRunnable(cur, ready)
  {
    NearestReady(cur, Unheld(ready, held));
    var first := NextRunnable(cur, Unheld(ready, held));
    assert first.Some? ==> Eligible(ready, held, first.value);
  }

  /** Somebody ready is picked whenever anybody is ready; a held slot is picked only when no slot other
      than `cur` is ready and not held. */
  lemma HeldPick(cur: nat, ready: seq<bool>, held: seq<bool>)
    requires cur < |ready| == |held|
    ensures var r := NextRunnableHeld(cur, ready, held);
            && (r.None? <==> forall i | 0 <= i < |ready| :: !ready[i])
            && (r.Some? ==> r.value < |ready| && ready[r.value])
            && (r.Some? && held[r.value] ==> forall w: nat | w != cur :: !Eligible(ready, held, w))
  {
    NearestReady(cur, ready);
    if w: nat :| w != cur && Eligible(ready, held, w) {
      PicksEligible(cur, ready, held, w);
    } else {
      PicksHeld(cur, ready, held);
    }
  }

  /** Every pick brings a ready, unheld slot strictly closer to its turn, until it is picked. */
  lemma PickApproaches(cur: nat, ready: seq<bool>, held: seq<bool>, t: nat)
    requires cur < |ready| == |held| && t != cur && Eligible(ready, held, t)
    ensures var r := NextRunnableHeld(cur, ready, held);
            && r.Some? && r.value < |ready|
            && (r.value == t || Distance(r.value, t, |ready|) < Distance(cur, t, |ready|))
  {
    PicksEligible(cur, ready, held, t);
  }
}
