/** Alignment and region-fit arithmetic of the kernel heap (`kitsune_core::system::heap`).
    Addresses and sizes are mathematical integers; every checked 64-bit addition of the source is
    written out with `CheckedAdd`. */
module HeapMath {
  import opened Wrappers

  const USIZE_MAX: nat := 0xFFFF_FFFF_FFFF_FFFF
  /** Size and alignment of a free-list node (a `usize` and an optional reference). */
  const NODE_SIZE: nat := 16
  const NODE_ALIGN: nat := 8

  function Max(a: nat, b: nat): nat {
    if a < b then b else a
  }

  predicate IsPowerOfTwo(a: nat) {
    a == 1 || (a > 1 && a % 2 == 0 && IsPowerOfTwo(a / 2))
  }

  /** `x & !(align - 1)` for a power of two `align`: round down to a multiple. */
  function AlignDown(x: nat, align: nat): nat
    requires align > 0
  {
    x - x % align
  }

  function AlignUp(x: nat, align: nat): nat
    requires align > 0
  {
    AlignDown(x + align - 1, align)
  }

  function CheckedAdd(a: nat, b: nat): Option<nat> {
    if a + b <= USIZE_MAX then Some(a + b) else None
  }

  datatype Fit = Fit(front: nat, allocStart: nat, excess: nat)

  /** The start `FitRegionSplit` tries: aligned, moved one step further when the gap in front could
      not hold a node. */
  function Candidate(regionStart: nat, align: nat, minBlock: nat): (r: Option<nat>)
    requires align > 0
    ensures r.Some? ==> regionStart <= r.value
  {
    match CheckedAdd(regionStart, align - 1)
    case None => None
    case Some(padded) =>
      var first := AlignDown(padded, align);
      if first != regionStart && first - regionStart < minBlock
      then CheckedAdd(first, align)
      else Some(first)
  }

  function FitRegionSplit(regionStart: nat, regionSize: nat, size: nat, align: nat, minBlock: nat): (r: Option<Fit>)
  {
    if regionSize < size || !IsPowerOfTwo(align) then None
    else
      match CheckedAdd(regionStart, regionSize)
      case None => None
      case Some(regionEnd) =>
        match Candidate(regionStart, align, minBlock)
        case None => None
        case Some(allocStart) =>
          match CheckedAdd(allocStart, size)
          case None => None
          case Some(allocEnd) =>
            if allocEnd > regionEnd then None
            else
              var excess := regionEnd - allocEnd;
              if 0 < excess < minBlock then None
              else Some(Fit(allocStart - regionStart, allocStart, excess))
  }

  predicate RegionsAdjacent(aStart: nat, aSize: nat, bStart: nat) {
    CheckedAdd(aStart, aSize) == Some(bStart)
  }

  function AdjustSize(size: nat): nat {
    AlignUp(Max(size, NODE_SIZE), NODE_ALIGN)
  }

  function AdjustAlign(align: nat): nat {
    Max(align, NODE_ALIGN)
  }

  lemma AdjustSizeBounds(size: nat)
    ensures AdjustSize(size) >= size && AdjustSize(size) >= NODE_SIZE
    ensures AdjustSize(size) % NODE_ALIGN == 0
    ensures AdjustSize(size) < Max(size, NODE_SIZE) + NODE_ALIGN
  {
  }

  // ---- the fit is exact ----

  /** What a caller may ask of a placement: inside the region, aligned, and each leftover either
      empty or big enough to go back on the free list. */
  predicate ValidPlacement(regionStart: nat, regionSize: nat, size: nat, align: nat, s: nat)
    requires align > 0
  {
    && regionStart <= s
    && s + size <= regionStart + regionSize
    && s % align == 0
    && (s == regionStart || s - regionStart >= NODE_SIZE)
    && (s + size == regionStart + regionSize || regionStart + regionSize - (s + size) >= NODE_SIZE)
  }

  function Pow2(k: nat): nat {
    if k == 0 then 1 else 2 * Pow2(k - 1)
  }

  lemma {:induction false} Pow2IsPower(k: nat)
    ensures IsPowerOfTwo(Pow2(k))
  {
    if k > 0 {
      Pow2IsPower(k - 1);
    }
  }

  /** The alignments accepted are exactly the powers of two. */
  lemma {:induction false} PowersOfTwo(a: nat)
    ensures IsPowerOfTwo(a) <==> exists k: nat :: a == Pow2(k)
  {
    if k: nat :| a == Pow2(k) {
      Pow2IsPower(k);
    }
    if a == 1 {
      assert a == Pow2(0);
    } else if IsPowerOfTwo(a) {
      PowersOfTwo(a / 2);
      var k: nat :| a / 2 == Pow2(k);
      assert a == Pow2(k + 1);
    }
  }

  lemma {:induction false} PowerOfTwoDivides(a: nat, b: nat)
    requires IsPowerOfTwo(a) && IsPowerOfTwo(b) && a <= b
    ensures b % a == 0
  {
    if a > 1 {
      PowerOfTwoDivides(a / 2, b / 2);
      var q := (b / 2) / (a / 2);
      assert b / 2 == q * (a / 2);
      assert b == q * a;
      MultipleMod(q, a);
    }
  }

  lemma MultipleMod(q: nat, a: nat)
    requires a > 0
    ensures (q * a) % a == 0
  {
    var m, d := (q * a) % a, (q * a) / a;
    assert (q - d) * a == m;
    assert q - d >= 1 ==> (q - d) * a >= a;
    assert q - d <= -1 ==> (q - d) * a <= -1 * a;
  }

  /** Two multiples of `a` that differ are at least `a` apart. */
  lemma MultiplesApart(a: nat, x: nat, y: nat)
    requires a > 0 && x % a == 0 && y % a == 0 && x < y
    ensures x + a <= y
  {
    QuotientsApart(a, x / a, y / a);
  }

  lemma QuotientsApart(a: nat, p: nat, q: nat)
    requires p * a < q * a
    ensures p * a + a <= q * a
  {
    if q <= p {
      ProductGrows(a, q, p);
    } else {
      ProductGrows(a, p + 1, q);
      assert (p + 1) * a == p * a + a;
    }
  }

  lemma {:induction false} ProductGrows(a: nat, p: nat, q: nat)
    requires p <= q
    ensures p * a <= q * a
    decreases q
  {
    if p < q {
      ProductGrows(a, p, q - 1);
      assert q * a == (q - 1) * a + a;
    }
  }

  lemma NextMultiple(x: nat, a: nat)
    requires a > 0 && x % a == 0
    ensures (x + a) % a == 0
  {
    assert x + a == (x / a + 1) * a;
    MultipleMod(x / a + 1, a);
  }

  lemma MultipleOfMultiple(x: nat, a: nat, b: nat)
    requires a > 0 && b > 0 && x % a == 0 && a % b == 0
    ensures x % b == 0
  {
    var p, q := x / a, a / b;
    assert x == p * (q * b) == (p * q) * b;
    MultipleMod(p * q, b);
  }

  lemma AlignUpLeast(x: nat, a: nat)
    requires a > 0
    ensures AlignUp(x, a) % a == 0
    ensures x <= AlignUp(x, a) < x + a
    ensures forall s: nat | x <= s && s % a == 0 :: AlignUp(x, a) <= s
  {
    var up := AlignUp(x, a);
    assert up == ((x + a - 1) / a) * a;
    MultipleMod((x + a - 1) / a, a);
    forall s: nat | x <= s && s % a == 0
      ensures up <= s
    {
      if s < up {
        MultiplesApart(a, s, up);
        assert false;
      }
    }
  }

  lemma {:induction false} PowerOfTwoProduct(a: nat, b: nat)
    requires IsPowerOfTwo(a) && IsPowerOfTwo(b)
    ensures IsPowerOfTwo(a * b)
  {
    if a > 1 {
      PowerOfTwoProduct(a / 2, b);
      assert a * b == 2 * ((a / 2) * b);
    }
  }

  lemma TwoTo64()
    ensures IsPowerOfTwo(USIZE_MAX + 1)
  {
    assert IsPowerOfTwo(0x100);
    PowerOfTwoProduct(0x100, 0x100);
    PowerOfTwoProduct(0x1_0000, 0x1_0000);
    PowerOfTwoProduct(0x1_0000_0000, 0x1_0000_0000);
  }

  /** An aligned start whose front gap is empty or a whole node. */
  predicate ValidStart(regionStart: nat, align: nat, s: nat)
    requires align > 0
  {
    regionStart <= s <= USIZE_MAX && s % align == 0 && (s == regionStart || s - regionStart >= NODE_SIZE)
  }

  /** Both ends of a front gap are multiples of 8, so a non-empty gap is at least 8 bytes. */
  lemma GapIsWords(regionStart: nat, align: nat, first: nat)
    requires IsPowerOfTwo(align) && NODE_ALIGN <= align
    requires regionStart % NODE_ALIGN == 0 && first % align == 0 && regionStart < first
    ensures first - regionStart >= NODE_ALIGN
  {
    PowerOfTwoDivides(NODE_ALIGN, align);
    MultipleOfMultiple(first, align, NODE_ALIGN);
  }

  lemma CandidateValid(regionStart: nat, align: nat)
    requires IsPowerOfTwo(align) && NODE_ALIGN <= align <= USIZE_MAX
    requires regionStart % NODE_ALIGN == 0 && regionStart <= USIZE_MAX
    ensures var c := Candidate(regionStart, align, NODE_SIZE);
            c.Some? ==> ValidStart(regionStart, align, c.value)
  {
    var first := AlignUp(regionStart, align);
    var c := Candidate(regionStart, align, NODE_SIZE);
    assert c.Some? ==> c.value == first || (c.value == first + align && first != regionStart);
    AlignUpLeast(regionStart, align);
    if first != regionStart {
      GapIsWords(regionStart, align, first);
      NextMultiple(first, align);
    }
  }

  /** `Candidate` is the least valid start; when its checked additions overflow there is none. */
  lemma CandidateLeast(regionStart: nat, align: nat, s: nat)
    requires IsPowerOfTwo(align) && align <= USIZE_MAX
    requires ValidStart(regionStart, align, s)
    ensures var c := Candidate(regionStart, align, NODE_SIZE);
            c.Some? && c.value <= s
  {
    var first := AlignUp(regionStart, align);
    assert s + align <= USIZE_MAX + 1 by {
      TwoTo64();
      PowerOfTwoDivides(align, USIZE_MAX + 1);
      MultiplesApart(align, s, USIZE_MAX + 1);
    }
    assert first % align == 0 && first <= s by {
      AlignUpLeast(regionStart, align);
    }
    if first < s {
      MultiplesApart(align, first, s);
    }
  }

  lemma FitSound(regionStart: nat, regionSize: nat, size: nat, align: nat)
    requires IsPowerOfTwo(align) && NODE_ALIGN <= align <= USIZE_MAX
    requires regionStart % NODE_ALIGN == 0 && regionStart <= USIZE_MAX
    ensures var fit := FitRegionSplit(regionStart, regionSize, size, align, NODE_SIZE);
            fit.Some? ==>
              && ValidPlacement(regionStart, regionSize, size, align, fit.value.allocStart)
              && fit.value.front == fit.value.allocStart - regionStart
              && fit.value.front + size + fit.value.excess == regionSize
  {
    CandidateValid(regionStart, align);
  }

  lemma FitComplete(regionStart: nat, regionSize: nat, size: nat, align: nat, s: nat)
    requires IsPowerOfTwo(align) && NODE_ALIGN <= align <= USIZE_MAX
    requires regionStart % NODE_ALIGN == 0
    requires regionStart + regionSize <= USIZE_MAX
    requires ValidPlacement(regionStart, regionSize, size, align, s)
    ensures var fit := FitRegionSplit(regionStart, regionSize, size, align, NODE_SIZE);
            fit.Some? && fit.value.allocStart <= s
  {
    var c := Candidate(regionStart, align, NODE_SIZE);
    assert c.Some? && c.value <= s by {
      CandidateLeast(regionStart, align, s);
    }
    if c.value < s {
      TailRoom(regionStart, align, c.value, s);
    }
  }

  lemma NodeAlignIsPower()
    ensures IsPowerOfTwo(NODE_ALIGN)
  {
    assert IsPowerOfTwo(1) && IsPowerOfTwo(2) && IsPowerOfTwo(4);
  }

  /** Past the first valid start, the next one is a whole node further. */
  lemma TailRoom(regionStart: nat, align: nat, c: nat, s: nat)
    requires IsPowerOfTwo(align) && NODE_ALIGN <= align <= USIZE_MAX
    requires regionStart % NODE_ALIGN == 0
    requires Candidate(regionStart, align, NODE_SIZE) == Some(c)
    requires c < s && ValidStart(regionStart, align, s)
    ensures s - c >= NODE_SIZE
  {
    hide IsPowerOfTwo, Candidate;
    CandidateValid(regionStart, align);
    MultiplesApart(align, c, s);
    assert align % NODE_ALIGN == 0 by {
      NodeAlignIsPower();
      PowerOfTwoDivides(NODE_ALIGN, align);
    }
    if align == NODE_ALIGN {
      // The region start is itself aligned, so it is the candidate.
      CandidateLeast(regionStart, align, regionStart);
    }
  }

  /** The split fit is sound, complete and lowest-address: it answers exactly when some valid
      placement exists, and then with the least one, accounting for every byte of the region. */
  lemma FitRegionSplitExact(regionStart: nat, regionSize: nat, size: nat, align: nat)
    requires IsPowerOfTwo(align) && NODE_ALIGN <= align <= USIZE_MAX
    requires regionStart % NODE_ALIGN == 0
    requires regionStart + regionSize <= USIZE_MAX && size > 0
    ensures var fit := FitRegionSplit(regionStart, regionSize, size, align, NODE_SIZE);
            && (fit.None? <==> forall s: nat :: !ValidPlacement(regionStart, regionSize, size, align, s))
            && (fit.Some? ==>
                  && ValidPlacement(regionStart, regionSize, size, align, fit.value.allocStart)
                  && fit.value.front == fit.value.allocStart - regionStart
                  && fit.value.front + size + fit.value.excess == regionSize
                  && forall s: nat | ValidPlacement(regionStart, regionSize, size, align, s) ::
                      fit.value.allocStart <= s)
  {
    FitSound(regionStart, regionSize, size, align);
    forall s: nat | ValidPlacement(regionStart, regionSize, size, align, s)
      ensures FitRegionSplit(regionStart, regionSize, size, align, NODE_SIZE).Some?
      ensures FitRegionSplit(regionStart, regionSize, size, align, NODE_SIZE).value.allocStart <= s
    {
      FitComplete(regionStart, regionSize, size, align, s);
    }
  }
}
