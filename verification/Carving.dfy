/** What the allocator's code relies on: the list is apart from the sentinel, the scan finds the lowest
    fit, and a block carved out of a region leaves a coalesced list of the rest. */
module Carving {
  import opened Wrappers
  import opened HeapMath
  import opened FreeList
  import opened HeapLinks
  import opened HeapBlocks

  /** The first region, in address order, that can serve the request. */
  function FirstFit(l: List, size: nat, align: nat): Option<Region> {
    if l.Nil? then None
    else if FitRegionSplit(l.node.start, l.node.size, size, align, NODE_SIZE).Some? then Some(l.node)
    else FirstFit(l.tail, size, align)
  }

  // ---- the list apart from the sentinel ----

  predicate SentinelApart(head: nat, arena: Region) {
    && 0 < head && head + NODE_SIZE <= USIZE_MAX
    && 0 < arena.start && arena.End() <= USIZE_MAX
    && (head + NODE_SIZE <= arena.start || arena.End() <= head)
  }

  lemma {:induction false} WordsInside(arena: Region, l: List, a: nat)
    requires Canonical(l) && Within(arena, l)
    requires a + 8 <= arena.start || arena.End() <= a || !Covers(l, a)
    ensures NotAWord(l, a)
  {
    if l.Cons? {
      WordsInside(arena, l.tail, a);
    }
  }

  /** Words from `r.start` on are nobody's when `r` is disjoint from the list. */
  lemma {:induction false} DisjointWords(l: List, r: Region)
    requires Canonical(l) && NodeFits(r) && Disjoint(l, r)
    ensures Apart(l, r.start)
  {
    if l.Cons? {
      DisjointWords(l.tail, r);
    }
  }

  lemma {:induction false} CanonicalApart(l: List)
    requires Canonical(l)
    ensures AllApart(l)
  {
    if l.Cons? {
      AllAbove(l.tail, l.node);
      DisjointWords(l.tail, l.node);
      CanonicalApart(l.tail);
    }
  }

  lemma {:induction false} WithinBelow(arena: Region, l: List)
    requires Within(arena, l) && arena.End() <= USIZE_MAX
    ensures Below(l)
  {
    if l.Cons? {
      WithinBelow(arena, l.tail);
    }
  }

  lemma ApartNoNode(l: List, a: nat)
    requires Apart(l, a)
    ensures !HasNode(l, a)
  {
  }

  lemma ChainApart(head: nat, arena: Region, free: List)
    requires SentinelApart(head, arena) && Canonical(free) && Within(arena, free)
    ensures AllApart(Cons(Region(head, 0), free)) && Below(Cons(Region(head, 0), free))
    ensures !HasNode(free, head)
    ensures free.Cons? ==> free.node.start != head
  {
    CanonicalApart(free);
    WithinBelow(arena, free);
    WordsInside(arena, free, head);
    WordsInside(arena, free, head + 8);
    ApartNoNode(free, head);
  }

  /** Why the writes of `AddFreeRegion` are sound: each intermediate list is well separated, the nodes
      it touches are on it, and the last one is the sorted, coalesced list. */
  lemma AddSteps(head: nat, arena: Region, free: List, r: Region)
    requires SentinelApart(head, arena) && Canonical(free) && Within(arena, free)
    requires NodeFits(r) && Disjoint(free, r) && arena.start <= r.start && r.End() <= arena.End()
    ensures var l := Cons(Region(head, 0), free);
            var prev := Prev(l, r.start);
            var l1 := LinkAfter(l, prev, r);
            var l2 := MergeNode(l1, r.start);
            && AllApart(l) && Apart(l, r.start) && HasNode(l, prev)
            && AllApart(l1) && Below(l1) && HasNode(l1, r.start)
            && AllApart(l2) && Below(l2) && HasNode(l2, prev)
            && MergeNode(l2, prev) == Cons(Region(head, 0), Insert(free, r))
  {
    var l := Cons(Region(head, 0), free);
    var prev := Prev(l, r.start);
    var l1 := LinkAfter(l, prev, r);
    ChainApart(head, arena, free);
    DisjointWords(free, r);
    PrevHasNode(l, r.start);
    LinkAfterApart(l, prev, r);
    LinkAfterNodes(l, prev, r);
    MergeNodeApart(l1, r.start);
    PrevBelow(l, prev, r);
    WalkLinkMerge(l, r);
    InsertCanonical(free, r);
  }

  lemma {:induction false} LinkAfterNodes(l: List, prev: nat, r: Region)
    requires HasNode(l, prev)
    ensures HasNode(LinkAfter(l, prev, r), r.start)
  {
    if l.node.start != prev {
      LinkAfterNodes(l.tail, prev, r);
    }
  }

  /** The node the walk stops at survives the forward merge. */
  lemma {:induction false} PrevBelow(l: List, prev: nat, r: Region)
    requires HasNode(l, prev) && Apart(l, r.start)
    ensures HasNode(MergeNode(LinkAfter(l, prev, r), r.start), prev)
  {
    if l.node.start != prev {
      PrevBelow(l.tail, prev, r);
    }
  }

  lemma {:induction false} InsertWithin(arena: Region, l: List, r: Region)
    requires Within(arena, l) && arena.start <= r.start && r.End() <= arena.End()
    ensures Within(arena, Insert(l, r))
  {
    if l.Cons? && l.node.start < r.start {
      InsertWithin(arena, l.tail, r);
    }
  }

  /** A word outside the sentinel and outside the new free list belongs to no node on the way. */
  lemma AddFrame(head: nat, arena: Region, free: List, r: Region, w: nat)
    requires SentinelApart(head, arena) && Canonical(free) && Within(arena, free)
    requires NodeFits(r) && Disjoint(free, r) && arena.start <= r.start && r.End() <= arena.End()
    requires w != head && w != head + 8 && !Covers(Insert(free, r), w)
    ensures var l := Cons(Region(head, 0), free);
            var l1 := LinkAfter(l, Prev(l, r.start), r);
            && NotAWord(l, w) && w != r.start && w != r.start + 8
            && NotAWord(l1, w)
            && NotAWord(MergeNode(l1, r.start), w)
  {
    hide Canonical, Within, Covers, AllApart, Below, Apart, LinkAfter, MergeNode, Insert, Disjoint, Prev;
    var l := Cons(Region(head, 0), free);
    var prev := Prev(l, r.start);
    InsertCovers(free, r, w);
    WordsInside(arena, free, w);
    AddSteps(head, arena, free, r);
    ChainApart(head, arena, free);
    LinkAfterApart(l, prev, r);
    MergeNodeApart(LinkAfter(l, prev, r), r.start);
  }

  /** The two memories differ at most in the sentinel and in words of regions of `l`. */
  ghost predicate Untouched(mem: Memory, mem2: Memory, head: nat, l: List) {
    && mem2.Keys == mem.Keys
    && forall w | w in mem && w != head && w != head + 8 && !Covers(l, w) :: mem2[w] == mem[w]
  }

  lemma UntouchedTrans(m1: Memory, m2: Memory, m3: Memory, head: nat, l1: List, l2: List, l: List)
    requires Untouched(m1, m2, head, l1) && Untouched(m2, m3, head, l2)
    requires forall b :: Covers(l1, b) || Covers(l2, b) ==> Covers(l, b)
    ensures Untouched(m1, m3, head, l)
  {
  }

  // ---- scanning ----

  predicate Suffix(s: List, l: List) {
    s == l || (l.Cons? && Suffix(s, l.tail))
  }

  lemma {:induction false} SuffixStep(s: List, l: List)
    requires Suffix(s, l) && s.Cons?
    ensures Suffix(s.tail, l)
  {
    if s != l {
      SuffixStep(s, l.tail);
    }
  }

  lemma {:induction false} SuffixNode(s: List, l: List)
    requires Suffix(s, l) && s.Cons?
    ensures HasNode(l, s.node.start)
  {
    if s != l {
      SuffixNode(s, l.tail);
    }
  }

  /** Unlinking the successor of a node met while scanning removes just that region. */
  lemma {:induction false} SuffixRemove(s: List, l: List)
    requires Suffix(s, l) && s.Cons? && s.tail.Cons? && AllApart(l)
    ensures HasNext(l, s.node.start)
    ensures RemoveNext(l, s.node.start) == Cons(l.node, Remove(l.tail, s.tail.node.start))
  {
    if s != l {
      SuffixNode(s, l.tail);
      SuffixStep(s, l.tail);
      if s != l.tail { SuffixStepNode(s, l.tail); }
      ApartNoNode(l.tail, l.node.start);
      SuffixRemove(s, l.tail);
    }
  }

  /** Past the first node, a scan reaches later nodes only. */
  lemma SuffixStepNode(s: List, l: List)
    requires Suffix(s, l) && s != l && s.Cons? && s.tail.Cons? && AllApart(l)
    ensures l.node.start != s.tail.node.start
  {
    SuffixStep(s, l.tail);
    SuffixNode(s.tail, l.tail);
    ApartNoNode(l.tail, l.node.start);
  }

  lemma {:induction false} FirstFitRegion(l: List, size: nat, align: nat)
    requires FirstFit(l, size, align).Some?
    ensures var r := FirstFit(l, size, align).value;
            HasRegion(l, r) && FitRegionSplit(r.start, r.size, size, align, NODE_SIZE).Some?
  {
    if FitRegionSplit(l.node.start, l.node.size, size, align, NODE_SIZE).None? {
      FirstFitRegion(l.tail, size, align);
    }
  }

  lemma {:induction false} RemoveWithin(arena: Region, l: List, a: nat)
    requires Within(arena, l)
    ensures Within(arena, Remove(l, a))
  {
    if l.Cons? {
      RemoveWithin(arena, l.tail, a);
    }
  }

  // ---- carving a block out of a region ----

  /** The list with a leftover returned to it, if there is any. */
  function GiveBack(l: List, r: Region): List {
    if r.size > 0 then Insert(l, r) else l
  }

  /** `r` is empty, or a node fits and it is inside the arena and not free yet. */
  ghost predicate Returnable(arena: Region, l: List, r: Region) {
    r.size > 0 ==>
      && NodeFits(r) && arena.start <= r.start && r.End() <= arena.End()
      && forall b | In(b, r) :: !Covers(l, b)
  }

  lemma GiveBackFacts(arena: Region, l: List, r: Region)
    requires Canonical(l) && Within(arena, l) && Returnable(arena, l, r)
    ensures r.size > 0 ==> Disjoint(l, r)
    ensures Canonical(GiveBack(l, r)) && Within(arena, GiveBack(l, r))
    ensures Total(GiveBack(l, r)) == Total(l) + r.size
    ensures forall b :: Covers(GiveBack(l, r), b) <==> Covers(l, b) || In(b, r)
  {
    if r.size > 0 {
      UncoveredDisjoint(l, r);
      InsertCanonical(l, r);
      InsertWithin(arena, l, r);
      InsertTotal(l, r);
      forall b ensures Covers(Insert(l, r), b) <==> Covers(l, b) || In(b, r) { InsertCovers(l, r, b); }
    }
  }

  function FrontPart(region: Region, start: nat): Region
    requires region.start <= start
  {
    Region(region.start, start - region.start)
  }

  function TailPart(region: Region, end: nat): Region
    requires end <= region.End()
  {
    Region(end, region.End() - end)
  }

  /** The free list after `[start, start + size)` was taken out of `region`. */
  function Carve(l: List, region: Region, start: nat, size: nat): List
    requires region.start <= start && start + size <= region.End()
  {
    GiveBack(GiveBack(Remove(l, region.start), FrontPart(region, start)), TailPart(region, start + size))
  }

  /** `ptr` is a place where the request can go, given the free list. */
  ghost predicate CanPlace(l: List, size: nat, align: nat, ptr: nat)
    requires align > 0
  {
    exists r :: HasRegion(l, r) && ValidPlacement(r.start, r.size, size, align, ptr)
  }

  /** First fit in address order finds the lowest place there is, and fails only when there is none. */
  lemma {:induction false} FirstFitLowest(l: List, size: nat, align: nat)
    requires Canonical(l) && Below(l) && size > 0
    requires IsPowerOfTwo(align) && NODE_ALIGN <= align <= USIZE_MAX
    ensures match FirstFit(l, size, align) {
              case None => forall s :: !CanPlace(l, size, align, s)
              case Some(r) =>
                var fit := FitRegionSplit(r.start, r.size, size, align, NODE_SIZE);
                && fit.Some? && CanPlace(l, size, align, fit.value.allocStart)
                && forall s | CanPlace(l, size, align, s) :: fit.value.allocStart <= s
            }
  {
    if l.Cons? {
      FitRegionSplitExact(l.node.start, l.node.size, size, align);
      FirstFitLowest(l.tail, size, align);
      forall s
        ensures CanPlace(l, size, align, s) <==>
            ValidPlacement(l.node.start, l.node.size, size, align, s) || CanPlace(l.tail, size, align, s)
      {
        PlaceStep(l, size, align, s);
      }
      forall s | CanPlace(l.tail, size, align, s)
        ensures l.node.End() <= s
      {
        var r :| HasRegion(l.tail, r) && ValidPlacement(r.start, r.size, size, align, s);
        RegionAbove(l.tail, r);
      }
    }
  }

  lemma PlaceStep(l: List, size: nat, align: nat, s: nat)
    requires l.Cons? && align > 0
    ensures CanPlace(l, size, align, s) <==>
        ValidPlacement(l.node.start, l.node.size, size, align, s) || CanPlace(l.tail, size, align, s)
  {
    if CanPlace(l.tail, size, align, s) {
      var r :| HasRegion(l.tail, r) && ValidPlacement(r.start, r.size, size, align, s);
      assert HasRegion(l, r);
    }
    assert HasRegion(l, l.node);
  }

  /** The adjusted alignment is a power of two that asks for exactly both alignments: the caller's and a
      node's. */
  lemma AdjustAlignBoth(align: nat, s: nat)
    requires IsPowerOfTwo(align)
    ensures IsPowerOfTwo(AdjustAlign(align))
    ensures s % AdjustAlign(align) == 0 <==> s % align == 0 && s % NODE_ALIGN == 0
  {
    assert IsPowerOfTwo(NODE_ALIGN);
    if align <= NODE_ALIGN {
      PowerOfTwoDivides(align, NODE_ALIGN);
      if s % NODE_ALIGN == 0 { MultipleOfMultiple(s, NODE_ALIGN, align); }
    } else {
      PowerOfTwoDivides(NODE_ALIGN, align);
      if s % align == 0 { MultipleOfMultiple(s, align, NODE_ALIGN); }
    }
  }

  /** A request can go to `s`: free there, aligned as asked and as a node, leaving no gap too small for one. */
  ghost predicate Fits(l: List, layout: Layout, s: nat)
    requires layout.align > 0
  {
    CanPlace(l, AdjustSize(layout.size), NODE_ALIGN, s) && s % layout.align == 0
  }

  lemma FitsAdjusted(l: List, layout: Layout, s: nat)
    requires IsPowerOfTwo(layout.align)
    ensures Fits(l, layout, s) <==> CanPlace(l, AdjustSize(layout.size), AdjustAlign(layout.align), s)
  {
    hide AdjustSize, AdjustAlign, HasRegion;
    AdjustAlignBoth(layout.align, s);
    var size, align := AdjustSize(layout.size), AdjustAlign(layout.align);
    if CanPlace(l, size, align, s) {
      var r :| HasRegion(l, r) && ValidPlacement(r.start, r.size, size, align, s);
      assert ValidPlacement(r.start, r.size, size, NODE_ALIGN, s);
    }
    if Fits(l, layout, s) {
      var r :| HasRegion(l, r) && ValidPlacement(r.start, r.size, size, NODE_ALIGN, s);
      assert ValidPlacement(r.start, r.size, size, align, s);
    }
  }

  lemma {:induction false} RegionCovers(arena: Region, l: List, r: Region, b: int)
    requires HasRegion(l, r) && Within(arena, l)
    ensures In(b, r) ==> Covers(l, b)
    ensures arena.start <= r.start && r.End() <= arena.End()
  {
    if l.node != r {
      RegionCovers(arena, l.tail, r, b);
    }
  }

  /** The bytes of a region and how `Carve` shares them out. */
  predicate Cuts(region: Region, start: nat, size: nat) {
    && region.start <= start && start + size <= region.End()
    && (start == region.start || start - region.start >= NODE_SIZE)
    && (start + size == region.End() || region.End() - (start + size) >= NODE_SIZE)
    && region.start % NODE_ALIGN == 0 && (start + size) % NODE_ALIGN == 0
  }

  lemma RestOf(arena: Region, l: List, region: Region)
    requires Canonical(l) && Within(arena, l) && HasRegion(l, region)
    ensures var rest := Remove(l, region.start);
            && Canonical(rest) && Within(arena, rest)
            && region.start % NODE_ALIGN == 0 && arena.start <= region.start && region.End() <= arena.End()
            && Total(l) == Total(rest) + region.size
            && (forall b :: Covers(rest, b) <==> Covers(l, b) && !In(b, region))
            && (forall b | In(b, region) :: Covers(l, b))
  {
    RemoveFacts(l, region);
    RemoveWithin(arena, l, region.start);
    RegionAbove(l, region);
    RegionCovers(arena, l, region, region.start);
    forall b | In(b, region) ensures Covers(l, b) { RegionCovers(arena, l, region, b); }
  }

  /** Giving back first the front of a cut region and then its tail. */
  lemma TwoParts(arena: Region, rest: List, region: Region, start: nat, size: nat)
    requires Canonical(rest) && Within(arena, rest) && Cuts(region, start, size)
    requires arena.start <= region.start && region.End() <= arena.End()
    requires forall b | In(b, region) :: !Covers(rest, b)
    ensures var front, tail := FrontPart(region, start), TailPart(region, start + size);
            var mid := GiveBack(rest, front);
            var out := GiveBack(mid, tail);
            && (front.size > 0 ==> NodeFits(front) && Disjoint(rest, front))
            && Canonical(mid) && Within(arena, mid)
            && (tail.size > 0 ==> NodeFits(tail) && Disjoint(mid, tail))
            && Canonical(out) && Within(arena, out)
            && Total(out) == Total(rest) + region.size - size
            && forall b :: Covers(out, b) <==> Covers(rest, b) || (In(b, region) && !In(b, Region(start, size)))
  {
    var front, tail := FrontPart(region, start), TailPart(region, start + size);
    GiveBackFacts(arena, rest, front);
    GiveBackFacts(arena, GiveBack(rest, front), tail);
  }

  /** What `Carve` leaves: a coalesced list of exactly the bytes that were free and are not taken. */
  lemma CarveFacts(arena: Region, l: List, region: Region, start: nat, size: nat)
    requires Canonical(l) && Within(arena, l) && HasRegion(l, region) && Cuts(region, start, size)
    ensures Canonical(Carve(l, region, start, size)) && Within(arena, Carve(l, region, start, size))
    ensures Total(Carve(l, region, start, size)) == Total(l) - size && size <= Total(l)
    ensures forall b :: Covers(Carve(l, region, start, size), b) <==> Covers(l, b) && !In(b, Region(start, size))
  {
    RestOf(arena, l, region);
    TwoParts(arena, Remove(l, region.start), region, start, size);
  }

  lemma PartsInside(arena: Region, free: List, region: Region, start: nat, size: nat)
    requires Canonical(free) && Within(arena, free) && HasRegion(free, region) && Cuts(region, start, size)
    ensures forall b | Covers(GiveBack(Remove(free, region.start), FrontPart(region, start)), b) :: Covers(free, b)
  {
    RestOf(arena, free, region);
    forall b { InsertCovers(Remove(free, region.start), FrontPart(region, start), b); }
  }

  /** `free2` is `free` without `[ptr, ptr + size)`, which was the first fit. */
  ghost predicate Taken(arena: Region, free: List, free2: List, size: nat, align: nat, ptr: nat)
    requires align > 0
  {
    && FirstFit(free, size, align).Some?
    && var region := FirstFit(free, size, align).value;
       var fit := FitRegionSplit(region.start, region.size, size, align, NODE_SIZE);
    && fit.Some? && fit.value.allocStart == ptr && ptr > 0 && ptr % align == 0
    && Canonical(free2) && Within(arena, free2)
    && Total(free2) + size == Total(free)
    && (forall b | In(b, Region(ptr, size)) :: Covers(free, b))
    && (forall b :: Covers(free2, b) <==> Covers(free, b) && !In(b, Region(ptr, size)))
  }

  lemma AlignedAsAsked(ptr: nat, layout: Layout)
    requires ValidLayout(layout) && ptr % AdjustAlign(layout.align) == 0
    ensures layout.align > 0 && ptr % layout.align == 0 && ptr % NODE_ALIGN == 0
  {
    AdjustAlignBoth(layout.align, ptr);
  }

  lemma TakenAccounted(arena: Region, free: List, free2: List, live: map<nat, Layout>, ptr: nat, layout: Layout)
    requires Accounted(arena, free, live) && ValidLayout(layout)
    requires Taken(arena, free, free2, AdjustSize(layout.size), AdjustAlign(layout.align), ptr)
    requires Total(free) + LiveBytes(live, arena.End()) == arena.size
    ensures ptr !in live && Accounted(arena, free2, live[ptr := layout])
    ensures Total(free2) + LiveBytes(live[ptr := layout], arena.End()) == arena.size
  {
    hide IsPowerOfTwo, BlocksApart, Shares, Canonical, Within, LiveBytes, FirstFit, FitRegionSplit, Total, Covers;
    assert ptr % layout.align == 0 && ptr % NODE_ALIGN == 0 by { AlignedAsAsked(ptr, layout); }
    AfterAlloc(arena, free, free2, live, ptr, layout);
    LiveBytesAdd(live, ptr, layout, arena.End());
    AdjustSizeBounds(layout.size);
    WithinCovers(arena, free, ptr);
  }

  lemma ReturnedAccounted(arena: Region, free: List, live: map<nat, Layout>, ptr: nat)
    requires Accounted(arena, free, live) && ptr in live
    requires Total(free) + LiveBytes(live, arena.End()) == arena.size
    ensures var free2 := Insert(free, Block(ptr, live[ptr]));
            && Accounted(arena, free2, live - {ptr})
            && Total(free2) + LiveBytes(live - {ptr}, arena.End()) == arena.size
  {
    var block := Block(ptr, live[ptr]);
    BlockUncovered(arena, free, live, ptr);
    InsertCanonical(free, block);
    InsertWithin(arena, free, block);
    InsertTotal(free, block);
    forall b
      ensures Covers(Insert(free, block), b) <==> Covers(free, b) || In(b, block)
    {
      InsertCovers(free, block, b);
    }
    AfterDealloc(arena, free, Insert(free, block), live, ptr);
    LiveBytesRemove(live, ptr, arena.End());
    AdjustSizeBounds(live[ptr].size);
  }

  /** The bytes of live blocks are what they were. */
  ghost predicate SameContents(mem: Memory, mem2: Memory, live: map<nat, Layout>) {
    mem2.Keys == mem.Keys && forall w | w in mem && LiveCovers(live, w) :: mem2[w] == mem[w]
  }

  lemma LiveUntouched(head: nat, arena: Region, free: List, live: map<nat, Layout>, mem: Memory, mem2: Memory)
    requires SentinelApart(head, arena) && Accounted(arena, free, live) && Untouched(mem, mem2, head, free)
    ensures SameContents(mem, mem2, live)
  {
    forall w | w in mem && LiveCovers(live, w)
      ensures mem2[w] == mem[w]
    {
      LiveWord(head, arena, free, live, w);
    }
  }

  /** `order` names every live block exactly once, with its layout. */
  ghost predicate ListsOnce(order: seq<(nat, Layout)>, live: map<nat, Layout>) {
    if order == [] then live == map[]
    else order[0].0 in live && live[order[0].0] == order[0].1 && ListsOnce(order[1..], live - {order[0].0})
  }

  lemma ListsOnceHead(order: seq<(nat, Layout)>, live: map<nat, Layout>)
    requires order != [] && ListsOnce(order, live)
    ensures order[0].0 in live && live[order[0].0] == order[0].1 && ListsOnce(order[1..], live - {order[0].0})
  {
  }

  lemma ListsOnceEmpty(live: map<nat, Layout>)
    requires ListsOnce([], live)
    ensures live == map[]
  {
  }

  /** Both cut points of a placement fall on multiples of 8. */
  lemma CutAligned(region: Region, start: nat, size: nat, align: nat)
    requires region.start % NODE_ALIGN == 0 && size % NODE_ALIGN == 0
    requires IsPowerOfTwo(align) && NODE_ALIGN <= align
    requires ValidPlacement(region.start, region.size, size, align, start)
    ensures Cuts(region, start, size)
  {
    assert IsPowerOfTwo(NODE_ALIGN);
    PowerOfTwoDivides(NODE_ALIGN, align);
    MultipleOfMultiple(start, align, NODE_ALIGN);
  }

  /** A word of a live block is neither free nor a word of the sentinel. */
  lemma LiveWord(head: nat, arena: Region, free: List, live: map<nat, Layout>, w: nat)
    requires SentinelApart(head, arena) && Accounted(arena, free, live) && LiveCovers(live, w)
    ensures w != head && w != head + 8 && !Covers(free, w) && NotAWord(free, w)
  {
    var p :| p in live && In(w, Block(p, live[p]));
    assert In(w, arena);
    WordsInside(arena, free, w);
  }

  /** What the two words of a node say about its place in the list. */
  lemma {:induction false} ReadNode(mem: Memory, p: nat, l: List, a: nat)
    requires Chain(mem, p, l) && AllApart(l) && Below(l) && HasNode(l, a)
    ensures a in mem && a + 8 in mem
    ensures TouchesNext(l, a) <==> mem[a + 8] != 0 && RegionsAdjacent(a, mem[a], mem[a + 8])
    decreases l
  {
    if l.node.start != a {
      ReadNode(mem, mem[p + 8], l.tail, a);
    }
  }
}
