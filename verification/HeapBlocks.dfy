/** Free regions and live blocks together: they share out the arena byte for byte. */
module HeapBlocks {
  import opened HeapMath
  import opened FreeList

  const ISIZE_MAX: nat := 0x7FFF_FFFF_FFFF_FFFF

  /** A request, with the promises of Rust's `Layout`. */
  datatype Layout = Layout(size: nat, align: nat)

  predicate ValidLayout(layout: Layout) {
    IsPowerOfTwo(layout.align) && layout.size + layout.align - 1 <= ISIZE_MAX
  }

  /** The bytes a live block of `layout` at `p` owns. */
  function Block(p: nat, layout: Layout): Region {
    Region(p, AdjustSize(layout.size))
  }

  ghost predicate LiveCovers(live: map<nat, Layout>, b: int) {
    exists p | p in live :: In(b, Block(p, live[p]))
  }

  predicate Within(arena: Region, l: List) {
    l.Cons? ==> arena.start <= l.node.start && l.node.End() <= arena.End() && Within(arena, l.tail)
  }

  /** Every live block lies in the arena, as aligned and as large as asked, and overlaps no other. */
  ghost predicate BlocksApart(arena: Region, live: map<nat, Layout>) {
    && (forall p | p in live ::
          && ValidLayout(live[p])
          && p % live[p].align == 0 && p % NODE_ALIGN == 0
          && arena.start <= p && Block(p, live[p]).End() <= arena.End())
    && (forall p, q | p in live && q in live && p != q ::
          Block(p, live[p]).End() <= q || Block(q, live[q]).End() <= p)
  }

  /** A byte of the arena is free exactly when no live block owns it. */
  ghost predicate Shares(arena: Region, free: List, live: map<nat, Layout>) {
    forall b | In(b, arena) :: Covers(free, b) <==> !LiveCovers(live, b)
  }

  ghost predicate Accounted(arena: Region, free: List, live: map<nat, Layout>) {
    && Canonical(free)
    && Within(arena, free)
    && BlocksApart(arena, live)
    && Shares(arena, free, live)
  }

  lemma WithinCovers(arena: Region, l: List, b: int)
    requires Within(arena, l) && Covers(l, b)
    ensures In(b, arena)
  {
  }

  /** The free list depends only on which blocks are live, not on how they came to be: whatever the
      order of allocations and frees, the same live blocks leave the same list. */
  lemma FreeListDeterminedByLive(arena: Region, free1: List, free2: List, live: map<nat, Layout>)
    requires Accounted(arena, free1, live) && Accounted(arena, free2, live)
    ensures free1 == free2
  {
    forall b
      ensures Covers(free1, b) <==> Covers(free2, b)
    {
      if Covers(free1, b) { WithinCovers(arena, free1, b); }
      if Covers(free2, b) { WithinCovers(arena, free2, b); }
    }
    CanonicalUnique(free1, free2);
  }

  /** With nothing live the list is the one initial region: no fragmentation survives. */
  lemma AllFreed(arena: Region, free: List)
    requires NodeFits(arena)
    requires Accounted(arena, free, map[])
    ensures free == Cons(arena, Nil)
  {
    FreeListDeterminedByLive(arena, free, Cons(arena, Nil), map[]);
  }

  lemma UncoveredDisjoint(l: List, r: Region)
    requires r.size > 0 && Canonical(l)
    requires forall b | In(b, r) :: !Covers(l, b)
    ensures Disjoint(l, r)
  {
    if l.Cons? {
      assert In(r.start, l.node) ==> Covers(l, r.start);
      assert In(l.node.start, r) ==> Covers(l, l.node.start);
      forall b | In(b, r) ensures !Covers(l.tail, b) { assert !Covers(l, b); }
      UncoveredDisjoint(l.tail, r);
    }
  }

  /** A block cut out of free memory overlaps no live block. */
  lemma CutBlockApart(arena: Region, free: List, live: map<nat, Layout>, block: Region, q: nat)
    requires Accounted(arena, free, live) && q in live
    requires block.size > 0 && forall b | In(b, block) :: Covers(free, b)
    ensures q != block.start && (Block(q, live[q]).End() <= block.start || block.End() <= q)
  {
    AdjustSizeBounds(live[q].size);
    var b := if block.start < q then q else block.start;
    if In(b, block) && In(b, Block(q, live[q])) {
      WithinCovers(arena, free, b);
      assert LiveCovers(live, b);
    }
  }

  lemma AfterAlloc(arena: Region, free: List, free2: List, live: map<nat, Layout>, p: nat, layout: Layout)
    requires Accounted(arena, free, live) && ValidLayout(layout)
    requires p % layout.align == 0 && p % NODE_ALIGN == 0
    requires forall b | In(b, Block(p, layout)) :: Covers(free, b)
    requires Canonical(free2) && Within(arena, free2)
    requires forall b :: Covers(free2, b) <==> Covers(free, b) && !In(b, Block(p, layout))
    ensures p !in live
    ensures Accounted(arena, free2, live[p := layout])
  {
    hide Canonical, Within, Covers, ValidLayout, IsPowerOfTwo;
    var block := Block(p, layout);
    AdjustSizeBounds(layout.size);
    WithinCovers(arena, free, p);
    WithinCovers(arena, free, block.End() - 1);
    forall q | q in live
      ensures q != p && (Block(q, live[q]).End() <= p || block.End() <= q)
    {
      CutBlockApart(arena, free, live, block, q);
    }
    forall b | In(b, arena)
      ensures Covers(free2, b) <==> !LiveCovers(live[p := layout], b)
    {
      LiveCoversUpdate(live, p, layout, b);
    }
  }

  lemma LiveCoversUpdate(live: map<nat, Layout>, p: nat, layout: Layout, b: int)
    requires p !in live
    ensures LiveCovers(live[p := layout], b) <==> LiveCovers(live, b) || In(b, Block(p, layout))
  {
    var live2 := live[p := layout];
    if LiveCovers(live, b) {
      var q :| q in live && In(b, Block(q, live[q]));
      assert q in live2 && live2[q] == live[q];
    }
    assert p in live2 && live2[p] == layout;
  }

  lemma BlockUncovered(arena: Region, free: List, live: map<nat, Layout>, p: nat)
    requires Accounted(arena, free, live) && p in live
    ensures NodeFits(Block(p, live[p]))
    ensures forall b | In(b, Block(p, live[p])) :: In(b, arena) && !Covers(free, b)
    ensures Disjoint(free, Block(p, live[p]))
  {
    var block := Block(p, live[p]);
    AdjustSizeBounds(live[p].size);
    forall b | In(b, block)
      ensures In(b, arena) && !Covers(free, b)
    {
      assert LiveCovers(live, b);
    }
    UncoveredDisjoint(free, block);
  }

  lemma OtherBlocksApart(arena: Region, live: map<nat, Layout>, p: nat, b: int)
    requires BlocksApart(arena, live) && p in live
    ensures In(b, Block(p, live[p])) ==> !LiveCovers(live - {p}, b)
  {
    assert forall q | q in live - {p} :: q in live && q != p;
  }

  lemma AfterDealloc(arena: Region, free: List, free2: List, live: map<nat, Layout>, p: nat)
    requires Accounted(arena, free, live) && p in live
    requires Canonical(free2) && Within(arena, free2)
    requires forall b :: Covers(free2, b) <==> Covers(free, b) || In(b, Block(p, live[p]))
    ensures Accounted(arena, free2, live - {p})
  {
    var live2 := live - {p};
    assert live == live2[p := live[p]];
    forall b | In(b, arena)
      ensures Covers(free2, b) <==> !LiveCovers(live2, b)
    {
      LiveCoversUpdate(live2, p, live[p], b);
      OtherBlocksApart(arena, live, p, b);
    }
  }

  // ---- conservation ----

  /** Bytes owned by the live blocks that start below `n`. */
  function LiveBytes(live: map<nat, Layout>, n: nat): nat {
    if n == 0 then 0
    else LiveBytes(live, n - 1) + if n - 1 in live then Block(n - 1, live[n - 1]).size else 0
  }

  lemma {:induction false} LiveBytesAdd(live: map<nat, Layout>, p: nat, layout: Layout, n: nat)
    requires p !in live
    ensures LiveBytes(live[p := layout], n) == LiveBytes(live, n) + if p < n then Block(p, layout).size else 0
  {
    if n > 0 {
      LiveBytesAdd(live, p, layout, n - 1);
    }
  }

  lemma LiveBytesRemove(live: map<nat, Layout>, p: nat, n: nat)
    requires p in live
    ensures LiveBytes(live, n) == LiveBytes(live - {p}, n) + if p < n then Block(p, live[p]).size else 0
  {
    assert live == (live - {p})[p := live[p]];
    LiveBytesAdd(live - {p}, p, live[p], n);
  }

  lemma {:induction false} LiveBytesNone(n: nat)
    ensures LiveBytes(map[], n) == 0
  {
    if n > 0 {
      LiveBytesNone(n - 1);
    }
  }
}
