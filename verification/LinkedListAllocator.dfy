/** The kernel's free-list allocator: nodes linked, resized and unlinked in place in heap memory. */
module LinkedListAllocator {
  import opened Wrappers
  import opened HeapMath
  import opened FreeList
  import opened HeapLinks
  import opened HeapBlocks
  import opened Carving

  class Allocator {
    /** Address of the sentinel node, outside the arena. */
    const head: nat
    var mem: Memory

    /** The memory handed to `Init`; empty before it. */
    ghost var arena: Region
    /** The nodes reachable from the sentinel, the sentinel first. */
    ghost var chain: List
    ghost var live: map<nat, Layout>

    ghost function Free(): List
      reads this
    {
      if chain.Cons? then chain.tail else Nil
    }

    /** Memory holds the chain, and every word of the arena exists. */
    ghost predicate Linked()
      reads this
    {
      && chain.Cons? && chain.node == Region(head, 0)
      && Chain(mem, head, chain)
      && SentinelApart(head, arena)
      && (forall a | a % NODE_ALIGN == 0 && arena.start <= a && a + 8 <= arena.End() :: a in mem)
    }

    ghost predicate ListOk()
      reads this
    {
      Linked() && Canonical(Free()) && Within(arena, Free())
    }

    ghost predicate Valid()
      reads this
    {
      && Linked()
      && Accounted(arena, Free(), live)
      && Total(Free()) + LiveBytes(live, arena.End()) == arena.size
    }

    /** `LinkedListAllocator::new`: a sentinel and nothing else. */
    constructor (head: nat, mem: Memory)
      requires 0 < head && head + NODE_SIZE <= USIZE_MAX
      ensures Valid() && this.head == head
      ensures Free() == Nil && live == map[] && arena.size == 0
      ensures this.mem == mem[head := 0][head + 8 := 0]
    {
      this.head := head;
      this.mem := mem[head := 0][head + 8 := 0];
      arena := Region(head, 0);
      chain := Cons(Region(head, 0), Nil);
      live := map[];
      new;
      LiveBytesNone(arena.End());
    }

    /** Join a node with the next one on the list when no byte lies between them. */
    method MergeWithNext(node: nat)
      requires Chain(mem, head, chain) && AllApart(chain) && Below(chain)
      requires HasNode(chain, node)
      modifies `mem, `chain
      ensures chain == MergeNode(old(chain), node)
      ensures Chain(mem, head, chain)
      ensures mem.Keys == old(mem).Keys
      ensures forall w | w in mem && NotAWord(old(chain), w) :: mem[w] == old(mem)[w]
    {
      hide Chain, AllApart, Below, NotAWord, HasNode, MergeNode, TouchesNext;
      ReadNode(mem, head, chain, node);
      var next := mem[node + 8];
      if next != 0 && RegionsAdjacent(node, mem[node], next) {
        TouchNodes(mem, head, chain, node);
        ghost var before := mem;
        mem := mem[node + 8 := 0];
        mem := mem[node := mem[node] + mem[next]];
        var after := mem[next + 8];
        mem := mem[next + 8 := 0];
        mem := mem[node + 8 := after];
        assert mem == MemMerge(before, node);
        ChainMerge(before, head, chain, node);
        MemMergeFrame(before, chain, node);
        chain := MergeNode(chain, node);
      } else {
        MergeNodeUntouched(chain, node);
      }
    }

    /** Walk the sorted list to the last node below `addr`. */
    method FindPrev(addr: nat) returns (prev: nat)
      requires chain.Cons? && Chain(mem, head, chain)
      ensures prev == Prev(chain, addr) && prev + 8 in mem
    {
      prev := head;
      ghost var rest := chain;
      while mem[prev + 8] != 0 && mem[prev + 8] < addr
        invariant rest.Cons? && Chain(mem, prev, rest)
        invariant Prev(rest, addr) == Prev(chain, addr)
        decreases rest
      {
        prev := mem[prev + 8];
        rest := rest.tail;
      }
    }

    /** Write a node for the region and link it in address order. */
    method LinkNode(addr: nat, size: nat) returns (prev: nat)
      requires chain.Cons? && Chain(mem, head, chain) && AllApart(chain) && Apart(chain, addr)
      requires addr != 0 && addr in mem && addr + 8 in mem
      requires HasNode(chain, Prev(chain, addr))
      modifies `mem, `chain
      ensures prev == Prev(old(chain), addr)
      ensures chain == LinkAfter(old(chain), prev, Region(addr, size)) && Chain(mem, head, chain)
      ensures mem.Keys == old(mem).Keys
      ensures forall w | w in mem && NotAWord(old(chain), w) && w != addr && w != addr + 8 :: mem[w] == old(mem)[w]
    {
      ghost var before := mem;
      ghost var r := Region(addr, size);
      ChainWrite(mem, head, chain, addr, size);
      ChainWrite(mem[addr := size], head, chain, addr + 8, 0);
      mem := mem[addr := size][addr + 8 := 0];
      prev := FindPrev(addr);
      NodeWords(chain, prev, addr);
      NodeWords(chain, prev, addr + 8);
      mem := mem[addr + 8 := mem[prev + 8]];
      mem := mem[prev + 8 := addr];
      assert mem == MemLink(before, prev, r);
      ChainLinkAfter(before, head, chain, prev, r);
      MemLinkFrame(before, chain, prev, r);
      chain := LinkAfter(chain, prev, r);
    }

    /** Return a region to the list: link it in address order, merge it forward, then backward. */
    method AddFreeRegion(addr: nat, size: nat)
      requires ListOk() && NodeFits(Region(addr, size)) && Disjoint(Free(), Region(addr, size))
      requires arena.start <= addr && addr + size <= arena.End()
      modifies `mem, `chain
      ensures ListOk() && Free() == Insert(old(Free()), Region(addr, size))
      ensures Untouched(old(mem), mem, head, Free())
    {
      hide Canonical, Within, Covers, AllApart, Below, Apart, LinkAfter, MergeNode, Insert, Disjoint, Prev;
      ghost var r := Region(addr, size);
      ghost var free := Free();
      AddSteps(head, arena, free, r);
      var prev := LinkNode(addr, size);
      MergeWithNext(addr);
      MergeWithNext(prev);
      InsertCanonical(free, r);
      InsertWithin(arena, free, r);
      forall w | w in mem && w != head && w != head + 8 && !Covers(Free(), w)
        ensures mem[w] == old(mem)[w]
      {
        AddFrame(head, arena, free, r, w);
      }
    }
  
    /** The scan: stop at the node before the first region that fits, or at the end. */
    method Scan(size: nat, align: nat) returns (current: nat, allocStart: Option<nat>, ghost rest: List)
      requires chain.Cons? && Chain(mem, head, chain)
      ensures rest.Cons? && Suffix(rest, chain) && Chain(mem, current, rest)
      ensures allocStart.None? ==> FirstFit(chain.tail, size, align).None?
      ensures allocStart.Some? ==>
                && rest.tail.Cons? && FirstFit(chain.tail, size, align) == Some(rest.tail.node)
                && var fit := FitRegionSplit(rest.tail.node.start, rest.tail.node.size, size, align, NODE_SIZE);
                   fit.Some? && fit.value.allocStart == allocStart.value
    {
      current, rest := head, chain;
      while mem[current + 8] != 0
        invariant rest.Cons? && Suffix(rest, chain) && Chain(mem, current, rest)
        invariant FirstFit(chain.tail, size, align) == FirstFit(rest.tail, size, align)
        decreases rest
      {
        var region := mem[current + 8];
        match FitRegionSplit(region, mem[region], size, align, NODE_SIZE) {
          case Some(fit) => return current, Some(fit.allocStart), rest;
          case None =>
        }
        SuffixStep(rest, chain);
        current, rest := region, rest.tail;
      }
      allocStart := None;
    }

    /** First fit: take the lowest region with a placement off the list; `None` when there is none. */
    method FindRegion(size: nat, align: nat) returns (found: Option<(Region, nat)>)
      requires ListOk()
      modifies `mem, `chain
      ensures ListOk() && Untouched(old(mem), mem, head, old(Free()))
      ensures found.None? ==> FirstFit(Free(), size, align).None? && mem == old(mem) && chain == old(chain)
      ensures found.Some? ==>
                var (region, allocStart) := found.value;
                && FirstFit(old(Free()), size, align) == Some(region)
                && HasRegion(old(Free()), region)
                && FitRegionSplit(region.start, region.size, size, align, NODE_SIZE).Some?
                && FitRegionSplit(region.start, region.size, size, align, NODE_SIZE).value.allocStart == allocStart
                && Free() == Remove(old(Free()), region.start)
    {
      hide FitRegionSplit, AllApart, Below;
      var current, allocStart, rest := Scan(size, align);
      if allocStart.None? {
        return None;
      }
      ghost var free := Free();
      var region := Region(mem[current + 8], mem[mem[current + 8]]);
      ChainApart(head, arena, free);
      FirstFitRegion(free, size, align);
      RemoveFacts(free, region);
      RemoveWithin(arena, free, region.start);
      forall w: nat | w != head && w != head + 8 && !Covers(free, w)
        ensures NotAWord(chain, w)
      {
        WordsInside(arena, free, w);
      }
      Unlink(current, rest);
      found := Some((region, allocStart.value));
    }

    /** Take the successor of `current` off the list. */
    method Unlink(current: nat, ghost rest: List)
      requires Chain(mem, head, chain) && AllApart(chain)
      requires rest.Cons? && rest.tail.Cons? && Suffix(rest, chain) && Chain(mem, current, rest)
      modifies `mem, `chain
      ensures chain == Cons(old(chain).node, Remove(old(chain).tail, rest.tail.node.start)) && Chain(mem, head, chain)
      ensures mem.Keys == old(mem).Keys
      ensures forall w | w in mem && NotAWord(old(chain), w) :: mem[w] == old(mem)[w]
    {
      SuffixNode(rest, chain);
      SuffixStep(rest, chain);
      SuffixNode(rest.tail, chain);
      SuffixRemove(rest, chain);
      ChainRemove(mem, head, chain, current);
      forall w | NotAWord(chain, w)
        ensures w != current + 8 && w != mem[current + 8] + 8
      {
        NodeWords(chain, current, w);
        NodeWords(chain, mem[current + 8], w);
      }
      var region := mem[current + 8];
      var next := mem[region + 8];
      mem := mem[region + 8 := 0];
      mem := mem[current + 8 := next];
      chain := RemoveNext(chain, current);
    }
  
    /** `LinkedListAllocator::init`: hand the allocator its memory, once. */
    method Init(start: nat, size: nat)
      requires Valid() && arena.size == 0
      requires SentinelApart(head, Region(start, size)) && NodeFits(Region(start, size))
      requires forall a | a % NODE_ALIGN == 0 && start <= a && a + 8 <= start + size :: a in mem
      modifies `mem, `chain, `arena
      ensures Valid() && arena == Region(start, size)
      ensures Free() == Cons(arena, Nil) && live == map[]
    {
      arena := Region(start, size);
      assert live == map[];
      AddFreeRegion(start, size);
      LiveBytesNone(arena.End());
    }

    /** Return a leftover to the list, if there is any. */
    method GiveBackPart(addr: nat, size: nat)
      requires ListOk()
      requires size > 0 ==> NodeFits(Region(addr, size)) && Disjoint(Free(), Region(addr, size))
      requires size > 0 ==> arena.start <= addr && addr + size <= arena.End()
      modifies `mem, `chain
      ensures ListOk() && Free() == GiveBack(old(Free()), Region(addr, size))
      ensures Untouched(old(mem), mem, head, Free())
    {
      if size > 0 {
        AddFreeRegion(addr, size);
      }
    }

    /** Carve `[start, start + size)` out of the region just unlinked, giving back front and tail. */
    method GiveBackRest(region: Region, start: nat, size: nat, ghost free: List)
      requires ListOk() && Canonical(free) && Within(arena, free) && HasRegion(free, region)
      requires Free() == Remove(free, region.start) && Cuts(region, start, size)
      modifies `mem, `chain
      ensures ListOk() && Free() == Carve(free, region, start, size)
      ensures Untouched(old(mem), mem, head, free)
    {
      hide Chain, Untouched, Covers, Canonical, Within, GiveBack, HasRegion;
      RestOf(arena, free, region);
      TwoParts(arena, Free(), region, start, size);
      ghost var before, rest := mem, Free();
      GiveBackPart(region.start, start - region.start);
      ghost var between, mid := mem, Free();
      GiveBackPart(start + size, region.End() - (start + size));
      CarveFacts(arena, free, region, start, size);
      PartsInside(arena, free, region, start, size);
      UntouchedTrans(before, between, mem, head, mid, Free(), free);
    }

    /** The linked-list half of `Alloc`: find, unlink, carve. Returns 0 when nothing fits. */
    method Take(size: nat, align: nat) returns (ptr: nat)
      requires ListOk() && size > 0 && size % NODE_ALIGN == 0
      requires IsPowerOfTwo(align) && NODE_ALIGN <= align <= USIZE_MAX
      modifies `mem, `chain
      ensures ListOk() && Untouched(old(mem), mem, head, old(Free()))
      ensures ptr == 0 ==> mem == old(mem) && chain == old(chain)
      ensures ptr == 0 ==> FirstFit(old(Free()), size, align).None?
      ensures ptr != 0 ==> Taken(arena, old(Free()), Free(), size, align, ptr)
    {
      ghost var free, before := Free(), mem;
      var found := FindRegion(size, align);
      match found {
        case None =>
          ptr := 0;
        case Some((region, allocStart)) =>
          RestOf(arena, free, region);
          FitSound(region.start, region.size, size, align);
          CutAligned(region, allocStart, size, align);
          ghost var unlinked := mem;
          GiveBackRest(region, allocStart, size, free);
          CarveFacts(arena, free, region, allocStart, size);
          UntouchedTrans(before, unlinked, mem, head, free, free, free);
          ptr := allocStart;
      }
    }

    /** Allocate at the lowest address where the request fits, or return 0 when it fits nowhere. */
    method Alloc(layout: Layout) returns (ptr: nat)
      requires Valid() && ValidLayout(layout)
      modifies `mem, `chain, `live
      ensures Valid()
      ensures ptr == 0 <==> forall s :: !Fits(old(Free()), layout, s)
      ensures ptr == 0 ==> mem == old(mem) && chain == old(chain) && live == old(live)
      ensures ptr != 0 ==>
                && Fits(old(Free()), layout, ptr) && (forall s | Fits(old(Free()), layout, s) :: ptr <= s)
                && ptr !in old(live) && live == old(live)[ptr := layout]
      ensures SameContents(old(mem), mem, old(live))
    {
      hide Shares, BlocksApart, Canonical, Within, Chain, FirstFit, LiveBytes, Untouched, Covers, Fits, CanPlace;
      AdjustSizeBounds(layout.size);
      forall s
        ensures IsPowerOfTwo(AdjustAlign(layout.align))
        ensures Fits(Free(), layout, s) <==> CanPlace(Free(), AdjustSize(layout.size), AdjustAlign(layout.align), s)
      {
        AdjustAlignBoth(layout.align, s);
        FitsAdjusted(Free(), layout, s);
      }
      ghost var free, before := Free(), mem;
      WithinBelow(arena, free);
      FirstFitLowest(free, AdjustSize(layout.size), AdjustAlign(layout.align));
      ptr := Take(AdjustSize(layout.size), AdjustAlign(layout.align));
      if ptr != 0 {
        TakenAccounted(arena, free, Free(), live, ptr, layout);
        LiveUntouched(head, arena, free, live, before, mem);
        live := live[ptr := layout];
      }
    }

    /** Give a live block back. */
    method Dealloc(ptr: nat, layout: Layout)
      requires Valid() && ptr in live && live[ptr] == layout
      modifies `mem, `chain, `live
      ensures Valid() && live == old(live) - {ptr}
      ensures SameContents(old(mem), mem, live)
    {
      ghost var free, before := Free(), mem;
      BlockUncovered(arena, free, live, ptr);
      AddFreeRegion(ptr, AdjustSize(layout.size));
      ReturnedAccounted(arena, free, live, ptr);
      LiveUntouched(head, arena, Free(), live - {ptr}, before, mem);
      live := live - {ptr};
    }

    /** The owner of a live block writes an aligned word of it. */
    method ClientWrite(ptr: nat, a: nat, value: nat)
      requires Valid() && ptr in live && In(a, Block(ptr, live[ptr])) && a in mem && a % 8 == 0
      modifies `mem
      ensures Valid() && mem == old(mem)[a := value]
    {
      assert LiveCovers(live, a);
      LiveWord(head, arena, Free(), live, a);
      WordsInside(arena, Free(), a);
      ChainWrite(mem, head, chain, a, value);
      mem := mem[a := value];
    }

    /** Total bytes on the free list. */
    method FreeBytes() returns (total: nat)
      requires Valid()
      ensures total == arena.size - LiveBytes(live, arena.End())
    {
      total := 0;
      var cur := mem[head + 8];
      ghost var rest := chain.tail;
      while cur != 0
        invariant Chain(mem, cur, rest)
        invariant total + Total(rest) == Total(Free())
        decreases rest
      {
        total := total + mem[cur];
        cur := mem[cur + 8];
        rest := rest.tail;
      }
    }

    /** Freeing what was just allocated restores the very same free list. */
    method AllocDealloc(layout: Layout) returns (ptr: nat)
      requires Valid() && ValidLayout(layout)
      modifies `mem, `chain, `live
      ensures Valid() && Free() == old(Free()) && live == old(live)
    {
      hide *;
      ghost var free := Free();
      ValidAccounted();
      ptr := Alloc(layout);
      if ptr != 0 {
        Dealloc(ptr, layout);
        assert live == old(live);
        SameLiveSameList(free);
      }
    }

    /** Free every live block, in whatever order: the heap is one region again. */
    method DeallocAll(order: seq<(nat, Layout)>)
      requires Valid() && NodeFits(arena) && ListsOnce(order, live)
      modifies `mem, `chain, `live
      ensures Valid() && live == map[] && Free() == Cons(arena, Nil)
    {
      hide *;
      var rest := order;
      while rest != []
        invariant Valid() && ListsOnce(rest, live)
      {
        ListsOnceHead(rest, live);
        Dealloc(rest[0].0, rest[0].1);
        rest := rest[1..];
      }
      ListsOnceEmpty(live);
      EmptyHeap();
    }

    lemma EmptyHeap()
      requires Valid() && live == map[] && NodeFits(arena)
      ensures Free() == Cons(arena, Nil)
    {
      AllFreed(arena, Free());
    }

    /** The list is determined by the live blocks alone. */
    lemma SameLiveSameList(free: List)
      requires Valid() && Accounted(arena, free, live)
      ensures Free() == free
    {
      FreeListDeterminedByLive(arena, free, Free(), live);
    }

    lemma ValidAccounted()
      requires Valid()
      ensures Accounted(arena, Free(), live)
    {
    }
  }
}
