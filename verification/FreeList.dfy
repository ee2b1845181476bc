/** The free list as a value: what linking a region in and merging it with its neighbours does to the
    list, and why the coalesced list is a canonical form of the free set. */
module FreeList {
  import opened HeapMath

  datatype Region = Region(start: nat, size: nat) {
    function End(): nat { start + size }
  }

  datatype List = Nil | Cons(node: Region, tail: List)

  predicate In(b: int, r: Region) {
    r.start <= b < r.End()
  }

  /** Byte `b` lies in some region of the list. */
  predicate Covers(l: List, b: int) {
    l.Cons? && (In(b, l.node) || Covers(l.tail, b))
  }

  /** The region can hold a node and starts where a node may be written. */
  predicate NodeFits(r: Region) {
    r.size >= NODE_SIZE && r.start % NODE_ALIGN == 0
  }

  /** Address-sorted, non-overlapping and fully coalesced: there is a gap after every region. */
  predicate Canonical(l: List) {
    l.Cons? ==>
      && NodeFits(l.node)
      && Canonical(l.tail)
      && (l.tail.Cons? ==> l.node.End() < l.tail.node.start)
  }

  predicate Disjoint(l: List, r: Region) {
    l.Cons? ==> (l.node.End() <= r.start || r.End() <= l.node.start) && Disjoint(l.tail, r)
  }

  function Total(l: List): nat {
    if l.Nil? then 0 else l.node.size + Total(l.tail)
  }

  lemma CoversAbove(l: List, b: int)
    requires Canonical(l) && Covers(l, b)
    ensures l.node.start <= b
  {
  }

  /** Two coalesced lists over the same free bytes are the same list. */
  lemma {:induction false} CanonicalUnique(xs: List, ys: List)
    requires Canonical(xs) && Canonical(ys)
    requires forall b :: Covers(xs, b) <==> Covers(ys, b)
    ensures xs == ys
  {
    if xs.Cons? && ys.Cons? {
      HeadBelow(xs, ys);
      HeadBelow(ys, xs);
      HeadEnd(xs, ys);
      HeadEnd(ys, xs);
      forall b
        ensures Covers(xs.tail, b) <==> Covers(ys.tail, b)
      {
        TailCovers(xs, b);
        TailCovers(ys, b);
      }
      CanonicalUnique(xs.tail, ys.tail);
    } else {
      assert xs.Cons? ==> Covers(xs, xs.node.start);
      assert ys.Cons? ==> Covers(ys, ys.node.start);
    }
  }

  lemma HeadBelow(xs: List, ys: List)
    requires Canonical(xs) && Canonical(ys) && xs.Cons? && ys.Cons?
    requires forall b :: Covers(xs, b) <==> Covers(ys, b)
    ensures xs.node.start <= ys.node.start
  {
    assert Covers(ys, ys.node.start);
    CoversAbove(xs, ys.node.start);
  }

  lemma HeadEnd(xs: List, ys: List)
    requires Canonical(xs) && Canonical(ys) && xs.Cons? && ys.Cons?
    requires xs.node.start == ys.node.start
    requires forall b :: Covers(xs, b) <==> Covers(ys, b)
    ensures ys.node.End() <= xs.node.End()
  {
    TailCovers(xs, xs.node.End());
    if Covers(xs.tail, xs.node.End()) {
      CoversAbove(xs.tail, xs.node.End());
    }
    assert In(xs.node.End(), ys.node) ==> Covers(ys, xs.node.End());
  }

  lemma TailCovers(l: List, b: int)
    requires Canonical(l) && l.Cons?
    ensures Covers(l.tail, b) <==> Covers(l, b) && !In(b, l.node)
  {
    if Covers(l.tail, b) {
      CoversAbove(l.tail, b);
    }
  }

  // ---- insertion and coalescing ----

  /** `r` in front of `l`, absorbing the first region of `l` if they touch (`merge_with_next`). */
  function Attach(r: Region, l: List): List {
    if l.Cons? && r.End() == l.node.start
    then Cons(Region(r.start, r.size + l.node.size), l.tail)
    else Cons(r, l)
  }

  /** The list with `r` returned to it. */
  function Insert(l: List, r: Region): List {
    if l.Cons? && l.node.start < r.start then Attach(l.node, Insert(l.tail, r)) else Attach(r, l)
  }

  /** Returning a region keeps the list coalesced, even when it closes a gap on both sides. */
  lemma {:induction false} InsertCanonical(l: List, r: Region)
    requires Canonical(l) && NodeFits(r) && Disjoint(l, r)
    ensures Canonical(Insert(l, r))
    ensures Insert(l, r).Cons?
    ensures Insert(l, r).node.start == if l.Cons? && l.node.start < r.start then l.node.start else r.start
  {
    if l.Cons? && l.node.start < r.start {
      InsertCanonical(l.tail, r);
    }
  }

  lemma {:induction false} InsertCovers(l: List, r: Region, b: int)
    ensures Covers(Insert(l, r), b) <==> Covers(l, b) || In(b, r)
  {
    if l.Cons? && l.node.start < r.start {
      InsertCovers(l.tail, r, b);
      AttachCovers(l.node, Insert(l.tail, r), b);
    } else {
      AttachCovers(r, l, b);
    }
  }

  lemma AttachCovers(r: Region, l: List, b: int)
    ensures Covers(Attach(r, l), b) <==> Covers(l, b) || In(b, r)
  {
  }

  lemma {:induction false} InsertTotal(l: List, r: Region)
    ensures Total(Insert(l, r)) == Total(l) + r.size
  {
    if l.Cons? && l.node.start < r.start {
      InsertTotal(l.tail, r);
    }
  }

  // ---- the same, node by node ----

  /** Some node of the list is at address `a`. */
  predicate HasNode(l: List, a: nat) {
    l.Cons? && (l.node.start == a || HasNode(l.tail, a))
  }

  /** `r` linked right after the node at `prev`. */
  function LinkAfter(l: List, prev: nat, r: Region): List {
    if l.Nil? then Nil
    else if l.node.start == prev then Cons(l.node, Cons(r, l.tail))
    else Cons(l.node, LinkAfter(l.tail, prev, r))
  }

  /** The node at `a` merged with its successor if they touch. */
  function MergeNode(l: List, a: nat): List {
    if l.Nil? then Nil
    else if l.node.start == a then Attach(l.node, l.tail)
    else Cons(l.node, MergeNode(l.tail, a))
  }

  function Remove(l: List, a: nat): List {
    if l.Nil? then Nil
    else if l.node.start == a then l.tail
    else Cons(l.node, Remove(l.tail, a))
  }

  /** Where the walk of `add_free_region` stops: the last node it reaches below `addr`. */
  function Prev(l: List, addr: nat): nat
    requires l.Cons?
  {
    if l.tail.Cons? && l.tail.node.start < addr then Prev(l.tail, addr) else l.node.start
  }

  /** No node of a sorted list starts below the first. */
  lemma NodesAbove(l: List, a: nat)
    requires Canonical(l) && HasNode(l, a)
    ensures l.node.start <= a
  {
  }

  lemma {:induction false} PrevHasNode(l: List, addr: nat)
    requires l.Cons?
    ensures HasNode(l, Prev(l, addr))
  {
    if l.tail.Cons? && l.tail.node.start < addr {
      PrevHasNode(l.tail, addr);
    }
  }

  lemma DisjointApart(l: List, r: Region)
    requires Canonical(l) && NodeFits(r) && Disjoint(l, r)
    ensures !HasNode(l, r.start)
  {
  }

  /** Linking `r` after the node where the walk stops and merging forward, then backward, is `Insert`. */
  lemma {:induction false} WalkLinkMerge(l: List, r: Region)
    requires l.Cons? && Canonical(l.tail) && NodeFits(r) && Disjoint(l.tail, r)
    requires !HasNode(l.tail, l.node.start) && l.node.start != r.start
    requires l.tail.Cons? ==> l.node.End() != l.tail.node.start
    ensures var prev := Prev(l, r.start);
            MergeNode(MergeNode(LinkAfter(l, prev, r), r.start), prev) == Attach(l.node, Insert(l.tail, r))
  {
    DisjointApart(l.tail, r);
    if l.tail.Cons? && l.tail.node.start < r.start {
      if HasNode(l.tail.tail, l.tail.node.start) {
        NodesAbove(l.tail.tail, l.tail.node.start);
      }
      WalkLinkMerge(l.tail, r);
      PrevHasNode(l.tail, r.start);
      InsertCanonical(l.tail, r);
    }
  }

  lemma {:induction false} RemoveFacts(l: List, r: Region)
    requires Canonical(l) && HasRegion(l, r)
    ensures Canonical(Remove(l, r.start))
    ensures Remove(l, r.start).Cons? ==> l.node.start <= Remove(l, r.start).node.start
    ensures Disjoint(Remove(l, r.start), r)
    ensures Total(Remove(l, r.start)) == Total(l) - r.size && r.size <= Total(l)
    ensures forall b :: Covers(Remove(l, r.start), b) <==> Covers(l, b) && !In(b, r)
  {
    if l.node == r {
      AllAbove(l.tail, r);
      forall b ensures Covers(l.tail, b) <==> Covers(l, b) && !In(b, r) { TailCovers(l, b); }
    } else {
      RegionAbove(l.tail, r);
      RemoveFacts(l.tail, r);
    }
  }

  /** `r` is one of the listed regions. */
  predicate HasRegion(l: List, r: Region) {
    l.Cons? && (l.node == r || HasRegion(l.tail, r))
  }

  lemma RegionAbove(l: List, r: Region)
    requires Canonical(l) && HasRegion(l, r)
    ensures l.node.start <= r.start && NodeFits(r)
  {
  }

  lemma AllAbove(l: List, r: Region)
    requires Canonical(l) && (l.Cons? ==> r.End() <= l.node.start)
    ensures Disjoint(l, r)
  {
  }
}
