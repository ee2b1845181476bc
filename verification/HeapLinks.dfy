/** How a list lies in memory: each node is two words, its size at the node's address and the address
    of the next node eight bytes further (0 for none). */
module HeapLinks {
  import opened HeapMath
  import opened FreeList

  /** The 8-byte word stored at each address. */
  type Memory = map<nat, nat>

  /** Following the next-words from `p` reads exactly the list `l`. */
  predicate Chain(mem: Memory, p: nat, l: List)
    decreases l
  {
    match l
    case Nil => p == 0
    case Cons(r, t) =>
      && p == r.start && p != 0
      && p in mem && mem[p] == r.size
      && p + 8 in mem && Chain(mem, mem[p + 8], t)
  }

  /** The word at `a` is no word of a listed node. */
  predicate NotAWord(l: List, a: nat) {
    l.Cons? ==> a != l.node.start && a != l.node.start + 8 && NotAWord(l.tail, a)
  }

  /** A node at `a` would share no word with the listed nodes. */
  predicate Apart(l: List, a: nat) {
    NotAWord(l, a) && NotAWord(l, a + 8)
  }

  predicate AllApart(l: List) {
    l.Cons? ==> Apart(l.tail, l.node.start) && AllApart(l.tail)
  }

  lemma {:induction false} ChainWrite(mem: Memory, p: nat, l: List, a: nat, v: nat)
    requires Chain(mem, p, l) && NotAWord(l, a)
    ensures Chain(mem[a := v], p, l)
    decreases l
  {
    if l.Cons? {
      ChainWrite(mem, mem[p + 8], l.tail, a, v);
    }
  }

  lemma NodeWords(l: List, a: nat, w: nat)
    requires HasNode(l, a) && NotAWord(l, w)
    ensures w != a && w != a + 8
  {
  }

  /** Memory after linking `r` behind the node at `prev`. */
  function MemLink(mem: Memory, prev: nat, r: Region): Memory
    requires prev + 8 in mem
  {
    mem[r.start := r.size][r.start + 8 := mem[prev + 8]][prev + 8 := r.start]
  }

  lemma MemLinkFrame(mem: Memory, l: List, prev: nat, r: Region)
    requires prev + 8 in mem && r.start in mem && r.start + 8 in mem && HasNode(l, prev)
    ensures MemLink(mem, prev, r).Keys == mem.Keys
    ensures forall w | w in mem && NotAWord(l, w) && w != r.start && w != r.start + 8 ::
        MemLink(mem, prev, r)[w] == mem[w]
  {
    forall w | w in mem && NotAWord(l, w)
      ensures w != prev + 8
    {
      NodeWords(l, prev, w);
    }
  }

  lemma {:induction false} ChainLinkAfter(mem: Memory, p: nat, l: List, prev: nat, r: Region)
    requires Chain(mem, p, l) && AllApart(l) && Apart(l, r.start) && r.start != 0
    requires HasNode(l, prev) && prev + 8 in mem
    ensures Chain(MemLink(mem, prev, r), p, LinkAfter(l, prev, r))
    decreases l
  {
    NodeWords(l, prev, r.start);
    NodeWords(l, prev, r.start + 8);
    if l.node.start == prev {
      ChainWrite(mem, mem[p + 8], l.tail, r.start, r.size);
      ChainWrite(mem[r.start := r.size], mem[p + 8], l.tail, r.start + 8, mem[prev + 8]);
      ChainWrite(mem[r.start := r.size][r.start + 8 := mem[prev + 8]], mem[p + 8], l.tail, prev + 8, r.start);
    } else {
      NodeWords(l.tail, prev, l.node.start);
      NodeWords(l.tail, prev, l.node.start + 8);
      ChainLinkAfter(mem, mem[p + 8], l.tail, prev, r);
    }
  }

  /** Memory after the node at `a` absorbed its successor. */
  function MemMerge(mem: Memory, a: nat): Memory
    requires a in mem && a + 8 in mem && mem[a + 8] in mem && mem[a + 8] + 8 in mem
  {
    var next := mem[a + 8];
    mem[next + 8 := 0][a := mem[a] + mem[next]][a + 8 := mem[next + 8]]
  }

  lemma MemMergeFrame(mem: Memory, l: List, a: nat)
    requires a in mem && a + 8 in mem && mem[a + 8] in mem && mem[a + 8] + 8 in mem
    requires HasNode(l, a) && HasNode(l, mem[a + 8])
    ensures MemMerge(mem, a).Keys == mem.Keys
    ensures forall w | w in mem && NotAWord(l, w) :: MemMerge(mem, a)[w] == mem[w]
  {
    forall w | w in mem && NotAWord(l, w)
      ensures MemMerge(mem, a)[w] == mem[w]
    {
      NodeWords(l, a, w);
      NodeWords(l, mem[a + 8], w);
    }
  }

  /** The node at `a` has a successor and they touch. */
  predicate TouchesNext(l: List, a: nat) {
    && l.Cons?
    && if l.node.start == a then l.tail.Cons? && l.node.End() == l.tail.node.start else TouchesNext(l.tail, a)
  }

  lemma {:induction false} ChainMerge(mem: Memory, p: nat, l: List, a: nat)
    requires Chain(mem, p, l) && AllApart(l)
    requires TouchesNext(l, a)
    requires a in mem && a + 8 in mem && mem[a + 8] in mem && mem[a + 8] + 8 in mem
    ensures Chain(MemMerge(mem, a), p, MergeNode(l, a))
    decreases l
  {
    var next := mem[a + 8];
    if l.node.start == a {
      var m1 := mem[next + 8 := 0];
      var m2 := m1[a := mem[a] + mem[next]];
      ChainWrite(mem, mem[next + 8], l.tail.tail, next + 8, 0);
      ChainWrite(m1, mem[next + 8], l.tail.tail, a, mem[a] + mem[next]);
      ChainWrite(m2, mem[next + 8], l.tail.tail, a + 8, mem[next + 8]);
    } else {
      TouchNodes(mem, mem[p + 8], l.tail, a);
      NodeWords(l.tail, a, l.node.start);
      NodeWords(l.tail, a, l.node.start + 8);
      NodeWords(l.tail, next, l.node.start);
      NodeWords(l.tail, next, l.node.start + 8);
      ChainMerge(mem, mem[p + 8], l.tail, a);
    }
  }

  lemma {:induction false} TouchNodes(mem: Memory, p: nat, l: List, a: nat)
    requires Chain(mem, p, l) && TouchesNext(l, a)
    ensures a in mem && a + 8 in mem && mem[a + 8] in mem && mem[a + 8] + 8 in mem
    ensures HasNode(l, a) && HasNode(l, mem[a + 8])
    ensures AllApart(l) ==> mem[a + 8] != a && mem[a + 8] != a + 8 && mem[a + 8] + 8 != a
    decreases l
  {
    if l.node.start != a {
      TouchNodes(mem, mem[p + 8], l.tail, a);
    }
  }

  lemma {:induction false} ChainRemove(mem: Memory, p: nat, l: List, cur: nat)
    requires Chain(mem, p, l) && AllApart(l) && HasNode(l, cur)
    requires cur + 8 in mem && HasNext(l, cur) && mem[cur + 8] + 8 in mem
    ensures var next := mem[cur + 8];
            Chain(mem[next + 8 := 0][cur + 8 := mem[next + 8]], p, RemoveNext(l, cur))
    decreases l
  {
    var next := mem[cur + 8];
    if l.node.start == cur {
      ChainWrite(mem, mem[next + 8], l.tail.tail, next + 8, 0);
      ChainWrite(mem[next + 8 := 0], mem[next + 8], l.tail.tail, cur + 8, mem[next + 8]);
    } else {
      NextNode(mem, mem[p + 8], l.tail, cur);
      NodeWords(l.tail, cur, l.node.start);
      NodeWords(l.tail, cur, l.node.start + 8);
      NodeWords(l.tail, next, l.node.start);
      NodeWords(l.tail, next, l.node.start + 8);
      ChainRemove(mem, mem[p + 8], l.tail, cur);
    }
  }

  predicate HasNext(l: List, cur: nat) {
    l.Cons? && if l.node.start == cur then l.tail.Cons? else HasNext(l.tail, cur)
  }

  /** The list without the node after the one at `cur`. */
  function RemoveNext(l: List, cur: nat): List {
    if l.Nil? then Nil
    else if l.node.start == cur then Cons(l.node, if l.tail.Cons? then l.tail.tail else Nil)
    else Cons(l.node, RemoveNext(l.tail, cur))
  }

  lemma {:induction false} NextNode(mem: Memory, p: nat, l: List, cur: nat)
    requires Chain(mem, p, l) && HasNext(l, cur)
    ensures cur + 8 in mem && HasNode(l, cur) && HasNode(l, mem[cur + 8]) && mem[cur + 8] + 8 in mem
    decreases l
  {
    if l.node.start != cur {
      NextNode(mem, mem[p + 8], l.tail, cur);
    }
  }

  // ---- intermediate lists stay well separated ----

  /** Every region ends below 2^64. */
  predicate Below(l: List) {
    l.Cons? ==> l.node.End() <= USIZE_MAX && Below(l.tail)
  }

  lemma {:induction false} LinkAfterApart(l: List, prev: nat, r: Region)
    requires AllApart(l) && Below(l) && Apart(l, r.start) && r.End() <= USIZE_MAX
    ensures AllApart(LinkAfter(l, prev, r)) && Below(LinkAfter(l, prev, r))
    ensures forall a | NotAWord(l, a) && a != r.start && a != r.start + 8 :: NotAWord(LinkAfter(l, prev, r), a)
  {
    if l.Cons? {
      ApartSymmetric(l, r.start);
      LinkAfterApart(l.tail, prev, r);
    }
  }

  lemma ApartSymmetric(l: List, a: nat)
    requires Apart(l, a) && l.Cons?
    ensures l.node.start != a && l.node.start != a + 8 && l.node.start + 8 != a && l.node.start + 8 != a + 8
  {
  }

  lemma {:induction false} MergeNodeApart(l: List, a: nat)
    requires AllApart(l) && Below(l)
    ensures AllApart(MergeNode(l, a)) && Below(MergeNode(l, a))
    ensures forall w | NotAWord(l, w) :: NotAWord(MergeNode(l, a), w)
  {
    if l.Cons? && l.node.start != a {
      MergeNodeApart(l.tail, a);
    }
  }

  lemma MergeNodeUntouched(l: List, a: nat)
    requires !TouchesNext(l, a)
    ensures MergeNode(l, a) == l
  {
  }
}
