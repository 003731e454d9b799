// kernel/buddy_system_allocator.c as functions on the thirty free lists, each
// list a sequence of block addresses from its head on.
module BuddySpec {
  import opened Sequences
  import opened Options
  import opened Bits
  import opened PowerOfTwo
  import opened Blocks
  import opened BuddySets

  const NULL: nat := 0

  type Lists = seq<seq<nat>>
  datatype Heap = Heap(lists: Lists, total: nat, taken: nat)

  // ---------- the operations ----------

  function Push(lists: Lists, k: nat, a: nat): Lists
    requires k < |lists|
  {
    lists[k := [a] + lists[k]]
  }

  function Pop(lists: Lists, k: nat): Lists
    requires k < |lists| && lists[k] != []
  {
    lists[k := lists[k][1..]]
  }

  function Without(l: seq<nat>, a: nat): seq<nat> {
    if l == [] then [] else if l[0] == a then l[1..] else [l[0]] + Without(l[1..], a)
  }

  function AdjustedSize(size: nat): nat
    requires size < WORD
  {
    var p := NextPowerOfTwo(size);
    if p > 8 then p else 8
  }

  function OrderOf(size: nat): nat
    requires size < WORD
  {
    Log2(AdjustedSize(size))
  }

  /** The first nonempty list at or above k. */
  function FirstFit(lists: Lists, k: nat): (i: nat)
    ensures k <= |lists| ==> k <= i <= |lists|
    ensures i < |lists| ==> lists[i] != []
    ensures forall j :: k <= j < i && j < |lists| ==> lists[j] == []
    decreases |lists| - k
  {
    if k >= |lists| || lists[k] != [] then k else FirstFit(lists, k + 1)
  }

  /** Split the head of list i down to the wanted order. */
  function Split(lists: Lists, i: nat, order: nat): (r: Lists)
    requires order <= i < |lists| && lists[i] != []
    ensures |r| == |lists| && r[order] != []
    decreases i
  {
    if i == order then lists else Split(SplitStep(lists, i), i - 1, order)
  }

  function SplitStep(lists: Lists, i: nat): (r: Lists)
    requires 0 < i < |lists| && lists[i] != []
    ensures |r| == |lists| && r[i - 1] != [] && r[i - 1][0] == lists[i][0]
  {
    var a := lists[i][0];
    Push(Push(Pop(lists, i), i - 1, a + Pow2(i - 1)), i - 1, a)
  }

  /** buddy_alloc for a request of the given order: the new state and the block. */
  function Alloc(h: Heap, order: nat): (Heap, nat) {
    var i := FirstFit(h.lists, order);
    if i >= |h.lists| then (h, NULL)
    else
      var lists := Split(h.lists, i, order);
      (Heap(Pop(lists, order), h.total, h.taken + Pow2(order)), lists[order][0])
  }

  /** Put block a of order k back, merging it with its buddy as long as the
      buddy is free.  None where the code would index past the last list. */
  function Merge(lists: Lists, k: nat, a: nat): Option<Lists>
    decreases |lists| - k
  {
    if k >= |lists| then None
    else if BuddyAddr(a, k) in lists[k] then
      Merge(lists[k := Without(lists[k], BuddyAddr(a, k))], k + 1, ParentAddr(a, k))
    else Some(Push(lists, k, a))
  }

  /** buddy_dealloc; None also where the byte counter would wrap around. */
  function Dealloc(h: Heap, a: nat, order: nat): Option<Heap> {
    match Merge(h.lists, order, a)
    case None => None
    case Some(lists) =>
      if h.taken < Pow2(order) then None
      else Some(Heap(lists, h.total, h.taken - Pow2(order)))
  }

  // ---------- the invariant ----------

  ghost function FreeSet(lists: Lists): set<Block> {
    set k: nat, a | k < |lists| && a in lists[k] :: Block(a, k)
  }

  ghost predicate DistinctLists(lists: Lists) {
    |lists| == MAX_ORDER && forall k :: 0 <= k < |lists| ==> Distinct(lists[k])
  }

  /** Free and used blocks together tile the region. */
  ghost predicate Tiling(lists: Lists, used: set<Block>, lo: nat, hi: nat) {
    DistinctLists(lists) && FreeSet(lists) !! used && Partition(FreeSet(lists) + used, lo, hi)
  }

  ghost function Bytes(s: set<Block>): nat {
    if s == {} then 0 else var b :| b in s; Pow2(b.order) + Bytes(s - {b})
  }

  ghost predicate Inv(h: Heap, used: set<Block>, lo: nat, hi: nat) {
    && Region(lo, hi)
    && Tiling(h.lists, used, lo, hi)
    && NoBuddies(FreeSet(h.lists))
    && h.total == hi - lo
    && h.taken == Bytes(used)
    && Bytes(FreeSet(h.lists)) + h.taken == h.total
  }

  // ---------- lists and sets ----------

  lemma PushSet(lists: Lists, k: nat, a: nat)
    requires DistinctLists(lists) && k < |lists| && Block(a, k) !in FreeSet(lists)
    ensures FreeSet(Push(lists, k, a)) == FreeSet(lists) + {Block(a, k)}
    ensures DistinctLists(Push(lists, k, a))
  {
    assert a !in lists[k];
    var l' := Push(lists, k, a);
    forall b ensures b in FreeSet(l') <==> b in FreeSet(lists) + {Block(a, k)} {
      if b.order < |lists| {
        assert b in FreeSet(l') <==> b.addr in l'[b.order];
        assert b in FreeSet(lists) <==> b.addr in lists[b.order];
      }
    }
  }

  lemma PopSet(lists: Lists, k: nat)
    requires DistinctLists(lists) && k < |lists| && lists[k] != []
    ensures Block(lists[k][0], k) in FreeSet(lists)
    ensures FreeSet(Pop(lists, k)) == FreeSet(lists) - {Block(lists[k][0], k)}
    ensures DistinctLists(Pop(lists, k))
  {
    var l' := Pop(lists, k);
    var a := lists[k][0];
    assert lists[k] == [a] + l'[k];
    assert a !in l'[k];
    forall b ensures b in FreeSet(l') <==> b in FreeSet(lists) - {Block(a, k)} {
      if b.order < |lists| {
        assert b in FreeSet(l') <==> b.addr in l'[b.order];
        assert b in FreeSet(lists) <==> b.addr in lists[b.order];
      }
    }
  }

  lemma {:induction false} WithoutElems(l: seq<nat>, a: nat)
    requires Distinct(l) && a in l
    ensures Distinct(Without(l, a))
    ensures forall x :: x in Without(l, a) <==> x in l && x != a
  {
    if l[0] == a {
      assert l == [a] + l[1..];
    } else {
      assert l == [l[0]] + l[1..];
      WithoutElems(l[1..], a);
      var r := Without(l[1..], a);
      assert l[0] !in r;
    }
  }

  lemma UnlinkSet(lists: Lists, k: nat, a: nat)
    requires DistinctLists(lists) && k < |lists| && a in lists[k]
    ensures var l' := lists[k := Without(lists[k], a)];
      FreeSet(l') == FreeSet(lists) - {Block(a, k)} && DistinctLists(l')
  {
    var l' := lists[k := Without(lists[k], a)];
    WithoutElems(lists[k], a);
    forall b ensures b in FreeSet(l') <==> b in FreeSet(lists) - {Block(a, k)} {
      if b.order < |lists| {
        assert b in FreeSet(l') <==> b.addr in l'[b.order];
        assert b in FreeSet(lists) <==> b.addr in lists[b.order];
      }
    }
  }

  lemma {:induction false} BytesRemove(s: set<Block>, b: Block)
    requires b in s
    ensures Bytes(s) == Pow2(b.order) + Bytes(s - {b})
  {
    var c :| c in s && Bytes(s) == Pow2(c.order) + Bytes(s - {c});
    if c != b {
      BytesRemove(s - {c}, b);
      BytesRemove(s - {b}, c);
      assert s - {c} - {b} == s - {b} - {c};
    }
  }

  lemma BytesAdd(s: set<Block>, b: Block)
    requires b !in s
    ensures Bytes(s + {b}) == Pow2(b.order) + Bytes(s)
  {
    BytesRemove(s + {b}, b);
    assert s + {b} - {b} == s;
  }

  // ---------- requested sizes ----------

  lemma RoundUpShape(size: nat)
    ensures var r := RoundUp(size);
      && (r > 0 ==> r == Pow2(Log2(r)) && Log2(r) <= 63)
      && (size <= r <==> size <= MAX_SIZE)
  {
    RoundUpLeast(size);
    if 1 < size <= MAX_SIZE {
      var m := Log2(size - 1);
      Pow2At64();
      Log2Below(size - 1, 63);
      Log2OfPow2(m + 1);
    }
  }

  lemma MaxWith8(p: nat)
    requires p > 0 ==> p == Pow2(Log2(p)) && Log2(p) <= 63
    ensures var q := if p > 8 then p else 8; q == Pow2(Log2(q)) && MIN_ORDER <= Log2(q) <= 63
  {
    Log2OfPow2(3);
    assert Pow2(3) == 8;
    if p > 8 && Log2(p) < 3 { Pow2Mono(Log2(p), 3); }
  }

  /** Every request becomes a block of a power-of-two size of at least 8 bytes.
      The block is large enough exactly for requests up to 2^63 bytes. */
  lemma AdjustedPow2(size: nat)
    requires size < WORD
    ensures AdjustedSize(size) == Pow2(OrderOf(size))
    ensures MIN_ORDER <= OrderOf(size) <= 63
    ensures size <= AdjustedSize(size) <==> size <= MAX_SIZE
    ensures OrderOf(size) == Log2(AdjustedSize(size))
  {
    var p := NextPowerOfTwo(size);
    assert p == RoundUp(size) by { NextIsRoundUp(size); }
    RoundUpShape(size);
    MaxWith8(p);
  }

  // ---------- allocation ----------

  lemma SplitStepTiling(lists: Lists, i: nat, used: set<Block>, lo: nat, hi: nat)
    requires Tiling(lists, used, lo, hi) && MIN_ORDER < i < |lists| && lists[i] != []
    ensures Tiling(SplitStep(lists, i), used, lo, hi)
    ensures Bytes(FreeSet(SplitStep(lists, i))) == Bytes(FreeSet(lists))
  {
    var a := lists[i][0];
    var p, l, r := Block(a, i), Block(a, i - 1), Block(a + Pow2(i - 1), i - 1);
    var f := FreeSet(lists);
    var l1 := Pop(lists, i);
    var l2 := Push(l1, i - 1, r.addr);
    PopSet(lists, i);
    SplitPartition(f + used, lo, hi, a, i - 1);
    PushSet(l1, i - 1, r.addr);
    PushSet(l2, i - 1, a);
    var f' := FreeSet(SplitStep(lists, i));
    assert f' == f - {p} + {r} + {l};
    assert f' + used == f + used - {p} + {l, r};
    BytesRemove(f, p);
    BytesAdd(f - {p}, r);
    BytesAdd(f - {p} + {r}, l);
  }

  /** Where splitting leaves the free lists: one right half on each list between
      the wanted order and i, and the block itself at the head of the former. */
  ghost predicate SplitResult(lists: Lists, i: nat, order: nat, r: Lists)
    requires order <= i < |lists| && lists[i] != []
  {
    var a := lists[i][0];
    && |r| == |lists|
    && (forall j :: 0 <= j < |lists| && !(order <= j <= i) ==> r[j] == lists[j])
    && (i == order ==> r[i] == lists[i])
    && (order < i ==> r[i] == lists[i][1..] && r[order] == [a, a + Pow2(order)])
    && (forall j :: order < j < i ==> r[j] == [a + Pow2(j)])
  }

  lemma {:induction false} SplitLists(lists: Lists, i: nat, order: nat)
    requires order <= i < |lists| && lists[i] != []
    requires forall j :: order <= j < i ==> lists[j] == []
    ensures SplitResult(lists, i, order, Split(lists, i, order))
    decreases i
  {
    if i > order {
      var a := lists[i][0];
      var l := SplitStep(lists, i);
      assert l[i - 1] == [a, a + Pow2(i - 1)];
      SplitLists(l, i - 1, order);
    }
  }

  lemma {:induction false} SplitTiling(lists: Lists, i: nat, order: nat, used: set<Block>, lo: nat, hi: nat)
    requires Tiling(lists, used, lo, hi) && MIN_ORDER <= order <= i < |lists| && lists[i] != []
    ensures Tiling(Split(lists, i, order), used, lo, hi)
    ensures Bytes(FreeSet(Split(lists, i, order))) == Bytes(FreeSet(lists))
    decreases i
  {
    if i > order {
      SplitStepTiling(lists, i, used, lo, hi);
      SplitTiling(SplitStep(lists, i), i - 1, order, used, lo, hi);
    }
  }

  lemma SplitNoBuddies(lists: Lists, i: nat, order: nat, r: Lists)
    requires DistinctLists(lists) && NoBuddies(FreeSet(lists))
    requires forall k, a :: 0 <= k < |lists| && a in lists[k] ==> Aligned(a, k)
    requires order <= i < |lists| && lists[i] != [] && SplitResult(lists, i, order, r)
    ensures NoBuddies(FreeSet(r[order := r[order][1..]]))
  {
    var r' := r[order := r[order][1..]];
    var a := lists[i][0];
    forall b | b in FreeSet(r') ensures Buddy(b) !in FreeSet(r') {
      var k := b.order;
      if order <= k < i {
        assert r'[k] == [a + Pow2(k)];
        AlignedWeaken(a, k, i);
        AlignedAdd(a, k);
        HalfOf(b);
      } else {
        assert b.addr in lists[k];
        assert b in FreeSet(lists);
      }
    }
  }

  lemma ListsAligned(lists: Lists, used: set<Block>, lo: nat, hi: nat)
    requires Tiling(lists, used, lo, hi)
    ensures forall k, a :: 0 <= k < |lists| && a in lists[k] ==> Fits(Block(a, k), lo, hi)
  {
    forall k, a | 0 <= k < |lists| && a in lists[k] ensures Fits(Block(a, k), lo, hi) {
      assert Block(a, k) in FreeSet(lists) + used;
    }
  }

  /** Taking the head of a list out of the free blocks. */
  lemma TakeHead(lists: Lists, k: nat, used: set<Block>, lo: nat, hi: nat)
    requires Tiling(lists, used, lo, hi) && k < |lists| && lists[k] != []
    ensures var b := Block(lists[k][0], k);
      && b in FreeSet(lists) && b !in used
      && Tiling(Pop(lists, k), used + {b}, lo, hi)
      && Bytes(used + {b}) == Bytes(used) + Pow2(k)
      && Bytes(FreeSet(Pop(lists, k))) + Pow2(k) == Bytes(FreeSet(lists))
  {
    var b := Block(lists[k][0], k);
    PopSet(lists, k);
    assert FreeSet(Pop(lists, k)) + (used + {b}) == FreeSet(lists) + used;
    BytesAdd(used, b);
    BytesRemove(FreeSet(lists), b);
  }

  /** b is a wholly free block that a request of this order could be given. */
  ghost predicate Candidate(h: Heap, order: nat, b: Block) {
    b.order == order && order < MAX_ORDER && Good(b) && AllFree(FreeSet(h.lists), b)
  }

  /** b starts the first block on the list of the least sufficient order: no free block
      of sufficient order is smaller. */
  ghost predicate BestFit(h: Heap, order: nat, b: Block) {
    exists c <- FreeSet(h.lists) ::
      && c.addr == b.addr && order <= c.order < |h.lists| && h.lists[c.order][..1] == [c.addr]
      && forall d <- FreeSet(h.lists) :: order <= d.order ==> c.order <= d.order
  }

  /** buddy_alloc keeps the invariant, and what it returns is a wholly free block, cut
      from a free block of the least sufficient order. */
  lemma AllocKeeps(h: Heap, used: set<Block>, lo: nat, hi: nat, order: nat)
    requires Inv(h, used, lo, hi) && MIN_ORDER <= order
    ensures var (h', p) := Alloc(h, order); var b := Block(p, order);
      if p == NULL then h' == h
      else Inv(h', used + {b}, lo, hi) && b !in used && Candidate(h, order, b) && BestFit(h, order, b)
  {
    var i := FirstFit(h.lists, order);
    if i < |h.lists| {
      AllocFrom(h, used, lo, hi, order, i);
      BestFrom(h, order, i);
    }
  }

  lemma BestFrom(h: Heap, order: nat, i: nat)
    requires order <= i < |h.lists| && h.lists[i] != []
    requires forall j :: order <= j < i ==> h.lists[j] == []
    ensures BestFit(h, order, Block(Split(h.lists, i, order)[order][0], order))
  {
    SplitHead(h.lists, i, order);
    var c := Block(h.lists[i][0], i);
    assert c in FreeSet(h.lists);
  }

  lemma {:induction false} SplitHead(lists: Lists, i: nat, order: nat)
    requires order <= i < |lists| && lists[i] != []
    ensures Split(lists, i, order)[order][0] == lists[i][0]
    decreases i
  {
    if i > order { SplitHead(SplitStep(lists, i), i - 1, order); }
  }

  lemma AllocFrom(h: Heap, used: set<Block>, lo: nat, hi: nat, order: nat, i: nat)
    requires Inv(h, used, lo, hi)
    requires MIN_ORDER <= order <= i < |h.lists| && h.lists[i] != []
    requires forall j :: order <= j < i ==> h.lists[j] == []
    ensures var r := Split(h.lists, i, order); var b := Block(r[order][0], order);
      && b.addr != NULL && b !in used && Candidate(h, order, b)
      && Inv(Heap(Pop(r, order), h.total, h.taken + Pow2(order)), used + {b}, lo, hi)
  {
    var lists := h.lists;
    var r := Split(lists, i, order);
    var b := Block(r[order][0], order);
    SplitLists(lists, i, order);
    SplitTiling(lists, i, order, used, lo, hi);
    TakeHead(r, order, used, lo, hi);
    ListsAligned(lists, used, lo, hi);
    SplitNoBuddies(lists, i, order, r);
    ListsAligned(r, used, lo, hi);
    var p := Block(lists[i][0], i);
    PopSet(lists, i);
    assert b.addr == p.addr;
    Pow2Mono(order, i);
    forall x: nat | Contains(b, x) ensures Covered(FreeSet(lists), x) {
      assert p in FreeSet(lists) && Contains(p, x);
    }
  }

  /** Allocation is complete: buddy_alloc fails exactly when no wholly free
      aligned block of the requested size exists. */
  lemma AllocComplete(h: Heap, used: set<Block>, lo: nat, hi: nat, order: nat)
    requires Inv(h, used, lo, hi) && MIN_ORDER <= order
    ensures Alloc(h, order).1 == NULL <==> !(exists b :: Candidate(h, order, b))
  {
    AllocKeeps(h, used, lo, hi, order);
    if b: Block :| Candidate(h, order, b) {
      assert AllFit(FreeSet(h.lists), lo, hi);
      var c := InsideOneFree(FreeSet(h.lists), lo, hi, b);
      WithinOrder(b, c);
      assert h.lists[c.order] != [];
      var i := FirstFit(h.lists, order);
      assert i <= c.order;
      AllocFrom(h, used, lo, hi, order, i);
    }
  }

  // ---------- deallocation ----------

  /** Unlinking the free buddy and joining it with the block being freed. */
  lemma MergeStep(lists: Lists, k: nat, a: nat, used: set<Block>, lo: nat, hi: nat)
    requires Region(lo, hi) && Tiling(lists, used + {Block(a, k)}, lo, hi) && Block(a, k) !in used
    requires k < |lists| && BuddyAddr(a, k) in lists[k]
    requires NoBuddies(FreeSet(lists))
    ensures var lists' := lists[k := Without(lists[k], BuddyAddr(a, k))]; var p := Block(ParentAddr(a, k), k + 1);
      && k + 1 < |lists|
      && p !in used
      && Tiling(lists', used + {p}, lo, hi)
      && NoBuddies(FreeSet(lists'))
      && Bytes(FreeSet(lists')) + Pow2(k) == Bytes(FreeSet(lists))
  {
    var b := Block(a, k);
    var c := Buddy(b);
    var f := FreeSet(lists);
    var s := f + (used + {b});
    assert c in f && b in s;
    MergePartition(s, lo, hi, b);
    UnlinkSet(lists, k, c.addr);
    BytesRemove(f, c);
    var f' := FreeSet(lists[k := Without(lists[k], c.addr)]);
    assert f' + (used + {Parent(b)}) == s - {b, c} + {Parent(b)};
  }

  /** Pushing a block that was in use. */
  lemma PushTiling(lists: Lists, k: nat, a: nat, used: set<Block>, lo: nat, hi: nat)
    requires Tiling(lists, used + {Block(a, k)}, lo, hi) && Block(a, k) !in used && k < |lists|
    ensures var lists' := Push(lists, k, a);
      && Tiling(lists', used, lo, hi)
      && FreeSet(lists') == FreeSet(lists) + {Block(a, k)}
      && Bytes(FreeSet(lists')) == Bytes(FreeSet(lists)) + Pow2(k)
  {
    var b := Block(a, k);
    var f := FreeSet(lists);
    PushSet(lists, k, a);
    BytesAdd(f, b);
    assert f + {b} + used == f + (used + {b});
  }

  lemma MergeDone(lists: Lists, k: nat, a: nat, used: set<Block>, lo: nat, hi: nat)
    requires Tiling(lists, used + {Block(a, k)}, lo, hi) && Block(a, k) !in used
    requires k < |lists| && BuddyAddr(a, k) !in lists[k]
    requires NoBuddies(FreeSet(lists))
    ensures NoBuddies(FreeSet(Push(lists, k, a)))
  {
    var b := Block(a, k);
    var f := FreeSet(lists);
    PushTiling(lists, k, a, used, lo, hi);
    assert b in f + (used + {b});
    HalfOf(b);
    forall c | c in f + {b} ensures Buddy(c) !in f + {b} {
      if c != b {
        assert c in f + (used + {b});
        HalfOf(c);
        assert Buddy(c) == b ==> c == Buddy(b);
      }
    }
  }

  lemma {:induction false} MergeKeeps(lists: Lists, k: nat, a: nat, used: set<Block>, lo: nat, hi: nat)
    requires Region(lo, hi) && Tiling(lists, used + {Block(a, k)}, lo, hi) && Block(a, k) !in used
    requires k < |lists| && NoBuddies(FreeSet(lists))
    ensures var r := Merge(lists, k, a);
      && r.Some? && Tiling(r.value, used, lo, hi)
      && NoBuddies(FreeSet(r.value))
      && Bytes(FreeSet(r.value)) == Bytes(FreeSet(lists)) + Pow2(k)
    decreases |lists| - k
  {
    if BuddyAddr(a, k) in lists[k] {
      MergeStep(lists, k, a, used, lo, hi);
      MergeKeeps(lists[k := Without(lists[k], BuddyAddr(a, k))], k + 1, ParentAddr(a, k), used, lo, hi);
    } else {
      MergeDone(lists, k, a, used, lo, hi);
      PushTiling(lists, k, a, used, lo, hi);
    }
  }

  /** buddy_dealloc of a used block keeps the invariant; in particular merging
      never reaches past the last list and the byte counter never wraps. */
  lemma DeallocKeeps(h: Heap, used: set<Block>, lo: nat, hi: nat, b: Block)
    requires Inv(h, used, lo, hi) && b in used
    ensures var r := Dealloc(h, b.addr, b.order);
      r.Some? && Inv(r.value, used - {b}, lo, hi)
  {
    assert used - {b} + {b} == used;
    assert b in FreeSet(h.lists) + used;
    BytesRemove(used, b);
    MergeKeeps(h.lists, b.order, b.addr, used - {b}, lo, hi);
  }
}
