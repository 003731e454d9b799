// The buddy system seen as sets of blocks: a region is partitioned into free
// and used blocks, and no two free blocks are buddies.
module BuddySets {
  import opened Bits
  import opened Blocks

  const MAX_ORDER: nat := 30
  const MIN_ORDER: nat := 3  // blocks hold at least one 64-bit link

  /** A region the allocator can manage: word aligned, not starting at NULL, and
      without an aligned block of 2^30 bytes, for which there is no free list. */
  ghost predicate Region(lo: nat, hi: nat) {
    0 < lo <= hi < WORD && lo % 8 == 0 && hi % 8 == 0 && NoHugeBlock(lo, hi)
  }

  ghost predicate NoHugeBlock(lo: nat, hi: nat) {
    forall a: nat :: Aligned(a, MAX_ORDER) && lo <= a ==> hi < a + Pow2(MAX_ORDER)
  }

  ghost predicate Fits(b: Block, lo: nat, hi: nat) {
    && Good(b) && MIN_ORDER <= b.order < MAX_ORDER
    && lo <= b.addr && b.addr + Pow2(b.order) <= hi
  }

  ghost predicate Covered(s: set<Block>, x: nat) {
    exists b :: b in s && Contains(b, x)
  }

  ghost predicate AllFit(s: set<Block>, lo: nat, hi: nat) {
    forall b :: b in s ==> Fits(b, lo, hi)
  }

  ghost predicate AllDisjoint(s: set<Block>) {
    forall b, c :: b in s && c in s && b != c ==> Disjoint(b, c)
  }

  /** The blocks tile the region exactly. */
  ghost predicate Partition(s: set<Block>, lo: nat, hi: nat) {
    && AllFit(s, lo, hi)
    && AllDisjoint(s)
    && forall x: nat :: lo <= x < hi ==> Covered(s, x)
  }

  function Buddy(b: Block): Block {
    Block(BuddyAddr(b.addr, b.order), b.order)
  }

  function Parent(b: Block): Block {
    Block(ParentAddr(b.addr, b.order), b.order + 1)
  }

  ghost predicate NoBuddies(free: set<Block>) {
    forall b :: b in free ==> Buddy(b) !in free
  }

  ghost predicate AllFree(free: set<Block>, b: Block) {
    forall x: nat :: Contains(b, x) ==> Covered(free, x)
  }

  lemma WithinOrder(b: Block, c: Block)
    requires Within(b, c)
    ensures b.order <= c.order
    ensures b.order == c.order ==> b == c
  {
    if c.order < b.order { Pow2Mono(c.order, b.order); }
  }

  /** Overlapping aligned blocks are nested. */
  lemma Nested(b: Block, c: Block, x: nat)
    requires Good(b) && Good(c) && b.order <= c.order
    requires Contains(b, x) && Contains(c, x)
    ensures Within(b, c)
  {
    Laminar(b.addr, b.order, c.addr, c.order);
  }

  lemma HalfOf(b: Block)
    requires Good(b)
    ensures Good(Buddy(b)) && Good(Parent(b)) && Buddy(Buddy(b)) == b && Buddy(b) != b
    ensures Within(b, Parent(b)) && Within(Buddy(b), Parent(b))
    ensures Parent(b).order == b.order + 1 && Pow2(b.order + 1) == 2 * Pow2(b.order)
    ensures forall x: nat :: Contains(Parent(b), x) <==> Contains(b, x) || Contains(Buddy(b), x)
    ensures Disjoint(b, Buddy(b))
  {
    Halves(b.addr, b.order);
  }

  /** The left half of an aligned block. */
  lemma LeftHalf(a: nat, k: nat)
    requires Aligned(a, k + 1)
    ensures Good(Block(a, k)) && Buddy(Block(a, k)) == Block(a + Pow2(k), k) && Parent(Block(a, k)) == Block(a, k + 1)
  {
    AlignedWeaken(a, k, k + 1);
    BuddyAddrIs(a, k);
  }

  /** A free byte's block is free, since used blocks are disjoint from it. */
  lemma FreeBlockOf(free: set<Block>, x: nat) returns (b: Block)
    requires Covered(free, x)
    ensures b in free && Contains(b, x)
  {
    b :| b in free && Contains(b, x);
  }

  /** The central fact about coalescing: once no two free blocks are buddies,
      every wholly free aligned block lies inside a single free block. */
  lemma {:induction false} InsideOneFree(free: set<Block>, lo: nat, hi: nat, b: Block) returns (c: Block)
    requires AllFit(free, lo, hi) && NoBuddies(free)
    requires Good(b) && MIN_ORDER <= b.order && AllFree(free, b)
    ensures c in free && Within(b, c)
    decreases b.order
  {
    if b.order == MIN_ORDER {
      assert Contains(b, b.addr);
      c := FreeBlockOf(free, b.addr);
      Nested(b, c, b.addr);
    } else {
      var l := Block(b.addr, b.order - 1);
      var r := Buddy(l);
      LeftHalf(b.addr, b.order - 1);
      HalfOf(l);
      var cl := InsideOneFree(free, lo, hi, l);
      var cr := InsideOneFree(free, lo, hi, r);
      WithinOrder(l, cl);
      WithinOrder(r, cr);
      if cl.order >= b.order {
        Nested(b, cl, b.addr);
        c := cl;
      } else if cr.order >= b.order {
        Nested(b, cr, r.addr);
        c := cr;
      } else {
        assert false;  // both halves free: buddies
      }
    }
  }

  /** b is a maximal aligned block among the free bytes (of the orders kept). */
  ghost predicate MaximalFree(free: set<Block>, b: Block) {
    Good(b) && MIN_ORDER <= b.order < MAX_ORDER && AllFree(free, b) && !AllFree(free, Parent(b))
  }

  /** The free blocks are exactly the maximal aligned blocks of the free bytes. */
  lemma Canonical(free: set<Block>, lo: nat, hi: nat, b: Block)
    requires AllFit(free, lo, hi) && AllDisjoint(free) && NoBuddies(free)
    ensures b in free <==> MaximalFree(free, b)
  {
    if b in free {
      HalfOf(b);
      assert AllFree(free, b);
      if AllFree(free, Parent(b)) {
        var c := InsideOneFree(free, lo, hi, Parent(b));
        WithinOrder(Parent(b), c);
        assert false;  // b and c overlap
      }
    } else if MaximalFree(free, b) {
      var c := InsideOneFree(free, lo, hi, b);
      WithinOrder(b, c);
      HalfOf(b);
      Nested(Parent(b), c, b.addr);
    }
  }

  /** So the free bytes determine the free blocks. */
  lemma SameBytesSameBlocks(f: set<Block>, g: set<Block>, lo: nat, hi: nat)
    requires AllFit(f, lo, hi) && AllDisjoint(f) && NoBuddies(f)
    requires AllFit(g, lo, hi) && AllDisjoint(g) && NoBuddies(g)
    requires forall x: nat :: Covered(f, x) <==> Covered(g, x)
    ensures f == g
  {
    forall b ensures b in f <==> b in g {
      Canonical(f, lo, hi, b);
      Canonical(g, lo, hi, b);
    }
  }

  /** The bytes of a region are free or used, never both. */
  lemma FreeOrUsed(free: set<Block>, used: set<Block>, lo: nat, hi: nat, x: nat)
    requires Partition(free + used, lo, hi) && free !! used
    ensures Covered(free, x) <==> lo <= x < hi && !Covered(used, x)
  {
    if Covered(free, x) {
      var b := FreeBlockOf(free, x);
      assert b in free + used;
      if Covered(used, x) {
        var c := FreeBlockOf(used, x);
      }
    } else if lo <= x < hi {
      var c := FreeBlockOf(free + used, x);
    }
  }

  /** Replacing two buddies by their parent keeps a tiling. */
  lemma MergePartition(s: set<Block>, lo: nat, hi: nat, b: Block)
    requires Region(lo, hi) && Partition(s, lo, hi)
    requires b in s && Buddy(b) in s
    ensures b.order + 1 < MAX_ORDER
    ensures Partition(s - {b, Buddy(b)} + {Parent(b)}, lo, hi)
    ensures Parent(b) !in s
  {
    HalfOf(b);
    var p := Parent(b);
    var s' := s - {b, Buddy(b)} + {p};
    if b.order + 1 >= MAX_ORDER { assert false; }
    assert Contains(p, b.addr) && Contains(b, b.addr);
    forall c, d | c in s' && d in s' && c != d ensures Disjoint(c, d) {
      if c == p { assert Disjoint(b, d) && Disjoint(Buddy(b), d); }
      if d == p { assert Disjoint(b, c) && Disjoint(Buddy(b), c); }
    }
    forall x: nat | lo <= x < hi ensures Covered(s', x) {
      var c := FreeBlockOf(s, x);
      if c == b || c == Buddy(b) { assert p in s' && Contains(p, x); } else { assert c in s'; }
    }
  }

  /** Replacing a block by its two halves keeps a tiling. */
  lemma SplitPartition(s: set<Block>, lo: nat, hi: nat, a: nat, k: nat)
    requires Partition(s, lo, hi) && k >= MIN_ORDER
    requires Block(a, k + 1) in s
    ensures var l, r := Block(a, k), Block(a + Pow2(k), k);
      l !in s && r !in s && Partition(s - {Block(a, k + 1)} + {l, r}, lo, hi)
  {
    var p, l, r := Block(a, k + 1), Block(a, k), Block(a + Pow2(k), k);
    LeftHalf(a, k);
    HalfOf(l);
    var s' := s - {p} + {l, r};
    assert Contains(p, a) && Contains(l, a) && Contains(p, r.addr) && Contains(r, r.addr);
    forall c, d | c in s' && d in s' && c != d ensures Disjoint(c, d) {
      if c in s && c != p { assert Disjoint(c, p); }
      if d in s && d != p { assert Disjoint(d, p); }
    }
    forall x: nat | lo <= x < hi ensures Covered(s', x) {
      var c := FreeBlockOf(s, x);
      if c == p {
        if Contains(l, x) { assert l in s'; } else { assert r in s' && Contains(r, x); }
      } else { assert c in s'; }
    }
  }
}
