// kernel/memory.c: page frames handed out by the buddy allocator.
module Memory {
  import opened Options
  import opened Bits
  import opened PowerOfTwo
  import opened Blocks
  import opened BuddySets
  import opened BuddySpec
  import opened BuddyRegion
  import opened BuddyLinks
  import Buddy
  import Bytes
  import Pte
  import PageTree
  import PageRange
  import AddressSpace

  const PAGE_SIZE: nat := PageRange.PAGE_SIZE
  const PAGE_ORDER: nat := 12
  const KERNEL_MAP_OFFSET: nat := PageRange.KERNEL_MAP_OFFSET

  /** __va(ppn << 12) */
  function FrameAddr(ppn: nat): nat {
    ppn * PAGE_SIZE + KERNEL_MAP_OFFSET
  }

  function Frame(ppn: nat): Block {
    Block(FrameAddr(ppn), PAGE_ORDER)
  }

  lemma PageSize()
    ensures Pow2(11) == 2048 && Pow2(PAGE_ORDER) == PAGE_SIZE
  {
    assert Pow2(6) == 64;
  }

  lemma PageOrder()
    ensures OrderOf(PAGE_SIZE) == PAGE_ORDER && Pow2(PAGE_ORDER) == PAGE_SIZE
  {
    PageSize();
    hide Log2, Pow2, NextPowerOfTwo;
    NextIsRoundUp(PAGE_SIZE);
    Log2Unique(PAGE_SIZE - 1, 11);
    Log2OfPow2(PAGE_ORDER);
  }

  /** A page block's frame number leads back to its address. */
  lemma FrameRoundTrip(p: nat) returns (ppn: nat)
    requires Aligned(p, PAGE_ORDER) && p >= KERNEL_MAP_OFFSET
    ensures ppn == (p - KERNEL_MAP_OFFSET) / PAGE_SIZE && FrameAddr(ppn) == p
  {
    hide Aligned, Pow2;
    var q := AlignedQuotient(p, PAGE_ORDER);
    PageOrder();
    ppn := q - 0xf_ffff_fff0_0000;
    assert FrameAddr(ppn) == p;
  }

  lemma {:induction false} AlignedQuotient(a: nat, k: nat) returns (q: nat)
    requires Aligned(a, k)
    ensures a == q * Pow2(k)
  {
    if k == 0 { q := a; } else {
      q := AlignedQuotient(a / 2, k - 1);
      var h := q * Pow2(k - 1);
      assert a == 2 * h && q * Pow2(k) == 2 * h;
    }
  }

  /** Clear the words of a used page block. */
  method ZeroPage(b: Buddy.Allocator, p: nat)
    requires b.Valid() && Block(p, PAGE_ORDER) in b.used
    modifies b.mem
    ensures b.Valid()
    ensures forall w :: 0 <= w < b.mem.Length && p <= 8 * w < p + PAGE_SIZE ==> b.mem[w] == 0
    ensures forall w :: 0 <= w < b.mem.Length && !(p <= 8 * w < p + PAGE_SIZE) ==> b.mem[w] == old(b.mem[w])
  {
    hide AllLinked, Inv, OnNoList, Pow2, Cell;
    PageInside(b.lists, b.used, b.lo, b.hi, p, b.mem.Length, b.State());
    for i := 0 to 512
      invariant AllLinked(b.mem[..], b.freeList[..], b.lists)
      invariant forall w :: 0 <= w < b.mem.Length && p <= 8 * w < p + 8 * i ==> b.mem[w] == 0
      invariant forall w :: 0 <= w < b.mem.Length && !(p <= 8 * w < p + 8 * i) ==> b.mem[w] == old(b.mem[w])
    {
      ghost var words: seq<nat> := b.mem[..];
      PageWord(b.lists, b.used, b.lo, b.hi, p, i, b.mem.Length, b.State());
      WriteAllLinked(words, b.freeList[..], b.lists, p + 8 * i, 0);
      b.mem[(p + 8 * i) / 8] := 0;
      assert b.mem[..] == words[(p + 8 * i) / 8 := 0];
    }
  }

  lemma PageInside(lists: Lists, used: set<Block>, lo: nat, hi: nat, p: nat, n: nat, h: Heap)
    requires Inv(h, used, lo, hi) && h.lists == lists && Block(p, PAGE_ORDER) in used && hi <= 8 * n
    ensures p % 8 == 0 && Aligned(p, PAGE_ORDER) && lo <= p && p + PAGE_SIZE <= hi && p > 0
  {
    assert Block(p, PAGE_ORDER) in FreeSet(lists) + used;
    PageOrder();
    AlignedWeaken(p, 3, PAGE_ORDER);
    WholeWordsAt(p);
  }

  lemma PageWord(lists: Lists, used: set<Block>, lo: nat, hi: nat, p: nat, i: nat, n: nat, h: Heap)
    requires Inv(h, used, lo, hi) && h.lists == lists && Block(p, PAGE_ORDER) in used && hi <= 8 * n && i < 512
    ensures Cell(n, p + 8 * i) && OnNoList(lists, p + 8 * i) && (p + 8 * i) / 8 == p / 8 + i
  {
    hide Inv, OnNoList, AllLinked, Pow2, Aligned, OrderOf;
    PageInside(lists, used, lo, hi, p, n, h);
    PageContains(p, i);
    InvTiling(h, used, lo, hi);
    UsedOnNoList(lists, used, lo, hi, Block(p, PAGE_ORDER), p + 8 * i);
    PageCell(p, i, hi, n);
  }

  lemma PageContains(p: nat, i: nat)
    requires i < 512
    ensures Contains(Block(p, PAGE_ORDER), p + 8 * i)
  {
    PageOrder();
  }

  lemma PageCell(p: nat, i: nat, hi: nat, n: nat)
    requires p % 8 == 0 && p > 0 && i < 512 && p + PAGE_SIZE <= hi <= 8 * n
    ensures Cell(n, p + 8 * i) && (p + 8 * i) / 8 == p / 8 + i
  {}

  lemma InvTiling(h: Heap, used: set<Block>, lo: nat, hi: nat)
    requires Inv(h, used, lo, hi)
    ensures Tiling(h.lists, used, lo, hi)
  {}

  // ---------- the frames that alloc_frame can hand out ----------

  /** The numbers of the page frames that are wholly free */
  ghost function FreeFrames(free: set<Block>): set<nat> {
    set ppn: nat | ppn < WORD && AllFree(free, Frame(ppn))
  }

  lemma FramesApart(p: nat, q: nat, x: nat)
    requires Contains(Frame(p), x) && Contains(Frame(q), x)
    ensures p == q
  {
    PageOrder();
  }

  lemma FrameStart(ppn: nat)
    ensures Contains(Frame(ppn), FrameAddr(ppn)) && Good(Frame(ppn))
  {
    hide Aligned, Pow2, OrderOf;
    PageOrder();
    AlignedMultiple(ppn + 0xf_ffff_fff0_0000, PAGE_ORDER);
  }

  lemma UsedMore(used: set<Block>, b: Block, x: nat)
    ensures Covered(used + {b}, x) <==> Covered(used, x) || Contains(b, x)
  {
    if Covered(used, x) { var c := FreeBlockOf(used, x); assert c in used + {b}; }
    if Contains(b, x) { assert b in used + {b}; }
  }

  lemma InvParts(h: Heap, used: set<Block>, lo: nat, hi: nat)
    requires Inv(h, used, lo, hi)
    ensures Partition(FreeSet(h.lists) + used, lo, hi) && FreeSet(h.lists) !! used && hi < WORD
    ensures forall b <- used :: Fits(b, lo, hi)
  {}

  /** A byte of a used block is in no other one. */
  lemma UsedOnce(free: set<Block>, used: set<Block>, lo: nat, hi: nat, b: Block, x: nat)
    requires Partition(free + (used + {b}), lo, hi) && b !in used && Contains(b, x)
    ensures !Covered(used, x) && lo <= x < hi
  {
    assert b in free + (used + {b});
    forall c | c in used ensures !Contains(c, x) {
      assert c in free + (used + {b});
    }
  }

  /** Using a block takes exactly its bytes from the free ones. */
  lemma BytesTaken(h: Heap, h': Heap, used: set<Block>, b: Block, lo: nat, hi: nat, x: nat)
    requires Inv(h, used, lo, hi) && Inv(h', used + {b}, lo, hi) && b !in used
    ensures Covered(FreeSet(h'.lists), x) <==> Covered(FreeSet(h.lists), x) && !Contains(b, x)
    ensures Contains(b, x) ==> Covered(FreeSet(h.lists), x)
  {
    hide Inv, Covered, Contains, Partition, FreeSet;
    InvParts(h, used, lo, hi);
    InvParts(h', used + {b}, lo, hi);
    FreeOrUsed(FreeSet(h.lists), used, lo, hi, x);
    FreeOrUsed(FreeSet(h'.lists), used + {b}, lo, hi, x);
    UsedMore(used, b, x);
    if Contains(b, x) { UsedOnce(FreeSet(h'.lists), used, lo, hi, b, x); }
  }

  /** Between the states h, where a frame is free, and h', where it is used, the
      other free frames are the same. */
  lemma FramesTaken(h: Heap, h': Heap, used: set<Block>, ppn: nat, lo: nat, hi: nat)
    requires Inv(h, used, lo, hi) && Inv(h', used + {Frame(ppn)}, lo, hi) && Frame(ppn) !in used
    ensures var f, f' := FreeSet(h.lists), FreeSet(h'.lists);
      ppn in FreeFrames(f) && FreeFrames(f') == FreeFrames(f) - {ppn}
  {
    hide Inv, Covered, Contains, FreeSet, Good;
    var f, f' := FreeSet(h.lists), FreeSet(h'.lists);
    forall x: nat ensures Covered(f', x) <==> Covered(f, x) && !Contains(Frame(ppn), x)
      ensures Contains(Frame(ppn), x) ==> Covered(f, x)
    {
      BytesTaken(h, h', used, Frame(ppn), lo, hi, x);
    }
    FrameStart(ppn);
    UsedBelow(h', used + {Frame(ppn)}, lo, hi, ppn);
    forall q: nat | q != ppn ensures AllFree(f', Frame(q)) <==> AllFree(f, Frame(q)) {
      forall x: nat | Contains(Frame(q), x) ensures Covered(f', x) <==> Covered(f, x) {
        if Contains(Frame(ppn), x) { FramesApart(ppn, q, x); }
      }
    }
    assert !AllFree(f', Frame(ppn));
  }

  lemma UsedBelow(h: Heap, used: set<Block>, lo: nat, hi: nat, ppn: nat)
    requires Inv(h, used, lo, hi) && Frame(ppn) in used
    ensures ppn < WORD
  {
    hide Inv;
    InvParts(h, used, lo, hi);
  }

  /** A wholly free page exists exactly when some frame is free. */
  lemma CandidateFrame(h: Heap, used: set<Block>, lo: nat, hi: nat)
    requires Inv(h, used, lo, hi) && lo >= KERNEL_MAP_OFFSET
    ensures (exists c :: Candidate(h, PAGE_ORDER, c)) <==> FreeFrames(FreeSet(h.lists)) != {}
  {
    hide Inv, Aligned, FreeSet, Pow2;
    var f := FreeSet(h.lists);
    if c :| Candidate(h, PAGE_ORDER, c) {
      PageOrder();
      assert Contains(c, c.addr);
      InvParts(h, used, lo, hi);
      FreeOrUsed(f, used, lo, hi, c.addr);
      var ppn := FrameRoundTrip(c.addr);
      assert Frame(ppn) == c && ppn in FreeFrames(f);
    }
    if ppn :| ppn in FreeFrames(f) {
      FrameStart(ppn);
      assert Candidate(h, PAGE_ORDER, Frame(ppn));
    }
  }

  // ---------- writes stay inside wholly free frames ----------

  ghost predicate InFrames(s: set<nat>, x: nat) {
    exists q :: q in s && Contains(Frame(q), x)
  }

  /** Only words inside frames of s differ. */
  ghost predicate OnlyFrames(before: Words, after: Words, s: set<nat>) {
    |before| == |after| && forall w :: 0 <= w < |before| && before[w] != after[w] ==> InFrames(s, 8 * w)
  }

  /** The frame a byte lies in */
  lemma FrameAt(x: nat) returns (q: nat)
    requires KERNEL_MAP_OFFSET <= x < WORD
    ensures q < WORD && Contains(Frame(q), x) && Good(Frame(q))
  {
    hide Aligned, Pow2;
    PageOrder();
    q := (x - KERNEL_MAP_OFFSET) / PAGE_SIZE;
    FrameStart(q);
  }

  /** b is a block of at least a page, in the region, and wholly free. */
  ghost predicate BigFree(free: set<Block>, b: Block) {
    && Good(b) && PAGE_ORDER <= b.order && KERNEL_MAP_OFFSET <= b.addr && b.addr + Pow2(b.order) <= WORD
    && AllFree(free, b)
  }

  /** A byte of such a block lies in a wholly free frame. */
  lemma BigFrame(free: set<Block>, b: Block, x: nat)
    requires BigFree(free, b) && Contains(b, x)
    ensures InFrames(FreeFrames(free), x)
  {
    hide Aligned, Pow2, Covered;
    var q := FrameAt(x);
    Nested(Frame(q), b, x);
    assert AllFree(free, Frame(q));
    assert q in FreeFrames(free);
  }

  /** Writing in blocks of at least a page only is writing in free frames only. */
  lemma FramesOnly(before: Words, after: Words, f: set<Block>, free: set<Block>)
    requires OnlyWithin(before, after, f) && forall b <- f :: BigFree(free, b)
    ensures OnlyFrames(before, after, FreeFrames(free))
  {
    hide BigFree, FreeFrames, Contains, InFrames;
    forall w | 0 <= w < |before| && before[w] != after[w] ensures InFrames(FreeFrames(free), 8 * w) {
      var b := FreeBlockOf(f, 8 * w);
      BigFrame(free, b, 8 * w);
    }
  }

  lemma FreeBig(h: Heap, used: set<Block>, lo: nat, hi: nat)
    requires Inv(h, used, lo, hi) && lo >= KERNEL_MAP_OFFSET
    ensures forall b <- FreeFrom(h.lists, PAGE_ORDER) :: BigFree(FreeSet(h.lists), b)
  {
    hide Inv, Aligned, Pow2, FreeSet;
    InvParts(h, used, lo, hi);
    var f := FreeSet(h.lists);
    forall b <- FreeFrom(h.lists, PAGE_ORDER) ensures BigFree(f, b) {
      assert b in f + used;
      BlockOf(f, b);
    }
  }

  /** After a page is given back, the blocks written to are free. */
  lemma GivenBig(h: Heap, h': Heap, used: set<Block>, ppn: nat, lo: nat, hi: nat)
    requires Inv(h, used, lo, hi) && Inv(h', used + {Frame(ppn)}, lo, hi) && Frame(ppn) !in used
    requires lo >= KERNEL_MAP_OFFSET
    ensures forall b <- FreeFrom(h'.lists, PAGE_ORDER) + {Frame(ppn)} :: BigFree(FreeSet(h.lists), b)
  {
    hide Inv, Aligned, Pow2, FreeSet, Covered, Contains, FreeFrom;
    InvParts(h', used + {Frame(ppn)}, lo, hi);
    FreeBig(h', used + {Frame(ppn)}, lo, hi);
    forall b <- FreeFrom(h'.lists, PAGE_ORDER) + {Frame(ppn)} ensures BigFree(FreeSet(h.lists), b) {
      assert b == Frame(ppn) || BigFree(FreeSet(h'.lists), b);
      forall x: nat | Contains(b, x) ensures Covered(FreeSet(h.lists), x) {
        BytesTaken(h, h', used, Frame(ppn), lo, hi, x);
      }
    }
  }

  /** Free frames are covered by free blocks. */
  lemma FramesWithin(before: Words, after: Words, free: set<Block>)
    requires OnlyFrames(before, after, FreeFrames(free))
    ensures OnlyWithin(before, after, free)
  {
    hide Covered, Contains;
    forall w | 0 <= w < |before| && before[w] != after[w] ensures Covered(free, 8 * w) {
      var q :| q in FreeFrames(free) && Contains(Frame(q), 8 * w);
      assert AllFree(free, Frame(q));
    }
  }

  // ---------- memory as the contents of page frames ----------

  /** Byte x of memory, where words are little-endian */
  function ByteOf(words: Words, x: nat): (b: nat)
    requires x / 8 < |words|
    ensures b < 256
  {
    words[x / 8] / Pow2(8 * (x % 8)) % 256
  }

  /** The bytes of a word are its little-endian bytes. */
  lemma ByteOfWord(words: Words, w: nat, i: nat)
    requires w < |words| && i < 8
    ensures ByteOf(words, 8 * w + i) == Bytes.ToLe(words[w], 8)[i]
  {
    var v := words[w];
    assert (8 * w + i) / 8 == w && (8 * w + i) % 8 == i;
    hide Bytes.ToLe, Pow2;
    LittleEndian(v, 8, i);
  }

  lemma {:induction false} LittleEndian(v: nat, n: nat, i: nat)
    requires i < n
    ensures Bytes.ToLe(v, n)[i] == v / Pow2(8 * i) % 256
    decreases n
  {
    hide Pow2;
    if i == 0 {
      assert Pow2(0) == 1 by { Pow2Zero(); }
    } else {
      LittleEndian(v / 256, n - 1, i - 1);
      Bytes.Pow2By8(i - 1);
      DivTwice(v, Pow2(8 * (i - 1)));
    }
  }

  lemma Pow2Zero()
    ensures Pow2(0) == 1
  {}

  lemma DivTwice(v: nat, p: nat)
    requires p > 0
    ensures v / 256 / p == v / (256 * p)
  {
    var q := v / 256 / p;
    var r := v / 256 - p * q;
    assert v == 256 * (p * q + r) + v % 256 && r < p;
    assert 256 * (p * q) == 256 * p * q;
    DivIs(v, 256 * p, q, 256 * r + v % 256);
  }

  lemma DivIs(v: nat, m: nat, q: nat, r: nat)
    requires m > 0 && v == m * q + r && r < m
    ensures v / m == q
  {
    var k, s := v / m, v % m;
    assert v == m * k + s;
    SameQuotient(m, k, s, q, r);
  }

  lemma SameQuotient(m: nat, k: nat, s: nat, q: nat, r: nat)
    requires m * k + s == m * q + r && s < m && r < m
    ensures k == q
  {
    if k < q { MulGap(m, k, q); } else if q < k { MulGap(m, q, k); }
  }

  lemma MulGap(m: nat, k: nat, q: nat)
    requires k < q
    ensures m * q >= m * k + m
  {
    assert m * q == m * k + m * (q - k);
    assert m * (q - k) == m + m * (q - k - 1);
  }

  function PageAt(words: Words, ppn: nat): Pte.Page
    requires FrameAddr(ppn) + PAGE_SIZE <= 8 * |words|
  {
    var p := seq(PAGE_SIZE, (i: nat) requires i < PAGE_SIZE => ByteOf(words, FrameAddr(ppn) + i));
    assert forall i: nat :: i < PAGE_SIZE ==> p[i] == ByteOf(words, FrameAddr(ppn) + i);
    p
  }

  /** The page frames of the region */
  ghost function FramesIn(lo: nat, hi: nat): set<nat> {
    set ppn: nat | ppn < WORD && lo <= FrameAddr(ppn) && FrameAddr(ppn) + PAGE_SIZE <= hi
  }

  ghost function PagesOf(words: Words, lo: nat, hi: nat): PageTree.Mem
    requires hi <= 8 * |words|
  {
    map ppn | ppn in FramesIn(lo, hi) :: PageAt(words, ppn)
  }

  lemma WordOf(a: nat, q: nat, i: nat)
    requires a == 8 * q
    ensures a <= 8 * ((a + i) / 8) <= a + i
  {
    assert (a + i) / 8 == q + i / 8;
  }

  /** The word of byte i of a frame lies in the frame. */
  lemma FrameWord(ppn: nat, i: nat)
    requires i < PAGE_SIZE
    ensures var p := FrameAddr(ppn); p <= 8 * ((p + i) / 8) < p + PAGE_SIZE
    ensures Contains(Frame(ppn), 8 * ((FrameAddr(ppn) + i) / 8))
  {
    hide Pow2;
    PageOrder();
    WordOf(FrameAddr(ppn), ppn * 512 + 0x1fff_ffff_e000_0000, i);
  }

  /** A frame outside those written keeps its contents. */
  lemma PageSame(before: Words, after: Words, s: set<nat>, ppn: nat)
    requires OnlyFrames(before, after, s) && ppn !in s && FrameAddr(ppn) + PAGE_SIZE <= 8 * |before|
    ensures PageAt(after, ppn) == PageAt(before, ppn)
  {
    hide Contains, FrameAddr, Pow2;
    var p, q := PageAt(before, ppn), PageAt(after, ppn);
    forall i: nat | i < PAGE_SIZE ensures q[i] == p[i] {
      var w := (FrameAddr(ppn) + i) / 8;
      FrameWord(ppn, i);
      if before[w] != after[w] {
        var r :| r in s && Contains(Frame(r), 8 * w);
        FramesApart(r, ppn, 8 * w);
      }
    }
  }

  lemma PagesKeep(before: Words, after: Words, lo: nat, hi: nat, s: set<nat>)
    requires OnlyFrames(before, after, s) && hi <= 8 * |before|
    ensures PageTree.Keeps(PagesOf(before, lo, hi), PagesOf(after, lo, hi), s)
  {
    hide PageAt, OnlyFrames;
    SameLength(before, after, s);
    forall ppn | ppn in FramesIn(lo, hi) && ppn !in s ensures PageAt(after, ppn) == PageAt(before, ppn) {
      PageSame(before, after, s, ppn);
    }
  }

  lemma SameLength(before: Words, after: Words, s: set<nat>)
    requires OnlyFrames(before, after, s)
    ensures |before| == |after|
  {}

  lemma PageZero(words: Words, ppn: nat)
    requires FrameAddr(ppn) + PAGE_SIZE <= 8 * |words|
    requires var p := FrameAddr(ppn); forall w :: 0 <= w < |words| && p <= 8 * w < p + PAGE_SIZE ==> words[w] == 0
    ensures PageAt(words, ppn) == Pte.ZeroPage()
  {
    hide Pow2, FrameAddr;
    var p := PageAt(words, ppn);
    forall i: nat | i < PAGE_SIZE ensures p[i] == 0 {
      FrameWord(ppn, i);
      assert words[(FrameAddr(ppn) + i) / 8] == 0;
    }
  }

  /** Free frames are frames of the region, with 44-bit numbers. */
  lemma FreeFramesOk(h: Heap, used: set<Block>, lo: nat, hi: nat, words: Words)
    requires Inv(h, used, lo, hi) && hi <= 8 * |words|
    ensures AddressSpace.FreeOk(PagesOf(words, lo, hi), FreeFrames(FreeSet(h.lists)))
  {
    hide Inv, FreeSet, Pow2, Covered, PageAt;
    var f := FreeSet(h.lists);
    PageOrder();
    InvParts(h, used, lo, hi);
    forall ppn | ppn in FreeFrames(f) ensures ppn in FramesIn(lo, hi) && ppn < Pte.PPN_LIMIT {
      var p := FrameAddr(ppn);
      assert AllFree(f, Frame(ppn)) && Contains(Frame(ppn), p) && Contains(Frame(ppn), p + (PAGE_SIZE - 1));
      FreeOrUsed(f, used, lo, hi, p);
      FreeOrUsed(f, used, lo, hi, p + (PAGE_SIZE - 1));
    }
  }

  // ---------- the frame allocator ----------

  /** alloc_frame: a zeroed page that nobody held before; None where the code
      panics, which is exactly when no wholly free aligned page exists.  On page
      contents and free frames this is the contract that the page tables assume. */
  method AllocFrame(b: Buddy.Allocator) returns (r: Option<nat>)
    requires b.Valid() && b.lo >= KERNEL_MAP_OFFSET
    modifies b, b.mem, b.freeList
    ensures b.Valid() && b.lo == old(b.lo) && b.hi == old(b.hi)
    ensures r.None? <==> FreeFrames(old(FreeSet(b.lists))) == {}
    ensures r.Some? ==> r.value in FreeFrames(old(FreeSet(b.lists)))
    ensures r.Some? ==> FreeFrames(FreeSet(b.lists)) == FreeFrames(old(FreeSet(b.lists))) - {r.value}
    ensures r.None? ==> b.State() == old(b.State()) && b.mem[..] == old(b.mem[..])
    ensures r.Some? ==> Frame(r.value) !in old(b.used) && b.used == old(b.used) + {Frame(r.value)}
    ensures r.Some? ==> var p := FrameAddr(r.value);
      forall w :: 0 <= w < b.mem.Length && p <= 8 * w < p + PAGE_SIZE ==> b.mem[w] == 0
    ensures r.None? ==> b.used == old(b.used)
    ensures OnlyWithin(old(b.mem[..]), b.mem[..], FreeSet(old(b.lists)))
    ensures OnlyFrames(old(b.mem[..]), b.mem[..], FreeFrames(old(FreeSet(b.lists))))
    ensures AddressSpace.FrameTaken(PagesOf(old(b.mem[..]), b.lo, b.hi), FreeFrames(old(FreeSet(b.lists))),
                                    PagesOf(b.mem[..], b.lo, b.hi), FreeFrames(FreeSet(b.lists)), r)
  {
    hide AllLinked, Inv, NextPowerOfTwo, OrderOf, Pow2, Candidate, BuddySpec.Alloc, Aligned, OnlyWithin, OnlyFrames,
      FreeFrames, FreeFrom, FreeSet, PagesOf, Pte.ZeroPage, PageTree.Keeps, AddressSpace.FreeOk;
    PageOrder();
    ghost var h := b.State();
    ghost var used := b.used;
    ghost var before: seq<nat> := b.mem[..];
    AllocKeepsValid(h, used, b.lo, b.hi);
    FreeBig(h, used, b.lo, b.hi);
    CandidateFrame(h, used, b.lo, b.hi);
    var p := b.Alloc(PAGE_SIZE);
    ghost var middle: seq<nat> := b.mem[..];
    FramesOnly(before, middle, FreeFrom(h.lists, PAGE_ORDER), FreeSet(h.lists));
    FreeFramesOk(b.State(), b.used, b.lo, b.hi, middle);
    FramesWithin(before, middle, FreeSet(h.lists));
    PagesKeep(before, middle, b.lo, b.hi, FreeFrames(FreeSet(h.lists)));
    if p == NULL { return None; }
    PageInside(b.lists, b.used, b.lo, b.hi, p, b.mem.Length, b.State());
    var ppn := FrameRoundTrip(p);
    FramesTaken(h, b.State(), used, ppn, b.lo, b.hi);
    ZeroPage(b, p);
    AfterZero(before, middle, b.mem[..], FreeFrames(FreeSet(h.lists)), ppn);
    FreeFramesOk(b.State(), b.used, b.lo, b.hi, b.mem[..]);
    FramesWithin(before, b.mem[..], FreeSet(h.lists));
    PagesKeep(before, b.mem[..], b.lo, b.hi, FreeFrames(FreeSet(h.lists)));
    UsedBelow(b.State(), b.used, b.lo, b.hi, ppn);
    ZeroedFrame(b.mem[..], b.lo, b.hi, ppn);
    r := Some((p - KERNEL_MAP_OFFSET) / PAGE_SIZE);
  }

  lemma AfterZero(before: Words, middle: Words, after: Words, s: set<nat>, ppn: nat)
    requires OnlyFrames(before, middle, s) && ppn in s && |after| == |middle|
    requires var p := FrameAddr(ppn);
      forall w :: 0 <= w < |middle| && !(p <= 8 * w < p + PAGE_SIZE) ==> after[w] == middle[w]
    ensures OnlyFrames(before, after, s)
  {
    hide Pow2;
    PageOrder();
    forall w | 0 <= w < |before| && before[w] != after[w] ensures InFrames(s, 8 * w) {
      if FrameAddr(ppn) <= 8 * w < FrameAddr(ppn) + PAGE_SIZE { assert Contains(Frame(ppn), 8 * w); }
    }
  }

  lemma ZeroedFrame(words: Words, lo: nat, hi: nat, ppn: nat)
    requires hi <= 8 * |words| && lo <= FrameAddr(ppn) && FrameAddr(ppn) + PAGE_SIZE <= hi && ppn < WORD
    requires var p := FrameAddr(ppn); forall w :: 0 <= w < |words| && p <= 8 * w < p + PAGE_SIZE ==> words[w] == 0
    ensures ppn in PagesOf(words, lo, hi) && PagesOf(words, lo, hi)[ppn] == Pte.ZeroPage()
  {
    hide PageAt;
    PageZero(words, ppn);
  }

  lemma AllocKeepsValid(h: Heap, used: set<Block>, lo: nat, hi: nat)
    requires Inv(h, used, lo, hi)
    ensures var (h', p) := BuddySpec.Alloc(h, PAGE_ORDER);
      && (p == NULL <==> !exists c :: Candidate(h, PAGE_ORDER, c))
      && (p == NULL ==> h' == h)
      && (p != NULL ==> Block(p, PAGE_ORDER) !in used && AllFree(FreeSet(h.lists), Block(p, PAGE_ORDER)))
  {
    AllocKeeps(h, used, lo, hi, PAGE_ORDER);
    AllocComplete(h, used, lo, hi, PAGE_ORDER);
  }

  /** dealloc_frame */
  method DeallocFrame(b: Buddy.Allocator, ppn: nat)
    requires b.Valid() && Frame(ppn) in b.used
    modifies b, b.mem, b.freeList
    ensures b.Valid() && b.lo == old(b.lo) && b.hi == old(b.hi)
    ensures b.used == old(b.used) - {Frame(ppn)}
    ensures ppn !in FreeFrames(old(FreeSet(b.lists)))
    ensures FreeFrames(FreeSet(b.lists)) == FreeFrames(old(FreeSet(b.lists))) + {ppn}
    ensures OnlyWithin(old(b.mem[..]), b.mem[..], old(FreeSet(b.lists)) + {Frame(ppn)})
    ensures b.lo >= KERNEL_MAP_OFFSET ==> OnlyFrames(old(b.mem[..]), b.mem[..], FreeFrames(FreeSet(b.lists)))
    ensures b.lo >= KERNEL_MAP_OFFSET ==>
      AddressSpace.FrameGiven(PagesOf(old(b.mem[..]), b.lo, b.hi), FreeFrames(old(FreeSet(b.lists))),
                              PagesOf(b.mem[..], b.lo, b.hi), FreeFrames(FreeSet(b.lists)), ppn)
  {
    hide AllLinked, Inv, NextPowerOfTwo, OrderOf, Pow2, FreeFrames, FreeSet, FreeFrom, OnlyWithin, OnlyFrames, PagesOf,
      PageTree.Keeps, AddressSpace.FreeOk;
    PageOrder();
    ghost var h, used := b.State(), b.used;
    ghost var before: seq<nat> := b.mem[..];
    b.Dealloc(ppn * PAGE_SIZE + KERNEL_MAP_OFFSET, PAGE_SIZE);
    assert used == b.used + {Frame(ppn)};
    FramesTaken(b.State(), h, b.used, ppn, b.lo, b.hi);
    FromWithin(before, b.mem[..], h.lists, PAGE_ORDER, Frame(ppn));
    if b.lo >= KERNEL_MAP_OFFSET {
      GivenBig(b.State(), h, b.used, ppn, b.lo, b.hi);
      FramesOnly(before, b.mem[..], FreeFrom(h.lists, PAGE_ORDER) + {Frame(ppn)}, FreeSet(b.lists));
      FreeFramesOk(b.State(), b.used, b.lo, b.hi, b.mem[..]);
      PagesKeep(before, b.mem[..], b.lo, b.hi, FreeFrames(FreeSet(b.lists)));
    }
  }

  lemma FromWithin(before: Words, after: Words, lists: Lists, k: nat, b: Block)
    requires OnlyWithin(before, after, FreeFrom(lists, k) + {b})
    ensures OnlyWithin(before, after, FreeSet(lists) + {b})
  {
    hide FreeSet, Contains;
    forall w | 0 <= w < |before| && before[w] != after[w] ensures Covered(FreeSet(lists) + {b}, 8 * w) {
      var c := FreeBlockOf(FreeFrom(lists, k) + {b}, 8 * w);
      assert c in FreeSet(lists) + {b};
    }
  }

  // ---------- the type field of an open file ----------

  const FILE_SIZE: nat := 24  // sizeof(struct File)
  const FILE_STDIO: nat := 1

  /** The field type is in the low 16 bits of the first word. */
  function TypeField(word: nat): nat {
    word % 0x1_0000
  }

  /** The field count is in the high 32 bits of the same word. */
  function WithCount(word: nat, count: nat): nat {
    word % 0x1_0000_0000 + count * 0x1_0000_0000
  }

  lemma LinkIsNotStdio(word: nat, count: nat)
    requires word % 8 == 0
    ensures TypeField(word) != FILE_STDIO && TypeField(WithCount(word, count)) == TypeField(word)
  {
    hide *;
    var low, high := word % 0x1_0000_0000, word / 0x1_0000_0000;
    assert word == low + high * 0x1_0000_0000;
    LowHalf(low, high);
    LowHalf(low, count);
    EvenLow(word / 8, word / 0x1_0000, word % 0x1_0000);
    TypeIs(word);
    TypeIs(WithCount(word, count));
    CountIs(word, count);
  }

  lemma TypeIs(word: nat)
    ensures TypeField(word) == word % 0x1_0000
  {}

  lemma CountIs(word: nat, count: nat)
    ensures WithCount(word, count) == word % 0x1_0000_0000 + count * 0x1_0000_0000
  {}

  lemma EvenLow(q: nat, h: nat, r: nat)
    requires 8 * q == 0x1_0000 * h + r
    ensures r != FILE_STDIO
  {}

  lemma LowHalf(w: nat, count: nat)
    ensures (w + count * 0x1_0000_0000) % 0x1_0000 == w % 0x1_0000
  {
    assert w + count * 0x1_0000_0000 == w + 0x1_0000 * (count * 0x1_0000);
  }

  /** alloc of a struct File in sys_open, which sets count, off and inode, but not
      type: what the allocator leaves there, a link or NULL, is never FILE_STDIO. */
  method AllocFile(b: Buddy.Allocator) returns (p: nat)
    requires b.Valid()
    modifies b, b.mem, b.freeList
    ensures b.Valid() && b.lo == old(b.lo) && b.hi == old(b.hi)
    ensures p != NULL ==> Block(p, OrderOf(FILE_SIZE)) !in old(b.used) && Block(p, OrderOf(FILE_SIZE)) in b.used
    ensures p != NULL ==> p / 8 < b.mem.Length && TypeField(b.mem[p / 8]) != FILE_STDIO
    ensures p != NULL ==> forall count: nat :: TypeField(WithCount(b.mem[p / 8], count)) != FILE_STDIO
  {
    hide AllLinked, Inv, NextPowerOfTwo, OrderOf, Pow2, Candidate, BuddySpec.Alloc, OnlyWithin, FreeFrom, TypeField,
      WithCount;
    ghost var h, used := b.State(), b.used;
    p := b.Alloc(FILE_SIZE);
    if p != NULL {
      TakenNew(h, used, b.lo, b.hi, OrderOf(FILE_SIZE), p);
      forall count: nat ensures TypeField(WithCount(b.mem[p / 8], count)) != FILE_STDIO {
        LinkIsNotStdio(b.mem[p / 8], count);
      }
      LinkIsNotStdio(b.mem[p / 8], 0);
    }
  }

  lemma TakenNew(h: Heap, used: set<Block>, lo: nat, hi: nat, order: nat, p: nat)
    requires Inv(h, used, lo, hi) && order == OrderOf(FILE_SIZE) && p == BuddySpec.Alloc(h, order).1 != NULL
    ensures Block(p, order) !in used
  {
    hide Inv, OrderOf, BuddySpec.Alloc, Candidate;
    AdjustedPow2(FILE_SIZE);
    AllocKeeps(h, used, lo, hi, order);
  }
}
