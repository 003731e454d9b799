// kernel/buddy_system_allocator.c, add_to_buddy: cutting a region greedily into
// aligned blocks.
module BuddyRegion {
  import opened Options
  import opened Bits
  import opened PowerOfTwo
  import opened Blocks
  import opened BuddySets
  import opened BuddySpec

  function Min(a: nat, b: nat): nat {
    if a < b then a else b
  }

  /** Bounds under which the cutting is meaningful: word alignment, no NULL, and
      a length that prev_power_of_two can round. */
  ghost predicate Span(cur: nat, end: nat) {
    0 < cur && cur % 8 == 0 && end % 8 == 0 && end < WORD && end <= cur + MAX_SIZE
  }

  function StepOf(lowbit: nat, prev: nat): nat {
    Min(lowbit, Min(prev, Pow2(MAX_ORDER)))
  }

  function StepSize(cur: nat, end: nat): nat
    requires 0 < cur < end < WORD
  {
    StepOf(LowBit(cur), PrevPowerOfTwo(end - cur))
  }

  /** The step is the largest aligned block that starts here and fits, up to 2^30. */
  ghost predicate LargestStep(cur: nat, end: nat, k: nat) {
    && MIN_ORDER <= k <= MAX_ORDER
    && Aligned(cur, k) && cur + Pow2(k) <= end
    && (k < MAX_ORDER ==> !(Aligned(cur, k + 1) && cur + Pow2(k + 1) <= end))
  }

  lemma MinPow2(a: nat, b: nat)
    ensures Min(Pow2(a), Pow2(b)) == Pow2(Min(a, b))
  {
    if a <= b { Pow2Mono(a, b); } else { Pow2Mono(b, a); }
  }

  lemma WordsDivide(a: nat)
    requires a > 0 && a % 8 == 0
    ensures Trailing(a) >= 3 && a >= 8 && Log2(a) >= 3
  {
    assert a % 2 == 0 && (a / 2) % 2 == 0 && (a / 2 / 2) % 2 == 0;
    assert Trailing(a) == 1 + Trailing(a / 2);
    assert Trailing(a / 2) == 1 + Trailing(a / 2 / 2);
    assert Log2(a) == 1 + Log2(a / 2);
    assert Log2(a / 2) == 1 + Log2(a / 2 / 2);
  }

  lemma LowBitOrder(cur: nat, end: nat) returns (t: nat)
    requires cur < end && Span(cur, end)
    ensures LowBit(cur) == Pow2(t) && MIN_ORDER <= t && Aligned(cur, t) && !Aligned(cur, t + 1)
  {
    t := Trailing(cur);
    LowBitIs(cur);
    WordsDivide(cur);
  }

  lemma PrevOrder(cur: nat, end: nat) returns (l: nat)
    requires cur < end && Span(cur, end)
    ensures PrevPowerOfTwo(end - cur) == Pow2(l) && MIN_ORDER <= l && Pow2(l) <= end - cur < Pow2(l + 1)
  {
    hide Log2, Pow2, PrevPowerOfTwo;
    WholeSpan(cur, end);
    var n := end - cur;
    l := Log2(n);
    PrevPowerOfTwoGreatest(n);
    WordsDivide(n);
    Log2Bounds(n);
  }

  lemma StepOfIs(cur: nat, end: nat, t: nat, l: nat)
    requires cur < end && t >= MIN_ORDER && l >= MIN_ORDER
    requires Aligned(cur, t) && !Aligned(cur, t + 1)
    requires Pow2(l) <= end - cur < Pow2(l + 1)
    ensures var k := Min(t, Min(l, MAX_ORDER)); StepOf(Pow2(t), Pow2(l)) == Pow2(k) && LargestStep(cur, end, k)
  {
    MinPow2(l, MAX_ORDER);
    MinPow2(t, Min(l, MAX_ORDER));
    MinIsLargest(cur, end, t, l);
  }

  lemma WholeSpan(cur: nat, end: nat)
    requires cur < end && Span(cur, end)
    ensures (end - cur) % 8 == 0
  {}

  /** The size the code computes is that of the largest step. */
  lemma StepSizeIs(cur: nat, end: nat) returns (k: nat)
    requires cur < end && Span(cur, end)
    ensures StepSize(cur, end) == Pow2(k) && LargestStep(cur, end, k)
  {
    var t := LowBitOrder(cur, end);
    var l := PrevOrder(cur, end);
    k := Min(t, Min(l, MAX_ORDER));
    StepOfIs(cur, end, t, l);
  }

  lemma MinIsLargest(cur: nat, end: nat, t: nat, l: nat)
    requires cur < end && t >= MIN_ORDER && l >= MIN_ORDER
    requires Aligned(cur, t) && !Aligned(cur, t + 1)
    requires Pow2(l) <= end - cur < Pow2(l + 1)
    ensures LargestStep(cur, end, Min(t, Min(l, MAX_ORDER)))
  {
    var k := Min(t, Min(l, MAX_ORDER));
    AlignedWeaken(cur, k, t);
    Pow2Mono(k, l);
  }

  lemma LargestUnique(cur: nat, end: nat, j: nat, k: nat)
    requires LargestStep(cur, end, j) && LargestStep(cur, end, k)
    ensures j == k
  {
    hide Aligned, Pow2;
    if j < k { AlignedWeaken(cur, j + 1, k); Pow2Mono(j + 1, k); }
    if k < j { AlignedWeaken(cur, k + 1, j); Pow2Mono(k + 1, j); }
  }

  lemma WholeWords(k: nat)
    requires k >= MIN_ORDER
    ensures Pow2(k) % 8 == 0
  {
    var p := Pow2(k - 3);
    assert Pow2(k) == 2 * Pow2(k - 1) == 4 * Pow2(k - 2) == 8 * p;
    hide *;
  }

  lemma StepSpan(cur: nat, end: nat, k: nat)
    requires Span(cur, end) && MIN_ORDER <= k && cur + Pow2(k) <= end
    ensures Span(cur + Pow2(k), end)
  {
    hide Pow2;
    WholeWords(k);
  }

  lemma LargestExists(cur: nat, end: nat)
    requires cur < end && Span(cur, end)
    ensures exists k: nat :: LargestStep(cur, end, k)
  {
    var k := StepSizeIs(cur, end);
  }

  /** The order of the largest aligned block at cur that fits before end. */
  ghost function StepOrder(cur: nat, end: nat): (k: nat)
    requires cur < end && Span(cur, end)
    ensures LargestStep(cur, end, k) && Span(cur + Pow2(k), end)
  {
    LargestExists(cur, end);
    var k: nat :| LargestStep(cur, end, k);
    StepSpan(cur, end, k);
    k
  }

  lemma StepSizeOrder(cur: nat, end: nat)
    requires cur < end && Span(cur, end)
    ensures Min(LowBit(cur), Min(PrevPowerOfTwo(end - cur), Pow2(MAX_ORDER))) == Pow2(StepOrder(cur, end))
    ensures Log2(Pow2(StepOrder(cur, end))) == StepOrder(cur, end)
  {
    hide LowBit, PrevPowerOfTwo, Pow2, Log2, LargestStep, Min;
    assert StepSize(cur, end) == StepOf(LowBit(cur), PrevPowerOfTwo(end - cur));
    var k := StepSizeIs(cur, end);
    LargestUnique(cur, end, k, StepOrder(cur, end));
    Log2OfPow2(k);
  }

  /** The free lists after cutting [cur, end) greedily into largest aligned
      blocks; None where the code would index past the last list. */
  ghost function AddRegion(lists: Lists, cur: nat, end: nat): Option<Lists>
    requires Span(cur, end)
    decreases end - cur
  {
    if cur >= end then Some(lists)
    else
      var k := StepOrder(cur, end);
      if k >= |lists| then None else AddRegion(Push(lists, k, cur), cur + Pow2(k), end)
  }

  ghost predicate Hosted(f: set<Block>, b: Block) {
    exists e :: e in f && Within(b, e)
  }

  /** Every aligned block of the region that starts before cur lies in one cut. */
  ghost predicate AllHosted(f: set<Block>, lo: nat, cur: nat, end: nat) {
    forall b :: Good(b) && lo <= b.addr < cur && b.addr + Pow2(b.order) <= end ==> Hosted(f, b)
  }

  lemma StepHosted(f: set<Block>, lo: nat, cur: nat, end: nat, k: nat)
    requires AllHosted(f, lo, cur, end) && LargestStep(cur, end, k) && k < MAX_ORDER
    ensures AllHosted(f + {Block(cur, k)}, lo, cur + Pow2(k), end)
  {
    var e := Block(cur, k);
    forall b | Good(b) && lo <= b.addr < cur + Pow2(k) && b.addr + Pow2(b.order) <= end
      ensures Hosted(f + {e}, b)
    {
      if b.addr < cur {
        assert Hosted(f, b);
      } else if b.order <= k {
        Nested(b, e, b.addr);
      } else {
        Nested(e, b, b.addr);
        AlignedWeaken(cur, k + 1, b.order);
        Pow2Mono(k + 1, b.order);
        assert false;
      }
    }
  }

  lemma StepTiling(lists: Lists, lo: nat, cur: nat, k: nat)
    requires Tiling(lists, {}, lo, cur) && lo <= cur && Aligned(cur, k) && MIN_ORDER <= k < MAX_ORDER
    ensures Tiling(Push(lists, k, cur), {}, lo, cur + Pow2(k))
    ensures FreeSet(Push(lists, k, cur)) == FreeSet(lists) + {Block(cur, k)}
    ensures Bytes(FreeSet(Push(lists, k, cur))) == Bytes(FreeSet(lists)) + Pow2(k)
  {
    var e := Block(cur, k);
    var f := FreeSet(lists);
    assert f + {} == f;
    assert e !in f;
    PushSet(lists, k, cur);
    BytesAdd(f, e);
    var f' := FreeSet(Push(lists, k, cur));
    assert f' + {} == f + {e};
    ExtendPartition(f, lo, cur, k);
  }

  lemma ExtendPartition(f: set<Block>, lo: nat, cur: nat, k: nat)
    requires Partition(f, lo, cur) && lo <= cur && Aligned(cur, k) && MIN_ORDER <= k < MAX_ORDER
    ensures Partition(f + {Block(cur, k)}, lo, cur + Pow2(k))
  {
    var e := Block(cur, k);
    forall x: nat | lo <= x < cur + Pow2(k) ensures Covered(f + {e}, x) {
      if x < cur {
        var b := FreeBlockOf(f, x);
        assert b in f + {e};
      } else {
        assert e in f + {e} && Contains(e, x);
      }
    }
  }

  /** Cutting succeeds when no aligned 2^30-byte block is left; it tiles the
      region with blocks that host every aligned block of it. */
  lemma {:induction false} AddKeeps(lists: Lists, lo: nat, cur: nat, end: nat)
    requires Span(cur, end) && lo <= cur <= end
    requires Tiling(lists, {}, lo, cur) && AllHosted(FreeSet(lists), lo, cur, end)
    ensures AddRegion(lists, cur, end).None? ==> !NoHugeBlock(lo, end)
    ensures AddRegion(lists, cur, end).Some? ==> var r := AddRegion(lists, cur, end).value;
      && Tiling(r, {}, lo, end) && AllHosted(FreeSet(r), lo, end, end)
      && Bytes(FreeSet(r)) == Bytes(FreeSet(lists)) + (end - cur)
    decreases end - cur
  {
    if cur < end {
      var k := StepOrder(cur, end);
      if k < MAX_ORDER {
        AddStep(lists, lo, cur, end, k);
        AddKeeps(Push(lists, k, cur), lo, cur + Pow2(k), end);
      }
    }
  }

  lemma AddStep(lists: Lists, lo: nat, cur: nat, end: nat, k: nat)
    requires lo <= cur && LargestStep(cur, end, k) && k < MAX_ORDER
    requires Tiling(lists, {}, lo, cur) && AllHosted(FreeSet(lists), lo, cur, end)
    ensures var r := Push(lists, k, cur); var cur' := cur + Pow2(k);
      && Tiling(r, {}, lo, cur') && AllHosted(FreeSet(r), lo, cur', end)
      && Bytes(FreeSet(r)) == Bytes(FreeSet(lists)) + Pow2(k)
  {
    StepHosted(FreeSet(lists), lo, cur, end, k);
    StepTiling(lists, lo, cur, k);
  }

  function EmptyLists(): Lists {
    seq(MAX_ORDER, _ => [])
  }

  lemma EmptyTiling(lo: nat, end: nat)
    ensures FreeSet(EmptyLists()) == {} && Tiling(EmptyLists(), {}, lo, lo)
    ensures AllHosted(FreeSet(EmptyLists()), lo, lo, end)
  {}

  lemma HostedNoBuddies(f: set<Block>, lo: nat, hi: nat)
    requires AllFit(f, lo, hi) && AllDisjoint(f) && AllHosted(f, lo, hi, hi)
    ensures NoBuddies(f)
  {
    forall b | b in f && Buddy(b) in f ensures false {
      HalfOf(b);
      HostedParent(f, lo, hi, b);
    }
  }

  lemma HostedParent(f: set<Block>, lo: nat, hi: nat, b: Block)
    requires AllDisjoint(f) && AllHosted(f, lo, hi, hi)
    requires b in f && Good(Parent(b)) && Within(b, Parent(b)) && Parent(b).order == b.order + 1
    ensures !(lo <= Parent(b).addr && Parent(b).addr + Pow2(b.order + 1) <= hi)
  {
    hide BuddyAddr, Aligned, Pow2;
    var p := Parent(b);
    if lo <= p.addr && p.addr + Pow2(p.order) <= hi {
      assert Hosted(f, p);
      var e :| e in f && Within(p, e);
      WithinOrder(p, e);
    }
  }

  /** add_to_buddy on fresh lists stays within the free lists exactly when the
      region holds no aligned block of 2^30 bytes. */
  lemma AddFitsExactly(lo: nat, hi: nat)
    requires Span(lo, hi) && lo <= hi
    ensures AddRegion(EmptyLists(), lo, hi).Some? <==> NoHugeBlock(lo, hi)
  {
    EmptyTiling(lo, hi);
    AddKeeps(EmptyLists(), lo, lo, hi);
    var r := AddRegion(EmptyLists(), lo, hi);
    if r.Some? && !NoHugeBlock(lo, hi) {
      var a: nat :| Aligned(a, MAX_ORDER) && lo <= a && a + Pow2(MAX_ORDER) <= hi;
      var b := Block(a, MAX_ORDER);
      assert Hosted(FreeSet(r.value), b);
      var e :| e in FreeSet(r.value) && Within(b, e);
      WithinOrder(b, e);
    }
  }

  /** A region without such a block spans less than 2^31 bytes. */
  lemma RegionSpan(lo: nat, hi: nat)
    requires Region(lo, hi)
    ensures Span(lo, hi)
  {
    Pow2At30();
    var q := (lo + 0x3fff_ffff) / 0x4000_0000;
    AlignedMultiple(q, MAX_ORDER);
  }

  lemma Pow2At30()
    ensures Pow2(MAX_ORDER) == 0x4000_0000
  {
    assert Pow2(10) == 0x400;
    assert Pow2(20) == 0x10_0000;
  }

  lemma {:induction false} AlignedMultiple(q: nat, k: nat)
    ensures Aligned(q * Pow2(k), k)
  {
    if k > 0 {
      AlignedMultiple(q, k - 1);
      var h := q * Pow2(k - 1);
      assert q * Pow2(k) == 2 * h;
    }
  }

  /** The state after init_buddy and one add_to_buddy satisfies the invariant. */
  lemma InitialInv(lo: nat, hi: nat) returns (h: Heap)
    requires Region(lo, hi)
    ensures Span(lo, hi) && AddRegion(EmptyLists(), lo, hi) == Some(h.lists)
    ensures h.total == hi - lo && h.taken == 0
    ensures Inv(h, {}, lo, hi)
  {
    RegionSpan(lo, hi);
    EmptyTiling(lo, hi);
    AddKeeps(EmptyLists(), lo, lo, hi);
    h := Heap(AddRegion(EmptyLists(), lo, hi).value, hi - lo, 0);
    var f := FreeSet(h.lists);
    assert f + {} == f;
    HostedNoBuddies(f, lo, hi);
  }
}
