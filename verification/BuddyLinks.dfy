// kernel/buddy_system_allocator.h: the free lists as chains of links that are
// stored in the first word of each free block.  Memory is a sequence of 64-bit
// words; the word at byte address a has index a / 8.
module BuddyLinks {
  import opened Sequences
  import opened Options
  import opened Bits
  import opened Blocks
  import opened BuddySets
  import opened BuddySpec
  import opened BuddyRegion

  type Words = seq<nat>

  /** a is the address of one of n words of memory, and not NULL. */
  predicate Cell(n: nat, a: nat) {
    a != NULL && a % 8 == 0 && a / 8 < n
  }

  function At(l: seq<nat>, i: nat): nat {
    if i < |l| then l[i] else NULL
  }

  /** Starting at head and following links visits exactly l, then NULL. */
  ghost predicate Linked(words: Words, head: nat, l: seq<nat>) {
    && head == At(l, 0)
    && forall i :: 0 <= i < |l| ==> Cell(|words|, l[i]) && words[l[i] / 8] == At(l, i + 1)
  }

  ghost predicate AllLinked(words: Words, heads: seq<nat>, lists: Lists) {
    |heads| == |lists| && forall k :: 0 <= k < |lists| ==> Linked(words, heads[k], lists[k])
  }

  /** Address a is on no free list. */
  ghost predicate OnNoList(lists: Lists, a: nat) {
    forall k :: 0 <= k < |lists| ==> a !in lists[k]
  }

  /** No address is on two lists or twice on one. */
  ghost predicate Apart(lists: Lists) {
    && (forall k :: 0 <= k < |lists| ==> Distinct(lists[k]))
    && forall j, k :: 0 <= j < k < |lists| ==> forall a :: a in lists[j] ==> a !in lists[k]
  }

  lemma TilingApart(lists: Lists, used: set<Block>, lo: nat, hi: nat)
    requires Tiling(lists, used, lo, hi)
    ensures Apart(lists)
  {
    forall j, k, a | 0 <= j < k < |lists| && a in lists[j] ensures a !in lists[k] {
      var b, c := Block(a, j), Block(a, k);
      assert b in FreeSet(lists) + used;
      assert c in FreeSet(lists) ==> c in FreeSet(lists) + used;
    }
  }

  /** No address inside a used block is on a list. */
  lemma UsedOnNoList(lists: Lists, used: set<Block>, lo: nat, hi: nat, b: Block, a: nat)
    requires Tiling(lists, used, lo, hi) && b in used && Contains(b, a)
    ensures OnNoList(lists, a)
  {
    forall k | 0 <= k < |lists| ensures a !in lists[k] {
      var c := Block(a, k);
      assert b in FreeSet(lists) + used;
      assert c in FreeSet(lists) ==> c in FreeSet(lists) + used;
    }
  }

  /** Writing a word that is on no list keeps the lists. */
  lemma WriteAllLinked(words: Words, heads: seq<nat>, lists: Lists, a: nat, v: nat)
    requires AllLinked(words, heads, lists) && OnNoList(lists, a) && Cell(|words|, a)
    ensures AllLinked(words[a / 8 := v], heads, lists)
  {
    forall k | 0 <= k < |lists| ensures Linked(words[a / 8 := v], heads[k], lists[k]) {
      WriteLinked(words, heads[k], lists[k], a, v);
    }
  }

  lemma WriteLinked(words: Words, head: nat, l: seq<nat>, a: nat, v: nat)
    requires Linked(words, head, l) && Cell(|words|, a) && a !in l
    ensures Linked(words[a / 8 := v], head, l)
  {
    forall i | 0 <= i < |l| ensures l[i] / 8 != a / 8 { assert l[i] != a; }
  }

  lemma PushLinked(words: Words, heads: seq<nat>, lists: Lists, k: nat, a: nat)
    requires AllLinked(words, heads, lists) && k < |lists|
    requires Cell(|words|, a) && OnNoList(lists, a)
    ensures AllLinked(words[a / 8 := heads[k]], heads[k := a], Push(lists, k, a))
  {
    var words', heads', lists' := words[a / 8 := heads[k]], heads[k := a], Push(lists, k, a);
    forall j | 0 <= j < |lists| ensures Linked(words', heads'[j], lists'[j]) {
      WriteLinked(words, heads[j], lists[j], a, heads[k]);
      if j == k { ConsLinked(words', a, heads[k], lists[k]); }
    }
  }

  lemma ConsLinked(words: Words, a: nat, head: nat, l: seq<nat>)
    requires Linked(words, head, l) && Cell(|words|, a) && words[a / 8] == head
    ensures Linked(words, a, [a] + l)
  {
    var l' := [a] + l;
    forall i | 0 <= i < |l'| ensures Cell(|words|, l'[i]) && words[l'[i] / 8] == At(l', i + 1) {
      if i > 0 { assert l'[i] == l[i - 1]; assert At(l', i + 1) == At(l, i); }
    }
  }

  lemma PopLinked(words: Words, heads: seq<nat>, lists: Lists, k: nat)
    requires AllLinked(words, heads, lists) && k < |lists| && lists[k] != []
    ensures heads[k] == lists[k][0] && Cell(|words|, heads[k]) && words[heads[k] / 8] % 8 == 0
    ensures AllLinked(words, heads[k := words[heads[k] / 8]], Pop(lists, k))
  {
    var l := lists[k];
    assert Linked(words, heads[k], l);
    TailLinked(words, l[0], l);
    assert words[l[0] / 8] == At(l, 1) && (|l| > 1 ==> Cell(|words|, l[1]));
  }

  lemma TailLinked(words: Words, head: nat, l: seq<nat>)
    requires Linked(words, head, l) && l != []
    ensures Linked(words, words[head / 8], l[1..])
  {
    var t := l[1..];
    forall i | 0 <= i < |t| ensures Cell(|words|, t[i]) && words[t[i] / 8] == At(t, i + 1) {
      assert t[i] == l[i + 1];
      assert At(t, i + 1) == At(l, i + 2);
    }
  }

  /** Element i, not the first, cut out of a list. */
  function CutAt(l: seq<nat>, i: nat): seq<nat>
    requires 0 < i < |l|
  {
    l[..i] + l[i + 1..]
  }

  lemma CutAtIndex(l: seq<nat>, i: nat, j: nat)
    requires 0 < i < |l| && j < |l| - 1
    ensures var l' := CutAt(l, i); var m := if j < i then j else j + 1;
      l'[j] == l[m] && At(l', j + 1) == At(l, if j + 1 == i then i + 1 else m + 1)
  {}

  lemma CutLinked(words: Words, head: nat, l: seq<nat>, i: nat)
    requires Linked(words, head, l) && Distinct(l) && 0 < i < |l|
    ensures Linked(words[l[i - 1] / 8 := words[l[i] / 8]], head, CutAt(l, i))
  {
    hide CutAt;
    var a := l[i - 1];
    var w := a / 8;
    var words' := words[w := words[l[i] / 8]];
    var l' := CutAt(l, i);
    assert words[l[i] / 8] == At(l, i + 1);
    assert |l'| == |l| - 1 by { CutAtLength(l, i); }
    CutAtIndex(l, i, 0);
    forall j: nat | j < |l'| ensures Cell(|words|, l'[j]) && words'[l'[j] / 8] == At(l', j + 1) {
      var m := if j < i then j else j + 1;
      CutAtIndex(l, i, j);
      if m != i - 1 { OtherWord(l[m], a); }
    }
  }

  lemma CutAtLength(l: seq<nat>, i: nat)
    requires 0 < i < |l|
    ensures |CutAt(l, i)| == |l| - 1 && CutAt(l, i)[0] == l[0]
  {}

  lemma OtherWord(a: nat, b: nat)
    requires a % 8 == 0 && b % 8 == 0 && a != b
    ensures a / 8 != b / 8
  {}

  lemma UnlinkLinked(words: Words, heads: seq<nat>, lists: Lists, k: nat, i: nat)
    requires AllLinked(words, heads, lists) && Apart(lists) && k < |lists| && 0 < i < |lists[k]|
    ensures Cell(|words|, lists[k][i - 1]) && Cell(|words|, lists[k][i])
    ensures AllLinked(words[lists[k][i - 1] / 8 := words[lists[k][i] / 8]], heads, lists[k := CutAt(lists[k], i)])
  {
    var l := lists[k];
    assert Linked(words, heads[k], l);
    var a := l[i - 1];
    var v := words[l[i] / 8];
    forall j | 0 <= j < |lists| ensures Linked(words[a / 8 := v], heads[j], lists[k := CutAt(l, i)][j]) {
      assert Linked(words, heads[j], lists[j]);
      if j == k { CutLinked(words, heads[k], l, i); } else {
        assert a in lists[k];
        WriteLinked(words, heads[j], lists[j], a, v);
      }
    }
  }

  lemma {:induction false} WithoutIsCut(l: seq<nat>, i: nat)
    requires Distinct(l) && i < |l|
    ensures Without(l, l[i]) == l[..i] + l[i + 1..]
  {
    if i > 0 {
      var t := l[1..];
      assert t[i - 1] == l[i];
      WithoutIsCut(t, i - 1);
      assert Without(l, l[i]) == [l[0]] + Without(t, l[i]);
      assert l[..i] == [l[0]] + t[..i - 1];
      assert t[i..] == l[i + 1..];
    }
  }

  lemma CutIsWithout(l: seq<nat>, i: nat)
    requires Distinct(l) && 0 < i < |l|
    ensures CutAt(l, i) == [l[0]] + Without(l[1..], l[i])
  {
    var t := l[1..];
    assert t[i - 1] == l[i];
    WithoutIsCut(t, i - 1);
    assert l[..i] == [l[0]] + t[..i - 1];
    assert t[i..] == l[i + 1..];
  }

  lemma HeadOf(words: Words, heads: seq<nat>, lists: Lists, k: nat)
    requires AllLinked(words, heads, lists) && k < |lists| && lists[k] != []
    ensures Linked(words, heads[k], lists[k]) && heads[k] == lists[k][0]
  {
    assert Linked(words, heads[k], lists[k]);
  }

  /** Stepping to the next block of a list. */
  lemma NextOf(words: Words, head: nat, l: seq<nat>, i: nat)
    requires Linked(words, head, l) && i < |l|
    ensures l[i] / 8 < |words| && words[l[i] / 8] == At(l, i + 1)
    ensures At(l, i + 1) != NULL <==> i + 1 < |l|
  {
    if i + 1 < |l| { assert Cell(|words|, l[i + 1]); }
  }

  // ---------- which words may be written ----------

  /** Only words inside blocks of f differ. */
  ghost predicate OnlyWithin(before: Words, after: Words, f: set<Block>) {
    |before| == |after| && forall w :: 0 <= w < |before| && before[w] != after[w] ==> Covered(f, 8 * w)
  }

  lemma ReflWithin(words: Words, f: set<Block>)
    ensures OnlyWithin(words, words, f)
  {}

  lemma WriteWithin(before: Words, words: Words, f: set<Block>, a: nat, v: nat)
    requires OnlyWithin(before, words, f) && Cell(|words|, a) && Covered(f, a)
    ensures OnlyWithin(before, words[a / 8 := v], f)
  {
    forall w | 0 <= w < |before| && before[w] != words[a / 8 := v][w] ensures Covered(f, 8 * w) {
      if w == a / 8 { assert 8 * w == a; }
    }
  }

  /** So the words of a block that overlaps none of f are unchanged. */
  lemma OthersUnchanged(before: Words, after: Words, f: set<Block>, b: Block)
    requires OnlyWithin(before, after, f)
    requires forall c :: c in f ==> Disjoint(b, c)
    ensures forall w :: 0 <= w < |before| && Contains(b, 8 * w) ==> after[w] == before[w]
  {
    forall w | 0 <= w < |before| && Contains(b, 8 * w) ensures after[w] == before[w] {
      assert forall c :: c in f ==> !Contains(c, 8 * w);
    }
  }

  /** The free blocks of order k and above */
  ghost function FreeFrom(lists: Lists, k: nat): set<Block> {
    set b | b in FreeSet(lists) && k <= b.order
  }

  /** So allocation and deallocation leave the contents of the blocks held alone. */
  lemma HeldUnchanged(h: Heap, used: set<Block>, lo: nat, hi: nat, b: Block, before: Words, after: Words, k: nat)
    requires Inv(h, used, lo, hi) && b in used && OnlyWithin(before, after, FreeFrom(h.lists, k))
    ensures forall w :: 0 <= w < |before| && Contains(b, 8 * w) ==> after[w] == before[w]
  {
    var f := FreeSet(h.lists);
    assert forall c :: c in f ==> c in f + used && b in f + used && c != b;
    OthersUnchanged(before, after, FreeFrom(h.lists, k), b);
  }

  // ---------- the addresses the operations touch ----------

  /** Splitting the head of list i writes two words of blocks of f that are on
      no list when they are written. */
  ghost predicate SplitReady(n: nat, lists: Lists, i: nat, f: set<Block>)
    requires 0 < i < |lists| && lists[i] != []
  {
    var a := lists[i][0]; var r := a + Pow2(i - 1); var l1 := Pop(lists, i);
    && Cell(n, a) && Cell(n, r) && Covered(f, a) && Covered(f, r)
    && OnNoList(l1, r) && OnNoList(Push(l1, i - 1, r), a)
  }

  lemma SplitCells(n: nat, lists: Lists, used: set<Block>, lo: nat, hi: nat, i: nat, f: set<Block>)
    requires Tiling(lists, used, lo, hi) && 0 < lo && hi <= 8 * n
    requires MIN_ORDER < i < |lists| && lists[i] != [] && AllFree(f, Block(lists[i][0], i))
    ensures SplitReady(n, lists, i, f) && AllFree(f, Block(lists[i][0], i - 1))
  {
    var a := lists[i][0];
    var r := a + Pow2(i - 1);
    var b := Block(a, i);
    ListsAligned(lists, used, lo, hi);
    TilingApart(lists, used, lo, hi);
    WordAddresses(a, i);
    assert Contains(b, a) && Contains(b, r);
    assert b in FreeSet(lists) + used;
    forall k | 0 <= k < |lists| ensures r !in lists[k] {
      var c := Block(r, k);
      assert c in FreeSet(lists) ==> c in FreeSet(lists) + used && c != b;
    }
    assert OnNoList(Pop(lists, i), a) by {
      assert lists[i] == [a] + lists[i][1..];
    }
  }

  lemma WordAddresses(a: nat, i: nat)
    requires Aligned(a, i) && i > MIN_ORDER
    ensures a % 8 == 0 && (a + Pow2(i - 1)) % 8 == 0
  {
    AlignedWeaken(a, 3, i);
    WholeWordsAt(a);
    AlignedWeaken(a, i - 1, i);
    AlignedAdd(a, i - 1);
    AlignedWeaken(a + Pow2(i - 1), 3, i - 1);
    WholeWordsAt(a + Pow2(i - 1));
  }

  lemma AlignedHalf(a: nat, k: nat)
    requires Aligned(a, k) && k > 0
    ensures a % 2 == 0 && Aligned(a / 2, k - 1)
  {}

  lemma WholeWordsAt(a: nat)
    requires Aligned(a, 3)
    ensures a % 8 == 0
  {
    hide Aligned;
    AlignedHalf(a, 3);
    AlignedHalf(a / 2, 2);
    AlignedHalf(a / 2 / 2, 1);
    Eighth(a, a / 2 / 2 / 2);
  }

  lemma Eighth(a: nat, q: nat)
    requires a == 8 * q
    ensures a % 8 == 0
  {}

  /** A used block's first word can hold its link. */
  lemma UsedCell(n: nat, lists: Lists, used: set<Block>, lo: nat, hi: nat, b: Block)
    requires Tiling(lists, used, lo, hi) && 0 < lo && hi <= 8 * n && b in used
    ensures Cell(n, b.addr) && OnNoList(lists, b.addr)
  {
    assert b in FreeSet(lists) + used;
    AlignedWeaken(b.addr, 3, b.order);
    WholeWordsAt(b.addr);
    UsedOnNoList(lists, used, lo, hi, b, b.addr);
  }

  /** Before the search for a buddy: the pushed block heads its list, whose
      blocks may all be written. */
  lemma SearchReady(lists: Lists, k: nat, a: nat, used: set<Block>, lo: nat, hi: nat, f: set<Block>)
    requires Tiling(lists, used + {Block(a, k)}, lo, hi) && Block(a, k) !in used && k < |lists|
    requires FreeFrom(lists, k) <= f && AllFree(f, Block(a, k))
    ensures var l := Push(lists, k, a)[k];
      l != [] && l[0] == a && l[1..] == lists[k] && Apart(Push(lists, k, a)) && forall x :: x in l ==> Covered(f, x)
  {
    PushTiling(lists, k, a, used, lo, hi);
    TilingApart(Push(lists, k, a), used, lo, hi);
    var l := Push(lists, k, a)[k];
    assert l == [a] + lists[k];
    forall x | x in l ensures Covered(f, x) {
      if x == a {
        assert Contains(Block(a, k), a);
      } else {
        assert Block(x, k) in FreeFrom(lists, k);
        assert Contains(Block(x, k), x);
      }
    }
  }

  /** After the buddy is unlinked and the block popped, the joined block can be
      pushed one order up. */
  lemma JoinReady(lists: Lists, k: nat, a: nat, used: set<Block>, lo: nat, hi: nat, f: set<Block>, n: nat)
    requires Region(lo, hi) && hi <= 8 * n
    requires Tiling(lists, used + {Block(a, k)}, lo, hi) && Block(a, k) !in used
    requires k < |lists| && BuddyAddr(a, k) in lists[k] && NoBuddies(FreeSet(lists))
    requires FreeFrom(lists, k) <= f && AllFree(f, Block(a, k))
    ensures var lists' := lists[k := Without(lists[k], BuddyAddr(a, k))]; var p := ParentAddr(a, k);
      && k + 1 < |lists|
      && Tiling(lists', used + {Block(p, k + 1)}, lo, hi) && Block(p, k + 1) !in used
      && NoBuddies(FreeSet(lists'))
      && FreeFrom(lists', k + 1) <= f && AllFree(f, Block(p, k + 1))
      && OnNoList(lists', p) && Cell(n, p) && Covered(f, p)
  {
    var b := Block(a, k);
    var p := Parent(b);
    MergeStep(lists, k, a, used, lo, hi);
    UnlinkSet(lists, k, BuddyAddr(a, k));
    var lists' := lists[k := Without(lists[k], BuddyAddr(a, k))];
    UsedCell(n, lists', used + {p}, lo, hi, p);
    assert AllFree(f, p) by {
      assert b in FreeSet(lists) + (used + {b}) && Buddy(b) in FreeFrom(lists, k);
      JoinFree(f, b);
    }
    assert Contains(p, p.addr);
  }

  lemma JoinFree(f: set<Block>, b: Block)
    requires Good(b) && AllFree(f, b) && Buddy(b) in f
    ensures AllFree(f, Parent(b))
  {
    HalfOf(b);
    forall x: nat | Contains(Parent(b), x) ensures Covered(f, x) {
      if !Contains(b, x) { assert Contains(Buddy(b), x); }
    }
  }

  /** What the first push and the merging loop of buddy_dealloc rely on. */
  lemma PutReady(h: Heap, used: set<Block>, lo: nat, hi: nat, b: Block, n: nat)
    requires Inv(h, used, lo, hi) && b in used && hi <= 8 * n
    ensures var f := FreeFrom(h.lists, b.order) + {b}; var r := Merge(h.lists, b.order, b.addr);
      && b.order < |h.lists| && Cell(n, b.addr) && OnNoList(h.lists, b.addr) && Covered(f, b.addr)
      && Tiling(h.lists, used - {b} + {b}, lo, hi) && FreeFrom(h.lists, b.order) <= f && AllFree(f, b)
      && r.Some? && h.taken >= Pow2(b.order) && Inv(Heap(r.value, h.total, h.taken - Pow2(b.order)), used - {b}, lo, hi)
  {
    DeallocKeeps(h, used, lo, hi, b);
    UsedCell(n, h.lists, used, lo, hi, b);
    var f := FreeFrom(h.lists, b.order) + {b};
    BlockOf(f, b);
    assert used - {b} + {b} == used;
    assert b in FreeSet(h.lists) + used;
  }

  lemma BlockOf(f: set<Block>, b: Block)
    requires b in f
    ensures AllFree(f, b) && Covered(f, b.addr)
  {
    assert Contains(b, b.addr);
  }

  /** What one round of add_to_buddy relies on. */
  lemma CutReady(lists: Lists, lo: nat, cur: nat, end: nat, n: nat)
    requires lo <= cur < end && Span(cur, end) && end <= 8 * n && lo > 0
    requires Tiling(lists, {}, lo, cur) && AddRegion(lists, cur, end).Some?
    ensures var k := StepOrder(cur, end);
      && k < |lists| && Cell(n, cur) && OnNoList(lists, cur)
      && cur < cur + Pow2(k) <= end && Span(cur + Pow2(k), end)
      && Tiling(Push(lists, k, cur), {}, lo, cur + Pow2(k))
      && AddRegion(Push(lists, k, cur), cur + Pow2(k), end) == AddRegion(lists, cur, end)
  {
    hide Pow2, Aligned, Span, Cell, Tiling, Bytes, FreeSet;
    var k := StepOrder(cur, end);
    TilingLists(lists, {}, lo, cur);
    StepTiling(lists, lo, cur, k);
    SpanCell(cur, end, n);
    NewOnNoList(lists, lo, cur);
  }

  lemma TilingLists(lists: Lists, used: set<Block>, lo: nat, hi: nat)
    requires Tiling(lists, used, lo, hi)
    ensures |lists| == MAX_ORDER
  {}

  /** A block past the tiled part is on no list. */
  lemma NewOnNoList(lists: Lists, lo: nat, cur: nat)
    requires Tiling(lists, {}, lo, cur)
    ensures OnNoList(lists, cur)
  {
    assert forall b :: b in FreeSet(lists) + {} ==> b.addr != cur;
    assert forall j: nat :: j < |lists| && cur in lists[j] ==> Block(cur, j) in FreeSet(lists) + {};
  }

  lemma SpanCell(cur: nat, end: nat, n: nat)
    requires cur < end && Span(cur, end) && end <= 8 * n
    ensures Cell(n, cur)
  {}
}
