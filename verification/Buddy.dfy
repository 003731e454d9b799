// kernel/buddy_system_allocator.c as it runs: list heads in an array, links in
// memory words, both updated in place.
module Buddy {
  import opened Options
  import opened Bits
  import opened PowerOfTwo
  import opened Blocks
  import opened BuddySets
  import opened BuddySpec
  import opened BuddyRegion
  import opened BuddyLinks

  class Allocator {
    const mem: array<nat>       // physical memory as words
    const freeList: array<nat>  // list heads
    var total: nat
    var taken: nat

    ghost var lists: Lists      // the addresses on each list
    ghost var used: set<Block>  // the blocks handed out
    ghost var lo: nat           // the region managed
    ghost var hi: nat

    ghost predicate Linking()
      reads this, mem, freeList
    {
      mem != freeList && freeList.Length == |lists| && AllLinked(mem[..], freeList[..], lists)
    }

    ghost function State(): Heap
      reads this
    {
      Heap(lists, total, taken)
    }

    ghost predicate Valid()
      reads this, mem, freeList
    {
      Linking() && Inv(State(), used, lo, hi) && hi <= 8 * mem.Length
    }

    /** init_buddy */
    constructor (memory: array<nat>)
      requires memory.Length > 0
      ensures Linking() && State() == Heap(EmptyLists(), 0, 0) && used == {}
      ensures mem == memory && fresh(freeList)
    {
      mem := memory;
      freeList := new nat[MAX_ORDER];
      total, taken := 0, 0;
      lists, used := EmptyLists(), {};
      lo, hi := 8, 8;
      new;
      for i := 0 to MAX_ORDER
        modifies freeList
        invariant forall k :: 0 <= k < i ==> freeList[k] == NULL
      {
        freeList[i] := NULL;
      }
    }

    /** PUSH */
    method PushBlock(a: nat, k: nat, ghost before: Words, ghost f: set<Block>)
      requires Linking() && k < |lists| && OnNoList(lists, a) && Cell(mem.Length, a)
      requires OnlyWithin(before, mem[..], f) && Covered(f, a)
      modifies this`lists, mem, freeList
      ensures Linking() && lists == Push(old(lists), k, a) && OnlyWithin(before, mem[..], f)
    {
      ghost var words: seq<nat> := mem[..];
      ghost var heads: seq<nat> := freeList[..];
      PushLinked(words, heads, lists, k, a);
      WriteWithin(before, words, f, a, heads[k]);
      mem[a / 8] := freeList[k];
      freeList[k] := a;
      lists := Push(lists, k, a);
      assert mem[..] == words[a / 8 := heads[k]];
      assert freeList[..] == heads[k := a];
    }

    /** POP */
    method PopBlock(k: nat) returns (a: nat)
      requires Linking() && k < |lists| && lists[k] != []
      modifies this`lists, freeList
      ensures Linking() && lists == Pop(old(lists), k) && a == old(lists)[k][0]
      ensures mem[..] == old(mem[..]) && Cell(mem.Length, a) && mem[a / 8] % 8 == 0
    {
      PopLinked(mem[..], freeList[..], lists, k);
      ghost var heads: seq<nat> := freeList[..];
      a := freeList[k];
      freeList[k] := mem[a / 8];
      lists := Pop(lists, k);
      assert freeList[..] == heads[k := mem[a / 8]];
    }

    /** *prev = *next, where prev and next are neighbours on list k */
    method Unlink(k: nat, ghost i: nat, prev: nat, next: nat, ghost before: Words, ghost f: set<Block>)
      requires Linking() && Apart(lists) && k < |lists| && 0 < i < |lists[k]|
      requires prev == lists[k][i - 1] && next == lists[k][i]
      requires OnlyWithin(before, mem[..], f) && Covered(f, prev)
      modifies this`lists, mem
      ensures Linking() && OnlyWithin(before, mem[..], f)
      ensures lists == old(lists)[k := CutAt(old(lists)[k], i)]
    {
      UnlinkLinked(mem[..], freeList[..], lists, k, i);
      ghost var words: seq<nat> := mem[..];
      var v := mem[next / 8];
      WriteWithin(before, words, f, prev, v);
      mem[prev / 8] := v;
      lists := lists[k := CutAt(lists[k], i)];
      assert mem[..] == words[prev / 8 := v];
    }

    /** The search for a block behind the head of list k. */
    method FindBehind(k: nat, target: nat) returns (found: bool, prev: nat, ghost i: nat)
      requires Linking() && k < |lists| && lists[k] != []
      ensures found ==> 0 < i < |lists[k]| && prev == lists[k][i - 1] && target == lists[k][i]
      ensures !found ==> target !in lists[k][1..]
    {
      hide AllLinked, Linked, Cell;
      ghost var l: seq<nat> := lists[k];
      ghost var words: seq<nat> := mem[..];
      ghost var head := freeList[k];
      HeadOf(words, freeList[..], lists, k);
      i := 1;
      NextOf(words, head, l, 0);
      prev := freeList[k];
      var next := mem[prev / 8];
      while next != NULL
        invariant 1 <= i <= |l| && prev == l[i - 1] && next == At(l, i)
        invariant next != NULL <==> i < |l|
        invariant forall j :: 1 <= j < i ==> l[j] != target
        decreases |l| - i
      {
        if next == target {
          return true, prev, i;
        }
        NextOf(words, head, l, i);
        prev := next;
        next := mem[prev / 8];
        i := i + 1;
      }
      found := false;
    }

    /** Unlink a block behind the head of list k, if it is there. */
    method UnlinkBehind(k: nat, target: nat, ghost before: Words, ghost f: set<Block>) returns (found: bool)
      requires Linking() && Apart(lists) && k < |lists| && lists[k] != []
      requires OnlyWithin(before, mem[..], f) && forall a :: a in lists[k] ==> Covered(f, a)
      modifies this`lists, mem
      ensures Linking() && OnlyWithin(before, mem[..], f)
      ensures found <==> target in old(lists)[k][1..]
      ensures !found ==> lists == old(lists)
      ensures found ==> lists == old(lists)[k := [old(lists)[k][0]] + Without(old(lists)[k][1..], target)]
    {
      var prev;
      ghost var i;
      found, prev, i := FindBehind(k, target);
      if found {
        CutIsWithout(lists[k], i);
        assert lists[k][1..][i - 1] == target;
        Unlink(k, i, prev, target, before, f);
      }
    }

    /** One round of splitting: pop a block and push its halves. */
    method SplitHead(j: nat, ghost before: Words, ghost f: set<Block>)
      requires Linking() && 0 < j < |lists| && lists[j] != [] && SplitReady(mem.Length, lists, j, f)
      requires OnlyWithin(before, mem[..], f)
      modifies this`lists, mem, freeList
      ensures Linking() && lists == SplitStep(old(lists), j)
      ensures OnlyWithin(before, mem[..], f)
    {
      hide AllLinked, OnNoList, OnlyWithin, Covered, Pow2;
      var a := PopBlock(j);
      PushBlock(a + Pow2(j - 1), j - 1, before, f);
      PushBlock(a, j - 1, before, f);
    }

    /** The splitting loop of buddy_alloc. */
    method SplitDown(i: nat, order: nat, ghost before: Words, ghost f: set<Block>)
      requires Linking() && Tiling(lists, used, lo, hi) && 0 < lo && hi <= 8 * mem.Length
      requires MIN_ORDER <= order <= i < |lists| && lists[i] != []
      requires OnlyWithin(before, mem[..], f) && AllFree(f, Block(lists[i][0], i))
      modifies this`lists, mem, freeList
      ensures Linking() && lists == Split(old(lists), i, order)
      ensures OnlyWithin(before, mem[..], f)
    {
      hide AllLinked, OnlyWithin, AllFree, SplitReady, SplitStep, FreeSet, Tiling;
      var j := i;
      while j > order
        invariant order <= j < |lists| && lists[j] != []
        invariant Linking() && Tiling(lists, used, lo, hi)
        invariant Split(lists, j, order) == Split(old(lists), i, order)
        invariant OnlyWithin(before, mem[..], f) && AllFree(f, Block(lists[j][0], j))
      {
        SplitCells(mem.Length, lists, used, lo, hi, j, f);
        SplitStepTiling(lists, j, used, lo, hi);
        SplitHead(j, before, f);
        j := j - 1;
      }
    }

    /** buddy_alloc */
    method Alloc(size: nat) returns (p: nat)
      requires Valid() && size < WORD
      modifies this, mem, freeList
      ensures Valid() && lo == old(lo) && hi == old(hi)
      ensures (State(), p) == BuddySpec.Alloc(old(State()), OrderOf(size))
      ensures used == if p == NULL then old(used) else old(used) + {Block(p, OrderOf(size))}
      ensures OnlyWithin(old(mem[..]), mem[..], FreeFrom(old(lists), OrderOf(size)))
      ensures p == NULL ==> mem[..] == old(mem[..])
      ensures p != NULL ==> p / 8 < mem.Length && mem[p / 8] % 8 == 0
    {
      hide BestFit, Candidate;
      var adjusted := AdjustedSize(size);
      var order := GetOrder(adjusted);
      AdjustedPow2(size);
      AllocKeeps(State(), used, lo, hi, order);
      var i := order;
      while i < MAX_ORDER
        invariant order <= i
        invariant FirstFit(lists, order) == FirstFit(lists, i)
        invariant State() == old(State()) && used == old(used) && mem[..] == old(mem[..]) && Linking()
      {
        if freeList[i] != NULL {
          p := Take(i, order);
          return;
        }
        i := i + 1;
      }
      p := NULL;
    }

    /** The body of the search loop once a nonempty list is found. */
    method Take(i: nat, order: nat) returns (p: nat)
      requires Valid() && MIN_ORDER <= order <= i < |lists| && lists[i] != [] && FirstFit(lists, order) == i
      modifies this, mem, freeList
      ensures Valid() && lo == old(lo) && hi == old(hi)
      ensures (State(), p) == BuddySpec.Alloc(old(State()), order) && p != NULL
      ensures used == old(used) + {Block(p, order)}
      ensures OnlyWithin(old(mem[..]), mem[..], FreeFrom(old(lists), order))
      ensures p / 8 < mem.Length && mem[p / 8] % 8 == 0
    {
      hide AllLinked, OnlyWithin, AllFree, Covered, Partition, DistinctLists, NoBuddies, Candidate;
      ghost var h := State();
      ghost var f := FreeFrom(lists, order);
      HeadFree(lists, i, order);
      AllocFrom(h, used, lo, hi, order, i);
      ReflWithin(mem[..], f);
      SplitDown(i, order, mem[..], f);
      taken := taken + Pow2(order);
      p := PopBlock(order);
      used := used + {Block(p, order)};
      assert State() == BuddySpec.Alloc(h, order).0;
    }

    /** The merging loop of buddy_dealloc, with the block already pushed. */
    method MergeUp(block: nat, order: nat, ghost base: Lists, ghost held: set<Block>, ghost before: Words,
                   ghost f: set<Block>)
      requires Linking() && order < |base| && lists == Push(base, order, block)
      requires Region(lo, hi) && hi <= 8 * mem.Length
      requires Tiling(base, held + {Block(block, order)}, lo, hi) && Block(block, order) !in held
      requires NoBuddies(FreeSet(base)) && FreeFrom(base, order) <= f && AllFree(f, Block(block, order))
      requires OnlyWithin(before, mem[..], f)
      modifies this`lists, mem, freeList
      ensures Linking() && Merge(base, order, block) == Some(lists)
      ensures OnlyWithin(before, mem[..], f)
    {
      var cur, k := block, order;
      ghost var rest := base;
      while k < MAX_ORDER
        invariant k < |rest| && |rest| == MAX_ORDER
        invariant Linking() && lists == Push(rest, k, cur)
        invariant Merge(rest, k, cur) == Merge(base, order, block)
        invariant Tiling(rest, held + {Block(cur, k)}, lo, hi) && Block(cur, k) !in held
        invariant NoBuddies(FreeSet(rest)) && FreeFrom(rest, k) <= f && AllFree(f, Block(cur, k))
        invariant OnlyWithin(before, mem[..], f)
        decreases MAX_ORDER - k
      {
        var merged := MergeOnce(cur, k, rest, held, before, f);
        if !merged { break; }
        rest := rest[k := Without(rest[k], BuddyAddr(cur, k))];
        cur, k := ParentAddr(cur, k), k + 1;
      }
    }

    /** One round of merging: find the buddy of the head of list k, unlink it and
        push the joined block one order up. */
    method MergeOnce(cur: nat, k: nat, ghost rest: Lists, ghost held: set<Block>, ghost before: Words,
                     ghost f: set<Block>)
      returns (merged: bool)
      requires Linking() && k < |rest| && lists == Push(rest, k, cur)
      requires Region(lo, hi) && hi <= 8 * mem.Length
      requires Tiling(rest, held + {Block(cur, k)}, lo, hi) && Block(cur, k) !in held
      requires NoBuddies(FreeSet(rest)) && FreeFrom(rest, k) <= f && AllFree(f, Block(cur, k))
      requires OnlyWithin(before, mem[..], f)
      modifies this`lists, mem, freeList
      ensures Linking() && OnlyWithin(before, mem[..], f)
      ensures merged <==> BuddyAddr(cur, k) in rest[k]
      ensures !merged ==> lists == old(lists)
      ensures merged ==>
        var rest' := rest[k := Without(rest[k], BuddyAddr(cur, k))]; var p := ParentAddr(cur, k);
        && k + 1 < |rest| && lists == Push(rest', k + 1, p)
        && Tiling(rest', held + {Block(p, k + 1)}, lo, hi) && Block(p, k + 1) !in held
        && NoBuddies(FreeSet(rest')) && FreeFrom(rest', k + 1) <= f && AllFree(f, Block(p, k + 1))
    {
      SearchReady(rest, k, cur, held, lo, hi, f);
      hide AllLinked, OnlyWithin, AllFree, Covered, Partition, DistinctLists, NoBuddies, Region, Apart, OnNoList, Cell,
        BuddyAddr, FreeSet, FreeFrom;
      var buddy := BuddyAddr(cur, k);
      merged := UnlinkBehind(k, buddy, before, f);
      if merged {
        JoinReady(rest, k, cur, held, lo, hi, f, mem.Length);
        assert Pop(lists, k) == rest[k := Without(rest[k], buddy)];
        var a := PopBlock(k);
        PushBlock(if cur < buddy then cur else buddy, k + 1, before, f);
      }
    }

    /** buddy_dealloc */
    method Dealloc(block: nat, size: nat)
      requires Valid() && size < WORD && Block(block, OrderOf(size)) in used
      modifies this, mem, freeList
      ensures Valid() && lo == old(lo) && hi == old(hi)
      ensures BuddySpec.Dealloc(old(State()), block, OrderOf(size)) == Some(State())
      ensures used == old(used) - {Block(block, OrderOf(size))}
      ensures OnlyWithin(old(mem[..]), mem[..], FreeFrom(old(lists), OrderOf(size)) + {Block(block, OrderOf(size))})
    {
      hide AdjustedSize, OrderOf, AllLinked, OnlyWithin, FreeFrom, Merge, Pow2, Log2, Inv;
      var adjusted := AdjustedSize(size);
      var order := GetOrder(adjusted);
      AdjustedPow2(size);
      PutBack(block, order);
      taken := taken - adjusted;
    }

    /** Everything but the byte counter. */
    method PutBack(block: nat, order: nat)
      requires Valid() && Block(block, order) in used
      modifies this`lists, this`used, mem, freeList
      ensures Linking() && Merge(old(lists), order, block) == Some(lists)
      ensures used == old(used) - {Block(block, order)}
      ensures taken >= Pow2(order) && Inv(Heap(lists, total, taken - Pow2(order)), used, lo, hi)
      ensures OnlyWithin(old(mem[..]), mem[..], FreeFrom(old(lists), order) + {Block(block, order)})
    {
      hide AllLinked, OnlyWithin, AllFree, Covered, Tiling, NoBuddies, OnNoList, Cell, FreeSet, FreeFrom, Merge, Region,
        Push, Bytes, Pow2;
      ghost var b := Block(block, order);
      ghost var f := FreeFrom(lists, order) + {b};
      ghost var before: seq<nat> := mem[..];
      ghost var held := used - {b};
      PutReady(State(), used, lo, hi, b, mem.Length);
      ReflWithin(before, f);
      PushBlock(block, order, before, f);
      MergeUp(block, order, old(lists), held, before, f);
      used := held;
    }

    /** add_to_buddy on a fresh allocator */
    method AddToBuddy(start: nat, end: nat)
      requires Linking() && State() == Heap(EmptyLists(), 0, 0) && used == {}
      requires Region(start, end) && end <= 8 * mem.Length
      modifies this, mem, freeList
      ensures Valid() && lo == start && hi == end && used == {}
      ensures Span(start, end) && Some(lists) == AddRegion(EmptyLists(), start, end)
      ensures total == end - start && taken == 0
      ensures forall w :: 0 <= w < mem.Length && !(start <= 8 * w < end) ==> mem[w] == old(mem[w])
    {
      ghost var h := InitialInv(start, end);
      ghost var before: seq<nat> := mem[..];
      ghost var f := FreeSet(h.lists);
      EmptyTiling(start, end);
      var current := start;
      while current < end
        invariant start <= current <= end && Span(current, end)
        invariant Linking() && Tiling(lists, {}, start, current)
        invariant AddRegion(lists, current, end) == Some(h.lists)
        invariant total == current - start && taken == 0 && used == {}
        invariant OnlyWithin(before, mem[..], f)
        decreases end - current
      {
        assert Covered(f, current) by { assert f + {} == f; }
        current := CutOne(current, end, start, before, f, h);
      }
      lo, hi := start, end;
      OnlyInside(before, mem[..], f, start, end);
    }

    /** One round of the cutting loop. */
    method CutOne(current: nat, end: nat, ghost start: nat, ghost before: Words, ghost f: set<Block>, ghost h: Heap)
      returns (next: nat)
      requires Linking() && start <= current < end && Span(current, end) && end <= 8 * mem.Length
      requires Tiling(lists, {}, start, current) && AddRegion(lists, current, end) == Some(h.lists)
      requires OnlyWithin(before, mem[..], f) && Covered(f, current) && start > 0
      modifies this`lists, this`total, mem, freeList
      ensures current < next <= end && Span(next, end) && total == old(total) + (next - current)
      ensures Linking() && Tiling(lists, {}, start, next) && AddRegion(lists, next, end) == Some(h.lists)
      ensures OnlyWithin(before, mem[..], f)
    {
      hide LowBit, PrevPowerOfTwo, Min, Span, Pow2, Log2, AddRegion, Tiling, AllLinked, OnlyWithin, Covered, Cell,
        OnNoList;
      SpanWord(current, end);
      StepSizeOrder(current, end);
      CutReady(lists, start, current, end, mem.Length);
      var lowbit := LowBit(current);
      var size := Min(lowbit, Min(PrevPowerOfTwo(end - current), Pow2(MAX_ORDER)));
      var order := GetOrder(size);
      PushBlock(current, order, before, f);
      next := current + size;
      total := total + size;
    }
  }

  lemma SpanWord(cur: nat, end: nat)
    requires Span(cur, end)
    ensures end < WORD && 0 < cur
  {}

  lemma OnlyInside(before: Words, after: Words, f: set<Block>, lo: nat, hi: nat)
    requires OnlyWithin(before, after, f) && AllFit(f, lo, hi)
    ensures forall w :: 0 <= w < |before| && !(lo <= 8 * w < hi) ==> after[w] == before[w]
  {
  }

  lemma HeadFree(lists: Lists, i: nat, order: nat)
    requires order <= i < |lists| && lists[i] != []
    ensures AllFree(FreeFrom(lists, order), Block(lists[i][0], i))
  {
    assert Block(lists[i][0], i) in FreeFrom(lists, order);
  }
}
