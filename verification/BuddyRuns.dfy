// Whole histories of the buddy allocator: any sequence of requests and releases.
module BuddyRuns {
  import opened Options
  import opened Bits
  import opened Blocks
  import opened BuddySets
  import opened BuddySpec
  import opened BuddyRegion

  /** Requests and releases by block order; a size in bytes stands for the order
      OrderOf(size), which is at least 3. */
  datatype Op = Request(order: nat) | Release(block: Block)

  /** The allocator together with the blocks its clients hold. */
  datatype World = World(heap: Heap, used: set<Block>)

  /** Only blocks held are released, with the order they were requested with. */
  predicate Permitted(w: World, op: Op) {
    match op
    case Request(order) => MIN_ORDER <= order
    case Release(block) => block in w.used
  }

  /** None when the client breaks the rules or the allocator would misbehave. */
  function Step(w: World, op: Op): Option<World> {
    if !Permitted(w, op) then None
    else match op
      case Request(order) =>
        var (h, p) := Alloc(w.heap, order);
        if p == NULL then Some(w) else Some(World(h, w.used + {Block(p, order)}))
      case Release(b) =>
        match Dealloc(w.heap, b.addr, b.order)
        case None => None
        case Some(h) => Some(World(h, w.used - {b}))
  }

  function Run(w: World, ops: seq<Op>): Option<World>
    decreases |ops|
  {
    if ops == [] then Some(w)
    else match Step(w, ops[0])
      case None => None
      case Some(w') => Run(w', ops[1..])
  }

  ghost predicate WorldInv(w: World, lo: nat, hi: nat) {
    Inv(w.heap, w.used, lo, hi)
  }

  lemma StepKeeps(w: World, op: Op, lo: nat, hi: nat)
    requires WorldInv(w, lo, hi)
    ensures Step(w, op).Some? <==> Permitted(w, op)
    ensures Step(w, op).Some? ==> WorldInv(Step(w, op).value, lo, hi)
  {
    if Permitted(w, op) {
      match op
      case Request(order) => AllocKeeps(w.heap, w.used, lo, hi, order);
      case Release(b) => DeallocKeeps(w.heap, w.used, lo, hi, b);
    }
  }

  /** A request takes a wholly free block, cut from the smallest sufficient free block,
      exactly if there is one of its size; a release gives its block back.  All bytes
      that no client holds are free. */
  lemma StepEffect(w: World, op: Op, lo: nat, hi: nat)
    requires WorldInv(w, lo, hi) && Permitted(w, op)
    ensures Step(w, op).Some? && Step(w, op).value.heap.total == w.heap.total
    ensures var v := Step(w, op).value;
      match op
      case Release(b) => v.used == w.used - {b} && v.heap.taken + Pow2(b.order) == w.heap.taken
      case Request(order) =>
        if exists b :: Candidate(w.heap, order, b) then
          exists b :: Candidate(w.heap, order, b) && BestFit(w.heap, order, b) && b !in w.used
            && v.used == w.used + {b} && v.heap.taken == w.heap.taken + Pow2(order)
        else v == w
    ensures var v := Step(w, op).value;
      forall x: nat :: lo <= x < hi ==> (Covered(FreeSet(v.heap.lists), x) <==> !Covered(v.used, x))
  {
    hide Inv, BestFit, Candidate, Covered, FreeSet;
    StepKeeps(w, op, lo, hi);
    match op {
      case Request(order) =>
        AllocKeeps(w.heap, w.used, lo, hi, order);
        AllocComplete(w.heap, w.used, lo, hi, order);
        if Alloc(w.heap, order).1 != NULL {
          assert Candidate(w.heap, order, Block(Alloc(w.heap, order).1, order));
        }
      case Release(b) =>
    }
    FreeIsRest(Step(w, op).value, lo, hi);
  }

  lemma FreeIsRest(w: World, lo: nat, hi: nat)
    requires WorldInv(w, lo, hi)
    ensures forall x: nat :: lo <= x < hi ==> (Covered(FreeSet(w.heap.lists), x) <==> !Covered(w.used, x))
  {
    hide FreeSet, NoBuddies;
    var f := FreeSet(w.heap.lists);
    forall x: nat | lo <= x < hi ensures Covered(f, x) <==> !Covered(w.used, x) {
      assert Covered(f + w.used, x);
      var b :| b in f + w.used && Contains(b, x);
      if Covered(f, x) && Covered(w.used, x) {
        var c :| c in f && Contains(c, x);
        var d :| d in w.used && Contains(d, x);
        OneHolder(f + w.used, c, d, x);
        assert false;
      }
    }
  }

  lemma OneHolder(s: set<Block>, c: Block, d: Block, x: nat)
    requires AllDisjoint(s) && c in s && d in s && Contains(c, x) && Contains(d, x)
    ensures c == d
  {}

  /** The invariant holds in every reachable state. */
  lemma {:induction false} RunKeeps(w: World, ops: seq<Op>, lo: nat, hi: nat)
    requires WorldInv(w, lo, hi)
    ensures Run(w, ops).Some? ==> WorldInv(Run(w, ops).value, lo, hi)
    decreases |ops|
  {
    if ops != [] {
      StepKeeps(w, ops[0], lo, hi);
      var r := Step(w, ops[0]);
      if r.Some? { RunKeeps(r.value, ops[1..], lo, hi); }
    }
  }

  /** Every history the clients' rules allow runs to its end. */
  ghost predicate Lawful(w: World, ops: seq<Op>)
    decreases |ops|
  {
    ops == [] || (Permitted(w, ops[0]) && (Step(w, ops[0]).Some? ==> Lawful(Step(w, ops[0]).value, ops[1..])))
  }

  lemma {:induction false} LawfulRuns(w: World, ops: seq<Op>, lo: nat, hi: nat)
    requires WorldInv(w, lo, hi)
    ensures Run(w, ops).Some? <==> Lawful(w, ops)
    decreases |ops|
  {
    if ops != [] {
      StepKeeps(w, ops[0], lo, hi);
      var r := Step(w, ops[0]);
      if r.Some? { LawfulRuns(r.value, ops[1..], lo, hi); }
    }
  }

  /** The blocks held determine the free blocks, whatever the history. */
  lemma UsedDeterminesFree(v: World, w: World, lo: nat, hi: nat)
    requires WorldInv(v, lo, hi) && WorldInv(w, lo, hi) && v.used == w.used
    ensures FreeSet(v.heap.lists) == FreeSet(w.heap.lists)
  {
    var f, g := FreeSet(v.heap.lists), FreeSet(w.heap.lists);
    forall x: nat ensures Covered(f, x) <==> Covered(g, x) {
      FreeOrUsed(f, v.used, lo, hi, x);
      FreeOrUsed(g, w.used, lo, hi, x);
    }
    PartsOf(f, v.used, lo, hi);
    PartsOf(g, w.used, lo, hi);
    SameBytesSameBlocks(f, g, lo, hi);
  }

  lemma PartsOf(f: set<Block>, u: set<Block>, lo: nat, hi: nat)
    requires Partition(f + u, lo, hi)
    ensures AllFit(f, lo, hi) && AllDisjoint(f)
  {
    forall b | b in f ensures Fits(b, lo, hi) { assert b in f + u; }
    forall b, c | b in f && c in f && b != c ensures Disjoint(b, c) { assert b in f + u && c in f + u; }
  }

  /** After any history from the initial state that ends with nothing held, the
      free blocks of every order are the initial ones again. */
  lemma FreeingRestores(lo: nat, hi: nat, ops: seq<Op>)
    requires Region(lo, hi)
    ensures Span(lo, hi) && AddRegion(EmptyLists(), lo, hi).Some?
    ensures var start := World(Heap(AddRegion(EmptyLists(), lo, hi).value, hi - lo, 0), {});
      var end := Run(start, ops);
      end.Some? && end.value.used == {} ==>
        FreeSet(end.value.heap.lists) == FreeSet(start.heap.lists) && end.value.heap.taken == 0
  {
    var h := InitialInv(lo, hi);
    var start := World(h, {});
    RunKeeps(start, ops, lo, hi);
    var end := Run(start, ops);
    if end.Some? && end.value.used == {} {
      UsedDeterminesFree(start, end.value, lo, hi);
    }
  }

  /** In every reachable state free and held bytes add up to the region, and no
      byte is in two blocks. */
  lemma Conservation(lo: nat, hi: nat, w: World, ops: seq<Op>)
    requires WorldInv(w, lo, hi) && Run(w, ops).Some?
    ensures var v := Run(w, ops).value;
      && Bytes(FreeSet(v.heap.lists)) + Bytes(v.used) == hi - lo
      && v.heap.taken == Bytes(v.used) && v.heap.total == hi - lo
      && var all := FreeSet(v.heap.lists) + v.used;
        forall b, c :: b in all && c in all && b != c ==> Disjoint(b, c)
  {
    RunKeeps(w, ops, lo, hi);
  }
}
