// Address spaces in physical memory: page tables, data frames and free frames
// kept apart while mappings are added.
module AddressSpace {
  import opened Options
  import opened Bits
  import opened Pte
  import opened PageTree
  import opened PageRange

  ghost predicate FreeOk(mem: Mem, free: set<nat>) {
    forall f :: f in free ==> f in mem && f < PPN_LIMIT
  }

  /** What alloc_frame does: some free frame is taken and zeroed, or none if no
      frame is free.  What happens inside other free frames is left open; every
      frame that is not free keeps its contents. */
  ghost predicate FrameTaken(m: Mem, free: set<nat>, m': Mem, free': set<nat>, r: Option<nat>) {
    && FreeOk(m', free') && Keeps(m, m', free)
    && (r.None? <==> free == {}) && (r.None? ==> m' == m && free' == free)
    && (r.Some? ==> r.value in free && free' == free - {r.value} && r.value in m' && m'[r.value] == ZeroPage())
  }

  /** What dealloc_frame does: the frame, not free before, is free; its contents
      and those of other free frames are the allocator's. */
  ghost predicate FrameGiven(m: Mem, free: set<nat>, m': Mem, free': set<nat>, f: nat) {
    FreeOk(m', free') && Keeps(m, m', free') && f !in free && free' == free + {f}
  }

  /** An address space with tables t, apart from the free frames. */
  ghost predicate Space(mem: Mem, t: Tables, free: set<nat>) {
    Tree(mem, t) && t.Values !! free && FreeOk(mem, free)
  }

  ghost predicate Extends(t: Tables, t': Tables) {
    Root in t && Root in t' && t'[Root] == t[Root] && forall n :: n in t ==> n in t' && t'[n] == t[n]
  }

  /** Tables were added from the free frames; no mapping changed. */
  ghost predicate Grown(m: Mem, t: Tables, free: set<nat>, m': Mem, t': Tables, free': set<nat>) {
    && Space(m', t', free') && Extends(t, t')
    && free' + t'.Values == free + t.Values
    && Keeps(m, m', free + t.Values)
    && SameLeaves(m, t, m', t')
  }

  lemma GrownSelf(m: Mem, t: Tables, free: set<nat>)
    requires Space(m, t, free)
    ensures Grown(m, t, free, m, t, free)
  {}

  lemma GrownTrans(m0: Mem, t0: Tables, f0: set<nat>, m1: Mem, t1: Tables, f1: set<nat>, m2: Mem, t2: Tables,
                   f2: set<nat>)
    requires Grown(m0, t0, f0, m1, t1, f1) && Grown(m1, t1, f1, m2, t2, f2)
    ensures Grown(m0, t0, f0, m2, t2, f2)
  {
    hide Space, Leaf;
    forall v: nat ensures Leaf(m2, t2, v) == Leaf(m0, t0, v) { assert Leaf(m1, t1, v) == Leaf(m0, t0, v); }
  }

  /** Linking the new frame f as a child table. */
  lemma GrownTable(m: Mem, t: Tables, free: set<nat>, m1: Mem, n: Node, k: nat, f: nat)
    requires Space(m, t, free) && n in t && !n.Bottom? && k < ENTRIES && Child(n, k) !in t
    requires f in free && Keeps(m, m1, free) && f in m1 && m1[f] == ZeroPage()
    ensures t[n] in m1
    ensures Grown(m, t, free, m1[t[n] := SetEntry(m1[t[n]], k, TablePte(f))], t[Child(n, k) := f], free - {f})
  {
    hide Tree, Leaf, ZeroPage, SetEntry, TablePte;
    TreeMemory(m, t);
    TreeFrame(m, m1, t, free);
    AddTable(m1, t, n, k, f);
    var m2 := m1[t[n] := SetEntry(m1[t[n]], k, TablePte(f))];
    var t2 := t[Child(n, k) := f];
    assert t[n] in t.Values;
    assert t2.Values == t.Values + {f} by { AddValue(t, Child(n, k), f); }
    SameLeavesTrans(m, t, m1, t, m2, t2);
  }

  lemma TreeMemory(m: Mem, t: Tables)
    requires Tree(m, t)
    ensures Root in t && forall n :: n in t ==> t[n] in m && t[n] in t.Values && t[n] < PPN_LIMIT
  {}

  lemma AddValue(t: Tables, n: Node, f: nat)
    requires n !in t
    ensures t[n := f].Values == t.Values + {f}
  {
    var t' := t[n := f];
    assert t'[n] in t'.Values;
    forall m | m in t ensures t[m] in t'.Values { assert t'[m] in t'.Values; }
  }

  lemma SameLeavesTrans(m0: Mem, t0: Tables, m1: Mem, t1: Tables, m2: Mem, t2: Tables)
    requires SameLeaves(m0, t0, m1, t1) && SameLeaves(m1, t1, m2, t2)
    ensures SameLeaves(m0, t0, m2, t2)
  {
    hide Leaf;
    forall v: nat ensures Leaf(m2, t2, v) == Leaf(m0, t0, v) { assert Leaf(m1, t1, v) == Leaf(m0, t0, v); }
  }

  lemma SpaceClosed(m: Mem, t: Tables, free: set<nat>, i: nat, j: nat)
    requires Space(m, t, free)
    ensures Root in t && (Bottom(i, j) in t ==> Mid(i) in t)
  {}

  lemma GrownSpace(m: Mem, t: Tables, free: set<nat>, m': Mem, t': Tables, free': set<nat>)
    requires Grown(m, t, free, m', t', free')
    ensures Space(m', t', free') && free' <= free && Extends(t, t')
  {
    assert forall f :: f in free' ==> f in free + t.Values;
    assert forall n :: n in t ==> t'[n] in t'.Values;
  }

  lemma ChildPointer(mem: Mem, t: Tables, n: Node, k: nat)
    requires Tree(mem, t) && n in t && !n.Bottom? && k < ENTRIES
    ensures t[n] in mem
    ensures Child(n, k) !in t <==> Entry(mem[t[n]], k) == 0
    ensures Child(n, k) in t ==> PtePpn(Entry(mem[t[n]], k)) == t[Child(n, k)]
  {
    hide PtePpn, MakePte, Entry;
    if Child(n, k) in t { TablePteBits(t[Child(n, k)]); }
    assert Cell(mem, t[n], k) == Entry(mem[t[n]], k);
  }

  // ---------- mapping a range ----------

  /** A range of pages is being mapped: es are the entries set so far and used
      the data frames taken for them. */
  ghost predicate Mapping(m: Mem, t: Tables, free: set<nat>, m': Mem, t': Tables, free': set<nat>,
                          first: nat, es: seq<nat>, used: set<nat>) {
    && Space(m', t', free') && Extends(t, t')
    && free' + t'.Values + used == free + t.Values
    && used !! free' && used !! t'.Values && FreeOk(m', used)
    && Keeps(m, m', free + t.Values)
    && MapsTo(m, t, m', t', first, es)
  }

  lemma MappingStart(m: Mem, t: Tables, free: set<nat>, first: nat)
    requires Space(m, t, free)
    ensures Mapping(m, t, free, m, t, free, first, [], {})
  {
    MapsToNothing(m, t, first);
  }

  lemma MappingSpace(m: Mem, t: Tables, free: set<nat>, m1: Mem, t1: Tables, free1: set<nat>,
                     first: nat, es: seq<nat>, used: set<nat>)
    requires Mapping(m, t, free, m1, t1, free1, first, es, used)
    ensures Space(m1, t1, free1) && FreeOk(m1, free1) && Extends(t, t1)
  {}

  /** Looking up an entry, with new tables where needed. */
  lemma MappingGrow(m: Mem, t: Tables, free: set<nat>, m1: Mem, t1: Tables, free1: set<nat>,
                    m2: Mem, t2: Tables, free2: set<nat>, first: nat, es: seq<nat>, used: set<nat>)
    requires Mapping(m, t, free, m1, t1, free1, first, es, used)
    requires Grown(m1, t1, free1, m2, t2, free2)
    ensures Mapping(m, t, free, m2, t2, free2, first, es, used)
    ensures forall f :: f in used ==> m2[f] == m1[f]
  {
    hide Tree, Leaf, MapsTo;
    MapsToSame(m, t, m1, t1, m2, t2, first, es);
    assert free2 + t2.Values == free1 + t1.Values;
    assert used !! free2 + t2.Values;
  }

  /** Taking a frame for data. */
  lemma MappingTake(m: Mem, t: Tables, free: set<nat>, m1: Mem, t1: Tables, free1: set<nat>,
                    m2: Mem, f: nat, first: nat, es: seq<nat>, used: set<nat>)
    requires Mapping(m, t, free, m1, t1, free1, first, es, used)
    requires f in free1 && Keeps(m1, m2, free1)
    ensures Mapping(m, t, free, m2, t1, free1 - {f}, first, es, used + {f})
    ensures forall g :: g in used ==> m2[g] == m1[g]
  {
    hide Tree, Leaf, MapsTo;
    TreeFrame(m1, m2, t1, free1);
    MapsToSame(m, t, m1, t1, m2, t1, first, es);
    assert free1 - {f} + t1.Values + (used + {f}) == free1 + t1.Values + used;
  }

  /** Writing inside a data frame taken. */
  lemma MappingWrite(m: Mem, t: Tables, free: set<nat>, m1: Mem, t1: Tables, free1: set<nat>,
                     m2: Mem, f: nat, first: nat, es: seq<nat>, used: set<nat>)
    requires Mapping(m, t, free, m1, t1, free1, first, es, used)
    requires f in used && Keeps(m1, m2, {f})
    ensures Mapping(m, t, free, m2, t1, free1, first, es, used)
  {
    hide Tree, Leaf, MapsTo;
    TreeFrame(m1, m2, t1, {f});
    MapsToSame(m, t, m1, t1, m2, t1, first, es);
    assert f in free + t.Values;
  }

  /** Storing the entry of the next page. */
  lemma MappingStore(m: Mem, t: Tables, free: set<nat>, m1: Mem, t1: Tables, free1: set<nat>,
                     first: nat, es: seq<nat>, used: set<nat>, pte: nat)
    requires Mapping(m, t, free, m1, t1, free1, first, es, used) && |es| < KEYS && pte < WORD
    requires BottomOf(first + |es|) in t1
    ensures t1[BottomOf(first + |es|)] in m1
    ensures var f := t1[BottomOf(first + |es|)];
      var m2 := m1[f := SetEntry(m1[f], Level(first + |es|, 0), pte)];
      && Mapping(m, t, free, m2, t1, free1, first, es + [pte], used)
      && forall g :: g in used ==> m2[g] == m1[g]
  {
    hide Leaf, Level, SetEntry, MapsTo, Tree;
    var v := first + |es|;
    SetLeaf(m1, t1, v, pte);
    var f := t1[BottomOf(v)];
    assert f in t1.Values;
    var m2 := m1[f := SetEntry(m1[f], Level(v, 0), pte)];
    MapsToNext(m, t, m1, t1, m2, t1, first, es, pte);
    assert f in free + t.Values;
  }
}
