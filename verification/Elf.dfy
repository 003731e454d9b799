// kernel/elf.c and kernel/mapping.c, lines 222-261: the address space of a
// program, built from the kernel's linear segments and the program headers of
// its executable.
module Elf {
  import opened Sequences
  import opened Options
  import opened Bits
  import opened Bytes
  import opened PowerOfTwo
  import opened Pte
  import opened PageTree
  import opened PageRange
  import opened AddressSpace
  import opened FrameBudget
  import opened PageTable
  import opened Teardown
  import opened Translation
  import opened CopySpace

  // ---------- segments that are mapped and listed ----------

  /** An address space whose list names exactly what is mapped.  Its tables, its
      own data frames gs and the free frames make up all. */
  ghost predicate Listing(m: Mem, t: Tables, free: set<nat>, all: set<nat>, segs: seq<Segment>, gs: seq<nat>) {
    && Source(m, t, free, segs, gs) && ListedEntries(m, t, segs) && OnlyListed(m, t, segs)
    && free + t.Values + FrameSet(gs) == all && t.Keys == TablesOf(segs)
  }

  /** What a listed address space has taken of all frames */
  lemma ListingCost(m: Mem, t: Tables, free: set<nat>, all: set<nat>, segs: seq<Segment>, gs: seq<nat>)
    requires Listing(m, t, free, all, segs, gs)
    ensures |all| == |free| + SpaceCost(segs) && t.Keys == TablesOf(segs)
  {
    hide Space, OwnFrames, TablesOf, ListedEntries, OnlyListed, FramedPages, SpaceCost;
    CostLeft(m, t, free, all, segs, gs);
  }

  lemma OwnJoin(m: Mem, t: Tables, free: set<nat>, us: seq<nat>, fs: seq<nat>, vs: seq<nat>, gs: seq<nat>)
    requires OwnFrames(m, t, free, us, fs) && OwnFrames(m, t, free, vs, gs) && FrameSet(fs) !! FrameSet(gs)
    ensures OwnFrames(m, t, free, us + vs, fs + gs) && FrameSet(fs + gs) == FrameSet(fs) + FrameSet(gs)
  {
    hide FrameOf, BottomOf;
    JoinDistinct(fs, gs);
    assert FrameSet(fs + gs) == FrameSet(fs) + FrameSet(gs);
  }

  ghost predicate SameEntry(m: Mem, t: Tables, m': Mem, t': Tables, seg: Segment, i: nat) {
    Leaf(m', t', First(seg) + i) == Leaf(m, t, First(seg) + i)
  }

  /** What mapping a segment leaves as it was. */
  lemma OldEntries(m1: Mem, t1: Tables, m2: Mem, t2: Tables, segs: seq<Segment>, first: nat, es: seq<nat>)
    requires ListedEntries(m1, t1, segs) && SegmentsOk(segs)
    requires MapsTo(m1, t1, m2, t2, first, es) && Unmapped(m1, t1, first, |es|) && |es| <= KEYS
    ensures forall s, i: nat :: 0 <= s < |segs| && i < Pages(segs[s]) ==> SameEntry(m1, t1, m2, t2, segs[s], i)
    ensures ListedEntries(m2, t2, segs)
  {
    hide Leaf, MakePte, PtePpn, LinearFrame, Pages, First, MapsTo, Unmapped, SegmentsOk;
    forall s, i: nat | 0 <= s < |segs| && i < Pages(segs[s])
      ensures SameEntry(m1, t1, m2, t2, segs[s], i) && ListedEntry(m2, t2, segs[s], i)
    {
      EntryNonzero(m1, t1, segs, s, i);
      MappedStays(m1, t1, m2, t2, first, es, First(segs[s]) + i);
      assert ListedEntry(m1, t1, segs[s], i);
    }
  }

  lemma OldOwn(m1: Mem, t1: Tables, f1: set<nat>, m2: Mem, t2: Tables, f2: set<nat>, segs: seq<Segment>, gs: seq<nat>,
               first: nat, es: seq<nat>, used: set<nat>)
    requires Source(m1, t1, f1, segs, gs) && ListedEntries(m1, t1, segs)
    requires Mapping(m1, t1, f1, m2, t2, f2, first, es, used) && Unmapped(m1, t1, first, |es|) && |es| <= KEYS
    ensures OwnFrames(m2, t2, f2, FramedPages(segs), gs) && used !! FrameSet(gs)
  {
    hide Leaf, PtePpn, BottomOf, Pages, First, Unmapped, Tree, ListedEntries, MapsTo, SegmentsOk;
    OldEntries(m1, t1, m2, t2, segs, first, es);
    var vs := FramedPages(segs);
    forall i | 0 <= i < |vs| ensures BottomOf(vs[i]) in t2 && FrameOf(m2, t2, vs[i]) == gs[i] {
      var s, k := FramedAt(segs, i);
      assert BottomOf(vs[i]) in t1 && SameEntry(m1, t1, m2, t2, segs[s], k);
    }
    assert forall f :: f in used || f in f2 || f in t2.Values ==> f in f1 + t1.Values;
    assert forall f :: f in FrameSet(gs) ==> f in m1 && f !in f1 + t1.Values;
  }

  /** Frames hs back the pages of a segment just mapped. */
  ghost predicate Backs(seg: Segment, hs: seq<nat>) {
    && |hs| == Pages(seg)
    && if seg.linear then forall i: nat :: i < |hs| ==> hs[i] == LinearFrame(First(seg) + i) else Distinct(hs)
  }

  lemma NewEntries(m1: Mem, t1: Tables, f1: set<nat>, m2: Mem, t2: Tables, f2: set<nat>, seg: Segment, hs: seq<nat>)
    requires Mapping(m1, t1, f1, m2, t2, f2, First(seg), Ptes(hs, seg.flags), DataFrames(seg, hs))
    requires SegmentOk(seg) && Backs(seg, hs)
    ensures forall i: nat :: i < Pages(seg) ==> ListedEntry(m2, t2, seg, i)
    ensures !seg.linear ==> forall i: nat :: i < Pages(seg) ==>
      FrameOf(m2, t2, First(seg) + i) == hs[i] && BottomOf(First(seg) + i) in t2
  {
    hide Leaf, MakePte, MapsTo, PtePpn, Ptes, LinearFrame, Pages, BottomOf, Bit, First, Space;
    forall i: nat | i < |hs|
      ensures ListedEntry(m2, t2, seg, i)
      ensures !seg.linear ==> FrameOf(m2, t2, First(seg) + i) == hs[i] && BottomOf(First(seg) + i) in t2
    {
      NewEntry(m1, t1, m2, t2, seg, hs, i);
      if !seg.linear {
        assert hs[i] in FrameSet(hs);
        PpnRoundTrip(hs[i], seg.flags);
        ValidNonzero(hs[i], seg.flags);
        MappedBottom(m2, t2, First(seg) + i);
      }
    }
  }

  lemma NewOwn(m1: Mem, t1: Tables, f1: set<nat>, m2: Mem, t2: Tables, f2: set<nat>, seg: Segment, hs: seq<nat>)
    requires Mapping(m1, t1, f1, m2, t2, f2, First(seg), Ptes(hs, seg.flags), DataFrames(seg, hs))
    requires SegmentOk(seg) && Backs(seg, hs)
    ensures OwnFrames(m2, t2, f2, OwnPages(seg), OwnFramesOf(seg, hs))
    ensures FrameSet(OwnFramesOf(seg, hs)) == DataFrames(seg, hs)
  {
    hide Leaf, MapsTo, PtePpn, Ptes, LinearFrame, Pages, BottomOf, Bit, First, Space, FrameOf, SegmentOk, ListedEntry,
      Vpns;
    NewEntries(m1, t1, f1, m2, t2, f2, seg, hs);
    var us := OwnPages(seg);
    forall i: nat | i < |us| ensures BottomOf(us[i]) in t2 && FrameOf(m2, t2, us[i]) == hs[i] {
      VpnsAt(First(seg), Pages(seg), i);
      assert us[i] == First(seg) + i && FrameOf(m2, t2, First(seg) + i) == hs[i];
    }
  }

  lemma NewListed(m1: Mem, t1: Tables, m2: Mem, t2: Tables, segs: seq<Segment>, seg: Segment, es: seq<nat>)
    requires OnlyListed(m1, t1, segs) && MapsTo(m1, t1, m2, t2, First(seg), es) && |es| == Pages(seg)
    ensures OnlyListed(m2, t2, [seg] + segs)
  {
    hide Leaf, First, Pages, Offset;
    var all := [seg] + segs;
    forall v: nat | Leaf(m2, t2, v) != 0 ensures Listed(all, v) {
      if Offset(First(seg), v) < |es| {
        assert all[0] == seg;
      } else {
        assert Listed(segs, v);
        var s :| 0 <= s < |segs| && Offset(First(segs[s]), v) < Pages(segs[s]);
        assert all[s + 1] == segs[s];
      }
    }
  }

  /** Mapping one more segment and putting it at the head of the list. */
  lemma AddListed(m1: Mem, t1: Tables, f1: set<nat>, m2: Mem, t2: Tables, f2: set<nat>, all: set<nat>,
                  segs: seq<Segment>, gs: seq<nat>, seg: Segment, hs: seq<nat>)
    requires Listing(m1, t1, f1, all, segs, gs) && SegmentOk(seg) && Backs(seg, hs)
    requires Mapping(m1, t1, f1, m2, t2, f2, First(seg), Ptes(hs, seg.flags), DataFrames(seg, hs))
    requires Unmapped(m1, t1, First(seg), Pages(seg)) && Reached(t1, t2, First(seg), Pages(seg))
    ensures Listing(m2, t2, f2, all, [seg] + segs, OwnFramesOf(seg, hs) + gs)
  {
    hide Leaf, MapsTo, FrameOf, Bit, First, Pages, OnlyListed, OwnFrames, Unmapped, BottomOf, Tree, ListedEntry, Ptes,
      OwnFramesOf, TablesOf;
    var es := Ptes(hs, seg.flags);
    OldEntries(m1, t1, m2, t2, segs, First(seg), es);
    OldOwn(m1, t1, f1, m2, t2, f2, segs, gs, First(seg), es, DataFrames(seg, hs));
    NewEntries(m1, t1, f1, m2, t2, f2, seg, hs);
    NewOwn(m1, t1, f1, m2, t2, f2, seg, hs);
    OwnJoin(m2, t2, f2, OwnPages(seg), OwnFramesOf(seg, hs), FramedPages(segs), gs);
    NewListed(m1, t1, m2, t2, segs, seg, es);
    TablesLast(segs, seg);
    assert ([seg] + segs)[1..] == segs;
  }

  // ---------- contents ----------

  /** The pages of a segment hold the data, padded with zeros. */
  ghost predicate Holds(m: Mem, t: Tables, seg: Segment, data: seq<byte>, len: nat)
    requires len <= |data|
  {
    forall i: nat :: i < Pages(seg) ==> Backed(m, FrameOf(m, t, First(seg) + i), DataPage(data, len, i))
  }

  /** Page i of a segment has the same frame with the same bytes. */
  ghost predicate PageKept(m: Mem, t: Tables, m': Mem, t': Tables, seg: Segment, i: nat) {
    var f := FrameOf(m, t, First(seg) + i);
    FrameOf(m', t', First(seg) + i) == f && f in m && f in m' && m'[f] == m[f]
  }

  ghost predicate SegmentKept(m: Mem, t: Tables, m': Mem, t': Tables, seg: Segment) {
    forall i: nat :: i < Pages(seg) ==> PageKept(m, t, m', t', seg, i)
  }

  ghost predicate FramedKept(m: Mem, t: Tables, m': Mem, t': Tables, segs: seq<Segment>) {
    forall seg <- segs :: !seg.linear ==> SegmentKept(m, t, m', t', seg)
  }

  lemma KeptHolds(m: Mem, t: Tables, m': Mem, t': Tables, seg: Segment, data: seq<byte>, len: nat)
    requires SegmentKept(m, t, m', t', seg) && len <= |data| && Holds(m, t, seg, data, len)
    ensures Holds(m', t', seg, data, len)
  {
    hide Pages, First, FrameOf, DataPage;
    forall i: nat | i < Pages(seg) ensures Backed(m', FrameOf(m', t', First(seg) + i), DataPage(data, len, i)) {
      assert PageKept(m, t, m', t', seg, i);
    }
  }

  lemma OldKept(m1: Mem, t1: Tables, f1: set<nat>, m2: Mem, t2: Tables, f2: set<nat>, segs: seq<Segment>, gs: seq<nat>,
                first: nat, es: seq<nat>, used: set<nat>)
    requires Source(m1, t1, f1, segs, gs) && ListedEntries(m1, t1, segs)
    requires Mapping(m1, t1, f1, m2, t2, f2, first, es, used) && Unmapped(m1, t1, first, |es|) && |es| <= KEYS
    ensures FramedKept(m1, t1, m2, t2, segs)
  {
    hide Leaf, PtePpn, BottomOf, Pages, First, Unmapped, Tree, ListedEntries, MapsTo, SegmentsOk, Space;
    OldEntries(m1, t1, m2, t2, segs, first, es);
    forall s, i: nat | 0 <= s < |segs| && !segs[s].linear && i < Pages(segs[s])
      ensures PageKept(m1, t1, m2, t2, segs[s], i)
    {
      assert SameEntry(m1, t1, m2, t2, segs[s], i);
      AmongFramed(segs, s, i);
      var vs := FramedPages(segs);
      var j :| 0 <= j < |vs| && vs[j] == First(segs[s]) + i;
      assert gs[j] in FrameSet(gs);
    }
  }

  lemma NewHolds(m1: Mem, t1: Tables, f1: set<nat>, m2: Mem, t2: Tables, f2: set<nat>, seg: Segment, hs: seq<nat>,
                 data: seq<byte>, len: nat)
    requires Mapping(m1, t1, f1, m2, t2, f2, First(seg), Ptes(hs, seg.flags), DataFrames(seg, hs))
    requires SegmentOk(seg) && Backs(seg, hs) && !seg.linear && len <= |data| && FramesOk(m2, seg, hs, Some(data), len)
    ensures Holds(m2, t2, seg, data, len)
  {
    hide Leaf, PtePpn, BottomOf, Pages, First, Mapping, Ptes, SegmentOk, DataPage, ListedEntry;
    NewEntries(m1, t1, f1, m2, t2, f2, seg, hs);
    forall i: nat | i < Pages(seg) ensures Backed(m2, FrameOf(m2, t2, First(seg) + i), DataPage(data, len, i)) {
      assert Backed(m2, hs[i], PageData(Some(data), len, i));
    }
  }

  // ---------- mapping one more segment ----------

  lemma ListingParts(m: Mem, t: Tables, free: set<nat>, all: set<nat>, segs: seq<Segment>, gs: seq<nat>)
    requires Listing(m, t, free, all, segs, gs)
    ensures Space(m, t, free) && Root in t && free + t.Values <= all
    ensures Source(m, t, free, segs, gs) && ListedEntries(m, t, segs) && OnlyListed(m, t, segs) && SegmentsOk(segs)
  {}

  /** Kept frames, for memory before and after. */
  lemma MappingKeeps(m1: Mem, t1: Tables, f1: set<nat>, m2: Mem, t2: Tables, f2: set<nat>, first: nat, es: seq<nat>,
                     used: set<nat>)
    requires Mapping(m1, t1, f1, m2, t2, f2, first, es, used)
    ensures Keeps(m1, m2, f1 + t1.Values) && Extends(t1, t2)
  {}

  /** map_segment of a segment that is about to be listed. */
  method MapNext(k: Machine, root: nat, seg: Segment, data: Option<seq<byte>>, len: nat,
                 ghost t: Tables, ghost all: set<nat>, ghost segs: seq<Segment>, ghost gs: seq<nat>)
    returns (r: MapResult, ghost t': Tables, ghost gs': seq<nat>)
    requires Listing(k.mem, t, k.free, all, segs, gs) && Root in t && root == t[Root] && SegmentOk(seg)
    requires data.Some? ==> !seg.linear && len <= |data.value|
    modifies k
    ensures r.OutOfFrames? ==> k.free == {}
    ensures !r.Done? ==> Refused(r, [seg] + segs, |all|)
    ensures r.AlreadyMapped? ==> Shares(segs, seg)
    ensures r.Done? ==> !Shares(segs, seg) && Listing(k.mem, t', k.free, all, [seg] + segs, gs')
    ensures r.Done? ==> Root in t' && t'[Root] == root && Keeps(old(k.mem), k.mem, all)
    ensures r.Done? ==> FramedKept(old(k.mem), t, k.mem, t', segs) && (seg.linear ==> gs' == gs)
    ensures r.Done? && data.Some? ==> Holds(k.mem, t', seg, data.value, len)
  {
    hide Tree, Leaf, Listing, Source, Mapping, Pages, First, FramesOk, Unmapped, Ptes, PageMapped, Space, Clash, Shares,
      FramedKept, Holds, SegmentOk, ListedEntries, OnlyListed, SegmentsOk, TablesOf, SpaceCost, SegmentNeed, Reached;
    ghost var m1, f1 := k.mem, k.free;
    ListingParts(m1, t, f1, all, segs, gs);
    SegmentBounds(seg);
    UnmappedIs(m1, t, segs, seg);
    ListingCost(m1, t, f1, all, segs, gs);
    CostMore(t, segs, seg);
    ClashMore(segs, seg);
    ghost var hs;
    r, hs, t' := k.MapSegment(root, seg, data, len, t);
    gs' := OwnFramesOf(seg, hs) + gs;
    if r.AlreadyMapped? { SomeMapped(m1, t, First(seg), Pages(seg)); }
    if !r.Done? { return; }
    BacksIs(k.mem, seg, hs, data, len);
    AddListed(m1, t, f1, k.mem, t', k.free, all, segs, gs, seg, hs);
    OldKept(m1, t, f1, k.mem, t', k.free, segs, gs, First(seg), Ptes(hs, seg.flags), DataFrames(seg, hs));
    MappingKeeps(m1, t, f1, k.mem, t', k.free, First(seg), Ptes(hs, seg.flags), DataFrames(seg, hs));
    if data.Some? { NewHolds(m1, t, f1, k.mem, t', k.free, seg, hs, data.value, len); }
  }

  lemma BacksIs(m: Mem, seg: Segment, hs: seq<nat>, data: Option<seq<byte>>, len: nat)
    requires |hs| == Pages(seg) && (data.Some? ==> len <= |data.value|) && FramesOk(m, seg, hs, data, len)
    ensures Backs(seg, hs)
  {}

  // ---------- the kernel's segments ----------

  /** The addresses the linker script defines, and the end of memory. */
  datatype Layout = Layout(stext: nat, etext: nat, srodata: nat, erodata: nat, sdata: nat, edata: nat,
                           sbss: nat, ebss: nat, ekernel: nat, memoryEnd: nat)

  const RX: nat := 11  // PAGE_VALID | PAGE_READ | PAGE_EXEC
  const RO: nat := 3
  const RW: nat := 7

  function KernelSegments(l: Layout): seq<Segment> {
    [Segment(l.stext, l.etext, RX, true), Segment(l.srodata, l.erodata, RO, true), Segment(l.sdata, l.edata, RW, true),
     Segment(l.sbss, l.ebss, RW, true), Segment(l.ekernel, l.memoryEnd, RW, true)]
  }

  /** s and r hold the same segments in opposite orders. */
  ghost predicate Reversed(s: seq<Segment>, r: seq<Segment>) {
    |s| == |r| && forall i: nat :: i < |s| ==> s[i] == r[|s| - 1 - i]
  }

  lemma KernelFlags()
    ensures Bit(RX, VALID) && Bit(RX, EXEC) && Bit(RO, VALID) && Bit(RO, READ) && Bit(RW, VALID) && Bit(RW, READ)
  {}

  lemma KernelOk(l: Layout)
    requires forall seg <- KernelSegments(l) :: Pages(seg) <= KEYS
    ensures forall seg <- KernelSegments(l) :: SegmentOk(seg) && Accessible(seg.flags)
  {
    hide Pages, Bit;
    KernelFlags();
    assert forall seg <- KernelSegments(l) :: seg.flags == RX || seg.flags == RO || seg.flags == RW;
  }

  lemma {:induction false} NoOwnPages(segs: seq<Segment>)
    requires forall seg <- segs :: seg.linear
    ensures FramedPages(segs) == []
  {
    if segs != [] {
      assert segs[0] in segs;
      LinearOwnsNothing(segs[0]);
      NoOwnPages(segs[1..]);
    }
  }

  lemma ReversedBack(s: seq<Segment>, r: seq<Segment>)
    requires Reversed(s, r)
    ensures Reversed(r, s)
  {
    forall i: nat | i < |r| ensures r[i] == s[|r| - 1 - i] { assert s[|r| - 1 - i] == r[i]; }
  }

  lemma ReversedClash(s: seq<Segment>, r: seq<Segment>)
    requires Reversed(s, r) && SegmentsOk(s) && Clash(s)
    ensures Clash(r)
  {
    hide Meet, SegmentOk;
    var a: nat, b: nat :| a < b < |s| && Meet(s[a], s[b]);
    assert SegmentOk(s[a]);
    SegmentBounds(s[a]);
    MeetBack(s[a], s[b]);
    ReversedBack(s, r);
    assert s[a] == r[|s| - 1 - a] && s[b] == r[|s| - 1 - b];
  }

  lemma ReversedEntries(m: Mem, t: Tables, s: seq<Segment>, r: seq<Segment>)
    requires Reversed(s, r) && ListedEntries(m, t, s) && OnlyListed(m, t, s) && SegmentsOk(s)
    ensures ListedEntries(m, t, r) && OnlyListed(m, t, r) && SegmentsOk(r)
  {
    hide Leaf, Pages, First, Offset, SegmentOk, ListedEntry;
    ReversedBack(s, r);
    forall i: nat | i < |r| ensures SegmentOk(r[i]) { assert SegmentOk(s[|r| - 1 - i]); }
    forall i: nat, j: nat | i < |r| && j < Pages(r[i]) ensures ListedEntry(m, t, r[i], j) {
      assert ListedEntry(m, t, s[|r| - 1 - i], j);
    }
    forall v: nat | Listed(s, v) ensures Listed(r, v) {
      var i: nat :| i < |s| && Offset(First(s[i]), v) < Pages(s[i]);
      assert s[i] == r[|s| - 1 - i];
    }
  }

  lemma ReversedTables(s: seq<Segment>, r: seq<Segment>)
    requires Reversed(s, r)
    ensures TablesOf(s) == TablesOf(r)
  {
    hide PathTables, First, Pages;
    ReversedBack(s, r);
    forall n | n in TablesOf(s) ensures n in TablesOf(r) {
      if i: nat :| i < |s| && n in PathTables(First(s[i]), Pages(s[i])) { assert s[i] == r[|s| - 1 - i]; }
    }
    forall n | n in TablesOf(r) ensures n in TablesOf(s) {
      if i: nat :| i < |r| && n in PathTables(First(r[i]), Pages(r[i])) { assert r[i] == s[|r| - 1 - i]; }
    }
  }

  /** For linear segments the order of the list does not matter. */
  lemma ReversedListing(m: Mem, t: Tables, free: set<nat>, all: set<nat>, s: seq<Segment>, r: seq<Segment>)
    requires Reversed(s, r) && (forall seg <- s :: seg.linear) && Listing(m, t, free, all, s, [])
    ensures Listing(m, t, free, all, r, []) && (Clash(r) <==> Clash(s))
  {
    hide Space, ListedEntries, OnlyListed, SegmentsOk, OwnFrames, Clash, PathTables;
    ReversedBack(s, r);
    forall seg <- r ensures seg.linear {
      var i: nat :| i < |r| && r[i] == seg;
      assert seg == s[|r| - 1 - i] && seg in s;
    }
    NoOwnPages(s);
    NoOwnPages(r);
    ReversedEntries(m, t, s, r);
    ReversedTables(s, r);
    if Clash(s) { ReversedClash(s, r); }
    if Clash(r) { ReversedClash(r, s); }
  }

  // ---------- what the walk finds in the kernel's ranges ----------

  /** The walk for an address ends at a level-0 entry with just these permissions; for
      an address in the kernel's map the frame is the one it stands for. */
  ghost predicate WalkPermits(m: Mem, root: nat, va: nat, read: bool, write: bool, exec: bool) {
    var w := Walk(m, root, va / PAGE_SIZE, 2);
    && w.Maps? && w.level == 0
    && (Bit(w.pte, 1) <==> read) && (Bit(w.pte, 2) <==> write) && (Bit(w.pte, 3) <==> exec)
    && (va >= KERNEL_MAP_OFFSET ==> PAGE_SIZE * PtePpn(w.pte) + va % PAGE_SIZE + KERNEL_MAP_OFFSET == va)
  }

  ghost predicate RangePermits(m: Mem, root: nat, start: nat, end: nat, read: bool, write: bool, exec: bool) {
    forall va: nat :: start <= va < end <= WORD ==> WalkPermits(m, root, va, read, write, exec)
  }

  /** The kernel's code can be read and executed, its constants can be read, and the
      rest of memory can be read and written. */
  ghost predicate KernelMapped(m: Mem, root: nat, l: Layout) {
    && RangePermits(m, root, l.stext, l.etext, true, false, true)
    && RangePermits(m, root, l.srodata, l.erodata, true, false, false)
    && RangePermits(m, root, l.sdata, l.edata, true, true, false)
    && RangePermits(m, root, l.sbss, l.ebss, true, true, false)
    && RangePermits(m, root, l.ekernel, l.memoryEnd, true, true, false)
  }

  lemma CoveredWord(va: nat)
    requires KERNEL_MAP_OFFSET <= va < WORD
    ensures Covered(va / PAGE_SIZE) && PAGE_SIZE * (va / PAGE_SIZE) + va % PAGE_SIZE == va
  {}

  lemma ListedPermits(m: Mem, t: Tables, free: set<nat>, all: set<nat>, segs: seq<Segment>, gs: seq<nat>, seg: Segment,
                      va: nat)
    requires Listing(m, t, free, all, segs, gs) && seg in segs && seg.linear && Translates(seg.flags)
    requires seg.start <= va < seg.end <= WORD
    ensures Root in t
    ensures WalkPermits(m, t[Root], va, Bit(seg.flags, READ), Bit(seg.flags, WRITE), Bit(seg.flags, EXEC))
  {
    hide Leaf, MakePte, PtePpn, Bit, Source, OnlyListed, PageCount, Tree, Translates, Walk, LinearFrame, Covered;
    var v := va / PAGE_SIZE;
    assert OnPage(va, v);
    PageVisited(seg.start, seg.end, v);
    var s: nat :| s < |segs| && segs[s] == seg;
    ListingParts(m, t, free, all, segs, gs);
    assert ListedEntry(m, t, segs[s], v - First(seg)) && SegmentOk(segs[s]);
    WalkOfEntry(m, t, v, LinearFrame(v), seg.flags);
    FlagBits(LinearFrame(v), seg.flags, READ);
    FlagBits(LinearFrame(v), seg.flags, WRITE);
    FlagBits(LinearFrame(v), seg.flags, EXEC);
    if va >= KERNEL_MAP_OFFSET {
      CoveredWord(va);
      LinearAddress(v);
      PpnRoundTrip(LinearFrame(v), seg.flags);
    }
  }

  lemma RangeOf(m: Mem, t: Tables, free: set<nat>, all: set<nat>, segs: seq<Segment>, gs: seq<nat>, seg: Segment)
    requires Listing(m, t, free, all, segs, gs) && seg in segs && seg.linear && Translates(seg.flags)
    ensures Root in t && RangePermits(m, t[Root], seg.start, seg.end, Bit(seg.flags, READ), Bit(seg.flags, WRITE),
                                      Bit(seg.flags, EXEC))
  {
    hide Listing, Translates, Bit, WalkPermits;
    ListingParts(m, t, free, all, segs, gs);
    forall va: nat | seg.start <= va < seg.end <= WORD
      ensures WalkPermits(m, t[Root], va, Bit(seg.flags, READ), Bit(seg.flags, WRITE), Bit(seg.flags, EXEC))
    {
      ListedPermits(m, t, free, all, segs, gs, seg, va);
    }
  }

  /** An address space whose list has the kernel's segments in it maps the kernel. */
  lemma KernelRanges(m: Mem, t: Tables, free: set<nat>, all: set<nat>, segs: seq<Segment>, gs: seq<nat>, l: Layout)
    requires Listing(m, t, free, all, segs, gs) && forall seg <- KernelSegments(l) :: seg in segs
    ensures Root in t && KernelMapped(m, t[Root], l)
  {
    hide Listing, RangePermits;
    ListingParts(m, t, free, all, segs, gs);
    var ks := KernelSegments(l);
    assert ks[0] in ks && ks[1] in ks && ks[2] in ks && ks[3] in ks && ks[4] in ks;
    RangeOf(m, t, free, all, segs, gs, ks[0]);
    RangeOf(m, t, free, all, segs, gs, ks[1]);
    RangeOf(m, t, free, all, segs, gs, ks[2]);
    RangeOf(m, t, free, all, segs, gs, ks[3]);
    RangeOf(m, t, free, all, segs, gs, ks[4]);
  }

  // ---------- new_kernel_memory_map ----------

  /** A fresh root table lists nothing. */
  lemma FreshListing(m: Mem, m': Mem, all: set<nat>, f: nat)
    requires FreeOk(m, all) && f in all && Keeps(m, m', all) && Backed(m', f, ZeroPage())
    ensures Listing(m', map[Root := f], all - {f}, all, [], []) && !Clash([])
  {
    hide Leaf, ZeroPage, Space, OwnFrames;
    FreshRoot(m, m', map[], all, f);
  }

  lemma KeepsAll(m0: Mem, m1: Mem, m2: Mem, all: set<nat>)
    requires Keeps(m0, m1, all) && Keeps(m1, m2, all)
    ensures Keeps(m0, m2, all)
  {}

  /** map_segment of one of the kernel's segments. */
  method MapKernel(k: Machine, root: nat, seg: Segment, ghost t: Tables, ghost all: set<nat>, ghost segs: seq<Segment>,
                   ghost m0: Mem)
    returns (r: MapResult, ghost t': Tables)
    requires Listing(k.mem, t, k.free, all, segs, []) && Root in t && root == t[Root] && SegmentOk(seg) && seg.linear
    requires Keeps(m0, k.mem, all) && !Clash(segs)
    modifies k
    ensures r.OutOfFrames? ==> k.free == {}
    ensures !r.Done? ==> Refused(r, [seg] + segs, |all|)
    ensures r.Done? ==> !Clash([seg] + segs) && Listing(k.mem, t', k.free, all, [seg] + segs, [])
    ensures r.Done? ==> Root in t' && t'[Root] == root && Keeps(m0, k.mem, all)
  {
    hide Listing, SegmentOk, Keeps, Clash, Shares, FramedKept, Refused;
    ghost var gs, m1 := [], k.mem;
    ClashMore(segs, seg);
    r, t', gs := MapNext(k, root, seg, None, 0, t, all, segs, []);
    if r.Done? { KeepsAll(m0, m1, k.mem, all); }
  }

  /** What an unfinished list clashes in, the whole list does. */
  lemma {:induction false} ClashGrows(pre: seq<Segment>, segs: seq<Segment>)
    requires Clash(segs)
    ensures Clash(pre + segs)
  {
    hide Clash;
    if pre == [] {
      assert pre + segs == segs;
    } else {
      ClashGrows(pre[1..], segs);
      assert pre + segs == [pre[0]] + (pre[1..] + segs);
      ClashMore(pre[1..] + segs, pre[0]);
    }
  }

  lemma {:induction false} CostGrows(pre: seq<Segment>, segs: seq<Segment>)
    ensures SpaceCost(segs) <= SpaceCost(pre + segs)
  {
    hide SpaceCost;
    if pre == [] {
      assert pre + segs == segs;
    } else {
      CostGrows(pre[1..], segs);
      assert pre + segs == [pre[0]] + (pre[1..] + segs);
      CostLess(pre[1..] + segs, pre[0]);
    }
  }

  lemma ReversedCost(s: seq<Segment>, r: seq<Segment>)
    requires Reversed(s, r) && forall seg <- s :: seg.linear
    ensures SpaceCost(s) == SpaceCost(r)
  {
    hide TablesOf;
    ReversedTables(s, r);
    forall seg <- r ensures seg.linear {
      var i: nat :| i < |r| && r[i] == seg;
      ReversedBack(s, r);
      assert seg == s[|r| - 1 - i];
    }
    NoOwnPages(s);
    NoOwnPages(r);
  }

  lemma KernelRefused(l: Layout, pre: seq<Segment>, part: seq<Segment>, r: MapResult, n: nat)
    requires Reversed(pre + part, KernelSegments(l)) && SegmentsOk(pre + part) && forall seg <- pre + part :: seg.linear
    requires Refused(r, part, n)
    ensures Refused(r, KernelSegments(l), n)
  {
    hide Clash, SegmentsOk, Reversed, KernelSegments, SpaceCost;
    if r.AlreadyMapped? {
      ClashGrows(pre, part);
      ReversedClash(pre + part, KernelSegments(l));
    }
    CostGrows(pre, part);
    ReversedCost(pre + part, KernelSegments(l));
  }

  /** The kernel's segments in the order in which they are mapped */
  ghost predicate KernelNames(l: Layout, text: Segment, rodata: Segment, data: Segment, bss: Segment, other: Segment) {
    && KernelSegments(l) == [text, rodata, data, bss, other]
    && forall seg <- [other, bss, data, rodata, text] :: SegmentOk(seg) && seg.linear
  }

  lemma KernelReversed(l: Layout, text: Segment, rodata: Segment, data: Segment, bss: Segment, other: Segment)
    requires KernelNames(l, text, rodata, data, bss, other)
    ensures var p1 := [text] + [];
      var p2 := [rodata] + p1;
      var p3 := [data] + p2;
      var p4 := [bss] + p3;
      var p5 := [other] + p4;
      && Reversed(p5, KernelSegments(l)) && SegmentsOk(p5) && (forall seg <- p5 :: seg.linear)
      && p5 == [] + p5 == [other] + p4 == [other, bss] + p3
      && p5 == [other, bss, data] + p2 == [other, bss, data, rodata] + p1
  {
    hide SegmentOk;
    var r := [other, bss, data, rodata, text];
    assert r == [other] + ([bss] + ([data] + ([rodata] + ([text] + []))));
    forall i: nat | i < 5 ensures SegmentOk(r[i]) { assert r[i] in r; }
  }

  lemma InOrder(a: Segment, b: Segment, c: Segment, d: Segment, e: Segment)
    ensures [a] + ([b] + ([c] + ([d] + ([e] + [])))) == [a, b, c, d, e]
  {}

  /** new_kernel_memory_map: done exactly when no two of the kernel's segments share
      a page and there are as many free frames as its tables take. */
  method NewKernelMemoryMap(k: Machine, l: Layout) returns (r: MapResult, mm: MemoryMap, ghost t: Tables)
    requires FreeOk(k.mem, k.free) && forall seg <- KernelSegments(l) :: Pages(seg) <= KEYS
    modifies k
    ensures fresh(mm)
    ensures r.Done? <==> !Clash(KernelSegments(l)) && SpaceCost(KernelSegments(l)) <= |old(k.free)|
    ensures r.OutOfFrames? ==> k.free == {}
    ensures !r.Done? ==> Refused(r, KernelSegments(l), |old(k.free)|)
    ensures r.Done? ==> !Clash(KernelSegments(l)) && mm.segments == KernelSegments(l)
    ensures r.Done? ==> Listing(k.mem, t, k.free, old(k.free), mm.segments, [])
    ensures r.Done? ==> Root in t && mm.root == t[Root] && Keeps(old(k.mem), k.mem, old(k.free))
    ensures r.Done? ==> KernelMapped(k.mem, mm.root, l)
  {
    hide Listing, SegmentOk, Keeps, Clash, Pages, FreeOk, SegmentsOk, Reversed, Accessible, SpaceCost, KernelMapped;
    ghost var m, all := k.mem, k.free;
    KernelOk(l);
    var root := k.AllocFrame();
    mm := new MemoryMap(if root.None? then 0 else root.value);
    t := map[];
    CostPositive(KernelSegments(l));
    if root.None? { return OutOfFrames, mm, t; }
    FreshListing(m, k.mem, all, root.value);
    t := map[Root := root.value];
    var text := Segment(l.stext, l.etext, RX, true);
    var rodata := Segment(l.srodata, l.erodata, RO, true);
    var data := Segment(l.sdata, l.edata, RW, true);
    var bss := Segment(l.sbss, l.ebss, RW, true);
    var other := Segment(l.ekernel, l.memoryEnd, RW, true);
    KernelReversed(l, text, rodata, data, bss, other);
    ghost var p1 := [text] + [];
    ghost var p2 := [rodata] + p1;
    ghost var p3 := [data] + p2;
    ghost var p4 := [bss] + p3;
    ghost var p5 := [other] + p4;
    r, t := MapKernel(k, mm.root, text, t, all, [], m);
    if !r.Done? { KernelRefused(l, [other, bss, data, rodata], p1, r, |all|); return; }
    r, t := MapKernel(k, mm.root, rodata, t, all, p1, m);
    if !r.Done? { KernelRefused(l, [other, bss, data], p2, r, |all|); return; }
    r, t := MapKernel(k, mm.root, data, t, all, p2, m);
    if !r.Done? { KernelRefused(l, [other, bss], p3, r, |all|); return; }
    r, t := MapKernel(k, mm.root, bss, t, all, p3, m);
    if !r.Done? { KernelRefused(l, [other], p4, r, |all|); return; }
    r, t := MapKernel(k, mm.root, other, t, all, p4, m);
    if !r.Done? { KernelRefused(l, [], p5, r, |all|); return; }
    ReversedListing(k.mem, t, k.free, all, p5, KernelSegments(l));
    ListingCost(k.mem, t, k.free, all, KernelSegments(l), []);
    mm.segments := [other] + mm.segments;
    mm.segments := [bss] + mm.segments;
    mm.segments := [data] + mm.segments;
    mm.segments := [rodata] + mm.segments;
    mm.segments := [text] + mm.segments;
    InOrder(text, rodata, data, bss, other);
    KernelRanges(k.mem, t, k.free, all, mm.segments, [], l);
  }

  // ---------- convert_flags ----------

  const USER: nat := 4

  function With(res: nat, on: bool, i: nat): nat {
    if on then Or(res, Pow2(i)) else res
  }

  /** Page flags for the permissions of a program header: execute, write, read. */
  function Converted(flags: nat): nat {
    var res := Or(Pow2(VALID), Pow2(USER));
    With(With(With(res, Bit(flags, 0), EXEC), Bit(flags, 1), WRITE), Bit(flags, 2), READ)
  }

  lemma WithBits(res: nat, on: bool, i: nat, j: nat)
    requires i < 10
    ensures Bit(With(res, on, i), j) <==> Bit(res, j) || (on && j == i)
    ensures res < FLAG_LIMIT ==> With(res, on, i) < FLAG_LIMIT
  {
    hide Or, Pow2, Bit;
    OrBit(res, Pow2(i), j);
    Pow2Bit(i, j);
    Pow2At10();
    Pow2Mono(i + 1, 10);
    Pow2Mono(i, i + 1);
    if res < FLAG_LIMIT { OrBelow(res, Pow2(i), 10); }
  }

  /** Flags are bits 0 and 4 and one bit for each permission, and nothing else. */
  lemma ConvertedIs(flags: nat, j: nat)
    ensures Converted(flags) < FLAG_LIMIT
    ensures Bit(Converted(flags), j) <==>
      || j == VALID || j == USER
      || (j == EXEC && Bit(flags, 0)) || (j == WRITE && Bit(flags, 1)) || (j == READ && Bit(flags, 2))
  {
    hide With, Or, Pow2, Bit;
    Pow2At10();
    var one := Pow2(VALID);
    Pow2Mono(VALID, 10);
    Pow2Bit(VALID, j);
    Pow2AtNone();
    var r0 := With(one, true, USER);
    WithBits(one, true, USER, j);
    WithUser(one);
    var r1 := With(r0, Bit(flags, 0), EXEC);
    WithBits(r0, Bit(flags, 0), EXEC, j);
    WithBits(r1, Bit(flags, 1), WRITE, j);
    WithBits(With(r1, Bit(flags, 1), WRITE), Bit(flags, 2), READ, j);
  }

  lemma Pow2AtNone()
    ensures Pow2(0) == 1
  {}

  lemma WithUser(one: nat)
    ensures With(one, true, USER) == Or(one, Pow2(USER))
  {}

  /** convert_flags */
  method ConvertFlags(flags: nat) returns (res: nat)
    ensures res == Converted(flags)
  {
    hide And, Or, Bit;
    AndPow2(flags, 0);
    AndPow2(flags, 1);
    AndPow2(flags, 2);
    res := Or(1, 16);
    if And(flags, 1) != 0 { res := Or(res, 8); }
    if And(flags, 2) != 0 { res := Or(res, 4); }
    if And(flags, 4) != 0 { res := Or(res, 2); }
  }

  /** A segment's pages can be told from tables exactly when its header has a permission. */
  lemma ConvertedAccessible(flags: nat)
    ensures Accessible(Converted(flags)) <==> Bit(flags, 0) || Bit(flags, 1) || Bit(flags, 2)
  {
    hide Converted, Bit;
    ConvertedIs(flags, EXEC);
    ConvertedIs(flags, WRITE);
    ConvertedIs(flags, READ);
  }

  // ---------- executables ----------

  /** struct ProgHeader, the fields that from_elf reads */
  datatype ProgHeader = ProgHeader(kind: nat, flags: nat, offset: nat, vaddr: nat, memsz: nat)

  const HEADER_SIZE: nat := 56  // sizeof(struct ProgHeader)
  const ELF_SIZE: nat := 64     // sizeof(struct ElfHeader)
  const PROG_LOAD: nat := 1

  predicate HasMagic(elf: seq<byte>)
    requires |elf| >= 4
  {
    elf[0] == 0x7f && elf[1] == 0x45 && elf[2] == 0x4c && elf[3] == 0x46
  }

  function HeaderAt(elf: seq<byte>, off: nat): ProgHeader
    requires off + HEADER_SIZE <= |elf|
  {
    ProgHeader(Get(elf, off, 4), Get(elf, off + 4, 4), Get(elf, off + 8, 8),
               Get(elf, off + 16, 8), Get(elf, off + 40, 8))
  }

  /** The program headers: e_phnum of them from e_phoff on */
  function Headers(elf: seq<byte>): seq<ProgHeader>
    requires |elf| >= ELF_SIZE && Get(elf, 32, 8) + HEADER_SIZE * Get(elf, 56, 2) <= |elf|
  {
    var off, n := Get(elf, 32, 8), Get(elf, 56, 2);
    seq(n, (i: nat) requires i < n => HeaderAt(elf, off + HEADER_SIZE * i))
  }

  /** The fields of struct ProgHeader that from_elf does not read */
  datatype Unread = Unread(paddr: nat, filesz: nat, align: nat)

  /** struct ProgHeader as it lies in memory */
  function HeaderBytes(h: ProgHeader, u: Unread): (s: seq<byte>)
    ensures |s| == HEADER_SIZE
  {
    ToLe(h.kind, 4) + ToLe(h.flags, 4) + ToLe(h.offset, 8) + ToLe(h.vaddr, 8)
      + ToLe(u.paddr, 8) + ToLe(u.filesz, 8) + ToLe(h.memsz, 8) + ToLe(u.align, 8)
  }

  /** The fields fit their places. */
  ghost predicate HeaderFits(h: ProgHeader) {
    h.kind < Pow2(32) && h.flags < Pow2(32) && h.offset < Pow2(64) && h.vaddr < Pow2(64) && h.memsz < Pow2(64)
  }

  lemma HeaderBack(elf: seq<byte>, off: nat, h: ProgHeader, u: Unread)
    requires off + HEADER_SIZE <= |elf| && HeaderFits(h) && elf[off..off + HEADER_SIZE] == HeaderBytes(h, u)
    ensures HeaderAt(elf, off) == h
  {
    hide Get, Pow2, ToLe;
    var k, f, o, v := ToLe(h.kind, 4), ToLe(h.flags, 4), ToLe(h.offset, 8), ToLe(h.vaddr, 8);
    var p, z, m, a := ToLe(u.paddr, 8), ToLe(u.filesz, 8), ToLe(h.memsz, 8), ToLe(u.align, 8);
    var s := HeaderBytes(h, u);
    assert s == [] + k + (f + o + v + p + z + m + a);
    assert s == k + f + (o + v + p + z + m + a);
    assert s == (k + f) + o + (v + p + z + m + a);
    assert s == (k + f + o) + v + (p + z + m + a);
    assert s == (k + f + o + v + p + z) + m + a;
    GetField(elf, off, [], h.kind, 4, f + o + v + p + z + m + a);
    GetField(elf, off, k, h.flags, 4, o + v + p + z + m + a);
    GetField(elf, off, k + f, h.offset, 8, v + p + z + m + a);
    GetField(elf, off, k + f + o, h.vaddr, 8, p + z + m + a);
    GetField(elf, off, k + f + o + v + p + z, h.memsz, 8, a);
  }

  /** struct ElfHeader as it lies in memory, from e_type on in three parts: up to
      e_phoff, from there to e_phnum, and the rest */
  function FileHeader(ident: seq<byte>, kind: nat, machine: nat, version: nat, entry: nat, phoff: nat, shoff: nat,
                      flags: nat, ehsize: nat, phentsize: nat, phnum: nat, rest: seq<byte>): seq<byte> {
    ident + ToLe(kind, 2) + ToLe(machine, 2) + ToLe(version, 4) + ToLe(entry, 8) + ToLe(phoff, 8)
      + ToLe(shoff, 8) + ToLe(flags, 4) + ToLe(ehsize, 2) + ToLe(phentsize, 2) + ToLe(phnum, 2) + rest
  }

  lemma FileHeaderBack(elf: seq<byte>, ident: seq<byte>, kind: nat, machine: nat, version: nat, entry: nat, phoff: nat,
                       shoff: nat, flags: nat, ehsize: nat, phentsize: nat, phnum: nat, rest: seq<byte>)
    requires |elf| >= ELF_SIZE && |ident| == 16 && |rest| == 6 && phoff < Pow2(64) && phnum < Pow2(16)
    requires elf[..ELF_SIZE] ==
      FileHeader(ident, kind, machine, version, entry, phoff, shoff, flags, ehsize, phentsize, phnum, rest)
    ensures Get(elf, 32, 8) == phoff && Get(elf, 56, 2) == phnum
  {
    hide Get, Pow2, ToLe;
    var a := ident + ToLe(kind, 2) + ToLe(machine, 2) + ToLe(version, 4) + ToLe(entry, 8);
    var b := ToLe(shoff, 8) + ToLe(flags, 4) + ToLe(ehsize, 2) + ToLe(phentsize, 2);
    assert elf[..ELF_SIZE] == elf[0..0 + ELF_SIZE] == a + ToLe(phoff, 8) + (b + ToLe(phnum, 2) + rest);
    assert elf[..ELF_SIZE] == (a + ToLe(phoff, 8) + b) + ToLe(phnum, 2) + rest;
    GetField(elf, 0, a, phoff, 8, b + ToLe(phnum, 2) + rest);
    GetField(elf, 0, a + ToLe(phoff, 8) + b, phnum, 2, rest);
  }

  /** The program headers that were stored from phoff on are read back. */
  lemma HeadersBack(elf: seq<byte>, hs: seq<ProgHeader>, us: seq<Unread>)
    requires |elf| >= ELF_SIZE && Get(elf, 32, 8) + HEADER_SIZE * Get(elf, 56, 2) <= |elf|
    requires |hs| == |us| == Get(elf, 56, 2) && forall i: nat :: i < |hs| ==> HeaderFits(hs[i])
    requires forall i: nat :: i < |hs| ==>
      var off := Get(elf, 32, 8) + HEADER_SIZE * i; elf[off..off + HEADER_SIZE] == HeaderBytes(hs[i], us[i])
    ensures Headers(elf) == hs
  {
    hide Get, HeaderBytes, HeaderAt, HeaderFits;
    forall i: nat | i < |hs| ensures Headers(elf)[i] == hs[i] {
      HeaderBack(elf, Get(elf, 32, 8) + HEADER_SIZE * i, hs[i], us[i]);
    }
  }

  function EndOf(h: ProgHeader): nat {
    (h.vaddr + h.memsz) % WORD
  }

  /** from_elf maps what is loadable and not empty. */
  predicate Loads(h: ProgHeader) {
    h.kind == PROG_LOAD && h.vaddr != EndOf(h)
  }

  function SegmentOf(h: ProgHeader): Segment {
    Segment(h.vaddr, EndOf(h), Converted(h.flags), false)
  }

  /** The segment list after these headers, each of which is put at its head */
  function Segments(hs: seq<ProgHeader>, rest: seq<Segment>): seq<Segment> {
    if hs == [] then rest else Segments(hs[1..], if Loads(hs[0]) then [SegmentOf(hs[0])] + rest else rest)
  }

  /** The bytes a header refers to are there, and its pages are canonical. */
  ghost predicate HeaderOk(elf: seq<byte>, h: ProgHeader) {
    Loads(h) ==> h.offset + h.memsz <= |elf| && Pages(SegmentOf(h)) <= KEYS
  }

  /** elf is the memory from the start of the executable on. */
  ghost predicate ElfOk(elf: seq<byte>) {
    && |elf| >= ELF_SIZE && Get(elf, 32, 8) + HEADER_SIZE * Get(elf, 56, 2) <= |elf|
    && forall h <- Headers(elf) :: HeaderOk(elf, h)
  }

  /** The header's bytes are in memory where it wants them. */
  ghost predicate Loaded(m: Mem, t: Tables, elf: seq<byte>, h: ProgHeader) {
    h.offset + h.memsz <= |elf| && Holds(m, t, SegmentOf(h), elf[h.offset..], h.memsz)
  }

  ghost predicate AllLoaded(m: Mem, t: Tables, elf: seq<byte>, hs: seq<ProgHeader>, segs: seq<Segment>) {
    forall h <- hs :: Loads(h) ==> SegmentOf(h) in segs && Loaded(m, t, elf, h)
  }

  lemma {:induction false} SegmentsClash(hs: seq<ProgHeader>, rest: seq<Segment>)
    requires Clash(rest)
    ensures Clash(Segments(hs, rest))
    decreases |hs|
  {
    hide Clash, Loads, SegmentOf;
    if hs != [] {
      ClashMore(rest, SegmentOf(hs[0]));
      SegmentsClash(hs[1..], if Loads(hs[0]) then [SegmentOf(hs[0])] + rest else rest);
    }
  }

  lemma HeaderSegment(elf: seq<byte>, h: ProgHeader)
    requires HeaderOk(elf, h) && Loads(h)
    ensures h.offset + h.memsz <= |elf| && SegmentOk(SegmentOf(h))
  {
    hide Converted, Pages, Bit;
    ConvertedIs(h.flags, VALID);
  }

  /** Headers loaded before stay loaded. */
  lemma StillLoaded(m1: Mem, t1: Tables, m2: Mem, t2: Tables, elf: seq<byte>, hs: seq<ProgHeader>, segs: seq<Segment>,
                    seg: Segment)
    requires AllLoaded(m1, t1, elf, hs, segs) && FramedKept(m1, t1, m2, t2, segs)
    ensures AllLoaded(m2, t2, elf, hs, [seg] + segs)
  {
    hide Holds, SegmentKept, Loads, Converted, EndOf;
    forall h <- hs | Loads(h) ensures SegmentOf(h) in [seg] + segs && Loaded(m2, t2, elf, h) {
      KeptHolds(m1, t1, m2, t2, SegmentOf(h), elf[h.offset..], h.memsz);
    }
  }

  datatype LoadResult = Done | NotElf | Failed(why: MapResult)

  /** One round of the loop over the program headers */
  method LoadHeader(k: Machine, mm: MemoryMap, elf: seq<byte>, h: ProgHeader, ghost hs: seq<ProgHeader>,
                    ghost m0: Mem, ghost all: set<nat>, ghost t: Tables, ghost gs: seq<nat>)
    returns (r: MapResult, ghost t': Tables, ghost gs': seq<nat>)
    requires HeaderOk(elf, h) && AllLoaded(k.mem, t, elf, hs, mm.segments) && !Clash(mm.segments)
    requires Keeps(m0, k.mem, all)
    requires Listing(k.mem, t, k.free, all, mm.segments, gs) && Root in t && mm.root == t[Root]
    modifies k, mm
    ensures r.OutOfFrames? ==> k.free == {}
    ensures !r.Done? ==> Refused(r, Segments([h], old(mm.segments)), |all|)
    ensures r.Done? ==> mm.segments == Segments([h], old(mm.segments)) && !Clash(mm.segments)
    ensures r.Done? && h.kind == 1 && 0 < h.memsz < WORD ==>
      mm.segments == [Segment(h.vaddr, (h.vaddr + h.memsz) % WORD, Converted(h.flags), false)] + old(mm.segments)
    ensures r.Done? && (h.kind != 1 || (h.memsz == 0 && h.vaddr < WORD)) ==> mm.segments == old(mm.segments)
    ensures r.Done? ==> Listing(k.mem, t', k.free, all, mm.segments, gs') && Root in t' && mm.root == t'[Root]
    ensures r.Done? ==> AllLoaded(k.mem, t', elf, hs + [h], mm.segments) && Keeps(m0, k.mem, all)
  {
    hide Listing, Clash, Holds, Converted, Shares, SegmentOk, FramedKept, Keeps, Pages, HeaderOk, AllLoaded, Refused;
    r, t', gs' := MapResult.Done, t, gs;
    ghost var m1 := k.mem;
    if !Loads(h) { NotLoaded(m1, t, elf, hs, mm.segments, h); }
    if h.kind != PROG_LOAD { return; }
    var flags := ConvertFlags(h.flags);
    var start, end := h.vaddr, (h.vaddr + h.memsz) % WORD;
    if start == end { return; }
    var seg := Segment(start, end, flags, false);
    HeaderSegment(elf, h);
    ClashMore(mm.segments, seg);
    ghost var segs := mm.segments;
    r, t', gs' := MapNext(k, mm.root, seg, Some(elf[h.offset..]), h.memsz, t, all, segs, gs);
    if !r.Done? { return; }
    mm.segments := [seg] + mm.segments;
    StillLoaded(m1, t, k.mem, t', elf, hs, segs, seg);
    OneLoaded(k.mem, t', elf, hs, mm.segments, h);
    KeepsAll(m0, m1, k.mem, all);
  }

  lemma NotLoaded(m: Mem, t: Tables, elf: seq<byte>, hs: seq<ProgHeader>, segs: seq<Segment>, h: ProgHeader)
    requires AllLoaded(m, t, elf, hs, segs) && !Loads(h)
    ensures AllLoaded(m, t, elf, hs + [h], segs)
  {}

  lemma OneLoaded(m: Mem, t: Tables, elf: seq<byte>, hs: seq<ProgHeader>, segs: seq<Segment>, h: ProgHeader)
    requires AllLoaded(m, t, elf, hs, segs) && SegmentOf(h) in segs && Loaded(m, t, elf, h)
    ensures AllLoaded(m, t, elf, hs + [h], segs)
  {}

  lemma {:induction false} SegmentsSplit(hs: seq<ProgHeader>, more: seq<ProgHeader>, rest: seq<Segment>)
    ensures Segments(hs + more, rest) == Segments(more, Segments(hs, rest))
    decreases |hs|
  {
    hide Loads, SegmentOf;
    if hs == [] {
      assert hs + more == more;
    } else {
      assert (hs + more)[1..] == hs[1..] + more;
      SegmentsSplit(hs[1..], more, if Loads(hs[0]) then [SegmentOf(hs[0])] + rest else rest);
    }
  }

  lemma NextHeader(elf: seq<byte>, i: nat, rest: seq<Segment>)
    requires ElfOk(elf) && i < |Headers(elf)|
    ensures var hs := Headers(elf); var off := Get(elf, 32, 8) + HEADER_SIZE * i;
      && off + HEADER_SIZE <= |elf| && hs[i] == HeaderAt(elf, off) && HeaderOk(elf, hs[i])
      && hs[..i] + [hs[i]] == hs[..i + 1]
      && Segments(hs[..i + 1], rest) == Segments([hs[i]], Segments(hs[..i], rest))
  {
    hide Get, HeaderAt, HeaderOk, Loads, SegmentOf;
    var hs := Headers(elf);
    assert hs[i] in hs;
    assert hs[..i] + [hs[i]] == hs[..i + 1];
    SegmentsSplit(hs[..i], [hs[i]], rest);
  }

  lemma {:induction false} SegmentsCost(hs: seq<ProgHeader>, rest: seq<Segment>)
    ensures SpaceCost(rest) <= SpaceCost(Segments(hs, rest))
    decreases |hs|
  {
    hide SpaceCost, Loads, SegmentOf;
    if hs != [] {
      CostLess(rest, SegmentOf(hs[0]));
      SegmentsCost(hs[1..], if Loads(hs[0]) then [SegmentOf(hs[0])] + rest else rest);
    }
  }

  lemma LaterRefused(hs: seq<ProgHeader>, i: nat, rest: seq<Segment>, r: MapResult, n: nat)
    requires i <= |hs| && Refused(r, Segments(hs[..i], rest), n)
    ensures Refused(r, Segments(hs, rest), n)
  {
    hide Clash, SpaceCost;
    assert hs[..i] + hs[i..] == hs;
    SegmentsSplit(hs[..i], hs[i..], rest);
    SegmentsCost(hs[i..], Segments(hs[..i], rest));
    if r.AlreadyMapped? { SegmentsClash(hs[i..], Segments(hs[..i], rest)); }
  }

  /** from_elf: done exactly for an executable of which no two segments share a page,
      with as many free frames as its address space takes.  The list names exactly
      what is mapped, everything taken from the free frames is in the tables or backs
      a listed segment, the bytes of every loadable header are where it wants them,
      and nothing else but the kernel's ranges is mapped. */
  method FromElf(k: Machine, l: Layout, elf: seq<byte>)
    returns (r: LoadResult, mm: MemoryMap, ghost t: Tables, ghost gs: seq<nat>)
    requires FreeOk(k.mem, k.free) && (forall seg <- KernelSegments(l) :: Pages(seg) <= KEYS) && ElfOk(elf)
    modifies k
    ensures fresh(mm)
    ensures var list := Segments(Headers(elf), KernelSegments(l));
      r.Done? <==> elf[..4] == [0x7f, 0x45, 0x4c, 0x46] && !Clash(list) && SpaceCost(list) <= |old(k.free)|
    ensures r.NotElf? ==> elf[..4] != [0x7f, 0x45, 0x4c, 0x46]
    ensures r.Failed? ==> Refused(r.why, Segments(Headers(elf), KernelSegments(l)), |old(k.free)|)
    ensures r.Failed? && r.why.OutOfFrames? ==> k.free == {}
    ensures r.Done? ==> mm.segments == Segments(Headers(elf), KernelSegments(l)) && !Clash(mm.segments)
    ensures r.Done? ==> Listing(k.mem, t, k.free, old(k.free), mm.segments, gs) && Root in t && mm.root == t[Root]
    ensures r.Done? ==> AllLoaded(k.mem, t, elf, Headers(elf), mm.segments) && Keeps(old(k.mem), k.mem, old(k.free))
    ensures r.Done? ==> KernelMapped(k.mem, mm.root, l) && ProgramReads(k.mem, mm.root, elf, Headers(elf))
    ensures r.Done? ==> OnlyProgram(k.mem, t, Headers(elf), KernelSegments(l))
  {
    hide Listing, Clash, Keeps, AllLoaded, KernelSegments, Pages, HeaderOk, FreeOk, Get, HeaderAt, SpaceCost,
      KernelMapped, ProgramReads, OnlyProgram;
    ghost var m0, all, ks := k.mem, k.free, KernelSegments(l);
    var why;
    gs := [];
    why, mm, t := NewKernelMemoryMap(k, l);
    ghost var hs := Headers(elf);
    assert hs[..0] == [];
    if !why.Done? {
      LaterRefused(hs, 0, ks, why, |all|);
      return Failed(why), mm, t, gs;
    }
    if !HasMagic(elf) { return NotElf, mm, t, gs; }
    NoneLoaded(k.mem, t, elf, mm.segments);
    var off, n := Get(elf, 32, 8), Get(elf, 56, 2);
    var i := 0;
    while i < n
      invariant i <= n && off == Get(elf, 32, 8) + HEADER_SIZE * i && fresh(mm)
      invariant mm.segments == Segments(hs[..i], ks) && !Clash(mm.segments)
      invariant Listing(k.mem, t, k.free, all, mm.segments, gs) && Root in t && mm.root == t[Root]
      invariant AllLoaded(k.mem, t, elf, hs[..i], mm.segments) && Keeps(m0, k.mem, all)
    {
      NextHeader(elf, i, ks);
      why, t, gs := LoadHeader(k, mm, elf, HeaderAt(elf, off), hs[..i], m0, all, t, gs);
      if !why.Done? {
        LaterRefused(hs, i + 1, ks, why, |all|);
        return Failed(why), mm, t, gs;
      }
      i, off := i + 1, off + HEADER_SIZE;
    }
    assert hs[..n] == hs;
    ListingCost(k.mem, t, k.free, all, mm.segments, gs);
    SegmentsKeep(hs, ks);
    KernelRanges(k.mem, t, k.free, all, mm.segments, gs, l);
    ProgramFound(k.mem, t, k.free, all, mm.segments, gs, elf, hs);
    HeaderWords(elf);
    ProgramOnly(k.mem, t, k.free, all, hs, ks, gs);
    r := LoadResult.Done;
  }

  lemma NoneLoaded(m: Mem, t: Tables, elf: seq<byte>, segs: seq<Segment>)
    ensures AllLoaded(m, t, elf, [], segs)
  {}

  // ---------- what the address space of a program is good for ----------

  /** Converted flags translate when the header has read permission, or execute
      without write permission. */
  lemma ConvertedTranslates(flags: nat)
    ensures Translates(Converted(flags)) <==> Bit(flags, 2) || (Bit(flags, 0) && !Bit(flags, 1))
  {
    hide Converted, Bit;
    ConvertedIs(flags, EXEC);
    ConvertedIs(flags, WRITE);
    ConvertedIs(flags, READ);
  }

  /** Reading through the page table at the k-th address of a header's pages finds
      byte k of what the header refers to, with the header's permissions, and zeros
      after it: if and only if the header has read permission, or execute without
      write permission.  Otherwise the walk faults.  The first byte is at the page
      boundary, and so at p_vaddr only if that is page aligned. */
  lemma ProgramPages(m: Mem, t: Tables, free: set<nat>, all: set<nat>, segs: seq<Segment>, gs: seq<nat>,
                     elf: seq<byte>, hs: seq<ProgHeader>, h: ProgHeader, k: nat)
    requires Listing(m, t, free, all, segs, gs) && AllLoaded(m, t, elf, hs, segs) && h in hs
    requires h.kind == 1 && 0 < h.memsz < WORD && k < PAGE_SIZE * PageCount(h.vaddr, (h.vaddr + h.memsz) % WORD)
    ensures h.offset + h.memsz <= |elf| && Root in t
    ensures var va := PAGE_SIZE * (h.vaddr / PAGE_SIZE) + k; var b := if k < h.memsz then elf[h.offset + k] else 0;
      var granted := Bit(h.flags, 2) || (Bit(h.flags, 0) && !Bit(h.flags, 1));
      && (Reads(m, t[Root], va, Converted(h.flags), b) <==> granted)
      && (!granted ==> !Translated(m, t, va / PAGE_SIZE))
  {
    hide Leaf, MakePte, PtePpn, Bit, Source, OnlyListed, DataPage, PageCount, Converted, Tree, Translates, Reads, Walk;
    LoadsWhen(h);
    var seg := SegmentOf(h);
    var i, off := k / PAGE_SIZE, k % PAGE_SIZE;
    PageOffset(First(seg), Pages(seg), k);
    var s: nat :| s < |segs| && segs[s] == seg;
    ListingParts(m, t, free, all, segs, gs);
    assert ListedEntry(m, t, segs[s], i) && SegmentOk(segs[s]);
    var data := elf[h.offset..];
    assert Holds(m, t, seg, data, h.memsz);
    assert Backed(m, FrameOf(m, t, First(seg) + i), DataPage(data, h.memsz, i));
    DataPageAt(data, h.memsz, i, off);
    ConvertedTranslates(h.flags);
    var b := if k < h.memsz then elf[h.offset + k] else 0;
    ReadsWhen(m, t, PAGE_SIZE * First(seg) + k, FrameOf(m, t, First(seg) + i), seg.flags, b);
  }

  /** So for a page-aligned p_vaddr byte x is at p_vaddr + x, up to the end of the
      last page. */
  lemma ProgramBytes(m: Mem, t: Tables, free: set<nat>, all: set<nat>, segs: seq<Segment>, gs: seq<nat>,
                     elf: seq<byte>, hs: seq<ProgHeader>, h: ProgHeader, x: nat)
    requires Listing(m, t, free, all, segs, gs) && AllLoaded(m, t, elf, hs, segs) && h in hs
    requires h.kind == 1 && 0 < h.memsz && h.vaddr % PAGE_SIZE == 0 && h.vaddr + h.memsz < WORD
    requires x < PAGE_SIZE * Pages(SegmentOf(h))
    ensures h.memsz <= PAGE_SIZE * Pages(SegmentOf(h)) < h.memsz + PAGE_SIZE && h.offset + h.memsz <= |elf|
    ensures Root in t
    ensures Reads(m, t[Root], h.vaddr + x, Converted(h.flags), if x < h.memsz then elf[h.offset + x] else 0) <==>
      Bit(h.flags, 2) || (Bit(h.flags, 0) && !Bit(h.flags, 1))
    ensures !(Bit(h.flags, 2) || (Bit(h.flags, 0) && !Bit(h.flags, 1))) ==> !Translated(m, t, (h.vaddr + x) / PAGE_SIZE)
  {
    hide Listing, AllLoaded, Bit, Converted, Reads, Translated;
    PagesOfLength(SegmentOf(h), h.memsz, x);
    ProgramPages(m, t, free, all, segs, gs, elf, hs, h, x);
  }

  /** The loadable headers are those of type 1 that are not empty. */
  lemma LoadsWhen(h: ProgHeader)
    requires h.kind == 1 && 0 < h.memsz < WORD
    ensures Loads(h)
  {}

  /** Reading at an address finds byte b, with a header's permissions: read is bit 2 of
      the header's flags, write bit 1 and execute bit 0.  Without read permission, and
      without execute or with write permission, the walk faults. */
  ghost predicate ReadsAs(m: Mem, root: nat, va: nat, flags: nat, b: byte) {
    var w := Walk(m, root, va / PAGE_SIZE, 2);
    if Bit(flags, 2) || (Bit(flags, 0) && !Bit(flags, 1)) then
      && w.Maps? && w.level == 0 && Bit(w.pte, USER)
      && (Bit(w.pte, READ) <==> Bit(flags, 2)) && (Bit(w.pte, WRITE) <==> Bit(flags, 1))
      && (Bit(w.pte, EXEC) <==> Bit(flags, 0))
      && PtePpn(w.pte) in m && m[PtePpn(w.pte)][va % PAGE_SIZE] == b
    else w == Fault
  }

  /** On every page that holds one of memsz addresses from vaddr on are the bytes that a
      loadable header refers to, from the start of the first page on, and zeros after them. */
  ghost predicate HeaderReads(m: Mem, root: nat, elf: seq<byte>, h: ProgHeader) {
    h.kind == 1 && 0 < h.memsz < WORD ==>
      && h.offset + h.memsz <= |elf|
      && forall k: nat :: k < PAGE_SIZE * PageCount(h.vaddr, (h.vaddr + h.memsz) % WORD) ==>
        ReadsByte(m, root, elf, h, k)
  }

  ghost predicate ReadsByte(m: Mem, root: nat, elf: seq<byte>, h: ProgHeader, k: nat)
    requires h.offset + h.memsz <= |elf|
  {
    ReadsAs(m, root, PAGE_SIZE * (h.vaddr / PAGE_SIZE) + k, h.flags, if k < h.memsz then elf[h.offset + k] else 0)
  }

  ghost predicate ProgramReads(m: Mem, root: nat, elf: seq<byte>, hs: seq<ProgHeader>) {
    forall h <- hs :: HeaderReads(m, root, elf, h)
  }

  lemma ReadsConverted(m: Mem, t: Tables, va: nat, flags: nat, b: byte)
    requires Root in t
    requires Reads(m, t[Root], va, Converted(flags), b) <==> Bit(flags, 2) || (Bit(flags, 0) && !Bit(flags, 1))
    requires !(Bit(flags, 2) || (Bit(flags, 0) && !Bit(flags, 1))) ==> !Translated(m, t, va / PAGE_SIZE)
    ensures ReadsAs(m, t[Root], va, flags, b)
  {
    hide Converted, Bit, Walk, PtePpn;
    ConvertedIs(flags, USER);
    ConvertedIs(flags, READ);
    ConvertedIs(flags, WRITE);
    ConvertedIs(flags, EXEC);
  }

  lemma ProgramFound(m: Mem, t: Tables, free: set<nat>, all: set<nat>, segs: seq<Segment>, gs: seq<nat>,
                     elf: seq<byte>, hs: seq<ProgHeader>)
    requires Listing(m, t, free, all, segs, gs) && AllLoaded(m, t, elf, hs, segs)
    ensures Root in t && ProgramReads(m, t[Root], elf, hs)
  {
    hide Listing, Bit, Converted, Reads, Translated, ReadsAs, PageCount;
    ListingParts(m, t, free, all, segs, gs);
    forall h <- hs ensures HeaderReads(m, t[Root], elf, h) {
      if h.kind == 1 && 0 < h.memsz < WORD {
        LoadsWhen(h);
        assert Loaded(m, t, elf, h);
        forall k: nat | k < PAGE_SIZE * PageCount(h.vaddr, (h.vaddr + h.memsz) % WORD)
          ensures ReadsByte(m, t[Root], elf, h, k)
        {
          ProgramPages(m, t, free, all, segs, gs, elf, hs, h, k);
          ReadsConverted(m, t, PAGE_SIZE * (h.vaddr / PAGE_SIZE) + k, h.flags,
                         if k < h.memsz then elf[h.offset + k] else 0);
        }
      }
    }
  }

  lemma HeaderWords(elf: seq<byte>)
    requires |elf| >= ELF_SIZE && Get(elf, 32, 8) + HEADER_SIZE * Get(elf, 56, 2) <= |elf|
    ensures forall h <- Headers(elf) :: h.vaddr < WORD && h.memsz < WORD
  {
    hide Le, Pow2;
    forall i: nat | i < |Headers(elf)| ensures Headers(elf)[i].vaddr < WORD && Headers(elf)[i].memsz < WORD {
      var off := Get(elf, 32, 8) + HEADER_SIZE * i;
      assert Headers(elf)[i] == HeaderAt(elf, off);
      Pow2At64();
      LeBound(elf[off + 16..off + 24]);
      LeBound(elf[off + 40..off + 48]);
    }
  }

  /** v is one of the pages of a loadable header, up to the bits that Sv39 translates. */
  ghost predicate HeaderPage(h: ProgHeader, v: nat) {
    h.kind == 1 && 0 < h.memsz && Offset(h.vaddr / PAGE_SIZE, v) < PageCount(h.vaddr, (h.vaddr + h.memsz) % WORD)
  }

  /** Every entry belongs to the kernel's segments or to a page of a loadable header. */
  ghost predicate OnlyProgram(m: Mem, t: Tables, hs: seq<ProgHeader>, ks: seq<Segment>) {
    forall v: nat :: Leaf(m, t, v) != 0 ==> Listed(ks, v) || exists h <- hs :: HeaderPage(h, v)
  }

  lemma {:induction false} ListedHeader(hs: seq<ProgHeader>, rest: seq<Segment>, v: nat)
    requires Listed(Segments(hs, rest), v) && forall h <- hs :: h.vaddr < WORD
    ensures Listed(rest, v) || exists h <- hs :: HeaderPage(h, v)
    decreases |hs|
  {
    hide Listed, Loads, SegmentOf, HeaderPage;
    if hs != [] {
      var more := if Loads(hs[0]) then [SegmentOf(hs[0])] + rest else rest;
      ListedHeader(hs[1..], more, v);
      if !Listed(more, v) {
        var h :| h in hs[1..] && HeaderPage(h, v);
        assert h in hs;
      } else if Loads(hs[0]) {
        ListedFirst(hs[0], rest, v);
        assert hs[0] in hs;
      }
    }
  }

  lemma ListedFirst(h: ProgHeader, rest: seq<Segment>, v: nat)
    requires Loads(h) && h.vaddr < WORD && Listed([SegmentOf(h)] + rest, v)
    ensures Listed(rest, v) || HeaderPage(h, v)
  {
    hide Offset, PageCount;
    var all := [SegmentOf(h)] + rest;
    var s: nat :| s < |all| && Offset(First(all[s]), v) < Pages(all[s]);
    if s > 0 { assert rest[s - 1] == all[s]; }
  }

  lemma ProgramOnly(m: Mem, t: Tables, free: set<nat>, all: set<nat>, hs: seq<ProgHeader>, ks: seq<Segment>,
                    gs: seq<nat>)
    requires Listing(m, t, free, all, Segments(hs, ks), gs) && forall h <- hs :: h.vaddr < WORD
    ensures OnlyProgram(m, t, hs, ks)
  {
    hide Leaf, HeaderPage, Listed, Source, ListedEntries;
    forall v: nat | Leaf(m, t, v) != 0 ensures Listed(ks, v) || exists h <- hs :: HeaderPage(h, v) {
      ListedHeader(hs, ks, v);
    }
  }

  lemma {:induction false} SegmentsKeep(hs: seq<ProgHeader>, rest: seq<Segment>)
    ensures forall seg <- rest :: seg in Segments(hs, rest)
    decreases |hs|
  {
    hide Loads, SegmentOf;
    if hs != [] {
      SegmentsKeep(hs[1..], if Loads(hs[0]) then [SegmentOf(hs[0])] + rest else rest);
    }
  }

  lemma AccessibleExactly(ppn: nat, flags: nat)
    requires Bit(flags, VALID)
    ensures PointsToTable(MakePte(ppn, flags)) <==> !Accessible(flags)
  {
    hide MakePte, Bit, PointsToTable;
    PointsToTableBits(MakePte(ppn, flags));
    FlagBits(ppn, flags, VALID);
    FlagBits(ppn, flags, READ);
    FlagBits(ppn, flags, WRITE);
    FlagBits(ppn, flags, EXEC);
  }

  lemma ListedPoints(m: Mem, t: Tables, segs: seq<Segment>, s: nat, v: nat)
    requires ListedEntries(m, t, segs) && SegmentsOk(segs) && s < |segs| && Offset(First(segs[s]), v) < Pages(segs[s])
    ensures PointsToTable(Leaf(m, t, v)) <==> !Accessible(segs[s].flags)
  {
    hide Leaf, MakePte, PtePpn, LinearFrame, Pages, Bit, First, Accessible, PointsToTable, Offset, Key;
    var seg := segs[s];
    var i := Offset(First(seg), v);
    assert SegmentOk(seg) && ListedEntry(m, t, seg, i);
    OffsetIs(First(seg), v, 0);
    OffsetIs(First(seg), v, i);
    SameKeySameLeaf(m, t, v, First(seg) + i);
    AccessibleExactly(if seg.linear then LinearFrame(First(seg) + i) else FrameOf(m, t, First(seg) + i), seg.flags);
  }

  lemma FirstOffset(seg: Segment)
    requires Pages(seg) > 0
    ensures Offset(First(seg), First(seg)) < Pages(seg)
  {
    hide Pages, First, Offset, Key;
    OffsetIs(First(seg), First(seg), 0);
  }

  /** Teardown can tell the entries of an address space from pointers to tables
      exactly when each segment with pages is readable, writable or executable. */
  lemma TearsDownWhen(m: Mem, t: Tables, free: set<nat>, all: set<nat>, segs: seq<Segment>, gs: seq<nat>)
    requires Listing(m, t, free, all, segs, gs)
    ensures LeavesOnly(m, t) <==> forall s :: 0 <= s < |segs| && Pages(segs[s]) > 0 ==> Accessible(segs[s].flags)
  {
    hide Leaf, Pages, First, Accessible, PointsToTable, Offset, Source;
    ListingParts(m, t, free, all, segs, gs);
    if LeavesOnly(m, t) {
      forall s | 0 <= s < |segs| && Pages(segs[s]) > 0 ensures Accessible(segs[s].flags) {
        FirstOffset(segs[s]);
        ListedPoints(m, t, segs, s, First(segs[s]));
      }
    }
    if forall s :: 0 <= s < |segs| && Pages(segs[s]) > 0 ==> Accessible(segs[s].flags) {
      forall v: nat ensures !PointsToTable(Leaf(m, t, v)) {
        ZeroPoints();
        if Leaf(m, t, v) != 0 {
          var s :| 0 <= s < |segs| && Offset(First(segs[s]), v) < Pages(segs[s]);
          ListedPoints(m, t, segs, s, v);
        }
      }
    }
  }

  /** A program's address space meets the conditions of copy_mm and, if every
      loadable header has a permission, those of dealloc_memory_map, which then
      gives back exactly what was taken. */
  lemma ProgramSpace(m: Mem, t: Tables, free: set<nat>, all: set<nat>, l: Layout, hs: seq<ProgHeader>, gs: seq<nat>)
    requires Listing(m, t, free, all, Segments(hs, KernelSegments(l)), gs)
    requires forall seg <- KernelSegments(l) :: Pages(seg) <= KEYS
    ensures var segs := Segments(hs, KernelSegments(l));
      && Source(m, t, free, segs, gs) && ListedEntries(m, t, segs)
      && OwnFrames(m, t, free, FramedPages(segs), gs) && free + FrameSet(gs) + t.Values == all
      && ((forall h <- hs :: Loads(h) ==> Bit(h.flags, 0) || Bit(h.flags, 1) || Bit(h.flags, 2)) ==> LeavesOnly(m, t))
  {
    hide Pages, Accessible, KernelSegments, Loads, Bit, Space, OwnFrames, ListedEntries, OnlyListed, Converted,
      SegmentsOk, LeavesOnly;
    var segs := Segments(hs, KernelSegments(l));
    KernelOk(l);
    if forall h <- hs :: Loads(h) ==> Bit(h.flags, 0) || Bit(h.flags, 1) || Bit(h.flags, 2) {
      AllAccessible(hs, KernelSegments(l));
      TearsDownWhen(m, t, free, all, segs, gs);
    }
  }

  lemma {:induction false} AllAccessible(hs: seq<ProgHeader>, rest: seq<Segment>)
    requires forall seg <- rest :: Accessible(seg.flags)
    requires forall h <- hs :: Loads(h) ==> Bit(h.flags, 0) || Bit(h.flags, 1) || Bit(h.flags, 2)
    ensures forall seg <- Segments(hs, rest) :: Accessible(seg.flags)
    decreases |hs|
  {
    hide Accessible, Converted, Loads, Bit;
    if hs != [] {
      assert hs[0] in hs;
      ConvertedAccessible(hs[0].flags);
      AllAccessible(hs[1..], if Loads(hs[0]) then [SegmentOf(hs[0])] + rest else rest);
    }
  }
}
