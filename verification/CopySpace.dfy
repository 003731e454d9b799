// kernel/mapping.c, lines 195-217: copying an address space for fork.
module CopySpace {
  import opened Sequences
  import opened Options
  import opened Bits
  import opened Bytes
  import opened Pte
  import opened PageTree
  import opened PageRange
  import opened AddressSpace
  import opened FrameBudget
  import opened PageTable
  import opened Teardown
  import opened Translation

  /** Segments as the kernel makes them: valid flags, canonical page range. */
  ghost predicate SegmentOk(seg: Segment) {
    seg.flags < FLAG_LIMIT && Bit(seg.flags, VALID) && Pages(seg) <= KEYS
  }

  ghost predicate SegmentsOk(segs: seq<Segment>) {
    forall s :: 0 <= s < |segs| ==> SegmentOk(segs[s])
  }

  /** In the copy, page i of segment seg has the segment's flags, and the linear
      frame of the page or a frame with the bytes of the original's frame. */
  ghost predicate CopiedPage(m: Mem, t: Tables, m': Mem, t': Tables, seg: Segment, i: nat) {
    var v := First(seg) + i;
    var f, g := FrameOf(m, t, v), FrameOf(m', t', v);
    if seg.linear then Leaf(m', t', v) == MakePte(LinearFrame(v), seg.flags)
    else Leaf(m', t', v) == MakePte(g, seg.flags) && g < PPN_LIMIT && f in m && g in m' && m'[g] == m[f]
  }

  ghost predicate CopiedSegment(m: Mem, t: Tables, m': Mem, t': Tables, seg: Segment) {
    forall i: nat :: i < Pages(seg) ==> CopiedPage(m, t, m', t', seg, i)
  }

  ghost predicate CopiedAll(m: Mem, t: Tables, m': Mem, t': Tables, segs: seq<Segment>) {
    forall s :: 0 <= s < |segs| ==> CopiedSegment(m, t, m', t', segs[s])
  }

  /** v is a page of one of the segments. */
  ghost predicate Listed(segs: seq<Segment>, v: nat) {
    exists s :: 0 <= s < |segs| && Offset(First(segs[s]), v) < Pages(segs[s])
  }

  ghost predicate OnlyListed(m: Mem, t: Tables, segs: seq<Segment>) {
    forall v: nat :: Leaf(m, t, v) != 0 ==> Listed(segs, v)
  }

  /** Page i of a is also a page of b. */
  ghost predicate SharedPage(a: Segment, b: Segment, i: nat) {
    i < Pages(a) && Offset(First(b), First(a) + i) < Pages(b)
  }

  ghost predicate Meet(a: Segment, b: Segment) {
    exists i: nat :: SharedPage(a, b, i)
  }

  ghost predicate Shares(segs: seq<Segment>, seg: Segment) {
    exists b :: 0 <= b < |segs| && Meet(seg, segs[b])
  }

  /** Two of the segments share a page. */
  ghost predicate Clash(segs: seq<Segment>) {
    exists a, b :: 0 <= a < b < |segs| && Meet(segs[a], segs[b])
  }

  lemma MeetBack(a: Segment, b: Segment)
    requires Pages(a) <= KEYS && Meet(a, b)
    ensures Meet(b, a)
  {
    hide Pages, First, Offset, Key;
    var i: nat :| SharedPage(a, b, i);
    var j := Offset(First(b), First(a) + i);
    OffsetIs(First(b), First(a) + i, 0);
    OffsetIs(First(b), First(a) + i, j);
    OffsetIs(First(a), First(b) + j, i);
    assert SharedPage(b, a, j);
  }

  lemma ClashMore(segs: seq<Segment>, seg: Segment)
    ensures Clash([seg] + segs) <==> Shares(segs, seg) || Clash(segs)
  {
    hide Meet;
    var all := [seg] + segs;
    if Clash(all) {
      var a, b :| 0 <= a < b < |all| && Meet(all[a], all[b]);
      if a == 0 { assert Meet(seg, segs[b - 1]); } else { assert Meet(segs[a - 1], segs[b - 1]); }
    }
    if Shares(segs, seg) {
      var b :| 0 <= b < |segs| && Meet(seg, segs[b]);
      assert Meet(all[0], all[b + 1]);
    }
    if Clash(segs) {
      var a, b :| 0 <= a < b < |segs| && Meet(segs[a], segs[b]);
      assert Meet(all[a + 1], all[b + 1]);
    }
  }

  // ---------- the frames that an address space takes ----------

  /** The tables of an address space that maps these segments and nothing else */
  ghost function TablesOf(segs: seq<Segment>): set<Node> {
    {Root} + set s: nat, n | s < |segs| && n in PathTables(First(segs[s]), Pages(segs[s])) :: n
  }

  /** The frames it takes: for its tables and for the pages of framed segments */
  ghost function SpaceCost(segs: seq<Segment>): nat {
    |TablesOf(segs)| + |FramedPages(segs)|
  }

  lemma TablesLast(segs: seq<Segment>, seg: Segment)
    ensures TablesOf(segs + [seg]) == TablesOf(segs) + PathTables(First(seg), Pages(seg))
    ensures TablesOf([seg] + segs) == TablesOf(segs) + PathTables(First(seg), Pages(seg))
  {
    hide PathTables, First, Pages;
    var last, front, both := segs + [seg], [seg] + segs, TablesOf(segs) + PathTables(First(seg), Pages(seg));
    assert last[|segs|] == seg && front[0] == seg;
    assert forall s: nat :: s < |segs| ==> last[s] == segs[s] && front[s + 1] == segs[s];
    assert forall s: nat :: s < |segs| ==> last[s] == segs[s];
    assert forall s: nat :: 0 < s < |front| ==> front[s] == segs[s - 1];
    forall n ensures n in TablesOf(last) <==> n in both {}
    forall n | n in both ensures n in TablesOf(front) {
      if s: nat :| s < |segs| && n in PathTables(First(segs[s]), Pages(segs[s])) {
        assert n in PathTables(First(front[s + 1]), Pages(front[s + 1]));
      }
    }
    forall n | n in TablesOf(front) ensures n in both {}
  }

  lemma OwnPageCount(seg: Segment)
    ensures |OwnPages(seg)| == if seg.linear then 0 else Pages(seg)
  {}

  /** What one more segment takes, wherever it is put */
  lemma CostMore(t: Tables, segs: seq<Segment>, seg: Segment)
    requires t.Keys == TablesOf(segs)
    ensures SpaceCost(segs + [seg]) == SpaceCost([seg] + segs) == SpaceCost(segs) + SegmentNeed(t, seg)
  {
    hide TablesOf, OwnPages, PathTables, First, Pages;
    TablesLast(segs, seg);
    FramedSnoc(segs, seg);
    OwnPageCount(seg);
    assert ([seg] + segs)[1..] == segs && FramedPages([seg] + segs) == OwnPages(seg) + FramedPages(segs);
    FrameBudget.Joined(t.Keys, PathTables(First(seg), Pages(seg)));
  }

  lemma {:induction false} CostPrefix(segs: seq<Segment>, k: nat)
    requires k <= |segs|
    ensures SpaceCost(segs[..k]) <= SpaceCost(segs)
    decreases |segs| - k
  {
    hide SpaceCost;
    if k == |segs| {
      assert segs[..k] == segs;
    } else {
      assert segs[..k] + [segs[k]] == segs[..k + 1];
      CostLess(segs[..k], segs[k]);
      CostPrefix(segs, k + 1);
    }
  }

  lemma CostLess(segs: seq<Segment>, seg: Segment)
    ensures SpaceCost(segs) <= SpaceCost(segs + [seg]) && SpaceCost(segs) <= SpaceCost([seg] + segs)
  {
    hide TablesOf, OwnPages, PathTables, First, Pages;
    TablesLast(segs, seg);
    FramedSnoc(segs, seg);
    assert ([seg] + segs)[1..] == segs && FramedPages([seg] + segs) == OwnPages(seg) + FramedPages(segs);
    Fewer(TablesOf(segs), TablesOf(segs) + PathTables(First(seg), Pages(seg)));
  }

  lemma CostNothing()
    ensures SpaceCost([]) == 1 && TablesOf([]) == {Root}
  {
    assert TablesOf([]) == {Root};
  }

  lemma {:induction false} CostPositive(segs: seq<Segment>)
    ensures SpaceCost(segs) >= 1
  {
    assert segs[..0] == [];
    CostNothing();
    CostPrefix(segs, 0);
  }

  /** Free frames, tables and own frames make up all: so this is what is left. */
  lemma CostLeft(m: Mem, t: Tables, free: set<nat>, all: set<nat>, segs: seq<Segment>, gs: seq<nat>)
    requires Space(m, t, free) && OwnFrames(m, t, free, FramedPages(segs), gs) && t.Keys == TablesOf(segs)
    requires free + t.Values + FrameSet(gs) == all
    ensures |all| == |free| + SpaceCost(segs)
  {
    hide Tree, FrameOf, BottomOf, TablesOf, FramedPages;
    OwnLength(m, t, free, FramedPages(segs), gs);
    SpaceInjective(m, t, free);
    FramesOfTables(t);
    DistinctCard(gs);
    Sum(free, t.Values, FrameSet(gs));
  }

  /** Why these segments cannot be mapped with n free frames */
  ghost predicate Refused(r: MapResult, segs: seq<Segment>, n: nat) {
    (r.OutOfFrames? && n < SpaceCost(segs)) || (r.AlreadyMapped? && Clash(segs))
  }

  /** The copy so far: built from frames that were free, with frames gs for the
      framed pages, apart from the original. */
  ghost predicate Copying(m: Mem, t: Tables, free: set<nat>, m': Mem, t': Tables, free': set<nat>,
                          segs: seq<Segment>, gs: seq<nat>) {
    && Space(m', t', free') && Keeps(m, m', free)
    && free' + t'.Values + FrameSet(gs) == free
    && OwnFrames(m', t', free', FramedPages(segs), gs)
    && CopiedAll(m, t, m', t', segs) && OnlyListed(m', t', segs) && t'.Keys == TablesOf(segs)
  }

  // ---------- a fresh root table ----------

  /** A zeroed frame is the root of a tree without mappings. */
  lemma RootTree(m: Mem, f: nat)
    requires f < PPN_LIMIT && Backed(m, f, ZeroPage())
    ensures var r := map[Root := f];
      Tree(m, r) && r.Values == {f} && r.Keys == {Root} && forall v: nat :: Leaf(m, r, v) == 0
  {
    hide ZeroPage, Entry, Level;
    var r := map[Root := f];
    assert r[Root] == f;
    assert forall x :: x in r.Values ==> x == f;
    assert r.Values == {f} && r.Keys == {Root};
    forall k: nat | k < ENTRIES ensures Cell(m, f, k) == 0 { EntryZero(k); }
  }

  lemma FreshRoot(m: Mem, m': Mem, t: Tables, free: set<nat>, f: nat)
    requires FreeOk(m, free) && f in free && Keeps(m, m', free) && Backed(m', f, ZeroPage())
    ensures var r := map[Root := f];
      Copying(m, t, free, m', r, free - {f}, [], []) && forall v: nat :: Leaf(m', r, v) == 0
  {
    hide ZeroPage, Tree, Leaf, TablesOf, BottomOf, FrameOf, CopiedSegment, Listed;
    RootTree(m', f);
    CostNothing();
    assert free - {f} + {f} + FrameSet([]) == free;
  }

  // ---------- pages already there keep their entries ----------

  lemma SameKeySameLeaf(m: Mem, t: Tables, u: nat, v: nat)
    requires Key(u) == Key(v)
    ensures Leaf(m, t, u) == Leaf(m, t, v)
  {
    hide Level, Key;
    LevelsDetermineKey(u, v);
  }

  lemma NotMapped(m: Mem, t: Tables, first: nat, n: nat, i: nat)
    requires Unmapped(m, t, first, n) && i < n
    ensures Leaf(m, t, first + i) == 0
  {
    assert !PageMapped(m, t, first, i);
  }

  lemma MappedStays(m1: Mem, t1: Tables, m2: Mem, t2: Tables, first: nat, es: seq<nat>, v: nat)
    requires MapsTo(m1, t1, m2, t2, first, es) && Unmapped(m1, t1, first, |es|) && |es| <= KEYS
    requires Leaf(m1, t1, v) != 0
    ensures Leaf(m2, t2, v) == Leaf(m1, t1, v)
  {
    hide Leaf, Key, Offset;
    var j := Offset(first, v);
    if j < |es| {
      OffsetIs(first, v, j);
      SameKeySameLeaf(m1, t1, v, first + j);
      NotMapped(m1, t1, first, |es|, j);
    }
  }

  lemma ValidNonzero(ppn: nat, flags: nat)
    requires flags < FLAG_LIMIT && Bit(flags, VALID)
    ensures MakePte(ppn, flags) != 0
  {
    hide Or, Shl;
    OrBit(Shl(ppn, 10), flags, VALID);
    ZeroBits(VALID);
  }

  // ---------- adding a segment to the copy ----------

  /** Frames hs back the pages of seg in the copy with the original's bytes. */
  ghost predicate Backing(m: Mem, t: Tables, m': Mem, seg: Segment, hs: seq<nat>) {
    && |hs| == Pages(seg)
    && (seg.linear ==> forall i: nat :: i < |hs| ==> hs[i] == LinearFrame(First(seg) + i))
    && (!seg.linear ==> Distinct(hs) && forall i: nat :: i < |hs| ==> SameBytes(m, t, m', seg, i, hs[i]))
  }

  ghost predicate SameBytes(m: Mem, t: Tables, m': Mem, seg: Segment, i: nat, h: nat) {
    var f := FrameOf(m, t, First(seg) + i);
    f in m && h in m' && m'[h] == m[f]
  }

  lemma NewEntry(m1: Mem, t1: Tables, m2: Mem, t2: Tables, seg: Segment, hs: seq<nat>, i: nat)
    requires MapsTo(m1, t1, m2, t2, First(seg), Ptes(hs, seg.flags)) && i < |hs| <= KEYS
    ensures Leaf(m2, t2, First(seg) + i) == MakePte(hs[i], seg.flags)
  {
    hide Leaf, Key, Offset, MakePte;
    OffsetIs(First(seg), First(seg) + i, i);
  }

  lemma NewPages(m: Mem, t: Tables, m1: Mem, t1: Tables, m2: Mem, t2: Tables, seg: Segment, hs: seq<nat>)
    requires MapsTo(m1, t1, m2, t2, First(seg), Ptes(hs, seg.flags)) && SegmentOk(seg)
    requires Backing(m, t, m2, seg, hs) && (!seg.linear ==> FreeOk(m2, FrameSet(hs)))
    ensures CopiedSegment(m, t, m2, t2, seg)
    ensures !seg.linear ==> forall i: nat :: i < |hs| ==>
      FrameOf(m2, t2, First(seg) + i) == hs[i] && BottomOf(First(seg) + i) in t2
  {
    hide Leaf, MakePte, MapsTo, PtePpn, Ptes, LinearFrame, Pages, BottomOf, Bit, First;
    forall i: nat | i < |hs|
      ensures CopiedPage(m, t, m2, t2, seg, i)
      ensures !seg.linear ==> FrameOf(m2, t2, First(seg) + i) == hs[i] && BottomOf(First(seg) + i) in t2
    {
      NewEntry(m1, t1, m2, t2, seg, hs, i);
      if !seg.linear {
        assert hs[i] in FrameSet(hs);
        PpnRoundTrip(hs[i], seg.flags);
        ValidNonzero(hs[i], seg.flags);
        MappedBottom(m2, t2, First(seg) + i);
        assert SameBytes(m, t, m2, seg, i, hs[i]);
      }
    }
  }

  lemma MappedBottom(m: Mem, t: Tables, v: nat)
    requires Leaf(m, t, v) != 0
    ensures BottomOf(v) in t
  {}

  /** A framed page of a segment is among the framed pages. */
  lemma {:induction false} AmongFramed(segs: seq<Segment>, s: nat, i: nat)
    requires s < |segs| && !segs[s].linear && i < Pages(segs[s])
    ensures First(segs[s]) + i in FramedPages(segs)
  {
    hide First, Pages;
    if s == 0 {
      VpnsAt(First(segs[0]), Pages(segs[0]), i);
      assert OwnPages(segs[0])[i] in OwnPages(segs[0]);
    } else {
      AmongFramed(segs[1..], s - 1, i);
    }
  }

  /** What a copy in progress says of a page copied already. */
  lemma CopyingPage(m: Mem, t: Tables, free: set<nat>, m1: Mem, t1: Tables, f1: set<nat>, segs: seq<Segment>,
                    gs: seq<nat>, s: nat, i: nat)
    requires Copying(m, t, free, m1, t1, f1, segs, gs) && SegmentsOk(segs) && s < |segs| && i < Pages(segs[s])
    ensures CopiedPage(m, t, m1, t1, segs[s], i) && SegmentOk(segs[s])
  {
    hide CopiedPage, Pages, Space, OwnFrames, OnlyListed, SegmentOk, TablesOf;
    assert CopiedSegment(m, t, m1, t1, segs[s]);
  }

  /** And of the frames it has taken */
  lemma CopyingFrame(m: Mem, t: Tables, free: set<nat>, m1: Mem, t1: Tables, f1: set<nat>, segs: seq<Segment>,
                     gs: seq<nat>, j: nat)
    requires Copying(m, t, free, m1, t1, f1, segs, gs) && j < |gs|
    ensures |FramedPages(segs)| == |gs| && FrameOf(m1, t1, FramedPages(segs)[j]) == gs[j]
    ensures gs[j] in m1 && gs[j] !in f1 + t1.Values
  {
    hide CopiedAll, Space, OnlyListed, TablesOf, FrameOf, BottomOf, FramedPages;
    assert gs[j] in FrameSet(gs);
  }

  lemma OldPage(m: Mem, t: Tables, free: set<nat>, m1: Mem, t1: Tables, f1: set<nat>, segs: seq<Segment>, gs: seq<nat>,
                m2: Mem, t2: Tables, first: nat, es: seq<nat>, s: nat, i: nat)
    requires Copying(m, t, free, m1, t1, f1, segs, gs) && SegmentsOk(segs)
    requires MapsTo(m1, t1, m2, t2, first, es) && Unmapped(m1, t1, first, |es|) && |es| <= KEYS
    requires Keeps(m1, m2, f1 + t1.Values)
    requires s < |segs| && i < Pages(segs[s])
    ensures CopiedPage(m, t, m2, t2, segs[s], i)
  {
    hide Leaf, MakePte, MapsTo, PtePpn, LinearFrame, Pages, BottomOf, Bit, First, Space, OnlyListed, Unmapped, Copying;
    var seg := segs[s];
    var v := First(seg) + i;
    CopyingPage(m, t, free, m1, t1, f1, segs, gs, s, i);
    ValidNonzero(if seg.linear then LinearFrame(v) else FrameOf(m1, t1, v), seg.flags);
    MappedStays(m1, t1, m2, t2, first, es, v);
    if !seg.linear {
      AmongFramed(segs, s, i);
      var vs := FramedPages(segs);
      var j: nat :| j < |vs| && vs[j] == v;
      CopyingOwn(m, t, free, m1, t1, f1, segs, gs);
      CopyingFrame(m, t, free, m1, t1, f1, segs, gs, j);
    }
  }

  lemma CopyingOwn(m: Mem, t: Tables, free: set<nat>, m1: Mem, t1: Tables, f1: set<nat>, segs: seq<Segment>,
                   gs: seq<nat>)
    requires Copying(m, t, free, m1, t1, f1, segs, gs)
    ensures |FramedPages(segs)| == |gs|
  {}

  lemma {:induction false} FramedSnoc(segs: seq<Segment>, seg: Segment)
    ensures FramedPages(segs + [seg]) == FramedPages(segs) + OwnPages(seg)
  {
    hide OwnPages;
    if segs != [] {
      FramedSnoc(segs[1..], seg);
      assert (segs + [seg])[1..] == segs[1..] + [seg];
    } else {
      assert (segs + [seg])[1..] == [];
    }
  }

  ghost function OwnFramesOf(seg: Segment, hs: seq<nat>): seq<nat> {
    if seg.linear then [] else hs
  }

  /** The frames of the old and the new pages are apart. */
  lemma JoinFrames(m: Mem, t: Tables, m1: Mem, t1: Tables, f1: set<nat>, segs: seq<Segment>, gs: seq<nat>,
                   m2: Mem, t2: Tables, f2: set<nat>, seg: Segment, hs: seq<nat>)
    requires OwnFrames(m1, t1, f1, FramedPages(segs), gs)
    requires Mapping(m1, t1, f1, m2, t2, f2, First(seg), Ptes(hs, seg.flags), DataFrames(seg, hs))
    requires Backing(m, t, m2, seg, hs)
    requires forall i :: 0 <= i < |gs| ==> FrameOf(m2, t2, FramedPages(segs)[i]) == gs[i]
    requires !seg.linear ==> forall i: nat :: i < |hs| ==>
      FrameOf(m2, t2, First(seg) + i) == hs[i] && BottomOf(First(seg) + i) in t2
    ensures OwnFrames(m2, t2, f2, FramedPages(segs + [seg]), gs + OwnFramesOf(seg, hs))
    ensures FrameSet(gs + OwnFramesOf(seg, hs)) == FrameSet(gs) + DataFrames(seg, hs)
  {
    hide Space, MapsTo, FrameOf, BottomOf, Pages, First, Ptes, Vpns, SameBytes, LinearFrame;
    var vs, us, xs := FramedPages(segs), OwnPages(seg), OwnFramesOf(seg, hs);
    FramedSnoc(segs, seg);
    assert FrameSet(gs + xs) == FrameSet(gs) + FrameSet(xs);
    assert FrameSet(xs) == DataFrames(seg, hs) && |us| == |xs|;
    forall i | 0 <= i < |vs + us|
      ensures BottomOf((vs + us)[i]) in t2 && FrameOf(m2, t2, (vs + us)[i]) == (gs + xs)[i]
    {
      if i < |vs| { assert BottomOf(vs[i]) in t1; } else {
        var j: nat := i - |vs|;
        VpnsAt(First(seg), Pages(seg), j);
        assert (vs + us)[i] == First(seg) + j && (gs + xs)[i] == hs[j];
      }
    }
    assert forall f :: f in DataFrames(seg, hs) ==> f in f1 + t1.Values;
    JoinDistinct(gs, xs);
    assert forall f :: f in f2 || f in t2.Values ==> f in f1 + t1.Values;
    assert FreeOk(m2, FrameSet(gs + xs));
  }

  lemma JoinDistinct(gs: seq<nat>, xs: seq<nat>)
    requires Distinct(gs) && Distinct(xs) && FrameSet(gs) !! FrameSet(xs)
    ensures Distinct(gs + xs)
  {
    var ys := gs + xs;
    forall i, j | 0 <= i < j < |ys| ensures ys[i] != ys[j] {
      if i < |gs| <= j { assert ys[i] in FrameSet(gs) && ys[j] in FrameSet(xs); }
    }
  }

  lemma OldFrames(m: Mem, t: Tables, free: set<nat>, m1: Mem, t1: Tables, f1: set<nat>, segs: seq<Segment>,
                  gs: seq<nat>,
                  m2: Mem, t2: Tables, first: nat, es: seq<nat>, i: nat)
    requires Copying(m, t, free, m1, t1, f1, segs, gs) && SegmentsOk(segs) && i < |gs|
    requires MapsTo(m1, t1, m2, t2, first, es) && Unmapped(m1, t1, first, |es|) && |es| <= KEYS
    ensures FrameOf(m2, t2, FramedPages(segs)[i]) == gs[i]
  {
    hide Leaf, MapsTo, PtePpn, BottomOf, Space, OnlyListed, Unmapped, Bit, First, Pages, Copying;
    CopyingOwn(m, t, free, m1, t1, f1, segs, gs);
    CopyingFrame(m, t, free, m1, t1, f1, segs, gs, i);
    var v := FramedPages(segs)[i];
    var s, k := FramedAt(segs, i);
    CopyingPage(m, t, free, m1, t1, f1, segs, gs, s, k);
    ValidNonzero(FrameOf(m1, t1, v), segs[s].flags);
    MappedStays(m1, t1, m2, t2, first, es, v);
  }

  /** Every framed page is a page of some framed segment. */
  lemma {:induction false} FramedAt(segs: seq<Segment>, i: nat) returns (s: nat, k: nat)
    requires i < |FramedPages(segs)|
    ensures s < |segs| && !segs[s].linear && k < Pages(segs[s]) && FramedPages(segs)[i] == First(segs[s]) + k
  {
    hide First, Pages;
    var own := OwnPages(segs[0]);
    if i < |own| {
      s, k := 0, i;
      VpnsAt(First(segs[0]), Pages(segs[0]), i);
    } else {
      s, k := FramedAt(segs[1..], i - |own|);
      s := s + 1;
    }
  }

  lemma ListedMore(m1: Mem, t1: Tables, m2: Mem, t2: Tables, segs: seq<Segment>, seg: Segment, es: seq<nat>)
    requires OnlyListed(m1, t1, segs) && MapsTo(m1, t1, m2, t2, First(seg), es) && |es| == Pages(seg)
    ensures OnlyListed(m2, t2, segs + [seg])
  {
    hide Leaf, First, Pages, Offset;
    var all := segs + [seg];
    forall v: nat | Leaf(m2, t2, v) != 0 ensures Listed(all, v) {
      if Offset(First(seg), v) < |es| {
        assert all[|segs|] == seg;
      } else {
        assert Listed(segs, v);
        var s :| 0 <= s < |segs| && Offset(First(segs[s]), v) < Pages(segs[s]);
        assert all[s] == segs[s];
      }
    }
  }

  /** Mapping one more segment keeps what was copied before. */
  lemma AddSegment(m: Mem, t: Tables, free: set<nat>, m1: Mem, t1: Tables, f1: set<nat>, segs: seq<Segment>,
                   gs: seq<nat>,
                   m2: Mem, t2: Tables, f2: set<nat>, seg: Segment, hs: seq<nat>)
    requires Copying(m, t, free, m1, t1, f1, segs, gs) && SegmentsOk(segs) && SegmentOk(seg)
    requires Mapping(m1, t1, f1, m2, t2, f2, First(seg), Ptes(hs, seg.flags), DataFrames(seg, hs))
    requires Unmapped(m1, t1, First(seg), Pages(seg)) && Backing(m, t, m2, seg, hs)
    requires Reached(t1, t2, First(seg), Pages(seg))
    ensures Copying(m, t, free, m2, t2, f2, segs + [seg], gs + OwnFramesOf(seg, hs))
  {
    hide Leaf, MapsTo, FrameOf, Bit, First, Pages, OnlyListed, CopiedSegment, OwnFrames, Unmapped, BottomOf, Tree,
      TablesOf;
    var es := Ptes(hs, seg.flags);
    NewPages(m, t, m1, t1, m2, t2, seg, hs);
    OwnLength(m1, t1, f1, FramedPages(segs), gs);
    forall i | 0 <= i < |gs| ensures FrameOf(m2, t2, FramedPages(segs)[i]) == gs[i] {
      OldFrames(m, t, free, m1, t1, f1, segs, gs, m2, t2, First(seg), es, i);
    }
    JoinFrames(m, t, m1, t1, f1, segs, gs, m2, t2, f2, seg, hs);
    forall s | 0 <= s < |segs| ensures CopiedSegment(m, t, m2, t2, segs[s]) {
      OldSegment(m, t, free, m1, t1, f1, segs, gs, m2, t2, First(seg), es, s);
    }
    ListedMore(m1, t1, m2, t2, segs, seg, es);
    TablesLast(segs, seg);
    assert forall f :: f in f1 + t1.Values ==> f in free;
    assert f2 + t2.Values + (FrameSet(gs) + DataFrames(seg, hs)) == free;
  }

  lemma OldSegment(m: Mem, t: Tables, free: set<nat>, m1: Mem, t1: Tables, f1: set<nat>, segs: seq<Segment>,
                   gs: seq<nat>,
                   m2: Mem, t2: Tables, first: nat, es: seq<nat>, s: nat)
    requires Copying(m, t, free, m1, t1, f1, segs, gs) && SegmentsOk(segs) && s < |segs|
    requires MapsTo(m1, t1, m2, t2, first, es) && Unmapped(m1, t1, first, |es|) && |es| <= KEYS
    requires Keeps(m1, m2, f1 + t1.Values)
    ensures CopiedSegment(m, t, m2, t2, segs[s])
  {
    hide *;
    forall i: nat | i < Pages(segs[s]) ensures CopiedPage(m, t, m2, t2, segs[s], i) {
      OldPage(m, t, free, m1, t1, f1, segs, gs, m2, t2, first, es, s, i);
    }
    SegmentOfPages(m, t, m2, t2, segs[s]);
  }

  lemma SegmentOfPages(m: Mem, t: Tables, m': Mem, t': Tables, seg: Segment)
    requires forall i: nat :: i < Pages(seg) ==> CopiedPage(m, t, m', t', seg, i)
    ensures CopiedSegment(m, t, m', t', seg)
  {}

  // ---------- copy_mm ----------

  /** The loop that copies a page byte by byte. */
  method CopyPage(k: Machine, src: nat, dst: nat)
    requires src in k.mem && dst in k.mem && src != dst
    modifies k`mem
    ensures k.mem == old(k.mem)[dst := old(k.mem)[src]]
  {
    ghost var m := k.mem;
    assert m[dst] == m[src][..0] + m[dst][0..];
    for i := 0 to PAGE_SIZE
      invariant src in k.mem && dst in k.mem && k.mem == m[dst := m[src][..i] + m[dst][i..]]
    {
      assert k.mem[src] == m[src];
      k.mem := k.mem[dst := k.mem[dst][i := k.mem[src][i]]];
      assert k.mem[dst] == m[src][..i + 1] + m[dst][i + 1..];
    }
    assert m[src][..PAGE_SIZE] + m[dst][PAGE_SIZE..] == m[src];
  }

  /** The original: its framed pages are backed by frames fs of its own. */
  ghost predicate Source(m: Mem, t: Tables, free: set<nat>, segs: seq<Segment>, fs: seq<nat>) {
    Space(m, t, free) && OwnFrames(m, t, free, FramedPages(segs), fs) && SegmentsOk(segs)
  }

  /** Using up free frames does not disturb the original. */
  lemma SourceStays(m: Mem, t: Tables, free: set<nat>, segs: seq<Segment>, fs: seq<nat>, m': Mem, free': set<nat>)
    requires Source(m, t, free, segs, fs) && Keeps(m, m', free) && free' <= free
    ensures Source(m', t, free', segs, fs) && SameLeaves(m, t, m', t)
  {
    hide Tree, Leaf, PtePpn, BottomOf, SegmentOk;
    TreeFrame(m, m', t, free);
    var vs := FramedPages(segs);
    forall i | 0 <= i < |vs| ensures BottomOf(vs[i]) in t && FrameOf(m', t, vs[i]) == fs[i] {
      assert Leaf(m', t, vs[i]) == Leaf(m, t, vs[i]);
    }
    assert forall f :: f in FrameSet(fs) ==> f in m && f !in free;
  }

  /** A framed page of the original. */
  lemma SourcePage(m: Mem, t: Tables, free: set<nat>, segs: seq<Segment>, fs: seq<nat>, s: nat, i: nat)
    requires Source(m, t, free, segs, fs) && s < |segs| && !segs[s].linear && i < Pages(segs[s])
    ensures var v := First(segs[s]) + i; var f := FrameOf(m, t, v); BottomOf(v) in t && f in m && f !in free
  {
    hide Tree, FrameOf, BottomOf, First, Pages;
    AmongFramed(segs, s, i);
    var v := First(segs[s]) + i;
    var vs := FramedPages(segs);
    var j :| 0 <= j < |vs| && vs[j] == v;
    assert fs[j] in FrameSet(fs);
  }

  /** Pages below n of a segment have been filled from the original. */
  ghost predicate FilledUpto(m: Mem, t: Tables, m': Mem, seg: Segment, hs: seq<nat>, n: nat) {
    n <= |hs| && forall i: nat :: i < n ==> SameBytes(m, t, m', seg, i, hs[i])
  }

  lemma FillOne(m: Mem, t: Tables, m1: Mem, m2: Mem, seg: Segment, hs: seq<nat>, n: nat)
    requires FilledUpto(m, t, m1, seg, hs, n) && n < |hs| && Distinct(hs)
    requires SameBytes(m, t, m2, seg, n, hs[n]) && Keeps(m1, m2, {hs[n]})
    ensures FilledUpto(m, t, m2, seg, hs, n + 1)
  {
    hide FrameOf;
    forall i: nat | i < n ensures SameBytes(m, t, m2, seg, i, hs[i]) {
      assert SameBytes(m, t, m1, seg, i, hs[i]);
    }
  }

  /** Everything the page-copying loop relies on. */
  ghost predicate Filling(m: Mem, t: Tables, free: set<nat>, segs: seq<Segment>, fs: seq<nat>, s: nat,
                          m1: Mem, t1: Tables, f1: set<nat>, m2: Mem, t2: Tables, f2: set<nat>, hs: seq<nat>)
    requires s < |segs|
  {
    var seg := segs[s];
    && Source(m, t, free, segs, fs) && !seg.linear
    && Mapping(m1, t1, f1, m2, t2, f2, First(seg), Ptes(hs, seg.flags), FrameSet(hs))
    && |hs| == Pages(seg) && Distinct(hs)
    && Keeps(m, m2, free) && f2 <= free && FrameSet(hs) <= free
  }

  /** Page v is mapped by both tables, to f and to h, which can be copied. */
  ghost predicate Copyable(m: Mem, m2: Mem, t: Tables, t2: Tables, v: nat, f: nat, h: nat) {
    && BottomOf(v) in t && BottomOf(v) in t2
    && FrameOf(m2, t, v) == f && FrameOf(m2, t2, v) == h
    && f in m && f in m2 && m2[f] == m[f] && h in m2 && f != h
  }

  /** The frames the loop finds through the two tables for page j. */
  lemma FillFrames(m: Mem, t: Tables, free: set<nat>, segs: seq<Segment>, fs: seq<nat>, s: nat,
                   m1: Mem, t1: Tables, f1: set<nat>, m2: Mem, t2: Tables, f2: set<nat>, hs: seq<nat>, j: nat)
    requires s < |segs| && Filling(m, t, free, segs, fs, s, m1, t1, f1, m2, t2, f2, hs) && j < |hs|
    ensures Space(m2, t, f2) && Space(m2, t2, f2)
    ensures Copyable(m, m2, t, t2, First(segs[s]) + j, FrameOf(m, t, First(segs[s]) + j), hs[j])
  {
    hide Tree, Leaf, PtePpn, BottomOf, First, Pages, OwnFrames, Bit, Mapping, Ptes, Space;
    var v := First(segs[s]) + j;
    FillTarget(segs[s], m1, t1, f1, m2, t2, f2, hs, j);
    SourceStays(m, t, free, segs, fs, m2, f2);
    assert Leaf(m2, t, v) == Leaf(m, t, v);
    SourcePage(m, t, free, segs, fs, s, j);
    assert hs[j] in FrameSet(hs);
  }

  lemma FillTarget(seg: Segment, m1: Mem, t1: Tables, f1: set<nat>, m2: Mem, t2: Tables, f2: set<nat>, hs: seq<nat>,
                   j: nat)
    requires Mapping(m1, t1, f1, m2, t2, f2, First(seg), Ptes(hs, seg.flags), FrameSet(hs))
    requires SegmentOk(seg) && |hs| == Pages(seg) && j < |hs|
    ensures Space(m2, t2, f2) && hs[j] in m2
    ensures BottomOf(First(seg) + j) in t2 && FrameOf(m2, t2, First(seg) + j) == hs[j]
  {
    hide Tree, Leaf, PtePpn, BottomOf, First, Pages, MapsTo, Ptes, MakePte, Bit;
    NewEntry(m1, t1, m2, t2, seg, hs, j);
    assert hs[j] in FrameSet(hs);
    PpnRoundTrip(hs[j], seg.flags);
    ValidNonzero(hs[j], seg.flags);
    MappedBottom(m2, t2, First(seg) + j);
  }

  /** After page j is copied. */
  lemma FillStep(m: Mem, t: Tables, free: set<nat>, segs: seq<Segment>, fs: seq<nat>, s: nat,
                 m1: Mem, t1: Tables, f1: set<nat>, m2: Mem, t2: Tables, f2: set<nat>, hs: seq<nat>, j: nat)
    requires s < |segs| && Filling(m, t, free, segs, fs, s, m1, t1, f1, m2, t2, f2, hs) && j < |hs|
    requires FilledUpto(m, t, m2, segs[s], hs, j)
    requires FrameOf(m, t, First(segs[s]) + j) in m2
    ensures var m3 := m2[hs[j] := m2[FrameOf(m, t, First(segs[s]) + j)]];
      && Filling(m, t, free, segs, fs, s, m1, t1, f1, m3, t2, f2, hs)
      && FilledUpto(m, t, m3, segs[s], hs, j + 1)
  {
    hide Leaf, BottomOf, First, Pages, MapsTo, Ptes, Source, FilledUpto, Space, FrameOf;
    var seg := segs[s];
    FillFrames(m, t, free, segs, fs, s, m1, t1, f1, m2, t2, f2, hs, j);
    var m3 := m2[hs[j] := m2[FrameOf(m, t, First(seg) + j)]];
    assert hs[j] in FrameSet(hs);
    MappingWrite(m1, t1, f1, m2, t2, f2, m3, hs[j], First(seg), Ptes(hs, seg.flags), FrameSet(hs));
    FillOne(m, t, m2, m3, seg, hs, j);
  }

  method FillPages(k: Machine, srcRoot: nat, dstRoot: nat, seg: Segment,
                   ghost m: Mem, ghost t: Tables, ghost free: set<nat>, ghost segs: seq<Segment>, ghost fs: seq<nat>,
                   ghost s: nat,
                   ghost m1: Mem, ghost t1: Tables, ghost f1: set<nat>, ghost t2: Tables, ghost hs: seq<nat>)
    requires s < |segs| && segs[s] == seg
    requires Filling(m, t, free, segs, fs, s, m1, t1, f1, k.mem, t2, k.free, hs)
    requires Root in t && Root in t2 && srcRoot == t[Root] && dstRoot == t2[Root]
    modifies k
    ensures k.free == old(k.free) && Filling(m, t, free, segs, fs, s, m1, t1, f1, k.mem, t2, k.free, hs)
    ensures FilledUpto(m, t, k.mem, seg, hs, Pages(seg))
  {
    hide Space, Leaf, BottomOf, Filling, FilledUpto, Pages, PtePpn, Entry, Level;
    FillingCount(m, t, free, segs, fs, s, m1, t1, f1, k.mem, t2, k.free, hs);
    var n := Pages(seg);
    var j := 0;
    while j < n
      invariant j <= n && k.free == old(k.free)
      invariant Filling(m, t, free, segs, fs, s, m1, t1, f1, k.mem, t2, k.free, hs)
      invariant FilledUpto(m, t, k.mem, seg, hs, j)
    {
      FillFrames(m, t, free, segs, fs, s, m1, t1, f1, k.mem, t2, k.free, hs, j);
      FillStep(m, t, free, segs, fs, s, m1, t1, f1, k.mem, t2, k.free, hs, j);
      FoundLeaf(k.mem, t, k.free, First(seg) + j);
      FoundLeaf(k.mem, t2, k.free, First(seg) + j);
      var from, to;
      ghost var u;
      from, u := k.FindEntry(srcRoot, First(seg) + j, false, t);
      to, u := k.FindEntry(dstRoot, First(seg) + j, false, t2);
      CopyPage(k, PtePpn(Entry(k.mem[from.frame], from.index)), PtePpn(Entry(k.mem[to.frame], to.index)));
      j := j + 1;
    }
  }

  lemma FillingCount(m: Mem, t: Tables, free: set<nat>, segs: seq<Segment>, fs: seq<nat>, s: nat,
                     m1: Mem, t1: Tables, f1: set<nat>, m2: Mem, t2: Tables, f2: set<nat>, hs: seq<nat>)
    requires s < |segs| && Filling(m, t, free, segs, fs, s, m1, t1, f1, m2, t2, f2, hs)
    ensures |hs| == Pages(segs[s]) && FilledUpto(m, t, m2, segs[s], hs, 0)
  {}

  function OnlyFramed(segs: seq<Segment>): seq<Segment> {
    if segs == [] then [] else (if segs[0].linear then [] else [segs[0]]) + OnlyFramed(segs[1..])
  }

  lemma {:induction false} OnlyFramedSnoc(segs: seq<Segment>, seg: Segment)
    ensures OnlyFramed(segs + [seg]) == OnlyFramed(segs) + (if seg.linear then [] else [seg])
  {
    if segs != [] {
      OnlyFramedSnoc(segs[1..], seg);
      assert (segs + [seg])[1..] == segs[1..] + [seg];
    } else {
      assert (segs + [seg])[1..] == [];
    }
  }

  /** One round of copy_mm: the segment is mapped and, if framed, filled. */
  method CopySegment(k: Machine, srcRoot: nat, dstRoot: nat, ghost segs: seq<Segment>, seg: Segment, ghost s: nat,
                     ghost m: Mem, ghost t: Tables, ghost free: set<nat>, ghost fs: seq<nat>, ghost t1: Tables,
                     ghost gs: seq<nat>)
    returns (r: MapResult, ghost t2: Tables, ghost hs: seq<nat>)
    requires s < |segs| && segs[s] == seg && Source(m, t, free, segs, fs) && Root in t && srcRoot == t[Root]
    requires Copying(m, t, free, k.mem, t1, k.free, segs[..s], gs) && Root in t1 && dstRoot == t1[Root]
    modifies k
    ensures r.OutOfFrames? ==> k.free == {} && |free| < SpaceCost(segs)
    ensures r.AlreadyMapped? ==> Shares(segs[..s], seg)
    ensures r.Done? ==> !Shares(segs[..s], seg)
    ensures r.Done? ==> Copying(m, t, free, k.mem, t2, k.free, segs[..s] + [seg], gs + OwnFramesOf(seg, hs))
    ensures r.Done? ==> Root in t2 && t2[Root] == t1[Root]
  {
    hide Tree, Leaf, Copying, Source, Mapping, Pages, First, FramesOk, Unmapped, Filling, FilledUpto, Backing,
      OwnFrames, Ptes, PageMapped, Shares, ListedEntries, OnlyListed, SegmentOk;
    ghost var m1, f1 := k.mem, k.free;
    CopyingParts(m, t, free, m1, t1, f1, segs[..s], gs);
    SourceSegments(m, t, free, segs, fs, s);
    CopyEntries(m, t, free, m1, t1, f1, segs[..s], gs);
    UnmappedIs(m1, t1, segs[..s], seg);
    CopyCost(m, t, free, m1, t1, f1, segs, gs, s);
    r, hs, t2 := k.MapSegment(dstRoot, seg, None, 0, t1);
    if r.AlreadyMapped? { SomeMapped(m1, t1, First(seg), Pages(seg)); }
    if !r.Done? { return; }
    MappingSpace(m1, t1, f1, k.mem, t2, k.free, First(seg), Ptes(hs, seg.flags), DataFrames(seg, hs));
    if !seg.linear {
      FillStart(m, t, free, segs, fs, s, m1, t1, f1, gs, k.mem, t2, k.free, hs);
      FillPages(k, srcRoot, dstRoot, seg, m, t, free, segs, fs, s, m1, t1, f1, t2, hs);
      FillEnd(m, t, free, segs, fs, s, m1, t1, f1, k.mem, t2, k.free, hs);
    } else {
      LinearBacking(m, t, k.mem, seg, hs);
    }
    AddSegment(m, t, free, m1, t1, f1, segs[..s], gs, k.mem, t2, k.free, seg, hs);
  }

  /** What is left of the free frames when segment s is copied, and what it takes */
  lemma CopyCost(m: Mem, t: Tables, free: set<nat>, m1: Mem, t1: Tables, f1: set<nat>, segs: seq<Segment>, gs: seq<nat>,
                 s: nat)
    requires s < |segs| && Copying(m, t, free, m1, t1, f1, segs[..s], gs)
    ensures |free| + SegmentNeed(t1, segs[s]) <= |f1| + SpaceCost(segs)
  {
    hide Space, OwnFrames, TablesOf, CopiedAll, OnlyListed, FramedPages, SegmentNeed, SpaceCost;
    CostLeft(m1, t1, f1, free, segs[..s], gs);
    CostMore(t1, segs[..s], segs[s]);
    assert segs[..s] + [segs[s]] == segs[..s + 1];
    CostPrefix(segs, s + 1);
  }

  lemma CopyLeft(m: Mem, t: Tables, free: set<nat>, m1: Mem, t1: Tables, f1: set<nat>, segs: seq<Segment>, gs: seq<nat>)
    requires Copying(m, t, free, m1, t1, f1, segs, gs)
    ensures |free| == |f1| + SpaceCost(segs)
  {
    hide Space, OwnFrames, TablesOf, CopiedAll, OnlyListed, FramedPages, SpaceCost;
    CostLeft(m1, t1, f1, free, segs, gs);
  }

  lemma CopyingParts(m: Mem, t: Tables, free: set<nat>, m1: Mem, t1: Tables, f1: set<nat>, segs: seq<Segment>,
                     gs: seq<nat>)
    requires Copying(m, t, free, m1, t1, f1, segs, gs)
    ensures Space(m1, t1, f1) && Keeps(m, m1, free) && f1 <= free && t1.Values <= free && OnlyListed(m1, t1, segs)
  {}

  lemma SourceSegments(m: Mem, t: Tables, free: set<nat>, segs: seq<Segment>, fs: seq<nat>, s: nat)
    requires Source(m, t, free, segs, fs) && s < |segs|
    ensures SegmentOk(segs[s]) && SegmentsOk(segs[..s]) && SegmentsOk(segs) && segs[s].flags < WORD
    ensures Pages(segs[s]) <= KEYS
  {
    hide Bit, Pages;
    assert SegmentOk(segs[s]);
    forall i | 0 <= i < s ensures SegmentOk(segs[..s][i]) { assert SegmentOk(segs[i]); }
  }

  lemma SegmentBounds(seg: Segment)
    requires SegmentOk(seg)
    ensures seg.flags < WORD && Pages(seg) <= KEYS
  {}

  /** Adding a segment at the end of a list */
  lemma ClashLast(segs: seq<Segment>, s: nat)
    requires s < |segs| && SegmentsOk(segs)
    ensures Clash(segs[..s + 1]) <==> Shares(segs[..s], segs[s]) || Clash(segs[..s])
    ensures Clash(segs[..s + 1]) ==> Clash(segs)
  {
    hide Meet, SegmentOk;
    var prev, more := segs[..s], segs[..s + 1];
    assert SegmentOk(segs[s]);
    SegmentBounds(segs[s]);
    if Clash(more) {
      var a: nat, b: nat :| a < b < |more| && Meet(more[a], more[b]);
      assert more[a] == segs[a] && more[b] == segs[b] && SegmentOk(segs[a]);
      SegmentBounds(segs[a]);
      assert prev[a] == segs[a];
      if b == s { MeetBack(segs[a], segs[b]); } else { assert prev[b] == segs[b]; }
    }
    if Shares(prev, segs[s]) {
      var b: nat :| b < s && Meet(segs[s], prev[b]);
      MeetBack(segs[s], segs[b]);
      assert Meet(more[b], more[s]);
    }
    if Clash(prev) {
      var a: nat, b: nat :| a < b < s && Meet(prev[a], prev[b]);
      assert Meet(more[a], more[b]);
    }
  }

  /** The entry of a listed page is not zero. */
  lemma EntryNonzero(m: Mem, t: Tables, segs: seq<Segment>, s: nat, i: nat)
    requires ListedEntries(m, t, segs) && SegmentsOk(segs) && s < |segs| && i < Pages(segs[s])
    ensures Leaf(m, t, First(segs[s]) + i) != 0
  {
    hide Leaf, MakePte, PtePpn, LinearFrame, Pages, First, Bit, FrameOf;
    var seg := segs[s];
    assert ListedEntry(m, t, seg, i) && SegmentOk(seg);
    var v := First(seg) + i;
    ValidNonzero(if seg.linear then LinearFrame(v) else FrameOf(m, t, v), seg.flags);
  }

  /** Every page of the list has an entry, whichever page number names it. */
  lemma ListedNonzero(m: Mem, t: Tables, segs: seq<Segment>, v: nat)
    requires ListedEntries(m, t, segs) && SegmentsOk(segs) && Listed(segs, v)
    ensures Leaf(m, t, v) != 0
  {
    hide Leaf, ListedEntries, Pages, First, Offset, Key, Bit;
    var s :| 0 <= s < |segs| && Offset(First(segs[s]), v) < Pages(segs[s]);
    var i := Offset(First(segs[s]), v);
    assert SegmentOk(segs[s]);
    OffsetIs(First(segs[s]), v, i);
    SameKeySameLeaf(m, t, v, First(segs[s]) + i);
    EntryNonzero(m, t, segs, s, i);
  }

  /** A segment can be mapped when it shares no page with those listed. */
  lemma UnmappedIs(m: Mem, t: Tables, segs: seq<Segment>, seg: Segment)
    requires ListedEntries(m, t, segs) && OnlyListed(m, t, segs) && SegmentsOk(segs)
    ensures Unmapped(m, t, First(seg), Pages(seg)) <==> !Shares(segs, seg)
  {
    hide Leaf, Pages, First, ListedEntries, SegmentsOk, Offset;
    forall i: nat | i < Pages(seg) && PageMapped(m, t, First(seg), i) ensures Shares(segs, seg) {
      assert Listed(segs, First(seg) + i);
      var b :| 0 <= b < |segs| && Offset(First(segs[b]), First(seg) + i) < Pages(segs[b]);
      assert SharedPage(seg, segs[b], i);
    }
    if Shares(segs, seg) {
      var b :| 0 <= b < |segs| && Meet(seg, segs[b]);
      var i: nat :| SharedPage(seg, segs[b], i);
      assert Listed(segs, First(seg) + i);
      ListedNonzero(m, t, segs, First(seg) + i);
      assert PageMapped(m, t, First(seg), i);
    }
  }

  lemma SomeMapped(m: Mem, t: Tables, first: nat, n: nat)
    requires exists i: nat :: i < n && PageMapped(m, t, first, i)
    ensures !Unmapped(m, t, first, n)
  {}

  lemma FillStart(m: Mem, t: Tables, free: set<nat>, segs: seq<Segment>, fs: seq<nat>, s: nat,
                  m1: Mem, t1: Tables, f1: set<nat>, gs: seq<nat>, m2: Mem, t2: Tables, f2: set<nat>, hs: seq<nat>)
    requires s < |segs| && !segs[s].linear && Source(m, t, free, segs, fs)
    requires Copying(m, t, free, m1, t1, f1, segs[..s], gs)
    requires Mapping(m1, t1, f1, m2, t2, f2, First(segs[s]), Ptes(hs, segs[s].flags), DataFrames(segs[s], hs))
    requires FramesOk(m2, segs[s], hs, None, 0) && |hs| == Pages(segs[s])
    ensures Filling(m, t, free, segs, fs, s, m1, t1, f1, m2, t2, f2, hs)
  {
    hide Tree, Leaf, MapsTo, Ptes, Pages, First, OwnFrames, Source, PageData, CopiedAll, OnlyListed, FrameOf;
    assert forall f :: f in f1 + t1.Values ==> f in free;
  }

  lemma FillEnd(m: Mem, t: Tables, free: set<nat>, segs: seq<Segment>, fs: seq<nat>, s: nat,
                m1: Mem, t1: Tables, f1: set<nat>, m2: Mem, t2: Tables, f2: set<nat>, hs: seq<nat>)
    requires s < |segs| && Filling(m, t, free, segs, fs, s, m1, t1, f1, m2, t2, f2, hs)
    requires FilledUpto(m, t, m2, segs[s], hs, Pages(segs[s]))
    ensures Backing(m, t, m2, segs[s], hs)
    ensures Mapping(m1, t1, f1, m2, t2, f2, First(segs[s]), Ptes(hs, segs[s].flags), DataFrames(segs[s], hs))
  {
    hide Mapping, Ptes, Pages, First, Source, SameBytes;
  }

  lemma LinearBacking(m: Mem, t: Tables, m2: Mem, seg: Segment, hs: seq<nat>)
    requires seg.linear && FramesOk(m2, seg, hs, None, 0) && |hs| == Pages(seg)
    ensures Backing(m, t, m2, seg, hs)
  {}

  /** copy_mm: done exactly when no two segments share a page and there are as many
      free frames as the copy takes. */
  method CopyMm(k: Machine, src: MemoryMap, ghost t: Tables, ghost fs: seq<nat>)
    returns (r: MapResult, dst: MemoryMap, ghost t2: Tables, ghost gs: seq<nat>)
    requires Source(k.mem, t, k.free, src.segments, fs) && Root in t && src.root == t[Root]
    modifies k
    ensures fresh(dst)
    ensures r.Done? <==> !Clash(src.segments) && SpaceCost(src.segments) <= |old(k.free)|
    ensures r.Done? ==> |old(k.free)| == |k.free| + SpaceCost(src.segments)
    ensures r.OutOfFrames? ==> k.free == {}
    ensures !r.Done? ==> Refused(r, src.segments, |old(k.free)|)
    ensures r.Done? ==>
      && Copying(old(k.mem), t, old(k.free), k.mem, t2, k.free, src.segments, gs)
      && Source(k.mem, t, k.free, src.segments, fs) && SameLeaves(old(k.mem), t, k.mem, t)
      && Root in t2 && dst.root == t2[Root] && dst.segments == OnlyFramed(src.segments)
  {
    hide Tree, Leaf, Copying, Source, Keeps, OnlyFramed, OnlyListed, Listed, FreeOk, Clash, Shares, SpaceCost;
    ghost var m, free := k.mem, k.free;
    ghost var segs := src.segments;
    assert FreeOk(k.mem, k.free) by { SourceFree(m, t, free, segs, fs); }
    var root := k.AllocFrame();
    dst := new MemoryMap(if root.None? then 0 else root.value);
    t2, gs := map[], [];
    CostPositive(segs);
    if root.None? { return OutOfFrames, dst, t2, gs; }
    FreshRoot(m, k.mem, t, free, root.value);
    t2 := map[Root := root.value];
    assert segs[..0] == [];
    NoneFramed();
    NoClash();
    var i := 0;
    while i < |src.segments|
      invariant i <= |segs| && src.segments == segs
      invariant Copying(m, t, free, k.mem, t2, k.free, segs[..i], gs)
      invariant Root in t2 && dst.root == t2[Root] && dst.segments == OnlyFramed(segs[..i])
      invariant fresh(dst) && !Clash(segs[..i])
    {
      var seg := src.segments[i];
      ghost var hs;
      SourceClash(m, t, free, segs, fs, i);
      r, t2, hs := CopySegment(k, src.root, dst.root, segs, seg, i, m, t, free, fs, t2, gs);
      if !r.Done? { return; }
      gs := gs + OwnFramesOf(seg, hs);
      OnlyFramedSnoc(segs[..i], seg);
      assert segs[..i] + [seg] == segs[..i + 1];
      if !seg.linear { dst.segments := dst.segments + [seg]; }
      i := i + 1;
    }
    assert segs[..i] == segs;
    CopyingParts(m, t, free, k.mem, t2, k.free, segs, gs);
    CopyLeft(m, t, free, k.mem, t2, k.free, segs, gs);
    SourceStays(m, t, free, segs, fs, k.mem, k.free);
    r := Done;
  }

  lemma SourceFree(m: Mem, t: Tables, free: set<nat>, segs: seq<Segment>, fs: seq<nat>)
    requires Source(m, t, free, segs, fs)
    ensures FreeOk(m, free)
  {}

  lemma NoClash()
    ensures !Clash([])
  {}

  lemma SourceClash(m: Mem, t: Tables, free: set<nat>, segs: seq<Segment>, fs: seq<nat>, s: nat)
    requires Source(m, t, free, segs, fs) && s < |segs|
    ensures Clash(segs[..s + 1]) <==> Shares(segs[..s], segs[s]) || Clash(segs[..s])
    ensures Clash(segs[..s + 1]) ==> Clash(segs)
  {
    ClashLast(segs, s);
  }

  lemma NoneFramed()
    ensures OnlyFramed([]) == []
  {}

  // ---------- what a copy means ----------

  /** The original's entries are those of its listed segments. */
  ghost predicate ListedEntries(m: Mem, t: Tables, segs: seq<Segment>) {
    forall s, i: nat :: 0 <= s < |segs| && i < Pages(segs[s]) ==> ListedEntry(m, t, segs[s], i)
  }

  ghost predicate ListedEntry(m: Mem, t: Tables, seg: Segment, i: nat) {
    var v := First(seg) + i;
    Leaf(m, t, v) == MakePte(if seg.linear then LinearFrame(v) else FrameOf(m, t, v), seg.flags)
      && (!seg.linear ==> FrameOf(m, t, v) < PPN_LIMIT)
  }

  /** Page v translates. */
  ghost predicate Translated(m: Mem, t: Tables, v: nat)
    requires Root in t
  {
    Walk(m, t[Root], v, 2) != Fault
  }

  /** Copying preserves meaning: in the copy, a page of a linear segment has the
      very entry of the original; a page of a framed segment has the same flag
      bits and another frame, taken from the free ones, with the same bytes.  The
      walk finds both entries, or, for flags that are no leaf's, neither. */
  lemma CopyPreserves(m: Mem, t: Tables, free: set<nat>, m2: Mem, t2: Tables, f2: set<nat>,
                      segs: seq<Segment>, gs: seq<nat>, s: nat, i: nat)
    requires Copying(m, t, free, m2, t2, f2, segs, gs) && SegmentsOk(segs) && Tree(m, t) && ListedEntries(m, t, segs)
    requires s < |segs| && i < Pages(segs[s])
    ensures var v := First(segs[s]) + i; var f, g := FrameOf(m, t, v), FrameOf(m2, t2, v);
      if segs[s].linear then Leaf(m2, t2, v) == Leaf(m, t, v)
      else
        && (forall b: nat :: b < 10 ==> (Bit(Leaf(m2, t2, v), b) <==> Bit(Leaf(m, t, v), b)))
        && f in m && g in m2 && m2[g] == m[f] && g in free
    ensures Root in t && Root in t2
    ensures var v := First(segs[s]) + i; var w, w2 := Walk(m, t[Root], v, 2), Walk(m2, t2[Root], v, 2);
      if Translates(segs[s].flags) then w == Maps(Leaf(m, t, v), 0) && w2 == Maps(Leaf(m2, t2, v), 0)
      else w == Fault && w2 == Fault
  {
    hide Leaf, MakePte, PtePpn, LinearFrame, Pages, BottomOf, Bit, First, Space, OnlyListed, Keeps, Walk, Tree,
      Translates;
    var seg := segs[s];
    var v := First(seg) + i;
    CopySpaceOk(m, t, free, m2, t2, f2, segs, gs);
    assert ListedEntry(m, t, seg, i);
    assert CopiedSegment(m, t, m2, t2, seg);
    assert CopiedPage(m, t, m2, t2, seg, i);
    assert SegmentOk(seg);
    var f, g := FrameOf(m, t, v), FrameOf(m2, t2, v);
    WalkOfEntry(m, t, v, if seg.linear then LinearFrame(v) else f, seg.flags);
    WalkOfEntry(m2, t2, v, if seg.linear then LinearFrame(v) else g, seg.flags);
    if !seg.linear {
      forall b: nat | b < 10 ensures Bit(Leaf(m2, t2, v), b) <==> Bit(Leaf(m, t, v), b) {
        MakePteBits(f, seg.flags, b);
        MakePteBits(g, seg.flags, b);
      }
      AmongFramed(segs, s, i);
      var vs := FramedPages(segs);
      var j :| 0 <= j < |vs| && vs[j] == v;
      assert gs[j] in FrameSet(gs);
    }
  }

  lemma CopySpaceOk(m: Mem, t: Tables, free: set<nat>, m2: Mem, t2: Tables, f2: set<nat>, segs: seq<Segment>,
                    gs: seq<nat>)
    requires Copying(m, t, free, m2, t2, f2, segs, gs)
    ensures Tree(m2, t2) && Root in t2 && OnlyListed(m2, t2, segs)
  {}

  lemma CopyEntries(m: Mem, t: Tables, free: set<nat>, m2: Mem, t2: Tables, f2: set<nat>, segs: seq<Segment>,
                    gs: seq<nat>)
    requires Copying(m, t, free, m2, t2, f2, segs, gs)
    ensures ListedEntries(m2, t2, segs)
  {
    hide Leaf, MakePte, PtePpn, LinearFrame, Pages, First, Space, OnlyListed, Keeps, OwnFrames, FrameOf;
    forall s, i: nat | 0 <= s < |segs| && i < Pages(segs[s]) ensures ListedEntry(m2, t2, segs[s], i) {
      assert CopiedSegment(m, t, m2, t2, segs[s]);
      assert CopiedPage(m, t, m2, t2, segs[s], i);
    }
  }

  /** A listed page translates exactly when its segment's flags are a leaf's. */
  lemma ListedTranslates(m: Mem, t: Tables, segs: seq<Segment>, s: nat, v: nat)
    requires Tree(m, t) && ListedEntries(m, t, segs) && SegmentsOk(segs)
    requires s < |segs| && Offset(First(segs[s]), v) < Pages(segs[s])
    ensures Root in t && (Translated(m, t, v) <==> Translates(segs[s].flags))
  {
    hide Leaf, MakePte, PtePpn, LinearFrame, Pages, Bit, First, Offset, Key, Walk, Tree, Translates;
    var seg := segs[s];
    var i := Offset(First(seg), v);
    assert SegmentOk(seg) && ListedEntry(m, t, seg, i);
    OffsetIs(First(seg), v, 0);
    OffsetIs(First(seg), v, i);
    SameKeySameLeaf(m, t, v, First(seg) + i);
    WalkOfEntry(m, t, v, if seg.linear then LinearFrame(First(seg) + i) else FrameOf(m, t, First(seg) + i), seg.flags);
  }

  /** A copy translates exactly the listed pages that its source translates; so it
      translates all of them exactly when all are listed. */
  lemma CopyTranslates(m: Mem, t: Tables, free: set<nat>, m2: Mem, t2: Tables, f2: set<nat>, segs: seq<Segment>,
                       gs: seq<nat>)
    requires Copying(m, t, free, m2, t2, f2, segs, gs) && SegmentsOk(segs) && Tree(m, t) && ListedEntries(m, t, segs)
    ensures Root in t && Root in t2
    ensures forall v: nat :: Translated(m2, t2, v) <==> Listed(segs, v) && Translated(m, t, v)
    ensures (forall v: nat :: Translated(m, t, v) ==> Translated(m2, t2, v)) <==>
      (forall v: nat :: Translated(m, t, v) ==> Listed(segs, v))
  {
    hide Leaf, Pages, First, Offset, Walk, Tree, Translates, Translated, Copying, SegmentsOk, ListedEntries;
    TreeHasRoot(m, t);
    CopySpaceOk(m, t, free, m2, t2, f2, segs, gs);
    CopyEntries(m, t, free, m2, t2, f2, segs, gs);
    forall v: nat ensures Translated(m2, t2, v) <==> Listed(segs, v) && Translated(m, t, v) {
      if Listed(segs, v) {
        var s: nat :| s < |segs| && Offset(First(segs[s]), v) < Pages(segs[s]);
        ListedTranslates(m, t, segs, s, v);
        ListedTranslates(m2, t2, segs, s, v);
      } else {
        Untranslated(m2, t2, segs, v);
      }
    }
  }

  lemma Untranslated(m: Mem, t: Tables, segs: seq<Segment>, v: nat)
    requires Tree(m, t) && OnlyListed(m, t, segs) && !Listed(segs, v)
    ensures Root in t && !Translated(m, t, v)
  {
    hide Leaf, Walk, Tree, Listed;
    WalkOfNothing(m, t, v);
  }

  /** The list of a copy names framed segments only, so a copy of a copy has lost
      every page of every linear segment. */
  lemma SecondCopy(m: Mem, t: Tables, free: set<nat>, m2: Mem, t2: Tables, f2: set<nat>, segs: seq<Segment>,
                   gs: seq<nat>,
                   m3: Mem, t3: Tables, f3: set<nat>, m4: Mem, t4: Tables, f4: set<nat>, hs: seq<nat>, s: nat, v: nat)
    requires Copying(m, t, free, m2, t2, f2, segs, gs) && SegmentsOk(segs) && !Clash(segs)
    requires Copying(m3, t3, f3, m4, t4, f4, OnlyFramed(segs), hs)
    requires s < |segs| && segs[s].linear && Offset(First(segs[s]), v) < Pages(segs[s])
    ensures Root in t2 && (Translated(m2, t2, v) <==> Translates(segs[s].flags))
    ensures Root in t4 && !Translated(m4, t4, v)
  {
    hide Leaf, Pages, First, Offset, Walk, Tree, Translates, Translated, Copying, ListedEntries, OnlyFramed, SegmentOk,
      Clash;
    CopySpaceOk(m, t, free, m2, t2, f2, segs, gs);
    CopySpaceOk(m3, t3, f3, m4, t4, f4, OnlyFramed(segs), hs);
    CopyEntries(m, t, free, m2, t2, f2, segs, gs);
    ListedTranslates(m2, t2, segs, s, v);
    if Listed(OnlyFramed(segs), v) {
      var r: nat :| r < |OnlyFramed(segs)| && Offset(First(OnlyFramed(segs)[r]), v) < Pages(OnlyFramed(segs)[r]);
      var q := OnlyFramedFrom(segs, r);
      CommonPage(segs, s, q, v);
    }
    Untranslated(m4, t4, OnlyFramed(segs), v);
  }

  /** Two segments that both have page v share it. */
  lemma CommonPage(segs: seq<Segment>, s: nat, q: nat, v: nat)
    requires s < |segs| && q < |segs| && s != q && SegmentsOk(segs)
    requires Offset(First(segs[s]), v) < Pages(segs[s]) && Offset(First(segs[q]), v) < Pages(segs[q])
    ensures Clash(segs)
  {
    hide Pages, First, Offset, Key, Bit;
    assert SegmentOk(segs[s]) && SegmentOk(segs[q]);
    var i, j := Offset(First(segs[s]), v), Offset(First(segs[q]), v);
    OffsetIs(First(segs[s]), v, 0);
    OffsetIs(First(segs[q]), v, 0);
    OffsetIs(First(segs[s]), v, i);
    OffsetIs(First(segs[q]), v, j);
    OffsetIs(First(segs[q]), First(segs[s]) + i, j);
    assert SharedPage(segs[s], segs[q], i);
    MeetBack(segs[s], segs[q]);
  }

  /** Loading: after map_segment, reading by the walk at the k-th address of the
      segment's pages gives byte k of the data, and zeros after the data, if and
      only if the segment's flags translate; otherwise the walk faults.  The data
      begins at the page boundary, wherever in the page the segment starts. */
  lemma LoadedPages(m: Mem, t: Tables, free: set<nat>, m2: Mem, t2: Tables, f2: set<nat>,
                    seg: Segment, fs: seq<nat>, data: seq<byte>, len: nat, k: nat)
    requires Mapping(m, t, free, m2, t2, f2, First(seg), Ptes(fs, seg.flags), DataFrames(seg, fs))
    requires !seg.linear && SegmentOk(seg) && |fs| == Pages(seg)
    requires len <= |data| && FramesOk(m2, seg, fs, Some(data), len) && k < PAGE_SIZE * Pages(seg)
    ensures var va := PAGE_SIZE * First(seg) + k; var b := if k < len then data[k] else 0;
      && Root in t2 && (Reads(m2, t2[Root], va, seg.flags, b) <==> Translates(seg.flags))
      && (!Translates(seg.flags) ==> !Translated(m2, t2, va / PAGE_SIZE))
  {
    hide Leaf, MakePte, PtePpn, BottomOf, Bit, Tree, MapsTo, Ptes, DataPage, Overlay, First, Pages, Key, Walk,
      Translates, Reads;
    var i, off := k / PAGE_SIZE, k % PAGE_SIZE;
    PageOffset(First(seg), Pages(seg), k);
    NewEntry(m, t, m2, t2, seg, fs, i);
    assert Backed(m2, fs[i], PageData(Some(data), len, i));
    assert fs[i] in FrameSet(fs);
    DataPageAt(data, len, i, off);
    ReadsWhen(m2, t2, PAGE_SIZE * First(seg) + k, fs[i], seg.flags, if k < len then data[k] else 0);
  }

  lemma PageOffset(first: nat, n: nat, k: nat)
    requires k < PAGE_SIZE * n
    ensures k / PAGE_SIZE < n
    ensures (PAGE_SIZE * first + k) / PAGE_SIZE == first + k / PAGE_SIZE
    ensures (PAGE_SIZE * first + k) % PAGE_SIZE == k % PAGE_SIZE
  {}

  /** So for a page-aligned segment as long as the data, start + k holds byte k. */
  lemma LoadedBytes(m: Mem, t: Tables, free: set<nat>, m2: Mem, t2: Tables, f2: set<nat>,
                    seg: Segment, fs: seq<nat>, data: seq<byte>, len: nat, k: nat)
    requires Mapping(m, t, free, m2, t2, f2, First(seg), Ptes(fs, seg.flags), DataFrames(seg, fs))
    requires !seg.linear && SegmentOk(seg) && |fs| == Pages(seg)
    requires len <= |data| && FramesOk(m2, seg, fs, Some(data), len)
    requires seg.start % PAGE_SIZE == 0 && 0 < len && seg.end == seg.start + len < WORD
    requires k < PAGE_SIZE * Pages(seg)
    ensures len <= PAGE_SIZE * Pages(seg) < len + PAGE_SIZE && Root in t2
    ensures Reads(m2, t2[Root], seg.start + k, seg.flags, if k < len then data[k] else 0) <==> Translates(seg.flags)
    ensures !Translates(seg.flags) ==> !Translated(m2, t2, (seg.start + k) / PAGE_SIZE)
  {
    hide Mapping, Ptes, FramesOk, DataFrames, SegmentOk, Reads, Translates, Translated;
    PagesOfLength(seg, len, k);
    LoadedPages(m, t, free, m2, t2, f2, seg, fs, data, len, k);
  }

  lemma PagesOfLength(seg: Segment, len: nat, k: nat)
    requires seg.start % PAGE_SIZE == 0 && 0 < len && seg.end == seg.start + len < WORD
    requires k < PAGE_SIZE * Pages(seg)
    ensures len <= PAGE_SIZE * Pages(seg) < len + PAGE_SIZE
    ensures k / PAGE_SIZE < Pages(seg)
    ensures (seg.start + k) / PAGE_SIZE == First(seg) + k / PAGE_SIZE && (seg.start + k) % PAGE_SIZE == k % PAGE_SIZE
  {
    var q := seg.start / PAGE_SIZE;
    assert seg.start == PAGE_SIZE * q;
    assert (seg.end + WORD - 1) % WORD == seg.end - 1;
  }

  lemma DataPageAt(data: seq<byte>, len: nat, i: nat, off: nat)
    requires len <= |data| && off < PAGE_SIZE
    ensures DataPage(data, len, i)[off] == if PAGE_SIZE * i + off < len then data[PAGE_SIZE * i + off] else 0
  {}

  // ---------- a copy can be torn down again ----------

  ghost predicate Accessible(flags: nat) {
    Bit(flags, READ) || Bit(flags, WRITE) || Bit(flags, EXEC)
  }

  lemma AccessibleLeaf(ppn: nat, flags: nat)
    requires Accessible(flags)
    ensures !PointsToTable(MakePte(ppn, flags))
  {
    hide MakePte, Bit, PointsToTable;
    PointsToTableBits(MakePte(ppn, flags));
    FlagBits(ppn, flags, READ);
    FlagBits(ppn, flags, WRITE);
    FlagBits(ppn, flags, EXEC);
  }

  lemma {:induction false} FramedOfFramed(segs: seq<Segment>)
    ensures FramedPages(OnlyFramed(segs)) == FramedPages(segs)
  {
    hide OwnPages;
    if segs != [] {
      FramedOfFramed(segs[1..]);
      if segs[0].linear {
        LinearOwnsNothing(segs[0]);
        assert OnlyFramed(segs) == OnlyFramed(segs[1..]);
        assert FramedPages(segs) == FramedPages(segs[1..]);
      } else {
        assert OnlyFramed(segs)[1..] == OnlyFramed(segs[1..]);
      }
    }
  }

  lemma LinearOwnsNothing(seg: Segment)
    requires seg.linear
    ensures OwnPages(seg) == []
  {}

  lemma ListedIsEntry(m: Mem, t: Tables, m2: Mem, t2: Tables, segs: seq<Segment>, v: nat)
    requires CopiedAll(m, t, m2, t2, segs) && Listed(segs, v) && SegmentsOk(segs)
    requires forall s :: 0 <= s < |segs| ==> Accessible(segs[s].flags)
    ensures !PointsToTable(Leaf(m2, t2, v))
  {
    hide Leaf, MakePte, PtePpn, LinearFrame, Pages, Bit, First, Accessible, PointsToTable, Offset, Key;
    var s :| 0 <= s < |segs| && Offset(First(segs[s]), v) < Pages(segs[s]);
    var seg := segs[s];
    var i := Offset(First(seg), v);
    assert SegmentOk(seg);
    assert CopiedSegment(m, t, m2, t2, seg);
    assert CopiedPage(m, t, m2, t2, seg, i);
    OffsetIs(First(seg), v, i);
    SameKeySameLeaf(m2, t2, v, First(seg) + i);
    AccessibleLeaf(if seg.linear then LinearFrame(First(seg) + i) else FrameOf(m2, t2, First(seg) + i), seg.flags);
  }

  /** A copy meets the conditions of dealloc_memory_map, and what that gives
      back is exactly what the copy took. */
  lemma CopyTearsDown(m: Mem, t: Tables, free: set<nat>, m2: Mem, t2: Tables, f2: set<nat>, segs: seq<Segment>,
                      gs: seq<nat>)
    requires Copying(m, t, free, m2, t2, f2, segs, gs) && SegmentsOk(segs)
    requires forall s :: 0 <= s < |segs| ==> Accessible(segs[s].flags)
    ensures LeavesOnly(m2, t2) && OwnFrames(m2, t2, f2, FramedPages(OnlyFramed(segs)), gs)
    ensures f2 + FrameSet(gs) + t2.Values == free
  {
    hide Leaf, Pages, First, Accessible, PointsToTable, Listed, SegmentOk, CopiedSegment, Space, Keeps, OwnFrames;
    FramedOfFramed(segs);
    forall v: nat ensures !PointsToTable(Leaf(m2, t2, v)) {
      if Leaf(m2, t2, v) != 0 {
        ListedIsEntry(m, t, m2, t2, segs, v);
      } else {
        ZeroPoints();
      }
    }
  }

  lemma {:induction false} OnlyFramedFrom(segs: seq<Segment>, s: nat) returns (r: nat)
    requires s < |OnlyFramed(segs)|
    ensures r < |segs| && segs[r] == OnlyFramed(segs)[s] && !segs[r].linear
  {
    if !segs[0].linear && s == 0 {
      r := 0;
    } else {
      r := OnlyFramedFrom(segs[1..], if segs[0].linear then s else s - 1);
      r := r + 1;
    }
  }

  /** A copy can be copied in its turn. */
  lemma CopyAgain(m: Mem, t: Tables, free: set<nat>, m2: Mem, t2: Tables, f2: set<nat>, segs: seq<Segment>,
                  gs: seq<nat>)
    requires Copying(m, t, free, m2, t2, f2, segs, gs) && SegmentsOk(segs)
    ensures Source(m2, t2, f2, OnlyFramed(segs), gs) && ListedEntries(m2, t2, OnlyFramed(segs))
  {
    hide Leaf, MakePte, PtePpn, LinearFrame, Pages, First, Space, OnlyListed, Keeps, OwnFrames, SegmentOk, FrameOf,
      OnlyFramed;
    var copy := OnlyFramed(segs);
    FramedOfFramed(segs);
    forall s: nat | s < |copy| ensures SegmentOk(copy[s]) {
      var r := OnlyFramedFrom(segs, s);
      assert SegmentOk(segs[r]);
    }
    forall s, i: nat | 0 <= s < |copy| && i < Pages(copy[s]) ensures ListedEntry(m2, t2, copy[s], i) {
      var r := OnlyFramedFrom(segs, s);
      assert CopiedSegment(m, t, m2, t2, segs[r]);
      assert CopiedPage(m, t, m2, t2, segs[r], i);
    }
  }

  lemma ZeroPoints()
    ensures !PointsToTable(0)
  {}

  /** Page j of the user stack: map_pages has named its frame, whatever was there. */
  lemma StackEntry(m: Mem, t: Tables, free: set<nat>, m2: Mem, t2: Tables, f2: set<nat>,
                   first: nat, ppn: nat, n: nat, flags: nat, v: nat)
    requires Mapping(m, t, free, m2, t2, f2, first, PtesFrom(ppn, n, flags), {})
    requires flags < FLAG_LIMIT && ppn + n <= PPN_LIMIT && Offset(first, v) < n
    ensures Leaf(m2, t2, v) == MakePte(ppn + Offset(first, v), flags)
    ensures FrameOf(m2, t2, v) == ppn + Offset(first, v)
  {
    hide Leaf, Space, Offset, MakePte, PtePpn;
    PtesFromAt(ppn, n, flags, Offset(first, v));
    PpnRoundTrip(ppn + Offset(first, v), flags);
  }

  /** Mapping the user stack with map_pages over an address space that owns frames gs
      for its pages vs, none of them the stack's.  It still owns them exactly when no
      page of vs is a stack page: over such a page the data frame's number is lost,
      and teardown gives back the stack's frame instead.  Apart from that, entries can
      still be told from tables, no frame is lost, and no stack frame becomes a table. */
  lemma StackTearsDown(m: Mem, t: Tables, free: set<nat>, m2: Mem, t2: Tables, f2: set<nat>,
                       first: nat, ppn: nat, n: nat, flags: nat, vs: seq<nat>, gs: seq<nat>)
    requires OwnFrames(m, t, free, vs, gs) && LeavesOnly(m, t) && Space(m, t, free)
    requires Mapping(m, t, free, m2, t2, f2, first, PtesFrom(ppn, n, flags), {}) && Accessible(flags)
    requires flags < FLAG_LIMIT && ppn + n <= PPN_LIMIT && forall f :: ppn <= f < ppn + n ==> f !in FrameSet(gs)
    ensures OwnFrames(m2, t2, f2, vs, gs) <==> forall i :: 0 <= i < |vs| ==> Offset(first, vs[i]) >= n
    ensures forall i :: 0 <= i < |vs| && Offset(first, vs[i]) < n ==>
      FrameOf(m2, t2, vs[i]) == ppn + Offset(first, vs[i]) != gs[i]
    ensures LeavesOnly(m2, t2) && f2 + FrameSet(gs) + t2.Values == free + FrameSet(gs) + t.Values
    ensures (forall f :: ppn <= f < ppn + n ==> f !in free + t.Values) ==>
      forall f :: ppn <= f < ppn + n ==> f !in FrameSet(gs) + t2.Values
  {
    hide Leaf, Accessible, PointsToTable, PtePpn, BottomOf, Tree, Offset, MakePte, PtesFrom;
    forall v: nat ensures !PointsToTable(Leaf(m2, t2, v)) {
      if Offset(first, v) < n {
        StackEntry(m, t, free, m2, t2, f2, first, ppn, n, flags, v);
        AccessibleLeaf(ppn + Offset(first, v), flags);
      }
    }
    forall i | 0 <= i < |vs| && Offset(first, vs[i]) < n
      ensures FrameOf(m2, t2, vs[i]) == ppn + Offset(first, vs[i]) != gs[i]
    {
      StackEntry(m, t, free, m2, t2, f2, first, ppn, n, flags, vs[i]);
      assert gs[i] in FrameSet(gs);
    }
    assert forall f :: f in f2 || f in t2.Values ==> f in free + t.Values;
    if forall i :: 0 <= i < |vs| ==> Offset(first, vs[i]) >= n {
      StackOwn(m, t, free, m2, t2, f2, first, PtesFrom(ppn, n, flags), vs, gs);
    }
  }

  /** The frames that the pages name once the stack is mapped */
  function WithStack(first: nat, ppn: nat, n: nat, vs: seq<nat>, gs: seq<nat>): (fs: seq<nat>)
    requires |vs| == |gs|
    ensures |fs| == |vs|
  {
    seq(|vs|, i requires 0 <= i < |vs| => if Offset(first, vs[i]) < n then ppn + Offset(first, vs[i]) else gs[i])
  }

  /** What teardown then gives back for the pages: the stack's frame for each page
      that is also a stack page.  The data frame of such a page is lost: it is
      neither given back nor free nor a table. */
  lemma StackGivenBack(m: Mem, t: Tables, free: set<nat>, m2: Mem, t2: Tables, f2: set<nat>,
                       first: nat, ppn: nat, n: nat, flags: nat, vs: seq<nat>, gs: seq<nat>)
    requires OwnFrames(m, t, free, vs, gs) && Space(m, t, free)
    requires Mapping(m, t, free, m2, t2, f2, first, PtesFrom(ppn, n, flags), {})
    requires flags < FLAG_LIMIT && ppn + n <= PPN_LIMIT && n <= KEYS
    requires forall f :: ppn <= f < ppn + n ==> f in m && f !in free + t.Values + FrameSet(gs)
    ensures OwnFrames(m2, t2, f2, vs, WithStack(first, ppn, n, vs, gs))
    ensures forall i :: 0 <= i < |vs| && Offset(first, vs[i]) < n ==>
      gs[i] !in FrameSet(WithStack(first, ppn, n, vs, gs)) + f2 + t2.Values
  {
    hide Leaf, PtePpn, BottomOf, Tree, Offset, MakePte, PtesFrom, Space;
    var fs := WithStack(first, ppn, n, vs, gs);
    SpaceApart(m2, t2, f2);
    assert forall f :: f in f2 || f in t2.Values ==> f in free + t.Values;
    assert forall i :: 0 <= i < |gs| ==> gs[i] in FrameSet(gs);
    forall i | 0 <= i < |vs| ensures BottomOf(vs[i]) in t2 && FrameOf(m2, t2, vs[i]) == fs[i] {
      assert BottomOf(vs[i]) in t && FrameOf(m, t, vs[i]) == gs[i];
      if Offset(first, vs[i]) < n { StackEntry(m, t, free, m2, t2, f2, first, ppn, n, flags, vs[i]); }
    }
    forall i, j | 0 <= i < j < |fs| ensures fs[i] != fs[j] {
      assert FrameOf(m, t, vs[i]) != FrameOf(m, t, vs[j]);
      SamePlace(m, t, first, vs[i], vs[j]);
    }
    assert forall f :: f in FrameSet(fs) ==> f in m && f < PPN_LIMIT && f !in free + t.Values;
  }

  /** Pages with different frames are at different places. */
  lemma SamePlace(m: Mem, t: Tables, first: nat, u: nat, v: nat)
    ensures Offset(first, u) == Offset(first, v) ==> FrameOf(m, t, u) == FrameOf(m, t, v)
  {
    hide Leaf, PtePpn, Key, Offset;
    var j := Offset(first, u);
    OffsetIs(first, u, 0);
    OffsetIs(first, u, j);
    OffsetIs(first, v, j);
    if Offset(first, u) == Offset(first, v) { SameKeySameLeaf(m, t, u, v); }
  }

  /** Mapping other pages over existing tables and free frames leaves frames owned. */
  lemma StackOwn(m: Mem, t: Tables, free: set<nat>, m2: Mem, t2: Tables, f2: set<nat>,
                 first: nat, es: seq<nat>, vs: seq<nat>, gs: seq<nat>)
    requires OwnFrames(m, t, free, vs, gs) && Mapping(m, t, free, m2, t2, f2, first, es, {})
    requires forall i :: 0 <= i < |vs| ==> Offset(first, vs[i]) >= |es|
    ensures OwnFrames(m2, t2, f2, vs, gs)
  {
    hide Leaf, PtePpn, BottomOf, Tree, Offset, Space;
    SpaceApart(m2, t2, f2);
    assert forall f :: f in f2 || f in t2.Values ==> f in free + t.Values;
    forall i | 0 <= i < |vs| ensures BottomOf(vs[i]) in t2 && FrameOf(m2, t2, vs[i]) == gs[i] {
      assert BottomOf(vs[i]) in t && FrameOf(m, t, vs[i]) == gs[i];
    }
    assert forall f :: f in FrameSet(gs) ==> f in m && f !in free + t.Values;
  }

  lemma SpaceApart(m: Mem, t: Tables, free: set<nat>)
    requires Space(m, t, free)
    ensures t.Values !! free
  {}

  /** No page of the list is one of n pages from first on. */
  ghost predicate ClearOf(segs: seq<Segment>, first: nat, n: nat) {
    forall s, i: nat :: 0 <= s < |segs| && i < Pages(segs[s]) ==> PageClear(segs[s], i, first, n)
  }

  ghost predicate PageClear(seg: Segment, i: nat, first: nat, n: nat) {
    Offset(first, First(seg) + i) >= n
  }

  /** With a stack apart from its listed segments, an address space can still be
      copied and means the same: this is what sys_fork copies. */
  lemma StackSource(m: Mem, t: Tables, free: set<nat>, m2: Mem, t2: Tables, f2: set<nat>,
                    first: nat, ppn: nat, n: nat, flags: nat, segs: seq<Segment>, gs: seq<nat>)
    requires Source(m, t, free, segs, gs) && ListedEntries(m, t, segs) && ClearOf(segs, first, n)
    requires Mapping(m, t, free, m2, t2, f2, first, PtesFrom(ppn, n, flags), {})
    ensures Source(m2, t2, f2, segs, gs) && ListedEntries(m2, t2, segs) && Tree(m2, t2)
  {
    hide Leaf, PtePpn, BottomOf, Tree, Offset, MakePte, PtesFrom, LinearFrame, Pages, First, SegmentOk, OwnFrames;
    var vs := FramedPages(segs);
    forall i | 0 <= i < |vs| ensures Offset(first, vs[i]) >= n {
      var s, k := FramedAt(segs, i);
      assert PageClear(segs[s], k, first, n);
    }
    StackOwn(m, t, free, m2, t2, f2, first, PtesFrom(ppn, n, flags), vs, gs);
    forall s, i: nat | 0 <= s < |segs| && i < Pages(segs[s]) ensures ListedEntry(m2, t2, segs[s], i) {
      assert ListedEntry(m, t, segs[s], i) && PageClear(segs[s], i, first, n);
    }
  }

  lemma {:induction false} PtesFromAt(ppn: nat, n: nat, flags: nat, j: nat)
    requires j < n
    ensures PtesFrom(ppn, n, flags)[j] == MakePte(ppn + j, flags)
  {
    hide MakePte;
    if j < n - 1 { PtesFromAt(ppn, n - 1, flags, j); }
  }
}
