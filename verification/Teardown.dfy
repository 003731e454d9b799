// kernel/mapping.c, lines 134-190: giving the frames of an address space back.
module Teardown {
  import opened Sequences
  import opened Bits
  import opened Pte
  import opened PageTree
  import opened PageRange
  import opened AddressSpace
  import opened PageTable

  // ---------- which frames belong to an address space ----------

  /** The page numbers first .. first + n - 1. */
  function Vpns(first: nat, n: nat): (vs: seq<nat>)
    ensures |vs| == n
  {
    if n == 0 then [] else Vpns(first, n - 1) + [first + n - 1]
  }

  lemma {:induction false} VpnsAt(first: nat, n: nat, i: nat)
    requires i < n
    ensures Vpns(first, n)[i] == first + i
  {
    if i < n - 1 { VpnsAt(first, n - 1, i); }
  }

  /** The pages of a segment that have frames of their own. */
  function OwnPages(seg: Segment): seq<nat> {
    if seg.linear then [] else Vpns(First(seg), Pages(seg))
  }

  function FramedPages(segs: seq<Segment>): seq<nat> {
    if segs == [] then [] else OwnPages(segs[0]) + FramedPages(segs[1..])
  }

  /** The frame a page is mapped to. */
  function FrameOf(m: Mem, t: Tables, v: nat): nat {
    PtePpn(Leaf(m, t, v))
  }

  function Frames(m: Mem, t: Tables, vs: seq<nat>): (fs: seq<nat>)
    ensures |fs| == |vs|
  {
    if vs == [] then [] else [FrameOf(m, t, vs[0])] + Frames(m, t, vs[1..])
  }

  /** Pages vs have bottom tables, and frames fs to themselves. */
  ghost predicate OwnFrames(m: Mem, t: Tables, free: set<nat>, vs: seq<nat>, fs: seq<nat>) {
    && |vs| == |fs|
    && (forall i :: 0 <= i < |vs| ==> BottomOf(vs[i]) in t && FrameOf(m, t, vs[i]) == fs[i])
    && Distinct(fs) && FrameSet(fs) !! t.Values && FrameSet(fs) !! free && FreeOk(m, FrameSet(fs))
  }

  // ---------- unmap_segment ----------

  lemma OwnHead(m: Mem, t: Tables, free: set<nat>, vs: seq<nat>, fs: seq<nat>)
    requires OwnFrames(m, t, free, vs, fs) && vs != []
    ensures BottomOf(vs[0]) in t && FrameOf(m, t, vs[0]) == fs[0]
    ensures fs[0] in m && fs[0] < PPN_LIMIT && fs[0] !in free && fs[0] !in t.Values
    ensures FrameSet(fs) == {fs[0]} + FrameSet(fs[1..])
  {
    assert fs[0] in FrameSet(fs);
    assert fs == [fs[0]] + fs[1..];
  }

  /** After the first frame is given back, the others are still owned. */
  lemma OwnTail(m: Mem, t: Tables, free: set<nat>, vs: seq<nat>, fs: seq<nat>, m': Mem)
    requires OwnFrames(m, t, free, vs, fs) && vs != [] && Space(m, t, free)
    requires Keeps(m, m', free + {fs[0]}) && FreeOk(m', free + {fs[0]})
    ensures OwnFrames(m', t, free + {fs[0]}, vs[1..], fs[1..]) && Space(m', t, free + {fs[0]})
  {
    hide Tree, Leaf, PtePpn, BottomOf;
    assert fs[0] in FrameSet(fs);
    TreeFrame(m, m', t, free + {fs[0]});
    var us, gs := vs[1..], fs[1..];
    forall i | 0 <= i < |us| ensures BottomOf(us[i]) in t && FrameOf(m', t, us[i]) == gs[i] {
      assert us[i] == vs[i + 1];
      assert Leaf(m', t, us[i]) == Leaf(m, t, us[i]);
    }
    forall f | f in gs ensures f in fs && f != fs[0] {
      var i :| 0 <= i < |gs| && gs[i] == f;
      assert f == fs[i + 1];
    }
  }

  /** unmap_segment: give back the frames of a segment's pages. */
  method UnmapSegment(k: Machine, root: nat, seg: Segment, ghost t: Tables, ghost fs: seq<nat>) returns (ok: bool)
    requires Space(k.mem, t, k.free) && root == t[Root]
    requires OwnFrames(k.mem, t, k.free, OwnPages(seg), fs)
    modifies k
    ensures ok && Space(k.mem, t, k.free)
    ensures k.free == old(k.free) + FrameSet(fs)
    ensures Keeps(old(k.mem), k.mem, k.free)
  {
    hide Tree, Leaf, PtePpn, BottomOf, Entry, Level, OwnFrames, Space, Keeps, FrameSet, Vpns;
    KeepsSelf(k.mem, k.free);
    NoFramesLeft(fs);
    OwnLength(k.mem, t, k.free, OwnPages(seg), fs);
    if seg.linear { return true; }
    var first, n := First(seg), Pages(seg);
    ghost var vs := Vpns(first, n);
    ghost var m0, f0 := k.mem, k.free;
    assert vs[0..] == vs && fs[0..] == fs;
    var j := 0;
    while j < n
      invariant j <= n
      invariant Space(k.mem, t, k.free) && OwnFrames(k.mem, t, k.free, vs[j..], fs[j..])
      invariant k.free + FrameSet(fs[j..]) == f0 + FrameSet(fs)
      invariant Keeps(m0, k.mem, k.free)
    {
      VpnsAt(first, n, j);
      OwnHead(k.mem, t, k.free, vs[j..], fs[j..]);
      ghost var m1, f1 := k.mem, k.free;
      var entry;
      ghost var t1;
      entry, t1 := k.FindEntry(root, first + j, false, t);
      if entry.Missing? { return false; }
      FoundLeaf(k.mem, t, k.free, first + j);
      var ppn := PtePpn(Entry(k.mem[entry.frame], entry.index));
      assert FreeOk(k.mem, k.free) by { SpaceFreeOk(k.mem, t, k.free); }
      k.DeallocFrame(ppn);
      OwnTail(m1, t, f1, vs[j..], fs[j..], k.mem);
      KeepsTrans(m0, m1, k.mem, f1, k.free);
      assert vs[j..][1..] == vs[j + 1..] && fs[j..][1..] == fs[j + 1..];
      j := j + 1;
    }
    assert fs[n..] == [];
    NoFramesLeft(fs[n..]);
    return true;
  }

  lemma KeepsSelf(m: Mem, s: set<nat>)
    ensures Keeps(m, m, s)
  {}

  lemma KeepsTrans(m: Mem, m1: Mem, m2: Mem, s1: set<nat>, s2: set<nat>)
    requires Keeps(m, m1, s1) && Keeps(m1, m2, s2) && s1 <= s2
    ensures Keeps(m, m2, s2)
  {}

  lemma SpaceFreeOk(m: Mem, t: Tables, free: set<nat>)
    requires Space(m, t, free)
    ensures FreeOk(m, free)
  {}

  lemma OwnLength(m: Mem, t: Tables, free: set<nat>, vs: seq<nat>, fs: seq<nat>)
    requires OwnFrames(m, t, free, vs, fs)
    ensures |vs| == |fs|
  {}

  lemma NoFramesLeft(fs: seq<nat>)
    ensures fs == [] ==> FrameSet(fs) == {}
  {}

  /** The entry that find_entry found is the leaf entry of the page. */
  lemma FoundLeaf(m: Mem, t: Tables, free: set<nat>, v: nat)
    requires Space(m, t, free) && BottomOf(v) in t
    ensures t[BottomOf(v)] in m && Entry(m[t[BottomOf(v)]], Level(v, 0)) == Leaf(m, t, v)
  {}

  // ---------- dealloc_pagetable ----------

  /** The test by which the code tells a pointer to a table from a leaf. */
  predicate PointsToTable(pte: nat) {
    And(pte, 1) != 0 && And(pte, 14) == 0
  }

  lemma PointsToTableBits(pte: nat)
    ensures PointsToTable(pte) <==> Bit(pte, VALID) && !Bit(pte, READ) && !Bit(pte, WRITE) && !Bit(pte, EXEC)
  {
    hide And;
    var h := pte / 2;
    var q := h / 2;
    var e := q / 2;
    AndHalves(pte, 1);
    AndHalves(pte, 14);
    AndHalves(h, 7);
    AndHalves(h, 0);
    AndHalves(q, 3);
    AndHalves(e, 1);
    AndNone(h);
    AndNone(e / 2);
    assert Bit(pte, 1) == Bit(h, 0);
    assert Bit(pte, 2) == Bit(h, 1) == Bit(q, 0);
    assert Bit(pte, 3) == Bit(h, 2) == Bit(q, 1) == Bit(e, 0);
  }

  /** m is n or a table below it. */
  predicate Under(n: Node, m: Node) {
    match n
    case Root => true
    case Mid(i) => m == n || (m.Bottom? && m.i == i)
    case Bottom(i, j) => m == n
  }

  /** m lies below one of the first k entries of n. */
  predicate UnderUpto(n: Node, k: nat, m: Node) {
    match n
    case Root => (m.Mid? || m.Bottom?) && m.i < k
    case Mid(i) => m.Bottom? && m.i == i && m.j < k
    case Bottom(i, j) => false
  }

  ghost function SubFrames(t: Tables, n: Node): set<nat> {
    set m | m in t && Under(n, m) :: t[m]
  }

  ghost function SubFramesUpto(t: Tables, n: Node, k: nat): set<nat> {
    set m | m in t && UnderUpto(n, k, m) :: t[m]
  }

  /** The entries of a table frame, by its place in the tree: pointers in the
      inner tables, and in the bottom tables nothing that looks like one. */
  ghost predicate EntryOk(m: Mem, t: Tables, n: Node, k: nat)
    requires n in t && k < ENTRIES
  {
    if n.Bottom? then !PointsToTable(Cell(m, t[n], k))
    else Cell(m, t[n], k) == if Child(n, k) in t then TablePte(t[Child(n, k)]) else 0
  }

  ghost predicate SubTree(m: Mem, t: Tables, n: Node) {
    && Injective(t) && Closed(t) && InMemory(m, t)
    && forall d, k: nat :: d in t && Under(n, d) && k < ENTRIES ==> EntryOk(m, t, d, k)
  }

  function Depth(n: Node): nat {
    if n.Root? then 2 else if n.Mid? then 1 else 0
  }

  lemma FramesStep(t: Tables, n: Node, k: nat)
    requires n in t && !n.Bottom? && Closed(t)
    ensures SubFramesUpto(t, n, k + 1) ==
      SubFramesUpto(t, n, k) + (if Child(n, k) in t then SubFrames(t, Child(n, k)) else {})
  {
    var c := Child(n, k);
    forall m | m in t ensures UnderUpto(n, k + 1, m) <==> UnderUpto(n, k, m) || Under(c, m) {}
    forall m | m in t && Under(c, m) ensures c in t {}
  }

  lemma FramesDone(m: Mem, t: Tables, n: Node)
    requires n in t && Closed(t) && InMemory(m, t) && Injective(t)
    ensures SubFrames(t, n) == SubFramesUpto(t, n, ENTRIES) + {t[n]}
    ensures forall k :: t[n] !in SubFramesUpto(t, n, k)
  {
    forall m | m in t ensures Under(n, m) <==> m == n || UnderUpto(n, ENTRIES, m) {}
  }

  lemma FramesNone(t: Tables, n: Node)
    ensures SubFramesUpto(t, n, 0) == {}
    ensures n.Bottom? ==> forall k :: SubFramesUpto(t, n, k) == {}
  {}

  /** When child k is reached, its subtree is still as it was, and none of its
      frames has been given back. */
  lemma ChildIntact(m: Mem, m': Mem, t: Tables, n: Node, k: nat, free: set<nat>)
    requires SubTree(m, t, n) && n in t && !n.Bottom? && k < ENTRIES && Child(n, k) in t
    requires SubFrames(t, n) !! free
    requires Keeps(m, m', free + SubFramesUpto(t, n, k) + {t[n]})
    ensures var c := Child(n, k); SubTree(m', t, c) && SubFrames(t, c) !! free + SubFramesUpto(t, n, k)
    ensures t[n] !in SubFrames(t, Child(n, k))
  {
    hide Entry, PointsToTable, TablePte;
    var c := Child(n, k);
    forall d | d in t && Under(c, d)
      ensures t[d] !in free + SubFramesUpto(t, n, k) + {t[n]} && Under(n, d)
    {
      assert Under(n, d);
      assert t[d] in SubFrames(t, n);
      assert d != n && !UnderUpto(n, k, d);
    }
    forall d, j: nat | d in t && Under(c, d) && j < ENTRIES ensures EntryOk(m', t, d, j) {
      assert EntryOk(m, t, d, j);
      assert m'[t[d]] == m[t[d]];
    }
  }

  /** Entry k of the frame itself is still the old one. */
  ghost predicate RestIntact(m: Mem, m': Mem, f: nat, k: nat) {
    f in m && f in m' && forall j: nat :: k <= j < ENTRIES ==> Entry(m'[f], j) == Entry(m[f], j)
  }

  /** The code's test at entry k: it recurses exactly into the child tables. */
  lemma TestEntry(m: Mem, m': Mem, t: Tables, n: Node, k: nat)
    requires SubTree(m, t, n) && n in t && k < ENTRIES && RestIntact(m, m', t[n], k)
    ensures var pte := Entry(m'[t[n]], k);
      && (n.Bottom? ==> !PointsToTable(pte))
      && (!n.Bottom? ==> (PointsToTable(pte) <==> Child(n, k) in t))
      && (!n.Bottom? && Child(n, k) in t ==> PtePpn(pte) == t[Child(n, k)])
  {
    hide Entry, PointsToTable, PtePpn, TablePte;
    var pte := Entry(m'[t[n]], k);
    assert EntryOk(m, t, n, k);
    assert pte == Cell(m, t[n], k);
    PointsToTableBits(pte);
    ZeroBits(VALID);
    if !n.Bottom? && Child(n, k) in t { TablePteBits(t[Child(n, k)]); TableTest(t[Child(n, k)]); }
  }

  lemma TableTest(f: nat)
    requires f < PPN_LIMIT
    ensures PointsToTable(TablePte(f))
  {
    hide PointsToTable;
    PointsToTableBits(TablePte(f));
    MakePteBits(f, 1, VALID);
    MakePteBits(f, 1, READ);
    MakePteBits(f, 1, WRITE);
    MakePteBits(f, 1, EXEC);
  }

  lemma TableFacts(m: Mem, t: Tables, n: Node, free: set<nat>)
    requires n in t && SubTree(m, t, n) && SubFrames(t, n) !! free
    ensures var f := t[n];
      && f in m && f < PPN_LIMIT && f !in free && Keeps(m, m, free + {f}) && RestIntact(m, m, f, 0)
      && SubFramesUpto(t, n, 0) == {} && SubFrames(t, n) == SubFramesUpto(t, n, ENTRIES) + {f}
      && forall k :: f !in SubFramesUpto(t, n, k)
  {
    hide Entry, EntryOk;
    FramesNone(t, n);
    FramesDone(m, t, n);
    assert t[n] in SubFrames(t, n);
  }

  lemma UptoStep(m: Mem, t: Tables, n: Node, k: nat)
    requires n in t && SubTree(m, t, n)
    ensures SubFramesUpto(t, n, k + 1) ==
      SubFramesUpto(t, n, k) + (if !n.Bottom? && Child(n, k) in t then SubFrames(t, Child(n, k)) else {})
  {
    hide EntryOk;
    if n.Bottom? { FramesNone(t, n); } else { FramesStep(t, n, k); }
  }

  lemma AfterChild(m: Mem, m1: Mem, m2: Mem, f: nat, i: nat, f1: set<nat>, f2: set<nat>)
    requires Keeps(m, m1, f1 + {f}) && RestIntact(m, m1, f, i)
    requires Keeps(m1, m2, f2) && f1 <= f2 && f !in f2
    ensures Keeps(m, m2, f2 + {f}) && RestIntact(m, m2, f, i)
  {}

  lemma Cleared(m: Mem, m1: Mem, f: nat, i: nat, free: set<nat>)
    requires Keeps(m, m1, free + {f}) && RestIntact(m, m1, f, i) && FreeOk(m1, free) && i < ENTRIES
    ensures var m2 := m1[f := SetEntry(m1[f], i, 0)];
      Keeps(m, m2, free + {f}) && RestIntact(m, m2, f, i + 1) && FreeOk(m2, free)
  {
    hide Entry, SetEntry;
    forall j: nat | i + 1 <= j < ENTRIES ensures Entry(SetEntry(m1[f], i, 0), j) == Entry(m[f], j) {
      EntrySet(m1[f], i, 0, j);
    }
  }

  lemma RestLess(m: Mem, m1: Mem, f: nat, i: nat)
    requires RestIntact(m, m1, f, i)
    ensures f in m1 && RestIntact(m, m1, f, i + 1)
  {}

  /** dealloc_pagetable: give back the frames of a table and of all tables below. */
  method DeallocTable(k: Machine, f: nat, ghost t: Tables, ghost n: Node)
    requires n in t && f == t[n] && SubTree(k.mem, t, n) && SubFrames(t, n) !! k.free && FreeOk(k.mem, k.free)
    modifies k
    ensures FreeOk(k.mem, k.free) && k.free == old(k.free) + SubFrames(t, n)
    ensures Keeps(old(k.mem), k.mem, k.free)
    decreases Depth(n)
  {
    hide SubTree, SubFrames, SubFramesUpto, Entry, SetEntry, PointsToTable, PtePpn, FreeOk, RestIntact, Keeps;
    ghost var m, free := k.mem, k.free;
    TableFacts(m, t, n, free);
    for i := 0 to ENTRIES
      invariant FreeOk(k.mem, k.free) && k.free == free + SubFramesUpto(t, n, i)
      invariant Keeps(m, k.mem, k.free + {f}) && RestIntact(m, k.mem, f, i)
    {
      TestEntry(m, k.mem, t, n, i);
      RestLess(m, k.mem, f, i);
      UptoStep(m, t, n, i);
      var pte := Entry(k.mem[f], i);
      if PointsToTable(pte) {
        ghost var m1, f1 := k.mem, k.free;
        ChildIntact(m, m1, t, n, i, free);
        DeallocTable(k, PtePpn(pte), t, Child(n, i));
        AfterChild(m, m1, k.mem, f, i, f1, k.free);
        RestLess(m, k.mem, f, i);
        Cleared(m, k.mem, f, i, k.free);
        k.mem := k.mem[f := SetEntry(k.mem[f], i, 0)];
      }
    }
    RestLess(m, k.mem, f, ENTRIES);
    ghost var m3 := k.mem;
    k.DeallocFrame(f);
    KeepsTrans(m, m3, k.mem, k.free, k.free);
  }

  // ---------- dealloc_memory_map ----------

  /** struct MemoryMap; its segment list as the sequence of segments on it. */
  class MemoryMap {
    var root: nat
    var segments: seq<Segment>

    constructor (root: nat)
      ensures this.root == root && segments == []
    {
      this.root := root;
      segments := [];
    }
  }

  /** No page's entry could be taken for a pointer to a table.  Entries with a
      valid flag set must therefore be readable, writable or executable. */
  ghost predicate LeavesOnly(m: Mem, t: Tables) {
    forall v: nat :: !PointsToTable(Leaf(m, t, v))
  }

  lemma LeavesOnlyEntry(m: Mem, t: Tables, d: Node, k: nat)
    requires LeavesOnly(m, t) && Tree(m, t) && d in t && d.Bottom? && k < ENTRIES
    ensures !PointsToTable(Cell(m, t[d], k))
  {
    hide Entry, PointsToTable, Level;
    var v := VpnAt(d.i, d.j, k);
    VpnAtLevels(d.i, d.j, k);
    assert Leaf(m, t, v) == Cell(m, t[d], k);
  }

  lemma WholeTree(m: Mem, t: Tables)
    requires Tree(m, t) && LeavesOnly(m, t)
    ensures SubTree(m, t, Root) && SubFrames(t, Root) == t.Values
  {
    hide Entry, PointsToTable, LeavesOnly, TablePte;
    forall d, k: nat | d in t && k < ENTRIES ensures EntryOk(m, t, d, k) {
      if d.Bottom? { LeavesOnlyEntry(m, t, d, k); }
    }
  }

  lemma OwnSplit(m: Mem, t: Tables, free: set<nat>, us: seq<nat>, ws: seq<nat>, fs: seq<nat>)
    requires OwnFrames(m, t, free, us + ws, fs)
    ensures |fs| == |us| + |ws| && OwnFrames(m, t, free, us, fs[..|us|])
    ensures FrameSet(fs) == FrameSet(fs[..|us|]) + FrameSet(fs[|us|..])
  {
    hide FrameOf, BottomOf;
    var vs := us + ws;
    var gs := fs[..|us|];
    assert fs == gs + fs[|us|..];
    assert forall f :: f in FrameSet(gs) ==> f in FrameSet(fs);
    forall i | 0 <= i < |us| ensures BottomOf(us[i]) in t && FrameOf(m, t, us[i]) == gs[i] { assert us[i] == vs[i]; }
  }

  lemma OwnRest(m: Mem, t: Tables, free: set<nat>, us: seq<nat>, ws: seq<nat>, fs: seq<nat>, m': Mem, free': set<nat>)
    requires OwnFrames(m, t, free, us + ws, fs) && Space(m, t, free)
    requires |fs| == |us| + |ws| && free' == free + FrameSet(fs[..|us|]) && Keeps(m, m', free')
    ensures OwnFrames(m', t, free', ws, fs[|us|..]) && SameLeaves(m, t, m', t)
  {
    hide Tree, Leaf, PtePpn, BottomOf;
    var vs := us + ws;
    var gs := fs[|us|..];
    assert forall f :: f in FrameSet(fs[..|us|]) ==> f in FrameSet(fs);
    TreeFrame(m, m', t, free');
    forall i | 0 <= i < |ws| ensures BottomOf(ws[i]) in t && FrameOf(m', t, ws[i]) == gs[i] {
      assert ws[i] == vs[|us| + i] && gs[i] == fs[|us| + i];
      assert Leaf(m', t, ws[i]) == Leaf(m, t, ws[i]);
    }
    forall f | f in FrameSet(gs) ensures f in FrameSet(fs) && f !in FrameSet(fs[..|us|]) {
      var i :| 0 <= i < |gs| && gs[i] == f;
      assert f == fs[|us| + i];
    }
    assert FreeOk(m', FrameSet(gs));
    assert FrameSet(gs) !! free';
  }

  lemma LeavesOnlySame(m: Mem, t: Tables, m': Mem)
    requires LeavesOnly(m, t) && SameLeaves(m, t, m', t)
    ensures LeavesOnly(m', t)
  {
    hide PointsToTable, Leaf;
    forall v: nat ensures !PointsToTable(Leaf(m', t, v)) { assert Leaf(m', t, v) == Leaf(m, t, v); }
  }

  /** dealloc_memory_map: the frames given back are exactly those of the pages of
      the framed segments and those of the tables.  Each is given back once, as
      DeallocFrame does not accept a free frame. */
  method DeallocMemoryMap(k: Machine, mm: MemoryMap, ghost t: Tables, ghost fs: seq<nat>) returns (ok: bool)
    requires Space(k.mem, t, k.free) && mm.root == t[Root] && LeavesOnly(k.mem, t)
    requires OwnFrames(k.mem, t, k.free, FramedPages(mm.segments), fs)
    modifies k, mm
    ensures ok && mm.segments == []
    ensures k.free == old(k.free) + FrameSet(fs) + t.Values
    ensures FreeOk(k.mem, k.free) && Keeps(old(k.mem), k.mem, k.free)
  {
    hide Tree, Leaf, OwnFrames, Space, Keeps, FrameSet, LeavesOnly, SubTree, SubFrames, FreeOk, OwnPages;
    ghost var m, free := k.mem, k.free;
    ghost var rest := fs;
    KeepsSelf(m, free);
    SpaceParts(m, t, free);
    while mm.segments != []
      invariant Root in t && mm.root == t[Root]
      invariant Space(k.mem, t, k.free) && LeavesOnly(k.mem, t)
      invariant OwnFrames(k.mem, t, k.free, FramedPages(mm.segments), rest)
      invariant k.free + FrameSet(rest) == free + FrameSet(fs)
      invariant Keeps(m, k.mem, k.free)
      decreases |mm.segments|
    {
      var seg := mm.segments[0];
      ghost var m1, f1 := k.mem, k.free;
      ghost var us, ws := OwnPages(seg), FramedPages(mm.segments[1..]);
      OwnSplit(m1, t, f1, us, ws, rest);
      mm.segments := mm.segments[1..];
      ok := UnmapSegment(k, mm.root, seg, t, rest[..|us|]);
      OwnRest(m1, t, f1, us, ws, rest, k.mem, k.free);
      LeavesOnlySame(m1, t, k.mem);
      KeepsTrans(m, m1, k.mem, f1, k.free);
      rest := rest[|us|..];
    }
    OwnLength(k.mem, t, k.free, [], rest);
    NoFramesLeft(rest);
    SpaceParts(k.mem, t, k.free);
    WholeTree(k.mem, t);
    ghost var m2, f2 := k.mem, k.free;
    DeallocTable(k, mm.root, t, Root);
    KeepsTrans(m, m2, k.mem, f2, k.free);
    ok := true;
  }

  lemma SpaceParts(m: Mem, t: Tables, free: set<nat>)
    requires Space(m, t, free)
    ensures Tree(m, t) && Root in t && t.Values !! free && FreeOk(m, free)
  {}
}
