// kernel/mapping.c, lines 37-126: looking up entries and mapping pages in
// physical memory.
module PageTable {
  import opened Sequences
  import opened Options
  import opened Bits
  import opened Bytes
  import opened Pte
  import opened PageTree
  import opened PageRange
  import opened AddressSpace
  import opened FrameBudget
  import opened Translation

  datatype Find = Found(frame: nat, index: nat) | Missing | NoFrames

  class Machine {
    var mem: Mem         // every page frame of the machine
    var free: set<nat>   // the frames the frame allocator can hand out

    /** alloc_frame, with the contract that Memory.AllocFrame fulfils */
    method AllocFrame() returns (r: Option<nat>)
      requires FreeOk(mem, free)
      modifies this
      ensures FrameTaken(old(mem), old(free), mem, free, r)
    {
      if free == {} { return None; }
      var f :| f in free;
      free := free - {f};
      mem := mem[f := ZeroPage()];
      r := Some(f);
    }

    /** dealloc_frame, with the contract that Memory.DeallocFrame fulfils */
    method DeallocFrame(f: nat)
      requires FreeOk(mem, free) && f in mem && f < PPN_LIMIT && f !in free
      modifies this
      ensures FrameGiven(old(mem), old(free), mem, free, f)
    {
      free := free + {f};
    }

    /** The table behind entry k of a table frame, created if asked for. */
    method NextTable(frame: nat, k: nat, create: bool, ghost t: Tables, ghost n: Node) returns (r: Option<nat>,
                     ghost t': Tables)
      requires Space(mem, t, free) && n in t && !n.Bottom? && k < ENTRIES && frame == t[n]
      modifies this
      ensures Grown(old(mem), t, old(free), mem, t', free)
      ensures r.Some? ==> Child(n, k) in t' && r.value == t'[Child(n, k)]
      ensures r.None? ==> Child(n, k) !in t && free == old(free) && t' == t && (!create || free == {})
      ensures t' == t || t'.Keys == t.Keys + {Child(n, k)}
      ensures !create ==> mem == old(mem) && free == old(free) && t' == t
    {
      hide Leaf, MakePte, PtePpn, Entry, SetEntry, Keeps, SameLeaves, FreeOk, ZeroPage, Tree, Grown;
      ghost var m := mem;
      ghost var fr := free;
      TreeMemory(mem, t);
      ChildPointer(mem, t, n, k);
      GrownSelf(mem, t, free);
      t' := t;
      if Entry(mem[frame], k) == 0 {
        if !create { return None, t; }
        var f := AllocFrame();
        if f.None? { return None, t; }
        GrownTable(m, t, fr, mem, n, k, f.value);
        var pte := TablePte(f.value);
        mem := mem[frame := SetEntry(mem[frame], k, pte)];
        t' := t[Child(n, k) := f.value];
        r := Some(f.value);
        return;
      }
      r := Some(PtePpn(Entry(mem[frame], k)));
    }

    /** find_entry: where the entry of a page number is kept. */
    method FindEntry(root: nat, vpn: nat, create: bool, ghost t: Tables) returns (r: Find, ghost t': Tables)
      requires Space(mem, t, free) && root == t[Root]
      modifies this
      ensures Grown(old(mem), t, old(free), mem, t', free)
      ensures r.Found? ==> BottomOf(vpn) in t' && r.frame == t'[BottomOf(vpn)] && r.index == Level(vpn, 0)
      ensures r.Missing? <==> !create && BottomOf(vpn) !in t
      ensures r.NoFrames? ==> create && free == {}
      ensures create ==> Added(t, t', vpn, r.Found?)
      ensures !create ==> mem == old(mem) && free == old(free) && t' == t
    {
      hide Leaf, Keeps, SameLeaves, FreeOk, Tree, Level, Grown;
      ghost var m := mem;
      ghost var fr := free;
      GrownSelf(mem, t, free);
      SpaceClosed(mem, t, free, Level(vpn, 2), Level(vpn, 1));
      t' := t;
      ghost var n := Root;
      var frame, index := root, Level(vpn, 2);
      var i := 1;
      while i >= 0
        invariant -1 <= i <= 1
        invariant Grown(m, t, fr, mem, t', free) && Space(mem, t', free)
        invariant !create ==> mem == m && free == fr && t' == t
        invariant n == if i == 1 then Root else if i == 0 then Mid(Level(vpn, 2)) else BottomOf(vpn)
        invariant n in t' && frame == t'[n] && index == Level(vpn, i + 1)
        invariant t'.Keys <= t.Keys + Path(vpn)
      {
        ghost var t0, m0, f0 := t', mem, free;
        var next;
        next, t' := NextTable(frame, index, create, t0, n);
        GrownTrans(m, t, fr, m0, t0, f0, mem, t', free);
        GrownSpace(m, t, fr, mem, t', free);
        if next.None? {
          NoBottom(mem, t', free, vpn, n, i);
          return if create then NoFrames else Missing, t';
        }
        frame, index := next.value, Level(vpn, i);
        n := Child(n, Level(vpn, i + 1));
        i := i - 1;
      }
      GrownSpace(m, t, fr, mem, t', free);
      SpaceClosed(mem, t', free, Level(vpn, 2), Level(vpn, 1));
      r := Found(frame, index);
    }

    /** map_pages: consecutive pages to consecutive frames. */
    method MapPages(root: nat, start: nat, startPa: nat, size: nat, flags: nat, ghost t: Tables) returns (ok: bool,
                    ghost t': Tables)
      requires Space(mem, t, free) && root == t[Root] && flags < WORD
      requires PageCount(start, (start + size) % WORD) <= KEYS
      modifies this
      ensures var n := PageCount(start, (start + size) % WORD);
        ok ==> Mapping(old(mem), t, old(free), mem, t', free, FirstVpn(start),
                       PtesFrom(startPa / PAGE_SIZE, n, flags), {})
      ensures !ok ==> free == {}
      ensures var need := Need(t, FirstVpn(start), PageCount(start, (start + size) % WORD), 0);
        if ok then |old(free)| == |free| + need else |old(free)| < need
    {
      hide Space, Mapping, Tree, Leaf, Key, MakePte, Level, SetEntry, FreeOk, PageCount, Need, Reached, Added, Within,
        BottomOf;
      ghost var m := mem;
      ghost var fr := free;
      var first, ppn := FirstVpn(start), startPa / PAGE_SIZE;
      var n := PageCount(start, (start + size) % WORD);
      MappingStart(mem, t, free, first);
      PtesFromNone(ppn, flags);
      ReachNone(t, first);
      t' := t;
      var j := 0;
      while j < n
        invariant j <= n && Reached(t, t', first, j)
        invariant Mapping(m, t, fr, mem, t', free, first, PtesFrom(ppn, j, flags), {})
      {
        MappingSpace(m, t, fr, mem, t', free, first, PtesFrom(ppn, j, flags), {});
        ghost var m1, t1, f1 := mem, t', free;
        var entry;
        entry, t' := FindEntry(root, first + j, true, t1);
        MappingGrow(m, t, fr, m1, t1, f1, mem, t', free, first, PtesFrom(ppn, j, flags), {});
        ReachMore(t, t1, t', first, j, entry.Found?);
        if !entry.Found? {
          TooFew(m, t, fr, mem, t', first, PtesFrom(ppn, j, flags), {}, j, n, 0);
          return false, t';
        }
        MakePteWord(ppn + j, flags);
        MappingStore(m, t, fr, mem, t', free, first, PtesFrom(ppn, j, flags), {}, MakePte(ppn + j, flags));
        PtesFromSnoc(ppn, j, flags);
        mem := mem[entry.frame := SetEntry(mem[entry.frame], entry.index, MakePte(ppn + j, flags))];
        j := j + 1;
      }
      Spent(m, t, fr, mem, t', free, first, PtesFrom(ppn, n, flags), {}, n);
      ok := true;
    }

    /** The loop that copies bytes to the start of a frame. */
    method CopyIn(f: nat, bytes: seq<byte>)
      requires f in mem && |bytes| <= PAGE_SIZE
      modifies this`mem
      ensures f in mem && mem == old(mem)[f := Overlay(old(mem)[f], bytes)]
    {
      hide Overlay;
      ghost var m := mem;
      OverlayNone(m[f], bytes);
      for i := 0 to |bytes|
        invariant f in mem && mem == m[f := Overlay(m[f], bytes[..i])]
      {
        OverlaySnoc(m[f], bytes, i);
        mem := mem[f := mem[f][i := bytes[i]]];
      }
      assert bytes[..|bytes|] == bytes;
    }

    /** The frame that backs a page: its linear frame, or a fresh zeroed one. */
    method PageFrame(vpn: nat, linear: bool, ghost t: Tables, ghost m: Mem, ghost fr: set<nat>,
                     ghost t0: Tables, ghost first: nat, ghost es: seq<nat>, ghost used: set<nat>)
      returns (r: Option<nat>)
      requires Mapping(m, t0, fr, mem, t, free, first, es, used)
      modifies this
      ensures r.None? ==> free == {} && Mapping(m, t0, fr, mem, t, free, first, es, used)
      ensures linear ==> r == Some(LinearFrame(vpn)) && mem == old(mem) && free == old(free)
      ensures r.Some? && !linear ==> r.value in old(free) && r.value !in used && Backed(mem, r.value, ZeroPage())
      ensures r.Some? ==> Mapping(m, t0, fr, mem, t, free, first, es, if linear then used else used + {r.value})
      ensures Unmoved(old(mem), mem, used)
    {
      hide Space, Tree, Leaf, Key, ZeroPage, MapsTo, FreeOk, Mapping;
      MappingUsed(m, t0, fr, mem, t, free, first, es, used);
      if linear { return Some(LinearFrame(vpn)); }
      MappingSpace(m, t0, fr, mem, t, free, first, es, used);
      ghost var m1, f1 := mem, free;
      r := AllocFrame();
      if r.None? { return; }
      MappingTake(m, t0, fr, m1, t, f1, mem, r.value, first, es, used);
      MappingUsed(m, t0, fr, mem, t, free, first, es, used + {r.value});
    }

    /** One round of the loop of map_segment. */
    method MapOne(root: nat, vpn: nat, flags: nat, linear: bool, piece: Option<seq<byte>>, ghost t: Tables,
                  ghost m: Mem, ghost fr: set<nat>, ghost t0: Tables, ghost first: nat, ghost es: seq<nat>,
                  ghost used: set<nat>)
      returns (r: MapResult, ghost f: nat, ghost t': Tables)
      requires Mapping(m, t0, fr, mem, t, free, first, es, used)
      requires root == t0[Root] && vpn == first + |es| && |es| < KEYS && flags < WORD
      requires piece.Some? ==> !linear && |piece.value| <= PAGE_SIZE
      modifies this
      ensures r.OutOfFrames? ==> free == {} && Mapping(m, t0, fr, mem, t', free, first, es, used)
      ensures r.OutOfFrames? ==> Added(t, t', vpn, false) || (!linear && Added(t, t', vpn, true))
      ensures r.Done? ==> Added(t, t', vpn, true)
      ensures r.AlreadyMapped? ==> Leaf(m, t0, vpn) != 0
      ensures r.Done? ==>
        && Leaf(m, t0, vpn) == 0
        && Mapping(m, t0, fr, mem, t', free, first, es + [MakePte(f, flags)], if linear then used else used + {f})
        && (linear ==> f == LinearFrame(vpn))
        && (linear && Covered(vpn) ==> PAGE_SIZE * f + KERNEL_MAP_OFFSET == PAGE_SIZE * vpn)
        && (!linear ==> f !in used && Backed(mem, f, Overlay(ZeroPage(), if piece.None? then [] else piece.value)))
        && Unmoved(old(mem), mem, used)
    {
      hide Space, Tree, Leaf, Key, ZeroPage, Overlay, MapsTo, FreeOk, Mapping, Level, Entry, SetEntry, MakePte,
        LinearFrame, Grown, Added, Covered;
      if Covered(vpn) { LinearAddress(vpn); }
      MappingSpace(m, t0, fr, mem, t, free, first, es, used);
      MappingUsed(m, t0, fr, mem, t, free, first, es, used);
      ghost var m1, f1 := mem, free;
      var entry;
      entry, t' := FindEntry(root, vpn, true, t);
      f := 0;
      MappingGrow(m, t0, fr, m1, t, f1, mem, t', free, first, es, used);
      if !entry.Found? { return OutOfFrames, f, t'; }
      MappingUsed(m, t0, fr, mem, t', free, first, es, used);
      MappingAhead(m, t0, fr, mem, t', free, first, es, used);
      if Entry(mem[entry.frame], entry.index) != 0 { return AlreadyMapped, f, t'; }
      ghost var m2 := mem;
      var frame := PageFrame(vpn, linear, t', m, fr, t0, first, es, used);
      if frame.None? { return OutOfFrames, f, t'; }
      f := frame.value;
      ghost var used' := if linear then used else used + {f};
      MakePteWord(f, flags);
      MappingStore(m, t0, fr, mem, t', free, first, es, used', MakePte(f, flags));
      mem := mem[entry.frame := SetEntry(mem[entry.frame], entry.index, MakePte(frame.value, flags))];
      OverlayNothing(ZeroPage());
      if piece.Some? {
        MappingUsed(m, t0, fr, mem, t', free, first, es + [MakePte(f, flags)], used');
        ghost var m3 := mem;
        CopyIn(frame.value, piece.value);
        MappingWrite(m, t0, fr, m3, t', free, mem, f, first, es + [MakePte(f, flags)], used');
      }
      MappingUsed(m, t0, fr, mem, t', free, first, es + [MakePte(f, flags)], used');
      r := Done;
    }

    /** One round of the loop of map_segment, with the data that is due */
    method MapRound(root: nat, seg: Segment, data: Option<seq<byte>>, pos: nat, size: nat, j: nat, ghost len: nat,
                    ghost m: Mem, ghost fr: set<nat>, ghost t: Tables, ghost t1: Tables, ghost fs: seq<nat>)
      returns (r: MapResult, ghost f: nat, ghost t': Tables)
      requires Space(m, t, fr) && root == t[Root] && seg.flags < WORD && |fs| == j < Pages(seg) <= KEYS
      requires data.Some? ==> !seg.linear && len <= |data.value|
      requires data.Some? ==> pos == Copied(j, len) <= len
      requires data.Some? ==> size == if len - pos >= PAGE_SIZE then PAGE_SIZE else len - pos
      requires Reached(t, t1, First(seg), j) && FramesOk(mem, seg, fs, data, len)
      requires Mapping(m, t, fr, mem, t1, free, First(seg), Ptes(fs, seg.flags), DataFrames(seg, fs))
      modifies this
      ensures r.OutOfFrames? ==> free == {} && |fr| < SegmentNeed(t, seg)
      ensures r.AlreadyMapped? ==> PageMapped(m, t, First(seg), j)
      ensures r.Done? ==> !PageMapped(m, t, First(seg), j) && FramesOk(mem, seg, fs + [f], data, len)
      ensures r.Done? ==> Reached(t, t', First(seg), j + 1)
      ensures r.Done? ==>
        Mapping(m, t, fr, mem, t', free, First(seg), Ptes(fs + [f], seg.flags), DataFrames(seg, fs + [f]))
    {
      hide Space, Tree, Leaf, Mapping, Pages, FramesOk, Ptes, PageData, Overlay, DataFrames, ZeroPage, Need, Reached,
        Added, Within, BottomOf, LinearFrame, Backed, Unmoved, MakePte, SegmentNeed, First, DataPage;
      var piece := if data.None? then None else Some(data.value[pos..pos + size]);
      ghost var m1 := mem;
      r, f, t' := MapOne(root, First(seg) + j, seg.flags, seg.linear, piece, t1, m, fr, t, First(seg),
                         Ptes(fs, seg.flags), DataFrames(seg, fs));
      if r.OutOfFrames? {
        OwnCount(m1, seg, fs, data, len);
        SegmentShort(m, t, fr, mem, t1, t', seg, fs, j);
      }
      if !r.Done? { return; }
      ReachMore(t, t1, t', First(seg), j, true);
      RoundDone(m1, mem, seg, fs, f, data, len, pos, size, piece);
    }

    /** map_segment: every page of the segment gets its linear frame, or a fresh
        frame with its share of the data.  If no page is mapped already, it is done
        exactly when there are enough free frames. */
    method MapSegment(root: nat, seg: Segment, data: Option<seq<byte>>, len: nat, ghost t: Tables)
      returns (r: MapResult, ghost fs: seq<nat>, ghost t': Tables)
      requires Space(mem, t, free) && root == t[Root] && seg.flags < WORD && Pages(seg) <= KEYS
      requires data.Some? ==> !seg.linear && len <= |data.value|
      modifies this
      ensures r.OutOfFrames? ==> free == {} && |old(free)| < SegmentNeed(t, seg)
      ensures r.Done? ==> |old(free)| == |free| + SegmentNeed(t, seg) && Reached(t, t', First(seg), Pages(seg))
      ensures r.AlreadyMapped? ==> exists i: nat :: i < Pages(seg) && PageMapped(old(mem), t, First(seg), i)
      ensures r.Done? ==>
        && Unmapped(old(mem), t, First(seg), Pages(seg)) && |fs| == Pages(seg)
        && Mapping(old(mem), t, old(free), mem, t', free, First(seg), Ptes(fs, seg.flags), DataFrames(seg, fs))
        && FramesOk(mem, seg, fs, data, len)
      ensures r.Done? ==> LinearSegment(mem, root, seg)
    {
      hide Space, Tree, Leaf, Mapping, Pages, FramesOk, Ptes, DataFrames, Reached, SegmentNeed, PageMapped, First,
        LinearSegment;
      ghost var m, fr := mem, free;
      r, fs, t' := MapEach(root, seg, data, len, t);
      if r.Done? { LinearMapped(m, t, fr, mem, t', free, seg, fs, data, len); }
    }

    /** The loop of map_segment */
    method MapEach(root: nat, seg: Segment, data: Option<seq<byte>>, len: nat, ghost t: Tables)
      returns (r: MapResult, ghost fs: seq<nat>, ghost t': Tables)
      requires Space(mem, t, free) && root == t[Root] && seg.flags < WORD && Pages(seg) <= KEYS
      requires data.Some? ==> !seg.linear && len <= |data.value|
      modifies this
      ensures r.OutOfFrames? ==> free == {} && |old(free)| < SegmentNeed(t, seg)
      ensures r.Done? ==> |old(free)| == |free| + SegmentNeed(t, seg) && Reached(t, t', First(seg), Pages(seg))
      ensures r.AlreadyMapped? ==> exists i: nat :: i < Pages(seg) && PageMapped(old(mem), t, First(seg), i)
      ensures r.Done? ==>
        && Unmapped(old(mem), t, First(seg), Pages(seg)) && |fs| == Pages(seg)
        && Mapping(old(mem), t, old(free), mem, t', free, First(seg), Ptes(fs, seg.flags), DataFrames(seg, fs))
        && FramesOk(mem, seg, fs, data, len)
    {
      hide Space, Tree, Leaf, Mapping, Pages, FramesOk, Ptes, DataFrames, Need, Reached, SegmentNeed, PageMapped, First,
        Copied, Unmapped;
      ghost var m, fr := mem, free;
      var n := Pages(seg);
      MappingStart(mem, t, free, First(seg));
      NoFramesOk(mem, seg, data, len);
      ReachNone(t, First(seg));
      UnmappedNone(m, t, First(seg));
      CopiedNone(len);
      fs, t' := [], t;
      var pos: nat, rest: nat := 0, len;
      var j := 0;
      while j < n
        invariant j <= n && |fs| == j && Unmapped(m, t, First(seg), j) && Reached(t, t', First(seg), j)
        invariant Mapping(m, t, fr, mem, t', free, First(seg), Ptes(fs, seg.flags), DataFrames(seg, fs))
        invariant FramesOk(mem, seg, fs, data, len)
        invariant pos + rest == len && (data.Some? ==> pos == Copied(j, len))
      {
        var size: nat := if rest >= PAGE_SIZE then PAGE_SIZE else rest;
        ghost var f;
        r, f, t' := MapRound(root, seg, data, pos, size, j, len, m, fr, t, t', fs);
        if !r.Done? { return; }
        fs := fs + [f];
        UnmappedMore(m, t, First(seg), j);
        CopiedNext(j, len);
        if data.Some? { pos, rest := pos + size, rest - size; }
        j := j + 1;
      }
      OwnCount(mem, seg, fs, data, len);
      Spent(m, t, fr, mem, t', free, First(seg), Ptes(fs, seg.flags), DataFrames(seg, fs), n);
      SegmentNeedIs(t, seg);
      r := Done;
    }
  }

  /** The bottom table is missing if a table on the way to it is. */
  lemma NoBottom(m: Mem, t: Tables, free: set<nat>, vpn: nat, n: Node, i: int)
    requires Space(m, t, free) && 0 <= i <= 1 && n == (if i == 1 then Root else Mid(Level(vpn, 2)))
    requires Child(n, Level(vpn, i + 1)) !in t
    ensures BottomOf(vpn) !in t
  {
    hide Level;
    SpaceClosed(m, t, free, Level(vpn, 2), Level(vpn, 1));
  }

  /** The frames that mapping a segment takes */
  ghost function SegmentNeed(t: Tables, seg: Segment): nat {
    Need(t, First(seg), Pages(seg), if seg.linear then 0 else Pages(seg))
  }

  /** Three frames a page are always enough. */
  lemma SegmentNeedAtMost(t: Tables, seg: Segment)
    ensures SegmentNeed(t, seg) <= 3 * Pages(seg)
  {
    hide Need, First, Pages;
    NeedAtMost(t, First(seg), Pages(seg), if seg.linear then 0 else Pages(seg));
  }

  lemma SegmentNeedIs(t: Tables, seg: Segment)
    ensures SegmentNeed(t, seg) == Need(t, First(seg), Pages(seg), if seg.linear then 0 else Pages(seg))
  {}

  /** As many data frames as pages, if they are the segment's own */
  lemma OwnCount(m: Mem, seg: Segment, fs: seq<nat>, data: Option<seq<byte>>, len: nat)
    requires data.Some? ==> len <= |data.value|
    requires FramesOk(m, seg, fs, data, len)
    ensures |DataFrames(seg, fs)| == if seg.linear then 0 else |fs|
  {
    hide PageData, LinearFrame, First;
    if !seg.linear { DistinctCard(fs); }
  }

  lemma {:induction false} DistinctCard(fs: seq<nat>)
    requires Distinct(fs)
    ensures |FrameSet(fs)| == |fs|
  {
    if fs != [] {
      assert FrameSet(fs) == {fs[0]} + FrameSet(fs[1..]);
      assert fs[0] !in FrameSet(fs[1..]);
      DistinctCard(fs[1..]);
    }
  }

  /** Without frames at page j, there were too few for the segment. */
  lemma SegmentShort(m: Mem, t: Tables, free: set<nat>, m': Mem, t1: Tables, t': Tables, seg: Segment, fs: seq<nat>,
                     j: nat)
    requires Space(m, t, free) && |fs| == j < Pages(seg) && |DataFrames(seg, fs)| == if seg.linear then 0 else j
    requires Mapping(m, t, free, m', t', {}, First(seg), Ptes(fs, seg.flags), DataFrames(seg, fs))
    requires Reached(t, t1, First(seg), j)
    requires Added(t1, t', First(seg) + j, false) || (!seg.linear && Added(t1, t', First(seg) + j, true))
    ensures |free| < SegmentNeed(t, seg)
  {
    hide Space, Mapping, Need, Reached, Added, Within, DataFrames, Ptes, First, Pages, BottomOf, Level;
    var first := First(seg);
    var own := if seg.linear then 0 else Pages(seg);
    if Added(t1, t', first + j, false) {
      ReachMore(t, t1, t', first, j, false);
    } else {
      ReachMore(t, t1, t', first, j, true);
      ReachWithin(t, t', first, j + 1);
    }
    TooFew(m, t, free, m', t', first, Ptes(fs, seg.flags), DataFrames(seg, fs), j, Pages(seg), own);
  }

  /** A segment of an address space; linear, or backed by frames of its own. */
  datatype Segment = Segment(start: nat, end: nat, flags: nat, linear: bool)

  function First(seg: Segment): nat {
    FirstVpn(seg.start)
  }

  function Pages(seg: Segment): nat {
    PageCount(seg.start, seg.end)
  }

  /** Page i of a range has an entry. */
  ghost predicate PageMapped(m: Mem, t: Tables, first: nat, i: nat) {
    Leaf(m, t, first + i) != 0
  }

  ghost predicate Unmapped(m: Mem, t: Tables, first: nat, n: nat) {
    forall i: nat :: i < n ==> !PageMapped(m, t, first, i)
  }

  lemma UnmappedNone(m: Mem, t: Tables, first: nat)
    ensures Unmapped(m, t, first, 0)
  {}

  lemma UnmappedMore(m: Mem, t: Tables, first: nat, j: nat)
    requires Unmapped(m, t, first, j) && !PageMapped(m, t, first, j)
    ensures Unmapped(m, t, first, j + 1)
  {
    hide PageMapped;
  }

  /** The frames that belong to the segment itself. */
  ghost function DataFrames(seg: Segment, fs: seq<nat>): set<nat> {
    if seg.linear then {} else FrameSet(fs)
  }

  /** Page i of len bytes of data, padded with zeros. */
  function DataPage(data: seq<byte>, len: nat, i: nat): Page
    requires len <= |data|
  {
    seq(PAGE_SIZE, (k: nat) requires k < PAGE_SIZE => if PAGE_SIZE * i + k < len then data[PAGE_SIZE * i + k] else 0)
  }

  function PageData(data: Option<seq<byte>>, len: nat, i: nat): Page
    requires data.Some? ==> len <= |data.value|
  {
    if data.None? then ZeroPage() else DataPage(data.value, len, i)
  }

  /** Frames fs back the first pages of the segment. */
  ghost predicate FramesOk(m: Mem, seg: Segment, fs: seq<nat>, data: Option<seq<byte>>, len: nat)
    requires data.Some? ==> len <= |data.value|
  {
    if seg.linear then forall i: nat :: i < |fs| ==> fs[i] == LinearFrame(First(seg) + i)
    else Distinct(fs) && forall i: nat :: i < |fs| ==> Backed(m, fs[i], PageData(data, len, i))
  }

  lemma NoFramesOk(m: Mem, seg: Segment, data: Option<seq<byte>>, len: nat)
    requires data.Some? ==> len <= |data.value|
    ensures FramesOk(m, seg, [], data, len) && DataFrames(seg, []) == {} && Ptes([], seg.flags) == []
  {}

  lemma PageDataIs(data: Option<seq<byte>>, len: nat, i: nat)
    requires data.Some? ==> len <= |data.value|
    ensures PageData(data, len, i) == if data.None? then ZeroPage() else DataPage(data.value, len, i)
  {}

  lemma OverlayNothing(p: Page)
    ensures Overlay(p, []) == p
  {}

  /** How many bytes have been copied when j pages are filled */
  function Copied(j: nat, len: nat): nat {
    if PAGE_SIZE * j < len then PAGE_SIZE * j else len
  }

  lemma CopiedNone(len: nat)
    ensures Copied(0, len) == 0
  {}

  lemma CopiedNext(j: nat, len: nat)
    ensures Copied(j, len) <= len
    ensures var rest := len - Copied(j, len);
      Copied(j + 1, len) == Copied(j, len) + if rest >= PAGE_SIZE then PAGE_SIZE else rest
  {}

  lemma PieceIsPage(data: seq<byte>, len: nat, i: nat, pos: nat, size: nat)
    requires len <= |data| && pos == (if PAGE_SIZE * i < len then PAGE_SIZE * i else len)
    requires size == if len - pos >= PAGE_SIZE then PAGE_SIZE else len - pos
    ensures Overlay(ZeroPage(), data[pos..pos + size]) == DataPage(data, len, i)
  {}

  lemma OneMoreFrame(m: Mem, m': Mem, seg: Segment, fs: seq<nat>, f: nat, data: Option<seq<byte>>, len: nat)
    requires data.Some? ==> len <= |data.value|
    requires FramesOk(m, seg, fs, data, len) && Unmoved(m, m', DataFrames(seg, fs))
    requires seg.linear ==> f == LinearFrame(First(seg) + |fs|)
    requires !seg.linear ==> f !in DataFrames(seg, fs) && Backed(m', f, PageData(data, len, |fs|))
    ensures FramesOk(m', seg, fs + [f], data, len)
    ensures DataFrames(seg, fs + [f]) == if seg.linear then DataFrames(seg, fs) else DataFrames(seg, fs) + {f}
  {
    hide PageData, LinearFrame, ZeroPage;
    if !seg.linear {
      assert forall i: nat :: i < |fs| ==> fs[i] in FrameSet(fs);
      assert forall i: nat :: i < |fs| ==> Backed(m, fs[i], PageData(data, len, i));
    }
  }

  /** After one round of map_segment: one more frame with its part of the data */
  lemma RoundDone(m: Mem, m': Mem, seg: Segment, fs: seq<nat>, f: nat, data: Option<seq<byte>>, len: nat,
                  pos: nat, size: nat, piece: Option<seq<byte>>)
    requires data.Some? ==> pos == Copied(|fs|, len) <= len <= |data.value|
    requires data.Some? ==> size == if len - pos >= PAGE_SIZE then PAGE_SIZE else len - pos
    requires piece == if data.None? then None else Some(data.value[pos..pos + size])
    requires FramesOk(m, seg, fs, data, len) && Unmoved(m, m', DataFrames(seg, fs))
    requires seg.linear ==> f == LinearFrame(First(seg) + |fs|)
    requires !seg.linear ==> f !in DataFrames(seg, fs)
    requires !seg.linear ==> Backed(m', f, Overlay(ZeroPage(), if piece.None? then [] else piece.value))
    ensures FramesOk(m', seg, fs + [f], data, len)
    ensures DataFrames(seg, fs + [f]) == if seg.linear then DataFrames(seg, fs) else DataFrames(seg, fs) + {f}
    ensures Ptes(fs + [f], seg.flags) == Ptes(fs, seg.flags) + [MakePte(f, seg.flags)]
  {
    hide FramesOk, Ptes, PageData, Overlay, DataFrames, ZeroPage, LinearFrame, Backed, Unmoved, MakePte, First,
      DataPage;
    if data.Some? { PieceIsPage(data.value, len, |fs|, pos, size); } else { OverlayNothing(ZeroPage()); }
    PageDataIs(data, len, |fs|);
    OneMoreFrame(m, m', seg, fs, f, data, len);
    PtesSnoc(fs, f, seg.flags);
  }

  datatype MapResult = Done | AlreadyMapped | OutOfFrames

  /** Before its entry is set, a page still has the entry it had at the start. */
  lemma MappingAhead(m: Mem, t: Tables, free: set<nat>, m1: Mem, t1: Tables, free1: set<nat>,
                     first: nat, es: seq<nat>, used: set<nat>)
    requires Mapping(m, t, free, m1, t1, free1, first, es, used) && |es| < KEYS
    requires BottomOf(first + |es|) in t1
    ensures var f := t1[BottomOf(first + |es|)];
      f in m1 && Entry(m1[f], Level(first + |es|, 0)) == Leaf(m, t, first + |es|)
  {
    hide Entry, Level, Key;
    MapsToAhead(m, t, m1, t1, first, es);
  }

  /** Frames s are in memory before and after, with the same contents. */
  ghost predicate Unmoved(m: Mem, m': Mem, s: set<nat>) {
    forall g :: g in s ==> g in m && g in m' && m'[g] == m[g]
  }

  /** A frame's contents. */
  ghost predicate Backed(m: Mem, f: nat, p: Page) {
    f in m && m[f] == p
  }

  lemma MappingUsed(m: Mem, t: Tables, free: set<nat>, m1: Mem, t1: Tables, free1: set<nat>,
                    first: nat, es: seq<nat>, used: set<nat>)
    requires Mapping(m, t, free, m1, t1, free1, first, es, used)
    ensures used !! free1 && forall g :: g in used ==> g in m1
  {}

  /** A page with its first bytes replaced. */
  function Overlay(p: Page, bytes: seq<byte>): Page
    requires |bytes| <= PAGE_SIZE
  {
    bytes + p[|bytes|..]
  }

  lemma OverlayNone(p: Page, bytes: seq<byte>)
    ensures Overlay(p, bytes[..0]) == p
  {}

  lemma OverlaySnoc(p: Page, bytes: seq<byte>, i: nat)
    requires i < |bytes| <= PAGE_SIZE
    ensures Overlay(p, bytes[..i])[i := bytes[i]] == Overlay(p, bytes[..i + 1])
  {}

  /** __ppn(vpn), the frame a page of the linear kernel mapping stands for */
  function LinearFrame(vpn: nat): nat {
    (vpn + WORD - KERNEL_PAGE_OFFSET) % WORD
  }

  const KERNEL_PAGE_OFFSET: nat := 0xf_ffff_fff0_0000

  /** The kernel's map covers the page. */
  ghost predicate Covered(v: nat) {
    KERNEL_MAP_OFFSET <= PAGE_SIZE * v < KERNEL_MAP_OFFSET + PAGE_SIZE * PPN_LIMIT
  }

  /** The frame of a covered page is at the page's address less the offset of the map. */
  lemma LinearAddress(v: nat)
    requires Covered(v)
    ensures LinearFrame(v) < PPN_LIMIT && PAGE_SIZE * LinearFrame(v) + KERNEL_MAP_OFFSET == PAGE_SIZE * v
  {}

  /** The walk for a covered page ends at an entry with these flags and this frame. */
  ghost predicate LinearPage(m: Mem, root: nat, v: nat, flags: nat) {
    Covered(v) ==>
      var w := Walk(m, root, v, 2);
      && w.Maps? && w.level == 0 && (forall i: nat :: i < 10 ==> (Bit(w.pte, i) <==> Bit(flags, i)))
      && PAGE_SIZE * PtePpn(w.pte) + KERNEL_MAP_OFFSET == PAGE_SIZE * v
  }

  lemma LinearWalk(m: Mem, t: Tables, v: nat, flags: nat)
    requires Tree(m, t) && Leaf(m, t, v) == MakePte(LinearFrame(v), flags)
    requires flags < FLAG_LIMIT && Bit(flags, VALID) && Translates(flags)
    ensures Root in t && LinearPage(m, t[Root], v, flags)
  {
    hide Tree, Leaf, MakePte, PtePpn, Bit, Walk, Translates, LinearFrame;
    WalkOfEntry(m, t, v, LinearFrame(v), flags);
    if Covered(v) {
      LinearAddress(v);
      PpnRoundTrip(LinearFrame(v), flags);
      forall i: nat | i < 10 ensures Bit(MakePte(LinearFrame(v), flags), i) <==> Bit(flags, i) {
        FlagBits(LinearFrame(v), flags, i);
      }
    }
  }

  /** A linear segment with flags that translate is mapped to where its addresses point. */
  ghost predicate LinearSegment(m: Mem, root: nat, seg: Segment) {
    seg.linear && seg.flags < FLAG_LIMIT && Bit(seg.flags, VALID) && Translates(seg.flags) ==>
      forall v: nat :: First(seg) <= v < First(seg) + Pages(seg) ==> LinearPage(m, root, v, seg.flags)
  }

  /** So it is after map_segment. */
  lemma LinearMapped(m: Mem, t: Tables, free: set<nat>, m': Mem, t': Tables, free': set<nat>, seg: Segment,
                     fs: seq<nat>, data: Option<seq<byte>>, len: nat)
    requires data.Some? ==> len <= |data.value|
    requires |fs| == Pages(seg) <= KEYS && FramesOk(m', seg, fs, data, len)
    requires Mapping(m, t, free, m', t', free', First(seg), Ptes(fs, seg.flags), DataFrames(seg, fs))
    ensures Root in t && LinearSegment(m', t[Root], seg)
  {
    hide Leaf, MakePte, Bit, Translates, LinearFrame, LinearPage, Pages, First, Offset, Tree;
    if seg.linear && seg.flags < FLAG_LIMIT && Bit(seg.flags, VALID) && Translates(seg.flags) {
      forall v: nat | First(seg) <= v < First(seg) + Pages(seg) ensures LinearPage(m', t[Root], v, seg.flags) {
        var i := v - First(seg);
        OffsetIs(First(seg), First(seg) + i, i);
        assert Ptes(fs, seg.flags)[i] == MakePte(fs[i], seg.flags);
        LinearWalk(m', t', v, seg.flags);
      }
    }
  }

  /** The entries for n consecutive frames. */
  function PtesFrom(ppn: nat, n: nat, flags: nat): (es: seq<nat>)
    ensures |es| == n
  {
    if n == 0 then [] else PtesFrom(ppn, n - 1, flags) + [MakePte(ppn + n - 1, flags)]
  }

  lemma PtesFromNone(ppn: nat, flags: nat)
    ensures PtesFrom(ppn, 0, flags) == []
  {}

  lemma PtesFromSnoc(ppn: nat, n: nat, flags: nat)
    ensures PtesFrom(ppn, n + 1, flags) == PtesFrom(ppn, n, flags) + [MakePte(ppn + n, flags)]
  {}
}
