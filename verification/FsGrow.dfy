// Giving a file more blocks, one at a time.
module FsGrow {
  import opened Bytes
  import opened FsLayout
  import opened FsOwners
  import opened FsFiles

  ghost predicate OthersKept(d0: Disk, d: Disk, i: nat)
    requires IsDisk(d0) && IsDisk(d)
  {
    forall j: nat :: j < FAT_SIZE && j != i ==> SameFile(d0, d, j)
  }

  ghost predicate BlocksKept(d0: Disk, d: Disk, i: nat, c0: nat)
    requires IsDisk(d0) && IsDisk(d) && i < FAT_SIZE && c0 <= MAX_BLOCKS
  {
    forall n: nat :: n < c0 ==> SameBlock(d0, d, i, n)
  }

  /** From d0 to d the file in entry i has been given blocks, so that it now has
      c of them; its first c0 blocks, its header and all other files are kept. */
  ghost predicate Growing(d0: Disk, d: Disk, owner: Owners, pend: set<nat>, i: nat, c0: nat, c: nat, ind: bool) {
    && IsDisk(d0) && Owned(d, owner, pend) && IsFile(d, i) && InodeNo(d, i) == InodeNo(d0, i)
    && SameHeader(Inode(d0, i), Inode(d, i))
    && Prefix(d, i, c, ind) && c0 <= c
    && OthersKept(d0, d, i) && BlocksKept(d0, d, i, c0)
  }

  lemma GrowingStart(d: Disk, owner: Owners, i: nat, c: nat, ind: bool)
    requires Owned(d, owner, {}) && IsFile(d, i) && Prefix(d, i, c, ind)
    ensures Growing(d, d, owner, {}, i, c, c, ind)
  {}

  /** One more block has been named in slot s of file i. */
  ghost predicate Named1(d: Disk, d': Disk, owner: Owners, owner': Owners, pend: set<nat>, pend': set<nat>, i: nat,
                         s: Slot) {
    && Owned(d, owner, pend) && Owned(d', owner', pend') && i < FAT_SIZE && Proper(s) && s.i == i && !s.FatSlot?
    && Named(d, s) == 0 && Named(d', s) != 0
    && (forall r :: Proper(r) && r != s ==> Named(d', r) == Named(d, r))
    && (forall x: nat :: x < BLOCK_NUM && d'[x] != d[x] ==>
          x !in owner || x == InodeNo(d, i) || x == Named(d, IndirectSlot(i)))
    && SameHeader(Inode(d, i), Inode(d', i))
  }

  function CountAfter(c: nat, s: Slot): nat {
    if s.IndirectSlot? then c else c + 1
  }

  lemma GrowStep(d0: Disk, d: Disk, d': Disk, owner: Owners, owner': Owners, pend: set<nat>, pend': set<nat>, i: nat,
                 c0: nat, c: nat, ind: bool, s: Slot)
    requires Growing(d0, d, owner, pend, i, c0, c, ind) && Named1(d, d', owner, owner', pend, pend', i, s)
    requires s == IndirectSlot(i) || (c < MAX_BLOCKS && s == BlockSlot(i, c) && (c >= NDIRECT ==> ind))
    ensures Growing(d0, d', owner', pend', i, c0, CountAfter(c, s), ind || s.IndirectSlot?)
  {
    hide Get, Taken, ZeroBlock, FatEntry, Direct, Indirect, Far, Named, SameFile, SameHeader, Inode, SameBlock,
      FreeBlocks;
    InodeKept(d, d', i, s);
    forall j: nat | j < FAT_SIZE && j != i ensures SameFile(d0, d', j) {
      GrowOthers(d, d', owner, owner', pend, pend', i, s, j);
      SameFileTrans(d0, d, d', j);
    }
    forall n: nat | n < c0 ensures SameBlock(d0, d', i, n) {
      GrowOwn(d, d', owner, owner', pend, pend', i, c, ind, s, n);
      assert SameBlock(d0, d, i, n);
      SameBlockTrans(d0, d, d', i, n);
    }
    GrowPrefix(d, d', owner, owner', pend, pend', i, c, ind, s);
    HeaderTrans(Inode(d0, i), Inode(d, i), Inode(d', i));
  }

  lemma InodeKept(d: Disk, d': Disk, i: nat, s: Slot)
    requires IsDisk(d) && IsDisk(d') && i < FAT_SIZE && Proper(s) && !s.FatSlot?
    requires forall r :: Proper(r) && r != s ==> Named(d', r) == Named(d, r)
    ensures InodeNo(d', i) == InodeNo(d, i)
  {
    hide Get, FatEntry;
    assert Named(d', FatSlot(i)) == Named(d, FatSlot(i));
  }

  lemma HeaderTrans(a: Block, b: Block, c: Block)
    requires SameHeader(a, b) && SameHeader(b, c)
    ensures SameHeader(a, c)
  {}

  lemma SameBlockTrans(d0: Disk, d1: Disk, d2: Disk, i: nat, n: nat)
    requires IsDisk(d0) && IsDisk(d1) && IsDisk(d2) && i < FAT_SIZE && n < MAX_BLOCKS
    requires SameBlock(d0, d1, i, n) && SameBlock(d1, d2, i, n)
    ensures SameBlock(d0, d2, i, n)
  {}

  lemma GrowOthers(d: Disk, d': Disk, owner: Owners, owner': Owners, pend: set<nat>, pend': set<nat>, i: nat, s: Slot,
                   j: nat)
    requires Named1(d, d', owner, owner', pend, pend', i, s) && j < FAT_SIZE && j != i
    ensures SameFile(d, d', j)
  {
    hide Get, Taken, ZeroBlock, FatEntry, SameHeader, Inode, FreeBlocks;
    assert Named(d', FatSlot(j)) == Named(d, FatSlot(j));
    forall x: nat | x < BLOCK_NUM && x != 2 && d'[x] != d[x] ensures NotOf(d, owner, j, x) {
      OwnerOf(d, owner, pend, FatSlot(i));
      OwnerOf(d, owner, pend, IndirectSlot(i));
    }
    OthersSame(d, d', owner, pend, j);
  }

  lemma OwnerOf(d: Disk, owner: Owners, pend: set<nat>, s: Slot)
    requires Owned(d, owner, pend) && Proper(s)
    ensures Named(d, s) != 0 ==> Named(d, s) in owner && owner[Named(d, s)] == s
    ensures forall b :: b in owner ==> b >= 3
  {
    hide Named;
  }

  lemma GrowOwn(d: Disk, d': Disk, owner: Owners, owner': Owners, pend: set<nat>, pend': set<nat>, i: nat, c: nat,
                ind: bool, s: Slot, n: nat)
    requires Named1(d, d', owner, owner', pend, pend', i, s) && Prefix(d, i, c, ind) && n < c
    requires s == IndirectSlot(i) || (c < MAX_BLOCKS && s == BlockSlot(i, c))
    ensures SameBlock(d, d', i, n)
  {
    hide Get, Taken, ZeroBlock, FatEntry, SameHeader, Inode, FreeBlocks, Named, InodeNo;
    var r := BlockSlot(i, n);
    BlockSlotProper(i, n);
    assert BlockNo(d, i, n) != 0;
    OwnerOf(d, owner, pend, r);
    OwnerOf(d, owner, pend, IndirectSlot(i));
    InodeNoNamed(d, i);
    OwnerOf(d, owner, pend, FatSlot(i));
  }

  lemma InodeNoNamed(d: Disk, i: nat)
    requires IsDisk(d) && i < FAT_SIZE
    ensures Proper(FatSlot(i)) && Named(d, FatSlot(i)) == InodeNo(d, i)
  {}

  lemma GrowPrefix(d: Disk, d': Disk, owner: Owners, owner': Owners, pend: set<nat>, pend': set<nat>, i: nat, c: nat,
                   ind: bool, s: Slot)
    requires Named1(d, d', owner, owner', pend, pend', i, s) && Prefix(d, i, c, ind)
    requires s == IndirectSlot(i) || (c < MAX_BLOCKS && s == BlockSlot(i, c) && (c >= NDIRECT ==> ind))
    ensures Prefix(d', i, CountAfter(c, s), ind || s.IndirectSlot?)
  {
    hide Get, Taken, ZeroBlock, FatEntry, SameHeader, Inode, FreeBlocks, Named, InodeNo;
    forall n: nat | n < MAX_BLOCKS ensures BlockNo(d', i, n) != 0 <==> n < CountAfter(c, s) {
      BlockSlotProper(i, n);
      if n != c && c < MAX_BLOCKS { BlockSlotProper(i, c); }
      assert BlockNo(d, i, n) != 0 <==> n < c;
    }
  }

  // ---------- the three ways a block is added ----------

  lemma FreeDrops(d: Disk, d': Disk, b: nat)
    requires IsDisk(d) && IsDisk(d') && FreeBlocks(d') == FreeBlocks(d) - {b} && b in FreeBlocks(d)
    ensures |FreeBlocks(d')| == |FreeBlocks(d)| - 1
  {}

  lemma AddDirect(d: Disk, owner: Owners, i: nat, k: nat, b: nat, sb: Block)
    requires Owned(d, owner, {}) && IsFile(d, i) && k < NDIRECT && Named(d, DirectSlot(i, k)) == 0
    requires b < BLOCK_NUM && !Taken(d[1], b)
    ensures 3 <= InodeNo(d, i)
    ensures var d2 := d[0 := sb][1 := Take(d[1], b)]; var f := InodeNo(d, i);
      && Named1(d, d2[f := SetDirect(d2[f], k, b)], owner, owner[b := DirectSlot(i, k)], {}, {}, i, DirectSlot(i, k))
      && |FreeBlocks(d2[f := SetDirect(d2[f], k, b)])| == |FreeBlocks(d)| - 1
  {
    hide Get, Put, Taken, Take, ZeroBlock, FatEntry, Direct, SetDirect, Indirect, Far, Named;
    var f := InodeNo(d, i);
    var d2 := d[0 := sb][1 := Take(d[1], b)];
    TakeBlock(d, owner, {}, b, sb);
    InodeNoNamed(d, i);
    InodeNoNamed(d2, i);
    OwnerOf(d, owner, {}, FatSlot(i));
    assert {} + {b} == {b} && {b} - {b} == {};
    LinkDirect(d2, owner, {b}, b, i, k);
    DirectSet(d2[f], k, b);
    var d3 := d2[f := SetDirect(d2[f], k, b)];
    InodeNoNamed(d3, i);
    FreeDrops(d, d3, b);
  }

  lemma AddIndirect(d: Disk, owner: Owners, i: nat, b: nat, sb: Block)
    requires Owned(d, owner, {}) && IsFile(d, i) && Named(d, IndirectSlot(i)) == 0
    requires b < BLOCK_NUM && !Taken(d[1], b)
    ensures 3 <= InodeNo(d, i)
    ensures var d2 := d[0 := sb][1 := Take(d[1], b)]; var f := InodeNo(d, i);
      && Named1(d, d2[f := SetIndirect(d2[f], b)], owner, owner[b := IndirectSlot(i)], {}, {}, i, IndirectSlot(i))
      && |FreeBlocks(d2[f := SetIndirect(d2[f], b)])| == |FreeBlocks(d)| - 1
  {
    hide Get, Put, Taken, Take, ZeroBlock, FatEntry, Direct, SetIndirect, Indirect, Far, Named;
    var f := InodeNo(d, i);
    var d2 := d[0 := sb][1 := Take(d[1], b)];
    TakeBlock(d, owner, {}, b, sb);
    InodeNoNamed(d, i);
    InodeNoNamed(d2, i);
    OwnerOf(d, owner, {}, FatSlot(i));
    assert {} + {b} == {b} && {b} - {b} == {};
    LinkIndirect(d2, owner, {b}, b, i);
    IndirectSet(d2[f], b);
    var d3 := d2[f := SetIndirect(d2[f], b)];
    InodeNoNamed(d3, i);
    FreeDrops(d, d3, b);
  }

  lemma AddFar(d: Disk, owner: Owners, i: nat, j: nat, b: nat, sb: Block)
    requires Owned(d, owner, {}) && IsFile(d, i) && j < NFAR
    requires Named(d, IndirectSlot(i)) != 0 && Named(d, FarSlot(i, j)) == 0
    requires b < BLOCK_NUM && !Taken(d[1], b)
    ensures 3 <= Named(d, IndirectSlot(i)) < BLOCK_NUM
    ensures var d2 := d[0 := sb][1 := Take(d[1], b)]; var n := Named(d, IndirectSlot(i));
      && Named1(d, d2[n := SetFar(d2[n], j, b)], owner, owner[b := FarSlot(i, j)], {}, {}, i, FarSlot(i, j))
      && |FreeBlocks(d2[n := SetFar(d2[n], j, b)])| == |FreeBlocks(d)| - 1
  {
    hide Get, Put, Taken, Take, ZeroBlock, FatEntry, Direct, SetFar, Indirect, Far, Named;
    var d2 := d[0 := sb][1 := Take(d[1], b)];
    TakeBlock(d, owner, {}, b, sb);
    var n := Named(d, IndirectSlot(i));
    InodeNoNamed(d, i);
    InodeNoNamed(d2, i);
    OwnerOf(d, owner, {}, FatSlot(i));
    OwnerOf(d, owner, {}, IndirectSlot(i));
    assert {} + {b} == {b} && {b} - {b} == {};
    LinkFar(d2, owner, {b}, b, i, j);
    var d3 := d2[n := SetFar(d2[n], j, b)];
    InodeNoNamed(d3, i);
    FreeDrops(d, d3, b);
  }

  // ---------- changing the header of one inode ----------

  /** The inode block of file i replaced by one with the same block numbers. */
  lemma ChangeHeader(d: Disk, owner: Owners, i: nat, x: Block)
    requires Owned(d, owner, {}) && IsFile(d, i) && SameNumbers(Inode(d, i), x)
    ensures 3 <= InodeNo(d, i)
    ensures var d' := d[InodeNo(d, i) := x];
      && Owned(d', owner, {}) && SameNames(d, d') && FreeBlocks(d') == FreeBlocks(d)
      && IsFile(d', i) && InodeNo(d', i) == InodeNo(d, i) && Inode(d', i) == x
      && OthersKept(d, d', i) && BlocksKept(d, d', i, MAX_BLOCKS)
  {
    hide Get, Taken, ZeroBlock, FatEntry, SameNumbers, Named, SameFile, FreeBlocks;
    var f := InodeNo(d, i);
    WriteHeader(d, owner, {}, i, x);
    var d' := d[f := x];
    InodeNoNamed(d, i);
    OwnerOf(d, owner, {}, FatSlot(i));
    forall j: nat | j < FAT_SIZE && j != i ensures SameFile(d, d', j) { OthersSame(d, d', owner, {}, j); }
    forall n: nat | n < MAX_BLOCKS ensures SameBlock(d, d', i, n) {
      BlockSlotProper(i, n);
      OwnerOf(d, owner, {}, BlockSlot(i, n));
    }
  }

  lemma PrefixSame(d: Disk, d': Disk, i: nat, c: nat, ind: bool)
    requires IsDisk(d) && IsDisk(d') && i < FAT_SIZE && SameNames(d, d') && Prefix(d, i, c, ind)
    ensures Prefix(d', i, c, ind)
  {
    hide Named;
    forall n: nat | n < MAX_BLOCKS ensures BlockNo(d', i, n) == BlockNo(d, i, n) { BlockSlotProper(i, n); }
  }

  // ---------- the result of increase_size ----------

  function Max(a: nat, b: nat): nat {
    if a > b then a else b
  }

  /** The number of blocks that hold n bytes. */
  function BlocksFor(n: nat): nat {
    (n + BLOCK_SIZE - 1) / BLOCK_SIZE
  }

  /** Unallocated blocks used up in going from c0 to c blocks. */
  function BlocksTaken(c0: nat, c: nat): nat
    requires c0 <= c
  {
    c - c0 + (if c > NDIRECT && c0 <= NDIRECT then 1 else 0)
  }

  /** File i went from d0's blocks to c; its bytes, name and size, and all other
      files, are the same. */
  ghost predicate Enlarged(d0: Disk, d: Disk, i: nat, c: nat) {
    && IsDisk(d0) && IsDisk(d) && IsFile(d, i) && InodeNo(d, i) == InodeNo(d0, i)
    && Blocks(Inode(d, i)) == c && c >= Blocks(Inode(d0, i)) && Prefix(d, i, c, c > NDIRECT)
    && Size(Inode(d, i)) == Size(Inode(d0, i)) && NameField(Inode(d, i)) == NameField(Inode(d0, i))
    && OthersKept(d0, d, i)
    && Blocks(Inode(d0, i)) <= MAX_BLOCKS && BlocksKept(d0, d, i, Blocks(Inode(d0, i)))
    && |FreeBlocks(d)| + BlocksTaken(Blocks(Inode(d0, i)), c) == |FreeBlocks(d0)|
  }

  lemma EnlargedSelf(d: Disk, i: nat)
    requires IsDisk(d) && IsFile(d, i) && WellShaped(d, i)
    ensures Enlarged(d, d, i, Blocks(Inode(d, i)))
  {
    hide Get, Named, FatEntry;
  }

  /** Putting together the new block count and the new blocks. */
  lemma EnlargedIs(d0: Disk, d1: Disk, d: Disk, owner: Owners, i: nat, c0: nat, c: nat, ind: bool)
    requires IsDisk(d0) && IsFile(d0, i) && WellShaped(d0, i) && c0 == Blocks(Inode(d0, i))
    requires IsDisk(d1) && InodeNo(d1, i) == InodeNo(d0, i) && OthersKept(d0, d1, i)
    requires BlocksKept(d0, d1, i, MAX_BLOCKS)
    requires Blocks(Inode(d1, i)) == c && Size(Inode(d1, i)) == Size(Inode(d0, i))
    requires NameField(Inode(d1, i)) == NameField(Inode(d0, i))
    requires Growing(d1, d, owner, {}, i, c0, c, ind) && (ind <==> c > NDIRECT)
    requires |FreeBlocks(d)| + BlocksTaken(c0, c) == |FreeBlocks(d0)|
    ensures Enlarged(d0, d, i, c)
  {
    hide Get, Named, FatEntry, SameFile, SameBlock, FreeBlocks;
    forall j: nat | j < FAT_SIZE && j != i ensures SameFile(d0, d, j) { SameFileTrans(d0, d1, d, j); }
    forall n: nat | n < c0 ensures SameBlock(d0, d, i, n) { SameBlockTrans(d0, d1, d, i, n); }
  }

  // ---------- what the code's tests see ----------

  /** The next block of the list is not there yet. */
  lemma GrowingNext(d0: Disk, d: Disk, owner: Owners, pend: set<nat>, i: nat, c0: nat, c: nat, ind: bool, s: Slot)
    requires Growing(d0, d, owner, pend, i, c0, c, ind)
    requires (s == IndirectSlot(i) && !ind) || (c < MAX_BLOCKS && s == BlockSlot(i, c))
    ensures Proper(s) && Named(d, s) == 0 && Owned(d, owner, pend) && IsFile(d, i) && IsDisk(d)
    ensures 3 <= InodeNo(d, i) < BLOCK_NUM
  {
    hide Named, SameFile, SameHeader, SameBlock, Taken, FatEntry;
    if s != IndirectSlot(i) { BlockSlotProper(i, c); assert BlockNo(d, i, c) == 0; }
    InodeNoNamed(d, i);
    OwnerOf(d, owner, pend, FatSlot(i));
  }

  lemma DirectIsNamed(d0: Disk, d: Disk, owner: Owners, pend: set<nat>, i: nat, c0: nat, c: nat, ind: bool, k: nat)
    requires Growing(d0, d, owner, pend, i, c0, c, ind) && k < NDIRECT
    ensures IsDisk(d) && i < FAT_SIZE && 3 <= InodeNo(d, i) < BLOCK_NUM
    ensures Direct(d[InodeNo(d, i)], k) == 0 <==> k >= c
  {
    hide Get, Taken, FatEntry, SameFile, SameHeader, SameBlock;
    assert BlockNo(d, i, k) == Named(d, DirectSlot(i, k));
    InodeNoNamed(d, i);
    OwnerOf(d, owner, pend, FatSlot(i));
  }

  lemma FarIsNamed(d0: Disk, d: Disk, owner: Owners, pend: set<nat>, i: nat, c0: nat, c: nat, j: nat)
    requires Growing(d0, d, owner, pend, i, c0, c, true) && j < NFAR
    ensures IsDisk(d) && i < FAT_SIZE && 3 <= Named(d, IndirectSlot(i)) < BLOCK_NUM
    ensures Far(d[Named(d, IndirectSlot(i))], j) == 0 <==> NDIRECT + j >= c
  {
    hide Get, Taken, FatEntry, SameFile, SameHeader, SameBlock;
    assert BlockNo(d, i, NDIRECT + j) == Named(d, FarSlot(i, j));
    OwnerOf(d, owner, pend, IndirectSlot(i));
  }

  lemma IndirectIsNamed(d0: Disk, d: Disk, owner: Owners, pend: set<nat>, i: nat, c0: nat, c: nat, ind: bool)
    requires Growing(d0, d, owner, pend, i, c0, c, ind)
    ensures i < FAT_SIZE && 3 <= InodeNo(d, i) < BLOCK_NUM
    ensures Indirect(d[InodeNo(d, i)]) == Named(d, IndirectSlot(i)) && (Indirect(d[InodeNo(d, i)]) != 0 <==> ind)
  {
    hide Get, Taken, FatEntry, SameFile, SameHeader, SameBlock;
    InodeNoNamed(d, i);
    OwnerOf(d, owner, pend, FatSlot(i));
  }

  lemma GrowingOwned(d0: Disk, d: Disk, owner: Owners, pend: set<nat>, i: nat, c0: nat, c: nat, ind: bool)
    requires Growing(d0, d, owner, pend, i, c0, c, ind)
    ensures Owned(d, owner, pend)
  {}
}
