// Files of a SimpleFS image: the shape of their block lists and their contents.
module FsFiles {
  import opened Bytes
  import opened FsLayout
  import opened FsOwners

  // ---------- block lists ----------

  /** The slot of block n of the file in entry i: 12 direct, then 128 far ones. */
  function BlockSlot(i: nat, n: nat): Slot {
    if n < NDIRECT then DirectSlot(i, n) else FarSlot(i, n - NDIRECT)
  }

  function BlockNo(d: Disk, i: nat, n: nat): nat
    requires IsDisk(d) && i < FAT_SIZE && n < MAX_BLOCKS
  {
    Named(d, BlockSlot(i, n))
  }

  function InodeNo(d: Disk, i: nat): nat
    requires IsDisk(d) && i < FAT_SIZE
  {
    FatEntry(d[2], i)
  }

  ghost predicate IsFile(d: Disk, i: nat)
    requires IsDisk(d)
  {
    i < FAT_SIZE && Usable(InodeNo(d, i))
  }

  function Inode(d: Disk, i: nat): Block
    requires IsDisk(d) && i < FAT_SIZE
  {
    if Usable(InodeNo(d, i)) then d[InodeNo(d, i)] else ZeroBlock()
  }

  /** The first c blocks of the file exist and no others; ind tells whether it
      has an indirect block. */
  ghost predicate Prefix(d: Disk, i: nat, c: nat, ind: bool)
    requires IsDisk(d) && i < FAT_SIZE
  {
    && c <= MAX_BLOCKS && (c > NDIRECT ==> ind)
    && (Named(d, IndirectSlot(i)) != 0 <==> ind)
    && forall n: nat :: n < MAX_BLOCKS ==> (BlockNo(d, i, n) != 0 <==> n < c)
  }

  /** The recorded block count is the length of the block list, which has an
      indirect block only if it needs one and covers the file's size. */
  ghost predicate WellShaped(d: Disk, i: nat)
    requires IsDisk(d) && i < FAT_SIZE
  {
    var c := Blocks(Inode(d, i));
    Prefix(d, i, c, c > NDIRECT) && Size(Inode(d, i)) <= c * BLOCK_SIZE
  }

  // ---------- contents ----------

  function ByteAt(d: Disk, i: nat, x: nat): byte
    requires IsDisk(d) && i < FAT_SIZE
  {
    var n := x / BLOCK_SIZE;
    if n < MAX_BLOCKS && Usable(BlockNo(d, i, n)) then d[BlockNo(d, i, n)][x % BLOCK_SIZE] else 0
  }

  /** The bytes of a file. */
  function Contents(d: Disk, i: nat): (s: seq<byte>)
    requires IsDisk(d) && i < FAT_SIZE
    ensures |s| == Size(Inode(d, i))
  {
    seq(Size(Inode(d, i)), (x: nat) requires x < Size(Inode(d, i)) => ByteAt(d, i, x))
  }

  function Name(d: Disk, i: nat): seq<byte>
    requires IsDisk(d) && i < FAT_SIZE
  {
    CString(NameField(Inode(d, i)))
  }

  // ---------- files left alone ----------

  /** File i has the same inode header, block list and block contents. */
  ghost predicate SameFile(d: Disk, d': Disk, i: nat)
    requires IsDisk(d) && IsDisk(d') && i < FAT_SIZE
  {
    && InodeNo(d', i) == InodeNo(d, i)
    && SameHeader(Inode(d, i), Inode(d', i))
    && Named(d', IndirectSlot(i)) == Named(d, IndirectSlot(i))
    && forall n: nat :: n < MAX_BLOCKS ==> SameBlock(d, d', i, n)
  }

  ghost predicate SameBlock(d: Disk, d': Disk, i: nat, n: nat)
    requires IsDisk(d) && IsDisk(d') && i < FAT_SIZE && n < MAX_BLOCKS
  {
    var b := BlockNo(d, i, n);
    BlockNo(d', i, n) == b && (Usable(b) ==> d'[b] == d[b])
  }

  /** So it has the same name, shape and contents. */
  lemma SameFileMeans(d: Disk, d': Disk, i: nat)
    requires IsDisk(d) && IsDisk(d') && i < FAT_SIZE && SameFile(d, d', i)
    ensures Contents(d', i) == Contents(d, i) && Name(d', i) == Name(d, i)
    ensures IsFile(d', i) == IsFile(d, i) && (WellShaped(d, i) ==> WellShaped(d', i))
  {
    hide Get, Named, Inode, CString, InodeNo;
    forall x: nat ensures ByteAt(d', i, x) == ByteAt(d, i, x) {
      if x / BLOCK_SIZE < MAX_BLOCKS { assert SameBlock(d, d', i, x / BLOCK_SIZE); }
    }
    forall n: nat | n < MAX_BLOCKS ensures BlockNo(d', i, n) == BlockNo(d, i, n) { assert SameBlock(d, d', i, n); }
    assert InodeNo(d', i) == InodeNo(d, i);
  }

  lemma SameFileTrans(d0: Disk, d1: Disk, d2: Disk, i: nat)
    requires IsDisk(d0) && IsDisk(d1) && IsDisk(d2) && i < FAT_SIZE
    requires SameFile(d0, d1, i) && SameFile(d1, d2, i)
    ensures SameFile(d0, d2, i)
  {
    hide Get, Named, Inode;
    forall n: nat | n < MAX_BLOCKS ensures SameBlock(d0, d2, i, n) {
      assert SameBlock(d0, d1, i, n) && SameBlock(d1, d2, i, n);
    }
  }

  /** Blocks that do not belong to file j: unallocated, fixed, pending, or owned
      by another file. */
  ghost predicate NotOf(d: Disk, owner: Owners, j: nat, x: nat) {
    x in owner ==> owner[x].i != j
  }

  /** If only blocks that are not of file j change, apart from the inode table,
      whose entry j stays, file j is left alone. */
  lemma OthersSame(d: Disk, d': Disk, owner: Owners, pending: set<nat>, j: nat)
    requires Owned(d, owner, pending) && IsDisk(d') && j < FAT_SIZE
    requires FatEntry(d'[2], j) == FatEntry(d[2], j)
    requires forall x: nat :: x < BLOCK_NUM && x != 2 && d'[x] != d[x] ==> NotOf(d, owner, j, x)
    ensures SameFile(d, d', j)
  {
    hide Get, Taken, ZeroBlock, FatEntry, Direct, Indirect, Far, BlockSlot;
    var f, n := FatSlot(j), IndirectSlot(j);
    assert Named(d, f) != 0 ==> owner[Named(d, f)] == f;
    assert Named(d, n) != 0 ==> owner[Named(d, n)] == n;
    assert Named(d', f) == Named(d, f);
    assert Named(d', n) == Named(d, n);
    assert forall k: nat :: k < NDIRECT ==> Named(d', DirectSlot(j, k)) == Named(d, DirectSlot(j, k));
    assert forall k: nat :: k < NFAR ==> Named(d', FarSlot(j, k)) == Named(d, FarSlot(j, k));
    forall m: nat | m < MAX_BLOCKS ensures SameBlock(d, d', j, m) {
      BlockSlotProper(j, m);
      var s := BlockSlot(j, m);
      assert Named(d, s) != 0 ==> owner[Named(d, s)] == s;
    }
  }

  lemma BlockSlotProper(i: nat, n: nat)
    requires i < FAT_SIZE && n < MAX_BLOCKS
    ensures Proper(BlockSlot(i, n)) && BlockSlot(i, n).i == i
    ensures BlockSlot(i, n) == if n < NDIRECT then DirectSlot(i, n) else FarSlot(i, n - NDIRECT)
  {}

  // ---------- the whole file system ----------

  /** Entries of the inode table in use come first. */
  ghost predicate FatPrefix(d: Disk, files: nat)
    requires IsDisk(d)
  {
    files <= FAT_SIZE && forall i: nat :: i < FAT_SIZE ==> (InodeNo(d, i) != 0 <==> i < files)
  }

  ghost predicate AllShaped(d: Disk)
    requires IsDisk(d)
  {
    forall i: nat :: i < FAT_SIZE && InodeNo(d, i) != 0 ==> WellShaped(d, i)
  }

  ghost predicate NamesUnique(d: Disk)
    requires IsDisk(d)
  {
    forall i: nat, j: nat :: i < j < FAT_SIZE && InodeNo(d, i) != 0 && InodeNo(d, j) != 0 ==> Name(d, i) != Name(d, j)
  }

  /** The file-system invariant: ownership, the count of unallocated blocks, the
      shape of every file, and a table of uniquely named files. */
  ghost predicate FsOk(d: Disk, owner: Owners, files: nat, unused: nat) {
    && Owned(d, owner, {}) && unused == |FreeBlocks(d)|
    && FatPrefix(d, files) && AllShaped(d) && NamesUnique(d)
  }
}
