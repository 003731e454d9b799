// A new entry in the inode table.
module FsCreate {
  import opened Bytes
  import opened FsLayout
  import opened FsOwners
  import opened FsFiles
  import opened FsGrow
  import opened FsWrite

  /** Entry i is an empty file in the zeroed block b, just taken. */
  ghost predicate FreshEntry(d: Disk, d2: Disk, owner2: Owners, i: nat, b: nat) {
    && IsDisk(d) && Owned(d2, owner2, {}) && i < FAT_SIZE && IsFile(d2, i) && InodeNo(d2, i) == b
    && Inode(d2, i) == ZeroBlock()
    && Prefix(d2, i, 0, false) && OthersKept(d, d2, i)
  }

  /** Taking block b and storing it in the free entry i. */
  lemma AddEntry(d: Disk, owner: Owners, i: nat, b: nat, sb: Block)
    requires Owned(d, owner, {}) && i < FAT_SIZE && InodeNo(d, i) == 0 && b < BLOCK_NUM && !Taken(d[1], b)
    ensures 3 <= b
    ensures var d1: Disk := d[0 := sb][1 := Take(d[1], b)]; var d2: Disk := d1[2 := SetFat(d1[2], i, b)];
      FreshEntry(d, d2, owner[b := FatSlot(i)], i, b) && |FreeBlocks(d2)| == |FreeBlocks(d)| - 1 && d2[0] == sb
  {
    hide Get, Put, Take, Taken, ZeroBlock, FatEntry, SetFat, Direct, Indirect, Far, SameFile, Prefix, Named, FreeBlocks;
    var d1 := d[0 := sb][1 := Take(d[1], b)];
    var d2 := d1[2 := SetFat(d1[2], i, b)];
    ClearIsFree(d, b);
    TakeBlock(d, owner, {}, b, sb);
    assert {} + {b} == {b} && {b} - {b} == {};
    InodeNoNamed(d, i);
    InodeNoNamed(d1, i);
    LinkFat(d1, owner, {b}, b, i);
    InodeNoNamed(d2, i);
    FreeDrops(d, d2, b);
    EmptyEntry(d, d2, i, b);
    forall j: nat | j < FAT_SIZE && j != i ensures SameFile(d, d2, j) {
      InodeNoNamed(d, j);
      InodeNoNamed(d1, j);
      InodeNoNamed(d2, j);
      FixedUnowned(d, owner);
      OthersSame(d, d2, owner, {}, j);
    }
  }

  lemma ClearIsFree(d: Disk, b: nat)
    requires IsDisk(d) && b < BLOCK_NUM && !Taken(d[1], b)
    ensures b in FreeBlocks(d)
  {}

  lemma FixedUnowned(d: Disk, owner: Owners)
    requires Owned(d, owner, {})
    ensures forall b :: b in owner ==> b >= 3
  {
    hide Named, Taken;
  }

  /** Before the entry is set its slots name nothing, and in a zero block neither. */
  lemma EmptyEntry(d: Disk, d2: Disk, i: nat, b: nat)
    requires IsDisk(d) && IsDisk(d2) && i < FAT_SIZE && InodeNo(d, i) == 0
    requires forall s :: Proper(s) && s != FatSlot(i) ==> Named(d2, s) == Named(d, s)
    ensures Prefix(d2, i, 0, false)
  {
    hide Get, FatEntry;
    assert Named(d, IndirectSlot(i)) == 0;
    forall n: nat | n < MAX_BLOCKS ensures BlockNo(d2, i, n) == 0 {
      BlockSlotProper(i, n);
      assert Named(d2, BlockSlot(i, n)) == Named(d, BlockSlot(i, n));
    }
  }

  /** The header fields of a new inode: everything zero but the name. */
  ghost predicate NewInode(x: Block, name: seq<byte>) {
    && CString(NameField(x)) == name && Size(x) == 0 && Blocks(x) == 0 && Indirect(x) == 0
    && forall k: nat :: k < NDIRECT ==> Direct(x, k) == 0
  }

  lemma NewInodeNumbers(x: Block, name: seq<byte>)
    requires NewInode(x, name)
    ensures SameNumbers(ZeroBlock(), x)
  {
    hide Get;
    ZeroFields();
  }

  /** No file has this name. */
  ghost predicate NameFree(d: Disk, name: seq<byte>)
    requires IsDisk(d)
  {
    forall j: nat :: j < FAT_SIZE && InodeNo(d, j) != 0 ==> Name(d, j) != name
  }

  /** A file system with one file more, in the first free entry: it keeps the
      others, and the new one is well shaped and has the name. */
  lemma FileAdded(d: Disk, owner: Owners, d3: Disk, owner3: Owners, files: nat, unused: nat, unused3: nat,
                  name: seq<byte>)
    requires FsOk(d, owner, files, unused) && files < FAT_SIZE && NameFree(d, name)
    requires Owned(d3, owner3, {}) && unused3 == |FreeBlocks(d3)|
    requires IsFile(d3, files) && WellShaped(d3, files) && Name(d3, files) == name && OthersKept(d, d3, files)
    ensures FsOk(d3, owner3, files + 1, unused3)
  {
    hide Get, Taken, FatEntry, Named, FreeBlocks, SameFile, WellShaped, CString, Inode, InodeNo, Name, Bitmap,
      OwnersHold, SlotsOwn, FreeZero;
    FileNumber(d3, files);
    forall j: nat | j < FAT_SIZE
      ensures j != files ==> InodeNo(d3, j) == InodeNo(d, j) && Name(d3, j) == Name(d, j)
      ensures InodeNo(d3, j) != 0 ==> WellShaped(d3, j)
    {
      if j != files { assert SameFile(d, d3, j); SameFileMeans(d, d3, j); SameInodeNo(d, d3, j); }
    }
  }

  lemma FileNumber(d: Disk, i: nat)
    requires IsDisk(d) && IsFile(d, i)
    ensures InodeNo(d, i) != 0 && i < FAT_SIZE
  {}

  /** An empty file is well shaped. */
  lemma EmptyShape(d2: Disk, d3: Disk, i: nat)
    requires IsDisk(d2) && IsDisk(d3) && i < FAT_SIZE && Prefix(d2, i, 0, false) && SameNames(d2, d3)
    requires Size(Inode(d3, i)) == 0 && Blocks(Inode(d3, i)) == 0
    ensures WellShaped(d3, i) && Contents(d3, i) == []
  {
    hide Named, Get, FatEntry, Inode;
    PrefixSame(d2, d3, i, 0, false);
  }

  /** create: the new, empty file. */
  lemma CreateDone(d: Disk, owner: Owners, files: nat, unused: nat, d2: Disk, owner2: Owners, b: nat, x: Block,
                   name: seq<byte>, unused3: nat)
    requires FsOk(d, owner, files, unused) && files < FAT_SIZE && NameFree(d, name)
    requires FreshEntry(d, d2, owner2, files, b) && NewInode(x, name) && unused3 == |FreeBlocks(d2)|
    ensures 3 <= b < BLOCK_NUM
    ensures var d3 := d2[b := x];
      && FsOk(d3, owner2, files + 1, unused3) && IsFile(d3, files) && InodeNo(d3, files) == b
      && Name(d3, files) == name && Contents(d3, files) == [] && OthersKept(d, d3, files)
  {
    hide Get, Taken, FatEntry, Named, FreeBlocks, SameFile, WellShaped, CString, SameNumbers, ZeroBlock, Contents, FsOk,
      Bitmap, OwnersHold, SlotsOwn, FreeZero, OthersKept, BlocksKept, Prefix, SameNames, Inode, InodeNo;
    NewInodeNumbers(x, name);
    ChangeHeader(d2, owner2, files, x);
    var d3 := d2[b := x];
    EmptyShape(d2, d3, files);
    OthersKeptTrans(d, d2, d3, files);
    FileAdded(d, owner, d3, owner2, files, unused, unused3, name);
  }
}
