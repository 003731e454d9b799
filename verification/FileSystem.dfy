// kernel/fs.c: the block file system, with its image updated in place.
module FileSystem {
  import opened Bits
  import opened Bytes
  import opened FsLayout
  import opened FsOwners
  import opened FsFiles
  import opened FsGrow
  import opened FsWrite
  import opened FsCreate

  /** The disk after alloc_free_block has taken block b. */
  function TakenDisk(d: Disk, b: nat): Disk
    requires |d| == BLOCK_NUM && b < BLOCK_NUM && Unused(d[0]) > 0
  {
    d[0 := SetUnused(d[0], Unused(d[0]) - 1)][1 := Take(d[1], b)]
  }

  /** The superblock's count is right. */
  ghost predicate Counted(d: Disk) {
    IsDisk(d) && Unused(d[0]) == |FreeBlocks(d)|
  }

  lemma FreeBound(d: Disk)
    requires IsDisk(d)
    ensures |FreeBlocks(d)| <= BLOCK_NUM
  {
    hide Taken;
    SubsetCard(FreeBlocks(d), BLOCK_NUM);
  }

  lemma {:induction false} SubsetCard(s: set<nat>, n: nat)
    requires forall b :: b in s ==> b < n
    ensures |s| <= n
  {
    if n > 0 {
      SubsetCard(s - {n - 1}, n - 1);
    } else {
      assert s == {};
    }
  }

  lemma Slices(s: seq<byte>, a: nat, b: nat, c: nat)
    requires a <= b <= c <= |s|
    ensures s[a..b] + s[b..c] == s[a..c]
  {}

  class Image {
    const disk: array<Block>
    ghost var owner: Owners

    constructor (image: array<Block>)
      ensures disk == image && owner == map[]
    {
      disk := image;
      owner := map[];
    }

    /** alloc_free_block: -1 exactly when no block is clear, otherwise the lowest
        clear block, now marked. */
    method AllocFreeBlock() returns (r: int)
      requires disk.Length == BLOCK_NUM && Counted(disk[..])
      modifies disk
      ensures r == -1 <==> FreeBlocks(old(disk[..])) == {}
      ensures r == -1 ==> disk[..] == old(disk[..])
      ensures r != -1 ==>
        && 0 <= r < BLOCK_NUM && !Taken(old(disk[1]), r) && (forall x: nat :: x < r ==> Taken(old(disk[1]), x))
        && Unused(old(disk[0])) > 0 && disk[..] == TakenDisk(old(disk[..]), r)
    {
      hide Get, Put, Take, Taken, Or, And, Bit, Pow2;
      ghost var d := disk[..];
      if Unused(disk[0]) == 0 { return -1; }
      disk[0] := SetUnused(disk[0], Unused(disk[0]) - 1);
      ghost var d1 := disk[..];
      assert d1 == d[0 := SetUnused(d[0], Unused(d[0]) - 1)];
      var i := 0;
      while i < BLOCK_NUM
        invariant 0 <= i <= BLOCK_NUM && disk[..] == d1
        invariant forall x: nat :: x < i ==> Taken(d[1], x)
      {
        AndPow2(MapWord(disk[1], i / 32), i % 32);
        TakenIs(disk[1], i);
        if And(MapWord(disk[1], i / 32), Pow2(i % 32)) == 0 {
          disk[1] := Take(disk[1], i);
          assert disk[..] == TakenDisk(d, i);
          return i;
        }
        i := i + 1;
      }
      assert false;  // the count says that a block is clear
      return -1;
    }

    /** `direct[k] = alloc_free_block()` */
    method AddDirectBlock(f: nat, k: nat, ghost i: nat, ghost d0: Disk, ghost c0: nat, ghost ind: bool)
      requires disk.Length == BLOCK_NUM && Counted(disk[..]) && FreeBlocks(disk[..]) != {}
      requires k < NDIRECT && Growing(d0, disk[..], owner, {}, i, c0, k, ind) && f == InodeNo(disk[..], i)
      modifies disk, this
      ensures Counted(disk[..]) && |FreeBlocks(disk[..])| == |FreeBlocks(old(disk[..]))| - 1
      ensures Growing(d0, disk[..], owner, {}, i, c0, k + 1, ind) && f == InodeNo(disk[..], i)
    {
      hide Get, Put, Take, Taken, Or, And, Bit, Pow2, Named, InodeNo, Inode, Prefix, OthersKept, BlocksKept, FatEntry,
        Owned, SetDirect;
      ghost var d := disk[..];
      ghost var s := DirectSlot(i, k);
      GrowingNext(d0, d, owner, {}, i, c0, k, ind, s);
      var b := AllocFreeBlock();
      AddDirect(d, owner, i, k, b, disk[0]);
      ghost var owner' := owner[b as nat := s];
      disk[f] := SetDirect(disk[f], k, b);
      ghost var d2 := d[0 := disk[0]][1 := Take(d[1], b)];
      assert disk[..] == d2[f := SetDirect(d2[f], k, b)];
      GrowStep(d0, d, disk[..], owner, owner', {}, {}, i, c0, k, ind, s);
      CountedStep(d, b, disk[..]);
      owner := owner';
    }

    /** `inode->indirect = alloc_free_block()` */
    method AddIndirectBlock(f: nat, ghost i: nat, ghost d0: Disk, ghost c0: nat, ghost c: nat)
      requires disk.Length == BLOCK_NUM && Counted(disk[..]) && FreeBlocks(disk[..]) != {}
      requires Growing(d0, disk[..], owner, {}, i, c0, c, false) && f == InodeNo(disk[..], i)
      modifies disk, this
      ensures Counted(disk[..]) && |FreeBlocks(disk[..])| == |FreeBlocks(old(disk[..]))| - 1
      ensures Growing(d0, disk[..], owner, {}, i, c0, c, true) && f == InodeNo(disk[..], i)
    {
      hide Get, Put, Take, Taken, Or, And, Bit, Pow2, Named, InodeNo, Inode, Prefix, OthersKept, BlocksKept, FatEntry,
        Owned, SetIndirect;
      ghost var d := disk[..];
      ghost var s := IndirectSlot(i);
      GrowingNext(d0, d, owner, {}, i, c0, c, false, s);
      var b := AllocFreeBlock();
      AddIndirect(d, owner, i, b, disk[0]);
      ghost var owner' := owner[b as nat := s];
      disk[f] := SetIndirect(disk[f], b);
      ghost var d2 := d[0 := disk[0]][1 := Take(d[1], b)];
      assert disk[..] == d2[f := SetIndirect(d2[f], b)];
      GrowStep(d0, d, disk[..], owner, owner', {}, {}, i, c0, c, false, s);
      CountedStep(d, b, disk[..]);
      owner := owner';
    }

    /** `indirect[j] = alloc_free_block()`, where n is the indirect block */
    method AddFarBlock(n: nat, j: nat, ghost i: nat, ghost d0: Disk, ghost c0: nat)
      requires disk.Length == BLOCK_NUM && Counted(disk[..]) && FreeBlocks(disk[..]) != {}
      requires j < NFAR && Growing(d0, disk[..], owner, {}, i, c0, NDIRECT + j, true)
      requires n == Named(disk[..], IndirectSlot(i))
      modifies disk, this
      ensures Counted(disk[..]) && |FreeBlocks(disk[..])| == |FreeBlocks(old(disk[..]))| - 1
      ensures Growing(d0, disk[..], owner, {}, i, c0, NDIRECT + j + 1, true) && n == Named(disk[..], IndirectSlot(i))
    {
      hide Get, Put, Take, Taken, Or, And, Bit, Pow2, Named, InodeNo, Inode, OthersKept, BlocksKept, FatEntry, Owned,
        SetFar, BlockNo;
      ghost var d := disk[..];
      ghost var s := FarSlot(i, j);
      GrowingNext(d0, d, owner, {}, i, c0, NDIRECT + j, true, s);
      var b := AllocFreeBlock();
      AddFar(d, owner, i, j, b, disk[0]);
      ghost var owner' := owner[b as nat := s];
      disk[n] := SetFar(disk[n], j, b);
      ghost var d2 := d[0 := disk[0]][1 := Take(d[1], b)];
      assert disk[..] == d2[n := SetFar(d2[n], j, b)];
      GrowStep(d0, d, disk[..], owner, owner', {}, {}, i, c0, NDIRECT + j, true, s);
      CountedStep(d, b, disk[..]);
      owner := owner';
    }

    /** The first loop of increase_size: fill the direct pointers. */
    method FillDirect(f: nat, want: nat, ghost i: nat, ghost d0: Disk, ghost c0: nat,
                      ghost ind: bool) returns (num: nat)
      requires disk.Length == BLOCK_NUM && Counted(disk[..])
      requires i < FAT_SIZE && Growing(d0, disk[..], owner, {}, i, c0, c0, ind) && f == InodeNo(disk[..], i)
      requires want <= |FreeBlocks(disk[..])| && c0 + want <= MAX_BLOCKS
      modifies disk, this
      ensures Counted(disk[..]) && num <= want
      ensures Growing(d0, disk[..], owner, {}, i, c0, c0 + want - num, ind) && f == InodeNo(disk[..], i)
      ensures |FreeBlocks(disk[..])| == |FreeBlocks(old(disk[..]))| - (want - num)
      ensures num > 0 ==> c0 + want - num >= NDIRECT
      ensures num < want ==> c0 + want - num <= NDIRECT
    {
      hide Get, Put, Take, Taken, Or, And, Bit, Pow2, Named, InodeNo, Inode, Growing, FatEntry, FreeBlocks, Direct,
        Counted;
      num := want;
      var k := 0;
      while k < NDIRECT && num != 0
        invariant k <= NDIRECT && num <= want && i < FAT_SIZE
        invariant Counted(disk[..]) && |FreeBlocks(disk[..])| == |FreeBlocks(old(disk[..]))| - (want - num)
        invariant Growing(d0, disk[..], owner, {}, i, c0, c0 + want - num, ind) && f == InodeNo(disk[..], i)
        invariant num > 0 ==> k <= c0 + want - num
        invariant num < want ==> c0 + want - num <= NDIRECT
      {
        ghost var c := c0 + want - num;
        DirectIsNamed(d0, disk[..], owner, {}, i, c0, c, ind, k);
        if Direct(disk[f], k) == 0 {
          AddDirectBlock(f, k, i, d0, c0, ind);
          num := num - 1;
        }
        k := k + 1;
      }
    }

    /** The second loop of increase_size: fill the far pointers. */
    method FillFar(n: nat, want: nat, ghost i: nat, ghost d0: Disk, ghost c0: nat, ghost c1: nat)
      requires disk.Length == BLOCK_NUM && Counted(disk[..])
      requires i < FAT_SIZE && Growing(d0, disk[..], owner, {}, i, c0, c1, true)
      requires n == Named(disk[..], IndirectSlot(i))
      requires want <= |FreeBlocks(disk[..])| && NDIRECT <= c1 && c1 + want <= MAX_BLOCKS
      modifies disk, this
      ensures Counted(disk[..])
      ensures Growing(d0, disk[..], owner, {}, i, c0, c1 + want, true)
      ensures |FreeBlocks(disk[..])| == |FreeBlocks(old(disk[..]))| - want
    {
      hide Get, Put, Take, Taken, Or, And, Bit, Pow2, Named, InodeNo, Inode, Growing, FatEntry, FreeBlocks, Far,
        Counted;
      var num: nat := want;
      var j := 0;
      while j < NFAR && num != 0
        invariant j <= NFAR && num <= want && i < FAT_SIZE
        invariant Counted(disk[..]) && |FreeBlocks(disk[..])| == |FreeBlocks(old(disk[..]))| - (want - num)
        invariant Growing(d0, disk[..], owner, {}, i, c0, c1 + want - num, true)
        invariant n == Named(disk[..], IndirectSlot(i))
        invariant num > 0 ==> NDIRECT + j <= c1 + want - num
      {
        ghost var c := c1 + want - num;
        FarIsNamed(d0, disk[..], owner, {}, i, c0, c, j);
        if Far(disk[n], j) == 0 {
          AddFarBlock(n, j, i, d0, c0);
          num := num - 1;
        }
        j := j + 1;
      }
    }

    /** increase_size: the file in inode block f gets the blocks for newSize bytes. */
    method IncreaseSize(f: nat, newSize: nat, ghost i: nat)
      requires disk.Length == BLOCK_NUM && Counted(disk[..]) && Owned(disk[..], owner, {})
      requires IsFile(disk[..], i) && f == InodeNo(disk[..], i) && WellShaped(disk[..], i)
      requires newSize <= MAX_BLOCKS * BLOCK_SIZE && Room(disk[..], i, newSize)
      modifies disk, this
      ensures Counted(disk[..]) && Owned(disk[..], owner, {})
      ensures Enlarged(old(disk[..]), disk[..], i, Max(Blocks(Inode(old(disk[..]), i)), BlocksFor(newSize)))
    {
      hide Get, Put, Take, Taken, Named, InodeNo, Growing, FatEntry, FreeBlocks, Counted, Owned, SetBlocks, Prefix,
        Enlarged, OthersKept, BlocksKept, SameNames, SameNumbers;
      ghost var d0 := disk[..];
      FileInode(d0, owner, i);
      EnlargedSelf(d0, i);
      if Blocks(disk[f]) * BLOCK_SIZE >= newSize { return; }
      var c0 := Blocks(disk[f]);
      var num := (newSize + BLOCK_SIZE - 1) / BLOCK_SIZE - c0;
      var c := c0 + num;
      RecordBlocks(d0, owner, i, c);
      disk[f] := SetBlocks(disk[f], c);
      ghost var d1 := disk[..];
      assert d1 == d0[f := SetBlocks(d0[f], c)];
      var rest := FillDirect(f, num, i, d1, c0, c0 > NDIRECT);
      if rest > 0 {
        IndirectIsNamed(d1, disk[..], owner, {}, i, c0, c - rest, c0 > NDIRECT);
        if Indirect(disk[f]) == 0 {
          AddIndirectBlock(f, i, d1, c0, c - rest);
        }
        IndirectIsNamed(d1, disk[..], owner, {}, i, c0, c - rest, true);
        var n := Indirect(disk[f]);
        FillFar(n, rest, i, d1, c0, c - rest);
      }
      EnlargedIs(d0, d1, disk[..], owner, i, c0, c, c > NDIRECT);
      GrowingOwned(d1, disk[..], owner, {}, i, c0, c, c > NDIRECT);
    }

    /** The block number of a file's block n, as read and write find it. */
    method BlockOf(f: nat, n: nat, ghost i: nat) returns (b: nat)
      requires disk.Length == BLOCK_NUM && Owned(disk[..], owner, {}) && IsFile(disk[..], i)
      requires f == InodeNo(disk[..], i)
      requires n < MAX_BLOCKS && BlockNo(disk[..], i, n) != 0
      ensures b == BlockNo(disk[..], i, n) && 3 <= b < BLOCK_NUM
    {
      hide Get, Named, FatEntry, Taken, Owned, BlockNo;
      FileInode(disk[..], owner, i);
      FileBlock(disk[..], owner, i, n);
      PointerPath(disk[..], owner, i, n);
      if n < NDIRECT { return Direct(disk[f], n); }
      var ind := Indirect(disk[f]);
      return Far(disk[ind], n - NDIRECT);
    }

    /** The loop that copies bytes into a block. */
    method CopyToBlock(b: nat, bo: nat, bytes: seq<byte>)
      requires b < disk.Length && bo + |bytes| <= BLOCK_SIZE
      modifies disk
      ensures disk[..] == old(disk[..])[b := PutBytes(old(disk[b]), bo, bytes)]
    {
      hide PutBytes;
      ghost var d := disk[..];
      PutNothing(d[b], bo, bytes);
      for j := 0 to |bytes|
        invariant disk[..] == d[b := PutBytes(d[b], bo, bytes[..j])]
      {
        PutBytesSnoc(d[b], bo, bytes, j);
        assert disk[b] == PutBytes(d[b], bo, bytes[..j]);
        disk[b] := disk[b][bo + j := bytes[j]];
      }
      assert bytes[..|bytes|] == bytes;
    }

    /** The copying loop of sys_write. */
    method WriteBlocks(f: nat, off: nat, buf: seq<byte>, ghost i: nat, ghost c: nat) returns (num: nat)
      requires disk.Length == BLOCK_NUM && Owned(disk[..], owner, {}) && IsFile(disk[..], i)
      requires f == InodeNo(disk[..], i)
      requires Prefix(disk[..], i, c, c > NDIRECT) && off + |buf| <= c * BLOCK_SIZE
      modifies disk
      ensures num == |buf| && Written(old(disk[..]), disk[..], owner, i, off, buf)
    {
      hide Get, Named, FatEntry, Taken, Owned, BlockNo, Written, PutBytes, SameNames, InodeNo;
      ghost var d := disk[..];
      WrittenNothing(d, owner, i, off);
      num := 0;
      var n: nat := off / BLOCK_SIZE;
      var bo: nat := off % BLOCK_SIZE;
      assert buf[..0] == [];
      while num < |buf|
        invariant num <= |buf| && Written(d, disk[..], owner, i, off, buf[..num])
        invariant bo < BLOCK_SIZE && (num < |buf| ==> BLOCK_SIZE * n + bo == off + num)
      {
        ghost var d1 := disk[..];
        WrittenParts(d, d1, owner, i, off, buf[..num], n, c);
        var b := BlockOf(f, n, i);
        var len := if |buf| - num < BLOCK_SIZE - bo then |buf| - num else BLOCK_SIZE - bo;
        ghost var piece := buf[num..num + len];
        WriteInBlock(d1, owner, i, n, bo, piece);
        CopyToBlock(b, bo, buf[num..num + len]);
        WrittenMore(d, d1, disk[..], owner, i, off, buf[..num], piece);
        assert buf[..num] + piece == buf[..num + len];
        num := num + len;
        bo := 0;
        n := n + 1;
      }
      assert buf[..num] == buf;
    }

    /** sys_write on an ordinary file, at off <= size. */
    method WriteInode(f: nat, off: nat, buf: seq<byte>, ghost i: nat, ghost files: nat) returns (num: nat)
      requires disk.Length == BLOCK_NUM && Mounted(disk[..], owner, files) && IsFile(disk[..], i)
      requires f == InodeNo(disk[..], i)
      requires off <= Size(Inode(disk[..], i)) && off + |buf| <= MAX_BLOCKS * BLOCK_SIZE
      requires Room(disk[..], i, off + |buf|)
      modifies disk, this
      ensures Mounted(disk[..], owner, files) && num == |buf|
      ensures IsFile(disk[..], i) && InodeNo(disk[..], i) == f && Name(disk[..], i) == Name(old(disk[..]), i)
      ensures Contents(disk[..], i) == Splice(Contents(old(disk[..]), i), off, buf)
      ensures OthersKept(old(disk[..]), disk[..], i)
    {
      hide Get, Put, Named, InodeNo, FatEntry, FreeBlocks, Owned, Written, Enlarged, SameNames, OthersKept, BlocksKept,
        Contents, Splice, SetSize, SameNumbers, WellShaped, Name, CString, Prefix;
      ghost var d0, owner0 := disk[..], owner;
      MountedParts(d0, owner, files, i);
      IncreaseSize(f, off + |buf|, i);
      ghost var d1 := disk[..];
      ghost var c := Max(Blocks(Inode(d0, i)), BlocksFor(off + |buf|));
      EnlargedParts(d0, d1, i, c);
      CoversSize(d0, i, off + |buf|);
      num := WriteBlocks(f, off, buf, i, c);
      ghost var d2 := disk[..];
      WrittenOwned(d1, d2, owner, i, off, buf);
      FileInode(d2, owner, i);
      if Size(disk[f]) < off + num {
        disk[f] := SetSize(disk[f], off + num);
      }
      assert disk[..] == NewSize(d2, i, off + |buf|);
      WriteDone(d0, owner0, d1, d2, owner, i, c, off, buf, files);
    }

    /** read_from_inode at off <= size: up to count bytes of the file. */
    method ReadInode(f: nat, off: nat, count: nat, ghost i: nat) returns (buf: seq<byte>)
      requires disk.Length == BLOCK_NUM && Owned(disk[..], owner, {})
      requires IsFile(disk[..], i) && f == InodeNo(disk[..], i) && WellShaped(disk[..], i)
      requires off <= Size(Inode(disk[..], i))
      ensures var s := Contents(disk[..], i);
        buf == if off + count <= |s| then s[off..off + count] else s[off..]
    {
      hide Get, Named, FatEntry, Taken, Owned, BlockNo, WellShaped, InodeNo, Inode, Contents;
      ghost var d := disk[..];
      ghost var s := Contents(d, i);
      FileInode(d, owner, i);
      assert |s| == Size(disk[f]);
      var maxSize := if Size(disk[f]) - off < count then Size(disk[f]) - off else count;
      buf := [];
      if maxSize <= 0 { return; }
      var num: nat := 0;
      var n: nat := off / BLOCK_SIZE;
      var bo: nat := off % BLOCK_SIZE;
      while num < maxSize
        invariant 0 <= num <= maxSize && off + num <= |s| && buf == s[off..off + num]
        invariant bo < BLOCK_SIZE && (num < maxSize ==> BLOCK_SIZE * n + bo == off + num)
      {
        ShapedBlock(d, owner, i, n);
        var b := BlockOf(f, n, i);
        var len: nat := if maxSize - num < BLOCK_SIZE - bo then maxSize - num else BLOCK_SIZE - bo;
        ReadPiece(d, i, n, bo, len);
        assert disk[b] == d[b];
        Slices(s, off, off + num, off + num + len);
        buf := buf + disk[b][bo..bo + len];
        num := num + len;
        bo := 0;
        n := n + 1;
      }
    }

    /** lookup: the inode block of the file with this name, or 0. */
    method Lookup(name: seq<byte>) returns (r: nat)
      requires disk.Length == BLOCK_NUM && Owned(disk[..], owner, {})
      ensures r != 0 ==> exists i: nat :: IsNamed(disk[..], i, name) && InodeNo(disk[..], i) == r
      ensures r == 0 ==> forall i: nat :: !IsNamed(disk[..], i, name)
    {
      hide Get, Taken, Owned, CString, NameField, FatEntry;
      ghost var d := disk[..];
      var i := 0;
      while i < FAT_SIZE
        invariant 0 <= i <= FAT_SIZE && forall j: nat :: j < i ==> !IsNamed(d, j, name)
      {
        var f := FatEntry(disk[2], i);
        if f != 0 {
          EntryUsable(d, owner, i);
          if CString(NameField(disk[f])) == name {
            ghost var j: nat := i;
            assert d == disk[..];
            assert IsNamed(d, j, name) && InodeNo(d, j) == f;
            return f;
          }
        }
        i := i + 1;
      }
      r := 0;
    }

    /** Reading the root directory at offset off: the inode of the next file. */
    method ReadRoot(off: nat) returns (buf: seq<byte>, newOff: nat)
      requires disk.Length == BLOCK_NUM && Owned(disk[..], owner, {})
      ensures buf == [] ==> newOff == off
      ensures buf == [] ==> forall j: nat :: off / INODE_SIZE <= j < FAT_SIZE ==> InodeNo(disk[..], j) == 0
      ensures buf != [] ==> newOff == off + INODE_SIZE
      ensures buf != [] ==>
        exists j: nat :: FirstFrom(disk[..], off / INODE_SIZE, j) && buf == Inode(disk[..], j)[..INODE_SIZE]
    {
      hide Get, Taken, Owned, FatEntry;
      ghost var d := disk[..];
      var i := off / INODE_SIZE;
      while i < FAT_SIZE
        invariant off / INODE_SIZE <= i
        invariant forall j: nat :: off / INODE_SIZE <= j < i && j < FAT_SIZE ==> InodeNo(d, j) == 0
      {
        var f := FatEntry(disk[2], i);
        if f != 0 {
          EntryUsable(d, owner, i);
          assert FirstFrom(d, off / INODE_SIZE, i);
          return disk[f][..INODE_SIZE], off + INODE_SIZE;
        }
        i := i + 1;
      }
      return [], off;
    }

    /** alloc_inode: a block for a new inode, entered in the first free entry; -1
        when the table is full or no block is clear. */
    method AllocInode(ghost files: nat) returns (r: int)
      requires disk.Length == BLOCK_NUM && Owned(disk[..], owner, {}) && Counted(disk[..]) && FatPrefix(disk[..], files)
      modifies disk, this
      ensures r == -1 <==> files == FAT_SIZE || FreeBlocks(old(disk[..])) == {}
      ensures r == -1 ==> disk[..] == old(disk[..]) && owner == old(owner)
      ensures r != -1 ==> 0 <= r && FreshEntry(old(disk[..]), disk[..], owner, files, r) && Counted(disk[..])
    {
      hide Get, Put, Take, Taken, Named, FatEntry, SetFat, Owned, FreeBlocks, FreshEntry, Counted;
      ghost var d := disk[..];
      var i := 0;
      while i < FAT_SIZE
        invariant 0 <= i <= FAT_SIZE && i <= files && disk[..] == d && owner == old(owner)
      {
        EntryFree(d, files, i);
        if FatEntry(disk[2], i) == 0 {
          r := AllocFreeBlock();
          if r != -1 {
            AddEntry(d, owner, i, r, disk[0]);
            ghost var d1: Disk := d[0 := disk[0]][1 := Take(d[1], r)];
            disk[2] := SetFat(disk[2], i, r);
            ghost var d2: Disk := d1[2 := SetFat(d1[2], i, r)];
            assert disk[..] == d2;
            CountedStep(d, r, d2);
            owner := owner[r as nat := FatSlot(i)];
          }
          return;
        }
        i := i + 1;
      }
      r := -1;
    }

    /** The inode set up by create: no size, no blocks, the name. */
    method InitInode(b: nat, name: seq<byte>) returns (ghost x: Block)
      requires b < disk.Length && GoodName(name)
      modifies disk
      ensures NewInode(x, name) && disk[..] == old(disk[..])[b := x]
    {
      hide Get, Put, SetSize, SetBlocks, SetName, SetDirect, SetIndirect, Size, Blocks, Direct, Indirect, NameField,
        CString;
      ghost var d := disk[..];
      SizeSet(disk[b], 0);
      disk[b] := SetSize(disk[b], 0);
      BlocksSet(disk[b], 0);
      disk[b] := SetBlocks(disk[b], 0);
      NameSet(disk[b], name);
      disk[b] := SetName(disk[b], name);
      assert disk[..] == d[b := disk[b]];
      for k := 0 to NDIRECT
        invariant disk[..] == d[b := disk[b]]
        invariant CString(NameField(disk[b])) == name && Size(disk[b]) == 0 && Blocks(disk[b]) == 0
        invariant forall m: nat :: m < k ==> Direct(disk[b], m) == 0
      {
        ghost var y := disk[b];
        DirectSet(y, k, 0);
        disk[b] := SetDirect(disk[b], k, 0);
        assert disk[..] == d[b := disk[b]];
      }
      IndirectSet(disk[b], 0);
      disk[b] := SetIndirect(disk[b], 0);
      assert disk[..] == d[b := disk[b]];
      x := disk[b];
    }

    /** create: a new empty file of a name not in use. */
    method Create(name: seq<byte>, ghost files: nat) returns (b: nat)
      requires disk.Length == BLOCK_NUM && Mounted(disk[..], owner, files) && GoodName(name) && NameFree(disk[..], name)
      requires files < FAT_SIZE && FreeBlocks(disk[..]) != {}
      modifies disk, this
      ensures Mounted(disk[..], owner, files + 1) && InodeNo(disk[..], files) == b && IsNamed(disk[..], files, name)
      ensures Contents(disk[..], files) == [] && OthersKept(old(disk[..]), disk[..], files)
    {
      hide Get, Put, Named, FatEntry, Taken, FreeBlocks, Bitmap, OwnersHold, SlotsOwn, FreeZero, AllShaped, NamesUnique,
        NewInode, NameFree, FreshEntry, OthersKept, Contents, Name, Inode, InodeNo;
      ghost var d, owner0 := disk[..], owner;
      var idx := AllocInode(files);
      b := idx;
      ghost var d2 := disk[..];
      FreshParts(d, d2, owner, files, b);
      ghost var x := InitInode(b, name);
      CreateDone(d, owner0, files, Unused(d[0]), d2, owner, b, x, name, Unused(d2[0]));
      assert disk[..][0] == d2[0];
    }
  }

  lemma EntryFree(d: Disk, files: nat, i: nat)
    requires IsDisk(d) && FatPrefix(d, files) && i < FAT_SIZE && i <= files
    ensures FatEntry(d[2], i) == 0 <==> i == files
  {
    hide FatEntry;
    assert InodeNo(d, i) == FatEntry(d[2], i);
  }

  lemma FreshParts(d: Disk, d2: Disk, owner2: Owners, i: nat, b: nat)
    requires FreshEntry(d, d2, owner2, i, b)
    ensures IsDisk(d) && IsDisk(d2) && 3 <= b < BLOCK_NUM && OthersKept(d, d2, i)
  {
    hide FatEntry, Taken, Get, SameFile;
    FileInode(d2, owner2, i);
  }

  /** Entry i of the inode table is a file of this name. */
  ghost predicate IsNamed(d: Disk, i: nat, name: seq<byte>)
    requires IsDisk(d)
  {
    IsFile(d, i) && Name(d, i) == name
  }

  /** j is the first entry in use at or after a position. */
  ghost predicate FirstFrom(d: Disk, from: nat, j: nat)
    requires IsDisk(d)
  {
    from <= j && IsFile(d, j) && forall k: nat :: from <= k < j ==> InodeNo(d, k) == 0
  }

  lemma EntryUsable(d: Disk, owner: Owners, i: nat)
    requires Owned(d, owner, {}) && i < FAT_SIZE && InodeNo(d, i) != 0
    ensures 3 <= InodeNo(d, i) < BLOCK_NUM && IsFile(d, i) && Inode(d, i) == d[InodeNo(d, i)]
  {
    hide Get, Taken, FatEntry, Named;
    InodeNoNamed(d, i);
    OwnerOf(d, owner, {}, FatSlot(i));
  }

  /** With a mounted image, the k-th read of the root from offset 0 returns the
      inode of file k, and after the last file nothing. */
  lemma RootOrder(d: Disk, owner: Owners, files: nat, k: nat)
    requires Mounted(d, owner, files)
    ensures k < files ==> FirstFrom(d, INODE_SIZE * k / INODE_SIZE, k)
    ensures k < files ==> forall j: nat :: FirstFrom(d, INODE_SIZE * k / INODE_SIZE, j) ==> j == k
    ensures k >= files ==> forall j: nat :: !FirstFrom(d, INODE_SIZE * k / INODE_SIZE, j)
  {
    hide Get, Taken, FatEntry, Named, Owned, AllShaped, NamesUnique, Inode, InodeNo, FreeBlocks;
    assert INODE_SIZE * k / INODE_SIZE == k;
    if k < files { EntryUsable(d, owner, k); }
    forall j: nat | IsFile(d, j) ensures j < files { FileHasNumber(d, j); }
    if k < files { FileHasNumber(d, k); }
  }

  lemma FileHasNumber(d: Disk, j: nat)
    requires IsDisk(d) && IsFile(d, j)
    ensures InodeNo(d, j) != 0 && j < FAT_SIZE
  {}

  /** Names are unique, so a lookup has one answer. */
  lemma LookupUnique(d: Disk, owner: Owners, files: nat, i: nat, j: nat, name: seq<byte>)
    requires Mounted(d, owner, files) && IsNamed(d, i, name) && IsNamed(d, j, name)
    ensures i == j
  {
    hide Get, Taken, FatEntry, Named, Owned, AllShaped, Inode, InodeNo, FreeBlocks, Name;
    FileHasNumber(d, i);
    FileHasNumber(d, j);
  }

  /** The image after the size has been raised to cover end. */
  function NewSize(d: Disk, i: nat, end: nat): Disk
    requires |d| == BLOCK_NUM && i < FAT_SIZE && InodeNo(d, i) < BLOCK_NUM
  {
    if Size(d[InodeNo(d, i)]) < end then d[InodeNo(d, i) := SetSize(d[InodeNo(d, i)], end)] else d
  }

  lemma EnlargedParts(d0: Disk, d1: Disk, i: nat, c: nat)
    requires Enlarged(d0, d1, i, c)
    ensures IsDisk(d1) && IsFile(d1, i) && InodeNo(d1, i) == InodeNo(d0, i) && Prefix(d1, i, c, c > NDIRECT)
  {}

  lemma CoversSize(d: Disk, i: nat, n: nat)
    requires IsDisk(d) && i < FAT_SIZE && WellShaped(d, i) && n <= MAX_BLOCKS * BLOCK_SIZE
    ensures var c := Max(Blocks(Inode(d, i)), BlocksFor(n)); n <= c * BLOCK_SIZE && c <= MAX_BLOCKS
    ensures Size(Inode(d, i)) <= Max(Blocks(Inode(d, i)), BlocksFor(n)) * BLOCK_SIZE
  {
    hide Get, Named, FatEntry, Inode;
  }

  lemma WrittenOwned(d1: Disk, d2: Disk, owner: Owners, i: nat, off: nat, data: seq<byte>)
    requires Written(d1, d2, owner, i, off, data)
    ensures IsDisk(d2) && Owned(d2, owner, {}) && IsFile(d2, i) && InodeNo(d2, i) == InodeNo(d1, i)
  {}

  /** What the next round of the write loop relies on. */
  lemma WrittenParts(d: Disk, d1: Disk, owner: Owners, i: nat, off: nat, data: seq<byte>, n: nat, c: nat)
    requires Written(d, d1, owner, i, off, data) && Prefix(d, i, c, c > NDIRECT) && n < c
    ensures IsDisk(d1) && Owned(d1, owner, {}) && IsFile(d1, i) && InodeNo(d1, i) == InodeNo(d, i)
    ensures n < MAX_BLOCKS && BlockNo(d1, i, n) != 0
  {
    hide Get, Named, FatEntry, Taken, ByteAt, FreeBlocks;
    BlockSlotProper(i, n);
    assert BlockNo(d1, i, n) == BlockNo(d, i, n);
  }

  /** Setting the size changes the header only. */
  lemma SetNewSize(d2: Disk, owner: Owners, i: nat, end: nat)
    requires Owned(d2, owner, {}) && IsFile(d2, i) && end < 0x1_0000_0000
    ensures var d3 := NewSize(d2, i, end);
      && Owned(d3, owner, {}) && SameNames(d2, d3) && FreeBlocks(d3) == FreeBlocks(d2) && d3[0] == d2[0]
      && IsFile(d3, i) && InodeNo(d3, i) == InodeNo(d2, i)
      && OthersKept(d2, d3, i) && BlocksKept(d2, d3, i, MAX_BLOCKS)
      && Size(Inode(d3, i)) == Max(Size(Inode(d2, i)), end)
      && Blocks(Inode(d3, i)) == Blocks(Inode(d2, i)) && NameField(Inode(d3, i)) == NameField(Inode(d2, i))
  {
    hide Get, Taken, FatEntry, Named, SetSize, SameNumbers, FreeBlocks, SameFile;
    FileInode(d2, owner, i);
    var f := InodeNo(d2, i);
    if Size(d2[f]) < end {
      SizeSet(d2[f], end);
      ChangeHeader(d2, owner, i, SetSize(d2[f], end));
    } else {
      NothingChanged(d2, i);
    }
  }

  lemma NothingChanged(d: Disk, i: nat)
    requires IsDisk(d) && i < FAT_SIZE
    ensures OthersKept(d, d, i) && BlocksKept(d, d, i, MAX_BLOCKS) && SameNames(d, d)
  {}

  /** Writing refines splicing, and leaves everything else alone. */
  lemma WriteDone(d0: Disk, owner0: Owners, d1: Disk, d2: Disk, owner: Owners, i: nat, c: nat, off: nat,
                  data: seq<byte>, files: nat)
    requires Mounted(d0, owner0, files) && IsFile(d0, i) && off <= Size(Inode(d0, i)) && Counted(d1)
    requires Enlarged(d0, d1, i, c) && Written(d1, d2, owner, i, off, data)
    requires off + |data| <= c * BLOCK_SIZE && Size(Inode(d0, i)) <= c * BLOCK_SIZE
    ensures var d3 := NewSize(d2, i, off + |data|);
      && Mounted(d3, owner, files) && IsFile(d3, i) && InodeNo(d3, i) == InodeNo(d0, i)
      && Name(d3, i) == Name(d0, i) && Contents(d3, i) == Splice(Contents(d0, i), off, data) && OthersKept(d0, d3, i)
  {
    hide Get, Taken, FatEntry, Named, SetSize, FreeBlocks, SameFile, CString, Contents, Splice, SameNames, OthersKept,
      BlocksKept, InodeNo, NewSize, Inode, WellShaped, Prefix, FsOk, ByteAt;
    MountedParts(d0, owner0, files, i);
    EnlargedBound(d0, d1, i, c);
    SetNewSize(d2, owner, i, off + |data|);
    var d3 := NewSize(d2, i, off + |data|);
    WrittenContents(d0, d1, d2, d3, owner, i, c, off, data);
    OthersKeptTrans(d0, d1, d2, i);
    OthersKeptTrans(d0, d2, d3, i);
    ShapedAfter(d1, d2, d3, i, c);
    FsOkKept(d0, owner0, d3, owner, files, Unused(d0[0]), Unused(d3[0]), i);
  }

  lemma EnlargedBound(d0: Disk, d1: Disk, i: nat, c: nat)
    requires Enlarged(d0, d1, i, c)
    ensures c <= MAX_BLOCKS
  {
    hide Named, Get;
  }

  ghost predicate Mounted(d: Disk, owner: Owners, files: nat) {
    IsDisk(d) && FsOk(d, owner, files, Unused(d[0]))
  }

  lemma MountedParts(d: Disk, owner: Owners, files: nat, i: nat)
    requires Mounted(d, owner, files) && IsFile(d, i)
    ensures Counted(d) && Owned(d, owner, {}) && WellShaped(d, i)
  {
    hide WellShaped, Owned, FreeBlocks, Inode, Name;
    assert InodeNo(d, i) != 0;
  }

  /** How the code reaches a block number from the inode. */
  lemma PointerPath(d: Disk, owner: Owners, i: nat, n: nat)
    requires Owned(d, owner, {}) && IsFile(d, i) && n < MAX_BLOCKS && BlockNo(d, i, n) != 0
    ensures var f := InodeNo(d, i);
      if n < NDIRECT then Direct(d[f], n) == BlockNo(d, i, n)
      else Indirect(d[f]) < BLOCK_NUM && Far(d[Indirect(d[f])], n - NDIRECT) == BlockNo(d, i, n)
  {
    hide Get, FatEntry, Taken;
    InodeNoNamed(d, i);
    if n >= NDIRECT {
      assert BlockNo(d, i, n) == Named(d, FarSlot(i, n - NDIRECT));
      assert Named(d, IndirectSlot(i)) == Indirect(d[InodeNo(d, i)]);
    }
  }

  /** There are enough clear blocks for the file to hold newSize bytes. */
  ghost predicate Room(d: Disk, i: nat, newSize: nat)
    requires IsDisk(d) && i < FAT_SIZE
  {
    var c0 := Blocks(Inode(d, i));
    BlocksTaken(c0, Max(c0, BlocksFor(newSize))) <= |FreeBlocks(d)|
  }

  lemma FileInode(d: Disk, owner: Owners, i: nat)
    requires Owned(d, owner, {}) && IsFile(d, i)
    ensures 3 <= InodeNo(d, i) < BLOCK_NUM && Inode(d, i) == d[InodeNo(d, i)]
  {
    hide Get, Taken, FatEntry, Named;
    InodeNoNamed(d, i);
    OwnerOf(d, owner, {}, FatSlot(i));
  }

  /** Storing the new block count in the inode. */
  lemma RecordBlocks(d: Disk, owner: Owners, i: nat, c: nat)
    requires Owned(d, owner, {}) && Counted(d) && IsFile(d, i) && WellShaped(d, i) && c <= MAX_BLOCKS
    ensures 3 <= InodeNo(d, i)
    ensures var f := InodeNo(d, i); var d1 := d[f := SetBlocks(d[f], c)]; var c0 := Blocks(Inode(d, i));
      && Growing(d1, d1, owner, {}, i, c0, c0, c0 > NDIRECT) && Counted(d1) && FreeBlocks(d1) == FreeBlocks(d)
      && InodeNo(d1, i) == f && OthersKept(d, d1, i) && BlocksKept(d, d1, i, MAX_BLOCKS)
      && Blocks(Inode(d1, i)) == c && Size(Inode(d1, i)) == Size(Inode(d, i))
      && NameField(Inode(d1, i)) == NameField(Inode(d, i))
  {
    hide Get, Taken, FatEntry, Named, SetBlocks, SameNumbers, FreeBlocks, OthersKept, BlocksKept, SameNames, Owned;
    FileInode(d, owner, i);
    var f := InodeNo(d, i);
    BlocksSet(d[f], c);
    ChangeHeader(d, owner, i, SetBlocks(d[f], c));
    var d1 := d[f := SetBlocks(d[f], c)];
    var c0 := Blocks(Inode(d, i));
    PrefixSame(d, d1, i, c0, c0 > NDIRECT);
    GrowingStart(d1, owner, i, c0, c0 > NDIRECT);
  }

  lemma CountedStep(d: Disk, b: nat, d': Disk)
    requires Counted(d) && IsDisk(d') && b < BLOCK_NUM && Unused(d[0]) > 0 && d'[0] == SetUnused(d[0], Unused(d[0]) - 1)
    requires |FreeBlocks(d')| == |FreeBlocks(d)| - 1
    ensures Counted(d')
  {
    hide Get, Put, Taken, FreeBlocks;
    FreeBound(d);
    UnusedSet(d[0], Unused(d[0]) - 1);
  }

  lemma TakenIs(b: Block, i: nat)
    requires i < BLOCK_NUM
    ensures Taken(b, i) <==> Bit(MapWord(b, i / 32), i % 32)
  {}
}
