// Reading and writing file bytes block by block.
module FsWrite {
  import opened Bytes
  import opened FsLayout
  import opened FsOwners
  import opened FsFiles
  import opened FsGrow

  /** s with data written at off <= |s|, growing s if the data goes past its end. */
  function Splice(s: seq<byte>, off: nat, data: seq<byte>): seq<byte>
    requires off <= |s|
  {
    s[..off] + data + (if off + |data| < |s| then s[off + |data|..] else [])
  }

  /** The bytes of the data are at off, all others at their places, and nothing is lost. */
  lemma SpliceIs(s: seq<byte>, off: nat, data: seq<byte>)
    requires off <= |s|
    ensures var r := Splice(s, off, data);
      && |r| == (if |s| < off + |data| then off + |data| else |s|)
      && forall k: nat :: k < |r| ==> r[k] == (if off <= k < off + |data| then data[k - off] else s[k])
  {}

  /** A block with bytes written at off. */
  function PutBytes(b: Block, off: nat, bytes: seq<byte>): Block
    requires off + |bytes| <= BLOCK_SIZE
  {
    b[..off] + bytes + b[off + |bytes|..]
  }

  lemma PutBytesAt(b: Block, off: nat, bytes: seq<byte>, k: nat)
    requires off + |bytes| <= BLOCK_SIZE && k < BLOCK_SIZE
    ensures PutBytes(b, off, bytes)[k] == if off <= k < off + |bytes| then bytes[k - off] else b[k]
  {}

  lemma PutNothing(b: Block, off: nat, bytes: seq<byte>)
    requires off <= BLOCK_SIZE
    ensures PutBytes(b, off, bytes[..0]) == b
  {}

  lemma PutBytesSnoc(b: Block, off: nat, bytes: seq<byte>, j: nat)
    requires off + |bytes| <= BLOCK_SIZE && j < |bytes|
    ensures PutBytes(b, off, bytes[..j])[off + j := bytes[j]] == PutBytes(b, off, bytes[..j + 1])
  {}

  /** From d2 to d, data has been written at off into file i, nothing else. */
  ghost predicate Written(d2: Disk, d: Disk, owner: Owners, i: nat, off: nat, data: seq<byte>) {
    && IsDisk(d2) && Owned(d, owner, {}) && IsFile(d, i) && d[0] == d2[0]
    && SameNames(d2, d) && FreeBlocks(d) == FreeBlocks(d2) && InodeNo(d, i) == InodeNo(d2, i)
    && Inode(d, i) == Inode(d2, i) && OthersKept(d2, d, i)
    && forall x: nat :: ByteAt(d, i, x) == if off <= x < off + |data| then data[x - off] else ByteAt(d2, i, x)
  }

  lemma WrittenNothing(d: Disk, owner: Owners, i: nat, off: nat)
    requires Owned(d, owner, {}) && IsFile(d, i)
    ensures Written(d, d, owner, i, off, [])
  {}

  /** Block n of a file is a data block of its own. */
  lemma FileBlock(d: Disk, owner: Owners, i: nat, n: nat)
    requires Owned(d, owner, {}) && i < FAT_SIZE && n < MAX_BLOCKS && BlockNo(d, i, n) != 0
    ensures 3 <= BlockNo(d, i, n) < BLOCK_NUM && DataBlock(owner, {}, BlockNo(d, i, n))
    ensures owner[BlockNo(d, i, n)] == BlockSlot(i, n)
  {
    hide Named, Taken;
    BlockSlotProper(i, n);
    OwnerOf(d, owner, {}, BlockSlot(i, n));
  }

  lemma BlockSlotsDiffer(i: nat, n: nat, m: nat)
    requires n < MAX_BLOCKS && m < MAX_BLOCKS && n != m
    ensures BlockSlot(i, n) != BlockSlot(i, m)
  {}

  /** Writing bytes into one block of file i. */
  lemma WriteInBlock(d: Disk, owner: Owners, i: nat, n: nat, bo: nat, bytes: seq<byte>)
    requires Owned(d, owner, {}) && IsFile(d, i) && n < MAX_BLOCKS && BlockNo(d, i, n) != 0
    requires bo + |bytes| <= BLOCK_SIZE
    ensures 3 <= BlockNo(d, i, n) < BLOCK_NUM
    ensures var b := BlockNo(d, i, n);
      Written(d, d[b := PutBytes(d[b], bo, bytes)], owner, i, BLOCK_SIZE * n + bo, bytes)
  {
    hide Get, Taken, FatEntry, Named, FreeBlocks, SameFile, PutBytes, BlockSlot;
    var b := BlockNo(d, i, n);
    FileBlock(d, owner, i, n);
    var d' := d[b := PutBytes(d[b], bo, bytes)];
    WriteData(d, owner, {}, b, PutBytes(d[b], bo, bytes));
    FileKept(d, d', owner, i, n);
    forall x: nat
      ensures var o := BLOCK_SIZE * n + bo;
        ByteAt(d', i, x) == if o <= x < o + |bytes| then bytes[x - o] else ByteAt(d, i, x)
    {
      WriteByteAt(d, d', owner, i, n, bo, bytes, x);
    }
  }

  lemma FileKept(d: Disk, d': Disk, owner: Owners, i: nat, n: nat)
    requires Owned(d, owner, {}) && IsFile(d, i) && n < MAX_BLOCKS && BlockNo(d, i, n) != 0
    requires IsDisk(d') && SameNames(d, d') && forall x: nat :: x < BLOCK_NUM && x != BlockNo(d, i, n) ==> d'[x] == d[x]
    ensures InodeNo(d', i) == InodeNo(d, i) && Inode(d', i) == Inode(d, i) && OthersKept(d, d', i) && d'[0] == d[0]
  {
    hide Get, Taken, FatEntry, Named, SameFile, BlockSlot;
    FileBlock(d, owner, i, n);
    BlockSlotProper(i, n);
    InodeNoNamed(d, i);
    InodeNoNamed(d', i);
    OwnerOf(d, owner, {}, FatSlot(i));
    assert InodeNo(d, i) != BlockNo(d, i, n);
    forall j: nat | j < FAT_SIZE && j != i ensures SameFile(d, d', j) {
      InodeNoNamed(d, j);
      InodeNoNamed(d', j);
      OthersSame(d, d', owner, {}, j);
    }
  }

  lemma WriteByteAt(d: Disk, d': Disk, owner: Owners, i: nat, n: nat, bo: nat, bytes: seq<byte>, x: nat)
    requires Owned(d, owner, {}) && i < FAT_SIZE && n < MAX_BLOCKS && BlockNo(d, i, n) != 0 && IsDisk(d')
    requires SameNames(d, d')
    requires bo + |bytes| <= BLOCK_SIZE && BlockNo(d, i, n) < BLOCK_NUM
    requires d' == d[BlockNo(d, i, n) := PutBytes(d[BlockNo(d, i, n)], bo, bytes)]
    ensures var o := BLOCK_SIZE * n + bo;
      ByteAt(d', i, x) == if o <= x < o + |bytes| then bytes[x - o] else ByteAt(d, i, x)
  {
    hide Get, Taken, FatEntry, Named, BlockSlot, PutBytes;
    var m, k := x / BLOCK_SIZE, x % BLOCK_SIZE;
    if m < MAX_BLOCKS {
      BlockSlotProper(i, m);
      assert BlockNo(d', i, m) == BlockNo(d, i, m);
      if m == n {
        PutBytesAt(d[BlockNo(d, i, n)], bo, bytes, k);
      } else if BlockNo(d, i, m) != 0 {
        FileBlock(d, owner, i, n);
        FileBlock(d, owner, i, m);
        BlockSlotsDiffer(i, n, m);
      }
    }
  }

  /** Writing the next piece right after what has been written. */
  lemma WrittenMore(d2: Disk, d: Disk, d': Disk, owner: Owners, i: nat, off: nat, data: seq<byte>, more: seq<byte>)
    requires Written(d2, d, owner, i, off, data) && Written(d, d', owner, i, off + |data|, more)
    ensures Written(d2, d', owner, i, off, data + more)
  {
    hide Get, Taken, FatEntry, Named, BlockSlot, ByteAt, FreeBlocks, Inode, InodeNo, SameFile;
    forall j: nat | j < FAT_SIZE && j != i ensures SameFile(d2, d', j) { SameFileTrans(d2, d, d', j); }
  }

  // ---------- contents after the size is updated ----------

  /** After the blocks were made, the data written, and the size set. */
  lemma WrittenContents(d0: Disk, d1: Disk, d2: Disk, d3: Disk, owner: Owners, i: nat, c: nat, off: nat,
                        data: seq<byte>)
    requires IsDisk(d0) && IsFile(d0, i) && WellShaped(d0, i) && off <= Size(Inode(d0, i))
    requires Enlarged(d0, d1, i, c) && Written(d1, d2, owner, i, off, data)
    requires IsDisk(d3) && BlocksKept(d2, d3, i, MAX_BLOCKS)
    requires Size(Inode(d3, i)) == Max(Size(Inode(d0, i)), off + |data|)
    ensures Contents(d3, i) == Splice(Contents(d0, i), off, data)
  {
    hide Get, Taken, FatEntry, Named, BlockSlot, FreeBlocks, InodeNo, SameFile, Inode, Prefix, SameNames, OthersKept;
    var s, s3 := Contents(d0, i), Contents(d3, i);
    forall x: nat | x < |s3| ensures s3[x] == Splice(s, off, data)[x] {
      KeptByte(d2, d3, i, x);
      if x < Size(Inode(d0, i)) { OldByte(d0, d1, i, c, x); }
    }
  }

  lemma KeptByte(d: Disk, d': Disk, i: nat, x: nat)
    requires IsDisk(d) && IsDisk(d') && i < FAT_SIZE && BlocksKept(d, d', i, MAX_BLOCKS)
    ensures ByteAt(d', i, x) == ByteAt(d, i, x)
  {
    hide Get, Named;
    if x / BLOCK_SIZE < MAX_BLOCKS { assert SameBlock(d, d', i, x / BLOCK_SIZE); }
  }

  lemma OldByte(d0: Disk, d1: Disk, i: nat, c: nat, x: nat)
    requires IsDisk(d0) && IsFile(d0, i) && WellShaped(d0, i) && Enlarged(d0, d1, i, c) && x < Size(Inode(d0, i))
    ensures ByteAt(d1, i, x) == ByteAt(d0, i, x)
  {
    hide Get, Named, FatEntry, SameFile, FreeBlocks;
    assert SameBlock(d0, d1, i, x / BLOCK_SIZE);
  }

  lemma OthersKeptTrans(d0: Disk, d1: Disk, d2: Disk, i: nat)
    requires IsDisk(d0) && IsDisk(d1) && IsDisk(d2) && OthersKept(d0, d1, i) && OthersKept(d1, d2, i)
    ensures OthersKept(d0, d2, i)
  {
    hide SameFile;
    forall j: nat | j < FAT_SIZE && j != i ensures SameFile(d0, d2, j) { SameFileTrans(d0, d1, d2, j); }
  }

  /** A change to file i alone that keeps its shape and name keeps the invariant. */
  lemma FsOkKept(d0: Disk, owner0: Owners, d: Disk, owner: Owners, files: nat, unused0: nat, unused: nat, i: nat)
    requires FsOk(d0, owner0, files, unused0) && IsFile(d0, i)
    requires Owned(d, owner, {}) && unused == |FreeBlocks(d)| && IsFile(d, i) && InodeNo(d, i) == InodeNo(d0, i)
    requires WellShaped(d, i) && NameField(Inode(d, i)) == NameField(Inode(d0, i)) && OthersKept(d0, d, i)
    ensures FsOk(d, owner, files, unused)
  {
    hide Get, Taken, FatEntry, Named, FreeBlocks, SameFile, WellShaped, CString, Inode, InodeNo;
    forall j: nat | j < FAT_SIZE
      ensures InodeNo(d, j) == InodeNo(d0, j) && Name(d, j) == Name(d0, j)
      ensures InodeNo(d, j) != 0 ==> WellShaped(d, j)
    {
      if j != i { assert SameFile(d0, d, j); SameFileMeans(d0, d, j); SameInodeNo(d0, d, j); }
    }
  }

  lemma SameInodeNo(d0: Disk, d: Disk, j: nat)
    requires IsDisk(d0) && IsDisk(d) && j < FAT_SIZE && SameFile(d0, d, j)
    ensures InodeNo(d, j) == InodeNo(d0, j)
  {}

  /** The shape after writing: the block list covers the new size. */
  lemma ShapedAfter(d1: Disk, d2: Disk, d3: Disk, i: nat, c: nat)
    requires IsDisk(d1) && IsDisk(d2) && IsDisk(d3) && i < FAT_SIZE
    requires Prefix(d1, i, c, c > NDIRECT) && SameNames(d1, d2) && SameNames(d2, d3)
    requires Blocks(Inode(d3, i)) == c && Size(Inode(d3, i)) <= c * BLOCK_SIZE
    ensures WellShaped(d3, i)
  {
    hide Get, Named, FatEntry;
    PrefixSame(d1, d2, i, c, c > NDIRECT);
    PrefixSame(d2, d3, i, c, c > NDIRECT);
  }

  // ---------- reading back ----------

  /** Reading the range just written gives the data. */
  lemma SpliceRead(s: seq<byte>, off: nat, data: seq<byte>)
    requires off <= |s|
    ensures off + |data| <= |Splice(s, off, data)| && Splice(s, off, data)[off..off + |data|] == data
    ensures |Splice(s, off, data)| == Max(|s|, off + |data|)
  {}

  /** A change that keeps the other files keeps their names and contents. */
  lemma OthersKeptMeans(d: Disk, d': Disk, i: nat, j: nat)
    requires IsDisk(d) && IsDisk(d') && OthersKept(d, d', i) && j < FAT_SIZE && j != i
    ensures Contents(d', j) == Contents(d, j) && Name(d', j) == Name(d, j)
  {
    hide SameFile, Get, Named, Contents, Name;
    SameFileMeans(d, d', j);
  }

  /** Part of a block of a file, as read copies it. */
  lemma ReadPiece(d: Disk, i: nat, n: nat, bo: nat, len: nat)
    requires IsDisk(d) && i < FAT_SIZE && n < MAX_BLOCKS && Usable(BlockNo(d, i, n)) && bo + len <= BLOCK_SIZE
    requires BLOCK_SIZE * n + bo + len <= Size(Inode(d, i))
    ensures d[BlockNo(d, i, n)][bo..bo + len] == Contents(d, i)[BLOCK_SIZE * n + bo..BLOCK_SIZE * n + bo + len]
  {
    hide Named, Get;
    var s := Contents(d, i);
    var here, there := d[BlockNo(d, i, n)][bo..bo + len], s[BLOCK_SIZE * n + bo..BLOCK_SIZE * n + bo + len];
    forall k: nat | k < len ensures here[k] == there[k] {
      var x := BLOCK_SIZE * n + bo + k;
      assert s[x] == ByteAt(d, i, x);
      assert x / BLOCK_SIZE == n && x % BLOCK_SIZE == bo + k;
    }
  }

  lemma ShapedBlock(d: Disk, owner: Owners, i: nat, n: nat)
    requires Owned(d, owner, {}) && IsFile(d, i) && WellShaped(d, i) && n * BLOCK_SIZE < Size(Inode(d, i))
    ensures n < MAX_BLOCKS && BlockNo(d, i, n) != 0 && Usable(BlockNo(d, i, n))
  {
    hide Named, Get, FatEntry, Taken;
    var c := Blocks(Inode(d, i));
    assert n < c;
    FileBlock(d, owner, i, n);
  }
}
