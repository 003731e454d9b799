// tool/mkfs.c: building an image from a list of files.
module Mkfs {
  import opened Bits
  import opened Bytes
  import opened FsLayout
  import opened FsOwners
  import opened FsFiles
  import opened FsGrow
  import opened FsWrite
  import opened FsCreate
  import opened FileSystem

  // ---------- pending blocks of a growing file ----------

  /** A change outside named blocks and names leaves a growing file as it is. */
  lemma GrowingKept(d: Disk, d': Disk, owner: Owners, pend: set<nat>, pend': set<nat>, i: nat, c: nat, ind: bool)
    requires Owned(d, owner, pend) && Owned(d', owner, pend') && IsFile(d, i) && Prefix(d, i, c, ind)
    requires SameNames(d, d') && forall x: nat :: x < BLOCK_NUM && d'[x] != d[x] ==> x !in owner
    ensures Growing(d, d', owner, pend', i, c, c, ind)
  {
    hide Get, Taken, FatEntry, Named, SameFile;
    PrefixSame(d, d', i, c, ind);
    InodeNoNamed(d, i);
    InodeNoNamed(d', i);
    OwnerOf(d, owner, pend, FatSlot(i));
    forall j: nat | j < FAT_SIZE && j != i ensures SameFile(d, d', j) {
      InodeNoNamed(d, j);
      InodeNoNamed(d', j);
      OthersSame(d, d', owner, pend, j);
    }
    forall n: nat | n < c ensures SameBlock(d, d', i, n) {
      BlockSlotProper(i, n);
      OwnerOf(d, owner, pend, BlockSlot(i, n));
    }
  }

  lemma GrowingTrans(d0: Disk, d1: Disk, owner1: Owners, p1: set<nat>, d2: Disk, owner2: Owners, p2: set<nat>, i: nat,
                     c0: nat, c1: nat, c2: nat, ind1: bool, ind2: bool)
    requires Growing(d0, d1, owner1, p1, i, c0, c1, ind1) && Growing(d1, d2, owner2, p2, i, c1, c2, ind2)
    ensures Growing(d0, d2, owner2, p2, i, c0, c2, ind2)
  {
    hide Get, Taken, FatEntry, Named, SameFile, SameBlock, Inode, SameHeader;
    forall j: nat | j < FAT_SIZE && j != i ensures SameFile(d0, d2, j) { SameFileTrans(d0, d1, d2, j); }
    forall n: nat | n < c0 ensures SameBlock(d0, d2, i, n) { SameBlockTrans(d0, d1, d2, i, n); }
    HeaderTrans(Inode(d0, i), Inode(d1, i), Inode(d2, i));
  }

  lemma GrowingTake(d: Disk, owner: Owners, pend: set<nat>, i: nat, c: nat, ind: bool, b: nat)
    requires Owned(d, owner, pend) && IsFile(d, i) && Prefix(d, i, c, ind) && b < BLOCK_NUM && !Taken(d[1], b)
    ensures 3 <= b && b !in pend && d[b] == ZeroBlock()
    ensures var d' := d[1 := Take(d[1], b)];
      Growing(d, d', owner, pend + {b}, i, c, c, ind) && |FreeBlocks(d')| == |FreeBlocks(d)| - 1 && d'[b] == d[b]
  {
    hide Get, Taken, Take, FatEntry, Named, FreeBlocks, ZeroBlock, Prefix, Growing;
    ClearIsFree(d, b);
    TakeBlock(d, owner, pend, b, d[0]);
    assert d[0 := d[0]] == d;
    var d' := d[1 := Take(d[1], b)];
    OwnedFixed(d, owner, pend);
    GrowingKept(d, d', owner, pend, pend + {b}, i, c, ind);
    FreeDrops(d, d', b);
  }

  lemma OwnedFixed(d: Disk, owner: Owners, pend: set<nat>)
    requires Owned(d, owner, pend)
    ensures forall b :: b in owner ==> b >= 3
    ensures forall b :: b in pend ==> 3 <= b < BLOCK_NUM && b !in owner
  {
    hide Named, Taken;
  }

  lemma GrowingFill(d: Disk, owner: Owners, pend: set<nat>, i: nat, c: nat, ind: bool, b: nat, x: Block)
    requires Owned(d, owner, pend) && IsFile(d, i) && Prefix(d, i, c, ind) && b in pend
    ensures 3 <= b < BLOCK_NUM
    ensures var d' := d[b := x];
      Growing(d, d', owner, pend, i, c, c, ind) && FreeBlocks(d') == FreeBlocks(d)
  {
    hide Get, Taken, Take, FatEntry, Named, FreeBlocks, ZeroBlock, Prefix, Growing;
    WriteData(d, owner, pend, b, x);
    OwnedFixed(d, owner, pend);
    GrowingKept(d, d[b := x], owner, pend, pend, i, c, ind);
  }

  // ---------- put_block, one link at a time ----------

  lemma PutDirect(d: Disk, owner: Owners, pend: set<nat>, i: nat, c: nat, ind: bool, b: nat)
    requires Owned(d, owner, pend) && IsFile(d, i) && Prefix(d, i, c, ind) && c < NDIRECT && b in pend
    ensures 3 <= InodeNo(d, i) && InodeNo(d, i) != b
    ensures var d' := d[InodeNo(d, i) := SetDirect(d[InodeNo(d, i)], c, b)]; var owner' := owner[b := DirectSlot(i, c)];
      Growing(d, d', owner', pend - {b}, i, c, c + 1, ind) && FreeBlocks(d') == FreeBlocks(d) && BlockNo(d', i, c) == b
  {
    hide Get, Taken, FatEntry, Named, FreeBlocks, SetDirect, Direct, Indirect, SameFile, SameBlock;
    var s := DirectSlot(i, c);
    var f := InodeNo(d, i);
    assert BlockNo(d, i, c) == Named(d, s) == 0;
    InodeNoNamed(d, i);
    OwnerOf(d, owner, pend, FatSlot(i));
    OwnedFixed(d, owner, pend);
    LinkDirect(d, owner, pend, b, i, c);
    DirectSet(d[f], c, b);
    var d' := d[f := SetDirect(d[f], c, b)];
    InodeNoNamed(d', i);
    GrowingKept(d, d, owner, pend, pend, i, c, ind);
    GrowStep(d, d, d', owner, owner[b := s], pend, pend - {b}, i, c, c, ind, s);
  }

  lemma PutIndirect(d: Disk, owner: Owners, pend: set<nat>, i: nat, c: nat, b: nat)
    requires Owned(d, owner, pend) && IsFile(d, i) && Prefix(d, i, c, false) && b in pend && b < BLOCK_NUM
    requires d[b] == ZeroBlock()
    ensures 3 <= InodeNo(d, i) && InodeNo(d, i) != b
    ensures var d' := d[InodeNo(d, i) := SetIndirect(d[InodeNo(d, i)], b)]; var owner' := owner[b := IndirectSlot(i)];
      Growing(d, d', owner', pend - {b}, i, c, c, true) && FreeBlocks(d') == FreeBlocks(d)
  {
    hide Get, Taken, FatEntry, Named, FreeBlocks, SetIndirect, Direct, Indirect, SameFile, SameBlock, ZeroBlock;
    var s := IndirectSlot(i);
    var f := InodeNo(d, i);
    InodeNoNamed(d, i);
    OwnerOf(d, owner, pend, FatSlot(i));
    OwnedFixed(d, owner, pend);
    LinkIndirect(d, owner, pend, b, i);
    IndirectSet(d[f], b);
    var d' := d[f := SetIndirect(d[f], b)];
    InodeNoNamed(d', i);
    GrowingKept(d, d, owner, pend, pend, i, c, false);
    GrowStep(d, d, d', owner, owner[b := s], pend, pend - {b}, i, c, c, false, s);
  }

  lemma PutFar(d: Disk, owner: Owners, pend: set<nat>, i: nat, c: nat, b: nat)
    requires Owned(d, owner, pend) && IsFile(d, i) && Prefix(d, i, c, true) && NDIRECT <= c < MAX_BLOCKS && b in pend
    ensures 3 <= Named(d, IndirectSlot(i)) < BLOCK_NUM && Named(d, IndirectSlot(i)) != b
    ensures var n := Named(d, IndirectSlot(i));
      var d' := d[n := SetFar(d[n], c - NDIRECT, b)]; var owner' := owner[b := FarSlot(i, c - NDIRECT)];
      Growing(d, d', owner', pend - {b}, i, c, c + 1, true) && FreeBlocks(d') == FreeBlocks(d) && BlockNo(d', i, c) == b
  {
    hide Get, Taken, FatEntry, Named, FreeBlocks, SetFar, Direct, Indirect, SameFile, SameBlock;
    var s := FarSlot(i, c - NDIRECT);
    var n := Named(d, IndirectSlot(i));
    assert BlockNo(d, i, c) == Named(d, s) == 0;
    InodeNoNamed(d, i);
    OwnerOf(d, owner, pend, FatSlot(i));
    OwnerOf(d, owner, pend, IndirectSlot(i));
    OwnedFixed(d, owner, pend);
    LinkFar(d, owner, pend, b, i, c - NDIRECT);
    var d' := d[n := SetFar(d[n], c - NDIRECT, b)];
    InodeNoNamed(d', i);
    GrowingKept(d, d, owner, pend, pend, i, c, true);
    GrowStep(d, d, d', owner, owner[b := s], pend, pend - {b}, i, c, c, true, s);
  }

  // ---------- the image builder ----------

  const MAGIC_NUM: nat := 0x4D53_4653

  /** A growing file i with c blocks on the image; its new blocks hold data. */
  ghost predicate Building(d1: Disk, d: Disk, owner: Owners, i: nat, c: nat, data: seq<byte>, unused: nat) {
    && Growing(d1, d, owner, {}, i, 0, c, c > NDIRECT)
    && unused == |FreeBlocks(d)|
    && forall n: nat :: n < c && n < MAX_BLOCKS ==> Filled(d, i, n, data)
  }

  /** Block n of file i holds its share of the data, padded with zeros. */
  ghost predicate Filled(d: Disk, i: nat, n: nat, data: seq<byte>)
    requires IsDisk(d) && i < FAT_SIZE && n < MAX_BLOCKS
  {
    Usable(BlockNo(d, i, n)) && d[BlockNo(d, i, n)] == Chunk(data, n)
  }

  function Chunk(data: seq<byte>, n: nat): Block {
    seq(BLOCK_SIZE, (k: nat) requires k < BLOCK_SIZE =>
      if BLOCK_SIZE * n + k < |data| then data[BLOCK_SIZE * n + k] else 0)
  }

  lemma ChunkIs(data: seq<byte>, n: nat, len: nat)
    requires BLOCK_SIZE * n < |data|
    requires len == (if |data| - BLOCK_SIZE * n < BLOCK_SIZE then |data| - BLOCK_SIZE * n else BLOCK_SIZE)
    ensures PutBytes(ZeroBlock(), 0, data[BLOCK_SIZE * n..BLOCK_SIZE * n + len]) == Chunk(data, n)
  {}

  class Builder {
    const image: array<Block>
    var unused: nat
    ghost var owner: Owners

    /** The zeroed image. */
    constructor ()
      ensures image.Length == BLOCK_NUM && fresh(image) && unused == BLOCK_NUM && owner == map[]
      ensures forall b :: 0 <= b < BLOCK_NUM ==> image[b] == ZeroBlock()
    {
      hide ZeroBlock;
      image := new Block[BLOCK_NUM](_ => ZeroBlock());
      unused := BLOCK_NUM;
      owner := map[];
    }

    /** alloc_free_block of mkfs: the lowest clear block, or -1. */
    method AllocFreeBlock() returns (r: int)
      requires image.Length == BLOCK_NUM && (FreeBlocks(image[..]) != {} ==> unused > 0)
      modifies image, this`unused
      ensures r == -1 <==> FreeBlocks(old(image[..])) == {}
      ensures r == -1 ==> image[..] == old(image[..]) && unused == old(unused)
      ensures r != -1 ==>
        && 0 <= r < BLOCK_NUM && !Taken(old(image[1]), r) && (forall x: nat :: x < r ==> Taken(old(image[1]), x))
        && image[..] == old(image[..])[1 := Take(old(image[1]), r)] && unused == old(unused) - 1
    {
      hide Get, Put, Take, Taken, Or, And, Bit, Pow2;
      ghost var d := image[..];
      var i := 0;
      while i < BLOCK_NUM
        invariant 0 <= i <= BLOCK_NUM && image[..] == d && unused == old(unused)
        invariant forall x: nat :: x < i ==> Taken(d[1], x)
      {
        AndPow2(MapWord(image[1], i / 32), i % 32);
        TakenIs(image[1], i);
        if And(MapWord(image[1], i / 32), Pow2(i % 32)) == 0 {
          ClearIsFree(d, i);
          image[1] := Take(image[1], i);
          unused := unused - 1;
          return i;
        }
        i := i + 1;
      }
      r := -1;
    }

    /** The direct part of put_block. */
    method PutBlock(b: nat, f: nat, ghost i: nat, ghost c: nat)
      requires image.Length == BLOCK_NUM && Owned(image[..], owner, {b}) && IsFile(image[..], i)
      requires f == InodeNo(image[..], i)
      requires Prefix(image[..], i, c, c > NDIRECT) && c < MAX_BLOCKS
      requires unused == |FreeBlocks(image[..])| && (c == NDIRECT ==> unused > 0)
      modifies image, this
      ensures unused == |FreeBlocks(image[..])| && unused == old(unused) - (if c == NDIRECT then 1 else 0)
      ensures Growing(old(image[..]), image[..], owner, {}, i, c, c + 1, c + 1 > NDIRECT)
      ensures BlockNo(image[..], i, c) == b && b < BLOCK_NUM && image[b] == old(image[..])[b]
    {
      hide Get, Put, Take, Taken, Named, FatEntry, SetDirect, Direct, Indirect, FreeBlocks, Growing, Owned, Prefix,
        BlockNo, InodeNo;
      ghost var d := image[..];
      GrowingSelf(d, owner, {b}, i, c, c > NDIRECT);
      PendingApart(d, owner, {b}, i, b);
      assert {b} - {b} == {};
      var k := 0;
      while k < NDIRECT
        invariant k <= NDIRECT && k <= c && image[..] == d && owner == old(owner) && unused == old(unused)
      {
        DirectIsNamed(d, d, owner, {b}, i, c, c, c > NDIRECT, k);
        assert image[f] == d[f];
        if Direct(image[f], k) == 0 {
          PutDirect(d, owner, {b}, i, c, c > NDIRECT, b);
          image[f] := SetDirect(image[f], k, b);
          owner := owner[b := DirectSlot(i, c)];
          return;
        }
        k := k + 1;
      }
      PutFarBlock(b, f, i, c);
    }

    /** The indirect part of put_block. */
    method PutFarBlock(b: nat, f: nat, ghost i: nat, ghost c: nat)
      requires image.Length == BLOCK_NUM && Owned(image[..], owner, {b}) && IsFile(image[..], i)
      requires f == InodeNo(image[..], i)
      requires Prefix(image[..], i, c, c > NDIRECT) && NDIRECT <= c < MAX_BLOCKS
      requires unused == |FreeBlocks(image[..])| && (c == NDIRECT ==> unused > 0)
      modifies image, this
      ensures unused == |FreeBlocks(image[..])| && unused == old(unused) - (if c == NDIRECT then 1 else 0)
      ensures Growing(old(image[..]), image[..], owner, {}, i, c, c + 1, c + 1 > NDIRECT)
      ensures BlockNo(image[..], i, c) == b && b < BLOCK_NUM && image[b] == old(image[..])[b]
    {
      hide Get, Put, Take, Taken, Named, FatEntry, SetFar, Far, Direct, Indirect, FreeBlocks, Growing, Owned, Prefix,
        BlockNo, InodeNo;
      ghost var d := image[..];
      GrowingSelf(d, owner, {b}, i, c, c > NDIRECT);
      PendingApart(d, owner, {b}, i, b);
      IndirectIsNamed(d, d, owner, {b}, i, c, c, c > NDIRECT);
      assert image[f] == d[f];
      if Indirect(image[f]) == 0 {
        AddIndirectTo(b, f, i, c);
      }
      ghost var d1 := image[..];
      GrowingParts(d, d1, owner, {b}, i, c, c, true);
      IndirectIsNamed(d, d1, owner, {b}, i, c, c, true);
      assert image[f] == d1[f];
      var n := Indirect(image[f]);
      PutFar(d1, owner, {b}, i, c, b);
      ghost var owner1 := owner;
      var j := 0;
      while j < NFAR
        invariant j <= NFAR && NDIRECT + j <= c && image[..] == d1 && owner == owner1 && unused == |FreeBlocks(d1)|
      {
        FarIsNamed(d, d1, owner, {b}, i, c, c, j);
        assert image[n] == d1[n];
        if Far(image[n], j) == 0 {
          image[n] := SetFar(image[n], j, b);
          owner := owner[b := FarSlot(i, c - NDIRECT)];
          assert {b} - {b} == {};
          GrowingTrans(d, d1, owner1, {b}, image[..], owner, {}, i, c, c, c + 1, true, true);
          return;
        }
        j := j + 1;
      }
    }

    /** `inode->indirect = alloc_free_block()` in put_block, b being pending. */
    method AddIndirectTo(b: nat, f: nat, ghost i: nat, ghost c: nat)
      requires image.Length == BLOCK_NUM && Owned(image[..], owner, {b}) && IsFile(image[..], i)
      requires f == InodeNo(image[..], i)
      requires Prefix(image[..], i, c, false) && unused == |FreeBlocks(image[..])| && unused > 0
      modifies image, this
      ensures unused == |FreeBlocks(image[..])| && unused == old(unused) - 1
      ensures Growing(old(image[..]), image[..], owner, {b}, i, c, c, true)
      ensures b < BLOCK_NUM && image[b] == old(image[..])[b]
    {
      hide Get, Put, Take, Taken, Named, FatEntry, SetIndirect, Direct, Indirect, FreeBlocks, Growing, Owned, Prefix,
        InodeNo;
      ghost var d := image[..];
      PendingApart(d, owner, {b}, i, b);
      var b2 := AllocFreeBlock();
      ghost var d1 := image[..];
      GrowingTake(d, owner, {b}, i, c, false, b2);
      GrowingParts(d, d1, owner, {b} + {b2}, i, c, c, false);
      PutIndirect(d1, owner, {b} + {b2}, i, c, b2);
      ghost var owner1 := owner;
      image[f] := SetIndirect(image[f], b2);
      owner := owner[b2 as nat := IndirectSlot(i)];
      assert {b} + {b2} - {b2} == {b};
      GrowingTrans(d, d1, owner1, {b} + {b2}, image[..], owner, {b}, i, c, c, c, false, true);
    }

    /** One round of the loop of walk that copies file data: take a block, fill
        it, and enter it in the inode. */
    method AddData(f: nat, data: seq<byte>, size: nat, ghost i: nat, ghost c: nat, ghost d1: Disk) returns (len: nat)
      requires image.Length == BLOCK_NUM && Building(d1, image[..], owner, i, c, data, unused)
      requires f == InodeNo(image[..], i) && size == BLOCK_SIZE * c < |data| && c < MAX_BLOCKS
      requires unused > (if c == NDIRECT then 1 else 0)
      modifies image, this
      ensures len == if |data| - size < BLOCK_SIZE then |data| - size else BLOCK_SIZE
      ensures Building(d1, image[..], owner, i, c + 1, data, unused) && f == InodeNo(image[..], i)
      ensures unused == old(unused) - 1 - (if c == NDIRECT then 1 else 0)
    {
      hide Get, Put, Take, Taken, Named, FatEntry, FreeBlocks, Growing, Bitmap, OwnersHold, SlotsOwn, FreeZero, Prefix,
        BlockNo, InodeNo, PutBytes, Chunk, ZeroBlock, Filled;
      ghost var d := image[..];
      GrowingParts(d1, d, owner, {}, i, 0, c, c > NDIRECT);
      len := if |data| - size < BLOCK_SIZE then |data| - size else BLOCK_SIZE;
      var b := AllocFreeBlock();
      ghost var da := image[..];
      GrowingTake(d, owner, {}, i, c, c > NDIRECT, b);
      assert {} + {b as nat} == {b as nat};
      GrowingParts(d, da, owner, {b as nat}, i, c, c, c > NDIRECT);
      GrowingFill(da, owner, {b as nat}, i, c, c > NDIRECT, b, PutBytes(da[b], 0, data[size..size + len]));
      ChunkIs(data, c, len);
      image[b] := PutBytes(image[b], 0, data[size..size + len]);
      ghost var db := image[..];
      ghost var owner1 := owner;
      GrowingParts(da, db, owner, {b as nat}, i, c, c, c > NDIRECT);
      PutBlock(b, f, i, c);
      BlockPut(d, da, db, image[..], owner1, owner, i, c, b);
      BuildingNext(d1, d, image[..], owner1, owner, i, c, data, b);
      GrowingParts(d, image[..], owner, {}, i, c, c + 1, c + 1 > NDIRECT);
    }

    /** alloc_inode of mkfs */
    method AllocInode(ghost files: nat) returns (r: int)
      requires image.Length == BLOCK_NUM && FsOk(image[..], owner, files, unused) && files < FAT_SIZE && unused > 0
      modifies image, this
      ensures 0 <= r && FreshEntry(old(image[..]), image[..], owner, files, r)
      ensures unused == old(unused) - 1 && unused == |FreeBlocks(image[..])|
    {
      hide Get, Put, Take, Taken, Named, FatEntry, SetFat, Bitmap, OwnersHold, SlotsOwn, FreeZero, FreeBlocks,
        FreshEntry, AllShaped, NamesUnique, FatPrefix;
      ghost var d := image[..];
      ghost var u := unused;
      var i := 0;
      while i < FAT_SIZE
        invariant 0 <= i <= FAT_SIZE && i <= files && image[..] == d && owner == old(owner) && unused == u
      {
        EntryFree(d, files, i);
        if FatEntry(image[2], i) == 0 {
          r := AllocFreeBlock();
          AddEntry(d, owner, i, r, d[0]);
          assert d[0 := d[0]] == d;
          ghost var d1: Disk := d[1 := Take(d[1], r)];
          image[2] := SetFat(image[2], i, r);
          assert image[..] == d1[2 := SetFat(d1[2], i, r)];
          owner := owner[r as nat := FatSlot(i)];
          return;
        }
        i := i + 1;
      }
    }

    /** The body of walk for one file. */
    method AddFile(name: seq<byte>, data: seq<byte>, ghost files: nat)
      requires image.Length == BLOCK_NUM && FsOk(image[..], owner, files, unused)
      requires GoodName(name) && NameFree(image[..], name) && files < FAT_SIZE
      requires |data| <= MAX_BLOCKS * BLOCK_SIZE && Cost(data) <= unused
      modifies image, this
      ensures FsOk(image[..], owner, files + 1, unused) && unused == old(unused) - Cost(data)
      ensures IsNamed(image[..], files, name) && Contents(image[..], files) == data
      ensures OthersKept(old(image[..]), image[..], files)
    {
      hide Get, Put, Take, Taken, Named, FatEntry, SetSize, SetBlocks, SetName, Bitmap, OwnersHold, SlotsOwn, FreeZero,
        FreeBlocks, FreshEntry, AllShaped, NamesUnique, FatPrefix, NameFree, InodeNo, Contents, Name, OthersKept,
        Building, RecordedBlocks;
      ghost var d, owner0, u0 := image[..], owner, unused;
      var idx := AllocInode(files);
      var f: nat := idx;
      ghost var d2 := image[..];
      FreshParts(d, d2, owner, files, f);
      StartFile(d, d2, owner, files, f, name, data, unused);
      image[f] := SetName(image[f], name);
      image[f] := SetSize(image[f], |data|);
      image[f] := SetBlocks(image[f], RecordedBlocks(|data|));
      ghost var d3 := image[..];
      assert d3 == d2[f := Header(name, data)];
      var size := 0;
      ghost var c := 0;
      RecordedIs(data);
      ghost var u := unused;
      while size < |data|
        invariant 0 <= size <= |data| && size == (if BLOCK_SIZE * c < |data| then BLOCK_SIZE * c else |data|)
        invariant c <= BlocksFor(|data|)
        invariant Building(d3, image[..], owner, files, c, data, unused) && f == InodeNo(image[..], files)
        invariant unused == u - (c + if c > NDIRECT then 1 else 0)
        decreases |data| - size
      {
        MoreBlocks(data, c);
        var len := AddData(f, data, size, files, c, d3);
        size := size + len;
        c := c + 1;
      }
      AllBlocks(data, c);
      FileDone(d, owner0, d2, d3, image[..], owner, files, u0, unused, f, c, name, data);
    }

    /** The three fixed blocks are taken first; they get the numbers 0, 1 and 2. */
    method TakeFixed() returns (ok: bool)
      requires image.Length == BLOCK_NUM && unused == BLOCK_NUM && owner == map[]
      requires forall b :: 0 <= b < BLOCK_NUM ==> image[b] == ZeroBlock()
      modifies image, this`unused
      ensures ok && FsOk(image[..], owner, 0, unused) && unused == BLOCK_NUM - 3
    {
      hide Get, Put, Take, Taken, ZeroBlock, FreeBlocks, FsOk;
      ghost var d := image[..];
      ZeroImage(d);
      var a := AllocFreeBlock();
      FixedStep(d, image[..], 0, a);
      ghost var d1 := image[..];
      var b := AllocFreeBlock();
      FixedStep(d1, image[..], 1, b);
      ghost var d2 := image[..];
      var c := AllocFreeBlock();
      FixedStep(d2, image[..], 2, c);
      EmptyFs(image[..], unused);
      ok := a == 0 && b == 1 && c == 2;
    }

    /** main: the image of the given files, in order. */
    method Build(files: seq<(seq<byte>, seq<byte>)>) returns (ok: bool)
      requires image.Length == BLOCK_NUM && unused == BLOCK_NUM && owner == map[]
      requires forall b :: 0 <= b < BLOCK_NUM ==> image[b] == ZeroBlock()
      requires Buildable(files)
      modifies image, this
      ensures ok && Mounted(image[..], owner, |files|) && Holds(image[..], files)
      ensures image[0][..6] == [0x53, 0x46, 0x53, 0x4d, 0x00, 0x08]
      ensures Get(image[0], 6, 2) == |FreeBlocks(image[..])|
    {
      hide FreeBlocks, Get, SetUnused, FsOk, ZeroBlock, Holds, Cost, TotalCost, Put, Mounted;
      ok := TakeFixed();
      if !ok { return; }
      HoldsNone(image[..], files);
      var i := 0;
      while i < |files|
        invariant 0 <= i <= |files| && FsOk(image[..], owner, i, unused) && Holds(image[..], files[..i])
        invariant unused >= TotalCost(files[i..])
      {
        ghost var d := image[..];
        CostOf(files, i);
        NewName(d, owner, files, i, unused);
        AddFile(files[i].0, files[i].1, i);
        HoldsMore(d, image[..], files, i);
        i := i + 1;
      }
      assert files[..i] == files;
      ghost var d := image[..];
      FillSuper(d, owner, |files|, unused, files);
      image[0] := Put(image[0], 0, 4, MAGIC_NUM);
      image[0] := Put(image[0], 4, 2, BLOCK_NUM);
      image[0] := SetUnused(image[0], unused);
      assert image[..] == d[0 := Super(d[0], unused)];
      SuperIs(d[0], unused);
      ClearCount(image[..], owner, |files|);
      ok := true;
    }
  }

  /** Short, distinct names, files of a size an inode can hold, and enough room. */
  ghost predicate Buildable(files: seq<(seq<byte>, seq<byte>)>) {
    && |files| <= FAT_SIZE && TotalCost(files) <= BLOCK_NUM - 3
    && (forall i :: 0 <= i < |files| ==> GoodName(files[i].0) && |files[i].1| <= MAX_BLOCKS * BLOCK_SIZE)
    && forall i, j :: 0 <= i < j < |files| ==> files[i].0 != files[j].0
  }

  function TotalCost(files: seq<(seq<byte>, seq<byte>)>): nat {
    if files == [] then 0 else Cost(files[0].1) + TotalCost(files[1..])
  }

  lemma CostOf(files: seq<(seq<byte>, seq<byte>)>, i: nat)
    requires i < |files|
    ensures TotalCost(files[i..]) == Cost(files[i].1) + TotalCost(files[i + 1..])
  {
    hide Cost;
    assert files[i..][1..] == files[i + 1..];
  }

  /** The image holds exactly these files: names and contents, in order. */
  ghost predicate Holds(d: Disk, files: seq<(seq<byte>, seq<byte>)>) {
    IsDisk(d) && |files| <= FAT_SIZE
      && forall i: nat :: i < |files| ==> IsNamed(d, i, files[i].0) && Contents(d, i) == files[i].1
  }

  lemma HoldsNone(d: Disk, files: seq<(seq<byte>, seq<byte>)>)
    requires IsDisk(d)
    ensures Holds(d, files[..0]) && files[0..] == files
  {}

  lemma HoldsMore(d: Disk, d': Disk, files: seq<(seq<byte>, seq<byte>)>, i: nat)
    requires i < |files| <= FAT_SIZE && Holds(d, files[..i]) && IsDisk(d') && OthersKept(d, d', i)
    requires IsNamed(d', i, files[i].0) && Contents(d', i) == files[i].1
    ensures Holds(d', files[..i + 1])
  {
    hide SameFile, Contents, Name, Inode, InodeNo, Get;
    forall j: nat | j < i + 1 ensures IsNamed(d', j, files[j].0) && Contents(d', j) == files[j].1 {
      if j < i {
        assert files[..i][j] == files[j];
        assert IsNamed(d, j, files[..i][j].0);
        SameFileMeans(d, d', j);
      }
    }
  }

  lemma NewName(d: Disk, owner: Owners, files: seq<(seq<byte>, seq<byte>)>, i: nat, unused: nat)
    requires Buildable(files) && i < |files| && FsOk(d, owner, i, unused) && Holds(d, files[..i])
    ensures IsDisk(d) && NameFree(d, files[i].0)
  {
    hide Contents, Name, Inode, InodeNo, Owned, AllShaped, NamesUnique, FreeBlocks, Get, Cost, TotalCost;
    OwnedDisk(d, owner);
    forall j: nat | j < FAT_SIZE && InodeNo(d, j) != 0 ensures Name(d, j) != files[i].0 {
      assert j < i;
      assert IsNamed(d, j, files[..i][j].0);
    }
  }

  lemma OwnedDisk(d: Disk, owner: Owners)
    requires Owned(d, owner, {})
    ensures IsDisk(d)
  {}

  /** The superblock at the end. */
  function Super(b: Block, unused: nat): Block {
    SetUnused(Put(Put(b, 0, 4, MAGIC_NUM), 4, 2, BLOCK_NUM), unused)
  }

  lemma FillSuper(d: Disk, owner: Owners, files: nat, unused: nat, list: seq<(seq<byte>, seq<byte>)>)
    requires FsOk(d, owner, files, unused) && Holds(d, list)
    ensures Mounted(d[0 := Super(d[0], unused)], owner, files) && Holds(d[0 := Super(d[0], unused)], list)
  {
    hide Get, Put, Taken, FatEntry, SameFile, Contents, Name, CString, FreeBlocks, Direct, Indirect, Far, WellShaped,
      Bitmap, OwnersHold, SlotsOwn, FreeZero, Super;
    var d' := d[0 := Super(d[0], unused)];
    SuperUnused(d[0], unused, d);
    forall s | Proper(s) ensures Named(d', s) == Named(d, s) {
      assert Named(d', IndirectSlot(s.i)) == Named(d, IndirectSlot(s.i));
    }
    hide Named;
    FixedBlockZero(d, owner);
    SameNamesOwned(d, d', owner, {});
    forall j: nat | j < FAT_SIZE
      ensures InodeNo(d', j) == InodeNo(d, j) && Name(d', j) == Name(d, j) && Contents(d', j) == Contents(d, j)
      ensures IsFile(d', j) == IsFile(d, j)
      ensures WellShaped(d, j) ==> WellShaped(d', j)
    {
      InodeNoNamed(d, j);
      InodeNoNamed(d', j);
      FixedUnowned(d, owner);
      OthersSame(d, d', owner, {}, j);
      SameFileMeans(d, d', j);
    }
  }

  /** The magic number and 2048 as bytes */
  lemma MagicBytes()
    ensures ToLe(MAGIC_NUM, 4) == [0x53, 0x46, 0x53, 0x4d] && ToLe(BLOCK_NUM, 2) == [0x00, 0x08]
  {
    assert ToLe(0x4d, 1) == [0x4d] + ToLe(0, 0) == [0x4d];
    assert ToLe(0x4d53, 2) == [0x53, 0x4d];
    assert ToLe(0x4d53_46, 3) == [0x46, 0x53, 0x4d];
    assert ToLe(8, 1) == [8] + ToLe(0, 0) == [8];
  }

  lemma ClearCount(d: Disk, owner: Owners, files: nat)
    requires Mounted(d, owner, files)
    ensures |d| == BLOCK_NUM && Get(d[0], 6, 2) == |FreeBlocks(d)|
  {
    hide FreeBlocks, Get;
  }

  lemma SuperIs(b: Block, unused: nat)
    ensures Super(b, unused)[..6] == [0x53, 0x46, 0x53, 0x4d, 0x00, 0x08]
  {
    hide ToLe;
    MagicBytes();
  }

  lemma FixedBlockZero(d: Disk, owner: Owners)
    requires Owned(d, owner, {})
    ensures Taken(d[1], 0)
  {
    hide Taken, Named;
  }

  lemma SuperUnused(b: Block, unused: nat, d: Disk)
    requires IsDisk(d) && unused == |FreeBlocks(d)|
    ensures Unused(Super(b, unused)) == unused
  {
    hide Get, Put, FreeBlocks;
    FreeBound(d);
    UnusedSet(Put(Put(b, 0, 4, MAGIC_NUM), 4, 2, BLOCK_NUM), unused);
  }

  // ---------- the empty image ----------

  /** In a zeroed image every block is clear, and the blocks below n are taken. */
  ghost predicate FixedTaken(d: Disk, n: nat) {
    && IsDisk(d) && (forall b: nat :: b < BLOCK_NUM ==> (Taken(d[1], b) <==> b < n))
    && |FreeBlocks(d)| == BLOCK_NUM - n
    && forall b: nat :: b < BLOCK_NUM && b != 1 ==> d[b] == ZeroBlock()
  }

  lemma ZeroImage(d: Disk)
    requires IsDisk(d) && forall b :: 0 <= b < BLOCK_NUM ==> d[b] == ZeroBlock()
    ensures FixedTaken(d, 0)
  {
    hide Bit;
    forall b: nat | b < BLOCK_NUM ensures !Taken(d[1], b) {
      LeZero(d[1][4 * (b / 32)..4 * (b / 32) + 4]);
      ZeroBits(b % 32);
    }
    RangeCard(FreeBlocks(d), BLOCK_NUM);
  }

  lemma {:induction false} RangeCard(s: set<nat>, n: nat)
    requires forall b: nat :: b in s <==> b < n
    ensures |s| == n
  {
    if n == 0 { assert s == {}; } else { RangeCard(s - {n - 1}, n - 1); }
  }

  /** Taking the lowest clear block takes the next number. */
  lemma FixedStep(d: Disk, d': Disk, n: nat, r: nat)
    requires FixedTaken(d, n) && n < BLOCK_NUM && r < BLOCK_NUM
    requires !Taken(d[1], r) && (forall x: nat :: x < r ==> Taken(d[1], x)) && d' == d[1 := Take(d[1], r)]
    ensures r == n && FixedTaken(d', n + 1)
  {
    hide Taken, Take, ZeroBlock;
    assert r == n;
    forall b: nat | b < BLOCK_NUM ensures Taken(d'[1], b) <==> b < n + 1 { TakeBit(d[1], n, b); }
    assert FreeBlocks(d') == FreeBlocks(d) - {n};
    assert n in FreeBlocks(d);
  }

  lemma EmptyFs(d: Disk, unused: nat)
    requires FixedTaken(d, 3) && unused == |FreeBlocks(d)|
    ensures FsOk(d, map[], 0, unused)
  {
    hide Taken, ZeroBlock, FreeBlocks, FatEntry, Direct, Indirect, Far, WellShaped, Name;
    ZeroFat();
    forall s | Proper(s) ensures Named(d, s) == 0 {
      assert FatEntry(d[2], s.i) == 0;
      assert Named(d, IndirectSlot(s.i)) == 0;
    }
  }

  lemma ZeroFat()
    ensures forall i: nat :: i < FAT_SIZE ==> FatEntry(ZeroBlock(), i) == 0
  {
    hide Le;
    forall i: nat | i < FAT_SIZE ensures FatEntry(ZeroBlock(), i) == 0 { LeZero(ZeroBlock()[2 * i..2 * i + 2]); }
  }

  /** The header mkfs writes: name, size and block count. */
  function Header(name: seq<byte>, data: seq<byte>): Block
    requires |name| < NAME_SIZE
  {
    SetBlocks(SetSize(SetName(ZeroBlock(), name), |data|), RecordedBlocks(|data|))
  }

  /** (size - 1) / BLOCK_SIZE + 1 with a 32-bit size, stored in 16 bits; an empty
      file wraps around twice. */
  function RecordedBlocks(size: nat): nat {
    ((size + 0x1_0000_0000 - 1) % 0x1_0000_0000 / BLOCK_SIZE + 1) % 0x1_0000
  }

  /** The count recorded is the right one, also for an empty file. */
  lemma RecordedIs(data: seq<byte>)
    requires |data| <= MAX_BLOCKS * BLOCK_SIZE
    ensures RecordedBlocks(|data|) == BlocksFor(|data|) <= MAX_BLOCKS
  {}

  /** Blocks a file takes up: its inode, its data, and an indirect block if needed. */
  function Cost(data: seq<byte>): nat {
    var n := BlocksFor(|data|);
    1 + n + (if n > NDIRECT then 1 else 0)
  }

  lemma MoreBlocks(data: seq<byte>, c: nat)
    requires BLOCK_SIZE * c < |data| <= MAX_BLOCKS * BLOCK_SIZE
    ensures c < BlocksFor(|data|) <= MAX_BLOCKS
  {}

  lemma AllBlocks(data: seq<byte>, c: nat)
    requires BLOCK_SIZE * c >= |data| && c <= BlocksFor(|data|)
    ensures c == BlocksFor(|data|)
  {}

  lemma HeaderIs(name: seq<byte>, data: seq<byte>)
    requires GoodName(name) && |data| <= MAX_BLOCKS * BLOCK_SIZE
    ensures var x := Header(name, data);
      && SameNumbers(ZeroBlock(), x) && CString(NameField(x)) == name
      && Size(x) == |data| && Blocks(x) == BlocksFor(|data|)
  {
    hide Get, Put, SetName, SetSize, SetBlocks, ZeroBlock, Direct, Indirect, NameField, CString, Size, Blocks;
    RecordedIs(data);
    NameSet(ZeroBlock(), name);
    SizeSet(SetName(ZeroBlock(), name), |data|);
    BlocksSet(SetSize(SetName(ZeroBlock(), name), |data|), RecordedBlocks(|data|));
  }

  /** After the header is written, the file has no blocks yet. */
  lemma StartFile(d: Disk, d2: Disk, owner2: Owners, i: nat, f: nat, name: seq<byte>, data: seq<byte>, unused: nat)
    requires FreshEntry(d, d2, owner2, i, f) && GoodName(name) && |data| <= MAX_BLOCKS * BLOCK_SIZE
    requires unused == |FreeBlocks(d2)|
    ensures 3 <= f < BLOCK_NUM && d2[f] == ZeroBlock()
    ensures var d3 := d2[f := Header(name, data)];
      && Building(d3, d3, owner2, i, 0, data, unused) && InodeNo(d3, i) == f && Inode(d3, i) == Header(name, data)
      && OthersKept(d2, d3, i)
  {
    hide Get, Taken, FatEntry, Named, FreeBlocks, SameFile, SameNumbers, ZeroBlock, Header, Bitmap, OwnersHold,
      SlotsOwn, FreeZero;
    FileInode(d2, owner2, i);
    HeaderIs(name, data);
    var d3 := d2[f := Header(name, data)];
    ChangeHeader(d2, owner2, i, Header(name, data));
    PrefixSame(d2, d3, i, 0, false);
    GrowingStart(d3, owner2, i, 0, false);
  }

  lemma FileContents(d3: Disk, d: Disk, owner: Owners, i: nat, c: nat, data: seq<byte>, unused: nat)
    requires Building(d3, d, owner, i, c, data, unused) && Size(Inode(d, i)) == |data| <= BLOCK_SIZE * c
    requires c <= MAX_BLOCKS
    ensures Contents(d, i) == data
  {
    hide Get, Taken, FatEntry, Named, BlockNo, Growing, FreeBlocks;
    GrowingParts(d3, d, owner, {}, i, 0, c, c > NDIRECT);
    var s := Contents(d, i);
    forall x: nat | x < |s| ensures s[x] == data[x] {
      assert s[x] == ByteAt(d, i, x);
      assert Filled(d, i, x / BLOCK_SIZE, data);
      assert x == BLOCK_SIZE * (x / BLOCK_SIZE) + x % BLOCK_SIZE;
    }
  }

  lemma FileDone(d: Disk, owner0: Owners, d2: Disk, d3: Disk, d4: Disk, owner: Owners, files: nat, u0: nat, unused: nat,
                 f: nat, c: nat, name: seq<byte>, data: seq<byte>)
    requires FsOk(d, owner0, files, u0) && files < FAT_SIZE && NameFree(d, name) && GoodName(name)
    requires IsDisk(d2) && IsDisk(d3) && OthersKept(d, d2, files) && OthersKept(d2, d3, files)
    requires Inode(d3, files) == Header(name, data) && |data| <= MAX_BLOCKS * BLOCK_SIZE
    requires Building(d3, d4, owner, files, c, data, unused) && c == BlocksFor(|data|)
    ensures IsDisk(d4) && FsOk(d4, owner, files + 1, unused) && IsNamed(d4, files, name) && Contents(d4, files) == data
    ensures OthersKept(d, d4, files)
  {
    hide Get, Taken, FatEntry, Named, FreeBlocks, SameFile, Prefix, Header, Bitmap, OwnersHold, SlotsOwn, FreeZero,
      InodeNo, Inode, CString, AllShaped, NamesUnique, FatPrefix, NameFree, SameBlock, BlockNo, Filled;
    HeaderIs(name, data);
    FileContents(d3, d4, owner, files, c, data, unused);
    OthersKeptTrans(d, d2, d3, files);
    OthersKeptTrans(d, d3, d4, files);
    FileAdded(d, owner0, d4, owner, files, u0, unused, name);
  }

  /** The three steps together, and the filled block's contents. */
  lemma BlockPut(d: Disk, da: Disk, db: Disk, dc: Disk, owner: Owners, owner': Owners, i: nat, c: nat, b: nat)
    requires c < MAX_BLOCKS
    requires Growing(d, da, owner, {b}, i, c, c, c > NDIRECT) && Growing(da, db, owner, {b}, i, c, c, c > NDIRECT)
    requires Growing(db, dc, owner', {}, i, c, c + 1, c + 1 > NDIRECT)
    ensures Growing(d, dc, owner', {}, i, c, c + 1, c + 1 > NDIRECT)
  {
    hide Growing;
    GrowingTrans(d, da, owner, {b}, db, owner, {b}, i, c, c, c, c > NDIRECT, c > NDIRECT);
    GrowingTrans(d, db, owner, {b}, dc, owner', {}, i, c, c, c + 1, c > NDIRECT, c + 1 > NDIRECT);
  }

  lemma BuildingNext(d1: Disk, d: Disk, d': Disk, owner: Owners, owner': Owners, i: nat, c: nat, data: seq<byte>,
                     b: nat)
    requires c < MAX_BLOCKS && IsDisk(d) && Building(d1, d, owner, i, c, data, |FreeBlocks(d)|)
    requires Growing(d, d', owner', {}, i, c, c + 1, c + 1 > NDIRECT)
    requires BlockNo(d', i, c) == b && Usable(b) && d'[b] == Chunk(data, c)
    ensures IsDisk(d') && Building(d1, d', owner', i, c + 1, data, |FreeBlocks(d')|)
  {
    hide Get, Taken, FatEntry, Named, SameFile, FreeBlocks, Chunk, BlockNo, Prefix;
    GrowingTrans(d1, d, owner, {}, d', owner', {}, i, 0, c, c + 1, c > NDIRECT, c + 1 > NDIRECT);
    forall n: nat | n < c + 1 && n < MAX_BLOCKS ensures Filled(d', i, n, data) {
      if n < c {
        assert Filled(d, i, n, data);
        assert SameBlock(d, d', i, n);
      }
    }
  }

  lemma PendingApart(d: Disk, owner: Owners, pend: set<nat>, i: nat, b: nat)
    requires Owned(d, owner, pend) && IsFile(d, i) && b in pend
    ensures 3 <= b < BLOCK_NUM && InodeNo(d, i) != b
  {
    hide Get, Named, Taken, FatEntry;
    InodeNoNamed(d, i);
    OwnerOf(d, owner, pend, FatSlot(i));
  }

  lemma GrowingSelf(d: Disk, owner: Owners, pend: set<nat>, i: nat, c: nat, ind: bool)
    requires Owned(d, owner, pend) && IsFile(d, i) && Prefix(d, i, c, ind)
    ensures Growing(d, d, owner, pend, i, c, c, ind)
  {
    GrowingKept(d, d, owner, pend, pend, i, c, ind);
  }

  lemma GrowingParts(d0: Disk, d: Disk, owner: Owners, pend: set<nat>, i: nat, c0: nat, c: nat, ind: bool)
    requires Growing(d0, d, owner, pend, i, c0, c, ind)
    ensures Owned(d, owner, pend) && IsFile(d, i) && InodeNo(d, i) == InodeNo(d0, i) && Prefix(d, i, c, ind)
    ensures IsDisk(d0)
  {}
}
