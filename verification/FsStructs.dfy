// kernel/fs.h: the structures of a SimpleFS image byte by byte.  What the accessors
// of the layout read is what these structures hold.
module FsStructs {
  import opened Bits
  import opened Bytes
  import opened FsLayout
  import opened FsOwners
  import opened FsFiles
  import opened FsGrow
  import opened FsWrite
  import opened FileSystem

  /** struct Inode: size, name, block count, twelve direct pointers and an indirect one */
  function InodeBytes(size: nat, name: seq<byte>, blocks: nat, direct: seq<nat>, indirect: nat): seq<byte> {
    ToLe(size, 4) + name + ToLe(blocks, 2) + Words(direct, 2) + ToLe(indirect, 2)
  }

  lemma InodeRead(b: Block, size: nat, name: seq<byte>, blocks: nat, direct: seq<nat>, indirect: nat)
    requires size < Pow2(32) && blocks < Pow2(16) && indirect < Pow2(16) && |name| == 32 && |direct| == 12
    requires forall k: nat :: k < 12 ==> direct[k] < Pow2(16)
    requires b[..64] == InodeBytes(size, name, blocks, direct, indirect)
    ensures Size(b) == size && NameField(b) == name && Blocks(b) == blocks && Indirect(b) == indirect
    ensures forall k: nat :: k < NDIRECT ==> Direct(b, k) == direct[k]
  {
    hide ToLe, Get, Pow2, Words;
    var s, c, d, i := ToLe(size, 4), ToLe(blocks, 2), Words(direct, 2), ToLe(indirect, 2);
    assert b[..64] == b[0..0 + 64] == [] + s + (name + c + d + i);
    assert b[..64] == (s + name) + c + (d + i);
    assert b[..64] == (s + name + c + d) + i + [];
    GetField(b, 0, [], size, 4, name + c + d + i);
    GetField(b, 0, s + name, blocks, 2, d + i);
    GetField(b, 0, s + name + c + d, indirect, 2, []);
    assert b[..64][4..36] == name;
    assert b[..64][38..62] == d == b[38..38 + 2 * 12];
    forall k: nat | k < NDIRECT ensures Direct(b, k) == direct[k] { WordAt(b, 38, direct, 2, k); }
  }

  /** The inode table is an array of 256 16-bit numbers. */
  lemma TableRead(b: Block, entries: seq<nat>, k: nat)
    requires |entries| == 256 && (forall i: nat :: i < 256 ==> entries[i] < Pow2(16)) && b == Words(entries, 2)
    requires k < FAT_SIZE
    ensures FatEntry(b, k) == entries[k]
  {
    hide ToLe, Get, Pow2, Words;
    assert b[0..0 + 2 * |entries|] == b;
    WordAt(b, 0, entries, 2, k);
  }

  /** An indirect block is an array of 128 32-bit numbers. */
  lemma IndirectRead(b: Block, pointers: seq<nat>, j: nat)
    requires |pointers| == 128 && (forall i: nat :: i < 128 ==> pointers[i] < Pow2(32)) && b == Words(pointers, 4)
    requires j < NFAR
    ensures Far(b, j) == pointers[j]
  {
    hide ToLe, Get, Pow2, Words;
    assert b[0..0 + 4 * |pointers|] == b;
    WordAt(b, 0, pointers, 4, j);
  }

  /** Block i is taken when bit i % 8 of byte i / 8 of the bitmap is set. */
  lemma BitmapRead(b: Block, i: nat)
    requires i < BLOCK_NUM
    ensures Taken(b, i) <==> Bit(b[i / 8], i % 8)
  {
    hide Le, Bit;
    var w, j := i / 32, i % 32 / 8;
    var s := b[4 * w..4 * w + 4];
    assert i / 8 == 4 * w + j && i % 8 == i % 32 % 8 && i % 32 == 8 * j + i % 8;
    assert s[j] == b[4 * w + j];
    LeBits(s, j, i % 8);
  }

  /** struct SuperBlock: magic number, number of blocks, number of clear blocks */
  function SuperBytes(magic: nat, blocks: nat, unused: nat): seq<byte> {
    ToLe(magic, 4) + ToLe(blocks, 2) + ToLe(unused, 2)
  }

  lemma SuperRead(b: Block, magic: nat, blocks: nat, unused: nat)
    requires unused < Pow2(16) && b[..8] == SuperBytes(magic, blocks, unused)
    ensures Unused(b) == unused
  {
    hide ToLe, Get, Pow2;
    assert b[..8] == b[0..0 + 8] == (ToLe(magic, 4) + ToLe(blocks, 2)) + ToLe(unused, 2) + [];
    GetField(b, 0, ToLe(magic, 4) + ToLe(blocks, 2), unused, 2, []);
  }

  /** The number of the block that holds byte x of the file in entry i: one of the
      inode's twelve direct pointers, or a pointer in its indirect block */
  function BlockOf(d: Disk, i: nat, x: nat): nat
    requires IsDisk(d) && i < 256
  {
    var f, n := Get(d[2], 2 * i, 2), x / 512;
    if f >= 2048 || n >= 140 then 0
    else if n < 12 then Get(d[f], 38 + 2 * n, 2)
    else
      var g := Get(d[f], 62, 2);
      if g >= 2048 then 0 else Get(d[g], 4 * (n - 12), 4)
  }

  lemma FileByte(d: Disk, owner: Owners, i: nat, x: nat)
    requires Owned(d, owner, {}) && IsFile(d, i) && WellShaped(d, i) && x < |Contents(d, i)|
    ensures 3 <= BlockOf(d, i, x) < 2048 && Contents(d, i)[x] == d[BlockOf(d, i, x)][x % 512]
  {
    hide Get, Taken, Named, Inode, Size, Bitmap, OwnersHold, SlotsOwn, FreeZero;
    var n := x / BLOCK_SIZE;
    assert x < 140 * 512 && BlockNo(d, i, n) != 0;
    FileBlock(d, owner, i, n);
    SlotRead(d, i, n);
    assert BlockNo(d, i, n) == BlockOf(d, i, x);
  }

  lemma SlotRead(d: Disk, i: nat, n: nat)
    requires IsDisk(d) && IsFile(d, i) && n < MAX_BLOCKS && BlockNo(d, i, n) != 0
    ensures BlockNo(d, i, n) == BlockOf(d, i, 512 * n) && BlockOf(d, i, 512 * n) == BlockOf(d, i, 512 * n + 511)
  {
    hide Get;
    assert Named(d, IndirectSlot(i)) == Get(d[FatEntry(d[2], i)], 62, 2);
  }
}
