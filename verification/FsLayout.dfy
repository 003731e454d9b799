// kernel/fs.h: the layout of a SimpleFS image.  Block 0 is the superblock, block
// 1 the bitmap of allocated blocks, block 2 the table of inodes (FAT).
module FsLayout {
  import opened Bits
  import opened Bytes

  const BLOCK_SIZE: nat := 512
  const BLOCK_NUM: nat := 2048
  const FAT_SIZE: nat := 256     // 16-bit entries in a block
  const NDIRECT: nat := 12
  const NFAR: nat := 128         // 32-bit entries in an indirect block
  const MAX_BLOCKS: nat := 140
  const NAME_SIZE: nat := 32
  const INODE_SIZE: nat := 64

  type Block = s: seq<byte> | |s| == 512 witness seq(512, _ => 0)
  type Disk = seq<Block>

  function ZeroBlock(): Block {
    seq(512, _ => 0)
  }

  // ---------- superblock ----------

  function Unused(b: Block): nat {
    Get(b, 6, 2)
  }

  function SetUnused(b: Block, v: nat): Block {
    Put(b, 6, 2, v)
  }

  // ---------- bitmap, 32-bit words ----------

  function MapWord(b: Block, w: nat): nat
    requires w < 64
  {
    Get(b, 4 * w, 4)
  }

  predicate Taken(b: Block, i: nat)
    requires i < BLOCK_NUM
  {
    Bit(MapWord(b, i / 32), i % 32)
  }

  /** freemap[i / 32] |= 1 << i % 32 */
  function Take(b: Block, i: nat): Block
    requires i < BLOCK_NUM
  {
    Put(b, 4 * (i / 32), 4, Or(MapWord(b, i / 32), Pow2(i % 32)))
  }

  // ---------- inode table ----------

  function FatEntry(b: Block, i: nat): nat
    requires i < FAT_SIZE
  {
    Get(b, 2 * i, 2)
  }

  function SetFat(b: Block, i: nat, v: nat): Block
    requires i < FAT_SIZE
  {
    Put(b, 2 * i, 2, v)
  }

  // ---------- inodes ----------

  function Size(b: Block): nat {
    Get(b, 0, 4)
  }

  function SetSize(b: Block, v: nat): Block {
    Put(b, 0, 4, v)
  }

  function NameField(b: Block): seq<byte> {
    b[4..36]
  }

  function Blocks(b: Block): nat {
    Get(b, 36, 2)
  }

  function SetBlocks(b: Block, v: nat): Block {
    Put(b, 36, 2, v)
  }

  function Direct(b: Block, k: nat): nat
    requires k < NDIRECT
  {
    Get(b, 38 + 2 * k, 2)
  }

  function SetDirect(b: Block, k: nat, v: nat): Block
    requires k < NDIRECT
  {
    Put(b, 38 + 2 * k, 2, v)
  }

  function Indirect(b: Block): nat {
    Get(b, 62, 2)
  }

  function SetIndirect(b: Block, v: nat): Block {
    Put(b, 62, 2, v)
  }

  // ---------- indirect blocks ----------

  function Far(b: Block, j: nat): nat
    requires j < NFAR
  {
    Get(b, 4 * j, 4)
  }

  function SetFar(b: Block, j: nat, v: nat): Block
    requires j < NFAR
  {
    Put(b, 4 * j, 4, v)
  }

  // ---------- setting one field leaves the others ----------

  /** The parts of an inode that its setters keep apart. */
  ghost predicate SameNumbers(b: Block, c: Block) {
    && (forall k: nat :: k < NDIRECT ==> Direct(c, k) == Direct(b, k))
    && Indirect(c) == Indirect(b)
  }

  lemma UnusedSet(b: Block, v: nat)
    requires v < 0x1_0000
    ensures Unused(SetUnused(b, v)) == v
  {
    hide Le;
    FieldBounds();
    GetPut(b, 6, 2, v);
  }

  lemma TakeBit(b: Block, i: nat, j: nat)
    requires i < BLOCK_NUM && j < BLOCK_NUM
    ensures Taken(Take(b, i), j) <==> Taken(b, j) || i == j
  {
    hide Get, Put, Or, Bit, Pow2;
    var w := MapWord(b, i / 32);
    FieldBounds();
    WordBound(b, i / 32);
    OrPow2Bound(w, i % 32);
    if i / 32 == j / 32 {
      GetPut(b, 4 * (i / 32), 4, Or(w, Pow2(i % 32)));
      OrBit(w, Pow2(i % 32), j % 32);
      Pow2Bit(i % 32, j % 32);
    } else {
      GetPutOther(b, 4 * (i / 32), 4, Or(w, Pow2(i % 32)), 4 * (j / 32), 4);
    }
  }

  lemma WordBound(b: Block, w: nat)
    requires w < 64
    ensures MapWord(b, w) < Pow2(32)
  {
    LeBound(b[4 * w..4 * w + 4]);
  }

  lemma FatSet(b: Block, i: nat, v: nat, j: nat)
    requires i < FAT_SIZE && j < FAT_SIZE && v < 0x1_0000
    ensures FatEntry(SetFat(b, i, v), j) == if i == j then v else FatEntry(b, j)
  {
    hide Get, Put;
    FieldBounds();
    if i == j { GetPut(b, 2 * i, 2, v); } else { GetPutOther(b, 2 * i, 2, v, 2 * j, 2); }
  }

  lemma SizeSet(b: Block, v: nat)
    requires v < 0x1_0000_0000
    ensures Size(SetSize(b, v)) == v && Blocks(SetSize(b, v)) == Blocks(b)
    ensures NameField(SetSize(b, v)) == NameField(b) && SameNumbers(b, SetSize(b, v))
  {
    hide Get, Put;
    FieldBounds();
    GetPut(b, 0, 4, v);
    GetPutOther(b, 0, 4, v, 36, 2);
    GetPutOther(b, 0, 4, v, 4, 32);
    GetPutOther(b, 0, 4, v, 62, 2);
    forall k: nat | k < NDIRECT ensures Direct(SetSize(b, v), k) == Direct(b, k) {
      GetPutOther(b, 0, 4, v, 38 + 2 * k, 2);
    }
  }

  lemma BlocksSet(b: Block, v: nat)
    requires v < 0x1_0000
    ensures Blocks(SetBlocks(b, v)) == v && Size(SetBlocks(b, v)) == Size(b)
    ensures NameField(SetBlocks(b, v)) == NameField(b) && SameNumbers(b, SetBlocks(b, v))
  {
    hide Get, Put;
    FieldBounds();
    GetPut(b, 36, 2, v);
    GetPutOther(b, 36, 2, v, 0, 4);
    GetPutOther(b, 36, 2, v, 4, 32);
    GetPutOther(b, 36, 2, v, 62, 2);
    forall k: nat | k < NDIRECT ensures Direct(SetBlocks(b, v), k) == Direct(b, k) {
      GetPutOther(b, 36, 2, v, 38 + 2 * k, 2);
    }
  }

  /** Size, name and block count. */
  ghost predicate SameHeader(b: Block, c: Block) {
    Size(c) == Size(b) && NameField(c) == NameField(b) && Blocks(c) == Blocks(b)
  }

  lemma DirectSet(b: Block, k: nat, v: nat)
    requires k < NDIRECT && v < 0x1_0000
    ensures forall m: nat :: m < NDIRECT ==> Direct(SetDirect(b, k, v), m) == if m == k then v else Direct(b, m)
    ensures Indirect(SetDirect(b, k, v)) == Indirect(b) && SameHeader(b, SetDirect(b, k, v))
  {
    hide Get, Put;
    FieldBounds();
    var off := 38 + 2 * k;
    GetPut(b, off, 2, v);
    GetPutOther(b, off, 2, v, 0, 4);
    GetPutOther(b, off, 2, v, 4, 32);
    GetPutOther(b, off, 2, v, 36, 2);
    GetPutOther(b, off, 2, v, 62, 2);
    forall m: nat | m < NDIRECT ensures Direct(SetDirect(b, k, v), m) == if m == k then v else Direct(b, m) {
      if m != k { GetPutOther(b, off, 2, v, 38 + 2 * m, 2); }
    }
  }

  lemma IndirectSet(b: Block, v: nat)
    requires v < 0x1_0000
    ensures Indirect(SetIndirect(b, v)) == v && SameHeader(b, SetIndirect(b, v))
    ensures forall m: nat :: m < NDIRECT ==> Direct(SetIndirect(b, v), m) == Direct(b, m)
  {
    hide Get, Put;
    FieldBounds();
    GetPut(b, 62, 2, v);
    GetPutOther(b, 62, 2, v, 0, 4);
    GetPutOther(b, 62, 2, v, 4, 32);
    GetPutOther(b, 62, 2, v, 36, 2);
    forall m: nat | m < NDIRECT ensures Direct(SetIndirect(b, v), m) == Direct(b, m) {
      GetPutOther(b, 62, 2, v, 38 + 2 * m, 2);
    }
  }

  lemma FarSet(b: Block, j: nat, v: nat, m: nat)
    requires j < NFAR && m < NFAR && v < 0x1_0000_0000
    ensures Far(SetFar(b, j, v), m) == if m == j then v else Far(b, m)
  {
    hide Get, Put;
    FieldBounds();
    if m == j { GetPut(b, 4 * j, 4, v); } else { GetPutOther(b, 4 * j, 4, v, 4 * m, 4); }
  }

  lemma ZeroFields()
    ensures Size(ZeroBlock()) == 0 && Blocks(ZeroBlock()) == 0 && Indirect(ZeroBlock()) == 0
    ensures forall k: nat :: k < NDIRECT ==> Direct(ZeroBlock(), k) == 0
    ensures forall j: nat :: j < NFAR ==> Far(ZeroBlock(), j) == 0
  {
    hide Le;
    var z := ZeroBlock();
    forall off: nat, n: nat | off + n <= 512 ensures Get(z, off, n) == 0 { LeZero(z[off..off + n]); }
  }

  // ---------- names ----------

  /** The bytes of a C string up to its terminator. */
  function CString(s: seq<byte>): (r: seq<byte>)
    ensures |r| <= |s|
  {
    if s == [] || s[0] == 0 then [] else [s[0]] + CString(s[1..])
  }

  /** strcpy into the name field; the name and its terminator fit. */
  function SetName(b: Block, name: seq<byte>): Block
    requires |name| < NAME_SIZE
  {
    b[..4] + name + [0] + b[4 + |name| + 1..]
  }

  predicate GoodName(name: seq<byte>) {
    |name| < NAME_SIZE && 0 !in name
  }

  lemma {:induction false} CStringOf(name: seq<byte>, rest: seq<byte>)
    requires 0 !in name
    ensures CString(name + [0] + rest) == name
  {
    var s := name + [0] + rest;
    if name != [] {
      assert s[1..] == name[1..] + [0] + rest;
      CStringOf(name[1..], rest);
    }
  }

  lemma AfterName(b: Block, name: seq<byte>, i: nat, j: nat)
    requires |name| < NAME_SIZE && 36 <= i <= j <= BLOCK_SIZE
    ensures SetName(b, name)[i..j] == b[i..j]
  {}

  lemma NameSet(b: Block, name: seq<byte>)
    requires GoodName(name)
    ensures var c := SetName(b, name);
      CString(NameField(c)) == name && Size(c) == Size(b) && Blocks(c) == Blocks(b) && SameNumbers(b, c)
  {
    hide Le;
    var c := SetName(b, name);
    assert NameField(c) == name + [0] + c[4 + |name| + 1..36];
    CStringOf(name, c[4 + |name| + 1..36]);
    assert c[0..4] == b[0..4];
    AfterName(b, name, 36, 38);
    AfterName(b, name, 62, 64);
    forall k: nat | k < NDIRECT ensures Direct(c, k) == Direct(b, k) {
      AfterName(b, name, 38 + 2 * k, 38 + 2 * k + 2);
    }
  }
}
