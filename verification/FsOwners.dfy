// Who owns which block of a SimpleFS image: every allocated block is one of the
// three fixed ones or is named by exactly one slot.
module FsOwners {
  import opened Bytes
  import opened FsLayout

  /** The places that name blocks: entry i of the inode table; direct pointer k,
      the indirect pointer, and far pointer j of the inode in that entry. */
  datatype Slot = FatSlot(i: nat) | DirectSlot(i: nat, k: nat) | IndirectSlot(i: nat) | FarSlot(i: nat, j: nat)

  predicate Proper(s: Slot) {
    s.i < FAT_SIZE && (s.DirectSlot? ==> s.k < NDIRECT) && (s.FarSlot? ==> s.j < NFAR)
  }

  ghost predicate IsDisk(d: Disk) {
    |d| == BLOCK_NUM
  }

  predicate Usable(b: nat) {
    0 < b < BLOCK_NUM
  }

  /** The block number a slot holds; 0 if none. */
  function Named(d: Disk, s: Slot): nat
    requires IsDisk(d) && Proper(s)
    decreases if s.FarSlot? then 1 else 0
  {
    match s
    case FatSlot(i) => FatEntry(d[2], i)
    case DirectSlot(i, k) => var f := FatEntry(d[2], i); if Usable(f) then Direct(d[f], k) else 0
    case IndirectSlot(i) => var f := FatEntry(d[2], i); if Usable(f) then Indirect(d[f]) else 0
    case FarSlot(i, j) => var n := Named(d, IndirectSlot(i)); if Usable(n) then Far(d[n], j) else 0
  }

  type Owners = map<nat, Slot>

  ghost predicate Bitmap(d: Disk, owner: Owners, pending: set<nat>)
    requires IsDisk(d)
  {
    forall b: nat :: b < BLOCK_NUM ==> (Taken(d[1], b) <==> b < 3 || b in owner || b in pending)
  }

  ghost predicate OwnersHold(d: Disk, owner: Owners)
    requires IsDisk(d)
  {
    forall b :: b in owner ==> 3 <= b < BLOCK_NUM && Proper(owner[b]) && Named(d, owner[b]) == b
  }

  ghost predicate SlotsOwn(d: Disk, owner: Owners)
    requires IsDisk(d)
  {
    forall s :: Proper(s) && Named(d, s) != 0 ==> Named(d, s) in owner && owner[Named(d, s)] == s
  }

  ghost predicate FreeZero(d: Disk)
    requires IsDisk(d)
  {
    forall b: nat :: b < BLOCK_NUM && !Taken(d[1], b) ==> d[b] == ZeroBlock()
  }

  ghost predicate Pending(owner: Owners, pending: set<nat>) {
    forall b :: b in pending ==> 3 <= b < BLOCK_NUM && b !in owner
  }

  /** The ownership invariant; pending blocks are allocated but not yet named. */
  ghost predicate Owned(d: Disk, owner: Owners, pending: set<nat>) {
    IsDisk(d) && Bitmap(d, owner, pending) && OwnersHold(d, owner) && SlotsOwn(d, owner) && FreeZero(d)
      && Pending(owner, pending)
  }

  ghost function FreeBlocks(d: Disk): set<nat>
    requires IsDisk(d)
  {
    set b: nat | b < BLOCK_NUM && !Taken(d[1], b)
  }

  ghost predicate SameNames(d: Disk, d': Disk)
    requires IsDisk(d) && IsDisk(d')
  {
    forall s :: Proper(s) ==> Named(d', s) == Named(d, s)
  }

  // ---------- changes that keep the invariant ----------

  /** Changing the contents of allocated blocks without renaming anything. */
  lemma SameNamesOwned(d: Disk, d': Disk, owner: Owners, pending: set<nat>)
    requires Owned(d, owner, pending) && IsDisk(d') && SameNames(d, d') && d'[1] == d[1]
    requires forall b: nat :: b < BLOCK_NUM && !Taken(d[1], b) ==> d'[b] == d[b]
    ensures Owned(d', owner, pending) && FreeBlocks(d') == FreeBlocks(d)
  {
    hide Named, Taken, ZeroBlock;
  }

  /** A block that holds no names: file data, or not named itself. */
  ghost predicate DataBlock(owner: Owners, pending: set<nat>, b: nat) {
    b in pending || (b in owner && (owner[b].DirectSlot? || owner[b].FarSlot?))
  }

  lemma WriteData(d: Disk, owner: Owners, pending: set<nat>, b: nat, x: Block)
    requires Owned(d, owner, pending) && DataBlock(owner, pending, b)
    ensures 3 <= b < BLOCK_NUM
    ensures var d' := d[b := x];
      Owned(d', owner, pending) && SameNames(d, d') && FreeBlocks(d') == FreeBlocks(d)
  {
    hide Get, Taken, ZeroBlock, FatEntry, Direct, Indirect, Far;
    var d' := d[b := x];
    forall s | Proper(s) ensures Named(d', s) == Named(d, s) {
      WriteDataName(d, owner, pending, b, x, s);
    }
    SameNamesOwned(d, d', owner, pending);
  }

  lemma WriteDataName(d: Disk, owner: Owners, pending: set<nat>, b: nat, x: Block, s: Slot)
    requires Owned(d, owner, pending) && DataBlock(owner, pending, b) && Proper(s) && 3 <= b < BLOCK_NUM
    ensures Named(d[b := x], s) == Named(d, s)
  {
    hide Get, Taken, ZeroBlock, FatEntry, Direct, Indirect, Far;
    var f := FatSlot(s.i);
    var n := IndirectSlot(s.i);
    assert Named(d, f) != 0 ==> owner[Named(d, f)] == f;
    assert Named(d, n) != 0 ==> owner[Named(d, n)] == n;
  }

  /** Changing an inode's header or other parts that are not block numbers. */
  lemma WriteHeader(d: Disk, owner: Owners, pending: set<nat>, i: nat, x: Block)
    requires Owned(d, owner, pending) && i < FAT_SIZE && FatEntry(d[2], i) != 0
    ensures 3 <= FatEntry(d[2], i) < BLOCK_NUM
    ensures SameNumbers(d[FatEntry(d[2], i)], x) ==>
      var d' := d[FatEntry(d[2], i) := x];
      Owned(d', owner, pending) && SameNames(d, d') && FreeBlocks(d') == FreeBlocks(d)
  {
    hide Get, Taken, ZeroBlock, FatEntry, Direct, Indirect, Far;
    var f := FatEntry(d[2], i);
    assert Named(d, FatSlot(i)) == f;
    assert f in owner && owner[f] == FatSlot(i);
    if SameNumbers(d[f], x) {
      var d' := d[f := x];
      forall s | Proper(s) ensures Named(d', s) == Named(d, s) {
        var n := IndirectSlot(s.i);
        assert Named(d, n) != 0 ==> owner[Named(d, n)] == n;
        assert Named(d', n) == Named(d, n);
      }
      SameNamesOwned(d, d', owner, pending);
    }
  }

  /** Marking a clear block as allocated. */
  lemma TakeBlock(d: Disk, owner: Owners, pending: set<nat>, b: nat, sb: Block)
    requires Owned(d, owner, pending) && b < BLOCK_NUM && !Taken(d[1], b)
    ensures 3 <= b && b !in owner && b !in pending && d[b] == ZeroBlock()
    ensures var d' := d[0 := sb][1 := Take(d[1], b)];
      Owned(d', owner, pending + {b}) && SameNames(d, d') && FreeBlocks(d') == FreeBlocks(d) - {b}
  {
    hide Get, Taken, Take, ZeroBlock, FatEntry, Direct, Indirect, Far;
    var d' := d[0 := sb][1 := Take(d[1], b)];
    forall x: nat | x < BLOCK_NUM ensures Taken(d'[1], x) <==> Taken(d[1], x) || x == b { TakeBit(d[1], b, x); }
    forall s | Proper(s) ensures Named(d', s) == Named(d, s) {
      var f := FatSlot(s.i);
      var n := IndirectSlot(s.i);
      assert Named(d, f) != 0 ==> Named(d, f) in owner;
      assert Named(d, n) != 0 ==> Named(d, n) in owner;
      assert Named(d', f) == Named(d, f);
    }
  }

  /** Naming a pending block in an empty slot. */
  lemma NameBlock(d: Disk, d': Disk, owner: Owners, pending: set<nat>, b: nat, s0: Slot)
    requires Owned(d, owner, pending) && IsDisk(d') && d'[1] == d[1] && b in pending && Proper(s0)
    requires Named(d, s0) == 0 && Named(d', s0) == b
    requires forall s :: Proper(s) && s != s0 ==> Named(d', s) == Named(d, s)
    requires forall x: nat :: x < BLOCK_NUM && !Taken(d[1], x) ==> d'[x] == d[x]
    ensures Owned(d', owner[b := s0], pending - {b}) && FreeBlocks(d') == FreeBlocks(d)
  {
    hide Named, Taken, ZeroBlock;
    var owner' := owner[b := s0];
    forall s | Proper(s) && Named(d', s) != 0 ensures Named(d', s) in owner' && owner'[Named(d', s)] == s {
      if s != s0 { assert Named(d, s) in owner && owner[Named(d, s)] == s; }
    }
    forall x | x in owner' ensures 3 <= x < BLOCK_NUM && Proper(owner'[x]) && Named(d', owner'[x]) == x {
      if x != b { assert Named(d, owner[x]) == x; }
    }
  }

  /** Storing a pending block's number as direct pointer k of inode i. */
  lemma LinkDirect(d: Disk, owner: Owners, pending: set<nat>, b: nat, i: nat, k: nat)
    requires Owned(d, owner, pending) && b in pending && i < FAT_SIZE && k < NDIRECT
    requires FatEntry(d[2], i) != 0 && Named(d, DirectSlot(i, k)) == 0
    ensures 3 <= FatEntry(d[2], i) < BLOCK_NUM
    ensures var f := FatEntry(d[2], i); var d' := d[f := SetDirect(d[f], k, b)]; var s0 := DirectSlot(i, k);
      && Owned(d', owner[b := s0], pending - {b}) && FreeBlocks(d') == FreeBlocks(d)
      && Named(d', s0) == b && forall s :: Proper(s) && s != s0 ==> Named(d', s) == Named(d, s)
  {
    hide Get, Put, Taken, ZeroBlock, FatEntry, Direct, SetDirect, Indirect, Far;
    var f := FatEntry(d[2], i);
    assert Named(d, FatSlot(i)) == f;
    assert f in owner && owner[f] == FatSlot(i);
    DirectSet(d[f], k, b);
    var d' := d[f := SetDirect(d[f], k, b)];
    forall s | Proper(s) && s != DirectSlot(i, k) ensures Named(d', s) == Named(d, s) {
      var g := FatSlot(s.i);
      var n := IndirectSlot(s.i);
      assert Named(d, g) != 0 ==> owner[Named(d, g)] == g;
      assert Named(d, n) != 0 ==> owner[Named(d, n)] == n;
      assert Named(d', n) == Named(d, n);
    }
    NameBlock(d, d', owner, pending, b, DirectSlot(i, k));
  }

  /** Storing a pending zero block's number as indirect pointer of inode i. */
  lemma LinkIndirect(d: Disk, owner: Owners, pending: set<nat>, b: nat, i: nat)
    requires Owned(d, owner, pending) && b in pending && i < FAT_SIZE && b < BLOCK_NUM && d[b] == ZeroBlock()
    requires FatEntry(d[2], i) != 0 && Named(d, IndirectSlot(i)) == 0
    ensures 3 <= FatEntry(d[2], i) < BLOCK_NUM
    ensures var f := FatEntry(d[2], i); var d' := d[f := SetIndirect(d[f], b)]; var s0 := IndirectSlot(i);
      && Owned(d', owner[b := s0], pending - {b}) && FreeBlocks(d') == FreeBlocks(d)
      && Named(d', s0) == b && forall s :: Proper(s) && s != s0 ==> Named(d', s) == Named(d, s)
  {
    hide Get, Put, Taken, ZeroBlock, FatEntry, Direct, SetIndirect, Indirect, Far;
    var f := FatEntry(d[2], i);
    assert Named(d, FatSlot(i)) == f;
    assert f in owner && owner[f] == FatSlot(i);
    IndirectSet(d[f], b);
    ZeroFields();
    var d' := d[f := SetIndirect(d[f], b)];
    forall s | Proper(s) && s != IndirectSlot(i) ensures Named(d', s) == Named(d, s) {
      var g := FatSlot(s.i);
      var n := IndirectSlot(s.i);
      assert Named(d, g) != 0 ==> owner[Named(d, g)] == g;
      assert Named(d, n) != 0 ==> owner[Named(d, n)] == n;
    }
    NameBlock(d, d', owner, pending, b, IndirectSlot(i));
  }

  /** Storing a pending block's number as far pointer j of inode i. */
  lemma LinkFar(d: Disk, owner: Owners, pending: set<nat>, b: nat, i: nat, j: nat)
    requires Owned(d, owner, pending) && b in pending && i < FAT_SIZE && j < NFAR
    requires Named(d, IndirectSlot(i)) != 0 && Named(d, FarSlot(i, j)) == 0
    ensures 3 <= Named(d, IndirectSlot(i)) < BLOCK_NUM
    ensures var n := Named(d, IndirectSlot(i)); var d' := d[n := SetFar(d[n], j, b)]; var s0 := FarSlot(i, j);
      && Owned(d', owner[b := s0], pending - {b}) && FreeBlocks(d') == FreeBlocks(d)
      && Named(d', s0) == b && forall s :: Proper(s) && s != s0 ==> Named(d', s) == Named(d, s)
  {
    hide Get, Put, Taken, ZeroBlock, FatEntry, Direct, SetFar, Indirect, Far;
    var n0 := Named(d, IndirectSlot(i));
    assert n0 in owner && owner[n0] == IndirectSlot(i);
    var d' := d[n0 := SetFar(d[n0], j, b)];
    forall m: nat | m < NFAR ensures Far(SetFar(d[n0], j, b), m) == if m == j then b else Far(d[n0], m) {
      FarSet(d[n0], j, b, m);
    }
    forall s | Proper(s) && !s.FarSlot? ensures Named(d', s) == Named(d, s) {
      var g := FatSlot(s.i);
      assert Named(d, g) != 0 ==> owner[Named(d, g)] == g;
    }
    forall s | Proper(s) && s != FarSlot(i, j) ensures Named(d', s) == Named(d, s) {
      var n := IndirectSlot(s.i);
      assert Named(d', n) == Named(d, n);
      assert Named(d, n) != 0 ==> owner[Named(d, n)] == n;
    }
    NameBlock(d, d', owner, pending, b, FarSlot(i, j));
  }

  /** Storing a pending zero block's number in entry i of the inode table. */
  lemma LinkFat(d: Disk, owner: Owners, pending: set<nat>, b: nat, i: nat)
    requires Owned(d, owner, pending) && b in pending && i < FAT_SIZE && b < BLOCK_NUM && d[b] == ZeroBlock()
    requires FatEntry(d[2], i) == 0
    ensures var d' := d[2 := SetFat(d[2], i, b)]; var s0 := FatSlot(i);
      && Owned(d', owner[b := s0], pending - {b}) && FreeBlocks(d') == FreeBlocks(d)
      && Named(d', s0) == b && forall s :: Proper(s) && s != s0 ==> Named(d', s) == Named(d, s)
  {
    hide Get, Put, Taken, ZeroBlock, FatEntry, SetFat, Direct, Indirect, Far;
    var d' := d[2 := SetFat(d[2], i, b)];
    ZeroFields();
    forall m: nat | m < FAT_SIZE ensures FatEntry(d'[2], m) == if m == i then b else FatEntry(d[2], m) {
      FatSet(d[2], i, b, m);
    }
    assert Taken(d[1], 2);
    forall s | Proper(s) && s != FatSlot(i) ensures Named(d', s) == Named(d, s) {
      var g := FatSlot(s.i);
      var n := IndirectSlot(s.i);
      assert Named(d, g) != 0 ==> Named(d, g) in owner;
      assert Named(d, n) != 0 ==> Named(d, n) in owner;
      assert s.i != i ==> Named(d', g) == Named(d, g);
      assert Named(d', n) == Named(d, n);
    }
    NameBlock(d, d', owner, pending, b, FatSlot(i));
  }
}
