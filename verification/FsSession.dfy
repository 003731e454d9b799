// kernel/fs.c, lines 137-300: files opened by name and read and written at the
// offset of each open file.
module FsSession {
  import opened OpenFiles
  import opened Bytes
  import opened FsLayout
  import opened FsOwners
  import opened FsFiles
  import opened FsGrow
  import opened FsWrite
  import opened FsCreate
  import opened FileSystem

  const SLASH: seq<byte> := [0x2f]  // "/"

  /** The offset lies in the file; in the root directory it counts whole inodes. */
  ghost predicate HandleOk(d: Disk, h: File)
    requires IsDisk(d)
    reads h`off
  {
    && h.kind != StdioFile
    && (h.kind.RootDir? ==> h.off % INODE_SIZE == 0)
    && (h.kind.DiskFile? ==> IsFile(d, h.entry) && InodeNo(d, h.entry) == h.inode && h.off <= |Contents(d, h.entry)|)
  }

  /** Files only grow, so offsets stay inside. */
  ghost predicate NotShorter(d: Disk, d': Disk) {
    && IsDisk(d) && IsDisk(d')
    && forall i: nat :: IsFile(d, i) ==>
      IsFile(d', i) && InodeNo(d', i) == InodeNo(d, i) && |Contents(d, i)| <= |Contents(d', i)|
  }

  lemma OthersNotShorter(d: Disk, d': Disk, i: nat)
    requires IsDisk(d) && IsDisk(d') && OthersKept(d, d', i)
    requires IsFile(d, i) ==> IsFile(d', i) && InodeNo(d', i) == InodeNo(d, i) && |Contents(d, i)| <= |Contents(d', i)|
    ensures NotShorter(d, d')
  {
    hide Contents, InodeNo, SameFile;
    forall j: nat | IsFile(d, j)
      ensures IsFile(d', j) && InodeNo(d', j) == InodeNo(d, j) && |Contents(d, j)| <= |Contents(d', j)|
    {
      if j != i {
        assert SameFile(d, d', j);
        SameFileMeans(d, d', j);
        SameInodeNo(d, d', j);
      }
    }
  }

  lemma MountedOwned(d: Disk, owner: Owners, files: nat)
    requires Mounted(d, owner, files)
    ensures IsDisk(d) && Owned(d, owner, {})
  {}

  lemma AbsentIsFree(d: Disk, owner: Owners, files: nat, name: seq<byte>)
    requires Mounted(d, owner, files) && !Exists(d, name)
    ensures NameFree(d, name)
  {
    hide Name, Taken, FatEntry, Named, Owned, AllShaped, NamesUnique, FatPrefix, FreeBlocks, InodeNo;
    MountedOwned(d, owner, files);
    forall j: nat | j < FAT_SIZE && InodeNo(d, j) != 0 ensures Name(d, j) != name {
      EntryUsable(d, owner, j);
      assert !IsNamed(d, j, name);
    }
  }

  /** A splice is never shorter than what it changes. */
  lemma SpliceLonger(s: seq<byte>, off: nat, data: seq<byte>)
    requires off <= |s|
    ensures |s| <= |Splice(s, off, data)| && off + |data| <= |Splice(s, off, data)|
  {}

  /** Some file has this name. */
  ghost predicate Exists(d: Disk, name: seq<byte>)
    requires IsDisk(d)
  {
    exists i: nat :: IsNamed(d, i, name)
  }

  /** What a name stands for: the root, the file of that name, or, if there is none
      and it is to be created, a new empty file.  Nothing else changes. */
  ghost predicate Resolved(d: Disk, n: nat, d': Disk, n': nat, name: seq<byte>, create: bool,
                           found: bool, kind: Kind, entry: nat) {
    && IsDisk(d) && IsDisk(d') && (found <==> Known(d, name, create))
    && (!found || name == SLASH || Exists(d, name) ==> d' == d && n' == n)
    && (found ==> kind == if name == SLASH then RootDir else DiskFile)
    && (found && name != SLASH ==> IsNamed(d', entry, name))
    && (found && name != SLASH && !Exists(d, name) ==>
         entry == n && n' == n + 1 && Contents(d', entry) == [] && OthersKept(d, d', entry))
  }

  /** A name that sys_open accepts */
  ghost predicate Known(d: Disk, name: seq<byte>, create: bool) {
    name == SLASH || create || (IsDisk(d) && Exists(d, name))
  }

  lemma ResolvedKnown(d: Disk, n: nat, d': Disk, n': nat, name: seq<byte>, create: bool, found: bool, kind: Kind,
                      entry: nat)
    requires Resolved(d, n, d', n', name, create, found, kind, entry)
    ensures IsDisk(d) && (found <==> Known(d, name, create)) && (!found ==> d' == d)
  {}

  /** What sys_read gives at offset from: the next bytes of a file, or the next
      inode of the root directory, and the offset after it. */
  ghost predicate HasRead(d: Disk, files: nat, kind: Kind, entry: nat, count: nat,
                          num: int, buf: seq<byte>, from: nat, to: nat) {
    && IsDisk(d) && kind != StdioFile
    && (kind.DiskFile? ==>
         && entry < FAT_SIZE && from <= |Contents(d, entry)|
         && buf == Upto(Contents(d, entry), from, count) && num == |buf| && to == from + |buf|)
    && (kind.RootDir? ==>
         var k := from / INODE_SIZE;
         if 0 < count < INODE_SIZE then num == -1 && buf == [] && to == from
         else if count == 0 || k >= files then num == 0 && buf == [] && to == from
         else k < FAT_SIZE && num == INODE_SIZE && buf == Inode(d, k)[..INODE_SIZE] && to == from + INODE_SIZE)
  }

  /** What sys_write does at offset from: one splice, which other files do not see. */
  ghost predicate HasWritten(d: Disk, d': Disk, entry: nat, buf: seq<byte>, num: int, from: nat, to: nat) {
    && IsDisk(d) && IsDisk(d') && entry < FAT_SIZE && from <= |Contents(d, entry)|
    && Contents(d', entry) == Splice(Contents(d, entry), from, buf) && num == |buf| && to == from + |buf|
    && Name(d', entry) == Name(d, entry) && OthersKept(d, d', entry)
  }

  /** There is room for n bytes at the file's offset. */
  ghost predicate MayWrite(d: Disk, h: File, n: nat)
    reads h`off
  {
    && IsDisk(d) && HandleOk(d, h) && h.entry < FAT_SIZE
    && h.off + n <= MAX_BLOCKS * BLOCK_SIZE && Room(d, h.entry, h.off + n)
  }

  /** An inode as an open file keeps it */
  ghost predicate Target(d: Disk, kind: Kind, inode: nat, entry: nat) {
    IsDisk(d) && kind != StdioFile && (kind.DiskFile? ==> IsFile(d, entry) && InodeNo(d, entry) == inode)
  }

  class Session {
    const image: Image
    ghost var files: nat
    ghost var handles: set<File>

    ghost predicate Mount()
      reads this, image, image.disk
    {
      image.disk.Length == BLOCK_NUM && Mounted(image.disk[..], image.owner, files)
    }

    ghost predicate Valid()
      reads this, image, image.disk, handles`off
    {
      Mount() && forall h <- handles :: HandleOk(image.disk[..], h)
    }

    constructor (image: Image, ghost files: nat)
      requires image.disk.Length == BLOCK_NUM && Mounted(image.disk[..], image.owner, files)
      ensures Valid() && handles == {} && this.image == image && this.files == files
    {
      this.image, this.files, handles := image, files, {};
    }

    twostate lemma StillValid()
      requires old(Valid()) && Mount() && old(handles) <= handles
      requires NotShorter(old(image.disk[..]), image.disk[..])
      requires forall h <- old(handles) :: unchanged(h)
      requires forall h <- handles :: h !in old(handles) ==> HandleOk(image.disk[..], h)
      ensures Valid()
    {
      hide HandleOk, NotShorter, Mounted;
      forall h <- handles ensures HandleOk(image.disk[..], h) {
        if h in old(handles) { KeptHandle(h); }
      }
    }

    twostate lemma KeptHandle(h: File)
      requires image.disk.Length == BLOCK_NUM && old(HandleOk(image.disk[..], h)) && unchanged(h)
      requires NotShorter(old(image.disk[..]), image.disk[..])
      ensures HandleOk(image.disk[..], h)
    {
      hide Contents, InodeNo;
    }

    /** Nothing about the files has changed. */
    twostate lemma Untouched()
      requires old(Valid()) && unchanged(this) && unchanged(image)
      requires image.disk[..] == old(image.disk[..])
      requires forall h <- handles :: h.off == old(h.off)
      ensures Valid()
    {
      hide Mounted, Contents, InodeNo;
    }

    /** Files that no table entry names are gone. */
    ghost method Keep(open: set<File>)
      requires Valid()
      modifies this`handles
      ensures Valid() && handles == old(handles) * open
    {
      handles := handles * open;
    }

    /** What sys_open needs if it comes to creating a file */
    ghost predicate MayOpen(name: seq<byte>, create: bool)
      requires Mount()
      reads this, image, image.disk
    {
      create && name != SLASH && !Exists(image.disk[..], name) ==>
        GoodName(name) && files < FAT_SIZE && FreeBlocks(image.disk[..]) != {}
    }

    /** The inode a name stands for, made if it has to be: the middle of sys_open */
    method Resolve(name: seq<byte>, create: bool) returns (found: bool, kind: Kind, inode: nat, ghost entry: nat)
      requires Valid() && MayOpen(name, create)
      modifies this`files, image, image.disk
      ensures Valid()
      ensures Resolved(old(image.disk[..]), old(files), image.disk[..], files, name, create, found, kind, entry)
      ensures found ==> Target(image.disk[..], kind, inode, entry)
    {
      hide Mounted, HandleOk, Contents, InodeNo, OthersKept, NotShorter, Name, FreeBlocks;
      ghost var d, owner := image.disk[..], image.owner;
      NotShorterSelf(d);
      found, kind, inode, entry := true, RootDir, 0, 0;
      if name != SLASH {
        kind := DiskFile;
        MountedOwned(d, image.owner, files);
        inode := image.Lookup(name);
        if inode != 0 {
          entry :| IsNamed(d, entry, name) && InodeNo(d, entry) == inode;
        } else if create {
          AbsentIsFree(d, image.owner, files, name);
          entry := files;
          inode := image.Create(name, files);
          files := files + 1;
          NextEntry(d, owner, entry);
          OthersNotShorter(d, image.disk[..], entry);
        } else {
          found := false;
        }
      }
      StillValid();
    }

    /** A new open file of what a name stands for */
    ghost method Adopt(h: File)
      requires Valid() && h.off == 0 && Target(image.disk[..], h.kind, h.inode, h.entry)
      modifies this`handles
      ensures Valid() && handles == old(handles) + {h}
    {
      NewHandle(image.disk[..], h);
      handles := handles + {h};
    }

    /** sys_read of an open file of the disk or of the root directory */
    method Read(h: File, count: nat) returns (num: int, buf: seq<byte>)
      requires Valid() && h in handles
      modifies h`off
      ensures Valid() && HasRead(image.disk[..], files, h.kind, h.entry, count, num, buf, old(h.off), h.off)
    {
      buf := [];
      if count == 0 { return 0, buf; }
      if h.kind.RootDir? {
        if count < INODE_SIZE { return -1, buf; }
        buf := ReadRootAt(h);
      } else {
        buf := ReadFileAt(h, count);
      }
      num := |buf|;
    }

    method ReadRootAt(h: File) returns (buf: seq<byte>)
      requires Valid() && h in handles && h.kind.RootDir?
      modifies h`off
      ensures Valid()
      ensures if old(h.off) / INODE_SIZE < files
        then h.off == old(h.off) + INODE_SIZE && buf == Inode(image.disk[..], old(h.off) / INODE_SIZE)[..INODE_SIZE]
        else h.off == old(h.off) && buf == []
    {
      hide Mounted, Contents, Inode, InodeNo;
      ghost var d := image.disk[..];
      MountedOwned(d, image.owner, files);
      var off;
      buf, off := image.ReadRoot(h.off);
      assert image.disk[..] == d;
      RootNext(d, image.owner, files, h.off, buf, off);
      h.off := off;
      assert HandleOk(d, h);
    }

    method ReadFileAt(h: File, count: nat) returns (buf: seq<byte>)
      requires Valid() && h in handles && h.kind.DiskFile?
      modifies h`off
      ensures Valid() && HandleOk(image.disk[..], h) && old(h.off) <= |Contents(image.disk[..], h.entry)|
      ensures h.off == old(h.off) + |buf| && buf == Upto(Contents(image.disk[..], h.entry), old(h.off), count)
    {
      hide Mounted, Contents, InodeNo, Inode, Owned, WellShaped;
      ghost var d := image.disk[..];
      MountedParts(d, image.owner, files, h.entry);
      ContentsSize(d, h.entry);
      buf := image.ReadInode(h.inode, h.off, count, h.entry);
      Advanced(Contents(d, h.entry), h.off, count);
      h.off := h.off + |buf|;
      assert HandleOk(d, h);
    }

    /** sys_write to an open file of the disk */
    method Write(h: File, buf: seq<byte>) returns (num: nat)
      requires Valid() && h in handles && h.kind.DiskFile? && MayWrite(image.disk[..], h, |buf|)
      modifies image, image.disk, h`off
      ensures Valid() && HandleOk(image.disk[..], h)
      ensures HasWritten(old(image.disk[..]), image.disk[..], h.entry, buf, num, old(h.off), h.off)
    {
      hide Mounted, Contents, InodeNo, Inode, Owned, WellShaped, Name, OthersKept, NotShorter, Splice, Room;
      ghost var d := image.disk[..];
      MountedParts(d, image.owner, files, h.entry);
      ContentsSize(d, h.entry);
      SpliceLonger(Contents(d, h.entry), h.off, buf);
      num := image.WriteInode(h.inode, h.off, buf, h.entry, files);
      OthersNotShorter(d, image.disk[..], h.entry);
      h.off := h.off + num;
      AfterWrite(h);
    }

    twostate lemma AfterWrite(h: File)
      requires old(Valid()) && Mount() && unchanged(this) && h in handles
      requires NotShorter(old(image.disk[..]), image.disk[..]) && HandleOk(image.disk[..], h)
      requires forall g <- handles :: g != h ==> unchanged(g)
      ensures Valid()
    {
      hide HandleOk, NotShorter, Mounted;
      forall g <- handles ensures HandleOk(image.disk[..], g) {
        if g != h { KeptHandle(g); }
      }
    }
  }

  lemma ContentsSize(d: Disk, i: nat)
    requires IsDisk(d) && IsFile(d, i)
    ensures |Contents(d, i)| == Size(Inode(d, i))
  {}

  /** The next count bytes from off on, or what there is */
  function Upto(s: seq<byte>, off: nat, count: nat): seq<byte>
    requires off <= |s|
  {
    if off + count <= |s| then s[off..off + count] else s[off..]
  }

  /** As many bytes as asked for or as there are, each from its place */
  lemma UptoIs(s: seq<byte>, off: nat, count: nat)
    requires off <= |s|
    ensures var r := Upto(s, off, count);
      && |r| == (if count <= |s| - off then count else |s| - off) && forall k: nat :: k < |r| ==> r[k] == s[off + k]
  {}

  /** Two reads in a row give what one longer read gives. */
  lemma UptoTwice(s: seq<byte>, off: nat, a: nat, b: nat)
    requires off <= |s|
    ensures off + |Upto(s, off, a)| <= |s|
    ensures Upto(s, off, a) + Upto(s, off + |Upto(s, off, a)|, b) == Upto(s, off, a + b)
  {
    if off + a + b <= |s| {
      assert s[off..off + a] + s[off + a..off + a + b] == s[off..off + a + b];
    } else if off + a <= |s| {
      assert s[off..off + a] + s[off + a..] == s[off..];
    }
  }

  /** Two writes in a row do what one longer write does. */
  lemma SpliceTwice(s: seq<byte>, off: nat, a: seq<byte>, b: seq<byte>)
    requires off <= |s|
    ensures off + |a| <= |Splice(s, off, a)|
    ensures Splice(Splice(s, off, a), off + |a|, b) == Splice(s, off, a + b)
  {
    var r := Splice(s, off, a);
    assert r[..off + |a|] == s[..off] + a;
  }

  lemma NotShorterSelf(d: Disk)
    requires IsDisk(d)
    ensures NotShorter(d, d)
  {}

  /** A new handle starts at the beginning. */
  lemma NewHandle(d: Disk, h: File)
    requires h.off == 0 && Target(d, h.kind, h.inode, h.entry)
    ensures HandleOk(d, h)
  {}

  lemma NextEntry(d: Disk, owner: Owners, files: nat)
    requires Mounted(d, owner, files)
    ensures !IsFile(d, files)
  {
    hide Owned, AllShaped, NamesUnique, FreeBlocks;
    if IsFile(d, files) { FileHasNumber(d, files); }
  }

  /** The next inode of the root directory */
  lemma RootNext(d: Disk, owner: Owners, files: nat, off: nat, buf: seq<byte>, newOff: nat)
    requires Mounted(d, owner, files) && off % INODE_SIZE == 0
    requires buf == [] ==> newOff == off && forall j: nat :: off / INODE_SIZE <= j < FAT_SIZE ==> InodeNo(d, j) == 0
    requires buf != [] ==> newOff == off + INODE_SIZE
    requires buf != [] ==> exists j: nat :: FirstFrom(d, off / INODE_SIZE, j) && buf == Inode(d, j)[..INODE_SIZE]
    ensures newOff % INODE_SIZE == 0 && files <= FAT_SIZE
    ensures if off / INODE_SIZE < files
      then newOff == off + INODE_SIZE && buf == Inode(d, off / INODE_SIZE)[..INODE_SIZE]
      else newOff == off && buf == []
  {
    hide Owned, AllShaped, NamesUnique, FreeBlocks, Inode, InodeNo;
    var k := off / INODE_SIZE;
    assert off == INODE_SIZE * k;
    RootOrder(d, owner, files, k);
    if k < files { FileHasNumber(d, k); }
  }

  lemma Advanced(s: seq<byte>, off: nat, count: nat)
    requires off <= |s|
    ensures off + |Upto(s, off, count)| <= |s|
  {}
}
