// kernel/fs.c and kernel/process.c: system calls and the scheduler with the
// processes and the file system side by side.  The two share the open files: counts
// belong to the one and offsets to the other.  Every step keeps them together.
module FileCalls {
  import opened OpenFiles
  import opened Bytes
  import opened ProcSpec
  import opened ProcSteps
  import opened Kernel
  import opened ProcFiles
  import opened ProcRuns
  import FsLayout
  import FileSystem
  import FsSession

  /** A step of the process system, with its result */
  ghost predicate Stepped(s: Sys, step: Step, out: Out) {
    Inv(s) && Permitted(s, step) && Do(s, step) == out
  }

  /** The same, whatever the result */
  ghost predicate SteppedTo(s: Sys, step: Step, t: Sys) {
    Inv(s) && Permitted(s, step) && Do(s, step).sys == t
  }

  class Calls {
    const k: System
    const fs: FsSession.Session

    /** The file system's open files are those of the processes but stdio. */
    ghost predicate Joined()
      reads k, fs
    {
      fs.handles == set f | f in k.open && f.kind != StdioFile
    }

    ghost predicate Valid()
      reads k, k.live, k.pids, k.open`count, set p <- k.live, n <- p.Links() :: n
      reads set p <- k.live :: p.files
      reads fs, fs.image, fs.image.disk, fs.handles`off
    {
      k.Valid() && fs.Valid() && Joined()
    }

    /** The current process can make a call about files. */
    ghost predicate Ready()
      reads k, k.live, k.pids, k.open`count, set p <- k.live, n <- p.Links() :: n
      reads set p <- k.live :: p.files
      reads fs, fs.image, fs.image.disk, fs.handles`off
    {
      Valid() && k.MayCall(k.Abs())
    }

    constructor (k: System, fs: FsSession.Session)
      requires k.Valid() && fs.Valid() && fs.handles == set f | f in k.open && f.kind != StdioFile
      ensures this.k == k && this.fs == fs && Valid()
    {
      this.k, this.fs := k, fs;
    }

    /** The kernel after init_process, with a mounted image */
    static method Start(image: FileSystem.Image, ghost files: nat) returns (c: Calls, ghost io: seq<File>)
      requires image.disk.Length == FsLayout.BLOCK_NUM && FileSystem.Mounted(image.disk[..], image.owner, files)
      ensures fresh(c) && c.Valid() && c.fs.image == image && c.fs.files == files
      ensures |io| == STDIO && c.k.idle != c.k.init && c.k.Abs() == Initial(c.k.idle, c.k.init, io)
      ensures c.k.Started(io)
    {
      hide System.Wired, System.Abs, Inv, FsSession.Session.Valid, Initial, FileSystem.Mounted, System.Started;
      var fs := new FsSession.Session(image, files);
      var k;
      label Made:
      k, io := System.InitProcess();
      fs.Untouched@Made();
      c := new Calls(k, fs);
    }

    /** Of the files that were open, those that no table entry names are gone; the
        only new ones are stdio. */
    ghost method Settle()
      requires k.Valid() && fs.Valid() && forall f <- k.open :: f in fs.handles || f.kind == StdioFile
      modifies fs`handles
      ensures Valid() && k.Abs() == old(k.Abs())
    {
      hide System.Wired, System.Abs, Inv;
      fs.Keep(k.open);
      ProcessesStay();
    }

    /** The file behind a descriptor of the current process */
    function FileAt(fd: int): File?
      reads k, k.current, k.current.files
    {
      if 0 <= fd < k.current.files.Length then k.current.files[fd] else null
    }

    /** What is known of a descriptor that names a file */
    lemma AtDescriptor(fd: int)
      requires Ready()
      ensures k.current.files.Length == NR_OPEN
      ensures FileAt(fd) != null ==> FileAt(fd) in k.open && (FileAt(fd).kind != StdioFile ==> FileAt(fd) in fs.handles)
    {
      hide System.Wired, System.Abs, Inv, FsSession.Session.Valid;
      k.CallStart();
    }

    /** Only offsets and the file system have changed. */
    twostate lemma ProcessesStay()
      requires old(k.Valid()) && unchanged(k)
      requires k.pids[..] == old(k.pids[..])
      requires forall q <- k.live :: unchanged(q)
      requires forall q <- k.live :: q.files[..] == old(q.files[..])
      requires forall q <- k.live :: unchanged(q.list) && unchanged(q.children) && unchanged(q.sibling)
      requires forall f <- k.open :: f.count == old(f.count)
      ensures k.Valid() && k.Abs() == old(k.Abs())
    {
      hide System.Wired, System.Abs, Inv;
      k.Untouched();
    }

    /** The file stands for the name, from its start. */
    twostate predicate WasOpened(new file: File, name: seq<byte>, create: bool)
      reads fs, fs.image, fs.image.disk, file
    {
      && file.off == 0 && file in fs.handles
      && FsSession.Resolved(old(fs.image.disk[..]), old(fs.files), fs.image.disk[..], fs.files, name, create,
                            true, file.kind, file.entry)
    }

    /** The end of sys_open: a new file of what the name stands for */
    method Enter(free: nat, kind: Kind, inode: nat, ghost entry: nat) returns (file: File)
      requires Ready() && k.current.files.Length == NR_OPEN && free == FirstFree(k.current.files[..]) < NR_OPEN
      requires FsSession.Target(fs.image.disk[..], kind, inode, entry)
      modifies k`open, k.current.files, fs`handles
      ensures Valid() && fresh(file) && FileAt(free) == file && file.off == 0 && file in fs.handles
      ensures file.kind == kind && file.entry == entry
      ensures Stepped(old(k.Abs()), Step.Open(true, file), Out(k.Abs(), Returned(free)))
    {
      hide System.HasOpened, System.Wired, System.Abs, Inv, FsSession.Session.Valid, Do, Permitted, System.MayCall,
        FirstFree;
      file := k.PlaceFile(free, kind, inode, entry);
      fs.Untouched();
      label Placed:
      fs.Adopt(file);
      ProcessesStay@Placed();
    }

    lemma FullTable(files: seq<File?>)
      ensures FirstFree(files) == |files| <==> null !in files
    {}

    lemma DiskSize()
      requires Valid()
      ensures fs.image.disk.Length == FsLayout.BLOCK_NUM
    {
      hide System.Valid, FileSystem.Mounted;
    }

    lemma NotKnown(d: FsLayout.Disk, name: seq<byte>, create: bool)
      requires |d| == FsLayout.BLOCK_NUM
      ensures !FsSession.Known(d, name, create) <==> name != [0x2f] && !create && !FsSession.Exists(d, name)
    {}

    twostate lemma Opened(s: Sys, new file: File, new fd: nat)
      requires old(k.Shows(s))
      requires k.Wired() && Stepped(s, Step.Open(true, file), Out(k.Abs(), Returned(fd)))
      ensures k.HasOpened(fd, file)
    {
      hide System.HasOpened, System.Wired, System.Abs, Inv, Do, Permitted, System.Shows;
      k.Showing();
      k.OpenFields(s, k.Abs(), fd, file);
    }

    /** sys_open from the search for the inode on, with a free descriptor in hand */
    method OpenAt(free: nat, name: seq<byte>, create: bool) returns (found: bool, ghost file: File?)
      requires Ready() && fs.MayOpen(name, create)
      requires k.current.files.Length == NR_OPEN && free == FirstFree(k.current.files[..]) < NR_OPEN
      modifies k`open, k.current.files, fs, fs.image, fs.image.disk
      ensures Valid() && (found <==> file != null)
      ensures file == null <==> !FsSession.Known(old(fs.image.disk[..]), name, create)
      ensures file == null ==> k.Abs() == old(k.Abs()) && fs.image.disk[..] == old(fs.image.disk[..])
      ensures file != null ==> fresh(file) && FileAt(free) == file && WasOpened(file, name, create)
      ensures file != null ==> Stepped(old(k.Abs()), Step.Open(true, file), Out(k.Abs(), Returned(free)))
    {
      hide System.Wired, System.Abs, Inv, FsSession.Session.Valid, FsSession.Target, Do, Permitted, System.MayCall,
        FsSession.Session.MayOpen, FirstFree, FsSession.Resolved, FsSession.Known, Stepped;
      var kind, inode;
      ghost var entry;
      found, kind, inode, entry := fs.Resolve(name, create);
      FsSession.ResolvedKnown(old(fs.image.disk[..]), old(fs.files), fs.image.disk[..], fs.files, name, create,
                              found, kind, entry);
      ProcessesStay();
      if !found { return false, null; }
      var f := Enter(free, kind, inode, entry);
      file := f;
    }

    /** sys_open */
    method Open(name: seq<byte>, create: bool) returns (fd: int, ghost file: File?)
      requires Ready() && fs.MayOpen(name, create)
      modifies k`open, k.current.files, fs, fs.image, fs.image.disk
      ensures Valid() && (file == null <==> fd == -1)
      ensures fs.image.disk.Length == FsLayout.BLOCK_NUM
      ensures fd == -1 <==> (null !in old(k.current.files[..]) ||
                             (name != [0x2f] && !create && !FsSession.Exists(old(fs.image.disk[..]), name)))
      ensures file == null ==> k.Abs() == old(k.Abs()) && fs.image.disk[..] == old(fs.image.disk[..])
      ensures file != null ==> fresh(file) && FileAt(fd) == file && WasOpened(file, name, create)
      ensures file != null ==> k.HasOpened(fd, file)
      ensures file != null ==> Stepped(old(k.Abs()), Step.Open(true, file), Out(k.Abs(), Returned(fd)))
    {
      hide System.HasOpened, System.Wired, System.Abs, Inv, FsSession.Session.Valid, Do, Permitted, System.MayCall,
        FsSession.Resolved, FsSession.Session.MayOpen, FirstFree, FsSession.Known, Stepped, System.Shows;
      k.Showing();
      ghost var s := k.Abs();
      var free := k.FreeSlot();
      DiskSize();
      FullTable(k.current.files[..]);
      if free == NR_OPEN { return -1, null; }
      NotKnown(fs.image.disk[..], name, create);
      var found;
      found, file := OpenAt(free, name, create);
      if !found { return -1, null; }
      fd := free;
      Opened(s, file, free);
    }

    /** The next bytes of the file, or its next inode for the root directory; -1
        without a file, but 0 for a count of 0 */
    twostate predicate WasRead(file: File?, count: nat, num: int, buf: seq<byte>)
      reads fs, fs.image, fs.image.disk, file
    {
      if file == null then num == (if count == 0 then 0 else -1) && buf == []
      else FsSession.HasRead(fs.image.disk[..], fs.files, file.kind, file.entry, count, num, buf,
                             old(file.off), file.off)
    }

    /** A splice of the file; -1 and nothing changed without a file */
    twostate predicate WasWritten(file: File?, buf: seq<byte>, num: int)
      reads fs, fs.image, fs.image.disk, file
    {
      if file == null then num == -1 && fs.image.disk[..] == old(fs.image.disk[..])
      else FsSession.HasWritten(old(fs.image.disk[..]), fs.image.disk[..], file.entry, buf, num,
                                old(file.off), file.off)
    }

    /** The offsets of other open files are the same. */
    twostate predicate OffsetsKept(file: File?)
      reads fs, fs.handles
    {
      forall f <- fs.handles * old(fs.handles) :: f != file ==> f.off == old(f.off)
    }

    /** sys_write can write n bytes: not to stdio or the root, and with room. */
    ghost predicate MayWriteTo(file: File?, n: nat)
      reads fs, fs.image, fs.image.disk, file
    {
      file != null ==> file.kind.DiskFile? && FsSession.MayWrite(fs.image.disk[..], file, n)
    }

    /** sys_read, but for stdio: what a read of the open file gives, and 0 for a
        count of 0, whatever the descriptor. */
    method Read(fd: int, count: nat) returns (num: int, buf: seq<byte>, ghost file: File?)
      requires Ready() && (FileAt(fd) != null ==> FileAt(fd).kind != StdioFile)
      modifies fs.handles`off
      ensures var was := old(k.current.files[..]); file == if 0 <= fd < |was| then was[fd] else null
      ensures Valid() && k.Abs() == old(k.Abs())
      ensures WasRead(file, count, num, buf) && OffsetsKept(file)
    {
      hide System.Wired, System.Abs, Inv, FsSession.Session.Valid, FsSession.HasRead;
      AtDescriptor(fd);
      var f := FileAt(fd);
      file, buf := f, [];
      if f == null { num := if count == 0 then 0 else -1; return; }
      num, buf := fs.Read(f, count);
      ProcessesStay();
    }

    /** sys_write, but for stdio and the root directory */
    method Write(fd: int, buf: seq<byte>) returns (num: int, ghost file: File?)
      requires Ready()
      requires MayWriteTo(FileAt(fd), |buf|)
      modifies fs.image, fs.image.disk, fs.handles`off
      ensures var was := old(k.current.files[..]); file == if 0 <= fd < |was| then was[fd] else null
      ensures Valid() && k.Abs() == old(k.Abs())
      ensures WasWritten(file, buf, num) && OffsetsKept(file)
    {
      hide System.Wired, System.Abs, Inv, FsSession.Session.Valid, FsSession.MayWrite, FsSession.HasWritten;
      AtDescriptor(fd);
      var f := FileAt(fd);
      file := f;
      if f == null { return -1, file; }
      num := fs.Write(f, buf);
      ProcessesStay();
    }

    /** sys_close */
    method Close(fd: int)
      requires Ready()
      modifies k`open, k.open`count, k.current.files, fs`handles
      ensures Valid() && Stepped(old(k.Abs()), Step.Close(fd), Out(k.Abs(), Returned(0)))
      ensures fs.image.disk[..] == old(fs.image.disk[..]) && k.HasClosed(fd)
    {
      hide System.HasClosed, System.Wired, System.Abs, Inv, FsSession.Session.Valid, Do, Permitted;
      k.Close(fd);
      fs.Untouched();
      Settle();
    }

    /** sys_fork, as far as files are concerned: the child's descriptors name the
        very files of its parent, so that the two share one offset. */
    method Fork() returns (pid: nat, ghost child: Process)
      requires Valid() && MayFork(k.Abs())
      modifies k.pids, k`entry, k`live, k`kids, k`queue, k.open`count, set q <- k.live, n <- q.Links() :: n
      ensures Valid() && fresh(child) && Stepped(old(k.Abs()), Step.Fork(child), Out(k.Abs(), Returned(pid)))
      ensures k.HasForked(child, pid)
    {
      hide System.HasForked, System.Wired, System.Abs, Inv, FsSession.Session.Valid, Do, Permitted, MayFork;
      pid, child := k.Fork();
      fs.Untouched();
    }

    /** The part of sys_exec about open files */
    method Exec() returns (ghost io: seq<File>)
      requires Ready()
      modifies k`open, k.open`count, k.current.files, fs`handles
      ensures Valid() && Stepped(old(k.Abs()), Step.Exec(io), Out(k.Abs(), Returned(0))) && k.HasRenewed(io)
    {
      hide System.HasRenewed, System.Wired, System.Abs, Inv, FsSession.Session.Valid, Do, Permitted, System.MayCall;
      io := k.Exec();
      fs.Untouched();
      Settle();
    }

    /** One round of sys_wait */
    method Wait() returns (r: Ret)
      requires Valid() && k.current != k.idle
      modifies k`queue, k`current, k`kids, k`live, k`open, k.pids, k.open`count, k.live`state, k.live`flag
      modifies set q <- k.live :: q.files
      modifies set q <- k.live, n <- q.Links() :: n
      modifies fs`handles
      ensures Valid() && Stepped(old(k.Abs()), Step.Wait, Out(k.Abs(), r))
      ensures exists done: nat :: k.HasWaited(done, r)
    {
      hide System.HasWaited, System.Wired, System.Abs, Inv, FsSession.Session.Valid, Do, Permitted;
      r := k.Wait();
      ghost var done :| k.HasWaited(done, r);
      fs.Untouched();
      Settle();
      assert k.HasWaited(done, r);
    }

    /** yield */
    method Yield()
      requires Valid() && Permitted(k.Abs(), Step.Yield)
      modifies k`queue, k`current, k.live`state, set q <- k.live, n <- q.Links() :: n
      ensures Valid() && SteppedTo(old(k.Abs()), Step.Yield, k.Abs()) && k.HasYielded(false)
    {
      hide System.HasYielded, System.Wired, System.Abs, Inv, FsSession.Session.Valid, Do, Permitted;
      k.Yield();
      fs.Untouched();
    }

    /** One round of schedule */
    method Schedule() returns (more: bool)
      requires Valid() && k.current == k.idle
      modifies k`queue, k`current, k.live`state, set q <- k.live, n <- q.Links() :: n
      ensures Valid() && more == (old(k.queue) != [])
      ensures if more then SteppedTo(old(k.Abs()), Dispatch, k.Abs()) && k.HasDispatched() else k.Abs() == old(k.Abs())
    {
      hide System.HasDispatched, System.Wired, System.Abs, Inv, FsSession.Session.Valid, Do, Permitted;
      more := k.Schedule();
      fs.Untouched();
    }

    /** exit_current, with its reparenting loop followed for some rounds */
    method Exit(rounds: nat) returns (done: bool)
      requires Valid() && k.current != k.idle && !k.current.flag
      modifies k`current, k.live`state, k.Nodes()
      ensures done <==> Permitted(old(k.Abs()), Step.Exit)
      ensures old(k.current).state == Exited && (!done ==> k.current == old(k.current))
      ensures done ==> Valid() && SteppedTo(old(k.Abs()), Step.Exit, k.Abs()) && k.HasExited()
    {
      hide System.HasExited, System.Wired, System.Abs, Inv, FsSession.Session.Valid, Do, Permitted;
      done := k.Exit(rounds);
      fs.Untouched();
    }
  }
}
