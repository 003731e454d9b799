// Tables of open files: the loops of kernel/process.c and kernel/fs.c that copy,
// clear and fill a whole table.
module ProcFiles {
  import opened OpenFiles
  import opened ProcSpec

  const STDIO: nat := 3

  /** dealloc_files from entry i on */
  function DropAll(s: Sys, p: Process, i: nat): (t: Sys)
    requires p in s.procs && i <= |s.procs[p].files|
    ensures t.procs.Keys == s.procs.Keys && t.current == s.current
    ensures |t.procs[p].files| == |s.procs[p].files|
    decreases |s.procs[p].files| - i
  {
    if i == |s.procs[p].files| then s else DropAll(DropFile(s, p, i), p, i + 1)
  }

  /** The child's entry names what the parent's does, and counts as a reference. */
  function CopyEntry(s: Sys, from: Process, to: Process, i: nat): Sys
    requires from in s.procs && to in s.procs && from != to
    requires |s.procs[from].files| == |s.procs[to].files| > i
  {
    var f := s.procs[from].files[i];
    if f == null then SetEntry(s, to, i, null) else PutFile(s, to, i, f)
  }

  /** The copying loop of sys_fork from entry i on */
  function CopyTable(s: Sys, from: Process, to: Process, i: nat): (t: Sys)
    requires from in s.procs && to in s.procs && from != to
    requires |s.procs[from].files| == |s.procs[to].files| >= i
    ensures t.procs.Keys == s.procs.Keys
    decreases |s.procs[to].files| - i
  {
    if i == |s.procs[to].files| then s else CopyTable(CopyEntry(s, from, to, i), from, to, i + 1)
  }

  /** stdin, stdout and stderr from entry i on */
  function OpenStdio(s: Sys, p: Process, io: seq<File>, i: nat): (t: Sys)
    requires p in s.procs && i <= |io| <= |s.procs[p].files|
    ensures p in t.procs && |t.procs[p].files| == |s.procs[p].files|
    decreases |io| - i
  {
    if i == |io| then s else OpenStdio(PutFile(s, p, i, io[i]), p, io, i + 1)
  }

  lemma {:induction false} OpenAppend(s: Sys, p: Process, io: seq<File>, f: File, i: nat)
    requires p in s.procs && i <= |io| < |s.procs[p].files|
    ensures OpenStdio(s, p, io + [f], i) == PutFile(OpenStdio(s, p, io, i), p, |io|, f)
    decreases |io| - i
  {
    if i < |io| { OpenAppend(PutFile(s, p, i, io[i]), p, io, f, i + 1); }
  }

  lemma FilesOnlyRefl(s: Sys, p: Process)
    requires p in s.procs
    ensures FilesOnly(s, s, p)
  {
    assert s.procs[p := s.procs[p].(files := s.procs[p].files)] == s.procs;
  }

  lemma FilesOnlyTrans(s: Sys, t: Sys, u: Sys, p: Process)
    requires FilesOnly(s, t, p) && FilesOnly(t, u, p)
    ensures FilesOnly(s, u, p)
  {}

  lemma {:induction false} DropAllKeeps(s: Sys, p: Process, i: nat)
    requires Counted(s) && p in s.procs && p != s.idle && i <= |s.procs[p].files|
    ensures var t := DropAll(s, p, i); var n := |s.procs[p].files|;
      && Counted(t) && FilesOnly(s, t, p)
      && t.procs[p].files == s.procs[p].files[..i] + seq(n - i, _ => null)
    decreases |s.procs[p].files| - i
  {
    hide Counted, DropFile, SetEntry;
    if i < |s.procs[p].files| {
      var t := DropFile(s, p, i);
      DropKeeps(s, p, i);
      DropAllKeeps(t, p, i + 1);
      FilesOnlyTrans(s, t, DropAll(t, p, i + 1), p);
    }
  }

  lemma CopyEntryKeeps(s: Sys, from: Process, to: Process, i: nat)
    requires Counted(s) && from in s.procs && to in s.procs && from != to && to != s.idle
    requires |s.procs[from].files| == |s.procs[to].files| > i && s.procs[to].files[i] == null
    ensures var t := CopyEntry(s, from, to, i);
      && Counted(t) && FilesOnly(s, t, to) && t.idle == s.idle && t.procs.Keys == s.procs.Keys
      && t.procs[from] == s.procs[from]
      && t.procs[to].files == s.procs[to].files[i := s.procs[from].files[i]]
  {
    hide Counted;
    var f := s.procs[from].files[i];
    if f == null {
      assert s.procs[to].files[i := null] == s.procs[to].files;
      assert CopyEntry(s, from, to, i).procs == s.procs;
    } else {
      PutKeeps(s, to, i, f);
    }
  }

  lemma {:induction false} CopyTableKeeps(s: Sys, from: Process, to: Process, i: nat)
    requires Counted(s) && from in s.procs && to in s.procs && from != to && to != s.idle
    requires |s.procs[from].files| == |s.procs[to].files| >= i
    requires forall j: nat :: i <= j < |s.procs[to].files| ==> s.procs[to].files[j] == null
    ensures var t := CopyTable(s, from, to, i);
      && Counted(t) && FilesOnly(s, t, to)
      && t.procs[to].files == s.procs[to].files[..i] + s.procs[from].files[i..]
    decreases |s.procs[to].files| - i
  {
    hide Counted, FilesOnly, CopyEntry;
    if i < |s.procs[to].files| {
      var t := CopyEntry(s, from, to, i);
      CopyEntryKeeps(s, from, to, i);
      CopyTableKeeps(t, from, to, i + 1);
      FilesOnlyTrans(s, t, CopyTable(t, from, to, i + 1), to);
    } else {
      FilesOnlyRefl(s, to);
    }
  }

  lemma {:induction false} OpenStdioKeeps(s: Sys, p: Process, io: seq<File>, i: nat)
    requires Counted(s) && p in s.procs && p != s.idle && i <= |io| <= |s.procs[p].files|
    requires forall j: nat :: i <= j < |io| ==> s.procs[p].files[j] == null
    ensures var t := OpenStdio(s, p, io, i);
      && Counted(t) && FilesOnly(s, t, p)
      && t.procs[p].files == s.procs[p].files[..i] + io[i..] + s.procs[p].files[|io|..]
    decreases |io| - i
  {
    hide Counted, FilesOnly;
    if i < |io| {
      var t := PutFile(s, p, i, io[i]);
      assert t.procs[p].files == s.procs[p].files[i := io[i]];
      PutKeeps(s, p, i, io[i]);
      hide SetEntry, PutFile;
      OpenStdioKeeps(t, p, io, i + 1);
      FilesOnlyTrans(s, t, OpenStdio(t, p, io, i + 1), p);
    } else {
      FilesOnlyRefl(s, p);
    }
  }
}
