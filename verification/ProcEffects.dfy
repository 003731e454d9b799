// What each step of the process system does, field by field: states, tables of open
// files, counts, the run queue, the pids, and what stays as it was.
module ProcEffects {
  import opened OpenFiles
  import opened Sequences
  import opened ProcSpec
  import opened ProcFiles
  import opened ProcSteps
  import opened ProcKeeps
  import opened ProcRuns

  /** The processes, files and pids are as before, but for the states of p and of the
      scheduler, and for p's flag. */
  ghost predicate OnlyScheduling(s: Sys, t: Sys, p: Process) {
    && p in s.procs && s.idle in s.procs && p != s.idle
    && t == s.(procs := t.procs, queue := t.queue, current := t.current) && t.procs.Keys == s.procs.Keys
    && t.procs[p] == s.procs[p].(state := t.procs[p].state, flag := t.procs[p].flag)
    && t.procs[s.idle] == s.procs[s.idle].(state := t.procs[s.idle].state)
    && forall q <- s.procs :: q != p && q != s.idle ==> t.procs[q] == s.procs[q]
  }

  /** The first n entries of p's table that name f */
  ghost function Places(files: seq<File?>, p: Process, f: File, n: nat): set<(Process, int)>
    requires n <= |files|
  {
    set i | 0 <= i < n && files[i] == f :: (p, i)
  }

  lemma {:induction false} PlacesCount(files: seq<File?>, p: Process, f: File, n: nat)
    requires n <= |files|
    ensures |Places(files, p, f, n)| == multiset(files[..n])[f]
  {
    if n > 0 {
      var was := Places(files, p, f, n - 1);
      PlacesCount(files, p, f, n - 1);
      assert files[..n] == files[..n - 1] + [files[n - 1]];
      assert (p, n - 1) !in was;
      assert Places(files, p, f, n) == was + (if files[n - 1] == f then {(p, n - 1)} else {});
    }
  }

  /** The entries of p's own table that name f */
  ghost function Entries(s: Sys, p: Process, f: File): (e: set<(Process, int)>)
    requires p in s.procs
    ensures |e| == multiset(s.procs[p].files)[f]
  {
    var files := s.procs[p].files;
    PlacesCount(files, p, f, |files|);
    assert files[..|files|] == files;
    Places(files, p, f, |files|)
  }

  // ---------------------------------------------------------------- scheduling

  /** schedule() takes the head of the queue: it runs, and the scheduler waits. */
  lemma DispatchEffect(s: Sys)
    requires Inv(s) && Permitted(s, Dispatch)
    ensures s.queue != []
    ensures var t := Do(s, Dispatch).sys; var p := s.queue[0];
      && OnlyScheduling(s, t, p) && s.current == s.idle && s.procs[p].state == Ready
      && t.current == p && t.queue == s.queue[1..]
      && t.procs[p].state == Running && t.procs[s.idle].state == Ready && t.procs[p].flag == s.procs[p].flag
  {
    hide Counted, PidsRight, Family, Scheduled;
    QueueHead(s);
    PlainStep(s, Dispatch);
  }

  /** yield() puts the caller behind all others and goes to the scheduler. */
  lemma YieldEffect(s: Sys)
    requires Inv(s) && Permitted(s, Yield)
    ensures var t := Do(s, Yield).sys; var p := s.current;
      && OnlyScheduling(s, t, p) && t.current == s.idle && t.queue == s.queue + [p]
      && t.procs[p].state == Ready && t.procs[s.idle].state == Running && t.procs[p].flag == s.procs[p].flag
  {
    hide Counted, PidsRight, Family, Scheduled;
    PlainStep(s, Yield);
  }

  /** exit_current leaves the caller exited, off the queue and off the processor;
      the scheduler runs, and nothing else changes. */
  lemma ExitEffect(s: Sys)
    requires Inv(s) && Permitted(s, Exit)
    ensures var t := Do(s, Exit).sys; var p := s.current;
      && OnlyScheduling(s, t, p) && t.current == s.idle && t.queue == s.queue
      && t.procs[p].state == Exited && t.procs[s.idle].state == Running && t.procs[p].flag == s.procs[p].flag
  {
    hide Counted, PidsRight, Family, Scheduled;
    PlainStep(s, Exit);
  }

  // ---------------------------------------------------------------- open files

  /** Only p's table and the counts are different. */
  ghost predicate OnlyTable(s: Sys, t: Sys, p: Process, files: seq<File?>) {
    p in s.procs && t == s.(procs := s.procs[p := s.procs[p].(files := files)], counts := t.counts)
  }

  /** sys_open fills the first free entry with a file of count 1, or does nothing. */
  lemma OpenEffect(s: Sys, found: bool, f: File)
    requires Inv(s) && Permitted(s, Open(found, f))
    ensures |s.procs[s.current].files| == NR_OPEN
    ensures var out := Do(s, Open(found, f)); var p := s.current; var files := s.procs[p].files;
      if found && exists i: nat :: i < NR_OPEN && files[i] == null then
        exists k: nat :: k < NR_OPEN && files[k] == null && (forall i: nat :: i < k ==> files[i] != null)
          && out.ret == Returned(k) && f !in s.counts && out.sys.counts == s.counts[f := 1]
          && OnlyTable(s, out.sys, p, files[k := f])
      else out.sys == s && out.ret == Returned(-1)
  {
    hide Counted, PidsRight, Family, Scheduled;
    var files := s.procs[s.current].files;
    var k := FirstFree(files);
    assert k == |files| <==> !exists i: nat :: i < NR_OPEN && files[i] == null;
  }

  /** sys_close empties the entry; the file there loses one reference and with the
      last one goes.  Without a file there nothing changes. */
  lemma CloseEffect(s: Sys, fd: int)
    requires Inv(s) && Permitted(s, Close(fd))
    ensures Do(s, Close(fd)).ret == Returned(0)
    ensures var t := Do(s, Close(fd)).sys; var p := s.current; var files := s.procs[p].files;
      && |files| == NR_OPEN && OnlyTable(s, t, p, if 0 <= fd < NR_OPEN then files[fd := null] else files)
      && if 0 <= fd < NR_OPEN && files[fd] != null then
        var f := files[fd];
        && f in s.counts && s.counts[f] > 0
        && t.counts == (if s.counts[f] == 1 then s.counts - {f} else s.counts[f := s.counts[f] - 1])
      else t.counts == s.counts
  {
    hide PidsRight, Family, Scheduled, Slots;
    WhoRuns(s, Close(fd));
    var p := s.current;
    assert s.procs[p := s.procs[p]] == s.procs;
    assert 0 <= fd < NR_OPEN && s.procs[p].files[fd] == null ==> s.procs[p].files[fd := null] == s.procs[p].files;
  }

  /** f has one reference less for each entry of the table that named it; with none
      left it is gone. */
  ghost predicate GivenBack(before: map<File, int>, after: map<File, int>, files: seq<File?>, f: File) {
    && (f in after <==> f in before && before[f] > multiset(files)[f])
    && (f in after ==> after[f] == before[f] - multiset(files)[f])
  }

  /** The tables of all others stay, and p's names f no more. */
  ghost predicate Without(s: Sys, t: Sys, p: Process, f: File)
    requires p in s.procs
  {
    && p != s.idle && t.idle == s.idle && s.procs.Keys - {p} <= t.procs.Keys <= s.procs.Keys
    && (forall q <- s.procs :: q != p ==> q in t.procs && t.procs[q].files == s.procs[q].files)
    && (p in t.procs ==> f !in t.procs[p].files)
  }

  lemma LessSlots(s: Sys, t: Sys, p: Process, f: File)
    requires p in s.procs && Without(s, t, p, f)
    ensures Slots(t, f) == Slots(s, f) - Entries(s, p, f) && Entries(s, p, f) <= Slots(s, f)
  {
    forall slot ensures slot in Slots(t, f) <==> slot in Slots(s, f) && slot !in Entries(s, p, f) {}
  }

  /** Then exactly p's references are given back. */
  lemma LessEntries(s: Sys, t: Sys, p: Process, f: File)
    requires Counted(s) && Counted(t) && p in s.procs && Without(s, t, p, f)
    ensures GivenBack(s.counts, t.counts, s.procs[p].files, f)
  {
    hide Counted, Slots, Entries, Without;
    CountedSlots(s, f);
    CountedSlots(t, f);
    LessSlots(s, t, p, f);
    assert |Slots(s, f) - Entries(s, p, f)| == |Slots(s, f)| - |Entries(s, p, f)|;
  }

  /** Each of the three is named by one entry alone. */
  lemma ExecSlots(s: Sys, io: seq<File>, k: nat)
    requires Inv(s) && Permitted(s, Exec(io)) && k < |io|
    ensures var t := Do(s, Exec(io)).sys; io[k] in t.counts && t.counts[io[k]] == 1
  {
    hide PidsRight, Family, Scheduled, Counted, Cleared, DoExec, Slots, OpenStdio, DropAll;
    var t, p, f := DoExec(s, io), s.current, io[k];
    WhoRuns(s, Exec(io));
    DropAllKeeps(s, p, 0);
    ClearedIs(s);
    ExecKeeps(s, io);
    CountedSlots(Cleared(s), f);
    CountedSlots(t, f);
    OneSlot(s, Cleared(s), t, io, k);
    assert Slots(t, f) == {(p, k)};
  }

  lemma ClearedIs(s: Sys)
    requires s.current in s.procs
    ensures Cleared(s) == DropAll(s, s.current, 0)
  {}

  lemma OneSlot(s: Sys, b: Sys, t: Sys, io: seq<File>, k: nat)
    requires FilesOnly(s, b, s.current) && FilesOnly(s, t, s.current) && s.current != s.idle
    requires k < |io| <= NR_OPEN && Distinct(io)
    requires t.procs[s.current].files == io + seq(NR_OPEN - |io|, _ => null)
    requires Slots(b, io[k]) == {}
    ensures Slots(t, io[k]) == {(s.current, k)}
  {
    var f, p := io[k], s.current;
    forall q, i | q in t.procs && q != t.idle && 0 <= i < |t.procs[q].files|
      ensures t.procs[q].files[i] == f <==> (q, i) == (p, k)
    {
      if q != p { assert (q, i) !in Slots(b, f); }
    }
    assert t.procs[p].files[k] == f;
  }

  lemma ExecWithout(s: Sys, t: Sys, io: seq<File>, f: File)
    requires Shape(s) && FilesOnly(s, t, s.current) && s.current != s.idle && |io| <= NR_OPEN && f !in io
    requires t.procs[s.current].files == io + seq(NR_OPEN - |io|, _ => null)
    ensures Without(s, t, s.current, f)
  {}

  /** sys_exec replaces the whole table by three new files of count 1; any other file
      loses one reference for each entry of the old table. */
  lemma ExecEffect(s: Sys, io: seq<File>)
    requires Inv(s) && Permitted(s, Exec(io))
    ensures var out := Do(s, Exec(io)); var t := out.sys; var p := s.current;
      && out.ret == Returned(0) && |io| == 3 && |s.procs[p].files| == NR_OPEN
      && OnlyTable(s, t, p, io + seq(NR_OPEN - 3, _ => null))
    ensures forall f <- io :: f in Do(s, Exec(io)).sys.counts && Do(s, Exec(io)).sys.counts[f] == 1
    ensures forall f: File :: f !in io ==>
      GivenBack(s.counts, Do(s, Exec(io)).sys.counts, s.procs[s.current].files, f)
  {
    hide PidsRight, Family, Scheduled, Cleared, DoExec;
    WhoRuns(s, Exec(io));
    ExecKeeps(s, io);
    var t := DoExec(s, io);
    var p := s.current;
    assert t == Do(s, Exec(io)).sys;
    forall k: nat | k < |io| ensures io[k] in t.counts && t.counts[io[k]] == 1 {
      ExecSlots(s, io, k);
    }
    forall f: File | f !in io
      ensures GivenBack(s.counts, t.counts, s.procs[p].files, f)
    {
      ExecWithout(s, t, io, f);
      LessEntries(s, t, p, f);
    }
  }

  // ---------------------------------------------------------------- fork and wait

  /** c is new, and the tables of all others stay. */
  ghost predicate With(s: Sys, t: Sys, c: Process) {
    && c !in s.procs && c != s.idle && t.idle == s.idle && t.procs.Keys == s.procs.Keys + {c}
    && forall q <- s.procs :: t.procs[q].files == s.procs[q].files
  }

  lemma MoreSlots(s: Sys, t: Sys, c: Process, f: File)
    requires With(s, t, c)
    ensures Slots(t, f) == Slots(s, f) + Entries(t, c, f) && Slots(s, f) !! Entries(t, c, f)
  {}

  /** A copied table gives each file one reference for each entry. */
  lemma MoreEntries(s: Sys, t: Sys, p: Process, c: Process, f: File)
    requires Counted(s) && Counted(t) && p in s.procs && p != s.idle && c !in s.procs
    requires c in t.procs && t.procs[c].files == s.procs[p].files && With(s, t, c)
    ensures f in t.counts <==> f in s.counts
    ensures f in t.counts ==> t.counts[f] == s.counts[f] + multiset(s.procs[p].files)[f]
  {
    CountedSlots(s, f);
    CountedSlots(t, f);
    MoreSlots(s, t, c, f);
    assert Entries(s, p, f) <= Slots(s, f);
    hide Counted, Slots, Entries, With;
    assert |Slots(t, f)| == |Slots(s, f)| + |Entries(t, c, f)|;
  }

  /** c is a new child of the current process, with pid n and the same open files. */
  ghost predicate OnlyChild(s: Sys, t: Sys, c: Process, n: nat) {
    var p := s.current;
    && p in s.procs && c !in s.procs
    && t == s.(procs := t.procs, counts := t.counts, queue := s.queue + [c], pids := s.pids + {n})
    && t.procs == s.procs[p := s.procs[p].(children := [c] + s.procs[p].children)]
                         [c := Proc(n, Ready, p, [], false, s.procs[p].files)]
  }

  /** sys_fork adds a ready process with the least free pid, last in the queue and
      first among the caller's children, whose table is the caller's; each file gains
      one reference for each entry of that table. */
  lemma ForkEffect(s: Sys, c: Process)
    requires Inv(s) && Permitted(s, Fork(c))
    ensures var out := Do(s, Fork(c)); var t := out.sys; var p := s.current; var n := out.ret;
      && p in s.procs && p != s.idle && c !in s.procs && n.Returned? && 0 <= n.value < MAX_PID
      && n.value !in s.pids && (forall m: nat :: m < n.value ==> m in s.pids)
      && OnlyChild(s, t, c, n.value)
    ensures forall f: File :: f in Do(s, Fork(c)).sys.counts <==> f in s.counts
    ensures var t := Do(s, Fork(c)).sys;
      forall f <- t.counts :: t.counts[f] == s.counts[f] + multiset(s.procs[s.current].files)[f]
  {
    hide PidsRight, Family, Scheduled, DoFork, Counted, FilesOnly;
    WhoRuns(s, Fork(c));
    ForkKeeps(s, c);
    var t, p := DoFork(s, c), s.current;
    ForkProcs(s, c, t);
    assert With(s, t, c);
    hide Inv, Permitted, Slots, With;
    forall f: File
      ensures (f in t.counts <==> f in s.counts)
      ensures f in t.counts ==> t.counts[f] == s.counts[f] + multiset(s.procs[p].files)[f]
    {
      MoreEntries(s, t, p, c, f);
    }
  }

  lemma ForkProcs(s: Sys, c: Process, t: Sys)
    requires s.current in s.procs && c !in s.procs && FilesOnly(Forked(s, c), t, c)
    requires t.procs[c].files == s.procs[s.current].files
    ensures OnlyChild(s, t, c, LeastFree(s.pids, 0))
  {}

  /** The k-th child of the current process and its pid are gone, and the call of
      sys_wait is over. */
  ghost predicate OnlyWithout(s: Sys, t: Sys, k: nat)
    requires s.current in s.procs && k < |s.procs[s.current].children|
    requires s.procs[s.current].children[k] in s.procs
  {
    var p := s.current; var cs := s.procs[p].children;
    && t == s.(procs := t.procs, counts := t.counts, pids := s.pids - {s.procs[cs[k]].pid})
    && t.procs == s.procs[p := s.procs[p].(children := cs[..k] + cs[k + 1..], flag := false)] - {cs[k]}
  }

  /** One round of sys_wait.  The first child that has exited is deleted with its
      references and its pid; without one the caller yields inside the call, and
      without children it returns at once. */
  lemma WaitEffect(s: Sys) returns (k: nat)
    requires Inv(s) && Permitted(s, Wait)
    ensures var p := s.current; var cs := s.procs[p].children;
      && p != s.idle && k <= |cs| && (forall c <- cs :: c in s.procs)
      && (k < |cs| ==> s.procs[cs[k]].state == Exited)
      && (forall j: nat :: j < k ==> s.procs[cs[j]].state != Exited)
    ensures var p := s.current; var cs := s.procs[p].children; var out := Do(s, Wait); var t := out.sys;
      if k < |cs| then
        out.ret == Returned(s.procs[cs[k]].pid) && cs[k] != p && OnlyWithout(s, t, k)
      else if cs != [] then
        && out.ret == Nothing && OnlyScheduling(s, t, p) && t.current == s.idle && t.queue == s.queue + [p]
        && t.procs[p].state == Ready && t.procs[s.idle].state == Running && t.procs[p].flag
      else t == s && out.ret == Returned(-1)
    ensures var cs := s.procs[s.current].children;
      k < |cs| ==> forall f: File :: GivenBack(s.counts, Do(s, Wait).sys.counts, s.procs[cs[k]].files, f)
  {
    hide PidsRight, Family, Scheduled, Do, Permitted, Counted;
    WhoRuns(s, Wait);
    StepKeeps(s, Wait);
    k := WaitStep(s);
    var cs := s.procs[s.current].children;
    if k < |cs| {
      var t := Do(s, Wait).sys;
      forall f: File
        ensures GivenBack(s.counts, t.counts, s.procs[cs[k]].files, f)
      {
        assert Without(s, t, cs[k], f);
        LessEntries(s, t, cs[k], f);
      }
    }
  }

  // ---------------------------------------------------------------- the start

  /** When init_process calls schedule, the scheduler runs as pid 0, and init, pid 1,
      is queued with three new files of count 1. */
  lemma StartEffect(idle: Process, init: Process, io: seq<File>)
    requires |io| == STDIO && idle != init && Distinct(io)
    ensures var t := Initial(idle, init, io);
      && t.current == t.idle == idle && t.init == init && t.queue == [init] && t.pids == {0, 1}
      && t.procs.Keys == {idle, init} && |t.procs[init].files| == NR_OPEN
      && t.procs[idle] == Proc(0, Running, null, [], false, t.procs[idle].files)
      && t.procs[init] == Proc(1, Ready, null, [], false, t.procs[init].files)
      && (forall i: nat :: i < NR_OPEN ==> t.procs[init].files[i] == (if i < 3 then io[i] else null))
      && (forall f: File :: f in t.counts <==> f in io) && forall f <- io :: t.counts[f] == 1
  {
    var b := Two(idle, init);
    TwoCounted(idle, init);
    OpenStdioKeeps(b, init, io, 0);
    var u := OpenStdio(b, init, io, 0);
    hide Counted, OpenStdio;
    forall f: File ensures f in u.counts <==> f in io {
      CountedSlots(u, f);
      if f in io {
        var k: nat :| k < |io| && io[k] == f;
        assert u.procs[init].files[k] == f && (init, k as int) in Slots(u, f);
      }
    }
    forall k: nat | k < |io| ensures u.counts[io[k]] == 1 {
      CountedSlots(u, io[k]);
      assert Slots(b, io[k]) == {};
      OneEntry(u, init, io, k);
    }
  }

  lemma OneEntry(u: Sys, p: Process, io: seq<File>, k: nat)
    requires u.procs.Keys == {u.idle, p} && p != u.idle && k < |io| <= |u.procs[p].files| && Distinct(io)
    requires forall i: nat :: i < |u.procs[p].files| ==> u.procs[p].files[i] == (if i < |io| then io[i] else null)
    ensures |Slots(u, io[k])| == 1
  {
    assert Slots(u, io[k]) == {(p, k as int)};
  }
}
