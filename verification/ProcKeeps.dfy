// Every step keeps the invariant of the process system.
module ProcKeeps {
  import opened OpenFiles
  import opened Sequences
  import opened ProcSpec
  import opened ProcFiles
  import opened ProcSteps

  /** The invariant without the counts: it looks at no table of open files. */
  ghost predicate Rest(s: Sys) {
    Shape(s) && Scheduled(s) && PidsRight(s) && Family(s)
  }

  lemma PidsSame(s: Sys, t: Sys)
    requires PidsRight(s) && t.pids == s.pids && t.procs.Keys == s.procs.Keys
    requires forall q <- s.procs :: t.procs[q].pid == s.procs[q].pid
    ensures PidsRight(t)
  {
    assert PidSet(t) == PidSet(s);
  }

  /** s and t agree but for tables of open files and counts. */
  ghost predicate SameButFiles(s: Sys, t: Sys) {
    && t == s.(procs := t.procs, counts := t.counts) && t.procs.Keys == s.procs.Keys
    && forall q <- s.procs ::
      t.procs[q] == s.procs[q].(files := t.procs[q].files) && |t.procs[q].files| == |s.procs[q].files|
  }

  lemma SameAt(s: Sys, t: Sys, q: Process)
    requires SameButFiles(s, t) && q in s.procs
    ensures ScheduledAt(s, q) <==> ScheduledAt(t, q)
    ensures ChildrenAt(s, q) ==> ChildrenAt(t, q)
    ensures StateAt(s, q) ==> StateAt(t, q)
    ensures Listed(s, q) ==> Listed(t, q)
  {}

  lemma SameFamily(s: Sys, t: Sys)
    requires Family(s) && SameButFiles(s, t)
    ensures Family(t)
  {
    hide SameButFiles, ChildrenAt, StateAt, Listed;
    assert t.procs.Keys == s.procs.Keys && t.idle == s.idle && t.init == s.init by { SameParts(s, t); }
    forall q <- t.procs
      ensures ChildrenAt(t, q) && StateAt(t, q) && (q != t.idle && q != t.init ==> Listed(t, q))
    {
      SameAt(s, t, q);
      assert ChildrenAt(s, q) && StateAt(s, q) && (q != s.idle && q != s.init ==> Listed(s, q));
    }
  }

  lemma SameParts(s: Sys, t: Sys)
    requires SameButFiles(s, t)
    ensures t.procs.Keys == s.procs.Keys && t.idle == s.idle && t.init == s.init && t.queue == s.queue
    ensures forall q <- s.procs :: t.procs[q].state == s.procs[q].state
  {}

  lemma SameScheduled(s: Sys, t: Sys)
    requires s.idle in s.procs && Scheduled(s) && SameButFiles(s, t)
    ensures t.idle in t.procs && Scheduled(t)
  {
    hide SameButFiles, ScheduledAt;
    SameParts(s, t);
    forall q <- t.procs ensures ScheduledAt(t, q) {
      SameAt(s, t, q);
      assert ScheduledAt(s, q);
    }
  }

  lemma SameRest(s: Sys, t: Sys)
    requires Rest(s) && SameButFiles(s, t)
    ensures Rest(t)
  {
    SameFamily(s, t);
    SameScheduled(s, t);
    hide Scheduled, Family;
    PidsSame(s, t);
  }

  lemma FilesOnlyRest(s: Sys, t: Sys, p: Process)
    requires Rest(s) && FilesOnly(s, t, p)
    ensures Rest(t)
  {
    hide Rest;
    assert t.procs.Keys == s.procs.Keys;
    SameRest(s, t);
  }

  /** t has the tables of s for all but idle and fresh processes with empty tables. */
  ghost predicate SameTables(s: Sys, t: Sys) {
    && t.counts == s.counts && t.idle == s.idle
    && (forall p <- s.procs :: p in t.procs && t.procs[p].files == s.procs[p].files)
    && (forall p <- t.procs :: p !in s.procs ==>
         forall i: nat :: i < |t.procs[p].files| ==> t.procs[p].files[i] == null)
  }

  lemma SameTablesCounted(s: Sys, t: Sys)
    requires SameTables(s, t) && Counted(s)
    ensures Counted(t)
  {
    forall f: File ensures Slots(t, f) == Slots(s, f) {}
  }

  // ---------------------------------------------------------------- scheduling

  /** s and t differ in states and flags, the queue and who is current. */
  ghost predicate StatesOnly(s: Sys, t: Sys) {
    && t == s.(procs := t.procs, queue := t.queue, current := t.current)
    && t.procs.Keys == s.procs.Keys
    && (forall q <- s.procs :: t.procs[q] == s.procs[q].(state := t.procs[q].state, flag := t.procs[q].flag))
  }

  lemma StatesRest(s: Sys, t: Sys)
    requires Inv(s) && StatesOnly(s, t) && t.current in s.procs
    requires forall p <- t.procs :: StateAt(t, p)
    ensures Shape(t) && PidsRight(t) && Family(t) && Counted(t)
  {
    hide Scheduled, Counted, PidsRight, StateAt, Listed, ChildrenAt;
    SameTablesCounted(s, t);
    PidsSame(s, t);
    StatesFamily(s, t);
  }

  lemma StatesFamily(s: Sys, t: Sys)
    requires Family(s) && StatesOnly(s, t) && forall p <- t.procs :: StateAt(t, p)
    ensures Family(t)
  {
    hide StateAt;
    forall q <- t.procs
      ensures ChildrenAt(t, q) && (q != t.idle && q != t.init ==> Listed(t, q))
    {
      assert ChildrenAt(s, q) && (q != t.idle && q != t.init ==> Listed(s, q));
    }
  }

  lemma DispatchScheduled(s: Sys)
    requires Inv(s) && Permitted(s, Dispatch)
    ensures Scheduled(DoDispatch(s)) && s.queue[0] != s.idle
  {
    hide Counted, PidsRight, Family;
    var t := DoDispatch(s);
    var p := s.queue[0];
    assert s.queue == [p] + t.queue && p !in t.queue && ScheduledAt(s, p);
    assert forall i: nat :: i < |t.queue| ==> t.queue[i] == s.queue[i + 1];
    forall q <- t.procs ensures ScheduledAt(t, q) {
      assert ScheduledAt(s, q) && ScheduledAt(s, s.idle);
    }
  }

  lemma DispatchKeeps(s: Sys)
    requires Inv(s) && Permitted(s, Dispatch)
    ensures Inv(DoDispatch(s))
  {
    DispatchScheduled(s);
    hide Counted, PidsRight, Scheduled;
    var t := DoDispatch(s);
    forall q <- t.procs ensures StateAt(t, q) {
      assert StateAt(s, q);
    }
    StatesRest(s, t);
  }

  lemma YieldScheduled(s: Sys, flag: bool)
    requires Inv(s) && s.current != s.idle
    ensures Scheduled(DoYield(WithFlag(s, s.current, flag)))
  {
    hide Counted, PidsRight, Family;
    var t := DoYield(WithFlag(s, s.current, flag));
    assert ScheduledAt(s, s.current);
    forall q <- t.procs ensures ScheduledAt(t, q) {
      assert ScheduledAt(s, q);
    }
  }

  lemma YieldKeeps(s: Sys, flag: bool)
    requires Inv(s) && s.current != s.idle && (flag ==> s.procs[s.current].children != [])
    ensures Inv(DoYield(WithFlag(s, s.current, flag)))
  {
    YieldScheduled(s, flag);
    hide Counted, PidsRight, Scheduled;
    var t := DoYield(WithFlag(s, s.current, flag));
    forall q <- t.procs ensures StateAt(t, q) {
      assert StateAt(s, q);
    }
    StatesRest(s, t);
  }

  lemma ExitKeeps(s: Sys)
    requires Inv(s) && s.current != s.idle && Permitted(s, Exit)
    ensures Inv(DoExit(s))
  {
    hide Counted, PidsRight;
    var t := DoExit(s);
    assert ScheduledAt(s, s.current);
    forall q <- t.procs ensures ScheduledAt(t, q) && StateAt(t, q) {
      assert ScheduledAt(s, q) && StateAt(s, q);
    }
    StatesRest(s, t);
  }

  // ---------------------------------------------------------------- fork

  lemma NewKeeps(s: Sys, c: Process)
    requires Inv(s) && s.current != s.idle && Permitted(s, Fork(c))
    ensures var t := NewProc(s, c); Shape(t) && PidsRight(t) && Counted(t) && c != s.idle
  {
    hide Scheduled, Family;
    var t := NewProc(s, c);
    SameTablesCounted(s, t);
    hide Counted;
    assert forall q <- s.procs :: t.procs[q] == s.procs[q];
    assert t.procs.Keys == s.procs.Keys + {c};
    assert PidSet(t) == PidSet(s) + {t.procs[c].pid};
  }

  /** What forking does, but for the tables of open files. */
  function Forked(s: Sys, c: Process): Sys
    requires s.current in s.procs && c != s.current
  {
    var t := NewProc(s, c);
    Enqueue(WithChildren(t, s.current, [c] + s.procs[s.current].children), c)
  }

  lemma ForkedRest(s: Sys, c: Process)
    requires Inv(s) && s.current != s.idle && Permitted(s, Fork(c))
    ensures Rest(Forked(s, c))
  {
    NewKeeps(s, c);
    ForkedScheduled(s, c);
    ForkedFamily(s, c);
    hide Counted, Scheduled, Family, PidsRight;
    PidsSame(NewProc(s, c), Forked(s, c));
  }

  lemma ForkedScheduled(s: Sys, c: Process)
    requires Inv(s) && s.current != s.idle && Permitted(s, Fork(c))
    ensures Forked(s, c).idle in Forked(s, c).procs && Scheduled(Forked(s, c))
  {
    hide Counted, PidsRight, Family;
    var t := Forked(s, c);
    assert c !in s.queue;
    forall q <- t.procs ensures ScheduledAt(t, q) {
      assert q != c ==> ScheduledAt(s, q);
    }
  }

  lemma ForkedFamily(s: Sys, c: Process)
    requires Inv(s) && s.current != s.idle && Permitted(s, Fork(c))
    ensures Family(Forked(s, c))
  {
    hide Counted, PidsRight;
    var t := Forked(s, c);
    var me := s.current;
    assert ScheduledAt(s, me) && ChildrenAt(s, me);
    hide Scheduled;
    assert t.procs[me].children == [c] + s.procs[me].children && c !in s.procs[me].children;
    assert t.procs[c].children == [] && t.procs[c].parent == me;
    forall q <- t.procs
      ensures ChildrenAt(t, q) && StateAt(t, q) && (q != t.idle && q != t.init ==> Listed(t, q))
    {
      assert q != c ==> ChildrenAt(s, q) && StateAt(s, q) && (q != t.idle && q != t.init ==> Listed(s, q));
    }
  }

  lemma ForkKeeps(s: Sys, c: Process)
    requires Inv(s) && s.current != s.idle && Permitted(s, Fork(c))
    ensures Inv(DoFork(s, c))
    ensures var t := DoFork(s, c);
      && t.procs[c] == Proc(LeastFree(s.pids, 0), Ready, s.current, [], false, s.procs[s.current].files)
      && t.procs[s.current].children == [c] + s.procs[s.current].children
      && FilesOnly(Forked(s, c), t, c)
  {
    NewKeeps(s, c);
    ForkedRest(s, c);
    hide Scheduled, PidsRight, Family, Rest, Counted, CopyTable, Forked;
    var n := NewProc(s, c);
    var t := DoFork(s, c);
    CopyTableKeeps(n, s.current, c, 0);
    ForkTables(s, c, n, CopyTable(n, s.current, c, 0));
    FilesOnlyRest(Forked(s, c), t, c);
    RestShape(t);
  }

  lemma RestShape(s: Sys)
    requires Rest(s)
    ensures Shape(s) && Scheduled(s) && PidsRight(s) && Family(s)
  {}

  lemma ForkTables(s: Sys, c: Process, n: Sys, m: Sys)
    requires s.current in s.procs && c != s.current && n == NewProc(s, c) && c != s.idle
    requires FilesOnly(n, m, c) && Counted(m)
    ensures var t := Enqueue(WithChildren(m, s.current, [c] + m.procs[s.current].children), c);
      && FilesOnly(Forked(s, c), t, c) && Counted(t)
      && t.procs[c] == n.procs[c].(files := m.procs[c].files)
      && t.procs[s.current].children == [c] + s.procs[s.current].children
  {
    var t := Enqueue(WithChildren(m, s.current, [c] + m.procs[s.current].children), c);
    SameTablesCounted(m, t);
    hide Counted;
    assert m.procs[s.current] == n.procs[s.current];
    assert t.procs == Forked(s, c).procs[c := t.procs[c]];
  }

  // ---------------------------------------------------------------- wait

  /** The k-th child of the current process has exited. */
  ghost predicate ReapReady(s: Sys, k: nat) {
    && Inv(s) && s.current != s.idle && k < |s.procs[s.current].children|
    && var c := s.procs[s.current].children[k];
      c in s.procs && s.procs[c].state == Exited && s.procs[c].children == [] && s.procs[c].parent == s.current
      && c != s.idle && c != s.init && c != s.current
  }

  /** What deleting the k-th child does, but for the tables and the counts. */
  function Reaped(s: Sys, k: nat): Sys
    requires s.current in s.procs && k < |s.procs[s.current].children| && s.procs[s.current].children[k] in s.procs
  {
    var t := Unlinked(s, k);
    t.(procs := t.procs - {s.procs[s.current].children[k]})
  }

  lemma ReapedRest(s: Sys, k: nat)
    requires ReapReady(s, k)
    ensures Rest(Reaped(s, k))
  {
    hide Counted, Scheduled, PidsRight, Family, Reaped;
    ReapedPids(s, k);
    ReapedShape(s, k);
    ReapedFamily(s, k);
  }

  lemma ReapIsReady(s: Sys, k: nat)
    requires Inv(s) && s.current != s.idle && k < |s.procs[s.current].children|
    ensures var c := s.procs[s.current].children[k];
      c in s.procs && (s.procs[c].state == Exited ==> ReapReady(s, k))
  {
    hide Counted, PidsRight;
    var c := s.procs[s.current].children[k];
    assert ChildrenAt(s, s.current) && c in s.procs[s.current].children;
    assert StateAt(s, c) && ScheduledAt(s, s.current);
  }

  lemma ReapedPids(s: Sys, k: nat)
    requires ReapReady(s, k)
    ensures PidsRight(Reaped(s, k))
  {
    hide Counted, Scheduled, Family;
    var t := Reaped(s, k);
    var c := s.procs[s.current].children[k];
    assert t.procs.Keys == s.procs.Keys - {c};
    assert forall q <- t.procs :: t.procs[q].pid == s.procs[q].pid;
    assert PidSet(t) == PidSet(s) - {s.procs[c].pid};
  }

  lemma ReapedShape(s: Sys, k: nat)
    requires ReapReady(s, k)
    ensures Shape(Reaped(s, k)) && Scheduled(Reaped(s, k))
  {
    hide Counted, Family, PidsRight;
    var t := Reaped(s, k);
    var c := s.procs[s.current].children[k];
    assert ScheduledAt(s, c);
    assert forall q <- t.procs :: t.procs[q] == s.procs[q].(children := t.procs[q].children, flag := t.procs[q].flag);
    forall q <- t.procs ensures ScheduledAt(t, q) {
      assert ScheduledAt(s, q);
    }
  }

  /** Taking out one element of a sequence without repetitions */
  lemma WithoutOne<T>(cs: seq<T>, k: nat)
    requires Distinct(cs) && k < |cs|
    ensures var ds := cs[..k] + cs[k + 1..]; Distinct(ds) && forall d :: d in ds <==> d in cs && d != cs[k]
  {
    var ds := cs[..k] + cs[k + 1..];
    assert forall i: nat :: i < |ds| ==> ds[i] == cs[if i < k then i else i + 1];
    forall d | d in cs && d != cs[k] ensures d in ds {
      var i: nat :| i < |cs| && cs[i] == d;
      assert ds[if i < k then i else i - 1] == d;
    }
  }

  lemma ReapedFamily(s: Sys, k: nat)
    requires ReapReady(s, k)
    ensures Family(Reaped(s, k))
  {
    hide Counted, PidsRight, Scheduled;
    var t := Reaped(s, k);
    var me := s.current;
    var c := s.procs[me].children[k];
    assert ChildrenAt(s, me);
    WithoutOne(s.procs[me].children, k);
    assert t.procs.Keys == s.procs.Keys - {c};
    assert forall q <- t.procs :: q != me ==> t.procs[q] == s.procs[q];
    forall q <- t.procs
      ensures ChildrenAt(t, q) && StateAt(t, q) && (q != t.idle && q != t.init ==> Listed(t, q))
    {
      assert ChildrenAt(s, q) && StateAt(s, q) && (q != t.idle && q != t.init ==> Listed(s, q));
    }
  }

  lemma ReapKeeps(s: Sys, k: nat)
    requires ReapReady(s, k)
    ensures Inv(DoReap(s, k))
    ensures DoReap(s, k) == Reaped(s, k).(counts := DoReap(s, k).counts)
  {
    hide Scheduled, PidsRight, Family, Counted, DropAll;
    var c := s.procs[s.current].children[k];
    var b := Unlinked(s, k);
    SameTablesCounted(s, b);
    DropAllKeeps(b, c, 0);
    var d := DropAll(b, c, 0);
    var t := DoReap(s, k);
    assert t.procs == b.procs - {c};
    RemoveCounted(d, t, c);
    ReapedRest(s, k);
    SameRest(Reaped(s, k), t);
  }

  /** A process whose table is empty can go. */
  lemma RemoveCounted(s: Sys, t: Sys, c: Process)
    requires Counted(s) && c in s.procs && t == s.(procs := s.procs - {c})
    requires forall i: nat :: i < |s.procs[c].files| ==> s.procs[c].files[i] == null
    ensures Counted(t)
  {
    forall f: File ensures Slots(t, f) == Slots(s, f) {}
  }

  lemma WaitReady(s: Sys)
    requires Inv(s) && s.current != s.idle
    ensures forall c <- s.procs[s.current].children :: c in s.procs
    ensures s.procs[s.current].flag ==> s.procs[s.current].children != []
  {
    hide Counted, PidsRight, Scheduled;
    assert ChildrenAt(s, s.current) && StateAt(s, s.current);
  }

  lemma WaitKeeps(s: Sys)
    requires Inv(s) && s.current != s.idle
    ensures forall c <- s.procs[s.current].children :: c in s.procs
    ensures Inv(DoWait(s).sys)
  {
    hide Counted, Scheduled, PidsRight, Family, DoYield, DoReap;
    WaitReady(s);
    var me := s.procs[s.current];
    var k := FirstExited(s, me.children);
    if k < |me.children| { ReapIsReady(s, k); ReapKeeps(s, k); }
    else if me.flag || me.children != [] { YieldKeeps(s, true); }
  }

  // ---------------------------------------------------------------- open files

  lemma OpenKeeps(s: Sys, found: bool, f: File)
    requires Inv(s) && s.current != s.idle
    ensures Inv(DoOpen(s, found, f).sys) && FilesOnly(s, DoOpen(s, found, f).sys, s.current)
  {
    var files := s.procs[s.current].files;
    var k := FirstFree(files);
    if found && k < |files| {
      PutKeeps(s, s.current, k, f);
      FilesOnlyRest(s, PutFile(s, s.current, k, f), s.current);
    } else {
      FilesOnlyRefl(s, s.current);
    }
  }

  lemma CloseKeeps(s: Sys, fd: int)
    requires Inv(s) && s.current != s.idle
    ensures Inv(DoClose(s, fd)) && FilesOnly(s, DoClose(s, fd), s.current)
  {
    if 0 <= fd < |s.procs[s.current].files| {
      DropKeeps(s, s.current, fd);
      FilesOnlyRest(s, DropFile(s, s.current, fd), s.current);
    } else {
      FilesOnlyRefl(s, s.current);
    }
  }

  lemma ExecKeeps(s: Sys, io: seq<File>)
    requires Inv(s) && s.current != s.idle && |io| <= NR_OPEN
    ensures Inv(DoExec(s, io))
    ensures FilesOnly(s, DoExec(s, io), s.current)
    ensures DoExec(s, io).procs[s.current].files == io + seq(NR_OPEN - |io|, _ => null)
  {
    hide Counted, Scheduled, PidsRight, Family;
    var me := s.current;
    DropAllKeeps(s, me, 0);
    var t := Cleared(s);
    OpenStdioKeeps(t, me, io, 0);
    FilesOnlyTrans(s, t, DoExec(s, io), me);
    FilesOnlyRest(s, DoExec(s, io), me);
  }

  // ---------------------------------------------------------------- all steps

  lemma StepKeeps(s: Sys, step: Step)
    requires Inv(s) && Permitted(s, step)
    ensures Inv(Do(s, step).sys)
  {
    hide Counted, Scheduled, PidsRight, Family, DoDispatch, DoYield, DoExit, DoFork, DoWait, DoOpen, DoClose, DoExec;
    match step
    case Dispatch => DispatchKeeps(s);
    case Yield => PlainYieldKeeps(s);
    case Fork(c) => ForkKeeps(s, c);
    case Exit => ExitKeeps(s);
    case Wait => WaitKeeps(s);
    case Open(found, f) => OpenKeeps(s, found, f);
    case Close(fd) => CloseKeeps(s, fd);
    case Exec(io) => ExecKeeps(s, io);
  }

  lemma PlainYieldKeeps(s: Sys)
    requires Inv(s) && s.current != s.idle && !s.procs[s.current].flag
    ensures Inv(DoYield(s))
  {
    hide DoYield;
    assert WithFlag(s, s.current, false).procs == s.procs;
    YieldKeeps(s, false);
  }
}
