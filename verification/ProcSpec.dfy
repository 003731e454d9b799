// kernel/process.c and the file table of kernel/fs.c as a system of steps over
// values: what each system call and the scheduler do to the processes, their
// tables of open files, the run queue and the pids.
module ProcSpec {
  import opened OpenFiles
  import opened Sequences
  import opened Lists

  const MAX_PID: nat := 1024
  const NR_OPEN: nat := 16

  datatype PState = Ready | Running | Exited

  /** struct ProcessControlBlock; flag is the local of that name in sys_wait, kept
      on the kernel stack, and the list_heads are where the process hangs in the
      run queue, starts its list of children and hangs in its parent's list. */
  class Process {
    var pid: nat
    var state: PState
    var parent: Process?
    var flag: bool
    const list: Node
    const children: Node
    const sibling: Node
    const files: array<File?>

    constructor (pid: nat, state: PState, parent: Process?)
      ensures this.pid == pid && this.state == state && this.parent == parent && !flag
      ensures fresh(files) && files[..] == NoFiles()
      ensures fresh(list) && fresh(children) && fresh(sibling) && fresh(Links())
      ensures list != children && list != sibling && children != sibling
      ensures List(list, []) && List(children, []) && List(sibling, [])
    {
      this.pid, this.state, this.parent, flag := pid, state, parent, false;
      list := new Node();
      children := new Node();
      sibling := new Node();
      files := new File?[NR_OPEN](_ => null);
      new;
      assert files[..] == NoFiles();
    }

    function Links(): set<Node> {
      {list, children, sibling}
    }
  }

  datatype Proc = Proc(pid: nat, state: PState, parent: Process?, children: seq<Process>, flag: bool, files: seq<File?>)

  datatype Sys = Sys(procs: map<Process, Proc>, counts: map<File, int>, queue: seq<Process>,
                     current: Process, idle: Process, init: Process, pids: set<nat>)

  function NoFiles(): (fs: seq<File?>)
    ensures |fs| == NR_OPEN && forall i: nat :: i < NR_OPEN ==> fs[i] == null
  {
    seq(NR_OPEN, _ => null)
  }

  // ---------------------------------------------------------------- the invariant

  ghost predicate Shape(s: Sys) {
    && s.idle in s.procs && s.init in s.procs && s.current in s.procs && s.idle != s.init
    && forall p <- s.procs :: |s.procs[p].files| == NR_OPEN
  }

  /** A process is queued when it is ready and not idle, and runs when it is the current one. */
  ghost predicate ScheduledAt(s: Sys, p: Process)
    requires p in s.procs
  {
    && (p in s.queue <==> p != s.idle && s.procs[p].state == Ready)
    && (s.procs[p].state == Running <==> p == s.current)
  }

  /** The queue holds exactly the ready processes other than idle, once each. */
  ghost predicate Scheduled(s: Sys)
    requires s.idle in s.procs
  {
    && Distinct(s.queue)
    && (forall p <- s.queue :: p in s.procs)
    && (forall p <- s.procs {:trigger ScheduledAt(s, p)} :: ScheduledAt(s, p))
    && s.procs[s.idle].state != Exited
  }

  ghost function PidSet(s: Sys): set<nat> {
    set p <- s.procs :: s.procs[p].pid
  }

  /** The bitmap marks exactly the pids of the processes, which differ. */
  ghost predicate PidsRight(s: Sys) {
    && s.pids == PidSet(s)
    && (forall p <- s.procs :: s.procs[p].pid < MAX_PID)
    && (forall p <- s.procs, q <- s.procs {:trigger s.procs[p].pid, s.procs[q].pid} ::
          s.procs[p].pid == s.procs[q].pid ==> p == q)
  }

  /** c is on the list of children of the process that forked it. */
  ghost predicate Listed(s: Sys, c: Process)
    requires c in s.procs
  {
    var p := s.procs[c].parent;
    p != null && p in s.procs && c in s.procs[p].children
  }

  /** p's list of children names each process forked by p once, and nothing else. */
  ghost predicate ChildrenAt(s: Sys, p: Process)
    requires p in s.procs
  {
    && Distinct(s.procs[p].children)
    && (forall c <- s.procs[p].children {:trigger c in s.procs[p].children} ::
          c in s.procs && c != s.idle && c != s.init && s.procs[c].parent == p)
  }

  /** Only init exits with children; a process inside sys_wait has some. */
  ghost predicate StateAt(s: Sys, p: Process)
    requires p in s.procs
  {
    && (s.procs[p].state == Exited && p != s.init ==> s.procs[p].children == [])
    && (s.procs[p].flag ==> s.procs[p].children != [] && s.procs[p].state != Exited)
    && (p == s.idle ==> s.procs[p].children == [])
  }

  /** Every process but idle and init is listed once, by its parent alone. */
  ghost predicate Family(s: Sys) {
    && (forall p <- s.procs {:trigger ChildrenAt(s, p)} :: ChildrenAt(s, p))
    && (forall c <- s.procs {:trigger Listed(s, c)} :: c != s.idle && c != s.init ==> Listed(s, c))
    && (forall p <- s.procs {:trigger StateAt(s, p)} :: StateAt(s, p))
  }

  /** The table entries that name a file, over all processes with a table. */
  ghost function Slots(s: Sys, f: File): set<(Process, int)> {
    set p, i | p in s.procs && p != s.idle && 0 <= i < |s.procs[p].files| && s.procs[p].files[i] == f :: (p, i)
  }

  /** A file exists exactly while some entry names it, and its count says how many do. */
  ghost predicate Counted(s: Sys) {
    && (forall f <- s.counts :: s.counts[f] == |Slots(s, f)| > 0)
    && forall p <- s.procs, i: nat :: p != s.idle && i < |s.procs[p].files| && s.procs[p].files[i] != null ==>
      s.procs[p].files[i] in s.counts
  }

  ghost predicate Inv(s: Sys) {
    Shape(s) && Scheduled(s) && PidsRight(s) && Family(s) && Counted(s)
  }

  // ---------------------------------------------------------------- one entry of a table of open files

  function SetEntry(s: Sys, p: Process, i: nat, v: File?): Sys
    requires p in s.procs && i < |s.procs[p].files|
  {
    s.(procs := s.procs[p := s.procs[p].(files := s.procs[p].files[i := v])])
  }

  /** An empty entry takes a file; an old file gains a reference, a new one starts with one. */
  function PutFile(s: Sys, p: Process, i: nat, f: File): Sys
    requires p in s.procs && i < |s.procs[p].files|
  {
    SetEntry(s, p, i, f).(counts := s.counts[f := (if f in s.counts then s.counts[f] else 0) + 1])
  }

  /** An entry is cleared; the last reference takes the file with it. */
  function DropFile(s: Sys, p: Process, i: nat): Sys
    requires p in s.procs && i < |s.procs[p].files|
  {
    var f := s.procs[p].files[i];
    if f == null then s
    else
      var left := (if f in s.counts then s.counts[f] else 0) - 1;
      SetEntry(s, p, i, null).(counts := if left == 0 then s.counts - {f} else s.counts[f := left])
  }

  /** t differs from s in the table of p and in the counts only. */
  ghost predicate FilesOnly(s: Sys, t: Sys, p: Process) {
    && p in s.procs && p in t.procs
    && t == s.(procs := t.procs, counts := t.counts)
    && t.procs == s.procs[p := s.procs[p].(files := t.procs[p].files)]
    && |t.procs[p].files| == |s.procs[p].files|
  }

  lemma EntrySlots(s: Sys, p: Process, i: nat, v: File?, f: File)
    requires p in s.procs && i < |s.procs[p].files| && p != s.idle
    ensures Slots(SetEntry(s, p, i, v), f) == Slots(s, f) - {(p, i)} + (if v == f then {(p, i)} else {})
  {
    var t := SetEntry(s, p, i, v);
    forall q, j | q in s.procs
      ensures (q, j) in Slots(t, f) <==> (q, j) in Slots(s, f) - {(p, i)} + (if v == f then {(p, i)} else {})
    {
    }
  }

  lemma CountedSlots(s: Sys, f: File)
    requires Counted(s)
    ensures f in s.counts <==> Slots(s, f) != {}
    ensures f in s.counts ==> s.counts[f] == |Slots(s, f)|
  {
    if slot :| slot in Slots(s, f) { assert s.procs[slot.0].files[slot.1] == f; }
  }

  lemma SlotsCount(s: Sys)
    requires forall f: File :: f in s.counts <==> Slots(s, f) != {}
    requires forall f <- s.counts :: s.counts[f] == |Slots(s, f)|
    ensures Counted(s)
  {
    forall p <- s.procs, i: nat | p != s.idle && i < |s.procs[p].files| && s.procs[p].files[i] != null
      ensures s.procs[p].files[i] in s.counts
    {
      assert (p, i) in Slots(s, s.procs[p].files[i]);
    }
  }

  lemma PutKeeps(s: Sys, p: Process, i: nat, f: File)
    requires Counted(s) && p in s.procs && p != s.idle && i < |s.procs[p].files| && s.procs[p].files[i] == null
    ensures Counted(PutFile(s, p, i, f)) && FilesOnly(s, PutFile(s, p, i, f), p)
  {
    var t := PutFile(s, p, i, f);
    forall g: File
      ensures g in t.counts <==> Slots(t, g) != {}
      ensures g in t.counts ==> t.counts[g] == |Slots(t, g)|
    {
      CountedSlots(s, g);
      EntrySlots(s, p, i, f, g);
      assert Slots(t, g) == Slots(SetEntry(s, p, i, f), g);
      assert (p, i) !in Slots(s, g);
    }
    SlotsCount(t);
  }

  lemma DropSlots(s: Sys, p: Process, i: nat, g: File)
    requires p in s.procs && p != s.idle && i < |s.procs[p].files| && s.procs[p].files[i] != null
    ensures Slots(DropFile(s, p, i), g) == Slots(s, g) - {(p, i)}
    ensures (p, i) in Slots(s, g) <==> g == s.procs[p].files[i]
  {
    EntrySlots(s, p, i, null, g);
    assert Slots(DropFile(s, p, i), g) == Slots(SetEntry(s, p, i, null), g);
  }

  lemma DropCount(s: Sys, p: Process, i: nat, g: File)
    requires Counted(s) && p in s.procs && p != s.idle && i < |s.procs[p].files| && s.procs[p].files[i] != null
    ensures var t := DropFile(s, p, i);
      (g in t.counts <==> Slots(t, g) != {}) && (g in t.counts ==> t.counts[g] == |Slots(t, g)|)
  {
    hide Slots, Counted, SetEntry;
    var t := DropFile(s, p, i);
    DropSlots(s, p, i, g);
    CountedSlots(s, g);
    if g == s.procs[p].files[i] {
      assert |Slots(t, g)| == |Slots(s, g)| - 1;
    } else {
      assert Slots(t, g) == Slots(s, g);
    }
  }

  lemma DropKeeps(s: Sys, p: Process, i: nat)
    requires Counted(s) && p in s.procs && p != s.idle && i < |s.procs[p].files|
    ensures Counted(DropFile(s, p, i)) && FilesOnly(s, DropFile(s, p, i), p)
    ensures DropFile(s, p, i).procs[p].files == s.procs[p].files[i := null]
  {
    hide Counted, Slots;
    if s.procs[p].files[i] != null {
      var t := DropFile(s, p, i);
      forall g: File
        ensures g in t.counts <==> Slots(t, g) != {}
        ensures g in t.counts ==> t.counts[g] == |Slots(t, g)|
      {
        DropCount(s, p, i, g);
      }
      SlotsCount(t);
    }
  }
}
