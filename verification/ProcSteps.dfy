// kernel/process.c: the scheduler and the system calls as steps.  A context
// switch is one step: giving up the processor includes the scheduler taking over.
module ProcSteps {
  import opened OpenFiles
  import opened Sequences
  import opened ProcSpec
  import opened ProcFiles

  /** What one process, or the scheduler, can do next.  New objects are named by
      the step; close and exec cover sys_open, sys_close and sys_exec. */
  datatype Step =
    | Dispatch
    | Yield
    | Fork(child: Process)
    | Exit
    | Wait
    | Open(found: bool, file: File)
    | Close(fd: int)
    | Exec(io: seq<File>)

  /** The next state, and what the system call returns if it does. */
  datatype Out = Out(sys: Sys, ret: Ret)
  datatype Ret = Nothing | Returned(value: int)

  // ---------------------------------------------------------------- parts of steps

  function WithState(s: Sys, p: Process, v: PState): Sys
    requires p in s.procs
  {
    s.(procs := s.procs[p := s.procs[p].(state := v)])
  }

  function WithFlag(s: Sys, p: Process, v: bool): Sys
    requires p in s.procs
  {
    s.(procs := s.procs[p := s.procs[p].(flag := v)])
  }

  function WithChildren(s: Sys, p: Process, cs: seq<Process>): Sys
    requires p in s.procs
  {
    s.(procs := s.procs[p := s.procs[p].(children := cs)])
  }

  function Enqueue(s: Sys, p: Process): Sys {
    s.(queue := s.queue + [p])
  }

  /** __switch to the scheduler, which goes on after its own __switch */
  function ToIdle(s: Sys): Sys
    requires s.idle in s.procs
  {
    WithState(s, s.idle, Running).(current := s.idle)
  }

  /** The first pid from n on that is not in use */
  function LeastFree(pids: set<nat>, n: nat): (r: nat)
    requires n <= MAX_PID
    ensures n <= r <= MAX_PID && (r < MAX_PID ==> r !in pids)
    ensures forall m: nat :: n <= m < r ==> m in pids
    decreases MAX_PID - n
  {
    if n == MAX_PID || n !in pids then n else LeastFree(pids, n + 1)
  }

  /** A process straight from alloc, before its table is filled */
  function NewProc(s: Sys, c: Process): Sys {
    var n := LeastFree(s.pids, 0);
    s.(procs := s.procs[c := Proc(n, Ready, s.current, [], false, NoFiles())], pids := s.pids + {n})
  }

  /** The place of the first child that has exited; |cs| if there is none. */
  function FirstExited(s: Sys, cs: seq<Process>): (k: nat)
    requires forall c <- cs :: c in s.procs
    ensures k <= |cs|
    ensures k < |cs| ==> s.procs[cs[k]].state == Exited
    ensures forall j: nat :: j < k ==> s.procs[cs[j]].state != Exited
  {
    if cs == [] || s.procs[cs[0]].state == Exited then 0 else 1 + FirstExited(s, cs[1..])
  }

  /** The first free entry of a table of open files */
  function FirstFree(files: seq<File?>): (k: nat)
    ensures k <= |files| && (k < |files| ==> files[k] == null)
    ensures forall j: nat :: j < k ==> files[j] != null
  {
    if files == [] || files[0] == null then 0 else 1 + FirstFree(files[1..])
  }

  // ---------------------------------------------------------------- steps

  function DoDispatch(s: Sys): Sys
    requires s.idle in s.procs && s.queue != [] && s.queue[0] in s.procs
  {
    var p := s.queue[0];
    WithState(WithState(s.(queue := s.queue[1..]), p, Running), s.idle, Ready).(current := p)
  }

  function DoYield(s: Sys): Sys
    requires s.idle in s.procs && s.current in s.procs
  {
    ToIdle(Enqueue(WithState(s, s.current, Ready), s.current))
  }

  function DoExit(s: Sys): Sys
    requires s.idle in s.procs && s.current in s.procs
  {
    ToIdle(WithState(s, s.current, Exited))
  }

  function DoFork(s: Sys, c: Process): Sys
    requires s.current in s.procs && c != s.current && |s.procs[s.current].files| == NR_OPEN
  {
    var t := CopyTable(NewProc(s, c), s.current, c, 0);
    Enqueue(WithChildren(t, s.current, [c] + t.procs[s.current].children), c)
  }

  /** The k-th child is off its parent's list and its pid is free; sys_wait is about to return. */
  function Unlinked(s: Sys, k: nat): Sys
    requires s.current in s.procs && k < |s.procs[s.current].children| && s.procs[s.current].children[k] in s.procs
  {
    var cs := s.procs[s.current].children;
    var t := WithFlag(WithChildren(s, s.current, cs[..k] + cs[k + 1..]), s.current, false);
    t.(pids := t.pids - {t.procs[cs[k]].pid})
  }

  /** The current process deletes its k-th child. */
  function DoReap(s: Sys, k: nat): Sys
    requires s.current in s.procs && k < |s.procs[s.current].children| && s.procs[s.current].children[k] in s.procs
  {
    var c := s.procs[s.current].children[k];
    var t := DropAll(Unlinked(s, k), c, 0);
    t.(procs := t.procs - {c})
  }

  function DoWait(s: Sys): Out
    requires s.idle in s.procs && s.current in s.procs
    requires forall c <- s.procs[s.current].children :: c in s.procs
  {
    var me := s.procs[s.current];
    var k := FirstExited(s, me.children);
    if k < |me.children| then Out(DoReap(s, k), Returned(s.procs[me.children[k]].pid))
    else if me.flag || me.children != [] then Out(DoYield(WithFlag(s, s.current, true)), Nothing)
    else Out(s, Returned(-1))
  }

  function DoOpen(s: Sys, found: bool, f: File): Out
    requires s.current in s.procs
  {
    var k := FirstFree(s.procs[s.current].files);
    if found && k < |s.procs[s.current].files| then Out(PutFile(s, s.current, k, f), Returned(k))
    else Out(s, Returned(-1))
  }

  function DoClose(s: Sys, fd: int): Sys
    requires s.current in s.procs
  {
    if 0 <= fd < |s.procs[s.current].files| then DropFile(s, s.current, fd) else s
  }

  /** The current process's table after dealloc_files */
  function Cleared(s: Sys): (t: Sys)
    requires s.current in s.procs
    ensures s.current in t.procs && |t.procs[s.current].files| == |s.procs[s.current].files|
  {
    DropAll(s, s.current, 0)
  }

  function DoExec(s: Sys, io: seq<File>): Sys
    requires s.current in s.procs && |io| <= |s.procs[s.current].files|
  {
    OpenStdio(Cleared(s), s.current, io, 0)
  }

  /** What the source assumes of each step.  A process inside sys_wait does
      nothing else; forking needs a free pid; only init exits with children. */
  ghost predicate Permitted(s: Sys, step: Step)
    requires Shape(s)
  {
    && (step.Dispatch? <==> s.current == s.idle)
    && (step.Dispatch? ==> s.queue != [])
    && (s.procs[s.current].flag ==> step.Wait?)
    && match step
      case Fork(c) => c !in s.procs && LeastFree(s.pids, 0) < MAX_PID
      case Exit => s.procs[s.current].children == [] || s.current == s.init
      case Open(found, f) => f !in s.counts
      case Exec(io) => |io| == STDIO && Distinct(io) && forall f <- io :: f !in Cleared(s).counts
      case _ => true
  }

  ghost function Do(s: Sys, step: Step): Out
    requires Inv(s) && Permitted(s, step)
  {
    match step
    case Dispatch => Out(DoDispatch(s), Nothing)
    case Yield => Out(DoYield(s), Nothing)
    case Fork(c) => Out(DoFork(s, c), Returned(LeastFree(s.pids, 0)))
    case Exit => Out(DoExit(s), Nothing)
    case Wait => assert ChildrenAt(s, s.current); DoWait(s)
    case Open(found, f) => DoOpen(s, found, f)
    case Close(fd) => Out(DoClose(s, fd), Returned(0))
    case Exec(io) => Out(DoExec(s, io), Returned(0))
  }
}
