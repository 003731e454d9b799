// Whole runs of the process system: any sequence of scheduler steps and system
// calls, from any state that satisfies the invariant.
module ProcRuns {
  import opened OpenFiles
  import opened Sequences
  import opened Options
  import opened ProcSpec
  import opened ProcFiles
  import opened ProcSteps
  import opened ProcKeeps

  /** None when a step is not permitted where it comes. */
  ghost function Run(s: Sys, steps: seq<Step>): Option<Sys>
    requires Inv(s)
    decreases |steps|
  {
    if steps == [] then Some(s)
    else if !Permitted(s, steps[0]) then None
    else
      StepKeeps(s, steps[0]);
      Run(Do(s, steps[0]).sys, steps[1..])
  }

  /** The invariant holds in every reachable state. */
  lemma {:induction false} RunKeeps(s: Sys, steps: seq<Step>)
    requires Inv(s)
    ensures Run(s, steps).Some? ==> Inv(Run(s, steps).value)
    decreases |steps|
  {
    if steps != [] && Permitted(s, steps[0]) {
      StepKeeps(s, steps[0]);
      RunKeeps(Do(s, steps[0]).sys, steps[1..]);
    }
  }

  // ---------------------------------------------------------------- the initial state

  /** Two processes straight from alloc, with an empty run queue */
  function Two(idle: Process, init: Process): Sys {
    Sys(map[idle := Proc(0, Running, null, [], false, NoFiles()), init := Proc(1, Ready, null, [], false, NoFiles())],
        map[], [], idle, idle, init, {0, 1})
  }

  /** init_process up to schedule(): idle runs, init is ready with its three files. */
  function Initial(idle: Process, init: Process, io: seq<File>): Sys
    requires |io| == STDIO && idle != init
  {
    Enqueue(OpenStdio(Two(idle, init), init, io, 0), init)
  }

  lemma TwoCounted(idle: Process, init: Process)
    requires idle != init
    ensures Counted(Two(idle, init))
  {
    var s := Two(idle, init);
    forall f: File ensures Slots(s, f) == {} {}
    SlotsCount(s);
  }

  lemma InitialKeeps(idle: Process, init: Process, io: seq<File>)
    requires |io| == STDIO && idle != init
    ensures Inv(Initial(idle, init, io))
  {
    var s := Two(idle, init);
    TwoCounted(idle, init);
    var q := Enqueue(s, init);
    assert q.procs.Keys == {idle, init};
    assert q.procs[idle].pid == 0 && q.procs[init].pid == 1;
    assert PidSet(q) == {0, 1};
    assert Rest(q);
    OpenStdioKeeps(s, init, io, 0);
    var t := Initial(idle, init, io);
    assert FilesOnly(q, t, init);
    FilesOnlyRest(q, t, init);
    SameTablesCounted(OpenStdio(s, init, io, 0), t);
  }

  /** In every reachable state a file exists exactly while some table entry of a
      process not yet deleted names it, and its count is the number of these. */
  lemma FileLifetime(s: Sys, steps: seq<Step>, f: File)
    requires Inv(s) && Run(s, steps).Some?
    ensures var t := Run(s, steps).value;
      (f in t.counts <==> Slots(t, f) != {}) && (f in t.counts ==> t.counts[f] == |Slots(t, f)|)
  {
    RunKeeps(s, steps);
    CountedSlots(Run(s, steps).value, f);
  }

  // ---------------------------------------------------------------- fairness

  /** The process a step takes from the queue */
  function Takes(s: Sys, step: Step): seq<Process> {
    if step.Dispatch? && s.queue != [] then [s.queue[0]] else []
  }

  /** The process a step puts at the end of the queue */
  ghost function Puts(s: Sys, step: Step): seq<Process>
    requires Inv(s) && Permitted(s, step)
  {
    match step
    case Fork(c) => [c]
    case Yield => [s.current]
    case Wait => if Do(s, step).ret.Nothing? then [s.current] else []
    case _ => []
  }

  lemma {:induction false} DropAllQueue(s: Sys, p: Process, i: nat)
    requires p in s.procs && i <= |s.procs[p].files|
    ensures DropAll(s, p, i).queue == s.queue
    decreases |s.procs[p].files| - i
  {
    if i < |s.procs[p].files| { DropAllQueue(DropFile(s, p, i), p, i + 1); }
  }

  lemma {:induction false} OpenStdioQueue(s: Sys, p: Process, io: seq<File>, i: nat)
    requires p in s.procs && i <= |io| <= |s.procs[p].files|
    ensures OpenStdio(s, p, io, i).queue == s.queue
    decreases |io| - i
  {
    if i < |io| { OpenStdioQueue(PutFile(s, p, i, io[i]), p, io, i + 1); }
  }

  lemma {:induction false} CopyTableQueue(s: Sys, from: Process, to: Process, i: nat)
    requires from in s.procs && to in s.procs && from != to
    requires |s.procs[from].files| == |s.procs[to].files| >= i
    ensures CopyTable(s, from, to, i).queue == s.queue
    decreases |s.procs[to].files| - i
  {
    if i < |s.procs[to].files| { CopyTableQueue(CopyEntry(s, from, to, i), from, to, i + 1); }
  }

  lemma StepFifo(s: Sys, step: Step)
    requires Inv(s) && Permitted(s, step)
    ensures Takes(s, step) + Do(s, step).sys.queue == s.queue + Puts(s, step)
  {
    hide Counted, Scheduled, PidsRight, Family, DropAll, OpenStdio, CopyTable;
    match step
    case Fork(c) => CopyTableQueue(NewProc(s, c), s.current, c, 0);
    case Wait =>
      WaitReady(s);
      var k := FirstExited(s, s.procs[s.current].children);
      if k < |s.procs[s.current].children| {
        DropAllQueue(Unlinked(s, k), s.procs[s.current].children[k], 0);
      }
    case Exec(io) =>
      DropAllQueue(s, s.current, 0);
      OpenStdioQueue(Cleared(s), s.current, io, 0);
    case _ =>
  }

  /** All processes dispatched in a run, in order */
  ghost function Dispatched(s: Sys, steps: seq<Step>): seq<Process>
    requires Inv(s) && Run(s, steps).Some?
    decreases |steps|
  {
    if steps == [] then []
    else
      StepKeeps(s, steps[0]);
      Takes(s, steps[0]) + Dispatched(Do(s, steps[0]).sys, steps[1..])
  }

  /** All processes queued in a run, in order */
  ghost function Queued(s: Sys, steps: seq<Step>): seq<Process>
    requires Inv(s) && Run(s, steps).Some?
    decreases |steps|
  {
    if steps == [] then []
    else
      StepKeeps(s, steps[0]);
      Puts(s, steps[0]) + Queued(Do(s, steps[0]).sys, steps[1..])
  }

  lemma Regroup<T>(a: seq<T>, b: seq<T>, c: seq<T>, d: seq<T>, e: seq<T>, q: seq<T>, r: seq<T>)
    requires a + q == r + d && b + c == q + e
    ensures (a + b) + c == r + (d + e)
  {
    assert (a + b) + c == a + (b + c) == (a + q) + e == r + (d + e);
  }

  /** First in, first out, over any run */
  lemma {:induction false} Fifo(s: Sys, steps: seq<Step>)
    requires Inv(s) && Run(s, steps).Some?
    ensures Dispatched(s, steps) + Run(s, steps).value.queue == s.queue + Queued(s, steps)
    decreases |steps|
  {
    hide Inv, Do, Permitted;
    if steps != [] {
      StepKeeps(s, steps[0]);
      StepFifo(s, steps[0]);
      var t := Do(s, steps[0]).sys;
      Fifo(t, steps[1..]);
      Regroup(Takes(s, steps[0]), Dispatched(t, steps[1..]), Run(s, steps).value.queue,
              Puts(s, steps[0]), Queued(t, steps[1..]), t.queue, s.queue);
    }
  }

  /** A process at place k is dispatched after exactly k others, whatever the
      processes do; until then it moves up one place with every dispatch. */
  lemma Fair(s: Sys, steps: seq<Step>, k: nat)
    requires Inv(s) && Run(s, steps).Some? && k < |s.queue|
    ensures var d := Dispatched(s, steps); var q := Run(s, steps).value.queue; var p := s.queue[k];
      if k < |d| then d[k] == p && p !in d[..k] else k - |d| < |q| && q[k - |d|] == p
  {
    assert Distinct(s.queue);
    hide Inv, Run, Dispatched, Queued;
    Fifo(s, steps);
    var d, q := Dispatched(s, steps), Run(s, steps).value.queue;
    assert forall i: nat :: i < |s.queue| ==> (s.queue + Queued(s, steps))[i] == s.queue[i] == (d + q)[i];
    assert k < |d| ==> forall i: nat :: i < k ==> d[i] == s.queue[i] != s.queue[k];
  }

  // ---------------------------------------------------------------- exited processes

  /** What a step keeps of a process that exists before and after it */
  ghost predicate Persists(s: Sys, t: Sys, q: Process)
    requires q in s.procs && q in t.procs
  {
    && t.procs[q].pid == s.procs[q].pid && t.procs[q].parent == s.procs[q].parent
    && (s.procs[q].state == Exited ==> t.procs[q].state == Exited)
    && (s.procs[q].flag && t.procs[q].flag ==> t.procs[q].children == s.procs[q].children)
  }

  /** Opening, closing and exec change the caller's table only. */
  lemma FileStep(s: Sys, step: Step)
    requires Inv(s) && Permitted(s, step) && (step.Open? || step.Close? || step.Exec?)
    ensures FilesOnly(s, Do(s, step).sys, s.current)
  {
    hide Counted, PidsRight, Family, Scheduled, DoOpen, DoClose, DoExec;
    match step
    case Open(found, f) => OpenKeeps(s, found, f);
    case Close(fd) => CloseKeeps(s, fd);
    case Exec(io) => ExecKeeps(s, io);
  }

  /** One round of sys_wait: either a child is deleted or p yields, or it has no children. */
  lemma WaitStep(s: Sys) returns (k: nat)
    requires Inv(s) && Permitted(s, Wait)
    ensures forall c <- s.procs[s.current].children :: c in s.procs
    ensures var cs := s.procs[s.current].children;
      && k <= |cs| && (k < |cs| ==> s.procs[cs[k]].state == Exited)
      && (forall j: nat :: j < k ==> s.procs[cs[j]].state != Exited)
    ensures var cs := s.procs[s.current].children; var out := Do(s, Wait);
      if k < |cs| then
        && ReapReady(s, k) && out.sys == Reaped(s, k).(counts := out.sys.counts)
        && out.ret == Returned(s.procs[cs[k]].pid)
      else if cs != [] then out == Out(DoYield(WithFlag(s, s.current, true)), Nothing)
      else out == Out(s, Returned(-1))
  {
    hide Counted, PidsRight, Family, Scheduled, DoReap, DoYield, Reaped;
    WaitReady(s);
    k := FirstExited(s, s.procs[s.current].children);
    if k < |s.procs[s.current].children| { ReapIsReady(s, k); ReapKeeps(s, k); }
  }

  lemma ForkStep(s: Sys, c: Process)
    requires Inv(s) && Permitted(s, Fork(c))
    ensures FilesOnly(Forked(s, c), Do(s, Fork(c)).sys, c)
  {
    hide Counted, PidsRight, Family, Scheduled, DoFork, Forked;
    ForkKeeps(s, c);
  }

  lemma PlainStep(s: Sys, step: Step)
    requires Inv(s) && Permitted(s, step) && (step.Dispatch? || step.Yield? || step.Exit?)
    ensures step.Dispatch? ==> s.queue[0] in s.procs && Do(s, step).sys == DoDispatch(s)
    ensures step.Yield? ==> Do(s, step).sys == DoYield(s)
    ensures step.Exit? ==> Do(s, step).sys == DoExit(s)
  {
    hide DoDispatch, DoYield, DoExit, Counted, PidsRight, Family;
    assert step.Dispatch? ==> s.queue[0] in s.queue;
  }

  lemma WhoRuns(s: Sys, step: Step)
    requires Inv(s) && Permitted(s, step)
    ensures s.current in s.procs && s.idle in s.procs && s.procs[s.idle].state != Exited
    ensures s.procs[s.current].state != Exited
    ensures s.current == s.idle <==> step.Dispatch?
    ensures (s.procs[s.current].flag ==> step == Wait) && (step.Dispatch? ==> s.queue != [])
    ensures step.Fork? ==> step.child !in s.procs
  {
    assert ScheduledAt(s, s.current);
  }

  lemma StepPersists(s: Sys, step: Step, q: Process)
    requires Inv(s) && Permitted(s, step) && q in s.procs && q in Do(s, step).sys.procs
    ensures Persists(s, Do(s, step).sys, q)
  {
    hide Inv, Permitted, Do, DoReap;
    WhoRuns(s, step);
    match step
    case Open(_, _) | Close(_) | Exec(_) => FileStep(s, step);
    case Fork(c) => ForkStep(s, c);
    case Wait => var k := WaitStep(s);
    case Dispatch => QueueHead(s); PlainStep(s, step);
    case _ => PlainStep(s, step);
  }

  lemma QueueHead(s: Sys)
    requires Inv(s) && s.queue != []
    ensures s.queue[0] in s.procs && s.procs[s.queue[0]].state == Ready && s.queue[0] != s.idle
  {
    assert s.queue[0] in s.queue;
    assert ScheduledAt(s, s.queue[0]);
  }

  lemma DispatchReady(s: Sys)
    requires Inv(s) && s.current == s.idle && s.queue != []
    ensures Permitted(s, Dispatch)
  {
    hide Counted, PidsRight, Scheduled;
    assert StateAt(s, s.idle);
  }

  /** A process that has exited is never queued or dispatched again, and stays
      exited for as long as it exists. */
  lemma {:induction false} ExitedStays(s: Sys, steps: seq<Step>, p: Process)
    requires Inv(s) && Run(s, steps).Some?
    requires p in s.procs ==> s.procs[p].state == Exited
    requires forall i: nat :: i < |steps| ==> steps[i] != Fork(p)
    ensures var t := Run(s, steps).value; p in t.procs ==> t.procs[p].state == Exited
    ensures p !in Dispatched(s, steps) && p !in Queued(s, steps) && p !in Run(s, steps).value.queue
    decreases |steps|
  {
    if steps == [] {
      NotQueued(s, p);
    } else {
      StepKeeps(s, steps[0]);
      StepExited(s, steps[0], p);
      var t := Do(s, steps[0]).sys;
      hide Inv, Do, Permitted, Takes, Puts;
      assert forall i: nat :: i < |steps[1..]| ==> steps[1..][i] == steps[i + 1];
      ExitedStays(t, steps[1..], p);
    }
  }

  lemma NotQueued(s: Sys, p: Process)
    requires Inv(s) && (p in s.procs ==> s.procs[p].state == Exited)
    ensures p !in s.queue && (p in s.procs ==> p != s.current)
  {
    hide Counted, PidsRight, Family;
    if p in s.procs { assert ScheduledAt(s, p); }
  }

  lemma StepExited(s: Sys, step: Step, p: Process)
    requires Inv(s) && Permitted(s, step) && step != Fork(p)
    requires p in s.procs ==> s.procs[p].state == Exited
    ensures var t := Do(s, step).sys; p in t.procs ==> p in s.procs && t.procs[p].state == Exited
    ensures p !in Takes(s, step) && p !in Puts(s, step)
  {
    NotQueued(s, p);
    if p in Do(s, step).sys.procs {
      StepProcs(s, step);
      StepPersists(s, step, p);
    }
  }

  /** Only forking adds a process, and only sys_wait removes one. */
  lemma StepProcs(s: Sys, step: Step)
    requires Inv(s) && Permitted(s, step)
    ensures var t := Do(s, step).sys;
      match step
      case Fork(c) => t.procs.Keys == s.procs.Keys + {c}
      case Wait => t.procs.Keys <= s.procs.Keys
      case _ => t.procs.Keys == s.procs.Keys
  {
    hide Inv, Permitted, Do, DoReap;
    WhoRuns(s, step);
    match step
    case Open(_, _) | Close(_) | Exec(_) => FileStep(s, step);
    case Fork(c) => ForkStep(s, c);
    case Wait => var k := WaitStep(s);
    case Dispatch => QueueHead(s); PlainStep(s, step);
    case _ => PlainStep(s, step);
  }

  // ---------------------------------------------------------------- sys_wait

  /** After each of these steps p is still inside the same call of sys_wait. */
  ghost predicate InCall(s: Sys, steps: seq<Step>, p: Process)
    requires Inv(s)
    decreases |steps|
  {
    steps == [] || (Permitted(s, steps[0]) &&
      (StepKeeps(s, steps[0]);
       var t := Do(s, steps[0]).sys;
       p in t.procs && t.procs[p].flag && InCall(t, steps[1..], p)))
  }

  /** While p is in sys_wait its children stay its children, with their pids. */
  ghost predicate SameChildren(s: Sys, t: Sys, p: Process) {
    && p in s.procs && p in t.procs && t.procs[p].children == s.procs[p].children
    && forall c <- s.procs[p].children :: c in s.procs && c in t.procs && t.procs[c].pid == s.procs[c].pid
  }

  lemma {:induction false} InCallChildren(s: Sys, steps: seq<Step>, p: Process)
    requires Inv(s) && p in s.procs && s.procs[p].flag && InCall(s, steps, p)
    ensures Run(s, steps).Some? && SameChildren(s, Run(s, steps).value, p)
    ensures Run(s, steps).value.procs[p].flag
    decreases |steps|
  {
    hide Permitted, Do, Inv;
    ChildrenExist(s, p);
    if steps != [] {
      StepKeeps(s, steps[0]);
      var t := Do(s, steps[0]).sys;
      InCallChildren(t, steps[1..], p);
      ChildrenExist(t, p);
      StepPersists(s, steps[0], p);
      forall c <- s.procs[p].children ensures t.procs[c].pid == s.procs[c].pid {
        StepPersists(s, steps[0], c);
      }
    }
  }

  lemma ChildrenExist(s: Sys, p: Process)
    requires Inv(s) && p in s.procs
    ensures forall c <- s.procs[p].children :: c in s.procs
    ensures s.procs[p].flag ==> s.procs[p].children != []
  {
    hide Counted, PidsRight, Scheduled;
    assert ChildrenAt(s, p) && StateAt(s, p);
  }

  /** The first round of a call that does not return at once */
  lemma FirstRound(s: Sys, step: Step, p: Process)
    requires Inv(s) && Permitted(s, step) && p in s.procs && !s.procs[p].flag
    requires var t := Do(s, step).sys; p in t.procs && t.procs[p].flag
    ensures s.procs[p].children != [] && SameChildren(s, Do(s, step).sys, p)
  {
    ChildrenExist(s, p);
    OnlyWait(s, step, p);
    hide Do, Permitted, Inv;
    var k := WaitStep(s);
  }

  lemma OnlyWait(s: Sys, step: Step, p: Process)
    requires Inv(s) && Permitted(s, step) && p in s.procs && !s.procs[p].flag
    requires var t := Do(s, step).sys; p in t.procs && t.procs[p].flag
    ensures step == Wait
  {
    hide Counted, PidsRight, Family, Scheduled;
    match step
    case Open(found, f) => hide Do; FileStep(s, step);
    case Close(fd) => hide Do; FileStep(s, step);
    case Exec(io) => hide Do; FileStep(s, step);
    case Fork(c) => hide Do; ForkStep(s, c);
    case Dispatch => QueueHead(s);
    case _ =>
  }

  /** v is the pid of p's k-th child, which had exited and is now gone. */
  ghost predicate Answer(s: Sys, u: Sys, t: Sys, p: Process, k: nat, v: int)
    requires p in s.procs && k < |s.procs[p].children|
  {
    var cs := s.procs[p].children;
    var c := cs[k];
    && c in s.procs && v == s.procs[c].pid
    && c in u.procs && u.procs[c].state == Exited
    && t.procs.Keys == u.procs.Keys - {c} && v !in t.pids
    && p in t.procs && t.procs[p].children == cs[..k] + cs[k + 1..] && !t.procs[p].flag
  }

  lemma ReapAnswers(s: Sys, u: Sys, t: Sys, p: Process, k: nat)
    requires ReapReady(u, k) && u.current == p && SameChildren(s, u, p)
    requires t == Reaped(u, k).(counts := t.counts)
    ensures Answer(s, u, t, p, k, u.procs[u.procs[p].children[k]].pid)
  {
    hide Counted, PidsRight, Family, Scheduled;
  }

  lemma Round(s: Sys, u: Sys, p: Process)
    requires Inv(u) && u.current == p && p != u.idle && SameChildren(s, u, p)
    requires u.procs[p].flag || u == s
    ensures Permitted(u, Wait) && RightAnswer(s, u, p, Do(u, Wait))
  {
    ChildrenExist(u, p);
    hide Counted, PidsRight, Family, Scheduled, Do, Reaped, DoYield, Answer;
    var k := WaitStep(u);
    if k < |u.procs[p].children| {
      ReapAnswers(s, u, Do(u, Wait).sys, p, k);
    }
  }

  /** -1 without children, else the pid of a child, or no answer yet */
  ghost predicate RightAnswer(s: Sys, u: Sys, p: Process, out: Out)
    requires p in s.procs
  {
    match out.ret
    case Nothing => s.procs[p].children != []
    case Returned(v) =>
      if s.procs[p].children == [] then v == -1 && u == s && out.sys == s
      else exists k: nat :: k < |s.procs[p].children| && Answer(s, u, out.sys, p, k, v)
  }

  /** The state in the middle of a call */
  lemma MiddleOfCall(s: Sys, steps: seq<Step>, p: Process)
    requires Inv(s) && p in s.procs && !s.procs[p].flag && steps != [] && InCall(s, steps, p)
    ensures Run(s, steps).Some? && Inv(Run(s, steps).value) && SameChildren(s, Run(s, steps).value, p)
    ensures Run(s, steps).value.procs[p].flag
  {
    hide Inv, Do, Permitted;
    StepKeeps(s, steps[0]);
    FirstRound(s, steps[0], p);
    var t := Do(s, steps[0]).sys;
    InCallChildren(t, steps[1..], p);
    RunKeeps(s, steps);
  }

  /** sys_wait, from the call to the return.  However many rounds it takes and
      whatever runs in between, it answers -1 exactly when p had no children at
      the call; otherwise the pid of a child that p had then and that has exited,
      and this child is gone afterwards. */
  lemma WaitAnswers(s: Sys, steps: seq<Step>, p: Process)
    requires Inv(s) && p in s.procs && s.current == p && p != s.idle && !s.procs[p].flag
    requires InCall(s, steps, p) && Run(s, steps).Some?
    requires Run(s, steps).value.current == p && Run(s, steps).value.idle == s.idle
    ensures Inv(Run(s, steps).value) && Permitted(Run(s, steps).value, Wait)
    ensures RightAnswer(s, Run(s, steps).value, p, Do(Run(s, steps).value, Wait))
  {
    hide Inv, Do, Permitted, RightAnswer;
    if steps != [] { MiddleOfCall(s, steps, p); } else { ChildrenExist(s, p); }
    Round(s, Run(s, steps).value, p);
  }
}
