// kernel/process.c, lines 298-306: a process other than init can reach
// exit_current with children, where the reparenting loop does not end.
module Orphans {
  import opened OpenFiles
  import opened Options
  import opened ProcSpec
  import opened ProcFiles
  import opened ProcSteps
  import opened ProcKeeps
  import opened ProcRuns
  import opened PidMap

  ghost predicate Reaches(s: Sys, steps: seq<Step>, t: Sys) {
    Inv(s) && Run(s, steps) == Some(t)
  }

  lemma ReachStep(s: Sys, step: Step, rest: seq<Step>, t: Sys)
    requires Inv(s) && Permitted(s, step) && Reaches(Do(s, step).sys, rest, t)
    ensures Reaches(s, [step] + rest, t)
  {
    hide Inv, Permitted, Do;
    StepKeeps(s, step);
    assert ([step] + rest)[1..] == rest;
  }

  /** The pids below n are the ones taken. */
  ghost predicate Upto(pids: set<nat>, n: nat) {
    forall m: nat :: m in pids <==> m < n
  }

  /** Who there is and who runs; nobody is inside sys_wait. */
  ghost predicate Scene(s: Sys, all: set<Process>, current: Process, queue: seq<Process>, n: nat) {
    && s.procs.Keys == all && s.current == current && s.queue == queue && Upto(s.pids, n)
    && forall p <- s.procs :: !s.procs[p].flag
  }

  /** Everyone has the children they had. */
  ghost predicate SameFamilies(s: Sys, t: Sys) {
    && t.idle == s.idle && t.init == s.init
    && forall q <- s.procs :: q in t.procs && t.procs[q].children == s.procs[q].children
  }

  lemma DispatchDo(s: Sys)
    requires Inv(s) && s.current == s.idle && s.queue != []
    ensures Permitted(s, Dispatch) && s.idle in s.procs && s.queue[0] in s.procs
    ensures Do(s, Dispatch).sys == DoDispatch(s) && Inv(DoDispatch(s))
  {
    hide DoDispatch, Counted, PidsRight, Family, Scheduled;
    DispatchReady(s);
    StepKeeps(s, Dispatch);
    PlainStep(s, Dispatch);
  }

  lemma DispatchScene(s: Sys, all: set<Process>, p: Process, queue: seq<Process>, n: nat)
    requires Scene(s, all, s.idle, [p] + queue, n) && s.idle in s.procs && p in s.procs
    ensures Scene(DoDispatch(s), all, p, queue, n) && SameFamilies(s, DoDispatch(s))
  {}

  lemma YieldDo(s: Sys)
    requires Inv(s) && s.current != s.idle && !s.procs[s.current].flag
    ensures Permitted(s, Yield) && s.idle in s.procs && s.current in s.procs
    ensures Do(s, Yield).sys == DoYield(s) && Inv(DoYield(s))
  {
    hide DoYield, Counted, PidsRight, Family, Scheduled;
    StepKeeps(s, Yield);
  }

  lemma YieldScene(s: Sys, all: set<Process>, p: Process, queue: seq<Process>, n: nat)
    requires Scene(s, all, p, queue, n) && s.idle in s.procs && p in s.procs
    ensures Scene(DoYield(s), all, s.idle, queue + [p], n) && SameFamilies(s, DoYield(s))
  {}

  lemma ForkDo(s: Sys, c: Process, n: nat)
    requires Inv(s) && s.current != s.idle && !s.procs[s.current].flag && c !in s.procs && Upto(s.pids, n)
    requires n < MAX_PID
    ensures Permitted(s, Fork(c)) && s.current in s.procs && s.idle in s.procs && c != s.current
    ensures FilesOnly(Forked(s, c), Do(s, Fork(c)).sys, c) && Inv(Do(s, Fork(c)).sys) && LeastFree(s.pids, 0) == n
  {
    hide DoFork, Forked, LeastFree, Counted, PidsRight, Family, Scheduled;
    LeastIs(s.pids, n);
    StepKeeps(s, Fork(c));
    ForkStep(s, c);
  }

  lemma ForkScene(s: Sys, all: set<Process>, p: Process, queue: seq<Process>, n: nat, c: Process, t: Sys)
    requires Scene(s, all, p, queue, n) && p in all && c !in all && LeastFree(s.pids, 0) == n
    requires FilesOnly(Forked(s, c), t, c)
    ensures Scene(t, all + {c}, p, queue + [c], n + 1) && t.idle == s.idle && t.init == s.init
    ensures t.procs[p].children == [c] + s.procs[p].children && t.procs[c].children == []
  {
    hide LeastFree;
  }

  lemma InitialScene(idle: Process, init: Process, io: seq<File>)
    requires |io| == STDIO && idle != init
    ensures var s := Initial(idle, init, io);
      Inv(s) && Scene(s, {idle, init}, idle, [init], 2) && s.idle == idle && s.init == init
  {
    hide Inv, Counted;
    InitialKeeps(idle, init, io);
    TwoCounted(idle, init);
    OpenStdioKeeps(Two(idle, init), init, io, 0);
    OpenStdioQueue(Two(idle, init), init, io, 0);
  }

  lemma SceneFlag(s: Sys, all: set<Process>, current: Process, queue: seq<Process>, n: nat)
    requires Inv(s) && Scene(s, all, current, queue, n)
    ensures s.current == current && current in s.procs && !s.procs[current].flag && s.idle in s.procs
    ensures s.procs.Keys == all && s.queue == queue && Upto(s.pids, n)
  {
    hide Counted, Scheduled, PidsRight, Family;
  }

  /** The process at the head of the queue runs and forks d. */
  lemma RunAndFork(s: Sys, all: set<Process>, p: Process, queue: seq<Process>, n: nat, d: Process) returns (t: Sys)
    requires Inv(s) && Scene(s, all, s.idle, [p] + queue, n) && p in s.procs && p != s.idle
    requires s.procs[p].children == [] && d !in all && n < MAX_PID
    ensures Inv(t) && Reaches(s, [Dispatch, Fork(d)], t) && Scene(t, all + {d}, p, queue + [d], n + 1)
    ensures t.idle == s.idle && t.init == s.init && p in t.procs && d in t.procs
    ensures t.procs[p].children == [d] && t.procs[d].children == []
  {
    hide Inv, Permitted, Do, DoDispatch, Scene, LeastFree, Forked, FilesOnly;
    SceneFlag(s, all, s.idle, [p] + queue, n);
    DispatchDo(s);
    DispatchScene(s, all, p, queue, n);
    var s1 := DoDispatch(s);
    SceneFlag(s1, all, p, queue, n);
    ForkDo(s1, d, n);
    t := Do(s1, Fork(d)).sys;
    ForkScene(s1, all, p, queue, n, d, t);
    SceneFlag(t, all + {d}, p, queue + [d], n + 1);
    ReachStep(s1, Fork(d), [], t);
    assert [Fork(d)] + [] == [Fork(d)] && [Dispatch] + [Fork(d)] == [Dispatch, Fork(d)];
    ReachStep(s, Dispatch, [Fork(d)], t);
  }

  /** Runs can be joined. */
  lemma {:induction false} ReachMore(s: Sys, steps: seq<Step>, t: Sys, more: seq<Step>, u: Sys)
    requires Reaches(s, steps, t) && Reaches(t, more, u)
    ensures Reaches(s, steps + more, u)
    decreases |steps|
  {
    hide Inv, Permitted, Do;
    if steps == [] {
      assert steps + more == more;
    } else {
      StepKeeps(s, steps[0]);
      ReachMore(Do(s, steps[0]).sys, steps[1..], t, more, u);
      assert (steps + more)[1..] == steps[1..] + more;
    }
  }

  /** After init has forked c and given up the processor, and c has forked d, c
      runs with a child; it is not init, so that exit is not a permitted step. */
  lemma OrphansReachable(idle: Process, init: Process, c: Process, d: Process, io: seq<File>) returns (t: Sys)
    requires |io| == STDIO && idle != init && c != idle && c != init && d != idle && d != init && c != d
    ensures Reaches(Initial(idle, init, io), [Dispatch, Fork(c), Yield, Dispatch, Fork(d)], t) && Inv(t)
    ensures t.current == c && c != t.init && c != t.idle && c in t.procs && t.procs[c].children == [d]
    ensures !Permitted(t, Exit)
  {
    hide Inv, Permitted, Do, DoYield, Scene, Reaches, Initial;
    var s := Initial(idle, init, io);
    InitialScene(idle, init, io);
    SceneFlag(s, {idle, init}, idle, [init], 2);
    NoChildren(idle, init, io);
    assert [init] + [] == [init];
    var s2 := RunAndFork(s, {idle, init}, init, [], 2, c);
    assert {idle, init} + {c} == {idle, init, c} && [] + [c] == [c];
    SceneFlag(s2, {idle, init, c}, init, [c], 3);
    YieldDo(s2);
    YieldScene(s2, {idle, init, c}, init, [c], 3);
    var s3 := DoYield(s2);
    SceneFlag(s3, {idle, init, c}, idle, [c] + [init], 3);
    assert SameFamilies(s2, s3);
    t := RunAndFork(s3, {idle, init, c}, c, [init], 3, d);
    SceneFlag(t, {idle, init, c} + {d}, c, [init] + [d], 4);
    ReachStep(s2, Yield, [Dispatch, Fork(d)], t);
    assert [Yield] + [Dispatch, Fork(d)] == [Yield, Dispatch, Fork(d)];
    ReachMore(s, [Dispatch, Fork(c)], s2, [Yield, Dispatch, Fork(d)], t);
    assert [Dispatch, Fork(c)] + [Yield, Dispatch, Fork(d)] == [Dispatch, Fork(c), Yield, Dispatch, Fork(d)];
    NoExit(t);
  }

  lemma NoChildren(idle: Process, init: Process, io: seq<File>)
    requires |io| == STDIO && idle != init
    ensures var s := Initial(idle, init, io); init in s.procs && s.procs[init].children == []
  {
    hide Counted;
    TwoCounted(idle, init);
    OpenStdioKeeps(Two(idle, init), init, io, 0);
  }

  lemma NoExit(s: Sys)
    requires Inv(s) && s.current in s.procs && s.procs[s.current].children != [] && s.current != s.init
    ensures !Permitted(s, Exit)
  {}
}
