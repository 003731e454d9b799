// kernel/process.c and the table of open files of kernel/fs.c, in place: process
// control blocks on circular lists, a bitmap of pids and shared open files.  Each
// method is one step of ProcSteps.
module Kernel {
  import opened OpenFiles
  import opened Sequences
  import opened Bits
  import opened Lists
  import opened ProcSpec
  import opened ProcFiles
  import opened ProcSteps
  import opened ProcKeeps
  import opened ProcRuns
  import opened ProcEffects
  import opened PidMap

  /** The nodes by which these processes hang in the run queue */
  function Runs(q: seq<Process>): (s: seq<Node>)
    ensures |s| == |q| && forall i: nat :: i < |q| ==> s[i] == q[i].list
  {
    seq(|q|, i requires 0 <= i < |q| => q[i].list)
  }

  /** The nodes by which these processes hang in their parent's list */
  function Sibs(q: seq<Process>): (s: seq<Node>)
    ensures |s| == |q| && forall i: nat :: i < |q| ==> s[i] == q[i].sibling
  {
    seq(|q|, i requires 0 <= i < |q| => q[i].sibling)
  }

  lemma NoPids(w: Words)
    requires |w| == 32 && forall i: nat :: i < 32 ==> w[i] == 0
    ensures PidWords(w) && PidsOf(w) == {} && LeastFree({}, 0) == 0 && LeastFree({0}, 0) == 1
  {
    forall n: nat | n < MAX_PID ensures !Marked(w, n) { ZeroBits(n % 32); }
    LeastIs({}, 0);
    LeastIs({0}, 1);
  }

  /** The pids of idle and init come from an empty bitmap. */
  method FirstPids() returns (words: array<nat>, pid0: nat, pid1: nat)
    ensures fresh(words) && words.Length == 32 && PidWords(words[..]) && PidsOf(words[..]) == {0, 1}
    ensures pid0 == 0 && pid1 == 1
  {
    hide PidWords, PidsOf, LeastFree;
    words := new nat[32](_ => 0);
    NoPids(words[..]);
    var a := AllocPid(words);
    assert {} + {0} == {0};
    var b := AllocPid(words);
    pid0, pid1 := a, b;
  }

  class System {
    var current: Process
    var idle: Process
    var init: Process
    const pids: array<nat>
    var entry: map<Node, Process>             // container_of
    ghost var live: set<Process>              // the blocks allocated and not yet freed
    ghost var queue: seq<Process>             // what idle's list holds
    ghost var kids: map<Process, seq<Process>>
    ghost var open: set<File>                 // the files allocated and not yet freed

    // -------------------------------------------------------------- the abstract state

    ghost function Tables(): set<array<File?>>
      reads this
    {
      set p <- live :: p.files
    }

    ghost function Nodes(): set<Node>
      reads this`live
    {
      set p <- live, n <- p.Links() :: n
    }

    ghost function View(p: Process): Proc
      requires p in kids
      reads this`kids, p, p.files
    {
      Proc(p.pid, p.state, p.parent, kids[p], p.flag, p.files[..])
    }

    ghost function Procs(): map<Process, Proc>
      requires live == kids.Keys
      reads this`live, this`kids, live, set p <- live :: p.files
    {
      map p | p in live :: View(p)
    }

    ghost function Counts(): map<File, int>
      reads this`open, open`count
    {
      map f | f in open :: f.count
    }

    ghost function Abs(): Sys
      requires live == kids.Keys && pids.Length == 32
      reads this, live, open`count, pids, set p <- live :: p.files
    {
      Sys(Procs(), Counts(), queue, current, idle, init, PidsOf(pids[..]))
    }

    // -------------------------------------------------------------- the links

    /** container_of finds the block from each of its nodes. */
    ghost predicate Embedded(p: Process)
      reads this`entry
    {
      && p.list in entry && entry[p.list] == p
      && p.children in entry && entry[p.children] == p
      && p.sibling in entry && entry[p.sibling] == p
      && p.list != p.children && p.list != p.sibling && p.children != p.sibling
      && p.files.Length == NR_OPEN
    }

    ghost predicate Blocks()
      reads this`entry, this`live
    {
      && (forall p <- live {:trigger Embedded(p)} :: Embedded(p))
      && (forall p <- live, q <- live {:trigger p.files, q.files} :: p.files == q.files ==> p == q)
    }

    ghost predicate QueueRing()
      reads this`live, this`queue, this`idle, set p <- live, n <- p.Links() :: n
    {
      idle in live && (forall p <- queue :: p in live) &&
      (assert forall p <- live :: p.list in p.Links(); List(idle.list, Runs(queue)))
    }

    /** p's list of children holds blocks whose parent is p. */
    ghost predicate KidsRing(p: Process)
      requires p in live && p in kids
      reads this`live, this`kids, live`parent, set p <- live, n <- p.Links() :: n
    {
      (forall c <- kids[p] {:trigger c in kids[p]} :: c in live && c.parent == p) &&
      (assert forall i: nat :: i < |kids[p]| ==> kids[p][i] in kids[p];
       assert forall p <- live :: p.children in p.Links() && p.sibling in p.Links();
       List(p.children, Sibs(kids[p])))
    }

    ghost predicate KidsRings()
      reads this`live, this`kids, live`parent, set p <- live, n <- p.Links() :: n
    {
      live == kids.Keys && forall p <- live {:trigger KidsRing(p)} :: KidsRing(p)
    }

    ghost predicate Wired()
      reads this, live`parent, pids, set p <- live, n <- p.Links() :: n
    {
      && live == kids.Keys && pids.Length == 32 && PidWords(pids[..])
      && idle in live && init in live && current in live
      && Blocks() && QueueRing() && KidsRings()
    }

    ghost predicate Valid()
      reads this, live, pids, open`count, set p <- live, n <- p.Links() :: n
      reads set p <- live :: p.files
    {
      Wired() && Inv(Abs())
    }

    /** A process starts alone on all its lists. */
    ghost predicate Alone(p: Process)
      reads p.list, p.children, p.sibling
    {
      List(p.list, []) && List(p.children, []) && List(p.sibling, [])
    }

    /** Just idle and init, with empty lists and tables */
    ghost predicate Fresh()
      reads this, idle, init, idle.files, init.files, idle.Links(), init.Links()
    {
      && idle != init && current == idle && live == {idle, init} && queue == [] && open == {}
      && kids == map[idle := [], init := []]
      && Embedded(idle) && Embedded(init) && idle.files != init.files
      && Alone(idle) && Alone(init)
      && View(idle) == Proc(0, Running, null, [], false, NoFiles())
      && View(init) == Proc(1, Ready, null, [], false, NoFiles())
    }

    lemma FreshWired()
      requires Fresh() && pids.Length == 32 && PidWords(pids[..]) && PidsOf(pids[..]) == {0, 1}
      ensures Wired() && Abs() == Two(idle, init)
    {
      hide PidWords, PidsOf;
      assert Runs(queue) == [] && Sibs(kids[idle]) == [] && Sibs(kids[init]) == [];
      assert KidsRing(idle) && KidsRing(init);
      assert Procs() == Two(idle, init).procs;
      assert Counts() == map[];
    }

    constructor (words: array<nat>, p0: Process, p1: Process)
      requires p0.Links() !! p1.Links() && p0.files.Length == p1.files.Length == NR_OPEN
      requires p0.list != p0.children && p0.list != p0.sibling && p0.children != p0.sibling
      requires p1.list != p1.children && p1.list != p1.sibling && p1.children != p1.sibling
      ensures pids == words && idle == p0 && init == p1 && current == p0 && Embedded(p0) && Embedded(p1)
      ensures live == {p0, p1} && queue == [] && open == {} && kids == map[p0 := [], p1 := []]
    {
      pids, idle, init, current := words, p0, p1, p0;
      entry := map[p0.list := p0, p0.children := p0, p0.sibling := p0,
                   p1.list := p1, p1.children := p1, p1.sibling := p1];
      live, queue, open := {p0, p1}, [], {};
      kids := map[p0 := [], p1 := []];
    }

    /** idle and init as init_process creates them, before init is filled and queued */
    static method Boot() returns (k: System)
      ensures fresh(k) && fresh(k.idle) && fresh(k.init) && fresh(k.pids) && k.live == {k.idle, k.init} && k.open == {}
      ensures fresh(k.idle.files) && fresh(k.init.files) && fresh(k.idle.Links()) && fresh(k.init.Links())
      ensures k.Wired() && k.Abs() == Two(k.idle, k.init) && k.idle != k.init
    {
      hide PidWords, PidsOf, List, System.Embedded, NoFiles;
      var words, pid0, pid1 := FirstPids();
      var p0 := new Process(pid0, Running, null);
      var p1 := new Process(pid1, Ready, null);
      assert p0.Links() !! p1.Links();
      hide Process.Links;
      k := new System(words, p0, p1);
      k.FreshWired();
    }

    // -------------------------------------------------------------- fields

    /** Only p's block has changed. */
    twostate lemma OneProc(p: Process)
      requires unchanged(`live) && live == kids.Keys && old(live == kids.Keys) && p in live
      requires forall q <- live :: q != p ==> View(q) == old(View(q))
      ensures Procs() == old(Procs())[p := View(p)]
    {}

    method SetState(p: Process, v: PState)
      requires Wired() && p in live
      modifies p`state
      ensures Wired() && Abs() == WithState(old(Abs()), p, v) && p.state == v
    {
      hide Blocks, QueueRing, KidsRings, PidWords, PidsOf, Counts, Procs;
      p.state := v;
      OneProc(p);
      OldProc(p);
    }

    method SetFlag(p: Process, v: bool)
      requires Wired() && p in live
      modifies p`flag
      ensures Wired() && Abs() == WithFlag(old(Abs()), p, v)
    {
      hide Blocks, QueueRing, KidsRings, PidWords, PidsOf, Counts, Procs;
      p.flag := v;
      OneProc(p);
      OldProc(p);
    }

    twostate lemma OldProc(p: Process)
      requires old(live == kids.Keys && p in live)
      ensures old(p in Procs() && Procs()[p] == View(p) && Procs().Keys == live)
    {}

    /** __switch to the scheduler, which goes on after its own __switch */
    method SwitchToIdle()
      requires Wired()
      modifies this`current, idle`state
      ensures Wired() && Abs() == ToIdle(old(Abs()))
    {
      hide Blocks, QueueRing, KidsRings, PidWords, Procs, Counts, PidsOf;
      SetState(idle, Running);
      current := idle;
    }

    // -------------------------------------------------------------- lists

    twostate lemma QueueStays()
      requires old(QueueRing()) && unchanged(`queue) && unchanged(`idle)
      requires idle in live && forall q <- queue :: q in live
      requires unchanged(idle.list)
      requires forall q <- queue :: unchanged(q.list)
      ensures QueueRing()
    {
      assert forall n <- [idle.list] + Runs(queue) :: unchanged(n);
    }

    twostate lemma QueueMembers()
      requires old(QueueRing())
      ensures old(idle in live && forall q <- queue :: q in live)
    {}

    twostate lemma KidsStay(p: Process)
      requires old(p in live && p in kids && KidsRing(p)) && p in live && p in kids && kids[p] == old(kids[p])
      requires forall c <- kids[p] :: c in live && unchanged(c.sibling) && c.parent == old(c.parent)
      requires unchanged(p.children)
      ensures KidsRing(p)
    {
      assert forall n <- [p.children] + Sibs(kids[p]) :: unchanged(n);
    }

    twostate lemma AllKidsStay()
      requires old(KidsRings()) && unchanged(`live) && unchanged(`kids)
      requires forall q <- live :: unchanged(q.children) && unchanged(q.sibling) && q.parent == old(q.parent)
      ensures KidsRings()
    {
      hide KidsRing;
      forall p <- live ensures KidsRing(p) {
        assert old(KidsRing(p));
        KidNodes(p);
        KidsStay(p);
      }
    }

    twostate lemma KidNodes(p: Process)
      requires old(p in live && p in kids && KidsRing(p))
      ensures forall c <- old(kids[p]) :: c in old(live) && old(c.parent) == p
    {}

    lemma OwnNodes(p: Process, q: Process)
      requires Blocks() && p in live && q in live
      ensures p.list != q.children && p.list != q.sibling && p.children != q.sibling
      ensures p != q ==> p.list != q.list && p.children != q.children && p.sibling != q.sibling
    {
      assert Embedded(p) && Embedded(q);
    }

    lemma QueueReady(p: Process)
      requires Blocks() && QueueRing() && p in live && p !in queue && p != idle
      ensures p.list != idle.list && p.list !in Runs(queue)
      ensures p.list in Nodes() && idle.list in Nodes() && forall n <- Runs(queue) :: n in Nodes()
      ensures forall q <- live ::
        q.children != p.list && q.children != idle.list && q.children !in Runs(queue)
        && q.sibling != p.list && q.sibling != idle.list && q.sibling !in Runs(queue)
    {
      OwnNodes(p, idle);
      assert p.list in p.Links() && idle.list in idle.Links();
      forall q <- queue ensures p.list != q.list && q.list in Nodes() { OwnNodes(p, q); assert q.list in q.Links(); }
      forall q <- live
        ensures q.children != p.list && q.children != idle.list && q.children !in Runs(queue)
        ensures q.sibling != p.list && q.sibling != idle.list && q.sibling !in Runs(queue)
      {
        OwnNodes(p, q);
        OwnNodes(idle, q);
        forall a <- queue ensures q.children != a.list && q.sibling != a.list { OwnNodes(a, q); }
      }
    }

    method AddToQueue(p: Process)
      requires QueueRing() && p in live && p.list != idle.list && p.list !in Runs(queue)
      modifies this`queue, p.list, idle.list, Runs(queue)
      ensures queue == old(queue) + [p] && QueueRing()
    {
      ghost var q := queue;
      hide List;
      ListAddTail(p.list, idle.list, Runs(queue));
      queue := queue + [p];
      assert Runs(queue) == Runs(q) + [p.list];
    }

    method AddToRun(p: Process)
      requires live == kids.Keys && Blocks() && QueueRing() && KidsRings()
      requires p in live && p !in queue && p != idle
      modifies this`queue, set q <- live, n <- q.Links() :: n
      ensures queue == old(queue) + [p] && QueueRing() && KidsRings()
    {
      QueueReady(p);
      assert idle in live && forall q <- queue :: q in live;
      assert forall q <- live :: q.list in q.Links();
      hide Blocks, KidsRings, QueueRing;
      AddToQueue(p);
      AllKidsStay();
    }

    /** add_process */
    method AddProcess(p: Process)
      requires Wired() && p in live && p !in queue && p != idle
      modifies this`queue, set q <- live, n <- q.Links() :: n
      ensures Wired() && Abs() == Enqueue(old(Abs()), p)
    {
      hide Blocks, KidsRings, QueueRing, PidWords, PidsOf, Counts, Procs;
      AddToRun(p);
    }

    /** The ring of q's children stands apart from p's, and from the nodes of p's own children. */
    lemma KidsApart(p: Process, c: Process, q: Process)
      requires Blocks() && p in live && q in live && p in kids && q in kids && KidsRing(p) && KidsRing(q) && p != q
      requires c in live && c.parent == p
      ensures forall n <- [q.children] + Sibs(kids[q]) :: n != c.sibling && n != p.children && n !in Sibs(kids[p])
    {
      OwnNodes(p, q);
      OwnNodes(q, c);
      forall d <- kids[p] ensures q.children != d.sibling { OwnNodes(q, d); }
      forall d <- kids[q]
        ensures d.sibling != c.sibling && d.sibling != p.children && d.sibling !in Sibs(kids[p])
      {
        OwnNodes(d, c);
        OwnNodes(p, d);
        forall e <- kids[p] ensures d.sibling != e.sibling { OwnNodes(d, e); }
      }
    }

    /** The run queue's nodes are nobody's children's. */
    lemma QueueApart(p: Process, c: Process)
      requires Blocks() && p in live && p in kids && KidsRing(p) && c in live
      ensures forall a <- live :: a.list != c.sibling && a.list != p.children && a.list !in Sibs(kids[p])
    {
      forall a <- live
        ensures a.list != c.sibling && a.list != p.children && a.list !in Sibs(kids[p])
      {
        OwnNodes(a, c);
        OwnNodes(a, p);
        forall d <- kids[p] ensures a.list != d.sibling { OwnNodes(a, d); }
      }
    }

    lemma LinkReady(p: Process, c: Process)
      requires Blocks() && p in live && p in kids && KidsRing(p) && c in live && c !in kids[p]
      ensures c.sibling != p.children && c.sibling !in Sibs(kids[p])
      ensures forall n <- [c.sibling, p.children] + Sibs(kids[p]) :: n in Nodes()
    {
      OwnNodes(p, c);
      forall d <- kids[p] ensures d.sibling != c.sibling && d.sibling in d.Links() { OwnNodes(d, c); }
      assert c.sibling in c.Links() && p.children in p.Links();
    }

    /** list_add(&c->sibling, &p->children) */
    method LinkChild(p: Process, c: Process)
      requires Wired() && p in live && c in live && c.parent == p && c !in kids[p]
      modifies this`kids, set q <- live, n <- q.Links() :: n
      ensures Wired() && Abs() == WithChildren(old(Abs()), p, [c] + old(kids[p]))
    {
      hide Blocks, KidsRings, QueueRing, PidWords, PidsOf, Counts, Procs, List;
      AddToRing(p, c);
      OneProc(p);
      OldProc(p);
    }

    /** Only p's ring and the node c have changed. */
    twostate lemma OthersStay(p: Process)
      requires old(KidsRings()) && live == kids.Keys && unchanged(`live) && p in live && kids == old(kids)[p := kids[p]]
      requires KidsRing(p) && forall q <- live :: q.parent == old(q.parent)
      requires forall q <- live :: q != p ==> unchanged(q.children) && forall d <- kids[q] :: unchanged(d.sibling)
      ensures KidsRings()
    {
      hide KidsRing;
      forall q <- live | q != p ensures KidsRing(q) {
        assert old(KidsRing(q));
        KidNodes(q);
        KidsStay(q);
      }
    }

    method AddToRing(p: Process, c: Process)
      requires live == kids.Keys && Blocks() && QueueRing() && KidsRings()
      requires p in live && c in live && c.parent == p && c !in kids[p]
      modifies this`kids, set q <- live, n <- q.Links() :: n
      ensures kids == old(kids)[p := [c] + old(kids[p])] && QueueRing() && KidsRings()
    {
      assert KidsRing(p) && forall d <- kids[p] :: d in live;
      assert forall q <- live :: q.children in q.Links() && q.sibling in q.Links();
      hide Blocks, KidsRing, KidsRings, QueueRing;
      PutFirst(p, c);
    }

    method PutFirst(p: Process, c: Process)
      requires live == kids.Keys && Blocks() && QueueRing() && KidsRings()
      requires p in live && c in live && c.parent == p && c !in kids[p]
      modifies this`kids, c.sibling, p.children, Sibs(kids[p])
      ensures kids == old(kids)[p := [c] + old(kids[p])] && QueueRing() && KidsRings()
    {
      assert KidsRing(p);
      LinkReady(p, c);
      QueueApart(p, c);
      OthersApart(p, c);
      hide Blocks, KidsRing, KidsRings, QueueRing;
      AddFirst(p, c);
      QueueStays();
      OthersStay(p);
    }

    method AddFirst(p: Process, c: Process)
      requires p in live && p in kids && KidsRing(p) && c in live && c.parent == p
      requires c.sibling != p.children && c.sibling !in Sibs(kids[p])
      modifies this`kids, c.sibling, p.children, Sibs(kids[p])
      ensures kids == old(kids)[p := [c] + old(kids[p])] && KidsRing(p)
    {
      ghost var cs := kids[p];
      hide List;
      ListAdd(c.sibling, p.children, Sibs(cs));
      kids := kids[p := [c] + cs];
      assert Sibs(kids[p]) == [c.sibling] + Sibs(cs);
    }

    lemma OthersApart(p: Process, c: Process)
      requires Blocks() && KidsRings() && p in live && c in live && c.parent == p
      ensures forall q <- live :: q != p ==>
        q.children !in [c.sibling, p.children] + Sibs(kids[p])
        && forall d <- kids[q] :: d.sibling !in [c.sibling, p.children] + Sibs(kids[p])
    {
      forall q <- live | q != p
        ensures q.children !in [c.sibling, p.children] + Sibs(kids[p])
        ensures forall d <- kids[q] :: d.sibling !in [c.sibling, p.children] + Sibs(kids[p])
      {
        assert KidsRing(p) && KidsRing(q);
        KidsApart(p, c, q);
        assert q.children in [q.children] + Sibs(kids[q]);
        forall d <- kids[q] ensures d.sibling in [q.children] + Sibs(kids[q]) {
          var i: nat :| i < |kids[q]| && kids[q][i] == d;
          assert ([q.children] + Sibs(kids[q]))[i + 1] == d.sibling;
        }
      }
    }

    /** Allocating leaves all lists as they are. */
    twostate lemma StillWired()
      requires old(Wired()) && unchanged(this) && PidWords(pids[..])
      requires forall q <- live :: unchanged(q.list) && unchanged(q.children) && unchanged(q.sibling)
      requires forall q <- live :: q.parent == old(q.parent)
      ensures Wired()
    {
      hide Blocks, QueueRing, KidsRings, PidWords;
      QueueMembers();
      QueueStays();
      AllKidsStay();
    }

    /** Changing nothing but offsets, or other components, changes nothing here. */
    twostate lemma Untouched()
      requires old(Valid()) && unchanged(this)
      requires pids[..] == old(pids[..])
      requires forall q <- live :: unchanged(q)
      requires forall q <- live :: q.files[..] == old(q.files[..])
      requires forall q <- live :: unchanged(q.list) && unchanged(q.children) && unchanged(q.sibling)
      requires forall f <- open :: f.count == old(f.count)
      ensures Valid() && Abs() == old(Abs())
    {
      hide Blocks, QueueRing, KidsRings, PidWords, Inv;
      StillWired();
      assert forall q <- live :: View(q) == old(View(q));
      assert Procs() == old(Procs()) && Counts() == old(Counts());
    }

    // -------------------------------------------------------------- open files

    lemma TableOf(p: Process)
      requires Blocks() && p in live
      ensures p.files.Length == NR_OPEN && forall q <- live :: q != p ==> q.files != p.files
    {
      assert Embedded(p);
    }

    twostate lemma TableView(p: Process)
      requires unchanged(p) && unchanged(`kids) && p in kids
      ensures View(p) == old(View(p)).(files := p.files[..]) && old(View(p)).files == old(p.files[..])
    {}

    twostate lemma OldCount(f: File)
      ensures old(f in Counts() <==> f in open)
      ensures old(f in open ==> Counts()[f] == f.count)
    {}

    twostate lemma OneCount(f: File)
      requires unchanged(`open) && f in open && forall g <- open :: g != f ==> unchanged(g)
      ensures Counts() == old(Counts())[f := f.count]
    {}

    twostate lemma CountGone(f: File)
      requires old(f in open) && open == old(open) - {f} && forall g <- open :: unchanged(g)
      ensures Counts() == old(Counts()) - {f}
    {}

    twostate lemma CountNew(new f: File)
      requires open == old(open) + {f} && f !in old(open) && forall g <- old(open) :: unchanged(g)
      ensures f !in old(Counts()) && Counts() == old(Counts())[f := f.count]
    {}

    /** files[i] = v */
    method SetFile(p: Process, i: nat, v: File?)
      requires Wired() && p in live && i < NR_OPEN && p.files.Length == NR_OPEN
      modifies p.files
      ensures Wired() && Abs() == SetEntry(old(Abs()), p, i, v)
      ensures p.files[i] == v
    {
      TableOf(p);
      hide Blocks, KidsRings, QueueRing, PidWords, PidsOf, Counts, Procs, View;
      p.files[i] := v;
      TableView(p);
      OneProc(p);
      OldProc(p);
    }

    /** The body of sys_close, and of the loop of dealloc_files */
    method DropEntry(p: Process, i: nat)
      requires Wired() && p in live && i < NR_OPEN && p.files.Length == NR_OPEN
      requires p.files[i] != null ==> p.files[i] in open
      modifies this`open, open`count, p.files
      ensures Wired() && Abs() == DropFile(old(Abs()), p, i)
      ensures open <= old(open)
    {
      hide Blocks, KidsRings, QueueRing, PidWords, PidsOf, Counts, Procs;
      OldProc(p);
      var file := p.files[i];
      if file != null {
        OldCount(file);
        file.count := file.count - 1;
        if file.count == 0 {
          open := open - {file};
          CountGone(file);
        } else {
          OneCount(file);
        }
        SetFile(p, i, null);
      }
    }

    /** One round of the copying loop of sys_fork */
    method ShareEntry(from: Process, to: Process, i: nat)
      requires Wired() && from in live && to in live && from != to && i < NR_OPEN
      requires from.files.Length == to.files.Length == NR_OPEN
      requires from.files[i] != null ==> from.files[i] in open
      modifies open`count, to.files
      ensures Wired() && Abs() == CopyEntry(old(Abs()), from, to, i)
    {
      hide Blocks, KidsRings, QueueRing, PidWords, PidsOf, Counts, Procs;
      OldProc(from);
      OldProc(to);
      var file := from.files[i];
      SetFile(to, i, file);
      if file != null {
        OldCount(file);
        file.count := file.count + 1;
        OneCount(file);
      }
    }

    /** An entry is given a file of its own, as in sys_open and for stdio. */
    method PutNew(p: Process, i: nat, kind: Kind, inode: nat, ghost entry: nat) returns (file: File)
      requires Wired() && p in live && i < NR_OPEN && p.files.Length == NR_OPEN
      modifies this`open, p.files
      ensures fresh(file) && open == old(open) + {file} && p.files[i] == file
      ensures file.kind == kind && file.inode == inode && file.entry == entry && file.off == 0
      ensures Wired() && Abs() == PutFile(old(Abs()), p, i, file)
    {
      hide Blocks, KidsRings, QueueRing, PidWords, PidsOf, Counts, Procs;
      OldProc(p);
      file := new File(kind, inode, entry);
      assert pids[..] == old(pids[..]);
      StillWired();
      open := open + {file};
      CountNew(file);
      SetFile(p, i, file);
    }

    /** Every entry of a table names an open file. */
    lemma EntriesOpen(p: Process, i: nat)
      requires Wired() && Counted(Abs()) && p in live && p != idle && i < NR_OPEN
      ensures p.files.Length == NR_OPEN && (p.files[i] != null ==> p.files[i] in open)
      ensures p in Abs().procs && |Abs().procs[p].files| == NR_OPEN && Abs().procs[p] == View(p)
      ensures Abs().idle == idle
    {
      TableOf(p);
      assert Abs().procs[p] == View(p);
      assert Abs().procs[p].files[i] == p.files[i];
    }

    /** dealloc_files */
    method DeallocFiles(p: Process)
      requires Wired() && Counted(Abs()) && p in live && p != idle
      modifies this`open, open`count, p.files
      ensures Wired() && p in old(Abs()).procs && Abs() == DropAll(old(Abs()), p, 0)
      ensures Counted(Abs()) && open <= old(open)
    {
      EntriesOpen(p, 0);
      ghost var s := Abs();
      hide Blocks, KidsRings, QueueRing, PidWords, Abs, Counted, FilesOnly, DropFile;
      for i: nat := 0 to NR_OPEN
        invariant Wired() && Counted(Abs()) && open <= old(open)
        invariant p in Abs().procs && |Abs().procs[p].files| == NR_OPEN && Abs().idle == idle
        invariant DropAll(Abs(), p, i) == DropAll(s, p, 0)
      {
        EntriesOpen(p, i);
        DropKeeps(Abs(), p, i);
        DropSame(Abs(), p, i);
        DropEntry(p, i);
      }
    }

    lemma DropSame(s: Sys, p: Process, i: nat)
      requires p in s.procs && i < |s.procs[p].files|
      ensures var t := DropFile(s, p, i);
        p in t.procs && |t.procs[p].files| == |s.procs[p].files| && t.idle == s.idle
        && DropAll(s, p, i) == DropAll(t, p, i + 1)
    {}

    method CopyOne(from: Process, to: Process, i: nat)
      requires Wired() && Counted(Abs()) && from in live && to in live && from != to && from != idle && to != idle
      requires i < NR_OPEN && Both(Abs(), from, to) && EmptyFrom(Abs(), to, i)
      modifies open`count, to.files
      ensures Wired() && Counted(Abs())
      ensures Both(Abs(), from, to) && EmptyFrom(Abs(), to, i + 1)
      ensures Both(old(Abs()), from, to) && CopyTable(Abs(), from, to, i + 1) == CopyTable(old(Abs()), from, to, i)
    {
      EntriesOpen(from, i);
      EntriesOpen(to, i);
      CopyEntryKeeps(Abs(), from, to, i);
      CopySame(Abs(), from, to, i);
      hide Blocks, KidsRings, QueueRing, PidWords, Abs, Counted, CopyEntry, SetEntry, PutFile;
      ShareEntry(from, to, i);
    }

    /** The copying loop of sys_fork; the child's table is still empty. */
    method CopyFiles(from: Process, to: Process)
      requires Wired() && Counted(Abs()) && from in live && to in live && from != to && from != idle && to != idle
      requires to.files[..] == NoFiles()
      modifies open`count, to.files
      ensures Wired() && Both(old(Abs()), from, to) && Abs() == CopyTable(old(Abs()), from, to, 0)
      ensures Counted(Abs())
    {
      hide Wired, Abs, Counted, CopyEntry, EmptyFrom, NoFiles, CopyTable;
      CopyStart(from, to);
      ghost var s := Abs();
      for i: nat := 0 to NR_OPEN
        invariant Wired() && Counted(Abs())
        invariant Both(Abs(), from, to) && EmptyFrom(Abs(), to, i)
        invariant CopyTable(Abs(), from, to, i) == CopyTable(s, from, to, 0)
      {
        CopyOne(from, to, i);
      }
      CopyDone(Abs(), from, to);
    }

    lemma CopyStart(from: Process, to: Process)
      requires Wired() && Counted(Abs()) && from in live && to in live && from != idle && to != idle
      requires to.files[..] == NoFiles()
      ensures live == kids.Keys && pids.Length == 32 && Both(Abs(), from, to) && EmptyFrom(Abs(), to, 0)
    {
      EntriesOpen(from, 0);
      EntriesOpen(to, 0);
    }

    method StdioOne(p: Process, i: nat, ghost s: Sys, ghost io: seq<File>) returns (file: File)
      requires Wired() && p in live && i < STDIO && |io| == i && p.files.Length == NR_OPEN
      requires p in s.procs && |s.procs[p].files| == NR_OPEN && Abs() == ProcFiles.OpenStdio(s, p, io, 0)
      modifies this`open, p.files
      ensures fresh(file) && open == old(open) + {file} && file.kind == StdioFile && Wired()
      ensures Abs() == ProcFiles.OpenStdio(s, p, io + [file], 0)
    {
      hide Blocks, KidsRings, QueueRing, Wired, PidWords, Abs, PutFile, ProcFiles.OpenStdio;
      file := PutNew(p, i, StdioFile, 0, 0);
      OpenAppend(s, p, io, file, 0);
    }

    /** stdin, stdout and stderr for a process with an empty table */
    method OpenStdio(p: Process) returns (ghost io: seq<File>)
      requires Wired() && Counted(Abs()) && p in live && p != idle
      requires p.files[..] == NoFiles()
      modifies this`open, p.files
      ensures |io| == STDIO && Distinct(io) && forall f <- io :: fresh(f)
      ensures Wired() && old(open) <= open && forall f <- open :: f in old(open) || f.kind == StdioFile
      ensures p in old(Abs()).procs && |old(Abs()).procs[p].files| == NR_OPEN
      ensures Abs() == ProcFiles.OpenStdio(old(Abs()), p, io, 0) && Counted(Abs())
    {
      hide Wired, Abs, Counted, ProcFiles.OpenStdio, NoFiles;
      StdioStart(p);
      ghost var s := Abs();
      io := [];
      for i: nat := 0 to STDIO
        invariant Wired() && |io| == i && Distinct(io) && old(open) <= open
        invariant forall f <- open :: f in old(open) || f.kind == StdioFile
        invariant forall f <- io :: fresh(f) && f in open
        invariant Abs() == ProcFiles.OpenStdio(s, p, io, 0)
      {
        var file := StdioOne(p, i, s, io);
        io := io + [file];
      }
      StdioDone(s, p, io);
    }

    lemma StdioStart(p: Process)
      requires Wired() && Counted(Abs()) && p in live && p != idle && p.files[..] == NoFiles()
      ensures live == kids.Keys && pids.Length == 32 && p.files.Length == NR_OPEN && Abs().idle == idle
      ensures p in Abs().procs && Abs().procs[p].files == NoFiles() && ProcFiles.OpenStdio(Abs(), p, [], 0) == Abs()
    {
      EntriesOpen(p, 0);
    }

    // -------------------------------------------------------------- blocks

    /** Allocating a block changes nothing that exists. */
    method CreateBlock(pid: nat) returns (child: Process)
      requires Wired()
      ensures fresh(child) && fresh(child.files) && fresh(child.Links())
      ensures child.files[..] == NoFiles() && List(child.children, []) && child !in live
      ensures forall q <- live :: q.Links() !! child.Links() && q.files != child.files
      ensures child.list != child.children && child.list != child.sibling && child.children != child.sibling
      ensures child.pid == pid && child.state == Ready && child.parent == current && !child.flag
      ensures Wired() && Abs() == old(Abs())
    {
      hide Blocks, KidsRings, QueueRing, PidWords, PidsOf, Counts, Procs, List, NoFiles;
      child := new Process(pid, Ready, current);
      assert pids[..] == old(pids[..]);
      StillWired();
      StillProcs();
    }

    twostate lemma StillProcs()
      requires old(live == kids.Keys) && unchanged(`live) && unchanged(`kids) && unchanged(`open)
      requires forall q <- live :: unchanged(q) && q.files[..] == old(q.files[..])
      requires forall f <- open :: unchanged(f)
      ensures Procs() == old(Procs()) && Counts() == old(Counts())
    {
      assert forall q <- live :: View(q) == old(View(q));
    }

    /** alloc_pid on the kernel's bitmap */
    method TakePid() returns (pid: nat)
      requires Wired() && LeastFree(PidsOf(pids[..]), 0) < MAX_PID
      modifies pids
      ensures pid == LeastFree(old(Abs()).pids, 0)
      ensures Wired() && Abs() == old(Abs()).(pids := old(Abs()).pids + {pid})
    {
      hide Blocks, KidsRings, QueueRing, PidWords, PidsOf, Counts, Procs, LeastFree;
      var n := AllocPid(pids);
      StillWired();
      StillProcs();
      pid := n;
    }

    /** A block straight from alloc, with its pid and its parent, alone on its lists */
    method NewProcess() returns (child: Process)
      requires Wired() && LeastFree(PidsOf(pids[..]), 0) < MAX_PID
      modifies pids, this`entry, this`live, this`kids
      ensures fresh(child) && fresh(child.files) && fresh(child.Links()) && live == old(live) + {child}
      ensures child.files[..] == NoFiles() && child.parent == current
      ensures kids == old(kids)[child := []] && child !in old(live)
      ensures Wired() && Abs() == NewProc(old(Abs()), child)
    {
      assert Abs().current == current;
      hide Blocks, KidsRings, QueueRing, Wired, Abs, PidWords, PidsOf, LeastFree, NoFiles, List;
      var pid := TakePid();
      child := CreateBlock(pid);
      AddBlock(child);
    }

    /** The block joins the others. */
    method AddBlock(child: Process)
      requires Wired() && child !in live
      requires forall q <- live :: q.Links() !! child.Links() && q.files != child.files
      requires child.list != child.children && child.list != child.sibling && child.children != child.sibling
      requires child.files.Length == NR_OPEN && List(child.children, [])
      modifies this`entry, this`live, this`kids
      ensures live == old(live) + {child} && kids == old(kids)[child := []]
      ensures Wired() && child in kids && View(child).children == []
      ensures Abs() == old(Abs()).(procs := old(Abs()).procs[child := View(child)])
    {
      hide Blocks, KidsRings, QueueRing, PidWords, PidsOf, Counts, Procs, List;
      Register(child);
      NewProcs(child);
    }

    twostate lemma NewProcs(child: Process)
      requires old(live == kids.Keys) && child !in old(live) && live == old(live) + {child}
      requires kids == old(kids)[child := []]
      requires forall q <- live :: unchanged(q) && q.files[..] == old(q.files[..])
      ensures live == kids.Keys && Procs() == old(Procs())[child := View(child)]
    {
      assert forall q <- old(live) :: View(q) == old(View(q));
    }

    twostate lemma MoreBlocks(child: Process)
      requires old(Blocks()) && live == old(live) + {child} && Embedded(child)
      requires entry == old(entry)[child.list := child][child.children := child][child.sibling := child]
      requires forall q <- old(live) :: q.Links() !! child.Links() && q.files != child.files
      ensures Blocks()
    {
      forall q <- live ensures Embedded(q) {
        if q != child {
          assert old(Embedded(q)) && q.list in q.Links() && q.children in q.Links() && q.sibling in q.Links();
        }
      }
    }

    twostate lemma MoreRings(child: Process)
      requires old(QueueRing() && KidsRings()) && live == old(live) + {child} && child !in old(live)
      requires unchanged(`queue) && unchanged(`idle) && kids == old(kids)[child := []]
      requires forall q <- old(live) :: unchanged(q.list) && unchanged(q.children) && unchanged(q.sibling)
      requires forall q <- old(live) :: q.parent == old(q.parent)
      requires List(child.children, [])
      ensures QueueRing() && KidsRings()
    {
      hide List;
      QueueMembers();
      QueueStays();
      assert Sibs([]) == [];
      hide QueueRing;
      forall q <- live ensures KidsRing(q) {
        if q != child {
          assert old(KidsRing(q));
          KidNodes(q);
          KidsStay(q);
        }
      }
    }

    method Register(child: Process)
      requires live == kids.Keys && Blocks() && QueueRing() && KidsRings() && child !in live
      requires forall q <- live :: q.Links() !! child.Links() && q.files != child.files
      requires child.list != child.children && child.list != child.sibling && child.children != child.sibling
      requires child.files.Length == NR_OPEN && List(child.children, [])
      modifies this`entry, this`live, this`kids
      ensures live == old(live) + {child} && kids == old(kids)[child := []]
      ensures Blocks() && QueueRing() && KidsRings()
    {
      hide Blocks, QueueRing, KidsRings, List;
      entry := entry[child.list := child][child.children := child][child.sibling := child];
      live := live + {child};
      kids := kids[child := []];
      MoreBlocks(child);
      MoreRings(child);
    }

    // -------------------------------------------------------------- taking nodes off lists

    lemma RunsSplit(k: nat)
      requires k < |queue|
      ensures var s := [idle.list] + Runs(queue);
        s[k + 1] == queue[k].list && s[..k + 1] + s[k + 2..] == [idle.list] + Runs(queue[..k] + queue[k + 1..])
    {
      var s := [idle.list] + Runs(queue);
      assert s[..k + 1] + s[k + 2..] == [idle.list] + Runs(queue[..k] + queue[k + 1..]);
    }

    lemma SibsSplit(p: Process, k: nat)
      requires p in kids && k < |kids[p]|
      ensures var s := [p.children] + Sibs(kids[p]);
        && s[k + 1] == kids[p][k].sibling
        && s[..k + 1] + s[k + 2..] == [p.children] + Sibs(kids[p][..k] + kids[p][k + 1..])
    {
      var s := [p.children] + Sibs(kids[p]);
      assert s[..k + 1] + s[k + 2..] == [p.children] + Sibs(kids[p][..k] + kids[p][k + 1..]);
    }

    method DropFromQueue(node: Node, ghost k: nat)
      requires QueueRing() && k < |queue| && node == queue[k].list
      modifies this`queue, idle.list, Runs(queue)
      ensures queue == old(queue)[..k] + old(queue)[k + 1..] && QueueRing()
    {
      RunsSplit(k);
      ListDel(node, [idle.list] + Runs(queue), k + 1);
      queue := queue[..k] + queue[k + 1..];
    }

    lemma RunApart()
      requires Blocks() && QueueRing()
      ensures idle in live && forall q <- queue :: q in live
      ensures forall q <- live ::
        q.children != idle.list && q.children !in Runs(queue) && q.sibling != idle.list && q.sibling !in Runs(queue)
    {
      forall q <- live
        ensures q.children != idle.list && q.children !in Runs(queue)
        ensures q.sibling != idle.list && q.sibling !in Runs(queue)
      {
        OwnNodes(idle, q);
        forall a <- queue ensures q.children != a.list && q.sibling != a.list { OwnNodes(a, q); }
      }
    }

    method TakeFromRun(node: Node, ghost k: nat)
      requires live == kids.Keys && Blocks() && QueueRing() && KidsRings()
      requires k < |queue| && node == queue[k].list
      modifies this`queue, set q <- live, n <- q.Links() :: n
      ensures queue == old(queue)[..k] + old(queue)[k + 1..] && QueueRing() && KidsRings()
    {
      RunApart();
      assert forall q <- live :: q.list in q.Links();
      hide Blocks, KidsRings, QueueRing;
      DropFromQueue(node, k);
      AllKidsStay();
    }

    /** list_del of a process's place in the run queue */
    method Unqueue(node: Node, ghost k: nat)
      requires Wired() && k < |queue| && node == queue[k].list
      modifies this`queue, set q <- live, n <- q.Links() :: n
      ensures Wired() && Abs() == old(Abs()).(queue := old(queue)[..k] + old(queue)[k + 1..])
    {
      hide Blocks, KidsRings, QueueRing, PidWords, PidsOf, Counts, Procs;
      TakeFromRun(node, k);
    }

    lemma KidsParts(p: Process, k: nat)
      requires p in live && p in kids && KidsRing(p) && k < |kids[p]|
      ensures List(p.children, Sibs(kids[p]))
      ensures forall d <- kids[p][..k] + kids[p][k + 1..] :: d in live && d.parent == p
    {
      hide List, Sibs;
      forall d <- kids[p][..k] + kids[p][k + 1..] ensures d in live && d.parent == p {
        assert d in kids[p];
      }
    }

    lemma KidsMade(p: Process)
      requires p in live && p in kids && List(p.children, Sibs(kids[p]))
      requires forall d <- kids[p] :: d in live && d.parent == p
      ensures KidsRing(p)
    {}

    method DropFromKids(p: Process, node: Node, ghost k: nat)
      requires p in live && p in kids && KidsRing(p) && k < |kids[p]| && node == kids[p][k].sibling
      modifies this`kids, p.children, Sibs(kids[p])
      ensures kids == old(kids)[p := old(kids[p])[..k] + old(kids[p])[k + 1..]] && KidsRing(p)
    {
      hide Ring, KidsRing;
      KidsParts(p, k);
      SibsSplit(p, k);
      ghost var cs := kids[p];
      ListDel(node, [p.children] + Sibs(cs), k + 1);
      kids := kids[p := cs[..k] + cs[k + 1..]];
      KidsMade(p);
    }

    method DropChild(p: Process, node: Node, ghost k: nat)
      requires live == kids.Keys && Blocks() && QueueRing() && KidsRings()
      requires p in live && k < |kids[p]| && node == kids[p][k].sibling
      modifies this`kids, p.children, Sibs(kids[p])
      ensures kids == old(kids)[p := old(kids[p])[..k] + old(kids[p])[k + 1..]] && QueueRing() && KidsRings()
    {
      assert KidsRing(p);
      ghost var c := kids[p][k];
      assert c in kids[p];
      QueueApart(p, c);
      OthersApart(p, c);
      hide Blocks, KidsRing, KidsRings, QueueRing;
      DropFromKids(p, node, k);
      QueueStays();
      OthersStay(p);
    }

    method TakeFromKids(p: Process, node: Node, ghost k: nat)
      requires live == kids.Keys && Blocks() && QueueRing() && KidsRings()
      requires p in live && k < |kids[p]| && node == kids[p][k].sibling
      modifies this`kids, set q <- live, n <- q.Links() :: n
      ensures kids == old(kids)[p := old(kids[p])[..k] + old(kids[p])[k + 1..]] && QueueRing() && KidsRings()
    {
      assert KidsRing(p) && forall d <- kids[p] :: d in live;
      assert forall q <- live :: q.children in q.Links() && q.sibling in q.Links();
      hide Blocks, KidsRing, KidsRings, QueueRing;
      DropChild(p, node, k);
    }

    /** list_del of a child */
    method UnlinkChild(p: Process, node: Node, ghost k: nat)
      requires Wired() && p in live && k < |kids[p]| && node == kids[p][k].sibling
      modifies this`kids, set q <- live, n <- q.Links() :: n
      ensures kids == old(kids)[p := old(kids[p])[..k] + old(kids[p])[k + 1..]]
      ensures Wired() && Abs() == WithChildren(old(Abs()), p, old(kids[p])[..k] + old(kids[p])[k + 1..])
    {
      hide Blocks, KidsRings, QueueRing, PidWords, PidsOf, Counts, Procs, List;
      TakeFromKids(p, node, k);
      OneProc(p);
      OldProc(p);
    }

    /** dealloc of the block of a process that is on no list */
    method Free(c: Process)
      requires Wired() && c in live && c !in queue && c != idle && c != init && c != current
      requires forall p <- live :: c !in kids[p]
      modifies this`live, this`kids
      ensures live == old(live) - {c} && Wired() && Abs() == old(Abs()).(procs := old(Abs()).procs - {c})
    {
      hide PidWords, PidsOf, Counts, Procs, Blocks, QueueRing, KidsRings;
      live := live - {c};
      kids := kids - {c};
      FewerBlocks(c);
      FewerProcs(c);
    }

    twostate lemma FewerBlocks(c: Process)
      requires old(Blocks() && QueueRing() && KidsRings()) && live == old(live) - {c} && kids == old(kids) - {c}
      requires unchanged(`entry) && unchanged(`queue) && unchanged(`idle) && c !in queue && c != idle
      requires forall p <- live :: c !in kids[p]
      requires forall q <- old(live) :: unchanged(q.list) && unchanged(q.children) && unchanged(q.sibling)
      requires forall q <- old(live) :: q.parent == old(q.parent)
      ensures Blocks() && QueueRing() && KidsRings()
    {
      hide List;
      forall p <- live ensures Embedded(p) {
        assert old(Embedded(p));
      }
      QueueMembers();
      QueueStays();
      hide Blocks, QueueRing, Embedded;
      forall p <- live ensures KidsRing(p) {
        assert old(KidsRing(p));
        KidNodes(p);
        KidsStay(p);
      }
    }

    twostate lemma FewerProcs(c: Process)
      requires old(live == kids.Keys) && live == old(live) - {c} && kids == old(kids) - {c}
      requires forall q <- old(live) :: unchanged(q) && q.files[..] == old(q.files[..])
      ensures live == kids.Keys && Procs() == old(Procs()) - {c}
    {
      assert forall q <- live :: View(q) == old(View(q));
    }

    // -------------------------------------------------------------- what a call changes

    /** s is what the fields hold. */
    ghost predicate Shows(s: Sys)
      reads this, live, open`count, set p <- live :: p.files
    {
      && s.current == current && s.idle == idle && s.init == init && s.queue == queue
      && s.procs.Keys == live == kids.Keys && s.counts.Keys == open
      && current in live && idle in live && init in live
      && (forall p <- live :: s.procs[p] == Proc(p.pid, p.state, p.parent, kids[p], p.flag, p.files[..]))
      && (forall f <- open :: s.counts[f] == f.count)
    }

    lemma Showing()
      requires Wired()
      ensures live == kids.Keys && pids.Length == 32
      ensures Shows(Abs())
    {}

    /** A process as before, but for its state and flag */
    twostate predicate SameProcess(p: Process)
      reads this`kids, p, p.files
    {
      && p in kids && p in old(kids) && kids[p] == old(kids[p])
      && p.pid == old(p.pid) && p.parent == old(p.parent) && p.files[..] == old(p.files[..])
    }

    /** The processes and the open files with their counts are as before, but for the
        scheduling; p runs, or the scheduler does. */
    twostate predicate Switched(p: Process)
      reads this, live, open`count, set p <- live :: p.files
    {
      && live == old(live) && open == old(open) && (forall f <- open :: f.count == old(f.count))
      && idle == old(idle) && init == old(init) && idle in live && p in live && p != idle
      && (forall q <- live :: SameProcess(q) && (q != p ==> q.flag == old(q.flag)))
      && forall q <- live :: q != p && q != idle ==> q.state == old(q.state)
    }

    twostate lemma SwitchedFields(s: Sys, new t: Sys, new p: Process)
      requires old(Shows(s))
      requires Shows(t) && OnlyScheduling(s, t, p)
      ensures Switched(p)
      ensures old(current) == s.current && old(queue) == s.queue && current == t.current && queue == t.queue
      ensures idle == s.idle && idle.state == t.procs[s.idle].state
      ensures p.state == t.procs[p].state && p.flag == t.procs[p].flag && old(p.flag) == s.procs[p].flag
    {
      forall q <- live
        ensures SameProcess(q) && (q != p ==> q.flag == old(q.flag))
        ensures q != p && q != idle ==> q.state == old(q.state)
      {
      }
    }

    /** schedule found someone to run. */
    twostate predicate HasDispatched()
      reads this, live, open`count, set p <- live :: p.files
    {
      && old(current) == idle && old(queue) != [] && current == old(queue[0]) && queue == old(queue)[1..]
      && Switched(current) && current.flag == old(queue[0].flag)
      && current.state == Running && idle.state == Ready
    }

    /** The caller is last in the queue, and the scheduler runs; inside sys_wait it is
        marked as such. */
    twostate predicate HasYielded(waits: bool)
      reads this, live, open`count, set p <- live :: p.files
    {
      && queue == old(queue) + [old(current)] && current == idle && Switched(old(current))
      && old(current).flag == (waits || old(current.flag))
      && old(current).state == Ready && idle.state == Running
    }

    /** The caller has exited and the scheduler runs. */
    twostate predicate HasExited()
      reads this, live, open`count, set p <- live :: p.files
    {
      && queue == old(queue) && current == idle && Switched(old(current))
      && old(current).flag == old(current.flag)
      && old(current).state == Exited && idle.state == Running
    }

    twostate lemma DispatchFields(s: Sys, new t: Sys)
      requires old(Shows(s))
      requires Inv(s) && Permitted(s, Dispatch) && t == Do(s, Dispatch).sys && Shows(t)
      ensures HasDispatched()
    {
      hide Inv, Permitted, Do, Shows, Switched, OnlyScheduling;
      DispatchEffect(s);
      var p := s.queue[0];
      SwitchedFields(s, t, p);
    }

    twostate lemma YieldFields(s: Sys, new t: Sys)
      requires old(Shows(s))
      requires Inv(s) && Permitted(s, Step.Yield) && t == Do(s, Step.Yield).sys && Shows(t)
      ensures HasYielded(false)
    {
      hide Inv, Permitted, Do, Shows, Switched, OnlyScheduling;
      YieldEffect(s);
      SwitchedFields(s, t, s.current);
    }

    twostate lemma ExitFields(s: Sys, new t: Sys)
      requires old(Shows(s))
      requires Inv(s) && Permitted(s, Step.Exit) && t == Do(s, Step.Exit).sys && Shows(t)
      ensures HasExited()
    {
      hide Inv, Permitted, Do, Shows, Switched, OnlyScheduling;
      ExitEffect(s);
      SwitchedFields(s, t, s.current);
    }

    /** The processes and the scheduling are as before, but for the table of the caller. */
    twostate predicate OnlyTableChanged()
      reads this, live, set p <- live :: p.files
    {
      && live == old(live) && queue == old(queue) && current == old(current) && idle == old(idle) && init == old(init)
      && current in live
      && forall q <- live ::
        && q in kids && q in old(kids) && kids[q] == old(kids[q]) && q.pid == old(q.pid) && q.parent == old(q.parent)
        && q.flag == old(q.flag) && q.state == old(q.state) && (q != current ==> q.files[..] == old(q.files[..]))
    }

    twostate lemma TableFields(s: Sys, new t: Sys, new files: seq<File?>)
      requires old(Shows(s))
      requires Shows(t) && OnlyTable(s, t, s.current, files)
      ensures OnlyTableChanged() && current.files[..] == files
      ensures old(current.files[..]) == s.procs[s.current].files && current == s.current
      ensures s.counts.Keys == old(open) && t.counts.Keys == open
      ensures (forall f <- old(open) :: s.counts[f] == old(f.count)) && forall f <- open :: t.counts[f] == f.count
    {
      forall q <- live ensures q in s.procs && (q != current ==> t.procs[q] == s.procs[q]) {}
    }

    /** The first free entry names a new file of count 1. */
    twostate predicate HasOpened(fd: int, new file: File)
      reads this, live, open`count, set p <- live :: p.files
    {
      var was := old(current.files[..]);
      && OnlyTableChanged() && 0 <= fd < |was| && was[fd] == null && (forall i: nat :: i < fd ==> was[i] != null)
      && current.files[..] == was[fd := file]
      && file !in old(open) && open == old(open) + {file} && file.count == 1
      && forall f <- old(open) :: f.count == old(f.count)
    }

    /** The entry is empty; the file it named has one reference less, and is gone with
        the last one.  Nothing changes for an empty entry or a bad descriptor. */
    twostate predicate HasClosed(fd: int)
      reads this, live, open`count, set p <- live :: p.files
    {
      var was := old(current.files[..]);
      && OnlyTableChanged() && current.files[..] == (if 0 <= fd < |was| then was[fd := null] else was)
      && (if 0 <= fd < |was| && was[fd] != null then
            var file := was[fd];
            && file in old(open) && open == (if old(file.count) == 1 then old(open) - {file} else old(open))
            && (file in open ==> file.count == old(file.count) - 1)
            && forall f <- open :: f != file ==> f.count == old(f.count)
          else
            open == old(open) && forall f <- open :: f.count == old(f.count))
    }

    twostate lemma CloseFields(s: Sys, new t: Sys, new fd: int)
      requires old(Shows(s))
      requires Inv(s) && Permitted(s, Step.Close(fd)) && t == Do(s, Step.Close(fd)).sys && Shows(t)
      ensures HasClosed(fd)
    {
      hide Inv, Permitted, Do, Shows, OnlyTable, OnlyTableChanged;
      CloseEffect(s, fd);
      WhoRuns(s, Step.Close(fd));
      var was := s.procs[s.current].files;
      TableFields(s, t, if 0 <= fd < |was| then was[fd := null] else was);
    }

    twostate lemma OpenFields(s: Sys, new t: Sys, new fd: nat, new file: File)
      requires old(Shows(s))
      requires Inv(s) && Permitted(s, Step.Open(true, file)) && Shows(t)
      requires Do(s, Step.Open(true, file)) == Out(t, Returned(fd))
      ensures HasOpened(fd, file)
    {
      hide Inv, Permitted, Do, Shows, OnlyTable, OnlyTableChanged;
      OpenEffect(s, true, file);
      WhoRuns(s, Step.Open(true, file));
      TableFields(s, t, s.procs[s.current].files[fd := file]);
    }

    /** The table names three new files of count 1; an older file has lost one reference
        for each entry that named it, and is gone with the last one. */
    twostate predicate HasRenewed(new io: seq<File>)
      reads this, live, open`count, set p <- live :: p.files
    {
      var was := old(current.files[..]);
      && OnlyTableChanged() && |io| == 3 <= |was| && current.files[..] == io + seq(|was| - 3, _ => null)
      && (forall f <- io :: f in open && f !in old(open) && f.count == 1)
      && (forall f <- open :: f in io || f in old(open))
      && (forall f <- old(open) :: f in open <==> old(f.count) > multiset(was)[f])
      && forall f <- old(open) :: f in open ==> f.count == old(f.count) - multiset(was)[f]
    }

    twostate lemma ExecFields(s: Sys, new t: Sys, new io: seq<File>)
      requires old(Shows(s))
      requires Inv(s) && Permitted(s, Step.Exec(io)) && t == Do(s, Step.Exec(io)).sys && Shows(t)
      requires forall f <- io :: f !in old(open)
      ensures HasRenewed(io)
    {
      hide Inv, Permitted, Do, Shows, OnlyTable, OnlyTableChanged;
      WhoRuns(s, Step.Exec(io));
      ExecEffect(s, io);
      TableFields(s, t, io + seq(NR_OPEN - 3, _ => null));
    }

    ghost function Pids(): set<nat>
      reads this`live, live
    {
      set p <- live :: p.pid
    }

    twostate lemma PidsShown(s: Sys)
      requires old(Shows(s))
      requires PidsRight(s)
      ensures old(Pids()) == s.pids
    {
      assert old(forall n :: n in Pids() <==> n in PidSet(s));
    }

    /** A process but its children and its flag, as before */
    twostate predicate SameButKids(p: Process)
      reads p, p.files
    {
      && p.pid == old(p.pid) && p.state == old(p.state) && p.parent == old(p.parent)
      && p.files[..] == old(p.files[..])
    }

    /** child hangs first in the caller's list of children and last in the queue. */
    twostate predicate ChildAdded(new child: Process)
      reads this, live, set p <- live :: p.files
    {
      && child !in old(live) && live == old(live) + {child} && queue == old(queue) + [child]
      && current == old(current) && current in old(live) && idle == old(idle) && init == old(init)
      && live == kids.Keys && old(live) == old(kids).Keys
      && kids[child] == [] && kids[current] == [child] + old(kids)[current]
      && forall q <- old(live) :: SameButKids(q) && q.flag == old(q.flag) && (q != current ==> kids[q] == old(kids)[q])
    }

    /** A ready child with the least free pid and the caller's open files */
    twostate predicate HasForked(new child: Process, pid: nat)
      reads this, live, open`count, set p <- live :: p.files
    {
      && ChildAdded(child) && pid !in old(Pids()) && (forall m: nat :: m < pid ==> m in old(Pids()))
      && child.pid == pid && child.state == Ready && child.parent == current && !child.flag
      && child.files[..] == current.files[..]
      && open == old(open) && forall f <- open :: f.count == old(f.count) + multiset(child.files[..])[f]
    }

    twostate lemma ChildFields(s: Sys, new t: Sys, new child: Process, new pid: nat)
      requires old(Shows(s))
      requires Shows(t) && OnlyChild(s, t, child, pid)
      ensures ChildAdded(child)
      ensures child.pid == pid && child.state == Ready && child.parent == current && !child.flag
      ensures s.current in s.procs && child.files[..] == s.procs[s.current].files == current.files[..]
      ensures t.counts.Keys == open && s.counts.Keys == old(open)
      ensures (forall f <- open :: t.counts[f] == f.count) && forall f <- old(open) :: s.counts[f] == old(f.count)
    {
      forall q <- old(live)
        ensures SameButKids(q) && q.flag == old(q.flag) && (q != current ==> kids[q] == old(kids)[q])
      {
        assert t.procs[q] == s.procs[q].(children := t.procs[q].children);
      }
    }

    twostate lemma ForkFields(s: Sys, new t: Sys, new child: Process, new pid: nat)
      requires old(Shows(s))
      requires Inv(s) && Permitted(s, Step.Fork(child)) && Shows(t)
      requires Do(s, Step.Fork(child)) == Out(t, Returned(pid))
      ensures HasForked(child, pid)
    {
      hide Permitted, Do, Shows, PidsRight, Counted, Family, Scheduled, Pids, OnlyChild, ChildAdded;
      PidsShown(s);
      ForkEffect(s, child);
      ChildFields(s, t, child, pid);
    }

    /** The caller's k-th child, the first that had exited, is gone with its pid v and
        its references to open files; the call of sys_wait is over. */
    twostate predicate HasReaped(k: nat, v: int)
      reads this, live, open`count, set p <- live :: p.files
    {
      && old(current) in old(kids) && k < |old(kids[current])|
      && var c := old(kids[current][k]);
        && ChildRemoved(k) && c in old(live) && old(c.state) == Exited && v == old(c.pid) && v !in Pids()
        && GaveBack(old(c.files[..]))
    }

    /** Each file has one reference less for each entry of the table that named it; with
        none left it is gone. */
    twostate predicate GaveBack(new files: seq<File?>)
      reads this`open, open`count
    {
      && (forall f <- open :: f in old(open))
      && (forall f <- old(open) :: f in open <==> old(f.count) > multiset(files)[f])
      && forall f <- open :: f.count == old(f.count) - multiset(files)[f]
    }

    twostate predicate ChildRemoved(k: nat)
      requires old(current) in old(kids) && k < |old(kids[current])|
      reads this, live, set p <- live :: p.files
    {
      var cs := old(kids[current]);
      && live == old(live) - {cs[k]} && queue == old(queue)
      && current == old(current) && current in live && idle == old(idle) && init == old(init)
      && live == kids.Keys && old(live) == old(kids).Keys
      && kids[current] == cs[..k] + cs[k + 1..] && !current.flag
      && forall q <- live :: SameButKids(q) && (q != current ==> q.flag == old(q.flag) && kids[q] == old(kids)[q])
    }

    /** Nothing has changed. */
    twostate predicate AllKept()
      reads this, live, open`count, set p <- live :: p.files
    {
      && OnlyTableChanged() && current.files[..] == old(current.files[..])
      && open == old(open) && forall f <- open :: f.count == old(f.count)
    }

    /** One round of sys_wait whose first k children had not exited: the next one is
        deleted; if there is none the caller yields inside the call, and without
        children it returns at once. */
    twostate predicate HasWaited(k: nat, new r: Ret)
      reads this, live, open`count, set p <- live :: p.files
    {
      && old(current) in old(kids)
      && var cs := old(kids[current]);
        && k <= |cs| && (forall c <- cs :: c in old(live)) && (forall j: nat :: j < k ==> old(cs[j].state) != Exited)
        && if k < |cs| then r.Returned? && HasReaped(k, r.value)
        else if cs != [] then r == Nothing && HasYielded(true)
        else r == Returned(-1) && AllKept()
    }

    twostate lemma RemovedFields(s: Sys, new t: Sys, new k: nat)
      requires old(Shows(s))
      requires Shows(t) && s.current in s.procs && k < |s.procs[s.current].children|
      requires s.procs[s.current].children[k] in s.procs && s.procs[s.current].children[k] != s.current
      requires OnlyWithout(s, t, k)
      ensures old(current) == s.current && old(current) in old(kids)
      ensures old(kids[current]) == s.procs[s.current].children
      ensures ChildRemoved(k) && forall q <- live :: q in s.procs && q.pid == s.procs[q].pid
      ensures var c := old(kids[current][k]);
        c in old(live) && old(c.state) == s.procs[c].state && old(c.pid) == s.procs[c].pid
        && old(c.files[..]) == s.procs[c].files && c !in live
      ensures t.counts.Keys == open && s.counts.Keys == old(open)
      ensures (forall f <- open :: t.counts[f] == f.count) && forall f <- old(open) :: s.counts[f] == old(f.count)
    {
      forall q <- live
        ensures q in s.procs && SameButKids(q) && q.pid == s.procs[q].pid
        ensures q != current ==> q.flag == old(q.flag) && kids[q] == old(kids)[q]
      {
        assert q != current ==> t.procs[q] == s.procs[q];
      }
    }

    twostate lemma ReapFields(s: Sys, new t: Sys, new k: nat, new c: Process)
      requires old(Shows(s))
      requires PidsRight(s) && Shows(t)
      requires s.current in s.procs && k < |s.procs[s.current].children| && c == s.procs[s.current].children[k]
      requires c in s.procs && c != s.current && s.procs[c].state == Exited
      requires OnlyWithout(s, t, k)
      requires forall f: File :: GivenBack(s.counts, t.counts, s.procs[c].files, f)
      ensures HasReaped(k, s.procs[c].pid)
    {
      OtherPids(s, c);
      hide PidsRight, Shows, OnlyWithout, ChildRemoved, GivenBack, Pids, GaveBack;
      RemovedFields(s, t, k);
      CountFields(s, t, s.procs[c].files);
      PidGone(s.procs[c].pid);
    }

    lemma PidGone(v: nat)
      requires forall q <- live :: q.pid != v
      ensures v !in Pids()
    {}

    twostate lemma CountFields(s: Sys, new t: Sys, new files: seq<File?>)
      requires t.counts.Keys == open && s.counts.Keys == old(open)
      requires forall f <- old(open) :: s.counts[f] == old(f.count)
      requires forall f <- open :: t.counts[f] == f.count
      requires forall f: File :: GivenBack(s.counts, t.counts, files, f)
      ensures GaveBack(files)
    {
      forall f <- open ensures f in old(open) && f.count == old(f.count) - multiset(files)[f] {
        assert GivenBack(s.counts, t.counts, files, f);
      }
      forall f <- old(open) ensures f in open <==> old(f.count) > multiset(files)[f] {
        assert GivenBack(s.counts, t.counts, files, f);
      }
    }

    lemma PidsSound(s: Sys)
      requires Inv(s)
      ensures PidsRight(s)
    {}

    lemma OtherPids(s: Sys, c: Process)
      requires PidsRight(s) && c in s.procs
      ensures forall q <- s.procs :: q != c ==> s.procs[q].pid != s.procs[c].pid
    {}

    twostate lemma WaitFields(s: Sys, new t: Sys, new r: Ret) returns (k: nat)
      requires old(Shows(s))
      requires Inv(s) && Permitted(s, Step.Wait) && Shows(t) && Do(s, Step.Wait) == Out(t, r)
      ensures HasWaited(k, r)
    {
      hide Inv, PidsRight, Permitted, Do, Shows, OnlyWithout, HasReaped, OnlyScheduling, GivenBack, HasYielded, AllKept;
      PidsSound(s);
      WhoRuns(s, Step.Wait);
      k := WaitEffect(s);
      ChildrenShown(s);
      if k < |s.procs[s.current].children| {
        ReapFields(s, t, k, s.procs[s.current].children[k]);
      } else if s.procs[s.current].children != [] {
        WaitYields(s, t);
      } else {
        KeptFields(s, t);
      }
    }

    twostate lemma WaitYields(s: Sys, new t: Sys)
      requires old(Shows(s))
      requires Shows(t) && OnlyScheduling(s, t, s.current)
      requires t.current == s.idle && t.queue == s.queue + [s.current]
      requires t.procs[s.current].state == Ready && t.procs[s.idle].state == Running && t.procs[s.current].flag
      ensures HasYielded(true)
    {
      hide Shows, Switched;
      SwitchedFields(s, t, s.current);
    }

    twostate lemma ChildrenShown(s: Sys)
      requires old(Shows(s))
      requires s.current in s.procs && forall c <- s.procs[s.current].children :: c in s.procs
      ensures old(current) == s.current && old(current) in old(kids)
      ensures old(kids[current]) == s.procs[s.current].children
      ensures forall c <- old(kids[current]) :: c in old(live) && old(c.state) == s.procs[c].state
    {}

    twostate lemma KeptFields(s: Sys, new t: Sys)
      requires old(Shows(s))
      requires Shows(t) && s == t
      ensures AllKept()
    {
      forall q <- live
        ensures q in kids && q in old(kids) && kids[q] == old(kids[q]) && q.pid == old(q.pid)
        ensures q.parent == old(q.parent) && q.flag == old(q.flag) && q.state == old(q.state)
        ensures q.files[..] == old(q.files[..])
      {
        assert q in s.procs;
      }
    }

    // -------------------------------------------------------------- the scheduler

    /** What the abstract state says about the blocks */
    lemma Seen()
      requires Wired()
      ensures var s := Abs(); s.current == current && s.idle == idle && s.init == init && s.queue == queue
      ensures forall p <- live :: p in Abs().procs && Abs().procs[p] == View(p)
    {}

    lemma Entries()
      requires Wired()
      ensures idle in live && List(idle.list, Runs(queue))
      ensures forall q <- queue :: q in live && q.list in entry && entry[q.list] == q
    {
      forall q <- queue ensures q.list in entry && entry[q.list] == q { assert Embedded(q); }
    }

    /** list_for_each_entry over the run queue, up to the first ready process */
    method FirstReady() returns (node: Node, ghost k: nat)
      requires List(idle.list, Runs(queue)) && forall q <- queue :: q.list in entry && entry[q.list] == q
      ensures k <= |queue| && node == Place(idle.list, Runs(queue), k)
      ensures k < |queue| ==> queue[k].state == Ready
      ensures forall j: nat :: j < k ==> queue[j].state != Ready
    {
      hide List;
      ghost var ps := queue;
      ghost var items := Runs(ps);
      FirstPlace(idle.list, items);
      node, k := idle.list.next, 0;
      while node != idle.list
        invariant k <= |ps| && node == Place(idle.list, items, k)
        invariant forall j: nat :: j < k ==> ps[j].state != Ready
        decreases |ps| - k
      {
        NextPlace(idle.list, items, k);
        assert ps[k] in queue;
        var process := entry[node];
        if process.state == Ready { return; }
        node, k := node.next, k + 1;
      }
      AtHead(idle.list, items, k);
    }

    /** One round of schedule, up to the switch to the process found */
    method Schedule() returns (more: bool)
      requires Valid() && current == idle
      modifies this`queue, this`current, live`state, set q <- live, n <- q.Links() :: n
      ensures Valid() && more == (old(queue) != [])
      ensures more ==> Permitted(old(Abs()), Dispatch) && Abs() == Do(old(Abs()), Dispatch).sys
      ensures if more then HasDispatched() else Abs() == old(Abs())
    {
      hide Abs, Wired, Inv, DoDispatch, Permitted, List, Shows, HasDispatched, Do;
      QueueList();
      ghost var s := Abs();
      Showing();
      var empty := ListEmpty(idle.list, Runs(queue));
      if empty { return false; }
      HeadReady();
      DispatchFirst();
      assert Inv(Abs());
      Showing();
      DispatchFields(s, Abs());
      more := true;
    }

    lemma QueueList()
      requires Wired()
      ensures live == kids.Keys && pids.Length == 32
      ensures idle in live && List(idle.list, Runs(queue)) && Abs().queue == queue && Abs().current == current
    {}

    /** The list_for_each_entry of schedule finds the head of the queue and takes it off. */
    method TakeFirst() returns (process: Process)
      requires Wired() && queue != [] && queue[0].state == Ready && queue[0] in live
      modifies this`queue, set q <- live, n <- q.Links() :: n
      ensures process == old(queue)[0]
      ensures Wired() && Abs() == old(Abs()).(queue := old(queue)[1..])
    {
      hide Abs, Wired, List;
      Entries();
      var node, k := FirstReady();
      process := entry[node];
      assert k == 0;
      assert node == queue[0].list;
      Unqueue(node, k);
      assert old(queue)[..k] + old(queue)[k + 1..] == old(queue)[1..];
    }

    /** The body of schedule's loop */
    method DispatchFirst()
      requires Wired() && queue != [] && queue[0].state == Ready && queue[0] in live
      modifies this`queue, this`current, live`state, set q <- live, n <- q.Links() :: n
      ensures Wired() && old(Abs()).queue == old(queue) && old(Abs()).idle == idle && idle in old(Abs()).procs
      ensures old(queue)[0] in old(Abs()).procs && Abs() == DoDispatch(old(Abs()))
    {
      Seen();
      assert idle in live;
      hide Abs, Wired, View;
      var process := TakeFirst();
      SetState(process, Running);
      SetState(idle, Ready);
      SetCurrent(process);
    }

    method SetCurrent(p: Process)
      requires Wired() && p in live
      modifies this`current
      ensures Wired() && Abs() == old(Abs()).(current := p)
    {
      hide Blocks, KidsRings, QueueRing, PidWords, PidsOf, Counts, Procs;
      current := p;
    }

    /** By the invariant the first process queued is ready. */
    lemma HeadReady()
      requires Wired() && Inv(Abs()) && queue != [] && current == idle
      ensures queue[0] in live && queue[0].state == Ready
      ensures Permitted(Abs(), Dispatch) && Inv(DoDispatch(Abs())) && Do(Abs(), Dispatch).sys == DoDispatch(Abs())
    {
      Seen();
      assert queue[0] in queue;
      hide Counted, PidsRight, Family, Scheduled, Wired, DoDispatch;
      QueueHead(Abs());
      DispatchReady(Abs());
      DispatchKeeps(Abs());
    }

    // -------------------------------------------------------------- system calls

    /** By the invariant the running process is on no queue. */
    lemma OffQueue()
      requires Wired() && Inv(Abs()) && current != idle
      ensures current !in queue && current in live && current in Abs().procs && Abs().current == current
    {
      Seen();
      hide Counted, PidsRight, Family, Wired;
      assert ScheduledAt(Abs(), current);
    }

    /** yield, from the call to the scheduler's next round */
    method GiveUp()
      requires Wired() && current in live && current !in queue && current != idle
      modifies this`queue, this`current, live`state, set q <- live, n <- q.Links() :: n
      ensures Wired() && old(Abs()).idle in old(Abs()).procs && old(Abs()).current in old(Abs()).procs
      ensures Abs() == DoYield(old(Abs())) && current == idle
    {
      Seen();
      assert idle in live;
      hide Abs, Wired, View;
      SetState(current, Ready);
      AddProcess(current);
      SwitchToIdle();
    }

    method Yield()
      requires Valid() && Permitted(Abs(), Step.Yield)
      modifies this`queue, this`current, live`state, set q <- live, n <- q.Links() :: n
      ensures Valid() && Abs() == Do(old(Abs()), Step.Yield).sys && HasYielded(false)
    {
      Seen();
      OffQueue();
      PlainYieldKeeps(Abs());
      hide Abs, Wired, Inv, DoYield, Shows, HasYielded;
      Showing();
      ghost var s := Abs();
      GiveUp();
      assert Inv(Abs());
      Showing();
      YieldFields(s, Abs());
    }

    /** The rings that the reparenting loop of exit_current works on */
    lemma OrphanRings()
      requires Wired() && current != init
      ensures live == kids.Keys && current in live && init in live
      ensures List(current.children, Sibs(kids[current])) && List(init.children, Sibs(kids[init]))
      ensures forall n <- [init.children] + Sibs(kids[init]) :: n !in [current.children] + Sibs(kids[current])
      ensures forall n <- [init.children] + Sibs(kids[init]) + [current.children] + Sibs(kids[current]) :: n in Nodes()
      ensures Abs().current == current && Abs().init == init && current in Abs().procs
      ensures Abs().procs[current].children == kids[current] && Abs().procs[current].flag == current.flag
    {
      hide List, PidWords;
      assert KidsRing(current) && KidsRing(init);
      forall n <- [init.children] + Sibs(kids[init]) ensures n !in [current.children] + Sibs(kids[current]) {
        Strangers(current, init, n);
      }
      assert current.children in current.Links() && init.children in init.Links();
      forall p: Process, i: nat | (p == current || p == init) && i < |kids[p]| ensures kids[p][i].sibling in Nodes() {
        assert kids[p][i] in kids[p] && kids[p][i].sibling in kids[p][i].Links();
      }
    }

    lemma Strangers(p: Process, q: Process, n: Node)
      requires Blocks() && p in live && q in live && p in kids && q in kids && KidsRing(p) && KidsRing(q) && p != q
      requires n in [q.children] + Sibs(kids[q])
      ensures n !in [p.children] + Sibs(kids[p])
    {
      hide List;
      OwnNodes(p, q);
      if kids[p] != [] {
        assert kids[p][0] in kids[p];
        KidsApart(p, kids[p][0], q);
      } else {
        assert Sibs(kids[p]) == [];
        forall i: nat | i < |kids[q]| ensures kids[q][i].sibling != p.children {
          assert kids[q][i] in kids[q];
          OwnNodes(p, kids[q][i]);
        }
      }
    }

    /** The reparenting loop, followed for as many rounds as one likes: it ends
        exactly when the process has no children. */
    method ReparentChildren(rounds: nat) returns (ended: bool)
      requires Wired() && current != init
      modifies Nodes()
      ensures live == kids.Keys && current in live && init in live && (ended <==> kids[current] == [])
      ensures var mine := Sibs(kids[current]);
        !ended ==> List(current.children, mine[1..])
                   && List(init.children, Turned([mine[0]] + Sibs(kids[init]), rounds))
    {
      OrphanRings();
      hide List, Wired, Abs;
      ghost var mine, others := Sibs(kids[current]), Sibs(kids[init]);
      ended := Reparent(current.children, init.children, mine, others, rounds);
    }

    /** exit_current, with its reparenting loop followed for as many rounds as one
        likes.  It gets to the scheduler exactly when the process has no children
        or is init; otherwise it never leaves the loop. */
    method Exit(rounds: nat) returns (done: bool)
      requires Valid() && current != idle && !current.flag
      modifies this`current, live`state, Nodes()
      ensures live == kids.Keys && old(current) in live
      ensures done <==> kids[old(current)] == [] || old(current) == init
      ensures old(current).state == Exited && (!done ==> current == old(current))
      ensures done <==> Permitted(old(Abs()), Step.Exit)
      ensures done ==> Valid() && Abs() == Do(old(Abs()), Step.Exit).sys && HasExited()
    {
      hide Wired, Abs, Inv, Permitted, Do, Shows, HasExited;
      Showing();
      ghost var s := Abs();
      done := Leave(rounds);
      if done {
        Showing();
        ExitFields(s, Abs());
      }
    }

    method Leave(rounds: nat) returns (done: bool)
      requires Valid() && current != idle && !current.flag
      modifies this`current, live`state, Nodes()
      ensures live == kids.Keys && old(current) in live
      ensures done <==> kids[old(current)] == [] || old(current) == init
      ensures old(current).state == Exited && (!done ==> current == old(current))
      ensures done <==> Permitted(old(Abs()), Step.Exit)
      ensures done ==> Valid() && Abs() == Do(old(Abs()), Step.Exit).sys
    {
      hide Wired, Abs, Inv, Permitted, List;
      MayExit();
      ghost var s := Abs();
      SetState(current, Exited);
      if current != init {
        OrphanRings();
        var empty := ListEmpty(current.children, Sibs(kids[current]));
        if !empty {
          done := ReparentChildren(rounds);
          return;
        }
      }
      SwitchToIdle();
      done := true;
    }

    lemma MayExit()
      requires Wired() && Inv(Abs()) && current != idle && !current.flag
      ensures live == kids.Keys && current in live && idle in live && pids.Length == 32
      ensures Abs().current == current && Abs().idle == idle && current in Abs().procs && idle in Abs().procs
      ensures Permitted(Abs(), Step.Exit) <==> kids[current] == [] || current == init
      ensures Permitted(Abs(), Step.Exit) ==> Do(Abs(), Step.Exit).sys == DoExit(Abs()) && Inv(DoExit(Abs()))
    {
      OffQueue();
      hide PidsRight, Counted;
      if kids[current] == [] || current == init { ExitKeeps(Abs()); }
    }

    /** The child's block and its copy of the table */
    method CreateChild() returns (child: Process)
      requires Wired() && Inv(Abs()) && MayFork(Abs())
      modifies pids, this`entry, this`live, this`kids, open`count
      ensures fresh(child) && fresh(child.files) && fresh(child.Links()) && live == old(live) + {child}
      ensures child.parent == current && kids == old(kids)[child := []]
      ensures Wired() && child !in old(live) && child != current && Both(NewProc(old(Abs()), child), current, child)
      ensures Abs() == CopyTable(NewProc(old(Abs()), child), current, child, 0)
    {
      hide Wired, Abs, Inv, PidsOf, LeastFree, Counted, NewProc, View, Both, CopyTable, NoFiles, MayFork;
      ForkStart();
      ghost var s := Abs();
      child := NewProcess();
      ChildReady(s, child);
      CopyFiles(current, child);
    }

    lemma ForkStart()
      requires Wired() && Inv(Abs()) && MayFork(Abs())
      ensures live == kids.Keys && pids.Length == 32 && current != idle && LeastFree(PidsOf(pids[..]), 0) < MAX_PID
      ensures var s := Abs(); s.procs.Keys == live && s.current == current && s.idle == idle && current in live
      ensures current !in queue && forall q <- queue :: q in live
    {
      OffQueue();
    }

    lemma ChildReady(s: Sys, child: Process)
      requires Wired() && Inv(s) && s.current == current && s.idle == idle && child !in s.procs && child in live
      requires MayFork(s) && Abs() == NewProc(s, child)
      ensures Counted(Abs()) && child != current && child != idle && Both(Abs(), current, child)
    {
      NewKeeps(s, child);
    }

    /** sys_fork */
    method Fork() returns (pid: nat, ghost child: Process)
      requires Valid() && MayFork(Abs())
      modifies pids, this`entry, this`live, this`kids, this`queue, open`count, set q <- live, n <- q.Links() :: n
      ensures fresh(child) && Valid() && Permitted(old(Abs()), Step.Fork(child))
      ensures Out(Abs(), Returned(pid)) == Do(old(Abs()), Step.Fork(child))
      ensures HasForked(child, pid)
    {
      hide Wired, Abs, Inv, Permitted, MayFork, Do, Shows, HasForked;
      Showing();
      ghost var s := Abs();
      pid, child := AddChild();
      Showing();
      ForkFields(s, Abs(), child, pid);
    }

    method AddChild() returns (pid: nat, ghost child: Process)
      requires Valid() && MayFork(Abs())
      modifies pids, this`entry, this`live, this`kids, this`queue, open`count, set q <- live, n <- q.Links() :: n
      ensures fresh(child) && Valid() && Permitted(old(Abs()), Step.Fork(child))
      ensures Out(Abs(), Returned(pid)) == Do(old(Abs()), Step.Fork(child))
    {
      hide Wired, Abs, Inv, LeastFree, CopyTable, Both, Permitted, NewProc, MayFork, DoFork, Do;
      ForkStart();
      ghost var s := Abs();
      var c := CreateChild();
      child := c;
      assert c !in queue;
      ForkAbs(s, c);
      LinkChild(current, c);
      AddProcess(c);
      pid := c.pid;
    }

    /** Between the copied table and the lists */
    lemma ForkAbs(s: Sys, c: Process)
      requires Inv(s) && MayFork(s) && s.current == current && c !in s.procs
      requires Wired() && c in live && current in live && c != current && Both(NewProc(s, c), current, c)
      requires Abs() == CopyTable(NewProc(s, c), current, c, 0)
      ensures Permitted(s, Step.Fork(c)) && Inv(DoFork(s, c)) && c.pid == LeastFree(s.pids, 0)
      ensures DoFork(s, c) == Enqueue(WithChildren(Abs(), current, [c] + kids[current]), c)
      ensures Do(s, Step.Fork(c)) == Out(DoFork(s, c), Returned(c.pid))
    {
      Seen();
      hide Counted, Scheduled, PidsRight, Family, Wired, Abs;
      ForkKeeps(s, c);
    }

    /** What a running process outside sys_wait can rely on in a call about files */
    ghost predicate MayCall(s: Sys)
      requires s.current in s.procs
    {
      s.current != s.idle && !s.procs[s.current].flag
    }

    lemma CallStart()
      requires Wired() && Inv(Abs()) && MayCall(Abs())
      ensures live == kids.Keys && pids.Length == 32 && current in live && current != idle
      ensures var s := Abs(); s.current == current && s.idle == idle && current in s.procs
      ensures Counted(Abs()) && current.files.Length == NR_OPEN && Abs().procs[current].files == current.files[..]
      ensures forall i: nat :: i < NR_OPEN && current.files[i] != null ==> current.files[i] in open
      ensures Abs().counts.Keys == open
    {
      Seen();
      EntriesOpen(current, 0);
      hide Wired, Abs, Inv, Counted;
      forall i: nat | i < NR_OPEN && current.files[i] != null ensures current.files[i] in open {
        EntriesOpen(current, i);
      }
    }

    /** The first free descriptor; NR_OPEN if there is none */
    method FreeSlot() returns (free: nat)
      requires Valid() && MayCall(Abs())
      ensures current.files.Length == NR_OPEN && free == FirstFree(current.files[..])
      ensures Valid() && Abs() == old(Abs()) && MayCall(Abs())
    {
      hide Wired, Abs, Inv, Counted;
      CallStart();
      free := 0;
      while free < NR_OPEN && current.files[free] != null
        invariant free <= NR_OPEN && forall i: nat :: i < free ==> current.files[i] != null
      {
        free := free + 1;
      }
      FirstFreeIs(current.files[..], free);
    }

    /** The rest of sys_open once there is a descriptor and an inode */
    method PlaceFile(free: nat, kind: Kind, inode: nat, ghost entry: nat) returns (file: File)
      requires Valid() && MayCall(Abs()) && current.files.Length == NR_OPEN
      requires free == FirstFree(current.files[..]) < NR_OPEN
      modifies this`open, current.files
      ensures Valid() && fresh(file) && open == old(open) + {file} && current.files[free] == file
      ensures file.kind == kind && file.inode == inode && file.entry == entry && file.off == 0
      ensures Permitted(old(Abs()), Step.Open(true, file))
      ensures Out(Abs(), Returned(free)) == Do(old(Abs()), Step.Open(true, file)) && HasOpened(free, file)
    {
      hide Wired, Abs, Inv, Counted, Permitted, Do, Shows, HasOpened;
      CallStart();
      Showing();
      ghost var s := Abs();
      file := PutNew(current, free, kind, inode, entry);
      OpenAbs(s, true, file);
      Showing();
      OpenFields(s, Abs(), free, file);
    }

    lemma OpenAbs(s: Sys, found: bool, f: File)
      requires Inv(s) && MayCall(s) && f !in s.counts
      ensures Inv(DoOpen(s, found, f).sys) && Permitted(s, Step.Open(found, f))
      ensures Do(s, Step.Open(found, f)) == DoOpen(s, found, f)
    {
      hide Counted, Scheduled, PidsRight, Family;
      OpenKeeps(s, found, f);
    }

    /** sys_close */
    method Close(fd: int)
      requires Valid() && MayCall(Abs())
      modifies this`open, open`count, current.files
      ensures Valid() && Permitted(old(Abs()), Step.Close(fd))
      ensures Out(Abs(), Returned(0)) == Do(old(Abs()), Step.Close(fd))
      ensures open <= old(open) && HasClosed(fd)
    {
      hide Wired, Abs, Inv, Counted, Do, Permitted, MayCall, DropFile, Shows, HasClosed;
      CallStart();
      Showing();
      ghost var s := Abs();
      CloseAbs(s, fd);
      if 0 <= fd < NR_OPEN && current.files[fd] != null {
        DropEntry(current, fd);
      }
      Showing();
      CloseFields(s, Abs(), fd);
    }

    lemma CloseAbs(s: Sys, fd: int)
      requires Inv(s) && MayCall(s) && |s.procs[s.current].files| == NR_OPEN
      ensures Permitted(s, Step.Close(fd)) && Inv(Do(s, Step.Close(fd)).sys)
      ensures Do(s, Step.Close(fd)).ret == Returned(0)
      ensures Do(s, Step.Close(fd)).sys ==
        if 0 <= fd < NR_OPEN && s.procs[s.current].files[fd] != null then DropFile(s, s.current, fd) else s
    {
      hide Counted, Scheduled, PidsRight, Family, SetEntry;
      CloseKeeps(s, fd);
    }

    /** The part of sys_exec about open files */
    method Exec() returns (ghost io: seq<File>)
      requires Valid() && MayCall(Abs())
      modifies this`open, open`count, current.files
      ensures (forall f <- io :: fresh(f)) && Valid() && Permitted(old(Abs()), Step.Exec(io))
      ensures Out(Abs(), Returned(0)) == Do(old(Abs()), Step.Exec(io))
      ensures HasRenewed(io) && forall f <- open :: f in old(open) || f.kind == StdioFile
    {
      hide Wired, Abs, Inv, Do, Permitted, MayCall, Shows, HasRenewed;
      Showing();
      ghost var s := Abs();
      io := RenewTable();
      Showing();
      ExecFields(s, Abs(), io);
    }

    method RenewTable() returns (ghost io: seq<File>)
      requires Valid() && MayCall(Abs())
      modifies this`open, open`count, current.files
      ensures (forall f <- io :: fresh(f)) && Valid() && Permitted(old(Abs()), Step.Exec(io))
      ensures Out(Abs(), Returned(0)) == Do(old(Abs()), Step.Exec(io))
      ensures forall f <- open :: f in old(open) || f.kind == StdioFile
    {
      hide Wired, Abs, Inv, Counted, DropAll, ProcFiles.OpenStdio, Permitted, NoFiles, MayCall;
      CallStart();
      ghost var s := Abs();
      DeallocFiles(current);
      ClearedTable(s);
      TableEmpty();
      ghost var left := open;
      io := OpenStdio(current);
      assert forall f <- io :: f !in left;
      ExecAbs(s, io);
    }

    lemma ClearedTable(s: Sys)
      requires Inv(s) && MayCall(s)
      ensures var t := Cleared(s); s.current in t.procs && t.procs[s.current].files == NoFiles()
    {
      hide Scheduled, PidsRight, Family;
      DropAllKeeps(s, s.current, 0);
    }

    lemma TableEmpty()
      requires Wired() && current in live && Abs().procs[current].files == NoFiles()
      ensures current.files[..] == NoFiles() && Abs().counts.Keys == open
    {}

    lemma ExecAbs(s: Sys, io: seq<File>)
      requires Inv(s) && MayCall(s) && |io| == STDIO && Distinct(io) && forall f <- io :: f !in Cleared(s).counts
      ensures Permitted(s, Step.Exec(io)) && Inv(DoExec(s, io))
    {
      hide Counted, Scheduled, PidsRight, Family;
      ExecKeeps(s, io);
    }

    // -------------------------------------------------------------- sys_wait

    /** dealloc_pid on the kernel's bitmap */
    method ReleasePid(pid: nat)
      requires Wired() && pid < MAX_PID
      modifies pids
      ensures Wired() && Abs() == old(Abs()).(pids := old(Abs()).pids - {pid})
    {
      hide Blocks, KidsRings, QueueRing, PidWords, PidsOf, Counts, Procs;
      DeallocPid(pids, pid);
      StillWired();
      StillProcs();
    }

    /** The links of a child, and what the abstract state says of it */
    lemma ReapStart(k: nat)
      requires Wired() && ReapReady(Abs(), k)
      ensures live == kids.Keys && pids.Length == 32 && current in live && current != idle && k < |kids[current]|
      ensures var c := kids[current][k];
        c in live && c != idle && c != init && c != current && c !in queue && c.pid < MAX_PID
        && (forall p <- live :: p != current ==> c !in kids[p])
        && c !in kids[current][..k] + kids[current][k + 1..]
      ensures Abs().current == current && Abs().idle == idle && Abs().procs.Keys == live
      ensures Abs().procs[current].children == kids[current]
      ensures Abs().procs[kids[current][k]].pid == kids[current][k].pid
    {
      Seen();
      var c := kids[current][k];
      hide Wired, Counted;
      assert Abs().procs[current] == View(current) && Abs().procs[c] == View(c);
      hide Family, Scheduled, PidsRight;
      ChildGone(Abs(), k);
      forall p <- live | p != current ensures c !in kids[p] { assert Abs().procs[p] == View(p); }
    }

    /** list_del and dealloc_pid of a child that has exited */
    method Detach(node: Node, ghost k: nat) returns (pid: nat)
      requires Wired() && ReapReady(Abs(), k) && live == kids.Keys && current in live && k < |kids[current]|
      requires node == kids[current][k].sibling && node in entry && entry[node] == kids[current][k]
      modifies this`kids, pids, live`flag, set q <- live, n <- q.Links() :: n
      ensures Wired() && Abs() == Unlinked(old(Abs()), k) && pid == old(entry[node].pid)
      ensures kids == old(kids)[current := old(kids[current])[..k] + old(kids[current])[k + 1..]]
    {
      hide Wired, Abs, Inv, ReapReady, WithChildren, WithFlag;
      ReapStart(k);
      ghost var s := Abs();
      var child := entry[node];
      UnlinkChild(current, node, k);
      SetFlag(current, false);
      pid := child.pid;
      ReleasePid(pid);
      DetachAbs(s, k, pid, Abs());
    }

    lemma DetachAbs(s: Sys, k: nat, pid: nat, t: Sys)
      requires ReapReady(s, k) && pid == s.procs[s.procs[s.current].children[k]].pid
      requires var cs := s.procs[s.current].children;
        var u := WithFlag(WithChildren(s, s.current, cs[..k] + cs[k + 1..]), s.current, false);
        t == u.(pids := u.pids - {pid})
      ensures t == Unlinked(s, k)
    {}

    /** Deleting a child that has exited */
    method Reap(node: Node, ghost k: nat) returns (pid: nat)
      requires Wired() && ReapReady(Abs(), k) && live == kids.Keys && current in live && k < |kids[current]|
      requires node == kids[current][k].sibling && node in entry && entry[node] == kids[current][k]
      modifies this`kids, this`live, this`open, pids, open`count, live`flag, entry[node].files
      modifies set q <- live, n <- q.Links() :: n
      ensures Wired() && Abs() == DoReap(old(Abs()), k) && pid == old(kids[current][k].pid)
      ensures open <= old(open)
    {
      hide Wired, Abs, Inv, ReapReady, Counted, DropAll, Unlinked;
      ReapStart(k);
      ghost var s := Abs();
      var child := entry[node];
      OffAllLists(kids, current, k);
      pid := Detach(node, k);
      UnlinkedCounted(s, k);
      Bury(child);
    }

    /** dealloc_files and dealloc of a block that nothing refers to any more */
    method Bury(c: Process)
      requires Wired() && Counted(Abs()) && live == kids.Keys && c in live && c !in queue
      requires c != idle && c != init && c != current && forall p <- kids :: c !in kids[p]
      modifies this`kids, this`live, this`open, open`count, c.files
      ensures Wired() && c in old(Abs()).procs
      ensures var t := DropAll(old(Abs()), c, 0); Abs() == t.(procs := t.procs - {c})
      ensures open <= old(open)
    {
      hide Wired, Abs, Counted, DropAll;
      DeallocFiles(c);
      Free(c);
    }

    lemma WaitStart()
      requires Wired() && Inv(Abs()) && current != idle
      ensures live == kids.Keys && pids.Length == 32 && current in live && idle in live && current !in queue
      ensures List(current.children, Sibs(kids[current]))
      ensures forall c <- kids[current] :: c in live && c.sibling in entry && entry[c.sibling] == c
      ensures Abs().current == current && Abs().idle == idle && Abs().procs.Keys == live
      ensures Abs().procs[current].children == kids[current] && Abs().procs[current].flag == current.flag
      ensures forall c <- live :: Abs().procs[c].state == c.state && Abs().procs[c].pid == c.pid
    {
      OffQueue();
      assert KidsRing(current);
      forall c <- kids[current] ensures c in live && c.sibling in entry && entry[c.sibling] == c { assert Embedded(c); }
      assert forall c <- live :: Abs().procs[c] == View(c);
    }

    /** list_for_each_entry over the children: the first that has exited */
    method FindExited() returns (node: Node, flag: bool, ghost k: nat)
      requires live == kids.Keys && current in live && List(current.children, Sibs(kids[current]))
      requires forall c <- kids[current] :: c in live && c.sibling in entry && entry[c.sibling] == c
      ensures k <= |kids[current]| && node == Place(current.children, Sibs(kids[current]), k)
      ensures node != current.children <==> k < |kids[current]|
      ensures k < |kids[current]| ==> kids[current][k].state == Exited
      ensures forall j: nat :: j < k ==> kids[current][j].state != Exited
      ensures flag == (current.flag || k > 0)
    {
      hide List;
      ghost var cs := kids[current];
      ghost var items := Sibs(cs);
      FirstPlace(current.children, items);
      node, flag, k := current.children.next, current.flag, 0;
      while node != current.children
        invariant k <= |cs| && node == Place(current.children, items, k)
        invariant forall j: nat :: j < k ==> cs[j].state != Exited
        invariant flag == (current.flag || k > 0)
        decreases |cs| - k
      {
        NextPlace(current.children, items, k);
        assert cs[k] in kids[current];
        var child := entry[node];
        if child.state == Exited { return; }
        node, flag, k := node.next, true, k + 1;
      }
      AtHead(current.children, items, k);
    }

    /** One round of sys_wait: a child that has exited is deleted, or the caller
        yields because it has children, or it has none. */
    method Wait() returns (r: Ret)
      requires Valid() && current != idle
      modifies this`queue, this`current, this`kids, this`live, this`open, pids, open`count, live`state, live`flag
      modifies set q <- live :: q.files
      modifies set q <- live, n <- q.Links() :: n
      ensures Valid() && Permitted(old(Abs()), Step.Wait) && Out(Abs(), r) == Do(old(Abs()), Step.Wait)
      ensures open <= old(open) && exists done: nat :: HasWaited(done, r)
    {
      hide Wired, Abs, Inv, Do, DoWait, Permitted, List, FirstExited, Place, Embedded, Sibs, Shows, HasWaited;
      WaitStart();
      Showing();
      ghost var s := Abs();
      WaitIs(s);
      var node, flag, k := FindExited();
      Traversed(k);
      r := Conclude(node, flag, k);
      Showing();
      ghost var done := WaitFields(s, Abs(), r);
    }

    lemma Traversed(k: nat)
      requires Wired() && Inv(Abs()) && current != idle && current in kids && k <= |kids[current]|
      requires k < |kids[current]| ==> kids[current][k].state == Exited
      requires forall j: nat :: j < k ==> kids[current][j].state != Exited
      ensures Abs().current in Abs().procs && Abs().idle in Abs().procs
      ensures forall c <- Abs().procs[Abs().current].children :: c in Abs().procs
      ensures FirstExited(Abs(), Abs().procs[Abs().current].children) == k && Inv(DoWait(Abs()).sys)
    {
      hide Wired, Inv, DoWait, FirstExited, Abs, List, Embedded;
      WaitStart();
      ghost var s := Abs();
      WaitKeeps(s);
      FirstExitedIs(s, kids[current], k);
    }

    /** What follows the traversal of the children */
    method Conclude(node: Node, flag: bool, ghost k: nat) returns (r: Ret)
      requires Wired() && Inv(Abs()) && current != idle && current in kids && k <= |kids[current]|
      requires forall c <- Abs().procs[Abs().current].children :: c in Abs().procs
      requires FirstExited(Abs(), Abs().procs[Abs().current].children) == k && flag == (current.flag || k > 0)
      requires node == Place(current.children, Sibs(kids[current]), k)
      requires (node == current.children <==> k == |kids[current]|)
      modifies this`queue, this`current, this`kids, this`live, this`open, pids, open`count, live`state, live`flag
      modifies set q <- live :: q.files
      modifies set q <- live, n <- q.Links() :: n
      ensures Wired() && Out(Abs(), r) == DoWait(old(Abs())) && open <= old(open)
    {
      hide Wired, Abs, Inv, DoWait, FirstExited, ReapReady, DoReap, DoYield;
      WaitStart();
      WaitCases(Abs(), k, flag);
      if node != current.children {
        var pid := Reap(node, k);
        r := Returned(pid);
      } else if flag {
        Stay();
        r := Nothing;
      } else {
        r := Returned(-1);
      }
    }

    method Stay()
      requires Wired() && current in live && current !in queue && current != idle
      modifies this`queue, this`current, live`state, live`flag, set q <- live, n <- q.Links() :: n
      ensures Wired() && old(Abs()).idle in old(Abs()).procs && old(Abs()).current in old(Abs()).procs
      ensures Abs() == DoYield(WithFlag(old(Abs()), old(Abs()).current, true))
    {
      Seen();
      hide Wired, Abs, DoYield, View;
      SetFlag(current, true);
      GiveUp();
    }

    // -------------------------------------------------------------- the start

    /** The scheduler runs as pid 0; init, pid 1, is queued with three files of count 1. */
    ghost predicate Started(io: seq<File>)
      reads this, live, open`count, set p <- live :: p.files
    {
      && live == {idle, init} == kids.Keys && current == idle && queue == [init] && Pids() == {0, 1}
      && idle.pid == 0 && idle.state == Running && init.pid == 1 && init.state == Ready
      && kids[idle] == [] && kids[init] == [] && !idle.flag && !init.flag
      && |io| == 3 && init.files[..] == io + seq(NR_OPEN - 3, _ => null)
      && open == (set f <- io :: f) && forall f <- open :: f.count == 1
    }

    lemma StartFields(io: seq<File>)
      requires |io| == STDIO && idle != init && Distinct(io) && Shows(Initial(idle, init, io))
      ensures Started(io)
    {
      hide Initial;
      StartEffect(idle, init, io);
      assert init.files[..] == io + seq(NR_OPEN - 3, _ => null);
    }

    /** init_process, up to the call of schedule */
    static method InitProcess() returns (k: System, ghost io: seq<File>)
      ensures fresh(k) && k.Valid() && k.idle != k.init && |io| == STDIO && k.Abs() == Initial(k.idle, k.init, io)
      ensures k.Started(io) && forall f <- k.open :: f.kind == StdioFile
    {
      hide System.Wired, System.Abs, Inv, Counted, Two, NoFiles, ProcFiles.OpenStdio, Initial, System.Shows,
        System.Started;
      k := Boot();
      k.BootSeen();
      io := k.OpenStdio(k.init);
      k.StartSeen(io);
      k.AddProcess(k.init);
      InitialKeeps(k.idle, k.init, io);
      k.Showing();
      k.StartFields(io);
    }

    lemma BootSeen()
      requires Wired() && idle != init && Abs() == Two(idle, init)
      ensures init in live && init !in queue && queue == [] && init.files[..] == NoFiles() && Counted(Abs())
    {
      TwoCounted(idle, init);
      assert Abs().procs[init] == View(init);
    }

    lemma StartSeen(io: seq<File>)
      requires idle != init && |io| == STDIO
      ensures init in Two(idle, init).procs && |Two(idle, init).procs[init].files| == NR_OPEN
      ensures Enqueue(ProcFiles.OpenStdio(Two(idle, init), init, io, 0), init) == Initial(idle, init, io)
    {}
  }

  lemma WaitIs(s: Sys)
    requires Inv(s) && s.current != s.idle
    ensures Permitted(s, Step.Wait) && forall c <- s.procs[s.current].children :: c in s.procs
    ensures Do(s, Step.Wait) == DoWait(s)
  {
    assert ChildrenAt(s, s.current);
  }

  lemma WaitCases(s: Sys, k: nat, flag: bool)
    requires Inv(s) && s.current != s.idle && forall c <- s.procs[s.current].children :: c in s.procs
    requires FirstExited(s, s.procs[s.current].children) == k
    requires flag == (s.procs[s.current].flag || k > 0)
    ensures var cs := s.procs[s.current].children;
      if k < |cs| then ReapReady(s, k) && DoWait(s) == Out(DoReap(s, k), Returned(s.procs[cs[k]].pid))
      else if flag then DoWait(s) == Out(DoYield(WithFlag(s, s.current, true)), Nothing)
      else DoWait(s) == Out(s, Returned(-1))
  {
    hide Counted, Scheduled, PidsRight, Family, DoReap, DoYield;
    if k < |s.procs[s.current].children| { ReapIsReady(s, k); }
  }

  lemma {:induction false} FirstExitedIs(s: Sys, cs: seq<Process>, k: nat)
    requires (forall c <- cs :: c in s.procs) && k <= |cs| && (k < |cs| ==> s.procs[cs[k]].state == Exited)
    requires forall j: nat :: j < k ==> s.procs[cs[j]].state != Exited
    ensures FirstExited(s, cs) == k
  {
    if k > 0 {
      assert s.procs[cs[0]].state != Exited;
      forall j: nat | j < k - 1 ensures s.procs[cs[1..][j]].state != Exited { assert cs[1..][j] == cs[j + 1]; }
      FirstExitedIs(s, cs[1..], k - 1);
    }
  }

  lemma OffAllLists(ks: map<Process, seq<Process>>, me: Process, k: nat)
    requires me in ks && k < |ks[me]| && ks[me][k] !in ks[me][..k] + ks[me][k + 1..]
    requires forall p <- ks :: p != me ==> ks[me][k] !in ks[p]
    ensures var ls := ks[me := ks[me][..k] + ks[me][k + 1..]]; forall p <- ls :: ks[me][k] !in ls[p]
  {}

  lemma UnlinkedCounted(s: Sys, k: nat)
    requires ReapReady(s, k)
    ensures Counted(Unlinked(s, k))
  {
    SameTablesCounted(s, Unlinked(s, k));
  }

  /** A child that is deleted is in nobody's list any more. */
  lemma ChildGone(s: Sys, k: nat)
    requires ReapReady(s, k)
    ensures var cs := s.procs[s.current].children; var c := cs[k];
      && c !in s.queue && c !in cs[..k] + cs[k + 1..] && s.procs[c].pid < MAX_PID
      && forall p <- s.procs :: p != s.current ==> c !in s.procs[p].children
  {
    var cs := s.procs[s.current].children;
    var c := cs[k];
    hide Counted;
    assert ScheduledAt(s, c) && ChildrenAt(s, s.current);
    hide Scheduled, PidsRight;
    WithoutOne(cs, k);
    forall p <- s.procs | p != s.current ensures c !in s.procs[p].children { assert ChildrenAt(s, p); }
  }

  lemma {:induction false} FirstFreeIs(files: seq<File?>, k: nat)
    requires k <= |files| && (k < |files| ==> files[k] == null)
    requires forall i: nat :: i < k ==> files[i] != null
    ensures FirstFree(files) == k
  {
    if k > 0 {
      assert files[0] != null;
      forall i: nat | i < k - 1 ensures files[1..][i] != null { assert files[1..][i] == files[i + 1]; }
      FirstFreeIs(files[1..], k - 1);
    }
  }

  /** A process outside sys_wait may fork while a pid is free. */
  ghost predicate MayFork(s: Sys)
    requires s.current in s.procs
  {
    s.current != s.idle && !s.procs[s.current].flag && LeastFree(s.pids, 0) < MAX_PID
  }

  ghost predicate Both(s: Sys, from: Process, to: Process) {
    from in s.procs && to in s.procs && |s.procs[from].files| == |s.procs[to].files| == NR_OPEN
  }

  ghost predicate EmptyFrom(s: Sys, p: Process, i: nat)
    requires p in s.procs
  {
    forall j: nat :: i <= j < |s.procs[p].files| ==> s.procs[p].files[j] == null
  }

  lemma StdioDone(s: Sys, p: Process, io: seq<File>)
    requires Counted(s) && p in s.procs && p != s.idle && s.procs[p].files == NoFiles() && |io| == STDIO
    ensures Counted(ProcFiles.OpenStdio(s, p, io, 0))
  {
    OpenStdioKeeps(s, p, io, 0);
  }

  lemma CopyDone(s: Sys, from: Process, to: Process)
    requires Both(s, from, to) && from != to
    ensures CopyTable(s, from, to, NR_OPEN) == s
  {}

  lemma CopySame(s: Sys, from: Process, to: Process, i: nat)
    requires Both(s, from, to) && from != to && i < NR_OPEN && EmptyFrom(s, to, i)
    requires var t := CopyEntry(s, from, to, i);
      && t.procs.Keys == s.procs.Keys && t.procs[from] == s.procs[from]
      && t.procs[to].files == s.procs[to].files[i := s.procs[from].files[i]]
    ensures var t := CopyEntry(s, from, to, i);
      Both(t, from, to) && EmptyFrom(t, to, i + 1) && CopyTable(s, from, to, i) == CopyTable(t, from, to, i + 1)
  {}
}
