// How many frames mapping a range takes: one for each table that is missing on
// the way to its pages, and one for each page with a frame of its own.
module FrameBudget {
  import opened Pte
  import opened PageTree
  import opened PageRange
  import opened AddressSpace

  /** The tables that the walk for a page goes through, below the root */
  ghost function Path(vpn: nat): set<Node> {
    {Mid(Level(vpn, 2)), BottomOf(vpn)}
  }

  ghost function PathTables(first: nat, n: nat): set<Node> {
    if n == 0 then {} else PathTables(first, n - 1) + Path(first + n - 1)
  }

  /** The frames that mapping n pages takes, own of them for the pages themselves */
  ghost function Need(t: Tables, first: nat, n: nat, own: nat): nat {
    |PathTables(first, n) - t.Keys| + own
  }

  lemma {:induction false} PathMore(first: nat, i: nat, n: nat)
    requires i <= n
    ensures PathTables(first, i) <= PathTables(first, n)
  {
    if i < n { PathMore(first, i, n - 1); }
  }

  /** At most two tables a page */
  lemma {:induction false} PathCount(first: nat, n: nat)
    ensures |PathTables(first, n)| <= 2 * n
  {
    if n > 0 {
      PathCount(first, n - 1);
      Joined(PathTables(first, n - 1), Path(first + n - 1));
      Fewer(Path(first + n - 1) - PathTables(first, n - 1), Path(first + n - 1));
      PathTwo(first + n - 1);
    }
  }

  lemma PathTwo(vpn: nat)
    ensures |Path(vpn)| == 2
  {
    assert Path(vpn) == {Mid(Level(vpn, 2))} + {BottomOf(vpn)};
  }

  lemma NeedAtMost(t: Tables, first: nat, n: nat, own: nat)
    ensures Need(t, first, n, own) <= 2 * n + own
  {
    PathCount(first, n);
    Fewer(PathTables(first, n) - t.Keys, PathTables(first, n));
  }

  /** Every table has a frame of its own. */
  lemma {:induction false} FramesOfTables(t: Tables)
    requires Injective(t)
    ensures |t.Values| == |t.Keys|
    decreases |t|
  {
    if t != map[] {
      var n :| n in t;
      var u := map k | k in t && k != n :: t[k];
      assert u.Keys == t.Keys - {n} && n in t.Keys;
      assert t.Values == u.Values + {t[n]} by {
        forall f | f in t.Values ensures f in u.Values + {t[n]} {
          var k :| k in t && t[k] == f;
          assert k != n ==> k in u && u[k] == f;
        }
      }
      assert t[n] !in u.Values;
      FramesOfTables(u);
    }
  }

  lemma Sum(a: set<nat>, b: set<nat>, c: set<nat>)
    requires a !! b && a !! c && b !! c
    ensures |a + b + c| == |a| + |b| + |c|
  {
    assert |a + b| == |a| + |b|;
  }

  lemma SpaceInjective(m: Mem, t: Tables, free: set<nat>)
    requires Space(m, t, free)
    ensures Injective(t) && t.Values !! free
  {}

  /** No frame is lost: free ones, tables and data frames add up. */
  lemma Balance(m: Mem, t: Tables, free: set<nat>, m': Mem, t': Tables, free': set<nat>,
                first: nat, es: seq<nat>, used: set<nat>)
    requires Space(m, t, free) && Mapping(m, t, free, m', t', free', first, es, used)
    ensures |free'| + |t'.Keys| + |used| == |free| + |t.Keys|
  {
    hide Space, Injective, MapsTo, FreeOk, Keeps, Extends;
    SpaceInjective(m, t, free);
    SpaceInjective(m', t', free');
    FramesOfTables(t);
    FramesOfTables(t');
    Sum(free', t'.Values, used);
    Sum(free, t.Values, {});
    assert free + t.Values + {} == free + t.Values;
  }

  lemma Joined(a: set<Node>, b: set<Node>)
    ensures |a + b| == |a| + |b - a|
  {
    assert a + b == a + (b - a);
  }

  /** All pages mapped: the free frames that are left */
  lemma Spent(m: Mem, t: Tables, free: set<nat>, m': Mem, t': Tables, free': set<nat>,
              first: nat, es: seq<nat>, used: set<nat>, n: nat)
    requires Space(m, t, free) && Mapping(m, t, free, m', t', free', first, es, used)
    requires Reached(t, t', first, n)
    ensures |free| == |free'| + Need(t, first, n, |used|)
  {
    hide Space, Mapping, PathTables;
    Balance(m, t, free, m', t', free', first, es, used);
    Joined(t.Keys, PathTables(first, n));
  }

  /** Only tables on the way to the first n pages were added. */
  ghost predicate Within(t: Tables, t': Tables, first: nat, n: nat) {
    t'.Keys <= t.Keys + PathTables(first, n)
  }

  /** At page j no frame is left, and page j still lacks its table or its frame:
      the free frames were too few. */
  lemma TooFew(m: Mem, t: Tables, free: set<nat>, m': Mem, t': Tables, first: nat, es: seq<nat>, used: set<nat>,
               j: nat, n: nat, own: nat)
    requires Space(m, t, free) && Mapping(m, t, free, m', t', {}, first, es, used)
    requires j < n && Within(t, t', first, j + 1) && |used| <= own
    requires |used| < own || BottomOf(first + j) !in t'
    ensures |free| < Need(t, first, n, own)
  {
    hide *;
    Balance(m, t, free, m', t', {}, first, es, used);
    PathMore(first, j + 1, n);
    Lacking(t, t', first, j, n, own);
  }

  /** The tables there are now, of those there will be */
  lemma Lacking(t: Tables, t': Tables, first: nat, j: nat, n: nat, own: nat)
    requires j < n && Within(t, t', first, j + 1) && PathTables(first, j + 1) <= PathTables(first, n)
    ensures |t'.Keys| + own <= |t.Keys| + Need(t, first, n, own)
    ensures BottomOf(first + j) !in t' ==> |t'.Keys| + own < |t.Keys| + Need(t, first, n, own)
  {
    hide BottomOf, Level, PathTables;
    OnPath(first, j);
    var all := PathTables(first, n);
    Joined(t.Keys, all);
    Fewer(t'.Keys, t.Keys + all);
    if BottomOf(first + j) !in t' { Fewer(t'.Keys, t.Keys + all - {BottomOf(first + j)}); }
  }

  /** All tables on the way to the first n pages are there. */
  ghost predicate Reached(t: Tables, t': Tables, first: nat, n: nat) {
    t'.Keys == t.Keys + PathTables(first, n)
  }

  /** What looking up the entry of page v adds to the tables */
  ghost predicate Added(t: Tables, t': Tables, v: nat, found: bool) {
    if found then t'.Keys == t.Keys + Path(v) else t'.Keys <= t.Keys + Path(v) && BottomOf(v) !in t'
  }

  lemma ReachNone(t: Tables, first: nat)
    ensures Reached(t, t, first, 0)
  {}

  lemma ReachMore(t: Tables, t1: Tables, t2: Tables, first: nat, j: nat, found: bool)
    requires Reached(t, t1, first, j) && Added(t1, t2, first + j, found)
    ensures if found then Reached(t, t2, first, j + 1) else Within(t, t2, first, j + 1) && BottomOf(first + j) !in t2
  {
    hide Path;
    OnPath(first, j);
  }

  lemma ReachWithin(t: Tables, t': Tables, first: nat, n: nat)
    requires Reached(t, t', first, n)
    ensures Within(t, t', first, n)
  {}

  lemma OnPath(first: nat, j: nat)
    ensures PathTables(first, j + 1) == PathTables(first, j) + Path(first + j)
    ensures BottomOf(first + j) in PathTables(first, j + 1)
  {}

  lemma Fewer(a: set<Node>, b: set<Node>)
    requires a <= b
    ensures |a| <= |b|
  {
    assert b == a + (b - a);
  }
}
