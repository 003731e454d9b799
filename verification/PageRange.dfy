// kernel/mapping.c, lines 13-14: ranges of virtual pages, and how mapping a
// range changes the translations of an address space.
module PageRange {
  import opened Bits
  import opened Pte
  import opened PageTree

  const PAGE_SIZE: nat := 4096
  const KERNEL_MAP_OFFSET: nat := 0xffff_ffff_0000_0000

  /** start_va >> 12 */
  function FirstVpn(start: nat): nat {
    start / PAGE_SIZE
  }

  /** How often the loop over start..end runs; end - 1 wraps around at 0. */
  function PageCount(start: nat, end: nat): nat {
    var last := (end + WORD - 1) % WORD / PAGE_SIZE + 1;
    if last > FirstVpn(start) then last - FirstVpn(start) else 0
  }

  ghost predicate OnPage(a: nat, v: nat) {
    a / PAGE_SIZE == v
  }

  /** A page is visited exactly when it holds an address of the range. */
  lemma PageVisited(start: nat, end: nat, v: nat)
    requires start < end <= WORD
    ensures FirstVpn(start) <= v < FirstVpn(start) + PageCount(start, end) <==>
      exists a: nat :: start <= a < end && OnPage(a, v)
  {
    var n := PageCount(start, end);
    assert (end + WORD - 1) % WORD == end - 1;
    assert FirstVpn(start) + n == (end - 1) / PAGE_SIZE + 1;
    if FirstVpn(start) <= v < FirstVpn(start) + n {
      assert OnPage(if PAGE_SIZE * v < start then start else PAGE_SIZE * v, v);
    }
  }

  /** The position of v's key in the range of pages that starts at first. */
  function Offset(first: nat, v: nat): nat {
    (Key(v) + KEYS - Key(first)) % KEYS
  }

  lemma OffsetIs(first: nat, v: nat, j: nat)
    requires j < KEYS
    ensures Offset(first, v) < KEYS
    ensures Key(v) == Key(first + j) <==> Offset(first, v) == j
  {
    var kf, kv := Key(first), Key(v);
    assert Key(first + j) == if kf + j < KEYS then kf + j else kf + j - KEYS;
    assert Offset(first, v) == if kv >= kf then kv - kf else kv + KEYS - kf;
  }

  /** The pages from first on now have the entries es; other pages kept theirs. */
  ghost predicate MapsTo(m: Mem, t: Tables, m': Mem, t': Tables, first: nat, es: seq<nat>) {
    forall v: nat :: Leaf(m', t', v) == if Offset(first, v) < |es| then es[Offset(first, v)] else Leaf(m, t, v)
  }

  lemma MapsToNothing(m: Mem, t: Tables, first: nat)
    ensures MapsTo(m, t, m, t, first, [])
  {}

  lemma MapsToSame(m: Mem, t: Tables, m1: Mem, t1: Tables, m2: Mem, t2: Tables, first: nat, es: seq<nat>)
    requires MapsTo(m, t, m1, t1, first, es) && SameLeaves(m1, t1, m2, t2)
    ensures MapsTo(m, t, m2, t2, first, es)
  {
    hide Leaf, Offset;
    forall v: nat ensures Leaf(m2, t2, v) == if Offset(first, v) < |es| then es[Offset(first, v)] else Leaf(m, t, v) {
      assert Leaf(m2, t2, v) == Leaf(m1, t1, v);
    }
  }

  /** Setting the entry of the next page extends the mapped range. */
  lemma MapsToNext(m: Mem, t: Tables, m1: Mem, t1: Tables, m2: Mem, t2: Tables, first: nat, es: seq<nat>, pte: nat)
    requires MapsTo(m, t, m1, t1, first, es) && |es| < KEYS
    requires forall v: nat :: Leaf(m2, t2, v) == if Key(v) == Key(first + |es|) then pte else Leaf(m1, t1, v)
    ensures MapsTo(m, t, m2, t2, first, es + [pte])
  {
    hide Leaf, Key, Offset;
    forall v: nat
      ensures Leaf(m2, t2, v) == if Offset(first, v) < |es| + 1 then (es + [pte])[Offset(first, v)] else Leaf(m, t, v)
    {
      OffsetIs(first, v, |es|);
      assert Leaf(m2, t2, v) == if Key(v) == Key(first + |es|) then pte else Leaf(m1, t1, v);
    }
  }

  /** A page of the range not reached yet still has its old entry. */
  lemma MapsToAhead(m: Mem, t: Tables, m1: Mem, t1: Tables, first: nat, es: seq<nat>)
    requires MapsTo(m, t, m1, t1, first, es) && |es| < KEYS
    ensures Leaf(m1, t1, first + |es|) == Leaf(m, t, first + |es|)
  {
    OffsetIs(first, first + |es|, |es|);
  }

  ghost function FrameSet(fs: seq<nat>): set<nat> {
    set f | f in fs
  }

  /** Entries for frames fs, all with the same flags. */
  function Ptes(fs: seq<nat>, flags: nat): (es: seq<nat>)
    ensures |es| == |fs|
  {
    seq(|fs|, j requires 0 <= j < |fs| => MakePte(fs[j], flags))
  }

  lemma PtesSnoc(fs: seq<nat>, f: nat, flags: nat)
    ensures Ptes(fs + [f], flags) == Ptes(fs, flags) + [MakePte(f, flags)]
  {}
}
