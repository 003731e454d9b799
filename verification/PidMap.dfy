// kernel/process.c, lines 17-50: the bitmap of pids, 32 words of 32 bits.
module PidMap {
  import opened Bits
  import opened ProcSpec
  import opened ProcSteps

  const FULL: nat := 0xFFFF_FFFF

  type Words = seq<nat>

  ghost predicate PidWords(w: Words) {
    |w| == 32 && forall i: nat :: i < 32 ==> w[i] <= FULL
  }

  predicate Marked(w: Words, n: nat)
    requires |w| == 32 && n < MAX_PID
  {
    Bit(w[n / 32], n % 32)
  }

  ghost function PidsOf(w: Words): set<nat>
    requires |w| == 32
  {
    set n: nat | n < MAX_PID && Marked(w, n)
  }

  /** ~w, on 32 bits */
  function Not(w: nat): nat
    requires w <= FULL
  {
    FULL - w
  }

  lemma {:induction false} NotBit(w: nat, k: nat, i: nat)
    requires w < Pow2(k) && i < k
    ensures Bit(Pow2(k) - 1 - w, i) <==> !Bit(w, i)
    decreases k
  {
    if i > 0 {
      NotBit(w / 2, k - 1, i - 1);
      assert (Pow2(k) - 1 - w) / 2 == Pow2(k - 1) - 1 - w / 2;
    }
  }

  lemma Full()
    ensures Pow2(32) == FULL + 1
  {
    FieldBounds();
  }

  ghost predicate AllSet(w: nat) {
    forall j: nat :: j < 32 ==> Bit(w, j)
  }

  /** A word is skipped exactly when it has no free bit. */
  lemma FullWord(w: nat)
    requires w <= FULL
    ensures w == FULL <==> AllSet(w)
  {
    hide Pow2;
    Full();
    var ones := Pow2(32) - 1;
    forall j: nat ensures Bit(ones, j) <==> j < 32 { OnesBits(32, j); }
    BitsBelow(w, 32);
    if AllSet(w) {
      forall i: nat ensures Bit(w, i) <==> Bit(ones, i) {}
      SameBits(w, ones);
    }
  }

  lemma WordTaken(w: Words, i: nat)
    requires PidWords(w) && i < 32 && w[i] == FULL
    ensures forall m: nat :: 32 * i <= m < 32 * (i + 1) ==> Marked(w, m)
  {
    hide Bit;
    FullWord(w[i]);
    forall m: nat | 32 * i <= m < 32 * (i + 1) ensures Marked(w, m) {
      assert m / 32 == i && Bit(w[i], m % 32);
    }
  }

  lemma MarkWord(w: nat, j: nat, i: nat)
    requires w <= FULL && j < 32 && i < 32
    ensures var v := Or(w, Pow2(j)); v <= FULL && (Bit(v, i) <==> Bit(w, i) || i == j)
  {
    hide Pow2, Or, Bit;
    Full();
    OrPow2Bound(w, j);
    OrBit(w, Pow2(j), i);
    Pow2Bit(j, i);
  }

  lemma UnmarkWord(w: nat, j: nat, i: nat)
    requires w <= FULL && j < 32 && i < 32
    ensures Pow2(j) <= FULL
    ensures var v := And(w, Not(Pow2(j))); v <= FULL && (Bit(v, i) <==> Bit(w, i) && i != j)
  {
    hide Pow2, And, Bit;
    Full();
    Pow2Mono(j, 31);
    Pow2Mono(31, 32);
    AndAtMost(w, Not(Pow2(j)));
    AndBit(w, Not(Pow2(j)), i);
    NotBit(Pow2(j), 32, i);
    Pow2Bit(j, i);
  }

  lemma Marking(w: Words, n: nat, v: nat)
    requires PidWords(w) && n < MAX_PID && v == Or(w[n / 32], Pow2(n % 32))
    ensures var w' := w[n / 32 := v]; PidWords(w') && PidsOf(w') == PidsOf(w) + {n}
  {
    hide Or, Bit, Pow2;
    MarkWord(w[n / 32], n % 32, 0);
    forall m: nat | m < MAX_PID ensures Marked(w[n / 32 := v], m) <==> Marked(w, m) || m == n {
      if m / 32 == n / 32 { MarkWord(w[n / 32], n % 32, m % 32); }
    }
  }

  lemma Unmarking(w: Words, n: nat, v: nat)
    requires PidWords(w) && n < MAX_PID && Pow2(n % 32) <= FULL && v == And(w[n / 32], Not(Pow2(n % 32)))
    ensures var w' := w[n / 32 := v]; PidWords(w') && PidsOf(w') == PidsOf(w) - {n}
  {
    hide And, Bit, Pow2, Not;
    UnmarkWord(w[n / 32], n % 32, 0);
    forall m: nat | m < MAX_PID ensures Marked(w[n / 32 := v], m) <==> Marked(w, m) && m != n {
      if m / 32 == n / 32 { UnmarkWord(w[n / 32], n % 32, m % 32); }
    }
  }

  lemma LeastIs(pids: set<nat>, n: nat)
    requires n <= MAX_PID && (n < MAX_PID ==> n !in pids)
    requires forall m: nat :: m < n ==> m in pids
    ensures LeastFree(pids, 0) == n
  {
    var r := LeastFree(pids, 0);
    assert r < n ==> r in pids;
  }

  lemma MarkedAt(w: Words, i: nat, j: nat)
    requires |w| == 32 && i < 32 && j < 32
    ensures (32 * i + j) / 32 == i && (32 * i + j) % 32 == j && (Marked(w, 32 * i + j) <==> Bit(w[i], j))
  {}

  lemma LeastMarked(w: Words, n: nat)
    requires |w| == 32 && n <= MAX_PID && (n < MAX_PID ==> !Marked(w, n))
    requires forall m: nat :: m < n ==> Marked(w, m)
    ensures LeastFree(PidsOf(w), 0) == n
  {
    hide Marked, LeastFree;
    LeastIs(PidsOf(w), n);
  }

  /** alloc_pid: the least free pid, or -1 when all are taken. */
  method AllocPid(pids: array<nat>) returns (pid: int)
    requires PidWords(pids[..])
    modifies pids
    ensures PidWords(pids[..])
    ensures var n := LeastFree(PidsOf(old(pids[..])), 0);
      if n < MAX_PID then pid == n && PidsOf(pids[..]) == PidsOf(old(pids[..])) + {n}
      else pid == -1 && pids[..] == old(pids[..])
  {
    ghost var w: seq<nat> := pids[..];
    hide Bit, And, Or, Pow2, LeastFree, PidsOf, Marked;
    for i: nat := 0 to 32
      invariant pids[..] == w
      invariant forall m: nat :: m < 32 * i ==> Marked(w, m)
    {
      if pids[i] != FULL {
        for j: nat := 0 to 32
          invariant pids[..] == w
          invariant forall m: nat :: m < 32 * i + j ==> Marked(w, m)
        {
          AndPow2(w[i], j);
          MarkedAt(w, i, j);
          if And(pids[i], Pow2(j)) == 0 {
            pids[i] := Or(pids[i], Pow2(j));
            LeastMarked(w, 32 * i + j);
            Marking(w, 32 * i + j, pids[i]);
            assert pids[..] == w[i := pids[i]];
            return 32 * i + j;
          }
        }
      } else {
        WordTaken(w, i);
      }
    }
    LeastMarked(w, MAX_PID);
    return -1;
  }

  /** dealloc_pid of a pid in range */
  method DeallocPid(pids: array<nat>, pid: nat)
    requires PidWords(pids[..]) && pid < MAX_PID
    modifies pids
    ensures PidWords(pids[..]) && PidsOf(pids[..]) == PidsOf(old(pids[..])) - {pid}
  {
    hide Bit, And, Pow2;
    ghost var w: seq<nat> := pids[..];
    var index, offset := pid / 32, pid % 32;
    UnmarkWord(w[index], offset, 0);
    pids[index] := And(pids[index], Not(Pow2(offset)));
    Unmarking(w, pid, pids[index]);
    assert pids[..] == w[index := pids[index]];
  }
}
