// Little-endian numbers in byte sequences.
module Bytes {
  import opened Bits

  type byte = b: nat | b < 256

  /** A little-endian number. */
  function Le(s: seq<byte>): nat {
    if s == [] then 0 else s[0] + 256 * Le(s[1..])
  }

  function ToLe(v: nat, n: nat): (s: seq<byte>)
    ensures |s| == n
  {
    if n == 0 then [] else [v % 256] + ToLe(v / 256, n - 1)
  }

  lemma {:induction false} LeRoundTrip(v: nat, n: nat)
    requires v < Pow2(8 * n)
    ensures Le(ToLe(v, n)) == v
    decreases n
  {
    if n > 0 {
      Pow2By8(n - 1);
      LeRoundTrip(v / 256, n - 1);
      var t := ToLe(v / 256, n - 1);
      assert ToLe(v, n) == [v % 256] + t;
      assert ([v % 256] + t)[1..] == t;
    }
  }

  lemma Pow2By8(m: nat)
    ensures Pow2(8 * (m + 1)) == 256 * Pow2(8 * m)
  {
    var k := 8 * m;
    assert Pow2(k + 2) == 4 * Pow2(k);
    assert Pow2(k + 4) == 4 * Pow2(k + 2);
    assert Pow2(k + 6) == 4 * Pow2(k + 4);
    assert Pow2(k + 8) == 4 * Pow2(k + 6);
  }

  lemma {:induction false} LeZero(s: seq<byte>)
    requires forall i :: 0 <= i < |s| ==> s[i] == 0
    ensures Le(s) == 0
  {
    if s != [] { LeZero(s[1..]); }
  }

  /** The n-byte number at offset off. */
  function Get(s: seq<byte>, off: nat, n: nat): nat
    requires off + n <= |s|
  {
    Le(s[off..off + n])
  }

  /** s with the n bytes at offset off replaced by the number v. */
  function Put(s: seq<byte>, off: nat, n: nat, v: nat): (r: seq<byte>)
    requires off + n <= |s|
    ensures |r| == |s|
  {
    s[..off] + ToLe(v, n) + s[off + n..]
  }

  lemma GetPut(s: seq<byte>, off: nat, n: nat, v: nat)
    requires off + n <= |s| && v < Pow2(8 * n)
    ensures Get(Put(s, off, n, v), off, n) == v
  {
    hide Le, Pow2;
    LeRoundTrip(v, n);
    assert Put(s, off, n, v)[off..off + n] == ToLe(v, n);
  }

  /** A number stored behind the bytes a is read back. */
  lemma GetField(s: seq<byte>, off: nat, a: seq<byte>, v: nat, n: nat, b: seq<byte>)
    requires off + |a| + n + |b| <= |s| && v < Pow2(8 * n)
    requires s[off..off + |a| + n + |b|] == a + ToLe(v, n) + b
    ensures Get(s, off + |a|, n) == v
  {
    hide Le, Pow2, ToLe;
    LeRoundTrip(v, n);
    var u := s[off + |a|..off + |a| + n];
    var t := s[off..off + |a| + n + |b|];
    forall i: nat | i < n ensures u[i] == ToLe(v, n)[i] {
      assert t[|a| + i] == (a + ToLe(v, n) + b)[|a| + i];
    }
    assert u == ToLe(v, n);
  }

  /** Numbers of n bytes each, one after the other */
  function Words(vs: seq<nat>, n: nat): (s: seq<byte>)
    ensures |s| == n * |vs|
  {
    if vs == [] then [] else ToLe(vs[0], n) + Words(vs[1..], n)
  }

  lemma {:induction false} WordsSplit(vs: seq<nat>, n: nat, k: nat)
    requires k < |vs|
    ensures Words(vs, n) == Words(vs[..k], n) + ToLe(vs[k], n) + Words(vs[k + 1..], n)
  {
    hide ToLe;
    if k == 0 {
      assert vs[..0] == [] && vs[0 + 1..] == vs[1..];
    } else {
      WordsSplit(vs[1..], n, k - 1);
      assert vs[1..][..k - 1] == vs[..k][1..] && vs[1..][k - 1 + 1..] == vs[k + 1..];
      assert vs[..k][0] == vs[0];
    }
  }

  /** Number k of an array is read at its place. */
  lemma WordAt(s: seq<byte>, off: nat, vs: seq<nat>, n: nat, k: nat)
    requires k < |vs| && vs[k] < Pow2(8 * n) && off + n * |vs| <= |s| && s[off..off + n * |vs|] == Words(vs, n)
    ensures 0 <= n * k && n * k + n <= n * |vs| && Get(s, off + n * k, n) == vs[k]
  {
    hide ToLe, Get, Pow2, Words;
    WordsSplit(vs, n, k);
    GetField(s, off, Words(vs[..k], n), vs[k], n, Words(vs[k + 1..], n));
  }

  lemma GetPutOther(s: seq<byte>, off: nat, n: nat, v: nat, off2: nat, n2: nat)
    requires off + n <= |s| && off2 + n2 <= |s| && (off + n <= off2 || off2 + n2 <= off)
    ensures Get(Put(s, off, n, v), off2, n2) == Get(s, off2, n2)
    ensures Put(s, off, n, v)[off2..off2 + n2] == s[off2..off2 + n2]
  {
    hide Le;
    var r := Put(s, off, n, v);
    assert r[off2..off2 + n2] == s[off2..off2 + n2];
  }

  lemma {:induction false} SumBits(a: nat, b: nat, k: nat, i: nat)
    requires a < Pow2(k)
    ensures Bit(a + Pow2(k) * b, i) <==> if i < k then Bit(a, i) else Bit(b, i - k)
    decreases k
  {
    if k > 0 {
      var c := Pow2(k - 1) * b;
      assert Pow2(k) * b == 2 * c;
      SumBits(a / 2, b, k - 1, if i == 0 then 0 else i - 1);
      assert (a + 2 * c) / 2 == a / 2 + c && (a + 2 * c) % 2 == a % 2;
    }
  }

  /** The bits of byte i are the eight bits from bit 8 * i on. */
  lemma {:induction false} LeBits(s: seq<byte>, i: nat, j: nat)
    requires i < |s| && j < 8
    ensures Bit(Le(s), 8 * i + j) <==> Bit(s[i], j)
  {
    hide Bit;
    assert Pow2(4) == 16;
    assert Pow2(8) == 256;
    SumBits(s[0], Le(s[1..]), 8, 8 * i + j);
    if i > 0 { LeBits(s[1..], i - 1, j); }
  }

  lemma {:induction false} LeBound(s: seq<byte>)
    ensures Le(s) < Pow2(8 * |s|)
  {
    if s != [] {
      LeBound(s[1..]);
      Pow2By8(|s| - 1);
    }
  }
}
