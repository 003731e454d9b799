// kernel/buddy_system_allocator.c, lines 101-134: rounding sizes to powers of
// two.  Sizes are uint64, so the arithmetic wraps at 2^64.
module PowerOfTwo {
  import opened Bits

  const MAX_SIZE: nat := 0x8000_0000_0000_0000  // 2^63

  function Smear(n: nat, k: nat): nat {
    Or(n, Shr(n, k))
  }

  function SmearAll(n: nat): nat {
    var n := Smear(n, 1);
    var n := Smear(n, 2);
    var n := Smear(n, 4);
    var n := Smear(n, 8);
    var n := Smear(n, 16);
    Smear(n, 32)
  }

  function NextPowerOfTwo(size: nat): nat
    requires size < WORD
  {
    var n := (size + WORD - 1) % WORD;
    (SmearAll(n) + 1) % WORD
  }

  function PrevPowerOfTwo(size: nat): nat
    requires size < WORD
  {
    var next := NextPowerOfTwo(size);
    if size == next then size else Shr(next, 1)
  }

  /** The exponent of the highest set bit; 0 for 0, as the loop of get_order gives. */
  function Log2(n: nat): (k: nat) {
    if n <= 1 then 0 else 1 + Log2(n / 2)
  }

  method GetOrder(size: nat) returns (order: nat)
    ensures order == Log2(size)
  {
    order := 0;
    var rest := size;
    while rest > 1
      invariant order + Log2(rest) == Log2(size)
      decreases rest
    {
      assert Shr(rest, 1) == Shr(rest / 2, 0) == rest / 2;
      rest := Shr(rest, 1);
      order := order + 1;
    }
  }

  lemma {:induction false} Log2Bounds(n: nat)
    requires n > 0
    ensures Pow2(Log2(n)) <= n < Pow2(Log2(n) + 1)
  {
    if n > 1 { Log2Bounds(n / 2); }
  }

  lemma {:induction false} Log2Bit(n: nat)
    requires n > 0
    ensures Bit(n, Log2(n))
  {
    if n > 1 { Log2Bit(n / 2); }
  }

  lemma {:induction false} Log2Unique(n: nat, k: nat)
    requires Pow2(k) <= n < Pow2(k + 1)
    ensures Log2(n) == k
  {
    if k > 0 { Log2Unique(n / 2, k - 1); }
  }

  lemma Log2Below(n: nat, k: nat)
    requires 0 < n < Pow2(k)
    ensures Log2(n) < k
  {
    Log2Bounds(n);
    if k <= Log2(n) { Pow2Mono(k, Log2(n)); }
  }

  /** get_order inverts 2^k. */
  lemma {:induction false} Log2OfPow2(k: nat)
    ensures Log2(Pow2(k)) == k
  {
    if k > 0 { Log2OfPow2(k - 1); assert Pow2(k) / 2 == Pow2(k - 1); }
  }

  /** Bit i of the smear over width w is set iff some bit of n in i..i+w-1 is. */
  ghost predicate Smeared(n: nat, w: nat, r: nat) {
    forall i: nat :: Bit(r, i) <==> SomeBit(n, i, w)
  }

  ghost predicate SomeBit(n: nat, i: nat, w: nat) {
    exists t: nat :: i <= t < i + w && Bit(n, t)
  }

  lemma SmearDoubles(n: nat, w: nat, r: nat)
    requires Smeared(n, w, r)
    ensures Smeared(n, 2 * w, Smear(r, w))
  {
    forall i: nat ensures Bit(Smear(r, w), i) <==> SomeBit(n, i, 2 * w) {
      OrBit(r, Shr(r, w), i);
      ShrBit(r, w, i);
      assert Bit(Smear(r, w), i) <==> SomeBit(n, i, w) || SomeBit(n, w + i, w);
    }
  }

  lemma SmearAllBits(n: nat)
    ensures Smeared(n, 64, SmearAll(n))
  {
    assert Smeared(n, 1, n) by {
      forall i: nat ensures Bit(n, i) <==> SomeBit(n, i, 1) { if Bit(n, i) { assert i <= i < i + 1; } }
    }
    var n1 := Smear(n, 1);   SmearDoubles(n, 1, n);
    var n2 := Smear(n1, 2);  SmearDoubles(n, 2, n1);
    var n4 := Smear(n2, 4);  SmearDoubles(n, 4, n2);
    var n8 := Smear(n4, 8);  SmearDoubles(n, 8, n4);
    var n16 := Smear(n8, 16); SmearDoubles(n, 16, n8);
    SmearDoubles(n, 32, n16);
  }

  /** The full smear of a nonzero word sets every bit up to its highest one. */
  lemma SmearedOnes(n: nat, r: nat)
    requires 0 < n < WORD && Smeared(n, 64, r)
    ensures r == Pow2(Log2(n) + 1) - 1
  {
    var m := Log2(n);
    var ones := Pow2(m + 1) - 1;
    Log2Bounds(n); Log2Bit(n); BitsBelow(n, m + 1);
    Pow2At64();
    Log2Below(n, 64);
    forall i: nat ensures Bit(r, i) <==> Bit(ones, i) {
      OnesBits(m + 1, i);
      assert Bit(r, i) <==> SomeBit(n, i, 64);
      if i <= m {
        assert i <= m < i + 64 && Bit(n, m);
      } else {
        assert !SomeBit(n, i, 64);
      }
    }
    SameBits(r, ones);
  }

  lemma Pow2At64()
    ensures Pow2(64) == WORD && Pow2(63) == MAX_SIZE
  {
    assert Pow2(8) == 0x100;
    assert Pow2(16) == 0x1_0000;
    assert Pow2(24) == 0x100_0000;
    assert Pow2(32) == 0x1_0000_0000;
    assert Pow2(40) == 0x100_0000_0000;
    assert Pow2(48) == 0x1_0000_0000_0000;
    assert Pow2(56) == 0x100_0000_0000_0000;
  }

  /** All ones up to the highest bit of n. */
  function TopOnes(n: nat): nat {
    if n == 0 then 0 else Pow2(Log2(n) + 1) - 1
  }

  lemma SmearAllTopOnes(n: nat)
    requires n < WORD
    ensures SmearAll(n) == TopOnes(n)
  {
    SmearAllBits(n);
    var r := SmearAll(n);
    if n > 0 {
      SmearedOnes(n, r);
    } else {
      forall i: nat ensures Bit(r, i) <==> Bit(0, i) {
        ZeroBits(i);
        forall t: nat ensures !Bit(0, t) { ZeroBits(t); }
        assert Bit(r, i) <==> SomeBit(n, i, 64);
      }
      SameBits(r, 0);
    }
  }

  /** What next_power_of_two computes, written with logarithms. */
  function RoundUp(size: nat): nat {
    if 1 < size <= MAX_SIZE then Pow2(Log2(size - 1) + 1) else if size == 1 then 1 else 0
  }

  lemma TopOnesWraps(size: nat)
    requires size < WORD
    ensures (TopOnes((size + WORD - 1) % WORD) + 1) % WORD == RoundUp(size)
  {
    var n := (size + WORD - 1) % WORD;
    assert n == if size == 0 then WORD - 1 else size - 1;
    if n > 0 {
      Pow2At64();
      Log2Bounds(n);
      Log2Below(n, 64);
      if n >= MAX_SIZE {
        if Log2(n) < 63 { Pow2Mono(Log2(n) + 1, 63); }
      } else {
        Log2Below(n, 63);
        Pow2Mono(Log2(n) + 1, 63);
      }
    }
  }

  lemma NextIsRoundUp(size: nat)
    requires size < WORD
    ensures NextPowerOfTwo(size) == RoundUp(size)
  {
    SmearAllTopOnes((size + WORD - 1) % WORD);
    TopOnesWraps(size);
  }

  /** p is the least power of two that is at least size. */
  ghost predicate LeastAbove(size: nat, p: nat) {
    p == Pow2(Log2(p)) && size <= p && forall k: nat :: size <= Pow2(k) ==> p <= Pow2(k)
  }

  /** p is the greatest power of two that is at most size. */
  ghost predicate GreatestBelow(size: nat, p: nat) {
    p == Pow2(Log2(p)) && p <= size && forall k: nat :: Pow2(k) <= size ==> Pow2(k) <= p
  }

  lemma RoundUpLeast(size: nat)
    ensures LeastAbove(size, RoundUp(size)) <==> 1 <= size <= MAX_SIZE
  {
    if size == 1 {
      assert Pow2(0) == 1;
    } else if 1 < size <= MAX_SIZE {
      var m := Log2(size - 1);
      Log2Bounds(size - 1);
      Log2OfPow2(m + 1);
      forall k: nat | size <= Pow2(k) ensures Pow2(m + 1) <= Pow2(k) {
        if k <= m { Pow2Mono(k, m); } else { Pow2Mono(m + 1, k); }
      }
    }
  }

  /** next_power_of_two gives the least power of two at or above size exactly
      for the sizes 1..2^63; for 0 and for larger sizes it wraps to 0. */
  lemma NextPowerOfTwoLeast(size: nat)
    requires size < WORD
    ensures LeastAbove(size, NextPowerOfTwo(size)) <==> 1 <= size <= MAX_SIZE
    ensures !(1 <= size <= MAX_SIZE) ==> NextPowerOfTwo(size) == 0
  {
    var p := NextPowerOfTwo(size);
    assert p == RoundUp(size) by { NextIsRoundUp(size); }
    RoundUpLeast(size);
  }

  lemma RoundDownGreatest(size: nat)
    requires size > 0
    ensures GreatestBelow(size, Pow2(Log2(size)))
  {
    var m := Log2(size);
    Log2Bounds(size);
    Log2OfPow2(m);
    forall k: nat | Pow2(k) <= size ensures Pow2(k) <= Pow2(m) {
      if k > m { Pow2Mono(m + 1, k); } else { Pow2Mono(k, m); }
    }
  }

  lemma RoundDownFromUp(size: nat)
    requires 1 <= size <= MAX_SIZE
    ensures Pow2(Log2(size)) == if size == RoundUp(size) then size else Shr(RoundUp(size), 1)
  {
    if size > 1 {
      hide Log2, Shr, Pow2;
      var j := Log2(size - 1);
      assert RoundUp(size) == Pow2(j + 1);
      Log2Bounds(size - 1);
      RoundDownIs(size, j);
      ShrPow2(j);
    }
  }

  lemma RoundDownIs(size: nat, j: nat)
    requires Pow2(j) < size <= Pow2(j + 1)
    ensures Pow2(Log2(size)) == if size == Pow2(j + 1) then size else Pow2(j)
  {
    hide Log2, Pow2;
    if size == Pow2(j + 1) { Log2OfPow2(j + 1); } else { Log2Unique(size, j); }
  }

  lemma ShrPow2(j: nat)
    ensures Shr(Pow2(j + 1), 1) == Pow2(j)
  {
    var p := Pow2(j);
    assert Pow2(j + 1) == 2 * p;
    assert Shr(2 * p, 1) == Shr(2 * p / 2, 0) == p;
  }

  /** prev_power_of_two gives the greatest power of two at or below size exactly
      for the sizes 1..2^63; for 0 and for larger sizes it gives 0. */
  lemma PrevPowerOfTwoGreatest(size: nat)
    requires size < WORD
    ensures GreatestBelow(size, PrevPowerOfTwo(size)) <==> 1 <= size <= MAX_SIZE
    ensures PrevPowerOfTwo(size) == if 1 <= size <= MAX_SIZE then Pow2(Log2(size)) else 0
  {
    hide NextPowerOfTwo, Log2;
    NextIsRoundUp(size);
    if 1 <= size <= MAX_SIZE {
      RoundDownFromUp(size);
      RoundDownGreatest(size);
    } else {
      ShrZero();
    }
  }

  lemma ShrZero()
    ensures Shr(0, 1) == 0
  {}
}
