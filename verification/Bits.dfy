// Unsigned machine words as natural numbers, with the C bit operators
// defined bit by bit.  Every definition recurses by halving, so the proofs
// need linear arithmetic only.
module Bits {

  const WORD: nat := 0x1_0000_0000_0000_0000  // 2^64

  function Pow2(k: nat): (p: nat)
    ensures p > 0
  {
    if k == 0 then 1 else 2 * Pow2(k - 1)
  }

  /** Bit i of n. */
  predicate Bit(n: nat, i: nat) {
    if i == 0 then n % 2 == 1 else Bit(n / 2, i - 1)
  }

  function Or(a: nat, b: nat): nat
    decreases a + b
  {
    if a + b == 0 then 0
    else 2 * Or(a / 2, b / 2) + (if a % 2 == 1 || b % 2 == 1 then 1 else 0)
  }

  function And(a: nat, b: nat): nat
    decreases a + b
  {
    if a + b == 0 then 0
    else 2 * And(a / 2, b / 2) + (if a % 2 == 1 && b % 2 == 1 then 1 else 0)
  }

  function Xor(a: nat, b: nat): nat
    decreases a + b
  {
    if a + b == 0 then 0
    else 2 * Xor(a / 2, b / 2) + (if a % 2 != b % 2 then 1 else 0)
  }

  /** n >> k */
  function Shr(n: nat, k: nat): nat {
    if k == 0 then n else Shr(n / 2, k - 1)
  }

  /** n << k, truncated to 64 bits */
  function Shl(n: nat, k: nat): nat {
    n * Pow2(k) % WORD
  }

  lemma {:induction false} OrBit(a: nat, b: nat, i: nat)
    ensures Bit(Or(a, b), i) <==> Bit(a, i) || Bit(b, i)
    decreases i
  {
    var h := Or(a / 2, b / 2);
    assert Or(a, b) == 2 * h + (if a % 2 == 1 || b % 2 == 1 then 1 else 0);
    if i > 0 { OrBit(a / 2, b / 2, i - 1); }
  }

  lemma {:induction false} AndBit(a: nat, b: nat, i: nat)
    ensures Bit(And(a, b), i) <==> Bit(a, i) && Bit(b, i)
    decreases i
  {
    var h := And(a / 2, b / 2);
    assert And(a, b) == 2 * h + (if a % 2 == 1 && b % 2 == 1 then 1 else 0);
    if i > 0 { AndBit(a / 2, b / 2, i - 1); }
  }

  lemma {:induction false} ShrBit(n: nat, k: nat, i: nat)
    ensures Bit(Shr(n, k), i) <==> Bit(n, k + i)
    decreases k
  {
    if k > 0 { ShrBit(n / 2, k - 1, i); }
  }

  lemma {:induction false} ZeroBits(i: nat)
    ensures !Bit(0, i)
  {
    if i > 0 { ZeroBits(i - 1); }
  }

  /** Two numbers with the same bits are equal. */
  lemma {:induction false} SameBits(a: nat, b: nat)
    requires forall i: nat :: Bit(a, i) <==> Bit(b, i)
    ensures a == b
    decreases a + b
  {
    assert Bit(a, 0) <==> Bit(b, 0);
    if a + b > 0 {
      forall i: nat ensures Bit(a / 2, i) <==> Bit(b / 2, i) {
        assert Bit(a, i + 1) <==> Bit(b, i + 1);
      }
      SameBits(a / 2, b / 2);
    }
  }

  /** Bits at and above k vanish exactly below 2^k. */
  lemma {:induction false} BitsBelow(n: nat, k: nat)
    requires n < Pow2(k)
    ensures forall i: nat :: k <= i ==> !Bit(n, i)
    decreases k
  {
    if k == 0 {
      forall i: nat ensures !Bit(n, i) { ZeroBits(i); }
    } else {
      BitsBelow(n / 2, k - 1);
      forall i: nat | k <= i ensures !Bit(n, i) {
        assert !Bit(n / 2, i - 1);
      }
    }
  }

  /** 2^k - 1 is the number whose bits below k are set and no others. */
  lemma {:induction false} OnesBits(k: nat, i: nat)
    ensures Bit(Pow2(k) - 1, i) <==> i < k
    decreases k
  {
    if k == 0 { ZeroBits(i); }
    else if i > 0 { OnesBits(k - 1, i - 1); assert (Pow2(k) - 1) / 2 == Pow2(k - 1) - 1; }
  }

  lemma {:induction false} Pow2Mono(a: nat, b: nat)
    requires a <= b
    ensures Pow2(a) <= Pow2(b)
    ensures a < b ==> 2 * Pow2(a) <= Pow2(b)
  {
    if a < b { Pow2Mono(a, b - 1); }
  }

  lemma FieldBounds()
    ensures Pow2(16) == 0x1_0000 && Pow2(32) == 0x1_0000_0000
  {
    assert Pow2(8) == 0x100;
    assert Pow2(16) == 0x1_0000;
    assert Pow2(24) == 0x100_0000;
  }

  lemma {:induction false} Pow2Bit(k: nat, i: nat)
    ensures Bit(Pow2(k), i) <==> i == k
  {
    if k == 0 {
      if i > 0 { ZeroBits(i - 1); }
    } else if i > 0 {
      Pow2Bit(k - 1, i - 1);
      assert Pow2(k) / 2 == Pow2(k - 1);
    }
  }

  lemma {:induction false} OrBelow(a: nat, b: nat, k: nat)
    requires a < Pow2(k) && b < Pow2(k)
    ensures Or(a, b) < Pow2(k)
    decreases k
  {
    if k > 0 && a + b > 0 { OrBelow(a / 2, b / 2, k - 1); }
  }

  lemma OrPow2Bound(w: nat, i: nat)
    requires w < Pow2(32) && i < 32
    ensures Or(w, Pow2(i)) < Pow2(32)
  {
    hide Or, Pow2;
    Pow2Mono(i, 32);
    OrBelow(w, Pow2(i), 32);
  }

  lemma AndHalves(a: nat, b: nat)
    ensures And(a, b) == 2 * And(a / 2, b / 2) + (if a % 2 == 1 && b % 2 == 1 then 1 else 0)
  {}

  lemma {:induction false} AndNone(a: nat)
    ensures And(a, 0) == 0
  {
    if a > 0 { AndNone(a / 2); }
  }

  lemma {:induction false} AndAtMost(a: nat, b: nat)
    ensures And(a, b) <= a && And(a, b) <= b
    decreases a + b
  {
    if a + b > 0 { AndAtMost(a / 2, b / 2); }
  }

  /** The code's test of one bit. */
  lemma {:induction false} AndPow2(w: nat, k: nat)
    ensures And(w, Pow2(k)) != 0 <==> Bit(w, k)
    decreases k
  {
    var p := Pow2(k);
    AndHalves(w, p);
    if k == 0 {
      AndNone(w / 2);
    } else {
      assert p / 2 == Pow2(k - 1);
      AndPow2(w / 2, k - 1);
    }
  }
}
