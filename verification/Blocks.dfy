// Aligned power-of-two blocks: the geometry behind the buddy system.
module Blocks {
  import opened Bits
  import opened PowerOfTwo

  /** a is a multiple of 2^k. */
  predicate Aligned(a: nat, k: nat) {
    k == 0 || (a % 2 == 0 && Aligned(a / 2, k - 1))
  }

  /** The bytes addr .. addr + 2^order - 1. */
  datatype Block = Block(addr: nat, order: nat)

  ghost predicate Contains(b: Block, x: nat) {
    b.addr <= x < b.addr + Pow2(b.order)
  }

  ghost predicate Within(b: Block, c: Block) {
    c.addr <= b.addr && b.addr + Pow2(b.order) <= c.addr + Pow2(c.order)
  }

  ghost predicate Disjoint(b: Block, c: Block) {
    b.addr + Pow2(b.order) <= c.addr || c.addr + Pow2(c.order) <= b.addr
  }

  ghost predicate Good(b: Block) {
    Aligned(b.addr, b.order)
  }

  /** Aligned blocks are nested or disjoint. */
  lemma {:induction false} Laminar(a: nat, j: nat, c: nat, k: nat)
    requires Aligned(a, j) && Aligned(c, k) && j <= k
    ensures Within(Block(a, j), Block(c, k)) || Disjoint(Block(a, j), Block(c, k))
    decreases j
  {
    if j > 0 { Laminar(a / 2, j - 1, c / 2, k - 1); }
  }

  lemma {:induction false} AlignedWeaken(a: nat, j: nat, k: nat)
    requires Aligned(a, k) && j <= k
    ensures Aligned(a, j)
    decreases j
  {
    if j > 0 { AlignedWeaken(a / 2, j - 1, k - 1); }
  }

  lemma {:induction false} AlignedAdd(a: nat, k: nat)
    requires Aligned(a, k)
    ensures Aligned(a + Pow2(k), k)
    ensures Aligned(a + Pow2(k), k + 1) <==> !Aligned(a, k + 1)
    ensures a >= Pow2(k) ==> Aligned(a - Pow2(k), k)
    ensures a >= Pow2(k) ==> (Aligned(a - Pow2(k), k + 1) <==> !Aligned(a, k + 1))
    ensures !Aligned(a, k + 1) ==> a >= Pow2(k)
    decreases k
  {
    if k > 0 {
      AlignedAdd(a / 2, k - 1);
      assert (a + Pow2(k)) / 2 == a / 2 + Pow2(k - 1);
      assert a >= Pow2(k) ==> (a - Pow2(k)) / 2 == a / 2 - Pow2(k - 1);
    }
  }

  /** The address the C code forms with `addr ^ (1 << order)`. */
  function BuddyAddr(a: nat, k: nat): nat {
    Xor(a, Pow2(k))
  }

  lemma {:induction false} XorZero(a: nat)
    ensures Xor(a, 0) == a
  {
    if a > 0 { XorZero(a / 2); }
  }

  /** Flipping bit k of a 2^k-aligned address gives the other half of its parent. */
  lemma {:induction false} BuddyAddrIs(a: nat, k: nat)
    requires Aligned(a, k)
    ensures Aligned(a, k + 1) ==> BuddyAddr(a, k) == a + Pow2(k)
    ensures !Aligned(a, k + 1) ==> a >= Pow2(k) && BuddyAddr(a, k) == a - Pow2(k)
    decreases k
  {
    var p := Pow2(k);
    var h := Xor(a / 2, p / 2);
    assert Xor(a, p) == 2 * h + (if a % 2 != p % 2 then 1 else 0);
    if k == 0 {
      XorZero(a / 2);
      assert p == 1;
      assert Aligned(a, 1) <==> a % 2 == 0 && Aligned(a / 2, 0);
    } else {
      BuddyAddrIs(a / 2, k - 1);
      assert p / 2 == Pow2(k - 1);
    }
  }

  /** MIN(current_block, buddy_block): the start of the merged block. */
  function ParentAddr(a: nat, k: nat): nat {
    var b := BuddyAddr(a, k);
    if a < b then a else b
  }

  /** A block and its buddy are the two halves of an aligned block. */
  lemma Halves(a: nat, k: nat)
    requires Aligned(a, k)
    ensures var p := ParentAddr(a, k); var b := BuddyAddr(a, k);
      && Aligned(b, k) && a != b
      && Aligned(p, k + 1)
      && ((p == a && b == a + Pow2(k)) || (p == b && a == b + Pow2(k)))
      && BuddyAddr(b, k) == a
  {
    BuddyAddrIs(a, k);
    AlignedAdd(a, k);
    BuddyAddrIs(BuddyAddr(a, k), k);
  }

  /** current & (~current + 1), on 64-bit words */
  function LowBit(a: nat): nat
    requires a < WORD
  {
    And(a, (WORD - 1 - a + 1) % WORD)
  }

  lemma {:induction false} AndComplement(a: nat, n: nat)
    requires a < Pow2(n)
    ensures And(a, Pow2(n) - 1 - a) == 0
    decreases n
  {
    if n > 0 {
      var c := Pow2(n) - 1 - a;
      AndComplement(a / 2, n - 1);
      assert c / 2 == Pow2(n - 1) - 1 - a / 2;
      assert And(a, c) == if a + c == 0 then 0 else 2 * And(a / 2, c / 2) + (if a % 2 == 1 && c % 2 == 1 then 1 else 0);
    } else {
      assert And(0, 0) == 0;
    }
  }

  /** The number of trailing zero bits. */
  function Trailing(a: nat): nat
    requires a > 0
  {
    if a % 2 == 1 then 0 else 1 + Trailing(a / 2)
  }

  lemma {:induction false} TrailingAligned(a: nat)
    requires a > 0
    ensures Aligned(a, Trailing(a)) && !Aligned(a, Trailing(a) + 1)
  {
    if a % 2 == 0 { TrailingAligned(a / 2); }
  }

  lemma {:induction false} AndNegated(a: nat, n: nat)
    requires 0 < a < Pow2(n)
    ensures And(a, Pow2(n) - a) == Pow2(Trailing(a))
    decreases n
  {
    var c := Pow2(n) - a;
    assert And(a, c) == 2 * And(a / 2, c / 2) + (if a % 2 == 1 && c % 2 == 1 then 1 else 0);
    if a % 2 == 0 {
      AndNegated(a / 2, n - 1);
      assert c / 2 == Pow2(n - 1) - a / 2;
    } else {
      assert c / 2 == Pow2(n - 1) - 1 - a / 2;
      AndComplement(a / 2, n - 1);
    }
  }

  /** lowbit is the largest power of two dividing the address. */
  lemma LowBitIs(a: nat)
    requires 0 < a < WORD
    ensures LowBit(a) == Pow2(Trailing(a))
    ensures Aligned(a, Trailing(a)) && !Aligned(a, Trailing(a) + 1)
  {
    hide And, Pow2, Trailing, Aligned;
    Pow2At64();
    AndNegated(a, 64);
    TrailingAligned(a);
  }
}
