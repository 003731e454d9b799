// kernel/mapping.h and kernel/mapping.c, lines 34-43: page-table entries and
// virtual page numbers, and their layout in page frames of 4096 bytes.
module Pte {
  import opened Bits
  import opened PowerOfTwo
  import opened Bytes

  type Page = s: seq<byte> | |s| == 4096 witness seq(4096, _ => 0)

  const ENTRIES: nat := 512
  const PPN_LIMIT: nat := 0x1000_0000_0000   // 2^44
  const FLAG_LIMIT: nat := 1024
  const PPN_MASK: nat := 0x003f_ffff_ffff_fc00

  const VALID: nat := 0
  const READ: nat := 1
  const WRITE: nat := 2
  const EXEC: nat := 3

  // ---------- entries ----------

  /** PPN2PTE */
  function MakePte(ppn: nat, flags: nat): nat {
    Or(Shl(ppn, 10), flags)
  }

  /** PTE2PPN */
  function PtePpn(pte: nat): nat {
    Shr(And(pte, PPN_MASK), 10)
  }

  lemma {:induction false} ShiftedBits(n: nat, k: nat, i: nat)
    ensures Bit(n * Pow2(k), k + i) <==> Bit(n, i)
    ensures i < k ==> !Bit(n * Pow2(k), i)
    decreases k
  {
    if k > 0 {
      var h := n * Pow2(k - 1);
      assert n * Pow2(k) == 2 * h;
      ShiftedBits(n, k - 1, i);
      if i > 0 { ShiftedBits(n, k - 1, i - 1); }
    }
  }

  lemma Pow2At10()
    ensures Pow2(10) == 1024 && Pow2(44) == PPN_LIMIT && PPN_MASK == (Pow2(44) - 1) * Pow2(10)
  {
    assert Pow2(10) == 1024;
    assert Pow2(20) == 0x10_0000;
    assert Pow2(30) == 0x4000_0000;
    assert Pow2(40) == 0x100_0000_0000;
  }

  lemma ShlSmall(ppn: nat)
    requires ppn < PPN_LIMIT
    ensures Shl(ppn, 10) == ppn * Pow2(10)
  {
    Pow2At10();
  }

  /** The flag bits and the frame number of an entry keep apart. */
  lemma MakePteBits(ppn: nat, flags: nat, i: nat)
    requires ppn < PPN_LIMIT && flags < FLAG_LIMIT
    ensures i < 10 ==> (Bit(MakePte(ppn, flags), i) <==> Bit(flags, i))
    ensures i >= 10 ==> (Bit(MakePte(ppn, flags), i) <==> Bit(ppn, i - 10))
  {
    hide Or, Bit, Shl;
    Pow2At10();
    ShlSmall(ppn);
    OrBit(Shl(ppn, 10), flags, i);
    if i < 10 { ShiftedBits(ppn, 10, i); } else { ShiftedBits(ppn, 10, i - 10); BitsBelow(flags, 10); }
  }

  lemma MaskBits(i: nat)
    ensures Bit(PPN_MASK, 10 + i) <==> i < 44
  {
    hide Bit, Pow2;
    Pow2At10();
    ShiftedBits(Pow2(44) - 1, 10, i);
    OnesBits(44, i);
  }

  /** PTE2PPN undoes PPN2PTE for 44-bit frame numbers. */
  lemma PpnRoundTrip(ppn: nat, flags: nat)
    requires ppn < PPN_LIMIT && flags < FLAG_LIMIT
    ensures PtePpn(MakePte(ppn, flags)) == ppn
  {
    hide MakePte, And, Shr, Bit, Or, Pow2;
    var pte := MakePte(ppn, flags);
    forall i: nat ensures Bit(PtePpn(pte), i) <==> Bit(ppn, i) {
      ShrBit(And(pte, PPN_MASK), 10, i);
      AndBit(pte, PPN_MASK, 10 + i);
      MakePteBits(ppn, flags, 10 + i);
      MaskBits(i);
      if i >= 44 { Pow2At10(); BitsBelow(ppn, 44); }
    }
    SameBits(PtePpn(pte), ppn);
  }

  lemma Pow2At2()
    ensures Pow2(2) == 4
  {}

  /** PTE2PA */
  function PtePa(pte: nat): nat {
    Shl(And(pte, PPN_MASK), 2)
  }

  /** PTE2PA is the address of the frame that PTE2PPN names. */
  lemma PtePaIsFrame(pte: nat)
    ensures PtePa(pte) == PtePpn(pte) * 4096
  {
    hide Bit, And, Shr, Low, Pow2;
    var x := And(pte, PPN_MASK);
    Pow2At10();
    Pow2At2();
    assert x <= PPN_MASK by { AndAtMost(pte, PPN_MASK); }
    LowIs(x, 10);
    forall i: nat ensures Bit(Low(x, 10), i) <==> Bit(0, i) {
      ZeroBits(i);
      LowBits(x, 10, i);
      AndBit(pte, PPN_MASK, i);
      if i < 10 { Pow2At10(); ShiftedBits(Pow2(44) - 1, 10, i); }
    }
    SameBits(Low(x, 10), 0);
  }

  lemma HighBitsClear(n: nat, k: nat)
    requires forall i: nat :: k <= i ==> !Bit(n, i)
    ensures n < Pow2(k)
  {
    hide Bit, Pow2, Log2;
    if n >= Pow2(k) {
      Log2Bounds(n);
      Log2Bit(n);
      if Log2(n) < k { Pow2Mono(Log2(n) + 1, k); }
    }
  }

  lemma MakePteWord(ppn: nat, flags: nat)
    requires flags < WORD
    ensures MakePte(ppn, flags) < WORD
  {
    hide Bit, Pow2, Or;
    Pow2At64();
    var a := Shl(ppn, 10);
    BitsBelow(a, 64);
    BitsBelow(flags, 64);
    forall i: nat | 64 <= i ensures !Bit(Or(a, flags), i) { OrBit(a, flags, i); }
    HighBitsClear(Or(a, flags), 64);
  }

  // ---------- virtual page numbers ----------

  /** get_vpn_levels: the 9-bit index of a page number at a level. */
  function Level(vpn: nat, i: nat): (r: nat)
    ensures r < ENTRIES
  {
    AndAtMost(Shr(vpn, 9 * i), 0x1ff);
    And(Shr(vpn, 9 * i), 0x1ff)
  }

  function Levels(vpn: nat): (nat, nat, nat) {
    (Level(vpn, 0), Level(vpn, 1), Level(vpn, 2))
  }

  lemma LevelBits(vpn: nat, i: nat, j: nat)
    ensures Bit(Level(vpn, i), j) <==> j < 9 && Bit(vpn, 9 * i + j)
  {
    hide Bit, And, Shr, Pow2;
    AndBit(Shr(vpn, 9 * i), 0x1ff, j);
    ShrBit(vpn, 9 * i, j);
    Pow2At9();
    OnesBits(9, j);
  }

  lemma Pow2At9()
    ensures Pow2(9) == 0x200
  {}

  /** The part of a page number that Sv39 translates: its low 27 bits. */
  const KEYS: nat := 0x800_0000

  function Key(vpn: nat): nat {
    vpn % KEYS
  }

  /** n mod 2^k, one bit at a time. */
  function Low(n: nat, k: nat): nat {
    if k == 0 then 0 else 2 * Low(n / 2, k - 1) + n % 2
  }

  lemma Double(p: nat, s: nat)
    ensures 2 * p * s == 2 * (p * s)
  {}

  lemma {:induction false} LowIs(n: nat, k: nat)
    ensures n == Pow2(k) * Shr(n, k) + Low(n, k) && Low(n, k) < Pow2(k)
    decreases k
  {
    if k > 0 {
      var p, s, h, l := Pow2(k - 1), Shr(n / 2, k - 1), n / 2, Low(n / 2, k - 1);
      LowIs(h, k - 1);
      assert Pow2(k) == 2 * p && Shr(n, k) == s && Low(n, k) == 2 * l + n % 2;
      hide *;
      Double(p, s);
    }
  }

  lemma {:induction false} LowBits(n: nat, k: nat, i: nat)
    ensures Bit(Low(n, k), i) <==> i < k && Bit(n, i)
    decreases k
  {
    if k == 0 { ZeroBits(i); } else if i > 0 {
      assert Low(n, k) / 2 == Low(n / 2, k - 1);
      LowBits(n / 2, k - 1, i - 1);
    }
  }

  lemma KeyIsLow(vpn: nat)
    ensures Key(vpn) == Low(vpn, 27)
  {
    hide Low, Shr;
    assert Pow2(9) == 0x200;
    assert Pow2(18) == 0x4_0000;
    assert Pow2(27) == KEYS;
    LowIs(vpn, 27);
  }

  /** Two page numbers use the same entries exactly when their keys agree. */
  lemma LevelsDetermineKey(a: nat, b: nat)
    ensures Levels(a) == Levels(b) <==> Key(a) == Key(b)
  {
    hide Level, Low, Bit, Key;
    KeyIsLow(a);
    KeyIsLow(b);
    if Levels(a) == Levels(b) {
      forall i: nat ensures Bit(Low(a, 27), i) <==> Bit(Low(b, 27), i) {
        LowBits(a, 27, i);
        LowBits(b, 27, i);
        if i < 27 { BitOfLevel(a, i); BitOfLevel(b, i); }
      }
      SameBits(Low(a, 27), Low(b, 27));
    }
    if Key(a) == Key(b) {
      SameKeyLevel(a, b, 0);
      SameKeyLevel(a, b, 1);
      SameKeyLevel(a, b, 2);
    }
  }

  lemma BitOfLevel(vpn: nat, i: nat)
    requires i < 27
    ensures i < 9 ==> (Bit(vpn, i) <==> Bit(Levels(vpn).0, i))
    ensures 9 <= i < 18 ==> (Bit(vpn, i) <==> Bit(Levels(vpn).1, i - 9))
    ensures 18 <= i ==> (Bit(vpn, i) <==> Bit(Levels(vpn).2, i - 18))
  {
    hide Level, Bit;
    if i < 9 { LevelBits(vpn, 0, i); }
    else if i < 18 { LevelBits(vpn, 1, i - 9); }
    else { LevelBits(vpn, 2, i - 18); }
  }

  lemma SameKeyLevel(a: nat, b: nat, i: nat)
    requires Low(a, 27) == Low(b, 27) && i < 3
    ensures Level(a, i) == Level(b, i)
  {
    hide Level, Low, Bit;
    forall j: nat ensures Bit(Level(a, i), j) <==> Bit(Level(b, i), j) {
      LevelBits(a, i, j);
      LevelBits(b, i, j);
      LowBits(a, 27, 9 * i + j);
      LowBits(b, 27, 9 * i + j);
    }
    SameBits(Level(a, i), Level(b, i));
  }

  lemma LevelIsLow(vpn: nat, i: nat)
    ensures Level(vpn, i) == Low(Shr(vpn, 9 * i), 9)
  {
    hide Level, Low, Bit, Shr;
    forall j: nat ensures Bit(Level(vpn, i), j) <==> Bit(Low(Shr(vpn, 9 * i), 9), j) {
      LevelBits(vpn, i, j);
      LowBits(Shr(vpn, 9 * i), 9, j);
      ShrBit(vpn, 9 * i, j);
    }
    SameBits(Level(vpn, i), Low(Shr(vpn, 9 * i), 9));
  }

  lemma {:induction false} ShrShr(n: nat, a: nat, b: nat)
    ensures Shr(Shr(n, a), b) == Shr(n, a + b)
    decreases a
  {
    if a > 0 { ShrShr(n / 2, a - 1, b); }
  }

  lemma SplitAt512(h: nat, l: nat)
    requires l < ENTRIES
    ensures Shr(512 * h + l, 9) == h && Low(512 * h + l, 9) == l
  {
    hide Low, Shr;
    Pow2At9();
    LowIs(512 * h + l, 9);
  }

  /** The page number with given indices at the three levels. */
  function VpnAt(i: nat, j: nat, k: nat): nat {
    512 * (512 * i + j) + k
  }

  lemma VpnAtLevels(i: nat, j: nat, k: nat)
    requires i < ENTRIES && j < ENTRIES && k < ENTRIES
    ensures Levels(VpnAt(i, j, k)) == (k, j, i)
  {
    hide Level, Low, Shr;
    var v := VpnAt(i, j, k);
    LevelIsLow(v, 0);
    LevelIsLow(v, 1);
    LevelIsLow(v, 2);
    ShrNone(v);
    SplitAt512(512 * i + j, k);
    SplitAt512(i, j);
    SplitAt512(0, i);
    ShrShr(v, 9, 9);
  }

  lemma ShrNone(n: nat)
    ensures Shr(n, 0) == n
  {}

  lemma ShlBits(n: nat, k: nat, i: nat)
    ensures Bit(Shl(n, k), i) <==> i < 64 && Bit(n * Pow2(k), i)
  {
    hide Low, Shr, Bit, Pow2;
    var x := n * Pow2(k);
    Pow2At64();
    LowIs(x, 64);
    LowBits(x, 64, i);
    assert x % WORD == Low(x, 64);
  }

  /** The low ten bits of an entry are its flags, whatever the frame number. */
  lemma FlagBits(ppn: nat, flags: nat, i: nat)
    requires i < 10
    ensures Bit(MakePte(ppn, flags), i) <==> Bit(flags, i)
  {
    hide Or, Bit, Shl, Pow2;
    OrBit(Shl(ppn, 10), flags, i);
    ShlBits(ppn, 10, i);
    ShiftedBits(ppn, 10, i);
  }

  // ---------- entries in page frames ----------

  /** A table is an array of 512 64-bit numbers. */
  lemma TableEntry(p: Page, entries: seq<nat>, i: nat)
    requires |entries| == 512 && (forall k: nat :: k < 512 ==> entries[k] < Pow2(64)) && p == Words(entries, 8)
    requires i < ENTRIES
    ensures Entry(p, i) == entries[i]
  {
    hide ToLe, Le, Pow2, Words;
    assert p[0..0 + 8 * |entries|] == p;
    WordAt(p, 0, entries, 8, i);
  }

  /** Entry i of a page used as a table. */
  function Entry(p: Page, i: nat): nat
    requires i < ENTRIES
  {
    Le(p[8 * i..8 * i + 8])
  }

  function SetEntry(p: Page, i: nat, v: nat): Page
    requires i < ENTRIES
  {
    p[..8 * i] + ToLe(v, 8) + p[8 * i + 8..]
  }

  lemma SliceSet(p: seq<byte>, a: nat, x: seq<byte>, b: nat)
    requires |x| == 8 && a + 8 <= |p| && b + 8 <= |p| && (a == b || a + 8 <= b || b + 8 <= a)
    ensures (p[..a] + x + p[a + 8..])[b..b + 8] == if a == b then x else p[b..b + 8]
  {}

  lemma EntrySet(p: Page, i: nat, v: nat, j: nat)
    requires i < ENTRIES && j < ENTRIES && v < WORD
    ensures Entry(SetEntry(p, i, v), j) == if i == j then v else Entry(p, j)
  {
    hide Le, ToLe, Pow2;
    SliceSet(p, 8 * i, ToLe(v, 8), 8 * j);
    Pow2At64();
    LeRoundTrip(v, 8);
  }

  function ZeroPage(): Page {
    seq(4096, _ => 0)
  }

  lemma EntryZero(i: nat)
    requires i < ENTRIES
    ensures Entry(ZeroPage(), i) == 0
  {
    LeZero(ZeroPage()[8 * i..8 * i + 8]);
  }
}
