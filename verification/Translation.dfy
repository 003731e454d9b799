// What the page-table hardware finds at an address, by the walk of section 4.3.2
// of the RISC-V Privileged Architecture.
module Translation {
  import opened Bits
  import opened Bytes
  import opened Pte
  import opened PageTree
  import opened PageRange

  /** The walk accepts a valid entry with these flags as a leaf: readable, or
      executable and not writable. */
  ghost predicate Translates(flags: nat) {
    Bit(flags, READ) || (Bit(flags, EXEC) && !Bit(flags, WRITE))
  }

  /** The walk for an address ends at a level-0 entry with these flags, whose
      frame holds byte b at the address's offset. */
  ghost predicate Reads(m: Mem, root: nat, va: nat, flags: nat, b: byte) {
    var w := Walk(m, root, va / PAGE_SIZE, 2);
    && w.Maps? && w.level == 0 && (forall i: nat :: i < 10 ==> (Bit(w.pte, i) <==> Bit(flags, i)))
    && PtePpn(w.pte) in m && m[PtePpn(w.pte)][va % PAGE_SIZE] == b
  }

  lemma MeaningOf(ppn: nat, flags: nat)
    requires Bit(flags, VALID)
    ensures var pte := MakePte(ppn, flags); Meaning(pte) == if Translates(flags) then Maps(pte, 0) else Fault
  {
    hide MakePte, Bit;
    FlagBits(ppn, flags, VALID);
    FlagBits(ppn, flags, READ);
    FlagBits(ppn, flags, WRITE);
    FlagBits(ppn, flags, EXEC);
  }

  /** A mapped page translates exactly when its flags make it a leaf. */
  lemma WalkOfEntry(m: Mem, t: Tables, v: nat, ppn: nat, flags: nat)
    requires Tree(m, t) && Leaf(m, t, v) == MakePte(ppn, flags) && Bit(flags, VALID)
    ensures Root in t
    ensures Walk(m, t[Root], v, 2) == if Translates(flags) then Maps(MakePte(ppn, flags), 0) else Fault
  {
    hide Tree, Leaf, MakePte, Bit, Meaning, Walk;
    TreeHasRoot(m, t);
    WalkIsLeaf(m, t, v);
    MeaningOf(ppn, flags);
  }

  /** A page without an entry does not translate. */
  lemma WalkOfNothing(m: Mem, t: Tables, v: nat)
    requires Tree(m, t) && Leaf(m, t, v) == 0
    ensures Root in t && Walk(m, t[Root], v, 2) == Fault
  {
    hide Tree, Leaf, Walk;
    TreeHasRoot(m, t);
    WalkIsLeaf(m, t, v);
    ZeroInvalid();
  }

  lemma ReadsWhen(m: Mem, t: Tables, va: nat, f: nat, flags: nat, b: byte)
    requires Tree(m, t) && Leaf(m, t, va / PAGE_SIZE) == MakePte(f, flags)
    requires f < PPN_LIMIT && flags < FLAG_LIMIT && Bit(flags, VALID)
    requires f in m && m[f][va % PAGE_SIZE] == b
    ensures Root in t && (Reads(m, t[Root], va, flags, b) <==> Translates(flags))
    ensures !Translates(flags) ==> Walk(m, t[Root], va / PAGE_SIZE, 2) == Fault
  {
    hide Tree, Leaf, MakePte, PtePpn, Bit, Walk, Translates;
    WalkOfEntry(m, t, va / PAGE_SIZE, f, flags);
    PpnRoundTrip(f, flags);
    forall i: nat | i < 10 ensures Bit(MakePte(f, flags), i) <==> Bit(flags, i) {
      FlagBits(f, flags, i);
    }
  }
}
