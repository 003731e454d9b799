// Sv39 page tables as trees of page frames, and the translation walk of the
// RISC-V Privileged Architecture, version 20211203, sections 4.3.2 and 4.4.
module PageTree {
  import opened Bits
  import opened Pte

  /** The contents of every frame of physical memory. */
  type Mem = map<nat, Page>

  /** The table pages of an address space by their place in the tree: the root,
      the table behind its entry i, and the table behind entry j of that. */
  datatype Node = Root | Mid(i: nat) | Bottom(i: nat, j: nat)

  type Tables = map<Node, nat>

  predicate Proper(n: Node) {
    match n
    case Root => true
    case Mid(i) => i < ENTRIES
    case Bottom(i, j) => i < ENTRIES && j < ENTRIES
  }

  function Child(n: Node, k: nat): Node
    requires !n.Bottom?
  {
    if n.Root? then Mid(k) else Bottom(n.i, k)
  }

  /** Entry k of frame f. */
  function Cell(mem: Mem, f: nat, k: nat): nat
    requires k < ENTRIES
  {
    if f in mem then Entry(mem[f], k) else 0
  }

  /** PPN2PTE(f, PAGE_VALID) */
  function TablePte(f: nat): nat {
    MakePte(f, 1)
  }

  ghost predicate Injective(t: Tables) {
    forall m, n :: m in t && n in t && t[m] == t[n] ==> m == n
  }

  ghost predicate InMemory(mem: Mem, t: Tables) {
    forall n :: n in t ==> Proper(n) && t[n] in mem && t[n] < PPN_LIMIT
  }

  ghost predicate Closed(t: Tables) {
    Root in t && forall i, j :: Bottom(i, j) in t ==> Mid(i) in t
  }

  /** Each entry of an inner table points to a child table or is zero. */
  ghost predicate Pointers(mem: Mem, t: Tables) {
    forall n, k: nat :: n in t && !n.Bottom? && k < ENTRIES ==>
      Cell(mem, t[n], k) == if Child(n, k) in t then TablePte(t[Child(n, k)]) else 0
  }

  /** The frames in t form an unshared three-level tree of tables. */
  ghost predicate Tree(mem: Mem, t: Tables) {
    Closed(t) && InMemory(mem, t) && Injective(t) && Pointers(mem, t)
  }

  function BottomOf(vpn: nat): Node {
    Bottom(Level(vpn, 2), Level(vpn, 1))
  }

  /** The entry that maps a page number; 0 where there is none. */
  function Leaf(mem: Mem, t: Tables, vpn: nat): nat {
    if BottomOf(vpn) in t then Cell(mem, t[BottomOf(vpn)], Level(vpn, 0)) else 0
  }

  // ---------- the hardware's walk ----------

  datatype Translation = Fault | Maps(pte: nat, level: nat)

  predicate Invalid(pte: nat) {
    !Bit(pte, VALID) || (!Bit(pte, READ) && Bit(pte, WRITE))
  }

  predicate IsLeaf(pte: nat) {
    Bit(pte, READ) || Bit(pte, EXEC)
  }

  /** Steps 2 to 5 of section 4.3.2 from the table in frame a at level i. */
  function Walk(mem: Mem, a: nat, vpn: nat, i: nat): Translation
    decreases i
  {
    var pte := Cell(mem, a, Level(vpn, i));
    if Invalid(pte) then Fault
    else if IsLeaf(pte) then Maps(pte, i)
    else if i == 0 then Fault
    else Walk(mem, PtePpn(pte), vpn, i - 1)
  }

  function Meaning(pte: nat): Translation {
    if Invalid(pte) || !IsLeaf(pte) then Fault else Maps(pte, 0)
  }

  lemma TablePteBits(f: nat)
    requires f < PPN_LIMIT
    ensures !Invalid(TablePte(f)) && !IsLeaf(TablePte(f)) && PtePpn(TablePte(f)) == f && TablePte(f) != 0
    ensures !Bit(TablePte(f), WRITE) && TablePte(f) < WORD
  {
    MakePteBits(f, 1, VALID);
    MakePteBits(f, 1, READ);
    MakePteBits(f, 1, WRITE);
    MakePteBits(f, 1, EXEC);
    PpnRoundTrip(f, 1);
    MakePteWord(f, 1);
    ZeroBits(VALID);
  }

  lemma WalkStep(mem: Mem, t: Tables, n: Node, vpn: nat, i: nat)
    requires Tree(mem, t) && n in t && !n.Bottom? && i > 0
    ensures var c := Child(n, Level(vpn, i));
      Walk(mem, t[n], vpn, i) == if c in t then Walk(mem, t[c], vpn, i - 1) else Fault
  {
    hide Level, MakePte, Invalid, IsLeaf, PtePpn;
    var c := Child(n, Level(vpn, i));
    if c in t { TablePteBits(t[c]); } else { ZeroInvalid(); }
  }

  lemma ZeroInvalid()
    ensures Invalid(0) && Meaning(0) == Fault
  {}

  /** The walk of the page-table hardware over the tree finds exactly the leaf
      entry: the table refines a finite map from page numbers to entries. */
  lemma WalkIsLeaf(mem: Mem, t: Tables, vpn: nat)
    requires Tree(mem, t)
    ensures Walk(mem, t[Root], vpn, 2) == Meaning(Leaf(mem, t, vpn))
  {
    hide Level, Invalid, IsLeaf, Cell, Tree;
    TreeHasRoot(mem, t);
    WalkStep(mem, t, Root, vpn, 2);
    var m := Mid(Level(vpn, 2));
    var b := BottomOf(vpn);
    ZeroInvalid();
    if m in t {
      WalkStep(mem, t, m, vpn, 1);
    } else {
      TreeClosed(mem, t, m.i, b.j);
    }
  }

  lemma TreeHasRoot(mem: Mem, t: Tables)
    requires Tree(mem, t)
    ensures Root in t
  {}

  lemma TreeClosed(mem: Mem, t: Tables, i: nat, j: nat)
    requires Tree(mem, t)
    ensures Bottom(i, j) in t ==> Mid(i) in t
  {}

  // ---------- changing memory ----------

  /** Memory keeps its frames, and all contents outside s. */
  ghost predicate Keeps(m: Mem, m': Mem, s: set<nat>) {
    m.Keys == m'.Keys && forall f :: f in m && f !in s ==> m'[f] == m[f]
  }

  ghost predicate SameLeaves(m: Mem, t: Tables, m': Mem, t': Tables) {
    forall v: nat :: Leaf(m', t', v) == Leaf(m, t, v)
  }

  /** A tree whose table frames are untouched is unchanged. */
  lemma TreeFrame(mem: Mem, mem': Mem, t: Tables, s: set<nat>)
    requires Tree(mem, t) && Keeps(mem, mem', s) && t.Values !! s
    ensures Tree(mem', t) && SameLeaves(mem, t, mem', t)
  {
    hide Entry, Level, TablePte;
    assert forall n :: n in t ==> t[n] in t.Values;
    forall v: nat ensures Leaf(mem', t, v) == Leaf(mem, t, v) {
    }
  }

  /** Linking a fresh zeroed frame as a child table adds no mapping. */
  lemma AddTable(mem: Mem, t: Tables, n: Node, k: nat, f: nat)
    requires Tree(mem, t) && n in t && !n.Bottom? && k < ENTRIES && Child(n, k) !in t
    requires f in mem && f !in t.Values && f < PPN_LIMIT && mem[f] == ZeroPage()
    ensures var mem' := mem[t[n] := SetEntry(mem[t[n]], k, TablePte(f))]; var t' := t[Child(n, k) := f];
      Tree(mem', t') && SameLeaves(mem, t, mem', t')
  {
    hide Entry, SetEntry, TablePte, ZeroPage, Level;
    var p := t[n];
    var mem' := mem[p := SetEntry(mem[p], k, TablePte(f))];
    var c := Child(n, k);
    var t' := t[c := f];
    TablePteBits(f);
    assert p in t.Values && p != f;
    assert forall m :: m in t ==> t[m] in t.Values;
    AddPointers(mem, t, n, k, f);
    forall v: nat ensures Leaf(mem', t', v) == Leaf(mem, t, v) {
      EntryZero(Level(v, 0));
      var b := BottomOf(v);
      if b in t { assert t[b] != p; }
    }
  }

  lemma AddPointers(mem: Mem, t: Tables, n: Node, k: nat, f: nat)
    requires Tree(mem, t) && n in t && !n.Bottom? && k < ENTRIES && Child(n, k) !in t
    requires f in mem && f !in t.Values && f < PPN_LIMIT && mem[f] == ZeroPage()
    ensures Pointers(mem[t[n] := SetEntry(mem[t[n]], k, TablePte(f))], t[Child(n, k) := f])
  {
    hide Entry, SetEntry, TablePte, ZeroPage;
    var p := t[n];
    var mem' := mem[p := SetEntry(mem[p], k, TablePte(f))];
    var c := Child(n, k);
    var t' := t[c := f];
    TablePteBits(f);
    assert forall m :: m in t ==> t[m] in t.Values;
    forall m, j: nat | m in t' && !m.Bottom? && j < ENTRIES
      ensures Cell(mem', t'[m], j) == if Child(m, j) in t' then TablePte(t'[Child(m, j)]) else 0
    {
      EntrySet(mem[p], k, TablePte(f), j);
      EntryZero(j);
      if m == c {
        NoGrandchild(t, n, k, j);
      } else if m != n {
        assert t[m] != p && Child(m, j) != c by { ChildInjective(m, j, n, k); }
      }
    }
  }

  lemma ChildInjective(m: Node, j: nat, n: Node, k: nat)
    requires !m.Bottom? && !n.Bottom?
    ensures Child(m, j) == Child(n, k) <==> m == n && j == k
  {}

  lemma NoGrandchild(t: Tables, n: Node, k: nat, j: nat)
    requires Closed(t) && !n.Bottom? && Child(n, k) !in t && !Child(n, k).Bottom?
    ensures Child(Child(n, k), j) !in t && Child(Child(n, k), j) != Child(n, k)
  {}

  /** Storing a leaf entry changes the mapping of its page number only. */
  lemma SetLeaf(mem: Mem, t: Tables, vpn: nat, pte: nat)
    requires Tree(mem, t) && BottomOf(vpn) in t && pte < WORD
    ensures t[BottomOf(vpn)] in mem
    ensures var f := t[BottomOf(vpn)]; var mem' := mem[f := SetEntry(mem[f], Level(vpn, 0), pte)];
      && Tree(mem', t)
      && forall v: nat :: Leaf(mem', t, v) == if Key(v) == Key(vpn) then pte else Leaf(mem, t, v)
  {
    hide Entry, SetEntry, TablePte, Key, Level;
    var b := BottomOf(vpn);
    var f := t[b];
    var mem' := mem[f := SetEntry(mem[f], Level(vpn, 0), pte)];
    assert forall m :: m in t && m != b ==> t[m] != f;
    assert Pointers(mem', t);
    forall v: nat ensures Leaf(mem', t, v) == if Key(v) == Key(vpn) then pte else Leaf(mem, t, v) {
      LevelsDetermineKey(v, vpn);
      EntrySet(mem[f], Level(vpn, 0), pte, Level(v, 0));
    }
  }
}
