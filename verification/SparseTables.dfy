/** Tables for which `com_mm_vmm_unmap` (`src/com/mm/vmm.c`) leaves a page of its range mapped: a program that has
    mapped page 512 and nothing below it, next to the kernel's own root. */
module SparseTables {
  import opened Options
  import opened Pages
  import opened Digits
  import opened PageTable
  import opened MmuCode
  import opened Cow
  import opened VmmView
  import opened VmmCode

  /** A link or a mapping to `frame`. */
  function To(frame: nat): Pte { Pte(frame, true, true, true, false, false, false, 0) }

  /** A table with one entry. */
  function One(i: nat, e: Pte): seq<Pte> { seq(FANOUT, j => if j == i then e else ZERO_PTE) }

  /** The page of the kernel table that slot `i` of every root links. */
  function KernelTable(i: nat): nat { 1000 + i }

  predicate IsKernelTable(p: nat) { KernelTable(USER_SLOTS) <= p < KernelTable(FANOUT) }

  /** A root with first entry `e` and the kernel's half. */
  function Root(e: Pte): seq<Pte> {
    seq(FANOUT, j requires j >= 0 => if j == 0 then e else if j >= USER_SLOTS then To(KernelTable(j)) else ZERO_PTE)
  }

  const SPACE: nat := 1
  const KROOT: nat := 5

  predicate IsTable(p: nat) { 1 <= p <= 5 || IsKernelTable(p) }

  function Row(p: nat): seq<Pte> {
    if p == SPACE then Root(To(2))
    else if p == 2 then One(0, To(3))
    else if p == 3 then One(1, To(4))
    else if p == 4 then One(0, To(9))
    else if p == KROOT then Root(ZERO_PTE)
    else One(0, ZERO_PTE)
  }

  function Sparse(): Tables { map p: nat | p < 2000 && IsTable(p) :: Row(p) }

  function Owner(p: nat): Place
    requires IsTable(p)
  {
    if p == SPACE then Place(SPACE, 4, 0)
    else if p == 2 then Place(SPACE, 3, 0)
    else if p == 3 then Place(SPACE, 2, 0)
    else if p == 4 then Place(SPACE, 1, 1)
    else if p == KROOT then Place(KROOT, 4, 0)
    else Place(KERNEL, 3, p - 1000)
  }

  function SparseOwners(): Owners { map p: nat | p < 2000 && IsTable(p) :: Owner(p) }

  /** The rest of the state: page 9 has its one reference, page 7 is the zero page. */
  function SparseMem(): Mem {
    Mem({SPACE}, map[(SPACE, 512) := To(9)], map[9 := 1, 7 := 1], map[9 := 0, 7 := 1],
        map[9 := ZeroBytes(), 7 := ZeroBytes()], 7)
  }

  lemma TableAt(p: nat)
    ensures p in Sparse() <==> IsTable(p)
    ensures p in SparseOwners() <==> IsTable(p)
    ensures IsTable(p) ==> Sparse()[p] == Row(p) && SparseOwners()[p] == Owner(p)
  {}

  lemma RowOk(p: nat)
    requires IsTable(p)
    ensures p in Sparse() && p in SparseOwners() && TableOk(Sparse(), SparseOwners(), p)
  {
    hide Sparse, SparseOwners;
    var t, o := Sparse(), SparseOwners();
    TableAt(p);
    assert |Row(p)| == FANOUT;
    forall i | 0 <= i < FANOUT ensures LinkOk(t, o, p, i) {
      TableAt(Row(p)[i].frame);
    }
  }

  /** They are tables the kernel can have: every root shares the kernel's half. */
  lemma SparseOk()
    ensures MmuOk(Sparse(), SparseOwners(), [], KROOT) && SPACE in RootsOf(Sparse(), SparseOwners())
  {
    hide Sparse, SparseOwners, TableOk;
    var t, o := Sparse(), SparseOwners();
    forall p: nat ensures (p in t <==> IsTable(p)) && (p in o <==> IsTable(p)) { TableAt(p); }
    forall p | p in t ensures TableOk(t, o, p) { RowOk(p); }
    TableAt(SPACE);
    TableAt(KROOT);
    forall r | r in t && r in o && o[r].level == LEVELS
      ensures |t[r]| == FANOUT && t[r][USER_SLOTS..] == t[KROOT][USER_SLOTS..]
    {
      TableAt(r);
    }
    assert NULL_FRAME !in t;
  }

  lemma Walks(v: nat)
    requires v < USER_PAGES
    ensures Leaf(Sparse(), SPACE, LEVELS, v) == if v / FANOUT == 1 then Some(4) else None
  {
    hide Sparse;
    var t := Sparse();
    TableAt(SPACE);
    TableAt(2);
    TableAt(3);
    assert Index(4, v) == Up(3, v) % FANOUT && Index(3, v) == Up(2, v) % FANOUT && Index(2, v) == Up(1, v) % FANOUT;
    assert Up(3, v) == Up(2, v) / FANOUT && Up(2, v) == Up(1, v) / FANOUT && Up(1, v) == v / FANOUT;
    assert Up(3, v) < USER_SLOTS;
    assert Leaf(t, SPACE, 4, v) == if Index(4, v) == 0 then Leaf(t, 2, 3, v) else None;
    assert Leaf(t, 2, 3, v) == if Index(3, v) == 0 then Leaf(t, 3, 2, v) else None;
    assert Leaf(t, 3, 2, v) == if Index(2, v) == 1 then Leaf(t, 4, 1, v) else None;
  }

  /** Page 512 is all that is mapped. */
  lemma SparseTabs()
    ensures TabsOf(Sparse(), {SPACE}) == map[(SPACE, 512) := To(9)]
  {
    hide Sparse, Leaf, TabsOf;
    TableAt(4);
    forall k: Slot ensures k in TabsOf(Sparse(), {SPACE}) <==> k == (SPACE, 512) {
      TabsAt(Sparse(), {SPACE}, k);
      if k.0 == SPACE && k.1 < USER_PAGES { Walks(k.1); }
    }
    TabsAt(Sparse(), {SPACE}, (SPACE, 512));
    Walks(512);
  }

  lemma SparseInv()
    ensures Inv(SparseMem())
  {
    var m := SparseMem();
    assert Mappers(m.tabs, 9) == {(SPACE, 512)} && Mappers(m.tabs, 7) == {};
  }

  /** Unmapping the first 513 pages of this address space, which every precondition of the code allows, stops
      at page 0 and leaves page 512 mapped. */
  lemma SparseStops(done: nat)
    requires done <= 513 && (forall w :: 0 <= w < done ==> HasLeaf(Sparse(), SPACE, w))
    requires done < 513 ==> !HasLeaf(Sparse(), SPACE, done)
    ensures MmuOk(Sparse(), SparseOwners(), [], KROOT) && SPACE in RootsOf(Sparse(), SparseOwners())
    ensures Inv(SparseMem()) && SparseMem().tabs == TabsOf(Sparse(), SparseMem().spaces)
    ensures done == 0 && UnmapRange(SparseMem(), SPACE, 0, done) == SparseMem()
    ensures (SPACE, 512) in SparseMem().tabs && !AllReached(Sparse(), SparseMem().tabs, SPACE, 0, 513)
  {
    hide Leaf, MmuOk, RootsOf, TabsOf, Inv, Sparse, SparseOwners;
    SparseOk();
    SparseTabs();
    SparseInv();
    Walks(0);
    assert !HasLeaf(Sparse(), SPACE, 0);
    assert !Reached(Sparse(), SPACE, 0, 512);
  }
}
