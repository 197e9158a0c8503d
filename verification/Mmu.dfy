/** The page-table code of `src/platform/x86-64/mmu.c`, working in place on a memory of table
    pages.  `pool` stands for the per-CPU cache of zeroed table pages and `refs` for `num_ref` of
    the pages in state TAKEN. */
module MmuCode {
  import opened Options
  import opened Pages
  import opened Digits
  import opened Arith
  import opened PageTable
  import opened PageTableFork

  /** The upper half of every root is the kernel root's, and fully linked. */
  ghost predicate KernelHalf(t: Tables, o: Owners, kroot: nat) {
    && kroot in t && kroot in o && o[kroot].level == LEVELS && |t[kroot]| == FANOUT
    && (forall r :: r in t && r in o && o[r].level == LEVELS ==>
          |t[r]| == FANOUT && t[r][USER_SLOTS..] == t[kroot][USER_SLOTS..])
    && (forall i :: USER_SLOTS <= i < FANOUT ==> t[kroot][i] != ZERO_PTE)
  }

  /** Every table of the old memory keeps its place and every translation its value. */
  ghost predicate Grows(t: Tables, o: Owners, t': Tables, o': Owners) {
    && (forall p :: p in o ==> p in o' && o'[p] == o[p])
    && (forall p, s, k, v :: On(t, o, p, s, k, v) ==> On(t', o', p, s, k, v) && Entry(t', p, k, v) == Entry(t, p, k, v))
  }

  lemma LinkGrows(t: Tables, o: Owners, p: nat, i: nat, n: nat, link: Pte)
    requires Wf(t, o) && p in t && o[p].level >= 2 && i < |t[p]| && n !in t && t[p][i] == ZERO_PTE
    requires link.frame == n && link != ZERO_PTE
    ensures Grows(t, o, Linked(t, p, i, n, link), o[n := ChildPlace(o[p], i)])
  {
    forall x, s, k, v | On(t, o, x, s, k, v) ensures Entry(Linked(t, p, i, n, link), x, k, v) == Entry(t, x, k, v) {
      LinkEntry(t, o, p, i, n, link, x, s, k, v);
    }
  }

  lemma LinkKernelHalf(t: Tables, o: Owners, kroot: nat, p: nat, i: nat, n: nat, link: Pte)
    requires Wf(t, o) && KernelHalf(t, o, kroot) && p in t && 2 <= o[p].level && i < |t[p]| && n !in t
    requires t[p][i] == ZERO_PTE
    ensures KernelHalf(Linked(t, p, i, n, link), o[n := ChildPlace(o[p], i)], kroot)
  {
    assert TableOk(t, o, p);
    assert forall j :: USER_SLOTS <= j < FANOUT ==> t[kroot][j] == t[kroot][USER_SLOTS..][j - USER_SLOTS];
    var t' := Linked(t, p, i, n, link);
    forall r | r in t' && r != n && o[r].level == LEVELS
      ensures |t'[r]| == FANOUT && t'[r][USER_SLOTS..] == t[r][USER_SLOTS..]
    {}
  }

  /** The root slot of a page number tells whether it is a kernel address. */
  lemma RootIndex(v: nat)
    requires v < ALL_PAGES
    ensures Up(LEVELS, v) == 0
    ensures Index(LEVELS, v) >= USER_SLOTS <==> v >= USER_PAGES
    ensures Index(1, v) == v % FANOUT
  {
  }

  lemma IndexRange(v: nat)
    ensures Index(4, v) < FANOUT && Index(3, v) < FANOUT && Index(2, v) < FANOUT
  {}

  const PTMASK: nat := 0x1F_F000
  const PDMASK: nat := 0x3FE0_0000
  const PDPTMASK: nat := 0x7F_C000_0000
  const PML4MASK: nat := 0xFF80_0000_0000

  /** A masked field of an address, shifted down. */
  function Field(addr: nat, mask: nat, shift: nat): nat { Shr(BitAnd(addr, mask), shift) }

  /** The four masks and shifts take the four digits of the page number of any address. */
  lemma Offsets(addr: nat)
    ensures Field(addr, PTMASK, 12) == Index(1, addr / PAGE_SIZE)
    ensures Field(addr, PDMASK, 21) == Index(2, addr / PAGE_SIZE)
    ensures Field(addr, PDPTMASK, 30) == Index(3, addr / PAGE_SIZE)
    ensures Field(addr, PML4MASK, 39) == Index(4, addr / PAGE_SIZE)
  {
    hide BitAnd, Shr, Pow2;
    MaskSizes();
    OneOffset(addr, 0);
    OneOffset(addr, 1);
    OneOffset(addr, 2);
    OneOffset(addr, 3);
  }

  lemma MaskSizes()
    ensures PTMASK == 511 * Pow2(12) && PDMASK == 511 * Pow2(21) && PDPTMASK == 511 * Pow2(30)
    ensures PML4MASK == 511 * Pow2(39)
  {
    assert Pow2(9) == 512 && Pow2(12) == 4096;
    Pow2Sum(12, 9);
    Pow2Sum(21, 9);
    Pow2Sum(30, 9);
  }

  lemma OneOffset(addr: nat, k: nat)
    ensures Field(addr, 511 * Pow2(12 + 9 * k), 12 + 9 * k) == Index(k + 1, addr / PAGE_SIZE)
  {
    hide BitAnd, Shr;
    MaskShift(addr, 511, 12 + 9 * k);
    assert Pow2(9) == 512;
    MaskMod(Shr(addr, 12 + 9 * k), 9);
    ShrPage(addr);
    ShrDigits(addr, 12, k);
  }

  lemma ShrPage(addr: nat)
    ensures Shr(addr, 12) == addr / PAGE_SIZE
  {
    hide Shr;
    assert Shr(addr, 0) == addr by { ShrNone(addr); }
    NineHalves(addr, 0);
    ThreeHalves(addr, 9);
  }

  lemma ShrNone(x: nat)
    ensures Shr(x, 0) == x
  {}

  /** Nine more bits shifted out are one more digit dropped. */
  lemma {:induction false} ShrDigits(x: nat, b: nat, k: nat)
    ensures Shr(x, b + 9 * k) == Up(k, Shr(x, b))
  {
    hide Shr;
    if k > 0 {
      ShrDigits(x, b, k - 1);
      NineHalves(x, b + 9 * (k - 1));
    }
  }

  /** The links a complete walk goes through. */
  lemma LeafLinks(t: Tables, top: nat, v: nat)
    requires Leaf(t, top, LEVELS, v).Some?
    ensures top in t && |t[top]| == FANOUT && t[top][Index(4, v)] != ZERO_PTE
    ensures var a := t[top][Index(4, v)].frame; a in t && |t[a]| == FANOUT && t[a][Index(3, v)] != ZERO_PTE
    ensures var b := t[t[top][Index(4, v)].frame][Index(3, v)].frame;
            b in t && |t[b]| == FANOUT && t[b][Index(2, v)] != ZERO_PTE
  {
    var a := t[top][Index(4, v)].frame;
    assert Leaf(t, top, 4, v) == Leaf(t, a, 3, v);
    var b := t[a][Index(3, v)].frame;
    assert Leaf(t, a, 3, v) == Leaf(t, b, 2, v);
  }

  /** A root stands at the top of its own address space. */
  lemma RootOn(t: Tables, o: Owners, r: nat, v: nat)
    requires Wf(t, o) && r in t && o[r].level == LEVELS && v < ALL_PAGES
    ensures On(t, o, r, r, LEVELS, v) && SpaceAt(r, LEVELS, v) == (if v >= USER_PAGES then KERNEL else r) && r != KERNEL
  {
    RootIndex(v);
    assert TableOk(t, o, r);
  }

  lemma GrowsRoots(t: Tables, o: Owners, t': Tables, o': Owners)
    requires Wf(t, o) && Grows(t, o, t', o')
    ensures forall r: nat, w: nat :: r in t && o[r].level == LEVELS && w < ALL_PAGES ==>
              Entry(t', r, LEVELS, w) == Entry(t, r, LEVELS, w)
  {
    forall r: nat, w: nat | r in t && o[r].level == LEVELS && w < ALL_PAGES
      ensures Entry(t', r, LEVELS, w) == Entry(t, r, LEVELS, w)
    {
      RootOn(t, o, r, w);
    }
  }

  /** Three links lead from a root to a leaf table. */
  lemma WalkDown(t: Tables, top: nat, v: nat, a: nat, b: nat, c: nat)
    requires top in t && a in t && b in t && |t[top]| == |t[a]| == |t[b]| == FANOUT
    requires t[top][Index(4, v)] != ZERO_PTE && t[top][Index(4, v)].frame == a
    requires t[a][Index(3, v)] != ZERO_PTE && t[a][Index(3, v)].frame == b
    requires t[b][Index(2, v)] != ZERO_PTE && t[b][Index(2, v)].frame == c
    ensures Leaf(t, top, LEVELS, v) == Some(c)
  {
    assert Leaf(t, b, 2, v) == Leaf(t, c, 1, v);
    assert Leaf(t, a, 3, v) == Leaf(t, b, 2, v);
  }

  /** The entry written for `v` through root `top` is seen at `v` alone, and from another root
      only when `v` is a kernel address. */
  lemma PutSeen(t: Tables, o: Owners, kroot: nat, top: nat, v: nat, q: nat, e: Pte, r: nat, w: nat)
    requires Wf(t, o) && KernelHalf(t, o, kroot) && top in t && o[top].level == LEVELS && r in t && o[r].level == LEVELS
    requires v < ALL_PAGES && w < ALL_PAGES && Leaf(t, top, LEVELS, v) == Some(q) && q in t && o[q].level == 1
    requires |t[q]| == FANOUT
    ensures Entry(t[q := t[q][v % FANOUT := e]], r, LEVELS, w) ==
            if w == v && (r == top || v >= USER_PAGES) then e else Entry(t, r, LEVELS, w)
  {
    RootOn(t, o, r, w);
    RootOn(t, o, top, v);
    PutLeafEntry(t, o, q, v % FANOUT, e, r, r, LEVELS, w);
    LeafPlace(t, o, top, top, LEVELS, v);
    LeafPlace(t, o, r, r, LEVELS, w);
    assert Up(1, v) == v / FANOUT && Up(1, w) == w / FANOUT;
    if w == v && v >= USER_PAGES { KernelLeaf(t, o, kroot, top, r, v); }
  }

  /** A kernel address leads to the same leaf table from every root. */
  lemma KernelLeaf(t: Tables, o: Owners, kroot: nat, top: nat, r: nat, v: nat)
    requires Wf(t, o) && KernelHalf(t, o, kroot) && top in t && o[top].level == LEVELS && r in t && o[r].level == LEVELS
    requires USER_PAGES <= v < ALL_PAGES
    ensures Leaf(t, r, LEVELS, v) == Leaf(t, top, LEVELS, v)
    ensures Entry(t, r, LEVELS, v) == Entry(t, top, LEVELS, v)
  {
    RootIndex(v);
    var i := Index(LEVELS, v);
    assert t[r][i] == t[r][USER_SLOTS..][i - USER_SLOTS] && t[top][i] == t[top][USER_SLOTS..][i - USER_SLOTS];
  }

  lemma PutKernelHalf(t: Tables, o: Owners, kroot: nat, q: nat, i: nat, e: Pte)
    requires KernelHalf(t, o, kroot) && q in t && q in o && o[q].level < LEVELS && i < |t[q]|
    ensures KernelHalf(t[q := t[q][i := e]], o, kroot)
  {
  }

  ghost predicate MmuOk(t: Tables, o: Owners, pool: seq<nat>, kroot: nat) {
    && Wf(t, o)
    && KernelHalf(t, o, kroot)
    && (forall i :: 0 <= i < |pool| ==> pool[i] !in t && pool[i] != NULL_FRAME)
    && (forall i, j :: 0 <= i < j < |pool| ==> pool[i] != pool[j])
  }

  ghost function RootsOf(t: Tables, o: Owners): set<nat> {
    set r | r in t && r in o && o[r].level == LEVELS
  }

  /** Writing the leaf slot of `v` below root `top`: the tables stay in order, the roots and leaf tables
      are the same, and the entry is seen at `v` alone. */
  lemma WriteLeaf(t: Tables, o: Owners, pool: seq<nat>, kroot: nat, top: nat, v: nat, q: nat, e: Pte)
    requires MmuOk(t, o, pool, kroot) && top in RootsOf(t, o) && v < ALL_PAGES && (e != ZERO_PTE ==> e.present)
    requires Leaf(t, top, LEVELS, v) == Some(q) && q in t && q in o && o[q].level == 1
    ensures |t[q]| == FANOUT && t[q][v % FANOUT] == Entry(t, top, LEVELS, v)
    ensures var t' := t[q := t[q][v % FANOUT := e]];
      && MmuOk(t', o, pool, kroot) && RootsOf(t', o) == RootsOf(t, o)
      && (forall r: nat, w: nat :: r in RootsOf(t, o) && w < ALL_PAGES ==>
            Entry(t', r, LEVELS, w) == if w == v && (r == top || v >= USER_PAGES) then e else Entry(t, r, LEVELS, w))
      && (forall r: nat, w: nat :: r in RootsOf(t, o) && w < ALL_PAGES ==>
            Leaf(t', r, LEVELS, w) == Leaf(t, r, LEVELS, w))
  {
    assert TableOk(t, o, q);
    PutLeafWf(t, o, q, v % FANOUT, e);
    PutKernelHalf(t, o, kroot, q, v % FANOUT, e);
    hide Entry, Leaf;
    var t' := t[q := t[q][v % FANOUT := e]];
    forall r: nat, w: nat | r in RootsOf(t, o) && w < ALL_PAGES
      ensures Entry(t', r, LEVELS, w) == if w == v && (r == top || v >= USER_PAGES) then e else Entry(t, r, LEVELS, w)
      ensures Leaf(t', r, LEVELS, w) == Leaf(t, r, LEVELS, w)
    {
      PutSeen(t, o, kroot, top, v, q, e, r, w);
      RootOn(t, o, r, w);
      PutLeafEntry(t, o, q, v % FANOUT, e, r, r, LEVELS, w);
    }
    LeafEntry(t, top, v, q);
  }

  lemma NoLeaf(t: Tables, top: nat, v: nat)
    requires Leaf(t, top, LEVELS, v).None?
    ensures Entry(t, top, LEVELS, v) == ZERO_PTE
  {}

  lemma LeafEntry(t: Tables, top: nat, v: nat, q: nat)
    requires Leaf(t, top, LEVELS, v) == Some(q) && q in t && |t[q]| == FANOUT
    ensures Entry(t, top, LEVELS, v) == t[q][v % FANOUT]
  {}

  /** The pool stays clear of the tables when its first page becomes an empty table. */
  lemma OkAdd(t: Tables, o: Owners, pool: seq<nat>, kroot: nat, n: nat, pl: Place)
    requires MmuOk(t, o, pool, kroot) && n !in t && n != NULL_FRAME && n !in pool && 1 <= pl.level < LEVELS
    ensures MmuOk(t[n := EmptyTable()], o[n := pl], pool, kroot)
    ensures RootsOf(t[n := EmptyTable()], o[n := pl]) == RootsOf(t, o)
  {
    var t', o' := t[n := EmptyTable()], o[n := pl];
    forall q | q in t' ensures TableOk(t', o', q) {
      if q != n { assert TableOk(t, o, q); }
      forall j | 0 <= j < FANOUT ensures LinkOk(t', o', q, j) { if q != n { assert LinkOk(t, o, q, j); } }
    }
  }

  lemma OkWf(t: Tables, o: Owners, pool: seq<nat>, kroot: nat)
    requires MmuOk(t, o, pool, kroot)
    ensures Wf(t, o)
  {
  }

  /** Linking a table below the roots keeps the state sound. */
  lemma OkWrite(t: Tables, o: Owners, pool: seq<nat>, kroot: nat, n: nat, i: nat, r: Pte)
    requires MmuOk(t, o, pool, kroot) && n in t && n in o && 2 <= o[n].level && i < |t[n]|
    requires o[n].level == LEVELS ==> i < USER_SLOTS
    requires r.present && r.frame in t && r.frame in o
    requires o[r.frame] == Place(o[n].space, o[n].level - 1, Sub(o[n].prefix, i))
    ensures MmuOk(t[n := t[n][i := r]], o, pool, kroot)
    ensures RootsOf(t[n := t[n][i := r]], o) == RootsOf(t, o)
  {
    var t' := t[n := t[n][i := r]];
    forall q | q in t' ensures TableOk(t', o, q) {
      assert TableOk(t, o, q);
      forall j | 0 <= j < FANOUT ensures LinkOk(t', o, q, j) { assert LinkOk(t, o, q, j); }
    }
  }

  lemma SlotPresent(t0: Tables, o0: Owners, t: Tables, o: Owners, p: nat, n: nat, s: nat, c: nat, level: nat,
                    prefix: nat, i: nat)
    requires Copying(t0, o0, t, o, p, n, s, c, level, prefix, i) && i < FANOUT && |t[p]| == FANOUT
    ensures t[p][i] != ZERO_PTE ==> t[p][i].present
  {
    assert TableOk(t, o, p);
    assert LinkOk(t, o, p, i);
  }

  lemma LeafTaken(r0: map<nat, nat>, r: map<nat, nat>, t0: Tables, o0: Owners, t: Tables, o: Owners,
                  p: nat, n: nat, s: nat, c: nat, prefix: nat, i: nat)
    requires Copying(t0, o0, t, o, p, n, s, c, 1, prefix, i) && i < FANOUT && prefix < Cap(1) && |t[p]| == FANOUT
    requires FramesTaken(r0, t0, p, 1, prefix) && Counted(r0, r, t0, p, 1, prefix, i) && t[p][i] != ZERO_PTE
    ensures t[p][i].frame in r && Sub(prefix, i) < Cap(0)
  {
    PendingSlot(t0, o0, t, o, p, n, s, c, 1, prefix, i);
    assert Covered(1, prefix, Sub(prefix, i));
    assert TakenAt(r0, t0, p, 1, Sub(prefix, i));
  }

  /** The state stays sound when slots of tables below the roots are rewritten. */
  lemma OkCopied(t0: Tables, o0: Owners, t: Tables, o: Owners, p: nat, n: nat, s: nat, c: nat, level: nat, prefix: nat,
                 i: nat,
                 t1: Tables, o1: Owners, i1: nat, pool: seq<nat>, kroot: nat)
    requires Copying(t0, o0, t, o, p, n, s, c, level, prefix, i)
    requires Copying(t0, o0, t1, o1, p, n, s, c, level, prefix, i1)
    requires MmuOk(t, o, pool, kroot) && t1.Keys == t.Keys && level < LEVELS
    ensures MmuOk(t1, o1, pool, kroot) && RootsOf(t1, o1) == RootsOf(t, o)
  {
    assert forall r :: r in t && o[r].level == LEVELS ==> r in t0 && !InSub(o0, r, s, level, prefix);
  }

  /** A root whose user half is empty and whose kernel half is the kernel root's. */
  function NewRoot(k: seq<Pte>): seq<Pte>
    requires |k| == FANOUT
  {
    seq(USER_SLOTS, _ => ZERO_PTE) + k[USER_SLOTS..]
  }

  lemma NewRootOk(t: Tables, o: Owners, pool: seq<nat>, kroot: nat, n: nat)
    requires MmuOk(t, o, pool, kroot) && n !in t && n != NULL_FRAME && n !in pool
    ensures |t[kroot]| == FANOUT
    ensures MmuOk(t[n := NewRoot(t[kroot])], o[n := Place(n, LEVELS, 0)], pool, kroot)
    ensures RootsOf(t[n := NewRoot(t[kroot])], o[n := Place(n, LEVELS, 0)]) == RootsOf(t, o) + {n}
  {
    var t', o' := t[n := NewRoot(t[kroot])], o[n := Place(n, LEVELS, 0)];
    assert TableOk(t, o, kroot);
    forall q | q in t' ensures TableOk(t', o', q) {
      if q != n { assert TableOk(t, o, q); }
      forall j | 0 <= j < FANOUT ensures LinkOk(t', o', q, j) {
        if q != n { assert LinkOk(t, o, q, j); } else { assert LinkOk(t, o, kroot, j); }
      }
    }
  }

  /** Adding a root disturbs no translation. */
  lemma NewRootFrame(t: Tables, o: Owners, pool: seq<nat>, kroot: nat, n: nat, r: nat, w: nat)
    requires MmuOk(t, o, pool, kroot) && n !in t && |t[kroot]| == FANOUT && r in RootsOf(t, o) && w < ALL_PAGES
    ensures Entry(t[n := NewRoot(t[kroot])], r, LEVELS, w) == Entry(t, r, LEVELS, w)
  {
    RootOn(t, o, r, w);
    SameEntry(t, o, t[n := NewRoot(t[kroot])], r, r, LEVELS, w);
  }

  /** The new root translates no user page. */
  lemma NewRootEmpty(t: Tables, kroot: nat, n: nat, v: nat)
    requires kroot in t && |t[kroot]| == FANOUT && v < USER_PAGES
    ensures Entry(t[n := NewRoot(t[kroot])], n, LEVELS, v) == ZERO_PTE
  {
    RootIndex(v);
  }

  lemma RootCopyStart(t0: Tables, o0: Owners, pool: seq<nat>, kroot: nat, p: nat, n: nat)
    requires MmuOk(t0, o0, pool, kroot) && n !in t0 && n != NULL_FRAME && n !in pool && p in RootsOf(t0, o0)
    requires |t0[kroot]| == FANOUT
    ensures Copying(t0, o0, t0[n := NewRoot(t0[kroot])], o0[n := Place(n, LEVELS, 0)], p, n, p, n, LEVELS, 0, 0)
  {
    var t, o := t0[n := NewRoot(t0[kroot])], o0[n := Place(n, LEVELS, 0)];
    NewRootOk(t0, o0, pool, kroot, n);
    assert TableOk(t0, o0, p);
    forall v | Covered(LEVELS, 0, v) ensures DupAt(t0, t, p, n, LEVELS, 0, v) {
      NewRootFrame(t0, o0, pool, kroot, n, p, v);
    }
    assert EmptyFrom(NewRoot(t0[kroot]), 0, Width(LEVELS));
  }

  /** The user pages of root `p` that map physical page `f`. */
  ghost function UserUses(t: Tables, p: nat, f: nat): set<nat> {
    set v | 0 <= v < USER_PAGES && Entry(t, p, LEVELS, v) != ZERO_PTE && Entry(t, p, LEVELS, v).frame == f
  }

  lemma UsesUser(t: Tables, p: nat, f: nat)
    ensures Uses(t, p, LEVELS, 0, USER_SLOTS, f) == UserUses(t, p, f)
  {
    forall v: nat ensures v in Uses(t, p, LEVELS, 0, USER_SLOTS, f) <==> v in UserUses(t, p, f) {
      if v < ALL_PAGES { RootIndex(v); }
    }
  }

  /** The outcome of a whole table duplication, page by page. */
  ghost predicate Forked(t0: Tables, roots0: set<nat>, t: Tables, p: nat, n: nat) {
    && (forall v: nat :: v < USER_PAGES ==>
          Entry(t, p, LEVELS, v) == Entry(t, n, LEVELS, v) == Dup(Entry(t0, p, LEVELS, v)))
    && (forall r: nat, w: nat :: r in roots0 && w < ALL_PAGES && (r != p || w >= USER_PAGES) ==>
          Entry(t, r, LEVELS, w) == Entry(t0, r, LEVELS, w))
    && (forall w: nat :: USER_PAGES <= w < ALL_PAGES ==> Entry(t, n, LEVELS, w) == Entry(t0, p, LEVELS, w))
  }

  lemma ForkDone(t0: Tables, o0: Owners, t: Tables, o: Owners, pool: seq<nat>, kroot: nat, p: nat, n: nat)
    requires Copying(t0, o0, t, o, p, n, p, n, LEVELS, 0, USER_SLOTS) && MmuOk(t, o, pool, kroot)
    ensures Forked(t0, RootsOf(t0, o0), t, p, n)
  {
    assert DupFrame(t0, o0, t, o, p, n, LEVELS, 0) && DupView(t0, t, p, n, LEVELS, 0, USER_SLOTS);
    forall v: nat | v < USER_PAGES
      ensures Entry(t, p, LEVELS, v) == Entry(t, n, LEVELS, v) == Dup(Entry(t0, p, LEVELS, v))
    {
      RootIndex(v);
      assert DupAt(t0, t, p, n, LEVELS, USER_SLOTS, v);
    }
    forall r: nat, w: nat | r in RootsOf(t0, o0) && w < ALL_PAGES && (r != p || w >= USER_PAGES)
      ensures Entry(t, r, LEVELS, w) == Entry(t0, r, LEVELS, w)
    {
      RootOn(t0, o0, r, w);
      FrameEntry(t0, o0, t, o, p, n, LEVELS, 0, r, r, LEVELS, w);
    }
    forall w: nat | USER_PAGES <= w < ALL_PAGES ensures Entry(t, n, LEVELS, w) == Entry(t0, p, LEVELS, w) {
      RootOn(t0, o0, p, w);
      KernelLeaf(t, o, kroot, p, n, w);
      FrameEntry(t0, o0, t, o, p, n, LEVELS, 0, p, p, LEVELS, w);
    }
  }

  /** Every user page of root `p` maps a page in state TAKEN. */
  ghost predicate UserTaken(r: map<nat, nat>, t: Tables, p: nat) {
    forall v: nat :: v < USER_PAGES ==> TakenAt(r, t, p, LEVELS, v)
  }

  class Mmu {
    var tables: map<nat, seq<Pte>>
    ghost var owner: map<nat, Place>
    var pool: seq<nat>
    var refs: map<nat, nat>
    const kroot: nat

    /** The table part of `arch_mmu_init`: a root whose upper half links 256 empty kernel tables. */
    constructor (pool: seq<nat>, refs: map<nat, nat>)
      requires |pool| > FANOUT - USER_SLOTS && NULL_FRAME !in pool
      requires forall i, j :: 0 <= i < j < |pool| ==> pool[i] != pool[j]
      ensures Valid() && this.refs == refs && Roots() == {kroot}
      ensures forall v: nat :: v < USER_PAGES ==> Get(kroot, v) == ZERO_PTE
    {
      var root := pool[0];
      var row := EmptyTable();
      var t: map<nat, seq<Pte>> := map[root := row];
      ghost var o: map<nat, Place> := map[root := Place(root, LEVELS, 0)];
      var i := USER_SLOTS;
      while i < FANOUT
        invariant USER_SLOTS <= i <= FANOUT
        invariant |row| == FANOUT && root in t && t[root] == row
        invariant forall j :: 0 <= j < USER_SLOTS || i <= j < FANOUT ==> row[j] == ZERO_PTE
        invariant forall j :: USER_SLOTS <= j < i ==> row[j] != ZERO_PTE
        invariant forall q :: q in t ==> q in pool[..1 + i - USER_SLOTS]
        invariant Wf(t, o) && RootsOf(t, o) == {root}
      {
        var n := pool[1 + i - USER_SLOTS];
        var link := Pte(n, true, true, false, false, false, false, 1);
        assert TableOk(t, o, root);
        assert n !in t;
        LinkWf(t, o, root, i, n, link);
        row := row[i := link];
        o := o[n := ChildPlace(o[root], i)];
        t := t[n := EmptyTable()][root := row];
        i := i + 1;
      }
      this.kroot := root;
      this.tables := t;
      this.owner := o;
      this.pool := pool[1 + FANOUT - USER_SLOTS..];
      this.refs := refs;
      new;
      assert forall r :: r in tables && owner[r].level == LEVELS ==> r in RootsOf(tables, owner);
      forall v: nat | v < USER_PAGES ensures Get(kroot, v) == ZERO_PTE { RootIndex(v); }
    }

    ghost predicate Valid()
      reads this
    {
      MmuOk(tables, owner, pool, kroot)
    }

    ghost function Roots(): set<nat>
      reads this
    {
      RootsOf(tables, owner)
    }

    /** What the walk for page `v` from root `r` finds. */
    ghost function Get(r: nat, v: nat): Pte
      reads this
    {
      Entry(tables, r, LEVELS, v)
    }

    lemma RootTable(r: nat)
      requires Valid() && r in Roots()
      ensures r in tables && r in owner && owner[r].level == 4 && |tables[r]| == FANOUT
    {
      assert TableOk(tables, owner, r);
    }

    /** `get_page`: the leaf table that holds the entry of `v`, if there is one. */
    method GetPage(top: nat, v: nat) returns (leaf: Option<nat>)
      requires Valid() && top in Roots() && v < ALL_PAGES
      ensures leaf == Leaf(tables, top, LEVELS, v)
      ensures leaf.Some? ==> leaf.value in tables && leaf.value in owner
      ensures leaf.Some? ==> |tables[leaf.value]| == FANOUT && owner[leaf.value].level == 1
    {
      hide Field;
      RootIndex(v);
      var addr := v * PAGE_SIZE;
      Offsets(addr);
      assert On(tables, owner, top, top, LEVELS, v) by { assert TableOk(tables, owner, top); }
      LeafPlace(tables, owner, top, top, LEVELS, v);
      assert TableOk(tables, owner, top) && LinkOk(tables, owner, top, Index(4, v));
      var pdpt := tables[top][Field(addr, PML4MASK, 39)];
      if pdpt == ZERO_PTE { return None; }
      assert TableOk(tables, owner, pdpt.frame) && LinkOk(tables, owner, pdpt.frame, Index(3, v));
      var pd := tables[pdpt.frame][Field(addr, PDPTMASK, 30)];
      if pd == ZERO_PTE { return None; }
      assert TableOk(tables, owner, pd.frame) && LinkOk(tables, owner, pd.frame, Index(2, v));
      var pt := tables[pd.frame][Field(addr, PDMASK, 21)];
      if pt == ZERO_PTE { return None; }
      assert TableOk(tables, owner, pt.frame);
      assert Leaf(tables, pd.frame, 2, v) == Leaf(tables, pt.frame, 1, v);
      assert Leaf(tables, pdpt.frame, 3, v) == Leaf(tables, pd.frame, 2, v);
      return Some(pt.frame);
    }

    /** `internal_alloc_phys`: a zeroed page for a table, if the cache has one. */
    method AllocTable() returns (n: Option<nat>)
      requires Valid()
      modifies this`pool
      ensures Valid()
      ensures n.None? <==> old(pool) == []
      ensures n.None? ==> pool == old(pool)
      ensures n.Some? ==>
                n.value == old(pool)[0] && pool == old(pool)[1..] && n.value !in tables && n.value != NULL_FRAME
      ensures n.Some? ==> n.value !in pool
    {
      if |pool| == 0 { return None; }
      n := Some(pool[0]);
      pool := pool[1..];
    }

    /** One of the three identical steps of `add_page`: follow the link in slot `i` of table `p`,
        creating an empty table when there is none. */
    method NextOrAlloc(p: nat, i: nat) returns (n: Option<nat>)
      requires Valid() && p in tables && p in owner && 2 <= owner[p].level <= LEVELS && i < FANOUT
      modifies this`tables, this`owner, this`pool
      ensures Valid() && Roots() == old(Roots())
      ensures forall r: nat, w: nat :: r in Roots() && w < ALL_PAGES ==> Get(r, w) == old(Get(r, w))
      ensures n.Some? ==>
                p in tables && |tables[p]| == FANOUT && tables[p][i] != ZERO_PTE && tables[p][i].frame == n.value
      ensures n.Some? ==> n.value in tables && n.value in owner && owner[n.value].level == owner[p].level - 1
      ensures n.None? ==> pool == [] && tables == old(tables)
      ensures p in old(tables) && |old(tables)[p]| == FANOUT
      ensures old(tables)[p][i] != ZERO_PTE ==>
                n == Some(old(tables)[p][i].frame) && tables == old(tables) && owner == old(owner) && pool == old(pool)
      ensures forall q :: q in old(owner) ==> q in owner && owner[q] == old(owner)[q]
      ensures forall q :: q in old(tables) && q != p ==> q in tables && tables[q] == old(tables)[q]
    {
      assert TableOk(tables, owner, p) && LinkOk(tables, owner, p, i);
      if tables[p][i] != ZERO_PTE {
        return Some(tables[p][i].frame);
      }
      n := AllocTable();
      if n.Some? {
        var link := Pte(n.value, true, true, true, false, false, false, 0);
        ghost var t, o := tables, owner;
        LinkWf(t, o, p, i, n.value, link);
        LinkGrows(t, o, p, i, n.value, link);
        LinkKernelHalf(t, o, kroot, p, i, n.value, link);
        owner := owner[n.value := ChildPlace(owner[p], i)];
        tables := tables[n.value := EmptyTable()][p := tables[p][i := link]];
        GrowsRoots(t, o, tables, owner);
      }
    }

    /** The walk of `add_page`: the leaf table for `v`, creating the missing tables on the way. */
    method LeafOrAlloc(top: nat, v: nat) returns (pt: Option<nat>)
      requires Valid() && top in Roots() && v < ALL_PAGES
      modifies this`tables, this`owner, this`pool
      ensures Valid() && Roots() == old(Roots())
      ensures forall r: nat, w: nat :: r in Roots() && w < ALL_PAGES ==> Get(r, w) == old(Get(r, w))
      ensures pt.None? ==> pool == []
      ensures Leaf(old(tables), top, LEVELS, v).Some? ==>
                pt.Some? && tables == old(tables) && owner == old(owner) && pool == old(pool)
      ensures pt.Some? ==> pt.value in tables && pt.value in owner && owner[pt.value].level == 1
      ensures pt.Some? ==> Leaf(tables, top, LEVELS, v) == pt
    {
      hide MmuOk, RootsOf, Entry, Leaf, Index, Up, Field;
      var addr := v * PAGE_SIZE;
      Offsets(addr);
      IndexRange(v);
      RootTable(top);
      ghost var t := tables;
      if Leaf(t, top, LEVELS, v).Some? { LeafLinks(t, top, v); }
      var pdpt := NextOrAlloc(top, Field(addr, PML4MASK, 39));
      if pdpt.None? { return None; }
      var pd := NextOrAlloc(pdpt.value, Field(addr, PDPTMASK, 30));
      if pd.None? { return None; }
      pt := NextOrAlloc(pd.value, Field(addr, PDMASK, 21));
      if pt.Some? { WalkDown(tables, top, v, pdpt.value, pd.value, pt.value); }
    }

    /** `add_page` at depth 0: entry `e` becomes the translation of `v` below root `top`. */
    method AddPage(top: nat, v: nat, e: Pte) returns (ok: bool)
      requires Valid() && top in Roots() && v < ALL_PAGES && (e != ZERO_PTE ==> e.present)
      modifies this`tables, this`owner, this`pool
      ensures Valid() && Roots() == old(Roots())
      ensures forall r: nat, w: nat :: r in Roots() && w < ALL_PAGES ==>
                Get(r, w) == if ok && w == v && (r == top || v >= USER_PAGES) then e else old(Get(r, w))
      ensures !ok ==> pool == []
      ensures Leaf(old(tables), top, LEVELS, v).Some? ==> ok && pool == old(pool)
      ensures ok ==> Leaf(tables, top, LEVELS, v).Some?
    {
      hide MmuOk, RootsOf, Entry, Leaf;
      var pt := LeafOrAlloc(top, v);
      if pt.None? { return false; }
      WriteLeaf(tables, owner, pool, kroot, top, v, pt.value, e);
      tables := tables[pt.value := tables[pt.value][v % FANOUT := e]];
      ok := true;
    }

    /** `arch_mmu_map`. */
    method Map(top: nat, v: nat, e: Pte) returns (ok: bool)
      requires Valid() && top in Roots() && v < ALL_PAGES && e.present
      modifies this`tables, this`owner, this`pool
      ensures Valid() && Roots() == old(Roots())
      ensures forall r: nat, w: nat :: r in Roots() && w < ALL_PAGES ==>
                Get(r, w) == if ok && w == v && (r == top || v >= USER_PAGES) then e else old(Get(r, w))
      ensures !ok ==> pool == []
      ensures Leaf(old(tables), top, LEVELS, v).Some? ==> ok && pool == old(pool)
    {
      ok := AddPage(top, v, e);
    }

    /** `arch_mmu_unmap`: false exactly when `v` has no leaf table; otherwise the old physical page
        (the null page if the entry was empty) comes back and the entry is cleared. */
    method Unmap(top: nat, v: nat) returns (ok: bool, oldFrame: nat)
      requires Valid() && top in Roots() && v < ALL_PAGES
      modifies this`tables
      ensures Valid() && Roots() == old(Roots())
      ensures ok <==> Leaf(old(tables), top, LEVELS, v).Some?
      ensures ok ==> oldFrame == old(Get(top, v)).frame
      ensures !ok ==> tables == old(tables) && old(Get(top, v)) == ZERO_PTE
      ensures forall r: nat, w: nat :: r in Roots() && w < ALL_PAGES ==>
                Get(r, w) == if ok && w == v && (r == top || v >= USER_PAGES) then ZERO_PTE else old(Get(r, w))
      ensures forall r: nat, w: nat :: r in Roots() && w < ALL_PAGES ==>
                Leaf(tables, r, LEVELS, w) == Leaf(old(tables), r, LEVELS, w)
    {
      hide MmuOk, RootsOf, Entry, Leaf;
      var leaf := GetPage(top, v);
      oldFrame := NULL_FRAME;
      if leaf.None? {
        NoLeaf(tables, top, v);
        return false, oldFrame;
      }
      var q := leaf.value;
      WriteLeaf(tables, owner, pool, kroot, top, v, q, ZERO_PTE);
      oldFrame := tables[q][v % FANOUT].frame;
      tables := tables[q := tables[q][v % FANOUT := ZERO_PTE]];
      ok := true;
    }

    /** `arch_mmu_get_physical` of byte `off` of page `v`: the physical address, none for the null page. */
    method GetPhysical(top: nat, v: nat, off: nat) returns (phys: Option<nat>)
      requires Valid() && top in Roots() && v < ALL_PAGES && off < PAGE_SIZE
      ensures phys.None? <==> Get(top, v).frame == NULL_FRAME
      ensures phys.Some? ==> phys.value / PAGE_SIZE == Get(top, v).frame && phys.value % PAGE_SIZE == off
    {
      var leaf := GetPage(top, v);
      if leaf.None? { return None; }
      var e := tables[leaf.value][v % FANOUT];
      if e.frame == NULL_FRAME { return None; }
      return Some(e.frame * PAGE_SIZE + off);
    }

    /** `arch_mmu_is_cow`. */
    method IsCow(top: nat, v: nat) returns (cow: bool)
      requires Valid() && top in Roots() && v < ALL_PAGES
      ensures cow <==> Get(top, v).priv
    {
      var leaf := GetPage(top, v);
      if leaf.None? { return false; }
      cow := tables[leaf.value][v % FANOUT].priv;
    }

    /** `com_mm_pmm_hold`. */
    method Hold(f: nat)
      requires f in refs
      modifies this`refs
      ensures refs == old(refs)[f := old(refs)[f] + 1]
    {
      refs := refs[f := refs[f] + 1];
    }

    /** `duplicate_recursive`: the entry of the child, after parent and child have both been
        downgraded below it and every page mapped there has been held once more.  `s` and `c` are
        the parent's and the child's address space.  The call fails only when the cache of table
        pages is empty, where the kernel panics. */
    method DuplicateRecursive(entry: Pte, level: nat, ghost s: nat, ghost c: nat,
                              ghost prefix: nat) returns (ok: bool, r: Pte)
      requires Valid() && level < LEVELS && s != c && s != KERNEL && c != KERNEL && prefix < Cap(level)
      requires entry.present && level == 0 ==> entry.frame in refs
      requires entry.present && level >= 1 ==> entry.frame in tables && owner[entry.frame] == Place(s, level, prefix)
                                               && FramesTaken(refs, tables, entry.frame, level, prefix)
      modifies this`tables, this`owner, this`pool, this`refs
      decreases level
      ensures !ok ==> pool == []
      ensures !entry.present ==> ok && r == ZERO_PTE
      ensures !entry.present || level == 0 ==>
                tables == old(tables) && owner == old(owner) && pool == old(pool) && Valid()
      ensures !entry.present ==> refs == old(refs)
      ensures entry.present && level == 0 ==>
                ok && r == Dup(entry) && refs == old(refs)[entry.frame := old(refs)[entry.frame] + 1]
      ensures ok && entry.present && level >= 1 ==>
                && Valid() && Roots() == old(Roots())
                && DupFrame(old(tables), old(owner), tables, owner, s, c, level, prefix)
                && DupView(old(tables), tables, entry.frame, r.frame, level, prefix, FANOUT)
                && Counted(old(refs), refs, old(tables), entry.frame, level, prefix, FANOUT)
                && r == entry.(frame := r.frame) && r.frame in tables && r.frame in owner
                && owner[r.frame] == Place(c, level, prefix)
    {
      hide MmuOk, Copying, DupFrame, DupView, Counted, FramesTaken, RootsOf;
      if !entry.present { return true, ZERO_PTE; }
      if level == 0 {
        Hold(entry.frame);
        return true, Dup(entry);
      }
      var p := entry.frame;
      ghost var t0, o0, r0 := tables, owner, refs;
      var new_ := AllocTable();
      if new_.None? { return false, ZERO_PTE; }
      var n := new_.value;
      OkWf(tables, owner, pool, kroot);
      CopyStart(t0, o0, p, n, s, c, level, prefix);
      CountStart(r0, t0, p, level, prefix);
      OkAdd(tables, owner, pool, kroot, n, Place(c, level, prefix));
      tables := tables[n := EmptyTable()];
      owner := owner[n := Place(c, level, prefix)];
      var i := 0;
      while i < FANOUT
        invariant 0 <= i <= FANOUT
        invariant Valid() && Roots() == old(Roots())
        invariant Copying(t0, o0, tables, owner, p, n, s, c, level, prefix, i)
        invariant Counted(r0, refs, t0, p, level, prefix, i)
      {
        ok := DuplicateSlot(p, n, level, i, t0, o0, r0, s, c, prefix);
        if !ok { return false, ZERO_PTE; }
        i := i + 1;
      }
      CopyDone(t0, o0, tables, owner, p, n, s, c, level, prefix);
      return true, entry.(frame := n);
    }

    /** The body of the copying loop for slot `i`. */
    method DuplicateSlot(p: nat, n: nat, level: nat, i: nat, ghost t0: Tables, ghost o0: Owners,
                         ghost r0: map<nat, nat>,
                         ghost s: nat, ghost c: nat, ghost prefix: nat) returns (ok: bool)
      requires Valid() && 1 <= level <= LEVELS && prefix < Cap(level) && i < Width(level)
      requires Copying(t0, o0, tables, owner, p, n, s, c, level, prefix, i)
      requires Counted(r0, refs, t0, p, level, prefix, i) && FramesTaken(r0, t0, p, level, prefix)
      modifies this`tables, this`owner, this`pool, this`refs
      decreases level, 0
      ensures !ok ==> pool == []
      ensures ok ==> Valid() && Roots() == old(Roots())
      ensures ok ==> Copying(t0, o0, tables, owner, p, n, s, c, level, prefix, i + 1)
      ensures ok ==> Counted(r0, refs, t0, p, level, prefix, i + 1)
    {
      hide MmuOk, DupFrame, DupView, Counted, FramesTaken, RootsOf, Wf;
      PendingSlot(t0, o0, tables, owner, p, n, s, c, level, prefix, i);
      SlotPresent(t0, o0, tables, owner, p, n, s, c, level, prefix, i);
      var e := tables[p][i];
      if !e.present {
        CopyEmptySlot(t0, o0, tables, owner, p, n, s, c, level, prefix, i);
        CountEmptySlot(r0, refs, t0, p, level, prefix, i);
        return true;
      }
      ghost var t, o, rr := tables, owner, refs;
      var d: Pte;
      if level == 1 {
        LeafTaken(r0, rr, t0, o0, t, o, p, n, s, c, prefix, i);
        ok, d := DuplicateRecursive(e, 0, s, c, Sub(prefix, i));
        CopyLeafSlot(t0, o0, t, o, p, n, s, c, prefix, i);
        CountLeafSlot(r0, rr, t0, p, prefix, i, e);
        tables := tables[n := tables[n][i := d]];
        tables := tables[p := tables[p][i := d]];
        OkCopied(t0, o0, t, o, p, n, s, c, level, prefix, i, tables, owner, i + 1, pool, kroot);
      } else {
        ChildTaken(r0, refs, t0, o0, t, o, p, n, s, c, level, prefix, i);
        ok, d := DuplicateRecursive(e, level - 1, s, c, Sub(prefix, i));
        if !ok { return false; }
        CopyInnerSlot(t0, o0, t, o, tables, owner, p, n, s, c, level, prefix, i, d);
        CountInnerSlot(r0, rr, refs, t0, o0, t, o, p, n, s, c, level, prefix, i);
        OkWrite(tables, owner, pool, kroot, n, i, d);
        tables := tables[n := tables[n][i := d]];
      }
    }

    /** `arch_mmu_new_table`: an address space with no user pages and the kernel's upper half. */
    method NewTable() returns (n: Option<nat>)
      requires Valid()
      modifies this`tables, this`owner, this`pool
      ensures Valid()
      ensures n.None? ==> tables == old(tables) && owner == old(owner) && pool == []
      ensures n.Some? ==> n.value !in old(tables) && n.value != NULL_FRAME && Roots() == old(Roots()) + {n.value}
      ensures n.Some? ==> forall v: nat :: v < USER_PAGES ==> Get(n.value, v) == ZERO_PTE
      ensures n.Some? ==> forall r: nat, w: nat :: r in old(Roots()) && w < ALL_PAGES ==> Get(r, w) == old(Get(r, w))
      ensures n.Some? ==> kroot in old(tables) && |old(tables)[kroot]| == FANOUT
                          && tables == old(tables)[n.value := NewRoot(old(tables)[kroot])]
                          && owner == old(owner)[n.value := Place(n.value, LEVELS, 0)]
      ensures n.Some? ==> old(pool) == [n.value] + pool
    {
      hide Entry, RootsOf;
      ghost var t, o := tables, owner;
      n := AllocTable();
      if n.Some? {
        NewRootOk(tables, owner, pool, kroot, n.value);
        ghost var t1 := t[n.value := NewRoot(t[kroot])];
        forall r: nat, w: nat | r in Roots() && w < ALL_PAGES
          ensures Entry(t1, r, LEVELS, w) == Entry(t, r, LEVELS, w)
        {
          NewRootFrame(t, o, pool, kroot, n.value, r, w);
        }
        forall v: nat | v < USER_PAGES ensures Entry(t1, n.value, LEVELS, v) == ZERO_PTE {
          NewRootEmpty(t, kroot, n.value, v);
        }
        tables := tables[n.value := NewRoot(tables[kroot])];
        owner := owner[n.value := Place(n.value, LEVELS, 0)];
      }
    }

    /** `arch_mmu_duplicate_table`: a disjoint tree for the child with the parent's physical
        translation at every user page, both sides downgraded alike, every mapped page held once
        more, and nothing else changed. */
    method DuplicateTable(pt: nat) returns (ok: bool, n: nat)
      requires Valid() && pt in Roots() && UserTaken(refs, tables, pt)
      modifies this`tables, this`owner, this`pool, this`refs
      ensures !ok ==> pool == []
      ensures ok ==> Valid() && n !in old(tables) && n != NULL_FRAME && Roots() == old(Roots()) + {n}
      ensures ok ==> Forked(old(tables), old(Roots()), tables, pt, n)
      ensures ok ==> refs.Keys == old(refs).Keys
                     && forall f :: f in refs ==> refs[f] == old(refs)[f] + |UserUses(old(tables), pt, f)|
    {
      hide MmuOk, Copying, Counted, FramesTaken, RootsOf, Entry, Forked;
      ghost var t0, o0, r0, pool0 := tables, owner, refs, pool;
      var new_ := NewTable();
      if new_.None? { return false, NULL_FRAME; }
      n := new_.value;
      PoolRest(t0, o0, pool0, kroot, n, pool);
      RootCopyStart(t0, o0, pool, kroot, pt, n);
      CountStart(r0, t0, pt, LEVELS, 0);
      TakenRoot(r0, t0, pt);
      var i := 0;
      while i < USER_SLOTS
        invariant 0 <= i <= USER_SLOTS
        invariant Valid() && Roots() == old(Roots()) + {n}
        invariant Copying(t0, o0, tables, owner, pt, n, pt, n, LEVELS, 0, i)
        invariant Counted(r0, refs, t0, pt, LEVELS, 0, i)
      {
        ok := DuplicateSlot(pt, n, LEVELS, i, t0, o0, r0, pt, n, 0);
        if !ok { return false, NULL_FRAME; }
        i := i + 1;
      }
      ForkDone(t0, o0, tables, owner, pool, kroot, pt, n);
      ForkCounted(r0, refs, t0, pt);
      ok := true;
    }
  }

  lemma PoolRest(t: Tables, o: Owners, pool: seq<nat>, kroot: nat, n: nat, rest: seq<nat>)
    requires MmuOk(t, o, pool, kroot) && pool == [n] + rest
    ensures MmuOk(t, o, rest, kroot) && n !in rest && n !in t && n != NULL_FRAME && kroot in t && |t[kroot]| == FANOUT
  {
    assert pool[0] == n;
    assert forall i :: 0 <= i < |rest| ==> rest[i] == pool[i + 1];
  }

  lemma TakenRoot(r: map<nat, nat>, t: Tables, p: nat)
    requires UserTaken(r, t, p)
    ensures FramesTaken(r, t, p, LEVELS, 0)
  {
    forall v | Covered(LEVELS, 0, v) && Index(LEVELS, v) < Width(LEVELS) ensures TakenAt(r, t, p, LEVELS, v) {
      RootIndex(v);
    }
  }

  lemma ForkCounted(r0: map<nat, nat>, r: map<nat, nat>, t0: Tables, p: nat)
    requires Counted(r0, r, t0, p, LEVELS, 0, USER_SLOTS)
    ensures r.Keys == r0.Keys && forall f :: f in r ==> r[f] == r0[f] + |UserUses(t0, p, f)|
  {
    forall f | f in r ensures r[f] == r0[f] + |UserUses(t0, p, f)| { UsesUser(t0, p, f); }
  }
}
