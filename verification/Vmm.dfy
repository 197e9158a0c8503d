/** The address-space code of `src/com/mm/vmm.c`, performed in place on the four-level tables, the
    page metadata and the page contents.  Each method's effect, seen flat, is the operation of the
    copy-on-write model (`Cow`), so everything proved there holds of runs of this code. */
module VmmCode {
  import opened Options
  import opened Pages
  import opened PageTable
  import opened PageTableFork
  import opened MmuCode
  import opened Cow
  import opened CowInvariant
  import opened VmmView
  import Isolation

  /** How a fault ends: served, or SIGSEGV for the process. */
  datatype FaultResult = Served | Segv

  /** First page of the anonymous arena (CONFIG_VMM_ANON_START). */
  const ANON_START: nat := 0x10_0000

  /** `size_in_pages` of `com_mm_vmm_map` and `com_mm_vmm_unmap`. */
  function SizeInPages(addr: nat, len: nat): nat { (addr % PAGE_SIZE + len + PAGE_SIZE - 1) / PAGE_SIZE }

  /** Exactly the pages that hold a byte of `[addr, addr + len)` are counted. */
  lemma SizeInPagesExact(addr: nat, len: nat, page: nat)
    requires len > 0
    ensures addr / PAGE_SIZE <= page < addr / PAGE_SIZE + SizeInPages(addr, len)
            <==> exists b :: addr <= b < addr + len && b / PAGE_SIZE == page
  {
    if addr / PAGE_SIZE <= page < addr / PAGE_SIZE + SizeInPages(addr, len) {
      var b := if page == addr / PAGE_SIZE then addr else page * PAGE_SIZE;
      assert addr <= b < addr + len && b / PAGE_SIZE == page;
    }
  }

  predicate Within(p: nat, v: nat, n: nat) { v <= p < v + n }

  function PageRange(v: nat, n: nat): set<nat> { set p: nat | p < v + n && Within(p, v, n) }

  /** The pages of the anonymous arena given out in a context with this `anon_pages`. */
  function Given(anon: nat): set<nat> { PageRange(ANON_START, anon) }

  /** Where successive mappings of these sizes go, without hints, when `anon` pages have been given out. */
  function Placements(anon: nat, sizes: seq<nat>): (r: seq<nat>)
    ensures |r| == |sizes|
    decreases |sizes|
  {
    if sizes == [] then [] else [ANON_START + anon] + Placements(anon + sizes[0], sizes[1..])
  }

  /** No two of them overlap, and none overlaps what was given out before. */
  lemma {:induction false} PlacementsDisjoint(anon: nat, sizes: seq<nat>, i: nat, j: nat)
    requires i < j < |sizes|
    ensures ANON_START + anon <= Placements(anon, sizes)[i]
    ensures Placements(anon, sizes)[i] + sizes[i] <= Placements(anon, sizes)[j]
    decreases |sizes|
  {
    if i > 0 {
      PlacementsDisjoint(anon + sizes[0], sizes[1..], i - 1, j - 1);
    } else {
      PlacementAbove(anon + sizes[0], sizes[1..], j - 1);
    }
  }

  lemma {:induction false} PlacementAbove(anon: nat, sizes: seq<nat>, j: nat)
    requires j < |sizes|
    ensures ANON_START + anon <= Placements(anon, sizes)[j]
    decreases |sizes|
  {
    if j > 0 { PlacementAbove(anon + sizes[0], sizes[1..], j - 1); }
  }

  /** `com_mm_vmm_map` page by page. */
  ghost predicate MapRangeOk(m: Mem, s: nat, v: nat, f: nat, n: nat, fl: Flags, private: bool, shared: bool)
    decreases n
  {
    n == 0 || (Enabled(m, MapOp((s, v), f, fl, private, shared))
               && MapRangeOk(MapPage(m, (s, v), f, fl, private, shared), s, v + 1, f + 1, n - 1, fl, private, shared))
  }

  ghost function MapRange(m: Mem, s: nat, v: nat, f: nat, n: nat, fl: Flags, private: bool, shared: bool): Mem
    requires MapRangeOk(m, s, v, f, n, fl, private, shared)
    decreases n
  {
    if n == 0 then m
    else MapRange(MapPage(m, (s, v), f, fl, private, shared), s, v + 1, f + 1, n - 1, fl, private, shared)
  }

  ghost function MapZeroRange(m: Mem, s: nat, v: nat, n: nat, fl: Flags, shared: bool): (r: Mem)
    requires m.zero in m.refs
    ensures r.zero == m.zero
    decreases n
  {
    if n == 0 then m else MapZeroRange(MapZero(m, (s, v), fl, shared), s, v + 1, n - 1, fl, shared)
  }

  /** The slot is one of the `n` pages from `v` on of address space `s`. */
  predicate InRange(k: Slot, s: nat, v: nat, n: nat) { k.0 == s && v <= k.1 < v + n }

  /** The tables after mapping a range: its slots, and no others, have changed, and slot `i` of it holds
      `at(i)`. */
  ghost predicate RangeMapped(tabs: map<Slot, Pte>, tabs': map<Slot, Pte>, s: nat, v: nat, n: nat, at: int -> Pte) {
    && (forall k: Slot :: k in tabs' <==> InRange(k, s, v, n) || k in tabs)
    && (forall k: Slot :: InRange(k, s, v, n) ==> tabs'[k] == at(k.1 - v))
    && (forall k: Slot :: !InRange(k, s, v, n) && k in tabs ==> tabs'[k] == tabs[k])
  }

  /** Mapping a range with ALLOCATE: exactly its slots map the zero page, which has one reference more for
      each of them; everything else stays. */
  lemma {:induction false} MapZeroRangeSlots(m: Mem, s: nat, v: nat, n: nat, fl: Flags, shared: bool, k: Slot)
    requires m.zero in m.refs
    ensures var m' := MapZeroRange(m, s, v, n, fl, shared);
      && (k in m'.tabs <==> InRange(k, s, v, n) || k in m.tabs)
      && (InRange(k, s, v, n) ==> m'.tabs[k] == MapEntry(m.zero, fl, true, shared, true))
      && (!InRange(k, s, v, n) && k in m.tabs ==> m'.tabs[k] == m.tabs[k])
      && m'.refs == m.refs[m.zero := m.refs[m.zero] + n]
      && m'.spaces == m.spaces && m'.holds == m.holds && m'.data == m.data && m'.zero == m.zero
    decreases n
  {
    if n > 0 {
      MapZeroRangeSlots(MapZero(m, (s, v), fl, shared), s, v + 1, n - 1, fl, shared, k);
    } else {
      assert m.refs[m.zero := m.refs[m.zero] + 0] == m.refs;
    }
  }

  lemma ZeroRangeMapped(m: Mem, s: nat, v: nat, n: nat, fl: Flags, shared: bool)
    requires m.zero in m.refs
    ensures var m' := MapZeroRange(m, s, v, n, fl, shared);
      && RangeMapped(m.tabs, m'.tabs, s, v, n, _ => MapEntry(m.zero, fl, true, shared, true))
      && m'.refs == m.refs[m.zero := m.refs[m.zero] + n]
      && m'.spaces == m.spaces && m'.holds == m.holds && m'.data == m.data && m'.zero == m.zero
  {
    hide MapZeroRange, MapEntry;
    var m' := MapZeroRange(m, s, v, n, fl, shared);
    forall k: Slot
      ensures k in m'.tabs <==> InRange(k, s, v, n) || k in m.tabs
      ensures InRange(k, s, v, n) ==> m'.tabs[k] == MapEntry(m.zero, fl, true, shared, true)
      ensures !InRange(k, s, v, n) && k in m.tabs ==> m'.tabs[k] == m.tabs[k]
    {
      MapZeroRangeSlots(m, s, v, n, fl, shared, k);
    }
    MapZeroRangeSlots(m, s, v, n, fl, shared, (s, v));
  }

  lemma ZeroKnown(m: Mem)
    requires Inv(m)
    ensures m.zero in m.refs
  {}

  /** The entry `com_mm_vmm_map` builds, flag by flag: a private writable mapping loses WRITE for the
      copy-on-write bit. */
  lemma MappedEntry(f: nat, fl: Flags, private: bool, shared: bool, alloc: bool)
    ensures var e := MapEntry(f, fl, private, shared, alloc);
      && e.frame == f && e.present == fl.present && e.user == fl.user && e.rest == fl.rest
      && e.shared == shared && e.nocopy == alloc
      && (e.priv <==> fl.write && (private || alloc)) && (e.write <==> fl.write && !private && !alloc)
  {}

  /** Mapping a range of physical pages: exactly its slots map them, in order, one holder of each page gives
      its reference to the entry, and everything else stays. */
  lemma {:induction false} MapRangeSlots(m: Mem, s: nat, v: nat, f: nat, n: nat, fl: Flags, private: bool,
                                         shared: bool, k: Slot, g: nat)
    requires MapRangeOk(m, s, v, f, n, fl, private, shared)
    ensures var m' := MapRange(m, s, v, f, n, fl, private, shared);
      && (k in m'.tabs <==> InRange(k, s, v, n) || k in m.tabs)
      && (InRange(k, s, v, n) ==> m'.tabs[k] == MapEntry(f + (k.1 - v), fl, private, shared, false))
      && (!InRange(k, s, v, n) && k in m.tabs ==> m'.tabs[k] == m.tabs[k])
      && m'.holds.Keys == m.holds.Keys
      && (g in m.holds ==> m'.holds[g] + (if f <= g < f + n then 1 else 0) == m.holds[g])
      && m'.spaces == m.spaces && m'.refs == m.refs && m'.data == m.data && m'.zero == m.zero
    decreases n
  {
    if n > 0 {
      MapRangeSlots(MapPage(m, (s, v), f, fl, private, shared), s, v + 1, f + 1, n - 1, fl, private, shared, k, g);
    }
  }

  lemma PhysicalRangeMapped(m: Mem, s: nat, v: nat, f: nat, n: nat, fl: Flags, private: bool, shared: bool)
    requires MapRangeOk(m, s, v, f, n, fl, private, shared)
    ensures var m' := MapRange(m, s, v, f, n, fl, private, shared);
      && RangeMapped(m.tabs, m'.tabs, s, v, n, i => MapEntry(if i >= 0 then f + i else 0, fl, private, shared, false))
      && m'.refs == m.refs && m'.data == m.data
  {
    hide MapRange, MapRangeOk, MapEntry;
    var m' := MapRange(m, s, v, f, n, fl, private, shared);
    forall k: Slot
      ensures k in m'.tabs <==> InRange(k, s, v, n) || k in m.tabs
      ensures InRange(k, s, v, n) ==> m'.tabs[k] == MapEntry(f + (k.1 - v), fl, private, shared, false)
      ensures !InRange(k, s, v, n) && k in m.tabs ==> m'.tabs[k] == m.tabs[k]
    {
      MapRangeSlots(m, s, v, f, n, fl, private, shared, k, 0);
    }
    MapRangeSlots(m, s, v, f, n, fl, private, shared, (s, v), 0);
  }

  /** Serving a fault on `n` pages: exactly the slots of the range get the fresh pages, in order, writable if
      the entry was writable or copy-on-write. */
  lemma {:induction false} MapFaultRangeSlots(m: Mem, s: nat, v: nat, g: nat, n: nat, e: Pte, k: Slot)
    requires MapFaultOk(m, s, v, g, n, e)
    ensures var m' := MapFaultRange(m, s, v, g, n, e);
      && m'.tabs.Keys == m.tabs.Keys && (InRange(k, s, v, n) ==> k in m.tabs)
      && (k in m.tabs ==> m'.tabs[k] == if InRange(k, s, v, n) then Remapped(e, g + (k.1 - v)) else m.tabs[k])
      && m'.spaces == m.spaces && m'.zero == m.zero
    decreases n
  {
    if n > 0 { MapFaultRangeSlots(MapFault(m, (s, v), g), s, v + 1, g + 1, n - 1, e, k); }
  }

  /** Each of the fresh pages has one reference and is full of zeros; all other pages stay. */
  lemma {:induction false} MapFaultRangePages(m: Mem, s: nat, v: nat, g: nat, n: nat, e: Pte, h: nat)
    requires MapFaultOk(m, s, v, g, n, e)
    ensures var m' := MapFaultRange(m, s, v, g, n, e);
      if g <= h < g + n then
        && h !in m.refs && h in m'.refs && m'.refs[h] == 1
        && h in m'.data && m'.data[h] == ZeroBytes() && h in m'.holds && m'.holds[h] == 0
      else
        && (h in m'.refs <==> h in m.refs) && (h in m.refs ==> m'.refs[h] == m.refs[h])
        && (h in m'.data <==> h in m.data) && (h in m.data ==> m'.data[h] == m.data[h])
        && (h in m'.holds <==> h in m.holds) && (h in m.holds ==> m'.holds[h] == m.holds[h])
    decreases n
  {
    if n > 0 { MapFaultRangePages(MapFault(m, (s, v), g), s, v + 1, g + 1, n - 1, e, h); }
  }

  /** `com_mm_vmm_unmap` page by page. */
  ghost function UnmapRange(m: Mem, s: nat, v: nat, n: nat): Mem
    decreases n
  {
    if n == 0 then m else Unmap(UnmapRange(m, s, v, n - 1), (s, v + n - 1))
  }

  lemma {:induction false} UnmapRangeInv(m: Mem, s: nat, v: nat, n: nat)
    requires Inv(m)
    ensures Inv(UnmapRange(m, s, v, n))
    decreases n
  {
    hide Inv, Unmap;
    if n > 0 {
      UnmapRangeInv(m, s, v, n - 1);
      UnmapKeepsInv(UnmapRange(m, s, v, n - 1), (s, v + n - 1));
    }
  }

  /** Unmapping a range removes its slots and nothing else. */
  lemma {:induction false} UnmapRangeTabs(m: Mem, s: nat, v: nat, n: nat, k: Slot)
    ensures var m' := UnmapRange(m, s, v, n);
      && (k in m'.tabs <==> k in m.tabs && !(k.0 == s && v <= k.1 < v + n))
      && (k in m'.tabs ==> m'.tabs[k] == m.tabs[k])
      && m'.spaces == m.spaces && m'.holds == m.holds && m'.data == m.data && m'.zero == m.zero
      && m'.refs.Keys == m.refs.Keys
    decreases n
  {
    if n > 0 { UnmapRangeTabs(m, s, v, n - 1, k); }
  }

  /** The walk for page `w` of root `s` reaches a leaf table. */
  ghost predicate HasLeaf(t: Tables, s: nat, w: nat) { Leaf(t, s, LEVELS, w).Some? }

  /** Every page from `v` to `w` has a leaf table. */
  ghost predicate Reached(t: Tables, s: nat, v: nat, w: nat) { forall u :: v <= u <= w ==> HasLeaf(t, s, u) }

  /** No page of the range is mapped. */
  ghost predicate NoneMapped(tabs: map<Slot, Pte>, s: nat, v: nat, n: nat) {
    forall w :: v <= w < v + n ==> (s, w) !in tabs
  }

  /** Every page mapped in the range comes before the first one without a leaf table. */
  ghost predicate AllReached(t: Tables, tabs: map<Slot, Pte>, s: nat, v: nat, n: nat) {
    forall w :: v <= w < v + n && (s, w) in tabs ==> Reached(t, s, v, w)
  }

  /** Clearing the pages up to the first one without a leaf table empties a range exactly then. */
  lemma StopsEarly(t: Tables, m: Mem, s: nat, v: nat, n: nat, done: nat)
    requires done <= n && (forall w :: v <= w < v + done ==> HasLeaf(t, s, w))
    requires (done < n ==> !HasLeaf(t, s, v + done))
    ensures NoneMapped(UnmapRange(m, s, v, done).tabs, s, v, n) <==> AllReached(t, m.tabs, s, v, n)
  {
    hide HasLeaf, UnmapRange;
    var tabs := UnmapRange(m, s, v, done).tabs;
    forall w: nat | v <= w < v + n
      ensures (s, w) in tabs <==> (s, w) in m.tabs && w >= v + done
      ensures Reached(t, s, v, w) <==> w < v + done
    {
      UnmapRangeTabs(m, s, v, done, (s, w));
    }
    if NoneMapped(tabs, s, v, n) {
      forall w | v <= w < v + n && (s, w) in m.tabs ensures Reached(t, s, v, w) { assert (s, w) !in tabs; }
    }
    if AllReached(t, m.tabs, s, v, n) {
      forall w | v <= w < v + n ensures (s, w) !in tabs { assert (s, w) in m.tabs ==> Reached(t, s, v, w); }
    }
  }

  /** A mapped page has a reference left to give back. */
  lemma MappedHasRef(m: Mem, k: Slot)
    requires Inv(m) && k in m.tabs
    ensures m.tabs[k].frame in m.refs && m.refs[m.tabs[k].frame] > 0
  {
    var f := m.tabs[k].frame;
    assert EntryOk(m, k) && CountOk(m, f);
    assert k in Mappers(m.tabs, f);
  }

  /** `com_mm_pmm_is_shared` of the page behind a slot. */
  ghost predicate Shared(m: Mem, k: Slot)
    requires k in m.tabs
  {
    m.tabs[k].frame in m.refs && m.refs[m.tabs[k].frame] > 1
  }

  /** The physical page behind a slot, the null page when it maps none. */
  ghost function FrameAt(m: Mem, k: Slot): nat { if k in m.tabs then m.tabs[k].frame else NULL_FRAME }

  /** The MAP branch of the fault handler on `n` pages that all carry the faulting page's flags. */
  ghost predicate MapFaultOk(m: Mem, s: nat, v: nat, g: nat, n: nat, e: Pte)
    decreases n
  {
    n == 0 || (Enabled(m, MapFaultOp((s, v), g)) && m.tabs[(s, v)] == e
               && MapFaultOk(MapFault(m, (s, v), g), s, v + 1, g + 1, n - 1, e))
  }

  ghost function MapFaultRange(m: Mem, s: nat, v: nat, g: nat, n: nat, e: Pte): Mem
    requires MapFaultOk(m, s, v, g, n, e)
    decreases n
  {
    if n == 0 then m else MapFaultRange(MapFault(m, (s, v), g), s, v + 1, g + 1, n - 1, e)
  }

  /** The entry after a fault, on the fresh page `g`. */
  function Remapped(e: Pte, g: nat): Pte {
    e.(frame := g, write := e.write || e.priv, priv := false, nocopy := false)
  }

  lemma FaultRangeMapped(m: Mem, s: nat, v: nat, g: nat, n: nat, e: Pte)
    requires MapFaultOk(m, s, v, g, n, e)
    ensures var m' := MapFaultRange(m, s, v, g, n, e);
      RangeMapped(m.tabs, m'.tabs, s, v, n, i => Remapped(e, if i >= 0 then g + i else 0))
  {
    hide MapFaultRange, MapFaultOk;
    var m' := MapFaultRange(m, s, v, g, n, e);
    forall k: Slot
      ensures k in m'.tabs <==> InRange(k, s, v, n) || k in m.tabs
      ensures InRange(k, s, v, n) ==> m'.tabs[k] == Remapped(e, g + (k.1 - v))
      ensures !InRange(k, s, v, n) && k in m.tabs ==> m'.tabs[k] == m.tabs[k]
    {
      MapFaultRangeSlots(m, s, v, g, n, e, k);
    }
  }

  /** A copy-on-write fault, field by field: the entry is upgraded in place if the page has one reference, else
      remapped to a copy, and the old page loses a reference. */
  ghost predicate CowServed(m: Mem, m': Mem, s: nat, v: nat, g: nat)
    requires (s, v) in m.tabs
  {
    var e, f := m.tabs[(s, v)], m.tabs[(s, v)].frame;
    && f in m.refs && f in m.data
    && if m.refs[f] <= 1 then
         RangeMapped(m.tabs, m'.tabs, s, v, 1, _ => Remapped(e, f)) && m'.refs == m.refs && m'.data == m.data
       else
         && RangeMapped(m.tabs, m'.tabs, s, v, 1, _ => Remapped(e, g))
         && m'.refs == m.refs[g := 1][f := m.refs[f] - 1] && m'.data == m.data[g := m.data[f]]
  }

  lemma CowFaultLaw(m: Mem, s: nat, v: nat, g: nat)
    requires (s, v) in m.tabs && m.tabs[(s, v)].frame in m.refs && m.tabs[(s, v)].frame in m.data
    ensures CowServed(m, CowFault(m, (s, v), g), s, v, g)
  {}

  class Vmm {
    const mmu: Mmu
    const zero: nat
    /** The page tables of the contexts alive, and each context's `anon_pages`. */
    var spaces: set<nat>
    var anon: map<nat, nat>
    /** Contents of the pages in state TAKEN. */
    var data: map<nat, Page>
    ghost var holds: map<nat, nat>

    /** The state the copy-on-write model sees. */
    ghost function Flat(): Mem
      reads this, mmu
    {
      Mem(spaces, TabsOf(mmu.tables, spaces), mmu.refs, holds, data, zero)
    }

    ghost predicate Valid()
      reads this, mmu
    {
      mmu.Valid() && spaces <= mmu.Roots() && anon.Keys == spaces && Inv(Flat())
    }

    /** `com_mm_vmm_init`: no contexts, and one allocated page that stays zero. */
    constructor (mmu: Mmu, zero: nat)
      requires mmu.Valid() && mmu.refs == map[zero := 1] && zero != NULL_FRAME
      ensures this.mmu == mmu && this.zero == zero && Valid() && Flat() == Boot(zero)
    {
      this.mmu := mmu;
      this.zero := zero;
      spaces, anon := {}, map[];
      data, holds := map[zero := ZeroBytes()], map[zero := 1];
      new;
      TabsNone(mmu.tables);
    }

    /** `com_mm_pmm_free`: pages that are not TAKEN are left alone. */
    method PmmFree(f: nat)
      modifies mmu`refs
      requires f in mmu.refs ==> mmu.refs[f] > 0
      ensures mmu.refs == if f in old(mmu.refs) then old(mmu.refs)[f := old(mmu.refs)[f] - 1] else old(mmu.refs)
    {
      if f in mmu.refs {
        mmu.refs := mmu.refs[f := mmu.refs[f] - 1];
      }
    }

    /** `com_mm_vmm_new_context`. */
    method NewContext() returns (s: Option<nat>)
      requires Valid()
      modifies this`spaces, this`anon, mmu`tables, mmu`owner, mmu`pool
      ensures Valid()
      ensures s.None? ==> Flat() == old(Flat()) && mmu.pool == []
      ensures s.Some? ==>
                s.value !in old(spaces) && Flat() == NewSpace(old(Flat()), s.value) && anon == old(anon)[s.value := 0]
      ensures s.Some? ==> spaces == old(spaces) + {s.value} && Flat().tabs == old(Flat()).tabs
    {
      hide MmuOk, RootsOf, Inv, TabsOf, Entry;
      ghost var m, t := Flat(), mmu.tables;
      RootsAreTables();
      s := mmu.NewTable();
      if s.None? { return; }
      var n := s.value;
      forall r: nat, w: nat | r in m.spaces && w < USER_PAGES
        ensures Entry(mmu.tables, r, LEVELS, w) == Entry(t, r, LEVELS, w)
      {
        assert mmu.Get(r, w) == old(mmu.Get(r, w));
      }
      forall w: nat | w < USER_PAGES ensures Entry(mmu.tables, n, LEVELS, w) == ZERO_PTE {
        assert mmu.Get(n, w) == ZERO_PTE;
      }
      spaces := spaces + {n};
      anon := anon[n := 0];
      TabsSame(t, mmu.tables, m.spaces, spaces);
      StepKeepsInv(m, NewSpaceOp(n));
    }

    lemma RootsAreTables()
      requires mmu.Valid()
      ensures forall r :: r in mmu.Roots() ==> r in mmu.tables
    {
    }

    /** `arch_mmu_map` for a user page of one context, seen flat.  A page that has an entry has a leaf
        table, so replacing its entry needs no table page. */
    method MapEntryAt(s: nat, v: nat, e: Pte) returns (ok: bool)
      requires mmu.Valid() && s in spaces && spaces <= mmu.Roots() && v < USER_PAGES && e.present
      modifies mmu`tables, mmu`owner, mmu`pool
      ensures mmu.Valid() && spaces <= mmu.Roots()
      ensures ok ==> Flat() == old(Flat()).(tabs := old(Flat()).tabs[(s, v) := e])
      ensures !ok ==> Flat() == old(Flat()) && mmu.pool == []
      ensures (s, v) in old(Flat()).tabs ==> ok && mmu.pool == old(mmu.pool)
    {
      hide MmuOk, RootsOf, TabsOf, Entry;
      ghost var t := mmu.tables;
      if (s, v) in Flat().tabs { MappedLeaf(t, spaces, s, v); }
      ok := mmu.Map(s, v, e);
      forall r: nat, w: nat | r in spaces && w < USER_PAGES
        ensures Entry(mmu.tables, r, LEVELS, w) == if ok && w == v && r == s then e else Entry(t, r, LEVELS, w)
      {
        assert mmu.Get(r, w) == if ok && w == v && (r == s || v >= USER_PAGES) then e else old(mmu.Get(r, w));
      }
      if ok {
        TabsPut(t, mmu.tables, spaces, s, v, e);
      } else {
        TabsSame(t, mmu.tables, spaces, spaces);
      }
    }

    /** One page of the loop of `com_mm_vmm_map` for a mapping of physical page `f`. */
    method MapOne(s: nat, v: nat, f: nat, fl: Flags, private: bool, shared: bool) returns (ok: bool)
      requires Valid() && Enabled(Flat(), MapOp((s, v), f, fl, private, shared))
      modifies this`holds, mmu`tables, mmu`owner, mmu`pool
      ensures ok ==> Valid() && Flat() == MapPage(old(Flat()), (s, v), f, fl, private, shared)
      ensures !ok ==> mmu.pool == []
    {
      hide MmuOk, RootsOf, Inv, TabsOf;
      ghost var m := Flat();
      StepKeepsInv(m, MapOp((s, v), f, fl, private, shared));
      ok := MapEntryAt(s, v, MapEntry(f, fl, private, shared, false));
      holds := holds[f := holds[f] - 1];
    }

    /** One page of the loop with ALLOCATE. */
    method MapZeroOne(s: nat, v: nat, fl: Flags, shared: bool) returns (ok: bool)
      requires Valid() && Enabled(Flat(), MapZeroOp((s, v), fl, shared))
      modifies mmu`tables, mmu`owner, mmu`pool, mmu`refs
      ensures ok ==> Valid() && Flat() == MapZero(old(Flat()), (s, v), fl, shared)
      ensures !ok ==> mmu.pool == []
    {
      hide MmuOk, RootsOf, Inv, TabsOf;
      ghost var m := Flat();
      StepKeepsInv(m, MapZeroOp((s, v), fl, shared));
      mmu.Hold(zero);
      ok := MapEntryAt(s, v, MapEntry(zero, fl, true, shared, true));
    }

    /** Where a mapping goes: the caller's hint, or pages of the context's anonymous arena that no earlier
        call has given out. */
    method PlaceMapping(s: nat, hint: Option<nat>, n: nat) returns (v: nat)
      requires s in anon
      modifies this`anon
      ensures hint.Some? ==> v == hint.value && anon == old(anon)
      ensures hint.None? ==> v == ANON_START + old(anon)[s] && anon == old(anon)[s := old(anon)[s] + n]
      ensures hint.None? ==>
                PageRange(v, n) !! old(Given(anon[s])) && Given(anon[s]) == old(Given(anon[s])) + PageRange(v, n)
    {
      if hint.Some? { return hint.value; }
      v := ANON_START + anon[s];
      anon := anon[s := anon[s] + n];
    }

    /** `com_mm_vmm_map` of `n` physical pages from `f` on, one reference of each handed over.  The
        kernel panics when a table page cannot be had; then nothing is promised. */
    method MapPhysical(s: nat, v: nat, f: nat, n: nat, fl: Flags, private: bool, shared: bool) returns (ok: bool)
      requires Valid() && MapRangeOk(Flat(), s, v, f, n, fl, private, shared)
      modifies this`holds, mmu`tables, mmu`owner, mmu`pool
      ensures ok ==> Valid() && Flat() == MapRange(old(Flat()), s, v, f, n, fl, private, shared)
      ensures ok ==> RangeMapped(old(Flat()).tabs, Flat().tabs, s, v, n,
                                 i => MapEntry(if i >= 0 then f + i else 0, fl, private, shared, false))
      ensures !ok ==> mmu.pool == []
    {
      hide MmuOk, RootsOf, Inv, TabsOf, MapPage, Enabled, RangeMapped, MapEntry;
      PhysicalRangeMapped(Flat(), s, v, f, n, fl, private, shared);
      var i := 0;
      while i < n
        invariant 0 <= i <= n
        invariant Valid()
        invariant MapRangeOk(Flat(), s, v + i, f + i, n - i, fl, private, shared)
        invariant MapRange(Flat(), s, v + i, f + i, n - i, fl, private, shared)
             == MapRange(old(Flat()), s, v, f, n, fl, private, shared)
      {
        ok := MapOne(s, v + i, f + i, fl, private, shared);
        if !ok { return; }
        i := i + 1;
      }
      ok := true;
    }

    /** `com_mm_vmm_map` with ALLOCATE. */
    method MapAllocate(s: nat, v: nat, n: nat, fl: Flags, shared: bool) returns (ok: bool)
      requires Valid() && s in spaces && v + n <= USER_PAGES && fl.present
      modifies mmu`tables, mmu`owner, mmu`pool, mmu`refs
      ensures zero in old(mmu.refs)
      ensures ok ==> Valid() && Flat() == MapZeroRange(old(Flat()), s, v, n, fl, shared)
      ensures ok ==> RangeMapped(old(Flat()).tabs, Flat().tabs, s, v, n, _ => MapEntry(zero, fl, true, shared, true))
      ensures ok ==> mmu.refs == old(mmu.refs)[zero := old(mmu.refs)[zero] + n]
      ensures !ok ==> mmu.pool == []
    {
      hide MmuOk, RootsOf, TabsOf, MapZero, RangeMapped, MapEntry, Inv;
      ZeroKnown(Flat());
      ZeroRangeMapped(Flat(), s, v, n, fl, shared);
      var i := 0;
      while i < n
        invariant 0 <= i <= n
        invariant Valid() && zero in mmu.refs
        invariant MapZeroRange(Flat(), s, v + i, n - i, fl, shared) == MapZeroRange(old(Flat()), s, v, n, fl, shared)
      {
        ok := MapZeroOne(s, v + i, fl, shared);
        if !ok { return; }
        ZeroKnown(Flat());
        i := i + 1;
      }
      ok := true;
    }

    /** The first loop of `com_mm_vmm_unmap`: clear entries until one has no leaf table. */
    method ClearEntries(s: nat, v: nat, n: nat) returns (frames: seq<nat>)
      requires Valid() && s in spaces && v + n <= USER_PAGES
      modifies mmu`tables
      ensures mmu.Valid() && mmu.Roots() == old(mmu.Roots()) && |frames| <= n
      ensures Flat() == old(Flat()).(tabs := UnmapRange(old(Flat()), s, v, |frames|).tabs)
      ensures forall j :: 0 <= j < |frames| ==> frames[j] == FrameAt(old(Flat()), (s, v + j))
      ensures forall w :: v <= w < v + |frames| ==> HasLeaf(old(mmu.tables), s, w)
      ensures |frames| < n ==> !HasLeaf(old(mmu.tables), s, v + |frames|)
    {
      hide MmuOk, RootsOf, Inv, TabsOf, Entry, Leaf;
      frames := [];
      ghost var m := Flat();
      while |frames| < n
        invariant |frames| <= n
        invariant mmu.Valid() && mmu.Roots() == old(mmu.Roots())
        invariant TabsOf(mmu.tables, spaces) == UnmapRange(m, s, v, |frames|).tabs
        invariant forall j :: 0 <= j < |frames| ==> frames[j] == FrameAt(m, (s, v + j))
        invariant forall w :: v <= w < v + |frames| ==> HasLeaf(old(mmu.tables), s, w)
        invariant forall r: nat, w: nat :: r in mmu.Roots() && w < ALL_PAGES ==>
                    Leaf(mmu.tables, r, LEVELS, w) == Leaf(old(mmu.tables), r, LEVELS, w)
      {
        var done := ClearOne(s, v, n, frames, m);
        if done.None? { return; }
        frames := frames + [done.value];
      }
    }

    /** One round of that loop. */
    method ClearOne(s: nat, v: nat, n: nat, frames: seq<nat>, ghost m: Mem) returns (frame: Option<nat>)
      requires mmu.Valid() && Inv(m) && s in spaces && spaces <= mmu.Roots() && v + n <= USER_PAGES && |frames| < n
      requires TabsOf(mmu.tables, spaces) == UnmapRange(m, s, v, |frames|).tabs
      modifies mmu`tables
      ensures mmu.Valid() && mmu.Roots() == old(mmu.Roots())
      ensures frame.None? <==> Leaf(old(mmu.tables), s, LEVELS, v + |frames|).None?
      ensures frame.None? ==> mmu.tables == old(mmu.tables)
      ensures frame.Some? ==> TabsOf(mmu.tables, spaces) == UnmapRange(m, s, v, |frames| + 1).tabs
      ensures frame.Some? ==> frame.value == FrameAt(m, (s, v + |frames|))
      ensures forall r: nat, w: nat :: r in mmu.Roots() && w < ALL_PAGES ==>
                Leaf(mmu.tables, r, LEVELS, w) == Leaf(old(mmu.tables), r, LEVELS, w)
    {
      hide MmuOk, RootsOf, Inv, TabsOf, Entry, Leaf;
      ghost var t := mmu.tables;
      var page := v + |frames|;
      var ok, old_ := mmu.Unmap(s, page);
      if !ok { return None; }
      forall r: nat, w: nat | r in spaces && w < USER_PAGES
        ensures Entry(mmu.tables, r, LEVELS, w) == if w == page && r == s then ZERO_PTE else Entry(t, r, LEVELS, w)
      {
        assert mmu.Get(r, w)
            == if ok && w == page && (r == s || page >= USER_PAGES) then ZERO_PTE else old(mmu.Get(r, w));
      }
      TabsClear(t, mmu.tables, spaces, s, page);
      TabsAt(t, spaces, (s, page));
      UnmapRangeTabs(m, s, v, |frames|, (s, page));
      return Some(old_);
    }

    /** `com_mm_vmm_unmap`: the pages before the first one without a leaf table are unmapped and
        give their references back; the rest of the range is left as it was. */
    method Unmap(s: nat, v: nat, n: nat) returns (done: nat)
      requires Valid() && s in spaces && v + n <= USER_PAGES
      modifies mmu`tables, mmu`refs
      ensures Valid() && done <= n
      ensures Flat() == UnmapRange(old(Flat()), s, v, done)
      ensures forall w :: v <= w < v + done ==> HasLeaf(old(mmu.tables), s, w)
      ensures done < n ==> !HasLeaf(old(mmu.tables), s, v + done)
      ensures NoneMapped(Flat().tabs, s, v, n) <==> AllReached(old(mmu.tables), old(Flat()).tabs, s, v, n)
    {
      hide MmuOk, RootsOf, Inv, TabsOf, Entry, Leaf, HasLeaf, NoneMapped, AllReached;
      ghost var m := Flat();
      var frames := ClearEntries(s, v, n);
      done := |frames|;
      var i := 0;
      UnmapRangeTabs(m, s, v, 0, (s, v));
      while i < done
        invariant 0 <= i <= done
        invariant mmu.Valid() && mmu.Roots() == old(mmu.Roots())
        invariant Flat() == m.(tabs := UnmapRange(m, s, v, done).tabs, refs := UnmapRange(m, s, v, i).refs)
      {
        FreeOne(m, s, v, i, frames[i]);
        PmmFree(frames[i]);
        i := i + 1;
      }
      UnmapRangeTabs(m, s, v, done, (s, v));
      UnmapRangeInv(m, s, v, done);
      StopsEarly(old(mmu.tables), m, s, v, n, done);
    }

    lemma FreeOne(m: Mem, s: nat, v: nat, i: nat, f: nat)
      requires Inv(m) && f == FrameAt(m, (s, v + i))
      ensures var r := UnmapRange(m, s, v, i).refs;
        && (f in r ==> r[f] > 0)
        && UnmapRange(m, s, v, i + 1).refs == if f in r then r[f := r[f] - 1] else r
    {
      UnmapRangeTabs(m, s, v, i, (s, v + i));
      UnmapRangeInv(m, s, v, i);
      var m1 := UnmapRange(m, s, v, i);
      if (s, v + i) in m.tabs { MappedHasRef(m1, (s, v + i)); }
    }

    /** `com_mm_vmm_duplicate_context`. */
    method DuplicateContext(s: nat) returns (ok: bool, n: nat)
      requires Valid() && s in spaces
      modifies this`spaces, this`anon, mmu`tables, mmu`owner, mmu`pool, mmu`refs
      ensures !ok ==> mmu.pool == []
      ensures ok ==> Valid() && n !in old(spaces) && Flat() == Fork(old(Flat()), s, n)
      ensures ok ==> spaces == old(spaces) + {n}
      ensures ok ==> anon == old(anon)[n := old(anon)[s]]
    {
      hide MmuOk, RootsOf, Inv, TabsOf, Entry, Forked, UserTaken, ForkTabs, MappersIn, UserUses;
      ghost var m, t, roots := Flat(), mmu.tables, mmu.Roots();
      ForkReady(s);
      RootsAreTables();
      ok, n := mmu.DuplicateTable(s);
      if !ok { return; }
      TabsFork(t, mmu.tables, roots, spaces, s, n);
      forall f | f in mmu.refs ensures mmu.refs[f] == m.refs[f] + |MappersIn(m.tabs, s, f)| {
        UsesMappers(t, spaces, s, f);
      }
      spaces := spaces + {n};
      anon := anon[n := anon[s]];
      ForkKeepsInv(m, s, n);
      assert mmu.refs == Fork(m, s, n).refs;
      assert Flat() == Fork(m, s, n);
    }

    lemma ForkReady(s: nat)
      requires Valid() && s in spaces
      ensures UserTaken(mmu.refs, mmu.tables, s)
      ensures forall v: nat :: v < USER_PAGES ==>
                Entry(mmu.tables, s, LEVELS, v) == ZERO_PTE || Entry(mmu.tables, s, LEVELS, v).present
    {
      hide Entry, TabsOf;
      forall v: nat | v < USER_PAGES
        ensures TakenAt(mmu.refs, mmu.tables, s, LEVELS, v)
        ensures Entry(mmu.tables, s, LEVELS, v) == ZERO_PTE || Entry(mmu.tables, s, LEVELS, v).present
      {
        TabsAt(mmu.tables, spaces, (s, v));
        assert (s, v) in Flat().tabs ==> EntryOk(Flat(), (s, v));
      }
    }

    /** The MAP branch of `com_mm_vmm_handle_fault`: `n` fresh zeroed pages from `g` on replace the
        zero page at the `n` pages from `v` on, which all carry the faulting entry `e`. */
    method FaultMap(s: nat, v: nat, g: nat, n: nat, e: Pte)
      requires Valid() && MapFaultOk(Flat(), s, v, g, n, e)
      modifies this`data, this`holds, mmu`tables, mmu`owner, mmu`pool, mmu`refs
      ensures Valid() && Flat() == MapFaultRange(old(Flat()), s, v, g, n, e)
      ensures RangeMapped(old(Flat()).tabs, Flat().tabs, s, v, n, i => Remapped(e, if i >= 0 then g + i else 0))
    {
      hide MmuOk, RootsOf, Inv, TabsOf, MapFault, Enabled, RangeMapped, Remapped;
      FaultRangeMapped(Flat(), s, v, g, n, e);
      var i := 0;
      while i < n
        invariant 0 <= i <= n
        invariant Valid()
        invariant MapFaultOk(Flat(), s, v + i, g + i, n - i, e)
        invariant MapFaultRange(Flat(), s, v + i, g + i, n - i, e) == MapFaultRange(old(Flat()), s, v, g, n, e)
      {
        FaultMapOne(s, v + i, g + i, e);
        i := i + 1;
      }
    }

    method FaultMapOne(s: nat, v: nat, g: nat, e: Pte)
      requires Valid() && Enabled(Flat(), MapFaultOp((s, v), g)) && Flat().tabs[(s, v)] == e
      modifies this`data, this`holds, mmu`tables, mmu`owner, mmu`pool, mmu`refs
      ensures Valid() && Flat() == MapFault(old(Flat()), (s, v), g)
    {
      hide MmuOk, RootsOf, Inv, TabsOf;
      ghost var m := Flat();
      SlotFacts(m, (s, v));
      StepKeepsInv(m, MapFaultOp((s, v), g));
      mmu.refs := mmu.refs[g := 1];
      holds := holds[g := 0];
      data := data[g := ZeroBytes()];
      var _ := MapEntryAt(s, v, Upgrade(e).(frame := g));
    }

    lemma SlotFacts(m: Mem, k: Slot)
      requires Inv(m) && k in m.tabs
      ensures k.0 in m.spaces && k.1 < USER_PAGES && m.tabs[k].present
      ensures m.tabs[k].frame in m.refs && m.tabs[k].frame in m.data && m.tabs[k].frame in m.holds
    {
      assert EntryOk(m, k);
    }

    /** The COW branch: upgrade in place if `com_mm_pmm_is_shared` is false, else copy into `g`. */
    method FaultCow(s: nat, v: nat, g: nat, e: Pte)
      requires Valid() && (s, v) in Flat().tabs && Flat().tabs[(s, v)] == e && e.priv && !e.nocopy
      requires Shared(Flat(), (s, v)) ==> Fresh(Flat(), g)
      modifies this`data, this`holds, mmu`tables, mmu`owner, mmu`pool, mmu`refs
      ensures e.frame in old(mmu.refs) && e.frame in old(data)
      ensures Valid() && Flat() == CowFault(old(Flat()), (s, v), g)
      ensures CowServed(old(Flat()), Flat(), s, v, g)
    {
      hide MmuOk, RootsOf, Inv, TabsOf, CowServed;
      ghost var m := Flat();
      SlotFacts(m, (s, v));
      MappedHasRef(m, (s, v));
      CowFaultLaw(m, s, v, g);
      if mmu.refs[e.frame] > 1 { CopyKeepsInv(m, (s, v), g); } else { UpgradeKeepsInv(m, (s, v)); }
      var f := e.frame;
      if !(mmu.refs[f] > 1) {
        var _ := MapEntryAt(s, v, Upgrade(e));
        return;
      }
      mmu.refs := mmu.refs[g := 1];
      holds := holds[g := 0];
      data := data[g := data[f]];
      var _ := MapEntryAt(s, v, Upgrade(e).(frame := g));
      PmmFree(f);
    }

    /** The entry of a user page, as the fault code reads it. */
    method ReadEntry(s: nat, v: nat) returns (e: Pte)
      requires Valid() && (s, v) in Flat().tabs
      ensures e == Flat().tabs[(s, v)]
    {
      hide MmuOk, RootsOf, Inv, TabsOf;
      SlotFacts(Flat(), (s, v));
      TabsAt(mmu.tables, spaces, (s, v));
      var leaf := mmu.GetPage(s, v);
      e := mmu.tables[leaf.value][v % FANOUT];
    }

    /** The fault handler on a mapped page: NOCOPY asks for fresh pages (MAP), the copy-on-write bit
        for an upgrade or a copy (COW), anything else is the process's fault. */
    method HandleFault(s: nat, v: nat, g: nat, n: nat) returns (r: FaultResult)
      requires Valid() && (s, v) in Flat().tabs && n >= 1
      requires Flat().tabs[(s, v)].nocopy ==> MapFaultOk(Flat(), s, v, g, n, Flat().tabs[(s, v)])
      requires Flat().tabs[(s, v)].priv && !Flat().tabs[(s, v)].nocopy && Shared(Flat(), (s, v)) ==> Fresh(Flat(), g)
      modifies this`data, this`holds, mmu`tables, mmu`owner, mmu`pool, mmu`refs
      ensures Valid() && (r == Segv <==> !old(Flat()).tabs[(s, v)].nocopy && !old(Flat()).tabs[(s, v)].priv)
      ensures var m, e := old(Flat()), old(Flat()).tabs[(s, v)];
        && (r == Segv ==> Flat() == m)
        && (r == Served && e.nocopy ==> Flat() == MapFaultRange(m, s, v, g, n, e))
        && (r == Served && !e.nocopy ==> e.frame in m.refs && e.frame in m.data && Flat() == CowFault(m, (s, v), g))
    {
      hide MmuOk, RootsOf, Inv, TabsOf, MapFaultRange, CowFault, MapFaultOk;
      SlotFacts(Flat(), (s, v));
      var e := ReadEntry(s, v);
      r := Served;
      if e.nocopy {
        FaultMap(s, v, g, n, e);
      } else if e.priv {
        FaultCow(s, v, g, e);
      } else {
        r := Segv;
      }
    }

    /** A user store instruction at byte `off` of page `v`, faulting first if it must. */
    method UserStore(s: nat, v: nat, off: nat, b: byte, g: nat) returns (r: FaultResult)
      requires Valid() && (s, v) in Flat().tabs && off < PAGE_SIZE && Fresh(Flat(), g)
      modifies this`data, this`holds, mmu`tables, mmu`owner, mmu`pool, mmu`refs
      ensures r == Served <==> old(Flat()).tabs[(s, v)].write || old(Flat()).tabs[(s, v)].priv
      ensures Valid() && Flat() == Isolation.UserWrite(old(Flat()), (s, v), g, off, b)
      ensures r == Served ==> (s, v) in Flat().tabs && Flat().tabs[(s, v)].frame in data
      ensures r == Served ==> data[Flat().tabs[(s, v)].frame][off] == b
    {
      hide MmuOk, RootsOf, Inv, TabsOf, CowFault, MapFault;
      ghost var m := Flat();
      SlotFacts(m, (s, v));
      var e := ReadEntry(s, v);
      r := Served;
      if !e.write {
        r := HandleFault(s, v, g, 1);
        if r == Segv { return; }
        FaultKeepsSlot(m, (s, v), g);
        e := ReadEntry(s, v);
      }
      if e.write {
        StoreByte(s, v, e.frame, off, b);
      } else {
        r := Segv;
      }
    }

    lemma FaultKeepsSlot(m: Mem, k: Slot, g: nat)
      requires Inv(m) && k in m.tabs && Fresh(m, g)
      ensures m.tabs[k].frame in m.refs && m.tabs[k].frame in m.data
      ensures k in CowFault(m, k, g).tabs && k in MapFault(m, k, g).tabs
      ensures m.tabs[k].priv ==> CowFault(m, k, g).tabs[k].write
      ensures MapFault(m, k, g).tabs[k].write <==> m.tabs[k].write || m.tabs[k].priv
    {
      SlotFacts(m, k);
    }

    method StoreByte(s: nat, v: nat, f: nat, off: nat, b: byte)
      requires Valid() && (s, v) in Flat().tabs && Flat().tabs[(s, v)].write && f == Flat().tabs[(s, v)].frame
      requires off < PAGE_SIZE
      modifies this`data
      ensures f in old(data) && Valid() && Flat() == Store(old(Flat()), (s, v), off, b)
    {
      hide MmuOk, RootsOf, Inv, TabsOf;
      SlotFacts(Flat(), (s, v));
      StepKeepsInv(Flat(), StoreOp((s, v), off, b));
      data := data[f := data[f][off := b]];
    }

    /** `com_mm_pmm_alloc` by kernel code, which then holds the page. */
    method AllocPage(g: nat)
      requires Valid() && Fresh(Flat(), g)
      modifies this`data, this`holds, mmu`refs
      ensures Valid() && Flat() == Alloc(old(Flat()), g)
      ensures mmu.refs == old(mmu.refs)[g := 1] && data == old(data)[g := ZeroBytes()] && g in holds && holds[g] == 1
    {
      hide MmuOk, RootsOf, Inv, TabsOf;
      StepKeepsInv(Flat(), AllocOp(g));
      mmu.refs := mmu.refs[g := 1];
      holds := holds[g := 1];
      data := data[g := ZeroBytes()];
    }

    /** `com_mm_pmm_hold` by a holder. */
    method HoldPage(f: nat)
      requires Valid() && Enabled(Flat(), HoldOp(f))
      modifies this`holds, mmu`refs
      ensures Valid() && Flat() == Cow.Hold(old(Flat()), f)
      ensures f in old(mmu.refs) && mmu.refs == old(mmu.refs)[f := old(mmu.refs)[f] + 1]
    {
      hide MmuOk, RootsOf, Inv, TabsOf;
      StepKeepsInv(Flat(), HoldOp(f));
      mmu.Hold(f);
      holds := holds[f := holds[f] + 1];
    }

    /** `com_mm_pmm_free` by a holder. */
    method ReleasePage(f: nat)
      requires Valid() && Enabled(Flat(), ReleaseOp(f))
      modifies this`holds, mmu`refs
      ensures Valid() && Flat() == Release(old(Flat()), f)
      ensures f in old(mmu.refs) && mmu.refs == old(mmu.refs)[f := old(mmu.refs)[f] - 1]
    {
      hide MmuOk, RootsOf, Inv, TabsOf;
      StepKeepsInv(Flat(), ReleaseOp(f));
      PmmFree(f);
      holds := holds[f := holds[f] - 1];
    }

    /** A kernel store into a held page, as a file write does. */
    method KernelStoreByte(f: nat, off: nat, b: byte)
      requires Valid() && Enabled(Flat(), KernelStoreOp(f, off, b))
      modifies this`data
      ensures Valid() && Flat() == KernelStore(old(Flat()), f, off, b)
      ensures off < PAGE_SIZE && f in data && data[f][off] == b
      ensures forall g :: g in old(data) && g != f ==> g in data && data[g] == old(data)[g]
    {
      hide MmuOk, RootsOf, Inv, TabsOf;
      StepKeepsInv(Flat(), KernelStoreOp(f, off, b));
      data := data[f := data[f][off := b]];
    }
  }
}
