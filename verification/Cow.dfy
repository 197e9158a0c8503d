/** Copy-on-write address spaces, seen flat: every address space is a map from page number to
    page-table entry, every physical page taken from the allocator carries its reference count,
    its bytes and the number of references the kernel itself holds on it.

    The module gives one function per kernel operation and proves that every run of them keeps
    the global counting invariant `Inv`.  The four-level tables are in `PageTable`, the in-place
    kernel code that performs these operations in `Vmm`, and the refinement to separate private
    memories in `Isolation`. */
module Cow {
  import opened Pages

  /** An address-space slot: (address space, user page number). */
  type Slot = (nat, nat)

  /** `tabs` holds every non-zero user entry of every address space.  `refs` is `num_ref` of each
      page in state TAKEN, `holds` how many of those references are held by the kernel (page
      cache, a freshly allocated page not mapped yet, the zero page) rather than by entries. */
  datatype Mem = Mem(
    spaces: set<nat>,
    tabs: map<Slot, Pte>,
    refs: map<nat, nat>,
    holds: map<nat, nat>,
    data: map<nat, Page>,
    zero: nat)

  /** The slots that map physical page `f`. */
  ghost function Mappers(tabs: map<Slot, Pte>, f: nat): set<Slot> {
    set k | k in tabs && tabs[k].frame == f
  }

  ghost predicate EntryOk(m: Mem, k: Slot)
    requires k in m.tabs
  {
    var e := m.tabs[k];
    && e.present
    && k.0 in m.spaces
    && k.1 < USER_PAGES
    && e.frame in m.refs && e.frame in m.holds
    && (e.write ==> !e.priv)
    && (e.nocopy ==> e.frame == m.zero)
    && (e.frame == m.zero ==> !e.write)
    // a page writable through a non-shared entry has that entry as its only reference
    && (e.write && !e.shared ==> Mappers(m.tabs, e.frame) == {k} && m.holds[e.frame] == 0)
  }

  ghost predicate CountOk(m: Mem, f: nat)
    requires f in m.refs && f in m.holds
  {
    m.refs[f] >= |Mappers(m.tabs, f)| + m.holds[f]
  }

  ghost predicate Inv(m: Mem) {
    && m.refs.Keys == m.holds.Keys == m.data.Keys
    && m.zero in m.refs && m.holds[m.zero] > 0
    && m.data[m.zero] == ZeroBytes()
    && NULL_FRAME !in m.refs
    && (forall k :: k in m.tabs ==> EntryOk(m, k))
    && (forall f :: f in m.refs ==> CountOk(m, f))
  }

  // ------------------------------------------------------------------ operations

  /** `com_mm_vmm_new_context`: an empty address space. */
  ghost function NewSpace(m: Mem, s: nat): Mem {
    m.(spaces := m.spaces + {s})
  }

  /** `com_mm_pmm_alloc`: a fresh zeroed page, one reference, held by the caller. */
  ghost function Alloc(m: Mem, f: nat): Mem {
    m.(refs := m.refs[f := 1], holds := m.holds[f := 1], data := m.data[f := ZeroBytes()])
  }

  /** `com_mm_pmm_hold` by a holder. */
  ghost function Hold(m: Mem, f: nat): Mem
    requires f in m.refs && f in m.holds
  {
    m.(refs := m.refs[f := m.refs[f] + 1], holds := m.holds[f := m.holds[f] + 1])
  }

  /** `com_mm_pmm_free` by a holder. */
  ghost function Release(m: Mem, f: nat): Mem
    requires f in m.refs && f in m.holds && m.refs[f] > 0 && m.holds[f] > 0
  {
    m.(refs := m.refs[f := m.refs[f] - 1], holds := m.holds[f := m.holds[f] - 1])
  }

  /** The kernel stores into a page it holds (a file write through the page cache). */
  ghost function KernelStore(m: Mem, f: nat, off: nat, b: byte): Mem
    requires f in m.data && off < PAGE_SIZE
  {
    m.(data := m.data[f := m.data[f][off := b]])
  }

  /** One page of `com_mm_vmm_map` onto physical page `f`; the caller's reference goes to the entry. */
  ghost function MapPage(m: Mem, k: Slot, f: nat, fl: Flags, private: bool, shared: bool): Mem
    requires f in m.holds && m.holds[f] > 0
  {
    m.(tabs := m.tabs[k := MapEntry(f, fl, private, shared, false)],
       holds := m.holds[f := m.holds[f] - 1])
  }

  /** One page of `com_mm_vmm_map` with ALLOCATE: the zero page, held once more. */
  ghost function MapZero(m: Mem, k: Slot, fl: Flags, shared: bool): Mem
    requires m.zero in m.refs
  {
    m.(tabs := m.tabs[k := MapEntry(m.zero, fl, true, shared, true)],
       refs := m.refs[m.zero := m.refs[m.zero] + 1])
  }

  /** The slots of address space `p` that map `f`. */
  ghost function MappersIn(tabs: map<Slot, Pte>, p: nat, f: nat): set<Slot> {
    set k | k in tabs && k.0 == p && tabs[k].frame == f
  }

  /** Where a slot of the forked tables comes from: the child's slots from the parent's. */
  ghost function Origin(p: nat, c: nat, k: Slot): Slot {
    if k.0 == c then (p, k.1) else k
  }

  ghost function InSpace(s: set<Slot>, c: nat): set<Slot> { set k | k in s :: (c, k.1) }

  /** `arch_mmu_duplicate_table`: parent `p` and child `c` both get the downgraded entries, and
      every page is held once per entry copied. */
  ghost function ForkTabs(tabs: map<Slot, Pte>, p: nat, c: nat): map<Slot, Pte> {
    map k | k in tabs.Keys + InSpace(tabs.Keys, c) && Origin(p, c, k) in tabs ::
      var o := Origin(p, c, k);
      if o.0 == p then Dup(tabs[o]) else tabs[o]
  }

  ghost function Fork(m: Mem, p: nat, c: nat): Mem {
    m.(spaces := m.spaces + {c},
       tabs := ForkTabs(m.tabs, p, c),
       refs := map f | f in m.refs :: m.refs[f] + |MappersIn(m.tabs, p, f)|)
  }

  /** One page of `com_mm_vmm_unmap`. */
  ghost function Unmap(m: Mem, k: Slot): Mem {
    if k !in m.tabs then m else
      var f := m.tabs[k].frame;
      m.(tabs := m.tabs - {k},
         refs := if f in m.refs && m.refs[f] > 0 then m.refs[f := m.refs[f] - 1] else m.refs)
  }

  /** COW branch of `com_mm_vmm_handle_fault`: upgrade in place when `com_mm_pmm_is_shared` is
      false, otherwise copy into the fresh page `g` and drop the reference on the old one. */
  ghost function CowFault(m: Mem, k: Slot, g: nat): Mem
    requires k in m.tabs && m.tabs[k].frame in m.refs && m.tabs[k].frame in m.data
  {
    var e := m.tabs[k];
    var f := e.frame;
    if m.refs[f] <= 1 then
      m.(tabs := m.tabs[k := Upgrade(e)])
    else
      m.(tabs := m.tabs[k := Upgrade(e).(frame := g)],
         refs := m.refs[g := 1][f := m.refs[f] - 1],
         holds := m.holds[g := 0],
         data := m.data[g := m.data[f]])
  }

  /** MAP branch of `com_mm_vmm_handle_fault`, one page: a fresh zeroed page replaces the zero page
      without copying and without giving its reference back. */
  ghost function MapFault(m: Mem, k: Slot, g: nat): Mem
    requires k in m.tabs
  {
    m.(tabs := m.tabs[k := Upgrade(m.tabs[k]).(frame := g)],
       refs := m.refs[g := 1],
       holds := m.holds[g := 0],
       data := m.data[g := ZeroBytes()])
  }

  /** A user store through a writable entry. */
  ghost function Store(m: Mem, k: Slot, off: nat, b: byte): Mem
    requires k in m.tabs && m.tabs[k].frame in m.data && off < PAGE_SIZE
  {
    KernelStore(m, m.tabs[k].frame, off, b)
  }

  /** The reference a caller must own to map `f` the way it asks to: any reference for a
      read-only, private or shared mapping, the only one for a plain writable mapping. */
  ghost predicate MayMap(m: Mem, f: nat, fl: Flags, private: bool, shared: bool) {
    && f in m.holds && f in m.refs && m.holds[f] > 0 && f != m.zero && fl.present
    && (fl.write && !private && !shared ==> m.holds[f] == 1 && Mappers(m.tabs, f) == {})
  }

  datatype Op =
    | NewSpaceOp(s: nat)
    | AllocOp(f: nat)
    | HoldOp(f: nat)
    | ReleaseOp(f: nat)
    | KernelStoreOp(f: nat, off: nat, b: byte)
    | MapOp(k: Slot, f: nat, fl: Flags, private: bool, shared: bool)
    | MapZeroOp(k: Slot, fl: Flags, shared: bool)
    | ForkOp(p: nat, c: nat)
    | UnmapOp(k: Slot)
    | CowFaultOp(k: Slot, g: nat)
    | MapFaultOp(k: Slot, g: nat)
    | StoreOp(k: Slot, off: nat, b: byte)

  ghost predicate Fresh(m: Mem, g: nat) { g !in m.refs && g != NULL_FRAME }

  ghost predicate SlotOk(m: Mem, k: Slot) { k.0 in m.spaces && k.1 < USER_PAGES }

  /** What the kernel and the hardware guarantee when each operation starts: new spaces and pages
      are new, only a holder holds, releases or stores, faults come from the entries that cause
      them, and a user store goes through a writable entry. */
  ghost predicate Enabled(m: Mem, op: Op) {
    match op
    case NewSpaceOp(s) => s !in m.spaces
    case AllocOp(f) => Fresh(m, f)
    case HoldOp(f) => f in m.holds && f in m.refs && m.holds[f] > 0
    case ReleaseOp(f) => f in m.holds && f in m.refs && m.holds[f] > 0 && m.refs[f] > 0 && f != m.zero
    case KernelStoreOp(f, off, _) => f in m.holds && f in m.data && m.holds[f] > 0 && f != m.zero && off < PAGE_SIZE
    case MapOp(k, f, fl, private, shared) => SlotOk(m, k) && MayMap(m, f, fl, private, shared)
    case MapZeroOp(k, fl, _) => SlotOk(m, k) && fl.present && m.zero in m.refs
    case ForkOp(p, c) => p in m.spaces && c !in m.spaces
    case UnmapOp(k) => true
    case CowFaultOp(k, g) => k in m.tabs && m.tabs[k].priv && !m.tabs[k].nocopy && Fresh(m, g)
                             && m.tabs[k].frame in m.refs && m.tabs[k].frame in m.data
    case MapFaultOp(k, g) => k in m.tabs && m.tabs[k].nocopy && Fresh(m, g)
    case StoreOp(k, off, _) => k in m.tabs && m.tabs[k].write && m.tabs[k].frame in m.data && off < PAGE_SIZE
  }

  ghost function Step(m: Mem, op: Op): Mem
    requires Enabled(m, op)
  {
    match op
    case NewSpaceOp(s) => NewSpace(m, s)
    case AllocOp(f) => Alloc(m, f)
    case HoldOp(f) => Hold(m, f)
    case ReleaseOp(f) => Release(m, f)
    case KernelStoreOp(f, off, b) => KernelStore(m, f, off, b)
    case MapOp(k, f, fl, private, shared) => MapPage(m, k, f, fl, private, shared)
    case MapZeroOp(k, fl, shared) => MapZero(m, k, fl, shared)
    case ForkOp(p, c) => Fork(m, p, c)
    case UnmapOp(k) => Unmap(m, k)
    case CowFaultOp(k, g) => CowFault(m, k, g)
    case MapFaultOp(k, g) => MapFault(m, k, g)
    case StoreOp(k, off, b) => Store(m, k, off, b)
  }
}
