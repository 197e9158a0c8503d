/** The 64-bit word of a page-table entry and the bit operations the kernel performs on it, tied to the
    entries of `Pages` (table format: section 4.5 of the Intel SDM, volume 3A; flag bits:
    `include/kernel/platform/x86-64/arch/mmu.h`). */
module EntryBits {
  import opened Pages

  const PRESENT: bv64 := 0x1
  const WRITE: bv64 := 0x2
  const USER: bv64 := 0x4
  const PRIVATE: bv64 := 0x200
  const SHARED: bv64 := 0x400
  const NOCOPY: bv64 := 0x800
  const ADDRMASK: bv64 := 0x7FFF_FFFF_FFFF_F000
  /** Every bit that is none of the above: caching, GLOBAL, NOEXEC. */
  const REST: bv64 := 0x8000_0000_0000_01F8

  predicate Has(w: bv64, bit: bv64) { w & bit != 0 }

  /** The page number in the address bits, and the carried bits, as numbers. */
  function FrameOf(address: bv64): nat { (address >> 12) as nat }

  function RestOf(bits: bv64): nat { bits as nat }

  /** Word `w` is the entry `e`. */
  ghost predicate Means(w: bv64, e: Pte) {
    && e.present == Has(w, PRESENT) && e.write == Has(w, WRITE) && e.user == Has(w, USER)
    && e.priv == Has(w, PRIVATE) && e.shared == Has(w, SHARED) && e.nocopy == Has(w, NOCOPY)
    && e.frame == FrameOf(w & ADDRMASK) && e.rest == RestOf(w & REST)
  }

  // ------------------------------------------------------------------ fork

  /** The leaf case of `duplicate_recursive`; PRIVATE is bit 9. */
  function DupWord(w: bv64): bv64 {
    if Has(w, SHARED) then w else (w & !WRITE) | (if Has(w, WRITE) then PRIVATE else 0)
  }

  lemma DupAddress(w: bv64)
    ensures DupWord(w) & ADDRMASK == w & ADDRMASK
  {}

  lemma DupRest(w: bv64)
    ensures DupWord(w) & REST == w & REST
  {}

  lemma DupWordFlags(w: bv64)
    ensures DupWord(w) & (PRESENT | USER | SHARED | NOCOPY) == w & (PRESENT | USER | SHARED | NOCOPY)
    ensures Has(DupWord(w), WRITE) == (Has(w, WRITE) && Has(w, SHARED))
    ensures Has(DupWord(w), PRIVATE) == (Has(w, PRIVATE) || (Has(w, WRITE) && !Has(w, SHARED)))
  {}

  lemma FlagBits(w: bv64, x: bv64)
    requires x & (PRESENT | USER | SHARED | NOCOPY) == w & (PRESENT | USER | SHARED | NOCOPY)
    ensures Has(x, PRESENT) == Has(w, PRESENT) && Has(x, USER) == Has(w, USER)
    ensures Has(x, SHARED) == Has(w, SHARED) && Has(x, NOCOPY) == Has(w, NOCOPY)
  {}

  lemma DupFlags(w: bv64)
    ensures Has(DupWord(w), PRESENT) == Has(w, PRESENT) && Has(DupWord(w), USER) == Has(w, USER)
    ensures Has(DupWord(w), SHARED) == Has(w, SHARED) && Has(DupWord(w), NOCOPY) == Has(w, NOCOPY)
    ensures Has(DupWord(w), WRITE) == (Has(w, WRITE) && Has(w, SHARED))
    ensures Has(DupWord(w), PRIVATE) == (Has(w, PRIVATE) || (Has(w, WRITE) && !Has(w, SHARED)))
  {
    DupWordFlags(w);
    FlagBits(w, DupWord(w));
  }

  /** The fork's bit arithmetic is `Dup`. */
  lemma DupWordMeans(w: bv64, e: Pte)
    requires Means(w, e)
    ensures Means(DupWord(w), Dup(e))
  {
    hide DupWord, Has, FrameOf, RestOf;
    DupAddress(w);
    DupRest(w);
    DupFlags(w);
  }

  // ------------------------------------------------------------------ fault

  /** `mmu_flags_hint` as `x86_64_mmu_fault_isr` computes it. */
  function HintFlags(w: bv64): bv64 {
    var flags := w & !ADDRMASK;
    var writable := if Has(w, PRIVATE) then (flags & !PRIVATE) | WRITE else flags;
    if Has(w, NOCOPY) then writable & !NOCOPY else writable
  }

  /** `arch_mmu_map` of physical page `g` with these flags. */
  function MapWord(phys: bv64, flags: bv64): bv64 { (phys & ADDRMASK) | flags }

  lemma HintBits(w: bv64, phys: bv64)
    ensures MapWord(phys, HintFlags(w)) & ADDRMASK == phys & ADDRMASK
    ensures MapWord(phys, HintFlags(w)) & (PRESENT | USER | SHARED) == w & (PRESENT | USER | SHARED)
    ensures Has(MapWord(phys, HintFlags(w)), WRITE) == (Has(w, WRITE) || Has(w, PRIVATE))
    ensures !Has(MapWord(phys, HintFlags(w)), PRIVATE) && !Has(MapWord(phys, HintFlags(w)), NOCOPY)
  {}

  lemma HintRest(w: bv64, phys: bv64)
    ensures MapWord(phys, HintFlags(w)) & REST == w & REST
  {}

  lemma KeptBits(w: bv64, x: bv64)
    requires x & (PRESENT | USER | SHARED) == w & (PRESENT | USER | SHARED)
    ensures Has(x, PRESENT) == Has(w, PRESENT) && Has(x, USER) == Has(w, USER) && Has(x, SHARED) == Has(w, SHARED)
  {}

  /** The entry a served fault installs is the upgraded entry on the page given. */
  lemma HintMeans(w: bv64, e: Pte, phys: bv64)
    requires Means(w, e)
    ensures Means(MapWord(phys, HintFlags(w)), Upgrade(e).(frame := FrameOf(phys & ADDRMASK)))
  {
    hide MapWord, HintFlags, Has, FrameOf, RestOf;
    HintBits(w, phys);
    HintRest(w, phys);
    KeptBits(w, MapWord(phys, HintFlags(w)));
  }

  // ------------------------------------------------------------------ map

  /** The flags `com_mm_vmm_map` derives from the caller's. */
  function MapFlags(flags: bv64, private: bool, shared: bool, alloc: bool): bv64 {
    var f := if shared then flags | SHARED else flags;
    var n := if alloc then f | NOCOPY else f;
    if (private || alloc) && Has(n, WRITE) then (n & !WRITE) | PRIVATE else n
  }

  /** The caller's flag word: READ, WRITE, USER and carried bits only. */
  ghost predicate FlagsMean(flags: bv64, fl: Flags) {
    && fl.present == Has(flags, PRESENT) && fl.write == Has(flags, WRITE) && fl.user == Has(flags, USER)
    && fl.rest == RestOf(flags & REST) && flags & (PRIVATE | SHARED | NOCOPY | ADDRMASK) == 0
  }

  lemma MapBits(flags: bv64, private: bool, shared: bool, alloc: bool, phys: bv64)
    requires flags & (PRIVATE | SHARED | NOCOPY | ADDRMASK) == 0
    ensures var x := MapWord(phys, MapFlags(flags, private, shared, alloc));
      && x & ADDRMASK == phys & ADDRMASK && x & REST == flags & REST
      && Has(x, PRESENT) == Has(flags, PRESENT) && Has(x, USER) == Has(flags, USER)
      && Has(x, WRITE) == (Has(flags, WRITE) && !(private || alloc))
      && Has(x, PRIVATE) == (Has(flags, WRITE) && (private || alloc))
      && Has(x, SHARED) == shared && Has(x, NOCOPY) == alloc
  {}

  /** The word `com_mm_vmm_map` stores is `MapEntry`. */
  lemma MapMeans(flags: bv64, fl: Flags, private: bool, shared: bool, alloc: bool, phys: bv64)
    requires FlagsMean(flags, fl)
    ensures Means(MapWord(phys, MapFlags(flags, private, shared, alloc)),
                  MapEntry(FrameOf(phys & ADDRMASK), fl, private, shared, alloc))
  {
    hide MapWord, MapFlags, Has, FrameOf, RestOf;
    MapBits(flags, private, shared, alloc, phys);
  }
}
