/** Page-table entries and physical pages as the kernel's memory code sees them. */
module Pages {
  const PAGE_SIZE: nat := 4096

  /** Entries per table: 512 words of 8 bytes. */
  const FANOUT: nat := 512

  /** Page numbers below this one belong to user space (the low half of the 48-bit range). */
  const USER_PAGES: nat := 0x8_0000_0000

  /** All page numbers a four-level walk can address. */
  const ALL_PAGES: nat := 0x10_0000_0000

  /** Physical page 0, which the kernel uses as the null page. */
  const NULL_FRAME: nat := 0

  type byte = x: int | 0 <= x < 256
  type Page = s: seq<byte> | |s| == PAGE_SIZE witness seq(PAGE_SIZE, _ => 0)

  /** `s` with `d` copied in at `o`. */
  function Patch(s: seq<byte>, o: nat, d: seq<byte>): (r: seq<byte>)
    requires o + |d| <= |s|
    ensures |r| == |s|
  {
    s[..o] + d + s[o + |d|..]
  }

  function ZeroBytes(): Page { seq(PAGE_SIZE, _ => 0) }

  /** The flags a caller passes to `com_mm_vmm_map`; `rest` is every bit the memory code only
      carries along (caching, GLOBAL, NOEXEC).  READ and PRESENT are the same bit. */
  datatype Flags = Flags(present: bool, write: bool, user: bool, rest: nat)

  /** A page-table entry.  `priv` is the copy-on-write bit (bit 9), `shared` bit 10, `nocopy`
      bit 11; `frame` is the physical page number. */
  datatype Pte = Pte(
    frame: nat, present: bool, write: bool, user: bool, shared: bool, priv: bool, nocopy: bool, rest: nat)

  const ZERO_PTE := Pte(0, false, false, false, false, false, false, 0)

  /** The entry `com_mm_vmm_map` builds: SHARED and NOCOPY are added as asked, and a private
      writable mapping loses WRITE and gains the copy-on-write bit. */
  function MapEntry(f: nat, fl: Flags, private: bool, shared: bool, alloc: bool): Pte {
    var cow := (private || alloc) && fl.write;
    Pte(f, fl.present, fl.write && !cow, fl.user, shared, cow, alloc, fl.rest)
  }

  /** The leaf case of `duplicate_recursive`: a shared entry is copied, any other loses WRITE and
      keeps the fact that it was writable in the copy-on-write bit. */
  function Dup(e: Pte): Pte {
    if e.shared then e else e.(write := false, priv := e.priv || e.write)
  }

  /** `mmu_flags_hint` of the fault handler: the entry as it will be once the fault is served. */
  function Upgrade(e: Pte): Pte {
    e.(write := e.write || e.priv, priv := false, nocopy := false)
  }
}
