/** The virtual memory manager on top of the physical allocator (`src/com/mm/vmm.c`, `src/com/mm/pmm.c`): the
    pages faults are served with come from the free list, belong to nobody and are zero. */
module MachineCode {
  import opened Options
  import opened Pages
  import opened FreeList
  import opened RunHeads
  import opened PmmCode
  import opened Cow
  import opened VmmView
  import opened MmuCode
  import opened VmmCode
  import Isolation

  class Machine {
    const pmm: Pmm
    const vmm: Vmm

    /** Both are in order, every page with references is TAKEN, and page 0 is not usable memory. */
    ghost predicate Valid()
      reads this, pmm, pmm.meta, vmm, vmm.mmu
    {
      && pmm.Valid() && vmm.Valid() && 0 !in PagesOf(pmm.free)
      && vmm.mmu.refs.Keys <= TakenPages(pmm.meta[..])
    }

    constructor (pmm: Pmm, vmm: Vmm)
      requires pmm.Valid() && vmm.Valid() && 0 !in PagesOf(pmm.free)
      requires vmm.mmu.refs.Keys <= TakenPages(pmm.meta[..])
      ensures Valid() && this.pmm == pmm && this.vmm == vmm
    {
      this.pmm := pmm;
      this.vmm := vmm;
    }

    /** `com_mm_pmm_alloc` for the virtual memory manager: none exactly when the free list is empty; else a
        zeroed page without references, while nothing mapped changes. */
    method TakePage() returns (r: Option<nat>)
      requires Valid()
      modifies pmm, pmm.meta
      ensures Valid() && (r.None? <==> old(pmm.free) == []) && vmm.Flat() == old(vmm.Flat())
      ensures r.Some? ==> Fresh(vmm.Flat(), r.value) && PageAt(pmm.ram, r.value) == ZeroBytes()
      ensures r.Some? ==> r.value in TakenPages(pmm.meta[..])
    {
      hide Ok, PagesOf, TakenPages, Inv;
      r := pmm.Alloc();
      if r.Some? {
        HandedPage(pmm.where, old(pmm.free), old(pmm.meta[..]), old(pmm.ram), old(pmm.usedBytes), old(pmm.freeBytes),
                   pmm.ram, pmm.free, pmm.meta[..], r.value);
      }
    }

    /** A page for the kernel's own use, such as the page cache. */
    method AllocPage() returns (r: Option<nat>)
      requires Valid()
      modifies pmm, pmm.meta, vmm`data, vmm`holds, vmm.mmu`refs
      ensures Valid() && (r.None? <==> old(pmm.free) == [])
      ensures r.None? ==> vmm.Flat() == old(vmm.Flat())
      ensures r.Some? ==> Fresh(old(vmm.Flat()), r.value) && vmm.Flat() == Cow.Alloc(old(vmm.Flat()), r.value)
    {
      hide Ok, PagesOf, TakenPages, Inv;
      r := TakePage();
      if r.Some? { vmm.AllocPage(r.value); }
    }

    /** A user store instruction with its fault, served from the free list: the flat user write that
        `Isolation.PrivateWriteIsolated` speaks of.  It fails for want of a page exactly when the fault
        needs one and none is free, where a KASSERT of the allocator stops the kernel. */
    method UserStore(s: nat, v: nat, off: nat, b: byte) returns (r: Option<FaultResult>, ghost g: nat)
      requires Valid() && (s, v) in vmm.Flat().tabs && off < PAGE_SIZE
      modifies pmm, pmm.meta, vmm`data, vmm`holds, vmm.mmu`tables, vmm.mmu`owner, vmm.mmu`pool, vmm.mmu`refs
      ensures r.None? <==> old(NeedsPage(vmm.Flat(), (s, v))) && old(pmm.free) == []
      ensures r.None? ==> Valid() && vmm.Flat() == old(vmm.Flat())
      ensures r.Some? ==> Valid() && Fresh(old(vmm.Flat()), g)
      ensures r.Some? ==> vmm.Flat() == Isolation.UserWrite(old(vmm.Flat()), (s, v), g, off, b)
      ensures r.Some? ==>
                (r.value == Served <==> old(vmm.Flat()).tabs[(s, v)].write || old(vmm.Flat()).tabs[(s, v)].priv)
    {
      hide Ok, PagesOf, TakenPages, Inv, Isolation.UserWrite, MmuOk, TabsOf;
      vmm.SlotFacts(vmm.Flat(), (s, v));
      var e := vmm.ReadEntry(s, v);
      if !e.write && (e.nocopy || (e.priv && vmm.mmu.refs[e.frame] > 1)) {
        var p := TakePage();
        if p.None? { return None, 0; }
        g := p.value;
        KeysAfter(vmm.Flat(), (s, v), g, off, b);
        var served := vmm.UserStore(s, v, off, b, p.value);
        return Some(served), g;
      }
      g := UnusedFrame(vmm.Flat());
      var served := StoreInPlace(s, v, off, b, e, g);
      r := Some(served);
    }

    /** A store that needs no new page. */
    method StoreInPlace(s: nat, v: nat, off: nat, b: byte, e: Pte, ghost g: nat) returns (r: FaultResult)
      requires Valid() && (s, v) in vmm.Flat().tabs && off < PAGE_SIZE && e == vmm.Flat().tabs[(s, v)]
      requires !NeedsPage(vmm.Flat(), (s, v)) && Fresh(vmm.Flat(), g)
      modifies vmm`data, vmm`holds, vmm.mmu`tables, vmm.mmu`owner, vmm.mmu`pool, vmm.mmu`refs
      ensures Valid() && vmm.Flat() == Isolation.UserWrite(old(vmm.Flat()), (s, v), g, off, b)
      ensures r == Served <==> e.write || e.priv
    {
      hide Ok, PagesOf, TakenPages, Inv, Isolation.UserWrite, MmuOk, TabsOf;
      ghost var m := vmm.Flat();
      InPlace(m, (s, v), g, off, b);
      if !e.write && e.priv {
        vmm.FaultCow(s, v, 0, e);
      }
      if e.write || e.priv {
        vmm.StoreByte(s, v, e.frame, off, b);
        r := Served;
      } else {
        r := Segv;
      }
    }
  }

  /** A store through this slot takes a fault that needs a page. */
  ghost predicate NeedsPage(m: Mem, k: Slot)
    requires k in m.tabs
  {
    !m.tabs[k].write && (m.tabs[k].nocopy || (m.tabs[k].priv && Shared(m, k)))
  }

  /** Otherwise the entry is at most upgraded where it is. */
  lemma InPlace(m: Mem, k: Slot, g: nat, off: nat, b: byte)
    requires Inv(m) && k in m.tabs && Fresh(m, g) && off < PAGE_SIZE && !NeedsPage(m, k)
    ensures m.tabs[k].frame in m.refs && m.tabs[k].frame in m.data
    ensures var e, m' := m.tabs[k], Isolation.UserWrite(m, k, g, off, b);
      m' == if e.write then Store(m, k, off, b)
            else if e.priv then
              var m1 := CowFault(m, k, 0);
              m1.(data := m1.data[e.frame := m1.data[e.frame][off := b]])
            else m
  {
    assert EntryOk(m, k);
  }

  lemma KeysAfter(m: Mem, k: Slot, g: nat, off: nat, b: byte)
    requires Inv(m) && k in m.tabs && Fresh(m, g) && off < PAGE_SIZE
    ensures Isolation.UserWrite(m, k, g, off, b).refs.Keys <= m.refs.Keys + {g}
  {
    assert EntryOk(m, k);
  }

  /** Some page without references. */
  ghost function UnusedFrame(m: Mem): (g: nat)
    ensures Fresh(m, g)
  {
    Above(m.refs.Keys)
  }

  ghost function Above(s: set<nat>): (g: nat)
    ensures g > 0 && forall x :: x in s ==> x < g
  {
    if s == {} then 1
    else
      var x :| x in s;
      var g := Above(s - {x});
      assert forall y :: y in s ==> y == x || y in s - {x};
      if x < g then g else x + 1
  }
}
