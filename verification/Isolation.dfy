/** Refinement of the copy-on-write kernel to address spaces that own separate memory.

    The abstract machine `Spec` has no physical pages and no reference counts.  A slot either owns
    its bytes outright, or views a memory object (a page-cache page, the zero page, a shared
    page).  Fork copies owned bytes; a private write to a viewed object first takes a snapshot.
    Every run of the kernel is a run of this machine, with the same bytes readable at every slot. */
module Isolation {
  import opened Pages
  import opened Cow
  import opened CowInvariant

  datatype Source = Own(bytes: Page) | Obj(id: nat)
  datatype Access = ReadOnly | Direct | OnCopy
  datatype SPage = SPage(src: Source, access: Access, shared: bool)
  datatype Spec = Spec(spaces: set<nat>, pages: map<Slot, SPage>, objs: map<nat, Page>, held: map<nat, nat>)

  /** The bytes a user reads at a slot. */
  ghost function Content(a: Spec, k: Slot): Page
    requires k in a.pages
  {
    match a.pages[k].src
    case Own(b) => b
    case Obj(o) => if o in a.objs then a.objs[o] else ZeroBytes()
  }

  ghost function Held(a: Spec, f: nat): nat { if f in a.held then a.held[f] else 0 }

  ghost function Obtained(x: Access): Access { if x == OnCopy then Direct else x }

  /** The slot stops viewing its object and keeps the bytes it read there: as its own when the
      mapping is private, as a new object `g` when it is shared. */
  ghost function Snapshot(a: Spec, k: Slot, g: nat): Spec
    requires k in a.pages
  {
    var p := a.pages[k];
    if p.src.Own? then a
    else if !p.shared then a.(pages := a.pages[k := SPage(Own(Content(a, k)), Obtained(p.access), false)])
    else a.(pages := a.pages[k := SPage(Obj(g), Obtained(p.access), true)], objs := a.objs[g := Content(a, k)])
  }

  /** `g` is a good name for the snapshot of slot `k` (an owned slot needs none): new, or the viewed object's
      own name when nothing else can see that object. */
  ghost predicate GoodName(a: Spec, k: Slot, g: nat)
    requires k in a.pages
  {
    a.pages[k].src.Own? || g !in a.objs
    || (&& a.pages[k].src == Obj(g) && Held(a, g) == 0
        && forall q :: q in a.pages && q != k ==> a.pages[q].src != Obj(g))
  }

  ghost function MapAccess(fl: Flags, private: bool): Access {
    if !fl.write then ReadOnly else if private then OnCopy else Direct
  }

  ghost function SFork(a: Spec, p: nat, c: nat): map<Slot, SPage> {
    map k | k in a.pages.Keys + InSpace(a.pages.Keys, c) && Origin(p, c, k) in a.pages :: a.pages[Origin(p, c, k)]
  }

  ghost function SStore(a: Spec, k: Slot, off: nat, b: byte): Spec
    requires k in a.pages && off < PAGE_SIZE
  {
    match a.pages[k].src
    case Own(s) => a.(pages := a.pages[k := a.pages[k].(src := Own(s[off := b]))])
    case Obj(o) => a.(objs := a.objs[o := Content(a, k)[off := b]])
  }

  /** When the abstract machine allows an operation; `g` is the name a fault gives a snapshot. */
  ghost predicate SEnabled(a: Spec, op: Op, zero: nat, g: nat) {
    match op
    case NewSpaceOp(s) => s !in a.spaces
    case AllocOp(f) => f !in a.objs && Held(a, f) == 0
    case HoldOp(f) => Held(a, f) > 0
    case ReleaseOp(f) => Held(a, f) > 0
    case KernelStoreOp(f, off, b) => Held(a, f) > 0 && f in a.objs && off < PAGE_SIZE
    case MapOp(k, f, fl, private, shared) => k.0 in a.spaces && Held(a, f) > 0 && f in a.objs
    case MapZeroOp(k, fl, shared) => k.0 in a.spaces && zero in a.objs
    case ForkOp(p, c) => p in a.spaces && c !in a.spaces
    case UnmapOp(k) => true
    case CowFaultOp(k, _) => k in a.pages && a.pages[k].access != ReadOnly && GoodName(a, k, g)
    case MapFaultOp(k, _) => k in a.pages && GoodName(a, k, g)
    case StoreOp(k, off, b) => k in a.pages && a.pages[k].access == Direct && off < PAGE_SIZE
  }

  ghost function SStep(a: Spec, op: Op, zero: nat, g: nat): Spec
    requires SEnabled(a, op, zero, g)
  {
    match op
    case NewSpaceOp(s) => a.(spaces := a.spaces + {s})
    case AllocOp(f) => a.(objs := a.objs[f := ZeroBytes()], held := a.held[f := 1])
    case HoldOp(f) => a.(held := a.held[f := Held(a, f) + 1])
    case ReleaseOp(f) => a.(held := a.held[f := Held(a, f) - 1])
    case KernelStoreOp(f, off, b) => a.(objs := a.objs[f := a.objs[f][off := b]])
    case MapOp(k, f, fl, private, shared) =>
      var plain := fl.write && !private && !shared;
      a.(pages := a.pages[k := SPage(if plain then Own(a.objs[f]) else Obj(f), MapAccess(fl, private), shared)],
         held := a.held[f := Held(a, f) - 1])
    case MapZeroOp(k, fl, shared) => a.(pages := a.pages[k := SPage(Obj(zero), MapAccess(fl, true), shared)])
    case ForkOp(p, c) => a.(spaces := a.spaces + {c}, pages := SFork(a, p, c))
    case UnmapOp(k) => a.(pages := a.pages - {k})
    case CowFaultOp(k, _) => Snapshot(a, k, g)
    case MapFaultOp(k, _) => Snapshot(a, k, g)
    case StoreOp(k, off, b) => SStore(a, k, off, b)
  }

  // ------------------------------------------------------------------ simulation relation

  /** Slot `k`, where `w` is the set of physical pages that back owned slots: an owned slot's page
      holds exactly its bytes; a viewing slot maps the page of its object. */
  ghost predicate PageRel(m: Mem, a: Spec, w: set<nat>, k: Slot)
    requires k in m.tabs && k in a.pages
  {
    var e := m.tabs[k];
    var p := a.pages[k];
    && p.shared == e.shared
    && e.frame in m.data
    && (p.src.Own? <==> e.frame in w)
    && match p.src
       case Own(b) =>
         && !e.shared && m.data[e.frame] == b
         && p.access == (if e.write || e.priv then Direct else ReadOnly)
       case Obj(o) =>
         && o == e.frame && o in a.objs && a.objs[o] == m.data[o]
         && p.access == (if e.write then Direct else if e.priv then OnCopy else ReadOnly)
         && (e.write ==> e.shared)
  }

  ghost predicate HeldRel(m: Mem, a: Spec, f: nat) {
    && Held(a, f) == (if f in m.holds then m.holds[f] else 0)
    && (Held(a, f) > 0 ==> f in a.objs && f in m.data && a.objs[f] == m.data[f])
  }

  ghost predicate Rel(m: Mem, a: Spec, w: set<nat>) {
    && a.spaces == m.spaces
    && a.pages.Keys == m.tabs.Keys
    && a.objs.Keys <= m.refs.Keys
    && m.zero in a.objs
    && w <= m.refs.Keys
    && (forall f :: f in w ==> Held(a, f) == 0)
    && (forall f: nat :: HeldRel(m, a, f))
    && (forall k :: k in m.tabs ==> PageRel(m, a, w, k))
  }

  /** The name the abstract machine uses for the snapshot a kernel fault takes. */
  ghost function SnapName(m: Mem, op: Op): nat {
    match op
    case CowFaultOp(k, g) =>
      if k in m.tabs && m.tabs[k].frame in m.refs && m.refs[m.tabs[k].frame] <= 1 then m.tabs[k].frame else g
    case MapFaultOp(k, g) => g
    case _ => 0
  }

  /** The pages that back owned slots after the operation. */
  ghost function OwnedAfter(m: Mem, w: set<nat>, op: Op): set<nat> {
    match op
    case MapOp(k, f, fl, private, shared) => if fl.write && !private && !shared then w + {f} else w
    case CowFaultOp(k, _) => if k in m.tabs && !m.tabs[k].shared then w + {SnapName(m, op)} else w
    case MapFaultOp(k, g) => if k in m.tabs && !m.tabs[k].shared then w + {g} else w
    case _ => w
  }

  ghost predicate Simulates(m: Mem, a: Spec, w: set<nat>, op: Op)
    requires Enabled(m, op)
  {
    && SEnabled(a, op, m.zero, SnapName(m, op))
    && Rel(Step(m, op), SStep(a, op, m.zero, SnapName(m, op)), OwnedAfter(m, w, op))
  }

  lemma SimAlloc(m: Mem, a: Spec, w: set<nat>, f: nat)
    requires Inv(m) && Rel(m, a, w) && Enabled(m, AllocOp(f))
    ensures Simulates(m, a, w, AllocOp(f))
  {
    assert HeldRel(m, a, f);
    var m', a' := Step(m, AllocOp(f)), SStep(a, AllocOp(f), m.zero, 0);
    forall g: nat ensures HeldRel(m', a', g) { assert HeldRel(m, a, g); }
    forall k | k in m'.tabs ensures PageRel(m', a', w, k) { assert PageRel(m, a, w, k) && EntryOk(m, k); }
  }

  lemma SimHold(m: Mem, a: Spec, w: set<nat>, op: Op)
    requires Inv(m) && Rel(m, a, w) && Enabled(m, op)
    requires op.HoldOp? || op.ReleaseOp?
    ensures Simulates(m, a, w, op)
  {
    assert HeldRel(m, a, op.f);
    var m', a' := Step(m, op), SStep(a, op, m.zero, 0);
    forall f: nat ensures HeldRel(m', a', f) { assert HeldRel(m, a, f); }
    forall k | k in m'.tabs ensures PageRel(m', a', w, k) { assert PageRel(m, a, w, k); }
  }

  lemma SimKernelStore(m: Mem, a: Spec, w: set<nat>, f: nat, off: nat, b: byte)
    requires Inv(m) && Rel(m, a, w) && Enabled(m, KernelStoreOp(f, off, b))
    ensures Simulates(m, a, w, KernelStoreOp(f, off, b))
  {
    var op := KernelStoreOp(f, off, b);
    assert HeldRel(m, a, f);
    var m', a' := Step(m, op), SStep(a, op, m.zero, 0);
    forall f: nat ensures HeldRel(m', a', f) { assert HeldRel(m, a, f); }
    forall k | k in m'.tabs ensures PageRel(m', a', w, k) { assert PageRel(m, a, w, k); }
  }

  lemma SimNewSpace(m: Mem, a: Spec, w: set<nat>, s: nat)
    requires Inv(m) && Rel(m, a, w) && Enabled(m, NewSpaceOp(s))
    ensures Simulates(m, a, w, NewSpaceOp(s))
  {
    var m', a' := Step(m, NewSpaceOp(s)), SStep(a, NewSpaceOp(s), m.zero, 0);
    forall f: nat ensures HeldRel(m', a', f) { assert HeldRel(m, a, f); }
    forall k | k in m'.tabs ensures PageRel(m', a', w, k) { assert PageRel(m, a, w, k); }
  }

  lemma SimMapPage(m: Mem, a: Spec, w: set<nat>, k: Slot, f: nat, fl: Flags, private: bool, shared: bool, q: Slot)
    requires Inv(m) && Rel(m, a, w) && Enabled(m, MapOp(k, f, fl, private, shared))
    requires SEnabled(a, MapOp(k, f, fl, private, shared), m.zero, 0)
    requires q in m.tabs && q != k
    ensures var op := MapOp(k, f, fl, private, shared); q in Step(m, op).tabs && q in SStep(a, op, m.zero, 0).pages
    ensures var op := MapOp(k, f, fl, private, shared);
            PageRel(Step(m, op), SStep(a, op, m.zero, 0), OwnedAfter(m, w, op), q)
  {
    assert PageRel(m, a, w, q) && EntryOk(m, q);
    assert m.tabs[q].frame == f ==> q in Mappers(m.tabs, f);
  }

  lemma SimMap(m: Mem, a: Spec, w: set<nat>, k: Slot, f: nat, fl: Flags, private: bool, shared: bool)
    requires Inv(m) && Rel(m, a, w) && Enabled(m, MapOp(k, f, fl, private, shared))
    ensures Simulates(m, a, w, MapOp(k, f, fl, private, shared))
  {
    hide EntryOk, CountOk, Mappers;
    var op := MapOp(k, f, fl, private, shared);
    assert HeldRel(m, a, f);
    var m', a', w' := Step(m, op), SStep(a, op, m.zero, 0), OwnedAfter(m, w, op);
    forall g: nat ensures HeldRel(m', a', g) { assert HeldRel(m, a, g); }
    forall q | q in m'.tabs ensures PageRel(m', a', w', q) {
      if q != k { SimMapPage(m, a, w, k, f, fl, private, shared, q); }
    }
  }

  lemma SimMapZero(m: Mem, a: Spec, w: set<nat>, k: Slot, fl: Flags, shared: bool)
    requires Inv(m) && Rel(m, a, w) && Enabled(m, MapZeroOp(k, fl, shared))
    ensures Simulates(m, a, w, MapZeroOp(k, fl, shared))
  {
    var op := MapZeroOp(k, fl, shared);
    assert HeldRel(m, a, m.zero);
    var m', a' := Step(m, op), SStep(a, op, m.zero, 0);
    forall g: nat ensures HeldRel(m', a', g) { assert HeldRel(m, a, g); }
    forall q | q in m'.tabs ensures PageRel(m', a', w, q) {
      if q != k { assert PageRel(m, a, w, q) && EntryOk(m, q); }
    }
  }

  lemma SimForkDomain(m: Mem, a: Spec, w: set<nat>, p: nat, c: nat)
    requires Inv(m) && Rel(m, a, w) && Enabled(m, ForkOp(p, c))
    ensures SFork(a, p, c).Keys == ForkTabs(m.tabs, p, c).Keys
  {
    forall k: Slot ensures k in ForkTabs(m.tabs, p, c) <==> k in SFork(a, p, c) {
      ForkDomain(m, p, c, k);
      if k.0 == c && (p, k.1) in a.pages { assert (c, (p, k.1).1) in InSpace(a.pages.Keys, c); }
    }
  }

  lemma SimForkPage(m: Mem, a: Spec, w: set<nat>, p: nat, c: nat, k: Slot)
    requires Inv(m) && Rel(m, a, w) && Enabled(m, ForkOp(p, c)) && k in ForkTabs(m.tabs, p, c)
    ensures k in SFork(a, p, c)
    ensures PageRel(Fork(m, p, c), SStep(a, ForkOp(p, c), m.zero, 0), w, k)
  {
    SimForkDomain(m, a, w, p, c);
    assert PageRel(m, a, w, Origin(p, c, k)) && EntryOk(m, Origin(p, c, k));
  }

  lemma SimFork(m: Mem, a: Spec, w: set<nat>, p: nat, c: nat)
    requires Inv(m) && Rel(m, a, w) && Enabled(m, ForkOp(p, c))
    ensures Simulates(m, a, w, ForkOp(p, c))
  {
    var op := ForkOp(p, c);
    var m', a' := Step(m, op), SStep(a, op, m.zero, 0);
    SimForkDomain(m, a, w, p, c);
    forall g: nat ensures HeldRel(m', a', g) { assert HeldRel(m, a, g); }
    forall k | k in m'.tabs ensures PageRel(m', a', w, k) {
      SimForkPage(m, a, w, p, c, k);
    }
  }

  lemma SimUnmap(m: Mem, a: Spec, w: set<nat>, k: Slot)
    requires Inv(m) && Rel(m, a, w)
    ensures Simulates(m, a, w, UnmapOp(k))
  {
    hide EntryOk, CountOk, Mappers;
    var op := UnmapOp(k);
    var m', a' := Step(m, op), SStep(a, op, m.zero, 0);
    forall g: nat ensures HeldRel(m', a', g) { assert HeldRel(m, a, g); }
    forall q | q in m'.tabs ensures PageRel(m', a', w, q) { assert PageRel(m, a, w, q); }
  }

  /** Nothing else maps or views the page being upgraded. */
  lemma SoleViewer(m: Mem, a: Spec, w: set<nat>, k: Slot, q: Slot)
    requires Inv(m) && Rel(m, a, w) && k in m.tabs && m.refs[m.tabs[k].frame] <= 1 && q in m.tabs && q != k
    ensures m.tabs[q].frame != m.tabs[k].frame && a.pages[q].src != Obj(m.tabs[k].frame)
  {
    SoleMapper(m, k);
    assert PageRel(m, a, w, q);
    assert q !in Mappers(m.tabs, m.tabs[k].frame);
  }

  lemma SimUpgradePage(m: Mem, a: Spec, w: set<nat>, k: Slot, g: nat, q: Slot)
    requires Inv(m) && Rel(m, a, w) && Enabled(m, CowFaultOp(k, g)) && m.refs[m.tabs[k].frame] <= 1 && q in m.tabs
    ensures PageRel(CowFault(m, k, g), Snapshot(a, k, m.tabs[k].frame), OwnedAfter(m, w, CowFaultOp(k, g)), q)
  {
    assert PageRel(m, a, w, k) && EntryOk(m, k) && PageRel(m, a, w, q);
    if q != k { SoleViewer(m, a, w, k, q); }
  }

  /** The page of the upgraded slot is a good name for its snapshot. */
  lemma UpgradeName(m: Mem, a: Spec, w: set<nat>, k: Slot, g: nat)
    requires Inv(m) && Rel(m, a, w) && Enabled(m, CowFaultOp(k, g)) && m.refs[m.tabs[k].frame] <= 1
    ensures SEnabled(a, CowFaultOp(k, g), m.zero, m.tabs[k].frame)
    ensures Held(a, m.tabs[k].frame) == 0 && (a.pages[k].src.Own? || a.pages[k].src == Obj(m.tabs[k].frame))
  {
    var f := m.tabs[k].frame;
    SoleMapper(m, k);
    assert PageRel(m, a, w, k) && EntryOk(m, k) && HeldRel(m, a, f);
    forall q | q in m.tabs && q != k ensures a.pages[q].src != Obj(f) { SoleViewer(m, a, w, k, q); }
  }

  /** A snapshot changes neither the holders nor the bytes of what is held. */
  lemma SnapshotHeld(m: Mem, m': Mem, a: Spec, k: Slot, g: nat, h: nat)
    requires HeldRel(m, a, h) && k in a.pages && (g == h ==> Held(a, h) == 0)
    requires Held(a, h) == (if h in m'.holds then m'.holds[h] else 0)
    requires Held(a, h) > 0 ==> h in m'.data && h in m.data && m'.data[h] == m.data[h]
    ensures HeldRel(m', Snapshot(a, k, g), h)
  {
  }

  lemma SimUpgrade(m: Mem, a: Spec, w: set<nat>, k: Slot, g: nat)
    requires Inv(m) && Rel(m, a, w) && Enabled(m, CowFaultOp(k, g)) && m.refs[m.tabs[k].frame] <= 1
    ensures Simulates(m, a, w, CowFaultOp(k, g))
  {
    hide EntryOk, CountOk, Mappers, PageRel, GoodName, HeldRel, Inv;
    var op, f := CowFaultOp(k, g), m.tabs[k].frame;
    UpgradeName(m, a, w, k, g);
    var m', a', w' := CowFault(m, k, g), Snapshot(a, k, f), OwnedAfter(m, w, op);
    forall h: nat ensures HeldRel(m', a', h) { HeldFacts(m, a, h); SnapshotHeld(m, m', a, k, f, h); }
    forall q | q in m'.tabs ensures PageRel(m', a', w', q) { SimUpgradePage(m, a, w, k, g, q); }
    forall h | h in w' ensures Held(a', h) == 0 {}
    assert a'.objs.Keys <= m'.refs.Keys && w' <= m'.refs.Keys;
  }

  lemma HeldFacts(m: Mem, a: Spec, h: nat)
    requires HeldRel(m, a, h)
    ensures Held(a, h) == (if h in m.holds then m.holds[h] else 0)
    ensures Held(a, h) > 0 ==> h in a.objs && h in m.data && a.objs[h] == m.data[h]
  {}

  lemma SimCopyPage(m: Mem, a: Spec, w: set<nat>, k: Slot, g: nat, q: Slot)
    requires Inv(m) && Rel(m, a, w) && Enabled(m, CowFaultOp(k, g)) && m.refs[m.tabs[k].frame] > 1 && q in m.tabs
    ensures PageRel(CowFault(m, k, g), Snapshot(a, k, g), OwnedAfter(m, w, CowFaultOp(k, g)), q)
  {
    assert PageRel(m, a, w, k) && EntryOk(m, k) && PageRel(m, a, w, q) && EntryOk(m, q);
  }

  lemma FreshName(m: Mem, a: Spec, w: set<nat>, k: Slot, g: nat)
    requires Inv(m) && Rel(m, a, w) && k in m.tabs && Fresh(m, g)
    ensures g !in a.objs && Held(a, g) == 0 && k in a.pages && GoodName(a, k, g)
    ensures m.tabs[k].priv ==> a.pages[k].access != ReadOnly
    ensures m.tabs[k].frame in m.refs && m.refs.Keys == m.holds.Keys == m.data.Keys && g !in m.refs
  {
    assert PageRel(m, a, w, k) && EntryOk(m, k) && HeldRel(m, a, g);
  }

  lemma SimCopy(m: Mem, a: Spec, w: set<nat>, k: Slot, g: nat)
    requires Inv(m) && Rel(m, a, w) && Enabled(m, CowFaultOp(k, g)) && m.refs[m.tabs[k].frame] > 1
    ensures Simulates(m, a, w, CowFaultOp(k, g))
  {
    hide EntryOk, CountOk, Mappers, PageRel, GoodName, HeldRel, Inv;
    var op := CowFaultOp(k, g);
    FreshName(m, a, w, k, g);
    var m', a', w' := CowFault(m, k, g), Snapshot(a, k, g), OwnedAfter(m, w, op);
    forall h: nat ensures HeldRel(m', a', h) { HeldFacts(m, a, h); SnapshotHeld(m, m', a, k, g, h); }
    forall q | q in m'.tabs ensures PageRel(m', a', w', q) { SimCopyPage(m, a, w, k, g, q); }
    assert a'.objs.Keys <= m'.refs.Keys && w' <= m'.refs.Keys;
  }

  lemma SimMapFaultPage(m: Mem, a: Spec, w: set<nat>, k: Slot, g: nat, q: Slot)
    requires Inv(m) && Rel(m, a, w) && Enabled(m, MapFaultOp(k, g)) && q in m.tabs
    ensures PageRel(MapFault(m, k, g), Snapshot(a, k, g), OwnedAfter(m, w, MapFaultOp(k, g)), q)
  {
    assert PageRel(m, a, w, k) && EntryOk(m, k) && PageRel(m, a, w, q) && EntryOk(m, q);
    if q == k { assert HeldRel(m, a, m.zero); }
  }

  lemma SimMapFault(m: Mem, a: Spec, w: set<nat>, k: Slot, g: nat)
    requires Inv(m) && Rel(m, a, w) && Enabled(m, MapFaultOp(k, g))
    ensures Simulates(m, a, w, MapFaultOp(k, g))
  {
    hide EntryOk, CountOk, Mappers, PageRel, GoodName, HeldRel, Inv;
    var op := MapFaultOp(k, g);
    FreshName(m, a, w, k, g);
    var m', a', w' := MapFault(m, k, g), Snapshot(a, k, g), OwnedAfter(m, w, op);
    forall h: nat ensures HeldRel(m', a', h) { HeldFacts(m, a, h); SnapshotHeld(m, m', a, k, g, h); }
    forall q | q in m'.tabs ensures PageRel(m', a', w', q) { SimMapFaultPage(m, a, w, k, g, q); }
    assert a'.objs.Keys <= m'.refs.Keys && w' <= m'.refs.Keys;
  }

  /** The slot stored through allows it, and its page is its own or an object it sees. */
  lemma StoreEnabled(m: Mem, a: Spec, w: set<nat>, k: Slot, off: nat, b: byte)
    requires Inv(m) && Rel(m, a, w) && Enabled(m, StoreOp(k, off, b))
    ensures SEnabled(a, StoreOp(k, off, b), m.zero, 0)
  {
    assert PageRel(m, a, w, k);
  }

  lemma SimStoreHeld(m: Mem, a: Spec, w: set<nat>, k: Slot, off: nat, b: byte, h: nat)
    requires Inv(m) && Rel(m, a, w) && Enabled(m, StoreOp(k, off, b)) && SEnabled(a, StoreOp(k, off, b), m.zero, 0)
    ensures HeldRel(Store(m, k, off, b), SStore(a, k, off, b), h)
  {
    assert PageRel(m, a, w, k) && EntryOk(m, k) && HeldRel(m, a, h);
  }

  lemma SimStorePage(m: Mem, a: Spec, w: set<nat>, k: Slot, off: nat, b: byte, q: Slot)
    requires Inv(m) && Rel(m, a, w) && Enabled(m, StoreOp(k, off, b)) && SEnabled(a, StoreOp(k, off, b), m.zero, 0)
    requires q in m.tabs
    ensures q in SStore(a, k, off, b).pages && PageRel(Store(m, k, off, b), SStore(a, k, off, b), w, q)
  {
    assert PageRel(m, a, w, k) && EntryOk(m, k) && PageRel(m, a, w, q);
    assert m.tabs[q].frame == m.tabs[k].frame ==> q in Mappers(m.tabs, m.tabs[k].frame);
  }

  lemma SimStore(m: Mem, a: Spec, w: set<nat>, k: Slot, off: nat, b: byte)
    requires Inv(m) && Rel(m, a, w) && Enabled(m, StoreOp(k, off, b))
    ensures Simulates(m, a, w, StoreOp(k, off, b))
  {
    hide EntryOk, CountOk, Mappers, PageRel, HeldRel, Inv;
    var op := StoreOp(k, off, b);
    StoreEnabled(m, a, w, k, off, b);
    StoreObject(m, a, w, k);
    var m', a' := Store(m, k, off, b), SStore(a, k, off, b);
    forall h: nat ensures HeldRel(m', a', h) { SimStoreHeld(m, a, w, k, off, b, h); }
    forall q | q in m'.tabs ensures PageRel(m', a', w, q) { SimStorePage(m, a, w, k, off, b, q); }
  }

  lemma StoreObject(m: Mem, a: Spec, w: set<nat>, k: Slot)
    requires Rel(m, a, w) && k in m.tabs
    ensures k in a.pages && (a.pages[k].src.Obj? ==> a.pages[k].src.id in a.objs)
  {
    assert PageRel(m, a, w, k);
  }

  lemma StepSimulates(m: Mem, a: Spec, w: set<nat>, op: Op)
    requires Inv(m) && Rel(m, a, w) && Enabled(m, op)
    ensures Simulates(m, a, w, op)
  {
    match op
    case MapOp(k, f, fl, private, shared) => SimMap(m, a, w, k, f, fl, private, shared);
    case MapZeroOp(k, fl, shared) => SimMapZero(m, a, w, k, fl, shared);
    case ForkOp(p, c) => SimFork(m, a, w, p, c);
    case UnmapOp(k) => SimUnmap(m, a, w, k);
    case CowFaultOp(k, g) =>
      if m.refs[m.tabs[k].frame] <= 1 { SimUpgrade(m, a, w, k, g); } else { SimCopy(m, a, w, k, g); }
    case MapFaultOp(k, g) => SimMapFault(m, a, w, k, g);
    case StoreOp(k, off, b) => SimStore(m, a, w, k, off, b);
    case NewSpaceOp(s) => SimNewSpace(m, a, w, s);
    case AllocOp(f) => SimAlloc(m, a, w, f);
    case KernelStoreOp(f, off, b) => SimKernelStore(m, a, w, f, off, b);
    case _ => SimHold(m, a, w, op);
  }

  // ------------------------------------------------------------------ whole runs

  /** What a user reads at a mapped slot of the kernel. */
  ghost function Bytes(m: Mem, k: Slot): Page
    requires k in m.tabs && m.tabs[k].frame in m.data
  {
    m.data[m.tabs[k].frame]
  }

  ghost predicate IsSpecRun(a: Spec, zero: nat, ops: seq<Op>, names: seq<nat>)
    requires |names| == |ops|
    decreases |ops|
  {
    || ops == []
    || (&& SEnabled(a, ops[0], zero, names[0])
        && IsSpecRun(SStep(a, ops[0], zero, names[0]), zero, ops[1..], names[1..]))
  }

  ghost function SpecRunTo(a: Spec, zero: nat, ops: seq<Op>, names: seq<nat>): Spec
    requires |names| == |ops| && IsSpecRun(a, zero, ops, names)
    decreases |ops|
  {
    if ops == [] then a else SpecRunTo(SStep(a, ops[0], zero, names[0]), zero, ops[1..], names[1..])
  }

  /** The names the abstract machine picks along a kernel run. */
  ghost function Names(m: Mem, ops: seq<Op>): (names: seq<nat>)
    requires IsRun(m, ops)
    ensures |names| == |ops|
    decreases |ops|
  {
    if ops == [] then [] else [SnapName(m, ops[0])] + Names(Step(m, ops[0]), ops[1..])
  }

  lemma StepKeepsZero(m: Mem, op: Op)
    requires Enabled(m, op)
    ensures Step(m, op).zero == m.zero
  {
  }

  lemma {:induction false} RunSimulates(m: Mem, a: Spec, w: set<nat>, ops: seq<Op>) returns (w': set<nat>)
    requires Inv(m) && Rel(m, a, w) && IsRun(m, ops)
    ensures IsSpecRun(a, m.zero, ops, Names(m, ops))
    ensures Inv(RunTo(m, ops)) && Rel(RunTo(m, ops), SpecRunTo(a, m.zero, ops, Names(m, ops)), w')
    decreases |ops|
  {
    w' := w;
    if ops != [] {
      var op, g := ops[0], SnapName(m, ops[0]);
      StepSimulates(m, a, w, op);
      StepKeepsInv(m, op);
      StepKeepsZero(m, op);
      w' := RunSimulates(Step(m, op), SStep(a, op, m.zero, g), OwnedAfter(m, w, op), ops[1..]);
      assert Names(m, ops)[1..] == Names(Step(m, op), ops[1..]);
    }
  }

  ghost function SpecBoot(zero: nat): Spec { Spec({}, map[], map[zero := ZeroBytes()], map[zero := 1]) }

  lemma RelSameBytes(m: Mem, a: Spec, w: set<nat>, k: Slot)
    requires Rel(m, a, w) && k in m.tabs
    ensures k in a.pages && m.tabs[k].frame in m.data && Bytes(m, k) == Content(a, k)
  {
    assert PageRel(m, a, w, k);
  }

  /** Every run of map, fork, fault, store, unmap and page-cache writes is a run of address spaces
      that own separate memory, with the same slots mapped and the same bytes at every slot. */
  lemma KernelRefinesSeparateMemories(zero: nat, ops: seq<Op>)
    requires zero != NULL_FRAME && IsRun(Boot(zero), ops)
    ensures IsSpecRun(SpecBoot(zero), zero, ops, Names(Boot(zero), ops))
    ensures var m, a := RunTo(Boot(zero), ops), SpecRunTo(SpecBoot(zero), zero, ops, Names(Boot(zero), ops));
      && a.pages.Keys == m.tabs.Keys
      && (forall k :: k in m.tabs ==> m.tabs[k].frame in m.data && Bytes(m, k) == Content(a, k))
      && (forall f :: f in m.holds && m.holds[f] > 0 ==> f in m.data && f in a.objs && m.data[f] == a.objs[f])
  {
    var m0, a0 := Boot(zero), SpecBoot(zero);
    forall f: nat ensures HeldRel(m0, a0, f) { }
    assert Rel(m0, a0, {});
    var w := RunSimulates(m0, a0, {}, ops);
    var m, a := RunTo(m0, ops), SpecRunTo(a0, zero, ops, Names(m0, ops));
    forall k | k in m.tabs ensures m.tabs[k].frame in m.data && Bytes(m, k) == Content(a, k) {
      RelSameBytes(m, a, w, k);
    }
    forall f | f in m.holds && m.holds[f] > 0 ensures f in m.data && f in a.objs && m.data[f] == a.objs[f] {
      assert HeldRel(m, a, f);
    }
  }

  /** The operation stores through slot `k` or changes what `k` maps. */
  ghost predicate Targets(op: Op, k: Slot) {
    match op
    case StoreOp(q, _, _) => q == k
    case MapOp(q, _, _, _, _) => q == k
    case MapZeroOp(q, _, _) => q == k
    case UnmapOp(q) => q == k
    case _ => false
  }

  /** In the abstract machine nothing but its own operations changes an owned slot. */
  lemma {:induction false} OwnedStays(a: Spec, zero: nat, ops: seq<Op>, names: seq<nat>, k: Slot)
    requires |names| == |ops| && IsSpecRun(a, zero, ops, names)
    requires k in a.pages && k.0 in a.spaces && a.pages[k].src.Own?
    requires forall i | 0 <= i < |ops| :: !Targets(ops[i], k)
    ensures var a' := SpecRunTo(a, zero, ops, names); k in a'.pages && a'.pages[k].src == a.pages[k].src
    decreases |ops|
  {
    if ops != [] {
      var a1 := SStep(a, ops[0], zero, names[0]);
      assert !Targets(ops[0], k);
      assert k in a1.pages && k.0 in a1.spaces && a1.pages[k].src == a.pages[k].src;
      OwnedStays(a1, zero, ops[1..], names[1..], k);
    }
  }

  lemma {:induction false} RunSplit(m: Mem, xs: seq<Op>, ys: seq<Op>)
    requires IsRun(m, xs + ys)
    ensures IsRun(m, xs) && IsRun(RunTo(m, xs), ys) && RunTo(m, xs + ys) == RunTo(RunTo(m, xs), ys)
    decreases |xs|
  {
    if xs == [] {
      assert xs + ys == ys;
    } else {
      assert (xs + ys)[1..] == xs[1..] + ys;
      RunSplit(Step(m, xs[0]), xs[1..], ys);
    }
  }

  /** Once a slot has stored through a private mapping, no run of other operations, by any address
      space, by the page cache or by fork, changes what it reads: the bytes are the ones it wrote
      over, with its store in them, until it stores, maps or unmaps there again. */
  lemma PrivateBytesPersist(zero: nat, pre: seq<Op>, k: Slot, off: nat, b: byte, post: seq<Op>)
    requires zero != NULL_FRAME
    requires IsRun(Boot(zero), pre + ([StoreOp(k, off, b)] + post))
    requires forall i | 0 <= i < |post| :: !Targets(post[i], k)
    requires IsRun(Boot(zero), pre) && k in RunTo(Boot(zero), pre).tabs && !RunTo(Boot(zero), pre).tabs[k].shared
    ensures var m0, m1 := RunTo(Boot(zero), pre), RunTo(Boot(zero), pre + ([StoreOp(k, off, b)] + post));
      && m0.tabs[k].frame in m0.data && k in m1.tabs && m1.tabs[k].frame in m1.data && off < PAGE_SIZE
      && Bytes(m1, k) == Bytes(m0, k)[off := b]
  {
    var st := StoreOp(k, off, b);
    RunSplit(Boot(zero), pre, [st] + post);
    var m0 := RunTo(Boot(zero), pre);
    forall f: nat ensures HeldRel(Boot(zero), SpecBoot(zero), f) { }
    assert Rel(Boot(zero), SpecBoot(zero), {});
    var w0 := RunSimulates(Boot(zero), SpecBoot(zero), {}, pre);
    var a0 := SpecRunTo(SpecBoot(zero), zero, pre, Names(Boot(zero), pre));
    RunKeepsZero(Boot(zero), pre);
    StoredStays(m0, a0, w0, k, off, b, post);
  }

  lemma {:induction false} RunKeepsZero(m: Mem, ops: seq<Op>)
    requires IsRun(m, ops)
    ensures RunTo(m, ops).zero == m.zero
    decreases |ops|
  {
    if ops != [] {
      StepKeepsZero(m, ops[0]);
      RunKeepsZero(Step(m, ops[0]), ops[1..]);
    }
  }

  lemma StoredStays(m0: Mem, a0: Spec, w0: set<nat>, k: Slot, off: nat, b: byte, post: seq<Op>)
    requires Inv(m0) && Rel(m0, a0, w0) && k in m0.tabs && !m0.tabs[k].shared
    requires IsRun(m0, [StoreOp(k, off, b)] + post)
    requires forall i | 0 <= i < |post| :: !Targets(post[i], k)
    ensures var m2 := RunTo(m0, [StoreOp(k, off, b)] + post);
      && m0.tabs[k].frame in m0.data && k in m2.tabs && m2.tabs[k].frame in m2.data && off < PAGE_SIZE
      && Bytes(m2, k) == Bytes(m0, k)[off := b]
  {
    var st := StoreOp(k, off, b);
    assert ([st] + post)[0] == st && ([st] + post)[1..] == post;
    StepSimulates(m0, a0, w0, st);
    StepKeepsInv(m0, st);
    var m1, a1 := Step(m0, st), SStep(a0, st, m0.zero, 0);
    assert EntryOk(m0, k) && PageRel(m0, a0, w0, k);
    RelSameBytes(m0, a0, w0, k);
    var w2 := RunSimulates(m1, a1, w0, post);
    OwnedStays(a1, m1.zero, post, Names(m1, post), k);
    RelSameBytes(RunTo(m1, post), SpecRunTo(a1, m1.zero, post, Names(m1, post)), w2, k);
  }

  // ------------------------------------------------------------------ one user write

  /** A user store at slot `k`, with the fault it takes first when the entry is not writable; `g`
      is the page the allocator would hand to the fault handler.  A slot that is neither writable
      nor copy-on-write is left alone (the process gets SIGSEGV). */
  ghost function UserWrite(m: Mem, k: Slot, g: nat, off: nat, b: byte): Mem
    requires Inv(m) && k in m.tabs && Fresh(m, g) && off < PAGE_SIZE
  {
    assert EntryOk(m, k);
    var e := m.tabs[k];
    if e.write then Store(m, k, off, b)
    else if e.nocopy then
      var m1 := MapFault(m, k, g);
      if m1.tabs[k].write then Store(m1, k, off, b) else m1
    else if e.priv then Store(CowFault(m, k, g), k, off, b)
    else m
  }

  /** Slot `q` is mapped in both states and reads the same bytes. */
  ghost predicate SameView(m: Mem, m': Mem, q: Slot) {
    && q in m.tabs && q in m'.tabs
    && m.tabs[q].frame in m.data && m'.tabs[q].frame in m'.data
    && Bytes(m', q) == Bytes(m, q)
  }

  /** Every page the kernel holds has the same bytes in both states. */
  ghost predicate SameHeld(m: Mem, m': Mem) {
    forall f :: f in m.holds && m.holds[f] > 0 ==> f in m.data && f in m'.data && m'.data[f] == m.data[f]
  }

  /** The state in which the store is retried: the fault, if the entry takes one, has been served. */
  ghost function Faulted(m: Mem, k: Slot, g: nat): Mem
    requires Inv(m) && k in m.tabs && Fresh(m, g)
  {
    assert EntryOk(m, k);
    var e := m.tabs[k];
    if e.write then m else if e.nocopy then MapFault(m, k, g) else if e.priv then CowFault(m, k, g) else m
  }

  lemma FaultSlotView(m: Mem, k: Slot, g: nat, q: Slot)
    requires Inv(m) && k in m.tabs && Fresh(m, g) && q in m.tabs
    ensures SameView(m, Faulted(m, k, g), q)
  {
    assert EntryOk(m, k) && EntryOk(m, q);
  }

  lemma FaultKeepsInv(m: Mem, k: Slot, g: nat)
    requires Inv(m) && k in m.tabs && Fresh(m, g)
    ensures Inv(Faulted(m, k, g)) && SameHeld(m, Faulted(m, k, g))
  {
    assert EntryOk(m, k);
    var e := m.tabs[k];
    if !e.write && e.nocopy { MapFaultKeepsInv(m, k, g); }
    else if !e.write && e.priv { CowFaultKeepsInv(m, k, g); }
  }

  /** Serving a fault changes no byte anyone reads, and makes a copy-on-write slot writable. */
  lemma FaultSameView(m: Mem, k: Slot, g: nat)
    requires Inv(m) && k in m.tabs && Fresh(m, g)
    ensures var m1 := Faulted(m, k, g);
      && Inv(m1) && m1.tabs.Keys == m.tabs.Keys && SameHeld(m, m1)
      && m1.tabs[k].shared == m.tabs[k].shared
      && (m1.tabs[k].write <==> m.tabs[k].write || m.tabs[k].priv)
      && (forall q :: q in m.tabs ==> SameView(m, m1, q))
  {
    hide Inv, EntryOk, SameView, SameHeld;
    FaultKeepsInv(m, k, g);
    FaultEntry(m, k, g);
    forall q | q in m.tabs ensures SameView(m, Faulted(m, k, g), q) { FaultSlotView(m, k, g, q); }
  }

  lemma FaultEntry(m: Mem, k: Slot, g: nat)
    requires Inv(m) && k in m.tabs && Fresh(m, g)
    ensures var m1 := Faulted(m, k, g);
      && m1.tabs.Keys == m.tabs.Keys && m1.tabs[k].shared == m.tabs[k].shared
      && (m1.tabs[k].write <==> m.tabs[k].write || m.tabs[k].priv)
  {
    hide CountOk, Mappers;
    assert EntryOk(m, k);
  }

  lemma StoreIsolated(m: Mem, k: Slot, off: nat, b: byte)
    requires Inv(m) && k in m.tabs && m.tabs[k].write && !m.tabs[k].shared && off < PAGE_SIZE
    requires m.tabs[k].frame in m.data
    ensures var m' := Store(m, k, off, b);
      && Inv(m') && SameHeld(m, m')
      && (forall q :: q in m.tabs && q != k ==> SameView(m, m', q))
  {
    assert EntryOk(m, k);
    var f := m.tabs[k].frame;
    StoreKeepsInv(m, f, off, b);
    forall q | q in m.tabs && q != k ensures SameView(m, Store(m, k, off, b), q) {
      assert EntryOk(m, q);
      assert q !in Mappers(m.tabs, f);
    }
  }

  /** A write through a private mapping lands at its slot and nowhere else: every other slot of
      every address space, every page the kernel holds and the zero page read as before. */
  lemma PrivateWriteIsolated(m: Mem, k: Slot, g: nat, off: nat, b: byte)
    requires Inv(m) && k in m.tabs && Fresh(m, g) && off < PAGE_SIZE
    requires !m.tabs[k].shared
    ensures var m', e := UserWrite(m, k, g, off, b), m.tabs[k];
      && Inv(m') && m'.tabs.Keys == m.tabs.Keys && SameHeld(m, m')
      && e.frame in m.data && m'.tabs[k].frame in m'.data
      && Bytes(m', k) == (if e.write || e.priv then Bytes(m, k)[off := b] else Bytes(m, k))
      && (forall q :: q in m.tabs && q != k ==> SameView(m, m', q))
  {
    FaultSameView(m, k, g);
    assert EntryOk(m, k);
    var m1 := Faulted(m, k, g);
    assert SameView(m, m1, k);
    var m' := UserWrite(m, k, g, off, b);
    if m1.tabs[k].write {
      assert m' == Store(m1, k, off, b);
      StoreIsolated(m1, k, off, b);
      forall q | q in m.tabs && q != k ensures SameView(m, m', q) { assert SameView(m, m1, q) && SameView(m1, m', q); }
      HeldThrough(m, m1, m', k, g);
    } else {
      assert m' == m1;
    }
  }

  lemma HeldThrough(m: Mem, m1: Mem, m': Mem, k: Slot, g: nat)
    requires Inv(m) && k in m.tabs && Fresh(m, g) && m1 == Faulted(m, k, g)
    requires SameHeld(m, m1) && SameHeld(m1, m')
    ensures SameHeld(m, m')
  {
    assert forall f :: f in m.holds ==> f in m1.holds && m1.holds[f] == m.holds[f];
  }

  /** Right after a fork the child reads exactly what the parent reads, and nobody's view changed. */
  lemma ForkSameView(m: Mem, p: nat, c: nat, v: nat)
    requires Inv(m) && Enabled(m, ForkOp(p, c))
    ensures var m' := Fork(m, p, c);
      && (forall k :: k in m.tabs ==> SameView(m, m', k))
      && ((c, v) in m'.tabs <==> (p, v) in m.tabs)
      && ((p, v) in m.tabs ==> m'.tabs[(c, v)] == m'.tabs[(p, v)] == Dup(m.tabs[(p, v)]))
  {
    forall k | k in m.tabs ensures SameView(m, Fork(m, p, c), k) {
      assert EntryOk(m, k);
      ForkDomain(m, p, c, k);
    }
    ForkDomain(m, p, c, (c, v));
    ForkDomain(m, p, c, (p, v));
  }
}
