/** What a store through a shared mapping is seen by: the slots and the page cache that use the same
    physical page, exactly when the entry stored through is already writable. */
module Sharing {
  import opened Pages
  import opened Cow
  import opened CowInvariant
  import opened Isolation

  lemma TwoMappers(m: Mem, k: Slot, q: Slot)
    requires Inv(m) && k in m.tabs && q in m.tabs && k != q && m.tabs[q].frame == m.tabs[k].frame
    ensures m.tabs[k].frame in m.refs && m.refs[m.tabs[k].frame] > 1
  {
    var f := m.tabs[k].frame;
    assert EntryOk(m, k) && q in Mappers(m.tabs, f);
    if m.refs[f] <= 1 { SoleMapper(m, k); }
  }

  /** The other slot `q` of a page reads what is written through slot `k` if and only if the entry of `k`
      is writable when the store starts; if the store has to fault, `k` gets a page of its own. */
  lemma SharedStoreSeen(m: Mem, k: Slot, q: Slot, g: nat, off: nat, b: byte)
    requires Inv(m) && k in m.tabs && q in m.tabs && k != q && Fresh(m, g) && off < PAGE_SIZE
    requires m.tabs[q].frame == m.tabs[k].frame && (m.tabs[k].write || m.tabs[k].priv)
    requires m.tabs[k].frame in m.data && m.data[m.tabs[k].frame][off] != b
    ensures var m' := UserWrite(m, k, g, off, b);
      && k in m'.tabs && q in m'.tabs && m'.tabs[k].frame in m'.data && m'.tabs[q].frame in m'.data
      && Bytes(m', k) == Bytes(m, k)[off := b]
      && (Bytes(m', q)[off] == b <==> m.tabs[k].write)
      && (!m.tabs[k].write ==> Bytes(m', q) == Bytes(m, q))
  {
    assert EntryOk(m, k) && EntryOk(m, q);
    TwoMappers(m, k, q);
  }

  /** Parent and child after a fork: a write to a shared page by the child is seen by the parent if and
      only if the parent's entry was writable when it forked. */
  lemma ForkShares(m: Mem, p: nat, c: nat, v: nat, g: nat, off: nat, b: byte)
    requires Inv(m) && Enabled(m, ForkOp(p, c)) && (p, v) in m.tabs && Fresh(m, g) && off < PAGE_SIZE
    requires m.tabs[(p, v)].shared && (m.tabs[(p, v)].write || m.tabs[(p, v)].priv)
    requires m.tabs[(p, v)].frame in m.data && m.data[m.tabs[(p, v)].frame][off] != b
    ensures var m1 := Fork(m, p, c); Inv(m1) && (c, v) in m1.tabs && Fresh(m1, g)
    ensures var m' := UserWrite(Fork(m, p, c), (c, v), g, off, b);
      && (p, v) in m'.tabs && m'.tabs[(p, v)].frame in m'.data
      && (Bytes(m', (p, v))[off] == b <==> m.tabs[(p, v)].write)
  {
    hide Inv, Fork, UserWrite, Fresh, Enabled;
    ForkedPair(m, p, c, v, g);
    SharedStoreSeen(Fork(m, p, c), (c, v), (p, v), g, off, b);
  }

  /** A shared page right after a fork: both sides have the parent's entry. */
  lemma ForkedPair(m: Mem, p: nat, c: nat, v: nat, g: nat)
    requires Inv(m) && Enabled(m, ForkOp(p, c)) && (p, v) in m.tabs && Fresh(m, g) && m.tabs[(p, v)].shared
    ensures var m1 := Fork(m, p, c);
      && Inv(m1) && Fresh(m1, g) && m1.data == m.data && (c, v) in m1.tabs && (p, v) in m1.tabs && (c, v) != (p, v)
      && m1.tabs[(c, v)] == m.tabs[(p, v)] == m1.tabs[(p, v)]
  {
    hide Inv, ForkTabs, SameView, MappersIn, Mappers;
    ForkKeepsInv(m, p, c);
    ForkSameView(m, p, c, v);
    ForkDomain(m, p, c, (p, v));
  }

  /** The same for a page the kernel holds, such as a page-cache page. */
  lemma CacheSees(m: Mem, k: Slot, g: nat, off: nat, b: byte)
    requires Inv(m) && k in m.tabs && Fresh(m, g) && off < PAGE_SIZE && (m.tabs[k].write || m.tabs[k].priv)
    requires var f := m.tabs[k].frame; f in m.holds && m.holds[f] > 0 && f in m.data && m.data[f][off] != b
    ensures var f, m' := m.tabs[k].frame, UserWrite(m, k, g, off, b);
      && f in m'.data && (m'.data[f][off] == b <==> m.tabs[k].write)
      && (!m.tabs[k].write ==> m'.data[f] == m.data[f])
  {
    var f := m.tabs[k].frame;
    assert EntryOk(m, k) && CountOk(m, f);
    assert k in Mappers(m.tabs, f) && |Mappers(m.tabs, f)| > 0;
  }

  /** A file page mapped with PRIVATE, which `com_fs_tmpfs_mmap` always adds, is not shared with the page
      cache: the first store through a writable mapping, shared or not, leaves the cached page as it is. */
  lemma FileMappingCopies(m: Mem, k: Slot, f: nat, fl: Flags, shared: bool, g: nat, off: nat, b: byte)
    requires Inv(m) && Enabled(m, MapOp(k, f, fl, true, shared)) && fl.write && m.holds[f] > 1
    requires Fresh(m, g) && off < PAGE_SIZE && f in m.data && m.data[f][off] != b
    ensures var m1 := MapPage(m, k, f, fl, true, shared); Inv(m1) && k in m1.tabs && Fresh(m1, g)
    ensures var m' := UserWrite(MapPage(m, k, f, fl, true, shared), k, g, off, b);
      && k in m'.tabs && m'.tabs[k].frame in m'.data && Bytes(m', k)[off] == b
      && f in m'.data && m'.data[f] == m.data[f]
  {
    var m1 := MapPage(m, k, f, fl, true, shared);
    MapKeepsInv(m, k, f, fl, true, shared);
    CacheSees(m1, k, g, off, b);
    assert EntryOk(m1, k);
  }

  // ------------------------------------------------------------------ a shared mapping that is not shared

  /** Address space 2 with one shared anonymous page, and the same after a fork to address space 3. */
  ghost function AnonMapped(): Mem { MapZero(NewSpace(Boot(1), 2), (2, 0), RW, true) }

  ghost function AnonForked(): Mem { Fork(AnonMapped(), 2, 3) }

  lemma AnonForkedIs()
    ensures var m, e := AnonForked(), MapEntry(1, RW, true, true, true);
      && m.tabs == map[(2, 0) := e, (3, 0) := e] && m.refs.Keys == {1} && m.data == map[1 := ZeroBytes()]
      && m.spaces == {2, 3}
  {
    var m2, e := AnonMapped(), MapEntry(1, RW, true, true, true);
    assert m2.tabs == map[(2, 0) := e];
    assert (2, 0) in m2.tabs.Keys && Origin(2, 3, (3, 0)) == (2, 0);
    assert (3, (2, 0).1) in InSpace(m2.tabs.Keys, 3);
    var t := ForkTabs(m2.tabs, 2, 3);
    forall k: Slot ensures k in t <==> k == (2, 0) || k == (3, 0) {}
    assert t == map[(2, 0) := e, (3, 0) := e];
  }

  /** Map a shared page, fork, and let the child store 7 into it. */
  function AnonRun(): seq<Op> {
    [NewSpaceOp(2), MapZeroOp((2, 0), RW, true), ForkOp(2, 3), MapFaultOp((3, 0), 5), StoreOp((3, 0), 0, 7)]
  }

  /** A shared anonymous mapping forked before its first write is not shared: the child's store is not
      seen by the parent. */
  lemma AnonymousNotShared()
    ensures IsRun(Boot(1), AnonRun()) && NotSharedAfter(RunTo(Boot(1), AnonRun()))
  {
    hide IsRun, RunTo, Fork;
    AnonForkedIs();
    var m3 := AnonForked();
    var m4 := MapFault(m3, (3, 0), 5);
    var m5 := Store(m4, (3, 0), 0, 7);
    assert NotSharedAfter(m5);
    var o5, o4, o3, o2 := [StoreOp((3, 0), 0, 7)], [MapFaultOp((3, 0), 5), StoreOp((3, 0), 0, 7)],
      [ForkOp(2, 3), MapFaultOp((3, 0), 5), StoreOp((3, 0), 0, 7)],
      [MapZeroOp((2, 0), RW, true), ForkOp(2, 3), MapFaultOp((3, 0), 5), StoreOp((3, 0), 0, 7)];
    assert [MapFaultOp((3, 0), 5)] + o5 == o4 && [ForkOp(2, 3)] + o4 == o3 && [MapZeroOp((2, 0), RW, true)] + o3 == o2;
    assert [NewSpaceOp(2)] + o2 == AnonRun();
    LastStep(m4, StoreOp((3, 0), 0, 7));
    FirstStep(m3, MapFaultOp((3, 0), 5), o5);
    FirstStep(AnonMapped(), ForkOp(2, 3), o4);
    FirstStep(NewSpace(Boot(1), 2), MapZeroOp((2, 0), RW, true), o3);
    FirstStep(Boot(1), NewSpaceOp(2), o2);
  }

  /** Both address spaces map the page as shared, the child reads 7 and the parent 0. */
  ghost predicate NotSharedAfter(m: Mem) {
    && (2, 0) in m.tabs && (3, 0) in m.tabs && m.tabs[(2, 0)].shared && m.tabs[(3, 0)].shared
    && m.tabs[(2, 0)].frame in m.data && m.tabs[(3, 0)].frame in m.data
    && Bytes(m, (3, 0))[0] == 7 && Bytes(m, (2, 0))[0] == 0
  }
}
