/** Every copy-on-write operation keeps `Cow.Inv`, and so does every run. */
module CowInvariant {
  import opened Pages
  import opened Cow

  /** Changing one slot adds it to the mappers of its new page and removes it from the others. */
  lemma MappersPut(tabs: map<Slot, Pte>, k: Slot, e: Pte, f: nat)
    ensures Mappers(tabs[k := e], f) == if e.frame == f then Mappers(tabs, f) + {k} else Mappers(tabs, f) - {k}
  {
  }

  lemma MappersRemove(tabs: map<Slot, Pte>, k: Slot, f: nat)
    ensures Mappers(tabs - {k}, f) == Mappers(tabs, f) - {k}
  {
  }

  /** Writing an entry for `e.frame` at slot `k`, where the page has room for one more mapper. */
  lemma PutKeepsInv(m: Mem, m': Mem, k: Slot, e: Pte)
    requires Inv(m)
    requires m'.spaces == m.spaces && m'.zero == m.zero && m'.tabs == m.tabs[k := e]
    requires m'.refs.Keys == m'.holds.Keys == m'.data.Keys && m.refs.Keys <= m'.refs.Keys
    requires m'.zero in m'.refs && m'.holds[m'.zero] > 0 && m'.data[m'.zero] == ZeroBytes()
    requires NULL_FRAME !in m'.refs
    requires SlotOk(m, k) && e.present && e.frame in m'.refs
    requires (e.write ==> !e.priv) && (e.nocopy ==> e.frame == m.zero) && (e.frame == m.zero ==> !e.write)
    requires e.write && !e.shared ==> Mappers(m'.tabs, e.frame) == {k} && m'.holds[e.frame] == 0
    // other pages lost nothing, and no page's holders grew under a writable mapping
    requires forall f :: f in m.refs && f != e.frame ==> m'.refs[f] >= |Mappers(m'.tabs, f)| + m'.holds[f]
    requires forall f :: f in m.refs ==> m'.holds[f] <= m.holds[f]
    requires m'.refs[e.frame] >= |Mappers(m'.tabs, e.frame)| + m'.holds[e.frame]
    requires forall f :: f in m'.refs && f !in m.refs ==> f == e.frame
    requires e.frame in m.refs ==>
               forall q :: q in m.tabs && q != k && m.tabs[q].frame == e.frame ==>
                             !(m.tabs[q].write && !m.tabs[q].shared)
    ensures Inv(m')
  {
    forall q | q in m'.tabs ensures EntryOk(m', q) {
      if q != k {
        assert EntryOk(m, q);
        var f := m.tabs[q].frame;
        MappersPut(m.tabs, k, e, f);
      }
    }
  }

  lemma AllocKeepsInv(m: Mem, f: nat)
    requires Inv(m) && Fresh(m, f)
    ensures Inv(Alloc(m, f))
  {
    var m' := Alloc(m, f);
    assert Mappers(m.tabs, f) == {} by {
      forall k | k in m.tabs ensures m.tabs[k].frame != f { assert EntryOk(m, k); }
    }
    forall k | k in m'.tabs ensures EntryOk(m', k) { assert EntryOk(m, k); }
    forall g | g in m'.refs ensures CountOk(m', g) { if g != f { assert CountOk(m, g); } }
  }

  lemma HoldKeepsInv(m: Mem, f: nat)
    requires Inv(m) && Enabled(m, HoldOp(f))
    ensures Inv(Hold(m, f))
  {
    var m' := Hold(m, f);
    forall k | k in m'.tabs ensures EntryOk(m', k) { assert EntryOk(m, k); }
    forall g | g in m'.refs ensures CountOk(m', g) { assert CountOk(m, g); }
  }

  lemma ReleaseKeepsInv(m: Mem, f: nat)
    requires Inv(m) && Enabled(m, ReleaseOp(f))
    ensures Inv(Release(m, f))
  {
    var m' := Release(m, f);
    forall k | k in m'.tabs ensures EntryOk(m', k) { assert EntryOk(m, k); }
    forall g | g in m'.refs ensures CountOk(m', g) { assert CountOk(m, g); }
  }

  lemma StoreKeepsInv(m: Mem, f: nat, off: nat, b: byte)
    requires Inv(m) && f in m.data && f != m.zero && off < PAGE_SIZE
    ensures Inv(KernelStore(m, f, off, b))
  {
    var m' := KernelStore(m, f, off, b);
    forall k | k in m'.tabs ensures EntryOk(m', k) { assert EntryOk(m, k); }
    forall g | g in m'.refs ensures CountOk(m', g) { assert CountOk(m, g); }
  }

  lemma MapKeepsInv(m: Mem, k: Slot, f: nat, fl: Flags, private: bool, shared: bool)
    requires Inv(m) && Enabled(m, MapOp(k, f, fl, private, shared))
    ensures Inv(MapPage(m, k, f, fl, private, shared))
  {
    hide Mappers, EntryOk, CountOk;
    var e := MapEntry(f, fl, private, shared, false);
    var m' := MapPage(m, k, f, fl, private, shared);
    forall g | g in m.refs ensures m'.refs[g] >= |Mappers(m'.tabs, g)| + m'.holds[g] { PutCount(m, k, e, g); }
    MappersPut(m.tabs, k, e, f);
    forall q | q in m.tabs && q != k && m.tabs[q].frame == f ensures !(m.tabs[q].write && !m.tabs[q].shared) {
      HeldNotPrivate(m, f, q);
    }
    PutKeepsInv(m, m', k, e);
  }

  lemma CardMinus<T>(s: set<T>, x: T)
    ensures |s - {x}| == if x in s then |s| - 1 else |s|
  {
    if x !in s { assert s - {x} == s; }
  }

  /** A page other than the new entry's loses at most the slot rewritten. */
  lemma PutCount(m: Mem, k: Slot, e: Pte, f: nat)
    requires Inv(m) && f in m.refs && f in m.holds
    ensures m.refs[f] >= |Mappers(m.tabs, f)| + m.holds[f]
    ensures f != e.frame ==> |Mappers(m.tabs[k := e], f)| <= |Mappers(m.tabs, f)|
    ensures f != e.frame && k in Mappers(m.tabs, f) ==> |Mappers(m.tabs[k := e], f)| == |Mappers(m.tabs, f)| - 1
    ensures f == e.frame ==> |Mappers(m.tabs[k := e], f)| <= |Mappers(m.tabs, f)| + 1
    ensures f == e.frame && k in Mappers(m.tabs, f) ==> |Mappers(m.tabs[k := e], f)| == |Mappers(m.tabs, f)|
  {
    hide Mappers;
    assert CountOk(m, f);
    MappersPut(m.tabs, k, e, f);
    CardMinus(Mappers(m.tabs, f), k);
    if k in Mappers(m.tabs, f) { assert Mappers(m.tabs, f) + {k} == Mappers(m.tabs, f); }
  }

  /** Only shared entries and read-only entries map a page the kernel holds. */
  lemma HeldNotPrivate(m: Mem, f: nat, q: Slot)
    requires Inv(m) && f in m.holds && m.holds[f] > 0 && q in m.tabs && m.tabs[q].frame == f
    ensures !(m.tabs[q].write && !m.tabs[q].shared)
  {
    assert EntryOk(m, q);
  }

  lemma MapZeroKeepsInv(m: Mem, k: Slot, fl: Flags, shared: bool)
    requires Inv(m) && Enabled(m, MapZeroOp(k, fl, shared))
    ensures Inv(MapZero(m, k, fl, shared))
  {
    hide Mappers, EntryOk, CountOk;
    var e := MapEntry(m.zero, fl, true, shared, true);
    var m' := MapZero(m, k, fl, shared);
    forall g | g in m.refs ensures m'.refs[g] >= |Mappers(m'.tabs, g)| + m'.holds[g] { PutCount(m, k, e, g); }
    forall q | q in m.tabs && q != k && m.tabs[q].frame == m.zero ensures !(m.tabs[q].write && !m.tabs[q].shared) {
      HeldNotPrivate(m, m.zero, q);
    }
    PutKeepsInv(m, m', k, e);
  }

  lemma UnmapKeepsInv(m: Mem, k: Slot)
    requires Inv(m)
    ensures Inv(Unmap(m, k))
  {
    if k in m.tabs {
      var m' := Unmap(m, k);
      assert EntryOk(m, k);
      forall q | q in m'.tabs ensures EntryOk(m', q) {
        assert EntryOk(m, q);
        MappersRemove(m.tabs, k, m.tabs[q].frame);
      }
      forall g | g in m'.refs ensures CountOk(m', g) {
        assert CountOk(m, g);
        MappersRemove(m.tabs, k, g);
        CardMinus(Mappers(m.tabs, g), k);
      }
    }
  }

  /** A page with at most one reference that is mapped somewhere is mapped there only. */
  lemma SoleMapper(m: Mem, k: Slot)
    requires Inv(m) && k in m.tabs && m.refs[m.tabs[k].frame] <= 1
    ensures Mappers(m.tabs, m.tabs[k].frame) == {k} && m.holds[m.tabs[k].frame] == 0
  {
    var f := m.tabs[k].frame;
    assert EntryOk(m, k) && CountOk(m, f);
    var rest := Mappers(m.tabs, f) - {k};
    assert |rest| == |Mappers(m.tabs, f)| - 1;
    assert rest == {};
  }

  lemma UpgradeKeepsInv(m: Mem, k: Slot)
    requires Inv(m) && k in m.tabs && m.tabs[k].priv && !m.tabs[k].nocopy && m.refs[m.tabs[k].frame] <= 1
    ensures Inv(m.(tabs := m.tabs[k := Upgrade(m.tabs[k])]))
  {
    var e' := Upgrade(m.tabs[k]);
    var m' := m.(tabs := m.tabs[k := e']);
    assert EntryOk(m, k);
    SoleMapper(m, k);
    forall h | h in m.refs ensures m'.refs[h] >= |Mappers(m'.tabs, h)| + m'.holds[h] {
      assert CountOk(m, h);
      MappersPut(m.tabs, k, e', h);
      CardMinus(Mappers(m.tabs, h), k);
    }
    MappersPut(m.tabs, k, e', e'.frame);
    PutKeepsInv(m, m', k, e');
  }

  lemma CowFaultKeepsInv(m: Mem, k: Slot, g: nat)
    requires Inv(m) && Enabled(m, CowFaultOp(k, g))
    ensures Inv(CowFault(m, k, g))
  {
    if m.refs[m.tabs[k].frame] <= 1 {
      UpgradeKeepsInv(m, k);
    } else {
      CopyKeepsInv(m, k, g);
    }
  }

  /** What the invariant says about the whole state and about slot `k`. */
  lemma InvFacts(m: Mem, k: Slot)
    requires Inv(m) && k in m.tabs
    ensures m.refs.Keys == m.holds.Keys == m.data.Keys && m.zero in m.refs && m.holds[m.zero] > 0
    ensures m.data[m.zero] == ZeroBytes() && NULL_FRAME !in m.refs
    ensures SlotOk(m, k) && m.tabs[k].present && m.tabs[k].frame in m.refs && (m.tabs[k].write ==> !m.tabs[k].priv)
    ensures k in Mappers(m.tabs, m.tabs[k].frame)
  {
    assert EntryOk(m, k);
  }

  lemma CopyKeepsInv(m: Mem, k: Slot, g: nat)
    requires Inv(m) && Enabled(m, CowFaultOp(k, g)) && m.refs[m.tabs[k].frame] > 1
    ensures Inv(CowFault(m, k, g))
  {
    hide Mappers, EntryOk, CountOk, Inv;
    InvFacts(m, k);
    var e' := Upgrade(m.tabs[k]).(frame := g);
    var m' := CowFault(m, k, g);
    FreshUnmapped(m, g);
    forall h | h in m.refs ensures m'.refs[h] >= |Mappers(m'.tabs, h)| + m'.holds[h] { PutCount(m, k, e', h); }
    MappersPut(m.tabs, k, e', g);
    PutKeepsInv(m, m', k, e');
  }

  lemma FreshUnmapped(m: Mem, g: nat)
    requires Inv(m) && Fresh(m, g)
    ensures Mappers(m.tabs, g) == {}
  {
    forall q | q in m.tabs ensures m.tabs[q].frame != g { assert EntryOk(m, q); }
  }

  lemma MapFaultKeepsInv(m: Mem, k: Slot, g: nat)
    requires Inv(m) && Enabled(m, MapFaultOp(k, g))
    ensures Inv(MapFault(m, k, g))
  {
    hide Mappers, EntryOk, CountOk, Inv;
    InvFacts(m, k);
    var e' := Upgrade(m.tabs[k]).(frame := g);
    var m' := MapFault(m, k, g);
    FreshUnmapped(m, g);
    forall h | h in m.refs ensures m'.refs[h] >= |Mappers(m'.tabs, h)| + m'.holds[h] { PutCount(m, k, e', h); }
    MappersPut(m.tabs, k, e', g);
    PutKeepsInv(m, m', k, e');
  }

  // ------------------------------------------------------------------ fork

  /** Moving slots of one address space to another keeps their number. */
  lemma {:induction false} InSpaceCard(s: set<Slot>, p: nat, c: nat)
    requires forall k :: k in s ==> k.0 == p
    ensures |InSpace(s, c)| == |s|
    decreases |s|
  {
    if s != {} {
      var x :| x in s;
      var r := s - {x};
      InSpaceCard(r, p, c);
      assert InSpace(s, c) == InSpace(r, c) + {(c, x.1)};
      assert forall y :: y in r ==> y.1 != x.1;
    }
  }

  /** A slot is in the forked tables exactly when its origin was mapped. */
  lemma ForkDomain(m: Mem, p: nat, c: nat, k: Slot)
    requires Inv(m) && p in m.spaces && c !in m.spaces
    ensures k in ForkTabs(m.tabs, p, c) <==> Origin(p, c, k) in m.tabs
    ensures k in m.tabs ==> k.0 != c
  {
    if k in m.tabs { assert EntryOk(m, k); }
    if k.0 == c && (p, k.1) in m.tabs {
      assert (c, (p, k.1).1) in InSpace(m.tabs.Keys, c);
    }
  }

  lemma ForkMappers(m: Mem, p: nat, c: nat, f: nat)
    requires Inv(m) && p in m.spaces && c !in m.spaces
    ensures Mappers(ForkTabs(m.tabs, p, c), f) == Mappers(m.tabs, f) + InSpace(MappersIn(m.tabs, p, f), c)
    ensures Mappers(m.tabs, f) !! InSpace(MappersIn(m.tabs, p, f), c)
    ensures |InSpace(MappersIn(m.tabs, p, f), c)| == |MappersIn(m.tabs, p, f)|
  {
    hide Inv, ForkTabs, InSpace, MappersIn;
    var kids := InSpace(MappersIn(m.tabs, p, f), c);
    forall k: Slot ensures k in Mappers(ForkTabs(m.tabs, p, c), f) <==> k in Mappers(m.tabs, f) + kids {
      ForkMapper(m, p, c, f, k);
    }
    forall k | k in Mappers(m.tabs, f) ensures k !in kids { ForkMapper(m, p, c, f, k); }
    InParent(m.tabs, p, f);
    InSpaceCard(MappersIn(m.tabs, p, f), p, c);
  }

  lemma InParent(tabs: map<Slot, Pte>, p: nat, f: nat)
    ensures forall k :: k in MappersIn(tabs, p, f) ==> k.0 == p
  {}

  /** One slot of the forked tables: the child's are the ones made from the parent's. */
  lemma ForkMapper(m: Mem, p: nat, c: nat, f: nat, k: Slot)
    requires Inv(m) && p in m.spaces && c !in m.spaces
    ensures k in Mappers(ForkTabs(m.tabs, p, c), f)
       <==> k in Mappers(m.tabs, f) || k in InSpace(MappersIn(m.tabs, p, f), c)
    ensures k in Mappers(m.tabs, f) ==> k !in InSpace(MappersIn(m.tabs, p, f), c)
  {
    ForkDomain(m, p, c, k);
    ForkKid(m, p, c, f, k);
    ForkFrame(m.tabs, p, c, k);
    hide Inv, ForkTabs, InSpace, MappersIn;
  }

  lemma ForkFrame(tabs: map<Slot, Pte>, p: nat, c: nat, k: Slot)
    ensures k in ForkTabs(tabs, p, c) ==>
              Origin(p, c, k) in tabs && ForkTabs(tabs, p, c)[k].frame == tabs[Origin(p, c, k)].frame
  {}

  lemma ForkKid(m: Mem, p: nat, c: nat, f: nat, k: Slot)
    ensures k in InSpace(MappersIn(m.tabs, p, f), c) <==> k.0 == c && (p, k.1) in m.tabs && m.tabs[(p, k.1)].frame == f
  {
    if k.0 == c && (p, k.1) in m.tabs && m.tabs[(p, k.1)].frame == f {
      var q := (p, k.1);
      assert q in MappersIn(m.tabs, p, f) && k == (c, q.1);
    }
  }

  lemma ForkKeepsInv(m: Mem, p: nat, c: nat)
    requires Inv(m) && Enabled(m, ForkOp(p, c))
    ensures Inv(Fork(m, p, c))
  {
    var m' := Fork(m, p, c);
    forall k | k in m'.tabs ensures EntryOk(m', k) {
      ForkEntryOk(m, p, c, k);
    }
    forall f | f in m'.refs ensures CountOk(m', f) {
      assert CountOk(m, f);
      ForkMappers(m, p, c, f);
    }
  }

  lemma ForkEntryOk(m: Mem, p: nat, c: nat, k: Slot)
    requires Inv(m) && Enabled(m, ForkOp(p, c)) && k in Fork(m, p, c).tabs
    ensures EntryOk(Fork(m, p, c), k)
  {
    var m' := Fork(m, p, c);
    ForkDomain(m, p, c, k);
    var o := Origin(p, c, k);
    assert EntryOk(m, o);
    var f := m.tabs[o].frame;
    if m'.tabs[k].write && !m'.tabs[k].shared {
      ForkMappers(m, p, c, f);
      assert MappersIn(m.tabs, p, f) <= Mappers(m.tabs, f) == {k};
    }
  }

  // ------------------------------------------------------------------ runs

  lemma StepKeepsInv(m: Mem, op: Op)
    requires Inv(m) && Enabled(m, op)
    ensures Inv(Step(m, op))
  {
    match op
    case NewSpaceOp(s) =>
      var m' := NewSpace(m, s);
      forall k | k in m'.tabs ensures EntryOk(m', k) { assert EntryOk(m, k); }
      forall f | f in m'.refs ensures CountOk(m', f) { assert CountOk(m, f); }
    case AllocOp(f) => AllocKeepsInv(m, f);
    case HoldOp(f) => HoldKeepsInv(m, f);
    case ReleaseOp(f) => ReleaseKeepsInv(m, f);
    case KernelStoreOp(f, off, b) => StoreKeepsInv(m, f, off, b);
    case MapOp(k, f, fl, private, shared) => MapKeepsInv(m, k, f, fl, private, shared);
    case MapZeroOp(k, fl, shared) => MapZeroKeepsInv(m, k, fl, shared);
    case ForkOp(p, c) => ForkKeepsInv(m, p, c);
    case UnmapOp(k) => UnmapKeepsInv(m, k);
    case CowFaultOp(k, g) => CowFaultKeepsInv(m, k, g);
    case MapFaultOp(k, g) => MapFaultKeepsInv(m, k, g);
    case StoreOp(k, off, b) =>
      assert EntryOk(m, k);
      StoreKeepsInv(m, m.tabs[k].frame, off, b);
  }

  /** A run: every operation is enabled in the state the previous ones left. */
  ghost predicate IsRun(m: Mem, ops: seq<Op>)
    decreases |ops|
  {
    ops == [] || (Enabled(m, ops[0]) && IsRun(Step(m, ops[0]), ops[1..]))
  }

  ghost function RunTo(m: Mem, ops: seq<Op>): Mem
    requires IsRun(m, ops)
    decreases |ops|
  {
    if ops == [] then m else RunTo(Step(m, ops[0]), ops[1..])
  }

  /** A run grows by a step that is enabled where it ends. */
  lemma {:induction false} RunMore(m: Mem, ops: seq<Op>, op: Op)
    ensures IsRun(m, ops + [op]) <==> IsRun(m, ops) && Enabled(RunTo(m, ops), op)
    ensures IsRun(m, ops + [op]) ==> RunTo(m, ops + [op]) == Step(RunTo(m, ops), op)
    decreases |ops|
  {
    hide Enabled, Step;
    if ops == [] {
      assert ops + [op] == [op] && [op][1..] == [];
    } else {
      assert (ops + [op])[1..] == ops[1..] + [op];
      if Enabled(m, ops[0]) { RunMore(Step(m, ops[0]), ops[1..], op); }
    }
  }

  lemma LastStep(m: Mem, op: Op)
    requires Enabled(m, op)
    ensures IsRun(m, [op]) && RunTo(m, [op]) == Step(m, op)
  {
    assert [op][1..] == [];
  }

  lemma FirstStep(m: Mem, op: Op, rest: seq<Op>)
    requires Enabled(m, op) && IsRun(Step(m, op), rest)
    ensures IsRun(m, [op] + rest) && RunTo(m, [op] + rest) == RunTo(Step(m, op), rest)
  {
    assert ([op] + rest)[1..] == rest;
  }

  const RW := Flags(true, true, true, 0)

  /** The state after `com_mm_vmm_init`: no user address space, one page taken for zeroes. */
  ghost function Boot(zero: nat): Mem {
    Mem({}, map[], map[zero := 1], map[zero := 1], map[zero := ZeroBytes()], zero)
  }

  lemma {:induction false} RunKeepsInv(m: Mem, ops: seq<Op>)
    requires Inv(m) && IsRun(m, ops)
    ensures Inv(RunTo(m, ops))
    decreases |ops|
  {
    if ops != [] {
      StepKeepsInv(m, ops[0]);
      RunKeepsInv(Step(m, ops[0]), ops[1..]);
    }
  }

  /** In every reachable state: a page's count covers its mappings and its holders; a page with
      count zero is mapped nowhere; a page writable through a non-shared entry is mapped by that
      entry alone; and the copy-on-write fault upgrades in place only the sole mapping. */
  lemma ReachableCounting(zero: nat, ops: seq<Op>)
    requires zero != NULL_FRAME && IsRun(Boot(zero), ops)
    ensures var m := RunTo(Boot(zero), ops);
      && (forall f :: f in m.refs ==> f in m.holds && m.refs[f] >= |Mappers(m.tabs, f)| + m.holds[f])
      && (forall f :: f in m.refs && m.refs[f] == 0 ==> Mappers(m.tabs, f) == {})
      && (forall k, q | k in m.tabs && q in m.tabs && m.tabs[k].write && !m.tabs[k].shared ::
            m.tabs[q].frame == m.tabs[k].frame ==> q == k)
      && (forall k | k in m.tabs :: m.tabs[k].frame in m.refs && m.tabs[k].frame in m.holds)
      && (forall k | k in m.tabs && m.refs[m.tabs[k].frame] <= 1 ::
            Mappers(m.tabs, m.tabs[k].frame) == {k} && m.holds[m.tabs[k].frame] == 0)
  {
    assert Inv(Boot(zero));
    RunKeepsInv(Boot(zero), ops);
    var m := RunTo(Boot(zero), ops);
    forall f | f in m.refs ensures m.refs[f] >= |Mappers(m.tabs, f)| + m.holds[f] { assert CountOk(m, f); }
    forall k, q | k in m.tabs && q in m.tabs && m.tabs[k].write && !m.tabs[k].shared
                  && m.tabs[q].frame == m.tabs[k].frame
      ensures q == k
    {
      assert EntryOk(m, k);
      assert q in Mappers(m.tabs, m.tabs[k].frame);
    }
    forall k | k in m.tabs ensures m.tabs[k].frame in m.refs && m.tabs[k].frame in m.holds { assert EntryOk(m, k); }
    forall k | k in m.tabs && m.refs[m.tabs[k].frame] <= 1
      ensures Mappers(m.tabs, m.tabs[k].frame) == {k} && m.holds[m.tabs[k].frame] == 0
    {
      SoleMapper(m, k);
    }
  }
}
