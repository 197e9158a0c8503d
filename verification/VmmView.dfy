/** The flat view of the four-level tables: what the copy-on-write model sees of them. */
module VmmView {
  import opened Pages
  import opened PageTable
  import opened MmuCode
  import opened Cow

  /** Every non-zero user entry of every address space. */
  ghost function TabsOf(t: Tables, spaces: set<nat>): map<Slot, Pte> {
    map s: nat, v: nat | s in spaces && v < USER_PAGES && Entry(t, s, LEVELS, v) != ZERO_PTE ::
      (s, v) := Entry(t, s, LEVELS, v)
  }

  lemma TabsAt(t: Tables, spaces: set<nat>, k: Slot)
    ensures k in TabsOf(t, spaces) <==> k.0 in spaces && k.1 < USER_PAGES && Entry(t, k.0, LEVELS, k.1) != ZERO_PTE
    ensures k in TabsOf(t, spaces) ==> TabsOf(t, spaces)[k] == Entry(t, k.0, LEVELS, k.1)
  {
    var s, v := k.0, k.1;
    assert k == (s, v);
  }

  /** A mapped page has a leaf table. */
  lemma MappedLeaf(t: Tables, spaces: set<nat>, s: nat, v: nat)
    requires (s, v) in TabsOf(t, spaces)
    ensures Leaf(t, s, LEVELS, v).Some?
  {
    TabsAt(t, spaces, (s, v));
  }

  lemma TabsNone(t: Tables)
    ensures TabsOf(t, {}) == map[]
  {
    forall k: Slot ensures k !in TabsOf(t, {}) { TabsAt(t, {}, k); }
  }

  lemma TabsPut(t: Tables, t': Tables, spaces: set<nat>, s: nat, v: nat, e: Pte)
    requires s in spaces && v < USER_PAGES && e != ZERO_PTE
    requires forall r: nat, w: nat :: r in spaces && w < USER_PAGES ==>
               Entry(t', r, LEVELS, w) == if w == v && r == s then e else Entry(t, r, LEVELS, w)
    ensures TabsOf(t', spaces) == TabsOf(t, spaces)[(s, v) := e]
  {
    hide Entry;
    var a, b := TabsOf(t', spaces), TabsOf(t, spaces)[(s, v) := e];
    forall k: Slot ensures (k in a <==> k in b) && (k in a ==> a[k] == b[k]) {
      TabsAt(t, spaces, k);
      TabsAt(t', spaces, k);
    }
  }

  lemma TabsClear(t: Tables, t': Tables, spaces: set<nat>, s: nat, v: nat)
    requires s in spaces && v < USER_PAGES
    requires forall r: nat, w: nat :: r in spaces && w < USER_PAGES ==>
               Entry(t', r, LEVELS, w) == if w == v && r == s then ZERO_PTE else Entry(t, r, LEVELS, w)
    ensures TabsOf(t', spaces) == TabsOf(t, spaces) - {(s, v)}
  {
    hide Entry;
    var a, b := TabsOf(t', spaces), TabsOf(t, spaces) - {(s, v)};
    forall k: Slot ensures (k in a <==> k in b) && (k in a ==> a[k] == b[k]) {
      TabsAt(t, spaces, k);
      TabsAt(t', spaces, k);
    }
  }

  lemma TabsSame(t: Tables, t': Tables, spaces: set<nat>, spaces': set<nat>)
    requires spaces <= spaces'
    requires forall r: nat, w: nat :: r in spaces && w < USER_PAGES ==>
               Entry(t', r, LEVELS, w) == Entry(t, r, LEVELS, w)
    requires forall r: nat, w: nat :: r in spaces' && r !in spaces && w < USER_PAGES ==>
               Entry(t', r, LEVELS, w) == ZERO_PTE
    ensures TabsOf(t', spaces') == TabsOf(t, spaces)
  {
    hide Entry;
    var a, b := TabsOf(t', spaces'), TabsOf(t, spaces);
    forall k: Slot ensures (k in a <==> k in b) && (k in a ==> a[k] == b[k]) {
      TabsAt(t, spaces, k);
      TabsAt(t', spaces', k);
    }
  }

  lemma DupZero(e: Pte)
    requires e == ZERO_PTE || e.present
    ensures Dup(e) == ZERO_PTE <==> e == ZERO_PTE
  {
  }

  lemma ForkTabsAt(tabs: map<Slot, Pte>, p: nat, n: nat, k: Slot)
    requires k in tabs ==> k.0 != n
    ensures k in ForkTabs(tabs, p, n) <==> Origin(p, n, k) in tabs
    ensures k in ForkTabs(tabs, p, n) ==>
              ForkTabs(tabs, p, n)[k] == if k.0 == p || k.0 == n then Dup(tabs[Origin(p, n, k)]) else tabs[k]
  {
    if k.0 == n && (p, k.1) in tabs { assert k == (n, (p, k.1).1) && k in InSpace(tabs.Keys, n); }
  }

  /** A duplicated table is a flat fork. */
  lemma TabsFork(t0: Tables, t: Tables, roots: set<nat>, spaces: set<nat>, p: nat, n: nat)
    requires p in spaces && n !in spaces && spaces <= roots && Forked(t0, roots, t, p, n)
    requires forall v: nat :: v < USER_PAGES ==> Entry(t0, p, LEVELS, v) == ZERO_PTE || Entry(t0, p, LEVELS, v).present
    ensures TabsOf(t, spaces + {n}) == ForkTabs(TabsOf(t0, spaces), p, n)
  {
    hide Entry, TabsOf, ForkTabs;
    var a, b, c := TabsOf(t, spaces + {n}), ForkTabs(TabsOf(t0, spaces), p, n), TabsOf(t0, spaces);
    forall k: Slot ensures (k in a <==> k in b) && (k in a ==> a[k] == b[k]) {
      TabsAt(t0, spaces, Origin(p, n, k));
      TabsAt(t, spaces + {n}, k);
      TabsAt(t0, spaces, k);
      ForkTabsAt(c, p, n, k);
      if k.1 < USER_PAGES { DupZero(Entry(t0, p, LEVELS, k.1)); }
    }
  }

  ghost function At(s: nat, vs: set<nat>): set<Slot> { set v | v in vs :: (s, v) }

  lemma {:induction false} AtCard(s: nat, vs: set<nat>)
    ensures |At(s, vs)| == |vs|
    decreases |vs|
  {
    if vs != {} {
      var x :| x in vs;
      var r := vs - {x};
      AtCard(s, r);
      assert At(s, vs) == At(s, r) + {(s, x)};
    }
  }

  /** Counting a root's user pages that map `f` is counting its slots. */
  lemma UsesMappers(t: Tables, spaces: set<nat>, p: nat, f: nat)
    requires p in spaces
    ensures |UserUses(t, p, f)| == |MappersIn(TabsOf(t, spaces), p, f)|
  {
    hide Entry;
    var a, b := At(p, UserUses(t, p, f)), MappersIn(TabsOf(t, spaces), p, f);
    forall k: Slot ensures k in a <==> k in b {
      TabsAt(t, spaces, k);
      if k in b { assert k.1 in UserUses(t, p, f) && k == (p, k.1); }
    }
    assert a == b;
    AtCard(p, UserUses(t, p, f));
  }
}
