/** Four-level page tables as a memory of table pages.

    A walk goes from a root (level 4) down to a leaf table (level 1).  `owner` is proof-only
    bookkeeping: it says for every table page which address space it belongs to, at which level
    and for which page-number prefix.  Because a table page has one place only, an update below
    one root can be seen from another root only in the kernel half, which all roots share. */
module PageTable {
  import opened Options
  import opened Pages
  import opened Digits

  /** `space` is the root's page number, or KERNEL for the half all roots share. */
  datatype Place = Place(space: nat, level: nat, prefix: nat)

  const KERNEL: nat := 0
  const LEVELS: nat := 4
  /** Root entries below this index translate user addresses. */
  const USER_SLOTS: nat := 256

  type Tables = map<nat, seq<Pte>>
  type Owners = map<nat, Place>

  /** The leaf table the walk from table `p` at level `k` reaches, if every link exists. */
  function Leaf(t: Tables, p: nat, k: nat, v: nat): Option<nat>
    requires k >= 1
    decreases k
  {
    if k == 1 then Some(p)
    else if p !in t || |t[p]| != FANOUT then None
    else
      var e := t[p][Index(k, v)];
      if e == ZERO_PTE then None else Leaf(t, e.frame, k - 1, v)
  }

  /** The entry found for `v`; zero when the walk stops early. */
  function Entry(t: Tables, p: nat, k: nat, v: nat): Pte
    requires k >= 1
  {
    match Leaf(t, p, k, v)
    case None => ZERO_PTE
    case Some(q) => if q in t && |t[q]| == FANOUT then t[q][v % FANOUT] else ZERO_PTE
  }

  function ChildPlace(pl: Place, i: nat): Place
    requires pl.level >= 1
  {
    Place(if pl.level == LEVELS && i >= USER_SLOTS then KERNEL else pl.space, pl.level - 1, Sub(pl.prefix, i))
  }

  ghost predicate LinkOk(t: Tables, o: Owners, p: nat, i: nat)
    requires p in t && p in o && i < |t[p]| && o[p].level >= 1
  {
    var e := t[p][i];
    && (e != ZERO_PTE ==> e.present)
    && (e != ZERO_PTE && o[p].level > 1 ==> e.frame in t && e.frame in o && o[e.frame] == ChildPlace(o[p], i))
  }

  ghost predicate TableOk(t: Tables, o: Owners, p: nat)
    requires p in t && p in o
  {
    && |t[p]| == FANOUT
    && 1 <= o[p].level <= LEVELS
    && (o[p].level == LEVELS ==> o[p] == Place(p, LEVELS, 0))
    && (forall i :: 0 <= i < FANOUT ==> LinkOk(t, o, p, i))
  }

  ghost predicate Wf(t: Tables, o: Owners) {
    && t.Keys == o.Keys
    && NULL_FRAME !in t
    && (forall p :: p in t ==> TableOk(t, o, p))
  }

  /** The owner of the leaf table for `v` below a table of address space `s` at level `k`. */
  function SpaceAt(s: nat, k: nat, v: nat): nat
    requires k >= 1
  {
    if k == LEVELS && Index(LEVELS, v) >= USER_SLOTS then KERNEL else s
  }

  /** `p` is a table that translates `v` at level `k` for address space `s`. */
  ghost predicate On(t: Tables, o: Owners, p: nat, s: nat, k: nat, v: nat) {
    p in t && p in o && k >= 1 && o[p] == Place(s, k, Up(k, v))
  }

  /** Following a link leads to the table one level down for the same page number. */
  lemma LinkOn(t: Tables, o: Owners, p: nat, s: nat, k: nat, v: nat)
    requires Wf(t, o) && On(t, o, p, s, k, v) && k >= 2
    requires TableOk(t, o, p) && t[p][Index(k, v)] != ZERO_PTE
    ensures On(t, o, t[p][Index(k, v)].frame, SpaceAt(s, k, v), k - 1, v)
    ensures SpaceAt(SpaceAt(s, k, v), k - 1, v) == SpaceAt(s, k, v)
  {
    assert LinkOk(t, o, p, Index(k, v));
  }

  /** A walk ends in the leaf table of its own address space and prefix. */
  lemma {:induction false} LeafPlace(t: Tables, o: Owners, p: nat, s: nat, k: nat, v: nat)
    requires Wf(t, o) && On(t, o, p, s, k, v)
    ensures Leaf(t, p, k, v).Some? ==> On(t, o, Leaf(t, p, k, v).value, SpaceAt(s, k, v), 1, v)
    decreases k
  {
    assert TableOk(t, o, p);
    if k > 1 && t[p][Index(k, v)] != ZERO_PTE {
      LinkOn(t, o, p, s, k, v);
      LeafPlace(t, o, t[p][Index(k, v)].frame, SpaceAt(s, k, v), k - 1, v);
    }
  }

  // ------------------------------------------------------------------ what an update changes

  /** Every table above the leaves is the same in both memories. */
  ghost predicate SameInner(t: Tables, o: Owners, t': Tables) {
    forall p :: p in t && p in o && o[p].level >= 2 ==> p in t' && t'[p] == t[p]
  }

  lemma {:induction false} SameLeaf(t: Tables, o: Owners, t': Tables, p: nat, s: nat, k: nat, v: nat)
    requires Wf(t, o) && On(t, o, p, s, k, v) && SameInner(t, o, t')
    ensures Leaf(t', p, k, v) == Leaf(t, p, k, v)
    decreases k
  {
    if k > 1 {
      assert TableOk(t, o, p);
      if t[p][Index(k, v)] != ZERO_PTE {
        LinkOn(t, o, p, s, k, v);
        SameLeaf(t, o, t', t[p][Index(k, v)].frame, SpaceAt(s, k, v), k - 1, v);
      }
    }
  }

  /** If the inner tables are untouched, a translation changes only if its leaf table did. */
  lemma SameEntry(t: Tables, o: Owners, t': Tables, p: nat, s: nat, k: nat, v: nat)
    requires Wf(t, o) && On(t, o, p, s, k, v) && SameInner(t, o, t')
    requires forall q :: q in t && q in o && o[q] == Place(SpaceAt(s, k, v), 1, Up(1, v)) ==> q in t' && t'[q] == t[q]
    ensures Entry(t', p, k, v) == Entry(t, p, k, v)
  {
    SameLeaf(t, o, t', p, s, k, v);
    LeafPlace(t, o, p, s, k, v);
  }

  /** Writing slot `i` of leaf table `q`. */
  lemma PutLeafWf(t: Tables, o: Owners, q: nat, i: nat, e: Pte)
    requires Wf(t, o) && q in t && o[q].level == 1 && i < FANOUT && (e != ZERO_PTE ==> e.present)
    requires TableOk(t, o, q)
    ensures Wf(t[q := t[q][i := e]], o)
  {
    var t' := t[q := t[q][i := e]];
    forall p | p in t' ensures TableOk(t', o, p) {
      assert TableOk(t, o, p);
      forall j | 0 <= j < FANOUT ensures LinkOk(t', o, p, j) { assert LinkOk(t, o, p, j); }
    }
  }

  /** The write is seen by exactly the walks that end in `q` at slot `i`. */
  lemma PutLeafEntry(t: Tables, o: Owners, q: nat, i: nat, e: Pte, p: nat, s: nat, k: nat, v: nat)
    requires Wf(t, o) && q in t && o[q].level == 1 && i < FANOUT && |t[q]| == FANOUT
    requires On(t, o, p, s, k, v)
    ensures Entry(t[q := t[q][i := e]], p, k, v)
         == if Leaf(t, p, k, v) == Some(q) && v % FANOUT == i then e else Entry(t, p, k, v)
    ensures Leaf(t[q := t[q][i := e]], p, k, v) == Leaf(t, p, k, v)
  {
    SameLeaf(t, o, t[q := t[q][i := e]], p, s, k, v);
  }

  // ------------------------------------------------------------------ linking a new table

  function EmptyTable(): seq<Pte> { seq(FANOUT, _ => ZERO_PTE) }

  ghost function Linked(t: Tables, p: nat, i: nat, n: nat, link: Pte): Tables
    requires p in t && i < |t[p]|
  {
    t[n := EmptyTable()][p := t[p][i := link]]
  }

  lemma LinkWf(t: Tables, o: Owners, p: nat, i: nat, n: nat, link: Pte)
    requires Wf(t, o) && p in t && o[p].level >= 2 && i < FANOUT && n !in t && n != NULL_FRAME && TableOk(t, o, p)
    requires link.present && link.frame == n
    ensures Wf(Linked(t, p, i, n, link), o[n := ChildPlace(o[p], i)])
  {
    var t', o' := Linked(t, p, i, n, link), o[n := ChildPlace(o[p], i)];
    forall q | q in t' ensures TableOk(t', o', q) {
      if q != n { assert TableOk(t, o, q); }
      forall j | 0 <= j < FANOUT ensures LinkOk(t', o', q, j) { if q != n { assert LinkOk(t, o, q, j); } }
    }
  }

  /** Linking an empty table where there was none translates nothing new. */
  lemma {:induction false} LinkEntry(t: Tables, o: Owners, p: nat, i: nat, n: nat, link: Pte, x: nat, s: nat, k: nat,
                                     v: nat)
    requires Wf(t, o) && p in t && o[p].level >= 2 && i < |t[p]| && n !in t && n != p && t[p][i] == ZERO_PTE
    requires link.frame == n && link != ZERO_PTE
    requires On(t, o, x, s, k, v)
    ensures Entry(Linked(t, p, i, n, link), x, k, v) == Entry(t, x, k, v)
    decreases k
  {
    var t' := Linked(t, p, i, n, link);
    assert TableOk(t, o, x);
    if k > 1 {
      if t[x][Index(k, v)] != ZERO_PTE {
        LinkOn(t, o, x, s, k, v);
        LinkEntry(t, o, p, i, n, link, t[x][Index(k, v)].frame, SpaceAt(s, k, v), k - 1, v);
      } else if x == p && i == Index(k, v) {
        assert Leaf(t', x, k, v) == Leaf(t', n, k - 1, v);
      }
    }
  }
}
