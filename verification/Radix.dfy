/** The radix tree of `src/com/lib/radixtree.c`: 512-way nodes of one page each, `layers` deep, refining
    a map from index to data pointer. */
module Radix {
  import opened Options
  import opened Pages
  import opened Arith
  import opened Queues
  import opened Digits

  /** A node is 512 words: links above the last layer, data pointers in it; 0 is NULL. */
  type Nodes = map<nat, seq<nat>>

  /** Where in the tree a node belongs: layers left below and including it, and index prefix. */
  datatype Spot = Spot(layer: nat, prefix: nat)

  type Spots = map<nat, Spot>

  // ------------------------------------------------------------------ splitting an index

  lemma {:induction false} ShrUp(x: nat, k: nat)
    ensures Shr(x, 9 * k) == Up(k, x)
  {
    if k > 0 {
      ShrUp(x, k - 1);
      NineHalves(x, 9 * (k - 1));
    }
  }

  /** `split_index`: word `i` is the slot taken at layer `layers - i`. */
  method SplitIndex(index: nat, layers: nat) returns (indices: seq<nat>)
    ensures |indices| == layers && (layers >= 1 ==> indices[layers - 1] == index % FANOUT)
    ensures forall i :: 0 <= i < layers ==> indices[i] == Index(layers - i, index) < FANOUT
  {
    hide Shr, BitAnd, Pow2;
    var a := new nat[layers];
    var i := 0;
    while i < layers
      invariant 0 <= i <= layers
      invariant forall j :: 0 <= j < i ==> a[j] == Index(layers - j, index)
    {
      a[i] := BitAnd(Shr(index, 9 * (layers - i - 1)), 511);
      OneSlot(index, layers - i);
      i := i + 1;
    }
    indices := a[..];
    forall k | 0 <= k < layers ensures indices[k] == Index(layers - k, index) < FANOUT { assert indices[k] == a[k]; }
    assert Up(0, index) == index;
  }

  lemma OneSlot(index: nat, k: nat)
    requires k >= 1
    ensures BitAnd(Shr(index, 9 * (k - 1)), 511) == Index(k, index)
  {
    ShrUp(index, k - 1);
    MaskMod(Up(k - 1, index), 9);
    assert Pow2(9) == 512;
  }

  /** Below 512^layers an index is determined by its slots: no two share all of them. */
  lemma {:induction false} SplitInjective(v: nat, w: nat, layers: nat)
    requires Up(layers, v) == Up(layers, w) && forall k :: 1 <= k <= layers ==> Index(k, v) == Index(k, w)
    ensures v == w
    decreases layers
  {
    if layers > 0 {
      assert Index(layers, v) == Index(layers, w);
      assert Up(layers - 1, v) == Up(layers - 1, w);
      SplitInjective(v, w, layers - 1);
    }
  }

  // ------------------------------------------------------------------ the tree

  function SetSlot(t: Nodes, q: nat, i: nat, d: nat): Nodes
    requires q in t && i < |t[q]|
  {
    var node: seq<nat> := t[q][i := d];
    t[q := node]
  }

  /** The last-layer node the walk for `v` from node `p` reaches, if every link exists. */
  function Walk(t: Nodes, p: nat, k: nat, v: nat): Option<nat>
    requires k >= 1
    decreases k
  {
    if k == 1 then Some(p)
    else if p !in t || |t[p]| != FANOUT || t[p][Index(k, v)] == 0 then None
    else Walk(t, t[p][Index(k, v)], k - 1, v)
  }

  /** The data pointer stored for `v`, NULL if there is none. */
  function Look(t: Nodes, p: nat, k: nat, v: nat): nat
    requires k >= 1
  {
    match Walk(t, p, k, v)
    case None => 0
    case Some(q) => if q in t && |t[q]| == FANOUT then t[q][v % FANOUT] else 0
  }

  ghost predicate LinkedOk(t: Nodes, o: Spots, p: nat, i: nat)
    requires p in t && p in o && i < |t[p]| && o[p].layer >= 2
  {
    var c := t[p][i];
    c != 0 ==> c in t && c in o && o[c] == Spot(o[p].layer - 1, Sub(o[p].prefix, i))
  }

  ghost predicate NodeOk(t: Nodes, o: Spots, p: nat)
    requires p in t && p in o
  {
    && |t[p]| == FANOUT && o[p].layer >= 1
    && (o[p].layer >= 2 ==> forall i :: 0 <= i < FANOUT ==> LinkedOk(t, o, p, i))
  }

  ghost predicate TreeOk(t: Nodes, o: Spots) {
    t.Keys == o.Keys && 0 !in t && forall p :: p in t ==> NodeOk(t, o, p)
  }

  ghost predicate Here(o: Spots, p: nat, k: nat, v: nat) { p in o && o[p] == Spot(k, Up(k, v)) }

  lemma ChildHere(t: Nodes, o: Spots, p: nat, k: nat, v: nat)
    requires TreeOk(t, o) && Here(o, p, k, v) && k >= 2 && p in t && |t[p]| == FANOUT && t[p][Index(k, v)] != 0
    ensures Here(o, t[p][Index(k, v)], k - 1, v) && t[p][Index(k, v)] in t
  {
    assert NodeOk(t, o, p);
    assert LinkedOk(t, o, p, Index(k, v));
  }

  lemma {:induction false} WalkHere(t: Nodes, o: Spots, p: nat, k: nat, v: nat)
    requires TreeOk(t, o) && k >= 1 && Here(o, p, k, v)
    ensures Walk(t, p, k, v).Some? ==> Here(o, Walk(t, p, k, v).value, 1, v)
    decreases k
  {
    assert NodeOk(t, o, p);
    if k > 1 && t[p][Index(k, v)] != 0 {
      ChildHere(t, o, p, k, v);
      WalkHere(t, o, t[p][Index(k, v)], k - 1, v);
    }
  }

  /** Writing slot `i` of last-layer node `q`: only the index that owns the slot sees it. */
  lemma {:induction false} LeafWalk(t: Nodes, o: Spots, q: nat, i: nat, d: nat, p: nat, k: nat, v: nat)
    requires TreeOk(t, o) && q in t && o[q].layer == 1 && i < FANOUT && |t[q]| == FANOUT && k >= 1 && Here(o, p, k, v)
    ensures Walk(SetSlot(t, q, i, d), p, k, v) == Walk(t, p, k, v)
    decreases k
  {
    if k > 1 {
      assert NodeOk(t, o, p);
      if t[p][Index(k, v)] != 0 {
        ChildHere(t, o, p, k, v);
        LeafWalk(t, o, q, i, d, t[p][Index(k, v)], k - 1, v);
      }
    }
  }

  lemma LeafOk(t: Nodes, o: Spots, q: nat, i: nat, d: nat)
    requires TreeOk(t, o) && q in t && o[q].layer == 1 && i < FANOUT && |t[q]| == FANOUT
    ensures TreeOk(SetSlot(t, q, i, d), o)
  {
    var t' := SetSlot(t, q, i, d);
    forall p | p in t' ensures NodeOk(t', o, p) {
      assert NodeOk(t, o, p);
      if o[p].layer >= 2 { forall j | 0 <= j < FANOUT ensures LinkedOk(t', o, p, j) { assert LinkedOk(t, o, p, j); } }
    }
  }

  /** Two in-range indices whose walks end in the same node at the same slot are equal. */
  lemma SameSlot(t: Nodes, o: Spots, p: nat, k: nat, v: nat, w: nat)
    requires TreeOk(t, o) && k >= 1 && Here(o, p, k, v) && Here(o, p, k, w)
    requires Walk(t, p, k, v).Some? && Walk(t, p, k, w) == Walk(t, p, k, v) && v % FANOUT == w % FANOUT
    ensures v == w
  {
    WalkHere(t, o, p, k, v);
    WalkHere(t, o, p, k, w);
  }

  lemma LeafLook(t: Nodes, o: Spots, p: nat, k: nat, v: nat, d: nat, w: nat)
    requires TreeOk(t, o) && k >= 1 && Here(o, p, k, v) && Here(o, p, k, w) && Walk(t, p, k, v).Some?
    ensures Walk(t, p, k, v).value in t && |t[Walk(t, p, k, v).value]| == FANOUT
    ensures var q := Walk(t, p, k, v).value;
            Look(SetSlot(t, q, v % FANOUT, d), p, k, w) == if w == v then d else Look(t, p, k, w)
  {
    WalkHere(t, o, p, k, v);
    var q := Walk(t, p, k, v).value;
    assert NodeOk(t, o, q);
    LeafWalk(t, o, q, v % FANOUT, d, p, k, w);
    if Walk(t, p, k, w) == Some(q) && w % FANOUT == v % FANOUT { SameSlot(t, o, p, k, v, w); }
  }

  function EmptyNode(): seq<nat> { seq(FANOUT, _ => 0) }

  /** Linking the fresh zeroed page `n` at slot `i` of inner node `p`. */
  function Grown(t: Nodes, p: nat, i: nat, n: nat): Nodes
    requires p in t && i < |t[p]|
  {
    if n == p then t else SetSlot(t[n := EmptyNode()], p, i, n)
  }

  lemma GrownOk(t: Nodes, o: Spots, p: nat, i: nat, n: nat)
    requires TreeOk(t, o) && p in t && o[p].layer >= 2 && i < FANOUT && |t[p]| == FANOUT && n !in t && n != 0
    ensures TreeOk(Grown(t, p, i, n), o[n := Spot(o[p].layer - 1, Sub(o[p].prefix, i))])
  {
    var t', o' := Grown(t, p, i, n), o[n := Spot(o[p].layer - 1, Sub(o[p].prefix, i))];
    forall q | q in t' ensures NodeOk(t', o', q) {
      if q != n { assert NodeOk(t, o, q); }
      if o'[q].layer >= 2 {
        forall j | 0 <= j < FANOUT ensures LinkedOk(t', o', q, j) { if q != n { assert LinkedOk(t, o, q, j); } }
      }
    }
  }

  lemma {:induction false} GrownLook(t: Nodes, o: Spots, p: nat, i: nat, n: nat, x: nat, k: nat, v: nat)
    requires TreeOk(t, o) && p in t && o[p].layer >= 2 && i < |t[p]| && t[p][i] == 0 && n !in t && n != 0
    requires k >= 1 && Here(o, x, k, v)
    ensures Look(Grown(t, p, i, n), x, k, v) == Look(t, x, k, v)
    decreases k
  {
    var t' := Grown(t, p, i, n);
    assert NodeOk(t, o, x);
    if k > 1 {
      if t[x][Index(k, v)] != 0 {
        ChildHere(t, o, x, k, v);
        GrownLook(t, o, p, i, n, t[x][Index(k, v)], k - 1, v);
      } else if x == p && i == Index(k, v) {
        assert Walk(t', x, k, v) == Walk(t', n, k - 1, v);
      }
    }
  }

  // ------------------------------------------------------------------ refinement of a map

  ghost predicate InRange(layers: nat, v: nat) { Up(layers, v) == 0 }

  /** The tree stores exactly `contents`. */
  ghost predicate Stores(t: Nodes, root: nat, layers: nat, contents: map<nat, nat>)
    requires layers >= 1
  {
    && (forall v :: v in contents ==> InRange(layers, v) && contents[v] != 0)
    && (forall v: nat :: InRange(layers, v) ==> Look(t, root, layers, v) == if v in contents then contents[v] else 0)
  }

  ghost predicate Rooted(t: Nodes, o: Spots, root: nat, layers: nat) {
    layers >= 1 && TreeOk(t, o) && root in o && o[root] == Spot(layers, 0)
  }

  lemma StoreLeaf(t: Nodes, o: Spots, root: nat, layers: nat, contents: map<nat, nat>, v: nat, d: nat)
    requires Rooted(t, o, root, layers) && Stores(t, root, layers, contents) && InRange(layers, v)
    requires Walk(t, root, layers, v).Some?
    ensures var q := Walk(t, root, layers, v).value; q in t && |t[q]| == FANOUT
    ensures var q := Walk(t, root, layers, v).value; var t' := SetSlot(t, q, v % FANOUT, d);
            Rooted(t', o, root, layers) && Stores(t', root, layers, if d == 0 then contents - {v} else contents[v := d])
  {
    hide TreeOk, Look;
    LeafLook(t, o, root, layers, v, d, v);
    var q := Walk(t, root, layers, v).value;
    WalkHere(t, o, root, layers, v);
    LeafOk(t, o, q, v % FANOUT, d);
    forall w: nat | InRange(layers, w)
      ensures Look(SetSlot(t, q, v % FANOUT, d), root, layers, w) == if w == v then d else Look(t, root, layers, w)
    {
      LeafLook(t, o, root, layers, v, d, w);
    }
  }

  lemma StoreGrown(t: Nodes, o: Spots, root: nat, layers: nat, contents: map<nat, nat>, p: nat, i: nat, n: nat)
    requires Rooted(t, o, root, layers) && Stores(t, root, layers, contents)
    requires p in t && p in o && o[p].layer >= 2 && i < FANOUT && |t[p]| == FANOUT && t[p][i] == 0 && n !in t && n != 0
    ensures var t', o' := Grown(t, p, i, n), o[n := Spot(o[p].layer - 1, Sub(o[p].prefix, i))];
            Rooted(t', o', root, layers) && Stores(t', root, layers, contents)
  {
    GrownOk(t, o, p, i, n);
    hide TreeOk, Look;
    forall v: nat | InRange(layers, v) ensures Look(Grown(t, p, i, n), root, layers, v) == Look(t, root, layers, v) {
      GrownLook(t, o, p, i, n, root, layers, v);
    }
  }

  class RadixTree {
    const layers: nat
    const back: nat
    var nodes: Nodes
    /** Fresh zeroed pages from the physical allocator. */
    var pool: seq<nat>
    ghost var spots: Spots
    ghost var contents: map<nat, nat>

    ghost predicate Valid()
      reads this
    {
      && Rooted(nodes, spots, back, layers) && Stores(nodes, back, layers, contents)
      && PoolOk(nodes, pool)
    }

    /** KRADIXTREE_INIT. */
    constructor (layers: nat, zeroed: seq<nat>)
      requires layers >= 1 && |zeroed| >= 1 && NoDup(zeroed) && 0 !in zeroed
      ensures Valid() && this.layers == layers && contents == map[] && pool == zeroed[1..]
    {
      this.layers, back := layers, zeroed[0];
      nodes, pool := map[zeroed[0] := EmptyNode()], zeroed[1..];
      spots, contents := map[zeroed[0] := Spot(layers, 0)], map[];
      new;
      StoresNothing(nodes, back, layers);
    }

    /** `kradixtree_get_nolock`: the data stored, or ENOENT. */
    method Get(index: nat) returns (r: Option<nat>)
      requires Valid() && InRange(layers, index)
      ensures r == if index in contents then Some(contents[index]) else None
    {
      var indices := SplitIndex(index, layers);
      var root := back;
      var i := 0;
      while i < layers - 1
        invariant 0 <= i <= layers - 1 && Here(spots, root, layers - i, index)
        invariant Passes(nodes, back, layers, index, layers - i, root)
      {
        assert NodeOk(nodes, spots, root);
        var k := layers - i;
        PassesWalk(nodes, back, layers, index, k, root);
        if nodes[root][indices[i]] == 0 {
          return None;
        }
        ChildHere(nodes, spots, root, k, index);
        PassesOn(nodes, back, layers, index, k, root);
        root := nodes[root][indices[i]];
        i := i + 1;
      }
      assert NodeOk(nodes, spots, root);
      PassesWalk(nodes, back, layers, index, 1, root);
      var data := nodes[root][indices[layers - 1]];
      r := if data == 0 then None else Some(data);
    }

    /** `kradixtree_put_nolock` into an empty slot, which its KASSERT demands; one fresh page is linked in
        for each missing node on the way down. */
    method Put(index: nat, data: nat)
      requires Valid() && InRange(layers, index) && index !in contents && data != 0 && |pool| >= layers
      modifies this
      ensures Valid() && contents == old(contents)[index := data] && |pool| > |old(pool)| - layers
      ensures |pool| <= |old(pool)| && pool == old(pool)[|old(pool)| - |pool|..]
    {
      hide Rooted, Stores, PoolOk, Walk, Look, TreeOk, Passes, Here, InRange;
      Start(index);
      var indices := SplitIndex(index, layers);
      var root := back;
      var i := 0;
      while i < layers - 1
        invariant 0 <= i <= layers - 1 && Valid() && contents == old(contents) && Here(spots, root, layers - i, index)
        invariant Passes(nodes, back, layers, index, layers - i, root)
        invariant |pool| >= |old(pool)| - i && |pool| <= |old(pool)| && pool == old(pool)[|old(pool)| - |pool|..]
      {
        root := Descend(root, index, layers - i, indices[i]);
        i := i + 1;
      }
      WalkNow(root, index);
      assert nodes[root][indices[layers - 1]] == 0;
      StoreLeaf(nodes, spots, back, layers, contents, index, data);
      PoolSame(nodes, pool, root, indices[layers - 1], data);
      nodes := SetSlot(nodes, root, indices[layers - 1], data);
      contents := contents[index := data];
    }

    lemma Start(index: nat)
      requires Valid() && InRange(layers, index)
      ensures layers >= 1 && Here(spots, back, layers, index) && Passes(nodes, back, layers, index, layers, back)
    {}

    /** One turn of the loop of `kradixtree_put_nolock`. */
    method Descend(root: nat, index: nat, k: nat, slot: nat) returns (tmp: nat)
      requires Valid() && k >= 2 && k <= layers && Here(spots, root, k, index) && slot == Index(k, index) && |pool| >= 1
      requires Passes(nodes, back, layers, index, k, root) && InRange(layers, index)
      modifies this`nodes, this`pool, this`spots
      ensures Valid() && Here(spots, tmp, k - 1, index)
      ensures Passes(nodes, back, layers, index, k - 1, tmp)
      ensures pool == old(pool) || pool == old(pool)[1..]
    {
      hide Stores, PoolOk, Walk, Look, Passes;
      assert NodeOk(nodes, spots, root);
      tmp := nodes[root][slot];
      if tmp == 0 {
        tmp := pool[0];
        ghost var t := nodes;
        PoolTail(nodes, pool, root, slot);
        StoreGrown(nodes, spots, back, layers, contents, root, slot, tmp);
        PassesGrown(nodes, spots, back, layers, index, k, root, tmp);
        hide TreeOk, Rooted;
        nodes := nodes[tmp := EmptyNode()];
        nodes := SetSlot(nodes, root, slot, tmp);
        assert nodes == Grown(t, root, slot, tmp);
        spots := spots[tmp := Spot(k - 1, Sub(Up(k, index), slot))];
        pool := pool[1..];
      } else {
        ChildHere(nodes, spots, root, k, index);
        PassesOn(nodes, back, layers, index, k, root);
      }
    }

    lemma WalkNow(root: nat, index: nat)
      requires Valid() && InRange(layers, index) && Here(spots, root, 1, index)
      requires Passes(nodes, back, layers, index, 1, root)
      ensures root in nodes && |nodes[root]| == FANOUT && Walk(nodes, back, layers, index) == Some(root)
      ensures Look(nodes, back, layers, index) == nodes[root][index % FANOUT]
      ensures nodes[root][index % FANOUT] == if index in contents then contents[index] else 0
    {
      assert NodeOk(nodes, spots, root);
      PassesWalk(nodes, back, layers, index, 1, root);
    }

    /** `kradixtree_remove_nolock`: ENOENT if a node is missing on the way; otherwise the slot must be in
        use, which its KASSERT demands. */
    method Remove(index: nat) returns (found: bool)
      requires Valid() && InRange(layers, index)
      requires Walk(nodes, back, layers, index).Some? ==> index in contents
      modifies this`nodes, this`contents
      ensures Valid() && contents == old(contents) - {index}
      ensures found <==> index in old(contents)
    {
      var indices := SplitIndex(index, layers);
      var root := back;
      var i := 0;
      while i < layers - 1
        invariant 0 <= i <= layers - 1 && Here(spots, root, layers - i, index) && nodes == old(nodes)
        invariant contents == old(contents)
        invariant Passes(nodes, back, layers, index, layers - i, root)
      {
        assert NodeOk(nodes, spots, root);
        var k := layers - i;
        PassesWalk(nodes, back, layers, index, k, root);
        if nodes[root][indices[i]] == 0 {
          assert Look(nodes, back, layers, index) == 0;
          return false;
        }
        ChildHere(nodes, spots, root, k, index);
        PassesOn(nodes, back, layers, index, k, root);
        root := nodes[root][indices[i]];
        i := i + 1;
      }
      WalkNow(root, index);
      assert nodes[root][indices[layers - 1]] != 0;
      StoreLeaf(nodes, spots, back, layers, contents, index, 0);
      PoolSame(nodes, pool, root, indices[layers - 1], 0);
      hide TreeOk, Look, Walk, Rooted, Stores, PoolOk;
      nodes := SetSlot(nodes, root, indices[layers - 1], 0);
      contents := contents - {index};
      found := true;
    }
  }

  ghost predicate PoolOk(t: Nodes, pool: seq<nat>) { NoDup(pool) && forall n :: n in pool ==> n !in t && n != 0 }

  lemma PoolSame(t: Nodes, pool: seq<nat>, p: nat, i: nat, d: nat)
    requires PoolOk(t, pool) && p in t && i < |t[p]|
    ensures PoolOk(SetSlot(t, p, i, d), pool)
  {}

  lemma PoolTail(t: Nodes, pool: seq<nat>, p: nat, i: nat)
    requires PoolOk(t, pool) && |pool| >= 1 && p in t && i < |t[p]|
    ensures PoolOk(Grown(t, p, i, pool[0]), pool[1..]) && pool[0] !in t && pool[0] != 0
  {
    assert pool[0] in pool;
    forall n | n in pool[1..] ensures n in pool && n != pool[0] {
      var j :| 0 <= j < |pool[1..]| && pool[1..][j] == n;
      assert pool[j + 1] == n;
    }
  }

  lemma StoresNothing(t: Nodes, root: nat, layers: nat)
    requires layers >= 1 && root != 0 && t == map[root := EmptyNode()]
    ensures Rooted(t, map[root := Spot(layers, 0)], root, layers) && Stores(t, root, layers, map[])
  {
    forall v: nat ensures Look(t, root, layers, v) == 0 {}
  }

  /** The walk for `v` from `q` at layer `m` passes node `p` at layer `k`. */
  ghost predicate Passes(t: Nodes, q: nat, m: nat, v: nat, k: nat, p: nat)
    decreases m
  {
    if m <= k then m == k && q == p
    else m >= 2 && q in t && |t[q]| == FANOUT && t[q][Index(m, v)] != 0 && Passes(t, t[q][Index(m, v)], m - 1, v, k, p)
  }

  lemma {:induction false} PassesWalk(t: Nodes, q: nat, m: nat, v: nat, k: nat, p: nat)
    requires Passes(t, q, m, v, k, p) && k >= 1
    ensures m >= 1 && Walk(t, q, m, v) == Walk(t, p, k, v)
    decreases m
  {
    if m > k { PassesWalk(t, t[q][Index(m, v)], m - 1, v, k, p); }
  }

  lemma {:induction false} PassesOn(t: Nodes, q: nat, m: nat, v: nat, k: nat, p: nat)
    requires Passes(t, q, m, v, k, p) && k >= 2 && p in t && |t[p]| == FANOUT && t[p][Index(k, v)] != 0
    ensures Passes(t, q, m, v, k - 1, t[p][Index(k, v)])
    decreases m
  {
    if m > k { PassesOn(t, t[q][Index(m, v)], m - 1, v, k, p); }
  }

  /** After growing, the walk goes on through the new node. */
  lemma {:induction false} PassesGrown(t: Nodes, o: Spots, q: nat, m: nat, v: nat, k: nat, p: nat, n: nat)
    requires TreeOk(t, o) && Here(o, q, m, v) && Here(o, p, k, v) && Passes(t, q, m, v, k, p)
    requires k >= 2 && p in t && |t[p]| == FANOUT && t[p][Index(k, v)] == 0 && n !in t && n != 0
    ensures Passes(Grown(t, p, Index(k, v), n), q, m, v, k - 1, n)
    decreases m
  {
    if m > k {
      ChildHere(t, o, q, m, v);
      PassesGrown(t, o, t[q][Index(m, v)], m - 1, v, k, p, n);
    }
  }
}
