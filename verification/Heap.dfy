/** The slab allocator on top of the physical one: `com_mm_slab_alloc` takes its pages from
    `com_mm_pmm_alloc_zero` (`src/com/mm/slab.c`, `src/com/mm/pmm.c`), and its users see separate objects. */
module HeapCode {
  import opened Options
  import opened Pages
  import opened Words
  import opened FreeList
  import opened RunHeads
  import opened PmmCode
  import opened Slab

  /** The objects a user sees: the bytes of each, by address. */
  ghost function ObjectsOf(mem: Memory, live: map<nat, nat>): map<nat, seq<byte>> {
    map a | a in live :: Fetch(mem, a, live[a])
  }

  /** An object with one byte stored. */
  function Put(s: seq<byte>, off: nat, b: byte): (r: seq<byte>)
    requires off < |s|
    ensures |r| == |s|
  {
    s[off := b]
  }

  class Heap {
    const pmm: Pmm
    const slab: Allocator

    /** Both allocators are in order, the slab pages are taken from the physical one, page 0 is not usable
        memory, and all of memory can be addressed. */
    ghost predicate Valid()
      reads this, pmm, pmm.meta, slab, slab.slabs
    {
      && pmm.Valid() && slab.Valid()
      && pmm.meta.Length < MAX_PAGES && 0 !in PagesOf(pmm.free)
      && slab.pages.Keys <= TakenPages(pmm.meta[..])
    }

    ghost function Objects(): map<nat, seq<byte>>
      reads this, slab
    {
      ObjectsOf(slab.mem, slab.live)
    }

    constructor (pmm: Pmm)
      requires pmm.Valid() && pmm.meta.Length < MAX_PAGES && 0 !in PagesOf(pmm.free)
      ensures Valid() && this.pmm == pmm && fresh(slab) && fresh(slab.slabs) && Objects() == map[]
    {
      this.pmm := pmm;
      slab := new Allocator();
    }

    /** Two objects never overlap. */
    lemma Disjoint(a: nat, b: nat)
      requires Valid() && a in Objects() && b in Objects() && a != b
      ensures a % 16 == 0 && (a + |Objects()[a]| <= b || b + |Objects()[b]| <= a)
    {
      hide Slab.Ok;
      LiveDisjoint(slab.mem, slab.pages, slab.live, slab.slabs[..], slab.lists, a, b);
    }

    /** `com_mm_slab_alloc`: a new object of `size` zeros, all others as they were.  It fails exactly for
        sizes that no class serves and when it needs a page and there is none. */
    method Alloc(size: nat) returns (r: Option<nat>)
      requires Valid()
      modifies pmm, pmm.meta, slab, slab.slabs
      ensures Valid()
      ensures r.Some? <==> 1 <= size <= MAX_SIZE && !(old(slab.NeedsPage(size)) && old(pmm.free) == [])
      ensures r.Some? ==> r.value !in old(Objects()) && Objects() == old(Objects())[r.value := Zeros(size)]
      ensures r.None? ==> Objects() == old(Objects())
      ensures |PagesOf(pmm.free)| >= |old(PagesOf(pmm.free))| - 1
    {
      hide PmmCode.Ok, Slab.Ok, PagesOf, ZeroIn, Outside, Same, Fetch, ObjectsOf, TakenPages;
      var page := 0;
      ghost var mem, live := slab.mem, slab.live;
      SameSelf(mem, live);
      if slab.NeedsPage(size) {
        var p := pmm.Alloc();
        if p.None? { return None; }
        page := p.value;
        HandedPage(pmm.where, old(pmm.free), old(pmm.meta[..]), old(pmm.ram), old(pmm.usedBytes), old(pmm.freeBytes),
                   pmm.ram, pmm.free, pmm.meta[..], page);
        slab.Import(page, PageAt(pmm.ram, page));
        FetchedZero(slab.mem, page);
      }
      ghost var mid := slab.mem;
      r := slab.Alloc(size, page);
      SameTwice(mem, mid, slab.mem, live);
      if r.Some? {
        NewObject(mem, slab.mem, live, r.value, size);
      } else {
        SameObjects(mem, slab.mem, live);
      }
    }

    /** `com_mm_slab_free`: the object goes, all others stay as they were. */
    method Free(a: nat, size: nat)
      requires Valid() && (a != 0 ==> a in Objects() && |Objects()[a]| == size)
      modifies slab, slab.slabs
      ensures Valid() && Objects() == if a == 0 then old(Objects()) else old(Objects()) - {a}
    {
      hide PmmCode.Ok, Slab.Ok, PagesOf, Outside, Same, ObjectsOf, TakenPages;
      ghost var mem, live := slab.mem, slab.live;
      SameSelf(mem, live);
      Object(mem, live, a);
      slab.Free(a, size);
      if a == 0 { SameObjects(mem, slab.mem, live); } else { LostObject(mem, slab.mem, live, a); }
    }

    /** The user of an object stores a byte: no other object changes. */
    method Write(a: nat, off: nat, b: byte)
      requires Valid() && a in Objects() && off < |Objects()[a]|
      modifies slab`mem
      ensures Valid() && Objects() == old(Objects())[a := Put(old(Objects())[a], off, b)]
    {
      hide PmmCode.Ok, Slab.Ok, PagesOf, Outside, Same, ObjectsOf, TakenPages;
      ghost var mem, live := slab.mem, slab.live;
      Object(mem, live, a);
      slab.Write(a, off, b);
      StoredObject(mem, live, a, off, b);
    }
  }

  // ------------------------------------------------------------------ what the users see

  lemma Object(mem: Memory, live: map<nat, nat>, a: nat)
    ensures a in ObjectsOf(mem, live) <==> a in live
    ensures a in live ==> |ObjectsOf(mem, live)[a]| == live[a]
  {}

  lemma SameSelf(mem: Memory, live: map<nat, nat>)
    ensures forall a | a in live :: Same(mem, mem, a, a + live[a])
  {}

  lemma SameTwice(a: Memory, b: Memory, c: Memory, live: map<nat, nat>)
    requires forall x | x in live :: Same(a, b, x, x + live[x])
    requires forall x | x in live :: Same(b, c, x, x + live[x])
    ensures forall x | x in live :: Same(a, c, x, x + live[x])
  {
    forall x | x in live ensures Same(a, c, x, x + live[x]) {
      assert Same(a, b, x, x + live[x]) && Same(b, c, x, x + live[x]);
    }
  }

  lemma SameFetch(mem: Memory, mem': Memory, live: map<nat, nat>, a: nat)
    requires a in live && Same(mem, mem', a, a + live[a])
    ensures Fetch(mem', a, live[a]) == Fetch(mem, a, live[a])
  {
    FetchSame(mem, mem', a, live[a]);
  }

  lemma SameObjects(mem: Memory, mem': Memory, live: map<nat, nat>)
    requires forall a | a in live :: Same(mem, mem', a, a + live[a])
    ensures ObjectsOf(mem', live) == ObjectsOf(mem, live)
  {
    hide Fetch, Same;
    forall a | a in live ensures Fetch(mem', a, live[a]) == Fetch(mem, a, live[a]) { SameFetch(mem, mem', live, a); }
  }

  lemma NewObject(mem: Memory, mem': Memory, live: map<nat, nat>, a: nat, size: nat)
    requires a !in live && 1 <= size && ZeroIn(mem', a, a + 16 * Class(size))
    requires forall b | b in live :: Same(mem, mem', b, b + live[b])
    ensures a !in ObjectsOf(mem, live) && ObjectsOf(mem', live[a := size]) == ObjectsOf(mem, live)[a := Zeros(size)]
  {
    hide Same;
    assert Fetch(mem', a, size) == Zeros(size);
    hide Fetch;
    forall b | b in live ensures Fetch(mem', b, live[b]) == Fetch(mem, b, live[b]) { SameFetch(mem, mem', live, b); }
  }

  lemma LostObject(mem: Memory, mem': Memory, live: map<nat, nat>, a: nat)
    requires forall b | b in live - {a} :: Same(mem, mem', b, b + (live - {a})[b])
    ensures ObjectsOf(mem', live - {a}) == ObjectsOf(mem, live) - {a}
  {
    hide Fetch, Same;
    forall b | b in live - {a} ensures Fetch(mem', b, live[b]) == Fetch(mem, b, live[b]) {
      assert Same(mem, mem', b, b + (live - {a})[b]);
      SameFetch(mem, mem', live, b);
    }
  }

  lemma StoredObject(mem: Memory, live: map<nat, nat>, a: nat, off: nat, b: byte)
    requires a in live && off < live[a]
    requires forall c | c in live && c != a :: Same(mem, mem[a + off := b], c, c + live[c])
    ensures |ObjectsOf(mem, live)[a]| == live[a]
    ensures ObjectsOf(mem[a + off := b], live) == ObjectsOf(mem, live)[a := Put(ObjectsOf(mem, live)[a], off, b)]
  {
    var mem' := mem[a + off := b];
    var f, f' := Fetch(mem, a, live[a]), Fetch(mem', a, live[a]);
    forall k | 0 <= k < live[a] ensures f'[k] == Put(f, off, b)[k] {
      assert f'[k] == Get(mem', a + k) && f[k] == Get(mem, a + k);
    }
    assert f' == Put(f, off, b);
    hide Fetch, Same;
    forall c | c in live && c != a ensures Fetch(mem', c, live[c]) == Fetch(mem, c, live[c]) {
      SameFetch(mem, mem', live, c);
    }
  }

  // ------------------------------------------------------------------ the page in between

  /** A page of zeros is what the slab allocator asks for. */
  lemma FetchedZero(mem: Memory, page: nat)
    requires Fetch(mem, page * PAGE_SIZE, PAGE_SIZE) == ZeroBytes()
    ensures ZeroIn(mem, page * PAGE_SIZE, page * PAGE_SIZE + PAGE_SIZE)
  {
    var lo := page * PAGE_SIZE;
    forall x: nat | lo <= x < lo + PAGE_SIZE ensures Get(mem, x) == 0 {
      assert Fetch(mem, lo, PAGE_SIZE)[x - lo] == ZeroBytes()[x - lo];
    }
  }

  // ------------------------------------------------------------------ sequences of calls

  /** A user's calls; objects are named by the number of the allocation that made them. */
  datatype Call = New(size: nat) | Set(k: nat, off: nat, b: byte) | Drop(k: nat)

  /** Separate byte sequences, by allocation number, none once freed. */
  type Separate = seq<Option<seq<byte>>>

  predicate Alive(objs: Separate, k: nat) { k < |objs| && objs[k].Some? }

  predicate MayCall(objs: Separate, c: Call) {
    match c
    case New(size) => 1 <= size <= MAX_SIZE
    case Set(k, off, _) => Alive(objs, k) && off < |objs[k].value|
    case Drop(k) => Alive(objs, k)
  }

  function Apply(objs: Separate, c: Call): Separate
    requires MayCall(objs, c)
  {
    match c
    case New(size) => objs + [Some(Zeros(size))]
    case Set(k, off, b) => objs[k := Some(Put(objs[k].value, off, b))]
    case Drop(k) => objs[k := None]
  }

  predicate IsRun(objs: Separate, calls: seq<Call>)
    decreases |calls|
  {
    calls == [] || (MayCall(objs, calls[0]) && IsRun(Apply(objs, calls[0]), calls[1..]))
  }

  function ApplyAll(objs: Separate, calls: seq<Call>): Separate
    requires IsRun(objs, calls)
    decreases |calls|
  {
    if calls == [] then objs else ApplyAll(Apply(objs, calls[0]), calls[1..])
  }

  function News(calls: seq<Call>): nat {
    if calls == [] then 0 else (if calls[0].New? then 1 else 0) + News(calls[1..])
  }

  /** Every object alive is at its own address, with its own bytes, and there are no others. */
  ghost predicate Shows(heap: map<nat, seq<byte>>, objs: Separate, addrs: seq<nat>) {
    && |addrs| == |objs|
    && (forall k: nat :: Alive(objs, k) ==> addrs[k] in heap && heap[addrs[k]] == objs[k].value)
    && (forall j: nat, k: nat :: Alive(objs, j) && Alive(objs, k) && j != k ==> addrs[j] != addrs[k])
    && (forall a :: a in heap ==> exists k: nat :: Alive(objs, k) && addrs[k] == a)
  }

  lemma ShowsNew(heap: map<nat, seq<byte>>, objs: Separate, addrs: seq<nat>, a: nat, size: nat)
    requires Shows(heap, objs, addrs) && a !in heap
    ensures Shows(heap[a := Zeros(size)], objs + [Some(Zeros(size))], addrs + [a])
  {
    var heap', objs', addrs' := heap[a := Zeros(size)], objs + [Some(Zeros(size))], addrs + [a];
    assert Alive(objs', |objs|);
    assert forall k: nat :: k < |objs| ==> (Alive(objs', k) <==> Alive(objs, k));
    forall x | x in heap' ensures exists k: nat :: Alive(objs', k) && addrs'[k] == x {
      if x == a {
        assert addrs'[|objs|] == a;
      } else {
        var k: nat :| Alive(objs, k) && addrs[k] == x;
        assert Alive(objs', k) && addrs'[k] == x;
      }
    }
  }

  lemma ShowsSet(heap: map<nat, seq<byte>>, objs: Separate, addrs: seq<nat>, k: nat, s: seq<byte>)
    requires Shows(heap, objs, addrs) && Alive(objs, k)
    ensures Shows(heap[addrs[k] := s], objs[k := Some(s)], addrs)
  {
    var heap', objs' := heap[addrs[k] := s], objs[k := Some(s)];
    assert forall j: nat :: Alive(objs', j) <==> Alive(objs, j);
    forall x | x in heap' ensures exists j: nat :: Alive(objs', j) && addrs[j] == x {
      var j: nat :| Alive(objs, j) && addrs[j] == x;
      assert Alive(objs', j);
    }
  }

  lemma ShowsDrop(heap: map<nat, seq<byte>>, objs: Separate, addrs: seq<nat>, k: nat)
    requires Shows(heap, objs, addrs) && Alive(objs, k)
    ensures Shows(heap - {addrs[k]}, objs[k := None], addrs)
  {
    var heap', objs' := heap - {addrs[k]}, objs[k := None];
    assert forall j: nat :: Alive(objs', j) <==> Alive(objs, j) && j != k;
    forall x | x in heap' ensures exists j: nat :: Alive(objs', j) && addrs[j] == x {
      var j: nat :| Alive(objs, j) && addrs[j] == x;
      assert Alive(objs', j);
    }
  }

  /** A client that makes any sequence of calls, with as many pages free as it allocates objects: its
      objects behave as separate byte sequences, zero at first, at disjoint addresses. */
  method Perform(h: Heap, calls: seq<Call>) returns (addrs: seq<nat>)
    requires h.Valid() && h.Objects() == map[] && IsRun([], calls) && |PagesOf(h.pmm.free)| >= News(calls)
    modifies h.pmm, h.pmm.meta, h.slab, h.slab.slabs
    ensures h.Valid() && Shows(h.Objects(), ApplyAll([], calls), addrs)
  {
    hide Shows, Apply, MayCall, PagesOf, ObjectsOf, PmmCode.Ok, Slab.Ok, TakenPages;
    var objs: Separate := [];
    addrs := [];
    var i := 0;
    ShowsNone();
    while i < |calls|
      invariant 0 <= i <= |calls| && h.Valid() && Shows(h.Objects(), objs, addrs)
      invariant IsRun(objs, calls[i..]) && ApplyAll(objs, calls[i..]) == ApplyAll([], calls)
      invariant |PagesOf(h.pmm.free)| >= News(calls[i..])
    {
      assert calls[i..][0] == calls[i] && calls[i..][1..] == calls[i + 1..];
      addrs := OneCall(h, objs, addrs, calls[i]);
      objs := Apply(objs, calls[i]);
      i := i + 1;
    }
  }

  lemma ShowsNone()
    ensures Shows(map[], [], [])
  {}

  method OneCall(h: Heap, objs: Separate, addrs: seq<nat>, c: Call) returns (addrs': seq<nat>)
    requires h.Valid() && Shows(h.Objects(), objs, addrs) && MayCall(objs, c) && (c.New? ==> |PagesOf(h.pmm.free)| >= 1)
    modifies h.pmm, h.pmm.meta, h.slab, h.slab.slabs
    ensures h.Valid() && Shows(h.Objects(), Apply(objs, c), addrs')
    ensures |PagesOf(h.pmm.free)| >= |old(PagesOf(h.pmm.free))| - if c.New? then 1 else 0
  {
    hide PagesOf, ObjectsOf, PmmCode.Ok, Slab.Ok, TakenPages;
    ghost var heap := h.Objects();
    addrs' := addrs;
    match c {
      case New(size) =>
        PagesNone();
        var a := h.Alloc(size);
        ShowsNew(heap, objs, addrs, a.value, size);
        addrs' := addrs + [a.value];
      case Set(k, off, b) =>
        assert Alive(objs, k);
        h.Write(addrs[k], off, b);
        ShowsSet(heap, objs, addrs, k, Put(objs[k].value, off, b));
      case Drop(k) =>
        assert Alive(objs, k);
        NoNull(h, addrs[k]);
        h.Free(addrs[k], |objs[k].value|);
        ShowsDrop(heap, objs, addrs, k);
    }
  }

  /** No object is at address 0. */
  lemma NoNull(h: Heap, a: nat)
    requires h.Valid() && a in h.Objects()
    ensures a != 0
  {
    assert LiveOk(h.slab.mem, h.slab.pages, a, h.slab.live[a]);
  }
}
