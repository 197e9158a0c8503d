/** The slab allocator of `src/com/mm/slab.c`: one list of free objects per 16-byte size class, threaded
    through the objects themselves in pages taken from the physical allocator. */
module Slab {
  import opened Options
  import opened Pages
  import opened Words
  import opened Queues
  import opened Arith

  const NUM_SLABS: nat := 256

  /** The largest size `com_mm_slab_alloc` accepts. */
  const MAX_SIZE: nat := 4080

  function Class(size: nat): nat { (size + 15) / 16 }

  /** The class of a size is the number of 16-byte units that just hold it. */
  lemma ClassLaw(size: nat, k: nat)
    requires size >= 1
    ensures k == Class(size) <==> 16 * k - 16 < size <= 16 * k
  {}

  /** The page of address `a` holds objects of the 16-byte units that just hold `size`. */
  ghost predicate InClass(pages: map<nat, nat>, a: nat, size: nat) {
    var p := a / PAGE_SIZE;
    p in pages && 16 * pages[p] - 16 < size <= 16 * pages[p]
  }

  // ------------------------------------------------------------------ objects

  function Times(e: nat, k: nat): nat { e * k }

  ghost predicate OnGrid(x: nat, e: nat) { exists k: nat :: x == Times(e, k) }

  /** Two different multiples of `e` are at least `e` apart. */
  lemma GridApart(x: nat, y: nat, e: nat)
    requires OnGrid(x, e) && OnGrid(y, e) && x < y
    ensures x + e <= y
  {
    var p: nat, q: nat :| x == Times(e, p) && y == Times(e, q);
    MulGap(e, p, q);
  }

  /** `a` is the address of an object of class `i`: `pages` maps each page taken to its class. */
  ghost predicate Slot(pages: map<nat, nat>, a: nat, i: nat) {
    && 1 <= i < NUM_SLABS && a / PAGE_SIZE in pages && pages[a / PAGE_SIZE] == i
    && OnGrid(a % PAGE_SIZE, 16 * i) && a % PAGE_SIZE + 16 * i <= PAGE_SIZE
    && 0 < a && a + 16 * i <= WORD
  }

  lemma SlotsApart(pages: map<nat, nat>, a: nat, i: nat, b: nat, j: nat)
    requires Slot(pages, a, i) && Slot(pages, b, j) && a != b
    ensures a + 16 * i <= b || b + 16 * j <= a
  {
    if a / PAGE_SIZE == b / PAGE_SIZE {
      if a < b {
        GridApart(a % PAGE_SIZE, b % PAGE_SIZE, 16 * i);
      } else {
        GridApart(b % PAGE_SIZE, a % PAGE_SIZE, 16 * i);
      }
    }
  }

  ghost predicate ZeroIn(mem: Memory, lo: nat, hi: nat) { forall x: nat | lo <= x < hi :: Get(mem, x) == 0 }

  /** `mem'` agrees with `mem` from `lo` up to `hi`. */
  ghost predicate Same(mem: Memory, mem': Memory, lo: nat, hi: nat) {
    forall x: nat | lo <= x < hi :: Get(mem', x) == Get(mem, x)
  }

  /** `mem'` differs from `mem` only inside the `n` bytes at `a`. */
  ghost predicate OnlyAt(mem: Memory, mem': Memory, a: nat, n: nat) {
    forall x: nat | !(a <= x < a + n) :: Get(mem', x) == Get(mem, x)
  }

  /** `mem'` agrees with `mem` outside the pages taken. */
  ghost predicate Outside(mem: Memory, mem': Memory, pages: map<nat, nat>) {
    forall x: nat | x / PAGE_SIZE !in pages :: Get(mem', x) == Get(mem, x)
  }

  /** A write inside an object leaves the memory outside the pages taken alone. */
  lemma SlotOutside(mem: Memory, mem': Memory, pages: map<nat, nat>, a: nat, i: nat)
    requires Slot(pages, a, i) && OnlyAt(mem, mem', a, 16 * i)
    ensures Outside(mem, mem', pages)
  {
    forall x: nat | x / PAGE_SIZE !in pages ensures Get(mem', x) == Get(mem, x) {
      assert !(a <= x < a + 16 * i);
    }
  }

  // ------------------------------------------------------------------ invariant

  /** The address a list holds at position `k`, NULL past its end. */
  function Link(list: seq<nat>, k: nat): nat { if k < |list| then list[k] else 0 }

  /** A free object: its first word links to the next one, the rest is zero. */
  ghost predicate FreeObject(mem: Memory, pages: map<nat, nat>, i: nat, a: nat, next: nat) {
    Slot(pages, a, i) && FetchWord(mem, a) == next && ZeroIn(mem, a + 8, a + 16 * i)
  }

  ghost predicate ListOk(mem: Memory, pages: map<nat, nat>, live: map<nat, nat>, i: nat, head: nat, list: seq<nat>) {
    && head == Link(list, 0) && NoDup(list)
    && forall k: nat | k < |list| :: FreeObject(mem, pages, i, list[k], Link(list, k + 1)) && list[k] !in live
  }

  /** A live object of `size` bytes: what its user may not write is zero. */
  ghost predicate LiveOk(mem: Memory, pages: map<nat, nat>, a: nat, size: nat) {
    1 <= size <= MAX_SIZE && Slot(pages, a, Class(size)) && ZeroIn(mem, a + size, a + 16 * Class(size))
  }

  ghost predicate Ok(mem: Memory, pages: map<nat, nat>, live: map<nat, nat>, heads: seq<nat>, lists: seq<seq<nat>>) {
    && |heads| == |lists| == NUM_SLABS
    && (forall i: nat | 1 <= i < NUM_SLABS :: ListOk(mem, pages, live, i, heads[i], lists[i]))
    && (forall a | a in live :: LiveOk(mem, pages, a, live[a]))
  }

  /** Any two live objects occupy disjoint 16-aligned ranges, each inside one page. */
  lemma LiveDisjoint(mem: Memory, pages: map<nat, nat>, live: map<nat, nat>, heads: seq<nat>, lists: seq<seq<nat>>,
                     a: nat, b: nat)
    requires Ok(mem, pages, live, heads, lists) && a in live && b in live && a != b
    ensures a % 16 == 0 && a / PAGE_SIZE == (a + live[a] - 1) / PAGE_SIZE
    ensures a + live[a] <= b || b + live[b] <= a
  {
    assert LiveOk(mem, pages, a, live[a]) && LiveOk(mem, pages, b, live[b]);
    SlotsApart(pages, a, Class(live[a]), b, Class(live[b]));
    SlotAligned(pages, a, Class(live[a]));
  }

  lemma SlotAligned(pages: map<nat, nat>, a: nat, i: nat)
    requires Slot(pages, a, i)
    ensures a % 16 == 0
  {
    var k: nat :| a % PAGE_SIZE == Times(16 * i, k);
    Sixteens(i, k);
  }

  lemma Sixteens(i: nat, q: nat)
    ensures (16 * i * q) % 16 == 0
  {
    var n := i * q;
    assert 16 * i * q == 16 * n;
  }

  // ------------------------------------------------------------------ what a write leaves alone

  lemma WriteKeepsFree(mem: Memory, mem': Memory, pages: map<nat, nat>, a: nat, i: nat, j: nat, b: nat, next: nat)
    requires Slot(pages, a, i) && OnlyAt(mem, mem', a, 16 * i) && FreeObject(mem, pages, j, b, next) && a != b
    ensures FreeObject(mem', pages, j, b, next)
  {
    SlotsApart(pages, a, i, b, j);
    FetchSame(mem, mem', b, 8);
  }

  lemma WriteKeepsLive(mem: Memory, mem': Memory, pages: map<nat, nat>, a: nat, i: nat, b: nat, size: nat)
    requires Slot(pages, a, i) && OnlyAt(mem, mem', a, 16 * i) && LiveOk(mem, pages, b, size) && a != b
    ensures LiveOk(mem', pages, b, size) && Same(mem, mem', b, b + size)
  {
    SlotsApart(pages, a, i, b, Class(size));
  }

  /** A list none of whose objects is `a`, and which `a` does not become live from. */
  lemma WriteKeepsList(mem: Memory, mem': Memory, pages: map<nat, nat>, live: map<nat, nat>, live': map<nat, nat>,
                       a: nat, i: nat, j: nat, head: nat, list: seq<nat>)
    requires Slot(pages, a, i) && OnlyAt(mem, mem', a, 16 * i) && ListOk(mem, pages, live, j, head, list) && a !in list
    requires live'.Keys <= live.Keys + {a}
    ensures ListOk(mem', pages, live', j, head, list)
  {
    hide FreeObject, Slot, OnlyAt;
    forall k: nat | k < |list| ensures FreeObject(mem', pages, j, list[k], Link(list, k + 1)) && list[k] !in live' {
      assert FreeObject(mem, pages, j, list[k], Link(list, k + 1));
      WriteKeepsFree(mem, mem', pages, a, i, j, list[k], Link(list, k + 1));
    }
  }

  /** An object of class `i` is in no list of another class. */
  lemma OtherClass(mem: Memory, pages: map<nat, nat>, live: map<nat, nat>, a: nat, i: nat, j: nat, head: nat,
                   list: seq<nat>)
    requires Slot(pages, a, i) && ListOk(mem, pages, live, j, head, list) && i != j
    ensures a !in list
  {
    forall k: nat | k < |list| ensures list[k] != a { assert FreeObject(mem, pages, j, list[k], Link(list, k + 1)); }
  }

  /** One object changes hands or contents: everything else stays as it is. */
  lemma Rest(mem: Memory, mem': Memory, pages: map<nat, nat>, live: map<nat, nat>, live': map<nat, nat>,
             heads: seq<nat>, lists: seq<seq<nat>>, a: nat, i: nat)
    requires Ok(mem, pages, live, heads, lists) && Slot(pages, a, i) && OnlyAt(mem, mem', a, 16 * i)
    requires live' - {a} == live - {a}
    ensures forall j: nat | 1 <= j < NUM_SLABS && j != i :: ListOk(mem', pages, live', j, heads[j], lists[j])
    ensures forall b | b in live' && b != a :: LiveOk(mem', pages, b, live'[b]) && Same(mem, mem', b, b + live'[b])
  {
    hide ListOk, LiveOk, Slot, OnlyAt;
    forall x | x in live' ensures x in live.Keys + {a} { if x != a { assert x in live' - {a}; } }
    forall j: nat | 1 <= j < NUM_SLABS && j != i ensures ListOk(mem', pages, live', j, heads[j], lists[j]) {
      OtherClass(mem, pages, live, a, i, j, heads[j], lists[j]);
      WriteKeepsList(mem, mem', pages, live, live', a, i, j, heads[j], lists[j]);
    }
    forall b | b in live' && b != a ensures LiveOk(mem', pages, b, live'[b]) && Same(mem, mem', b, b + live'[b]) {
      assert b in live' - {a} && (live' - {a})[b] == (live - {a})[b];
      WriteKeepsLive(mem, mem', pages, a, i, b, live[b]);
    }
  }

  /** The list of class `i` and the object `a` put back together with the rest. */
  lemma Assemble(mem: Memory, pages: map<nat, nat>, live: map<nat, nat>, heads: seq<nat>, lists: seq<seq<nat>>,
                 i: nat, head: nat, list: seq<nat>, a: nat)
    requires |heads| == |lists| == NUM_SLABS && 1 <= i < NUM_SLABS && ListOk(mem, pages, live, i, head, list)
    requires forall j: nat | 1 <= j < NUM_SLABS && j != i :: ListOk(mem, pages, live, j, heads[j], lists[j])
    requires forall b | b in live && b != a :: LiveOk(mem, pages, b, live[b])
    requires a in live ==> LiveOk(mem, pages, a, live[a])
    ensures Ok(mem, pages, live, heads[i := head], lists[i := list])
  {
    hide ListOk, LiveOk;
    var hs, ls := heads[i := head], lists[i := list];
    forall j: nat | 1 <= j < NUM_SLABS ensures ListOk(mem, pages, live, j, hs[j], ls[j]) {
      if j != i { assert ListOk(mem, pages, live, j, heads[j], lists[j]); }
    }
  }

  // ------------------------------------------------------------------ taking and giving back

  /** The head of a list leaves it, its link cleared: the object is all zero. */
  lemma Take(mem: Memory, pages: map<nat, nat>, live: map<nat, nat>, heads: seq<nat>, lists: seq<seq<nat>>, size: nat)
    requires Ok(mem, pages, live, heads, lists) && 1 <= size <= MAX_SIZE && lists[Class(size)] != []
    ensures var i := Class(size); var a := heads[i]; var mem' := StoreWord(mem, a, 0);
      && Ok(mem', pages, live[a := size], heads[i := FetchWord(mem, a)], lists[i := lists[i][1..]])
      && a !in live && ZeroIn(mem', a, a + 16 * i) && Outside(mem, mem', pages)
      && forall b | b in live :: Same(mem, mem', b, b + live[b])
  {
    hide Slot, LiveOk, NoDup, ListOk, FreeObject, StoreWord, FetchWord, Same, OnlyAt, ZeroIn, Outside;
    var i := Class(size);
    var list := lists[i];
    assert ListOk(mem, pages, live, i, heads[i], list);
    HeadFacts(mem, pages, live, i, heads[i], list);
    var a, mem', live' := list[0], StoreWord(mem, heads[i], 0), live[heads[i] := size];
    Cleared(mem, pages, i, a, Link(list, 1));
    SlotOutside(mem, mem', pages, a, i);
    Rest(mem, mem', pages, live, live', heads, lists, a, i);
    TailOk(mem, mem', pages, live, live', i, list);
    LiveFromZero(mem', pages, a, size);
    Assemble(mem', pages, live', heads, lists, i, FetchWord(mem, a), list[1..], a);
    forall b | b in live ensures Same(mem, mem', b, b + live[b]) { assert b in live' && b != a; }
  }

  lemma HeadFacts(mem: Memory, pages: map<nat, nat>, live: map<nat, nat>, i: nat, head: nat, list: seq<nat>)
    requires ListOk(mem, pages, live, i, head, list) && list != []
    ensures head == list[0] && head !in live && Slot(pages, head, i)
    ensures FreeObject(mem, pages, i, head, Link(list, 1)) && FetchWord(mem, head) == Link(list, 1)
  {
    assert FreeObject(mem, pages, i, list[0], Link(list, 1));
  }

  lemma Cleared(mem: Memory, pages: map<nat, nat>, i: nat, a: nat, next: nat)
    requires FreeObject(mem, pages, i, a, next)
    ensures OnlyAt(mem, StoreWord(mem, a, 0), a, 16 * i) && ZeroIn(StoreWord(mem, a, 0), a, a + 16 * i)
  {
    hide Store, Fetch;
    forall x: nat ensures Get(StoreWord(mem, a, 0), x) == if a <= x < a + 8 then 0 else Get(mem, x) {
      StoreGet(mem, a, Bytes(0, 8), x);
      ZeroWord();
    }
  }

  lemma ZeroWord()
    ensures Bytes(0, 8) == Zeros(8)
  {
    assert Bytes(0, 4) == [0, 0, 0, 0];
    assert Bytes(0, 8) == [0, 0, 0, 0] + Bytes(0, 4);
  }

  lemma LiveFromZero(mem: Memory, pages: map<nat, nat>, a: nat, size: nat)
    requires 1 <= size <= MAX_SIZE && Slot(pages, a, Class(size)) && ZeroIn(mem, a, a + 16 * Class(size))
    ensures LiveOk(mem, pages, a, size)
  {}

  lemma TailOk(mem: Memory, mem': Memory, pages: map<nat, nat>, live: map<nat, nat>, live': map<nat, nat>, i: nat,
               list: seq<nat>)
    requires list != [] && ListOk(mem, pages, live, i, list[0], list) && OnlyAt(mem, mem', list[0], 16 * i)
    requires live'.Keys <= live.Keys + {list[0]}
    ensures ListOk(mem', pages, live', i, Link(list, 1), list[1..])
  {
    hide FreeObject, OnlyAt, Slot;
    var rest := list[1..];
    forall k: nat | k < |rest| ensures FreeObject(mem', pages, i, rest[k], Link(rest, k + 1)) && rest[k] !in live' {
      assert FreeObject(mem, pages, i, list[k + 1], Link(list, k + 2));
      assert FreeObject(mem, pages, i, list[0], Link(list, 1));
      FreeSlot(mem, pages, i, list[0], Link(list, 1));
      WriteKeepsFree(mem, mem', pages, list[0], i, i, list[k + 1], Link(list, k + 2));
    }
  }

  lemma FreeSlot(mem: Memory, pages: map<nat, nat>, i: nat, a: nat, next: nat)
    requires FreeObject(mem, pages, i, a, next)
    ensures Slot(pages, a, i)
  {}

  /** The memory after `com_mm_slab_free` on `a`: `size` bytes cleared, then the link stored. */
  function Freed(mem: Memory, a: nat, size: nat, next: nat): Memory { StoreWord(Store(mem, a, Zeros(size)), a, next) }

  /** A live object goes back to the front of its list. */
  lemma GiveBack(mem: Memory, pages: map<nat, nat>, live: map<nat, nat>, heads: seq<nat>, lists: seq<seq<nat>>, a: nat)
    requires Ok(mem, pages, live, heads, lists) && a in live
    ensures 1 <= Class(live[a]) < NUM_SLABS
    ensures var i := Class(live[a]); var mem' := Freed(mem, a, live[a], heads[i]);
      && Ok(mem', pages, live - {a}, heads[i := a], lists[i := [a] + lists[i]]) && Outside(mem, mem', pages)
      && forall b | b in live && b != a :: Same(mem, mem', b, b + live[b])
  {
    hide Slot, NoDup, Freed, FreeObject, Outside;
    var size := live[a];
    var i := Class(size);
    assert LiveOk(mem, pages, a, size);
    SlotClass(pages, a, i);
    var list, mem', live' := lists[i], Freed(mem, a, size, heads[i]), live - {a};
    assert ListOk(mem, pages, live, i, heads[i], list);
    assert a !in list by { forall k: nat | k < |list| ensures list[k] != a {} }
    HeadBound(mem, pages, live, i, heads[i], list);
    FreedObject(mem, pages, a, size, heads[i]);
    SlotOutside(mem, mem', pages, a, i);
    Rest(mem, mem', pages, live, live', heads, lists, a, i);
    WriteKeepsList(mem, mem', pages, live, live', a, i, i, heads[i], list);
    Pushed(mem', pages, live', i, heads[i], list, a);
    Assemble(mem', pages, live', heads, lists, i, a, [a] + list, a);
    forall b | b in live && b != a ensures Same(mem, mem', b, b + live[b]) { assert b in live'; }
  }

  lemma SlotClass(pages: map<nat, nat>, a: nat, i: nat)
    requires Slot(pages, a, i)
    ensures 1 <= i < NUM_SLABS
  {}

  lemma HeadBound(mem: Memory, pages: map<nat, nat>, live: map<nat, nat>, i: nat, head: nat, list: seq<nat>)
    requires ListOk(mem, pages, live, i, head, list)
    ensures head < WORD
  {
    if list != [] { assert FreeObject(mem, pages, i, list[0], Link(list, 1)); }
  }

  lemma FreedObject(mem: Memory, pages: map<nat, nat>, a: nat, size: nat, next: nat)
    requires LiveOk(mem, pages, a, size) && next < WORD
    ensures FreeObject(Freed(mem, a, size, next), pages, Class(size), a, next)
    ensures OnlyAt(mem, Freed(mem, a, size, next), a, 16 * Class(size))
  {
    hide Store, Fetch;
    var m := Store(mem, a, Zeros(size));
    forall x: nat ensures Get(m, x) == if a <= x < a + size then 0 else Get(mem, x) {
      StoreGet(mem, a, Zeros(size), x);
    }
    StoreFetchWord(m, a, next);
  }

  lemma Pushed(mem: Memory, pages: map<nat, nat>, live: map<nat, nat>, i: nat, head: nat, list: seq<nat>, a: nat)
    requires ListOk(mem, pages, live, i, head, list) && a !in list && a !in live && FreeObject(mem, pages, i, a, head)
    ensures ListOk(mem, pages, live, i, a, [a] + list)
  {
    hide FreeObject;
    var l := [a] + list;
    forall k: nat | k < |l| ensures FreeObject(mem, pages, i, l[k], Link(l, k + 1)) && l[k] !in live {
      if k > 0 { assert FreeObject(mem, pages, i, list[k - 1], Link(list, k)); }
    }
  }

  /** A user stores one byte inside its object. */
  lemma UserStore(mem: Memory, pages: map<nat, nat>, live: map<nat, nat>, heads: seq<nat>, lists: seq<seq<nat>>, a: nat,
                  off: nat, b: byte)
    requires Ok(mem, pages, live, heads, lists) && a in live && off < live[a]
    ensures Ok(mem[a + off := b], pages, live, heads, lists) && Outside(mem, mem[a + off := b], pages)
    ensures forall c | c in live && c != a :: Same(mem, mem[a + off := b], c, c + live[c])
  {
    hide ListOk;
    var mem', i := mem[a + off := b], Class(live[a]);
    assert LiveOk(mem, pages, a, live[a]);
    SlotOutside(mem, mem', pages, a, i);
    Rest(mem, mem', pages, live, live, heads, lists, a, i);
    assert ListOk(mem, pages, live, i, heads[i], lists[i]);
    NotListed(mem, pages, live, i, heads[i], lists[i], a);
    WriteKeepsList(mem, mem', pages, live, live, a, i, i, heads[i], lists[i]);
  }

  lemma NotListed(mem: Memory, pages: map<nat, nat>, live: map<nat, nat>, i: nat, head: nat, list: seq<nat>, a: nat)
    requires ListOk(mem, pages, live, i, head, list) && a in live
    ensures a !in list
  {
    forall k: nat | k < |list| ensures list[k] != a {}
  }

  // ------------------------------------------------------------------ a new page

  /** Object `k` of a page that starts at `base`. */
  function Obj(base: nat, e: nat, k: nat): nat { base + e * k }

  /** The free list of a fresh page of `n` objects. */
  function Grid(base: nat, e: nat, n: nat): seq<nat> { seq(n, k requires 0 <= k < n => Obj(base, e, k)) }

  /** After `k` links have been stored into the page at `base`, which held zeros. */
  ghost predicate Threaded(mem: Memory, mem': Memory, base: nat, e: nat, n: nat, k: nat) {
    && (forall x: nat | !(base <= x < base + PAGE_SIZE) :: Get(mem', x) == Get(mem, x))
    && (forall j: nat | j < k :: FetchWord(mem', Obj(base, e, j)) == Obj(base, e, j + 1))
    && (forall j: nat | j < n :: ZeroIn(mem', Obj(base, e, j) + 8, Obj(base, e, j) + e))
    && (forall j: nat | k <= j < n :: ZeroIn(mem', Obj(base, e, j), Obj(base, e, j) + e))
  }

  lemma ObjApart(base: nat, e: nat, j: nat, k: nat)
    ensures j < k ==> Obj(base, e, j) + e <= Obj(base, e, k)
    ensures k < j ==> Obj(base, e, k) + e <= Obj(base, e, j)
  {
    if j < k { MulStep(e, j, k); } else if k < j { MulStep(e, k, j); }
  }

  lemma ObjIn(base: nat, e: nat, n: nat, k: nat)
    requires e * n <= PAGE_SIZE && k < n
    ensures base <= Obj(base, e, k) && Obj(base, e, k) + e <= base + PAGE_SIZE
  {
    MulStep(e, k, n);
  }

  /** One more link. */
  lemma ThreadStep(mem: Memory, mem': Memory, base: nat, e: nat, n: nat, k: nat)
    requires Threaded(mem, mem', base, e, n, k) && k < n && e * n <= PAGE_SIZE && e >= 16 && base + PAGE_SIZE < WORD
    requires Obj(base, e, k + 1) < WORD
    ensures Threaded(mem, StoreWord(mem', Obj(base, e, k), Obj(base, e, k + 1)), base, e, n, k + 1)
  {
    hide StoreWord, FetchWord;
    var a, m := Obj(base, e, k), StoreWord(mem', Obj(base, e, k), Obj(base, e, k + 1));
    StoreFetchWord(mem', a, Obj(base, e, k + 1));
    ObjIn(base, e, n, k);
    forall j: nat | j < k + 1 ensures FetchWord(m, Obj(base, e, j)) == Obj(base, e, j + 1) {
      if j < k {
        ObjApart(base, e, j, k);
        WordSame(mem', m, Obj(base, e, j));
      }
    }
    forall j: nat | j < n ensures ZeroIn(m, Obj(base, e, j) + 8, Obj(base, e, j) + e) { ObjApart(base, e, j, k); }
    forall j: nat | k + 1 <= j < n ensures ZeroIn(m, Obj(base, e, j), Obj(base, e, j) + e) { ObjApart(base, e, j, k); }
  }

  lemma WordSame(mem: Memory, mem': Memory, a: nat)
    requires forall x: nat | a <= x < a + 8 :: Get(mem', x) == Get(mem, x)
    ensures FetchWord(mem', a) == FetchWord(mem, a)
  {
    FetchSame(mem, mem', a, 8);
  }

  lemma WordZero(mem: Memory, a: nat)
    requires ZeroIn(mem, a, a + 8)
    ensures FetchWord(mem, a) == 0
  {
    assert Fetch(mem, a, 8) == Zeros(8);
    ZeroWord();
    WordRange();
    BytesValue(0, 8);
  }

  /** All links but the last, whose word is still zero: the page is a free list of its class. */
  lemma PageList(mem: Memory, mem': Memory, page: nat, i: nat, n: nat, pages: map<nat, nat>, live: map<nat, nat>)
    requires 1 <= i < NUM_SLABS && n >= 1 && 16 * i * n <= PAGE_SIZE && page > 0 && page * PAGE_SIZE + PAGE_SIZE < WORD
    requires Threaded(mem, mem', page * PAGE_SIZE, 16 * i, n, n - 1) && page in pages && pages[page] == i
    requires forall a | a in live :: a / PAGE_SIZE != page
    ensures ListOk(mem', pages, live, i, page * PAGE_SIZE, Grid(page * PAGE_SIZE, 16 * i, n))
  {
    hide FetchWord;
    var base, e := page * PAGE_SIZE, 16 * i;
    var list := Grid(base, e, n);
    forall j, k | 0 <= j < k < |list| ensures list[j] != list[k] { ObjApart(base, e, j, k); }
    forall k: nat | k < |list| ensures FreeObject(mem', pages, i, list[k], Link(list, k + 1)) && list[k] !in live {
      ObjIn(base, e, n, k);
      GridSlot(page, i, n, k, pages);
      if k == n - 1 { WordZero(mem', list[k]); }
    }
    assert list[0] == base;
  }

  lemma GridSlot(page: nat, i: nat, n: nat, k: nat, pages: map<nat, nat>)
    requires 1 <= i < NUM_SLABS && k < n && 16 * i * n <= PAGE_SIZE && page > 0 && page * PAGE_SIZE + PAGE_SIZE < WORD
    requires page in pages && pages[page] == i
    ensures Slot(pages, Obj(page * PAGE_SIZE, 16 * i, k), i) && Obj(page * PAGE_SIZE, 16 * i, k) / PAGE_SIZE == page
  {
    var a, e := Obj(page * PAGE_SIZE, 16 * i, k), 16 * i;
    ObjIn(page * PAGE_SIZE, e, n, k);
    var x := e * k;
    assert a == page * PAGE_SIZE + x && x + e <= PAGE_SIZE;
    assert a / PAGE_SIZE == page && a % PAGE_SIZE == x;
    assert x == Times(e, k);
  }

  /** Taking a fresh page into class `i`, whose list is empty. */
  lemma PageAdded(mem: Memory, mem': Memory, page: nat, i: nat, n: nat, pages: map<nat, nat>, live: map<nat, nat>,
                  heads: seq<nat>, lists: seq<seq<nat>>)
    requires Ok(mem, pages, live, heads, lists) && 1 <= i < NUM_SLABS && n >= 1 && 16 * i * n <= PAGE_SIZE
    requires page > 0 && page * PAGE_SIZE + PAGE_SIZE < WORD && page !in pages
    requires Threaded(mem, mem', page * PAGE_SIZE, 16 * i, n, n - 1)
    ensures Ok(mem', pages[page := i], live, heads[i := page * PAGE_SIZE],
               lists[i := Grid(page * PAGE_SIZE, 16 * i, n)])
    ensures forall b | b in live :: Same(mem, mem', b, b + live[b])
    ensures Outside(mem, mem', pages[page := i])
  {
    hide Threaded, ListOk, LiveOk, Slot;
    var pages' := pages[page := i];
    ThreadedOutside(mem, mem', page * PAGE_SIZE, 16 * i, n, n - 1);
    forall a | a in live
      ensures a / PAGE_SIZE != page && LiveOk(mem', pages', a, live[a]) && Same(mem, mem', a, a + live[a])
    {
      LiveElsewhere(mem, mem', page, i, pages, a, live[a]);
    }
    forall j: nat | 1 <= j < NUM_SLABS && j != i ensures ListOk(mem', pages', live, j, heads[j], lists[j]) {
      ListElsewhere(mem, mem', page, i, pages, live, j, heads[j], lists[j]);
    }
    PageList(mem, mem', page, i, n, pages', live);
    Assemble(mem', pages', live, heads, lists, i, page * PAGE_SIZE, Grid(page * PAGE_SIZE, 16 * i, n), 0);
    if 0 in live { assert LiveOk(mem', pages', 0, live[0]); }
  }

  lemma ThreadedOutside(mem: Memory, mem': Memory, base: nat, e: nat, n: nat, k: nat)
    requires Threaded(mem, mem', base, e, n, k)
    ensures forall x: nat | !(base <= x < base + PAGE_SIZE) :: Get(mem', x) == Get(mem, x)
  {}

  lemma LiveElsewhere(mem: Memory, mem': Memory, page: nat, i: nat, pages: map<nat, nat>, a: nat, size: nat)
    requires LiveOk(mem, pages, a, size) && page !in pages
    requires forall x: nat | !(page * PAGE_SIZE <= x < page * PAGE_SIZE + PAGE_SIZE) :: Get(mem', x) == Get(mem, x)
    ensures a / PAGE_SIZE != page && LiveOk(mem', pages[page := i], a, size) && Same(mem, mem', a, a + size)
  {}

  lemma FreeElsewhere(mem: Memory, mem': Memory, page: nat, i: nat, pages: map<nat, nat>, j: nat, a: nat, next: nat)
    requires FreeObject(mem, pages, j, a, next) && page !in pages
    requires forall x: nat | !(page * PAGE_SIZE <= x < page * PAGE_SIZE + PAGE_SIZE) :: Get(mem', x) == Get(mem, x)
    ensures FreeObject(mem', pages[page := i], j, a, next)
  {
    WordSame(mem, mem', a);
  }

  lemma ListElsewhere(mem: Memory, mem': Memory, page: nat, i: nat, pages: map<nat, nat>, live: map<nat, nat>, j: nat,
                      head: nat, list: seq<nat>)
    requires ListOk(mem, pages, live, j, head, list) && page !in pages
    requires forall x: nat | !(page * PAGE_SIZE <= x < page * PAGE_SIZE + PAGE_SIZE) :: Get(mem', x) == Get(mem, x)
    ensures ListOk(mem', pages[page := i], live, j, head, list)
  {
    hide FreeObject;
    forall k: nat | k < |list| ensures FreeObject(mem', pages[page := i], j, list[k], Link(list, k + 1)) {
      FreeElsewhere(mem, mem', page, i, pages, j, list[k], Link(list, k + 1));
    }
  }

  /** Memory may change outside the pages taken. */
  lemma ElsewhereOk(mem: Memory, mem': Memory, pages: map<nat, nat>, live: map<nat, nat>, heads: seq<nat>,
                    lists: seq<seq<nat>>)
    requires Ok(mem, pages, live, heads, lists) && forall x: nat | x / PAGE_SIZE in pages :: Get(mem', x) == Get(mem, x)
    ensures Ok(mem', pages, live, heads, lists)
    ensures forall b | b in live :: Same(mem, mem', b, b + live[b])
  {
    hide ListOk, LiveOk, Same;
    forall i: nat | 1 <= i < NUM_SLABS ensures ListOk(mem', pages, live, i, heads[i], lists[i]) {
      ListInside(mem, mem', pages, live, i, heads[i], lists[i]);
    }
    forall a | a in live ensures LiveOk(mem', pages, a, live[a]) && Same(mem, mem', a, a + live[a]) {
      LiveInside(mem, mem', pages, a, live[a]);
    }
  }

  lemma LiveInside(mem: Memory, mem': Memory, pages: map<nat, nat>, a: nat, size: nat)
    requires LiveOk(mem, pages, a, size) && forall x: nat | x / PAGE_SIZE in pages :: Get(mem', x) == Get(mem, x)
    ensures LiveOk(mem', pages, a, size) && Same(mem, mem', a, a + size)
  {
    forall x: nat | a <= x < a + 16 * Class(size) ensures Get(mem', x) == Get(mem, x) {
      assert x / PAGE_SIZE == a / PAGE_SIZE;
    }
  }

  lemma ListInside(mem: Memory, mem': Memory, pages: map<nat, nat>, live: map<nat, nat>, i: nat, head: nat,
                   list: seq<nat>)
    requires ListOk(mem, pages, live, i, head, list)
    requires forall x: nat | x / PAGE_SIZE in pages :: Get(mem', x) == Get(mem, x)
    ensures ListOk(mem', pages, live, i, head, list)
  {
    hide FreeObject;
    forall k: nat | k < |list| ensures FreeObject(mem', pages, i, list[k], Link(list, k + 1)) {
      FreeInside(mem, mem', pages, i, list[k], Link(list, k + 1));
    }
  }

  lemma FreeInside(mem: Memory, mem': Memory, pages: map<nat, nat>, i: nat, a: nat, next: nat)
    requires FreeObject(mem, pages, i, a, next) && forall x: nat | x / PAGE_SIZE in pages :: Get(mem', x) == Get(mem, x)
    ensures FreeObject(mem', pages, i, a, next)
  {
    forall x: nat | a <= x < a + 16 * i ensures Get(mem', x) == Get(mem, x) { assert x / PAGE_SIZE == a / PAGE_SIZE; }
    FetchSame(mem, mem', a, 8);
  }

  // ------------------------------------------------------------------ the allocator

  class Allocator {
    var mem: Memory
    const slabs: array<nat>
    ghost var pages: map<nat, nat>
    ghost var live: map<nat, nat>
    ghost var lists: seq<seq<nat>>

    ghost predicate Valid()
      reads this, slabs
    {
      Ok(mem, pages, live, slabs[..], lists)
    }

    constructor ()
      ensures Valid() && live == map[] && pages == map[] && mem == map[] && fresh(slabs)
    {
      slabs := new nat[NUM_SLABS](_ => 0);
      mem, pages, live, lists := map[], map[], map[], seq(NUM_SLABS, _ => []);
    }

    /** `init`: threads the list of class `i`, empty so far, through the fresh zeroed page `page`. */
    method Init(i: nat, page: nat)
      requires Valid() && 1 <= i < NUM_SLABS && lists[i] == []
      requires page > 0 && page * PAGE_SIZE + PAGE_SIZE < WORD && page !in pages
      requires ZeroIn(mem, page * PAGE_SIZE, page * PAGE_SIZE + PAGE_SIZE)
      modifies this, slabs
      ensures Valid() && lists[i] != [] && live == old(live) && pages == old(pages)[page := i]
      ensures forall b | b in live :: Same(old(mem), mem, b, b + live[b])
      ensures Outside(old(mem), mem, pages)
    {
      hide Ok, Threaded, Same, ZeroIn, Outside;
      OkLength(mem, pages, live, slabs[..], lists);
      var e := 16 * i;
      var max := PAGE_SIZE / e - 1;
      Fits(i);
      var base := page * PAGE_SIZE;
      ghost var was := mem;
      ThreadStart(mem, base, e, max + 1);
      var k := 0;
      while k < max
        invariant 0 <= k <= max && Threaded(was, mem, base, e, max + 1, k)
        invariant slabs[..] == old(slabs[..]) && live == old(live) && pages == old(pages) && lists == old(lists)
      {
        ObjIn(base, e, max + 1, k + 1);
        ThreadStep(was, mem, base, e, max + 1, k);
        mem := StoreWord(mem, base + e * k, base + e * (k + 1));
        k := k + 1;
      }
      LastLink(was, mem, base, e, max + 1);
      mem := StoreWord(mem, base + e * max, 0);
      PageAdded(was, mem, page, i, max + 1, pages, live, slabs[..], lists);
      slabs[i] := base;
      lists := lists[i := Grid(base, e, max + 1)];
      pages := pages[page := i];
      assert slabs[..] == old(slabs[..])[i := base];
    }

    /** The contents of a page that comes from the physical allocator, whose list entries lie outside the
        memory of this allocator until then. */
    method Import(page: nat, bytes: Page)
      requires Valid() && page !in pages
      modifies this`mem
      ensures Valid() && Fetch(mem, page * PAGE_SIZE, PAGE_SIZE) == bytes
      ensures forall b | b in live :: Same(old(mem), mem, b, b + live[b])
    {
      hide Ok, Store, Fetch, Same;
      StoreFetch(mem, page * PAGE_SIZE, bytes);
      var mem' := Store(mem, page * PAGE_SIZE, bytes);
      forall x: nat | x / PAGE_SIZE in pages ensures Get(mem', x) == Get(mem, x) { assert x / PAGE_SIZE != page; }
      ElsewhereOk(mem, mem', pages, live, slabs[..], lists);
      mem := mem';
    }

    /** Whether an allocation has to take a page first. */
    predicate NeedsPage(size: nat)
      reads this, slabs
    {
      1 <= size <= MAX_SIZE && Class(size) < slabs.Length && slabs[Class(size)] == 0
    }

    /** `com_mm_slab_alloc`, given the page `com_mm_pmm_alloc_zero` would return if it needs one.  It fails
        for sizes past 4080, by its KASSERT, and for size 0, whose class would divide by zero.  Otherwise
        the object returned was not live and is all zero up to its rounded size. */
    method Alloc(size: nat, page: nat) returns (r: Option<nat>)
      requires Valid()
      requires NeedsPage(size) ==> page > 0 && page * PAGE_SIZE + PAGE_SIZE < WORD && page !in pages
      requires NeedsPage(size) ==> ZeroIn(mem, page * PAGE_SIZE, page * PAGE_SIZE + PAGE_SIZE)
      modifies this, slabs
      ensures Valid() && (r.Some? <==> 1 <= size <= MAX_SIZE)
      ensures r.None? ==> live == old(live) && mem == old(mem)
      ensures r.Some? ==> r.value !in old(live) && live == old(live)[r.value := size]
      ensures r.Some? ==> ZeroIn(mem, r.value, r.value + 16 * Class(size))
      ensures forall b | b in old(live) :: Same(old(mem), mem, b, b + old(live)[b])
      ensures pages == (if old(NeedsPage(size)) then old(pages)[page := Class(size)] else old(pages))
      ensures Outside(old(mem), mem, pages)
      ensures r.Some? ==> InClass(pages, r.value, size)
    {
      hide Ok, ZeroIn, Outside, InClass, StoreWord, FetchWord;
      OkLength(mem, pages, live, slabs[..], lists);
      OutsideSelf(mem, pages);
      var i := Class(size);
      if i >= NUM_SLABS || size == 0 {
        return None;
      }
      HeadNull(mem, pages, live, slabs[..], lists, i);
      if slabs[i] == 0 {
        Init(i, page);
        HeadNull(mem, pages, live, slabs[..], lists, i);
      }
      Take(mem, pages, live, slabs[..], lists, size);
      var a := slabs[i];
      OutsideTwice(old(mem), mem, StoreWord(mem, a, 0), pages);
      ghost var heads := slabs[..];
      slabs[i] := FetchWord(mem, a);
      assert slabs[..] == heads[i := FetchWord(mem, a)];
      mem := StoreWord(mem, a, 0);
      live := live[a := size];
      lists := lists[i := lists[i][1..]];
      r := Some(a);
      LivePage(mem, pages, live, slabs[..], lists, a);
    }

    /** `com_mm_slab_free` of NULL or of a live object, with the size it was allocated with. */
    method Free(a: nat, size: nat)
      requires Valid() && (a != 0 ==> a in live && live[a] == size)
      modifies this, slabs
      ensures Valid() && live == if a == 0 then old(live) else old(live) - {a}
      ensures forall b | b in live :: Same(old(mem), mem, b, b + live[b])
      ensures pages == old(pages) && Outside(old(mem), mem, pages)
    {
      hide Ok, Outside;
      OutsideSelf(mem, pages);
      if a == 0 {
        return;
      }
      GiveBack(mem, pages, live, slabs[..], lists, a);
      OkLength(mem, pages, live, slabs[..], lists);
      var i := Class(size);
      ghost var heads := slabs[..];
      mem := Store(mem, a, Zeros(size));
      mem := StoreWord(mem, a, slabs[i]);
      slabs[i] := a;
      assert slabs[..] == heads[i := a];
      lists := lists[i := [a] + lists[i]];
      live := live - {a};
    }

    /** The user of a live object stores a byte inside it. */
    method Write(a: nat, off: nat, b: byte)
      requires Valid() && a in live && off < live[a]
      modifies this`mem
      ensures Valid() && mem == old(mem)[a + off := b] && Outside(old(mem), mem, pages)
      ensures forall c | c in live && c != a :: Same(old(mem), mem, c, c + live[c])
    {
      UserStore(mem, pages, live, slabs[..], lists, a, off, b);
      mem := mem[a + off := b];
    }
  }

  lemma LivePage(mem: Memory, pages: map<nat, nat>, live: map<nat, nat>, heads: seq<nat>, lists: seq<seq<nat>>, a: nat)
    requires Ok(mem, pages, live, heads, lists) && a in live
    ensures InClass(pages, a, live[a])
  {
    assert LiveOk(mem, pages, a, live[a]);
    ClassLaw(live[a], Class(live[a]));
  }

  lemma OutsideSelf(mem: Memory, pages: map<nat, nat>)
    ensures Outside(mem, mem, pages)
  {}

  lemma OutsideTwice(a: Memory, b: Memory, c: Memory, pages: map<nat, nat>)
    requires Outside(a, b, pages) && Outside(b, c, pages)
    ensures Outside(a, c, pages)
  {}

  lemma Fits(i: nat)
    requires 1 <= i < NUM_SLABS
    ensures PAGE_SIZE / (16 * i) >= 1 && 16 * i * (PAGE_SIZE / (16 * i)) <= PAGE_SIZE
  {}

  lemma ThreadStart(mem: Memory, base: nat, e: nat, n: nat)
    requires ZeroIn(mem, base, base + PAGE_SIZE) && e * n <= PAGE_SIZE
    ensures Threaded(mem, mem, base, e, n, 0)
  {
    forall j: nat | j < n ensures ZeroIn(mem, Obj(base, e, j), Obj(base, e, j) + e) { ObjIn(base, e, n, j); }
  }

  /** Storing NULL into the last object changes no byte. */
  lemma LastLink(mem: Memory, mem': Memory, base: nat, e: nat, n: nat)
    requires n >= 1 && e >= 16 && Threaded(mem, mem', base, e, n, n - 1)
    ensures Threaded(mem, StoreWord(mem', Obj(base, e, n - 1), 0), base, e, n, n - 1)
  {
    hide FetchWord;
    var a := Obj(base, e, n - 1);
    assert ZeroIn(mem', a, a + e);
    var m := StoreWord(mem', a, 0);
    forall x: nat ensures Get(m, x) == Get(mem', x) {
      StoreGet(mem', a, Bytes(0, 8), x);
      ZeroWord();
    }
    forall j: nat | j < n - 1 ensures FetchWord(m, Obj(base, e, j)) == Obj(base, e, j + 1) {
      WordSame(mem', m, Obj(base, e, j));
    }
  }

  lemma HeadNull(mem: Memory, pages: map<nat, nat>, live: map<nat, nat>, heads: seq<nat>, lists: seq<seq<nat>>, i: nat)
    requires Ok(mem, pages, live, heads, lists) && 1 <= i < NUM_SLABS
    ensures |heads| == |lists| == NUM_SLABS && (heads[i] == 0 <==> lists[i] == [])
  {
    assert ListOk(mem, pages, live, i, heads[i], lists[i]);
    if lists[i] != [] { HeadFacts(mem, pages, live, i, heads[i], lists[i]); }
  }

  lemma OkLength(mem: Memory, pages: map<nat, nat>, live: map<nat, nat>, heads: seq<nat>, lists: seq<seq<nat>>)
    requires Ok(mem, pages, live, heads, lists)
    ensures |heads| == |lists| == NUM_SLABS
  {}
}
