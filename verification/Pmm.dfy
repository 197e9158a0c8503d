/** The physical page allocator (`src/com/mm/pmm.c`) in place: the list of free runs, the page
    metadata array and the byte counters. */
module PmmCode {
  import opened Options
  import opened Pages
  import opened Words
  import opened FreeList
  import opened RunHeads
  import opened MemRep

  datatype State = FreePage | ReservedPage | TakenPage

  datatype Kind = Anonymous | File

  datatype Meta = Meta(state: State, numRef: nat, kind: Kind)

  const FREE_META := Meta(FreePage, 0, Anonymous)
  const TAKEN_META := Meta(TakenPage, 1, Anonymous)

  ghost predicate ListedFree(fl: seq<Run>, meta: seq<Meta>) {
    forall p :: p in PagesOf(fl) ==> p < |meta| && meta[p] == FREE_META
  }

  ghost function TakenPages(meta: seq<Meta>): set<nat> {
    set p: nat | p < |meta| && meta[p].state == TakenPage
  }

  /** The list is good, its pages are FREE, zero apart from the list entries they hold, and the counters
      count pages. */
  ghost predicate Ok(where: Map, fl: seq<Run>, meta: seq<Meta>, ram: Ram, used: int, free: int) {
    && |meta| <= MAX_PAGES
    && Good(fl) && ListedFree(fl, meta) && Tidy(fl, ram) && Headed(where, fl, ram)
    && free == |PagesOf(fl)| * PAGE_SIZE
    && used == |TakenPages(meta)| * PAGE_SIZE
  }

  // ------------------------------------------------------------------ what a grant does

  /** The metadata after `page_meta_set` on the pages of `got`. */
  ghost function Marked(meta: seq<Meta>, got: Run, m: Meta): seq<Meta>
    requires got.base + got.pages <= |meta|
  {
    meta[..got.base] + Repeat([m], got.pages) + meta[got.base + got.pages..]
  }

  lemma {:induction false} RepeatAt(m: Meta, n: nat, i: nat)
    requires i < n
    ensures Repeat([m], n)[i] == m
    decreases n
  {
    if i < n - 1 { RepeatAt(m, n - 1, i); }
  }

  lemma MarkedAt(meta: seq<Meta>, got: Run, m: Meta, p: nat)
    requires got.base + got.pages <= |meta| && p < |meta|
    ensures |Marked(meta, got, m)| == |meta|
    ensures Marked(meta, got, m)[p] == if Holds(got, p) then m else meta[p]
  {
    if Holds(got, p) { RepeatAt(m, got.pages, p - got.base); }
  }

  lemma InMeta(fl: seq<Run>, meta: seq<Meta>, got: Run)
    requires ListedFree(fl, meta) && RunPages(got) <= PagesOf(fl) && got.pages >= 1
    ensures got.base + got.pages <= |meta|
  {
    var p := got.base + got.pages - 1;
    assert Holds(got, p);
    assert p in RunPages(got);
  }

  /** Handing out `got` from a list in order keeps everything in order: the pages become TAKEN with
      one reference each, they are all zero once the 24 bytes of a list entry in the first are cleared,
      no page that was not free changes, and the counters move by their number. */
  lemma GrantOk(where: Map, fl: seq<Run>, g: Grant, meta: seq<Meta>, ram: Ram, used: int, free: int)
    requires Ok(where, fl, meta, ram, used, free) && Takes(fl, g) && HeadsKept(fl, g) && g.got.pages >= 1
    ensures g.got.base + g.got.pages <= |meta|
    ensures Ok(where, g.rest, Marked(meta, g.got, TAKEN_META), Given(where, ram, g),
               used + g.got.pages * PAGE_SIZE, free - g.got.pages * PAGE_SIZE)
    ensures ZeroPages(Given(where, ram, g), g.got) && SameOutside(ram, Given(where, ram, g), PagesOf(fl))
    ensures forall p :: p in RunPages(g.got) ==> meta[p] == FREE_META
  {
    hide PagesOf, Good, Tidy, Headed, Given;
    InMeta(fl, meta, g.got);
    var after := Marked(meta, g.got, TAKEN_META);
    assert Holds(g.got, g.got.base);
    assert g.got.base in RunPages(g.got);
    MarkedLen(meta, g.got, TAKEN_META);
    forall p | p in PagesOf(g.rest) ensures p < |after| && after[p] == FREE_META {
      MarkedAt(meta, g.got, TAKEN_META, p);
    }
    RunCount(g.got);
    assert PagesOf(fl) == PagesOf(g.rest) + RunPages(g.got);
    MarkedTaken(fl, meta, g.got);
    GivenOk(where, ram, fl, g);
  }

  /** The page after the run. */
  function End(r: Run): nat { r.base + r.pages }

  /** Every page of the run is TAKEN, anonymous and has one reference. */
  ghost predicate TakenOnce(meta: seq<Meta>, r: Run)
    requires r.base + r.pages <= |meta|
  {
    forall p :: r.base <= p < r.base + r.pages ==>
      meta[p].state == TakenPage && meta[p].numRef == 1 && meta[p].kind == Anonymous
  }

  lemma MarkedTakenOnce(meta: seq<Meta>, got: Run)
    requires got.base + got.pages <= |meta|
    ensures |Marked(meta, got, TAKEN_META)| == |meta| && TakenOnce(Marked(meta, got, TAKEN_META), got)
  {
    hide Marked;
    MarkedLen(meta, got, TAKEN_META);
    forall p: nat | got.base <= p < got.base + got.pages ensures Marked(meta, got, TAKEN_META)[p] == TAKEN_META {
      MarkedAt(meta, got, TAKEN_META, p);
    }
  }

  /** The pages of a run are all zero. */
  ghost predicate ZeroPages(ram: Ram, r: Run) { forall p :: p in RunPages(r) ==> PageAt(ram, p) == ZeroBytes() }

  /** No page outside `s` has changed. */
  ghost predicate SameOutside(ram: Ram, ram': Ram, s: set<nat>) {
    forall p :: p !in s ==> PageAt(ram', p) == PageAt(ram, p)
  }

  lemma MarkedTaken(fl: seq<Run>, meta: seq<Meta>, got: Run)
    requires ListedFree(fl, meta) && RunPages(got) <= PagesOf(fl) && got.base + got.pages <= |meta|
    ensures TakenPages(Marked(meta, got, TAKEN_META)) == TakenPages(meta) + RunPages(got)
    ensures TakenPages(meta) !! RunPages(got)
  {
    hide PagesOf, Marked;
    var after := Marked(meta, got, TAKEN_META);
    MarkedLen(meta, got, TAKEN_META);
    forall p: nat ensures p in TakenPages(after) <==> p in TakenPages(meta) + RunPages(got) {
      if p < |meta| { MarkedAt(meta, got, TAKEN_META, p); }
    }
  }

  lemma MarkedLen(meta: seq<Meta>, got: Run, m: Meta)
    requires got.base + got.pages <= |meta|
    ensures |Marked(meta, got, m)| == |meta|
  {}

  /** Runs on the list are shorter than 2^64 pages. */
  lemma ShortRuns(fl: seq<Run>, meta: seq<Meta>)
    requires Good(fl) && ListedFree(fl, meta) && |meta| <= MAX_PAGES
    ensures forall i :: 0 <= i < |fl| ==> fl[i].base + fl[i].pages <= |meta|
    ensures forall i :: 0 <= i < |fl| ==> fl[i].pages < WORD
  {
    forall i | 0 <= i < |fl| ensures fl[i].base + fl[i].pages <= |meta| {
      var p := fl[i].base + fl[i].pages - 1;
      InPages(fl, p);
      assert Holds(fl[i], p);
    }
  }

  /** Handing a reserved range `e` to the list keeps everything in order exactly when no run on the list
      touches it; a merge into the last run keeps the list but leaves a list entry inside free memory. */
  lemma UnreserveOk(where: Map, fl: seq<Run>, e: Run, meta: seq<Meta>, ram: Ram, used: int, free: int)
    requires Ok(where, fl, meta, ram, used, free) && e.pages >= 1 && e.base + e.pages <= |meta|
    requires RunPages(e) !! TakenPages(meta) && RunPages(e) !! PagesOf(fl)
    ensures Ok(where, AddOrdered(fl, e), Marked(meta, e, FREE_META), Returned(where, ram, fl, e),
               used, free + e.pages * PAGE_SIZE)
       <==> ApartFrom(e, fl)
    ensures SameOutside(ram, Returned(where, ram, fl, e), PagesOf(fl) + RunPages(e))
  {
    hide PagesOf, Good, IsBase, AddOrdered, Tidy, Headed, Returned, ApartFrom;
    var after, fl' := Marked(meta, e, FREE_META), AddOrdered(fl, e);
    AddGoodExactly(fl, e);
    AddOrderedPages(fl, e);
    RunCount(e);
    MarkedLen(meta, e, FREE_META);
    forall p | p in PagesOf(fl') ensures p < |after| && after[p] == FREE_META {
      assert p in RunPages(e) ==> Holds(e, p);
      MarkedAt(meta, e, FREE_META, p);
    }
    ShortRuns(fl, meta);
    ReturnedTidy(where, ram, fl, e);
    if e.pages == 1 && fl != [] && Touches(fl[|fl| - 1], e) { TouchesNotApart(fl, e); }
    assert TakenPages(after) == TakenPages(meta) by { UnmarkedTaken(meta, e); }
  }

  lemma UnmarkedTaken(meta: seq<Meta>, e: Run)
    requires e.base + e.pages <= |meta| && RunPages(e) !! TakenPages(meta)
    ensures TakenPages(Marked(meta, e, FREE_META)) == TakenPages(meta)
  {
    hide Marked;
    MarkedLen(meta, e, FREE_META);
    forall p: nat ensures p in TakenPages(Marked(meta, e, FREE_META)) <==> p in TakenPages(meta) {
      if p < |meta| {
        MarkedAt(meta, e, FREE_META, p);
        if Holds(e, p) { assert p in RunPages(e); }
      }
    }
  }

  // ------------------------------------------------------------------ the allocator

  class Pmm {
    var free: seq<Run>
    const meta: array<Meta>
    var usedBytes: int
    var freeBytes: int
    var reservedBytes: int
    const where: Map
    /** The contents of physical memory. */
    var ram: Ram

    ghost predicate Valid()
      reads this, meta
    {
      Ok(where, free, meta[..], ram, usedBytes, freeBytes)
    }

    /** An allocator over an array of FREE metadata, with nothing on its list yet. */
    constructor (pages: nat, reserved: nat, map_: Map)
      requires pages <= MAX_PAGES
      ensures where == map_
      ensures Valid() && free == [] && meta.Length == pages && fresh(meta)
      ensures usedBytes == freeBytes == 0 && reservedBytes == reserved
    {
      free, ram, where := [], map[], map_;
      usedBytes, freeBytes, reservedBytes := 0, 0, reserved;
      meta := new Meta[pages](_ => FREE_META);
      new;
      assert TakenPages(meta[..]) == {};
    }

    /** `freelist_add_ordered_nolock`. */
    method AddOrderedIn(e: Run)
      modifies this`free
      ensures free == AddOrdered(old(free), e)
    {
      if e.pages == 1 {
        if |free| > 0 {
          var init, last := free[..|free| - 1], free[|free| - 1];
          if e.base == last.base + last.pages {
            free := init + [Run(last.base, last.pages + 1)];
            return;
          }
          if last.base == e.base + 1 {
            free := init;
            free := free + [Run(e.base, 1 + last.pages)];
            return;
          }
        }
        free := free + [e];
        return;
      }
      var i := 0;
      while i < |free| && e.pages < free[i].pages
        invariant 0 <= i <= |free| && free == old(free)
        invariant forall j :: 0 <= j < i ==> free[j].pages > e.pages
      {
        i := i + 1;
      }
      assert i == InsertPos(free, e.pages);
      free := free[..i] + [e] + free[i..];
    }

    /** `freelist_pop_rear_nolock`. */
    method PopRearIn() returns (page: nat)
      requires |free| > 0
      modifies this`free
      ensures Grant(free, Run(page, 1)) == PopRear(old(free))
    {
      var init, last := free[..|free| - 1], free[|free| - 1];
      if last.pages <= 1 {
        free := init;
        page := last.base;
      } else {
        free := init + [Run(last.base, last.pages - 1)];
        page := last.base + last.pages - 1;
      }
    }

    /** `freelist_pop_front_nolock`; the second comparison is needed only when part of the run stays. */
    method PopFrontIn(n: nat) returns (got: Run)
      requires |free| > 0
      modifies this`free
      ensures Grant(free, got) == PopFront(old(free), n)
    {
      var first, tail := free[0], free[1..];
      var size := if n < first.pages then n else first.pages;
      var entry := first;
      if size == first.pages {
        got := first;
        free := tail;
      } else {
        entry := Run(first.base, first.pages - size);
        got := Run(first.base + entry.pages, size);
        free := [entry] + tail;
      }
      if |tail| > 0 && tail[0].pages > entry.pages {
        free := tail;
        AddOrderedIn(entry);
      }
    }

    /** `page_meta_set`. */
    method MetaSet(got: Run, m: Meta)
      requires got.base + got.pages <= meta.Length
      modifies meta
      ensures meta[..] == Marked(old(meta[..]), got, m)
    {
      var _ := KMemRepCpy(meta, got.base, [m], got.pages);
    }

    /** `com_mm_pmm_alloc`.  The two KASSERTs on the page's metadata cannot fail; the one on the
        list fails exactly when it is empty. */
    method Alloc() returns (r: Option<nat>)
      requires Valid()
      modifies this, meta
      ensures Valid()
      ensures r.None? <==> old(free) == []
      ensures r.None? ==> unchanged(this) && unchanged(meta)
      ensures r.Some? ==> Handed(old(free), old(meta[..]), old(ram), Run(r.value, 1))
      ensures r.Some? ==> free == PopRear(old(free)).rest && r.value == PopRear(old(free)).got.base
      ensures r.Some? ==> usedBytes == old(usedBytes) + PAGE_SIZE && freeBytes == old(freeBytes) - PAGE_SIZE
      ensures reservedBytes == old(reservedBytes)
    {
      hide Ok, Good, PagesOf, ListedFree, Given, ZeroPages, SameOutside;
      if |free| == 0 {
        return None;
      }
      ghost var g := PopRear(free);
      OkGood(where, free, meta[..], ram, usedBytes, freeBytes);
      PopRearTakes(free);
      PopRearHeads(free);
      GrantOk(where, free, g, meta[..], ram, usedBytes, freeBytes);
      var page := PopRearIn();
      ram := Given(where, ram, Grant(free, Run(page, 1)));
      assert Holds(g.got, page) && page in RunPages(g.got);
      assert meta[page] == FREE_META;
      ghost var was := meta[..];
      meta[page] := TAKEN_META;
      assert meta[..] == Marked(was, g.got, TAKEN_META) by { MarkOne(was, g.got, TAKEN_META); }
      usedBytes := usedBytes + PAGE_SIZE;
      freeBytes := freeBytes - PAGE_SIZE;
      MarkedTakenOnce(was, g.got);
      r := Some(page);
    }

    /** What any successful allocation of the pages `got` did. */
    ghost predicate Handed(fl: seq<Run>, oldMeta: seq<Meta>, oldRam: Ram, got: Run)
      reads this, meta
    {
      && RunPages(got) <= PagesOf(fl) && PagesOf(free) == PagesOf(fl) - RunPages(got)
      && got.base + got.pages <= |oldMeta| && meta[..] == Marked(oldMeta, got, TAKEN_META)
      && ZeroPages(ram, got) && SameOutside(oldRam, ram, PagesOf(fl))
      && got.base + got.pages <= meta.Length && TakenOnce(meta[..], got)
    }

    /** The multi-page branch shared by `com_mm_pmm_alloc_many` and `com_mm_pmm_alloc_max`, for a
        run the list can provide. */
    method TakeFront(n: nat) returns (got: Run)
      requires Valid() && |free| > 0 && n >= 1
      modifies this, meta
      ensures Valid() && Handed(old(free), old(meta[..]), old(ram), got)
      ensures Grant(free, got) == PopFront(old(free), n)
      ensures usedBytes == old(usedBytes) + got.pages * PAGE_SIZE && freeBytes == old(freeBytes) - got.pages * PAGE_SIZE
      ensures reservedBytes == old(reservedBytes)
    {
      hide Ok, Good, PagesOf, ListedFree, Given, ZeroPages, SameOutside;
      ghost var g := PopFront(free, n);
      OkGood(where, free, meta[..], ram, usedBytes, freeBytes);
      PopFrontTakes(free, n);
      PopFrontHeads(free, n);
      GrantOk(where, free, g, meta[..], ram, usedBytes, freeBytes);
      got := PopFrontIn(n);
      ram := Given(where, ram, Grant(free, got));
      MarkedTakenOnce(meta[..], got);
      MetaSet(got, TAKEN_META);
      usedBytes := usedBytes + got.pages * PAGE_SIZE;
      freeBytes := freeBytes - got.pages * PAGE_SIZE;
    }

    /** The same branch for no page at all: the address just past the largest run comes back, which
        is not free, and no page is taken; but the 24 bytes there are cleared, whoever owns them.  Past
        the last indexed page a KASSERT fails. */
    method TakeNone() returns (r: Option<nat>)
      requires Valid() && |free| > 0
      modifies this`free, this`ram
      ensures Valid() && free == old(free)
      ensures r.Some? <==> free[0].base + free[0].pages < meta.Length
      ensures r.Some? ==> r.value == free[0].base + free[0].pages && Stray(free, old(ram), r.value)
    {
      hide Ok, PagesOf, Given;
      OkGood(where, free, meta[..], ram, usedBytes, freeBytes);
      FirstLargest(free);
      FrontZero(free, 0);
      var got := PopFrontIn(0);
      assert free == old(free);
      StrayOk(where, free, meta[..], ram, usedBytes, freeBytes, got.base);
      ram := Given(where, ram, Grant(free, got));
      assert Stray(free, old(ram), got.base);
      r := if got.base < meta.Length then Some(got.base) else None;
    }

    /** What a request for no page did: only page `p`, which is not free, lost its first 24 bytes. */
    ghost predicate Stray(fl: seq<Run>, oldRam: Ram, p: nat)
      reads this
    {
      && p !in PagesOf(fl) && PageAt(ram, p) == Cleared(PageAt(oldRam, p))
      && SameOutside(oldRam, ram, PagesOf(fl) + {p})
    }

    /** `com_mm_pmm_alloc_many`: a request for at least one page gets all of them exactly when some
        free run holds them; otherwise the KASSERT on the size stops the kernel. */
    method AllocMany(n: nat) returns (r: Option<nat>)
      requires Valid()
      modifies this, meta
      ensures n >= 1 ==> (r.Some? <==> exists i :: 0 <= i < |old(free)| && old(free)[i].pages >= n)
      ensures n >= 1 && r.Some? ==> Valid() && Handed(old(free), old(meta[..]), old(ram), Run(r.value, n))
      ensures n == 1 && r.Some? ==> old(free) != [] && r.value + 1 == End(old(free)[|old(free)| - 1])
      ensures n > 1 && r.Some? ==> old(free) != [] && r.value + n == End(old(free)[0])
      ensures r.Some? ==> usedBytes == old(usedBytes) + n * PAGE_SIZE && freeBytes == old(freeBytes) - n * PAGE_SIZE
      ensures n == 0 ==> Valid() && free == old(free) && meta[..] == old(meta[..])
      ensures n == 0 && r.Some? ==> Stray(free, old(ram), r.value)
    {
      hide Ok, PagesOf, ListedFree, ZeroPages, SameOutside;
      OkGood(where, free, meta[..], ram, usedBytes, freeBytes);
      ServeTakes(free, if n >= 1 then Many(n) else One);
      if |free| == 0 {
        return None;
      }
      if n == 1 {
        r := Alloc();
        return;
      }
      if n == 0 {
        r := TakeNone();
        return;
      }
      var got := TakeFront(n);
      if got.pages != n {
        return None;
      }
      r := Some(got.base);
    }

    /** `com_mm_pmm_alloc_max`: as many of `n` pages as the largest run has.  For `n == 1` the count
        is not written, hence `None`. */
    method AllocMax(n: nat) returns (r: Option<nat>, count: Option<nat>)
      requires Valid()
      modifies this, meta
      ensures Valid()
      ensures n >= 1 ==> (r.Some? <==> old(free) != [])
      ensures count.Some? <==> r.Some? && n != 1
      ensures n >= 1 && count.Some? ==>
                1 <= count.value <= n && Handed(old(free), old(meta[..]), old(ram), Run(r.value, count.value))
      ensures n == 1 && r.Some? ==> old(free) != [] && r.value + 1 == End(old(free)[|old(free)| - 1])
      ensures n > 1 && r.Some? ==> old(free) != [] && r.value + count.value == End(old(free)[0])
      ensures count.Some? && count.value < n ==> forall i :: 0 <= i < |old(free)| ==> old(free)[i].pages <= count.value
      ensures r.Some? && n == 1 ==> Handed(old(free), old(meta[..]), old(ram), Run(r.value, 1))
      ensures n == 0 && r.Some? ==> count.value == 0 && Stray(free, old(ram), r.value) && free == old(free)
    {
      hide Ok, PagesOf, ListedFree, ZeroPages, SameOutside;
      OkGood(where, free, meta[..], ram, usedBytes, freeBytes);
      if |free| == 0 {
        return None, None;
      }
      if n == 1 {
        r := Alloc();
        return r, None;
      }
      if n == 0 {
        r := TakeNone();
        return r, if r.Some? then Some(0) else None;
      }
      var got := TakeFront(n);
      r, count := Some(got.base), Some(got.pages);
    }

    /** `com_mm_pmm_unreserve_many`: the range joins the list, zeroed, its metadata FREE.  For a range of
        pages that are neither free nor taken the allocator stays in order exactly when the range touches
        no free run. */
    method UnreserveMany(base: nat, pages: nat)
      requires Valid() && base + pages <= meta.Length
      modifies this, meta
      ensures free == AddOrdered(old(free), Run(base, pages))
      ensures meta[..] == Marked(old(meta[..]), Run(base, pages), FREE_META)
      ensures ram == Returned(where, old(ram), old(free), Run(base, pages))
      ensures reservedBytes == old(reservedBytes) - pages * PAGE_SIZE
      ensures freeBytes == old(freeBytes) + pages * PAGE_SIZE && usedBytes == old(usedBytes)
      ensures pages >= 1 && RunPages(Run(base, pages)) !! TakenPages(old(meta[..])) + PagesOf(old(free))
         ==> (Valid() <==> ApartFrom(Run(base, pages), old(free)))
    {
      hide Ok, PagesOf, AddOrdered, ApartFrom, TakenPages, Returned;
      var e := Run(base, pages);
      if pages >= 1 && RunPages(e) !! TakenPages(meta[..]) + PagesOf(free) {
        UnreserveOk(where, free, e, meta[..], ram, usedBytes, freeBytes);
      }
      ram := Returned(where, ram, free, e);
      MetaSet(e, FREE_META);
      AddOrderedIn(e);
      reservedBytes := reservedBytes - pages * PAGE_SIZE;
      freeBytes := freeBytes + pages * PAGE_SIZE;
    }
  }

  lemma StrayOk(where: Map, fl: seq<Run>, meta: seq<Meta>, ram: Ram, used: int, free: int, p: nat)
    requires Ok(where, fl, meta, ram, used, free) && p !in PagesOf(fl)
    ensures var r := Given(where, ram, Grant(fl, Run(p, 0)));
      && Ok(where, fl, meta, r, used, free)
      && PageAt(r, p) == Cleared(PageAt(ram, p)) && SameOutside(ram, r, PagesOf(fl) + {p})
  {
    hide PagesOf, Given;
    GivenNone(where, ram, fl, p);
  }

  lemma OkGood(where: Map, fl: seq<Run>, meta: seq<Meta>, ram: Ram, used: int, free: int)
    requires Ok(where, fl, meta, ram, used, free)
    ensures Good(fl)
  {}

  lemma MarkOne(meta: seq<Meta>, got: Run, m: Meta)
    requires got.pages == 1 && got.base < |meta|
    ensures Marked(meta, got, m) == meta[got.base := m]
  {
    assert Repeat([m], 1) == [m] by { RepeatOnce([m]); }
  }

  /** A page the physical allocator hands out was FREE, so nobody's, and is zero. */
  lemma HandedPage(where: Map, fl: seq<Run>, meta: seq<Meta>, ram: Ram, used: int, free: int,
                   ram': Ram, fl': seq<Run>, meta': seq<Meta>, page: nat)
    requires Ok(where, fl, meta, ram, used, free) && 0 !in PagesOf(fl)
    requires RunPages(Run(page, 1)) <= PagesOf(fl) && PagesOf(fl') == PagesOf(fl) - RunPages(Run(page, 1))
    requires page + 1 <= |meta| && meta' == Marked(meta, Run(page, 1), TAKEN_META) && ZeroPages(ram', Run(page, 1))
    ensures page !in TakenPages(meta) && TakenPages(meta') == TakenPages(meta) + {page} && page > 0
    ensures 0 !in PagesOf(fl')
    ensures PageAt(ram', page) == ZeroBytes() && |PagesOf(fl')| == |PagesOf(fl)| - 1
  {
    hide PagesOf, Marked, Good, Tidy, Headed, TakenPages;
    var r := Run(page, 1);
    assert Holds(r, page);
    assert RunPages(r) == {page};
    MarkedTaken(fl, meta, r);
  }
}
