/** The physical allocator's list of free runs, kept in descending size
    (`src/com/mm/pmm.c`, MainFreeList). */
module FreeList {
  import opened Options

  /** A run of contiguous free pages. */
  datatype Run = Run(base: nat, pages: nat)

  predicate Descending(fl: seq<Run>) { forall i, j :: 0 <= i < j < |fl| ==> fl[i].pages >= fl[j].pages }

  predicate NonEmpty(fl: seq<Run>) { forall i :: 0 <= i < |fl| ==> fl[i].pages >= 1 }

  /** There is at least one page between the two runs. */
  predicate Apart(a: Run, b: Run) { a.base + a.pages < b.base || b.base + b.pages < a.base }

  predicate ApartFrom(r: Run, s: seq<Run>) { forall i :: 0 <= i < |s| ==> Apart(r, s[i]) }

  predicate AllApart(fl: seq<Run>) { forall i, j :: 0 <= i < j < |fl| ==> Apart(fl[i], fl[j]) }

  predicate Holds(r: Run, p: nat) { r.base <= p < r.base + r.pages }

  /** The pages on the list. */
  function PagesOf(fl: seq<Run>): set<nat> {
    set i: nat, p: nat | i < |fl| && fl[i].base <= p < fl[i].base + fl[i].pages && Holds(fl[i], p) :: p
  }

  function RunPages(r: Run): set<nat> { set p: nat | r.base <= p < r.base + r.pages && Holds(r, p) }

  function TotalPages(fl: seq<Run>): nat { if fl == [] then 0 else fl[0].pages + TotalPages(fl[1..]) }

  /** What every operation keeps. */
  predicate Good(fl: seq<Run>) { Descending(fl) && NonEmpty(fl) && AllApart(fl) }

  // ------------------------------------------------------------------ insertion

  /** The one-page entry `e` directly follows or precedes run `r`. */
  predicate Touches(r: Run, e: Run) { e.base == r.base + r.pages || r.base == e.base + 1 }

  /** Where `freelist_add_ordered_nolock` inserts: before the first run that is not larger. */
  function InsertPos(fl: seq<Run>, n: nat): (k: nat)
    ensures k <= |fl|
    ensures forall i :: 0 <= i < k ==> fl[i].pages > n
    ensures k < |fl| ==> fl[k].pages <= n
  {
    if fl == [] || n >= fl[0].pages then 0 else 1 + InsertPos(fl[1..], n)
  }

  function InsertAt(fl: seq<Run>, k: nat, e: Run): seq<Run>
    requires k <= |fl|
  {
    fl[..k] + [e] + fl[k..]
  }

  /** `freelist_add_ordered_nolock`: a one-page entry goes to the end, merging with the last run
      when the two touch; a larger one goes in order. */
  function AddOrdered(fl: seq<Run>, e: Run): seq<Run> {
    if e.pages == 1 then
      if fl == [] then [e]
      else
        var last := fl[|fl| - 1];
        if e.base == last.base + last.pages then fl[..|fl| - 1] + [Run(last.base, last.pages + 1)]
        else if last.base == e.base + 1 then fl[..|fl| - 1] + [Run(e.base, 1 + last.pages)]
        else fl + [e]
    else InsertAt(fl, InsertPos(fl, e.pages), e)
  }

  /** Whether the insertion grows the last run past the one before it. */
  predicate Outgrows(fl: seq<Run>, e: Run) {
    && e.pages == 1 && |fl| >= 2
    && Touches(fl[|fl| - 1], e)
    && fl[|fl| - 2].pages == fl[|fl| - 1].pages
  }

  /** Insertion keeps the list in descending size exactly unless the one-page merge makes the last
      run larger than its predecessor. */
  lemma AddOrderedDescending(fl: seq<Run>, e: Run)
    requires Descending(fl) && NonEmpty(fl) && e.pages >= 1
    ensures Descending(AddOrdered(fl, e)) <==> !Outgrows(fl, e)
  {
    var r := AddOrdered(fl, e);
    if e.pages == 1 {
      if Outgrows(fl, e) {
        assert r[|fl| - 2].pages < r[|fl| - 1].pages;
      } else if fl != [] && Touches(fl[|fl| - 1], e) {
        forall i, j | 0 <= i < j < |r| ensures r[i].pages >= r[j].pages {
          if j == |r| - 1 { assert fl[i].pages >= fl[|fl| - 2].pages > fl[|fl| - 1].pages; }
        }
      }
    } else {
      var k := InsertPos(fl, e.pages);
      forall i, j | 0 <= i < j < |r| ensures r[i].pages >= r[j].pages {
        if i == k { assert r[j] == fl[j - 1]; }
        if i < k && j > k { assert r[i] == fl[i] && r[j] == fl[j - 1]; }
      }
    }
  }

  lemma InPages(fl: seq<Run>, p: nat)
    ensures p in PagesOf(fl) <==> exists i :: 0 <= i < |fl| && Holds(fl[i], p)
  {
    if p in PagesOf(fl) {
      var i: nat :| i < |fl| && Holds(fl[i], p);
    }
    if exists i :: 0 <= i < |fl| && Holds(fl[i], p) {
      var i :| 0 <= i < |fl| && Holds(fl[i], p);
    }
  }

  lemma PagesConcat(a: seq<Run>, b: seq<Run>)
    ensures PagesOf(a + b) == PagesOf(a) + PagesOf(b)
  {
    forall p: nat ensures p in PagesOf(a + b) <==> p in PagesOf(a) + PagesOf(b) {
      InPages(a + b, p);
      InPages(a, p);
      InPages(b, p);
      if i: nat :| i < |a| && Holds(a[i], p) { assert Holds((a + b)[i], p); }
      if i: nat :| i < |b| && Holds(b[i], p) { assert Holds((a + b)[|a| + i], p); }
    }
  }

  lemma PagesNone()
    ensures PagesOf([]) == {}
  {
  }

  lemma PagesOne(r: Run)
    ensures PagesOf([r]) == RunPages(r)
  {
    forall p: nat ensures p in PagesOf([r]) <==> p in RunPages(r) {
      InPages([r], p);
      if Holds(r, p) { assert Holds([r][0], p); }
    }
  }

  /** Insertion, merging or not, adds exactly the entry's pages. */
  lemma AddOrderedPages(fl: seq<Run>, e: Run)
    ensures PagesOf(AddOrdered(fl, e)) == PagesOf(fl) + RunPages(e)
  {
    hide PagesOf;
    PagesOne(e);
    PagesNone();
    if e.pages == 1 && fl != [] {
      var init, last := fl[..|fl| - 1], fl[|fl| - 1];
      assert fl == init + [last];
      PagesConcat(init, [last]);
      PagesOne(last);
      PagesConcat(fl, [e]);
      PagesConcat(init, [Run(last.base, last.pages + 1)]);
      PagesOne(Run(last.base, last.pages + 1));
      PagesConcat(init, [Run(e.base, 1 + last.pages)]);
      PagesOne(Run(e.base, 1 + last.pages));
    } else if e.pages != 1 {
      var k := InsertPos(fl, e.pages);
      assert fl == fl[..k] + fl[k..];
      PagesConcat(fl[..k], fl[k..]);
      PagesConcat(fl[..k], [e]);
      PagesConcat(fl[..k] + [e], fl[k..]);
    }
  }

  lemma {:induction false} TotalConcat(a: seq<Run>, b: seq<Run>)
    ensures TotalPages(a + b) == TotalPages(a) + TotalPages(b)
    decreases |a|
  {
    if a == [] {
      assert a + b == b;
    } else {
      assert (a + b)[1..] == a[1..] + b;
      TotalConcat(a[1..], b);
    }
  }

  lemma TotalOne(r: Run)
    ensures TotalPages([r]) == r.pages
  {
    assert [r][1..] == [];
  }

  lemma AddOrderedTotal(fl: seq<Run>, e: Run)
    ensures TotalPages(AddOrdered(fl, e)) == TotalPages(fl) + e.pages
  {
    TotalOne(e);
    if e.pages == 1 && fl != [] {
      var init, last := fl[..|fl| - 1], fl[|fl| - 1];
      assert fl == init + [last];
      TotalConcat(init, [last]);
      TotalOne(last);
      TotalConcat(fl, [e]);
      TotalConcat(init, [Run(last.base, last.pages + 1)]);
      TotalOne(Run(last.base, last.pages + 1));
      TotalConcat(init, [Run(e.base, 1 + last.pages)]);
      TotalOne(Run(e.base, 1 + last.pages));
    } else if e.pages != 1 {
      var k := InsertPos(fl, e.pages);
      assert fl == fl[..k] + fl[k..];
      TotalConcat(fl[..k], fl[k..]);
      TotalConcat(fl[..k], [e]);
      TotalConcat(fl[..k] + [e], fl[k..]);
    }
  }

  lemma InsertApart(fl: seq<Run>, k: nat, e: Run)
    requires AllApart(fl) && ApartFrom(e, fl) && k <= |fl|
    ensures AllApart(InsertAt(fl, k, e))
  {
    var r := InsertAt(fl, k, e);
    forall i, j | 0 <= i < j < |r| ensures Apart(r[i], r[j]) {
      var a, b := if i < k then i else i - 1, if j < k then j else j - 1;
      if i == k { assert r[j] == fl[b]; }
      else if j == k { assert r[i] == fl[a]; }
      else { assert r[i] == fl[a] && r[j] == fl[b]; }
    }
  }

  lemma InsertNonEmpty(fl: seq<Run>, k: nat, e: Run)
    requires NonEmpty(fl) && e.pages >= 1 && k <= |fl|
    ensures NonEmpty(InsertAt(fl, k, e))
  {
    var r := InsertAt(fl, k, e);
    forall i | 0 <= i < |r| ensures r[i].pages >= 1 {
      if i != k { assert r[i] == fl[if i < k then i else i - 1]; }
    }
  }

  /** An entry that touches no run on the list is simply inserted. */
  lemma AddApartGood(fl: seq<Run>, e: Run)
    requires Good(fl) && e.pages >= 1 && ApartFrom(e, fl)
    ensures Good(AddOrdered(fl, e))
  {
    hide Descending, AllApart, NonEmpty;
    AddOrderedDescending(fl, e);
    var k := if e.pages == 1 then |fl| else InsertPos(fl, e.pages);
    if e.pages == 1 && fl != [] { assert Apart(e, fl[|fl| - 1]); }
    assert AddOrdered(fl, e) == InsertAt(fl, k, e);
    InsertApart(fl, k, e);
    InsertNonEmpty(fl, k, e);
  }

  /** A one-page entry that touches the last run and no other, and does not make it outgrow its predecessor. */
  predicate MergesWell(fl: seq<Run>, e: Run) {
    && e.pages == 1 && fl != [] && Touches(fl[|fl| - 1], e)
    && ApartFrom(e, fl[..|fl| - 1]) && !Outgrows(fl, e)
  }

  /** The run that a one-page entry and the last run make together. */
  function Merged(last: Run, e: Run): Run {
    if e.base == last.base + last.pages then Run(last.base, last.pages + 1) else Run(e.base, 1 + last.pages)
  }

  /** A merged run is apart from another exactly when both its parts are. */
  lemma MergedApart(last: Run, e: Run, r: Run)
    requires e.pages == 1 && last.pages >= 1 && r.pages >= 1 && Touches(last, e)
    ensures Apart(r, Merged(last, e)) <==> Apart(r, last) && Apart(e, r)
  {}

  lemma MergeApart(fl: seq<Run>, e: Run)
    requires Good(fl) && e.pages == 1 && fl != [] && Touches(fl[|fl| - 1], e)
    ensures AllApart(AddOrdered(fl, e)) <==> ApartFrom(e, fl[..|fl| - 1])
    ensures NonEmpty(AddOrdered(fl, e))
  {
    var init, last, r := fl[..|fl| - 1], fl[|fl| - 1], AddOrdered(fl, e);
    assert r == init + [Merged(last, e)];
    forall i | 0 <= i < |init| ensures Apart(r[i], r[|r| - 1]) <==> Apart(e, init[i]) {
      assert Apart(fl[i], last);
      MergedApart(last, e, fl[i]);
    }
    if ApartFrom(e, init) {
      forall i, j | 0 <= i < j < |r| ensures Apart(r[i], r[j]) { assert j < |init| ==> Apart(fl[i], fl[j]); }
    }
    if AllApart(r) {
      forall i | 0 <= i < |init| ensures Apart(e, init[i]) { assert Apart(r[i], r[|r| - 1]); }
    }
  }

  /** An insertion keeps a good list good exactly when the entry is apart from every run, or is one page
      that merges well. */
  lemma AddGoodExactly(fl: seq<Run>, e: Run)
    requires Good(fl) && e.pages >= 1
    ensures Good(AddOrdered(fl, e)) <==> ApartFrom(e, fl) || MergesWell(fl, e)
  {
    hide Descending, AllApart, NonEmpty, AddOrdered, Outgrows;
    if e.pages == 1 && fl != [] && Touches(fl[|fl| - 1], e) {
      TouchesNotApart(fl, e);
      AddOrderedDescending(fl, e);
      MergeApart(fl, e);
    } else if ApartFrom(e, fl) {
      AddApartGood(fl, e);
    } else {
      var i :| 0 <= i < |fl| && !Apart(e, fl[i]);
      InsertedNotApart(fl, e, i);
    }
  }

  lemma TouchesNotApart(fl: seq<Run>, e: Run)
    requires fl != [] && e.pages == 1 && Touches(fl[|fl| - 1], e)
    ensures !ApartFrom(e, fl)
  {
    assert !Apart(e, fl[|fl| - 1]);
  }

  lemma InsertedNotApart(fl: seq<Run>, e: Run, i: nat)
    requires i < |fl| && !Apart(e, fl[i]) && !(e.pages == 1 && Touches(fl[|fl| - 1], e))
    ensures !AllApart(AddOrdered(fl, e))
  {
    var k, r := if e.pages == 1 then |fl| else InsertPos(fl, e.pages), AddOrdered(fl, e);
    assert r == InsertAt(fl, k, e);
    assert r[k] == e;
    if i < k {
      assert r[i] == fl[i] && !Apart(r[i], r[k]);
    } else {
      assert r[i + 1] == fl[i] && !Apart(r[k], r[i + 1]);
    }
  }

  /** The list `com_mm_pmm_init` builds from the usable ranges, in memory-map order. */
  function ListFrom(ranges: seq<Run>): seq<Run> {
    if ranges == [] then [] else AddOrdered(ListFrom(ranges[..|ranges| - 1]), ranges[|ranges| - 1])
  }

  /** From non-touching ranges: a list in descending size that holds exactly their pages. */
  lemma {:induction false} InitialList(ranges: seq<Run>)
    requires NonEmpty(ranges) && AllApart(ranges)
    ensures Good(ListFrom(ranges)) && PagesOf(ListFrom(ranges)) == PagesOf(ranges)
    ensures forall r :: r in ListFrom(ranges) ==> r in ranges
    decreases |ranges|
  {
    hide PagesOf, AddOrdered, Good, ApartFrom, RunPages;
    if ranges == [] {
      GoodNone();
    } else {
      var init, e := ranges[..|ranges| - 1], ranges[|ranges| - 1];
      InitialList(init);
      var fl := ListFrom(init);
      LastApart(ranges, fl);
      hide NonEmpty, AllApart;
      AddApartGood(fl, e);
      AddOrderedPages(fl, e);
      AddedRuns(fl, e);
      assert ranges == init + [e];
      PagesConcat(init, [e]);
      PagesOne(e);
    }
  }

  lemma GoodNone()
    ensures Good([])
  {}

  lemma LastApart(ranges: seq<Run>, fl: seq<Run>)
    requires ranges != [] && AllApart(ranges) && forall r :: r in fl ==> r in ranges[..|ranges| - 1]
    ensures ApartFrom(ranges[|ranges| - 1], fl)
  {
    var init := ranges[..|ranges| - 1];
    forall i | 0 <= i < |fl| ensures Apart(ranges[|ranges| - 1], fl[i]) {
      assert fl[i] in fl && fl[i] in init;
      var j :| 0 <= j < |init| && init[j] == fl[i];
      assert Apart(ranges[j], ranges[|ranges| - 1]);
    }
  }

  lemma AddedRuns(fl: seq<Run>, e: Run)
    requires ApartFrom(e, fl) && e.pages >= 1
    ensures forall r :: r in AddOrdered(fl, e) ==> r in fl || r == e
  {
    if fl != [] { assert Apart(e, fl[|fl| - 1]); }
  }

  // ------------------------------------------------------------------ taking pages

  /** A grant: the list that remains and the contiguous pages handed out. */
  datatype Grant = Grant(rest: seq<Run>, got: Run)

  /** `freelist_pop_rear_nolock`: the last page of the smallest run. */
  function PopRear(fl: seq<Run>): Grant
    requires fl != []
  {
    var init, last := fl[..|fl| - 1], fl[|fl| - 1];
    if last.pages <= 1 then Grant(init, Run(last.base, 1))
    else Grant(init + [Run(last.base, last.pages - 1)], Run(last.base + last.pages - 1, 1))
  }

  /** `freelist_pop_front_nolock`: up to `n` pages from the end of the first run, which is put back in
      order if it is now smaller than the next.  That comparison is also made when the whole run
      has been handed out; removing it a second time changes nothing, but inserting it lists the
      pages just given away. */
  function PopFront(fl: seq<Run>, n: nat): Grant
    requires fl != []
  {
    var first, tail := fl[0], fl[1..];
    if n >= first.pages then
      Grant(if tail != [] && tail[0].pages > first.pages then AddOrdered(tail, first) else tail, first)
    else
      var e := Run(first.base, first.pages - n);
      var rest := if tail != [] && tail[0].pages > e.pages then AddOrdered(tail, e) else [e] + tail;
      Grant(rest, Run(first.base + e.pages, n))
  }

  /** A single page comes off the end of the last run, the smallest; the other runs are left alone. */
  lemma RearLaw(fl: seq<Run>)
    requires fl != [] && NonEmpty(fl)
    ensures var g, last := PopRear(fl), fl[|fl| - 1];
      && g.got == Run(last.base + last.pages - 1, 1) && |g.rest| >= |fl| - 1 && g.rest[..|fl| - 1] == fl[..|fl| - 1]
  {}

  /** Several pages come off the end of the first run, the largest, as many as asked for and there are. */
  lemma FrontLaw(fl: seq<Run>, n: nat)
    requires fl != []
    ensures var got := PopFront(fl, n).got;
      && got.pages == (if n < fl[0].pages then n else fl[0].pages)
      && got.base + got.pages == fl[0].base + fl[0].pages
  {}

  /** `g` takes exactly its pages off a good list and leaves a good list. */
  predicate Takes(fl: seq<Run>, g: Grant) {
    && Good(g.rest)
    && RunPages(g.got) <= PagesOf(fl)
    && PagesOf(g.rest) == PagesOf(fl) - RunPages(g.got)
    && TotalPages(g.rest) + g.got.pages == TotalPages(fl)
  }

  lemma ApartPages(r: Run, tail: seq<Run>)
    requires ApartFrom(r, tail)
    ensures RunPages(r) !! PagesOf(tail)
  {
    forall p | p in RunPages(r) ensures p !in PagesOf(tail) {
      InPages(tail, p);
      assert Holds(r, p);
    }
  }

  lemma GoodTail(fl: seq<Run>)
    requires Good(fl) && fl != []
    ensures Good(fl[1..]) && Good(fl[..|fl| - 1])
    ensures ApartFrom(fl[0], fl[1..]) && ApartFrom(fl[|fl| - 1], fl[..|fl| - 1])
  {
  }

  lemma FirstLargest(fl: seq<Run>)
    requires Descending(fl) && |fl| > 0
    ensures |fl| > 1 ==> fl[0].pages >= fl[1].pages
  {
  }

  /** The byte count kept for free memory counts pages: the runs of a good list share none. */
  lemma {:induction false} TotalIsCount(fl: seq<Run>)
    requires AllApart(fl)
    ensures TotalPages(fl) == |PagesOf(fl)|
    decreases |fl|
  {
    hide PagesOf;
    if fl == [] {
      PagesNone();
    } else {
      assert fl == [fl[0]] + fl[1..];
      PagesConcat([fl[0]], fl[1..]);
      PagesOne(fl[0]);
      ApartPages(fl[0], fl[1..]);
      RunCount(fl[0]);
      TotalIsCount(fl[1..]);
    }
  }

  lemma {:induction false} RunCount(r: Run)
    ensures |RunPages(r)| == r.pages
    decreases r.pages
  {
    if r.pages == 0 {
      assert RunPages(r) == {};
    } else {
      var small := Run(r.base, r.pages - 1);
      RunCount(small);
      assert RunPages(r) == RunPages(small) + {r.base + r.pages - 1};
    }
  }

  lemma ShrinkLast(fl: seq<Run>)
    requires Good(fl) && fl != [] && fl[|fl| - 1].pages > 1
    ensures Good(fl[..|fl| - 1] + [Run(fl[|fl| - 1].base, fl[|fl| - 1].pages - 1)])
  {
  }

  lemma ShrinkFirst(fl: seq<Run>, n: nat)
    requires Good(fl) && fl != [] && n < fl[0].pages && (|fl| > 1 ==> fl[0].pages - n >= fl[1].pages)
    ensures Good([Run(fl[0].base, fl[0].pages - n)] + fl[1..])
  {
    var r := [Run(fl[0].base, fl[0].pages - n)] + fl[1..];
    forall i, j | 0 <= i < j < |r| ensures Apart(r[i], r[j]) && r[i].pages >= r[j].pages {
      assert Apart(fl[i], fl[j]) && r[j] == fl[j] && fl[1].pages >= fl[j].pages;
    }
  }

  lemma PopRearTakes(fl: seq<Run>)
    requires Good(fl) && fl != []
    ensures Takes(fl, PopRear(fl))
  {
    hide PagesOf, TotalPages, Descending, AllApart;
    var init, last, g := fl[..|fl| - 1], fl[|fl| - 1], PopRear(fl);
    assert fl == init + [last];
    GoodTail(fl);
    PagesConcat(init, [last]);
    PagesOne(last);
    TotalConcat(init, [last]);
    TotalOne(last);
    ApartPages(last, init);
    if last.pages > 1 {
      var small := Run(last.base, last.pages - 1);
      ShrinkLast(fl);
      PagesConcat(init, [small]);
      PagesOne(small);
      TotalConcat(init, [small]);
      TotalOne(small);
    }
  }

  lemma PopFrontTakes(fl: seq<Run>, n: nat)
    requires Good(fl) && fl != [] && n >= 1
    ensures Takes(fl, PopFront(fl, n))
  {
    hide PagesOf, TotalPages, Descending, AllApart, AddOrdered;
    var first, tail, g := fl[0], fl[1..], PopFront(fl, n);
    assert fl == [first] + tail;
    TotalConcat([first], tail);
    TotalOne(first);
    GoodTail(fl);
    PagesConcat([first], tail);
    PagesOne(first);
    ApartPages(first, tail);
    if n >= first.pages {
      assert tail == [] || fl[0].pages >= fl[1].pages by { FirstLargest(fl); }
    } else {
      var e := Run(first.base, first.pages - n);
      forall i | 0 <= i < |tail| ensures Apart(e, tail[i]) { assert Apart(first, tail[i]); }
      PagesConcat([e], tail);
      PagesOne(e);
      TotalConcat([e], tail);
      TotalOne(e);
      AddApartGood(tail, e);
      AddOrderedPages(tail, e);
      AddOrderedTotal(tail, e);
      if tail == [] || tail[0].pages <= e.pages { ShrinkFirst(fl, n); }
    }
  }

  /** Pages of a run handed out whole are still listed exactly when the next run is larger, which
      a descending list rules out. */
  lemma FrontListedTwice(fl: seq<Run>, n: nat)
    requires fl != [] && NonEmpty(fl) && AllApart(fl) && n >= fl[0].pages
    ensures RunPages(fl[0]) == RunPages(PopFront(fl, n).got)
    ensures RunPages(fl[0]) !! PagesOf(PopFront(fl, n).rest) <==> !(|fl| > 1 && fl[1].pages > fl[0].pages)
  {
    hide PagesOf, AddOrdered;
    var first, tail := fl[0], fl[1..];
    ApartPages(first, tail);
    AddOrderedPages(tail, first);
    assert Holds(first, first.base);
    assert first.base in RunPages(first);
  }

  /** The merge of a one-page entry can bring that state about: from a list every operation would
      have kept in order, returning page 22 makes the next request for two pages hand out pages 10
      and 11 while they stay on the list. */
  lemma MergeListsTwice()
    ensures var fl := [Run(10, 2), Run(20, 2)]; var merged := AddOrdered(fl, Run(22, 1));
      && Good(fl) && Outgrows(fl, Run(22, 1))
      && PopFront(merged, 2).got == Run(10, 2)
      && 10 in PagesOf(PopFront(merged, 2).rest)
  {
    var fl := [Run(10, 2), Run(20, 2)];
    var merged := AddOrdered(fl, Run(22, 1));
    assert merged == [Run(10, 2), Run(20, 3)];
    FrontListedTwice(merged, 2);
    var rest := PopFront(merged, 2).rest;
    AddOrderedPages(merged[1..], Run(10, 2));
    assert Holds(Run(10, 2), 10);
    assert 10 in RunPages(Run(10, 2));
  }

  /** A request for `n` pages gets all of them exactly when some free run has them: taking from the
      front of a descending list loses nothing. */
  lemma FrontServes(fl: seq<Run>, n: nat)
    requires Good(fl) && fl != []
    ensures PopFront(fl, n).got.pages == n <==> exists i :: 0 <= i < |fl| && fl[i].pages >= n
  {
    if i :| 0 <= i < |fl| && fl[i].pages >= n { assert fl[0].pages >= fl[i].pages; }
  }

  /** Asking for no page at all yields an address past the largest run, which is not free; asking
      for at least one yields only free pages. */
  lemma FrontZero(fl: seq<Run>, n: nat)
    requires Good(fl) && fl != []
    ensures PopFront(fl, n).got.base in PagesOf(fl) <==> n >= 1
  {
    var first := fl[0];
    if n == 0 {
      var p := first.base + first.pages;
      InPages(fl, p);
      forall i | 0 <= i < |fl| ensures !Holds(fl[i], p) { if i > 0 { assert Apart(fl[0], fl[i]); } }
    } else {
      PopFrontTakes(fl, n);
      assert Holds(PopFront(fl, n).got, PopFront(fl, n).got.base);
    }
  }

  // ------------------------------------------------------------------ whole runs

  /** `com_mm_pmm_alloc`, `com_mm_pmm_alloc_many` and `com_mm_pmm_alloc_max`. */
  datatype Request = One | Many(n: nat) | Max(n: nat)

  /** What a request gets; none when a KASSERT of the allocator fails. */
  function Serve(fl: seq<Run>, q: Request): Option<Grant> {
    if fl == [] then None
    else
      match q
      case One => Some(PopRear(fl))
      case Many(n) =>
        if n == 1 then Some(PopRear(fl)) else if PopFront(fl, n).got.pages != n then None else Some(PopFront(fl, n))
      case Max(n) => if n == 1 then Some(PopRear(fl)) else Some(PopFront(fl, n))
  }

  predicate Asks(q: Request) { q.One? || q.n >= 1 }

  lemma ServeTakes(fl: seq<Run>, q: Request)
    requires Good(fl) && Asks(q)
    ensures Serve(fl, q).Some? ==> Takes(fl, Serve(fl, q).value)
    ensures q.One? || q.Max? ==> (Serve(fl, q).Some? <==> fl != [])
    ensures q.Many? ==> (Serve(fl, q).Some? <==> exists i :: 0 <= i < |fl| && fl[i].pages >= q.n)
    ensures Serve(fl, q).Some? && q.Many? ==> Serve(fl, q).value.got.pages == q.n
  {
    if fl != [] {
      PopRearTakes(fl);
      if !q.One? {
        PopFrontTakes(fl, q.n);
        FrontServes(fl, q.n);
        assert q.n == 1 ==> fl[0].pages >= q.n;
      }
    }
  }

  /** The pages handed out by a run of requests, until one fails. */
  function Served(fl: seq<Run>, qs: seq<Request>): seq<Run>
    decreases |qs|
  {
    if qs == [] || Serve(fl, qs[0]).None? then []
    else var g := Serve(fl, qs[0]).value; [g.got] + Served(g.rest, qs[1..])
  }

  function Left(fl: seq<Run>, qs: seq<Request>): seq<Run>
    decreases |qs|
  {
    if qs == [] || Serve(fl, qs[0]).None? then fl else Left(Serve(fl, qs[0]).value.rest, qs[1..])
  }

  /** Over every run of requests no page is handed out twice: the pages served are pairwise
      disjoint, were all free at the start, and together with what is left make up the start. */
  lemma {:induction false} NoPageTwice(fl: seq<Run>, qs: seq<Request>)
    requires Good(fl) && forall i :: 0 <= i < |qs| ==> Asks(qs[i])
    ensures var gs, rest := Served(fl, qs), Left(fl, qs);
      && Good(rest)
      && (forall i, j :: 0 <= i < j < |gs| ==> RunPages(gs[i]) !! RunPages(gs[j]))
      && (forall i :: 0 <= i < |gs| ==> RunPages(gs[i]) <= PagesOf(fl) && RunPages(gs[i]) !! PagesOf(rest))
      && PagesOf(fl) == PagesOf(rest) + PagesOf(gs)
      && TotalPages(fl) == TotalPages(rest) + TotalPages(gs)
    decreases |qs|
  {
    var gs, rest := Served(fl, qs), Left(fl, qs);
    if qs == [] || Serve(fl, qs[0]).None? {
      assert gs == [];
      forall p ensures p !in PagesOf(gs) { }
    } else {
      var g := Serve(fl, qs[0]).value;
      ServeTakes(fl, qs[0]);
      NoPageTwice(g.rest, qs[1..]);
      var gs' := Served(g.rest, qs[1..]);
      assert gs == [g.got] + gs' && gs[1..] == gs';
      PagesConcat([g.got], gs');
      PagesOne(g.got);
      forall i, j | 0 <= i < j < |gs| ensures RunPages(gs[i]) !! RunPages(gs[j]) {
        if i > 0 { assert gs[i] == gs'[i - 1]; }
        assert gs[j] == gs'[j - 1];
      }
      forall i | 0 <= i < |gs| ensures RunPages(gs[i]) <= PagesOf(fl) && RunPages(gs[i]) !! PagesOf(rest) {
        if i > 0 { assert gs[i] == gs'[i - 1]; }
      }
    }
  }

  // ------------------------------------------------------------------ runs that also return pages

  /** A request, or `com_mm_pmm_unreserve_many`. */
  datatype Op = Ask(q: Request) | Return(e: Run)

  predicate MayDo(fl: seq<Run>, op: Op) {
    match op
    case Ask(q) => Asks(q)
    case Return(e) => e.pages >= 1 && (ApartFrom(e, fl) || MergesWell(fl, e))
  }

  /** The free list and the pages out after a step; a failed request changes nothing. */
  function After(fl: seq<Run>, op: Op): seq<Run> {
    match op
    case Ask(q) => if Serve(fl, q).None? then fl else Serve(fl, q).value.rest
    case Return(e) => AddOrdered(fl, e)
  }

  function OutAfter(fl: seq<Run>, out: set<nat>, op: Op): set<nat> {
    match op
    case Ask(q) => if Serve(fl, q).None? then out else out + RunPages(Serve(fl, q).value.got)
    case Return(e) => out - RunPages(e)
  }

  predicate IsRun(fl: seq<Run>, ops: seq<Op>)
    decreases |ops|
  {
    ops == [] || (MayDo(fl, ops[0]) && IsRun(After(fl, ops[0]), ops[1..]))
  }

  function ListAfter(fl: seq<Run>, ops: seq<Op>): seq<Run>
    decreases |ops|
  {
    if ops == [] then fl else ListAfter(After(fl, ops[0]), ops[1..])
  }

  function AllOut(fl: seq<Run>, out: set<nat>, ops: seq<Op>): set<nat>
    decreases |ops|
  {
    if ops == [] then out else AllOut(After(fl, ops[0]), OutAfter(fl, out, ops[0]), ops[1..])
  }

  /** A run grows by a step. */
  lemma {:induction false} RunMore(fl: seq<Run>, out: set<nat>, ops: seq<Op>, op: Op)
    ensures IsRun(fl, ops + [op]) <==> IsRun(fl, ops) && MayDo(ListAfter(fl, ops), op)
    ensures ListAfter(fl, ops + [op]) == After(ListAfter(fl, ops), op)
    ensures AllOut(fl, out, ops + [op]) == OutAfter(ListAfter(fl, ops), AllOut(fl, out, ops), op)
    decreases |ops|
  {
    hide MayDo, After, OutAfter;
    if ops == [] {
      assert ops + [op] == [op] && [op][1..] == [];
    } else {
      assert (ops + [op])[1..] == ops[1..] + [op];
      RunMore(After(fl, ops[0]), OutAfter(fl, out, ops[0]), ops[1..], op);
    }
  }

  /** Every request of the run is served with pages that are not out. */
  predicate NeverTwice(fl: seq<Run>, out: set<nat>, ops: seq<Op>)
    decreases |ops|
  {
    ops == [] ||
    (&& (ops[0].Ask? && Serve(fl, ops[0].q).Some? ==> RunPages(Serve(fl, ops[0].q).value.got) !! out)
     && NeverTwice(After(fl, ops[0]), OutAfter(fl, out, ops[0]), ops[1..]))
  }

  lemma StepOut(fl: seq<Run>, out: set<nat>, op: Op)
    requires Good(fl) && out !! PagesOf(fl) && MayDo(fl, op)
    ensures Good(After(fl, op)) && OutAfter(fl, out, op) !! PagesOf(After(fl, op))
    ensures op.Ask? && Serve(fl, op.q).Some? ==> RunPages(Serve(fl, op.q).value.got) !! out
    ensures op.Ask? ==> PagesOf(After(fl, op)) + OutAfter(fl, out, op) == PagesOf(fl) + out
    ensures op.Return? ==> PagesOf(After(fl, op)) + OutAfter(fl, out, op) == PagesOf(fl) + out + RunPages(op.e)
  {
    hide Good, PagesOf, AddOrdered, Serve;
    match op
    case Ask(q) => ServeTakes(fl, q);
    case Return(e) =>
      AddGoodExactly(fl, e);
      AddOrderedPages(fl, e);
  }

  /** Over every run of requests and returned ranges that keep the list in order, no request is served with
      a page that is out, and no page is both out and free. */
  lemma {:induction false} NoPageOutTwice(fl: seq<Run>, out: set<nat>, ops: seq<Op>)
    requires Good(fl) && out !! PagesOf(fl) && IsRun(fl, ops)
    ensures NeverTwice(fl, out, ops)
    ensures Good(ListAfter(fl, ops)) && AllOut(fl, out, ops) !! PagesOf(ListAfter(fl, ops))
    ensures PagesOf(fl) + out <= PagesOf(ListAfter(fl, ops)) + AllOut(fl, out, ops)
    decreases |ops|
  {
    if ops != [] {
      hide Good, PagesOf, After, OutAfter, Serve, MayDo;
      StepOut(fl, out, ops[0]);
      NoPageOutTwice(After(fl, ops[0]), OutAfter(fl, out, ops[0]), ops[1..]);
    }
  }
}
