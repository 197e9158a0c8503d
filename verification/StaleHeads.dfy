/** What the one-page merge of the free list leaves in memory (`src/com/mm/pmm.c`): the list entry of the
    run it absorbs stays behind in the middle of the grown run, and a later request may hand it out. */
module StaleHeads {
  import opened Pages
  import opened Words
  import opened FreeList
  import opened RunHeads

  // ------------------------------------------------------------------ runs that share no page

  /** The two runs share no page; they may touch. */
  predicate Clear(a: Run, b: Run) { a.base + a.pages <= b.base || b.base + b.pages <= a.base }

  predicate AllClear(fl: seq<Run>) { forall i, j :: 0 <= i < j < |fl| ==> Clear(fl[i], fl[j]) }

  lemma GoodClear(fl: seq<Run>)
    requires Good(fl)
    ensures AllClear(fl) && NonEmpty(fl)
  {
    forall i, j | 0 <= i < j < |fl| ensures Clear(fl[i], fl[j]) { assert Apart(fl[i], fl[j]); }
  }

  /** A run whose pages are not listed is clear of every run. */
  lemma Unlisted(fl: seq<Run>, e: Run, i: nat)
    requires NonEmpty(fl) && e.pages >= 1 && RunPages(e) !! PagesOf(fl) && i < |fl|
    ensures Clear(fl[i], e)
  {
    var p := if fl[i].base < e.base then e.base else fl[i].base;
    InPages(fl, p);
    assert Holds(e, p) ==> p in RunPages(e);
    assert !(Holds(fl[i], p) && Holds(e, p));
  }

  lemma AddClear(fl: seq<Run>, e: Run)
    requires Good(fl) && e.pages >= 1 && RunPages(e) !! PagesOf(fl)
    ensures AllClear(AddOrdered(fl, e)) && NonEmpty(AddOrdered(fl, e))
  {
    hide PagesOf, RunPages;
    GoodClear(fl);
    AddDistinct(fl, e);
    var r := AddOrdered(fl, e);
    forall i: nat | i < |fl| ensures Clear(fl[i], e) { Unlisted(fl, e, i); }
    if e.pages == 1 && fl != [] && Touches(fl[|fl| - 1], e) {
      assert r == fl[..|fl| - 1] + [Merged(fl[|fl| - 1], e)];
    } else {
      var k := if e.pages == 1 then |fl| else InsertPos(fl, e.pages);
      assert r == InsertAt(fl, k, e);
      InsertClear(fl, k, e);
    }
  }

  lemma InsertClear(fl: seq<Run>, k: nat, e: Run)
    requires AllClear(fl) && k <= |fl| && forall i :: 0 <= i < |fl| ==> Clear(fl[i], e)
    ensures AllClear(InsertAt(fl, k, e))
  {
    var r := InsertAt(fl, k, e);
    forall i, j | 0 <= i < j < |r| ensures Clear(r[i], r[j]) {
      var a, b := if i < k then i else i - 1, if j < k then j else j - 1;
      if i == k { assert r[j] == fl[b]; }
      else if j == k { assert r[i] == fl[a]; }
      else { assert r[i] == fl[a] && r[j] == fl[b]; }
    }
  }

  // ------------------------------------------------------------------ memory with stale entries

  /** Free memory is zero apart from the list entries, which head their runs, and the entries left behind in
      the pages `stale`. */
  ghost predicate Mixed(fl: seq<Run>, ram: Ram, stale: set<nat>) {
    && stale <= PagesOf(fl)
    && forall p :: p in PagesOf(fl) ==> MixedAt(fl, ram, stale, p)
  }

  ghost predicate MixedAt(fl: seq<Run>, ram: Ram, stale: set<nat>, p: nat) {
    && ZeroBehind(PageAt(ram, p))
    && (if IsBase(fl, p) then p !in stale else PageAt(ram, p) == ZeroBytes() <==> p !in stale)
  }

  /** Without stale entries this is the order the allocator starts in. */
  lemma TidyMixed(fl: seq<Run>, ram: Ram)
    ensures Tidy(fl, ram) <==> Mixed(fl, ram, {})
  {
    hide PagesOf, IsBase;
    if Tidy(fl, ram) {
      forall p | p in PagesOf(fl) ensures MixedAt(fl, ram, {}, p) { assert TidyAt(fl, ram, p); }
    }
    if Mixed(fl, ram, {}) {
      forall p | p in PagesOf(fl) ensures TidyAt(fl, ram, p) { assert MixedAt(fl, ram, {}, p); }
    }
  }

  /** The return of `e` is a merge. */
  predicate Merges(fl: seq<Run>, e: Run) { e.pages == 1 && fl != [] && Touches(fl[|fl| - 1], e) }

  function StaleAfter(fl: seq<Run>, stale: set<nat>, e: Run): set<nat> {
    if Merges(fl, e) then stale + {Absorbed(fl[|fl| - 1], e)} else stale
  }

  /** The run heads after any insertion: a merge loses one. */
  lemma HeadsAfter(fl: seq<Run>, e: Run, p: nat)
    requires Good(fl) && e.pages >= 1 && RunPages(e) !! PagesOf(fl)
    ensures IsBase(AddOrdered(fl, e), p)
       <==> (IsBase(fl, p) || p == e.base) && !(Merges(fl, e) && p == Absorbed(fl[|fl| - 1], e))
  {
    hide PagesOf, RunPages, IsBase;
    if Merges(fl, e) {
      var init, last := fl[..|fl| - 1], fl[|fl| - 1];
      AbsorbedInside(fl, e);
      assert AddOrdered(fl, e) == init + [Merged(last, e)];
      BaseConcat(init, [Merged(last, e)], p);
      BaseOne(Merged(last, e), p);
      assert fl == init + [last];
      BaseConcat(init, [last], p);
      BaseOne(last, p);
    } else {
      AddBases(fl, e, p);
    }
  }

  /** Memory between the stores into the returned range and the linking of the list. */
  ghost function Stored(ram: Ram, e: Run): Ram {
    var w := Wiped(ram, e);
    w[e.base := WithLength(PageAt(w, e.base), e.pages)]
  }

  lemma StoredAt(ram: Ram, e: Run, p: nat)
    requires 1 <= e.pages < WORD
    ensures p !in RunPages(e) ==> PageAt(Stored(ram, e), p) == PageAt(ram, p)
    ensures p in RunPages(e) ==> ZeroBehind(PageAt(Stored(ram, e), p))
    ensures p in RunPages(e) ==> (PageAt(Stored(ram, e), p) == ZeroBytes() <==> p != e.base)
  {
    assert Holds(e, e.base);
    assert e.base in RunPages(e);
    var page := WithLength(ZeroBytes(), e.pages);
    assert page[LENGTH..HEAD] == Bytes(e.pages, 8);
    LengthNotZero(page, e.pages);
  }

  /** A return keeps this picture: a merge leaves exactly one more entry behind. */
  lemma ReturnedMixed(where: Map, ram: Ram, fl: seq<Run>, stale: set<nat>, e: Run)
    requires Good(fl) && Mixed(fl, ram, stale) && Headed(where, fl, ram)
    requires 1 <= e.pages < WORD && RunPages(e) !! PagesOf(fl) && forall i :: 0 <= i < |fl| ==> fl[i].pages < WORD
    ensures Mixed(AddOrdered(fl, e), Returned(where, ram, fl, e), StaleAfter(fl, stale, e))
    ensures Headed(where, AddOrdered(fl, e), Returned(where, ram, fl, e))
  {
    hide PagesOf, IsBase, AddOrdered, Linked, Header, Good, MixedAt, Stored;
    var fl', s' := AddOrdered(fl, e), StaleAfter(fl, stale, e);
    AddOrderedPages(fl, e);
    AddDistinct(fl, e);
    LinkedOk(where, Stored(ram, e), fl');
    ReturnedIs(where, ram, fl, e);
    if Merges(fl, e) { AbsorbedInside(fl, e); }
    forall p | p in PagesOf(fl') ensures MixedAt(fl', Returned(where, ram, fl, e), s', p) {
      ReturnedMixedAt(where, ram, fl, stale, e, p);
      LinkedMixed(where, Stored(ram, e), fl', s', p);
    }
  }

  lemma ReturnedIs(where: Map, ram: Ram, fl: seq<Run>, e: Run)
    ensures var fl' := AddOrdered(fl, e); Returned(where, ram, fl, e) == Linked(where, Stored(ram, e), fl', |fl'|)
  {}

  lemma LinkedMixed(where: Map, ram: Ram, fl: seq<Run>, stale: set<nat>, p: nat)
    requires MixedAt(fl, ram, stale, p)
    ensures MixedAt(fl, Linked(where, ram, fl, |fl|), stale, p)
  {
    hide Linked, IsBase;
    LinkedElsewhere(where, ram, fl, |fl|, p);
    LinkedBehind(where, ram, fl, p);
  }

  lemma ReturnedMixedAt(where: Map, ram: Ram, fl: seq<Run>, stale: set<nat>, e: Run, p: nat)
    requires Good(fl) && Mixed(fl, ram, stale) && Headed(where, fl, ram)
    requires 1 <= e.pages < WORD && RunPages(e) !! PagesOf(fl) && forall i :: 0 <= i < |fl| ==> fl[i].pages < WORD
    requires p in PagesOf(fl) + RunPages(e)
    ensures MixedAt(AddOrdered(fl, e), Stored(ram, e), StaleAfter(fl, stale, e), p)
  {
    hide PagesOf, IsBase, AddOrdered, Good, Stored, Header;
    HeadsAfter(fl, e, p);
    StoredAt(ram, e, p);
    if Merges(fl, e) { AbsorbedInside(fl, e); }
    if p in PagesOf(fl) {
      assert MixedAt(fl, ram, stale, p);
      if Merges(fl, e) && p == Absorbed(fl[|fl| - 1], e) {
        assert Holds(e, e.base);
        assert e.base in RunPages(e);
        LastNotZero(where, ram, fl);
        BaseOf(fl, |fl| - 1);
      }
    } else {
      assert IsBase(fl, p) ==> p in PagesOf(fl) by { if IsBase(fl, p) { GoodClear(fl); BaseListed(fl, p); } }
    }
  }

  lemma LastNotZero(where: Map, ram: Ram, fl: seq<Run>)
    requires Good(fl) && fl != [] && Headed(where, fl, ram) && fl[|fl| - 1].pages < WORD
    ensures PageAt(ram, fl[|fl| - 1].base) != ZeroBytes()
  {
    var last := fl[|fl| - 1];
    var h := PageAt(ram, last.base)[..HEAD];
    assert h == Header(where, fl, |fl| - 1) && h[LENGTH..HEAD] == Bytes(last.pages, 8);
    assert PageAt(ram, last.base)[LENGTH..HEAD] == h[LENGTH..HEAD];
    LengthNotZero(PageAt(ram, last.base), last.pages);
  }

  // ------------------------------------------------------------------ what a request hands out

  /** A grant cuts its pages from one run: none but its first is or becomes a run head. */
  ghost predicate Cuts(fl: seq<Run>, g: Grant) {
    && RunPages(g.got) <= PagesOf(fl)
    && forall p :: p in RunPages(g.got) && p != g.got.base ==> !IsBase(fl, p) && !IsBase(g.rest, p)
  }

  lemma NoHeadInside(fl: seq<Run>, i: nat, p: nat)
    requires AllClear(fl) && NonEmpty(fl) && i < |fl| && Holds(fl[i], p) && p != fl[i].base
    ensures !IsBase(fl, p)
  {
    forall j | 0 <= j < |fl| ensures fl[j].base != p {
      assert i < j ==> Clear(fl[i], fl[j]);
      assert j < i ==> Clear(fl[j], fl[i]);
    }
  }

  /** Insertion makes no run head but the entry. */
  lemma NoOtherHead(fl: seq<Run>, e: Run, p: nat)
    requires !IsBase(fl, p) && p != e.base
    ensures !IsBase(AddOrdered(fl, e), p)
  {
    if e.pages == 1 && fl != [] && Touches(fl[|fl| - 1], e) {
      var r := AddOrdered(fl, e);
      assert r == fl[..|fl| - 1] + [Merged(fl[|fl| - 1], e)];
      assert fl[|fl| - 1].base != p;
    } else {
      AddBases(fl, e, p);
    }
  }

  lemma RunListed(fl: seq<Run>, i: nat, got: Run)
    requires i < |fl| && fl[i].base <= got.base && got.base + got.pages <= fl[i].base + fl[i].pages
    ensures RunPages(got) <= PagesOf(fl)
  {
    forall p | p in RunPages(got) ensures p in PagesOf(fl) {
      assert Holds(fl[i], p);
      InPages(fl, p);
    }
  }

  /** Every request cuts, whether or not the list is in descending order. */
  lemma ServeCuts(fl: seq<Run>, q: Request)
    requires AllClear(fl) && NonEmpty(fl) && Asks(q) && Serve(fl, q).Some?
    ensures Cuts(fl, Serve(fl, q).value) && Serve(fl, q).value.got.pages >= 1
  {
    hide PagesOf, IsBase, AddOrdered, AllClear;
    var g := Serve(fl, q).value;
    if q.One? || q.n == 1 {
      RunListed(fl, |fl| - 1, g.got);
    } else {
      RunListed(fl, 0, g.got);
      forall p | p in RunPages(g.got) && p != g.got.base ensures !IsBase(fl, p) && !IsBase(g.rest, p) {
        FrontNoHead(fl, q.n, p);
      }
    }
  }

  lemma FrontNoHead(fl: seq<Run>, n: nat, p: nat)
    requires AllClear(fl) && NonEmpty(fl) && fl != [] && n >= 1 && p in RunPages(PopFront(fl, n).got)
    requires p != PopFront(fl, n).got.base
    ensures !IsBase(fl, p) && !IsBase(PopFront(fl, n).rest, p)
  {
    hide IsBase, AddOrdered, AllClear;
    var first, tail := fl[0], fl[1..];
    assert fl == [first] + tail;
    NoHeadInside(fl, 0, p);
    BaseConcat([first], tail, p);
    NoOtherHead(tail, first, p);
    if n < first.pages {
      var e := Run(first.base, first.pages - n);
      NoOtherHead(tail, e, p);
      BaseConcat([e], tail, p);
      BaseOne(e, p);
    }
  }

  /** What is handed out is all zero exactly when no stale entry lies in it, except in its first page, where
      the allocator clears 24 bytes. */
  lemma GivenZeroExactly(where: Map, ram: Ram, fl: seq<Run>, stale: set<nat>, g: Grant)
    requires Mixed(fl, ram, stale) && Cuts(fl, g) && g.got.pages >= 1
    ensures AllZero(Given(where, ram, g), g.got) <==> stale * RunPages(g.got) <= {g.got.base}
  {
    hide PagesOf, IsBase, Linked, Cleared;
    var r := Given(where, ram, g);
    forall p | p in RunPages(g.got) ensures PageAt(r, p) == ZeroBytes() <==> p !in stale || p == g.got.base {
      assert MixedAt(fl, ram, stale, p);
      LinkedElsewhere(where, ram, g.rest, |g.rest|, p);
      LinkedBehind(where, ram, g.rest, p);
      if p == g.got.base { ZeroCleared(PageAt(Linked(where, ram, g.rest, |g.rest|), p)); }
    }
    if AllZero(r, g.got) {
      forall p | p in stale * RunPages(g.got) ensures p == g.got.base { assert PageAt(r, p) == ZeroBytes(); }
    }
    if stale * RunPages(g.got) <= {g.got.base} {
      forall p | p in RunPages(g.got) ensures PageAt(r, p) == ZeroBytes() {
        assert p in stale ==> p in stale * RunPages(g.got);
      }
    }
  }

  ghost predicate AllZero(ram: Ram, got: Run) { forall p :: p in RunPages(got) ==> PageAt(ram, p) == ZeroBytes() }

  /** After a merge into a list in order, the next request, whatever it asks for and even if the merge has
      broken the order of the list, gets pages that are all zero exactly when the absorbed entry does not
      lie among them or lies in the first. */
  lemma MergeHandsOut(where: Map, ram: Ram, fl: seq<Run>, e: Run, q: Request)
    requires Good(fl) && Tidy(fl, ram) && Headed(where, fl, ram) && forall i :: 0 <= i < |fl| ==> fl[i].pages < WORD
    requires Merges(fl, e) && RunPages(e) !! PagesOf(fl) && Asks(q) && Serve(AddOrdered(fl, e), q).Some?
    ensures var g, p := Serve(AddOrdered(fl, e), q).value, Absorbed(fl[|fl| - 1], e);
      AllZero(Given(where, Returned(where, ram, fl, e), g), g.got) <==> p !in RunPages(g.got) || p == g.got.base
  {
    hide PagesOf, RunPages, AddOrdered, Serve, Mixed, Returned, Given, Good, Cuts, AllClear, AllZero, Headed, Tidy;
    var g, p := Serve(AddOrdered(fl, e), q).value, Absorbed(fl[|fl| - 1], e);
    TidyMixed(fl, ram);
    ReturnedMixed(where, ram, fl, {}, e);
    assert StaleAfter(fl, {}, e) == {p};
    AddClear(fl, e);
    ServeCuts(AddOrdered(fl, e), q);
    GivenZeroExactly(where, Returned(where, ram, fl, e), AddOrdered(fl, e), {p}, g);
    assert {p} * RunPages(g.got) == if p in RunPages(g.got) then {p} else {};
  }

  /** Both ways round: from one free run of pages 10 and 11, returning page 12 leaves its entry in memory.  A
      request for two pages then gets page 12 with that entry in it, a request for one page gets it clean. */
  lemma MergeNotZero(where: Map)
    ensures var fl, e := [Run(10, 2)], Run(12, 1);
      var ram := Linked(where, map[], fl, 1);
      var two, one := PopFront(AddOrdered(fl, e), 2), PopRear(AddOrdered(fl, e));
      && Good(fl) && Tidy(fl, ram) && Headed(where, fl, ram)
      && two.got == Run(11, 2) && !AllZero(Given(where, Returned(where, ram, fl, e), two), two.got)
      && one.got == Run(12, 1) && AllZero(Given(where, Returned(where, ram, fl, e), one), one.got)
  {
    hide Linked, Returned, Given, AllZero, Header, Tidy, Headed;
    var fl, e := [Run(10, 2)], Run(12, 1);
    var ram := Linked(where, map[], fl, 1);
    BootMemory(where, fl);
    assert AddOrdered(fl, e) == [Run(10, 3)];
    assert RunPages(e) !! PagesOf(fl) by { ApartOne(fl, e); }
    MergeHandsOut(where, ram, fl, e, Many(2));
    MergeHandsOut(where, ram, fl, e, One);
    assert Holds(Run(11, 2), 12);
  }

  lemma ApartOne(fl: seq<Run>, e: Run)
    requires fl == [Run(10, 2)] && e == Run(12, 1)
    ensures RunPages(e) !! PagesOf(fl)
  {
    PagesOne(fl[0]);
  }

  /** Memory that is zero but for the entries of the list. */
  lemma BootMemory(where: Map, fl: seq<Run>)
    requires Good(fl)
    ensures Tidy(fl, Linked(where, map[], fl, |fl|)) && Headed(where, fl, Linked(where, map[], fl, |fl|))
  {
    hide Linked, Header, PagesOf, IsBase;
    GoodDistinct(fl);
    LinkedOk(where, map[], fl);
    forall p ensures TidyAt(fl, map[], p) {}
  }

  // ------------------------------------------------------------------ every run

  /** Memory and stale entries after a request or a return. */
  ghost function RamAfter(where: Map, fl: seq<Run>, ram: Ram, op: Op): Ram {
    match op
    case Ask(q) => if Serve(fl, q).None? then ram else Given(where, ram, Serve(fl, q).value)
    case Return(e) => Returned(where, ram, fl, e)
  }

  ghost function StaleNext(fl: seq<Run>, stale: set<nat>, op: Op): set<nat> {
    match op
    case Ask(q) => if Serve(fl, q).None? then stale else stale - RunPages(Serve(fl, q).value.got)
    case Return(e) => StaleAfter(fl, stale, e)
  }

  /** The list is good and fits the address space, and memory is as the stale entries say. */
  ghost predicate Kept(where: Map, fl: seq<Run>, ram: Ram, stale: set<nat>) {
    Good(fl) && Mixed(fl, ram, stale) && Headed(where, fl, ram) && Below(fl)
  }

  ghost predicate Below(fl: seq<Run>) { forall p :: p in PagesOf(fl) ==> p < MAX_PAGES }

  lemma BelowWord(fl: seq<Run>)
    requires Below(fl) && NonEmpty(fl)
    ensures forall i :: 0 <= i < |fl| ==> fl[i].pages < WORD
  {
    forall i | 0 <= i < |fl| ensures fl[i].pages < WORD {
      InPages(fl, fl[i].base + fl[i].pages - 1);
      assert Holds(fl[i], fl[i].base + fl[i].pages - 1);
    }
  }

  /** Returned ranges lie in memory. */
  predicate InMemory(op: Op) { op.Return? ==> op.e.base + op.e.pages <= MAX_PAGES }

  /** Every request served in the run gets pages that are all zero exactly when no stale entry lies in them
      except in the first. */
  ghost predicate ZeroAsTold(where: Map, fl: seq<Run>, ram: Ram, stale: set<nat>, ops: seq<Op>)
    decreases |ops|
  {
    ops == [] ||
    (&& (ops[0].Ask? && Serve(fl, ops[0].q).Some? ==>
           var got := Serve(fl, ops[0].q).value.got;
           AllZero(RamAfter(where, fl, ram, ops[0]), got) <==> stale * RunPages(got) <= {got.base})
     && ZeroAsTold(where, After(fl, ops[0]), RamAfter(where, fl, ram, ops[0]), StaleNext(fl, stale, ops[0]), ops[1..]))
  }

  lemma GivenMixed(where: Map, ram: Ram, fl: seq<Run>, stale: set<nat>, g: Grant)
    requires Good(fl) && Mixed(fl, ram, stale) && Takes(fl, g) && HeadsKept(fl, g) && g.got.pages >= 1
    ensures Mixed(g.rest, Given(where, ram, g), stale - RunPages(g.got)) && Headed(where, g.rest, Given(where, ram, g))
  {
    hide PagesOf, IsBase, Linked, Header, Cleared, Good, MixedAt;
    var l, r, s' := Linked(where, ram, g.rest, |g.rest|), Given(where, ram, g), stale - RunPages(g.got);
    GoodDistinct(g.rest);
    LinkedOk(where, ram, g.rest);
    assert Holds(g.got, g.got.base);
    assert g.got.base in RunPages(g.got);
    forall p | p in PagesOf(g.rest) ensures MixedAt(g.rest, r, s', p) {
      assert p in PagesOf(fl) && MixedAt(fl, ram, stale, p);
      SameMixed(fl, g.rest, ram, ram, stale, s', p);
      LinkedMixed(where, ram, g.rest, s', p);
      SameMixed(g.rest, g.rest, l, r, s', s', p);
    }
    forall i | 0 <= i < |g.rest| ensures PageAt(r, g.rest[i].base)[..HEAD] == Header(where, g.rest, i) {
      BaseOf(g.rest, i);
      BaseListed(g.rest, g.rest[i].base);
    }
  }

  lemma SameMixed(fl: seq<Run>, fl': seq<Run>, ram: Ram, ram': Ram, stale: set<nat>, stale': set<nat>, p: nat)
    requires (IsBase(fl', p) <==> IsBase(fl, p)) && PageAt(ram', p) == PageAt(ram, p) && (p in stale' <==> p in stale)
    requires MixedAt(fl, ram, stale, p)
    ensures MixedAt(fl', ram', stale', p)
  {}

  lemma ServeHeads(fl: seq<Run>, q: Request)
    requires Good(fl) && Asks(q) && Serve(fl, q).Some?
    ensures HeadsKept(fl, Serve(fl, q).value)
  {
    hide Good, HeadsKept;
    PopRearHeads(fl);
    if !q.One? { PopFrontHeads(fl, q.n); }
  }

  lemma ReturnDisjoint(fl: seq<Run>, e: Run)
    requires Good(fl) && MayDo(fl, Return(e))
    ensures RunPages(e) !! PagesOf(fl)
  {
    hide PagesOf, RunPages;
    if ApartFrom(e, fl) {
      ApartPages(e, fl);
    } else {
      var init, last := fl[..|fl| - 1], fl[|fl| - 1];
      ApartPages(e, init);
      assert fl == init + [last];
      PagesConcat(init, [last]);
      PagesOne(last);
      TouchingPages(last, e);
    }
  }

  lemma TouchingPages(last: Run, e: Run)
    requires e.pages == 1 && Touches(last, e)
    ensures RunPages(e) !! RunPages(last)
  {}

  lemma StepKept(where: Map, fl: seq<Run>, ram: Ram, stale: set<nat>, op: Op)
    requires Kept(where, fl, ram, stale) && MayDo(fl, op) && InMemory(op)
    ensures Kept(where, After(fl, op), RamAfter(where, fl, ram, op), StaleNext(fl, stale, op))
    ensures op.Ask? && Serve(fl, op.q).Some? ==>
              var got := Serve(fl, op.q).value.got;
              AllZero(RamAfter(where, fl, ram, op), got) <==> stale * RunPages(got) <= {got.base}
  {
    hide PagesOf, RunPages, AddOrdered, Serve, Mixed, Returned, Given, Good, Cuts, AllClear, AllZero, Headed, HeadsKept;
    GoodClear(fl);
    match op
    case Ask(q) =>
      if Serve(fl, q).Some? {
        var g := Serve(fl, q).value;
        ServeTakes(fl, q);
        ServeHeads(fl, q);
        ServeCuts(fl, q);
        GivenZeroExactly(where, ram, fl, stale, g);
        GivenMixed(where, ram, fl, stale, g);
      }
    case Return(e) =>
      ReturnDisjoint(fl, e);
      BelowWord(fl);
      ReturnedMixed(where, ram, fl, stale, e);
      AddGoodExactly(fl, e);
      AddOrderedPages(fl, e);
      RunBelow(e);
  }

  lemma RunBelow(e: Run)
    requires e.base + e.pages <= MAX_PAGES
    ensures forall p :: p in RunPages(e) ==> p < MAX_PAGES
  {}

  /** Over every run of requests and returns that keeps the list in order. */
  lemma {:induction false} ZeroOverRuns(where: Map, fl: seq<Run>, ram: Ram, stale: set<nat>, ops: seq<Op>)
    requires Kept(where, fl, ram, stale) && IsRun(fl, ops) && forall i :: 0 <= i < |ops| ==> InMemory(ops[i])
    ensures ZeroAsTold(where, fl, ram, stale, ops)
    decreases |ops|
  {
    if ops != [] {
      hide Kept, After, RamAfter, StaleNext, MayDo, Serve, AllZero;
      StepKept(where, fl, ram, stale, ops[0]);
      ZeroOverRuns(where, After(fl, ops[0]), RamAfter(where, fl, ram, ops[0]), StaleNext(fl, stale, ops[0]), ops[1..]);
    }
  }
}
