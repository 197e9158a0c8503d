/** The list entries inside free memory (`src/com/mm/pmm.c`): the first page of every free run begins with
    the 24 bytes that link it into the list and tell its length, and everything else that is free is
    zero.  An allocation clears those 24 bytes at the start of what it returns and no more. */
module RunHeads {
  import opened Pages
  import opened Words
  import opened FreeList

  ghost predicate IsBase(fl: seq<Run>, p: nat) { exists i :: 0 <= i < |fl| && fl[i].base == p }

  /** A grant leaves every other run head a run head and makes no new one. */
  ghost predicate HeadsKept(fl: seq<Run>, g: Grant) {
    && (forall p :: p in PagesOf(g.rest) ==> (IsBase(g.rest, p) <==> IsBase(fl, p)))
    && (forall p :: p in RunPages(g.got) && IsBase(fl, p) ==> p == g.got.base)
  }

  lemma BaseConcat(a: seq<Run>, b: seq<Run>, p: nat)
    ensures IsBase(a + b, p) <==> IsBase(a, p) || IsBase(b, p)
  {
    if i :| 0 <= i < |a| && a[i].base == p { assert (a + b)[i].base == p; }
    if i :| 0 <= i < |b| && b[i].base == p { assert (a + b)[|a| + i].base == p; }
    if i :| 0 <= i < |a + b| && (a + b)[i].base == p {
      if i < |a| { assert a[i].base == p; } else { assert b[i - |a|].base == p; }
    }
  }

  lemma BaseOne(r: Run, p: nat)
    ensures IsBase([r], p) <==> r.base == p
  {
    if r.base == p { assert [r][0].base == p; }
  }

  /** The run heads after insertion, when nothing is merged. */
  lemma AddBases(fl: seq<Run>, e: Run, p: nat)
    requires e.pages == 1 && fl != [] ==> !Touches(fl[|fl| - 1], e)
    ensures IsBase(AddOrdered(fl, e), p) <==> IsBase(fl, p) || e.base == p
  {
    hide IsBase;
    BaseOne(e, p);
    BaseConcat(fl, [e], p);
    if e.pages != 1 {
      var k := InsertPos(fl, e.pages);
      BaseConcat(fl[..k], [e], p);
      BaseConcat(fl[..k] + [e], fl[k..], p);
      BaseConcat(fl[..k], fl[k..], p);
      assert fl == fl[..k] + fl[k..];
    } else if fl == [] {
      assert fl + [e] == [e];
    }
  }

  lemma NoBaseInside(r: Run, others: seq<Run>, p: nat)
    requires ApartFrom(r, others) && Holds(r, p)
    ensures !IsBase(others, p)
  {
  }

  lemma PopRearHeads(fl: seq<Run>)
    requires Good(fl) && fl != []
    ensures HeadsKept(fl, PopRear(fl))
  {
    hide IsBase, PagesOf, Descending, AllApart;
    var init, last, g := fl[..|fl| - 1], fl[|fl| - 1], PopRear(fl);
    assert fl == init + [last];
    GoodTail(fl);
    PopRearTakes(fl);
    forall p | p in PagesOf(g.rest) ensures IsBase(g.rest, p) <==> IsBase(fl, p) {
      BaseConcat(init, [last], p);
      BaseOne(last, p);
      var small := Run(last.base, if last.pages > 1 then last.pages - 1 else 0);
      BaseConcat(init, [small], p);
      BaseOne(small, p);
      assert Holds(Run(last.base, 1), last.base);
      assert last.pages <= 1 ==> last.base in RunPages(g.got);
    }
    forall p | p in RunPages(g.got) && IsBase(fl, p) ensures p == g.got.base {
      assert Holds(last, p);
    }
  }

  lemma PopFrontHeads(fl: seq<Run>, n: nat)
    requires Good(fl) && fl != [] && n >= 1
    ensures HeadsKept(fl, PopFront(fl, n)) && PopFront(fl, n).got.pages >= 1
  {
    hide IsBase, PagesOf, Descending, AllApart, AddOrdered;
    var first, tail, g := fl[0], fl[1..], PopFront(fl, n);
    assert fl == [first] + tail;
    GoodTail(fl);
    FirstLargest(fl);
    PopFrontTakes(fl, n);
    var e := Run(first.base, if n < first.pages then first.pages - n else 0);
    forall p | p in PagesOf(g.rest) ensures IsBase(g.rest, p) <==> IsBase(fl, p) {
      BaseConcat([first], tail, p);
      BaseOne(first, p);
      if n < first.pages {
        if e.pages == 1 && tail != [] { assert Apart(first, tail[|tail| - 1]); }
        AddBases(tail, e, p);
        BaseConcat([e], tail, p);
        BaseOne(e, p);
      } else {
        assert Holds(first, first.base);
        assert first.base in RunPages(g.got);
      }
    }
    forall p | p in RunPages(g.got) && IsBase(fl, p) ensures p == g.got.base {
      assert Holds(first, p);
      NoBaseInside(first, tail, p);
      BaseConcat([first], tail, p);
      BaseOne(first, p);
    }
  }

  lemma BaseListed(fl: seq<Run>, p: nat)
    requires NonEmpty(fl) && IsBase(fl, p)
    ensures p in PagesOf(fl)
  {
    var i :| 0 <= i < |fl| && fl[i].base == p;
    assert Holds(fl[i], p);
    InPages(fl, p);
  }

  // ------------------------------------------------------------------ bytes

  /** Physical memory by page number. */
  type Ram = map<nat, Page>

  function PageAt(ram: Ram, p: nat): Page { if p in ram then ram[p] else ZeroBytes() }

  /** sizeof(struct freelist_entry) and the offset of its length. */
  const HEAD: nat := 24
  const LENGTH: nat := 16

  /** The largest number of pages that 64-bit addresses can reach. */
  const MAX_PAGES: nat := 0x10_0000_0000_0000

  /** Where the pointers of an entry point: `hhdm` is the address of page 0, `list` that of the list. */
  datatype Map = Map(hhdm: nat, list: nat)

  function EntryAddress(where: Map, r: Run): nat { where.hhdm + r.base * PAGE_SIZE }

  /** The list entry of run `i`: next, address of the previous link, length. */
  function Header(where: Map, fl: seq<Run>, i: nat): (h: seq<byte>)
    requires i < |fl|
    ensures |h| == HEAD
  {
    Bytes(if i + 1 < |fl| then EntryAddress(where, fl[i + 1]) else 0, 8)
    + Bytes(if i > 0 then EntryAddress(where, fl[i - 1]) else where.list, 8)
    + Bytes(fl[i].pages, 8)
  }

  function WithHead(h: seq<byte>, page: Page): Page
    requires |h| == HEAD
  {
    h + page[HEAD..]
  }

  /** The store of a zeroed list entry. */
  function Cleared(page: Page): Page { WithHead(Zeros(HEAD), page) }

  /** The store of an entry's length. */
  function WithLength(page: Page, n: nat): Page { page[..LENGTH] + Bytes(n, 8) + page[HEAD..] }

  ghost predicate ZeroBehind(page: Page) { forall i :: HEAD <= i < PAGE_SIZE ==> page[i] == 0 }

  /** The entries of the first `k` runs as the list operations leave them. */
  function Linked(where: Map, ram: Ram, fl: seq<Run>, k: nat): Ram
    requires k <= |fl|
  {
    if k == 0 then ram
    else
      var r := Linked(where, ram, fl, k - 1);
      r[fl[k - 1].base := WithHead(Header(where, fl, k - 1), PageAt(r, fl[k - 1].base))]
  }

  ghost predicate Headed(where: Map, fl: seq<Run>, ram: Ram) {
    forall i :: 0 <= i < |fl| ==> PageAt(ram, fl[i].base)[..HEAD] == Header(where, fl, i)
  }

  ghost predicate TidyAt(fl: seq<Run>, ram: Ram, p: nat) {
    if IsBase(fl, p) then ZeroBehind(PageAt(ram, p)) else PageAt(ram, p) == ZeroBytes()
  }

  /** Free memory is zero apart from the list entries. */
  ghost predicate Tidy(fl: seq<Run>, ram: Ram) { forall p :: p in PagesOf(fl) ==> TidyAt(fl, ram, p) }

  /** Only the heads of run heads change. */
  lemma {:induction false} LinkedElsewhere(where: Map, ram: Ram, fl: seq<Run>, k: nat, p: nat)
    requires k <= |fl|
    ensures PageAt(Linked(where, ram, fl, k), p)[HEAD..] == PageAt(ram, p)[HEAD..]
    ensures !IsBase(fl, p) ==> PageAt(Linked(where, ram, fl, k), p) == PageAt(ram, p)
    decreases k
  {
    if k > 0 {
      hide Header;
      LinkedElsewhere(where, ram, fl, k - 1, p);
      assert fl[k - 1].base == p ==> IsBase(fl, p);
    }
  }

  predicate Distinct(fl: seq<Run>) { forall i, j :: 0 <= i < j < |fl| ==> fl[i].base != fl[j].base }

  lemma GoodDistinct(fl: seq<Run>)
    requires Good(fl)
    ensures Distinct(fl) && NonEmpty(fl)
  {
    forall i, j | 0 <= i < j < |fl| ensures fl[i].base != fl[j].base { assert Apart(fl[i], fl[j]); }
  }

  lemma {:induction false} LinkedHeads(where: Map, ram: Ram, fl: seq<Run>, k: nat, i: nat)
    requires i < k <= |fl| && Distinct(fl)
    ensures PageAt(Linked(where, ram, fl, k), fl[i].base)[..HEAD] == Header(where, fl, i)
    decreases k
  {
    hide Header;
    if i < k - 1 { LinkedHeads(where, ram, fl, k - 1, i); }
  }

  lemma ZeroCleared(page: Page)
    requires ZeroBehind(page)
    ensures Cleared(page) == ZeroBytes()
  {}

  lemma BehindSame(a: Page, b: Page)
    requires a[HEAD..] == b[HEAD..] && ZeroBehind(a)
    ensures ZeroBehind(b)
  {
    forall i | HEAD <= i < PAGE_SIZE ensures b[i] == 0 { assert b[HEAD..][i - HEAD] == a[HEAD..][i - HEAD]; }
  }

  /** Memory after a list operation left `fl`: headed, and tidy wherever it was tidy before. */
  lemma LinkedOk(where: Map, ram: Ram, fl: seq<Run>)
    requires Distinct(fl) && NonEmpty(fl)
    ensures Headed(where, fl, Linked(where, ram, fl, |fl|))
    ensures forall p :: TidyAt(fl, ram, p) ==> TidyAt(fl, Linked(where, ram, fl, |fl|), p)
    ensures forall p :: p !in PagesOf(fl) ==> PageAt(Linked(where, ram, fl, |fl|), p) == PageAt(ram, p)
    ensures forall p :: ZeroBehind(PageAt(ram, p)) ==> ZeroBehind(PageAt(Linked(where, ram, fl, |fl|), p))
  {
    hide Linked, Header, IsBase, PagesOf, Distinct, NonEmpty;
    var r := Linked(where, ram, fl, |fl|);
    forall i | 0 <= i < |fl| ensures PageAt(r, fl[i].base)[..HEAD] == Header(where, fl, i) {
      LinkedHeads(where, ram, fl, |fl|, i);
    }
    forall p ensures ZeroBehind(PageAt(ram, p)) ==> ZeroBehind(PageAt(r, p)) { LinkedBehind(where, ram, fl, p); }
    forall p | TidyAt(fl, ram, p) ensures TidyAt(fl, r, p) {
      LinkedBehind(where, ram, fl, p);
      LinkedElsewhere(where, ram, fl, |fl|, p);
    }
    forall p | p !in PagesOf(fl) ensures PageAt(r, p) == PageAt(ram, p) {
      LinkedElsewhere(where, ram, fl, |fl|, p);
      NotListed(fl, p);
    }
  }

  lemma NotListed(fl: seq<Run>, p: nat)
    requires NonEmpty(fl) && p !in PagesOf(fl)
    ensures !IsBase(fl, p)
  {
    if IsBase(fl, p) { BaseListed(fl, p); }
  }

  lemma LinkedBehind(where: Map, ram: Ram, fl: seq<Run>, p: nat)
    ensures ZeroBehind(PageAt(ram, p)) ==> ZeroBehind(PageAt(Linked(where, ram, fl, |fl|), p))
  {
    hide Linked;
    LinkedElsewhere(where, ram, fl, |fl|, p);
    if ZeroBehind(PageAt(ram, p)) { BehindSame(PageAt(ram, p), PageAt(Linked(where, ram, fl, |fl|), p)); }
  }

  /** Following the list through memory: each run's first page holds its length, the address of the next run or
      null, and the address of the previous one or of the list. */
  lemma LinksLead(where: Map, fl: seq<Run>, ram: Ram, i: nat)
    requires Headed(where, fl, ram) && i < |fl| && fl[i].pages < WORD && where.list < WORD
    requires forall j :: 0 <= j < |fl| ==> where.hhdm + fl[j].base * PAGE_SIZE < WORD
    ensures var h := PageAt(ram, fl[i].base);
      && Value(h[..8]) == (if i + 1 < |fl| then where.hhdm + fl[i + 1].base * PAGE_SIZE else 0)
      && Value(h[8..16]) == (if i > 0 then where.hhdm + fl[i - 1].base * PAGE_SIZE else where.list)
      && Value(h[16..24]) == fl[i].pages
  {
    hide Bytes, Value, Header;
    var h := PageAt(ram, fl[i].base);
    HeaderParts(where, fl, i, h);
    WordRange();
    BytesValue(if i + 1 < |fl| then where.hhdm + fl[i + 1].base * PAGE_SIZE else 0, 8);
    BytesValue(if i > 0 then where.hhdm + fl[i - 1].base * PAGE_SIZE else where.list, 8);
    BytesValue(fl[i].pages, 8);
  }

  lemma HeaderParts(where: Map, fl: seq<Run>, i: nat, page: Page)
    requires i < |fl| && page[..HEAD] == Header(where, fl, i)
    ensures page[..8] == Bytes(if i + 1 < |fl| then where.hhdm + fl[i + 1].base * PAGE_SIZE else 0, 8)
    ensures page[8..16] == Bytes(if i > 0 then where.hhdm + fl[i - 1].base * PAGE_SIZE else where.list, 8)
    ensures page[16..24] == Bytes(fl[i].pages, 8)
  {
    hide Bytes;
    var e := page[..HEAD];
    assert page[..8] == e[..8] && page[8..16] == e[8..16] && page[16..24] == e[16..24];
  }

  // ------------------------------------------------------------------ handing out

  /** Memory after the list operation of a grant and the store that clears its first 24 bytes. */
  function Given(where: Map, ram: Ram, g: Grant): Ram {
    var r := Linked(where, ram, g.rest, |g.rest|);
    r[g.got.base := Cleared(PageAt(r, g.got.base))]
  }

  /** After a grant the pages handed out are all zero, what is left free is in order, and no page that was
      not free has changed. */
  lemma GivenOk(where: Map, ram: Ram, fl: seq<Run>, g: Grant)
    requires Good(fl) && Tidy(fl, ram) && Takes(fl, g) && HeadsKept(fl, g) && g.got.pages >= 1
    ensures var r := Given(where, ram, g);
      && Tidy(g.rest, r) && Headed(where, g.rest, r)
      && (forall p :: p in RunPages(g.got) ==> PageAt(r, p) == ZeroBytes())
      && (forall p :: p !in PagesOf(fl) ==> PageAt(r, p) == PageAt(ram, p))
  {
    hide PagesOf, Good, IsBase, Linked, Header, Cleared, TidyAt, ZeroBehind;
    var l := Linked(where, ram, g.rest, |g.rest|);
    var r := Given(where, ram, g);
    GoodDistinct(g.rest);
    LinkedOk(where, ram, g.rest);
    assert Holds(g.got, g.got.base);
    assert g.got.base in RunPages(g.got);
    forall p | p in PagesOf(g.rest) ensures TidyAt(g.rest, r, p) {
      assert p in PagesOf(fl);
      TidySame(fl, g.rest, ram, ram, p);
      TidySame(g.rest, g.rest, l, r, p);
    }
    forall i | 0 <= i < |g.rest| ensures PageAt(r, g.rest[i].base)[..HEAD] == Header(where, g.rest, i) {
      BaseOf(g.rest, i);
      BaseListed(g.rest, g.rest[i].base);
    }
    forall p | p in RunPages(g.got) ensures PageAt(r, p) == ZeroBytes() {
      assert p !in PagesOf(g.rest) && p in PagesOf(fl);
      GotZero(fl, ram, p);
      if p == g.got.base { ZeroCleared(PageAt(ram, p)); }
    }
  }

  lemma BaseOf(fl: seq<Run>, i: nat)
    requires i < |fl| && Good(fl)
    ensures IsBase(fl, fl[i].base) && NonEmpty(fl) && fl[i].pages >= 1
  {}

  lemma TidySame(fl: seq<Run>, fl': seq<Run>, ram: Ram, ram': Ram, p: nat)
    requires (IsBase(fl', p) <==> IsBase(fl, p)) && PageAt(ram', p) == PageAt(ram, p) && TidyAt(fl, ram, p)
    ensures TidyAt(fl', ram', p)
  {}

  lemma GotZero(fl: seq<Run>, ram: Ram, p: nat)
    requires TidyAt(fl, ram, p)
    ensures ZeroBehind(PageAt(ram, p)) && (!IsBase(fl, p) ==> PageAt(ram, p) == ZeroBytes())
  {}

  /** The same stores when no page is asked for: the 24 bytes past the first run are cleared, whoever owns
      them. */
  lemma GivenNone(where: Map, ram: Ram, fl: seq<Run>, p: nat)
    requires Good(fl) && Tidy(fl, ram) && p !in PagesOf(fl)
    ensures var r := Given(where, ram, Grant(fl, Run(p, 0)));
      && Tidy(fl, r) && Headed(where, fl, r)
      && PageAt(r, p) == Cleared(PageAt(ram, p))
      && (forall q :: q !in PagesOf(fl) && q != p ==> PageAt(r, q) == PageAt(ram, q))
  {
    hide PagesOf, Good, IsBase, Linked, Header, Cleared, TidyAt, ZeroBehind;
    var l := Linked(where, ram, fl, |fl|);
    var r := Given(where, ram, Grant(fl, Run(p, 0)));
    GoodDistinct(fl);
    LinkedOk(where, ram, fl);
    forall q | q in PagesOf(fl) ensures TidyAt(fl, r, q) { TidySame(fl, fl, l, r, q); }
    forall i | 0 <= i < |fl| ensures PageAt(r, fl[i].base)[..HEAD] == Header(where, fl, i) {
      BaseOf(fl, i);
      BaseListed(fl, fl[i].base);
    }
  }

  // ------------------------------------------------------------------ taking back

  /** `kmemset` of a range. */
  function Wiped(ram: Ram, e: Run): Ram {
    map p | p in ram.Keys + RunPages(e) :: if p in RunPages(e) then ZeroBytes() else PageAt(ram, p)
  }

  /** Memory after `com_mm_pmm_unreserve_many`: the range is zeroed, its length stored, the list linked. */
  function Returned(where: Map, ram: Ram, fl: seq<Run>, e: Run): Ram {
    var w := Wiped(ram, e);
    var fl' := AddOrdered(fl, e);
    Linked(where, w[e.base := WithLength(PageAt(w, e.base), e.pages)], fl', |fl'|)
  }

  /** Returning a range leaves free memory in order exactly unless the range is merged into the last run: a
      merge leaves the entry of the absorbed run in the middle of the grown one. */
  lemma ReturnedTidy(where: Map, ram: Ram, fl: seq<Run>, e: Run)
    requires Good(fl) && Tidy(fl, ram) && Headed(where, fl, ram) && e.pages >= 1 && RunPages(e) !! PagesOf(fl)
    requires forall i :: 0 <= i < |fl| ==> fl[i].pages < WORD
    ensures Tidy(AddOrdered(fl, e), Returned(where, ram, fl, e))
       <==> !(e.pages == 1 && fl != [] && Touches(fl[|fl| - 1], e))
    ensures Headed(where, AddOrdered(fl, e), Returned(where, ram, fl, e))
    ensures forall p :: p !in PagesOf(fl) + RunPages(e) ==> PageAt(Returned(where, ram, fl, e), p) == PageAt(ram, p)
  {
    hide PagesOf, IsBase, AddOrdered, Linked, Header, TidyAt, ZeroBehind, WithLength, Good, Distinct, NonEmpty;
    var fl' := AddOrdered(fl, e);
    var w := Wiped(ram, e);
    var r := w[e.base := WithLength(PageAt(w, e.base), e.pages)];
    AddDistinct(fl, e);
    LinkedOk(where, r, fl');
    AddOrderedPages(fl, e);
    assert Holds(e, e.base);
    assert e.base in RunPages(e);
    if e.pages == 1 && fl != [] && Touches(fl[|fl| - 1], e) {
      MergedHead(where, ram, fl, e);
    } else {
      forall p | p in PagesOf(fl') ensures TidyAt(fl', r, p) { ReturnedAt(ram, fl, e, p); }
    }
  }

  lemma AddDistinct(fl: seq<Run>, e: Run)
    requires Good(fl) && e.pages >= 1 && RunPages(e) !! PagesOf(fl)
    ensures Distinct(AddOrdered(fl, e)) && NonEmpty(AddOrdered(fl, e))
  {
    hide PagesOf;
    GoodDistinct(fl);
    assert Holds(e, e.base);
    assert e.base in RunPages(e);
    forall i | 0 <= i < |fl| ensures fl[i].base != e.base {
      BaseOf(fl, i);
      BaseListed(fl, fl[i].base);
    }
    if e.pages != 1 {
      InsertDistinct(fl, InsertPos(fl, e.pages), e);
      InsertNonEmpty(fl, InsertPos(fl, e.pages), e);
    }
  }

  lemma InsertDistinct(fl: seq<Run>, k: nat, e: Run)
    requires Distinct(fl) && k <= |fl| && forall i :: 0 <= i < |fl| ==> fl[i].base != e.base
    ensures Distinct(InsertAt(fl, k, e))
  {
    var r := InsertAt(fl, k, e);
    forall i, j | 0 <= i < j < |r| ensures r[i].base != r[j].base {
      var a, b := if i < k then i else i - 1, if j < k then j else j - 1;
      if i == k { assert r[j] == fl[b]; }
      else if j == k { assert r[i] == fl[a]; }
      else { assert r[i] == fl[a] && r[j] == fl[b]; }
    }
  }

  /** The page whose entry a merge leaves behind. */
  function Absorbed(last: Run, e: Run): nat { if e.base == last.base + last.pages then e.base else last.base }

  lemma AbsorbedInside(fl: seq<Run>, e: Run)
    requires Good(fl) && RunPages(e) !! PagesOf(fl) && e.pages == 1 && fl != [] && Touches(fl[|fl| - 1], e)
    ensures var p := Absorbed(fl[|fl| - 1], e);
      p in PagesOf(AddOrdered(fl, e)) && !IsBase(AddOrdered(fl, e), p) && fl[|fl| - 1].base in PagesOf(fl)
  {
    hide PagesOf, IsBase, Descending, AllApart;
    var init, last := fl[..|fl| - 1], fl[|fl| - 1];
    var p := Absorbed(last, e);
    AddOrderedPages(fl, e);
    GoodTail(fl);
    BaseOf(fl, |fl| - 1);
    BaseListed(fl, last.base);
    assert Holds(e, e.base) && e.base in RunPages(e);
    assert AddOrdered(fl, e) == init + [Merged(last, e)];
    BaseConcat(init, [Merged(last, e)], p);
    BaseOne(Merged(last, e), p);
    assert fl == init + [last];
    BaseConcat(init, [last], e.base);
    if IsBase(init, e.base) { BaseListed(fl, e.base); }
    NoBaseInside(last, init, last.base);
  }

  lemma MergedHead(where: Map, ram: Ram, fl: seq<Run>, e: Run)
    requires Good(fl) && Headed(where, fl, ram) && RunPages(e) !! PagesOf(fl)
    requires e.pages == 1 && fl != [] && Touches(fl[|fl| - 1], e) && fl[|fl| - 1].pages < WORD
    ensures !Tidy(AddOrdered(fl, e), Returned(where, ram, fl, e))
  {
    hide PagesOf, IsBase, AddOrdered, Linked, Good;
    var fl', last := AddOrdered(fl, e), fl[|fl| - 1];
    var w, p := Wiped(ram, e), Absorbed(last, e);
    var r := w[e.base := WithLength(PageAt(w, e.base), e.pages)];
    BaseOf(fl, |fl| - 1);
    AbsorbedInside(fl, e);
    LinkedElsewhere(where, r, fl', |fl'|, p);
    AbsorbedLength(where, ram, fl, e);
    LengthNotZero(PageAt(r, p), if p == e.base then 1 else last.pages);
    assert !TidyAt(fl', Returned(where, ram, fl, e), p);
  }

  lemma AbsorbedLength(where: Map, ram: Ram, fl: seq<Run>, e: Run)
    requires Headed(where, fl, ram) && e.pages == 1 && fl != [] && fl[|fl| - 1].base !in RunPages(e)
    ensures var last, w := fl[|fl| - 1], Wiped(ram, e);
      var r := w[e.base := WithLength(PageAt(w, e.base), e.pages)];
      && PageAt(r, e.base)[LENGTH..HEAD] == Bytes(1, 8)
      && PageAt(r, last.base)[LENGTH..HEAD] == Bytes(last.pages, 8)
  {
    var last, w := fl[|fl| - 1], Wiped(ram, e);
    assert Holds(e, e.base) && e.base in RunPages(e);
    var h := PageAt(ram, last.base)[..HEAD];
    assert h == Header(where, fl, |fl| - 1) && h[LENGTH..HEAD] == Bytes(last.pages, 8);
    assert PageAt(ram, last.base)[LENGTH..HEAD] == h[LENGTH..HEAD];
    assert PageAt(w, last.base) == PageAt(ram, last.base);
  }

  lemma ReturnedAt(ram: Ram, fl: seq<Run>, e: Run, p: nat)
    requires Good(fl) && Tidy(fl, ram) && e.pages >= 1 && RunPages(e) !! PagesOf(fl) && p in PagesOf(AddOrdered(fl, e))
    requires !(e.pages == 1 && fl != [] && Touches(fl[|fl| - 1], e))
    ensures var w := Wiped(ram, e); TidyAt(AddOrdered(fl, e), w[e.base := WithLength(PageAt(w, e.base), e.pages)], p)
  {
    hide PagesOf, IsBase, AddOrdered;
    AddOrderedPages(fl, e);
    AddBases(fl, e, p);
    if p in RunPages(e) && IsBase(fl, p) { BaseListed(fl, p); }
  }

  lemma LengthNotZero(page: Page, n: nat)
    requires 1 <= n < WORD && page[LENGTH..HEAD] == Bytes(n, 8)
    ensures page != ZeroBytes()
  {
    WordRange();
    BytesValue(n, 8);
    if page == ZeroBytes() {
      assert Bytes(n, 8) == Zeros(8) by { assert page[LENGTH..HEAD] == Zeros(8); }
      ZerosValue(8);
    }
  }

  lemma {:induction false} ZerosValue(n: nat)
    ensures Value(Zeros(n)) == 0
  {
    if n > 0 {
      assert Zeros(n)[1..] == Zeros(n - 1);
      ZerosValue(n - 1);
    }
  }
}
