/** Regular files of `src/com/fs/tmpfs.c`: pages in a four-layer radix tree (`src/com/fs/pagecache.c`)
    refining a flat sequence of bytes. */
module Tmpfs {
  import opened Options
  import opened Pages
  import opened Arith
  import opened Queues
  import opened Digits
  import opened Radix

  /** The largest file the four layers can index. */
  const MAX_FILE: nat := 0x1_0000_0000_0000

  /** One past the largest 64-bit number. */
  const TOP: nat := 0x1_0000_0000_0000_0000

  lemma Wraps(off: nat, len: nat)
    requires off < TOP && len < TOP
    ensures (off + len) % TOP == if off + len < TOP then off + len else off + len - TOP
  {}

  /** Every cached page exists and belongs to one index only. */
  ghost predicate CacheOk(cache: map<nat, nat>, data: map<nat, Page>) {
    && (forall i :: i in cache ==> cache[i] in data)
    && (forall i, j :: i in cache && j in cache && i != j ==> cache[i] != cache[j])
  }

  /** Byte `x` of the file, zero where no page is cached. */
  function ByteAt(cache: map<nat, nat>, data: map<nat, Page>, x: nat): byte {
    var i := x / PAGE_SIZE;
    if i in cache && cache[i] in data then data[cache[i]][x % PAGE_SIZE] else 0
  }

  /** The file as the bytes below its size. */
  function Flat(cache: map<nat, nat>, data: map<nat, Page>, size: nat): seq<byte> {
    seq<byte>(size, x requires 0 <= x < size => ByteAt(cache, data, x))
  }

  /** Nothing is stored at or past the size. */
  ghost predicate ZeroPast(cache: map<nat, nat>, data: map<nat, Page>, size: nat) {
    forall x: nat :: x >= size ==> ByteAt(cache, data, x) == 0
  }

  /** What a flat file becomes when `buf` is written at `off`: the gap before it is filled with zeros. */
  function Overlay(file: seq<byte>, off: nat, buf: seq<byte>): seq<byte> {
    seq<byte>(Max(|file|, off + |buf|), x requires 0 <= x =>
      if off <= x < off + |buf| then buf[x - off] else if x < |file| then file[x] else 0)
  }

  /** The slice a read of `len` bytes at `off` returns. */
  function Clipped(file: seq<byte>, off: nat, len: nat): seq<byte> {
    if off >= |file| then [] else if off + len >= |file| then file[off..] else file[off..off + len]
  }

  /** How much a read returns: what was asked for, or what there is up to the end of the file. */
  lemma ClippedLaw(file: seq<byte>, off: nat, len: nat)
    ensures |Clipped(file, off, len)|
         == if off >= |file| then 0 else if len < |file| - off then len else |file| - off
    ensures forall x :: 0 <= x < |Clipped(file, off, len)| ==> Clipped(file, off, len)[x] == file[off + x]
  {}

  /** The file after a write: it grows only if the write ends past its end; the bytes written are in place,
      the others stay, and a gap is zero. */
  lemma OverlayLaw(file: seq<byte>, off: nat, buf: seq<byte>)
    ensures |Overlay(file, off, buf)| == if |file| < off + |buf| then off + |buf| else |file|
    ensures forall x :: 0 <= x < |Overlay(file, off, buf)| ==>
              Overlay(file, off, buf)[x]
              == if off <= x < off + |buf| then buf[x - off] else if x < |file| then file[x] else 0
  {}

  /** A read sees exactly what was written, and elsewhere what was there before. */
  lemma ReadBack(file: seq<byte>, off: nat, buf: seq<byte>)
    requires buf != []
    ensures Clipped(Overlay(file, off, buf), off, |buf|) == buf
    ensures forall o, n :: 0 <= o && 0 <= n && o + n <= |file| && (o + n <= off || off + |buf| <= o) ==>
              Clipped(Overlay(file, off, buf), o, n) == Clipped(file, o, n)
  {
    var g := Overlay(file, off, buf);
    forall o, n | 0 <= o && 0 <= n && o + n <= |file| && (o + n <= off || off + |buf| <= o)
      ensures Clipped(g, o, n) == Clipped(file, o, n)
    {
      if o < |file| { assert g[o..o + n] == file[o..o + n]; }
    }
    assert g[off..off + |buf|] == buf;
  }

  lemma PageInRange(x: nat)
    requires x < MAX_FILE
    ensures InRange(4, x / PAGE_SIZE)
  {
    var i := x / PAGE_SIZE;
    assert Up(1, i) == i / 512;
    assert Up(2, i) == i / 512 / 512;
    assert Up(3, i) == i / 512 / 512 / 512;
    assert Up(4, i) == i / 512 / 512 / 512 / 512;
  }

  // ------------------------------------------------------------------ reading

  lemma PageSlice(cache: map<nat, nat>, data: map<nat, Page>, size: nat, cur: nat, end: nat)
    requires cur <= end <= size && cur / PAGE_SIZE * PAGE_SIZE + PAGE_SIZE >= end
    ensures var i, o := cur / PAGE_SIZE, cur % PAGE_SIZE;
      Flat(cache, data, size)[cur..end] ==
      if i in cache && cache[i] in data then data[cache[i]][o..o + (end - cur)] else seq<byte>(end - cur, _ => 0)
  {
    var i, o, f := cur / PAGE_SIZE, cur % PAGE_SIZE, Flat(cache, data, size);
    forall x | cur <= x < end
      ensures f[x] == if i in cache && cache[i] in data then data[cache[i]][o + (x - cur)] else 0
    {
      assert x / PAGE_SIZE == i && x % PAGE_SIZE == o + (x - cur);
    }
  }

  // ------------------------------------------------------------------ writing

  /** The bytes of `buf` up to position `cur` of the file are in place and nothing else has changed. */
  ghost predicate WrittenTo(cache0: map<nat, nat>, data0: map<nat, Page>, cache: map<nat, nat>, data: map<nat, Page>,
                            off: nat, buf: seq<byte>, cur: nat) {
    && off <= cur <= off + |buf|
    && forall x: nat :: ByteAt(cache, data, x) == if off <= x < cur then buf[x - off] else ByteAt(cache0, data0, x)
  }

  /** `com_fs_pagecache_default` on a miss: a zeroed page changes no byte. */
  lemma DefaultSame(cache: map<nat, nat>, data: map<nat, Page>, i: nat, page: nat, size: nat)
    requires CacheOk(cache, data) && i !in cache && page !in data && ZeroPast(cache, data, size)
    ensures CacheOk(cache[i := page], data[page := ZeroBytes()])
    ensures forall x: nat :: ByteAt(cache[i := page], data[page := ZeroBytes()], x) == ByteAt(cache, data, x)
    ensures ZeroPast(cache[i := page], data[page := ZeroBytes()], size)
  {
    var c, d := cache[i := page], data[page := ZeroBytes()];
    forall x: nat ensures ByteAt(c, d, x) == ByteAt(cache, data, x) {}
  }

  lemma PatchAt(page: Page, o: nat, chunk: seq<byte>, y: nat)
    requires o + |chunk| <= PAGE_SIZE && y < PAGE_SIZE
    ensures Patch(page, o, chunk)[y] == if o <= y < o + |chunk| then chunk[y - o] else page[y]
  {}

  lemma PatchStep(cache0: map<nat, nat>, data0: map<nat, Page>, cache: map<nat, nat>, data: map<nat, Page>,
                  off: nat, buf: seq<byte>, cur: nat, end: nat)
    requires CacheOk(cache, data) && WrittenTo(cache0, data0, cache, data, off, buf, cur)
    requires cur / PAGE_SIZE in cache && cur <= end <= off + |buf| && end <= cur / PAGE_SIZE * PAGE_SIZE + PAGE_SIZE
    ensures var p := cache[cur / PAGE_SIZE];
            var d := data[p := Patch(data[p], cur % PAGE_SIZE, buf[cur - off..end - off])];
            CacheOk(cache, d) && WrittenTo(cache0, data0, cache, d, off, buf, end)
  {
    hide Patch;
    var i, o := cur / PAGE_SIZE, cur % PAGE_SIZE;
    var p, chunk := cache[i], buf[cur - off..end - off];
    var d := data[p := Patch(data[p], o, chunk)];
    forall x: nat ensures ByteAt(cache, d, x) == if off <= x < end then buf[x - off] else ByteAt(cache0, data0, x) {
      assert ByteAt(cache, data, x) == if off <= x < cur then buf[x - off] else ByteAt(cache0, data0, x);
      if x / PAGE_SIZE == i {
        PatchAt(data[p], o, chunk, x % PAGE_SIZE);
      } else {
        assert !(cur <= x < end);
      }
    }
  }

  lemma WrittenAll(cache0: map<nat, nat>, data0: map<nat, Page>, cache: map<nat, nat>, data: map<nat, Page>,
                   size: nat, off: nat, buf: seq<byte>)
    requires WrittenTo(cache0, data0, cache, data, off, buf, off + |buf|) && ZeroPast(cache0, data0, size)
    ensures ZeroPast(cache, data, Max(size, off + |buf|))
    ensures Flat(cache, data, Max(size, off + |buf|)) == Overlay(Flat(cache0, data0, size), off, buf)
  {
    hide ByteAt;
    var f, g := Flat(cache, data, Max(size, off + |buf|)), Overlay(Flat(cache0, data0, size), off, buf);
    forall x: nat | x < |f| ensures f[x] == g[x] {
      assert ByteAt(cache, data, x) == if off <= x < off + |buf| then buf[x - off] else ByteAt(cache0, data0, x);
    }
  }

  class File {
    const tree: RadixTree
    const isDir: bool
    var size: nat
    var data: map<nat, Page>
    /** Fresh zeroed pages from the physical allocator. */
    var zeroed: seq<nat>

    ghost predicate Valid()
      reads this, tree
    {
      && tree.Valid() && tree.layers == 4 && size <= MAX_FILE
      && CacheOk(tree.contents, data) && ZeroPast(tree.contents, data, size)
      && FreshPages(data, zeroed)
    }

    /** An empty file or a directory, over a new page cache. */
    constructor (dir: bool, nodePages: seq<nat>, dataPages: seq<nat>)
      requires |nodePages| >= 1 && NoDup(nodePages) && 0 !in nodePages && NoDup(dataPages) && 0 !in dataPages
      ensures Valid() && fresh(tree) && Bytes() == [] && isDir == dir
      ensures zeroed == dataPages && tree.pool == nodePages[1..]
    {
      isDir, size, data, zeroed := dir, 0, map[], dataPages;
      tree := new RadixTree(4, nodePages);
    }

    ghost function Bytes(): seq<byte>
      reads this, tree
    {
      Flat(tree.contents, data, size)
    }

    /** `com_fs_tmpfs_read`: the slice of the file clipped to its size, or EISDIR; nothing when the end of
        the range wraps round at 2^64. */
    method Read(off: nat, buflen: nat) returns (out: Option<seq<byte>>)
      requires Valid() && off < TOP && buflen < TOP
      ensures out
           == if isDir then None else if off + buflen >= TOP then Some([]) else Some(Clipped(Bytes(), off, buflen))
    {
      if isDir {
        return None;
      }
      if off >= size {
        return Some([]);
      }
      var stop := (off + buflen) % TOP;
      Wraps(off, buflen);
      if stop >= size {
        stop := size;
      }
      ghost var f := Bytes();
      hide Flat, ByteAt, Rooted, Stores, PoolOk, CacheOk, ZeroPast, FreshPages;
      var buf: seq<byte> := [];
      var cur := off;
      FlatSize(tree.contents, data, size);
      while cur < stop
        invariant off <= cur && (cur <= stop || cur == off) && cur <= size && buf == f[off..cur]
      {
        var chunk, end := ReadTurn(cur, stop);
        buf := buf + chunk;
        assert f[off..end] == f[off..cur] + f[cur..end];
        cur := end;
      }
      assert f[off..size] == f[off..];
      out := Some(buf);
    }

    /** One turn of the loop of `com_fs_tmpfs_read`: up to the end of the page or to `stop`. */
    method ReadTurn(cur: nat, stop: nat) returns (chunk: seq<byte>, end: nat)
      requires Valid() && cur < stop <= size
      ensures cur < end <= stop && end <= |Bytes()| && chunk == Bytes()[cur..end]
    {
      hide Flat, ByteAt, Rooted, Stores, PoolOk, InRange;
      PageInRange(cur);
      var page := tree.Get(cur / PAGE_SIZE);
      end := cur / PAGE_SIZE * PAGE_SIZE + PAGE_SIZE;
      if end > stop {
        end := stop;
      }
      FlatSize(tree.contents, data, size);
      PageSlice(tree.contents, data, size, cur, end);
      Fits(cur, end);
      if page.Some? {
        var o := cur % PAGE_SIZE;
        chunk := data[page.value][o..o + (end - cur)];
      } else {
        chunk := seq<byte>(end - cur, _ => 0);
      }
    }

    /** `com_fs_pagecache_default`: the page at index `i`, a new zeroed one if there was none. */
    method Default(i: nat) returns (page: nat)
      requires Valid() && InRange(4, i) && |zeroed| >= 1 && |tree.pool| >= 4
      modifies this`data, this`zeroed, tree
      ensures Valid() && i in tree.contents && tree.contents[i] == page
      ensures forall x: nat :: ByteAt(tree.contents, data, x) == ByteAt(old(tree.contents), old(data), x)
      ensures |zeroed| >= |old(zeroed)| - 1 && |tree.pool| >= |old(tree.pool)| - 4
    {
      hide Flat, Rooted, Stores, FreshPages, CacheOk, ZeroPast;
      var r := tree.Get(i);
      if r.Some? {
        return r.value;
      }
      page := zeroed[0];
      TakePage(data, zeroed);
      DefaultSame(tree.contents, data, i, page, size);
      hide ByteAt;
      data := data[page := ZeroBytes()];
      zeroed := zeroed[1..];
      tree.Put(i, page);
    }

    /** `com_fs_tmpfs_write`: EISDIR for directories, else exactly [off, off + |buf|) is set, a gap before it
        reads as zeros, and everything else stays.  For an empty write no count is stored. */
    method Write(off: nat, buf: seq<byte>) returns (ok: bool, count: Option<nat>)
      requires Valid() && off + |buf| <= MAX_FILE
      requires |zeroed| >= PagesFor(buf) && |tree.pool| >= 4 * PagesFor(buf)
      modifies this`size, this`data, this`zeroed, tree
      ensures Valid() && ok == !isDir
      ensures Bytes() == if isDir || buf == [] then old(Bytes()) else Overlay(old(Bytes()), off, buf)
      ensures count == if isDir || buf == [] then None else Some(|buf|)
      ensures size == if !isDir && buf != [] && old(size) < off + |buf| then off + |buf| else old(size)
      ensures |zeroed| >= |old(zeroed)| - PagesFor(buf) && |tree.pool| >= |old(tree.pool)| - 4 * PagesFor(buf)
    {
      if isDir {
        return false, None;
      }
      if |buf| == 0 {
        return true, None;
      }
      WriteLoop(off, buf);
      ok, count := true, Some(|buf|);
    }

    method WriteLoop(off: nat, buf: seq<byte>)
      requires Valid() && off + |buf| <= MAX_FILE
      requires |zeroed| >= PagesFor(buf) && |tree.pool| >= 4 * PagesFor(buf)
      modifies this`size, this`data, this`zeroed, tree
      ensures Valid() && Bytes() == Overlay(old(Bytes()), off, buf)
      ensures |zeroed| >= |old(zeroed)| - PagesFor(buf) && |tree.pool| >= |old(tree.pool)| - 4 * PagesFor(buf)
    {
      hide Flat, Overlay, ByteAt, CacheOk, FreshPages, InRange, Patch, Rooted, Stores, PoolOk, WrittenTo, ZeroPast;
      WriteNone(tree.contents, data, off, buf);
      ghost var c0, d0, n0, z0, p0 := tree.contents, data, size, |zeroed|, |tree.pool|;
      if off + |buf| > size {
        size := off + |buf|;
      }
      GrowPast(c0, d0, n0, size);
      var cur := off;
      ghost var turns := 0;
      while cur < off + |buf|
        invariant off <= cur <= off + |buf| && Valid() && size == Max(n0, off + |buf|)
        invariant WrittenTo(c0, d0, tree.contents, data, off, buf, cur)
        invariant |zeroed| >= z0 - turns && |tree.pool| >= p0 - 4 * turns
        invariant turns == 0 || cur == off + |buf| || (cur % PAGE_SIZE == 0 && PAGE_SIZE * (turns - 1) <= cur - off)
        invariant 0 <= turns <= |buf| / PAGE_SIZE + 2
      {
        PageInRange(cur);
        assert turns < |buf| / PAGE_SIZE + 2;
        ghost var c1, d1 := tree.contents, data;
        var page := Default(cur / PAGE_SIZE);
        var end := cur / PAGE_SIZE * PAGE_SIZE + PAGE_SIZE;
        if end > off + |buf| {
          end := off + |buf|;
        }
        SameWritten(c0, d0, c1, d1, tree.contents, data, off, buf, cur);
        PatchStep(c0, d0, tree.contents, data, off, buf, cur, end);
        Fits(cur, end);
        CachedPage(tree.contents, data, cur / PAGE_SIZE);
        var patched := Patch(data[page], cur % PAGE_SIZE, buf[cur - off..end - off]);
        OwnPage(tree.contents, data, cur / PAGE_SIZE, zeroed, patched);
        data := data[page := patched];
        MidPast(c0, d0, tree.contents, data, n0, size, off, buf, end);
        cur := end;
        turns := turns + 1;
      }
      WrittenAll(c0, d0, tree.contents, data, n0, off, buf);
    }

    /** `com_fs_tmpfs_truncate` stores the size and nothing else: growing appends zeros, shrinking cuts, and
        nothing is left past the new end exactly when everything cut off was zero. */
    method Truncate(newSize: nat) returns (ok: bool)
      requires Valid()
      modifies this`size
      ensures ok == !isDir && (isDir ==> size == old(size))
      ensures ok && newSize >= old(size) ==> Bytes() == old(Bytes()) + seq<byte>(newSize - old(size), _ => 0)
      ensures ok && newSize <= old(size) ==> Bytes() == old(Bytes())[..newSize]
      ensures ok ==> (Valid() <==> newSize <= MAX_FILE && ZeroFrom(old(Bytes()), newSize))
    {
      if isDir {
        return false;
      }
      CutPast(tree.contents, data, size, newSize);
      size := newSize;
      ok := true;
    }
  }

  ghost predicate ZeroFrom(file: seq<byte>, n: nat) { forall x :: n <= x < |file| ==> file[x] == 0 }

  lemma CutPast(cache: map<nat, nat>, data: map<nat, Page>, size: nat, n: nat)
    requires ZeroPast(cache, data, size)
    ensures ZeroPast(cache, data, n) <==> ZeroFrom(Flat(cache, data, size), n)
  {
    hide ByteAt;
    var f := Flat(cache, data, size);
    if ZeroPast(cache, data, n) {
      forall x | n <= x < size ensures f[x] == 0 { assert ByteAt(cache, data, x) == 0; }
    }
    if ZeroFrom(f, n) {
      forall x: nat | x >= n ensures ByteAt(cache, data, x) == 0 { if x < size { assert f[x] == 0; } }
    }
  }

  /** What a cut leaves behind comes back: shrinking a one-byte file to nothing and growing it again shows
      the old byte. */
  lemma ShrinkRemembers()
    ensures var cache, data := map[0 := 5], map[5 := ZeroBytes()[0 := 65]];
      && CacheOk(cache, data) && ZeroPast(cache, data, 1)
      && Flat(cache, data, 0) == [] && Flat(cache, data, 1) == [65] && !ZeroPast(cache, data, 0)
  {
    var data := map[5 := ZeroBytes()[0 := 65]];
    assert ByteAt(map[0 := 5], data, 0) == 65;
  }

  /** An upper bound on the pages a write of `buf` takes. */
  function PagesFor(buf: seq<byte>): nat { |buf| / PAGE_SIZE + 2 }

  ghost predicate FreshPages(data: map<nat, Page>, zeroed: seq<nat>) {
    NoDup(zeroed) && forall p :: p in zeroed ==> p !in data && p != 0
  }

  lemma GrowPast(cache: map<nat, nat>, data: map<nat, Page>, size: nat, size': nat)
    requires ZeroPast(cache, data, size) && size <= size'
    ensures ZeroPast(cache, data, size')
  {}

  lemma WriteNone(c: map<nat, nat>, d: map<nat, Page>, off: nat, buf: seq<byte>)
    ensures WrittenTo(c, d, c, d, off, buf, off)
  {}

  lemma SameWritten(c0: map<nat, nat>, d0: map<nat, Page>, c1: map<nat, nat>, d1: map<nat, Page>, c2: map<nat, nat>,
                    d2: map<nat, Page>,
                    off: nat, buf: seq<byte>, cur: nat)
    requires WrittenTo(c0, d0, c1, d1, off, buf, cur) && forall x: nat :: ByteAt(c2, d2, x) == ByteAt(c1, d1, x)
    ensures WrittenTo(c0, d0, c2, d2, off, buf, cur)
  {
    hide ByteAt;
  }

  lemma MidPast(c0: map<nat, nat>, d0: map<nat, Page>, c: map<nat, nat>, d: map<nat, Page>, size: nat, size': nat,
                off: nat, buf: seq<byte>, cur: nat)
    requires WrittenTo(c0, d0, c, d, off, buf, cur) && ZeroPast(c0, d0, size) && size <= size' && off + |buf| <= size'
    ensures ZeroPast(c, d, size')
  {
    hide ByteAt;
  }

  lemma CachedPage(c: map<nat, nat>, d: map<nat, Page>, i: nat)
    requires CacheOk(c, d) && i in c
    ensures c[i] in d
  {}

  lemma OwnPage(c: map<nat, nat>, d: map<nat, Page>, i: nat, zeroed: seq<nat>, page: Page)
    requires CacheOk(c, d) && FreshPages(d, zeroed) && i in c
    ensures c[i] in d && FreshPages(d[c[i] := page], zeroed)
  {}

  lemma TakePage(d: map<nat, Page>, zeroed: seq<nat>)
    requires FreshPages(d, zeroed) && |zeroed| >= 1
    ensures zeroed[0] !in d && zeroed[0] != 0 && FreshPages(d[zeroed[0] := ZeroBytes()], zeroed[1..])
  {
    assert zeroed[0] in zeroed;
    forall p | p in zeroed[1..] ensures p in zeroed && p != zeroed[0] {
      var j :| 0 <= j < |zeroed[1..]| && zeroed[1..][j] == p;
      assert zeroed[j + 1] == p;
    }
  }

  lemma FlatSize(c: map<nat, nat>, d: map<nat, Page>, size: nat)
    ensures |Flat(c, d, size)| == size
  {}

  lemma Fits(cur: nat, end: nat)
    requires cur <= end <= cur / PAGE_SIZE * PAGE_SIZE + PAGE_SIZE
    ensures cur % PAGE_SIZE + (end - cur) <= PAGE_SIZE
  {}

  // ------------------------------------------------------------------ sequences of calls

  datatype Call = WriteCall(off: nat, buf: seq<byte>) | TruncateCall(size: nat) | ReadCall(off: nat, len: nat)

  /** What a call does to a flat file. */
  function Apply(file: seq<byte>, c: Call): seq<byte> {
    match c
    case WriteCall(off, buf) => if buf == [] then file else Overlay(file, off, buf)
    case TruncateCall(n) => if n <= |file| then file[..n] else file + seq<byte>(n - |file|, _ => 0)
    case ReadCall(_, _) => file
  }

  /** Files stay within what the page cache can index, and a cut removes nothing but zeros. */
  ghost predicate MayCall(file: seq<byte>, c: Call) {
    match c
    case WriteCall(off, buf) => off + |buf| <= MAX_FILE
    case TruncateCall(n) => n <= MAX_FILE && ZeroFrom(file, n)
    case ReadCall(off, len) => off < TOP && len < TOP
  }

  ghost predicate IsRun(file: seq<byte>, calls: seq<Call>)
    decreases |calls|
  {
    calls == [] || (MayCall(file, calls[0]) && IsRun(Apply(file, calls[0]), calls[1..]))
  }

  function ApplyAll(file: seq<byte>, calls: seq<Call>): seq<byte>
    decreases |calls|
  {
    if calls == [] then file else ApplyAll(Apply(file, calls[0]), calls[1..])
  }

  /** What a read returns. */
  function Slice(file: seq<byte>, off: nat, len: nat): seq<byte> {
    if off + len >= TOP then [] else Clipped(file, off, len)
  }

  /** What the reads of the run return, in order. */
  function Reads(file: seq<byte>, calls: seq<Call>): seq<seq<byte>>
    decreases |calls|
  {
    if calls == [] then []
    else (if calls[0].ReadCall? then [Slice(file, calls[0].off, calls[0].len)] else [])
         + Reads(Apply(file, calls[0]), calls[1..])
  }

  function PagesForAll(calls: seq<Call>): nat {
    if calls == [] then 0 else (if calls[0].WriteCall? then PagesFor(calls[0].buf) else 0) + PagesForAll(calls[1..])
  }

  /** A client that makes any sequence of calls on a file: it sees exactly what it would see on a flat
      sequence of bytes. */
  method Perform(f: File, calls: seq<Call>) returns (out: seq<seq<byte>>)
    requires f.Valid() && !f.isDir && IsRun(f.Bytes(), calls)
    requires |f.zeroed| >= PagesForAll(calls) && |f.tree.pool| >= 4 * PagesForAll(calls)
    modifies f, f.tree
    ensures f.Valid() && f.Bytes() == ApplyAll(old(f.Bytes()), calls) && out == Reads(old(f.Bytes()), calls)
  {
    hide Apply, MayCall, Slice;
    ghost var file := f.Bytes();
    out := [];
    var i := 0;
    while i < |calls|
      invariant 0 <= i <= |calls| && f.Valid() && IsRun(f.Bytes(), calls[i..])
      invariant ApplyAll(f.Bytes(), calls[i..]) == ApplyAll(file, calls)
      invariant out + Reads(f.Bytes(), calls[i..]) == Reads(file, calls)
      invariant |f.zeroed| >= PagesForAll(calls[i..]) && |f.tree.pool| >= 4 * PagesForAll(calls[i..])
    {
      assert calls[i..][0] == calls[i] && calls[i..][1..] == calls[i + 1..];
      var read := One(f, calls[i]);
      out := out + read;
      i := i + 1;
    }
  }

  method One(f: File, c: Call) returns (read: seq<seq<byte>>)
    requires f.Valid() && !f.isDir && MayCall(f.Bytes(), c)
    requires c.WriteCall? ==> |f.zeroed| >= PagesFor(c.buf) && |f.tree.pool| >= 4 * PagesFor(c.buf)
    modifies f, f.tree
    ensures f.Valid() && f.Bytes() == Apply(old(f.Bytes()), c)
    ensures read == if c.ReadCall? then [Slice(old(f.Bytes()), c.off, c.len)] else []
    ensures var n := if c.WriteCall? then PagesFor(c.buf) else 0;
            |f.zeroed| >= |old(f.zeroed)| - n && |f.tree.pool| >= |old(f.tree.pool)| - 4 * n
  {
    read := [];
    match c {
      case WriteCall(off, buf) =>
        var _, _ := f.Write(off, buf);
      case TruncateCall(n) =>
        var _ := f.Truncate(n);
      case ReadCall(off, len) =>
        var bytes := f.Read(off, len);
        read := [bytes.value];
    }
  }

  /** Byte `x` of a flat file, zero past its end. */
  function ByteIn(file: seq<byte>, x: nat): byte { if x < |file| then file[x] else 0 }

  /** The byte the last write that covers position `x` put there. */
  function Latest(calls: seq<Call>, x: nat): Option<byte>
    decreases |calls|
  {
    if calls == [] then None
    else
      var init, c := calls[..|calls| - 1], calls[|calls| - 1];
      if c.WriteCall? && c.off <= x < c.off + |c.buf| then Some(c.buf[x - c.off]) else Latest(init, x)
  }

  /** In every run each byte of the file is the one the last write that covers it put there, or what was
      there before the run if there is none. */
  lemma {:induction false} LastWriteWins(file: seq<byte>, calls: seq<Call>, x: nat)
    requires IsRun(file, calls)
    ensures ByteIn(ApplyAll(file, calls), x) == match Latest(calls, x) case Some(b) => b case None => ByteIn(file, x)
    decreases |calls|
  {
    if calls != [] {
      hide Apply, MayCall;
      var init, c := calls[..|calls| - 1], calls[|calls| - 1];
      assert calls == init + [c];
      RunSplit(file, init, c);
      LastWriteWins(file, init, x);
      ApplyByte(ApplyAll(file, init), c, x);
    }
  }

  lemma ApplyByte(file: seq<byte>, c: Call, x: nat)
    requires MayCall(file, c)
    ensures ByteIn(Apply(file, c), x)
         == if c.WriteCall? && c.off <= x < c.off + |c.buf| then c.buf[x - c.off] else ByteIn(file, x)
  {}

  lemma {:induction false} RunSplit(file: seq<byte>, init: seq<Call>, c: Call)
    requires IsRun(file, init + [c])
    ensures IsRun(file, init) && MayCall(ApplyAll(file, init), c)
    ensures ApplyAll(file, init + [c]) == Apply(ApplyAll(file, init), c)
    decreases |init|
  {
    hide Apply, MayCall;
    if init == [] {
      assert init + [c] == [c] && [c][1..] == [];
    } else {
      assert (init + [c])[1..] == init[1..] + [c];
      RunSplit(Apply(file, init[0]), init[1..], c);
    }
  }

  /** A read adds what it sees of the file as the calls before it left it, any other call adds nothing. */
  lemma {:induction false} ReadsMore(file: seq<byte>, init: seq<Call>, c: Call)
    ensures Reads(file, init + [c])
         == Reads(file, init) + match c
                                case ReadCall(off, len) =>
                                  [if off + len >= TOP then [] else Clipped(ApplyAll(file, init), off, len)]
                                case WriteCall(_, _) => []
                                case TruncateCall(_) => []
    decreases |init|
  {
    hide Apply, Clipped;
    if init == [] {
      assert init + [c] == [c] && [c][1..] == [];
    } else {
      assert (init + [c])[1..] == init[1..] + [c];
      ReadsMore(Apply(file, init[0]), init[1..], c);
    }
  }

  /** So a read that ends the run returns, position by position, the latest byte written. */
  lemma ReadsLatest(file: seq<byte>, calls: seq<Call>, off: nat, len: nat, x: nat)
    requires IsRun(file, calls) && off + len < TOP && x < |Slice(ApplyAll(file, calls), off, len)|
    ensures Slice(ApplyAll(file, calls), off, len)[x]
         == match Latest(calls, off + x) case Some(b) => b case None => ByteIn(file, off + x)
  {
    hide ApplyAll, IsRun, Latest;
    LastWriteWins(file, calls, off + x);
  }
}
