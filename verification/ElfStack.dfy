/** The initial process stack that `com_sys_elf64_prepare_stack` (`src/com/sys/elf.c`) builds in the top
    page of the stack, and what a program reading it back finds (section 3.4.1 of the System V
    AMD64 ABI). */
module ElfStack {
  import opened Options
  import opened Pages
  import opened Words
  import opened MemRep

  /** The contents of a C string, without its terminator. */
  type Chars = seq<byte>

  ghost predicate NoNul(s: Chars) { forall i :: 0 <= i < |s| ==> s[i] != 0 }

  datatype ElfData = ElfData(entry: nat, phdr: nat, phentSize: nat, phentNum: nat)

  const AT_PHDR: nat := 3
  const AT_PHENT: nat := 4
  const AT_PHNUM: nat := 5
  const AT_ENTRY: nat := 9

  // ------------------------------------------------------------------ the image

  /** The strings `ss` pushed one after the other: the last one lowest. */
  function Strings(ss: seq<Chars>): seq<byte> {
    if ss == [] then [] else ss[|ss| - 1] + [0] + Strings(ss[..|ss| - 1])
  }

  /** How far below the top string `i` starts. */
  function Offset(ss: seq<Chars>, i: nat): nat
    requires i < |ss|
  {
    |Strings(ss[..i + 1])|
  }

  function WordBytes(ws: seq<nat>): (b: seq<byte>)
    ensures |b| == 8 * |ws|
  {
    if ws == [] then [] else Bytes(ws[0], 8) + WordBytes(ws[1..])
  }

  /** The pointer to string `i` of `ss`, for a stack that ends at `top`. */
  function PointerTo(ss: seq<Chars>, i: nat, top: nat): nat
    requires i < |ss|
  {
    if Offset(ss, i) <= top then top - Offset(ss, i) else 0
  }

  /** The pointers to strings `from` up to `to`. */
  function Pointers(ss: seq<Chars>, from: nat, to: nat, top: nat): (p: seq<nat>)
    requires from <= to <= |ss|
    ensures |p| == to - from
  {
    seq<nat>(to - from, i requires 0 <= i < to - from => PointerTo(ss, from + i, top))
  }

  function AuxWords(d: ElfData): seq<nat> {
    [AT_PHNUM, d.phentNum, AT_PHENT, d.phentSize, AT_PHDR, d.phdr, AT_ENTRY, d.entry, 0, 0]
  }

  /** Bytes left free between the strings and the words: up to a multiple of 16, and one word more when
      the number of words to come would spoil the alignment. */
  function Padding(strings: nat, argc: nat, envc: nat): nat {
    (16 - strings % 16) % 16 + if (argc + envc + 1) % 2 != 0 then 8 else 0
  }

  /** No more than it takes: the strings end at the next multiple of 16, and one word is left free exactly when
      the numbers of arguments and environment strings add up to an even number. */
  lemma PaddingLaw(strings: nat, argc: nat, envc: nat)
    ensures var spare := if (argc + envc) % 2 == 0 then 8 else 0;
      var pad := Padding(strings, argc, envc) - spare;
      0 <= pad < 16 && (strings + pad) % 16 == 0
  {}

  /** All words of the stack, lowest first. */
  function StackWords(argv: seq<Chars>, envp: seq<Chars>, d: ElfData, top: nat): (ws: seq<nat>)
    ensures |ws| == |argv| + |envp| + 13
  {
    var ss := envp + argv;
    [|argv|] + Pointers(ss, |envp|, |ss|, top) + [0] + Pointers(ss, 0, |envp|, top) + [0] + AuxWords(d)
  }

  /** Words, padding, strings. */
  function Layout(ws: seq<nat>, pad: nat, strings: seq<byte>): seq<byte> { WordBytes(ws) + Zeros(pad) + strings }

  function Image(argv: seq<Chars>, envp: seq<Chars>, d: ElfData, top: nat): seq<byte> {
    var strings := Strings(envp + argv);
    Layout(StackWords(argv, envp, d, top), Padding(|strings|, |argv|, |envp|), strings)
  }

  lemma {:induction false} StringsConcat(a: seq<Chars>, b: seq<Chars>)
    ensures Strings(a + b) == Strings(b) + Strings(a)
    decreases |b|
  {
    if b == [] {
      assert a + b == a;
    } else {
      var init := b[..|b| - 1];
      assert (a + b)[..|a + b| - 1] == a + init;
      StringsConcat(a, init);
    }
  }

  lemma StringsPrefix(ss: seq<Chars>, k: nat)
    requires k <= |ss|
    ensures |Strings(ss[..k])| <= |Strings(ss)|
  {
    StringsConcat(ss[..k], ss[k..]);
    assert ss[..k] + ss[k..] == ss;
  }

  // ------------------------------------------------------------------ reading it back

  /** The bytes at `i` up to the first zero. */
  function CString(b: seq<byte>, i: nat): seq<byte>
    requires i <= |b|
    decreases |b| - i
  {
    if i == |b| || b[i] == 0 then [] else [b[i]] + CString(b, i + 1)
  }

  lemma {:induction false} CStringIs(b: seq<byte>, i: nat, s: Chars)
    requires NoNul(s) && i + |s| < |b| && b[i..i + |s|] == s && b[i + |s|] == 0
    ensures CString(b, i) == s
    decreases |s|
  {
    if |s| > 0 {
      assert b[i] == s[0];
      assert b[i + 1..i + 1 + |s[1..]|] == s[1..];
      CStringIs(b, i + 1, s[1..]);
      assert s == [s[0]] + s[1..];
    }
  }

  /** String `i` lies, terminated, `Offset` bytes below the top. */
  lemma StringAt(ss: seq<Chars>, i: nat, below: seq<byte>)
    requires i < |ss| && NoNul(ss[i])
    ensures Offset(ss, i) <= |Strings(ss)|
    ensures CString(below + Strings(ss), |below| + |Strings(ss)| - Offset(ss, i)) == ss[i]
  {
    hide CString, Strings;
    var pre, post := ss[..i + 1], ss[i + 1..];
    assert pre + post == ss;
    StringsConcat(pre, post);
    LastString(ss, i);
    InPlace(below + Strings(post), ss[i], Strings(ss[..i]));
    assert below + Strings(ss) == below + Strings(post) + (ss[i] + [0] + Strings(ss[..i]));
  }

  lemma LastString(ss: seq<Chars>, i: nat)
    requires i < |ss|
    ensures Strings(ss[..i + 1]) == ss[i] + [0] + Strings(ss[..i])
  {
    assert ss[..i + 1][..i] == ss[..i];
  }

  lemma InPlace(below: seq<byte>, s: Chars, above: seq<byte>)
    requires NoNul(s)
    ensures CString(below + (s + [0] + above), |below|) == s
  {
    hide CString;
    var tail := s + [0] + above;
    var b := below + tail;
    assert b[|below|..|below| + |s|] == tail[..|s|] == s;
    assert b[|below| + |s|] == tail[|s|] == 0;
    CStringIs(b, |below|, s);
  }

  lemma {:induction false} WordAt(ws: seq<nat>, j: nat, above: seq<byte>)
    requires j < |ws| && ws[j] < WORD
    ensures Value((WordBytes(ws) + above)[8 * j..8 * j + 8]) == ws[j]
    decreases |ws|
  {
    var b := WordBytes(ws) + above;
    if j == 0 {
      assert b[0..8] == Bytes(ws[0], 8);
      WordRange();
      BytesValue(ws[0], 8);
    } else {
      var rest := WordBytes(ws[1..]) + above;
      assert b == Bytes(ws[0], 8) + rest;
      assert b[8 * j..8 * j + 8] == rest[8 * (j - 1)..8 * (j - 1) + 8];
      WordAt(ws[1..], j - 1, above);
    }
  }

  /** Word `j` above the stack pointer, which is at index 0 of the image. */
  function ReadWord(b: seq<byte>, j: nat): nat
    requires 8 * j + 8 <= |b|
  {
    Value(b[8 * j..8 * j + 8])
  }

  /** The string that the pointer `p` designates in an image whose end is at `top`. */
  function ReadString(b: seq<byte>, top: nat, p: nat): seq<byte>
    requires p <= top && top - p <= |b|
  {
    CString(b, |b| - (top - p))
  }

  /** A program that starts with this image finds `ws[j]` in word `j`. */
  ghost predicate HasWords(b: seq<byte>, ws: seq<nat>) {
    8 * |ws| <= |b| && forall j: nat :: j < |ws| ==> ReadWord(b, j) == ws[j]
  }

  ghost predicate PointsTo(b: seq<byte>, top: nat, j: nat, s: Chars) {
    8 * j + 8 <= |b| && ReadWord(b, j) <= top && top - ReadWord(b, j) <= |b| && ReadString(b, top, ReadWord(b, j)) == s
  }

  /** The values a stack holds fit in 64 bits. */
  ghost predicate FitsWords(argv: seq<Chars>, envp: seq<Chars>, d: ElfData, top: nat) {
    top < WORD && |argv| < WORD && d.entry < WORD && d.phdr < WORD && d.phentSize < WORD && d.phentNum < WORD
  }

  lemma LayoutWords(ws: seq<nat>, pad: nat, strings: seq<byte>)
    requires forall j: nat :: j < |ws| ==> ws[j] < WORD
    ensures HasWords(Layout(ws, pad, strings), ws)
  {
    hide WordBytes;
    var b, above := Layout(ws, pad, strings), Zeros(pad) + strings;
    assert b == WordBytes(ws) + above;
    forall j: nat | j < |ws| ensures ReadWord(b, j) == ws[j] { WordAt(ws, j, above); }
  }

  lemma PointerFits(ss: seq<Chars>, i: nat, top: nat)
    requires i < |ss| && top < WORD
    ensures PointerTo(ss, i, top) < WORD
  {}

  /** Word by word. */
  lemma StackWordIs(argv: seq<Chars>, envp: seq<Chars>, d: ElfData, top: nat, j: nat)
    requires j < |argv| + |envp| + 13
    ensures var argc, envc := |argv|, |envp|;
      StackWords(argv, envp, d, top)[j] ==
        if j == 0 then argc
        else if j < 1 + argc then PointerTo(envp + argv, envc + (j - 1), top)
        else if j == 1 + argc then 0
        else if j < 2 + argc + envc then PointerTo(envp + argv, j - 2 - argc, top)
        else if j == 2 + argc + envc then 0
        else AuxWords(d)[j - 3 - argc - envc]
  {
    hide PointerTo;
  }

  lemma StackFits(argv: seq<Chars>, envp: seq<Chars>, d: ElfData, top: nat, j: nat)
    requires FitsWords(argv, envp, d, top) && j < |argv| + |envp| + 13
    ensures StackWords(argv, envp, d, top)[j] < WORD
  {
    hide PointerTo, StackWords;
    var argc, envc, ss := |argv|, |envp|, envp + argv;
    StackWordIs(argv, envp, d, top, j);
    if 1 <= j < 1 + argc { PointerFits(ss, envc + (j - 1), top); }
    else if 2 + argc <= j < 2 + argc + envc { PointerFits(ss, j - 2 - argc, top); }
  }

  lemma ImageWords(argv: seq<Chars>, envp: seq<Chars>, d: ElfData, top: nat)
    requires FitsWords(argv, envp, d, top)
    ensures HasWords(Image(argv, envp, d, top), StackWords(argv, envp, d, top))
  {
    hide StackWords, Strings, Layout, FitsWords, HasWords;
    var ws := StackWords(argv, envp, d, top);
    forall j: nat | j < |ws| ensures ws[j] < WORD { StackFits(argv, envp, d, top, j); }
    var strings := Strings(envp + argv);
    LayoutWords(ws, Padding(|strings|, |argv|, |envp|), strings);
  }

  lemma ImageStrings(argv: seq<Chars>, envp: seq<Chars>, d: ElfData, top: nat, i: nat)
    requires |Strings(envp + argv)| <= top && i < |envp + argv| && NoNul((envp + argv)[i])
    ensures var p, b := PointerTo(envp + argv, i, top), Image(argv, envp, d, top);
            p <= top && top - p <= |b| && ReadString(b, top, p) == (envp + argv)[i]
  {
    hide StackWords, Strings, WordBytes, CString, Zeros, Padding;
    var ss, strings := envp + argv, Strings(envp + argv);
    var below := WordBytes(StackWords(argv, envp, d, top)) + Zeros(Padding(|strings|, |argv|, |envp|));
    StringAt(ss, i, below);
  }

  /** What a program finds under `key` in the auxiliary vector that starts at word `j`: pairs of a key and a
      value up to the key 0. */
  function Lookup(b: seq<byte>, j: nat, key: nat): Option<nat>
    decreases |b| - 8 * j
  {
    if 8 * j + 16 > |b| || ReadWord(b, j) == 0 then None
    else if ReadWord(b, j) == key then Some(ReadWord(b, j + 1))
    else Lookup(b, j + 2, key)
  }

  /** The entries of the vector, key by key. */
  ghost predicate AuxIs(b: seq<byte>, j: nat, d: ElfData) {
    && Lookup(b, j, 3) == Some(d.phdr)
    && Lookup(b, j, 4) == Some(d.phentSize)
    && Lookup(b, j, 5) == Some(d.phentNum)
    && Lookup(b, j, 9) == Some(d.entry)
    && forall key :: key != 3 && key != 4 && key != 5 && key != 9 ==> Lookup(b, j, key) == None
  }

  lemma PairAt(b: seq<byte>, j: nat, key: nat)
    requires 8 * j + 16 <= |b|
    ensures Lookup(b, j, key) == if ReadWord(b, j) == 0 then None
                                 else if ReadWord(b, j) == key then Some(ReadWord(b, j + 1))
                                 else Lookup(b, j + 2, key)
  {}

  lemma AuxBack(b: seq<byte>, j: nat, d: ElfData)
    requires 8 * j + 80 <= |b| && forall k: nat :: k < 10 ==> ReadWord(b, j + k) == AuxWords(d)[k]
    ensures AuxIs(b, j, d)
  {
    hide Lookup, ReadWord;
    forall k: nat | k < 10 ensures ReadWord(b, j + k) == AuxWords(d)[k] {}
    assert ReadWord(b, j + 0) == AuxWords(d)[0] && ReadWord(b, j + 1) == AuxWords(d)[1];
    assert ReadWord(b, j + 2) == AuxWords(d)[2] && ReadWord(b, j + 3) == AuxWords(d)[3];
    assert ReadWord(b, j + 4) == AuxWords(d)[4] && ReadWord(b, j + 5) == AuxWords(d)[5];
    assert ReadWord(b, j + 6) == AuxWords(d)[6] && ReadWord(b, j + 7) == AuxWords(d)[7];
    assert ReadWord(b, j + 8) == AuxWords(d)[8];
    forall key
      ensures Lookup(b, j, key) == if key == 5 then Some(d.phentNum) else if key == 4 then Some(d.phentSize)
                                   else if key == 3 then Some(d.phdr) else if key == 9 then Some(d.entry) else None
    {
      PairAt(b, j, key);
      PairAt(b, j + 2, key);
      PairAt(b, j + 4, key);
      PairAt(b, j + 6, key);
      PairAt(b, j + 8, key);
    }
  }

  /** Round trip: a program that reads its stack finds argc, the argument strings in order and a null, the
      environment strings in order and a null, and the auxiliary vector. */
  lemma RoundTrip(argv: seq<Chars>, envp: seq<Chars>, d: ElfData, top: nat)
    requires |Strings(envp + argv)| <= top && FitsWords(argv, envp, d, top)
    requires (forall i :: 0 <= i < |argv| ==> NoNul(argv[i])) && (forall i :: 0 <= i < |envp| ==> NoNul(envp[i]))
    ensures var b, argc, envc := Image(argv, envp, d, top), |argv|, |envp|;
      && 8 * (argc + envc + 13) <= |b|
      && ReadWord(b, 0) == argc
      && (forall i: nat :: i < argc ==> PointsTo(b, top, 1 + i, argv[i]))
      && ReadWord(b, 1 + argc) == 0
      && (forall i: nat :: i < envc ==> PointsTo(b, top, 2 + argc + i, envp[i]))
      && ReadWord(b, 2 + argc + envc) == 0
      && AuxIs(b, 3 + argc + envc, d)
  {
    hide Image, ReadWord, PointsTo, StackWords, PointerTo, Strings, NoNul, HasWords;
    var b, argc, envc := Image(argv, envp, d, top), |argv|, |envp|;
    ImageWords(argv, envp, d, top);
    WordBack(argv, envp, d, top, argc + envc + 12);
    WordBack(argv, envp, d, top, 0);
    WordBack(argv, envp, d, top, 1 + argc);
    WordBack(argv, envp, d, top, 2 + argc + envc);
    forall i: nat | i < argc ensures PointsTo(b, top, 1 + i, argv[i]) {
      StringBack(argv, envp, d, top, 1 + i, envc + i);
    }
    forall i: nat | i < envc ensures PointsTo(b, top, 2 + argc + i, envp[i]) {
      StringBack(argv, envp, d, top, 2 + argc + i, i);
    }
    forall k: nat | k < 10 ensures ReadWord(b, 3 + argc + envc + k) == AuxWords(d)[k] {
      WordBack(argv, envp, d, top, 3 + argc + envc + k);
    }
    AuxBack(b, 3 + argc + envc, d);
  }

  /** The first word from `j` on that is zero. */
  function NullFrom(b: seq<byte>, j: nat): nat
    decreases |b| - 8 * j
  {
    if 8 * j + 8 > |b| || ReadWord(b, j) == 0 then j else NullFrom(b, j + 1)
  }

  lemma {:induction false} NullAt(b: seq<byte>, j: nat, n: nat)
    requires j <= n && 8 * n + 8 <= |b| && ReadWord(b, n) == 0
    requires forall i: nat :: j <= i < n ==> ReadWord(b, i) != 0
    ensures NullFrom(b, j) == n
    decreases n - j
  {
    hide ReadWord;
    if j < n { NullAt(b, j + 1, n); }
  }

  /** A program that knows nothing but its stack pointer finds the vectors by their nulls, and the auxiliary
      vector behind them. */
  lemma ProgramReads(argv: seq<Chars>, envp: seq<Chars>, d: ElfData, top: nat)
    requires |Strings(envp + argv)| < top && FitsWords(argv, envp, d, top)
    requires (forall i :: 0 <= i < |argv| ==> NoNul(argv[i])) && (forall i :: 0 <= i < |envp| ==> NoNul(envp[i]))
    ensures var b := Image(argv, envp, d, top);
      var n := NullFrom(b, 1);
      && n == 1 + |argv| && NullFrom(b, n + 1) == n + 1 + |envp| && AuxIs(b, NullFrom(b, n + 1) + 1, d)
  {
    hide Image, ReadWord, PointsTo, StackWords, PointerTo, Strings, NoNul, HasWords, AuxIs;
    var b, argc, envc := Image(argv, envp, d, top), |argv|, |envp|;
    RoundTrip(argv, envp, d, top);
    forall i: nat | 1 <= i < 1 + argc ensures ReadWord(b, i) != 0 {
      WordBack(argv, envp, d, top, i);
      PointerNotNull(envp + argv, envc + (i - 1), top);
    }
    forall i: nat | 2 + argc <= i < 2 + argc + envc ensures ReadWord(b, i) != 0 {
      WordBack(argv, envp, d, top, i);
      PointerNotNull(envp + argv, i - 2 - argc, top);
    }
    NullAt(b, 1, 1 + argc);
    NullAt(b, 2 + argc, 2 + argc + envc);
  }

  lemma PointerNotNull(ss: seq<Chars>, i: nat, top: nat)
    requires i < |ss| && |Strings(ss)| < top
    ensures PointerTo(ss, i, top) != 0
  {
    hide Strings;
    assert ss == ss[..i + 1] + ss[i + 1..];
    StringsConcat(ss[..i + 1], ss[i + 1..]);
  }

  lemma WordBack(argv: seq<Chars>, envp: seq<Chars>, d: ElfData, top: nat, j: nat)
    requires FitsWords(argv, envp, d, top) && j < |argv| + |envp| + 13
    ensures 8 * j + 8 <= |Image(argv, envp, d, top)|
    ensures var argc, envc := |argv|, |envp|;
      ReadWord(Image(argv, envp, d, top), j) ==
        if j == 0 then argc
        else if j < 1 + argc then PointerTo(envp + argv, envc + (j - 1), top)
        else if j == 1 + argc then 0
        else if j < 2 + argc + envc then PointerTo(envp + argv, j - 2 - argc, top)
        else if j == 2 + argc + envc then 0
        else AuxWords(d)[j - 3 - argc - envc]
  {
    hide Image, ReadWord, StackWords, PointerTo;
    ImageWords(argv, envp, d, top);
    StackWordIs(argv, envp, d, top, j);
  }

  /** A pointer word read back leads to the string it was made for. */
  lemma StringBack(argv: seq<Chars>, envp: seq<Chars>, d: ElfData, top: nat, j: nat, i: nat)
    requires |Strings(envp + argv)| <= top && FitsWords(argv, envp, d, top) && j < |argv| + |envp| + 13
    requires i < |envp + argv| && NoNul((envp + argv)[i])
    requires || (1 <= j < 1 + |argv| && i == |envp| + j - 1)
             || (2 + |argv| <= j < 2 + |argv| + |envp| && i == j - 2 - |argv|)
    ensures PointsTo(Image(argv, envp, d, top), top, j, (envp + argv)[i])
  {
    hide Image, ReadWord, StackWords, PointerTo, ReadString, AuxWords, Strings, NoNul;
    WordBack(argv, envp, d, top, j);
    ImageStrings(argv, envp, d, top, i);
  }

  /** The stack pointer is 16-byte aligned. */
  lemma Aligned(argv: seq<Chars>, envp: seq<Chars>, d: ElfData, top: nat)
    ensures |Image(argv, envp, d, top)| % 16 == 0
  {
    hide StackWords, Strings, WordBytes;
    var n, argc, envc := |Strings(envp + argv)|, |argv|, |envp|;
    PaddingAligns(n, argc, envc);
    assert |Image(argv, envp, d, top)| == 8 * (argc + envc + 13) + Padding(n, argc, envc) + n;
  }

  lemma PaddingAligns(n: nat, argc: nat, envc: nat)
    ensures (8 * (argc + envc + 13) + Padding(n, argc, envc) + n) % 16 == 0
  {
    var k := (16 - n % 16) % 16;
    assert (n + k) % 16 == 0;
    var m := argc + envc;
    if (m + 1) % 2 != 0 { assert (8 * (m + 13) + 8) % 16 == 0; } else { assert (8 * (m + 13)) % 16 == 0; }
  }

  // ------------------------------------------------------------------ the code

  /** The page holds `image` at its very top and zeros below. */
  ghost predicate Built(page: seq<byte>, image: seq<byte>) {
    |page| == PAGE_SIZE && |image| <= PAGE_SIZE && page == Zeros(PAGE_SIZE - |image|) + image
  }

  /** Writes `s` directly below what has been built. */
  method PushBytes(page: array<byte>, sp: nat, s: seq<byte>, ghost image: seq<byte>) returns (sp': nat)
    requires page.Length == PAGE_SIZE && Built(page[..], image) && sp == PAGE_SIZE - |image| && |s| <= sp
    modifies page
    ensures Built(page[..], s + image) && sp' == PAGE_SIZE - |s + image|
  {
    sp' := sp - |s|;
    KMemCpyIn(page, sp', s);
    assert page[..] == Zeros(sp') + s + image;
  }

  /** The loops over `envp` and `argv` that copy the strings. */
  method PushStrings(page: array<byte>, sp: nat, ss: seq<Chars>, ghost done: seq<Chars>) returns (sp': nat)
    requires page.Length == PAGE_SIZE && Built(page[..], Strings(done)) && sp == PAGE_SIZE - |Strings(done)|
    requires |Strings(done + ss)| <= PAGE_SIZE
    modifies page
    ensures Built(page[..], Strings(done + ss)) && sp' == PAGE_SIZE - |Strings(done + ss)|
  {
    hide Built;
    sp' := sp;
    var i := 0;
    assert done + ss[..0] == done;
    while i < |ss|
      invariant 0 <= i <= |ss| && Built(page[..], Strings(done + ss[..i]))
      invariant sp' == PAGE_SIZE - |Strings(done + ss[..i])|
    {
      OneMore(done, ss, i);
      sp' := PushBytes(page, sp', ss[i] + [0], Strings(done + ss[..i]));
      i := i + 1;
    }
    assert ss[..|ss|] == ss;
  }

  lemma OneMore(done: seq<Chars>, ss: seq<Chars>, i: nat)
    requires i < |ss|
    ensures Strings(done + ss[..i + 1]) == ss[i] + [0] + Strings(done + ss[..i])
    ensures |Strings(done + ss[..i + 1])| <= |Strings(done + ss)|
  {
    var all, k := done + ss, |done| + i;
    assert all[..k] == done + ss[..i] && all[..k + 1] == done + ss[..i + 1];
    LastString(all, k);
    StringsPrefix(all, k + 1);
  }

  /** The page while the words `ws` are being written upwards below `image`, `i` of them done. */
  ghost predicate Filling(page: seq<byte>, ws: seq<nat>, i: nat, image: seq<byte>) {
    && i <= |ws| && 8 * |ws| + |image| <= PAGE_SIZE
    && page == Zeros(PAGE_SIZE - 8 * |ws| - |image|) + WordBytes(ws[..i]) + Zeros(8 * (|ws| - i)) + image
  }

  lemma FillStart(page: seq<byte>, ws: seq<nat>, image: seq<byte>)
    requires Built(page, image) && 8 * |ws| + |image| <= PAGE_SIZE
    ensures Filling(page, ws, 0, image)
  {
    assert ws[..0] == [];
  }

  lemma FillEnd(page: seq<byte>, ws: seq<nat>, image: seq<byte>)
    requires Filling(page, ws, |ws|, image)
    ensures Built(page, WordBytes(ws) + image)
  {
    hide WordBytes, Zeros;
    var k := PAGE_SIZE - 8 * |ws| - |image|;
    assert ws[..|ws|] == ws;
    ZerosSize(k);
    ZerosSize(0);
    SameBytes(Zeros(k), WordBytes(ws), Zeros(0), image);
  }

  lemma SameBytes(a: seq<byte>, b: seq<byte>, none: seq<byte>, c: seq<byte>)
    requires none == []
    ensures a + b + none + c == a + (b + c)
  {}

  lemma FillStep(was: seq<byte>, page: seq<byte>, ws: seq<nat>, i: nat, image: seq<byte>)
    requires Filling(was, ws, i, image) && i < |ws| && |was| == PAGE_SIZE
    requires var at := PAGE_SIZE - 8 * |ws| - |image| + 8 * i; page == was[..at] + Bytes(ws[i], 8) + was[at + 8..]
    ensures Filling(page, ws, i + 1, image)
  {
    hide Bytes, WordBytes;
    WordsMore(ws, i);
    var low, done, rest := Zeros(PAGE_SIZE - 8 * |ws| - |image|), WordBytes(ws[..i]), Zeros(8 * (|ws| - i));
    var at := |low| + |done|;
    assert was[..at] == low + done;
    assert was[at + 8..] == Zeros(8 * (|ws| - i - 1)) + image;
  }

  /** The two loops that store the string pointers: `all[from..from + |ss|]` is `ss`, and `off` is how far
      below the top the last string already pointed to starts. */
  method PushPointers(page: array<byte>, sp: nat, ss: seq<Chars>, top: nat, off: nat,
                      ghost all: seq<Chars>, ghost from: nat, ghost image: seq<byte>) returns (sp': nat, off': nat)
    requires page.Length == PAGE_SIZE && Built(page[..], image) && sp == PAGE_SIZE - |image| && 8 * |ss| <= sp
    requires from + |ss| <= |all| && ss == all[from..from + |ss|] && off == |Strings(all[..from])|
    requires |Strings(all)| <= top
    modifies page
    ensures Built(page[..], WordBytes(Pointers(all, from, from + |ss|, top)) + image) && sp' == sp - 8 * |ss|
    ensures off' == |Strings(all[..from + |ss|])|
  {
    hide Bytes, WordBytes, Strings, Filling, Built;
    ghost var ws := Pointers(all, from, from + |ss|, top);
    BuiltSize(page[..], image);
    FillStart(page[..], ws, image);
    sp', off' := sp - 8 * |ss|, off;
    var i := 0;
    while i < |ss|
      invariant 0 <= i <= |ss| && Filling(page[..], ws, i, image) && off' == |Strings(all[..from + i])|
    {
      LastString(all, from + i);
      StringsPrefix(all, from + i + 1);
      off' := off' + |ss[i]| + 1;
      assert ws[i] == top - off';
      ghost var was := page[..];
      KMemCpyIn(page, sp' + 8 * i, Bytes(top - off', 8));
      FillStep(was, page[..], ws, i, image);
      i := i + 1;
    }
    FillEnd(page[..], ws, image);
  }

  lemma BuiltSize(page: seq<byte>, image: seq<byte>)
    requires Built(page, image)
    ensures |image| <= PAGE_SIZE
  {}

  /** PUSH, on top of the words `ws`. */
  method Push(page: array<byte>, sp: nat, w: nat, ghost ws: seq<nat>, ghost image: seq<byte>) returns (sp': nat)
    requires page.Length == PAGE_SIZE && Built(page[..], WordBytes(ws) + image) && sp == PAGE_SIZE - 8 * |ws| - |image|
    requires 8 <= sp
    modifies page
    ensures Built(page[..], WordBytes([w] + ws) + image) && sp' == sp - 8
  {
    hide Built, WordBytes;
    ghost var b := WordBytes(ws) + image;
    sp' := PushBytes(page, sp, Bytes(w, 8), b);
    WordsConcat([w], ws);
    OneWord(w);
    assert WordBytes([w]) + WordBytes(ws) + image == Bytes(w, 8) + b;
  }

  lemma OneWord(w: nat)
    ensures WordBytes([w]) == Bytes(w, 8)
  {
    assert [w][1..] == [];
  }

  /** The auxiliary vector. */
  method PushAux(page: array<byte>, sp: nat, d: ElfData, ghost image: seq<byte>) returns (sp': nat)
    requires page.Length == PAGE_SIZE && Built(page[..], image) && sp == PAGE_SIZE - |image| && 80 <= sp
    modifies page
    ensures Built(page[..], WordBytes(AuxWords(d)) + image) && sp' == sp - 80
  {
    hide Built, WordBytes;
    NoWords();
    assert [] + image == image;
    ghost var ws: seq<nat> := [];
    sp' := sp;
    sp' := Push(page, sp', 0, ws, image);
    ws := [0] + ws;
    sp' := Push(page, sp', 0, ws, image);
    ws := [0] + ws;
    sp' := Push(page, sp', d.entry, ws, image);
    ws := [d.entry] + ws;
    sp' := Push(page, sp', AT_ENTRY, ws, image);
    ws := [AT_ENTRY] + ws;
    sp' := Push(page, sp', d.phdr, ws, image);
    ws := [d.phdr] + ws;
    sp' := Push(page, sp', AT_PHDR, ws, image);
    ws := [AT_PHDR] + ws;
    sp' := Push(page, sp', d.phentSize, ws, image);
    ws := [d.phentSize] + ws;
    sp' := Push(page, sp', AT_PHENT, ws, image);
    ws := [AT_PHENT] + ws;
    sp' := Push(page, sp', d.phentNum, ws, image);
    ws := [d.phentNum] + ws;
    sp' := Push(page, sp', AT_PHNUM, ws, image);
    ws := [AT_PHNUM] + ws;
    assert ws == AuxWords(d);
  }

  /** The pointer vectors and argc. */
  method PushVectors(page: array<byte>, sp: nat, argv: seq<Chars>, envp: seq<Chars>, top: nat, ghost d: ElfData,
                     ghost image: seq<byte>)
    returns (sp': nat)
    requires page.Length == PAGE_SIZE && Built(page[..], WordBytes(AuxWords(d)) + image)
    requires sp == PAGE_SIZE - 80 - |image|
    requires |Strings(envp + argv)| <= top && 8 * (|argv| + |envp| + 3) <= sp
    modifies page
    ensures Built(page[..], WordBytes(StackWords(argv, envp, d, top)) + image) && sp' == sp - 8 * (|argv| + |envp| + 3)
  {
    hide Built, WordBytes, Strings, Pointers, AuxWords;
    AuxLength(d);
    ghost var all, argc, envc := envp + argv, |argv|, |envp|;
    ghost var ws := AuxWords(d);
    assert all[..0] == [] && all[0..envc] == envp && all[envc..envc + argc] == argv;
    NoStrings();
    var off := 0;
    sp' := Push(page, sp, 0, ws, image);
    ws := [0] + ws;
    sp', off := PushPointers(page, sp', envp, top, off, all, 0, WordBytes(ws) + image);
    ghost var env := Pointers(all, 0, envc, top);
    Joined(env, ws, image);
    ws := env + ws;
    sp' := Push(page, sp', 0, ws, image);
    ws := [0] + ws;
    sp', off := PushPointers(page, sp', argv, top, off, all, envc, WordBytes(ws) + image);
    ghost var args := Pointers(all, envc, envc + argc, top);
    Joined(args, ws, image);
    ws := args + ws;
    sp' := Push(page, sp', |argv|, ws, image);
    assert [argc] + ws == StackWords(argv, envp, d, top);
  }

  lemma AuxLength(d: ElfData)
    ensures |AuxWords(d)| == 10
  {}

  lemma NoStrings()
    ensures Strings([]) == []
  {}

  lemma Joined(a: seq<nat>, b: seq<nat>, image: seq<byte>)
    ensures WordBytes(a) + (WordBytes(b) + image) == WordBytes(a + b) + image
  {
    WordsConcat(a, b);
    assert WordBytes(a) + (WordBytes(b) + image) == WordBytes(a) + WordBytes(b) + image;
  }

  lemma NoWords()
    ensures WordBytes([]) == []
  {}

  lemma {:induction false} WordsConcat(a: seq<nat>, b: seq<nat>)
    ensures WordBytes(a + b) == WordBytes(a) + WordBytes(b)
    decreases |a|
  {
    if a == [] {
      assert a + b == b;
    } else {
      assert (a + b)[1..] == a[1..] + b;
      WordsConcat(a[1..], b);
    }
  }

  lemma WordsMore(ws: seq<nat>, i: nat)
    requires i < |ws|
    ensures WordBytes(ws[..i + 1]) == WordBytes(ws[..i]) + Bytes(ws[i], 8)
  {
    assert ws[..i + 1] == ws[..i] + [ws[i]];
    WordsConcat(ws[..i], [ws[i]]);
    assert [ws[i]][1..] == [];
  }

  /** `com_sys_elf64_prepare_stack`, for a layout that fits the zeroed top page: the page ends in the image
      and the address returned is where the image starts, 16-byte aligned. */
  method PrepareStack(page: array<byte>, d: ElfData, top: nat, argv: seq<Chars>, envp: seq<Chars>) returns (sp: nat)
    requires page.Length == PAGE_SIZE && page[..] == Zeros(PAGE_SIZE)
    requires PAGE_SIZE <= top && top % PAGE_SIZE == 0 && |Image(argv, envp, d, top)| <= PAGE_SIZE
    modifies page
    ensures Built(page[..], Image(argv, envp, d, top))
    ensures sp == top - |Image(argv, envp, d, top)| && sp % 16 == 0
  {
    hide Strings, WordBytes, Bytes, Built, StackWords, Zeros, Image, Padding;
    Aligned(argv, envp, d, top);
    SpAligned(top, |Image(argv, envp, d, top)|);
    ImageSize(argv, envp, d, top);
    EnvFirst(page[..], envp, argv);
    var p := PushStrings(page, PAGE_SIZE, envp, []);
    p := PushStrings(page, p, argv, envp);
    AlignDown(|Strings(envp + argv)|, |argv|, |envp|);
    p := p - p % 16;
    if (|argv| + |envp| + 1) % 2 != 0 {
      p := p - 8;
    }
    p := PushAll(page, p, d, top, argv, envp);
    sp := top - (PAGE_SIZE - p);
  }

  /** The words, once the strings are in place and the pointer is aligned. */
  method PushAll(page: array<byte>, sp: nat, d: ElfData, top: nat, argv: seq<Chars>,
                 envp: seq<Chars>) returns (sp': nat)
    requires page.Length == PAGE_SIZE && Built(page[..], Strings(envp + argv))
    requires |Image(argv, envp, d, top)| <= PAGE_SIZE <= top
    requires sp == PAGE_SIZE - |Strings(envp + argv)| - Padding(|Strings(envp + argv)|, |argv|, |envp|)
    modifies page
    ensures Built(page[..], Image(argv, envp, d, top)) && sp' == PAGE_SIZE - |Image(argv, envp, d, top)|
  {
    hide Strings, WordBytes, Built, StackWords, Zeros, Padding;
    ImageSize(argv, envp, d, top);
    ghost var pad := Padding(|Strings(envp + argv)|, |argv|, |envp|);
    Padded(page[..], Strings(envp + argv), pad);
    ghost var img := Zeros(pad) + Strings(envp + argv);
    ZerosSize(pad);
    sp' := PushAux(page, sp, d, img);
    sp' := PushVectors(page, sp', argv, envp, top, d, img);
    assert WordBytes(StackWords(argv, envp, d, top)) + img == Image(argv, envp, d, top);
  }

  lemma SpAligned(top: nat, n: nat)
    requires top % PAGE_SIZE == 0 && n % 16 == 0 && n <= top
    ensures (top - n) % 16 == 0
  {
    assert top == 16 * (256 * (top / PAGE_SIZE)) && n == 16 * (n / 16);
  }

  lemma ImageSize(argv: seq<Chars>, envp: seq<Chars>, d: ElfData, top: nat)
    ensures var n := |Strings(envp + argv)|;
            |Image(argv, envp, d, top)| == 8 * (|argv| + |envp| + 13) + Padding(n, |argv|, |envp|) + n
  {}

  lemma ZerosSize(n: nat)
    ensures |Zeros(n)| == n && (n == 0 ==> Zeros(n) == [])
  {}

  lemma EnvFirst(page: seq<byte>, envp: seq<Chars>, argv: seq<Chars>)
    requires page == Zeros(PAGE_SIZE)
    ensures Built(page, Strings([])) && Strings([]) == []
    ensures [] + envp == envp && |Strings(envp)| <= |Strings(envp + argv)|
  {
    NoStrings();
    hide Strings, Zeros;
    ZerosSize(PAGE_SIZE);
    assert page + [] == page;
    StringsConcat(envp, argv);
  }

  lemma AlignDown(n: nat, argc: nat, envc: nat)
    requires n <= PAGE_SIZE
    ensures Padding(n, argc, envc) == (PAGE_SIZE - n) % 16 + if (argc + envc + 1) % 2 != 0 then 8 else 0
  {}

  lemma Padded(page: seq<byte>, strings: seq<byte>, pad: nat)
    requires Built(page, strings) && |strings| + pad <= PAGE_SIZE
    ensures Built(page, Zeros(pad) + strings)
  {
    var n := PAGE_SIZE - |strings| - pad;
    ZerosSum(n, pad);
    ZerosSize(pad);
    hide Zeros;
    assert Zeros(n) + Zeros(pad) + strings == Zeros(n) + (Zeros(pad) + strings);
  }

  lemma ZerosSum(a: nat, b: nat)
    ensures Zeros(a) + Zeros(b) == Zeros(a + b)
  {
  }
}
