/** `kmemcpy` and the doubling `kmemrepcpy` of `src/com/lib/mem.c`, on a buffer of elements. */
module MemRep {

  /** `n` copies of `s` one after the other. */
  function Repeat<T>(s: seq<T>, n: nat): (r: seq<T>)
    ensures |r| == |s| * n
  {
    if n == 0 then [] else
      assert |s| * n == |s| * (n - 1) + |s|;
      Repeat(s, n - 1) + s
  }

  lemma {:induction false} RepeatSum<T>(s: seq<T>, m: nat, n: nat)
    ensures Repeat(s, m) + Repeat(s, n) == Repeat(s, m + n)
    decreases n
  {
    if n == 0 {
      assert Repeat(s, m) + [] == Repeat(s, m);
    } else {
      RepeatSum(s, m, n - 1);
      assert Repeat(s, m) + (Repeat(s, n - 1) + s) == (Repeat(s, m) + Repeat(s, n - 1)) + s;
    }
  }

  /** Element by element: copy after copy of `s`. */
  lemma {:induction false} RepeatIs<T>(s: seq<T>, n: nat, k: nat, j: nat)
    requires k < n && j < |s|
    ensures |s| * k + j < |Repeat(s, n)| && Repeat(s, n)[|s| * k + j] == s[j]
    decreases n
  {
    assert |s| * n == |s| * (n - 1) + |s|;
    if k < n - 1 { RepeatIs(s, n - 1, k, j); }
  }

  /** `kmemcpy` between disjoint parts of one buffer. */
  method KMemCpy<T>(a: array<T>, dst: nat, src: nat, n: nat)
    requires src + n <= dst && dst + n <= a.Length
    modifies a
    ensures a[..] == old(a[..dst]) + old(a[src..src + n]) + old(a[dst + n..])
  {
    var i := 0;
    while i < n
      invariant 0 <= i <= n
      invariant forall j :: 0 <= j < dst || dst + i <= j < a.Length ==> a[j] == old(a[j])
      invariant forall j :: dst <= j < dst + i ==> a[j] == old(a[j - dst + src])
    {
      a[dst + i] := a[src + i];
      i := i + 1;
    }
  }

  /** `kmemcpy` from elsewhere. */
  method KMemCpyIn<T>(a: array<T>, dst: nat, src: seq<T>)
    requires dst + |src| <= a.Length
    modifies a
    ensures a[..] == old(a[..dst]) + src + old(a[dst + |src|..])
  {
    var i := 0;
    while i < |src|
      invariant 0 <= i <= |src|
      invariant forall j :: 0 <= j < dst || dst + i <= j < a.Length ==> a[j] == old(a[j])
      invariant forall j :: 0 <= j < i ==> a[dst + j] == src[j]
    {
      a[dst + i] := src[i];
      i := i + 1;
    }
  }

  /** `now` is `orig` with `k` copies of `src` written from `at` on; nothing outside the `rep`
      copies to come differs. */
  ghost predicate Filled<T>(orig: seq<T>, now: seq<T>, at: nat, src: seq<T>, k: nat, rep: nat) {
    && |now| == |orig| && k <= rep && |src| * k <= |src| * rep && at + |src| * rep <= |orig|
    && now[..at] == orig[..at]
    && now[at..at + |src| * k] == Repeat(src, k)
    && now[at + |src| * rep..] == orig[at + |src| * rep..]
  }

  lemma FilledFirst<T>(orig: seq<T>, now: seq<T>, at: nat, src: seq<T>, rep: nat)
    requires rep > 0 && |src| <= |src| * rep && at + |src| * rep <= |orig|
    requires now == orig[..at] + src + orig[at + |src|..]
    ensures Filled(orig, now, at, src, 1, rep)
  {
    RepeatOnce(src);
  }

  lemma FilledAll<T>(orig: seq<T>, now: seq<T>, at: nat, src: seq<T>, rep: nat)
    requires Filled(orig, now, at, src, rep, rep)
    ensures at + |src| * rep <= |orig|
    ensures now == orig[..at] + Repeat(src, rep) + orig[at + |src| * rep..]
  {
    assert now == now[..at] + now[at..at + |src| * rep] + now[at + |src| * rep..];
  }

  /** One doubling: `d` of the `k` copies already at `at` are appended to them. */
  lemma Doubled<T>(orig: seq<T>, was: seq<T>, now: seq<T>, at: nat, src: seq<T>, k: nat, d: nat, rep: nat)
    requires Filled(orig, was, at, src, k, rep)
    requires d <= k && k + d <= rep && |src| * d <= |src| * k && |src| * k + |src| * d <= |src| * rep
    requires now == was[..at + |src| * k] + was[at..at + |src| * d] + was[at + |src| * k + |src| * d..]
    ensures Filled(orig, now, at, src, k + d, rep)
  {
    hide Repeat;
    RepeatSum(src, d, k - d);
    RepeatSum(src, k, d);
    var x, y := |src| * k, |src| * d;
    assert |src| * (k + d) == x + y;
    assert was[at..at + y] == Repeat(src, d) by {
      assert was[at..at + y] == was[at..at + x][..y];
      assert (Repeat(src, d) + Repeat(src, k - d))[..y] == Repeat(src, d);
    }
    assert now[at..at + x + y] == was[at..at + x] + was[at..at + y];
  }

  lemma MulLe(x: nat, m: nat, n: nat)
    requires m <= n
    ensures x * m <= x * n
    ensures x > 0 && m < n ==> x * m < x * n
    ensures x * (m + n) == x * m + x * n && x * (n - m) == x * n - x * m
  {
    assert x * n == x * m + x * (n - m);
  }

  /** One turn of the loop of `kmemrepcpy`, with `copied` bytes in place: copies the filled prefix,
      or the part of it still needed, behind itself. */
  method DoubleOnce<T>(a: array<T>, at: nat, ghost src: seq<T>, ghost k: nat, ghost rep: nat,
                       ghost orig: seq<T>, copied: nat, size: nat)
    returns (toCopy: nat, ghost d: nat)
    requires |src| > 0 && 1 <= k <= rep && copied == |src| * k < size == |src| * rep
    requires Filled(orig, a[..], at, src, k, rep)
    modifies a
    ensures toCopy > 0 && k + d <= rep && copied + toCopy == |src| * (k + d) <= size
    ensures Filled(orig, a[..], at, src, k + d, rep)
  {
    hide Repeat, Filled;
    toCopy := if copied + copied > size then size - copied else copied;
    d := if k + k > rep then rep - k else k;
    ToCopy(|src|, k, rep, d);
    FilledRoom(orig, a[..], at, src, k, rep);
    ghost var was := a[..];
    KMemCpy(a, at + copied, at, toCopy);
    assert a[..] == was[..at + copied] + was[at..at + toCopy] + was[at + copied + toCopy..];
    Doubled(orig, was, a[..], at, src, k, d, rep);
  }

  lemma FilledRoom<T>(orig: seq<T>, now: seq<T>, at: nat, src: seq<T>, k: nat, rep: nat)
    requires Filled(orig, now, at, src, k, rep)
    ensures at + |src| * rep <= |orig| == |now|
  {}

  /** `kmemrepcpy`: fills `[at, at + |src| * rep)` with `rep` copies of `src` by doubling the filled
      prefix.  Nothing happens, and false comes back, when there is nothing to copy. */
  method KMemRepCpy<T>(a: array<T>, at: nat, src: seq<T>, rep: nat) returns (ok: bool)
    requires at + |src| * rep <= a.Length
    modifies a
    ensures ok <==> |src| > 0 && rep > 0
    ensures a[..] == old(a[..at]) + Repeat(src, rep) + old(a[at + |src| * rep..])
  {
    hide Repeat, Filled;
    if rep == 0 || |src| == 0 {
      assert |src| * rep == 0;
      assert Repeat(src, rep) == [];
      return false;
    }
    var size := |src| * rep;
    MulLe(|src|, 1, rep);
    KMemCpyIn(a, at, src);
    FilledFirst(old(a[..]), a[..], at, src, rep);
    ghost var k := 1;
    var copied := |src|;
    while copied < size
      invariant 1 <= k <= rep && copied == |src| * k <= size
      invariant Filled(old(a[..]), a[..], at, src, k, rep)
      decreases size - copied
    {
      var toCopy;
      ghost var d;
      toCopy, d := DoubleOnce(a, at, src, k, rep, old(a[..]), copied, size);
      copied := copied + toCopy;
      k := k + d;
    }
    SameCount(|src|, k, rep);
    FilledAll(old(a[..]), a[..], at, src, rep);
    ok := true;
  }

  lemma SameCount(x: nat, k: nat, rep: nat)
    requires x > 0 && k <= rep && x * k >= x * rep
    ensures k == rep
  {
    MulLe(x, k, rep);
  }

  lemma RepeatOnce<T>(s: seq<T>)
    ensures Repeat(s, 1) == s
  {
    assert Repeat(s, 0) + s == s;
  }

  /** The byte count of a doubling step is a whole number of copies. */
  lemma ToCopy(x: nat, k: nat, rep: nat, d: nat)
    requires x > 0 && 1 <= k <= rep && x * k < x * rep && d == if k + k > rep then rep - k else k
    ensures 0 < x * d <= x * k
    ensures k + d <= rep && x * (k + d) == x * k + x * d
    ensures x * d == if x * k + x * k > x * rep then x * rep - x * k else x * k
  {
    MulLe(x, k, k);
    MulLe(x, d, k);
    MulLe(x, k, rep);
    if k + k > rep { MulLe(x, rep, k + k); } else { MulLe(x, k + k, rep); }
    MulLe(x, 0, d);
  }
}
