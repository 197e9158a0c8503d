/** The vectored I/O iterator of `src/com/lib/ioviter.c`: a position in a list of disjoint buffers that
    stands for a position in their concatenation. */
module IovIter {
  import opened Pages
  import opened Arith

  /** The buffers of the iovecs laid end to end. */
  function Flat(bufs: seq<seq<byte>>): seq<byte> { if bufs == [] then [] else bufs[0] + Flat(bufs[1..]) }

  /** The position at which buffer `i` starts. */
  function Start(bufs: seq<seq<byte>>, i: nat): nat
    requires i <= |bufs|
  {
    |Flat(bufs[..i])|
  }

  lemma {:induction false} FlatConcat(a: seq<seq<byte>>, b: seq<seq<byte>>)
    ensures Flat(a + b) == Flat(a) + Flat(b)
  {
    if a == [] {
      assert a + b == b;
    } else {
      assert (a + b)[1..] == a[1..] + b;
      FlatConcat(a[1..], b);
    }
  }

  lemma FlatCut(a: seq<seq<byte>>, m: seq<byte>, b: seq<seq<byte>>)
    ensures Flat(a + [m] + b) == Flat(a) + m + Flat(b)
    ensures Flat(a + [m]) == Flat(a) + m
  {
    hide Flat;
    FlatConcat(a, [m]);
    FlatConcat(a + [m], b);
    FlatOne(m);
  }

  /** The concatenation cut around buffer `i`. */
  lemma FlatAt(bufs: seq<seq<byte>>, i: nat)
    requires i < |bufs|
    ensures Flat(bufs) == Flat(bufs[..i]) + bufs[i] + Flat(bufs[i + 1..])
    ensures Start(bufs, i + 1) == Start(bufs, i) + |bufs[i]| <= |Flat(bufs)|
  {
    hide Flat;
    FlatCut(bufs[..i], bufs[i], bufs[i + 1..]);
    Cut(bufs, i);
  }

  lemma Cut<T>(s: seq<T>, i: nat)
    requires i < |s|
    ensures s[..i] + [s[i]] == s[..i + 1] && s[..i] + [s[i]] + s[i + 1..] == s
  {}

  lemma FlatOne(b: seq<byte>)
    ensures Flat([b]) == b
  {
    var s: seq<seq<byte>> := [b];
    assert s[1..] == [];
  }

  lemma SliceAt(bufs: seq<seq<byte>>, i: nat, o: nat, n: nat)
    requires i < |bufs| && o + n <= |bufs[i]|
    ensures Start(bufs, i) + o + n <= |Flat(bufs)|
    ensures Flat(bufs)[Start(bufs, i) + o..Start(bufs, i) + o + n] == bufs[i][o..o + n]
  {
    FlatAt(bufs, i);
  }

  lemma PatchAt(bufs: seq<seq<byte>>, i: nat, o: nat, d: seq<byte>)
    requires i < |bufs| && o + |d| <= |bufs[i]|
    ensures Start(bufs, i) + o + |d| <= |Flat(bufs)|
    ensures Flat(bufs[i := Patch(bufs[i], o, d)]) == Patch(Flat(bufs), Start(bufs, i) + o, d)
  {
    hide Flat;
    var b := bufs[i := Patch(bufs[i], o, d)];
    FlatAt(bufs, i);
    FlatAt(b, i);
    assert b[..i] == bufs[..i] && b[i + 1..] == bufs[i + 1..];
    PatchMid(Flat(bufs[..i]), bufs[i], Flat(bufs[i + 1..]), o, d);
  }

  lemma PatchMid(x: seq<byte>, y: seq<byte>, z: seq<byte>, o: nat, d: seq<byte>)
    requires o + |d| <= |y|
    ensures Patch(x + y + z, |x| + o, d) == x + Patch(y, o, d) + z
  {
    var p, q := Patch(x + y + z, |x| + o, d), x + Patch(y, o, d) + z;
    forall k | 0 <= k < |p| ensures p[k] == q[k] {}
  }

  lemma PatchMore(f: seq<byte>, t: nat, a: seq<byte>, b: seq<byte>)
    requires t + |a| + |b| <= |f|
    ensures Patch(Patch(f, t, a), t + |a|, b) == Patch(f, t, a + b)
  {
    var p, q := Patch(Patch(f, t, a), t + |a|, b), Patch(f, t, a + b);
    forall k | 0 <= k < |p| ensures p[k] == q[k] {}
  }

  /** The buffers from `i` on; the measure of the loops. */
  lemma LastStart(bufs: seq<seq<byte>>, i: nat, o: nat)
    requires i < |bufs| && o == |bufs[i]| && Start(bufs, i) + o < |Flat(bufs)|
    ensures i + 1 < |bufs|
  {
    var rest := bufs[i + 1..];
    FlatAt(bufs, i);
    assert rest != [];
  }

  /** Buffer `i`, offset `o` is a way to say position `t`. */
  ghost predicate Stands(bufs: seq<seq<byte>>, i: nat, o: nat, t: nat) {
    i < |bufs| && o <= |bufs[i]| && t == Start(bufs, i) + o <= |Flat(bufs)|
  }

  class Iter {
    var bufs: seq<seq<byte>>
    var currIov: nat
    var currOff: nat
    var totalOff: nat
    var totalSize: nat

    ghost predicate Valid()
      reads this
    {
      totalSize == |Flat(bufs)| && Stands(bufs, currIov, currOff, totalOff)
    }

    /** `kioviter_init`; without an iovec there is no position to stand on, but nothing to read either. */
    constructor (iovs: seq<seq<byte>>)
      ensures bufs == iovs && totalOff == 0 && totalSize == |Flat(iovs)|
      ensures Valid() <==> iovs != []
    {
      bufs, currIov, currOff, totalOff := iovs, 0, 0, 0;
      var size, i := 0, 0;
      while i < |iovs|
        invariant 0 <= i <= |iovs| && size == Start(iovs, i)
      {
        FlatAt(iovs, i);
        size := size + |iovs[i]|;
        i := i + 1;
      }
      totalSize := size;
      assert iovs[..|iovs|] == iovs && iovs[..0] == [];
    }

    /** The move to the next iovec when the current one is used up. */
    method Advance()
      requires Valid()
      modifies this`currIov, this`currOff
      ensures Valid()
      ensures if old(currOff) == |bufs[old(currIov)]| && totalOff != totalSize
              then currIov == old(currIov) + 1 && currOff == 0
              else currIov == old(currIov) && currOff == old(currOff)
    {
      if currOff == |bufs[currIov]| && totalOff != totalSize {
        LastStart(bufs, currIov, currOff);
        FlatAt(bufs, currIov);
        FlatAt(bufs, currIov + 1);
        currIov := currIov + 1;
        currOff := 0;
      }
    }

    /** `kioviter_skip`: the position moves forward by `count`, or to the end. */
    method Skip(count: nat) returns (remaining: nat)
      requires Valid()
      modifies this`currIov, this`currOff, this`totalOff
      ensures Valid() && totalOff == Min(old(totalOff) + count, totalSize) && remaining == totalSize - totalOff
      ensures currIov >= old(currIov)
      ensures count == |bufs[old(currIov)]| - old(currOff) && totalOff != totalSize ==> currIov > old(currIov)
    {
      hide Start, Flat;
      var first := totalOff;
      SkipOnce(count);
      var left := count - (totalOff - first);
      while left != 0 && totalOff != totalSize
        invariant Valid() && 0 <= left <= count && totalOff + left == old(totalOff) + count && currIov >= old(currIov)
        invariant count == |bufs[old(currIov)]| - old(currOff) && totalOff != totalSize ==> currIov > old(currIov)
        decreases left + |bufs| - currIov
      {
        var was := totalOff;
        SkipOnce(left);
        left := left - (totalOff - was);
      }
      remaining := totalSize - totalOff;
    }

    /** One turn of the loop of `kioviter_skip`. */
    method SkipOnce(count: nat)
      requires Valid()
      modifies this`currIov, this`currOff, this`totalOff
      ensures Valid() && totalOff == old(totalOff) + Min(|bufs[old(currIov)]| - old(currOff), count)
      ensures currIov >= old(currIov)
      ensures totalOff <= old(totalOff) + count
      ensures |bufs[old(currIov)]| - old(currOff) <= count && totalOff != totalSize ==> currIov == old(currIov) + 1
    {
      var currSkip := Min(|bufs[currIov]| - currOff, count);
      FlatAt(bufs, currIov);
      totalOff := totalOff + currSkip;
      currOff := currOff + currSkip;
      Advance();
    }

    /** `kioviter_goto`: the position is `off`, or the end, from anywhere. */
    method Goto(off: nat) returns (remaining: nat)
      requires Valid()
      modifies this`currIov, this`currOff, this`totalOff
      ensures Valid() && totalOff == Min(off, totalSize) && remaining == totalSize - totalOff
    {
      if off > totalOff {
        remaining := Skip(off - totalOff);
        return;
      }
      currIov, currOff, totalOff := 0, 0, 0;
      assert bufs[..0] == [];
      remaining := Skip(off);
    }

    /** `kioviter_read`: the next bytes of the concatenation, as many as asked for and left. */
    method Read(buflen: nat) returns (buf: seq<byte>)
      requires Valid()
      modifies this`currIov, this`currOff, this`totalOff
      ensures Valid() && totalOff == Min(old(totalOff) + buflen, totalSize) && old(totalOff) <= totalOff
      ensures buf == Flat(bufs)[old(totalOff)..totalOff]
    {
      hide Start, Flat;
      ghost var f, t := Flat(bufs), totalOff;
      var totRem := Min(buflen, totalSize - totalOff);
      ghost var stop := totalOff + totRem;
      buf := ReadOnce(totRem);
      totRem := totRem - |buf|;
      while totRem != 0 && totalOff != totalSize
        invariant Valid() && 0 <= totRem && t <= totalOff && totalOff + totRem == stop <= totalSize
        invariant buf == f[t..totalOff]
        decreases totRem + |bufs| - currIov
      {
        ghost var at := totalOff;
        var more := ReadOnce(totRem);
        assert f[t..totalOff] == f[t..at] + f[at..totalOff];
        buf := buf + more;
        totRem := totRem - |more|;
      }
    }

    /** One turn of the loop of `kioviter_read`. */
    method ReadOnce(totRem: nat) returns (chunk: seq<byte>)
      requires Valid() && totRem <= totalSize - totalOff
      modifies this`currIov, this`currOff, this`totalOff
      ensures Valid() && |chunk| <= totRem && totalOff == old(totalOff) + |chunk|
      ensures chunk == Flat(bufs)[old(totalOff)..totalOff]
      ensures currIov >= old(currIov) && (|chunk| == totRem || currIov > old(currIov))
    {
      var copySize := Min(|bufs[currIov]| - currOff, totRem);
      SliceAt(bufs, currIov, currOff, copySize);
      chunk := bufs[currIov][currOff..currOff + copySize];
      hide Start, Flat;
      var _ := Skip(copySize);
    }

    /** `kioviter_write`: the bytes of `buf`, as many as there is room for, go to the next positions of the
        concatenation and change nothing else. */
    method Write(buf: seq<byte>) returns (count: nat)
      requires Valid()
      modifies this
      ensures Valid() && totalSize == old(totalSize) && count == Min(|buf|, totalSize - old(totalOff))
      ensures totalOff == old(totalOff) + count
      ensures Flat(bufs) == Patch(old(Flat(bufs)), old(totalOff), buf[..count])
    {
      hide Start, Flat, Patch;
      ghost var f, t := Flat(bufs), totalOff;
      var totRem := Min(|buf|, totalSize - totalOff);
      ghost var n := totRem;
      count := WriteOnce(buf, totRem);
      totRem := totRem - count;
      while totRem != 0 && totalOff != totalSize
        invariant Valid() && totalSize == |f| && 0 <= totRem && count + totRem == n && n <= |buf| && t + n <= |f|
        invariant totalOff == t + count
        invariant Flat(bufs) == Patch(f, t, buf[..count])
        decreases totRem + |bufs| - currIov
      {
        var more := WriteOnce(buf[count..], totRem);
        assert buf[..count + more] == buf[..count] + buf[count..][..more];
        PatchMore(f, t, buf[..count], buf[count..][..more]);
        count := count + more;
        totRem := totRem - more;
      }
    }

    /** One turn of the loop of `kioviter_write`. */
    method WriteOnce(buf: seq<byte>, totRem: nat) returns (copySize: nat)
      requires Valid() && totRem <= totalSize - totalOff && totRem <= |buf|
      modifies this
      ensures Valid() && totalSize == old(totalSize) && copySize <= totRem && totalOff == old(totalOff) + copySize
      ensures Flat(bufs) == Patch(old(Flat(bufs)), old(totalOff), buf[..copySize])
      ensures currIov >= old(currIov) && (copySize == totRem || currIov > old(currIov))
      ensures |bufs| == |old(bufs)|
    {
      copySize := Min(|bufs[currIov]| - currOff, totRem);
      PatchAt(bufs, currIov, currOff, buf[..copySize]);
      bufs := bufs[currIov := Patch(bufs[currIov], currOff, buf[..copySize])];
      assert bufs[..currIov] == old(bufs)[..currIov];
      hide Start, Flat;
      var _ := Skip(copySize);
    }
  }
}
