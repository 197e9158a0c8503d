/** The ring buffer of `src/com/lib/ringbuffer.c` and the pipe of `src/com/fs/pipefs.c` in place: a byte
    array of 2^k bytes and two 64-bit indices that only ever grow and wrap. */
module RingBuffer {
  import opened Options
  import opened Pages
  import opened Words
  import opened Arith
  import opened MemRep

  /** 64-bit subtraction. */
  function Sub64(x: nat, y: nat): nat
    requires x < WORD && y < WORD
  {
    if x >= y then x - y else x + WORD - y
  }

  /** 64-bit addition. */
  function Add64(x: nat, y: nat): nat { (x + y) % WORD }

  /** From position `at` on, wrapping round, the buffer `b` holds the bytes `q`. */
  predicate Holds(b: seq<byte>, at: nat, q: seq<byte>) {
    at < |b| && |q| <= |b| && forall j: nat | j < |q| :: b[Wrap(at + j, |b|)] == q[j]
  }

  // ------------------------------------------------------------------ the two copies

  /** `b` after `d` has been copied in from `at` on, in one piece or two. */
  function Written(b: seq<byte>, at: nat, d: seq<byte>): seq<byte>
    requires at < |b| && |d| <= |b|
  {
    var left := |b| - at;
    if |d| <= left then b[..at] + d + b[at + |d|..]
    else d[left..] + b[|d| - left..at] + d[..left]
  }

  lemma WrittenAt(b: seq<byte>, at: nat, d: seq<byte>, x: nat)
    requires at < |b| && |d| <= |b| && x < |b|
    ensures |Written(b, at, d)| == |b|
    ensures Written(b, at, d)[x]
         == if at <= x < at + |d| then d[x - at] else if x + |b| < at + |d| then d[x + |b| - at] else b[x]
  {}

  lemma WriteHolds(b: seq<byte>, at: nat, q: seq<byte>, d: seq<byte>)
    requires Holds(b, at, q) && |q| + |d| <= |b|
    ensures d != [] ==> Holds(Written(b, Wrap(at + |q|, |b|), d), at, q + d)
    ensures Wrap(at + |q|, |b|) < |b|
  {
    if d != [] {
      hide Written;
      var idx := Wrap(at + |q|, |b|);
      var b' := Written(b, idx, d);
      WrittenAt(b, idx, d, 0);
      forall j: nat | j < |q + d| ensures b'[Wrap(at + j, |b|)] == (q + d)[j] {
        WrittenAt(b, idx, d, Wrap(at + j, |b|));
      }
    }
  }

  /** The `n` bytes from `at` on, fetched in one piece or two. */
  function Fetched(b: seq<byte>, at: nat, n: nat): seq<byte>
    requires at < |b| && n <= |b|
  {
    var left := |b| - at;
    if n <= left then b[at..at + n] else b[at..] + b[..n - left]
  }

  lemma FetchHolds(b: seq<byte>, at: nat, q: seq<byte>, n: nat)
    requires Holds(b, at, q) && n <= |q|
    ensures Fetched(b, at, n) == q[..n] && Wrap(at + n, |b|) < |b| && Holds(b, Wrap(at + n, |b|), q[n..])
  {
    var f, at' := Fetched(b, at, n), Wrap(at + n, |b|);
    forall j: nat | j < n ensures f[j] == q[j] { assert b[Wrap(at + j, |b|)] == q[j]; }
    forall j: nat | j < |q[n..]| ensures b[Wrap(at' + j, |b|)] == q[n..][j] {
      assert Wrap(at' + j, |b|) == Wrap(at + (n + j), |b|);
      assert b[Wrap(at + (n + j), |b|)] == q[n + j];
    }
  }

  // ------------------------------------------------------------------ indices that wrap

  /** An unbounded position and the masked 64-bit index that stands for it pick the same slot. */
  lemma MaskedIndex(x: nat, bits: nat)
    requires bits <= 64
    ensures Pow2(64) == WORD && BitAnd(x % WORD, Pow2(bits) - 1) == x % Pow2(bits)
  {
    WordIsPow2();
    Pow2Sum(bits, 64 - bits);
    ModOfMod(x, Pow2(bits), Pow2(64 - bits), WORD);
    MaskMod(x % WORD, bits);
  }

  function Slot(x: nat, c: nat): nat
    requires c > 0
  {
    x % c
  }

  function Slot64(x: nat, c: nat): nat
    requires c > 0
  {
    x % WORD % c
  }

  /** Wrapping indices pick the right slots exactly for the capacities that divide 2^64. */
  lemma WrapsRight(c: nat)
    requires c > 0
    ensures (forall x: nat :: Slot64(x, c) == Slot(x, c)) <==> WORD % c == 0
  {
    assert Slot64(WORD, c) == 0 by { DivUnique(WORD, WORD, 1, 0); DivUnique(0, c, 0, 0); }
    if WORD % c == 0 {
      DivMod(WORD, c);
      forall x: nat ensures Slot64(x, c) == Slot(x, c) { ModOfMod(x, c, WORD / c, WORD); }
    } else {
      assert Slot(WORD, c) != 0;
    }
  }

  /** The slot the ring uses for position `x`: a wrapped index masked with the capacity less one. */
  function Masked64(x: nat, c: nat): nat
    requires c > 0
  {
    BitAnd(x % WORD, c - 1)
  }

  predicate IsPow2(c: nat) { exists k: nat :: k <= 64 && c == Pow2(k) }

  /** Masked wrapping indices pick the right slots exactly for capacities that are powers of two up to 2^64. */
  lemma MasksRight(c: nat)
    requires c > 0
    ensures (forall x: nat :: Masked64(x, c) == Slot(x, c)) <==> IsPow2(c)
  {
    hide BitAnd, Pow2;
    if IsPow2(c) {
      var k: nat :| k <= 64 && c == Pow2(k);
      forall x: nat ensures Masked64(x, c) == Slot(x, c) { MaskedIndex(x, k); }
    } else {
      NotMasked(c);
    }
  }

  /** Another capacity fails at a position: the capacity itself, or 2^64 beyond that. */
  lemma NotMasked(c: nat)
    requires c > 0 && !IsPow2(c)
    ensures exists x: nat :: Masked64(x, c) != Slot(x, c)
  {
    hide BitAnd, Pow2;
    WordIsPow2();
    if c < WORD {
      DivUnique(c, c, 1, 0);
      DivUnique(c, WORD, 0, c);
      OneBitSet(c);
      SmallPow2(c);
      assert Masked64(c, c) != Slot(c, c);
    } else {
      assert IsPow2(WORD);
      DivUnique(WORD, WORD, 1, 0);
      DivUnique(WORD, c, 0, WORD);
      ZeroAnd(c - 1);
      assert Masked64(WORD, c) != Slot(WORD, c);
    }
  }

  lemma SmallPow2(c: nat)
    requires c < WORD
    ensures (exists k: nat :: c == Pow2(k)) ==> IsPow2(c)
  {
    WordIsPow2();
    hide Pow2;
    forall k: nat | c == Pow2(k) ensures k <= 64 { if k > 64 { Pow2Grows(64, k); } }
  }

  lemma WordIsPow2()
    ensures Pow2(64) == WORD
  {
    Pow2Sum(32, 32);
    assert Pow2(32) == 0x1_0000_0000 by {
      Pow2Sum(16, 16);
      assert Pow2(16) == 0x1_0000 by { Pow2Sum(8, 8); assert Pow2(8) == 256; }
    }
  }

  /** The difference of the two indices is the number of unread bytes. */
  lemma Difference(taken: nat, n: nat)
    requires n < WORD
    ensures Sub64((taken + n) % WORD, taken % WORD) == n
    ensures Add64(taken % WORD, n) == (taken + n) % WORD
  {
    Gap(taken, n, WORD);
  }

  /** The one or two `kmemcpy` calls that copy `d` into the buffer at `idx`. */
  method CopyIn(buffer: array<byte>, idx: nat, d: seq<byte>)
    requires idx < buffer.Length && |d| <= buffer.Length
    modifies buffer
    ensures buffer[..] == Written(old(buffer[..]), idx, d)
  {
    hide Written;
    ghost var b := buffer[..];
    var left := buffer.Length - idx;
    KMemCpyIn(buffer, idx, d[..Min(|d|, left)]);
    assert buffer[..] == Patch(b, idx, d[..Min(|d|, left)]);
    if |d| > left {
      ghost var b1 := buffer[..];
      KMemCpyIn(buffer, 0, d[left..]);
      assert buffer[..] == Patch(b1, 0, d[left..]);
    }
    Pieces(b, idx, d);
  }

  /** One or two copies write all of `d`. */
  lemma Pieces(b: seq<byte>, idx: nat, d: seq<byte>)
    requires idx < |b| && |d| <= |b|
    ensures var left := |b| - idx;
      Written(b, idx, d) == if |d| <= left then Patch(b, idx, d[..Min(|d|, left)])
                            else Patch(Patch(b, idx, d[..left]), 0, d[left..])
  {
    var left := |b| - idx;
    if |d| <= left {
      assert d[..|d|] == d;
    } else {
      var b1 := Patch(b, idx, d[..left]);
      assert b1 == b[..idx] + d[..left];
      assert b1[|d| - left..] == b[|d| - left..idx] + d[..left];
    }
  }

  /** How much a turn of a writer that needs room for `need` bytes writes; none if it has to wait. */
  function TurnSize(room: nat, need: nat, left: nat): Option<nat> {
    if room < need then None else Some(Min(left, room))
  }

  /** A buffer of 2^bits bytes with its two indices: `stream` is every byte ever written and `taken`
      how many of them have been read. */
  ghost predicate RingOk(b: seq<byte>, bits: nat, read: nat, write: nat, stream: seq<byte>, taken: nat) {
    && bits < 64 && |b| == Pow2(bits) && |b| < WORD
    && taken <= |stream| <= taken + |b|
    && read == taken % WORD && write == |stream| % WORD
    && Holds(b, taken % |b|, stream[taken..])
  }

  /** What the macros and the masked indices compute. */
  lemma Indices(b: seq<byte>, bits: nat, read: nat, write: nat, stream: seq<byte>, taken: nat)
    requires RingOk(b, bits, read, write, stream, taken)
    ensures |b| > 0 && taken <= |stream| <= taken + |b|
    ensures read < WORD && write < WORD && Sub64(write, read) == |stream| - taken
    ensures BitAnd(read, |b| - 1) == taken % |b| < |b|
    ensures BitAnd(write, |b| - 1) == |stream| % |b| == Wrap(taken % |b| + (|stream| - taken), |b|) < |b|
  {
    hide Holds, BitAnd;
    var n := |stream| - taken;
    Difference(taken, n);
    MaskedIndex(taken, bits);
    MaskedIndex(|stream|, bits);
    ModAdd(taken, n, |b|);
    DivMod(taken, |b|);
    DivMod(|stream|, |b|);
  }

  lemma PutOk(b: seq<byte>, bits: nat, read: nat, write: nat, stream: seq<byte>, taken: nat, d: seq<byte>)
    requires RingOk(b, bits, read, write, stream, taken) && 0 < |d| <= |b| - (|stream| - taken)
    ensures |stream| % |b| < |b|
    ensures RingOk(Written(b, |stream| % |b|, d), bits, read, Add64(write, |d|), stream + d, taken)
  {
    hide Holds, Written, BitAnd;
    Indices(b, bits, read, write, stream, taken);
    WriteHolds(b, taken % |b|, stream[taken..], d);
    WrittenAt(b, |stream| % |b|, d, 0);
    Difference(|stream|, |d|);
    assert (stream + d)[taken..] == stream[taken..] + d;
  }

  lemma GetOk(b: seq<byte>, bits: nat, read: nat, write: nat, stream: seq<byte>, taken: nat, n: nat)
    requires RingOk(b, bits, read, write, stream, taken) && n <= |stream| - taken
    ensures taken % |b| < |b| && n <= |b| && RingOk(b, bits, Add64(read, n), write, stream, taken + n)
    ensures Fetched(b, taken % |b|, n) == stream[taken..taken + n]
  {
    hide Holds, Fetched, BitAnd;
    Indices(b, bits, read, write, stream, taken);
    FetchHolds(b, taken % |b|, stream[taken..], n);
    Difference(taken, n);
    ModAdd(taken, n, |b|);
    assert stream[taken..][n..] == stream[taken + n..];
    assert stream[taken..][..n] == stream[taken..taken + n];
  }

  class Ring {
    ghost const bits: nat
    const size: nat
    const buffer: array<byte>
    var read: nat
    var write: nat
    var eof: bool
    /** Every byte ever written, and how many of them have been read. */
    ghost var stream: seq<byte>
    ghost var taken: nat

    ghost predicate Valid()
      reads this, buffer
    {
      buffer.Length == size && RingOk(buffer[..], bits, read, write, stream, taken)
    }

    /** KRINGBUFFER_INIT_CUSTOM on a buffer of 2^k bytes. */
    constructor (ghost k: nat, b: array<byte>)
      requires k < 64 && b.Length == Pow2(k) && b.Length < WORD
      ensures Valid() && buffer == b && stream == [] && taken == 0 && !eof && bits == k
    {
      bits, size, buffer := k, b.Length, b;
      read, write, eof := 0, 0, false;
      stream, taken := [], 0;
    }

    function AvailRead(): nat
      reads this
      requires read < WORD && write < WORD
    {
      Sub64(write, read)
    }

    /** Copies `d` in behind the unread bytes: the body shared by `write_blocking`, `write_nonblocking`
        and `com_fs_pipefs_write`. */
    method Put(d: seq<byte>)
      requires Valid() && 0 < |d| <= size - (|stream| - taken)
      modifies this`write, this`stream, buffer
      ensures Valid() && stream == old(stream) + d && write == Add64(old(write), |d|)
      ensures size > 0 && BitAnd(old(write), size - 1) < size
      ensures buffer[..] == Written(old(buffer[..]), BitAnd(old(write), size - 1), d)
    {
      hide RingOk, Written, BitAnd, Add64;
      ghost var b := buffer[..];
      Indices(b, bits, read, write, stream, taken);
      PutOk(b, bits, read, write, stream, taken, d);
      CopyIn(buffer, BitAnd(write, size - 1), d);
      write := Add64(write, |d|);
      stream := stream + d;
    }

    /** Takes the first `n` unread bytes out. */
    method Get(n: nat) returns (out: seq<byte>)
      requires Valid() && n <= |stream| - taken
      modifies this`read, this`taken
      ensures Valid() && taken == old(taken) + n && out == stream[old(taken)..taken] && read == Add64(old(read), n)
    {
      hide RingOk, BitAnd, Add64;
      Indices(buffer[..], bits, read, write, stream, taken);
      GetOk(buffer[..], bits, read, write, stream, taken, n);
      var idx := BitAnd(read, size - 1);
      var left := size - idx;
      out := buffer[idx..idx + Min(n, left)];
      if n > left {
        out := out + buffer[..n - left];
      }
      assert out == Fetched(buffer[..], idx, n);
      read := Add64(read, n);
      taken := taken + n;
    }

    /** One turn of the loop of `write_blocking`: it waits, hence `None`, until `need` bytes are free. */
    method WriteTurn(d: seq<byte>, need: nat) returns (n: Option<nat>)
      requires Valid() && |d| > 0
      modifies this`write, this`stream, buffer
      ensures Valid() && n == TurnSize(size - (old(|stream|) - taken), need, |d|)
      ensures n.None? <==> size - (old(|stream|) - taken) < need
      ensures n.Some? ==> n.value == Min(|d|, size - (old(|stream|) - taken))
      ensures stream == old(stream) + if n.Some? then d[..n.value] else []
    {
      hide RingOk;
      Indices(buffer[..], bits, read, write, stream, taken);
      var room := size - AvailRead();
      if room < need {
        return None;
      }
      var can := Min(|d|, room);
      if can > 0 {
        Put(d[..can]);
      }
      n := Some(can);
    }

    /** `write_nonblocking`: all or part of `d`, or EAGAIN when that is less than `atomic` bytes. */
    method WriteNonblocking(d: seq<byte>, atomic: nat) returns (n: Option<nat>)
      requires Valid()
      modifies this`write, this`stream, buffer
      ensures Valid() && (n.Some? <==> Min(|d|, size - (old(|stream|) - taken)) >= atomic)
      ensures n.Some? ==> n.value == Min(|d|, size - (old(|stream|) - taken))
      ensures stream == old(stream) + if n.Some? then d[..n.value] else []
    {
      hide RingOk;
      Indices(buffer[..], bits, read, write, stream, taken);
      var can := Min(|d|, size - AvailRead());
      if can < atomic {
        return None;
      }
      if can > 0 {
        Put(d[..can]);
      }
      n := Some(can);
    }

    /** `kringbuffer_read_nolock` once it does not wait: it reads nothing at the end of file, which it
        clears, else up to `want` bytes.  `None` stands for waiting, or EAGAIN. */
    method ReadTurn(want: nat, atomic: nat) returns (out: Option<seq<byte>>)
      requires Valid()
      modifies this`read, this`taken, this`eof
      ensures Valid() && (out.None? <==> |stream| - old(taken) < atomic && !old(eof))
      ensures out.None? ==> taken == old(taken) && eof == old(eof)
      ensures out.Some? ==> taken == old(taken) + if old(eof) then 0 else Min(want, |stream| - old(taken))
      ensures out.Some? ==> taken <= |stream| && out.value == stream[old(taken)..taken] && !eof
    {
      hide RingOk;
      Indices(buffer[..], bits, read, write, stream, taken);
      if AvailRead() < atomic && !eof {
        return None;
      }
      if eof {
        eof := false;
        return Some([]);
      }
      var bytes := Get(Min(want, AvailRead()));
      out := Some(bytes);
    }
  }

  const PIPE_BUF: nat := 4096

  /** The room a pipe write of `total` bytes waits for. */
  function PipeNeed(total: nat): nat { if total > PIPE_BUF then 1 else total }

  lemma PipeBits()
    ensures Pow2(12) == PIPE_BUF
  {}

  class Pipe {
    const ring: Ring
    var writeEnd: bool

    ghost predicate Valid()
      reads this, ring, ring.buffer
    {
      ring.Valid() && ring.size == PIPE_BUF
    }

    constructor (b: array<byte>)
      requires b.Length == PIPE_BUF
      ensures Valid() && fresh(ring) && ring.buffer == b && ring.stream == [] && ring.taken == 0 && writeEnd
    {
      PipeBits();
      ring := new Ring(12, b);
      writeEnd := true;
    }

    /** One turn of `com_fs_pipefs_write` with `d` left of a write of `total` bytes: it waits until the
        room it needs is free, which for a write of at most PIPE_BUF bytes is all of it.  On an empty pipe
        it never waits. */
    method WriteTurn(d: seq<byte>, total: nat) returns (n: Option<nat>)
      requires Valid() && 0 < |d| <= total
      modifies ring`write, ring`stream, ring.buffer
      ensures Valid() && n == TurnSize(PIPE_BUF - (old(|ring.stream|) - ring.taken), PipeNeed(total), |d|)
      ensures n.None? <==> 4096 - (old(|ring.stream|) - ring.taken) < if total > 4096 then 1 else total
      ensures n.Some? ==> n.value == Min(|d|, 4096 - (old(|ring.stream|) - ring.taken))
      ensures ring.stream == old(ring.stream) + if n.Some? then d[..n.value] else []
      ensures n.Some? ==> n.value > 0 && (total <= PIPE_BUF ==> n.value == |d|)
      ensures old(|ring.stream|) == ring.taken ==> n == Some(Min(|d|, 4096))
    {
      n := ring.WriteTurn(d, PipeNeed(total));
    }

    /** One turn of `com_fs_pipefs_read` with `left` bytes to go: it waits while the pipe is empty and
        its write end is open. */
    method ReadTurn(left: nat) returns (out: Option<seq<byte>>)
      requires Valid()
      modifies ring`read, ring`taken
      ensures Valid() && (out.None? <==> |ring.stream| == old(ring.taken) && writeEnd)
      ensures out.None? ==> ring.taken == old(ring.taken)
      ensures out.Some? ==> ring.taken == old(ring.taken) + Min(left, |ring.stream| - old(ring.taken))
      ensures out.Some? ==> ring.taken <= |ring.stream| && out.value == ring.stream[old(ring.taken)..ring.taken]
    {
      Indices(ring.buffer[..], ring.bits, ring.read, ring.write, ring.stream, ring.taken);
      if ring.AvailRead() == 0 && writeEnd {
        return None;
      }
      var bytes := ring.Get(Min(left, ring.AvailRead()));
      out := Some(bytes);
    }
  }
}
