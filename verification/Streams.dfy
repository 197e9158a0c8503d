/** All interleavings of the readers and writers of one ring buffer or pipe.  A write is a series of
    turns, each copying a chunk in under the lock; between turns, while the writer waits for room,
    anybody else may run.  The steps compute on the buffer and its wrapping indices what the code in
    `RingBuffer` does in place. */
module Streams {
  import opened Pages
  import opened Words
  import opened Arith
  import opened RingBuffer

  /** A write call: its data, how much of it has been copied, and the room each turn waits for. */
  datatype Writer = Writer(data: seq<byte>, done: nat, need: nat)

  datatype Chunk = Chunk(id: nat, bytes: seq<byte>)

  /** The ring, the write calls, and two histories: `got` is every byte fetched from the buffer, `log` the
      chunks of all turns. */
  datatype St = St(
    buf: seq<byte>, bits: nat, read: nat, write: nat, writers: map<nat, Writer>, got: seq<byte>, log: seq<Chunk>)

  /** The difference of the two 64-bit indices. */
  function Unread(s: St): nat { if s.read < WORD && s.write < WORD then Sub64(s.write, s.read) else 0 }

  function Room(s: St): int { |s.buf| - Unread(s) }

  /** KMOD_FAST. */
  function Masked(s: St, index: nat): nat { if s.buf == [] then 0 else BitAnd(index, |s.buf| - 1) }

  /** The one or two copies into and out of the buffer. */
  function Put(s: St, d: seq<byte>): seq<byte> {
    var at := Masked(s, s.write);
    if at < |s.buf| && |d| <= |s.buf| then Written(s.buf, at, d) else s.buf
  }

  function Taken(s: St, n: nat): seq<byte> {
    var at := Masked(s, s.read);
    if at < |s.buf| && n <= |s.buf| then Fetched(s.buf, at, n) else []
  }

  function Concat(log: seq<Chunk>): seq<byte> {
    if log == [] then [] else Concat(log[..|log| - 1]) + log[|log| - 1].bytes
  }

  /** The bytes of the stream that came from call `id`. */
  function From(log: seq<Chunk>, id: nat): seq<byte> {
    if log == [] then [] else From(log[..|log| - 1], id) + if log[|log| - 1].id == id then log[|log| - 1].bytes else []
  }

  datatype Op = Start(id: nat, data: seq<byte>, need: nat) | Turn(id: nat) | Read(want: nat)

  ghost predicate Enabled(s: St, op: Op) {
    match op
    case Start(id, _, _) => id !in s.writers
    case Turn(id) => id in s.writers && s.writers[id].done < |s.writers[id].data| && Room(s) >= s.writers[id].need
    case Read(_) => true
  }

  ghost function TurnBytes(s: St, id: nat): seq<byte>
    requires Enabled(s, Turn(id))
  {
    var w := s.writers[id];
    var room := if Room(s) >= 0 then Room(s) else 0;
    w.data[w.done..w.done + Min(|w.data| - w.done, room)]
  }

  ghost function Step(s: St, op: Op): St
    requires Enabled(s, op)
  {
    match op
    case Start(id, data, need) => s.(writers := s.writers[id := Writer(data, 0, need)])
    case Turn(id) =>
      var w, b := s.writers[id], TurnBytes(s, id);
      s.(buf := Put(s, b), write := Add64(s.write, |b|), log := s.log + [Chunk(id, b)],
         writers := s.writers[id := w.(done := w.done + |b|)])
    case Read(want) =>
      var n := Min(want, Unread(s));
      s.(got := s.got + Taken(s, n), read := Add64(s.read, n))
  }

  ghost predicate WriterOk(s: St, id: nat)
    requires id in s.writers
  {
    s.writers[id].done <= |s.writers[id].data| && From(s.log, id) == s.writers[id].data[..s.writers[id].done]
  }

  /** The ring holds the bytes written and not read yet, and what was read is the start of what was
      written. */
  ghost predicate RingInv(s: St) {
    RingOk(s.buf, s.bits, s.read, s.write, Concat(s.log), |s.got|) && s.got == Concat(s.log)[..|s.got|]
  }

  ghost predicate CallsOk(s: St) {
    && (forall id :: id in s.writers ==> WriterOk(s, id))
    && (forall id :: id !in s.writers ==> From(s.log, id) == [])
    // a call that waits for room for all of its data has no chunk or one
    && (forall k: nat :: k < |s.log| ==> WholeOk(s, k))
  }

  ghost predicate Inv(s: St) { |s.got| <= |Concat(s.log)| && RingInv(s) && CallsOk(s) }

  ghost predicate WholeOk(s: St, k: nat)
    requires k < |s.log|
  {
    && s.log[k].id in s.writers
    && var w := s.writers[s.log[k].id];
       w.need == |w.data| ==> s.log[k].bytes == w.data && w.done == |w.data|
  }

  /** What the indices say. */
  lemma RingFacts(s: St)
    requires RingInv(s)
    ensures |s.buf| > 0 && |s.got| <= |Concat(s.log)| <= |s.got| + |s.buf|
    ensures Unread(s) == |Concat(s.log)| - |s.got| && 0 <= Room(s)
    ensures Masked(s, s.read) == |s.got| % |s.buf| < |s.buf|
    ensures Masked(s, s.write) == |Concat(s.log)| % |s.buf| < |s.buf|
  {
    hide RingOk, BitAnd, Concat;
    Indices(s.buf, s.bits, s.read, s.write, Concat(s.log), |s.got|);
  }

  lemma AppendLog(log: seq<Chunk>, c: Chunk, id: nat)
    ensures Concat(log + [c]) == Concat(log) + c.bytes
    ensures From(log + [c], id) == From(log, id) + if c.id == id then c.bytes else []
  {
    assert (log + [c])[..|log|] == log;
  }

  /** A turn writes its chunk behind the unread bytes, wherever that is in the buffer. */
  lemma TurnRing(s: St, id: nat)
    requires RingInv(s) && Enabled(s, Turn(id))
    ensures RingInv(Step(s, Turn(id)))
  {
    hide RingOk, Concat, BitAnd, Written, Add64;
    RingFacts(s);
    var b := TurnBytes(s, id);
    AppendLog(s.log, Chunk(id, b), id);
    if b == [] {
      NoBytes(s.buf, s.bits, s.read, s.write, Concat(s.log), |s.got|);
      assert Concat(s.log) + [] == Concat(s.log);
    } else {
      PutOk(s.buf, s.bits, s.read, s.write, Concat(s.log), |s.got|, b);
    }
  }

  lemma NoBytes(buf: seq<byte>, bits: nat, read: nat, write: nat, stream: seq<byte>, taken: nat)
    requires RingOk(buf, bits, read, write, stream, taken)
    ensures |stream| % |buf| < |buf| && Written(buf, |stream| % |buf|, []) == buf && Add64(write, 0) == write
  {
    hide RingOk, Written, Add64, BitAnd;
    Indices(buf, bits, read, write, stream, taken);
    WrittenNone(buf, |stream| % |buf|);
    AddNone(write);
  }

  lemma WrittenNone(b: seq<byte>, at: nat)
    requires at < |b|
    ensures Written(b, at, []) == b
  {}

  lemma AddNone(x: nat)
    requires x < WORD
    ensures Add64(x, 0) == x
  {}

  /** A read fetches the oldest unread bytes, wherever they are in the buffer. */
  lemma ReadRing(s: St, want: nat)
    requires RingInv(s)
    ensures RingInv(Step(s, Read(want))) && |Step(s, Read(want)).got| <= |Concat(s.log)|
  {
    hide RingOk, Concat, BitAnd, Fetched, Add64;
    RingFacts(s);
    var n, stream := Min(want, Unread(s)), Concat(s.log);
    GetOk(s.buf, s.bits, s.read, s.write, stream, |s.got|, n);
    assert stream[..|s.got|] + stream[|s.got|..|s.got| + n] == stream[..|s.got| + n];
  }

  lemma TurnCalls(s: St, id: nat)
    requires Inv(s) && Enabled(s, Turn(id))
    ensures CallsOk(Step(s, Turn(id)))
  {
    hide From, Concat, RingInv;
    var s', w, b := Step(s, Turn(id)), s.writers[id], TurnBytes(s, id);
    var c := Chunk(id, b);
    AppendLog(s.log, c, id);
    assert WriterOk(s, id);
    forall i | i in s'.writers ensures WriterOk(s', i) {
      AppendLog(s.log, c, i);
      assert i in s.writers && WriterOk(s, i);
      assert w.data[..w.done] + b == w.data[..w.done + |b|];
    }
    forall i | i !in s'.writers ensures From(s'.log, i) == [] { AppendLog(s.log, c, i); }
    forall k: nat | k < |s'.log| ensures WholeOk(s', k) {
      if k < |s.log| { assert WholeOk(s, k); }
      else if w.need == |w.data| { WholeOnce(s, id); }
    }
  }

  /** A call that needs room for everything has written nothing until its only turn. */
  lemma WholeOnce(s: St, id: nat)
    requires Inv(s) && Enabled(s, Turn(id)) && s.writers[id].need == |s.writers[id].data|
    ensures s.writers[id].done == 0 && TurnBytes(s, id) == s.writers[id].data
  {
    if s.writers[id].done > 0 { WholeDone(s, id); }
  }

  lemma WholeDone(s: St, id: nat)
    requires Inv(s) && id in s.writers && s.writers[id].need == |s.writers[id].data| && s.writers[id].done > 0
    ensures s.writers[id].done == |s.writers[id].data|
    ensures exists k: nat :: k < |s.log| && s.log[k] == Chunk(id, s.writers[id].data)
  {
    assert WriterOk(s, id);
    FromSome(s.log, id);
    var k: nat :| k < |s.log| && s.log[k].id == id;
    assert WholeOk(s, k) && s.log[k] == Chunk(id, s.writers[id].data);
  }

  lemma {:induction false} FromSome(log: seq<Chunk>, id: nat)
    requires From(log, id) != []
    ensures exists k: nat :: k < |log| && log[k].id == id
  {
    if log[|log| - 1].id == id {
      var k: nat := |log| - 1;
      assert log[k].id == id;
    } else {
      FromSome(log[..|log| - 1], id);
      var k: nat :| k < |log| - 1 && log[..|log| - 1][k].id == id;
      assert log[k].id == id;
    }
  }

  lemma StepKeepsInv(s: St, op: Op)
    requires Inv(s) && Enabled(s, op)
    ensures Inv(Step(s, op)) && |Step(s, op).buf| == |s.buf|
  {
    hide RingInv, Concat, Put;
    var s' := Step(s, op);
    match op {
      case Turn(id) =>
        TurnRing(s, id);
        TurnCalls(s, id);
        RingSize(s, s');
        SameSize(s, TurnBytes(s, id));
      case Start(id, data, need) =>
        forall i | i in s'.writers ensures WriterOk(s', i) { if i != id { assert WriterOk(s, i); } }
        forall k: nat | k < |s'.log| ensures WholeOk(s', k) { assert WholeOk(s, k); }
        SameRing(s, s');
      case Read(want) =>
        ReadRing(s, want);
        forall i | i in s'.writers ensures WriterOk(s', i) { assert WriterOk(s, i); }
        forall k: nat | k < |s'.log| ensures WholeOk(s', k) { assert WholeOk(s, k); }
    }
  }

  lemma RingSize(s: St, s': St)
    requires RingInv(s')
    ensures |s'.got| <= |Concat(s'.log)|
  {
    RingFacts(s');
  }

  lemma SameSize(s: St, d: seq<byte>)
    ensures |Put(s, d)| == |s.buf|
  {
    if Masked(s, s.write) < |s.buf| && |d| <= |s.buf| { WrittenAt(s.buf, Masked(s, s.write), d, 0); }
  }

  lemma SameRing(s: St, s': St)
    requires RingInv(s) && s'.buf == s.buf && s'.bits == s.bits && s'.read == s.read && s'.write == s.write
    requires s'.got == s.got && s'.log == s.log
    ensures RingInv(s')
  {}

  // ------------------------------------------------------------------ what a step does

  /** The bytes written and not read yet. */
  ghost function Outstanding(s: St): int { |Concat(s.log)| - |s.got| }

  /** A writer's turn comes exactly when the room it waits for is free; then as many of its next bytes as fit
      join the stream, and nothing is read. */
  lemma TurnLaw(s: St, id: nat)
    requires Inv(s) && id in s.writers
    ensures var w := s.writers[id];
      Enabled(s, Turn(id)) <==> w.done < |w.data| && Outstanding(s) + w.need <= |s.buf|
    ensures Enabled(s, Turn(id)) ==>
              var w, s', n := s.writers[id], Step(s, Turn(id)), |s.buf| - Outstanding(s);
              var k := if |w.data| - w.done < n then |w.data| - w.done else n;
              && 0 <= k && Concat(s'.log) == Concat(s.log) + w.data[w.done..w.done + k] && s'.got == s.got
              && s'.writers == s.writers[id := w.(done := w.done + k)]
  {
    hide Concat, RingOk, BitAnd, Written;
    RingFacts(s);
    if Enabled(s, Turn(id)) { AppendLog(s.log, Chunk(id, TurnBytes(s, id)), id); }
  }

  /** A read fetches the next unread bytes, as many as it wants and there are. */
  lemma ReadLaw(s: St, want: nat)
    requires Inv(s)
    ensures var s', n := Step(s, Read(want)), Outstanding(s);
      var k := if want < n then want else n;
      && 0 <= k && |s.got| + k <= |Concat(s.log)| && s'.got == s.got + Concat(s.log)[|s.got|..|s.got| + k]
      && s'.log == s.log && s'.writers == s.writers
  {
    hide Concat, RingOk, BitAnd;
    RingFacts(s);
    ReadRing(s, want);
    RingFacts(Step(s, Read(want)));
    hide RingInv;
    ReadPrefix(s, want);
  }

  lemma ReadPrefix(s: St, want: nat)
    requires RingInv(s) && RingInv(Step(s, Read(want))) && |s.got| <= |Concat(s.log)|
    requires var k := if want < Unread(s) then want else Unread(s); |Step(s, Read(want)).got| == |s.got| + k
    requires |Step(s, Read(want)).got| <= |Concat(s.log)|
    ensures var k := if want < Unread(s) then want else Unread(s);
            Step(s, Read(want)).got == s.got + Concat(s.log)[|s.got|..|s.got| + k]
  {
    var all, s' := Concat(s.log), Step(s, Read(want));
    assert s'.got == all[..|s'.got|] && s.got == all[..|s.got|];
  }

  /** So a reader that asks for enough has read everything, and a writer that needs no more than the
      capacity then gets its turn. */
  lemma Drained(s: St, want: nat, id: nat)
    requires Inv(s) && want >= Outstanding(s)
    ensures var s' := Step(s, Read(want));
      && s'.got == Concat(s'.log)
      && (id in s.writers && s.writers[id].done < |s.writers[id].data| && s.writers[id].need <= |s.buf| ==>
            Enabled(s', Turn(id)))
  {
    hide Concat, RingOk, BitAnd;
    ReadLaw(s, want);
    StepKeepsInv(s, Read(want));
    RingFacts(s);
    var all, s' := Concat(s.log), Step(s, Read(want));
    AllRead(s);
    if id in s'.writers { TurnLaw(s', id); }
  }

  lemma AllRead(s: St)
    requires RingInv(s) && |s.got| <= |Concat(s.log)|
    ensures s.got + Concat(s.log)[|s.got|..] == Concat(s.log)
  {}

  lemma KeptStep(s: St, op: Op, id: nat)
    requires Enabled(s, op) && id in s.writers
    ensures var s' := Step(s, op);
      id in s'.writers && s'.writers[id].data == s.writers[id].data && s'.writers[id].need == s.writers[id].need
  {}

  // ------------------------------------------------------------------ every run

  /** A ring over the buffer `buf` of 2^bits bytes, nothing written yet. */
  function Empty(buf: seq<byte>, bits: nat): St { St(buf, bits, 0, 0, map[], [], []) }

  lemma EmptyInv(buf: seq<byte>, bits: nat)
    requires bits < 64 && |buf| == Pow2(bits) < WORD
    ensures Inv(Empty(buf, bits))
  {}

  ghost predicate IsRun(s: St, ops: seq<Op>)
    decreases |ops|
  {
    ops == [] || (Enabled(s, ops[0]) && IsRun(Step(s, ops[0]), ops[1..]))
  }

  ghost function RunTo(s: St, ops: seq<Op>): St
    requires IsRun(s, ops)
    decreases |ops|
  {
    if ops == [] then s else RunTo(Step(s, ops[0]), ops[1..])
  }

  /** A run grows by a step that is enabled where it ends. */
  lemma {:induction false} RunMore(s: St, ops: seq<Op>, op: Op)
    ensures IsRun(s, ops + [op]) <==> IsRun(s, ops) && Enabled(RunTo(s, ops), op)
    ensures IsRun(s, ops + [op]) ==> RunTo(s, ops + [op]) == Step(RunTo(s, ops), op)
    decreases |ops|
  {
    hide Enabled, Step;
    if ops == [] {
      assert ops + [op] == [op] && [op][1..] == [];
    } else {
      assert (ops + [op])[1..] == ops[1..] + [op];
      if Enabled(s, ops[0]) { RunMore(Step(s, ops[0]), ops[1..], op); }
    }
  }

  lemma {:induction false} RunKeepsInv(s: St, ops: seq<Op>)
    requires Inv(s) && IsRun(s, ops)
    ensures Inv(RunTo(s, ops)) && |RunTo(s, ops).buf| == |s.buf|
    decreases |ops|
  {
    hide Inv, Step, Enabled;
    if ops != [] {
      StepKeepsInv(s, ops[0]);
      RunKeepsInv(Step(s, ops[0]), ops[1..]);
    }
  }

  lemma {:induction false} KeptRun(s: St, ops: seq<Op>, id: nat)
    requires IsRun(s, ops) && id in s.writers
    ensures var s' := RunTo(s, ops);
      id in s'.writers && s'.writers[id].data == s.writers[id].data && s'.writers[id].need == s.writers[id].need
    decreases |ops|
  {
    hide Step, Enabled;
    if ops != [] {
      KeptStep(s, ops[0], id);
      KeptRun(Step(s, ops[0]), ops[1..], id);
    }
  }

  /** Whatever runs after a write call has begun, what the stream holds of it is the start of its data. */
  lemma WritesItsData(s: St, id: nat, data: seq<byte>, need: nat, ops: seq<Op>)
    requires Inv(s) && Enabled(s, Start(id, data, need)) && IsRun(Step(s, Start(id, data, need)), ops)
    ensures var s' := RunTo(Step(s, Start(id, data, need)), ops);
      id in s'.writers && s'.writers[id].done <= |data| && From(s'.log, id) == data[..s'.writers[id].done]
  {
    hide RunTo, IsRun, RingInv;
    var s1 := Step(s, Start(id, data, need));
    StepKeepsInv(s, Start(id, data, need));
    KeptRun(s1, ops, id);
    RunKeepsInv(s1, ops);
    assert WriterOk(RunTo(s1, ops), id);
  }

  /** Over all interleavings, through any number of wraps of the buffer and of the 64-bit indices: the
      bytes fetched are a prefix of the bytes written, no more than the capacity is outstanding, and
      the stream holds each call's bytes in that call's order. */
  lemma PrefixOfWritten(buf: seq<byte>, bits: nat, ops: seq<Op>, id: nat)
    requires bits < 64 && |buf| == Pow2(bits) < WORD && IsRun(Empty(buf, bits), ops)
    ensures var s := RunTo(Empty(buf, bits), ops);
      && s.got <= Concat(s.log) && |Concat(s.log)| - |s.got| == Unread(s) <= |buf|
      && (id in s.writers ==> s.writers[id].done <= |s.writers[id].data|)
      && (id in s.writers ==> From(s.log, id) == s.writers[id].data[..s.writers[id].done])
  {
    EmptyInv(buf, bits);
    hide RingInv, Concat, RingOk;
    RunKeepsInv(Empty(buf, bits), ops);
    var s := RunTo(Empty(buf, bits), ops);
    RingFacts(s);
    GotPrefix(s);
    if id in s.writers { assert WriterOk(s, id); }
  }

  lemma GotPrefix(s: St)
    requires RingInv(s) && |s.got| <= |Concat(s.log)|
    ensures s.got <= Concat(s.log)
  {}

  lemma {:induction false} ChunkInStream(log: seq<Chunk>, k: nat)
    requires k < |log|
    ensures exists p: nat :: Within(Concat(log), p, log[k].bytes)
    decreases |log|
  {
    var init, c := log[..|log| - 1], log[|log| - 1];
    if k == |log| - 1 {
      assert Within(Concat(log), |Concat(init)|, c.bytes);
    } else {
      ChunkInStream(init, k);
      var p: nat :| Within(Concat(init), p, init[k].bytes);
      assert Concat(log)[p..p + |log[k].bytes|] == Concat(init)[p..p + |log[k].bytes|];
      assert Within(Concat(log), p, log[k].bytes);
    }
  }

  /** `d` lies contiguously in `s` from position `p`. */
  ghost predicate Within(s: seq<byte>, p: nat, d: seq<byte>) { p + |d| <= |s| && s[p..p + |d|] == d }

  /** The PIPE_BUF rule (`write()` in POSIX.1-2017): over all interleavings, a pipe write of at most 4096
      bytes is either still waiting, with nothing written, or lies in the stream in one piece. */
  lemma AtomicPipeWrite(buf: seq<byte>, ops: seq<Op>, id: nat)
    requires |buf| == PIPE_BUF && IsRun(Empty(buf, 12), ops)
    requires id in RunTo(Empty(buf, 12), ops).writers && 0 < |RunTo(Empty(buf, 12), ops).writers[id].data| <= PIPE_BUF
    requires var w := RunTo(Empty(buf, 12), ops).writers[id]; w.need == PipeNeed(|w.data|)
    ensures var s := RunTo(Empty(buf, 12), ops); var w := s.writers[id];
            if w.done == 0 then From(s.log, id) == []
            else w.done == |w.data| && exists p: nat :: Within(Concat(s.log), p, w.data)
  {
    PipeBits();
    EmptyInv(buf, 12);
    RunKeepsInv(Empty(buf, 12), ops);
    OnePiece(RunTo(Empty(buf, 12), ops), id);
  }

  lemma OnePiece(s: St, id: nat)
    requires Inv(s) && id in s.writers && 0 < |s.writers[id].data| <= PIPE_BUF
    requires s.writers[id].need == PipeNeed(|s.writers[id].data|)
    ensures var w := s.writers[id];
            if w.done == 0 then From(s.log, id) == []
            else w.done == |w.data| && exists p: nat :: Within(Concat(s.log), p, w.data)
  {
    var w := s.writers[id];
    assert WriterOk(s, id);
    if w.done > 0 {
      WholeDone(s, id);
      var k: nat :| k < |s.log| && s.log[k] == Chunk(id, w.data);
      ChunkInStream(s.log, k);
    }
  }
}
