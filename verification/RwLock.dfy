/** The read-write lock of `src/com/lib/rwlock.c`.  Each critical section under its spinlock is one
    step; a thread that waits leaves the section asleep on a wait list and runs the loop test again
    in a later section once it has been woken. */
module RwLock {
  import opened Queues

  datatype Phase = Out | WantRead | SleepRead | Reading | WantWrite | SleepWrite | Writing

  /** `want` phases are the woken threads that have yet to test the loop condition again. */
  datatype Lock = Lock(active: nat, waiting: nat, writer: bool, readers: seq<nat>, writers: seq<nat>, phase: Phases)

  type Phases = map<nat, Phase>

  function PhaseOf(ph: Phases, t: nat): Phase { if t in ph then ph[t] else Out }

  /** The threads in phase `p`. */
  ghost function In(ph: Phases, p: Phase): set<nat> { set t | t in ph && ph[t] == p }

  ghost predicate Queued(ph: Phases, q: seq<nat>, p: Phase) { NoDup(q) && forall t :: t in q <==> PhaseOf(ph, t) == p }

  ghost predicate Counts(l: Lock) {
    && l.active == |In(l.phase, Reading)|
    && l.waiting == |In(l.phase, WantWrite)| + |In(l.phase, SleepWrite)|
    && |In(l.phase, Writing)| == if l.writer then 1 else 0
  }

  ghost predicate Inv(l: Lock) {
    && Counts(l) && (l.writer ==> l.active == 0)
    && Queued(l.phase, l.readers, SleepRead) && Queued(l.phase, l.writers, SleepWrite)
    && (l.readers != [] ==> l.writer || l.waiting > 0)
    && (l.writers != [] ==> l.writer || l.active > 0 || In(l.phase, WantWrite) != {})
  }

  // ------------------------------------------------------------------ steps

  function Put(l: Lock, t: nat, p: Phase): Lock { l.(phase := l.phase[t := p]) }

  /** One turn of the loop of `krwlock_acquire_read`. */
  function TryRead(l: Lock, t: nat): Lock {
    if l.writer || l.waiting > 0 then Put(l, t, SleepRead).(readers := l.readers + [t])
    else Put(l, t, Reading).(active := l.active + 1)
  }

  /** One turn of the loop of `krwlock_acquire_write`. */
  function TryWrite(l: Lock, t: nat): Lock {
    if l.writer || l.active > 0 then Put(l, t, SleepWrite).(writers := l.writers + [t])
    else Put(l, t, Writing).(waiting := if l.waiting > 0 then l.waiting - 1 else 0, writer := true)
  }

  function StartWrite(l: Lock, t: nat): Lock { TryWrite(Put(l, t, WantWrite).(waiting := l.waiting + 1), t) }

  /** `com_sys_sched_notify` on the writers' list. */
  function WakeWriter(l: Lock): Lock {
    if l.writers == [] then l else Put(l, l.writers[0], WantWrite).(writers := l.writers[1..])
  }

  /** `com_sys_sched_notify_all` on the readers' list. */
  function WakeReaders(l: Lock): Lock
    decreases |l.readers|
  {
    if l.readers == [] then l else WakeReaders(Put(l, l.readers[0], WantRead).(readers := l.readers[1..]))
  }

  function ReleaseRead(l: Lock, t: nat): Lock {
    var m := Put(l, t, Out).(active := if l.active > 0 then l.active - 1 else 0);
    if m.active == 0 && m.waiting > 0 then WakeWriter(m) else m
  }

  function ReleaseWrite(l: Lock, t: nat): Lock {
    var m := Put(l, t, Out).(writer := false);
    if m.waiting == 0 then WakeReaders(m) else WakeWriter(m)
  }

  /** `com_sys_sched_notify_thread` on a sleeper: it runs the loop test again. */
  function Wake(l: Lock, t: nat): Lock {
    match PhaseOf(l.phase, t)
    case SleepRead => Put(l, t, WantRead).(readers := Remove(l.readers, t))
    case SleepWrite => Put(l, t, WantWrite).(writers := Remove(l.writers, t))
    case _ => l
  }

  datatype Op =
    | AcquireReadOp(t: nat)
    | RetryReadOp(t: nat)
    | ReleaseReadOp(t: nat)
    | AcquireWriteOp(t: nat)
    | RetryWriteOp(t: nat)
    | ReleaseWriteOp(t: nat)
    | WakeOp(t: nat)

  /** Threads outside acquire, woken threads retry, holders release. */
  predicate Enabled(l: Lock, op: Op) {
    var p := PhaseOf(l.phase, op.t);
    match op
    case AcquireReadOp(_) => p == Out
    case RetryReadOp(_) => p == WantRead
    case ReleaseReadOp(_) => p == Reading
    case AcquireWriteOp(_) => p == Out
    case RetryWriteOp(_) => p == WantWrite
    case ReleaseWriteOp(_) => p == Writing
    case WakeOp(_) => p == SleepRead || p == SleepWrite
  }

  function Step(l: Lock, op: Op): Lock {
    match op
    case AcquireReadOp(t) => TryRead(l, t)
    case RetryReadOp(t) => TryRead(l, t)
    case ReleaseReadOp(t) => ReleaseRead(l, t)
    case AcquireWriteOp(t) => StartWrite(l, t)
    case RetryWriteOp(t) => TryWrite(l, t)
    case ReleaseWriteOp(t) => ReleaseWrite(l, t)
    case WakeOp(t) => Wake(l, t)
  }

  // ------------------------------------------------------------------ invariant

  lemma PutIn(ph: Phases, t: nat, p: Phase, q: Phase)
    requires q != Out
    ensures In(ph[t := p], q) == if p == q then In(ph, q) + {t} else In(ph, q) - {t}
    ensures t in In(ph, q) <==> PhaseOf(ph, t) == q
    ensures |In(ph[t := p], q)| == |In(ph, q)| + (if p == q then 1 else 0) - (if PhaseOf(ph, t) == q then 1 else 0)
  {
    PutSet(ph, t, p, q);
    hide In, PhaseOf;
    var s := In(ph, q);
    if t in s { assert s + {t} == s; assert |s - {t}| == |s| - 1; } else { assert s - {t} == s; }
  }

  lemma PutSet(ph: Phases, t: nat, p: Phase, q: Phase)
    requires q != Out
    ensures In(ph[t := p], q) == if p == q then In(ph, q) + {t} else In(ph, q) - {t}
    ensures t in In(ph, q) <==> PhaseOf(ph, t) == q
  {}

  /** What a change of phase does to every count. */
  lemma PutCounts(ph: Phases, t: nat, p: Phase)
    ensures forall q | q != Out ::
              |In(ph[t := p], q)| == |In(ph, q)| + (if p == q then 1 else 0) - (if PhaseOf(ph, t) == q then 1 else 0)
  {
    forall q | q != Out
      ensures |In(ph[t := p], q)| == |In(ph, q)| + (if p == q then 1 else 0) - (if PhaseOf(ph, t) == q then 1 else 0)
    {
      PutIn(ph, t, p, q);
    }
  }

  /** A thread that is not asleep changes its phase, and joins a list if it falls asleep. */
  lemma PutQueued(ph: Phases, t: nat, p: Phase, r: seq<nat>, w: seq<nat>)
    requires Queued(ph, r, SleepRead) && Queued(ph, w, SleepWrite)
    requires PhaseOf(ph, t) != SleepRead && PhaseOf(ph, t) != SleepWrite
    ensures Queued(ph[t := p], if p == SleepRead then r + [t] else r, SleepRead)
    ensures Queued(ph[t := p], if p == SleepWrite then w + [t] else w, SleepWrite)
  {}

  /** A sleeper leaves its list. */
  lemma WakeQueued(ph: Phases, t: nat, p: Phase, r: seq<nat>, w: seq<nat>)
    requires Queued(ph, r, SleepRead) && Queued(ph, w, SleepWrite)
    requires p != SleepRead && p != SleepWrite && (PhaseOf(ph, t) == SleepRead || PhaseOf(ph, t) == SleepWrite)
    ensures Queued(ph[t := p], Remove(r, t), SleepRead) && Queued(ph[t := p], Remove(w, t), SleepWrite)
    ensures PhaseOf(ph, t) == SleepRead ==> Remove(w, t) == w
    ensures PhaseOf(ph, t) == SleepWrite ==> Remove(r, t) == r
  {
    RemoveNoDup(r, t);
    RemoveNoDup(w, t);
    forall u ensures (u in Remove(r, t) <==> u in r && u != t) && (u in Remove(w, t) <==> u in w && u != t) {
      RemoveIn(r, t, u);
      RemoveIn(w, t, u);
    }
    if t !in r { RemoveAbsent(r, t); }
    if t !in w { RemoveAbsent(w, t); }
  }

  lemma {:induction false} RemoveAbsent(q: seq<nat>, t: nat)
    requires t !in q
    ensures Remove(q, t) == q
  {
    if q != [] {
      RemoveAbsent(q[1..], t);
      assert [q[0]] + q[1..] == q;
    }
  }

  lemma TryReadInv(l: Lock, t: nat)
    requires Inv(l) && (PhaseOf(l.phase, t) == Out || PhaseOf(l.phase, t) == WantRead)
    ensures Inv(TryRead(l, t))
  {
    hide Queued, In;
    var p := if l.writer || l.waiting > 0 then SleepRead else Reading;
    PutCounts(l.phase, t, p);
    PutQueued(l.phase, t, p, l.readers, l.writers);
    PutIn(l.phase, t, p, WantWrite);
  }

  /** The loop test of a writer that has counted itself as waiting. */
  lemma TryWriteInv(l: Lock, t: nat)
    requires Inv(l) && PhaseOf(l.phase, t) == WantWrite
    ensures Inv(TryWrite(l, t))
  {
    hide Queued, In;
    var p := if l.writer || l.active > 0 then SleepWrite else Writing;
    PutCounts(l.phase, t, p);
    PutQueued(l.phase, t, p, l.readers, l.writers);
    PutIn(l.phase, t, p, WantWrite);
  }

  lemma StartWriteInv(l: Lock, t: nat)
    requires Inv(l) && PhaseOf(l.phase, t) == Out
    ensures Inv(StartWrite(l, t))
  {
    hide Queued, In, TryWrite;
    PutCounts(l.phase, t, WantWrite);
    PutQueued(l.phase, t, WantWrite, l.readers, l.writers);
    PutIn(l.phase, t, WantWrite, WantWrite);
    TryWriteInv(Put(l, t, WantWrite).(waiting := l.waiting + 1), t);
  }

  /** Everything but the two no-lost-wakeup clauses. */
  ghost predicate Inv0(l: Lock) {
    && Counts(l) && (l.writer ==> l.active == 0)
    && Queued(l.phase, l.readers, SleepRead) && Queued(l.phase, l.writers, SleepWrite)
  }

  lemma WakeWriterInv(l: Lock)
    requires Inv0(l) && l.waiting > 0
    ensures Inv(WakeWriter(l))
  {
    hide Queued, In;
    if l.writers == [] {
      EmptyQueue(l.phase, SleepWrite);
    } else {
      var t := l.writers[0];
      FirstAsleep(l.phase, l.writers, SleepWrite);
      PutCounts(l.phase, t, WantWrite);
      PutIn(l.phase, t, WantWrite, WantWrite);
      WakeQueued(l.phase, t, WantWrite, l.readers, l.writers);
    }
  }

  lemma EmptyQueue(ph: Phases, p: Phase)
    requires Queued(ph, [], p) && p != Out
    ensures In(ph, p) == {} && |In(ph, p)| == 0
  {
    forall t ensures t !in In(ph, p) { assert t !in []; }
  }

  lemma FirstAsleep(ph: Phases, q: seq<nat>, p: Phase)
    requires Queued(ph, q, p) && q != []
    ensures PhaseOf(ph, q[0]) == p && Remove(q, q[0]) == q[1..]
  {
    assert q[0] in q;
  }

  lemma {:induction false} WakeReadersInv(l: Lock)
    requires Inv0(l) && (l.writers == [] || l.writer || l.active > 0 || In(l.phase, WantWrite) != {})
    ensures Inv(WakeReaders(l)) && WakeReaders(l).readers == []
    decreases |l.readers|
  {
    hide Queued, In;
    if l.readers != [] {
      var t := l.readers[0];
      FirstAsleep(l.phase, l.readers, SleepRead);
      PutCounts(l.phase, t, WantRead);
      PutIn(l.phase, t, WantRead, WantWrite);
      WakeQueued(l.phase, t, WantRead, l.readers, l.writers);
      WakeReadersInv(Put(l, t, WantRead).(readers := l.readers[1..]));
    }
  }

  lemma ReleaseReadInv(l: Lock, t: nat)
    requires Inv(l) && PhaseOf(l.phase, t) == Reading
    ensures Inv(ReleaseRead(l, t))
  {
    hide Queued, In;
    PutCounts(l.phase, t, Out);
    PutQueued(l.phase, t, Out, l.readers, l.writers);
    PutIn(l.phase, t, Out, WantWrite);
    PutIn(l.phase, t, Out, Reading);
    var m := Put(l, t, Out).(active := l.active - 1);
    if m.active == 0 && m.waiting > 0 { WakeWriterInv(m); }
    else if m.active == 0 { NoneWaiting(l); }
  }

  lemma NoneWaiting(l: Lock)
    requires Inv0(l) && l.waiting == 0
    ensures l.writers == []
  {
    assert l.writers != [] ==> l.writers[0] in l.writers;
    forall t ensures t !in l.writers { assert t !in In(l.phase, SleepWrite); }
  }

  lemma ReleaseWriteInv(l: Lock, t: nat)
    requires Inv(l) && PhaseOf(l.phase, t) == Writing
    ensures Inv(ReleaseWrite(l, t))
  {
    hide Queued, In, WakeReaders, WakeWriter;
    PutCounts(l.phase, t, Out);
    PutQueued(l.phase, t, Out, l.readers, l.writers);
    PutIn(l.phase, t, Out, Writing);
    var m := Put(l, t, Out).(writer := false);
    if m.waiting == 0 { NoneWaiting(l); WakeReadersInv(m); } else { WakeWriterInv(m); }
  }

  lemma WakeInv(l: Lock, t: nat)
    requires Inv(l) && (PhaseOf(l.phase, t) == SleepRead || PhaseOf(l.phase, t) == SleepWrite)
    ensures Inv(Wake(l, t))
  {
    hide Queued, In;
    var p := if PhaseOf(l.phase, t) == SleepRead then WantRead else WantWrite;
    PutCounts(l.phase, t, p);
    PutIn(l.phase, t, p, WantWrite);
    WakeQueued(l.phase, t, p, l.readers, l.writers);
    if l.writers == [] { assert Remove(l.writers, t) == []; }
    if l.readers == [] { assert Remove(l.readers, t) == []; }
  }

  lemma StepKeepsInv(l: Lock, op: Op)
    requires Inv(l) && Enabled(l, op)
    ensures Inv(Step(l, op))
  {
    hide Inv, TryRead, TryWrite, StartWrite, ReleaseRead, ReleaseWrite, Wake;
    match op
    case AcquireReadOp(t) => TryReadInv(l, t);
    case RetryReadOp(t) => TryReadInv(l, t);
    case ReleaseReadOp(t) => ReleaseReadInv(l, t);
    case AcquireWriteOp(t) => StartWriteInv(l, t);
    case RetryWriteOp(t) => TryWriteInv(l, t);
    case ReleaseWriteOp(t) => ReleaseWriteInv(l, t);
    case WakeOp(t) => WakeInv(l, t);
  }

  // ------------------------------------------------------------------ every run

  /** KRWLOCK_INIT. */
  function Fresh(): Lock { Lock(0, 0, false, [], [], map[]) }

  predicate IsRun(l: Lock, ops: seq<Op>)
    decreases |ops|
  {
    ops == [] || (Enabled(l, ops[0]) && IsRun(Step(l, ops[0]), ops[1..]))
  }

  function RunTo(l: Lock, ops: seq<Op>): Lock
    decreases |ops|
  {
    if ops == [] then l else RunTo(Step(l, ops[0]), ops[1..])
  }

  /** A run grows by a step that is enabled where it ends. */
  lemma {:induction false} RunMore(l: Lock, ops: seq<Op>, op: Op)
    ensures IsRun(l, ops + [op]) <==> IsRun(l, ops) && Enabled(RunTo(l, ops), op)
    ensures IsRun(l, ops + [op]) ==> RunTo(l, ops + [op]) == Step(RunTo(l, ops), op)
    decreases |ops|
  {
    hide Enabled, Step;
    if ops == [] {
      assert ops + [op] == [op] && [op][1..] == [];
    } else {
      assert (ops + [op])[1..] == ops[1..] + [op];
      if Enabled(l, ops[0]) { RunMore(Step(l, ops[0]), ops[1..], op); }
    }
  }

  lemma {:induction false} RunKeepsInv(l: Lock, ops: seq<Op>)
    requires Inv(l) && IsRun(l, ops)
    ensures Inv(RunTo(l, ops))
    decreases |ops|
  {
    hide Inv, Step, Enabled;
    if ops != [] {
      StepKeepsInv(l, ops[0]);
      RunKeepsInv(Step(l, ops[0]), ops[1..]);
    }
  }

  lemma FreshInv()
    ensures Inv(Fresh())
  {
    forall p ensures In(map[], p) == {} {}
  }

  ghost predicate Holds(l: Lock, t: nat) { PhaseOf(l.phase, t) == Reading || PhaseOf(l.phase, t) == Writing }

  lemma OneWriter(l: Lock, t: nat, u: nat)
    requires Inv(l) && PhaseOf(l.phase, t) == Writing && Holds(l, u)
    ensures t == u
  {
    assert t in In(l.phase, Writing);
    assert l.writer && In(l.phase, Reading) == {};
    assert u !in In(l.phase, Reading);
    if PhaseOf(l.phase, u) == Writing {
      assert {t, u} <= In(l.phase, Writing);
      Bounded({t, u}, In(l.phase, Writing));
    }
  }

  lemma {:induction false} Bounded(a: set<nat>, b: set<nat>)
    requires a <= b
    ensures |a| <= |b|
  {
    if a != {} {
      var x :| x in a;
      Bounded(a - {x}, b - {x});
    }
  }

  /** In every run: a writer shares the lock with nobody. */
  lemma MutualExclusion(ops: seq<Op>, t: nat, u: nat)
    requires IsRun(Fresh(), ops)
    requires PhaseOf(RunTo(Fresh(), ops).phase, t) == Writing && Holds(RunTo(Fresh(), ops), u)
    ensures t == u
  {
    FreshInv();
    RunKeepsInv(Fresh(), ops);
    OneWriter(RunTo(Fresh(), ops), t, u);
  }

  /** In every run: a thread that becomes a reader does so when no writer holds or waits for the lock. */
  lemma WriterPreference(ops: seq<Op>, op: Op, t: nat, u: nat)
    requires IsRun(Fresh(), ops) && Enabled(RunTo(Fresh(), ops), op)
    requires PhaseOf(RunTo(Fresh(), ops).phase, t) != Reading
    requires PhaseOf(Step(RunTo(Fresh(), ops), op).phase, t) == Reading
    ensures var p := PhaseOf(RunTo(Fresh(), ops).phase, u); p != WantWrite && p != SleepWrite && p != Writing
  {
    FreshInv();
    RunKeepsInv(Fresh(), ops);
    var l := RunTo(Fresh(), ops);
    hide RunTo, IsRun;
    BecomesReader(l, op, t);
    assert In(l.phase, WantWrite) == {} && In(l.phase, SleepWrite) == {} && In(l.phase, Writing) == {};
    assert u !in In(l.phase, WantWrite) && u !in In(l.phase, SleepWrite) && u !in In(l.phase, Writing);
  }

  lemma {:induction false} WakeReadersPhase(l: Lock, t: nat)
    requires PhaseOf(l.phase, t) != Reading
    ensures PhaseOf(WakeReaders(l).phase, t) != Reading
    decreases |l.readers|
  {
    if l.readers != [] { WakeReadersPhase(Put(l, l.readers[0], WantRead).(readers := l.readers[1..]), t); }
  }

  lemma BecomesReader(l: Lock, op: Op, t: nat)
    requires PhaseOf(l.phase, t) != Reading && PhaseOf(Step(l, op).phase, t) == Reading
    ensures !l.writer && l.waiting == 0
  {
    if op.ReleaseWriteOp? { WakeReadersPhase(Put(l, op.t, Out).(writer := false), t); }
  }

  /** In every run: no wakeup is lost.  If any thread sleeps on the lock, then some thread holds it or
      some waiting writer is awake. */
  lemma NoLostWakeup(ops: seq<Op>, t: nat)
    requires IsRun(Fresh(), ops)
    requires var p := PhaseOf(RunTo(Fresh(), ops).phase, t); p == SleepRead || p == SleepWrite
    ensures exists u :: Holds(RunTo(Fresh(), ops), u) || PhaseOf(RunTo(Fresh(), ops).phase, u) == WantWrite
  {
    FreshInv();
    RunKeepsInv(Fresh(), ops);
    SomeoneAwake(RunTo(Fresh(), ops), t);
  }

  lemma HolderExists(l: Lock)
    requires Inv(l) && (l.writer || l.active > 0)
    ensures exists u :: Holds(l, u)
  {
    var p := if l.writer then Writing else Reading;
    Member(l.phase, p);
    var u :| u in In(l.phase, p) && PhaseOf(l.phase, u) == p;
    assert Holds(l, u);
  }

  lemma SomeoneAwake(l: Lock, t: nat)
    requires Inv(l) && (PhaseOf(l.phase, t) == SleepRead || PhaseOf(l.phase, t) == SleepWrite)
    ensures exists u :: Holds(l, u) || PhaseOf(l.phase, u) == WantWrite
  {
    assert t in l.readers || t in l.writers;
    if l.writer || l.active > 0 {
      HolderExists(l);
    } else if In(l.phase, WantWrite) == {} {
      assert l.writers == [] && l.waiting == |In(l.phase, SleepWrite)| > 0;
      EmptyQueue(l.phase, SleepWrite);
    } else {
      var u :| u in In(l.phase, WantWrite);
      assert PhaseOf(l.phase, u) == WantWrite;
    }
  }

  lemma Member(ph: Phases, p: Phase)
    requires |In(ph, p)| > 0
    ensures exists u :: u in In(ph, p) && PhaseOf(ph, u) == p
  {
    var u :| u in In(ph, p);
    assert PhaseOf(ph, u) == p;
  }

  /** A waiting writer that is awake while nobody holds the lock gets it with its next step. */
  lemma AwakeWriterEnters(l: Lock, t: nat)
    requires Inv(l) && PhaseOf(l.phase, t) == WantWrite && !(exists u :: Holds(l, u))
    ensures PhaseOf(Step(l, RetryWriteOp(t)).phase, t) == Writing
  {
    if l.writer || l.active > 0 { HolderExists(l); }
  }

  // ------------------------------------------------------------------ the code

  class KRwLock {
    var activeReaders: nat
    var waitingWriters: nat
    var writerActive: bool
    var readersWaitlist: seq<nat>
    var writersWaitlist: seq<nat>
    ghost var phase: Phases

    ghost function View(): Lock
      reads this
    {
      Lock(activeReaders, waitingWriters, writerActive, readersWaitlist, writersWaitlist, phase)
    }

    ghost predicate Valid()
      reads this
    {
      Inv(View())
    }

    /** KRWLOCK_INIT. */
    constructor ()
      ensures View() == Fresh() && Valid()
      ensures activeReaders == waitingWriters == 0 && !writerActive && readersWaitlist == writersWaitlist == []
    {
      activeReaders, waitingWriters, writerActive := 0, 0, false;
      readersWaitlist, writersWaitlist, phase := [], [], map[];
      new;
      FreshInv();
    }

    /** `krwlock_acquire_read` by thread `t` from where it holds the spinlock to where it drops it:
        it holds the lock for reading or has gone to sleep. */
    method AcquireRead(t: nat) returns (entered: bool)
      requires Valid() && (PhaseOf(phase, t) == Out || PhaseOf(phase, t) == WantRead)
      modifies this
      ensures Valid() && View() == TryRead(old(View()), t) && entered == (PhaseOf(phase, t) == Reading)
      ensures entered <==> !old(writerActive) && old(waitingWriters) == 0
    {
      TryReadInv(View(), t);
      entered := !(writerActive || waitingWriters > 0);
      if entered {
        activeReaders := activeReaders + 1;
        phase := phase[t := Reading];
      } else {
        readersWaitlist := readersWaitlist + [t];
        phase := phase[t := SleepRead];
      }
    }

    /** `krwlock_release_read`. */
    method ReleaseReader(t: nat)
      requires Valid() && PhaseOf(phase, t) == Reading
      modifies this
      ensures Valid() && View() == ReleaseRead(old(View()), t)
    {
      ReleaseReadInv(View(), t);
      ReaderCounted(View(), t);
      activeReaders := activeReaders - 1;
      phase := phase[t := Out];
      if activeReaders == 0 && waitingWriters > 0 {
        NotifyWriter();
      }
    }

    method NotifyWriter()
      modifies this`writersWaitlist, this`phase
      ensures View() == WakeWriter(old(View()))
    {
      if |writersWaitlist| > 0 {
        phase := phase[writersWaitlist[0] := WantWrite];
        writersWaitlist := writersWaitlist[1..];
      }
    }

    method NotifyReaders()
      modifies this`readersWaitlist, this`phase
      ensures View() == WakeReaders(old(View()))
    {
      while |readersWaitlist| > 0
        invariant WakeReaders(View()) == WakeReaders(old(View()))
        decreases |readersWaitlist|
      {
        phase := phase[readersWaitlist[0] := WantRead];
        readersWaitlist := readersWaitlist[1..];
      }
    }

    /** `krwlock_acquire_write` from its start to the first place it drops the spinlock. */
    method AcquireWrite(t: nat) returns (entered: bool)
      requires Valid() && PhaseOf(phase, t) == Out
      modifies this
      ensures Valid() && View() == StartWrite(old(View()), t) && entered == (PhaseOf(phase, t) == Writing)
      ensures entered <==> !old(writerActive) && old(activeReaders) == 0
    {
      StartWriteInv(View(), t);
      waitingWriters := waitingWriters + 1;
      phase := phase[t := WantWrite];
      entered := TestWrite(t);
    }

    /** The loop test and what follows it in `krwlock_acquire_write`, on entry or after a wakeup. */
    method TestWrite(t: nat) returns (entered: bool)
      requires waitingWriters > 0
      modifies this
      ensures View() == TryWrite(old(View()), t) && entered == (PhaseOf(phase, t) == Writing)
      ensures entered <==> !old(writerActive) && old(activeReaders) == 0
    {
      entered := !(writerActive || activeReaders > 0);
      if entered {
        assert !writerActive;
        waitingWriters := waitingWriters - 1;
        writerActive := true;
        phase := phase[t := Writing];
      } else {
        writersWaitlist := writersWaitlist + [t];
        phase := phase[t := SleepWrite];
      }
    }

    /** A woken writer. */
    method RetryWrite(t: nat) returns (entered: bool)
      requires Valid() && PhaseOf(phase, t) == WantWrite
      modifies this
      ensures Valid() && View() == TryWrite(old(View()), t) && entered == (PhaseOf(phase, t) == Writing)
      ensures entered <==> !old(writerActive) && old(activeReaders) == 0
    {
      TryWriteInv(View(), t);
      WriterCounted(View(), t);
      entered := TestWrite(t);
    }

    /** `krwlock_release_write`. */
    method ReleaseWriter(t: nat)
      requires Valid() && PhaseOf(phase, t) == Writing
      modifies this
      ensures Valid() && View() == ReleaseWrite(old(View()), t)
    {
      ReleaseWriteInv(View(), t);
      writerActive := false;
      phase := phase[t := Out];
      if waitingWriters == 0 {
        NotifyReaders();
      } else {
        NotifyWriter();
      }
    }
  }

  lemma ReaderCounted(l: Lock, t: nat)
    requires Inv(l) && PhaseOf(l.phase, t) == Reading
    ensures l.active > 0
  {
    assert t in In(l.phase, Reading);
  }

  lemma WriterCounted(l: Lock, t: nat)
    requires Inv(l) && PhaseOf(l.phase, t) == WantWrite
    ensures l.waiting > 0
  {
    assert t in In(l.phase, WantWrite);
  }
}
