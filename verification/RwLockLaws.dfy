/** What each step of the read-write lock (`src/com/lib/rwlock.c`) does, in terms of who holds it, waits for
    it and sleeps. */
module RwLockLaws {
  import opened Queues
  import opened RwLock

  /** Thread `u` writes or waits to write. */
  predicate IsWriter(l: Lock, u: nat) {
    var p := PhaseOf(l.phase, u);
    p == Writing || p == WantWrite || p == SleepWrite
  }

  /** Nobody but those of `ts` has changed. */
  ghost predicate OthersStay(l: Lock, l': Lock, ts: set<nat>) {
    forall u :: u !in ts ==> PhaseOf(l'.phase, u) == PhaseOf(l.phase, u)
  }

  lemma Counted(l: Lock, p: Phase)
    requires Inv(l) && p != Out
    ensures |In(l.phase, p)| > 0 <==> exists u :: PhaseOf(l.phase, u) == p
  {
    if |In(l.phase, p)| > 0 { Member(l.phase, p); }
    if u :| PhaseOf(l.phase, u) == p { assert u in In(l.phase, p); }
  }

  lemma WritersCounted(l: Lock)
    requires Inv(l)
    ensures l.writer || l.waiting > 0 <==> exists u :: IsWriter(l, u)
    ensures l.waiting > 0 <==> exists u :: IsWriter(l, u) && PhaseOf(l.phase, u) != Writing
  {
    hide In;
    Counted(l, Writing);
    Counted(l, WantWrite);
    Counted(l, SleepWrite);
    if l.writer { var u :| PhaseOf(l.phase, u) == Writing; assert IsWriter(l, u); }
    if |In(l.phase, WantWrite)| > 0 { var u :| PhaseOf(l.phase, u) == WantWrite; assert IsWriter(l, u); }
    if |In(l.phase, SleepWrite)| > 0 { var u :| PhaseOf(l.phase, u) == SleepWrite; assert IsWriter(l, u); }
  }

  lemma HoldersCounted(l: Lock)
    requires Inv(l)
    ensures l.writer || l.active > 0 <==> exists u :: Holds(l, u)
    ensures l.active > 0 <==> exists u :: PhaseOf(l.phase, u) == Reading
  {
    hide In;
    Counted(l, Writing);
    Counted(l, Reading);
    if l.writer || l.active > 0 { HolderExists(l); }
    if u :| Holds(l, u) { assert PhaseOf(l.phase, u) == Writing || PhaseOf(l.phase, u) == Reading; }
  }

  /** A reader gets the lock with its step exactly when nobody writes or waits to write; otherwise it goes to
      sleep, last in the list.  Nobody else changes. */
  lemma ReadLaw(l: Lock, op: Op)
    requires Inv(l) && Enabled(l, op) && (op.AcquireReadOp? || op.RetryReadOp?)
    ensures var l' := Step(l, op);
      && OthersStay(l, l', {op.t}) && l'.writers == l.writers
      && if exists u :: IsWriter(l, u)
         then PhaseOf(l'.phase, op.t) == SleepRead && l'.readers == l.readers + [op.t]
         else PhaseOf(l'.phase, op.t) == Reading && l'.readers == l.readers
  {
    hide Inv;
    WritersCounted(l);
  }

  /** A writer gets it exactly when nobody holds it; otherwise it goes to sleep, last in its list. */
  lemma WriteLaw(l: Lock, op: Op)
    requires Inv(l) && Enabled(l, op) && (op.AcquireWriteOp? || op.RetryWriteOp?)
    ensures var l' := Step(l, op);
      && OthersStay(l, l', {op.t}) && l'.readers == l.readers
      && if exists u :: Holds(l, u)
         then PhaseOf(l'.phase, op.t) == SleepWrite && l'.writers == l.writers + [op.t]
         else PhaseOf(l'.phase, op.t) == Writing && l'.writers == l.writers
  {
    hide Inv;
    HoldersCounted(l);
  }

  /** The last reader to go wakes the writer that has slept longest, if one sleeps; another reader wakes
      nobody. */
  lemma ReleaseReadLaw(l: Lock, t: nat)
    requires Inv(l) && Enabled(l, ReleaseReadOp(t))
    ensures var l' := Step(l, ReleaseReadOp(t));
      && PhaseOf(l'.phase, t) == Out && l'.readers == l.readers
      && if l.writers != [] && !(exists u :: u != t && PhaseOf(l.phase, u) == Reading)
         then OthersStay(l, l', {t, l.writers[0]}) && l'.writers == l.writers[1..]
              && PhaseOf(l'.phase, l.writers[0]) == WantWrite
         else OthersStay(l, l', {t}) && l'.writers == l.writers
  {
    ReaderCounted(l, t);
    OtherReader(l, t);
    if l.writers != [] { FirstWriter(l); WritersCounted(l); }
  }

  lemma FirstWriter(l: Lock)
    requires Inv(l) && l.writers != []
    ensures PhaseOf(l.phase, l.writers[0]) == SleepWrite && IsWriter(l, l.writers[0])
  {
    assert l.writers[0] in l.writers;
  }

  lemma OtherReader(l: Lock, t: nat)
    requires Inv(l) && PhaseOf(l.phase, t) == Reading
    ensures l.active == 1 <==> !(exists u :: u != t && PhaseOf(l.phase, u) == Reading)
  {
    var s := In(l.phase, Reading);
    assert t in s;
    var r := s - {t};
    assert |r| == |s| - 1;
    if u :| u != t && PhaseOf(l.phase, u) == Reading { assert u in r; }
    if |r| > 0 { var u :| u in r; assert u != t && PhaseOf(l.phase, u) == Reading; }
  }

  /** A writer that goes wakes the writer that has slept longest if any writer waits, and otherwise every
      sleeping reader. */
  lemma ReleaseWriteLaw(l: Lock, t: nat)
    requires Inv(l) && Enabled(l, ReleaseWriteOp(t))
    ensures var l' := Step(l, ReleaseWriteOp(t));
      && PhaseOf(l'.phase, t) == Out
      && if exists u :: u != t && IsWriter(l, u) then
           && l'.readers == l.readers
           && (if l.writers == [] then OthersStay(l, l', {t}) && l'.writers == []
               else OthersStay(l, l', {t, l.writers[0]}) && l'.writers == l.writers[1..]
                    && PhaseOf(l'.phase, l.writers[0]) == WantWrite)
         else
           && l'.readers == [] && l'.writers == l.writers
           && forall u :: u != t ==> PhaseOf(l'.phase, u) == if u in l.readers then WantRead else PhaseOf(l.phase, u)
  {
    hide In;
    OtherWriter(l, t);
    if l.writers != [] { FirstWriter(l); }
    var m := Put(l, t, Out).(writer := false);
    if l.waiting == 0 {
      AllReadersWake(m);
      assert t !in l.readers;
    }
  }

  lemma OtherWriter(l: Lock, t: nat)
    requires Inv(l) && PhaseOf(l.phase, t) == Writing
    ensures l.waiting > 0 <==> exists u :: u != t && IsWriter(l, u)
  {
    WritersCounted(l);
    var s := In(l.phase, Writing);
    assert t in s;
    assert |s - {t}| == 0;
    if u :| u != t && IsWriter(l, u) {
      assert PhaseOf(l.phase, u) == Writing ==> u in s - {t};
    }
    if l.waiting > 0 { var u :| IsWriter(l, u) && PhaseOf(l.phase, u) != Writing; assert u != t; }
  }

  lemma {:induction false} AllReadersWake(l: Lock)
    ensures var l' := WakeReaders(l);
      && l'.readers == [] && l'.writers == l.writers
      && forall u :: PhaseOf(l'.phase, u) == if u in l.readers then WantRead else PhaseOf(l.phase, u)
    decreases |l.readers|
  {
    if l.readers != [] { AllReadersWake(Put(l, l.readers[0], WantRead).(readers := l.readers[1..])); }
  }

  /** A sleeper woken from outside leaves its list, in which the others keep their order, and tests again. */
  lemma WakeLaw(l: Lock, t: nat)
    requires Inv(l) && Enabled(l, WakeOp(t))
    ensures var l' := Step(l, WakeOp(t));
      && OthersStay(l, l', {t})
      && (PhaseOf(l.phase, t) == SleepRead ==>
            PhaseOf(l'.phase, t) == WantRead && TakenOut(l.readers, t, l'.readers) && l'.writers == l.writers)
      && (PhaseOf(l.phase, t) == SleepWrite ==>
            PhaseOf(l'.phase, t) == WantWrite && TakenOut(l.writers, t, l'.writers) && l'.readers == l.readers)
  {
    if PhaseOf(l.phase, t) == SleepRead { RemoveTakesOut(l.readers, t); } else { RemoveTakesOut(l.writers, t); }
  }
}
