/** Timed callouts (`src/com/sys/callout.c`): a queue ordered by deadline, served by the timer tick. */
module Callout {

  /** ARCH_TIMER_NS and ARCH_SCHED_NS. */
  const TIMER_NS: nat := 1_000_000
  const SCHED_NS: nat := 16_000_000

  /** A callout in the queue with its deadline; `stamp` numbers the insertions. */
  datatype Entry = Entry(id: nat, ns: nat, stamp: nat)

  /** What a handler does to the queue: run callout `id` again `delay` from now, or cancel an entry. */
  datatype Action = Arm(id: nat, delay: nat) | Drop(entry: Entry)

  /** Earlier deadline, or the same one and inserted first. */
  predicate Before(a: Entry, b: Entry) { a.ns < b.ns || (a.ns == b.ns && a.stamp < b.stamp) }

  predicate Sorted(q: seq<Entry>) { forall i, j :: 0 <= i < j < |q| ==> Before(q[i], q[j]) }

  predicate Older(q: seq<Entry>, stamp: nat) { forall i :: 0 <= i < |q| ==> q[i].stamp < stamp }

  // ------------------------------------------------------------------ inserting and cancelling

  /** `enqueue_callout`: in front of the first entry with a later deadline. */
  function Insert(q: seq<Entry>, e: Entry): seq<Entry> {
    if q == [] then [e] else if e.ns < q[0].ns then [e] + q else [q[0]] + Insert(q[1..], e)
  }

  lemma {:induction false} InsertSorted(q: seq<Entry>, e: Entry)
    requires Sorted(q) && Older(q, e.stamp)
    ensures Sorted(Insert(q, e)) && Older(Insert(q, e), e.stamp + 1)
    ensures forall x :: x in Insert(q, e) <==> x in q || x == e
  {
    if q != [] {
      var tail := q[1..];
      if e.ns < q[0].ns {
        forall j | 0 <= j < |q| ensures Before(e, q[j]) { if j > 0 { assert Before(q[0], q[j]); } }
      } else {
        InsertSorted(tail, e);
        var r := Insert(tail, e);
        forall j | 0 <= j < |r| ensures Before(q[0], r[j]) {
          assert r[j] in r;
          if r[j] != e { var k :| 0 <= k < |tail| && tail[k] == r[j]; assert q[k + 1] == tail[k]; }
        }
        assert q == [q[0]] + tail;
      }
    }
  }

  lemma InsertHere(q: seq<Entry>, e: Entry)
    requires q == [] || e.ns < q[0].ns
    ensures Insert(q, e) == [e] + q
  {
    assert q == [] ==> [e] + q == [e];
  }

  lemma InsertPast(q: seq<Entry>, e: Entry, i: nat)
    requires i < |q| && q[i].ns <= e.ns
    ensures q[..i] + Insert(q[i..], e) == q[..i + 1] + Insert(q[i + 1..], e)
  {
    assert q[i..][1..] == q[i + 1..];
    assert q[..i] + ([q[i]] + Insert(q[i + 1..], e)) == q[..i + 1] + Insert(q[i + 1..], e);
  }

  /** `com_sys_callout_cancel` of entry `e`; nothing happens if it is not queued. */
  function Without(q: seq<Entry>, e: Entry): seq<Entry> {
    if q == [] then [] else if q[0] == e then Without(q[1..], e) else [q[0]] + Without(q[1..], e)
  }

  lemma {:induction false} WithoutSorted(q: seq<Entry>, e: Entry, bound: nat)
    requires Sorted(q) && Older(q, bound)
    ensures Sorted(Without(q, e)) && Older(Without(q, e), bound)
    ensures forall x :: x in Without(q, e) <==> x in q && x != e
  {
    if q != [] {
      WithoutSorted(q[1..], e, bound);
      assert q == [q[0]] + q[1..];
      var r := Without(q[1..], e);
      forall j | 0 <= j < |r| ensures Before(q[0], r[j]) {
        assert r[j] in r;
        var k :| 0 <= k < |q[1..]| && q[1..][k] == r[j];
        assert q[k + 1] == r[j];
      }
    }
  }

  // ------------------------------------------------------------------ what a tick finds due

  /** The entries a tick at time `now` finds due, and those it leaves. */
  function Due(q: seq<Entry>, now: nat): seq<Entry> {
    if q == [] || q[0].ns > now then [] else [q[0]] + Due(q[1..], now)
  }

  function Later(q: seq<Entry>, now: nat): seq<Entry> {
    if q == [] || q[0].ns > now then q else Later(q[1..], now)
  }

  /** In a sorted queue the due prefix is exactly the entries whose deadline has passed. */
  lemma {:induction false} DueExactly(q: seq<Entry>, now: nat)
    requires Sorted(q)
    ensures q == Due(q, now) + Later(q, now)
    ensures forall e :: e in Due(q, now) <==> e in q && e.ns <= now
    ensures forall e :: e in Later(q, now) <==> e in q && e.ns > now
  {
    hide Sorted;
    if q != [] && q[0].ns <= now {
      TailSorted(q);
      DueExactly(q[1..], now);
      assert q == [q[0]] + q[1..];
      assert q == [q[0]] + (Due(q[1..], now) + Later(q[1..], now));
    } else {
      assert [] + q == q;
      AllLater(q, now);
    }
  }

  lemma TailSorted(q: seq<Entry>)
    requires Sorted(q) && q != []
    ensures Sorted(q[1..])
  {}

  lemma AllLater(q: seq<Entry>, now: nat)
    requires Sorted(q) && (q == [] || q[0].ns > now)
    ensures forall e :: e in q ==> e.ns > now
  {
    forall e | e in q ensures e.ns > now {
      var k :| 0 <= k < |q| && q[k] == e;
      assert k > 0 ==> Before(q[0], q[k]);
    }
  }

  /** A callout that is not due yet changes nothing for this tick. */
  lemma {:induction false} InsertLater(q: seq<Entry>, e: Entry, now: nat)
    requires e.ns > now && Sorted(q)
    ensures Due(Insert(q, e), now) == Due(q, now) && Later(Insert(q, e), now) == Insert(Later(q, now), e)
  {
    if q != [] && q[0].ns <= now {
      InsertLater(q[1..], e, now);
      assert Insert(q, e)[1..] == Insert(q[1..], e);
    }
  }

  lemma {:induction false} WithoutDue(q: seq<Entry>, e: Entry, now: nat)
    requires Sorted(q)
    ensures Due(Without(q, e), now) == Without(Due(q, now), e) && Later(Without(q, e), now) == Without(Later(q, now), e)
  {
    if q != [] {
      WithoutDue(q[1..], e, now);
      if q[0].ns > now {
        NoneDue(q, now);
        WithoutFuture(q, e, now);
      } else {
        assert Due(q, now)[1..] == Due(q[1..], now);
        if q[0] != e { assert Without(q, e)[1..] == Without(q[1..], e); }
      }
    }
  }

  lemma WithoutFuture(q: seq<Entry>, e: Entry, now: nat)
    requires Sorted(q) && q != [] && q[0].ns > now
    ensures Due(Without(q, e), now) == [] && Later(Without(q, e), now) == Without(q, e)
  {
    DueExactly(q, now);
    WithoutMembers(q, e);
    var r := Without(q, e);
    if r != [] {
      assert r[0] in r && r[0] in q;
      assert r[0] in Later(q, now);
    }
  }

  lemma {:induction false} WithoutMembers(q: seq<Entry>, e: Entry)
    ensures forall x :: x in Without(q, e) <==> x in q && x != e
  {
    if q != [] {
      WithoutMembers(q[1..], e);
      assert q == [q[0]] + q[1..];
    }
  }

  lemma NoneDue(q: seq<Entry>, now: nat)
    requires q == [] || q[0].ns > now
    ensures Due(q, now) == [] && Later(q, now) == q
  {}

  // ------------------------------------------------------------------ what handlers do

  /** One action at time `now`. */
  function Apply(q: seq<Entry>, a: Action, now: nat, stamp: nat): seq<Entry> {
    match a
    case Arm(id, delay) => Insert(q, Entry(id, now + delay, stamp))
    case Drop(e) => Without(q, e)
  }

  function NextStamp(a: Action, stamp: nat): nat { if a.Arm? then stamp + 1 else stamp }

  function ApplyAll(q: seq<Entry>, acts: seq<Action>, now: nat, stamp: nat): seq<Entry>
    decreases |acts|
  {
    if acts == [] then q else ApplyAll(Apply(q, acts[0], now, stamp), acts[1..], now, NextStamp(acts[0], stamp))
  }

  function StampAfter(acts: seq<Action>, stamp: nat): nat
    decreases |acts|
  {
    if acts == [] then stamp else StampAfter(acts[1..], NextStamp(acts[0], stamp))
  }

  /** The due entries that are left once `acts` has cancelled some. */
  function Kept(due: seq<Entry>, acts: seq<Action>): (r: seq<Entry>)
    ensures |r| <= |due|
    decreases |acts|
  {
    if acts == [] then due
    else if acts[0].Drop? then
      WithoutShorter(due, acts[0].entry);
      Kept(Without(due, acts[0].entry), acts[1..])
    else Kept(due, acts[1..])
  }

  lemma {:induction false} WithoutShorter(q: seq<Entry>, e: Entry)
    ensures |Without(q, e)| <= |q|
  {
    if q != [] { WithoutShorter(q[1..], e); }
  }

  /** The entries that fire, in order: the first due one, then those its handler leaves. */
  function Fires(due: seq<Entry>, h: Entry -> seq<Action>): seq<Entry>
    decreases |due|
  {
    if due == [] then [] else [due[0]] + Fires(Kept(due[1..], h(due[0])), h)
  }

  /** Everything the handlers of `fired` do, in order. */
  function Actions(fired: seq<Entry>, h: Entry -> seq<Action>): seq<Action> {
    if fired == [] then [] else h(fired[0]) + Actions(fired[1..], h)
  }

  predicate Timely(acts: seq<Action>) { forall i :: 0 <= i < |acts| ==> acts[i].Drop? || acts[i].delay > 0 }

  /** Handlers re-arm with positive delays only. */
  ghost predicate Positive(h: Entry -> seq<Action>) { forall e :: Timely(h(e)) }

  lemma ApplyKeeps(q: seq<Entry>, a: Action, now: nat, stamp: nat)
    requires Sorted(q) && Older(q, stamp) && (a.Arm? ==> a.delay > 0)
    ensures Sorted(Apply(q, a, now, stamp)) && Older(Apply(q, a, now, stamp), NextStamp(a, stamp))
    ensures Due(Apply(q, a, now, stamp), now) == if a.Drop? then Without(Due(q, now), a.entry) else Due(q, now)
    ensures Later(Apply(q, a, now, stamp), now) == Apply(Later(q, now), a, now, stamp)
  {
    match a
    case Arm(id, delay) =>
      InsertSorted(q, Entry(id, now + delay, stamp));
      InsertLater(q, Entry(id, now + delay, stamp), now);
    case Drop(e) =>
      WithoutSorted(q, e, stamp);
      WithoutDue(q, e, now);
  }

  /** What handlers do with positive delays can only take due entries away from this tick. */
  lemma {:induction false} ApplyAllKeeps(q: seq<Entry>, acts: seq<Action>, now: nat, stamp: nat)
    requires Sorted(q) && Older(q, stamp) && Timely(acts)
    ensures Sorted(ApplyAll(q, acts, now, stamp)) && Older(ApplyAll(q, acts, now, stamp), StampAfter(acts, stamp))
    ensures Due(ApplyAll(q, acts, now, stamp), now) == Kept(Due(q, now), acts)
    ensures Later(ApplyAll(q, acts, now, stamp), now) == ApplyAll(Later(q, now), acts, now, stamp)
    decreases |acts|
  {
    if acts != [] {
      hide Sorted, Older, Due, Later, Apply;
      ApplyKeeps(q, acts[0], now, stamp);
      ApplyAllKeeps(Apply(q, acts[0], now, stamp), acts[1..], now, NextStamp(acts[0], stamp));
    }
  }

  lemma {:induction false} ApplyAllMore(q: seq<Entry>, a: seq<Action>, b: seq<Action>, now: nat, stamp: nat)
    ensures ApplyAll(q, a + b, now, stamp) == ApplyAll(ApplyAll(q, a, now, stamp), b, now, StampAfter(a, stamp))
    ensures StampAfter(a + b, stamp) == StampAfter(b, StampAfter(a, stamp))
    decreases |a|
  {
    if a == [] {
      assert a + b == b;
    } else {
      assert (a + b)[1..] == a[1..] + b;
      ApplyAllMore(Apply(q, a[0], now, stamp), a[1..], b, now, NextStamp(a[0], stamp));
    }
  }

  lemma {:induction false} KeptMembers(due: seq<Entry>, acts: seq<Action>)
    ensures forall e :: e in Kept(due, acts) <==> e in due && Drop(e) !in acts
    decreases |acts|
  {
    if acts != [] {
      assert acts == [acts[0]] + acts[1..];
      if acts[0].Drop? {
        WithoutMembers(due, acts[0].entry);
        KeptMembers(Without(due, acts[0].entry), acts[1..]);
      } else {
        KeptMembers(due, acts[1..]);
      }
    }
  }

  /** Exactly the due entries fire that no handler fired in this tick cancels. */
  lemma {:induction false} FiresExactly(due: seq<Entry>, h: Entry -> seq<Action>, e: Entry)
    ensures e in Fires(due, h) ==> e in due
    ensures e in due && e !in Fires(due, h) ==> exists f :: f in Fires(due, h) && Drop(e) in h(f)
    decreases |due|
  {
    if due != [] {
      var rest := Kept(due[1..], h(due[0]));
      KeptMembers(due[1..], h(due[0]));
      FiresExactly(rest, h, e);
      assert due == [due[0]] + due[1..];
      if e in due && e !in Fires(due, h) {
        if e in rest {
          var f :| f in Fires(rest, h) && Drop(e) in h(f);
          assert f in Fires(due, h);
        } else {
          assert due[0] in Fires(due, h);
        }
      }
    }
  }

  // ------------------------------------------------------------------ the clock and its runs

  datatype Clock = Clock(ns: nat, queue: seq<Entry>, stamp: nat)

  predicate ClockOk(c: Clock) { Sorted(c.queue) && Older(c.queue, c.stamp) }

  ghost function Tick(c: Clock, h: Entry -> seq<Action>): Clock {
    var now := c.ns + TIMER_NS;
    var acts := Actions(Fires(Due(c.queue, now), h), h);
    Clock(now, ApplyAll(Later(c.queue, now), acts, now, c.stamp), StampAfter(acts, c.stamp))
  }

  /** An action from outside a handler, a callout set for a point in time, or a tick with the handlers' effect. */
  datatype Op = Do(a: Action) | AddAt(id: nat, ns: nat) | TickOp(h: Entry -> seq<Action>)

  /** Only positive delays are used inside handlers, without which a tick need not end. */
  ghost predicate Enabled(op: Op) { op.TickOp? ==> Positive(op.h) }

  ghost function Step(c: Clock, op: Op): Clock {
    match op
    case Do(a) => c.(queue := Apply(c.queue, a, c.ns, c.stamp), stamp := NextStamp(a, c.stamp))
    case AddAt(id, ns) => c.(queue := Insert(c.queue, Entry(id, ns, c.stamp)), stamp := c.stamp + 1)
    case TickOp(h) => Tick(c, h)
  }

  datatype Firing = Firing(entry: Entry, at: nat)

  function Stamped(fired: seq<Entry>, at: nat): (r: seq<Firing>)
    ensures |r| == |fired| && forall i :: 0 <= i < |r| ==> r[i] == Firing(fired[i], at)
  {
    if fired == [] then [] else [Firing(fired[0], at)] + Stamped(fired[1..], at)
  }

  ghost function FiredBy(c: Clock, op: Op): seq<Firing> {
    match op
    case Do(_) => []
    case AddAt(_, _) => []
    case TickOp(h) => Stamped(Fires(Due(c.queue, c.ns + TIMER_NS), h), c.ns + TIMER_NS)
  }

  ghost function RunTo(c: Clock, ops: seq<Op>): Clock
    decreases |ops|
  {
    if ops == [] then c else RunTo(Step(c, ops[0]), ops[1..])
  }

  /** All firings of a run with their times. */
  ghost function Log(c: Clock, ops: seq<Op>): seq<Firing>
    decreases |ops|
  {
    if ops == [] then [] else FiredBy(c, ops[0]) + Log(Step(c, ops[0]), ops[1..])
  }

  /** A run grows by a step, whose firings come last. */
  lemma {:induction false} RunMore(c: Clock, ops: seq<Op>, op: Op)
    ensures RunTo(c, ops + [op]) == Step(RunTo(c, ops), op)
    ensures Log(c, ops + [op]) == Log(c, ops) + FiredBy(RunTo(c, ops), op)
    decreases |ops|
  {
    hide Step, FiredBy;
    if ops == [] {
      assert ops + [op] == [op] && [op][1..] == [];
      assert FiredBy(c, op) + [] == FiredBy(c, op) && [] + FiredBy(c, op) == FiredBy(c, op);
    } else {
      assert (ops + [op])[1..] == ops[1..] + [op];
      RunMore(Step(c, ops[0]), ops[1..], op);
      var a, b, d := FiredBy(c, ops[0]), Log(Step(c, ops[0]), ops[1..]), FiredBy(RunTo(c, ops), op);
      assert a + (b + d) == (a + b) + d;
    }
  }

  ghost predicate IsRun(ops: seq<Op>) { forall i :: 0 <= i < |ops| ==> Enabled(ops[i]) }

  /** The step does not cancel the entry. */
  ghost predicate Spares(op: Op, e: Entry) {
    match op
    case Do(a) => a != Drop(e)
    case AddAt(_, _) => true
    case TickOp(h) => forall f :: Drop(e) !in h(f)
  }

  ghost predicate NotCancelled(ops: seq<Op>, e: Entry) { forall i :: 0 <= i < |ops| ==> Spares(ops[i], e) }

  /** The first tick after time `t` at or past `ns`. */
  function FirstTick(t: nat, ns: nat): (r: nat)
    ensures r >= ns && r > t
    ensures r - ns < TIMER_NS <==> ns > t
    decreases ns - t
  {
    if ns <= t + TIMER_NS then t + TIMER_NS else FirstTick(t + TIMER_NS, ns)
  }

  lemma {:induction false} ActionsTimely(fired: seq<Entry>, h: Entry -> seq<Action>)
    requires Positive(h)
    ensures Timely(Actions(fired, h))
  {
    if fired != [] {
      ActionsTimely(fired[1..], h);
      assert Timely(h(fired[0]));
    }
  }

  lemma DoneLater(q: seq<Entry>, now: nat)
    requires Sorted(q)
    ensures Sorted(Later(q, now)) && Due(Later(q, now), now) == [] && Later(Later(q, now), now) == Later(q, now)
    ensures forall s :: Older(q, s) ==> Older(Later(q, now), s)
    decreases |q|
  {
    if q != [] && q[0].ns <= now { DoneLater(q[1..], now); } else { NoneDue(q, now); }
  }

  /** After a tick nothing is due; what was later than the tick and not cancelled is still there. */
  lemma TickKeeps(c: Clock, h: Entry -> seq<Action>)
    requires ClockOk(c) && Positive(h)
    ensures ClockOk(Tick(c, h)) && Tick(c, h).stamp >= c.stamp && Due(Tick(c, h).queue, Tick(c, h).ns) == []
  {
    hide Sorted, Older, Due, Later, ApplyAll, Fires, Actions;
    var now := c.ns + TIMER_NS;
    var acts := Actions(Fires(Due(c.queue, now), h), h);
    DoneLater(c.queue, now);
    ActionsTimely(Fires(Due(c.queue, now), h), h);
    ApplyAllKeeps(Later(c.queue, now), acts, now, c.stamp);
    StampGrows(acts, c.stamp);
    KeptNone(acts);
  }

  lemma {:induction false} StampGrows(acts: seq<Action>, stamp: nat)
    ensures StampAfter(acts, stamp) >= stamp
    decreases |acts|
  {
    if acts != [] { StampGrows(acts[1..], NextStamp(acts[0], stamp)); }
  }

  lemma KeptNone(acts: seq<Action>)
    ensures Kept([], acts) == []
  {}

  lemma StepKeeps(c: Clock, op: Op)
    requires ClockOk(c) && Enabled(op)
    ensures ClockOk(Step(c, op)) && Step(c, op).stamp >= c.stamp
  {
    match op
    case Do(Arm(id, delay)) => InsertSorted(c.queue, Entry(id, c.ns + delay, c.stamp));
    case Do(Drop(e)) => WithoutSorted(c.queue, e, c.stamp);
    case AddAt(id, ns) => InsertSorted(c.queue, Entry(id, ns, c.stamp));
    case TickOp(h) => TickKeeps(c, h);
  }

  /** An old entry is in the queue after some actions exactly if it was there and is not cancelled. */
  lemma {:induction false} ApplyAllMember(q: seq<Entry>, acts: seq<Action>, now: nat, stamp: nat, e: Entry)
    requires Sorted(q) && Older(q, stamp) && e.stamp < stamp && Drop(e) !in acts && Timely(acts)
    ensures e in ApplyAll(q, acts, now, stamp) <==> e in q
    decreases |acts|
  {
    if acts != [] {
      assert acts == [acts[0]] + acts[1..];
      ApplyKeeps(q, acts[0], now, stamp);
      ApplyMember(q, acts[0], now, stamp, e);
      hide Sorted, Older, Apply;
      ApplyAllMember(Apply(q, acts[0], now, stamp), acts[1..], now, NextStamp(acts[0], stamp), e);
    }
  }

  lemma ApplyMember(q: seq<Entry>, a: Action, now: nat, stamp: nat, e: Entry)
    requires Sorted(q) && Older(q, stamp) && e.stamp < stamp && a != Drop(e)
    ensures e in Apply(q, a, now, stamp) <==> e in q
  {
    match a
    case Arm(id, delay) => InsertSorted(q, Entry(id, now + delay, stamp));
    case Drop(d) => WithoutMembers(q, d);
  }

  lemma {:induction false} ActionsSpare(fired: seq<Entry>, h: Entry -> seq<Action>, e: Entry)
    requires forall f :: Drop(e) !in h(f)
    ensures Drop(e) !in Actions(fired, h)
  {
    if fired != [] { ActionsSpare(fired[1..], h, e); }
  }

  /** One step, for an entry it does not cancel: it fires in a tick exactly if it is queued and due then,
      and otherwise stays where it is. */
  lemma StepEntry(c: Clock, op: Op, e: Entry)
    requires ClockOk(c) && Enabled(op) && Spares(op, e) && e.stamp < c.stamp
    ensures e in Step(c, op).queue <==> e in c.queue && (op.TickOp? ==> e.ns > c.ns + TIMER_NS)
    ensures op.TickOp? ==>
              (e in Fires(Due(c.queue, c.ns + TIMER_NS), op.h) <==> e in c.queue && e.ns <= c.ns + TIMER_NS)
  {
    match op
    case Do(a) => ApplyMember(c.queue, a, c.ns, c.stamp, e);
    case AddAt(id, ns) => InsertSorted(c.queue, Entry(id, ns, c.stamp));
    case TickOp(h) => TickEntry(c, h, e);
  }

  lemma TickEntry(c: Clock, h: Entry -> seq<Action>, e: Entry)
    requires ClockOk(c) && Positive(h) && Spares(TickOp(h), e) && e.stamp < c.stamp
    ensures e in Tick(c, h).queue <==> e in c.queue && e.ns > c.ns + TIMER_NS
    ensures e in Fires(Due(c.queue, c.ns + TIMER_NS), h) <==> e in c.queue && e.ns <= c.ns + TIMER_NS
  {
    hide Sorted, Older, Due, Later, ApplyAll, Fires, Actions, Timely;
    var now := c.ns + TIMER_NS;
    var fired := Fires(Due(c.queue, now), h);
    DueExactly(c.queue, now);
    DoneLater(c.queue, now);
    ActionsTimely(fired, h);
    ActionsSpare(fired, h, e);
    ApplyAllMember(Later(c.queue, now), Actions(fired, h), now, c.stamp, e);
    FiresExactly(Due(c.queue, now), h, e);
  }

  lemma {:induction false} KeptSorted(due: seq<Entry>, acts: seq<Action>)
    requires Sorted(due)
    ensures Sorted(Kept(due, acts))
    decreases |acts|
  {
    if acts != [] {
      if acts[0].Drop? {
        var bound := Bound(due);
        WithoutSorted(due, acts[0].entry, bound);
        KeptSorted(Without(due, acts[0].entry), acts[1..]);
      } else {
        KeptSorted(due, acts[1..]);
      }
    }
  }

  /** Some number above every stamp. */
  function Bound(q: seq<Entry>): (r: nat)
    ensures Older(q, r)
  {
    if q == [] then 0 else var r := Bound(q[1..]); if q[0].stamp < r then r else q[0].stamp + 1
  }

  /** What fires does so in order of deadline, first come first served; so nothing fires twice in a tick. */
  lemma {:induction false} FiresSorted(due: seq<Entry>, h: Entry -> seq<Action>)
    requires Sorted(due)
    ensures Sorted(Fires(due, h))
    decreases |due|
  {
    if due != [] {
      var rest := Kept(due[1..], h(due[0]));
      KeptSorted(due[1..], h(due[0]));
      KeptMembers(due[1..], h(due[0]));
      FiresSorted(rest, h);
      var r := Fires(rest, h);
      forall j | 0 <= j < |r| ensures Before(due[0], r[j]) {
        FiresExactly(rest, h, r[j]);
        assert r[j] in r && r[j] in due[1..];
        var k :| 0 <= k < |due[1..]| && due[1..][k] == r[j];
        assert due[k + 1] == r[j];
      }
    }
  }

  /** In the log of a run, `e` fires at time `at` and at no other, and not twice. */
  ghost predicate OnceAt(log: seq<Firing>, e: Entry, at: nat) {
    exists i :: 0 <= i < |log| && log[i] == Firing(e, at) && forall j :: 0 <= j < |log| && j != i ==> log[j].entry != e
  }

  ghost predicate NeverIn(log: seq<Firing>, e: Entry) { forall i :: 0 <= i < |log| ==> log[i].entry != e }

  lemma {:induction false} ApplyAllAbsent(q: seq<Entry>, acts: seq<Action>, now: nat, stamp: nat, e: Entry)
    requires Sorted(q) && Older(q, stamp) && e.stamp < stamp && e !in q && Timely(acts)
    ensures e !in ApplyAll(q, acts, now, stamp)
    decreases |acts|
  {
    if acts != [] {
      assert acts == [acts[0]] + acts[1..];
      ApplyKeeps(q, acts[0], now, stamp);
      ApplyAbsent(q, acts[0], now, stamp, e);
      hide Sorted, Older, Apply;
      ApplyAllAbsent(Apply(q, acts[0], now, stamp), acts[1..], now, NextStamp(acts[0], stamp), e);
    }
  }

  lemma ApplyAbsent(q: seq<Entry>, a: Action, now: nat, stamp: nat, e: Entry)
    requires Sorted(q) && Older(q, stamp) && e.stamp < stamp && e !in q
    ensures e !in Apply(q, a, now, stamp)
  {
    match a
    case Arm(id, delay) => InsertSorted(q, Entry(id, now + delay, stamp));
    case Drop(d) => WithoutMembers(q, d);
  }

  /** A step neither fires nor queues an old entry that is not in the queue. */
  lemma AbsentStep(c: Clock, op: Op, e: Entry)
    requires ClockOk(c) && Enabled(op) && e.stamp < c.stamp && e !in c.queue
    ensures e !in Step(c, op).queue && NeverIn(FiredBy(c, op), e)
  {
    match op
    case Do(a) => ApplyAbsent(c.queue, a, c.ns, c.stamp, e);
    case AddAt(id, ns) => InsertSorted(c.queue, Entry(id, ns, c.stamp));
    case TickOp(h) => AbsentTick(c, h, e);
  }

  lemma AbsentTick(c: Clock, h: Entry -> seq<Action>, e: Entry)
    requires ClockOk(c) && Positive(h) && e.stamp < c.stamp && e !in c.queue
    ensures e !in Tick(c, h).queue && NeverIn(FiredBy(c, TickOp(h)), e)
  {
    hide Sorted, Older, Due, Later, ApplyAll, Fires, Actions, Timely, Positive;
    var now := c.ns + TIMER_NS;
    var fired := Fires(Due(c.queue, now), h);
    DueExactly(c.queue, now);
    DoneLater(c.queue, now);
    ActionsTimely(fired, h);
    ApplyAllAbsent(Later(c.queue, now), Actions(fired, h), now, c.stamp, e);
    FiresExactly(Due(c.queue, now), h, e);
  }

  /** An entry that is gone does not come back. */
  lemma {:induction false} Gone(c: Clock, ops: seq<Op>, e: Entry)
    requires ClockOk(c) && IsRun(ops) && e.stamp < c.stamp && e !in c.queue
    ensures NeverIn(Log(c, ops), e) && e !in RunTo(c, ops).queue
    decreases |ops|
  {
    if ops != [] {
      hide ClockOk, Step, FiredBy, Enabled;
      StepKeeps(c, ops[0]);
      AbsentStep(c, ops[0], e);
      Gone(Step(c, ops[0]), ops[1..], e);
    }
  }

  /** `com_sys_callout_cancel`: the entry leaves the queue, due or not, all others stay in their order, and in
      no run after that does it fire or return. */
  lemma CancelledNeverFires(c: Clock, e: Entry, ops: seq<Op>)
    requires ClockOk(c) && e.stamp < c.stamp && IsRun(ops)
    ensures var d := Step(c, Do(Drop(e)));
      && ClockOk(d) && d.ns == c.ns && (forall x :: x in d.queue <==> x in c.queue && x != e)
      && NeverIn(Log(d, ops), e) && e !in RunTo(d, ops).queue
  {
    hide Log, RunTo, NeverIn;
    WithoutSorted(c.queue, e, c.stamp);
    WithoutMembers(c.queue, e);
    Gone(Step(c, Do(Drop(e))), ops, e);
  }

  lemma {:induction false} TimeGrows(c: Clock, ops: seq<Op>)
    ensures RunTo(c, ops).ns >= c.ns
    decreases |ops|
  {
    if ops != [] { TimeGrows(Step(c, ops[0]), ops[1..]); }
  }

  lemma FiredOnce(c: Clock, h: Entry -> seq<Action>, e: Entry)
    requires ClockOk(c) && e in Fires(Due(c.queue, c.ns + TIMER_NS), h)
    ensures OnceAt(FiredBy(c, TickOp(h)), e, c.ns + TIMER_NS)
  {
    hide Fires, Due, Sorted, Older;
    var now := c.ns + TIMER_NS;
    DueSorted(c.queue, now);
    FiresSorted(Due(c.queue, now), h);
    SortedOnce(Fires(Due(c.queue, now), h), e, now);
  }

  lemma SortedOnce(fired: seq<Entry>, e: Entry, now: nat)
    requires Sorted(fired) && e in fired
    ensures OnceAt(Stamped(fired, now), e, now)
  {
    var i :| 0 <= i < |fired| && fired[i] == e;
    forall j | 0 <= j < |fired| && j != i ensures fired[j] != e {
      assert if i < j then Before(fired[i], fired[j]) else Before(fired[j], fired[i]);
    }
    assert Stamped(fired, now)[i] == Firing(e, now);
  }

  lemma DueSorted(q: seq<Entry>, now: nat)
    requires Sorted(q)
    ensures Sorted(Due(q, now))
  {
    DueExactly(q, now);
    var d := Due(q, now);
    forall i, j | 0 <= i < j < |d| ensures Before(d[i], d[j]) { assert d[i] == q[i] && d[j] == q[j]; }
  }

  lemma OnceMore(a: seq<Firing>, b: seq<Firing>, e: Entry, at: nat)
    requires OnceAt(a, e, at) && NeverIn(b, e)
    ensures OnceAt(a + b, e, at)
  {
    var i :| 0 <= i < |a| && a[i] == Firing(e, at) && forall j :: 0 <= j < |a| && j != i ==> a[j].entry != e;
    assert (a + b)[i] == a[i];
  }

  lemma OnceLater(a: seq<Firing>, b: seq<Firing>, e: Entry, at: nat)
    requires NeverIn(a, e) && OnceAt(b, e, at)
    ensures OnceAt(a + b, e, at)
  {
    var i :| 0 <= i < |b| && b[i] == Firing(e, at) && forall j :: 0 <= j < |b| && j != i ==> b[j].entry != e;
    assert (a + b)[|a| + i] == b[i];
    forall j | 0 <= j < |a + b| && j != |a| + i ensures (a + b)[j].entry != e {
      if j >= |a| { assert (a + b)[j] == b[j - |a|]; }
    }
  }

  /** A step in which the entry is not due neither fires it nor moves its tick. */
  lemma NotYet(c: Clock, op: Op, e: Entry)
    requires op.TickOp? ==> e.ns > c.ns + TIMER_NS && e !in Fires(Due(c.queue, c.ns + TIMER_NS), op.h)
    ensures NeverIn(FiredBy(c, op), e) && FirstTick(Step(c, op).ns, e.ns) == FirstTick(c.ns, e.ns)
  {}

  /** The theorem for an entry already in the queue: as long as nothing cancels it, it waits until the
      first tick at or past its deadline, fires in that tick, and never again. */
  lemma {:induction false} Waits(c: Clock, ops: seq<Op>, e: Entry)
    requires ClockOk(c) && IsRun(ops) && NotCancelled(ops, e) && e in c.queue
    ensures RunTo(c, ops).ns < FirstTick(c.ns, e.ns) ==> NeverIn(Log(c, ops), e) && e in RunTo(c, ops).queue
    ensures RunTo(c, ops).ns >= FirstTick(c.ns, e.ns) ==>
              OnceAt(Log(c, ops), e, FirstTick(c.ns, e.ns)) && e !in RunTo(c, ops).queue
    decreases |ops|
  {
    if ops != [] {
      hide Fires, Due, Sorted;
      var d, rest := Step(c, ops[0]), ops[1..];
      assert e.stamp < c.stamp;
      StepKeeps(c, ops[0]);
      StepEntry(c, ops[0], e);
      hide ClockOk, Older;
      TimeGrows(d, rest);
      if ops[0].TickOp? && e.ns <= c.ns + TIMER_NS {
        Gone(d, rest, e);
        FiredOnce(c, ops[0].h, e);
        OnceMore(FiredBy(c, ops[0]), Log(d, rest), e, d.ns);
      } else {
        Waits(d, rest, e);
        NotYet(c, ops[0], e);
        if RunTo(d, rest).ns >= FirstTick(c.ns, e.ns) {
          OnceLater(FiredBy(c, ops[0]), Log(d, rest), e, FirstTick(c.ns, e.ns));
        }
      }
    }
  }

  /** A callout set for `delay` from now, by any of the calls, fires in exactly the first tick at or past
      its deadline unless it is cancelled: before that tick it is in the queue, after it it has fired once
      and is gone.  It is less than a period late exactly when the delay is positive. */
  lemma FiresOnTime(c: Clock, id: nat, delay: nat, ops: seq<Op>)
    requires ClockOk(c) && IsRun(ops) && NotCancelled(ops, Entry(id, c.ns + delay, c.stamp))
    ensures var e, at := Entry(id, c.ns + delay, c.stamp), FirstTick(c.ns, c.ns + delay);
      var run := [Do(Arm(id, delay))] + ops;
      && (if RunTo(c, run).ns < at then NeverIn(Log(c, run), e) && e in RunTo(c, run).queue
          else OnceAt(Log(c, run), e, at) && e !in RunTo(c, run).queue)
      && (at - e.ns < TIMER_NS <==> delay > 0)
  {
    hide Log, NeverIn, OnceAt;
    var e, op := Entry(id, c.ns + delay, c.stamp), Do(Arm(id, delay));
    var run := [op] + ops;
    InsertSorted(c.queue, e);
    Waits(Step(c, op), ops, e);
    assert run[1..] == ops;
    LogDo(c, Arm(id, delay), ops);
  }

  lemma LogDo(c: Clock, a: Action, ops: seq<Op>)
    ensures Log(c, [Do(a)] + ops) == Log(Step(c, Do(a)), ops)
  {
    assert ([Do(a)] + ops)[1..] == ops;
  }

  /** The same for a callout set for a point in time, which may have passed already. */
  lemma FiresAt(c: Clock, id: nat, ns: nat, ops: seq<Op>)
    requires ClockOk(c) && IsRun(ops) && NotCancelled(ops, Entry(id, ns, c.stamp))
    ensures var e, at, d := Entry(id, ns, c.stamp), FirstTick(c.ns, ns), Step(c, AddAt(id, ns));
      if RunTo(d, ops).ns < at then NeverIn(Log(d, ops), e) && e in RunTo(d, ops).queue
      else OnceAt(Log(d, ops), e, at) && e !in RunTo(d, ops).queue
  {
    hide Log, RunTo, NeverIn, OnceAt;
    var e := Entry(id, ns, c.stamp);
    InsertSorted(c.queue, e);
    Waits(Step(c, AddAt(id, ns)), ops, e);
  }

  /** A delay of zero: the callout is due at once but fires a full period later. */
  lemma ZeroDelayLate(h: Entry -> seq<Action>)
    ensures Log(Clock(0, [], 0), [Do(Arm(7, 0)), TickOp(h)]) == [Firing(Entry(7, 0, 0), TIMER_NS)]
  {
    var c, e, t := Clock(0, [], 0), Entry(7, 0, 0), TickOp(h);
    var d := Step(c, Do(Arm(7, 0)));
    assert [Do(Arm(7, 0)), t][1..] == [t] && [t][1..] == [];
    LogDo(c, Arm(7, 0), [t]);
    assert [Do(Arm(7, 0)), t] == [Do(Arm(7, 0))] + [t];
    assert Due(d.queue, TIMER_NS) == [e];
    KeptNone(h(e));
    assert Fires([e], h) == [e] + Fires(Kept([], h(e)), h);
    assert FiredBy(d, t) == [Firing(e, TIMER_NS)];
  }

  // ------------------------------------------------------------------ when a tick ends

  /** The loop of a tick at time `now` stops here. */
  predicate Ended(q: seq<Entry>, now: nat) { q == [] || q[0].ns > now }

  /** The queue after at most `k` rounds of that loop with handlers `h`, whatever delays they use. */
  function Rounds(q: seq<Entry>, now: nat, stamp: nat, h: Entry -> seq<Action>, k: nat): seq<Entry>
    decreases k
  {
    if k == 0 || Ended(q, now) then q
    else Rounds(ApplyAll(q[1..], h(q[0]), now, stamp), now, StampAfter(h(q[0]), stamp), h, k - 1)
  }

  /** With positive delays a tick ends after at most as many rounds as entries were due at its start. */
  lemma {:induction false} PositiveEnds(q: seq<Entry>, now: nat, stamp: nat, h: Entry -> seq<Action>, k: nat)
    requires Sorted(q) && Older(q, stamp) && Positive(h) && k >= |Due(q, now)|
    ensures Ended(Rounds(q, now, stamp, h, k), now)
    decreases k
  {
    if !Ended(q, now) {
      hide Sorted, Older, Later, ApplyAll, Timely, StampAfter;
      PopDue(q, now, stamp);
      assert Timely(h(q[0]));
      ApplyAllKeeps(q[1..], h(q[0]), now, stamp);
      PositiveEnds(ApplyAll(q[1..], h(q[0]), now, stamp), now, StampAfter(h(q[0]), stamp), h, k - 1);
    }
  }

  /** The handler that runs its callout again `d` from now. */
  function Again(d: nat): Entry -> seq<Action> { (e: Entry) => [Arm(e.id, d)] }

  /** With delay 0 a tick that finds something due finds something due in every round. */
  lemma {:induction false} ZeroDelayNeverEnds(q: seq<Entry>, now: nat, stamp: nat, k: nat)
    requires !Ended(q, now)
    ensures !Ended(Rounds(q, now, stamp, Again(0), k), now)
    decreases k
  {
    if k > 0 {
      var a := Arm(q[0].id, 0);
      AgainOnce(q[1..], a, now, stamp);
      ZeroDelayNeverEnds(Insert(q[1..], Entry(q[0].id, now, stamp)), now, stamp + 1, k - 1);
    }
  }

  lemma AgainOnce(q: seq<Entry>, a: Action, now: nat, stamp: nat)
    ensures ApplyAll(q, [a], now, stamp) == Apply(q, a, now, stamp) && StampAfter([a], stamp) == NextStamp(a, stamp)
  {
    assert [a][1..] == [];
  }

  /** So with handlers that re-arm with a fixed delay a tick ends if and only if the delay is positive or
      nothing was due. */
  lemma FixedDelayEnds(q: seq<Entry>, now: nat, stamp: nat, d: nat)
    requires Sorted(q) && Older(q, stamp)
    ensures (exists k: nat :: Ended(Rounds(q, now, stamp, Again(d), k), now)) <==> d > 0 || Ended(q, now)
  {
    hide Rounds, Sorted, Older, Ended;
    if d > 0 {
      PositiveEnds(q, now, stamp, Again(d), |Due(q, now)|);
    } else if Ended(q, now) {
      NoRounds(q, now, stamp, Again(d));
    } else {
      forall k: nat ensures !Ended(Rounds(q, now, stamp, Again(d), k), now) { ZeroDelayNeverEnds(q, now, stamp, k); }
    }
  }

  lemma NoRounds(q: seq<Entry>, now: nat, stamp: nat, h: Entry -> seq<Action>)
    ensures Rounds(q, now, stamp, h, 0) == q
  {}

  // ------------------------------------------------------------------ the code

  class Queue {
    var ns: nat
    var nextPreempt: nat
    var queue: seq<Entry>
    var stamp: nat

    ghost function State(): Clock
      reads this
    {
      Clock(ns, queue, stamp)
    }

    ghost predicate Valid()
      reads this
    {
      ClockOk(State())
    }

    /** `enqueue_callout`. */
    method Enqueue(id: nat, at: nat)
      requires Valid()
      modifies this`queue, this`stamp
      ensures Valid() && State() == Step(old(State()), AddAt(id, at))
    {
      hide Sorted, Older, Insert;
      ghost var e := Entry(id, at, stamp);
      InsertSorted(queue, e);
      var i := 0;
      while i < |queue| && at >= queue[i].ns
        invariant 0 <= i <= |queue| && queue == old(queue) && stamp == old(stamp)
        invariant Insert(queue, e) == queue[..i] + Insert(queue[i..], e)
      {
        InsertPast(queue, e, i);
        i := i + 1;
      }
      InsertHere(queue[i..], e);
      assert queue[..i] + ([e] + queue[i..]) == queue[..i] + [e] + queue[i..];
      queue := queue[..i] + [Entry(id, at, stamp)] + queue[i..];
      stamp := stamp + 1;
    }

    /** `com_sys_callout_add`, `_reschedule` and `_set_and_enqueue`: `delay` from now. */
    method Add(id: nat, delay: nat)
      requires Valid()
      modifies this`queue, this`stamp
      ensures Valid() && State() == Step(old(State()), Do(Arm(id, delay)))
    {
      Enqueue(id, ns + delay);
    }

    /** `com_sys_callout_cancel`: nothing happens unless the callout is queued, and then only it goes. */
    method Cancel(e: Entry)
      requires Valid()
      modifies this`queue
      ensures Valid() && State() == Step(old(State()), Do(Drop(e)))
    {
      WithoutSorted(queue, e, stamp);
      if k :| 0 <= k < |queue| && queue[k] == e {
        WithoutOne(queue, k);
        queue := queue[..k] + queue[k + 1..];
      } else {
        WithoutNone(queue, e);
      }
    }

    /** What one handler does to the queue. */
    method Handle(acts: seq<Action>)
      requires Valid()
      modifies this`queue, this`stamp
      ensures Valid() && queue == ApplyAll(old(queue), acts, ns, old(stamp)) && stamp == StampAfter(acts, old(stamp))
    {
      var i := 0;
      while i < |acts|
        invariant 0 <= i <= |acts| && Valid()
        invariant ApplyAll(queue, acts[i..], ns, stamp) == ApplyAll(old(queue), acts, ns, old(stamp))
        invariant StampAfter(acts[i..], stamp) == StampAfter(acts, old(stamp))
      {
        assert acts[i..][1..] == acts[i + 1..] && acts[i..][0] == acts[i];
        match acts[i] {
          case Arm(id, delay) => Add(id, delay);
          case Drop(e) => Cancel(e);
        }
        i := i + 1;
      }
    }

    /** `com_sys_callout_run`, with `h` the effect of the handlers: time moves on by one period, exactly the
        due callouts fire that no handler cancels first, in order of deadline and first come first served,
        and what their handlers ask for is queued.  It ends because handlers use positive delays. */
    method Run(h: Entry -> seq<Action>) returns (fired: seq<Entry>, resched: bool)
      requires Valid() && Positive(h)
      modifies this
      ensures Valid() && State() == Tick(old(State()), h) && Due(queue, ns) == []
      ensures Stamped(fired, ns) == FiredBy(old(State()), TickOp(h)) && Sorted(fired)
      ensures forall e :: e in fired ==> e in old(queue) && e.ns <= ns
      ensures forall e :: e in fired ==> (ns - e.ns < TIMER_NS <==> e.ns > old(ns))
      ensures resched == (ns >= old(nextPreempt)) && nextPreempt == old(nextPreempt) + if resched then SCHED_NS else 0
    {
      hide Sorted, Older, Due, Later, Fires, ApplyAll, Actions, Kept, Timely;
      ns := ns + TIMER_NS;
      fired := [];
      ghost var now, q0, s0 := ns, queue, stamp;
      StartRun(q0, now, s0, h);
      while |queue| > 0 && queue[0].ns <= ns
        invariant Valid() && ns == now && nextPreempt == old(nextPreempt)
        invariant Rest(q0, s0, h, now, fired, queue, stamp)
        decreases |Due(queue, now)|
      {
        var callout := queue[0];
        NextRun(q0, s0, h, now, fired, queue, stamp);
        queue := queue[1..];
        fired := fired + [callout];
        Handle(h(callout));
      }
      EndRun(q0, s0, h, now, fired, queue, stamp);
      resched := ns >= nextPreempt;
      if resched {
        nextPreempt := nextPreempt + SCHED_NS;
      }
    }
  }

  lemma {:induction false} WithoutNone(q: seq<Entry>, e: Entry)
    requires e !in q
    ensures Without(q, e) == q
  {
    if q != [] { WithoutNone(q[1..], e); }
  }

  lemma {:induction false} WithoutOne(q: seq<Entry>, k: nat)
    requires Sorted(q) && k < |q|
    ensures Without(q, q[k]) == q[..k] + q[k + 1..]
  {
    if k == 0 {
      forall j | 0 <= j < |q[1..]| ensures q[1..][j] != q[0] { assert Before(q[0], q[j + 1]); }
      WithoutNone(q[1..], q[0]);
    } else {
      assert Before(q[0], q[k]);
      WithoutOne(q[1..], k - 1);
      assert q[1..][..k - 1] == q[1..k] && q[1..][k..] == q[k + 1..];
      assert [q[0]] + (q[1..k] + q[k + 1..]) == q[..k] + q[k + 1..];
    }
  }

  /** In the middle of a tick: what has fired and what is left of the due entries make up what fires, and
      the handlers that ran have acted on the rest. */
  ghost predicate Rest(q0: seq<Entry>, s0: nat, h: Entry -> seq<Action>, now: nat, fired: seq<Entry>, q: seq<Entry>,
                       stamp: nat) {
    && Fires(Due(q0, now), h) == fired + Fires(Due(q, now), h)
    && Later(q, now) == ApplyAll(Later(q0, now), Actions(fired, h), now, s0)
    && stamp == StampAfter(Actions(fired, h), s0)
  }

  lemma StartRun(q0: seq<Entry>, now: nat, s0: nat, h: Entry -> seq<Action>)
    ensures Rest(q0, s0, h, now, [], q0, s0)
  {
    assert [] + Fires(Due(q0, now), h) == Fires(Due(q0, now), h);
  }

  lemma PopDue(q: seq<Entry>, now: nat, stamp: nat)
    requires Sorted(q) && Older(q, stamp) && q != [] && q[0].ns <= now
    ensures Sorted(q[1..]) && Older(q[1..], stamp)
    ensures Due(q, now) == [q[0]] + Due(q[1..], now) && Later(q, now) == Later(q[1..], now)
  {}

  lemma NextRun(q0: seq<Entry>, s0: nat, h: Entry -> seq<Action>, now: nat, fired: seq<Entry>, q: seq<Entry>,
                stamp: nat)
    requires Sorted(q) && Older(q, stamp) && q != [] && q[0].ns <= now && Positive(h)
    requires Rest(q0, s0, h, now, fired, q, stamp)
    ensures Sorted(q[1..]) && Older(q[1..], stamp)
    ensures var acts := h(q[0]);
      var r := ApplyAll(q[1..], acts, now, stamp);
      Rest(q0, s0, h, now, fired + [q[0]], r, StampAfter(acts, stamp)) && |Due(r, now)| < |Due(q, now)|
  {
    hide Sorted, Older, Due, Later, ApplyAll, Actions, Kept, Timely;
    var e, t := q[0], q[1..];
    PopDue(q, now, stamp);
    assert Timely(h(e));
    ApplyAllKeeps(t, h(e), now, stamp);
    var due := Due(q, now);
    assert due[1..] == Due(t, now);
    ActionsMore(fired, e, h);
    ApplyAllMore(Later(q0, now), Actions(fired, h), h(e), now, s0);
    assert fired + ([e] + Fires(Kept(Due(t, now), h(e)), h)) == (fired + [e]) + Fires(Kept(Due(t, now), h(e)), h);
  }

  lemma EndRun(q0: seq<Entry>, s0: nat, h: Entry -> seq<Action>, now: nat, fired: seq<Entry>, q: seq<Entry>, stamp: nat)
    requires Sorted(q0) && (q == [] || q[0].ns > now) && Rest(q0, s0, h, now, fired, q, stamp)
    ensures fired == Fires(Due(q0, now), h) && Sorted(fired) && Due(q, now) == []
    ensures q == ApplyAll(Later(q0, now), Actions(fired, h), now, s0)
    ensures forall e :: e in fired ==> e in q0 && e.ns <= now
  {
    NoneDue(q, now);
    assert fired + [] == fired;
    DueSorted(q0, now);
    DueExactly(q0, now);
    FiresSorted(Due(q0, now), h);
    forall e | e in fired ensures e in q0 && e.ns <= now { FiresExactly(Due(q0, now), h, e); }
  }

  lemma {:induction false} ActionsMore(f: seq<Entry>, e: Entry, h: Entry -> seq<Action>)
    ensures Actions(f + [e], h) == Actions(f, h) + h(e)
  {
    if f == [] {
      assert f + [e] == [e] && [e][1..] == [];
    } else {
      assert (f + [e])[1..] == f[1..] + [e];
      ActionsMore(f[1..], e, h);
    }
  }
}
