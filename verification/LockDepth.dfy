/** The lock depth of threads (`lock_depth`, `src/com/lib/spinlock.c`) across changes of thread
    (`src/com/sys/sched.c`): how many spin locks a thread counts as held while it runs, sleeps and is
    resumed by another thread. */
module LockDepth {
  import opened Options
  import opened Scheduler
  import opened Handover

  type Depths = map<nat, int>

  /** What one acquire (1) or release (-1) on a CPU does; without a current thread nothing is counted. */
  function Bump(d: Depths, t: Option<nat>, k: int): Depths {
    if t.Some? && t.value in d then d[t.value := d[t.value] + k] else d
  }

  /** The state with lock depths. */
  datatype Locked = Locked(sys: Sys, depth: Depths)

  /** A scheduler step; for a wait, `drop` says whether it releases a spin lock of the caller.  Otherwise a
      CPU's current thread takes a spin lock (or is interrupted), or gives one back. */
  datatype LOp = Sched(op: Op, drop: bool) | Take(cpu: nat) | Give(cpu: nat)

  ghost predicate Switches(s: Sys, op: Op) {
    match op
    case YieldOp(c) => HasCurrent(s, c) && c < |s.queues| && s.queues[c] != []
    case WaitOp(c, _) => true
    case ExitOp(c) => true
    case _ => false
  }

  /** The thread that stops counts the lock of its own that the switch drops; the thread that starts is
      rid of the one it counted so. */
  ghost function DepthAfter(s: Sys, d: Depths, op: Op, drop: bool): Depths {
    if Switches(s, op) && HasCurrent(s, op.cpu) && op.cpu < |s.queues| == |s.idle| then
      Bump(Bump(d, Some(Curr(s, op.cpu)), if drop then 0 else 1), Some(NextOn(s, op.cpu)), -1)
    else if op.CreateOp? then d[op.t := 1]
    else d
  }

  /** A running thread holds any number of locks, a parked one counts one or two. */
  ghost predicate DepthAt(s: Sys, d: Depths, t: nat)
    requires t in s.place && t in d
  {
    if s.place[t].OnCpu? then 0 <= d[t] else 1 <= d[t] <= 2
  }

  ghost predicate DepthOk(s: Sys, d: Depths) {
    d.Keys == s.place.Keys && forall t :: t in s.place ==> DepthAt(s, d, t)
  }

  /** The call enters the scheduler on a CPU that has a current thread. */
  ghost predicate Enters(s: Sys, op: Op) {
    match op
    case YieldOp(c) => HasCurrent(s, c)
    case WaitOp(c, _) => HasCurrent(s, c)
    case ExitOp(c) => HasCurrent(s, c)
    case _ => false
  }

  /** What the KASSERTs demand of the caller: it holds at most one lock, and exactly one if it asks to have
      it dropped. */
  ghost predicate MayEnter(s: Sys, d: Depths, op: Op, drop: bool) {
    && (drop ==> op.WaitOp? && Enters(s, op) && Curr(s, op.cpu) in d && d[Curr(s, op.cpu)] == 1)
    && (Enters(s, op) ==> Curr(s, op.cpu) in d && d[Curr(s, op.cpu)] <= 1)
  }

  ghost predicate LEnabled(l: Locked, op: LOp) {
    match op
    case Sched(o, drop) => Enabled(l.sys, o) && MayEnter(l.sys, l.depth, o, drop)
    case Take(c) => HasCurrent(l.sys, c)
    case Give(c) => HasCurrent(l.sys, c) && Curr(l.sys, c) in l.depth && l.depth[Curr(l.sys, c)] >= 1
  }

  ghost function LStep(l: Locked, op: LOp): Locked {
    match op
    case Sched(o, drop) => Locked(Step(l.sys, o), DepthAfter(l.sys, l.depth, o, drop))
    case Take(c) => if c < |l.sys.current| then l.(depth := Bump(l.depth, l.sys.current[c], 1)) else l
    case Give(c) => if c < |l.sys.current| then l.(depth := Bump(l.depth, l.sys.current[c], -1)) else l
  }

  ghost predicate LInv(l: Locked) { Inv(l.sys) && DepthOk(l.sys, l.depth) }

  // ------------------------------------------------------------------ who is on a CPU after a step

  /** A step that does not switch puts nobody on a CPU and takes nobody off. */
  ghost predicate SameCpus(s: Sys, s': Sys) {
    s.place.Keys <= s'.place.Keys && forall t :: t in s.place ==> (s'.place[t].OnCpu? <==> s.place[t].OnCpu?)
  }

  lemma SameKeeps(s: Sys, s': Sys, d: Depths)
    requires DepthOk(s, d) && SameCpus(s, s') && s'.place.Keys == s.place.Keys
    ensures DepthOk(s', d)
  {
    forall t | t in s'.place ensures DepthAt(s', d, t) { assert DepthAt(s, d, t); }
  }

  lemma ReadySame(s: Sys, t: nat)
    requires Inv(s) && t in s.threads && (s.threads[t].state == New || s.threads[t].state == Waiting)
    ensures SameCpus(s, MakeReady(s, t)) && MakeReady(s, t).place.Keys == s.place.Keys
  {
    hide MakeReady;
    ReadyFields(s, t);
    assert ThreadOk(s, t);
  }

  lemma NotifySame(s: Sys, w: nat)
    requires Inv(s)
    ensures SameCpus(s, Notify(s, w)) && Notify(s, w).place.Keys == s.place.Keys
  {
    hide Inv, MakeReady;
    if w in s.lists && s.lists[w] != [] {
      SleeperWaits(s, w, s.lists[w][0]);
      ReadySame(s, s.lists[w][0]);
    }
  }

  lemma {:induction false} NotifyNSame(s: Sys, w: nat, n: nat)
    requires Inv(s)
    ensures SameCpus(s, NotifyN(s, w, n)) && NotifyN(s, w, n).place.Keys == s.place.Keys
  {
    hide Inv, Notify;
    if n > 0 {
      NotifyNKeepsInv(s, w, n - 1);
      NotifyNSame(s, w, n - 1);
      NotifySame(NotifyN(s, w, n - 1), w);
    }
  }

  lemma QuietSame(s: Sys, op: Op)
    requires Inv(s) && Enabled(s, op) && !Switches(s, op)
    ensures SameCpus(s, Step(s, op))
    ensures Step(s, op).place.Keys == if op.CreateOp? then s.place.Keys + {op.t} else s.place.Keys
    ensures op.CreateOp? ==> op.t !in s.place && !Step(s, op).place[op.t].OnCpu?
  {
    hide Wait, Exit, MakeReady, Notify;
    match op
    case YieldOp(c) => CurrentPlace(s, c);
    case NotifyOp(w) => NotifySame(s, w);
    case NotifyNOp(w, n) => NotifyNSame(s, w, n);
    case NotifyAllOp(w) => NotifyNSame(s, w, |s.lists[w]|);
    case NotifyThreadOp(t) => if s.threads[t].waitingOn.Some? { WaitingState(s, t); ReadySame(s, t); }
    case ReadyOp(t) => ReadySame(s, t);
    case CreateOp(t, proc) =>
    case CreateProcOp(p) =>
  }

  ghost function HowOf(op: Op): How
    requires op.YieldOp? || op.WaitOp? || op.ExitOp?
  {
    match op
    case YieldOp(_) => Yielding
    case WaitOp(_, w) => Sleeping(w)
    case ExitOp(_) => Exiting
  }

  /** In a switch the current thread leaves its CPU, the next one enters it, and nobody else moves. */
  lemma SwitchPlaces(s: Sys, op: Op)
    requires Inv(s) && Enabled(s, op) && Switches(s, op)
    ensures HasCurrent(s, op.cpu) && op.cpu < |s.queues| == |s.idle|
    ensures var t, n, s' := Curr(s, op.cpu), NextOn(s, op.cpu), Step(s, op);
      && t in s.place && n in s.place && t != n && s.place[t].OnCpu? && !s.place[n].OnCpu?
      && s'.place.Keys == s.place.Keys && !s'.place[t].OnCpu? && s'.place[n].OnCpu?
      && forall u :: u in s.place && u != t && u != n ==> s'.place[u] == s.place[u]
  {
    hide Inv, Enabled, Step, Switching, After, Counted, CanMove, Switches;
    SwitchWay(s, op);
    SwitchThreads(s, op.cpu, HowOf(op));
    Switched(s, op.cpu, HowOf(op));
  }

  lemma SwitchWay(s: Sys, op: Op)
    requires Inv(s) && Enabled(s, op) && Switches(s, op)
    ensures op.YieldOp? || op.WaitOp? || op.ExitOp?
    ensures HasCurrent(s, op.cpu) && op.cpu < |s.queues| == |s.idle|
    ensures Switching(s, op.cpu, HowOf(op)) && After(s, op.cpu, HowOf(op)) == Step(s, op)
  {
    var c, how := op.cpu, HowOf(op);
    assert OpOf(c, how) == op;
    MaySwitch(s, c, how);
    AfterStep(s, c, how);
  }

  // ------------------------------------------------------------------ every run

  lemma SchedKeeps(s: Sys, d: Depths, op: Op, drop: bool)
    requires Inv(s) && DepthOk(s, d) && Enabled(s, op) && MayEnter(s, d, op, drop)
    ensures DepthOk(Step(s, op), DepthAfter(s, d, op, drop))
  {
    hide Inv, Enabled, Step, MayEnter;
    var s', d' := Step(s, op), DepthAfter(s, d, op, drop);
    if Switches(s, op) {
      SwitchPlaces(s, op);
      var t, n := Curr(s, op.cpu), NextOn(s, op.cpu);
      LeaverDepth(s, d, op, drop);
      hide Switches;
      assert DepthAt(s, d, n);
      forall u | u in s'.place ensures DepthAt(s', d', u) { assert DepthAt(s, d, u); }
    } else {
      QuietSame(s, op);
      forall u | u in s'.place ensures DepthAt(s', d', u) { assert u in s.place ==> DepthAt(s, d, u); }
    }
  }

  lemma LeaverDepth(s: Sys, d: Depths, op: Op, drop: bool)
    requires Inv(s) && DepthOk(s, d) && MayEnter(s, d, op, drop) && Switches(s, op)
    requires HasCurrent(s, op.cpu) && op.cpu < |s.queues| == |s.idle| && NextOn(s, op.cpu) in d
    requires Curr(s, op.cpu) != NextOn(s, op.cpu)
    ensures var t, n := Curr(s, op.cpu), NextOn(s, op.cpu);
      && t in d && 1 <= d[t] + (if drop then 0 else 1) <= 2
      && DepthAfter(s, d, op, drop) == d[t := d[t] + if drop then 0 else 1][n := d[n] - 1]
  {
    hide Inv, DepthOk, NextOn;
    CurrentDepth(s, d, op.cpu);
    var t := Curr(s, op.cpu);
    assert drop ==> d[t := d[t] + 0] == d;
  }

  lemma StepKeepsLInv(l: Locked, op: LOp)
    requires LInv(l) && LEnabled(l, op)
    ensures LInv(LStep(l, op))
  {
    hide Inv, Step, DepthAfter;
    match op
    case Sched(o, drop) =>
      StepKeepsInv(l.sys, o);
      SchedKeeps(l.sys, l.depth, o, drop);
    case Take(c) =>
      CurrentDepth(l.sys, l.depth, c);
      BumpKeeps(l.sys, l.depth, c, 1);
    case Give(c) => BumpKeeps(l.sys, l.depth, c, -1);
  }

  lemma CurrentDepth(s: Sys, d: Depths, c: nat)
    requires Inv(s) && DepthOk(s, d) && HasCurrent(s, c)
    ensures Curr(s, c) in d && d[Curr(s, c)] >= 0
  {
    CurrentPlace(s, c);
    assert DepthAt(s, d, Curr(s, c));
  }

  lemma BumpKeeps(s: Sys, d: Depths, c: nat, k: int)
    requires Inv(s) && DepthOk(s, d) && HasCurrent(s, c) && Curr(s, c) in d && 0 <= d[Curr(s, c)] + k
    ensures DepthOk(s, Bump(d, s.current[c], k))
  {
    CurrentPlace(s, c);
    hide Inv;
    var d' := Bump(d, s.current[c], k);
    forall u | u in s.place ensures DepthAt(s, d', u) { assert DepthAt(s, d, u); }
  }

  ghost predicate LIsRun(l: Locked, ops: seq<LOp>)
    decreases |ops|
  {
    ops == [] || (LEnabled(l, ops[0]) && LIsRun(LStep(l, ops[0]), ops[1..]))
  }

  ghost function LRunTo(l: Locked, ops: seq<LOp>): Locked
    decreases |ops|
  {
    if ops == [] then l else LRunTo(LStep(l, ops[0]), ops[1..])
  }

  /** A run grows by a step that is enabled where it ends. */
  lemma {:induction false} RunMore(l: Locked, ops: seq<LOp>, op: LOp)
    ensures LIsRun(l, ops + [op]) <==> LIsRun(l, ops) && LEnabled(LRunTo(l, ops), op)
    ensures LIsRun(l, ops + [op]) ==> LRunTo(l, ops + [op]) == LStep(LRunTo(l, ops), op)
    decreases |ops|
  {
    hide LEnabled, LStep;
    if ops == [] {
      assert ops + [op] == [op] && [op][1..] == [];
    } else {
      assert (ops + [op])[1..] == ops[1..] + [op];
      if LEnabled(l, ops[0]) { RunMore(LStep(l, ops[0]), ops[1..], op); }
    }
  }

  lemma {:induction false} RunKeepsLInv(l: Locked, ops: seq<LOp>)
    requires LInv(l) && LIsRun(l, ops)
    ensures LInv(LRunTo(l, ops))
    decreases |ops|
  {
    if ops != [] {
      hide LInv, LEnabled, LStep;
      StepKeepsLInv(l, ops[0]);
      RunKeepsLInv(LStep(l, ops[0]), ops[1..]);
    }
  }

  /** A booted system: running threads hold no lock and threads that have not run count one. */
  function LBoot(cpus: nat, lists: set<nat>): Locked
    requires cpus > 0
  {
    var s := Boot(cpus, lists);
    Locked(s, map t | t in s.place :: if s.place[t].OnCpu? then 0 else 1)
  }

  /** In every run from boot, a running thread with any number of locks that calls the scheduler, and so takes
      its own lock and the run queue's and drops what it asked to, counts two or three locks there exactly
      when it held at most one at the call, or at most two of which it drops one. */
  lemma EveryEntry(cpus: nat, lists: set<nat>, ops: seq<LOp>, op: Op, drop: bool)
    requires cpus > 0 && LIsRun(LBoot(cpus, lists), ops)
    requires Enters(LRunTo(LBoot(cpus, lists), ops).sys, op)
    requires (drop ==> Holding(LRunTo(LBoot(cpus, lists), ops), op.cpu))
    ensures var l := LRunTo(LBoot(cpus, lists), ops);
      && LInv(l) && Curr(l.sys, op.cpu) in l.depth
      && var held := l.depth[Curr(l.sys, op.cpu)] - if drop then 1 else 0;
         2 <= held + 2 <= 3 <==> held <= 1
  {
    hide Inv, Boot, LRunTo, LIsRun;
    var b, l := LBoot(cpus, lists), LRunTo(LBoot(cpus, lists), ops);
    BootInv(cpus, lists);
    RunKeepsLInv(b, ops);
    CurrentDepth(l.sys, l.depth, op.cpu);
  }

  /** The current thread of the CPU holds a lock. */
  ghost predicate Holding(l: Locked, c: nat) {
    HasCurrent(l.sys, c) && Curr(l.sys, c) in l.depth && l.depth[Curr(l.sys, c)] >= 1
  }

  // ------------------------------------------------------------------ a thread resumes with the depth it left with

  lemma ParkedStep(l: Locked, op: LOp, t: nat)
    requires LInv(l) && LEnabled(l, op) && t in l.sys.place && !l.sys.place[t].OnCpu?
    ensures var l' := LStep(l, op);
      && t in l'.sys.place && t in l.depth && t in l'.depth
      && l'.depth[t] == l.depth[t] - if l'.sys.place[t].OnCpu? then 1 else 0
  {
    hide Inv, Enabled, Step;
    match op
    case Sched(o, drop) => if Switches(l.sys, o) { SwitchPlaces(l.sys, o); } else { QuietSame(l.sys, o); }
    case Take(c) => CurrentPlace(l.sys, c);
    case Give(c) => CurrentPlace(l.sys, c);
  }

  /** `t` is off every CPU until the last state of the run, where it may be back. */
  ghost predicate Parked(l: Locked, ops: seq<LOp>, t: nat)
    decreases |ops|
  {
    ops == [] || (t in l.sys.place && !l.sys.place[t].OnCpu? && Parked(LStep(l, ops[0]), ops[1..], t))
  }

  lemma {:induction false} ParkedRun(l: Locked, ops: seq<LOp>, t: nat)
    requires LInv(l) && LIsRun(l, ops) && t in l.sys.place && !l.sys.place[t].OnCpu? && Parked(l, ops, t)
    ensures var l' := LRunTo(l, ops);
      && t in l'.sys.place && t in l.depth && t in l'.depth
      && l'.depth[t] == l.depth[t] - if l'.sys.place[t].OnCpu? then 1 else 0
    decreases |ops|
  {
    if ops != [] {
      hide LEnabled, LStep;
      ParkedStep(l, ops[0], t);
      StepKeepsLInv(l, ops[0]);
      if ops[1..] != [] { ParkedRun(LStep(l, ops[0]), ops[1..], t); }
    }
  }

  /** However a thread gives up its CPU and whatever happens until it gets one again, it goes on with the
      lock depth it had at the call, less the lock a wait dropped. */
  lemma ResumesAsItLeft(l: Locked, op: Op, drop: bool, ops: seq<LOp>)
    requires LInv(l) && LEnabled(l, Sched(op, drop)) && Switches(l.sys, op)
    requires HasCurrent(l.sys, op.cpu) && LIsRun(LStep(l, Sched(op, drop)), ops)
    requires Parked(LStep(l, Sched(op, drop)), ops, Curr(l.sys, op.cpu))
    ensures var t, l' := Curr(l.sys, op.cpu), LRunTo(LStep(l, Sched(op, drop)), ops);
      && t in l'.sys.place && t in l.depth && t in l'.depth
      && (l'.sys.place[t].OnCpu? ==> l'.depth[t] == l.depth[t] - if drop then 1 else 0)
  {
    hide Inv, Step, LRunTo, LIsRun, Parked;
    var t := Curr(l.sys, op.cpu);
    SwitchPlaces(l.sys, op);
    StepKeepsLInv(l, Sched(op, drop));
    ParkedRun(LStep(l, Sched(op, drop)), ops, t);
  }

  /** Taking a lock counts one for the current thread and nobody else, and giving it back undoes that. */
  lemma TakeGive(l: Locked, c: nat)
    requires LInv(l) && HasCurrent(l.sys, c)
    ensures var t, l1 := Curr(l.sys, c), LStep(l, Take(c));
      && t in l.depth && l1 == l.(depth := l.depth[t := l.depth[t] + 1])
      && LEnabled(l1, Give(c)) && LStep(l1, Give(c)) == l
  {
    hide Inv;
    CurrentDepth(l.sys, l.depth, c);
    var t := Curr(l.sys, c);
    assert l.depth[t := l.depth[t]] == l.depth;
  }

  /** A new thread holds no lock when it first runs, whatever happens until then. */
  lemma StartsUnlocked(l: Locked, t: nat, proc: Option<nat>, ops: seq<LOp>)
    requires LInv(l) && LEnabled(l, Sched(CreateOp(t, proc), false))
    requires var l1 := LStep(l, Sched(CreateOp(t, proc), false)); LIsRun(l1, ops) && Parked(l1, ops, t)
    ensures var l' := LRunTo(LStep(l, Sched(CreateOp(t, proc), false)), ops);
      t in l'.sys.place && t in l'.depth && (l'.sys.place[t].OnCpu? ==> l'.depth[t] == 0)
  {
    hide LRunTo, LIsRun, Parked;
    var op := CreateOp(t, proc);
    var l1 := LStep(l, Sched(op, false));
    QuietSame(l.sys, op);
    hide Inv, Step;
    StepKeepsLInv(l, Sched(op, false));
    assert l1.depth[t] == 1;
    ParkedRun(l1, ops, t);
  }

  /** The timer: interrupts are on only while the current thread holds no lock, so the handler may always
      yield, enters the scheduler with three locks, and comes back with the one lock that the code after
      the handler expects, whatever ran in between. */
  lemma TimerYields(l: Locked, c: nat, ops: seq<LOp>)
    requires LInv(l) && HasCurrent(l.sys, c) && Curr(l.sys, c) in l.depth && l.depth[Curr(l.sys, c)] == 0
    ensures var l1 := LStep(l, Take(c));
      && LInv(l1) && LEnabled(l1, Sched(YieldOp(c), false))
      && Curr(l.sys, c) in l1.depth && l1.depth[Curr(l.sys, c)] + 2 == 3
    ensures var l1, t := LStep(l, Take(c)), Curr(l.sys, c);
      var l2 := LStep(l1, Sched(YieldOp(c), false));
      Switches(l1.sys, YieldOp(c)) && LIsRun(l2, ops) && Parked(l2, ops, t) ==>
      var l' := LRunTo(l2, ops);
      t in l'.sys.place && t in l'.depth && (l'.sys.place[t].OnCpu? ==> l'.depth[t] == 1)
  {
    hide Inv, Step, LRunTo, LIsRun, Parked;
    var l1 := LStep(l, Take(c));
    StepKeepsLInv(l, Take(c));
    if Switches(l1.sys, YieldOp(c)) {
      var l2 := LStep(l1, Sched(YieldOp(c), false));
      if LIsRun(l2, ops) && Parked(l2, ops, Curr(l.sys, c)) { ResumesAsItLeft(l1, YieldOp(c), false, ops); }
    }
  }

  /** A wait that drops a lock ends, once the thread runs again and has taken it back, with the depth of the
      call. */
  lemma WaitReturns(l: Locked, c: nat, w: nat, ops: seq<LOp>, c': nat)
    requires LInv(l) && LEnabled(l, Sched(WaitOp(c, w), true)) && HasCurrent(l.sys, c)
    requires var l1 := LStep(l, Sched(WaitOp(c, w), true)); LIsRun(l1, ops) && Parked(l1, ops, Curr(l.sys, c))
    requires var l' := LRunTo(LStep(l, Sched(WaitOp(c, w), true)), ops);
      HasCurrent(l'.sys, c') && Curr(l'.sys, c') == Curr(l.sys, c)
    ensures var t, l' := Curr(l.sys, c), LRunTo(LStep(l, Sched(WaitOp(c, w), true)), ops);
      && LEnabled(l', Take(c')) && t in l.depth
      && t in LStep(l', Take(c')).depth && LStep(l', Take(c')).depth[t] == l.depth[t] == 1
  {
    hide Inv, Step, LRunTo, LIsRun, Parked;
    var l1 := LStep(l, Sched(WaitOp(c, w), true));
    StepKeepsLInv(l, Sched(WaitOp(c, w), true));
    RunKeepsLInv(l1, ops);
    ResumesAsItLeft(l, WaitOp(c, w), true, ops);
    CurrentPlace(LRunTo(l1, ops).sys, c');
  }
}
