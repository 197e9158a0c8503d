/** The scheduler's state machine (`src/com/sys/sched.c`, `src/com/sys/thread.c`): threads, one run
    queue per CPU, wait lists, and the count of running threads of each process.  Each call of the
    scheduler is one step.  `Dispatcher` holds the code that performs the steps in place. */
module Scheduler {
  import opened Options
  import opened Queues

  datatype ThreadState = New | Ready | Running | Waiting | Exited

  datatype Thread = Thread(
    state: ThreadState, waitingOn: Option<nat>, cpu: Option<nat>, lastCpu: Option<nat>, proc: Option<nat>)

  /** Where a thread is: the auxiliary variable the invariant is built on. */
  datatype Place = OnCpu(cpu: nat) | InQueue(cpu: nat) | InList(list: nat) | Nowhere

  datatype Sys = Sys(
    threads: map<nat, Thread>,
    queues: seq<seq<nat>>,
    current: seq<Option<nat>>,
    lists: map<nat, seq<nat>>,
    running: map<nat, int>,
    idle: seq<nat>,
    turn: nat,
    place: map<nat, Place>)

  // ------------------------------------------------------------------ invariant

  ghost predicate IsIdle(s: Sys, t: nat) { t in s.idle }

  /** The fields of thread `t` agree with place `p`. */
  ghost predicate Fits(s: Sys, t: nat, th: Thread, p: Place) {
    match p
    case OnCpu(c) => th.state == Running && th.cpu == Some(c) && th.waitingOn == None
                     && c < |s.idle| && (IsIdle(s, t) ==> s.idle[c] == t)
    case InQueue(c) => th.state == Ready && th.cpu == None && th.waitingOn == None && !IsIdle(s, t)
    case InList(w) => th.state == Waiting && th.cpu == None && th.waitingOn == Some(w) && !IsIdle(s, t)
    case Nowhere => th.waitingOn == None
                    && (if IsIdle(s, t) then th.state == Ready
                        else th.state == Exited || (th.state == New && th.cpu == None))
  }

  /** Thread `t` sits at place `p`. */
  ghost predicate Sits(s: Sys, t: nat, p: Place) {
    match p
    case OnCpu(c) => c < |s.current| && s.current[c] == Some(t)
    case InQueue(c) => c < |s.queues| && t in s.queues[c]
    case InList(w) => w in s.lists && t in s.lists[w]
    case Nowhere => true
  }

  ghost predicate ThreadOk(s: Sys, t: nat) {
    && t in s.threads && t in s.place
    && Sits(s, t, s.place[t]) && Fits(s, t, s.threads[t], s.place[t])
    && (s.threads[t].lastCpu.Some? ==> s.threads[t].lastCpu.value < |s.queues|)
    && (s.threads[t].proc.Some? ==> s.threads[t].proc.value in s.running)
  }

  ghost predicate PlacedAt(s: Sys, q: seq<nat>, p: Place) {
    NoDup(q) && forall u :: u in q ==> u in s.place && s.place[u] == p
  }

  ghost predicate CpuOk(s: Sys, c: nat)
    requires c < |s.current|
  {
    s.current[c].Some? ==> s.current[c].value in s.place && s.place[s.current[c].value] == OnCpu(c)
  }

  ghost predicate Runs(s: Sys, c: nat, p: nat) {
    && c < |s.current| && s.current[c].Some? && s.current[c].value in s.threads
    && s.threads[s.current[c].value].proc == Some(p)
  }

  /** The CPUs that run a thread of process `p`. */
  ghost function CpusOf(s: Sys, p: nat): set<nat> { set c: nat | c < |s.current| && Runs(s, c, p) }

  ghost predicate Shape(s: Sys) {
    && |s.queues| == |s.current| == |s.idle| > 0 && s.turn < |s.queues|
    && s.place.Keys == s.threads.Keys && NoDup(s.idle)
    && (forall t :: t in s.idle ==> t in s.threads)
  }

  ghost predicate Inv(s: Sys) {
    && Shape(s)
    && (forall t :: t in s.threads ==> ThreadOk(s, t))
    && (forall c: nat :: c < |s.queues| ==> PlacedAt(s, s.queues[c], InQueue(c)))
    && (forall w :: w in s.lists ==> PlacedAt(s, s.lists[w], InList(w)))
    && (forall c: nat :: c < |s.current| ==> CpuOk(s, c))
    && (forall p :: p in s.running ==> s.running[p] == |CpusOf(s, p)|)
  }

  /** Every started thread that has not exited and is no idle thread is in exactly one place, once:
      running on one CPU, in one run queue, or in the one wait list it waits on. */
  lemma ExactlyOnePlace(s: Sys, t: nat)
    requires Inv(s) && t in s.threads && t !in s.idle && s.threads[t].state != New && s.threads[t].state != Exited
    ensures exists p :: p != Nowhere && Sits(s, t, p) && forall q :: q != Nowhere && Sits(s, t, q) ==> q == p
    ensures forall w :: w in s.lists && t in s.lists[w] ==> s.threads[t].waitingOn == Some(w)
    ensures forall c, i, j :: 0 <= c < |s.queues| && 0 <= i < j < |s.queues[c]| ==> s.queues[c][i] != s.queues[c][j]
    ensures forall w, i, j :: w in s.lists && 0 <= i < j < |s.lists[w]| ==> s.lists[w][i] != s.lists[w][j]
  {
    assert ThreadOk(s, t);
    var p := s.place[t];
    assert p != Nowhere && Sits(s, t, p);
    forall q | q != Nowhere && Sits(s, t, q) ensures q == p {
      match q
      case OnCpu(c) => assert CpuOk(s, c);
      case InQueue(c) => assert PlacedAt(s, s.queues[c], q);
      case InList(w) => assert PlacedAt(s, s.lists[w], q);
    }
    forall w | w in s.lists && t in s.lists[w] ensures s.threads[t].waitingOn == Some(w) {
      assert PlacedAt(s, s.lists[w], InList(w));
    }
    forall c | 0 <= c < |s.queues| ensures NoDup(s.queues[c]) { assert PlacedAt(s, s.queues[c], InQueue(c)); }
    forall w | w in s.lists ensures NoDup(s.lists[w]) { assert PlacedAt(s, s.lists[w], InList(w)); }
  }

  // ------------------------------------------------------------------ moving a thread

  function QueuesWithout(s: Sys, t: nat, from: Place): seq<seq<nat>> {
    if from.InQueue? && from.cpu < |s.queues| then s.queues[from.cpu := Remove(s.queues[from.cpu], t)] else s.queues
  }

  function QueuesWith(q: seq<seq<nat>>, t: nat, to: Place): seq<seq<nat>> {
    if to.InQueue? && to.cpu < |q| then q[to.cpu := q[to.cpu] + [t]] else q
  }

  function ListsWithout(s: Sys, t: nat, from: Place): map<nat, seq<nat>> {
    if from.InList? && from.list in s.lists then s.lists[from.list := Remove(s.lists[from.list], t)] else s.lists
  }

  function ListsWith(l: map<nat, seq<nat>>, t: nat, to: Place): map<nat, seq<nat>> {
    if to.InList? && to.list in l then l[to.list := l[to.list] + [t]] else l
  }

  function CurrentWithout(s: Sys, from: Place): seq<Option<nat>> {
    if from.OnCpu? && from.cpu < |s.current| then s.current[from.cpu := None] else s.current
  }

  function CurrentWith(k: seq<Option<nat>>, t: nat, to: Place): seq<Option<nat>> {
    if to.OnCpu? && to.cpu < |k| then k[to.cpu := Some(t)] else k
  }

  /** One change of a process's count of running threads. */
  function Counted(running: map<nat, int>, proc: Option<nat>, d: int): map<nat, int> {
    if proc.Some? && proc.value in running then running[proc.value := running[proc.value] + d] else running
  }

  /** Thread `t` leaves its place, its fields become `th`, and it goes to the tail of `to`. */
  function Move(s: Sys, t: nat, th: Thread, to: Place): Sys
    requires t in s.place
  {
    var from := s.place[t];
    var d := (if to.OnCpu? then 1 else 0) - (if from.OnCpu? then 1 else 0);
    s.(threads := s.threads[t := th],
       queues := QueuesWith(QueuesWithout(s, t, from), t, to),
       lists := ListsWith(ListsWithout(s, t, from), t, to),
       current := CurrentWith(CurrentWithout(s, from), t, to),
       running := Counted(s.running, th.proc, d),
       place := s.place[t := to])
  }

  ghost predicate CanMove(s: Sys, t: nat, th: Thread, to: Place) {
    && t in s.threads && t in s.place
    && th.proc == s.threads[t].proc
    && (th.lastCpu.Some? ==> th.lastCpu.value < |s.queues|)
    && Fits(s, t, th, to)
    && (to.OnCpu? ==> to.cpu < |s.current| && s.current[to.cpu] == None)
    && (to.InQueue? ==> to.cpu < |s.queues|)
    && (to.InList? ==> to.list in s.lists)
  }

  lemma MoveQueue(s: Sys, t: nat, th: Thread, to: Place, c: nat)
    requires Inv(s) && CanMove(s, t, th, to) && c < |s.queues|
    ensures |Move(s, t, th, to).queues| == |s.queues|
    ensures forall u :: u in Move(s, t, th, to).queues[c] <==> if u == t then to == InQueue(c) else u in s.queues[c]
    ensures PlacedAt(Move(s, t, th, to), Move(s, t, th, to).queues[c], InQueue(c))
  {
    var q, s' := s.queues[c], Move(s, t, th, to);
    assert PlacedAt(s, q, InQueue(c));
    var rest := if s.place[t] == InQueue(c) then Remove(q, t) else q;
    forall u ensures u in rest <==> u in q && u != t { RemoveIn(q, t, u); }
    RemoveNoDup(q, t);
    assert s'.queues[c] == if to == InQueue(c) then rest + [t] else rest;
  }

  lemma MoveList(s: Sys, t: nat, th: Thread, to: Place, w: nat)
    requires Inv(s) && CanMove(s, t, th, to) && w in s.lists
    ensures w in Move(s, t, th, to).lists
    ensures forall u :: u in Move(s, t, th, to).lists[w] <==> if u == t then to == InList(w) else u in s.lists[w]
    ensures PlacedAt(Move(s, t, th, to), Move(s, t, th, to).lists[w], InList(w))
  {
    var q, s' := s.lists[w], Move(s, t, th, to);
    assert PlacedAt(s, q, InList(w));
    var rest := if s.place[t] == InList(w) then Remove(q, t) else q;
    forall u ensures u in rest <==> u in q && u != t { RemoveIn(q, t, u); }
    RemoveNoDup(q, t);
    assert s'.lists[w] == if to == InList(w) then rest + [t] else rest;
  }

  lemma MoveCpu(s: Sys, t: nat, th: Thread, to: Place, c: nat)
    requires Inv(s) && CanMove(s, t, th, to) && c < |s.current|
    ensures |Move(s, t, th, to).current| == |s.current|
    ensures Move(s, t, th, to).current[c]
         == if to == OnCpu(c) then Some(t) else if s.place[t] == OnCpu(c) then None else s.current[c]
    ensures CpuOk(Move(s, t, th, to), c)
  {
    assert CpuOk(s, c) && ThreadOk(s, t);
  }

  lemma MoveThread(s: Sys, t: nat, th: Thread, to: Place, u: nat)
    requires Inv(s) && CanMove(s, t, th, to) && u in s.threads
    ensures ThreadOk(Move(s, t, th, to), u)
  {
    hide PlacedAt, CpuOk, NoDup, Remove, CpusOf;
    var s' := Move(s, t, th, to);
    assert ThreadOk(s, u) && ThreadOk(s, t);
    match s'.place[u]
    case OnCpu(c) => MoveCpu(s, t, th, to, c);
    case InQueue(c) => MoveQueue(s, t, th, to, c);
    case InList(w) => MoveList(s, t, th, to, w);
    case Nowhere =>
  }

  lemma MoveCount(s: Sys, t: nat, th: Thread, to: Place, p: nat)
    requires Inv(s) && CanMove(s, t, th, to) && p in s.running
    ensures var s' := Move(s, t, th, to); p in s'.running && s'.running[p] == |CpusOf(s', p)|
  {
    var s' := Move(s, t, th, to);
    var from := s.place[t];
    assert ThreadOk(s, t);
    hide Inv, NoDup, Remove, PlacedAt, ThreadOk, QueuesWith, QueuesWithout, ListsWith, ListsWithout;
    var a := if from.OnCpu? && th.proc == Some(p) then {from.cpu} else {};
    var b := if to.OnCpu? && th.proc == Some(p) then {to.cpu} else {};
    forall c: nat | c < |s.current| ensures Runs(s', c, p) <==> (Runs(s, c, p) && c !in a) || c in b {
      MoveRuns(s, t, th, to, c, p);
    }
    assert a <= CpusOf(s, p) && b !! CpusOf(s, p) - a;
    CountChange(CpusOf(s, p), a, b, CpusOf(s', p));
  }

  lemma CountChange(x: set<nat>, a: set<nat>, b: set<nat>, y: set<nat>)
    requires a <= x && b !! x - a && forall c :: c in y <==> (c in x && c !in a) || c in b
    ensures |y| == |x| - |a| + |b|
  {
    assert y == x - a + b;
  }

  lemma MoveRuns(s: Sys, t: nat, th: Thread, to: Place, c: nat, p: nat)
    requires Inv(s) && CanMove(s, t, th, to) && c < |s.current|
    ensures Runs(Move(s, t, th, to), c, p) <==>
            if to == OnCpu(c) then th.proc == Some(p) else s.place[t] != OnCpu(c) && Runs(s, c, p)
  {
    MoveCpu(s, t, th, to, c);
    assert CpuOk(s, c) && ThreadOk(s, t);
  }

  /** Everything below is a sequence of moves, so this is all the invariant needs. */
  lemma MoveKeepsInv(s: Sys, t: nat, th: Thread, to: Place)
    requires Inv(s) && CanMove(s, t, th, to)
    ensures Inv(Move(s, t, th, to))
  {
    hide PlacedAt, CpuOk, Remove, CpusOf, ThreadOk, Fits;
    var s' := Move(s, t, th, to);
    forall u | u in s'.threads ensures ThreadOk(s', u) { MoveThread(s, t, th, to, u); }
    forall c: nat | c < |s'.queues| ensures PlacedAt(s', s'.queues[c], InQueue(c)) { MoveQueue(s, t, th, to, c); }
    forall w | w in s'.lists ensures PlacedAt(s', s'.lists[w], InList(w)) { MoveList(s, t, th, to, w); }
    forall c: nat | c < |s'.current| ensures CpuOk(s', c) { MoveCpu(s, t, th, to, c); }
    forall p | p in s'.running ensures s'.running[p] == |CpusOf(s', p)| { MoveCount(s, t, th, to, p); }
  }

  // ------------------------------------------------------------------ the calls

  ghost predicate HasCurrent(s: Sys, c: nat) {
    c < |s.current| && s.current[c].Some? && s.current[c].value in s.threads && s.current[c].value in s.place
  }

  ghost function Curr(s: Sys, c: nat): nat
    requires HasCurrent(s, c)
  {
    s.current[c].value
  }

  /** The fields of a thread that stops running on CPU `c`. */
  function Stopped(th: Thread, c: nat, state: ThreadState, on: Option<nat>): Thread {
    th.(state := state, waitingOn := on, cpu := None, lastCpu := Some(c))
  }

  /** The next thread of CPU `c`: the head of its queue, or its idle thread. */
  ghost function NextOn(s: Sys, c: nat): nat
    requires c < |s.queues| && c < |s.idle|
  {
    if s.queues[c] == [] then s.idle[c] else s.queues[c][0]
  }

  /** The second half of `com_sys_sched_yield_nolock`: CPU `c`, with nothing on it, gets its next
      thread. */
  ghost function Dispatch(s: Sys, c: nat): Sys {
    if c < |s.queues| && c < |s.idle| && NextOn(s, c) in s.threads && NextOn(s, c) in s.place then
      var t := NextOn(s, c);
      Move(s, t, s.threads[t].(state := Running, cpu := Some(c)), OnCpu(c))
    else s
  }

  lemma DispatchKeepsInv(s: Sys, c: nat)
    requires Inv(s) && c < |s.current| && s.current[c] == None
    ensures NextOn(s, c) in s.threads && NextOn(s, c) in s.place
    ensures s.place[NextOn(s, c)] == if s.queues[c] == [] then Nowhere else InQueue(c)
    ensures Inv(Dispatch(s, c)) && Dispatch(s, c).current[c] == Some(NextOn(s, c))
  {
    var t := NextOn(s, c);
    if s.queues[c] != [] {
      assert t in s.queues[c] && PlacedAt(s, s.queues[c], InQueue(c));
    }
    assert ThreadOk(s, t);
    hide PlacedAt, CpuOk, Remove, CpusOf, ThreadOk;
    var th := s.threads[t].(state := Running, cpu := Some(c));
    MoveKeepsInv(s, t, th, OnCpu(c));
    MoveCpu(s, t, th, OnCpu(c), c);
  }

  /** `com_sys_sched_yield`: nothing to switch to leaves the current thread running; otherwise it
      goes to the tail of the queue, unless it is the idle thread. */
  ghost function Yield(s: Sys, c: nat): Sys {
    if !HasCurrent(s, c) || c >= |s.queues| || s.queues[c] == [] then s
    else
      var t := Curr(s, c);
      Dispatch(Move(s, t, Stopped(s.threads[t], c, Ready, None), if t in s.idle then Nowhere else InQueue(c)), c)
  }

  /** `com_sys_sched_wait` and its variants: the current thread of CPU `c` goes to sleep on `w`. */
  ghost function Wait(s: Sys, c: nat, w: nat): Sys {
    if !HasCurrent(s, c) then s
    else var t := Curr(s, c); Dispatch(Move(s, t, Stopped(s.threads[t], c, Waiting, Some(w)), InList(w)), c)
  }

  /** `com_sys_thread_exit` by the current thread of CPU `c`. */
  ghost function Exit(s: Sys, c: nat): Sys {
    if !HasCurrent(s, c) then s
    else var t := Curr(s, c); Dispatch(Move(s, t, Stopped(s.threads[t], c, Exited, None), Nowhere), c)
  }

  /** Where `com_sys_thread_ready` queues a thread: the CPU it last ran on, else the next in turn. */
  function ReadyCpu(s: Sys, t: nat): nat
    requires t in s.threads
  {
    if s.threads[t].lastCpu.Some? then s.threads[t].lastCpu.value else s.turn
  }

  function NextTurn(s: Sys, t: nat): nat
    requires t in s.threads
  {
    if s.threads[t].lastCpu.Some? || |s.queues| == 0 then s.turn else (s.turn + 1) % |s.queues|
  }

  /** `com_sys_thread_ready` on a thread that is asleep or new. */
  function MakeReady(s: Sys, t: nat): Sys {
    if t in s.threads && t in s.place then
      Move(s, t, s.threads[t].(state := Ready, waitingOn := None), InQueue(ReadyCpu(s, t))).(turn := NextTurn(s, t))
    else s
  }

  /** `com_sys_sched_notify`. */
  function Notify(s: Sys, w: nat): Sys {
    if w in s.lists && s.lists[w] != [] then MakeReady(s, s.lists[w][0]) else s
  }

  /** `com_sys_sched_notify_n`: the first `n` sleepers, in order. */
  function NotifyN(s: Sys, w: nat, n: nat): Sys {
    if n == 0 then s else Notify(NotifyN(s, w, n - 1), w)
  }

  /** `com_sys_sched_notify_all`. */
  function NotifyAll(s: Sys, w: nat): Sys {
    NotifyN(s, w, if w in s.lists then |s.lists[w]| else 0)
  }

  /** `com_sys_sched_notify_thread`, also the expiry of a timed wait. */
  function NotifyThread(s: Sys, t: nat): Sys {
    if t in s.threads && s.threads[t].waitingOn.Some? then MakeReady(s, t) else s
  }

  /** A new thread of process `proc`, not started yet. */
  function Create(s: Sys, t: nat, proc: Option<nat>): Sys {
    s.(threads := s.threads[t := Thread(New, None, None, None, proc)], place := s.place[t := Nowhere])
  }

  /** A new process, with no thread running. */
  function CreateProc(s: Sys, p: nat): Sys { s.(running := s.running[p := 0]) }

  datatype Op =
    | YieldOp(cpu: nat)
    | WaitOp(cpu: nat, list: nat)
    | ExitOp(cpu: nat)
    | NotifyOp(list: nat)
    | NotifyNOp(list: nat, n: nat)
    | NotifyAllOp(list: nat)
    | NotifyThreadOp(t: nat)
    | ReadyOp(t: nat)
    | CreateOp(t: nat, proc: Option<nat>)
    | CreateProcOp(p: nat)

  /** Idle threads neither wait nor exit, only new threads are started, and wait lists exist. */
  ghost predicate Enabled(s: Sys, op: Op) {
    match op
    case YieldOp(c) => c < |s.current|
    case WaitOp(c, w) => HasCurrent(s, c) && !IsIdle(s, Curr(s, c)) && w in s.lists
    case ExitOp(c) => HasCurrent(s, c) && !IsIdle(s, Curr(s, c))
    case NotifyOp(w) => w in s.lists
    case NotifyNOp(w, _) => w in s.lists
    case NotifyAllOp(w) => w in s.lists
    case NotifyThreadOp(t) => t in s.threads
    case ReadyOp(t) => t in s.threads && s.threads[t].state == New
    case CreateOp(t, proc) => t !in s.threads && (proc.Some? ==> proc.value in s.running)
    case CreateProcOp(p) => p !in s.running
  }

  ghost function Step(s: Sys, op: Op): Sys {
    match op
    case YieldOp(c) => Yield(s, c)
    case WaitOp(c, w) => Wait(s, c, w)
    case ExitOp(c) => Exit(s, c)
    case NotifyOp(w) => Notify(s, w)
    case NotifyNOp(w, n) => NotifyN(s, w, n)
    case NotifyAllOp(w) => NotifyAll(s, w)
    case NotifyThreadOp(t) => NotifyThread(s, t)
    case ReadyOp(t) => MakeReady(s, t)
    case CreateOp(t, proc) => Create(s, t, proc)
    case CreateProcOp(p) => CreateProc(s, p)
  }

  // ------------------------------------------------------------------ every run keeps the invariant

  lemma CurrentPlace(s: Sys, c: nat)
    requires Inv(s) && c < |s.current|
    ensures s.current[c].Some? ==> HasCurrent(s, c) && s.place[Curr(s, c)] == OnCpu(c) && ThreadOk(s, Curr(s, c))
  {
    assert CpuOk(s, c);
  }

  /** The current thread of CPU `c` stops in any of the three ways. */
  lemma StopKeepsInv(s: Sys, c: nat, th: Thread, to: Place)
    requires Inv(s) && HasCurrent(s, c) && !to.OnCpu? && CanMove(s, Curr(s, c), th, to)
    ensures Inv(Move(s, Curr(s, c), th, to)) && Move(s, Curr(s, c), th, to).current[c] == None
    ensures Inv(Dispatch(Move(s, Curr(s, c), th, to), c))
  {
    CurrentPlace(s, c);
    MoveKeepsInv(s, Curr(s, c), th, to);
    MoveCpu(s, Curr(s, c), th, to, c);
    DispatchKeepsInv(Move(s, Curr(s, c), th, to), c);
  }

  lemma YieldKeepsInv(s: Sys, c: nat)
    requires Inv(s) && c < |s.current|
    ensures Inv(Yield(s, c))
  {
    CurrentPlace(s, c);
    if HasCurrent(s, c) && s.queues[c] != [] {
      var t := Curr(s, c);
      hide PlacedAt, CpuOk, CpusOf;
      StopKeepsInv(s, c, Stopped(s.threads[t], c, Ready, None), if t in s.idle then Nowhere else InQueue(c));
    }
  }

  lemma WaitKeepsInv(s: Sys, c: nat, w: nat)
    requires Inv(s) && Enabled(s, WaitOp(c, w))
    ensures Inv(Wait(s, c, w))
  {
    CurrentPlace(s, c);
    hide PlacedAt, CpuOk, CpusOf;
    StopKeepsInv(s, c, Stopped(s.threads[Curr(s, c)], c, Waiting, Some(w)), InList(w));
  }

  lemma ExitKeepsInv(s: Sys, c: nat)
    requires Inv(s) && Enabled(s, ExitOp(c))
    ensures Inv(Exit(s, c))
  {
    CurrentPlace(s, c);
    hide PlacedAt, CpuOk, CpusOf;
    StopKeepsInv(s, c, Stopped(s.threads[Curr(s, c)], c, Exited, None), Nowhere);
  }

  lemma TurnKeepsInv(s: Sys, turn: nat)
    requires Inv(s) && turn < |s.queues|
    ensures Inv(s.(turn := turn))
  {
    var s' := s.(turn := turn);
    forall t | t in s'.threads ensures ThreadOk(s', t) { assert ThreadOk(s, t); }
    forall c: nat | c < |s'.queues| ensures PlacedAt(s', s'.queues[c], InQueue(c)) {
      assert PlacedAt(s, s.queues[c], InQueue(c));
    }
    forall w | w in s'.lists ensures PlacedAt(s', s'.lists[w], InList(w)) { assert PlacedAt(s, s.lists[w], InList(w)); }
    forall c: nat | c < |s'.current| ensures CpuOk(s', c) { assert CpuOk(s, c); }
    forall p | p in s'.running ensures s'.running[p] == |CpusOf(s', p)| {
      assert CpusOf(s', p) == CpusOf(s, p) by {
        forall c: nat | c < |s.current| ensures Runs(s', c, p) == Runs(s, c, p) {}
      }
    }
  }

  lemma ReadyKeepsInv(s: Sys, t: nat)
    requires Inv(s) && t in s.threads && (s.threads[t].state == New || s.threads[t].state == Waiting)
    ensures Inv(MakeReady(s, t))
  {
    assert ThreadOk(s, t);
    hide PlacedAt, CpuOk, CpusOf;
    var th := s.threads[t].(state := Ready, waitingOn := None);
    MoveKeepsInv(s, t, th, InQueue(ReadyCpu(s, t)));
    TurnKeepsInv(Move(s, t, th, InQueue(ReadyCpu(s, t))), NextTurn(s, t));
  }

  lemma SleeperWaits(s: Sys, w: nat, t: nat)
    requires Inv(s) && w in s.lists && t in s.lists[w]
    ensures t in s.threads && t in s.place && s.place[t] == InList(w) && s.threads[t].state == Waiting
    ensures s.threads[t].cpu == None
  {
    assert PlacedAt(s, s.lists[w], InList(w));
    assert ThreadOk(s, t);
  }

  lemma {:induction false} NotifyNKeepsInv(s: Sys, w: nat, n: nat)
    requires Inv(s)
    ensures Inv(NotifyN(s, w, n))
  {
    if n > 0 {
      NotifyNKeepsInv(s, w, n - 1);
      var m := NotifyN(s, w, n - 1);
      if w in m.lists && m.lists[w] != [] {
        SleeperWaits(m, w, m.lists[w][0]);
        ReadyKeepsInv(m, m.lists[w][0]);
      }
    }
  }

  lemma CreateKeepsInv(s: Sys, t: nat, proc: Option<nat>)
    requires Inv(s) && Enabled(s, CreateOp(t, proc))
    ensures Inv(Create(s, t, proc))
  {
    var s' := Create(s, t, proc);
    forall u | u in s'.threads ensures ThreadOk(s', u) { if u != t { assert ThreadOk(s, u); } }
    forall c: nat | c < |s'.queues| ensures PlacedAt(s', s'.queues[c], InQueue(c)) {
      assert PlacedAt(s, s.queues[c], InQueue(c));
    }
    forall w | w in s'.lists ensures PlacedAt(s', s'.lists[w], InList(w)) { assert PlacedAt(s, s.lists[w], InList(w)); }
    forall c: nat | c < |s'.current| ensures CpuOk(s', c) { assert CpuOk(s, c); }
    forall p | p in s'.running ensures s'.running[p] == |CpusOf(s', p)| {
      forall c: nat | c < |s.current| ensures Runs(s', c, p) == Runs(s, c, p) { assert CpuOk(s, c); }
      assert CpusOf(s', p) == CpusOf(s, p);
    }
  }

  lemma CreateProcKeepsInv(s: Sys, q: nat)
    requires Inv(s) && q !in s.running
    ensures Inv(CreateProc(s, q))
  {
    var s' := CreateProc(s, q);
    forall u | u in s'.threads ensures ThreadOk(s', u) { assert ThreadOk(s, u); }
    forall c: nat | c < |s'.queues| ensures PlacedAt(s', s'.queues[c], InQueue(c)) {
      assert PlacedAt(s, s.queues[c], InQueue(c));
    }
    forall w | w in s'.lists ensures PlacedAt(s', s'.lists[w], InList(w)) { assert PlacedAt(s, s.lists[w], InList(w)); }
    forall c: nat | c < |s'.current| ensures CpuOk(s', c) { assert CpuOk(s, c); }
    forall p | p in s'.running ensures s'.running[p] == |CpusOf(s', p)| {
      forall c: nat | c < |s.current| ensures Runs(s', c, p) == Runs(s, c, p) && (p == q ==> !Runs(s, c, p)) {
        assert CpuOk(s, c);
        assert s.current[c].Some? ==> ThreadOk(s, s.current[c].value);
      }
      assert CpusOf(s', p) == if p == q then {} else CpusOf(s, p);
    }
  }

  lemma StepKeepsInv(s: Sys, op: Op)
    requires Inv(s) && Enabled(s, op)
    ensures Inv(Step(s, op))
  {
    hide Inv, Yield, Wait, Exit, MakeReady, Create, CreateProc;
    match op
    case YieldOp(c) => YieldKeepsInv(s, c);
    case WaitOp(c, w) => WaitKeepsInv(s, c, w);
    case ExitOp(c) => ExitKeepsInv(s, c);
    case NotifyOp(w) => NotifyNKeepsInv(s, w, 1); assert NotifyN(s, w, 1) == Notify(NotifyN(s, w, 0), w);
    case NotifyNOp(w, n) => NotifyNKeepsInv(s, w, n);
    case NotifyAllOp(w) => NotifyNKeepsInv(s, w, |s.lists[w]|);
    case NotifyThreadOp(t) => if s.threads[t].waitingOn.Some? { WaitingState(s, t); ReadyKeepsInv(s, t); }
    case ReadyOp(t) => ReadyKeepsInv(s, t);
    case CreateOp(t, proc) => CreateKeepsInv(s, t, proc);
    case CreateProcOp(p) => CreateProcKeepsInv(s, p);
  }

  lemma WaitingState(s: Sys, t: nat)
    requires Inv(s) && t in s.threads && s.threads[t].waitingOn.Some?
    ensures s.threads[t].state == Waiting && s.threads[t].cpu == None && t in s.place
    ensures s.place[t] == InList(s.threads[t].waitingOn.value)
    ensures s.threads[t].waitingOn.value in s.lists && t in s.lists[s.threads[t].waitingOn.value]
  {
    assert ThreadOk(s, t);
  }

  ghost predicate IsRun(s: Sys, ops: seq<Op>)
    decreases |ops|
  {
    ops == [] || (Enabled(s, ops[0]) && IsRun(Step(s, ops[0]), ops[1..]))
  }

  ghost function RunTo(s: Sys, ops: seq<Op>): Sys
    decreases |ops|
  {
    if ops == [] then s else RunTo(Step(s, ops[0]), ops[1..])
  }

  /** A run grows by a step that is enabled where it ends. */
  lemma {:induction false} RunMore(s: Sys, ops: seq<Op>, op: Op)
    ensures IsRun(s, ops + [op]) <==> IsRun(s, ops) && Enabled(RunTo(s, ops), op)
    ensures IsRun(s, ops + [op]) ==> RunTo(s, ops + [op]) == Step(RunTo(s, ops), op)
    decreases |ops|
  {
    hide Enabled, Step;
    if ops == [] {
      assert ops + [op] == [op] && [op][1..] == [];
    } else {
      assert (ops + [op])[1..] == ops[1..] + [op];
      if Enabled(s, ops[0]) { RunMore(Step(s, ops[0]), ops[1..], op); }
    }
  }

  lemma {:induction false} RunKeepsInv(s: Sys, ops: seq<Op>)
    requires Inv(s) && IsRun(s, ops)
    ensures Inv(RunTo(s, ops))
    decreases |ops|
  {
    hide Inv, Step, Enabled;
    if ops != [] {
      StepKeepsInv(s, ops[0]);
      RunKeepsInv(Step(s, ops[0]), ops[1..]);
    }
  }

  /** The state the scheduler starts in: thread 0, of process 0, runs on CPU 0, and every other CPU `c`
      runs its idle thread `c + 1`; idle thread 1 of CPU 0 is ready. */
  function Boot(cpus: nat, lists: set<nat>): Sys
    requires cpus > 0
  {
    Sys(map t: nat | t <= cpus && Booted(t, cpus) :: BootThread(t),
        seq(cpus, _ => []), seq(cpus, c requires c >= 0 => Some(if c == 0 then 0 else c + 1)), map w | w in lists :: [],
        map[0 := 1], seq(cpus, c requires c >= 0 => c + 1), 0,
        map t: nat | t <= cpus && Booted(t, cpus) :: BootPlace(t))
  }

  predicate Booted(t: nat, cpus: nat) { t <= cpus }

  function BootThread(t: nat): Thread {
    if t == 0 then Thread(Running, None, Some(0), None, Some(0))
    else Thread(if t == 1 then Ready else Running, None, Some(t - 1), None, None)
  }

  function BootPlace(t: nat): Place { if t == 0 then OnCpu(0) else if t == 1 then Nowhere else OnCpu(t - 1) }

  lemma BootInv(cpus: nat, lists: set<nat>)
    requires cpus > 0
    ensures Inv(Boot(cpus, lists))
  {
    var s := Boot(cpus, lists);
    forall t | t in s.threads ensures ThreadOk(s, t) {
      assert t >= 1 ==> s.idle[t - 1] == t;
    }
    assert CpusOf(s, 0) == {0};
  }

  /** Over every run from the start: each started, non-exited, non-idle thread is in exactly one place,
      and each process's count is the number of CPUs running one of its threads. */
  lemma EveryRun(cpus: nat, lists: set<nat>, ops: seq<Op>, t: nat, p: nat)
    requires cpus > 0 && IsRun(Boot(cpus, lists), ops)
    ensures var s := RunTo(Boot(cpus, lists), ops);
            t in s.threads && t !in s.idle && s.threads[t].state != New && s.threads[t].state != Exited ==>
            exists p :: p != Nowhere && Sits(s, t, p) && forall q :: q != Nowhere && Sits(s, t, q) ==> q == p
    ensures var s := RunTo(Boot(cpus, lists), ops);
            p in s.running ==> s.running[p] == |CpusOf(s, p)|
  {
    hide Boot, IsRun, RunTo;
    BootInv(cpus, lists);
    RunKeepsInv(Boot(cpus, lists), ops);
    var s := RunTo(Boot(cpus, lists), ops);
    if t in s.threads && t !in s.idle && s.threads[t].state != New && s.threads[t].state != Exited {
      ExactlyOnePlace(s, t);
    }
  }

  // ------------------------------------------------------------------ round robin

  /** Whether `op` switches away from the thread running on CPU `c`. */
  predicate SwitchesOn(op: Op, c: nat) { (op.YieldOp? || op.WaitOp? || op.ExitOp?) && op.cpu == c }

  function SwitchCount(ops: seq<Op>, c: nat): nat {
    if ops == [] then 0 else (if SwitchesOn(ops[0], c) then 1 else 0) + SwitchCount(ops[1..], c)
  }

  /** `q` only gains threads at its tail. */
  predicate Extends(q: seq<nat>, q': seq<nat>) { |q| <= |q'| && q'[..|q|] == q }

  /** A move that does not take from queue `c` leaves its threads where they are. */
  lemma MoveExtends(s: Sys, t: nat, th: Thread, to: Place, c: nat)
    requires Inv(s) && CanMove(s, t, th, to) && c < |s.queues| && s.place[t] != InQueue(c)
    ensures Extends(s.queues[c], Move(s, t, th, to).queues[c])
  {
  }

  /** Dispatching CPU `d` takes the head of queue `d` and touches no other. */
  lemma DispatchQueue(s: Sys, d: nat, c: nat)
    requires Inv(s) && d < |s.current| && s.current[d] == None && c < |s.queues|
    ensures |Dispatch(s, d).queues| == |s.queues|
    ensures Dispatch(s, d).queues[c] == if c == d && s.queues[c] != [] then s.queues[c][1..] else s.queues[c]
  {
    DispatchKeepsInv(s, d);
  }

  /** The current thread of CPU `d` stops and `d` is dispatched. */
  lemma StopQueue(s: Sys, d: nat, th: Thread, to: Place, c: nat)
    requires Inv(s) && HasCurrent(s, d) && !to.OnCpu? && CanMove(s, Curr(s, d), th, to) && c < |s.queues|
    ensures var q, s' := s.queues[c], Dispatch(Move(s, Curr(s, d), th, to), d);
            |s'.queues| == |s.queues| && (c != d || q == [] ==> Extends(q, s'.queues[c]))
    ensures var q, s' := s.queues[d], Dispatch(Move(s, Curr(s, d), th, to), d);
            q != [] ==> |s'.queues| == |s.queues| && Extends(q[1..], s'.queues[d]) && s'.current[d] == Some(q[0])
  {
    var m := Move(s, Curr(s, d), th, to);
    CurrentPlace(s, d);
    StopKeepsInv(s, d, th, to);
    MoveExtends(s, Curr(s, d), th, to, c);
    MoveExtends(s, Curr(s, d), th, to, d);
    DispatchQueue(m, d, c);
    DispatchQueue(m, d, d);
    DispatchKeepsInv(m, d);
  }

  lemma ReadyExtends(s: Sys, t: nat, c: nat)
    requires Inv(s) && t in s.threads && (s.threads[t].state == New || s.threads[t].state == Waiting) && c < |s.queues|
    ensures |MakeReady(s, t).queues| == |s.queues| && Extends(s.queues[c], MakeReady(s, t).queues[c])
    ensures MakeReady(s, t).current == s.current
  {
    assert ThreadOk(s, t);
  }

  lemma {:induction false} NotifyNExtends(s: Sys, w: nat, n: nat, c: nat)
    requires Inv(s) && c < |s.queues|
    ensures |NotifyN(s, w, n).queues| == |s.queues| && Extends(s.queues[c], NotifyN(s, w, n).queues[c])
    ensures NotifyN(s, w, n).current == s.current
  {
    if n > 0 {
      NotifyNExtends(s, w, n - 1, c);
      NotifyNKeepsInv(s, w, n - 1);
      var m := NotifyN(s, w, n - 1);
      if w in m.lists && m.lists[w] != [] {
        SleeperWaits(m, w, m.lists[w][0]);
        ReadyExtends(m, m.lists[w][0], c);
      }
    }
  }

  /** One step, seen from the queue of CPU `c`: a switch on `c` runs its head, anything else only
      appends to it. */
  lemma StepQueue(s: Sys, op: Op, c: nat)
    requires Inv(s) && Enabled(s, op) && c < |s.queues| && s.current[c].Some?
    ensures var q, s' := s.queues[c], Step(s, op);
            |s'.queues| == |s.queues| && |s'.current| == |s.current| && s'.current[c].Some?
            && (!SwitchesOn(op, c) ==> Extends(q, s'.queues[c]) && s'.current[c] == s.current[c])
            && (SwitchesOn(op, c) && q != [] ==> Extends(q[1..], s'.queues[c]) && s'.current[c] == Some(q[0]))
  {
    match op {
      case YieldOp(d) => YieldQueue(s, d, c);
      case WaitOp(d, w) => StopOp(s, d, Stopped(s.threads[Curr(s, d)], d, Waiting, Some(w)), InList(w), c);
      case ExitOp(d) => StopOp(s, d, Stopped(s.threads[Curr(s, d)], d, Exited, None), Nowhere, c);
      case NotifyOp(w) => NotifyNExtends(s, w, 1, c); assert NotifyN(s, w, 1) == Notify(NotifyN(s, w, 0), w);
      case NotifyNOp(w, n) => NotifyNExtends(s, w, n, c);
      case NotifyAllOp(w) => NotifyNExtends(s, w, |s.lists[w]|, c);
      case NotifyThreadOp(t) => if s.threads[t].waitingOn.Some? { WaitingState(s, t); ReadyExtends(s, t, c); }
      case ReadyOp(t) => ReadyExtends(s, t, c);
      case CreateOp(_, _) =>
      case CreateProcOp(_) =>
    }
  }

  lemma StopOp(s: Sys, d: nat, th: Thread, to: Place, c: nat)
    requires Inv(s) && HasCurrent(s, d) && !to.OnCpu? && c < |s.queues| && s.current[c].Some?
    requires d < |s.current| && to.InQueue? ==> to.cpu < |s.queues|
    requires to.InList? ==> to.list in s.lists
    requires th.proc == s.threads[Curr(s, d)].proc && th.lastCpu == Some(d) && Fits(s, Curr(s, d), th, to)
    ensures var q, s' := s.queues[c], Dispatch(Move(s, Curr(s, d), th, to), d);
            |s'.queues| == |s.queues| && |s'.current| == |s.current| && s'.current[c].Some?
            && (c != d ==> Extends(q, s'.queues[c]) && s'.current[c] == s.current[c])
            && (c == d && q != [] ==> Extends(q[1..], s'.queues[c]) && s'.current[c] == Some(q[0]))
  {
    StopKeepsInv(s, d, th, to);
    StopQueue(s, d, th, to, c);
    CurrentPlace(s, d);
    var m := Move(s, Curr(s, d), th, to);
    MoveCpu(s, Curr(s, d), th, to, c);
    DispatchKeepsInv(m, d);
    var n := NextOn(m, d);
    MoveCpu(m, n, m.threads[n].(state := Running, cpu := Some(d)), OnCpu(d), c);
  }

  lemma YieldQueue(s: Sys, d: nat, c: nat)
    requires Inv(s) && d < |s.current| && c < |s.queues| && s.current[c].Some?
    ensures var q, s' := s.queues[c], Yield(s, d);
            |s'.queues| == |s.queues| && |s'.current| == |s.current| && s'.current[c].Some?
            && (c != d ==> Extends(q, s'.queues[c]) && s'.current[c] == s.current[c])
            && (c == d && q != [] ==> Extends(q[1..], s'.queues[c]) && s'.current[c] == Some(q[0]))
  {
    CurrentPlace(s, d);
    if HasCurrent(s, d) && s.queues[d] != [] {
      var t := Curr(s, d);
      StopOp(s, d, Stopped(s.threads[t], d, Ready, None), if t in s.idle then Nowhere else InQueue(d), c);
    }
  }

  /** Thread `t`, at position `k` of the queue of CPU `c` to begin with, `y` switches on `c` later:
      still queued, `y` positions further up, or just started if the last of k+1 switches is the
      last step made. */
  ghost predicate Due(s: Sys, c: nat, t: nat, k: nat, y: nat, last: bool) {
    && c < |s.queues| == |s.current|
    && (y <= k ==> k - y < |s.queues[c]| && s.queues[c][k - y] == t)
    && (y == k + 1 && last ==> s.current[c] == Some(t))
  }

  predicate EndsOn(ops: seq<Op>, c: nat) { ops != [] && SwitchesOn(ops[|ops| - 1], c) }

  /** Round robin: in every run a thread at position `k` of the queue of CPU `c` moves up one position
      at each switch on `c` and is the thread the (k+1)-th of them starts. */
  lemma {:induction false} RoundRobin(s: Sys, ops: seq<Op>, c: nat, k: nat)
    requires Inv(s) && IsRun(s, ops) && c < |s.queues| == |s.current| && s.current[c].Some? && k < |s.queues[c]|
    ensures Due(RunTo(s, ops), c, s.queues[c][k], k, SwitchCount(ops, c), EndsOn(ops, c))
    decreases |ops|
  {
    hide Inv, Enabled, Step, Extends, IsRun, RunTo, SwitchCount, Due, EndsOn, SwitchesOn;
    if ops == [] {
      DueStart(s, c, k);
    } else {
      RunFirst(s, ops, c);
      EndsRest(ops, c);
      var m, rest, q := Step(s, ops[0]), ops[1..], s.queues[c];
      StepKeepsInv(s, ops[0]);
      StepQueue(s, ops[0], c);
      if !SwitchesOn(ops[0], c) {
        ExtendsAt(q, m.queues[c], k);
        RoundRobin(m, rest, c, k);
      } else if k > 0 {
        ExtendsAt(q[1..], m.queues[c], k - 1);
        RoundRobin(m, rest, c, k - 1);
        DueShift(RunTo(m, rest), c, q[k], k, SwitchCount(rest, c), EndsOn(rest, c), EndsOn(ops, c), rest == []);
      } else {
        RestNone(m, rest, c);
        DueNow(RunTo(m, rest), c, q[0], SwitchCount(ops, c), EndsOn(ops, c));
      }
    }
  }

  lemma DueStart(s: Sys, c: nat, k: nat)
    requires c < |s.queues| == |s.current| && k < |s.queues[c]|
    ensures Due(RunTo(s, []), c, s.queues[c][k], k, SwitchCount([], c), EndsOn([], c))
  {}

  lemma EndsRest(ops: seq<Op>, c: nat)
    requires ops != []
    ensures ops[1..] != [] ==> EndsOn(ops, c) == EndsOn(ops[1..], c)
    ensures ops[1..] == [] ==> EndsOn(ops, c) == SwitchesOn(ops[0], c) && !EndsOn(ops[1..], c)
  {}

  lemma DueShift(s: Sys, c: nat, t: nat, k: nat, y: nat, last: bool, now: bool, none: bool)
    requires k > 0 && Due(s, c, t, k - 1, y, last) && (if none then y == 0 else last == now)
    ensures Due(s, c, t, k, y + 1, now)
  {}

  lemma DueNow(s: Sys, c: nat, t: nat, y: nat, now: bool)
    requires c < |s.queues| == |s.current| && y > 0 && (y == 1 && now ==> s.current[c] == Some(t))
    ensures Due(s, c, t, 0, y, now)
  {}

  lemma RunFirst(s: Sys, ops: seq<Op>, c: nat)
    requires ops != [] && IsRun(s, ops)
    ensures Enabled(s, ops[0]) && IsRun(Step(s, ops[0]), ops[1..])
    ensures RunTo(s, ops) == RunTo(Step(s, ops[0]), ops[1..])
    ensures SwitchCount(ops, c) == (if SwitchesOn(ops[0], c) then 1 else 0) + SwitchCount(ops[1..], c)
    ensures |ops| == 1 ==> RunTo(s, ops) == Step(s, ops[0]) && SwitchCount(ops[1..], c) == 0
  {
    hide Enabled, Step, SwitchesOn;
  }

  lemma ExtendsAt(q: seq<nat>, q': seq<nat>, k: nat)
    requires Extends(q, q') && k < |q|
    ensures k < |q'| && q'[k] == q[k]
  {
    assert q'[..|q|][k] == q[k];
  }

  /** A run that ends in a switch on `c` has one. */
  lemma {:induction false} RestNone(s: Sys, ops: seq<Op>, c: nat)
    requires Inv(s) && IsRun(s, ops) && c < |s.queues| && s.current[c].Some?
    ensures c < |RunTo(s, ops).queues| == |RunTo(s, ops).current|
    ensures EndsOn(ops, c) ==> SwitchCount(ops, c) > 0
    decreases |ops|
  {
    if ops != [] {
      RunFirst(s, ops, c);
      EndsRest(ops, c);
      hide Inv, Enabled, Step, Extends, IsRun, RunTo, SwitchCount, EndsOn, SwitchesOn;
      StepKeepsInv(s, ops[0]);
      StepQueue(s, ops[0], c);
      RestNone(Step(s, ops[0]), ops[1..], c);
    }
  }
}
