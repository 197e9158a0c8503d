/** What each scheduler call does to threads, queues and wait lists (`src/com/sys/sched.c`,
    `src/com/sys/thread.c`), stated on the states before and after alone. */
module SchedulerLaws {
  import opened Options
  import opened Queues
  import opened Scheduler
  import opened Handover

  ghost function Members(q: seq<nat>): set<nat> { set t | t in q }

  /** No thread but those of `ts` has changed its fields or its place. */
  ghost predicate OthersStay(s: Sys, s': Sys, ts: set<nat>) {
    && s'.threads.Keys == s.threads.Keys && s'.place.Keys == s.place.Keys
    && (forall u :: u in s.threads && u !in ts ==> s'.threads[u] == s.threads[u])
    && (forall u :: u in s.place && u !in ts ==> s'.place[u] == s.place[u])
  }

  // ------------------------------------------------------------------ waking

  /** Thread `t` is ready and last in the run queue of the CPU it last ran on, or else of the CPU whose turn
      it is, and then the turn goes round to the next CPU; nothing else about it has changed. */
  ghost predicate Readied(s: Sys, t: nat, s': Sys) {
    && t in s.threads && t in s'.threads && t in s'.place && s.turn < |s.queues| == |s'.queues|
    && s'.threads[t].state == Ready && s'.threads[t].waitingOn == None
    && s'.threads[t].lastCpu == s.threads[t].lastCpu && s'.threads[t].proc == s.threads[t].proc
    && s'.threads[t].cpu == s.threads[t].cpu
    && (match s.threads[t].lastCpu
        case Some(c) => c < |s.queues| && s'.queues == s.queues[c := s.queues[c] + [t]] && s'.turn == s.turn
                        && s'.place[t] == InQueue(c)
        case None => s'.queues == s.queues[s.turn := s.queues[s.turn] + [t]] && s'.place[t] == InQueue(s.turn)
                     && s'.turn == if s.turn + 1 < |s.queues| then s.turn + 1 else 0)
    && s'.current == s.current && s'.running == s.running && s'.idle == s.idle
  }

  lemma MakeReadyLaw(s: Sys, t: nat)
    requires Inv(s) && t in s.threads && (s.threads[t].state == New || s.threads[t].state == Waiting)
    ensures Readied(s, t, MakeReady(s, t)) && OthersStay(s, MakeReady(s, t), {t})
  {
    hide MakeReady;
    ReadyFields(s, t);
    Turns(s.turn, |s.queues|);
    assert ThreadOk(s, t);
  }

  lemma Turns(turn: nat, n: nat)
    requires turn < n
    ensures (turn + 1) % n == if turn + 1 < n then turn + 1 else 0
  {}

  lemma ReadyLists(s: Sys, t: nat)
    requires Inv(s) && t in s.threads && (s.threads[t].state == New || s.threads[t].state == Waiting)
    ensures match s.threads[t].waitingOn
      case Some(w) => w in s.lists && TakenOut(s.lists[w], t, Remove(s.lists[w], t))
                      && MakeReady(s, t).lists == s.lists[w := Remove(s.lists[w], t)]
      case None => MakeReady(s, t).lists == s.lists
    ensures forall w :: w in s.lists && t in s.lists[w] ==> s.threads[t].waitingOn == Some(w)
  {
    hide MakeReady;
    ReadyFields(s, t);
    assert ThreadOk(s, t);
    forall w | w in s.lists && t in s.lists[w] ensures s.place[t] == InList(w) {
      assert PlacedAt(s, s.lists[w], InList(w));
    }
    if s.threads[t].waitingOn.Some? {
      var w := s.threads[t].waitingOn.value;
      WaitingState(s, t);
      assert PlacedAt(s, s.lists[w], InList(w));
      RemoveTakesOut(s.lists[w], t);
    }
  }

  /** `com_sys_thread_ready` of a new thread: it is queued and no wait list changes. */
  lemma StartLaw(s: Sys, t: nat)
    requires Inv(s) && Enabled(s, ReadyOp(t))
    ensures var s' := Step(s, ReadyOp(t)); Readied(s, t, s') && OthersStay(s, s', {t}) && s'.lists == s.lists
  {
    MakeReadyLaw(s, t);
    ReadyLists(s, t);
    assert ThreadOk(s, t);
  }

  /** `com_sys_sched_notify_thread`, also at the expiry of a timed wait: a sleeper leaves its list, in which
      the others keep their order, is in no list any more and is queued; a thread that does not sleep is left
      alone, and so is everything else. */
  lemma NotifyThreadLaw(s: Sys, t: nat)
    requires Inv(s) && t in s.threads
    ensures var s' := Step(s, NotifyThreadOp(t));
      match s.threads[t].waitingOn
      case None => s' == s
      case Some(w) =>
        && Readied(s, t, s') && OthersStay(s, s', {t})
        && w in s.lists && w in s'.lists && TakenOut(s.lists[w], t, s'.lists[w])
        && s'.lists == s.lists[w := s'.lists[w]]
        && forall u :: u in s'.lists ==> t !in s'.lists[u]
  {
    hide MakeReady, Inv;
    if s.threads[t].waitingOn.Some? {
      WaitingState(s, t);
      MakeReadyLaw(s, t);
      ReadyLists(s, t);
    }
  }

  /** `com_sys_sched_notify`: the longest sleeper, if there is one, leaves the list and is queued. */
  lemma NotifyLaw(s: Sys, w: nat)
    requires Inv(s) && w in s.lists
    ensures var s' := Step(s, NotifyOp(w));
      if s.lists[w] == [] then s' == s
      else
        var t := s.lists[w][0];
        Readied(s, t, s') && OthersStay(s, s', {t}) && s'.lists == s.lists[w := s.lists[w][1..]]
  {
    hide MakeReady, Inv;
    if s.lists[w] != [] {
      var t := s.lists[w][0];
      SleeperWaits(s, w, t);
      MakeReadyLaw(s, t);
      ReadyLists(s, t);
      HeadRemoved(s.lists[w]);
    }
  }

  lemma HeadRemoved(q: seq<nat>)
    requires q != []
    ensures Remove(q, q[0]) == q[1..]
  {}

  function Smaller(a: nat, b: nat): nat { if a < b then a else b }

  /** The threads of `ts` at place `p`, in order. */
  ghost function At(place: map<nat, Place>, ts: seq<nat>, p: Place): seq<nat> {
    if ts == [] then []
    else
      var init, t := ts[..|ts| - 1], ts[|ts| - 1];
      At(place, init, p) + if t in place && place[t] == p then [t] else []
  }

  /** After some notifications: the first `k` sleepers have left the list, are ready, and stand in the run
      queues behind those that were there, in the order they slept; nobody else has changed. */
  ghost predicate Woken(s: Sys, w: nat, k: nat, s': Sys) {
    && w in s.lists && k <= |s.lists[w]| && s'.lists == s.lists[w := s.lists[w][k..]]
    && |s'.queues| == |s.queues|
    && (forall c: nat :: c < |s.queues| ==> s'.queues[c] == s.queues[c] + At(s'.place, s.lists[w][..k], InQueue(c)))
    && (forall i :: 0 <= i < k ==> ReadyAt(s, s.lists[w][i], s'))
    && OthersStay(s, s', Members(s.lists[w][..k]))
    && s'.current == s.current && s'.running == s.running && s'.idle == s.idle
  }

  /** Thread `t` is ready in the queue of some CPU, that of its last one if it has run. */
  ghost predicate ReadyAt(s: Sys, t: nat, s': Sys) {
    && t in s.threads && t in s'.threads && t in s'.place
    && s'.threads[t].state == Ready && s'.threads[t].waitingOn == None
    && s'.threads[t].lastCpu == s.threads[t].lastCpu && s'.place[t].InQueue?
    && (s.threads[t].lastCpu.Some? ==> s'.place[t] == InQueue(s.threads[t].lastCpu.value))
  }

  lemma {:induction false} AtSame(place: map<nat, Place>, place': map<nat, Place>, ts: seq<nat>, p: Place)
    requires forall i :: 0 <= i < |ts| ==> ts[i] in place && ts[i] in place' && place'[ts[i]] == place[ts[i]]
    ensures At(place', ts, p) == At(place, ts, p)
  {
    if ts != [] { AtSame(place, place', ts[..|ts| - 1], p); }
  }

  lemma WokenNone(s: Sys, w: nat)
    requires w in s.lists
    ensures Woken(s, w, 0, s)
  {
    assert s.lists[w][..0] == [] && s.lists[w][0..] == s.lists[w];
    assert s.lists[w := s.lists[w]] == s.lists;
  }

  /** The sleepers are different threads, all known. */
  lemma Sleepers(s: Sys, w: nat)
    requires Inv(s) && w in s.lists
    ensures NoDup(s.lists[w]) && forall i :: 0 <= i < |s.lists[w]| ==> s.lists[w][i] in s.threads
  {
    assert PlacedAt(s, s.lists[w], InList(w));
    forall i | 0 <= i < |s.lists[w]| ensures s.lists[w][i] in s.threads { SleeperWaits(s, w, s.lists[w][i]); }
  }

  lemma ReadyStays(s: Sys, m: Sys, s': Sys, u: nat, t: nat)
    requires ReadyAt(s, u, m) && OthersStay(m, s', {t}) && u != t
    ensures ReadyAt(s, u, s')
  {}

  lemma ReadyNow(s: Sys, m: Sys, s': Sys, t: nat)
    requires t in s.threads && t in m.threads && m.threads[t] == s.threads[t] && Readied(m, t, s')
    ensures ReadyAt(s, t, s')
  {}

  /** The queues after one more thread `t` has been made ready behind `ts`. */
  lemma QueuesMore(s: Sys, m: Sys, s': Sys, ts: seq<nat>, t: nat, c: nat)
    requires c < |s.queues| == |m.queues| && m.queues[c] == s.queues[c] + At(m.place, ts, InQueue(c))
    requires Readied(m, t, s') && OthersStay(m, s', {t}) && forall i :: 0 <= i < |ts| ==> ts[i] != t && ts[i] in m.place
    ensures c < |s'.queues| && s'.queues[c] == s.queues[c] + At(s'.place, ts + [t], InQueue(c))
  {
    hide At;
    AtSame(m.place, s'.place, ts, InQueue(c));
    AtMore(s'.place, ts, t, InQueue(c));
    ReadiedQueue(m, t, s', c);
    hide Readied, OthersStay;
    var q, a := s.queues[c], At(m.place, ts, InQueue(c));
    assert q + a + [t] == q + (a + [t]) && q + a == q + (a + []);
  }

  lemma AtMore(place: map<nat, Place>, ts: seq<nat>, t: nat, p: Place)
    ensures At(place, ts + [t], p) == At(place, ts, p) + if t in place && place[t] == p then [t] else []
  {
    assert (ts + [t])[..|ts|] == ts;
  }

  lemma ReadiedQueue(m: Sys, t: nat, s': Sys, c: nat)
    requires Readied(m, t, s') && c < |m.queues|
    ensures c < |s'.queues| && t in s'.place
    ensures s'.queues[c] == if s'.place[t] == InQueue(c) then m.queues[c] + [t] else m.queues[c]
  {}

  lemma OthersMore(s: Sys, m: Sys, s': Sys, a: set<nat>, t: nat)
    requires OthersStay(s, m, a) && OthersStay(m, s', {t})
    ensures OthersStay(s, s', a + {t})
  {}

  lemma WokenSet(q: seq<nat>, k: nat)
    requires k < |q|
    ensures Members(q[..k + 1]) == Members(q[..k]) + {q[k]}
  {
    assert q[..k + 1] == q[..k] + [q[k]];
  }

  /** One more. */
  lemma WokenMore(s: Sys, w: nat, k: nat, m: Sys, s': Sys)
    requires Inv(s) && Woken(s, w, k, m) && k < |s.lists[w]|
    requires var t := s.lists[w][k];
             Readied(m, t, s') && OthersStay(m, s', {t}) && s'.lists == m.lists[w := m.lists[w][1..]]
    ensures Woken(s, w, k + 1, s')
  {
    hide Inv, At, Readied, ReadyAt, OthersStay;
    var q := s.lists[w];
    var t, ts := q[k], q[..k];
    Sleepers(s, w);
    assert q[..k + 1] == ts + [t] && q[k..][1..] == q[k + 1..];
    assert s'.lists == s.lists[w := q[k + 1..]];
    WokenSet(q, k);
    OthersMore(s, m, s', Members(ts), t);
    forall i | 0 <= i < k ensures ts[i] != t && ts[i] in m.place && ReadyAt(s, q[i], s') {
      assert q[i] != q[k];
      ReadyPlaced(s, q[i], m);
      ReadyStays(s, m, s', q[i], t);
    }
    SleeperKept(s, m, ts, t);
    ReadyNow(s, m, s', t);
    ReadiedSame(m, t, s');
    forall c: nat | c < |s.queues| ensures s'.queues[c] == s.queues[c] + At(s'.place, q[..k + 1], InQueue(c)) {
      QueuesMore(s, m, s', ts, t, c);
    }
  }

  lemma ReadyPlaced(s: Sys, t: nat, s': Sys)
    requires ReadyAt(s, t, s')
    ensures t in s'.place
  {}

  lemma ReadiedSame(m: Sys, t: nat, s': Sys)
    requires Readied(m, t, s')
    ensures |s'.queues| == |m.queues| && s'.current == m.current && s'.running == m.running && s'.idle == m.idle
  {}

  lemma SleeperKept(s: Sys, m: Sys, ts: seq<nat>, t: nat)
    requires OthersStay(s, m, Members(ts)) && t !in ts && t in s.threads
    ensures t in m.threads && m.threads[t] == s.threads[t]
  {}

  lemma {:induction false} NotifyNWakes(s: Sys, w: nat, n: nat)
    requires Inv(s) && w in s.lists
    ensures Woken(s, w, Smaller(n, |s.lists[w]|), NotifyN(s, w, n))
    decreases n
  {
    hide Inv, Woken, Notify, OthersStay, Readied;
    if n == 0 {
      WokenNone(s, w);
    } else {
      var m, k := NotifyN(s, w, n - 1), Smaller(n - 1, |s.lists[w]|);
      NotifyNWakes(s, w, n - 1);
      NotifyNKeepsInv(s, w, n - 1);
      WokenList(s, w, k, m);
      NotifyLaw(m, w);
      if k < |s.lists[w]| {
        WokenMore(s, w, k, m, Notify(m, w));
      }
    }
  }

  lemma WokenList(s: Sys, w: nat, k: nat, m: Sys)
    requires Woken(s, w, k, m)
    ensures w in m.lists && m.lists[w] == s.lists[w][k..]
    ensures k < |s.lists[w]| ==> m.lists[w] != [] && m.lists[w][0] == s.lists[w][k]
  {}

  /** `com_sys_sched_notify_n` wakes the first `n` sleepers, or all if there are fewer. */
  lemma NotifyNLaw(s: Sys, w: nat, n: nat)
    requires Inv(s) && w in s.lists
    ensures Woken(s, w, if n < |s.lists[w]| then n else |s.lists[w]|, Step(s, NotifyNOp(w, n)))
  {
    hide Inv, Woken, NotifyN;
    NotifyNWakes(s, w, n);
  }

  /** `com_sys_sched_notify_all` wakes them all. */
  lemma NotifyAllLaw(s: Sys, w: nat)
    requires Inv(s) && w in s.lists
    ensures var s' := Step(s, NotifyAllOp(w)); Woken(s, w, |s.lists[w]|, s') && w in s'.lists && s'.lists[w] == []
  {
    hide Inv, NotifyN;
    NotifyNWakes(s, w, |s.lists[w]|);
  }

  // ------------------------------------------------------------------ the start

  /** The booted system: CPU 0 runs the initial thread of process 0 with its idle thread ready beside it, every
      other CPU runs its idle thread, nobody is queued or asleep. */
  lemma BootLaw(cpus: nat, lists: set<nat>, c: nat)
    requires 0 < cpus && c < cpus
    ensures var s := Boot(cpus, lists);
      && |s.queues| == |s.current| == |s.idle| == cpus && s.queues[c] == [] && s.lists.Keys == lists
      && (forall w :: w in lists ==> s.lists[w] == []) && s.turn == 0 && s.running == map[0 := 1]
      && s.current[c].Some? && s.current[c].value in s.threads && s.idle[c] in s.threads
      && var t, i := s.threads[s.current[c].value], s.threads[s.idle[c]];
         && t.state == Running && t.cpu == Some(c) && i.cpu == Some(c) && i.proc == None
         && (c == 0 ==> t.proc == Some(0) && i.state == Ready && s.current[c].value != s.idle[c])
         && (c > 0 ==> s.current[c].value == s.idle[c])
  {}

  // ------------------------------------------------------------------ switching

  /** CPU `c` goes over from its thread `t` to the head `n` of its queue, or to its idle thread if the queue is
      empty: `t` is off the CPU and remembers it, `n` runs there, the counts of their processes follow. */
  ghost predicate SwitchedTo(s: Sys, c: nat, t: nat, n: nat, s': Sys) {
    && c < |s.queues| == |s.current| == |s.idle| && s.current[c] == Some(t) && t != n
    && n == (if s.queues[c] == [] then s.idle[c] else s.queues[c][0])
    && s'.current == s.current[c := Some(n)] && s'.idle == s.idle && s'.turn == s.turn
    && t in s.threads && n in s.threads && t in s'.threads && n in s'.threads && t in s'.place && n in s'.place
    && s'.threads[n] == s.threads[n].(state := Running, cpu := Some(c)) && s'.place[n] == OnCpu(c)
    && s'.threads[t].cpu == None && s'.threads[t].lastCpu == Some(c) && s'.threads[t].proc == s.threads[t].proc
    && OthersStay(s, s', {t, n})
  }

  lemma SwitchLaw(s: Sys, c: nat, how: How)
    requires Switching(s, c, how)
    ensures HasCurrent(s, c) && c < |s.queues| == |s.idle| && NextOn(s, c) in s.threads
    ensures SwitchedTo(s, c, Curr(s, c), NextOn(s, c), After(s, c, how))
  {
    hide Inv, After, Switching, Counted, CanMove, Goes;
    AfterIs(s, c, how);
    SwitchThreads(s, c, how);
    Switched(s, c, how);
  }

  /** `com_sys_sched_yield`: with an empty queue nothing happens; else the running thread is ready at the tail
      of its CPU's queue, unless it is the idle thread, and the head of the queue runs. */
  lemma YieldLaw(s: Sys, c: nat)
    requires Inv(s) && c < |s.current|
    ensures c < |s.queues| == |s.idle|
    ensures var s' := Step(s, YieldOp(c));
      if s.current[c].None? || s.queues[c] == [] then s' == s
      else
        var t, n := s.current[c].value, s.queues[c][0];
        && SwitchedTo(s, c, t, n, s') && s'.threads[t].state == Ready && s'.threads[t].waitingOn == None
        && s'.lists == s.lists
        && s'.queues == s.queues[c := s.queues[c][1..] + if t == s.idle[c] then [] else [t]]
  {
    hide Counted;
    MaySwitch(s, c, Yielding);
    if s.current[c].Some? && s.queues[c] != [] {
      SwitchLaw(s, c, Yielding);
      SwitchThreads(s, c, Yielding);
      Switched(s, c, Yielding);
      hide Inv, Step;
      AfterStep(s, c, Yielding);
    }
  }

  /** `com_sys_sched_wait`: the running thread sleeps, last in the list. */
  lemma WaitLaw(s: Sys, c: nat, w: nat)
    requires Inv(s) && Enabled(s, WaitOp(c, w))
    ensures var t, s' := s.current[c].value, Step(s, WaitOp(c, w));
      && c < |s.queues| == |s.idle|
      && SwitchedTo(s, c, t, if s.queues[c] == [] then s.idle[c] else s.queues[c][0], s')
      && s'.threads[t].state == Waiting && s'.threads[t].waitingOn == Some(w)
      && s'.lists == s.lists[w := s.lists[w] + [t]]
      && s'.queues == s.queues[c := if s.queues[c] == [] then [] else s.queues[c][1..]]
  {
    hide Counted;
    MaySwitch(s, c, Sleeping(w));
    SwitchLaw(s, c, Sleeping(w));
    SwitchThreads(s, c, Sleeping(w));
    Switched(s, c, Sleeping(w));
    hide Inv, Step;
    AfterStep(s, c, Sleeping(w));
  }

  /** `com_sys_thread_exit`: the running thread is gone for good. */
  lemma ExitLaw(s: Sys, c: nat)
    requires Inv(s) && Enabled(s, ExitOp(c))
    ensures var t, s' := s.current[c].value, Step(s, ExitOp(c));
      && c < |s.queues| == |s.idle|
      && SwitchedTo(s, c, t, if s.queues[c] == [] then s.idle[c] else s.queues[c][0], s')
      && s'.threads[t].state == Exited && s'.threads[t].waitingOn == None && s'.place[t] == Nowhere
      && s'.lists == s.lists
      && s'.queues == s.queues[c := if s.queues[c] == [] then [] else s.queues[c][1..]]
  {
    hide Counted;
    MaySwitch(s, c, Exiting);
    SwitchLaw(s, c, Exiting);
    SwitchThreads(s, c, Exiting);
    Switched(s, c, Exiting);
    hide Inv, Step;
    AfterStep(s, c, Exiting);
  }

  /** A new process has no thread running, and nothing else changes. */
  lemma CreateProcLaw(s: Sys, p: nat)
    requires Inv(s) && Enabled(s, CreateProcOp(p))
    ensures var s' := Step(s, CreateProcOp(p)); p in s'.running && s'.running[p] == 0 && s' == s.(running := s'.running)
    ensures var r := Step(s, CreateProcOp(p)).running; forall q :: q in s.running ==> q in r && r[q] == s.running[q]
  {
    hide Inv;
  }

  /** `com_sys_thread_new`: a thread that is nowhere yet and has never run. */
  lemma CreateLaw(s: Sys, t: nat, proc: Option<nat>)
    requires Inv(s) && Enabled(s, CreateOp(t, proc))
    ensures var s' := Step(s, CreateOp(t, proc));
      && t in s'.threads && s'.threads[t].state == New && s'.threads[t].proc == proc
      && s'.threads[t].waitingOn == s'.threads[t].cpu == s'.threads[t].lastCpu == None
      && s'.queues == s.queues && s'.lists == s.lists && s'.current == s.current && s'.running == s.running
      && forall u :: u in s.threads ==> u in s'.threads && s'.threads[u] == s.threads[u]
  {
    hide Inv;
  }
}
