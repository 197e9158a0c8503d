/** What a change of thread on a CPU does to the scheduler's state, field by field (`src/com/sys/sched.c`). */
module Handover {
  import opened Options
  import opened Scheduler

  /** Why the current thread of a CPU gives it up. */
  datatype How = Yielding | Sleeping(list: nat) | Exiting

  /** What the caller of `com_sys_sched_yield_nolock` has done to state `s` before the call. */
  ghost function Before(s: Sys, c: nat, how: How): Sys {
    if !HasCurrent(s, c) then s
    else
      var t := Curr(s, c);
      match how
      case Yielding => s
      case Sleeping(w) => s.(threads := s.threads[t := s.threads[t].(state := Waiting, waitingOn := Some(w))],
                             lists := ListsWith(s.lists, t, InList(w)))
      case Exiting => s.(threads := s.threads[t := s.threads[t].(state := Exited)])
  }

  ghost function After(s: Sys, c: nat, how: How): Sys {
    match how
    case Yielding => Yield(s, c)
    case Sleeping(w) => Wait(s, c, w)
    case Exiting => Exit(s, c)
  }

  ghost function OpOf(c: nat, how: How): Op {
    match how
    case Yielding => YieldOp(c)
    case Sleeping(w) => WaitOp(c, w)
    case Exiting => ExitOp(c)
  }

  /** The place a thread of CPU `c` goes to. */
  ghost function Goes(s: Sys, c: nat, t: nat, how: How): Place {
    match how
    case Yielding => if t in s.idle then Nowhere else InQueue(c)
    case Sleeping(w) => InList(w)
    case Exiting => Nowhere
  }

  ghost function Left(th: Thread, c: nat, how: How): Thread {
    match how
    case Yielding => Stopped(th, c, Ready, None)
    case Sleeping(w) => Stopped(th, c, Waiting, Some(w))
    case Exiting => Stopped(th, c, Exited, None)
  }

  /** A thread taken off CPU `c`, ready again if it was running. */
  function Put(th: Thread, stays: bool, c: nat): Thread {
    th.(state := if stays then Ready else th.state, cpu := None, lastCpu := Some(c))
  }

  ghost predicate Switching(s: Sys, c: nat, how: How) {
    Inv(s) && Enabled(s, OpOf(c, how)) && HasCurrent(s, c) && (how.Yielding? ==> s.queues[c] != [])
  }

  /** The thread that stops and the one that starts. */
  lemma SwitchThreads(s: Sys, c: nat, how: How)
    requires Switching(s, c, how)
    ensures var t, n := Curr(s, c), NextOn(s, c);
      && n in s.threads && n in s.place && n != t && (s.queues[c] != [] ==> n != s.idle[c])
      && s.place[n] == (if s.queues[c] == [] then Nowhere else InQueue(c)) && s.place[t] == OnCpu(c)
      && s.threads[n].state == Ready && s.threads[n].waitingOn == None
      && s.threads[t].state == Running && s.threads[t].waitingOn == None
      && (t in s.idle ==> t == s.idle[c]) && (s.idle[c] == t ==> t in s.idle)
      && CanMove(s, t, Left(s.threads[t], c, how), Goes(s, c, t, how))
      && (s.threads[n].proc.Some? ==> s.threads[n].proc.value in s.running)
      && (s.threads[t].proc.Some? ==> s.threads[t].proc.value in s.running)
  {
    var t, n := Curr(s, c), NextOn(s, c);
    CurrentPlace(s, c);
    if s.queues[c] != [] { assert n in s.queues[c] && PlacedAt(s, s.queues[c], InQueue(c)); }
    assert ThreadOk(s, t) && ThreadOk(s, n);
  }

  /** The state after the switch, field by field. */
  lemma Switched(s: Sys, c: nat, how: How)
    requires Switching(s, c, how) && NextOn(s, c) in s.threads
    ensures var t, n, s' := Curr(s, c), NextOn(s, c), After(s, c, how);
      && s'.threads == s.threads[t := Left(s.threads[t], c, how)][n := s.threads[n].(state := Running, cpu := Some(c))]
      && s'.queues == s.queues[c := Popped(s.queues[c]) + (if Goes(s, c, t, how) == InQueue(c) then [t] else [])]
      && s'.lists == Before(s, c, how).lists
      && s'.current == s.current[c := Some(n)]
      && s'.running == Counted(Counted(s.running, s.threads[n].proc, 1), s.threads[t].proc, -1)
      && s'.place == s.place[t := Goes(s, c, t, how)][n := OnCpu(c)]
      && s'.idle == s.idle && s'.turn == s.turn
  {
    hide Inv, Fits, Move, Dispatch, After, Enabled, CanMove, Switching, Counted, Left;
    AfterIs(s, c, how);
    var t, n, q := Curr(s, c), NextOn(s, c), s.queues[c];
    SwitchThreads(s, c, how);
    var th, to := Left(s.threads[t], c, how), Goes(s, c, t, how);
    var m, tail := Move(s, t, th, to), if to == InQueue(c) then [t] else [];
    StopFields(s, c, th, to);
    assert q != [] ==> (q + tail)[1..] == q[1..] + tail && (q + tail)[0] == q[0];
    DispatchFields(m, c);
    CountedSwap(s.running, s.threads[t].proc, s.threads[n].proc);
  }

  lemma AfterIs(s: Sys, c: nat, how: How)
    requires Switching(s, c, how)
    ensures Inv(s) && HasCurrent(s, c) && c < |s.queues| == |s.current| == |s.idle| && s.place.Keys == s.threads.Keys
    ensures s.queues[c] == [] ==> !how.Yielding?
    ensures var t := Curr(s, c);
      && After(s, c, how) == Dispatch(Move(s, t, Left(s.threads[t], c, how), Goes(s, c, t, how)), c)
      && Left(s.threads[t], c, how).proc == s.threads[t].proc
      && Before(s, c, how).lists == ListsWith(s.lists, t, Goes(s, c, t, how))
  {}

  lemma CountedSwap(running: map<nat, int>, p: Option<nat>, q: Option<nat>)
    ensures Counted(Counted(running, p, -1), q, 1) == Counted(Counted(running, q, 1), p, -1)
  {}

  lemma StopFields(s: Sys, c: nat, th: Thread, to: Place)
    requires Inv(s) && HasCurrent(s, c) && !to.OnCpu? && CanMove(s, Curr(s, c), th, to) && (to.InQueue? ==> to.cpu == c)
    ensures var t, m := Curr(s, c), Move(s, Curr(s, c), th, to);
      && m.threads == s.threads[t := th] && m.place == s.place[t := to] && m.idle == s.idle && m.turn == s.turn
      && m.queues == s.queues[c := s.queues[c] + (if to == InQueue(c) then [t] else [])]
      && m.lists == ListsWith(s.lists, t, to) && m.current == s.current[c := None]
      && m.running == Counted(s.running, th.proc, -1)
  {
    CurrentPlace(s, c);
    var q := s.queues[c];
    assert q + [] == q && s.queues[c := q] == s.queues;
  }

  lemma DispatchFields(m: Sys, c: nat)
    requires c < |m.queues| == |m.current| == |m.idle| && NextOn(m, c) in m.threads && NextOn(m, c) in m.place
    requires m.place[NextOn(m, c)] == if m.queues[c] == [] then Nowhere else InQueue(c)
    ensures var n, s' := NextOn(m, c), Dispatch(m, c);
      && s'.threads == m.threads[n := m.threads[n].(state := Running, cpu := Some(c))]
      && s'.place == m.place[n := OnCpu(c)]
      && s'.idle == m.idle && s'.turn == m.turn && s'.lists == m.lists
      && s'.queues == m.queues[c := Popped(m.queues[c])] && s'.current == m.current[c := Some(n)]
      && s'.running == Counted(m.running, m.threads[n].proc, 1)
  {
  }

  /** The same seen from the state in which `com_sys_sched_yield_nolock` is entered. */
  lemma SwitchedFrom(s: Sys, c: nat, how: How)
    requires Switching(s, c, how) && HasCurrent(s, c) && c < |s.queues| == |s.current| == |s.idle|
    ensures var t, n, b, s' := Curr(s, c), NextOn(s, c), Before(s, c, how), After(s, c, how);
      && b.queues == s.queues && b.current == s.current && b.idle == s.idle && b.turn == s.turn && b.place == s.place
      && t in b.threads && n in b.threads && t != n && b.running == s.running
      && b.threads[n].state == Ready && b.threads[n].waitingOn == None
      && (b.threads[t].state == Running <==> how.Yielding?) && (how.Yielding? ==> b.threads[t].waitingOn == None)
      && (b.threads[n].proc.Some? ==> b.threads[n].proc.value in b.running)
      && (b.threads[t].proc.Some? ==> b.threads[t].proc.value in b.running)
      && (s.queues[c] != [] ==> n != s.idle[c])
      && s'.threads == b.threads[t := Put(b.threads[t], how.Yielding?, c)]
                                [n := b.threads[n].(state := Running, cpu := Some(c))]
      && s'.queues == b.queues[c := Popped(b.queues[c]) + (if how.Yielding? && t != b.idle[c] then [t] else [])]
      && s'.lists == b.lists && s'.current == b.current[c := Some(n)]
      && s'.running == Counted(Counted(b.running, b.threads[n].proc, 1), b.threads[t].proc, -1)
      && s'.place == b.place[t := Goes(s, c, t, how)][n := OnCpu(c)] && s'.idle == b.idle && s'.turn == b.turn
  {
    hide Inv, After, Switching, Counted, CanMove;
    SwitchThreads(s, c, how);
    Switched(s, c, how);
  }

  /** Whether the call switches at all. */
  lemma MaySwitch(s: Sys, c: nat, how: How)
    requires Inv(s) && Enabled(s, OpOf(c, how))
    ensures c < |s.queues| == |s.current| == |s.idle|
    ensures s.current[c].None? || (s.queues[c] == [] && how.Yielding?) ==> how.Yielding? && After(s, c, how) == s
    ensures s.current[c].Some? ==> HasCurrent(s, c) && s.threads[Curr(s, c)].state == Running
    ensures s.current[c].Some? && (s.queues[c] != [] || !how.Yielding?) ==> Switching(s, c, how)
  {
    CurrentPlace(s, c);
  }

  lemma AfterStep(s: Sys, c: nat, how: How)
    ensures After(s, c, how) == Step(s, OpOf(c, how))
  {}

  function Popped(q: seq<nat>): seq<nat> { if q == [] then [] else q[1..] }

  /** The state after a thread is made ready, field by field. */
  lemma ReadyFields(s: Sys, t: nat)
    requires Inv(s) && t in s.threads && (s.threads[t].state == New || s.threads[t].state == Waiting)
    ensures s.turn < |s.queues| && t in s.place && ReadyCpu(s, t) < |s.queues|
    ensures s.threads[t].lastCpu.Some? ==> s.threads[t].lastCpu.value < |s.queues|
    ensures s.threads[t].state == New ==> s.place[t] == Nowhere
    ensures var c, s' := ReadyCpu(s, t), MakeReady(s, t);
      && s'.threads == s.threads[t := s.threads[t].(state := Ready, waitingOn := None)]
      && s'.queues == s.queues[c := s.queues[c] + [t]] && s'.place == s.place[t := InQueue(c)]
      && s'.lists == ListsWithout(s, t, s.place[t]) && s'.current == s.current && s'.running == s.running
      && s'.idle == s.idle && s'.turn == NextTurn(s, t)
  {
    assert ThreadOk(s, t);
  }
}
