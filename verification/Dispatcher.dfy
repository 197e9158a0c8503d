/** The code of the scheduler (`src/com/sys/sched.c`, `src/com/sys/thread.c`) in place, with its spin locks
    (`src/com/lib/spinlock.c`) as far as they count.  Every KASSERT of the functions modelled is an
    assertion here, or a precondition that every caller in the model meets; what they demand of the locks
    held by the kernel code that yields, waits or exits is a precondition of YieldCpu, WaitOn and
    ExitCurrent. */
module Dispatcher {
  import opened Options
  import opened Queues
  import opened Scheduler
  import opened Handover
  import opened LockDepth

  class Kernel {
    var threads: map<nat, Thread>
    var queues: seq<seq<nat>>
    var current: seq<Option<nat>>
    var lists: map<nat, seq<nat>>
    var running: map<nat, int>
    const idle: seq<nat>
    var turn: nat
    var depth: map<nat, int>    // lock_depth of each thread
    var held: set<nat>          // the threads whose sched_lock is taken
    ghost var place: map<nat, Place>

    /** The booted system, with wait lists `waitlists`. */
    constructor (cpus: nat, waitlists: set<nat>)
      requires cpus > 0
      ensures Valid() && View() == Boot(cpus, waitlists) && depth == LBoot(cpus, waitlists).depth
      ensures forall t :: t in place ==> t in depth && depth[t] == if place[t].OnCpu? then 0 else 1
    {
      hide Boot, Inv;
      var boot := Boot(cpus, waitlists);
      threads, queues, current, lists := boot.threads, boot.queues, boot.current, boot.lists;
      running, idle, turn, place := boot.running, boot.idle, boot.turn, boot.place;
      depth, held := LBoot(cpus, waitlists).depth, {};
      new;
      BootInv(cpus, waitlists);
    }

    ghost function View(): Sys
      reads this
    {
      Sys(threads, queues, current, lists, running, idle, turn, place)
    }

    ghost predicate Valid()
      reads this
    {
      Inv(View()) && DepthOk(View(), depth) && held == {}
    }

    /** The current thread, if any, holds at most one spin lock, as the scheduler asserts. */
    ghost predicate Enterable(c: nat)
      reads this
    {
      c < |current| && (current[c].Some? ==> current[c].value in depth && depth[current[c].value] <= 1)
    }

    /** `kspinlock_acquire` on CPU `c`, of a lock nobody holds. */
    method Acquire(c: nat)
      requires c < |current| && (current[c].Some? ==> current[c].value in depth)
      modifies this`depth
      ensures depth == Bump(old(depth), current[c], 1)
    {
      if current[c].Some? {
        depth := depth[current[c].value := depth[current[c].value] + 1];
      }
    }

    /** `kspinlock_release`; that the thread counts a lock is checked there. */
    method Release(c: nat)
      requires c < |current| && (current[c].Some? ==> current[c].value in depth && depth[current[c].value] >= 1)
      modifies this`depth
      ensures depth == Bump(old(depth), current[c], -1)
    {
      if current[c].Some? {
        depth := depth[current[c].value := depth[current[c].value] - 1];
      }
    }

    /** The same for the sched_lock of thread `t`. */
    method AcquireSched(c: nat, t: nat)
      requires c < |current| && (current[c].Some? ==> current[c].value in depth) && t !in held
      modifies this`depth, this`held
      ensures depth == Bump(old(depth), current[c], 1) && held == old(held) + {t}
    {
      Acquire(c);
      held := held + {t};
    }

    method ReleaseSched(c: nat, t: nat)
      requires c < |current| && (current[c].Some? ==> current[c].value in depth && depth[current[c].value] >= 1)
      requires t in held
      modifies this`depth, this`held
      ensures depth == Bump(old(depth), current[c], -1) && held == old(held) - {t}
    {
      held := held - {t};
      Release(c);
    }

    /** `com_sys_thread_transition_nolock`; its KASSERTs are the preconditions. */
    method Transition(t: nat, state: ThreadState)
      requires t in threads && threads[t].state != Exited && state != New
      requires state == Ready ==> threads[t].waitingOn == None
      requires state == Waiting ==> threads[t].waitingOn != None
      requires state == Running ==> threads[t].cpu != None && threads[t].waitingOn == None
      modifies this`threads
      ensures threads == old(threads)[t := old(threads)[t].(state := state)]
    {
      threads := threads[t := threads[t].(state := state)];
    }

    /** The accounting half of `sched_switch_vmm_context`. */
    method SwitchContext(curr: nat, next: nat)
      requires curr in threads && next in threads
      requires threads[next].proc.Some? ==> threads[next].proc.value in running
      requires threads[curr].proc.Some? ==> threads[curr].proc.value in running
      modifies this`running
      ensures running == Counted(Counted(old(running), threads[next].proc, 1), threads[curr].proc, -1)
    {
      if threads[next].proc.Some? {
        var p := threads[next].proc.value;
        running := running[p := running[p] + 1];
      }
      if threads[curr].proc.Some? {
        var p := threads[curr].proc.value;
        running := running[p := running[p] - 1];
      }
    }

    /** The part of `com_sys_sched_yield_nolock` in which the current thread is put back. */
    method Leave(c: nat, curr: nat)
      requires c < |queues| == |current| == |idle| && curr in threads && current[c] == Some(curr)
      requires threads[curr].state == Running ==> threads[curr].waitingOn == None
      requires curr in depth && depth[curr] >= 1
      modifies this`threads, this`queues, this`depth
      ensures var th, stays := old(threads)[curr], old(threads)[curr].state == Running;
        && threads == old(threads)[curr := Put(th, stays, c)]
        && queues == old(queues)[c := old(queues)[c] + (if stays && curr != idle[c] then [curr] else [])]
      ensures depth == old(depth)[curr := old(depth)[curr] - 1]
    {
      if threads[curr].state == Running {
        Transition(curr, Ready);
        if curr != idle[c] {
          queues := queues[c := queues[c] + [curr]];
        }
      }
      assert old(queues)[c] + [] == old(queues)[c];
      assert threads[curr].state != Running;
      threads := threads[curr := threads[curr].(cpu := None, lastCpu := Some(c))];
      Release(c);
    }

    /** The part that follows the choice of the next thread.  The last store is that of the assembly that
        changes stacks: it frees the lock of the thread that stops but counts nothing. */
    method Switch(c: nat, curr: nat, next: nat)
      requires c < |queues| == |current| == |idle| && curr in threads && next in threads && curr != next
      requires current[c] == Some(curr)
      requires threads[curr].state == Running ==> threads[curr].waitingOn == None
      requires threads[next].state == Ready && threads[next].waitingOn == None
      requires threads[next].proc.Some? ==> threads[next].proc.value in running
      requires threads[curr].proc.Some? ==> threads[curr].proc.value in running
      requires curr in depth && next in depth && depth[curr] >= 1 && curr in held
      modifies this`threads, this`queues, this`current, this`running, this`depth, this`held
      ensures var th, stays := old(threads)[curr], old(threads)[curr].state == Running;
        && threads == old(threads)[curr := Put(th, stays, c)]
                                  [next := old(threads)[next].(state := Running, cpu := Some(c))]
        && queues == old(queues)[c := old(queues)[c] + (if stays && curr != idle[c] then [curr] else [])]
        && running == Counted(Counted(old(running), old(threads)[next].proc, 1), th.proc, -1)
      ensures current == old(current)[c := Some(next)]
      ensures depth == old(depth)[curr := old(depth)[curr] - 1][next := old(depth)[next] - 1]
      ensures held == old(held) - {curr}
    {
      hide Counted;
      Leave(c, curr);
      SwitchContext(curr, next);
      current := current[c := Some(next)];
      threads := threads[next := threads[next].(cpu := Some(c))];
      Transition(next, Running);
      depth := depth[next := depth[next] - 1];
      held := held - {curr};
    }

    /** `com_sys_sched_yield_nolock` on CPU `c`; `s` and `d` are the state and the lock depths before its
        caller began, `drop` says whether the caller gave up a lock of its own. */
    method YieldNolock(c: nat, ghost s: Sys, ghost d: Depths, ghost how: How, ghost drop: bool)
      requires Inv(s) && Enabled(s, OpOf(c, how)) && View() == Before(s, c, how)
      requires DepthOk(s, d) && MayEnter(s, d, OpOf(c, how), drop) && Entered(s, d, c, drop, depth, held)
      modifies this
      ensures Valid() && View() == After(s, c, how) && depth == DepthAfter(s, d, OpOf(c, how), drop)
    {
      hide Inv, Enabled, Before, After, Switching, DepthOk, DepthAfter, MayEnter, Entered, Step, Yield, Wait, Exit,
           OpOf, Bump;
      Entry(s, d, c, how, drop, depth, held);
      Acquire(c);
      BumpBack(s.current[c], old(depth));
      if current[c].None? {
        Release(c);
        return;
      }
      var curr := current[c].value;
      assert curr in held;
      assert depth[curr] == 2 || depth[curr] == 3;
      if |queues[c]| == 0 && threads[curr].state == Running {
        Release(c);
        ReleaseSched(c, curr);
        assert held == {} && depth == d;
        return;
      }
      SwitchAway(c, curr, s, d, how, drop);
    }

    /** The rest of `com_sys_sched_yield_nolock`, once it is known that the CPU changes threads. */
    method SwitchAway(c: nat, curr: nat, ghost s: Sys, ghost d: Depths, ghost how: How, ghost drop: bool)
      requires Switching(s, c, how) && View() == Before(s, c, how) && DepthOk(s, d) && HasCurrent(s, c)
      requires curr == Curr(s, c) && curr in d
      requires depth == d[curr := d[curr] + if drop then 1 else 2] && held == {curr} && depth[curr] >= 1
      modifies this
      ensures View() == After(s, c, how) && depth == DepthAfter(s, d, OpOf(c, how), drop) && held == {}
    {
      hide Inv, Enabled, Yield, Wait, Exit, After, Goes, Counted, Switching, Before, DepthOk, DepthAfter, OpOf;
      MaySwitchFrom(s, c, how);
      SwitchedFrom(s, c, how);
      SwitchedDepth(s, d, c, how, drop);
      var next := idle[c];
      if |queues[c]| > 0 {
        next := queues[c][0];
        assert next != idle[c];
        queues := queues[c := queues[c][1..]];
      }
      assert curr != next;
      Switch(c, curr, next);
      place := place[curr := Goes(s, c, curr, how)][next := OnCpu(c)];
    }

    /** `com_sys_sched_yield`. */
    method YieldCpu(c: nat)
      requires Valid() && c < |current| && Enterable(c)
      modifies this
      ensures Valid() && View() == Yield(old(View()), c)
      ensures depth == DepthAfter(old(View()), old(depth), YieldOp(c), false)
    {
      ghost var s, d := View(), depth;
      CurrentPlace(s, c);
      if current[c].Some? {
        AcquireSched(c, current[c].value);
      }
      YieldNolock(c, s, d, Yielding, false);
    }

    /** `com_sys_sched_wait`, which drops the caller's lock, and `com_sys_sched_wait_nodrop`, up to the
        switch.  The KASSERTs about the locks the caller holds are preconditions. */
    method WaitOn(c: nat, w: nat, drop: bool)
      requires Valid() && Enabled(View(), WaitOp(c, w)) && depth[current[c].value] == if drop then 1 else 0
      modifies this
      ensures Valid() && View() == Wait(old(View()), c, w)
      ensures depth == DepthAfter(old(View()), old(depth), WaitOp(c, w), drop)
    {
      hide Inv, Wait, DepthAfter, DepthOk, After, Enabled, Before, MayEnter, Bump, Entered;
      ghost var s, d := View(), depth;
      SleepEntry(s, d, c, w, drop);
      var curr := current[c].value;
      BumpBack(s.current[c], d);
      AcquireSched(c, curr);
      threads := threads[curr := threads[curr].(waitingOn := Some(w))];
      Transition(curr, Waiting);
      BumpBack(s.current[c], depth);
      Acquire(c);
      lists := lists[w := lists[w] + [curr]];
      Release(c);
      if drop {
        Release(c);
      }
      assert held == {curr} && depth == if drop then d else Bump(d, s.current[c], 1);
      YieldNolock(c, s, d, Sleeping(w), drop);
    }

    /** `com_sys_thread_exit` by the current thread. */
    method ExitCurrent(c: nat)
      requires Valid() && Enabled(View(), ExitOp(c)) && Enterable(c)
      modifies this
      ensures Valid() && View() == Exit(old(View()), c)
      ensures depth == DepthAfter(old(View()), old(depth), ExitOp(c), false)
    {
      hide Exit, DepthAfter;
      ghost var s, d := View(), depth;
      CurrentPlace(s, c);
      AcquireSched(c, current[c].value);
      Transition(current[c].value, Exited);
      YieldNolock(c, s, d, Exiting, false);
    }

    /** `com_sys_thread_ready_nolock` on a thread no list holds any more. */
    method ReadyNolock(t: nat)
      requires t in threads && (threads[t].state == New || threads[t].state == Waiting)
      requires turn < |queues| && (threads[t].lastCpu.Some? ==> threads[t].lastCpu.value < |queues|)
      modifies this`threads, this`queues, this`turn, this`place
      ensures threads == old(threads)[t := old(threads)[t].(state := Ready, waitingOn := None)]
      ensures var c := ReadyCpu(old(View()), t);
              queues == old(queues)[c := old(queues)[c] + [t]] && place == old(place)[t := InQueue(c)]
      ensures turn == NextTurn(old(View()), t)
    {
      var readyCpu := threads[t].lastCpu;
      threads := threads[t := threads[t].(waitingOn := None)];
      Transition(t, Ready);
      if readyCpu.None? {
        SmallMod(turn, |queues|);
        readyCpu := Some(turn % |queues|);
        turn := (turn + 1) % |queues|;
      }
      queues := queues[readyCpu.value := queues[readyCpu.value] + [t]];
      place := place[t := InQueue(readyCpu.value)];
    }

    /** `com_sys_thread_ready` on a new thread. */
    method StartThread(t: nat)
      requires Valid() && Enabled(View(), ReadyOp(t))
      modifies this
      ensures Valid() && View() == MakeReady(old(View()), t) && depth == old(depth)
    {
      ghost var s := View();
      hide Inv, MakeReady, DepthOk;
      ReadyKeepsInv(s, t);
      ReadyFields(s, t);
      ReadySame(s, t);
      SameKeeps(s, MakeReady(s, t), depth);
      ReadyNolock(t);
    }

    /** `com_sys_sched_notify_n`: the first `n` sleepers move to a local queue and are then made ready
        one after the other. */
    method NotifySome(w: nat, n: nat)
      requires Valid() && w in lists
      modifies this
      ensures Valid() && View() == NotifyN(old(View()), w, n) && depth == old(depth)
    {
      hide Inv, NotifyN, MakeReady, DepthOk, SameCpus;
      ghost var s, q := View(), lists[w];
      var local: seq<nat> := [];
      var i := 0;
      while i < n && |lists[w]| > 0
        invariant w in lists && i <= n && i <= |q| && local == q[..i] && lists[w] == q[i..]
        invariant View() == s.(lists := s.lists[w := q[i..]]) && depth == old(depth) && held == {}
      {
        local := local + [lists[w][0]];
        lists := lists[w := lists[w][1..]];
        i := i + 1;
      }
      NotifyNone(s, w);
      var j := 0;
      while j < i
        invariant 0 <= j <= i && Inv(NotifyN(s, w, j)) && Sleepers(NotifyN(s, w, j), w, q[j..])
        invariant View() == NotifyN(s, w, j).(lists := NotifyN(s, w, j).lists[w := q[i..]]) && depth == old(depth)
        invariant held == {}
      {
        ghost var m := NotifyN(s, w, j);
        NotifyNext(s, w, j, q[j..]);
        assert local[j] == q[j..][0];
        ReadyNolock(local[j]);
        assert q[j..][1..] == q[j + 1..];
        j := j + 1;
      }
      assert NotifyN(s, w, i).lists[w := q[i..]] == NotifyN(s, w, i).lists;
      NotifyNExcess(s, w, i, n);
      NotifyNSame(s, w, n);
      SameKeeps(s, NotifyN(s, w, n), depth);
    }

    /** `com_sys_sched_notify_all`: as above, for all sleepers. */
    method NotifyEvery(w: nat)
      requires Valid() && w in lists
      modifies this
      ensures Valid() && View() == NotifyAll(old(View()), w) && depth == old(depth)
    {
      NotifySome(w, |lists[w]|);
    }

    /** `com_sys_sched_notify`. */
    method NotifyFirst(w: nat)
      requires Valid() && w in lists
      modifies this
      ensures Valid() && View() == Notify(old(View()), w) && depth == old(depth)
    {
      hide Inv, MakeReady, DepthOk;
      ghost var s := View();
      if |lists[w]| > 0 {
        var next := lists[w][0];
        SleeperWaits(s, w, next);
        ReadyKeepsInv(s, next);
        ReadyFields(s, next);
        ReadySame(s, next);
        SameKeeps(s, MakeReady(s, next), depth);
        lists := lists[w := lists[w][1..]];
        ReadyNolock(next);
      }
    }

    /** `com_sys_sched_notify_thread`, also reached when a timed wait expires. */
    method NotifyOne(t: nat)
      requires Valid() && t in threads
      modifies this
      ensures Valid() && View() == NotifyThread(old(View()), t) && depth == old(depth)
    {
      hide Inv, MakeReady, DepthOk;
      ghost var s := View();
      if threads[t].waitingOn.Some? {
        var w := threads[t].waitingOn.value;
        WaitingState(s, t);
        assert threads[t].cpu == None;
        ReadyKeepsInv(s, t);
        ReadyFields(s, t);
        ReadySame(s, t);
        SameKeeps(s, MakeReady(s, t), depth);
        lists := lists[w := Remove(lists[w], t)];
        ReadyNolock(t);
      }
    }
  }

  /** What the caller of `com_sys_sched_yield_nolock` has done to the locks. */
  ghost predicate Entered(s: Sys, d: Depths, c: nat, drop: bool, depth: Depths, held: set<nat>) {
    && c < |s.current|
    && depth == Bump(d, s.current[c], if drop then 0 else 1)
    && held == if s.current[c].Some? then {s.current[c].value} else {}
  }

  lemma EntryDepth(s: Sys, d: Depths, c: nat, how: How, drop: bool, depth: Depths, held: set<nat>)
    requires Inv(s) && DepthOk(s, d) && MayEnter(s, d, OpOf(c, how), drop) && Entered(s, d, c, drop, depth, held)
    requires Enabled(s, OpOf(c, how))
    ensures s.current[c].Some? ==> HasCurrent(s, c)
    ensures s.current[c].Some? ==> Curr(s, c) in d && depth == d[Curr(s, c) := d[Curr(s, c)] + if drop then 0 else 1]
    ensures s.current[c].Some? ==> 1 <= depth[Curr(s, c)] <= 2
    ensures s.current[c].None? ==> depth == d && DepthAfter(s, d, OpOf(c, how), drop) == d
    ensures s.current[c].Some? && how.Yielding? && s.queues[c] == [] ==>
              DepthAfter(s, d, OpOf(c, how), drop) == d && !drop
  {
    CurrentPlace(s, c);
    if s.current[c].Some? { assert DepthAt(s, d, Curr(s, c)); }
  }

  /** All that the code needs to know on entry. */
  lemma Entry(s: Sys, d: Depths, c: nat, how: How, drop: bool, depth: Depths, held: set<nat>)
    requires Inv(s) && DepthOk(s, d) && MayEnter(s, d, OpOf(c, how), drop) && Entered(s, d, c, drop, depth, held)
    requires Enabled(s, OpOf(c, how))
    ensures var b, s', d' := Before(s, c, how), After(s, c, how), DepthAfter(s, d, OpOf(c, how), drop);
      && c < |b.current| == |b.queues| && b.current == s.current && b.queues == s.queues
      && Inv(s') && DepthOk(s', d')
      && match b.current[c] {
           case None => s' == b && d' == depth && held == {}
           case Some(curr) =>
             && HasCurrent(s, c) && curr == Curr(s, c) && curr in d && curr in b.threads && curr in depth
             && depth == d[curr := d[curr] + if drop then 0 else 1] && 1 <= depth[curr] <= 2 && held == {curr}
             && if b.queues[c] == [] && b.threads[curr].state == Running then s' == b && d' == d && !drop
                else Switching(s, c, how)
         }
  {
    hide Inv, Enabled, Yield, Wait, Exit, Switching, After, DepthOk, DepthAfter, MayEnter;
    StepKeepsInv(s, OpOf(c, how));
    SchedKeeps(s, d, OpOf(c, how), drop);
    AfterStep(s, c, how);
    MaySwitch(s, c, how);
    EntryDepth(s, d, c, how, drop, depth, held);
  }

  /** Taking a lock and giving it back changes nothing. */
  lemma BumpBack(t: Option<nat>, d: Depths)
    requires t.Some? ==> t.value in d
    ensures Bump(Bump(d, t, 1), t, -1) == d
    ensures t.Some? ==> Bump(d, t, 1) == d[t.value := d[t.value] + 1]
    ensures t.Some? ==> Bump(Bump(Bump(d, t, 1), t, -1), t, -1) == d[t.value := d[t.value] - 1]
    ensures t.None? ==> Bump(d, t, 1) == d
  {
    if t.Some? { assert d[t.value := d[t.value]] == d; }
  }

  /** What a wait does before it enters the scheduler. */
  lemma SleepEntry(s: Sys, d: Depths, c: nat, w: nat, drop: bool)
    requires Inv(s) && DepthOk(s, d) && Enabled(s, WaitOp(c, w))
    ensures HasCurrent(s, c) && Curr(s, c) in d && w in s.lists && Enabled(s, OpOf(c, Sleeping(w)))
    ensures var t := Curr(s, c);
      && s.threads[t].state == Running && 0 <= d[t]
      && Before(s, c, Sleeping(w))
         == s.(threads := s.threads[t := s.threads[t].(state := Waiting, waitingOn := Some(w))],
               lists := s.lists[w := s.lists[w] + [t]])
      && (d[t] == (if drop then 1 else 0) ==> MayEnter(s, d, OpOf(c, Sleeping(w)), drop))
      && Entered(s, d, c, drop, if drop then d else Bump(d, s.current[c], 1), {t})
      && OpOf(c, Sleeping(w)) == WaitOp(c, w) && After(s, c, Sleeping(w)) == Wait(s, c, w)
  {
    CurrentPlace(s, c);
    assert DepthAt(s, d, Curr(s, c));
    assert d[Curr(s, c) := d[Curr(s, c)] + 0] == d;
  }

  lemma MaySwitchFrom(s: Sys, c: nat, how: How)
    requires Switching(s, c, how)
    ensures HasCurrent(s, c) && c < |s.queues| == |s.current| == |s.idle|
  {}

  lemma SwitchedDepth(s: Sys, d: Depths, c: nat, how: How, drop: bool)
    requires Switching(s, c, how) && DepthOk(s, d)
    ensures HasCurrent(s, c) && c < |s.queues| == |s.idle| && Curr(s, c) in d && NextOn(s, c) in d
    ensures DepthAfter(s, d, OpOf(c, how), drop)
            == d[Curr(s, c) := d[Curr(s, c)] + if drop then 0 else 1][NextOn(s, c) := d[NextOn(s, c)] - 1]
  {
    SwitchThreads(s, c, how);
  }

  lemma SmallMod(x: nat, n: nat)
    requires x < n
    ensures x % n == x
  {}

  ghost predicate Sleepers(s: Sys, w: nat, q: seq<nat>) { w in s.lists && s.lists[w] == q }

  lemma NotifyNone(s: Sys, w: nat)
    ensures NotifyN(s, w, 0) == s
  {}

  lemma NotifyNext(s: Sys, w: nat, j: nat, q: seq<nat>)
    requires Inv(NotifyN(s, w, j)) && Sleepers(NotifyN(s, w, j), w, q) && q != []
    ensures var m, s' := NotifyN(s, w, j), NotifyN(s, w, j + 1);
      && Inv(s') && Sleepers(s', w, q[1..])
      && q[0] in m.threads && m.threads[q[0]].state == Waiting && m.turn < |m.queues| && ReadyCpu(m, q[0]) < |m.queues|
      && (m.threads[q[0]].lastCpu.Some? ==> m.threads[q[0]].lastCpu.value < |m.queues|)
      && s'.threads == m.threads[q[0] := m.threads[q[0]].(state := Ready, waitingOn := None)]
      && s'.queues == m.queues[ReadyCpu(m, q[0]) := m.queues[ReadyCpu(m, q[0])] + [q[0]]]
      && s'.place == m.place[q[0] := InQueue(ReadyCpu(m, q[0]))]
      && s'.lists == m.lists[w := q[1..]] && s'.current == m.current && s'.running == m.running
      && s'.idle == m.idle && s'.turn == NextTurn(m, q[0])
  {
    var m := NotifyN(s, w, j);
    SleeperWaits(m, w, q[0]);
    ReadyKeepsInv(m, q[0]);
    ReadyFields(m, q[0]);
    hide Inv, MakeReady, DepthOk;
    assert NotifyN(s, w, j + 1) == Notify(m, w);
  }

  lemma {:induction false} NotifyNExcess(s: Sys, w: nat, i: nat, n: nat)
    requires i <= n && (i == n || Sleepers(NotifyN(s, w, i), w, []))
    ensures NotifyN(s, w, n) == NotifyN(s, w, i)
  {
    if i < n { NotifyNExcess(s, w, i, n - 1); }
  }
}
