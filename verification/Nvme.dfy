/** The NVMe completion ring of `src/opt/nvme/nvme.c`: the device writes completions round and round, each
    with a phase bit that flips on every lap (section 4.1 of NVM Express 1.0e), and the driver
    compares that bit with its own to see whether the slot it looks at has been filled. */
module Nvme {
  import opened Arith

  /** A completion: its phase bit and what it reports. */
  datatype Cqe = Cqe(phase: bool, value: nat)

  /** The ring: the driver's index and phase, the device's index and phase, and the completions the
      device has written and the driver has not consumed, which is auxiliary. */
  datatype Ring = Ring(cq: seq<Cqe>, idx: nat, phase: bool, devIdx: nat, devPhase: bool, pending: seq<nat>)

  /** How far slot `x` lies ahead of the driver. */
  function Ahead(r: Ring, x: nat): int { if x >= r.idx then x - r.idx else x + |r.cq| - r.idx }

  /** The driver's phase variable when it gets to slot `x`. */
  function PhaseAt(r: Ring, x: nat): bool { if x >= r.idx then r.phase else !r.phase }

  /** The phase bit in slot `x` says "new" to the driver exactly for the slots of pending completions, which
      hold them in order. */
  ghost predicate SlotOk(r: Ring, x: nat)
    requires x < |r.cq|
  {
    && (r.cq[x].phase != PhaseAt(r, x) <==> Ahead(r, x) < |r.pending|)
    && (0 <= Ahead(r, x) < |r.pending| ==> r.cq[x].value == r.pending[Ahead(r, x)])
  }

  ghost predicate Ok(r: Ring) {
    && r.idx < |r.cq| && |r.pending| <= |r.cq|
    && r.devIdx == Wrap(r.idx + |r.pending|, |r.cq|)
    && r.devPhase == (if r.idx + |r.pending| < |r.cq| then !r.phase else r.phase)
    && (forall x: nat :: x < |r.cq| ==> SlotOk(r, x))
  }

  /** `nvme_queue_done_nobarrier`. */
  function Done(r: Ring): bool
    requires r.idx < |r.cq|
  {
    r.cq[r.idx].phase != r.phase
  }

  /** The phase test is true exactly when an unconsumed completion is in the slot, and it is the oldest. */
  lemma DoneExactly(r: Ring)
    requires Ok(r)
    ensures Done(r) <==> r.pending != []
    ensures Done(r) ==> r.cq[r.idx].value == r.pending[0]
  {
    assert SlotOk(r, r.idx);
  }

  /** The device writes a completion into the next slot. */
  function Post(r: Ring, v: nat): Ring
    requires r.devIdx < |r.cq|
  {
    var last := r.devIdx + 1 == |r.cq|;
    r.(cq := r.cq[r.devIdx := Cqe(r.devPhase, v)], devIdx := if last then 0 else r.devIdx + 1,
       devPhase := if last then !r.devPhase else r.devPhase, pending := r.pending + [v])
  }

  lemma PostOk(r: Ring, v: nat)
    requires Ok(r) && |r.pending| < |r.cq|
    ensures Ok(Post(r, v))
  {
    var s := Post(r, v);
    forall x: nat | x < |s.cq| ensures SlotOk(s, x) { assert SlotOk(r, x); }
  }

  /** The driver steps over the completion it has seen: the index wraps and flips the phase. */
  function Consume(r: Ring): Ring
  {
    var last := r.idx + 1 == |r.cq|;
    r.(idx := if last then 0 else r.idx + 1, phase := if last then !r.phase else r.phase,
       pending := if r.pending == [] then [] else r.pending[1..])
  }

  lemma ConsumeOk(r: Ring)
    requires Ok(r) && Done(r)
    ensures r.pending != [] && r.pending == [r.cq[r.idx].value] + Consume(r).pending && Ok(Consume(r))
  {
    DoneExactly(r);
    var s := Consume(r);
    forall x: nat | x < |s.cq| ensures SlotOk(s, x) { assert SlotOk(r, x); }
  }

  /** The ring before the first completion: all slots zero. */
  function Fresh(qe: nat): Ring { Ring(seq(qe, _ => Cqe(false, 0)), 0, false, 0, true, []) }

  // ------------------------------------------------------------------ every run

  /** The device posts, which it does only when it is less than a lap ahead, or the driver polls once. */
  datatype Op = DevicePosts(v: nat) | DriverPolls

  /** `seen` is what the driver has consumed and `posted` what the device has reported. */
  datatype Run = Run(ring: Ring, seen: seq<nat>, posted: seq<nat>)

  ghost predicate Enabled(s: Run, op: Op) {
    s.ring.idx < |s.ring.cq| && s.ring.devIdx < |s.ring.cq| && (op.DevicePosts? ==> |s.ring.pending| < |s.ring.cq|)
  }

  /** The driver acts on the phase bit and on the slot alone. */
  ghost function Step(s: Run, op: Op): Run
    requires Enabled(s, op)
  {
    match op
    case DevicePosts(v) => s.(ring := Post(s.ring, v), posted := s.posted + [v])
    case DriverPolls =>
      if Done(s.ring) then
        s.(ring := Consume(s.ring), seen := s.seen + [s.ring.cq[s.ring.idx].value])
      else s
  }

  ghost predicate IsRun(s: Run, ops: seq<Op>)
    decreases |ops|
  {
    ops == [] || (Enabled(s, ops[0]) && IsRun(Step(s, ops[0]), ops[1..]))
  }

  ghost function RunTo(s: Run, ops: seq<Op>): Run
    requires IsRun(s, ops)
    decreases |ops|
  {
    if ops == [] then s else RunTo(Step(s, ops[0]), ops[1..])
  }

  /** A run grows by a step that is enabled where it ends. */
  lemma {:induction false} RunMore(s: Run, ops: seq<Op>, op: Op)
    ensures IsRun(s, ops + [op]) <==> IsRun(s, ops) && Enabled(RunTo(s, ops), op)
    ensures IsRun(s, ops + [op]) ==> RunTo(s, ops + [op]) == Step(RunTo(s, ops), op)
    decreases |ops|
  {
    hide Enabled, Step;
    if ops == [] {
      assert ops + [op] == [op] && [op][1..] == [];
    } else {
      assert (ops + [op])[1..] == ops[1..] + [op];
      if Enabled(s, ops[0]) { RunMore(Step(s, ops[0]), ops[1..], op); }
    }
  }

  ghost predicate Inv(s: Run) { Ok(s.ring) && s.posted == s.seen + s.ring.pending }

  lemma StepKeepsInv(s: Run, op: Op)
    requires Inv(s) && Enabled(s, op)
    ensures Inv(Step(s, op))
  {
    hide Ok;
    match op
    case DevicePosts(v) => PostOk(s.ring, v);
    case DriverPolls =>
      DoneExactly(s.ring);
      if Done(s.ring) {
        ConsumeOk(s.ring);
        assert s.ring.pending == [s.ring.pending[0]] + s.ring.pending[1..];
      }
  }

  lemma {:induction false} RunKeepsInv(s: Run, ops: seq<Op>)
    requires Inv(s) && IsRun(s, ops)
    ensures Inv(RunTo(s, ops))
    decreases |ops|
  {
    hide Inv, Step, Enabled;
    if ops != [] {
      StepKeepsInv(s, ops[0]);
      RunKeepsInv(Step(s, ops[0]), ops[1..]);
    }
  }

  lemma FreshOk(qe: nat)
    requires qe > 0
    ensures Ok(Fresh(qe))
  {
    var r := Fresh(qe);
    forall x: nat | x < |r.cq| ensures SlotOk(r, x) {}
  }

  /** Over any number of laps the driver consumes every completion once, in order and never a stale one, and
      its test is true exactly when there is one it has not consumed. */
  lemma OnceInOrder(qe: nat, ops: seq<Op>)
    requires qe > 0 && IsRun(Run(Fresh(qe), [], []), ops)
    ensures var s := RunTo(Run(Fresh(qe), [], []), ops);
            s.seen <= s.posted && s.ring.idx < |s.ring.cq| && (Done(s.ring) <==> |s.seen| < |s.posted|)
  {
    FreshOk(qe);
    RunKeepsInv(Run(Fresh(qe), [], []), ops);
    DoneExactly(RunTo(Run(Fresh(qe), [], []), ops).ring);
  }

  /** In every run a poll consumes the oldest completion the driver has not seen, if there is one, and a post
      adds one completion. */
  lemma PollLaw(qe: nat, ops: seq<Op>, op: Op)
    requires qe > 0 && IsRun(Run(Fresh(qe), [], []), ops) && Enabled(RunTo(Run(Fresh(qe), [], []), ops), op)
    ensures var s := RunTo(Run(Fresh(qe), [], []), ops);
      var s', n := Step(s, op), |s.seen|;
      match op
      case DevicePosts(v) => s'.posted == s.posted + [v] && s'.seen == s.seen
      case DriverPolls =>
        s'.posted == s.posted && s'.seen == s.seen + if n < |s.posted| then [s.posted[n]] else []
  {
    FreshOk(qe);
    RunKeepsInv(Run(Fresh(qe), [], []), ops);
    DoneExactly(RunTo(Run(Fresh(qe), [], []), ops).ring);
  }

  // ------------------------------------------------------------------ the driver's code

  /** A submission ring after `commands`: the newest command stands just before slot `next`, the one before
      it in the slot before, and so on round the ring, as far back as it reaches. */
  ghost predicate Holds(sq: seq<nat>, next: nat, commands: seq<nat>) {
    && next < |sq| && next == |commands| % |sq|
    && forall j {:trigger commands[j]} :: 0 <= j < |commands| && |commands| - |sq| <= j ==> sq[j % |sq|] == commands[j]
  }

  lemma HoldsMore(sq: seq<nat>, next: nat, commands: seq<nat>, cmd: nat)
    requires Holds(sq, next, commands)
    ensures Holds(sq[next := cmd], if next + 1 == |sq| then 0 else next + 1, commands + [cmd])
  {
    var n, qe, c' := |commands|, |sq|, commands + [cmd];
    ModAdd(n, 1, qe);
    forall j | 0 <= j < |c'| && |c'| - qe <= j ensures sq[next := cmd][j % qe] == c'[j] {
      if j < n {
        Gap(j, n - j, qe);
        assert j % qe != next;
        assert c'[j] == commands[j];
      }
    }
  }

  class NvmeQueue {
    const sq: array<nat>
    const cq: array<Cqe>
    var sqIdx: nat
    var cqIdx: nat
    var cqPhase: bool
    var sqDoorbell: nat
    var cqDoorbell: nat
    ghost var devIdx: nat
    ghost var devPhase: bool
    ghost var pending: seq<nat>
    /** Every command submitted. */
    ghost var commands: seq<nat>

    ghost function View(): Ring
      reads this, cq
    {
      Ring(cq[..], cqIdx, cqPhase, devIdx, devPhase, pending)
    }

    ghost predicate Valid()
      reads this, cq, sq
    {
      Ok(View()) && sq.Length == cq.Length && sqIdx < sq.Length && Holds(sq[..], sqIdx, commands)
    }

    constructor (qe: nat)
      requires qe > 0
      ensures Valid() && View() == Fresh(qe) && commands == []
      ensures sqIdx == cqIdx == 0 && !cqPhase && pending == [] && forall i :: 0 <= i < cq.Length ==> !cq[i].phase
    {
      sq, cq := new nat[qe](_ => 0), new Cqe[qe](_ => Cqe(false, 0));
      sqIdx, cqIdx, cqPhase, sqDoorbell, cqDoorbell := 0, 0, false, 0, 0;
      devIdx, devPhase, pending, commands := 0, true, [], [];
      new;
      FreshOk(qe);
      assert cq[..] == Fresh(qe).cq;
    }

    /** `nvme_queue_done_nobarrier`. */
    method IsDone() returns (done: bool)
      requires Valid()
      ensures done == Done(View()) && (done <==> pending != [])
    {
      DoneExactly(View());
      done := cq[cqIdx].phase != cqPhase;
    }

    /** `nvme_submit`: the ring goes on holding the newest commands in order, whatever its size, and the
        doorbell names the slot after the last of them. */
    method Submit(cmd: nat)
      requires Valid()
      modifies this`sqIdx, this`sqDoorbell, this`commands, sq
      ensures Valid() && commands == old(commands) + [cmd] && Holds(sq[..], sqDoorbell, commands)
    {
      hide Holds;
      HoldsMore(sq[..], sqIdx, commands, cmd);
      ghost var was := sq[..];
      sq[sqIdx] := cmd;
      sqIdx := sqIdx + 1;
      if sqIdx == sq.Length {
        sqIdx := 0;
      }
      sqDoorbell := sqIdx;
      commands := commands + [cmd];
      assert sq[..] == was[old(sqIdx) := cmd];
    }

    /** The tail of `nvme_submit_and_wait`, reached when the test has come out true: the oldest completion
        is consumed. */
    method Reap() returns (value: nat)
      requires Valid() && Done(View())
      modifies this`cqIdx, this`cqPhase, this`cqDoorbell, this`pending
      ensures Valid() && View() == Consume(old(View())) && old(pending) == [value] + pending && cqDoorbell == cqIdx
    {
      DoneExactly(View());
      ConsumeOk(View());
      value := cq[cqIdx].value;
      cqIdx := cqIdx + 1;
      if cqIdx == cq.Length {
        cqIdx := 0;
        cqPhase := !cqPhase;
      }
      cqDoorbell := cqIdx;
      pending := pending[1..];
    }
  }
}
