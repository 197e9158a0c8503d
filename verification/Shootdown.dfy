/** The TLB shootdown handshake of `src/platform/x86-64/mmu.c`: any number of concurrent calls of
    `arch_mmu_invalidate`, each posting requests to other CPUs' mailboxes, and the interrupt handlers
    that serve them.  Every store, interrupt and counter update is a step of its own. */
module Shootdown {

  /** Where a call stands: looking at CPU `i`, holding its mailbox lock with none, one, two or all three
      fields stored, or waiting for its counter. */
  datatype Pc = Scan | Locked | CounterSet | VirtSet | PagesSet | Wait

  /** Where the handler of a CPU stands. */
  datatype HandlerPc = Idle | Entered | Flushed | Counted

  /** A call in progress, named by the address of its counter.  `posted`, `counted` and `start` are
      auxiliary: the CPUs sent to, those that have counted, and the log length when it began. */
  datatype Call = Call(virt: nat, pages: nat, pc: Pc, i: nat, num: nat, counter: nat,
                       posted: set<nat>, counted: set<nat>, start: nat)

  /** The mailbox of a CPU, its pending interrupt and its handler.  `owner` is auxiliary: the call that
      took the lock. */
  datatype Box = Box(locked: bool, counter: nat, virt: nat, pages: nat, pending: bool, pc: HandlerPc, owner: nat)

  datatype Flush = Flush(cpu: nat, virt: nat, pages: nat)

  /** `log` is the sequence of invalidations done by handlers. */
  datatype Sys = Sys(boxes: seq<Box>, calls: map<nat, Call>, log: seq<Flush>)

  // ------------------------------------------------------------------ steps

  datatype Op =
    | Begin(r: nat, virt: nat, pages: nat)
    | Skip(r: nat)          // CPU i is the caller's own or runs something else
    | Lock(r: nat)          // kspinlock_acquire on CPU i's mailbox
    | StoreCounter(r: nat)
    | StoreVirt(r: nat)
    | StorePages(r: nat)
    | Send(r: nat)          // num_other_cpus++ and the interrupt
    | EndScan(r: nat)
    | Return(r: nat)
    | Enter(j: nat)         // CPU j takes the interrupt
    | Invalidate(j: nat)
    | Count(j: nat)
    | Release(j: nat)

  ghost predicate At(s: Sys, r: nat, pc: Pc) { r in s.calls && s.calls[r].pc == pc }

  ghost predicate AtCpu(s: Sys, r: nat, pc: Pc) { At(s, r, pc) && s.calls[r].i < |s.boxes| }

  ghost predicate HandlerAt(s: Sys, j: nat, pc: HandlerPc) { j < |s.boxes| && s.boxes[j].pc == pc }

  ghost predicate Enabled(s: Sys, op: Op) {
    match op
    case Begin(r, _, _) => r !in s.calls
    case Skip(r) => AtCpu(s, r, Scan)
    case Lock(r) => AtCpu(s, r, Scan) && !s.boxes[s.calls[r].i].locked
    case StoreCounter(r) => AtCpu(s, r, Locked)
    case StoreVirt(r) => AtCpu(s, r, CounterSet)
    case StorePages(r) => AtCpu(s, r, VirtSet)
    case Send(r) => AtCpu(s, r, PagesSet)
    case EndScan(r) => At(s, r, Scan) && s.calls[r].i == |s.boxes|
    case Return(r) => At(s, r, Wait) && s.calls[r].counter == s.calls[r].num
    case Enter(j) => HandlerAt(s, j, Idle) && s.boxes[j].pending
    case Invalidate(j) => HandlerAt(s, j, Entered)
    case Count(j) => HandlerAt(s, j, Flushed)
    case Release(j) => HandlerAt(s, j, Counted)
  }

  ghost function SetCall(s: Sys, r: nat, c: Call): Sys { s.(calls := s.calls[r := c]) }

  ghost function SetBox(s: Sys, j: nat, b: Box): Sys
    requires j < |s.boxes|
  {
    s.(boxes := s.boxes[j := b])
  }

  /** `Count` writes through the mailbox's counter pointer; if the call it names were gone, the write
      would go astray and nothing here would record it. */
  ghost function Step(s: Sys, op: Op): Sys
    requires Enabled(s, op)
  {
    match op
    case Begin(r, virt, pages) => SetCall(s, r, Call(virt, pages, Scan, 0, 0, 0, {}, {}, |s.log|))
    case Skip(r) => SetCall(s, r, s.calls[r].(i := s.calls[r].i + 1))
    case Lock(r) =>
      var c := s.calls[r];
      SetCall(SetBox(s, c.i, s.boxes[c.i].(locked := true, owner := r)), r, c.(pc := Locked))
    case StoreCounter(r) =>
      var c := s.calls[r];
      SetCall(SetBox(s, c.i, s.boxes[c.i].(counter := r)), r, c.(pc := CounterSet))
    case StoreVirt(r) =>
      var c := s.calls[r];
      SetCall(SetBox(s, c.i, s.boxes[c.i].(virt := c.virt)), r, c.(pc := VirtSet))
    case StorePages(r) =>
      var c := s.calls[r];
      SetCall(SetBox(s, c.i, s.boxes[c.i].(pages := c.pages)), r, c.(pc := PagesSet))
    case Send(r) =>
      var c := s.calls[r];
      SetCall(SetBox(s, c.i, s.boxes[c.i].(pending := true)), r,
              c.(num := c.num + 1, posted := c.posted + {c.i}, i := c.i + 1, pc := Scan))
    case EndScan(r) => SetCall(s, r, s.calls[r].(pc := Wait))
    case Return(r) => s.(calls := s.calls - {r})
    case Enter(j) => SetBox(s, j, s.boxes[j].(pending := false, pc := Entered))
    case Invalidate(j) =>
      SetBox(s, j, s.boxes[j].(pc := Flushed)).(log := s.log + [Flush(j, s.boxes[j].virt, s.boxes[j].pages)])
    case Count(j) =>
      var b := s.boxes[j];
      var t := SetBox(s, j, b.(pc := Counted));
      if b.counter in s.calls then
        var c := s.calls[b.counter];
        SetCall(t, b.counter, c.(counter := c.counter + 1, counted := c.counted + {j}))
      else t
    case Release(j) => SetBox(s, j, s.boxes[j].(pc := Idle, locked := false))
  }

  // ------------------------------------------------------------------ invariant

  /** CPU `j` has invalidated the range of call `c` since the call began. */
  ghost predicate Done(s: Sys, c: Call, j: nat) {
    exists k :: c.start <= k < |s.log| && s.log[k] == Flush(j, c.virt, c.pages)
  }

  predicate Posting(pc: Pc) { pc != Scan && pc != Wait }

  /** How far the fields of the mailbox a call is posting to are set. */
  predicate Stored(b: Box, r: nat, c: Call) {
    && (c.pc != Locked ==> b.counter == r)
    && (c.pc == VirtSet || c.pc == PagesSet ==> b.virt == c.virt)
    && (c.pc == PagesSet ==> b.pages == c.pages)
  }

  /** The request of call `c`, named `r`, sits complete in mailbox `b` of CPU `j`, not counted yet. */
  ghost predicate Carries(s: Sys, b: Box, j: nat, r: nat, c: Call) {
    && b.counter == r && b.virt == c.virt && b.pages == c.pages && j !in c.counted
    && (b.pending <==> b.pc == Idle) && (b.pc == Flushed ==> Done(s, c, j))
  }

  ghost predicate BoxOk(s: Sys, j: nat)
    requires j < |s.boxes|
  {
    var b := s.boxes[j];
    if !b.locked then !b.pending && b.pc == Idle
    else if b.pc == Counted then !b.pending
    else
      && b.owner in s.calls
      && var c := s.calls[b.owner];
         if j in c.posted then Carries(s, b, j, b.owner, c)
         else !b.pending && b.pc == Idle && c.i == j && Posting(c.pc) && Stored(b, b.owner, c)
  }

  /** Call `r` holds the lock of CPU `j`'s mailbox and has not been counted there. */
  ghost predicate HoldsBox(s: Sys, r: nat, j: nat) {
    j < |s.boxes| && s.boxes[j].locked && s.boxes[j].owner == r && s.boxes[j].pc != Counted
  }

  ghost predicate CallOk(s: Sys, r: nat)
    requires r in s.calls
  {
    var c := s.calls[r];
    && c.counter == |c.counted| && c.num == |c.posted| && c.counted <= c.posted
    && c.i <= |s.boxes| && c.start <= |s.log|
    && (forall j :: j in c.posted ==> j < c.i)
    && (forall j :: j in c.counted ==> Done(s, c, j))
    && (forall j :: j in c.posted && j !in c.counted ==> HoldsBox(s, r, j))
    && (Posting(c.pc) ==> HoldsBox(s, r, c.i))
  }

  ghost predicate Inv(s: Sys) {
    && (forall j: nat :: j < |s.boxes| ==> BoxOk(s, j))
    && (forall r :: r in s.calls ==> CallOk(s, r))
  }

  /** The box and the call a step writes. */
  ghost function BoxOf(s: Sys, op: Op): nat
    requires Enabled(s, op)
  {
    match op
    case Begin(_, _, _) => |s.boxes|
    case Skip(_) => |s.boxes|
    case EndScan(_) => |s.boxes|
    case Return(_) => |s.boxes|
    case Lock(r) => s.calls[r].i
    case StoreCounter(r) => s.calls[r].i
    case StoreVirt(r) => s.calls[r].i
    case StorePages(r) => s.calls[r].i
    case Send(r) => s.calls[r].i
    case Enter(j) => j
    case Invalidate(j) => j
    case Count(j) => j
    case Release(j) => j
  }

  ghost function CallOf(s: Sys, op: Op): nat
    requires Enabled(s, op)
  {
    if op.Enter? || op.Invalidate? || op.Release? then s.boxes[op.j].owner
    else if op.Count? then s.boxes[op.j].counter else op.r
  }

  lemma LogKeepsDone(s: Sys, s': Sys, c: Call, j: nat)
    requires s.log <= s'.log && Done(s, c, j)
    ensures Done(s', c, j)
  {
    var k :| c.start <= k < |s.log| && s.log[k] == Flush(j, c.virt, c.pages);
    assert s'.log[k] == s.log[k];
  }

  /** The facts about the box and the call a step touches. */
  lemma Facts(s: Sys, op: Op)
    requires Inv(s) && Enabled(s, op)
    ensures BoxOf(s, op) < |s.boxes| ==> BoxOk(s, BoxOf(s, op))
    ensures CallOf(s, op) in s.calls ==> CallOk(s, CallOf(s, op))
  {}

  lemma LogGrows(s: Sys, op: Op)
    requires Enabled(s, op)
    ensures s.log <= Step(s, op).log && |Step(s, op).boxes| == |s.boxes|
    ensures forall r :: r in Step(s, op).calls && r != CallOf(s, op) ==>
              r in s.calls && Step(s, op).calls[r] == s.calls[r]
    ensures forall r :: r in s.calls && r != CallOf(s, op) ==> r in Step(s, op).calls
    ensures forall j :: 0 <= j < |s.boxes| && j != BoxOf(s, op) ==> Step(s, op).boxes[j] == s.boxes[j]
  {}

  /** Handlers work on the call that owns their mailbox, which is still in progress. */
  lemma CounterLive(s: Sys, j: nat)
    requires Inv(s) && j < |s.boxes| && (s.boxes[j].pc == Entered || s.boxes[j].pc == Flushed)
    ensures s.boxes[j].locked && s.boxes[j].counter in s.calls && s.boxes[j].counter == s.boxes[j].owner
    ensures j in s.calls[s.boxes[j].counter].posted && j !in s.calls[s.boxes[j].counter].counted
  {
    assert BoxOk(s, j);
  }

  // ------------------------------------------------------------------ every step keeps it

  /** All posted CPUs of a call that may return have counted, hence invalidated. */
  lemma AllCounted(s: Sys, r: nat)
    requires Inv(s) && Enabled(s, Return(r))
    ensures s.calls[r].counted == s.calls[r].posted
    ensures forall j :: j in s.calls[r].posted ==> Done(s, s.calls[r], j)
  {
    assert CallOk(s, r);
    SameCard(s.calls[r].counted, s.calls[r].posted);
  }

  lemma SameCard(a: set<nat>, b: set<nat>)
    requires a <= b && |a| == |b|
    ensures a == b
  {
    assert |b - a| == 0;
  }

  /** A mailbox the step does not write. */
  lemma OtherBox(s: Sys, op: Op, j: nat)
    requires Inv(s) && Enabled(s, op) && j < |s.boxes| && j != BoxOf(s, op)
    ensures |Step(s, op).boxes| == |s.boxes| && BoxOk(Step(s, op), j)
  {
    var s', b := Step(s, op), s.boxes[j];
    LogGrows(s, op);
    assert BoxOk(s, j);
    if b.locked && b.pc != Counted {
      var r := b.owner;
      var c := s.calls[r];
      assert CallOk(s, r);
      if op == Return(r) { AllCounted(s, r); }
      if Done(s, c, j) { LogKeepsDone(s, s', c, j); }
      SameStart(s, op, r, j);
      hide Done;
    }
  }

  /** A step changes nothing of a call that `Done` looks at. */
  lemma SameStart(s: Sys, op: Op, r: nat, j: nat)
    requires Enabled(s, op) && r in s.calls && r in Step(s, op).calls
    ensures var c, c' := s.calls[r], Step(s, op).calls[r];
            c'.virt == c.virt && c'.pages == c.pages && c'.start == c.start
    ensures Done(Step(s, op), Step(s, op).calls[r], j) <==> Done(Step(s, op), s.calls[r], j)
  {
    hide Done;
    var s' := Step(s, op);
    var c, c' := s.calls[r], s'.calls[r];
    assert c'.virt == c.virt && c'.pages == c.pages && c'.start == c.start;
    DoneSame(s', c, c', j);
  }

  lemma DoneSame(s: Sys, c: Call, c': Call, j: nat)
    requires c'.virt == c.virt && c'.pages == c.pages && c'.start == c.start
    ensures Done(s, c', j) <==> Done(s, c, j)
  {}

  /** The mailbox the step writes. */
  lemma OwnBox(s: Sys, op: Op)
    requires Inv(s) && Enabled(s, op) && BoxOf(s, op) < |s.boxes|
    ensures |Step(s, op).boxes| == |s.boxes| && BoxOk(Step(s, op), BoxOf(s, op))
  {
    var j, s' := BoxOf(s, op), Step(s, op);
    Facts(s, op);
    match op {
      case Enter(_) =>
      case Invalidate(_) =>
        assert s'.log[|s.log|] == Flush(j, s.boxes[j].virt, s.boxes[j].pages);
        CounterLive(s, j);
        assert CallOk(s, s.boxes[j].owner);
        assert Done(s', s.calls[s.boxes[j].owner], j);
      case Count(_) =>
      case Release(_) =>
      case Lock(r) =>
      case StoreCounter(r) =>
      case StoreVirt(r) =>
      case StorePages(r) =>
      case Send(r) =>
    }
  }

  /** A call the step does not change: its mailboxes may be served. */
  lemma OtherCall(s: Sys, op: Op, r: nat)
    requires Inv(s) && Enabled(s, op) && r in s.calls && r in Step(s, op).calls && Step(s, op).calls[r] == s.calls[r]
    ensures CallOk(Step(s, op), r)
  {
    var c, s' := s.calls[r], Step(s, op);
    LogGrows(s, op);
    assert CallOk(s, r);
    forall j | j in c.counted ensures Done(s', c, j) { LogKeepsDone(s, s', c, j); }
    hide Done;
    forall j | HoldsBox(s, r, j) ensures HoldsBox(s', r, j) {
      if j == BoxOf(s, op) { assert BoxOk(s, j); KeepsBox(s, op, r); }
    }
  }

  /** The written mailbox stays with a call that the step leaves as it is. */
  lemma KeepsBox(s: Sys, op: Op, r: nat)
    requires Inv(s) && Enabled(s, op) && BoxOf(s, op) < |s.boxes| && HoldsBox(s, r, BoxOf(s, op))
    requires r in s.calls && r in Step(s, op).calls && Step(s, op).calls[r] == s.calls[r]
    ensures HoldsBox(Step(s, op), r, BoxOf(s, op))
  {
    var j := BoxOf(s, op);
    assert BoxOk(s, j) && CallOk(s, r);
    if op.Count? { CounterLive(s, j); }
  }

  /** The counted CPUs of a call stay done, whatever the step changes of the call. */
  lemma CountedDone(s: Sys, op: Op, r: nat)
    requires Inv(s) && Enabled(s, op) && r in s.calls && r in Step(s, op).calls
    ensures forall j :: j in s.calls[r].counted ==> Done(Step(s, op), Step(s, op).calls[r], j)
  {
    assert CallOk(s, r);
    LogGrows(s, op);
    forall j | j in s.calls[r].counted ensures Done(Step(s, op), Step(s, op).calls[r], j) {
      LogKeepsDone(s, Step(s, op), s.calls[r], j);
      SameStart(s, op, r, j);
    }
  }

  /** The call whose counter a handler increments. */
  lemma CountCall(s: Sys, j: nat)
    requires Inv(s) && Enabled(s, Count(j))
    ensures CallOf(s, Count(j)) in s.calls && CallOk(Step(s, Count(j)), CallOf(s, Count(j)))
  {
    var op, s' := Count(j), Step(s, Count(j));
    CounterLive(s, j);
    var r := s.boxes[j].counter;
    var c, c' := s.calls[r], s'.calls[r];
    CountedDone(s, op, r);
    assert BoxOk(s, j) && CallOk(s, r);
    LogKeepsDone(s, s', c, j);
    SameStart(s, op, r, j);
    hide Done, Inv;
    forall i | i in c'.posted && i !in c'.counted ensures HoldsBox(s', r, i) { assert HoldsBox(s, r, i); }
    if Posting(c.pc) { assert HoldsBox(s, r, c.i); }
  }

  lemma SendCall(s: Sys, r: nat)
    requires Inv(s) && Enabled(s, Send(r))
    ensures CallOk(Step(s, Send(r)), r)
  {
    var op, s' := Send(r), Step(s, Send(r));
    var c := s.calls[r];
    CountedDone(s, op, r);
    assert BoxOk(s, c.i) && CallOk(s, r);
    hide Done, Inv;
    forall j | j in c.posted && j !in c.counted ensures HoldsBox(s', r, j) { assert HoldsBox(s, r, j); }
  }

  /** The steps of a call that only move it along or store a field. */
  lemma PostCall(s: Sys, op: Op)
    requires Inv(s) && Enabled(s, op)
    requires op.Skip? || op.Lock? || op.StoreCounter? || op.StoreVirt? || op.StorePages? || op.EndScan?
    ensures CallOk(Step(s, op), op.r)
  {
    var r, s' := op.r, Step(s, op);
    var c := s.calls[r];
    CountedDone(s, op, r);
    assert CallOk(s, r);
    if c.i < |s.boxes| { assert BoxOk(s, c.i); }
    hide Done, Inv, Carries;
    forall j | j in c.posted && j !in c.counted ensures HoldsBox(s', r, j) { assert HoldsBox(s, r, j); }
  }

  /** The call the step changes. */
  lemma OwnCall(s: Sys, op: Op)
    requires Inv(s) && Enabled(s, op) && CallOf(s, op) in Step(s, op).calls
    ensures CallOk(Step(s, op), CallOf(s, op))
  {
    var r := CallOf(s, op);
    match op
    case Count(j) => CountCall(s, j);
    case Send(_) => SendCall(s, r);
    case Begin(_, _, _) =>
    case Return(_) =>
    case Enter(_) => OtherCall(s, op, r);
    case Invalidate(_) => OtherCall(s, op, r);
    case Release(_) => OtherCall(s, op, r);
    case _ => PostCall(s, op);
  }

  lemma StepKeepsInv(s: Sys, op: Op)
    requires Inv(s) && Enabled(s, op)
    ensures Inv(Step(s, op))
  {
    hide Inv, BoxOk, CallOk, Enabled, BoxOf, CallOf, Step;
    var s' := Step(s, op);
    LogGrows(s, op);
    InvParts(s');
    forall j: nat | j < |s'.boxes| ensures BoxOk(s', j) {
      if j == BoxOf(s, op) { OwnBox(s, op); } else { OtherBox(s, op, j); }
    }
    forall r | r in s'.calls ensures CallOk(s', r) {
      if r == CallOf(s, op) { OwnCall(s, op); } else { OtherCall(s, op, r); }
    }
  }

  lemma InvParts(s: Sys)
    ensures (forall j: nat :: j < |s.boxes| ==> BoxOk(s, j)) && (forall r :: r in s.calls ==> CallOk(s, r)) ==> Inv(s)
  {}

  // ------------------------------------------------------------------ every run

  /** `n` CPUs, no call in progress. */
  function Init(n: nat): Sys { Sys(seq(n, _ => Box(false, 0, 0, 0, false, Idle, 0)), map[], []) }

  ghost predicate IsRun(s: Sys, ops: seq<Op>)
    decreases |ops|
  {
    ops == [] || (Enabled(s, ops[0]) && IsRun(Step(s, ops[0]), ops[1..]))
  }

  ghost function RunTo(s: Sys, ops: seq<Op>): Sys
    requires IsRun(s, ops)
    decreases |ops|
  {
    if ops == [] then s else RunTo(Step(s, ops[0]), ops[1..])
  }

  /** A run grows by a step that is enabled where it ends. */
  lemma {:induction false} RunMore(s: Sys, ops: seq<Op>, op: Op)
    ensures IsRun(s, ops + [op]) <==> IsRun(s, ops) && Enabled(RunTo(s, ops), op)
    ensures IsRun(s, ops + [op]) ==> RunTo(s, ops + [op]) == Step(RunTo(s, ops), op)
    decreases |ops|
  {
    hide Enabled, Step;
    if ops == [] {
      assert ops + [op] == [op] && [op][1..] == [];
    } else {
      assert (ops + [op])[1..] == ops[1..] + [op];
      if Enabled(s, ops[0]) { RunMore(Step(s, ops[0]), ops[1..], op); }
    }
  }

  lemma {:induction false} RunKeepsInv(s: Sys, ops: seq<Op>)
    requires Inv(s) && IsRun(s, ops)
    ensures Inv(RunTo(s, ops))
    decreases |ops|
  {
    hide Inv, Step, Enabled;
    if ops != [] {
      StepKeepsInv(s, ops[0]);
      RunKeepsInv(Step(s, ops[0]), ops[1..]);
    }
  }

  /** `arch_mmu_invalidate` returns only after every CPU it posted to has invalidated its range, and
      it has been counted exactly once by each. */
  lemma ReturnsWhenFlushed(n: nat, ops: seq<Op>, r: nat)
    requires IsRun(Init(n), ops) && Enabled(RunTo(Init(n), ops), Return(r))
    ensures var s := RunTo(Init(n), ops); var c := s.calls[r];
            (forall j :: j in c.posted ==> Done(s, c, j)) && c.counter == |c.posted| && c.counted == c.posted
  {
    RunKeepsInv(Init(n), ops);
    AllCounted(RunTo(Init(n), ops), r);
    assert CallOk(RunTo(Init(n), ops), r);
  }

  /** A handler about to invalidate or to count finds its lock held, its own CPU among the posted and
      not counted, and the counter it will write belongs to a call still in progress. */
  lemma HandlerSafe(n: nat, ops: seq<Op>, j: nat)
    requires IsRun(Init(n), ops)
    requires (HandlerAt(RunTo(Init(n), ops), j, Entered) || HandlerAt(RunTo(Init(n), ops), j, Flushed))
    ensures var s := RunTo(Init(n), ops); var b := s.boxes[j];
            b.locked && b.counter in s.calls && j in s.calls[b.counter].posted && j !in s.calls[b.counter].counted
            && b.virt == s.calls[b.counter].virt && b.pages == s.calls[b.counter].pages
  {
    RunKeepsInv(Init(n), ops);
    CounterLive(RunTo(Init(n), ops), j);
    assert BoxOk(RunTo(Init(n), ops), j);
  }

  lemma FieldsKept(s: Sys, op: Op, j: nat)
    requires Inv(s) && Enabled(s, op) && j < |s.boxes|
    requires s.boxes[j].pending || s.boxes[j].pc == Entered || s.boxes[j].pc == Flushed
    ensures j < |Step(s, op).boxes|
    ensures var b, b' := s.boxes[j], Step(s, op).boxes[j];
            b'.counter == b.counter && b'.virt == b.virt && b'.pages == b.pages && b'.locked
  {
    LogGrows(s, op);
    Facts(s, op);
    assert BoxOk(s, j);
  }

  /** The fields of a posted request stay as they are until the handler has counted it. */
  lemma FieldsStable(n: nat, ops: seq<Op>, op: Op, j: nat)
    requires IsRun(Init(n), ops) && Enabled(RunTo(Init(n), ops), op)
    requires var s := RunTo(Init(n), ops);
             j < |s.boxes| && (s.boxes[j].pending || s.boxes[j].pc == Entered || s.boxes[j].pc == Flushed)
    ensures j < |Step(RunTo(Init(n), ops), op).boxes|
    ensures var b, b' := RunTo(Init(n), ops).boxes[j], Step(RunTo(Init(n), ops), op).boxes[j];
            b'.counter == b.counter && b'.virt == b.virt && b'.pages == b.pages && b'.locked
  {
    hide Step, Enabled;
    RunKeepsInv(Init(n), ops);
    FieldsKept(RunTo(Init(n), ops), op, j);
  }
}
