/** Which CPUs a TLB shootdown reaches (`arch_mmu_invalidate`, `src/platform/x86-64/mmu.c`): the handshake of
    `Shootdown` together with the page table each CPU runs.  CPUs load tables at any time; a load empties the
    TLB of user translations.  The loop looks at each CPU once and posts to those that run the table. */
module Coherence {
  import opened Options
  import opened Shootdown

  /** What a call was made for: the caller's CPU, the table, and `do_shootdown`.  `began` and `others` are
      auxiliary: the time it began, and the other CPUs that ran the table then. */
  datatype Info = Info(own: nat, pt: nat, shoot: bool, began: nat, others: set<nat>)

  /** `runs` is the table of the process each CPU runs, `loaded` the time it loaded it.  `chosen` holds the
      calls that have found the CPU they look at to run their table. */
  datatype Full = Full(
    sys: Sys, runs: seq<Option<nat>>, loaded: seq<nat>, time: nat, info: map<nat, Info>, chosen: set<nat>)

  datatype FOp =
    | Start(r: nat, virt: nat, pages: nat, own: nat, pt: nat, shoot: bool)
    | Choose(r: nat)                // CPU i runs the table
    | Base(op: Op)
    | Load(j: nat, to: Option<nat>) // CPU j switches to another table

  ghost predicate Runs(f: Full, j: nat, pt: nat) { j < |f.runs| && f.runs[j] == Some(pt) }

  /** The CPU the call looks at is to be skipped. */
  ghost predicate Skips(f: Full, r: nat)
    requires r in f.info && r in f.sys.calls
  {
    var i := f.sys.calls[r].i;
    !f.info[r].shoot || i == f.info[r].own || !Runs(f, i, f.info[r].pt)
  }

  ghost predicate FEnabled(f: Full, op: FOp) {
    match op
    case Start(r, virt, pages, own, _, _) => r !in f.info && Enabled(f.sys, Begin(r, virt, pages)) && own < |f.runs|
    case Choose(r) => r in f.info && r !in f.chosen && AtCpu(f.sys, r, Scan) && !Skips(f, r)
    case Base(op) =>
      && Enabled(f.sys, op) && !op.Begin?
      && (op.Skip? ==> op.r in f.info && op.r !in f.chosen && Skips(f, op.r))
      && (op.Lock? ==> op.r in f.chosen)
    case Load(j, _) => j < |f.runs|
  }

  ghost function Others(f: Full, own: nat, pt: nat): set<nat> {
    set j: nat | j < |f.runs| && j != own && f.runs[j] == Some(pt)
  }

  /** The CPUs that run the table. */
  ghost function Running(f: Full, pt: nat): set<nat> { set j: nat | j < |f.runs| && f.runs[j] == Some(pt) }

  ghost function FStep(f: Full, op: FOp): Full
    requires FEnabled(f, op)
  {
    match op
    case Start(r, virt, pages, own, pt, shoot) =>
      f.(sys := Step(f.sys, Begin(r, virt, pages)),
         info := f.info[r := Info(own, pt, shoot, f.time, Others(f, own, pt))])
    case Choose(r) => f.(chosen := f.chosen + {r})
    case Base(op) =>
      f.(sys := Step(f.sys, op),
         chosen := if op.Lock? then f.chosen - {op.r} else f.chosen,
         info := if op.Return? then f.info - {op.r} else f.info)
    case Load(j, pt) =>
      if j < |f.loaded| then f.(runs := f.runs[j := pt], loaded := f.loaded[j := f.time + 1], time := f.time + 1) else f
  }

  /** CPU `j` has run the table of call `r` ever since before the call. */
  ghost predicate Stays(f: Full, r: nat, j: nat)
    requires r in f.info
  {
    Runs(f, j, f.info[r].pt) && j < |f.loaded| && f.loaded[j] <= f.info[r].began && j != f.info[r].own
  }

  /** Every such CPU ran the table when the call began, and has been posted to if the loop is past it. */
  ghost predicate Covered(f: Full, r: nat)
    requires r in f.info && r in f.sys.calls
  {
    && f.info[r].began <= f.time
    && (f.sys.calls[r].pc == Wait ==> f.sys.calls[r].i == |f.sys.boxes|)
    && (forall j: nat :: Stays(f, r, j) ==> j in f.info[r].others)
    && (f.info[r].shoot ==> forall j: nat :: Stays(f, r, j) && j < f.sys.calls[r].i ==> j in f.sys.calls[r].posted)
  }

  ghost predicate FInv(f: Full) {
    && Inv(f.sys) && f.info.Keys == f.sys.calls.Keys && |f.runs| == |f.loaded| == |f.sys.boxes|
    && (forall j: nat :: j < |f.loaded| ==> f.loaded[j] <= f.time)
    && (forall r :: r in f.info ==> Covered(f, r))
  }

  /** What a step of the handshake does to the calls. */
  lemma CallsAfter(s: Sys, op: Op, r: nat)
    requires Enabled(s, op)
    ensures |Step(s, op).boxes| == |s.boxes|
    ensures r in Step(s, op).calls <==> (r in s.calls && op != Return(r)) || (op.Begin? && op.r == r)
    ensures r in s.calls && r in Step(s, op).calls && !op.Begin? ==>
              var c, c' := s.calls[r], Step(s, op).calls[r];
              && c.posted <= c'.posted
              && (c'.i == c.i || (c'.i == c.i + 1 && op.Skip? && op.r == r)
                  || (c'.i == c.i + 1 && op == Send(r) && c.i in c'.posted))
              && (c'.pc == Wait ==> c'.i == c.i && (c.pc == Wait || c.i == |s.boxes|))
  {}

  lemma BaseCovered(f: Full, op: Op, r: nat)
    requires FInv(f) && FEnabled(f, Base(op)) && r in FStep(f, Base(op)).info
    ensures r in FStep(f, Base(op)).sys.calls && Covered(FStep(f, Base(op)), r)
  {
    hide Inv, Step, Enabled;
    CallsAfter(f.sys, op, r);
    assert Covered(f, r);
    var f' := FStep(f, Base(op));
    forall j: nat ensures Stays(f', r, j) <==> Stays(f, r, j) {}
  }

  lemma StartCovered(f: Full, op: FOp, q: nat)
    requires FInv(f) && FEnabled(f, op) && op.Start? && q in FStep(f, op).info
    ensures q in FStep(f, op).sys.calls && Covered(FStep(f, op), q)
  {
    var f' := FStep(f, op);
    if q != op.r {
      assert Covered(f, q);
      forall j: nat ensures Stays(f', q, j) <==> Stays(f, q, j) {}
    }
  }

  lemma LoadCovered(f: Full, j: nat, pt: Option<nat>, r: nat)
    requires FInv(f) && FEnabled(f, Load(j, pt)) && r in f.info
    ensures Covered(FStep(f, Load(j, pt)), r)
  {
    var f' := FStep(f, Load(j, pt));
    assert Covered(f, r);
    forall k: nat ensures Stays(f', r, k) ==> Stays(f, r, k) {}
  }

  lemma StepKeepsFInv(f: Full, op: FOp)
    requires FInv(f) && FEnabled(f, op)
    ensures FInv(FStep(f, op))
  {
    hide Inv, Covered, Step, Enabled;
    var f' := FStep(f, op);
    match op
    case Start(r, virt, pages, own, pt, shoot) =>
      StepKeepsInv(f.sys, Begin(r, virt, pages));
      forall q ensures q in f'.sys.calls <==> q in f.sys.calls || q == r {
        CallsAfter(f.sys, Begin(r, virt, pages), q);
      }
      CallsAfter(f.sys, Begin(r, virt, pages), r);
      forall q | q in f'.info ensures Covered(f', q) { StartCovered(f, op, q); }
    case Choose(r) =>
      forall q | q in f'.info ensures Covered(f', q) { SameCovered(f, f', q); }
    case Base(o) =>
      StepKeepsInv(f.sys, o);
      forall q ensures q in f'.sys.calls <==> q in f.sys.calls && o != Return(q) { CallsAfter(f.sys, o, q); }
      forall q | q in f'.info ensures Covered(f', q) { BaseCovered(f, o, q); }
      CallsAfter(f.sys, o, 0);
    case Load(j, pt) =>
      forall q | q in f'.info ensures Covered(f', q) { LoadCovered(f, j, pt, q); }
  }

  lemma SameCovered(f: Full, f': Full, r: nat)
    requires r in f.info && r in f.sys.calls && Covered(f, r) && f' == f.(chosen := f'.chosen)
    ensures Covered(f', r)
  {
    forall j: nat ensures Stays(f', r, j) <==> Stays(f, r, j) {}
  }

  // ------------------------------------------------------------------ every run

  ghost predicate FIsRun(f: Full, ops: seq<FOp>)
    decreases |ops|
  {
    ops == [] || (FEnabled(f, ops[0]) && FIsRun(FStep(f, ops[0]), ops[1..]))
  }

  ghost function FRunTo(f: Full, ops: seq<FOp>): Full
    requires FIsRun(f, ops)
    decreases |ops|
  {
    if ops == [] then f else FRunTo(FStep(f, ops[0]), ops[1..])
  }

  /** A run grows by a step that is enabled where it ends. */
  lemma {:induction false} RunMore(f: Full, ops: seq<FOp>, op: FOp)
    ensures FIsRun(f, ops + [op]) <==> FIsRun(f, ops) && FEnabled(FRunTo(f, ops), op)
    ensures FIsRun(f, ops + [op]) ==> FRunTo(f, ops + [op]) == FStep(FRunTo(f, ops), op)
    decreases |ops|
  {
    hide FEnabled, FStep;
    if ops == [] {
      assert ops + [op] == [op] && [op][1..] == [];
    } else {
      assert (ops + [op])[1..] == ops[1..] + [op];
      if FEnabled(f, ops[0]) { RunMore(FStep(f, ops[0]), ops[1..], op); }
    }
  }

  /** `n` CPUs that run no process. */
  ghost function FInit(n: nat): Full { Full(Init(n), seq(n, _ => None), seq(n, _ => 0), 0, map[], {}) }

  lemma {:induction false} RunKeepsFInv(f: Full, ops: seq<FOp>)
    requires FInv(f) && FIsRun(f, ops)
    ensures FInv(FRunTo(f, ops))
    decreases |ops|
  {
    hide FInv, FStep, FEnabled;
    if ops != [] {
      StepKeepsFInv(f, ops[0]);
      RunKeepsFInv(FStep(f, ops[0]), ops[1..]);
    }
  }

  /** When `arch_mmu_invalidate` returns, every CPU but the caller's that runs the table has invalidated the
      range since the call began or has loaded the table since then, provided the call shot at other CPUs
      or none ran the table when it began. */
  lemma NoStaleCpu(n: nat, ops: seq<FOp>, r: nat, j: nat)
    requires FIsRun(FInit(n), ops) && FEnabled(FRunTo(FInit(n), ops), Base(Return(r)))
    requires var f := FRunTo(FInit(n), ops); r in f.info && (f.info[r].shoot || f.info[r].others == {})
    requires var f := FRunTo(FInit(n), ops); Runs(f, j, f.info[r].pt) && j != f.info[r].own
    ensures var f := FRunTo(FInit(n), ops);
      r in f.sys.calls && j < |f.loaded| && (Done(f.sys, f.sys.calls[r], j) || f.loaded[j] > f.info[r].began)
  {
    hide FIsRun, FRunTo;
    var f := FRunTo(FInit(n), ops);
    assert FInv(FInit(n)) by { hide FRunTo; }
    RunKeepsFInv(FInit(n), ops);
    assert Covered(f, r);
    if f.loaded[j] <= f.info[r].began {
      assert Stays(f, r, j);
      AllCounted(f.sys, r);
      assert CallOk(f.sys, r);
    }
  }

  lemma CallKept(f: Full, op: FOp, r: nat)
    requires FInv(f) && FEnabled(f, op) && r in f.info && op != Base(Return(r))
    ensures var f' := FStep(f, op);
      && r in f'.info && r in f.sys.calls && r in f'.sys.calls && f'.info[r] == f.info[r]
      && f'.sys.calls[r].virt == f.sys.calls[r].virt && f'.sys.calls[r].pages == f.sys.calls[r].pages
      && f'.sys.calls[r].start == f.sys.calls[r].start
  {
    hide Inv, Covered, Step, Enabled;
    match op
    case Start(q, virt, pages, own, pt, shoot) =>
      CallsAfter(f.sys, Begin(q, virt, pages), r);
      SameStart(f.sys, Begin(q, virt, pages), r, 0);
    case Base(o) =>
      CallsAfter(f.sys, o, r);
      SameStart(f.sys, o, r, 0);
    case Choose(_) =>
    case Load(_, _) =>
  }

  lemma {:induction false} CallKeptOn(f: Full, ops: seq<FOp>, r: nat)
    requires FInv(f) && FIsRun(f, ops) && r in f.info && r in f.sys.calls && Base(Return(r)) !in ops
    ensures var f' := FRunTo(f, ops);
      && r in f'.info && r in f'.sys.calls && f'.info[r] == f.info[r]
      && f'.sys.calls[r].virt == f.sys.calls[r].virt && f'.sys.calls[r].pages == f.sys.calls[r].pages
      && f'.sys.calls[r].start == f.sys.calls[r].start
    decreases |ops|
  {
    hide FInv, FStep, FEnabled;
    if ops != [] {
      assert ops == [ops[0]] + ops[1..];
      CallKept(f, ops[0], r);
      StepKeepsFInv(f, ops[0]);
      CallKeptOn(FStep(f, ops[0]), ops[1..], r);
    }
  }

  /** CPU `j` has invalidated this range since the log had `start` entries. */
  ghost predicate Flushed(s: Sys, j: nat, virt: nat, pages: nat, start: nat) {
    exists k :: start <= k < |s.log| && s.log[k] == Flush(j, virt, pages)
  }

  /** From the call to its return: `arch_mmu_invalidate(pt, virt, pages)` on CPU `own`, begun in any state that
      can be reached and run with anything else in between.  When it can return, every other CPU that runs
      `pt` has invalidated `pages` pages from `virt` on since it began, or loaded the table since then. */
  lemma InvalidatesRange(f: Full, r: nat, virt: nat, pages: nat, own: nat, pt: nat, shoot: bool, ops: seq<FOp>, j: nat)
    requires FInv(f) && FEnabled(f, Start(r, virt, pages, own, pt, shoot)) && (shoot || Others(f, own, pt) == {})
    requires FIsRun(FStep(f, Start(r, virt, pages, own, pt, shoot)), ops) && Base(Return(r)) !in ops
    requires var f' := FRunTo(FStep(f, Start(r, virt, pages, own, pt, shoot)), ops);
             FEnabled(f', Base(Return(r))) && Runs(f', j, pt) && j != own
    ensures var f' := FRunTo(FStep(f, Start(r, virt, pages, own, pt, shoot)), ops);
      j < |f'.loaded| && (f'.loaded[j] > f.time || Flushed(f'.sys, j, virt, pages, |f.sys.log|))
  {
    hide FIsRun, FRunTo, Inv;
    var op := Start(r, virt, pages, own, pt, shoot);
    var f1 := FStep(f, op);
    var f' := FRunTo(f1, ops);
    StepKeepsFInv(f, op);
    CallKeptOn(f1, ops, r);
    RunKeepsFInv(f1, ops);
    assert Covered(f', r);
    if f'.loaded[j] <= f.time {
      assert Stays(f', r, j);
      AllCounted(f'.sys, r);
      assert Done(f'.sys, f'.sys.calls[r], j);
    }
  }

  /** The rule for user addresses, `num_running_threads > 1` where that counts the CPUs that run the caller's
      process, meets the proviso: without a shootdown no other CPU ran the table. */
  lemma UserRule(f: Full, own: nat, pt: nat)
    requires Runs(f, own, pt)
    ensures |Running(f, pt)| > 1 <==> Others(f, own, pt) != {}
  {
    assert Running(f, pt) == Others(f, own, pt) + {own};
  }
}
