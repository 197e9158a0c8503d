/** Where a page's reference count comes from: exactly one reference for every entry that maps the page,
    one for every holder, and one for every reference the kernel lost on the way. */
module CowAccounting {
  import opened Pages
  import opened Cow
  import opened CowInvariant

  /** The references to `f` that nobody owns. */
  ghost function Surplus(m: Mem, f: nat): int {
    if f in m.refs && f in m.holds then m.refs[f] - |Mappers(m.tabs, f)| - m.holds[f] else 0
  }

  /** The references to `f` that a step loses: mapping over an entry drops the old page without releasing
      it, and so does a MAP fault with the zero page. */
  ghost function Lost(m: Mem, op: Op, f: nat): nat {
    match op
    case MapOp(k, _, _, _, _) => if k in m.tabs && m.tabs[k].frame == f then 1 else 0
    case MapZeroOp(k, _, _) => if k in m.tabs && m.tabs[k].frame == f then 1 else 0
    case MapFaultOp(k, _) => if k in m.tabs && m.tabs[k].frame == f then 1 else 0
    case _ => 0
  }

  ghost function LostBy(m: Mem, ops: seq<Op>, f: nat): nat
    requires IsRun(m, ops)
    decreases |ops|
  {
    if ops == [] then 0 else Lost(m, ops[0], f) + LostBy(Step(m, ops[0]), ops[1..], f)
  }

  /** How rewriting one slot changes the number of entries that map a page. */
  lemma MapperCount(tabs: map<Slot, Pte>, k: Slot, e: Pte, f: nat)
    ensures |Mappers(tabs[k := e], f)| == |Mappers(tabs, f)| + (if e.frame == f then 1 else 0)
                                          - (if k in tabs && tabs[k].frame == f then 1 else 0)
  {
    MappersPut(tabs, k, e, f);
    CardMinus(Mappers(tabs, f), k);
    if k in Mappers(tabs, f) { assert Mappers(tabs, f) + {k} == Mappers(tabs, f); }
  }

  lemma UnmapCount(m: Mem, k: Slot, f: nat)
    requires Inv(m)
    ensures Surplus(Unmap(m, k), f) == Surplus(m, f)
  {
    if k in m.tabs {
      assert EntryOk(m, k) && CountOk(m, m.tabs[k].frame);
      assert k in Mappers(m.tabs, m.tabs[k].frame);
      MappersRemove(m.tabs, k, f);
      CardMinus(Mappers(m.tabs, f), k);
    }
  }

  lemma FaultCount(m: Mem, op: Op, f: nat)
    requires Inv(m) && Enabled(m, op) && (op.CowFaultOp? || op.MapFaultOp?)
    ensures Surplus(Step(m, op), f) == Surplus(m, f) + Lost(m, op, f)
  {
    hide Mappers, Inv;
    var k, g := op.k, op.g;
    InvFacts(m, k);
    FreshUnmapped(m, g);
    MapperCount(m.tabs, k, Upgrade(m.tabs[k]), f);
    MapperCount(m.tabs, k, Upgrade(m.tabs[k]).(frame := g), f);
  }

  /** One step changes the surplus of a page by exactly the references it loses. */
  lemma StepSurplus(m: Mem, op: Op, f: nat)
    requires Inv(m) && Enabled(m, op)
    ensures Surplus(Step(m, op), f) == Surplus(m, f) + Lost(m, op, f)
  {
    hide Mappers;
    match op
    case AllocOp(g) => FreshUnmapped(m, g);
    case MapOp(k, g, fl, private, shared) => MapperCount(m.tabs, k, MapEntry(g, fl, private, shared, false), f);
    case MapZeroOp(k, fl, shared) => MapperCount(m.tabs, k, MapEntry(m.zero, fl, true, shared, true), f);
    case ForkOp(p, c) => ForkMappers(m, p, c, f);
    case UnmapOp(k) => UnmapCount(m, k, f);
    case CowFaultOp(k, g) => FaultCount(m, op, f);
    case MapFaultOp(k, g) => FaultCount(m, op, f);
    case _ =>
  }

  lemma {:induction false} RunSurplus(m: Mem, ops: seq<Op>, f: nat)
    requires Inv(m) && IsRun(m, ops)
    ensures Surplus(RunTo(m, ops), f) == Surplus(m, f) + LostBy(m, ops, f)
    decreases |ops|
  {
    if ops != [] {
      hide Surplus, Lost, Inv, Enabled, Step;
      StepKeepsInv(m, ops[0]);
      StepSurplus(m, ops[0], f);
      RunSurplus(Step(m, ops[0]), ops[1..], f);
    }
  }

  /** In every run from the start every count is the entries that map the page, plus its holders, plus the
      references lost; so a page's count falls to zero when its last owner goes if and only if none of its
      references was lost, and otherwise never. */
  lemma ExactCounting(zero: nat, ops: seq<Op>, f: nat)
    requires zero != NULL_FRAME && IsRun(Boot(zero), ops)
    requires f in RunTo(Boot(zero), ops).refs
    ensures var m, lost := RunTo(Boot(zero), ops), LostBy(Boot(zero), ops, f);
      && f in m.holds && m.refs[f] == |Mappers(m.tabs, f)| + m.holds[f] + lost
      && (Mappers(m.tabs, f) == {} && m.holds[f] == 0 ==> (m.refs[f] == 0 <==> lost == 0))
      && (lost > 0 ==> m.refs[f] > 0)
  {
    hide RunTo, IsRun, LostBy;
    var b, m := Boot(zero), RunTo(Boot(zero), ops);
    assert Inv(b);
    RunKeepsInv(b, ops);
    RunSurplus(b, ops, f);
    assert Mappers(b.tabs, f) == {};
    assert Mappers(m.tabs, f) == {} ==> |Mappers(m.tabs, f)| == 0;
  }

  const K: Slot := (0, 5)

  /** A program touches one page of fresh memory and goes away: the zero page keeps a reference nobody
      owns. */
  lemma TouchedOnce(zero: nat, g: nat)
    requires zero != NULL_FRAME && g != NULL_FRAME && g != zero
    ensures var ops := [NewSpaceOp(0), MapZeroOp(K, RW, false), MapFaultOp(K, g), UnmapOp(K)];
      && IsRun(Boot(zero), ops)
      && var m := RunTo(Boot(zero), ops);
         m.tabs == map[] && m.refs == map[zero := 2, g := 0] && m.holds == map[zero := 1, g := 0]
  {
    var b := Boot(zero);
    var ops := [NewSpaceOp(0), MapZeroOp(K, RW, false), MapFaultOp(K, g), UnmapOp(K)];
    var m1 := Step(b, ops[0]);
    var m2 := Step(m1, ops[1]);
    var m3 := Step(m2, ops[2]);
    LastStep(m3, ops[3]);
    FirstStep(m2, ops[2], [ops[3]]);
    FirstStep(m1, ops[1], [ops[2]] + [ops[3]]);
    FirstStep(b, ops[0], [ops[1]] + ([ops[2]] + [ops[3]]));
    assert [ops[0]] + ([ops[1]] + ([ops[2]] + [ops[3]])) == ops;
  }
}
