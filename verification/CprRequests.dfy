/** The requests that a scaling makes of the supplies: their ranges, their order, and when the
    regulator framework refuses one. */
module CprRequests {
  import opened CInt
  import opened CprScaling

  /** A range without a set point is refused. */
  predicate Refused(cfg: Config, op: Op)
    requires cfg.step > 0
  {
    op.SetVdd? && RoundUp(op.min, cfg.step) > op.max
  }

  ghost predicate NoneRefused(cfg: Config, ops: seq<Op>)
    requires cfg.step > 0
  {
    forall i :: 0 <= i < |ops| ==> !Refused(cfg, ops[i])
  }

  /** In particular one whose least voltage is above its greatest. */
  lemma EmptyRangeIsRefused(cfg: Config, min: int, max: int)
    requires cfg.step > 0 && min >= 0 && min > max
    ensures Refused(cfg, SetVdd(min, max))
  {
    RoundUpLeast(min, cfg.step);
  }

  lemma NoneRefusedConcat(cfg: Config, a: seq<Op>, b: seq<Op>)
    requires cfg.step > 0
    ensures NoneRefused(cfg, a + b) <==> NoneRefused(cfg, a) && NoneRefused(cfg, b)
  {
    if NoneRefused(cfg, a + b) {
      forall i | 0 <= i < |a| ensures !Refused(cfg, a[i]) {
        assert (a + b)[i] == a[i];
      }
      forall i | 0 <= i < |b| ensures !Refused(cfg, b[i]) {
        assert (a + b)[|a| + i] == b[i];
      }
    }
  }

  lemma NoneRefusedOne(cfg: Config, op: Op)
    requires cfg.step > 0
    ensures NoneRefused(cfg, [op]) <==> !Refused(cfg, op)
  {
    assert [op][0] == op;
  }

  // ------------------------------------------------------------ the vdd requests

  /** The requests to the vdd supply, in order. */
  ghost function VddOps(ops: seq<Op>): seq<Op> {
    if ops == [] then []
    else VddOps(ops[..|ops| - 1]) + (if ops[|ops| - 1].SetVdd? then [ops[|ops| - 1]] else [])
  }

  lemma {:induction false} VddOpsConcat(a: seq<Op>, b: seq<Op>)
    ensures VddOps(a + b) == VddOps(a) + VddOps(b)
  {
    if b == [] {
      assert a + b == a;
    } else {
      assert (a + b)[..|a + b| - 1] == a + b[..|b| - 1];
      VddOpsConcat(a, b[..|b| - 1]);
    }
  }

  lemma VddOpsOne(op: Op)
    ensures VddOps([op]) == if op.SetVdd? then [op] else []
  {
    assert [op][..0] == [];
  }

  lemma {:induction false} VddOpsOfNone(ops: seq<Op>)
    requires Without(ops, IsVdd)
    ensures VddOps(ops) == []
  {
    if ops != [] {
      VddOpsOfNone(ops[..|ops| - 1]);
    }
  }

  predicate IsVdd(op: Op) { op.SetVdd? }

  predicate IsSystem(op: Op) { op.SetSystem? }

  predicate IsSync(op: Op) { op.SyncVdd? }

  /** No operation of that kind. */
  ghost predicate Without(ops: seq<Op>, kind: Op -> bool) {
    forall i :: 0 <= i < |ops| ==> !kind(ops[i])
  }

  lemma {:induction false} VregOpsWithout(owners: seq<bool>, n: nat, corner: int, kind: Op -> bool)
    requires n <= |owners| && forall i: nat :: !kind(SetVregMemAcc(i, corner))
    ensures Without(VregMemAccOps(owners, n, corner), kind)
  {
    if n > 0 {
      VregOpsWithout(owners, n - 1, corner, kind);
    }
  }

  lemma SwitchWithout(cfg: Config, high: bool, kind: Op -> bool)
    requires !kind(SetMemAcc(cfg.MemAccCorner(high)))
    requires forall i: nat :: !kind(SetVregMemAcc(i, cfg.MemAccCorner(high)))
    ensures Without(MemAccSwitch(cfg, high), kind)
  {
    VregOpsWithout(cfg.vregMemAcc, |cfg.vregMemAcc|, cfg.MemAccCorner(high), kind);
  }

  /** The request with which a scaling stops for mem-acc at the known voltage `last`. */
  function MemAccStop(cfg: Config, r: Scaling, last: int): Op {
    SetVdd(SafeVolt(cfg, r, last), if r.newVolt < last then r.oldCeiling else r.newVolt)
  }

  /** That is at the threshold on the way up, and on the way down at the corner's last voltage if that
      is higher. */
  lemma MemAccStopIs(cfg: Config, r: Scaling, last: int)
    requires RefAgrees(cfg, r) && MemAccCrosses(cfg, r, r.lastVolt) && MemAccCrosses(cfg, r, last)
    requires last < cfg.memAccVolt <==> r.lastVolt < cfg.memAccVolt
    ensures MemAccStop(cfg, r, last) ==
            if r.lastVolt < cfg.memAccVolt then SetVdd(cfg.memAccVolt, r.newVolt)
            else SetVdd(Max(cfg.memAccVolt, r.aggr.last), r.oldCeiling)
  {}

  lemma MemAccVddOps(cfg: Config, r: Scaling, last: int)
    ensures VddOps(MemAccOps(cfg, r, last)) == if MemAccCrosses(cfg, r, last) then [MemAccStop(cfg, r, last)] else []
  {
    if MemAccCrosses(cfg, r, last) {
      var high := r.RefVolt() >= cfg.memAccVolt;
      VddOpsConcat([MemAccStop(cfg, r, last)], MemAccSwitch(cfg, high));
      VddOpsOne(MemAccStop(cfg, r, last));
      SwitchWithout(cfg, high, IsVdd);
      VddOpsOfNone(MemAccSwitch(cfg, high));
    }
  }

  lemma ApmVddOps(cfg: Config, r: Scaling)
    ensures VddOps(ApmOps(cfg, r)) == [SetVdd(cfg.apmVolt, cfg.apmVolt)]
  {
    VddOpsConcat([SetVdd(cfg.apmVolt, cfg.apmVolt)], [SetApm(r.newVolt >= cfg.apmVolt)]);
    VddOpsOne(SetVdd(cfg.apmVolt, cfg.apmVolt));
    VddOpsOne(SetApm(r.newVolt >= cfg.apmVolt));
  }

  lemma FinalVddOps(cfg: Config, r: Scaling)
    ensures VddOps(FinalOps(cfg, r)) == [SetVdd(r.newVolt - Nudge(r), r.aggr.ceiling)]
  {
    var op := SetVdd(r.newVolt - Nudge(r), r.aggr.ceiling);
    VddOpsOne(op);
    VddOpsOne(SyncVdd);
    VddOpsConcat([op], [SyncVdd]);
  }

  /** Whatever it crosses, the last request of a scaling spans the target, nudged if CPR is
      disabled, up to the ceiling of the corner that it scales to. */
  lemma LastRequestSpansTarget(cfg: Config, r: Scaling)
    ensures VddOps(Plan(cfg, r)) == VddOps(CrossingOps(cfg, r)) + [SetVdd(r.newVolt - Nudge(r), r.aggr.ceiling)]
  {
    var a, b, c, d := BeforeOps(cfg, r), CrossingOps(cfg, r), FinalOps(cfg, r), AfterOps(cfg, r);
    VddOpsConcat(a, b);
    VddOpsConcat(a + b, c);
    VddOpsConcat(a + b + c, d);
    NoVddBeside(cfg, r);
    FinalVddOps(cfg, r);
  }

  lemma NoVddBeside(cfg: Config, r: Scaling)
    ensures VddOps(BeforeOps(cfg, r)) == [] && VddOps(AfterOps(cfg, r)) == []
  {
    VddOpsOfNone(BeforeOps(cfg, r));
    VddOpsOfNone(AfterOps(cfg, r));
  }

  /** The stops of the update path: the APM's is at its threshold exactly; mem-acc's is at its
      threshold or above it, up to the old ceiling on the way down and to the target on the way
      up. */
  function StopRequests(cfg: Config, r: Scaling): seq<Op> {
    var apm, memAcc := [SetVdd(cfg.apmVolt, cfg.apmVolt)],
                       [SetVdd(cfg.memAccVolt, if r.newVolt < r.lastVolt then r.oldCeiling else r.newVolt)];
    var apmCrossed := cfg.ApmUsed() && Crosses(cfg.apmVolt, r.lastVolt, r.newVolt);
    var memAccCrossed := cfg.MemAccUsed() && Crosses(cfg.memAccVolt, r.lastVolt, r.newVolt);
    if apmCrossed && memAccCrossed then
      if r.newVolt < r.lastVolt <==> cfg.apmVolt >= cfg.memAccVolt then apm + memAcc else memAcc + apm
    else (if apmCrossed then apm else []) + (if memAccCrossed then memAcc else [])
  }

  lemma CrossingRequests(cfg: Config, r: Scaling)
    requires RefAgrees(cfg, r) && r.aggr.last == r.newVolt
    ensures VddOps(CrossingOps(cfg, r)) == StopRequests(cfg, r)
  {
    ApmVddOps(cfg, r);
    MemAccVddOps(cfg, r, r.lastVolt);
    MemAccVddOps(cfg, r, cfg.apmVolt);
    VddOpsConcat(ApmOps(cfg, r), MemAccOps(cfg, r, cfg.apmVolt));
    VddOpsConcat(MemAccOps(cfg, r, r.lastVolt), ApmOps(cfg, r));
  }

  /** All requests of a scaling of the update path, with their ranges. */
  lemma UpdateRequestsExactly(cfg: Config, r: Scaling)
    requires RefAgrees(cfg, r) && r.aggr.last == r.newVolt
    ensures VddOps(Plan(cfg, r)) == StopRequests(cfg, r) + [SetVdd(r.newVolt - Nudge(r), r.aggr.ceiling)]
  {
    CrossingRequests(cfg, r);
    LastRequestSpansTarget(cfg, r);
  }

  // ----------------------------------------------------------- refused requests

  lemma {:induction false} RefusedInVddOps(cfg: Config, ops: seq<Op>)
    requires cfg.step > 0
    ensures NoneRefused(cfg, ops) <==> NoneRefused(cfg, VddOps(ops))
  {
    if ops != [] {
      var init, op := ops[..|ops| - 1], ops[|ops| - 1];
      assert ops == init + [op];
      RefusedInVddOps(cfg, init);
      NoneRefusedConcat(cfg, init, [op]);
      NoneRefusedOne(cfg, op);
      NoneRefusedConcat(cfg, VddOps(init), [op]);
      assert VddOps(init) + [] == VddOps(init);
    }
  }

  /** Going down across the mem-acc threshold the stop must be within the ceiling in force. */
  predicate StopWithin(cfg: Config, r: Scaling)
    requires cfg.step > 0
  {
    MemAccCrosses(cfg, r, r.lastVolt) && r.RefVolt() < cfg.memAccVolt ==>
      RoundUp(Max(cfg.memAccVolt, r.aggr.last), cfg.step) <= r.oldCeiling
  }

  lemma MemAccStopExactly(cfg: Config, r: Scaling, last: int)
    requires cfg.Sound() && RefAgrees(cfg, r) && MemAccCrosses(cfg, r, r.lastVolt) && MemAccCrosses(cfg, r, last)
    requires last < cfg.memAccVolt <==> r.lastVolt < cfg.memAccVolt
    ensures Refused(cfg, MemAccStop(cfg, r, last)) <==> !StopWithin(cfg, r)
  {
    RoundUpFixes(cfg.memAccVolt, cfg.step);
  }

  lemma CrossingsRefusedExactly(cfg: Config, r: Scaling)
    requires cfg.Sound() && RefAgrees(cfg, r)
    ensures NoneRefused(cfg, VddOps(CrossingOps(cfg, r))) <==> StopWithin(cfg, r)
  {
    var apm := SetVdd(cfg.apmVolt, cfg.apmVolt);
    RoundUpFixes(cfg.apmVolt, cfg.step);
    ApmVddOps(cfg, r);
    MemAccVddOps(cfg, r, r.lastVolt);
    MemAccVddOps(cfg, r, cfg.apmVolt);
    NoneRefusedOne(cfg, apm);
    if MemAccCrosses(cfg, r, r.lastVolt) {
      var last := if ApmCrosses(cfg, r) && ApmFirst(cfg, r) then cfg.apmVolt else r.lastVolt;
      var stop := MemAccStop(cfg, r, last);
      MemAccStopExactly(cfg, r, last);
      NoneRefusedOne(cfg, stop);
      NoneRefusedConcat(cfg, [apm], [stop]);
      NoneRefusedConcat(cfg, [stop], [apm]);
      VddOpsConcat(ApmOps(cfg, r), MemAccOps(cfg, r, cfg.apmVolt));
      VddOpsConcat(MemAccOps(cfg, r, r.lastVolt), ApmOps(cfg, r));
    }
  }

  /** No request of a scaling is refused exactly if its end is within the ceiling of the corner that
      it scales to, and a mem-acc stop on the way down within the old one. */
  lemma PlanRefusedExactly(cfg: Config, r: Scaling)
    requires cfg.Sound() && RefAgrees(cfg, r)
    ensures NoneRefused(cfg, Plan(cfg, r)) <==> FinalVdd(cfg, r) <= r.aggr.ceiling && StopWithin(cfg, r)
  {
    var last := SetVdd(r.newVolt - Nudge(r), r.aggr.ceiling);
    RefusedInVddOps(cfg, Plan(cfg, r));
    LastRequestSpansTarget(cfg, r);
    NoneRefusedConcat(cfg, VddOps(CrossingOps(cfg, r)), [last]);
    NoneRefusedOne(cfg, last);
    CrossingsRefusedExactly(cfg, r);
  }

  /** So none is if the known voltage is within the old ceiling, the target within the new one, and
      the ceilings and the corner's last voltage, if it is the old one, are set points. */
  lemma WithinCeilingsIsNotRefused(cfg: Config, r: Scaling)
    requires cfg.Sound() && RefAgrees(cfg, r) && 0 <= r.newVolt <= r.aggr.ceiling && Aligned(r.aggr.ceiling, cfg.step)
    requires r.lastVolt <= r.oldCeiling
    requires r.aggr.last == r.newVolt || (r.aggr.last == r.lastVolt && Aligned(r.lastVolt, cfg.step))
    ensures NoneRefused(cfg, Plan(cfg, r))
  {
    PlanRefusedExactly(cfg, r);
    RoundUpReaches(r.newVolt - Nudge(r), r.aggr.ceiling, cfg.step);
    StopIsWithin(cfg, r);
  }

  lemma StopIsWithin(cfg: Config, r: Scaling)
    requires cfg.Sound() && RefAgrees(cfg, r) && r.lastVolt <= r.oldCeiling
    requires r.aggr.last == r.newVolt || (r.aggr.last == r.lastVolt && Aligned(r.lastVolt, cfg.step))
    ensures StopWithin(cfg, r)
  {
    if MemAccCrosses(cfg, r, r.lastVolt) && r.RefVolt() < cfg.memAccVolt {
      var stop := Max(cfg.memAccVolt, r.aggr.last);
      assert stop == cfg.memAccVolt || stop == r.lastVolt;
      RoundUpFixes(stop, cfg.step);
    }
  }

  // --------------------------------------------------- what else is requested

  lemma WithoutConcat(a: seq<Op>, b: seq<Op>, kind: Op -> bool)
    requires Without(a, kind) && Without(b, kind)
    ensures Without(a + b, kind)
  {}

  lemma CrossingsWithout(cfg: Config, r: Scaling, kind: Op -> bool)
    requires forall op: Op :: kind(op) ==> op.SetSystem? || op.SyncVdd?
    ensures Without(CrossingOps(cfg, r), kind)
  {
    SwitchWithout(cfg, r.RefVolt() >= cfg.memAccVolt, kind);
  }

  /** The system supply is set to the corner's voltage, once: before everything else on the way up,
      and after everything else on the way down. */
  lemma SystemOrder(cfg: Config, r: Scaling, k: nat)
    requires RefAgrees(cfg, r) && k < |Plan(cfg, r)|
    ensures Plan(cfg, r)[k].SetSystem? <==>
            cfg.hasSystem && k == if r.newVolt < r.lastVolt then |Plan(cfg, r)| - 1 else 0
    ensures Plan(cfg, r)[k].SetSystem? ==> Plan(cfg, r)[k] == SetSystem(r.aggr.system)
  {
    CrossingKeepsDirection(cfg, r);
    CrossingsWithout(cfg, r, IsSystem);
    var b, c := CrossingOps(cfg, r), FinalOps(cfg, r);
    WithoutConcat(b, c, IsSystem);
    SystemPlace(cfg, r, b + c, k);
  }

  lemma SystemPlace(cfg: Config, r: Scaling, mid: seq<Op>, k: nat)
    requires Without(mid, IsSystem) && mid == CrossingOps(cfg, r) + FinalOps(cfg, r) && k < |Plan(cfg, r)|
    requires r.newVolt < r.lastVolt <==> r.newVolt < CrossingLast(cfg, r)
    ensures Plan(cfg, r)[k].SetSystem? <==>
            cfg.hasSystem && k == if r.newVolt < r.lastVolt then |Plan(cfg, r)| - 1 else 0
    ensures Plan(cfg, r)[k].SetSystem? ==> Plan(cfg, r)[k] == SetSystem(r.aggr.system)
  {
    var a, d := BeforeOps(cfg, r), AfterOps(cfg, r);
    assert Plan(cfg, r) == a + mid + d;
    if |a| <= k < |a| + |mid| {
      assert Plan(cfg, r)[k] == mid[k - |a|];
    }
  }

  /** And it ends there. */
  lemma PlanSetsSystem(cfg: Config, hw: Hw, r: Scaling)
    requires cfg.step > 0 && RefAgrees(cfg, r) && cfg.hasSystem
    ensures Run(cfg, hw, Plan(cfg, r)).system == r.aggr.system
  {
    var plan, op := Plan(cfg, r), SetSystem(r.aggr.system);
    if r.newVolt < r.lastVolt {
      SystemOrder(cfg, r, |plan| - 1);
      assert Run(cfg, hw, plan) == Apply(cfg, Run(cfg, hw, plan[..|plan| - 1]), op);
    } else {
      SystemOrder(cfg, r, 0);
      forall i | 0 <= i < |plan[1..]| ensures !plan[1..][i].SetSystem? {
        SystemOrder(cfg, r, i + 1);
      }
      assert plan == [op] + plan[1..];
      RunConcat(cfg, hw, [op], plan[1..]);
      RunOne(cfg, hw, op);
      SystemStays(cfg, Apply(cfg, hw, op), plan[1..]);
    }
  }

  lemma {:induction false} SystemStays(cfg: Config, hw: Hw, ops: seq<Op>)
    requires cfg.step > 0 && forall i :: 0 <= i < |ops| ==> !ops[i].SetSystem?
    ensures Run(cfg, hw, ops).system == hw.system
  {
    if ops != [] {
      SystemStays(cfg, hw, ops[..|ops| - 1]);
    }
  }

  /** The supply is told to reprogram its voltage exactly if a CPR4 controller with
      supports_hw_closed_loop asks for the voltage at which it already takes it to be. */
  lemma SyncExactly(cfg: Config, r: Scaling)
    requires RefAgrees(cfg, r) && r.aggr.last == r.newVolt
    ensures SyncVdd in Plan(cfg, r) <==>
            cfg.isCpr4 && cfg.supportsHw && r.newVolt == ([r.lastVolt] + Thresholds(cfg, r))[|Thresholds(cfg, r)|]
  {
    CrossingsWithout(cfg, r, IsSync);
    SyncPlace(cfg, r);
    assert CrossingLast(cfg, r) == ([r.lastVolt] + Thresholds(cfg, r))[|Thresholds(cfg, r)|];
  }

  lemma SyncPlace(cfg: Config, r: Scaling)
    requires Without(CrossingOps(cfg, r), IsSync)
    ensures SyncVdd in Plan(cfg, r) <==> cfg.isCpr4 && cfg.supportsHw && r.newVolt == CrossingLast(cfg, r)
  {
    var a, b, c, d := BeforeOps(cfg, r), CrossingOps(cfg, r), FinalOps(cfg, r), AfterOps(cfg, r);
    assert SyncVdd !in a && SyncVdd !in d;
    assert SyncVdd !in b;
    if r.newVolt == CrossingLast(cfg, r) && cfg.isCpr4 && cfg.supportsHw {
      assert c[1] == SyncVdd;
    }
    assert SyncVdd in a + b + c + d <==> SyncVdd in c;
  }
}
