/** Scaling the vdd supply: the order in which the supplies, the array power mux (APM) and
    the mem-acc settings are switched while the voltage moves. */
module CprScaling {
  import opened CInt
  import opened CprCorner

  /** The fixed part of a controller. `vregMemAcc` tells for each regulator, in the order of
      threads, whether it has a mem-acc regulator of its own. */
  datatype Config = Config(
    hasApm: bool, apmVolt: int, memAccVolt: int, hasMemAcc: bool, vregMemAcc: seq<bool>,
    lowCorner: int, highCorner: int, hasSystem: bool, isCpr4: bool, supportsHw: bool, step: int)
  {
    predicate ApmUsed() { hasApm && apmVolt > 0 }

    /** cpr3_regulator_mem_acc_bhs_used. */
    predicate MemAccUsed() { memAccVolt != 0 && (hasMemAcc || true in vregMemAcc) }

    function MemAccCorner(high: bool): int { if high then highCorner else lowCorner }

    /** Thresholds are rounded to set points, and a step is more than a microvolt. */
    ghost predicate Sound() {
      step >= 2 && Aligned(apmVolt, step) && Aligned(memAccVolt, step) &&
      apmVolt >= 0 && memAccVolt >= 0 && lowCorner != highCorner
    }
  }

  /** The operations on the hardware. */
  datatype Op =
    | SetVdd(min: int, max: int)
    | SyncVdd
    | SetApm(high: bool)
    | SetMemAcc(corner: int)
    | SetVregMemAcc(vreg: nat, corner: int)
    | SetSystem(volt: int)

  datatype Hw = Hw(vdd: int, apmHigh: bool, memAcc: int, vregMemAcc: seq<int>, system: int)

  /** A supply asked for a range settles at the lowest set point in it. */
  function Apply(cfg: Config, hw: Hw, op: Op): Hw
    requires cfg.step > 0
  {
    match op
    case SetVdd(min, _) => hw.(vdd := RoundUp(min, cfg.step))
    case SyncVdd => hw
    case SetApm(high) => hw.(apmHigh := high)
    case SetMemAcc(corner) => hw.(memAcc := corner)
    case SetVregMemAcc(i, corner) =>
      if i < |hw.vregMemAcc| then hw.(vregMemAcc := hw.vregMemAcc[i := corner]) else hw
    case SetSystem(volt) => hw.(system := volt)
  }

  ghost function Run(cfg: Config, hw: Hw, ops: seq<Op>): Hw
    requires cfg.step > 0
  {
    if ops == [] then hw else Apply(cfg, Run(cfg, hw, ops[..|ops| - 1]), ops[|ops| - 1])
  }

  // ------------------------------------------------------------------ the plan

  /** What one call of cpr3_regulator_scale_vdd_voltage is given. `oldCeiling` is the
      ceiling of the corner in force until now. */
  datatype Scaling = Scaling(newVolt: int, lastVolt: int, aggr: Corner,
                             hwClosedLoop: bool, cprEnabled: bool, oldCeiling: int)
  {
    function RefVolt(): int { if hwClosedLoop then aggr.floor else newVolt }
  }

  predicate Crosses(threshold: int, last: int, volt: int) {
    (last < threshold && threshold <= volt) || (last >= threshold && threshold > volt)
  }

  predicate ApmCrosses(cfg: Config, r: Scaling) {
    cfg.ApmUsed() && Crosses(cfg.apmVolt, r.lastVolt, r.newVolt)
  }

  predicate MemAccCrosses(cfg: Config, r: Scaling, last: int) {
    cfg.MemAccUsed() && Crosses(cfg.memAccVolt, last, r.RefVolt())
  }

  /** cpr3_regulator_switch_apm_mode. */
  function ApmOps(cfg: Config, r: Scaling): seq<Op> {
    [SetVdd(cfg.apmVolt, cfg.apmVolt), SetApm(r.newVolt >= cfg.apmVolt)]
  }

  /** The mem-acc regulators of the first n regulators. */
  function VregMemAccOps(owners: seq<bool>, n: nat, corner: int): seq<Op>
    requires n <= |owners|
  {
    if n == 0 then []
    else VregMemAccOps(owners, n - 1, corner) + (if owners[n - 1] then [SetVregMemAcc(n - 1, corner)] else [])
  }

  function MemAccSwitch(cfg: Config, high: bool): seq<Op> {
    (if cfg.hasMemAcc then [SetMemAcc(cfg.MemAccCorner(high))] else []) +
    VregMemAccOps(cfg.vregMemAcc, |cfg.vregMemAcc|, cfg.MemAccCorner(high))
  }

  function SafeVolt(cfg: Config, r: Scaling, last: int): int {
    Max(cfg.memAccVolt, if r.RefVolt() < last then r.aggr.last else last)
  }

  /** cpr3_regulator_config_bhs_mem_acc at the known voltage `last`. */
  function MemAccOps(cfg: Config, r: Scaling, last: int): seq<Op> {
    if MemAccCrosses(cfg, r, last) then
      [SetVdd(SafeVolt(cfg, r, last), if r.newVolt < last then r.oldCeiling else r.newVolt)] +
      MemAccSwitch(cfg, r.RefVolt() >= cfg.memAccVolt)
    else []
  }

  function MemAccLast(cfg: Config, r: Scaling, last: int): int {
    if MemAccCrosses(cfg, r, last) then SafeVolt(cfg, r, last) else last
  }

  /** Which threshold is handled first when both are crossed. */
  predicate ApmFirst(cfg: Config, r: Scaling) {
    (r.newVolt < r.lastVolt && cfg.apmVolt >= cfg.memAccVolt) ||
    (r.newVolt >= r.lastVolt && cfg.apmVolt < cfg.memAccVolt)
  }

  /** cpr3_regulator_config_voltage_crossings. */
  function CrossingOps(cfg: Config, r: Scaling): seq<Op> {
    if ApmCrosses(cfg, r) && MemAccCrosses(cfg, r, r.lastVolt) then
      if ApmFirst(cfg, r) then ApmOps(cfg, r) + MemAccOps(cfg, r, cfg.apmVolt)
      else MemAccOps(cfg, r, r.lastVolt) + ApmOps(cfg, r)
    else if ApmCrosses(cfg, r) then ApmOps(cfg, r)
    else MemAccOps(cfg, r, r.lastVolt)
  }

  /** The last known voltage after it. */
  function CrossingLast(cfg: Config, r: Scaling): int {
    if ApmCrosses(cfg, r) && MemAccCrosses(cfg, r, r.lastVolt) then
      if ApmFirst(cfg, r) then MemAccLast(cfg, r, cfg.apmVolt) else cfg.apmVolt
    else if ApmCrosses(cfg, r) then cfg.apmVolt
    else MemAccLast(cfg, r, r.lastVolt)
  }

  /** The voltage a failed APM switch is rolled back to. */
  function RollbackVolt(cfg: Config, r: Scaling): int {
    if MemAccCrosses(cfg, r, r.lastVolt) && !ApmFirst(cfg, r) then MemAccLast(cfg, r, r.lastVolt) else r.lastVolt
  }

  function CornerMemAccOps(cfg: Config, r: Scaling): seq<Op> {
    if cfg.hasMemAcc && r.aggr.memAcc != 0 then [SetMemAcc(r.aggr.memAcc)] else []
  }

  function SystemOps(cfg: Config, r: Scaling): seq<Op> {
    if cfg.hasSystem then [SetSystem(r.aggr.system)] else []
  }

  function BeforeOps(cfg: Config, r: Scaling): seq<Op> {
    if r.newVolt < r.lastVolt then CornerMemAccOps(cfg, r) else SystemOps(cfg, r)
  }

  function FinalOps(cfg: Config, r: Scaling): seq<Op> {
    [SetVdd(r.newVolt - (if r.cprEnabled then 0 else 1), r.aggr.ceiling)] +
    (if r.newVolt == CrossingLast(cfg, r) && cfg.supportsHw && cfg.isCpr4 then [SyncVdd] else [])
  }

  function AfterOps(cfg: Config, r: Scaling): seq<Op> {
    if r.newVolt >= CrossingLast(cfg, r) then CornerMemAccOps(cfg, r) else SystemOps(cfg, r)
  }

  /** All operations of one successful scaling, in order. */
  function Plan(cfg: Config, r: Scaling): seq<Op> {
    BeforeOps(cfg, r) + CrossingOps(cfg, r) + FinalOps(cfg, r) + AfterOps(cfg, r)
  }

  // ---------------------------------------------------- what every plan achieves

  /** The APM and all mem-acc settings are those for a supply at `volt`. */
  ghost predicate Matches(cfg: Config, hw: Hw, volt: int) {
    |hw.vregMemAcc| == |cfg.vregMemAcc| &&
    (cfg.ApmUsed() ==> (hw.apmHigh <==> volt >= cfg.apmVolt)) &&
    (cfg.MemAccUsed() ==> MemAccAt(cfg, hw, cfg.MemAccCorner(volt >= cfg.memAccVolt)))
  }

  ghost predicate MemAccAt(cfg: Config, hw: Hw, corner: int) {
    (cfg.hasMemAcc ==> hw.memAcc == corner) &&
    forall i :: 0 <= i < |cfg.vregMemAcc| && i < |hw.vregMemAcc| && cfg.vregMemAcc[i] ==> hw.vregMemAcc[i] == corner
  }

  /** v and w lie on the same side of both thresholds. */
  ghost predicate SameSide(cfg: Config, v: int, w: int) {
    (cfg.ApmUsed() ==> (v >= cfg.apmVolt <==> w >= cfg.apmVolt)) &&
    (cfg.MemAccUsed() ==> (v >= cfg.memAccVolt <==> w >= cfg.memAccVolt))
  }

  /** In hardware closed-loop the floor must be on the target's side of the mem-acc threshold. */
  ghost predicate RefAgrees(cfg: Config, r: Scaling) {
    cfg.MemAccUsed() ==> (r.RefVolt() >= cfg.memAccVolt <==> r.newVolt >= cfg.memAccVolt)
  }

  lemma {:induction false} RunConcat(cfg: Config, hw: Hw, a: seq<Op>, b: seq<Op>)
    requires cfg.step > 0
    ensures Run(cfg, hw, a + b) == Run(cfg, Run(cfg, hw, a), b)
  {
    if b == [] {
      assert a + b == a;
    } else {
      assert (a + b)[..|a + b| - 1] == a + b[..|b| - 1];
      RunConcat(cfg, hw, a, b[..|b| - 1]);
    }
  }

  lemma RunOne(cfg: Config, hw: Hw, op: Op)
    requires cfg.step > 0
    ensures Run(cfg, hw, [op]) == Apply(cfg, hw, op)
  {
    assert [op][..0] == [];
  }

  /** The mem-acc settings of those of the first n regulators that have one are done. */
  ghost predicate VregMemAccDone(cfg: Config, hw: Hw, n: nat, corner: int, hw': Hw)
    requires n <= |cfg.vregMemAcc| == |hw.vregMemAcc|
  {
    hw' == hw.(vregMemAcc := hw'.vregMemAcc) && |hw'.vregMemAcc| == |hw.vregMemAcc| &&
    forall i :: 0 <= i < |hw.vregMemAcc| ==>
      hw'.vregMemAcc[i] == if i < n && cfg.vregMemAcc[i] then corner else hw.vregMemAcc[i]
  }

  lemma VregMemAccNext(cfg: Config, hw: Hw, n: nat, corner: int, hw': Hw)
    requires n < |cfg.vregMemAcc| == |hw.vregMemAcc| && VregMemAccDone(cfg, hw, n, corner, hw')
    ensures VregMemAccDone(cfg, hw, n + 1, corner,
                           if cfg.vregMemAcc[n] then hw'.(vregMemAcc := hw'.vregMemAcc[n := corner]) else hw')
  {}

  /** The settings of the first n regulators, one after the other. */
  function VregMemAccAfter(cfg: Config, hw: Hw, n: nat, corner: int): Hw
    requires n <= |cfg.vregMemAcc|
  {
    if n == 0 then hw
    else
      var was := VregMemAccAfter(cfg, hw, n - 1, corner);
      if cfg.vregMemAcc[n - 1] && n - 1 < |was.vregMemAcc| then was.(vregMemAcc := was.vregMemAcc[n - 1 := corner])
      else was
  }

  lemma {:induction false} VregMemAccAllDone(cfg: Config, hw: Hw, n: nat, corner: int)
    requires n <= |cfg.vregMemAcc| == |hw.vregMemAcc|
    ensures VregMemAccDone(cfg, hw, n, corner, VregMemAccAfter(cfg, hw, n, corner))
  {
    if n > 0 {
      VregMemAccAllDone(cfg, hw, n - 1, corner);
      VregMemAccNext(cfg, hw, n - 1, corner, VregMemAccAfter(cfg, hw, n - 1, corner));
    }
  }

  lemma {:induction false} VregMemAccEffect(cfg: Config, hw: Hw, n: nat, corner: int)
    requires cfg.step > 0 && n <= |cfg.vregMemAcc|
    ensures Run(cfg, hw, VregMemAccOps(cfg.vregMemAcc, n, corner)) == VregMemAccAfter(cfg, hw, n, corner)
  {
    if n == 0 {
      RunNothing(cfg, hw);
    } else {
      VregMemAccEffect(cfg, hw, n - 1, corner);
      VregMemAccStep(cfg, hw, n - 1, corner);
    }
  }

  lemma RunNothing(cfg: Config, hw: Hw)
    requires cfg.step > 0
    ensures Run(cfg, hw, []) == hw
  {}

  lemma VregMemAccStep(cfg: Config, hw: Hw, n: nat, corner: int)
    requires cfg.step > 0 && n < |cfg.vregMemAcc|
    requires Run(cfg, hw, VregMemAccOps(cfg.vregMemAcc, n, corner)) == VregMemAccAfter(cfg, hw, n, corner)
    ensures Run(cfg, hw, VregMemAccOps(cfg.vregMemAcc, n + 1, corner)) == VregMemAccAfter(cfg, hw, n + 1, corner)
  {
    RunVregOps(cfg, hw, n, corner);
  }

  lemma RunVregOps(cfg: Config, hw: Hw, n: nat, corner: int)
    requires cfg.step > 0 && n < |cfg.vregMemAcc|
    ensures var was := Run(cfg, hw, VregMemAccOps(cfg.vregMemAcc, n, corner));
            Run(cfg, hw, VregMemAccOps(cfg.vregMemAcc, n + 1, corner)) ==
            if cfg.vregMemAcc[n] && n < |was.vregMemAcc| then was.(vregMemAcc := was.vregMemAcc[n := corner]) else was
  {
    var ops := VregMemAccOps(cfg.vregMemAcc, n, corner);
    if cfg.vregMemAcc[n] {
      assert VregMemAccOps(cfg.vregMemAcc, n + 1, corner) == ops + [SetVregMemAcc(n, corner)];
      RunVreg(cfg, hw, ops, n, corner);
    } else {
      assert VregMemAccOps(cfg.vregMemAcc, n + 1, corner) == ops;
    }
  }

  lemma RunVreg(cfg: Config, hw: Hw, ops: seq<Op>, i: nat, corner: int)
    requires cfg.step > 0
    ensures var was := Run(cfg, hw, ops);
            Run(cfg, hw, ops + [SetVregMemAcc(i, corner)]) ==
            if i < |was.vregMemAcc| then was.(vregMemAcc := was.vregMemAcc[i := corner]) else was
  {
    RunConcat(cfg, hw, ops, [SetVregMemAcc(i, corner)]);
    RunOne(cfg, Run(cfg, hw, ops), SetVregMemAcc(i, corner));
  }

  lemma MemAccSwitchEffect(cfg: Config, hw: Hw, high: bool)
    requires cfg.step > 0 && |cfg.vregMemAcc| == |hw.vregMemAcc|
    ensures var hw' := Run(cfg, hw, MemAccSwitch(cfg, high));
            hw' == hw.(memAcc := hw'.memAcc, vregMemAcc := hw'.vregMemAcc) &&
            |hw'.vregMemAcc| == |hw.vregMemAcc| && MemAccAt(cfg, hw', cfg.MemAccCorner(high))
  {
    var corner := cfg.MemAccCorner(high);
    var first := if cfg.hasMemAcc then [SetMemAcc(corner)] else [];
    var hw1 := Run(cfg, hw, first);
    if cfg.hasMemAcc {
      RunOne(cfg, hw, SetMemAcc(corner));
    }
    RunConcat(cfg, hw, first, VregMemAccOps(cfg.vregMemAcc, |cfg.vregMemAcc|, corner));
    VregMemAccEffect(cfg, hw1, |cfg.vregMemAcc|, corner);
    VregMemAccAllDone(cfg, hw1, |cfg.vregMemAcc|, corner);
  }

  lemma ApmEffect(cfg: Config, hw: Hw, r: Scaling)
    requires cfg.step > 0
    ensures Run(cfg, hw, ApmOps(cfg, r)) ==
            hw.(vdd := RoundUp(cfg.apmVolt, cfg.step), apmHigh := r.newVolt >= cfg.apmVolt)
  {
    RunConcat(cfg, hw, [SetVdd(cfg.apmVolt, cfg.apmVolt)], [SetApm(r.newVolt >= cfg.apmVolt)]);
    RunOne(cfg, hw, SetVdd(cfg.apmVolt, cfg.apmVolt));
    RunOne(cfg, Run(cfg, hw, [SetVdd(cfg.apmVolt, cfg.apmVolt)]), SetApm(r.newVolt >= cfg.apmVolt));
  }

  lemma MemAccEffect(cfg: Config, hw: Hw, r: Scaling, last: int)
    requires cfg.step > 0 && |cfg.vregMemAcc| == |hw.vregMemAcc|
    ensures var hw' := Run(cfg, hw, MemAccOps(cfg, r, last));
            |hw'.vregMemAcc| == |hw.vregMemAcc| && hw'.apmHigh == hw.apmHigh &&
            if MemAccCrosses(cfg, r, last) then
              MemAccAt(cfg, hw', cfg.MemAccCorner(r.RefVolt() >= cfg.memAccVolt)) &&
              hw'.vdd == RoundUp(SafeVolt(cfg, r, last), cfg.step)
            else hw' == hw
  {
    if MemAccCrosses(cfg, r, last) {
      var op := SetVdd(SafeVolt(cfg, r, last), if r.newVolt < last then r.oldCeiling else r.newVolt);
      RunConcat(cfg, hw, [op], MemAccSwitch(cfg, r.RefVolt() >= cfg.memAccVolt));
      RunOne(cfg, hw, op);
      MemAccSwitchEffect(cfg, Apply(cfg, hw, op), r.RefVolt() >= cfg.memAccVolt);
    }
  }

  lemma SystemEffect(cfg: Config, hw: Hw, r: Scaling)
    requires cfg.step > 0
    ensures var hw' := Run(cfg, hw, SystemOps(cfg, r)); hw' == hw.(system := hw'.system)
  {
    if cfg.hasSystem {
      RunOne(cfg, hw, SetSystem(r.aggr.system));
    }
  }

  lemma CornerMemAccEffect(cfg: Config, hw: Hw, r: Scaling)
    requires cfg.step > 0
    ensures Run(cfg, hw, CornerMemAccOps(cfg, r)) ==
            if cfg.hasMemAcc && r.aggr.memAcc != 0 then hw.(memAcc := r.aggr.memAcc) else hw
  {
    if cfg.hasMemAcc && r.aggr.memAcc != 0 {
      RunOne(cfg, hw, SetMemAcc(r.aggr.memAcc));
    }
  }

  lemma FinalEffect(cfg: Config, hw: Hw, r: Scaling)
    requires cfg.step > 0
    ensures Run(cfg, hw, FinalOps(cfg, r)) == hw.(vdd := FinalVdd(cfg, r))
  {
    var op := SetVdd(r.newVolt - (if r.cprEnabled then 0 else 1), r.aggr.ceiling);
    RunOne(cfg, hw, op);
    if r.newVolt == CrossingLast(cfg, r) && cfg.supportsHw && cfg.isCpr4 {
      RunConcat(cfg, hw, [op], [SyncVdd]);
      RunOne(cfg, Apply(cfg, hw, op), SyncVdd);
    }
  }

  /** The set point the supply ends at. */
  function FinalVdd(cfg: Config, r: Scaling): int
    requires cfg.step > 0
  {
    RoundUp(r.newVolt - (if r.cprEnabled then 0 else 1), cfg.step)
  }

  /** The stops on the way do not change the direction of travel. */
  lemma CrossingKeepsDirection(cfg: Config, r: Scaling)
    requires RefAgrees(cfg, r)
    ensures r.newVolt < r.lastVolt <==> r.newVolt < CrossingLast(cfg, r)
  {}

  /** A corner's own mem-acc setting does not disturb the one chosen by the threshold: it is
      the same, or a crossing on the way down overrides it. */
  ghost predicate CornerMemAccAgrees(cfg: Config, r: Scaling) {
    cfg.MemAccUsed() && cfg.hasMemAcc && r.aggr.memAcc != 0 ==>
      r.aggr.memAcc == cfg.MemAccCorner(r.newVolt >= cfg.memAccVolt) ||
      (r.newVolt < r.lastVolt && MemAccCrosses(cfg, r, r.lastVolt))
  }

  /** The settings that the crossings leave, from any settings. */
  lemma CrossingEffect(cfg: Config, hw: Hw, r: Scaling)
    requires cfg.step > 0 && |cfg.vregMemAcc| == |hw.vregMemAcc|
    ensures var hw' := Run(cfg, hw, CrossingOps(cfg, r));
            |hw'.vregMemAcc| == |hw.vregMemAcc| &&
            hw'.apmHigh == (if ApmCrosses(cfg, r) then r.newVolt >= cfg.apmVolt else hw.apmHigh) &&
            if MemAccCrosses(cfg, r, r.lastVolt) then
              MemAccAt(cfg, hw', cfg.MemAccCorner(r.RefVolt() >= cfg.memAccVolt))
            else hw'.memAcc == hw.memAcc && hw'.vregMemAcc == hw.vregMemAcc
  {
    if ApmCrosses(cfg, r) && MemAccCrosses(cfg, r, r.lastVolt) {
      if ApmFirst(cfg, r) {
        RunConcat(cfg, hw, ApmOps(cfg, r), MemAccOps(cfg, r, cfg.apmVolt));
        ApmEffect(cfg, hw, r);
        MemAccEffect(cfg, Run(cfg, hw, ApmOps(cfg, r)), r, cfg.apmVolt);
      } else {
        RunConcat(cfg, hw, MemAccOps(cfg, r, r.lastVolt), ApmOps(cfg, r));
        MemAccEffect(cfg, hw, r, r.lastVolt);
        ApmEffect(cfg, Run(cfg, hw, MemAccOps(cfg, r, r.lastVolt)), r);
      }
    } else if ApmCrosses(cfg, r) {
      ApmEffect(cfg, hw, r);
    } else {
      MemAccEffect(cfg, hw, r, r.lastVolt);
    }
  }

  lemma RunPlan(cfg: Config, hw: Hw, r: Scaling)
    requires cfg.step > 0
    ensures Run(cfg, hw, Plan(cfg, r)) ==
            Run(cfg, Run(cfg, Run(cfg, Run(cfg, hw, BeforeOps(cfg, r)), CrossingOps(cfg, r)), FinalOps(cfg, r)),
              AfterOps(cfg, r))
  {
    var a, b, c, d := BeforeOps(cfg, r), CrossingOps(cfg, r), FinalOps(cfg, r), AfterOps(cfg, r);
    RunConcat(cfg, hw, a, b);
    RunConcat(cfg, hw, a + b, c);
    RunConcat(cfg, hw, a + b + c, d);
  }

  /** The controller's mem-acc setting if the corner has one of its own. */
  function WithCornerMemAcc(cfg: Config, hw: Hw, r: Scaling): Hw {
    if cfg.hasMemAcc && r.aggr.memAcc != 0 then hw.(memAcc := r.aggr.memAcc) else hw
  }

  lemma BeforeEffect(cfg: Config, hw: Hw, r: Scaling)
    requires cfg.step > 0
    ensures var hw' := Run(cfg, hw, BeforeOps(cfg, r));
            hw' == (if r.newVolt < r.lastVolt then WithCornerMemAcc(cfg, hw, r) else hw.(system := hw'.system))
  {
    SystemEffect(cfg, hw, r);
    CornerMemAccEffect(cfg, hw, r);
  }

  lemma AfterEffect(cfg: Config, hw: Hw, r: Scaling)
    requires cfg.step > 0 && RefAgrees(cfg, r)
    ensures var hw' := Run(cfg, hw, AfterOps(cfg, r));
            hw' == (if r.newVolt < r.lastVolt then hw.(system := hw'.system) else WithCornerMemAcc(cfg, hw, r))
  {
    CrossingKeepsDirection(cfg, r);
    SystemEffect(cfg, hw, r);
    CornerMemAccEffect(cfg, hw, r);
  }

  /** The corner's setting comes first on the way down and last on the way up. */
  function FinalMemAcc(cfg: Config, r: Scaling, crossed: int): int {
    if cfg.hasMemAcc && r.aggr.memAcc != 0 && (r.newVolt >= r.lastVolt || !MemAccCrosses(cfg, r, r.lastVolt))
    then r.aggr.memAcc else crossed
  }

  /** Where a successful scaling ends, from any settings. */
  lemma PlanEffect(cfg: Config, hw: Hw, r: Scaling)
    requires cfg.step > 0 && |cfg.vregMemAcc| == |hw.vregMemAcc| && RefAgrees(cfg, r)
    ensures var hw' := Run(cfg, hw, Plan(cfg, r));
            hw'.vdd == FinalVdd(cfg, r) && |hw'.vregMemAcc| == |hw.vregMemAcc| &&
            hw'.apmHigh == (if ApmCrosses(cfg, r) then r.newVolt >= cfg.apmVolt else hw.apmHigh) &&
            if MemAccCrosses(cfg, r, r.lastVolt) then
              var corner := cfg.MemAccCorner(r.RefVolt() >= cfg.memAccVolt);
              (cfg.hasMemAcc ==> hw'.memAcc == FinalMemAcc(cfg, r, corner)) &&
              MemAccAt(cfg, hw'.(memAcc := corner), corner)
            else hw'.memAcc == FinalMemAcc(cfg, r, hw.memAcc) && hw'.vregMemAcc == hw.vregMemAcc
  {
    RunPlan(cfg, hw, r);
    BeforeEffect(cfg, hw, r);
    var hw1 := Run(cfg, hw, BeforeOps(cfg, r));
    CrossingEffect(cfg, hw1, r);
    var hw2 := Run(cfg, hw1, CrossingOps(cfg, r));
    FinalEffect(cfg, hw2, r);
    AfterEffect(cfg, hw2.(vdd := FinalVdd(cfg, r)), r);
  }

  /** What a scaling needs of the settings it starts from: each threshold that is not crossed
      must find its settings at the target's side already. */
  ghost predicate SettingsFit(cfg: Config, hw: Hw, r: Scaling) {
    var corner := cfg.MemAccCorner(r.newVolt >= cfg.memAccVolt);
    (cfg.ApmUsed() ==> ApmCrosses(cfg, r) || (hw.apmHigh <==> r.newVolt >= cfg.apmVolt)) &&
    (cfg.MemAccUsed() ==>
      MemAccCrosses(cfg, r, r.lastVolt) ||
      MemAccAt(cfg, if r.aggr.memAcc != 0 then hw.(memAcc := corner) else hw, corner))
  }

  /** From any settings, a successful scaling ends with the APM and the mem-acc settings
      matching the target exactly when it crosses what does not fit yet, and a mem-acc
      setting of the corner itself does not interfere. */
  lemma PlanMatchesExactly(cfg: Config, hw: Hw, r: Scaling)
    requires cfg.step > 0 && |cfg.vregMemAcc| == |hw.vregMemAcc| && RefAgrees(cfg, r)
    ensures var hw' := Run(cfg, hw, Plan(cfg, r));
            hw'.vdd == FinalVdd(cfg, r) &&
            (Matches(cfg, hw', r.newVolt) <==> SettingsFit(cfg, hw, r) && CornerMemAccAgrees(cfg, r))
  {
    PlanEffect(cfg, hw, r);
  }

  /** A successful scaling ends with the APM and the mem-acc settings matching the target
      voltage, whatever the two thresholds, their order and the direction, exactly when a
      mem-acc setting of the corner itself does not interfere. */
  lemma PlanMatchesTarget(cfg: Config, hw: Hw, r: Scaling)
    requires cfg.step > 0 && Matches(cfg, hw, r.lastVolt) && RefAgrees(cfg, r)
    ensures var hw' := Run(cfg, hw, Plan(cfg, r));
            hw'.vdd == FinalVdd(cfg, r) && (Matches(cfg, hw', r.newVolt) <==> CornerMemAccAgrees(cfg, r))
  {
    PlanMatchesExactly(cfg, hw, r);
  }

  /** A mem-acc setting of the corner is made before anything else on the way down, and after
      everything else on the way up. */
  lemma CornerMemAccOrder(cfg: Config, r: Scaling)
    requires cfg.hasMemAcc && r.aggr.memAcc != 0 && RefAgrees(cfg, r)
    ensures var plan, op := Plan(cfg, r), SetMemAcc(r.aggr.memAcc);
            plan != [] && if r.newVolt < r.lastVolt then plan[0] == op else plan[|plan| - 1] == op
  {
    CrossingKeepsDirection(cfg, r);
  }

  /** The reading of the supply after a scaling is on the target's side of both thresholds
      exactly when the 1 uV nudge is rounded away or cannot cross a threshold. */
  lemma ReadingOnTargetSideExactly(cfg: Config, r: Scaling)
    requires cfg.step > 0 && r.newVolt >= 0 && Aligned(r.newVolt, cfg.step)
    ensures SameSide(cfg, FinalVdd(cfg, r), r.newVolt) <==>
            r.cprEnabled || cfg.step >= 2 ||
            (!(cfg.ApmUsed() && r.newVolt == cfg.apmVolt) && !(cfg.MemAccUsed() && r.newVolt == cfg.memAccVolt))
    ensures r.cprEnabled || cfg.step >= 2 ==> FinalVdd(cfg, r) == r.newVolt
  {
    NudgedReading(r.newVolt, cfg.step);
    NudgeAcrossExactly(cfg, r, FinalVdd(cfg, r));
  }

  /** A set point less one microvolt is rounded up to itself if a step is longer than that. */
  lemma NudgedReading(volt: int, step: int)
    requires step > 0 && volt >= 0 && Aligned(volt, step)
    ensures RoundUp(volt, step) == volt && RoundUp(volt - 1, step) == if step >= 2 then volt else volt - 1
  {
    RoundUpFixes(volt, step);
    if step == 1 {
      assert TruncDiv(volt - 1, 1) * 1 == volt - 1;
    } else if volt == 0 {
      DivUnique(step - 2, step, 0, step - 2);
    } else {
      RoundUpLeast(volt - 1, step);
      AlignedGap(RoundUp(volt - 1, step), volt, step);
    }
  }

  lemma NudgeAcrossExactly(cfg: Config, r: Scaling, vdd: int)
    requires cfg.step > 0 && vdd == if r.cprEnabled || cfg.step >= 2 then r.newVolt else r.newVolt - 1
    ensures SameSide(cfg, vdd, r.newVolt) <==>
            r.cprEnabled || cfg.step >= 2 ||
            (!(cfg.ApmUsed() && r.newVolt == cfg.apmVolt) && !(cfg.MemAccUsed() && r.newVolt == cfg.memAccVolt))
  {}

  /** No setting point of the range (threshold - step, threshold) is asked for, nor the threshold
      itself where the nudge shows. */
  predicate ClearOf(threshold: int, volt: int, nudge: int, step: int) {
    !(volt < threshold && threshold - step < volt - nudge) && !(step == 1 && nudge == 1 && volt == threshold)
  }

  function Nudge(r: Scaling): int { if r.cprEnabled then 0 else 1 }

  /** The target is clear of the thresholds in use. */
  predicate TargetClear(cfg: Config, r: Scaling) {
    (cfg.ApmUsed() ==> ClearOf(cfg.apmVolt, r.newVolt, Nudge(r), cfg.step)) &&
    (cfg.MemAccUsed() ==> ClearOf(cfg.memAccVolt, r.newVolt, Nudge(r), cfg.step))
  }

  /** Rounding up reaches a set point from less than a step below it. */
  lemma RoundUpReaches(x: int, t: int, step: int)
    requires step > 0 && x >= -1 && t >= 0 && Aligned(t, step)
    ensures RoundUp(x, step) >= t <==> t - step < x
    ensures RoundUp(x, step) > t <==> t < x
  {
    if x < 0 {
      if step == 1 {
        assert RoundUp(-1, 1) == -1;
      } else {
        DivUnique(step - 2, step, 0, step - 2);
        if 0 < t {
          AlignedBelow(0, t, step);
        }
      }
    } else {
      RoundUpLeast(x, step);
      var u := RoundUp(x, step);
      if u > t {
        AlignedBelow(t, u, step);
      } else if u < t {
        AlignedBelow(u, t, step);
      }
    }
  }

  /** For a target on or off the set points: the reading of the supply after the scaling is on
      the target's side of both thresholds exactly when the target is clear of them. */
  lemma ReadingOnClearSideExactly(cfg: Config, r: Scaling)
    requires cfg.step > 0 && r.newVolt >= 0 && Aligned(cfg.apmVolt, cfg.step) && Aligned(cfg.memAccVolt, cfg.step)
    requires cfg.apmVolt >= 0 && cfg.memAccVolt >= 0
    ensures SameSide(cfg, FinalVdd(cfg, r), r.newVolt) <==> TargetClear(cfg, r)
  {
    RoundUpReaches(r.newVolt - Nudge(r), cfg.apmVolt, cfg.step);
    RoundUpReaches(r.newVolt - Nudge(r), cfg.memAccVolt, cfg.step);
  }

  /** Set points are clear of thresholds that are set points. */
  lemma SetPointIsClear(threshold: int, volt: int, nudge: int, step: int)
    requires step >= 2 && 0 <= nudge <= 1 && Aligned(threshold, step) && Aligned(volt, step)
    ensures ClearOf(threshold, volt, nudge, step)
  {
    if volt < threshold {
      AlignedBelow(volt, threshold, step);
    }
  }

  // -------------------------------------------------- a corner's own mem-acc setting

  ghost predicate NoMemAcc(ops: seq<Op>) {
    forall i :: 0 <= i < |ops| ==> !ops[i].SetMemAcc?
  }

  lemma {:induction false} NoMemAccKeeps(cfg: Config, hw: Hw, ops: seq<Op>)
    requires cfg.step > 0 && NoMemAcc(ops)
    ensures Run(cfg, hw, ops).memAcc == hw.memAcc
  {
    if ops != [] {
      NoMemAccKeeps(cfg, hw, ops[..|ops| - 1]);
    }
  }

  /** Without a mem-acc threshold, on the way down: the corner's setting is in force from the
      first operation on, so before the supply moves. */
  lemma CornerMemAccLeads(cfg: Config, hw: Hw, r: Scaling, k: nat)
    requires cfg.step > 0 && !cfg.MemAccUsed() && cfg.hasMemAcc && r.aggr.memAcc != 0 && r.newVolt < r.lastVolt
    requires k <= |Plan(cfg, r)|
    ensures var h := Run(cfg, hw, Plan(cfg, r)[..k]); if k == 0 then h == hw else h.memAcc == r.aggr.memAcc
  {
    if k > 0 {
      var plan, op := Plan(cfg, r), SetMemAcc(r.aggr.memAcc);
      DownPlan(cfg, r);
      assert plan[..k] == [op] + plan[1..k];
      RunConcat(cfg, hw, [op], plan[1..k]);
      RunOne(cfg, hw, op);
      NoMemAccKeeps(cfg, Apply(cfg, hw, op), plan[1..k]);
    }
  }

  lemma DownPlan(cfg: Config, r: Scaling)
    requires !cfg.MemAccUsed() && cfg.hasMemAcc && r.aggr.memAcc != 0 && r.newVolt < r.lastVolt
    ensures Plan(cfg, r) != [] && Plan(cfg, r)[0] == SetMemAcc(r.aggr.memAcc) && NoMemAcc(Plan(cfg, r)[1..])
  {
    CrossingKeepsDirection(cfg, r);
    var rest := CrossingOps(cfg, r) + FinalOps(cfg, r) + AfterOps(cfg, r);
    assert Plan(cfg, r) == [SetMemAcc(r.aggr.memAcc)] + rest && NoMemAcc(rest);
  }

  /** On the way up: it is the old setting until the last operation, and the supply has then
      arrived. */
  lemma CornerMemAccLags(cfg: Config, hw: Hw, r: Scaling, k: nat)
    requires cfg.step > 0 && !cfg.MemAccUsed() && cfg.hasMemAcc && r.aggr.memAcc != 0 && r.newVolt >= r.lastVolt
    requires k <= |Plan(cfg, r)|
    ensures var h := Run(cfg, hw, Plan(cfg, r)[..k]);
            if k < |Plan(cfg, r)| then h.memAcc == hw.memAcc else h.memAcc == r.aggr.memAcc && h.vdd == FinalVdd(cfg, r)
    ensures Plan(cfg, r) != [] && Run(cfg, hw, Plan(cfg, r)[..|Plan(cfg, r)| - 1]).vdd == FinalVdd(cfg, r)
  {
    var plan, op := Plan(cfg, r), SetMemAcc(r.aggr.memAcc);
    var rest := BeforeOps(cfg, r) + CrossingOps(cfg, r) + FinalOps(cfg, r);
    UpPlan(cfg, r);
    RunConcat(cfg, hw, BeforeOps(cfg, r) + CrossingOps(cfg, r), FinalOps(cfg, r));
    FinalEffect(cfg, Run(cfg, hw, BeforeOps(cfg, r) + CrossingOps(cfg, r)), r);
    assert plan[..|plan| - 1] == rest;
    if k < |plan| {
      assert plan[..k] == rest[..k];
      NoMemAccKeeps(cfg, hw, rest[..k]);
    } else {
      assert plan[..k] == rest + [op];
      RunConcat(cfg, hw, rest, [op]);
      RunOne(cfg, Run(cfg, hw, rest), op);
    }
  }

  lemma UpPlan(cfg: Config, r: Scaling)
    requires !cfg.MemAccUsed() && cfg.hasMemAcc && r.aggr.memAcc != 0 && r.newVolt >= r.lastVolt
    ensures var rest := BeforeOps(cfg, r) + CrossingOps(cfg, r) + FinalOps(cfg, r);
            Plan(cfg, r) == rest + [SetMemAcc(r.aggr.memAcc)] && NoMemAcc(rest)
  {
    CrossingKeepsDirection(cfg, r);
  }

  // ------------------------------------------------------- the way to the target

  /** The requested set points, in order. */
  ghost function SetPoints(ops: seq<Op>): seq<int> {
    if ops == [] then []
    else SetPoints(ops[..|ops| - 1]) + (if ops[|ops| - 1].SetVdd? then [ops[|ops| - 1].min] else [])
  }

  lemma {:induction false} SetPointsConcat(a: seq<Op>, b: seq<Op>)
    ensures SetPoints(a + b) == SetPoints(a) + SetPoints(b)
  {
    if b == [] {
      assert a + b == a;
    } else {
      assert (a + b)[..|a + b| - 1] == a + b[..|b| - 1];
      SetPointsConcat(a, b[..|b| - 1]);
    }
  }

  lemma SetPointsOne(op: Op)
    ensures SetPoints([op]) == if op.SetVdd? then [op.min] else []
  {
    assert [op][..0] == [];
  }

  lemma {:induction false} VregMemAccSetPoints(owners: seq<bool>, n: nat, corner: int)
    requires n <= |owners|
    ensures SetPoints(VregMemAccOps(owners, n, corner)) == []
  {
    if n > 0 {
      VregMemAccSetPoints(owners, n - 1, corner);
      SetPointsConcat(VregMemAccOps(owners, n - 1, corner),
                      if owners[n - 1] then [SetVregMemAcc(n - 1, corner)] else []);
      SetPointsOne(SetVregMemAcc(n - 1, corner));
    }
  }

  lemma MemAccSetPoints(cfg: Config, r: Scaling, last: int)
    ensures SetPoints(MemAccOps(cfg, r, last)) == if MemAccCrosses(cfg, r, last) then [SafeVolt(cfg, r, last)] else []
  {
    if MemAccCrosses(cfg, r, last) {
      var high := r.RefVolt() >= cfg.memAccVolt;
      var op := SetVdd(SafeVolt(cfg, r, last), if r.newVolt < last then r.oldCeiling else r.newVolt);
      SetPointsConcat([op], MemAccSwitch(cfg, high));
      SetPointsOne(op);
      SwitchHasNoSetPoints(cfg, high);
    }
  }

  lemma SwitchHasNoSetPoints(cfg: Config, high: bool)
    ensures SetPoints(MemAccSwitch(cfg, high)) == []
  {
    var corner := cfg.MemAccCorner(high);
    SetPointsOne(SetMemAcc(corner));
    VregMemAccSetPoints(cfg.vregMemAcc, |cfg.vregMemAcc|, corner);
    SetPointsConcat(if cfg.hasMemAcc then [SetMemAcc(corner)] else [],
                    VregMemAccOps(cfg.vregMemAcc, |cfg.vregMemAcc|, corner));
  }

  lemma ApmSetPoints(cfg: Config, r: Scaling)
    ensures SetPoints(ApmOps(cfg, r)) == [cfg.apmVolt]
  {
    SetPointsConcat([SetVdd(cfg.apmVolt, cfg.apmVolt)], [SetApm(r.newVolt >= cfg.apmVolt)]);
    SetPointsOne(SetVdd(cfg.apmVolt, cfg.apmVolt));
    SetPointsOne(SetApm(r.newVolt >= cfg.apmVolt));
  }

  /** The stops of a scaling as the code makes them. */
  function Stops(cfg: Config, r: Scaling): seq<int> {
    var memAcc := MemAccCrosses(cfg, r, r.lastVolt);
    if ApmCrosses(cfg, r) && memAcc then
      if !ApmFirst(cfg, r) then [SafeVolt(cfg, r, r.lastVolt), cfg.apmVolt]
      else if MemAccCrosses(cfg, r, cfg.apmVolt) then [cfg.apmVolt, SafeVolt(cfg, r, cfg.apmVolt)]
      else [cfg.apmVolt]
    else if ApmCrosses(cfg, r) then [cfg.apmVolt]
    else if memAcc then [SafeVolt(cfg, r, r.lastVolt)]
    else []
  }

  lemma CrossingSetPoints(cfg: Config, r: Scaling)
    ensures SetPoints(CrossingOps(cfg, r)) == Stops(cfg, r)
  {
    MemAccSetPoints(cfg, r, r.lastVolt);
    MemAccSetPoints(cfg, r, cfg.apmVolt);
    ApmSetPoints(cfg, r);
    SetPointsConcat(ApmOps(cfg, r), MemAccOps(cfg, r, cfg.apmVolt));
    SetPointsConcat(MemAccOps(cfg, r, r.lastVolt), ApmOps(cfg, r));
  }

  /** The thresholds between the old voltage and the target, in the order of travel. */
  ghost function Thresholds(cfg: Config, r: Scaling): seq<int> {
    var apm := ApmCrosses(cfg, r);
    var memAcc := cfg.MemAccUsed() && Crosses(cfg.memAccVolt, r.lastVolt, r.newVolt);
    var lo, hi := Min(cfg.apmVolt, cfg.memAccVolt), Max(cfg.apmVolt, cfg.memAccVolt);
    if apm && memAcc then if r.newVolt < r.lastVolt then [hi, lo] else [lo, hi]
    else if apm then [cfg.apmVolt]
    else if memAcc then [cfg.memAccVolt]
    else []
  }

  /** From `from` through the stops to `to` without ever turning back. */
  ghost predicate Monotone(from: int, stops: seq<int>, to: int) {
    var path := [from] + stops + [to];
    forall i, j :: 0 <= i < j < |path| ==> if to < from then path[i] >= path[j] else path[i] <= path[j]
  }

  /** A scaling of the update path, where the new corner's last voltage is the target,
      stops exactly at the thresholds it crosses, in voltage order in the direction of
      travel, and never turns back. */
  lemma UpdateStopsAtThresholds(cfg: Config, r: Scaling)
    requires RefAgrees(cfg, r) && r.aggr.last == r.newVolt
    ensures SetPoints(CrossingOps(cfg, r)) == Thresholds(cfg, r)
    ensures Monotone(r.lastVolt, Thresholds(cfg, r), r.newVolt)
    ensures SetPoints(Plan(cfg, r)) == Thresholds(cfg, r) + [r.newVolt - (if r.cprEnabled then 0 else 1)]
  {
    CrossingSetPoints(cfg, r);
    PlanSetPoints(cfg, r);
    UpdateStops(cfg, r);
    ThresholdsInOrder(cfg, r);
  }

  lemma UpdateStops(cfg: Config, r: Scaling)
    requires RefAgrees(cfg, r) && r.aggr.last == r.newVolt
    ensures Stops(cfg, r) == Thresholds(cfg, r)
  {}

  lemma ThresholdsInOrder(cfg: Config, r: Scaling)
    ensures Monotone(r.lastVolt, Thresholds(cfg, r), r.newVolt)
  {
    forall v | v in Thresholds(cfg, r) ensures Min(r.lastVolt, r.newVolt) <= v <= Max(r.lastVolt, r.newVolt) {}
  }

  lemma NoSetPointsBeside(cfg: Config, r: Scaling)
    ensures SetPoints(BeforeOps(cfg, r)) == [] && SetPoints(AfterOps(cfg, r)) == []
  {
    SetPointsOne(SetSystem(r.aggr.system));
    SetPointsOne(SetMemAcc(r.aggr.memAcc));
  }

  lemma FinalSetPoints(cfg: Config, r: Scaling)
    ensures SetPoints(FinalOps(cfg, r)) == [r.newVolt - (if r.cprEnabled then 0 else 1)]
  {
    var op := SetVdd(r.newVolt - (if r.cprEnabled then 0 else 1), r.aggr.ceiling);
    SetPointsOne(op);
    SetPointsOne(SyncVdd);
    SetPointsConcat([op], [SyncVdd]);
  }

  lemma PlanSetPoints(cfg: Config, r: Scaling)
    ensures SetPoints(Plan(cfg, r)) == SetPoints(CrossingOps(cfg, r)) + [r.newVolt - (if r.cprEnabled then 0 else 1)]
  {
    var a, b, c, d := BeforeOps(cfg, r), CrossingOps(cfg, r), FinalOps(cfg, r), AfterOps(cfg, r);
    SetPointsConcat(a, b);
    SetPointsConcat(a + b, c);
    SetPointsConcat(a + b + c, d);
    NoSetPointsBeside(cfg, r);
    FinalSetPoints(cfg, r);
  }

  /** On the interrupt path the corner's last voltage is still the old one. There the supply
      turns back, above an APM threshold already switched, exactly when both thresholds are
      crossed downwards, the APM's is not the lower one, and the supply was above it. */
  lemma InterruptTurnsBackExactly(cfg: Config, r: Scaling)
    requires RefAgrees(cfg, r) && r.aggr.last == r.lastVolt && !r.hwClosedLoop
    ensures Monotone(r.lastVolt, SetPoints(CrossingOps(cfg, r)), r.newVolt) <==>
            !(r.newVolt < r.lastVolt && ApmCrosses(cfg, r) && MemAccCrosses(cfg, r, r.lastVolt) &&
              cfg.apmVolt >= cfg.memAccVolt && cfg.apmVolt < r.lastVolt)
  {
    CrossingSetPoints(cfg, r);
    var path := [r.lastVolt] + Stops(cfg, r) + [r.newVolt];
    if r.newVolt < r.lastVolt && ApmCrosses(cfg, r) && MemAccCrosses(cfg, r, r.lastVolt) &&
       cfg.apmVolt >= cfg.memAccVolt && cfg.apmVolt < r.lastVolt {
      assert path[1] == cfg.apmVolt && path[2] == r.lastVolt;
    }
  }

  /** With set points and moves of at most one step that never happens. */
  lemma InterruptStepIsMonotone(cfg: Config, r: Scaling)
    requires cfg.step > 0 && Aligned(cfg.apmVolt, cfg.step) && Aligned(r.lastVolt, cfg.step)
    requires r.aggr.last == r.lastVolt && !r.hwClosedLoop && r.lastVolt - cfg.step <= r.newVolt <= r.lastVolt + cfg.step
    ensures Monotone(r.lastVolt, SetPoints(CrossingOps(cfg, r)), r.newVolt)
  {
    InterruptTurnsBackExactly(cfg, r);
    if r.newVolt < cfg.apmVolt <= r.lastVolt {
      AlignedGap(cfg.apmVolt, r.lastVolt, cfg.step);
    }
  }
}
