/** Scalings that are cut short by a failing operation: what they leave, that it is safe, and
    what the next scaling makes of it. */
module CprStopped {
  import opened CInt
  import opened CprScaling
  import opened CprScalingSafety

  /** The operations issued when a call fails: the plan up to the operation that failed,
      and after a failed APM switch possibly the roll-back of the voltage. */
  ghost predicate Stopped(before: seq<Op>, now: seq<Op>, plan: seq<Op>, rollback: int) {
    exists k :: 0 <= k < |plan| && StoppedAt(before, now, plan, rollback, k)
  }

  ghost predicate StoppedAt(before: seq<Op>, now: seq<Op>, plan: seq<Op>, rollback: int, k: nat)
    requires k < |plan|
  {
    now == before + plan[..k] ||
    (plan[k].SetApm? && now == before + plan[..k] + [SetVdd(rollback, INT_MAX)])
  }

  /** The hardware that a scaling leaves which stops, from the one it starts from. */
  ghost predicate StoppedHw(cfg: Config, hw: Hw, r: Scaling, hw': Hw)
    requires cfg.step > 0
  {
    exists now :: Stopped([], now, Plan(cfg, r), RollbackVolt(cfg, r)) && hw' == Run(cfg, hw, now)
  }

  /** What is issued when a call fails that only begins with a scaling: the scaling has stopped, or
      it is complete and something after it has failed. */
  ghost predicate Ended(now: seq<Op>, plan: seq<Op>, rollback: int) {
    now == plan || Stopped([], now, plan, rollback)
  }

  ghost predicate EndedHw(cfg: Config, hw: Hw, r: Scaling, hw': Hw)
    requires cfg.step > 0
  {
    hw' == Run(cfg, hw, Plan(cfg, r)) || StoppedHw(cfg, hw, r, hw')
  }

  lemma EndedRun(cfg: Config, hw: Hw, r: Scaling, hw': Hw) returns (now: seq<Op>)
    requires cfg.step > 0 && EndedHw(cfg, hw, r, hw')
    ensures Ended(now, Plan(cfg, r), RollbackVolt(cfg, r)) && hw' == Run(cfg, hw, now)
  {
    if hw' == Run(cfg, hw, Plan(cfg, r)) {
      now := Plan(cfg, r);
    } else {
      now :| Stopped([], now, Plan(cfg, r), RollbackVolt(cfg, r)) && hw' == Run(cfg, hw, now);
    }
  }

  lemma StoppedTail(before: seq<Op>, now: seq<Op>, plan: seq<Op>, rollback: int) returns (tail: seq<Op>)
    requires Stopped(before, now, plan, rollback)
    ensures now == before + tail && Stopped([], tail, plan, rollback)
  {
    var k :| 0 <= k < |plan| && StoppedAt(before, now, plan, rollback, k);
    tail := if now == before + plan[..k] then plan[..k] else plan[..k] + [SetVdd(rollback, INT_MAX)];
    assert before + plan[..k] + [SetVdd(rollback, INT_MAX)] == before + (plan[..k] + [SetVdd(rollback, INT_MAX)]);
    assert [] + plan[..k] == plan[..k];
    assert StoppedAt([], tail, plan, rollback, k);
  }

  lemma StoppedRun(cfg: Config, start: Hw, before: seq<Op>, now: seq<Op>, r: Scaling)
    requires cfg.step > 0 && Stopped(before, now, Plan(cfg, r), RollbackVolt(cfg, r))
    ensures StoppedHw(cfg, Run(cfg, start, before), r, Run(cfg, start, now))
  {
    var tail := StoppedTail(before, now, Plan(cfg, r), RollbackVolt(cfg, r));
    RunConcat(cfg, start, before, tail);
  }

  lemma {:induction false} RunKeepsAligned(cfg: Config, hw: Hw, ops: seq<Op>)
    requires cfg.step > 0 && Aligned(hw.vdd, cfg.step)
    ensures Aligned(Run(cfg, hw, ops).vdd, cfg.step)
  {
    if ops != [] {
      var op := ops[|ops| - 1];
      RunKeepsAligned(cfg, hw, ops[..|ops| - 1]);
      if op.SetVdd? {
        MulMod(TruncDiv(op.min + cfg.step - 1, cfg.step), cfg.step);
      }
    }
  }

  /** The operations before the APM switch. */
  function UntilApm(cfg: Config, r: Scaling): seq<Op> {
    BeforeOps(cfg, r) +
    (if MemAccCrosses(cfg, r, r.lastVolt) && !ApmFirst(cfg, r) then MemAccOps(cfg, r, r.lastVolt) else [])
  }

  /** A failed APM switch is rolled back to where the supply was before its stop: to the known voltage,
      or to a mem-acc stop that came first. */
  lemma RollbackExactly(cfg: Config, r: Scaling)
    requires ApmCrosses(cfg, r)
    ensures var stops := SetPoints(UntilApm(cfg, r)); RollbackVolt(cfg, r) == ([r.lastVolt] + stops)[|stops|]
  {
    var b := if MemAccCrosses(cfg, r, r.lastVolt) && !ApmFirst(cfg, r) then MemAccOps(cfg, r, r.lastVolt) else [];
    NoSetPointsBeside(cfg, r);
    SetPointsConcat(BeforeOps(cfg, r), b);
    MemAccSetPoints(cfg, r, r.lastVolt);
  }

  ghost predicate NoApm(ops: seq<Op>) {
    forall i :: 0 <= i < |ops| ==> !ops[i].SetApm?
  }

  lemma {:induction false} VregMemAccNoApm(owners: seq<bool>, n: nat, corner: int)
    requires n <= |owners|
    ensures NoApm(VregMemAccOps(owners, n, corner))
  {
    if n > 0 {
      VregMemAccNoApm(owners, n - 1, corner);
    }
  }

  lemma MemAccOpsNoApm(cfg: Config, r: Scaling, last: int)
    ensures NoApm(MemAccOps(cfg, r, last))
  {
    VregMemAccNoApm(cfg.vregMemAcc, |cfg.vregMemAcc|, cfg.MemAccCorner(r.RefVolt() >= cfg.memAccVolt));
  }

  lemma CrossingNoApm(cfg: Config, r: Scaling)
    requires !ApmCrosses(cfg, r)
    ensures NoApm(CrossingOps(cfg, r))
  {
    MemAccOpsNoApm(cfg, r, r.lastVolt);
  }

  /** The mem-acc stop after the APM's, if any. */
  function SecondStop(cfg: Config, r: Scaling): seq<Op> {
    if MemAccCrosses(cfg, r, r.lastVolt) && ApmFirst(cfg, r) then MemAccOps(cfg, r, cfg.apmVolt) else []
  }

  lemma PlanAroundApm(cfg: Config, r: Scaling)
    requires ApmCrosses(cfg, r)
    ensures Plan(cfg, r) ==
            UntilApm(cfg, r) + ApmOps(cfg, r) + (SecondStop(cfg, r) + FinalOps(cfg, r) + AfterOps(cfg, r))
    ensures NoApm(UntilApm(cfg, r)) && NoApm(SecondStop(cfg, r))
  {
    MemAccOpsNoApm(cfg, r, r.lastVolt);
    MemAccOpsNoApm(cfg, r, cfg.apmVolt);
    var a := BeforeOps(cfg, r);
    var b := if MemAccCrosses(cfg, r, r.lastVolt) && !ApmFirst(cfg, r) then MemAccOps(cfg, r, r.lastVolt) else [];
    assert CrossingOps(cfg, r) == b + ApmOps(cfg, r) + SecondStop(cfg, r);
    Regroup(a, b, ApmOps(cfg, r), SecondStop(cfg, r), FinalOps(cfg, r), AfterOps(cfg, r));
  }

  lemma Regroup(a: seq<Op>, b: seq<Op>, c: seq<Op>, d: seq<Op>, e: seq<Op>, f: seq<Op>)
    ensures a + (b + c + d) + e + f == (a + b) + c + (d + e + f)
  {}

  lemma OneApm(u: seq<Op>, x: Op, y: Op, w: seq<Op>, k: nat)
    requires NoApm(u) && !x.SetApm? && NoApm(w) && k < |u + [x, y] + w| && (u + [x, y] + w)[k].SetApm?
    ensures k == |u| + 1 && (u + [x, y] + w)[..k] == u + [x]
  {}

  lemma NoApmAt(ops: seq<Op>, k: nat)
    requires NoApm(ops) && k < |ops|
    ensures !ops[k].SetApm?
  {}

  lemma PlanHasNoApm(cfg: Config, r: Scaling)
    requires !ApmCrosses(cfg, r)
    ensures NoApm(Plan(cfg, r))
  {
    CrossingNoApm(cfg, r);
    var a, b, c, d := BeforeOps(cfg, r), CrossingOps(cfg, r), FinalOps(cfg, r), AfterOps(cfg, r);
    NoApmConcat(a, b);
    NoApmConcat(a + b, c);
    NoApmConcat(a + b + c, d);
  }

  lemma NoApmConcat(a: seq<Op>, b: seq<Op>)
    requires NoApm(a) && NoApm(b)
    ensures NoApm(a + b)
  {}

  /** The plan has one APM switch, or none. */
  lemma ApmIsWhere(cfg: Config, r: Scaling, k: nat)
    requires k < |Plan(cfg, r)| && Plan(cfg, r)[k].SetApm?
    ensures ApmCrosses(cfg, r) && Plan(cfg, r)[..k] == UntilApm(cfg, r) + [SetVdd(cfg.apmVolt, cfg.apmVolt)]
  {
    if ApmCrosses(cfg, r) {
      PlanAroundApm(cfg, r);
      var rest := SecondStop(cfg, r) + FinalOps(cfg, r) + AfterOps(cfg, r);
      NoApmConcat(SecondStop(cfg, r), FinalOps(cfg, r));
      NoApmConcat(SecondStop(cfg, r) + FinalOps(cfg, r), AfterOps(cfg, r));
      OneApm(UntilApm(cfg, r), SetVdd(cfg.apmVolt, cfg.apmVolt), SetApm(r.newVolt >= cfg.apmVolt), rest, k);
    } else {
      PlanHasNoApm(cfg, r);
      NoApmAt(Plan(cfg, r), k);
    }
  }

  /** What a failed APM switch is rolled back from. */
  lemma BeforeApmEffect(cfg: Config, hw: Hw, r: Scaling)
    requires cfg.step > 0 && |hw.vregMemAcc| == |cfg.vregMemAcc|
    ensures var hw', hw1 := Run(cfg, hw, UntilApm(cfg, r)), Run(cfg, hw, BeforeOps(cfg, r));
            hw'.apmHigh == hw.apmHigh && |hw'.vregMemAcc| == |cfg.vregMemAcc| &&
            if MemAccCrosses(cfg, r, r.lastVolt) && !ApmFirst(cfg, r)
            then MemAccAt(cfg, hw', cfg.MemAccCorner(r.RefVolt() >= cfg.memAccVolt)) else hw' == hw1
  {
    var a := BeforeOps(cfg, r);
    BeforeEffect(cfg, hw, r);
    var hw1 := Run(cfg, hw, a);
    if MemAccCrosses(cfg, r, r.lastVolt) && !ApmFirst(cfg, r) {
      RunConcat(cfg, hw, a, MemAccOps(cfg, r, r.lastVolt));
      MemAccEffect(cfg, hw1, r, r.lastVolt);
    } else {
      assert UntilApm(cfg, r) == a;
    }
  }

  /** A mem-acc setting made on the way down must allow the voltage of the roll-back too. */
  ghost predicate RollbackFits(cfg: Config, r: Scaling)
    requires cfg.step > 0
  {
    cfg.MemAccUsed() && cfg.hasMemAcc && r.aggr.memAcc != 0 && r.newVolt < r.lastVolt && ApmCrosses(cfg, r) &&
    (MemAccCrosses(cfg, r, r.lastVolt) ==> ApmFirst(cfg, r)) ==>
      CornerSafe(cfg, r.aggr.memAcc, RoundUp(r.lastVolt, cfg.step))
  }

  /** The hardware after a failed APM switch and its roll-back. */
  ghost function RolledBack(cfg: Config, hw: Hw, r: Scaling): Hw
    requires cfg.step > 0
  {
    Run(cfg, hw, UntilApm(cfg, r)).(vdd := RoundUp(RollbackVolt(cfg, r), cfg.step))
  }

  /** A failed APM switch is rolled back to a safe state exactly when the corner's own mem-acc
      setting allows it: the APM is as it was, and the voltage is back at the last stop. */
  lemma RollbackIsSafeExactly(cfg: Config, hw: Hw, r: Scaling)
    requires StartsSafe(cfg, hw, r) && LastAllows(cfg, r) && r.lastVolt >= 0 && ApmCrosses(cfg, r)
    ensures SafeAt(cfg, RolledBack(cfg, hw, r)) <==> RollbackFits(cfg, r)
  {
    BeforeEffect(cfg, hw, r);
    BeforeApmEffect(cfg, hw, r);
    RoundUpReaches(r.lastVolt, cfg.apmVolt, cfg.step);
    RoundUpReaches(r.lastVolt, cfg.memAccVolt, cfg.step);
    RoundUpFixes(cfg.memAccVolt, cfg.step);
    if MemAccCrosses(cfg, r, r.lastVolt) && !ApmFirst(cfg, r) {
      SafeVoltIsThreshold(cfg, r, r.lastVolt);
    }
  }

  lemma RolledBackRuns(cfg: Config, hw: Hw, r: Scaling, k: nat)
    requires cfg.step > 0 && k < |Plan(cfg, r)| && Plan(cfg, r)[k].SetApm?
    ensures ApmCrosses(cfg, r) &&
            Run(cfg, hw, Plan(cfg, r)[..k] + [SetVdd(RollbackVolt(cfg, r), INT_MAX)]) == RolledBack(cfg, hw, r)
  {
    var op, op' := SetVdd(cfg.apmVolt, cfg.apmVolt), SetVdd(RollbackVolt(cfg, r), INT_MAX);
    ApmIsWhere(cfg, r, k);
    RunConcat(cfg, hw, UntilApm(cfg, r), [op]);
    RunOne(cfg, Run(cfg, hw, UntilApm(cfg, r)), op);
    RunConcat(cfg, hw, Plan(cfg, r)[..k], [op']);
    RunOne(cfg, Run(cfg, hw, Plan(cfg, r)[..k]), op');
  }

  /** What a scaling needs to be safe wherever it stops. */
  ghost predicate StopsSafe(cfg: Config, hw: Hw, r: Scaling)
    requires cfg.step > 0
  {
    LastAllows(cfg, r) && CornerMemAccFits(cfg, hw, r) && RollbackFits(cfg, r)
  }

  lemma SafePrefix(cfg: Config, hw: Hw, ops: seq<Op>, now: seq<Op>)
    requires cfg.step > 0 && SafeThroughout(cfg, hw, ops) && now <= ops
    ensures SafeAt(cfg, Run(cfg, hw, now))
  {
    assert now == ops[..|now|];
  }

  /** Wherever a scaling stops, rolled back or not, or complete, the hardware is safe. */
  lemma StoppedIsSafe(cfg: Config, hw: Hw, r: Scaling, now: seq<Op>)
    requires StartsSafe(cfg, hw, r) && r.lastVolt >= 0 && StopsSafe(cfg, hw, r)
    requires Ended(now, Plan(cfg, r), RollbackVolt(cfg, r))
    ensures SafeAt(cfg, Run(cfg, hw, now))
  {
    EndedIsPrefix(now, Plan(cfg, r), RollbackVolt(cfg, r));
    if now <= Plan(cfg, r) {
      PlanIsSafeExactly(cfg, hw, r);
      SafePrefix(cfg, hw, Plan(cfg, r), now);
    } else {
      RolledBackRuns(cfg, hw, r, |now| - 1);
      RollbackIsSafeExactly(cfg, hw, r);
    }
  }

  ghost predicate IsRolledBack(now: seq<Op>, plan: seq<Op>, rollback: int) {
    0 < |now| <= |plan| && plan[|now| - 1].SetApm? && now == plan[..|now| - 1] + [SetVdd(rollback, INT_MAX)]
  }

  lemma EndedIsPrefix(now: seq<Op>, plan: seq<Op>, rollback: int)
    requires Ended(now, plan, rollback)
    ensures if now <= plan then now == plan[..|now|] else IsRolledBack(now, plan, rollback)
  {
    if now != plan {
      var k :| 0 <= k < |plan| && StoppedAt([], now, plan, rollback, k);
      assert [] + plan[..k] == plan[..k];
    }
  }

  // ---------------------------------------------------- the next scaling after a stop

  /** Mem-acc settings that a threshold has chosen are at the low or the high corner. */
  predicate TwoCorners(cfg: Config, corner: int) { corner == cfg.lowCorner || corner == cfg.highCorner }

  ghost predicate Binary(cfg: Config, hw: Hw) {
    (cfg.hasMemAcc ==> TwoCorners(cfg, hw.memAcc)) &&
    forall i :: 0 <= i < |cfg.vregMemAcc| && i < |hw.vregMemAcc| && cfg.vregMemAcc[i] ==>
      TwoCorners(cfg, hw.vregMemAcc[i])
  }

  ghost predicate BinaryOps(cfg: Config, ops: seq<Op>) {
    forall i :: 0 <= i < |ops| ==>
      (ops[i].SetMemAcc? || ops[i].SetVregMemAcc? ==> TwoCorners(cfg, ops[i].corner))
  }

  lemma {:induction false} RunKeepsBinary(cfg: Config, hw: Hw, ops: seq<Op>)
    requires cfg.step > 0 && Binary(cfg, hw) && BinaryOps(cfg, ops)
    ensures Binary(cfg, Run(cfg, hw, ops)) && |Run(cfg, hw, ops).vregMemAcc| == |hw.vregMemAcc|
  {
    if ops != [] {
      RunKeepsBinary(cfg, hw, ops[..|ops| - 1]);
      ApplyKeepsBinary(cfg, Run(cfg, hw, ops[..|ops| - 1]), ops[|ops| - 1]);
    }
  }

  lemma ApplyKeepsBinary(cfg: Config, hw: Hw, op: Op)
    requires cfg.step > 0 && Binary(cfg, hw) && BinaryOps(cfg, [op])
    ensures Binary(cfg, Apply(cfg, hw, op)) && |Apply(cfg, hw, op).vregMemAcc| == |hw.vregMemAcc|
  {
    assert [op][0] == op;
  }

  lemma {:induction false} VregOpsBinary(cfg: Config, n: nat, high: bool)
    requires n <= |cfg.vregMemAcc|
    ensures BinaryOps(cfg, VregMemAccOps(cfg.vregMemAcc, n, cfg.MemAccCorner(high)))
  {
    if n > 0 {
      VregOpsBinary(cfg, n - 1, high);
    }
  }

  lemma BinaryConcat(cfg: Config, a: seq<Op>, b: seq<Op>)
    requires BinaryOps(cfg, a) && BinaryOps(cfg, b)
    ensures BinaryOps(cfg, a + b)
  {}

  lemma MemAccOpsBinary(cfg: Config, r: Scaling, last: int)
    ensures BinaryOps(cfg, MemAccOps(cfg, r, last))
  {
    VregOpsBinary(cfg, |cfg.vregMemAcc|, r.RefVolt() >= cfg.memAccVolt);
  }

  lemma PlanIsBinary(cfg: Config, r: Scaling)
    requires cfg.hasMemAcc && r.aggr.memAcc != 0 ==> TwoCorners(cfg, r.aggr.memAcc)
    ensures BinaryOps(cfg, Plan(cfg, r))
  {
    var a, b, c, d := BeforeOps(cfg, r), CrossingOps(cfg, r), FinalOps(cfg, r), AfterOps(cfg, r);
    MemAccOpsBinary(cfg, r, r.lastVolt);
    MemAccOpsBinary(cfg, r, cfg.apmVolt);
    assert BinaryOps(cfg, b);
    BinaryConcat(cfg, a, b);
    BinaryConcat(cfg, a + b, c);
    BinaryConcat(cfg, a + b + c, d);
  }

  lemma StoppedIsBinary(cfg: Config, hw: Hw, plan: seq<Op>, now: seq<Op>, rollback: int)
    requires cfg.step > 0 && Binary(cfg, hw) && BinaryOps(cfg, plan) && Ended(now, plan, rollback)
    ensures Binary(cfg, Run(cfg, hw, now)) && |Run(cfg, hw, now).vregMemAcc| == |hw.vregMemAcc|
  {
    EndedIsPrefix(now, plan, rollback);
    if !(now <= plan) {
      BinaryConcat(cfg, plan[..|now| - 1], [SetVdd(rollback, INT_MAX)]);
    }
    RunKeepsBinary(cfg, hw, now);
  }

  /** A scaling to the threshold or above that reads the supply at the threshold itself takes
      the APM to be high. */
  predicate ApmStuck(cfg: Config, hw: Hw, r: Scaling) {
    cfg.ApmUsed() && hw.vdd == cfg.apmVolt && !hw.apmHigh && r.newVolt >= cfg.apmVolt
  }

  /** Likewise for every mem-acc setting that the scaling does not make by itself. */
  ghost predicate MemAccStuck(cfg: Config, hw: Hw, r: Scaling) {
    cfg.MemAccUsed() && hw.vdd == cfg.memAccVolt && r.newVolt >= cfg.memAccVolt && SomeLow(cfg, hw, r)
  }

  ghost predicate SomeLow(cfg: Config, hw: Hw, r: Scaling) {
    (cfg.hasMemAcc && r.aggr.memAcc == 0 && hw.memAcc == cfg.lowCorner) ||
    exists i :: 0 <= i < |cfg.vregMemAcc| && i < |hw.vregMemAcc| && cfg.vregMemAcc[i] &&
      hw.vregMemAcc[i] == cfg.lowCorner
  }

  /** What is known of a stop: safe, and with settings at the two corners. */
  ghost predicate StopState(cfg: Config, hw: Hw) {
    cfg.Sound() && SafeAt(cfg, hw) && |hw.vregMemAcc| == |cfg.vregMemAcc| && (cfg.MemAccUsed() ==> Binary(cfg, hw))
  }

  lemma StoppedStopState(cfg: Config, hw: Hw, r: Scaling, now: seq<Op>)
    requires StartsSafe(cfg, hw, r) && r.lastVolt >= 0 && StopsSafe(cfg, hw, r)
    requires cfg.MemAccUsed() && cfg.hasMemAcc && r.aggr.memAcc != 0 ==> TwoCorners(cfg, r.aggr.memAcc)
    requires Ended(now, Plan(cfg, r), RollbackVolt(cfg, r)) && (cfg.MemAccUsed() ==> Binary(cfg, hw))
    ensures StopState(cfg, Run(cfg, hw, now))
  {
    StoppedIsSafe(cfg, hw, r, now);
    RunKeepsLength(cfg, hw, now);
    if cfg.MemAccUsed() {
      PlanIsBinary(cfg, r);
      StoppedIsBinary(cfg, hw, Plan(cfg, r), now, RollbackVolt(cfg, r));
    }
  }

  lemma {:induction false} RunKeepsLength(cfg: Config, hw: Hw, ops: seq<Op>)
    requires cfg.step > 0
    ensures |Run(cfg, hw, ops).vregMemAcc| == |hw.vregMemAcc|
  {
    if ops != [] {
      RunKeepsLength(cfg, hw, ops[..|ops| - 1]);
    }
  }

  /** From a stop, a scaling that starts from the reading of the supply ends with matching
      settings exactly if neither threshold is stuck. */
  lemma RetryMatchesExactly(cfg: Config, hw: Hw, r: Scaling)
    requires StopState(cfg, hw) && RefAgrees(cfg, r) && r.lastVolt == hw.vdd && CornerMemAccAgrees(cfg, r)
    ensures Matches(cfg, Run(cfg, hw, Plan(cfg, r)), r.newVolt) <==> !ApmStuck(cfg, hw, r) && !MemAccStuck(cfg, hw, r)
  {
    PlanMatchesExactly(cfg, hw, r);
    ApmFitsExactly(cfg, hw, r);
    if cfg.MemAccUsed() {
      MemAccFitsExactly(cfg, hw, r);
    }
  }

  lemma ApmFitsExactly(cfg: Config, hw: Hw, r: Scaling)
    requires ApmSafe(cfg, hw) && r.lastVolt == hw.vdd
    ensures (cfg.ApmUsed() ==> ApmCrosses(cfg, r) || (hw.apmHigh <==> r.newVolt >= cfg.apmVolt)) <==>
            !ApmStuck(cfg, hw, r)
  {}

  lemma MemAccFitsExactly(cfg: Config, hw: Hw, r: Scaling)
    requires StopState(cfg, hw) && cfg.MemAccUsed() && RefAgrees(cfg, r) && r.lastVolt == hw.vdd
    ensures var corner := cfg.MemAccCorner(r.newVolt >= cfg.memAccVolt);
            MemAccCrosses(cfg, r, r.lastVolt) ||
            MemAccAt(cfg, if r.aggr.memAcc != 0 then hw.(memAcc := corner) else hw, corner) <==>
            !MemAccStuck(cfg, hw, r)
  {}

  /** And it ends safe exactly if no stuck threshold is left behind. */
  lemma RetryIsSafeExactly(cfg: Config, hw: Hw, r: Scaling)
    requires StopState(cfg, hw) && RefAgrees(cfg, r) && r.lastVolt == hw.vdd && CornerMemAccAgrees(cfg, r) &&
             r.newVolt >= 0
    ensures SafeAt(cfg, Run(cfg, hw, Plan(cfg, r))) <==>
            !(ApmStuck(cfg, hw, r) && FinalVdd(cfg, r) > cfg.apmVolt) &&
            !(MemAccStuck(cfg, hw, r) && FinalVdd(cfg, r) > cfg.memAccVolt)
  {
    FinalSides(cfg, r);
    PlanEffect(cfg, hw, r);
    ApmFitsExactly(cfg, hw, r);
    if cfg.MemAccUsed() {
      MemAccSafeExactly(cfg, hw, r, Run(cfg, hw, Plan(cfg, r)));
    }
  }

  lemma MemAccSafeExactly(cfg: Config, hw: Hw, r: Scaling, end: Hw)
    requires StopState(cfg, hw) && cfg.MemAccUsed() && RefAgrees(cfg, r) && r.lastVolt == hw.vdd &&
             CornerMemAccAgrees(cfg, r)
    requires |end.vregMemAcc| == |hw.vregMemAcc|
    requires if r.newVolt >= cfg.memAccVolt then end.vdd >= cfg.memAccVolt else end.vdd <= cfg.memAccVolt
    requires if MemAccCrosses(cfg, r, r.lastVolt) then
               var corner := cfg.MemAccCorner(r.RefVolt() >= cfg.memAccVolt);
               (cfg.hasMemAcc ==> end.memAcc == FinalMemAcc(cfg, r, corner)) &&
               MemAccAt(cfg, end.(memAcc := corner), corner)
             else end.memAcc == FinalMemAcc(cfg, r, hw.memAcc) && end.vregMemAcc == hw.vregMemAcc
    ensures MemAccSafe(cfg, end) <==> !(MemAccStuck(cfg, hw, r) && end.vdd > cfg.memAccVolt)
  {
    if MemAccStuck(cfg, hw, r) && end.vdd > cfg.memAccVolt &&
      !(cfg.hasMemAcc && r.aggr.memAcc == 0 && hw.memAcc == cfg.lowCorner) {
      var i :| 0 <= i < |cfg.vregMemAcc| && i < |hw.vregMemAcc| && cfg.vregMemAcc[i] &&
        hw.vregMemAcc[i] == cfg.lowCorner;
      assert !CornerSafe(cfg, end.vregMemAcc[i], end.vdd);
    }
  }

  /** Everything together: wherever a scaling stops, rolled back or not, the next one that
      starts from the reading of the supply ends with matching settings exactly if it does not
      stay at or above a threshold at which the supply has stopped with settings for below. */
  lemma RetryAfterStopExactly(cfg: Config, hw: Hw, r: Scaling, now: seq<Op>, next: Scaling)
    requires StartsSafe(cfg, hw, r) && r.lastVolt >= 0 && StopsSafe(cfg, hw, r)
    requires cfg.MemAccUsed() && cfg.hasMemAcc && r.aggr.memAcc != 0 ==> TwoCorners(cfg, r.aggr.memAcc)
    requires Ended(now, Plan(cfg, r), RollbackVolt(cfg, r)) && (cfg.MemAccUsed() ==> Binary(cfg, hw))
    requires RefAgrees(cfg, next) && CornerMemAccAgrees(cfg, next) && next.newVolt >= 0
    requires next.lastVolt == Run(cfg, hw, now).vdd
    ensures var h := Run(cfg, hw, now);
            (Matches(cfg, Run(cfg, h, Plan(cfg, next)), next.newVolt) <==>
            !ApmStuck(cfg, h, next) && !MemAccStuck(cfg, h, next)) &&
            (SafeAt(cfg, Run(cfg, h, Plan(cfg, next))) <==>
              !(ApmStuck(cfg, h, next) && FinalVdd(cfg, next) > cfg.apmVolt) &&
              !(MemAccStuck(cfg, h, next) && FinalVdd(cfg, next) > cfg.memAccVolt))
  {
    StoppedStopState(cfg, hw, r, now);
    RetryMatchesExactly(cfg, Run(cfg, hw, now), next);
    RetryIsSafeExactly(cfg, Run(cfg, hw, now), next);
  }

  // ------------------------------------------------------- failures in a row

  /** A supply that stands at the mem-acc threshold with a setting for below, and is to go up. */
  ghost predicate MemAccHeld(cfg: Config, hw: Hw, r: Scaling) {
    cfg.MemAccUsed() && hw.vdd == cfg.memAccVolt && r.newVolt >= cfg.memAccVolt &&
    !MemAccAt(cfg, hw, cfg.highCorner)
  }

  /** From a stop, the next scaling starts from the reading of the supply. It is not stuck, so that
      it does not go up from a threshold with settings for below. */
  ghost predicate Resumes(cfg: Config, hw: Hw, r: Scaling) {
    RefAgrees(cfg, r) && r.lastVolt == hw.vdd && !ApmStuck(cfg, hw, r) && !MemAccHeld(cfg, hw, r)
  }

  lemma ResumesSafe(cfg: Config, hw: Hw, r: Scaling)
    requires StopState(cfg, hw) && Resumes(cfg, hw, r) && r.newVolt >= 0
    ensures StartsSafe(cfg, hw, r)
  {}

  lemma {:induction false} RunKeepsVolt(cfg: Config, hw: Hw, ops: seq<Op>)
    requires cfg.step >= 2 && hw.vdd >= 0 && VoltsFit(ops)
    ensures Run(cfg, hw, ops).vdd >= 0
  {
    if ops != [] {
      RunKeepsVolt(cfg, hw, ops[..|ops| - 1]);
      var op := ops[|ops| - 1];
      if op.SetVdd? {
        RoundUpReaches(op.min, 0, cfg.step);
      }
    }
  }

  /** No voltage below the nudge under 0 is asked for. */
  ghost predicate VoltsFit(ops: seq<Op>) {
    forall i :: 0 <= i < |ops| ==> (ops[i].SetVdd? ==> ops[i].min >= -1)
  }

  lemma VoltsConcat(a: seq<Op>, b: seq<Op>)
    requires VoltsFit(a) && VoltsFit(b)
    ensures VoltsFit(a + b)
  {}

  lemma {:induction false} VregOpsVolts(owners: seq<bool>, n: nat, corner: int)
    requires n <= |owners|
    ensures VoltsFit(VregMemAccOps(owners, n, corner))
  {
    if n > 0 {
      VregOpsVolts(owners, n - 1, corner);
    }
  }

  lemma MemAccOpsVolts(cfg: Config, r: Scaling, last: int)
    requires cfg.Sound()
    ensures VoltsFit(MemAccOps(cfg, r, last))
  {
    VregOpsVolts(cfg.vregMemAcc, |cfg.vregMemAcc|, cfg.MemAccCorner(r.RefVolt() >= cfg.memAccVolt));
  }

  lemma CrossingVolts(cfg: Config, r: Scaling)
    requires cfg.Sound()
    ensures VoltsFit(CrossingOps(cfg, r))
  {
    MemAccOpsVolts(cfg, r, r.lastVolt);
    MemAccOpsVolts(cfg, r, cfg.apmVolt);
    VoltsConcat(ApmOps(cfg, r), MemAccOps(cfg, r, cfg.apmVolt));
    VoltsConcat(MemAccOps(cfg, r, r.lastVolt), ApmOps(cfg, r));
  }

  lemma PlanVolts(cfg: Config, r: Scaling)
    requires cfg.Sound() && r.newVolt >= 0
    ensures VoltsFit(Plan(cfg, r))
  {
    var a, b, c, d := BeforeOps(cfg, r), CrossingOps(cfg, r), FinalOps(cfg, r), AfterOps(cfg, r);
    CrossingVolts(cfg, r);
    VoltsConcat(a, b);
    VoltsConcat(a + b, c);
    VoltsConcat(a + b + c, d);
  }

  lemma EndedVolt(cfg: Config, hw: Hw, r: Scaling, now: seq<Op>)
    requires cfg.Sound() && r.newVolt >= 0 && r.lastVolt >= 0 && hw.vdd >= 0
    requires Ended(now, Plan(cfg, r), RollbackVolt(cfg, r))
    ensures Run(cfg, hw, now).vdd >= 0
  {
    PlanVolts(cfg, r);
    EndedIsPrefix(now, Plan(cfg, r), RollbackVolt(cfg, r));
    RunKeepsVolt(cfg, hw, now);
  }

  /** However often scalings fail in a row: one that starts from the reading at a stop, and is not
      stuck there, is safe at every operation, and wherever it stops it leaves such a state again. */
  lemma FailsAgain(cfg: Config, hw: Hw, r: Scaling, now: seq<Op>)
    requires StopState(cfg, hw) && hw.vdd >= 0 && Resumes(cfg, hw, r) && r.newVolt >= 0 && StopsSafe(cfg, hw, r)
    requires cfg.MemAccUsed() && cfg.hasMemAcc && r.aggr.memAcc != 0 ==> TwoCorners(cfg, r.aggr.memAcc)
    requires Ended(now, Plan(cfg, r), RollbackVolt(cfg, r))
    ensures SafeThroughout(cfg, hw, Plan(cfg, r))
    ensures StopState(cfg, Run(cfg, hw, now)) && Run(cfg, hw, now).vdd >= 0
  {
    ResumesSafe(cfg, hw, r);
    PlanIsSafeExactly(cfg, hw, r);
    StoppedStopState(cfg, hw, r, now);
    EndedVolt(cfg, hw, r, now);
  }

  // ---------------------------------------------------------- ways to get stuck

  /** Going up, an APM switch that fails and cannot be rolled back; going down, any request
      that fails once the APM is low. Either way the supply is at the threshold and the APM is
      low. */
  lemma ApmGetsStuck(cfg: Config, hw: Hw, r: Scaling)
    requires cfg.Sound() && Matches(cfg, hw, r.lastVolt) && ApmCrosses(cfg, r)
    ensures var now := UntilApm(cfg, r) +
              if r.newVolt < r.lastVolt then ApmOps(cfg, r) else [SetVdd(cfg.apmVolt, cfg.apmVolt)];
            var h := Run(cfg, hw, now);
            Stopped([], now, Plan(cfg, r), RollbackVolt(cfg, r)) && h.vdd == cfg.apmVolt && !h.apmHigh
  {
    var u, op := UntilApm(cfg, r), SetVdd(cfg.apmVolt, cfg.apmVolt);
    var now := u + if r.newVolt < r.lastVolt then ApmOps(cfg, r) else [op];
    PlanAroundApm(cfg, r);
    BeforeApmEffect(cfg, hw, r);
    BeforeEffect(cfg, hw, r);
    RoundUpFixes(cfg.apmVolt, cfg.step);
    PrefixIsStop(cfg, r, now);
    if r.newVolt < r.lastVolt {
      RunConcat(cfg, hw, u, ApmOps(cfg, r));
      ApmEffect(cfg, Run(cfg, hw, u), r);
    } else {
      RunConcat(cfg, hw, u, [op]);
      RunOne(cfg, Run(cfg, hw, u), op);
    }
  }

  /** The next scaling that reads the supply there leaves the APM safe exactly if it ends at
      the threshold or below. */
  lemma RetryAfterFailedSwitch(cfg: Config, hw: Hw, next: Scaling)
    requires cfg.Sound() && cfg.ApmUsed() && |hw.vregMemAcc| == |cfg.vregMemAcc| && !hw.apmHigh && hw.vdd == cfg.apmVolt
    requires RefAgrees(cfg, next) && next.lastVolt == hw.vdd && next.newVolt >= 0
    ensures ApmSafe(cfg, Run(cfg, hw, Plan(cfg, next))) <==> FinalVdd(cfg, next) <= cfg.apmVolt
    ensures Aligned(next.newVolt, cfg.step) ==>
              (ApmSafe(cfg, Run(cfg, hw, Plan(cfg, next))) <==> next.newVolt <= cfg.apmVolt)
  {
    PlanEffect(cfg, hw, next);
    FinalSides(cfg, next);
    if Aligned(next.newVolt, cfg.step) {
      NudgedReading(next.newVolt, cfg.step);
    }
  }

  lemma PrefixIsStop(cfg: Config, r: Scaling, now: seq<Op>)
    requires now <= Plan(cfg, r) && |now| < |Plan(cfg, r)|
    ensures Stopped([], now, Plan(cfg, r), RollbackVolt(cfg, r))
  {
    StopsAfter(now, Plan(cfg, r), RollbackVolt(cfg, r));
  }

  lemma StopsAfter(now: seq<Op>, plan: seq<Op>, rollback: int)
    requires now <= plan && |now| < |plan|
    ensures Stopped([], now, plan, rollback)
  {
    assert [] + plan[..|now|] == now;
    assert StoppedAt([], now, plan, rollback, |now|);
  }

  /** The operations before the mem-acc stop, and the first one there. */
  function UntilMemAccStop(cfg: Config, r: Scaling): seq<Op> {
    BeforeOps(cfg, r) + (if ApmCrosses(cfg, r) && ApmFirst(cfg, r) then ApmOps(cfg, r) else []) +
    [SetVdd(SafeVolt(cfg, r, if ApmCrosses(cfg, r) && ApmFirst(cfg, r) then cfg.apmVolt else r.lastVolt),
            r.newVolt)]
  }

  lemma MemAccStopIsPrefix(cfg: Config, r: Scaling)
    requires RefAgrees(cfg, r) && MemAccCrosses(cfg, r, r.lastVolt) && r.RefVolt() >= cfg.memAccVolt
    ensures UntilMemAccStop(cfg, r) <= UntilMemAcc(cfg, r)
  {
    var first := ApmCrosses(cfg, r) && ApmFirst(cfg, r);
    var x := if first then ApmOps(cfg, r) else [];
    var last := if first then cfg.apmVolt else r.lastVolt;
    var op := SetVdd(SafeVolt(cfg, r, last), r.newVolt);
    assert [op] <= MemAccOps(cfg, r, last);
    assert BeforeOps(cfg, r) + x + [op] <= BeforeOps(cfg, r) + (x + MemAccOps(cfg, r, last));
  }

  lemma MemAccStopEffect(cfg: Config, hw: Hw, r: Scaling)
    requires cfg.Sound() && RefAgrees(cfg, r) && MemAccCrosses(cfg, r, r.lastVolt) && r.RefVolt() >= cfg.memAccVolt
    ensures var h := Run(cfg, hw, UntilMemAccStop(cfg, r));
            h.vdd == cfg.memAccVolt && h.memAcc == hw.memAcc && h.vregMemAcc == hw.vregMemAcc
  {
    var first := ApmCrosses(cfg, r) && ApmFirst(cfg, r);
    var a, x := BeforeOps(cfg, r), if first then ApmOps(cfg, r) else [];
    var op := SetVdd(SafeVolt(cfg, r, if first then cfg.apmVolt else r.lastVolt), r.newVolt);
    BeforeEffect(cfg, hw, r);
    RunConcat(cfg, hw, a, x);
    if first {
      ApmEffect(cfg, Run(cfg, hw, a), r);
    }
    RunConcat(cfg, hw, a + x, [op]);
    RunOne(cfg, Run(cfg, hw, a + x), op);
    RoundUpFixes(cfg.memAccVolt, cfg.step);
  }

  /** Going up, a mem-acc switch that fails; it is not rolled back. */
  lemma MemAccGetsStuckGoingUp(cfg: Config, hw: Hw, r: Scaling)
    requires cfg.Sound() && Matches(cfg, hw, r.lastVolt) && RefAgrees(cfg, r)
    requires MemAccCrosses(cfg, r, r.lastVolt) && r.RefVolt() >= cfg.memAccVolt
    ensures var now := UntilMemAccStop(cfg, r);
            var h := Run(cfg, hw, now);
            Stopped([], now, Plan(cfg, r), RollbackVolt(cfg, r)) && h.vdd == cfg.memAccVolt &&
            MemAccAt(cfg, h, cfg.lowCorner)
  {
    MemAccStopEffect(cfg, hw, r);
    MemAccStopIsPrefix(cfg, r);
    UntilMemAccIsPrefix(cfg, r);
    PrefixIsStop(cfg, r, UntilMemAccStop(cfg, r));
  }

  /** Going down, any request that fails once mem-acc is low. */
  lemma MemAccGetsStuck(cfg: Config, hw: Hw, r: Scaling)
    requires cfg.Sound() && |hw.vregMemAcc| == |cfg.vregMemAcc| && LastAllows(cfg, r)
    requires MemAccCrosses(cfg, r, r.lastVolt) && r.RefVolt() < cfg.memAccVolt
    ensures var now := UntilMemAcc(cfg, r);
            var h := Run(cfg, hw, now);
            Stopped([], now, Plan(cfg, r), RollbackVolt(cfg, r)) && h.vdd == cfg.memAccVolt &&
            MemAccAt(cfg, h, cfg.lowCorner)
  {
    UntilMemAccEffect(cfg, hw, r);
    UntilMemAccIsPrefix(cfg, r);
    RoundUpFixes(cfg.memAccVolt, cfg.step);
    PrefixIsStop(cfg, r, UntilMemAcc(cfg, r));
  }
}
