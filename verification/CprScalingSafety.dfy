/** Safety of a scaling: at no operation is the supply on the wrong side of a threshold, and
    wherever a failing operation stops it, the hardware is left safe. */
module CprScalingSafety {
  import opened CInt
  import opened CprScaling

  /** While the APM supply is high the voltage is not below its threshold, and while it is
      low not above; likewise for each mem-acc setting. */
  ghost predicate SafeAt(cfg: Config, hw: Hw) {
    ApmSafe(cfg, hw) && MemAccSafe(cfg, hw)
  }

  ghost predicate ApmSafe(cfg: Config, hw: Hw) {
    cfg.ApmUsed() ==> if hw.apmHigh then hw.vdd >= cfg.apmVolt else hw.vdd <= cfg.apmVolt
  }

  ghost predicate MemAccSafe(cfg: Config, hw: Hw) {
    cfg.MemAccUsed() ==>
      (cfg.hasMemAcc ==> CornerSafe(cfg, hw.memAcc, hw.vdd)) &&
      forall i :: 0 <= i < |cfg.vregMemAcc| && i < |hw.vregMemAcc| && cfg.vregMemAcc[i] ==>
        CornerSafe(cfg, hw.vregMemAcc[i], hw.vdd)
  }

  ghost predicate CornerSafe(cfg: Config, corner: int, vdd: int) {
    (corner == cfg.highCorner ==> vdd >= cfg.memAccVolt) && (corner == cfg.lowCorner ==> vdd <= cfg.memAccVolt)
  }

  /** The hardware is safe before, between and after the operations. */
  ghost predicate SafeThroughout(cfg: Config, hw: Hw, ops: seq<Op>)
    requires cfg.step > 0
  {
    forall k :: 0 <= k <= |ops| ==> SafeAt(cfg, Run(cfg, hw, ops[..k]))
  }

  lemma SafeConcat(cfg: Config, hw: Hw, a: seq<Op>, b: seq<Op>)
    requires cfg.step > 0 && SafeThroughout(cfg, hw, a) && SafeThroughout(cfg, Run(cfg, hw, a), b)
    ensures SafeThroughout(cfg, hw, a + b)
  {
    forall k | 0 <= k <= |a + b| ensures SafeAt(cfg, Run(cfg, hw, (a + b)[..k])) {
      if k <= |a| {
        assert (a + b)[..k] == a[..k];
      } else {
        assert (a + b)[..k] == a + b[..k - |a|];
        RunConcat(cfg, hw, a, b[..k - |a|]);
      }
    }
  }

  lemma SafeNone(cfg: Config, hw: Hw)
    requires cfg.step > 0 && SafeAt(cfg, hw)
    ensures SafeThroughout(cfg, hw, [])
  {}

  lemma SafeOne(cfg: Config, hw: Hw, op: Op)
    requires cfg.step > 0 && SafeAt(cfg, hw) && SafeAt(cfg, Apply(cfg, hw, op))
    ensures SafeThroughout(cfg, hw, [op])
  {
    RunOne(cfg, hw, op);
    assert [op][..0] == [] && [op][..1] == [op];
  }

  /** At the mem-acc threshold itself the mem-acc regulators may be switched one by one. */
  lemma {:induction false} VregSwitchSafe(cfg: Config, hw: Hw, n: nat, corner: int)
    requires cfg.step > 0 && n <= |cfg.vregMemAcc| && ApmSafe(cfg, hw) && hw.vdd == cfg.memAccVolt
    ensures SafeThroughout(cfg, hw, VregMemAccOps(cfg.vregMemAcc, n, corner))
    ensures var hw' := Run(cfg, hw, VregMemAccOps(cfg.vregMemAcc, n, corner));
            ApmSafe(cfg, hw') && hw'.vdd == cfg.memAccVolt
  {
    if n > 0 {
      VregSwitchSafe(cfg, hw, n - 1, corner);
      var ops := VregMemAccOps(cfg.vregMemAcc, n - 1, corner);
      if cfg.vregMemAcc[n - 1] {
        var hw1 := Run(cfg, hw, ops);
        SafeOne(cfg, hw1, SetVregMemAcc(n - 1, corner));
        SafeConcat(cfg, hw, ops, [SetVregMemAcc(n - 1, corner)]);
        RunConcat(cfg, hw, ops, [SetVregMemAcc(n - 1, corner)]);
        RunOne(cfg, hw1, SetVregMemAcc(n - 1, corner));
      } else {
        assert ops + [] == ops;
      }
    }
  }

  lemma MemAccSwitchSafe(cfg: Config, hw: Hw, high: bool)
    requires cfg.step > 0 && ApmSafe(cfg, hw) && hw.vdd == cfg.memAccVolt
    ensures SafeThroughout(cfg, hw, MemAccSwitch(cfg, high))
  {
    var corner := cfg.MemAccCorner(high);
    var first := if cfg.hasMemAcc then [SetMemAcc(corner)] else [];
    if cfg.hasMemAcc {
      SafeOne(cfg, hw, SetMemAcc(corner));
      RunOne(cfg, hw, SetMemAcc(corner));
    } else {
      SafeNone(cfg, hw);
    }
    VregSwitchSafe(cfg, Run(cfg, hw, first), |cfg.vregMemAcc|, corner);
    SafeConcat(cfg, hw, first, VregMemAccOps(cfg.vregMemAcc, |cfg.vregMemAcc|, corner));
  }

  /** The mem-acc stop, when the APM side fits the mem-acc threshold. */
  lemma MemAccOpsSafe(cfg: Config, hw: Hw, r: Scaling, last: int)
    requires cfg.Sound() && SafeAt(cfg, hw)
    requires MemAccCrosses(cfg, r, last) ==> SafeVolt(cfg, r, last) == cfg.memAccVolt
    requires MemAccCrosses(cfg, r, last) && cfg.ApmUsed() ==>
      if hw.apmHigh then cfg.memAccVolt >= cfg.apmVolt else cfg.memAccVolt <= cfg.apmVolt
    ensures SafeThroughout(cfg, hw, MemAccOps(cfg, r, last))
  {
    if MemAccCrosses(cfg, r, last) {
      var op := SetVdd(SafeVolt(cfg, r, last), if r.newVolt < last then r.oldCeiling else r.newVolt);
      RoundUpFixes(cfg.memAccVolt, cfg.step);
      var hw1 := Apply(cfg, hw, op);
      SafeOne(cfg, hw, op);
      RunOne(cfg, hw, op);
      MemAccSwitchSafe(cfg, hw1, r.RefVolt() >= cfg.memAccVolt);
      SafeConcat(cfg, hw, [op], MemAccSwitch(cfg, r.RefVolt() >= cfg.memAccVolt));
    } else {
      SafeNone(cfg, hw);
    }
  }

  /** The APM stop, when the mem-acc settings allow its voltage. */
  lemma ApmOpsSafe(cfg: Config, hw: Hw, r: Scaling)
    requires cfg.Sound() && SafeAt(cfg, hw) && MemAccSafe(cfg, hw.(vdd := cfg.apmVolt))
    ensures SafeThroughout(cfg, hw, ApmOps(cfg, r))
    ensures SafeAt(cfg, Run(cfg, hw, ApmOps(cfg, r)))
  {
    var op, op' := SetVdd(cfg.apmVolt, cfg.apmVolt), SetApm(r.newVolt >= cfg.apmVolt);
    AtApmVolt(cfg, hw);
    SafeTwo(cfg, hw, op, op');
  }

  lemma SafeTwo(cfg: Config, hw: Hw, a: Op, b: Op)
    requires cfg.step > 0 && SafeAt(cfg, hw) && SafeAt(cfg, Apply(cfg, hw, a)) &&
             SafeAt(cfg, Apply(cfg, Apply(cfg, hw, a), b))
    ensures SafeThroughout(cfg, hw, [a, b]) && SafeAt(cfg, Run(cfg, hw, [a, b]))
  {
    SafeOne(cfg, hw, a);
    RunOne(cfg, hw, a);
    SafeOne(cfg, Apply(cfg, hw, a), b);
    SafeConcat(cfg, hw, [a], [b]);
    assert [a] + [b] == [a, b];
    SafeAtEnd(cfg, hw, [a, b]);
  }

  lemma AtApmVolt(cfg: Config, hw: Hw)
    requires cfg.Sound()
    ensures Apply(cfg, hw, SetVdd(cfg.apmVolt, cfg.apmVolt)) == hw.(vdd := cfg.apmVolt)
  {
    RoundUpFixes(cfg.apmVolt, cfg.step);
  }

  lemma MatchingIsSafe(cfg: Config, hw: Hw, volt: int)
    requires cfg.Sound() && Matches(cfg, hw, volt)
    ensures SameSide(cfg, hw.vdd, volt) ==> SafeAt(cfg, hw)
  {}

  // ------------------------------------------------- what a safe scaling needs

  /** Going down across the mem-acc threshold, the supply stops at the corner's last voltage if
      that is higher. */
  predicate LastAllows(cfg: Config, r: Scaling) {
    MemAccCrosses(cfg, r, r.lastVolt) && r.RefVolt() < cfg.memAccVolt ==> r.aggr.last <= cfg.memAccVolt
  }

  /** A mem-acc setting of the corner itself, beside a mem-acc threshold: it must allow the
      voltage that it is made at, and the one that it is left at. */
  ghost predicate CornerMemAccFits(cfg: Config, hw: Hw, r: Scaling)
    requires cfg.step > 0
  {
    cfg.MemAccUsed() && cfg.hasMemAcc && r.aggr.memAcc != 0 ==>
      if r.newVolt < r.lastVolt then
        CornerSafe(cfg, r.aggr.memAcc, hw.vdd) &&
        (!MemAccCrosses(cfg, r, r.lastVolt) ==> CornerSafe(cfg, r.aggr.memAcc, FinalVdd(cfg, r)))
      else CornerSafe(cfg, r.aggr.memAcc, FinalVdd(cfg, r))
  }

  /** What the settings and the supply of a scaling start from: settings that match the known
      voltage, or that are low at a threshold itself while the scaling goes below it. */
  ghost predicate StartsSafe(cfg: Config, hw: Hw, r: Scaling) {
    cfg.Sound() && RefAgrees(cfg, r) && r.newVolt >= 0 && SafeAt(cfg, hw) && |hw.vregMemAcc| == |cfg.vregMemAcc| &&
    ApmStarts(cfg, hw, r) && MemAccStarts(cfg, hw, r)
  }

  predicate ApmStarts(cfg: Config, hw: Hw, r: Scaling) {
    cfg.ApmUsed() ==>
      (hw.apmHigh <==> r.lastVolt >= cfg.apmVolt) || (r.newVolt < cfg.apmVolt == r.lastVolt && hw.vdd == cfg.apmVolt)
  }

  ghost predicate MemAccStarts(cfg: Config, hw: Hw, r: Scaling) {
    cfg.MemAccUsed() ==>
      MemAccAt(cfg, hw, cfg.MemAccCorner(r.lastVolt >= cfg.memAccVolt)) ||
      (r.newVolt < cfg.memAccVolt == r.lastVolt && hw.vdd == cfg.memAccVolt)
  }

  lemma SafeVoltIsThreshold(cfg: Config, r: Scaling, last: int)
    requires LastAllows(cfg, r) && MemAccCrosses(cfg, r, last) && MemAccCrosses(cfg, r, r.lastVolt)
    requires last < cfg.memAccVolt <==> r.lastVolt < cfg.memAccVolt
    ensures SafeVolt(cfg, r, last) == cfg.memAccVolt
  {}

  /** The end of the scaling, seen from either threshold. */
  lemma FinalSides(cfg: Config, r: Scaling)
    requires cfg.Sound() && r.newVolt >= 0
    ensures if r.newVolt >= cfg.apmVolt then FinalVdd(cfg, r) >= cfg.apmVolt else FinalVdd(cfg, r) <= cfg.apmVolt
    ensures if r.newVolt >= cfg.memAccVolt then FinalVdd(cfg, r) >= cfg.memAccVolt
            else FinalVdd(cfg, r) <= cfg.memAccVolt
  {
    RoundUpReaches(r.newVolt - Nudge(r), cfg.apmVolt, cfg.step);
    RoundUpReaches(r.newVolt - Nudge(r), cfg.memAccVolt, cfg.step);
  }

  /** Where the APM stop comes with the old mem-acc settings, they allow its voltage. */
  lemma OldSettingsAllowApm(cfg: Config, hw: Hw, r: Scaling)
    requires StartsSafe(cfg, hw, r) && CornerMemAccFits(cfg, hw, r) && ApmCrosses(cfg, r)
    requires MemAccCrosses(cfg, r, r.lastVolt) ==> ApmFirst(cfg, r)
    ensures MemAccSafe(cfg, hw.(vdd := cfg.apmVolt))
    ensures r.newVolt < r.lastVolt ==> MemAccSafe(cfg, WithCornerMemAcc(cfg, hw, r).(vdd := cfg.apmVolt))
  {
    FinalSides(cfg, r);
  }

  lemma CrossingsAreSafe(cfg: Config, hw: Hw, r: Scaling)
    requires cfg.Sound() && RefAgrees(cfg, r) && LastAllows(cfg, r) && SafeAt(cfg, hw) &&
             |hw.vregMemAcc| == |cfg.vregMemAcc|
    requires cfg.ApmUsed() ==>
               (hw.apmHigh <==> r.lastVolt >= cfg.apmVolt) ||
               (ApmCrosses(cfg, r) && (MemAccCrosses(cfg, r, r.lastVolt) ==> ApmFirst(cfg, r)))
    requires ApmCrosses(cfg, r) && (MemAccCrosses(cfg, r, r.lastVolt) ==> ApmFirst(cfg, r)) ==>
               MemAccSafe(cfg, hw.(vdd := cfg.apmVolt))
    ensures SafeThroughout(cfg, hw, CrossingOps(cfg, r))
  {
    if ApmCrosses(cfg, r) && MemAccCrosses(cfg, r, r.lastVolt) {
      if ApmFirst(cfg, r) {
        ApmFirstSafe(cfg, hw, r);
      } else {
        MemAccFirstSafe(cfg, hw, r);
      }
    } else if ApmCrosses(cfg, r) {
      ApmOpsSafe(cfg, hw, r);
    } else {
      if MemAccCrosses(cfg, r, r.lastVolt) {
        SafeVoltIsThreshold(cfg, r, r.lastVolt);
      }
      MemAccOpsSafe(cfg, hw, r, r.lastVolt);
    }
  }

  /** Settings at the high or the low corner allow their side, the threshold included. */
  lemma SettingsAllow(cfg: Config, hw: Hw, high: bool, volt: int)
    requires cfg.Sound() && MemAccAt(cfg, hw, cfg.MemAccCorner(high))
    requires if high then volt >= cfg.memAccVolt else volt <= cfg.memAccVolt
    ensures MemAccSafe(cfg, hw.(vdd := volt))
  {}

  /** And the low corner allows no other. */
  lemma LowAboveIsUnsafe(cfg: Config, hw: Hw)
    requires cfg.Sound() && cfg.MemAccUsed() && |hw.vregMemAcc| == |cfg.vregMemAcc|
    requires MemAccAt(cfg, hw, cfg.lowCorner) && hw.vdd > cfg.memAccVolt
    ensures !MemAccSafe(cfg, hw)
  {
    if !cfg.hasMemAcc {
      var i :| 0 <= i < |cfg.vregMemAcc| && cfg.vregMemAcc[i];
      assert !CornerSafe(cfg, hw.vregMemAcc[i], hw.vdd);
    }
  }

  lemma ApmFirstSafe(cfg: Config, hw: Hw, r: Scaling)
    requires cfg.Sound() && LastAllows(cfg, r) && SafeAt(cfg, hw)
    requires ApmCrosses(cfg, r) && MemAccCrosses(cfg, r, r.lastVolt) && ApmFirst(cfg, r)
    requires MemAccSafe(cfg, hw.(vdd := cfg.apmVolt))
    ensures SafeThroughout(cfg, hw, ApmOps(cfg, r) + MemAccOps(cfg, r, cfg.apmVolt))
  {
    ApmEffect(cfg, hw, r);
    ApmOpsSafe(cfg, hw, r);
    SafeVoltIsThreshold(cfg, r, cfg.apmVolt);
    MemAccOpsSafe(cfg, Run(cfg, hw, ApmOps(cfg, r)), r, cfg.apmVolt);
    SafeConcat(cfg, hw, ApmOps(cfg, r), MemAccOps(cfg, r, cfg.apmVolt));
  }

  /** If mem-acc comes first, each threshold is on the right side of the other. */
  lemma MemAccFirstSides(cfg: Config, r: Scaling)
    requires ApmCrosses(cfg, r) && MemAccCrosses(cfg, r, r.lastVolt) && !ApmFirst(cfg, r) && RefAgrees(cfg, r)
    ensures if r.RefVolt() >= cfg.memAccVolt then cfg.apmVolt >= cfg.memAccVolt else cfg.apmVolt <= cfg.memAccVolt
    ensures if r.lastVolt >= cfg.apmVolt then cfg.memAccVolt >= cfg.apmVolt else cfg.memAccVolt <= cfg.apmVolt
  {}

  lemma SafeAtEnd(cfg: Config, hw: Hw, ops: seq<Op>)
    requires cfg.step > 0 && SafeThroughout(cfg, hw, ops)
    ensures SafeAt(cfg, Run(cfg, hw, ops))
  {
    assert ops[..|ops|] == ops;
  }

  lemma MemAccFirstSafe(cfg: Config, hw: Hw, r: Scaling)
    requires cfg.Sound() && RefAgrees(cfg, r) && LastAllows(cfg, r) && SafeAt(cfg, hw) &&
             |hw.vregMemAcc| == |cfg.vregMemAcc|
    requires cfg.ApmUsed() ==> (hw.apmHigh <==> r.lastVolt >= cfg.apmVolt)
    requires ApmCrosses(cfg, r) && MemAccCrosses(cfg, r, r.lastVolt) && !ApmFirst(cfg, r)
    ensures SafeThroughout(cfg, hw, MemAccOps(cfg, r, r.lastVolt) + ApmOps(cfg, r))
  {
    var ops := MemAccOps(cfg, r, r.lastVolt);
    MemAccFirstSides(cfg, r);
    SafeVoltIsThreshold(cfg, r, r.lastVolt);
    MemAccOpsSafe(cfg, hw, r, r.lastVolt);
    SafeAtEnd(cfg, hw, ops);
    MemAccEffect(cfg, hw, r, r.lastVolt);
    SettingsAllow(cfg, Run(cfg, hw, ops), r.RefVolt() >= cfg.memAccVolt, cfg.apmVolt);
    ApmOpsSafe(cfg, Run(cfg, hw, ops), r);
    SafeConcat(cfg, hw, ops, ApmOps(cfg, r));
  }

  lemma SystemOpsSafe(cfg: Config, hw: Hw, r: Scaling)
    requires cfg.Sound() && SafeAt(cfg, hw)
    ensures SafeThroughout(cfg, hw, SystemOps(cfg, r))
    ensures Run(cfg, hw, SystemOps(cfg, r)) == hw.(system := Run(cfg, hw, SystemOps(cfg, r)).system)
  {
    if cfg.hasSystem {
      SafeOne(cfg, hw, SetSystem(r.aggr.system));
      RunOne(cfg, hw, SetSystem(r.aggr.system));
    } else {
      SafeNone(cfg, hw);
    }
  }

  lemma CornerMemAccOpsSafe(cfg: Config, hw: Hw, r: Scaling)
    requires cfg.Sound() && SafeAt(cfg, hw) && SafeAt(cfg, WithCornerMemAcc(cfg, hw, r))
    ensures SafeThroughout(cfg, hw, CornerMemAccOps(cfg, r))
  {
    if cfg.hasMemAcc && r.aggr.memAcc != 0 {
      SafeOne(cfg, hw, SetMemAcc(r.aggr.memAcc));
    } else {
      SafeNone(cfg, hw);
    }
  }

  lemma FinalOpsSafe(cfg: Config, hw: Hw, r: Scaling)
    requires cfg.Sound() && SafeAt(cfg, hw) && SafeAt(cfg, hw.(vdd := FinalVdd(cfg, r)))
    ensures SafeThroughout(cfg, hw, FinalOps(cfg, r))
  {
    var op := SetVdd(r.newVolt - (if r.cprEnabled then 0 else 1), r.aggr.ceiling);
    var hw1 := Apply(cfg, hw, op);
    assert hw1 == hw.(vdd := FinalVdd(cfg, r));
    SafeOne(cfg, hw, op);
    RunOne(cfg, hw, op);
    if r.newVolt == CrossingLast(cfg, r) && cfg.supportsHw && cfg.isCpr4 {
      SafeOne(cfg, hw1, SyncVdd);
      SafeConcat(cfg, hw, [op], [SyncVdd]);
    }
  }

  /** The settings after the crossings allow the end of the scaling. */
  lemma SettingsAllowEnd(cfg: Config, hw: Hw, r: Scaling)
    requires StartsSafe(cfg, hw, r) && CornerMemAccFits(cfg, hw, r)
    ensures var hw2 := Run(cfg, Run(cfg, hw, BeforeOps(cfg, r)), CrossingOps(cfg, r));
            SafeAt(cfg, hw2.(vdd := FinalVdd(cfg, r))) &&
            (r.newVolt >= r.lastVolt ==> SafeAt(cfg, WithCornerMemAcc(cfg, hw2, r).(vdd := FinalVdd(cfg, r))))
  {
    BeforeEffect(cfg, hw, r);
    var hw1 := Run(cfg, hw, BeforeOps(cfg, r));
    CrossingsAllowEnd(cfg, hw, hw1, r);
    var hw2 := Run(cfg, hw1, CrossingOps(cfg, r));
    if r.newVolt >= r.lastVolt {
      CornerSettingAllowed(cfg, hw2.(vdd := FinalVdd(cfg, r)), r);
      assert WithCornerMemAcc(cfg, hw2, r).(vdd := FinalVdd(cfg, r)) ==
        WithCornerMemAcc(cfg, hw2.(vdd := FinalVdd(cfg, r)), r);
    }
  }

  lemma CornerSettingAllowed(cfg: Config, hw: Hw, r: Scaling)
    requires SafeAt(cfg, hw)
    requires cfg.MemAccUsed() && cfg.hasMemAcc && r.aggr.memAcc != 0 ==> CornerSafe(cfg, r.aggr.memAcc, hw.vdd)
    ensures SafeAt(cfg, WithCornerMemAcc(cfg, hw, r))
  {}

  lemma CrossingsAllowEnd(cfg: Config, hw: Hw, hw1: Hw, r: Scaling)
    requires StartsSafe(cfg, hw, r) && CornerMemAccFits(cfg, hw, r)
    requires hw1.(system := hw.system) == (if r.newVolt < r.lastVolt then WithCornerMemAcc(cfg, hw, r) else hw)
    ensures SafeAt(cfg, Run(cfg, hw1, CrossingOps(cfg, r)).(vdd := FinalVdd(cfg, r)))
  {
    var end := Run(cfg, hw1, CrossingOps(cfg, r)).(vdd := FinalVdd(cfg, r));
    FinalSides(cfg, r);
    CrossingEffect(cfg, hw1, r);
    if MemAccCrosses(cfg, r, r.lastVolt) {
      SettingsAllow(cfg, end, r.RefVolt() >= cfg.memAccVolt, end.vdd);
    } else {
      UncrossedAllowEnd(cfg, hw, hw1, r, end);
    }
  }

  /** Mem-acc settings that are not crossed allow the end of the scaling as they are. */
  lemma UncrossedAllowEnd(cfg: Config, hw: Hw, hw1: Hw, r: Scaling, end: Hw)
    requires StartsSafe(cfg, hw, r) && CornerMemAccFits(cfg, hw, r) && !MemAccCrosses(cfg, r, r.lastVolt)
    requires hw1.(system := hw.system) == (if r.newVolt < r.lastVolt then WithCornerMemAcc(cfg, hw, r) else hw)
    requires end.memAcc == hw1.memAcc && end.vregMemAcc == hw1.vregMemAcc && end.vdd == FinalVdd(cfg, r)
    ensures MemAccSafe(cfg, end)
  {
    FinalSides(cfg, r);
    if cfg.MemAccUsed() {
      assert MemAccAt(cfg, hw, cfg.MemAccCorner(r.newVolt >= cfg.memAccVolt));
    }
  }

  lemma BeforeOpsSafe(cfg: Config, hw: Hw, r: Scaling)
    requires StartsSafe(cfg, hw, r) && CornerMemAccFits(cfg, hw, r)
    ensures SafeThroughout(cfg, hw, BeforeOps(cfg, r)) && SafeAt(cfg, Run(cfg, hw, BeforeOps(cfg, r)))
  {
    BeforeEffect(cfg, hw, r);
    if r.newVolt < r.lastVolt {
      CornerMemAccOpsSafe(cfg, hw, r);
    } else {
      SystemOpsSafe(cfg, hw, r);
    }
  }

  lemma AfterOpsSafe(cfg: Config, hw: Hw, r: Scaling)
    requires cfg.Sound() && RefAgrees(cfg, r) && SafeAt(cfg, hw)
    requires r.newVolt >= r.lastVolt ==> SafeAt(cfg, WithCornerMemAcc(cfg, hw, r))
    ensures SafeThroughout(cfg, hw, AfterOps(cfg, r))
  {
    CrossingKeepsDirection(cfg, r);
    if r.newVolt >= r.lastVolt {
      CornerMemAccOpsSafe(cfg, hw, r);
    } else {
      SystemOpsSafe(cfg, hw, r);
    }
  }

  lemma CrossingPartSafe(cfg: Config, hw: Hw, r: Scaling)
    requires StartsSafe(cfg, hw, r) && LastAllows(cfg, r) && CornerMemAccFits(cfg, hw, r)
    ensures SafeThroughout(cfg, Run(cfg, hw, BeforeOps(cfg, r)), CrossingOps(cfg, r))
  {
    BeforeOpsSafe(cfg, hw, r);
    BeforeEffect(cfg, hw, r);
    if ApmCrosses(cfg, r) && (MemAccCrosses(cfg, r, r.lastVolt) ==> ApmFirst(cfg, r)) {
      OldSettingsAllowApm(cfg, hw, r);
    }
    CrossingsAreSafe(cfg, Run(cfg, hw, BeforeOps(cfg, r)), r);
  }

  lemma EndPartSafe(cfg: Config, hw: Hw, r: Scaling)
    requires cfg.Sound() && RefAgrees(cfg, r) && SafeAt(cfg, hw) && SafeAt(cfg, hw.(vdd := FinalVdd(cfg, r)))
    requires r.newVolt >= r.lastVolt ==> SafeAt(cfg, WithCornerMemAcc(cfg, hw, r).(vdd := FinalVdd(cfg, r)))
    ensures SafeThroughout(cfg, hw, FinalOps(cfg, r))
    ensures SafeThroughout(cfg, Run(cfg, hw, FinalOps(cfg, r)), AfterOps(cfg, r))
  {
    var end := hw.(vdd := FinalVdd(cfg, r));
    FinalOpsSafe(cfg, hw, r);
    FinalEffect(cfg, hw, r);
    assert WithCornerMemAcc(cfg, hw, r).(vdd := FinalVdd(cfg, r)) == WithCornerMemAcc(cfg, end, r);
    AfterOpsSafe(cfg, end, r);
  }

  lemma FittingIsSafe(cfg: Config, hw: Hw, r: Scaling)
    requires StartsSafe(cfg, hw, r) && LastAllows(cfg, r) && CornerMemAccFits(cfg, hw, r)
    ensures SafeThroughout(cfg, hw, Plan(cfg, r))
  {
    var hw1 := Run(cfg, hw, BeforeOps(cfg, r));
    BeforeOpsSafe(cfg, hw, r);
    CrossingPartSafe(cfg, hw, r);
    SafeAtEnd(cfg, hw1, CrossingOps(cfg, r));
    SettingsAllowEnd(cfg, hw, r);
    EndPartSafe(cfg, Run(cfg, hw1, CrossingOps(cfg, r)), r);
    SafeInParts(cfg, hw, BeforeOps(cfg, r), CrossingOps(cfg, r), FinalOps(cfg, r), AfterOps(cfg, r));
  }

  lemma SafeInParts(cfg: Config, hw: Hw, a: seq<Op>, b: seq<Op>, c: seq<Op>, d: seq<Op>)
    requires cfg.step > 0 && SafeThroughout(cfg, hw, a) && SafeThroughout(cfg, Run(cfg, hw, a), b)
    requires var hw2 := Run(cfg, Run(cfg, hw, a), b);
             SafeThroughout(cfg, hw2, c) && SafeThroughout(cfg, Run(cfg, hw2, c), d)
    ensures SafeThroughout(cfg, hw, a + b + c + d)
  {
    SafeConcat(cfg, hw, a, b);
    RunConcat(cfg, hw, a, b);
    SafeConcat(cfg, hw, a + b, c);
    RunConcat(cfg, hw, a + b, c);
    SafeConcat(cfg, hw, a + b + c, d);
  }

  /** The operations up to the mem-acc switch. */
  function UntilMemAcc(cfg: Config, r: Scaling): seq<Op> {
    BeforeOps(cfg, r) +
    if ApmCrosses(cfg, r) && ApmFirst(cfg, r) then ApmOps(cfg, r) + MemAccOps(cfg, r, cfg.apmVolt)
    else MemAccOps(cfg, r, r.lastVolt)
  }

  /** A last voltage above the threshold switches mem-acc low too early. */
  lemma HighLastIsUnsafe(cfg: Config, hw: Hw, r: Scaling)
    requires StartsSafe(cfg, hw, r) && !LastAllows(cfg, r)
    ensures UntilMemAcc(cfg, r) <= Plan(cfg, r) && !SafeAt(cfg, Run(cfg, hw, UntilMemAcc(cfg, r)))
  {
    UntilMemAccEffect(cfg, hw, r);
    RoundUpReaches(r.aggr.last, cfg.memAccVolt, cfg.step);
    LowAboveIsUnsafe(cfg, Run(cfg, hw, UntilMemAcc(cfg, r)));
    UntilMemAccIsPrefix(cfg, r);
  }

  lemma UntilMemAccIsPrefix(cfg: Config, r: Scaling)
    requires MemAccCrosses(cfg, r, r.lastVolt)
    ensures UntilMemAcc(cfg, r) <= Plan(cfg, r)
  {
    var b := if ApmCrosses(cfg, r) && ApmFirst(cfg, r) then ApmOps(cfg, r) + MemAccOps(cfg, r, cfg.apmVolt)
             else MemAccOps(cfg, r, r.lastVolt);
    assert b <= CrossingOps(cfg, r);
    assert BeforeOps(cfg, r) + b <= BeforeOps(cfg, r) + CrossingOps(cfg, r);
    assert BeforeOps(cfg, r) + CrossingOps(cfg, r) <= Plan(cfg, r);
  }

  /** The mem-acc switch on the way down, wherever it stops for it. */
  lemma UntilMemAccEffect(cfg: Config, hw: Hw, r: Scaling)
    requires cfg.Sound() && |hw.vregMemAcc| == |cfg.vregMemAcc|
    requires MemAccCrosses(cfg, r, r.lastVolt) && r.RefVolt() < cfg.memAccVolt
    ensures var hw' := Run(cfg, hw, UntilMemAcc(cfg, r));
            |hw'.vregMemAcc| == |cfg.vregMemAcc| && MemAccAt(cfg, hw', cfg.lowCorner) &&
            hw'.vdd == RoundUp(Max(cfg.memAccVolt, r.aggr.last), cfg.step)
  {
    var a, hw1 := BeforeOps(cfg, r), Run(cfg, hw, BeforeOps(cfg, r));
    BeforeEffect(cfg, hw, r);
    if ApmCrosses(cfg, r) && ApmFirst(cfg, r) {
      var x := ApmOps(cfg, r);
      ApmEffect(cfg, hw1, r);
      RunConcat(cfg, hw, a, x + MemAccOps(cfg, r, cfg.apmVolt));
      RunConcat(cfg, hw1, x, MemAccOps(cfg, r, cfg.apmVolt));
      MemAccEffect(cfg, Run(cfg, hw1, x), r, cfg.apmVolt);
    } else {
      RunConcat(cfg, hw, a, MemAccOps(cfg, r, r.lastVolt));
      MemAccEffect(cfg, hw1, r, r.lastVolt);
    }
  }

  /** A corner's own mem-acc setting that does not fit is made, or left, at the wrong voltage. */
  lemma UnfitCornerIsUnsafe(cfg: Config, hw: Hw, r: Scaling)
    requires StartsSafe(cfg, hw, r) && !CornerMemAccFits(cfg, hw, r)
    ensures !SafeThroughout(cfg, hw, Plan(cfg, r))
  {
    var plan := Plan(cfg, r);
    CornerMemAccOrder(cfg, r);
    PlanEffect(cfg, hw, r);
    assert plan[..|plan|] == plan;
    if r.newVolt < r.lastVolt && !CornerSafe(cfg, r.aggr.memAcc, hw.vdd) {
      assert plan[..1] == [SetMemAcc(r.aggr.memAcc)];
      RunOne(cfg, hw, SetMemAcc(r.aggr.memAcc));
      assert !SafeAt(cfg, Run(cfg, hw, plan[..1]));
    } else {
      assert !SafeAt(cfg, Run(cfg, hw, plan[..|plan|]));
    }
  }

  /** A scaling that starts from matching settings is safe before, between and after all its
      operations exactly when the corner's last voltage is not above a mem-acc threshold that
      is crossed downwards, and a mem-acc setting of the corner itself fits. */
  lemma PlanIsSafeExactly(cfg: Config, hw: Hw, r: Scaling)
    requires StartsSafe(cfg, hw, r)
    ensures SafeThroughout(cfg, hw, Plan(cfg, r)) <==> LastAllows(cfg, r) && CornerMemAccFits(cfg, hw, r)
  {
    if !LastAllows(cfg, r) {
      HighLastIsUnsafe(cfg, hw, r);
      assert UntilMemAcc(cfg, r) == Plan(cfg, r)[..|UntilMemAcc(cfg, r)|];
    } else if CornerMemAccFits(cfg, hw, r) {
      FittingIsSafe(cfg, hw, r);
    } else {
      UnfitCornerIsUnsafe(cfg, hw, r);
    }
  }

  /** On the update path, where the corner's last voltage is the target, only a mem-acc setting
      of the corner itself can be unsafe; without a mem-acc threshold nothing can. */
  lemma UpdateIsSafeExactly(cfg: Config, hw: Hw, r: Scaling)
    requires StartsSafe(cfg, hw, r) && r.aggr.last == r.newVolt
    ensures SafeThroughout(cfg, hw, Plan(cfg, r)) <==> CornerMemAccFits(cfg, hw, r)
    ensures !cfg.MemAccUsed() ==> SafeThroughout(cfg, hw, Plan(cfg, r))
  {
    PlanIsSafeExactly(cfg, hw, r);
  }

  /** The same on the interrupt path, where the corner's last voltage is the old one, a set
      point, and the move is of at most one step. */
  lemma InterruptIsSafeExactly(cfg: Config, hw: Hw, r: Scaling)
    requires StartsSafe(cfg, hw, r) && r.aggr.last == r.lastVolt && !r.hwClosedLoop
    requires Aligned(r.lastVolt, cfg.step) && r.lastVolt - cfg.step <= r.newVolt <= r.lastVolt + cfg.step
    ensures SafeThroughout(cfg, hw, Plan(cfg, r)) <==> CornerMemAccFits(cfg, hw, r)
    ensures !cfg.MemAccUsed() ==> SafeThroughout(cfg, hw, Plan(cfg, r))
  {
    if r.newVolt < cfg.memAccVolt <= r.lastVolt {
      AlignedGap(cfg.memAccVolt, r.lastVolt, cfg.step);
    }
    PlanIsSafeExactly(cfg, hw, r);
  }
}
