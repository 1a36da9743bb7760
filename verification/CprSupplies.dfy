/** The supplies of a controller, and the methods that scale the vdd voltage by requests to
    them, any of which may fail. */
module CprSupplies {
  import opened CInt
  import opened CprScaling
  import opened CprStopped
  import opened CprRequests

  /** The operations that succeeded, and all that were asked for. */
  datatype Log = Log(done: seq<Op>, asked: seq<Op>)

  /** From one log to the next by a call that is to carry out the plan: all of it, or as far as an
      operation that failed. After a failed APM switch the roll-back of the voltage is always
      asked for, and may fail as well. */
  ghost predicate Went(before: Log, now: Log, plan: seq<Op>, rollback: int, rc: int) {
    if rc == 0 then now == Log(before.done + plan, before.asked + plan)
    else exists k :: 0 <= k < |plan| && FailedAt(before, now, plan, rollback, k)
  }

  ghost predicate FailedAt(before: Log, now: Log, plan: seq<Op>, rollback: int, k: nat)
    requires k < |plan|
  {
    StoppedAt(before.done, now.done, plan, rollback, k) &&
    now.asked == before.asked + plan[..k + 1] + (if plan[k].SetApm? then [SetVdd(rollback, INT_MAX)] else [])
  }

  /** One operation other than an APM switch. */
  lemma WentOne(before: Log, op: Op, rollback: int, rc: int)
    requires !op.SetApm?
    ensures Went(before, Log(if rc == 0 then before.done + [op] else before.done, before.asked + [op]),
                 [op], rollback, rc)
  {
    if rc != 0 {
      assert before.done + [op][..0] == before.done && [op][..1] == [op];
      assert FailedAt(before, Log(before.done, before.asked + [op]), [op], rollback, 0);
    }
  }

  /** A failed APM switch, whether its roll-back succeeds or not. */
  lemma WentBack(before: Log, op: Op, rollback: int, rc: int, back: int)
    requires op.SetApm? && rc != 0
    ensures var down := SetVdd(rollback, INT_MAX);
            Went(before, Log(if back == 0 then before.done + [down] else before.done, before.asked + [op] + [down]),
                 [op], rollback, rc)
  {
    var down := SetVdd(rollback, INT_MAX);
    assert before.done + [op][..0] == before.done && [op][..1] == [op];
    assert FailedAt(before, Log(if back == 0 then before.done + [down] else before.done, before.asked + [op] + [down]),
                    [op], rollback, 0);
  }

  lemma WentNone(before: Log, rollback: int)
    ensures Went(before, before, [], rollback, 0)
  {
    assert before.done + [] == before.done && before.asked + [] == before.asked;
  }

  lemma WentOn(before: Log, mid: Log, now: Log, a: seq<Op>, b: seq<Op>, rollback: int, rc: int)
    requires Went(before, mid, a, rollback, 0) && Went(mid, now, b, rollback, rc)
    ensures Went(before, now, a + b, rollback, rc)
  {
    if rc == 0 {
      assert before.done + a + b == before.done + (a + b) && before.asked + a + b == before.asked + (a + b);
    } else {
      var k :| 0 <= k < |b| && FailedAt(mid, now, b, rollback, k);
      assert (a + b)[..|a| + k] == a + b[..k] && (a + b)[..|a| + k + 1] == a + b[..k + 1];
      assert before.done + a + b[..k] == before.done + (a + b[..k]);
      assert before.asked + a + b[..k + 1] == before.asked + (a + b[..k + 1]);
      assert FailedAt(before, now, a + b, rollback, |a| + k);
    }
  }

  lemma WentPartly(before: Log, now: Log, a: seq<Op>, plan: seq<Op>, rollback: int, rc: int)
    requires rc != 0 && Went(before, now, a, rollback, rc) && a <= plan
    ensures Went(before, now, plan, rollback, rc)
  {
    var k :| 0 <= k < |a| && FailedAt(before, now, a, rollback, k);
    assert plan[..k] == a[..k] && plan[..k + 1] == a[..k + 1];
    assert FailedAt(before, now, plan, rollback, k);
  }

  lemma WentIsStopped(before: Log, now: Log, plan: seq<Op>, rollback: int, rc: int)
    requires rc != 0 && Went(before, now, plan, rollback, rc)
    ensures Stopped(before.done, now.done, plan, rollback)
  {}

  class Supplies {
    const cfg: Config
    var hw: Hw
    ghost const start: Hw
    ghost var log: Log

    ghost predicate Valid()
      reads this
    {
      cfg.step > 0 && hw == Run(cfg, start, log.done) && NoneRefused(cfg, log.done)
    }

    constructor (cfg: Config, hw: Hw)
      requires cfg.step > 0
      ensures Valid() && this.cfg == cfg && this.hw == hw && log == Log([], [])
    {
      this.cfg, this.hw, start, log := cfg, hw, hw, Log([], []);
    }

    /** One request to the hardware, which may fail and then changes nothing; one for a range
        without a set point always does. */
    method Issue(op: Op) returns (rc: int)
      requires Valid()
      modifies this
      ensures Valid() && (Refused(cfg, op) ==> rc != 0)
      ensures log == Log(if rc == 0 then old(log.done) + [op] else old(log.done), old(log.asked) + [op])
    {
      log := log.(asked := log.asked + [op]);
      if Refused(cfg, op) {
        return -EINVAL;
      }
      var fails: bool := *;
      if fails {
        return -EIO;
      }
      hw := Apply(cfg, hw, op);
      log := log.(done := log.done + [op]);
      assert log.done[..|log.done| - 1] == old(log.done);
      NoneRefusedOne(cfg, op);
      NoneRefusedConcat(cfg, old(log.done), [op]);
      return 0;
    }

    /** An operation other than an APM switch. */
    method IssueOne(op: Op, ghost rollback: int) returns (rc: int)
      requires Valid() && !op.SetApm?
      modifies this
      ensures Valid() && Went(old(log), log, [op], rollback, rc)
    {
      rc := Issue(op);
      WentOne(old(log), op, rollback, rc);
    }

    method SwitchApmMode(r: Scaling, last: int) returns (rc: int, last': int)
      requires Valid()
      modifies this
      ensures Valid() && Went(old(log), log, ApmOps(cfg, r), last, rc)
      ensures last' == if rc == 0 then cfg.apmVolt else last
    {
      last' := last;
      ghost var stop, op := SetVdd(cfg.apmVolt, cfg.apmVolt), SetApm(r.newVolt >= cfg.apmVolt);
      ApmInParts(cfg, r);
      rc := IssueOne(SetVdd(cfg.apmVolt, cfg.apmVolt), last);
      if rc != 0 {
        WentPartly(old(log), log, [stop], ApmOps(cfg, r), last, rc);
        return;
      }
      last' := cfg.apmVolt;
      ghost var mid := log;
      rc := SetApmSupply(r.newVolt >= cfg.apmVolt, last);
      if rc != 0 {
        last' := last;
      }
      WentOn(old(log), mid, log, [stop], [op], last, rc);
    }

    /** msm_apm_set_supply, and the roll-back of the voltage if it fails. */
    method SetApmSupply(high: bool, last: int) returns (rc: int)
      requires Valid()
      modifies this
      ensures Valid() && Went(old(log), log, [SetApm(high)], last, rc)
    {
      rc := Issue(SetApm(high));
      if rc != 0 {
        var back := Issue(SetVdd(last, INT_MAX));
        WentBack(old(log), SetApm(high), last, rc, back);
      } else {
        assert log == Log(old(log.done) + [SetApm(high)], old(log.asked) + [SetApm(high)]);
      }
    }

    /** The loop over the regulators of all threads. */
    method SetVregMemAccs(corner: int, ghost rollback: int) returns (rc: int)
      requires Valid()
      modifies this
      ensures Valid() && Went(old(log), log, VregMemAccOps(cfg.vregMemAcc, |cfg.vregMemAcc|, corner), rollback, rc)
    {
      rc := 0;
      WentNone(log, rollback);
      for i := 0 to |cfg.vregMemAcc|
        invariant Valid() && rc == 0 && Went(old(log), log, VregMemAccOps(cfg.vregMemAcc, i, corner), rollback, 0)
      {
        if cfg.vregMemAcc[i] {
          ghost var done, mid := VregMemAccOps(cfg.vregMemAcc, i, corner), log;
          rc := IssueOne(SetVregMemAcc(i, corner), rollback);
          WentOn(old(log), mid, log, done, [SetVregMemAcc(i, corner)], rollback, rc);
          if rc != 0 {
            VregMemAccPrefix(cfg.vregMemAcc, i, |cfg.vregMemAcc|, corner);
            WentPartly(old(log), log, done + [SetVregMemAcc(i, corner)],
                       VregMemAccOps(cfg.vregMemAcc, |cfg.vregMemAcc|, corner), rollback, rc);
            return;
          }
        }
      }
    }

    method ConfigBhsMemAcc(r: Scaling, last: int) returns (rc: int, last': int)
      requires Valid()
      modifies this
      ensures Valid() && Went(old(log), log, MemAccOps(cfg, r, last), RollbackVolt(cfg, r), rc)
      ensures rc == 0 ==> last' == MemAccLast(cfg, r, last)
    {
      rc, last' := 0, last;
      WentNone(log, RollbackVolt(cfg, r));
      if !cfg.MemAccUsed() {
        return;
      }
      var refVolt := if r.hwClosedLoop then r.aggr.floor else r.newVolt;
      if (last < cfg.memAccVolt && cfg.memAccVolt <= refVolt) || (last >= cfg.memAccVolt && cfg.memAccVolt > refVolt) {
        var safeVolt := if refVolt < last then Max(cfg.memAccVolt, r.aggr.last) else Max(cfg.memAccVolt, last);
        ghost var ops, back := MemAccOps(cfg, r, last), RollbackVolt(cfg, r);
        var op := SetVdd(safeVolt, if r.newVolt < last then r.oldCeiling else r.newVolt);
        rc := IssueOne(op, back);
        if rc != 0 {
          WentPartly(old(log), log, [op], ops, back, rc);
          return;
        }
        last' := safeVolt;
        var corner := if refVolt < cfg.memAccVolt then cfg.lowCorner else cfg.highCorner;
        ghost var mid := log;
        rc := SwitchMemAcc(refVolt >= cfg.memAccVolt, corner, back);
        WentOn(old(log), mid, log, [op], MemAccSwitch(cfg, refVolt >= cfg.memAccVolt), back, rc);
      }
    }

    method SwitchMemAcc(ghost high: bool, corner: int, ghost rollback: int) returns (rc: int)
      requires Valid() && corner == cfg.MemAccCorner(high)
      modifies this
      ensures Valid() && Went(old(log), log, MemAccSwitch(cfg, high), rollback, rc)
    {
      ghost var first := if cfg.hasMemAcc then [SetMemAcc(corner)] else [];
      WentNone(log, rollback);
      if cfg.hasMemAcc {
        rc := IssueOne(SetMemAcc(corner), rollback);
        if rc != 0 {
          WentPartly(old(log), log, first, MemAccSwitch(cfg, high), rollback, rc);
          return;
        }
      }
      ghost var mid := log;
      rc := SetVregMemAccs(corner, rollback);
      WentOn(old(log), mid, log, first, VregMemAccOps(cfg.vregMemAcc, |cfg.vregMemAcc|, corner), rollback, rc);
    }

    method ConfigVoltageCrossings(r: Scaling) returns (rc: int, last': int)
      requires Valid()
      modifies this
      ensures Valid() && Went(old(log), log, CrossingOps(cfg, r), RollbackVolt(cfg, r), rc)
      ensures rc == 0 ==> last' == CrossingLast(cfg, r)
    {
      var apmCrossing := ApmCrosses(cfg, r);
      var memAccCrossing := MemAccCrosses(cfg, r, r.lastVolt);
      rc, last' := 0, r.lastVolt;
      WentNone(log, RollbackVolt(cfg, r));
      if apmCrossing && memAccCrossing {
        if (r.newVolt < r.lastVolt && cfg.apmVolt >= cfg.memAccVolt) ||
          (r.newVolt >= r.lastVolt && cfg.apmVolt < cfg.memAccVolt) {
          rc, last' := ApmThenMemAcc(r);
        } else {
          rc, last' := MemAccThenApm(r);
        }
      } else if apmCrossing {
        rc, last' := SwitchApmMode(r, last');
      } else if memAccCrossing {
        rc, last' := ConfigBhsMemAcc(r, last');
      }
    }

    method ApmThenMemAcc(r: Scaling) returns (rc: int, last': int)
      requires Valid() && ApmCrosses(cfg, r) && MemAccCrosses(cfg, r, r.lastVolt) && ApmFirst(cfg, r)
      modifies this
      ensures Valid() && Went(old(log), log, CrossingOps(cfg, r), RollbackVolt(cfg, r), rc)
      ensures rc == 0 ==> last' == CrossingLast(cfg, r)
    {
      rc, last' := SwitchApmMode(r, r.lastVolt);
      if rc != 0 {
        WentPartly(old(log), log, ApmOps(cfg, r), CrossingOps(cfg, r), r.lastVolt, rc);
        return;
      }
      ghost var mid := log;
      rc, last' := ConfigBhsMemAcc(r, last');
      WentOn(old(log), mid, log, ApmOps(cfg, r), MemAccOps(cfg, r, cfg.apmVolt), r.lastVolt, rc);
    }

    method MemAccThenApm(r: Scaling) returns (rc: int, last': int)
      requires Valid() && ApmCrosses(cfg, r) && MemAccCrosses(cfg, r, r.lastVolt) && !ApmFirst(cfg, r)
      modifies this
      ensures Valid() && Went(old(log), log, CrossingOps(cfg, r), RollbackVolt(cfg, r), rc)
      ensures rc == 0 ==> last' == CrossingLast(cfg, r)
    {
      ghost var back := RollbackVolt(cfg, r);
      rc, last' := ConfigBhsMemAcc(r, r.lastVolt);
      if rc != 0 {
        WentPartly(old(log), log, MemAccOps(cfg, r, r.lastVolt), CrossingOps(cfg, r), back, rc);
        return;
      }
      ghost var mid := log;
      rc, last' := SwitchApmMode(r, last');
      WentOn(old(log), mid, log, MemAccOps(cfg, r, r.lastVolt), ApmOps(cfg, r), back, rc);
    }

    /** The request to the system supply, or for the mem-acc setting of the corner, if there is one. */
    method IssueAny(ops: seq<Op>, ghost rollback: int) returns (rc: int)
      requires Valid() && |ops| <= 1 && forall i :: 0 <= i < |ops| ==> !ops[i].SetApm?
      modifies this
      ensures Valid() && Went(old(log), log, ops, rollback, rc)
    {
      rc := 0;
      WentNone(log, rollback);
      if |ops| == 1 {
        rc := IssueOne(ops[0], rollback);
        assert ops == [ops[0]];
      }
    }

    /** cpr3_regulator_scale_vdd_voltage: on success exactly the planned operations, in
        order; on failure a part of them, as Went describes. */
    method ScaleVddVoltage(r: Scaling) returns (rc: int)
      requires Valid()
      modifies this
      ensures Valid() && Went(old(log), log, Plan(cfg, r), RollbackVolt(cfg, r), rc)
      ensures rc == 0 ==> hw == Run(cfg, old(hw), Plan(cfg, r)) && NoneRefused(cfg, Plan(cfg, r))
    {
      ghost var a, b, c, d := BeforeOps(cfg, r), CrossingOps(cfg, r), FinalOps(cfg, r), AfterOps(cfg, r);
      ghost var back := RollbackVolt(cfg, r);
      PlanInParts(cfg, r);
      if r.newVolt < r.lastVolt {
        rc := IssueAny(CornerMemAccOps(cfg, r), back);
      } else {
        rc := IssueAny(SystemOps(cfg, r), back);
      }
      if rc != 0 {
        WentPartly(old(log), log, a, Plan(cfg, r), back, rc);
        return;
      }
      ghost var mid := log;
      rc := ScaleOn(r);
      WentOn(old(log), mid, log, a, b + c + d, back, rc);
      if rc == 0 {
        RunConcat(cfg, start, old(log.done), Plan(cfg, r));
        NoneRefusedConcat(cfg, old(log.done), Plan(cfg, r));
      }
    }

    /** From the crossings on. */
    method ScaleOn(r: Scaling) returns (rc: int)
      requires Valid()
      modifies this
      ensures Valid()
      ensures Went(old(log), log, CrossingOps(cfg, r) + FinalOps(cfg, r) + AfterOps(cfg, r), RollbackVolt(cfg, r), rc)
    {
      ghost var b, c, d := CrossingOps(cfg, r), FinalOps(cfg, r), AfterOps(cfg, r);
      ghost var back := RollbackVolt(cfg, r);
      var last;
      rc, last := ConfigVoltageCrossings(r);
      if rc != 0 {
        WentPartly(old(log), log, b, b + c + d, back, rc);
        return;
      }
      ghost var mid := log;
      rc := SetTarget(r, last);
      WentOn(old(log), mid, log, b, c, back, rc);
      if rc != 0 {
        WentPartly(old(log), log, b + c, b + c + d, back, rc);
        return;
      }
      mid := log;
      if r.newVolt >= last {
        rc := IssueAny(CornerMemAccOps(cfg, r), back);
      } else {
        rc := IssueAny(SystemOps(cfg, r), back);
      }
      WentOn(old(log), mid, log, b + c, d, back, rc);
    }

    /** The final set point. With CPR disabled one microvolt is taken off, so that the
        request is not dropped as a duplicate. */
    method SetTarget(r: Scaling, last: int) returns (rc: int)
      requires Valid() && last == CrossingLast(cfg, r)
      modifies this
      ensures Valid() && Went(old(log), log, FinalOps(cfg, r), RollbackVolt(cfg, r), rc)
    {
      var op := SetVdd(r.newVolt - (if r.cprEnabled then 0 else 1), r.aggr.ceiling);
      ghost var back := RollbackVolt(cfg, r);
      rc := IssueOne(op, back);
      if rc != 0 {
        WentPartly(old(log), log, [op], FinalOps(cfg, r), back, rc);
        return;
      }
      if r.newVolt == last && cfg.supportsHw && cfg.isCpr4 {
        ghost var mid := log;
        rc := IssueOne(SyncVdd, back);
        WentOn(old(log), mid, log, [op], [SyncVdd], back, rc);
      } else {
        assert FinalOps(cfg, r) == [op];
      }
    }
  }

  lemma ApmInParts(cfg: Config, r: Scaling)
    ensures var stop, op := SetVdd(cfg.apmVolt, cfg.apmVolt), SetApm(r.newVolt >= cfg.apmVolt);
            ApmOps(cfg, r) == [stop] + [op] && [stop] <= ApmOps(cfg, r)
  {}

  lemma PlanInParts(cfg: Config, r: Scaling)
    ensures var a, b, c, d := BeforeOps(cfg, r), CrossingOps(cfg, r), FinalOps(cfg, r), AfterOps(cfg, r);
            a + (b + c + d) == Plan(cfg, r) && a <= Plan(cfg, r)
  {}

  lemma {:induction false} VregMemAccPrefix(owners: seq<bool>, i: nat, n: nat, corner: int)
    requires i < n <= |owners| && owners[i]
    ensures VregMemAccOps(owners, i, corner) + [SetVregMemAcc(i, corner)] <= VregMemAccOps(owners, n, corner)
  {
    if i + 1 < n {
      VregMemAccPrefix(owners, i, n - 1, corner);
    }
  }
}
