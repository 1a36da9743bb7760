/** The controller as the driver keeps it, and its update and interrupt methods. */
module CprController {
  import opened CInt
  import opened CprCorner
  import opened CprScaling
  import opened CprScalingSafety
  import opened CprStopped
  import opened CprRuns
  import opened CprRegulators
  import opened CprSupplies

  /** The voltage decision of cpr3_irq_handler. */
  method DecideIrq(aggr: Corner, step: int, up: bool, down: bool, dynamicFloor: int)
    returns (newVolt: int, irqEn: set<Irq>)
    requires up != down
    ensures newVolt == IrqVolt(aggr, step, up, dynamicFloor) && irqEn == IrqEnables(aggr, step, up, dynamicFloor)
  {
    newVolt := if up then aggr.last + step else aggr.last - step;
    irqEn := aggr.irqEn + {if up then Down else Up};
    if newVolt > aggr.ceiling {
      newVolt := aggr.ceiling;
      irqEn := irqEn - {Up};
    } else if newVolt < aggr.floor {
      newVolt := aggr.floor;
      irqEn := irqEn - {Down};
    }
    if down && newVolt < dynamicFloor {
      newVolt := aggr.last;
      irqEn := irqEn - {Down};
    }
  }

  /** From the aggregated corner to what the supply is asked for. */
  method ChooseScaling(cfg: Config, mode: Mode, joined: Corner, dynamicFloor: int, sdeltaDiff: int, apmAdj: int,
                       hwClosedLoop: bool, knownVolt: int, oldCeiling: int, ghost c: Ctrl, ghost u: Update)
    returns (r: Scaling)
    requires mode == Mode(cfg.isCpr4, cfg.supportsHw, u.cprEnabled, c.lastWasClosedLoop)
    requires dynamicFloor == u.dynamicFloor && sdeltaDiff == u.sdeltaDiff && apmAdj == u.apmAdj &&
             hwClosedLoop == u.hwClosedLoop
    requires knownVolt == KnownVolt(cfg, c) && oldCeiling == c.aggr.ceiling
    ensures r == UpdateScaling(cfg, c, joined, u)
  {
    var a := Reshape(LimitsOf(cfg, hwClosedLoop, apmAdj), joined, dynamicFloor);
    var newVolt := NewVolt(mode, a, sdeltaDiff);
    a := a.(last := newVolt);
    r := Scaling(newVolt, knownVolt, a, hwClosedLoop, mode.cprEnabled, oldCeiling);
  }

  /** The interrupts at the limits of the range are disabled in software closed-loop. */
  method IrqsAtLimits(a: Corner, cprEnabled: bool, hwClosedLoop: bool) returns (b: Corner)
    ensures b == WithIrqs(a, cprEnabled, hwClosedLoop)
  {
    b := a;
    if cprEnabled && !hwClosedLoop {
      if b.last == b.floor {
        b := b.(irqEn := b.irqEn - {Down});
      }
      if b.last == b.ceiling {
        b := b.(irqEn := b.irqEn - {Up});
      }
    }
  }

  /** An update depends on the corner in force, the supplies and the last mode only. */
  lemma SameScaling(cfg: Config, c: Ctrl, d: Ctrl, joined: Corner)
    requires c.aggr == d.aggr && c.hw == d.hw && c.lastWasClosedLoop == d.lastWasClosedLoop && cfg.step > 0
    ensures forall u: Update :: UpdateScaling(cfg, c, joined, u) == UpdateScaling(cfg, d, joined, u)
    ensures forall u: Update :: AfterUpdate(cfg, c, joined, u) == AfterUpdate(cfg, d, joined, u)
  {}

  // -------------------------------------------------------------- the controller

  class Controller {
    const cfg: Config
    const apmAdj: int
    const supplies: Supplies
    const hasLimit: bool
    var threads: seq<Thread>
    var aggr: Corner
    var cprAllowed: bool
    var hwClosedLoop: bool
    var cprEnabled: bool
    var lastWasClosedLoop: bool
    ghost var started: bool
    ghost var drifting: bool

    ghost predicate Valid()
      reads this, supplies
    {
      supplies.Valid() && supplies.cfg == cfg && ThreadsShape(threads)
    }

    ghost function St(): Ctrl
      reads this, supplies
    {
      Ctrl(aggr, supplies.hw, started, drifting, cprEnabled, lastWasClosedLoop)
    }

    /** All stored corners are good, and the supply and the corner in force on set points. */
    ghost predicate OnGrid()
      reads this, supplies
    {
      cfg.step > 0 && GoodThreads(cfg, threads) && aggr.OnSetPoints(cfg.step) && Aligned(supplies.hw.vdd, cfg.step)
    }

    /** With the data that cpr3_regulator_init_ctrl_data reads from the supply. */
    constructor (cfg: Config, apmAdj: int, supplies: Supplies, hasLimit: bool, threads: seq<Thread>,
                 cprAllowed: bool, hwClosedLoop: bool)
      requires supplies.Valid() && supplies.cfg == cfg && ThreadsShape(threads)
      ensures Valid() && this.cfg == cfg && this.supplies == supplies && this.threads == threads
      ensures var vdd := supplies.hw.vdd;
              St() == Ctrl(ZeroCorner({}).(last := vdd, openLoop := vdd), supplies.hw, false, false, false, false)
      ensures Matches(cfg, supplies.hw, supplies.hw.vdd) ==> Consistent(cfg, St())
    {
      this.cfg, this.apmAdj, this.supplies, this.threads := cfg, apmAdj, supplies, threads;
      this.hasLimit, this.cprAllowed, this.hwClosedLoop := hasLimit, cprAllowed, hwClosedLoop;
      aggr := ZeroCorner({}).(last := supplies.hw.vdd, openLoop := supplies.hw.vdd);
      cprEnabled, lastWasClosedLoop, started, drifting := false, false, false, false;
    }

    /** cpr3_closed_loop_enable or _disable, which may fail. */
    method SetClosedLoop(enable: bool) returns (rc: int)
      modifies this`cprEnabled
      ensures if rc == 0 then cprEnabled == enable else cprEnabled == old(cprEnabled)
    {
      var fails: bool := *;
      if fails {
        return -EIO;
      }
      cprEnabled := enable;
      return 0;
    }

    /** cpr3_regulator_scale_vdd_voltage, in terms of the hardware. */
    method Scale(r: Scaling) returns (rc: int)
      requires Valid()
      modifies supplies
      ensures Valid()
      ensures if rc == 0 then supplies.hw == Run(cfg, old(supplies.hw), Plan(cfg, r))
              else StoppedHw(cfg, old(supplies.hw), r, supplies.hw)
      ensures Aligned(old(supplies.hw).vdd, cfg.step) ==> Aligned(supplies.hw.vdd, cfg.step)
    {
      ghost var was, hw0 := supplies.log, supplies.hw;
      rc := supplies.ScaleVddVoltage(r);
      if rc != 0 {
        WentIsStopped(was, supplies.log, Plan(cfg, r), RollbackVolt(cfg, r), rc);
        StoppedRun(cfg, supplies.start, was.done, supplies.log.done, r);
        StoppedIsAligned(cfg, hw0, r, supplies.hw);
      } else if Aligned(hw0.vdd, cfg.step) {
        RunKeepsAligned(cfg, hw0, Plan(cfg, r));
      }
    }

    /** The range for the limit regulator, where there is one to be told. */
    method SetLimits() returns (rc: int)
    {
      rc := 0;
      var told := if cprEnabled then hwClosedLoop else cfg.isCpr4 && hasLimit;
      if told {
        var fails: bool := *;
        rc := if fails then -EIO else 0;
      }
    }

    /** cpr3_controller_program_sdelta, which may fail to get its clocks. */
    method ProgramSdelta() returns (rc: int)
    {
      var fails: bool := *;
      rc := if fails then -EIO else 0;
    }

    /** Scale and, on success, put the new corner in force. */
    method MoveTo(r: Scaling) returns (rc: int)
      requires Valid() && !drifting && r.hwClosedLoop == hwClosedLoop && r.cprEnabled == cprEnabled
      modifies this, supplies
      ensures Valid() && hwClosedLoop == old(hwClosedLoop) && cprAllowed == old(cprAllowed)
      ensures if rc == 0 then St() == InForce(cfg, old(supplies.hw), r) else FellShort(cfg, old(St()), r, St())
      ensures Aligned(old(supplies.hw).vdd, cfg.step) ==> Aligned(supplies.hw.vdd, cfg.step)
      ensures GoodThreads(cfg, old(threads)) ==> GoodThreads(cfg, threads)
      ensures rc == 0 ==> threads == if cprEnabled then RememberedAll(old(threads)) else old(threads)
    {
      rc := Scale(r);
      if rc != 0 {
        return;
      }
      rc := SetLimits();
      if rc != 0 {
        return;
      }
      PutInForce(r);
      rc := ProgramSdelta();
      if rc != 0 {
        return;
      }
      drifting, lastWasClosedLoop := hwClosedLoop && cprEnabled, cprEnabled;
    }

    /** What an update stores once the supply is where it should be. */
    method PutInForce(r: Scaling)
      requires Valid() && r.hwClosedLoop == hwClosedLoop && r.cprEnabled == cprEnabled
      modifies this`threads, this`aggr, this`started
      ensures Valid() && (GoodThreads(cfg, old(threads)) ==> GoodThreads(cfg, threads))
      ensures aggr == WithIrqs(r.aggr, cprEnabled, hwClosedLoop) && started
      ensures threads == if cprEnabled then RememberedAll(old(threads)) else old(threads)
    {
      if cprEnabled {
        ghost var was := threads;
        threads := RememberCorners(threads);
        if GoodThreads(cfg, was) {
          RememberedIsGood(cfg, was, threads);
        }
      }
      aggr := IrqsAtLimits(r.aggr, cprEnabled, hwClosedLoop);
      started := true;
    }

    /** An update stores settled voltages. */
    predicate Settles()
      reads this
    {
      cprEnabled && hwClosedLoop && lastWasClosedLoop
    }

    /** The measurement it reads, which only CPR3 in hardware closed-loop does. */
    function TakenMeasurement(m: Measurement): Measurement
      reads this
    {
      if cprEnabled && hwClosedLoop && !cfg.isCpr4 then m else NO_MEASUREMENT
    }

    /** The threads after it has aggregated them. */
    ghost function TakenThreads(m: Measurement): (r: seq<Thread>)
      requires Valid()
      reads this, supplies
      ensures ThreadsShape(r)
    {
      AggregatedThreads(cfg, Settles(), threads, supplies.hw.vdd, TakenMeasurement(m))
    }

    /** The first half of _cpr3_regulator_update_ctrl_state: stop the loop, read the
        supply, aggregate, and enable or disable CPR. */
    method Gather(m: Measurement)
      returns (rc: int, vddVolt: int, measured: Measurement, joined: Corner, valid: bool, ghost ts: seq<seq<Corner>>)
      requires Valid()
      modifies this`threads, this`drifting, this`cprEnabled
      ensures Valid() && AllShaped(ts)
      ensures rc == 0 ==> joined == CtrlJoin(ts) && (valid <==> AnyRequest(ts)) && vddVolt == supplies.hw.vdd
      ensures !drifting
      ensures cprEnabled == if rc == 0 then valid && cprAllowed else old(cprEnabled)
      ensures rc == 0 ==>
                measured == old(TakenMeasurement(m)) &&
                threads == AggregatedThreads(cfg, old(Settles()), old(threads), vddVolt, measured) &&
                ts == RequestsOf(threads)
      ensures old(OnGrid()) ==> OnGrid() && GoodRequests(cfg, ts)
    {
      drifting := false;  // cpr3_ctrl_loop_disable
      vddVolt, measured, joined, valid, ts := supplies.hw.vdd, NO_MEASUREMENT, ZeroCorner({}), false, [];
      var fails: bool := *;
      if fails {
        rc := -EIO;
        return;
      }
      if cprEnabled && hwClosedLoop && !cfg.isCpr4 {
        measured := m;
      }
      var after;
      var settle := cprEnabled && hwClosedLoop && lastWasClosedLoop;
      after, joined, valid, ts := Collect(cfg, settle, threads, vddVolt, measured);
      threads := after;
      rc := SetClosedLoop(valid && cprAllowed);
    }

    /** The second half, up to the scaling. */
    method Choose(measured: Measurement, vddVolt: int, sdeltaDiff: int, joined: Corner, ghost ts: seq<seq<Corner>>)
      returns (r: Scaling, ghost u: Update)
      requires Valid() && vddVolt == supplies.hw.vdd
      ensures u == Update(ts, u.dynamicFloor, sdeltaDiff, apmAdj, hwClosedLoop, cprEnabled)
      ensures r == UpdateScaling(cfg, St(), joined, u) && r.hwClosedLoop == hwClosedLoop && r.cprEnabled == cprEnabled
      ensures ForcedFloor(cfg, hwClosedLoop, threads, u.dynamicFloor, measured)
      ensures OnGrid() ==> Aligned(u.dynamicFloor, cfg.step)
    {
      var dynamicFloor := 0;
      if hwClosedLoop {
        dynamicFloor := GetDynamicFloor(cfg, threads, hwClosedLoop, measured);
        if OnGrid() && cfg.supportsHw {
          DynamicFloorOnSetPoint(cfg, dynamicFloor, threads, hwClosedLoop, measured);
        }
      }
      u := Update(ts, dynamicFloor, sdeltaDiff, apmAdj, hwClosedLoop, cprEnabled);
      var mode := Mode(cfg.isCpr4, cfg.supportsHw, cprEnabled, lastWasClosedLoop);
      var knownVolt := if cfg.isCpr4 && cfg.supportsHw then aggr.openLoop else vddVolt;
      r := ChooseScaling(cfg, mode, joined, dynamicFloor, sdeltaDiff, apmAdj, hwClosedLoop, knownVolt, aggr.ceiling,
                         St(), u);
    }

    /** _cpr3_regulator_update_ctrl_state. `u` tells what it took in: the corners of the
        regulators that take part, the dynamic floor, and the modes from now on. */
    method UpdateCtrlState(m: Measurement, sdeltaDiff: int)
      returns (rc: int, ghost u: Update)
      requires Valid()
      modifies this, supplies
      ensures Valid() && AllShaped(u.ts) &&
              u == Update(u.ts, u.dynamicFloor, sdeltaDiff, apmAdj, old(hwClosedLoop), old(cprAllowed))
      ensures UpdateEnds(cfg, old(St()), u, St(), rc)
      ensures old(OnGrid()) ==> GoodThreads(cfg, threads) && Aligned(supplies.hw.vdd, cfg.step)
      ensures old(OnGrid()) ==> GoodRequests(cfg, u.ts) && Aligned(u.dynamicFloor, cfg.step)
      ensures rc == 0 ==> u.ts == RequestsOf(old(TakenThreads(m)))
      ensures rc == 0 && AnyRequest(u.ts) ==>
                ForcedFloor(cfg, u.hwClosedLoop, old(TakenThreads(m)), u.dynamicFloor, old(TakenMeasurement(m)))
      ensures rc == 0 ==>
                threads ==
                  if AnyRequest(u.ts) && cprEnabled then RememberedAll(old(TakenThreads(m))) else old(TakenThreads(m))
    {
      ghost var c := St();
      var vddVolt, measured, joined, valid;
      ghost var ts;
      rc, vddVolt, measured, joined, valid, ts := Gather(m);
      rc, u := FinishUpdate(rc, vddVolt, measured, joined, valid, sdeltaDiff, ts, c);
    }

    /** What follows once the regulators have been asked: nothing if that failed or if none takes
        part. `c` is the controller before that. */
    method FinishUpdate(gathered: int, vddVolt: int, measured: Measurement, joined: Corner, valid: bool,
                        sdeltaDiff: int, ghost ts: seq<seq<Corner>>, ghost c: Ctrl)
      returns (rc: int, ghost u: Update)
      requires Valid() && AllShaped(ts) && St() == c.(drifting := false, cprEnabled := cprEnabled)
      requires if gathered != 0 then cprEnabled == c.cprEnabled
               else joined == CtrlJoin(ts) && (valid <==> AnyRequest(ts)) && cprEnabled == (valid && cprAllowed) &&
                    vddVolt == supplies.hw.vdd
      modifies this, supplies
      ensures Valid() && u == Update(ts, u.dynamicFloor, sdeltaDiff, apmAdj, old(hwClosedLoop), old(cprAllowed))
      ensures UpdateEnds(cfg, c, u, St(), rc)
      ensures old(OnGrid()) ==>
                GoodThreads(cfg, threads) && Aligned(supplies.hw.vdd, cfg.step) && Aligned(u.dynamicFloor, cfg.step)
      ensures rc == 0 ==> gathered == 0
      ensures rc == 0 && AnyRequest(ts) ==> ForcedFloor(cfg, u.hwClosedLoop, old(threads), u.dynamicFloor, measured)
      ensures rc == 0 ==> threads == if AnyRequest(ts) && cprEnabled then RememberedAll(old(threads)) else old(threads)
    {
      rc, u := gathered, Update(ts, 0, sdeltaDiff, apmAdj, hwClosedLoop, cprAllowed);
      if gathered == 0 && valid {
        SameScaling(cfg, St(), c, joined);
        rc, u := ScaleToTarget(measured, vddVolt, sdeltaDiff, joined, ts);
      }
    }

    /** The rest of the second half. */
    method ScaleToTarget(measured: Measurement, vddVolt: int, sdeltaDiff: int, joined: Corner,
                         ghost ts: seq<seq<Corner>>)
      returns (rc: int, ghost u: Update)
      requires Valid() && !drifting && vddVolt == supplies.hw.vdd
      modifies this, supplies
      ensures Valid() && u == Update(ts, u.dynamicFloor, sdeltaDiff, apmAdj, old(hwClosedLoop), old(cprEnabled))
      ensures rc == 0 ==> St() == AfterUpdate(cfg, old(St()), joined, u)
      ensures rc != 0 ==> FellShort(cfg, old(St()), UpdateScaling(cfg, old(St()), joined, u), St())
      ensures old(OnGrid()) ==>
                GoodThreads(cfg, threads) && Aligned(supplies.hw.vdd, cfg.step) && Aligned(u.dynamicFloor, cfg.step)
      ensures ForcedFloor(cfg, old(hwClosedLoop), old(threads), u.dynamicFloor, measured)
      ensures rc == 0 ==> threads == if cprEnabled then RememberedAll(old(threads)) else old(threads)
    {
      ghost var c := St();
      var r;
      r, u := Choose(measured, vddVolt, sdeltaDiff, joined, ts);
      assert r == UpdateScaling(cfg, c, joined, u);
      rc := MoveTo(r);
    }

    /** cpr3_regulator_update_ctrl_state up to the aging adjustment, from a state in which all
        is as it should be: a successful update keeps it so, and a failed one leaves the
        hardware safe, if a mem-acc setting of the corner itself does not interfere. */
    method UpdateState(m: Measurement, sdeltaDiff: int) returns (rc: int, ghost u: Update)
      requires Valid() && cfg.Sound() && OnGrid() && Steady(cfg, St())
      requires sdeltaDiff >= 0 && Aligned(sdeltaDiff, cfg.step)
      modifies this, supplies
      ensures Valid() && OnGrid() && GoodRequests(cfg, u.ts)
      ensures var r := UpdateScaling(cfg, old(St()), CtrlJoin(u.ts), u);
              if rc == 0 then CornerMemAccAgrees(cfg, r) || !AnyRequest(u.ts) ==> Steady(cfg, St())
              else StopsSafe(cfg, old(supplies.hw), r) ==> SafeAt(cfg, supplies.hw)
    {
      ghost var c := St();
      rc, u := UpdateCtrlState(m, sdeltaDiff);
      UpdateOutcome(cfg, c, St(), u, rc);
    }

    /** The same for a controller that reads the supply, whether the last update failed or not:
        `running` says that it did not. One that is not stuck leaves the controller alive: safe,
        and steady if it succeeds. */
    method UpdateAgain(m: Measurement, sdeltaDiff: int, ghost running: bool) returns (rc: int, ghost u: Update)
      requires Valid() && OnGrid() && !IgnoresLast(cfg) && Alive(cfg, Life(St(), running))
      requires sdeltaDiff >= 0 && Aligned(sdeltaDiff, cfg.step)
      modifies this, supplies
      ensures Valid() && OnGrid() && GoodRequests(cfg, u.ts)
      ensures var l := Life(old(St()), running);
              MayUpdate(cfg, l, u) ==> Alive(cfg, Life(St(), rc == 0 && (running || AnyRequest(u.ts))))
    {
      ghost var l := Life(St(), running);
      rc, u := UpdateCtrlState(m, sdeltaDiff);
      UpdateTurns(cfg, l, u, St(), rc);
    }

    /** There is an interrupt, and the loop is in software. */
    predicate Wanted(upBit: bool, downBit: bool)
      reads this
    {
      cprEnabled && !hwClosedLoop && (upBit || downBit)
    }

    function IrqMeasurement(m: Measurement): Measurement { if cfg.supportsHw then m else NO_MEASUREMENT }

    /** cpr3_irq_handler, with the status bits and what the threads report. `handled` says
        that it got as far as storing a new voltage; `ack` that the loop is told so. */
    method IrqHandler(upBit: bool, downBit: bool, busy: bool, m: Measurement)
      returns (handled: bool, ack: bool, ghost dynamicFloor: int)
      requires Valid()
      modifies this, supplies
      ensures Valid() && cprEnabled == old(cprEnabled) && hwClosedLoop == old(hwClosedLoop)
      ensures handled ==> Wanted(upBit, downBit) && !busy
      ensures Wanted(upBit, downBit) ==>
                if cfg.supportsHw then IsDynamicFloor(dynamicFloor, old(threads), false, m) else dynamicFloor == 0
      ensures Wanted(upBit, downBit) && !busy ==>
                (IrqVolt(old(aggr), cfg.step, upBit, dynamicFloor) == old(aggr.last) ==> handled)
      ensures threads ==
                if ack then SettledThreads(cfg, lastWasClosedLoop, old(threads), aggr.last, IrqMeasurement(m))
                else old(threads)
      ensures handled ==>
                St() == AfterIrq(cfg, old(St()), upBit, dynamicFloor) && (ack <==> aggr.last != old(aggr.last))
      ensures !handled ==> St() == old(St()).(hw := supplies.hw) && !ack
      ensures !handled ==>
                MayHaveStopped(cfg, old(supplies.hw), IrqScaling(cfg, old(St()), upBit, dynamicFloor), supplies.hw)
      ensures old(OnGrid()) ==> OnGrid()
    {
      handled, ack, dynamicFloor := false, false, 0;
      if !cprEnabled || hwClosedLoop {
        return;
      }
      var up, down := upBit, downBit;
      if !up && !down {
        return;  // the loop is only toggled off and on
      } else if up && down {
        down := false;
      }
      handled, ack, dynamicFloor := AnswerIrq(up, down, busy, m);
    }

    /** The rest of the handler, for the one kind of interrupt it has settled on. */
    method AnswerIrq(up: bool, down: bool, busy: bool, m: Measurement)
      returns (handled: bool, ack: bool, ghost dynamicFloor: int)
      requires Valid() && cprEnabled && !hwClosedLoop && (up <==> !down)
      modifies this, supplies
      ensures Valid() && cprEnabled == old(cprEnabled) && hwClosedLoop == old(hwClosedLoop)
      ensures handled ==> !busy
      ensures if cfg.supportsHw then IsDynamicFloor(dynamicFloor, old(threads), false, m) else dynamicFloor == 0
      ensures !busy && IrqVolt(old(aggr), cfg.step, up, dynamicFloor) == old(aggr.last) ==> handled
      ensures threads ==
                if ack then SettledThreads(cfg, lastWasClosedLoop, old(threads), aggr.last, IrqMeasurement(m))
                else old(threads)
      ensures handled ==> St() == AfterIrq(cfg, old(St()), up, dynamicFloor) && (ack <==> aggr.last != old(aggr.last))
      ensures !handled ==> St() == old(St()).(hw := supplies.hw) && !ack
      ensures !handled ==>
                MayHaveStopped(cfg, old(supplies.hw), IrqScaling(cfg, old(St()), up, dynamicFloor), supplies.hw)
      ensures old(OnGrid()) ==> OnGrid()
    {
      handled, ack, dynamicFloor := false, false, 0;
      var measured := if cfg.supportsHw then m else NO_MEASUREMENT;
      var floor := GetDynamicFloor(cfg, threads, hwClosedLoop, measured);
      dynamicFloor := floor;
      if busy {
        return;
      }
      var newVolt, irqEn := DecideIrq(aggr, cfg.step, up, down, floor);
      if OnGrid() {
        IrqVoltOnSetPoint(aggr, cfg.step, up, floor);
      }
      handled, ack := PutStepInForce(up, newVolt, irqEn, floor, measured);
    }

    method PutStepInForce(up: bool, newVolt: int, irqEn: set<Irq>, ghost floor: int, measured: Measurement)
      returns (handled: bool, ack: bool)
      requires Valid() && cprEnabled && !hwClosedLoop
      requires newVolt == IrqVolt(aggr, cfg.step, up, floor) && irqEn == IrqEnables(aggr, cfg.step, up, floor)
      modifies this, supplies
      ensures Valid() && cprEnabled == old(cprEnabled) && hwClosedLoop == old(hwClosedLoop)
      ensures handled ==> St() == AfterIrq(cfg, old(St()), up, floor) && (ack <==> aggr.last != old(aggr.last))
      ensures !handled ==> St() == old(St()).(hw := supplies.hw) && !ack
      ensures !handled ==> StoppedHw(cfg, old(supplies.hw), IrqScaling(cfg, old(St()), up, floor), supplies.hw)
      ensures newVolt == old(aggr.last) ==> handled
      ensures threads ==
                if ack then SettledThreads(cfg, lastWasClosedLoop, old(threads), newVolt, measured) else old(threads)
      ensures old(OnGrid()) && Aligned(newVolt, cfg.step) ==> OnGrid()
    {
      var rc;
      rc, ack := StepTo(newVolt, measured);
      handled := rc == 0;
      if handled {
        aggr := aggr.(irqEn := irqEn, last := newVolt);
      }
    }

    /** The same from a state in which all is as it should be: a handled interrupt keeps it so,
        if the next update will know where it has taken the supply, and one that fails leaves the
        hardware safe; mem-acc settings of corners aside. */
    method Interrupt(upBit: bool, downBit: bool, busy: bool, m: Measurement)
      returns (handled: bool, ack: bool, ghost dynamicFloor: int)
      requires Valid() && cfg.Sound() && OnGrid() && Steady(cfg, St()) && started && !drifting
      modifies this, supplies
      ensures Valid() && OnGrid()
      ensures var c := old(St());
              if handled then GoesOn(cfg, c, upBit, dynamicFloor) ==> Steady(cfg, St())
              else (cfg.MemAccUsed() && cfg.hasMemAcc ==> c.aggr.memAcc == 0) ==> SafeAt(cfg, supplies.hw)
    {
      ghost var c := St();
      handled, ack, dynamicFloor := IrqHandler(upBit, downBit, busy, m);
      IrqOutcome(cfg, c, St(), upBit, dynamicFloor, handled);
    }

    function StepScaling(newVolt: int): Scaling
      reads this
    {
      Scaling(newVolt, aggr.last, aggr, false, true, aggr.ceiling)
    }

    /** The scaling in cpr3_irq_handler, if the voltage is to change. */
    method StepTo(newVolt: int, measured: Measurement) returns (rc: int, ack: bool)
      requires Valid() && cprEnabled && !hwClosedLoop
      modifies this`threads, supplies
      ensures Valid() && (rc != 0 ==> !ack)
      ensures (rc == 0 ==> (ack <==> newVolt != aggr.last)) && (newVolt == aggr.last ==> rc == 0)
      ensures rc == 0 && ack ==>
                supplies.hw == Run(cfg, old(supplies.hw), Plan(cfg, StepScaling(newVolt)))
      ensures rc == 0 && !ack ==> supplies.hw == old(supplies.hw)
      ensures rc != 0 ==> StoppedHw(cfg, old(supplies.hw), StepScaling(newVolt), supplies.hw)
      ensures Aligned(old(supplies.hw).vdd, cfg.step) ==> Aligned(supplies.hw.vdd, cfg.step)
      ensures GoodThreads(cfg, old(threads)) && Aligned(newVolt, cfg.step) ==> GoodThreads(cfg, threads)
      ensures threads ==
                if ack then SettledThreads(cfg, lastWasClosedLoop, old(threads), newVolt, measured) else old(threads)
    {
      rc, ack := 0, newVolt != aggr.last;
      if ack {
        rc := Scale(StepScaling(newVolt));
        if rc != 0 {
          return rc, false;
        }
        ghost var was := threads;
        threads := SettleAll(cfg, cprEnabled && lastWasClosedLoop, threads, newVolt, measured);
        if GoodThreads(cfg, was) && Aligned(newVolt, cfg.step) {
          AllSettledIsGood(cfg, cprEnabled && lastWasClosedLoop, was, newVolt, measured, threads);
        }
      }
    }
  }

  /** Nothing has happened to the hardware, or a scaling has stopped. */
  ghost predicate MayHaveStopped(cfg: Config, hw: Hw, r: Scaling, hw': Hw)
    requires cfg.step > 0
  {
    hw' == hw || StoppedHw(cfg, hw, r, hw')
  }

  /** An update that has failed once it knew its scaling: before it stored the new corner, or after
      that. */
  ghost predicate FellShort(cfg: Config, c: Ctrl, r: Scaling, d: Ctrl)
    requires cfg.step > 0
  {
    (d == c.(hw := d.hw) && EndedHw(cfg, c.hw, r, d.hw)) || d == StoredOnly(InForce(cfg, c.hw, r), c)
  }

  /** An update that has failed anywhere; a failure before the scaling has not touched the supply. */
  ghost predicate UpdateFailed(cfg: Config, c: Ctrl, u: Update, d: Ctrl)
    requires cfg.step > 0 && AllShaped(u.ts)
  {
    d == c.(drifting := false) ||
    FellShort(cfg, c.(drifting := false, cprEnabled := u.cprEnabled), UpdateScaling(cfg, c, CtrlJoin(u.ts), u), d)
  }

  /** In hardware closed-loop every dynamic floor is in force. */
  ghost predicate ForcedFloor(cfg: Config, hwClosedLoop: bool, ts: seq<Thread>, d: int, m: Measurement)
    requires ThreadsShape(ts)
  {
    if hwClosedLoop && cfg.supportsHw then IsDynamicFloor(d, ts, true, m) else d == 0
  }

  /** What an update makes of the controller. */
  ghost predicate UpdateEnds(cfg: Config, c: Ctrl, u: Update, d: Ctrl, rc: int)
    requires cfg.step > 0 && AllShaped(u.ts)
  {
    if rc != 0 then UpdateFailed(cfg, c, u, d)
    else d == if AnyRequest(u.ts) then AfterUpdate(cfg, c, CtrlJoin(u.ts), u) else AfterIdle(c)
  }

  /** What a failure leaves of the supplies and of the corner in force. */
  lemma FailureLeaves(cfg: Config, c: Ctrl, u: Update, d: Ctrl)
    requires cfg.step > 0 && AllShaped(u.ts) && UpdateFailed(cfg, c, u, d)
    ensures var r := UpdateScaling(cfg, c, CtrlJoin(u.ts), u);
            (d.hw == c.hw || EndedHw(cfg, c.hw, r, d.hw)) &&
            (d.aggr == c.aggr || d.aggr == WithIrqs(r.aggr, r.cprEnabled, r.hwClosedLoop))
  {}

  lemma StoredOnSetPoints(cfg: Config, c: Ctrl, u: Update, d: Ctrl, rc: int)
    requires cfg.Sound() && c.aggr.OnSetPoints(cfg.step) && GoodRequests(cfg, u.ts) && UpdateEnds(cfg, c, u, d, rc)
    requires Aligned(u.dynamicFloor, cfg.step) && Aligned(u.sdeltaDiff, cfg.step)
    ensures d.aggr.OnSetPoints(cfg.step)
  {
    TargetOnSetPoint(cfg, c, u);
    if rc != 0 {
      FailureLeaves(cfg, c, u, d);
    }
  }

  lemma FailureIsSafe(cfg: Config, c: Ctrl, u: Update, d: Ctrl)
    requires cfg.Sound() && Steady(cfg, c) && GoodCorners(cfg, u.ts) && u.sdeltaDiff >= 0 && UpdateFailed(cfg, c, u, d)
    requires StopsSafe(cfg, c.hw, UpdateScaling(cfg, c, CtrlJoin(u.ts), u))
    ensures SafeAt(cfg, d.hw)
  {
    FailureLeaves(cfg, c, u, d);
    if d.hw != c.hw {
      var now := EndedRun(cfg, c.hw, UpdateScaling(cfg, c, CtrlJoin(u.ts), u), d.hw);
      FailedUpdateIsSafe(cfg, c, u, now);
    }
  }

  lemma SuccessIsSteady(cfg: Config, c: Ctrl, u: Update)
    requires cfg.Sound() && Steady(cfg, c) && GoodRequests(cfg, u.ts)
    requires Aligned(u.dynamicFloor, cfg.step) && u.sdeltaDiff >= 0 && Aligned(u.sdeltaDiff, cfg.step)
    requires CornerMemAccAgrees(cfg, UpdateScaling(cfg, c, CtrlJoin(u.ts), u))
    ensures Steady(cfg, AfterUpdate(cfg, c, CtrlJoin(u.ts), u))
  {
    SetPointsAreGood(cfg, c, u);
    UpdateKeepsSteady(cfg, c, u);
  }

  lemma UpdateOutcome(cfg: Config, c: Ctrl, d: Ctrl, u: Update, rc: int)
    requires cfg.Sound() && Steady(cfg, c) && c.aggr.OnSetPoints(cfg.step) && GoodRequests(cfg, u.ts)
    requires Aligned(u.dynamicFloor, cfg.step) && u.sdeltaDiff >= 0 && Aligned(u.sdeltaDiff, cfg.step)
    requires UpdateEnds(cfg, c, u, d, rc)
    ensures d.aggr.OnSetPoints(cfg.step)
    ensures var r := UpdateScaling(cfg, c, CtrlJoin(u.ts), u);
            if rc == 0 then CornerMemAccAgrees(cfg, r) || !AnyRequest(u.ts) ==> Steady(cfg, d)
            else StopsSafe(cfg, c.hw, r) ==> SafeAt(cfg, d.hw)
  {
    StoredOnSetPoints(cfg, c, u, d, rc);
    if rc != 0 {
      if StopsSafe(cfg, c.hw, UpdateScaling(cfg, c, CtrlJoin(u.ts), u)) {
        FailureIsSafe(cfg, c, u, d);
      }
    } else if AnyRequest(u.ts) {
      if CornerMemAccAgrees(cfg, UpdateScaling(cfg, c, CtrlJoin(u.ts), u)) {
        SuccessIsSteady(cfg, c, u);
      }
    }
  }

  /** An update that is not stuck, and that mem-acc settings of the corner itself do not disturb. */
  ghost predicate MayUpdate(cfg: Config, l: Life, u: Update)
    requires cfg.step > 0 && AllShaped(u.ts)
  {
    var r := UpdateScaling(cfg, l.c, CtrlJoin(u.ts), u);
    Follows(cfg, l, u) && CornerMemAccAgrees(cfg, r) && StopsSafe(cfg, l.c.hw, r) && SettingIsCorner(cfg, r)
  }

  lemma UpdateStaysAlive(cfg: Config, l: Life, u: Update, d: Ctrl, rc: int)
    requires Alive(cfg, l) && !IgnoresLast(cfg) && GoodRequests(cfg, u.ts) && MayUpdate(cfg, l, u)
    requires Aligned(u.dynamicFloor, cfg.step) && u.sdeltaDiff >= 0 && Aligned(u.sdeltaDiff, cfg.step)
    requires UpdateEnds(cfg, l.c, u, d, rc)
    ensures Alive(cfg, Life(d, rc == 0 && (l.running || AnyRequest(u.ts))))
  {
    SetPointsAreGood(cfg, l.c, u);
    if rc == 0 {
      TurnStaysAlive(cfg, l, Went(if AnyRequest(u.ts) then Updated(u) else Idled));
    } else {
      FailedTurn(cfg, l, u, d);
    }
  }

  lemma FailedTurn(cfg: Config, l: Life, u: Update, d: Ctrl)
    requires Alive(cfg, l) && !IgnoresLast(cfg) && GoodUpdate(cfg, l.c, u) && MayUpdate(cfg, l, u)
    requires UpdateFailed(cfg, l.c, u, d)
    ensures Alive(cfg, Life(d, false))
  {
    if d == l.c.(drifting := false) {
      TurnStaysAlive(cfg, l, FailedEarly);
    } else if d == StoredOnly(AfterUpdate(cfg, l.c, CtrlJoin(u.ts), u), l.c) {
      TurnStaysAlive(cfg, l, FailedLate(u));
    } else {
      var now := EndedRun(cfg, l.c.hw, UpdateScaling(cfg, l.c, CtrlJoin(u.ts), u), d.hw);
      TurnStaysAlive(cfg, l, FailedUpdate(u, now));
    }
  }

  lemma UpdateTurns(cfg: Config, l: Life, u: Update, d: Ctrl, rc: int)
    requires Alive(cfg, l) && !IgnoresLast(cfg) && GoodRequests(cfg, u.ts) && l.c.aggr.OnSetPoints(cfg.step)
    requires Aligned(u.dynamicFloor, cfg.step) && u.sdeltaDiff >= 0 && Aligned(u.sdeltaDiff, cfg.step)
    requires UpdateEnds(cfg, l.c, u, d, rc)
    ensures d.aggr.OnSetPoints(cfg.step)
    ensures MayUpdate(cfg, l, u) ==> Alive(cfg, Life(d, rc == 0 && (l.running || AnyRequest(u.ts))))
  {
    StoredOnSetPoints(cfg, l.c, u, d, rc);
    if MayUpdate(cfg, l, u) {
      UpdateStaysAlive(cfg, l, u, d, rc);
    }
  }

  /** The next update will know where an interrupt has taken the supply, and a mem-acc setting
      of the corner itself does not interfere. */
  ghost predicate GoesOn(cfg: Config, c: Ctrl, up: bool, dynamicFloor: int) {
    KnowsWhereItIs(cfg, c, IrqVolt(c.aggr, cfg.step, up, dynamicFloor)) &&
    CornerMemAccAgrees(cfg, IrqScaling(cfg, c, up, dynamicFloor))
  }

  lemma IrqOutcome(cfg: Config, c: Ctrl, d: Ctrl, up: bool, dynamicFloor: int, handled: bool)
    requires cfg.Sound() && Steady(cfg, c) && c.started && !c.drifting && c.aggr.OnSetPoints(cfg.step)
    requires handled ==> c.cprEnabled && d == AfterIrq(cfg, c, up, dynamicFloor)
    requires !handled ==> MayHaveStopped(cfg, c.hw, IrqScaling(cfg, c, up, dynamicFloor), d.hw)
    ensures if handled then GoesOn(cfg, c, up, dynamicFloor) ==> Steady(cfg, d)
            else (cfg.MemAccUsed() && cfg.hasMemAcc ==> c.aggr.memAcc == 0) ==> SafeAt(cfg, d.hw)
  {
    var r := IrqScaling(cfg, c, up, dynamicFloor);
    if handled {
      if GoesOn(cfg, c, up, dynamicFloor) {
        SetPointsAreGoodForIrq(cfg, c, up, dynamicFloor);
        IrqKeepsSteady(cfg, c, up, dynamicFloor);
      }
    } else if (cfg.MemAccUsed() && cfg.hasMemAcc ==> c.aggr.memAcc == 0) && d.hw != c.hw {
      var now :| Stopped([], now, Plan(cfg, r), RollbackVolt(cfg, r)) && d.hw == Run(cfg, c.hw, now);
      FailedIrqIsSafe(cfg, c, up, dynamicFloor, now);
    }
  }

  lemma StoppedIsAligned(cfg: Config, hw: Hw, r: Scaling, hw': Hw)
    requires cfg.step > 0 && StoppedHw(cfg, hw, r, hw')
    ensures Aligned(hw.vdd, cfg.step) ==> Aligned(hw'.vdd, cfg.step)
  {
    var now :| Stopped([], now, Plan(cfg, r), RollbackVolt(cfg, r)) && hw' == Run(cfg, hw, now);
    if Aligned(hw.vdd, cfg.step) {
      RunKeepsAligned(cfg, hw, now);
    }
  }
}
