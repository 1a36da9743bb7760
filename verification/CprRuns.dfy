/** The controller over time: updates of the aggregated corner, interrupts of the software
    closed loop, and hardware that drifts on its own. */
module CprRuns {
  import opened CInt
  import opened CprCorner
  import opened CprScaling
  import opened CprScalingSafety
  import opened CprStopped

  /** The state that one update or interrupt leaves to the next. `started` says that an
      update has set a corner; `drifting` that hardware closed-loop is running. */
  datatype Ctrl = Ctrl(aggr: Corner, hw: Hw, started: bool, drifting: bool,
                       cprEnabled: bool, lastWasClosedLoop: bool)

  /** What an update takes in: the corners of the participating regulators by thread, and
      the modes that hold from now on. */
  datatype Update = Update(ts: seq<seq<Corner>>, dynamicFloor: int, sdeltaDiff: int, apmAdj: int,
                           hwClosedLoop: bool, cprEnabled: bool)

  function LimitsOf(cfg: Config, hwClosedLoop: bool, apmAdj: int): Limits {
    Limits(hwClosedLoop, cfg.apmVolt, apmAdj, cfg.memAccVolt, cfg.step)
  }

  /** The voltage the driver takes for the present one: for CPR4 controllers with
      supports_hw_closed_loop the last open-loop voltage it programmed, else a reading of the supply. */
  function KnownVolt(cfg: Config, c: Ctrl): int {
    if cfg.isCpr4 && cfg.supportsHw then c.aggr.openLoop else c.hw.vdd
  }

  /** The aggregated corner after reshaping, with the chosen voltage as its last voltage. */
  function TargetCorner(cfg: Config, lastWasClosedLoop: bool, joined: Corner, u: Update): Corner {
    var a := Reshaped(LimitsOf(cfg, u.hwClosedLoop, u.apmAdj), joined, u.dynamicFloor);
    a.(last := NewVolt(Mode(cfg.isCpr4, cfg.supportsHw, u.cprEnabled, lastWasClosedLoop), a, u.sdeltaDiff))
  }

  function UpdateScaling(cfg: Config, c: Ctrl, joined: Corner, u: Update): Scaling {
    var a := TargetCorner(cfg, c.lastWasClosedLoop, joined, u);
    Scaling(a.last, KnownVolt(cfg, c), a, u.hwClosedLoop, u.cprEnabled, c.aggr.ceiling)
  }

  /** In software closed-loop the interrupts that could leave the range are disabled. */
  function WithIrqs(a: Corner, cprEnabled: bool, hwClosedLoop: bool): Corner {
    if cprEnabled && !hwClosedLoop then
      a.(irqEn := a.irqEn - (if a.last == a.floor then {Down} else {}) - (if a.last == a.ceiling then {Up} else {}))
    else a
  }

  /** The controller once a scaling of the update path has succeeded. */
  ghost function InForce(cfg: Config, hw: Hw, r: Scaling): Ctrl
    requires cfg.step > 0
  {
    Ctrl(WithIrqs(r.aggr, r.cprEnabled, r.hwClosedLoop), Run(cfg, hw, Plan(cfg, r)),
         true, r.hwClosedLoop && r.cprEnabled, r.cprEnabled, r.cprEnabled)
  }

  ghost function AfterUpdate(cfg: Config, c: Ctrl, joined: Corner, u: Update): Ctrl
    requires cfg.step > 0
  {
    InForce(cfg, c.hw, UpdateScaling(cfg, c, joined, u))
  }

  /** Without a participating regulator the loop stops and CPR is disabled. */
  function AfterIdle(c: Ctrl): Ctrl { c.(drifting := false, cprEnabled := false) }

  // ------------------------------------------------------------- the interrupt

  /** The voltage and the enabled interrupts that an up or down interrupt leads to. */
  function IrqVolt(aggr: Corner, step: int, up: bool, dynamicFloor: int): int {
    var v := if up then aggr.last + step else aggr.last - step;
    var w := if v > aggr.ceiling then aggr.ceiling else if v < aggr.floor then aggr.floor else v;
    if !up && w < dynamicFloor then aggr.last else w
  }

  function IrqEnables(aggr: Corner, step: int, up: bool, dynamicFloor: int): set<Irq> {
    var v := if up then aggr.last + step else aggr.last - step;
    var en := aggr.irqEn + {if up then Down else Up};
    var w := if v > aggr.ceiling then aggr.ceiling else if v < aggr.floor then aggr.floor else v;
    var en' := if v > aggr.ceiling then en - {Up} else if v < aggr.floor then en - {Down} else en;
    if !up && w < dynamicFloor then en' - {Down} else en'
  }

  function IrqScaling(cfg: Config, c: Ctrl, up: bool, dynamicFloor: int): Scaling {
    Scaling(IrqVolt(c.aggr, cfg.step, up, dynamicFloor), c.aggr.last, c.aggr, false, true, c.aggr.ceiling)
  }

  ghost function AfterIrq(cfg: Config, c: Ctrl, up: bool, dynamicFloor: int): Ctrl
    requires cfg.step > 0
  {
    var r := IrqScaling(cfg, c, up, dynamicFloor);
    c.(aggr := c.aggr.(last := r.newVolt, irqEn := IrqEnables(c.aggr, cfg.step, up, dynamicFloor)),
       hw := if r.newVolt != r.lastVolt then Run(cfg, c.hw, Plan(cfg, r)) else c.hw)
  }

  /** One interrupt: the voltage stays in the range, moves by at most one step and in the
      direction asked for, is not lowered below the dynamic floor, and the interrupt
      opposite to the one handled is left enabled. */
  lemma IrqIsSafe(aggr: Corner, step: int, up: bool, dynamicFloor: int)
    requires step > 0 && aggr.Ordered()
    ensures var v := IrqVolt(aggr, step, up, dynamicFloor);
            aggr.floor <= v <= aggr.ceiling &&
            (if up then aggr.last <= v <= aggr.last + step else aggr.last - step <= v <= aggr.last) &&
            (v < aggr.last ==> !up && dynamicFloor <= v)
    ensures var en := IrqEnables(aggr, step, up, dynamicFloor);
            (if up then Down in en else Up in en) &&
            (Up in en <== Up in aggr.irqEn && !up) && en <= aggr.irqEn + {Up, Down}
    ensures aggr.OnSetPoints(step) ==> Aligned(IrqVolt(aggr, step, up, dynamicFloor), step)
  {
    if Aligned(aggr.last, step) {
      AlignedShift(aggr.last, step);
    }
  }

  /** From set points to set points. */
  lemma IrqVoltOnSetPoint(aggr: Corner, step: int, up: bool, dynamicFloor: int)
    requires step > 0 && aggr.OnSetPoints(step)
    ensures Aligned(IrqVolt(aggr, step, up, dynamicFloor), step)
  {
    AlignedShift(aggr.last, step);
  }

  /** An interrupt of the software closed loop, with the dynamic floor at that time. */
  datatype IrqEvent = IrqEvent(up: bool, dynamicFloor: int)

  ghost function IrqRun(aggr: Corner, step: int, events: seq<IrqEvent>): Corner {
    if events == [] then aggr
    else
      var before := IrqRun(aggr, step, events[..|events| - 1]);
      var e := events[|events| - 1];
      before.(last := IrqVolt(before, step, e.up, e.dynamicFloor),
        irqEn := IrqEnables(before, step, e.up, e.dynamicFloor))
  }

  /** Over every run of interrupts the voltage stays in floor..ceiling, and it never ends
      below both where it started and the lowest dynamic floor in force; the interrupt
      opposite to the last one is enabled. */
  lemma {:induction false} IrqRunStaysInRange(aggr: Corner, step: int, events: seq<IrqEvent>, lowest: int)
    requires step > 0 && aggr.Ordered()
    requires forall i :: 0 <= i < |events| ==> lowest <= events[i].dynamicFloor
    ensures var r := IrqRun(aggr, step, events);
            r == aggr.(last := r.last, irqEn := r.irqEn) && r.Ordered() && Min(aggr.last, lowest) <= r.last &&
            (events != [] ==> (if events[|events| - 1].up then Down in r.irqEn else Up in r.irqEn))
  {
    if events != [] {
      var init, e := events[..|events| - 1], events[|events| - 1];
      IrqRunStaysInRange(aggr, step, init, lowest);
      IrqIsSafe(IrqRun(aggr, step, init), step, e.up, e.dynamicFloor);
    }
  }

  /** No run of k interrupts moves the voltage by more than k steps. */
  lemma {:induction false} IrqRunMovesByStep(aggr: Corner, step: int, events: seq<IrqEvent>)
    requires step > 0 && aggr.Ordered()
    ensures IrqRun(aggr, step, events).Ordered()
    ensures aggr.last - |events| * step <= IrqRun(aggr, step, events).last <= aggr.last + |events| * step
  {
    if events != [] {
      var init, e := events[..|events| - 1], events[|events| - 1];
      IrqRunMovesByStep(aggr, step, init);
      IrqIsSafe(IrqRun(aggr, step, init), step, e.up, e.dynamicFloor);
      OneMore(|init|, step);
    }
  }

  lemma OneMore(n: nat, step: int)
    ensures (n + 1) * step == n * step + step
  {}

  // ------------------------------------------------------------ runs of a controller

  /** The settings match the target, the voltage the driver believes in and the real one
      are on the target's side of both thresholds, and a drifting supply cannot leave it. */
  ghost predicate Consistent(cfg: Config, c: Ctrl)
    requires cfg.step > 0
  {
    Matches(cfg, c.hw, KnownVolt(cfg, c)) &&
    (c.started ==>
      c.aggr.Ordered() && 0 <= c.aggr.floor && WithinSetPoints(c.aggr, c.hw.vdd, cfg.step) &&
      SameSide(cfg, KnownVolt(cfg, c), c.aggr.last) && SameSide(cfg, c.hw.vdd, c.aggr.last) &&
      (c.drifting ==> !c.aggr.Straddles(cfg.apmVolt) && !c.aggr.Straddles(cfg.memAccVolt)))
  }

  /** The real voltage is in the range, as far as its ends are set points. */
  ghost predicate WithinSetPoints(a: Corner, vdd: int, step: int)
    requires step > 0
  {
    (Aligned(a.floor, step) ==> a.floor <= vdd) && (Aligned(a.ceiling, step) ==> vdd <= a.ceiling)
  }

  datatype Event =
    | Updated(u: Update)                       // a successful update
    | Idled                                    // an update no regulator takes part in
    | Drifted(vdd: int)                        // hardware closed-loop moved the supply
    | Interrupted(up: bool, dynamicFloor: int) // a successful software closed-loop interrupt

  /** A CPR4 controller with supports_hw_closed_loop does not use the corners' last voltages. */
  predicate IgnoresLast(cfg: Config) { cfg.isCpr4 && cfg.supportsHw }

  /** What the corners of the regulators that take part must satisfy: the order of their
      voltages, and floors that are set points. */
  ghost predicate GoodCorners(cfg: Config, ts: seq<seq<Corner>>)
    requires cfg.step > 0
  {
    AllShaped(ts) && AllOpensInRange(ts) && AllFloorsAligned(ts, cfg.step) && (IgnoresLast(cfg) || AllLastsInRange(ts))
  }

  /** From such corners, to a target that is clear of the thresholds, as set points are. */
  ghost predicate GoodUpdate(cfg: Config, c: Ctrl, u: Update) {
    cfg.step > 0 && GoodCorners(cfg, u.ts) && u.sdeltaDiff >= 0 &&
    var r := UpdateScaling(cfg, c, CtrlJoin(u.ts), u);
    TargetClear(cfg, r) && CornerMemAccAgrees(cfg, r)
  }

  /** An interrupt that changes the voltage has a clear target too. */
  ghost predicate GoodIrq(cfg: Config, c: Ctrl, up: bool, dynamicFloor: int)
    requires cfg.step > 0
  {
    var r := IrqScaling(cfg, c, up, dynamicFloor);
    c.started && !c.drifting && c.cprEnabled && (r.newVolt != r.lastVolt ==> TargetClear(cfg, r)) &&
    CornerMemAccAgrees(cfg, r)
  }

  ghost predicate CanHappen(cfg: Config, c: Ctrl, e: Event)
    requires cfg.step > 0
  {
    match e
    case Updated(u) => GoodUpdate(cfg, c, u)
    case Idled => true
    case Drifted(vdd) => c.started && c.drifting && c.aggr.floor <= vdd <= c.aggr.ceiling
    case Interrupted(up, dynamicFloor) => GoodIrq(cfg, c, up, dynamicFloor)
  }

  /** The next update will take the supply to be on the side of v where it is. */
  ghost predicate KnowsWhereItIs(cfg: Config, c: Ctrl, v: int) {
    IgnoresLast(cfg) ==> SameSide(cfg, c.aggr.openLoop, v)
  }

  ghost predicate StaysKnown(cfg: Config, c: Ctrl, e: Event) {
    e.Interrupted? ==> KnowsWhereItIs(cfg, c, IrqVolt(c.aggr, cfg.step, e.up, e.dynamicFloor))
  }

  ghost function After(cfg: Config, c: Ctrl, e: Event): Ctrl
    requires cfg.Sound() && CanHappen(cfg, c, e)
  {
    match e
    case Updated(u) => AfterUpdate(cfg, c, CtrlJoin(u.ts), u)
    case Idled => AfterIdle(c)
    case Drifted(vdd) => c.(hw := c.hw.(vdd := vdd))
    case Interrupted(up, dynamicFloor) => AfterIrq(cfg, c, up, dynamicFloor)
  }

  /** What the update path establishes about its target. */
  lemma TargetCornerIsSafe(cfg: Config, c: Ctrl, u: Update)
    requires cfg.Sound() && GoodCorners(cfg, u.ts) && u.sdeltaDiff >= 0
    ensures var a := TargetCorner(cfg, c.lastWasClosedLoop, CtrlJoin(u.ts), u);
            a.Ordered() && 0 <= a.floor &&
            (u.hwClosedLoop ==> !a.Straddles(cfg.apmVolt) && !a.Straddles(cfg.memAccVolt)) &&
            (IgnoresLast(cfg) ==> a.last == a.openLoop)
    ensures RefAgrees(cfg, UpdateScaling(cfg, c, CtrlJoin(u.ts), u))
  {
    var l := LimitsOf(cfg, u.hwClosedLoop, u.apmAdj);
    JoinedRangeIsSafe(l, u.ts, u.dynamicFloor);
    NewVoltInRange(Mode(cfg.isCpr4, cfg.supportsHw, u.cprEnabled, c.lastWasClosedLoop),
                   Reshaped(l, CtrlJoin(u.ts), u.dynamicFloor), u.sdeltaDiff);
  }

  /** If all voltages of the regulators and the dynamic floor are set points, so are those of
      the target. */
  lemma TargetOnSetPoint(cfg: Config, c: Ctrl, u: Update)
    requires cfg.Sound() && AllShaped(u.ts) && AllOnSetPoints(u.ts, cfg.step)
    requires Aligned(u.dynamicFloor, cfg.step) && Aligned(u.sdeltaDiff, cfg.step)
    ensures TargetCorner(cfg, c.lastWasClosedLoop, CtrlJoin(u.ts), u).OnSetPoints(cfg.step)
  {
    var joined, l := CtrlJoin(u.ts), LimitsOf(cfg, u.hwClosedLoop, u.apmAdj);
    CtrlJoinOnSetPoints(u.ts, cfg.step);
    ReshapedOnSetPoints(l, joined, u.dynamicFloor);
    NewVoltOnSetPoint(Mode(cfg.isCpr4, cfg.supportsHw, u.cprEnabled, c.lastWasClosedLoop),
                      Reshaped(l, joined, u.dynamicFloor), u.sdeltaDiff, cfg.step);
  }

  /** And so it is clear of the thresholds. */
  lemma SetPointsAreGood(cfg: Config, c: Ctrl, u: Update)
    requires cfg.Sound() && GoodCorners(cfg, u.ts) && AllOnSetPoints(u.ts, cfg.step)
    requires Aligned(u.dynamicFloor, cfg.step) && u.sdeltaDiff >= 0 && Aligned(u.sdeltaDiff, cfg.step)
    requires CornerMemAccAgrees(cfg, UpdateScaling(cfg, c, CtrlJoin(u.ts), u))
    ensures GoodUpdate(cfg, c, u)
  {
    TargetOnSetPoint(cfg, c, u);
    var r := UpdateScaling(cfg, c, CtrlJoin(u.ts), u);
    SetPointIsClear(cfg.apmVolt, r.newVolt, Nudge(r), cfg.step);
    SetPointIsClear(cfg.memAccVolt, r.newVolt, Nudge(r), cfg.step);
  }

  /** Likewise for an interrupt from set points. */
  lemma SetPointsAreGoodForIrq(cfg: Config, c: Ctrl, up: bool, dynamicFloor: int)
    requires cfg.Sound() && c.started && !c.drifting && c.cprEnabled && c.aggr.Ordered() && c.aggr.OnSetPoints(cfg.step)
    requires CornerMemAccAgrees(cfg, IrqScaling(cfg, c, up, dynamicFloor))
    ensures GoodIrq(cfg, c, up, dynamicFloor)
  {
    var r := IrqScaling(cfg, c, up, dynamicFloor);
    IrqIsSafe(c.aggr, cfg.step, up, dynamicFloor);
    SetPointIsClear(cfg.apmVolt, r.newVolt, Nudge(r), cfg.step);
    SetPointIsClear(cfg.memAccVolt, r.newVolt, Nudge(r), cfg.step);
  }

  /** Where a successful scaling to a clear target within a range ends. */
  lemma EndsInRange(cfg: Config, r: Scaling, a: Corner)
    requires cfg.Sound() && 0 <= a.floor <= r.newVolt <= a.ceiling
    ensures WithinSetPoints(a, FinalVdd(cfg, r), cfg.step)
    ensures SameSide(cfg, FinalVdd(cfg, r), r.newVolt) <==> TargetClear(cfg, r)
  {
    var x := r.newVolt - Nudge(r);
    if Aligned(a.floor, cfg.step) {
      RoundUpReaches(x, a.floor, cfg.step);
    }
    if Aligned(a.ceiling, cfg.step) {
      RoundUpReaches(x, a.ceiling, cfg.step);
    }
    ReadingOnClearSideExactly(cfg, r);
  }

  /** An update needs of the state only that the settings match the voltage it starts from. */
  lemma UpdateKeepsConsistent(cfg: Config, c: Ctrl, u: Update)
    requires cfg.Sound() && Matches(cfg, c.hw, KnownVolt(cfg, c)) && GoodUpdate(cfg, c, u)
    ensures Consistent(cfg, AfterUpdate(cfg, c, CtrlJoin(u.ts), u))
  {
    var r := UpdateScaling(cfg, c, CtrlJoin(u.ts), u);
    TargetCornerIsSafe(cfg, c, u);
    PlanMatchesTarget(cfg, c.hw, r);
    EndsInRange(cfg, r, r.aggr);
  }

  /** An interrupt of the software closed loop keeps all this exactly when its target is clear
      of the thresholds, and the voltage the driver believes in, which a CPR4 controller with
      hardware closed-loop does not update, stays on the side of the new one. */
  lemma IrqKeepsConsistentExactly(cfg: Config, c: Ctrl, up: bool, dynamicFloor: int)
    requires cfg.Sound() && Consistent(cfg, c) && c.started && !c.drifting && c.cprEnabled
    requires CornerMemAccAgrees(cfg, IrqScaling(cfg, c, up, dynamicFloor))
    ensures var r := IrqScaling(cfg, c, up, dynamicFloor);
            Consistent(cfg, AfterIrq(cfg, c, up, dynamicFloor)) <==>
            KnowsWhereItIs(cfg, c, r.newVolt) && (r.newVolt != r.lastVolt ==> TargetClear(cfg, r))
    ensures var d := AfterIrq(cfg, c, up, dynamicFloor); Matches(cfg, d.hw, d.aggr.last)
  {
    IrqMatches(cfg, c, up, dynamicFloor);
    var r := IrqScaling(cfg, c, up, dynamicFloor);
    if r.newVolt != r.lastVolt {
      EndsInRange(cfg, r, c.aggr);
    }
  }

  lemma IrqMatches(cfg: Config, c: Ctrl, up: bool, dynamicFloor: int)
    requires cfg.Sound() && Consistent(cfg, c) && c.started && !c.drifting && c.cprEnabled
    requires CornerMemAccAgrees(cfg, IrqScaling(cfg, c, up, dynamicFloor))
    ensures var d := AfterIrq(cfg, c, up, dynamicFloor);
            Matches(cfg, d.hw, d.aggr.last) && c.aggr.floor <= d.aggr.last <= c.aggr.ceiling &&
            d.hw.vdd ==
              if d.aggr.last != c.aggr.last then FinalVdd(cfg, IrqScaling(cfg, c, up, dynamicFloor)) else c.hw.vdd
  {
    var r := IrqScaling(cfg, c, up, dynamicFloor);
    IrqIsSafe(c.aggr, cfg.step, up, dynamicFloor);
    if r.newVolt != r.lastVolt {
      PlanMatchesTarget(cfg, c.hw, r);
    }
  }

  lemma StepKeepsConsistent(cfg: Config, c: Ctrl, e: Event)
    requires cfg.Sound() && Consistent(cfg, c) && CanHappen(cfg, c, e) && StaysKnown(cfg, c, e)
    ensures Consistent(cfg, After(cfg, c, e))
  {
    match e
    case Updated(u) => UpdateKeepsConsistent(cfg, c, u);
    case Idled =>
    case Drifted(vdd) =>
    case Interrupted(up, dynamicFloor) => IrqKeepsConsistentExactly(cfg, c, up, dynamicFloor);
  }

  ghost predicate ValidRun(cfg: Config, c: Ctrl, es: seq<Event>)
    requires cfg.Sound()
    decreases es
  {
    es == [] || (CanHappen(cfg, c, es[0]) && ValidRun(cfg, After(cfg, c, es[0]), es[1..]))
  }

  ghost function RunAll(cfg: Config, c: Ctrl, es: seq<Event>): Ctrl
    requires cfg.Sound() && ValidRun(cfg, c, es)
    decreases es
  {
    if es == [] then c else RunAll(cfg, After(cfg, c, es[0]), es[1..])
  }

  /** No interrupt of the run takes the supply where the next update does not expect it. */
  ghost predicate KnownRun(cfg: Config, c: Ctrl, es: seq<Event>)
    requires cfg.Sound() && ValidRun(cfg, c, es)
    decreases es
  {
    es == [] || (StaysKnown(cfg, c, es[0]) && KnownRun(cfg, After(cfg, c, es[0]), es[1..]))
  }

  /** The settings and the real voltage are those of the target, and safe. */
  ghost predicate OnTarget(cfg: Config, c: Ctrl) {
    Matches(cfg, c.hw, c.aggr.last) && SameSide(cfg, c.hw.vdd, c.aggr.last) && SafeAt(cfg, c.hw)
  }

  /** Over every run of successful updates and interrupts, interleaved with any drift of
      the hardware inside its limits: the APM supply is high exactly when the target is at
      or above the APM threshold, every mem-acc regulator is at its high corner exactly
      when the target is at or above the mem-acc threshold, and so is the real voltage. */
  lemma {:induction false} RunKeepsConsistent(cfg: Config, c: Ctrl, es: seq<Event>)
    requires cfg.Sound() && Consistent(cfg, c) && ValidRun(cfg, c, es) && KnownRun(cfg, c, es)
    ensures var d := RunAll(cfg, c, es); Consistent(cfg, d) && (d.started ==> OnTarget(cfg, d))
    decreases es
  {
    if es == [] {
      if c.started {
        MatchingIsSafe(cfg, c.hw, c.aggr.last);
      }
    } else {
      StepKeepsConsistent(cfg, c, es[0]);
      RunKeepsConsistent(cfg, After(cfg, c, es[0]), es[1..]);
    }
  }

  lemma {:induction false} ReadingIsKnown(cfg: Config, c: Ctrl, es: seq<Event>)
    requires cfg.Sound() && !IgnoresLast(cfg) && ValidRun(cfg, c, es)
    ensures KnownRun(cfg, c, es)
    decreases es
  {
    if es != [] {
      ReadingIsKnown(cfg, After(cfg, c, es[0]), es[1..]);
    }
  }

  /** A controller without supports_hw_closed_loop, or a CPR3 one, reads the supply before each
      update, and needs no condition on its interrupts. */
  lemma ReadingRunKeepsConsistent(cfg: Config, c: Ctrl, es: seq<Event>)
    requires cfg.Sound() && !(cfg.isCpr4 && cfg.supportsHw) && Consistent(cfg, c) && ValidRun(cfg, c, es)
    ensures var d := RunAll(cfg, c, es); Consistent(cfg, d) && (d.started ==> OnTarget(cfg, d))
  {
    ReadingIsKnown(cfg, c, es);
    RunKeepsConsistent(cfg, c, es);
  }

  // --------------------------------------------------------------- after a failure

  /** Consistent, safe, and with no negative voltage. */
  ghost predicate Steady(cfg: Config, c: Ctrl)
    requires cfg.step > 0
  {
    Consistent(cfg, c) && SafeAt(cfg, c.hw) && 0 <= c.hw.vdd && (IgnoresLast(cfg) ==> 0 <= c.aggr.openLoop)
  }

  lemma UpdateKeepsSteady(cfg: Config, c: Ctrl, u: Update)
    requires cfg.Sound() && Matches(cfg, c.hw, KnownVolt(cfg, c)) && GoodUpdate(cfg, c, u)
    ensures Steady(cfg, AfterUpdate(cfg, c, CtrlJoin(u.ts), u))
  {
    var r, d := UpdateScaling(cfg, c, CtrlJoin(u.ts), u), AfterUpdate(cfg, c, CtrlJoin(u.ts), u);
    UpdateKeepsConsistent(cfg, c, u);
    TargetCornerIsSafe(cfg, c, u);
    PlanEffect(cfg, c.hw, r);
    RoundUpReaches(r.newVolt - Nudge(r), 0, cfg.step);
    SteadyFromConsistent(cfg, d);
  }

  lemma SteadyFromConsistent(cfg: Config, d: Ctrl)
    requires cfg.Sound() && Consistent(cfg, d) && d.started && d.hw.vdd >= 0
    ensures Steady(cfg, d)
  {
    MatchingIsSafe(cfg, d.hw, KnownVolt(cfg, d));
  }

  lemma IrqKeepsSteady(cfg: Config, c: Ctrl, up: bool, dynamicFloor: int)
    requires cfg.Sound() && Steady(cfg, c) && GoodIrq(cfg, c, up, dynamicFloor)
    requires KnowsWhereItIs(cfg, c, IrqVolt(c.aggr, cfg.step, up, dynamicFloor))
    ensures Steady(cfg, AfterIrq(cfg, c, up, dynamicFloor))
  {
    IrqKeepsConsistentExactly(cfg, c, up, dynamicFloor);
    IrqEndsAtVoltage(cfg, c, up, dynamicFloor);
    SteadyFromConsistent(cfg, AfterIrq(cfg, c, up, dynamicFloor));
  }

  lemma IrqEndsAtVoltage(cfg: Config, c: Ctrl, up: bool, dynamicFloor: int)
    requires cfg.Sound() && Steady(cfg, c) && GoodIrq(cfg, c, up, dynamicFloor)
    ensures AfterIrq(cfg, c, up, dynamicFloor).hw.vdd >= 0
  {
    var r := IrqScaling(cfg, c, up, dynamicFloor);
    IrqIsSafe(c.aggr, cfg.step, up, dynamicFloor);
    if r.newVolt != r.lastVolt {
      PlanEffect(cfg, c.hw, r);
      RoundUpReaches(r.newVolt - Nudge(r), 0, cfg.step);
    }
  }

  /** The controller after an update that fails while it scales, or before it stores the new corner:
      the corner in force is still the old one. */
  ghost function AfterFailedUpdate(cfg: Config, c: Ctrl, u: Update, now: seq<Op>): Ctrl
    requires cfg.step > 0
  {
    c.(hw := Run(cfg, c.hw, now), drifting := false, cprEnabled := u.cprEnabled)
  }

  lemma UpdateStartsSafe(cfg: Config, c: Ctrl, u: Update)
    requires cfg.Sound() && Steady(cfg, c) && GoodCorners(cfg, u.ts) && u.sdeltaDiff >= 0
    ensures var r := UpdateScaling(cfg, c, CtrlJoin(u.ts), u); StartsSafe(cfg, c.hw, r) && r.lastVolt >= 0
  {
    TargetCornerIsSafe(cfg, c, u);
  }

  /** What an update that fails must satisfy to leave the hardware safe. */
  ghost predicate FailsSafe(cfg: Config, c: Ctrl, u: Update, now: seq<Op>)
    requires cfg.step > 0
  {
    GoodCorners(cfg, u.ts) && u.sdeltaDiff >= 0 &&
    var r := UpdateScaling(cfg, c, CtrlJoin(u.ts), u);
    StopsSafe(cfg, c.hw, r) && Ended(now, Plan(cfg, r), RollbackVolt(cfg, r))
  }

  /** Of an update that goes to its own last voltage only a mem-acc setting of the corner
      itself matters; without a mem-acc threshold nothing does. */
  lemma UpdateStopsSafe(cfg: Config, c: Ctrl, u: Update)
    requires cfg.Sound() && GoodCorners(cfg, u.ts) && u.sdeltaDiff >= 0
    requires cfg.MemAccUsed() && cfg.hasMemAcc ==> UpdateScaling(cfg, c, CtrlJoin(u.ts), u).aggr.memAcc == 0
    ensures StopsSafe(cfg, c.hw, UpdateScaling(cfg, c, CtrlJoin(u.ts), u))
  {
    TargetCornerIsSafe(cfg, c, u);
  }

  /** A failed update leaves the hardware safe, wherever it stopped. */
  lemma FailedUpdateIsSafe(cfg: Config, c: Ctrl, u: Update, now: seq<Op>)
    requires cfg.Sound() && Steady(cfg, c) && FailsSafe(cfg, c, u, now)
    ensures SafeAt(cfg, AfterFailedUpdate(cfg, c, u, now).hw)
  {
    UpdateStartsSafe(cfg, c, u);
    StoppedIsSafe(cfg, c.hw, UpdateScaling(cfg, c, CtrlJoin(u.ts), u), now);
  }

  /** So does a failed interrupt: from a set point, and with no mem-acc threshold or a corner
      without a setting of its own. */
  lemma FailedIrqIsSafe(cfg: Config, c: Ctrl, up: bool, dynamicFloor: int, now: seq<Op>)
    requires cfg.Sound() && Steady(cfg, c) && c.started && !c.drifting && Aligned(c.aggr.last, cfg.step)
    requires cfg.MemAccUsed() && cfg.hasMemAcc ==> c.aggr.memAcc == 0
    requires var r := IrqScaling(cfg, c, up, dynamicFloor); Stopped([], now, Plan(cfg, r), RollbackVolt(cfg, r))
    ensures SafeAt(cfg, Run(cfg, c.hw, now))
  {
    var r := IrqScaling(cfg, c, up, dynamicFloor);
    IrqIsSafe(c.aggr, cfg.step, up, dynamicFloor);
    if r.newVolt < cfg.memAccVolt <= r.lastVolt {
      AlignedGap(cfg.memAccVolt, r.lastVolt, cfg.step);
    }
    StoppedIsSafe(cfg, c.hw, r, now);
  }

  /** For a controller that reads the supply: after a failed update, the next one that succeeds
      restores everything exactly if neither threshold is stuck. */
  lemma UpdateAfterFailureExactly(cfg: Config, c: Ctrl, u: Update, now: seq<Op>, v: Update)
    requires cfg.Sound() && !IgnoresLast(cfg) && Steady(cfg, c) && FailsSafe(cfg, c, u, now)
    requires var r := UpdateScaling(cfg, c, CtrlJoin(u.ts), u);
             cfg.MemAccUsed() && cfg.hasMemAcc && r.aggr.memAcc != 0 ==> TwoCorners(cfg, r.aggr.memAcc)
    requires GoodUpdate(cfg, AfterFailedUpdate(cfg, c, u, now), v)
    ensures var d := AfterFailedUpdate(cfg, c, u, now);
            var next := UpdateScaling(cfg, d, CtrlJoin(v.ts), v);
            Consistent(cfg, AfterUpdate(cfg, d, CtrlJoin(v.ts), v)) <==>
            !ApmStuck(cfg, d.hw, next) && !MemAccStuck(cfg, d.hw, next)
  {
    var d := AfterFailedUpdate(cfg, c, u, now);
    UpdateStartsSafe(cfg, c, u);
    StoppedStopState(cfg, c.hw, UpdateScaling(cfg, c, CtrlJoin(u.ts), u), now);
    TargetCornerIsSafe(cfg, d, v);
    RetryMatchesExactly(cfg, d.hw, UpdateScaling(cfg, d, CtrlJoin(v.ts), v));
    ConsistentExactly(cfg, d, v);
  }

  /** The controller after an update that fails once the new corner is stored. */
  function StoredOnly(d: Ctrl, c: Ctrl): Ctrl { d.(drifting := false, lastWasClosedLoop := c.lastWasClosedLoop) }

  /** For such a controller an update of whatever state ends consistent exactly if the settings
      match its target. */
  lemma ConsistentExactly(cfg: Config, d: Ctrl, v: Update)
    requires cfg.Sound() && !IgnoresLast(cfg) && GoodUpdate(cfg, d, v) && |d.hw.vregMemAcc| == |cfg.vregMemAcc|
    ensures var next := UpdateScaling(cfg, d, CtrlJoin(v.ts), v);
            Consistent(cfg, AfterUpdate(cfg, d, CtrlJoin(v.ts), v)) <==>
            Matches(cfg, Run(cfg, d.hw, Plan(cfg, next)), next.newVolt)
  {
    var next := UpdateScaling(cfg, d, CtrlJoin(v.ts), v);
    TargetCornerIsSafe(cfg, d, v);
    PlanEffect(cfg, d.hw, next);
    EndsInRange(cfg, next, next.aggr);
  }

  // ------------------------------------------------ runs in which updates fail

  /** A controller and whether its loop runs: a failed update leaves it stopped. */
  datatype Life = Life(c: Ctrl, running: bool)

  datatype Turn =
    | Went(e: Event)
    | FailedEarly                            // before it scales
    | FailedUpdate(u: Update, now: seq<Op>)  // while it scales, or before the new corner is stored
    | FailedLate(u: Update)                  // after that

  /** After a failure an update must not be stuck, and there is neither drift nor interrupt. */
  ghost predicate Follows(cfg: Config, l: Life, u: Update)
    requires cfg.step > 0 && AllShaped(u.ts)
  {
    l.running || Resumes(cfg, l.c.hw, UpdateScaling(cfg, l.c, CtrlJoin(u.ts), u))
  }

  ghost predicate CanGo(cfg: Config, l: Life, t: Turn)
    requires cfg.Sound()
  {
    match t
    case Went(e) =>
      CanHappen(cfg, l.c, e) && (if e.Updated? then Follows(cfg, l, e.u) else e.Idled? || l.running)
    case FailedEarly => true
    case FailedUpdate(u, now) =>
      FailsSafe(cfg, l.c, u, now) && Follows(cfg, l, u) &&
      SettingIsCorner(cfg, UpdateScaling(cfg, l.c, CtrlJoin(u.ts), u))
    case FailedLate(u) => GoodUpdate(cfg, l.c, u) && Follows(cfg, l, u)
  }

  /** A corner's own mem-acc setting, beside a mem-acc threshold, is one of its two. */
  predicate SettingIsCorner(cfg: Config, r: Scaling) {
    cfg.MemAccUsed() && cfg.hasMemAcc && r.aggr.memAcc != 0 ==> TwoCorners(cfg, r.aggr.memAcc)
  }

  ghost function Gone(cfg: Config, l: Life, t: Turn): Life
    requires cfg.Sound() && CanGo(cfg, l, t)
  {
    match t
    case Went(e) => Life(After(cfg, l.c, e), l.running || e.Updated?)
    case FailedEarly => Life(l.c.(drifting := false), false)
    case FailedUpdate(u, now) => Life(AfterFailedUpdate(cfg, l.c, u, now), false)
    case FailedLate(u) => Life(StoredOnly(AfterUpdate(cfg, l.c, CtrlJoin(u.ts), u), l.c), false)
  }

  /** Always safe, and consistent while the loop runs. */
  ghost predicate Alive(cfg: Config, l: Life) {
    cfg.Sound() && (if l.running then Steady(cfg, l.c) else StopState(cfg, l.c.hw) && 0 <= l.c.hw.vdd)
  }

  ghost predicate ValidLife(cfg: Config, l: Life, ts: seq<Turn>)
    requires cfg.Sound()
    decreases ts
  {
    ts == [] || (CanGo(cfg, l, ts[0]) && ValidLife(cfg, Gone(cfg, l, ts[0]), ts[1..]))
  }

  ghost function LiveOn(cfg: Config, l: Life, ts: seq<Turn>): Life
    requires cfg.Sound() && ValidLife(cfg, l, ts)
    decreases ts
  {
    if ts == [] then l else LiveOn(cfg, Gone(cfg, l, ts[0]), ts[1..])
  }

  lemma SteadyIsStopState(cfg: Config, c: Ctrl)
    requires cfg.Sound() && Steady(cfg, c)
    ensures StopState(cfg, c.hw)
  {}

  /** A successful update ends steady, whether the last one failed or not. */
  lemma UpdateRestores(cfg: Config, l: Life, u: Update)
    requires Alive(cfg, l) && !IgnoresLast(cfg) && GoodUpdate(cfg, l.c, u) && Follows(cfg, l, u)
    ensures Steady(cfg, AfterUpdate(cfg, l.c, CtrlJoin(u.ts), u))
  {
    if l.running {
      UpdateKeepsSteady(cfg, l.c, u);
    } else {
      var r := UpdateScaling(cfg, l.c, CtrlJoin(u.ts), u);
      TargetCornerIsSafe(cfg, l.c, u);
      RetryMatchesExactly(cfg, l.c.hw, r);
      ConsistentExactly(cfg, l.c, u);
      PlanEffect(cfg, l.c.hw, r);
      RoundUpReaches(r.newVolt - Nudge(r), 0, cfg.step);
      SteadyFromConsistent(cfg, AfterUpdate(cfg, l.c, CtrlJoin(u.ts), u));
    }
  }

  lemma FailureStaysAlive(cfg: Config, l: Life, u: Update, now: seq<Op>)
    requires Alive(cfg, l) && !IgnoresLast(cfg) && CanGo(cfg, l, FailedUpdate(u, now))
    ensures Alive(cfg, Gone(cfg, l, FailedUpdate(u, now)))
  {
    var r := UpdateScaling(cfg, l.c, CtrlJoin(u.ts), u);
    TargetCornerIsSafe(cfg, l.c, u);
    if l.running {
      UpdateStartsSafe(cfg, l.c, u);
      SteadyIsStopState(cfg, l.c);
      StoppedStopState(cfg, l.c.hw, r, now);
      EndedVolt(cfg, l.c.hw, r, now);
    } else {
      FailsAgain(cfg, l.c.hw, r, now);
    }
  }

  lemma EventStaysAlive(cfg: Config, l: Life, e: Event)
    requires Alive(cfg, l) && !IgnoresLast(cfg) && CanGo(cfg, l, Went(e)) && !e.Updated?
    ensures Alive(cfg, Gone(cfg, l, Went(e)))
  {
    match e
    case Idled =>
    case Drifted(vdd) => SteadyFromConsistent(cfg, After(cfg, l.c, e));
    case Interrupted(up, dynamicFloor) => IrqKeepsSteady(cfg, l.c, up, dynamicFloor);
  }

  lemma TurnStaysAlive(cfg: Config, l: Life, t: Turn)
    requires Alive(cfg, l) && !IgnoresLast(cfg) && CanGo(cfg, l, t)
    ensures Alive(cfg, Gone(cfg, l, t))
  {
    match t
    case Went(e) =>
      if e.Updated? {
        UpdateRestores(cfg, l, e.u);
      } else {
        EventStaysAlive(cfg, l, e);
      }
    case FailedEarly =>
      if l.running {
        SteadyIsStopState(cfg, l.c);
      }
    case FailedUpdate(u, now) => FailureStaysAlive(cfg, l, u, now);
    case FailedLate(u) =>
      UpdateRestores(cfg, l, u);
      SteadyIsStopState(cfg, AfterUpdate(cfg, l.c, CtrlJoin(u.ts), u));
  }

  /** For a controller that reads the supply, over every run in which any number of updates fail
      anywhere, between others that succeed, interrupts and drift: the hardware is safe after
      each, and settings and voltages match the target whenever the loop runs. */
  lemma {:induction false} RunWithFailures(cfg: Config, l: Life, ts: seq<Turn>)
    requires Alive(cfg, l) && !IgnoresLast(cfg) && ValidLife(cfg, l, ts)
    ensures var d := LiveOn(cfg, l, ts);
            Alive(cfg, d) && SafeAt(cfg, d.c.hw) && (d.running && d.c.started ==> OnTarget(cfg, d.c))
    decreases ts
  {
    if ts != [] {
      TurnStaysAlive(cfg, l, ts[0]);
      RunWithFailures(cfg, Gone(cfg, l, ts[0]), ts[1..]);
    }
  }

  // -------------------------------------------- where that does not carry over

  lemma {:induction false} NoApmKeepsApm(cfg: Config, hw: Hw, ops: seq<Op>)
    requires cfg.step > 0 && NoApm(ops)
    ensures Run(cfg, hw, ops).apmHigh == hw.apmHigh
  {
    if ops != [] {
      NoApmKeepsApm(cfg, hw, ops[..|ops| - 1]);
    }
  }

  /** A scaling whose known voltage is on the target's side never touches the APM. */
  lemma NoCrossingNoSwitch(cfg: Config, hw: Hw, r: Scaling)
    requires cfg.step > 0 && (r.lastVolt >= cfg.apmVolt <==> r.newVolt >= cfg.apmVolt)
    ensures Run(cfg, hw, Plan(cfg, r)).apmHigh == hw.apmHigh
  {
    PlanHasNoApm(cfg, r);
    NoApmKeepsApm(cfg, hw, Plan(cfg, r));
  }

  /** A CPR4 controller that has supports_hw_closed_loop but runs in software: after an interrupt, a
      scaling to the side of the stored open-loop voltage leaves the APM on the right side exactly
      unless the interrupt has taken the supply across the APM threshold, away from that voltage. */
  lemma InterruptsHideCrossing(cfg: Config, c: Ctrl, up: bool, dynamicFloor: int, r: Scaling)
    requires cfg.Sound() && cfg.ApmUsed() && cfg.isCpr4 && cfg.supportsHw
    requires Consistent(cfg, c) && c.started && !c.drifting && c.cprEnabled
    requires CornerMemAccAgrees(cfg, IrqScaling(cfg, c, up, dynamicFloor))
    requires r.lastVolt == c.aggr.openLoop && (r.newVolt >= cfg.apmVolt <==> c.aggr.openLoop >= cfg.apmVolt)
    ensures var d := AfterIrq(cfg, c, up, dynamicFloor);
            (Run(cfg, d.hw, Plan(cfg, r)).apmHigh <==> r.newVolt >= cfg.apmVolt) <==>
            (d.aggr.last >= cfg.apmVolt <==> c.aggr.openLoop >= cfg.apmVolt)
  {
    var d := AfterIrq(cfg, c, up, dynamicFloor);
    IrqKeepsConsistentExactly(cfg, c, up, dynamicFloor);
    NoCrossingNoSwitch(cfg, d.hw, r);
  }
}
