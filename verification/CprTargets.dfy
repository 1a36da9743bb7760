/** What updates and interrupts ask for, in numbers: the range and the target as functions of
    the requests of the regulators, and the voltage that an interrupt leads to. */
module CprTargets {
  import opened CInt
  import opened CprCorner
  import opened CprScaling
  import opened CprRequests
  import opened CprRuns

  /** The voltage of lo..hi that is nearest to v. */
  function Clip(v: int, lo: int, hi: int): int { Min(Max(v, lo), hi) }

  // ------------------------------------------------------------------ the range

  /** The highest voltage that is left once the range is kept off the APM threshold. */
  function Top(l: Limits, a: Corner): int {
    if a.Straddles(l.apmVolt) && a.openLoop < l.apmVolt - l.apmAdj then l.apmVolt - l.step else a.ceiling
  }

  /** The set points that the reshaped range keeps: of those on the side of the APM threshold that
      the open-loop voltage is on, give or take the adjustment, the ones from the mem-acc
      threshold, if it is within reach, and from the dynamic floor on. A dynamic floor above all
      of them is the whole range. */
  lemma ReshapedKeepsExactly(l: Limits, a: Corner, dynamicFloor: int, v: int)
    requires l.step > 0 && l.hwClosedLoop && a.OpenInRange()
    requires Aligned(a.floor, l.step) && Aligned(l.apmVolt, l.step) && Aligned(v, l.step)
    ensures var r := Reshaped(l, a, dynamicFloor);
            if dynamicFloor > Top(l, a) then r.floor == r.ceiling == dynamicFloor
            else r.floor <= v <= r.ceiling <==>
                 a.floor <= v <= a.ceiling && KeptByApm(l, a, v) && (l.memAccVolt <= Top(l, a) ==> l.memAccVolt <= v) &&
                 dynamicFloor <= v
  {
    if a.Straddles(l.apmVolt) {
      AlignedBelow(a.floor, l.apmVolt, l.step);
      if v < l.apmVolt {
        AlignedBelow(v, l.apmVolt, l.step);
      }
    }
  }

  predicate KeptByApm(l: Limits, a: Corner, v: int) {
    a.Straddles(l.apmVolt) ==> (v >= l.apmVolt <==> a.openLoop >= l.apmVolt - l.apmAdj)
  }

  /** Open-loop and last voltage become the nearest ones of the new range; in software nothing is
      reshaped. */
  lemma ReshapedVoltsExactly(l: Limits, a: Corner, dynamicFloor: int)
    requires l.step > 0 && a.OpenInRange() && Aligned(a.floor, l.step) && Aligned(l.apmVolt, l.step)
    ensures var r := Reshaped(l, a, dynamicFloor);
            r.openLoop == Clip(a.openLoop, r.floor, r.ceiling) &&
            (a.LastInRange() ==> r.last == Clip(a.last, r.floor, r.ceiling)) && (!l.hwClosedLoop ==> r == a) &&
            r.system == a.system && r.memAcc == a.memAcc && r.irqEn == a.irqEn
  {
    if a.floor < l.apmVolt {
      AlignedBelow(a.floor, l.apmVolt, l.step);
    }
    var b := ApmAdjusted(l, a);
    var c := MemAccAdjusted(l, b);
    ApmVolts(l, a);
    MemAccVolts(l, b);
    ClippedTwice(a, b, c);
    DynamicFloorVolts(l, c, dynamicFloor);
    ClippedTwice(a, c, DynamicFloorAdjusted(l, c, dynamicFloor));
    ReshapedKeepsRest(l, a, dynamicFloor);
  }

  lemma ClippedTwice(a: Corner, b: Corner, c: Corner)
    requires a.OpenInRange() && Clipped(a, b) && Clipped(b, c)
    requires b.floor <= c.floor && (c.ceiling == b.ceiling || c.floor == c.ceiling)
    ensures Clipped(a, c)
  {}

  lemma ReshapedKeepsRest(l: Limits, a: Corner, dynamicFloor: int)
    ensures var r := Reshaped(l, a, dynamicFloor);
            (!l.hwClosedLoop ==> r == a) && r.system == a.system && r.memAcc == a.memAcc && r.irqEn == a.irqEn
  {}

  /** b has the nearest voltages in its range to those of a. */
  ghost predicate Clipped(a: Corner, b: Corner) {
    b.OpenInRange() && b.openLoop == Clip(a.openLoop, b.floor, b.ceiling) &&
    (a.LastInRange() ==> b.LastInRange() && b.last == Clip(a.last, b.floor, b.ceiling))
  }

  lemma ApmVolts(l: Limits, a: Corner)
    requires a.OpenInRange() && (a.floor < l.apmVolt ==> a.floor <= l.apmVolt - l.step)
    ensures Clipped(a, ApmAdjusted(l, a))
  {}

  lemma MemAccVolts(l: Limits, a: Corner)
    requires a.OpenInRange()
    ensures var b := MemAccAdjusted(l, a);
            Clipped(a, b) && a.floor <= b.floor && b.ceiling == a.ceiling
  {}

  lemma DynamicFloorVolts(l: Limits, a: Corner, dynamicFloor: int)
    requires a.OpenInRange()
    ensures var b := DynamicFloorAdjusted(l, a, dynamicFloor);
            Clipped(a, b) && a.floor <= b.floor && (b.ceiling == a.ceiling || b.floor == b.ceiling)
  {}

  // -------------------------------------------------------------- the requests

  function FloorOf(c: Corner): int { c.floor }

  function CeilingOf(c: Corner): int { c.ceiling }

  function OpenOf(c: Corner): int { c.openLoop }

  function LastOf(c: Corner): int { c.last }

  function SystemOf(c: Corner): int { c.system }

  function MemAccOf(c: Corner): int { c.memAcc }

  /** v is the largest of a voltage over all regulators that take part, or 0. */
  ghost predicate IsLargest(ts: seq<seq<Corner>>, volt: Corner -> int, v: int) {
    v >= 0 && (forall c :: Requested(ts, c) ==> volt(c) <= v) &&
    (v > 0 ==> exists c :: Requested(ts, c) && volt(c) == v)
  }

  /** The joins take the larger of such a voltage. */
  ghost predicate Joined(volt: Corner -> int) {
    volt(ZeroCorner(RO_MASK)) == volt(ZeroCorner({})) == 0 &&
    (forall a: Corner, b: Corner :: JoinsAt(volt, a, b))
  }

  ghost predicate JoinsAt(volt: Corner -> int, a: Corner, b: Corner) {
    volt(JoinVolts(a, b)) == Max(volt(a), volt(b)) &&
    (a.Shape() && b.Shape() ==> volt(Join(a, b)) == Max(volt(a), volt(b)))
  }

  lemma {:induction false} ThreadLargest(cs: seq<Corner>, volt: Corner -> int)
    requires Shaped(cs) && Joined(volt)
    ensures var v := volt(ThreadJoin(cs));
            v >= 0 && (forall j :: 0 <= j < |cs| ==> volt(cs[j]) <= v) &&
            (v > 0 ==> exists j :: 0 <= j < |cs| && volt(cs[j]) == v)
  {
    if cs != [] {
      var init, c := cs[..|cs| - 1], cs[|cs| - 1];
      ThreadLargest(init, volt);
      var v := volt(ThreadJoin(cs));
      assert JoinsAt(volt, ThreadJoin(init), c);
      assert v == Max(volt(ThreadJoin(init)), volt(c));
      if v == volt(c) {
        assert volt(cs[|cs| - 1]) == v;
      } else if v > 0 {
        var j :| 0 <= j < |init| && volt(init[j]) == v;
        assert volt(cs[j]) == v;
      }
    }
  }

  lemma {:induction false} CtrlLargest(ts: seq<seq<Corner>>, volt: Corner -> int)
    requires AllShaped(ts) && Joined(volt)
    ensures IsLargest(ts, volt, volt(CtrlJoin(ts)))
  {
    if ts != [] {
      var init, cs := ts[..|ts| - 1], ts[|ts| - 1];
      var v := volt(CtrlJoin(ts));
      CtrlLargest(init, volt);
      ThreadLargest(cs, volt);
      assert JoinsAt(volt, CtrlJoin(init), ThreadJoin(cs));
      assert v == if cs == [] then volt(CtrlJoin(init)) else Max(volt(CtrlJoin(init)), volt(ThreadJoin(cs)));
      forall c ensures Requested(ts, c) <==> Requested(init, c) || c in cs {
        RequestedOfLast(ts, c);
      }
      if v > 0 && v == volt(CtrlJoin(init)) {
        var c :| Requested(init, c) && volt(c) == v;
        assert Requested(ts, c);
      } else if v > 0 {
        var j :| 0 <= j < |cs| && volt(cs[j]) == v;
        assert Requested(ts, cs[j]);
      }
    }
  }

  lemma RequestedOfLast(ts: seq<seq<Corner>>, c: Corner)
    requires ts != []
    ensures Requested(ts, c) <==> Requested(ts[..|ts| - 1], c) || c in ts[|ts| - 1]
  {
    var init := ts[..|ts| - 1];
    if i, j :| 0 <= i < |ts| && 0 <= j < |ts[i]| && ts[i][j] == c {
      assert i < |init| ==> init[i][j] == c;
    }
    if i, j :| 0 <= i < |init| && 0 <= j < |init[i]| && init[i][j] == c {
      assert ts[i][j] == c;
    }
    if c in ts[|ts| - 1] {
      var j :| 0 <= j < |ts[|ts| - 1]| && ts[|ts| - 1][j] == c;
    }
  }

  /** The aggregated corner takes the largest of each voltage. */
  lemma JoinedIsLargest(ts: seq<seq<Corner>>)
    requires AllShaped(ts)
    ensures var j := CtrlJoin(ts);
            IsLargest(ts, FloorOf, j.floor) && IsLargest(ts, CeilingOf, j.ceiling) &&
            IsLargest(ts, OpenOf, j.openLoop) && IsLargest(ts, LastOf, j.last) &&
            IsLargest(ts, SystemOf, j.system) && IsLargest(ts, MemAccOf, j.memAcc)
  {
    CtrlLargest(ts, FloorOf);
    CtrlLargest(ts, CeilingOf);
    CtrlLargest(ts, OpenOf);
    CtrlLargest(ts, LastOf);
    CtrlLargest(ts, SystemOf);
    CtrlLargest(ts, MemAccOf);
  }

  // ---------------------------------------------------------------- the target

  /** The target of an update. With CPR off, or after an open-loop corner, it is the largest
      open-loop voltage; in CPR3 closed loop the largest last voltage; in CPR4 closed loop the
      largest open-loop voltage again with supports_hw_closed_loop, else the largest last
      voltage and the spread of the margins, up to the ceiling. Each is clipped to the
      reshaped range. */
  lemma TargetExactly(cfg: Config, c: Ctrl, u: Update, open: int, last: int)
    requires cfg.Sound() && GoodCorners(cfg, u.ts)
    requires IsLargest(u.ts, OpenOf, open) && IsLargest(u.ts, LastOf, last)
    ensures var r := UpdateScaling(cfg, c, CtrlJoin(u.ts), u);
            var lo, hi := r.aggr.floor, r.aggr.ceiling;
            r.newVolt == r.aggr.last == (
              if !u.cprEnabled || !c.lastWasClosedLoop then Clip(open, lo, hi)
              else if !cfg.isCpr4 then Clip(last, lo, hi)
              else if cfg.supportsHw then Clip(open, lo, hi)
              else Min(Clip(last, lo, hi) + u.sdeltaDiff, hi))
    ensures var a := UpdateScaling(cfg, c, CtrlJoin(u.ts), u).aggr; a.openLoop == Clip(open, a.floor, a.ceiling)
  {
    JoinedIsLargest(u.ts);
    LargestIsUnique(u.ts, OpenOf, open, CtrlJoin(u.ts).openLoop);
    LargestIsUnique(u.ts, LastOf, last, CtrlJoin(u.ts).last);
    CtrlJoinKeepsEach(u.ts, cfg.step);
    ReshapedVoltsExactly(LimitsOf(cfg, u.hwClosedLoop, u.apmAdj), CtrlJoin(u.ts), u.dynamicFloor);
  }

  lemma LargestIsUnique(ts: seq<seq<Corner>>, volt: Corner -> int, v: int, w: int)
    requires IsLargest(ts, volt, v) && IsLargest(ts, volt, w)
    ensures v == w
  {}

  /** In software the range is that of the requests, so that with CPR off the target is the largest
      open-loop voltage itself: at least that of every regulator that takes part, and one of
      them. */
  lemma SoftwareTargetExactly(cfg: Config, c: Ctrl, u: Update)
    requires cfg.Sound() && GoodCorners(cfg, u.ts) && !u.hwClosedLoop
    ensures var r := UpdateScaling(cfg, c, CtrlJoin(u.ts), u);
            IsLargest(u.ts, FloorOf, r.aggr.floor) && IsLargest(u.ts, CeilingOf, r.aggr.ceiling) &&
            (!u.cprEnabled || !c.lastWasClosedLoop ==> IsLargest(u.ts, OpenOf, r.newVolt)) &&
            (u.cprEnabled && c.lastWasClosedLoop && !cfg.isCpr4 ==> IsLargest(u.ts, LastOf, r.newVolt))
  {
    JoinedIsLargest(u.ts);
    CtrlJoinKeepsEach(u.ts, cfg.step);
    ReshapedVoltsExactly(LimitsOf(cfg, u.hwClosedLoop, u.apmAdj), CtrlJoin(u.ts), u.dynamicFloor);
  }

  /** In software, two updates in a row, idle in between or not: the second one goes to the largest
      stored last voltage exactly where CPR was on for the first and still is, else to the
      largest open-loop voltage. */
  lemma NextTargetExactly(cfg: Config, c: Ctrl, u: Update, idle: bool, w: Update)
    requires cfg.Sound() && !cfg.isCpr4 && AllShaped(u.ts) && GoodCorners(cfg, w.ts) && !w.hwClosedLoop
    ensures var d := AfterUpdate(cfg, c, CtrlJoin(u.ts), u);
            var r := UpdateScaling(cfg, if idle then AfterIdle(d) else d, CtrlJoin(w.ts), w);
            IsLargest(w.ts, if u.cprEnabled && w.cprEnabled then LastOf else OpenOf, r.newVolt)
  {
    var d := AfterUpdate(cfg, c, CtrlJoin(u.ts), u);
    SoftwareTargetExactly(cfg, if idle then AfterIdle(d) else d, w);
  }

  /** What else of the corner reaches the hardware: the largest system and mem-acc voltages. */
  lemma TargetSettingsExactly(cfg: Config, c: Ctrl, u: Update)
    requires cfg.Sound() && GoodCorners(cfg, u.ts)
    ensures var r := UpdateScaling(cfg, c, CtrlJoin(u.ts), u);
            IsLargest(u.ts, SystemOf, r.aggr.system) && IsLargest(u.ts, MemAccOf, r.aggr.memAcc) &&
            r.hwClosedLoop == u.hwClosedLoop && r.cprEnabled == u.cprEnabled && r.oldCeiling == c.aggr.ceiling &&
            r.lastVolt == if IgnoresLast(cfg) then c.aggr.openLoop else c.hw.vdd
  {
    JoinedIsLargest(u.ts);
    CtrlJoinKeepsEach(u.ts, cfg.step);
    ReshapedVoltsExactly(LimitsOf(cfg, u.hwClosedLoop, u.apmAdj), CtrlJoin(u.ts), u.dynamicFloor);
  }

  // --------------------------------------------------------- enabled interrupts

  lemma {:induction false} ThreadIrqs(cs: seq<Corner>, irq: Irq)
    requires Shaped(cs)
    ensures irq in ThreadJoin(cs).irqEn <==> exists j :: 0 <= j < |cs| && irq in cs[j].irqEn
  {
    if cs != [] {
      var init, c := cs[..|cs| - 1], cs[|cs| - 1];
      ThreadIrqs(init, irq);
      if irq in ThreadJoin(init).irqEn {
        var j :| 0 <= j < |init| && irq in init[j].irqEn;
        assert irq in cs[j].irqEn;
      }
      if irq in c.irqEn {
        assert irq in cs[|cs| - 1].irqEn;
      }
      if j :| 0 <= j < |cs| && irq in cs[j].irqEn {
        assert j < |init| ==> irq in init[j].irqEn;
      }
    }
  }

  ghost predicate SomeEnables(ts: seq<seq<Corner>>, irq: Irq) {
    exists i, j :: 0 <= i < |ts| && 0 <= j < |ts[i]| && irq in ts[i][j].irqEn
  }

  lemma {:induction false} CtrlIrqs(ts: seq<seq<Corner>>, irq: Irq)
    requires AllShaped(ts)
    ensures irq in CtrlJoin(ts).irqEn <==> SomeEnables(ts, irq)
  {
    if ts != [] {
      var init, cs := ts[..|ts| - 1], ts[|ts| - 1];
      CtrlIrqs(init, irq);
      ThreadIrqs(cs, irq);
      if SomeEnables(init, irq) {
        var i, j :| 0 <= i < |init| && 0 <= j < |init[i]| && irq in init[i][j].irqEn;
        assert irq in ts[i][j].irqEn;
      }
      if cs != [] && irq in ThreadJoin(cs).irqEn {
        var j :| 0 <= j < |cs| && irq in cs[j].irqEn;
        assert irq in ts[|ts| - 1][j].irqEn;
      }
      if i, j :| 0 <= i < |ts| && 0 <= j < |ts[i]| && irq in ts[i][j].irqEn {
        assert i < |init| ==> irq in init[i][j].irqEn;
      }
    }
  }

  /** After an update in software closed-loop an interrupt is enabled exactly if a regulator that
      takes part enables it and it can move the supply within the range. */
  lemma UpdateIrqsExactly(cfg: Config, c: Ctrl, u: Update, irq: Irq)
    requires cfg.Sound() && GoodCorners(cfg, u.ts)
    ensures var d := AfterUpdate(cfg, c, CtrlJoin(u.ts), u).aggr;
            irq in d.irqEn <==>
            SomeEnables(u.ts, irq) &&
            (u.cprEnabled && !u.hwClosedLoop ==>
              !(irq == Down && d.last == d.floor) && !(irq == Up && d.last == d.ceiling))
  {
    CtrlIrqs(u.ts, irq);
    CtrlJoinKeepsEach(u.ts, cfg.step);
    ReshapedVoltsExactly(LimitsOf(cfg, u.hwClosedLoop, u.apmAdj), CtrlJoin(u.ts), u.dynamicFloor);
  }

  // -------------------------------------------------------------- an interrupt

  /** An up interrupt raises the voltage by one step, or up to the ceiling; a down interrupt lowers
      it by one step, or down to the floor, unless that is below the dynamic floor, which holds
      it where it is. */
  lemma IrqMovesExactly(aggr: Corner, step: int, dynamicFloor: int)
    requires step > 0 && aggr.Ordered()
    ensures IrqVolt(aggr, step, true, dynamicFloor) ==
            if aggr.last + step <= aggr.ceiling then aggr.last + step else aggr.ceiling
    ensures var lower := if aggr.floor <= aggr.last - step then aggr.last - step else aggr.floor;
            IrqVolt(aggr, step, false, dynamicFloor) == if dynamicFloor <= lower then lower else aggr.last
  {}

  /** The interrupt of the direction handled stays enabled exactly if a whole step was possible; the
      other one is enabled, and nothing else changes. */
  lemma IrqEnablesExactly(aggr: Corner, step: int, up: bool, dynamicFloor: int, irq: Irq)
    requires step > 0 && aggr.Ordered()
    ensures irq in IrqEnables(aggr, step, up, dynamicFloor) <==>
            if irq == (if up then Down else Up) then true
            else if irq == Mid then Mid in aggr.irqEn
            else if up then Up in aggr.irqEn && aggr.last + step <= aggr.ceiling
            else Down in aggr.irqEn && aggr.floor <= aggr.last - step && dynamicFloor <= aggr.last - step
  {}

  ghost predicate AllOf(events: seq<IrqEvent>, up: bool) {
    forall i :: 0 <= i < |events| ==> events[i].up == up
  }

  /** Up interrupts climb step by step to the ceiling, whatever the dynamic floors. */
  lemma {:induction false} UpRunExactly(aggr: Corner, step: int, events: seq<IrqEvent>)
    requires step > 0 && aggr.Ordered() && AllOf(events, true)
    ensures var r := IrqRun(aggr, step, events); r.Ordered() && r.floor == aggr.floor && r.ceiling == aggr.ceiling
    ensures IrqRun(aggr, step, events).last == Min(aggr.last + |events| * step, aggr.ceiling)
  {
    if events != [] {
      var init := events[..|events| - 1];
      UpRunExactly(aggr, step, init);
      IrqMovesExactly(IrqRun(aggr, step, init), step, events[|events| - 1].dynamicFloor);
      OneMore(|init|, step);
    }
  }

  /** So enough of them reach it. */
  lemma UpRunReachesCeiling(aggr: Corner, step: int, events: seq<IrqEvent>)
    requires step > 0 && aggr.Ordered() && AllOf(events, true) && aggr.ceiling - aggr.last <= |events| * step
    ensures IrqRun(aggr, step, events).last == aggr.ceiling
  {
    UpRunExactly(aggr, step, events);
  }

  /** Down interrupts under a dynamic floor that does not change descend step by step: to the floor
      of the range, or else to the last voltage on the way that is not below the dynamic one. */
  lemma {:induction false} DownRunExactly(aggr: Corner, step: int, events: seq<IrqEvent>, d: int)
    requires step > 0 && aggr.Ordered() && AllOf(events, false)
    requires forall i :: 0 <= i < |events| ==> events[i].dynamicFloor == d
    ensures var r := IrqRun(aggr, step, events); r.Ordered() && r.floor == aggr.floor && r.ceiling == aggr.ceiling
    ensures IrqRun(aggr, step, events).last == Max(aggr.last - |events| * step, Lowest(aggr, step, d))
  {
    LowestIsBelow(aggr, step, d);
    if events != [] {
      var init := events[..|events| - 1];
      DownRunExactly(aggr, step, init, d);
      var before := IrqRun(aggr, step, init);
      IrqMovesExactly(before, step, d);
      OneMore(|init|, step);
      if d > aggr.floor && aggr.last >= d {
        LastAboveIsLowest(aggr.last - d, |init|, step);
      }
    }
  }

  /** Where down interrupts end. */
  function Lowest(aggr: Corner, step: int, d: int): int
    requires step > 0
  {
    if d <= aggr.floor then aggr.floor
    else if aggr.last < d then aggr.last
    else d + (aggr.last - d) % step
  }

  lemma LowestIsBelow(aggr: Corner, step: int, d: int)
    requires step > 0 && aggr.Ordered()
    ensures aggr.floor <= Lowest(aggr, step, d) <= aggr.last
  {}

  /** Of the voltages n steps down, the remainder is the last that is not negative. */
  lemma LastAboveIsLowest(x: nat, n: nat, step: int)
    requires step > 0
    ensures if x - n * step >= x % step then x - (n + 1) * step < 0 ==> x - n * step == x % step else x - n * step < 0
    ensures x - n * step > x % step ==> x - (n + 1) * step >= x % step
  {
    var q := x / step;
    assert x == q * step + x % step;
    assert (q - n) * step == q * step - n * step;
    OneMore(n, step);
    MulStep(q - n, step);
    if q - n >= 2 {
      assert (q - n - 1) * step == (q - n) * step - step;
      MulStep(q - n - 1, step);
    }
  }

  // ----------------------------------------------------------- no refused request

  /** No request of an update of a running controller on set points is refused. */
  lemma UpdateIsNotRefused(cfg: Config, c: Ctrl, u: Update)
    requires cfg.Sound() && Steady(cfg, c) && c.started && c.aggr.OnSetPoints(cfg.step)
    requires GoodCorners(cfg, u.ts) && AllOnSetPoints(u.ts, cfg.step)
    requires Aligned(u.dynamicFloor, cfg.step) && u.sdeltaDiff >= 0 && Aligned(u.sdeltaDiff, cfg.step)
    ensures NoneRefused(cfg, Plan(cfg, UpdateScaling(cfg, c, CtrlJoin(u.ts), u)))
  {
    TargetCornerIsSafe(cfg, c, u);
    TargetOnSetPoint(cfg, c, u);
    WithinCeilingsIsNotRefused(cfg, UpdateScaling(cfg, c, CtrlJoin(u.ts), u));
  }

  /** Nor is one of an interrupt. */
  lemma IrqIsNotRefused(cfg: Config, c: Ctrl, up: bool, dynamicFloor: int)
    requires cfg.Sound() && c.aggr.Ordered() && 0 <= c.aggr.floor && c.aggr.OnSetPoints(cfg.step)
    ensures NoneRefused(cfg, Plan(cfg, IrqScaling(cfg, c, up, dynamicFloor)))
  {
    IrqIsSafe(c.aggr, cfg.step, up, dynamicFloor);
    WithinCeilingsIsNotRefused(cfg, IrqScaling(cfg, c, up, dynamicFloor));
  }

  /** The first update knows no ceiling yet: a request of it is refused exactly if it goes down
      across the mem-acc threshold. */
  lemma FirstUpdateRefusedExactly(cfg: Config, c: Ctrl, u: Update)
    requires cfg.Sound() && c.aggr.ceiling == 0
    requires GoodCorners(cfg, u.ts) && AllOnSetPoints(u.ts, cfg.step)
    requires Aligned(u.dynamicFloor, cfg.step) && u.sdeltaDiff >= 0 && Aligned(u.sdeltaDiff, cfg.step)
    ensures var r := UpdateScaling(cfg, c, CtrlJoin(u.ts), u);
            NoneRefused(cfg, Plan(cfg, r)) <==> !(cfg.MemAccUsed() && r.newVolt < cfg.memAccVolt <= r.lastVolt)
  {
    var r := UpdateScaling(cfg, c, CtrlJoin(u.ts), u);
    TargetCornerIsSafe(cfg, c, u);
    TargetOnSetPoint(cfg, c, u);
    PlanRefusedExactly(cfg, r);
    RoundUpReaches(r.newVolt - Nudge(r), r.aggr.ceiling, cfg.step);
    RoundUpFixes(cfg.memAccVolt, cfg.step);
  }
}
