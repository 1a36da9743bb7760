/** Voltage corners of the CPR controller: how the corners of many regulators are folded
    into one, and how the range of the result is reshaped for hardware closed-loop. */
module CprCorner {
  import opened CInt

  const RO_COUNT: nat := 16

  const RO_MASK: set<nat> := {0, 1, 2, 3, 4, 5, 6, 7, 8, 9, 10, 11, 12, 13, 14, 15}

  datatype Irq = Up | Mid | Down

  /** struct cpr3_corner, without its sdelta table. The RO mask is the set of masked ROs. */
  datatype Corner = Corner(
    floor: int, ceiling: int, openLoop: int, last: int,
    absCeiling: int, unagedFloor: int, unagedCeiling: int, unagedOpenLoop: int,
    system: int, memAcc: int, procFreq: nat, fuseCorner: int,
    targetQuot: seq<nat>, roScale: seq<int>, roMask: set<nat>,
    irqEn: set<Irq>, derate: int, useOpenLoop: bool)
  {
    ghost predicate Shape() { |targetQuot| == RO_COUNT && |roScale| == RO_COUNT }

    ghost predicate OpenInRange() { floor <= openLoop <= ceiling }

    ghost predicate LastInRange() { floor <= last <= ceiling }

    /** floor <= open-loop, last <= ceiling. */
    ghost predicate Ordered() { OpenInRange() && LastInRange() }

    /** All four voltages are set points of the supply. */
    ghost predicate OnSetPoints(step: int)
      requires step > 0
    {
      Aligned(floor, step) && Aligned(ceiling, step) && Aligned(openLoop, step) && Aligned(last, step)
    }

    /** Hardware drifting in floor..ceiling could cross the threshold. */
    predicate Straddles(threshold: int) { floor < threshold <= ceiling }
  }

  /** A zeroed struct cpr3_corner, with a given RO mask. */
  function ZeroCorner(roMask: set<nat>): Corner {
    Corner(0, 0, 0, 0, 0, 0, 0, 0, 0, 0, 0, 0,
           [0, 0, 0, 0, 0, 0, 0, 0, 0, 0, 0, 0, 0, 0, 0, 0], [0, 0, 0, 0, 0, 0, 0, 0, 0, 0, 0, 0, 0, 0, 0, 0],
           roMask, {}, 0, false)
  }

  // ------------------------------------------------------------- aggregation

  function MaxQuots(a: seq<nat>, b: seq<nat>): seq<nat>
    requires |a| == |b| == RO_COUNT
  {
    seq(RO_COUNT, i requires 0 <= i < RO_COUNT => if a[i] >= b[i] then a[i] else b[i])
  }

  /** cpr3_regulator_aggregate_corners without the target quotients. The open-loop voltage
      is the larger one, with or without sdelta tables (see CprSdelta). */
  function JoinVolts(aggr: Corner, c: Corner): Corner {
    aggr.(ceiling := Max(aggr.ceiling, c.ceiling), floor := Max(aggr.floor, c.floor),
          last := Max(aggr.last, c.last), openLoop := Max(aggr.openLoop, c.openLoop),
          system := Max(aggr.system, c.system), memAcc := Max(aggr.memAcc, c.memAcc),
          irqEn := aggr.irqEn + c.irqEn, useOpenLoop := aggr.useOpenLoop || c.useOpenLoop)
  }

  /** cpr3_regulator_aggregate_corners with them. */
  function Join(aggr: Corner, c: Corner): (r: Corner)
    requires aggr.Shape() && c.Shape()
    ensures r.Shape()
  {
    JoinVolts(aggr, c).(roMask := aggr.roMask * c.roMask, targetQuot := MaxQuots(aggr.targetQuot, c.targetQuot))
  }

  ghost predicate Shaped(cs: seq<Corner>) {
    forall i :: 0 <= i < |cs| ==> cs[i].Shape()
  }

  ghost predicate AllShaped(ts: seq<seq<Corner>>) {
    forall i :: 0 <= i < |ts| ==> Shaped(ts[i])
  }

  /** The aggregated corner of a thread whose participating regulators are at `cs`. */
  ghost function ThreadJoin(cs: seq<Corner>): (r: Corner)
    requires Shaped(cs)
    ensures r.Shape()
  {
    if cs == [] then ZeroCorner(RO_MASK) else Join(ThreadJoin(cs[..|cs| - 1]), cs[|cs| - 1])
  }

  /** The aggregated corner of the controller; threads nobody takes part in are left out. */
  ghost function CtrlJoin(ts: seq<seq<Corner>>): (r: Corner)
    requires AllShaped(ts)
    ensures r.Shape()
  {
    if ts == [] then ZeroCorner({})
    else if ts[|ts| - 1] == [] then CtrlJoin(ts[..|ts| - 1])
    else JoinVolts(CtrlJoin(ts[..|ts| - 1]), ThreadJoin(ts[|ts| - 1]))
  }

  /** The requirements of a are within those of b. */
  ghost predicate Within(a: Corner, b: Corner) {
    a.floor <= b.floor && a.ceiling <= b.ceiling && a.openLoop <= b.openLoop && a.last <= b.last &&
    a.system <= b.system && a.memAcc <= b.memAcc && a.irqEn <= b.irqEn && (a.useOpenLoop ==> b.useOpenLoop)
  }

  ghost predicate WithinQuots(a: Corner, b: Corner)
    requires a.Shape() && b.Shape()
  {
    b.roMask <= a.roMask && forall i :: 0 <= i < RO_COUNT ==> a.targetQuot[i] <= b.targetQuot[i]
  }

  ghost predicate AllWithinQuots(cs: seq<Corner>, u: Corner)
    requires Shaped(cs) && u.Shape()
  {
    forall i :: 0 <= i < |cs| ==> WithinQuots(cs[i], u)
  }

  ghost predicate AllWithin(cs: seq<Corner>, u: Corner) {
    forall i :: 0 <= i < |cs| ==> Within(cs[i], u)
  }

  lemma {:induction false} ThreadJoinCovers(cs: seq<Corner>)
    requires Shaped(cs)
    ensures AllWithin(cs, ThreadJoin(cs)) && AllWithinQuots(cs, ThreadJoin(cs))
  {
    if cs != [] {
      var init, c := cs[..|cs| - 1], cs[|cs| - 1];
      ThreadJoinCovers(init);
      JoinCovers(ThreadJoin(init), c);
      forall i | 0 <= i < |cs| ensures Within(cs[i], ThreadJoin(cs)) && WithinQuots(cs[i], ThreadJoin(cs)) {
        assert i < |init| ==> cs[i] == init[i];
      }
    }
  }

  lemma {:induction false} ThreadJoinBelow(cs: seq<Corner>, u: Corner)
    requires Shaped(cs) && Within(ZeroCorner({}), u) && AllWithin(cs, u)
    ensures Within(ThreadJoin(cs), u)
  {
    if cs != [] {
      ThreadJoinBelow(cs[..|cs| - 1], u);
    }
  }

  lemma {:induction false} ThreadJoinBelowQuots(cs: seq<Corner>, u: Corner)
    requires Shaped(cs) && u.Shape() && WithinQuots(ZeroCorner(RO_MASK), u) && AllWithinQuots(cs, u)
    ensures WithinQuots(ThreadJoin(cs), u)
  {
    if cs != [] {
      ThreadJoinBelowQuots(cs[..|cs| - 1], u);
    }
  }

  /** A thread's aggregated corner is the least one that covers all its regulators: their
      voltages, interrupts and target quotients, with an RO masked only if all mask it. */
  lemma ThreadJoinIsLeast(cs: seq<Corner>)
    requires Shaped(cs)
    ensures AllWithin(cs, ThreadJoin(cs)) && AllWithinQuots(cs, ThreadJoin(cs))
    ensures forall u: Corner :: Within(ZeroCorner({}), u) && AllWithin(cs, u) ==> Within(ThreadJoin(cs), u)
    ensures forall u: Corner :: u.Shape() && WithinQuots(ZeroCorner(RO_MASK), u) && AllWithinQuots(cs, u) ==>
              WithinQuots(ThreadJoin(cs), u)
  {
    ThreadJoinCovers(cs);
    forall u: Corner | Within(ZeroCorner({}), u) && AllWithin(cs, u) ensures Within(ThreadJoin(cs), u) {
      ThreadJoinBelow(cs, u);
    }
    forall u: Corner | u.Shape() && WithinQuots(ZeroCorner(RO_MASK), u) && AllWithinQuots(cs, u)
      ensures WithinQuots(ThreadJoin(cs), u)
    {
      ThreadJoinBelowQuots(cs, u);
    }
  }

  lemma JoinCovers(a: Corner, c: Corner)
    requires a.Shape() && c.Shape()
    ensures var r := Join(a, c); Within(a, r) && Within(c, r) && WithinQuots(a, r) && WithinQuots(c, r)
  {}

  ghost predicate ThreadsWithin(ts: seq<seq<Corner>>, u: Corner) {
    forall i :: 0 <= i < |ts| ==> AllWithin(ts[i], u)
  }

  lemma {:induction false} CtrlJoinCovers(ts: seq<seq<Corner>>)
    requires AllShaped(ts)
    ensures Within(ZeroCorner({}), CtrlJoin(ts)) && ThreadsWithin(ts, CtrlJoin(ts))
  {
    if ts != [] {
      var init, cs := ts[..|ts| - 1], ts[|ts| - 1];
      CtrlJoinCovers(init);
      ThreadJoinCovers(cs);
      forall i | 0 <= i < |ts| ensures AllWithin(ts[i], CtrlJoin(ts)) {
        assert i < |init| ==> ts[i] == init[i] && AllWithin(init[i], CtrlJoin(init));
      }
    }
  }

  lemma {:induction false} CtrlJoinBelow(ts: seq<seq<Corner>>, u: Corner)
    requires AllShaped(ts) && Within(ZeroCorner({}), u) && ThreadsWithin(ts, u)
    ensures Within(CtrlJoin(ts), u)
  {
    if ts != [] {
      CtrlJoinBelow(ts[..|ts| - 1], u);
      ThreadJoinBelow(ts[|ts| - 1], u);
    }
  }

  /** The controller's aggregated corner is the least one that covers every regulator of
      every thread. */
  lemma CtrlJoinIsLeast(ts: seq<seq<Corner>>)
    requires AllShaped(ts)
    ensures Within(ZeroCorner({}), CtrlJoin(ts)) && ThreadsWithin(ts, CtrlJoin(ts))
    ensures forall u: Corner :: Within(ZeroCorner({}), u) && ThreadsWithin(ts, u) ==> Within(CtrlJoin(ts), u)
  {
    CtrlJoinCovers(ts);
    forall u: Corner | Within(ZeroCorner({}), u) && ThreadsWithin(ts, u) ensures Within(CtrlJoin(ts), u) {
      CtrlJoinBelow(ts, u);
    }
  }

  ghost predicate Requested(ts: seq<seq<Corner>>, c: Corner) {
    exists i, j :: 0 <= i < |ts| && 0 <= j < |ts[i]| && ts[i][j] == c
  }

  /** So the order of regulators and threads does not matter: two lists of the same
      requests aggregate to the same voltages and interrupts. */
  lemma CtrlJoinOrderIndependent(ts: seq<seq<Corner>>, ts': seq<seq<Corner>>)
    requires AllShaped(ts) && AllShaped(ts')
    requires forall c :: Requested(ts, c) <==> Requested(ts', c)
    ensures Within(CtrlJoin(ts), CtrlJoin(ts')) && Within(CtrlJoin(ts'), CtrlJoin(ts))
  {
    CtrlJoinGrows(ts, ts');
    CtrlJoinGrows(ts', ts);
  }

  lemma CtrlJoinGrows(ts: seq<seq<Corner>>, ts': seq<seq<Corner>>)
    requires AllShaped(ts) && AllShaped(ts')
    requires forall c :: Requested(ts, c) ==> Requested(ts', c)
    ensures Within(CtrlJoin(ts), CtrlJoin(ts'))
  {
    CtrlJoinCovers(ts');
    forall i | 0 <= i < |ts| ensures AllWithin(ts[i], CtrlJoin(ts')) {
      forall j | 0 <= j < |ts[i]| ensures Within(ts[i][j], CtrlJoin(ts')) {
        assert Requested(ts, ts[i][j]);
        var i', j' :| 0 <= i' < |ts'| && 0 <= j' < |ts'[i']| && ts'[i'][j'] == ts[i][j];
        assert AllWithin(ts'[i'], CtrlJoin(ts'));
      }
    }
    CtrlJoinBelow(ts, CtrlJoin(ts'));
  }

  /** Each regulator's corner is in order and on set points. */
  ghost predicate Sound(cs: seq<Corner>, step: int)
    requires step > 0
  {
    Shaped(cs) && forall i :: 0 <= i < |cs| ==> cs[i].Ordered() && cs[i].OnSetPoints(step)
  }

  ghost predicate OpensInRange(cs: seq<Corner>) { forall i :: 0 <= i < |cs| ==> cs[i].OpenInRange() }

  ghost predicate LastsInRange(cs: seq<Corner>) { forall i :: 0 <= i < |cs| ==> cs[i].LastInRange() }

  ghost predicate FloorsAligned(cs: seq<Corner>, step: int)
    requires step > 0
  {
    forall i :: 0 <= i < |cs| ==> Aligned(cs[i].floor, step)
  }

  ghost predicate CeilingsAligned(cs: seq<Corner>, step: int)
    requires step > 0
  {
    forall i :: 0 <= i < |cs| ==> Aligned(cs[i].ceiling, step)
  }

  /** Aggregation keeps each part of that by itself. */
  lemma {:induction false} ThreadJoinKeepsEach(cs: seq<Corner>, step: int)
    requires step > 0 && Shaped(cs)
    ensures OpensInRange(cs) ==> ThreadJoin(cs).OpenInRange()
    ensures LastsInRange(cs) ==> ThreadJoin(cs).LastInRange()
    ensures FloorsAligned(cs, step) ==> Aligned(ThreadJoin(cs).floor, step)
    ensures CeilingsAligned(cs, step) ==> Aligned(ThreadJoin(cs).ceiling, step)
  {
    if cs != [] {
      ThreadJoinKeepsEach(cs[..|cs| - 1], step);
    }
  }

  ghost predicate AllOpensInRange(ts: seq<seq<Corner>>) { forall i :: 0 <= i < |ts| ==> OpensInRange(ts[i]) }

  ghost predicate AllLastsInRange(ts: seq<seq<Corner>>) { forall i :: 0 <= i < |ts| ==> LastsInRange(ts[i]) }

  ghost predicate AllFloorsAligned(ts: seq<seq<Corner>>, step: int)
    requires step > 0
  {
    forall i :: 0 <= i < |ts| ==> FloorsAligned(ts[i], step)
  }

  ghost predicate AllCeilingsAligned(ts: seq<seq<Corner>>, step: int)
    requires step > 0
  {
    forall i :: 0 <= i < |ts| ==> CeilingsAligned(ts[i], step)
  }

  lemma {:induction false} CtrlJoinKeepsEach(ts: seq<seq<Corner>>, step: int)
    requires step > 0 && AllShaped(ts)
    ensures AllOpensInRange(ts) ==> CtrlJoin(ts).OpenInRange()
    ensures AllLastsInRange(ts) ==> CtrlJoin(ts).LastInRange()
    ensures AllFloorsAligned(ts, step) ==> Aligned(CtrlJoin(ts).floor, step)
    ensures AllCeilingsAligned(ts, step) ==> Aligned(CtrlJoin(ts).ceiling, step)
  {
    if ts != [] {
      CtrlJoinKeepsEach(ts[..|ts| - 1], step);
      ThreadJoinKeepsEach(ts[|ts| - 1], step);
    }
  }

  ghost predicate OnSetPoints(cs: seq<Corner>, step: int)
    requires step > 0
  {
    forall i :: 0 <= i < |cs| ==> cs[i].OnSetPoints(step)
  }

  ghost predicate AllOnSetPoints(ts: seq<seq<Corner>>, step: int)
    requires step > 0
  {
    forall i :: 0 <= i < |ts| ==> OnSetPoints(ts[i], step)
  }

  lemma {:induction false} ThreadJoinOnSetPoints(cs: seq<Corner>, step: int)
    requires step > 0 && Shaped(cs) && OnSetPoints(cs, step)
    ensures ThreadJoin(cs).OnSetPoints(step)
  {
    if cs != [] {
      ThreadJoinOnSetPoints(cs[..|cs| - 1], step);
    }
  }

  lemma {:induction false} CtrlJoinOnSetPoints(ts: seq<seq<Corner>>, step: int)
    requires step > 0 && AllShaped(ts) && AllOnSetPoints(ts, step)
    ensures CtrlJoin(ts).OnSetPoints(step)
  {
    if ts != [] {
      CtrlJoinOnSetPoints(ts[..|ts| - 1], step);
      ThreadJoinOnSetPoints(ts[|ts| - 1], step);
    }
  }

  /** Aggregation keeps floor <= open-loop, last <= ceiling, and set points. */
  lemma ThreadJoinKeeps(cs: seq<Corner>, step: int)
    requires step > 0 && Sound(cs, step)
    ensures ThreadJoin(cs).Ordered() && ThreadJoin(cs).OnSetPoints(step)
  {
    ThreadJoinKeepsEach(cs, step);
    ThreadJoinOnSetPoints(cs, step);
  }

  lemma CtrlJoinKeeps(ts: seq<seq<Corner>>, step: int)
    requires step > 0 && AllShaped(ts) && forall i :: 0 <= i < |ts| ==> Sound(ts[i], step)
    ensures CtrlJoin(ts).Ordered() && CtrlJoin(ts).OnSetPoints(step)
  {
    CtrlJoinKeepsEach(ts, step);
    CtrlJoinOnSetPoints(ts, step);
  }

  // -------------------------------------------------------- reshaping the range

  /** What the reshaping of the aggregated range depends on. A threshold of zero is unused. */
  datatype Limits = Limits(hwClosedLoop: bool, apmVolt: int, apmAdj: int, memAccVolt: int, step: int)

  function ApmAdjusted(l: Limits, a: Corner): Corner {
    if l.hwClosedLoop && a.ceiling >= l.apmVolt && a.floor < l.apmVolt then
      var b := if a.openLoop >= l.apmVolt - l.apmAdj then a.(floor := l.apmVolt)
               else a.(ceiling := l.apmVolt - l.step);
      b.(last := Min(Max(b.last, b.floor), b.ceiling), openLoop := Min(Max(b.openLoop, b.floor), b.ceiling))
    else a
  }

  function MemAccAdjusted(l: Limits, a: Corner): Corner {
    if l.hwClosedLoop && a.ceiling >= l.memAccVolt && a.floor < l.memAccVolt then
      a.(floor := l.memAccVolt, last := Max(a.last, l.memAccVolt), openLoop := Max(a.openLoop, l.memAccVolt))
    else a
  }

  function DynamicFloorAdjusted(l: Limits, a: Corner, dynamicFloor: int): Corner {
    if l.hwClosedLoop && a.floor < dynamicFloor then
      a.(floor := dynamicFloor, last := Max(a.last, dynamicFloor), openLoop := Max(a.openLoop, dynamicFloor),
         ceiling := Max(a.ceiling, dynamicFloor))
    else a
  }

  function Reshaped(l: Limits, a: Corner, dynamicFloor: int): Corner {
    DynamicFloorAdjusted(l, MemAccAdjusted(l, ApmAdjusted(l, a)), dynamicFloor)
  }

  /** The reshaping of _cpr3_regulator_update_ctrl_state, on its local corner. */
  method Reshape(l: Limits, a: Corner, dynamicFloor: int) returns (aggr: Corner)
    ensures aggr == Reshaped(l, a, dynamicFloor)
  {
    aggr := a;
    if l.hwClosedLoop && aggr.ceiling >= l.apmVolt && aggr.floor < l.apmVolt {
      if aggr.openLoop >= l.apmVolt - l.apmAdj {
        aggr := aggr.(floor := l.apmVolt);
      } else {
        aggr := aggr.(ceiling := l.apmVolt - l.step);
      }
      aggr := aggr.(last := Max(aggr.last, aggr.floor));
      aggr := aggr.(last := Min(aggr.last, aggr.ceiling));
      aggr := aggr.(openLoop := Max(aggr.openLoop, aggr.floor));
      aggr := aggr.(openLoop := Min(aggr.openLoop, aggr.ceiling));
    }
    if l.hwClosedLoop && aggr.ceiling >= l.memAccVolt && aggr.floor < l.memAccVolt {
      aggr := aggr.(floor := l.memAccVolt);
      aggr := aggr.(last := Max(aggr.last, aggr.floor));
      aggr := aggr.(openLoop := Max(aggr.openLoop, aggr.floor));
    }
    if l.hwClosedLoop && aggr.floor < dynamicFloor {
      aggr := aggr.(floor := dynamicFloor);
      aggr := aggr.(last := Max(aggr.last, aggr.floor));
      aggr := aggr.(openLoop := Max(aggr.openLoop, aggr.floor));
      aggr := aggr.(ceiling := Max(aggr.ceiling, aggr.floor));
    }
  }

  /** The APM step keeps the ordering exactly when it does not lower the ceiling below the
      floor, which happens only for a floor within one step below the threshold. */
  lemma ApmAdjustedOrderedExactly(l: Limits, a: Corner)
    requires a.Ordered()
    ensures ApmAdjusted(l, a).Ordered() <==>
            !(l.hwClosedLoop && a.Straddles(l.apmVolt) &&
              a.openLoop < l.apmVolt - l.apmAdj && l.apmVolt - l.step < a.floor)
  {}

  /** From a floor and a threshold that are set points, whatever the other voltages. */
  lemma ApmAdjustedIsSafe(l: Limits, a: Corner)
    requires l.step > 0 && a.OpenInRange() && Aligned(a.floor, l.step) && Aligned(l.apmVolt, l.step)
    ensures var r := ApmAdjusted(l, a);
            r.OpenInRange() && (a.LastInRange() ==> r.LastInRange()) && a.floor <= r.floor &&
            (l.hwClosedLoop ==> !r.Straddles(l.apmVolt))
  {
    if a.floor < l.apmVolt {
      AlignedBelow(a.floor, l.apmVolt, l.step);
    }
  }

  lemma MemAccAdjustedIsSafe(l: Limits, a: Corner)
    requires a.OpenInRange() && (l.hwClosedLoop ==> !a.Straddles(l.apmVolt))
    ensures var r := MemAccAdjusted(l, a);
            r.OpenInRange() && (a.LastInRange() ==> r.LastInRange()) && a.floor <= r.floor &&
            (l.hwClosedLoop ==> !r.Straddles(l.apmVolt) && !r.Straddles(l.memAccVolt))
  {}

  lemma DynamicFloorAdjustedIsSafe(l: Limits, a: Corner, dynamicFloor: int)
    requires a.OpenInRange() && (l.hwClosedLoop ==> !a.Straddles(l.apmVolt) && !a.Straddles(l.memAccVolt))
    ensures var r := DynamicFloorAdjusted(l, a, dynamicFloor);
            r.OpenInRange() && (a.LastInRange() ==> r.LastInRange()) && a.floor <= r.floor &&
            (l.hwClosedLoop ==> !r.Straddles(l.apmVolt) && !r.Straddles(l.memAccVolt) && dynamicFloor <= r.floor)
  {}

  /** In hardware closed-loop, from a floor and an APM threshold that are set points: the
      reshaped range keeps its order and straddles neither threshold, wherever the mem-acc
      threshold, the dynamic floor and the other voltages lie. No later adjustment undoes an
      earlier one. */
  lemma ReshapedIsSafe(l: Limits, a: Corner, dynamicFloor: int)
    requires l.step > 0 && a.OpenInRange() && Aligned(a.floor, l.step) && Aligned(l.apmVolt, l.step)
    ensures var r := Reshaped(l, a, dynamicFloor);
            r.OpenInRange() && (a.LastInRange() ==> r.LastInRange()) && a.floor <= r.floor &&
            (l.hwClosedLoop ==> !r.Straddles(l.apmVolt) && !r.Straddles(l.memAccVolt) && dynamicFloor <= r.floor)
  {
    var b := ApmAdjusted(l, a);
    ApmAdjustedIsSafe(l, a);
    MemAccAdjustedIsSafe(l, b);
    DynamicFloorAdjustedIsSafe(l, MemAccAdjusted(l, b), dynamicFloor);
  }

  /** The same for what is aggregated from any number of regulators. */
  lemma JoinedRangeIsSafe(l: Limits, ts: seq<seq<Corner>>, dynamicFloor: int)
    requires l.step > 0 && AllShaped(ts) && AllOpensInRange(ts) && AllFloorsAligned(ts, l.step) &&
             Aligned(l.apmVolt, l.step)
    ensures var r := Reshaped(l, CtrlJoin(ts), dynamicFloor);
            r.OpenInRange() && (AllLastsInRange(ts) ==> r.LastInRange()) && 0 <= CtrlJoin(ts).floor <= r.floor &&
            (l.hwClosedLoop ==> !r.Straddles(l.apmVolt) && !r.Straddles(l.memAccVolt) && dynamicFloor <= r.floor)
  {
    CtrlJoinKeepsEach(ts, l.step);
    CtrlJoinCovers(ts);
    ReshapedIsSafe(l, CtrlJoin(ts), dynamicFloor);
  }

  /** If all voltages involved are set points, so are the reshaped ones. */
  lemma ReshapedOnSetPoints(l: Limits, a: Corner, dynamicFloor: int)
    requires l.step > 0 && a.OnSetPoints(l.step)
    requires Aligned(l.apmVolt, l.step) && Aligned(l.memAccVolt, l.step) && Aligned(dynamicFloor, l.step)
    ensures Reshaped(l, a, dynamicFloor).OnSetPoints(l.step)
  {
    AlignedShift(l.apmVolt, l.step);
  }

  // ------------------------------------------------------ choosing the voltage

  /** What the choice of the new voltage depends on. */
  datatype Mode = Mode(isCpr4: bool, supportsHw: bool, cprEnabled: bool, lastWasClosedLoop: bool)

  /** The new vdd voltage; `sdeltaDiff` is the spread of the sdelta table in microvolts. */
  function NewVolt(m: Mode, a: Corner, sdeltaDiff: int): int {
    if m.cprEnabled && m.lastWasClosedLoop then
      if !m.isCpr4 then a.last
      else if m.supportsHw then a.openLoop
      else Min(a.last + sdeltaDiff, a.ceiling)
    else a.openLoop
  }

  /** The new voltage is in the range, if what it is chosen from is. */
  lemma NewVoltInRange(m: Mode, a: Corner, sdeltaDiff: int)
    requires a.OpenInRange() && sdeltaDiff >= 0 && ((m.isCpr4 && m.supportsHw) || a.LastInRange())
    ensures a.floor <= NewVolt(m, a, sdeltaDiff) <= a.ceiling
    ensures m.isCpr4 && m.supportsHw ==> NewVolt(m, a, sdeltaDiff) == a.openLoop
  {}

  lemma NewVoltOnSetPoint(m: Mode, a: Corner, sdeltaDiff: int, step: int)
    requires step > 0 && a.OnSetPoints(step) && Aligned(sdeltaDiff, step)
    ensures Aligned(NewVolt(m, a, sdeltaDiff), step)
  {
    AlignedSum(a.last, sdeltaDiff, step);
  }
}
