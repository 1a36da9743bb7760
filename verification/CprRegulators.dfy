/** Regulators in threads: aggregation of their requests, and the settled voltages that the
    driver stores for their corners. */
module CprRegulators {
  import opened CInt
  import opened CprCorner
  import opened CprScaling
  import opened CprRuns

  /** The fields of LAST_MEASUREMENT; thread numbers and power domains as sets. */
  datatype Measurement = Measurement(
    valid: bool, bypassed: set<nat>, dn: set<nat>, up: set<nat>,
    aggrDn: bool, aggrMid: bool, aggrUp: bool, sawError: bool)

  const NO_MEASUREMENT: Measurement := Measurement(false, {}, {}, {}, false, false, false, false)

  /** The part of struct cpr3_regulator that takes part; corner indices below 0 are invalid. */
  datatype Vreg = Vreg(corners: seq<Corner>, enabled: bool, current: int, lastClosedLoop: int,
                       aggregated: bool, usesDynamicFloor: bool, dynamicFloorCorner: nat, powerDomains: set<nat>)
  {
    ghost predicate Shape() {
      Shaped(corners) && current < |corners| && lastClosedLoop < |corners| &&
      (usesDynamicFloor ==> dynamicFloorCorner < |corners|)
    }

    predicate TakesPart() { enabled && current >= 0 }
  }

  datatype Thread = Thread(vregs: seq<Vreg>, aggr: Corner, lastMask: set<nat>)

  ghost predicate VregsShape(vregs: seq<Vreg>) {
    forall j :: 0 <= j < |vregs| ==> vregs[j].Shape()
  }

  /** The settled voltage that cpr3_update_vreg_closed_loop_volt stores for a corner, once
      its guards on the regulator and the controller have passed. */
  function Settled(cfg: Config, threadCount: nat, id: nat, domains: set<nat>, c: Corner, vdd: int,
                   m: Measurement): int {
    if threadCount == 1 && c.floor <= vdd <= c.ceiling then vdd
    else if !cfg.supportsHw then c.last
    else if cfg.isCpr4 then vdd
    else if !m.valid || domains <= m.bypassed || (id in m.dn && id in m.up) then c.last
    else if m.aggrDn && id in m.dn && vdd < c.last && vdd >= c.floor then vdd
    else if m.aggrUp && id in m.up && vdd > c.last && vdd <= c.ceiling then vdd
    else if m.aggrMid && c.floor <= vdd <= c.ceiling then vdd
    else if m.sawError && (vdd == c.ceiling || vdd == c.floor) then vdd
    else c.last
  }

  /** A stored voltage stays in the corner's range exactly unless a CPR4 controller with
      hardware closed-loop stores one that is not: that branch has no range check. */
  lemma SettledInRangeExactly(cfg: Config, threadCount: nat, id: nat, domains: set<nat>, c: Corner, vdd: int,
                              m: Measurement)
    requires c.Ordered()
    ensures c.(last := Settled(cfg, threadCount, id, domains, c, vdd, m)).Ordered() <==>
            !(cfg.supportsHw && cfg.isCpr4 && !(c.floor <= vdd <= c.ceiling))
  {}

  /** Exactly when the reading is stored: with a single thread if it is in the corner's range; else
      only with supports_hw_closed_loop, for CPR4 always, and for CPR3 if the last measurement
      was valid, not bypassed and not contradictory, and it accounts for the reading. */
  predicate Stores(cfg: Config, threadCount: nat, id: nat, domains: set<nat>, c: Corner, vdd: int, m: Measurement) {
    var inRange := c.floor <= vdd <= c.ceiling;
    (threadCount == 1 && inRange) ||
    (cfg.supportsHw &&
      (cfg.isCpr4 || (m.valid && !(domains <= m.bypassed) && !(id in m.dn && id in m.up) && Explains(id, c, vdd, m))))
  }

  /** Thread and aggregate went down, and so did the voltage, not below the floor; or both went up;
      or the aggregate is content; or the loop reports an error at a limit. */
  predicate Explains(id: nat, c: Corner, vdd: int, m: Measurement) {
    (m.aggrDn && id in m.dn && c.floor <= vdd < c.last) || (m.aggrUp && id in m.up && c.last < vdd <= c.ceiling) ||
    (m.aggrMid && c.floor <= vdd <= c.ceiling) || (m.sawError && vdd in {c.floor, c.ceiling})
  }

  lemma SettledExactly(cfg: Config, threadCount: nat, id: nat, domains: set<nat>, c: Corner, vdd: int, m: Measurement)
    ensures Settled(cfg, threadCount, id, domains, c, vdd, m) ==
            if Stores(cfg, threadCount, id, domains, c, vdd, m) then vdd else c.last
  {}

  /** cpr3_update_vreg_closed_loop_volt; `settle` says that CPR is enabled and the last
      corner was a closed-loop one. */
  function WithSettled(cfg: Config, settle: bool, threadCount: nat, id: nat, t: Thread, v: Vreg, vdd: int,
                       m: Measurement): (r: Vreg)
    requires v.lastClosedLoop < |v.corners|
    ensures r == v.(corners := r.corners) && |r.corners| == |v.corners|
    ensures v.Shape() ==> r.Shape()
  {
    if !settle || v.lastClosedLoop < 0 || t.lastMask == RO_MASK || !v.aggregated then v
    else
      var corner := v.corners[v.lastClosedLoop];
      v.(corners := v.corners[v.lastClosedLoop :=
        corner.(last := Settled(cfg, threadCount, id, v.powerDomains, corner, vdd, m))])
  }

  /** A settled voltage is stored for one corner only, the last closed-loop one, and only if there is
      one, the loop was running, ROs were in use and the regulator took part. */
  lemma WithSettledExactly(cfg: Config, settle: bool, threadCount: nat, id: nat, t: Thread, v: Vreg, vdd: int,
                           m: Measurement, k: nat)
    requires v.lastClosedLoop < |v.corners| && k < |v.corners|
    ensures var c, d := v.corners[k], WithSettled(cfg, settle, threadCount, id, t, v, vdd, m).corners[k];
            d == c.(last := d.last) &&
            d.last == if settle && k == v.lastClosedLoop && t.lastMask != RO_MASK && v.aggregated &&
                         Stores(cfg, threadCount, id, v.powerDomains, c, vdd, m) then vdd else c.last
  {
    if 0 <= v.lastClosedLoop == k {
      SettledExactly(cfg, threadCount, id, v.powerDomains, v.corners[k], vdd, m);
    }
  }

  /** A regulator after its thread has been aggregated. */
  function VregAfter(cfg: Config, settle: bool, threadCount: nat, id: nat, t: Thread, v: Vreg, vdd: int,
                     m: Measurement): (r: Vreg)
    requires v.lastClosedLoop < |v.corners|
    ensures v.Shape() ==> r.Shape()
  {
    var w := WithSettled(cfg, settle, threadCount, id, t, v, vdd, m);
    w.(aggregated := w.TakesPart())
  }

  /** The corners of those of the first n regulators that take part. */
  function Requests(vregs: seq<Vreg>, n: nat): seq<Corner>
    requires n <= |vregs| && forall j :: 0 <= j < n ==> vregs[j].current < |vregs[j].corners|
  {
    if n == 0 then []
    else
      var v := vregs[n - 1];
      Requests(vregs, n - 1) + (if v.TakesPart() then [v.corners[v.current]] else [])
  }

  /** What one regulator adds to the dynamic floor. */
  function FloorOf(v: Vreg, forced: bool, m: Measurement): int
    requires v.usesDynamicFloor ==> v.dynamicFloorCorner < |v.corners|
  {
    if v.usesDynamicFloor && (forced || !m.valid || v.powerDomains <= m.bypassed)
    then v.corners[v.dynamicFloorCorner].last else 0
  }

  ghost predicate ThreadsShape(threads: seq<Thread>) {
    forall i :: 0 <= i < |threads| ==> VregsShape(threads[i].vregs)
  }

  /** d is not below what any of the first n regulators imposes. */
  ghost predicate FloorAtLeast(d: int, vregs: seq<Vreg>, n: nat, forced: bool, m: Measurement)
    requires n <= |vregs| && VregsShape(vregs)
  {
    forall j :: 0 <= j < n ==> FloorOf(vregs[j], forced, m) <= d
  }

  ghost predicate FloorComesFrom(d: int, vregs: seq<Vreg>, n: nat, forced: bool, m: Measurement)
    requires n <= |vregs| && VregsShape(vregs)
  {
    exists j :: 0 <= j < n && FloorOf(vregs[j], forced, m) == d
  }

  /** d is the greatest dynamic floor that any regulator imposes, or 0. */
  ghost predicate IsDynamicFloor(d: int, threads: seq<Thread>, forced: bool, m: Measurement)
    requires ThreadsShape(threads)
  {
    d >= 0 &&
    (forall i :: 0 <= i < |threads| ==> FloorAtLeast(d, threads[i].vregs, |threads[i].vregs|, forced, m)) &&
    (d > 0 ==> exists i :: 0 <= i < |threads| && FloorComesFrom(d, threads[i].vregs, |threads[i].vregs|, forced, m))
  }

  /** A regulator imposes its dynamic floor if it has one, unless a valid measurement found some of
      its power domains not bypassed and hardware closed-loop does not force it. */
  predicate Imposes(v: Vreg, forced: bool, m: Measurement) {
    v.usesDynamicFloor && (forced || !m.valid || v.powerDomains <= m.bypassed)
  }

  /** So the dynamic floor is the largest last voltage of the floor corners of the regulators that
      impose one, or 0. */
  lemma DynamicFloorExactly(d: int, threads: seq<Thread>, forced: bool, m: Measurement, i: nat, j: nat)
    requires ThreadsShape(threads) && IsDynamicFloor(d, threads, forced, m)
    requires i < |threads| && j < |threads[i].vregs|
    ensures var v := threads[i].vregs[j]; Imposes(v, forced, m) ==> v.corners[v.dynamicFloorCorner].last <= d
    ensures d > 0 ==> exists t, k :: 0 <= t < |threads| && 0 <= k < |threads[t].vregs| &&
                        Imposes(threads[t].vregs[k], forced, m) &&
                        threads[t].vregs[k].corners[threads[t].vregs[k].dynamicFloorCorner].last == d
  {
    assert FloorAtLeast(d, threads[i].vregs, |threads[i].vregs|, forced, m);
    if d > 0 {
      var t :| 0 <= t < |threads| && FloorComesFrom(d, threads[t].vregs, |threads[t].vregs|, forced, m);
      var k :| 0 <= k < |threads[t].vregs| && FloorOf(threads[t].vregs[k], forced, m) == d;
      assert Imposes(threads[t].vregs[k], forced, m);
    }
  }

  // ------------------------------------------------------------- value methods

  /** cpr3_regulator_get_dynamic_floor_volt; in hardware closed-loop the floor of every
      regulator that has one is in force. */
  method GetDynamicFloor(cfg: Config, threads: seq<Thread>, hwClosedLoop: bool, m: Measurement) returns (d: int)
    requires ThreadsShape(threads)
    ensures if cfg.supportsHw then IsDynamicFloor(d, threads, hwClosedLoop, m) else d == 0
  {
    d := 0;
    if !cfg.supportsHw {
      return;
    }
    for i := 0 to |threads|
      invariant d >= 0
      invariant forall k :: 0 <= k < i ==> FloorAtLeast(d, threads[k].vregs, |threads[k].vregs|, hwClosedLoop, m)
      invariant d > 0 ==>
                  exists k :: 0 <= k < i && FloorComesFrom(d, threads[k].vregs, |threads[k].vregs|, hwClosedLoop, m)
    {
      var vregs := threads[i].vregs;
      ghost var d0 := d;
      for j := 0 to |vregs|
        invariant d >= d0 && FloorAtLeast(d, vregs, j, hwClosedLoop, m)
        invariant d > d0 ==> FloorComesFrom(d, vregs, j, hwClosedLoop, m)
      {
        if vregs[j].usesDynamicFloor {
          if hwClosedLoop || !m.valid || vregs[j].powerDomains <= m.bypassed {
            d := Max(d, vregs[j].corners[vregs[j].dynamicFloorCorner].last);
          }
        }
      }
    }
  }

  /** One regulator: its settled voltage is stored, and its corner joins the thread's if it
      takes part. */
  method AggregateVreg(cfg: Config, settle: bool, threadCount: nat, id: nat, t: Thread, v: Vreg, joined: Corner,
                       vdd: int,
                       m: Measurement)
    returns (w: Vreg, all: Corner)
    requires v.Shape() && joined.Shape()
    ensures w == VregAfter(cfg, settle, threadCount, id, t, v, vdd, m) && w.Shape() && (w.aggregated <==> w.TakesPart())
    ensures all == if w.TakesPart() then Join(joined, w.corners[w.current]) else joined
  {
    w, all := WithSettled(cfg, settle, threadCount, id, t, v, vdd, m), joined;
    if !w.enabled || w.current < 0 {
      w := w.(aggregated := false);
    } else {
      w := w.(aggregated := true);
      all := Join(all, w.corners[w.current]);
    }
  }

  /** The regulators of one thread: settled voltages are stored, and the corners of those
      that take part are folded into the thread's aggregated corner. */
  method AggregateThread(cfg: Config, settle: bool, threadCount: nat, id: nat, was: Thread, vdd: int, m: Measurement)
    returns (t: Thread, valid: bool)
    requires VregsShape(was.vregs)
    ensures Aggregated(cfg, settle, threadCount, id, was, vdd, m, t)
    ensures valid <==> Requests(t.vregs, |t.vregs|) != []
  {
    var vregs, joined := was.vregs, ZeroCorner(RO_MASK);
    valid := false;
    for j := 0 to |vregs|
      invariant Folding(cfg, settle, threadCount, id, was, vdd, m, vregs, j, joined, valid)
    {
      ghost var before, partly := vregs, joined;
      var v;
      v, joined := AggregateVreg(cfg, settle, threadCount, id, was, vregs[j], joined, vdd, m);
      FoldNext(cfg, settle, threadCount, id, was, vdd, m, before, j, partly, valid, v);
      vregs := vregs[j := v];
      valid := valid || v.aggregated;
    }
    t := was.(vregs := vregs, aggr := joined);
  }

  /** The first j regulators of the thread have been folded. */
  ghost predicate Folding(cfg: Config, settle: bool, threadCount: nat, id: nat, was: Thread, vdd: int, m: Measurement,
                          vregs: seq<Vreg>, j: nat, joined: Corner, valid: bool)
    requires VregsShape(was.vregs)
  {
    j <= |vregs| == |was.vregs| && VregsShape(vregs) && (forall k :: j <= k < |vregs| ==> vregs[k] == was.vregs[k]) &&
    (forall k :: 0 <= k < j ==> vregs[k] == VregAfter(cfg, settle, threadCount, id, was, was.vregs[k], vdd, m)) &&
    Shaped(Requests(vregs, j)) && joined == ThreadJoin(Requests(vregs, j)) && (valid <==> Requests(vregs, j) != [])
  }

  lemma FoldNext(cfg: Config, settle: bool, threadCount: nat, id: nat, was: Thread, vdd: int, m: Measurement,
                 vregs: seq<Vreg>, j: nat, joined: Corner, valid: bool, v: Vreg)
    requires VregsShape(was.vregs) && Folding(cfg, settle, threadCount, id, was, vdd, m, vregs, j, joined, valid)
    requires j < |vregs| && v.Shape() && v == VregAfter(cfg, settle, threadCount, id, was, was.vregs[j], vdd, m)
    ensures joined.Shape() &&
            Folding(cfg, settle, threadCount, id, was, vdd, m, vregs[j := v], j + 1,
                    if v.TakesPart() then Join(joined, v.corners[v.current]) else joined, valid || v.TakesPart())
  {
    FoldOne(vregs, vregs[j := v], j);
  }

  /** One more regulator, taking part or not. */
  lemma FoldOne(before: seq<Vreg>, vregs: seq<Vreg>, j: nat)
    requires j < |vregs| == |before| && VregsShape(before) && VregsShape(vregs) && Shaped(Requests(before, j))
    requires forall k :: 0 <= k < j ==> before[k] == vregs[k]
    ensures Shaped(Requests(vregs, j + 1))
    ensures var c := if vregs[j].TakesPart() then [vregs[j].corners[vregs[j].current]] else [];
            Requests(vregs, j + 1) == Requests(before, j) + c &&
            ThreadJoin(Requests(vregs, j + 1)) ==
            if c == [] then ThreadJoin(Requests(before, j)) else Join(ThreadJoin(Requests(before, j)), c[0])
  {
    RequestsSame(before, vregs, j);
    if vregs[j].TakesPart() {
      ThreadJoinSnoc(Requests(before, j), vregs[j].corners[vregs[j].current]);
    } else {
      assert Requests(before, j) + [] == Requests(before, j);
    }
  }

  /** The thread t is `was` after aggregation. */
  ghost predicate Aggregated(cfg: Config, settle: bool, threadCount: nat, id: nat, was: Thread, vdd: int,
                             m: Measurement, t: Thread)
    requires VregsShape(was.vregs)
  {
    |t.vregs| == |was.vregs| && VregsShape(t.vregs) && t.lastMask == was.lastMask &&
    (forall j :: 0 <= j < |t.vregs| ==>
      t.vregs[j] == VregAfter(cfg, settle, threadCount, id, was, was.vregs[j], vdd, m)) &&
    Shaped(Requests(t.vregs, |t.vregs|)) && t.aggr == ThreadJoin(Requests(t.vregs, |t.vregs|))
  }

  /** Aggregate the requests of all threads; `ts` are the corners that take part. */
  method AggregateThreads(cfg: Config, settle: bool, was: seq<Thread>, vdd: int, m: Measurement)
    returns (threads: seq<Thread>, joined: Corner, valid: bool, ghost ts: seq<seq<Corner>>)
    requires ThreadsShape(was)
    ensures |threads| == |ts| == |was| && ThreadsShape(threads)
    ensures forall i :: 0 <= i < |was| ==> Aggregated(cfg, settle, |was|, i, was[i], vdd, m, threads[i])
    ensures forall i :: 0 <= i < |ts| ==> ts[i] == Requests(threads[i].vregs, |threads[i].vregs|)
    ensures AllShaped(ts) && joined == CtrlJoin(ts) && (valid <==> AnyRequest(ts))
  {
    joined, valid, ts, threads := ZeroCorner({}), false, [], was;
    for i := 0 to |threads|
      invariant |threads| == |was| && |ts| == i
      invariant forall k :: i <= k < |was| ==> threads[k] == was[k]
      invariant forall k :: 0 <= k < i ==> Aggregated(cfg, settle, |was|, k, was[k], vdd, m, threads[k])
      invariant forall k :: 0 <= k < i ==> ts[k] == Requests(threads[k].vregs, |threads[k].vregs|)
      invariant AllShaped(ts) && joined == CtrlJoin(ts) && (valid <==> AnyRequest(ts))
    {
      var t, threadValid := AggregateThread(cfg, settle, |was|, i, threads[i], vdd, m);
      ghost var cs := Requests(t.vregs, |t.vregs|);
      CtrlJoinSnoc(ts, cs);
      threads := threads[i := t];
      if threadValid {
        valid := true;
        joined := JoinVolts(joined, t.aggr);
      }
      ts := ts + [cs];
    }
  }

  ghost predicate AnyRequest(ts: seq<seq<Corner>>) {
    exists i :: 0 <= i < |ts| && ts[i] != []
  }

  lemma CtrlJoinSnoc(ts: seq<seq<Corner>>, cs: seq<Corner>)
    requires AllShaped(ts) && Shaped(cs)
    ensures AllShaped(ts + [cs]) &&
            CtrlJoin(ts + [cs]) == if cs == [] then CtrlJoin(ts) else JoinVolts(CtrlJoin(ts), ThreadJoin(cs))
    ensures AnyRequest(ts + [cs]) <==> AnyRequest(ts) || cs != []
  {
    assert (ts + [cs])[..|ts|] == ts;
    if cs != [] {
      assert (ts + [cs])[|ts|] != [];
    }
    if AnyRequest(ts) {
      var i :| 0 <= i < |ts| && ts[i] != [];
      assert (ts + [cs])[i] != [];
    }
  }

  lemma ThreadJoinSnoc(cs: seq<Corner>, c: Corner)
    requires Shaped(cs) && c.Shape()
    ensures Shaped(cs + [c]) && ThreadJoin(cs + [c]) == Join(ThreadJoin(cs), c)
  {
    assert (cs + [c])[..|cs|] == cs;
  }

  lemma {:induction false} RequestsSame(a: seq<Vreg>, b: seq<Vreg>, n: nat)
    requires n <= |a| && n <= |b| && forall j :: 0 <= j < n ==> a[j] == b[j] && a[j].current < |a[j].corners|
    ensures Requests(a, n) == Requests(b, n)
  {
    if n > 0 {
      RequestsSame(a, b, n - 1);
    }
  }

  /** The regulators, each with its current corner remembered as the closed-loop one. */
  function Remembered(vregs: seq<Vreg>): seq<Vreg> {
    seq(|vregs|, j requires 0 <= j < |vregs| =>
      if vregs[j].enabled then vregs[j].(lastClosedLoop := vregs[j].current) else vregs[j])
  }

  /** What the next update compares with: the RO masks and corners now in force. */
  method RememberCorners(was: seq<Thread>) returns (threads: seq<Thread>)
    requires ThreadsShape(was)
    ensures |threads| == |was| && ThreadsShape(threads)
    ensures forall i :: 0 <= i < |was| ==>
              threads[i] == was[i].(lastMask := was[i].aggr.roMask, vregs := Remembered(was[i].vregs))
  {
    threads := was;
    for i := 0 to |threads|
      invariant |threads| == |was|
      invariant forall k :: i <= k < |was| ==> threads[k] == was[k]
      invariant forall k :: 0 <= k < i ==>
        threads[k] == was[k].(lastMask := was[k].aggr.roMask, vregs := Remembered(was[k].vregs))
    {
      var t := threads[i];
      var vregs := t.vregs;
      for j := 0 to |vregs|
        invariant |vregs| == |t.vregs|
        invariant forall k :: j <= k < |vregs| ==> vregs[k] == t.vregs[k]
        invariant forall k :: 0 <= k < j ==> vregs[k] == Remembered(t.vregs)[k]
      {
        if vregs[j].enabled {
          vregs := vregs[j := vregs[j].(lastClosedLoop := vregs[j].current)];
        }
      }
      assert vregs == Remembered(t.vregs);
      threads := threads[i := t.(lastMask := t.aggr.roMask, vregs := vregs)];
    }
  }

  function SettledVregs(cfg: Config, settle: bool, threadCount: nat, id: nat, t: Thread, vdd: int,
                        m: Measurement): seq<Vreg>
    requires forall j :: 0 <= j < |t.vregs| ==> t.vregs[j].lastClosedLoop < |t.vregs[j].corners|
  {
    seq(|t.vregs|, j requires 0 <= j < |t.vregs| => WithSettled(cfg, settle, threadCount, id, t, t.vregs[j], vdd, m))
  }

  /** The settled voltage of every regulator after an interrupt. */
  method SettleAll(cfg: Config, settle: bool, was: seq<Thread>, vdd: int, m: Measurement) returns (threads: seq<Thread>)
    requires ThreadsShape(was)
    ensures |threads| == |was| && ThreadsShape(threads)
    ensures forall i :: 0 <= i < |was| ==>
              threads[i] == was[i].(vregs := SettledVregs(cfg, settle, |was|, i, was[i], vdd, m))
  {
    threads := was;
    for i := 0 to |threads|
      invariant |threads| == |was|
      invariant forall k :: i <= k < |was| ==> threads[k] == was[k]
      invariant forall k :: 0 <= k < i ==>
        threads[k] == was[k].(vregs := SettledVregs(cfg, settle, |was|, k, was[k], vdd, m)) &&
          VregsShape(threads[k].vregs)
    {
      var t := threads[i];
      var vregs := t.vregs;
      for j := 0 to |vregs|
        invariant |vregs| == |t.vregs| && VregsShape(vregs)
        invariant forall k :: j <= k < |vregs| ==> vregs[k] == t.vregs[k]
        invariant forall k :: 0 <= k < j ==> vregs[k] == WithSettled(cfg, settle, |was|, i, t, t.vregs[k], vdd, m)
      {
        vregs := vregs[j := WithSettled(cfg, settle, |was|, i, t, vregs[j], vdd, m)];
      }
      assert vregs == SettledVregs(cfg, settle, |was|, i, t, vdd, m);
      threads := threads[i := t.(vregs := vregs)];
    }
  }

  // ------------------------------------------------------ what the corners keep

  /** A stored corner: in order, as far as the driver relies on it, and on set points. */
  ghost predicate GoodCorner(cfg: Config, c: Corner)
    requires cfg.step > 0
  {
    c.OpenInRange() && c.OnSetPoints(cfg.step) && (IgnoresLast(cfg) || c.LastInRange())
  }

  ghost predicate GoodVreg(cfg: Config, v: Vreg)
    requires cfg.step > 0
  {
    forall k :: 0 <= k < |v.corners| ==> GoodCorner(cfg, v.corners[k])
  }

  ghost predicate GoodVregs(cfg: Config, vregs: seq<Vreg>)
    requires cfg.step > 0
  {
    forall j :: 0 <= j < |vregs| ==> GoodVreg(cfg, vregs[j])
  }

  ghost predicate GoodThreads(cfg: Config, threads: seq<Thread>)
    requires cfg.step > 0
  {
    forall i :: 0 <= i < |threads| ==> GoodVregs(cfg, threads[i].vregs)
  }

  /** Storing the reading of a supply that moves in set points keeps a corner good. */
  lemma SettledIsGood(cfg: Config, threadCount: nat, id: nat, domains: set<nat>, c: Corner, vdd: int, m: Measurement)
    requires cfg.step > 0 && GoodCorner(cfg, c) && Aligned(vdd, cfg.step)
    ensures GoodCorner(cfg, c.(last := Settled(cfg, threadCount, id, domains, c, vdd, m)))
  {
    if c.LastInRange() {
      SettledInRangeExactly(cfg, threadCount, id, domains, c, vdd, m);
    }
  }

  lemma WithSettledIsGood(cfg: Config, settle: bool, threadCount: nat, id: nat, t: Thread, v: Vreg, vdd: int,
                          m: Measurement)
    requires cfg.step > 0 && v.lastClosedLoop < |v.corners| && GoodVreg(cfg, v) && Aligned(vdd, cfg.step)
    ensures GoodVreg(cfg, WithSettled(cfg, settle, threadCount, id, t, v, vdd, m))
    ensures GoodVreg(cfg, VregAfter(cfg, settle, threadCount, id, t, v, vdd, m))
  {
    if v.lastClosedLoop >= 0 {
      SettledIsGood(cfg, threadCount, id, v.powerDomains, v.corners[v.lastClosedLoop], vdd, m);
    }
  }

  lemma AggregatedIsGood(cfg: Config, settle: bool, threadCount: nat, id: nat, was: Thread, vdd: int, m: Measurement,
                         t: Thread)
    requires cfg.step > 0 && VregsShape(was.vregs) && Aggregated(cfg, settle, threadCount, id, was, vdd, m, t)
    requires GoodVregs(cfg, was.vregs) && Aligned(vdd, cfg.step)
    ensures GoodVregs(cfg, t.vregs)
  {
    forall j | 0 <= j < |t.vregs| ensures GoodVreg(cfg, t.vregs[j]) {
      WithSettledIsGood(cfg, settle, threadCount, id, was, was.vregs[j], vdd, m);
    }
  }

  /** The corners of a thread that take part. */
  ghost predicate GoodList(cfg: Config, cs: seq<Corner>)
    requires cfg.step > 0
  {
    forall i :: 0 <= i < |cs| ==> GoodCorner(cfg, cs[i])
  }

  lemma {:induction false} RequestsAreGood(cfg: Config, vregs: seq<Vreg>, n: nat)
    requires cfg.step > 0 && n <= |vregs| && VregsShape(vregs) && GoodVregs(cfg, vregs)
    ensures GoodList(cfg, Requests(vregs, n))
  {
    if n > 0 {
      RequestsAreGood(cfg, vregs, n - 1);
    }
  }

  /** What an update takes in then. */
  ghost predicate GoodRequests(cfg: Config, ts: seq<seq<Corner>>)
    requires cfg.step > 0
  {
    GoodCorners(cfg, ts) && AllOnSetPoints(ts, cfg.step)
  }

  lemma GoodListsAreGood(cfg: Config, ts: seq<seq<Corner>>)
    requires cfg.step > 0 && AllShaped(ts) && forall i :: 0 <= i < |ts| ==> GoodList(cfg, ts[i])
    ensures GoodRequests(cfg, ts)
  {
    forall i | 0 <= i < |ts|
      ensures OpensInRange(ts[i]) && FloorsAligned(ts[i], cfg.step) && OnSetPoints(ts[i], cfg.step) &&
              (IgnoresLast(cfg) || LastsInRange(ts[i]))
    {
      assert GoodList(cfg, ts[i]);
    }
  }

  function AggregatedVregs(cfg: Config, settle: bool, threadCount: nat, id: nat, was: Thread, vdd: int,
                           m: Measurement): (r: seq<Vreg>)
    requires VregsShape(was.vregs)
    ensures |r| == |was.vregs| && VregsShape(r)
  {
    seq(|was.vregs|, j requires 0 <= j < |was.vregs| =>
      VregAfter(cfg, settle, threadCount, id, was, was.vregs[j], vdd, m))
  }

  lemma {:induction false} RequestsShaped(vregs: seq<Vreg>, n: nat)
    requires n <= |vregs| && VregsShape(vregs)
    ensures Shaped(Requests(vregs, n))
  {
    if n > 0 {
      RequestsShaped(vregs, n - 1);
    }
  }

  /** A thread after aggregation. */
  ghost function AggregatedThread(cfg: Config, settle: bool, threadCount: nat, id: nat, was: Thread, vdd: int,
                                  m: Measurement): (t: Thread)
    requires VregsShape(was.vregs)
    ensures VregsShape(t.vregs)
  {
    var vregs := AggregatedVregs(cfg, settle, threadCount, id, was, vdd, m);
    RequestsShaped(vregs, |vregs|);
    was.(vregs := vregs, aggr := ThreadJoin(Requests(vregs, |vregs|)))
  }

  ghost function AggregatedThreads(cfg: Config, settle: bool, was: seq<Thread>, vdd: int,
                                   m: Measurement): (r: seq<Thread>)
    requires ThreadsShape(was)
    ensures ThreadsShape(r)
  {
    seq(|was|, i requires 0 <= i < |was| => AggregatedThread(cfg, settle, |was|, i, was[i], vdd, m))
  }

  /** The corners of the regulators that take part, by thread. */
  ghost function RequestsOf(threads: seq<Thread>): seq<seq<Corner>>
    requires ThreadsShape(threads)
  {
    seq(|threads|, i requires 0 <= i < |threads| => Requests(threads[i].vregs, |threads[i].vregs|))
  }

  lemma AggregatedIsThread(cfg: Config, settle: bool, threadCount: nat, id: nat, was: Thread, vdd: int,
                           m: Measurement, t: Thread)
    requires VregsShape(was.vregs) && Aggregated(cfg, settle, threadCount, id, was, vdd, m, t)
    ensures t == AggregatedThread(cfg, settle, threadCount, id, was, vdd, m)
  {
    assert t.vregs == AggregatedVregs(cfg, settle, threadCount, id, was, vdd, m);
  }

  /** Every thread remembers its mask, and every enabled regulator its corner. */
  function RememberedAll(was: seq<Thread>): seq<Thread> {
    seq(|was|, i requires 0 <= i < |was| =>
      was[i].(lastMask := was[i].aggr.roMask, vregs := Remembered(was[i].vregs)))
  }

  lemma RememberedExactly(was: seq<Thread>, i: nat, j: nat)
    requires i < |was| && j < |was[i].vregs|
    ensures var t := RememberedAll(was)[i];
            |t.vregs| == |was[i].vregs| && t.lastMask == was[i].aggr.roMask && t.aggr == was[i].aggr &&
            var v := was[i].vregs[j];
            t.vregs[j] == v.(lastClosedLoop := if v.enabled then v.current else v.lastClosedLoop)
  {}

  /** Every regulator has its settled voltage stored. */
  ghost function SettledThreads(cfg: Config, settle: bool, was: seq<Thread>, vdd: int, m: Measurement): seq<Thread>
    requires ThreadsShape(was)
  {
    seq(|was|, i requires 0 <= i < |was| => was[i].(vregs := SettledVregs(cfg, settle, |was|, i, was[i], vdd, m)))
  }

  /** The aggregation, with what it keeps of good corners. */
  method Collect(cfg: Config, settle: bool, was: seq<Thread>, vdd: int, m: Measurement)
    returns (threads: seq<Thread>, joined: Corner, valid: bool, ghost ts: seq<seq<Corner>>)
    requires ThreadsShape(was) && cfg.step > 0
    ensures ThreadsShape(threads) && AllShaped(ts) && joined == CtrlJoin(ts) && (valid <==> AnyRequest(ts))
    ensures GoodThreads(cfg, was) && Aligned(vdd, cfg.step) ==> GoodThreads(cfg, threads) && GoodRequests(cfg, ts)
    ensures threads == AggregatedThreads(cfg, settle, was, vdd, m) && ts == RequestsOf(threads)
  {
    threads, joined, valid, ts := AggregateThreads(cfg, settle, was, vdd, m);
    forall i | 0 <= i < |was| ensures threads[i] == AggregatedThread(cfg, settle, |was|, i, was[i], vdd, m) {
      AggregatedIsThread(cfg, settle, |was|, i, was[i], vdd, m, threads[i]);
    }
    assert threads == AggregatedThreads(cfg, settle, was, vdd, m) && ts == RequestsOf(threads);
    if GoodThreads(cfg, was) && Aligned(vdd, cfg.step) {
      forall i | 0 <= i < |was| ensures GoodVregs(cfg, threads[i].vregs) && GoodList(cfg, ts[i]) {
        AggregatedIsGood(cfg, settle, |was|, i, was[i], vdd, m, threads[i]);
        RequestsAreGood(cfg, threads[i].vregs, |threads[i].vregs|);
      }
      GoodListsAreGood(cfg, ts);
    }
  }

  lemma RememberedIsGood(cfg: Config, was: seq<Thread>, threads: seq<Thread>)
    requires cfg.step > 0 && |threads| == |was| && GoodThreads(cfg, was)
    requires forall i :: 0 <= i < |was| ==>
               threads[i] == was[i].(lastMask := was[i].aggr.roMask, vregs := Remembered(was[i].vregs))
    ensures GoodThreads(cfg, threads)
  {
    forall i, j | 0 <= i < |threads| && 0 <= j < |threads[i].vregs| ensures GoodVreg(cfg, threads[i].vregs[j]) {
      assert GoodVregs(cfg, was[i].vregs) && GoodVreg(cfg, was[i].vregs[j]);
    }
  }

  lemma AllSettledIsGood(cfg: Config, settle: bool, was: seq<Thread>, vdd: int, m: Measurement, threads: seq<Thread>)
    requires cfg.step > 0 && ThreadsShape(was) && |threads| == |was| && GoodThreads(cfg, was) && Aligned(vdd, cfg.step)
    requires forall i :: 0 <= i < |was| ==>
               threads[i] == was[i].(vregs := SettledVregs(cfg, settle, |was|, i, was[i], vdd, m))
    ensures GoodThreads(cfg, threads)
  {
    forall i, j | 0 <= i < |threads| && 0 <= j < |threads[i].vregs| ensures GoodVreg(cfg, threads[i].vregs[j]) {
      assert GoodVregs(cfg, was[i].vregs);
      WithSettledIsGood(cfg, settle, |was|, i, was[i], was[i].vregs[j], vdd, m);
    }
  }

  /** A dynamic floor is one of the stored voltages, or 0. */
  lemma DynamicFloorOnSetPoint(cfg: Config, d: int, threads: seq<Thread>, forced: bool, m: Measurement)
    requires cfg.step > 0 && ThreadsShape(threads) && GoodThreads(cfg, threads) && IsDynamicFloor(d, threads, forced, m)
    ensures Aligned(d, cfg.step)
  {
    if d > 0 {
      var i :| 0 <= i < |threads| && FloorComesFrom(d, threads[i].vregs, |threads[i].vregs|, forced, m);
      var vregs := threads[i].vregs;
      var j :| 0 <= j < |vregs| && FloorOf(vregs[j], forced, m) == d;
      assert GoodVreg(cfg, vregs[j]);
      assert GoodCorner(cfg, vregs[j].corners[vregs[j].dynamicFloorCorner]);
    }
  }
}
