/** Which settled voltages a controller stores for its regulators, from its own state and the
    measurement at hand. */
module CprSettling {
  import opened CprCorner
  import opened CprScaling
  import opened CprRegulators
  import opened CprController

  /** A settled voltage is stored for corner k of regulator v in thread i. */
  predicate StoresFor(cfg: Config, threads: seq<Thread>, i: nat, j: nat, k: nat, vdd: int, m: Measurement)
    requires i < |threads| && j < |threads[i].vregs| && k < |threads[i].vregs[j].corners|
  {
    var v := threads[i].vregs[j];
    k == v.lastClosedLoop && threads[i].lastMask != RO_MASK && v.aggregated &&
    Stores(cfg, |threads|, i, v.powerDomains, v.corners[k], vdd, m)
  }

  /** A CPR4 controller, and one without supports_hw_closed_loop, does not look at the measurement. */
  lemma MeasurementIgnored(cfg: Config, threadCount: nat, id: nat, domains: set<nat>, c: Corner, vdd: int,
                           m: Measurement, n: Measurement)
    requires cfg.isCpr4 || !cfg.supportsHw
    ensures Stores(cfg, threadCount, id, domains, c, vdd, m) <==> Stores(cfg, threadCount, id, domains, c, vdd, n)
  {}

  /** An update stores the reading of the supply, from before it moves, exactly if the loop was
      running in hardware, and for the last closed-loop corner of a regulator only. A regulator
      then counts as aggregated exactly if it is enabled and has a corner. */
  lemma UpdateSettlesExactly(ctrl: Controller, m: Measurement, i: nat, j: nat, k: nat)
    requires ctrl.Valid() && i < |ctrl.threads| && j < |ctrl.threads[i].vregs|
    requires k < |ctrl.threads[i].vregs[j].corners|
    ensures var was, vdd, ts := ctrl.threads[i].vregs[j], ctrl.supplies.hw.vdd, ctrl.TakenThreads(m);
            |ts| == |ctrl.threads| && |ts[i].vregs| == |ctrl.threads[i].vregs| &&
            var v, c := ts[i].vregs[j], was.corners[k];
            |v.corners| == |was.corners| && v.current == was.current && v.lastClosedLoop == was.lastClosedLoop &&
            (v.aggregated <==> was.enabled && was.current >= 0) &&
            v.corners[k] == c.(last :=
              if ctrl.cprEnabled && ctrl.hwClosedLoop && ctrl.lastWasClosedLoop &&
                 StoresFor(ctrl.cfg, ctrl.threads, i, j, k, vdd, m) then vdd else c.last)
  {
    var t, v, n := ctrl.threads[i], ctrl.threads[i].vregs[j], ctrl.TakenMeasurement(m);
    var vdd := ctrl.supplies.hw.vdd;
    assert VregsShape(t.vregs) && v.Shape();
    WithSettledExactly(ctrl.cfg, ctrl.Settles(), |ctrl.threads|, i, t, v, vdd, n, k);
    if ctrl.cfg.isCpr4 {
      MeasurementIgnored(ctrl.cfg, |ctrl.threads|, i, v.powerDomains, v.corners[k], vdd, m, n);
    }
  }

  /** An interrupt that has moved the supply to vdd stores that, exactly if the corner in force is a
      closed-loop one. */
  lemma InterruptSettlesExactly(ctrl: Controller, vdd: int, m: Measurement, i: nat, j: nat, k: nat)
    requires ctrl.Valid() && i < |ctrl.threads| && j < |ctrl.threads[i].vregs|
    requires k < |ctrl.threads[i].vregs[j].corners|
    ensures var was, ts := ctrl.threads[i].vregs[j], SettledThreads(ctrl.cfg, ctrl.lastWasClosedLoop, ctrl.threads, vdd,
                                                                    ctrl.IrqMeasurement(m));
            |ts| == |ctrl.threads| && |ts[i].vregs| == |ctrl.threads[i].vregs| &&
            var v, c := ts[i].vregs[j], was.corners[k];
            |v.corners| == |was.corners| && v == was.(corners := v.corners) &&
            v.corners[k] == c.(last :=
              if ctrl.lastWasClosedLoop && StoresFor(ctrl.cfg, ctrl.threads, i, j, k, vdd, m) then vdd else c.last)
  {
    var t, v, n := ctrl.threads[i], ctrl.threads[i].vregs[j], ctrl.IrqMeasurement(m);
    assert VregsShape(t.vregs) && v.Shape();
    WithSettledExactly(ctrl.cfg, ctrl.lastWasClosedLoop, |ctrl.threads|, i, t, v, vdd, n, k);
    if !ctrl.cfg.supportsHw {
      MeasurementIgnored(ctrl.cfg, |ctrl.threads|, i, v.powerDomains, v.corners[k], vdd, m, n);
    }
  }
}
