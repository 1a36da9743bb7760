/** Aging margins: the voltages and target quotients of every corner are re-applied on top
    of their unaged values whenever the reference adjustment changes. */
module CprAgingMargin {
  import opened CInt
  import opened CprCorner
  import opened CprTables
  import opened CprAgingMeasure

  const RETRIES: nat := 5

  /** What struct cpr3_regulator holds about aging, and its corners. */
  datatype AgingVreg = AgingVreg(allowed: bool, allowOpenLoop: bool, maxAdjust: int, corners: seq<Corner>)
  {
    ghost predicate Shape() { Shaped(corners) }
  }

  // ------------------------------------------------------------ one readjustment

  /** The margin of a corner in microvolts: the product is unsigned and 64 bits wide, and the
      quotient is stored in an int. */
  function Derated(adjust: int, derate: int, maxAdjust: int): int {
    Min(maxAdjust, ToInt32((adjust % TWO_64) * (derate % TWO_64) % TWO_64 / 1000))
  }

  function MarginOf(v: AgingVreg, c: Corner, adjust: int): int { Derated(adjust, c.derate, v.maxAdjust) }

  function OpenLoopMargin(v: AgingVreg, step: int, c: Corner, adjust: int): int
    requires step > 0
  {
    if v.allowOpenLoop then RoundUp(MarginOf(v, c, adjust), step) else 0
  }

  /** The voltages of a corner, from the unaged ones. */
  function WithMargin(c: Corner, margin: int): Corner {
    var ceiling := Min(c.unagedCeiling + margin, c.absCeiling);
    var openLoop := Min(c.unagedOpenLoop + margin, ceiling);
    c.(ceiling := ceiling, floor := Min(c.unagedFloor + margin, ceiling), openLoop := openLoop, last := openLoop)
  }

  /** A nonzero target quotient loses the old margin and gets the new one, modulo 2^32. */
  function MovedQuot(q: nat, scale: int, oldMargin: int, newMargin: int): nat {
    if q == 0 then 0 else (q + (QuotAdjustment(scale, newMargin) - QuotAdjustment(scale, oldMargin))) % TWO_32
  }

  function MovedQuots(c: Corner, oldMargin: int, newMargin: int): (r: seq<nat>)
    requires c.Shape()
  {
    seq(RO_COUNT, j requires 0 <= j < RO_COUNT => MovedQuot(c.targetQuot[j], c.roScale[j], oldMargin, newMargin))
  }

  /** cpr3_regulator_readjust_volt_and_quot for one corner. */
  function Readjusted(v: AgingVreg, step: int, c: Corner, from: int, to: int): (r: Corner)
    requires step > 0 && c.Shape()
    ensures r.Shape()
  {
    WithMargin(c.(targetQuot := MovedQuots(c, MarginOf(v, c, from), MarginOf(v, c, to))),
               OpenLoopMargin(v, step, c, to))
  }

  function ReadjustedVreg(v: AgingVreg, step: int, from: int, to: int): (w: AgingVreg)
    requires step > 0 && v.Shape()
    ensures w.Shape()
  {
    if !v.allowed then v
    else v.(corners := seq(|v.corners|, i requires 0 <= i < |v.corners| => Readjusted(v, step, v.corners[i], from, to)))
  }

  ghost predicate AllShape(vs: seq<AgingVreg>) { forall k :: 0 <= k < |vs| ==> vs[k].Shape() }

  /** cpr3_regulator_set_aging_ref_adjustment on the regulators of the controller. */
  function ReadjustedAll(vs: seq<AgingVreg>, step: int, from: int, to: int): (ws: seq<AgingVreg>)
    requires step > 0 && AllShape(vs)
    ensures AllShape(ws)
  {
    seq(|vs|, k requires 0 <= k < |vs| => ReadjustedVreg(vs[k], step, from, to))
  }

  /** A sequence of reference adjustments, one after the other. */
  ghost function RunAll(vs: seq<AgingVreg>, step: int, start: int, adjusts: seq<int>): (ws: seq<AgingVreg>)
    requires step > 0 && AllShape(vs)
    ensures AllShape(ws)
    decreases |adjusts|
  {
    if adjusts == [] then vs
    else RunAll(ReadjustedAll(vs, step, start, adjusts[0]), step, adjusts[0], adjusts[1..])
  }

  // ------------------------------------------------- what the corner should be

  /** The target quotient of an unaged quotient q under a margin. */
  function MarginedQuot(q: nat, scale: int, margin: int): nat {
    if q == 0 then 0 else (q + QuotAdjustment(scale, margin)) % TWO_32
  }

  /** The corner as a function of its unaged form and the reference adjustment alone. */
  function Margined(v: AgingVreg, step: int, base: Corner, adjust: int): (r: Corner)
    requires step > 0 && base.Shape()
    ensures r.Shape()
  {
    WithMargin(base, OpenLoopMargin(v, step, base, adjust)).
    (targetQuot := seq(RO_COUNT, j requires 0 <= j < RO_COUNT =>
       MarginedQuot(base.targetQuot[j], base.roScale[j], MarginOf(v, base, adjust))))
  }

  function MarginedAll(base: seq<AgingVreg>, step: int, adjust: int): (ws: seq<AgingVreg>)
    requires step > 0 && AllShape(base)
    ensures AllShape(ws)
  {
    seq(|base|, k requires 0 <= k < |base| => MarginedVreg(base[k], step, adjust))
  }

  function MarginedVreg(v: AgingVreg, step: int, adjust: int): (w: AgingVreg)
    requires step > 0 && v.Shape()
    ensures w.Shape()
  {
    if !v.allowed then v
    else v.(corners := seq(|v.corners|, i requires 0 <= i < |v.corners| => Margined(v, step, v.corners[i], adjust)))
  }

  /** No target quotient that should come back has been driven to 0, where it would stay. */
  ghost predicate NoneLost(v: AgingVreg, base: Corner, from: int, to: int)
    requires base.Shape()
  {
    forall j :: 0 <= j < RO_COUNT ==>
      (MarginedQuot(base.targetQuot[j], base.roScale[j], MarginOf(v, base, from)) == 0 ==>
       MarginedQuot(base.targetQuot[j], base.roScale[j], MarginOf(v, base, to)) == 0)
  }

  lemma ShiftMod(q: int, a: int, b: int)
    ensures ((q + a) % TWO_32 + (b - a)) % TWO_32 == (q + b) % TWO_32
  {
    var m := (q + a) / TWO_32;
    var n := (q + a) % TWO_32 + (b - a);
    assert q + b == n + m * TWO_32;
    DivUnique(q + b, TWO_32, n / TWO_32 + m, n % TWO_32);
  }

  lemma MovedQuotExactly(q: nat, scale: int, from: int, to: int)
    ensures var a, b := MarginedQuot(q, scale, from), MarginedQuot(q, scale, to);
            MovedQuot(a, scale, from, to) == b <==> (a == 0 ==> b == 0)
  {
    ShiftMod(q, QuotAdjustment(scale, from), QuotAdjustment(scale, to));
  }

  /** Moving from one adjustment to another gives what the unaged values give with the new
      one, exactly when no target quotient has been lost at the old one. */
  lemma ReadjustmentExactly(v: AgingVreg, step: int, base: Corner, from: int, to: int)
    requires step > 0 && base.Shape()
    ensures Readjusted(v, step, Margined(v, step, base, from), from, to) == Margined(v, step, base, to) <==>
            NoneLost(v, base, from, to)
  {
    var moved, goal := Readjusted(v, step, Margined(v, step, base, from), from, to), Margined(v, step, base, to);
    forall j | 0 <= j < RO_COUNT
      ensures moved.targetQuot[j] == goal.targetQuot[j] <==>
              (MarginedQuot(base.targetQuot[j], base.roScale[j], MarginOf(v, base, from)) == 0 ==>
                goal.targetQuot[j] == 0)
    {
      MovedQuotExactly(base.targetQuot[j], base.roScale[j], MarginOf(v, base, from), MarginOf(v, base, to));
    }
    assert moved == goal <==> moved.targetQuot == goal.targetQuot;
  }

  /** With a negative scaling factor a quotient can be lost: the margin takes it to 0, and
      taking the margin away does not bring it back. */
  lemma LostQuotientStaysLost()
    ensures MarginedQuot(1, -1_000_000, 1) == 0 && MovedQuot(0, -1_000_000, 1, 0) == 0
    ensures MarginedQuot(1, -1_000_000, 0) == 1
  {}

  // ----------------------------------------------------------------- whole runs

  /** The ROs whose target quotient an adjustment takes to 0, or that have none. */
  ghost function Lost(v: AgingVreg, base: Corner, adjust: int): set<nat>
    requires base.Shape()
  {
    set j: nat | j < RO_COUNT && MarginedQuot(base.targetQuot[j], base.roScale[j], MarginOf(v, base, adjust)) == 0
  }

  ghost function LostOver(v: AgingVreg, base: Corner, adjusts: seq<int>): set<nat>
    requires base.Shape()
  {
    if adjusts == [] then {} else Lost(v, base, adjusts[0]) + LostOver(v, base, adjusts[1..])
  }

  /** The corner as it should be, except that some quotients have been lost on the way. */
  ghost function AfterLoss(v: AgingVreg, step: int, base: Corner, adjust: int, lost: set<nat>): (r: Corner)
    requires step > 0 && base.Shape()
    ensures r.Shape()
  {
    var m := Margined(v, step, base, adjust);
    m.(targetQuot := seq(RO_COUNT, j requires 0 <= j < RO_COUNT => if j in lost then 0 else m.targetQuot[j]))
  }

  lemma ReadjustmentLoses(v: AgingVreg, step: int, base: Corner, from: int, to: int, lost: set<nat>)
    requires step > 0 && base.Shape()
    ensures Readjusted(v, step, AfterLoss(v, step, base, from, lost), from, to) ==
            AfterLoss(v, step, base, to, lost + Lost(v, base, from))
  {
    var moved := Readjusted(v, step, AfterLoss(v, step, base, from, lost), from, to);
    var goal := AfterLoss(v, step, base, to, lost + Lost(v, base, from));
    forall j | 0 <= j < RO_COUNT ensures moved.targetQuot[j] == goal.targetQuot[j] {
      MovedQuotExactly(base.targetQuot[j], base.roScale[j], MarginOf(v, base, from), MarginOf(v, base, to));
    }
    assert moved.targetQuot == goal.targetQuot;
  }

  /** One corner through a sequence of reference adjustments. */
  ghost function RunCorner(v: AgingVreg, step: int, c: Corner, start: int, adjusts: seq<int>): (r: Corner)
    requires step > 0 && c.Shape()
    ensures r.Shape()
    decreases |adjusts|
  {
    if adjusts == [] then c
    else RunCorner(v, step, Readjusted(v, step, c, start, adjusts[0]), adjusts[0], adjusts[1..])
  }

  function Last(start: int, adjusts: seq<int>): int { if adjusts == [] then start else adjusts[|adjusts| - 1] }

  /** All reference adjustments of a run but the last. */
  function Earlier(start: int, adjusts: seq<int>): seq<int> { ([start] + adjusts)[..|adjusts|] }

  lemma {:induction false} RunCornerLoses(v: AgingVreg, step: int, base: Corner, start: int, adjusts: seq<int>,
                                          lost: set<nat>)
    requires step > 0 && base.Shape()
    ensures RunCorner(v, step, AfterLoss(v, step, base, start, lost), start, adjusts) ==
            AfterLoss(v, step, base, Last(start, adjusts), lost + LostOver(v, base, Earlier(start, adjusts)))
    decreases |adjusts|
  {
    if adjusts == [] {
      assert lost + {} == lost;
    } else {
      var a := adjusts[0];
      ReadjustmentLoses(v, step, base, start, a, lost);
      RunCornerLoses(v, step, base, a, adjusts[1..], lost + Lost(v, base, start));
      assert Earlier(start, adjusts)[0] == start && Earlier(start, adjusts)[1..] == Earlier(a, adjusts[1..]);
      assert lost + Lost(v, base, start) + LostOver(v, base, Earlier(a, adjusts[1..])) ==
             lost + LostOver(v, base, Earlier(start, adjusts));
    }
  }

  /** No earlier adjustment has driven to 0 a quotient that the last one has. */
  ghost predicate NoneLostOver(v: AgingVreg, base: Corner, adjusts: seq<int>, last: int)
    requires base.Shape()
  {
    forall m :: 0 <= m < |adjusts| ==> NoneLost(v, base, adjusts[m], last)
  }

  lemma NoneLostIsSubset(v: AgingVreg, base: Corner, from: int, to: int)
    requires base.Shape()
    ensures NoneLost(v, base, from, to) <==> Lost(v, base, from) <= Lost(v, base, to)
  {
    if NoneLost(v, base, from, to) {
      forall j | j in Lost(v, base, from) ensures j in Lost(v, base, to) {}
    } else if Lost(v, base, from) <= Lost(v, base, to) {
      forall j: nat | j < RO_COUNT && MarginedQuot(base.targetQuot[j], base.roScale[j], MarginOf(v, base, from)) == 0
        ensures MarginedQuot(base.targetQuot[j], base.roScale[j], MarginOf(v, base, to)) == 0
      {
        assert j in Lost(v, base, from);
      }
    }
  }

  lemma NoneLostOverSplit(v: AgingVreg, base: Corner, adjusts: seq<int>, last: int)
    requires base.Shape() && adjusts != []
    ensures NoneLostOver(v, base, adjusts, last) <==>
            NoneLost(v, base, adjusts[0], last) && NoneLostOver(v, base, adjusts[1..], last)
  {
    var rest := adjusts[1..];
    if NoneLostOver(v, base, adjusts, last) {
      forall m | 0 <= m < |rest| ensures NoneLost(v, base, rest[m], last) {
        assert rest[m] == adjusts[m + 1];
      }
    }
    if NoneLost(v, base, adjusts[0], last) && NoneLostOver(v, base, rest, last) {
      forall m | 0 <= m < |adjusts| ensures NoneLost(v, base, adjusts[m], last) {
        assert m > 0 ==> adjusts[m] == rest[m - 1];
      }
    }
  }

  lemma {:induction false} NoneLostOverExactly(v: AgingVreg, base: Corner, adjusts: seq<int>, last: int)
    requires base.Shape()
    ensures NoneLostOver(v, base, adjusts, last) <==> LostOver(v, base, adjusts) <= Lost(v, base, last)
  {
    if adjusts != [] {
      NoneLostOverExactly(v, base, adjusts[1..], last);
      NoneLostIsSubset(v, base, adjusts[0], last);
      NoneLostOverSplit(v, base, adjusts, last);
    }
  }

  lemma AfterLossExactly(v: AgingVreg, step: int, base: Corner, adjust: int, lost: set<nat>)
    requires step > 0 && base.Shape() && forall j :: j in lost ==> j < RO_COUNT
    ensures AfterLoss(v, step, base, adjust, lost) == Margined(v, step, base, adjust) <==> lost <= Lost(v, base, adjust)
  {
    var r, m := AfterLoss(v, step, base, adjust, lost), Margined(v, step, base, adjust);
    assert r == m <==> r.targetQuot == m.targetQuot;
    if lost <= Lost(v, base, adjust) {
      assert r.targetQuot == m.targetQuot;
    } else {
      var j :| j in lost && j !in Lost(v, base, adjust);
      assert r.targetQuot[j] != m.targetQuot[j];
    }
  }

  lemma {:induction false} LostOverIsRo(v: AgingVreg, base: Corner, adjusts: seq<int>)
    requires base.Shape()
    ensures forall j :: j in LostOver(v, base, adjusts) ==> j < RO_COUNT
  {
    if adjusts != [] {
      LostOverIsRo(v, base, adjusts[1..]);
    }
  }

  /** A corner ends as its unaged values and the last adjustment alone give, exactly if no
      earlier adjustment has driven to 0 a target quotient that is not 0 at the last one. */
  lemma CornerRunExactly(v: AgingVreg, step: int, base: Corner, start: int, adjusts: seq<int>)
    requires step > 0 && base.Shape()
    ensures RunCorner(v, step, Margined(v, step, base, start), start, adjusts) ==
            Margined(v, step, base, Last(start, adjusts)) <==>
            NoneLostOver(v, base, Earlier(start, adjusts), Last(start, adjusts))
  {
    var last, earlier := Last(start, adjusts), Earlier(start, adjusts);
    AfterLossExactly(v, step, base, start, {});
    RunCornerLoses(v, step, base, start, adjusts, {});
    assert {} + LostOver(v, base, earlier) == LostOver(v, base, earlier);
    LostOverIsRo(v, base, earlier);
    AfterLossExactly(v, step, base, last, LostOver(v, base, earlier));
    NoneLostOverExactly(v, base, earlier, last);
  }

  /** A run does to every corner of every regulator what it does to that corner. */
  lemma {:induction false} RunByCorner(vs: seq<AgingVreg>, step: int, start: int, adjusts: seq<int>)
    requires step > 0 && AllShape(vs)
    ensures var ws := RunAll(vs, step, start, adjusts);
            |ws| == |vs| && forall k :: 0 <= k < |vs| ==>
              ws[k] == vs[k].(corners := ws[k].corners) && |ws[k].corners| == |vs[k].corners| &&
              forall i :: 0 <= i < |vs[k].corners| ==>
                ws[k].corners[i] ==
                  if vs[k].allowed then RunCorner(vs[k], step, vs[k].corners[i], start, adjusts) else vs[k].corners[i]
    decreases |adjusts|
  {
    if adjusts != [] {
      var a, us := adjusts[0], ReadjustedAll(vs, step, start, adjusts[0]);
      RunByCorner(us, step, a, adjusts[1..]);
      forall k, i | 0 <= k < |vs| && 0 <= i < |vs[k].corners| && vs[k].allowed
        ensures RunCorner(us[k], step, us[k].corners[i], a, adjusts[1..]) ==
                RunCorner(vs[k], step, vs[k].corners[i], start, adjusts)
      {
        RunCornerSame(us[k], vs[k], step, us[k].corners[i], a, adjusts[1..]);
      }
    }
  }

  lemma {:induction false} RunCornerSame(v: AgingVreg, w: AgingVreg, step: int, c: Corner, start: int,
                                         adjusts: seq<int>)
    requires step > 0 && c.Shape() && v == w.(corners := v.corners)
    ensures RunCorner(v, step, c, start, adjusts) == RunCorner(w, step, c, start, adjusts)
    decreases |adjusts|
  {
    if adjusts != [] {
      assert Readjusted(v, step, c, start, adjusts[0]) == Readjusted(w, step, c, start, adjusts[0]);
      RunCornerSame(v, w, step, Readjusted(v, step, c, start, adjusts[0]), adjusts[0], adjusts[1..]);
    }
  }

  /** No corner of any regulator has lost a quotient over the run. */
  ghost predicate RunLosesNone(base: seq<AgingVreg>, start: int, adjusts: seq<int>)
    requires AllShape(base)
  {
    forall k, i :: 0 <= k < |base| && base[k].allowed && 0 <= i < |base[k].corners| ==>
      NoneLostOver(base[k], base[k].corners[i], Earlier(start, adjusts), Last(start, adjusts))
  }

  /** Over any sequence of reference adjustments, of any sign: all corners of all regulators
      end as their unaged values and the last adjustment alone give, exactly if none of them
      has lost a quotient. */
  lemma RunIsPathIndependentExactly(base: seq<AgingVreg>, step: int, start: int, adjusts: seq<int>)
    requires step > 0 && AllShape(base)
    ensures RunAll(MarginedAll(base, step, start), step, start, adjusts) ==
            MarginedAll(base, step, Last(start, adjusts)) <==>
            RunLosesNone(base, start, adjusts)
  {
    var vs, last := MarginedAll(base, step, start), Last(start, adjusts);
    var ws, goal := RunAll(vs, step, start, adjusts), MarginedAll(base, step, last);
    RunByCorner(vs, step, start, adjusts);
    forall k, i | 0 <= k < |base| && 0 <= i < |base[k].corners|
      ensures ws[k].corners[i] == goal[k].corners[i] <==>
              (base[k].allowed ==> NoneLostOver(base[k], base[k].corners[i], Earlier(start, adjusts), last))
    {
      if base[k].allowed {
        CornerRunExactly(base[k], step, base[k].corners[i], start, adjusts);
        RunCornerSame(vs[k], base[k], step, vs[k].corners[i], start, adjusts);
      }
    }
    if RunLosesNone(base, start, adjusts) {
      forall k | 0 <= k < |base| ensures ws[k] == goal[k] {
        assert ws[k].corners == goal[k].corners;
      }
    }
  }

  // ------------------------------------------------------------ path independence

  /** Scaling factors and derating in their usual range, and no quotient near 2^32. */
  ghost predicate Tame(v: AgingVreg, base: Corner)
    requires base.Shape()
  {
    0 <= v.maxAdjust <= INT_MAX && 0 <= base.derate <= 1000 &&
    forall j :: 0 <= j < RO_COUNT ==>
      base.roScale[j] >= 0 && QuotFits(base.roScale[j], v.maxAdjust) &&
      base.targetQuot[j] + base.roScale[j] * v.maxAdjust / 1_000_000 < TWO_32
  }

  ghost predicate TameAll(base: seq<AgingVreg>) {
    AllShape(base) &&
    forall k :: 0 <= k < |base| && base[k].allowed ==>
      forall i :: 0 <= i < |base[k].corners| ==> Tame(base[k], base[k].corners[i])
  }

  ghost predicate NonNegative(adjusts: seq<int>) {
    forall i :: 0 <= i < |adjusts| ==> 0 <= adjusts[i] <= INT_MAX
  }

  lemma DeratedPlain(adjust: nat, derate: nat, maxAdjust: nat)
    requires adjust <= INT_MAX && derate <= 1000
    ensures Derated(adjust, derate, maxAdjust) == Min(maxAdjust, adjust * derate / 1000) >= 0
  {
    MulMonotone(adjust, derate, adjust, 1000);
    Small64(adjust);
    Small64(derate);
    Small64(adjust * derate);
    ToInt32Small(adjust * derate / 1000);
  }

  lemma MarginedQuotPlain(q: nat, scale: nat, margin: nat, maxAdjust: nat)
    requires margin <= maxAdjust && QuotFits(scale, maxAdjust) && q + scale * maxAdjust / 1_000_000 < TWO_32
    ensures MarginedQuot(q, scale, margin) == if q == 0 then 0 else q + QuotAdjustment(scale, margin)
    ensures QuotAdjustment(scale, margin) >= 0
  {
    QuotMonotone(scale, margin, maxAdjust);
    QuotPlain(scale, maxAdjust);
    Small32(q + QuotAdjustment(scale, margin));
  }

  lemma TameLosesNone(v: AgingVreg, base: Corner, from: nat, to: int)
    requires base.Shape() && Tame(v, base) && from <= INT_MAX
    ensures NoneLost(v, base, from, to)
  {
    DeratedPlain(from, base.derate, v.maxAdjust);
    forall j | 0 <= j < RO_COUNT
      ensures MarginedQuot(base.targetQuot[j], base.roScale[j], MarginOf(v, base, from)) == 0 ==>
                base.targetQuot[j] == 0
    {
      MarginedQuotPlain(base.targetQuot[j], base.roScale[j], MarginOf(v, base, from), v.maxAdjust);
    }
  }

  /** In that range no quotient is ever lost, so after any sequence of adjustments the corners
      are what their unaged values and the latest adjustment alone give. */
  lemma RunIsPathIndependent(base: seq<AgingVreg>, step: int, start: nat, adjusts: seq<int>)
    requires step > 0 && TameAll(base) && start <= INT_MAX && NonNegative(adjusts)
    ensures RunAll(MarginedAll(base, step, start), step, start, adjusts) ==
            MarginedAll(base, step, Last(start, adjusts))
  {
    forall k, i, m | 0 <= k < |base| && base[k].allowed && 0 <= i < |base[k].corners| &&
      0 <= m < |Earlier(start, adjusts)|
      ensures NoneLost(base[k], base[k].corners[i], Earlier(start, adjusts)[m], Last(start, adjusts))
    {
      TameLosesNone(base[k], base[k].corners[i], Earlier(start, adjusts)[m], Last(start, adjusts));
    }
    RunIsPathIndependentExactly(base, step, start, adjusts);
  }

  /** As initialised: the unaged voltages are the voltages, in order, below the limit. */
  ghost predicate Fresh(v: AgingVreg, c: Corner) {
    c.Shape() && 0 <= v.maxAdjust && c.unagedFloor == c.floor && c.unagedCeiling == c.ceiling &&
    c.unagedOpenLoop == c.openLoop &&
    c.floor <= c.openLoop == c.last <= c.ceiling <= c.absCeiling &&
    forall j :: 0 <= j < RO_COUNT ==> c.targetQuot[j] < TWO_32
  }

  /** No adjustment: the corner as initialised, so that a run that ends at 0 undoes itself. */
  lemma NoMarginIsUnaged(v: AgingVreg, step: int, c: Corner)
    requires step > 0 && Fresh(v, c)
    ensures Margined(v, step, c, 0) == c
  {
    assert Derated(0, c.derate, v.maxAdjust) == 0;
    DivUnique(step - 1, step, 0, step - 1);
    assert RoundUp(0, step) == 0;
    forall j | 0 <= j < RO_COUNT ensures MarginedQuot(c.targetQuot[j], c.roScale[j], 0) == c.targetQuot[j] {
      ZeroMagnitudes(Abs(c.roScale[j]));
    }
    assert Margined(v, step, c, 0).targetQuot == c.targetQuot;
  }

  // ---------------------------------------------------------------- what margins keep

  ghost predicate UnagedOnSetPoints(c: Corner, step: int)
    requires step > 0
  {
    Aligned(c.unagedFloor, step) && Aligned(c.unagedOpenLoop, step) && Aligned(c.unagedCeiling, step) &&
    Aligned(c.absCeiling, step)
  }

  /** Whatever the adjustment, the voltages are in order exactly if they are unaged, or if
      the ceiling clips the open-loop voltage; the ceiling stays within the absolute one. */
  lemma MarginedOrderExactly(v: AgingVreg, step: int, base: Corner, adjust: int)
    requires step > 0 && base.Shape()
    ensures var r, m := Margined(v, step, base, adjust), OpenLoopMargin(v, step, base, adjust);
            r.ceiling <= base.absCeiling &&
            (r.floor <= r.openLoop == r.last <= r.ceiling <==>
             base.unagedFloor <= base.unagedOpenLoop || r.ceiling <= base.unagedOpenLoop + m)
  {}

  /** From set points they stay set points. */
  lemma MarginedOnSetPoints(v: AgingVreg, step: int, base: Corner, adjust: int)
    requires step > 0 && base.Shape() && UnagedOnSetPoints(base, step)
    ensures Margined(v, step, base, adjust).OnSetPoints(step)
  {
    var m := OpenLoopMargin(v, step, base, adjust);
    if v.allowOpenLoop {
      MulMod(TruncDiv(MarginOf(v, base, adjust) + step - 1, step), step);
    }
    AlignedSum(base.unagedFloor, m, step);
    AlignedSum(base.unagedOpenLoop, m, step);
    AlignedSum(base.unagedCeiling, m, step);
  }

  /** Aged corners are fit for aggregation (see CprCorner.ThreadJoinKeeps). */
  lemma MarginedIsSound(v: AgingVreg, step: int, adjust: int)
    requires step > 0 && v.Shape() && v.allowed
    requires forall i :: 0 <= i < |v.corners| ==>
               UnagedOnSetPoints(v.corners[i], step) && v.corners[i].unagedFloor <= v.corners[i].unagedOpenLoop
    ensures Sound(MarginedVreg(v, step, adjust).corners, step)
  {
    forall i | 0 <= i < |v.corners|
      ensures var r := Margined(v, step, v.corners[i], adjust); r.Ordered() && r.OnSetPoints(step)
    {
      MarginedOrderExactly(v, step, v.corners[i], adjust);
      MarginedOnSetPoints(v, step, v.corners[i], adjust);
    }
  }

  lemma DeratedGrows(a: nat, b: nat, derate: nat, maxAdjust: nat)
    requires a <= b <= INT_MAX && derate <= 1000
    ensures 0 <= Derated(a, derate, maxAdjust) <= Derated(b, derate, maxAdjust) <= maxAdjust
  {
    DeratedPlain(a, derate, maxAdjust);
    DeratedPlain(b, derate, maxAdjust);
    MulMonotone(a, derate, b, derate);
    DivMonotone(a * derate, b * derate, 1000);
  }

  lemma RoundUpGrows(x: nat, y: nat, step: int)
    requires step > 0 && x <= y
    ensures 0 <= RoundUp(x, step) <= RoundUp(y, step)
  {
    DivMonotone(x + step - 1, y + step - 1, step);
    MulMonotone((x + step - 1) / step, step, (y + step - 1) / step, step);
  }

  /** More aging never lowers a voltage or a target quotient, and uses the same ROs. */
  lemma MarginGrows(v: AgingVreg, step: int, base: Corner, a: nat, b: nat)
    requires step > 0 && base.Shape() && Tame(v, base) && a <= b <= INT_MAX
    ensures var x, y := Margined(v, step, base, a), Margined(v, step, base, b);
            x.floor <= y.floor && x.openLoop <= y.openLoop && x.ceiling <= y.ceiling &&
            forall j :: 0 <= j < RO_COUNT ==>
              base.targetQuot[j] <= x.targetQuot[j] <= y.targetQuot[j] &&
              (y.targetQuot[j] == 0 <==> base.targetQuot[j] == 0)
  {
    DeratedGrows(a, b, base.derate, v.maxAdjust);
    var m, n := MarginOf(v, base, a), MarginOf(v, base, b);
    RoundUpGrows(m, n, step);
    forall j | 0 <= j < RO_COUNT
      ensures var q, s := base.targetQuot[j], base.roScale[j];
              q <= MarginedQuot(q, s, m) <= MarginedQuot(q, s, n) && (MarginedQuot(q, s, n) == 0 <==> q == 0)
    {
      var q, s := base.targetQuot[j], base.roScale[j];
      MarginedQuotPlain(q, s, m, v.maxAdjust);
      MarginedQuotPlain(q, s, n, v.maxAdjust);
      QuotMonotone(s, n, v.maxAdjust);
      QuotMonotone(s, m, n);
    }
  }

  // ------------------------------------------------------------ margins in numbers

  /** The margin of a corner is the adjustment in thousandths of its derating, in whole microvolts
      and up to the maximum: x is within it exactly if it is within both. */
  lemma MarginExactly(v: AgingVreg, c: Corner, adjust: nat, x: nat)
    requires adjust <= INT_MAX && 0 <= c.derate <= 1000 && v.maxAdjust >= 0
    ensures x <= MarginOf(v, c, adjust) <==> x <= v.maxAdjust && x * 1000 <= adjust * c.derate
  {
    DeratedPlain(adjust, c.derate, v.maxAdjust);
    WholePart(adjust * c.derate, 1000, x);
  }

  /** m is the least set point that covers the margin, or 0 if the regulator's open-loop voltages are
      not to be adjusted. */
  ghost predicate IsOpenLoopMargin(v: AgingVreg, step: int, c: Corner, adjust: int, m: int)
    requires step > 0
  {
    if v.allowOpenLoop then Aligned(m, step) && MarginOf(v, c, adjust) <= m < MarginOf(v, c, adjust) + step else m == 0
  }

  /** Every voltage of a corner is its unaged one and that margin, up to the absolute ceiling. */
  lemma MarginedVoltsExactly(v: AgingVreg, step: int, base: Corner, adjust: int, m: int)
    requires step > 0 && base.Shape() && MarginOf(v, base, adjust) >= 0 && IsOpenLoopMargin(v, step, base, adjust, m)
    ensures var r := Margined(v, step, base, adjust);
            r.ceiling == Min(base.unagedCeiling + m, base.absCeiling) &&
            r.floor == Min(base.unagedFloor + m, r.ceiling) &&
            r.openLoop == r.last == Min(base.unagedOpenLoop + m, r.ceiling)
  {
    if v.allowOpenLoop {
      RoundUpLeast(MarginOf(v, base, adjust), step);
      AlignedGap(m, RoundUp(MarginOf(v, base, adjust), step), step);
    }
  }

  /** A target quotient that is not 0 grows by the margin times the scaling factor in QUOT/V, in
      whole quotients: it has grown by at least x exactly if that is within the product. */
  lemma MarginedQuotExactly(v: AgingVreg, step: int, base: Corner, adjust: nat, j: nat, x: nat)
    requires step > 0 && base.Shape() && Tame(v, base) && adjust <= INT_MAX && j < RO_COUNT
    ensures var q, r := base.targetQuot[j], Margined(v, step, base, adjust).targetQuot[j];
            if q == 0 then r == 0
            else q <= r && (x <= r - q <==> x * 1_000_000 <= base.roScale[j] * MarginOf(v, base, adjust))
  {
    var scale, m := base.roScale[j], MarginOf(v, base, adjust);
    DeratedPlain(adjust, base.derate, v.maxAdjust);
    MarginedQuotPlain(base.targetQuot[j], scale, m, v.maxAdjust);
    QuotMonotone(scale, m, v.maxAdjust);
    QuotPlain(scale, m);
    WholePart(scale * m, 1_000_000, x);
  }

  // --------------------------------------------------------------- from the sensors

  /** An aging sensor and the readings of up to five tries to measure it. */
  datatype Sensor = Sensor(roScale: int, initDiff: int, tries: seq<seq<Reading>>)
  {
    ghost predicate Shape() { |tries| == RETRIES && forall i :: 0 <= i < RETRIES ==> |tries[i]| == ITERATIONS }

    function AgingVolt(quotDiff: int): int { VoltageAdjustment(roScale, quotDiff - initDiff) }
  }

  /** The voltage of a sensor is the one whose quotient adjustment is the growth of its quotient
      difference since it was new, less one quotient at most; with no growth it is 0. */
  lemma AgingVoltExactly(s: Sensor, quotDiff: int)
    requires 1 <= s.roScale <= 1_000_000 && VoltFits(s.roScale, Abs(quotDiff - s.initDiff))
    ensures var grown, back := quotDiff - s.initDiff, QuotAdjustment(s.roScale, s.AgingVolt(quotDiff));
            (back == grown || back == (if grown < 0 then grown + 1 else grown - 1)) &&
            (grown == 0 ==> s.AgingVolt(quotDiff) == 0) && (grown > 0 ==> s.AgingVolt(quotDiff) >= 0)
  {
    QuotientRoundTrip(s.roScale, quotDiff - s.initDiff);
    ZeroMagnitudes(s.roScale);
    VoltPlain(s.roScale, Abs(quotDiff - s.initDiff));
  }

  ghost predicate SensorsShape(sensors: seq<Sensor>) { forall i :: 0 <= i < |sensors| ==> sensors[i].Shape() }

  /** The first try that succeeds is used. */
  ghost predicate FirstGood(tries: seq<seq<Reading>>, gcntRef: nat, k: int) {
    0 <= k < |tries| && Succeeds(tries[k], gcntRef) && forall i :: 0 <= i < k ==> !Succeeds(tries[i], gcntRef)
  }

  ghost predicate Measured(s: Sensor, gcntRef: nat, volt: int) {
    exists k :: FirstGood(s.tries, gcntRef, k) && volt == s.AgingVolt(FilteredMean(Collected(s.tries[k], gcntRef)))
  }

  lemma MeasuredAt(s: Sensor, gcntRef: nat, k: nat, diff: int)
    requires FirstGood(s.tries, gcntRef, k) && diff == FilteredMean(Collected(s.tries[k], gcntRef))
    ensures Measured(s, gcntRef, VoltageAdjustment(s.roScale, diff - s.initDiff))
  {}

  ghost predicate AllMeasured(sensors: seq<Sensor>, gcntRef: nat, volts: seq<int>) {
    |volts| == |sensors| && forall i :: 0 <= i < |volts| ==> Measured(sensors[i], gcntRef, volts[i])
  }

  ghost predicate NoneGood(tries: seq<seq<Reading>>, gcntRef: nat) {
    forall i :: 0 <= i < |tries| ==> !Succeeds(tries[i], gcntRef)
  }

  /** m is the greatest of the voltages, or 0 if none is positive. */
  ghost predicate IsMaxAging(m: int, volts: seq<int>) {
    m >= 0 && (forall i :: 0 <= i < |volts| ==> volts[i] <= m) && (m > 0 ==> m in volts)
  }

  lemma VoltGrows(scale: nat, x: int, y: int)
    requires scale > 0 && x <= y && VoltFits(scale, Abs(x)) && VoltFits(scale, Abs(y))
    ensures VoltageAdjustment(scale, x) <= VoltageAdjustment(scale, y)
  {
    VoltPlain(scale, Abs(x));
    VoltPlain(scale, Abs(y));
    if 0 <= x {
      DivMonotone(x * 1_000_000, y * 1_000_000, scale);
    } else if y < 0 {
      DivMonotone(-y * 1_000_000, -x * 1_000_000, scale);
    }
  }

  ghost predicate ReliableSensor(s: Sensor, gcntRef: nat, lo: int, hi: int) {
    s.roScale > 0 && VoltFits(s.roScale, Abs(lo - s.initDiff)) && VoltFits(s.roScale, Abs(hi - s.initDiff)) &&
    forall k :: 0 <= k < |s.tries| && Succeeds(s.tries[k], gcntRef) ==> Reliable(Collected(s.tries[k], gcntRef), lo, hi)
  }

  lemma SmallerFits(scale: nat, x: int, y: int, z: int)
    requires scale > 0 && x <= y <= z && VoltFits(scale, Abs(x)) && VoltFits(scale, Abs(z))
    ensures VoltFits(scale, Abs(y))
  {
    var w := if Abs(x) >= Abs(z) then Abs(x) else Abs(z);
    DivMonotone(Abs(y) * 1_000_000, w * 1_000_000, scale);
  }

  /** What is read off a sensor lies between what its good samples could give. */
  lemma MeasuredIsRobust(s: Sensor, gcntRef: nat, volt: int, lo: int, hi: int)
    requires Measured(s, gcntRef, volt) && ReliableSensor(s, gcntRef, lo, hi)
    ensures s.AgingVolt(lo) <= volt <= s.AgingVolt(hi)
  {
    var k :| FirstGood(s.tries, gcntRef, k) && volt == s.AgingVolt(FilteredMean(Collected(s.tries[k], gcntRef)));
    SamplesAreRobust(s, Collected(s.tries[k], gcntRef), lo, hi);
  }

  lemma SamplesAreRobust(s: Sensor, samples: seq<int>, lo: int, hi: int)
    requires |samples| > 2 * FILTER && Reliable(samples, lo, hi) && s.roScale > 0
    requires VoltFits(s.roScale, Abs(lo - s.initDiff)) && VoltFits(s.roScale, Abs(hi - s.initDiff))
    ensures s.AgingVolt(lo) <= s.AgingVolt(FilteredMean(samples)) <= s.AgingVolt(hi)
  {
    FilteredMeanIsRobust(samples, lo, hi);
    AgingVoltGrows(s, lo, FilteredMean(samples), hi);
  }

  lemma AgingVoltGrows(s: Sensor, lo: int, x: int, hi: int)
    requires s.roScale > 0 && lo <= x <= hi
    requires VoltFits(s.roScale, Abs(lo - s.initDiff)) && VoltFits(s.roScale, Abs(hi - s.initDiff))
    ensures s.AgingVolt(lo) <= s.AgingVolt(x) <= s.AgingVolt(hi)
  {
    SmallerFits(s.roScale, lo - s.initDiff, x - s.initDiff, hi - s.initDiff);
    VoltGrows(s.roScale, lo - s.initDiff, x - s.initDiff);
    VoltGrows(s.roScale, x - s.initDiff, hi - s.initDiff);
  }

  /** The reference adjustment cannot be moved by up to three bad samples per measurement of
      any sensor: it is at least what every sensor's good samples ask for, and at most the
      largest that they could ask for. */
  lemma ReferenceIsRobust(sensors: seq<Sensor>, gcntRef: nat, volts: seq<int>, m: int, los: seq<int>, his: seq<int>,
                          most: int)
    requires AllMeasured(sensors, gcntRef, volts) && IsMaxAging(m, volts) && |los| == |his| == |sensors|
    requires forall i :: 0 <= i < |sensors| ==> ReliableSensor(sensors[i], gcntRef, los[i], his[i])
    requires most >= 0 && forall i :: 0 <= i < |sensors| ==> sensors[i].AgingVolt(his[i]) <= most
    ensures 0 <= m <= most && forall i :: 0 <= i < |sensors| ==> sensors[i].AgingVolt(los[i]) <= m
  {
    forall i | 0 <= i < |sensors| ensures sensors[i].AgingVolt(los[i]) <= volts[i] <= most {
      MeasuredIsRobust(sensors[i], gcntRef, volts[i], los[i], his[i]);
    }
  }

  // ------------------------------------------------------------------ the controller

  /** The mode that the supply is to have once aging is complete, and whether it accepts it. */
  datatype VddMode = Unset | Requested(ok: bool)

  class Aging {
    const step: int
    var vregs: seq<AgingVreg>
    var refAdjust: int
    var required: bool
    var succeeded: bool
    var failed: bool

    ghost predicate Valid()
      reads this
    {
      step > 0 && AllShape(vregs)
    }

    constructor (step: int, vregs: seq<AgingVreg>)
      requires step > 0 && AllShape(vregs)
      ensures Valid() && this.vregs == vregs && this.step == step && refAdjust == 0 && required && !succeeded && !failed
    {
      this.step, this.vregs, refAdjust, required, succeeded, failed := step, vregs, 0, true, false, false;
    }

    /** One corner of cpr3_regulator_readjust_volt_and_quot. */
    method ReadjustCorner(v: AgingVreg, c: Corner, from: int, to: int) returns (r: Corner)
      requires step > 0 && c.Shape()
      ensures r == Readjusted(v, step, c, from, to)
    {
      var oldVolt, newVolt := Derated(from, c.derate, v.maxAdjust), Derated(to, c.derate, v.maxAdjust);
      var quots := c.targetQuot;
      for j := 0 to RO_COUNT
        invariant |quots| == RO_COUNT
        invariant forall k :: 0 <= k < j ==> quots[k] == MovedQuots(c, oldVolt, newVolt)[k]
        invariant forall k :: j <= k < RO_COUNT ==> quots[k] == c.targetQuot[k]
      {
        if quots[j] != 0 {
          quots := quots[j :=
            (quots[j] + (QuotAdjustment(c.roScale[j], newVolt) - QuotAdjustment(c.roScale[j], oldVolt))) % TWO_32];
        }
      }
      assert quots == MovedQuots(c, oldVolt, newVolt);
      var rounded := RoundUp(newVolt, step);
      if !v.allowOpenLoop {
        rounded := 0;
      }
      r := c.(targetQuot := quots, ceiling := Min(c.unagedCeiling + rounded, c.absCeiling));
      r := r.(floor := Min(r.unagedFloor + rounded, r.ceiling));
      r := r.(openLoop := Min(r.unagedOpenLoop + rounded, r.ceiling));
      r := r.(last := r.openLoop);
    }

    method ReadjustVoltAndQuot(v: AgingVreg, from: int, to: int) returns (w: AgingVreg)
      requires step > 0 && v.Shape()
      ensures w == ReadjustedVreg(v, step, from, to)
    {
      w := v;
      if !v.allowed {
        return;
      }
      var corners := v.corners;
      for i := 0 to |corners|
        invariant |corners| == |v.corners|
        invariant forall k :: 0 <= k < i ==> corners[k] == Readjusted(v, step, v.corners[k], from, to)
        invariant forall k :: i <= k < |corners| ==> corners[k] == v.corners[k]
      {
        var c := ReadjustCorner(v, corners[i], from, to);
        corners := corners[i := c];
      }
      assert corners == ReadjustedVreg(v, step, from, to).corners;
      w := v.(corners := corners);
    }

    /** cpr3_regulator_set_aging_ref_adjustment. */
    method SetRefAdjustment(adjust: int)
      requires Valid()
      modifies this`vregs, this`refAdjust
      ensures Valid() && refAdjust == adjust && vregs == ReadjustedAll(old(vregs), step, old(refAdjust), adjust)
    {
      ghost var was := vregs;
      for k := 0 to |vregs|
        invariant |vregs| == |was| && refAdjust == old(refAdjust)
        invariant forall i :: 0 <= i < k ==> vregs[i] == ReadjustedVreg(was[i], step, refAdjust, adjust)
        invariant forall i :: k <= i < |vregs| ==> vregs[i] == was[i]
      {
        var w := ReadjustVoltAndQuot(vregs[k], refAdjust, adjust);
        vregs := vregs[k := w];
      }
      assert vregs == ReadjustedAll(was, step, refAdjust, adjust);
      refAdjust := adjust;
    }

    /** One sensor, with its retries. */
    method MeasureSensor(s: Sensor, gcntRef: nat) returns (rc: int, volt: int)
      requires s.Shape()
      ensures if rc == 0 then Measured(s, gcntRef, volt) else NoneGood(s.tries, gcntRef)
    {
      rc, volt := -EBUSY, 0;
      for j := 0 to RETRIES
        invariant rc != 0 && forall i :: 0 <= i < j ==> !Succeeds(s.tries[i], gcntRef)
      {
        var diff;
        rc, diff := MeasureAging(s.tries[j], gcntRef);
        if rc == 0 {
          volt := VoltageAdjustment(s.roScale, diff - s.initDiff);
          MeasuredAt(s, gcntRef, j, diff);
          return;
        }
      }
    }

    /** All sensors, until one cannot be measured. */
    method MeasureSensors(sensors: seq<Sensor>, gcntRef: nat) returns (rc: int, maxAging: int, ghost volts: seq<int>)
      requires SensorsShape(sensors)
      ensures rc == 0 ==> AllMeasured(sensors, gcntRef, volts) && IsMaxAging(maxAging, volts)
      ensures rc != 0 ==> exists i :: 0 <= i < |sensors| && NoneGood(sensors[i].tries, gcntRef)
    {
      rc, maxAging, volts := 0, 0, [];
      for i := 0 to |sensors|
        invariant rc == 0 && AllMeasured(sensors[..i], gcntRef, volts) && IsMaxAging(maxAging, volts)
      {
        var volt;
        rc, volt := MeasureSensor(sensors[i], gcntRef);
        if rc != 0 {
          return;
        }
        MaxAgingGrows(maxAging, volts, volt);
        maxAging, volts := Max(maxAging, volt), volts + [volt];
      }
      assert sensors[..|sensors|] == sensors;
    }

    /** cpr3_regulator_aging_adjust. `possible` stands for the checks made first, `forced` for
        bringing the supply to the aging reference voltage, `restored` for bringing it back;
        `mode` is the mode of the supply that is requested at the end, if any, which overwrites
        the error code. `done` says that the margins have been adjusted. */
    method AgingAdjust(possible: bool, forced: bool, mode: VddMode, restored: bool, sensors: seq<Sensor>, gcntRef: nat)
      returns (rc: int, ghost done: bool, ghost volts: seq<int>)
      requires Valid() && SensorsShape(sensors)
      modifies this
      ensures Valid()
      ensures rc == 0 <==> !old(required) || !possible || (restored && if mode.Requested? then mode.ok else done)
      ensures done ==> old(required) && possible && forced
      ensures done ==> AllMeasured(sensors, gcntRef, volts) && IsMaxAging(refAdjust, volts) && succeeded && !required
      ensures done ==> vregs == ReadjustedAll(old(vregs), step, old(refAdjust), refAdjust) && failed == old(failed)
      ensures !done ==> refAdjust == old(refAdjust) && vregs == old(vregs) && succeeded == old(succeeded)
      ensures !done && old(required) && possible && forced ==>
                failed && !required && exists i :: 0 <= i < |sensors| && NoneGood(sensors[i].tries, gcntRef)
      ensures !old(required) || !possible || !forced ==> failed == old(failed) && required == old(required)
    {
      done, volts := false, [];
      if !required || !possible {
        return 0, done, volts;
      }
      var maxAging := 0;
      if forced {
        rc, maxAging, volts := MeasureSensors(sensors, gcntRef);
        if rc != 0 {
          failed, required := true, false;
        }
      } else {
        rc := -EIO;
      }
      if rc == 0 {
        SetRefAdjustment(maxAging);
        succeeded, required, done := true, false, true;
      }
      if mode.Requested? {
        rc := if mode.ok then 0 else -EIO;
      }
      rc := if rc != 0 then rc else if restored then 0 else -EIO;
    }
  }

  lemma MaxAgingGrows(m: int, volts: seq<int>, volt: int)
    requires IsMaxAging(m, volts)
    ensures IsMaxAging(Max(m, volt), volts + [volt])
  {
    if m >= volt && m > 0 {
      var i :| 0 <= i < |volts| && volts[i] == m;
      assert (volts + [volt])[i] == m;
    } else if volt > m {
      assert (volts + [volt])[|volts|] == volt;
    }
  }
}
