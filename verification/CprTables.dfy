/** Passes over a regulator's corner table: voltage limits, monotonic floors and target
    quotients, and the conversion between voltage and quotient adjustments. */
module CprTables {
  import opened CInt
  import opened CprCorner

  // ------------------------------------------- quotient and voltage adjustments

  function Abs(x: int): nat { if x < 0 then -x else x }

  function Negate(negative: bool, x: int): int { if negative then -x else x }

  function QuotMagnitude(scale: nat, volt: nat): int { ToInt32(scale * volt % TWO_64 / 1_000_000) }

  function VoltMagnitude(scale: nat, quot: nat): int
    requires scale > 0
  {
    ToInt32(quot * 1_000_000 % TWO_64 / scale)
  }

  /** cpr3_quot_adjustment, in QUOT, for a voltage in microvolts and a scale in QUOT/V. */
  function QuotAdjustment(roScale: int, volt: int): int {
    Negate((roScale < 0) != (volt < 0), QuotMagnitude(Abs(roScale), Abs(volt)))
  }

  /** cpr3_voltage_adjustment, the other way round. */
  function VoltageAdjustment(roScale: int, quot: int): int {
    if roScale == 0 then 0
    else Negate((roScale < 0) != (quot < 0), VoltMagnitude(Abs(roScale), Abs(quot)))
  }

  /** The operands and the result fit an int, so that nothing is cut off. */
  ghost predicate QuotFits(scale: nat, volt: nat) {
    scale <= INT_MAX && volt <= INT_MAX && scale * volt / 1_000_000 <= INT_MAX
  }

  ghost predicate VoltFits(scale: nat, quot: nat) {
    scale <= INT_MAX && quot <= INT_MAX && (scale != 0 ==> quot * 1_000_000 / scale <= INT_MAX)
  }

  lemma QuotPlain(scale: nat, volt: nat)
    requires QuotFits(scale, volt)
    ensures QuotMagnitude(scale, volt) == scale * volt / 1_000_000 >= 0
  {
    ProductFits64(scale, volt);
    Small64(scale * volt);
    ToInt32Small(scale * volt / 1_000_000);
  }

  lemma VoltPlain(scale: nat, quot: nat)
    requires VoltFits(scale, quot) && scale > 0
    ensures VoltMagnitude(scale, quot) == quot * 1_000_000 / scale >= 0
  {
    var p := quot * 1_000_000;
    Small64(p);
    ToInt32Small(p / scale);
  }

  lemma ZeroMagnitudes(scale: nat)
    ensures QuotMagnitude(scale, 0) == 0 && (scale > 0 ==> VoltMagnitude(scale, 0) == 0)
  {
    assert scale * 0 == 0;
    if scale > 0 {
      DivUnique(0, scale, 0, 0);
    }
  }

  /** Both conversions are odd in the adjustment. */
  lemma AdjustmentsAreOdd(roScale: int, x: int)
    ensures QuotAdjustment(roScale, -x) == -QuotAdjustment(roScale, x)
    ensures VoltageAdjustment(roScale, -x) == -VoltageAdjustment(roScale, x)
  {
    ZeroMagnitudes(Abs(roScale));
  }

  /** The remainder of the first conversion, in microvolts times QUOT/V. */
  function Remainder(scale: nat, quot: nat): nat
    requires scale > 0
  {
    quot * 1_000_000 % scale
  }

  /** On magnitudes: to a voltage and back loses the remainder of the first conversion,
      rounded up to whole units. */
  lemma RoundTripMagnitude(s: nat, q: nat)
    requires s > 0
    ensures s * (q * 1_000_000 / s) / 1_000_000 == q - (Remainder(s, q) + 999_999) / 1_000_000
  {
    var n, r := q * 1_000_000, Remainder(s, q);
    var loss := (r + 999_999) / 1_000_000;
    assert s * (n / s) == n - r;
    DivUnique(n - r, 1_000_000, q - loss, loss * 1_000_000 - r);
  }

  /** Converting a quotient to a voltage and back never changes the sign, and loses the
      remainder rounded up: so nothing exactly when the scale divides the quotient in
      microvolts, and more than one unit exactly when the remainder exceeds a million. */
  lemma RoundTripLosesExactly(roScale: int, quot: int)
    requires roScale != 0 && VoltFits(Abs(roScale), Abs(quot))
    ensures var back := QuotAdjustment(roScale, VoltageAdjustment(roScale, quot));
            var r := Remainder(Abs(roScale), Abs(quot));
            Abs(quot) - Abs(back) == (r + 999_999) / 1_000_000 && (if quot < 0 then back <= 0 else back >= 0) &&
            (back == quot <==> r == 0) && (Abs(quot) - Abs(back) > 1 <==> r > 1_000_000)
  {
    BackOnMagnitudes(Abs(roScale), Abs(quot));
    ZeroMagnitudes(Abs(roScale));
  }

  lemma BackOnMagnitudes(s: nat, q: nat)
    requires s > 0 && VoltFits(s, q)
    ensures var v := VoltMagnitude(s, q);
            v >= 0 && QuotMagnitude(s, v) >= 0 && q - QuotMagnitude(s, v) == (Remainder(s, q) + 999_999) / 1_000_000
  {
    VoltPlain(s, q);
    RoundTripMagnitude(s, q);
    DivBounds(q * 1_000_000, s);
    var v := VoltMagnitude(s, q);
    DivAtMost(s * v, 1_000_000, q);
    QuotPlain(s, v);
  }

  /** For the usual scales that is the quotient, or one unit closer to zero. */
  lemma QuotientRoundTrip(roScale: int, quot: int)
    requires 1 <= roScale <= 1_000_000 && VoltFits(roScale, Abs(quot))
    ensures var back := QuotAdjustment(roScale, VoltageAdjustment(roScale, quot));
            (back == quot || back == (if quot < 0 then quot + 1 else quot - 1)) &&
            (back == quot <==> Abs(quot) * 1_000_000 % roScale == 0)
  {
    RoundTripLosesExactly(roScale, quot);
  }

  /** A larger margin never asks for a smaller quotient. */
  lemma QuotMonotone(s: nat, v: nat, w: nat)
    requires v <= w && QuotFits(s, w)
    ensures QuotFits(s, v) && 0 <= QuotAdjustment(s, v) <= QuotAdjustment(s, w)
  {
    MulMonotone(s, v, s, w);
    DivMonotone(s * v, s * w, 1_000_000);
    QuotPlain(s, w);
    QuotPlain(s, v);
  }

  // --------------------------------------------------- monotonic target quotients

  /** Row i of a column after the increasing pass. */
  function IncAt(s: seq<nat>, i: nat): nat
    requires i < |s|
  {
    if i == 0 then s[0]
    else if s[i] != 0 && s[i] < IncAt(s, i - 1) then IncAt(s, i - 1) else s[i]
  }

  /** Row i of a column after the decreasing pass. */
  function DecAt(s: seq<nat>, i: nat): nat
    requires i < |s|
    decreases |s| - i
  {
    if i == |s| - 1 then s[i]
    else if DecAt(s, i + 1) != 0 && s[i] > DecAt(s, i + 1) then DecAt(s, i + 1) else s[i]
  }

  function IncPass(s: seq<nat>): seq<nat> { seq(|s|, i requires 0 <= i < |s| => IncAt(s, i)) }

  function DecPass(s: seq<nat>): seq<nat> { seq(|s|, i requires 0 <= i < |s| => DecAt(s, i)) }

  /** Every nonzero quotient is at least the one of the corner below. */
  ghost predicate MonotoneQuots(s: seq<nat>) {
    forall i :: 1 <= i < |s| && s[i] != 0 ==> s[i - 1] <= s[i]
  }

  ghost predicate Below(s: seq<nat>, t: seq<nat>) {
    |s| == |t| && forall i :: 0 <= i < |s| ==> s[i] <= t[i]
  }

  ghost predicate SameZeros(s: seq<nat>, t: seq<nat>) {
    |s| == |t| && forall i :: 0 <= i < |s| ==> (s[i] == 0 <==> t[i] == 0)
  }

  lemma {:induction false} IncAtFacts(s: seq<nat>, i: nat, t: seq<nat>)
    requires i < |s| && Below(s, t) && MonotoneQuots(t)
    ensures s[i] <= IncAt(s, i) <= t[i] && (IncAt(s, i) == 0 <==> s[i] == 0)
  {
    if i > 0 {
      IncAtFacts(s, i - 1, t);
    }
  }

  lemma {:induction false} IncAtAbove(s: seq<nat>, i: nat)
    requires i < |s|
    ensures s[i] <= IncAt(s, i) && (IncAt(s, i) == 0 <==> s[i] == 0)
  {
    if i > 0 {
      IncAtAbove(s, i - 1);
    }
  }

  /** The increasing pass gives the least monotonic table above its input, and keeps which
      entries are zero. */
  lemma IncPassIsLeast(s: seq<nat>, t: seq<nat>)
    ensures Below(s, IncPass(s)) && MonotoneQuots(IncPass(s)) && SameZeros(s, IncPass(s))
    ensures Below(s, t) && MonotoneQuots(t) ==> Below(IncPass(s), t)
  {
    forall i | 0 <= i < |s| ensures s[i] <= IncAt(s, i) && (IncAt(s, i) == 0 <==> s[i] == 0) {
      IncAtAbove(s, i);
    }
    if Below(s, t) && MonotoneQuots(t) {
      forall i | 0 <= i < |s| ensures IncAt(s, i) <= t[i] {
        IncAtFacts(s, i, t);
      }
    }
  }

  lemma {:induction false} DecAtBelow(s: seq<nat>, i: nat)
    requires i < |s|
    ensures DecAt(s, i) <= s[i] && (DecAt(s, i) == 0 <==> s[i] == 0)
    decreases |s| - i
  {
    if i + 1 < |s| {
      DecAtBelow(s, i + 1);
    }
  }

  lemma {:induction false} DecAtFacts(s: seq<nat>, i: nat, t: seq<nat>)
    requires i < |s| && Below(t, s) && MonotoneQuots(t) && SameZeros(s, t)
    ensures t[i] <= DecAt(s, i)
    decreases |s| - i
  {
    if i + 1 < |s| {
      DecAtFacts(s, i + 1, t);
      DecAtBelow(s, i + 1);
    }
  }

  /** The decreasing pass gives the greatest monotonic table below its input among those
      with the same zero entries, and keeps which entries are zero. */
  lemma DecPassIsGreatest(s: seq<nat>, t: seq<nat>)
    ensures Below(DecPass(s), s) && MonotoneQuots(DecPass(s)) && SameZeros(s, DecPass(s))
    ensures Below(t, s) && MonotoneQuots(t) && SameZeros(s, t) ==> Below(t, DecPass(s))
  {
    forall i | 0 <= i < |s| ensures DecAt(s, i) <= s[i] && (DecAt(s, i) == 0 <==> s[i] == 0) {
      DecAtBelow(s, i);
    }
    if Below(t, s) && MonotoneQuots(t) && SameZeros(s, t) {
      forall i | 0 <= i < |s| ensures t[i] <= DecAt(s, i) {
        DecAtFacts(s, i, t);
      }
    }
  }

  /** Only entry i, the others being zero. */
  function Spike(s: seq<nat>, i: nat): seq<nat> { seq(|s|, k requires 0 <= k < |s| => if k == i then s[k] else 0) }

  /** Zeroing an entry frees the one below it from the bound. */
  lemma SpikeEscapes(s: seq<nat>, i: nat)
    requires 1 <= i < |s| && s[i] != 0 && s[i - 1] > s[i]
    ensures Below(Spike(s, i - 1), s) && MonotoneQuots(Spike(s, i - 1)) && !Below(Spike(s, i - 1), DecPass(s))
  {
    DecAtBelow(s, i);
    assert DecPass(s)[i - 1] == DecAt(s, i - 1) <= s[i] < Spike(s, i - 1)[i - 1];
  }

  lemma {:induction false} DecAtFixes(s: seq<nat>, i: nat)
    requires i < |s| && MonotoneQuots(s)
    ensures DecAt(s, i) == s[i]
    decreases |s| - i
  {
    if i + 1 < |s| {
      DecAtFixes(s, i + 1);
    }
  }

  lemma DecPassFixes(s: seq<nat>)
    requires MonotoneQuots(s)
    ensures DecPass(s) == s
  {
    forall i | 0 <= i < |s| ensures DecPass(s)[i] == s[i] {
      DecAtFixes(s, i);
    }
  }

  /** Among all monotonic tables below its input, zeros or not, the decreasing pass gives the
      greatest exactly if the input was monotonic already. */
  lemma DecPassIsGreatestOfAllExactly(s: seq<nat>)
    ensures (forall t :: Below(t, s) && MonotoneQuots(t) ==> Below(t, DecPass(s))) <==> MonotoneQuots(s)
  {
    if MonotoneQuots(s) {
      DecPassFixes(s);
    } else {
      var i :| 1 <= i < |s| && s[i] != 0 && s[i - 1] > s[i];
      SpikeEscapes(s, i);
    }
  }

  /** The target quotients of each RO over all corners. */
  ghost function Columns(a: array2<nat>): (cs: seq<seq<nat>>)
    reads a
    ensures |cs| == a.Length1 && forall j :: 0 <= j < |cs| ==> |cs[j]| == a.Length0
    ensures forall i, j :: 0 <= i < a.Length0 && 0 <= j < |cs| ==> cs[j][i] == a[i, j]
  {
    seq(a.Length1, j requires 0 <= j < a.Length1 reads a =>
      seq(a.Length0, i requires 0 <= i < a.Length0 reads a => a[i, j]))
  }

  /** cpr3_enforce_inc_quotient_monotonicity, on quotients by corner and RO. */
  method EnforceInc(a: array2<nat>)
    modifies a
    ensures forall j :: 0 <= j < a.Length1 ==> Columns(a)[j] == IncPass(old(Columns(a))[j])
  {
    ghost var was := Columns(a);
    if a.Length0 > 0 {
      for i := 1 to a.Length0
        invariant forall r, j :: 0 <= r < i && 0 <= j < a.Length1 ==> a[r, j] == IncAt(was[j], r)
        invariant forall r, j :: i <= r < a.Length0 && 0 <= j < a.Length1 ==> a[r, j] == was[j][r]
      {
        for j := 0 to a.Length1
          invariant forall r, k :: 0 <= r < i && 0 <= k < a.Length1 ==> a[r, k] == IncAt(was[k], r)
          invariant forall k :: 0 <= k < j ==> a[i, k] == IncAt(was[k], i)
          invariant forall r, k :: i <= r < a.Length0 && 0 <= k < a.Length1 && !(r == i && k < j) ==>
                      a[r, k] == was[k][r]
        {
          if a[i, j] != 0 && a[i, j] < a[i - 1, j] {
            a[i, j] := a[i - 1, j];
          }
        }
      }
    }
    forall j | 0 <= j < a.Length1 ensures Columns(a)[j] == IncPass(was[j]) {}
  }

  /** cpr3_enforce_dec_quotient_monotonicity. */
  method EnforceDec(a: array2<nat>)
    modifies a
    ensures forall j :: 0 <= j < a.Length1 ==> Columns(a)[j] == DecPass(old(Columns(a))[j])
  {
    ghost var was := Columns(a);
    if a.Length0 > 0 {
      var i := a.Length0 - 2;
      while i >= 0
        invariant -1 <= i <= a.Length0 - 2
        invariant forall r, j :: i < r < a.Length0 && 0 <= j < a.Length1 ==> a[r, j] == DecAt(was[j], r)
        invariant forall r, j :: 0 <= r <= i && 0 <= j < a.Length1 ==> a[r, j] == was[j][r]
      {
        for j := 0 to a.Length1
          invariant forall r, k :: i < r < a.Length0 && 0 <= k < a.Length1 ==> a[r, k] == DecAt(was[k], r)
          invariant forall k :: 0 <= k < j ==> a[i, k] == DecAt(was[k], i)
          invariant forall r, k :: 0 <= r <= i && 0 <= k < a.Length1 && !(r == i && k < j) ==> a[r, k] == was[k][r]
        {
          if a[i + 1, j] != 0 && a[i, j] > a[i + 1, j] {
            a[i, j] := a[i + 1, j];
          }
        }
        i := i - 1;
      }
    }
    forall j | 0 <= j < a.Length1 ensures Columns(a)[j] == DecPass(was[j]) {}
  }

  // -------------------------------------------------------- limits of the voltages

  /** cpr3_limit_open_loop_voltages for one corner. */
  function OpenLoopLimited(c: Corner, step: int): Corner
    requires step > 0
  {
    var volt := RoundUp(c.openLoop, step);
    c.(openLoop := if volt < c.floor then c.floor else if volt > c.ceiling then c.ceiling else volt)
  }

  /** CPR3_ROUND on unsigned 32-bit operands. */
  function RoundUp32(n: nat, step: int): nat
    requires step > 0
  {
    (n + step - 1) % TWO_32 / step * step % TWO_32
  }

  /** The floor that keeps the range, in the unsigned arithmetic of the source. */
  function RangeFloor(ceiling: int, range: nat, step: int): int
    requires step > 0
  {
    ToInt32(RoundUp32((ceiling - range) % TWO_32, step))
  }

  /** A range with the sign bit set means no limit. */
  function RangeLimited(c: Corner, range: nat, step: int): Corner
    requires step > 0
  {
    if ToInt32(range) >= 0 then
      var floor := Max(RangeFloor(c.ceiling, range, step), c.floor);
      c.(floor := floor, openLoop := if c.openLoop < floor then floor else c.openLoop)
    else c
  }

  /** A corner whose floor is raised to the one below it. */
  function FloorRaised(c: Corner, below: int): Corner {
    if c.floor < below then
      c.(floor := below, openLoop := Max(c.openLoop, below), ceiling := Max(c.ceiling, below))
    else c
  }

  function MonotoneAt(cs: seq<Corner>, i: nat): Corner
    requires i < |cs|
  {
    if i == 0 then cs[0] else FloorRaised(cs[i], MonotoneAt(cs, i - 1).floor)
  }

  /** The corner after the passes before the last one; `ranges` when the property is there. */
  function Prepared(c: Corner, step: int, asCeiling: bool, limited: bool, range: nat): Corner
    requires step > 0
  {
    var a := OpenLoopLimited(c, step);
    var b := if asCeiling then a.(ceiling := a.openLoop) else a;
    if limited then RangeLimited(b, range, step) else b
  }

  /** The table after the range limiting loop. */
  function RangeLimitedAll(cs: seq<Corner>, step: int, limited: bool, ranges: seq<nat>): (r: seq<Corner>)
    requires step > 0 && (limited ==> |ranges| == |cs|)
  {
    seq(|cs|, i requires 0 <= i < |cs| => if limited then RangeLimited(cs[i], ranges[i], step) else cs[i])
  }

  function PreparedAll(cs: seq<Corner>, step: int, asCeiling: bool, limited: bool, ranges: seq<nat>): (r: seq<Corner>)
    requires step > 0 && (limited ==> |ranges| == |cs|)
  {
    seq(|cs|, i requires 0 <= i < |cs| => Prepared(cs[i], step, asCeiling, limited, if limited then ranges[i] else 0))
  }

  /** floor <= open-loop <= ceiling, all of them set points. */
  ghost predicate InOrder(c: Corner, step: int)
    requires step > 0
  {
    0 <= c.floor <= c.openLoop <= c.ceiling <= INT_MAX &&
    Aligned(c.floor, step) && Aligned(c.openLoop, step) && Aligned(c.ceiling, step)
  }

  /** What the device tree parsing establishes. */
  ghost predicate Parsed(c: Corner, step: int)
    requires step > 0
  {
    0 <= c.floor <= c.ceiling <= INT_MAX && Aligned(c.floor, step) && Aligned(c.ceiling, step)
  }

  lemma RoundUp32Plain(n: nat, step: int)
    requires step > 0 && n + step <= TWO_32
    ensures Aligned(RoundUp32(n, step), step) && n <= RoundUp32(n, step) < n + step
  {
    var m := n + step - 1;
    assert m % TWO_32 == m;
    DivBounds(m, step);
    MulMod(m / step, step);
    var r := m / step * step;
    assert r % TWO_32 == r;
  }

  lemma RoundUp32Wraps(n: nat, step: int)
    requires 0 < step <= INT_MAX && n < TWO_32 < n + step
    ensures RoundUp32(n, step) == 0
  {
    var m := n + step - 1 - TWO_32;
    assert (n + step - 1) % TWO_32 == m;
    DivUnique(m, step, 0, m);
  }

  lemma RangeFloorWithin(ceiling: int, range: nat, step: int)
    requires 0 < step <= INT_MAX && 0 <= ceiling <= INT_MAX && Aligned(ceiling, step) && range <= ceiling
    ensures var f := RangeFloor(ceiling, range, step);
            Aligned(f, step) && ceiling - range <= f <= ceiling && f < ceiling - range + step
  {
    var n := ceiling - range;
    assert n % TWO_32 == n;
    RoundUp32Plain(n, step);
    var r := RoundUp32(n, step);
    if r > ceiling {
      AlignedBelow(ceiling, r, step);
    }
    ToInt32Small(r);
  }

  lemma RangeFloorBeyond(ceiling: int, range: nat, step: int)
    requires 0 < step <= INT_MAX && 0 <= ceiling < range <= INT_MAX
    ensures RangeFloor(ceiling, range, step) <= 0
  {
    var n := ceiling - range + TWO_32;
    assert (ceiling - range) % TWO_32 == n;
    if n + step <= TWO_32 {
      RoundUp32Plain(n, step);
      ToInt32Large(RoundUp32(n, step));
    } else {
      RoundUp32Wraps(n, step);
      ToInt32Small(0);
    }
  }

  /** The limited open-loop voltage is the least set point within floor..ceiling that is not below
      the voltage asked for, or the ceiling: of the set points of that range, v is not below it
      exactly if v is not below the voltage or is the ceiling. */
  lemma OpenLoopLimitedExactly(c: Corner, step: int, v: int)
    requires step > 0 && Parsed(c, step) && Aligned(v, step) && c.floor <= v <= c.ceiling
    ensures OpenLoopLimited(c, step).openLoop <= v <==> c.openLoop <= v || v == c.ceiling
  {
    if c.openLoop >= 0 {
      RoundUpLeast(c.openLoop, step);
      if v < RoundUp(c.openLoop, step) {
        AlignedBelow(v, RoundUp(c.openLoop, step), step);
      }
    } else {
      RoundUpNegative(c.openLoop, step);
    }
  }

  lemma RoundUpNegative(n: int, step: int)
    requires step > 0 && n < 0
    ensures RoundUp(n, step) <= 0
  {
    var x := n + step - 1;
    if x >= 0 {
      DivUnique(x, step, 0, x);
    } else {
      DivAtLeast(-x, step, 0);
      MulLe(0, -x / step, step);
    }
  }

  /** The clipping passes in numbers: the ceiling stays or becomes the limited open-loop voltage, the
      floor is the least set point that is neither below the old one nor further below the
      ceiling than the range allows, and the open-loop voltage is raised to it if need be. */
  lemma PreparedExactly(c: Corner, step: int, asCeiling: bool, limited: bool, range: nat, v: int)
    requires 0 < step <= INT_MAX && Parsed(c, step) && range < TWO_32 && Aligned(v, step)
    ensures var p, open := Prepared(c, step, asCeiling, limited, range), OpenLoopLimited(c, step).openLoop;
            p.ceiling == (if asCeiling then open else c.ceiling) && p.openLoop == Max(open, p.floor) &&
            (p.floor <= v <==>
              c.floor <= v && (limited && range <= INT_MAX && range <= p.ceiling ==> p.ceiling - range <= v))
  {
    OpenLoopLimitedInOrder(c, step);
    var ceiling := if asCeiling then OpenLoopLimited(c, step).openLoop else c.ceiling;
    if range <= INT_MAX {
      ToInt32Small(range);
      if range <= ceiling {
        RangeFloorWithin(ceiling, range, step);
        var f := RangeFloor(ceiling, range, step);
        if v < f {
          AlignedBelow(v, f, step);
        }
      } else {
        RangeFloorBeyond(ceiling, range, step);
      }
    } else {
      ToInt32Large(range);
    }
  }

  /** The last pass in numbers, beside the floors: open-loop voltage and ceiling are raised to the
      floor if they are below it, and else left alone. */
  lemma MonotoneAtExactly(cs: seq<Corner>, i: nat)
    requires i < |cs| && forall k :: 0 <= k < |cs| ==> cs[k].floor <= cs[k].openLoop <= cs[k].ceiling
    ensures var r := MonotoneAt(cs, i);
            r == cs[i].(floor := r.floor, openLoop := Max(cs[i].openLoop, r.floor),
                        ceiling := Max(cs[i].ceiling, r.floor))
  {}

  lemma OpenLoopLimitedInOrder(c: Corner, step: int)
    requires step > 0 && Parsed(c, step)
    ensures InOrder(OpenLoopLimited(c, step), step)
  {
    MulMod(TruncDiv(c.openLoop + step - 1, step), step);
  }

  lemma RangeLimitedInOrder(c: Corner, range: nat, step: int)
    requires 0 < step <= INT_MAX && InOrder(c, step) && range < TWO_32
    ensures var r := RangeLimited(c, range, step);
            InOrder(r, step) && c.floor <= r.floor && (range <= INT_MAX ==> r.ceiling - r.floor <= range)
  {
    if range <= INT_MAX {
      ToInt32Small(range);
      if range <= c.ceiling {
        RangeFloorWithin(c.ceiling, range, step);
      } else {
        RangeFloorBeyond(c.ceiling, range, step);
      }
      RaisedInOrder(c, RangeFloor(c.ceiling, range, step), step);
    } else {
      ToInt32Large(range);
    }
  }

  lemma RaisedInOrder(c: Corner, floor: int, step: int)
    requires step > 0 && InOrder(c, step) && floor <= c.ceiling && (floor <= 0 || Aligned(floor, step))
    ensures var f := Max(floor, c.floor);
            InOrder(c.(floor := f, openLoop := if c.openLoop < f then f else c.openLoop), step)
  {}

  lemma PreparedInOrder(c: Corner, step: int, asCeiling: bool, limited: bool, range: nat)
    requires 0 < step <= INT_MAX && Parsed(c, step) && range < TWO_32
    ensures var p := Prepared(c, step, asCeiling, limited, range);
            InOrder(p, step) && (limited && range <= INT_MAX ==> p.ceiling - p.floor <= range)
  {
    OpenLoopLimitedInOrder(c, step);
    var a := OpenLoopLimited(c, step);
    RangeLimitedInOrder(if asCeiling then a.(ceiling := a.openLoop) else a, range, step);
  }

  /** Row i after the monotonicity pass: its floor is the running maximum, it is in order,
      and its range has not grown. */
  lemma {:induction false} MonotoneAtFacts(cs: seq<Corner>, i: nat, step: int)
    requires step > 0 && i < |cs| && forall k :: 0 <= k < |cs| ==> InOrder(cs[k], step)
    ensures var r := MonotoneAt(cs, i);
            InOrder(r, step) && (forall k :: 0 <= k <= i ==> cs[k].floor <= r.floor) &&
            (exists k :: 0 <= k <= i && cs[k].floor == r.floor) &&
            (r.ceiling - r.floor <= cs[i].ceiling - cs[i].floor) &&
            (i > 0 ==> MonotoneAt(cs, i - 1).floor <= r.floor)
  {
    if i > 0 {
      MonotoneAtFacts(cs, i - 1, step);
    }
  }

  /** From rounded floors and ceilings, the passes limit open-loop, open-loop as ceiling
      (if asked for) and limit floor leave every corner with floor <= open-loop <= ceiling
      on set points, floors that never decrease and are the running maximum of the
      range-limited floors, and ranges within what is configured. */
  lemma LimitsLeaveTableInOrder(cs: seq<Corner>, step: int, asCeiling: bool, limited: bool, ranges: seq<nat>, i: nat)
    requires 0 < step <= INT_MAX && i < |cs| && (limited ==> |ranges| == |cs|)
    requires forall k :: 0 <= k < |cs| ==> Parsed(cs[k], step)
    requires forall k :: 0 <= k < |ranges| ==> ranges[k] < TWO_32
    ensures var p := PreparedAll(cs, step, asCeiling, limited, ranges);
            var r := MonotoneAt(p, i);
            InOrder(r, step) && (i > 0 ==> MonotoneAt(p, i - 1).floor <= r.floor) &&
            (forall k :: 0 <= k <= i ==> p[k].floor <= r.floor) && (exists k :: 0 <= k <= i && p[k].floor == r.floor) &&
            (limited && ranges[i] <= INT_MAX ==> r.ceiling - r.floor <= ranges[i])
  {
    var p := PreparedAll(cs, step, asCeiling, limited, ranges);
    forall k | 0 <= k < |cs|
      ensures InOrder(p[k], step) && (limited && ranges[k] <= INT_MAX ==> p[k].ceiling - p[k].floor <= ranges[k])
    {
      PreparedInOrder(cs[k], step, asCeiling, limited, if limited then ranges[k] else 0);
    }
    MonotoneAtFacts(p, i, step);
  }

  /** cpr3_limit_open_loop_voltages. */
  method LimitOpenLoopVoltages(corner: array<Corner>, step: int)
    requires step > 0
    modifies corner
    ensures forall i :: 0 <= i < corner.Length ==> corner[i] == OpenLoopLimited(old(corner[i]), step)
  {
    for i := 0 to corner.Length
      invariant forall k :: 0 <= k < i ==> corner[k] == OpenLoopLimited(old(corner[k]), step)
      invariant forall k :: i <= k < corner.Length ==> corner[k] == old(corner[k])
    {
      var volt := RoundUp(corner[i].openLoop, step);
      if volt < corner[i].floor {
        volt := corner[i].floor;
      } else if volt > corner[i].ceiling {
        volt := corner[i].ceiling;
      }
      corner[i] := corner[i].(openLoop := volt);
    }
  }

  /** cpr3_open_loop_voltage_as_ceiling. */
  method OpenLoopVoltageAsCeiling(corner: array<Corner>, property: bool)
    modifies corner
    ensures forall i :: 0 <= i < corner.Length ==>
              corner[i] == if property then old(corner[i]).(ceiling := old(corner[i]).openLoop) else old(corner[i])
  {
    if !property {
      return;
    }
    for i := 0 to corner.Length
      invariant forall k :: 0 <= k < i ==> corner[k] == old(corner[k]).(ceiling := old(corner[k]).openLoop)
      invariant forall k :: i <= k < corner.Length ==> corner[k] == old(corner[k])
    {
      corner[i] := corner[i].(ceiling := corner[i].openLoop);
    }
  }

  method LimitFloor(corner: array<Corner>, i: nat, range: nat, step: int)
    requires step > 0 && i < corner.Length
    modifies corner
    ensures corner[i] == RangeLimited(old(corner[i]), range, step)
    ensures forall k :: 0 <= k < corner.Length && k != i ==> corner[k] == old(corner[k])
  {
    if ToInt32(range) >= 0 {
      var floorNew := RangeFloor(corner[i].ceiling, range, step);
      corner[i] := corner[i].(floor := Max(floorNew, corner[i].floor));
      if corner[i].openLoop < corner[i].floor {
        corner[i] := corner[i].(openLoop := corner[i].floor);
      }
    }
  }

  method RaiseFloor(corner: array<Corner>, i: nat)
    requires 1 <= i < corner.Length
    modifies corner
    ensures corner[i] == FloorRaised(old(corner[i]), old(corner[i - 1]).floor)
    ensures forall k :: 0 <= k < corner.Length && k != i ==> corner[k] == old(corner[k])
  {
    if corner[i].floor < corner[i - 1].floor {
      corner[i] := corner[i].(floor := corner[i - 1].floor);
      if corner[i].openLoop < corner[i].floor {
        corner[i] := corner[i].(openLoop := corner[i].floor);
      }
      if corner[i].ceiling < corner[i].floor {
        corner[i] := corner[i].(ceiling := corner[i].floor);
      }
    }
  }

  /** The range limiting loop of cpr3_limit_floor_voltages. */
  method LimitRanges(corner: array<Corner>, step: int, ranges: seq<nat>)
    requires step > 0 && |ranges| == corner.Length
    modifies corner
    ensures corner[..] == RangeLimitedAll(old(corner[..]), step, true, ranges)
  {
    ghost var was := corner[..];
    for i := 0 to corner.Length
      invariant forall k :: 0 <= k < i ==> corner[k] == RangeLimited(was[k], ranges[k], step)
      invariant corner[i..] == was[i..]
    {
      assert corner[i] == was[i..][0];
      LimitFloor(corner, i, ranges[i], step);
      assert corner[i + 1..] == was[i..][1..];
    }
  }

  /** The monotonicity loop of cpr3_limit_floor_voltages. */
  method EnforceMonotonicity(corner: array<Corner>)
    modifies corner
    ensures forall i :: 0 <= i < corner.Length ==> corner[i] == MonotoneAt(old(corner[..]), i)
  {
    ghost var was := corner[..];
    if corner.Length > 0 {
      for i := 1 to corner.Length
        invariant forall k :: 0 <= k < i ==> corner[k] == MonotoneAt(was, k)
        invariant corner[i..] == was[i..]
      {
        assert corner[i] == was[i..][0];
        RaiseFloor(corner, i);
        assert corner[i + 1..] == was[i..][1..];
      }
    }
  }

  /** cpr3_limit_floor_voltages; `limited` says that the range property is there and could
      be read. */
  method LimitFloorVoltages(corner: array<Corner>, step: int, limited: bool, ranges: seq<nat>)
    requires step > 0 && (limited ==> |ranges| == corner.Length)
    modifies corner
    ensures var p := RangeLimitedAll(old(corner[..]), step, limited, ranges);
            forall i :: 0 <= i < corner.Length ==> corner[i] == MonotoneAt(p, i)
  {
    ghost var was := corner[..];
    if limited {
      LimitRanges(corner, step, ranges);
    }
    assert corner[..] == RangeLimitedAll(was, step, limited, ranges);
    EnforceMonotonicity(corner);
  }

  /** The three passes in the order in which cpr4_ipq807x_apss_init_regulator runs them. */
  method LimitVoltages(corner: array<Corner>, step: int, asCeiling: bool, limited: bool, ranges: seq<nat>)
    requires step > 0 && (limited ==> |ranges| == corner.Length)
    modifies corner
    ensures var p := PreparedAll(old(corner[..]), step, asCeiling, limited, ranges);
            forall i :: 0 <= i < corner.Length ==> corner[i] == MonotoneAt(p, i)
  {
    ghost var was := corner[..];
    LimitOpenLoopVoltages(corner, step);
    OpenLoopVoltageAsCeiling(corner, asCeiling);
    assert RangeLimitedAll(corner[..], step, limited, ranges) == PreparedAll(was, step, asCeiling, limited, ranges);
    LimitFloorVoltages(corner, step, limited, ranges);
  }
}
