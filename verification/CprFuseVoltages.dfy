/** Open-loop voltages from fuses: the corners are mapped to fuse corners, and their
    voltages are interpolated between those of the fuse corners by frequency. */
module CprFuseVoltages {
  import opened CInt
  import opened CprCorner

  const CORNER_OFFSET: nat := 1

  // ------------------------------------------------------------ fuses and steps

  /** cpr3_convert_open_loop_voltage_fuse for six-bit fuses: sign and magnitude. */
  function ConvertFuse(refVolt: int, stepVolt: int, fuse: nat): int {
    refVolt + (if fuse / 32 % 2 == 1 then -1 else 1) * (fuse % 32) * stepVolt
  }

  function EncodeFuse(steps: int): nat
    requires -32 < steps < 32
  {
    if steps < 0 then 32 - steps else steps
  }

  /** Every number of steps below 32, up or down, has a fuse value, and only 0 has two. */
  lemma FuseRoundTrip(refVolt: int, stepVolt: int, steps: int, fuse: nat)
    requires -32 < steps < 32 && fuse < 64 && stepVolt > 0
    ensures EncodeFuse(steps) < 64 && ConvertFuse(refVolt, stepVolt, EncodeFuse(steps)) == refVolt + steps * stepVolt
    ensures ConvertFuse(refVolt, stepVolt, fuse) == refVolt + steps * stepVolt <==>
            fuse == EncodeFuse(steps) || (steps == 0 && fuse == 32)
  {
    FuseSteps(refVolt, stepVolt, fuse);
    FuseSteps(refVolt, stepVolt, EncodeFuse(steps));
    SameSteps(StepsOf(fuse), steps, stepVolt);
  }

  function StepsOf(fuse: nat): int { if fuse < 32 then fuse else 32 - fuse }

  lemma FuseSteps(refVolt: int, stepVolt: int, fuse: nat)
    requires fuse < 64
    ensures ConvertFuse(refVolt, stepVolt, fuse) == refVolt + StepsOf(fuse) * stepVolt
  {}

  lemma SameSteps(a: int, b: int, stepVolt: int)
    requires stepVolt > 0
    ensures a * stepVolt == b * stepVolt <==> a == b
  {
    assert (a - b) * stepVolt == a * stepVolt - b * stepVolt;
    MulStep(a - b, stepVolt);
  }

  // -------------------------------------------------------------- interpolation

  /** cpr3_interpolate: unsigned 64-bit arithmetic, and a 32-bit divisor. */
  function Interpolate(x1: nat, y1: nat, x2: nat, y2: nat, x: nat): int
    requires x2 < TWO_32
  {
    if x1 >= x2 || y1 > y2 || x1 > x || x > x2 then y2
    else (y2 - (x2 - x) * (y2 - y1) % TWO_64 / ((x2 - x1) % TWO_32)) % TWO_64
  }

  /** What is taken off the upper end. */
  function Drop(x1: nat, y1: nat, x2: nat, y2: nat, x: nat): (r: nat)
    requires x1 < x2 && y1 <= y2 && x <= x2
  {
    DropBounds(x2 - x, y2 - y1, x2 - x1);
    (x2 - x) * (y2 - y1) / (x2 - x1)
  }

  lemma DropBounds(a: nat, h: nat, d: nat)
    requires d > 0
    ensures a * h / d >= 0 && (a <= d ==> a * h / d <= h)
    ensures a == 0 ==> a * h / d == 0
    ensures a == d ==> a * h / d == h
  {
    DivBounds(a * h, d);
    if a == d {
      DivUnique(a * h, d, h, 0);
    } else if a < d {
      MulMonotone(a, h, d, h);
      DivAtMost(a * h, d, h);
    }
  }

  /** In 64 bits nothing wraps. */
  lemma InterpolatePlain(x1: nat, y1: nat, x2: nat, y2: nat, x: nat)
    requires x1 < x2 < TWO_32 && y1 <= y2 < TWO_32 && x1 <= x <= x2
    ensures Interpolate(x1, y1, x2, y2, x) == y2 - Drop(x1, y1, x2, y2, x) >= y1
  {
    ProductFits64(x2 - x, y2 - y1);
    Small64((x2 - x) * (y2 - y1));
    assert (x2 - x1) % TWO_32 == x2 - x1;
    DropBounds(x2 - x, y2 - y1, x2 - x1);
    Small64(y2 - Drop(x1, y1, x2, y2, x));
  }

  /** The result is the least whole number on or above the line from (x1, y1) to (x2, y2);
      in particular it hits both ends. */
  lemma InterpolateHitsLine(x1: nat, y1: nat, x2: nat, y2: nat, x: nat)
    requires x1 < x2 < TWO_32 && y1 <= y2 < TWO_32 && x1 <= x <= x2
    ensures var r := Interpolate(x1, y1, x2, y2, x);
            (r - y1 - 1) * (x2 - x1) < (x - x1) * (y2 - y1) <= (r - y1) * (x2 - x1)
    ensures Interpolate(x1, y1, x2, y2, x1) == y1 && Interpolate(x1, y1, x2, y2, x2) == y2
  {
    InterpolatePlain(x1, y1, x2, y2, x);
    InterpolatePlain(x1, y1, x2, y2, x1);
    InterpolatePlain(x1, y1, x2, y2, x2);
    DropBounds(x2 - x1, y2 - y1, x2 - x1);
    DropBounds(0, y2 - y1, x2 - x1);
    OnOrAbove(x2 - x1, x2 - x, y2 - y1, Drop(x1, y1, x2, y2, x));
  }

  lemma OnOrAbove(d: nat, a: nat, h: nat, q: nat)
    requires d > 0 && a <= d && q == a * h / d
    ensures (h - q - 1) * d < (d - a) * h <= (h - q) * d
  {
    DivBounds(a * h, d);
    assert (d - a) * h == d * h - a * h;
    assert (h - q) * d == d * h - q * d;
    assert (h - q - 1) * d == d * h - q * d - d;
  }

  /** Interpolation stays between the ends and grows with x, whatever the frequencies. */
  lemma InterpolateGrows(x1: nat, y1: nat, x2: nat, y2: nat, x: nat, z: nat)
    requires x2 < TWO_32 && y1 <= y2 < TWO_32 && x1 <= x <= z <= x2
    ensures y1 <= Interpolate(x1, y1, x2, y2, x) <= Interpolate(x1, y1, x2, y2, z) <= y2
    ensures Interpolate(x1, y1, x2, y2, x2) == y2
  {
    if x1 < x2 {
      InterpolatePlain(x1, y1, x2, y2, x);
      InterpolatePlain(x1, y1, x2, y2, z);
      InterpolatePlain(x1, y1, x2, y2, x2);
      DropBounds(0, y2 - y1, x2 - x1);
      DropGrows(x2 - z, x2 - x, y2 - y1, x2 - x1);
    }
  }

  lemma DropGrows(a: nat, b: nat, h: nat, d: nat)
    requires d > 0 && a <= b
    ensures a * h / d <= b * h / d
  {
    MulMonotone(a, h, b, h);
    DivMonotone(a * h, b * h, d);
  }

  // ------------------------------------------------------------- minimum differences

  /** Entry i once every entry has been raised to the one before it plus a difference. */
  function SpacedAt(s: seq<int>, d: seq<int>, i: nat): int
    requires i < |s| == |d|
  {
    if i == 0 then s[0] else Max(s[i], SpacedAt(s, d, i - 1) + d[i])
  }

  function Spaced(s: seq<int>, d: seq<int>): seq<int>
    requires |s| == |d|
  {
    seq(|s|, i requires 0 <= i < |s| => SpacedAt(s, d, i))
  }

  ghost predicate Apart(s: seq<int>, d: seq<int>)
    requires |s| == |d|
  {
    forall i :: 0 < i < |s| ==> s[i - 1] + d[i] <= s[i]
  }

  ghost predicate AtMost(s: seq<int>, t: seq<int>) {
    |s| == |t| && forall i :: 0 <= i < |s| ==> s[i] <= t[i]
  }

  lemma {:induction false} SpacedAtMost(s: seq<int>, d: seq<int>, t: seq<int>, i: nat)
    requires i < |s| == |d| && AtMost(s, t) && Apart(t, d)
    ensures SpacedAt(s, d, i) <= t[i]
  {
    if i > 0 {
      SpacedAtMost(s, d, t, i - 1);
    }
  }

  /** The pass gives the least table above its input with the differences asked for. */
  lemma SpacedIsLeast(s: seq<int>, d: seq<int>, t: seq<int>)
    requires |s| == |d| == |t|
    ensures AtMost(s, Spaced(s, d)) && Apart(Spaced(s, d), d)
    ensures AtMost(s, t) && Apart(t, d) ==> AtMost(Spaced(s, d), t)
  {
    var r := Spaced(s, d);
    forall i | 0 <= i < |s| ensures s[i] <= r[i] && (i > 0 ==> r[i - 1] + d[i] <= r[i]) {
      assert r[i] == SpacedAt(s, d, i);
    }
    if AtMost(s, t) && Apart(t, d) {
      forall i | 0 <= i < |s| ensures r[i] <= t[i] {
        SpacedAtMost(s, d, t, i);
      }
    }
  }

  function NoDiffs(n: nat): seq<int> { seq(n, i => 0) }

  /** The fuse voltages with every one raised to those below it: the prefix maximum. */
  function PrefixMax(s: seq<int>): seq<int> { Spaced(s, NoDiffs(|s|)) }

  ghost predicate NonDecreasing(s: seq<int>) { forall i, j :: 0 <= i <= j < |s| ==> s[i] <= s[j] }

  lemma {:induction false} ApartFar(s: seq<int>, i: nat, j: nat)
    requires i <= j < |s| && Apart(s, NoDiffs(|s|))
    ensures s[i] <= s[j]
    decreases j
  {
    if i < j {
      ApartFar(s, i, j - 1);
      assert s[j - 1] + NoDiffs(|s|)[j] <= s[j];
    }
  }

  ghost predicate OneOfFirst(x: int, s: seq<int>, n: nat)
    requires n <= |s|
  {
    exists k :: 0 <= k < n && s[k] == x
  }

  lemma {:induction false} PrefixMaxAttained(s: seq<int>, i: nat)
    requires i < |s|
    ensures OneOfFirst(SpacedAt(s, NoDiffs(|s|), i), s, i + 1)
  {
    if i > 0 {
      PrefixMaxAttained(s, i - 1);
      var k :| 0 <= k < i && s[k] == SpacedAt(s, NoDiffs(|s|), i - 1);
      assert s[k] == SpacedAt(s, NoDiffs(|s|), i - 1) + NoDiffs(|s|)[i];
    }
  }

  lemma PrefixMaxFirst(s: seq<int>)
    requires s != []
    ensures PrefixMax(s)[0] == s[0]
  {}

  lemma PrefixMaxNext(s: seq<int>, i: nat)
    requires 0 < i < |s|
    ensures PrefixMax(s)[i] == Max(s[i], PrefixMax(s)[i - 1])
  {
    assert PrefixMax(s)[i] == SpacedAt(s, NoDiffs(|s|), i) && PrefixMax(s)[i - 1] == SpacedAt(s, NoDiffs(|s|), i - 1);
  }

  lemma PrefixMaxFacts(s: seq<int>)
    ensures |PrefixMax(s)| == |s| && NonDecreasing(PrefixMax(s)) && AtMost(s, PrefixMax(s))
    ensures forall i :: 0 <= i < |s| ==> OneOfFirst(PrefixMax(s)[i], s, i + 1)
  {
    var p := PrefixMax(s);
    SpacedIsLeast(s, NoDiffs(|s|), p);
    forall i, j | 0 <= i <= j < |p| ensures p[i] <= p[j] {
      ApartFar(p, i, j);
    }
    forall i | 0 <= i < |s| ensures OneOfFirst(p[i], s, i + 1) {
      PrefixMaxAttained(s, i);
    }
  }

  // ------------------------------------------------- the corners of the fuse corners

  /** As parsed: every corner is mapped to one of the fuse corners. */
  ghost predicate MappedInto(cs: seq<Corner>, fuseCount: nat) {
    forall i :: 0 <= i < |cs| ==> 0 <= cs[i].fuseCorner < fuseCount
  }

  /** i is the highest corner below `top` that is mapped to fuse corner k. */
  ghost predicate Highest(cs: seq<Corner>, k: int, i: int, top: int) {
    0 <= i < top <= |cs| && cs[i].fuseCorner == k && forall m :: i < m < top ==> cs[m].fuseCorner != k
  }

  /** The corner below which fuse corner k is looked for. */
  function Top(cs: seq<Corner>, fmax: seq<int>, k: int): int
    requires 0 <= k < |fmax|
  {
    if k + 1 == |fmax| then |cs| else fmax[k + 1]
  }

  ghost predicate FoundAt(cs: seq<Corner>, fmax: seq<int>, k: int)
    requires 0 <= k < |fmax|
  {
    Highest(cs, k, fmax[k], Top(cs, fmax, k))
  }

  /** Fuse corners `from` and up have been found, each below the next one. */
  ghost predicate Found(cs: seq<Corner>, fmax: seq<int>, from: int)
    requires 0 <= from <= |fmax|
  {
    forall k :: from <= k < |fmax| ==> FoundAt(cs, fmax, k)
  }

  /** Fuse corner j is the first that is not found from above. */
  ghost predicate Missing(cs: seq<Corner>, fmax: seq<int>, j: int)
    requires 0 <= j < |fmax|
  {
    Found(cs, fmax, j + 1) && forall m :: 0 <= m < Top(cs, fmax, j) && m < |cs| ==> cs[m].fuseCorner != j
  }

  /** The scan from the highest corner down. */
  method FindFmaxCorners(corner: array<Corner>, fuseCount: nat) returns (rc: int, fmax: seq<int>)
    requires fuseCount > 0 && MappedInto(corner[..], fuseCount)
    ensures |fmax| == fuseCount
    ensures rc == 0 ==> Found(corner[..], fmax, 0)
    ensures rc != 0 ==> rc == -EINVAL && exists j :: 0 <= j < fuseCount && Missing(corner[..], fmax, j)
  {
    fmax := seq(fuseCount, k => 0);
    var j, i := fuseCount - 1, corner.Length - 1;
    ghost var cs := corner[..];
    while i >= 0
      invariant -1 <= j < fuseCount && -1 <= i < |cs| && |fmax| == fuseCount
      invariant Found(cs, fmax, j + 1)
      invariant j >= 0 ==>
                  i < Top(cs, fmax, j) && forall m :: i < m < Top(cs, fmax, j) && m < |cs| ==> cs[m].fuseCorner != j
    {
      if corner[i].fuseCorner == j {
        ghost var was := fmax;
        fmax := fmax[j := i];
        forall k | j <= k < fuseCount ensures FoundAt(cs, fmax, k) {
          if k > j {
            assert FoundAt(cs, was, k);
          } else if k + 1 < fuseCount {
            assert FoundAt(cs, was, k + 1);
          }
        }
        j := j - 1;
      }
      i := i - 1;
    }
    rc := 0;
    if j >= 0 {
      assert Missing(cs, fmax, j);
      rc := -EINVAL;
    }
  }

  // ------------------------------------------------------------ mapping the corners

  /** The highest corners of the fuse corners, counted from 1: in the range of the property
      check, and strictly increasing. */
  ghost predicate MapAccepted(fmaxMap: seq<nat>, count: nat) {
    (forall j :: 0 <= j < |fmaxMap| ==> CORNER_OFFSET <= fmaxMap[j] <= count + CORNER_OFFSET) &&
    (forall j, k :: 0 <= j < k < |fmaxMap| ==> fmaxMap[j] < fmaxMap[k])
  }

  /** The fuse corner of corner i: the first that reaches up to it, or the last one. */
  function FuseCornerFrom(fmaxMap: seq<nat>, i: nat, j: nat): int
    requires j <= |fmaxMap|
    decreases |fmaxMap| - j
  {
    if j == |fmaxMap| then j - 1 else if i + CORNER_OFFSET <= fmaxMap[j] then j else FuseCornerFrom(fmaxMap, i, j + 1)
  }

  /** The map says where the corners of fuse corner j begin and end. */
  ghost predicate Covers(fmaxMap: seq<nat>, j: int, i: int)
    requires 0 <= j < |fmaxMap|
  {
    (j == 0 || fmaxMap[j - 1] <= i) && (j + 1 == |fmaxMap| || i < fmaxMap[j])
  }

  lemma {:induction false} FuseCornerCovers(fmaxMap: seq<nat>, count: nat, i: nat, from: nat)
    requires MapAccepted(fmaxMap, count) && fmaxMap != [] && from <= |fmaxMap| && (from > 0 ==> fmaxMap[from - 1] <= i)
    ensures var r := FuseCornerFrom(fmaxMap, i, from); 0 <= r < |fmaxMap| && Covers(fmaxMap, r, i)
    decreases |fmaxMap| - from
  {
    if from < |fmaxMap| && i + CORNER_OFFSET > fmaxMap[from] {
      FuseCornerCovers(fmaxMap, count, i, from + 1);
    }
  }

  /** Covering is a function of the corner, and a monotone one. */
  lemma CoversGrows(fmaxMap: seq<nat>, count: nat, j: int, i: int, k: int, m: int)
    requires MapAccepted(fmaxMap, count) && 0 <= j < |fmaxMap| && 0 <= k < |fmaxMap|
    requires Covers(fmaxMap, j, i) && Covers(fmaxMap, k, m) && i <= m
    ensures j <= k
  {
    if k < j {
      MapOrder(fmaxMap, count, k, j - 1);
    }
  }

  lemma MapOrder(fmaxMap: seq<nat>, count: nat, j: int, k: int)
    requires MapAccepted(fmaxMap, count) && 0 <= j <= k < |fmaxMap|
    ensures fmaxMap[j] <= fmaxMap[k]
  {}

  /** Corner i is mapped as the accepted map says. */
  ghost predicate Mapped(cs: seq<Corner>, fmaxMap: seq<nat>) {
    fmaxMap != [] &&
    forall i :: 0 <= i < |cs| ==> 0 <= cs[i].fuseCorner < |fmaxMap| && Covers(fmaxMap, cs[i].fuseCorner, i)
  }

  ghost predicate MonotoneMap(cs: seq<Corner>) {
    forall i, j :: 0 <= i <= j < |cs| ==> cs[i].fuseCorner <= cs[j].fuseCorner
  }

  lemma MappedIsMonotone(cs: seq<Corner>, fmaxMap: seq<nat>)
    requires MapAccepted(fmaxMap, |cs|) && Mapped(cs, fmaxMap)
    ensures MonotoneMap(cs) && MappedInto(cs, |fmaxMap|)
  {
    forall i, j | 0 <= i <= j < |cs| ensures cs[i].fuseCorner <= cs[j].fuseCorner {
      CoversGrows(fmaxMap, |cs|, cs[i].fuseCorner, i, cs[j].fuseCorner, j);
    }
  }

  /** The corners from which the scan can find all fuse corners: the range check lets the
      last entry be one too large, and then the last fuse corner is left without a corner
      if the one before it has them all. */
  predicate LastHasCorner(fmaxMap: seq<nat>, count: nat) {
    |fmaxMap| == 1 || (|fmaxMap| > 1 && fmaxMap[|fmaxMap| - 2] < count)
  }

  /** The highest corner that fuse corner k can have. */
  function FmaxOf(fmaxMap: seq<nat>, count: nat, k: nat): int
    requires k < |fmaxMap|
  {
    if k + 1 == |fmaxMap| then count - 1 else fmaxMap[k] - CORNER_OFFSET
  }

  lemma FmaxIsCovered(cs: seq<Corner>, fmaxMap: seq<nat>, k: nat)
    requires MapAccepted(fmaxMap, |cs|) && Mapped(cs, fmaxMap) && k < |fmaxMap| && cs != []
    requires k + 1 < |fmaxMap| || LastHasCorner(fmaxMap, |cs|)
    ensures 0 <= FmaxOf(fmaxMap, |cs|, k) < |cs| && cs[FmaxOf(fmaxMap, |cs|, k)].fuseCorner == k
  {
    var i := FmaxOf(fmaxMap, |cs|, k);
    assert k + 1 < |fmaxMap| ==> fmaxMap[k] < fmaxMap[k + 1];
    assert 0 < k < |fmaxMap| - 1 ==> fmaxMap[k - 1] < fmaxMap[k];
    CoversGrows(fmaxMap, |cs|, cs[i].fuseCorner, i, k, i);
    CoversGrows(fmaxMap, |cs|, k, i, cs[i].fuseCorner, i);
  }

  lemma FoundIsCovered(cs: seq<Corner>, fmaxMap: seq<nat>, fmax: seq<int>, k: nat)
    requires Mapped(cs, fmaxMap) && |fmax| == |fmaxMap| && k < |fmaxMap| && Found(cs, fmax, k)
    ensures 0 <= fmax[k] < |cs| && Covers(fmaxMap, k, fmax[k]) && Highest(cs, k, fmax[k], Top(cs, fmax, k))
  {
    assert FoundAt(cs, fmax, k);
  }

  lemma TopIsAbove(cs: seq<Corner>, fmaxMap: seq<nat>, fmax: seq<int>, k: nat)
    requires Mapped(cs, fmaxMap) && |fmax| == |fmaxMap| && k < |fmaxMap| && Found(cs, fmax, k + 1)
    ensures FmaxOf(fmaxMap, |cs|, k) < Top(cs, fmax, k) <= |cs|
  {
    if k + 1 < |fmaxMap| {
      FoundIsCovered(cs, fmaxMap, fmax, k + 1);
    }
  }

  /** Where the scan finds a fuse corner, it is its highest corner. */
  lemma FoundIsFmax(cs: seq<Corner>, fmaxMap: seq<nat>, fmax: seq<int>, k: nat)
    requires MapAccepted(fmaxMap, |cs|) && Mapped(cs, fmaxMap) && |fmax| == |fmaxMap| && k < |fmaxMap| && cs != []
    requires Found(cs, fmax, k)
    ensures fmax[k] == FmaxOf(fmaxMap, |cs|, k) && (k + 1 == |fmaxMap| ==> LastHasCorner(fmaxMap, |cs|))
  {
    FoundIsCovered(cs, fmaxMap, fmax, k);
    assert Found(cs, fmax, k + 1);
    TopIsAbove(cs, fmaxMap, fmax, k);
    FmaxIsCovered(cs, fmaxMap, k);
  }

  lemma NoneMissing(cs: seq<Corner>, fmaxMap: seq<nat>, fmax: seq<int>, j: nat)
    requires MapAccepted(fmaxMap, |cs|) && Mapped(cs, fmaxMap) && |fmax| == |fmaxMap| && j < |fmaxMap| && cs != []
    requires LastHasCorner(fmaxMap, |cs|)
    ensures !Missing(cs, fmax, j)
  {
    FmaxIsCovered(cs, fmaxMap, j);
    if Found(cs, fmax, j + 1) {
      TopIsAbove(cs, fmaxMap, fmax, j);
    }
  }

  function FmaxCorners(fmaxMap: seq<nat>, count: nat): seq<int> {
    seq(|fmaxMap|, k requires 0 <= k < |fmaxMap| => FmaxOf(fmaxMap, count, k))
  }

  lemma FmaxCornersFound(cs: seq<Corner>, fmaxMap: seq<nat>)
    requires MapAccepted(fmaxMap, |cs|) && Mapped(cs, fmaxMap) && cs != [] && LastHasCorner(fmaxMap, |cs|)
    ensures Found(cs, FmaxCorners(fmaxMap, |cs|), 0)
  {
    var fmax := FmaxCorners(fmaxMap, |cs|);
    forall k | 0 <= k < |fmax| ensures FoundAt(cs, fmax, k) {
      FmaxIsCovered(cs, fmaxMap, k);
      if k + 1 < |fmax| {
        MapOrder(fmaxMap, |cs|, k, |fmaxMap| - 2);
        assert fmaxMap[k] < fmaxMap[k + 1];
      }
    }
  }

  /** With a map that was accepted, the scan finds all fuse corners exactly if the last one
      has a corner; it then finds their highest corners, the last of which is the highest. */
  lemma ScanSucceedsExactly(cs: seq<Corner>, fmaxMap: seq<nat>)
    requires MapAccepted(fmaxMap, |cs|) && Mapped(cs, fmaxMap) && cs != []
    ensures (exists fmax :: |fmax| == |fmaxMap| && Found(cs, fmax, 0)) <==> LastHasCorner(fmaxMap, |cs|)
    ensures forall fmax :: |fmax| == |fmaxMap| && Found(cs, fmax, 0) ==> fmax == FmaxCorners(fmaxMap, |cs|)
  {
    forall fmax | |fmax| == |fmaxMap| && Found(cs, fmax, 0)
      ensures fmax == FmaxCorners(fmaxMap, |cs|) && LastHasCorner(fmaxMap, |cs|)
    {
      forall k | 0 <= k < |fmax|
        ensures fmax[k] == FmaxOf(fmaxMap, |cs|, k) && (k + 1 == |fmaxMap| ==> LastHasCorner(fmaxMap, |cs|))
      {
        FoundIsFmax(cs, fmaxMap, fmax, k);
      }
      assert fmax[|fmax| - 1] == FmaxOf(fmaxMap, |cs|, |fmax| - 1);
    }
    if LastHasCorner(fmaxMap, |cs|) {
      FmaxCornersFound(cs, fmaxMap);
    }
  }

  /** The checks of the map in cpr3_parse_common_corner_data. */
  method CheckFmaxMap(fmaxMap: seq<nat>, count: nat) returns (rc: int)
    ensures rc == if MapAccepted(fmaxMap, count) then 0 else -EINVAL
  {
    for i := 0 to |fmaxMap|
      invariant MapAccepted(fmaxMap[..i], count)
    {
      if fmaxMap[i] < CORNER_OFFSET || fmaxMap[i] > count + CORNER_OFFSET {
        assert !MapAccepted(fmaxMap, count);
        return -EINVAL;
      } else if i > 0 && fmaxMap[i - 1] >= fmaxMap[i] {
        assert !MapAccepted(fmaxMap, count);
        return -EINVAL;
      }
      assert i > 0 ==> fmaxMap[..i][i - 1] == fmaxMap[i - 1];
    }
    assert fmaxMap[..|fmaxMap|] == fmaxMap;
    rc := 0;
  }

  /** The inner loop of the mapping. */
  method FindFuseCorner(fmaxMap: seq<nat>, ghost count: nat, i: nat) returns (j: nat)
    requires MapAccepted(fmaxMap, count) && fmaxMap != []
    ensures j < |fmaxMap| && Covers(fmaxMap, j, i)
  {
    j := 0;
    while j < |fmaxMap| && !(i + CORNER_OFFSET <= fmaxMap[j])
      invariant 0 <= j <= |fmaxMap| && FuseCornerFrom(fmaxMap, i, 0) == FuseCornerFrom(fmaxMap, i, j)
    {
      j := j + 1;
    }
    FuseCornerCovers(fmaxMap, count, i, 0);
    if j == |fmaxMap| {
      j := |fmaxMap| - 1;
    }
  }

  /** The checks of the map and the mapping of the corners in cpr3_parse_common_corner_data. */
  method ParseFmaxMap(corner: array<Corner>, fmaxMap: seq<nat>) returns (rc: int)
    requires fmaxMap != []
    modifies corner
    ensures rc == 0 <==> MapAccepted(fmaxMap, corner.Length)
    ensures rc == 0 ==> Mapped(corner[..], fmaxMap)
    ensures forall i :: 0 <= i < corner.Length ==>
              corner[i] == if rc == 0 then old(corner[i]).(fuseCorner := corner[i].fuseCorner) else old(corner[i])
  {
    rc := CheckFmaxMap(fmaxMap, corner.Length);
    if rc != 0 {
      return;
    }
    ghost var was := corner[..];
    for i := 0 to corner.Length
      invariant forall k :: 0 <= k < i ==> corner[k] == was[k].(fuseCorner := corner[k].fuseCorner)
      invariant forall k :: 0 <= k < i ==>
                  0 <= corner[k].fuseCorner < |fmaxMap| && Covers(fmaxMap, corner[k].fuseCorner, k)
      invariant forall k :: i <= k < corner.Length ==> corner[k] == was[k]
    {
      var j := FindFuseCorner(fmaxMap, corner.Length, i);
      corner[i] := corner[i].(fuseCorner := j);
    }
  }

  // ------------------------------------------------------- the open-loop voltages

  /** Corner i lies above the highest corner of fuse corner k - 1, up to that of k. */
  ghost predicate InSegment(fmax: seq<int>, k: int, i: int) {
    0 <= k < |fmax| && (k == 0 || fmax[k - 1] < i) && 0 <= i <= fmax[k]
  }

  /** Frequencies are unsigned 32-bit numbers that do not decrease. */
  ghost predicate FrequenciesGrow(cs: seq<Corner>) {
    (forall i :: 0 <= i < |cs| ==> cs[i].procFreq < TWO_32) &&
    (forall i, j :: 0 <= i <= j < |cs| ==> cs[i].procFreq <= cs[j].procFreq)
  }

  /** An int converted to an unsigned 64-bit number. */
  function Widened(volt: int): nat { volt % TWO_64 }

  function VoltIn(cs: seq<Corner>, fmax: seq<int>, fv: seq<int>, k: nat, i: nat): int
    requires k < |fmax| == |fv| && i < |cs|
    requires k > 0 ==> 0 <= fmax[k - 1] < |cs| && 0 <= fmax[k] < |cs| && cs[fmax[k]].procFreq < TWO_32
  {
    if k == 0 then fv[0]
    else ToInt32(Interpolate(cs[fmax[k - 1]].procFreq, Widened(fv[k - 1]), cs[fmax[k]].procFreq, Widened(fv[k]),
                             cs[i].procFreq))
  }

  /** Corner i once the first n fuse corners are done. */
  ghost predicate DoneUpTo(cs: seq<Corner>, fmax: seq<int>, fv: seq<int>, n: int, i: int, c: Corner)
    requires 0 < n <= |fmax| == |fv| && 0 <= i < |cs| && Found(cs, fmax, 0) && FrequenciesGrow(cs)
  {
    (i > fmax[n - 1] ==> c == cs[i]) &&
    forall k :: 0 <= k < n && InSegment(fmax, k, i) ==> SegmentVolt(cs, fmax, fv, k, i, c)
  }

  ghost predicate SegmentVolt(cs: seq<Corner>, fmax: seq<int>, fv: seq<int>, k: nat, i: nat, c: Corner)
    requires k < |fmax| == |fv| && i < |cs| && Found(cs, fmax, 0) && FrequenciesGrow(cs)
  {
    assert FoundAt(cs, fmax, k);
    assert k > 0 ==> FoundAt(cs, fmax, k - 1);
    c == cs[i].(openLoop := VoltIn(cs, fmax, fv, k, i))
  }

  /** The fmax corners increase strictly. */
  lemma {:induction false} FmaxGrows(cs: seq<Corner>, fmax: seq<int>, j: int, k: int)
    requires Found(cs, fmax, 0) && 0 <= j < k < |fmax|
    ensures fmax[j] < fmax[k]
    decreases k
  {
    assert FoundAt(cs, fmax, k - 1);
    if j < k - 1 {
      FmaxGrows(cs, fmax, j, k - 1);
    }
  }

  /** A corner with its voltage on the line. */
  function OnLine(c: Corner, freqLow: nat, voltLow: nat, freqHigh: nat, voltHigh: nat): Corner
    requires freqHigh < TWO_32
  {
    c.(openLoop := ToInt32(Interpolate(freqLow, voltLow, freqHigh, voltHigh, c.procFreq)))
  }

  /** One round of the interpolation loop. */
  method FillSegment(corner: array<Corner>, lo: int, hi: int, freqLow: nat, voltLow: nat, freqHigh: nat, voltHigh: nat)
    requires -1 <= lo <= hi < corner.Length && freqHigh < TWO_32
    modifies corner
    ensures forall i :: 0 <= i < corner.Length && !(lo < i <= hi) ==> corner[i] == old(corner[i])
    ensures forall i :: lo < i <= hi ==> corner[i] == OnLine(old(corner[i]), freqLow, voltLow, freqHigh, voltHigh)
  {
    for j := lo + 1 to hi + 1
      invariant forall i :: 0 <= i < corner.Length && !(lo < i < j) ==> corner[i] == old(corner[i])
      invariant forall i :: lo < i < j ==> corner[i] == OnLine(old(corner[i]), freqLow, voltLow, freqHigh, voltHigh)
    {
      var volt := ToInt32(Interpolate(freqLow, voltLow, freqHigh, voltHigh, corner[j].procFreq));
      corner[j] := corner[j].(openLoop := volt);
    }
  }

  ghost predicate FilledUpTo(cs: seq<Corner>, fmax: seq<int>, fv: seq<int>, n: int, out: seq<Corner>)
    requires 0 < n <= |fmax| == |fv| && Found(cs, fmax, 0) && FrequenciesGrow(cs)
  {
    |out| == |cs| && forall i :: 0 <= i < |cs| ==> DoneUpTo(cs, fmax, fv, n, i, out[i])
  }

  lemma OneMoreSegment(cs: seq<Corner>, fmax: seq<int>, fv: seq<int>, n: int, was: seq<Corner>, out: seq<Corner>)
    requires 0 < n < |fmax| == |fv| && Found(cs, fmax, 0) && FrequenciesGrow(cs) && FilledUpTo(cs, fmax, fv, n, was)
    requires 0 <= fmax[n - 1] < fmax[n] < |cs| == |out|
    requires forall i :: 0 <= i < |cs| && !(fmax[n - 1] < i <= fmax[n]) ==> out[i] == was[i]
    requires forall i :: fmax[n - 1] < i <= fmax[n] ==> SegmentVolt(cs, fmax, fv, n, i, out[i])
    ensures FilledUpTo(cs, fmax, fv, n + 1, out)
  {
    forall i | 0 <= i < |cs| ensures DoneUpTo(cs, fmax, fv, n + 1, i, out[i]) {
      assert DoneUpTo(cs, fmax, fv, n, i, was[i]);
      forall k | 0 <= k < n + 1 && InSegment(fmax, k, i) ensures SegmentVolt(cs, fmax, fv, k, i, out[i]) {
        if k < n - 1 {
          FmaxGrows(cs, fmax, k, n - 1);
        }
      }
    }
  }

  lemma SegmentIsFilled(cs: seq<Corner>, fmax: seq<int>, fv: seq<int>, n: int, was: seq<Corner>, out: seq<Corner>)
    requires 0 < n < |fmax| == |fv| && Found(cs, fmax, 0) && FrequenciesGrow(cs) && FilledUpTo(cs, fmax, fv, n, was)
    requires 0 <= fmax[n - 1] < fmax[n] < |cs| == |out|
    requires forall i :: 0 <= i < |cs| && !(fmax[n - 1] < i <= fmax[n]) ==> out[i] == was[i]
    requires forall i :: fmax[n - 1] < i <= fmax[n] ==>
               out[i] == OnLine(was[i], cs[fmax[n - 1]].procFreq, Widened(fv[n - 1]),
                                cs[fmax[n]].procFreq, Widened(fv[n]))
    ensures FilledUpTo(cs, fmax, fv, n + 1, out)
    ensures forall i :: 0 <= i < |cs| ==> was[i].procFreq == cs[i].procFreq ==> out[i].procFreq == cs[i].procFreq
  {
    forall i | fmax[n - 1] < i <= fmax[n] ensures SegmentVolt(cs, fmax, fv, n, i, out[i]) {
      assert DoneUpTo(cs, fmax, fv, n, i, was[i]);
    }
    OneMoreSegment(cs, fmax, fv, n, was, out);
  }

  method FillFirst(corner: array<Corner>, last: int, volt: int)
    requires 0 <= last < corner.Length
    modifies corner
    ensures forall k :: 0 <= k < corner.Length ==>
              corner[k] == if k <= last then old(corner[k]).(openLoop := volt) else old(corner[k])
  {
    for i := 0 to last + 1
      invariant forall k :: 0 <= k < corner.Length ==>
                  corner[k] == if k < i then old(corner[k]).(openLoop := volt) else old(corner[k])
    {
      corner[i] := corner[i].(openLoop := volt);
    }
  }

  /** The interpolated branch, once the fmax corners are known. */
  method FillAll(corner: array<Corner>, fmax: seq<int>, fuseVolt: array<int>)
    requires 0 < |fmax| == fuseVolt.Length && Found(corner[..], fmax, 0) && FrequenciesGrow(corner[..])
    modifies corner
    ensures FilledUpTo(old(corner[..]), fmax, fuseVolt[..], |fmax|, corner[..])
  {
    ghost var cs, fv := corner[..], fuseVolt[..];
    assert FoundAt(cs, fmax, 0);
    FillFirst(corner, fmax[0], fuseVolt[0]);
    for i := 1 to |fmax|
      invariant FilledUpTo(cs, fmax, fv, i, corner[..])
      invariant forall k :: 0 <= k < corner.Length ==> corner[k].procFreq == cs[k].procFreq
    {
      FmaxGrows(cs, fmax, i - 1, i);
      assert FoundAt(cs, fmax, i) && FoundAt(cs, fmax, i - 1);
      ghost var was := corner[..];
      FillSegment(corner, fmax[i - 1], fmax[i], corner[fmax[i - 1]].procFreq, Widened(fuseVolt[i - 1]),
                  corner[fmax[i]].procFreq, Widened(fuseVolt[i]));
      SegmentIsFilled(cs, fmax, fv, i, was, corner[..]);
    }
  }

  /** The loop that overrides decreasing fuse voltages. */
  method RaiseFuseVoltages(fuseVolt: array<int>)
    modifies fuseVolt
    ensures fuseVolt[..] == PrefixMax(old(fuseVolt[..]))
  {
    ghost var was := fuseVolt[..];
    if fuseVolt.Length > 0 {
      PrefixMaxFirst(was);
      for i := 1 to fuseVolt.Length
        invariant forall k :: 0 <= k < i ==> fuseVolt[k] == PrefixMax(was)[k]
        invariant forall k :: i <= k < |was| ==> fuseVolt[k] == was[k]
      {
        PrefixMaxNext(was, i);
        if fuseVolt[i] < fuseVolt[i - 1] {
          fuseVolt[i] := fuseVolt[i - 1];
        }
      }
    }
    assert fuseVolt[..] == PrefixMax(was);
  }

  /** cpr4_ipq807x_apss_calculate_open_loop_voltages, from the adjusted fuse voltages to the
      per-corner ones. */
  method CalculateOpenLoopVoltages(corner: array<Corner>, fuseVolt: array<int>, interpolation: bool)
    returns (rc: int, fmax: seq<int>)
    requires fuseVolt.Length > 0 && MappedInto(corner[..], fuseVolt.Length) && FrequenciesGrow(corner[..])
    modifies corner, fuseVolt
    ensures |fmax| == fuseVolt.Length && fuseVolt[..] == PrefixMax(old(fuseVolt[..]))
    ensures rc == 0 && interpolation ==> Found(old(corner[..]), fmax, 0)
    ensures rc == 0 && interpolation ==> FilledUpTo(old(corner[..]), fmax, fuseVolt[..], |fmax|, corner[..])
    ensures !interpolation ==> rc == 0 && forall i :: 0 <= i < corner.Length ==>
              corner[i] == old(corner[i]).(openLoop := PrefixMax(old(fuseVolt[..]))[old(corner[i]).fuseCorner])
    ensures rc != 0 ==> rc == -EINVAL && corner[..] == old(corner[..])
    ensures rc != 0 ==> exists j :: 0 <= j < |fmax| && Missing(corner[..], fmax, j)
  {
    fmax := seq(fuseVolt.Length, k => 0);
    ghost var cs := corner[..];
    RaiseFuseVoltages(fuseVolt);
    if !interpolation {
      for i := 0 to corner.Length
        invariant fuseVolt[..] == PrefixMax(old(fuseVolt[..]))
        invariant forall k :: 0 <= k < i ==> corner[k] == cs[k].(openLoop := fuseVolt[cs[k].fuseCorner])
        invariant forall k :: i <= k < corner.Length ==> corner[k] == cs[k]
      {
        corner[i] := corner[i].(openLoop := fuseVolt[corner[i].fuseCorner]);
      }
      return 0, fmax;
    }
    rc, fmax := FindFmaxCorners(corner, fuseVolt.Length);
    if rc == 0 {
      FillAll(corner, fmax, fuseVolt);
    }
  }

  // -------------------------------------------------------------- what comes out

  /** Fuse voltages in the range of an int, none negative. */
  ghost predicate VoltsFit(fv: seq<int>) { forall k :: 0 <= k < |fv| ==> 0 <= fv[k] <= INT_MAX }

  lemma PrefixMaxFits(s: seq<int>)
    requires VoltsFit(s)
    ensures VoltsFit(PrefixMax(s))
  {
    PrefixMaxFacts(s);
    forall i | 0 <= i < |s| ensures 0 <= PrefixMax(s)[i] <= INT_MAX {
      assert OneOfFirst(PrefixMax(s)[i], s, i + 1);
    }
  }

  /** With a monotone map, the segment of a corner is that of its fuse corner. */
  lemma SegmentOf(cs: seq<Corner>, fmax: seq<int>, i: nat)
    requires Found(cs, fmax, 0) && MonotoneMap(cs) && MappedInto(cs, |fmax|) && i < |cs|
    ensures InSegment(fmax, cs[i].fuseCorner, i)
  {
    var k := cs[i].fuseCorner;
    assert FoundAt(cs, fmax, k);
    assert k > 0 ==> FoundAt(cs, fmax, k - 1);
    assert k + 1 < |fmax| ==> FoundAt(cs, fmax, k + 1);
  }

  /** What holds of the open-loop voltages out[i] of corners mapped to k. */
  lemma VoltInFacts(cs: seq<Corner>, fmax: seq<int>, fv: seq<int>, k: nat, i: nat, j: nat)
    requires k < |fmax| == |fv| && Found(cs, fmax, 0) && FrequenciesGrow(cs) && VoltsFit(fv) && NonDecreasing(fv)
    requires i <= j < |cs| && InSegment(fmax, k, i) && InSegment(fmax, k, j)
    requires k > 0 ==> 0 <= fmax[k - 1] < |cs| && 0 <= fmax[k] < |cs|
    ensures VoltIn(cs, fmax, fv, k, i) <= VoltIn(cs, fmax, fv, k, j) <= fv[k]
    ensures k > 0 ==> fv[k - 1] <= VoltIn(cs, fmax, fv, k, i)
    ensures j == fmax[k] ==> VoltIn(cs, fmax, fv, k, j) == fv[k]
  {
    if k > 0 {
      ConvertedGrows(cs[fmax[k - 1]].procFreq, fv[k - 1], cs[fmax[k]].procFreq, fv[k], cs[i].procFreq, cs[j].procFreq);
    }
  }

  /** Interpolation between ints, and back to an int. */
  lemma ConvertedGrows(x1: nat, y1: int, x2: nat, y2: int, x: nat, z: nat)
    requires x2 < TWO_32 && 0 <= y1 <= y2 <= INT_MAX && x1 <= x <= z <= x2
    ensures var a := ToInt32(Interpolate(x1, Widened(y1), x2, Widened(y2), x));
            var b := ToInt32(Interpolate(x1, Widened(y1), x2, Widened(y2), z));
            y1 <= a <= b <= y2 && (z == x2 ==> b == y2)
  {
    Small64(y1);
    Small64(y2);
    InterpolateGrows(x1, y1, x2, y2, x, z);
    ToInt32Small(Interpolate(x1, y1, x2, y2, x));
    ToInt32Small(Interpolate(x1, y1, x2, y2, z));
  }

  /** From the fuse voltages to the corners: with frequencies and fuse corners that do not
      decrease, a successful calculation gives every corner a voltage between those of its
      fuse corner and the one below, growing over the corners; the highest corner of every
      fuse corner gets exactly its voltage, whatever the frequencies. */
  lemma InterpolatedTable(cs: seq<Corner>, fmax: seq<int>, fuse: seq<int>, out: seq<Corner>, i: nat, j: nat)
    requires 0 < |fmax| == |fuse| && Found(cs, fmax, 0) && FrequenciesGrow(cs) && MonotoneMap(cs) &&
             MappedInto(cs, |fmax|)
    requires VoltsFit(fuse) && FilledUpTo(cs, fmax, PrefixMax(fuse), |fmax|, out) && i <= j < |cs|
    ensures var fv, k := PrefixMax(fuse), cs[i].fuseCorner;
            out[i] == cs[i].(openLoop := out[i].openLoop) &&
            (if k == 0 then out[i].openLoop == fv[0] else fv[k - 1] <= out[i].openLoop <= fv[k]) &&
            (i == fmax[k] ==> out[i].openLoop == fv[k]) && out[i].openLoop <= out[j].openLoop
  {
    PrefixMaxFacts(fuse);
    PrefixMaxFits(fuse);
    CornersGrow(cs, fmax, PrefixMax(fuse), out, i, i);
    CornersGrow(cs, fmax, PrefixMax(fuse), out, i, j);
  }

  lemma CornersGrow(cs: seq<Corner>, fmax: seq<int>, fv: seq<int>, out: seq<Corner>, i: nat, j: nat)
    requires 0 < |fmax| == |fv| && Found(cs, fmax, 0) && FrequenciesGrow(cs) && MonotoneMap(cs) &&
             MappedInto(cs, |fmax|)
    requires VoltsFit(fv) && NonDecreasing(fv) && FilledUpTo(cs, fmax, fv, |fmax|, out) && i <= j < |cs|
    ensures var k := cs[i].fuseCorner;
            out[i] == cs[i].(openLoop := out[i].openLoop) &&
            (if k == 0 then out[i].openLoop == fv[0] else fv[k - 1] <= out[i].openLoop <= fv[k]) &&
            (i == fmax[k] ==> out[i].openLoop == fv[k]) && out[i].openLoop <= out[j].openLoop
  {
    var k, m := cs[i].fuseCorner, cs[j].fuseCorner;
    CornerVolt(cs, fmax, fv, out, i);
    CornerVolt(cs, fmax, fv, out, j);
    VoltInFacts(cs, fmax, fv, k, i, i);
    VoltInFacts(cs, fmax, fv, m, j, j);
    if k == m {
      VoltInFacts(cs, fmax, fv, k, i, j);
    }
  }

  lemma CornerVolt(cs: seq<Corner>, fmax: seq<int>, fv: seq<int>, out: seq<Corner>, i: nat)
    requires 0 < |fmax| == |fv| && Found(cs, fmax, 0) && FrequenciesGrow(cs) && MonotoneMap(cs) &&
             MappedInto(cs, |fmax|)
    requires FilledUpTo(cs, fmax, fv, |fmax|, out) && i < |cs|
    ensures var k := cs[i].fuseCorner;
            InSegment(fmax, k, i) && 0 <= fmax[k] < |cs| && (k > 0 ==> 0 <= fmax[k - 1] < |cs|) &&
            out[i] == cs[i].(openLoop := VoltIn(cs, fmax, fv, k, i))
  {
    var k := cs[i].fuseCorner;
    SegmentOf(cs, fmax, i);
    assert FoundAt(cs, fmax, k);
    assert k > 0 ==> FoundAt(cs, fmax, k - 1);
    assert DoneUpTo(cs, fmax, fv, |fmax|, i, out[i]);
    assert SegmentVolt(cs, fmax, fv, k, i, out[i]);
  }

  /** r is the least whole number on or above the line, or y2 if the ends are at the same place. */
  ghost predicate IsOnLine(x1: nat, y1: int, x2: nat, y2: int, x: nat, r: int) {
    if x1 == x2 then r == y2 else (r - y1 - 1) * (x2 - x1) < (x - x1) * (y2 - y1) <= (r - y1) * (x2 - x1)
  }

  lemma ConvertedOnLine(x1: nat, y1: int, x2: nat, y2: int, x: nat)
    requires x2 < TWO_32 && 0 <= y1 <= y2 <= INT_MAX && x1 <= x <= x2
    ensures IsOnLine(x1, y1, x2, y2, x, ToInt32(Interpolate(x1, Widened(y1), x2, Widened(y2), x)))
  {
    Small64(y1);
    Small64(y2);
    InterpolateGrows(x1, y1, x2, y2, x, x);
    ToInt32Small(Interpolate(x1, y1, x2, y2, x));
    if x1 < x2 {
      InterpolateHitsLine(x1, y1, x2, y2, x);
    }
  }

  /** Every other corner lies on the line between the fmax corners around it, by frequency. */
  lemma CornerOnLine(cs: seq<Corner>, fmax: seq<int>, fuse: seq<int>, out: seq<Corner>, i: nat)
    requires 0 < |fmax| == |fuse| && Found(cs, fmax, 0) && FrequenciesGrow(cs) && MonotoneMap(cs) &&
             MappedInto(cs, |fmax|)
    requires VoltsFit(fuse) && FilledUpTo(cs, fmax, PrefixMax(fuse), |fmax|, out) && i < |cs| && cs[i].fuseCorner > 0
    ensures var fv, k := PrefixMax(fuse), cs[i].fuseCorner;
            0 <= fmax[k - 1] < |cs| && 0 <= fmax[k] < |cs| &&
            IsOnLine(cs[fmax[k - 1]].procFreq, fv[k - 1], cs[fmax[k]].procFreq, fv[k], cs[i].procFreq, out[i].openLoop)
  {
    var fv, k := PrefixMax(fuse), cs[i].fuseCorner;
    PrefixMaxFacts(fuse);
    PrefixMaxFits(fuse);
    CornerVolt(cs, fmax, fv, out, i);
    SegmentOnLine(cs, fmax, fv, k, i);
  }

  lemma SegmentOnLine(cs: seq<Corner>, fmax: seq<int>, fv: seq<int>, k: nat, i: nat)
    requires 0 < k < |fmax| == |fv| && i < |cs| && FrequenciesGrow(cs) && VoltsFit(fv) && NonDecreasing(fv)
    requires 0 <= fmax[k - 1] < |cs| && 0 <= fmax[k] < |cs| && fmax[k - 1] <= i <= fmax[k]
    ensures IsOnLine(cs[fmax[k - 1]].procFreq, fv[k - 1], cs[fmax[k]].procFreq, fv[k], cs[i].procFreq,
                     VoltIn(cs, fmax, fv, k, i))
  {
    ConvertedOnLine(cs[fmax[k - 1]].procFreq, fv[k - 1], cs[fmax[k]].procFreq, fv[k], cs[i].procFreq);
  }

  ghost predicate OpenLoopsGrow(cs: seq<Corner>) {
    forall i, j :: 0 <= i <= j < |cs| ==> cs[i].openLoop <= cs[j].openLoop
  }

  /** Mapping and calculation together: they succeed exactly if the map is accepted and, with
      interpolation, the last fuse corner has a corner; the voltages then grow, and the
      highest corner gets the greatest fuse voltage. */
  method OpenLoopFromMap(corner: array<Corner>, fuseVolt: array<int>, fmaxMap: seq<nat>, interpolation: bool)
    returns (rc: int)
    requires 0 < |fmaxMap| == fuseVolt.Length && corner.Length > 0
    requires FrequenciesGrow(corner[..]) && VoltsFit(fuseVolt[..])
    modifies corner, fuseVolt
    ensures rc == 0 <==>
            MapAccepted(fmaxMap, corner.Length) && (interpolation ==> LastHasCorner(fmaxMap, corner.Length))
    ensures rc == 0 ==> OpenLoopsGrow(corner[..])
    ensures rc == 0 && LastHasCorner(fmaxMap, corner.Length) ==>
              forall k :: 0 <= k < |fmaxMap| ==>
                corner[FmaxOf(fmaxMap, corner.Length, k)].openLoop == PrefixMax(old(fuseVolt[..]))[k]
  {
    ghost var fuse := fuseVolt[..];
    rc := ParseFmaxMap(corner, fmaxMap);
    if rc != 0 {
      return;
    }
    ghost var cs := corner[..];
    MappedIsMonotone(cs, fmaxMap);
    var fmax;
    rc, fmax := CalculateOpenLoopVoltages(corner, fuseVolt, interpolation);
    if rc == 0 {
      OpenLoopFacts(cs, fmaxMap, fmax, fuse, interpolation, corner[..]);
    } else if LastHasCorner(fmaxMap, corner.Length) {
      forall j | 0 <= j < |fmax| ensures !Missing(cs, fmax, j) {
        NoneMissing(cs, fmaxMap, fmax, j);
      }
    }
  }

  lemma OpenLoopFacts(cs: seq<Corner>, fmaxMap: seq<nat>, fmax: seq<int>, fuse: seq<int>, interpolation: bool,
                      out: seq<Corner>)
    requires cs != [] && |out| == |cs| && 0 < |fmaxMap| == |fmax| == |fuse|
    requires MapAccepted(fmaxMap, |cs|) && Mapped(cs, fmaxMap) && MappedInto(cs, |fmaxMap|) && MonotoneMap(cs)
    requires FrequenciesGrow(cs) && VoltsFit(fuse)
    requires interpolation ==> Found(cs, fmax, 0) && FilledUpTo(cs, fmax, PrefixMax(fuse), |fmax|, out)
    requires !interpolation ==>
               forall i :: 0 <= i < |cs| ==> out[i] == cs[i].(openLoop := PrefixMax(fuse)[cs[i].fuseCorner])
    ensures OpenLoopsGrow(out) && (interpolation ==> LastHasCorner(fmaxMap, |cs|))
    ensures LastHasCorner(fmaxMap, |cs|) ==>
              forall k :: 0 <= k < |fmaxMap| ==>
                0 <= FmaxOf(fmaxMap, |cs|, k) < |cs| && out[FmaxOf(fmaxMap, |cs|, k)].openLoop == PrefixMax(fuse)[k]
  {
    PrefixMaxFacts(fuse);
    if interpolation {
      ScanSucceedsExactly(cs, fmaxMap);
      forall i, j | 0 <= i <= j < |cs| ensures out[i].openLoop <= out[j].openLoop {
        InterpolatedTable(cs, fmax, fuse, out, i, j);
      }
    }
    if LastHasCorner(fmaxMap, |cs|) {
      forall k | 0 <= k < |fmaxMap|
        ensures 0 <= FmaxOf(fmaxMap, |cs|, k) < |cs| && out[FmaxOf(fmaxMap, |cs|, k)].openLoop == PrefixMax(fuse)[k]
      {
        FmaxIsCovered(cs, fmaxMap, k);
        if interpolation {
          InterpolatedTable(cs, fmax, fuse, out, fmax[k], fmax[k]);
        }
      }
    }
  }

  // ----------------------------------------------------------------- per corner

  function OpenLoops(cs: seq<Corner>): seq<int> { seq(|cs|, i requires 0 <= i < |cs| => cs[i].openLoop) }

  function Sums(s: seq<int>, t: seq<int>): seq<int>
    requires |s| == |t|
  {
    seq(|s|, i requires 0 <= i < |s| => s[i] + t[i])
  }

  method AddAdjustments(corner: array<Corner>, adjust: seq<int>)
    requires |adjust| == corner.Length
    modifies corner
    ensures forall i :: 0 <= i < corner.Length ==>
              corner[i] == old(corner[i]).(openLoop := old(corner[i]).openLoop + adjust[i])
  {
    for i := 0 to corner.Length
      invariant forall k :: 0 <= k < i ==> corner[k] == old(corner[k]).(openLoop := old(corner[k]).openLoop + adjust[k])
      invariant forall k :: i <= k < corner.Length ==> corner[k] == old(corner[k])
    {
      corner[i] := corner[i].(openLoop := corner[i].openLoop + adjust[i]);
    }
  }

  /** The loop that makes the voltages grow by the minimum differences. */
  method SpaceOut(corner: array<Corner>, diff: seq<int>)
    requires |diff| == corner.Length
    modifies corner
    ensures forall i :: 0 <= i < corner.Length ==>
              corner[i] == old(corner[i]).(openLoop := SpacedAt(OpenLoops(old(corner[..])), diff, i))
  {
    ghost var cs := corner[..];
    ghost var volts := OpenLoops(cs);
    if corner.Length > 0 {
      for i := 1 to corner.Length
        invariant forall k :: 0 <= k < i ==> corner[k] == cs[k].(openLoop := SpacedAt(volts, diff, k))
        invariant forall k :: i <= k < corner.Length ==> corner[k] == cs[k]
      {
        RaiseTo(corner, i, corner[i - 1].openLoop + diff[i]);
      }
    }
  }

  method RaiseTo(corner: array<Corner>, i: nat, minVolt: int)
    requires i < corner.Length
    modifies corner
    ensures corner[i] == old(corner[i]).(openLoop := Max(old(corner[i]).openLoop, minVolt))
    ensures forall k :: 0 <= k < corner.Length && k != i ==> corner[k] == old(corner[k])
  {
    if corner[i].openLoop < minVolt {
      corner[i] := corner[i].(openLoop := minVolt);
    }
  }

  /** cpr3_adjust_open_loop_voltages, with what the device tree gives. */
  method AdjustOpenLoopVoltages(corner: array<Corner>, adjust: seq<int>, diff: seq<int>)
    requires |adjust| == |diff| == corner.Length
    modifies corner
    ensures OpenLoops(corner[..]) == Spaced(Sums(OpenLoops(old(corner[..])), adjust), diff)
    ensures forall i :: 0 <= i < corner.Length ==> corner[i] == old(corner[i]).(openLoop := corner[i].openLoop)
  {
    ghost var sums := Sums(OpenLoops(corner[..]), adjust);
    AddAdjustments(corner, adjust);
    assert OpenLoops(corner[..]) == sums;
    SpaceOut(corner, diff);
    assert OpenLoops(corner[..]) == Spaced(sums, diff);
  }

  /** What that gives is the least table that keeps every adjustment and every difference. */
  lemma AdjustedIsLeast(volts: seq<int>, adjust: seq<int>, diff: seq<int>, t: seq<int>)
    requires |volts| == |adjust| == |diff| == |t|
    ensures var r := Spaced(Sums(volts, adjust), diff);
            |r| == |volts| && Apart(r, diff) && (forall i :: 0 <= i < |r| ==> volts[i] + adjust[i] <= r[i]) &&
            (Apart(t, diff) && (forall i :: 0 <= i < |t| ==> volts[i] + adjust[i] <= t[i]) ==> AtMost(r, t))
  {
    SpacedIsLeast(Sums(volts, adjust), diff, t);
  }
}
