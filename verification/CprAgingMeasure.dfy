/** Measuring an aging sensor: sixteen readings, of which the three lowest and the three
    highest are dropped before the rest is averaged. */
module CprAgingMeasure {
  import opened CInt

  const FILTER: nat := 3
  const ITERATIONS: nat := 16
  const QUOT_MAX: int := 4095  // the quotient fields of the result register have 12 bits

  // ---------------------------------------------------------------- one reading

  /** What one iteration finds: whether the controller became idle, whether the page holds
      an aging measurement, and the result register. */
  datatype Reading = Reading(idle: bool, aging: bool, quotMin: nat, quotMax: nat, selMax: nat)
  {
    predicate Shape() { quotMin <= QUOT_MAX && quotMax <= QUOT_MAX }
  }

  /** A quotient brought to the measurement interval of the fused values, in unsigned
      32-bit arithmetic. The measurement runs with GCNT at 3/2 of the reference. */
  function Scaled(quot: nat, gcntRef: nat): nat {
    quot * ((gcntRef + 1) % TWO_32) % TWO_32 / (gcntRef * 3 % TWO_32 / 2 + 1)
  }

  function Delta(r: Reading, gcntRef: nat): int {
    var low: int, high: int := Scaled(r.quotMin, gcntRef), Scaled(r.quotMax, gcntRef);
    ToInt32(if r.selMax == 1 then high - low else low - high)
  }

  lemma ScaledFits(quot: nat, gcntRef: nat)
    requires quot <= QUOT_MAX && gcntRef < 0x10_0000
    ensures Scaled(quot, gcntRef) <= quot
  {
    Small32(gcntRef + 1);
    Small32(gcntRef * 3);
    MulMonotone(quot, gcntRef + 1, QUOT_MAX, 0x10_0000);
    Small32(quot * (gcntRef + 1));
    FractionAtMost(quot, gcntRef + 1, gcntRef * 3 / 2 + 1);
  }

  lemma FractionAtMost(q: nat, a: nat, d: nat)
    requires 0 < d && a <= d
    ensures q * a / d <= q
  {
    MulMonotone(q, a, q, d);
    DivAtMost(q * a, d, q);
  }

  /** Differences of numbers of 12 bits fit. */
  lemma DifferencesFit(a: nat, b: nat)
    requires a <= QUOT_MAX && b <= QUOT_MAX
    ensures ToInt32(a - b) == a - b && ToInt32(b - a) == b - a
  {}

  /** With a GCNT of up to 20 bits nothing wraps: quotient differences have 12 bits and a
      sign, so that neither the comparison function nor the sum overflows. */
  lemma DeltaFits(r: Reading, gcntRef: nat)
    requires r.Shape() && gcntRef < 0x10_0000
    ensures -QUOT_MAX <= Delta(r, gcntRef) <= QUOT_MAX
  {
    ScaledFits(r.quotMin, gcntRef);
    ScaledFits(r.quotMax, gcntRef);
    DifferencesFit(Scaled(r.quotMin, gcntRef), Scaled(r.quotMax, gcntRef));
  }

  /** A scaled quotient is the whole part of the quotient times the ratio of the two intervals. */
  lemma ScaledExactly(quot: nat, gcntRef: nat, y: nat)
    requires quot <= QUOT_MAX && gcntRef < 0x10_0000
    ensures y <= Scaled(quot, gcntRef) <==> y * (gcntRef * 3 / 2 + 1) <= quot * (gcntRef + 1)
  {
    Small32(gcntRef + 1);
    Small32(gcntRef * 3);
    MulMonotone(quot, gcntRef + 1, QUOT_MAX, 0x10_0000);
    Small32(quot * (gcntRef + 1));
    WholePart(quot * (gcntRef + 1), gcntRef * 3 / 2 + 1, y);
  }

  lemma WholePart(n: nat, d: nat, y: nat)
    requires d > 0
    ensures y <= n / d <==> y * d <= n
  {
    DivBounds(n, d);
    if y <= n / d {
      MulLe(y, n / d, d);
    } else {
      MulLe(n / d + 1, y, d);
      assert (n / d + 1) * d == n / d * d + d;
    }
  }

  lemma ScaledGrows(a: nat, b: nat, gcntRef: nat)
    requires a <= b <= QUOT_MAX && gcntRef < 0x10_0000
    ensures Scaled(a, gcntRef) <= Scaled(b, gcntRef)
  {
    ScaledExactly(a, gcntRef, Scaled(a, gcntRef));
    ScaledExactly(b, gcntRef, Scaled(a, gcntRef));
    MulLe(a, b, gcntRef + 1);
  }

  /** The difference is that of the greater quotient over the lesser one if the greater is of the
      second ring oscillator, and else the same with the other sign. */
  lemma DeltaExactly(r: Reading, gcntRef: nat)
    requires r.Shape() && gcntRef < 0x10_0000
    ensures var d := Scaled(r.quotMax, gcntRef) - Scaled(r.quotMin, gcntRef);
            Delta(r, gcntRef) == (if r.selMax == 1 then d else -d) && (r.quotMin <= r.quotMax ==> d >= 0)
  {
    ScaledFits(r.quotMin, gcntRef);
    ScaledFits(r.quotMax, gcntRef);
    DifferencesFit(Scaled(r.quotMin, gcntRef), Scaled(r.quotMax, gcntRef));
    if r.quotMin <= r.quotMax {
      ScaledGrows(r.quotMin, r.quotMax, gcntRef);
    }
  }

  // ------------------------------------------------------------- sorted and trimmed

  ghost predicate Sorted(s: seq<int>) { forall i, j :: 0 <= i < j < |s| ==> s[i] <= s[j] }

  function Insert(x: int, s: seq<int>): (r: seq<int>)
    ensures multiset(r) == multiset(s) + multiset{x}
  {
    if s == [] || x <= s[0] then
      assert [x] + s == [x] + s[..];
      [x] + s
    else
      assert s == [s[0]] + s[1..];
      [s[0]] + Insert(x, s[1..])
  }

  /** The kernel's sort(), for which any sorting will do. */
  function Sort(s: seq<int>): (r: seq<int>)
    ensures multiset(r) == multiset(s) && |r| == |s|
  {
    if s == [] then []
    else
      assert s == [s[0]] + s[1..];
      var r := Insert(s[0], Sort(s[1..]));
      assert |multiset(r)| == |multiset(s)|;
      r
  }

  lemma {:induction false} InsertSorted(x: int, s: seq<int>)
    requires Sorted(s)
    ensures Sorted(Insert(x, s))
  {
    if s != [] && x > s[0] {
      InsertSorted(x, s[1..]);
      var r := Insert(x, s[1..]);
      forall i | 0 <= i < |r| ensures s[0] <= r[i] {
        assert r[i] in multiset(r);
        assert r[i] == x || r[i] in s[1..];
      }
    }
  }

  lemma {:induction false} SortSorted(s: seq<int>)
    ensures Sorted(Sort(s))
  {
    if s != [] {
      SortSorted(s[1..]);
      InsertSorted(s[0], Sort(s[1..]));
    }
  }

  function Sum(s: seq<int>): int { if s == [] then 0 else Sum(s[..|s| - 1]) + s[|s| - 1] }

  function Trimmed(s: seq<int>): seq<int>
    requires |s| > 2 * FILTER
  {
    Sort(s)[FILTER..|s| - FILTER]
  }

  /** The average quotient difference, truncated toward zero. */
  function FilteredMean(s: seq<int>): int
    requires |s| > 2 * FILTER
  {
    TruncDiv(Sum(Trimmed(s)), |s| - 2 * FILTER)
  }

  /** What is averaged is what is left of the samples without the three least and the three
      greatest, and the average is that of the sum, truncated toward zero. */
  lemma FilteredMeanExactly(s: seq<int>)
    requires |s| > 2 * FILTER
    ensures var low, rest, high := Sort(s)[..FILTER], Trimmed(s), Sort(s)[|s| - FILTER..];
            |low| == |high| == FILTER && multiset(s) == multiset(low) + multiset(rest) + multiset(high) &&
            (forall i, j :: 0 <= i < |low| && 0 <= j < |rest| ==> low[i] <= rest[j]) &&
            (forall i, j :: 0 <= i < |rest| && 0 <= j < |high| ==> rest[i] <= high[j])
    ensures Truncated(Sum(Trimmed(s)), |s| - 2 * FILTER, FilteredMean(s))
  {
    SortSorted(s);
    var t := Sort(s);
    assert t == t[..FILTER] + t[FILTER..|s| - FILTER] + t[|s| - FILTER..];
    TruncDivExactly(Sum(Trimmed(s)), |s| - 2 * FILTER);
  }

  /** q is the greatest whole number of times that k goes into n. */
  ghost predicate GoesInto(n: int, k: nat, q: int) {
    q >= 0 && q * k <= n < q * k + k
  }

  /** q is a / k, truncated toward zero. */
  ghost predicate Truncated(a: int, k: nat, q: int) {
    if a >= 0 then GoesInto(a, k, q) else GoesInto(-a, k, -q)
  }

  lemma DivGoesInto(n: nat, k: nat)
    requires k > 0
    ensures GoesInto(n, k, n / k)
  {
    DivBounds(n, k);
  }

  lemma TruncDivExactly(a: int, k: nat)
    requires k > 0
    ensures Truncated(a, k, TruncDiv(a, k))
  {
    DivGoesInto(if a >= 0 then a else -a, k);
  }

  // ------------------------------------------------------------------ robustness

  /** Samples that are all outside lo..hi are among the bad ones. */
  lemma AreBad(p: multiset<int>, good: multiset<int>, bad: multiset<int>, lo: int, hi: int)
    requires p <= good + bad
    requires forall x :: x in good ==> lo <= x <= hi
    requires forall x :: x in p ==> !(lo <= x <= hi)
    ensures |p| <= |bad|
  {
    forall x ensures p[x] <= bad[x] {
      if x in p {
        assert x !in good;
      }
    }
    assert bad == p + (bad - p);
  }

  lemma Part(s: seq<int>, i: nat, j: nat)
    requires i <= j <= |s|
    ensures multiset(s[i..j]) <= multiset(s)
  {
    assert s == s[..i] + s[i..j] + s[j..];
  }

  /** If more than the filter drops were below lo, they would all be bad. */
  lemma LowEnd(t: seq<int>, good: multiset<int>, bad: multiset<int>, lo: int, hi: int)
    requires Sorted(t) && |t| > FILTER && multiset(t) == good + bad && |bad| <= FILTER
    requires forall x :: x in good ==> lo <= x <= hi
    ensures lo <= t[FILTER]
  {
    var low := t[0..FILTER + 1];
    Part(t, 0, FILTER + 1);
    if t[FILTER] < lo {
      forall x | x in multiset(low) ensures x < lo {
        assert x in low;
      }
      AreBad(multiset(low), good, bad, lo, hi);
    }
  }

  lemma HighEnd(t: seq<int>, good: multiset<int>, bad: multiset<int>, lo: int, hi: int)
    requires Sorted(t) && |t| > FILTER && multiset(t) == good + bad && |bad| <= FILTER
    requires forall x :: x in good ==> lo <= x <= hi
    ensures t[|t| - FILTER - 1] <= hi
  {
    var high := t[|t| - FILTER - 1..|t|];
    Part(t, |t| - FILTER - 1, |t|);
    if hi < t[|t| - FILTER - 1] {
      forall x | x in multiset(high) ensures hi < x {
        assert x in high;
      }
      AreBad(multiset(high), good, bad, lo, hi);
    }
  }

  lemma {:induction false} SumBounds(s: seq<int>, lo: int, hi: int)
    requires forall i :: 0 <= i < |s| ==> lo <= s[i] <= hi
    ensures |s| * lo <= Sum(s) <= |s| * hi
  {
    if s != [] {
      SumBounds(s[..|s| - 1], lo, hi);
      assert |s| * lo == (|s| - 1) * lo + lo && |s| * hi == (|s| - 1) * hi + hi;
    }
  }

  lemma TruncDivBounds(x: int, k: nat, lo: int, hi: int)
    requires k > 0 && k * lo <= x <= k * hi
    ensures lo <= TruncDiv(x, k) <= hi
  {
    if x >= 0 {
      QuotientBetween(x, k, lo, hi);
    } else {
      Negated(k, lo);
      Negated(k, hi);
      QuotientBetween(-x, k, -hi, -lo);
    }
  }

  lemma Negated(k: int, x: int)
    ensures k * -x == -(k * x)
  {}

  lemma QuotientBetween(n: nat, k: nat, lo: int, hi: int)
    requires k > 0 && k * lo <= n <= k * hi
    ensures lo <= n / k <= hi
  {
    DivAtLeast(n, k, lo);
    MulStep(hi, k);
    DivAtMost(n, k, hi);
  }

  /** The samples are good ones in lo..hi and at most three bad ones that can be anything. */
  ghost predicate Splits(s: seq<int>, good: multiset<int>, bad: multiset<int>, lo: int, hi: int) {
    multiset(s) == good + bad && |bad| <= FILTER && forall x :: x in good ==> lo <= x <= hi
  }

  ghost predicate Reliable(s: seq<int>, lo: int, hi: int) {
    exists good, bad :: Splits(s, good, bad, lo, hi)
  }

  /** At most three bad samples, wherever they lie, cannot move the average out of the
      range of the good ones. */
  lemma FilteredMeanIsRobust(s: seq<int>, lo: int, hi: int)
    requires |s| > 2 * FILTER && Reliable(s, lo, hi)
    ensures lo <= FilteredMean(s) <= hi
  {
    var good, bad :| Splits(s, good, bad, lo, hi);
    var t := Sort(s);
    SortSorted(s);
    LowEnd(t, good, bad, lo, hi);
    HighEnd(t, good, bad, lo, hi);
    SumBounds(Trimmed(s), lo, hi);
    TruncDivBounds(Sum(Trimmed(s)), |s| - 2 * FILTER, lo, hi);
  }

  lemma {:induction false} SortFixes(s: seq<int>)
    requires Sorted(s)
    ensures Sort(s) == s
  {
    if s != [] {
      SortFixes(s[1..]);
      assert s == [s[0]] + s[1..];
    }
  }

  /** n samples of which all but the last four are 0. */
  function FourHigh(n: nat, x: int): seq<int>
    requires n >= 4
  {
    seq(n, i => if i < n - 4 then 0 else x)
  }

  /** Three is the most: for every number of samples, four bad ones move the average. */
  lemma FourBadSamplesMoveTheMean(n: nat)
    requires 2 * FILTER < n
    ensures FilteredMean(FourHigh(n, n - 2 * FILTER)) == 1
  {
    var k := n - 2 * FILTER;
    var s := FourHigh(n, k);
    FourHighTrimmed(n, k);
    SumOfOneHigh(Trimmed(s));
    SelfDiv(k);
    MeanIs(s, Trimmed(s), k, 1);
  }

  lemma FourHighTrimmed(n: nat, x: nat)
    requires 2 * FILTER < n
    ensures var t := Trimmed(FourHigh(n, x));
            |t| == n - 2 * FILTER && t[|t| - 1] == x && forall i :: 0 <= i < |t| - 1 ==> t[i] == 0
  {
    FourHighSorted(n, x);
    SortFixes(FourHigh(n, x));
    TrimmedIs(FourHigh(n, x));
  }

  lemma TrimmedIs(s: seq<int>)
    requires |s| > 2 * FILTER && Sort(s) == s
    ensures Trimmed(s) == s[FILTER..|s| - FILTER]
  {}

  lemma FourHighSorted(n: nat, x: nat)
    requires 4 <= n
    ensures Sorted(FourHigh(n, x))
  {}

  lemma MeanIs(s: seq<int>, trimmed: seq<int>, sum: int, mean: int)
    requires |s| > 2 * FILTER && Trimmed(s) == trimmed && Sum(trimmed) == sum && TruncDiv(sum, |s| - 2 * FILTER) == mean
    ensures FilteredMean(s) == mean
  {}

  lemma SelfDiv(k: nat)
    requires k > 0
    ensures TruncDiv(k, k) == 1
  {
    DivUnique(k, k, 1, 0);
  }

  lemma SumOfOneHigh(t: seq<int>)
    requires t != [] && t[|t| - 1] == |t| && forall i :: 0 <= i < |t| - 1 ==> t[i] == 0
    ensures Sum(t) == |t|
  {
    SumBounds(t[..|t| - 1], 0, 0);
  }

  // ---------------------------------------------------------------- the measurement

  ghost function Collected(rs: seq<Reading>, gcntRef: nat): seq<int> {
    if rs == [] then []
    else Collected(rs[..|rs| - 1], gcntRef) + if rs[|rs| - 1].aging then [Delta(rs[|rs| - 1], gcntRef)] else []
  }

  ghost predicate AllIdle(rs: seq<Reading>) { forall i :: 0 <= i < |rs| ==> rs[i].idle }

  /** What a measurement comes to: nothing if the controller once stays busy, or if six or
      fewer readings are of the aging page. */
  ghost predicate Succeeds(rs: seq<Reading>, gcntRef: nat) {
    AllIdle(rs) && |Collected(rs, gcntRef)| > 2 * FILTER
  }

  lemma {:induction false} CollectedGrows(rs: seq<Reading>, n: nat, gcntRef: nat)
    requires n < |rs|
    ensures Collected(rs[..n + 1], gcntRef) ==
            Collected(rs[..n], gcntRef) + if rs[n].aging then [Delta(rs[n], gcntRef)] else []
  {
    assert rs[..n + 1][..n] == rs[..n];
  }

  /** Every reading of the aging page counts once, in order, and no other does. */
  lemma {:induction false} CollectedExactly(before: seq<Reading>, r: Reading, after: seq<Reading>, gcntRef: nat)
    ensures Collected(before + [r] + after, gcntRef) ==
            Collected(before, gcntRef) + (if r.aging then [Delta(r, gcntRef)] else []) + Collected(after, gcntRef)
    decreases |after|
  {
    var rs := before + [r] + after;
    if after == [] {
      assert rs[..|rs| - 1] == before;
    } else {
      assert rs[..|rs| - 1] == before + [r] + after[..|after| - 1];
      CollectedExactly(before, r, after[..|after| - 1], gcntRef);
    }
  }

  lemma SumNext(s: seq<int>, from: nat, to: nat)
    requires from <= to < |s|
    ensures Sum(s[from..to + 1]) == Sum(s[from..to]) + s[to]
  {
    assert s[from..to + 1][..to - from] == s[from..to];
  }

  method Difference(r: Reading, gcntRef: nat) returns (delta: int)
    ensures delta == Delta(r, gcntRef)
  {
    var low: int, high: int := Scaled(r.quotMin, gcntRef), Scaled(r.quotMax, gcntRef);
    delta := if r.selMax == 1 then ToInt32(high - low) else ToInt32(low - high);
  }

  /** The readings in cpr3_regulator_measure_aging, and what it makes of them. */
  method MeasureAging(readings: seq<Reading>, gcntRef: nat) returns (rc: int, quotDiff: int)
    requires |readings| == ITERATIONS
    ensures rc == 0 <==> Succeeds(readings, gcntRef)
    ensures rc == 0 ==> quotDiff == FilteredMean(Collected(readings, gcntRef))
    ensures rc == -EBUSY <==> AllIdle(readings) && !Succeeds(readings, gcntRef)
    ensures rc in {0, -EBUSY, -ETIMEDOUT}
  {
    quotDiff := 0;
    var results: seq<int> := [];
    for i := 0 to ITERATIONS
      invariant AllIdle(readings[..i]) && results == Collected(readings[..i], gcntRef)
    {
      var r := readings[i];
      CollectedGrows(readings, i, gcntRef);
      if !r.idle {
        return -ETIMEDOUT, 0;
      }
      var delta := Difference(r, gcntRef);
      if r.aging {
        results := results + [delta];
      }
    }
    assert readings[..ITERATIONS] == readings;
    if |results| - 2 * FILTER <= 0 {
      return -EBUSY, 0;
    }
    quotDiff := Average(results);
    rc := 0;
  }

  /** The second half of cpr3_regulator_measure_aging: sort, and average without both ends. */
  method Average(results: seq<int>) returns (quotDiff: int)
    requires |results| > 2 * FILTER
    ensures quotDiff == FilteredMean(results)
  {
    var filteredCount := |results| - 2 * FILTER;
    var sorted := Sort(results);
    var sum := 0;
    for i := 0 to filteredCount
      invariant sum == Sum(sorted[FILTER..FILTER + i])
    {
      SumNext(sorted, FILTER, FILTER + i);
      sum := sum + sorted[i + FILTER];
    }
    quotDiff := TruncDiv(sum, filteredCount);
  }
}
