/** The divider search of the IPQ PWM driver, the registers it programs and the
    state it reads back. All of 64-bit `unsigned long`. */
module PwmDivider {
  import opened CInt

  const NSEC_PER_SEC: nat := 1_000_000_000
  const GIGA: nat := 1_000_000_000
  const MAX_DIV: nat := 0xFFFF

  // ---------------------------------------------------------------- the search

  /** A pair of division ratios (divider value plus one) the hardware can hold with a
      100% duty cycle, and whose period is not longer than `cycles` clock cycles. */
  ghost predicate Feasible(cycles: nat, a: nat, b: nat) {
    1 <= a <= MAX_DIV && 1 <= b <= MAX_DIV && a * b <= cycles
  }

  /** No feasible pair comes closer to `cycles` than (a, b). */
  ghost predicate Closest(cycles: nat, a: nat, b: nat) {
    Feasible(cycles, a, b) &&
    forall a': nat, b': nat :: Feasible(cycles, a', b') ==> a' * b' <= a * b
  }

  /** The cycle counts for which the search finds no pair and the driver programs
      0xFFFF for both dividers. */
  predicate FallsBack(cycles: nat) {
    cycles == MAX_DIV * MAX_DIV - 1 || cycles >= (MAX_DIV + 1) * MAX_DIV
  }

  /** The first ratio the scan looks at. */
  function FirstRatio(cycles: nat): nat { cycles / (MAX_DIV + 1) + 1 }

  /** Ratio a is one the scan may choose: its partner is not smaller and fits. */
  ghost predicate Candidate(cycles: nat, a: nat)
    requires a > 0
  {
    a <= cycles / a <= MAX_DIV
  }

  /** The length in cycles of the best period with ratio a. */
  ghost function Length(cycles: nat, a: nat): nat
    requires a > 0
  {
    a * (cycles / a)
  }

  /** Dividing by n and then by a is dividing by n * a. */
  lemma DivDiv(p: nat, n: nat, a: nat)
    requires n > 0 && a > 0
    ensures n * a > 0 && p / (n * a) == (p / n) / a
    ensures p % (n * a) == p - n * (a * ((p / n) / a))
  {
    MulStep(n, a);
    var m, r := p / n, p % n;
    var q, s := m / a, m % a;
    calc {
      p;
      n * m + r;
      n * (a * q + s) + r;
      n * (a * q) + n * s + r;
      { MulAssoc(n, a, q); }
      q * (n * a) + (n * s + r);
    }
    MulLe(s, a - 1, n);
    assert (a - 1) * n == n * a - n;
    DivUnique(p, n * a, q, n * s + r);
    MulAssoc(n, a, q);
  }

  lemma MulAssoc(n: int, a: int, q: int)
    ensures n * (a * q) == q * (n * a)
  {}

  lemma ProductBelowQuotient(m: nat, a: nat, b: nat)
    requires a > 0 && a * b <= m
    ensures b <= m / a
  {
    assert (b - m / a) * a == a * b - a * (m / a);
    assert a * (m / a) + m % a == m;
    MulStep(b - m / a, a);
  }

  lemma QuotientAntitone(m: nat, a: nat, b: nat)
    requires 0 < a <= b
    ensures m / b <= m / a
  {
    assert b * (m / b) + m % b == m;
    MulLe(a, b, m / b);
    ProductBelowQuotient(m, a, m / b);
  }

  /** Once a ratio exceeds its partner, so do all larger ones. */
  lemma NoCandidateAfter(m: nat, a: nat, a': nat)
    requires 0 < a <= a' && m / a < a
    ensures !Candidate(m, a')
  {
    QuotientAntitone(m, a, a');
  }

  lemma FirstPartnerFits(m: nat)
    ensures m / FirstRatio(m) <= MAX_DIV
  {
    var a := FirstRatio(m);
    assert m < a * (MAX_DIV + 1);
    assert a * (m / a) <= m;
    assert (m / a - (MAX_DIV + 1)) * a < 0;
    MulStep(m / a - MAX_DIV, a);
  }

  lemma FirstIsCandidate(m: nat)
    requires m >= 1 && !FallsBack(m)
    ensures FirstRatio(m) <= MAX_DIV && Candidate(m, FirstRatio(m))
  {
    var k := m / (MAX_DIV + 1);
    assert m == k * (MAX_DIV + 1) + m % (MAX_DIV + 1);
    assert (k + 1) * (k + 1) <= m by {
      if k <= MAX_DIV - 2 {
        MulLe(k, MAX_DIV - 2, k);
        assert (k + 1) * (k + 1) == k * k + 2 * k + 1;
      }
    }
    ProductBelowQuotient(m, k + 1, k + 1);
    FirstPartnerFits(m);
  }

  lemma FallbackHasNoCandidate(m: nat, a: nat)
    requires FallsBack(m) && FirstRatio(m) <= a <= MAX_DIV + 1
    ensures !Candidate(m, a)
  {
    if m == MAX_DIV * MAX_DIV - 1 {
      assert FirstRatio(m) == MAX_DIV;
      assert m / MAX_DIV == MAX_DIV - 1;
      NoCandidateAfter(m, MAX_DIV, a);
    } else {
      assert m / (MAX_DIV + 1) >= MAX_DIV;
    }
  }

  /** Why skipping the small ratios loses nothing: the first one scanned already does
      at least as well as any pair with a smaller ratio. */
  lemma SkippedAreNoBetter(m: nat, a: nat, b: nat)
    requires 1 <= a < FirstRatio(m) && b <= MAX_DIV
    ensures a * b <= Length(m, FirstRatio(m))
  {
    var k := m / (MAX_DIV + 1);
    MulLe(a, k, b);
    MulLe(b, MAX_DIV, k);
    assert k * (MAX_DIV + 1) <= m;
    assert (k + 1) * (m / (k + 1)) + m % (k + 1) == m;
  }

  /** A pair with its ratios in order is no better than some scanned candidate. */
  lemma OrderedPairIsCovered(m: nat, lo: nat, hi: nat) returns (a: nat)
    requires m >= 1 && !FallsBack(m) && Feasible(m, lo, hi) && lo <= hi
    ensures FirstRatio(m) <= a <= MAX_DIV && Candidate(m, a) && lo * hi <= Length(m, a)
  {
    if lo < FirstRatio(m) {
      a := FirstRatio(m);
      FirstIsCandidate(m);
      SkippedAreNoBetter(m, lo, hi);
    } else {
      a := lo;
      ProductBelowQuotient(m, lo, hi);
      QuotientAntitone(m, FirstRatio(m), lo);
      FirstPartnerFits(m);
      MulLe(hi, m / lo, lo);
    }
  }

  /** The pruned scan is as good as an exhaustive one: a candidate that no scanned
      candidate beats is beaten by no feasible pair at all. */
  lemma PrunedScanIsOptimal(m: nat, best: nat)
    requires m >= 1 && !FallsBack(m)
    requires FirstRatio(m) <= best <= MAX_DIV && Candidate(m, best)
    requires forall a :: FirstRatio(m) <= a <= MAX_DIV && Candidate(m, a) ==> Length(m, a) <= Length(m, best)
    ensures Closest(m, best, m / best)
  {
    assert best * (m / best) + m % best == m;
    forall a: nat, b: nat | Feasible(m, a, b)
      ensures a * b <= best * (m / best)
    {
      var c := OrderedPairIsCovered(m, if a <= b then a else b, if a <= b then b else a);
    }
  }

  /** Up to 4 GHz, and for every period the driver can be asked for, the search succeeds. */
  lemma NoFallbackUpTo4GHz(period: nat, rate: nat)
    requires period <= NSEC_PER_SEC && rate <= 4 * GIGA
    ensures !FallsBack(period * rate / NSEC_PER_SEC)
  {
    MulLe(period, NSEC_PER_SEC, rate);
  }

  /** The dividers the driver settles on for a period of `cycles` clock cycles: the
      closest pair, with the larger divider on the PWM side and, among the pairs the
      scan looked at, the smallest pre-divider. */
  ghost predicate Chosen(cycles: nat, pre: nat, pwm: nat) {
    if FallsBack(cycles) then pre == pwm == MAX_DIV
    else
      Closest(cycles, pre + 1, pwm + 1) && pre <= pwm && pwm + 1 == cycles / (pre + 1) &&
      forall a :: FirstRatio(cycles) <= a <= pre && Candidate(cycles, a) ==> Length(cycles, a) < (pre + 1) * (pwm + 1)
  }

  /** What the scan has established before it looks at ratio a. */
  ghost predicate Scanned(periodRate: nat, a: nat, bestPre: nat, bestPwm: nat, minDiff: nat) {
    var m := periodRate / NSEC_PER_SEC;
    if minDiff == periodRate then
      bestPre == bestPwm == MAX_DIV &&
      forall a' :: FirstRatio(m) <= a' < a ==> !Candidate(m, a')
    else
      FirstRatio(m) <= bestPre + 1 <= MAX_DIV && Candidate(m, bestPre + 1) &&
      bestPwm + 1 == m / (bestPre + 1) &&
      minDiff == periodRate - NSEC_PER_SEC * Length(m, bestPre + 1) &&
      (forall a' :: FirstRatio(m) <= a' < a && Candidate(m, a') ==> Length(m, a') <= Length(m, bestPre + 1)) &&
      forall a' :: FirstRatio(m) <= a' <= bestPre && Candidate(m, a') ==> Length(m, a') < Length(m, bestPre + 1)
  }

  lemma LengthFits(periodRate: nat, a: nat)
    requires a > 0
    ensures NSEC_PER_SEC * Length(periodRate / NSEC_PER_SEC, a) <= periodRate
  {
    var m := periodRate / NSEC_PER_SEC;
    assert a * (m / a) <= m;
    assert NSEC_PER_SEC * (a * (m / a)) <= NSEC_PER_SEC * m;
  }

  /** The scan ends with the closest pair, except that the fallback pair is too long for the
      two cases that it is used in. */
  lemma ScanConcludes(periodRate: nat, a: nat, bestPre: nat, bestPwm: nat, minDiff: nat)
    requires NSEC_PER_SEC <= periodRate && a >= MAX_DIV + 1
    requires Scanned(periodRate, a, bestPre, bestPwm, minDiff)
    ensures var m := periodRate / NSEC_PER_SEC;
            Chosen(m, bestPre, bestPwm) && (Closest(m, bestPre + 1, bestPwm + 1) <==> !FallsBack(m))
  {
    var m := periodRate / NSEC_PER_SEC;
    if FallsBack(m) {
      forall a' | FirstRatio(m) <= a' < MAX_DIV + 1 ensures !Candidate(m, a') {
        FallbackHasNoCandidate(m, a');
      }
    } else {
      FirstIsCandidate(m);
      PrunedScanIsOptimal(m, bestPre + 1);
    }
  }

  /** What the body of the loop finds out about ratio preDiv + 1, from what PwmDivFor gives. */
  ghost predicate Tried(periodRate: nat, preDiv: nat, pwmDiv: nat, remainder: nat) {
    var m, a := periodRate / NSEC_PER_SEC, preDiv + 1;
    pwmDiv == (if m / a == 0 then TWO_32 - 1 else m / a - 1) && m / a <= MAX_DIV &&
    remainder == periodRate - NSEC_PER_SEC * Length(m, a)
  }

  lemma TriedByDivision(periodRate: nat, a: nat)
    requires a >= FirstRatio(periodRate / NSEC_PER_SEC)
    ensures var m, q := periodRate / NSEC_PER_SEC, periodRate / (NSEC_PER_SEC * a);
            q % TWO_32 == q == m / a <= MAX_DIV &&
            periodRate % (NSEC_PER_SEC * a) == periodRate - NSEC_PER_SEC * Length(m, a)
  {
    var m := periodRate / NSEC_PER_SEC;
    DivDiv(periodRate, NSEC_PER_SEC, a);
    QuotientAntitone(m, FirstRatio(m), a);
    FirstPartnerFits(m);
    Small32(m / a);
  }

  /** div64_u64_rem for one ratio, with the decrement on an unsigned int. */
  method PwmDivFor(periodRate: nat, preDiv: nat) returns (pwmDiv: nat, remainder: nat)
    requires NSEC_PER_SEC <= periodRate && preDiv + 1 >= FirstRatio(periodRate / NSEC_PER_SEC)
    ensures Tried(periodRate, preDiv, pwmDiv, remainder)
  {
    TriedByDivision(periodRate, preDiv + 1);
    remainder := periodRate % (NSEC_PER_SEC * (preDiv + 1));
    pwmDiv := periodRate / (NSEC_PER_SEC * (preDiv + 1)) % TWO_32;
    pwmDiv := if pwmDiv == 0 then TWO_32 - 1 else pwmDiv - 1;
  }

  lemma ScanStops(periodRate: nat, a: nat, bestPre: nat, bestPwm: nat, minDiff: nat)
    requires 0 < a <= MAX_DIV + 1 && Scanned(periodRate, a, bestPre, bestPwm, minDiff)
    requires periodRate / NSEC_PER_SEC / a < a
    ensures Scanned(periodRate, MAX_DIV + 1, bestPre, bestPwm, minDiff)
    ensures Scanned(periodRate, a + 1, bestPre, bestPwm, minDiff)
  {
    var m := periodRate / NSEC_PER_SEC;
    forall a' | a <= a' ensures !Candidate(m, a') {
      NoCandidateAfter(m, a, a');
    }
  }

  lemma ScanPerfect(periodRate: nat, a: nat, bestPre: nat, bestPwm: nat, minDiff: nat)
    requires Scanned(periodRate, a, bestPre, bestPwm, minDiff) && minDiff == 0 < periodRate
    ensures Scanned(periodRate, MAX_DIV + 1, bestPre, bestPwm, minDiff)
  {
    var m := periodRate / NSEC_PER_SEC;
    forall a' | FirstRatio(m) <= a' ensures Length(m, a') <= Length(m, bestPre + 1) {
      LengthFits(periodRate, a');
    }
  }

  lemma ScanAdvances(periodRate: nat, a: nat, bestPre: nat, bestPwm: nat, minDiff: nat)
    requires NSEC_PER_SEC <= periodRate && Scanned(periodRate, a, bestPre, bestPwm, minDiff)
    requires var m := periodRate / NSEC_PER_SEC; FirstRatio(m) <= a <= MAX_DIV && Candidate(m, a)
    ensures var m := periodRate / NSEC_PER_SEC;
            var remainder := periodRate - NSEC_PER_SEC * Length(m, a);
            if 0 <= remainder < minDiff then Scanned(periodRate, a + 1, a - 1, m / a - 1, remainder)
            else Scanned(periodRate, a + 1, bestPre, bestPwm, minDiff)
  {
    var m := periodRate / NSEC_PER_SEC;
    LengthFits(periodRate, a);
    MulLe(1, m / a, a);
    assert Length(m, a) >= 1;
  }

  lemma ScanStarts(periodRate: nat)
    ensures periodRate / (NSEC_PER_SEC * (MAX_DIV + 1)) + 1 == FirstRatio(periodRate / NSEC_PER_SEC)
    ensures Scanned(periodRate, FirstRatio(periodRate / NSEC_PER_SEC), MAX_DIV, MAX_DIV, periodRate)
  {
    DivDiv(periodRate, NSEC_PER_SEC, MAX_DIV + 1);
  }

  lemma TriedStops(periodRate: nat, preDiv: nat, pwmDiv: nat, remainder: nat, bestPre: nat, bestPwm: nat, minDiff: nat)
    requires preDiv <= MAX_DIV && Tried(periodRate, preDiv, pwmDiv, remainder)
    requires Scanned(periodRate, preDiv + 1, bestPre, bestPwm, minDiff)
    requires preDiv > pwmDiv || pwmDiv > MAX_DIV - 1
    ensures Scanned(periodRate, MAX_DIV + 1, bestPre, bestPwm, minDiff)
    ensures Scanned(periodRate, preDiv + 2, bestPre, bestPwm, minDiff)
  {
    ScanStops(periodRate, preDiv + 1, bestPre, bestPwm, minDiff);
  }

  lemma TriedAdvances(periodRate: nat, preDiv: nat, pwmDiv: nat, remainder: nat, bestPre: nat, bestPwm: nat,
                      minDiff: nat)
    requires NSEC_PER_SEC <= periodRate && FirstRatio(periodRate / NSEC_PER_SEC) <= preDiv + 1
    requires Tried(periodRate, preDiv, pwmDiv, remainder) && preDiv <= pwmDiv <= MAX_DIV - 1
    requires Scanned(periodRate, preDiv + 1, bestPre, bestPwm, minDiff)
    ensures if remainder < minDiff then Scanned(periodRate, preDiv + 2, preDiv, pwmDiv, remainder)
            else Scanned(periodRate, preDiv + 2, bestPre, bestPwm, minDiff)
  {
    ScanAdvances(periodRate, preDiv + 1, bestPre, bestPwm, minDiff);
  }

  /** The loop of `ipq_pwm_apply`. What it has seen is every ratio up to MAX_DIV, or enough. */
  method ScanDividers(periodRate: nat) returns (bestPre: nat, bestPwm: nat, minDiff: nat)
    requires NSEC_PER_SEC <= periodRate < TWO_64
    ensures exists seen :: seen >= MAX_DIV + 1 && Scanned(periodRate, seen, bestPre, bestPwm, minDiff)
  {
    ghost var m := periodRate / NSEC_PER_SEC;
    bestPre, bestPwm := MAX_DIV, MAX_DIV;
    var preDiv := periodRate / (NSEC_PER_SEC * (MAX_DIV + 1));
    minDiff := periodRate;
    ghost var seen := preDiv + 1;
    ScanStarts(periodRate);
    while preDiv <= MAX_DIV
      invariant FirstRatio(m) <= seen == preDiv + 1
      invariant Scanned(periodRate, seen, bestPre, bestPwm, minDiff)
    {
      var pwmDiv, remainder := PwmDivFor(periodRate, preDiv);
      if preDiv > pwmDiv {
        TriedStops(periodRate, preDiv, pwmDiv, remainder, bestPre, bestPwm, minDiff);
        seen := MAX_DIV + 1;
        break;
      }
      if pwmDiv > MAX_DIV - 1 {
        TriedStops(periodRate, preDiv, pwmDiv, remainder, bestPre, bestPwm, minDiff);
        preDiv, seen := preDiv + 1, seen + 1;
        continue;
      }
      TriedAdvances(periodRate, preDiv, pwmDiv, remainder, bestPre, bestPwm, minDiff);
      if remainder < minDiff {
        bestPre, bestPwm, minDiff := preDiv, pwmDiv, remainder;
        if minDiff == 0 {
          ScanPerfect(periodRate, seen + 1, bestPre, bestPwm, minDiff);
          seen := MAX_DIV + 1;
          break;
        }
      }
      preDiv, seen := preDiv + 1, seen + 1;
    }
  }

  /** The search of `ipq_pwm_apply`. The pair it returns is closest exactly when the
      cycle count is not one of the two fallback cases. */
  method SearchDividers(periodRate: nat) returns (bestPre: nat, bestPwm: nat)
    requires NSEC_PER_SEC <= periodRate < TWO_64
    ensures Chosen(periodRate / NSEC_PER_SEC, bestPre, bestPwm)
    ensures var m := periodRate / NSEC_PER_SEC;
            Closest(m, bestPre + 1, bestPwm + 1) <==> !FallsBack(m)
  {
    var minDiff: nat;
    bestPre, bestPwm, minDiff := ScanDividers(periodRate);
    ghost var seen: nat :| seen >= MAX_DIV + 1 && Scanned(periodRate, seen, bestPre, bestPwm, minDiff);
    ScanConcludes(periodRate, seen, bestPre, bestPwm, minDiff);
  }

  // ------------------------------------------------------- registers and state

  const UPDATE_BIT: nat := 0x4000_0000
  const ENABLE_BIT: nat := 0x8000_0000

  function PwmDiv(reg0: nat): nat { reg0 % 0x1_0000 }

  function HiDur(reg0: nat): nat { reg0 / 0x1_0000 % 0x1_0000 }

  function PreDiv(reg1: nat): nat { reg1 % 0x1_0000 }

  function Flags(reg1: nat): nat { reg1 - PreDiv(reg1) }

  datatype Request = Request(normalPolarity: bool, period: nat, duty: nat, enabled: bool) {
    ghost predicate Fits() { period < TWO_64 && duty < TWO_64 }

    function PeriodNs(): nat { Min(period, NSEC_PER_SEC) }

    function DutyNs(): nat { Min(duty, PeriodNs()) }

    ghost function Cycles(rate: nat): nat { PeriodNs() * rate / NSEC_PER_SEC }
  }

  /** DIV64_U64_ROUND_UP on 64-bit operands. */
  function CeilDiv64(n: nat, d: nat): nat
    requires d > 0
  {
    (n + d - 1) % TWO_64 / d
  }

  /** The return code of `ipq_pwm_apply`. */
  function Verdict(req: Request, rate: nat): int
    requires rate > 0
  {
    if !req.normalPolarity then -EINVAL
    else if req.period < CeilDiv64(NSEC_PER_SEC, rate) then -ERANGE
    else if rate > 16 * GIGA then -EINVAL
    else 0
  }

  lemma CeilDivGalois(x: nat, d: nat, y: nat)
    requires d > 0 && x + d <= TWO_64
    ensures CeilDiv64(x, d) <= y <==> x <= y * d
  {
    var q := CeilDiv64(x, d);
    assert q == (x + d - 1) / d by { assert (x + d - 1) % TWO_64 == x + d - 1; }
    DivBounds(x + d - 1, d);
    CeilGalois(x, d, q, y);
  }

  lemma CeilGalois(x: nat, d: nat, q: nat, y: nat)
    requires d > 0 && q * d <= x + d - 1 < q * d + d
    ensures q <= y <==> x <= y * d
  {
    if q <= y {
      MulLe(q, y, d);
    } else {
      MulLe(y, q - 1, d);
      assert (q - 1) * d == q * d - d;
    }
  }

  lemma CeilDivMonotone(x: nat, x': nat, d: nat)
    requires d > 0 && x <= x' && x' + d <= TWO_64
    ensures CeilDiv64(x, d) <= CeilDiv64(x', d)
  {
    CeilDivGalois(x', d, CeilDiv64(x', d));
    CeilDivGalois(x, d, CeilDiv64(x', d));
  }

  /** A request is accepted exactly when its polarity is normal, the clock is not above
      16 GHz and the period is at least one clock cycle. */
  lemma AcceptedIffOneCycle(req: Request, rate: nat)
    requires rate > 0
    ensures Verdict(req, rate) == 0 <==> req.normalPolarity && rate <= 16 * GIGA && NSEC_PER_SEC <= req.period * rate
    ensures Verdict(req, rate) == 0 ==> NSEC_PER_SEC <= req.PeriodNs() * rate < TWO_64
  {
    if rate <= 16 * GIGA {
      CeilDivGalois(NSEC_PER_SEC, rate, req.period);
      MulLe(req.PeriodNs(), NSEC_PER_SEC, rate);
      MulLe(1, rate, NSEC_PER_SEC);
    }
  }

  /** Why a request is refused: its period is less than one clock cycle, or its polarity or the clock
      are not supported; the polarity is looked at first and the clock last. */
  lemma VerdictExactly(req: Request, rate: nat)
    requires 0 < rate && NSEC_PER_SEC + rate <= TWO_64
    ensures Verdict(req, rate) == -ERANGE <==> req.normalPolarity && req.period * rate < NSEC_PER_SEC
    ensures Verdict(req, rate) == -EINVAL <==>
            !req.normalPolarity || (NSEC_PER_SEC <= req.period * rate && rate > 16 * GIGA)
    ensures Verdict(req, rate) in {0, -ERANGE, -EINVAL}
  {
    CeilDivGalois(NSEC_PER_SEC, rate, req.period);
  }

  /** The registers hold what an accepted request asks for. */
  ghost predicate Programs(req: Request, rate: nat, reg0: nat, reg1: nat) {
    Chosen(req.Cycles(rate), PreDiv(reg1), PwmDiv(reg0)) &&
    HiDur(reg0) == req.DutyNs() * rate / ((PreDiv(reg1) + 1) * NSEC_PER_SEC) % 0x1_0000 &&
    Flags(reg1) == UPDATE_BIT + (if req.enabled then ENABLE_BIT else 0)
  }

  class Pwm {
    var reg0: nat
    var reg1: nat
    ghost var writes: seq<(nat, nat)>  // register offset and value, in order

    method WriteReg(off: nat, val: nat)
      requires off == 0 || off == 4
      modifies this
      ensures writes == old(writes) + [(off, val)]
      ensures reg0 == (if off == 0 then val else old(reg0)) && reg1 == (if off == 4 then val else old(reg1))
    {
      if off == 0 { reg0 := val; } else { reg1 := val; }
      writes := writes + [(off, val)];
    }

    method ConfigDivAndDuty(preDiv: nat, pwmDiv: nat, rate: nat, dutyNs: nat, enable: bool)
      requires preDiv <= MAX_DIV && pwmDiv <= MAX_DIV && dutyNs * rate < TWO_64
      modifies this
      ensures PreDiv(reg1) == preDiv && PwmDiv(reg0) == pwmDiv
      ensures HiDur(reg0) == dutyNs * rate / ((preDiv + 1) * NSEC_PER_SEC) % 0x1_0000
      ensures Flags(reg1) == UPDATE_BIT + (if enable then ENABLE_BIT else 0)
      ensures writes == old(writes) + [(0, reg0), (4, preDiv), (4, reg1)]
    {
      var hiDur := dutyNs * rate / ((preDiv + 1) * NSEC_PER_SEC);
      // FIELD_PREP keeps the 16 bits of a field
      var val := hiDur % 0x1_0000 * 0x1_0000 + pwmDiv;
      WriteReg(0, val);
      val := preDiv;
      WriteReg(4, val);
      val := val + UPDATE_BIT;
      if enable {
        val := val + ENABLE_BIT;
      }
      WriteReg(4, val);
    }

    /** `ipq_pwm_apply`: on success the registers program the closest period. */
    method Apply(req: Request, rate: nat) returns (rc: int)
      requires 0 < rate < TWO_64 && req.Fits()
      modifies this
      ensures rc == Verdict(req, rate)
      ensures rc == 0 ==> Programs(req, rate, reg0, reg1)
      ensures rc == 0 ==> writes == old(writes) + [(0, reg0), (4, PreDiv(reg1)), (4, reg1)]
      ensures rc != 0 ==> reg0 == old(reg0) && reg1 == old(reg1) && writes == old(writes)
    {
      if !req.normalPolarity {
        return -EINVAL;
      }
      if req.period < CeilDiv64(NSEC_PER_SEC, rate) {
        return -ERANGE;
      }
      var periodNs := Min(req.period, NSEC_PER_SEC);
      var dutyNs := Min(req.duty, periodNs);
      if rate > 16 * GIGA {
        return -EINVAL;
      }
      AcceptedIffOneCycle(req, rate);
      MulLe(dutyNs, periodNs, rate);
      var periodRate := periodNs * rate;
      var preDiv, pwmDiv := SearchDividers(periodRate);
      ConfigDivAndDuty(preDiv, pwmDiv, rate, dutyNs, req.enabled);
      return 0;
    }

    /** `ipq_pwm_get_state`. */
    method GetState(rate: nat) returns (enabled: bool, period: nat, duty: nat)
      requires rate > 0
      ensures enabled == (reg1 / ENABLE_BIT % 2 == 1)
      ensures period == ReadPeriod(reg0, reg1, rate) && duty == ReadDuty(reg0, reg1, rate)
    {
      var r0, r1 := reg0, reg1;
      enabled := r1 / ENABLE_BIT % 2 == 1;
      var pwmDiv, hiDur, preDiv := PwmDiv(r0), HiDur(r0), PreDiv(r1);
      var effectiveDiv := (preDiv + 1) * (pwmDiv + 1);
      period := CeilDiv64(effectiveDiv * NSEC_PER_SEC, rate);
      // an unsigned int product
      var hiDiv := hiDur * (preDiv + 1) % TWO_32;
      duty := CeilDiv64(hiDiv * NSEC_PER_SEC, rate);
    }
  }

  function ReadPeriod(reg0: nat, reg1: nat, rate: nat): nat
    requires rate > 0
  {
    CeilDiv64((PreDiv(reg1) + 1) * (PwmDiv(reg0) + 1) * NSEC_PER_SEC, rate)
  }

  function ReadDuty(reg0: nat, reg1: nat, rate: nat): nat
    requires rate > 0
  {
    CeilDiv64(HiDur(reg0) * (PreDiv(reg1) + 1) % TWO_32 * NSEC_PER_SEC, rate)
  }

  // -------------------------------------------------------------- round trips

  /** x is at most n whole units exactly when x / unit is at most n. */
  lemma WholeUnits(x: nat, n: nat)
    ensures n * NSEC_PER_SEC <= x <==> n <= x / NSEC_PER_SEC
  {}

  /** The period read back is never longer than the (capped) request, except exactly when
      the fallback dividers make it longer than the requested cycle count. */
  lemma ReadPeriodBound(req: Request, rate: nat, reg0: nat, reg1: nat)
    requires 0 < rate && Verdict(req, rate) == 0 && Programs(req, rate, reg0, reg1)
    ensures ReadPeriod(reg0, reg1, rate) <= req.PeriodNs()
            <==> !FallsBack(req.Cycles(rate)) || req.Cycles(rate) >= TWO_32
  {
    ProductFits(PreDiv(reg1), PwmDiv(reg0), rate);
    var length := (PreDiv(reg1) + 1) * (PwmDiv(reg0) + 1);
    CeilDivGalois(length * NSEC_PER_SEC, rate, req.PeriodNs());
    WholeUnits(req.PeriodNs() * rate, length);
  }

  lemma ProductFits(preDiv: nat, pwmDiv: nat, rate: nat)
    requires preDiv <= MAX_DIV && pwmDiv <= MAX_DIV && rate <= 16 * GIGA
    ensures 0 <= (preDiv + 1) * (pwmDiv + 1) && (preDiv + 1) * (pwmDiv + 1) * NSEC_PER_SEC + rate <= TWO_64
  {
    MulMonotone(preDiv + 1, pwmDiv + 1, MAX_DIV + 1, MAX_DIV + 1);
  }

  /** The duty cycle read back is at most the requested one (capped at the period), and
      at most the period read back. */
  lemma ReadDutyBound(req: Request, rate: nat, reg0: nat, reg1: nat)
    requires 0 < rate && Verdict(req, rate) == 0 && Programs(req, rate, reg0, reg1)
    ensures ReadDuty(reg0, reg1, rate) <= req.DutyNs()
    ensures ReadDuty(reg0, reg1, rate) <= ReadPeriod(reg0, reg1, rate)
  {
    HighDurationFits(req, rate, reg0, reg1);
    DutyBelow(HiDur(reg0), PreDiv(reg1) + 1, PwmDiv(reg0) + 1, rate, req.DutyNs());
  }

  lemma DutyBelow(hi: nat, a: nat, b: nat, rate: nat, duty: nat)
    requires 0 < rate <= 16 * GIGA && hi <= b && hi <= MAX_DIV && a <= MAX_DIV + 1 && b <= MAX_DIV + 1
    requires hi * a * NSEC_PER_SEC <= duty * rate
    ensures CeilDiv64(hi * a % TWO_32 * NSEC_PER_SEC, rate) <= duty
    ensures CeilDiv64(hi * a % TWO_32 * NSEC_PER_SEC, rate) <= CeilDiv64(a * b * NSEC_PER_SEC, rate)
  {
    MulMonotone(hi, a, MAX_DIV, MAX_DIV + 1);
    MulMonotone(a, b, MAX_DIV + 1, MAX_DIV + 1);
    MulLe(hi, b, a);
    ShorterDuty(hi * a, a * b, rate, duty);
  }

  lemma ShorterDuty(x: nat, y: nat, rate: nat, duty: nat)
    requires 0 < rate <= 16 * GIGA && x <= y <= TWO_32 && x < TWO_32 && x * NSEC_PER_SEC <= duty * rate
    ensures CeilDiv64(x % TWO_32 * NSEC_PER_SEC, rate) <= duty
    ensures CeilDiv64(x % TWO_32 * NSEC_PER_SEC, rate) <= CeilDiv64(y * NSEC_PER_SEC, rate)
  {
    Small32(x);
    CeilDivGalois(x * NSEC_PER_SEC, rate, duty);
    CeilDivMonotone(x * NSEC_PER_SEC, y * NSEC_PER_SEC, rate);
  }

  /** The duty cycle asked for is capped by the period, and that by a second. */
  lemma DutyIsCapped(req: Request)
    ensures req.DutyNs() in {req.duty, req.period, NSEC_PER_SEC}
    ensures req.DutyNs() <= req.duty && req.DutyNs() <= req.PeriodNs() <= req.period && req.PeriodNs() <= NSEC_PER_SEC
  {}

  /** Unless the fallback dividers are used, the high duration is the longest that does not exceed
      the duty cycle: a number h of divided cycles fits exactly if it is not larger. */
  lemma HighDurationIsLongest(req: Request, rate: nat, reg0: nat, reg1: nat, h: nat)
    requires 0 < rate && Verdict(req, rate) == 0 && Programs(req, rate, reg0, reg1) && !FallsBack(req.Cycles(rate))
    ensures h <= HiDur(reg0) <==> h * (PreDiv(reg1) + 1) * NSEC_PER_SEC <= req.DutyNs() * rate
  {
    HighDurationIsQuotient(req, rate, reg0, reg1);
    LongestFits(req.DutyNs() * rate, PreDiv(reg1) + 1, HiDur(reg0), h);
  }

  lemma LongestFits(d: nat, a: nat, hi: nat, h: nat)
    requires a > 0 && hi == d / NSEC_PER_SEC / a
    ensures h <= hi <==> h * a * NSEC_PER_SEC <= d
  {
    WholeMultiples(d / NSEC_PER_SEC, a, h);
    WholeUnits(d, h * a);
  }

  lemma HighDurationIsQuotient(req: Request, rate: nat, reg0: nat, reg1: nat)
    requires Programs(req, rate, reg0, reg1) && !FallsBack(req.Cycles(rate))
    ensures HiDur(reg0) == req.DutyNs() * rate / NSEC_PER_SEC / (PreDiv(reg1) + 1)
  {
    var d, p, a := req.DutyNs() * rate, req.PeriodNs() * rate, PreDiv(reg1) + 1;
    MulLe(req.DutyNs(), req.PeriodNs(), rate);
    ChosenQuotient(p / NSEC_PER_SEC, PreDiv(reg1), PwmDiv(reg0));
    NotCutOff(d, p, a, HiDur(reg0));
  }

  lemma NotCutOff(d: nat, p: nat, a: nat, hi: nat)
    requires a > 0 && p / NSEC_PER_SEC / a <= MAX_DIV && d <= p && hi == d / (a * NSEC_PER_SEC) % 0x1_0000
    ensures hi == d / NSEC_PER_SEC / a
  {
    DutyInPeriod(d, p, a);
    SameQuotient(d, a, d / NSEC_PER_SEC / a, hi);
  }

  lemma ChosenQuotient(m: nat, pre: nat, pwm: nat)
    requires Chosen(m, pre, pwm) && !FallsBack(m)
    ensures m / (pre + 1) <= MAX_DIV
  {}

  lemma SameQuotient(d: nat, a: nat, q: nat, hi: nat)
    requires a > 0 && q == d / NSEC_PER_SEC / a <= MAX_DIV && hi == d / (a * NSEC_PER_SEC) % 0x1_0000
    ensures hi == q
  {
    DivDiv(d, NSEC_PER_SEC, a);
  }

  lemma WholeMultiples(c: nat, a: nat, h: nat)
    requires a > 0
    ensures h * a <= c <==> h <= c / a
  {
    DivBounds(c, a);
    if h <= c / a {
      MulLe(h, c / a, a);
    } else {
      MulLe(c / a + 1, h, a);
      assert (c / a + 1) * a == c / a * a + a;
    }
  }

  /** It is read back as the least duty cycle, in nanoseconds, that covers the high duration. */
  lemma ReadDutyExactly(req: Request, rate: nat, reg0: nat, reg1: nat, ns: nat)
    requires 0 < rate && Verdict(req, rate) == 0 && Programs(req, rate, reg0, reg1)
    ensures ReadDuty(reg0, reg1, rate) <= ns <==> HiDur(reg0) * (PreDiv(reg1) + 1) * NSEC_PER_SEC <= ns * rate
  {
    var x := HiDur(reg0) * (PreDiv(reg1) + 1);
    MulMonotone(HiDur(reg0), PreDiv(reg1) + 1, MAX_DIV, MAX_DIV + 1);
    Small32(x);
    CeilDivGalois(x * NSEC_PER_SEC, rate, ns);
  }

  /** Likewise the period. */
  lemma ReadPeriodExactly(req: Request, rate: nat, reg0: nat, reg1: nat, ns: nat)
    requires 0 < rate && Verdict(req, rate) == 0 && Programs(req, rate, reg0, reg1)
    ensures ReadPeriod(reg0, reg1, rate) <= ns <==>
            (PreDiv(reg1) + 1) * (PwmDiv(reg0) + 1) * NSEC_PER_SEC <= ns * rate
  {
    ProductFits(PreDiv(reg1), PwmDiv(reg0), rate);
    CeilDivGalois((PreDiv(reg1) + 1) * (PwmDiv(reg0) + 1) * NSEC_PER_SEC, rate, ns);
  }

  /** And whether the output is enabled. */
  lemma EnabledReadsBack(req: Request, rate: nat, reg0: nat, reg1: nat)
    requires Programs(req, rate, reg0, reg1)
    ensures reg1 / ENABLE_BIT % 2 == 1 <==> req.enabled
  {}

  /** A request for the whole period or more gets a high duration of the whole period, in the
      registers and read back, exactly unless the fallback dividers are used: they leave no
      room for it in the register. */
  lemma FullDutyExactly(req: Request, rate: nat, reg0: nat, reg1: nat)
    requires 0 < rate && Verdict(req, rate) == 0 && Programs(req, rate, reg0, reg1) && req.duty >= req.PeriodNs()
    ensures HiDur(reg0) == PwmDiv(reg0) + 1 <==> !FallsBack(req.Cycles(rate))
    ensures ReadDuty(reg0, reg1, rate) == ReadPeriod(reg0, reg1, rate) <==> !FallsBack(req.Cycles(rate))
  {
    var hi := HiDur(reg0);
    if FallsBack(req.Cycles(rate)) {
      MulLe(hi, MAX_DIV, MAX_DIV + 1);
      FallbackDutyIsShort(hi * (MAX_DIV + 1), rate);
    } else {
      WholePeriodFits(req.PeriodNs() * rate, PreDiv(reg1), PwmDiv(reg0), hi);
    }
  }

  lemma WholePeriodFits(p: nat, pre: nat, pwm: nat, hi: nat)
    requires Chosen(p / NSEC_PER_SEC, pre, pwm) && !FallsBack(p / NSEC_PER_SEC)
    requires hi == p / ((pre + 1) * NSEC_PER_SEC) % 0x1_0000
    ensures hi == pwm + 1 && hi * (pre + 1) % TWO_32 == (pre + 1) * (pwm + 1)
  {
    DivDiv(p, NSEC_PER_SEC, pre + 1);
    SmallProduct(pre + 1, pwm + 1);
  }

  lemma SmallProduct(a: nat, b: nat)
    requires a <= MAX_DIV && b <= MAX_DIV
    ensures b * a % TWO_32 == a * b
  {
    MulMonotone(a, b, MAX_DIV, MAX_DIV);
    Small32(a * b);
  }

  lemma FallbackDutyIsShort(x: nat, rate: nat)
    requires 0 < rate <= 16 * GIGA && x <= MAX_DIV * (MAX_DIV + 1)
    ensures CeilDiv64(x % TWO_32 * NSEC_PER_SEC, rate) < CeilDiv64(TWO_32 * NSEC_PER_SEC, rate)
  {
    Small32(x);
    var p := CeilDiv64(TWO_32 * NSEC_PER_SEC, rate);
    CeilDivGalois(TWO_32 * NSEC_PER_SEC, rate, p);
    assert (p - 1) * rate == p * rate - rate;
    assert p > 0;
    CeilDivGalois(x * NSEC_PER_SEC, rate, p - 1);
  }

  lemma HighDurationFits(req: Request, rate: nat, reg0: nat, reg1: nat)
    ensures Programs(req, rate, reg0, reg1) ==>
              HiDur(reg0) * (PreDiv(reg1) + 1) * NSEC_PER_SEC <= req.DutyNs() * rate &&
              HiDur(reg0) <= PwmDiv(reg0) + 1
  {
    if Programs(req, rate, reg0, reg1) {
      MulLe(req.DutyNs(), req.PeriodNs(), rate);
      var d, a := req.DutyNs() * rate, PreDiv(reg1) + 1;
      DutyCycles(d, a, HiDur(reg0));
      DutyInPeriod(d, req.PeriodNs() * rate, a);
      WithinChosen(req.Cycles(rate), PreDiv(reg1), PwmDiv(reg0), HiDur(reg0));
    }
  }

  lemma WithinChosen(m: nat, pre: nat, pwm: nat, hi: nat)
    ensures Chosen(m, pre, pwm) && hi <= MAX_DIV && hi <= m / (pre + 1) ==> hi <= pwm + 1
  {}

  lemma DutyInPeriod(d: nat, p: nat, a: nat)
    requires a > 0 && d <= p
    ensures d / NSEC_PER_SEC / a <= p / NSEC_PER_SEC / a
  {
    DivMonotone(d / NSEC_PER_SEC, p / NSEC_PER_SEC, a);
  }

  lemma DutyCycles(d: nat, a: nat, hi: nat)
    requires a > 0 && hi == d / (a * NSEC_PER_SEC) % 0x1_0000
    ensures hi * a * NSEC_PER_SEC <= d && hi <= d / NSEC_PER_SEC / a
  {
    DivDiv(d, NSEC_PER_SEC, a);
    WholeCycles(d / NSEC_PER_SEC, a, hi);
    WholeUnits(d, hi * a);
  }

  lemma WholeCycles(c: nat, a: nat, hi: nat)
    requires a > 0 && hi <= c / a
    ensures hi * a <= c
  {
    MulLe(hi, c / a, a);
    DivBounds(c, a);
  }

  /** The longest a feasible period can be never shrinks when cycles are added, and a
      count that is itself feasible is reached. */
  lemma ChosenLengthAgain(cycles: nat, pre: nat, pwm: nat, cycles': nat, pre': nat, pwm': nat)
    requires Chosen(cycles, pre, pwm) && Chosen(cycles', pre', pwm') && !FallsBack(cycles)
    requires (pre + 1) * (pwm + 1) <= cycles' <= cycles
    ensures !FallsBack(cycles') && (pre' + 1) * (pwm' + 1) == (pre + 1) * (pwm + 1)
  {
    if FallsBack(cycles') {
      assert Feasible(cycles, MAX_DIV, MAX_DIV);
      assert false;
    }
    assert Feasible(cycles', pre + 1, pwm + 1);
    assert Feasible(cycles, pre' + 1, pwm' + 1);
  }

  /** Reading back and applying again is stable: the reported period is accepted and
      programs dividers of the same length, so it reads back unchanged. */
  lemma ReapplyIsStable(req: Request, rate: nat, reg0: nat, reg1: nat, again: Request, reg0': nat, reg1': nat)
    requires 0 < rate && Verdict(req, rate) == 0 && Programs(req, rate, reg0, reg1)
    requires !FallsBack(req.Cycles(rate))
    requires again.normalPolarity && again.period == ReadPeriod(reg0, reg1, rate)
    ensures Verdict(again, rate) == 0
    ensures Programs(again, rate, reg0', reg1') ==>
              (PreDiv(reg1') + 1) * (PwmDiv(reg0') + 1) == (PreDiv(reg1) + 1) * (PwmDiv(reg0) + 1) &&
              ReadPeriod(reg0', reg1', rate) == ReadPeriod(reg0, reg1, rate)
  {
    var length := (PreDiv(reg1) + 1) * (PwmDiv(reg0) + 1);
    MulMonotone(PreDiv(reg1) + 1, PwmDiv(reg0) + 1, MAX_DIV + 1, MAX_DIV + 1);
    ReadPeriodBound(req, rate, reg0, reg1);
    CeilDivGalois(length * NSEC_PER_SEC, rate, again.period);
    assert length >= 1 by { MulMonotone(1, 1, PreDiv(reg1) + 1, PwmDiv(reg0) + 1); }
    AcceptedIffOneCycle(again, rate);
    WholeUnits(again.period * rate, length);
    MulLe(again.period, req.PeriodNs(), rate);
    if Programs(again, rate, reg0', reg1') {
      ChosenLengthAgain(req.Cycles(rate), PreDiv(reg1), PwmDiv(reg0),
                        again.Cycles(rate), PreDiv(reg1'), PwmDiv(reg0'));
    }
  }

  /** The fallback dividers program a period of 2^32 cycles, and applying it again falls back again
      exactly if one second is a fallback case itself. */
  lemma FallbackReappliesExactly(req: Request, rate: nat, reg0: nat, reg1: nat, again: Request, reg0': nat, reg1': nat)
    requires 0 < rate && Verdict(req, rate) == 0 && Programs(req, rate, reg0, reg1) && FallsBack(req.Cycles(rate))
    requires again.normalPolarity && again.period == ReadPeriod(reg0, reg1, rate)
    ensures Verdict(again, rate) == 0
    ensures Programs(again, rate, reg0', reg1') ==>
              ((PreDiv(reg1') + 1) * (PwmDiv(reg0') + 1) == TWO_32 <==> FallsBack(rate))
  {
    CeilDivGalois(TWO_32 * NSEC_PER_SEC, rate, again.period);
    CeilDivGalois(TWO_32 * NSEC_PER_SEC, rate, NSEC_PER_SEC);
    AcceptedIffOneCycle(again, rate);
    if rate >= TWO_32 {
      WholeUnits(again.period * rate, TWO_32);
    } else {
      assert again.Cycles(rate) == rate;
    }
  }

  /** For every accepted request: applying the period that is read back programs dividers of the
      same length exactly unless the request falls back where one second would not. */
  lemma ReapplyIsStableExactly(req: Request, rate: nat, reg0: nat, reg1: nat, again: Request, reg0': nat, reg1': nat)
    requires 0 < rate && Verdict(req, rate) == 0 && Programs(req, rate, reg0, reg1)
    requires again.normalPolarity && again.period == ReadPeriod(reg0, reg1, rate)
    ensures Verdict(again, rate) == 0
    ensures Programs(again, rate, reg0', reg1') ==>
              ((PreDiv(reg1') + 1) * (PwmDiv(reg0') + 1) == (PreDiv(reg1) + 1) * (PwmDiv(reg0) + 1) <==>
               (FallsBack(req.Cycles(rate)) ==> FallsBack(rate)))
  {
    if FallsBack(req.Cycles(rate)) {
      FallbackReappliesExactly(req, rate, reg0, reg1, again, reg0', reg1');
    } else {
      ReapplyIsStable(req, rate, reg0, reg1, again, reg0', reg1');
    }
  }

  /** Such a request: at 4294836229 Hz, one nanosecond less than a second. */
  lemma ReapplyMoves(req: Request)
    requires req.period == NSEC_PER_SEC - 1
    ensures FallsBack(req.Cycles(4_294_836_229)) && !FallsBack(4_294_836_229)
  {}

  /** Everything together for the clocks the driver is meant for: an accepted request at
      up to 4 GHz gets the closest pair, and reads back no longer than asked. */
  lemma RoundTripUpTo4GHz(req: Request, rate: nat, reg0: nat, reg1: nat)
    requires 0 < rate <= 4 * GIGA && Verdict(req, rate) == 0 && Programs(req, rate, reg0, reg1)
    ensures Closest(req.Cycles(rate), PreDiv(reg1) + 1, PwmDiv(reg0) + 1)
    ensures ReadPeriod(reg0, reg1, rate) <= req.PeriodNs() && ReadDuty(reg0, reg1, rate) <= req.DutyNs()
  {
    NoFallbackUpTo4GHz(req.PeriodNs(), rate);
    ReadPeriodBound(req, rate, reg0, reg1);
    ReadDutyBound(req, rate, reg0, reg1);
  }
}
