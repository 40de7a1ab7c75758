/** Monte Carlo stress test of a loan portfolio: the simulated periods and the risk metrics over them. */
module EconomicSimulation {
  import opened Host
  import opened Arith
  import opened IntegerSqrt
  import opened OrderStatistics
  import opened Sequences

  const LOANS: nat := 100
  const BPS: int := 10_000
  const TAIL_BPS: int := 10_000 - 9_500

  datatype Params = Params(
    defaultRateBps: u32, interestRateBps: u32, recoveryRateBps: u32, simulationCount: u32, portfolioValue: i128)

  datatype Period = Period(endValue: i128, interest: i128, losses: i128, defaults: nat)

  datatype StressResult = StressResult(
    var95: i128, cvar95: i128, mean: i128, min: i128, max: i128, stdDev: i128,
    lossProbability: u32, maxLoss: i128, simulationCount: u32)

  // ---------- one simulated period ----------

  /** The cast from i128 to u128. */
  function AsU128(n: i128): u128 {
    if n < 0 then n + (U128_MAX + 1) else n
  }

  /** A basis-point share of a loan's value, with the saturating product of the contract. */
  function Share(loanValue: i128, bps: u32): (s: i128)
    ensures s >= 0
  {
    MulNonNeg(AsU128(loanValue), bps);
    Min(AsU128(loanValue) * bps, U128_MAX) / BPS
  }

  function Threshold(p: Params): u64 {
    p.defaultRateBps * 1_000_000 / 10_000
  }

  function LoanValue(p: Params): i128 {
    TruncDiv(p.portfolioValue, LOANS)
  }

  /** One loan: a draw below the threshold is a default, any other draw pays interest. */
  function Settle(p: Params, s: Period, draw: u32): Period {
    if draw < Threshold(p) then
      var loss := ClampI128(LoanValue(p) - Share(LoanValue(p), p.recoveryRateBps));
      Period(ClampI128(s.endValue - loss), s.interest, ClampI128(s.losses + loss), s.defaults + 1)
    else
      var interest := Share(LoanValue(p), p.interestRateBps);
      Period(ClampI128(s.endValue + interest), ClampI128(s.interest + interest), s.losses, s.defaults)
  }

  function Simulated(p: Params, draws: seq<u32>): Period {
    if draws == [] then Period(p.portfolioValue, 0, 0, 0)
    else Settle(p, Simulated(p, draws[..|draws| - 1]), draws[|draws| - 1])
  }

  /** The draws of period `i`. */
  function DrawsOf(draws: seq<u32>, i: nat): seq<u32>
    requires LOANS * (i + 1) <= |draws|
  {
    draws[LOANS * i..LOANS * (i + 1)]
  }

  function EndValues(p: Params, draws: seq<u32>, n: nat): (s: seq<int>)
    requires LOANS * n <= |draws|
    ensures |s| == n && AllFit(s)
  {
    if n == 0 then [] else EndValues(p, draws, n - 1) + [Simulated(p, DrawsOf(draws, n - 1)).endValue]
  }

  // ---------- the metrics ----------

  /** The index of the value at risk among `n` sorted outcomes. */
  function TailIndex(n: nat): nat {
    n * TAIL_BPS / BPS
  }

  lemma TailIndexInRange(n: nat)
    requires n > 0
    ensures TailIndex(n) < n
  {
  }

  /** A saturated sum divided by its number of terms. */
  function Mean(s: seq<int>): i128
    requires s != []
  {
    TruncDivBetween(SatSum(s), |s|, I128_MIN, I128_MAX);
    MulMono(1, |s|, -I128_MIN);
    MulMono(1, |s|, I128_MAX);
    TruncDiv(SatSum(s), |s|)
  }

  function Deviations(s: seq<int>, mean: i128): seq<int> {
    seq(|s|, i requires 0 <= i < |s| => s[i] - mean)
  }

  function Squares(s: seq<int>): seq<int> {
    seq(|s|, i requires 0 <= i < |s| => ClampI128(s[i] * s[i]))
  }

  function Variance(results: seq<int>): (v: i128)
    requires results != []
    ensures v >= 0
  {
    var squares := Squares(Deviations(results, Mean(results)));
    forall i | 0 <= i < |squares| ensures squares[i] >= 0 {
      SquareNonNegative(Deviations(results, Mean(results))[i]);
    }
    SatSumNonNegative(squares);
    TruncDivBetween(SatSum(squares), |squares|, 0, SatSum(squares));
    MulMono(1, |squares|, SatSum(squares));
    TruncDiv(SatSum(squares), |squares|)
  }

  lemma TailWithinRanked(results: seq<int>)
    requires results != []
    ensures TailIndex(|results|) < |results| == |Ranked(results)|
    ensures AllFit(results) ==> AllFit(Ranked(results))
  {
    TailIndexInRange(|results|);
    RankedIsSorted(results);
    forall i | 0 <= i < |Ranked(results)| ensures Ranked(results)[i] in results {
      RankedIn(results, i);
    }
  }

  lemma RankedIn(s: seq<int>, i: nat)
    requires i < |Ranked(s)|
    ensures Ranked(s)[i] in s
  {
    RankedIsSorted(s);
    assert Ranked(s)[i] in multiset(Ranked(s));
  }

  predicate AllFit(s: seq<int>) {
    forall i :: 0 <= i < |s| ==> FitsI128(s[i])
  }

  /** The share of the periods that lost, in basis points, with the contract's cast. */
  function LossBps(losses: u32, n: u32): u32
    requires n > 0
  {
    losses * 10_000 / n % (U32_MAX + 1)
  }

  /** The figures reported for a list of outcomes. */
  function Figures(results: seq<int>, p: Params, losses: u32): StressResult
    requires results != [] && p.simulationCount > 0 && AllFit(results)
  {
    TailWithinRanked(results);
    RootAtMost(Variance(results));
    var ranked, k := Ranked(results), TailIndex(|results|);
    StressResult(ranked[k], Mean(ranked[..k + 1]), Mean(results), ranked[0], ranked[|ranked| - 1],
                 Root(Variance(results)), LossBps(losses, p.simulationCount),
                 ClampI128(ranked[0] - p.portfolioValue), p.simulationCount)
  }

  /** The one failure on a list of outcomes is a deviation from the mean that overflows. */
  function Metrics(results: seq<int>, p: Params, losses: u32): Result<StressResult>
    requires p.simulationCount > 0 && AllFit(results)
  {
    if results == [] then Err(InvalidInput)
    else if AllFit(Deviations(results, Mean(results))) then Ok(Figures(results, p, losses))
    else Err(Overflow)
  }

  /** The whole run, for given random draws. */
  function MonteCarlo(p: Params, draws: seq<u32>): Result<StressResult>
    requires |draws| == LOANS * p.simulationCount
  {
    if p.simulationCount == 0 then Err(InvalidInput)
    else
      var ends := EndValues(p, draws, p.simulationCount);
      CountBelowAtMost(ends, p.portfolioValue);
      Metrics(ends, p, CountBelow(ends, p.portfolioValue))
  }

  // ---------- the order of the metrics ----------

  predicate InOrder(r: StressResult) {
    r.min <= r.cvar95 <= r.var95 <= r.max && r.min <= r.mean <= r.max
  }

  lemma RankedBounds(results: seq<int>)
    requires results != []
    ensures var ranked := Ranked(results);
            && |ranked| == |results| && Sorted(ranked)
            && (forall i :: 0 <= i < |results| ==> ranked[0] <= results[i] <= ranked[|ranked| - 1])
  {
    RankedIsSorted(results);
    var ranked := Ranked(results);
    forall i | 0 <= i < |results| ensures ranked[0] <= results[i] <= ranked[|ranked| - 1] {
      assert results[i] in multiset(results);
      var j :| 0 <= j < |ranked| && ranked[j] == results[i];
    }
  }

  lemma UnsaturatedMeanBetween(s: seq<int>, lo: int, hi: int)
    requires s != [] && Unsaturated(s) && forall i :: 0 <= i < |s| ==> lo <= s[i] <= hi
    ensures lo <= Mean(s) <= hi
  {
    SatSumExact(s);
    SumBounds(s, lo, hi);
    TruncDivBetween(SatSum(s), |s|, lo, hi);
  }

  /** When no addition saturates, the metrics are in order. */
  lemma MetricsInOrder(results: seq<int>, p: Params, losses: u32)
    requires results != [] && p.simulationCount > 0 && AllFit(results)
    requires Unsaturated(results) && Unsaturated(Ranked(results))
    ensures InOrder(Figures(results, p, losses))
  {
    hide Variance, Ranked, Mean, Root;
    TailWithinRanked(results);
    RankedBounds(results);
    var ranked, k := Ranked(results), TailIndex(|results|);
    var tail := ranked[..k + 1];
    UnsaturatedMeanBetween(results, ranked[0], ranked[|ranked| - 1]);
    forall i | 0 <= i <= |tail| ensures FitsI128(Sum(tail[..i])) {
      assert tail[..i] == ranked[..i];
    }
    UnsaturatedMeanBetween(tail, ranked[0], ranked[k]);
  }

  /** For outcomes that are not negative, the mean lies between two of their bounds except when it
      saturates below the lower one. */
  lemma NonNegativeMean(s: seq<int>, lo: nat, hi: int)
    requires s != [] && forall i :: 0 <= i < |s| ==> lo <= s[i] <= hi
    ensures Mean(s) <= hi
    ensures lo <= Mean(s) <==> |s| * lo <= I128_MAX
  {
    SatSumNonNegative(s);
    SumBounds(s, lo, hi);
    TruncDivBetween(SatSum(s), |s|, lo, hi);
    if |s| * lo > I128_MAX && lo <= Mean(s) {
      DivIsLargest(SatSum(s), |s|, lo);
    }
  }

  /** For outcomes that are not negative, the metrics are in order exactly when the smallest outcome
      times the number of outcomes stays in the type: beyond that the mean saturates below the minimum. */
  lemma NonNegativeMetricsInOrderExactlyWhen(results: seq<int>, p: Params, losses: u32)
    requires results != [] && p.simulationCount > 0 && AllFit(results)
    requires forall i :: 0 <= i < |results| ==> results[i] >= 0
    ensures var r := Figures(results, p, losses); InOrder(r) <==> |results| * r.min <= I128_MAX
  {
    hide Variance, Ranked, Mean, Root;
    TailWithinRanked(results);
    RankedBounds(results);
    var ranked, k := Ranked(results), TailIndex(|results|);
    RankedIn(results, 0);
    NonNegativeMean(results, ranked[0], ranked[|ranked| - 1]);
    NonNegativeMean(ranked[..k + 1], ranked[0], ranked[k]);
    MulMono(k + 1, |results|, ranked[0]);
  }

  // ---------- what the figures are ----------

  /** When no addition saturates, the figures are what their names say: the value at risk is the outcome
      that five per cent of the others are ranked below, the shortfall is the mean of the outcomes up to it,
      the mean is that of all outcomes, and the largest loss is that of the smallest outcome. */
  lemma FiguresMeaning(results: seq<int>, p: Params, losses: u32)
    requires results != [] && p.simulationCount > 0 && AllFit(results) && losses <= p.simulationCount
    requires Unsaturated(results) && Unsaturated(Ranked(results))
    ensures |Ranked(results)| == |results|
    ensures var r, ranked, k := Figures(results, p, losses), Ranked(results), |results| / 20;
            && r.var95 == ranked[k] && r.min == ranked[0] && r.max == ranked[|ranked| - 1]
            && r.cvar95 == TruncDiv(Sum(ranked[..k + 1]), k + 1) && r.mean == TruncDiv(Sum(results), |results|)
            && r.lossProbability == losses * 10_000 / p.simulationCount && r.simulationCount == p.simulationCount
            && r.maxLoss == Max(I128_MIN, Min(ranked[0] - p.portfolioValue, I128_MAX))
  {
    hide Ranked, Variance, Sum, SatSum, LossBps, Root, Unsaturated, TruncDiv;
    TailWithinRanked(results);
    assert TailIndex(|results|) == |results| / 20;
    TailExact(Ranked(results), |results| / 20);
    SatSumExact(results);
    LossBpsExact(losses, p.simulationCount);
  }

  /** The exact sum of the squared distances of `s` from `m`. */
  function SquareSum(s: seq<int>, m: i128): (n: nat) {
    if s == [] then 0
    else
      SquareNonNegative(s[|s| - 1] - m);
      SquareSum(s[..|s| - 1], m) + (s[|s| - 1] - m) * (s[|s| - 1] - m)
  }

  function MeanSquare(s: seq<int>, m: i128): nat
    requires s != []
  {
    DivIsLargest(SquareSum(s, m), |s|, 0);
    SquareSum(s, m) / |s|
  }

  /** When the exact sum of the squares fits the type, the deviation is the floor of the root of their mean. */
  lemma DeviationMeaning(results: seq<int>, p: Params, losses: u32)
    requires results != [] && p.simulationCount > 0 && AllFit(results)
    ensures var r := Figures(results, p, losses);
            SquareSum(results, r.mean) <= I128_MAX ==> r.stdDev == Root(MeanSquare(results, r.mean))
  {
    hide Ranked, Variance, TailIndex, LossBps, Mean, SquareSum, Root, AllFit;
    if SquareSum(results, Mean(results)) <= I128_MAX {
      VarianceExact(results);
    }
  }

  lemma TailExact(ranked: seq<int>, k: nat)
    requires k < |ranked| && Unsaturated(ranked)
    ensures SatSum(ranked[..k + 1]) == Sum(ranked[..k + 1])
  {
    var tail := ranked[..k + 1];
    forall i | 0 <= i <= |tail| ensures FitsI128(Sum(tail[..i])) {
      assert tail[..i] == ranked[..i];
    }
    SatSumExact(tail);
  }

  lemma LossBpsExact(losses: u32, n: u32)
    requires n > 0 && losses <= n
    ensures LossBps(losses, n) == losses * 10_000 / n
  {
    DivIsLargest(losses * 10_000, n, 0);
    DivIsLargest(losses * 10_000, n, 10_001);
  }

  lemma VarianceExact(results: seq<int>)
    requires results != []
    ensures SquareSum(results, Mean(results)) <= I128_MAX ==> Variance(results) == MeanSquare(results, Mean(results))
  {
    var m, squares := Mean(results), Squares(Deviations(results, Mean(results)));
    assert |squares| == |results|;
    assert Variance(results) == TruncDiv(SatSum(squares), |squares|) by {
      hide SatSum, Mean, TruncDiv, Squares, Deviations, SquareSum;
    }
    hide Variance, Mean;
    assert results[..|results|] == results && squares[..|squares|] == squares;
    if SquareSum(results, m) <= I128_MAX {
      SquaresExact(results, m, |results|);
    }
    hide SatSum, SquareSum, Squares, Deviations;
  }

  lemma {:induction false} SquaresExact(results: seq<int>, m: i128, n: nat)
    requires n <= |results| && SquareSum(results[..n], m) <= I128_MAX
    ensures SatSum(Squares(Deviations(results, m))[..n]) == SquareSum(results[..n], m)
  {
    if n == 0 {
    } else {
      var squares := Squares(Deviations(results, m));
      var d: int := results[n - 1] - m;
      assert results[..n][..n - 1] == results[..n - 1] && squares[..n][..n - 1] == squares[..n - 1];
      SquareNonNegative(d);
      SquaresExact(results, m, n - 1);
      assert squares[n - 1] == ClampI128(d * d);
    }
  }

  /** The report fails exactly without outcomes, or when some outcome is further from the mean than the type
      reaches; that never happens while all outcomes have one sign. */
  lemma MetricsOutcome(results: seq<int>, p: Params, losses: u32)
    requires p.simulationCount > 0 && AllFit(results)
    ensures Metrics(results, p, losses).Ok? <==>
            results != [] && forall i :: 0 <= i < |results| ==> FitsI128(results[i] - Mean(results))
    ensures results != [] && (forall i :: 0 <= i < |results| ==> results[i] >= 0) ==> Metrics(results, p, losses).Ok?
    ensures results == [] ==> Metrics(results, p, losses) == Err(InvalidInput)
  {
    hide Mean, Figures;
    if results != [] {
      assert forall i :: 0 <= i < |results| ==> Deviations(results, Mean(results))[i] == results[i] - Mean(results);
      if forall i :: 0 <= i < |results| ==> results[i] >= 0 {
        MeanNonNegative(results);
      }
    }
  }

  lemma MeanNonNegative(s: seq<int>)
    requires s != [] && forall i :: 0 <= i < |s| ==> s[i] >= 0
    ensures Mean(s) >= 0
  {
    SatSumNonNegative(s);
    TruncDivBetween(SatSum(s), |s|, 0, SatSum(s));
  }

  // ---------- what a period ends with ----------

  /** The number of draws that default at a rate: those below a hundred times its basis points. */
  function DefaultsIn(draws: seq<u32>, rate: u32): nat {
    if draws == [] then 0
    else DefaultsIn(draws[..|draws| - 1], rate) + if draws[|draws| - 1] < 100 * rate then 1 else 0
  }

  /** A share is the exact one rounded down, while the product fits 128 bits. */
  lemma ShareMeaning(value: nat, bps: u32)
    requires FitsI128(value) && value * bps <= U128_MAX
    ensures Share(value, bps) * 10_000 <= value * bps < (Share(value, bps) + 1) * 10_000
  {
  }

  lemma SettleExact(p: Params, s: Period, draw: u32, loan: nat, loss: int)
    requires LoanValue(p) == loan && FitsI128(loss) && loss == loan - Share(loan, p.recoveryRateBps)
    ensures var interest, t := Share(loan, p.interestRateBps), Settle(p, s, draw);
            if draw < 100 * p.defaultRateBps then
              FitsI128(s.endValue - loss) && FitsI128(s.losses + loss) ==>
                t == Period(s.endValue - loss, s.interest, s.losses + loss, s.defaults + 1)
            else
              FitsI128(s.endValue + interest) && FitsI128(s.interest + interest) ==>
                t == Period(s.endValue + interest, s.interest + interest, s.losses, s.defaults)
  {
    hide Share, LoanValue;
  }

  /** While nothing saturates, a period ends with the portfolio, less what each default loses beyond its
      recovery, plus the interest of every other loan; a loan is one per cent of the portfolio. `most` bounds
      what one loan can add: a recovery above the loan adds, too. */
  lemma {:induction false} PeriodExact(p: Params, draws: seq<u32>, loan: nat, interest: nat, loss: int, most: nat)
    requires p.portfolioValue >= 0 && |draws| <= 100
    requires interest <= most && -loss <= most && p.portfolioValue + |draws| * most <= I128_MAX
    ensures var d := DefaultsIn(draws, p.defaultRateBps);
            && d <= |draws|
            && (loan == p.portfolioValue / 100
                && interest == Share(loan, p.interestRateBps) && loss == loan - Share(loan, p.recoveryRateBps) ==>
                  PeriodIs(Simulated(p, draws), p.portfolioValue, |draws|, d, loss, interest))
  {
    if draws == [] {
    } else {
      var n := |draws| - 1;
      MulAdd(n, 1, most);
      PeriodExact(p, draws[..n], loan, interest, loss, most);
      hide Share, PeriodIs, Settle;
      if loan == p.portfolioValue / 100
         && interest == Share(loan, p.interestRateBps) && loss == loan - Share(loan, p.recoveryRateBps)
      {
        PeriodStep(p, Simulated(p, draws[..n]), draws[n], n, DefaultsIn(draws[..n], p.defaultRateBps), loan, interest,
                   loss, most);
      }
    }
  }

  /** What the figures of a period are after `n` loans, `d` of which defaulted. */
  predicate PeriodIs(s: Period, value: int, n: int, d: int, loss: int, interest: int) {
    && s.endValue == value - d * loss + (n - d) * interest
    && s.interest == (n - d) * interest && s.losses == d * loss && s.defaults == d
  }

  predicate PeriodFits(value: int, n: int, d: int, loss: int, interest: int) {
    FitsI128(value - d * loss + (n - d) * interest) && FitsI128(d * loss) && FitsI128((n - d) * interest)
  }

  lemma PeriodStep(p: Params, s: Period, draw: u32, n: nat, d: nat, loan: nat, interest: nat, loss: int, most: nat)
    requires d <= n < 100 && PeriodIs(s, p.portfolioValue, n, d, loss, interest)
    requires p.portfolioValue >= 0 && LoanValue(p) == loan <= p.portfolioValue && 100 * loan <= p.portfolioValue
    requires interest <= most && -loss <= most && p.portfolioValue + (n + 1) * most <= I128_MAX
    ensures interest == Share(loan, p.interestRateBps) && loss == loan - Share(loan, p.recoveryRateBps) ==>
              var d' := if draw < 100 * p.defaultRateBps then d + 1 else d;
              PeriodIs(Settle(p, s, draw), p.portfolioValue, n + 1, d', loss, interest)
  {
    hide *;
    if interest == Share(loan, p.interestRateBps) && loss == loan - Share(loan, p.recoveryRateBps) {
      LossFits(p.portfolioValue, loan, loss, most, n);
      var d' := if draw < 100 * p.defaultRateBps then d + 1 else d;
      WithinBounds(p.portfolioValue, loan, n + 1, d', loss, interest, most);
      SettleExact(p, s, draw, loan, loss);
      PeriodGrows(s, Settle(p, s, draw), p.portfolioValue, n, d, loss, interest, draw < 100 * p.defaultRateBps);
    }
  }

  lemma PeriodGrows(s: Period, t: Period, value: int, n: int, d: int, loss: int, interest: int, defaulted: bool)
    requires PeriodIs(s, value, n, d, loss, interest)
    requires PeriodFits(value, n + 1, if defaulted then d + 1 else d, loss, interest)
    requires if defaulted then
               FitsI128(s.endValue - loss) && FitsI128(s.losses + loss) ==>
                 t == Period(s.endValue - loss, s.interest, s.losses + loss, s.defaults + 1)
             else
               FitsI128(s.endValue + interest) && FitsI128(s.interest + interest) ==>
                 t == Period(s.endValue + interest, s.interest + interest, s.losses, s.defaults)
    ensures PeriodIs(t, value, n + 1, if defaulted then d + 1 else d, loss, interest)
  {
    OneMore(d, loss);
    OneMore(n - d, interest);
  }

  lemma LossFits(value: nat, loan: nat, loss: int, most: nat, n: nat)
    requires value + (n + 1) * most <= I128_MAX && 100 * loan <= value && 0 <= loss + most && loss <= loan
    ensures FitsI128(loss)
  {
    MulNonNeg(n + 1, most);
    MulMono(1, n + 1, most);
  }

  lemma OneMore(n: int, x: int)
    ensures (n + 1) * x == n * x + x
  {
  }

  /** Whatever `d` of `n` loans default, every figure of the period is in range. */
  lemma WithinBounds(value: nat, loan: nat, n: nat, d: nat, loss: int, interest: nat, most: nat)
    requires d <= n <= 100 && 100 * loan <= value && loss <= loan && interest <= most && -loss <= most
    requires value + n * most <= I128_MAX
    ensures PeriodFits(value, n, d, loss, interest)
  {
    MulNonNeg(n - d, interest);
    MulMono(interest, most, n - d);
    MulMono(-loss, most, d);
    MulMono(loss, loan, d);
    MulMono(d, 100, loan);
    MulSub(n, d, most);
    MulNonNeg(d, most);
    MulNonNeg(n - d, most);
    assert d * -loss == -(d * loss);
  }

  /** Period `i` of a run uses its own hundred draws. */
  lemma {:induction false} EndValueAt(p: Params, draws: seq<u32>, n: nat, i: nat)
    requires LOANS * n <= |draws| && i < n
    ensures 100 * (i + 1) <= |draws|
    ensures EndValues(p, draws, n)[i] == Simulated(p, draws[100 * i..100 * (i + 1)]).endValue
  {
    hide Simulated;
    if i < n - 1 {
      EndValueAt(p, draws, n - 1, i);
    }
  }

  /** A run needs a period; the loss probability it reports is the exact share of the periods that end below
      the portfolio's value, rounded down. */
  lemma RunMeaning(p: Params, draws: seq<u32>)
    requires |draws| == LOANS * p.simulationCount
    ensures p.simulationCount == 0 ==> MonteCarlo(p, draws) == Err(InvalidInput)
    ensures MonteCarlo(p, draws).Ok? ==>
              var r, n := MonteCarlo(p, draws).value, p.simulationCount;
              && n > 0 && r.simulationCount == n
              && r.lossProbability == CountBelow(EndValues(p, draws, n), p.portfolioValue) * 10_000 / n
  {
    hide EndValues, CountBelow, Mean, Ranked, Deviations, Variance, LossBps;
    if p.simulationCount > 0 {
      var ends := EndValues(p, draws, p.simulationCount);
      CountBelowAtMost(ends, p.portfolioValue);
      LossBpsExact(CountBelow(ends, p.portfolioValue), p.simulationCount);
    }
  }

  // ---------- exactly when the metrics are in order ----------

  predicate Between(s: seq<int>, lo: int, hi: int) {
    forall i :: 0 <= i < |s| ==> lo <= s[i] <= hi
  }

  /** Whatever outcomes a list has between two bounds, its metrics are in order. */
  ghost predicate AlwaysInOrder(p: Params, n: nat, lo: i128, hi: i128)
    requires p.simulationCount > 0 && n > 0
  {
    forall results: seq<int>, losses: u32 :: |results| == n && Between(results, lo, hi) ==>
      InOrder(Figures(results, p, losses))
  }

  lemma BoundedInOrder(results: seq<int>, p: Params, losses: u32, lo: i128, hi: i128)
    requires results != [] && p.simulationCount > 0 && Between(results, lo, hi)
    requires I128_MIN <= |results| * lo && |results| * hi <= I128_MAX
    ensures InOrder(Figures(results, p, losses))
  {
    TailWithinRanked(results);
    forall i | 0 <= i < |Ranked(results)| ensures lo <= Ranked(results)[i] <= hi {
      RankedIn(results, i);
    }
    BoundedUnsaturated(results, lo, hi);
    BoundedUnsaturated(Ranked(results), lo, hi);
    hide Figures, Ranked;
    MetricsInOrder(results, p, losses);
  }

  /** The mean of equal outcomes whose sum leaves the type saturates past all of them, on the side of zero. */
  lemma RepeatedMean(x: i128, n: nat)
    requires n > 0 && !FitsI128(n * x)
    ensures var mean := Mean(Repeated<int>(x, n)); if x > 0 then 0 <= mean < x else x < mean <= 0
  {
    SatSumRepeated(x, n);
    var y: int := x;
    if y > 0 {
      MulNonNeg(n, y);
      DivIsLargest(I128_MAX, n, y);
      DivIsLargest(I128_MAX, n, 0);
    } else {
      MulNonNeg(n, -y);
      DivIsLargest(-I128_MIN, n, -y);
      DivIsLargest(-I128_MIN, n, 0);
    }
  }

  /** Equal outcomes whose sum leaves the type make a report that succeeds and is out of order. */
  lemma EqualOutcomesOutOfOrder(x: i128, n: nat, p: Params, losses: u32)
    requires n > 0 && p.simulationCount > 0 && !FitsI128(n * x)
    ensures var results := Repeated<int>(x, n);
            AllFit(Deviations(results, Mean(results))) && !InOrder(Figures(results, p, losses))
  {
    var results := Repeated<int>(x, n);
    RepeatedMean(x, n);
    RankedBounds(results);
    RankedIn(results, 0);
    RankedIn(results, n - 1);
    hide Variance, Ranked, Root, Mean, TailIndex;
  }

  /** Exactly when the metrics of all lists of `n` outcomes between two bounds are in order: `n` times each
      bound fits the type. */
  lemma MetricsInOrderExactlyWhen(p: Params, n: nat, lo: i128, hi: i128)
    requires p.simulationCount > 0 && n > 0 && lo <= hi
    ensures AlwaysInOrder(p, n, lo, hi) <==> I128_MIN <= n * lo && n * hi <= I128_MAX
  {
    hide Figures, InOrder;
    if I128_MIN <= n * lo && n * hi <= I128_MAX {
      forall results: seq<int>, losses: u32 | |results| == n && Between(results, lo, hi)
        ensures InOrder(Figures(results, p, losses))
      {
        BoundedInOrder(results, p, losses, lo, hi);
      }
    } else {
      MulMono(lo, hi, n);
      var x := if n * lo < I128_MIN then lo else hi;
      EqualOutcomesOutOfOrder(x, n, p, 0);
      assert Between(Repeated<int>(x, n), lo, hi);
    }
  }

  // ---------- the best and the worst period ----------

  /** What a loan with this draw adds to the value of the portfolio. */
  function Gain(p: Params, draw: u32): int {
    if draw < Threshold(p) then -ClampI128(LoanValue(p) - Share(LoanValue(p), p.recoveryRateBps))
    else Share(LoanValue(p), p.interestRateBps)
  }

  /** The end value of a period in which every loan draws the same. */
  function EndOf(p: Params, draw: u32): i128 {
    ClampI128(p.portfolioValue + LOANS * Gain(p, draw))
  }

  /** The smallest draw defaults if any does and the largest pays interest if any does, so one of them is
      best for the portfolio and one is worst. */
  function BestEnd(p: Params): i128 {
    Max(EndOf(p, 0), EndOf(p, U32_MAX))
  }

  function WorstEnd(p: Params): i128 {
    Min(EndOf(p, 0), EndOf(p, U32_MAX))
  }

  lemma {:induction false} SimulatedSame(p: Params, draw: u32, n: nat)
    ensures Simulated(p, Repeated<u32>(draw, n)).endValue == ClampI128(p.portfolioValue + n * Gain(p, draw))
  {
    if n == 0 {
    } else {
      SimulatedSame(p, draw, n - 1);
      assert Repeated<u32>(draw, n)[..n - 1] == Repeated<u32>(draw, n - 1);
      hide Share, LoanValue;
      ClampStep(p.portfolioValue, Gain(p, draw), n - 1);
    }
  }

  lemma {:induction false} SimulatedBetween(p: Params, draws: seq<u32>)
    ensures var worst, best := Min(Gain(p, 0), Gain(p, U32_MAX)), Max(Gain(p, 0), Gain(p, U32_MAX));
            ClampI128(p.portfolioValue + |draws| * worst) <= Simulated(p, draws).endValue
            <= ClampI128(p.portfolioValue + |draws| * best)
  {
    if draws == [] {
    } else {
      var n := |draws| - 1;
      SimulatedBetween(p, draws[..n]);
      hide Share, LoanValue, Threshold;
      var worst, best := Min(Gain(p, 0), Gain(p, U32_MAX)), Max(Gain(p, 0), Gain(p, U32_MAX));
      assert worst <= Gain(p, draws[n]) <= best;
      ClampStep(p.portfolioValue, worst, n);
      ClampStep(p.portfolioValue, best, n);
    }
  }

  lemma PeriodBetween(p: Params, draws: seq<u32>)
    requires |draws| == LOANS
    ensures WorstEnd(p) <= Simulated(p, draws).endValue <= BestEnd(p)
  {
    SimulatedBetween(p, draws);
    MulMono(Gain(p, 0), Max(Gain(p, 0), Gain(p, U32_MAX)), LOANS);
    hide Gain, Simulated;
  }

  lemma {:induction false} EndValuesBetween(p: Params, draws: seq<u32>, n: nat)
    requires LOANS * n <= |draws|
    ensures Between(EndValues(p, draws, n), WorstEnd(p), BestEnd(p))
  {
    if n == 0 {
    } else {
      EndValuesBetween(p, draws, n - 1);
      PeriodBetween(p, DrawsOf(draws, n - 1));
    }
  }

  lemma {:induction false} EndValuesSame(p: Params, draw: u32, m: nat, n: nat)
    requires LOANS * n <= m
    ensures EndValues(p, Repeated<u32>(draw, m), n) == Repeated<int>(EndOf(p, draw), n)
  {
    if n == 0 {
    } else {
      EndValuesSame(p, draw, m, n - 1);
      assert DrawsOf(Repeated<u32>(draw, m), n - 1) == Repeated<u32>(draw, LOANS);
      SimulatedSame(p, draw, LOANS);
      assert Repeated<int>(EndOf(p, draw), n) == Repeated<int>(EndOf(p, draw), n - 1) + [EndOf(p, draw)];
    }
  }

  /** A run that fails or reports figures in order. */
  ghost predicate OrderlyRun(p: Params, draws: seq<u32>)
    requires |draws| == LOANS * p.simulationCount
  {
    MonteCarlo(p, draws).Ok? ==> InOrder(MonteCarlo(p, draws).value)
  }

  lemma SameDrawsOutOfOrder(p: Params, draw: u32)
    requires p.simulationCount > 0
    ensures !FitsI128(p.simulationCount * EndOf(p, draw)) ==>
              !OrderlyRun(p, Repeated<u32>(draw, LOANS * p.simulationCount))
  {
    hide EndValues, Figures, Mean, Deviations, InOrder, CountBelow, EndOf, AllFit;
    var n := p.simulationCount;
    if !FitsI128(n * EndOf(p, draw)) {
      var draws := Repeated<u32>(draw, LOANS * n);
      EndValuesSame(p, draw, LOANS * n, n);
      var ends := EndValues(p, draws, n);
      CountBelowAtMost(ends, p.portfolioValue);
      EqualOutcomesOutOfOrder(EndOf(p, draw), n, p, CountBelow(ends, p.portfolioValue));
    }
  }

  /** Exactly when all reports are in order, whatever is drawn: the end values of the worst and of the best
      period, times the number of periods, fit the type.  It holds of every portfolio, also a negative one. */
  lemma RunInOrderExactlyWhen(p: Params)
    ensures (forall draws: seq<u32> :: |draws| == LOANS * p.simulationCount ==> OrderlyRun(p, draws)) <==>
            I128_MIN <= p.simulationCount * WorstEnd(p) && p.simulationCount * BestEnd(p) <= I128_MAX
  {
    var n := p.simulationCount;
    hide InOrder, Figures, EndOf;
    if I128_MIN <= n * WorstEnd(p) && n * BestEnd(p) <= I128_MAX {
      forall draws: seq<u32> | |draws| == LOANS * n ensures OrderlyRun(p, draws) {
        if n > 0 {
          EndValuesBetween(p, draws, n);
          var ends := EndValues(p, draws, n);
          CountBelowAtMost(ends, p.portfolioValue);
          BoundedInOrder(ends, p, CountBelow(ends, p.portfolioValue), WorstEnd(p), BestEnd(p));
        }
      }
    } else {
      var draw: u32 := if FitsI128(n * EndOf(p, 0)) then U32_MAX else 0;
      SameDrawsOutOfOrder(p, draw);
      hide *;
      var draws: seq<u32> := Repeated<u32>(draw, LOANS * n);
      assert !OrderlyRun(p, draws);
    }
  }

  // ---------- losses ----------

  /** The value at risk is below a level exactly when more outcomes than the tail index are. */
  lemma VarBelowExactlyWhen(results: seq<int>, v: int)
    requires results != []
    ensures TailIndex(|results|) < |Ranked(results)|
    ensures Ranked(results)[TailIndex(|results|)] < v <==> CountBelow(results, v) > TailIndex(|results|)
  {
    TailWithinRanked(results);
    RankedIsSorted(results);
    RankedCount(results, v);
    BelowAtIndex(Ranked(results), v, TailIndex(|results|));
  }

  /** The value at risk against the loss probability of the same figures. */
  lemma FiguresShowLoss(ends: seq<int>, p: Params)
    requires ends != [] && |ends| == p.simulationCount && AllFit(ends)
    requires CountBelow(ends, p.portfolioValue) <= |ends|
    ensures var r, losses := Figures(ends, p, CountBelow(ends, p.portfolioValue)), CountBelow(ends, p.portfolioValue);
            && (r.var95 < p.portfolioValue <==> losses > TailIndex(|ends|))
            && (losses > TailIndex(|ends|) ==> r.lossProbability >= 500)
            && (r.lossProbability > 500 ==> losses > TailIndex(|ends|))
  {
    VarBelowExactlyWhen(ends, p.portfolioValue);
    LossProbability(CountBelow(ends, p.portfolioValue), p.simulationCount);
    hide Variance, Ranked, Mean, Root, CountBelow, TailIndex, LossBps;
  }

  /** What the reported figures say of a run: the value at risk shows a loss exactly when the number of
      losing periods exceeds the tail index; then the loss probability is at least five per cent, and
      any probability above that implies it. */
  lemma VarShowsLossExactlyWhen(p: Params, draws: seq<u32>)
    requires |draws| == LOANS * p.simulationCount
    ensures MonteCarlo(p, draws).Ok? ==>
            var r, n := MonteCarlo(p, draws).value, p.simulationCount;
            && (r.var95 < p.portfolioValue <==>
                CountBelow(EndValues(p, draws, n), p.portfolioValue) > TailIndex(n))
            && (r.var95 < p.portfolioValue ==> r.lossProbability >= 500)
            && (r.lossProbability > 500 ==> r.var95 < p.portfolioValue)
  {
    hide Figures, Mean, EndValues, CountBelow, TailIndex, Deviations;
    if MonteCarlo(p, draws).Ok? {
      var ends := EndValues(p, draws, p.simulationCount);
      CountBelowAtMost(ends, p.portfolioValue);
      FiguresShowLoss(ends, p);
    }
  }

  lemma LossProbability(losses: u32, n: u32)
    requires 0 < n && losses <= n
    ensures losses > TailIndex(n) ==> LossBps(losses, n) >= 500
    ensures LossBps(losses, n) > 500 ==> losses > TailIndex(n)
  {
    DivIsLargest(losses * 10_000, n, 0);
    DivIsLargest(losses * 10_000, n, 500);
    DivIsLargest(losses * 10_000, n, 501);
    DivIsLargest(losses * 10_000, n, 10_001);
    assert LossBps(losses, n) == losses * 10_000 / n;
  }

  /** With a portfolio that is not negative, a period loses at most the value of its defaulting loans, so it
      does not end below zero. */
  lemma {:induction false} EndValueNonNegative(p: Params, draws: seq<u32>)
    requires p.portfolioValue >= 0 && |draws| <= LOANS
    ensures var r := Simulated(p, draws);
            r.defaults <= |draws| && r.endValue >= p.portfolioValue - r.defaults * LoanValue(p) >= 0
  {
    DivBounds(p.portfolioValue, LOANS);
    if draws == [] {
    } else {
      var before := Simulated(p, draws[..|draws| - 1]);
      EndValueNonNegative(p, draws[..|draws| - 1]);
      MulAdd(before.defaults, 1, LoanValue(p));
      MulMono(before.defaults + 1, LOANS, LoanValue(p));
    }
  }

  lemma {:induction false} EndValuesNonNegative(p: Params, draws: seq<u32>, n: nat)
    requires p.portfolioValue >= 0 && LOANS * n <= |draws|
    ensures forall i :: 0 <= i < n ==> EndValues(p, draws, n)[i] >= 0
  {
    if n == 0 {
    } else {
      EndValuesNonNegative(p, draws, n - 1);
      EndValueNonNegative(p, DrawsOf(draws, n - 1));
    }
  }

  /** A single successful run on a portfolio that is not negative reports figures in order exactly when
      its smallest outcome times the number of periods stays in the type. */
  lemma NonNegativeRunInOrder(p: Params, draws: seq<u32>)
    requires |draws| == LOANS * p.simulationCount && p.portfolioValue >= 0
    ensures MonteCarlo(p, draws).Ok? ==>
            var r := MonteCarlo(p, draws).value;
            InOrder(r) <==> p.simulationCount * r.min <= I128_MAX
  {
    if MonteCarlo(p, draws).Ok? {
      var ends := EndValues(p, draws, p.simulationCount);
      EndValuesNonNegative(p, draws, p.simulationCount);
      CountBelowAtMost(ends, p.portfolioValue);
      NonNegativeMetricsInOrderExactlyWhen(ends, p, CountBelow(ends, p.portfolioValue));
    }
  }

  // ---------- the computation ----------

  method SimulateSinglePeriod(p: Params, draws: seq<u32>) returns (r: Period)
    requires |draws| == LOANS
    ensures r == Simulated(p, draws)
  {
    hide Share;
    var threshold: u64 := p.defaultRateBps * 1_000_000 / 10_000;
    var endValue: int, interest: int, losses: int, defaults := p.portfolioValue, 0, 0, 0;
    var loanValue: i128 := TruncDiv(p.portfolioValue, LOANS);
    for i := 0 to LOANS
      invariant FitsI128(endValue) && FitsI128(interest) && FitsI128(losses)
      invariant Period(endValue, interest, losses, defaults) == Simulated(p, draws[..i])
    {
      assert draws[..i + 1][..i] == draws[..i];
      if draws[i] < threshold {
        defaults := defaults + 1;
        var loss := ClampI128(loanValue - Share(loanValue, p.recoveryRateBps));
        losses := ClampI128(losses + loss);
        endValue := ClampI128(endValue - loss);
      } else {
        var paid := Share(loanValue, p.interestRateBps);
        interest := ClampI128(interest + paid);
        endValue := ClampI128(endValue + paid);
      }
    }
    assert draws[..LOANS] == draws;
    return Period(endValue, interest, losses, defaults);
  }

  /** The saturating sum of a list, from the left. */
  method Accumulate(s: seq<int>) returns (total: i128)
    ensures total == SatSum(s)
  {
    total := 0;
    for i := 0 to |s|
      invariant total == SatSum(s[..i])
    {
      assert s[..i + 1][..i] == s[..i];
      total := ClampI128(total + s[i]);
    }
    assert s[..|s|] == s;
  }

  method CalculatePortfolioMetrics(results: seq<int>, p: Params, losses: u32) returns (r: Result<StressResult>)
    requires p.simulationCount > 0 && AllFit(results)
    ensures r == Metrics(results, p, losses)
  {
    hide Ranked, SatSum, Variance, Root;
    if |results| == 0 {
      return Err(InvalidInput);
    }
    var sorted := new int[|results|](i requires 0 <= i < |results| => results[i]);
    assert sorted[..] == results;
    ExchangeSort(sorted);
    TailWithinRanked(results);

    var mean := AverageOf(results);
    var tailIndex := |results| * TAIL_BPS / BPS;
    var var95: i128 := sorted[tailIndex];
    var cvar95 := AverageOf(sorted[..tailIndex + 1]);
    var min: i128, max: i128 := sorted[0], sorted[|results| - 1];

    var variance := CalculateVariance(results, mean);
    if variance.Err? {
      return Err(variance.error);
    }
    var stdDev := DeviationOf(variance.value);
    var lossProbability := losses * 10_000 / p.simulationCount % (U32_MAX + 1);
    var maxLoss := ClampI128(min - p.portfolioValue);
    return Ok(StressResult(var95, cvar95, mean, min, max, stdDev, lossProbability, maxLoss, p.simulationCount));
  }

  /** A saturating sum divided by the number of its terms. */
  method AverageOf(s: seq<int>) returns (mean: i128)
    requires s != []
    ensures mean == Mean(s)
  {
    var total := Accumulate(s);
    ghost var inType := Mean(s);
    mean := TruncDiv(total, |s|);
  }

  method DeviationOf(variance: i128) returns (stdDev: i128)
    requires variance >= 0
    ensures stdDev == Root(variance)
  {
    RootUnique(0, 0);
    RootAtMost(variance);
    stdDev := 0;
    if variance > 0 {
      var root := SqrtU128(variance);
      stdDev := root.value;
    }
  }

  method CalculateVariance(results: seq<int>, mean: i128) returns (r: Result<i128>)
    requires results != [] && mean == Mean(results)
    ensures r == if AllFit(Deviations(results, mean)) then Ok(Variance(results)) else Err(Overflow)
  {
    ghost var squares := Squares(Deviations(results, mean));
    var total: i128 := 0;
    for i := 0 to |results|
      invariant forall j :: 0 <= j < i ==> FitsI128(Deviations(results, mean)[j])
      invariant total == SatSum(squares[..i])
    {
      assert squares[..i + 1][..i] == squares[..i];
      var diff := results[i] - mean;
      assert diff == Deviations(results, mean)[i];
      if !FitsI128(diff) {
        return Err(Overflow);
      }
      total := ClampI128(total + ClampI128(diff * diff));
    }
    assert squares[..|results|] == squares;
    var variance := Variance(results);
    return Ok(TruncDiv(total, |results|));
  }

  method RunMonteCarloSimulation(p: Params, draws: seq<u32>) returns (r: Result<StressResult>)
    requires |draws| == LOANS * p.simulationCount
    ensures r == MonteCarlo(p, draws)
  {
    if p.simulationCount == 0 {
      return Err(InvalidInput);
    }
    var results: seq<int> := [];
    var losses: u32 := 0;
    for i := 0 to p.simulationCount
      invariant results == EndValues(p, draws, i)
      invariant losses == CountBelow(results, p.portfolioValue) <= i
    {
      var period := SimulateSinglePeriod(p, draws[LOANS * i..LOANS * (i + 1)]);
      CountAppend(results, period.endValue, p.portfolioValue);
      results := results + [period.endValue];
      if period.endValue < p.portfolioValue {
        losses := losses + 1;
      }
    }
    r := CalculatePortfolioMetrics(results, p, losses);
  }
}
