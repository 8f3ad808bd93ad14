/** Performance metrics of one daily closing-price series: daily simple
    returns, total return, the cumulative growth path, its running maximum,
    drawdowns, maximum drawdown and the Sharpe ratio with its zero-volatility
    guard. Prices are exact reals; the fractional power of the annualized
    return and the sample standard deviation behind the volatility are
    supplied from outside as a `Numerics` bundle. */
module Metrics {
  import opened RealFacts

  /** Trading days per year used to annualize. */
  const TradingDaysPerYear: real := 252.0

  /** Annual risk-free rate (4%) used by the Sharpe ratio. */
  const RiskFreeRate: real := 0.04

  predicate AllPositive(s: seq<real>) {
    forall i :: 0 <= i < |s| ==> s[i] > 0.0
  }

  /** A closing-price series the metrics are computed on: at least two
      strictly positive prices, in chronological order. */
  predicate IsPriceSeries(p: seq<real>) {
    |p| >= 2 && AllPositive(p)
  }

  predicate NonDecreasing(s: seq<real>) {
    forall i, j :: 0 <= i <= j < |s| ==> s[i] <= s[j]
  }

  /** The irrational parts of the metrics, left to the caller: `pow(x, y)`
      is x raised to y, `sampleStd` the sample standard deviation of a
      sequence (divisor n - 1), `sqrt` the square root. */
  datatype Numerics = Numerics(
    pow: (real, real) -> real,
    sampleStd: seq<real> -> real,
    sqrt: real -> real)

  /** One row of the metrics table, at full precision. */
  datatype MetricsRecord = MetricsRecord(
    ticker: string,
    totalReturn: real,
    annualizedReturn: real,
    volatility: real,
    maxDrawdown: real,
    sharpeRatio: real)

  // ---------------------------------------------------------------------
  // Daily returns and total return

  /** Simple return from price `prev` to price `next`. */
  function SimpleReturn(prev: real, next: real): real
    requires prev > 0.0
  {
    next / prev - 1.0
  }

  /** Percentage change between consecutive prices, with the undefined
      change of the first price dropped: one return per pair of
      neighbouring prices. */
  function DailyReturns(p: seq<real>): (r: seq<real>)
    requires AllPositive(p)
    ensures |r| == if |p| == 0 then 0 else |p| - 1
  {
    if |p| == 0 then []
    else seq(|p| - 1, i => ReturnAt(p, i))
  }

  /** Return i of `p`, from p_i to p_(i+1). Element functions such as this
      one are total so that the sequences built from them need no
      precondition: the fallback value (here 0) stands for no data, and no
      sequence built from them ever reads it, since they only use indices
      inside the domain. The same holds for GrowthAt, PeakAt, DeclineAt and
      Chart.RebasedAt. */
  function ReturnAt(p: seq<real>, i: int): real {
    if 0 <= i < |p| - 1 && p[i] > 0.0 then SimpleReturn(p[i], p[i + 1]) else 0.0
  }

  /** Each daily return carries the previous price to the next one, so the
      prices are recovered from p_0 and the returns. */
  lemma ReturnsRebuildPrices(p: seq<real>)
    requires AllPositive(p) && |p| >= 1
    ensures Rebuilds(p, DailyReturns(p))
  {
    forall i {:trigger DailyReturns(p)[i]} | 0 <= i < |p| - 1
      ensures (1.0 + DailyReturns(p)[i]) * p[i] == p[i + 1]
    {
      ReturnRebuildsAt(p, i);
    }
  }

  lemma ReturnRebuildsAt(p: seq<real>, i: nat)
    requires AllPositive(p) && i < |p| - 1
    ensures (1.0 + DailyReturns(p)[i]) * p[i] == p[i + 1]
  {
    assert DailyReturns(p)[i] == p[i + 1] / p[i] - 1.0;
    RatioFacts(p[i + 1], p[i]);
  }

  lemma ReturnSign(prev: real, next: real, ret: real)
    requires prev > 0.0 && ret == SimpleReturn(prev, next)
    ensures ret > -1.0 <==> next > 0.0
    ensures ret > 0.0 <==> next > prev
    ensures ret == 0.0 <==> next == prev
  {
    RatioFacts(next, prev);
  }

  /** Every daily return of positive prices exceeds -100%, and it is
      positive (zero) exactly when the price rose (stayed put). */
  lemma ReturnsSigns(p: seq<real>)
    requires AllPositive(p)
    ensures forall i :: 0 <= i < |p| - 1 ==> DailyReturns(p)[i] > -1.0
    ensures forall i {:trigger DailyReturns(p)[i]} :: 0 <= i < |p| - 1 ==>
      (DailyReturns(p)[i] > 0.0 <==> p[i + 1] > p[i])
    ensures forall i {:trigger DailyReturns(p)[i]} :: 0 <= i < |p| - 1 ==>
      (DailyReturns(p)[i] == 0.0 <==> p[i + 1] == p[i])
  {
    forall i {:trigger DailyReturns(p)[i]} | 0 <= i < |p| - 1
      ensures DailyReturns(p)[i] > -1.0
      ensures DailyReturns(p)[i] > 0.0 <==> p[i + 1] > p[i]
      ensures DailyReturns(p)[i] == 0.0 <==> p[i + 1] == p[i]
    {
      ReturnSignAt(p, i);
    }
  }

  lemma ReturnSignAt(p: seq<real>, i: nat)
    requires AllPositive(p) && i < |p| - 1
    ensures DailyReturns(p)[i] > -1.0
    ensures DailyReturns(p)[i] > 0.0 <==> p[i + 1] > p[i]
    ensures DailyReturns(p)[i] == 0.0 <==> p[i + 1] == p[i]
  {
    ReturnSign(p[i], p[i + 1], DailyReturns(p)[i]);
  }

  /** Total return in percent, from the first to the last price. */
  function TotalReturn(p: seq<real>): (t: real)
    requires |p| >= 1 && p[0] > 0.0
    ensures t > 0.0 <==> p[|p| - 1] > p[0]
    ensures t == 0.0 <==> p[|p| - 1] == p[0]
    ensures t < 0.0 <==> p[|p| - 1] < p[0]
  {
    RatioFacts(p[|p| - 1], p[0]);
    (p[|p| - 1] / p[0] - 1.0) * 100.0
  }

  /** The total return, as a factor, carries the first price to the last. */
  lemma TotalReturnRebuildsLast(p: seq<real>)
    requires |p| >= 1 && p[0] > 0.0
    ensures (1.0 + TotalReturn(p) / 100.0) * p[0] == p[|p| - 1]
  {
    RatioFacts(p[|p| - 1], p[0]);
  }

  // ---------------------------------------------------------------------
  // Cumulative growth path

  /** Growth after the first k returns: the product of (1 + r_j) for
      j < k. */
  function GrowthUpTo(r: seq<real>, k: nat): real
    requires k <= |r|
  {
    if k == 0 then 1.0 else GrowthUpTo(r, k - 1) * (1.0 + r[k - 1])
  }

  /** The cumulative product of (1 + r): its i-th value is the growth after
      return i. */
  function CumulativeGrowth(r: seq<real>): (c: seq<real>)
    ensures |c| == |r|
  {
    seq(|r|, i => GrowthAt(r, i))
  }

  /** Growth after return i; the fallback 1 is never read (see ReturnAt). */
  function GrowthAt(r: seq<real>, i: int): real {
    if 0 <= i < |r| then GrowthUpTo(r, i + 1) else 1.0
  }

  /** The growth path starts at 1 + r_0, not at 1, and each later value is
      the previous one times (1 + r_i). */
  lemma CumulativeGrowthSteps(r: seq<real>)
    ensures |r| > 0 ==> CumulativeGrowth(r)[0] == 1.0 + r[0]
    ensures forall i {:trigger r[i]} :: 0 < i < |r| ==>
      CumulativeGrowth(r)[i] == CumulativeGrowth(r)[i - 1] * (1.0 + r[i])
  {
    if |r| > 0 {
      assert GrowthUpTo(r, 1) == GrowthUpTo(r, 0) * (1.0 + r[0]);
    }
    forall i {:trigger r[i]} | 0 < i < |r|
      ensures CumulativeGrowth(r)[i] == CumulativeGrowth(r)[i - 1] * (1.0 + r[i])
    {
      assert CumulativeGrowth(r)[i] == GrowthUpTo(r, i + 1);
    }
  }

  /** Returns above -100% compound to a positive growth. */
  lemma {:induction false} GrowthUpToPositive(r: seq<real>, k: nat)
    requires k <= |r|
    requires forall j :: 0 <= j < |r| ==> r[j] > -1.0
    ensures GrowthUpTo(r, k) > 0.0
  {
    if k > 0 {
      GrowthUpToPositive(r, k - 1);
      MulSign(GrowthUpTo(r, k - 1), 1.0 + r[k - 1]);
    }
  }

  /** When every return exceeds -100% the growth path stays positive. */
  lemma CumulativeGrowthPositive(r: seq<real>)
    requires forall j :: 0 <= j < |r| ==> r[j] > -1.0
    ensures AllPositive(CumulativeGrowth(r))
  {
    forall i | 0 <= i < |r|
      ensures CumulativeGrowth(r)[i] > 0.0
    {
      assert CumulativeGrowth(r)[i] == GrowthUpTo(r, i + 1);
      GrowthUpToPositive(r, i + 1);
    }
  }

  /** The growth path of a price series' returns is positive. */
  lemma PriceGrowthPositive(p: seq<real>)
    requires AllPositive(p)
    ensures AllPositive(CumulativeGrowth(DailyReturns(p)))
  {
    ReturnsSigns(p);
    CumulativeGrowthPositive(DailyReturns(p));
  }

  /** Returns `r` carry each price of `p` to the next one. */
  predicate Rebuilds(p: seq<real>, r: seq<real>) {
    |r| == |p| - 1 &&
    forall j {:trigger r[j]} :: 0 <= j < |r| ==> (1.0 + r[j]) * p[j] == p[j + 1]
  }

  /** The growth over the first k returns that rebuild `p` telescopes to
      p_k / p_0. */
  lemma {:induction false} GrowthTelescopes(p: seq<real>, r: seq<real>, k: nat)
    requires Rebuilds(p, r) && k < |p|
    ensures GrowthUpTo(r, k) * p[0] == p[k]
  {
    if k == 0 {
      assert GrowthUpTo(r, 0) == 1.0;
    } else {
      GrowthTelescopes(p, r, k - 1);
      TelescopeStep(GrowthUpTo(r, k), GrowthUpTo(r, k - 1), r[k - 1], p[0], p[k - 1], p[k]);
    }
  }

  /** The growth value after return i is p_(i+1) / p_0. */
  lemma GrowthIsPriceRatioAt(p: seq<real>, i: nat)
    requires AllPositive(p) && i < |p| - 1
    ensures CumulativeGrowth(DailyReturns(p))[i] * p[0] == p[i + 1]
  {
    var r := DailyReturns(p);
    assert Rebuilds(p, r) by { ReturnsRebuildPrices(p); }
    GrowthPathRatio(p, r, i);
  }

  /** For any returns that rebuild `p`, the growth value after return i
      carries p_0 to p_(i+1). */
  lemma GrowthPathRatio(p: seq<real>, r: seq<real>, i: nat)
    requires Rebuilds(p, r) && i < |r|
    ensures CumulativeGrowth(r)[i] * p[0] == p[i + 1]
  {
    assert CumulativeGrowth(r)[i] == GrowthUpTo(r, i + 1);
    GrowthTelescopes(p, r, i + 1);
  }

  /** The last growth value is the total return as a factor. */
  lemma FinalGrowthIsTotalReturn(p: seq<real>)
    requires IsPriceSeries(p)
    ensures var c := CumulativeGrowth(DailyReturns(p));
      c[|c| - 1] == 1.0 + TotalReturn(p) / 100.0
  {
    var c := CumulativeGrowth(DailyReturns(p));
    var k := |p| - 2;
    assert |c| - 1 == k && k + 1 == |p| - 1;
    GrowthIsPriceRatioAt(p, k);
    FinalGrowthCore(c[k], p[0], p[k + 1], TotalReturn(p));
  }

  lemma FinalGrowthCore(g: real, first: real, last: real, t: real)
    requires first > 0.0 && g * first == last && t == (last / first - 1.0) * 100.0
    ensures g == 1.0 + t / 100.0
  {
    RatioFacts(last, first);
    CancelPositive(g, 1.0 + t / 100.0, first);
  }

  // ---------------------------------------------------------------------
  // Running maximum and minimum

  /** Smallest element of a non-empty sequence. */
  function SeqMin(s: seq<real>): (m: real)
    requires |s| > 0
    ensures forall i :: 0 <= i < |s| ==> m <= s[i]
    ensures exists i :: 0 <= i < |s| && s[i] == m
    decreases |s|
  {
    if |s| == 1 then s[0]
    else
      var m := SeqMin(s[..|s| - 1]);
      if s[|s| - 1] < m then s[|s| - 1] else m
  }

  /** Value v is one of c_0 .. c_i. */
  predicate Attained(c: seq<real>, i: int, v: real) {
    exists j :: 0 <= j <= i && j < |c| && c[j] == v
  }

  /** Largest of c_0 .. c_k, carried forward one point at a time. */
  function RunningMax(c: seq<real>, k: nat): real
    requires k < |c|
  {
    if k == 0 then c[0]
    else
      var m := RunningMax(c, k - 1);
      if c[k] > m then c[k] else m
  }

  /** Running maximum: the i-th value is the largest of c_0 .. c_i. */
  function CumMax(c: seq<real>): (m: seq<real>)
    ensures |m| == |c|
  {
    seq(|c|, i => PeakAt(c, i))
  }

  /** Running maximum at i; the fallback 0 is never read (see ReturnAt). */
  function PeakAt(c: seq<real>, i: int): real {
    if 0 <= i < |c| then RunningMax(c, i) else 0.0
  }

  /** The running maximum at i bounds c_0 .. c_i and is one of them. */
  lemma {:induction false} RunningMaxAt(c: seq<real>, i: nat)
    requires i < |c|
    ensures forall j :: 0 <= j <= i ==> c[j] <= RunningMax(c, i)
    ensures Attained(c, i, RunningMax(c, i))
  {
    if i > 0 {
      RunningMaxAt(c, i - 1);
    } else {
      assert c[0] == RunningMax(c, 0);
    }
  }

  lemma CumMaxAt(c: seq<real>, i: nat)
    requires i < |c|
    ensures forall j :: 0 <= j <= i ==> c[j] <= CumMax(c)[i]
    ensures Attained(c, i, CumMax(c)[i])
  {
    RunningMaxAt(c, i);
  }

  /** The running maximum bounds every earlier value, is attained, and
      never decreases. */
  lemma CumMaxFacts(c: seq<real>)
    ensures forall i, j :: 0 <= j <= i < |c| ==> c[j] <= CumMax(c)[i]
    ensures forall i :: 0 <= i < |c| ==> Attained(c, i, CumMax(c)[i])
    ensures NonDecreasing(CumMax(c))
  {
    forall i | 0 <= i < |c|
      ensures forall j :: 0 <= j <= i ==> c[j] <= CumMax(c)[i]
      ensures Attained(c, i, CumMax(c)[i])
    {
      CumMaxAt(c, i);
    }
    forall i, j | 0 <= i <= j < |c|
      ensures CumMax(c)[i] <= CumMax(c)[j]
    {
      CumMaxAt(c, i);
      CumMaxAt(c, j);
    }
  }

  /** c and q rank their elements alike. */
  predicate SameOrder(c: seq<real>, q: seq<real>) {
    |c| == |q| &&
    forall j, l :: 0 <= j < |c| && 0 <= l < |c| ==> (c[j] <= c[l] <==> q[j] <= q[l])
  }

  /** Paths that rank their points alike reach their running maxima at
      the same points. */
  lemma CumMaxFollowsOrder(c: seq<real>, q: seq<real>, i: nat, a: nat)
    requires SameOrder(c, q) && a <= i < |c| && c[a] == CumMax(c)[i]
    ensures CumMax(q)[i] == q[a]
  {
    CumMaxAt(c, i);
    CumMaxAt(q, i);
    var b :| 0 <= b <= i && b < |q| && q[b] == CumMax(q)[i];
    assert c[b] <= c[a];
  }

  /** Scaling by a positive factor keeps the ranking. */
  lemma ScaledSameOrder(c: seq<real>, q: seq<real>, k: real)
    requires |c| == |q| && k > 0.0
    requires forall j {:trigger c[j]} :: 0 <= j < |c| ==> c[j] * k == q[j]
    ensures SameOrder(c, q)
  {
    forall j, l | 0 <= j < |c| && 0 <= l < |c|
      ensures c[j] <= c[l] <==> q[j] <= q[l]
    {
      ScaledComparison(c[j], c[l], k);
    }
  }

  // ---------------------------------------------------------------------
  // Drawdowns

  /** Fractional decline of `x` from `peak`. */
  function Decline(x: real, peak: real): real
    requires peak > 0.0
  {
    (x - peak) / peak
  }

  /** Fractional decline of each point from its running maximum. */
  function Drawdowns(c: seq<real>): (d: seq<real>)
    requires AllPositive(c)
    ensures |d| == |c|
  {
    seq(|c|, i => DeclineAt(c, CumMax(c), i))
  }

  /** Decline of c_i from peak m_i; the fallback 0 is never read, as every
      peak of a positive path is positive (see ReturnAt). */
  function DeclineAt(c: seq<real>, m: seq<real>, i: int): real {
    if 0 <= i < |c| && i < |m| && m[i] > 0.0 then Decline(c[i], m[i]) else 0.0
  }

  /** Every drawdown lies in (-1, 0], and it is 0 exactly at a point that
      is at least as high as every earlier point. */
  lemma DrawdownsBounds(c: seq<real>)
    requires AllPositive(c)
    ensures forall i :: 0 <= i < |c| ==> -1.0 < Drawdowns(c)[i] <= 0.0
    ensures forall i :: 0 <= i < |c| ==>
      (Drawdowns(c)[i] == 0.0 <==> forall j :: 0 <= j <= i ==> c[j] <= c[i])
  {
    forall i | 0 <= i < |c|
      ensures -1.0 < Drawdowns(c)[i] <= 0.0
      ensures Drawdowns(c)[i] == 0.0 <==> forall j :: 0 <= j <= i ==> c[j] <= c[i]
    {
      DrawdownAt(c, i);
    }
  }

  lemma DrawdownAt(c: seq<real>, i: nat)
    requires AllPositive(c) && i < |c|
    ensures -1.0 < Drawdowns(c)[i] <= 0.0
    ensures Drawdowns(c)[i] == 0.0 <==> forall j :: 0 <= j <= i ==> c[j] <= c[i]
  {
    var m := CumMax(c);
    CumMaxAt(c, i);
    var k :| 0 <= k <= i && k < |c| && c[k] == m[i];
    DeclineBounds(c[i], m[i]);
  }

  /** Drawdowns do not depend on the scale of the path: a path and the
      same path times k > 0 have the same drawdowns. */
  lemma DrawdownsScaleFree(c: seq<real>, q: seq<real>, k: real)
    requires AllPositive(c) && AllPositive(q) && |c| == |q| && k > 0.0
    requires forall j {:trigger c[j]} :: 0 <= j < |c| ==> c[j] * k == q[j]
    ensures Drawdowns(c) == Drawdowns(q)
  {
    ScaledSameOrder(c, q, k);
    forall i | 0 <= i < |c|
      ensures Drawdowns(c)[i] == Drawdowns(q)[i]
    {
      CumMaxAt(c, i);
      var a :| 0 <= a <= i && a < |c| && c[a] == CumMax(c)[i];
      CumMaxFollowsOrder(c, q, i, a);
      DrawdownScaleFreeAt(c, q, k, i, a);
    }
  }

  /** Drawdown i is the same for c and for q = k * c, both peaking at a. */
  lemma DrawdownScaleFreeAt(c: seq<real>, q: seq<real>, k: real, i: nat, a: nat)
    requires AllPositive(c) && AllPositive(q) && i < |c| == |q| && a < |c| && k > 0.0
    requires CumMax(c)[i] == c[a] && CumMax(q)[i] == q[a]
    requires q[i] == c[i] * k && q[a] == c[a] * k
    ensures Drawdowns(c)[i] == Drawdowns(q)[i]
  {
    DrawdownFromPeak(c, i, a);
    DrawdownFromPeak(q, i, a);
    DeclineScaleFree(c[i], c[a], q[i], q[a], k);
  }

  /** Where the running maximum at i is c_a, drawdown i is the decline of
      c_i from c_a. */
  lemma DrawdownFromPeak(c: seq<real>, i: nat, a: nat)
    requires AllPositive(c) && i < |c| && a < |c| && CumMax(c)[i] == c[a]
    ensures Drawdowns(c)[i] == Decline(c[i], c[a])
  {
    assert c[a] > 0.0;
    assert Drawdowns(c)[i] == DeclineAt(c, CumMax(c), i);
  }

  /** Maximum drawdown in percent: the worst drawdown of the growth path. */
  function MaxDrawdown(p: seq<real>): (md: real)
    requires IsPriceSeries(p)
    ensures -100.0 < md <= 0.0
  {
    var c := CumulativeGrowth(DailyReturns(p));
    PriceGrowthPositive(p);
    DrawdownsBounds(c);
    SeqMin(Drawdowns(c)) * 100.0
  }

  /** The growth path is the later prices scaled by 1 / p_0. */
  lemma GrowthScalesToPrices(p: seq<real>)
    requires IsPriceSeries(p)
    ensures forall j {:trigger CumulativeGrowth(DailyReturns(p))[j]} :: 0 <= j < |p| - 1 ==>
      CumulativeGrowth(DailyReturns(p))[j] * p[0] == p[1..][j]
  {
    forall j | 0 <= j < |p| - 1
      ensures CumulativeGrowth(DailyReturns(p))[j] * p[0] == p[1..][j]
    {
      GrowthIsPriceRatioAt(p, j);
    }
  }

  /** The growth path is the price path after the first price, scaled by
      1 / p_0; so the maximum drawdown is that of the prices p_1 .. p_(n-1),
      and the first price never serves as a peak. */
  lemma MaxDrawdownOfLaterPrices(p: seq<real>)
    requires IsPriceSeries(p)
    ensures MaxDrawdown(p) == SeqMin(Drawdowns(p[1..])) * 100.0
  {
    var c := CumulativeGrowth(DailyReturns(p));
    PriceGrowthPositive(p);
    GrowthScalesToPrices(p);
    DrawdownsScaleFree(c, p[1..], p[0]);
  }

  /** Only the prices after the first decide the maximum drawdown. */
  lemma MaxDrawdownIgnoresFirstPrice(p: seq<real>, q: seq<real>)
    requires IsPriceSeries(p) && IsPriceSeries(q) && p[1..] == q[1..]
    ensures MaxDrawdown(p) == MaxDrawdown(q)
  {
    MaxDrawdownOfLaterPrices(p);
    MaxDrawdownOfLaterPrices(q);
  }

  /** A path that never falls has no drawdown. */
  lemma RisingPathHasNoDrawdown(c: seq<real>)
    requires AllPositive(c) && |c| > 0 && NonDecreasing(c)
    ensures SeqMin(Drawdowns(c)) == 0.0
  {
    forall i | 0 <= i < |c|
      ensures Drawdowns(c)[i] == 0.0
    {
      DrawdownAt(c, i);
    }
  }

  /** A fall from c_j to a later c_i is a negative drawdown at i. */
  lemma FallingPathHasDrawdown(c: seq<real>, j: nat, i: nat)
    requires AllPositive(c) && j <= i < |c| && c[j] > c[i]
    ensures SeqMin(Drawdowns(c)) < 0.0
  {
    DrawdownAt(c, i);
  }

  /** The worst drawdown of a positive path is 0 exactly when the path
      never falls. */
  lemma WorstDrawdownZeroIff(c: seq<real>)
    requires AllPositive(c) && |c| > 0
    ensures SeqMin(Drawdowns(c)) == 0.0 <==> NonDecreasing(c)
  {
    if NonDecreasing(c) {
      RisingPathHasNoDrawdown(c);
    } else {
      var j, i :| 0 <= j <= i < |c| && c[j] > c[i];
      FallingPathHasDrawdown(c, j, i);
    }
  }

  /** The maximum drawdown is 0 exactly when the prices after the first
      never fall. */
  lemma MaxDrawdownZeroIff(p: seq<real>)
    requires IsPriceSeries(p)
    ensures MaxDrawdown(p) == 0.0 <==> NonDecreasing(p[1..])
  {
    MaxDrawdownOfLaterPrices(p);
    WorstDrawdownZeroIff(p[1..]);
  }

  /** On a non-decreasing series the maximum drawdown is 0. */
  lemma NonDecreasingHasNoDrawdown(p: seq<real>)
    requires IsPriceSeries(p) && NonDecreasing(p)
    ensures MaxDrawdown(p) == 0.0
  {
    MaxDrawdownZeroIff(p);
    assert NonDecreasing(p[1..]) by {
      forall i, j | 0 <= i <= j < |p| - 1
        ensures p[1..][i] <= p[1..][j]
      {
        assert p[1..][i] == p[i + 1] && p[1..][j] == p[j + 1];
      }
    }
  }

  /** On a constant series every daily return, the total return and the
      maximum drawdown are 0. */
  lemma ConstantSeries(p: seq<real>)
    requires IsPriceSeries(p)
    requires forall i :: 0 <= i < |p| ==> p[i] == p[0]
    ensures TotalReturn(p) == 0.0 && MaxDrawdown(p) == 0.0
    ensures forall i :: 0 <= i < |p| - 1 ==> DailyReturns(p)[i] == 0.0
  {
    NonDecreasingHasNoDrawdown(p);
    ReturnsSigns(p);
  }

  // ---------------------------------------------------------------------
  // Annualized return, volatility, Sharpe ratio

  /** Sample length in years: the number of prices over 252. */
  function Years(n: nat): (y: real)
    ensures y * TradingDaysPerYear == n as real
    ensures n > 0 ==> y > 0.0
  {
    n as real / TradingDaysPerYear
  }

  /** Annualized return in percent: the total growth raised to 1/years.
      As a growth factor it is the price ratio from first to last close
      raised to 252 / n, for n closes. */
  function AnnualizedReturn(p: seq<real>, num: Numerics): (a: real)
    requires |p| >= 1 && p[0] > 0.0
    ensures 1.0 + a / 100.0 == num.pow(p[|p| - 1] / p[0], TradingDaysPerYear / |p| as real)
  {
    TotalReturnRebuildsLast(p);
    RatioFacts(p[|p| - 1], p[0]);
    CancelPositive(1.0 + TotalReturn(p) / 100.0, p[|p| - 1] / p[0], p[0]);
    var n := |p| as real;
    assert 1.0 / Years(|p|) == TradingDaysPerYear / n by {
      assert Years(|p|) * (TradingDaysPerYear / n) == 1.0;
    }
    (num.pow(1.0 + TotalReturn(p) / 100.0, 1.0 / Years(|p|)) - 1.0) * 100.0
  }

  /** Annualized volatility in percent: sample standard deviation of the
      daily returns times the square root of 252. */
  function Volatility(p: seq<real>, num: Numerics): (v: real)
    requires AllPositive(p)
    ensures num.sampleStd(DailyReturns(p)) >= 0.0 && num.sqrt(TradingDaysPerYear) >= 0.0 ==>
      v >= 0.0
    ensures num.sampleStd(DailyReturns(p)) == 0.0 ==> v == 0.0
  {
    var sd := num.sampleStd(DailyReturns(p));
    var root := num.sqrt(TradingDaysPerYear);
    assert sd >= 0.0 && root >= 0.0 ==> sd * root >= 0.0 by {
      if sd > 0.0 && root > 0.0 { MulSign(sd, root); }
    }
    sd * root * 100.0
  }

  /** Daily returns do not depend on the unit of the prices: scaling every
      close by k > 0 leaves them unchanged. */
  lemma ReturnsScaleFree(p: seq<real>, q: seq<real>, k: real)
    requires AllPositive(p) && |q| == |p| && k > 0.0
    requires forall j {:trigger p[j]} :: 0 <= j < |p| ==> q[j] == p[j] * k
    ensures AllPositive(q)
    ensures DailyReturns(q) == DailyReturns(p)
  {
    forall j | 0 <= j < |q|
      ensures q[j] > 0.0
    {
      assert q[j] == p[j] * k;
      MulSign(p[j], k);
    }
    forall i | 0 <= i < |p| - 1
      ensures DailyReturns(q)[i] == DailyReturns(p)[i]
    {
      assert q[i] == p[i] * k && q[i + 1] == p[i + 1] * k;
      RatioScaleFree(p[i + 1], p[i], q[i + 1], q[i], k);
    }
  }

  /** Hence so does the volatility. */
  lemma VolatilityScaleFree(p: seq<real>, q: seq<real>, k: real, num: Numerics)
    requires AllPositive(p) && |q| == |p| && k > 0.0
    requires forall j {:trigger p[j]} :: 0 <= j < |p| ==> q[j] == p[j] * k
    ensures AllPositive(q)
    ensures Volatility(q, num) == Volatility(p, num)
  {
    ReturnsScaleFree(p, q, k);
  }

  /** Sharpe ratio: excess annualized return over volatility, and 0 when
      volatility is not positive. */
  function SharpeRatio(annualized: real, volatility: real): (s: real)
    ensures volatility <= 0.0 ==> s == 0.0
    ensures volatility > 0.0 ==>
      s * (volatility / 100.0) == annualized / 100.0 - RiskFreeRate
    ensures volatility > 0.0 ==>
      (s > 0.0 <==> annualized > 4.0) && (s == 0.0 <==> annualized == 4.0)
  {
    var excess := annualized / 100.0 - RiskFreeRate;
    if volatility > 0.0 then
      RatioFacts(excess, volatility / 100.0);
      excess / (volatility / 100.0)
    else 0.0
  }

  /** The metrics row of one price series, labelled `name`. */
  function CalculateMetrics(p: seq<real>, name: string, num: Numerics): (m: MetricsRecord)
    requires IsPriceSeries(p)
    ensures m.ticker == name
    ensures m.totalReturn > 0.0 <==> p[|p| - 1] > p[0]
    ensures m.totalReturn == 0.0 <==> p[|p| - 1] == p[0]
    ensures m.totalReturn < 0.0 <==> p[|p| - 1] < p[0]
    ensures -100.0 < m.maxDrawdown <= 0.0
    ensures m.volatility <= 0.0 ==> m.sharpeRatio == 0.0
  {
    var annualized := AnnualizedReturn(p, num);
    var volatility := Volatility(p, num);
    MetricsRecord(
      name,
      TotalReturn(p),
      annualized,
      volatility,
      MaxDrawdown(p),
      SharpeRatio(annualized, volatility))
  }
}
