/** Rebasing for the comparison chart: every series is scaled so that it
    starts at 100, and each name in the price table becomes one line,
    in the table's order. Drawing and saving the figure are not part of
    the model. */
module Chart {
  import opened RealFacts
  import opened Metrics
  import opened Runner

  /** The series scaled so that it starts at 100: p_i / p_0 * 100. */
  function Rebase(p: seq<real>): (q: seq<real>)
    requires |p| >= 1 && p[0] > 0.0
    ensures |q| == |p|
  {
    seq(|p|, i => RebasedAt(p, i))
  }

  /** Point i of the rebased series; the fallback 0 is never read, as
      Rebase only uses indices inside the series and requires a positive
      first price (see Metrics.ReturnAt). */
  function RebasedAt(p: seq<real>, i: int): real {
    if 0 <= i < |p| && p[0] > 0.0 then p[i] / p[0] * 100.0 else 0.0
  }

  /** Rebased point i, times the first price, is 100 times price i. */
  lemma RebasedPoint(p: seq<real>, i: nat)
    requires |p| >= 1 && p[0] > 0.0 && i < |p|
    ensures Rebase(p)[i] * p[0] == p[i] * 100.0
  {
    var v := Rebase(p)[i];
    assert v == p[i] / p[0] * 100.0;
    RatioFacts(p[i], p[0]);
    assert v * p[0] == (p[i] / p[0]) * p[0] * 100.0;
  }

  /** The rebased series starts at exactly 100. */
  lemma RebaseStartsAt100(p: seq<real>)
    requires |p| >= 1 && p[0] > 0.0
    ensures Rebase(p)[0] == 100.0
  {
    RebasedPoint(p, 0);
    CancelPositive(Rebase(p)[0], 100.0, p[0]);
  }

  /** Rebasing keeps the order of any two points. */
  lemma RebaseKeepsOrder(p: seq<real>, i: nat, j: nat)
    requires |p| >= 1 && p[0] > 0.0 && i < |p| && j < |p|
    ensures p[i] < p[j] <==> Rebase(p)[i] < Rebase(p)[j]
    ensures p[i] == p[j] <==> Rebase(p)[i] == Rebase(p)[j]
  {
    RebasedPoint(p, i);
    RebasedPoint(p, j);
    ScaledComparison(p[j], p[i], 100.0);
    ScaledComparison(Rebase(p)[j], Rebase(p)[i], p[0]);
    if Rebase(p)[i] * p[0] == Rebase(p)[j] * p[0] {
      CancelPositive(Rebase(p)[i], Rebase(p)[j], p[0]);
    }
  }

  /** Rebasing is undone by scaling back with p_0 / 100. */
  lemma RebaseRoundTrip(p: seq<real>)
    requires |p| >= 1 && p[0] > 0.0
    ensures forall i {:trigger p[i]} :: 0 <= i < |p| ==> Rebase(p)[i] * (p[0] / 100.0) == p[i]
  {
    forall i {:trigger p[i]} | 0 <= i < |p|
      ensures Rebase(p)[i] * (p[0] / 100.0) == p[i]
    {
      RebasedPoint(p, i);
      assert Rebase(p)[i] * (p[0] / 100.0) == (Rebase(p)[i] * p[0]) / 100.0;
    }
  }

  /** The last rebased point is 100 plus the total return. */
  lemma RebasedEndIsTotalReturn(p: seq<real>)
    requires |p| >= 1 && p[0] > 0.0
    ensures Rebase(p)[|p| - 1] == 100.0 + TotalReturn(p)
  {
    var last := |p| - 1;
    RebasedPoint(p, last);
    TotalReturnRebuildsLast(p);
    assert (100.0 + TotalReturn(p)) * p[0] == p[last] * 100.0;
    CancelPositive(Rebase(p)[last], 100.0 + TotalReturn(p), p[0]);
  }

  /** A rebased series is already based at 100: rebasing it again changes
      nothing. */
  lemma RebaseIdempotent(p: seq<real>)
    requires |p| >= 1 && p[0] > 0.0
    ensures Rebase(Rebase(p)) == Rebase(p)
  {
    var q := Rebase(p);
    RebaseStartsAt100(p);
    forall i | 0 <= i < |q|
      ensures Rebase(q)[i] == q[i]
    {
      assert Rebase(q)[i] == q[i] / 100.0 * 100.0;
    }
  }

  /** One chart line: a name and its rebased prices. */
  datatype Line = Line(name: string, values: seq<real>)

  /** Every series in the table has a positive first price. */
  ghost predicate Chartable(t: PriceTable) {
    forall n :: n in t.series ==> |t.series[n]| >= 1 && t.series[n][0] > 0.0
  }

  /** The chart's lines, one per listed name, in insertion order. */
  function Lines(names: seq<string>, t: PriceTable): (ls: seq<Line>)
    requires Chartable(t) && forall n :: n in names ==> n in t.series
    ensures |ls| == |names|
    ensures forall k :: 0 <= k < |ls| ==> ls[k].name == names[k]
    ensures forall k :: 0 <= k < |ls| ==> ls[k].values == Rebase(t.series[names[k]])
    decreases |names|
  {
    if |names| == 0 then []
    else
      var n := names[|names| - 1];
      Lines(names[..|names| - 1], t) + [Line(n, Rebase(t.series[n]))]
  }

  /** The price table a run hands to the chart, after the tickers and the
      index, can be charted: each listed name has a stored series, and each
      stored series is a price series. */
  lemma CollectedTableChartable(tickers: seq<string>, index: Option<IndexName>,
      fetch: (string, int, int) -> Download, startYear: int, endYear: int, num: Numerics)
    requires Fetchable(fetch, startYear, endYear)
    ensures var t := CollectAll(tickers, index, fetch, startYear, endYear, num).table;
      Chartable(t) && forall n :: n in t.names ==> n in t.series
  {
    AllTableMatchesResults(tickers, index, fetch, startYear, endYear, num);
  }

  /** The chart of a run: one line per stored name, in the table's order,
      each the rebased series of the download stored under that name; with
      an index that succeeds and whose name is new, its line is the last. */
  lemma RunChart(tickers: seq<string>, ix: IndexName,
      fetch: (string, int, int) -> Download, startYear: int, endYear: int, num: Numerics)
    requires Fetchable(fetch, startYear, endYear)
    requires Succeeds(fetch(ix.Symbol(), startYear, endYear))
    requires ix.Label() !in CollectTickers(tickers, fetch, startYear, endYear, num).table.names
    ensures var t := CollectAll(tickers, Some(ix), fetch, startYear, endYear, num).table;
      Chartable(t) && (forall n :: n in t.names ==> n in t.series) &&
      var ls := Lines(t.names, t);
      |ls| > 0 && ls[|ls| - 1].name == ix.Label() &&
      ls[|ls| - 1].values == Rebase(fetch(ix.Symbol(), startYear, endYear).closes)
  {
    CollectedTableChartable(tickers, Some(ix), fetch, startYear, endYear, num);
    IndexEntryLast(tickers, ix, fetch, startYear, endYear, num);
  }
}
