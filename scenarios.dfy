/** Worked cases: two short price series and one run with a failing
    ticker and an index that comes back with a single close. */
module Scenarios {
  import opened Metrics
  import opened Runner

  /** A single fall on the first move is no drawdown: the growth path
      starts after that move, so its only point is its own peak. */
  lemma FirstMoveFallIsNoDrawdown(p: seq<real>)
    requires |p| == 2 && p[0] == 100.0 && p[1] == 90.0
    ensures MaxDrawdown(p) == 0.0
    ensures TotalReturn(p) == -10.0
  {
    MaxDrawdownZeroIff(p);
  }

  /** Drawdowns of the path 110, 99, 121: 0 at the first peak, -10% at 99,
      and 0 again at the new peak 121; the worst of them is -10%. */
  lemma LaterDrawdowns(q: seq<real>)
    requires |q| == 3 && q[0] == 110.0 && q[1] == 99.0 && q[2] == 121.0
    ensures AllPositive(q)
    ensures Drawdowns(q) == [0.0, -0.1, 0.0]
    ensures SeqMin(Drawdowns(q)) == -0.1
  {
    assert CumMax(q)[0] == q[0] by { RunningMaxAt(q, 0); }
    assert CumMax(q)[1] == q[0] by { assert RunningMax(q, 1) == RunningMax(q, 0); }
    assert CumMax(q)[2] == q[2] by { assert RunningMax(q, 2) == q[2]; }
    DrawdownFromPeak(q, 0, 0);
    DrawdownFromPeak(q, 1, 0);
    DrawdownFromPeak(q, 2, 2);
    WorstOfThree(Drawdowns(q));
  }

  lemma WorstOfThree(d: seq<real>)
    requires d == [0.0, -0.1, 0.0]
    ensures SeqMin(d) == -0.1
  {
    assert d[..2] == [0.0, -0.1];
    assert d[..2][..1] == [0.0];
  }

  /** Rise to 110, fall to 99, recover to 121: total return 21% and a
      maximum drawdown of -10%, at 99 against the peak of 110. */
  lemma RiseFallRecover(p: seq<real>)
    requires |p| == 4 && p[0] == 100.0 && p[1] == 110.0 && p[2] == 99.0 && p[3] == 121.0
    ensures TotalReturn(p) == 21.0
    ensures MaxDrawdown(p) == -10.0
  {
    MaxDrawdownOfLaterPrices(p);
    var q := p[1..];
    assert |q| == 3 && q[0] == 110.0 && q[1] == 99.0 && q[2] == 121.0;
    LaterDrawdowns(q);
  }

  lemma WorkedSurvivors(tickers: seq<string>, fetch: (string, int, int) -> Download)
    requires tickers == ["AAPL", "XXXX", "MSFT"]
    requires Succeeds(fetch("AAPL", 2020, 2024)) && Succeeds(fetch("MSFT", 2020, 2024))
    requires fetch("XXXX", 2020, 2024) == Failed
    ensures Survivors(tickers, fetch, 2020, 2024) == ["AAPL", "MSFT"]
  {
    var t1, t2 := tickers[..1], tickers[..2];
    assert t2[..1] == t1 && t1[..0] == [];
    assert Survivors(t1, fetch, 2020, 2024) == ["AAPL"];
    assert Survivors(t2, fetch, 2020, 2024) == ["AAPL"];
  }

  /** Tickers AAPL, XXXX and MSFT against the S&P 500, where XXXX has no
      data and the index comes back with a single close: XXXX and the index
      are dropped, and the other two keep their order in the results. */
  lemma WorkedRunResults(tickers: seq<string>, fetch: (string, int, int) -> Download, num: Numerics)
    requires tickers == ["AAPL", "XXXX", "MSFT"]
    requires Fetchable(fetch, 2020, 2024)
    requires Succeeds(fetch("AAPL", 2020, 2024)) && Succeeds(fetch("MSFT", 2020, 2024))
    requires fetch("XXXX", 2020, 2024) == Failed
    requires fetch("^GSPC", 2020, 2024) == Frame([4000.0])
    ensures Labels(CollectAll(tickers, Some(SP500), fetch, 2020, 2024, num).results) == ["AAPL", "MSFT"]
  {
    WorkedSurvivors(tickers, fetch);
    ResultsFollowTickers(tickers, fetch, 2020, 2024, num);
    IndexEntryLast(tickers, SP500, fetch, 2020, 2024, num);
  }

  /** The same run: the price table, and so the chart, lists AAPL and then
      MSFT. */
  lemma WorkedRunTable(tickers: seq<string>, fetch: (string, int, int) -> Download, num: Numerics)
    requires tickers == ["AAPL", "XXXX", "MSFT"]
    requires Fetchable(fetch, 2020, 2024)
    requires Succeeds(fetch("AAPL", 2020, 2024)) && Succeeds(fetch("MSFT", 2020, 2024))
    requires fetch("XXXX", 2020, 2024) == Failed
    requires fetch("^GSPC", 2020, 2024) == Frame([4000.0])
    ensures CollectAll(tickers, Some(SP500), fetch, 2020, 2024, num).table.names == ["AAPL", "MSFT"]
  {
    WorkedSurvivors(tickers, fetch);
    NamesFollowTickers(tickers, fetch, 2020, 2024, num);
    IndexEntryLast(tickers, SP500, fetch, 2020, 2024, num);
  }
}
