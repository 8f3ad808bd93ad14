/** The driver of a backtest: the year-range check, then one attempt per
    ticker in the order given, each one fetching closing prices and
    computing its metrics row, with a failing ticker skipped and the
    others carried on; then the optional market index, appended last under
    its index name; and an empty result list ending the run. The market
    data service is a parameter `fetch` of the model. */
module Runner {
  import opened Metrics

  datatype Option<T> = None | Some(value: T)

  /** The market indices a run can compare against. */
  datatype IndexName = SP500 | NASDAQ | DOW | RUSSELL2000 {
    /** The symbol the market data service knows the index by. */
    function Symbol(): (s: string)
      ensures |s| > 1 && s[0] == '^'
    {
      match this
      case SP500 => "^GSPC"
      case NASDAQ => "^IXIC"
      case DOW => "^DJI"
      case RUSSELL2000 => "^RUT"
    }

    /** The name the index goes by in the results and on the chart. */
    function Label(): (l: string)
      ensures |l| > 1 && 'A' <= l[0] <= 'Z'
    {
      match this
      case SP500 => "SP500"
      case NASDAQ => "NASDAQ"
      case DOW => "DOW"
      case RUSSELL2000 => "RUSSELL2000"
    }
  }

  /** What the market data service gives for one symbol and period: a
      failure (any exception on the way) or a frame of daily closes, which
      may have no rows. */
  datatype Download = Failed | Frame(closes: seq<real>)

  /** The close column after squeezing: a one-row frame squeezes to a
      single number, a longer one stays a series. */
  datatype Closes = Scalar(price: real) | Series(prices: seq<real>)

  /** Closing prices are positive, as market prices are. */
  predicate ValidDownload(d: Download) {
    d.Frame? ==> AllPositive(d.closes)
  }

  /** The service yields positive closes for every symbol, for the dates
      startYear-01-01 and endYear-12-31 that the run passes to it; which
      days those bounds include is the service's own convention. */
  ghost predicate Fetchable(fetch: (string, int, int) -> Download, startYear: int, endYear: int) {
    forall t :: ValidDownload(fetch(t, startYear, endYear))
  }

  /** A download that yields a metrics row: a frame of at least two closes. */
  predicate Succeeds(d: Download) {
    d.Frame? && |d.closes| >= 2
  }

  /** The data of one symbol, or None when the download failed or came back
      empty. */
  function FetchData(d: Download): (r: Option<seq<real>>)
    ensures r.Some? <==> d.Frame? && |d.closes| > 0
    ensures r.Some? ==> r.value == d.closes && |r.value| > 0
  {
    match d
    case Failed => None
    case Frame(c) => if |c| == 0 then None else Some(c)
  }

  function Squeeze(c: seq<real>): (r: Closes)
    requires |c| > 0
    ensures r.Scalar? <==> |c| == 1
    ensures r.Scalar? ==> r.price == c[0]
    ensures r.Series? ==> r.prices == c
  {
    if |c| == 1 then Scalar(c[0]) else Series(c)
  }

  /** A metrics row together with the prices it came from. */
  datatype Entry = Entry(record: MetricsRecord, prices: seq<real>)

  /** One guarded attempt: fetch, squeeze and compute the metrics under
      `name`; None when any of these raises. */
  function Attempt(d: Download, name: string, num: Numerics): (r: Option<Entry>)
    requires ValidDownload(d)
    ensures r.Some? <==> Succeeds(d)
    ensures r.Some? ==> r.value.prices == d.closes && IsPriceSeries(d.closes)
    ensures r.Some? ==> r.value.record.ticker == name
  {
    match FetchData(d)
    case None => None
    case Some(c) =>
      match Squeeze(c)
      case Scalar(_) => None
      case Series(p) => Some(Entry(CalculateMetrics(p, name, num), p))
  }

  // ---------------------------------------------------------------------
  // The price table: an insertion-ordered dictionary from name to prices

  /** Names in insertion order, and the prices stored under each. */
  datatype PriceTable = PriceTable(names: seq<string>, series: map<string, seq<real>>) {
    /** Each name is listed once, and the listed names are the keys. */
    ghost predicate Valid() {
      (forall i, j :: 0 <= i < j < |names| ==> names[i] != names[j]) &&
      (forall n :: n in series <==> n in names)
    }

    /** Store `prices` under `name`: a new name goes to the end, a name
        already present keeps its place and gets the new prices. */
    function Put(name: string, prices: seq<real>): (t: PriceTable)
      requires Valid()
      ensures t.Valid()
      ensures t.series == series[name := prices]
      ensures name in names ==> t.names == names
      ensures name !in names ==> t.names == names + [name]
    {
      if name in series then PriceTable(names, series[name := prices])
      else PriceTable(names + [name], series[name := prices])
    }
  }

  const EmptyTable := PriceTable([], map[])

  /** The two collections `main` builds: the results list and the price
      table. */
  datatype Collected = Collected(results: seq<MetricsRecord>, table: PriceTable)

  /** One ticker's turn: on success the row is appended and the prices are
      stored under `name`; on failure nothing changes. */
  function Step(acc: Collected, name: string, d: Download, num: Numerics): (r: Collected)
    requires acc.table.Valid() && ValidDownload(d)
    ensures r.table.Valid()
    ensures !Succeeds(d) ==> r == acc
    ensures Succeeds(d) ==>
      r.results == acc.results + [CalculateMetrics(d.closes, name, num)] &&
      r.table == acc.table.Put(name, d.closes)
  {
    match Attempt(d, name, num)
    case None => acc
    case Some(e) => Collected(acc.results + [e.record], acc.table.Put(name, e.prices))
  }

  /** What the loop over the tickers leaves behind. */
  function CollectTickers(tickers: seq<string>, fetch: (string, int, int) -> Download,
                          startYear: int, endYear: int, num: Numerics): (c: Collected)
    requires Fetchable(fetch, startYear, endYear)
    ensures c.table.Valid()
    decreases |tickers|
  {
    if |tickers| == 0 then Collected([], EmptyTable)
    else
      var last := tickers[|tickers| - 1];
      Step(CollectTickers(tickers[..|tickers| - 1], fetch, startYear, endYear, num),
           last, fetch(last, startYear, endYear), num)
  }

  /** What the tickers and then the optional index leave behind. */
  function CollectAll(tickers: seq<string>, index: Option<IndexName>,
                      fetch: (string, int, int) -> Download,
                      startYear: int, endYear: int, num: Numerics): (c: Collected)
    requires Fetchable(fetch, startYear, endYear)
    ensures c.table.Valid()
  {
    var c := CollectTickers(tickers, fetch, startYear, endYear, num);
    match index
    case None => c
    case Some(ix) => Step(c, ix.Label(), fetch(ix.Symbol(), startYear, endYear), num)
  }

  /** How a run ends: the year range was rejected, nothing could be
      analysed, or there is a report to display, save and chart. */
  datatype Outcome = BadRange | NoData | Report(results: seq<MetricsRecord>, table: PriceTable)

  /** The run of `main`, from the year check to the report. */
  method Run(tickers: seq<string>, startYear: int, endYear: int, index: Option<IndexName>,
             fetch: (string, int, int) -> Download, num: Numerics) returns (o: Outcome)
    requires Fetchable(fetch, startYear, endYear)
    ensures startYear > endYear <==> o == BadRange
    ensures startYear <= endYear ==>
      var c := CollectAll(tickers, index, fetch, startYear, endYear, num);
      o == if |c.results| == 0 then NoData else Report(c.results, c.table)
  {
    if startYear > endYear {
      return BadRange;
    }
    var results: seq<MetricsRecord> := [];
    var priceData := EmptyTable;
    var i := 0;
    while i < |tickers|
      invariant 0 <= i <= |tickers|
      invariant Collected(results, priceData) ==
        CollectTickers(tickers[..i], fetch, startYear, endYear, num)
    {
      var ticker := tickers[i];
      var attempt := Attempt(fetch(ticker, startYear, endYear), ticker, num);
      if attempt.Some? {
        results := results + [attempt.value.record];
        priceData := priceData.Put(ticker, attempt.value.prices);
      }
      assert tickers[..i + 1][..i] == tickers[..i];
      i := i + 1;
    }
    assert tickers[..i] == tickers;
    if index.Some? {
      var name := index.value.Label();
      var attempt := Attempt(fetch(index.value.Symbol(), startYear, endYear), name, num);
      if attempt.Some? {
        results := results + [attempt.value.record];
        priceData := priceData.Put(name, attempt.value.prices);
      }
    }
    if |results| == 0 {
      return NoData;
    }
    return Report(results, priceData);
  }

  // ---------------------------------------------------------------------
  // Properties of the collection

  /** The ticker column of a results list. */
  function Labels(results: seq<MetricsRecord>): (ls: seq<string>)
    ensures |ls| == |results|
    decreases |results|
  {
    if |results| == 0 then []
    else Labels(results[..|results| - 1]) + [results[|results| - 1].ticker]
  }

  /** The tickers whose download succeeds, in the order given. */
  function Survivors(tickers: seq<string>, fetch: (string, int, int) -> Download,
                     startYear: int, endYear: int): (s: seq<string>)
    ensures |s| <= |tickers|
    decreases |tickers|
  {
    if |tickers| == 0 then []
    else
      var rest := Survivors(tickers[..|tickers| - 1], fetch, startYear, endYear);
      var last := tickers[|tickers| - 1];
      if Succeeds(fetch(last, startYear, endYear)) then rest + [last] else rest
  }

  lemma LabelsAppend(results: seq<MetricsRecord>, m: MetricsRecord)
    ensures Labels(results + [m]) == Labels(results) + [m.ticker]
  {
    assert (results + [m])[..|results|] == results;
  }

  /** The results hold one row per succeeding ticker, in the order the
      tickers were given; a failing ticker leaves no row and the later
      tickers are still processed. */
  lemma {:induction false} ResultsFollowTickers(tickers: seq<string>,
      fetch: (string, int, int) -> Download, startYear: int, endYear: int, num: Numerics)
    requires Fetchable(fetch, startYear, endYear)
    ensures Labels(CollectTickers(tickers, fetch, startYear, endYear, num).results) ==
      Survivors(tickers, fetch, startYear, endYear)
    decreases |tickers|
  {
    if |tickers| > 0 {
      var init := tickers[..|tickers| - 1];
      var last := tickers[|tickers| - 1];
      ResultsFollowTickers(init, fetch, startYear, endYear, num);
      var d := fetch(last, startYear, endYear);
      assert ValidDownload(d);
      if Succeeds(d) {
        LabelsAppend(CollectTickers(init, fetch, startYear, endYear, num).results,
          CalculateMetrics(d.closes, last, num));
      }
    }
  }

  /** The survivors are exactly the given tickers that succeed. */
  lemma {:induction false} SurvivorsMembers(tickers: seq<string>,
      fetch: (string, int, int) -> Download, startYear: int, endYear: int, t: string)
    ensures t in Survivors(tickers, fetch, startYear, endYear) <==>
      t in tickers && Succeeds(fetch(t, startYear, endYear))
    decreases |tickers|
  {
    if |tickers| > 0 {
      var init := tickers[..|tickers| - 1];
      SurvivorsMembers(init, fetch, startYear, endYear, t);
      assert tickers == init + [tickers[|tickers| - 1]];
    }
  }

  /** The price table lists exactly the tickers with a row, and stores
      under each its downloaded closes. */
  lemma {:induction false} TableMatchesResults(tickers: seq<string>,
      fetch: (string, int, int) -> Download, startYear: int, endYear: int, num: Numerics)
    requires Fetchable(fetch, startYear, endYear)
    ensures var c := CollectTickers(tickers, fetch, startYear, endYear, num);
      (forall n :: n in c.table.series <==> n in Labels(c.results)) &&
      (forall n :: n in c.table.series ==>
        Succeeds(fetch(n, startYear, endYear)) &&
        c.table.series[n] == fetch(n, startYear, endYear).closes)
    decreases |tickers|
  {
    var c := CollectTickers(tickers, fetch, startYear, endYear, num);
    if |tickers| > 0 {
      var init := tickers[..|tickers| - 1];
      var last := tickers[|tickers| - 1];
      TableMatchesResults(init, fetch, startYear, endYear, num);
      var d := fetch(last, startYear, endYear);
      assert ValidDownload(d);
      if Succeeds(d) {
        var prev := CollectTickers(init, fetch, startYear, endYear, num);
        LabelsAppend(prev.results, CalculateMetrics(d.closes, last, num));
      }
    }
  }

  /** With distinct tickers, the price table lists the succeeding tickers
      in the order given, which is the order of the chart's lines. */
  lemma {:induction false} NamesFollowTickers(tickers: seq<string>,
      fetch: (string, int, int) -> Download, startYear: int, endYear: int, num: Numerics)
    requires Fetchable(fetch, startYear, endYear)
    requires forall i, j :: 0 <= i < j < |tickers| ==> tickers[i] != tickers[j]
    ensures CollectTickers(tickers, fetch, startYear, endYear, num).table.names ==
      Survivors(tickers, fetch, startYear, endYear)
    decreases |tickers|
  {
    if |tickers| > 0 {
      var init := tickers[..|tickers| - 1];
      var last := tickers[|tickers| - 1];
      NamesFollowTickers(init, fetch, startYear, endYear, num);
      var d := fetch(last, startYear, endYear);
      assert ValidDownload(d);
      if Succeeds(d) {
        SurvivorsMembers(init, fetch, startYear, endYear, last);
        assert last !in init by {
          forall k | 0 <= k < |init|
            ensures init[k] != last
          {
            assert init[k] == tickers[k];
          }
        }
      }
    }
  }

  /** A ticker whose download fails appears neither in the results nor in
      the price table. */
  lemma FailedTickerAbsent(tickers: seq<string>, fetch: (string, int, int) -> Download,
      startYear: int, endYear: int, num: Numerics, t: string)
    requires Fetchable(fetch, startYear, endYear)
    requires !Succeeds(fetch(t, startYear, endYear))
    ensures var c := CollectTickers(tickers, fetch, startYear, endYear, num);
      t !in Labels(c.results) && t !in c.table.series
  {
    ResultsFollowTickers(tickers, fetch, startYear, endYear, num);
    SurvivorsMembers(tickers, fetch, startYear, endYear, t);
    TableMatchesResults(tickers, fetch, startYear, endYear, num);
  }

  /** Every row is the metrics of its own ticker's closes. */
  lemma {:induction false} RowIsItsMetrics(tickers: seq<string>,
      fetch: (string, int, int) -> Download, startYear: int, endYear: int, num: Numerics, k: nat)
    requires Fetchable(fetch, startYear, endYear)
    requires k < |CollectTickers(tickers, fetch, startYear, endYear, num).results|
    ensures var row := CollectTickers(tickers, fetch, startYear, endYear, num).results[k];
      Succeeds(fetch(row.ticker, startYear, endYear)) &&
      row == CalculateMetrics(fetch(row.ticker, startYear, endYear).closes, row.ticker, num)
    decreases |tickers|
  {
    var init := tickers[..|tickers| - 1];
    var last := tickers[|tickers| - 1];
    var d := fetch(last, startYear, endYear);
    assert ValidDownload(d);
    var prev := CollectTickers(init, fetch, startYear, endYear, num).results;
    var rs := CollectTickers(tickers, fetch, startYear, endYear, num).results;
    if k < |prev| {
      RowIsItsMetrics(init, fetch, startYear, endYear, num, k);
      assert rs[k] == prev[k];
    } else {
      assert rs == prev + [CalculateMetrics(d.closes, last, num)];
    }
  }

  /** A succeeding index adds one row, last, under its index name, and
      its prices under that name; a failing index adds nothing. */
  lemma IndexEntryLast(tickers: seq<string>, ix: IndexName,
      fetch: (string, int, int) -> Download, startYear: int, endYear: int, num: Numerics)
    requires Fetchable(fetch, startYear, endYear)
    ensures var base := CollectTickers(tickers, fetch, startYear, endYear, num);
      var all := CollectAll(tickers, Some(ix), fetch, startYear, endYear, num);
      var d := fetch(ix.Symbol(), startYear, endYear);
      (Succeeds(d) ==>
        |all.results| == |base.results| + 1 &&
        all.results[..|base.results|] == base.results &&
        all.results[|base.results|].ticker == ix.Label() &&
        all.results[|base.results|] == CalculateMetrics(d.closes, ix.Label(), num) &&
        all.table.series[ix.Label()] == d.closes &&
        (ix.Label() !in base.table.names ==> all.table.names == base.table.names + [ix.Label()]) &&
        (ix.Label() in base.table.names ==> all.table.names == base.table.names)) &&
      (!Succeeds(d) ==> all == base)
  {
    var base := CollectTickers(tickers, fetch, startYear, endYear, num);
    var d := fetch(ix.Symbol(), startYear, endYear);
    assert ValidDownload(d);
    if Succeeds(d) {
      var all := CollectAll(tickers, Some(ix), fetch, startYear, endYear, num);
      assert all.results == base.results + [CalculateMetrics(d.closes, ix.Label(), num)];
    }
  }

  /** The download whose closes end up stored under `n`: the index's, when
      `n` is the name of an index that succeeds (it is stored last and so
      replaces a ticker of the same name), and otherwise the ticker's own. */
  function StoredDownload(n: string, index: Option<IndexName>,
                          fetch: (string, int, int) -> Download,
                          startYear: int, endYear: int): Download
  {
    if index.Some? && n == index.value.Label() &&
       Succeeds(fetch(index.value.Symbol(), startYear, endYear))
    then fetch(index.value.Symbol(), startYear, endYear)
    else fetch(n, startYear, endYear)
  }

  /** After the index step too, the table's keys are exactly the labels of
      the rows, and each key holds the closes of the download stored under
      it, a price series. This is the table the chart is drawn from. */
  lemma AllTableMatchesResults(tickers: seq<string>, index: Option<IndexName>,
      fetch: (string, int, int) -> Download, startYear: int, endYear: int, num: Numerics)
    requires Fetchable(fetch, startYear, endYear)
    ensures var c := CollectAll(tickers, index, fetch, startYear, endYear, num);
      (forall n :: n in c.table.series <==> n in Labels(c.results)) &&
      (forall n :: n in c.table.series ==>
        var d := StoredDownload(n, index, fetch, startYear, endYear);
        Succeeds(d) && c.table.series[n] == d.closes && IsPriceSeries(d.closes))
  {
    if index.Some? && Succeeds(fetch(index.value.Symbol(), startYear, endYear)) {
      IndexTableMatchesResults(tickers, index.value, fetch, startYear, endYear, num);
    } else {
      TickerTableSeries(tickers, fetch, startYear, endYear, num);
      if index.Some? {
        IndexEntryLast(tickers, index.value, fetch, startYear, endYear, num);
      }
    }
  }

  /** The table after the ticker loop holds price series only. */
  lemma TickerTableSeries(tickers: seq<string>,
      fetch: (string, int, int) -> Download, startYear: int, endYear: int, num: Numerics)
    requires Fetchable(fetch, startYear, endYear)
    ensures var c := CollectTickers(tickers, fetch, startYear, endYear, num);
      (forall n :: n in c.table.series <==> n in Labels(c.results)) &&
      (forall n :: n in c.table.series ==>
        var d := fetch(n, startYear, endYear);
        Succeeds(d) && c.table.series[n] == d.closes && IsPriceSeries(d.closes))
  {
    TableMatchesResults(tickers, fetch, startYear, endYear, num);
    var c := CollectTickers(tickers, fetch, startYear, endYear, num);
    forall n | n in c.table.series
      ensures IsPriceSeries(fetch(n, startYear, endYear).closes)
    {
      assert ValidDownload(fetch(n, startYear, endYear));
    }
  }

  /** The index step of a succeeding index keeps keys and rows matched, and
      stores the index's closes under its name. */
  lemma IndexTableMatchesResults(tickers: seq<string>, ix: IndexName,
      fetch: (string, int, int) -> Download, startYear: int, endYear: int, num: Numerics)
    requires Fetchable(fetch, startYear, endYear)
    requires Succeeds(fetch(ix.Symbol(), startYear, endYear))
    ensures var c := CollectAll(tickers, Some(ix), fetch, startYear, endYear, num);
      (forall n :: n in c.table.series <==> n in Labels(c.results)) &&
      (forall n :: n in c.table.series ==>
        var d := StoredDownload(n, Some(ix), fetch, startYear, endYear);
        Succeeds(d) && c.table.series[n] == d.closes && IsPriceSeries(d.closes))
  {
    var base := CollectTickers(tickers, fetch, startYear, endYear, num);
    var c := CollectAll(tickers, Some(ix), fetch, startYear, endYear, num);
    var d := fetch(ix.Symbol(), startYear, endYear);
    var name := ix.Label();
    assert ValidDownload(d);
    TickerTableSeries(tickers, fetch, startYear, endYear, num);
    var row := CalculateMetrics(d.closes, name, num);
    assert c.results == base.results + [row] && c.table == base.table.Put(name, d.closes);
    LabelsAppend(base.results, row);
    forall n | n in c.table.series
      ensures var e := StoredDownload(n, Some(ix), fetch, startYear, endYear);
        Succeeds(e) && c.table.series[n] == e.closes && IsPriceSeries(e.closes)
    {
      if n != name {
        assert n in base.table.series && c.table.series[n] == base.table.series[n];
      }
    }
  }

  /** Nothing to analyse exactly when every ticker fails and the index,
      if any, fails too. */
  lemma NoDataIff(tickers: seq<string>, index: Option<IndexName>,
      fetch: (string, int, int) -> Download, startYear: int, endYear: int, num: Numerics)
    requires Fetchable(fetch, startYear, endYear)
    ensures |CollectAll(tickers, index, fetch, startYear, endYear, num).results| == 0 <==>
      (forall t :: t in tickers ==> !Succeeds(fetch(t, startYear, endYear))) &&
      (index.Some? ==> !Succeeds(fetch(index.value.Symbol(), startYear, endYear)))
  {
    var base := CollectTickers(tickers, fetch, startYear, endYear, num);
    ResultsFollowTickers(tickers, fetch, startYear, endYear, num);
    var s := Survivors(tickers, fetch, startYear, endYear);
    if |s| > 0 {
      SurvivorsMembers(tickers, fetch, startYear, endYear, s[0]);
    } else {
      forall t | t in tickers
        ensures !Succeeds(fetch(t, startYear, endYear))
      {
        SurvivorsMembers(tickers, fetch, startYear, endYear, t);
      }
    }
    if index.Some? {
      IndexEntryLast(tickers, index.value, fetch, startYear, endYear, num);
    }
  }

  /** The index mapping is one-to-one in both columns, and no market symbol
      is spelt like an index name. */
  lemma SymbolsAndLabels(a: IndexName, b: IndexName)
    ensures a.Symbol() == b.Symbol() <==> a == b
    ensures a.Label() == b.Label() <==> a == b
    ensures a.Symbol() != b.Label()
  {
    assert a.Symbol()[0] == '^' && b.Label()[0] != '^';
  }
}
