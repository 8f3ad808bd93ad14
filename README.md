# Backtester performance metrics in Dafny

The Backtester is a command-line tool. It takes a list of stock tickers, a range of years and, optionally, a market index (S&P 500, NASDAQ, Dow or Russell 2000). For each symbol it downloads the daily closes and computes one row of performance metrics:
- total return
- annualized return
- annualized volatility
- maximum drawdown
- Sharpe ratio against a 4% risk-free rate

It prints and saves these rows. It also charts every series rebased to start at 100.

This project models that tool's core and proves properties of the model:

- `Metrics` (`metrics.dfy`) models `calculate_metrics` for one price series:
  - daily simple returns with the undefined first change dropped
  - total return
  - the cumulative growth path `cumprod(1 + r)`
  - its running maximum
  - drawdowns and the maximum drawdown
  - annualization over 252 trading days
  - the Sharpe ratio and its zero-volatility guard

  Prices are exact reals. The fractional power, the sample standard deviation and the square root come from the caller as a `Numerics` bundle.
- `Runner` (`runner.dfy`) models `main`. It rejects a start year after the end year. It then makes one guarded attempt per ticker, in the order given: a ticker that fails is skipped and the run carries on. The optional index is tried last, and its row is labelled with the index's name rather than its market symbol. A run with no rows ends without a report. `price_data` is modelled as an insertion-ordered table (`PriceTable`). `Run` is the loop itself, proved equal to the recursive definition `CollectAll`.
- `Chart` (`chart.dfy`) models the rebasing in `generate_chart`: every stored series becomes one line that starts at 100.
- `RealFacts` (`realfacts.dfy`) holds small lemmas of real arithmetic.
- `Scenarios` (`scenarios.dfy`) holds worked cases: two short price series and one run with a failing ticker.

The market data service is the parameter `fetch`. It maps a symbol and the first and last years of the period to `Failed` or to a frame of closes. Closes are assumed positive (`Fetchable`).

Three behaviours of the code are worth stating up front:

- **Growth path.** `cumprod` runs over the daily returns, so the growth path starts at 1 + r_1, not at 1. A fall on the first day is therefore no drawdown: `[100, 90]` has maximum drawdown 0 (`Scenarios.FirstMoveFallIsNoDrawdown`). The maximum drawdown is exactly that of the closes after the first one (`Metrics.MaxDrawdownOfLaterPrices`).
- **Short series.** The code defines no error of its own for short series:
  - An empty frame raises in `fetch_data`.
  - A one-row frame squeezes to a scalar, on which `calculate_metrics` raises.

  Both exceptions are caught by the loop, so the symbol is skipped (`Runner.Attempt`).
- **No rows.** When no row is collected, the code prints a message and returns. The `NoData` outcome stands for that.

## Model

| member | source | states |
|---|---|---|
| Metrics.DailyReturns | backtester.py:79 | one return per pair of neighbouring prices: n - 1 returns for n prices |
| Metrics.ReturnsRebuildPrices | backtester.py:79 | every price is the previous price times 1 plus that day's return |
| Metrics.ReturnsSigns | backtester.py:79 | each return exceeds -1, is positive exactly when the price rose, and is zero exactly when it stayed |
| Metrics.ReturnsScaleFree | backtester.py:79 | scaling every close by the same positive factor leaves the daily returns unchanged |
| Metrics.TotalReturn | backtester.py:82 | the total return is positive, zero or negative exactly as the last price is above, equal to or below the first |
| Metrics.TotalReturnRebuildsLast | backtester.py:82 | the first price times 1 + total/100 is the last price |
| Metrics.Years | backtester.py:85 | the number of years times 252 is the number of prices, and is positive for a non-empty series |
| Metrics.AnnualizedReturn | backtester.py:85-86 | the formula of line 86 over the supplied `pow`; 1 + annualized/100 is the last-to-first price ratio raised to 252/n |
| Metrics.Volatility | backtester.py:89 | the formula of line 89 over the supplied sample standard deviation and square root; it is non-negative when those are, and 0 when the standard deviation of the returns is 0 |
| Metrics.VolatilityScaleFree | backtester.py:89 | the annualized volatility does not change when all closes are scaled by a positive factor |
| Metrics.CumulativeGrowth | backtester.py:92 | one growth value per return; the values are stated by CumulativeGrowthSteps and GrowthIsPriceRatioAt |
| Metrics.CumulativeGrowthSteps | backtester.py:92 | the growth path starts at 1 + r_1, and each point is the previous one times 1 + that day's return |
| Metrics.CumulativeGrowthPositive | backtester.py:92 | with every return above -1, every point of the growth path is positive |
| Metrics.PriceGrowthPositive | backtester.py:92 | the growth path of positive prices is positive |
| Metrics.GrowthIsPriceRatioAt | backtester.py:92 | the product telescopes: point i of the growth path times the first price is price i + 1 |
| Metrics.FinalGrowthIsTotalReturn | backtester.py:92 | the last point of the growth path is 1 + total return / 100 |
| Metrics.SeqMin | backtester.py:95 | the minimum is at most every element and is one of them |
| Metrics.CumMax | backtester.py:93 | one running maximum per point of the path; the values are stated by CumMaxFacts |
| Metrics.CumMaxFacts | backtester.py:93 | the running maximum at i bounds every point up to i, is one of those points, and never decreases |
| Metrics.Drawdowns | backtester.py:94 | one drawdown per point of the path; the values are stated by DrawdownsBounds and DrawdownFromPeak |
| Metrics.DrawdownFromPeak | backtester.py:94 | where the running maximum at i is the point a, drawdown i is the decline of point i from point a |
| Metrics.DrawdownsBounds | backtester.py:94 | every drawdown lies in (-1, 0], and is 0 exactly when the point is at or above all earlier points |
| Metrics.DrawdownsScaleFree | backtester.py:93-94 | scaling a path by a positive factor leaves its drawdowns unchanged |
| Metrics.MaxDrawdown | backtester.py:91-95 | the maximum drawdown lies in (-100, 0] |
| Metrics.MaxDrawdownOfLaterPrices | backtester.py:92-95 | the maximum drawdown is 100 times the worst drawdown of the closes after the first |
| Metrics.MaxDrawdownIgnoresFirstPrice | backtester.py:92-95 | two series that differ only in their first close have the same maximum drawdown |
| Metrics.RisingPathHasNoDrawdown | backtester.py:94-95 | a non-decreasing path has worst drawdown 0 |
| Metrics.FallingPathHasDrawdown | backtester.py:94-95 | a path that falls below an earlier point has a negative worst drawdown |
| Metrics.WorstDrawdownZeroIff | backtester.py:94-95 | the worst drawdown of a path is 0 exactly when the path never decreases |
| Metrics.MaxDrawdownZeroIff | backtester.py:92-95 | the maximum drawdown is 0 exactly when the closes after the first never decrease |
| Metrics.NonDecreasingHasNoDrawdown | backtester.py:92-95 | a non-decreasing price series has maximum drawdown 0 |
| Metrics.ConstantSeries | backtester.py:79-95 | a constant series has total return 0, maximum drawdown 0 and every daily return 0 |
| Metrics.SharpeRatio | backtester.py:98-99 | 0 when volatility is not positive; otherwise the ratio times volatility/100 is the excess return, and the ratio is positive or zero exactly as the annualized return exceeds or equals 4% |
| Metrics.CalculateMetrics | backtester.py:76-108 | the row carries its name; its total return has the sign of last minus first; its maximum drawdown lies in (-100, 0]; its Sharpe ratio is 0 when volatility is not positive |
| Runner.IndexName.Symbol | backtester.py:17-22 | the market symbol of each index, as the mapping gives it; every symbol starts with a caret |
| Runner.IndexName.Label | backtester.py:17-22 | the name of each index, as the mapping's keys give it; every name starts with a capital letter |
| Runner.SymbolsAndLabels | backtester.py:17-22 | the four index symbols are distinct, the four names are distinct, and no symbol equals a name |
| Runner.FetchData | backtester.py:67-73 | data comes back exactly when the download succeeded and is not empty, and it is the downloaded closes |
| Runner.Squeeze | backtester.py:191 | a one-row close column becomes a single number; a longer one stays a series |
| Runner.Attempt | backtester.py:189-194 | an attempt yields a row exactly when the download has at least two closes; the row is labelled with the given name, and the prices kept are the closes |
| Runner.PriceTable.Put | backtester.py:194 | storing keeps the table well formed; a new name goes last, and a name already present keeps its place with the new prices |
| Runner.Step | backtester.py:188-196 | on failure nothing changes; on success the metrics of the closes are appended and the closes are stored under the name |
| Runner.CollectTickers | backtester.py:185-196 | the price table left by the ticker loop is well formed |
| Runner.CollectAll | backtester.py:198-208 | the price table after the index step is well formed |
| Runner.Run | backtester.py:161-212 | the run rejects exactly a start year after the end year; otherwise it ends with no data when there are no rows, and else reports the rows and the table built by the ticker loop and then the index step |
| Runner.ResultsFollowTickers | backtester.py:188-196 | the result rows are the succeeding tickers, in the order given |
| Runner.SurvivorsMembers | backtester.py:188-196 | a ticker has a row exactly when it was given and its download succeeds |
| Runner.TableMatchesResults | backtester.py:186-194 | the table's keys are exactly the labels of the rows, and each key holds its own downloaded closes |
| Runner.NamesFollowTickers | backtester.py:194 | with distinct tickers, the table lists the succeeding tickers in the order given |
| Runner.FailedTickerAbsent | backtester.py:195-196 | a failing ticker has no row and no entry in the table |
| Runner.RowIsItsMetrics | backtester.py:190-193 | every row is the metrics of its own ticker's closes |
| Runner.IndexEntryLast | backtester.py:199-208 | a succeeding index adds exactly one row, last, labelled with the index name and computed from the index's closes; the table stores those closes under that name, which goes last in the table's order when it is new and keeps its place otherwise; a failing index changes nothing |
| Runner.AllTableMatchesResults | backtester.py:185-208 | after the index step, the table's keys are exactly the labels of the rows, and each key holds the closes of the download stored under it (the index's, for a succeeding index's name), which form a price series |
| Runner.TickerTableSeries | backtester.py:186-194 | after the ticker loop, each key holds its own ticker's closes, which form a price series |
| Runner.IndexTableMatchesResults | backtester.py:199-206 | a succeeding index step keeps keys and row labels matched, and stores the index's closes under its name |
| Runner.NoDataIff | backtester.py:210-212 | there are no rows exactly when every ticker fails and the index, if any, fails too |
| Chart.Rebase | backtester.py:144 | the rebased series has the length of the original |
| Chart.RebaseStartsAt100 | backtester.py:144 | the rebased series starts at exactly 100 |
| Chart.RebaseKeepsOrder | backtester.py:144 | rebasing keeps the order of any two points, and keeps which points are equal |
| Chart.RebaseRoundTrip | backtester.py:144 | scaling a rebased point by first price / 100 gives the original price back |
| Chart.RebasedEndIsTotalReturn | backtester.py:144 | the last rebased point is 100 plus the total return |
| Chart.RebaseIdempotent | backtester.py:144 | rebasing a rebased series changes nothing |
| Chart.Lines | backtester.py:142-145 | one line per name in the table's order, carrying that name and its rebased prices |
| Chart.CollectedTableChartable | backtester.py:198-221 | the table the run hands to the chart, after the tickers and the index, lists only stored names, and every stored series can be rebased, being non-empty and starting positive |
| Chart.RunChart | backtester.py:199-221 | with a succeeding index whose name is new, the chart's last line carries the index name and the index's rebased closes |
| Scenarios.FirstMoveFallIsNoDrawdown | backtester.py:92-95 | 100 then 90: total return -10 and maximum drawdown 0 |
| Scenarios.LaterDrawdowns | backtester.py:93-95 | the path 110, 99, 121 has drawdowns 0, -0.1 and 0, so its worst is -0.1 |
| Scenarios.RiseFallRecover | backtester.py:82-95 | 100, 110, 99, 121: total return 21 and maximum drawdown -10 |
| Scenarios.WorkedSurvivors | backtester.py:188-196 | AAPL and MSFT succeed and XXXX fails, so AAPL and MSFT survive in that order |
| Scenarios.WorkedRunResults | backtester.py:185-208 | the rows of that run against an index with a single close are AAPL then MSFT |
| Scenarios.WorkedRunTable | backtester.py:186-206 | the price table of that run lists AAPL then MSFT |

## Left out

- The market data download (`yf.download`) is the parameter `fetch`. Dates are given as years, and closes are assumed positive.
- `fetch` is a function of the symbol and the years. A symbol requested twice in one run is therefore assumed to get the same frame both times. The code downloads such a symbol twice (lines 190 and 202). This happens with a repeated ticker, or with a ticker spelt like the index's market symbol, such as `^GSPC` with the S&P 500 index. Runner.RowIsItsMetrics and Runner.TableMatchesResults rely on this assumption for repeated symbols.
- Argument parsing, console messages, the printed table, the CSV file, and drawing and saving the chart are not modelled. For the chart, only the rebased values are modelled.
- Rounding of each metric to two decimals is left out; the record holds full-precision values.
- Metrics.AnnualizedReturn and Metrics.Volatility: the fractional power, sample standard deviation and square root are supplied by the `Numerics` bundle. Their numeric properties are not modelled. For example, a constant series having zero volatility follows only if `sampleStd` of all-zero returns is 0.
- Floating-point rounding, NaN and infinity are not modelled. The metrics are defined for series of at least two positive closes. Shorter series never reach them: the loop skips those symbols.
- `tickers_to_fetch` is built but never read, so it is not part of this model.
- launcher.py is not part of this model.
- Runner.NamesFollowTickers requires distinct tickers. With a repeated ticker, the table keeps the first position and the latest prices (`Runner.PriceTable.Put`), while the results keep one row per occurrence (`Runner.ResultsFollowTickers`).
