# BacktestBaba core, modelled in Dafny

BacktestBaba backtests stock signals listed on the Indian exchanges. A
signal sheet holds one row per signal, with a symbol and a date. For each row
the backend does the following:

- It resolves the symbol to its NSE (`.NS`) or BSE (`.BO`) listing.
- It parses the date against seven formats.
- It fetches about 100 days of daily prices.
- It enters at the first trading day on or after the signal date.
- It records the returns at 7, 14, 30, 45, 60 and 90 days, and the highest
  high and lowest low of the 90-day window.

The run then aggregates a report. It has the averages and win rates at 7, 30
and 90 days, and the best and worst performer by 30-day return. The report
dashboard derives these views from the report's Success trades:

- a statistics row per horizon;
- the top gainers and losers;
- the number of trades whose best horizon is each horizon;
- the top stock of each horizon;
- a trade log that can be searched, sorted by any column and paged.

The Dafny modules follow the repository:

- `Schemas`: the `SignalResult` and `BacktestReport` records.
- `DateUtils`: the trading-day lookahead and date parsing.
- `SymbolResolver`: suffix resolution.
- `Backtester`: the run, as specification functions and the loop methods
  proved against them.
- `BacktestProperties`: lemmas about whole runs.
- `Dashboard`: the statistics and chart views.
- `TradeLog`: search, sort, pages, and the component state as a class.
- `JsArray`: the ECMAScript behaviour the dashboard relies on, that is, a
  stable `sort` with its comparator semantics (including an in-place array
  version), `slice` and `filter`.
- `Numeric`: sums, means and extremes.

The collaborators are parameters:

- the latest-price lookup;
- the price fetch, which returns a table of daily bars keyed by day number,
  an empty table, or an exception that ends the run;
- `strptime` for one format, with dates as day numbers.

The progress callback is the `events` out-parameter of the run.

## Model

| member | source | states |
|---|---|---|
| DateUtils.FirstTradingDay | backend/utils/date_utils.py:8-16 | The result is the first day in `date..date+k` that is in the index (the date itself when it is there), and None exactly when no day in that range is. |
| DateUtils.GetNextTradingDay | backend/utils/date_utils.py:8-16 | The loop over `0..max_lookahead` returns FirstTradingDay. |
| DateUtils.FirstParse | backend/utils/date_utils.py:22-31 | Some exactly when some format parses; the value is that of the first format that parses, and every earlier format fails. |
| DateUtils.ParseDate | backend/utils/date_utils.py:18-33 | The format loop succeeds exactly when FirstParse does, with its value; otherwise it fails with "Could not parse date: " and the text. |
| DateUtils.FirstParseIsFirst | backend/utils/date_utils.py:27-31 | When format k parses and no earlier one does, the result is format k's. |
| SymbolResolver.CheckExists | backend/core/symbol_resolver.py:30-39 | True exactly when the latest-price lookup finds a price; it is false when the lookup returns None or raises. |
| SymbolResolver.Resolve | backend/core/symbol_resolver.py:5-28 | A resolved symbol ends in `.NS` or `.BO` and exists. |
| SymbolResolver.ResolveSuffixed | backend/core/symbol_resolver.py:13-16 | An input already carrying a suffix comes back unchanged when it exists and as None otherwise; no second suffix is added. |
| SymbolResolver.ResolvePrefersNse | backend/core/symbol_resolver.py:18-21 | When `S.NS` exists it is the answer, even if `S.BO` exists too. |
| SymbolResolver.ResolveFallsBackToBse | backend/core/symbol_resolver.py:23-26 | The answer is `S.BO` exactly when `S.NS` does not exist and `S.BO` does. |
| SymbolResolver.ResolveNoneIffNoCandidate | backend/core/symbol_resolver.py:13-28 | None exactly when no candidate exists; otherwise the answer is one of the candidates. |
| SymbolResolver.ResolveIgnoresCaseAndSpace | backend/core/symbol_resolver.py:10 | Surrounding whitespace and letter case do not change the result. |
| SymbolResolver.StripSurroundingSpace | backend/core/symbol_resolver.py:10 | `strip` removes exactly the surrounding whitespace. |
| SymbolResolver.Upper | backend/core/symbol_resolver.py:10 | Upper-casing turns ASCII `a`-`z` into `A`-`Z` and keeps every other character, so the length is kept. |
| SymbolResolver.Normalize | backend/core/symbol_resolver.py:10 | `symbol.upper().strip()`; ResolveIgnoresCaseAndSpace states what it makes equal. |
| Schemas.NewSignalResult | backend/models/schemas.py:9-42 | A new record has the four required fields and every optional field None. |
| Schemas.SignalResult.WithHorizon | backend/core/backtester.py:98-99 | Setting `return_{h}d` and `exit_price_{h}d` changes those two fields and nothing else. |
| Schemas.NewReport | backend/models/schemas.py:44-62 | A new report has the counts and trades it is given and every statistic None. |
| Backtester.ProgressTrace | backend/core/backtester.py:15-18 | One progress event per input row. |
| Backtester.Or | backend/core/backtester.py:20-21 | `a or b` is truthy exactly when one of them is. |
| Backtester.ReturnPct | backend/core/backtester.py:97 | The return is positive or negative exactly when the exit is above or below the entry, and above -100 for a positive exit price. |
| Backtester.MaxHigh | backend/core/backtester.py:101-113 | The highest high of the window and its first day: None exactly when the window has no bar, otherwise a bar in the window that no bar exceeds and that every earlier bar is below. |
| Backtester.MinLow | backend/core/backtester.py:101-113 | The same for the lowest low. |
| Backtester.Trades | backend/core/backtester.py:15-115 | The records of the rows in order, or the error of the first row whose fetch raises; TradesStep, TradesCount and TradesAppend state its properties. |
| Backtester.ProcessRow | backend/core/backtester.py:20-115 | A failure record has entry price 0 and no prices; a Success record has a resolved day as its date and a positive entry price. |
| Backtester.ProcessParsed | backend/core/backtester.py:49-115 | The same two facts for the stages after the date has parsed. |
| Backtester.ProcessSignal | backend/core/backtester.py:20-115 | The loop body computes ProcessRow. |
| Backtester.ProcessParsedSignal | backend/core/backtester.py:49-115 | The fetch-to-record stages compute ProcessParsed. |
| Backtester.SuccessRecord | backend/core/backtester.py:79-113 | The Success record from the entry day onward; SuccessRecordFacts states its fields. |
| Backtester.BuildSuccessRecord | backend/core/backtester.py:79-113 | The record built with the horizon loop is SuccessRecord. |
| Backtester.SetForwardReturns | backend/core/backtester.py:88-99 | After the loop over the six horizons, each horizon's return and exit price are those of its first trading day. |
| Backtester.SuccessRecordFields | backend/core/backtester.py:79-113 | The record built field by field equals SuccessRecord. |
| Backtester.RunRows | backend/core/backtester.py:15-115 | The row loop yields Trades(rows). Its events are the full progress trace, or the trace up to and including the row whose fetch raised. |
| Backtester.RunBacktest | backend/core/backtester.py:11-151 | A completed run returns the records Trades(rows), a report meeting ReportSpec (with the worst performer as the code computes it) and the full progress trace. An aborted run fails with the error of the first raising row, and its events end at that row. |
| Backtester.ReportSpec | backend/core/backtester.py:117-149 | The report's counts and trades; per horizon, the average and win rate exactly when it has returns; and, exactly when some Success trade has a 30-day return, `max` with key -999 as best and `min` with key 999 as worst. |
| Backtester.AggregateReport | backend/core/backtester.py:117-149 | The report meets ReportSpec: the counts, the per-horizon StatsSpec, and the best and worst performer as the code computes them when some trade has a 30-day return. |
| Backtester.Successful | backend/core/backtester.py:118 | Exactly the Success records, and at most as many as there are records. |
| Backtester.ReturnsAt | backend/core/backtester.py:129 | Exactly the non-None returns for h. |
| Backtester.ReturnsAtNonEmpty | backend/core/backtester.py:130 | The list is nonempty exactly when some trade has a return for h. |
| Backtester.CountPositive | backend/core/backtester.py:132 | The count is 0 exactly when no value is positive, and the length exactly when every value is. |
| Backtester.WinRate | backend/core/backtester.py:132 | Between 0 and 100: 0 exactly when no return is positive, 100 exactly when every one is. |
| Backtester.FirstMaxIndex | backend/core/backtester.py:148 | Python's `max` with a key: an element no other exceeds, and the first one. |
| Backtester.FirstMinIndex | backend/core/backtester.py:149 | Python's `min` with a key: an element no other is below, and the first one. |
| Backtester.BestPerformer | backend/core/backtester.py:148 | `max(successful, key=…)` with -999 for a missing 30-day return; BestPerformerHasReturn states what it picks. |
| Backtester.WorstPerformerAsWritten | backend/core/backtester.py:149 | `min(successful, key=…)` with 999 for a missing 30-day return, as the report uses it; RunWorst and WorstPerformerAsWrittenPicksMissing state what it picks. |
| Backtester.WorstPerformer | backend/core/backtester.py:149 | The corrected worst performer is a trade with a 30-day return that no other 30-day return is below. |
| Backtester.FirstMin30Index | backend/core/backtester.py:149 | The first trade with the smallest 30-day return among those that have one. |
| Backtester.TradesStep | backend/core/backtester.py:15-115 | One more row extends the records by that row's outcome. |
| Backtester.TradesAbortedPrefix | backend/core/backtester.py:53 | Once a row raises, later rows do not change the outcome. |
| BacktestProperties.ProcessRowSkips | backend/core/backtester.py:20-24 | A row produces no record exactly when it lacks a symbol or a date. |
| BacktestProperties.TradesCount | backend/core/backtester.py:20-24 | One record per row with a symbol and a date, so there are at most as many records as rows. |
| BacktestProperties.TradesAppend | backend/core/backtester.py:15-115 | Records keep input-row order: the records of two sheets back to back are the records of each, concatenated. |
| BacktestProperties.SuccessRecordFacts | backend/core/backtester.py:79-113 | A Success record has the entry day's close as its entry price. It has each return exactly when it has the exit price. It has them exactly when a trading day follows the horizon; they are that day's close and the percentage change to it. Its extrema lie within the 90-day window and bound it. |
| BacktestProperties.ParsedSuccessFacts | backend/core/backtester.py:49-86 | A Success record's date is the first trading day of the fetched table within five days of the signal date. |
| BacktestProperties.ParsedFailureFacts | backend/core/backtester.py:55-77 | After the date parses, a failure is No Data exactly when the table is empty, and No Entry Data exactly when no trading day follows within five days. |
| BacktestProperties.SuccessRowFacts | backend/core/backtester.py:26-115 | A Success row had a symbol that resolved to the record's symbol, a date that parsed, a fetched table and an entry within the lookahead. |
| BacktestProperties.FailedRowFacts | backend/core/backtester.py:26-77 | Failures are checked in order: Symbol Not Found exactly when the resolver fails, then Invalid Date exactly when no format parses, then No Data or No Entry Data. Each failure keeps the raw date text, with entry 0 and no prices. |
| BacktestProperties.RecordReturnsAboveMinus100 | backend/core/backtester.py:97 | Every return of a record is above -100 %. |
| BacktestProperties.TradesReturnsAboveMinus100 | backend/core/backtester.py:88-115 | Every return of every record of a run is above -100 %. |
| BacktestProperties.ReportCounts | backend/core/backtester.py:117-125 | `total_signals` counts all rows. Successful plus failed is the total. Failed counts the failure records and the skipped rows together. |
| BacktestProperties.StatsBounds | backend/core/backtester.py:127-144 | When a horizon has values, its win rate is in 0..100 and its average lies between the smallest and largest return. |
| BacktestProperties.ReportAverages | backend/core/backtester.py:127-144 | The report's average and win rate at 7, 30 and 90 days meet StatsSpec, and each average is above -100. |
| BacktestProperties.BestPerformerHasReturn | backend/core/backtester.py:148 | The best performer has a 30-day return that no other exceeds. |
| BacktestProperties.RunBest | backend/core/backtester.py:148 | The best performer is a Success record of the run with a 30-day return that no Success record's 30-day return exceeds. |
| BacktestProperties.RunWorst | backend/core/backtester.py:149 | The worst performer is a Success record of the run with the smallest 999-keyed return, and it is the corrected worst performer when every 30-day return is below 999. |
| BacktestProperties.ReportPerformers | backend/core/backtester.py:146-149 | Best and worst exist exactly when some Success trade has a 30-day return. Both are Success trades of the report. The best has a 30-day return that none exceeds. The worst has the smallest return with a missing one counted as 999; when every 30-day return is below 999 it has a 30-day return that none is below. |
| BacktestProperties.WorstPerformerAsWrittenPicksMissing | backend/core/backtester.py:149 | With the 999 sentinel, a trade without a 30-day return is chosen over one with a 30-day return of 1500 %. |
| BacktestProperties.WorstPerformersAgree | backend/core/backtester.py:149 | When every 30-day return is below 999 the code as written and the corrected worst performer agree. |
| Numeric.MeanBetween | backend/core/backtester.py:131 | The mean lies between any lower and upper bound of the values. |
| Numeric.MeanAbove | frontend/src/components/Dashboard.jsx:291 | The mean of values above a bound is above it. |
| Numeric.MeanBelow | frontend/src/components/Dashboard.jsx:293 | The mean of values below a bound is below it. |
| Numeric.MinOf | frontend/src/components/Dashboard.jsx:286 | `Math.min`: a value that no other is below. |
| Numeric.MaxOf | frontend/src/components/Dashboard.jsx:285 | `Math.max`: a value that no other exceeds. |
| JsArray.SubSign | frontend/src/components/Dashboard.jsx:367 | The sign SortCompare reads from `a - b`: negative, zero, positive exactly when a is below, equal to, above b; `-Infinity - -Infinity` (NaN) counts as 0. |
| JsArray.NegReverses | frontend/src/components/Dashboard.jsx:367 | Negation reverses the order, which is what `b - a` does. |
| JsArray.StableSort | frontend/src/components/Dashboard.jsx:265 | `sort` with a comparator whose sign is that of the rank difference, as insertion sort; the StableSort lemmas state that it permutes, orders and is stable. |
| JsArray.StableSortPermutes | frontend/src/components/Dashboard.jsx:265 | The sort rearranges the elements. |
| JsArray.StableSortSorted | frontend/src/components/Dashboard.jsx:265 | The sort orders by rank. |
| JsArray.StableSortStable | frontend/src/components/Dashboard.jsx:265 | Elements of equal rank stay in input order. |
| JsArray.StableSortEqualRanks | frontend/src/components/Dashboard.jsx:354-368 | When every element has the same rank the sort leaves the sequence unchanged. |
| JsArray.StableSortHead | frontend/src/components/Dashboard.jsx:331 | The first element is the first of the minimal rank. |
| JsArray.SortInPlace | frontend/src/components/Dashboard.jsx:354-368 | Sorting the copied array in place leaves the stable sort of its contents. |
| JsArray.InsertAt | frontend/src/components/Dashboard.jsx:354-368 | One insertion step leaves the stable insertion of the next element in the sorted prefix and the suffix untouched. |
| JsArray.Slice | frontend/src/components/Dashboard.jsx:267 | `slice` with negative and overlong bounds clipped: the elements between the clipped bounds. |
| JsArray.SliceAdjacent | frontend/src/components/Dashboard.jsx:373-376 | Adjacent slices make up the slice between their outer bounds. |
| JsArray.FilterMembers | frontend/src/components/Dashboard.jsx:257-260 | `filter` keeps exactly the elements that pass. |
| JsArray.FilterAppend | frontend/src/components/Dashboard.jsx:347-351 | `filter` keeps order: filtering a concatenation concatenates the filtered parts. |
| Dashboard.Positives | frontend/src/components/Dashboard.jsx:275 | Exactly the positive values. |
| Dashboard.Negatives | frontend/src/components/Dashboard.jsx:276 | Exactly the negative values. |
| Dashboard.PartitionCounts | frontend/src/components/Dashboard.jsx:275-276 | The two counts add up to at most the number of values, and to exactly that when no value is 0. |
| Dashboard.CalculateStats | frontend/src/components/Dashboard.jsx:270-298 | Null when no Success trade has a return for the horizon, otherwise StatsOf its returns; StatsPresent, StatsRange, StatsPartitions and CapitalReturnFacts state its properties. |
| Dashboard.StatsPresent | frontend/src/components/Dashboard.jsx:271-273 | There is a statistics row exactly when some Success trade has a return for the horizon. |
| Dashboard.SortedFromValues | frontend/src/components/Dashboard.jsx:277 | The sorted copy has the same length and only the values. |
| Dashboard.MedianSplits | frontend/src/components/Dashboard.jsx:279-281 | The median is at least every element of the lower half and at most every element of the upper half. |
| Dashboard.MedianBetween | frontend/src/components/Dashboard.jsx:279-281 | The median lies between the lowest and highest value. |
| Dashboard.StatsRange | frontend/src/components/Dashboard.jsx:278-286 | lowest and highest are values that bound all values, and avg and median lie between them. |
| Dashboard.PartitionFacts | frontend/src/components/Dashboard.jsx:290-295 | A nonempty side's median is one of its values, and its median and average have its sign; an empty side shows 0 for both. |
| Dashboard.StatsPartitions | frontend/src/components/Dashboard.jsx:287-295 | The counts add up to at most the number of values. Each side's median is a value of the sign of that side, and so is its average. An empty side shows 0. |
| Dashboard.CapitalReturnFacts | frontend/src/components/Dashboard.jsx:296 | For a positive capital the capital return has the sign of the average return, and it is additive in the capital. |
| Dashboard.CapitalOnlyMovesReturn | frontend/src/components/Dashboard.jsx:296 | The capital changes no field of the row but the capital return. |
| Dashboard.Signed | frontend/src/components/Dashboard.jsx:264 | Exactly the trades with a non-null return of the requested sign. |
| Dashboard.TopSortedFacts | frontend/src/components/Dashboard.jsx:264-265 | The sorted list rearranges the signed trades, gainers by decreasing and losers by increasing return. |
| Dashboard.TopPerformers | frontend/src/components/Dashboard.jsx:262-268 | The first `count` of the sorted signed trades; TopPerformersFacts and TopPerformersStable state what they are. |
| Dashboard.TopPerformersFacts | frontend/src/components/Dashboard.jsx:262-268 | The first `count` of the sorted list (all when fewer), each with a return of the requested sign; no trade left out beats one shown. |
| Dashboard.TopPerformersStable | frontend/src/components/Dashboard.jsx:265 | Trades with equal returns keep their input order. |
| Dashboard.WithReturn | frontend/src/components/Dashboard.jsx:330 | Exactly the trades with a non-null return for the horizon. |
| Dashboard.WithReturnHasReturn | frontend/src/components/Dashboard.jsx:330-331 | Every trade kept has a return, so its sort key is that number. |
| Dashboard.Present | frontend/src/components/Dashboard.jsx:337 | Exactly the non-null entries, and no more of them than entries. |
| Dashboard.PresentAppend | frontend/src/components/Dashboard.jsx:337 | The filter keeps order: the entries of two lists back to back are those of each, concatenated. |
| Dashboard.PresentOne | frontend/src/components/Dashboard.jsx:337 | One entry gives its value when present and nothing when null. |
| Dashboard.TopStockByPeriod | frontend/src/components/Dashboard.jsx:326-338 | The present entries of 7, 30 and 90 days; TopStockByPeriodInOrder states their order. |
| Dashboard.TopStockByPeriodInOrder | frontend/src/components/Dashboard.jsx:326-338 | The 1 Week, 1 Month and 3 Month entries come in that order, each exactly when its horizon has a top stock. |
| Dashboard.TopStockPresent | frontend/src/components/Dashboard.jsx:326-337 | A horizon has a top stock exactly when some trade has a return for it. |
| Dashboard.TopStockFirstMax | frontend/src/components/Dashboard.jsx:329-336 | The top stock is, among the trades with a return, one with the largest return and the first such one; the entry shows its symbol and return. |
| Dashboard.CandidatesFacts | frontend/src/components/Dashboard.jsx:309-313 | The candidates are exactly the shown horizons with a non-null return, in the order 7, 30, 90 days. |
| Dashboard.CandidateAt | frontend/src/components/Dashboard.jsx:309-313 | A shown horizon with a return is the candidate after the earlier horizons that have one. |
| Dashboard.CandidatePos | frontend/src/components/Dashboard.jsx:309-313 | Every candidate pairs a shown horizon with its return and sits at that horizon's position. |
| Dashboard.ReduceMax | frontend/src/components/Dashboard.jsx:315 | The reduce with a strict `>` keeps a largest value, and the first one. |
| Dashboard.BestOfPresent | frontend/src/components/Dashboard.jsx:314-317 | A trade counts for a horizon exactly when it has some return. The horizon is a shown one with a return. |
| Dashboard.BestOfBeats | frontend/src/components/Dashboard.jsx:315 | No shown horizon's return beats the chosen one. |
| Dashboard.BestOfFirst | frontend/src/components/Dashboard.jsx:315 | No horizon before the chosen one has a return as large, since `>` is strict. |
| Dashboard.BestOfFacts | frontend/src/components/Dashboard.jsx:308-317 | The reduce picks a shown horizon with the largest return, the earliest on ties. |
| Dashboard.BestHorizon | frontend/src/components/Dashboard.jsx:308-317 | The best horizon of a trade's 7, 30 and 90-day returns; BestHorizonFacts states which it is. |
| Dashboard.BestHorizonFacts | frontend/src/components/Dashboard.jsx:308-317 | The same, stated on a trade's own return fields. |
| Dashboard.CountBest | frontend/src/components/Dashboard.jsx:316 | Each count is at most the number of trades. |
| Dashboard.BucketsPartition | frontend/src/components/Dashboard.jsx:306-324 | The three bars together count every trade with some return exactly once. |
| Dashboard.BestPeriodData | frontend/src/components/Dashboard.jsx:306-324 | The loop over the counts dictionary yields, for 1 Week, 1 Month and 3 Month, the number of trades whose best horizon it is. |
| TradeLog.Lower | frontend/src/components/Dashboard.jsx:349 | `toLowerCase` keeps the length and maps each character. |
| TradeLog.LowerIdempotent | frontend/src/components/Dashboard.jsx:349 | Lower-casing twice is lower-casing once. |
| TradeLog.Includes | frontend/src/components/Dashboard.jsx:349 | `includes` is true exactly when the text occurs at some position. |
| TradeLog.IncludesShift | frontend/src/components/Dashboard.jsx:349 | Past a failed first position, the text occurs exactly when it occurs in the rest. |
| TradeLog.FilteredTrades | frontend/src/components/Dashboard.jsx:347-351 | The Success trades whose lower-cased symbol includes the lower-cased search text; FilterFacts, FilterEmptyTerm and FilterIgnoresCase state its properties. |
| TradeLog.FilterFacts | frontend/src/components/Dashboard.jsx:347-351 | The search keeps exactly the matching trades, in order. |
| TradeLog.FilterEmptyTerm | frontend/src/components/Dashboard.jsx:347-351 | An empty search keeps every trade. |
| TradeLog.FilterIgnoresCase | frontend/src/components/Dashboard.jsx:349 | The case of the search text does not matter. |
| TradeLog.ToggleSort | frontend/src/components/Dashboard.jsx:340-345 | The header click's new sort; ToggleSortFacts states what it does. |
| TradeLog.ToggleSortFacts | frontend/src/components/Dashboard.jsx:340-345 | A click sorts by that column: a new column starts ascending and the same column flips. Two clicks on the current column restore it; two on another leave it descending. |
| TradeLog.ComparatorAgreesWithRank | frontend/src/components/Dashboard.jsx:355-366 | The comparator is negative, zero or positive exactly when the rank the sort uses is below, equal or above, for both directions and with null as -Infinity. |
| TradeLog.SortedTrades | frontend/src/components/Dashboard.jsx:353-371 | The sorted log rearranges the filtered trades. When every cell of the column is a number (null as -Infinity), or every cell is NaN, it is the stable sort by the comparator. |
| TradeLog.SymbolSortKeepsOrder | frontend/src/components/Dashboard.jsx:353-371 | Sorting by symbol keeps the filtered order in either direction, since every comparison is NaN, read as +0. |
| TradeLog.NullPair | frontend/src/components/Dashboard.jsx:363-365 | Of two trades in sort order, a null after a value is impossible when ascending, and a null before a value is impossible when descending. |
| TradeLog.NullPlacement | frontend/src/components/Dashboard.jsx:363-365 | Nulls come first when ascending and last when descending. The trades with a value are in order of it. |
| TradeLog.TotalPages | frontend/src/components/Dashboard.jsx:378 | `ceil(n / size)`: the fewest pages of `size` that hold n trades. |
| TradeLog.Paginate | frontend/src/components/Dashboard.jsx:373-376 | The slice of `size` trades from `(page - 1) * size`; PageFacts and PagesCoverAll state what it holds. |
| TradeLog.PageFacts | frontend/src/components/Dashboard.jsx:373-376 | A page holds at most `size` trades. It starts at `(page - 1) * size`, is shorter only at the end, and is empty past it and on page 0. |
| TradeLog.MulMonotone | frontend/src/components/Dashboard.jsx:374 | Page starts increase with the page number. |
| TradeLog.PageNonEmpty | frontend/src/components/Dashboard.jsx:373-378 | A page has trades exactly when it is between 1 and the page count. |
| TradeLog.PagesArePrefix | frontend/src/components/Dashboard.jsx:373-376 | Pages 1 to k together are the first k * size trades. |
| TradeLog.PagesCoverAll | frontend/src/components/Dashboard.jsx:373-378 | Paging through all pages shows every sorted trade once, in order. |
| TradeLog.DashboardState.constructor | frontend/src/components/Dashboard.jsx:249-253 | The opening state: empty search, 1-month return descending, page 1, 25 per page, capital 1 lakh. |
| TradeLog.DashboardState.SuccessfulTrades | frontend/src/components/Dashboard.jsx:257-260 | The report's Success records, from which every view below is computed. |
| TradeLog.DashboardState.Filtered | frontend/src/components/Dashboard.jsx:347-351 | The search over the Success records of the report with the current search text. |
| TradeLog.DashboardState.StatsAt | frontend/src/components/Dashboard.jsx:270-298 | CalculateStats of the report's Success records with the selected capital. |
| TradeLog.DashboardState.TopPerformersAt | frontend/src/components/Dashboard.jsx:262-268 | TopPerformers of the report's Success records. |
| TradeLog.DashboardState.TopStocks | frontend/src/components/Dashboard.jsx:326-338 | TopStockByPeriod of the report's Success records. |
| TradeLog.DashboardState.BestPeriods | frontend/src/components/Dashboard.jsx:306-324 | The bars are the numbers of the report's Success trades whose best horizon is 1 Week, 1 Month and 3 Month. |
| TradeLog.DashboardState.HandleSort | frontend/src/components/Dashboard.jsx:340-345 | A header click toggles the sort and changes nothing else. |
| TradeLog.DashboardState.SetSearchTerm | frontend/src/components/Dashboard.jsx:614 | Typing sets the search text and keeps the page. |
| TradeLog.DashboardState.SetItemsPerPage | frontend/src/components/Dashboard.jsx:617-622 | Choosing 10, 25, 50 or 100 per page sets the size and keeps the page. |
| TradeLog.DashboardState.SetCapital | frontend/src/components/Dashboard.jsx:424-429 | Choosing 1, 5, 10 or 50 lakh sets the capital. |
| TradeLog.DashboardState.PrevPage | frontend/src/components/Dashboard.jsx:692 | Allowed off page 1; it moves to `max(1, p - 1)`. |
| TradeLog.DashboardState.NextPage | frontend/src/components/Dashboard.jsx:698 | Allowed off the last page; it moves to `min(totalPages, p + 1)` and never past the page count. |
| TradeLog.DashboardState.PaginatedTrades | frontend/src/components/Dashboard.jsx:373-376 | The current page of the sorted log. It holds at most `itemsPerPage` trades and is nonempty exactly when the page is between 1 and `totalPages`. |

## Left out

- Rounding: `round(x, 2)` on returns, exit prices, extrema, averages and win
  rates is not modelled; the model computes exact reals.
- Date formatting: `strftime("%Y-%m-%d")` of the entry and extrema days is
  not modelled; days are day numbers. Date parsing is a parameter, one call
  per format.
- Data provider: `backend/core/data_provider.py` (the yfinance network fetch
  and disk cache) is not part of this model. The price fetch is a parameter,
  and closing prices are taken to be positive.
- Server: the WebSocket and HTTP handling that calls the run and forwards
  progress is not part of this model. The optional progress callback is
  always modelled as present.
- Row cells: cells are text. Numeric, NaN and timestamp cells are not
  modelled; in the code they raise in `.upper()` or in `strptime`.
- Sector and market cap: not modelled because the run never sets them.
- Rendering: the charts, tooltips, colours, number formatting, the chart
  modal and the selected stock and period state are not modelled.
- TradeLog.Lower: lower-cases ASCII letters only, where JavaScript's
  `toLowerCase` maps all of Unicode.
- TradeLog.SortedTrades: the model reads a comparator result of NaN as +0,
  as the comparison step of `Array.prototype.sort` does (section 23.1.3.30
  of ECMA-262), and takes the sort to be stable. Two nulls
  (`-Infinity - -Infinity`) and two symbols then compare equal, so those
  columns get the exact stable order. ECMA-262 calls a comparator that ever
  returns NaN inconsistent and leaves the order to the engine; the model goes
  beyond that and promises what a stable engine that reads NaN as +0
  produces. For a column that mixes parsable and unparsable dates even that
  reading is not a consistent order, and the model promises only a
  rearrangement.
- SymbolResolver.Upper: upper-cases ASCII letters only, where Python's
  `str.upper` maps all of Unicode and may lengthen the string (`"ß"` becomes
  `"SS"`).
- Dashboard.CapitalReturnFacts: states that the capital return is additive in
  the capital, but not that scaling the capital by a factor scales the
  return by it.
- Floating point: all arithmetic is on exact reals. IEEE rounding, overflow,
  and NaN from a zero entry price are outside the model.
- Progress events: in the code they are emitted before each row is
  processed, with `current = i + 1`. The model follows the code, and a row
  that raises has already been announced.
- Null ordering: the code sorts a null as `-Infinity`, so nulls come first
  when ascending and last when descending.

## Findings

| source | as written | input that shows it | evidently intended | confidence | as-written member | corrected member |
|---|---|---|---|---|---|---|
| backend/core/backtester.py:149 | `worst_performer` takes the `min` with key 999 for a trade without a 30-day return | two Success trades, the first without a 30-day return, the second with a 30-day return of 1500 % | the trade with the smallest 30-day return among those that have one | not executed | Backtester.WorstPerformerAsWritten, BacktestProperties.WorstPerformerAsWrittenPicksMissing | Backtester.WorstPerformer, BacktestProperties.WorstPerformersAgree |
