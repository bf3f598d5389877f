/** The backtest run: one pass over the uploaded rows that reports progress,
    classifies each row, computes the forward returns and 90-day extrema of
    every Success row, and aggregates the report.  The symbol check, the price
    source and the per-format date parser are parameters (Env). */
module Backtester {
  import opened Wrappers
  import opened Schemas
  import opened DateUtils
  import opened SymbolResolver
  import opened Numeric

  /** A closing price.  Prices from the data provider are positive, so the
      division by the entry price in a return is always defined. */
  type Price = r: real | r > 0.0 witness 1.0

  /** One trading day of a price table: Close, High and Low. */
  datatype Bar = Bar(close: Price, high: real, low: real)

  /** A price table: trading day -> prices.  Its keys are the index of the frame. */
  type PriceTable = map<int, Bar>

  /** What `DataProvider.get_ticker_data(symbol, start, end)` does: it returns a
      frame (possibly empty) or raises. */
  datatype FetchOutcome = Fetched(table: PriceTable) | FetchRaised(message: string)

  type FetchTicker = (string, int, int) -> FetchOutcome

  /** The collaborators a run calls: the latest-price lookup behind the symbol
      check, the historical price source, and strptime. */
  datatype Env = Env(latestPrice: LatestPrice, fetch: FetchTicker, strptime: Strptime)

  /** The days after the signal date up to which prices are requested. */
  const FetchSpanDays: int := 100
  /** The length of the window for the 90-day high and low. */
  const ExtremaWindowDays: int := 90
  /** How many days past a target date a trading day is looked for. */
  const Lookahead: nat := 5

  /** An input row: column name -> cell text. */
  type Row = map<string, string>

  /** `signal.get(key)` */
  function Get(row: Row, key: string): Option<string> {
    if key in row then Some(row[key]) else None
  }

  /** Python truth of an optional string: neither None nor empty. */
  predicate Truthy(v: Option<string>) {
    v.Some? && v.value != ""
  }

  /** Python's `a or b`. */
  function Or(a: Option<string>, b: Option<string>): (r: Option<string>)
    ensures Truthy(r) <==> Truthy(a) || Truthy(b)
  {
    if Truthy(a) then a else b
  }

  function RawSymbol(row: Row): Option<string> {
    Or(Get(row, "symbol"), Get(row, "Symbol"))
  }

  function DateString(row: Row): Option<string> {
    Or(Get(row, "date"), Get(row, "Date"))
  }

  /** The symbol a progress event names: only the lower-case column is read. */
  function ProgressSymbol(row: Row): string {
    if Truthy(Get(row, "symbol")) then Get(row, "symbol").value else "Unknown"
  }

  /** The arguments of one progress callback. */
  datatype ProgressEvent = ProgressEvent(current: int, total: int, symbol: string)

  /** The callbacks of a whole run, one per row, in row order. */
  function ProgressTrace(rows: seq<Row>): (r: seq<ProgressEvent>)
    ensures |r| == |rows|
  {
    seq(|rows|, i requires 0 <= i < |rows| => ProgressEvent(i + 1, |rows|, ProgressSymbol(rows[i])))
  }

  /** `((exit - entry) / entry) * 100` */
  function ReturnPct(entry: Price, exit: real): (r: real)
    ensures r > 0.0 <==> exit > entry
    ensures r < 0.0 <==> exit < entry
    ensures exit > 0.0 ==> r > -100.0
  {
    if exit > 0.0 then
      DivGtMinusOne(exit - entry, entry);
      ((exit - entry) / entry) * 100.0
    else ((exit - entry) / entry) * 100.0
  }

  lemma DivGtMinusOne(a: real, b: real)
    requires b > 0.0 && a + b > 0.0
    ensures a / b > -1.0
  {
    var q := a / b;
    var p := (a + b) / b;
    assert p > 0.0;
    var x := p - q - 1.0;
    assert x * b == p * b - q * b - b;
    assert x * b == 0.0;
    assert x == (x * b) / b;
  }

  lemma DivAtMostOne(n: real, m: real)
    requires m > 0.0 && 0.0 <= n <= m
    ensures n / m <= 1.0
    ensures n < m ==> n / m < 1.0
  {
    var q := n / m;
    var r := (m - n) / m;
    assert r >= 0.0;
    assert n < m ==> r > 0.0;
    var x := q + r - 1.0;
    assert x * m == q * m + r * m - m;
    assert x * m == 0.0;
    assert x == (x * m) / m;
  }

  /** The exit close for horizon h: the close of the first trading day within
      the lookahead from entry + h days. */
  function HorizonExit(table: PriceTable, entry: int, h: Horizon): Option<real> {
    var d := FirstTradingDay(entry + h.Days(), table.Keys, Lookahead);
    if d.Some? then Some(table[d.value].close as real) else None
  }

  /** The return for horizon h, present exactly when its exit close is. */
  function HorizonReturn(table: PriceTable, entry: int, h: Horizon): Option<real>
    requires entry in table
  {
    match HorizonExit(table, entry, h)
    case Some(exit) => Some(ReturnPct(table[entry].close, exit))
    case None => None
  }

  /** A price with the day on which it occurs. */
  datatype Extremum = Extremum(value: real, day: int)

  /** `High.max()` and `High.idxmax()` over the trading days in [lo, hi]: the
      largest high, on the earliest day it occurs. */
  function MaxHigh(table: PriceTable, lo: int, hi: int): (r: Option<Extremum>)
    ensures r.None? <==> forall d :: lo <= d <= hi ==> d !in table
    ensures r.Some? ==> lo <= r.value.day <= hi && r.value.day in table && table[r.value.day].high == r.value.value
    ensures r.Some? ==> forall d :: lo <= d <= hi && d in table ==> table[d].high <= r.value.value
    ensures r.Some? ==> forall d :: lo <= d < r.value.day && d in table ==> table[d].high < r.value.value
    decreases hi - lo + 1
  {
    if lo > hi then None
    else
      var rest := MaxHigh(table, lo + 1, hi);
      if lo in table && (rest.None? || table[lo].high >= rest.value.value) then Some(Extremum(table[lo].high, lo))
      else rest
  }

  /** `Low.min()` and `Low.idxmin()` over the trading days in [lo, hi]: the
      smallest low, on the earliest day it occurs. */
  function MinLow(table: PriceTable, lo: int, hi: int): (r: Option<Extremum>)
    ensures r.None? <==> forall d :: lo <= d <= hi ==> d !in table
    ensures r.Some? ==> lo <= r.value.day <= hi && r.value.day in table && table[r.value.day].low == r.value.value
    ensures r.Some? ==> forall d :: lo <= d <= hi && d in table ==> r.value.value <= table[d].low
    ensures r.Some? ==> forall d :: lo <= d < r.value.day && d in table ==> r.value.value < table[d].low
    decreases hi - lo + 1
  {
    if lo > hi then None
    else
      var rest := MinLow(table, lo + 1, hi);
      if lo in table && (rest.None? || table[lo].low <= rest.value.value) then Some(Extremum(table[lo].low, lo))
      else rest
  }

  /** The record of a Success row entered on trading day entry: entry close,
      one independent return per horizon, and the extrema of the 90-day window
      starting at entry (never empty, since it holds entry itself). */
  function SuccessRecord(symbol: string, table: PriceTable, entry: int): (r: SignalResult)
    requires entry in table
  {
    var high := MaxHigh(table, entry, entry + ExtremaWindowDays).value;
    var low := MinLow(table, entry, entry + ExtremaWindowDays).value;
    SignalResult(symbol, Day(entry), table[entry].close as real,
      HorizonReturn(table, entry, D7), HorizonExit(table, entry, D7),
      HorizonReturn(table, entry, D14), HorizonExit(table, entry, D14),
      HorizonReturn(table, entry, D30), HorizonExit(table, entry, D30),
      HorizonReturn(table, entry, D45), HorizonExit(table, entry, D45),
      HorizonReturn(table, entry, D60), HorizonExit(table, entry, D60),
      HorizonReturn(table, entry, D90), HorizonExit(table, entry, D90),
      Some(high.value), Some(high.day), Some(low.value), Some(low.day),
      None, None, Success)
  }

  /** What one row contributes: nothing (a row without symbol or date), one
      record, or the end of the run (the price source raised). */
  datatype RowOutcome = Skipped | Recorded(result: SignalResult) | Aborted(message: string)

  /** The specification of one iteration of the row loop.  The checks run in a
      fixed order: symbol, date, data, entry day. */
  function ProcessRow(row: Row, env: Env): (o: RowOutcome)
    ensures o.Recorded? && o.result.status != Success ==> o.result.entryPrice == 0.0 && o.result.NoPrices()
    ensures o.Recorded? && o.result.status == Success ==> o.result.signalDate.Day? && o.result.entryPrice > 0.0
  {
    var raw := RawSymbol(row);
    var dateStr := DateString(row);
    if !Truthy(raw) || !Truthy(dateStr) then Skipped
    else
      match Resolve(raw.value, env.latestPrice)
      case None => Recorded(NewSignalResult(raw.value, Text(dateStr.value), 0.0, SymbolNotFound))
      case Some(symbol) =>
        match FirstParse(dateStr.value, Formats, env.strptime)
        case None => Recorded(NewSignalResult(symbol, Text(dateStr.value), 0.0, InvalidDate))
        case Some(signalDate) => ProcessParsed(symbol, dateStr.value, signalDate, env)
  }

  /** Lines 49-115: a row whose symbol resolved to `symbol` and whose date
      text `dateStr` parsed to `signalDate`. */
  function ProcessParsed(symbol: string, dateStr: string, signalDate: int, env: Env): (o: RowOutcome)
    ensures o.Recorded? && o.result.status != Success ==> o.result.entryPrice == 0.0 && o.result.NoPrices()
    ensures o.Recorded? && o.result.status == Success ==> o.result.signalDate.Day? && o.result.entryPrice > 0.0
  {
    match env.fetch(symbol, signalDate, signalDate + FetchSpanDays)
    case FetchRaised(message) => Aborted(message)
    case Fetched(table) =>
      if |table| == 0 then Recorded(NewSignalResult(symbol, Text(dateStr), 0.0, NoData))
      else
        match FirstTradingDay(signalDate, table.Keys, Lookahead)
        case None => Recorded(NewSignalResult(symbol, Text(dateStr), 0.0, NoEntryData))
        case Some(entry) => Recorded(SuccessRecord(symbol, table, entry))
  }

  /** The records of a run in row order, or the message of the first raise. */
  function Trades(rows: seq<Row>, env: Env): Result<seq<SignalResult>, string>
    decreases |rows|
  {
    if rows == [] then Ok([])
    else
      match Trades(rows[..|rows| - 1], env)
      case Err(message) => Err(message)
      case Ok(ts) =>
        match ProcessRow(rows[|rows| - 1], env)
        case Skipped => Ok(ts)
        case Recorded(r) => Ok(ts + [r])
        case Aborted(message) => Err(message)
  }

  // ---------------------------------------------------------------------------
  // Aggregation

  /** `[r for r in results if r.status == "Success"]` */
  function Successful(trades: seq<SignalResult>): (r: seq<SignalResult>)
    ensures |r| <= |trades|
    ensures forall t :: t in r <==> t in trades && t.status == Success
    decreases |trades|
  {
    if trades == [] then []
    else
      var rest := Successful(trades[..|trades| - 1]);
      var last := trades[|trades| - 1];
      assert trades == trades[..|trades| - 1] + [last];
      if last.status == Success then rest + [last] else rest
  }

  /** `[r.return_{h}d for r in successful if r.return_{h}d is not None]` */
  function ReturnsAt(trades: seq<SignalResult>, h: Horizon): (r: seq<real>)
    ensures |r| <= |trades|
    ensures forall x :: x in r <==> exists t :: t in trades && t.ReturnAt(h) == Some(x)
    decreases |trades|
  {
    if trades == [] then []
    else
      var rest := ReturnsAt(trades[..|trades| - 1], h);
      var last := trades[|trades| - 1];
      assert trades == trades[..|trades| - 1] + [last];
      if last.ReturnAt(h).Some? then rest + [last.ReturnAt(h).value] else rest
  }

  /** `len([x for x in xs if x > 0])` */
  function CountPositive(xs: seq<real>): (n: nat)
    ensures n <= |xs|
    ensures n == 0 <==> forall i :: 0 <= i < |xs| ==> xs[i] <= 0.0
    ensures n == |xs| <==> forall i :: 0 <= i < |xs| ==> xs[i] > 0.0
    decreases |xs|
  {
    if xs == [] then 0
    else CountPositive(xs[..|xs| - 1]) + (if xs[|xs| - 1] > 0.0 then 1 else 0)
  }

  /** `len([x for x in xs if x > 0]) / len(xs) * 100`: the share of positive
      values, in percent. */
  function WinRate(xs: seq<real>): (w: real)
    requires xs != []
    ensures 0.0 <= w <= 100.0
    ensures w == 0.0 <==> forall i :: 0 <= i < |xs| ==> xs[i] <= 0.0
    ensures w == 100.0 <==> forall i :: 0 <= i < |xs| ==> xs[i] > 0.0
  {
    var n := CountPositive(xs);
    DivAtMostOne(n as real, |xs| as real);
    (n as real / |xs| as real) * 100.0
  }

  /** Python's `max(s, key=key)`: the position of the first element whose key is
      largest. */
  function FirstMaxIndex(s: seq<SignalResult>, key: SignalResult -> real): (i: nat)
    requires s != []
    ensures i < |s|
    ensures forall j :: 0 <= j < |s| ==> key(s[j]) <= key(s[i])
    ensures forall j :: 0 <= j < i ==> key(s[j]) < key(s[i])
    decreases |s|
  {
    if |s| == 1 then 0
    else
      var m := FirstMaxIndex(s[..|s| - 1], key);
      if key(s[|s| - 1]) > key(s[m]) then |s| - 1 else m
  }

  /** Python's `min(s, key=key)`: the position of the first element whose key is
      smallest. */
  function FirstMinIndex(s: seq<SignalResult>, key: SignalResult -> real): (i: nat)
    requires s != []
    ensures i < |s|
    ensures forall j :: 0 <= j < |s| ==> key(s[i]) <= key(s[j])
    ensures forall j :: 0 <= j < i ==> key(s[i]) < key(s[j])
    decreases |s|
  {
    if |s| == 1 then 0
    else
      var m := FirstMinIndex(s[..|s| - 1], key);
      if key(s[|s| - 1]) < key(s[m]) then |s| - 1 else m
  }

  /** The key of `max(successful, ...)`: a missing 30-day return counts as -999. */
  function BestKey(t: SignalResult): real {
    t.return30d.GetOr(-999.0)
  }

  /** The key of `min(successful, ...)`: a missing 30-day return counts as 999. */
  function WorstKey(t: SignalResult): real {
    t.return30d.GetOr(999.0)
  }

  /** `best_performer`: the first trade with the largest BestKey. */
  function BestPerformer(succ: seq<SignalResult>): SignalResult
    requires succ != []
  {
    succ[FirstMaxIndex(succ, BestKey)]
  }

  /** `worst_performer` as the source computes it: the first trade with the
      smallest WorstKey.  A trade without a 30-day return wins when every 30-day
      return is 999 or more. */
  function WorstPerformerAsWritten(succ: seq<SignalResult>): SignalResult
    requires succ != []
  {
    succ[FirstMinIndex(succ, WorstKey)]
  }

  /** Some trade of s has a 30-day return. */
  predicate Has30d(s: seq<SignalResult>) {
    exists j :: 0 <= j < |s| && s[j].return30d.Some?
  }

  /** The position of the first trade with the smallest 30-day return among
      the trades that have one. */
  function FirstMin30Index(s: seq<SignalResult>): (i: nat)
    requires Has30d(s)
    ensures i < |s| && s[i].return30d.Some?
    ensures forall j :: 0 <= j < |s| && s[j].return30d.Some? ==> s[i].return30d.value <= s[j].return30d.value
    ensures forall j :: 0 <= j < i && s[j].return30d.Some? ==> s[i].return30d.value < s[j].return30d.value
    decreases |s|
  {
    var init := s[..|s| - 1];
    if !Has30d(init) then |s| - 1
    else
      var m := FirstMin30Index(init);
      if s[|s| - 1].return30d.Some? && s[|s| - 1].return30d.value < init[m].return30d.value then |s| - 1 else m
  }

  /** `worst_performer` as intended: the first trade with the smallest 30-day
      return among the trades that have one. */
  function WorstPerformer(succ: seq<SignalResult>): (w: SignalResult)
    requires Has30d(succ)
    ensures w in succ && w.return30d.Some?
    ensures forall t :: t in succ && t.return30d.Some? ==> w.return30d.value <= t.return30d.value
  {
    succ[FirstMin30Index(succ)]
  }

  /** A horizon has returns exactly when some trade has a return there. */
  lemma ReturnsAtNonEmpty(trades: seq<SignalResult>, h: Horizon)
    ensures ReturnsAt(trades, h) != [] <==> exists j :: 0 <= j < |trades| && trades[j].ReturnAt(h).Some?
    ensures h == D30 ==> (ReturnsAt(trades, h) != [] <==> Has30d(trades))
  {
    var r := ReturnsAt(trades, h);
    if r != [] {
      assert r[0] in r;
      var t :| t in trades && t.ReturnAt(h) == Some(r[0]);
      var j :| 0 <= j < |trades| && trades[j] == t;
    }
    if exists j :: 0 <= j < |trades| && trades[j].ReturnAt(h).Some? {
      var j :| 0 <= j < |trades| && trades[j].ReturnAt(h).Some?;
      assert trades[j] in trades;
      assert trades[j].ReturnAt(h).value in r;
    }
  }

  /** What the report of a run over `total` rows with records `trades` holds.  */
  predicate ReportSpec(total: int, trades: seq<SignalResult>, report: BacktestReport) {
    var succ := Successful(trades);
    && report.totalSignals == total
    && report.successfulSignals == |succ|
    && report.failedSignals == total - |succ|
    && report.trades == trades
    && StatsSpec(ReturnsAt(succ, D7), report.avgReturn7d, report.winRate7d)
    && StatsSpec(ReturnsAt(succ, D30), report.avgReturn30d, report.winRate30d)
    && StatsSpec(ReturnsAt(succ, D90), report.avgReturn90d, report.winRate90d)
    && (!Has30d(succ) ==> report.bestPerformer.None? && report.worstPerformer.None?)
    && (Has30d(succ) ==>
          report.bestPerformer == Some(BestPerformer(succ))
          && report.worstPerformer == Some(WorstPerformerAsWritten(succ)))
  }

  /** The average and the win rate of one horizon: both None when no trade has
      a return there, otherwise the mean and the share of positive returns. */
  predicate StatsSpec(rets: seq<real>, avg: Option<real>, winRate: Option<real>) {
    if rets == [] then avg.None? && winRate.None?
    else avg == Some(Mean(rets)) && winRate == Some(WinRate(rets))
  }

  /** Lines 117-149: the counts, then the statistics of each horizon, then best
      and worst performer, each set only when there is something to aggregate. */
  method AggregateReport(total: int, results: seq<SignalResult>) returns (report: BacktestReport)
    ensures ReportSpec(total, results, report)
  {
    var successful := Successful(results);
    report := NewReport(total, |successful|, total - |successful|, results);
    if |successful| > 0 {
      var rets7 := ReturnsAt(successful, D7);
      if |rets7| > 0 {
        report := report.(avgReturn7d := Some(Mean(rets7)), winRate7d := Some(WinRate(rets7)));
      }
      var rets30 := ReturnsAt(successful, D30);
      if |rets30| > 0 {
        report := report.(avgReturn30d := Some(Mean(rets30)), winRate30d := Some(WinRate(rets30)));
      }
      var rets90 := ReturnsAt(successful, D90);
      if |rets90| > 0 {
        report := report.(avgReturn90d := Some(Mean(rets90)), winRate90d := Some(WinRate(rets90)));
      }
      ReturnsAtNonEmpty(successful, D30);
      if |rets30| > 0 {
        report := report.(bestPerformer := Some(BestPerformer(successful)),
                          worstPerformer := Some(WorstPerformerAsWritten(successful)));
      }
    }
  }

  // ---------------------------------------------------------------------------
  // The run

  /** `Backtester.run_backtest_async(signals, progress_callback)`.  `events` are
      the callback's arguments in call order (the HTTP endpoint passes no
      callback and ignores them); the callback for a row comes before the row
      is looked at.  When the price source raises, the run ends with its
      message and no report, after the callbacks up to and including that
      row. */
  method RunBacktest(rows: seq<Row>, env: Env) returns (result: Result<BacktestReport, string>, events: seq<ProgressEvent>)
    ensures result.Ok? ==> Trades(rows, env) == Ok(result.value.trades)
    ensures result.Ok? ==> ReportSpec(|rows|, result.value.trades, result.value)
    ensures result.Ok? ==> events == ProgressTrace(rows)
    ensures result.Err? ==> Trades(rows, env) == Err(result.error)
    ensures result.Err? ==> exists k :: AbortedAt(rows, env, k, result.error) && events == ProgressTrace(rows)[..k + 1]
  {
    var trades;
    trades, events := RunRows(rows, env);
    match trades
    case Err(message) =>
      result := Err(message);
    case Ok(results) =>
      var report := AggregateReport(|rows|, results);
      result := Ok(report);
  }

  /** Row `k` is the first one whose price fetch raised `message`. */
  ghost predicate AbortedAt(rows: seq<Row>, env: Env, k: int, message: string)
  {
    0 <= k < |rows| && Trades(rows[..k], env).Ok? && ProcessRow(rows[k], env) == Aborted(message)
  }

  /** The row loop of `run_backtest_async` (lines 11-115). */
  method RunRows(rows: seq<Row>, env: Env) returns (trades: Result<seq<SignalResult>, string>, events: seq<ProgressEvent>)
    ensures trades == Trades(rows, env)
    ensures trades.Ok? ==> events == ProgressTrace(rows)
    ensures trades.Err? ==> exists k :: AbortedAt(rows, env, k, trades.error) && events == ProgressTrace(rows)[..k + 1]
  {
    var results: seq<SignalResult> := [];
    var total := |rows|;
    events := [];
    for i := 0 to |rows|
      invariant Trades(rows[..i], env) == Ok(results)
      invariant events == ProgressTrace(rows)[..i]
    {
      events := events + [ProgressEvent(i + 1, total, ProgressSymbol(rows[i]))];
      ProgressTraceStep(rows, i);
      var outcome := ProcessSignal(rows[i], env);
      TradesStep(rows, env, i);
      match outcome
      case Skipped =>
      case Recorded(res) =>
        results := results + [res];
      case Aborted(message) =>
        TradesAbortedPrefix(rows, env, i + 1);
        assert AbortedAt(rows, env, i, message);
        return Err(message), events;
    }
    assert rows[..|rows|] == rows;
    trades := Ok(results);
  }

  /** The body of the row loop (lines 20-115) for one row. */
  method ProcessSignal(row: Row, env: Env) returns (outcome: RowOutcome)
    ensures outcome == ProcessRow(row, env)
  {
    var rawSymbol := Or(Get(row, "symbol"), Get(row, "Symbol"));
    var dateStr := Or(Get(row, "date"), Get(row, "Date"));
    if !Truthy(rawSymbol) || !Truthy(dateStr) {
      return Skipped;
    }

    // 1. Resolve symbol
    var resolved := Resolve(rawSymbol.value, env.latestPrice);
    if resolved.None? {
      return Recorded(NewSignalResult(rawSymbol.value, Text(dateStr.value), 0.0, SymbolNotFound));
    }
    var symbol := resolved.value;

    // 2. Parse date
    var parsed := ParseDate(dateStr.value, env.strptime);
    if parsed.Err? {
      return Recorded(NewSignalResult(symbol, Text(dateStr.value), 0.0, InvalidDate));
    }
    outcome := ProcessParsedSignal(symbol, dateStr.value, parsed.value, env);
  }

  /** Lines 49-115 of the row loop, after the symbol and the date. */
  method ProcessParsedSignal(symbol: string, dateStr: string, signalDate: int, env: Env) returns (outcome: RowOutcome)
    ensures outcome == ProcessParsed(symbol, dateStr, signalDate, env)
  {
    // 3. Fetch data
    var fetched := env.fetch(symbol, signalDate, signalDate + FetchSpanDays);
    if fetched.FetchRaised? {
      return Aborted(fetched.message);
    }
    var table := fetched.table;
    if |table| == 0 {
      return Recorded(NewSignalResult(symbol, Text(dateStr), 0.0, NoData));
    }

    // 4. Entry day
    var entryDate := GetNextTradingDay(signalDate, table.Keys);
    if entryDate.None? {
      return Recorded(NewSignalResult(symbol, Text(dateStr), 0.0, NoEntryData));
    }
    var res := BuildSuccessRecord(symbol, table, entryDate.value);
    return Recorded(res);
  }

  /** Lines 79-113: the Success record, its forward returns set horizon by
      horizon and its 90-day extrema set afterwards. */
  method BuildSuccessRecord(symbol: string, table: PriceTable, entry: int) returns (res: SignalResult)
    requires entry in table
    ensures res == SuccessRecord(symbol, table, entry)
  {
    var entryPrice := table[entry].close;
    res := NewSignalResult(symbol, Day(entry), entryPrice as real, Success);
    res := SetForwardReturns(res, table, entry);

    // Max high / min low in the 90-day window
    var high := MaxHigh(table, entry, entry + ExtremaWindowDays);
    var low := MinLow(table, entry, entry + ExtremaWindowDays);
    if high.Some? && low.Some? {
      res := res.(maxHigh90d := Some(high.value.value), maxLow90d := Some(low.value.value),
                  maxHighDate := Some(high.value.day), maxLowDate := Some(low.value.day));
    }
    SuccessRecordFields(res, symbol, table, entry);
  }

  /** Lines 89-99: for each horizon in turn, the return and exit close are set
      when a trading day exists within the lookahead from entry + h days; the
      other fields are left as they were. */
  method SetForwardReturns(start: SignalResult, table: PriceTable, entry: int) returns (res: SignalResult)
    requires entry in table && start.entryPrice == table[entry].close as real
    requires start.NoPrices()
    ensures res.return7d == HorizonReturn(table, entry, D7) && res.exitPrice7d == HorizonExit(table, entry, D7)
    ensures res.return14d == HorizonReturn(table, entry, D14) && res.exitPrice14d == HorizonExit(table, entry, D14)
    ensures res.return30d == HorizonReturn(table, entry, D30) && res.exitPrice30d == HorizonExit(table, entry, D30)
    ensures res.return45d == HorizonReturn(table, entry, D45) && res.exitPrice45d == HorizonExit(table, entry, D45)
    ensures res.return60d == HorizonReturn(table, entry, D60) && res.exitPrice60d == HorizonExit(table, entry, D60)
    ensures res.return90d == HorizonReturn(table, entry, D90) && res.exitPrice90d == HorizonExit(table, entry, D90)
    ensures res.symbol == start.symbol && res.signalDate == start.signalDate && res.entryPrice == start.entryPrice
    ensures res.status == start.status && res.sector == start.sector && res.marketCap == start.marketCap
    ensures res.maxHigh90d == start.maxHigh90d && res.maxHighDate == start.maxHighDate
    ensures res.maxLow90d == start.maxLow90d && res.maxLowDate == start.maxLowDate
  {
    var entryPrice := table[entry].close;
    res := start;
    assert start.ReturnAt(D7).None? && start.ReturnAt(D14).None? && start.ReturnAt(D30).None?;
    assert start.ReturnAt(D45).None? && start.ReturnAt(D60).None? && start.ReturnAt(D90).None?;
    assert start.ExitPriceAt(D7).None? && start.ExitPriceAt(D14).None? && start.ExitPriceAt(D30).None?;
    assert start.ExitPriceAt(D45).None? && start.ExitPriceAt(D60).None? && start.ExitPriceAt(D90).None?;
    for k := 0 to |Horizons|
      invariant res.return7d == (if 0 < k then HorizonReturn(table, entry, D7) else None)
      invariant res.exitPrice7d == (if 0 < k then HorizonExit(table, entry, D7) else None)
      invariant res.return14d == (if 1 < k then HorizonReturn(table, entry, D14) else None)
      invariant res.exitPrice14d == (if 1 < k then HorizonExit(table, entry, D14) else None)
      invariant res.return30d == (if 2 < k then HorizonReturn(table, entry, D30) else None)
      invariant res.exitPrice30d == (if 2 < k then HorizonExit(table, entry, D30) else None)
      invariant res.return45d == (if 3 < k then HorizonReturn(table, entry, D45) else None)
      invariant res.exitPrice45d == (if 3 < k then HorizonExit(table, entry, D45) else None)
      invariant res.return60d == (if 4 < k then HorizonReturn(table, entry, D60) else None)
      invariant res.exitPrice60d == (if 4 < k then HorizonExit(table, entry, D60) else None)
      invariant res.return90d == (if 5 < k then HorizonReturn(table, entry, D90) else None)
      invariant res.exitPrice90d == (if 5 < k then HorizonExit(table, entry, D90) else None)
      invariant res.symbol == start.symbol && res.signalDate == start.signalDate && res.entryPrice == start.entryPrice
      invariant res.status == start.status && res.sector == start.sector && res.marketCap == start.marketCap
      invariant res.maxHigh90d == start.maxHigh90d && res.maxHighDate == start.maxHighDate
      invariant res.maxLow90d == start.maxLow90d && res.maxLowDate == start.maxLowDate
    {
      var h := Horizons[k];
      assert HorizonIndex(h) == k;
      var exitDate := GetNextTradingDay(entry + h.Days(), table.Keys);
      if exitDate.Some? {
        var exitPrice := table[exitDate.value].close;
        res := res.WithHorizon(h, ReturnPct(entryPrice, exitPrice as real), exitPrice as real);
      }
    }
  }

  /** A record that agrees with SuccessRecord field by field is SuccessRecord. */
  lemma SuccessRecordFields(res: SignalResult, symbol: string, table: PriceTable, entry: int)
    requires entry in table
    requires res.return7d == HorizonReturn(table, entry, D7) && res.exitPrice7d == HorizonExit(table, entry, D7)
    requires res.return14d == HorizonReturn(table, entry, D14) && res.exitPrice14d == HorizonExit(table, entry, D14)
    requires res.return30d == HorizonReturn(table, entry, D30) && res.exitPrice30d == HorizonExit(table, entry, D30)
    requires res.return45d == HorizonReturn(table, entry, D45) && res.exitPrice45d == HorizonExit(table, entry, D45)
    requires res.return60d == HorizonReturn(table, entry, D60) && res.exitPrice60d == HorizonExit(table, entry, D60)
    requires res.return90d == HorizonReturn(table, entry, D90) && res.exitPrice90d == HorizonExit(table, entry, D90)
    requires res.symbol == symbol && res.signalDate == Day(entry) && res.entryPrice == table[entry].close as real
    requires res.status == Success && res.sector.None? && res.marketCap.None?
    requires var high := MaxHigh(table, entry, entry + ExtremaWindowDays);
      high.Some? && res.maxHigh90d == Some(high.value.value) && res.maxHighDate == Some(high.value.day)
    requires var low := MinLow(table, entry, entry + ExtremaWindowDays);
      low.Some? && res.maxLow90d == Some(low.value.value) && res.maxLowDate == Some(low.value.day)
    ensures res == SuccessRecord(symbol, table, entry)
  {
  }

  /** One more row extends the callbacks by that row's. */
  lemma ProgressTraceStep(rows: seq<Row>, i: nat)
    requires i < |rows|
    ensures ProgressTrace(rows)[..i + 1] == ProgressTrace(rows)[..i] + [ProgressEvent(i + 1, |rows|, ProgressSymbol(rows[i]))]
  {
  }

  /** One more row extends the records by what that row contributes. */
  lemma TradesStep(rows: seq<Row>, env: Env, i: nat)
    requires i < |rows|
    ensures Trades(rows[..i + 1], env) ==
      match Trades(rows[..i], env)
      case Err(message) => Err(message)
      case Ok(ts) =>
        match ProcessRow(rows[i], env)
        case Skipped => Ok(ts)
        case Recorded(r) => Ok(ts + [r])
        case Aborted(message) => Err(message)
  {
    assert rows[..i + 1][..i] == rows[..i];
  }

  /** Once a prefix of the rows ends the run, the whole run ends with the same
      message. */
  lemma {:induction false} TradesAbortedPrefix(rows: seq<Row>, env: Env, n: nat)
    requires n <= |rows| && Trades(rows[..n], env).Err?
    ensures Trades(rows, env) == Trades(rows[..n], env)
    decreases |rows| - n
  {
    if n < |rows| {
      var m := n + 1;
      assert rows[..m][..n] == rows[..n];
      TradesAbortedPrefix(rows, env, m);
    } else {
      assert rows[..n] == rows;
    }
  }
}
