/** Properties of a backtest run: how the records relate to the rows, what a
    Success record holds, what the report's counts and statistics mean, and
    the best and worst performer. */
module BacktestProperties {
  import opened Wrappers
  import opened Schemas
  import opened DateUtils
  import opened SymbolResolver
  import opened Backtester
  import opened Numeric

  // ---------------------------------------------------------------------------
  // Rows and records

  /** A row the loop looks at: it has a symbol and a date. */
  predicate HasSignal(row: Row) {
    Truthy(RawSymbol(row)) && Truthy(DateString(row))
  }

  /** The number of rows that have a symbol and a date. */
  function SignalRows(rows: seq<Row>): (n: nat)
    ensures n <= |rows|
    decreases |rows|
  {
    if rows == [] then 0
    else SignalRows(rows[..|rows| - 1]) + (if HasSignal(rows[|rows| - 1]) then 1 else 0)
  }

  /** A row is skipped exactly when it lacks a symbol or a date; a row that is
      not skipped yields a record unless the price source raised. */
  lemma ProcessRowSkips(row: Row, env: Env)
    ensures ProcessRow(row, env).Skipped? <==> !HasSignal(row)
  {
    if HasSignal(row) {
      var raw := RawSymbol(row);
      var dateStr := DateString(row);
      match Resolve(raw.value, env.latestPrice)
      case None =>
      case Some(symbol) =>
        match FirstParse(dateStr.value, Formats, env.strptime)
        case None =>
        case Some(d) =>
          assert !ProcessParsed(symbol, dateStr.value, d, env).Skipped?;
    }
  }

  /** A run that ends normally records every row with a symbol and a date,
      and no other. */
  lemma {:induction false} TradesCount(rows: seq<Row>, env: Env)
    requires Trades(rows, env).Ok?
    ensures |Trades(rows, env).value| == SignalRows(rows) <= |rows|
    decreases |rows|
  {
    if rows != [] {
      var init := rows[..|rows| - 1];
      TradesCount(init, env);
      ProcessRowSkips(rows[|rows| - 1], env);
    }
  }

  /** The records of consecutive row blocks are concatenated in row order; a
      raise in the first block ends the run before the second is looked at. */
  lemma {:induction false} TradesAppend(a: seq<Row>, b: seq<Row>, env: Env)
    ensures Trades(a + b, env) ==
      match Trades(a, env)
      case Err(message) => Err(message)
      case Ok(x) =>
        match Trades(b, env)
        case Err(message) => Err(message)
        case Ok(y) => Ok(x + y)
    decreases |b|
  {
    if b == [] {
      assert a + b == a;
      if Trades(a, env).Ok? {
        assert Trades(a, env).value + [] == Trades(a, env).value;
      }
    } else {
      var init := b[..|b| - 1];
      var last := b[|b| - 1];
      assert (a + b)[..|a + b| - 1] == a + init;
      assert (a + b)[|a + b| - 1] == last;
      TradesAppend(a, init, env);
      match Trades(a, env)
      case Err(_) =>
      case Ok(x) =>
        match Trades(init, env)
        case Err(_) =>
        case Ok(y) =>
          match ProcessRow(last, env)
          case Skipped =>
          case Recorded(r) =>
            assert x + y + [r] == x + (y + [r]);
          case Aborted(_) =>
    }
  }

  // ---------------------------------------------------------------------------
  // Success records

  /** What a Success record holds: the entry day and its close; for every
      horizon a return exactly when there is an exit close, the exit close
      being that of the first trading day within the lookahead of entry + h,
      and the return its percentage change from the entry close (above -100);
      and the highest high and lowest low of the 90-day window, on days in
      that window. */
  lemma SuccessRecordFacts(symbol: string, table: PriceTable, entry: int)
    requires entry in table
    ensures var r := SuccessRecord(symbol, table, entry);
      && r.status == Success && r.symbol == symbol
      && r.signalDate == Day(entry) && r.entryPrice == table[entry].close as real
      && (forall h: Horizon :: r.ReturnAt(h).Some? <==> r.ExitPriceAt(h).Some?)
      && (forall h: Horizon :: r.ExitPriceAt(h).Some? <==> FirstTradingDay(entry + h.Days(), table.Keys, Lookahead).Some?)
      && (forall h: Horizon :: r.ExitPriceAt(h).Some? ==>
            var exit := FirstTradingDay(entry + h.Days(), table.Keys, Lookahead).value;
            && r.ExitPriceAt(h).value == table[exit].close as real
            && r.ReturnAt(h).value == ReturnPct(table[entry].close, table[exit].close as real)
            && r.ReturnAt(h).value > -100.0)
    ensures var r := SuccessRecord(symbol, table, entry);
      && r.maxHigh90d.Some? && r.maxHighDate.Some? && r.maxLow90d.Some? && r.maxLowDate.Some?
      && entry <= r.maxHighDate.value <= entry + ExtremaWindowDays && r.maxHighDate.value in table
      && entry <= r.maxLowDate.value <= entry + ExtremaWindowDays && r.maxLowDate.value in table
      && r.maxHigh90d.value == table[r.maxHighDate.value].high
      && r.maxLow90d.value == table[r.maxLowDate.value].low
      && (forall d :: entry <= d <= entry + ExtremaWindowDays && d in table ==>
            r.maxLow90d.value <= table[d].low && table[d].high <= r.maxHigh90d.value)
  {
    var r := SuccessRecord(symbol, table, entry);
    forall h: Horizon
      ensures r.ReturnAt(h) == HorizonReturn(table, entry, h)
      ensures r.ExitPriceAt(h) == HorizonExit(table, entry, h)
    {
      match h
      case D7 =>
      case D14 =>
      case D30 =>
      case D45 =>
      case D60 =>
      case D90 =>
    }
    ExtremaPresent(table, entry);
  }

  /** The window starting at entry holds entry, so both extrema exist. */
  lemma ExtremaPresent(table: PriceTable, entry: int)
    requires entry in table
    ensures MaxHigh(table, entry, entry + ExtremaWindowDays).Some?
    ensures MinLow(table, entry, entry + ExtremaWindowDays).Some?
  {
    assert entry <= entry <= entry + ExtremaWindowDays;
  }

  /** Lines 49-115 for a row whose date parsed: a Success record comes from a
      table the price source returned, entered on the first trading day of
      that table within the lookahead of the parsed date. */
  lemma ParsedSuccessFacts(symbol: string, dateStr: string, d: int, env: Env)
    requires ProcessParsed(symbol, dateStr, d, env).Recorded?
    requires ProcessParsed(symbol, dateStr, d, env).result.status == Success
    ensures var r := ProcessParsed(symbol, dateStr, d, env).result;
      && env.fetch(symbol, d, d + FetchSpanDays).Fetched?
      && var table := env.fetch(symbol, d, d + FetchSpanDays).table;
         && r.signalDate.Day?
         && FirstTradingDay(d, table.Keys, Lookahead) == Some(r.signalDate.day)
         && d <= r.signalDate.day <= d + Lookahead
         && r == SuccessRecord(symbol, table, r.signalDate.day)
  {
    match env.fetch(symbol, d, d + FetchSpanDays)
    case Fetched(table) =>
      match FirstTradingDay(d, table.Keys, Lookahead)
      case Some(entry) =>
        SuccessRecordFacts(symbol, table, entry);
  }

  /** Lines 49-77 for a row whose date parsed: a failed record carries the
      date text, and says whether the table was empty or had no trading day
      within the lookahead of the parsed date. */
  lemma ParsedFailureFacts(symbol: string, dateStr: string, d: int, env: Env)
    requires ProcessParsed(symbol, dateStr, d, env).Recorded?
    requires ProcessParsed(symbol, dateStr, d, env).result.status != Success
    ensures var r := ProcessParsed(symbol, dateStr, d, env).result;
      var f := env.fetch(symbol, d, d + FetchSpanDays);
      && r.symbol == symbol && r.signalDate == Text(dateStr)
      && f.Fetched?
      && (r.status == NoData <==> |f.table| == 0)
      && (r.status == NoEntryData <==> |f.table| != 0 && forall j :: d <= j <= d + Lookahead ==> j !in f.table)
      && (r.status == NoData || r.status == NoEntryData)
  {
  }

  /** A row that is recorded as Success went through every check: its symbol
      resolved (with an exchange suffix), its date parsed, the price source
      returned a table, and the entry is the first trading day of that table
      within the lookahead of the parsed date. */
  lemma SuccessRowFacts(row: Row, env: Env, r: SignalResult)
    requires ProcessRow(row, env) == Recorded(r) && r.status == Success
    ensures HasSignal(row)
    ensures Resolve(RawSymbol(row).value, env.latestPrice) == Some(r.symbol) && HasExchangeSuffix(r.symbol)
    ensures exists d: int, table: PriceTable, entry: int :: SuccessTrail(row, env, r, d, table, entry)
  {
    var raw := RawSymbol(row);
    var dateStr := DateString(row);
    ProcessRowSkips(row, env);
    var symbol := Resolve(raw.value, env.latestPrice).value;
    var d := FirstParse(dateStr.value, Formats, env.strptime).value;
    assert ProcessRow(row, env) == ProcessParsed(symbol, dateStr.value, d, env);
    ParsedSuccessFacts(symbol, dateStr.value, d, env);
    var table := env.fetch(symbol, d, d + FetchSpanDays).table;
    assert SuccessTrail(row, env, r, d, table, r.signalDate.day);
  }

  /** The parsed date d, the table the price source returned for it and the
      entry day that make r the record of row. */
  ghost predicate SuccessTrail(row: Row, env: Env, r: SignalResult, d: int, table: PriceTable, entry: int)
    requires HasSignal(row)
  {
    && FirstParse(DateString(row).value, Formats, env.strptime) == Some(d)
    && env.fetch(r.symbol, d, d + FetchSpanDays) == Fetched(table)
    && FirstTradingDay(d, table.Keys, Lookahead) == Some(entry)
    && d <= entry <= d + Lookahead && entry in table
    && r == SuccessRecord(r.symbol, table, entry)
  }

  /** A failed row's record: the date text as uploaded, no entry price and no
      prices; the status names the first check that failed. */
  lemma FailedRowFacts(row: Row, env: Env, r: SignalResult)
    requires ProcessRow(row, env) == Recorded(r) && r.status != Success
    ensures HasSignal(row)
    ensures r.signalDate == Text(DateString(row).value) && r.entryPrice == 0.0 && r.NoPrices()
    ensures r.status == SymbolNotFound <==> Resolve(RawSymbol(row).value, env.latestPrice).None?
    ensures r.status == SymbolNotFound ==> r.symbol == RawSymbol(row).value
    ensures r.status != SymbolNotFound ==> Resolve(RawSymbol(row).value, env.latestPrice) == Some(r.symbol)
    ensures r.status == InvalidDate <==>
      r.status != SymbolNotFound && FirstParse(DateString(row).value, Formats, env.strptime).None?
    ensures r.status == NoData || r.status == NoEntryData ==>
      exists d: int, table: PriceTable :: FailureTrail(row, env, r, d, table)
  {
    var raw := RawSymbol(row);
    var dateStr := DateString(row);
    ProcessRowSkips(row, env);
    match Resolve(raw.value, env.latestPrice)
    case None =>
      assert r == NewSignalResult(raw.value, Text(dateStr.value), 0.0, SymbolNotFound);
    case Some(symbol) =>
      match FirstParse(dateStr.value, Formats, env.strptime)
      case None =>
        assert r == NewSignalResult(symbol, Text(dateStr.value), 0.0, InvalidDate);
      case Some(d) =>
        assert ProcessRow(row, env) == ProcessParsed(symbol, dateStr.value, d, env);
        ParsedFailureFacts(symbol, dateStr.value, d, env);
        assert FailureTrail(row, env, r, d, env.fetch(symbol, d, d + FetchSpanDays).table);
  }

  /** The parsed date d and the table the price source returned for it that
      make r a No Data or No Entry Data record: the table is empty, or has no
      trading day within the lookahead of d. */
  ghost predicate FailureTrail(row: Row, env: Env, r: SignalResult, d: int, table: PriceTable)
    requires HasSignal(row)
  {
    && FirstParse(DateString(row).value, Formats, env.strptime) == Some(d)
    && env.fetch(r.symbol, d, d + FetchSpanDays) == Fetched(table)
    && (r.status == NoData <==> |table| == 0)
    && (r.status == NoEntryData <==> |table| != 0 && forall j :: d <= j <= d + Lookahead ==> j !in table)
  }

  /** Every return a run records is above -100 percent, since prices are
      positive. */
  lemma RecordReturnsAboveMinus100(row: Row, env: Env, r: SignalResult)
    requires ProcessRow(row, env) == Recorded(r)
    ensures forall h: Horizon :: r.ReturnAt(h).Some? ==> r.ReturnAt(h).value > -100.0
  {
    if r.status == Success {
      SuccessRowFacts(row, env, r);
      var d: int, table: PriceTable, entry: int :| SuccessTrail(row, env, r, d, table, entry);
      SuccessRecordFacts(r.symbol, table, entry);
    } else {
      FailedRowFacts(row, env, r);
    }
  }

  /** Every return in the records of a run is above -100 percent. */
  lemma {:induction false} TradesReturnsAboveMinus100(rows: seq<Row>, env: Env)
    requires Trades(rows, env).Ok?
    ensures forall t, h: Horizon :: t in Trades(rows, env).value && t.ReturnAt(h).Some? ==> t.ReturnAt(h).value > -100.0
    decreases |rows|
  {
    if rows != [] {
      var init := rows[..|rows| - 1];
      TradesReturnsAboveMinus100(init, env);
      match ProcessRow(rows[|rows| - 1], env)
      case Skipped =>
      case Recorded(r) =>
        RecordReturnsAboveMinus100(rows[|rows| - 1], env, r);
    }
  }

  // ---------------------------------------------------------------------------
  // The report

  /** The report's counts: every row is counted once, and a row counts as
      failed when its record is not Success or it has no record at all (a
      skipped row). */
  lemma ReportCounts(rows: seq<Row>, env: Env, report: BacktestReport)
    requires Trades(rows, env).Ok?
    requires ReportSpec(|rows|, Trades(rows, env).value, report)
    ensures report.totalSignals == |rows|
    ensures report.successfulSignals + report.failedSignals == report.totalSignals
    ensures 0 <= report.successfulSignals <= |report.trades| <= report.totalSignals
    ensures report.failedSignals == (|report.trades| - report.successfulSignals) + (|rows| - SignalRows(rows))
  {
    TradesCount(rows, env);
  }

  /** The statistics of one horizon: the average lies between the smallest
      and the largest return, and the win rate is a percentage. */
  lemma StatsBounds(rets: seq<real>, avg: Option<real>, winRate: Option<real>)
    requires StatsSpec(rets, avg, winRate) && avg.Some?
    ensures rets != [] && winRate.Some? && 0.0 <= winRate.value <= 100.0
    ensures MinOf(rets) <= avg.value <= MaxOf(rets)
  {
    MeanBetween(rets, MinOf(rets), MaxOf(rets));
  }

  /** The statistics the report holds for a reported horizon, and the average
      return of a run is above -100 percent. */
  lemma ReportAverages(rows: seq<Row>, env: Env, report: BacktestReport, h: Horizon)
    requires Trades(rows, env).Ok?
    requires ReportSpec(|rows|, Trades(rows, env).value, report)
    requires report.AvgReturnAt(h).Some?
    ensures StatsSpec(ReturnsAt(Successful(report.trades), h), report.AvgReturnAt(h), report.WinRateAt(h))
    ensures report.AvgReturnAt(h).value > -100.0
  {
    var succ := Successful(report.trades);
    var rets := ReturnsAt(succ, h);
    assert StatsSpec(rets, report.AvgReturnAt(h), report.WinRateAt(h)) by {
      match h
      case D7 =>
      case D30 =>
      case D90 =>
    }
    TradesReturnsAboveMinus100(rows, env);
    forall i | 0 <= i < |rets|
      ensures rets[i] > -100.0
    {
      assert rets[i] in rets;
    }
    MeanAbove(rets, -100.0);
  }

  /** `best_performer` as written never lands on a trade without a 30-day
      return when every 30-day return is above the -999 stand-in: it is then
      the trade with the largest 30-day return. */
  lemma BestPerformerHasReturn(succ: seq<SignalResult>)
    requires Has30d(succ)
    requires forall j :: 0 <= j < |succ| && succ[j].return30d.Some? ==> succ[j].return30d.value > -999.0
    ensures BestPerformer(succ).return30d.Some?
    ensures forall k :: 0 <= k < |succ| && succ[k].return30d.Some? ==> succ[k].return30d.value <= BestPerformer(succ).return30d.value
  {
    var j :| 0 <= j < |succ| && succ[j].return30d.Some?;
    var i := FirstMaxIndex(succ, BestKey);
    assert BestKey(succ[j]) <= BestKey(succ[i]);
    assert succ[i].return30d.Some?;
    forall k | 0 <= k < |succ| && succ[k].return30d.Some?
      ensures succ[k].return30d.value <= succ[i].return30d.value
    {
      assert BestKey(succ[k]) <= BestKey(succ[i]);
    }
  }

  /** Finding: `worst_performer` as written is a Success trade without a 30-day
      return whenever every 30-day return is 999 or more.  Here trade A has no
      30-day return and trade B gained 1500 percent. */
  lemma WorstPerformerAsWrittenPicksMissing()
    ensures var a := NewSignalResult("A.NS", Day(0), 1.0, Success);
      var b := NewSignalResult("B.NS", Day(0), 1.0, Success).(return30d := Some(1500.0), exitPrice30d := Some(16.0));
      && WorstPerformerAsWritten([a, b]) == a && a.return30d.None?
      && WorstPerformer([a, b]) == b
  {
    var a := NewSignalResult("A.NS", Day(0), 1.0, Success);
    var b := NewSignalResult("B.NS", Day(0), 1.0, Success).(return30d := Some(1500.0), exitPrice30d := Some(16.0));
    var succ := [a, b];
    assert WorstKey(a) == 999.0 && WorstKey(b) == 1500.0;
    assert succ[..1] == [a];
    assert FirstMinIndex(succ, WorstKey) == 0;
    assert succ[1].return30d.Some?;
    assert !Has30d(succ[..1]);
    assert FirstMin30Index(succ) == 1;
  }

  /** The two agree when every 30-day return is below the 999 stand-in. */
  lemma WorstPerformersAgree(succ: seq<SignalResult>)
    requires Has30d(succ)
    requires forall j :: 0 <= j < |succ| && succ[j].return30d.Some? ==> succ[j].return30d.value < 999.0
    ensures WorstPerformerAsWritten(succ) == WorstPerformer(succ)
  {
    var i := FirstMinIndex(succ, WorstKey);
    var k := FirstMin30Index(succ);
    assert WorstKey(succ[i]) <= WorstKey(succ[k]);
    assert succ[i].return30d.Some?;
    assert succ[k].return30d.value <= succ[i].return30d.value;
    assert !(i < k);
    assert !(k < i);
  }

  /** The best performer of a run's records, in terms of the records. */
  lemma RunBest(trades: seq<SignalResult>)
    requires Has30d(Successful(trades))
    requires forall t :: t in trades && t.return30d.Some? ==> t.return30d.value > -999.0
    ensures var b := BestPerformer(Successful(trades));
      && b in trades && b.status == Success && b.return30d.Some?
      && forall t :: t in trades && t.status == Success && t.return30d.Some? ==> t.return30d.value <= b.return30d.value
  {
    var succ := Successful(trades);
    forall j | 0 <= j < |succ| && succ[j].return30d.Some?
      ensures succ[j].return30d.value > -999.0
    {
      assert succ[j] in succ;
    }
    BestPerformerHasReturn(succ);
    var b := BestPerformer(succ);
    assert b in succ;
    forall t | t in trades && t.status == Success && t.return30d.Some?
      ensures t.return30d.value <= b.return30d.value
    {
      assert t in succ;
      var k :| 0 <= k < |succ| && succ[k] == t;
    }
  }

  /** The worst performer of a run's records, in terms of the records: a
      Success record with the smallest 999-keyed return, and the corrected
      worst performer when every 30-day return is below 999. */
  lemma RunWorst(trades: seq<SignalResult>)
    requires Has30d(Successful(trades))
    ensures var w := WorstPerformerAsWritten(Successful(trades));
      && w in trades && w.status == Success
      && (forall t :: t in trades && t.status == Success ==> WorstKey(w) <= WorstKey(t))
      && ((forall t :: t in trades && t.status == Success && t.return30d.Some? ==> t.return30d.value < 999.0) ==>
            w == WorstPerformer(Successful(trades)))
  {
    var succ := Successful(trades);
    var w := WorstPerformerAsWritten(succ);
    var i := FirstMinIndex(succ, WorstKey);
    assert w == succ[i] && w in succ;
    forall t | t in trades && t.status == Success
      ensures WorstKey(w) <= WorstKey(t)
    {
      assert t in succ;
      var k :| 0 <= k < |succ| && succ[k] == t;
    }
    if forall t :: t in trades && t.status == Success && t.return30d.Some? ==> t.return30d.value < 999.0 {
      forall j | 0 <= j < |succ| && succ[j].return30d.Some?
        ensures succ[j].return30d.value < 999.0
      {
        assert succ[j] in succ;
      }
      WorstPerformersAgree(succ);
    }
  }

  /** The report's best and worst performer are Success records of the run,
      present exactly when some Success record has a 30-day return.  The best
      one has the largest 30-day return.  The worst one has the smallest
      return with a missing one counted as 999, so it is the one with the
      smallest 30-day return when every 30-day return is below 999. */
  lemma ReportPerformers(rows: seq<Row>, env: Env, report: BacktestReport)
    requires Trades(rows, env).Ok?
    requires ReportSpec(|rows|, Trades(rows, env).value, report)
    ensures var succ := Successful(report.trades);
      && (report.bestPerformer.Some? <==> Has30d(succ))
      && (report.worstPerformer.Some? <==> Has30d(succ))
    ensures report.bestPerformer.Some? ==>
      var b := report.bestPerformer.value;
      && b in report.trades && b.status == Success && b.return30d.Some?
      && forall t :: t in report.trades && t.status == Success && t.return30d.Some? ==> t.return30d.value <= b.return30d.value
    ensures report.worstPerformer.Some? ==>
      var w := report.worstPerformer.value;
      && w in report.trades && w.status == Success
      && forall t :: t in report.trades && t.status == Success ==> WorstKey(w) <= WorstKey(t)
    ensures (&& report.worstPerformer.Some?
             && forall t :: t in report.trades && t.status == Success && t.return30d.Some? ==> t.return30d.value < 999.0) ==>
      var w := report.worstPerformer.value;
      && w.return30d.Some?
      && forall t :: t in report.trades && t.status == Success && t.return30d.Some? ==> w.return30d.value <= t.return30d.value
  {
    var succ := Successful(report.trades);
    if Has30d(succ) {
      TradesReturnsAboveMinus100(rows, env);
      forall t | t in report.trades && t.return30d.Some?
        ensures t.return30d.value > -999.0
      {
        assert t.ReturnAt(D30) == t.return30d;
      }
      RunBest(report.trades);
      RunWorst(report.trades);
    }
  }
}
