/** The record shapes of the backtest API: one `SignalResult` per processed input
    row and one `BacktestReport` per run.  Every optional field of the source
    (`Optional[...] = None`) is an `Option`, and the two constructor functions
    below play the part of the pydantic constructors, filling in the `None`
    defaults. */
module Schemas {
  import opened Wrappers

  /** The six forward horizons a Success record carries, in the order the
      backtester visits them. */
  datatype Horizon = D7 | D14 | D30 | D45 | D60 | D90 {
    function Days(): (n: nat)
      ensures 7 <= n <= 90
    {
      match this
      case D7 => 7
      case D14 => 14
      case D30 => 30
      case D45 => 45
      case D60 => 60
      case D90 => 90
    }
  }

  const Horizons: seq<Horizon> := [D7, D14, D30, D45, D60, D90]

  /** The position of a horizon in Horizons. */
  function HorizonIndex(h: Horizon): (i: nat)
    ensures i < |Horizons| && Horizons[i] == h
  {
    match h
    case D7 => 0
    case D14 => 1
    case D30 => 2
    case D45 => 3
    case D60 => 4
    case D90 => 5
  }

  /** The horizons the report aggregates and the dashboard shows: 7, 30 and 90 days. */
  predicate Reported(h: Horizon) {
    h == D7 || h == D30 || h == D90
  }

  /** The `status` string of a record.  Label() is the text the source writes. */
  datatype Status = Success | SymbolNotFound | InvalidDate | NoData | NoEntryData {
    function Label(): string {
      match this
      case Success => "Success"
      case SymbolNotFound => "Symbol Not Found"
      case InvalidDate => "Invalid Date"
      case NoData => "No Data"
      case NoEntryData => "No Entry Data"
    }
  }

  /** `signal_date`: a failure record keeps the raw input text, a Success record
      holds the resolved entry trading day (a day number; the source formats it
      as "%Y-%m-%d"). */
  datatype DateText = Text(text: string) | Day(day: int)

  datatype SignalResult = SignalResult(
    symbol: string,
    signalDate: DateText,
    entryPrice: real,
    return7d: Option<real>, exitPrice7d: Option<real>,
    return14d: Option<real>, exitPrice14d: Option<real>,
    return30d: Option<real>, exitPrice30d: Option<real>,
    return45d: Option<real>, exitPrice45d: Option<real>,
    return60d: Option<real>, exitPrice60d: Option<real>,
    return90d: Option<real>, exitPrice90d: Option<real>,
    maxHigh90d: Option<real>, maxHighDate: Option<int>,
    maxLow90d: Option<real>, maxLowDate: Option<int>,
    sector: Option<string>, marketCap: Option<string>,
    status: Status)
  {
    /** The field `return_{h}d`. */
    function ReturnAt(h: Horizon): Option<real> {
      match h
      case D7 => return7d
      case D14 => return14d
      case D30 => return30d
      case D45 => return45d
      case D60 => return60d
      case D90 => return90d
    }

    /** The field `exit_price_{h}d`. */
    function ExitPriceAt(h: Horizon): Option<real> {
      match h
      case D7 => exitPrice7d
      case D14 => exitPrice14d
      case D30 => exitPrice30d
      case D45 => exitPrice45d
      case D60 => exitPrice60d
      case D90 => exitPrice90d
    }

    /** The two `setattr` calls for horizon h: both fields of h are set and
        every other field keeps its value. */
    function WithHorizon(h: Horizon, ret: real, exit: real): (r: SignalResult)
      ensures r.ReturnAt(h) == Some(ret) && r.ExitPriceAt(h) == Some(exit)
      ensures forall g :: g != h ==> r.ReturnAt(g) == ReturnAt(g) && r.ExitPriceAt(g) == ExitPriceAt(g)
      ensures r.symbol == symbol && r.signalDate == signalDate && r.entryPrice == entryPrice
      ensures r.status == status && r.maxHigh90d == maxHigh90d && r.maxHighDate == maxHighDate
      ensures r.maxLow90d == maxLow90d && r.maxLowDate == maxLowDate
      ensures r.sector == sector && r.marketCap == marketCap
    {
      match h
      case D7 => this.(return7d := Some(ret), exitPrice7d := Some(exit))
      case D14 => this.(return14d := Some(ret), exitPrice14d := Some(exit))
      case D30 => this.(return30d := Some(ret), exitPrice30d := Some(exit))
      case D45 => this.(return45d := Some(ret), exitPrice45d := Some(exit))
      case D60 => this.(return60d := Some(ret), exitPrice60d := Some(exit))
      case D90 => this.(return90d := Some(ret), exitPrice90d := Some(exit))
    }

    /** No price field beyond entry_price is set. */
    predicate NoPrices() {
      && (forall h: Horizon :: ReturnAt(h).None? && ExitPriceAt(h).None?)
      && maxHigh90d.None? && maxHighDate.None? && maxLow90d.None? && maxLowDate.None?
    }
  }

  /** `SignalResult(symbol=..., signal_date=..., entry_price=..., status=...)`:
      the four required fields as given, every optional field `None`. */
  function NewSignalResult(symbol: string, signalDate: DateText, entryPrice: real, status: Status): (r: SignalResult)
    ensures r.symbol == symbol && r.signalDate == signalDate
    ensures r.entryPrice == entryPrice && r.status == status
    ensures r.NoPrices() && r.sector.None? && r.marketCap.None?
  {
    SignalResult(symbol, signalDate, entryPrice,
      None, None, None, None, None, None, None, None, None, None, None, None,
      None, None, None, None, None, None, status)
  }

  datatype BacktestReport = BacktestReport(
    totalSignals: int,
    successfulSignals: int,
    failedSignals: int,
    avgReturn7d: Option<real>, winRate7d: Option<real>,
    avgReturn30d: Option<real>, winRate30d: Option<real>,
    avgReturn90d: Option<real>, winRate90d: Option<real>,
    bestPerformer: Option<SignalResult>,
    worstPerformer: Option<SignalResult>,
    trades: seq<SignalResult>)
  {
    /** The field `avg_return_{h}d` (None for a horizon the report does not aggregate). */
    function AvgReturnAt(h: Horizon): Option<real> {
      match h
      case D7 => avgReturn7d
      case D30 => avgReturn30d
      case D90 => avgReturn90d
      case _ => None
    }

    /** The field `win_rate_{h}d` (None for a horizon the report does not aggregate). */
    function WinRateAt(h: Horizon): Option<real> {
      match h
      case D7 => winRate7d
      case D30 => winRate30d
      case D90 => winRate90d
      case _ => None
    }
  }

  /** `BacktestReport(total_signals=..., successful_signals=..., failed_signals=...,
      trades=...)`: the required fields as given, every statistic `None`. */
  function NewReport(total: int, successful: int, failed: int, trades: seq<SignalResult>): (r: BacktestReport)
    ensures r.totalSignals == total && r.successfulSignals == successful
    ensures r.failedSignals == failed && r.trades == trades
    ensures r.avgReturn7d.None? && r.winRate7d.None? && r.avgReturn30d.None? && r.winRate30d.None?
    ensures r.avgReturn90d.None? && r.winRate90d.None?
    ensures r.bestPerformer.None? && r.worstPerformer.None?
  {
    BacktestReport(total, successful, failed, None, None, None, None, None, None, None, None, trades)
  }
}
