/** Trading-day lookup and date parsing.  Days are day numbers (consecutive
    integers for consecutive calendar days); the set of trading days is the
    index of a price table. */
module DateUtils {
  import opened Wrappers

  /** The first of the days date, date + 1, ..., date + k that is a trading
      day, if any.  This is the specification of GetNextTradingDay. */
  function FirstTradingDay(date: int, index: set<int>, k: nat): (r: Option<int>)
    ensures date in index ==> r == Some(date)
    ensures r.Some? ==> date <= r.value <= date + k && r.value in index
    ensures r.Some? ==> forall j :: date <= j < r.value ==> j !in index
    ensures r.None? <==> forall j :: date <= j <= date + k ==> j !in index
    decreases k
  {
    if date in index then Some(date)
    else if k == 0 then None
    else FirstTradingDay(date + 1, index, k - 1)
  }

  /** `get_next_trading_day(date, data, max_lookahead=5)`: scans the offsets
      0 .. max_lookahead in order and returns the first day in the index. */
  method GetNextTradingDay(date: int, index: set<int>, maxLookahead: nat := 5) returns (r: Option<int>)
    ensures r == FirstTradingDay(date, index, maxLookahead)
  {
    for i := 0 to maxLookahead + 1
      invariant forall j :: date <= j < date + i ==> j !in index
    {
      var target := date + i;
      if target in index {
        return Some(target);
      }
    }
    return None;
  }

  /** The seven `strptime` formats `parse_date` tries. */
  datatype DateFormat = YmdDash | DmyDash | DmySlash | MdySlash | YmdSlash | DbyShortYear | DbyLongYear {
    function Pattern(): string {
      match this
      case YmdDash => "%Y-%m-%d"
      case DmyDash => "%d-%m-%Y"
      case DmySlash => "%d/%m/%Y"
      case MdySlash => "%m/%d/%Y"
      case YmdSlash => "%Y/%m/%d"
      case DbyShortYear => "%d-%b-%y"
      case DbyLongYear => "%d-%b-%Y"
    }
  }

  /** The order in which `parse_date` tries the formats. */
  const Formats: seq<DateFormat> := [YmdDash, DmyDash, DmySlash, MdySlash, YmdSlash, DbyShortYear, DbyLongYear]

  /** A strptime-like parser: the day a string denotes under one format, or None
      where `datetime.strptime` raises ValueError. */
  type Strptime = (string, DateFormat) -> Option<int>

  /** The result of the first format in fmts that parses s.  This is the
      specification of ParseDate. */
  function FirstParse(s: string, fmts: seq<DateFormat>, strptime: Strptime): (r: Option<int>)
    ensures r.Some? <==> exists i :: 0 <= i < |fmts| && strptime(s, fmts[i]).Some?
    ensures r.Some? ==>
      exists i :: 0 <= i < |fmts| && strptime(s, fmts[i]) == r && (forall j :: 0 <= j < i ==> strptime(s, fmts[j]).None?)
  {
    if fmts == [] then None
    else if strptime(s, fmts[0]).Some? then strptime(s, fmts[0])
    else
      var rest := FirstParse(s, fmts[1..], strptime);
      assert forall i :: 1 <= i < |fmts| ==> fmts[i] == fmts[1..][i - 1];
      rest
  }

  function ParseErrorMessage(s: string): string {
    "Could not parse date: " + s
  }

  /** `parse_date(date_str)`: tries the formats in order and returns the first
      successful parse; raises ValueError (here Err) when none parses. */
  method ParseDate(s: string, strptime: Strptime) returns (r: Result<int, string>)
    ensures r.Ok? <==> FirstParse(s, Formats, strptime).Some?
    ensures r.Ok? ==> r.value == FirstParse(s, Formats, strptime).value
    ensures r.Err? ==> r.error == ParseErrorMessage(s)
  {
    for k := 0 to |Formats|
      invariant forall j :: 0 <= j < k ==> strptime(s, Formats[j]).None?
    {
      var parsed := strptime(s, Formats[k]);
      if parsed.Some? {
        FirstParseIsFirst(s, Formats, strptime, k);
        return Ok(parsed.value);
      }
    }
    return Err(ParseErrorMessage(s));
  }

  /** When format k is the first that parses, FirstParse returns its result. */
  lemma {:induction false} FirstParseIsFirst(s: string, fmts: seq<DateFormat>, strptime: Strptime, k: nat)
    requires k < |fmts| && strptime(s, fmts[k]).Some?
    requires forall j :: 0 <= j < k ==> strptime(s, fmts[j]).None?
    ensures FirstParse(s, fmts, strptime) == strptime(s, fmts[k])
  {
    if k > 0 {
      assert strptime(s, fmts[0]).None?;
      FirstParseIsFirst(s, fmts[1..], strptime, k - 1);
    }
  }
}
