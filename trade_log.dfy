/** The trade log of the report dashboard: the Success trades filtered by a
    case-insensitive symbol search, sorted by the column whose header was
    clicked, and cut into pages; and the component state (search text, sort
    column and direction, page, page size, capital) that the header clicks,
    the search box, the selects and the page buttons update. */
module TradeLog {
  import opened Wrappers
  import opened Schemas
  import opened JsArray
  import Backtester
  import Dashboard

  // ---------------------------------------------------------------------------
  // Search

  /** `toLowerCase` on one character, for the ASCII letters the symbols use. */
  function LowerChar(c: char): char {
    if 'A' <= c <= 'Z' then (c as int + 32) as char else c
  }

  function Lower(s: string): (r: string)
    ensures |r| == |s|
    ensures forall i :: 0 <= i < |s| ==> r[i] == LowerChar(s[i])
  {
    seq(|s|, i requires 0 <= i < |s| => LowerChar(s[i]))
  }

  /** Lowering twice is lowering once. */
  lemma LowerIdempotent(s: string)
    ensures Lower(Lower(s)) == Lower(s)
  {
    assert forall i :: 0 <= i < |s| ==> LowerChar(LowerChar(s[i])) == LowerChar(s[i]);
  }

  /** `sub` occurs in s starting at i. */
  predicate OccursAt(s: string, sub: string, i: nat) {
    i + |sub| <= |s| && s[i..i + |sub|] == sub
  }

  /** `s.includes(sub)` */
  function Includes(s: string, sub: string): (b: bool)
    ensures b <==> exists i: nat :: OccursAt(s, sub, i)
    decreases |s|
  {
    if |sub| > |s| then false
    else if s[..|sub|] == sub then (assert OccursAt(s, sub, 0); true)
    else
      var b := Includes(s[1..], sub);
      IncludesShift(s, sub);
      b
  }

  /** An occurrence past the first position is an occurrence in the tail. */
  lemma IncludesShift(s: string, sub: string)
    requires |sub| <= |s| && s[..|sub|] != sub
    ensures (exists i: nat :: OccursAt(s, sub, i)) <==> (exists i: nat :: OccursAt(s[1..], sub, i))
  {
    if exists i: nat :: OccursAt(s, sub, i) {
      var i: nat :| OccursAt(s, sub, i);
      assert i != 0;
      assert s[1..][i - 1..i - 1 + |sub|] == s[i..i + |sub|];
      assert OccursAt(s[1..], sub, i - 1);
    }
    if exists i: nat :: OccursAt(s[1..], sub, i) {
      var i: nat :| OccursAt(s[1..], sub, i);
      assert s[1..][i..i + |sub|] == s[i + 1..i + 1 + |sub|];
      assert OccursAt(s, sub, i + 1);
    }
  }

  /** The search box keeps a trade whose lower-cased symbol contains the
      lower-cased search text. */
  predicate Matches(t: SignalResult, term: string) {
    Includes(Lower(t.symbol), Lower(term))
  }

  function Matcher(term: string): SignalResult -> bool {
    t => Matches(t, term)
  }

  /** `filteredTrades` */
  function FilteredTrades(trades: seq<SignalResult>, term: string): seq<SignalResult> {
    Filter(trades, Matcher(term))
  }

  /** The search keeps exactly the matching trades, in order: filtering a
      concatenation concatenates the filtered parts. */
  lemma FilterFacts(a: seq<SignalResult>, b: seq<SignalResult>, term: string)
    ensures forall t :: t in FilteredTrades(a, term) <==> t in a && Matches(t, term)
    ensures FilteredTrades(a + b, term) == FilteredTrades(a, term) + FilteredTrades(b, term)
  {
    FilterMembers(a, Matcher(term));
    FilterAppend(a, b, Matcher(term));
  }

  /** An empty search keeps every trade. */
  lemma {:induction false} FilterEmptyTerm(trades: seq<SignalResult>)
    ensures FilteredTrades(trades, "") == trades
    decreases |trades|
  {
    if trades != [] {
      var t := trades[|trades| - 1];
      assert OccursAt(Lower(t.symbol), Lower(""), 0);
      assert Matcher("")(t);
      FilterEmptyTerm(trades[..|trades| - 1]);
    }
  }

  /** The search ignores the case of the search text. */
  lemma {:induction false} FilterIgnoresCase(trades: seq<SignalResult>, term: string)
    ensures FilteredTrades(trades, term) == FilteredTrades(trades, Lower(term))
    decreases |trades|
  {
    LowerIdempotent(term);
    assert forall t :: Matcher(term)(t) == Matcher(Lower(term))(t);
    if trades != [] {
      FilterIgnoresCase(trades[..|trades| - 1], term);
    }
  }

  // ---------------------------------------------------------------------------
  // Sorting

  /** The columns whose header sorts the log. */
  datatype SortKey = Symbol | SignalDate | EntryPrice | Return7d | Return30d | Return90d | MaxHigh | MaxLow

  datatype Direction = Asc | Desc

  datatype SortConfig = SortConfig(key: SortKey, direction: Direction)

  /** The order the log opens with: 1-month return, descending. */
  const InitialSort := SortConfig(Return30d, Desc)

  /** `handleSort(key)` */
  function ToggleSort(prev: SortConfig, key: SortKey): SortConfig {
    SortConfig(key, if prev.key == key && prev.direction == Asc then Desc else Asc)
  }

  /** A header click sorts by that column; a new column starts ascending and
      the same column flips between ascending and descending, so two clicks on
      the current column restore it and two on another leave it descending. */
  lemma ToggleSortFacts(prev: SortConfig, key: SortKey)
    ensures ToggleSort(prev, key).key == key
    ensures prev.key != key ==> ToggleSort(prev, key).direction == Asc
    ensures prev.key == key ==> ToggleSort(prev, key).direction != prev.direction
    ensures ToggleSort(ToggleSort(prev, key), key) == if prev.key == key then prev else SortConfig(key, Desc)
  {
  }

  /** The value a comparator operand becomes: a number or an infinity
      (`?? -Infinity` turns null into -Infinity), or NaN. */
  datatype Cell = Num(v: Ext) | NaN

  function OrNegInf(o: Option<real>): Ext {
    match o
    case Some(x) => Fin(x)
    case None => NegInf
  }

  /** `a[sortConfig.key]` as the comparator subtracts it.  A symbol minus a
      symbol is NaN; a signal date becomes its timestamp, which orders as the
      day number, and an unparsable one is NaN. */
  function CellValue(t: SignalResult, key: SortKey): Cell {
    match key
    case Symbol => NaN
    case SignalDate => (match t.signalDate case Day(d) => Num(Fin(d as real)) case Text(_) => NaN)
    case EntryPrice => Num(Fin(t.entryPrice))
    case Return7d => Num(OrNegInf(t.return7d))
    case Return30d => Num(OrNegInf(t.return30d))
    case Return90d => Num(OrNegInf(t.return90d))
    case MaxHigh => Num(OrNegInf(t.maxHigh90d))
    case MaxLow => Num(OrNegInf(t.maxLow90d))
  }

  /** The comparator of `sortedTrades` on two numeric cells: the sign of
      `aVal - bVal` ascending and of `bVal - aVal` descending. */
  function Comparator(cfg: SortConfig, a: SignalResult, b: SignalResult): int
    requires CellValue(a, cfg.key).Num? && CellValue(b, cfg.key).Num?
  {
    var x, y := CellValue(a, cfg.key).v, CellValue(b, cfg.key).v;
    if cfg.direction == Asc then SubSign(x, y) else SubSign(y, x)
  }

  /** The rank the stable sort orders by. */
  function RankOf(cfg: SortConfig, t: SignalResult): Ext {
    match CellValue(t, cfg.key)
    case Num(v) => if cfg.direction == Asc then v else Neg(v)
    case NaN => Fin(0.0)
  }

  function SortRank(cfg: SortConfig): SignalResult -> Ext {
    t => RankOf(cfg, t)
  }

  /** The comparator agrees with the rank: negative, zero or positive exactly
      when the first rank is below, equal to or above the second.  Sorting by
      the rank is therefore sorting with the comparator. */
  lemma ComparatorAgreesWithRank(cfg: SortConfig, a: SignalResult, b: SignalResult)
    requires CellValue(a, cfg.key).Num? && CellValue(b, cfg.key).Num?
    ensures Comparator(cfg, a, b) < 0 <==> Lt(RankOf(cfg, a), RankOf(cfg, b))
    ensures Comparator(cfg, a, b) == 0 <==> RankOf(cfg, a) == RankOf(cfg, b)
    ensures Comparator(cfg, a, b) > 0 <==> Lt(RankOf(cfg, b), RankOf(cfg, a))
  {
    var x, y := CellValue(a, cfg.key).v, CellValue(b, cfg.key).v;
    NegReverses(x, y);
    NegReverses(y, x);
  }

  /** Every comparison SortCompare makes gives the same answer as the rank:
      either every cell is a number (null being -Infinity, and two nulls
      giving NaN, read as +0), or every cell is NaN, so every comparison is
      +0.  Only a column that mixes numbers and NaN (a date that does not
      parse beside one that does) is left out. */
  predicate Orderable(trades: seq<SignalResult>, key: SortKey) {
    || (forall i :: 0 <= i < |trades| ==> CellValue(trades[i], key).Num?)
    || (forall i :: 0 <= i < |trades| ==> CellValue(trades[i], key).NaN?)
  }

  /** `sortedTrades`: a copy of the filtered trades, sorted in place.  When all
      comparisons agree with the rank the result is the stable sort by it;
      otherwise the order is the engine's, so only the contents are
      promised. */
  method SortedTrades(filtered: seq<SignalResult>, cfg: SortConfig) returns (sorted: seq<SignalResult>)
    ensures multiset(sorted) == multiset(filtered)
    ensures Orderable(filtered, cfg.key) ==> sorted == StableSort(filtered, SortRank(cfg))
  {
    if Orderable(filtered, cfg.key) {
      var a := new SignalResult[|filtered|](i requires 0 <= i < |filtered| => filtered[i]);
      assert a[..] == filtered;
      SortInPlace(a, SortRank(cfg));
      sorted := a[..];
      StableSortPermutes(filtered, SortRank(cfg));
    } else {
      sorted := filtered;
    }
  }

  /** Sorting by symbol keeps the filtered order: every comparison is NaN,
      read as +0, and the sort is stable. */
  lemma SymbolSortKeepsOrder(filtered: seq<SignalResult>, dir: Direction)
    ensures Orderable(filtered, Symbol)
    ensures StableSort(filtered, SortRank(SortConfig(Symbol, dir))) == filtered
  {
    var rank := SortRank(SortConfig(Symbol, dir));
    forall i | 0 <= i < |filtered|
      ensures rank(filtered[i]) == Fin(0.0)
    {
    }
    StableSortEqualRanks(filtered, rank, Fin(0.0));
  }

  /** A column that can be null. */
  predicate Nullable(key: SortKey) {
    key in {Return7d, Return30d, Return90d, MaxHigh, MaxLow}
  }

  /** The trade has null in that column. */
  predicate IsNull(t: SignalResult, key: SortKey) {
    CellValue(t, key) == Num(NegInf)
  }

  /** Two trades in rank order, in a nullable column. */
  lemma NullPair(cfg: SortConfig, x: SignalResult, y: SignalResult)
    requires Nullable(cfg.key) && Le(RankOf(cfg, x), RankOf(cfg, y))
    ensures cfg.direction == Asc && IsNull(y, cfg.key) ==> IsNull(x, cfg.key)
    ensures cfg.direction == Desc && IsNull(x, cfg.key) ==> IsNull(y, cfg.key)
    ensures !IsNull(x, cfg.key) && !IsNull(y, cfg.key) ==>
      if cfg.direction == Asc then Le(CellValue(x, cfg.key).v, CellValue(y, cfg.key).v)
      else Le(CellValue(y, cfg.key).v, CellValue(x, cfg.key).v)
  {
    NegReverses(CellValue(x, cfg.key).v, CellValue(y, cfg.key).v);
  }

  /** Nulls sort as -Infinity: all of them come first when ascending and last
      when descending, and the trades with a value are in order of it. */
  lemma NullPlacement(filtered: seq<SignalResult>, cfg: SortConfig)
    requires Nullable(cfg.key)
    ensures var s := StableSort(filtered, SortRank(cfg));
      forall i, j :: 0 <= i < j < |s| ==>
        && (cfg.direction == Asc && IsNull(s[j], cfg.key) ==> IsNull(s[i], cfg.key))
        && (cfg.direction == Desc && IsNull(s[i], cfg.key) ==> IsNull(s[j], cfg.key))
        && (!IsNull(s[i], cfg.key) && !IsNull(s[j], cfg.key) ==>
              if cfg.direction == Asc then Le(CellValue(s[i], cfg.key).v, CellValue(s[j], cfg.key).v)
              else Le(CellValue(s[j], cfg.key).v, CellValue(s[i], cfg.key).v))
  {
    var s := StableSort(filtered, SortRank(cfg));
    StableSortSorted(filtered, SortRank(cfg));
    forall i, j | 0 <= i < j < |s|
      ensures cfg.direction == Asc && IsNull(s[j], cfg.key) ==> IsNull(s[i], cfg.key)
      ensures cfg.direction == Desc && IsNull(s[i], cfg.key) ==> IsNull(s[j], cfg.key)
      ensures !IsNull(s[i], cfg.key) && !IsNull(s[j], cfg.key) ==>
              if cfg.direction == Asc then Le(CellValue(s[i], cfg.key).v, CellValue(s[j], cfg.key).v)
              else Le(CellValue(s[j], cfg.key).v, CellValue(s[i], cfg.key).v)
    {
      assert SortRank(cfg)(s[i]) == RankOf(cfg, s[i]) && SortRank(cfg)(s[j]) == RankOf(cfg, s[j]);
      NullPair(cfg, s[i], s[j]);
    }
  }

  // ---------------------------------------------------------------------------
  // Pages

  /** `Math.ceil(n / size)` */
  function TotalPages(n: nat, size: nat): (p: nat)
    requires size > 0
    ensures n <= p * size
    ensures p > 0 ==> (p - 1) * size < n
  {
    (n + size - 1) / size
  }

  /** `sortedTrades.slice(start, start + itemsPerPage)` with
      `start = (currentPage - 1) * itemsPerPage` */
  function Paginate<T>(sorted: seq<T>, page: int, size: nat): seq<T> {
    var start := (page - 1) * size;
    Slice(sorted, start, start + size)
  }

  /** A page from 1 on holds the next `size` trades from its start, fewer on
      the last page and none past it; page 0 is empty. */
  lemma PageFacts<T>(sorted: seq<T>, page: nat, size: nat)
    ensures |Paginate(sorted, page, size)| <= size
    ensures page == 0 ==> Paginate(sorted, page, size) == []
    ensures page >= 1 ==>
      var start := (page - 1) * size;
      && |Paginate(sorted, page, size)| == (if start + size <= |sorted| then size else if start < |sorted| then |sorted| - start else 0)
      && (forall k :: 0 <= k < |Paginate(sorted, page, size)| ==> Paginate(sorted, page, size)[k] == sorted[start + k])
  {
    var start := (page - 1) * size;
    if page == 0 {
      assert start == -(size as int);
    } else {
      var before: nat := page - 1;
      assert start == before * size;
      var from := RelativeIndex(start, |sorted|);
      var to := RelativeIndex(start + size, |sorted|);
      assert from == if start <= |sorted| then start else |sorted|;
      assert to == if start + size <= |sorted| then start + size else |sorted|;
    }
  }

  /** Multiplying by a size keeps the order. */
  lemma MulMonotone(a: nat, b: nat, size: nat)
    requires a <= b
    ensures a * size <= b * size
  {
    assert b * size == a * size + (b - a) * size;
  }

  /** A page has trades exactly when it is between 1 and the page count. */
  lemma PageNonEmpty<T>(sorted: seq<T>, page: nat, size: nat)
    requires size > 0
    ensures Paginate(sorted, page, size) != [] <==> 1 <= page <= TotalPages(|sorted|, size)
  {
    PageFacts(sorted, page, size);
    var tp := TotalPages(|sorted|, size);
    if page >= 1 {
      var start := (page - 1) * size;
      if page <= tp {
        MulMonotone(page - 1, tp - 1, size);
        assert start < |sorted|;
      } else {
        MulMonotone(tp, page - 1, size);
        assert start >= |sorted|;
      }
    }
  }

  /** One more page moves the end on by one page size. */
  lemma MulStep(k: nat, size: nat)
    requires k >= 1
    ensures (k - 1) * size + size == k * size
  {
  }

  /** Pages 1 to k one after the other. */
  function Pages<T>(sorted: seq<T>, size: nat, k: nat): seq<T> {
    if k == 0 then [] else Pages(sorted, size, k - 1) + Paginate(sorted, k, size)
  }

  /** Pages 1 to k are the first k * size trades. */
  lemma {:induction false} PagesArePrefix<T>(sorted: seq<T>, size: nat, k: nat)
    ensures Pages(sorted, size, k) == Slice(sorted, 0, k * size)
  {
    if k == 0 {
      assert Slice(sorted, 0, 0) == [];
    } else {
      PagesArePrefix(sorted, size, k - 1);
      var lo := (k - 1) * size;
      MulStep(k, size);
      assert Paginate(sorted, k, size) == Slice(sorted, lo, k * size);
      SliceAdjacent(sorted, 0, lo, k * size);
    }
  }

  /** Paging through every page shows each sorted trade once, in order. */
  lemma PagesCoverAll<T>(sorted: seq<T>, size: nat)
    requires size > 0
    ensures Pages(sorted, size, TotalPages(|sorted|, size)) == sorted
  {
    var tp := TotalPages(|sorted|, size);
    PagesArePrefix(sorted, size, tp);
    assert sorted[0..|sorted|] == sorted;
  }

  // ---------------------------------------------------------------------------
  // Component state

  /** The choices of the page-size select. */
  const PageSizes: seq<nat> := [10, 25, 50, 100]

  /** The choices of the capital select, in rupees. */
  const Capitals: seq<real> := [100000.0, 500000.0, 1000000.0, 5000000.0]

  /** The state of the dashboard component behind the trade log. */
  class DashboardState {
    const trades: seq<SignalResult>
    var searchTerm: string
    var sortConfig: SortConfig
    var currentPage: int
    var itemsPerPage: nat
    var capital: real

    /** The page size and capital are select choices and the page never goes
        below 0. */
    ghost predicate Valid()
      reads this
    {
      itemsPerPage in PageSizes && capital in Capitals && currentPage >= 0
    }

    /** The opening state. */
    constructor(reportTrades: seq<SignalResult>)
      ensures Valid()
      ensures trades == reportTrades
      ensures searchTerm == "" && sortConfig == InitialSort && currentPage == 1
      ensures itemsPerPage == 25 && capital == 100000.0
    {
      trades := reportTrades;
      searchTerm := "";
      sortConfig := InitialSort;
      currentPage := 1;
      itemsPerPage := 25;
      capital := 100000.0;
    }

    /** `successfulTrades`: the report's Success records, which every view
        of the page is computed from. */
    function SuccessfulTrades(): seq<SignalResult>
      reads this
    {
      Backtester.Successful(trades)
    }

    /** The trades the log shows before paging, in filter order. */
    function Filtered(): seq<SignalResult>
      reads this
    {
      FilteredTrades(SuccessfulTrades(), searchTerm)
    }

    /** `calculateStats(period)` with the capital the header selects. */
    function StatsAt(h: Horizon): Option<Dashboard.Stats>
      reads this
    {
      Dashboard.CalculateStats(SuccessfulTrades(), h, capital)
    }

    /** `getTopPerformers(period, count, type)` */
    function TopPerformersAt(h: Horizon, count: int, gainers: bool): seq<SignalResult>
      reads this
    {
      Dashboard.TopPerformers(SuccessfulTrades(), h, count, gainers)
    }

    /** `topStockByPeriod` */
    function TopStocks(): seq<Dashboard.TopStock>
      reads this
    {
      Dashboard.TopStockByPeriod(SuccessfulTrades())
    }

    /** `bestPeriodData`: the number of Success trades whose best horizon is
        1 Week, 1 Month and 3 Month. */
    method BestPeriods() returns (data: seq<Dashboard.PeriodCount>)
      ensures data == [Dashboard.PeriodCount("1 Week", Dashboard.CountBest(SuccessfulTrades(), D7)),
                       Dashboard.PeriodCount("1 Month", Dashboard.CountBest(SuccessfulTrades(), D30)),
                       Dashboard.PeriodCount("3 Month", Dashboard.CountBest(SuccessfulTrades(), D90))]
    {
      data := Dashboard.BestPeriodData(SuccessfulTrades());
    }

    /** `totalPages` */
    function PageCount(): nat
      reads this
      requires Valid()
    {
      TotalPages(|Filtered()|, itemsPerPage)
    }

    /** A header click. */
    method HandleSort(key: SortKey)
      requires Valid()
      modifies this
      ensures Valid()
      ensures sortConfig == ToggleSort(old(sortConfig), key)
      ensures searchTerm == old(searchTerm) && currentPage == old(currentPage)
      ensures itemsPerPage == old(itemsPerPage) && capital == old(capital)
    {
      sortConfig := ToggleSort(sortConfig, key);
    }

    /** Typing in the search box; the page is kept. */
    method SetSearchTerm(term: string)
      requires Valid()
      modifies this
      ensures Valid()
      ensures searchTerm == term
      ensures sortConfig == old(sortConfig) && currentPage == old(currentPage)
      ensures itemsPerPage == old(itemsPerPage) && capital == old(capital)
    {
      searchTerm := term;
    }

    /** Choosing a page size; the page is kept. */
    method SetItemsPerPage(size: nat)
      requires Valid() && size in PageSizes
      modifies this
      ensures Valid()
      ensures itemsPerPage == size
      ensures searchTerm == old(searchTerm) && sortConfig == old(sortConfig)
      ensures currentPage == old(currentPage) && capital == old(capital)
    {
      itemsPerPage := size;
    }

    /** Choosing a capital. */
    method SetCapital(amount: real)
      requires Valid() && amount in Capitals
      modifies this
      ensures Valid()
      ensures capital == amount
      ensures searchTerm == old(searchTerm) && sortConfig == old(sortConfig)
      ensures currentPage == old(currentPage) && itemsPerPage == old(itemsPerPage)
    {
      capital := amount;
    }

    /** The previous-page button, disabled on page 1: `max(1, p - 1)`. */
    method PrevPage()
      requires Valid() && currentPage != 1
      modifies this
      ensures Valid()
      ensures currentPage == if old(currentPage) - 1 < 1 then 1 else old(currentPage) - 1
      ensures currentPage >= 1
      ensures searchTerm == old(searchTerm) && sortConfig == old(sortConfig)
      ensures itemsPerPage == old(itemsPerPage) && capital == old(capital)
    {
      currentPage := if currentPage - 1 < 1 then 1 else currentPage - 1;
    }

    /** The next-page button, disabled on the last page: `min(totalPages, p + 1)`.
        With no trades there are no pages, and the button leads to page 0. */
    method NextPage()
      requires Valid() && currentPage != PageCount()
      modifies this
      ensures Valid()
      ensures var tp := old(PageCount());
        currentPage == if tp < old(currentPage) + 1 then tp else old(currentPage) + 1
      ensures currentPage <= PageCount()
      ensures searchTerm == old(searchTerm) && sortConfig == old(sortConfig)
      ensures itemsPerPage == old(itemsPerPage) && capital == old(capital)
    {
      var tp := PageCount();
      currentPage := if tp < currentPage + 1 then tp else currentPage + 1;
    }

    /** `paginatedTrades`: the current page of the sorted log. */
    method PaginatedTrades() returns (page: seq<SignalResult>, sorted: seq<SignalResult>)
      requires Valid()
      ensures multiset(sorted) == multiset(Filtered())
      ensures Orderable(Filtered(), sortConfig.key) ==> sorted == StableSort(Filtered(), SortRank(sortConfig))
      ensures page == Paginate(sorted, currentPage, itemsPerPage)
      ensures |page| <= itemsPerPage
      ensures page != [] <==> 1 <= currentPage <= PageCount()
    {
      sorted := SortedTrades(Filtered(), sortConfig);
      page := Paginate(sorted, currentPage, itemsPerPage);
      assert |sorted| == |multiset(sorted)|;
      PageNonEmpty(sorted, currentPage, itemsPerPage);
    }
  }
}
