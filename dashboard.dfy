/** The views the report dashboard derives from a report's trades: the
    per-horizon statistics table, the top gainers and losers, the count of
    trades whose best horizon is each horizon, the best stock of each horizon,
    and the trade log (search, sort, pages) with the component state behind
    it.  Only Success trades take part; the horizons shown are 7, 30 and 90
    days. */
module Dashboard {
  import opened Wrappers
  import opened Schemas
  import opened Numeric
  import opened JsArray
  import Backtester

  // ---------------------------------------------------------------------------
  // Per-horizon statistics

  /** `values.filter(v => v > 0)` */
  function Positives(xs: seq<real>): (r: seq<real>)
    ensures forall x :: x in r <==> x in xs && x > 0.0
    decreases |xs|
  {
    if xs == [] then []
    else
      var init := xs[..|xs| - 1];
      assert xs == init + [xs[|xs| - 1]];
      Positives(init) + (if xs[|xs| - 1] > 0.0 then [xs[|xs| - 1]] else [])
  }

  /** `values.filter(v => v < 0)` */
  function Negatives(xs: seq<real>): (r: seq<real>)
    ensures forall x :: x in r <==> x in xs && x < 0.0
    decreases |xs|
  {
    if xs == [] then []
    else
      var init := xs[..|xs| - 1];
      assert xs == init + [xs[|xs| - 1]];
      Negatives(init) + (if xs[|xs| - 1] < 0.0 then [xs[|xs| - 1]] else [])
  }

  /** Zeros are in neither partition, so the two counts add up to at most the
      number of values. */
  lemma {:induction false} PartitionCounts(xs: seq<real>)
    ensures |Positives(xs)| + |Negatives(xs)| <= |xs|
    ensures |Positives(xs)| + |Negatives(xs)| == |xs| <==> forall i :: 0 <= i < |xs| ==> xs[i] != 0.0
    decreases |xs|
  {
    if xs != [] {
      var init := xs[..|xs| - 1];
      PartitionCounts(init);
      if forall i :: 0 <= i < |init| ==> init[i] != 0.0 {
        assert forall i :: 0 <= i < |init| ==> xs[i] == init[i];
      }
    }
  }

  /** The sort value of a number. */
  function AsExt(x: real): Ext {
    Fin(x)
  }

  /** `[...xs].sort((a, b) => a - b)` */
  function SortNumbers(xs: seq<real>): seq<real> {
    StableSort(xs, AsExt)
  }

  /** `sorted.length % 2 === 0 ? (sorted[n/2 - 1] + sorted[n/2]) / 2 : sorted[floor(n/2)]` */
  function Median(sorted: seq<real>): real
    requires sorted != []
  {
    var n := |sorted|;
    if n % 2 == 0 then (sorted[n / 2 - 1] + sorted[n / 2]) / 2.0 else sorted[n / 2]
  }

  /** A partition's median: the upper-middle sorted element, or 0 when empty. */
  function UpperMiddle(sorted: seq<real>): real {
    if sorted == [] then 0.0 else sorted[|sorted| / 2]
  }

  /** A partition's average, or 0 when empty. */
  function MeanOrZero(xs: seq<real>): real {
    if xs == [] then 0.0 else Mean(xs)
  }

  /** One row of the statistics table. */
  datatype Stats = Stats(
    avg: real, median: real, highest: real, lowest: real,
    positiveCount: nat, negativeCount: nat,
    positiveMedian: real, positiveAvg: real,
    negativeMedian: real, negativeAvg: real,
    capitalReturn: real)

  /** `capital * (avg / 100)`: what the average return makes of the capital. */
  function CapitalReturn(capital: real, avg: real): real {
    capital * (avg / 100.0)
  }

  /** The row computed from the non-null returns of a horizon. */
  function StatsOf(values: seq<real>, capital: real): Stats
    requires values != []
  {
    var pos := Positives(values);
    var neg := Negatives(values);
    var avg := Mean(values);
    Stats(avg, Median(SortNumbers(values)), MaxOf(values), MinOf(values),
          |pos|, |neg|,
          UpperMiddle(SortNumbers(pos)), MeanOrZero(pos),
          UpperMiddle(SortNumbers(neg)), MeanOrZero(neg),
          CapitalReturn(capital, avg))
  }

  /** `calculateStats(period)` over the Success trades, with the capital the
      header selects: null when no trade has a return for the horizon. */
  function CalculateStats(succ: seq<SignalResult>, h: Horizon, capital: real): Option<Stats> {
    var values := Backtester.ReturnsAt(succ, h);
    if values == [] then None else Some(StatsOf(values, capital))
  }

  /** There are statistics exactly when some Success trade has a return for
      the horizon. */
  lemma StatsPresent(succ: seq<SignalResult>, h: Horizon, capital: real)
    ensures CalculateStats(succ, h, capital).Some? <==> exists j :: 0 <= j < |succ| && succ[j].ReturnAt(h).Some?
  {
    Backtester.ReturnsAtNonEmpty(succ, h);
  }

  /** The sorted copy holds the same values. */
  lemma SortedFromValues(xs: seq<real>)
    ensures |SortNumbers(xs)| == |xs|
    ensures forall i :: 0 <= i < |xs| ==> SortNumbers(xs)[i] in xs
  {
    StableSortPermutes(xs, AsExt);
    forall i | 0 <= i < |xs|
      ensures SortNumbers(xs)[i] in xs
    {
      assert SortNumbers(xs)[i] in multiset(SortNumbers(xs));
    }
  }

  /** The median splits the sorted values: the lower half is at most it and
      the upper half at least it. */
  lemma MedianSplits(xs: seq<real>)
    requires xs != []
    ensures var sorted := SortNumbers(xs);
      var n := |sorted|;
      && (forall i :: 0 <= i < (n + 1) / 2 ==> sorted[i] <= Median(sorted))
      && (forall i :: n / 2 <= i < n ==> Median(sorted) <= sorted[i])
  {
    StableSortSorted(xs, AsExt);
  }

  /** The median of the sorted values lies between their minimum and maximum. */
  lemma MedianBetween(xs: seq<real>)
    requires xs != []
    ensures MinOf(xs) <= Median(SortNumbers(xs)) <= MaxOf(xs)
  {
    var sorted := SortNumbers(xs);
    var n := |sorted|;
    SortedFromValues(xs);
    assert sorted[n / 2] in xs;
    if n % 2 == 0 {
      assert sorted[n / 2 - 1] in xs;
    }
  }

  /** The range of the row: lowest and highest are values and bound all of
      them, and the average and the median lie between the two. */
  lemma StatsRange(values: seq<real>, capital: real)
    requires values != []
    ensures var s := StatsOf(values, capital);
      && s.lowest in values && s.highest in values
      && (forall i :: 0 <= i < |values| ==> s.lowest <= values[i] <= s.highest)
      && s.lowest <= s.avg <= s.highest
      && s.lowest <= s.median <= s.highest
  {
    MeanBetween(values, MinOf(values), MaxOf(values));
    MedianBetween(values);
  }

  /** One side of the row: a nonempty partition's median is one of its values
      and its median and average have its sign; an empty one shows 0 for both. */
  lemma PartitionFacts(part: seq<real>, positive: bool)
    requires forall x :: x in part ==> if positive then x > 0.0 else x < 0.0
    ensures part != [] ==> UpperMiddle(SortNumbers(part)) in part
    ensures part != [] && positive ==> UpperMiddle(SortNumbers(part)) > 0.0 && MeanOrZero(part) > 0.0
    ensures part != [] && !positive ==> UpperMiddle(SortNumbers(part)) < 0.0 && MeanOrZero(part) < 0.0
    ensures part == [] ==> UpperMiddle(SortNumbers(part)) == 0.0 && MeanOrZero(part) == 0.0
  {
    SortedFromValues(part);
    if part != [] {
      assert SortNumbers(part)[|part| / 2] in part;
      forall i | 0 <= i < |part|
        ensures if positive then part[i] > 0.0 else part[i] < 0.0
      {
        assert part[i] in part;
      }
      if positive {
        MeanAbove(part, 0.0);
      } else {
        MeanBelow(part, 0.0);
      }
    }
  }

  /** The partitions of the row: the counts add up to at most the number of
      values, a nonempty side's median is one of the values, and each side's
      median and average have its sign (0 when the side is empty). */
  lemma StatsPartitions(values: seq<real>, capital: real)
    requires values != []
    ensures var s := StatsOf(values, capital);
      && s.positiveCount + s.negativeCount <= |values|
      && (s.positiveCount > 0 ==> s.positiveMedian > 0.0 && s.positiveAvg > 0.0 && s.positiveMedian in values)
      && (s.positiveCount == 0 ==> s.positiveMedian == 0.0 && s.positiveAvg == 0.0)
      && (s.negativeCount > 0 ==> s.negativeMedian < 0.0 && s.negativeAvg < 0.0 && s.negativeMedian in values)
      && (s.negativeCount == 0 ==> s.negativeMedian == 0.0 && s.negativeAvg == 0.0)
  {
    PartitionCounts(values);
    PartitionFacts(Positives(values), true);
    PartitionFacts(Negatives(values), false);
  }

  /** `capital * (avg / 100)` for a positive capital has the sign of the
      average return, and it is additive in the capital. */
  lemma CapitalReturnFacts(values: seq<real>, c1: real, c2: real)
    requires values != []
    ensures var s := StatsOf(values, c1);
      c1 > 0.0 ==> (s.capitalReturn > 0.0 <==> s.avg > 0.0) && (s.capitalReturn < 0.0 <==> s.avg < 0.0)
    ensures StatsOf(values, c1 + c2).capitalReturn == StatsOf(values, c1).capitalReturn + StatsOf(values, c2).capitalReturn
  {
    var a := Mean(values);
    CapitalReturnOf(values, c1);
    CapitalReturnOf(values, c2);
    CapitalReturnOf(values, c1 + c2);
    Scales(c1, c2, a);
  }

  /** The average and the capital return of StatsOf. */
  lemma CapitalReturnOf(values: seq<real>, c: real)
    requires values != []
    ensures StatsOf(values, c).avg == Mean(values)
    ensures StatsOf(values, c).capitalReturn == CapitalReturn(c, Mean(values))
  {
  }

  /** The arithmetic behind CapitalReturnFacts. */
  lemma Scales(c1: real, c2: real, a: real)
    ensures CapitalReturn(c1 + c2, a) == CapitalReturn(c1, a) + CapitalReturn(c2, a)
    ensures c1 > 0.0 ==> (CapitalReturn(c1, a) > 0.0 <==> a > 0.0) && (CapitalReturn(c1, a) < 0.0 <==> a < 0.0)
  {
    var q := a / 100.0;
    assert a == q * 100.0;
  }

  /** Changing the capital changes only the capital return. */
  lemma CapitalOnlyMovesReturn(values: seq<real>, c1: real, c2: real)
    requires values != []
    ensures StatsOf(values, c2).(capitalReturn := 0.0) == StatsOf(values, c1).(capitalReturn := 0.0)
  {
  }

  // ---------------------------------------------------------------------------
  // Top performers and top stock

  /** The sort value of a trade's return for h: the number, or -Infinity for
      null. */
  function ReturnValue(h: Horizon, t: SignalResult): Ext {
    match t.ReturnAt(h)
    case Some(x) => Fin(x)
    case None => NegInf
  }

  /** A return for h of the sign the list asks for. */
  predicate HasSignedReturn(t: SignalResult, h: Horizon, gainers: bool) {
    t.ReturnAt(h).Some? && (if gainers then t.ReturnAt(h).value > 0.0 else t.ReturnAt(h).value < 0.0)
  }

  /** The trades with a return for h that is positive (gainers) or negative
      (losers), in order. */
  function Signed(succ: seq<SignalResult>, h: Horizon, gainers: bool): (r: seq<SignalResult>)
    ensures forall t :: t in r <==> t in succ && HasSignedReturn(t, h, gainers)
    decreases |succ|
  {
    if succ == [] then []
    else
      var init := succ[..|succ| - 1];
      var t := succ[|succ| - 1];
      assert succ == init + [t];
      Signed(init, h, gainers) + (if HasSignedReturn(t, h, gainers) then [t] else [])
  }

  /** The key the comparator of `getTopPerformers` sorts by: `b - a` (largest
      return first) for gainers, `a - b` for losers. */
  function TopKey(h: Horizon, gainers: bool, t: SignalResult): Ext {
    if gainers then Neg(ReturnValue(h, t)) else ReturnValue(h, t)
  }

  function TopRank(h: Horizon, gainers: bool): SignalResult -> Ext {
    t => TopKey(h, gainers, t)
  }

  /** The signed trades, best first. */
  function TopSorted(succ: seq<SignalResult>, h: Horizon, gainers: bool): seq<SignalResult> {
    StableSort(Signed(succ, h, gainers), TopRank(h, gainers))
  }

  /** `getTopPerformers(period, count, type)` */
  function TopPerformers(succ: seq<SignalResult>, h: Horizon, count: int, gainers: bool): seq<SignalResult> {
    Slice(TopSorted(succ, h, gainers), 0, count)
  }

  /** The sorted signed trades are the signed trades rearranged, best first. */
  lemma TopSortedFacts(succ: seq<SignalResult>, h: Horizon, gainers: bool)
    ensures var all := TopSorted(succ, h, gainers);
      && multiset(all) == multiset(Signed(succ, h, gainers))
      && (forall t :: t in all ==> t in succ && HasSignedReturn(t, h, gainers))
      && (forall i, j :: 0 <= i < j < |all| ==>
            if gainers then Le(ReturnValue(h, all[j]), ReturnValue(h, all[i]))
            else Le(ReturnValue(h, all[i]), ReturnValue(h, all[j])))
  {
    var signed := Signed(succ, h, gainers);
    var rank := TopRank(h, gainers);
    var all := StableSort(signed, rank);
    StableSortSorted(signed, rank);
    StableSortPermutes(signed, rank);
    forall t | t in all
      ensures t in signed
    {
      assert t in multiset(all);
    }
    forall i, j | 0 <= i < j < |all|
      ensures if gainers then Le(ReturnValue(h, all[j]), ReturnValue(h, all[i]))
              else Le(ReturnValue(h, all[i]), ReturnValue(h, all[j]))
    {
      assert Le(rank(all[i]), rank(all[j]));
      NegReverses(ReturnValue(h, all[i]), ReturnValue(h, all[j]));
    }
  }

  /** The top performers: the first `count` of the sorted signed trades (all
      of them when there are fewer), each with a return of the requested sign,
      in order of decreasing (gainers) or increasing (losers) return, and no
      trade left out beats one that is shown. */
  lemma TopPerformersFacts(succ: seq<SignalResult>, h: Horizon, count: nat, gainers: bool)
    ensures var r := TopPerformers(succ, h, count, gainers);
      var all := TopSorted(succ, h, gainers);
      && |r| == (if count < |all| then count else |all|)
      && |all| == |Signed(succ, h, gainers)|
      && r == all[..|r|]
      && (forall t :: t in r ==> t in succ && HasSignedReturn(t, h, gainers))
      && (forall i, j :: 0 <= i < |r| && i < j < |all| ==>
            if gainers then Le(ReturnValue(h, all[j]), ReturnValue(h, r[i]))
            else Le(ReturnValue(h, r[i]), ReturnValue(h, all[j])))
  {
    var all := TopSorted(succ, h, gainers);
    var r := TopPerformers(succ, h, count, gainers);
    TopSortedFacts(succ, h, gainers);
    assert |all| == |multiset(all)|;
    assert r == all[..|r|];
  }

  /** Equal returns keep their order from the Success trades: the sort is
      stable. */
  lemma TopPerformersStable(succ: seq<SignalResult>, h: Horizon, gainers: bool, v: Ext)
    ensures var rank := TopRank(h, gainers);
      SameRank(TopSorted(succ, h, gainers), rank, v) == SameRank(Signed(succ, h, gainers), rank, v)
  {
    StableSortStable(Signed(succ, h, gainers), TopRank(h, gainers), v);
  }

  /** The trades with a return for h, in order. */
  function WithReturn(succ: seq<SignalResult>, h: Horizon): (r: seq<SignalResult>)
    ensures forall t :: t in r <==> t in succ && t.ReturnAt(h).Some?
    decreases |succ|
  {
    if succ == [] then []
    else
      var init := succ[..|succ| - 1];
      var t := succ[|succ| - 1];
      assert succ == init + [t];
      WithReturn(init, h) + (if t.ReturnAt(h).Some? then [t] else [])
  }

  /** The label of a horizon. */
  function PeriodName(h: Horizon): string {
    match h
    case D7 => "1 Week"
    case D30 => "1 Month"
    case D90 => "3 Month"
    case _ => ""
  }

  /** One entry of `topStockByPeriod`. */
  datatype TopStock = TopStock(period: string, stock: string, value: real)

  /** The entry for h: the head of the trades with a return, sorted by
      decreasing return; none when no trade has a return. */
  function TopStockAt(succ: seq<SignalResult>, h: Horizon): Option<TopStock> {
    var sorted := StableSort(WithReturn(succ, h), TopRank(h, true));
    if sorted == [] then None
    else Some(TopStock(PeriodName(h), sorted[0].symbol, sorted[0].ReturnAt(h).GetOr(0.0)))
  }

  /** The values of the entries that are not None, in order: `filter(item => item !== null)`. */
  function Present(entries: seq<Option<TopStock>>): (r: seq<TopStock>)
    ensures |r| <= |entries|
    ensures forall e :: e in r <==> Some(e) in entries
    decreases |entries|
  {
    if entries == [] then []
    else
      var init := entries[..|entries| - 1];
      assert entries == init + [entries[|entries| - 1]];
      Present(init) + (if entries[|entries| - 1].Some? then [entries[|entries| - 1].value] else [])
  }

  /** The filter keeps order: the present entries of two lists back to back
      are those of each, concatenated. */
  lemma {:induction false} PresentAppend(a: seq<Option<TopStock>>, b: seq<Option<TopStock>>)
    ensures Present(a + b) == Present(a) + Present(b)
    decreases |b|
  {
    if b == [] {
      assert a + b == a;
    } else {
      var init := b[..|b| - 1];
      assert (a + b)[..|a + b| - 1] == a + init;
      assert (a + b)[|a + b| - 1] == b[|b| - 1];
      PresentAppend(a, init);
    }
  }

  /** A single entry: its value when present, nothing when null. */
  lemma PresentOne(o: Option<TopStock>)
    ensures Present([o]) == if o.Some? then [o.value] else []
  {
    assert [o][..0] == [];
  }

  /** `topStockByPeriod`: the entries of 7, 30 and 90 days that exist, in
      that order. */
  function TopStockByPeriod(succ: seq<SignalResult>): seq<TopStock> {
    Present([TopStockAt(succ, D7), TopStockAt(succ, D30), TopStockAt(succ, D90)])
  }

  /** The entries of 1 Week, 1 Month and 3 Month come in that order, each
      exactly when its horizon has a top stock. */
  lemma TopStockByPeriodInOrder(succ: seq<SignalResult>)
    ensures var a, b, c := TopStockAt(succ, D7), TopStockAt(succ, D30), TopStockAt(succ, D90);
      TopStockByPeriod(succ) ==
        (if a.Some? then [a.value] else []) + (if b.Some? then [b.value] else []) + (if c.Some? then [c.value] else [])
  {
    var a, b, c := TopStockAt(succ, D7), TopStockAt(succ, D30), TopStockAt(succ, D90);
    assert [a, b, c] == [a] + [b] + [c];
    PresentAppend([a] + [b], [c]);
    PresentAppend([a], [b]);
    PresentOne(a);
    PresentOne(b);
    PresentOne(c);
  }

  /** There is a top stock for h exactly when some trade has a return for it. */
  lemma TopStockPresent(succ: seq<SignalResult>, h: Horizon)
    ensures TopStockAt(succ, h).Some? <==> exists j :: 0 <= j < |succ| && succ[j].ReturnAt(h).Some?
  {
    var w := WithReturn(succ, h);
    StableSortPermutes(w, TopRank(h, true));
    if exists j :: 0 <= j < |succ| && succ[j].ReturnAt(h).Some? {
      var j :| 0 <= j < |succ| && succ[j].ReturnAt(h).Some?;
      assert succ[j] in w;
    }
    if w != [] {
      assert w[0] in w;
    }
  }

  /** The top stock of a horizon is the first trade, among those with a
      return for it, with the largest return. */
  lemma TopStockFirstMax(succ: seq<SignalResult>, h: Horizon) returns (k: nat)
    requires TopStockAt(succ, h).Some?
    ensures var w := WithReturn(succ, h);
      && k < |w|
      && TopStockAt(succ, h).value == TopStock(PeriodName(h), w[k].symbol, w[k].ReturnAt(h).GetOr(0.0))
      && (forall j :: 0 <= j < |w| ==> Le(ReturnValue(h, w[j]), ReturnValue(h, w[k])))
      && (forall j :: 0 <= j < k ==> Lt(ReturnValue(h, w[j]), ReturnValue(h, w[k])))
  {
    var w := WithReturn(succ, h);
    var rank := TopRank(h, true);
    StableSortPermutes(w, rank);
    assert w != [];
    StableSortHead(w, rank);
    k := FirstMinBy(w, rank);
    forall j | 0 <= j < |w|
      ensures Le(ReturnValue(h, w[j]), ReturnValue(h, w[k]))
      ensures j < k ==> Lt(ReturnValue(h, w[j]), ReturnValue(h, w[k]))
    {
      assert Le(rank(w[k]), rank(w[j]));
      NegReverses(ReturnValue(h, w[j]), ReturnValue(h, w[k]));
    }
  }

  /** Every trade in WithReturn has a return, so the top stock's value is
      that return and the order above is the order of the numbers. */
  lemma WithReturnHasReturn(succ: seq<SignalResult>, h: Horizon, i: nat)
    requires i < |WithReturn(succ, h)|
    ensures WithReturn(succ, h)[i].ReturnAt(h).Some?
    ensures ReturnValue(h, WithReturn(succ, h)[i]) == Fin(WithReturn(succ, h)[i].ReturnAt(h).value)
  {
    assert WithReturn(succ, h)[i] in WithReturn(succ, h);
  }

  // ---------------------------------------------------------------------------
  // Best horizon per trade

  /** The position of a shown horizon in the order `bestPeriodData` lists
      them. */
  function OrderOf(h: Horizon): nat {
    match h
    case D7 => 0
    case D30 => 1
    case D90 => 2
    case _ => 3
  }

  /** The return for a shown horizon among the three a trade offers. */
  function Offered(g: Horizon, r7: Option<real>, r30: Option<real>, r90: Option<real>): Option<real> {
    match g
    case D7 => r7
    case D30 => r30
    case D90 => r90
    case _ => None
  }

  /** The (horizon, return) pairs of a trade's 7, 30 and 90-day returns that
      are not null, in that order. */
  function Candidates(r7: Option<real>, r30: Option<real>, r90: Option<real>): seq<(Horizon, real)> {
    (if r7.Some? then [(D7, r7.value)] else []) +
    (if r30.Some? then [(D30, r30.value)] else []) +
    (if r90.Some? then [(D90, r90.value)] else [])
  }

  /** The candidates are exactly the shown horizons with a return, each once,
      in increasing order. */
  lemma CandidatesFacts(r7: Option<real>, r30: Option<real>, r90: Option<real>)
    ensures var c := Candidates(r7, r30, r90);
      && (forall p :: p in c <==> Reported(p.0) && Offered(p.0, r7, r30, r90) == Some(p.1))
      && (forall i, j :: 0 <= i < j < |c| ==> OrderOf(c[i].0) < OrderOf(c[j].0))
  {
  }

  /** `returns.reduce((max, r) => r.value > max.value ? r : max)`: the first
      pair with the largest return. */
  function ReduceMax(s: seq<(Horizon, real)>): (m: nat)
    requires s != []
    ensures m < |s|
    ensures forall j :: 0 <= j < |s| ==> s[j].1 <= s[m].1
    ensures forall j :: 0 <= j < m ==> s[j].1 < s[m].1
    decreases |s|
  {
    if |s| == 1 then 0
    else
      var m := ReduceMax(s[..|s| - 1]);
      if s[|s| - 1].1 > s[m].1 then |s| - 1 else m
  }

  /** The horizon of the reduce, if there is any candidate. */
  function BestOf(r7: Option<real>, r30: Option<real>, r90: Option<real>): Option<Horizon> {
    var c := Candidates(r7, r30, r90);
    if c == [] then None else Some(c[ReduceMax(c)].0)
  }

  /** The horizon a trade counts for, if it has any return. */
  function BestHorizon(t: SignalResult): Option<Horizon> {
    BestOf(t.return7d, t.return30d, t.return90d)
  }

  /** The reduce's horizon is a shown one with a return. */
  lemma BestOfPresent(r7: Option<real>, r30: Option<real>, r90: Option<real>)
    ensures BestOf(r7, r30, r90).Some? <==> r7.Some? || r30.Some? || r90.Some?
    ensures BestOf(r7, r30, r90).Some? ==>
      Reported(BestOf(r7, r30, r90).value) && Offered(BestOf(r7, r30, r90).value, r7, r30, r90).Some?
  {
    var c := Candidates(r7, r30, r90);
    CandidatesFacts(r7, r30, r90);
    if c != [] {
      assert c[ReduceMax(c)] in c;
    }
  }

  /** Where a shown horizon with a return sits among the candidates: after
      the earlier horizons that have one. */
  function PosOf(g: Horizon, r7: Option<real>, r30: Option<real>, r90: Option<real>): nat {
    match g
    case D7 => 0
    case D30 => if r7.Some? then 1 else 0
    case _ => (if r7.Some? then 1 else 0) + (if r30.Some? then 1 else 0)
  }

  /** A shown horizon with a return is the candidate at its position. */
  lemma CandidateAt(g: Horizon, r7: Option<real>, r30: Option<real>, r90: Option<real>)
    requires Reported(g) && Offered(g, r7, r30, r90).Some?
    ensures var c := Candidates(r7, r30, r90);
      PosOf(g, r7, r30, r90) < |c| && c[PosOf(g, r7, r30, r90)] == (g, Offered(g, r7, r30, r90).value)
  {
  }

  /** Every candidate is a shown horizon with a return, at its position. */
  lemma CandidatePos(i: nat, r7: Option<real>, r30: Option<real>, r90: Option<real>)
    requires i < |Candidates(r7, r30, r90)|
    ensures var p := Candidates(r7, r30, r90)[i];
      Reported(p.0) && Offered(p.0, r7, r30, r90) == Some(p.1) && PosOf(p.0, r7, r30, r90) == i
  {
  }

  /** No shown horizon beats the reduce's. */
  lemma BestOfBeats(r7: Option<real>, r30: Option<real>, r90: Option<real>, g: Horizon)
    requires BestOf(r7, r30, r90).Some?
    requires Reported(g) && Offered(g, r7, r30, r90).Some?
    ensures var h := BestOf(r7, r30, r90).value;
      Offered(h, r7, r30, r90).Some? &&
      Offered(g, r7, r30, r90).value <= Offered(h, r7, r30, r90).value
  {
    var c := Candidates(r7, r30, r90);
    var m := ReduceMax(c);
    CandidatePos(m, r7, r30, r90);
    CandidateAt(g, r7, r30, r90);
    var j := PosOf(g, r7, r30, r90);
    assert c[j].1 <= c[m].1;
  }

  /** No horizon before the reduce's has a return as large. */
  lemma BestOfFirst(r7: Option<real>, r30: Option<real>, r90: Option<real>, g: Horizon)
    requires BestOf(r7, r30, r90).Some?
    requires Reported(g) && Offered(g, r7, r30, r90).Some?
    requires OrderOf(g) < OrderOf(BestOf(r7, r30, r90).value)
    ensures var h := BestOf(r7, r30, r90).value;
      Offered(h, r7, r30, r90).Some? &&
      Offered(g, r7, r30, r90).value < Offered(h, r7, r30, r90).value
  {
    var c := Candidates(r7, r30, r90);
    var m := ReduceMax(c);
    CandidatePos(m, r7, r30, r90);
    CandidateAt(g, r7, r30, r90);
    var j := PosOf(g, r7, r30, r90);
    assert j < m;
    assert c[j].1 < c[m].1;
  }

  /** The reduce picks a shown horizon with the largest return, and the
      earliest such one. */
  lemma BestOfFacts(r7: Option<real>, r30: Option<real>, r90: Option<real>)
    ensures BestOf(r7, r30, r90).Some? <==> r7.Some? || r30.Some? || r90.Some?
    ensures BestOf(r7, r30, r90).Some? ==>
      var h := BestOf(r7, r30, r90).value;
      && Reported(h) && Offered(h, r7, r30, r90).Some?
      && (forall g :: Reported(g) && Offered(g, r7, r30, r90).Some? ==>
            Offered(g, r7, r30, r90).value <= Offered(h, r7, r30, r90).value)
      && (forall g :: Reported(g) && OrderOf(g) < OrderOf(h) && Offered(g, r7, r30, r90).Some? ==>
            Offered(g, r7, r30, r90).value < Offered(h, r7, r30, r90).value)
  {
    BestOfPresent(r7, r30, r90);
    if BestOf(r7, r30, r90).Some? {
      forall g | Reported(g) && Offered(g, r7, r30, r90).Some?
        ensures Offered(g, r7, r30, r90).value <= Offered(BestOf(r7, r30, r90).value, r7, r30, r90).value
      {
        BestOfBeats(r7, r30, r90, g);
      }
      forall g | Reported(g) && OrderOf(g) < OrderOf(BestOf(r7, r30, r90).value) && Offered(g, r7, r30, r90).Some?
        ensures Offered(g, r7, r30, r90).value < Offered(BestOf(r7, r30, r90).value, r7, r30, r90).value
      {
        BestOfFirst(r7, r30, r90, g);
      }
    }
  }

  /** A trade counts for a horizon exactly when it has a return for one of 7,
      30 and 90 days: a shown horizon with the largest return, and the
      earliest such one (ties go to 7 days, then 30). */
  lemma BestHorizonFacts(t: SignalResult)
    ensures BestHorizon(t).Some? <==> t.return7d.Some? || t.return30d.Some? || t.return90d.Some?
    ensures BestHorizon(t).Some? ==>
      var h := BestHorizon(t).value;
      && Reported(h) && t.ReturnAt(h).Some?
      && (forall g :: Reported(g) && t.ReturnAt(g).Some? ==> t.ReturnAt(g).value <= t.ReturnAt(h).value)
      && (forall g :: Reported(g) && OrderOf(g) < OrderOf(h) && t.ReturnAt(g).Some? ==>
            t.ReturnAt(g).value < t.ReturnAt(h).value)
  {
    BestOfFacts(t.return7d, t.return30d, t.return90d);
    assert forall g :: Reported(g) ==> t.ReturnAt(g) == Offered(g, t.return7d, t.return30d, t.return90d);
  }

  /** The number of trades whose best horizon is h. */
  function CountBest(succ: seq<SignalResult>, h: Horizon): (n: nat)
    ensures n <= |succ|
    decreases |succ|
  {
    if succ == [] then 0
    else CountBest(succ[..|succ| - 1], h) + (if BestHorizon(succ[|succ| - 1]) == Some(h) then 1 else 0)
  }

  /** The number of trades with a return for some shown horizon. */
  function CountWithAnyReturn(succ: seq<SignalResult>): (n: nat)
    ensures n <= |succ|
    decreases |succ|
  {
    if succ == [] then 0
    else
      var t := succ[|succ| - 1];
      CountWithAnyReturn(succ[..|succ| - 1]) + (if t.return7d.Some? || t.return30d.Some? || t.return90d.Some? then 1 else 0)
  }

  /** The three buckets together count every trade with some return once. */
  lemma {:induction false} BucketsPartition(succ: seq<SignalResult>)
    ensures CountBest(succ, D7) + CountBest(succ, D30) + CountBest(succ, D90) == CountWithAnyReturn(succ)
    decreases |succ|
  {
    if succ != [] {
      BucketsPartition(succ[..|succ| - 1]);
      var t := succ[|succ| - 1];
      BestOfPresent(t.return7d, t.return30d, t.return90d);
    }
  }

  /** Counting one more trade adds one to the bucket of its best horizon. */
  lemma CountBestStep(succ: seq<SignalResult>, i: nat)
    requires i < |succ|
    ensures forall h :: CountBest(succ[..i + 1], h) == CountBest(succ[..i], h) + (if BestHorizon(succ[i]) == Some(h) then 1 else 0)
  {
    assert succ[..i + 1][..i] == succ[..i];
  }

  /** One bar of `bestPeriodData`. */
  datatype PeriodCount = PeriodCount(name: string, value: nat)

  /** `bestPeriodData`: the counts dictionary filled by one pass over the
      Success trades. */
  method BestPeriodData(succ: seq<SignalResult>) returns (data: seq<PeriodCount>)
    ensures data == [PeriodCount("1 Week", CountBest(succ, D7)),
                     PeriodCount("1 Month", CountBest(succ, D30)),
                     PeriodCount("3 Month", CountBest(succ, D90))]
  {
    var counts: map<Horizon, nat> := map[D7 := 0, D30 := 0, D90 := 0];
    assert succ[..0] == [];
    for i := 0 to |succ|
      invariant D7 in counts && D30 in counts && D90 in counts
      invariant forall h :: h in counts ==> counts[h] == CountBest(succ[..i], h)
    {
      var best := BestHorizon(succ[i]);
      CountBestStep(succ, i);
      if best.Some? {
        BestOfPresent(succ[i].return7d, succ[i].return30d, succ[i].return90d);
        counts := counts[best.value := counts[best.value] + 1];
      }
    }
    assert succ[..|succ|] == succ;
    data := [PeriodCount("1 Week", counts[D7]), PeriodCount("1 Month", counts[D30]), PeriodCount("3 Month", counts[D90])];
  }
}
