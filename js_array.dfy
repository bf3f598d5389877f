/** The parts of ECMAScript's Array.prototype the dashboard relies on: the
    sign a numeric sort comparator returns, Array.prototype.sort as a stable
    sort by that sign (section 23.1.3.30 of ECMA-262 requires stability), and
    Array.prototype.slice. */
module JsArray {
  /** A sort value: a finite number or one of the infinities. */
  datatype Ext = NegInf | Fin(r: real) | PosInf

  /** The order of numbers extended with the infinities. */
  predicate Lt(a: Ext, b: Ext) {
    match a
    case NegInf => !b.NegInf?
    case Fin(x) => b.PosInf? || (b.Fin? && x < b.r)
    case PosInf => false
  }

  predicate Le(a: Ext, b: Ext) {
    Lt(a, b) || a == b
  }

  /** Unary minus. */
  function Neg(a: Ext): Ext {
    match a
    case NegInf => PosInf
    case Fin(x) => Fin(-x)
    case PosInf => NegInf
  }

  /** Negation reverses the order and undoes itself. */
  lemma NegReverses(a: Ext, b: Ext)
    ensures Neg(Neg(a)) == a
    ensures Lt(Neg(a), Neg(b)) <==> Lt(b, a)
    ensures Le(Neg(a), Neg(b)) <==> Le(b, a)
  {
  }

  /** The sign of `a - b` as SortCompare reads it: `-Infinity - -Infinity`
      and `Infinity - Infinity` are NaN, which SortCompare turns into +0.  So
      the comparator `(x, y) => x - y` orders by Lt, and values that compare
      as +0 are equal. */
  function SubSign(a: Ext, b: Ext): (s: int)
    ensures s < 0 <==> Lt(a, b)
    ensures s == 0 <==> a == b
    ensures s > 0 <==> Lt(b, a)
  {
    match a
    case NegInf => if b.NegInf? then 0 else -1
    case PosInf => if b.PosInf? then 0 else 1
    case Fin(x) =>
      match b
      case NegInf => 1
      case PosInf => -1
      case Fin(y) => if x < y then -1 else if x == y then 0 else 1
  }

  // ---------------------------------------------------------------------------
  // Stable sort

  /** Non-decreasing in rank. */
  predicate SortedBy<T>(s: seq<T>, rank: T -> Ext) {
    forall i, j :: 0 <= i < j < |s| ==> Le(rank(s[i]), rank(s[j]))
  }

  /** x inserted into s after every element whose rank is at most x's. */
  function Insert<T>(x: T, s: seq<T>, rank: T -> Ext): (r: seq<T>)
    ensures |r| == |s| + 1
    decreases |s|
  {
    if s == [] then [x]
    else if Le(rank(s[|s| - 1]), rank(x)) then s + [x]
    else Insert(x, s[..|s| - 1], rank) + [s[|s| - 1]]
  }

  /** Array.prototype.sort with a comparator whose sign is SubSign of the
      ranks: insertion sort, each element placed after the equal ones before
      it. */
  function StableSort<T>(s: seq<T>, rank: T -> Ext): (r: seq<T>)
    ensures |r| == |s|
    decreases |s|
  {
    if s == [] then []
    else Insert(s[|s| - 1], StableSort(s[..|s| - 1], rank), rank)
  }

  lemma {:induction false} InsertPermutes<T>(x: T, s: seq<T>, rank: T -> Ext)
    ensures multiset(Insert(x, s, rank)) == multiset(s) + multiset{x}
    decreases |s|
  {
    if s != [] && !Le(rank(s[|s| - 1]), rank(x)) {
      var init := s[..|s| - 1];
      InsertPermutes(x, init, rank);
      assert s == init + [s[|s| - 1]];
    }
  }

  /** The result of the sort is a permutation of its input. */
  lemma {:induction false} StableSortPermutes<T>(s: seq<T>, rank: T -> Ext)
    ensures multiset(StableSort(s, rank)) == multiset(s)
    decreases |s|
  {
    if s != [] {
      var init := s[..|s| - 1];
      StableSortPermutes(init, rank);
      InsertPermutes(s[|s| - 1], StableSort(init, rank), rank);
      assert s == init + [s[|s| - 1]];
    }
  }

  lemma {:induction false} InsertSorted<T>(x: T, s: seq<T>, rank: T -> Ext)
    requires SortedBy(s, rank)
    ensures SortedBy(Insert(x, s, rank), rank)
    decreases |s|
  {
    if s != [] && !Le(rank(s[|s| - 1]), rank(x)) {
      var init := s[..|s| - 1];
      var last := s[|s| - 1];
      InsertSorted(x, init, rank);
      var r := Insert(x, init, rank);
      InsertPermutes(x, init, rank);
      forall i | 0 <= i < |r|
        ensures Le(rank(r[i]), rank(last))
      {
        assert r[i] in multiset(r);
        if r[i] != x {
          assert r[i] in multiset(init);
          var k :| 0 <= k < |init| && init[k] == r[i];
          assert s[k] == init[k];
        }
      }
    }
  }

  /** The result of the sort is ordered by rank. */
  lemma {:induction false} StableSortSorted<T>(s: seq<T>, rank: T -> Ext)
    ensures SortedBy(StableSort(s, rank), rank)
    decreases |s|
  {
    if s != [] {
      StableSortSorted(s[..|s| - 1], rank);
      InsertSorted(s[|s| - 1], StableSort(s[..|s| - 1], rank), rank);
    }
  }

  /** The elements of s whose rank is v, in order. */
  function SameRank<T>(s: seq<T>, rank: T -> Ext, v: Ext): (r: seq<T>)
    ensures forall x :: x in r ==> rank(x) == v
    decreases |s|
  {
    if s == [] then []
    else SameRank(s[..|s| - 1], rank, v) + (if rank(s[|s| - 1]) == v then [s[|s| - 1]] else [])
  }

  lemma SameRankSnoc<T>(t: seq<T>, y: T, rank: T -> Ext, v: Ext)
    ensures SameRank(t + [y], rank, v) == SameRank(t, rank, v) + (if rank(y) == v then [y] else [])
  {
    assert (t + [y])[..|t|] == t;
  }

  lemma {:induction false} InsertSameRank<T>(x: T, s: seq<T>, rank: T -> Ext, v: Ext)
    ensures SameRank(Insert(x, s, rank), rank, v) == SameRank(s, rank, v) + (if rank(x) == v then [x] else [])
    decreases |s|
  {
    if s != [] {
      var init := s[..|s| - 1];
      var last := s[|s| - 1];
      if Le(rank(last), rank(x)) {
        SameRankSnoc(s, x, rank, v);
      } else {
        var t := Insert(x, init, rank);
        InsertSameRank(x, init, rank, v);
        SameRankSnoc(t, last, rank, v);
        var front := SameRank(init, rank, v);
        var ofX: seq<T> := if rank(x) == v then [x] else [];
        var ofLast: seq<T> := if rank(last) == v then [last] else [];
        assert Insert(x, s, rank) == t + [last];
        assert SameRank(s, rank, v) == front + ofLast;
        if rank(x) == v {
          assert ofLast == [];
        } else {
          assert ofX == [];
        }
        assert front + ofX + ofLast == front + ofLast + ofX;
      }
    }
  }

  /** Stability: for every rank, the elements of that rank keep their order. */
  lemma {:induction false} StableSortStable<T>(s: seq<T>, rank: T -> Ext, v: Ext)
    ensures SameRank(StableSort(s, rank), rank, v) == SameRank(s, rank, v)
    decreases |s|
  {
    if s != [] {
      var init := s[..|s| - 1];
      StableSortStable(init, rank, v);
      InsertSameRank(s[|s| - 1], StableSort(init, rank), rank, v);
    }
  }

  /** When every element has the same rank the sort leaves the sequence as
      it is. */
  lemma {:induction false} StableSortEqualRanks<T>(s: seq<T>, rank: T -> Ext, v: Ext)
    requires forall i :: 0 <= i < |s| ==> rank(s[i]) == v
    ensures StableSort(s, rank) == s
    decreases |s|
  {
    if s != [] {
      var init := s[..|s| - 1];
      assert forall i :: 0 <= i < |init| ==> init[i] == s[i];
      StableSortEqualRanks(init, rank, v);
      assert s == init + [s[|s| - 1]];
    }
  }

  /** The position of the first element of least rank. */
  function FirstMinBy<T>(s: seq<T>, rank: T -> Ext): (i: nat)
    requires s != []
    ensures i < |s|
    ensures forall j :: 0 <= j < |s| ==> Le(rank(s[i]), rank(s[j]))
    ensures forall j :: 0 <= j < i ==> Lt(rank(s[i]), rank(s[j]))
    decreases |s|
  {
    if |s| == 1 then 0
    else
      var m := FirstMinBy(s[..|s| - 1], rank);
      if Lt(rank(s[|s| - 1]), rank(s[m])) then |s| - 1 else m
  }

  lemma {:induction false} InsertHead<T>(x: T, s: seq<T>, rank: T -> Ext)
    requires s != [] && SortedBy(s, rank)
    ensures Insert(x, s, rank)[0] == if Lt(rank(x), rank(s[0])) then x else s[0]
    decreases |s|
  {
    var init := s[..|s| - 1];
    var last := s[|s| - 1];
    if !Le(rank(last), rank(x)) && init != [] {
      assert init[0] == s[0];
      InsertHead(x, init, rank);
    }
  }

  /** The first element of the sorted sequence is the first element of least
      rank, which is what `sorted[0]` picks. */
  lemma {:induction false} StableSortHead<T>(s: seq<T>, rank: T -> Ext)
    requires s != []
    ensures StableSort(s, rank)[0] == s[FirstMinBy(s, rank)]
    decreases |s|
  {
    if |s| > 1 {
      var init := s[..|s| - 1];
      StableSortHead(init, rank);
      StableSortSorted(init, rank);
      InsertHead(s[|s| - 1], StableSort(init, rank), rank);
    }
  }

  /** The step of an in-place insertion: moving the hole left past an element
      of larger rank. */
  lemma InsertShift<T>(x: T, p: seq<T>, j: nat, rank: T -> Ext)
    requires 0 < j <= |p| && Lt(rank(x), rank(p[j - 1]))
    ensures Insert(x, p[..j], rank) + p[j..] == Insert(x, p[..j - 1], rank) + p[j - 1..]
  {
    assert p[..j][..j - 1] == p[..j - 1];
    assert p[j - 1..] == [p[j - 1]] + p[j..];
  }

  /** Where the shifting stops, x goes in between the two parts. */
  lemma InsertStop<T>(x: T, p: seq<T>, j: nat, rank: T -> Ext)
    requires j <= |p| && Insert(x, p, rank) == Insert(x, p[..j], rank) + p[j..]
    requires j == 0 || !Lt(rank(x), rank(p[j - 1]))
    ensures Insert(x, p, rank) == p[..j] + [x] + p[j..]
  {
    if j > 0 {
      var q := p[..j];
      assert q[|q| - 1] == p[j - 1];
      assert Le(rank(q[|q| - 1]), rank(x));
      assert Insert(x, q, rank) == q + [x];
    }
  }

  /** `array.sort(comparator)` on an array, as an insertion sort that shifts
      the larger elements right. */
  method SortInPlace<T>(a: array<T>, rank: T -> Ext)
    modifies a
    ensures a[..] == StableSort(old(a[..]), rank)
  {
    ghost var s := a[..];
    for i := 0 to a.Length
      invariant a[..i] == StableSort(s[..i], rank)
      invariant a[i..] == s[i..]
    {
      InsertAt(a, i, rank);
      assert s[..i + 1][..i] == s[..i];
    }
    assert s[..a.Length] == s;
  }

  /** One pass of the insertion sort: a[i] moves left past the larger
      elements of the prefix a[..i]. */
  method InsertAt<T>(a: array<T>, i: nat, rank: T -> Ext)
    requires i < a.Length
    modifies a
    ensures a[..i + 1] == Insert(old(a[i]), old(a[..i]), rank)
    ensures a[i + 1..] == old(a[i + 1..])
  {
    ghost var p := a[..i];
    var x := a[i];
    var j := i;
    assert p[..j] == p && p[j..] == [];
    while j > 0 && Lt(rank(x), rank(a[j - 1]))
      invariant 0 <= j <= i
      invariant forall k :: 0 <= k < j ==> a[k] == p[k]
      invariant forall k :: j < k <= i ==> a[k] == p[k - 1]
      invariant forall k :: i < k < a.Length ==> a[k] == old(a[k])
      invariant Insert(x, p, rank) == Insert(x, p[..j], rank) + p[j..]
      decreases j
    {
      InsertShift(x, p, j, rank);
      a[j] := a[j - 1];
      j := j - 1;
    }
    a[j] := x;
    InsertStop(x, p, j, rank);
    assert forall k :: 0 <= k <= i ==> a[k] == (p[..j] + [x] + p[j..])[k];
  }

  // ---------------------------------------------------------------------------
  // slice

  /** How Array.prototype.slice reads a start or end index: a negative index
      counts from the end, and the result is clamped to [0, len]. */
  function RelativeIndex(k: int, len: nat): (r: nat)
    ensures r <= len
    ensures 0 <= k ==> r == if k <= len then k else len
    ensures k < 0 ==> r == if len + k >= 0 then len + k else 0
  {
    if k < 0 then (if len + k < 0 then 0 else len + k)
    else if k > len then len else k
  }

  /** `s.slice(start, end)` */
  function Slice<T>(s: seq<T>, start: int, end: int): (r: seq<T>)
    ensures |r| <= |s|
    ensures var from := RelativeIndex(start, |s|);
      var to := RelativeIndex(end, |s|);
      && |r| == (if from < to then to - from else 0)
      && forall k :: 0 <= k < |r| ==> r[k] == s[from + k]
  {
    var from := RelativeIndex(start, |s|);
    var to := RelativeIndex(end, |s|);
    if from < to then s[from..to] else []
  }

  /** Adjacent slices with non-negative bounds make up the slice between
      them. */
  lemma SliceAdjacent<T>(s: seq<T>, a: int, b: int, c: int)
    requires 0 <= a <= b <= c
    ensures Slice(s, a, b) + Slice(s, b, c) == Slice(s, a, c)
  {
    var ra, rb, rc := RelativeIndex(a, |s|), RelativeIndex(b, |s|), RelativeIndex(c, |s|);
    if ra < rb && rb < rc {
      assert s[ra..rb] + s[rb..rc] == s[ra..rc];
    }
  }

  /** `s.filter(keep)` */
  function Filter<T(!new)>(s: seq<T>, keep: T -> bool): (r: seq<T>)
    ensures |r| <= |s|
    decreases |s|
  {
    if s == [] then []
    else Filter(s[..|s| - 1], keep) + (if keep(s[|s| - 1]) then [s[|s| - 1]] else [])
  }

  /** The filter keeps exactly the elements that pass. */
  lemma {:induction false} FilterMembers<T(!new)>(s: seq<T>, keep: T -> bool)
    ensures forall x :: x in Filter(s, keep) <==> x in s && keep(x)
    decreases |s|
  {
    if s != [] {
      var init := s[..|s| - 1];
      FilterMembers(init, keep);
      assert s == init + [s[|s| - 1]];
    }
  }

  lemma FilterSnoc<T(!new)>(t: seq<T>, y: T, keep: T -> bool)
    ensures Filter(t + [y], keep) == Filter(t, keep) + (if keep(y) then [y] else [])
  {
    assert (t + [y])[..|t|] == t;
  }

  /** The filter keeps order: filtering a concatenation concatenates the
      filtered parts. */
  lemma {:induction false} FilterAppend<T(!new)>(a: seq<T>, b: seq<T>, keep: T -> bool)
    ensures Filter(a + b, keep) == Filter(a, keep) + Filter(b, keep)
    decreases |b|
  {
    if b == [] {
      assert a + b == a;
    } else {
      var init, x := b[..|b| - 1], b[|b| - 1];
      FilterAppend(a, init, keep);
      assert b == init + [x];
      assert a + b == (a + init) + [x];
      FilterSnoc(a + init, x, keep);
      FilterSnoc(init, x, keep);
      var fa, fi, tail := Filter(a, keep), Filter(init, keep), if keep(x) then [x] else [];
      assert fa + fi + tail == fa + (fi + tail);
    }
  }
}
