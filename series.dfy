/**
 * The stages computed per (test, site, platform) series along the pushDate
 * axis: `afterLastGoodDate`, the fill-forward `daily` recurrence and the
 * recency `mask`. A series is the sequence of record groups (cells) of one
 * (test, site, platform) address, one group per date of the time domain.
 */
module Series {
  import opened Optional
  import opened Records

  /** `slice().reverse()`: a reversed copy. */
  function Reverse<T>(xs: seq<T>): (r: seq<T>)
    ensures |r| == |xs|
  {
    if xs == [] then [] else [xs[|xs| - 1]] + Reverse(xs[..|xs| - 1])
  }

  /** Position k of the reversed copy holds position |xs| - 1 - k of the original. */
  lemma {:induction false} ReverseAt<T>(xs: seq<T>, k: nat)
    requires k < |xs|
    ensures Reverse(xs)[k] == xs[|xs| - 1 - k]
  {
    if k > 0 {
      ReverseAt(xs[..|xs| - 1], k - 1);
    }
  }

  /** ECMAScript `findIndex(m => m.length > 0)`: the first non-empty position, or -1. */
  function FindNonEmpty<T>(xs: seq<seq<T>>): (i: int)
    ensures -1 <= i < |xs|
    ensures 0 <= i ==> |xs[i]| > 0 && forall k :: 0 <= k < i ==> |xs[k]| == 0
    ensures i == -1 <==> forall k :: 0 <= k < |xs| ==> |xs[k]| == 0
  {
    if xs == [] then -1
    else if |xs[0]| > 0 then 0
    else
      var j := FindNonEmpty(xs[1..]);
      if j == -1 then -1 else j + 1
  }

  /** The last non-empty position, or -1 when every position is empty. */
  function LastNonEmpty<T>(xs: seq<seq<T>>): (i: int)
    ensures -1 <= i < |xs|
    ensures 0 <= i ==> |xs[i]| > 0 && forall k :: i < k < |xs| ==> |xs[k]| == 0
    ensures i == -1 <==> forall k :: 0 <= k < |xs| ==> |xs[k]| == 0
  {
    if xs == [] then -1
    else if |xs[|xs| - 1]| > 0 then |xs| - 1
    else LastNonEmpty(xs[..|xs| - 1])
  }

  /**
   * `measured.length - measured.slice().reverse().findIndex(m => m.length > 0)`:
   * one past the last non-empty position, so in 1..length when some position
   * is non-empty; when every position is empty `findIndex` gives -1 and the
   * boundary is length + 1.
   */
  function AfterLastGoodDate<T>(measured: seq<seq<T>>): (boundary: int)
    ensures var last := LastNonEmpty(measured);
      && (0 <= last ==> boundary == last + 1 && 1 <= boundary <= |measured|)
      && (last == -1 ==> boundary == |measured| + 1)
  {
    ReversedFindIsLast(measured);
    |measured| - FindNonEmpty(Reverse(measured))
  }

  /** Searching the reversed series from the front finds the last non-empty position of the series. */
  lemma {:induction false} ReversedFindIsLast<T>(xs: seq<seq<T>>)
    ensures FindNonEmpty(Reverse(xs)) == -1 ==> LastNonEmpty(xs) == -1
    ensures FindNonEmpty(Reverse(xs)) != -1 ==> LastNonEmpty(xs) == |xs| - 1 - FindNonEmpty(Reverse(xs))
  {
    if xs != [] {
      var init := xs[..|xs| - 1];
      assert Reverse(xs)[1..] == Reverse(init);
      if |xs[|xs| - 1]| == 0 {
        ReversedFindIsLast(init);
      }
    }
  }

  /** A non-empty position with only empty positions after it is the last non-empty one. */
  lemma LastNonEmptyAt<T>(xs: seq<seq<T>>, i: nat)
    requires i < |xs| && |xs[i]| > 0
    requires forall k :: i < k < |xs| ==> |xs[k]| == 0
    ensures LastNonEmpty(xs) == i
  {
  }

  /** Group sizes [1,0,1,0,0] give 3 and [1,2,0,0,0] give 2. */
  lemma AfterLastGoodDateExamples()
    ensures AfterLastGoodDate([[1], [], [1], [], []]) == 3
    ensures AfterLastGoodDate([[1], [1, 2], [], [], []]) == 2
  {
    var a: seq<seq<int>> := [[1], [], [1], [], []];
    var b: seq<seq<int>> := [[1], [1, 2], [], [], []];
    LastNonEmptyAt(a, 2);
    LastNonEmptyAt(b, 1);
  }

  function Sum(xs: seq<real>): real {
    if xs == [] then 0.0 else xs[0] + Sum(xs[1..])
  }

  /** Arithmetic mean; the mean of nothing is absent, not zero. */
  function Average(xs: seq<real>): (r: Option<real>)
    ensures r.None? <==> xs == []
  {
    if xs == [] then None else Some(Sum(xs) / |xs| as real)
  }

  lemma {:induction false} SumWithin(xs: seq<real>, lo: real, hi: real)
    requires forall k :: 0 <= k < |xs| ==> lo <= xs[k] <= hi
    ensures lo * |xs| as real <= Sum(xs) <= hi * |xs| as real
  {
    if xs != [] {
      SumWithin(xs[1..], lo, hi);
      assert |xs| as real == 1.0 + |xs[1..]| as real;
    }
  }

  /** The mean of values that all lie in [lo, hi] lies in [lo, hi]. */
  lemma AverageWithin(xs: seq<real>, lo: real, hi: real)
    requires xs != []
    requires forall k :: 0 <= k < |xs| ==> lo <= xs[k] <= hi
    ensures lo <= Average(xs).value <= hi
  {
    SumWithin(xs, lo, hi);
    MeanWithin(Sum(xs), |xs| as real, lo, hi);
  }

  lemma MeanWithin(total: real, n: real, lo: real, hi: real)
    requires n > 0.0 && lo * n <= total <= hi * n
    ensures lo <= total / n <= hi
  {
    var m := total / n;
    assert m * n == total;
    MonotoneFactor(lo, m, n);
    MonotoneFactor(m, hi, n);
  }

  /** Dividing both sides of an inequality by the same positive factor keeps it. */
  lemma MonotoneFactor(a: real, b: real, n: real)
    requires n > 0.0 && a * n <= b * n
    ensures a <= b
  {
    assert b * n - a * n == (b - a) * n;
  }

  /**
   * The `daily` reducer at position `num`, given `rows[num - 1]`, the value
   * already computed at the previous position: an empty cell strictly inside
   * (0, afterLastGoodDate) repeats it; any other cell is the mean of its values.
   */
  function DailyCell(cell: seq<Record>, num: nat, afterLastGoodDate: int, previous: Option<real>): (value: Option<real>)
    ensures |cell| == 0 && 0 < num < afterLastGoodDate ==> value == previous
    ensures |cell| > 0 || num == 0 || num >= afterLastGoodDate ==> value == Average(RecordValues(cell))
  {
    if 0 < num < afterLastGoodDate && |cell| == 0 then previous
    else Average(RecordValues(cell))
  }

  /**
   * The fold from position `num` on, carrying `previous`, the value computed
   * at `num - 1`: each position's value is computed from its cell and the
   * value just before it.
   */
  function DailyFrom(measured: seq<seq<Record>>, afterLastGoodDate: int, num: nat, previous: Option<real>): (rows: seq<Option<real>>)
    requires num <= |measured|
    ensures |rows| == |measured| - num
    ensures num < |measured| ==> rows[0] == DailyCell(measured[num], num, afterLastGoodDate, previous)
    ensures forall k {:trigger rows[k]} :: 0 < k < |rows| ==>
      rows[k] == DailyCell(measured[num + k], num + k, afterLastGoodDate, rows[k - 1])
    decreases |measured| - num
  {
    if num == |measured| then []
    else
      var value := DailyCell(measured[num], num, afterLastGoodDate, previous);
      var rest := DailyFrom(measured, afterLastGoodDate, num + 1, value);
      DailyFromStep(measured, afterLastGoodDate, num, value, rest);
      [value] + rest
  }

  /** Putting the value at `num` in front of the fold from `num + 1` keeps the recurrence at every position. */
  lemma DailyFromStep(measured: seq<seq<Record>>, afterLastGoodDate: int, num: nat, value: Option<real>, rest: seq<Option<real>>)
    requires num < |measured| && |rest| == |measured| - num - 1
    requires |rest| > 0 ==> rest[0] == DailyCell(measured[num + 1], num + 1, afterLastGoodDate, value)
    requires forall k {:trigger rest[k]} :: 0 < k < |rest| ==>
      rest[k] == DailyCell(measured[num + 1 + k], num + 1 + k, afterLastGoodDate, rest[k - 1])
    ensures |[value] + rest| == |measured| - num && ([value] + rest)[0] == value
    ensures forall k {:trigger ([value] + rest)[k]} :: 0 < k < |[value] + rest| ==>
      ([value] + rest)[k] == DailyCell(measured[num + k], num + k, afterLastGoodDate, ([value] + rest)[k - 1])
  {
    var rows := [value] + rest;
    forall k | 0 < k < |rows|
      ensures rows[k] == DailyCell(measured[num + k], num + k, afterLastGoodDate, rows[k - 1])
    {
      assert rows[k] == rest[k - 1];
      if k == 1 {
        assert rows[0] == value;
      } else {
        assert rows[k - 1] == rest[k - 2];
        assert num + 1 + (k - 1) == num + k;
      }
    }
  }

  /** The `daily` window along pushDate: the fold from position 0, where there is no previous value. */
  function Daily(measured: seq<seq<Record>>, afterLastGoodDate: int): (rows: seq<Option<real>>)
    ensures |rows| == |measured|
    ensures forall num {:trigger rows[num]} :: 0 <= num < |measured| ==>
      rows[num] == DailyCell(measured[num], num, afterLastGoodDate, if num == 0 then None else rows[num - 1])
  {
    DailyFrom(measured, afterLastGoodDate, 0, None)
  }

  /** What each `daily` position is, for any boundary: a non-empty cell is its mean; fill-forward happens only strictly inside (0, boundary). */
  lemma DailyCases(measured: seq<seq<Record>>, afterLastGoodDate: int, num: nat)
    requires num < |measured|
    ensures var rows := Daily(measured, afterLastGoodDate);
      && (|measured[num]| > 0 ==> rows[num] == Average(RecordValues(measured[num])))
      && (|measured[num]| == 0 && 0 < num < afterLastGoodDate ==> rows[num] == rows[num - 1])
      && (num == 0 || num >= afterLastGoodDate ==> rows[num] == Average(RecordValues(measured[num])))
  {
    var rows := Daily(measured, afterLastGoodDate);
    assert rows[num] == DailyCell(measured[num], num, afterLastGoodDate, if num == 0 then None else rows[num - 1]);
  }

  /**
   * Reference meaning of the pipeline's `daily`: the mean of the latest
   * non-empty cell at or before `num`, for positions up to the last non-empty
   * cell; absent before the first and after the last non-empty cell.
   */
  function FillForward(measured: seq<seq<Record>>, num: nat): Option<real>
    requires num < |measured|
  {
    var latest := LastNonEmpty(measured[..num + 1]);
    if 0 <= latest && num <= LastNonEmpty(measured) then Average(RecordValues(measured[latest])) else None
  }

  /** With the boundary the pipeline computes, `daily` is exactly fill-forward over the active region. */
  lemma {:induction false} DailyIsFillForward(measured: seq<seq<Record>>, num: nat)
    requires num < |measured|
    ensures Daily(measured, AfterLastGoodDate(measured))[num] == FillForward(measured, num)
  {
    var alg := AfterLastGoodDate(measured);
    var rows := Daily(measured, alg);
    DailyCases(measured, alg, num);
    FillForwardSteps(measured, num);
    if |measured[num]| > 0 || num == 0 {
    } else if num < alg {
      DailyIsFillForward(measured, num - 1);
      assert LastNonEmpty(measured) < num ==> LastNonEmpty(measured) == -1;
      if LastNonEmpty(measured) == -1 {
        FillForwardSteps(measured, num - 1);
      }
    } else {
      assert RecordValues(measured[num]) == [];
    }
  }

  /** How the reference moves along the series: it restarts at a non-empty cell and carries over an empty one. */
  lemma FillForwardSteps(measured: seq<seq<Record>>, num: nat)
    requires num < |measured|
    ensures |measured[num]| > 0 ==> FillForward(measured, num) == Average(RecordValues(measured[num]))
    ensures |measured[num]| == 0 && num == 0 ==> FillForward(measured, num) == None
    ensures |measured[num]| == 0 && 0 < num <= LastNonEmpty(measured) ==> FillForward(measured, num) == FillForward(measured, num - 1)
    ensures LastNonEmpty(measured) < num ==> FillForward(measured, num) == None
  {
    LatestUpTo(measured, num);
    var latest := LastNonEmpty(measured[..num + 1]);
    var last := LastNonEmpty(measured);
    assert FillForward(measured, num) == if 0 <= latest && num <= last then Average(RecordValues(measured[latest])) else None;
    if |measured[num]| == 0 && 0 < num <= last {
      assert FillForward(measured, num - 1) == if 0 <= latest && num - 1 <= last then Average(RecordValues(measured[latest])) else None;
    }
  }

  /** How the latest non-empty position up to `num` moves from `num - 1` to `num`. */
  lemma LatestUpTo(measured: seq<seq<Record>>, num: nat)
    requires num < |measured|
    ensures var latest := LastNonEmpty(measured[..num + 1]);
      && latest <= LastNonEmpty(measured)
      && (|measured[num]| > 0 ==> latest == num)
      && (|measured[num]| == 0 && num == 0 ==> latest == -1)
      && (|measured[num]| == 0 && 0 < num ==> latest == LastNonEmpty(measured[..num]))
  {
    var prefix := measured[..num + 1];
    assert prefix[num] == measured[num];
    assert prefix[..num] == measured[..num];
    LatestBelowLast(measured, num);
  }

  lemma LatestBelowLast(measured: seq<seq<Record>>, num: nat)
    requires num < |measured|
    ensures LastNonEmpty(measured[..num + 1]) <= LastNonEmpty(measured)
  {
    var latest := LastNonEmpty(measured[..num + 1]);
    if 0 <= latest {
      assert measured[latest] == measured[..num + 1][latest];
      assert |measured[latest]| > 0;
    }
  }

  /** Positions after the last non-empty cell are absent (average of nothing), never filled. */
  lemma DailyAbsentAfterLast(measured: seq<seq<Record>>, num: nat)
    requires LastNonEmpty(measured) < num < |measured|
    ensures Daily(measured, AfterLastGoodDate(measured))[num] == None
  {
    DailyIsFillForward(measured, num);
  }

  const RecentWindow: nat := 8

  /** `limit(n)`: at most the first n elements. */
  function Limit<T>(xs: seq<T>, n: nat): (r: seq<T>)
    ensures |r| == if |xs| <= n then |xs| else n
    ensures forall k :: 0 <= k < |r| ==> r[k] == xs[k]
  {
    if |xs| <= n then xs else xs[..n]
  }

  /** `exists()` then not `isEmpty()`: some value is present. */
  predicate AnyPresent(xs: seq<Option<real>>) {
    exists k :: 0 <= k < |xs| && xs[k].Some?
  }

  /** `mask`: the reversed daily series, limited to 8, has a present value. */
  predicate Mask(daily: seq<Option<real>>)
    ensures Mask(daily) ==> |daily| > 0
    ensures |daily| > 0 && daily[|daily| - 1].Some? ==> Mask(daily)
  {
    var recent := Limit(Reverse(daily), RecentWindow);
    assert |daily| > 0 ==> recent[0] == daily[|daily| - 1];
    AnyPresent(recent)
  }

  /** The mask is true iff one of the last min(8, n) daily values is present. */
  lemma MaskIffRecentValue(daily: seq<Option<real>>)
    ensures Mask(daily) <==> exists k :: |daily| - RecentWindow <= k < |daily| && 0 <= k && daily[k].Some?
  {
    var n := |daily|;
    var w := Limit(Reverse(daily), RecentWindow);
    if Mask(daily) {
      var j :| 0 <= j < |w| && w[j].Some?;
      ReverseAt(daily, j);
    }
    if k :| n - RecentWindow <= k < n && 0 <= k && daily[k].Some? {
      ReverseAt(daily, n - 1 - k);
      assert w[n - 1 - k] == daily[k];
    }
  }
}
