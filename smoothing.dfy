/**
 * The centred moving average of one column of the table. Day `x` (1-based) of
 * a column belongs to the window of day `i` when `x > i - w/2` and `x < i + w/2`;
 * the smoothed value of day `i` is the mean of the non-missing values in its
 * window, and missing when there are none (numpy's `nanmean`). Days before the
 * first and after the last race day simply fall out of the window, so the window
 * shrinks at both ends of the column.
 */
module Smoothing {
  import opened RaceLine

  /** `x > i - w/2 and x < i + w/2`, with both sides doubled so that it stays in integers. */
  predicate InWindow(x: int, i: int, w: int)
  {
    -w < 2 * (x - i) < w
  }

  /** The doubled comparison is the script's comparison of `x` with the real bounds `i ± w/2`. */
  lemma InWindowAsReals(x: int, i: int, w: int)
    ensures InWindow(x, i, w) <==> x as real > i as real - w as real / 2.0 && x as real < i as real + w as real / 2.0
  {
    var d := (x - i) as real;
    assert x as real - i as real == d;
    assert (2 * (x - i)) as real == 2.0 * d;
  }

  /** For a window width `w >= 1`, day `x` is in the window of day `i` when it is at most `(w - 1) / 2` days away. */
  lemma InWindowDistance(x: int, i: int, w: int)
    requires w >= 1
    ensures InWindow(x, i, w) <==> i - (w - 1) / 2 <= x <= i + (w - 1) / 2
  {
  }

  /** The sum of the non-missing values among days `1..k` that lie in the window of day `i`. */
  function WindowSum(t: seq<Cell>, i: int, w: int, k: nat): real
    requires k <= |t|
  {
    if k == 0 then 0.0
    else WindowSum(t, i, w, k - 1) + (if InWindow(k, i, w) && t[k - 1].Val? then t[k - 1].hours else 0.0)
  }

  /** How many of days `1..k` lie in the window of day `i` and have a value. */
  function WindowCount(t: seq<Cell>, i: int, w: int, k: nat): nat
    requires k <= |t|
  {
    if k == 0 then 0
    else WindowCount(t, i, w, k - 1) + (if InWindow(k, i, w) && t[k - 1].Val? then 1 else 0)
  }

  /** `np.nanmean(t[mask])` for the window of day `i`: missing when the window holds no value. */
  function NanMean(t: seq<Cell>, i: int, w: int): Cell
  {
    var count := WindowCount(t, i, w, |t|);
    if count == 0 then Missing else Val(WindowSum(t, i, w, |t|) / count as real)
  }

  /** Every day of the column inside the window of day `i` is missing. */
  predicate NoValueInWindow(t: seq<Cell>, i: int, w: int, k: nat)
    requires k <= |t|
  {
    forall x :: 1 <= x <= k && InWindow(x, i, w) ==> t[x - 1].Missing?
  }

  /** Every value of the column inside the window of day `i` lies between `lo` and `hi`. */
  predicate ValuesWithin(t: seq<Cell>, i: int, w: int, lo: real, hi: real)
  {
    forall x :: 1 <= x <= |t| && InWindow(x, i, w) && t[x - 1].Val? ==> lo <= t[x - 1].hours <= hi
  }

  lemma {:induction false} CountZeroIffNoValue(t: seq<Cell>, i: int, w: int, k: nat)
    requires k <= |t|
    ensures WindowCount(t, i, w, k) == 0 <==> NoValueInWindow(t, i, w, k)
  {
    if k > 0 {
      CountZeroIffNoValue(t, i, w, k - 1);
    }
  }

  /** The smoothed value is missing exactly when every day in the window is missing. */
  lemma NanMeanMissing(t: seq<Cell>, i: int, w: int)
    ensures NanMean(t, i, w).Missing? <==> NoValueInWindow(t, i, w, |t|)
  {
    CountZeroIffNoValue(t, i, w, |t|);
  }

  lemma {:induction false} SumWithin(t: seq<Cell>, i: int, w: int, k: nat, lo: real, hi: real)
    requires k <= |t| && ValuesWithin(t, i, w, lo, hi)
    ensures Bounded(WindowCount(t, i, w, k) as real, WindowSum(t, i, w, k), lo, hi)
  {
    if k > 0 {
      SumWithin(t, i, w, k - 1, lo, hi);
      var c, s := WindowCount(t, i, w, k - 1), WindowSum(t, i, w, k - 1);
      if InWindow(k, i, w) && t[k - 1].Val? {
        StepWithin(c as real, s, t[k - 1].hours, lo, hi);
        assert WindowCount(t, i, w, k) as real == c as real + 1.0 && WindowSum(t, i, w, k) == s + t[k - 1].hours;
      } else {
        assert WindowCount(t, i, w, k) == c && WindowSum(t, i, w, k) == s;
      }
    }
  }

  /** `s` is a sum of `c` values between `lo` and `hi`, as far as its size goes. */
  predicate Bounded(c: real, s: real, lo: real, hi: real)
  {
    c * lo <= s <= c * hi
  }

  /** Adding one value within the bounds to a sum of `c` such values keeps the sum within `c + 1` times the bounds. */
  lemma StepWithin(c: real, s: real, v: real, lo: real, hi: real)
    requires Bounded(c, s, lo, hi) && lo <= v <= hi
    ensures Bounded(c + 1.0, s + v, lo, hi)
  {
  }

  /** The smoothed value lies between the smallest and the largest value in the window. */
  lemma NanMeanWithin(t: seq<Cell>, i: int, w: int, lo: real, hi: real)
    requires ValuesWithin(t, i, w, lo, hi)
    ensures NanMean(t, i, w).Val? ==> lo <= NanMean(t, i, w).hours <= hi
  {
    var count := WindowCount(t, i, w, |t|);
    SumWithin(t, i, w, |t|, lo, hi);
    if count > 0 {
      MeanBetween(WindowSum(t, i, w, |t|), count as real, lo, hi);
    }
  }

  lemma MeanBetween(s: real, c: real, lo: real, hi: real)
    requires c > 0.0 && Bounded(c, s, lo, hi)
    ensures lo <= s / c <= hi
  {
    var m := s / c;
    assert m * c == s;
  }

  /** A window whose values all equal `v` (and that holds at least one) smooths to `v`. */
  lemma NanMeanConstant(t: seq<Cell>, i: int, w: int, v: real)
    requires ValuesWithin(t, i, w, v, v) && !NoValueInWindow(t, i, w, |t|)
    ensures NanMean(t, i, w) == Val(v)
  {
    NanMeanMissing(t, i, w);
    NanMeanWithin(t, i, w, v, v);
  }

  /** Both columns agree on every day inside the window of day `i`. */
  predicate AgreeInWindow(t: seq<Cell>, u: seq<Cell>, i: int, w: int)
    requires |t| == |u|
  {
    forall x :: 1 <= x <= |t| && InWindow(x, i, w) ==> t[x - 1] == u[x - 1]
  }

  lemma {:induction false} WindowLocal(t: seq<Cell>, u: seq<Cell>, i: int, w: int, k: nat)
    requires |t| == |u| && k <= |t| && AgreeInWindow(t, u, i, w)
    ensures WindowSum(t, i, w, k) == WindowSum(u, i, w, k) && WindowCount(t, i, w, k) == WindowCount(u, i, w, k)
  {
    if k > 0 {
      WindowLocal(t, u, i, w, k - 1);
    }
  }

  /** The smoothed value of day `i` depends on nothing outside its window. */
  lemma NanMeanLocal(t: seq<Cell>, u: seq<Cell>, i: int, w: int)
    requires |t| == |u| && AgreeInWindow(t, u, i, w)
    ensures NanMean(t, i, w) == NanMean(u, i, w)
  {
    WindowLocal(t, u, i, w, |t|);
  }

  /**
   * `np.nanmean(t[np.logical_and(x > i - w/2, x < i + w/2)])` for the days
   * `x = 1..len(t)`: one pass that adds up and counts the values under the mask.
   */
  method MaskedMean(t: seq<Cell>, i: int, w: int) returns (r: Cell)
    ensures r == NanMean(t, i, w)
    ensures r.Missing? <==> NoValueInWindow(t, i, w, |t|)
  {
    var sum, count := 0.0, 0;
    for x := 1 to |t| + 1
      invariant sum == WindowSum(t, i, w, x - 1)
      invariant count == WindowCount(t, i, w, x - 1)
    {
      if InWindow(x, i, w) && t[x - 1].Val? {
        sum := sum + t[x - 1].hours;
        count := count + 1;
      }
    }
    r := if count == 0 then Missing else Val(sum / count as real);
    NanMeanMissing(t, i, w);
  }
  /** The smoothed column: entry `k` is the moving average of day `k + 1` over the whole column. */
  function Smoothed(t: seq<Cell>, w: int): (s: seq<Cell>)
    ensures |s| == |t|
  {
    seq(|t|, k requires 0 <= k < |t| => NanMean(t, k + 1, w))
  }

  /** Each day lies in its own window, so a smoothed day is never missing when the day itself has a value. */
  lemma SmoothedKeepsValues(t: seq<Cell>, w: int, k: nat)
    requires w >= 1 && k < |t| && t[k].Val?
    ensures Smoothed(t, w)[k].Val?
  {
    assert InWindow(k + 1, k + 1, w);
    NanMeanMissing(t, k + 1, w);
  }

  /** A column whose days all hold the same value `v` is left as it is by smoothing. */
  lemma SmoothedConstant(t: seq<Cell>, w: int, v: real)
    requires w >= 1 && forall k :: 0 <= k < |t| ==> t[k] == Val(v)
    ensures Smoothed(t, w) == t
  {
    forall k | 0 <= k < |t|
      ensures Smoothed(t, w)[k] == t[k]
    {
      assert InWindow(k + 1, k + 1, w);
      NanMeanConstant(t, k + 1, w, v);
    }
  }
}
