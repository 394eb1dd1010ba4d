/** The time-weighted average `_avg` (sqlite/__init__.py:205-216). Each point
    holds its value until the next later point, the latest one until `end`:
    a right-open step function, walked backward from `end`. */
module TimeWeighted {
  import opened Points

  /** Area under the step function through the ascending points s, from
      s[0].time to end: point k weighs the gap up to its successor (or up to
      end for the last one). Ties in time give the earlier copy zero weight,
      as the source's backward walk does. */
  function StepSum(s: seq<Point>, end: int): real
  {
    if |s| == 0 then 0.0
    else
      var next := if |s| > 1 then s[1].time else end;
      (next - s[0].time) as real * s[0].val + StepSum(s[1..], end)
  }

  /** `_avg(tuples, end)`: the step-function area divided by the span from the
      earliest point to end. The span starts at 1, so no points give 0.0; a
      zero span gives the value of the least point, the last one the backward
      walk visits. */
  function Avg(pts: seq<Point>, end: int): real
  {
    AvgSorted(SortAsc(pts), end)
  }

  /** The backward walk over already sorted points. */
  function AvgSorted(s: seq<Point>, end: int): real
  {
    var span := if |s| == 0 then 1 else end - s[0].time;
    if span != 0 then StepSum(s, end) / span as real else s[0].val
  }

  lemma AvgEmpty(end: int)
    ensures Avg([], end) == 0.0
  {
  }

  /** With one value everywhere the area is that value times the span. */
  lemma {:induction false} StepSumConstant(s: seq<Point>, end: int, v: real)
    requires |s| > 0
    requires forall k :: 0 <= k < |s| ==> s[k].val == v
    ensures StepSum(s, end) == v * (end - s[0].time) as real
  {
    if |s| > 1 {
      StepSumConstant(s[1..], end, v);
      assert StepSum(s, end) == (s[1].time - s[0].time) as real * v + v * (end - s[1].time) as real;
    }
  }

  /** All-equal values average to that value, whatever the times and end. */
  lemma AvgConstant(pts: seq<Point>, end: int, v: real)
    requires |pts| > 0
    requires forall k :: 0 <= k < |pts| ==> pts[k].val == v
    ensures Avg(pts, end) == v
  {
    var s := SortAsc(pts);
    forall k | 0 <= k < |s|
      ensures s[k].val == v
    {
      SortMembers(pts, k);
    }
    StepSumConstant(s, end, v);
    var span := end - s[0].time;
    if span != 0 {
      assert v * span as real / span as real == v;
    }
  }

  /** A single point averages to its own value, whether or not its time is end. */
  lemma AvgSingle(p: Point, end: int)
    ensures Avg([p], end) == p.val
  {
    AvgConstant([p], end, p.val);
  }

  /** One step of the bound: a non-negative weight on a value in [lo, hi]
      plus a remainder already bounded by lo and hi times its span. */
  lemma CombineBounds(w: real, v: real, rest: real, r: real, lo: real, hi: real, span: real)
    requires 0.0 <= w && lo <= v <= hi && span == w + rest
    requires lo * rest <= r <= hi * rest
    ensures lo * span <= w * v + r <= hi * span
  {
    assert w * lo <= w * v <= w * hi;
  }

  /** With every time at or before end and every value in [lo, hi], the area
      lies between lo and hi times the span. */
  lemma {:induction false} StepSumBounds(s: seq<Point>, end: int, lo: real, hi: real)
    requires |s| > 0 && SortedAsc(s)
    requires forall k :: 0 <= k < |s| ==> s[k].time <= end && lo <= s[k].val <= hi
    ensures lo * (end - s[0].time) as real <= StepSum(s, end) <= hi * (end - s[0].time) as real
  {
    var next := if |s| > 1 then s[1].time else end;
    var w := (next - s[0].time) as real;
    var rest := (end - next) as real;
    var span := (end - s[0].time) as real;
    var r := StepSum(s[1..], end);
    assert 0.0 <= w by { if |s| > 1 { assert Le(s[0], s[1]); } }
    assert StepSum(s, end) == w * s[0].val + r;
    if |s| > 1 {
      StepSumBounds(s[1..], end, lo, hi);
    }
    assert lo * rest <= r <= hi * rest;
    CombineBounds(w, s[0].val, rest, r, lo, hi, span);
  }

  lemma DivBounds(a: real, span: real, lo: real, hi: real)
    requires 0.0 < span
    requires lo * span <= a <= hi * span
    ensures lo <= a / span <= hi
  {
  }

  /** Every point of the sorted copy keeps the bounds of the original. */
  lemma SortKeepsBounds(pts: seq<Point>, end: int, lo: real, hi: real)
    requires forall k :: 0 <= k < |pts| ==> pts[k].time <= end && lo <= pts[k].val <= hi
    ensures forall k :: 0 <= k < |SortAsc(pts)| ==> SortAsc(pts)[k].time <= end && lo <= SortAsc(pts)[k].val <= hi
  {
    var s := SortAsc(pts);
    forall k | 0 <= k < |s|
      ensures s[k].time <= end && lo <= s[k].val <= hi
    {
      SortMembers(pts, k);
      var j :| 0 <= j < |pts| && pts[j] == s[k];
    }
  }

  lemma AvgSortedBounded(s: seq<Point>, end: int, lo: real, hi: real)
    requires |s| > 0 && SortedAsc(s)
    requires forall k :: 0 <= k < |s| ==> s[k].time <= end && lo <= s[k].val <= hi
    ensures lo <= AvgSorted(s, end) <= hi
  {
    StepSumBounds(s, end, lo, hi);
    var span := end - s[0].time;
    if span != 0 {
      DivBounds(StepSum(s, end), span as real, lo, hi);
    }
  }

  /** When no point is later than end, the average lies between the least and
      the greatest value. */
  lemma AvgBounded(pts: seq<Point>, end: int, lo: real, hi: real)
    requires |pts| > 0
    requires forall k :: 0 <= k < |pts| ==> pts[k].time <= end && lo <= pts[k].val <= hi
    ensures lo <= Avg(pts, end) <= hi
  {
    SortKeepsBounds(pts, end, lo, hi);
    AvgSortedBounded(SortAsc(pts), end, lo, hi);
  }

  /** The average depends only on which points there are, not their order. */
  lemma AvgPermutation(a: seq<Point>, b: seq<Point>, end: int)
    requires multiset(a) == multiset(b)
    ensures Avg(a, end) == Avg(b, end)
  {
    SortPermutation(a, b);
  }

  /** (0, 10) and (5, 20) up to end 10: each value holds for 5 ms, giving 15. */
  lemma AvgTwoPoints()
    ensures Avg([Point(0, 10.0), Point(5, 20.0)], 10) == 15.0
  {
    var s := [Point(0, 10.0), Point(5, 20.0)];
    assert SortedAsc(s);
    SortedUnique(SortAsc(s), s);
    assert StepSum(s[1..], 10) == 100.0;
    assert StepSum(s, 10) == 150.0;
  }
}
