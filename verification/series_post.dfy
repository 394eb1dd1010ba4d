/** The per-group post-processing of a series (`_avg_ser`, `_diff_ser`,
    `_rate_ser`, sqlite/__init__.py:221-266) and the closing steps of
    `_series` (sqlite/__init__.py:279-283, 314-319). A group is the list of
    `(time, value)` pairs one `GROUP BY` bucket concatenates. */
module SeriesPost {
  import opened Wrappers
  import opened Numeric
  import opened Points
  import opened TimeWeighted
  import opened Aggregates

  /** SQL never returns an empty group. */
  predicate Groups(gs: seq<seq<Point>>) {
    forall i :: 0 <= i < |gs| ==> |gs[i]| > 0
  }

  /** `sorted(tpls)[0][0]`: the earliest time of a group. */
  function First(g: seq<Point>): (m: int)
    requires |g| > 0
    ensures forall k :: 0 <= k < |g| ==> m <= g[k].time
    ensures exists k :: 0 <= k < |g| && m == g[k].time
  {
    var s := SortAsc(g);
    assert forall k :: 0 <= k < |g| ==> Le(s[0], g[k]) by {
      forall k | 0 <= k < |g|
        ensures Le(s[0], g[k])
      {
        assert g[k] in multiset(s);
        HeadIsLeast(s, g[k]);
      }
    }
    SortMembers(g, 0);
    s[0].time
  }

  function Vals(g: seq<Point>): seq<real> {
    seq(|g|, k requires 0 <= k < |g| => g[k].val)
  }

  /** `_avg_ser(tuples, end)`: one point per group, at the group's earliest
      time, holding its time-weighted average up to the earliest time of the
      group before it (up to `end` for the first group). */
  function AvgSer(gs: seq<seq<Point>>, end: int): (r: seq<Point>)
    requires Groups(gs)
    ensures |r| == |gs|
  {
    if |gs| == 0 then []
    else [Point(First(gs[0]), Avg(gs[0], end))] + AvgSer(gs[1..], First(gs[0]))
  }

  /** The end the average of group `k` is taken to. */
  function EndOf(gs: seq<seq<Point>>, end: int, k: int): int
    requires Groups(gs) && 0 <= k < |gs|
  {
    if k == 0 then end else First(gs[k - 1])
  }

  /** Point `k` of the averaged series, stated group by group. */
  lemma {:induction false} AvgSerPoint(gs: seq<seq<Point>>, end: int, k: int)
    requires Groups(gs) && 0 <= k < |gs|
    ensures AvgSer(gs, end)[k] == Point(First(gs[k]), Avg(gs[k], EndOf(gs, end, k)))
  {
    if k > 0 {
      var rest := gs[1..];
      assert Groups(rest);
      AvgSerPoint(rest, First(gs[0]), k - 1);
      assert AvgSer(gs, end)[k] == AvgSer(rest, First(gs[0]))[k - 1];
      assert rest[k - 1] == gs[k];
      assert EndOf(rest, First(gs[0]), k - 1) == EndOf(gs, end, k) by {
        if k >= 2 {
          assert rest[k - 2] == gs[k - 1];
        }
      }
    }
  }

  /** When no group reaches past the end it is averaged to (the reply is
      newest first), every averaged value lies between its group's smallest
      and largest value. */
  lemma AvgSerBounded(gs: seq<seq<Point>>, end: int)
    requires Groups(gs)
    requires forall k, j :: 0 <= k < |gs| && 0 <= j < |gs[k]| ==> gs[k][j].time <= EndOf(gs, end, k)
    ensures forall k :: 0 <= k < |gs| ==> MinOf(Vals(gs[k])) <= AvgSer(gs, end)[k].val <= MaxOf(Vals(gs[k]))
  {
    forall k | 0 <= k < |gs|
      ensures MinOf(Vals(gs[k])) <= AvgSer(gs, end)[k].val <= MaxOf(Vals(gs[k]))
    {
      AvgSerPoint(gs, end, k);
      var g := gs[k];
      var lo, hi := MinOf(Vals(g)), MaxOf(Vals(g));
      forall j | 0 <= j < |g|
        ensures g[j].time <= EndOf(gs, end, k) && lo <= g[j].val <= hi
      {
        assert Vals(g)[j] == g[j].val;
      }
      AvgBounded(g, EndOf(gs, end, k), lo, hi);
    }
  }

  /** `_diff_ser`: for each group after the first, the first value of the
      group before it minus its own first value, at its first time. */
  function DiffSer(gs: seq<seq<Point>>): (r: seq<Point>)
    requires Groups(gs)
    ensures |r| == if |gs| == 0 then 0 else |gs| - 1
  {
    if |gs| < 2 then []
    else [Point(gs[1][0].time, gs[0][0].val - gs[1][0].val)] + DiffSer(gs[1..])
  }

  lemma {:induction false} DiffSerPoints(gs: seq<seq<Point>>)
    requires Groups(gs)
    ensures forall k :: 0 <= k < |gs| - 1 ==> DiffSer(gs)[k] == Point(gs[k + 1][0].time, gs[k][0].val - gs[k + 1][0].val)
  {
    if |gs| >= 2 {
      DiffSerPoints(gs[1..]);
      assert forall k :: 0 <= k < |gs| - 1 ==> gs[1..][k] == gs[k + 1];
    }
  }

  /** The differences telescope: together they are the first group's first
      value minus the last group's first value. */
  lemma {:induction false} DiffSerTelescopes(gs: seq<seq<Point>>)
    requires Groups(gs) && |gs| > 0
    ensures SumOf(Vals(DiffSer(gs))) == gs[0][0].val - gs[|gs| - 1][0].val
  {
    if |gs| >= 2 {
      DiffSerTelescopes(gs[1..]);
      var d := DiffSer(gs);
      assert Vals(d) == [d[0].val] + Vals(DiffSer(gs[1..]));
    }
  }

  /** `ratio * (prev_val - val) / (prev_time - time)` with `ratio` already
      scaled by 1000: the change per second, times the caller's ratio. */
  function Rate(prev: Point, p: Point, ratio: real): real
    requires prev.time != p.time
  {
    ratio * 1000.0 * (prev.val - p.val) / (prev.time - p.time) as real
  }

  /** `_rate_ser`: for each group after the first, the rate between the first
      points of the group before it and of itself; equal first times raise
      `ZeroDivisionError` at the first pair that has them. */
  function RateSer(gs: seq<seq<Point>>, ratio: real): (r: Result<seq<Point>>)
    requires Groups(gs)
  {
    if |gs| < 2 then Ok([])
    else if gs[0][0].time == gs[1][0].time then Raised("ZeroDivisionError")
    else
      match RateSer(gs[1..], ratio)
      case Raised(e) => Raised(e)
      case Ok(rest) => Ok([Point(gs[1][0].time, Rate(gs[0][0], gs[1][0], ratio))] + rest)
  }

  /** No two neighbouring groups start at the same time. */
  predicate DistinctStarts(gs: seq<seq<Point>>)
    requires Groups(gs)
  {
    forall k :: 0 <= k < |gs| - 1 ==> gs[k][0].time != gs[k + 1][0].time
  }

  /** The rate series succeeds exactly when neighbouring groups start at
      different times, and then holds one rate per group after the first. */
  lemma {:induction false} RateSerPoints(gs: seq<seq<Point>>, ratio: real)
    requires Groups(gs)
    ensures RateSer(gs, ratio).Ok? <==> DistinctStarts(gs)
    ensures RateSer(gs, ratio).Ok? ==>
      && |RateSer(gs, ratio).value| == (if |gs| == 0 then 0 else |gs| - 1)
      && forall k :: 0 <= k < |gs| - 1 ==>
           RateSer(gs, ratio).value[k] == Point(gs[k + 1][0].time, Rate(gs[k][0], gs[k + 1][0], ratio))
  {
    if |gs| >= 2 {
      var rest := gs[1..];
      RateSerPoints(rest, ratio);
      assert forall k :: 0 <= k < |gs| - 1 ==> rest[k] == gs[k + 1];
      if gs[0][0].time != gs[1][0].time && DistinctStarts(rest) {
        assert DistinctStarts(gs);
      }
    }
  }

  /** A counter that rises by 10 in one second has a rate of 10 per second. */
  lemma RateExample()
    ensures RateSer([[Point(0, 10.0)], [Point(1000, 20.0)]], 1.0) == Ok([Point(1000, 10.0)])
  {
    var gs: seq<seq<Point>> := [[Point(0, 10.0)], [Point(1000, 20.0)]];
    assert gs[1..] == [[Point(1000, 20.0)]];
    assert RateSer(gs[1..], 1.0) == Ok([]);
    assert Rate(gs[0][0], gs[1][0], 1.0) == 10.0 by {
      assert 1000.0 * (10.0 - 20.0) == -10000.0;
      assert -10000.0 / -1000.0 == 10.0;
    }
    assert RateSer(gs, 1.0) == Ok([Point(1000, Rate(gs[0][0], gs[1][0], 1.0))] + []);
    assert [Point(1000, Rate(gs[0][0], gs[1][0], 1.0))] + [] == [Point(1000, 10.0)];
  }

  /** `[(istart, v) if first == t else (t, v) ...]`: the point at the left
      edge `first` is moved to the requested start. */
  function Relabel(pts: seq<Point>, first: int, start: int): (r: seq<Point>)
    ensures |r| == |pts|
    ensures forall k :: 0 <= k < |r| ==> r[k].val == pts[k].val
    ensures first != start ==> forall k :: 0 <= k < |r| ==> r[k].time != first
  {
    seq(|pts|, k requires 0 <= k < |pts| => if pts[k].time == first then Point(start, pts[k].val) else pts[k])
  }

  /** Only points at `first` move; relabelling twice is relabelling once. */
  lemma RelabelKeepsOthers(pts: seq<Point>, first: int, start: int)
    ensures forall k :: 0 <= k < |pts| && pts[k].time != first ==> Relabel(pts, first, start)[k] == pts[k]
    ensures Relabel(Relabel(pts, first, start), first, start) == Relabel(pts, first, start)
  {
  }

  /** The closing steps of `_series`: sort, append the end point carrying the
      value of the last sorted point, and on an update drop the first point.
      An empty list raises `IndexError` at `tuples[-1]`. */
  function Close(pts: seq<Point>, end: int, update: bool): Result<seq<Point>> {
    var s := SortAsc(pts);
    if |s| == 0 then Raised("IndexError")
    else
      var closed := s + [Point(end, s[|s| - 1].val)];
      Ok(if update then closed[1..] else closed)
  }

  /** Closing succeeds exactly on a non-empty list, and an update drops
      exactly the first point of the full series. */
  lemma CloseOk(pts: seq<Point>, end: int, update: bool)
    ensures Close(pts, end, update).Ok? <==> |pts| > 0
    ensures |pts| > 0 ==> Close(pts, end, true).value == Close(pts, end, false).value[1..]
  {
  }

  /** The full closed series holds the points in ascending order followed by
      the end point. */
  lemma CloseSorted(pts: seq<Point>, end: int)
    requires |pts| > 0
    ensures |Close(pts, end, false).value| == |pts| + 1
    ensures SortedAsc(Close(pts, end, false).value[..|pts|])
    ensures multiset(Close(pts, end, false).value[..|pts|]) == multiset(pts)
    ensures Close(pts, end, false).value[|pts|].time == end
  {
    var s := SortAsc(pts);
    assert Close(pts, end, false).value[..|pts|] == s;
  }

  /** The end point carries the value of the greatest point. */
  lemma CloseLast(pts: seq<Point>, end: int)
    requires |pts| > 0
    ensures var v := Close(pts, end, false).value[|pts|].val;
      exists k :: 0 <= k < |pts| && v == pts[k].val && forall j :: 0 <= j < |pts| ==> Le(pts[j], pts[k])
  {
    var s := SortAsc(pts);
    var last := s[|s| - 1];
    SortMembers(pts, |s| - 1);
    var k :| 0 <= k < |pts| && pts[k] == last;
    forall j | 0 <= j < |pts|
      ensures Le(pts[j], pts[k])
    {
      assert pts[j] in multiset(s);
      var i :| 0 <= i < |s| && s[i] == pts[j];
    }
  }

  /** Every value of a closed series is the value of one of its points. */
  lemma CloseValues(pts: seq<Point>, end: int, update: bool)
    requires Close(pts, end, update).Ok?
    ensures forall k :: 0 <= k < |Close(pts, end, update).value| ==>
      exists j :: 0 <= j < |pts| && Close(pts, end, update).value[k].val == pts[j].val
  {
    var s := SortAsc(pts);
    var r := Close(pts, end, update).value;
    forall k | 0 <= k < |r|
      ensures exists j :: 0 <= j < |pts| && r[k].val == pts[j].val
    {
      var i := if update then k + 1 else k;
      if i < |s| {
        assert r[k] == s[i];
        SortMembers(pts, i);
      } else {
        assert r[k].val == s[|s| - 1].val;
        SortMembers(pts, |s| - 1);
      }
    }
  }

  /** `(iend - istart) / count` in Python 2 (floor division), or the whole
      span when `count` is 0; a step given by the caller is used as it is. */
  function StepWidth(step: Option<int>, start: int, end: int, count: int): (r: int)
    ensures step.Some? ==> r == step.value
    ensures step.None? && count > 0 ==> r * count <= end - start < r * count + count
    ensures step.None? && count < 0 ==> r * count >= end - start > r * count + count
    ensures step.None? && count == 0 ==> r == end - start
  {
    if step.Some? then step.value
    else if count != 0 then FloorDiv(end - start, count)
    else end - start
  }

  /** A day split into the default 100 steps gives steps of 864 seconds; a
      span shorter than the count rounds down to 0, or to -1 when negative. */
  lemma StepWidthExamples()
    ensures StepWidth(None, 0, 86400000, 100) == 864000
    ensures StepWidth(None, 0, 99, 100) == 0
    ensures StepWidth(None, 0, -1, 100) == -1
  {
  }
}
