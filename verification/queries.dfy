/** The read side of the history: `_single` and `_series`
    (sqlite/__init__.py:268-352). A query looks at the rows of one item in a
    window that starts at the newest row at or before the requested start, so
    that the value in force at the start is counted. */
module Queries {
  import opened Wrappers
  import opened Points
  import opened TimeWeighted
  import opened Aggregates
  import opened History
  import opened Grouping
  import opened TimeFrames
  import opened SeriesPost

  /** The time of the row `... WHERE item AND time <= start ORDER BY time DESC
      LIMIT 1` finds, if there is one. */
  function NewestAtOrBefore(t: seq<Entry>, item: string, start: int): (r: Option<int>)
    ensures r.None? <==> forall k :: 0 <= k < |t| ==> !(t[k].row.item == item && t[k].row.time <= start)
    ensures r.Some? ==> r.value <= start && exists k :: 0 <= k < |t| && t[k].row.item == item && t[k].row.time == r.value
    ensures r.Some? ==> forall k :: 0 <= k < |t| && t[k].row.item == item && t[k].row.time <= start ==> t[k].row.time <= r.value
  {
    if |t| == 0 then None
    else
      var rest := NewestAtOrBefore(t[1..], item, start);
      assert forall k :: 1 <= k < |t| ==> t[k] == t[1..][k - 1];
      if t[0].row.item == item && t[0].row.time <= start && (rest.None? || rest.value < t[0].row.time) then
        Some(t[0].row.time)
      else
        assert rest.Some? ==> exists k :: 1 <= k < |t| && t[k].row.item == item && t[k].row.time == rest.value by {
          if rest.Some? {
            var j :| 0 <= j < |t[1..]| && t[1..][j].row.item == item && t[1..][j].row.time == rest.value;
            assert t[j + 1] == t[1..][j];
          }
        }
        rest
  }

  /** `first`: the newest time of the item at or before `start`, or `start`
      itself when the item has no such row. */
  function LeftEdge(t: seq<Entry>, item: string, start: int): (r: int)
    ensures r <= start
    ensures forall k :: 0 <= k < |t| && t[k].row.item == item && t[k].row.time <= start ==> t[k].row.time <= r
    ensures r == start || exists k :: 0 <= k < |t| && t[k].row.item == item && t[k].row.time == r
  {
    match NewestAtOrBefore(t, item, start)
    case None => start
    case Some(x) => x
  }

  /** The rows a query reads: the item's rows from the left edge up to `end`,
      excluded by `_single` and included by `_series`. */
  function Window(t: seq<Entry>, item: string, start: int, end: int, inclusive: bool): Where {
    Where(Some(item), Some(LeftEdge(t, item, start)), end, inclusive)
  }

  const SingleFuncs: set<string> := {"avg", "min", "max", "sum"}

  /** `_single` once both bounds are times. */
  function SingleAt(t: seq<Entry>, func: string, item: string, start: int, end: int): Option<real> {
    var first := LeftEdge(t, item, start);
    var rows := Select(t, Window(t, item, start, end, false));
    if func == "avg" then Some(Avg(Relabel(Project(rows, Vavg), first, start), end))
    else if func !in SingleFuncs then None
    // `MIN`, `MAX` and `SUM` over no rows are NULL.
    else if |rows| == 0 then None
    else if func == "min" then Some(MinOf(Vmins(rows)))
    else if func == "max" then Some(MaxOf(Vmaxs(rows)))
    else Some(SumOf(Vsums(rows)))
  }

  /** `_single(func, start, end, item)` at the current time `now`. Both frames
      are resolved first, and the empty text raises there. A start that is
      left as text makes the left-edge query invalid SQL, and `fetchone` on
      its `None` raises. An unknown function returns nothing before the
      window query, which an end left as text breaks the same way. */
  function Single(t: seq<Entry>, func: string, start: string, end: string, item: string, now: int): Result<Option<real>> {
    match GetTimestamp(start, now)
    case Raised(x) => Raised(x)
    case Ok(s) =>
      match GetTimestamp(end, now)
      case Raised(x) => Raised(x)
      case Ok(e) =>
        if s.Unresolved? then Raised("AttributeError")
        else if func !in SingleFuncs then Ok(None)
        else if e.Unresolved? then Raised("AttributeError")
        else Ok(SingleAt(t, func, item, s.ms, e.ms))
  }

  /** Every selected row is a table row the clause matches, and back. */
  lemma SelectIndex(t: seq<Entry>, w: Where, j: int)
    requires 0 <= j < |Select(t, w)|
    ensures exists k :: 0 <= k < |t| && t[k] == Select(t, w)[j] && Matches(w, t[k].row)
  {
    assert Select(t, w)[j] in Select(t, w);
  }

  lemma SelectHas(t: seq<Entry>, w: Where, k: int)
    requires 0 <= k < |t| && Matches(w, t[k].row)
    ensures exists j :: 0 <= j < |Select(t, w)| && Select(t, w)[j] == t[k]
  {
    assert t[k] in Select(t, w);
  }

  /** `_single("min")`: nothing when the window is empty, otherwise the least
      `vmin` of the window's rows. */
  lemma SingleMin(t: seq<Entry>, item: string, start: int, end: int)
    ensures var w := Window(t, item, start, end, false);
      var r := SingleAt(t, "min", item, start, end);
      && (r.None? <==> forall k :: 0 <= k < |t| ==> !Matches(w, t[k].row))
      && (r.Some? ==> forall k :: 0 <= k < |t| && Matches(w, t[k].row) ==> r.value <= t[k].row.vmin)
      && (r.Some? ==> exists k :: 0 <= k < |t| && Matches(w, t[k].row) && r.value == t[k].row.vmin)
  {
    var w := Window(t, item, start, end, false);
    var rows := Select(t, w);
    if |rows| == 0 {
      forall k | 0 <= k < |t|
        ensures !Matches(w, t[k].row)
      {
        if Matches(w, t[k].row) {
          SelectHas(t, w, k);
        }
      }
    } else {
      var m := MinOf(Vmins(rows));
      SelectIndex(t, w, 0);
      forall k | 0 <= k < |t| && Matches(w, t[k].row)
        ensures m <= t[k].row.vmin
      {
        SelectHas(t, w, k);
        var j :| 0 <= j < |rows| && rows[j] == t[k];
        assert Vmins(rows)[j] == t[k].row.vmin;
      }
      var j :| 0 <= j < |rows| && m == Vmins(rows)[j];
      SelectIndex(t, w, j);
    }
  }

  /** `_single("max")`: nothing when the window is empty, otherwise the
      greatest `vmax` of the window's rows. */
  lemma SingleMax(t: seq<Entry>, item: string, start: int, end: int)
    ensures var w := Window(t, item, start, end, false);
      var r := SingleAt(t, "max", item, start, end);
      && (r.None? <==> forall k :: 0 <= k < |t| ==> !Matches(w, t[k].row))
      && (r.Some? ==> forall k :: 0 <= k < |t| && Matches(w, t[k].row) ==> t[k].row.vmax <= r.value)
      && (r.Some? ==> exists k :: 0 <= k < |t| && Matches(w, t[k].row) && r.value == t[k].row.vmax)
  {
    var w := Window(t, item, start, end, false);
    var rows := Select(t, w);
    if |rows| == 0 {
      forall k | 0 <= k < |t|
        ensures !Matches(w, t[k].row)
      {
        if Matches(w, t[k].row) {
          SelectHas(t, w, k);
        }
      }
    } else {
      var m := MaxOf(Vmaxs(rows));
      SelectIndex(t, w, 0);
      forall k | 0 <= k < |t| && Matches(w, t[k].row)
        ensures t[k].row.vmax <= m
      {
        SelectHas(t, w, k);
        var j :| 0 <= j < |rows| && rows[j] == t[k];
        assert Vmaxs(rows)[j] == t[k].row.vmax;
      }
      var j :| 0 <= j < |rows| && m == Vmaxs(rows)[j];
      SelectIndex(t, w, j);
    }
  }

  lemma {:induction false} SelectAppend(a: seq<Entry>, b: seq<Entry>, w: Where)
    ensures Select(a + b, w) == Select(a, w) + Select(b, w)
    decreases |a|
  {
    if |a| == 0 {
      assert a + b == b;
    } else {
      assert (a + b)[1..] == a[1..] + b;
      SelectAppend(a[1..], b, w);
    }
  }


  /** The total `vsum` of the rows a clause matches, summed over the table
      directly rather than over the selection. */
  function MatchSum(t: seq<Entry>, w: Where): real {
    if |t| == 0 then 0.0
    else (if Matches(w, t[0].row) then t[0].row.vsum else 0.0) + MatchSum(t[1..], w)
  }

  /** `SUM(vsum)` over a selection is the matching rows' total. */
  lemma {:induction false} SelectSum(t: seq<Entry>, w: Where)
    ensures SumOf(Vsums(Select(t, w))) == MatchSum(t, w)
  {
    if |t| > 0 {
      SelectSum(t[1..], w);
      if Matches(w, t[0].row) {
        VsumsAppend([t[0]], Select(t[1..], w));
        assert Vsums([t[0]] + Select(t[1..], w))[1..] == Vsums(Select(t[1..], w));
      }
    }
  }

  /** `_single("sum")`: nothing when the window is empty, otherwise the total
      `vsum` of the window's rows. */
  lemma SingleSum(t: seq<Entry>, item: string, start: int, end: int)
    ensures var w := Window(t, item, start, end, false);
      var r := SingleAt(t, "sum", item, start, end);
      && (r.None? <==> forall k :: 0 <= k < |t| ==> !Matches(w, t[k].row))
      && (r.Some? ==> r.value == MatchSum(t, w))
  {
    var w := Window(t, item, start, end, false);
    var rows := Select(t, w);
    SumWindow(t, item, start, end);
    if |rows| == 0 {
      forall k | 0 <= k < |t|
        ensures !Matches(w, t[k].row)
      {
        if Matches(w, t[k].row) {
          SelectHas(t, w, k);
        }
      }
    } else {
      SelectIndex(t, w, 0);
      SelectSum(t, w);
    }
  }

  /** Rows appended with none of the item at or before `start` leave the
      left-edge query's answer unchanged. */
  lemma NewestAppend(a: seq<Entry>, b: seq<Entry>, item: string, start: int)
    requires forall k :: 0 <= k < |b| ==> !(b[k].row.item == item && b[k].row.time <= start)
    ensures NewestAtOrBefore(a + b, item, start) == NewestAtOrBefore(a, item, start)
  {
    var ab := a + b;
    var r0 := NewestAtOrBefore(a, item, start);
    var r1 := NewestAtOrBefore(ab, item, start);
    if r0.Some? {
      var k :| 0 <= k < |a| && a[k].row.item == item && a[k].row.time == r0.value;
      assert ab[k] == a[k];
      assert r1.Some? && r0.value <= r1.value;
    }
    if r1.Some? {
      var k :| 0 <= k < |ab| && ab[k].row.item == item && ab[k].row.time == r1.value;
      assert forall j :: |a| <= j < |ab| ==> ab[j] == b[j - |a|];
      assert k < |a|;
      assert ab[k] == a[k];
      assert r0.Some? && r1.value <= r0.value;
    }
    assert r0.None? <==> r1.None?;
    assert r0.Some? ==> r0.value == r1.value;
  }

  /** `SUM(vsum)` adds up over appends: rows appended with none of the item at
      or before `start` keep the window, and the table's window sum is the old
      rows' sum plus the new rows'. */
  lemma SingleSumAppend(a: seq<Entry>, b: seq<Entry>, item: string, start: int, end: int)
    requires forall k :: 0 <= k < |b| ==> !(b[k].row.item == item && b[k].row.time <= start)
    ensures Window(a + b, item, start, end, false) == Window(a, item, start, end, false)
    ensures var w := Window(a, item, start, end, false);
      var r := SingleAt(a + b, "sum", item, start, end);
      && (r.Some? ==> r.value == MatchSum(a, w) + MatchSum(b, w))
      && (SingleAt(a, "sum", item, start, end).Some? ==>
            r.Some? && r.value == SingleAt(a, "sum", item, start, end).value + MatchSum(b, w))
  {
    NewestAppend(a, b, item, start);
    var w := Window(a, item, start, end, false);
    SumWindow(a + b, item, start, end);
    SumWindow(a, item, start, end);
    SelectAppend(a, b, w);
    VsumsAppend(Select(a, w), Select(b, w));
    SumOfAppend(Vsums(Select(a, w)), Vsums(Select(b, w)));
    SelectSum(a, w);
    SelectSum(b, w);
  }

  lemma SumWindow(t: seq<Entry>, item: string, start: int, end: int)
    ensures var rows := Select(t, Window(t, item, start, end, false));
      SingleAt(t, "sum", item, start, end) == if |rows| == 0 then None else Some(SumOf(Vsums(rows)))
  {
  }

  /** Outside the four functions `_single` answers nothing. */
  lemma SingleUnknown(t: seq<Entry>, func: string, item: string, start: int, end: int)
    requires func !in SingleFuncs
    ensures SingleAt(t, func, item, start, end).None?
  {
  }

  /** `_single("avg")` always answers; over an empty window the average is 0.0. */
  lemma SingleAvgEmpty(t: seq<Entry>, item: string, start: int, end: int)
    requires forall k :: 0 <= k < |t| ==> !Matches(Window(t, item, start, end, false), t[k].row)
    ensures SingleAt(t, "avg", item, start, end) == Some(0.0)
  {
    var rows := Select(t, Window(t, item, start, end, false));
    if |rows| > 0 {
      SelectIndex(t, Window(t, item, start, end, false), 0);
    }
    assert Relabel(Project(rows, Vavg), LeftEdge(t, item, start), start) == [];
    AvgEmpty(end);
  }

  /** `_single("avg")` over a window whose `vavg` values lie between lo and hi
      lies between them too: the value in force at the start is moved to the
      start, and every later row is before the end. */
  lemma SingleAvgBounded(t: seq<Entry>, item: string, start: int, end: int, lo: real, hi: real)
    requires start <= end
    requires forall k :: 0 <= k < |t| && Matches(Window(t, item, start, end, false), t[k].row) ==>
      lo <= t[k].row.vavg <= hi
    requires exists k :: 0 <= k < |t| && Matches(Window(t, item, start, end, false), t[k].row)
    ensures lo <= SingleAt(t, "avg", item, start, end).value <= hi
  {
    var w := Window(t, item, start, end, false);
    var first := LeftEdge(t, item, start);
    var rows := Select(t, w);
    var k0 :| 0 <= k0 < |t| && Matches(w, t[k0].row);
    SelectHas(t, w, k0);
    var pts := Relabel(Project(rows, Vavg), first, start);
    forall j | 0 <= j < |pts|
      ensures pts[j].time <= end && lo <= pts[j].val <= hi
    {
      SelectIndex(t, w, j);
      assert Project(rows, Vavg)[j].val == rows[j].row.vavg;
    }
    AvgBounded(pts, end, lo, hi);
  }

  /** Whole numbers of milliseconds are taken as times: `_single` with
      numeric bounds is the query at those times. */
  lemma SingleAtNumbers(t: seq<Entry>, func: string, a: nat, b: nat, item: string, now: int)
    ensures Single(t, func, NatToString(a), NatToString(b), item, now) ==
      if func in SingleFuncs then Ok(SingleAt(t, func, item, a, b)) else Ok(None)
  {
    NatFrameRoundTrip(a, now);
    NatFrameRoundTrip(b, now);
  }

  /** An empty frame raises, whichever it is. */
  lemma SingleEmptyFrame(t: seq<Entry>, func: string, frame: string, item: string, now: int)
    ensures Single(t, func, "", frame, item, now).Raised?
    ensures Single(t, func, frame, "", item, now).Raised?
  {
  }

  // ------------------------------------------------------------------
  // Series

  /** What `_series` replies with: no series (`'series': None`), the closed
      list of points, or for `diff-ser` and `rate-ser` the concatenated
      groups as SQLite returned them, left uninterpreted. Each non-empty reply
      carries its step. */
  datatype SeriesReply =
    | NoSeries
    | Closed(points: seq<Point>, step: int)
    | Raw(groups: seq<seq<Entry>>, step: int)

  const SeriesFuncs: set<string> := {"avg", "diff-ser", "rate-ser", "rate", "min", "max", "sum"}

  /** A reply SQLite may give to the series query of `func`: the groups of
      the inclusive window by step bucket, newest group first for `avg` and
      oldest first for the concatenating ones. */
  ghost predicate SeriesReplyFor(t: seq<Entry>, func: string, item: string, start: int, end: int,
                                 width: int, gs: seq<seq<Entry>>) {
    && IsReply(Select(t, Window(t, item, start, end, true)), width, gs)
    && (func == "avg" ==> NewestFirst(gs))
    && (func == "rate" || func == "diff-ser" || func == "rate-ser" ==> OldestFirst(gs))
  }

  /** One column of each group, as `(time, value)` points. */
  function Columns(gs: seq<seq<Entry>>, c: Column): (r: seq<seq<Point>>)
    requires NonEmpty(gs)
    ensures |r| == |gs| && Groups(r)
    ensures forall i :: 0 <= i < |gs| ==> r[i] == Project(gs[i], c)
  {
    seq(|gs|, i requires 0 <= i < |gs| => Project(gs[i], c))
  }

  /** `SELECT MIN(time), MIN(vmin)` (or `MAX(vmax)`, `SUM(vsum)`) per group. */
  function Reduced(gs: seq<seq<Entry>>, func: string): (r: seq<Point>)
    requires NonEmpty(gs)
    ensures |r| == |gs|
  {
    seq(|gs|, i requires 0 <= i < |gs| =>
      Point(MinTime(gs[i]),
            if func == "min" then MinOf(Vmins(gs[i]))
            else if func == "max" then MaxOf(Vmaxs(gs[i]))
            else SumOf(Vsums(gs[i]))))
  }

  /** The per-group step of `_series` for `avg`, `rate`, `min`, `max` and `sum`. */
  function PerGroup(gs: seq<seq<Entry>>, func: string, end: int, ratio: real): Result<seq<Point>>
    requires NonEmpty(gs)
  {
    if func == "avg" then Ok(AvgSer(Columns(gs, Vavg), end))
    else if func == "rate" then RateSer(Columns(gs, Val), ratio)
    else Ok(Reduced(gs, func))
  }

  /** `_series` once both bounds are times, given the reply `gs` of its
      grouped query. */
  function SeriesAt(t: seq<Entry>, func: string, item: string, start: int, end: int, count: int,
                    ratio: real, update: bool, step: Option<int>, gs: seq<seq<Entry>>): Result<SeriesReply>
    requires NonEmpty(gs)
  {
    var width := StepWidth(step, start, end, count);
    if func !in SeriesFuncs || |gs| == 0 then Ok(NoSeries)
    else if func == "diff-ser" || func == "rate-ser" then Ok(Raw(gs, width))
    else
      match PerGroup(gs, func, end, ratio)
      case Raised(x) => Raised(x)
      case Ok(pts) =>
        match Close(Relabel(pts, LeftEdge(t, item, start), start), end, update)
        case Raised(x) => Raised(x)
        case Ok(r) => Ok(Closed(r, width))
  }

  /** `_series(func, start, end, count, ratio, update, step, item)` at the
      current time `now`. The empty frame raises; a start left as text breaks
      the left-edge query, whose `None` then raises; an end left as text
      raises in the step arithmetic when no step is given, and otherwise
      breaks the grouped query, whose failure is caught: no series. */
  function Series(t: seq<Entry>, func: string, start: string, end: string, count: int, ratio: real,
                  update: bool, step: Option<int>, item: string, now: int, gs: seq<seq<Entry>>): Result<SeriesReply>
    requires NonEmpty(gs)
  {
    match GetTimestamp(start, now)
    case Raised(x) => Raised(x)
    case Ok(s) =>
      match GetTimestamp(end, now)
      case Raised(x) => Raised(x)
      case Ok(e) =>
        if s.Unresolved? then Raised("AttributeError")
        else if e.Unresolved? then (if step.None? then Raised("TypeError") else Ok(NoSeries))
        else SeriesAt(t, func, item, s.ms, e.ms, count, ratio, update, step, gs)
  }

  /** Unknown functions, `diff` among them, get no series. */
  lemma SeriesUnknown(t: seq<Entry>, func: string, item: string, start: int, end: int, count: int,
                      ratio: real, update: bool, step: Option<int>, gs: seq<seq<Entry>>)
    requires NonEmpty(gs) && func !in SeriesFuncs
    ensures SeriesAt(t, func, item, start, end, count, ratio, update, step, gs) == Ok(NoSeries)
    ensures SeriesAt(t, "diff", item, start, end, count, ratio, update, step, gs) == Ok(NoSeries)
  {
  }

  /** `diff-ser` and `rate-ser` are queried but not post-processed: a
      non-empty reply is passed on as its groups, with the step. */
  lemma SeriesRaw(t: seq<Entry>, func: string, item: string, start: int, end: int, count: int,
                  ratio: real, update: bool, step: Option<int>, gs: seq<seq<Entry>>)
    requires NonEmpty(gs) && |gs| > 0 && (func == "diff-ser" || func == "rate-ser")
    ensures SeriesAt(t, func, item, start, end, count, ratio, update, step, gs) == Ok(Raw(gs, StepWidth(step, start, end, count)))
  {
  }

  /** A reply without groups is a reply of an empty window, and back. */
  lemma {:induction false} FlattenEmpty(gs: seq<seq<Entry>>)
    requires NonEmpty(gs)
    ensures |Flatten(gs)| == 0 <==> |gs| == 0
  {
    if |gs| > 0 {
      assert Flatten(gs) == Flatten(gs[..|gs| - 1]) + gs[|gs| - 1];
    }
  }

  /** With no row of the item in the window there is no series. */
  lemma SeriesNoRows(t: seq<Entry>, func: string, item: string, start: int, end: int, count: int,
                     ratio: real, update: bool, step: Option<int>, gs: seq<seq<Entry>>)
    requires SeriesReplyFor(t, func, item, start, end, StepWidth(step, start, end, count), gs)
    requires forall k :: 0 <= k < |t| ==> !Matches(Window(t, item, start, end, true), t[k].row)
    ensures SeriesAt(t, func, item, start, end, count, ratio, update, step, gs) == Ok(NoSeries)
  {
    var rows := Select(t, Window(t, item, start, end, true));
    if |rows| > 0 {
      SelectIndex(t, Window(t, item, start, end, true), 0);
    }
    assert multiset(Flatten(gs)) == multiset{};
    FlattenEmpty(gs);
  }

  /** Every row of a reply is a window row, so it is a row of the item. */
  lemma ReplyRow(t: seq<Entry>, w: Where, width: int, gs: seq<seq<Entry>>, i: int, k: int)
    requires IsReply(Select(t, w), width, gs)
    requires 0 <= i < |gs| && 0 <= k < |gs[i]|
    ensures exists n :: 0 <= n < |t| && t[n] == gs[i][k] && Matches(w, t[n].row)
  {
    GroupInFlatten(gs, i, k);
    assert gs[i][k] in Select(t, w);
  }

  /** The earliest time of a group's points is the group's `MIN(time)`. */
  lemma FirstIsMinTime(g: seq<Entry>, c: Column)
    requires |g| > 0
    ensures First(Project(g, c)) == MinTime(g)
  {
    var p := Project(g, c);
    var j :| 0 <= j < |p| && First(p) == p[j].time;
    assert p[j].time == g[j].row.time;
    var k :| 0 <= k < |g| && MinTime(g) == g[k].row.time;
    assert p[k].time == g[k].row.time;
  }

  /** A processed reply whose per-group step gives points is closed. */
  lemma ClosedReply(t: seq<Entry>, func: string, item: string, start: int, end: int, count: int,
                    ratio: real, update: bool, step: Option<int>, gs: seq<seq<Entry>>, pts: seq<Point>)
    requires NonEmpty(gs) && |gs| > 0 && |pts| > 0
    requires func == "avg" || func == "rate" || func == "min" || func == "max" || func == "sum"
    requires PerGroup(gs, func, end, ratio) == Ok(pts)
    ensures SeriesAt(t, func, item, start, end, count, ratio, update, step, gs) ==
      Ok(Closed(Close(Relabel(pts, LeftEdge(t, item, start), start), end, update).value, StepWidth(step, start, end, count)))
  {
    assert func in SeriesFuncs;
    CloseOk(Relabel(pts, LeftEdge(t, item, start), start), end, update);
  }

  /** For `avg`, `min`, `max` and `sum` a non-empty reply gives a series of
      one point per group plus the end point, which carries the end time;
      an update drops the first point. */
  lemma SeriesShape(t: seq<Entry>, func: string, item: string, start: int, end: int, count: int,
                    ratio: real, update: bool, step: Option<int>, gs: seq<seq<Entry>>)
    requires NonEmpty(gs) && |gs| > 0
    requires func == "avg" || func == "min" || func == "max" || func == "sum"
    ensures var r := SeriesAt(t, func, item, start, end, count, ratio, update, step, gs);
      && r.Ok? && r.value.Closed?
      && r.value.step == StepWidth(step, start, end, count)
      && |r.value.points| == |gs| + (if update then 0 else 1)
      && r.value.points[|r.value.points| - 1].time == end
  {
    var pts := PerGroup(gs, func, end, ratio).value;
    assert |pts| == |gs| by {
      if func == "avg" {
        assert pts == AvgSer(Columns(gs, Vavg), end);
      } else {
        assert pts == Reduced(gs, func);
      }
    }
    ClosedReply(t, func, item, start, end, count, ratio, update, step, gs, pts);
    var moved := Relabel(pts, LeftEdge(t, item, start), start);
    CloseOk(moved, end, update);
    CloseSorted(moved, end);
  }

  /** The full `min` series (no update) lists the groups' least `vmin`
      values in time order, each at its group's earliest time (or at the
      start for the group at the left edge), then the end point. */
  lemma SeriesMinPoints(t: seq<Entry>, item: string, start: int, end: int, count: int,
                        ratio: real, step: Option<int>, gs: seq<seq<Entry>>)
    requires NonEmpty(gs) && |gs| > 0
    ensures var r := SeriesAt(t, "min", item, start, end, count, ratio, false, step, gs).value.points;
      && SortedAsc(r[..|gs|])
      && multiset(r[..|gs|]) == multiset(Relabel(Reduced(gs, "min"), LeftEdge(t, item, start), start))
      && forall i :: 0 <= i < |gs| ==> ReducedMin(gs[i], Reduced(gs, "min")[i])
  {
    var moved := Relabel(Reduced(gs, "min"), LeftEdge(t, item, start), start);
    CloseSorted(moved, end);
    forall i | 0 <= i < |gs|
      ensures ReducedMin(gs[i], Reduced(gs, "min")[i])
    {
      GroupMin(gs, i);
    }
  }

  /** The point `SELECT MIN(time), MIN(vmin)` gives for a group: its oldest
      time and its least `vmin`, each attained by a row of the group. */
  ghost predicate ReducedMin(g: seq<Entry>, p: Point) {
    && (forall k :: 0 <= k < |g| ==> p.time <= g[k].row.time && p.val <= g[k].row.vmin)
    && (exists k :: 0 <= k < |g| && p.time == g[k].row.time)
    && (exists k :: 0 <= k < |g| && p.val == g[k].row.vmin)
  }

  lemma GroupMin(gs: seq<seq<Entry>>, i: int)
    requires NonEmpty(gs) && 0 <= i < |gs|
    ensures ReducedMin(gs[i], Reduced(gs, "min")[i])
  {
    var g := gs[i];
    var p := Reduced(gs, "min")[i];
    assert p == Point(MinTime(g), MinOf(Vmins(g)));
    var j :| 0 <= j < |g| && p.val == Vmins(g)[j];
    assert forall k :: 0 <= k < |g| ==> Vmins(g)[k] == g[k].row.vmin;
  }

  /** Neighbouring groups of an oldest-first reply of one item start at
      different times. */
  lemma OldestFirstStarts(t: seq<Entry>, item: string, start: int, end: int, width: int, gs: seq<seq<Entry>>)
    requires IsReply(Select(t, Window(t, item, start, end, true)), width, gs) && OldestFirst(gs)
    ensures DistinctStarts(Columns(gs, Val))
  {
    ReplyRowsInWindow(t, item, start, end, width, gs);
    OneItemStarts(gs, item);
  }

  /** In an oldest-first grouping of one item, neighbouring groups start at
      different times. */
  lemma OneItemStarts(gs: seq<seq<Entry>>, item: string)
    requires NonEmpty(gs) && OldestFirst(gs)
    requires forall k :: 0 <= k < |gs| ==> gs[k][0].row.item == item
    ensures DistinctStarts(Columns(gs, Val))
  {
    forall k | 0 <= k < |gs| - 1
      ensures Columns(gs, Val)[k][0].time != Columns(gs, Val)[k + 1][0].time
    {
      OldestNeighbours(gs, k);
    }
  }

  /** Of two neighbouring groups of one item in an oldest-first reply, the
      older starts first. */
  lemma OldestNeighbours(gs: seq<seq<Entry>>, k: int)
    requires NonEmpty(gs) && OldestFirst(gs) && 0 <= k < |gs| - 1
    requires gs[k][0].row.item == gs[k + 1][0].row.item
    ensures Columns(gs, Val)[k][0].time < Columns(gs, Val)[k + 1][0].time
  {
    assert MaxTime(gs[k]) < MinTime(gs[k + 1]);
    var cs: seq<seq<Point>> := Columns(gs, Val);
    assert cs[k][0].time == gs[k][0].row.time;
    assert cs[k + 1][0].time == gs[k + 1][0].row.time;
  }

  /** A `rate` series over an oldest-first reply never divides by zero; it
      raises exactly when the window falls into a single group, which leaves
      no rate to close the series with. */
  lemma SeriesRate(t: seq<Entry>, item: string, start: int, end: int, count: int,
                   ratio: real, update: bool, step: Option<int>, gs: seq<seq<Entry>>)
    requires SeriesReplyFor(t, "rate", item, start, end, StepWidth(step, start, end, count), gs)
    requires |gs| > 0
    ensures var r := SeriesAt(t, "rate", item, start, end, count, ratio, update, step, gs);
      && (r.Raised? <==> |gs| == 1)
      && (r.Ok? ==> r.value.Closed? && |r.value.points| == |gs| - (if update then 1 else 0))
  {
    var cs: seq<seq<Point>> := Columns(gs, Val);
    OldestFirstStarts(t, item, start, end, StepWidth(step, start, end, count), gs);
    RateSerPoints(cs, ratio);
    var pts := RateSer(cs, ratio).value;
    var moved := Relabel(pts, LeftEdge(t, item, start), start);
    CloseOk(moved, end, update);
    if |moved| > 0 {
      CloseSorted(moved, end);
    }
  }

  /** A row of a series reply is a row of the item at or before `end`. */
  lemma ReplyRowInWindow(t: seq<Entry>, item: string, start: int, end: int, width: int,
                         gs: seq<seq<Entry>>, k: int, j: int)
    requires IsReply(Select(t, Window(t, item, start, end, true)), width, gs)
    requires 0 <= k < |gs| && 0 <= j < |gs[k]|
    ensures gs[k][j].row.item == item && gs[k][j].row.time <= end
  {
    ReplyRow(t, Window(t, item, start, end, true), width, gs, k, j);
  }

  /** Every row of a series reply is a row of the item at or before `end`. */
  lemma ReplyRowsInWindow(t: seq<Entry>, item: string, start: int, end: int, width: int, gs: seq<seq<Entry>>)
    requires IsReply(Select(t, Window(t, item, start, end, true)), width, gs)
    ensures forall k, j :: 0 <= k < |gs| && 0 <= j < |gs[k]| ==> gs[k][j].row.item == item && gs[k][j].row.time <= end
  {
    forall k, j | 0 <= k < |gs| && 0 <= j < |gs[k]|
      ensures gs[k][j].row.item == item && gs[k][j].row.time <= end
    {
      ReplyRowInWindow(t, item, start, end, width, gs, k, j);
    }
  }

  /** In a newest-first grouping of one item, each row lies before the
      earliest time of the group before its own. */
  lemma NewestRowBefore(gs: seq<seq<Entry>>, item: string, k: int, j: int)
    requires NonEmpty(gs) && NewestFirst(gs)
    requires forall k, j :: 0 <= k < |gs| && 0 <= j < |gs[k]| ==> gs[k][j].row.item == item
    requires 0 < k < |gs| && 0 <= j < |gs[k]|
    ensures gs[k][j].row.time < MinTime(gs[k - 1])
  {
    assert gs[k - 1][0].row.item == item && gs[k][0].row.item == item;
    assert MinTime(gs[k - 1]) > MaxTime(gs[k]);
  }

  /** Each group of a newest-first `avg` reply ends no later than the
      earliest time of the group before it, and the first by `end`. */
  lemma AvgGroupsEnd(t: seq<Entry>, item: string, start: int, end: int, width: int, gs: seq<seq<Entry>>)
    requires IsReply(Select(t, Window(t, item, start, end, true)), width, gs) && NewestFirst(gs)
    ensures var cs := Columns(gs, Vavg);
      forall k, j :: 0 <= k < |cs| && 0 <= j < |cs[k]| ==> cs[k][j].time <= EndOf(cs, end, k)
  {
    ReplyRowsInWindow(t, item, start, end, width, gs);
    NewestGroupsEnd(gs, item, end);
  }

  /** In a newest-first grouping of one item's rows by `end`, each average
      point lies at or before the end of its own group's span. */
  lemma NewestGroupsEnd(gs: seq<seq<Entry>>, item: string, end: int)
    requires NonEmpty(gs) && NewestFirst(gs)
    requires forall k, j :: 0 <= k < |gs| && 0 <= j < |gs[k]| ==> gs[k][j].row.item == item && gs[k][j].row.time <= end
    ensures var cs := Columns(gs, Vavg);
      forall k, j :: 0 <= k < |cs| && 0 <= j < |cs[k]| ==> cs[k][j].time <= EndOf(cs, end, k)
  {
    var cs: seq<seq<Point>> := Columns(gs, Vavg);
    forall k, j | 0 <= k < |cs| && 0 <= j < |cs[k]|
      ensures cs[k][j].time <= EndOf(cs, end, k)
    {
      assert cs[k] == Project(gs[k], Vavg);
      assert cs[k][j].time == gs[k][j].row.time;
      if k > 0 {
        NewestRowBefore(gs, item, k, j);
        assert cs[k - 1] == Project(gs[k - 1], Vavg);
        FirstIsMinTime(gs[k - 1], Vavg);
      }
    }
  }

  /** The least and greatest `vavg` of a reply group are window values. */
  lemma GroupVavgBounded(t: seq<Entry>, w: Where, width: int, gs: seq<seq<Entry>>, i: int, lo: real, hi: real)
    requires IsReply(Select(t, w), width, gs) && 0 <= i < |gs|
    requires forall k :: 0 <= k < |t| && Matches(w, t[k].row) ==> lo <= t[k].row.vavg <= hi
    ensures lo <= MinOf(Vals(Project(gs[i], Vavg))) && MaxOf(Vals(Project(gs[i], Vavg))) <= hi
  {
    var g := Project(gs[i], Vavg);
    var a :| 0 <= a < |g| && MinOf(Vals(g)) == Vals(g)[a];
    var b :| 0 <= b < |g| && MaxOf(Vals(g)) == Vals(g)[b];
    assert Vals(g)[a] == gs[i][a].row.vavg;
    assert Vals(g)[b] == gs[i][b].row.vavg;
    ReplyRow(t, w, width, gs, i, a);
    ReplyRow(t, w, width, gs, i, b);
  }

  /** Every averaged group value lies between the least and the greatest
      `vavg` of the window's rows. */
  lemma AvgSerWithin(t: seq<Entry>, item: string, start: int, end: int, width: int, gs: seq<seq<Entry>>, lo: real, hi: real)
    requires IsReply(Select(t, Window(t, item, start, end, true)), width, gs) && NewestFirst(gs)
    requires forall k :: 0 <= k < |t| && Matches(Window(t, item, start, end, true), t[k].row) ==>
      lo <= t[k].row.vavg <= hi
    ensures forall i :: 0 <= i < |gs| ==> lo <= AvgSer(Columns(gs, Vavg), end)[i].val <= hi
  {
    var cs: seq<seq<Point>> := Columns(gs, Vavg);
    AvgGroupsEnd(t, item, start, end, width, gs);
    AvgSerBounded(cs, end);
    forall i | 0 <= i < |gs|
      ensures lo <= AvgSer(cs, end)[i].val <= hi
    {
      assert cs[i] == Project(gs[i], Vavg);
      GroupVavgBounded(t, Window(t, item, start, end, true), width, gs, i, lo, hi);
    }
  }

  /** Every value of an `avg` series lies between the least and the greatest
      `vavg` of the window's rows. */
  lemma SeriesAvgBounded(t: seq<Entry>, item: string, start: int, end: int, count: int,
                         ratio: real, update: bool, step: Option<int>, gs: seq<seq<Entry>>, lo: real, hi: real)
    requires SeriesReplyFor(t, "avg", item, start, end, StepWidth(step, start, end, count), gs)
    requires forall k :: 0 <= k < |t| && Matches(Window(t, item, start, end, true), t[k].row) ==>
      lo <= t[k].row.vavg <= hi
    ensures var r := SeriesAt(t, "avg", item, start, end, count, ratio, update, step, gs);
      r.Ok? && r.value.Closed? ==> forall k :: 0 <= k < |r.value.points| ==> lo <= r.value.points[k].val <= hi
  {
    if |gs| > 0 {
      AvgSerWithin(t, item, start, end, StepWidth(step, start, end, count), gs, lo, hi);
      var pts := AvgSer(Columns(gs, Vavg), end);
      var moved := Relabel(pts, LeftEdge(t, item, start), start);
      assert PerGroup(gs, "avg", end, ratio) == Ok(pts);
      CloseValues(moved, end, update);
    }
  }

  /** Whole numbers of milliseconds are taken as times: `_series` with
      numeric bounds is the query at those times. */
  lemma SeriesAtNumbers(t: seq<Entry>, func: string, a: nat, b: nat, count: int, ratio: real,
                        update: bool, step: Option<int>, item: string, now: int, gs: seq<seq<Entry>>)
    requires NonEmpty(gs)
    ensures Series(t, func, NatToString(a), NatToString(b), count, ratio, update, step, item, now, gs) ==
      SeriesAt(t, func, item, a, b, count, ratio, update, step, gs)
  {
    NatFrameRoundTrip(a, now);
    NatFrameRoundTrip(b, now);
  }

  /** An end left as text raises without a step and gives no series with one. */
  lemma SeriesUnresolvedEnd(t: seq<Entry>, func: string, a: nat, count: int, ratio: real,
                            update: bool, step: Option<int>, item: string, now: int, gs: seq<seq<Entry>>)
    requires NonEmpty(gs)
    ensures Series(t, func, NatToString(a), "3q", count, ratio, update, step, item, now, gs) ==
      if step.None? then Raised("TypeError") else Ok(NoSeries)
  {
    NatFrameRoundTrip(a, now);
    OtherExamples(now);
  }
}
