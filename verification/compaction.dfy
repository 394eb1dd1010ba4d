/** The daily compaction `_pack` (sqlite/__init__.py:36, 41-56, 354-394). For
    each retention tier, the rows at or before the tier's boundary are grouped
    by item and time bucket; every group of two or more rows is replaced by one
    merged row. The SQL replies are parameters: one grouping per tier. */
module Compaction {
  import opened Wrappers
  import opened Numeric
  import opened Points
  import opened TimeWeighted
  import opened Aggregates
  import opened History
  import opened Grouping
  import opened Ingestion

  /** A retention tier: how many days back its boundary lies, and the width of
      its merge buckets in hours. */
  datatype Tier = Tier(days: nat, hours: real)

  /** The tiers in the order the compaction visits them, coarsest first. */
  const Tiers: seq<Tier> := [Tier(1900, 168.0), Tier(400, 24.0), Tier(32, 1.0), Tier(7, 0.5), Tier(1, 0.1)]

  const DayMs: int := 24 * 3600 * 1000

  /** `now - period * 24 * 3600 * 1000`: rows at or before it are eligible. */
  function Boundary(now: int, tier: Tier): int {
    now - tier.days * DayMs
  }

  /** `int(granularity * 3600 * 1000)`: the bucket width in milliseconds. */
  function Width(tier: Tier): int {
    Trunc(tier.hours * 3600000.0)
  }

  /** The bucket widths are a week, a day, an hour, half an hour and six
      minutes; each is a whole multiple of the next finer one. */
  lemma TierWidths()
    ensures Width(Tiers[0]) == 604800000 && Width(Tiers[1]) == 86400000
    ensures Width(Tiers[2]) == 3600000 && Width(Tiers[3]) == 1800000 && Width(Tiers[4]) == 360000
    ensures forall i :: 0 <= i < |Tiers| ==> Width(Tiers[i]) > 0
  {
    assert Width(Tiers[4]) == 360000 by {
      assert Tiers[4].hours * 3600000.0 == 360000.0;
    }
  }

  /** The rows the tier's query selects: `WHERE time <= :period`. */
  function Older(t: seq<Entry>, now: int, tier: Tier): seq<Entry> {
    Select(t, Where(None, None, Boundary(now, tier), true))
  }

  /** A reply SQLite may give to the tier's query: the eligible rows grouped
      by item and bucket, newest group first for each item. */
  ghost predicate TierReply(t: seq<Entry>, now: int, tier: Tier, gs: seq<seq<Entry>>) {
    IsReply(Older(t, now, tier), Width(tier), gs) && NewestFirst(gs)
  }

  /** The row that replaces a group (sqlite/__init__.py:376-384): time, item
      and value of the group's first row in `group_concat` order, summed
      counts and sums, the extreme minimum and maximum, and the time-weighted
      averages of `vavg` and `power` up to `upper`. */
  function Merge(g: seq<Entry>, upper: int): (r: Row)
    requires |g| > 0
    ensures forall k :: 0 <= k < |g| ==> r.vmin <= g[k].row.vmin && g[k].row.vmax <= r.vmax
    ensures exists k :: 0 <= k < |g| && r.vmin == g[k].row.vmin
    ensures exists k :: 0 <= k < |g| && r.vmax == g[k].row.vmax
  {
    var lo, hi := MinOf(Vmins(g)), MaxOf(Vmaxs(g));
    assert forall k :: 0 <= k < |g| ==> Vmins(g)[k] == g[k].row.vmin && Vmaxs(g)[k] == g[k].row.vmax;
    Row(g[0].row.time, g[0].row.item, TotalCnt(g), g[0].row.val, SumOf(Vsums(g)),
        lo, hi, Avg(Project(g, Vavg), upper), Avg(Project(g, Power), upper))
  }

  /** A one-row group merges to its own row: the count, sum and extremes of
      one row are its own, and so are the averages of one point. */
  lemma MergeSingle(e: Entry, upper: int)
    ensures Merge([e], upper) == e.row
  {
    AvgSingle(Point(e.row.time, e.row.vavg), upper);
    AvgSingle(Point(e.row.time, e.row.power), upper);
    assert Project([e], Vavg) == [Point(e.row.time, e.row.vavg)];
    assert Project([e], Power) == [Point(e.row.time, e.row.power)];
    assert TotalCnt([e]) == e.row.cnt by {
      assert TotalCnt([e][1..]) == 0;
    }
    assert Vmins([e]) == [e.row.vmin] && Vmaxs([e]) == [e.row.vmax];
    assert Vsums([e]) == [e.row.vsum];
    assert SumOf([e.row.vsum]) == e.row.vsum + SumOf([]) by {
      assert [e.row.vsum][1..] == [];
    }
  }

  /** The aggregated columns of a merge fold over the rows: merging two
      row lists end to end adds their counts and sums and keeps the smaller
      minimum and the larger maximum, while time, item and value come from
      the first list's head. */
  lemma MergeCombines(a: seq<Entry>, b: seq<Entry>, upper: int)
    requires |a| > 0 && |b| > 0
    ensures var m, ma, mb := Merge(a + b, upper), Merge(a, upper), Merge(b, upper);
      && m.cnt == ma.cnt + mb.cnt && m.vsum == ma.vsum + mb.vsum
      && m.vmin == (if ma.vmin <= mb.vmin then ma.vmin else mb.vmin)
      && m.vmax == (if ma.vmax >= mb.vmax then ma.vmax else mb.vmax)
      && m.time == ma.time && m.item == ma.item && m.val == ma.val
  {
    TotalCntAppend(a, b);
    VsumsAppend(a, b);
    SumOfAppend(Vsums(a), Vsums(b));
    assert Vmins(a + b) == Vmins(a) + Vmins(b);
    assert Vmaxs(a + b) == Vmaxs(a) + Vmaxs(b);
    MinOfAppend(Vmins(a), Vmins(b));
    MaxOfAppend(Vmaxs(a), Vmaxs(b));
  }

  /** The end of the averaging interval for the next group of `item`: the
      first time of the last group of that item already visited (one-row
      groups included), or `now` when there is none. */
  function Upper(done: seq<seq<Entry>>, item: string, now: int): int
    requires NonEmpty(done)
  {
    if |done| == 0 then now
    else
      var g := done[|done| - 1];
      if g[0].row.item == item then g[0].row.time else Upper(done[..|done| - 1], item, now)
  }

  /** What a compaction run has decided so far: rows to insert, rowids to delete. */
  datatype Plan = Plan(inserts: seq<Row>, dead: set<int>)

  /** One tier's decisions over its reply, in reply order. */
  function PlanTier(gs: seq<seq<Entry>>, now: int): Plan
    requires NonEmpty(gs)
  {
    if |gs| == 0 then Plan([], {})
    else
      var done, g := gs[..|gs| - 1], gs[|gs| - 1];
      var p := PlanTier(done, now);
      if |g| == 1 then p
      else Plan(p.inserts + [Merge(g, Upper(done, g[0].row.item, now))], p.dead + IdsOf(multiset(g)))
  }

  function Lookup(prev: map<string, int>, item: string, now: int): int {
    if item in prev then prev[item] else now
  }

  /** One more group of the reply: the plan grows by its merge when it has
      two or more rows. */
  lemma PlanTierStep(gs: seq<seq<Entry>>, i: int, now: int)
    requires NonEmpty(gs) && 0 <= i < |gs|
    ensures var g, p, q := gs[i], PlanTier(gs[..i], now), PlanTier(gs[..i + 1], now);
      && q.inserts == (if |g| == 1 then p.inserts else p.inserts + [Merge(g, Upper(gs[..i], g[0].row.item, now))])
      && q.dead == (if |g| == 1 then p.dead else p.dead + IdsOf(multiset(g)))
  {
    var front := gs[..i + 1];
    assert front[..i] == gs[..i];
    assert front[i] == gs[i];
  }

  /** After one more group, its item's averaging end is the group's first time. */
  lemma UpperStep(gs: seq<seq<Entry>>, i: int, item: string, now: int)
    requires NonEmpty(gs) && 0 <= i < |gs|
    ensures Upper(gs[..i + 1], item, now) ==
      if gs[i][0].row.item == item then gs[i][0].row.time else Upper(gs[..i], item, now)
  {
    var front := gs[..i + 1];
    assert front[..i] == gs[..i];
    assert front[i] == gs[i];
  }

  /** `prev` holds, for every item, the averaging end after the groups `done`. */
  ghost predicate Tracks(prev: map<string, int>, done: seq<seq<Entry>>, now: int)
    requires NonEmpty(done)
  {
    forall item :: Lookup(prev, item, now) == Upper(done, item, now)
  }

  lemma TracksStep(prev: map<string, int>, gs: seq<seq<Entry>>, i: int, now: int)
    requires NonEmpty(gs) && 0 <= i < |gs| && Tracks(prev, gs[..i], now)
    ensures Tracks(prev[gs[i][0].row.item := gs[i][0].row.time], gs[..i + 1], now)
  {
    var next := prev[gs[i][0].row.item := gs[i][0].row.time];
    forall other
      ensures Lookup(next, other, now) == Upper(gs[..i + 1], other, now)
    {
      UpperStep(gs, i, other, now);
    }
  }

  /** One turn of the inner loop of `_pack` keeps the loop's invariant. */
  lemma PackTierTurn(gs: seq<seq<Entry>>, i: int, now: int, inserts: seq<Row>, dead: set<int>, prev: map<string, int>)
    requires NonEmpty(gs) && 0 <= i < |gs|
    requires inserts == PlanTier(gs[..i], now).inserts && dead == PlanTier(gs[..i], now).dead
    requires Tracks(prev, gs[..i], now)
    ensures var g := gs[i];
      var merged := Merge(g, Lookup(prev, g[0].row.item, now));
      && (if |g| == 1 then inserts else inserts + [merged]) == PlanTier(gs[..i + 1], now).inserts
      && (if |g| == 1 then dead else dead + IdsOf(multiset(g))) == PlanTier(gs[..i + 1], now).dead
      && Tracks(prev[g[0].row.item := g[0].row.time], gs[..i + 1], now)
  {
    PlanTierStep(gs, i, now);
    TracksStep(prev, gs, i, now);
  }

  /** The inner loop of `_pack` (sqlite/__init__.py:361-384) with its `prev`
      dictionary; it reaches the plan of the tier. */
  method PackTier(gs: seq<seq<Entry>>, now: int) returns (inserts: seq<Row>, dead: set<int>)
    requires NonEmpty(gs)
    ensures Plan(inserts, dead) == PlanTier(gs, now)
  {
    var prev: map<string, int> := map[];
    inserts, dead := [], {};
    var i := 0;
    while i < |gs|
      invariant 0 <= i <= |gs|
      invariant inserts == PlanTier(gs[..i], now).inserts
      invariant dead == PlanTier(gs[..i], now).dead
      invariant Tracks(prev, gs[..i], now)
    {
      var g := gs[i];
      var item := g[0].row.item;
      PackTierTurn(gs, i, now, inserts, dead, prev);
      if |g| != 1 {
        var upper := if item in prev then prev[item] else now;
        dead := dead + IdsOf(multiset(g));
        inserts := inserts + [Merge(g, upper)];
      }
      prev := prev[item := g[0].row.time];
      i := i + 1;
    }
    assert gs[..|gs|] == gs;
  }

  /** All tiers' decisions, tier after tier. */
  function PlanAll(replies: seq<seq<seq<Entry>>>, now: int): Plan
    requires forall i :: 0 <= i < |replies| ==> NonEmpty(replies[i])
  {
    if |replies| == 0 then Plan([], {})
    else
      var p := PlanAll(replies[..|replies| - 1], now);
      var q := PlanTier(replies[|replies| - 1], now);
      Plan(p.inserts + q.inserts, p.dead + q.dead)
  }

  /** Where a compaction run can fail: before the commit (a query, the
      inserts or the deletes), after it (`VACUUM`, `shrink_memory`), or not. */
  datatype Failure = NoFailure | BeforeCommit | AfterCommit

  /** The replies of every tier are groupings of the same table. */
  ghost predicate RunReplies(t: seq<Entry>, now: int, replies: seq<seq<seq<Entry>>>) {
    |replies| == |Tiers| && forall i :: 0 <= i < |Tiers| ==> TierReply(t, now, Tiers[i], replies[i])
  }

  /** `_pack` as written: every tier reads the table as it was before the run;
      the collected inserts and deletes are committed once, or rolled back. */
  function PackRun(t: seq<Entry>, now: int, replies: seq<seq<seq<Entry>>>, failure: Failure): seq<Entry>
    requires RunReplies(t, now, replies)
  {
    var plan := PlanAll(replies, now);
    if failure == BeforeCommit then t else Commit(t, plan.inserts, plan.dead)
  }

  /** `_pack` with its outer loop over the tiers. */
  method Pack(t: seq<Entry>, now: int, replies: seq<seq<seq<Entry>>>, failure: Failure) returns (t': seq<Entry>)
    requires RunReplies(t, now, replies)
    ensures t' == PackRun(t, now, replies, failure)
  {
    var inserts: seq<Row> := [];
    var dead: set<int> := {};
    var i := 0;
    while i < |Tiers|
      invariant 0 <= i <= |Tiers|
      invariant Plan(inserts, dead) == PlanAll(replies[..i], now)
    {
      var ins, del := PackTier(replies[i], now);
      assert replies[..i + 1][..i] == replies[..i];
      inserts := inserts + ins;
      dead := dead + del;
      i := i + 1;
    }
    assert replies[..|Tiers|] == replies;
    if failure == BeforeCommit {
      t' := t;
    } else {
      t' := Commit(t, inserts, dead);
    }
  }

  /** The end used for a group is `now` or the first time of an earlier group
      of the same item. */
  lemma {:induction false} UpperSource(done: seq<seq<Entry>>, item: string, now: int)
    requires NonEmpty(done)
    ensures Upper(done, item, now) == now ||
      exists m :: 0 <= m < |done| && done[m][0].row.item == item && Upper(done, item, now) == done[m][0].row.time
  {
    if |done| > 0 {
      var d := done[..|done| - 1];
      if done[|done| - 1][0].row.item != item {
        UpperSource(d, item, now);
        if Upper(d, item, now) != now {
          var m :| 0 <= m < |d| && d[m][0].row.item == item && Upper(d, item, now) == d[m][0].row.time;
          assert done[m] == d[m];
        }
      }
    }
  }

  /** With each item's newest groups first and no row after `now`, no row of
      a group is later than the end its average is taken to. */
  lemma UpperAbove(gs: seq<seq<Entry>>, i: int, now: int)
    requires NonEmpty(gs) && NewestFirst(gs) && 0 <= i < |gs|
    requires forall k :: 0 <= k < |gs[i]| ==> gs[i][k].row.time <= now
    ensures forall k :: 0 <= k < |gs[i]| ==> gs[i][k].row.time <= Upper(gs[..i], gs[i][0].row.item, now)
  {
    var item := gs[i][0].row.item;
    UpperSource(gs[..i], item, now);
    var u := Upper(gs[..i], item, now);
    if u != now {
      var m :| 0 <= m < i && gs[..i][m][0].row.item == item && u == gs[..i][m][0].row.time;
      assert gs[..i][m] == gs[m];
      assert MinTime(gs[m]) > MaxTime(gs[i]);
    }
  }

  /** A merged row of well-formed rows, averaged up to an end no earlier than
      any of them, is well-formed: its average lies between its minimum and
      maximum and its active share is a fraction. */
  lemma MergeWf(g: seq<Entry>, upper: int)
    requires |g| > 0
    requires forall k :: 0 <= k < |g| ==> RowWf(g[k].row) && g[k].row.time <= upper
    ensures RowWf(Merge(g, upper))
  {
    var r := Merge(g, upper);
    TotalCntAtLeast(g);
    var va := Project(g, Vavg);
    forall k | 0 <= k < |va|
      ensures va[k].time <= upper && r.vmin <= va[k].val <= r.vmax
    {
      assert va[k].val == g[k].row.vavg;
    }
    AvgBounded(va, upper, r.vmin, r.vmax);
    var pw := Project(g, Power);
    forall k | 0 <= k < |pw|
      ensures pw[k].time <= upper && 0.0 <= pw[k].val <= 1.0
    {
      assert pw[k].val == g[k].row.power;
    }
    AvgBounded(pw, upper, 0.0, 1.0);
  }

  /** Every row of every group is well-formed and no later than `now`. */
  ghost predicate GroupsWf(gs: seq<seq<Entry>>, now: int) {
    forall i, k :: 0 <= i < |gs| && 0 <= k < |gs[i]| ==> RowWf(gs[i][k].row) && gs[i][k].row.time <= now
  }

  ghost predicate InsertsWf(p: Plan) {
    forall k :: 0 <= k < |p.inserts| ==> RowWf(p.inserts[k])
  }

  lemma PrefixKeepsOrder(gs: seq<seq<Entry>>, now: int)
    requires |gs| > 0 && NonEmpty(gs) && NewestFirst(gs) && GroupsWf(gs, now)
    ensures NonEmpty(gs[..|gs| - 1]) && NewestFirst(gs[..|gs| - 1]) && GroupsWf(gs[..|gs| - 1], now)
  {
    var done := gs[..|gs| - 1];
    assert forall i :: 0 <= i < |done| ==> done[i] == gs[i];
  }

  /** The row merged for the last group is well-formed. */
  lemma LastMergeWf(gs: seq<seq<Entry>>, now: int)
    requires |gs| > 0 && NonEmpty(gs) && NewestFirst(gs) && GroupsWf(gs, now)
    ensures var n := |gs| - 1; RowWf(Merge(gs[n], Upper(gs[..n], gs[n][0].row.item, now)))
  {
    var n := |gs| - 1;
    UpperAbove(gs, n, now);
    MergeWf(gs[n], Upper(gs[..n], gs[n][0].row.item, now));
  }

  /** A tier over well-formed rows, newest group first per item, inserts only
      well-formed rows. */
  lemma {:induction false} PlanWf(gs: seq<seq<Entry>>, now: int)
    requires NonEmpty(gs) && NewestFirst(gs) && GroupsWf(gs, now)
    ensures InsertsWf(PlanTier(gs, now))
  {
    if |gs| > 0 {
      var n := |gs| - 1;
      PrefixKeepsOrder(gs, now);
      PlanWf(gs[..n], now);
      if |gs[n]| != 1 {
        LastMergeWf(gs, now);
      }
    }
  }

  /** Every row of a tier's reply is a row of the table at or before the
      boundary, of the item and in the bucket of its group's first row. */
  lemma ReplyRowsFromTable(t: seq<Entry>, now: int, tier: Tier, gs: seq<seq<Entry>>, i: int, k: int)
    requires IsReply(Older(t, now, tier), Width(tier), gs)
    requires 0 <= i < |gs| && 0 <= k < |gs[i]|
    ensures gs[i][k] in t && gs[i][k].row.time <= Boundary(now, tier)
    ensures gs[i][k].row.item == gs[i][0].row.item
    ensures Bucket(gs[i][k].row.time, Width(tier)) == Bucket(gs[i][0].row.time, Width(tier))
  {
    assert GroupKey(gs[i][k], Width(tier)) == GroupKey(gs[i][0], Width(tier));
    GroupInFlatten(gs, i, k);
    assert gs[i][k] in multiset(Older(t, now, tier));
  }

  /** One tier keeps a well-formed table's rows well-formed. */
  lemma TierInsertsWf(t: seq<Entry>, now: int, tier: Tier, gs: seq<seq<Entry>>)
    requires TierReply(t, now, tier, gs) && AllWf(t)
    ensures InsertsWf(PlanTier(gs, now))
  {
    forall i, k | 0 <= i < |gs| && 0 <= k < |gs[i]|
      ensures RowWf(gs[i][k].row) && gs[i][k].row.time <= now
    {
      ReplyRowsFromTable(t, now, tier, gs, i, k);
      var j :| 0 <= j < |t| && t[j] == gs[i][k];
    }
    PlanWf(gs, now);
  }

  /** Each group of two or more rows gives exactly one inserted row, with the
      time, item and value of its first row and its summed count; one-row
      groups give nothing. */
  lemma {:induction false} PlanTierInserts(gs: seq<seq<Entry>>, now: int)
    requires NonEmpty(gs)
    ensures |PlanTier(gs, now).inserts| == |Multi(gs)|
    ensures forall k :: 0 <= k < |Multi(gs)| ==> MergedFrom(PlanTier(gs, now).inserts[k], Multi(gs)[k])
  {
    if |gs| > 0 {
      var n := |gs| - 1;
      var done, g := gs[..n], gs[n];
      PlanTierInserts(done, now);
      if |g| >= 2 {
        assert Multi(gs) == Multi(done) + [g];
      } else {
        assert Multi(gs) == Multi(done);
      }
    }
  }

  /** `r` carries the time, item and value of `g`'s first row and its summed count. */
  ghost predicate MergedFrom(r: Row, g: seq<Entry>) {
    |g| > 0 && r.time == g[0].row.time && r.item == g[0].row.item && r.val == g[0].row.val && r.cnt == TotalCnt(g)
  }

  lemma FlattenLast(m: seq<seq<Entry>>, g: seq<Entry>)
    ensures Flatten(m + [g]) == Flatten(m) + g
  {
    assert (m + [g])[..|m|] == m;
  }

  /** The deleted rowids are exactly those of the groups of two or more rows. */
  lemma {:induction false} PlanTierDead(gs: seq<seq<Entry>>, now: int)
    requires NonEmpty(gs)
    ensures PlanTier(gs, now).dead == IdsOf(multiset(Flatten(Multi(gs))))
  {
    if |gs| > 0 {
      var n := |gs| - 1;
      var done, g := gs[..n], gs[n];
      PlanTierDead(done, now);
      var m := Multi(done);
      if |g| >= 2 {
        assert PlanTier(gs, now).dead == PlanTier(done, now).dead + IdsOf(multiset(g));
        assert Multi(gs) == m + [g];
        FlattenLast(m, g);
        assert multiset(Flatten(m) + g) == multiset(Flatten(m)) + multiset(g);
        IdsOfUnion(multiset(Flatten(m)), multiset(g));
      } else {
        assert PlanTier(gs, now).dead == PlanTier(done, now).dead;
        assert Multi(gs) == m;
      }
    }
  }

  /** The inserted rows count exactly the samples of the merged groups. */
  lemma {:induction false} PlanTierCnt(gs: seq<seq<Entry>>, now: int)
    requires NonEmpty(gs)
    ensures RowsCnt(PlanTier(gs, now).inserts) == TotalCnt(Flatten(Multi(gs)))
  {
    if |gs| > 0 {
      var n := |gs| - 1;
      var done, g := gs[..n], gs[n];
      PlanTierCnt(done, now);
      var m := Multi(done);
      if |g| >= 2 {
        assert PlanTier(gs, now).dead == PlanTier(done, now).dead + IdsOf(multiset(g));
        assert Multi(gs) == m + [g];
        FlattenLast(m, g);
        var r := Merge(g, Upper(done, g[0].row.item, now));
        RowsCntAppend(PlanTier(done, now).inserts, [r]);
        TotalCntAppend(Flatten(m), g);
        assert RowsCnt([r]) == r.cnt;
      } else {
        assert PlanTier(gs, now).dead == PlanTier(done, now).dead;
        assert Multi(gs) == m;
      }
    }
  }

  /** The rowids a tier deletes are rowids of its table. */
  lemma TierDeadFromTable(t: seq<Entry>, now: int, tier: Tier, gs: seq<seq<Entry>>)
    requires IsReply(Older(t, now, tier), Width(tier), gs)
    ensures multiset(Flatten(Multi(gs))) <= multiset(t)
    ensures forall i :: i in PlanTier(gs, now).dead ==> i < NextId(t)
  {
    PlanTierDead(gs, now);
    FlattenSplit(gs);
    var f := multiset(Flatten(Multi(gs)));
    assert f <= multiset(t);
    forall i | i in PlanTier(gs, now).dead
      ensures i < NextId(t)
    {
      var x :| x in f && x.id == i;
      assert x in multiset(t);
      var j :| 0 <= j < |t| && t[j] == x;
    }
  }

  /** One tier on its own conserves the number of samples the table stands
      for: the merged rows count exactly what the deleted rows counted. */
  lemma TierConservesCnt(t: seq<Entry>, now: int, tier: Tier, gs: seq<seq<Entry>>)
    requires UniqueIds(t) && IsReply(Older(t, now, tier), Width(tier), gs)
    ensures TotalCnt(Commit(t, PlanTier(gs, now).inserts, PlanTier(gs, now).dead)) == TotalCnt(t)
  {
    PlanTierDead(gs, now);
    PlanTierCnt(gs, now);
    TierDeadFromTable(t, now, tier, gs);
    CommitTotal(t, Flatten(Multi(gs)), PlanTier(gs, now).inserts);
  }

  /** The row of a one-row group is not deleted by its tier. */
  lemma SingletonSurvives(t: seq<Entry>, now: int, tier: Tier, gs: seq<seq<Entry>>, i: int)
    requires UniqueIds(t) && IsReply(Older(t, now, tier), Width(tier), gs)
    requires 0 <= i < |gs| && |gs[i]| == 1
    ensures gs[i][0].id !in PlanTier(gs, now).dead
  {
    var x := gs[i][0];
    PlanTierDead(gs, now);
    FlattenSplit(gs);
    SingleInSingles(gs, i);
    var all := multiset(Flatten(gs));
    var f := multiset(Flatten(Multi(gs)));
    assert all <= multiset(t);
    assert all[x] <= 1 by {
      assert x in multiset(t);
      assert multiset(t)[x] == 1;
    }
    assert f[x] == 0;
    forall y | y in f
      ensures y.id != x.id
    {
      assert y != x;
      assert y in multiset(t) && x in multiset(t);
    }
  }

  /** Each tier's plan, in tier order. */
  function TierPlans(replies: seq<seq<seq<Entry>>>, now: int): (ps: seq<Plan>)
    requires forall i :: 0 <= i < |replies| ==> NonEmpty(replies[i])
    ensures |ps| == |replies|
  {
    seq(|replies|, i requires 0 <= i < |replies| => PlanTier(replies[i], now))
  }

  /** Plans joined in order: inserts end to end, deletes together. */
  function Join(ps: seq<Plan>): Plan {
    if |ps| == 0 then Plan([], {})
    else
      var p := Join(ps[..|ps| - 1]);
      Plan(p.inserts + ps[|ps| - 1].inserts, p.dead + ps[|ps| - 1].dead)
  }

  /** A run decides what its tiers' plans joined in order decide. */
  lemma {:induction false} PlanAllJoin(replies: seq<seq<seq<Entry>>>, now: int)
    requires forall i :: 0 <= i < |replies| ==> NonEmpty(replies[i])
    ensures PlanAll(replies, now) == Join(TierPlans(replies, now))
  {
    if |replies| > 0 {
      var n := |replies| - 1;
      var init := replies[..n];
      PlanAllJoin(init, now);
      assert TierPlans(replies, now)[..n] == TierPlans(init, now);
    }
  }

  /** When every plan inserts only well-formed rows, so does their join. */
  lemma {:induction false} JoinWf(ps: seq<Plan>)
    requires forall i :: 0 <= i < |ps| ==> InsertsWf(ps[i])
    ensures InsertsWf(Join(ps))
  {
    if |ps| > 0 {
      var n := |ps| - 1;
      JoinWf(ps[..n]);
      InsertsWfJoin(Join(ps[..n]), ps[n]);
    }
  }

  lemma InsertsWfJoin(p: Plan, q: Plan)
    requires InsertsWf(p) && InsertsWf(q)
    ensures InsertsWf(Plan(p.inserts + q.inserts, p.dead + q.dead))
  {
    var r := p.inserts + q.inserts;
    forall k | 0 <= k < |r|
      ensures RowWf(r[k])
    {
      if k >= |p.inserts| {
        assert r[k] == q.inserts[k - |p.inserts|];
      }
    }
  }

  /** The last tier's decisions are added to those of the tiers before it. */
  lemma PlanAllStep(replies: seq<seq<seq<Entry>>>, now: int)
    requires |replies| > 0 && forall i :: 0 <= i < |replies| ==> NonEmpty(replies[i])
    ensures var p, q := PlanAll(replies[..|replies| - 1], now), PlanTier(replies[|replies| - 1], now);
      PlanAll(replies, now) == Plan(p.inserts + q.inserts, p.dead + q.dead)
  {
  }

  predicate Below(ids: set<int>, bound: int) {
    forall i :: i in ids ==> i < bound
  }

  /** When each plan deletes only rowids below a bound, so does their join. */
  lemma {:induction false} JoinBelow(ps: seq<Plan>, bound: int)
    requires forall i :: 0 <= i < |ps| ==> Below(ps[i].dead, bound)
    ensures Below(Join(ps).dead, bound)
  {
    if |ps| > 0 {
      var n := |ps| - 1;
      JoinBelow(ps[..n], bound);
      BelowJoin(Join(ps[..n]), ps[n], bound);
    }
  }

  lemma BelowJoin(p: Plan, q: Plan, bound: int)
    requires Below(p.dead, bound) && Below(q.dead, bound)
    ensures Below(Plan(p.inserts + q.inserts, p.dead + q.dead).dead, bound)
  {
  }

  /** The rowids a run deletes are rowids of the table. */
  lemma PlanAllDead(t: seq<Entry>, now: int, replies: seq<seq<seq<Entry>>>)
    requires RunReplies(t, now, replies)
    ensures Below(PlanAll(replies, now).dead, NextId(t))
  {
    var ps := TierPlans(replies, now);
    forall i | 0 <= i < |ps|
      ensures Below(ps[i].dead, NextId(t))
    {
      assert TierReply(t, now, Tiers[i], replies[i]);
      TierDeadFromTable(t, now, Tiers[i], replies[i]);
    }
    JoinBelow(ps, NextId(t));
    PlanAllJoin(replies, now);
  }

  /** A run either leaves the table as it was (a failure before the commit),
      or keeps the rows of the table whose rowid is not deleted, in order, and
      appends the merged rows under fresh rowids: the deletes never remove a
      row the run inserted, and a failure after the commit changes nothing. */
  lemma PackRunShape(t: seq<Entry>, now: int, replies: seq<seq<seq<Entry>>>, failure: Failure)
    requires RunReplies(t, now, replies)
    ensures failure == BeforeCommit ==> PackRun(t, now, replies, failure) == t
    ensures failure != BeforeCommit ==>
      var plan := PlanAll(replies, now);
      PackRun(t, now, replies, failure) == Keep(t, plan.dead) + Numbered(plan.inserts, NextId(t))
  {
    assert replies[..|replies|] == replies;
    PlanAllDead(t, now, replies);
    var plan := PlanAll(replies, now);
    CommitShape(t, plan.inserts, plan.dead);
  }

  /** A run keeps the table's invariants: every row well-formed, every rowid
      unique. */
  lemma PackRunPreservesWf(t: seq<Entry>, now: int, replies: seq<seq<seq<Entry>>>, failure: Failure)
    requires RunReplies(t, now, replies) && AllWf(t) && UniqueIds(t)
    ensures AllWf(PackRun(t, now, replies, failure)) && UniqueIds(PackRun(t, now, replies, failure))
  {
    var ps := TierPlans(replies, now);
    forall i | 0 <= i < |ps|
      ensures InsertsWf(ps[i])
    {
      TierInsertsWf(t, now, Tiers[i], replies[i]);
    }
    JoinWf(ps);
    PlanAllJoin(replies, now);
    var plan := PlanAll(replies, now);
    CommitWf(t, plan.inserts, plan.dead);
    CommitUnique(t, plan.inserts, plan.dead);
  }

  /** Two raw samples of value `v` of one item that is not a `sum` item,
      recorded 0 and 1 ms after the epoch under rowids 1 and 2. */
  function TwoSamples(item: string, v: real): seq<Entry> {
    [Entry(1, RawRow(0, item, "", v)), Entry(2, RawRow(1, item, "", v))]
  }

  /** A time more than 7 and less than 32 days after the epoch: the pair is
      older than the 7-day and the 1-day boundary, and the boundaries of the
      three coarse tiers lie before the epoch. */
  predicate PairWindow(now: int) {
    7 * DayMs < now < 32 * DayMs
  }

  /** What SQLite answers every tier over `TwoSamples` at such a time: nothing
      for the three coarse tiers, whose boundaries lie before the epoch, and
      the pair as one group for the 7-day and the 1-day tier. */
  function TwoSamplesReplies(item: string, v: real): (r: seq<seq<seq<Entry>>>)
    ensures |r| == 5 && forall i :: 0 <= i < |r| ==> NonEmpty(r[i])
  {
    var pair: seq<seq<Entry>> := [TwoSamples(item, v)];
    assert NonEmpty(pair);
    [[], [], [], pair, pair]
  }

  lemma TwoSamplesWf(item: string, v: real)
    ensures AllWf(TwoSamples(item, v)) && UniqueIds(TwoSamples(item, v)) && TotalCnt(TwoSamples(item, v)) == 2
  {
    var t := TwoSamples(item, v);
    assert multiset(t) == multiset{t[0], t[1]};
    assert TotalCnt(t[1..]) == 1;
  }

  /** The three coarse tiers select nothing and get an empty reply. */
  lemma TwoSamplesCoarse(item: string, v: real, i: int, now: int)
    requires PairWindow(now)
    requires 0 <= i < 3
    ensures TierReply(TwoSamples(item, v), now, Tiers[i], [])
  {
    assert Boundary(now, Tiers[i]) < 0;
    assert Older(TwoSamples(item, v), now, Tiers[i]) == [];
  }

  /** The 7-day and the 1-day tier select both samples. */
  lemma TwoSamplesOlder(item: string, v: real, i: int, now: int)
    requires PairWindow(now)
    requires 3 <= i < 5
    ensures Older(TwoSamples(item, v), now, Tiers[i]) == TwoSamples(item, v)
  {
    assert Boundary(now, Tiers[i]) >= 1;
    SelectAll(TwoSamples(item, v), Where(None, None, Boundary(now, Tiers[i]), true));
  }

  /** Both samples fall into the first bucket of those tiers. */
  lemma TwoSamplesOneBucket(item: string, v: real, i: int)
    requires 3 <= i < 5
    ensures GroupKey(TwoSamples(item, v)[0], Width(Tiers[i])) == GroupKey(TwoSamples(item, v)[1], Width(Tiers[i]))
  {
    var w := Width(Tiers[i]);
    TierWidths();
    assert w > 1;
    assert Bucket(0, w) == 0 && Bucket(1, w) == 0;
  }

  /** The 7-day and the 1-day tier select both samples, into one bucket. */
  lemma TwoSamplesFine(item: string, v: real, i: int, now: int)
    requires PairWindow(now)
    requires 3 <= i < 5
    ensures TierReply(TwoSamples(item, v), now, Tiers[i], [TwoSamples(item, v)])
  {
    var t := TwoSamples(item, v);
    TwoSamplesOlder(item, v, i, now);
    TwoSamplesOneBucket(item, v, i);
    var one: seq<seq<Entry>> := [t];
    assert one[..0] == [];
    assert Flatten(one) == t;
  }

  lemma TwoSamplesRun(item: string, v: real, now: int)
    requires PairWindow(now)
    ensures RunReplies(TwoSamples(item, v), now, TwoSamplesReplies(item, v))
  {
    forall i | 0 <= i < |Tiers|
      ensures TierReply(TwoSamples(item, v), now, Tiers[i], TwoSamplesReplies(item, v)[i])
    {
      if i < 3 {
        TwoSamplesCoarse(item, v, i, now);
      } else {
        TwoSamplesFine(item, v, i, now);
      }
    }
  }

  /** Each of the two fine tiers merges the pair into one row and deletes both rowids. */
  lemma TwoSamplesTier(item: string, v: real, now: int)
    ensures PlanTier([TwoSamples(item, v)], now) == Plan([Merge(TwoSamples(item, v), now)], {1, 2})
  {
    var t := TwoSamples(item, v);
    var one: seq<seq<Entry>> := [t];
    assert one[..0] == [];
    assert multiset(t) == multiset{t[0], t[1]};
  }

  /** Tiers with empty replies decide nothing. */
  lemma {:induction false} PlanAllEmpty(replies: seq<seq<seq<Entry>>>, now: int, n: nat)
    requires n <= |replies| && forall i :: 0 <= i < |replies| ==> NonEmpty(replies[i])
    requires forall i :: 0 <= i < n ==> replies[i] == []
    ensures PlanAll(replies[..n], now) == Plan([], {})
  {
    if n > 0 {
      var prefix := replies[..n];
      assert prefix[..n - 1] == replies[..n - 1];
      PlanAllEmpty(replies, now, n - 1);
      PlanAllStep(prefix, now);
    }
  }

  /** After tiers with empty replies only, a run decides what its last tier
      decides. */
  lemma PlanAllLast(replies: seq<seq<seq<Entry>>>, now: int)
    requires |replies| > 0 && forall i :: 0 <= i < |replies| ==> NonEmpty(replies[i])
    requires forall i :: 0 <= i < |replies| - 1 ==> replies[i] == []
    ensures PlanAll(replies, now) == PlanTier(replies[|replies| - 1], now)
  {
    var p := PlanTier(replies[|replies| - 1], now);
    PlanAllEmpty(replies, now, |replies| - 1);
    PlanAllStep(replies, now);
    assert [] + p.inserts == p.inserts;
  }

  /** A run whose three coarse tiers get empty replies decides what the two
      fine tiers decide, in turn. */
  lemma PlanAllFineOnly(replies: seq<seq<seq<Entry>>>, now: int)
    requires |replies| == 5 && forall i :: 0 <= i < |replies| ==> NonEmpty(replies[i])
    requires replies[0] == [] && replies[1] == [] && replies[2] == []
    ensures var p, q := PlanTier(replies[3], now), PlanTier(replies[4], now);
      PlanAll(replies, now) == Plan(p.inserts + q.inserts, p.dead + q.dead)
  {
    PlanAllLast(replies[..4], now);
    assert replies[..4][3] == replies[3];
    PlanAllStep(replies, now);
  }

  /** The 7-day and the 1-day tier each merge the pair. */
  lemma TwoSamplesPlan(item: string, v: real, now: int)
    ensures PlanAll(TwoSamplesReplies(item, v), now).inserts == [Merge(TwoSamples(item, v), now), Merge(TwoSamples(item, v), now)]
    ensures PlanAll(TwoSamplesReplies(item, v), now).dead == {1, 2}
  {
    var replies := TwoSamplesReplies(item, v);
    TwoSamplesTier(item, v, now);
    assert replies[3] == [TwoSamples(item, v)] && replies[4] == [TwoSamples(item, v)];
    PlanAllFineOnly(replies, now);
  }

  /** The commit keeps only the two merged rows, under rowids 3 and 4. */
  lemma TwoSamplesCommit(item: string, v: real, m: Row)
    ensures Commit(TwoSamples(item, v), [m, m], {1, 2}) == [Entry(3, m), Entry(4, m)]
  {
    var added := [Entry(3, m), Entry(4, m)];
    var dead := {1, 2};
    assert NextId(TwoSamples(item, v)) == 3 by {
      assert NextId(TwoSamples(item, v)[1..]) == 3;
    }
    assert Numbered([m, m], 3) == added by {
      NumberedShape([m, m], 3);
    }
    assert Keep(TwoSamples(item, v) + added, dead) == added by {
      var all := TwoSamples(item, v) + added;
      assert all[0].id in dead && all[1..][0].id in dead;
      assert all[1..][1..] == added;
      KeepNone(added, dead);
    }
  }

  lemma TwoRowsCnt(m: Row)
    ensures TotalCnt([Entry(3, m), Entry(4, m)]) == 2 * m.cnt
  {
    var after := [Entry(3, m), Entry(4, m)];
    assert TotalCnt(after[1..]) == m.cnt;
  }

  /** The table after the run holds the two merged rows only. */
  lemma TwoSamplesAfter(item: string, v: real, now: int)
    requires PairWindow(now)
    ensures RunReplies(TwoSamples(item, v), now, TwoSamplesReplies(item, v))
    ensures var m := Merge(TwoSamples(item, v), now);
      PackRun(TwoSamples(item, v), now, TwoSamplesReplies(item, v), NoFailure) == [Entry(3, m), Entry(4, m)]
  {
    TwoSamplesRun(item, v, now);
    TwoSamplesPlan(item, v, now);
    TwoSamplesCommit(item, v, Merge(TwoSamples(item, v), now));
  }

  /** The run as written does not conserve the sample count: both raw samples
      are older than both the 7-day and the 1-day boundary and share a bucket
      of both tiers. Each tier reads the table as it was before the run, so
      both merge the pair; the table ends with two rows of two samples each. */
  lemma PackRunCountsSamplesTwice(item: string, v: real, now: int)
    requires PairWindow(now)
    ensures AllWf(TwoSamples(item, v)) && UniqueIds(TwoSamples(item, v)) && TotalCnt(TwoSamples(item, v)) == 2
    ensures RunReplies(TwoSamples(item, v), now, TwoSamplesReplies(item, v))
    ensures TotalCnt(PackRun(TwoSamples(item, v), now, TwoSamplesReplies(item, v), NoFailure)) == 4
  {
    TwoSamplesAfter(item, v, now);
    TwoSamplesWf(item, v);
    TwoRowsCnt(Merge(TwoSamples(item, v), now));
  }

  /** One tier applied to the table it read: its inserts and deletes committed. */
  function ApplyTier(t: seq<Entry>, now: int, gs: seq<seq<Entry>>): seq<Entry>
    requires NonEmpty(gs)
  {
    var p := PlanTier(gs, now);
    Commit(t, p.inserts, p.dead)
  }

  /** Replies for tiers applied one after another: each tier's reply groups the
      table the previous tiers left. */
  ghost predicate Chained(t: seq<Entry>, now: int, tiers: seq<Tier>, replies: seq<seq<seq<Entry>>>)
    decreases |tiers|
  {
    && |replies| == |tiers|
    && (|tiers| > 0 ==>
          && TierReply(t, now, tiers[0], replies[0])
          && Chained(ApplyTier(t, now, replies[0]), now, tiers[1..], replies[1..]))
  }

  /** The tiers applied in turn, each to the table the previous one left. */
  function ApplyTiers(t: seq<Entry>, now: int, tiers: seq<Tier>, replies: seq<seq<seq<Entry>>>): seq<Entry>
    requires Chained(t, now, tiers, replies)
    decreases |tiers|
  {
    if |tiers| == 0 then t
    else ApplyTiers(ApplyTier(t, now, replies[0]), now, tiers[1..], replies[1..])
  }

  /** Compaction with the tiers applied in turn, coarsest first,
      in one transaction that a failure before the commit rolls back. */
  function PackFixed(t: seq<Entry>, now: int, replies: seq<seq<seq<Entry>>>, failure: Failure): seq<Entry>
    requires Chained(t, now, Tiers, replies)
  {
    if failure == BeforeCommit then t else ApplyTiers(t, now, Tiers, replies)
  }

  /** Tiers applied in turn conserve the sample count and keep the table's
      invariants. */
  lemma {:induction false} ApplyTiersConserves(t: seq<Entry>, now: int, tiers: seq<Tier>, replies: seq<seq<seq<Entry>>>)
    requires Chained(t, now, tiers, replies) && UniqueIds(t) && AllWf(t)
    ensures TotalCnt(ApplyTiers(t, now, tiers, replies)) == TotalCnt(t)
    ensures UniqueIds(ApplyTiers(t, now, tiers, replies)) && AllWf(ApplyTiers(t, now, tiers, replies))
    decreases |tiers|
  {
    if |tiers| > 0 {
      var gs := replies[0];
      var p := PlanTier(gs, now);
      TierConservesCnt(t, now, tiers[0], gs);
      CommitUnique(t, p.inserts, p.dead);
      TierInsertsWf(t, now, tiers[0], gs);
      CommitWf(t, p.inserts, p.dead);
      ApplyTiersConserves(ApplyTier(t, now, gs), now, tiers[1..], replies[1..]);
    }
  }

  /** The corrected compaction conserves the number of samples the table
      stands for, whether it commits or rolls back, and keeps every row
      well-formed and every rowid unique. */
  lemma PackFixedConservesCnt(t: seq<Entry>, now: int, replies: seq<seq<seq<Entry>>>, failure: Failure)
    requires Chained(t, now, Tiers, replies) && UniqueIds(t) && AllWf(t)
    ensures TotalCnt(PackFixed(t, now, replies, failure)) == TotalCnt(t)
    ensures UniqueIds(PackFixed(t, now, replies, failure)) && AllWf(PackFixed(t, now, replies, failure))
  {
    ApplyTiersConserves(t, now, Tiers, replies);
  }
}
