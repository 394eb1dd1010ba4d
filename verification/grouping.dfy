/** The row selections and `GROUP BY` replies the history queries read
    (sqlite/__init__.py:41-56, 278-297, 333-341). A reply is the list of
    groups SQLite returns: each group lists its rows in `group_concat` order. */
module Grouping {
  import opened Wrappers
  import opened Numeric
  import opened History

  /** A `WHERE` clause over the history table: optionally one item, optionally
      a lower time bound, and an upper time bound, inclusive or not. */
  datatype Where = Where(item: Option<string>, from: Option<int>, upTo: int, inclusive: bool)

  predicate Matches(w: Where, r: Row) {
    && (w.item.Some? ==> r.item == w.item.value)
    && (w.from.Some? ==> w.from.value <= r.time)
    && (if w.inclusive then r.time <= w.upTo else r.time < w.upTo)
  }

  /** The entries the clause selects, in table order. */
  function Select(t: seq<Entry>, w: Where): (r: seq<Entry>)
    ensures multiset(r) <= multiset(t)
    ensures forall x :: x in r <==> x in t && Matches(w, x.row)
  {
    if |t| == 0 then []
    else
      assert t == [t[0]] + t[1..];
      if Matches(w, t[0].row) then [t[0]] + Select(t[1..], w)
      else Select(t[1..], w)
  }

  /** A clause every entry matches selects the whole table. */
  lemma {:induction false} SelectAll(t: seq<Entry>, w: Where)
    requires forall k :: 0 <= k < |t| ==> Matches(w, t[k].row)
    ensures Select(t, w) == t
  {
    if |t| > 0 {
      SelectAll(t[1..], w);
      assert t == [t[0]] + t[1..];
    }
  }

  /** `CAST((time / width) AS INTEGER)`: SQLite divides integers truncating
      toward zero, and a division by zero is NULL, one group for all rows. */
  function Bucket(time: int, width: int): int {
    if width == 0 then 0 else TruncDiv(time, width)
  }

  /** The grouping key of the compaction and series queries. */
  function GroupKey(e: Entry, width: int): (string, int) {
    (e.row.item, Bucket(e.row.time, width))
  }

  predicate NonEmpty(gs: seq<seq<Entry>>) {
    forall i :: 0 <= i < |gs| ==> |gs[i]| > 0
  }

  /** All groups' rows, group after group. */
  function Flatten(gs: seq<seq<Entry>>): seq<Entry> {
    if |gs| == 0 then [] else Flatten(gs[..|gs| - 1]) + gs[|gs| - 1]
  }

  /** What SQLite may answer to a `GROUP BY` over the selected rows: non-empty
      groups, each of one key, no key twice, and together exactly the
      selected rows. The order of the groups and of the rows inside a group is
      left open. */
  ghost predicate IsReply(rows: seq<Entry>, width: int, gs: seq<seq<Entry>>) {
    && NonEmpty(gs)
    && (forall i, k :: 0 <= i < |gs| && 0 <= k < |gs[i]| ==> GroupKey(gs[i][k], width) == GroupKey(gs[i][0], width))
    && (forall i, j :: 0 <= i < j < |gs| ==> GroupKey(gs[i][0], width) != GroupKey(gs[j][0], width))
    && multiset(Flatten(gs)) == multiset(rows)
  }

  function MinTime(g: seq<Entry>): (m: int)
    requires |g| > 0
    ensures forall k :: 0 <= k < |g| ==> m <= g[k].row.time
    ensures exists k :: 0 <= k < |g| && m == g[k].row.time
  {
    if |g| == 1 then g[0].row.time
    else
      var rest := MinTime(g[1..]);
      assert forall k :: 1 <= k < |g| ==> g[k] == g[1..][k - 1];
      if g[0].row.time <= rest then g[0].row.time else rest
  }

  function MaxTime(g: seq<Entry>): (m: int)
    requires |g| > 0
    ensures forall k :: 0 <= k < |g| ==> g[k].row.time <= m
    ensures exists k :: 0 <= k < |g| && m == g[k].row.time
  {
    if |g| == 1 then g[0].row.time
    else
      var rest := MaxTime(g[1..]);
      assert forall k :: 1 <= k < |g| ==> g[k] == g[1..][k - 1];
      if g[0].row.time >= rest then g[0].row.time else rest
  }

  /** `ORDER BY time DESC`: for one item, a group comes before every group of
      older rows. (The buckets of one item are disjoint time intervals, so
      ordering the groups by any one of their times orders them entirely.) */
  ghost predicate NewestFirst(gs: seq<seq<Entry>>) {
    forall i, j :: 0 <= i < j < |gs| && |gs[i]| > 0 && |gs[j]| > 0 && gs[i][0].row.item == gs[j][0].row.item ==>
      MinTime(gs[i]) > MaxTime(gs[j])
  }

  /** `ORDER BY time ASC`, per item. */
  ghost predicate OldestFirst(gs: seq<seq<Entry>>) {
    forall i, j :: 0 <= i < j < |gs| && |gs[i]| > 0 && |gs[j]| > 0 && gs[i][0].row.item == gs[j][0].row.item ==>
      MaxTime(gs[i]) < MinTime(gs[j])
  }

  /** The groups of more than one row, in reply order. */
  function Multi(gs: seq<seq<Entry>>): (r: seq<seq<Entry>>)
    ensures forall i :: 0 <= i < |r| ==> |r[i]| >= 2
  {
    if |gs| == 0 then []
    else
      var g := gs[|gs| - 1];
      Multi(gs[..|gs| - 1]) + (if |g| >= 2 then [g] else [])
  }

  /** The groups of exactly one row, in reply order. */
  function Singles(gs: seq<seq<Entry>>): (r: seq<seq<Entry>>)
    ensures forall i :: 0 <= i < |r| ==> |r[i]| == 1
  {
    if |gs| == 0 then []
    else
      var g := gs[|gs| - 1];
      Singles(gs[..|gs| - 1]) + (if |g| == 1 then [g] else [])
  }

  lemma {:induction false} FlattenAppend(a: seq<seq<Entry>>, b: seq<seq<Entry>>)
    ensures multiset(Flatten(a + b)) == multiset(Flatten(a)) + multiset(Flatten(b))
    decreases |b|
  {
    if |b| == 0 {
      assert a + b == a;
    } else {
      var b' := b[..|b| - 1];
      assert (a + b)[..|a + b| - 1] == a + b';
      FlattenAppend(a, b');
    }
  }

  /** Splitting a non-empty reply into its multi-row and one-row groups loses
      and duplicates no row. */
  lemma {:induction false} FlattenSplit(gs: seq<seq<Entry>>)
    requires NonEmpty(gs)
    ensures multiset(Flatten(gs)) == multiset(Flatten(Multi(gs))) + multiset(Flatten(Singles(gs)))
  {
    if |gs| > 0 {
      var done, g := gs[..|gs| - 1], gs[|gs| - 1];
      FlattenSplit(done);
      var m, s := multiset(Flatten(Multi(done))), multiset(Flatten(Singles(done)));
      assert multiset(Flatten(gs)) == m + s + multiset(g);
      if |g| >= 2 {
        assert Multi(gs) == Multi(done) + [g];
        assert Singles(gs) == Singles(done) + [] == Singles(done);
        FlattenSnoc(Multi(done), g);
        assert multiset(Flatten(Multi(gs))) == m + multiset(g);
        assert multiset(Flatten(Singles(gs))) == s;
        SplitStep(multiset(Flatten(gs)), multiset(Flatten(Multi(gs))), multiset(Flatten(Singles(gs))), m, s, multiset(g));
      } else {
        assert Multi(gs) == Multi(done) + [] == Multi(done);
        assert Singles(gs) == Singles(done) + [g];
        FlattenSnoc(Singles(done), g);
        assert multiset(Flatten(Multi(gs))) == m;
        assert multiset(Flatten(Singles(gs))) == s + multiset(g);
        SplitStep(multiset(Flatten(gs)), multiset(Flatten(Singles(gs))), multiset(Flatten(Multi(gs))), s, m, multiset(g));
      }
    }
  }

  /** One step of the split: the new group joins one side only. */
  lemma SplitStep(all: multiset<Entry>, grown: multiset<Entry>, kept: multiset<Entry>,
                  a: multiset<Entry>, b: multiset<Entry>, g: multiset<Entry>)
    requires all == a + b + g || all == b + a + g
    requires grown == a + g && kept == b
    ensures all == grown + kept
  {
  }

  lemma FlattenSnoc(a: seq<seq<Entry>>, g: seq<Entry>)
    ensures multiset(Flatten(a + [g])) == multiset(Flatten(a)) + multiset(g)
  {
    assert (a + [g])[..|a|] == a;
  }

  /** The row of a one-row group is among the rows of the one-row groups. */
  lemma {:induction false} SingleInSingles(gs: seq<seq<Entry>>, i: int)
    requires 0 <= i < |gs| && |gs[i]| == 1
    ensures gs[i][0] in multiset(Flatten(Singles(gs)))
  {
    var done, g := gs[..|gs| - 1], gs[|gs| - 1];
    var s := if |g| == 1 then [g] else [];
    FlattenAppend(Singles(done), s);
    if i == |gs| - 1 {
      assert s == [g];
      assert Flatten(s) == Flatten(s[..0]) + g;
      assert g[0] in multiset(Flatten(s));
    } else {
      assert done[i] == gs[i];
      SingleInSingles(done, i);
    }
  }

  /** Every row of a group is among the flattened rows. */
  lemma {:induction false} GroupInFlatten(gs: seq<seq<Entry>>, i: int, k: int)
    requires 0 <= i < |gs| && 0 <= k < |gs[i]|
    ensures gs[i][k] in multiset(Flatten(gs))
  {
    var done := gs[..|gs| - 1];
    if i == |gs| - 1 {
      assert Flatten(gs) == Flatten(done) + gs[i];
      assert gs[i][k] in Flatten(gs);
    } else {
      assert done[i] == gs[i];
      GroupInFlatten(done, i, k);
      assert Flatten(gs) == Flatten(done) + gs[|gs| - 1];
    }
  }
}
