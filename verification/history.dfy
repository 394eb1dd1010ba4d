/** The `history` table (sqlite/__init__.py:38-39) as a sequence of rows with
    SQLite rowids, and the insert-then-delete commit the compactor performs. */
module History {
  import opened Points

  /** One history row: time in milliseconds, item id, number of raw samples
      it stands for, last value, sum, minimum, maximum, time-weighted average
      and time-weighted share of non-zero values. */
  datatype Row = Row(time: int, item: string, cnt: int, val: real, vsum: real,
                     vmin: real, vmax: real, vavg: real, power: real)

  /** A stored row with its rowid. */
  datatype Entry = Entry(id: int, row: Row)

  /** The value column a grouped query concatenates beside `time`. */
  datatype Column = Val | Vavg | Power

  function ColumnOf(r: Row, c: Column): real {
    match c
    case Val => r.val
    case Vavg => r.vavg
    case Power => r.power
  }

  /** `zip(times, values)` of a group: one point per row, in row order. */
  function Project(g: seq<Entry>, c: Column): seq<Point> {
    seq(|g|, k requires 0 <= k < |g| => Point(g[k].row.time, ColumnOf(g[k].row, c)))
  }

  /** The `vmin`, `vmax` and `vsum` columns of a group, in row order. */
  function Vmins(g: seq<Entry>): seq<real> {
    seq(|g|, k requires 0 <= k < |g| => g[k].row.vmin)
  }

  function Vmaxs(g: seq<Entry>): seq<real> {
    seq(|g|, k requires 0 <= k < |g| => g[k].row.vmax)
  }

  function Vsums(g: seq<Entry>): seq<real> {
    seq(|g|, k requires 0 <= k < |g| => g[k].row.vsum)
  }

  lemma VsumsAppend(a: seq<Entry>, b: seq<Entry>)
    ensures Vsums(a + b) == Vsums(a) + Vsums(b)
  {
  }

  /** The row invariant: a positive sample count, the average
      between minimum and maximum, and the active share a fraction. */
  predicate RowWf(r: Row) {
    r.cnt >= 1 && r.vmin <= r.vavg <= r.vmax && 0.0 <= r.power <= 1.0
  }

  ghost predicate AllWf(t: seq<Entry>) {
    forall k :: 0 <= k < |t| ==> RowWf(t[k].row)
  }

  /** Every entry occurs once and no two entries share a rowid. */
  ghost predicate UniqueIn(m: multiset<Entry>) {
    && (forall x | x in m :: m[x] == 1)
    && (forall x, y | x in m && y in m && x.id == y.id :: x == y)
  }

  ghost predicate UniqueIds(t: seq<Entry>) {
    UniqueIn(multiset(t))
  }

  function IdsOf(m: multiset<Entry>): set<int> {
    set x | x in m :: x.id
  }

  lemma IdsOfUnion(a: multiset<Entry>, b: multiset<Entry>)
    ensures IdsOf(a + b) == IdsOf(a) + IdsOf(b)
  {
  }

  /** The rowid SQLite gives the next insert: one more than the largest rowid,
      or 1 in an empty table. */
  function NextId(t: seq<Entry>): (r: int)
    ensures forall k :: 0 <= k < |t| ==> t[k].id < r
    ensures |t| == 0 ==> r == 1
    ensures |t| > 0 ==> exists k :: 0 <= k < |t| && r == t[k].id + 1
  {
    if |t| == 0 then 1
    else if |t| == 1 then t[0].id + 1
    else
      var n := NextId(t[1..]);
      if t[0].id + 1 >= n then t[0].id + 1 else n
  }

  /** Rows inserted one after another starting at rowid `next`. */
  function Numbered(rows: seq<Row>, next: int): seq<Entry>
  {
    if |rows| == 0 then []
    else [Entry(next, rows[0])] + Numbered(rows[1..], next + 1)
  }

  /** `DELETE ... WHERE rowid IN dead`: the entries whose rowid is not dead,
      in table order. */
  function Keep(t: seq<Entry>, dead: set<int>): (r: seq<Entry>)
    ensures multiset(r) <= multiset(t)
    ensures forall x :: x in r <==> x in t && x.id !in dead
  {
    if |t| == 0 then []
    else
      assert t == [t[0]] + t[1..];
      if t[0].id in dead then Keep(t[1..], dead)
      else [t[0]] + Keep(t[1..], dead)
  }

  /** The commit of a compaction: insert the new rows, then delete the dead
      rowids. */
  function Commit(t: seq<Entry>, inserts: seq<Row>, dead: set<int>): seq<Entry>
  {
    Keep(t + Numbered(inserts, NextId(t)), dead)
  }

  /** Total number of raw samples the entries stand for. */
  function TotalCnt(t: seq<Entry>): int {
    if |t| == 0 then 0 else t[0].row.cnt + TotalCnt(t[1..])
  }

  function RowsCnt(rows: seq<Row>): int {
    if |rows| == 0 then 0 else rows[0].cnt + RowsCnt(rows[1..])
  }

  lemma {:induction false} RowsCntAppend(a: seq<Row>, b: seq<Row>)
    ensures RowsCnt(a + b) == RowsCnt(a) + RowsCnt(b)
  {
    if |a| > 0 {
      assert (a + b)[0] == a[0];
      assert (a + b)[1..] == a[1..] + b;
      RowsCntAppend(a[1..], b);
    } else {
      assert a + b == b;
    }
  }

  lemma {:induction false} TotalCntAtLeast(g: seq<Entry>)
    requires forall k :: 0 <= k < |g| ==> g[k].row.cnt >= 1
    ensures TotalCnt(g) >= |g|
  {
    if |g| > 0 {
      TotalCntAtLeast(g[1..]);
    }
  }

  /** A commit of well-formed rows into a well-formed table leaves it well-formed. */
  lemma CommitWf(t: seq<Entry>, inserts: seq<Row>, dead: set<int>)
    requires AllWf(t)
    requires forall k :: 0 <= k < |inserts| ==> RowWf(inserts[k])
    ensures AllWf(Commit(t, inserts, dead))
  {
    var added := Numbered(inserts, NextId(t));
    NumberedShape(inserts, NextId(t));
    var r := Commit(t, inserts, dead);
    forall k | 0 <= k < |r|
      ensures RowWf(r[k].row)
    {
      assert r[k] in r;
      assert r[k] in t + added;
      if r[k] in t {
        var j :| 0 <= j < |t| && t[j] == r[k];
      } else {
        var j :| 0 <= j < |added| && added[j] == r[k];
      }
    }
  }

  lemma {:induction false} NumberedShape(rows: seq<Row>, next: int)
    ensures |Numbered(rows, next)| == |rows|
    ensures forall k :: 0 <= k < |rows| ==> Numbered(rows, next)[k] == Entry(next + k, rows[k])
  {
    if |rows| > 0 {
      NumberedShape(rows[1..], next + 1);
    }
  }

  lemma {:induction false} NumberedUnique(rows: seq<Row>, next: int)
    ensures UniqueIds(Numbered(rows, next))
  {
    if |rows| > 0 {
      var tail := Numbered(rows[1..], next + 1);
      NumberedUnique(rows[1..], next + 1);
      var x := Entry(next, rows[0]);
      assert Numbered(rows, next) == [x] + tail;
      NumberedAbove(rows[1..], next + 1);
      assert multiset([x] + tail) == multiset{x} + multiset(tail);
      assert UniqueIn(multiset{x});
      UniqueUnion(multiset{x}, multiset(tail));
    }
  }

  /** Rows numbered from `next` get rowids from `next` on. */
  lemma NumberedAbove(rows: seq<Row>, next: int)
    ensures forall y | y in multiset(Numbered(rows, next)) :: y.id >= next
  {
    var s := Numbered(rows, next);
    NumberedShape(rows, next);
    forall y: Entry | y in multiset(s)
      ensures y.id >= next
    {
      var k :| 0 <= k < |s| && s[k] == y;
    }
  }

  lemma {:induction false} NumberedCnt(rows: seq<Row>, next: int)
    ensures TotalCnt(Numbered(rows, next)) == RowsCnt(rows)
  {
    if |rows| > 0 {
      NumberedCnt(rows[1..], next + 1);
    }
  }

  lemma NumberedFacts(rows: seq<Row>, next: int)
    ensures |Numbered(rows, next)| == |rows|
    ensures forall k :: 0 <= k < |rows| ==> Numbered(rows, next)[k] == Entry(next + k, rows[k])
    ensures UniqueIds(Numbered(rows, next))
    ensures TotalCnt(Numbered(rows, next)) == RowsCnt(rows)
  {
    NumberedShape(rows, next);
    NumberedUnique(rows, next);
    NumberedCnt(rows, next);
  }

  lemma {:induction false} TotalCntAppend(a: seq<Entry>, b: seq<Entry>)
    ensures TotalCnt(a + b) == TotalCnt(a) + TotalCnt(b)
  {
    if |a| > 0 {
      assert (a + b)[0] == a[0];
      assert (a + b)[1..] == a[1..] + b;
      TotalCntAppend(a[1..], b);
    } else {
      assert a + b == b;
    }
  }

  /** The sample total depends only on which entries there are. */
  lemma {:induction false} TotalCntPerm(a: seq<Entry>, b: seq<Entry>)
    requires multiset(a) == multiset(b)
    ensures TotalCnt(a) == TotalCnt(b)
  {
    if |a| == 0 {
      assert |b| == |multiset(b)| == 0;
    } else {
      var x := a[0];
      assert x in multiset(b);
      var j :| 0 <= j < |b| && b[j] == x;
      var b' := b[..j] + b[j + 1..];
      RemoveAt(b, j);
      assert a == [x] + a[1..];
      assert multiset(a[1..]) == multiset(a) - multiset{x};
      TotalCntPerm(a[1..], b');
    }
  }

  /** Taking out the entry at `j` takes out its count and one copy of it. */
  lemma RemoveAt(b: seq<Entry>, j: int)
    requires 0 <= j < |b|
    ensures multiset(b[..j] + b[j + 1..]) == multiset(b) - multiset{b[j]}
    ensures TotalCnt(b) == b[j].row.cnt + TotalCnt(b[..j] + b[j + 1..])
  {
    var l, x, r := b[..j], b[j], b[j + 1..];
    assert b == l + ([x] + r);
    RemoveMiddle(l, x, r);
  }

  lemma RemoveMiddle(l: seq<Entry>, x: Entry, r: seq<Entry>)
    ensures multiset(l + r) == multiset(l + ([x] + r)) - multiset{x}
    ensures TotalCnt(l + ([x] + r)) == x.row.cnt + TotalCnt(l + r)
  {
    assert multiset(l + ([x] + r)) == multiset(l) + multiset{x} + multiset(r);
    assert multiset(l + r) == multiset(l) + multiset(r);
    TotalCntAppend(l, [x] + r);
    TotalCntAppend(l, r);
    assert ([x] + r)[1..] == r;
  }

  lemma UniqueSub(small: multiset<Entry>, big: multiset<Entry>)
    requires UniqueIn(big) && small <= big
    ensures forall x | x in small :: small[x] == 1
    ensures forall x, y | x in small && y in small && x.id == y.id :: x == y
  {
    forall x | x in small
      ensures small[x] == 1
    {
      assert big[x] == 1;
    }
  }

  lemma {:induction false} KeepSameIds(t: seq<Entry>, a: set<int>, b: set<int>)
    requires forall x :: x in t ==> (x.id in a <==> x.id in b)
    ensures Keep(t, a) == Keep(t, b)
  {
    if |t| > 0 {
      assert t[0] in t;
      assert forall x :: x in t[1..] ==> x in t;
      KeepSameIds(t[1..], a, b);
    }
  }

  lemma UniqueTail(t: seq<Entry>)
    requires |t| > 0 && UniqueIds(t)
    ensures UniqueIds(t[1..])
    ensures t[0] !in multiset(t[1..])
    ensures multiset(t) == multiset{t[0]} + multiset(t[1..])
  {
    assert t == [t[0]] + t[1..];
    assert multiset(t) == multiset{t[0]} + multiset(t[1..]);
    UniqueSub(multiset(t[1..]), multiset(t));
    assert multiset(t)[t[0]] == 1;
  }

  lemma UniqueSameId(m: multiset<Entry>, x: Entry, y: Entry)
    requires UniqueIn(m) && x in m && y in m && x.id == y.id
    ensures x == y
  {
  }

  /** Removing the dead head from f changes no rowid verdict on the rest. */
  lemma DeadHeadIds(t: seq<Entry>, f: multiset<Entry>)
    requires |t| > 0 && UniqueIds(t) && f <= multiset(t)
    ensures Keep(t[1..], IdsOf(f)) == Keep(t[1..], IdsOf(f - multiset{t[0]}))
  {
    var f' := f - multiset{t[0]};
    UniqueTail(t);
    forall z | z in t[1..]
      ensures z.id in IdsOf(f) <==> z.id in IdsOf(f')
    {
      assert z in multiset(t[1..]);
      if z.id in IdsOf(f) {
        var w :| w in f && w.id == z.id;
        UniqueSameId(multiset(t), w, z);
        assert z != t[0];
        assert z in f';
      }
    }
    KeepSameIds(t[1..], IdsOf(f), IdsOf(f'));
  }

  /** The case of KeepSplit where the head's rowid is dead. */
  lemma KeepSplitDead(t: seq<Entry>, f: multiset<Entry>)
    requires |t| > 0 && UniqueIds(t) && f <= multiset(t)
    requires t[0].id in IdsOf(f)
    requires f - multiset{t[0]} <= multiset(t[1..]) ==>
      multiset(Keep(t[1..], IdsOf(f - multiset{t[0]}))) + (f - multiset{t[0]}) == multiset(t[1..])
    ensures multiset(Keep(t, IdsOf(f))) + f == multiset(t)
  {
    var x := t[0];
    UniqueTail(t);
    var y :| y in f && y.id == x.id;
    UniqueSameId(multiset(t), x, y);
    var f' := f - multiset{x};
    assert f' <= multiset(t[1..]);
    DeadHeadIds(t, f);
    var kept := Keep(t[1..], IdsOf(f'));
    assert Keep(t, IdsOf(f)) == kept;
    MultisetRestore(f, x);
    MultisetStep(multiset(kept), f', x, multiset(t[1..]), multiset(t));
  }

  lemma MultisetRestore(f: multiset<Entry>, x: Entry)
    requires x in f
    ensures f == (f - multiset{x}) + multiset{x}
  {
  }

  lemma MultisetStep(kept: multiset<Entry>, f': multiset<Entry>, x: Entry, rest: multiset<Entry>, all: multiset<Entry>)
    requires kept + f' == rest && all == multiset{x} + rest
    ensures kept + (f' + multiset{x}) == all
  {
  }

  /** The case of KeepSplit where the head survives. */
  lemma KeepSplitLive(t: seq<Entry>, f: multiset<Entry>)
    requires |t| > 0 && UniqueIds(t) && f <= multiset(t)
    requires t[0].id !in IdsOf(f)
    requires f <= multiset(t[1..]) ==> multiset(Keep(t[1..], IdsOf(f))) + f == multiset(t[1..])
    ensures multiset(Keep(t, IdsOf(f))) + f == multiset(t)
  {
    UniqueTail(t);
    assert t[0] !in f;
    assert f <= multiset(t[1..]);
    assert Keep(t, IdsOf(f)) == [t[0]] + Keep(t[1..], IdsOf(f));
  }

  /** Deleting by rowid the entries of a sub-collection f leaves exactly the
      entries not in f, provided rowids identify entries. */
  lemma {:induction false} KeepSplit(t: seq<Entry>, f: multiset<Entry>)
    requires UniqueIds(t) && f <= multiset(t)
    ensures multiset(Keep(t, IdsOf(f))) + f == multiset(t)
    decreases |t|
  {
    if |t| == 0 {
      assert f == multiset{};
    } else {
      UniqueTail(t);
      if t[0].id in IdsOf(f) {
        var f' := f - multiset{t[0]};
        if f' <= multiset(t[1..]) {
          KeepSplit(t[1..], f');
        }
        KeepSplitDead(t, f);
      } else {
        if f <= multiset(t[1..]) {
          KeepSplit(t[1..], f);
        }
        KeepSplitLive(t, f);
      }
    }
  }

  lemma {:induction false} KeepAppend(a: seq<Entry>, b: seq<Entry>, dead: set<int>)
    ensures Keep(a + b, dead) == Keep(a, dead) + Keep(b, dead)
  {
    if |a| > 0 {
      assert (a + b)[0] == a[0];
      assert (a + b)[1..] == a[1..] + b;
      KeepAppend(a[1..], b, dead);
    } else {
      assert a + b == b;
    }
  }

  lemma {:induction false} KeepNone(t: seq<Entry>, dead: set<int>)
    requires forall k :: 0 <= k < |t| ==> t[k].id !in dead
    ensures Keep(t, dead) == t
  {
    if |t| > 0 {
      KeepNone(t[1..], dead);
    }
  }

  /** When every dead rowid is an existing one, the commit keeps the surviving
      old rows in order and appends every inserted row under a fresh rowid. */
  lemma CommitShape(t: seq<Entry>, inserts: seq<Row>, dead: set<int>)
    requires forall i :: i in dead ==> i < NextId(t)
    ensures Commit(t, inserts, dead) == Keep(t, dead) + Numbered(inserts, NextId(t))
  {
    var added := Numbered(inserts, NextId(t));
    NumberedFacts(inserts, NextId(t));
    KeepAppend(t, added, dead);
    KeepNone(added, dead);
  }

  lemma UniqueUnion(m1: multiset<Entry>, m2: multiset<Entry>)
    requires UniqueIn(m1) && UniqueIn(m2)
    requires forall x, y | x in m1 && y in m2 :: x.id != y.id
    ensures UniqueIn(m1 + m2)
  {
    forall x | x in m1 + m2
      ensures (m1 + m2)[x] == 1
    {
      if x in m1 {
        assert x !in m2;
      }
    }
  }

  /** Every rowid of a table lies below its next rowid. */
  lemma BelowNext(t: seq<Entry>)
    ensures forall x | x in multiset(t) :: x.id < NextId(t)
  {
    forall x: Entry | x in multiset(t)
      ensures x.id < NextId(t)
    {
      var k :| 0 <= k < |t| && t[k] == x;
    }
  }

  /** Commit keeps rowids unique. */
  lemma CommitUnique(t: seq<Entry>, inserts: seq<Row>, dead: set<int>)
    requires UniqueIds(t)
    ensures UniqueIds(Commit(t, inserts, dead))
  {
    var n := NextId(t);
    var added := Numbered(inserts, n);
    NumberedFacts(inserts, n);
    NumberedAbove(inserts, n);
    BelowNext(t);
    UniqueUnion(multiset(t), multiset(added));
    assert multiset(t + added) == multiset(t) + multiset(added);
    UniqueSub(multiset(Commit(t, inserts, dead)), multiset(t + added));
  }

  /** The sample total after a commit that deletes exactly the entries of f
      (by rowid) and inserts rows: old total minus f's plus the inserted. */
  lemma CommitTotal(t: seq<Entry>, f: seq<Entry>, inserts: seq<Row>)
    requires UniqueIds(t) && multiset(f) <= multiset(t)
    ensures TotalCnt(Commit(t, inserts, IdsOf(multiset(f)))) == TotalCnt(t) - TotalCnt(f) + RowsCnt(inserts)
  {
    var dead := IdsOf(multiset(f));
    forall i | i in dead
      ensures i < NextId(t)
    {
      var x :| x in multiset(f) && x.id == i;
      assert x in multiset(t);
      var k :| 0 <= k < |t| && t[k] == x;
    }
    CommitShape(t, inserts, dead);
    KeepSplit(t, multiset(f));
    var kept := Keep(t, dead);
    assert multiset(kept + f) == multiset(t);
    TotalCntPerm(kept + f, t);
    TotalCntAppend(kept, f);
    NumberedFacts(inserts, NextId(t));
    TotalCntAppend(kept, Numbered(inserts, NextId(t)));
  }
}
