/** (time, value) pairs and Python's ascending sort on them. */
module Points {

  /** A time in integer milliseconds paired with a value. */
  datatype Point = Point(time: int, val: real)

  /** Python's tuple order on `(time, value)`: by time, then by value. */
  predicate Le(a: Point, b: Point) {
    a.time < b.time || (a.time == b.time && a.val <= b.val)
  }

  predicate SortedAsc(s: seq<Point>) {
    forall i, j :: 0 <= i < j < |s| ==> Le(s[i], s[j])
  }

  /** Inserts p into the ascending sequence s. */
  function Insert(p: Point, s: seq<Point>): (r: seq<Point>)
    requires SortedAsc(s)
    ensures SortedAsc(r)
    ensures multiset(r) == multiset(s) + multiset{p}
  {
    if |s| == 0 then [p]
    else if Le(p, s[0]) then [p] + s
    else
      var t := Insert(p, s[1..]);
      assert s == [s[0]] + s[1..];
      assert forall k :: 0 <= k < |t| ==> Le(s[0], t[k]) by {
        forall k | 0 <= k < |t|
          ensures Le(s[0], t[k])
        {
          assert t[k] in multiset(t);
          if t[k] != p {
            assert t[k] in multiset(s[1..]);
            var m :| 0 <= m < |s[1..]| && s[1..][m] == t[k];
            assert s[m + 1] == t[k];
          }
        }
      }
      [s[0]] + t
  }

  /** `sorted(s)`: the ascending permutation of s. */
  function SortAsc(s: seq<Point>): (r: seq<Point>)
    ensures SortedAsc(r)
    ensures multiset(r) == multiset(s)
    ensures |r| == |s|
  {
    if |s| == 0 then []
    else
      assert s == [s[0]] + s[1..];
      Insert(s[0], SortAsc(s[1..]))
  }

  lemma TailMultiset(s: seq<Point>)
    requires |s| > 0
    ensures multiset(s[1..]) == multiset(s) - multiset{s[0]}
  {
    assert s == [s[0]] + s[1..];
  }

  /** The least point of a sorted sequence is its head. */
  lemma HeadIsLeast(s: seq<Point>, x: Point)
    requires SortedAsc(s) && x in multiset(s)
    ensures Le(s[0], x)
  {
    var j :| 0 <= j < |s| && s[j] == x;
    if j != 0 {
      assert Le(s[0], s[j]);
    }
  }

  /** The ascending order of a collection of points is unique: two sorted
      sequences holding the same points are equal. */
  lemma {:induction false} SortedUnique(a: seq<Point>, b: seq<Point>)
    requires SortedAsc(a) && SortedAsc(b)
    requires multiset(a) == multiset(b)
    ensures a == b
  {
    if |a| == 0 {
      assert |multiset(b)| == 0;
    } else {
      assert |b| == |multiset(b)| == |multiset(a)| == |a|;
      HeadIsLeast(b, a[0]);
      HeadIsLeast(a, b[0]);
      assert a[0] == b[0];
      TailMultiset(a);
      TailMultiset(b);
      SortedUnique(a[1..], b[1..]);
      assert a == [a[0]] + a[1..];
      assert b == [b[0]] + b[1..];
    }
  }

  /** Sorting depends only on which points there are, not on their order. */
  lemma SortPermutation(a: seq<Point>, b: seq<Point>)
    requires multiset(a) == multiset(b)
    ensures SortAsc(a) == SortAsc(b)
  {
    SortedUnique(SortAsc(a), SortAsc(b));
  }

  /** Every point of a sorted copy comes from the original. */
  lemma SortMembers(s: seq<Point>, k: int)
    requires 0 <= k < |s|
    ensures SortAsc(s)[k] in s
  {
    assert SortAsc(s)[k] in multiset(SortAsc(s));
  }
}
