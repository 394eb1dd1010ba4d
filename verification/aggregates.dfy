/** SQL aggregates `MIN`, `MAX` and `SUM` over a non-empty column. */
module Aggregates {

  function MinOf(xs: seq<real>): (m: real)
    requires |xs| > 0
    ensures forall k :: 0 <= k < |xs| ==> m <= xs[k]
    ensures exists k :: 0 <= k < |xs| && m == xs[k]
  {
    if |xs| == 1 then xs[0]
    else
      var rest := MinOf(xs[1..]);
      assert forall k :: 1 <= k < |xs| ==> xs[k] == xs[1..][k - 1];
      if xs[0] <= rest then xs[0] else rest
  }

  function MaxOf(xs: seq<real>): (m: real)
    requires |xs| > 0
    ensures forall k :: 0 <= k < |xs| ==> xs[k] <= m
    ensures exists k :: 0 <= k < |xs| && m == xs[k]
  {
    if |xs| == 1 then xs[0]
    else
      var rest := MaxOf(xs[1..]);
      assert forall k :: 1 <= k < |xs| ==> xs[k] == xs[1..][k - 1];
      if xs[0] >= rest then xs[0] else rest
  }

  function SumOf(xs: seq<real>): real {
    if |xs| == 0 then 0.0 else xs[0] + SumOf(xs[1..])
  }

  lemma {:induction false} SumOfAppend(a: seq<real>, b: seq<real>)
    ensures SumOf(a + b) == SumOf(a) + SumOf(b)
  {
    if |a| > 0 {
      assert (a + b)[1..] == a[1..] + b;
      SumOfAppend(a[1..], b);
    } else {
      assert a + b == b;
    }
  }

  /** The least of two lists end to end is the smaller of their least values. */
  lemma MinOfAppend(xs: seq<real>, ys: seq<real>)
    requires |xs| > 0 && |ys| > 0
    ensures MinOf(xs + ys) == if MinOf(xs) <= MinOf(ys) then MinOf(xs) else MinOf(ys)
  {
    var zs := xs + ys;
    var i :| 0 <= i < |xs| && MinOf(xs) == xs[i];
    var j :| 0 <= j < |ys| && MinOf(ys) == ys[j];
    var k :| 0 <= k < |zs| && MinOf(zs) == zs[k];
    assert zs[i] == xs[i] && zs[|xs| + j] == ys[j];
    if k < |xs| { assert zs[k] == xs[k]; } else { assert zs[k] == ys[k - |xs|]; }
  }

  /** The greatest of two lists end to end is the larger of their greatest values. */
  lemma MaxOfAppend(xs: seq<real>, ys: seq<real>)
    requires |xs| > 0 && |ys| > 0
    ensures MaxOf(xs + ys) == if MaxOf(xs) >= MaxOf(ys) then MaxOf(xs) else MaxOf(ys)
  {
    var zs := xs + ys;
    var i :| 0 <= i < |xs| && MaxOf(xs) == xs[i];
    var j :| 0 <= j < |ys| && MaxOf(ys) == ys[j];
    var k :| 0 <= k < |zs| && MaxOf(zs) == zs[k];
    assert zs[i] == xs[i] && zs[|xs| + j] == ys[j];
    if k < |xs| { assert zs[k] == xs[k]; } else { assert zs[k] == ys[k - |xs|]; }
  }
}
