/** Recording one item update, `update_item` (sqlite/__init__.py:111-127):
    one raw row per update, inserted only while the store is connected. */
module Ingestion {
  import opened History

  /** The raw row for value `val` at time `now`: one sample whose minimum,
      maximum and average are the value itself, a sum only for items
      configured as `sum`, and full activity exactly when the value is not 0. */
  function RawRow(now: int, item: string, conf: string, val: real): (r: Row)
    ensures r.time == now && r.item == item && r.cnt == 1 && r.val == val
    ensures r.vmin == val && r.vmax == val && r.vavg == val
    ensures r.power == 1.0 <==> val != 0.0
    ensures r.power == 0.0 <==> val == 0.0
    ensures r.vsum == (if conf == "sum" then val else 0.0)
    ensures RowWf(r)
  {
    var power := if val != 0.0 then 1.0 else 0.0;
    var sum := if conf == "sum" then val else 0.0;
    Row(now, item, 1, val, sum, val, val, val, power)
  }

  /** `update_item`: while connected, a successful insert appends the raw row
      under the next rowid; when disconnected, or when the insert fails and
      is only logged, the table stays as it was. */
  function UpdateItem(t: seq<Entry>, connected: bool, insertOk: bool,
                      now: int, item: string, conf: string, val: real): (t': seq<Entry>)
    ensures connected && insertOk ==> |t'| == |t| + 1 && t'[..|t|] == t && t'[|t|].row == RawRow(now, item, conf, val)
    ensures !(connected && insertOk) ==> t' == t
  {
    if connected && insertOk then t + [Entry(NextId(t), RawRow(now, item, conf, val))] else t
  }

  /** An update keeps every row well-formed and every rowid unique, and adds
      exactly one sample when it inserts. */
  lemma UpdateKeepsInvariants(t: seq<Entry>, connected: bool, insertOk: bool,
                              now: int, item: string, conf: string, val: real)
    requires AllWf(t) && UniqueIds(t)
    ensures var t' := UpdateItem(t, connected, insertOk, now, item, conf, val);
      && AllWf(t') && UniqueIds(t')
      && TotalCnt(t') == TotalCnt(t) + (if connected && insertOk then 1 else 0)
  {
    if connected && insertOk {
      var e := Entry(NextId(t), RawRow(now, item, conf, val));
      TotalCntAppend(t, [e]);
      assert TotalCnt([e]) == 1;
      AppendNextUnique(t, e);
    }
  }

  /** A row appended under the next rowid keeps the rowids unique. */
  lemma AppendNextUnique(t: seq<Entry>, e: Entry)
    requires UniqueIds(t) && e.id == NextId(t)
    ensures UniqueIds(t + [e])
  {
    assert multiset(t + [e]) == multiset(t) + multiset{e};
    assert UniqueIn(multiset{e});
    UniqueUnion(multiset(t), multiset{e});
  }
}
