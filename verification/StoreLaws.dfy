/**
 The statements against forwarded_request, said by columns and by what one more row changes.
 */
module StoreLaws {
  import opened Wrappers
  import opened TextOrder
  import opened Requests
  import S = Store

  // ---------- counts ----------

  lemma EmptyTableCounts()
    ensures S.StatsOf(map[]) == S.Counts(0, 0, 0, 0, 0, 0)
  {
    S.StatsPartition(map[]);
  }

  lemma OneMore(before: set<string>, after: set<string>, id: string, counts: bool)
    requires id !in before && after == before + if counts then {id} else {}
    ensures |after| == |before| + if counts then 1 else 0
  {
  }

  // NULL or the empty text.
  predicate NoText(column: Option<string>) {
    column == None || column == Some("")
  }

  predicate IsOpen(row: Row) {
    row.status != Imported && row.status != Failed
  }

  lemma NewInTotal(t: Table, id: string, row: Row)
    requires id !in t
    ensures S.StatsOf(t[id := row]).total == S.StatsOf(t).total + 1
  {
    var u := t[id := row];
    assert u.Keys == t.Keys + {id} && |u.Keys| == |u| && |t.Keys| == |t|;
  }

  lemma NewInFailed(t: Table, id: string, row: Row)
    requires id !in t
    ensures S.StatsOf(t[id := row]).failed == S.StatsOf(t).failed + if row.status == Failed then 1 else 0
  {
    var u := t[id := row];
    var before := set i | i in t && t[i].status.Failed?;
    var after := set i | i in u && u[i].status.Failed?;
    OneMore(before, after, id, row.status == Failed);
  }

  lemma NewInImported(t: Table, id: string, row: Row)
    requires id !in t
    ensures S.StatsOf(t[id := row]).imported == S.StatsOf(t).imported + if row.status == Imported then 1 else 0
  {
    var u := t[id := row];
    var before := set i | i in t && t[i].status.Imported?;
    var after := set i | i in u && u[i].status.Imported?;
    OneMore(before, after, id, row.status == Imported);
  }

  lemma NewInActive(t: Table, id: string, row: Row)
    requires id !in t
    ensures S.StatsOf(t[id := row]).active == S.StatsOf(t).active + if IsOpen(row) then 1 else 0
  {
    var u := t[id := row];
    var before := set i | i in t && !t[i].status.Terminal();
    var after := set i | i in u && !u[i].status.Terminal();
    assert IsOpen(row) <==> !row.status.Terminal();
    assert after == before + if IsOpen(row) then {id} else {};
    OneMore(before, after, id, IsOpen(row));
  }

  lemma NewInWithErrors(t: Table, id: string, row: Row)
    requires id !in t
    ensures S.StatsOf(t[id := row]).withErrors == S.StatsOf(t).withErrors + if !NoText(row.errorText) then 1 else 0
  {
    var u := t[id := row];
    var before := set i | i in t && t[i].errorText.Some? && t[i].errorText.value != "";
    var after := set i | i in u && u[i].errorText.Some? && u[i].errorText.value != "";
    OneMore(before, after, id, !NoText(row.errorText));
  }

  lemma NewInUnsubmitted(t: Table, id: string, row: Row)
    requires id !in t
    ensures S.StatsOf(t[id := row]).unsubmitted ==
            S.StatsOf(t).unsubmitted + if IsOpen(row) && NoText(row.externalId) then 1 else 0
  {
    OneMore(S.Unsubmitted(t), S.Unsubmitted(t[id := row]), id, IsOpen(row) && NoText(row.externalId));
  }

  // Each count by what a new row adds to it.
  lemma NewRowCounts(t: Table, id: string, row: Row)
    requires id !in t
    ensures var s, u := S.StatsOf(t), S.StatsOf(t[id := row]);
            && u.total == s.total + 1
            && u.failed == s.failed + (if row.status == Failed then 1 else 0)
            && u.imported == s.imported + (if row.status == Imported then 1 else 0)
            && u.active == s.active + (if row.status == Failed || row.status == Imported then 0 else 1)
            && u.withErrors == s.withErrors + (if NoText(row.errorText) then 0 else 1)
            && u.unsubmitted ==
               s.unsubmitted +
               if row.status != Failed && row.status != Imported && NoText(row.externalId) then 1 else 0
  {
    NewInTotal(t, id, row);
    NewInFailed(t, id, row);
    NewInImported(t, id, row);
    NewInActive(t, id, row);
    NewInWithErrors(t, id, row);
    NewInUnsubmitted(t, id, row);
  }

  // ---------- columns ----------

  // What is listed of a row: its columns, and for a NULL the zero value.
  lemma ListedByColumns(id: string, row: Row)
    ensures var r := S.AsListed(id, row);
            && r.requestId == id && r.status == row.status && r.autoMonitor == row.autoMonitor
            && r.updatedAt == row.updatedAt
            && (forall s :: row.externalId == Some(s) ==> r.externalId == s)
            && (forall s :: row.errorText == Some(s) ==> r.errorText == s)
            && (forall when :: row.lastPolled == Some(when) ==> r.lastPolled == when)
            && (row.externalId == None ==> r.externalId == "")
            && (row.errorText == None ==> r.errorText == "")
            && (row.lastPolled == None ==> r.lastPolled == 0)
  {
  }

  // What is inserted is listed again: nothing is lost on the way through the columns, and a
  // missing update time becomes the time of the call. Only what is missing is stored as NULL.
  lemma InsertedIsListed(r: ForwardedRequest, now: Instant)
    ensures Excluded(r, now).externalId == None <==> r.externalId == ""
    ensures Excluded(r, now).errorText == None <==> r.errorText == ""
    ensures Excluded(r, now).lastPolled == None <==> r.lastPolled == 0
    ensures S.AsListed(r.requestId, Excluded(r, now)) == r.(updatedAt := if r.updatedAt == 0 then now else r.updatedAt)
  {
  }

  // ---------- how a statement ends ----------

  // Only a dropped statement leaves the table alone, and only a committed one is not reported as
  // failed; the row of an upsert that is not dropped is there.
  lemma StatementEnds(t: Table, id: string, row: Row, fault: Fault)
    ensures fault.Reported() <==> fault != Committed
    ensures ApplyFaulty(t, id, Upsert(row), fault) ==
            if fault == Dropped then t else t[id := if id in t then Merge(t[id], row) else row]
  {
  }

  // ---------- the poll list ----------

  predicate PolledEarlier(t: Table, a: string, b: string)
    requires a in t && b in t
  {
    var x, y := S.AsListed(a, t[a]).lastPolled, S.AsListed(b, t[b]).lastPolled;
    x < y || (x == y && TextLess(a, b))
  }

  function OpenIds(t: Table): set<string> {
    set id | id in t && IsOpen(t[id])
  }

  // The whole of ORDER BY and LIMIT on the columns: oldest poll first, then by id; the limit, or
  // 100 when none is given; left out only what comes after a full list.
  lemma ListingByColumns(t: Table, limit: int)
    ensures var rows, max := S.Listing(t, limit), if limit <= 0 then 100 else limit;
            && |rows| <= max
            && (forall i :: 0 <= i < |rows| ==> rows[i].requestId in OpenIds(t))
            && (forall i, j :: 0 <= i < j < |rows| ==> PolledEarlier(t, rows[i].requestId, rows[j].requestId))
            && (forall id :: id in OpenIds(t) && (forall i :: 0 <= i < |rows| ==> rows[i].requestId != id) ==>
                  |rows| == max && forall i :: 0 <= i < |rows| ==> PolledEarlier(t, rows[i].requestId, id))
  {
    var rows, ids := S.Listing(t, limit), S.ListedIds(t, limit);
    assert OpenIds(t) == S.NonTerminalIds(t);
    forall i, j | 0 <= i < j < |rows| ensures PolledEarlier(t, rows[i].requestId, rows[j].requestId) {
      assert S.Before(t, ids[i], ids[j]);
    }
    forall id | id in OpenIds(t) && forall i :: 0 <= i < |rows| ==> rows[i].requestId != id
      ensures id !in ids
    {
      assert forall i :: 0 <= i < |ids| ==> ids[i] == rows[i].requestId;
    }
    forall id, i | id in OpenIds(t) && id !in ids && 0 <= i < |rows|
      ensures PolledEarlier(t, rows[i].requestId, id)
    {
      assert S.Before(t, ids[i], id);
    }
  }
}
