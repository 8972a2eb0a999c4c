/**
 internal/store/request.go: the four statements against forwarded_request.

 The class holds the table and updates it in place. What a statement computes is said by
 functions on table values, so that the lemmas about ticks, handlers and interleavings can
 use it too. A Fault parameter says how a write ended.
 */
module Store {
  import opened Wrappers
  import opened TextOrder
  import opened Requests

  datatype StoreError = RequestIdRequired | WriteFailed | ListFailed

  // ---------- the poll list ----------

  // ORDER BY COALESCE(last_polled, '0001-01-01') ASC, request_id ASC
  function SortTime(r: Row): Time {
    if r.lastPolled.Some? then r.lastPolled.value else 0
  }

  predicate Before(t: Table, a: string, b: string)
    requires a in t && b in t
  {
    SortTime(t[a]) < SortTime(t[b]) || (SortTime(t[a]) == SortTime(t[b]) && TextLess(a, b))
  }

  lemma BeforeIrreflexive(t: Table, a: string)
    requires a in t
    ensures !Before(t, a, a)
  {
    TextLessIrreflexive(a);
  }

  lemma BeforeTransitive(t: Table, a: string, b: string, c: string)
    requires a in t && b in t && c in t && Before(t, a, b) && Before(t, b, c)
    ensures Before(t, a, c)
  {
    if SortTime(t[a]) == SortTime(t[b]) == SortTime(t[c]) {
      TextLessTransitive(a, b, c);
    }
  }

  lemma BeforeTotal(t: Table, a: string, b: string)
    requires a in t && b in t
    ensures a == b || Before(t, a, b) || Before(t, b, a)
  {
    TextLessTotal(a, b);
  }

  function NonTerminalIds(t: Table): set<string> {
    set id | id in t && !t[id].status.Terminal()
  }

  // What ORDER BY ... LIMIT promises about the ids it returns out of a set of candidates:
  // they are candidates in strictly increasing order, at most limit of them, and a candidate
  // is left out only when the limit is reached and everything returned sorts before it.
  ghost predicate IsSelection(t: Table, ids: set<string>, limit: nat, out: seq<string>)
    requires ids <= t.Keys
  {
    && |out| <= limit
    && (forall i :: 0 <= i < |out| ==> out[i] in ids)
    && (forall i, j :: 0 <= i < j < |out| ==> Before(t, out[i], out[j]))
    && (forall id :: id in ids && id !in out ==>
          |out| == limit && forall i :: 0 <= i < |out| ==> Before(t, out[i], id))
  }

  predicate IsOldest(t: Table, ids: set<string>, first: string)
    requires ids <= t.Keys
  {
    first in ids && forall id :: id in ids && id != first ==> Before(t, first, id)
  }

  lemma {:induction false} OldestExists(t: Table, ids: set<string>)
    requires ids <= t.Keys && ids != {}
    ensures exists first :: IsOldest(t, ids, first)
    decreases |ids|
  {
    var some :| some in ids;
    var others := ids - {some};
    if others == {} {
      assert forall id :: id in ids ==> id == some || id in others;
      assert IsOldest(t, ids, some);
    } else {
      OldestExists(t, others);
      var first :| IsOldest(t, others, first);
      BeforeTotal(t, some, first);
      var least := if Before(t, some, first) then some else first;
      forall id | id in ids && id != least ensures Before(t, least, id) {
        if id in others && id != first && least == some {
          BeforeTransitive(t, some, first, id);
        }
      }
      assert IsOldest(t, ids, least);
    }
  }

  lemma OldestIsUnique(t: Table, ids: set<string>, a: string, b: string)
    requires ids <= t.Keys && IsOldest(t, ids, a) && IsOldest(t, ids, b)
    ensures a == b
  {
    if a != b {
      BeforeTransitive(t, a, b, a);
      BeforeIrreflexive(t, a);
    }
  }

  function Oldest(t: Table, ids: set<string>): (first: string)
    requires ids <= t.Keys && ids != {}
    ensures IsOldest(t, ids, first)
  {
    OldestExists(t, ids);
    assert forall a, b | IsOldest(t, ids, a) && IsOldest(t, ids, b) :: a == b by {
      forall a, b | IsOldest(t, ids, a) && IsOldest(t, ids, b) ensures a == b {
        OldestIsUnique(t, ids, a, b);
      }
    }
    var first :| IsOldest(t, ids, first);
    first
  }

  // The rows ORDER BY ... LIMIT returns: the oldest candidate, then the oldest of the rest.
  function Select(t: Table, ids: set<string>, limit: nat): (out: seq<string>)
    requires ids <= t.Keys
    ensures IsSelection(t, ids, limit, out)
    decreases limit
  {
    if limit == 0 || ids == {} then
      []
    else
      var first := Oldest(t, ids);
      [first] + Select(t, ids - {first}, limit - 1)
  }

  // The promise leaves no freedom: any two answers that keep it are the same.
  lemma {:induction false} SelectionIsUnique(t: Table, ids: set<string>, limit: nat, a: seq<string>, b: seq<string>)
    requires ids <= t.Keys
    requires IsSelection(t, ids, limit, a) && IsSelection(t, ids, limit, b)
    ensures a == b
    decreases limit
  {
    SelectionIsEmpty(t, ids, limit, a);
    SelectionIsEmpty(t, ids, limit, b);
    if a != [] {
      SelectionStartsOldest(t, ids, limit, a);
      SelectionStartsOldest(t, ids, limit, b);
      OldestIsUnique(t, ids, a[0], b[0]);
      SelectionRest(t, ids, limit, a);
      SelectionRest(t, ids, limit, b);
      SelectionIsUnique(t, ids - {a[0]}, limit - 1, a[1..], b[1..]);
      assert a == [a[0]] + a[1..] && b == [b[0]] + b[1..];
    }
  }

  lemma SelectionIsEmpty(t: Table, ids: set<string>, limit: nat, out: seq<string>)
    requires ids <= t.Keys && IsSelection(t, ids, limit, out)
    ensures out == [] <==> ids == {} || limit == 0
  {
    if out != [] {
      assert out[0] in ids;
    } else if ids != {} {
      var candidate :| candidate in ids;
      assert candidate !in out;
    }
  }

  lemma SelectionStartsOldest(t: Table, ids: set<string>, limit: nat, out: seq<string>)
    requires ids <= t.Keys && ids != {} && limit > 0 && IsSelection(t, ids, limit, out)
    ensures out != [] && IsOldest(t, ids, out[0])
  {
    SelectionIsEmpty(t, ids, limit, out);
    forall id | id in ids && id != out[0] ensures Before(t, out[0], id) {
      if id in out {
        var i :| 0 <= i < |out| && out[i] == id;
        assert Before(t, out[0], out[i]);
      }
    }
  }

  lemma SelectionRest(t: Table, ids: set<string>, limit: nat, out: seq<string>)
    requires ids <= t.Keys && limit > 0 && IsSelection(t, ids, limit, out) && out != []
    ensures IsSelection(t, ids - {out[0]}, limit - 1, out[1..])
  {
    var rest := out[1..];
    forall i | 0 <= i < |rest| ensures rest[i] in ids - {out[0]} {
      assert Before(t, out[0], out[i + 1]);
      BeforeIrreflexive(t, out[0]);
    }
    forall id | id in ids - {out[0]} && id !in rest ensures id !in out {}
    forall i, j | 0 <= i < j < |rest| ensures Before(t, rest[i], rest[j]) {
      assert Before(t, out[i + 1], out[j + 1]);
    }
  }

  lemma SelectionHasNoDuplicates(t: Table, ids: set<string>, limit: nat, out: seq<string>)
    requires ids <= t.Keys && IsSelection(t, ids, limit, out)
    ensures forall i, j :: 0 <= i < j < |out| ==> out[i] != out[j]
  {
    forall i, j | 0 <= i < j < |out| ensures out[i] != out[j] {
      assert Before(t, out[i], out[j]);
      BeforeIrreflexive(t, out[i]);
    }
  }

  // One result row, NULLs coalesced to the Go zero values.
  function AsListed(id: string, r: Row): ForwardedRequest {
    ForwardedRequest(id,
                     if r.externalId.Some? then r.externalId.value else "",
                     r.status,
                     SortTime(r),
                     if r.errorText.Some? then r.errorText.value else "",
                     r.autoMonitor,
                     r.updatedAt)
  }

  function EffectiveLimit(limit: int): nat {
    if limit <= 0 then 100 else limit
  }

  function ListedIds(t: Table, limit: int): seq<string> {
    Select(t, NonTerminalIds(t), EffectiveLimit(limit))
  }

  ghost function Listing(t: Table, limit: int): (rows: seq<ForwardedRequest>)
    ensures |rows| == |ListedIds(t, limit)|
    ensures forall i :: 0 <= i < |rows| ==> rows[i].requestId == ListedIds(t, limit)[i]
    ensures forall i :: 0 <= i < |rows| ==>
              rows[i].requestId in t && !t[rows[i].requestId].status.Terminal() &&
              rows[i] == AsListed(rows[i].requestId, t[rows[i].requestId])
    ensures forall i, j :: 0 <= i < j < |rows| ==> rows[i].requestId != rows[j].requestId
  {
    var ids := ListedIds(t, limit);
    SelectionHasNoDuplicates(t, NonTerminalIds(t), EffectiveLimit(limit), ids);
    seq(|ids|, i requires 0 <= i < |ids| => AsListed(ids[i], t[ids[i]]))
  }

  // ---------- counts ----------

  // The non-terminal rows without an external id: the tick lists them and skips them.
  function Unsubmitted(t: Table): set<string> {
    set id | id in t && !t[id].status.Terminal() && !HasExternalId(t[id])
  }

  datatype RequestStats = Counts(
    total: nat, active: nat, failed: nat, imported: nat, withErrors: nat, unsubmitted: nat)

  function StatsOf(t: Table): RequestStats {
    Counts(
      |t|,
      |set id | id in t && !t[id].status.Terminal()|,
      |set id | id in t && t[id].status.Failed?|,
      |set id | id in t && t[id].status.Imported?|,
      |set id | id in t && t[id].errorText.Some? && t[id].errorText.value != ""|,
      |Unsubmitted(t)|)
  }

  lemma SubsetCardinality<T>(a: set<T>, b: set<T>)
    requires a <= b
    ensures |a| <= |b|
  {
    assert b == a + (b - a);
  }

  lemma StatusesPartition(t: Table)
    ensures StatsOf(t).total == StatsOf(t).active + StatsOf(t).failed + StatsOf(t).imported
  {
    var active := set id | id in t && !t[id].status.Terminal();
    var failed := set id | id in t && t[id].status.Failed?;
    var imported := set id | id in t && t[id].status.Imported?;
    assert t.Keys == active + failed + imported;
    assert |t.Keys| == |t|;
  }

  lemma StatsAreParts(t: Table)
    ensures StatsOf(t).unsubmitted <= StatsOf(t).active && StatsOf(t).withErrors <= StatsOf(t).total
  {
    var active := set id | id in t && !t[id].status.Terminal();
    var withErrors := set id | id in t && t[id].errorText.Some? && t[id].errorText.value != "";
    SubsetCardinality(Unsubmitted(t), active);
    SubsetCardinality(withErrors, t.Keys);
    assert |t.Keys| == |t|;
  }

  // The counts partition the table.
  lemma StatsPartition(t: Table)
    ensures var s := StatsOf(t);
            s.total == s.active + s.failed + s.imported && s.unsubmitted <= s.active && s.withErrors <= s.total
  {
    StatusesPartition(t);
    StatsAreParts(t);
  }

  // ---------- the statements ----------

  class Store {
    var table: Table

    ghost predicate Valid()
      reads this
    {
      "" !in table
    }

    constructor ()
      ensures Valid() && table == map[]
    {
      table := map[];
    }

    method UpsertForwardedRequest(r: ForwardedRequest, now: Instant, fault: Fault) returns (err: Option<StoreError>)
      requires Valid()
      modifies this
      ensures Valid()
      ensures r.requestId == "" ==> err == Some(RequestIdRequired) && table == old(table)
      ensures r.requestId != "" ==>
                && err == (if fault.Reported() then Some(WriteFailed) else None)
                && table == ApplyFaulty(old(table), r.requestId, Upsert(Excluded(r, now)), fault)
    {
      if r.requestId == "" {
        return Some(RequestIdRequired);
      }
      var stamped := r;
      if stamped.updatedAt == 0 {
        stamped := stamped.(updatedAt := now);
      }
      var extPtr: Option<string>, errPtr: Option<string>, lastPolled: Option<Time> := None, None, None;
      if stamped.externalId != "" {
        extPtr := Some(stamped.externalId);
      }
      if stamped.errorText != "" {
        errPtr := Some(stamped.errorText);
      }
      if stamped.lastPolled != 0 {
        lastPolled := Some(stamped.lastPolled);
      }
      var excluded := Row(extPtr, stamped.status, lastPolled, errPtr, stamped.autoMonitor, stamped.updatedAt);
      if !fault.Dropped? {
        if stamped.requestId in table {
          table := table[stamped.requestId := Merge(table[stamped.requestId], excluded)];
        } else {
          table := table[stamped.requestId := excluded];
        }
      }
      err := if fault.Committed? then None else Some(WriteFailed);
    }

    // An update: a request id without a row changes nothing, and that is no error.
    method MarkPolled(requestId: string, externalId: string, status: Status, when: Time, now: Instant, fault: Fault)
      returns (err: Option<StoreError>)
      requires Valid()
      modifies this
      ensures Valid()
      ensures requestId == "" ==> err == Some(RequestIdRequired) && table == old(table)
      ensures requestId != "" ==>
                && err == (if fault.Reported() then Some(WriteFailed) else None)
                && table == ApplyFaulty(old(table), requestId,
                                        Mark(Nullable(externalId), status, if when == 0 then now else when), fault)
    {
      if requestId == "" {
        return Some(RequestIdRequired);
      }
      var polledAt := if when == 0 then now else when;
      var extPtr: Option<string> := None;
      if externalId != "" {
        extPtr := Some(externalId);
      }
      if !fault.Dropped? && requestId in table {
        var row := table[requestId];
        table := table[requestId := row.(
          externalId := Coalesce(extPtr, row.externalId),
          status := if row.status.Imported? || row.status.Failed? then row.status else status,
          lastPolled := Some(polledAt),
          errorText := None,
          updatedAt := polledAt)];
      }
      err := if fault.Committed? then None else Some(WriteFailed);
    }

    // The append loop stops without an error when the connection breaks after `delivered`
    // rows: rows.Err() is never read, so a short list looks like a complete one.
    method ListNonTerminal(limit: int, fails: bool, delivered: nat)
      returns (result: Result<seq<ForwardedRequest>, StoreError>)
      ensures fails ==> result == Err(ListFailed)
      ensures !fails ==> result == Ok(Delivered(table, limit, delivered))
    {
      if fails {
        return Err(ListFailed);
      }
      ghost var statement := Listing(table, limit);
      var cursor := ListedIds(table, limit);
      var out: seq<ForwardedRequest> := [];
      var next := 0;
      while next < |cursor| && next < delivered
        invariant cursor == ListedIds(table, limit) && next <= |cursor| && next <= delivered
        invariant out == statement[..next]
      {
        var r := AsListed(cursor[next], table[cursor[next]]);
        out := out + [r];
        next := next + 1;
      }
      assert statement[..|statement|] == statement;
      result := Ok(out);
    }

    method RequestStats() returns (stats: RequestStats)
      ensures stats == StatsOf(table)
      ensures stats.total == stats.active + stats.failed + stats.imported && stats.unsubmitted <= stats.active
    {
      StatsPartition(table);
      var active := set id | id in table && !table[id].status.Terminal();
      var failed := set id | id in table && table[id].status.Failed?;
      var imported := set id | id in table && table[id].status.Imported?;
      var withErrors := set id | id in table && table[id].errorText.Some? && table[id].errorText.value != "";
      var unsubmitted := set id | id in table &&
                                  (table[id].externalId.None? || table[id].externalId.value == "") &&
                                  !table[id].status.Terminal();
      assert unsubmitted == Unsubmitted(table);
      stats := Counts(|table|, |active|, |failed|, |imported|, |withErrors|, |unsubmitted|);
    }
  }

  // What a caller of ListNonTerminal receives: the listing, cut where the connection broke.
  ghost function Delivered(t: Table, limit: int, delivered: nat): (rows: seq<ForwardedRequest>)
    ensures |rows| <= delivered
    ensures rows <= Listing(t, limit)
    ensures rows == Listing(t, limit) <==> |Listing(t, limit)| <= delivered
  {
    var all := Listing(t, limit);
    if |all| <= delivered then all else all[..delivered]
  }
}
