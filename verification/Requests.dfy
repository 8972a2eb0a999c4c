/**
 The forwarded_request table and its two write statements, as values.

 A row is what the columns hold; request_id is the key of the table. The two statements,
 the ON CONFLICT upsert and the MarkPolled update, are the two constructors of Write, and
 Apply says what one of them does to one row. Everything that runs against the table
 (the Store class, the tick, the event handler, the protocol) goes through Apply.
 */
module Requests {
  import opened Wrappers

  // 0 is Go's zero time, which the queries spell '0001-01-01 00:00:00'.
  type Time = nat

  // What time.Now() returns: never the zero time.
  type Instant = t: Time | t > 0 witness 1

  // The column is free text; Unnamed is any text that is none of the seven the plugin uses.
  datatype Status =
    | Submitted | Acknowledged | Searching | Found | Downloading | Imported | Failed
    | Unnamed(text: OtherText)
  {
    predicate Terminal() {
      Imported? || Failed?
    }
  }

  type OtherText = s: string |
    s !in {"submitted", "acknowledged", "searching", "found", "downloading", "imported", "failed"}
    witness ""

  // The Go struct passed to the upsert and returned by the listing: absent values are "" or 0.
  datatype ForwardedRequest = ForwardedRequest(
    requestId: string,
    externalId: string,
    status: Status,
    lastPolled: Time,
    errorText: string,
    autoMonitor: bool,
    updatedAt: Time)

  // One stored row: absent values are NULL.
  datatype Row = Row(
    externalId: Option<string>,
    status: Status,
    lastPolled: Option<Time>,
    errorText: Option<string>,
    autoMonitor: bool,
    updatedAt: Time)

  type Table = map<string, Row>

  predicate HasExternalId(r: Row) {
    r.externalId.Some? && r.externalId.value != ""
  }

  // How one statement ends: committed and said so, never committed, or committed although
  // the caller is told it failed (the connection broke after the commit).
  datatype Fault = Committed | Dropped | CommittedUnreported {
    predicate Applied() {
      !Dropped?
    }
    predicate Reported() {
      !Committed?
    }
  }

  function Nullable(s: string): Option<string> {
    if s == "" then None else Some(s)
  }

  function NullableTime(t: Time): Option<Time> {
    if t == 0 then None else Some(t)
  }

  // The VALUES row of the upsert (EXCLUDED in the conflict clause).
  function Excluded(r: ForwardedRequest, now: Time): Row {
    Row(Nullable(r.externalId), r.status, NullableTime(r.lastPolled), Nullable(r.errorText), r.autoMonitor,
        if r.updatedAt == 0 then now else r.updatedAt)
  }

  // The terminal guard: imported and failed are never overwritten.
  function Guarded(stored: Status, written: Status): Status {
    if stored.Terminal() then stored else written
  }

  // ON CONFLICT (request_id) DO UPDATE.
  function Merge(stored: Row, excluded: Row): Row {
    Row(Coalesce(excluded.externalId, stored.externalId),
        Guarded(stored.status, excluded.status),
        Coalesce(excluded.lastPolled, stored.lastPolled),
        Coalesce(excluded.errorText, stored.errorText),
        excluded.autoMonitor || stored.autoMonitor,
        excluded.updatedAt)
  }

  datatype Write =
    | Upsert(row: Row)
    | Mark(externalId: Option<string>, status: Status, when: Time)
  {
    // The value the statement writes to each column, None where it leaves the column alone.
    function ExternalIdWritten(): Option<string> {
      if Upsert? then row.externalId else externalId
    }
    function StatusWritten(): Status {
      if Upsert? then row.status else status
    }
    function LastPolledWritten(): Option<Time> {
      if Upsert? then row.lastPolled else Some(when)
    }
    function ErrorTextWritten(): Option<string> {
      if Upsert? then row.errorText else None
    }
    predicate AutoMonitorWritten() {
      Upsert? && row.autoMonitor
    }
    function UpdatedAtWritten(): Time {
      if Upsert? then row.updatedAt else when
    }
  }

  // One statement on one row; None is a row that does not exist.
  function Apply(stored: Option<Row>, w: Write): Option<Row> {
    match w
    case Upsert(row) =>
      Some(if stored.None? then row else Merge(stored.value, row))
    case Mark(externalId, status, when) =>
      if stored.None? then None else
      Some(stored.value.(externalId := Coalesce(externalId, stored.value.externalId),
                         status := Guarded(stored.value.status, status),
                         lastPolled := Some(when),
                         errorText := None,
                         updatedAt := when))
  }

  function Lookup(t: Table, id: string): Option<Row> {
    if id in t then Some(t[id]) else None
  }

  // One statement on the table: only the row with that key can change.
  function ApplyAt(t: Table, id: string, w: Write): Table {
    match Apply(Lookup(t, id), w)
    case None => t
    case Some(row) => t[id := row]
  }

  // What the statement leaves behind, given how it ended.
  function ApplyFaulty(t: Table, id: string, w: Write, fault: Fault): Table {
    if fault.Applied() then ApplyAt(t, id, w) else t
  }
}
