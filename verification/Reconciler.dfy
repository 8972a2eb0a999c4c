/**
 internal/reconciler/reconciler.go: one poll of the non-terminal requests.

 Tick is the imperative method; what it leaves behind is AfterRows, a function of the table,
 the listed rows and the tick's inputs (the answers from upstream, the clock, how each write
 ended, and when the tick's context expired).
 */
module Reconciler {
  import opened Wrappers
  import opened Requests
  import opened Monitoring
  import opened Events
  import S = Store

  // None is translateStatus's empty string: no transition.
  function TranslateStatus(bwStatus: BwStatus): Option<Status> {
    match bwStatus
    case BwQueued | BwMonitoring => Some(Searching)
    case BwFound => Some(Found)
    case BwDownloading | BwGrabbing => Some(Downloading)
    case BwImported | BwCompleted => Some(Imported)
    case BwFailed | BwError => Some(Failed)
    case BwOther(_) => None
  }

  // The status a listed row's poll settles on: the row's own unless upstream names another.
  function Settled(row: ForwardedRequest, reply: Reply): Status {
    if reply.Unavailable? then row.status else
    match TranslateStatus(reply.status)
    case None => row.status
    case Some(s) => s
  }

  // The write that records a poll of a listed row.
  function PollWrite(row: ForwardedRequest, reply: Reply, polledAt: Instant, stampedAt: Instant): Write {
    if reply.Unavailable? then
      Upsert(Excluded(ForwardedRequest(row.requestId, row.externalId, row.status, polledAt, reply.error, false,
                                       stampedAt),
                      stampedAt))
    else
      Mark(Nullable(row.externalId), Settled(row, reply), polledAt)
  }

  function TransitionEvent(row: ForwardedRequest, reply: Reply, pluginId: string): seq<Event> {
    if reply.Unavailable? || Settled(row, reply) == row.status then []
    else if Settled(row, reply).Imported? then [RequestFulfilled(row.requestId, row.externalId, pluginId, reply.id)]
    else if Settled(row, reply).Failed? then
      [RequestFailed(row.requestId, row.externalId, pluginId, "upstream marked failed")]
    else [RequestStatusChanged(row.requestId, row.externalId, pluginId, Settled(row, reply))]
  }

  datatype TickError =
    | ListNonTerminalFailed | UpsertAfterUpstreamError | MarkPolledNoTransition | MarkPolledStatusChange

  function WriteError(row: ForwardedRequest, reply: Reply): TickError {
    if reply.Unavailable? then UpsertAfterUpstreamError
    else if Settled(row, reply) == row.status then MarkPolledNoTransition
    else MarkPolledStatusChange
  }

  // The inputs of one row's turn: whether the tick's context had expired when the turn came,
  // upstream's response, the two clock readings, how the write ended and how the host took the
  // event.
  datatype RowInput = RowInput(
    expired: bool, response: Transport, polledAt: Instant, stampedAt: Instant, fault: Fault, host: Host)
  {
    function Reply(): Reply {
      DecodeSnapshot(response)
    }
  }

  datatype TickInput = TickInput(listFails: bool, delivered: nat, rows: nat -> RowInput)

  // Where a tick stands after some of the listed rows.
  datatype Progress = Progress(
    table: Table, events: seq<Event>, taken: seq<Event>, polled: seq<string>,
    firstErr: Option<TickError>, stopped: bool)

  function AfterRow(p: Progress, row: ForwardedRequest, e: RowInput, pluginId: string): Progress {
    if row.externalId == "" then p else
    Progress(
      ApplyFaulty(p.table, row.requestId, PollWrite(row, e.Reply(), e.polledAt, e.stampedAt), e.fault),
      p.events + TransitionEvent(row, e.Reply(), pluginId),
      p.taken + Received(TransitionEvent(row, e.Reply(), pluginId), e.host),
      p.polled + [row.externalId],
      if p.firstErr.None? && e.fault.Reported() then Some(WriteError(row, e.Reply())) else p.firstErr,
      false)
  }

  function AfterRows(t: Table, rows: seq<ForwardedRequest>, input: nat -> RowInput, pluginId: string, k: nat): Progress
    requires k <= |rows|
  {
    if k == 0 then Progress(t, [], [], [], None, false) else
    var p := AfterRows(t, rows, input, pluginId, k - 1);
    if p.stopped then p
    else if input(k - 1).expired then p.(stopped := true)
    else AfterRow(p, rows[k - 1], input(k - 1), pluginId)
  }

  class Reconciler {
    const store: S.Store
    const pub: Publisher
    const bw: Client
    const pluginId: string
    const batch: nat    // the 200 that Tick passes to ListNonTerminal
    var locked: bool

    ghost predicate Valid()
      reads this, store, pub
    {
      store.Valid() && pub.Valid()
    }

    constructor (store: S.Store, pub: Publisher, bw: Client, pluginId: string, batch: nat)
      requires store.Valid() && pub.Valid()
      ensures Valid() && !locked
      ensures this.store == store && this.pub == pub && this.bw == bw && this.pluginId == pluginId &&
              this.batch == batch
    {
      this.store, this.pub, this.bw, this.pluginId, this.batch := store, pub, bw, pluginId, batch;
      locked := false;
    }

    // The body of the loop for a row that has an external id: ask upstream, write back, publish.
    method PollRow(row: ForwardedRequest, e: RowInput) returns (uerr: Option<TickError>)
      requires Valid() && row.requestId != "" && row.externalId != ""
      modifies store, pub, bw`polled
      ensures Valid()
      ensures store.table ==
              ApplyFaulty(old(store.table), row.requestId, PollWrite(row, e.Reply(), e.polledAt, e.stampedAt), e.fault)
      ensures pub.log == old(pub.log) + TransitionEvent(row, e.Reply(), pluginId)
      ensures pub.taken == old(pub.taken) + Received(TransitionEvent(row, e.Reply(), pluginId), e.host)
      ensures bw.polled == old(bw.polled) + [row.externalId]
      ensures uerr == if e.fault.Reported() then Some(WriteError(row, e.Reply())) else None
    {
      uerr := None;
      var snap := bw.GetMonitoring(row.externalId, e.response);
      if snap.Unavailable? {
        var failed := store.UpsertForwardedRequest(
          ForwardedRequest(row.requestId, row.externalId, row.status, e.polledAt, snap.error, false, e.stampedAt),
          e.stampedAt, e.fault);
        if failed.Some? {
          uerr := Some(UpsertAfterUpstreamError);
        }
        return;
      }
      var newStatus := TranslateStatus(snap.status);
      if newStatus.None? || newStatus.value == row.status {
        var failed := store.MarkPolled(row.requestId, row.externalId, row.status, e.polledAt, e.stampedAt, e.fault);
        if failed.Some? {
          uerr := Some(MarkPolledNoTransition);
        }
        return;
      }
      var failed := store.MarkPolled(row.requestId, row.externalId, newStatus.value, e.polledAt, e.stampedAt, e.fault);
      if failed.Some? {
        uerr := Some(MarkPolledStatusChange);
      }
      match newStatus.value {
        case Imported =>
          pub.Publish(RequestFulfilled(row.requestId, row.externalId, pluginId, snap.id), e.host);
        case Failed =>
          pub.Publish(RequestFailed(row.requestId, row.externalId, pluginId, "upstream marked failed"), e.host);
        case _ =>
          pub.Publish(RequestStatusChanged(row.requestId, row.externalId, pluginId, newStatus.value), e.host);
      }
    }

    // The store, the publisher and the client are as they were, plus this progress.
    ghost predicate Stands(p: Progress, log: seq<Event>, taken: seq<Event>, polled: seq<string>)
      reads store, pub, bw
    {
      store.table == p.table && pub.log == log + p.events && pub.taken == taken + p.taken &&
      bw.polled == polled + p.polled
    }

    // One row's turn when the context has not expired.
    method TakeTurn(row: ForwardedRequest, e: RowInput, firstErr: Option<TickError>, ghost p: Progress,
                    ghost log: seq<Event>, ghost taken: seq<Event>, ghost polled: seq<string>)
      returns (err: Option<TickError>)
      requires Valid() && row.requestId != "" && Stands(p, log, taken, polled) && firstErr == p.firstErr
      modifies store, pub, bw`polled
      ensures Valid() && Stands(AfterRow(p, row, e, pluginId), log, taken, polled)
      ensures err == AfterRow(p, row, e, pluginId).firstErr
    {
      err := firstErr;
      if row.externalId == "" {
        return;
      }
      var uerr := PollRow(row, e);
      if uerr.Some? && err.None? {
        err := uerr;
      }
    }

    // The loop over the listed rows. It breaks when the tick's context has expired and keeps
    // the first write error.
    method PollRows(rows: seq<ForwardedRequest>, input: nat -> RowInput) returns (firstErr: Option<TickError>)
      requires Valid() && forall i :: 0 <= i < |rows| ==> rows[i].requestId != ""
      modifies store, pub, bw`polled
      ensures Valid()
      ensures var done := AfterRows(old(store.table), rows, input, pluginId, |rows|);
              Stands(done, old(pub.log), old(pub.taken), old(bw.polled)) && firstErr == done.firstErr
    {
      firstErr := None;
      ghost var t, log, taken, polled := store.table, pub.log, pub.taken, bw.polled;
      ghost var p := Progress(t, [], [], [], None, false);
      var i := 0;
      while i < |rows|
        invariant i <= |rows| && Valid()
        invariant p == AfterRows(t, rows, input, pluginId, i) && !p.stopped
        invariant Stands(p, log, taken, polled) && firstErr == p.firstErr
      {
        var row, e := rows[i], input(i);
        if e.expired {
          ExpiryEndsTick(t, rows, input, pluginId, i);
          break;
        }
        firstErr := TakeTurn(row, e, firstErr, p, log, taken, polled);
        NextTurn(t, rows, input, pluginId, i);
        i := i + 1;
        p := AfterRows(t, rows, input, pluginId, i);
      }
    }

    // A tick that finds the mutex held does nothing. Otherwise its whole effect is AfterRows
    // over the rows it was given.
    method Tick(input: TickInput) returns (err: Option<TickError>)
      requires Valid()
      modifies this, store, pub, bw
      ensures Valid() && locked == old(locked)
      ensures bw.added == old(bw.added)
      ensures old(locked) || input.listFails ==>
                && store.table == old(store.table) && bw.polled == old(bw.polled)
                && pub.log == old(pub.log) && pub.taken == old(pub.taken)
                && err == if old(locked) then None else Some(ListNonTerminalFailed)
      ensures !old(locked) && !input.listFails ==>
                var rows := S.Delivered(old(store.table), batch, input.delivered);
                var done := AfterRows(old(store.table), rows, input.rows, pluginId, |rows|);
                && store.table == done.table
                && pub.log == old(pub.log) + done.events
                && pub.taken == old(pub.taken) + done.taken
                && bw.polled == old(bw.polled) + done.polled
                && err == done.firstErr
    {
      if locked {
        return None;
      }
      locked := true;
      var listed := store.ListNonTerminal(batch, input.listFails, input.delivered);
      if listed.Err? {
        locked := false;
        return Some(ListNonTerminalFailed);
      }
      ListedRowsHaveIds(store.table, batch, input.delivered);
      err := PollRows(listed.value, input.rows);
      locked := false;
    }
  }

  // Upstream's texts for each status of the portal.
  function UpstreamTexts(s: Status): set<string> {
    match s
    case Searching => {"queued", "monitoring"}
    case Found => {"found"}
    case Downloading => {"downloading", "grabbing"}
    case Imported => {"imported", "completed"}
    case Failed => {"failed", "error"}
    case Submitted | Acknowledged | Unnamed(_) => {}
  }

  // From upstream's text to the row's status: exactly these texts move a row, each to one
  // status, never back to submitted or acknowledged and never to an unnamed one.
  lemma TextMovesRowIff(row: ForwardedRequest, id: string, text: string, s: Status)
    requires id != "" || text != ""
    ensures Settled(row, DecodeSnapshot(Body(id, text))) == s <==>
            text in UpstreamTexts(s) || (s == row.status && forall other :: text !in UpstreamTexts(other))
  {
    assert text in UpstreamTexts(s) ==> TranslateStatus(ParseStatus(text)) == Some(s);
    match TranslateStatus(ParseStatus(text))
    case None =>
    case Some(named) => assert text in UpstreamTexts(named);
  }

  lemma ListedRowsHaveIds(t: Table, limit: int, delivered: nat)
    requires "" !in t
    ensures forall i :: 0 <= i < |S.Delivered(t, limit, delivered)| ==>
            S.Delivered(t, limit, delivered)[i].requestId != ""
  {
  }

  lemma StoppedStays(t: Table, rows: seq<ForwardedRequest>, input: nat -> RowInput, pluginId: string, k: nat, n: nat)
    requires k <= n <= |rows| && AfterRows(t, rows, input, pluginId, k).stopped
    ensures AfterRows(t, rows, input, pluginId, n) == AfterRows(t, rows, input, pluginId, k)
  {
    for i := k to n
      invariant AfterRows(t, rows, input, pluginId, i) == AfterRows(t, rows, input, pluginId, k)
    {
    }
  }

  lemma NextTurn(t: Table, rows: seq<ForwardedRequest>, input: nat -> RowInput, pluginId: string, i: nat)
    requires i < |rows| && !AfterRows(t, rows, input, pluginId, i).stopped && !input(i).expired
    ensures var p := AfterRows(t, rows, input, pluginId, i);
            && AfterRows(t, rows, input, pluginId, i + 1) == AfterRow(p, rows[i], input(i), pluginId)
            && !AfterRows(t, rows, input, pluginId, i + 1).stopped
  {
  }

  lemma ExpiryEndsTick(t: Table, rows: seq<ForwardedRequest>, input: nat -> RowInput, pluginId: string, i: nat)
    requires i < |rows| && !AfterRows(t, rows, input, pluginId, i).stopped && input(i).expired
    ensures AfterRows(t, rows, input, pluginId, |rows|) == AfterRows(t, rows, input, pluginId, i).(stopped := true)
  {
    StoppedStays(t, rows, input, pluginId, i + 1, |rows|);
  }
}
