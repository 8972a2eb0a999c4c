/**
 What one tick and any run of ticks do to the table and to the event log, when nobody else
 writes in between.
 */
module TickProperties {
  import opened Wrappers
  import opened Requests
  import opened Monitoring
  import opened Events
  import opened Reconciler
  import S = Store

  ghost predicate DistinctIds(rows: seq<ForwardedRequest>) {
    forall i, j :: 0 <= i < j < |rows| ==> rows[i].requestId != rows[j].requestId
  }

  // The tick's context has not expired at any turn up to and including the i-th.
  predicate InBudget(input: nat -> RowInput, i: nat) {
    !input(i).expired && (i == 0 || InBudget(input, i - 1))
  }

  lemma {:induction false} InBudgetMeans(input: nat -> RowInput, i: nat)
    ensures InBudget(input, i) <==> forall j: nat :: j <= i ==> !input(j).expired
  {
    if i > 0 {
      InBudgetMeans(input, i - 1);
    }
  }

  // The i-th listed row is polled and written.
  predicate Attempted(rows: seq<ForwardedRequest>, input: nat -> RowInput, i: nat) {
    i < |rows| && rows[i].externalId != "" && InBudget(input, i)
  }

  predicate AttemptedFor(rows: seq<ForwardedRequest>, input: nat -> RowInput, i: nat, id: string) {
    Attempted(rows, input, i) && rows[i].requestId == id
  }

  // The effect of the i-th turn's write, applied to the table the tick started from.
  function WrittenRow(t: Table, row: ForwardedRequest, e: RowInput): Option<Row> {
    Lookup(ApplyFaulty(t, row.requestId, PollWrite(row, e.Reply(), e.polledAt, e.stampedAt), e.fault), row.requestId)
  }

  lemma {:induction false} InBudgetIff(t: Table, rows: seq<ForwardedRequest>, input: nat -> RowInput, pluginId: string,
                                       i: nat)
    requires i < |rows|
    ensures InBudget(input, i) <==> !AfterRows(t, rows, input, pluginId, i).stopped && !input(i).expired
  {
    if i > 0 {
      InBudgetIff(t, rows, input, pluginId, i - 1);
    }
  }

  lemma AttemptedTurn(t: Table, rows: seq<ForwardedRequest>, input: nat -> RowInput, pluginId: string, i: nat)
    requires Attempted(rows, input, i)
    ensures AfterRows(t, rows, input, pluginId, i + 1) ==
            AfterRow(AfterRows(t, rows, input, pluginId, i), rows[i], input(i), pluginId)
  {
    InBudgetIff(t, rows, input, pluginId, i);
    NextTurn(t, rows, input, pluginId, i);
  }

  lemma IdleTurn(t: Table, rows: seq<ForwardedRequest>, input: nat -> RowInput, pluginId: string, i: nat)
    requires i < |rows| && !Attempted(rows, input, i)
    ensures var p, q := AfterRows(t, rows, input, pluginId, i), AfterRows(t, rows, input, pluginId, i + 1);
            q == p.(stopped := q.stopped)
  {
    InBudgetIff(t, rows, input, pluginId, i);
  }

  // One turn either leaves the progress alone or is an attempt at its row.
  lemma TurnCases(t: Table, rows: seq<ForwardedRequest>, input: nat -> RowInput, pluginId: string, k: nat)
    requires 0 < k <= |rows|
    ensures var p, q := AfterRows(t, rows, input, pluginId, k - 1), AfterRows(t, rows, input, pluginId, k);
            if Attempted(rows, input, k - 1) then q == AfterRow(p, rows[k - 1], input(k - 1), pluginId)
            else q == p.(stopped := q.stopped)
  {
    if Attempted(rows, input, k - 1) {
      AttemptedTurn(t, rows, input, pluginId, k - 1);
    } else {
      IdleTurn(t, rows, input, pluginId, k - 1);
    }
  }

  // ---------- frame and error report ----------

  // A turn writes no row but its own.
  lemma TurnLeavesOthers(t: Table, rows: seq<ForwardedRequest>, input: nat -> RowInput, pluginId: string, k: nat,
                         id: string)
    requires 0 < k <= |rows| && !AttemptedFor(rows, input, k - 1, id)
    ensures Lookup(AfterRows(t, rows, input, pluginId, k).table, id) ==
            Lookup(AfterRows(t, rows, input, pluginId, k - 1).table, id)
  {
    TurnCases(t, rows, input, pluginId, k);
  }

  // A row the tick did not attempt is exactly as it was.
  lemma UnattemptedRowUnchanged(t: Table, rows: seq<ForwardedRequest>, input: nat -> RowInput, pluginId: string, k: nat,
                                id: string)
    requires k <= |rows|
    requires forall i: nat :: i < k ==> !AttemptedFor(rows, input, i, id)
    ensures Lookup(AfterRows(t, rows, input, pluginId, k).table, id) == Lookup(t, id)
  {
    for i := 0 to k
      invariant Lookup(AfterRows(t, rows, input, pluginId, i).table, id) == Lookup(t, id)
    {
      TurnLeavesOthers(t, rows, input, pluginId, i + 1, id);
    }
  }

  // When a row's turn comes, the row is still as it was when the tick started.
  lemma UntouchedUntilItsTurn(t: Table, rows: seq<ForwardedRequest>, input: nat -> RowInput, pluginId: string, i: nat)
    requires i < |rows| && DistinctIds(rows)
    ensures Lookup(AfterRows(t, rows, input, pluginId, i).table, rows[i].requestId) == Lookup(t, rows[i].requestId)
  {
    forall j: nat | j < i ensures !AttemptedFor(rows, input, j, rows[i].requestId) {}
    UnattemptedRowUnchanged(t, rows, input, pluginId, i, rows[i].requestId);
  }

  lemma TurnWritesItsRow(t: Table, rows: seq<ForwardedRequest>, input: nat -> RowInput, pluginId: string, i: nat)
    requires DistinctIds(rows) && Attempted(rows, input, i)
    ensures Lookup(AfterRows(t, rows, input, pluginId, i + 1).table, rows[i].requestId) ==
            WrittenRow(t, rows[i], input(i))
  {
    AttemptedTurn(t, rows, input, pluginId, i);
    UntouchedUntilItsTurn(t, rows, input, pluginId, i);
  }

  lemma LaterTurnsKeepRow(t: Table, rows: seq<ForwardedRequest>, input: nat -> RowInput, pluginId: string, m: nat,
                          k: nat, id: string, row: Option<Row>)
    requires m <= k <= |rows| && Lookup(AfterRows(t, rows, input, pluginId, m).table, id) == row
    requires forall j :: m <= j < k ==> rows[j].requestId != id
    ensures Lookup(AfterRows(t, rows, input, pluginId, k).table, id) == row
  {
    for j := m to k
      invariant Lookup(AfterRows(t, rows, input, pluginId, j).table, id) == row
    {
      TurnLeavesOthers(t, rows, input, pluginId, j + 1, id);
    }
  }

  // A row the tick attempted holds the effect of its one write, whatever became of the others.
  lemma AttemptedRowWritten(t: Table, rows: seq<ForwardedRequest>, input: nat -> RowInput, pluginId: string, k: nat,
                            i: nat)
    requires i < k <= |rows| && DistinctIds(rows) && Attempted(rows, input, i)
    ensures Lookup(AfterRows(t, rows, input, pluginId, k).table, rows[i].requestId) == WrittenRow(t, rows[i], input(i))
  {
    TurnWritesItsRow(t, rows, input, pluginId, i);
    LaterTurnsKeepRow(t, rows, input, pluginId, i + 1, k, rows[i].requestId, WrittenRow(t, rows[i], input(i)));
  }

  lemma TurnKeepsKeys(t: Table, rows: seq<ForwardedRequest>, input: nat -> RowInput, pluginId: string, k: nat)
    requires 0 < k <= |rows| && rows[k - 1].requestId in AfterRows(t, rows, input, pluginId, k - 1).table
    ensures AfterRows(t, rows, input, pluginId, k).table.Keys == AfterRows(t, rows, input, pluginId, k - 1).table.Keys
  {
    TurnCases(t, rows, input, pluginId, k);
  }

  // The tick creates and deletes no row.
  lemma TickKeepsKeys(t: Table, rows: seq<ForwardedRequest>, input: nat -> RowInput, pluginId: string, k: nat)
    requires k <= |rows| && forall i :: 0 <= i < |rows| ==> rows[i].requestId in t
    ensures AfterRows(t, rows, input, pluginId, k).table.Keys == t.Keys
  {
    for i := 0 to k
      invariant AfterRows(t, rows, input, pluginId, i).table.Keys == t.Keys
    {
      TurnKeepsKeys(t, rows, input, pluginId, i + 1);
    }
  }

  // The error of a turn: that of its write, if it is attempted and reported as failed.
  function TurnError(rows: seq<ForwardedRequest>, input: nat -> RowInput, i: nat): Option<TickError>
    requires i < |rows|
  {
    if Attempted(rows, input, i) && input(i).fault.Reported() then Some(WriteError(rows[i], input(i).Reply())) else None
  }

  // The error of the first turn that has one.
  function FirstTurnError(rows: seq<ForwardedRequest>, input: nat -> RowInput, k: nat): Option<TickError>
    requires k <= |rows|
  {
    if k == 0 then None
    else
      var err := FirstTurnError(rows, input, k - 1);
      if err.None? then TurnError(rows, input, k - 1) else err
  }

  lemma {:induction false} NoTurnErrorIff(rows: seq<ForwardedRequest>, input: nat -> RowInput, k: nat)
    requires k <= |rows|
    ensures FirstTurnError(rows, input, k).None? <==> forall i: nat :: i < k ==> TurnError(rows, input, i).None?
    decreases k
  {
    if k > 0 {
      NoTurnErrorIff(rows, input, k - 1);
    }
  }

  lemma {:induction false} FindTurnError(rows: seq<ForwardedRequest>, input: nat -> RowInput, k: nat) returns (i: nat)
    requires k <= |rows| && FirstTurnError(rows, input, k).Some?
    ensures i < k && TurnError(rows, input, i) == FirstTurnError(rows, input, k)
    ensures forall j: nat :: j < i ==> TurnError(rows, input, j).None?
    decreases k
  {
    if FirstTurnError(rows, input, k - 1).Some? {
      i := FindTurnError(rows, input, k - 1);
    } else {
      i := k - 1;
      NoTurnErrorIff(rows, input, k - 1);
    }
  }

  lemma TurnReport(t: Table, rows: seq<ForwardedRequest>, input: nat -> RowInput, pluginId: string, i: nat)
    requires i < |rows|
    ensures var before := AfterRows(t, rows, input, pluginId, i).firstErr;
            AfterRows(t, rows, input, pluginId, i + 1).firstErr ==
            if before.None? then TurnError(rows, input, i) else before
  {
    TurnCases(t, rows, input, pluginId, i + 1);
  }

  lemma TickKeepsFirstError(t: Table, rows: seq<ForwardedRequest>, input: nat -> RowInput, pluginId: string, k: nat)
    requires k <= |rows|
    ensures AfterRows(t, rows, input, pluginId, k).firstErr == FirstTurnError(rows, input, k)
  {
    for i := 0 to k
      invariant AfterRows(t, rows, input, pluginId, i).firstErr == FirstTurnError(rows, input, i)
    {
      TurnReport(t, rows, input, pluginId, i);
    }
  }

  // The returned error: none exactly when every attempted write reported success, and otherwise
  // that of the first attempted write that did not.
  lemma TickReport(t: Table, rows: seq<ForwardedRequest>, input: nat -> RowInput, pluginId: string, k: nat)
    requires k <= |rows|
    ensures var err := AfterRows(t, rows, input, pluginId, k).firstErr;
            && (err.None? <==> forall i: nat :: i < k ==> TurnError(rows, input, i).None?)
            && (err.Some? ==> exists i: nat :: i < k && TurnError(rows, input, i) == err &&
                                forall j: nat :: j < i ==> TurnError(rows, input, j).None?)
  {
    TickKeepsFirstError(t, rows, input, pluginId, k);
    NoTurnErrorIff(rows, input, k);
    if FirstTurnError(rows, input, k).Some? {
      var i := FindTurnError(rows, input, k);
    }
  }

  // Which error is reported tells how the poll went: upstream failed, or the poll published news,
  // or it did not.
  lemma WriteErrorTells(row: ForwardedRequest, reply: Reply, pluginId: string)
    ensures WriteError(row, reply) == UpsertAfterUpstreamError <==> reply.Unavailable?
    ensures WriteError(row, reply) == MarkPolledStatusChange <==> TransitionEvent(row, reply, pluginId) != []
    ensures WriteError(row, reply) == MarkPolledNoTransition <==>
            reply.Snapshot? && TransitionEvent(row, reply, pluginId) == []
  {
  }

  // The host gets the events of exactly the turns at which it takes them.
  lemma HostTakesTurn(t: Table, rows: seq<ForwardedRequest>, input: nat -> RowInput, pluginId: string, i: nat)
    requires i < |rows|
    ensures var p, q := AfterRows(t, rows, input, pluginId, i), AfterRows(t, rows, input, pluginId, i + 1);
            && p.events <= q.events
            && q.taken == p.taken + if input(i).host == Taking then q.events[|p.events|..] else []
  {
    TurnCases(t, rows, input, pluginId, i + 1);
  }

  // How many turns come before the context expires.
  ghost function Budget(input: nat -> RowInput, n: nat): (m: nat)
    ensures m <= n && (forall j: nat :: j < m ==> !input(j).expired) && (m < n ==> input(m).expired)
  {
    if n == 0 then 0
    else if Budget(input, n - 1) < n - 1 || input(n - 1).expired then Budget(input, n - 1)
    else n
  }

  function ExternalIds(rows: seq<ForwardedRequest>): seq<string> {
    if rows == [] then []
    else ExternalIds(rows[..|rows|-1]) + if rows[|rows|-1].externalId == "" then [] else [rows[|rows|-1].externalId]
  }

  lemma TurnPolls(t: Table, rows: seq<ForwardedRequest>, input: nat -> RowInput, pluginId: string, k: nat)
    requires 0 < k <= |rows|
    ensures AfterRows(t, rows, input, pluginId, k).polled ==
            AfterRows(t, rows, input, pluginId, k - 1).polled +
            if Attempted(rows, input, k - 1) then [rows[k - 1].externalId] else []
  {
    TurnCases(t, rows, input, pluginId, k);
  }

  // The external ids of the listed rows in the prefix that fits the budget.
  ghost function ToPoll(rows: seq<ForwardedRequest>, input: nat -> RowInput, k: nat): seq<string>
    requires k <= |rows|
  {
    ExternalIds(rows[..Budget(input, k)])
  }

  lemma BudgetGrows(rows: seq<ForwardedRequest>, input: nat -> RowInput, i: nat)
    requires i < |rows|
    ensures ToPoll(rows, input, i + 1) ==
            ToPoll(rows, input, i) + if Attempted(rows, input, i) then [rows[i].externalId] else []
  {
    InBudgetMeans(input, i);
    if InBudget(input, i) {
      assert rows[..i + 1][..i] == rows[..i];
    }
  }

  lemma TurnKeepsPolled(t: Table, rows: seq<ForwardedRequest>, input: nat -> RowInput, pluginId: string, i: nat)
    requires i < |rows| && AfterRows(t, rows, input, pluginId, i).polled == ToPoll(rows, input, i)
    ensures AfterRows(t, rows, input, pluginId, i + 1).polled == ToPoll(rows, input, i + 1)
  {
    TurnPolls(t, rows, input, pluginId, i + 1);
    BudgetGrows(rows, input, i);
  }

  // Upstream is asked, in list order, about the listed rows with an external id in the prefix
  // of the list that fits the budget, and about nothing else.
  lemma PolledInOrder(t: Table, rows: seq<ForwardedRequest>, input: nat -> RowInput, pluginId: string, k: nat)
    requires k <= |rows|
    ensures AfterRows(t, rows, input, pluginId, k).polled == ToPoll(rows, input, k)
  {
    for i := 0 to k
      invariant AfterRows(t, rows, input, pluginId, i).polled == ToPoll(rows, input, i)
    {
      TurnKeepsPolled(t, rows, input, pluginId, i);
    }
  }

  // ---------- runs of ticks ----------

  // One tick that obtained the mutex and its list.
  datatype Turn = Turn(delivered: nat, input: nat -> RowInput)

  datatype Outcome = Outcome(table: Table, events: seq<Event>)

  // The rows are current copies of distinct non-terminal rows of the table.
  ghost predicate ListedFrom(t: Table, rows: seq<ForwardedRequest>) {
    && DistinctIds(rows)
    && forall i :: 0 <= i < |rows| ==>
         && rows[i].requestId in t && !t[rows[i].requestId].status.Terminal()
         && rows[i] == S.AsListed(rows[i].requestId, t[rows[i].requestId])
  }

  ghost function TurnRows(t: Table, turn: Turn, batch: int): (rows: seq<ForwardedRequest>)
    ensures ListedFrom(t, rows)
  {
    var rows := S.Delivered(t, batch, turn.delivered);
    assert forall i :: 0 <= i < |rows| ==> rows[i] == S.Listing(t, batch)[i];
    rows
  }

  ghost function AfterTurn(t: Table, turn: Turn, batch: int, pluginId: string): Outcome {
    var rows := TurnRows(t, turn, batch);
    var p := AfterRows(t, rows, turn.input, pluginId, |rows|);
    Outcome(p.table, p.events)
  }

  ghost function AfterTurns(t: Table, turns: seq<Turn>, batch: int, pluginId: string): Outcome {
    if turns == [] then Outcome(t, []) else
    var before := AfterTurns(t, turns[..|turns|-1], batch, pluginId);
    var last := AfterTurn(before.table, turns[|turns|-1], batch, pluginId);
    Outcome(last.table, before.events + last.events)
  }

  ghost predicate Succeeds(input: nat -> RowInput) {
    forall i: nat :: input(i).fault.Committed?
  }

  ghost predicate AllSucceed(turns: seq<Turn>) {
    forall i :: 0 <= i < |turns| ==> Succeeds(turns[i].input)
  }

  // ---------- the event log against the table ----------

  // The status a tick event announces.
  function Announced(e: Event): Option<Status> {
    match e
    case RequestFulfilled(_, _, _, _) => Some(Imported)
    case RequestFailed(_, _, _, _) => Some(Failed)
    case RequestStatusChanged(_, _, _, status) => Some(status)
    case _ => None
  }

  // A subscriber that tracks one request: the status after reading the log.
  function Fold(start: Status, log: seq<Event>, id: string): Status {
    if log == [] then start else
    var e := log[|log|-1];
    if e.requestId == id && Announced(e).Some? then Announced(e).value else Fold(start, log[..|log|-1], id)
  }

  // No event tells that subscriber what it already knew.
  predicate NoRepeats(start: Status, log: seq<Event>, id: string) {
    log == [] ||
    (var before, e := log[..|log|-1], log[|log|-1];
     NoRepeats(start, before, id) && (e.requestId == id ==> Announced(e) != Some(Fold(start, before, id))))
  }

  lemma {:induction false} FoldAppend(start: Status, a: seq<Event>, b: seq<Event>, id: string)
    ensures Fold(start, a + b, id) == Fold(Fold(start, a, id), b, id)
    ensures NoRepeats(start, a + b, id) <==> NoRepeats(start, a, id) && NoRepeats(Fold(start, a, id), b, id)
  {
    if b == [] {
      assert a + b == a;
    } else {
      FoldAppend(start, a, b[..|b|-1], id);
      assert (a + b)[..|a + b|-1] == a + b[..|b|-1];
    }
  }

  // What one committed poll of a listed row does to that row: its status becomes the settled
  // one, its error text the poll's error or nothing.
  lemma PollOutcome(t: Table, id: string, e: RowInput, pluginId: string)
    requires id in t && !t[id].status.Terminal() && t[id].externalId.Some? && t[id].externalId.value != ""
    requires e.fault.Committed?
    ensures var row := S.AsListed(id, t[id]);
            && WrittenRow(t, row, e).Some?
            && var after := WrittenRow(t, row, e).value;
            && after.status == Settled(row, e.Reply())
            && after.errorText == (if e.Reply().Unavailable? then Some(e.Reply().error) else None)
            && after.externalId == t[id].externalId
            && after.lastPolled == Some(e.polledAt)
            && after.updatedAt == (if e.Reply().Unavailable? then e.stampedAt else e.polledAt)
            && after.autoMonitor == t[id].autoMonitor
  {
  }

  lemma FoldOne(start: Status, e: Event, id: string)
    ensures Fold(start, [e], id) == if e.requestId == id && Announced(e).Some? then Announced(e).value else start
    ensures NoRepeats(start, [e], id) <==> (e.requestId == id ==> Announced(e) != Some(start))
  {
    var log := [e];
    assert log[..0] == [];
    assert Fold(start, [], id) == start && NoRepeats(start, [], id);
  }

  lemma TransitionFold(row: ForwardedRequest, reply: Reply, pluginId: string, id: string)
    ensures var log := TransitionEvent(row, reply, pluginId);
            && Fold(row.status, log, row.requestId) == Settled(row, reply)
            && NoRepeats(row.status, log, row.requestId)
            && (id != row.requestId ==> forall s :: Fold(s, log, id) == s && NoRepeats(s, log, id))
  {
    var log := TransitionEvent(row, reply, pluginId);
    if log != [] {
      var e := log[0];
      assert log == [e] && e.requestId == row.requestId && Announced(e) == Some(Settled(row, reply));
      FoldOne(row.status, e, row.requestId);
      forall s | id != row.requestId ensures Fold(s, log, id) == s && NoRepeats(s, log, id) {
        FoldOne(s, e, id);
      }
    }
  }

  // After some turns, the events and the table agree about the row, and told no news twice.
  ghost predicate Tracked(start: Status, p: Progress, id: string) {
    id in p.table && Fold(start, p.events, id) == p.table[id].status && NoRepeats(start, p.events, id)
  }

  lemma TurnKeepsTracking(t: Table, p: Progress, row: ForwardedRequest, e: RowInput, pluginId: string, id: string)
    requires id in t && Tracked(t[id].status, p, id) && e.fault.Committed? && row.externalId != ""
    requires row.requestId == id ==>
               !t[id].status.Terminal() && row == S.AsListed(id, t[id]) && p.table[id] == t[id]
    ensures Tracked(t[id].status, AfterRow(p, row, e, pluginId), id)
  {
    FoldAppend(t[id].status, p.events, TransitionEvent(row, e.Reply(), pluginId), id);
    TransitionFold(row, e.Reply(), pluginId, id);
  }

  lemma AttemptKeepsTracking(t: Table, rows: seq<ForwardedRequest>, input: nat -> RowInput, pluginId: string, i: nat,
                             id: string)
    requires id in t && ListedFrom(t, rows) && Succeeds(input) && Attempted(rows, input, i)
    requires Tracked(t[id].status, AfterRows(t, rows, input, pluginId, i), id)
    ensures Tracked(t[id].status, AfterRows(t, rows, input, pluginId, i + 1), id)
  {
    AttemptedTurn(t, rows, input, pluginId, i);
    UntouchedUntilItsTurn(t, rows, input, pluginId, i);
    TurnKeepsTracking(t, AfterRows(t, rows, input, pluginId, i), rows[i], input(i), pluginId, id);
  }

  lemma TurnKeepsTracked(t: Table, rows: seq<ForwardedRequest>, input: nat -> RowInput, pluginId: string, i: nat,
                         id: string)
    requires id in t && i < |rows| && ListedFrom(t, rows) && Succeeds(input)
    requires Tracked(t[id].status, AfterRows(t, rows, input, pluginId, i), id)
    ensures Tracked(t[id].status, AfterRows(t, rows, input, pluginId, i + 1), id)
  {
    if Attempted(rows, input, i) {
      AttemptKeepsTracking(t, rows, input, pluginId, i, id);
    } else {
      IdleTurn(t, rows, input, pluginId, i);
    }
  }

  lemma EventsTrackRows(t: Table, rows: seq<ForwardedRequest>, input: nat -> RowInput, pluginId: string, k: nat,
                        id: string)
    requires id in t && k <= |rows| && ListedFrom(t, rows) && Succeeds(input)
    ensures Tracked(t[id].status, AfterRows(t, rows, input, pluginId, k), id)
  {
    for i := 0 to k
      invariant Tracked(t[id].status, AfterRows(t, rows, input, pluginId, i), id)
    {
      TurnKeepsTracked(t, rows, input, pluginId, i, id);
    }
  }

  // Over any run of ticks whose writes succeed, a subscriber that folds the events knows every
  // row's stored status, and is never told the same status twice in a row.
  lemma {:induction false} EventLogMatchesTable(t: Table, turns: seq<Turn>, batch: int, pluginId: string, id: string)
    requires id in t && AllSucceed(turns)
    ensures var run := AfterTurns(t, turns, batch, pluginId);
            && id in run.table
            && Fold(t[id].status, run.events, id) == run.table[id].status
            && NoRepeats(t[id].status, run.events, id)
  {
    if turns != [] {
      var before := turns[..|turns|-1];
      EventLogMatchesTable(t, before, batch, pluginId, id);
      var mid, turn := AfterTurns(t, before, batch, pluginId), turns[|turns|-1];
      var rows := TurnRows(mid.table, turn, batch);
      EventsTrackRows(mid.table, rows, turn.input, pluginId, |rows|, id);
      FoldAppend(t[id].status, mid.events, AfterTurn(mid.table, turn, batch, pluginId).events, id);
    }
  }

  // ---------- the error text against the polls ----------

  // What upstream answered to one tick's poll of the id, None when the tick did not poll it.
  ghost function PollIn(t: Table, turn: Turn, batch: int, id: string): Option<Reply> {
    var rows := TurnRows(t, turn, batch);
    if i: nat :| AttemptedFor(rows, turn.input, i, id) then Some(turn.input(i).Reply()) else None
  }

  ghost function LatestPoll(t: Table, turns: seq<Turn>, batch: int, pluginId: string, id: string): Option<Reply> {
    if turns == [] then None else
    var before := turns[..|turns|-1];
    var last := PollIn(AfterTurns(t, before, batch, pluginId).table, turns[|turns|-1], batch, id);
    if last.Some? then last else LatestPoll(t, before, batch, pluginId, id)
  }

  lemma ErrorTextAfterTurn(t: Table, turn: Turn, batch: int, pluginId: string, id: string)
    requires id in t && Succeeds(turn.input)
    ensures var after := AfterTurn(t, turn, batch, pluginId).table;
            && id in after
            && after[id].errorText ==
               match PollIn(t, turn, batch, id) {
                 case None => t[id].errorText
                 case Some(reply) => if reply.Unavailable? then Some(reply.error) else None
               }
  {
    var rows := TurnRows(t, turn, batch);
    TickKeepsKeys(t, rows, turn.input, pluginId, |rows|);
    if i: nat :| AttemptedFor(rows, turn.input, i, id) {
      forall j: nat | AttemptedFor(rows, turn.input, j, id) ensures j == i {}
      AttemptedRowWritten(t, rows, turn.input, pluginId, |rows|, i);
      PollOutcome(t, id, turn.input(i), pluginId);
    } else {
      UnattemptedRowUnchanged(t, rows, turn.input, pluginId, |rows|, id);
    }
  }

  // Over any run of ticks whose writes succeed, a row's error text is that of its most recent
  // poll: the error if the poll failed, nothing if it succeeded; unpolled rows keep theirs.
  lemma {:induction false} ErrorTextTracksLatestPoll(t: Table, turns: seq<Turn>, batch: int, pluginId: string,
                                                     id: string)
    requires id in t && AllSucceed(turns)
    ensures var after := AfterTurns(t, turns, batch, pluginId).table;
            && id in after
            && after[id].errorText ==
               match LatestPoll(t, turns, batch, pluginId, id) {
                 case None => t[id].errorText
                 case Some(reply) => if reply.Unavailable? then Some(reply.error) else None
               }
  {
    if turns != [] {
      var before := turns[..|turns|-1];
      ErrorTextTracksLatestPoll(t, before, batch, pluginId, id);
      ErrorTextAfterTurn(AfterTurns(t, before, batch, pluginId).table, turns[|turns|-1], batch, pluginId, id);
    }
  }
}
