/**
 The promises of the protocol, for every interleaving: every state reached by any sequence of
 actions from an empty table.
 */
module Safety {
  import opened Wrappers
  import opened Requests
  import opened RowHistory
  import opened Monitoring
  import opened Events
  import opened Reconciler
  import opened Protocol
  import opened Invariants
  import S = Store

  lemma ReachedInv(c: Config, actions: seq<Action>)
    ensures Inv(Reached(c, actions))
  {
    RunKeepsInv(c, INITIAL, actions);
  }

  // No accepted request is lost: once a delivery was acked, from then on the row exists and is
  // terminal or has an external id, whatever happens next.
  lemma NoAckedRequestIsLost(c: Config, actions: seq<Action>, later: seq<Action>, id: string)
    requires id in Reached(c, actions).hist.acked
    ensures Safe(Reached(c, actions + later).table, id)
  {
    ReachedInv(c, actions);
    RunAppend(c, INITIAL, actions, later);
    RunExtends(c, Reached(c, actions), later);
    SafeExtends(Reached(c, actions).table, Reached(c, actions + later).table, id);
  }

  // Every stored row: a named status; an external id unless it was only submitted or failed;
  // no poll without an external id.
  lemma EveryRowIsWellFormed(c: Config, actions: seq<Action>, id: string)
    requires id in Reached(c, actions).table
    ensures var row := Reached(c, actions).table[id];
            && !row.status.Unnamed?
            && (!row.status.Submitted? && !row.status.Failed? ==> HasExternalId(row))
            && (row.lastPolled.Some? ==> HasExternalId(row))
  {
    ReachedInv(c, actions);
    assert RowOk(Reached(c, actions).hist, id, Reached(c, actions).table[id]);
  }

  // A terminal status is final.
  lemma TerminalStatusIsFinal(c: Config, actions: seq<Action>, later: seq<Action>, id: string)
    requires id in Reached(c, actions).table
    requires Reached(c, actions).table[id].status == Imported || Reached(c, actions).table[id].status == Failed
    ensures var after := Reached(c, actions + later).table;
            id in after && after[id].status == Reached(c, actions).table[id].status
  {
    RunAppend(c, INITIAL, actions, later);
    RunExtends(c, Reached(c, actions), later);
  }

  // Where the contents of a row come from.
  lemma Provenance(c: Config, actions: seq<Action>, id: string)
    requires id in Reached(c, actions).table
    ensures var row, h := Reached(c, actions).table[id], Reached(c, actions).hist;
            && (row.externalId.Some? ==> (id, row.externalId.value) in h.issued)
            && (row.status.Imported? ==>
                  exists ext, book, bw ::
                    (id, ext) in h.issued && Report(ext, book, bw) in h.reports && (bw.BwImported? || bw.BwCompleted?))
            && (row.status.Failed? && id !in h.refused ==>
                  exists ext, book, bw ::
                    (id, ext) in h.issued && Report(ext, book, bw) in h.reports && (bw.BwFailed? || bw.BwError?))
            && (row.errorText.Some? ==> (id, row.errorText.value) in h.errors && row.errorText.value != "")
  {
    ReachedInv(c, actions);
    var h, row := Reached(c, actions).hist, Reached(c, actions).table[id];
    assert RowOk(h, id, row);
    if row.status.Imported? {
      var ext, book :| ReportedVia(h, id, ext, book, Imported);
    }
    if row.status.Failed? && id !in h.refused {
      var ext, book :| ReportedVia(h, id, ext, book, Status.Failed);
    }
  }

  // The same for what a tick holds in its hands, however stale.
  lemma SnapshotProvenance(c: Config, actions: seq<Action>, i: nat)
    requires var s := Reached(c, actions); s.tick.Some? && i < |s.tick.value.rows|
    ensures var s := Reached(c, actions); var row := s.tick.value.rows[i];
            && !row.status.Terminal()
            && (row.externalId != "" ==> (row.requestId, row.externalId) in s.hist.issued)
  {
    ReachedInv(c, actions);
    assert SnapshotOk(Reached(c, actions).hist, Reached(c, actions).tick.value.rows[i]);
  }

  // ---------- rows are the closed form of their writes ----------

  lemma ExecutionKeepsReplay(s: State, u: State, statement: Option<Statement>)
    requires s.table == TableAfter(s.hist.writes) && Executes(s, u, statement)
    ensures u.table == TableAfter(u.hist.writes)
  {
    if statement.Some? && statement.value.fault.Applied() {
      assert u.hist.writes[..|u.hist.writes|-1] == s.hist.writes;
    }
  }

  lemma {:induction false} TableIsReplay(c: Config, actions: seq<Action>)
    ensures Reached(c, actions).table == TableAfter(Reached(c, actions).hist.writes)
  {
    if actions != [] {
      var s, a := Reached(c, actions[..|actions|-1]), actions[|actions|-1];
      TableIsReplay(c, actions[..|actions|-1]);
      StepExecutes(c, s, a);
      ExecutionKeepsReplay(s, Step(c, s, a), StatementOf(s, a));
    }
  }

  lemma {:induction false} FirstUpsert(ws: seq<Write>) returns (m: nat)
    requires Replay(ws).Some?
    ensures m < |ws| && ws[m].Upsert? && forall i :: 0 <= i < m ==> ws[i].Mark?
  {
    if forall i :: 0 <= i < |ws| ==> ws[i].Mark? {
      MarksAloneLeaveNoRow(ws);
    }
    m := 0;
    while ws[m].Mark?
      invariant m < |ws| && forall i :: 0 <= i < m ==> ws[i].Mark?
      decreases |ws| - m
    {
      m := m + 1;
    }
  }

  // The history of a row that exists: from its first upsert on, in closed form.
  lemma HistoryFromFirstUpsert(all: seq<Write>) returns (marks: seq<Write>, ws: seq<Write>)
    requires Replay(all).Some?
    ensures all == marks + ws && forall i :: 0 <= i < |marks| ==> marks[i].Mark?
    ensures ws != [] && ws[0].Upsert? && ClosedForm(ws, Replay(all).value)
  {
    var m := FirstUpsert(all);
    marks, ws := all[..m], all[m..];
    assert all == marks + ws;
    LeadingMarksAreLost(marks, ws);
    ReplayIsClosedForm(ws);
  }

  // Whatever the interleaving, a row is the closed form of the statements that were applied to
  // it, from the first upsert on.
  lemma EveryRowIsClosedForm(c: Config, actions: seq<Action>, id: string) returns (marks: seq<Write>, ws: seq<Write>)
    requires id in Reached(c, actions).table
    ensures WritesTo(Reached(c, actions).hist.writes, id) == marks + ws
    ensures forall i :: 0 <= i < |marks| ==> marks[i].Mark?
    ensures ws != [] && ws[0].Upsert? && ClosedForm(ws, Reached(c, actions).table[id])
  {
    TableIsReplay(c, actions);
    RowIsReplayOfItsWrites(Reached(c, actions).hist.writes, id);
    marks, ws := HistoryFromFirstUpsert(WritesTo(Reached(c, actions).hist.writes, id));
  }

  // ---------- counts ----------

  lemma CountsGrow(t: Table, u: Table)
    requires TableExtends(t, u)
    ensures S.StatsOf(t).total <= S.StatsOf(u).total
    ensures S.StatsOf(t).failed <= S.StatsOf(u).failed
    ensures S.StatsOf(t).imported <= S.StatsOf(u).imported
  {
    S.SubsetCardinality(t.Keys, u.Keys);
    assert |t.Keys| == |t| && |u.Keys| == |u|;
    S.SubsetCardinality(set id | id in t && t[id].status.Failed?, set id | id in u && u[id].status.Failed?);
    S.SubsetCardinality(set id | id in t && t[id].status.Imported?, set id | id in u && u[id].status.Imported?);
  }

  // The admin page's numbers add up in every state, and the totals never go back.
  lemma StatsConserve(c: Config, actions: seq<Action>, later: seq<Action>)
    ensures var s, u := S.StatsOf(Reached(c, actions).table), S.StatsOf(Reached(c, actions + later).table);
            && s.total == s.active + s.failed + s.imported && s.unsubmitted <= s.active
            && s.total <= u.total && s.failed <= u.failed && s.imported <= u.imported
  {
    S.StatsPartition(Reached(c, actions).table);
    RunAppend(c, INITIAL, actions, later);
    RunExtends(c, Reached(c, actions), later);
    CountsGrow(Reached(c, actions).table, Reached(c, actions + later).table);
  }

  // ---------- terminal events ----------

  // How many terminal events the log holds that a tick published for the request.
  function TerminalEvents(log: seq<Event>, id: string): nat {
    if log == [] then 0
    else TerminalEvents(log[..|log|-1], id) + if IsTerminalEventFor(log[|log|-1], id) then 1 else 0
  }

  predicate IsTerminalEventFor(e: Event, id: string) {
    (e.RequestFulfilled? || e.RequestFailed?) && e.requestId == id
  }

  // The one it is about to publish counts as well.
  function PendingEnds(s: State, id: string): nat {
    if s.tick.Some? && s.tick.value.pc.Publishing? && IsTerminalEventFor(s.tick.value.pc.event, id) then 1 else 0
  }

  // The current row has been written already.
  predicate Awaits(s: State, id: string) {
    s.tick.Some? && exists i :: 0 <= i < |s.tick.value.rows| && s.tick.value.rows[i].requestId == id &&
                                (i == 0 ==> !s.tick.value.pc.Publishing?)
  }

  ghost predicate EventsBounded(s: State, id: string) {
    && TerminalEvents(s.log, id) + PendingEnds(s, id) <= s.hist.markErrors[id] + (if id in s.hist.marked then 1 else 0)
    && (id in s.hist.marked ==> id in s.table && s.table[id].status.Terminal() && !Awaits(s, id))
  }

  lemma LogGrows(log: seq<Event>, e: Event, id: string)
    ensures TerminalEvents(log + [e], id) == TerminalEvents(log, id) + if IsTerminalEventFor(e, id) then 1 else 0
  {
    assert (log + [e])[..|log|] == log;
  }

  // What a MarkPolled that returned no error did to the row.
  lemma MarkedRowIsTerminal(t: Table, row: ForwardedRequest, reply: Reply, polledAt: Instant, stampedAt: Instant)
    requires row.requestId in t && reply.Snapshot? && Settled(row, reply).Terminal()
    ensures var u := ApplyAt(t, row.requestId, PollWrite(row, reply, polledAt, stampedAt));
            row.requestId in u && u[row.requestId].status.Terminal()
  {
  }

  // A row that waits after the turn of another waited before it.
  lemma AwaitsBefore(s: State, u: State, id: string)
    requires s.tick.Some? && Awaits(u, id)
    requires || (u.tick.value.rows == s.tick.value.rows &&
                 (s.tick.value.pc.Publishing? ==> u.tick.value.pc.Publishing?))
             || (s.tick.value.rows != [] && u.tick.value.rows == s.tick.value.rows[1..])
    ensures Awaits(s, id)
  {
    var i :| 0 <= i < |u.tick.value.rows| && u.tick.value.rows[i].requestId == id &&
             (i == 0 ==> !u.tick.value.pc.Publishing?);
    var j := if u.tick.value.rows == s.tick.value.rows then i else i + 1;
    assert s.tick.value.rows[j].requestId == id;
  }

  // A step without a terminal event for the request, and without a successful MarkPolled of it.
  lemma NoNewsKeepsEventsBounded(s: State, u: State, id: string)
    requires EventsBounded(s, id) && TableExtends(s.table, u.table)
    requires TerminalEvents(u.log, id) + PendingEnds(u, id) <= TerminalEvents(s.log, id) + PendingEnds(s, id)
    requires u.hist.markErrors[id] == s.hist.markErrors[id] && (id in u.hist.marked <==> id in s.hist.marked)
    requires Awaits(u, id) ==> Awaits(s, id)
    ensures EventsBounded(u, id)
  {
  }

  // The tick writes this request's row.
  lemma OwnWriteKeepsEventsBounded(c: Config, s: State, polledAt: Instant, stampedAt: Instant, fault: Fault, id: string)
    requires Inv(s) && EventsBounded(s, id)
    requires s.tick.Some? && s.tick.value.pc.Replied? && s.tick.value.rows[0].requestId == id
    ensures EventsBounded(WriteRowStep(c, s, polledAt, stampedAt, fault), id)
  {
    var u := WriteRowStep(c, s, polledAt, stampedAt, fault);
    var row, reply := s.tick.value.rows[0], s.tick.value.pc.reply;
    assert Awaits(s, id);
    assert !Awaits(u, id);
    if id in u.hist.marked {
      MarkedRowIsTerminal(s.table, row, reply, polledAt, stampedAt);
    }
  }

  // What the tick's write of one row means for every other request.
  lemma OtherWriteIsNoNews(c: Config, s: State, polledAt: Instant, stampedAt: Instant, fault: Fault, id: string)
    requires s.tick.Some? && s.tick.value.pc.Replied? && s.tick.value.rows != []
    requires s.tick.value.rows[0].requestId != id
    ensures var u := WriteRowStep(c, s, polledAt, stampedAt, fault);
            && u.log == s.log && PendingEnds(u, id) == 0
            && u.hist.markErrors[id] == s.hist.markErrors[id] && (id in u.hist.marked <==> id in s.hist.marked)
            && (Awaits(u, id) ==> Awaits(s, id))
  {
    var u := WriteRowStep(c, s, polledAt, stampedAt, fault);
    if Awaits(u, id) {
      AwaitsBefore(s, u, id);
    }
  }

  // The tick writes another row.
  lemma OtherWriteKeepsEventsBounded(c: Config, s: State, polledAt: Instant, stampedAt: Instant, fault: Fault,
                                     id: string)
    requires s.tick.Some? && s.tick.value.pc.Replied? && s.tick.value.rows != []
    requires EventsBounded(s, id) && s.tick.value.rows[0].requestId != id
    ensures EventsBounded(WriteRowStep(c, s, polledAt, stampedAt, fault), id)
  {
    OtherWriteIsNoNews(c, s, polledAt, stampedAt, fault, id);
    var write := WriteRow(polledAt, stampedAt, fault);
    StepExtends(c, s, write);
    assert Step(c, s, write) == WriteRowStep(c, s, polledAt, stampedAt, fault);
    NoNewsKeepsEventsBounded(s, Step(c, s, write), id);
  }

  lemma WriteRowKeepsEventsBounded(c: Config, s: State, polledAt: Instant, stampedAt: Instant, fault: Fault, id: string)
    requires Inv(s) && EventsBounded(s, id)
    requires s.tick.Some? && s.tick.value.pc.Replied?
    ensures EventsBounded(WriteRowStep(c, s, polledAt, stampedAt, fault), id)
  {
    if s.tick.value.rows[0].requestId == id {
      OwnWriteKeepsEventsBounded(c, s, polledAt, stampedAt, fault, id);
    } else {
      OtherWriteKeepsEventsBounded(c, s, polledAt, stampedAt, fault, id);
    }
  }

  lemma PublishRowKeepsEventsBounded(s: State, id: string)
    requires Inv(s) && EventsBounded(s, id)
    requires s.tick.Some? && s.tick.value.pc.Publishing?
    ensures EventsBounded(PublishRowStep(s), id)
  {
    var u := PublishRowStep(s);
    LogGrows(s.log, s.tick.value.pc.event, id);
    if Awaits(u, id) {
      AwaitsBefore(s, u, id);
    }
  }

  lemma StartTickKeepsEventsBounded(c: Config, s: State, rows: seq<ForwardedRequest>, id: string)
    requires EventsBounded(s, id)
    ensures EventsBounded(StartTickStep(c, s, rows), id)
  {
    var u := StartTickStep(c, s, rows);
    if u != s && Awaits(u, id) {
      var i :| 0 <= i < |rows| && rows[i].requestId == id;
      assert rows[i] == S.Listing(s.table, c.batch)[i];
    }
  }

  // Steps that neither start a tick, nor write or publish for one.
  lemma OtherStepTellsNoEnd(c: Config, s: State, a: Action, id: string)
    requires !a.WriteRow? && !a.PublishRow? && !a.StartTick?
    ensures TerminalEvents(Step(c, s, a).log, id) == TerminalEvents(s.log, id)
  {
    var u := Step(c, s, a);
    if a.Announce? && |u.log| > |s.log| {
      LogGrows(s.log, u.log[|s.log|], id);
    }
  }

  lemma OtherStepIsNoNews(c: Config, s: State, a: Action, id: string)
    requires !a.WriteRow? && !a.PublishRow? && !a.StartTick?
    ensures var u := Step(c, s, a);
            && TerminalEvents(u.log, id) == TerminalEvents(s.log, id) && PendingEnds(u, id) <= PendingEnds(s, id)
            && u.hist.markErrors == s.hist.markErrors && u.hist.marked == s.hist.marked
  {
    OtherStepTellsNoEnd(c, s, a, id);
  }

  lemma OtherStepMakesNoneWait(c: Config, s: State, a: Action, id: string)
    requires !a.WriteRow? && !a.PublishRow? && !a.StartTick? && Awaits(Step(c, s, a), id)
    ensures Awaits(s, id)
  {
    AwaitsBefore(s, Step(c, s, a), id);
  }

  lemma OtherStepsKeepEventsBounded(c: Config, s: State, a: Action, id: string)
    requires EventsBounded(s, id) && !a.WriteRow? && !a.PublishRow? && !a.StartTick?
    ensures EventsBounded(Step(c, s, a), id)
  {
    StepExtends(c, s, a);
    OtherStepIsNoNews(c, s, a, id);
    if Awaits(Step(c, s, a), id) {
      OtherStepMakesNoneWait(c, s, a, id);
    }
    NoNewsKeepsEventsBounded(s, Step(c, s, a), id);
  }

  lemma StepKeepsEventsBounded(c: Config, s: State, a: Action, id: string)
    requires Inv(s) && EventsBounded(s, id)
    ensures EventsBounded(Step(c, s, a), id)
  {
    match a
    case WriteRow(polledAt, stampedAt, fault) =>
      if s.tick.Some? && s.tick.value.pc.Replied? {
        WriteRowKeepsEventsBounded(c, s, polledAt, stampedAt, fault, id);
      }
    case PublishRow =>
      if s.tick.Some? && s.tick.value.pc.Publishing? {
        PublishRowKeepsEventsBounded(s, id);
      }
    case StartTick(rows) =>
      StartTickKeepsEventsBounded(c, s, rows, id);
    case _ =>
      OtherStepsKeepEventsBounded(c, s, a, id);
  }

  lemma {:induction false} RunKeepsEventsBounded(c: Config, actions: seq<Action>, id: string)
    ensures EventsBounded(Reached(c, actions), id)
  {
    if actions != [] {
      var before := actions[..|actions|-1];
      RunKeepsEventsBounded(c, before, id);
      ReachedInv(c, before);
      StepKeepsEventsBounded(c, Reached(c, before), actions[|actions|-1], id);
    }
  }

  // The tick publishes at most one terminal event for a request, plus one for each of the
  // request's MarkPolled calls that returned an error, applied or not.
  lemma TerminalEventsAreBounded(c: Config, actions: seq<Action>, id: string)
    ensures TerminalEvents(Reached(c, actions).log, id) <= 1 + Reached(c, actions).hist.markErrors[id]
  {
    RunKeepsEventsBounded(c, actions, id);
  }

  lemma {:induction false} PartHasNoMore(part: seq<Event>, log: seq<Event>, id: string)
    requires IsPart(part, log)
    ensures TerminalEvents(part, id) <= TerminalEvents(log, id)
  {
    if log != [] {
      var before := log[..|log|-1];
      if IsPart(part, before) {
        PartHasNoMore(part, before, id);
      } else {
        PartHasNoMore(part[..|part|-1], before, id);
      }
    }
  }

  // So the host sees no more than that, whichever events it fails to take.
  lemma HostSeesNoMore(c: Config, actions: seq<Action>, taken: seq<Event>, id: string)
    requires IsPart(taken, Reached(c, actions).log)
    ensures TerminalEvents(taken, id) <= 1 + Reached(c, actions).hist.markErrors[id]
  {
    TerminalEventsAreBounded(c, actions, id);
    PartHasNoMore(taken, Reached(c, actions).log, id);
  }

  // ---------- ended requests stay silent ----------

  // The request has ended, and the tick neither holds its row nor is about to publish its end.
  ghost predicate Quiet(s: State, id: string) {
    id in s.table && s.table[id].status.Terminal() && !Awaits(s, id) && PendingEnds(s, id) == 0
  }

  lemma PublishRowStaysQuiet(s: State, id: string)
    requires Quiet(s, id) && s.tick.Some? && s.tick.value.pc.Publishing? && s.tick.value.rows != []
    ensures Quiet(PublishRowStep(s), id) && TerminalEvents(PublishRowStep(s).log, id) == TerminalEvents(s.log, id)
  {
    var u := PublishRowStep(s);
    LogGrows(s.log, s.tick.value.pc.event, id);
    if Awaits(u, id) {
      AwaitsBefore(s, u, id);
    }
  }

  lemma StartTickStaysQuiet(c: Config, s: State, rows: seq<ForwardedRequest>, id: string)
    requires Quiet(s, id)
    ensures Quiet(StartTickStep(c, s, rows), id)
  {
    assert rows <= S.Listing(s.table, c.batch) ==>
             forall i :: 0 <= i < |rows| ==> rows[i] == S.Listing(s.table, c.batch)[i];
  }

  lemma WriteRowStaysQuiet(c: Config, s: State, polledAt: Instant, stampedAt: Instant, fault: Fault, id: string)
    requires Quiet(s, id) && s.tick.Some? && s.tick.value.pc.Replied? && s.tick.value.rows != []
    ensures var u := WriteRowStep(c, s, polledAt, stampedAt, fault);
            u.log == s.log && PendingEnds(u, id) == 0 && !Awaits(u, id)
  {
    assert s.tick.value.rows[0].requestId == id ==> Awaits(s, id);
    OtherWriteIsNoNews(c, s, polledAt, stampedAt, fault, id);
  }

  lemma StepStaysQuiet(c: Config, s: State, a: Action, id: string)
    requires Quiet(s, id)
    ensures Quiet(Step(c, s, a), id) && TerminalEvents(Step(c, s, a).log, id) == TerminalEvents(s.log, id)
  {
    StepExtends(c, s, a);
    match a
    case WriteRow(polledAt, stampedAt, fault) =>
      if s.tick.Some? && s.tick.value.pc.Replied? && s.tick.value.rows != [] {
        WriteRowStaysQuiet(c, s, polledAt, stampedAt, fault, id);
      }
    case PublishRow =>
      if s.tick.Some? && s.tick.value.pc.Publishing? && s.tick.value.rows != [] {
        PublishRowStaysQuiet(s, id);
      }
    case StartTick(rows) =>
      StartTickStaysQuiet(c, s, rows, id);
    case _ =>
      OtherStepIsNoNews(c, s, a, id);
      if Awaits(Step(c, s, a), id) {
        OtherStepMakesNoneWait(c, s, a, id);
      }
  }

  // Once a request has ended and no tick holds its row, no tick ever publishes its end again.
  lemma {:induction false} EndedStaysSilent(c: Config, s: State, actions: seq<Action>, id: string)
    requires Quiet(s, id)
    ensures Quiet(Run(c, s, actions), id) && TerminalEvents(Run(c, s, actions).log, id) == TerminalEvents(s.log, id)
  {
    if actions != [] {
      var before := actions[..|actions|-1];
      EndedStaysSilent(c, s, before, id);
      StepStaysQuiet(c, Run(c, s, before), actions[|actions|-1], id);
    }
  }

  lemma {:induction false} NoNewEnd(log: seq<Event>, more: seq<Event>, id: string)
    requires TerminalEvents(log + more, id) == TerminalEvents(log, id)
    ensures forall e :: e in more ==> !IsTerminalEventFor(e, id)
  {
    if more != [] {
      var before, e := more[..|more|-1], more[|more|-1];
      assert log + more == (log + before) + [e];
      LogGrows(log + before, e, id);
      EndsAccumulate(log, before, id);
      NoNewEnd(log, before, id);
    }
  }

  lemma {:induction false} EndsAccumulate(log: seq<Event>, more: seq<Event>, id: string)
    ensures TerminalEvents(log, id) <= TerminalEvents(log + more, id)
  {
    if more == [] {
      assert log + more == log;
    } else {
      var before, e := more[..|more|-1], more[|more|-1];
      assert log + more == (log + before) + [e];
      LogGrows(log + before, e, id);
      EndsAccumulate(log, before, id);
    }
  }

  predicate Fulfils(e: Event, id: string) {
    e.RequestFulfilled? && e.requestId == id
  }

  ghost predicate IsFulfilled(s: State, id: string) {
    exists e :: e in s.log && Fulfils(e, id)
  }

  // Now or never: once a row is imported and no tick is in flight, its fulfilment is published in
  // some continuation exactly when it has been published already.
  lemma FulfilledNowOrNever(c: Config, actions: seq<Action>, id: string)
    requires var s := Reached(c, actions); s.tick.None? && id in s.table && s.table[id].status.Imported?
    ensures (exists later :: IsFulfilled(Reached(c, actions + later), id)) <==> IsFulfilled(Reached(c, actions), id)
  {
    var s := Reached(c, actions);
    forall later | IsFulfilled(Reached(c, actions + later), id) ensures IsFulfilled(s, id) {
      RunAppend(c, INITIAL, actions, later);
      NothingNewIsFulfilled(c, s, later, id);
    }
    assert actions + [] == actions;
  }

  lemma NothingNewIsFulfilled(c: Config, s: State, later: seq<Action>, id: string)
    requires Quiet(s, id) && IsFulfilled(Run(c, s, later), id)
    ensures IsFulfilled(s, id)
  {
    var u := Run(c, s, later);
    EndedStaysSilent(c, s, later, id);
    RunExtends(c, s, later);
    var more := u.log[|s.log|..];
    assert u.log == s.log + more;
    NoNewEnd(s.log, more, id);
    var e :| e in u.log && Fulfils(e, id);
    assert e in s.log || e in more;
  }
}
