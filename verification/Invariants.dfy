/**
 What every step of the protocol keeps, and what therefore holds in every reachable state.
 */
module Invariants {
  import opened Wrappers
  import opened Requests
  import opened Monitoring
  import opened Reconciler
  import opened Consumer
  import opened Protocol
  import S = Store

  // ---------- what is never lost ----------

  // Rows stay, terminal statuses stay, an external id is never erased.
  ghost predicate TableExtends(t: Table, u: Table) {
    forall id :: id in t ==>
      && id in u
      && (t[id].status.Terminal() ==> u[id].status == t[id].status)
      && (HasExternalId(t[id]) ==> HasExternalId(u[id]))
  }

  ghost predicate HistoryExtends(h: History, k: History) {
    && h.issued <= k.issued && h.refused <= k.refused && h.reports <= k.reports && h.acked <= k.acked
    && h.lost <= k.lost && h.errors <= k.errors
  }

  ghost predicate Extends(s: State, u: State) {
    TableExtends(s.table, u.table) && HistoryExtends(s.hist, u.hist) && s.log <= u.log
  }

  // The statement a step executes, if any.
  datatype Statement = Statement(id: string, w: Write, fault: Fault)

  function StatementOf(s: State, a: Action): Option<Statement> {
    match a
    case SaveSubmitted(key, stamp, fault) =>
      if key in s.deliveries && s.deliveries[key].pc.Received? then
        Some(Statement(s.deliveries[key].requestId, SubmittedWrite(s.deliveries[key].autoMonitor, stamp), fault))
      else None
    case SaveOutcome(key, stamp, fault) =>
      if key in s.deliveries && s.deliveries[key].pc.Answered? then
        Some(Statement(s.deliveries[key].requestId,
                       OutcomeWrite(s.deliveries[key].pc.receipt, s.deliveries[key].autoMonitor, stamp), fault))
      else None
    case WriteRow(polledAt, stampedAt, fault) =>
      if s.tick.Some? && s.tick.value.pc.Replied? && s.tick.value.rows != [] then
        Some(Statement(s.tick.value.rows[0].requestId,
                       PollWrite(s.tick.value.rows[0], s.tick.value.pc.reply, polledAt, stampedAt), fault))
      else None
    case _ => None
  }

  // The table and its recorded history change by that statement and by nothing else.
  ghost predicate Executes(s: State, u: State, statement: Option<Statement>) {
    match statement
    case None => u.table == s.table && u.hist.writes == s.hist.writes
    case Some(st) =>
      && u.table == ApplyFaulty(s.table, st.id, st.w, st.fault)
      && u.hist.writes == if st.fault.Applied() then s.hist.writes + [(st.id, st.w)] else s.hist.writes
  }

  lemma StepExecutes(c: Config, s: State, a: Action)
    ensures Executes(s, Step(c, s, a), StatementOf(s, a))
  {
  }

  lemma StepKeepsLog(c: Config, s: State, a: Action)
    ensures s.log <= Step(c, s, a).log
  {
  }

  lemma StepKeepsHistory(c: Config, s: State, a: Action)
    ensures HistoryExtends(s.hist, Step(c, s, a).hist)
  {
  }

  lemma StepRecords(c: Config, s: State, a: Action)
    ensures HistoryExtends(s.hist, Step(c, s, a).hist) && s.log <= Step(c, s, a).log
  {
    StepKeepsLog(c, s, a);
    StepKeepsHistory(c, s, a);
  }

  // No statement writes an empty external id.
  lemma StatementWritesNoEmptyId(s: State, a: Action)
    requires StatementOf(s, a).Some?
    ensures StatementOf(s, a).value.w.ExternalIdWritten() != Some("")
  {
  }

  lemma WriteExtends(t: Table, id: string, w: Write, fault: Fault)
    requires w.ExternalIdWritten() != Some("")
    ensures TableExtends(t, ApplyFaulty(t, id, w, fault))
  {
  }

  lemma StepExtends(c: Config, s: State, a: Action)
    ensures Extends(s, Step(c, s, a))
  {
    StepExecutes(c, s, a);
    StepRecords(c, s, a);
    var statement := StatementOf(s, a);
    if statement.Some? {
      StatementWritesNoEmptyId(s, a);
      WriteExtends(s.table, statement.value.id, statement.value.w, statement.value.fault);
    }
  }

  lemma {:induction false} RunExtends(c: Config, s: State, actions: seq<Action>)
    ensures Extends(s, Run(c, s, actions))
  {
    if actions != [] {
      var before := actions[..|actions|-1];
      RunExtends(c, s, before);
      StepExtends(c, Run(c, s, before), actions[|actions|-1]);
    }
  }

  // ---------- the invariant ----------

  // Upstream issued the monitoring id for the request and reported, for that id, a status that
  // means s; book is the id it returned with that status.
  ghost predicate ReportedVia(h: History, id: string, ext: string, book: string, s: Status) {
    (id, ext) in h.issued && exists bw :: Report(ext, book, bw) in h.reports && TranslateStatus(bw) == Some(s)
  }

  ghost predicate ReportedFor(h: History, id: string, s: Status) {
    exists ext, book :: ReportedVia(h, id, ext, book, s)
  }

  // Everything known about one stored row, including where its contents come from.
  ghost predicate RowOk(h: History, id: string, row: Row) {
    && !row.status.Unnamed?
    && row.externalId != Some("")
    && (row.externalId.Some? ==> (id, row.externalId.value) in h.issued)
    && (!row.status.Submitted? && !row.status.Failed? ==> row.externalId.Some?)
    && (row.lastPolled.Some? ==> row.externalId.Some?)
    && (row.status.Imported? ==> ReportedFor(h, id, Imported))
    && (row.status.Failed? ==> id in h.refused || ReportedFor(h, id, Failed))
    && row.errorText != Some("")
    && (row.errorText.Some? ==> (id, row.errorText.value) in h.errors)
  }

  ghost predicate TableOk(s: State) {
    forall id :: id in s.table ==> id != "" && RowOk(s.hist, id, s.table[id])
  }

  // The request will not be lost: it is finished, or the reconciler can poll it.
  ghost predicate Safe(t: Table, id: string) {
    id in t && (t[id].status.Terminal() || HasExternalId(t[id]))
  }

  ghost predicate ReceiptOk(h: History, id: string, receipt: Receipt) {
    if receipt.Accepted? then (id, receipt.id) in h.issued else id in h.refused && (id, receipt.error) in h.errors
  }

  ghost predicate DeliveryOk(s: State, d: Delivery) {
    && d.requestId != ""
    && (d.pc.Answered? || d.pc.Saved? ==> ReceiptOk(s.hist, d.requestId, d.pc.receipt))
    && (d.pc.Saved? || d.pc.Announced? ==> Safe(s.table, d.requestId))
  }

  ghost predicate DeliveriesOk(s: State) {
    forall key :: key in s.deliveries ==> DeliveryOk(s, s.deliveries[key])
  }

  // A listed row, however old: its contents were stored once.
  ghost predicate SnapshotOk(h: History, row: ForwardedRequest) {
    && row.requestId != ""
    && !row.status.Unnamed? && !row.status.Terminal()
    && (row.externalId != "" ==> (row.requestId, row.externalId) in h.issued)
  }

  // Rows still to be processed: distinct, and each in the table.
  ghost predicate RemainingOk(s: State, rows: seq<ForwardedRequest>) {
    && (forall i :: 0 <= i < |rows| ==> SnapshotOk(s.hist, rows[i]) && rows[i].requestId in s.table)
    && (forall i, j :: 0 <= i < j < |rows| ==> rows[i].requestId != rows[j].requestId)
  }

  ghost predicate ReplyRecorded(h: History, row: ForwardedRequest, reply: Reply) {
    if reply.Snapshot? then Report(row.externalId, reply.id, reply.status) in h.reports
    else (row.requestId, reply.error) in h.errors
  }

  // Where the tick may stand with its first row.
  ghost predicate TurnOk(h: History, tick: TickState) {
    && (!tick.pc.AtRow? ==> tick.rows != [] && tick.rows[0].externalId != "")
    && (tick.pc.Replied? ==> ReplyRecorded(h, tick.rows[0], tick.pc.reply))
    && (tick.pc.Publishing? ==> tick.pc.event.requestId == tick.rows[0].requestId)
  }

  ghost predicate TickOk(s: State) {
    s.tick.Some? ==> RemainingOk(s, s.tick.value.rows) && TurnOk(s.hist, s.tick.value)
  }

  ghost predicate AckedOk(s: State) {
    forall id :: id in s.hist.acked ==> Safe(s.table, id)
  }

  ghost predicate Inv(s: State) {
    TableOk(s) && DeliveriesOk(s) && TickOk(s) && AckedOk(s)
  }

  // ---------- the invariant is inductive ----------

  lemma ReportedViaExtends(h: History, k: History, id: string, ext: string, book: string, s: Status)
    requires HistoryExtends(h, k) && ReportedVia(h, id, ext, book, s)
    ensures ReportedVia(k, id, ext, book, s)
  {
    var bw :| Report(ext, book, bw) in h.reports && TranslateStatus(bw) == Some(s);
    assert Report(ext, book, bw) in k.reports;
  }

  lemma ReportedForExtends(h: History, k: History, id: string, s: Status)
    requires HistoryExtends(h, k) && ReportedFor(h, id, s)
    ensures ReportedFor(k, id, s)
  {
    var ext, book :| ReportedVia(h, id, ext, book, s);
    ReportedViaExtends(h, k, id, ext, book, s);
  }

  lemma RowOkExtends(h: History, k: History, id: string, row: Row)
    requires HistoryExtends(h, k) && RowOk(h, id, row)
    ensures RowOk(k, id, row)
  {
    if row.status.Imported? {
      ReportedForExtends(h, k, id, Imported);
    } else if row.status.Failed? && id !in h.refused {
      ReportedForExtends(h, k, id, Failed);
    }
  }

  // The row a write would store into an empty table.
  function RowWritten(w: Write): Row {
    Row(w.ExternalIdWritten(), w.StatusWritten(), w.LastPolledWritten(), w.ErrorTextWritten(), w.AutoMonitorWritten(),
        w.UpdatedAtWritten())
  }

  // Writes that would be good rows keep rows good.
  lemma WriteKeepsRowOk(h: History, id: string, stored: Option<Row>, w: Write)
    requires stored.Some? ==> RowOk(h, id, stored.value)
    requires RowOk(h, id, RowWritten(w))
    ensures Apply(stored, w).Some? ==> RowOk(h, id, Apply(stored, w).value)
  {
  }

  lemma SubmittedWriteOk(h: History, id: string, autoMonitor: bool, stamp: Instant)
    ensures RowOk(h, id, RowWritten(SubmittedWrite(autoMonitor, stamp)))
  {
  }

  lemma OutcomeWriteOk(h: History, id: string, receipt: Receipt, autoMonitor: bool, stamp: Instant)
    requires ReceiptOk(h, id, receipt)
    ensures RowOk(h, id, RowWritten(OutcomeWrite(receipt, autoMonitor, stamp)))
  {
  }

  lemma PollWriteOk(h: History, row: ForwardedRequest, reply: Reply, polledAt: Instant, stampedAt: Instant)
    requires SnapshotOk(h, row) && row.externalId != ""
    requires ReplyRecorded(h, row, reply)
    ensures RowOk(h, row.requestId, RowWritten(PollWrite(row, reply, polledAt, stampedAt)))
  {
    if reply.Snapshot? && TranslateStatus(reply.status).Some? {
      assert ReportedVia(h, row.requestId, row.externalId, reply.id, Settled(row, reply));
    }
  }

  lemma OutcomeIsSafe(t: Table, id: string, receipt: Receipt, autoMonitor: bool, stamp: Instant)
    ensures Safe(ApplyAt(t, id, OutcomeWrite(receipt, autoMonitor, stamp)), id)
  {
  }

  // What only depends on facts that are never lost survives any step that leaves it alone.
  lemma SafeExtends(t: Table, u: Table, id: string)
    requires TableExtends(t, u) && Safe(t, id)
    ensures Safe(u, id)
  {
  }

  // A statement that writes a good row keeps the whole table good.
  lemma ExecutionKeepsTableOk(s: State, u: State, statement: Option<Statement>)
    requires TableOk(s) && Executes(s, u, statement) && HistoryExtends(s.hist, u.hist)
    requires statement.Some? ==>
             statement.value.id != "" && RowOk(s.hist, statement.value.id, RowWritten(statement.value.w))
    ensures TableOk(u)
  {
    forall id | id in u.table ensures id != "" && RowOk(u.hist, id, u.table[id]) {
      if statement.Some? && statement.value.id == id && statement.value.fault.Applied() {
        WriteKeepsRowOk(s.hist, id, Lookup(s.table, id), statement.value.w);
        RowOkExtends(s.hist, u.hist, id, u.table[id]);
      } else {
        RowOkExtends(s.hist, u.hist, id, s.table[id]);
      }
    }
  }

  lemma StatementOk(s: State, a: Action)
    requires Inv(s) && StatementOf(s, a).Some?
    ensures var st := StatementOf(s, a).value; st.id != "" && RowOk(s.hist, st.id, RowWritten(st.w))
  {
    match a
    case SaveSubmitted(key, stamp, fault) =>
      assert DeliveryOk(s, s.deliveries[key]);
      SubmittedWriteOk(s.hist, s.deliveries[key].requestId, s.deliveries[key].autoMonitor, stamp);
    case SaveOutcome(key, stamp, fault) =>
      var d := s.deliveries[key];
      assert DeliveryOk(s, d);
      OutcomeWriteOk(s.hist, d.requestId, d.pc.receipt, d.autoMonitor, stamp);
    case WriteRow(polledAt, stampedAt, fault) =>
      PollWriteOk(s.hist, s.tick.value.rows[0], s.tick.value.pc.reply, polledAt, stampedAt);
  }

  lemma StepKeepsTableOk(c: Config, s: State, a: Action)
    requires Inv(s)
    ensures TableOk(Step(c, s, a))
  {
    StepExecutes(c, s, a);
    StepRecords(c, s, a);
    if StatementOf(s, a).Some? {
      StatementOk(s, a);
    }
    ExecutionKeepsTableOk(s, Step(c, s, a), StatementOf(s, a));
  }

  lemma DeliveryOkExtends(s: State, u: State, d: Delivery)
    requires DeliveryOk(s, d) && Extends(s, u)
    ensures DeliveryOk(u, d)
  {
  }

  lemma StepKeepsDeliveriesOk(c: Config, s: State, a: Action)
    requires Inv(s)
    ensures DeliveriesOk(Step(c, s, a))
  {
    StepExtends(c, s, a);
    var u := Step(c, s, a);
    forall key | key in u.deliveries ensures DeliveryOk(u, u.deliveries[key]) {
      if key in s.deliveries {
        DeliveryOkExtends(s, u, s.deliveries[key]);
        if a.SaveOutcome? && a.key == key && s.deliveries[key].pc.Answered? && !a.fault.Reported() {
          var d := s.deliveries[key];
          OutcomeIsSafe(s.table, d.requestId, d.pc.receipt, d.autoMonitor, a.stamp);
        }
      }
    }
  }

  lemma StepKeepsAckedOk(c: Config, s: State, a: Action)
    requires Inv(s)
    ensures AckedOk(Step(c, s, a))
  {
    StepExtends(c, s, a);
    var u := Step(c, s, a);
    forall id | id in u.hist.acked ensures Safe(u.table, id) {
      if id in s.hist.acked {
        SafeExtends(s.table, u.table, id);
      }
    }
  }

  lemma SnapshotOkExtends(h: History, k: History, row: ForwardedRequest)
    requires HistoryExtends(h, k) && SnapshotOk(h, row)
    ensures SnapshotOk(k, row)
  {
  }

  lemma ListingOk(s: State, limit: int, rows: seq<ForwardedRequest>)
    requires TableOk(s) && rows <= S.Listing(s.table, limit)
    ensures TickOk(s.(tick := Some(TickState(rows, AtRow))))
  {
    var all := S.Listing(s.table, limit);
    forall i | 0 <= i < |rows| ensures SnapshotOk(s.hist, rows[i]) && rows[i].requestId in s.table {
      assert rows[i] == all[i];
      assert RowOk(s.hist, rows[i].requestId, s.table[rows[i].requestId]);
    }
    forall i, j | 0 <= i < j < |rows| ensures rows[i].requestId != rows[j].requestId {
      assert rows[i] == all[i] && rows[j] == all[j];
    }
  }

  lemma RemainingOkExtends(s: State, u: State, rows: seq<ForwardedRequest>)
    requires RemainingOk(s, rows) && Extends(s, u)
    ensures RemainingOk(u, rows) && (rows != [] ==> RemainingOk(u, rows[1..]))
  {
    forall i | 0 <= i < |rows| ensures SnapshotOk(u.hist, rows[i]) {
      SnapshotOkExtends(s.hist, u.hist, rows[i]);
    }
  }

  // The tick's remaining rows are the old ones or all but the first.
  lemma RowsRemain(c: Config, s: State, a: Action)
    requires !a.StartTick? && Step(c, s, a).tick.Some?
    ensures s.tick.Some?
    ensures var rows, left := s.tick.value.rows, Step(c, s, a).tick.value.rows;
            left == rows || (rows != [] && left == rows[1..])
  {
  }

  lemma StepKeepsTurnOk(c: Config, s: State, a: Action)
    requires !a.StartTick? && Step(c, s, a).tick.Some? && s.tick.Some? && TurnOk(s.hist, s.tick.value)
    ensures TurnOk(Step(c, s, a).hist, Step(c, s, a).tick.value)
  {
  }

  lemma StartedTickStaysOk(c: Config, s: State, a: Action)
    requires TickOk(s) && !a.StartTick?
    ensures TickOk(Step(c, s, a))
  {
    var u := Step(c, s, a);
    if u.tick.Some? {
      RowsRemain(c, s, a);
      StepExtends(c, s, a);
      RemainingOkExtends(s, u, s.tick.value.rows);
      StepKeepsTurnOk(c, s, a);
    }
  }

  lemma StepKeepsTickOk(c: Config, s: State, a: Action)
    requires Inv(s)
    ensures TickOk(Step(c, s, a))
  {
    if !a.StartTick? {
      StartedTickStaysOk(c, s, a);
    } else if Step(c, s, a) != s {
      ListingOk(s, c.batch, a.rows);
    }
  }

  lemma StepKeepsInv(c: Config, s: State, a: Action)
    requires Inv(s)
    ensures Inv(Step(c, s, a))
  {
    StepKeepsTableOk(c, s, a);
    StepKeepsDeliveriesOk(c, s, a);
    StepKeepsTickOk(c, s, a);
    StepKeepsAckedOk(c, s, a);
  }

  lemma {:induction false} RunKeepsInv(c: Config, s: State, actions: seq<Action>)
    requires Inv(s)
    ensures Inv(Run(c, s, actions))
  {
    if actions != [] {
      var before := actions[..|actions|-1];
      RunKeepsInv(c, s, before);
      StepKeepsInv(c, Run(c, s, before), actions[|actions|-1]);
    }
  }
}
