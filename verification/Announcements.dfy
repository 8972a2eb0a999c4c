/**
 What is published at all, in every interleaving. A write comes before its event, and between the
 two the event can be lost: the process stops, a write that took effect is reported as failed, or
 the handler has no publisher. These are the only ways. An acked request's own event is always out
 if the handler has a publisher.
 */
module Announcements {
  import opened Wrappers
  import opened Requests
  import opened Events
  import opened Reconciler
  import opened Consumer
  import opened Protocol
  import opened Invariants

  // The event tells that the request has ended with this status.
  predicate Ends(e: Event, id: string, status: Status) {
    e.requestId == id &&
    ((status.Imported? && e.RequestFulfilled?) || (status.Failed? && (e.RequestFailed? || e.SubmissionFailed?)))
  }

  // The handler's event about a request it has settled.
  predicate Settles(e: Event, id: string) {
    e.requestId == id && (e.RequestAcknowledged? || e.SubmissionFailed?)
  }

  // About to be published: by the tick, or by a delivery.
  ghost predicate AboutToPublish(c: Config, s: State, e: Event) {
    || (s.tick.Some? && s.tick.value.pc == Publishing(e))
    || exists key :: PendingIn(c, s, key, e)
  }

  ghost predicate PendingIn(c: Config, s: State, key: nat, e: Event) {
    key in s.deliveries && s.deliveries[key].pc.Saved? &&
    e == OutcomeEvent(s.deliveries[key].requestId, s.deliveries[key].pc.receipt, c.pluginId)
  }

  ghost predicate Told(c: Config, s: State, e: Event) {
    e in s.log || AboutToPublish(c, s, e) || e in s.hist.lost
  }

  ghost predicate EndTold(c: Config, s: State, id: string, status: Status) {
    exists e :: Ends(e, id, status) && Told(c, s, e)
  }

  ghost predicate EndsTold(c: Config, s: State) {
    forall id :: id in s.table && s.table[id].status.Terminal() ==> EndTold(c, s, id, s.table[id].status)
  }

  ghost predicate SettledTold(s: State, id: string) {
    exists e :: e in s.log && Settles(e, id)
  }

  ghost predicate AckedTold(c: Config, s: State) {
    c.publishes ==>
      && (forall id :: id in s.hist.acked ==> SettledTold(s, id))
      && (forall key :: key in s.deliveries && s.deliveries[key].pc.Announced? ==>
                          SettledTold(s, s.deliveries[key].requestId))
  }

  // ---------- acked requests ----------

  lemma SettledStaysTold(s: State, u: State, id: string)
    requires s.log <= u.log && SettledTold(s, id)
    ensures SettledTold(u, id)
  {
    var e :| e in s.log && Settles(e, id);
    assert e in u.log;
  }

  lemma AnnounceTells(c: Config, s: State, key: nat)
    requires c.publishes && key in s.deliveries && s.deliveries[key].pc.Saved?
    ensures SettledTold(AnnounceStep(c, s, key), s.deliveries[key].requestId)
  {
    var d := s.deliveries[key];
    var e := OutcomeEvent(d.requestId, d.pc.receipt, c.pluginId);
    assert e in AnnounceStep(c, s, key).log && Settles(e, d.requestId);
  }

  // A delivery reaches the point before its ack only by announcing.
  lemma AnnouncedBy(c: Config, s: State, a: Action, key: nat)
    requires key in Step(c, s, a).deliveries && Step(c, s, a).deliveries[key].pc.Announced?
    requires !(key in s.deliveries && s.deliveries[key].pc.Announced?)
    ensures a == Announce(key) && key in s.deliveries && s.deliveries[key].pc.Saved?
    ensures Step(c, s, a).deliveries[key].requestId == s.deliveries[key].requestId
  {
  }

  lemma AnnouncedFrom(c: Config, s: State, a: Action, key: nat)
    requires key in Step(c, s, a).deliveries && key in s.deliveries
    ensures Step(c, s, a).deliveries[key].requestId == s.deliveries[key].requestId
  {
  }

  // A delivery that stands before its ack has just published, or did before the step.
  lemma StepKeepsAnnouncedTold(c: Config, s: State, a: Action, key: nat)
    requires c.publishes && AckedTold(c, s)
    requires key in Step(c, s, a).deliveries && Step(c, s, a).deliveries[key].pc.Announced?
    ensures SettledTold(Step(c, s, a), Step(c, s, a).deliveries[key].requestId)
  {
    if key in s.deliveries && s.deliveries[key].pc.Announced? {
      StepRecords(c, s, a);
      AnnouncedFrom(c, s, a, key);
      SettledStaysTold(s, Step(c, s, a), s.deliveries[key].requestId);
    } else {
      AnnouncedBy(c, s, a, key);
      AnnounceTells(c, s, key);
    }
  }

  lemma StepKeepsAckedTold(c: Config, s: State, a: Action)
    requires c.publishes && AckedTold(c, s)
    ensures AckedTold(c, Step(c, s, a))
  {
    var u := Step(c, s, a);
    StepRecords(c, s, a);
    forall id | id in u.hist.acked ensures SettledTold(u, id) {
      assert SettledTold(s, id);
      SettledStaysTold(s, u, id);
    }
    forall key | key in u.deliveries && u.deliveries[key].pc.Announced?
      ensures SettledTold(u, u.deliveries[key].requestId) {
      StepKeepsAnnouncedTold(c, s, a, key);
    }
  }

  lemma {:induction false} RunKeepsAckedTold(c: Config, actions: seq<Action>)
    requires c.publishes
    ensures AckedTold(c, Reached(c, actions))
  {
    if actions != [] {
      RunKeepsAckedTold(c, actions[..|actions|-1]);
      StepKeepsAckedTold(c, Reached(c, actions[..|actions|-1]), actions[|actions|-1]);
    }
  }

  // Without a publisher the handler's events never appear: the tick publishes others.
  ghost predicate HandlerSilent(s: State) {
    && (forall e, id :: e in s.log ==> !Settles(e, id))
    && (s.tick.Some? && s.tick.value.pc.Publishing? ==> forall id :: !Settles(s.tick.value.pc.event, id))
  }

  lemma StepKeepsHandlerSilent(c: Config, s: State, a: Action)
    requires !c.publishes && HandlerSilent(s)
    ensures HandlerSilent(Step(c, s, a))
  {
  }

  lemma {:induction false} RunKeepsHandlerSilent(c: Config, actions: seq<Action>)
    requires !c.publishes
    ensures HandlerSilent(Reached(c, actions))
  {
    if actions != [] {
      RunKeepsHandlerSilent(c, actions[..|actions|-1]);
      StepKeepsHandlerSilent(c, Reached(c, actions[..|actions|-1]), actions[|actions|-1]);
    }
  }

  // The acknowledgement or the failure of an acked request has been published exactly when the
  // handler has a publisher.
  lemma AckedIsAnnounced(c: Config, actions: seq<Action>, id: string)
    requires id in Reached(c, actions).hist.acked
    ensures (exists e :: e in Reached(c, actions).log && Settles(e, id)) <==> c.publishes
  {
    if c.publishes {
      RunKeepsAckedTold(c, actions);
      assert SettledTold(Reached(c, actions), id);
    } else {
      RunKeepsHandlerSilent(c, actions);
    }
  }

  // ---------- ended requests ----------

  // An event that was told stays told: pending becomes published or lost.
  lemma StepKeepsTold(c: Config, s: State, a: Action, e: Event)
    requires TickOk(s) && Told(c, s, e)
    ensures Told(c, Step(c, s, a), e)
  {
    StepRecords(c, s, a);
    if e !in s.log && e !in s.hist.lost {
      if s.tick.Some? && s.tick.value.pc == Publishing(e) {
        StepKeepsTickEvent(c, s, a, e);
      } else {
        var key :| PendingIn(c, s, key, e);
        StepKeepsDeliveryEvent(c, s, a, key, e);
      }
    }
  }

  lemma StepKeepsTickEvent(c: Config, s: State, a: Action, e: Event)
    requires TickOk(s) && s.tick.Some? && s.tick.value.pc == Publishing(e)
    ensures var u := Step(c, s, a); e in u.log || e in u.hist.lost || u.tick == s.tick
  {
  }

  lemma StepKeepsDeliveryEvent(c: Config, s: State, a: Action, key: nat, e: Event)
    requires PendingIn(c, s, key, e)
    ensures var u := Step(c, s, a); e in u.log || e in u.hist.lost || PendingIn(c, u, key, e)
  {
  }

  // The delivery's write that ends a request leaves its event pending or lost.
  lemma OutcomeIsTold(c: Config, s: State, key: nat, stamp: Instant, fault: Fault)
    requires key in s.deliveries && s.deliveries[key].pc.Answered? && fault.Applied()
    ensures var d := s.deliveries[key];
            Told(c, SaveOutcomeStep(c, s, key, stamp, fault), OutcomeEvent(d.requestId, d.pc.receipt, c.pluginId))
  {
    var d := s.deliveries[key];
    var e := OutcomeEvent(d.requestId, d.pc.receipt, c.pluginId);
    var u := SaveOutcomeStep(c, s, key, stamp, fault);
    if fault.Committed? {
      assert PendingIn(c, u, key, e);
    }
  }

  // The status a statement leaves is the stored one or the one it writes.
  lemma EndedByStatement(stored: Option<Row>, w: Write)
    requires Apply(stored, w).Some? && Apply(stored, w).value.status.Terminal()
    ensures || (stored.Some? && stored.value.status == Apply(stored, w).value.status)
            || w.StatusWritten() == Apply(stored, w).value.status
  {
  }

  // A statement that writes a terminal status is followed by the event that tells it.
  lemma TerminalStatementIsTold(c: Config, s: State, a: Action)
    requires Inv(s) && StatementOf(s, a).Some?
    requires var st := StatementOf(s, a).value; st.fault.Applied() && st.w.StatusWritten().Terminal()
    ensures var st := StatementOf(s, a).value; EndTold(c, Step(c, s, a), st.id, st.w.StatusWritten())
  {
    match a
    case SaveSubmitted(key, stamp, fault) =>
    case SaveOutcome(key, stamp, fault) =>
      var d := s.deliveries[key];
      OutcomeIsTold(c, s, key, stamp, fault);
      assert Ends(OutcomeEvent(d.requestId, d.pc.receipt, c.pluginId), d.requestId, Status.Failed);
    case WriteRow(polledAt, stampedAt, fault) =>
      var row, reply := s.tick.value.rows[0], s.tick.value.pc.reply;
      assert SnapshotOk(s.hist, row);
      var e := TransitionEvent(row, reply, c.pluginId)[0];
      assert Ends(e, row.requestId, Settled(row, reply));
      assert Step(c, s, a).tick.value.pc == Publishing(e);
  }

  lemma EndTurnsUp(c: Config, s: State, a: Action, id: string)
    requires Inv(s) && EndsTold(c, s)
    requires var u := Step(c, s, a); id in u.table && u.table[id].status.Terminal()
    ensures EndTold(c, Step(c, s, a), id, Step(c, s, a).table[id].status)
  {
    var u := Step(c, s, a);
    StepExecutes(c, s, a);
    var st := StatementOf(s, a);
    if st.Some? && st.value.fault.Applied() && st.value.id == id {
      EndedByStatement(Lookup(s.table, id), st.value.w);
    }
    if id in s.table && s.table[id].status == u.table[id].status {
      var e :| Ends(e, id, s.table[id].status) && Told(c, s, e);
      StepKeepsTold(c, s, a, e);
    } else {
      TerminalStatementIsTold(c, s, a);
    }
  }

  lemma {:induction false} RunKeepsEndsTold(c: Config, actions: seq<Action>)
    ensures EndsTold(c, Reached(c, actions))
  {
    if actions != [] {
      var before, a := actions[..|actions|-1], actions[|actions|-1];
      RunKeepsEndsTold(c, before);
      RunKeepsInv(c, INITIAL, before);
      var s, u := Reached(c, before), Reached(c, actions);
      forall id | id in u.table && u.table[id].status.Terminal() ensures EndTold(c, u, id, u.table[id].status) {
        EndTurnsUp(c, s, a, id);
      }
    }
  }

  // A row that has ended was announced, is about to be, or its event was lost.
  lemma EveryEndIsTold(c: Config, actions: seq<Action>, id: string) returns (e: Event)
    requires var s := Reached(c, actions); id in s.table && s.table[id].status.Terminal()
    ensures var s := Reached(c, actions);
            && Ends(e, id, s.table[id].status)
            && (e in s.log || AboutToPublish(c, s, e) || e in s.hist.lost)
  {
    RunKeepsEndsTold(c, actions);
    var s := Reached(c, actions);
    assert EndTold(c, s, id, s.table[id].status);
    e :| Ends(e, id, s.table[id].status) && Told(c, s, e);
  }

  // ---------- lost events ----------

  // The event a step loses, if any: a tick crashes before its publish, a delivery does, a
  // delivery's last write takes effect but is reported as failed, or the handler has no publisher.
  function LossOf(c: Config, s: State, a: Action): Option<Event> {
    match a
    case CrashTick =>
      if s.tick.Some? && s.tick.value.pc.Publishing? then Some(s.tick.value.pc.event) else None
    case CrashDelivery(key) =>
      if key in s.deliveries && s.deliveries[key].pc.Saved? then Some(EventOf(c, s.deliveries[key])) else None
    case SaveOutcome(key, _, fault) =>
      if key in s.deliveries && s.deliveries[key].pc.Answered? && fault.CommittedUnreported? then
        Some(EventOf(c, s.deliveries[key]))
      else None
    case Announce(key) =>
      if key in s.deliveries && s.deliveries[key].pc.Saved? && !c.publishes then Some(EventOf(c, s.deliveries[key]))
      else None
    case _ => None
  }

  function EventOf(c: Config, d: Delivery): Event
    requires d.pc.Answered? || d.pc.Saved?
  {
    OutcomeEvent(d.requestId, d.pc.receipt, c.pluginId)
  }

  lemma OnlyTheseLose(c: Config, s: State, a: Action)
    ensures var loss := LossOf(c, s, a);
            Step(c, s, a).hist.lost == s.hist.lost + if loss.Some? then {loss.value} else {}
  {
  }

  // The i-th action of a run loses the event.
  ghost predicate LostAt(c: Config, actions: seq<Action>, i: nat, e: Event)
    requires i < |actions|
  {
    LossOf(c, Reached(c, actions[..i]), actions[i]) == Some(e)
  }

  ghost predicate LostSomewhere(c: Config, actions: seq<Action>, e: Event) {
    exists i: nat :: i < |actions| && LostAt(c, actions, i, e)
  }

  lemma LostSomewhereExtends(c: Config, before: seq<Action>, a: Action, e: Event)
    ensures LostSomewhere(c, before + [a], e) <==>
            LostSomewhere(c, before, e) || LossOf(c, Reached(c, before), a) == Some(e)
  {
    var all := before + [a];
    forall i: nat | i < |before| ensures LostAt(c, all, i, e) <==> LostAt(c, before, i, e) {
      assert all[..i] == before[..i];
    }
    assert all[..|before|] == before;
    assert LostAt(c, all, |before|, e) <==> LossOf(c, Reached(c, before), a) == Some(e);
  }

  // The lost events of a run are exactly those that one of its steps lost in one of these ways.
  lemma {:induction false} LostExactlyWhen(c: Config, actions: seq<Action>, e: Event)
    ensures e in Reached(c, actions).hist.lost <==> LostSomewhere(c, actions, e)
  {
    if actions != [] {
      var before, a := actions[..|actions|-1], actions[|actions|-1];
      LostExactlyWhen(c, before, e);
      OnlyTheseLose(c, Reached(c, before), a);
      LostSomewhereExtends(c, before, a, e);
      assert before + [a] == actions;
    }
  }

  // A run without such a step announces every end, or has it pending.
  lemma EndsAreAnnounced(c: Config, actions: seq<Action>, id: string) returns (e: Event)
    requires forall e :: !LostSomewhere(c, actions, e)
    requires var s := Reached(c, actions); id in s.table && s.table[id].status.Terminal()
    ensures var s := Reached(c, actions);
            Ends(e, id, s.table[id].status) && (e in s.log || AboutToPublish(c, s, e))
  {
    e := EveryEndIsTold(c, actions, id);
    LostExactlyWhen(c, actions, e);
  }
}
