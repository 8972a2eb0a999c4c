/**
 What a subscriber may conclude from a published event, in every interleaving: each event says
 something that upstream did answer about this very request, and the handler's events come only
 after the request can no longer be lost.
 */
module Truthfulness {
  import opened Requests
  import opened Monitoring
  import opened Events
  import opened Reconciler
  import opened Consumer
  import opened Protocol
  import opened Invariants

  ghost predicate Truthful(s: State, e: Event, pluginId: string) {
    && e.provider == pluginId
    && match e {
         case RequestAcknowledged(id, ext, _) => (id, ext) in s.hist.issued && Safe(s.table, id)
         case SubmissionFailed(id, _, reason) =>
           id in s.hist.refused && (id, reason) in s.hist.errors && reason != "" && Safe(s.table, id)
         case RequestFulfilled(id, ext, _, book) => ReportedVia(s.hist, id, ext, book, Imported)
         case RequestFailed(id, ext, _, reason) =>
           reason == "upstream marked failed" && exists book :: ReportedVia(s.hist, id, ext, book, Failed)
         case RequestStatusChanged(id, ext, _, status) =>
           !status.Terminal() && exists book :: ReportedVia(s.hist, id, ext, book, status)
       }
  }

  // The log, and the event the tick is about to publish.
  ghost predicate LogOk(c: Config, s: State) {
    && (forall i :: 0 <= i < |s.log| ==> Truthful(s, s.log[i], c.pluginId))
    && (s.tick.Some? && s.tick.value.pc.Publishing? ==> Truthful(s, s.tick.value.pc.event, c.pluginId))
  }

  lemma TruthfulExtends(s: State, u: State, e: Event, pluginId: string)
    requires Extends(s, u) && Truthful(s, e, pluginId)
    ensures Truthful(u, e, pluginId)
  {
    match e
    case RequestAcknowledged(id, _, _) => SafeExtends(s.table, u.table, id);
    case SubmissionFailed(id, _, _) => SafeExtends(s.table, u.table, id);
    case RequestFulfilled(id, ext, _, book) => ReportedViaExtends(s.hist, u.hist, id, ext, book, Imported);
    case RequestFailed(id, ext, _, _) =>
      var book :| ReportedVia(s.hist, id, ext, book, Status.Failed);
      ReportedViaExtends(s.hist, u.hist, id, ext, book, Status.Failed);
    case RequestStatusChanged(id, ext, _, status) =>
      var book :| ReportedVia(s.hist, id, ext, book, status);
      ReportedViaExtends(s.hist, u.hist, id, ext, book, status);
  }

  // The transition a poll announces is the one upstream reported.
  lemma TransitionIsTruthful(s: State, row: ForwardedRequest, reply: Reply, pluginId: string)
    requires SnapshotOk(s.hist, row) && row.externalId != ""
    requires ReplyRecorded(s.hist, row, reply)
    ensures forall e :: e in TransitionEvent(row, reply, pluginId) ==> Truthful(s, e, pluginId)
  {
    if TransitionEvent(row, reply, pluginId) != [] {
      assert ReportedVia(s.hist, row.requestId, row.externalId, reply.id, Settled(row, reply));
    }
  }

  // The receipt's event, published after the outcome was saved.
  lemma OutcomeIsTruthful(s: State, d: Delivery, pluginId: string)
    requires DeliveryOk(s, d) && d.pc.Saved?
    ensures Truthful(s, OutcomeEvent(d.requestId, d.pc.receipt, pluginId), pluginId)
  {
  }

  // The event a step adds to the log, if any, is true in the state before it.
  lemma StepPublishesTruth(c: Config, s: State, a: Action)
    requires Inv(s) && LogOk(c, s)
    ensures var u := Step(c, s, a);
            u.log == s.log || exists e :: u.log == s.log + [e] && Truthful(s, e, c.pluginId)
  {
    if a.Announce? && a.key in s.deliveries && s.deliveries[a.key].pc.Saved? {
      assert DeliveryOk(s, s.deliveries[a.key]);
      OutcomeIsTruthful(s, s.deliveries[a.key], c.pluginId);
    }
  }

  // So is the event it leaves the tick to publish.
  lemma StepPreparesTruth(c: Config, s: State, a: Action)
    requires Inv(s) && LogOk(c, s)
    ensures var u := Step(c, s, a);
            u.tick.Some? && u.tick.value.pc.Publishing? ==> Truthful(s, u.tick.value.pc.event, c.pluginId)
  {
    if a.WriteRow? && s.tick.Some? && s.tick.value.pc.Replied? {
      TransitionIsTruthful(s, s.tick.value.rows[0], s.tick.value.pc.reply, c.pluginId);
    }
  }

  lemma StepKeepsLogOk(c: Config, s: State, a: Action)
    requires Inv(s) && LogOk(c, s)
    ensures LogOk(c, Step(c, s, a))
  {
    var u := Step(c, s, a);
    StepExtends(c, s, a);
    StepPublishesTruth(c, s, a);
    forall i | 0 <= i < |u.log| ensures Truthful(u, u.log[i], c.pluginId) {
      TruthfulExtends(s, u, u.log[i], c.pluginId);
    }
    StepPreparesTruth(c, s, a);
    if u.tick.Some? && u.tick.value.pc.Publishing? {
      TruthfulExtends(s, u, u.tick.value.pc.event, c.pluginId);
    }
  }

  lemma {:induction false} RunKeepsLogOk(c: Config, actions: seq<Action>)
    ensures LogOk(c, Reached(c, actions))
  {
    if actions != [] {
      var before := actions[..|actions|-1];
      RunKeepsLogOk(c, before);
      RunKeepsInv(c, INITIAL, before);
      StepKeepsLogOk(c, Reached(c, before), actions[|actions|-1]);
    }
  }

  // Every published event is true, when it is published and ever after.
  lemma EveryEventIsTrue(c: Config, actions: seq<Action>, later: seq<Action>, i: nat)
    requires i < |Reached(c, actions).log|
    ensures i < |Reached(c, actions + later).log| && Reached(c, actions + later).log[i] == Reached(c, actions).log[i]
    ensures Truthful(Reached(c, actions), Reached(c, actions).log[i], c.pluginId)
    ensures Truthful(Reached(c, actions + later), Reached(c, actions).log[i], c.pluginId)
  {
    RunKeepsLogOk(c, actions);
    RunAppend(c, INITIAL, actions, later);
    RunExtends(c, Reached(c, actions), later);
    TruthfulExtends(Reached(c, actions), Reached(c, actions + later), Reached(c, actions).log[i], c.pluginId);
  }
}
