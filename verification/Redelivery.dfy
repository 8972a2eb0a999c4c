/**
 Delivery is at least once: the same event may be handled any number of times, and an attempt
 may stop anywhere (a nack, a crash). What row do the attempts leave, compared with the last
 one alone?
 */
module Redelivery {
  import opened Wrappers
  import opened Requests
  import opened RowHistory
  import opened Monitoring
  import opened Consumer

  // One attempt at the event: upstream's answer, the clock, and how many of its two writes
  // took effect. An attempt that completes applies both.
  datatype Attempt = Attempt(receipt: Receipt, submittedAt: Instant, outcomeAt: Instant, applied: nat)

  type Attempts = seq<Attempt>

  function WritesOf(a: Attempt, autoMonitor: bool): seq<Write> {
    if a.applied == 0 then []
    else if a.applied == 1 then [SubmittedWrite(autoMonitor, a.submittedAt)]
    else [SubmittedWrite(autoMonitor, a.submittedAt), OutcomeWrite(a.receipt, autoMonitor, a.outcomeAt)]
  }

  function History(attempts: Attempts, autoMonitor: bool): seq<Write> {
    if attempts == [] then []
    else History(attempts[..|attempts|-1], autoMonitor) + WritesOf(attempts[|attempts|-1], autoMonitor)
  }

  // The four columns that say what became of the request.
  ghost predicate SameOutcome(a: Row, b: Row) {
    a.status == b.status && a.externalId == b.externalId && a.errorText == b.errorText && a.autoMonitor == b.autoMonitor
  }

  // Some attempt got as far as recording that upstream refused, or accepted, the request.
  ghost predicate RecordedRefusal(attempts: Attempts) {
    exists i :: 0 <= i < |attempts| && attempts[i].applied >= 2 && attempts[i].receipt.Refused?
  }

  ghost predicate RecordedAcceptance(attempts: Attempts) {
    exists i :: 0 <= i < |attempts| && attempts[i].applied >= 2 && attempts[i].receipt.Accepted?
  }

  function Two(row: Option<Row>, a: Attempt, autoMonitor: bool): Option<Row> {
    if a.applied == 0 then row
    else
      var submitted := Apply(row, SubmittedWrite(autoMonitor, a.submittedAt));
      if a.applied == 1 then submitted else Apply(submitted, OutcomeWrite(a.receipt, autoMonitor, a.outcomeAt))
  }

  lemma ReplayAttempt(ws: seq<Write>, a: Attempt, autoMonitor: bool)
    ensures Replay(ws + WritesOf(a, autoMonitor)) == Two(Replay(ws), a, autoMonitor)
  {
    var all := ws + WritesOf(a, autoMonitor);
    if a.applied == 0 {
      assert all == ws;
    } else if a.applied == 1 {
      assert all[..|all|-1] == ws;
    } else {
      assert all[..|all|-1] == ws + [SubmittedWrite(autoMonitor, a.submittedAt)];
      assert all[..|all|-1][..|ws|] == ws;
    }
  }

  // What the attempts leave, in terms of what they recorded.
  ghost predicate Summary(attempts: Attempts, autoMonitor: bool, row: Option<Row>) {
    if row.None? then !RecordedRefusal(attempts) && !RecordedAcceptance(attempts)
    else
      && row.value.autoMonitor == autoMonitor
      && (row.value.externalId.Some? <==> RecordedAcceptance(attempts))
      && (row.value.errorText.Some? <==> RecordedRefusal(attempts))
      && (row.value.status.Failed? <==> RecordedRefusal(attempts))
      && !row.value.status.Imported?
  }

  lemma SummaryExtends(before: Attempts, a: Attempt, autoMonitor: bool, row: Option<Row>)
    requires Summary(before, autoMonitor, row)
    ensures Summary(before + [a], autoMonitor, Two(row, a, autoMonitor))
  {
    var all := before + [a];
    assert all[|before|] == a;
    assert RecordedRefusal(all) <==> RecordedRefusal(before) || (a.applied >= 2 && a.receipt.Refused?) by {
      if i :| 0 <= i < |before| && before[i].applied >= 2 && before[i].receipt.Refused? {
        assert all[i] == before[i];
      }
    }
    assert RecordedAcceptance(all) <==> RecordedAcceptance(before) || (a.applied >= 2 && a.receipt.Accepted?) by {
      if i :| 0 <= i < |before| && before[i].applied >= 2 && before[i].receipt.Accepted? {
        assert all[i] == before[i];
      }
    }
  }

  lemma {:induction false} AttemptsSummary(attempts: Attempts, autoMonitor: bool)
    ensures Summary(attempts, autoMonitor, Replay(History(attempts, autoMonitor)))
  {
    if attempts != [] {
      var before, a := attempts[..|attempts|-1], attempts[|attempts|-1];
      AttemptsSummary(before, autoMonitor);
      ReplayAttempt(History(before, autoMonitor), a, autoMonitor);
      SummaryExtends(before, a, autoMonitor, Replay(History(before, autoMonitor)));
      assert before + [a] == attempts;
    }
  }

  // The completed attempt on top of whatever the earlier ones left.
  lemma LastAttemptDecides(attempts: Attempts, last: Attempt, autoMonitor: bool, row: Option<Row>)
    requires last.applied == 2 && Summary(attempts, autoMonitor, row)
    ensures var all, alone := Two(row, last, autoMonitor), Two(None, last, autoMonitor);
            && all.Some? && alone.Some?
            && (SameOutcome(all.value, alone.value) <==>
                if last.receipt.Accepted? then !RecordedRefusal(attempts) else !RecordedAcceptance(attempts))
  {
  }

  // Exactly when redelivery converges: the completed attempt decides the row unless an earlier
  // one already recorded the opposite answer from upstream.
  lemma RedeliveryConvergesIff(attempts: Attempts, last: Attempt, autoMonitor: bool)
    requires last.applied == 2
    ensures var all, alone := Replay(History(attempts + [last], autoMonitor)), Replay(WritesOf(last, autoMonitor));
            && all.Some? && alone.Some?
            && (SameOutcome(all.value, alone.value) <==>
                if last.receipt.Accepted? then !RecordedRefusal(attempts) else !RecordedAcceptance(attempts))
  {
    AttemptsSummary(attempts, autoMonitor);
    LastAttemptDecides(attempts, last, autoMonitor, Replay(History(attempts, autoMonitor)));
    assert (attempts + [last])[..|attempts|] == attempts;
    ReplayAttempt(History(attempts, autoMonitor), last, autoMonitor);
    ReplayAttempt([], last, autoMonitor);
    assert [] + WritesOf(last, autoMonitor) == WritesOf(last, autoMonitor);
  }

  // The promise as the handler's comments make it: attempts that stop before their second
  // write takes effect leave no trace once one attempt completes.
  lemma InterruptedAttemptsLeaveNoTrace(attempts: Attempts, last: Attempt, autoMonitor: bool)
    requires last.applied == 2 && forall i :: 0 <= i < |attempts| ==> attempts[i].applied <= 1
    ensures var all, alone := Replay(History(attempts + [last], autoMonitor)), Replay(WritesOf(last, autoMonitor));
            all.Some? && alone.Some? && SameOutcome(all.value, alone.value)
  {
    RedeliveryConvergesIff(attempts, last, autoMonitor);
  }

  // It fails without that restriction: upstream refuses, the attempt crashes after recording
  // the refusal and before acking, the host redelivers, upstream accepts. The request stays
  // failed, with upstream working on it.
  lemma RecordedRefusalSticks()
    ensures var refused, accepted := Attempt(Refused("do: eof"), 1, 2, 2), Attempt(Accepted("m"), 3, 4, 2);
            var row := Replay(History([refused, accepted], true));
            row.Some? && row.value.status == Failed && row.value.externalId == Some("m")
            && Replay(WritesOf(accepted, true)).value.status == Acknowledged
  {
    var refused, accepted := Attempt(Refused("do: eof"), 1, 2, 2), Attempt(Accepted("m"), 3, 4, 2);
    ReplayAttempt(History([refused], true), accepted, true);
    ReplayAttempt(History([], true), refused, true);
    assert [refused, accepted][..1] == [refused] && [refused][..0] == [];
    ReplayAttempt([], accepted, true);
    assert [] + WritesOf(accepted, true) == WritesOf(accepted, true);
  }

  // And the other way round: upstream accepts, the attempt crashes after recording the id and
  // before acking, the host redelivers, upstream refuses. The request fails, keeps the first id,
  // and upstream is working on it; no tick looks at a failed row again.
  lemma RecordedAcceptanceIsOverwritten()
    ensures var accepted, refused := Attempt(Accepted("m"), 1, 2, 2), Attempt(Refused("do: eof"), 3, 4, 2);
            var row := Replay(History([accepted, refused], true));
            row.Some? && row.value.status == Failed && row.value.externalId == Some("m")
            && Replay(WritesOf(refused, true)).value.externalId == None
  {
    var accepted, refused := Attempt(Accepted("m"), 1, 2, 2), Attempt(Refused("do: eof"), 3, 4, 2);
    ReplayAttempt(History([accepted], true), refused, true);
    ReplayAttempt(History([], true), accepted, true);
    assert [accepted, refused][..1] == [accepted] && [accepted][..0] == [];
    ReplayAttempt([], refused, true);
    assert [] + WritesOf(refused, true) == WritesOf(refused, true);
  }

  // The same condition on the stored row, which can be looked up before the last attempt: it may
  // not be failed if upstream is going to accept, nor hold an external id if it is going to refuse.
  ghost predicate Converging(stored: Option<Row>, receipt: Receipt) {
    stored.Some? ==> if receipt.Accepted? then !stored.value.status.Failed? else stored.value.externalId.None?
  }

  lemma StoredRowTells(attempts: Attempts, last: Attempt, autoMonitor: bool, row: Option<Row>)
    requires Summary(attempts, autoMonitor, row)
    ensures Converging(row, last.receipt) <==>
            if last.receipt.Accepted? then !RecordedRefusal(attempts) else !RecordedAcceptance(attempts)
  {
  }

  lemma StoredRowDecides(attempts: Attempts, last: Attempt, autoMonitor: bool)
    requires last.applied == 2
    ensures var stored := Replay(History(attempts, autoMonitor));
            var all, alone := Replay(History(attempts + [last], autoMonitor)), Replay(WritesOf(last, autoMonitor));
            && all.Some? && alone.Some?
            && (SameOutcome(all.value, alone.value) <==> Converging(stored, last.receipt))
  {
    RedeliveryConvergesIff(attempts, last, autoMonitor);
    AttemptsSummary(attempts, autoMonitor);
    StoredRowTells(attempts, last, autoMonitor, Replay(History(attempts, autoMonitor)));
  }

  // ---------- deliveries as attempts ----------

  // How many of a delivery's writes took effect.
  function Applied(e: DeliveryInput): nat {
    if e.submittedFault.Reported() then (if e.submittedFault.Applied() then 1 else 0)
    else if e.outcomeFault.Applied() then 2 else 1
  }

  function AttemptOf(e: DeliveryInput): Attempt {
    Attempt(e.Receipt(), e.submittedAt, e.outcomeAt, Applied(e))
  }

  lemma DeliveryIsAttempt(t: Table, requestId: string, autoMonitor: bool, e: DeliveryInput)
    ensures Lookup(TableAfterDelivery(t, requestId, autoMonitor, e), requestId) ==
            Two(Lookup(t, requestId), AttemptOf(e), autoMonitor)
    ensures forall other :: other != requestId ==>
              Lookup(TableAfterDelivery(t, requestId, autoMonitor, e), other) == Lookup(t, other)
  {
  }

  function AfterDeliveries(t: Table, requestId: string, autoMonitor: bool, es: seq<DeliveryInput>): Table {
    if es == [] then t
    else TableAfterDelivery(AfterDeliveries(t, requestId, autoMonitor, es[..|es|-1]), requestId, autoMonitor,
                            es[|es|-1])
  }

  function AttemptsOf(es: seq<DeliveryInput>): (attempts: Attempts)
    ensures |attempts| == |es|
  {
    seq(|es|, i requires 0 <= i < |es| => AttemptOf(es[i]))
  }

  // The row that the deliveries leave is the replay of the attempts.
  ghost predicate LeaveAttempts(t: Table, requestId: string, autoMonitor: bool, es: seq<DeliveryInput>) {
    Lookup(AfterDeliveries(t, requestId, autoMonitor, es), requestId) == Replay(History(AttemptsOf(es), autoMonitor))
  }

  lemma AttemptsSnoc(es: seq<DeliveryInput>, e: DeliveryInput, autoMonitor: bool)
    ensures AttemptsOf(es + [e]) == AttemptsOf(es) + [AttemptOf(e)]
    ensures History(AttemptsOf(es + [e]), autoMonitor) ==
            History(AttemptsOf(es), autoMonitor) + WritesOf(AttemptOf(e), autoMonitor)
  {
    var all := AttemptsOf(es + [e]);
    assert all == AttemptsOf(es) + [AttemptOf(e)];
    assert all[..|es|] == AttemptsOf(es);
  }

  lemma OneMoreDelivery(t: Table, requestId: string, autoMonitor: bool, es: seq<DeliveryInput>, e: DeliveryInput)
    requires LeaveAttempts(t, requestId, autoMonitor, es)
    ensures LeaveAttempts(t, requestId, autoMonitor, es + [e])
  {
    assert (es + [e])[..|es|] == es;
    AttemptsSnoc(es, e, autoMonitor);
    DeliveryIsAttempt(AfterDeliveries(t, requestId, autoMonitor, es), requestId, autoMonitor, e);
    ReplayAttempt(History(AttemptsOf(es), autoMonitor), AttemptOf(e), autoMonitor);
  }

  lemma DeliveriesAreAttempts(t: Table, requestId: string, autoMonitor: bool, es: seq<DeliveryInput>)
    requires requestId !in t
    ensures LeaveAttempts(t, requestId, autoMonitor, es)
  {
    var handled: seq<DeliveryInput> := [];
    for i := 0 to |es|
      invariant handled == es[..i] && LeaveAttempts(t, requestId, autoMonitor, handled)
    {
      OneMoreDelivery(t, requestId, autoMonitor, handled, es[i]);
      handled := handled + [es[i]];
    }
    assert handled == es;
  }

  // HandleEvent itself: any number of nacked deliveries whose failed writes did not take effect,
  // then an acked one, leave the row of the acked one alone.
  lemma NackedDeliveriesConverge(t: Table, requestId: string, autoMonitor: bool, nacked: seq<DeliveryInput>,
                                 last: DeliveryInput)
    requires requestId !in t && Acked(last)
    requires forall i :: 0 <= i < |nacked| ==>
               !Acked(nacked[i]) && !nacked[i].submittedFault.CommittedUnreported? &&
               !nacked[i].outcomeFault.CommittedUnreported?
    ensures var all := AfterDeliveries(t, requestId, autoMonitor, nacked + [last]);
            var alone := TableAfterDelivery(t, requestId, autoMonitor, last);
            requestId in all && requestId in alone && SameOutcome(all[requestId], alone[requestId])
  {
    var es := nacked + [last];
    DeliveriesAreAttempts(t, requestId, autoMonitor, es);
    AttemptsSnoc(nacked, last, autoMonitor);
    InterruptedAttemptsLeaveNoTrace(AttemptsOf(nacked), AttemptOf(last), autoMonitor);
    DeliveryIsAttempt(t, requestId, autoMonitor, last);
    ReplayAttempt([], AttemptOf(last), autoMonitor);
    assert [] + WritesOf(AttemptOf(last), autoMonitor) == WritesOf(AttemptOf(last), autoMonitor);
  }
}
