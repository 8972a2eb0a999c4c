/**
 The methods are runs of the protocol: what Tick and HandleEvent leave behind when nobody
 interferes is what the transition system reaches by their steps in order. So the theorems
 about every interleaving are theorems about the code of the methods.
 */
module Runs {
  import opened Wrappers
  import opened Requests
  import opened Monitoring
  import opened Events
  import opened Reconciler
  import opened TickProperties
  import opened Fairness
  import opened Consumer
  import opened Protocol
  import S = Store

  // ---------- Tick ----------

  function RowActions(row: ForwardedRequest, e: RowInput, pluginId: string): seq<Action> {
    if row.externalId == "" then [SkipRow]
    else [Poll(e.Reply()), WriteRow(e.polledAt, e.stampedAt, e.fault)] +
         if TransitionEvent(row, e.Reply(), pluginId) == [] then [] else [PublishRow]
  }

  function RowsActions(rows: seq<ForwardedRequest>, input: nat -> RowInput, pluginId: string, k: nat): seq<Action>
    requires k <= |rows|
  {
    if k == 0 then [] else RowsActions(rows, input, pluginId, k - 1) + RowActions(rows[k - 1], input(k - 1), pluginId)
  }

  // What one row's turn adds to the history: the statement if it took effect, upstream's answer,
  // and how a MarkPolled ended.
  function TurnHistory(h: History, row: ForwardedRequest, e: RowInput): History {
    if row.externalId == "" then h else
    var reply := e.Reply();
    h.(writes := if e.fault.Applied() then h.writes + [(row.requestId, PollWrite(row, reply, e.polledAt, e.stampedAt))]
                 else h.writes,
       errors := if reply.Unavailable? then h.errors + {(row.requestId, reply.error)} else h.errors,
       reports := if reply.Snapshot? then h.reports + {Report(row.externalId, reply.id, reply.status)} else h.reports,
       markErrors := if reply.Snapshot? && e.fault.Reported() then h.markErrors + multiset{row.requestId}
                     else h.markErrors,
       marked := if reply.Snapshot? && !e.fault.Reported() && Settled(row, reply).Terminal() then
                   h.marked + {row.requestId}
                 else h.marked)
  }

  function TurnsHistory(h: History, rows: seq<ForwardedRequest>, input: nat -> RowInput, k: nat): History
    requires k <= |rows|
  {
    if k == 0 then h else TurnHistory(TurnsHistory(h, rows, input, k - 1), rows[k - 1], input(k - 1))
  }

  lemma RunOne(c: Config, s: State, a: Action)
    ensures Run(c, s, [a]) == Step(c, s, a)
  {
    assert [a][..0] == [];
  }

  lemma RunThen(c: Config, s: State, before: seq<Action>, a: Action)
    ensures Run(c, s, before + [a]) == Step(c, Run(c, s, before), a)
  {
    assert (before + [a])[..|before|] == before;
  }

  lemma PollThenWrite(c: Config, s: State, e: RowInput)
    requires TickAtRow(s) && s.tick.value.rows[0].externalId != ""
    ensures var row := s.tick.value.rows[0];
            var u := WriteRowStep(c, PollStep(s, e.Reply()), e.polledAt, e.stampedAt, e.fault);
            var events := TransitionEvent(row, e.Reply(), c.pluginId);
            && u.deliveries == s.deliveries && u.log == s.log && u.hist == TurnHistory(s.hist, row, e)
            && u.table == ApplyFaulty(s.table, row.requestId, PollWrite(row, e.Reply(), e.polledAt, e.stampedAt),
                                      e.fault)
            && u.tick == Some(if events == [] then TickState(s.tick.value.rows[1..], AtRow)
                              else TickState(s.tick.value.rows, Publishing(events[0])))
  {
  }

  lemma AtMostOneEvent(row: ForwardedRequest, reply: Reply, pluginId: string)
    ensures var events := TransitionEvent(row, reply, pluginId); events != [] ==> events == [events[0]]
  {
  }

  lemma RowIsARun(c: Config, s: State, e: RowInput)
    requires TickAtRow(s)
    ensures var row := s.tick.value.rows[0];
            var u := Run(c, s, RowActions(row, e, c.pluginId));
            && u.deliveries == s.deliveries && u.hist == TurnHistory(s.hist, row, e)
            && u.tick == Some(TickState(s.tick.value.rows[1..], AtRow))
            && u.table == (if row.externalId == "" then s.table
                           else ApplyFaulty(s.table, row.requestId,
                                            PollWrite(row, e.Reply(), e.polledAt, e.stampedAt), e.fault))
            && u.log == s.log + (if row.externalId == "" then [] else TransitionEvent(row, e.Reply(), c.pluginId))
  {
    var row := s.tick.value.rows[0];
    if row.externalId == "" {
      RunOne(c, s, SkipRow);
    } else {
      PollThenWrite(c, s, e);
      PollThenWriteIsARun(c, s, e);
      AtMostOneEvent(row, e.Reply(), c.pluginId);
      var written := WriteRowStep(c, PollStep(s, e.Reply()), e.polledAt, e.stampedAt, e.fault);
      PublishIsARun(c, s, written, e);
    }
  }

  lemma PollThenWriteIsARun(c: Config, s: State, e: RowInput)
    ensures Run(c, s, [Poll(e.Reply()), WriteRow(e.polledAt, e.stampedAt, e.fault)]) ==
            WriteRowStep(c, PollStep(s, e.Reply()), e.polledAt, e.stampedAt, e.fault)
  {
    var poll, write := Poll(e.Reply()), WriteRow(e.polledAt, e.stampedAt, e.fault);
    RunOne(c, s, poll);
    RunThen(c, s, [poll], write);
    assert [poll] + [write] == [poll, write];
  }

  lemma PublishIsARun(c: Config, s: State, written: State, e: RowInput)
    requires TickAtRow(s) && s.tick.value.rows[0].externalId != ""
    requires written == Run(c, s, [Poll(e.Reply()), WriteRow(e.polledAt, e.stampedAt, e.fault)])
    ensures Run(c, s, RowActions(s.tick.value.rows[0], e, c.pluginId)) ==
            if TransitionEvent(s.tick.value.rows[0], e.Reply(), c.pluginId) == [] then written
            else PublishRowStep(written)
  {
    var row := s.tick.value.rows[0];
    var two := [Poll(e.Reply()), WriteRow(e.polledAt, e.stampedAt, e.fault)];
    if TransitionEvent(row, e.Reply(), c.pluginId) == [] {
      assert RowActions(row, e, c.pluginId) == two;
    } else {
      RunThen(c, s, two, PublishRow);
    }
  }

  // After k rows the run stands at the (k+1)-st with what AfterRows says.
  ghost predicate StandsAt(s: State, u: State, rows: seq<ForwardedRequest>, p: Progress, h: History) {
    && !p.stopped
    && u.deliveries == s.deliveries
    && u.tick == Some(TickState(rows, AtRow))
    && u.table == p.table
    && u.log == s.log + p.events
    && u.hist == h
  }

  ghost predicate StandsAfter(c: Config, s: State, u: State, rows: seq<ForwardedRequest>, input: nat -> RowInput,
                              k: nat)
    requires k <= |rows|
  {
    StandsAt(s, u, rows[k..], AfterRows(s.table, rows, input, c.pluginId, k), TurnsHistory(s.hist, rows, input, k))
  }

  lemma RowKeepsStanding(c: Config, s: State, u: State, rows: seq<ForwardedRequest>, p: Progress, h: History,
                         e: RowInput)
    requires StandsAt(s, u, rows, p, h) && rows != []
    ensures StandsAt(s, Run(c, u, RowActions(rows[0], e, c.pluginId)), rows[1..], AfterRow(p, rows[0], e, c.pluginId),
                     TurnHistory(h, rows[0], e))
  {
    RowIsARun(c, u, e);
  }

  lemma OneMoreRow(c: Config, s: State, u: State, rows: seq<ForwardedRequest>, input: nat -> RowInput, k: nat)
    requires k < |rows| && !input(k).expired && StandsAfter(c, s, u, rows, input, k)
    ensures StandsAfter(c, s, Run(c, u, RowActions(rows[k], input(k), c.pluginId)), rows, input, k + 1)
  {
    NextTurn(s.table, rows, input, c.pluginId, k);
    RowKeepsStanding(c, s, u, rows[k..], AfterRows(s.table, rows, input, c.pluginId, k),
                     TurnsHistory(s.hist, rows, input, k),
                     input(k));
    assert rows[k..][1..] == rows[k + 1..];
  }

  lemma OneMoreRowIsARun(c: Config, s: State, u: State, rows: seq<ForwardedRequest>, input: nat -> RowInput, k: nat)
    requires k < |rows| && u == Run(c, s, RowsActions(rows, input, c.pluginId, k))
    ensures Run(c, u, RowActions(rows[k], input(k), c.pluginId)) ==
            Run(c, s, RowsActions(rows, input, c.pluginId, k + 1))
  {
    RunAppend(c, s, RowsActions(rows, input, c.pluginId, k), RowActions(rows[k], input(k), c.pluginId));
  }

  lemma RowsAreARun(c: Config, s: State, rows: seq<ForwardedRequest>, input: nat -> RowInput, n: nat)
    requires s.tick == Some(TickState(rows, AtRow)) && n <= |rows|
    requires forall j: nat :: j < n ==> !input(j).expired
    ensures StandsAfter(c, s, Run(c, s, RowsActions(rows, input, c.pluginId, n)), rows, input, n)
  {
    var u := s;
    for k := 0 to n
      invariant u == Run(c, s, RowsActions(rows, input, c.pluginId, k)) && StandsAfter(c, s, u, rows, input, k)
    {
      OneMoreRow(c, s, u, rows, input, k);
      OneMoreRowIsARun(c, s, u, rows, input, k);
      u := Run(c, u, RowActions(rows[k], input(k), c.pluginId));
    }
  }

  lemma {:induction false} NotStopped(t: Table, rows: seq<ForwardedRequest>, input: nat -> RowInput, pluginId: string,
                                      k: nat)
    requires k <= |rows| && forall j: nat :: j < k ==> !input(j).expired
    ensures !AfterRows(t, rows, input, pluginId, k).stopped
  {
    if k > 0 {
      NotStopped(t, rows, input, pluginId, k - 1);
    }
  }

  lemma AfterBudget(t: Table, rows: seq<ForwardedRequest>, input: nat -> RowInput, pluginId: string)
    ensures var m := Budget(input, |rows|);
            var p, q := AfterRows(t, rows, input, pluginId, m), AfterRows(t, rows, input, pluginId, |rows|);
            p.table == q.table && p.events == q.events
  {
    var m := Budget(input, |rows|);
    if m < |rows| {
      NotStopped(t, rows, input, pluginId, m);
      ExpiryEndsTick(t, rows, input, pluginId, m);
    }
  }

  lemma RunBracketed(c: Config, s: State, a: Action, mid: seq<Action>, b: Action)
    ensures Run(c, s, [a] + mid + [b]) == Step(c, Run(c, Step(c, s, a), mid), b)
  {
    RunOne(c, s, a);
    RunAppend(c, s, [a], mid);
    RunThen(c, s, [a] + mid, b);
  }

  // What the whole tick adds to the history: the turns that fit the budget.
  ghost function TickHistory(h: History, rows: seq<ForwardedRequest>, input: nat -> RowInput): History {
    TurnsHistory(h, rows, input, Budget(input, |rows|))
  }

  // What an uninterrupted tick leaves: nothing else changes.
  ghost predicate TickCompletes(s: State, u: State, done: Progress, h: History) {
    u == s.(tick := None, table := done.table, log := s.log + done.events, hist := h)
  }

  // From the moment the tick holds its list.
  lemma StartedTickIsARun(c: Config, started: State, rows: seq<ForwardedRequest>, input: nat -> RowInput)
    requires started.tick == Some(TickState(rows, AtRow))
    ensures TickCompletes(started,
                          EndTickStep(Run(c, started, RowsActions(rows, input, c.pluginId, Budget(input, |rows|)))),
                          AfterRows(started.table, rows, input, c.pluginId, |rows|),
                          TickHistory(started.hist, rows, input))
  {
    RowsAreARun(c, started, rows, input, Budget(input, |rows|));
    AfterBudget(started.table, rows, input, c.pluginId);
  }

  lemma BracketedTick(c: Config, s: State, rows: seq<ForwardedRequest>, mid: seq<Action>)
    ensures Run(c, s, [StartTick(rows)] + mid + [EndTick]) == EndTickStep(Run(c, StartTickStep(c, s, rows), mid))
  {
    RunBracketed(c, s, StartTick(rows), mid, EndTick);
  }

  lemma FromStarted(s: State, rows: seq<ForwardedRequest>, u: State, done: Progress, h: History)
    requires s.tick.None? && TickCompletes(s.(tick := Some(TickState(rows, AtRow))), u, done, h)
    ensures TickCompletes(s, u, done, h)
  {
  }

  // A tick that gets the mutex and this list.
  lemma ListedTickIsARun(c: Config, s: State, rows: seq<ForwardedRequest>, input: nat -> RowInput)
    returns (actions: seq<Action>)
    requires s.tick.None? && rows <= S.Listing(s.table, c.batch)
    ensures TickCompletes(s, Run(c, s, actions), AfterRows(s.table, rows, input, c.pluginId, |rows|),
                          TickHistory(s.hist, rows, input))
  {
    var polls := RowsActions(rows, input, c.pluginId, Budget(input, |rows|));
    var started := s.(tick := Some(TickState(rows, AtRow)));
    StartedTickIsARun(c, started, rows, input);
    BracketedTick(c, s, rows, polls);
    FromStarted(s, rows, EndTickStep(Run(c, started, polls)), AfterRows(s.table, rows, input, c.pluginId, |rows|),
                TickHistory(s.hist, rows, input));
    actions := [StartTick(rows)] + polls + [EndTick];
  }

  // A tick that gets the mutex and whatever of its list is delivered.
  lemma TickIsAProtocolRun(c: Config, s: State, delivered: nat, input: nat -> RowInput) returns (actions: seq<Action>)
    requires s.tick.None?
    ensures var rows := S.Delivered(s.table, c.batch, delivered);
            TickCompletes(s, Run(c, s, actions), AfterRows(s.table, rows, input, c.pluginId, |rows|),
                          TickHistory(s.hist, rows, input))
  {
    actions := ListedTickIsARun(c, s, S.Delivered(s.table, c.batch, delivered), input);
  }

  // The i-th turn is a MarkPolled of the request that returned an error.
  ghost predicate MarkFails(rows: seq<ForwardedRequest>, input: nat -> RowInput, i: nat, id: string) {
    AttemptedFor(rows, input, i, id) && input(i).Reply().Snapshot? && input(i).fault.Reported()
  }

  ghost predicate SomeMarkFails(rows: seq<ForwardedRequest>, input: nat -> RowInput, k: nat, id: string) {
    exists i: nat :: i < k && MarkFails(rows, input, i, id)
  }

  lemma TurnCountsItsMarkError(h: History, rows: seq<ForwardedRequest>, input: nat -> RowInput, k: nat, id: string,
                               n: nat)
    requires k < |rows| && DistinctIds(rows) && InBudget(input, k)
    requires TurnsHistory(h, rows, input, k).markErrors[id] == n + if SomeMarkFails(rows, input, k, id) then 1 else 0
    ensures TurnsHistory(h, rows, input, k + 1).markErrors[id] ==
            n + if SomeMarkFails(rows, input, k + 1, id) then 1 else 0
  {
    assert SomeMarkFails(rows, input, k + 1, id) <==>
           MarkFails(rows, input, k, id) || SomeMarkFails(rows, input, k, id);
  }

  // The mark errors that the history counts are those the tick's inputs contain.
  lemma MarkErrorsAreFaults(h: History, rows: seq<ForwardedRequest>, input: nat -> RowInput, k: nat, id: string)
    requires k <= |rows| && DistinctIds(rows) && forall j: nat :: j < k ==> !input(j).expired
    ensures TurnsHistory(h, rows, input, k).markErrors[id] ==
            h.markErrors[id] + if SomeMarkFails(rows, input, k, id) then 1 else 0
  {
    for i := 0 to k
      invariant TurnsHistory(h, rows, input, i).markErrors[id] ==
                h.markErrors[id] + if SomeMarkFails(rows, input, i, id) then 1 else 0
    {
      InBudgetMeans(input, i);
      TurnCountsItsMarkError(h, rows, input, i, id, h.markErrors[id]);
    }
  }

  // For the tick as a whole.
  lemma TickCountsItsMarkErrors(h: History, rows: seq<ForwardedRequest>, input: nat -> RowInput, id: string)
    requires DistinctIds(rows)
    ensures TickHistory(h, rows, input).markErrors[id] ==
            h.markErrors[id] + if exists i: nat :: MarkFails(rows, input, i, id) then 1 else 0
  {
    var m := Budget(input, |rows|);
    MarkErrorsAreFaults(h, rows, input, m, id);
    if i: nat :| MarkFails(rows, input, i, id) {
      InBudgetMeans(input, i);
      assert i < m;
    }
  }

  // ---------- runs of ticks ----------

  ghost function TicksHistory(h: History, t: Table, turns: seq<Turn>, batch: int, pluginId: string): History {
    if turns == [] then h else
    var before, last := turns[..|turns|-1], turns[|turns|-1];
    TickHistory(TicksHistory(h, t, before, batch, pluginId),
                TurnRows(AfterTurns(t, before, batch, pluginId).table, last, batch), last.input)
  }

  // Ticks whose writes succeed add nothing to the mark errors that bound the terminal events.
  lemma {:induction false} SuccessfulTicksAddNoMarkErrors(h: History, t: Table, turns: seq<Turn>, batch: int,
                                                          pluginId: string, id: string)
    requires AllSucceed(turns)
    ensures TicksHistory(h, t, turns, batch, pluginId).markErrors[id] == h.markErrors[id]
  {
    if turns != [] {
      var before, last := turns[..|turns|-1], turns[|turns|-1];
      SuccessfulTicksAddNoMarkErrors(h, t, before, batch, pluginId, id);
      var rows := TurnRows(AfterTurns(t, before, batch, pluginId).table, last, batch);
      TickCountsItsMarkErrors(TicksHistory(h, t, before, batch, pluginId), rows, last.input, id);
      assert Succeeds(last.input);
    }
  }

  ghost predicate TicksComplete(s: State, u: State, done: Outcome, h: History) {
    u == s.(table := done.table, log := s.log + done.events, hist := h)
  }

  lemma TurnIsAProtocolRun(c: Config, s: State, turn: Turn) returns (actions: seq<Action>)
    requires s.tick.None?
    ensures TicksComplete(s, Run(c, s, actions), AfterTurn(s.table, turn, c.batch, c.pluginId),
                          TickHistory(s.hist, TurnRows(s.table, turn, c.batch), turn.input))
  {
    actions := TickIsAProtocolRun(c, s, turn.delivered, turn.input);
  }

  lemma OneMoreTick(s: State, mid: State, u: State, before: Outcome, h: History, last: Outcome, k: History)
    requires TicksComplete(s, mid, before, h) && TicksComplete(mid, u, last, k)
    ensures TicksComplete(s, u, Outcome(last.table, before.events + last.events), k)
  {
  }

  // Any number of ticks, one after the other, is one run.
  lemma {:induction false} TicksAreAProtocolRun(c: Config, s: State, turns: seq<Turn>) returns (actions: seq<Action>)
    requires s.tick.None?
    ensures TicksComplete(s, Run(c, s, actions), AfterTurns(s.table, turns, c.batch, c.pluginId),
                          TicksHistory(s.hist, s.table, turns, c.batch, c.pluginId))
  {
    actions := [];
    if turns != [] {
      var before, last := turns[..|turns|-1], turns[|turns|-1];
      var first := TicksAreAProtocolRun(c, s, before);
      var done, h := AfterTurns(s.table, before, c.batch, c.pluginId),
                     TicksHistory(s.hist, s.table, before, c.batch, c.pluginId);
      var mid := Run(c, s, first);
      var rest := TurnIsAProtocolRun(c, mid, last);
      OneMoreTick(s, mid, Run(c, mid, rest), done, h, AfterTurn(done.table, last, c.batch, c.pluginId),
                  TickHistory(h, TurnRows(done.table, last, c.batch), last.input));
      RunAppend(c, s, first, rest);
      actions := first + rest;
    }
  }

  lemma {:induction false} RunIsAfterTurns(tables: seq<Table>, turns: seq<Turn>, batch: int, pluginId: string, n: nat)
    requires IsRun(tables, turns, batch, pluginId) && n <= |turns|
    ensures tables[n] == AfterTurns(tables[0], turns[..n], batch, pluginId).table
  {
    if n > 0 {
      RunIsAfterTurns(tables, turns, batch, pluginId, n - 1);
      assert turns[..n][..n - 1] == turns[..n - 1];
    } else {
      assert turns[..0] == [];
    }
  }

  // So the tables of a run of ticks from a reachable state are themselves reachable.
  lemma RunTablesAreReachable(c: Config, actions: seq<Action>, tables: seq<Table>, turns: seq<Turn>, n: nat)
    returns (later: seq<Action>)
    requires Reached(c, actions).tick.None?
    requires IsRun(tables, turns, c.batch, c.pluginId) && n <= |turns| && tables[0] == Reached(c, actions).table
    ensures Reached(c, actions + later).table == tables[n] && Reached(c, actions + later).tick.None?
  {
    RunIsAfterTurns(tables, turns, c.batch, c.pluginId, n);
    later := TicksAreAProtocolRun(c, Reached(c, actions), turns[..n]);
    RunAppend(c, INITIAL, actions, later);
  }

  // ---------- HandleEvent ----------

  function DeliveryActions(key: nat, deps: Deps, req: EventRequest, e: DeliveryInput): seq<Action> {
    [Deliver(key, deps, req), SaveSubmitted(key, e.submittedAt, e.submittedFault), Submit(key, e.Receipt()),
     SaveOutcome(key, e.outcomeAt, e.outcomeFault), Announce(key), Ack(key)]
  }

  lemma RunSix(c: Config, s: State, a: seq<Action>)
    requires |a| == 6
    ensures Run(c, s, a) ==
            Step(c, Step(c, Step(c, Step(c, Step(c, Step(c, s, a[0]), a[1]), a[2]), a[3]), a[4]), a[5])
  {
    RunOne(c, s, a[0]);
    RunThen(c, s, a[..1], a[1]);
    RunThen(c, s, a[..2], a[2]);
    RunThen(c, s, a[..3], a[3]);
    RunThen(c, s, a[..4], a[4]);
    RunThen(c, s, a[..5], a[5]);
    assert a[..1] == [a[0]] && a[..2] == a[..1] + [a[1]] && a[..3] == a[..2] + [a[2]] && a[..4] == a[..3] + [a[3]];
    assert a[..5] == a[..4] + [a[4]] && a == a[..5] + [a[5]];
  }

  // What a delivery leaves: its effect on the table and the log, whether it was acked, and
  // everybody else's state.
  ghost predicate Completes(s: State, u: State, others: map<nat, Delivery>, t: Table, log: seq<Event>,
                            acked: set<string>) {
    u.table == t && u.log == s.log + log && u.hist.acked == s.hist.acked + acked && u.deliveries == others &&
    u.tick == s.tick
  }

  function FromSaved(c: Config, s: State, key: nat): State {
    AckStep(AnnounceStep(c, s, key), key)
  }

  function FromRecorded(c: Config, s: State, key: nat, e: DeliveryInput): State {
    FromSaved(c, SaveOutcomeStep(c, SubmitStep(s, key, e.Receipt()), key, e.outcomeAt, e.outcomeFault), key)
  }

  lemma AbsentDoesNothing(c: Config, s: State, key: nat, e: DeliveryInput)
    requires key !in s.deliveries
    ensures FromRecorded(c, s, key, e) == s && FromSaved(c, s, key) == s
  {
  }

  // What a delivery's events come to: nothing without a publisher.
  function Heard(c: Config, events: seq<Event>): seq<Event> {
    if c.publishes then events else []
  }

  lemma SavedFinishes(c: Config, s: State, key: nat)
    requires key in s.deliveries && s.deliveries[key].pc.Saved?
    ensures var d := s.deliveries[key];
            Completes(s, FromSaved(c, s, key), s.deliveries - {key}, s.table,
                      Heard(c, [OutcomeEvent(d.requestId, d.pc.receipt, c.pluginId)]), {d.requestId})
  {
    assert AnnounceStep(c, s, key).deliveries - {key} == s.deliveries - {key};
  }

  lemma RecordedFinishes(c: Config, s: State, key: nat, e: DeliveryInput)
    requires key in s.deliveries && s.deliveries[key].pc.Recorded?
    ensures var d := s.deliveries[key];
            var ok := e.outcomeFault.Committed?;
            Completes(s, FromRecorded(c, s, key, e), s.deliveries - {key},
                      ApplyFaulty(s.table, d.requestId, OutcomeWrite(e.Receipt(), d.autoMonitor, e.outcomeAt),
                                  e.outcomeFault),
                      Heard(c, if ok then [OutcomeEvent(d.requestId, e.Receipt(), c.pluginId)] else []),
                      if ok then {d.requestId} else {})
  {
    var submitted := SubmitStep(s, key, e.Receipt());
    assert submitted.deliveries - {key} == s.deliveries - {key};
    var saved := SaveOutcomeStep(c, submitted, key, e.outcomeAt, e.outcomeFault);
    assert saved.deliveries - {key} == s.deliveries - {key};
    if e.outcomeFault.Committed? {
      SavedFinishes(c, saved, key);
    } else {
      assert FromSaved(c, saved, key) == saved;
    }
  }

  lemma ReceivedFinishes(c: Config, s: State, key: nat, e: DeliveryInput)
    requires key in s.deliveries && s.deliveries[key].pc.Received?
    ensures var d := s.deliveries[key];
            Completes(s, FromRecorded(c, SaveSubmittedStep(s, key, e.submittedAt, e.submittedFault), key, e),
                      s.deliveries - {key},
                      TableAfterDelivery(s.table, d.requestId, d.autoMonitor, e),
                      Heard(c, DeliveryEvents(d.requestId, c.pluginId, e)),
                      if Acked(e) then {d.requestId} else {})
  {
    var submitted := SaveSubmittedStep(s, key, e.submittedAt, e.submittedFault);
    assert submitted.deliveries - {key} == s.deliveries - {key};
    if e.submittedFault.Committed? {
      RecordedFinishes(c, submitted, key, e);
    } else {
      AbsentDoesNothing(c, submitted, key, e);
    }
  }

  lemma DeliveryRun(c: Config, s: State, key: nat, deps: Deps, req: EventRequest, e: DeliveryInput)
    ensures Run(c, s, DeliveryActions(key, deps, req, e)) ==
            FromRecorded(c, SaveSubmittedStep(DeliverStep(c, s, key, deps, req), key, e.submittedAt, e.submittedFault),
                         key, e)
  {
    RunSix(c, s, DeliveryActions(key, deps, req, e));
  }

  // A delivery from its arrival to its ack or nack.
  lemma DeliveryIsAProtocolRun(c: Config, s: State, key: nat, deps: Deps, req: EventRequest, e: DeliveryInput)
    requires key !in s.deliveries && deps == Ready(c.pluginId) && Admit(deps, req).Admitted?
    ensures var admitted := Admit(deps, req);
            Completes(s, Run(c, s, DeliveryActions(key, deps, req, e)), s.deliveries,
                      TableAfterDelivery(s.table, admitted.requestId, admitted.autoMonitor, e),
                      Heard(c, DeliveryEvents(admitted.requestId, c.pluginId, e)),
                      if Acked(e) then {admitted.requestId} else {})
  {
    DeliveryRun(c, s, key, deps, req, e);
    var received := DeliverStep(c, s, key, deps, req);
    assert received.deliveries - {key} == s.deliveries;
    ReceivedFinishes(c, received, key, e);
  }
}
