/**
 Runs of the protocol that end badly. They reach, from the empty table, the states that the
 conditions of the other modules are about: a poll list whose head is full of rows that nobody
 can poll, a fulfilled request that nobody hears of, and a failed one that the portal takes for
 acknowledged.
 */
module Scenarios {
  import opened Wrappers
  import opened TextOrder
  import opened Requests
  import opened Monitoring
  import opened Events
  import opened Fairness
  import opened Consumer
  import opened Protocol
  import opened Invariants
  import opened Safety
  import opened Runs
  import S = Store

  // ---------- events for this plugin ----------

  // An event can be addressed to the plugin: its id is not changed by trimming.
  predicate Addressable(c: Config) {
    TrimSpace(c.pluginId) == c.pluginId
  }

  // The event submits this request.
  ghost predicate Submits(c: Config, req: EventRequest, id: string) {
    Admit(Ready(c.pluginId), req) == Admitted(id, false)
  }

  // A payload with just the two texts that admission needs.
  function PayloadOf(pluginId: string, id: string): (p: Payload)
    ensures "target_plugin_id" in p && p["target_plugin_id"] == Text(pluginId)
    ensures "request_id" in p && p["request_id"] == Text(id)
    ensures "auto_monitor" !in p
  {
    assert |"target_plugin_id"| == 16 && |"request_id"| == 10 && |"auto_monitor"| == 12;
    map["target_plugin_id" := Text(pluginId), "request_id" := Text(id)]
  }

  lemma FirstKeyTargets(p: Payload, keys: seq<string>, pluginId: string)
    requires keys != [] && keys[0] in p && p[keys[0]] == Text(pluginId) && TrimSpace(pluginId) == pluginId
    ensures FirstTarget(p, keys) == Some(pluginId)
  {
  }

  lemma PayloadTargets(p: Payload, pluginId: string)
    requires "target_plugin_id" in p && p["target_plugin_id"] == Text(pluginId) && TrimSpace(pluginId) == pluginId
    ensures TargetPluginIdFromPayload(p) == Some(pluginId)
  {
    var keys := TARGET_KEYS;
    assert keys[0] == "target_plugin_id";
    FirstKeyTargets(p, keys, pluginId);
  }

  lemma TargetedSubmits(c: Config, p: Payload, id: string)
    requires TargetPluginIdFromPayload(p) == Some(c.pluginId) && RequestIdFromPayload(p) == id != ""
    requires !AutoMonitorField(p)
    ensures Submits(c, EventRequest(REQUEST_SUBMITTED, Some(p)), id)
  {
  }

  lemma PayloadSubmits(c: Config, p: Payload, id: string)
    requires Addressable(c) && id != ""
    requires "target_plugin_id" in p && p["target_plugin_id"] == Text(c.pluginId)
    requires "request_id" in p && p["request_id"] == Text(id)
    requires "auto_monitor" !in p
    ensures Submits(c, EventRequest(REQUEST_SUBMITTED, Some(p)), id)
  {
    PayloadTargets(p, c.pluginId);
    TargetedSubmits(c, p, id);
  }

  lemma SubmissionExists(c: Config, id: string) returns (req: EventRequest)
    requires Addressable(c) && id != ""
    ensures Submits(c, req, id)
  {
    var p := PayloadOf(c.pluginId, id);
    PayloadSubmits(c, p, id);
    req := EventRequest(REQUEST_SUBMITTED, Some(p));
  }

  const WAITING := Row(None, Submitted, None, None, false, 1)
  const ACCEPTED := Row(Some("m"), Acknowledged, None, None, false, 1)

  // A delivery that crashes after its first write.
  function Interrupted(c: Config, req: EventRequest): seq<Action> {
    [Deliver(0, Ready(c.pluginId), req), SaveSubmitted(0, 1, Committed), CrashDelivery(0)]
  }

  lemma RunThree(c: Config, s: State, x: Action, y: Action, z: Action)
    ensures Run(c, s, [x, y, z]) == Step(c, Step(c, Step(c, s, x), y), z)
  {
    RunOne(c, s, x);
    RunThen(c, s, [x], y);
    RunThen(c, s, [x, y], z);
    assert [x] + [y] == [x, y] && [x, y] + [z] == [x, y, z];
  }

  lemma InterruptedRun(c: Config, s: State, req: EventRequest)
    ensures Run(c, s, Interrupted(c, req)) ==
            CrashDeliveryStep(c, SaveSubmittedStep(DeliverStep(c, s, 0, Ready(c.pluginId), req), 0, 1, Committed), 0)
  {
    RunThree(c, s, Deliver(0, Ready(c.pluginId), req), SaveSubmitted(0, 1, Committed), CrashDelivery(0));
  }

  lemma Arrives(c: Config, s: State, req: EventRequest, id: string)
    requires Submits(c, req, id) && s.deliveries == map[]
    ensures DeliverStep(c, s, 0, Ready(c.pluginId), req) == s.(deliveries := map[0 := Delivery(id, false, Received)])
  {
  }

  lemma ReceivedCrashes(c: Config, s: State, id: string)
    requires s.deliveries == map[0 := Delivery(id, false, Received)] && id !in s.table
    ensures var u := CrashDeliveryStep(c, SaveSubmittedStep(s, 0, 1, Committed), 0);
            u.table == s.table[id := WAITING] && u.deliveries == map[] && u.tick == s.tick
  {
    var recorded := SaveSubmittedStep(s, 0, 1, Committed);
    assert recorded.deliveries == map[0 := Delivery(id, false, Recorded)];
  }

  lemma InterruptedLeavesWaiting(c: Config, s: State, req: EventRequest, id: string)
    requires Submits(c, req, id) && id !in s.table && s.deliveries == map[]
    ensures var u := Run(c, s, Interrupted(c, req));
            u.table == s.table[id := WAITING] && u.deliveries == map[] && u.tick == s.tick
  {
    InterruptedRun(c, s, req);
    Arrives(c, s, req, id);
    ReceivedCrashes(c, s.(deliveries := map[0 := Delivery(id, false, Received)]), id);
  }

  lemma SomeInterrupted(c: Config, s: State, id: string) returns (actions: seq<Action>)
    requires Addressable(c) && id != "" && id !in s.table && s.deliveries == map[]
    ensures var u := Run(c, s, actions);
            u.table == s.table[id := WAITING] && u.deliveries == map[] && u.tick == s.tick
  {
    var req := SubmissionExists(c, id);
    InterruptedLeavesWaiting(c, s, req, id);
    actions := Interrupted(c, req);
  }

  // A delivery that goes well and is acked.
  const WELL := DeliveryInput(Committed, 1, Body("m", "queued"), Committed, 1, Taking)

  function Completed(c: Config, req: EventRequest): seq<Action> {
    DeliveryActions(0, Ready(c.pluginId), req, WELL)
  }

  lemma WellAccepts(t: Table, id: string)
    requires id !in t
    ensures Acked(WELL) && WELL.Receipt() == Accepted("m") &&
            TableAfterDelivery(t, id, false, WELL) == t[id := ACCEPTED]
  {
    assert ApplyFaulty(t, id, SubmittedWrite(false, 1), Committed) == t[id := WAITING];
  }

  lemma CompletedLeavesAccepted(c: Config, s: State, req: EventRequest, id: string)
    requires Submits(c, req, id) && id !in s.table && s.deliveries == map[]
    ensures var u := Run(c, s, Completed(c, req));
            && u.table == s.table[id := ACCEPTED] && u.deliveries == map[] && u.tick == s.tick
            && u.log == s.log + Heard(c, [RequestAcknowledged(id, "m", c.pluginId)]) && id in u.hist.acked
  {
    WellAccepts(s.table, id);
    DeliveryIsAProtocolRun(c, s, 0, Ready(c.pluginId), req, WELL);
  }

  lemma SomeCompleted(c: Config, s: State, id: string) returns (actions: seq<Action>)
    requires Addressable(c) && id != "" && id !in s.table && s.deliveries == map[]
    ensures var u := Run(c, s, actions);
            && u.table == s.table[id := ACCEPTED] && u.deliveries == map[] && u.tick == s.tick
            && u.log == s.log + Heard(c, [RequestAcknowledged(id, "m", c.pluginId)]) && id in u.hist.acked
  {
    var req := SubmissionExists(c, id);
    CompletedLeavesAccepted(c, s, req, id);
    actions := Completed(c, req);
  }

  // ---------- a crowd ahead ----------

  // "a", "aa", "aaa", ...: one before the next.
  function Id(n: nat): (id: string)
    ensures |id| == n
  {
    if n == 0 then "" else ['a'] + Id(n - 1)
  }

  lemma {:induction false} IdsAscend(m: nat, n: nat)
    requires m < n
    ensures TextLess(Id(m), Id(n))
  {
    if m > 0 {
      IdsAscend(m - 1, n - 1);
      assert Id(m)[1..] == Id(m - 1) && Id(n)[1..] == Id(n - 1);
    }
  }

  function Crowd(n: nat): set<string> {
    if n == 0 then {} else Crowd(n - 1) + {Id(n)}
  }

  lemma {:induction false} CrowdSize(n: nat)
    ensures |Crowd(n)| == n && forall id :: id in Crowd(n) ==> 0 < |id| <= n && id == Id(|id|)
  {
    if n > 0 {
      CrowdSize(n - 1);
    }
  }

  lemma NewInCrowd(n: nat)
    requires n > 0
    ensures Id(n) != "" && Id(n) !in Crowd(n - 1) && Crowd(n) == Crowd(n - 1) + {Id(n)}
  {
    CrowdSize(n - 1);
  }

  // Only these requests are there, and they wait.
  ghost predicate Crowded(s: State, ids: set<string>) {
    && s.tick.None? && s.deliveries == map[] && s.table.Keys == ids
    && forall id :: id in s.table ==> s.table[id] == WAITING
  }

  lemma CrowdGrows(s: State, u: State, ids: set<string>, id: string)
    requires Crowded(s, ids) && u.table == s.table[id := WAITING] && u.deliveries == map[] && u.tick.None?
    ensures Crowded(u, ids + {id})
  {
  }

  lemma OneMoreWaits(c: Config, s: State, ids: set<string>, id: string) returns (u: State, actions: seq<Action>)
    requires Addressable(c) && Crowded(s, ids) && id != "" && id !in ids
    ensures u == Run(c, s, actions) && Crowded(u, ids + {id})
  {
    actions := SomeInterrupted(c, s, id);
    u := Run(c, s, actions);
    CrowdGrows(s, u, ids, id);
  }

  lemma NextArrives(c: Config, s: State, n: nat, mid: State, before: seq<Action>)
    returns (u: State, actions: seq<Action>)
    requires Addressable(c) && n > 0 && mid == Run(c, s, before) && Crowded(mid, Crowd(n - 1))
    ensures u == Run(c, s, actions) && Crowded(u, Crowd(n))
  {
    NewInCrowd(n);
    u, actions := OneMoreWaits(c, mid, Crowd(n - 1), Id(n));
    RunAppend(c, s, before, actions);
    actions := before + actions;
  }

  lemma CrowdArrives(c: Config, s: State, n: nat) returns (u: State, actions: seq<Action>)
    requires Addressable(c) && Crowded(s, {})
    ensures u == Run(c, s, actions) && Crowded(u, Crowd(n))
  {
    u, actions := s, [];
    for k := 0 to n
      invariant u == Run(c, s, actions) && Crowded(u, Crowd(k))
    {
      u, actions := NextArrives(c, s, k + 1, u, actions);
    }
  }

  lemma WaitsAhead(t: Table, id: string, n: nat)
    requires id in t && t[id] == WAITING && |id| <= n && id == Id(|id|)
    requires Id(n + 1) in t && t[Id(n + 1)] == ACCEPTED
    ensures id in UnsubmittedAhead(t, Id(n + 1))
  {
    IdsAscend(|id|, n + 1);
  }

  // The accepted row comes after a crowd of waiting ones.
  lemma CrowdIsAhead(t: Table, n: nat)
    requires Id(n + 1) in t && t[Id(n + 1)] == ACCEPTED
    requires forall id :: id in Crowd(n) ==> id in t && t[id] == WAITING
    ensures Pollable(t, Id(n + 1)) && |UnsubmittedAhead(t, Id(n + 1))| >= n
  {
    CrowdSize(n);
    forall id | id in Crowd(n) ensures id in UnsubmittedAhead(t, Id(n + 1)) {
      WaitsAhead(t, id, n);
    }
    S.SubsetCardinality(Crowd(n), UnsubmittedAhead(t, Id(n + 1)));
  }

  // The request with the next id is acked and waits behind n unsubmitted ones.
  ghost predicate WaitsBehind(s: State, n: nat) {
    && Id(n + 1) in s.hist.acked && s.tick.None? && s.deliveries == map[]
    && Pollable(s.table, Id(n + 1)) && |UnsubmittedAhead(s.table, Id(n + 1))| >= n
  }

  lemma CrowdThenOne(s: State, u: State, n: nat)
    requires Crowded(s, Crowd(n)) && u.table == s.table[Id(n + 1) := ACCEPTED]
    requires u.deliveries == map[] && u.tick.None? && Id(n + 1) in u.hist.acked
    ensures WaitsBehind(u, n)
  {
    CrowdSize(n);
    CrowdIsAhead(u.table, n);
  }

  lemma OneIsAccepted(c: Config, s: State, n: nat) returns (actions: seq<Action>)
    requires Addressable(c) && Crowded(s, Crowd(n))
    ensures WaitsBehind(Run(c, s, actions), n)
  {
    CrowdSize(n);
    actions := SomeCompleted(c, s, Id(n + 1));
    CrowdThenOne(s, Run(c, s, actions), n);
  }

  // No run of ticks from this table polls r.
  ghost predicate NeverPolled(c: Config, t: Table, r: string) {
    forall tables, turns :: IsRun(tables, turns, c.batch, c.pluginId) && tables[0] == t ==>
                              !PolledWithin(tables, turns, c.batch, r, |turns|)
  }

  lemma CrowdedOut(c: Config, t: Table, r: string)
    requires Pollable(t, r) && |UnsubmittedAhead(t, r)| >= S.EffectiveLimit(c.batch)
    ensures NeverPolled(c, t, r)
  {
    forall tables, turns | IsRun(tables, turns, c.batch, c.pluginId) && tables[0] == t
      ensures !PolledWithin(tables, turns, c.batch, r, |turns|)
    {
      StarvedForever(tables, turns, c.batch, c.pluginId, r, |turns|);
    }
  }

  // For every batch size: as many deliveries that crash after their first write, and then one
  // acked request that no tick will ever ask upstream about.
  lemma StarvationIsReachable(c: Config) returns (actions: seq<Action>, r: string)
    requires Addressable(c)
    ensures var s := Reached(c, actions);
            && r in s.hist.acked && s.tick.None? && s.deliveries == map[]
            && Pollable(s.table, r) && |UnsubmittedAhead(s.table, r)| >= S.EffectiveLimit(c.batch)
            && NeverPolled(c, s.table, r)
  {
    var n := S.EffectiveLimit(c.batch);
    var crowded, before := CrowdArrives(c, INITIAL, n);
    var last := OneIsAccepted(c, crowded, n);
    RunAppend(c, INITIAL, before, last);
    actions, r := before + last, Id(n + 1);
    CrowdedOut(c, Reached(c, actions).table, r);
  }

  // ---------- a lost event ----------

  lemma OneRowListing(t: Table, id: string, limit: int)
    requires t.Keys == {id} && !t[id].status.Terminal()
    ensures S.Listing(t, limit) == [S.AsListed(id, t[id])]
  {
    assert S.NonTerminalIds(t) == {id};
    var ids := S.ListedIds(t, limit);
    S.SelectionIsEmpty(t, {id}, S.EffectiveLimit(limit), ids);
    S.SelectionRest(t, {id}, S.EffectiveLimit(limit), ids);
    S.SelectionIsEmpty(t, {id} - {ids[0]}, S.EffectiveLimit(limit) - 1, ids[1..]);
    assert ids == [ids[0]] + ids[1..];
  }

  // A tick that learns that its one row is imported, records it and crashes.
  function Struck(row: ForwardedRequest, reply: Reply): seq<Action> {
    [StartTick([row]), Poll(reply), WriteRow(1, 1, Committed), CrashTick]
  }

  lemma RunFour(c: Config, s: State, x: Action, y: Action, z: Action, w: Action)
    ensures Run(c, s, [x, y, z, w]) == Step(c, Step(c, Step(c, Step(c, s, x), y), z), w)
  {
    RunThree(c, s, x, y, z);
    RunThen(c, s, [x, y, z], w);
    assert [x, y, z] + [w] == [x, y, z, w];
  }

  lemma StruckRun(c: Config, s: State, row: ForwardedRequest, reply: Reply)
    ensures Run(c, s, Struck(row, reply)) ==
            CrashTickStep(WriteRowStep(c, PollStep(StartTickStep(c, s, [row]), reply), 1, 1, Committed))
  {
    RunFour(c, s, StartTick([row]), Poll(reply), WriteRow(1, 1, Committed), CrashTick);
  }

  lemma StartedIsStruck(c: Config, s: State, id: string)
    requires s.tick == Some(TickState([S.AsListed(id, ACCEPTED)], AtRow)) && s.table == map[id := ACCEPTED]
    ensures var u := CrashTickStep(WriteRowStep(c, PollStep(s, Snapshot("b", BwImported)), 1, 1, Committed));
            && u.tick.None? && u.log == s.log && id in u.table && u.table[id].status.Imported?
            && RequestFulfilled(id, "m", c.pluginId, "b") in u.hist.lost
  {
    var row := S.AsListed(id, ACCEPTED);
    var replied := PollStep(s, Snapshot("b", BwImported));
    assert replied.tick == Some(TickState([row], Replied(Snapshot("b", BwImported))));
    var written := WriteRowStep(c, replied, 1, 1, Committed);
    assert written.tick == Some(TickState([row], Publishing(RequestFulfilled(id, "m", c.pluginId, "b"))));
  }

  lemma StruckTickImports(c: Config, s: State, id: string)
    requires s.tick.None? && s.table == map[id := ACCEPTED]
    ensures var u := Run(c, s, Struck(S.AsListed(id, ACCEPTED), Snapshot("b", BwImported)));
            && u.tick.None? && u.log == s.log && id in u.table && u.table[id].status.Imported?
            && RequestFulfilled(id, "m", c.pluginId, "b") in u.hist.lost
  {
    var row := S.AsListed(id, ACCEPTED);
    OneRowListing(s.table, id, c.batch);
    StruckRun(c, s, row, Snapshot("b", BwImported));
    StartedIsStruck(c, s.(tick := Some(TickState([row], AtRow))), id);
  }

  // The request was acked and imported, and no fulfilment of it is published in any continuation.
  ghost predicate FulfilmentLost(c: Config, actions: seq<Action>, id: string) {
    var s := Reached(c, actions);
    && id in s.hist.acked && id in s.table && s.table[id].status.Imported?
    && forall later :: TerminalEvents(Reached(c, actions + later).log, id) == 0
  }

  lemma QuietMeansLost(c: Config, actions: seq<Action>, id: string)
    requires var s := Reached(c, actions);
             && id in s.hist.acked && s.tick.None? && id in s.table && s.table[id].status.Imported?
             && TerminalEvents(s.log, id) == 0
    ensures FulfilmentLost(c, actions, id)
  {
    forall later ensures TerminalEvents(Reached(c, actions + later).log, id) == 0 {
      RunAppend(c, INITIAL, actions, later);
      EndedStaysSilent(c, Reached(c, actions), later, id);
    }
  }

  lemma StruckAfterAck(c: Config, first: seq<Action>, id: string) returns (actions: seq<Action>)
    requires var s := Reached(c, first);
             && s.tick.None? && s.table == map[id := ACCEPTED] && id in s.hist.acked && TerminalEvents(s.log, id) == 0
    ensures FulfilmentLost(c, actions, id)
  {
    var s, last := Reached(c, first), Struck(S.AsListed(id, ACCEPTED), Snapshot("b", BwImported));
    StruckTickImports(c, s, id);
    RunExtends(c, s, last);
    RunAppend(c, INITIAL, first, last);
    actions := first + last;
    QuietMeansLost(c, actions, id);
  }

  lemma FirstOfAll(c: Config, s: State, u: State, id: string)
    requires s.table == map[] && s.log == []
    requires u.table == s.table[id := ACCEPTED] && u.log == s.log + Heard(c, [RequestAcknowledged(id, "m", c.pluginId)])
    ensures u.table == map[id := ACCEPTED] && TerminalEvents(u.log, id) == 0
  {
    LogGrows(s.log, RequestAcknowledged(id, "m", c.pluginId), id);
  }

  lemma FulfilmentCanBeLost(c: Config) returns (actions: seq<Action>, id: string)
    requires Addressable(c)
    ensures FulfilmentLost(c, actions, id)
  {
    id := "a";
    var first := SomeCompleted(c, INITIAL, id);
    FirstOfAll(c, INITIAL, Reached(c, first), id);
    actions := StruckAfterAck(c, first, id);
  }

  // ---------- a loss without a crash ----------

  const FAILED := Row(None, Failed, None, Some("do: eof"), false, 1)

  // Upstream refuses, and the write that records it takes effect but is reported as failed.
  const UNREPORTED := DeliveryInput(Committed, 1, NoResponse("eof"), CommittedUnreported, 1, Taking)

  lemma UnreportedRefuses(t: Table, id: string)
    requires id !in t
    ensures !Acked(UNREPORTED) && TableAfterDelivery(t, id, false, UNREPORTED) == t[id := FAILED]
  {
    assert UNREPORTED.Receipt() == Refused("do: eof");
    assert ApplyFaulty(t, id, SubmittedWrite(false, 1), Committed) == t[id := WAITING];
  }

  lemma FailedStaysFailed(t: Table, id: string)
    requires id in t && t[id] == FAILED
    ensures var u := TableAfterDelivery(t, id, false, WELL); id in u && u[id].status.Failed?
    ensures Acked(WELL) && WELL.Receipt() == Accepted("m")
  {
  }

  predicate NoCrash(actions: seq<Action>) {
    forall i :: 0 <= i < |actions| ==> !actions[i].CrashDelivery? && !actions[i].CrashTick?
  }

  // The row failed, nobody was told, and nothing is under way that would tell.
  ghost predicate SilentlyFailed(s: State, id: string) {
    s.table == map[id := FAILED] && s.log == [] && s.deliveries == map[] && s.tick.None?
  }

  lemma UnreportedLeavesFailed(c: Config, s: State, req: EventRequest, id: string)
    returns (u: State, actions: seq<Action>)
    requires Submits(c, req, id) && s.table == map[] && s.log == [] && s.deliveries == map[] && s.tick.None?
    ensures u == Run(c, s, actions) && SilentlyFailed(u, id) && NoCrash(actions)
  {
    actions := DeliveryActions(0, Ready(c.pluginId), req, UNREPORTED);
    u := Run(c, s, actions);
    UnreportedRefuses(s.table, id);
    DeliveryIsAProtocolRun(c, s, 0, Ready(c.pluginId), req, UNREPORTED);
  }

  // The portal hears of an acknowledgement, if of anything, and the row has failed.
  ghost predicate WronglyAcknowledged(c: Config, s: State, id: string) {
    && id in s.table && s.table[id].status.Failed? && id in s.hist.acked && s.tick.None?
    && s.log == Heard(c, [RequestAcknowledged(id, "m", c.pluginId)])
  }

  lemma RedeliveryAcknowledges(c: Config, s: State, req: EventRequest, id: string)
    returns (u: State, actions: seq<Action>)
    requires Submits(c, req, id) && SilentlyFailed(s, id)
    ensures u == Run(c, s, actions) && WronglyAcknowledged(c, u, id) && NoCrash(actions)
  {
    actions := Completed(c, req);
    u := Run(c, s, actions);
    FailedStaysFailed(s.table, id);
    DeliveryIsAProtocolRun(c, s, 0, Ready(c.pluginId), req, WELL);
  }

  // No process stops, and yet a failure is lost: first the row has failed and the log is empty;
  // then the nacked event comes again, is accepted and acked, and the row is still failed.
  lemma FailureCanBeLostWithoutCrash(c: Config) returns (first: seq<Action>, second: seq<Action>, id: string)
    requires Addressable(c)
    ensures NoCrash(first) && NoCrash(second)
    ensures SilentlyFailed(Reached(c, first), id)
    ensures WronglyAcknowledged(c, Reached(c, first + second), id)
  {
    id := "a";
    var req := SubmissionExists(c, id);
    var s, u;
    s, first := UnreportedLeavesFailed(c, INITIAL, req, id);
    u, second := RedeliveryAcknowledges(c, s, req, id);
    RunAppend(c, INITIAL, first, second);
  }
}
