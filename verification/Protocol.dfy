/**
 The whole protocol as a transition system.

 Any number of deliveries run at the same time, each somewhere between its steps; at most one
 tick runs (the mutex), somewhere in its list, which may be out of date. One action is one
 atomic step of one of them: a statement on the table, an upstream call, a publish, an ack.
 Upstream's answers, the clock, how each statement ends, where a process crashes and when a
 context expires are the parameters of the actions, so a run is any sequence of actions.
 Actions that are not enabled do nothing.

 The history records what the theorems speak about and no step reads.
 */
module Protocol {
  import opened Wrappers
  import opened Requests
  import opened Monitoring
  import opened Events
  import opened Reconciler
  import opened Consumer
  import S = Store

  // The plugin's id, the limit of the poll list, and whether the handler has a publisher: it may
  // be set up without one, the tick may not.
  datatype Config = Config(pluginId: string, batch: int, publishes: bool)

  // Where a delivery stands: before its first write, before the upstream call, before its
  // second write, before the publish, before the ack.
  datatype HandlerPc = Received | Recorded | Answered(receipt: Receipt) | Saved(receipt: Receipt) | Announced

  datatype Delivery = Delivery(requestId: string, autoMonitor: bool, pc: HandlerPc)

  // Where the tick stands with the first of its remaining rows.
  datatype TickPc = AtRow | Replied(reply: Reply) | Publishing(event: Event)

  datatype TickState = TickState(rows: seq<ForwardedRequest>, pc: TickPc)

  // One answer of GetMonitoring: the monitoring id asked about, the id and the status returned.
  datatype Report = Report(externalId: string, id: string, status: BwStatus)

  datatype History = History(
    writes: seq<(string, Write)>,            // statements that took effect
    issued: set<(string, string)>,           // (request id, monitoring id) returned by AddMonitoring
    refused: set<string>,                    // request ids whose submission upstream refused
    reports: set<Report>,                    // answers of GetMonitoring
    errors: set<(string, string)>,           // (request id, error) returned by AddMonitoring or GetMonitoring
    acked: set<string>,                      // request ids of acked deliveries
    markErrors: multiset<string>,            // request ids of MarkPolled calls that returned an error
    marked: set<string>,                     // request ids MarkPolled made terminal without error
    lost: set<Event>)                        // events of a write that took effect, never to be published

  datatype State = State(
    table: Table,
    log: seq<Event>,
    deliveries: map<nat, Delivery>,
    tick: Option<TickState>,
    hist: History)

  datatype Action =
    | Deliver(key: nat, deps: Deps, req: EventRequest)
    | SaveSubmitted(key: nat, stamp: Instant, fault: Fault)
    | Submit(key: nat, receipt: Receipt)
    | SaveOutcome(key: nat, stamp: Instant, fault: Fault)
    | Announce(key: nat)
    | Ack(key: nat)
    | CrashDelivery(key: nat)
    | StartTick(rows: seq<ForwardedRequest>)
    | SkipRow
    | Poll(reply: Reply)
    | WriteRow(polledAt: Instant, stampedAt: Instant, fault: Fault)
    | PublishRow
    | EndTick
    | CrashTick

  const EMPTY_HISTORY := History([], {}, {}, {}, {}, {}, multiset{}, {}, {})

  const INITIAL := State(map[], [], map[], None, EMPTY_HISTORY)

  // ---------- steps ----------

  // One statement, recorded when it takes effect.
  function WriteTo(s: State, id: string, w: Write, fault: Fault): State {
    s.(table := ApplyFaulty(s.table, id, w, fault),
       hist := if fault.Applied() then s.hist.(writes := s.hist.writes + [(id, w)]) else s.hist)
  }

  function At(s: State, key: nat, pc: HandlerPc): State
    requires key in s.deliveries
  {
    s.(deliveries := s.deliveries[key := s.deliveries[key].(pc := pc)])
  }

  function Drop(s: State, key: nat): State {
    s.(deliveries := s.deliveries - {key})
  }

  // An event arrives; deliveries it does not concern end at once.
  function DeliverStep(c: Config, s: State, key: nat, deps: Deps, req: EventRequest): State {
    if key in s.deliveries || (deps.Ready? && deps.pluginId != c.pluginId) then s
    else
      match Admit(deps, req)
      case Admitted(id, auto) => s.(deliveries := s.deliveries[key := Delivery(id, auto, Received)])
      case _ => s
  }

  function SaveSubmittedStep(s: State, key: nat, stamp: Instant, fault: Fault): State {
    if key !in s.deliveries || !s.deliveries[key].pc.Received? then s
    else
      var d := s.deliveries[key];
      var written := WriteTo(s, d.requestId, SubmittedWrite(d.autoMonitor, stamp), fault);
      if fault.Reported() then Drop(written, key) else At(written, key, Recorded)
  }

  function SubmitStep(s: State, key: nat, receipt: Receipt): State {
    if key !in s.deliveries || !s.deliveries[key].pc.Recorded? then s
    else
      var id := s.deliveries[key].requestId;
      var h := s.hist;
      At(s.(hist := if receipt.Accepted? then h.(issued := h.issued + {(id, receipt.id)})
                    else h.(refused := h.refused + {id}, errors := h.errors + {(id, receipt.error)})),
         key, Answered(receipt))
  }

  function Lose(s: State, e: Event): State {
    s.(hist := s.hist.(lost := s.hist.lost + {e}))
  }

  function SaveOutcomeStep(c: Config, s: State, key: nat, stamp: Instant, fault: Fault): State {
    if key !in s.deliveries || !s.deliveries[key].pc.Answered? then s
    else
      var d := s.deliveries[key];
      var written := WriteTo(s, d.requestId, OutcomeWrite(d.pc.receipt, d.autoMonitor, stamp), fault);
      if fault.Committed? then At(written, key, Saved(d.pc.receipt))
      else if fault.Dropped? then Drop(written, key)
      else Drop(Lose(written, OutcomeEvent(d.requestId, d.pc.receipt, c.pluginId)), key)
  }

  function AnnounceStep(c: Config, s: State, key: nat): State {
    if key !in s.deliveries || !s.deliveries[key].pc.Saved? then s
    else
      var e := OutcomeEvent(s.deliveries[key].requestId, s.deliveries[key].pc.receipt, c.pluginId);
      At(if c.publishes then s.(log := s.log + [e]) else Lose(s, e), key, Announced)
  }

  function AckStep(s: State, key: nat): State {
    if key !in s.deliveries || !s.deliveries[key].pc.Announced? then s
    else Drop(s.(hist := s.hist.(acked := s.hist.acked + {s.deliveries[key].requestId})), key)
  }

  function CrashDeliveryStep(c: Config, s: State, key: nat): State {
    if key in s.deliveries && s.deliveries[key].pc.Saved? then
      Drop(Lose(s, OutcomeEvent(s.deliveries[key].requestId, s.deliveries[key].pc.receipt, c.pluginId)), key)
    else Drop(s, key)
  }

  // The tick takes the mutex and its list: the oldest non-terminal rows, possibly cut short.
  ghost function StartTickStep(c: Config, s: State, rows: seq<ForwardedRequest>): State {
    if s.tick.None? && rows <= S.Listing(s.table, c.batch) then s.(tick := Some(TickState(rows, AtRow))) else s
  }

  predicate TickAtRow(s: State) {
    s.tick.Some? && s.tick.value.pc.AtRow? && s.tick.value.rows != []
  }

  function NextRow(s: State): State
    requires s.tick.Some? && s.tick.value.rows != []
  {
    s.(tick := Some(TickState(s.tick.value.rows[1..], AtRow)))
  }

  function SkipRowStep(s: State): State {
    if TickAtRow(s) && s.tick.value.rows[0].externalId == "" then NextRow(s) else s
  }

  function PollStep(s: State, reply: Reply): State {
    if TickAtRow(s) && s.tick.value.rows[0].externalId != "" then
      var row := s.tick.value.rows[0];
      s.(tick := Some(s.tick.value.(pc := Replied(reply))),
         hist := if reply.Snapshot? then
                   s.hist.(reports := s.hist.reports + {Report(row.externalId, reply.id, reply.status)})
                 else s.hist.(errors := s.hist.errors + {(row.requestId, reply.error)}))
    else s
  }

  function WriteRowStep(c: Config, s: State, polledAt: Instant, stampedAt: Instant, fault: Fault): State {
    if s.tick.Some? && s.tick.value.pc.Replied? && s.tick.value.rows != [] then
      var row, reply := s.tick.value.rows[0], s.tick.value.pc.reply;
      var written := WriteTo(s, row.requestId, PollWrite(row, reply, polledAt, stampedAt), fault);
      var h := written.hist;
      var recorded := written.(hist :=
        if reply.Unavailable? then h
        else if fault.Reported() then h.(markErrors := h.markErrors + multiset{row.requestId})
        else if Settled(row, reply).Terminal() then h.(marked := h.marked + {row.requestId})
        else h);
      var events := TransitionEvent(row, reply, c.pluginId);
      if events == [] then NextRow(recorded)
      else recorded.(tick := Some(s.tick.value.(pc := Publishing(events[0]))))
    else s
  }

  function PublishRowStep(s: State): State {
    if s.tick.Some? && s.tick.value.pc.Publishing? && s.tick.value.rows != [] then
      NextRow(s.(log := s.log + [s.tick.value.pc.event]))
    else s
  }

  // The list is done or the context has expired: between rows in either case.
  function EndTickStep(s: State): State {
    if s.tick.Some? && s.tick.value.pc.AtRow? then s.(tick := None) else s
  }

  function CrashTickStep(s: State): State {
    if s.tick.Some? && s.tick.value.pc.Publishing? then Lose(s, s.tick.value.pc.event).(tick := None)
    else s.(tick := None)
  }

  ghost function Step(c: Config, s: State, a: Action): State {
    match a
    case Deliver(key, deps, req) => DeliverStep(c, s, key, deps, req)
    case SaveSubmitted(key, stamp, fault) => SaveSubmittedStep(s, key, stamp, fault)
    case Submit(key, receipt) => SubmitStep(s, key, receipt)
    case SaveOutcome(key, stamp, fault) => SaveOutcomeStep(c, s, key, stamp, fault)
    case Announce(key) => AnnounceStep(c, s, key)
    case Ack(key) => AckStep(s, key)
    case CrashDelivery(key) => CrashDeliveryStep(c, s, key)
    case StartTick(rows) => StartTickStep(c, s, rows)
    case SkipRow => SkipRowStep(s)
    case Poll(reply) => PollStep(s, reply)
    case WriteRow(polledAt, stampedAt, fault) => WriteRowStep(c, s, polledAt, stampedAt, fault)
    case PublishRow => PublishRowStep(s)
    case EndTick => EndTickStep(s)
    case CrashTick => CrashTickStep(s)
  }

  ghost function Run(c: Config, s: State, actions: seq<Action>): State {
    if actions == [] then s else Step(c, Run(c, s, actions[..|actions|-1]), actions[|actions|-1])
  }

  // The state after any interleaving whatsoever.
  ghost function Reached(c: Config, actions: seq<Action>): State {
    Run(c, INITIAL, actions)
  }

  lemma {:induction false} RunAppend(c: Config, s: State, a: seq<Action>, b: seq<Action>)
    ensures Run(c, s, a + b) == Run(c, Run(c, s, a), b)
  {
    if b == [] {
      assert a + b == a;
    } else {
      RunAppend(c, s, a, b[..|b|-1]);
      assert (a + b)[..|a + b|-1] == a + b[..|b|-1];
    }
  }
}
