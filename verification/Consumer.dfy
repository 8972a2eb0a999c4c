/**
 internal/consumer/handler.go: one delivery of a portal event.

 HandleEvent makes up to two table writes with an upstream call between them, and acks or
 nacks. Each write can fail; a nack makes the host deliver the event again.
 */
module Consumer {
  import opened Wrappers
  import opened Requests
  import opened Monitoring
  import opened Events
  import S = Store

  // ---------- payload ----------

  datatype Value = Null | Bool(b: bool) | Number | Text(s: string) | List(items: seq<Value>) | Struct

  type Payload = map<string, Value>

  datatype EventRequest = EventRequest(name: string, payload: Option<Payload>)

  // unicode.IsSpace
  predicate IsSpace(c: char) {
    || c in {' ', '\t', '\n', '\r', '\U{000B}', '\U{000C}', '\U{0085}', '\U{00A0}', '\U{1680}', '\U{2028}', '\U{2029}'}
    || '\U{2000}' <= c <= '\U{200A}'
    || c in {'\U{202F}', '\U{205F}', '\U{3000}'}
  }

  function TrimLeft(s: string): (r: string)
    ensures r == [] || !IsSpace(r[0])
  {
    if s == [] || !IsSpace(s[0]) then s else TrimLeft(s[1..])
  }

  function TrimRight(s: string): (r: string)
    ensures r == [] || !IsSpace(r[|r|-1])
    ensures r <= s
  {
    if s == [] || !IsSpace(s[|s|-1]) then s else TrimRight(s[..|s|-1])
  }

  function TrimSpace(s: string): (r: string)
    ensures r == [] || (!IsSpace(r[0]) && !IsSpace(r[|r|-1]))
  {
    TrimRight(TrimLeft(s))
  }

  predicate AllSpace(s: string) {
    forall i :: 0 <= i < |s| ==> IsSpace(s[i])
  }

  lemma {:induction false} TrimmedLeft(s: string) returns (before: string)
    ensures s == before + TrimLeft(s) && AllSpace(before)
  {
    before := [];
    if s != [] && IsSpace(s[0]) {
      var rest := TrimmedLeft(s[1..]);
      before := [s[0]] + rest;
      assert s == [s[0]] + s[1..];
    }
  }

  lemma {:induction false} TrimmedRight(s: string) returns (after: string)
    ensures s == TrimRight(s) + after && AllSpace(after)
  {
    after := [];
    if s != [] && IsSpace(s[|s|-1]) {
      var rest := TrimmedRight(s[..|s|-1]);
      after := rest + [s[|s|-1]];
      assert s == s[..|s|-1] + [s[|s|-1]];
    }
  }

  // White space is all that is removed, and only at the ends.
  lemma OnlySpaceIsTrimmed(s: string) returns (before: string, after: string)
    ensures s == before + TrimSpace(s) + after && AllSpace(before) && AllSpace(after)
  {
    before := TrimmedLeft(s);
    after := TrimmedRight(TrimLeft(s));
    assert before + (TrimSpace(s) + after) == before + TrimSpace(s) + after;
  }

  const TARGET_KEYS: seq<string> := ["target_plugin_id", "target_provider_plugin_id", "provider_plugin_id"]

  // The text under a key, trimmed; a value that is not text counts as the empty text.
  function TrimmedStringValue(m: Payload, key: string): Option<string> {
    if key !in m then None
    else match m[key]
      case Text(s) => Some(TrimSpace(s))
      case _ => Some("")
  }

  function FirstTarget(m: Payload, keys: seq<string>): Option<string> {
    if keys == [] then None
    else
      var target := TrimmedStringValue(m, keys[0]);
      if target.Some? then target else FirstTarget(m, keys[1..])
  }

  function TargetPluginIdFromPayload(m: Payload): Option<string> {
    FirstTarget(m, TARGET_KEYS)
  }

  function StringField(m: Payload, key: string): string {
    if key in m && m[key].Text? then m[key].s else ""
  }

  function RequestIdFromPayload(m: Payload): string {
    if StringField(m, "request_id") != "" then StringField(m, "request_id") else StringField(m, "requestId")
  }

  function AutoMonitorField(m: Payload): bool {
    "auto_monitor" in m && m["auto_monitor"].Bool? && m["auto_monitor"].b
  }

  function Texts(items: seq<Value>): seq<string> {
    if items == [] then []
    else Texts(items[..|items|-1]) + if items[|items|-1].Text? then [items[|items|-1].s] else []
  }

  function StringSlice(m: Payload, key: string): seq<string> {
    if key in m && m[key].List? then Texts(m[key].items) else []
  }

  method StringSliceField(m: Payload, key: string) returns (out: seq<string>)
    ensures out == StringSlice(m, key)
  {
    out := [];
    if key !in m || !m[key].List? {
      return;
    }
    var items := m[key].items;
    for i := 0 to |items|
      invariant out == Texts(items[..i])
    {
      assert items[..i + 1][..i] == items[..i];
      if items[i].Text? {
        out := out + [items[i].s];
      }
    }
    assert items[..|items|] == items;
  }

  // What is sent upstream.
  function RequestOf(p: Payload, autoMonitor: bool): MonitoringRequest {
    MonitoringRequest(StringField(p, "title"), StringSlice(p, "authors"), StringField(p, "isbn"),
                      StringField(p, "format_pref"), autoMonitor)
  }

  // A target key decides as soon as it is present, even when its value is malformed: the text
  // under a later key is never looked at.
  lemma {:induction false} FirstPresentKeyDecides(m: Payload, keys: seq<string>, i: nat)
    requires i < |keys| && keys[i] in m && forall j :: 0 <= j < i ==> keys[j] !in m
    ensures FirstTarget(m, keys) == TrimmedStringValue(m, keys[i])
    decreases i
  {
    if i > 0 {
      assert keys[0] !in m;
      FirstPresentKeyDecides(m, keys[1..], i - 1);
    }
  }

  lemma {:induction false} NoKeyNoTarget(m: Payload, keys: seq<string>)
    requires forall i :: 0 <= i < |keys| ==> keys[i] !in m
    ensures FirstTarget(m, keys).None?
  {
    if keys != [] {
      NoKeyNoTarget(m, keys[1..]);
    }
  }

  // ---------- admission ----------

  const REQUEST_SUBMITTED := "plugin.silo.ebooks.request_submitted"

  // What the capability server finds when it asks for its dependencies.
  datatype Deps = NoDepsFunction | NotConfigured | MissingDependency | Ready(pluginId: string)

  // Ignored events are acked without effect; NotReady ones are nacked.
  datatype Admission = Ignored | NotReady | Admitted(requestId: string, autoMonitor: bool)

  function Admit(deps: Deps, req: EventRequest): (r: Admission)
    ensures r.Admitted? ==> r.requestId != ""
  {
    if req.name != REQUEST_SUBMITTED then Ignored
    else if req.payload.None? then Ignored
    else if !deps.Ready? then NotReady
    else
      var p := req.payload.value;
      if TargetPluginIdFromPayload(p) != Some(deps.pluginId) then Ignored
      else if RequestIdFromPayload(p) == "" then Ignored
      else Admitted(RequestIdFromPayload(p), AutoMonitorField(p))
  }

  // ---------- the writes ----------

  function SubmittedWrite(autoMonitor: bool, stamp: Instant): Write {
    Upsert(Row(None, Submitted, None, None, autoMonitor, stamp))
  }

  // The second write: what became of the submission.
  function OutcomeWrite(receipt: Receipt, autoMonitor: bool, stamp: Instant): Write {
    match receipt
    case Refused(error) => Upsert(Row(None, Failed, None, Some(error), autoMonitor, stamp))
    case Accepted(id) => Upsert(Row(Some(id), Acknowledged, None, None, autoMonitor, stamp))
  }

  function OutcomeEvent(requestId: string, receipt: Receipt, pluginId: string): Event {
    match receipt
    case Refused(error) => SubmissionFailed(requestId, pluginId, error)
    case Accepted(id) => RequestAcknowledged(requestId, id, pluginId)
  }

  // The inputs of one delivery: how the two writes ended, their clock readings, upstream's
  // response and how the host took the event.
  datatype DeliveryInput = DeliveryInput(
    submittedFault: Fault, submittedAt: Instant, response: Transport,
    outcomeFault: Fault, outcomeAt: Instant, host: Host)
  {
    function Receipt(): Receipt {
      DecodeReceipt(response)
    }
  }

  // How far a delivery got before it returned.
  predicate Acked(e: DeliveryInput) {
    e.submittedFault.Committed? && e.outcomeFault.Committed?
  }

  // What a delivery publishes.
  function DeliveryEvents(requestId: string, pluginId: string, e: DeliveryInput): seq<Event> {
    if Acked(e) then [OutcomeEvent(requestId, e.Receipt(), pluginId)] else []
  }

  function TableAfterDelivery(t: Table, requestId: string, autoMonitor: bool, e: DeliveryInput): Table {
    var submitted := ApplyFaulty(t, requestId, SubmittedWrite(autoMonitor, e.submittedAt), e.submittedFault);
    if e.submittedFault.Reported() then submitted
    else ApplyFaulty(submitted, requestId, OutcomeWrite(e.Receipt(), autoMonitor, e.outcomeAt), e.outcomeFault)
  }

  class Handler {
    const store: S.Store
    const pub: Publisher?
    const bw: Client
    const deps: Deps

    ghost predicate Valid()
      reads this, store, pub
    {
      store.Valid() && (pub != null ==> pub.Valid())
    }

    constructor (store: S.Store, pub: Publisher?, bw: Client, deps: Deps)
      requires store.Valid() && (pub != null ==> pub.Valid())
      ensures Valid()
      ensures this.store == store && this.pub == pub && this.bw == bw && this.deps == deps
    {
      this.store, this.pub, this.bw, this.deps := store, pub, bw, deps;
    }

    // ok is an ack, !ok a nack.
    method HandleEvent(req: EventRequest, e: DeliveryInput) returns (ok: bool)
      requires Valid()
      modifies store, bw`added, pub
      ensures Valid()
      // While the dependencies are missing a submission is nacked without effect, whoever it is for.
      ensures req.name == "plugin.silo.ebooks.request_submitted" && req.payload.Some? && !deps.Ready? ==>
                && !ok && store.table == old(store.table) && bw.added == old(bw.added)
                && (pub != null ==> pub.log == old(pub.log) && pub.taken == old(pub.taken))
      ensures req.name != "plugin.silo.ebooks.request_submitted" || req.payload.None? ==> ok
      // So what a configured plugin would forward is never acked and dropped.
      ensures forall pluginId :: !deps.Ready? && Admit(Ready(pluginId), req).Admitted? ==> !ok
      ensures var admission := Admit(deps, req);
              && (!admission.Admitted? ==>
                    && store.table == old(store.table) && bw.added == old(bw.added)
                    && (pub != null ==> pub.log == old(pub.log) && pub.taken == old(pub.taken))
                    && ok == admission.Ignored?)
              && (admission.Admitted? ==>
                    && store.table ==
                       TableAfterDelivery(old(store.table), admission.requestId, admission.autoMonitor, e)
                    && bw.added == old(bw.added) + (if e.submittedFault.Reported() then []
                                                    else [RequestOf(req.payload.value, admission.autoMonitor)])
                    && (pub != null ==>
                          var events := DeliveryEvents(admission.requestId, deps.pluginId, e);
                          pub.log == old(pub.log) + events && pub.taken == old(pub.taken) + Received(events, e.host))
                    && ok == Acked(e))
    {
      if req.name != REQUEST_SUBMITTED {
        return true;
      }
      if req.payload.None? {
        return true;
      }
      if !deps.Ready? {
        return false;
      }
      var p := req.payload.value;
      var target := TargetPluginIdFromPayload(p);
      if target != Some(deps.pluginId) {
        return true;
      }
      var requestId := RequestIdFromPayload(p);
      if requestId == "" {
        return true;
      }
      ok := Forward(p, requestId, AutoMonitorField(p), e);
    }

    // The admitted part: persist, submit, persist, publish.
    method Forward(p: Payload, requestId: string, autoMonitor: bool, e: DeliveryInput) returns (ok: bool)
      requires Valid() && requestId != "" && deps.Ready?
      modifies store, bw`added, pub
      ensures Valid()
      ensures store.table == TableAfterDelivery(old(store.table), requestId, autoMonitor, e)
      ensures e.submittedFault.Reported() ==> bw.added == old(bw.added)
      ensures !e.submittedFault.Reported() ==>
                bw.added == old(bw.added) + [RequestOf(p, autoMonitor)]
      ensures pub != null ==>
                var events := DeliveryEvents(requestId, deps.pluginId, e);
                pub.log == old(pub.log) + events && pub.taken == old(pub.taken) + Received(events, e.host)
      ensures ok == Acked(e)
    {
      var err := store.UpsertForwardedRequest(
        ForwardedRequest(requestId, "", Submitted, 0, "", autoMonitor, e.submittedAt), e.submittedAt, e.submittedFault);
      if err.Some? {
        return false;
      }
      var authors := StringSliceField(p, "authors");
      var mreq := MonitoringRequest(StringField(p, "title"), authors, StringField(p, "isbn"),
                                    StringField(p, "format_pref"), autoMonitor);
      var resp := bw.AddMonitoring(mreq, e.response);
      if resp.Refused? {
        var perr := store.UpsertForwardedRequest(
          ForwardedRequest(requestId, "", Failed, 0, resp.error, autoMonitor, e.outcomeAt),
          e.outcomeAt, e.outcomeFault);
        if perr.Some? {
          return false;
        }
        if pub != null {
          pub.Publish(SubmissionFailed(requestId, deps.pluginId, resp.error), e.host);
        }
        return true;
      }
      var perr := store.UpsertForwardedRequest(
        ForwardedRequest(requestId, resp.id, Acknowledged, 0, "", autoMonitor, e.outcomeAt),
        e.outcomeAt, e.outcomeFault);
      if perr.Some? {
        return false;
      }
      if pub != null {
        pub.Publish(RequestAcknowledged(requestId, resp.id, deps.pluginId), e.host);
      }
      return true;
    }
  }

  ghost predicate FirstPresent(m: Payload, keys: seq<string>, i: nat) {
    i < |keys| && keys[i] in m && forall j :: 0 <= j < i ==> keys[j] !in m
  }

  lemma {:induction false} FindFirstPresent(m: Payload, keys: seq<string>, k: nat) returns (i: nat)
    requires k < |keys| && keys[k] in m
    ensures FirstPresent(m, keys, i)
  {
    i := 0;
    while keys[i] !in m
      invariant i <= k && forall j :: 0 <= j < i ==> keys[j] !in m
      decreases k - i
    {
      i := i + 1;
    }
  }

  lemma TargetExactlyWhen(m: Payload, keys: seq<string>, pluginId: string)
    ensures FirstTarget(m, keys) == Some(pluginId) <==>
            exists i: nat :: FirstPresent(m, keys, i) && TrimmedStringValue(m, keys[i]) == Some(pluginId)
  {
    if k: nat :| k < |keys| && keys[k] in m {
      var i := FindFirstPresent(m, keys, k);
      FirstPresentKeyDecides(m, keys, i);
      forall j: nat | FirstPresent(m, keys, j) ensures j == i {}
    } else {
      NoKeyNoTarget(m, keys);
    }
  }

  // When an event is forwarded at all, in terms of the payload's keys: the first target key
  // present names this plugin, and one of the two request id keys holds a non-empty text.
  lemma AdmittedExactlyWhen(deps: Deps, name: string, m: Payload)
    requires deps.Ready?
    ensures Admit(deps, EventRequest(name, Some(m))).Admitted? <==>
            && name == REQUEST_SUBMITTED
            && (exists i: nat :: FirstPresent(m, TARGET_KEYS, i) &&
                                 TrimmedStringValue(m, TARGET_KEYS[i]) == Some(deps.pluginId))
            && (StringField(m, "request_id") != "" || StringField(m, "requestId") != "")
  {
    TargetExactlyWhen(m, TARGET_KEYS, deps.pluginId);
  }
}
