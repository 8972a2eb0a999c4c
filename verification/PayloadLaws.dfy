/**
 The event payload, said by its keys and values: who an event is for, which request it names, what
 is sent upstream about it, and the rows its delivery leaves.
 */
module PayloadLaws {
  import opened Wrappers
  import opened Requests
  import opened Consumer

  // The text under a key: empty when there is none, or something else than a text.
  function TextUnder(m: Payload, key: string): string {
    if key !in m then ""
    else match m[key]
      case Text(s) => s
      case _ => ""
  }

  // The white space of Unicode, by code point.
  lemma WhiteSpace(c: char)
    ensures IsSpace(c) <==>
            var n := c as int;
            || 9 <= n <= 13 || n == 32 || n == 0x85 || n == 0xA0 || n == 0x1680 || 0x2000 <= n <= 0x200A
            || n == 0x2028 || n == 0x2029 || n == 0x202F || n == 0x205F || n == 0x3000
  {
  }

  // ---------- who the event is for ----------

  // The first of the keys that is there decides.
  predicate Decides(m: Payload, first: string, second: string, third: string, pluginId: string) {
    var key := if first in m then first else if second in m then second else third;
    key in m && TrimSpace(TextUnder(m, key)) == pluginId
  }

  predicate IsFor(m: Payload, pluginId: string) {
    Decides(m, "target_plugin_id", "target_provider_plugin_id", "provider_plugin_id", pluginId)
  }

  function Deciding(m: Payload, keys: seq<string>): string
    requires |keys| == 3
  {
    if keys[0] in m then keys[0] else if keys[1] in m then keys[1] else keys[2]
  }

  lemma DecidingKey(m: Payload, keys: seq<string>)
    requires |keys| == 3
    ensures FirstTarget(m, keys) == TrimmedStringValue(m, Deciding(m, keys))
  {
    if i: nat :| i < 3 && FirstPresent(m, keys, i) {
      FirstPresentKeyDecides(m, keys, i);
    } else {
      assert !FirstPresent(m, keys, 0) && !FirstPresent(m, keys, 1) && !FirstPresent(m, keys, 2);
      NoKeyNoTarget(m, keys);
    }
  }

  lemma TrimmedUnder(m: Payload, key: string, text: string)
    ensures TrimmedStringValue(m, key) == Some(text) <==> key in m && TrimSpace(TextUnder(m, key)) == text
  {
  }

  lemma ThreeKeys(m: Payload, first: string, second: string, third: string, pluginId: string)
    ensures FirstTarget(m, [first, second, third]) == Some(pluginId) <==> Decides(m, first, second, third, pluginId)
  {
    var keys := [first, second, third];
    DecidingKey(m, keys);
    TrimmedUnder(m, Deciding(m, keys), pluginId);
  }

  lemma TargetByPayload(m: Payload, pluginId: string)
    ensures TargetPluginIdFromPayload(m) == Some(pluginId) <==> IsFor(m, pluginId)
  {
    ThreeKeys(m, "target_plugin_id", "target_provider_plugin_id", "provider_plugin_id", pluginId);
  }

  lemma RequestIdByPayload(m: Payload)
    ensures RequestIdFromPayload(m) ==
            if TextUnder(m, "request_id") != "" then TextUnder(m, "request_id") else TextUnder(m, "requestId")
  {
  }

  // What becomes of an event, in all cases and by its payload alone.
  lemma AdmissionByPayload(deps: Deps, req: EventRequest, id: string, autoMonitor: bool)
    ensures Admit(deps, req) == NotReady <==>
            req.name == "plugin.silo.ebooks.request_submitted" && req.payload.Some? && !deps.Ready?
    ensures Admit(deps, req) == Admitted(id, autoMonitor) <==>
            && req.name == "plugin.silo.ebooks.request_submitted" && req.payload.Some? && deps.Ready?
            && var m := req.payload.value;
               && IsFor(m, deps.pluginId) && id != ""
               && id == (if TextUnder(m, "request_id") != "" then TextUnder(m, "request_id")
                         else TextUnder(m, "requestId"))
               && (autoMonitor <==> "auto_monitor" in m && m["auto_monitor"] == Bool(true))
  {
    if req.payload.Some? && deps.Ready? {
      TargetByPayload(req.payload.value, deps.pluginId);
      RequestIdByPayload(req.payload.value);
    }
  }

  // ---------- what is sent upstream ----------

  lemma {:induction false} TextsAppend(a: seq<Value>, b: seq<Value>)
    ensures Texts(a + b) == Texts(a) + Texts(b)
  {
    if b == [] {
      assert a + b == a;
    } else {
      TextsAppend(a, b[..|b|-1]);
      assert (a + b)[..|a + b|-1] == a + b[..|b|-1];
    }
  }

  lemma OneValue(v: Value)
    ensures Texts([v]) == match v { case Text(s) => [s] case _ => [] }
  {
    assert [v][..0] == [];
  }

  // A list of texts is read as it is; anything else in it is skipped (TextsAppend and OneValue
  // say where).
  lemma {:induction false} TextsInOrder(xs: seq<string>)
    ensures Texts(seq(|xs|, i requires 0 <= i < |xs| => Text(xs[i]))) == xs
  {
    var items := seq(|xs|, i requires 0 <= i < |xs| => Text(xs[i]));
    if xs != [] {
      var before := xs[..|xs|-1];
      TextsInOrder(before);
      assert items[..|xs|-1] == seq(|before|, i requires 0 <= i < |before| => Text(before[i]));
    }
  }

  lemma RequestByPayload(m: Payload, autoMonitor: bool)
    ensures var r := RequestOf(m, autoMonitor);
            && r.title == TextUnder(m, "title") && r.isbn == TextUnder(m, "isbn")
            && r.formatPref == TextUnder(m, "format_pref") && r.autoMonitor == autoMonitor
            && (forall items :: "authors" in m && m["authors"] == List(items) ==> r.authors == Texts(items))
            && ("authors" !in m || !m["authors"].List? ==> r.authors == [])
  {
  }

  // ---------- the rows of a delivery ----------

  // An acked delivery of a new request leaves exactly this row.
  lemma NewRequestRow(t: Table, id: string, autoMonitor: bool, e: DeliveryInput)
    requires id !in t && e.submittedFault == Committed && e.outcomeFault == Committed
    ensures TableAfterDelivery(t, id, autoMonitor, e) ==
            t[id := if e.response.Body? && e.response.id != ""
                    then Row(Some(e.response.id), Acknowledged, None, None, autoMonitor, e.outcomeAt)
                    else Row(None, Failed, None, Some(e.Receipt().error), autoMonitor, e.outcomeAt)]
  {
    var submitted := ApplyFaulty(t, id, SubmittedWrite(autoMonitor, e.submittedAt), e.submittedFault);
    assert submitted == t[id := Row(None, Submitted, None, None, autoMonitor, e.submittedAt)];
  }

  // A delivery whose first write did not take effect leaves nothing; one that stops after it
  // leaves the submitted row.
  lemma InterruptedRequestRow(t: Table, id: string, autoMonitor: bool, e: DeliveryInput)
    requires id !in t && e.submittedFault != Committed
    ensures TableAfterDelivery(t, id, autoMonitor, e) ==
            if e.submittedFault == Dropped then t
            else t[id := Row(None, Submitted, None, None, autoMonitor, e.submittedAt)]
  {
  }
}
