/**
 internal/bookwarehouse/monitoring.go: the two calls to upstream's monitoring endpoint.

 What comes back over HTTP is an input. The model keeps the two guards the client applies to
 it, and the error text, which is never empty because every error is wrapped in a prefix.
 */
module Monitoring {

  datatype Transport =
    | NoRequest(cause: string)
    | NoResponse(cause: string)
    | Unread(cause: string)
    | HttpError(cause: string)
    | Undecodable(cause: string)
    | Body(id: string, status: string)

  // Upstream's status strings: the nine it is known to use, and any other text.
  datatype BwStatus =
    | BwQueued | BwMonitoring | BwFound | BwDownloading | BwGrabbing | BwImported | BwCompleted | BwFailed | BwError
    | BwOther(text: string)

  function ParseStatus(text: string): BwStatus {
    if text == "queued" then BwQueued
    else if text == "monitoring" then BwMonitoring
    else if text == "found" then BwFound
    else if text == "downloading" then BwDownloading
    else if text == "grabbing" then BwGrabbing
    else if text == "imported" then BwImported
    else if text == "completed" then BwCompleted
    else if text == "failed" then BwFailed
    else if text == "error" then BwError
    else BwOther(text)
  }

  datatype AnyReply = Unavailable(error: string) | Snapshot(id: string, status: BwStatus)

  // What GetMonitoring returns: an error with a text, or a snapshot with an id or a status.
  type Reply = r: AnyReply |
    (r.Unavailable? ==> r.error != "") && (r.Snapshot? ==> r.id != "" || r.status != BwOther(""))
    witness Unavailable("do: ")

  datatype AnyReceipt = Refused(error: string) | Accepted(id: string)

  // What AddMonitoring returns: an error with a text, or a non-empty monitoring id.
  type Receipt = r: AnyReceipt |
    (r.Refused? ==> r.error != "") && (r.Accepted? ==> r.id != "")
    witness Refused("do: ")

  function TransportError(t: Transport): (error: string)
    requires !t.Body?
    ensures |error| > |t.cause| && error[|error| - |t.cause|..] == t.cause
  {
    match t
    case NoRequest(cause) => "new request: " + cause
    case NoResponse(cause) => "do: " + cause
    case Unread(cause) => "read body: " + cause
    case HttpError(cause) => "upstream " + cause
    case Undecodable(cause) => "decode monitoring " + cause
  }

  function DecodeSnapshot(t: Transport): Reply {
    match t
    case Body(id, status) =>
      if id == "" && status == "" then Unavailable("monitoring snapshot: invalid response")
      else Snapshot(id, ParseStatus(status))
    case _ => Unavailable(TransportError(t))
  }

  function DecodeReceipt(t: Transport): Receipt {
    match t
    case Body(id, _) =>
      if id == "" then Refused("monitoring/add: upstream returned no id") else Accepted(id)
    case _ => Refused(TransportError(t))
  }

  datatype MonitoringRequest = MonitoringRequest(
    title: string, authors: seq<string>, isbn: string, formatPref: string, autoMonitor: bool)

  // The client, with a record of the calls it sent upstream.
  class Client {
    var added: seq<MonitoringRequest>
    var polled: seq<string>

    constructor ()
      ensures added == [] && polled == []
    {
      added, polled := [], [];
    }

    // Queue a request; the HTTP result is the parameter.
    method AddMonitoring(r: MonitoringRequest, response: Transport) returns (receipt: Receipt)
      modifies this`added
      ensures receipt == DecodeReceipt(response)
      ensures receipt.Accepted? <==> response.Body? && response.id != ""
      ensures receipt.Accepted? ==> receipt.id == response.id
      ensures added == old(added) + [r]
    {
      added := added + [r];
      if !response.Body? {
        return Refused(TransportError(response));
      }
      if response.id == "" {
        return Refused("monitoring/add: upstream returned no id");
      }
      receipt := Accepted(response.id);
    }

    // Ask about a queued request.
    method GetMonitoring(externalId: string, response: Transport) returns (reply: Reply)
      modifies this`polled
      ensures reply == DecodeSnapshot(response)
      ensures reply.Snapshot? <==> response.Body? && (response.id != "" || response.status != "")
      ensures reply.Snapshot? ==> reply == Snapshot(response.id, ParseStatus(response.status))
      ensures polled == old(polled) + [externalId]
    {
      polled := polled + [externalId];
      if !response.Body? {
        return Unavailable(TransportError(response));
      }
      if response.id == "" && response.status == "" {
        return Unavailable("monitoring snapshot: invalid response");
      }
      reply := Snapshot(response.id, ParseStatus(response.status));
    }
  }
}

/**
 internal/event/publisher.go: the events the plugin publishes to the host.

 The log is every call of Publish. The host may not be bound or may fail to take the event;
 what it took is a part of the log, in order.
 */
module Events {
  import opened Requests

  // request_failed is published by the handler without an external id and by the tick with one.
  datatype Event =
    | RequestAcknowledged(requestId: string, externalId: string, provider: string)
    | SubmissionFailed(requestId: string, provider: string, reason: string)
    | RequestFulfilled(requestId: string, externalId: string, provider: string, bookId: string)
    | RequestFailed(requestId: string, externalId: string, provider: string, reason: string)
    | RequestStatusChanged(requestId: string, externalId: string, provider: string, status: Status)

  // How the host meets a published event.
  datatype Host = Unbound | Failing | Taking

  // What reaches the host of these events.
  function Received(events: seq<Event>, host: Host): seq<Event> {
    if host.Taking? then events else []
  }

  // part is what remains of the log when some events are dropped.
  predicate IsPart(part: seq<Event>, log: seq<Event>) {
    if log == [] then part == []
    else
      var before, last := log[..|log|-1], log[|log|-1];
      IsPart(part, before) || (part != [] && part[|part|-1] == last && IsPart(part[..|part|-1], before))
  }

  lemma PartGrows(part: seq<Event>, log: seq<Event>, e: Event)
    requires IsPart(part, log)
    ensures IsPart(part, log + [e]) && IsPart(part + [e], log + [e])
  {
    assert (log + [e])[..|log|] == log && (part + [e])[..|part|] == part;
  }

  class Publisher {
    ghost var log: seq<Event>
    var taken: seq<Event>

    ghost predicate Valid()
      reads this
    {
      IsPart(taken, log)
    }

    constructor ()
      ensures Valid() && log == [] && taken == []
    {
      log, taken := [], [];
    }

    // No error in any case: the plugin goes on as if the event had been delivered.
    method Publish(e: Event, host: Host)
      requires Valid()
      modifies this
      ensures Valid()
      ensures log == old(log) + [e]
      ensures taken == old(taken) + Received([e], host)
      ensures host == Taking ==> taken == old(taken) + [e]
      ensures host != Taking ==> taken == old(taken)
    {
      PartGrows(taken, log, e);
      log := log + [e];
      if host.Unbound? {
        return;
      }
      if host.Taking? {
        taken := taken + [e];
      }
    }
  }
}
