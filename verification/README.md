# Verification of the BookWarehouse ebook plugin

The plugin forwards ebook requests from a portal to an upstream BookWarehouse server, follows
them until they are imported or failed, and lists upstream's catalogue. This project models the
two parts of it that carry state across calls, and proves what they promise.

**Forwarded requests.** A table keyed by request id is changed by any number of event deliveries
and by a reconciler, one SQL statement at a time.

- `Requests`, `Store`: the rows, the two write statements (an upsert and `MarkPolled`), the poll
  list and the counts. The class `Store` changes its table in place. Every write carries a
  `Fault`: it committed, it did not, or it did although the caller is told it failed.
- `RowHistory`: what any history of writes leaves in a row, without replaying it.
- `Monitoring`, `Events`: the two upstream calls with their guards, and the published events.
- `Reconciler`: `Tick`, with its mutex, its loop, its break and its first-error rule.
  `TickProperties` and `Fairness` say what one tick and any run of ticks do.
- `Consumer`: `HandleEvent`, from the raw payload to the ack or nack. `Redelivery`: what repeated
  deliveries of one event leave.
- `Protocol`: everything at once, as a transition system. One step is one statement, one upstream
  call, one publish, one ack or one crash; upstream's answers, the clock, faults and expiring
  contexts are parameters of the steps. `Invariants` and `Safety` hold for every interleaving, and
  for the stale list a tick works from; `Truthfulness` and `Announcements` say what a published
  event means and which events are published at all. `Runs` proves that `Tick`, any number of
  ticks, and `HandleEvent` are runs of this system.
- `CutLists`, `Scenarios`: where the code falls short of what is said about it, as runs that get
  there from the empty table, and as conditions for when it does not.

**The deduplicated catalogue.** `Keys` holds `normalizeKey` and `dedupKey`, `Dedup` what it means
to keep first occurrences, `Catalog` the methods `ListBooks` and `ListBooksDeduped`, `Pagination`
a client that follows cursors over many calls. `Decimal` has the integer printing and parsing that
cursors depend on.

`Wrappers`, `TextOrder` and `Arithmetic` hold a few general definitions.

Methods follow the source's own loops and early returns. Each is proved against a function of its
inputs (`AfterRows`, `TableAfterDelivery`, `FanOut`, `Merge`, ...), and the theorems are about that
function. `StoreLaws`, `PayloadLaws`, `QueryLaws` and `KeyLaws` say what the smaller of these
functions do by columns, payload keys, query parameters and characters, in the source's own literals.

## What the code does, where the words around it say otherwise

- Redelivery. docs/architecture.md:155 calls at-least-once redelivery safe. It is, unless one
  attempt recorded upstream's answer and a later one gets the opposite answer. Both directions go
  wrong. After a recorded refusal
  the row stays `failed` although the redelivery is accepted (`RecordedRefusalSticks`). After a
  recorded acceptance a refused redelivery makes the row `failed`, with the accepted id still in it
  (`RecordedAcceptanceIsOverwritten`), and no tick looks at a failed row (`EndedIsNeverPolled`).
  `RedeliveryConvergesIff` has the exact condition on the attempts, `StoredRowDecides` the same
  condition on the stored row: convergence needs it not to be failed if upstream is about to accept,
  and to have no external id if upstream is about to refuse.
- The tick. internal/reconciler/reconciler.go:48 says it processes all non-terminal rows. It lists
  200 of them, and the rows without an external id among those are skipped without a new
  `last_polled`, so they stay at the head of the list. `PolledIffHeadNotFull`: a row is polled
  exactly when fewer than 200 unsubmitted rows sort ahead of it. `StarvationIsReachable`: with any
  limit L, L deliveries that crash after their first write leave an acked request that no run of
  ticks polls.
- The listing. `ListNonTerminal` never reads `rows.Err()`, so a list cut short by a broken
  connection is returned as if it were complete (internal/store/request.go:162-170). The parameter
  `delivered` says where it was cut. `NothingMissedIff`: the tick reports success in any case, and
  has polled all it should have exactly when no row with an external id was cut off.
  `CutListGoesUnnoticed` is an instance.
- Events. docs/architecture.md:155-166 is about rows. Events come after them and are not written
  down, so between a write and its publish an event can be lost. `LostExactlyWhen` lists the ways:
  a tick or a delivery stops there, a delivery's last write takes effect but is reported as failed,
  or the handler has no publisher. `EveryEndIsTold`: a row that has ended was announced, is about to
  be, or its event was lost so. `FulfilmentCanBeLost` has a crash.
  `FailureCanBeLostWithoutCrash` has none: the failed write is nacked, the event is delivered again
  and accepted, and the portal is told "acknowledged" while the row stays `failed`.
  `FulfilledNowOrNever`: an imported row's fulfilment, with no tick in flight, is published later
  only if it has been already.
- The end of a listing. Without a page count from upstream, a page that is not full, or a request
  without a limit, ends the listing (internal/bookwarehouse/catalog.go:216-224).
  `PagesExactlyWhen`: the cursors enumerate the catalogue exactly when each answer tells correctly
  whether it is the last.
- Deduplication. The comment at internal/bookwarehouse/catalog.go:27-31 describes a key of ISBN or
  title and author, and a loop that stops at the first non-empty page. The code ignores the ISBN,
  adds series and index, and goes on until the requested size is reached.

## How the inputs are modelled

- `Status` is a datatype of the seven names plus any other text. Upstream's status texts go through
  `ParseStatus`. Times are naturals, 0 being Go's zero time; the clock never returns it.
- The order of request ids is lexicographic by character; it stands for the database's collation,
  of which the proofs use that it is a strict total order.
- A float is identified by its shortest decimal text, which is what the key contains.
- Strings are sequences of characters. Bytes that are not valid UTF-8 are read by Go as a character
  that is neither letter nor digit.
- Upstream's listing is a function from query to answer. Within one call no query is sent twice
  (`NoPageTwice`), so nothing depends on its being a function there; across calls it means that
  the catalogue does not change.
- The tick's limit is the parameter `batch`, 200 in the source. Timeouts are the inputs `expired`
  and an upstream error.
- The upstream client gets the HTTP result as a parameter, a transport error or a decoded body, and
  applies its guards to it. The publisher gets the host's reaction: `log` is every call of
  `Publish`, `taken` the part of it that the host took.
- The handler may be set up without a publisher (internal/consumer/handler.go:128-133); `publishes`
  in `Config` says whether it is.
- Every error text of the upstream client is non-empty, because each is wrapped in a prefix.

## Model

| member | source | states |
|---|---|---|
| Safety.NoAckedRequestIsLost | internal/consumer/handler.go:68-125 | In every interleaving of deliveries, redeliveries, crashes, failed writes and a tick: once a delivery was acked, the row exists from then on and is terminal or has a non-empty external id |
| Safety.EveryRowIsWellFormed | internal/store/request.go:17 | In every reachable state a row has one of the seven named statuses; any other than submitted and failed implies an external id; so does a set last_polled |
| Safety.TerminalStatusIsFinal | internal/store/request.go:65-72 | The status imported, and the status failed, once reached, is the row's status in every later state |
| Safety.Provenance | internal/consumer/handler.go:87-118 | A stored external id was issued by upstream for this request; imported means upstream reported imported or completed for an id issued to it; failed means a refused submission of it or such a report of failed or error; a stored error text is one that a call about this request returned |
| Safety.SnapshotProvenance | internal/reconciler/reconciler.go:58-105 | The same origin of the external id, and a non-terminal status, for every row a tick still holds, however stale its list |
| Safety.EveryRowIsClosedForm | internal/store/request.go:60-115 | In every reachable state each row is the closed form of the statements applied to it since its first upsert, whatever happened to other rows in between |
| Safety.TableIsReplay | internal/store/request.go:60-115 | In every reachable state the whole table is the replay of the statements recorded as applied |
| Safety.StatsConserve | internal/store/request.go:173-182 | Total = active + failed + imported and unsubmitted <= active in every state; total, failed and imported never decrease along a run |
| Safety.TerminalEventsAreBounded | internal/reconciler/reconciler.go:103-122 | The fulfilled and failed events a tick publishes for one request number at most 1 plus its MarkPolled calls that returned an error, applied or not |
| Safety.HostSeesNoMore | internal/event/publisher.go:25-33 | The same bound for what reaches the host, whichever of the events it drops |
| Safety.EndedStaysSilent | internal/reconciler/reconciler.go:103-122 | Once a request has ended and no tick holds its row, no tick publishes its end in any continuation |
| Truthfulness.EveryEventIsTrue | internal/consumer/handler.go:100-124 | Every published event stays true: an acknowledgement's id was issued for the request, a failed submission was refused with an error that was returned for it, both only once the row can no longer be lost; a tick's event names an id issued for the request and a status upstream reported for that id, a fulfilment the book id that upstream returned with it, a failure its fixed reason |
| Announcements.AckedIsAnnounced | internal/consumer/handler.go:100-133 | The acknowledgement or failed submission of an acked request has been published if and only if the handler has a publisher |
| Announcements.EveryEndIsTold | internal/reconciler/reconciler.go:103-122 | In every reachable state a terminal row has its event in the log, about to be published, or lost |
| Announcements.LostExactlyWhen | internal/consumer/handler.go:89-133 | An event is lost in a run if and only if some step of it is a tick's or a delivery's stop between write and publish, an outcome write that took effect but was reported as failed, or an announcement without a publisher |
| Announcements.EndsAreAnnounced | internal/reconciler/reconciler.go:103-122 | A run without such a step has announced the end of every terminal row, or has it pending |
| Safety.FulfilledNowOrNever | internal/reconciler/reconciler.go:103-114 | In a reachable state with no tick in flight, an imported row's fulfilment is published in some continuation if and only if it is in the log already |
| Invariants.StepKeepsInv | internal/consumer/handler.go:71-125 | Every step of the protocol keeps the invariant over rows, deliveries in flight, the tick's remaining rows and the acked requests |
| Invariants.StepExtends | internal/store/request.go:63-76 | No step removes a row, changes a terminal status, erases an external id or forgets a published event |
| Invariants.WriteKeepsRowOk | internal/store/request.go:60-115 | A statement whose own values would make a well-founded row keeps any well-founded row well-founded, whatever the merge rules mix |
| RowHistory.ReplayIsClosedForm | internal/store/request.go:60-115 | After any history starting with an upsert: status is the first terminal one written or else the last; external_id and last_polled the last non-null; auto_monitor the OR; error_text the last non-null since the latest MarkPolled |
| RowHistory.UpsertStretchCollapses | internal/store/request.go:63-76 | Any unbroken stretch of upserts, after any history, acts as the single upsert that merges them |
| RowHistory.MergeIsAssociative | internal/store/request.go:63-76 | The merge of the conflict clause is associative, terminal guard included |
| RowHistory.LeadingMarksAreLost | internal/store/request.go:90-91 | MarkPolled calls before the first upsert leave no trace at all |
| RowHistory.RowIsReplayOfItsWrites | internal/store/request.go:60-115 | After any interleaving of writes to many ids, each row is the replay of its own writes |
| Store.Store.UpsertForwardedRequest | internal/store/request.go:36-82 | Rejects an empty id without effect; otherwise the table changes by the merge at that key alone, as far as the fault lets it, and the error says what was reported |
| Store.Store.MarkPolled | internal/store/request.go:92-120 | The same for the poll update: guarded status, stamped times, cleared error; no row, no effect and no error |
| StoreLaws.StatementEnds | internal/store/request.go:60-81 | A dropped statement leaves the table as it was, any other has its effect; every one that is not committed is reported as failed |
| Store.Store.ListNonTerminal | internal/store/request.go:142-171 | Returns the listing up to the row where the connection broke, with no error in that case |
| Store.Select | internal/store/request.go:146-155 | ORDER BY and LIMIT: strictly increasing in (last_polled, request_id), at most limit rows, and a row is left out only when the limit is reached and all returned rows sort before it |
| Store.SelectionIsUnique | internal/store/request.go:151-154 | That description determines the list: two lists that meet it are equal |
| Store.Listing | internal/store/request.go:140-168 | Each listed row is a current copy of a non-terminal row with NULLs as zero values, and no request is listed twice |
| StoreLaws.ListingByColumns | internal/store/request.go:142-155 | At most the limit, or 100 without one; oldest poll first, then by id; an open row is left out only when the list is full and all of it comes before |
| StoreLaws.ListedByColumns | internal/store/request.go:147-168 | Each field of a listed row is its column, or the zero value for a NULL |
| StoreLaws.InsertedIsListed | internal/store/request.go:40-77 | What is inserted is listed again unchanged; a missing update time becomes the time of the call, and only what is missing is stored as NULL |
| Store.Delivered | internal/store/request.go:161-170 | The returned list is a prefix of the listing, and the whole of it if and only if the connection lasted for all of its rows |
| Store.Store.RequestStats | internal/store/request.go:173-189 | The six counts of the table as it is; active, failed and imported partition the total, and unsubmitted is the number that the polling bound depends on |
| StoreLaws.NewRowCounts | internal/store/request.go:175-181 | What one new row adds to each of the six counts, by its status, error text and external id |
| StoreLaws.EmptyTableCounts | internal/store/request.go:175-181 | All counts of an empty table are 0 |
| Monitoring.TransportError | internal/bookwarehouse/monitoring.go:27-49 | Every failure on the way to a decoded body has an error text that ends in its cause, after a prefix |
| Monitoring.Client.AddMonitoring | internal/bookwarehouse/monitoring.go:27-44 | Sends one request; it is accepted if and only if a decoded body with a non-empty id came back, under that id |
| Monitoring.Client.GetMonitoring | internal/bookwarehouse/monitoring.go:46-63 | Asks about one id; the poll succeeds if and only if a decoded body with an id or a status came back, with exactly what it holds |
| Events.Publisher.Publish | internal/event/publisher.go:25-33 | A host that takes the event gets it; otherwise it is dropped without an error; what the host got stays a part of what was published, in order |
| Reconciler.TextMovesRowIff | internal/reconciler/reconciler.go:93-155 | From upstream's text to the row's status: exactly the listed texts move a row, each to one status, never back to submitted or acknowledged; any other text holds the row |
| Reconciler.Reconciler.PollRow | internal/reconciler/reconciler.go:77-131 | One row's turn: the upstream call, the one write with its values, at most one event, and the error of that write |
| Reconciler.Reconciler.PollRows | internal/reconciler/reconciler.go:65-133 | The loop leaves the table, the log, the calls and the first error that the turns in order leave, ended only by the expired context |
| Reconciler.Reconciler.Tick | internal/reconciler/reconciler.go:49-134 | Nothing when the mutex is held or the listing fails (with the right error); otherwise the turns over the delivered list of the table it started from; the mutex is free again |
| TickProperties.UnattemptedRowUnchanged | internal/reconciler/reconciler.go:66-76 | A row that is not listed, has no external id or comes after the context expired is exactly as before the tick |
| TickProperties.AttemptedRowWritten | internal/reconciler/reconciler.go:66-105 | Every attempted row holds the effect of its own write to the row as it was listed, whatever became of earlier writes |
| TickProperties.TickReport | internal/reconciler/reconciler.go:62-65 | The tick returns no error if and only if every attempted write reported success; otherwise the first failed one's |
| TickProperties.WriteErrorTells | internal/reconciler/reconciler.go:80-105 | Which of the three errors is reported tells whether upstream failed, the poll published news, or it did not |
| TickProperties.HostTakesTurn | internal/reconciler/reconciler.go:106-131 | The host gets the events of exactly the turns at which it takes them |
| TickProperties.PolledInOrder | internal/reconciler/reconciler.go:66-79 | Upstream is asked, in list order, about exactly the listed rows with an external id in the prefix that fits the budget |
| TickProperties.PollOutcome | internal/reconciler/reconciler.go:80-105 | A committed poll sets the settled status, the error text of this poll or none, the poll time and the update time, and keeps id and auto_monitor |
| TickProperties.EventLogMatchesTable | internal/reconciler/reconciler.go:93-131 | Over any run of ticks whose writes succeed, folding a request's events from its starting status gives its stored status, and no event repeats the status the fold already had |
| TickProperties.ErrorTextTracksLatestPoll | internal/reconciler/reconciler.go:80-105 | Over any run of ticks whose writes succeed, error_text is the error of the row's latest poll, absent if that poll succeeded, unchanged if there was none |
| Fairness.PolledWithinSimpleBound | internal/reconciler/reconciler.go:58-105 | With U < L unsubmitted rows, as RequestStats counts them, and k pollable rows ahead of it, a row with an external id is polled within k/(L-U)+1 ticks that go well |
| Fairness.PolledWithinBound | internal/store/request.go:146-155 | The sharper bound: only the unsubmitted rows that sort ahead of the row count |
| Fairness.PolledIffHeadNotFull | internal/reconciler/reconciler.go:58-76 | A run of more ticks than there are pollable rows ahead polls the row if and only if fewer than L unsubmitted rows sort ahead of it |
| Fairness.StarvedForever | internal/reconciler/reconciler.go:74-76 | With L or more unsubmitted rows ahead, no run of ticks ever polls the row, whatever its writes and clocks do |
| Fairness.UnpolledGetsCloser | internal/store/request.go:151-154 | A tick that goes well without polling a row takes at least L minus the unsubmitted rows ahead from the pollable rows ahead of it |
| Fairness.TerminalWithinBound | internal/reconciler/reconciler.go:93-131 | If upstream answers every poll with a terminal status, the row is terminal within the bound and stays so |
| Fairness.EndedIsNeverPolled | internal/store/request.go:151 | No run of ticks polls or changes a row with a terminal status |
| CutLists.PolledIffDelivered | internal/store/request.go:161-170 | In a tick without other trouble, a listed row with an external id is polled if and only if the list had not broken off before it |
| CutLists.NothingMissedIff | internal/store/request.go:161-170 | Such a tick returns no error; it polled every listed row with an external id if and only if none of those was cut off |
| CutLists.CutListGoesUnnoticed | internal/reconciler/reconciler.go:58-66 | The case that fails: one pollable row, a list that breaks at once, and the tick succeeds without polling or changing anything |
| Scenarios.StarvationIsReachable | internal/reconciler/reconciler.go:74-76 | For every limit L a run from the empty table reaches an acked, pollable request behind L unsubmitted ones that no run of ticks polls |
| Scenarios.FulfilmentCanBeLost | internal/reconciler/reconciler.go:103-114 | A run from the empty table imports an acked request, and in no continuation is a fulfilment of it published |
| Scenarios.FailureCanBeLostWithoutCrash | internal/consumer/handler.go:89-106 | A run without any crash reaches a failed row with an empty log and nothing under way; the redelivery is accepted and acked, the only event says acknowledged, and the row is still failed |
| Consumer.AdmittedExactlyWhen | internal/consumer/handler.go:38-65 | A configured plugin forwards an event if and only if it is the submission event, the first target key present names this plugin after trimming, and one of the two request id keys holds a non-empty text |
| PayloadLaws.AdmissionByPayload | internal/consumer/handler.go:38-66 | For every event and every state of the dependencies: nacked without effect if and only if it is a submission with a payload and the dependencies are missing; forwarded, under which id and with which flag, by the literal keys and values of the payload |
| PayloadLaws.TargetByPayload | internal/consumer/handler.go:135-154 | The first of the three keys, in this order, that is there decides the target |
| Consumer.TargetExactlyWhen | internal/consumer/handler.go:135-154 | The target is this plugin if and only if the first of the keys that is present holds it; a malformed value there hides the later keys |
| Consumer.TrimSpace | internal/consumer/handler.go:153 | The result neither starts nor ends with white space |
| Consumer.OnlySpaceIsTrimmed | internal/consumer/handler.go:153 | Only white space is removed, and only at the two ends |
| PayloadLaws.WhiteSpace | internal/consumer/handler.go:153 | White space is that of Unicode, by code point |
| Consumer.StringSliceField | internal/consumer/handler.go:171-183 | The texts among a list's items, in order; nothing when the field is not a list |
| PayloadLaws.TextsInOrder | internal/consumer/handler.go:171-183 | A list of texts is read in its order |
| PayloadLaws.TextsAppend | internal/consumer/handler.go:177-181 | The texts of two lists in a row are those of the one and then those of the other |
| PayloadLaws.RequestByPayload | internal/consumer/handler.go:80-86 | Which payload key goes into which field of the request sent upstream |
| Consumer.Handler.HandleEvent | internal/consumer/handler.go:37-126 | While the dependencies are missing a submission is nacked without effect, so what a ready plugin would forward is never acked and dropped; ignored events are acked without effect; an admitted one leaves the table, the upstream call, the event and the ack or nack that its two writes' outcomes determine |
| Consumer.Handler.Forward | internal/consumer/handler.go:71-125 | The admitted part: no upstream call unless the first write was reported committed, no event and no ack unless both were |
| PayloadLaws.NewRequestRow | internal/consumer/handler.go:71-118 | The exact row that an acked delivery of a new request leaves, accepted or refused |
| PayloadLaws.InterruptedRequestRow | internal/consumer/handler.go:71-78 | The exact table after a first write that failed |
| Redelivery.RedeliveryConvergesIff | internal/consumer/handler.go:68-125 | From an absent row, attempts that stopped anywhere and then a completed one leave the row of the completed one alone if and only if none before it recorded the opposite answer |
| Redelivery.InterruptedAttemptsLeaveNoTrace | internal/consumer/handler.go:68-79 | In particular when none of them got as far as recording an answer |
| Redelivery.RecordedRefusalSticks | internal/store/request.go:65-72 | The first case that fails: a recorded refusal, a redelivery that upstream accepts, and the row stays failed with the new id in it |
| Redelivery.RecordedAcceptanceIsOverwritten | internal/store/request.go:63-72 | The second: a recorded acceptance, a redelivery that upstream refuses, and the row fails with the accepted id in it |
| Redelivery.StoredRowDecides | internal/store/request.go:63-76 | The same equivalence by the row stored before the last attempt: absent, or not failed if upstream accepts, or without an external id if it refuses |
| Redelivery.NackedDeliveriesConverge | internal/consumer/handler.go:68-125 | For the handler itself: nacked deliveries whose failed writes were not applied, then an acked one, leave the row of the acked one |
| Runs.TickIsAProtocolRun | internal/reconciler/reconciler.go:58-133 | An uninterrupted tick is a run of the protocol and leaves exactly the table, log and history of its turns, so the statements about all interleavings are about this code |
| Runs.TickCountsItsMarkErrors | internal/reconciler/reconciler.go:97-105 | The errors counted by the bound on terminal events are the faults the tick receives: one for a request exactly when one of its turns is a MarkPolled of it that returned an error |
| Runs.SuccessfulTicksAddNoMarkErrors | internal/reconciler/reconciler.go:97-105 | Ticks whose writes succeed add none |
| Runs.TicksAreAProtocolRun | internal/reconciler/reconciler.go:58-133 | Any number of ticks, one after the other, is one run of the protocol |
| Runs.RunTablesAreReachable | internal/reconciler/reconciler.go:58-133 | So the tables of the polling theorems are reachable when the first one is |
| Runs.DeliveryIsAProtocolRun | internal/consumer/handler.go:37-133 | So is a delivery, with the same table and ack as HandleEvent, and the same events if it has a publisher, none otherwise |
| Keys.NormalizeKey | internal/bookwarehouse/catalog.go:106-129 | The loop computes the lower-cased maximal runs of ASCII letters and digits joined by single spaces |
| Keys.KeyShape | internal/bookwarehouse/catalog.go:106-129 | Only a-z, 0-9 and single inner spaces; empty exactly when there is no word |
| Keys.SameKeyIffSameWords | internal/bookwarehouse/catalog.go:106-129 | Two strings normalize to the same key if and only if their lower-cased word lists are equal |
| Keys.NormalKeyIsIdempotent | internal/bookwarehouse/catalog.go:106-129 | Normalizing a key changes nothing |
| KeyLaws.CaseIsIgnored | internal/bookwarehouse/catalog.go:111-113 | A capital and its small letter, anywhere in a text, give the same key |
| KeyLaws.SeparatorParts | internal/bookwarehouse/catalog.go:117-127 | Any other character parts the text: the key is the keys of the two sides with one space between them, or the only one that is not empty |
| KeyLaws.PlainWordIsItsKey | internal/bookwarehouse/catalog.go:114-116 | A word of small letters and digits is its own key |
| Keys.ComputeDedupKey | internal/bookwarehouse/catalog.go:88-104 | Computes the key the two lemmas below are about |
| Keys.PartsAreInjective | internal/bookwarehouse/catalog.go:97-103 | The bar-separated key can be read in one way only: equal keys have equal titles, authors, series and indexes after normalization |
| Keys.SameDedupKeyIffSameWork | internal/bookwarehouse/catalog.go:82-104 | Equal keys if and only if both titles have no words and the ids agree, or both have words and title, first author, series and index agree in their words |
| Dedup.FirstOccurrencesKeepsFirsts | internal/bookwarehouse/catalog.go:62-69 | Deduplication keeps exactly the positions whose key is new, in order |
| Dedup.FirstOccurrencesKeys | internal/bookwarehouse/catalog.go:62-69 | It keeps the same keys, each once, and is empty only for an empty list |
| Catalog.ListBooks | internal/bookwarehouse/catalog.go:131-224 | Sends the query of its parameters and derives the next cursor from the page requested, never from an echo; an error is passed on |
| QueryLaws.QueryByParams | internal/bookwarehouse/catalog.go:132-166 | Each parameter is sent in its own place as it is, or not at all when it is empty; a search has its own path |
| QueryLaws.ListsNamedPage | internal/bookwarehouse/catalog.go:133-139 | From an upstream that looks only at the page number, the n-th cursor gets the books of the n-th page, the number of the next one and upstream's total |
| QueryLaws.ErrorIsPassedOn | internal/bookwarehouse/catalog.go:166-169 | Upstream's error is the error returned |
| QueryLaws.PageServerServes | internal/bookwarehouse/catalog.go:206-224 | For every catalogue there is an upstream that the pagination theorems apply to |
| QueryLaws.BadCursorAsksForFirst | internal/bookwarehouse/catalog.go:210-215 | A cursor that is not a positive number asks for the first page |
| QueryLaws.BooksByFields | internal/bookwarehouse/catalog.go:225-257 | The items are upstream's books in order, field by field, with the author list or else the single author |
| QueryLaws.ListedAsOne | internal/bookwarehouse/catalog.go:88-104 | Two of upstream's books share a key if and only if they are the same work by upstream's own fields |
| Catalog.FanOutLoop | internal/bookwarehouse/catalog.go:47-79 | The loop over ListBooks with its seen set refines first-occurrence deduplication of the concatenated pages of the fan-out |
| Catalog.AddNew | internal/bookwarehouse/catalog.go:62-69 | One page keeps the loop's invariant: the items are the first occurrences of everything fetched and seen is their key set |
| Catalog.ListBooksDeduped | internal/bookwarehouse/catalog.go:39-80 | Items, cursor, total and error of the fan-out over the listing, by dedupKey, with the defaults 10 and 50 |
| Catalog.AnswerOfLastPage | internal/bookwarehouse/catalog.go:53-61 | The cursor and total it returns are those of the last page fetched, or of the last before the page that failed, whose error it returns |
| Catalog.AnswerInOrder | internal/bookwarehouse/catalog.go:62-69 | Its items are the fetched books at exactly the positions where a key is new, in order |
| Catalog.GoesOnWhileShort | internal/bookwarehouse/catalog.go:70-76 | Before each page but the first it has fewer than the limit, or 50, different books |
| Catalog.CallFollowsChain | internal/bookwarehouse/catalog.go:50-78 | A call fetches between 1 and maxFanout pages, each by the cursor of the one before, short of the target before each further one; its outcome is that of its last page |
| Catalog.DedupedListing | internal/bookwarehouse/catalog.go:40-79 | What a caller gets: bounded fetches and items, every fetched book represented by exactly one item with its key, empty only if every fetched page was, short only if upstream is exhausted or maxFanout pages were fetched |
| Catalog.ItemsAtMostTwicePageSize | internal/bookwarehouse/catalog.go:43-76 | With pages no longer than the limit, at most 2 * limit - 1 items |
| Decimal.AtoiInvertsItoa | internal/bookwarehouse/catalog.go:210-224 | A printed cursor is parsed back to the page number, for every 64-bit value |
| Decimal.ItoaIsDecimal | internal/bookwarehouse/catalog.go:219-223 | Cursors are decimal numbers, highest digit first |
| Decimal.NotANumber | internal/bookwarehouse/catalog.go:212 | A text with anything but digits after an optional sign is no number |
| Pagination.ChainAdvances | internal/bookwarehouse/catalog.go:206-224 | Whatever upstream answers, along a chain of cursors the requested page goes up by one |
| Pagination.NoPageTwice | internal/bookwarehouse/catalog.go:206-224 | One call never asks for the same page twice |
| Pagination.PagesExactlyWhen | internal/bookwarehouse/catalog.go:216-224 | The cursors enumerate a fixed catalogue if and only if every answer tells correctly whether it is the last: by its page count if it has one, otherwise by being full |
| Pagination.DedupedIsCall | internal/bookwarehouse/catalog.go:39-53 | ListBooksDeduped with another cursor continues the same listing, so a client's calls are the calls of a session |
| Pagination.ClientSessionIsSession | internal/bookwarehouse/catalog.go:47-79 | A client that calls ListBooksDeduped with the NextCursor of the response before, until it is empty, drives a session of fan-outs that ends when the client does, and its responses are theirs |
| Pagination.SessionIsClientSession | internal/bookwarehouse/catalog.go:47-79 | Every session of fan-outs is one that such a client sees |
| Pagination.SessionFetchesEveryPageOnce | internal/bookwarehouse/catalog.go:49-79 | A client that follows the returned NextCursor from the start until it is empty makes upstream fetch pages 1 to T in order, each exactly once |
| Pagination.SessionCallCount | internal/bookwarehouse/catalog.go:40-79 | Such a client needs at least T/maxFanout rounded up, maxFanout being 10 if not given, and at most T calls |
| Pagination.EveryBookIsListed | internal/bookwarehouse/catalog.go:49-79 | Every book of the catalogue has an item with its key in the response to the call that fetched its page |
| Pagination.SessionFinishes | internal/bookwarehouse/catalog.go:206-224 | From any point such a client does come to an end |
| Pagination.CursorsAreDistinct | internal/bookwarehouse/catalog.go:218-223 | Different pages have different cursors, so each cursor once is each page once |

## Left out

- Reconciler.Reconciler.Tick: one Reconciler object. cmd/silo-plugin-bookwarehouse-ebook/main.go:104 makes a new one, with a new mutex, on each configuration; two ticks of two objects at once are not modelled.
- Reconciler.Reconciler.PollRow: the body of the tick's loop, split into two methods here.
- Catalog.FanOutLoop: the loop of ListBooksDeduped, a method of its own here, and its inner loop another.
- Scenarios.StarvationIsReachable: for a plugin whose id has no white space at its ends; an event can be addressed to no other. The same holds for FulfilmentCanBeLost and FailureCanBeLostWithoutCrash.
- Pagination.NoPageTwice: up to the end of the 64-bit range, where the next page number wraps around.
- Events.Publisher.Publish: the log lines of a dropped event.
- Monitoring.Client.AddMonitoring: the HTTP exchange and JSON; their result is an input. The same holds for GetMonitoring.
- The database: pools, migrations, transactions; each statement is one atomic update of the map. The column created_at, and GetForwardedRequest, which is a plain lookup.
- Book fields that neither the key nor the cursor depends on: publisher, language, formats, cover URL, year.
- ListGenres, GetBook, FileURL and CoverURL: one query or one string each.
- Redirects, streaming, timeouts as durations, clampLimit, MIME types: plumbing around the calls.
- Token verification, configuration, the admin page, routing, health and scheduler keys: no state shared with the two parts modelled.
