/**
 A client that reads a whole listing by following NextCursor from call to call.
 */
module Pagination {
  import opened Arithmetic
  import opened Decimal
  import opened Keys
  import opened Dedup
  import opened Catalog

  // ---------- cursors advance ----------

  lemma RequestedOfItoa(n: Int64)
    requires n > 0
    ensures Itoa(n) != "" && Requested(Itoa(n)) == n
  {
    AtoiInvertsItoa(n);
  }

  lemma {:induction false} ChainLeads(fetch: Fetch, cursors: seq<string>, i: nat)
    requires IsChain(fetch, cursors) && 0 < i < |cursors|
    ensures LeadsTo(fetch, cursors[i - 1], cursors[i])
    decreases |cursors|
  {
    if i < |cursors| - 1 {
      ChainLeads(fetch, cursors[..|cursors|-1], i);
    }
  }

  lemma {:induction false} RequestsCount(cursors: seq<string>, i: nat)
    requires i < |cursors| && Requested(cursors[0]) + i <= MAX_INT64
    requires forall j :: 0 < j < |cursors| && Requested(cursors[j - 1]) < MAX_INT64 ==>
                           Requested(cursors[j]) == Requested(cursors[j - 1]) + 1
    ensures Requested(cursors[i]) == Requested(cursors[0]) + i
    decreases i
  {
    if i > 0 {
      RequestsCount(cursors, i - 1);
    }
  }

  // Whatever upstream answers, along a chain of cursors the requested page goes up by one, so
  // no page is asked for twice (up to the end of the 64-bit range).
  lemma ChainAdvances(server: Upstream, p: ListParams, cursors: seq<string>, i: nat)
    requires i < |cursors| && IsChain(FetchOf(server, p), cursors)
    requires Requested(cursors[0]) + i <= MAX_INT64
    ensures Requested(cursors[i]) == Requested(cursors[0]) + i
  {
    forall j | 0 < j < |cursors| && Requested(cursors[j - 1]) < MAX_INT64
      ensures Requested(cursors[j]) == Requested(cursors[j - 1]) + 1
    {
      ChainLeads(FetchOf(server, p), cursors, j);
      NextCursorAdvances(server, p, cursors[j - 1], cursors[j]);
    }
    RequestsCount(cursors, i);
  }

  lemma NextCursorAdvances(server: Upstream, p: ListParams, cursor: string, next: string)
    requires LeadsTo(FetchOf(server, p), cursor, next) && Requested(cursor) < MAX_INT64
    ensures Requested(next) == Requested(cursor) + 1
  {
    RequestedOfItoa(Requested(cursor) + 1);
  }

  lemma NoPageTwice(server: Upstream, p: ListParams, maxFanout: int)
    requires Requested(p.cursor) + EffectiveFanout(maxFanout) <= MAX_INT64
    ensures var cursors := Deduped(server, p, maxFanout).cursors;
            forall i, j :: 0 <= i < j < |cursors| ==> cursors[i] != cursors[j]
  {
    var cursors := Deduped(server, p, maxFanout).cursors;
    CallFollowsChain(FetchOf(server, p), DedupKey, Target(p), EffectiveFanout(maxFanout), p.cursor);
    forall i, j | 0 <= i < j < |cursors| ensures cursors[i] != cursors[j] {
      ChainAdvances(server, p, cursors, i);
      ChainAdvances(server, p, cursors, j);
    }
  }

  // ---------- a fixed catalogue ----------

  // The cursor with which the n-th page is asked for when reading from the start.
  function CursorOf(n: nat): string {
    if n <= 1 then "" else Itoa(n)
  }

  // Upstream holds a catalogue of fixed pages.
  ghost predicate Holds(server: Upstream, p: ListParams, pages: seq<seq<UpstreamBook>>) {
    1 <= |pages| <= MAX_INT64 && forall n :: 1 <= n <= |pages| ==> Answers(server, p, pages, n)
  }

  ghost predicate Answers(server: Upstream, p: ListParams, pages: seq<seq<UpstreamBook>>, n: nat)
    requires 1 <= n <= |pages|
  {
    var answer := server(QueryOf(p.(cursor := CursorOf(n))));
    answer.Ok? && answer.value.books == pages[n - 1]
  }

  predicate Full(p: ListParams, page: seq<UpstreamBook>) {
    p.limit > 0 && |page| >= p.limit
  }

  // The n-th answer says whether it is the last: by its page count if it has one, and otherwise
  // by being full or not.
  ghost predicate TellsEnd(server: Upstream, p: ListParams, pages: seq<seq<UpstreamBook>>, n: nat)
    requires 1 <= n <= |pages| && Answers(server, p, pages, n)
  {
    var total := server(QueryOf(p.(cursor := CursorOf(n)))).value.totalPages;
    if total > 0 then n < total <==> n < |pages| else Full(p, pages[n - 1]) <==> n < |pages|
  }

  ghost predicate Serves(server: Upstream, p: ListParams, pages: seq<seq<UpstreamBook>>) {
    Holds(server, p, pages) && forall n :: 1 <= n <= |pages| ==> TellsEnd(server, p, pages, n)
  }

  function NextAfter(n: nat, total: nat): string {
    if n < total then CursorOf(n + 1) else ""
  }

  // Fetching by cursor a catalogue whose n-th page has these books.
  ghost predicate Pages(fetch: Fetch, books: seq<seq<Book>>) {
    forall n :: 1 <= n <= |books| ==> HasPage(fetch, books, n)
  }

  ghost predicate HasPage(fetch: Fetch, books: seq<seq<Book>>, n: nat)
    requires 1 <= n <= |books|
  {
    var page := fetch(CursorOf(n));
    page.Ok? && page.value.items == books[n - 1] && page.value.nextCursor == NextAfter(n, |books|)
  }

  function Converted(pages: seq<seq<UpstreamBook>>): (books: seq<seq<Book>>)
    ensures |books| == |pages|
  {
    seq(|pages|, i requires 0 <= i < |pages| => ToBooks(pages[i]))
  }

  lemma RequestedOfCursor(n: Int64)
    requires n > 0
    ensures Requested(CursorOf(n)) == n && Itoa(Next(n)) != ""
  {
    if n > 1 {
      RequestedOfItoa(n);
    }
  }

  // The next cursor of the n-th page is right exactly when the answer tells whether it is the last.
  lemma NextCursorExactlyWhen(p: ListParams, page: UpstreamPage, n: nat, total: nat)
    requires 1 <= n <= total <= MAX_INT64 && Requested(p.cursor) == n && Itoa(Next(n)) != ""
    ensures NextCursor(p, page) == NextAfter(n, total) <==>
            if page.totalPages > 0 then n < page.totalPages <==> n < total else Full(p, page.books) <==> n < total
  {
  }

  lemma PageExactlyWhen(server: Upstream, p: ListParams, pages: seq<seq<UpstreamBook>>, n: nat)
    requires 1 <= n <= |pages| <= MAX_INT64 && Answers(server, p, pages, n)
    ensures HasPage(FetchOf(server, p), Converted(pages), n) <==> TellsEnd(server, p, pages, n)
  {
    var q := p.(cursor := CursorOf(n));
    RequestedOfCursor(n);
    NextCursorExactlyWhen(q, server(QueryOf(q)).value, n, |pages|);
  }

  // The cursors of ListBooks enumerate the pages exactly when every answer says whether it is the
  // last. A short page without a page count, or no limit, ends the listing there.
  lemma PagesExactlyWhen(server: Upstream, p: ListParams, pages: seq<seq<UpstreamBook>>)
    requires Holds(server, p, pages)
    ensures Pages(FetchOf(server, p), Converted(pages)) <==> Serves(server, p, pages)
  {
    forall n | 1 <= n <= |pages|
      ensures HasPage(FetchOf(server, p), Converted(pages), n) <==> TellsEnd(server, p, pages, n)
    {
      assert Answers(server, p, pages, n);
      PageExactlyWhen(server, p, pages, n);
    }
  }

  // The cursors of pages a to b, and their books.
  function CursorRange(a: nat, b: nat): (s: seq<string>)
    requires a <= b + 1
    ensures |s| == b + 1 - a
  {
    seq(b + 1 - a, i requires 0 <= i < b + 1 - a => CursorOf(a + i))
  }

  function BookRange(books: seq<seq<Book>>, a: nat, b: nat): seq<Book>
    requires 1 <= a <= b + 1 <= |books| + 1
    decreases b
  {
    if a == b + 1 then [] else BookRange(books, a, b - 1) + books[b - 1]
  }

  // A fan-out that has read pages a to b - 1 and goes on with page b.
  ghost predicate HasRead(books: seq<seq<Book>>, f: Fanout, a: nat, b: nat) {
    && 1 <= a <= b <= |books|
    && f.cursors == CursorRange(a, b - 1) && f.books == BookRange(books, a, b - 1) && f.err.None?
  }

  // One fan-out reads consecutive pages and says where to continue.
  lemma {:induction false} FanOutReadsOn(fetch: Fetch, keyOf: Book -> string, books: seq<seq<Book>>, target: nat,
                                         left: nat, f: Fanout, a: nat, b: nat) returns (m: nat)
    requires Pages(fetch, books) && HasRead(books, f, a, b) && left > 0
    ensures b <= m <= |books| && m < b + left
    ensures var g := FanOut(fetch, keyOf, target, left, f, CursorOf(b));
            && g.cursors == CursorRange(a, m) && g.books == BookRange(books, a, m) && g.err.None?
            && g.next == NextAfter(m, |books|)
    decreases left
  {
    assert HasPage(fetch, books, b);
    var page := fetch(CursorOf(b)).value;
    var g := WithPage(f, CursorOf(b), page);
    assert g.cursors == CursorRange(a, b);
    assert g.books == BookRange(books, a, b);
    if |FirstOccurrences(g.books, keyOf)| >= target || page.nextCursor == "" || left == 1 {
      m := b;
    } else {
      m := FanOutReadsOn(fetch, keyOf, books, target, left - 1, g, a, b + 1);
    }
  }

  // One call that starts at page n covers pages n to m.
  ghost predicate Covers(books: seq<seq<Book>>, f: Fanout, n: nat, m: nat) {
    && 1 <= n <= m <= |books|
    && f.err.None? && f.cursors == CursorRange(n, m) && f.books == BookRange(books, n, m)
    && f.next == NextAfter(m, |books|)
  }

  ghost predicate CoversSome(books: seq<seq<Book>>, f: Fanout) {
    exists n: nat, m: nat :: Covers(books, f, n, m)
  }

  lemma CallCovers(fetch: Fetch, keyOf: Book -> string, books: seq<seq<Book>>, target: nat, max: nat, n: nat)
    returns (m: nat)
    requires Pages(fetch, books) && 1 <= n <= |books| && max > 0
    ensures Covers(books, Call(fetch, keyOf, target, max, CursorOf(n)), n, m) && m < n + max
  {
    assert HasRead(books, NO_FANOUT, n, n);
    m := FanOutReadsOn(fetch, keyOf, books, target, max, NO_FANOUT, n, n);
  }

  // ---------- sessions ----------

  // The calls of a client: the first without a cursor, each next one with the cursor the last
  // one returned.
  ghost predicate IsSession(fetch: Fetch, keyOf: Book -> string, target: nat, max: nat, calls: seq<Fanout>) {
    forall i :: 0 <= i < |calls| ==> IsCall(fetch, keyOf, target, max, calls, i)
  }

  // The cursor a client sends after these calls.
  function CursorAfter(calls: seq<Fanout>): string {
    if calls == [] then "" else calls[|calls|-1].next
  }

  // The call a client makes after these.
  function NextCall(fetch: Fetch, keyOf: Book -> string, target: nat, max: nat, calls: seq<Fanout>): Fanout {
    Call(fetch, keyOf, target, max, CursorAfter(calls))
  }

  // Has the client not been told to stop?
  predicate GoesOn(calls: seq<Fanout>) {
    calls != [] ==> calls[|calls|-1].next != ""
  }

  ghost predicate IsCall(fetch: Fetch, keyOf: Book -> string, target: nat, max: nat, calls: seq<Fanout>, i: nat)
    requires i < |calls|
  {
    GoesOn(calls[..i]) && calls[i] == NextCall(fetch, keyOf, target, max, calls[..i])
  }

  lemma SessionPrefix(fetch: Fetch, keyOf: Book -> string, target: nat, max: nat, before: seq<Fanout>, last: Fanout)
    requires IsSession(fetch, keyOf, target, max, before + [last])
    ensures IsSession(fetch, keyOf, target, max, before)
    ensures GoesOn(before) && last == NextCall(fetch, keyOf, target, max, before)
  {
    var calls := before + [last];
    forall i | 0 <= i < |before| ensures IsCall(fetch, keyOf, target, max, before, i) {
      assert IsCall(fetch, keyOf, target, max, calls, i);
      assert calls[..i] == before[..i];
    }
    assert IsCall(fetch, keyOf, target, max, calls, |before|);
    assert calls[..|before|] == before;
  }

  lemma SessionSnoc(fetch: Fetch, keyOf: Book -> string, target: nat, max: nat, calls: seq<Fanout>)
    requires IsSession(fetch, keyOf, target, max, calls) && GoesOn(calls)
    ensures IsSession(fetch, keyOf, target, max, calls + [NextCall(fetch, keyOf, target, max, calls)])
  {
    var longer := calls + [NextCall(fetch, keyOf, target, max, calls)];
    forall i | 0 <= i < |longer| ensures IsCall(fetch, keyOf, target, max, longer, i) {
      assert longer[..i] == calls[..i];
      if i < |calls| {
        assert IsCall(fetch, keyOf, target, max, calls, i);
      } else {
        assert calls[..i] == calls;
      }
    }
  }

  ghost predicate IsFinished(calls: seq<Fanout>) {
    calls != [] && calls[|calls|-1].next == ""
  }

  // Everything the session made upstream fetch, in order.
  function AllCursors(calls: seq<Fanout>): seq<string> {
    if calls == [] then [] else AllCursors(calls[..|calls|-1]) + calls[|calls|-1].cursors
  }

  // Each call read some pages, at most max of them.
  ghost predicate EachCovers(books: seq<seq<Book>>, max: nat, calls: seq<Fanout>) {
    forall i :: 0 <= i < |calls| ==> CoversSome(books, calls[i]) && |calls[i].cursors| <= max
  }

  // A session that has read pages 1 to m.
  ghost predicate SessionAt(books: seq<seq<Book>>, max: nat, calls: seq<Fanout>, m: nat) {
    && |calls| <= m <= |books|
    && AllCursors(calls) == CursorRange(1, m)
    && (calls != [] ==> calls[|calls|-1].next == NextAfter(m, |books|))
    && EachCovers(books, max, calls)
  }

  lemma RangesJoin(k: nat, m: nat)
    requires k <= m
    ensures CursorRange(1, m) == CursorRange(1, k) + CursorRange(k + 1, m)
  {
  }

  lemma OneMoreCall(books: seq<seq<Book>>, max: nat, before: seq<Fanout>, k: nat, call: Fanout, m: nat)
    requires SessionAt(books, max, before, k) && Covers(books, call, k + 1, m) && m < k + 1 + max
    ensures SessionAt(books, max, before + [call], m)
  {
    var calls := before + [call];
    assert calls[..|before|] == before;
    RangesJoin(k, m);
    assert CoversSome(books, call);
  }

  lemma ContinuesAt(books: seq<seq<Book>>, max: nat, calls: seq<Fanout>, k: nat)
    requires SessionAt(books, max, calls, k) && |books| >= 1 && GoesOn(calls)
    ensures k < |books| && CursorOf(k + 1) == if calls == [] then "" else calls[|calls|-1].next
  {
    if calls == [] {
      assert |CursorRange(1, k)| == 0;
    }
  }

  lemma NextCallCovers(fetch: Fetch, keyOf: Book -> string, books: seq<seq<Book>>, target: nat, max: nat,
                       before: seq<Fanout>, k: nat) returns (m: nat)
    requires Pages(fetch, books) && |books| >= 1 && max > 0 && GoesOn(before) && SessionAt(books, max, before, k)
    ensures Covers(books, NextCall(fetch, keyOf, target, max, before), k + 1, m) && m < k + 1 + max
  {
    ContinuesAt(books, max, before, k);
    m := CallCovers(fetch, keyOf, books, target, max, k + 1);
  }

  // After any number of calls the session has fetched pages 1 to m and nothing else, m advancing
  // by 1 to max pages a call, and will continue with page m + 1.
  lemma {:induction false} SessionProgress(fetch: Fetch, keyOf: Book -> string, books: seq<seq<Book>>, target: nat,
                                           max: nat, calls: seq<Fanout>) returns (m: nat)
    requires Pages(fetch, books) && |books| >= 1 && max > 0 && IsSession(fetch, keyOf, target, max, calls)
    ensures SessionAt(books, max, calls, m)
    decreases |calls|
  {
    if calls == [] {
      m := 0;
    } else {
      var before, last := calls[..|calls|-1], calls[|calls|-1];
      assert before + [last] == calls;
      SessionPrefix(fetch, keyOf, target, max, before, last);
      var k := SessionProgress(fetch, keyOf, books, target, max, before);
      m := NextCallCovers(fetch, keyOf, books, target, max, before, k);
      OneMoreCall(books, max, before, k, last, m);
    }
  }

  lemma FinishedSession(fetch: Fetch, keyOf: Book -> string, books: seq<seq<Book>>, target: nat, max: nat,
                        calls: seq<Fanout>)
    requires Pages(fetch, books) && |books| >= 1 && max > 0
    requires IsSession(fetch, keyOf, target, max, calls) && IsFinished(calls)
    ensures AllCursors(calls) == CursorRange(1, |books|)
    ensures CeilDiv(|books|, max) <= |calls| <= |books|
    ensures EachCovers(books, max, calls)
  {
    var m := SessionProgress(fetch, keyOf, books, target, max, calls);
    CursorsBounded(calls, max);
    CeilingAtMost(|books|, max, |calls|);
  }

  lemma {:induction false} CursorsBounded(calls: seq<Fanout>, max: nat)
    requires forall i :: 0 <= i < |calls| ==> |calls[i].cursors| <= max
    ensures |AllCursors(calls)| <= |calls| * max
  {
    if calls != [] {
      CursorsBounded(calls[..|calls|-1], max);
      assert |calls| * max == (|calls| - 1) * max + max;
    }
  }

  // t / d, rounded up.
  function CeilDiv(t: nat, d: nat): nat
    requires d > 0
  {
    (t + d - 1) / d
  }

  lemma CeilingAtMost(t: nat, max: nat, n: nat)
    requires max > 0 && t <= n * max
    ensures CeilDiv(t, max) <= n
  {
    var q := CeilDiv(t, max);
    assert q * max <= t + max - 1;
    assert (n + 1) * max == n * max + max;
    if q > n {
      ProductGrows(q, n + 1, max);
    }
  }

  // ---------- sessions of a client of ListBooksDeduped ----------

  // A fan-out depends on what is fetched, not on how.
  lemma {:induction false} FanOutExt(fetch: Fetch, other: Fetch, keyOf: Book -> string, target: nat, left: nat,
                                     f: Fanout, cursor: string)
    requires forall c :: fetch(c) == other(c)
    ensures FanOut(fetch, keyOf, target, left, f, cursor) == FanOut(other, keyOf, target, left, f, cursor)
    decreases left
  {
    if left > 0 && fetch(cursor).Ok? {
      var g := WithPage(f, cursor, fetch(cursor).value);
      FanOutExt(fetch, other, keyOf, target, left - 1, g, g.next);
    }
  }

  // ListBooksDeduped with another cursor is a call on the same listing.
  lemma DedupedIsCall(server: Upstream, p: ListParams, maxFanout: int, cursor: string)
    ensures Deduped(server, p.(cursor := cursor), maxFanout) ==
            Call(FetchOf(server, p), DedupKey, Target(p), EffectiveFanout(maxFanout), cursor)
  {
    var q := p.(cursor := cursor);
    forall c ensures FetchOf(server, q)(c) == FetchOf(server, p)(c) {
      assert q.(cursor := c) == p.(cursor := c);
    }
    FanOutExt(FetchOf(server, q), FetchOf(server, p), DedupKey, Target(p), EffectiveFanout(maxFanout), NO_FANOUT,
              cursor);
  }

  // What a client has: the responses of ListBooksDeduped, oldest first. It asks with the cursor of
  // the last one, until that is empty.
  function CursorGiven(replies: seq<Paged>): string {
    if replies == [] then "" else replies[|replies|-1].nextCursor
  }

  predicate MayAsk(replies: seq<Paged>) {
    replies != [] ==> replies[|replies|-1].nextCursor != ""
  }

  predicate IsDone(replies: seq<Paged>) {
    replies != [] && replies[|replies|-1].nextCursor == ""
  }

  // The fan-out behind a response.
  function CallWith(server: Upstream, p: ListParams, maxFanout: int, cursor: string): Fanout {
    Deduped(server, p.(cursor := cursor), maxFanout)
  }

  ghost predicate IsReply(server: Upstream, p: ListParams, maxFanout: int, replies: seq<Paged>, i: nat)
    requires i < |replies|
  {
    && MayAsk(replies[..i])
    && replies[i] == Answer(CallWith(server, p, maxFanout, CursorGiven(replies[..i])), DedupKey)
  }

  ghost predicate IsClientSession(server: Upstream, p: ListParams, maxFanout: int, replies: seq<Paged>) {
    forall i :: 0 <= i < |replies| ==> IsReply(server, p, maxFanout, replies, i)
  }

  function CallsBehind(server: Upstream, p: ListParams, maxFanout: int, replies: seq<Paged>): (calls: seq<Fanout>)
    ensures |calls| == |replies|
  {
    seq(|replies|, i requires 0 <= i < |replies| => CallWith(server, p, maxFanout, CursorGiven(replies[..i])))
  }

  function AnswersOf(calls: seq<Fanout>): (replies: seq<Paged>)
    ensures |replies| == |calls|
  {
    seq(|calls|, i requires 0 <= i < |calls| => Answer(calls[i], DedupKey))
  }

  lemma AnswersPrefix(calls: seq<Fanout>, i: nat)
    requires i <= |calls|
    ensures AnswersOf(calls[..i]) == AnswersOf(calls)[..i]
  {
  }

  // A response tells the client what the fan-out behind it knows.
  lemma SameCursor(calls: seq<Fanout>)
    ensures CursorGiven(AnswersOf(calls)) == CursorAfter(calls)
    ensures MayAsk(AnswersOf(calls)) <==> GoesOn(calls)
    ensures IsDone(AnswersOf(calls)) <==> IsFinished(calls)
  {
  }

  lemma RepliesAreAnswers(server: Upstream, p: ListParams, maxFanout: int, replies: seq<Paged>)
    requires IsClientSession(server, p, maxFanout, replies)
    ensures AnswersOf(CallsBehind(server, p, maxFanout, replies)) == replies
  {
    var answers := AnswersOf(CallsBehind(server, p, maxFanout, replies));
    forall i | 0 <= i < |replies| ensures answers[i] == replies[i] {
      assert IsReply(server, p, maxFanout, replies, i);
    }
  }

  // The sessions of a client of ListBooksDeduped are sessions of the fan-outs behind them.
  lemma ClientSessionIsSession(server: Upstream, p: ListParams, maxFanout: int, replies: seq<Paged>)
    requires IsClientSession(server, p, maxFanout, replies)
    ensures var calls := CallsBehind(server, p, maxFanout, replies);
            && IsSession(FetchOf(server, p), DedupKey, Target(p), EffectiveFanout(maxFanout), calls)
            && AnswersOf(calls) == replies && (IsFinished(calls) <==> IsDone(replies))
  {
    var calls := CallsBehind(server, p, maxFanout, replies);
    RepliesAreAnswers(server, p, maxFanout, replies);
    SameCursor(calls);
    forall i | 0 <= i < |calls|
      ensures IsCall(FetchOf(server, p), DedupKey, Target(p), EffectiveFanout(maxFanout), calls, i)
    {
      assert IsReply(server, p, maxFanout, replies, i);
      AnswersPrefix(calls, i);
      SameCursor(calls[..i]);
      DedupedIsCall(server, p, maxFanout, CursorGiven(replies[..i]));
    }
  }

  // And every session of fan-outs is seen as one.
  lemma SessionIsClientSession(server: Upstream, p: ListParams, maxFanout: int, calls: seq<Fanout>)
    requires IsSession(FetchOf(server, p), DedupKey, Target(p), EffectiveFanout(maxFanout), calls)
    ensures IsClientSession(server, p, maxFanout, AnswersOf(calls))
    ensures IsDone(AnswersOf(calls)) <==> IsFinished(calls)
  {
    var replies := AnswersOf(calls);
    SameCursor(calls);
    forall i | 0 <= i < |replies| ensures IsReply(server, p, maxFanout, replies, i) {
      assert IsCall(FetchOf(server, p), DedupKey, Target(p), EffectiveFanout(maxFanout), calls, i);
      AnswersPrefix(calls, i);
      SameCursor(calls[..i]);
      DedupedIsCall(server, p, maxFanout, CursorGiven(replies[..i]));
    }
  }

  // Completeness: a client that has read to the end has made upstream fetch pages 1 to T in order,
  // each exactly once ...
  lemma SessionFetchesEveryPageOnce(server: Upstream, p: ListParams, maxFanout: int, pages: seq<seq<UpstreamBook>>,
                                    replies: seq<Paged>)
    requires Serves(server, p, pages) && IsClientSession(server, p, maxFanout, replies) && IsDone(replies)
    ensures AllCursors(CallsBehind(server, p, maxFanout, replies)) == CursorRange(1, |pages|)
  {
    var calls := CallsBehind(server, p, maxFanout, replies);
    PagesExactlyWhen(server, p, pages);
    ClientSessionIsSession(server, p, maxFanout, replies);
    FinishedSession(FetchOf(server, p), DedupKey, Converted(pages), Target(p), EffectiveFanout(maxFanout), calls);
  }

  // ... in between T / max (rounded up) and T calls.
  lemma SessionCallCount(server: Upstream, p: ListParams, maxFanout: int, pages: seq<seq<UpstreamBook>>,
                         replies: seq<Paged>)
    requires Serves(server, p, pages) && IsClientSession(server, p, maxFanout, replies) && IsDone(replies)
    ensures CeilDiv(|pages|, if maxFanout <= 0 then 10 else maxFanout) <= |replies| <= |pages|
  {
    var calls := CallsBehind(server, p, maxFanout, replies);
    PagesExactlyWhen(server, p, pages);
    ClientSessionIsSession(server, p, maxFanout, replies);
    FinishedSession(FetchOf(server, p), DedupKey, Converted(pages), Target(p), EffectiveFanout(maxFanout), calls);
  }

  // The calls' cursors are distinct texts, so "in order, each once" is about pages.
  lemma CursorsAreDistinct(a: nat, b: nat)
    requires 1 <= a < b <= MAX_INT64
    ensures CursorOf(a) != CursorOf(b)
  {
    RequestedOfItoa(b);
    if a > 1 {
      RequestedOfItoa(a);
    }
  }

  lemma InRange(a: nat, b: nat, n: nat)
    requires 1 <= a <= b + 1 && b <= MAX_INT64 && 1 <= n <= MAX_INT64 && CursorOf(n) in CursorRange(a, b)
    ensures a <= n <= b
  {
    var range := CursorRange(a, b);
    var j :| 0 <= j < |range| && range[j] == CursorOf(n);
    if a + j < n {
      CursorsAreDistinct(a + j, n);
    } else if n < a + j {
      CursorsAreDistinct(n, a + j);
    }
  }

  // A call that fetched page n fetched its books.
  lemma FetchedPageIsThere(books: seq<seq<Book>>, call: Fanout, n: nat, k: nat)
    requires |books| <= MAX_INT64 && 1 <= n <= |books| && k < |books[n - 1]|
    requires CursorOf(n) in call.cursors && CoversSome(books, call)
    ensures books[n - 1][k] in call.books
  {
    var a: nat, b: nat :| Covers(books, call, a, b);
    InRange(a, b, n);
    PageInRange(books, a, b, n, k);
  }

  // Every book of the catalogue was fetched by the call that fetched its page.
  lemma EveryBookIsFetched(fetch: Fetch, keyOf: Book -> string, books: seq<seq<Book>>, target: nat, max: nat,
                           calls: seq<Fanout>, n: nat, k: nat) returns (i: nat)
    requires Pages(fetch, books) && 1 <= |books| <= MAX_INT64 && max > 0
    requires IsSession(fetch, keyOf, target, max, calls) && IsFinished(calls)
    requires 1 <= n <= |books| && k < |books[n - 1]|
    ensures i < |calls| && CursorOf(n) in calls[i].cursors && books[n - 1][k] in calls[i].books
  {
    FinishedSession(fetch, keyOf, books, target, max, calls);
    assert CursorRange(1, |books|)[n - 1] == CursorOf(n);
    i := CallOfCursor(calls, CursorOf(n));
    FetchedPageIsThere(books, calls[i], n, k);
  }

  lemma ConvertedBook(pages: seq<seq<UpstreamBook>>, n: nat, k: nat)
    requires 1 <= n <= |pages| && k < |pages[n - 1]|
    ensures |Converted(pages)[n - 1]| == |pages[n - 1]| && Converted(pages)[n - 1][k] == ToBook(pages[n - 1][k])
  {
  }

  // A reading of a catalogue from the first page to the last, by what is fetched rather than how.
  ghost predicate IsReading(fetch: Fetch, books: seq<seq<Book>>, target: nat, max: nat, calls: seq<Fanout>) {
    && Pages(fetch, books) && 1 <= |books| <= MAX_INT64 && max > 0
    && IsSession(fetch, DedupKey, target, max, calls) && IsFinished(calls)
  }

  lemma ReadingHasBook(fetch: Fetch, books: seq<seq<Book>>, target: nat, max: nat, calls: seq<Fanout>, n: nat, k: nat)
    returns (i: nat)
    requires IsReading(fetch, books, target, max, calls) && 1 <= n <= |books| && k < |books[n - 1]|
    ensures i < |calls| && CursorOf(n) in calls[i].cursors && books[n - 1][k] in calls[i].books
  {
    i := EveryBookIsFetched(fetch, DedupKey, books, target, max, calls, n, k);
  }

  lemma FinishedReading(server: Upstream, p: ListParams, maxFanout: int, pages: seq<seq<UpstreamBook>>,
                        replies: seq<Paged>)
    returns (fetch: Fetch, books: seq<seq<Book>>, target: nat, max: nat, calls: seq<Fanout>)
    requires Serves(server, p, pages) && IsClientSession(server, p, maxFanout, replies) && IsDone(replies)
    ensures books == Converted(pages) && calls == CallsBehind(server, p, maxFanout, replies)
    ensures IsReading(fetch, books, target, max, calls)
  {
    PagesExactlyWhen(server, p, pages);
    ClientSessionIsSession(server, p, maxFanout, replies);
    fetch, books, target, max := FetchOf(server, p), Converted(pages), Target(p), EffectiveFanout(maxFanout);
    calls := CallsBehind(server, p, maxFanout, replies);
  }

  lemma EveryBookIsBehind(server: Upstream, p: ListParams, maxFanout: int, pages: seq<seq<UpstreamBook>>,
                          replies: seq<Paged>, n: nat, k: nat) returns (i: nat)
    requires Serves(server, p, pages) && IsClientSession(server, p, maxFanout, replies) && IsDone(replies)
    requires 1 <= n <= |pages| && k < |pages[n - 1]|
    ensures var calls := CallsBehind(server, p, maxFanout, replies);
            i < |calls| && CursorOf(n) in calls[i].cursors && ToBook(pages[n - 1][k]) in calls[i].books
  {
    ConvertedBook(pages, n, k);
    var fetch, books, target, max, calls := FinishedReading(server, p, maxFanout, pages, replies);
    i := ReadingHasBook(fetch, books, target, max, calls, n, k);
  }

  // So it has a representative with its key in the response to that call.
  lemma EveryBookIsListed(server: Upstream, p: ListParams, maxFanout: int, pages: seq<seq<UpstreamBook>>,
                          replies: seq<Paged>, n: nat, k: nat) returns (i: nat)
    requires Serves(server, p, pages) && IsClientSession(server, p, maxFanout, replies) && IsDone(replies)
    requires 1 <= n <= |pages| && k < |pages[n - 1]|
    ensures i < |replies| && CursorOf(n) in CallsBehind(server, p, maxFanout, replies)[i].cursors
    ensures HasKey(replies[i].items, DedupKey, DedupKey(ToBook(pages[n - 1][k])))
  {
    i := EveryBookIsBehind(server, p, maxFanout, pages, replies, n, k);
    RepliesAreAnswers(server, p, maxFanout, replies);
    BookIsInReply(CallsBehind(server, p, maxFanout, replies), i, ToBook(pages[n - 1][k]));
  }

  lemma BookIsInReply(calls: seq<Fanout>, i: nat, b: Book)
    requires i < |calls| && b in calls[i].books
    ensures HasKey(AnswersOf(calls)[i].items, DedupKey, DedupKey(b))
  {
    EveryBookIsRepresented(calls[i].books);
  }

  lemma {:induction false} CallOfCursor(calls: seq<Fanout>, cursor: string) returns (i: nat)
    requires cursor in AllCursors(calls)
    ensures i < |calls| && cursor in calls[i].cursors
    decreases |calls|
  {
    if cursor in calls[|calls|-1].cursors {
      i := |calls| - 1;
    } else {
      i := CallOfCursor(calls[..|calls|-1], cursor);
    }
  }

  lemma {:induction false} PageInRange(books: seq<seq<Book>>, a: nat, b: nat, n: nat, k: nat)
    requires 1 <= a <= n <= b <= |books| && k < |books[n - 1]|
    ensures books[n - 1][k] in BookRange(books, a, b)
    decreases b
  {
    if n < b {
      PageInRange(books, a, b - 1, n, k);
    }
  }

  lemma {:induction false} SessionCanFinish(fetch: Fetch, keyOf: Book -> string, books: seq<seq<Book>>, target: nat,
                                            max: nat, calls: seq<Fanout>) returns (all: seq<Fanout>)
    requires Pages(fetch, books) && |books| >= 1 && max > 0 && IsSession(fetch, keyOf, target, max, calls)
    ensures IsSession(fetch, keyOf, target, max, all) && IsFinished(all) && calls <= all
    decreases if |calls| <= |books| then |books| - |calls| + 1 else 0
  {
    if IsFinished(calls) {
      return calls;
    }
    var longer := calls + [NextCall(fetch, keyOf, target, max, calls)];
    SessionSnoc(fetch, keyOf, target, max, calls);
    var m := SessionProgress(fetch, keyOf, books, target, max, longer);
    all := SessionCanFinish(fetch, keyOf, books, target, max, longer);
  }

  // The client does come to an end: from any point it can read on to the last page.
  lemma SessionFinishes(server: Upstream, p: ListParams, maxFanout: int, pages: seq<seq<UpstreamBook>>,
                        replies: seq<Paged>) returns (all: seq<Paged>)
    requires Serves(server, p, pages) && IsClientSession(server, p, maxFanout, replies)
    ensures IsClientSession(server, p, maxFanout, all) && IsDone(all) && replies <= all
  {
    var calls := CallsBehind(server, p, maxFanout, replies);
    PagesExactlyWhen(server, p, pages);
    ClientSessionIsSession(server, p, maxFanout, replies);
    var longer := SessionCanFinish(FetchOf(server, p), DedupKey, Converted(pages), Target(p),
                                   EffectiveFanout(maxFanout), calls);
    SessionIsClientSession(server, p, maxFanout, longer);
    AnswersPrefix(longer, |calls|);
    all := AnswersOf(longer);
  }
}
