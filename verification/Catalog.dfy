/**
 internal/bookwarehouse/catalog.go: ListBooks and ListBooksDeduped.

 Upstream is a function from the query sent to it to its answer. Within one call of
 ListBooksDeduped no query is sent twice, so nothing is lost by that.
 */
module Catalog {
  import opened Wrappers
  import opened Decimal
  import opened Keys
  import opened Dedup

  datatype ListParams = ListParams(
    cursor: string, limit: int, sort: string, order: string, query: string,
    author: string, series: string, genre: string, tag: string)

  // The request line: absent parameters are not sent.
  datatype Query = Query(
    search: bool, page: Option<string>, limit: Option<string>, sort: Option<string>, order: Option<string>,
    author: Option<string>, series: Option<string>, genre: Option<string>, tag: Option<string>, q: Option<string>)

  datatype UpstreamBook = UpstreamBook(
    id: string, title: string, author: string, authors: seq<string>, isbn13: string, series: string, seriesIndex: Float)

  // A decoded answer. Upstream also echoes a page number, which is not read.
  datatype UpstreamPage = UpstreamPage(books: seq<UpstreamBook>, totalItems: Int64, totalPages: Int64)

  type Upstream = Query -> Result<UpstreamPage, string>

  datatype Paged = Paged(items: seq<Book>, nextCursor: string, total: int)

  const NOTHING := Paged([], "", 0)

  function Sent(s: string): Option<string> {
    if s == "" then None else Some(s)
  }

  function QueryOf(p: ListParams): Query {
    Query(p.query != "", Sent(p.cursor), if p.limit > 0 then Some(Itoa(p.limit)) else None, Sent(p.sort), Sent(p.order),
          Sent(p.author), Sent(p.series), Sent(p.genre), Sent(p.tag), Sent(p.query))
  }

  function ToBook(ub: UpstreamBook): Book {
    Book(ub.id, ub.title,
         if |ub.authors| > 0 then ub.authors else if ub.author != "" then [ub.author] else [],
         ub.isbn13, ub.series, ub.seriesIndex)
  }

  function ToBooks(ubs: seq<UpstreamBook>): (bs: seq<Book>)
    ensures |bs| == |ubs|
  {
    seq(|ubs|, i requires 0 <= i < |ubs| => ToBook(ubs[i]))
  }

  // The page a cursor asks for; a cursor that is not a positive number asks for the first.
  function Requested(cursor: string): (n: Int64)
    ensures n > 0
  {
    if cursor == "" then 1 else
    match Atoi(cursor)
    case None => 1
    case Some(n) => if n > 0 then n else 1
  }

  // n + 1 in 64 bits.
  function Next(n: Int64): Int64 {
    if n == MAX_INT64 then MIN_INT64 else n + 1
  }

  function NextCursor(p: ListParams, page: UpstreamPage): string {
    if page.totalPages > 0 then
      if Requested(p.cursor) < page.totalPages then Itoa(Next(Requested(p.cursor))) else ""
    else if p.limit > 0 && |page.books| >= p.limit then Itoa(Next(Requested(p.cursor)))
    else ""
  }

  function Listed(server: Upstream, p: ListParams): Result<Paged, string> {
    match server(QueryOf(p))
    case Err(e) => Err(e)
    case Ok(page) => Ok(Paged(ToBooks(page.books), NextCursor(p, page), page.totalItems))
  }

  method ListBooks(server: Upstream, p: ListParams) returns (result: Result<Paged, string>)
    ensures result == Listed(server, p)
  {
    var search := p.query != "";
    var page, limit := None, None;
    if p.cursor != "" {
      page := Some(p.cursor);
    }
    if p.limit > 0 {
      limit := Some(Itoa(p.limit));
    }
    var response := server(Query(search, page, limit, Sent(p.sort), Sent(p.order), Sent(p.author), Sent(p.series),
                                 Sent(p.genre), Sent(p.tag), Sent(p.query)));
    if response.Err? {
      return Err(response.error);
    }
    var upstream := response.value;
    var requested: Int64 := 1;
    if p.cursor != "" {
      var n := Atoi(p.cursor);
      if n.Some? && n.value > 0 {
        requested := n.value;
      }
    }
    var nextCursor := "";
    if upstream.totalPages > 0 {
      if requested < upstream.totalPages {
        nextCursor := Itoa(Next(requested));
      }
    } else if p.limit > 0 && |upstream.books| >= p.limit {
      nextCursor := Itoa(Next(requested));
    }
    var items := Convert(upstream.books);
    result := Ok(Paged(items, nextCursor, upstream.totalItems));
  }

  method Convert(books: seq<UpstreamBook>) returns (items: seq<Book>)
    ensures items == ToBooks(books)
  {
    items := [];
    for i := 0 to |books|
      invariant items == ToBooks(books)[..i]
    {
      var ub := books[i];
      var authors: seq<string> := [];
      if |ub.authors| > 0 {
        authors := ub.authors;
      } else if ub.author != "" {
        authors := [ub.author];
      }
      items := items + [Book(ub.id, ub.title, authors, ub.isbn13, ub.series, ub.seriesIndex)];
    }
  }

  // ---------- the fan-out ----------

  function EffectiveFanout(maxFanout: int): nat {
    if maxFanout <= 0 then 10 else maxFanout
  }

  function Target(p: ListParams): nat {
    if p.limit <= 0 then 50 else p.limit
  }

  // Fetching one page of a listing, by cursor.
  type Fetch = string -> Result<Paged, string>

  function FetchOf(server: Upstream, p: ListParams): Fetch {
    (cursor: string) => Listed(server, p.(cursor := cursor))
  }

  function Distinct(bs: seq<Book>): seq<Book> {
    FirstOccurrences(bs, DedupKey)
  }

  // A fan-out: the cursors fetched, the books of the fetched pages before deduplication, the
  // cursor and total of the last page, and the error that ended it.
  datatype Fanout = Fanout(cursors: seq<string>, books: seq<Book>, next: string, total: int, err: Option<string>)

  const NO_FANOUT := Fanout([], [], "", 0, None)

  // The fan-out after one more page.
  function WithPage(f: Fanout, cursor: string, page: Paged): Fanout {
    Fanout(f.cursors + [cursor], f.books + page.items, page.nextCursor, page.total, None)
  }

  function WithError(f: Fanout, cursor: string, e: string): Fanout {
    f.(cursors := f.cursors + [cursor], err := Some(e))
  }

  // At most `left` more pages from the cursor on: until there are enough different books, there
  // is no next page, or a page fails.
  function FanOut(fetch: Fetch, keyOf: Book -> string, target: nat, left: nat, f: Fanout, cursor: string): Fanout
    decreases left
  {
    if left == 0 then f else
    match fetch(cursor)
    case Err(e) => WithError(f, cursor, e)
    case Ok(page) =>
      var g := WithPage(f, cursor, page);
      if |FirstOccurrences(g.books, keyOf)| >= target || g.next == "" then g
      else FanOut(fetch, keyOf, target, left - 1, g, g.next)
  }

  function Call(fetch: Fetch, keyOf: Book -> string, target: nat, max: nat, cursor: string): Fanout {
    FanOut(fetch, keyOf, target, max, NO_FANOUT, cursor)
  }

  function Deduped(server: Upstream, p: ListParams, maxFanout: int): Fanout {
    Call(FetchOf(server, p), DedupKey, Target(p), EffectiveFanout(maxFanout), p.cursor)
  }

  // What the caller of a fan-out gets.
  function Answer(f: Fanout, keyOf: Book -> string): Paged {
    Paged(FirstOccurrences(f.books, keyOf), f.next, f.total)
  }

  // The items are the first occurrences of all that was fetched, and seen is their key set.
  ghost predicate KeepsFirsts(items: seq<Book>, seen: set<string>, all: seq<Book>, keyOf: Book -> string) {
    && items == FirstOccurrences(all, keyOf)
    && forall key :: key in seen <==> HasKey(items, keyOf, key)
  }

  // fetch and keyOf are what ListBooks and dedupKey compute.
  ghost predicate IsListing(server: Upstream, p: ListParams, fetch: Fetch) {
    forall cursor {:trigger Listed(server, p.(cursor := cursor))} ::
      fetch(cursor) == Listed(server, p.(cursor := cursor))
  }

  ghost predicate IsDedupKey(keyOf: Book -> string) {
    forall b {:trigger DedupKey(b)} :: keyOf(b) == DedupKey(b)
  }

  method ListBooksDeduped(server: Upstream, p: ListParams, maxFanout: int) returns (out: Paged, err: Option<string>)
    ensures out == Answer(Deduped(server, p, maxFanout), DedupKey) && err == Deduped(server, p, maxFanout).err
  {
    var max := if maxFanout <= 0 then 10 else maxFanout;
    var target := if p.limit <= 0 then 50 else p.limit;
    out, err := FanOutLoop(server, p, target, max, FetchOf(server, p), DedupKey);
  }

  // One page of the listing.
  method ListPage(server: Upstream, p: ListParams, cursor: string, ghost fetch: Fetch)
    returns (page: Result<Paged, string>)
    requires IsListing(server, p, fetch)
    ensures page == fetch(cursor)
  {
    page := ListBooks(server, p.(cursor := cursor));
  }

  // Its loop. The set of seen keys makes it keep the first occurrences of everything fetched.
  // After an error the items of the pages before it are returned with the error.
  method FanOutLoop(server: Upstream, p: ListParams, target: nat, max: nat, ghost fetch: Fetch,
                    ghost keyOf: Book -> string)
    returns (out: Paged, err: Option<string>)
    requires IsListing(server, p, fetch) && IsDedupKey(keyOf)
    ensures out == Answer(Call(fetch, keyOf, target, max, p.cursor), keyOf)
    ensures err == Call(fetch, keyOf, target, max, p.cursor).err
  {
    var seen: set<string> := {};
    out := NOTHING;
    err := None;
    var cursor := p.cursor;
    ghost var f := NO_FANOUT;
    var i := 0;
    while i < max
      invariant i <= max
      invariant out == Paged(out.items, f.next, f.total) && err == f.err == None
      invariant KeepsFirsts(out.items, seen, f.books, keyOf)
      invariant Call(fetch, keyOf, target, max, p.cursor) == FanOut(fetch, keyOf, target, max - i, f, cursor)
    {
      var page := ListPage(server, p, cursor, fetch);
      if page.Err? {
        return out, Some(page.error);
      }
      f := WithPage(f, cursor, page.value);
      out := out.(total := page.value.total, nextCursor := page.value.nextCursor);
      var items;
      items, seen := AddNew(page.value.items, out.items, seen, f.books[..|f.books| - |page.value.items|], keyOf);
      out := out.(items := items);
      if |out.items| >= target || page.value.nextCursor == "" {
        return;
      }
      cursor := page.value.nextCursor;
      i := i + 1;
    }
  }

  // The inner loop: append the page's books whose key has not been seen.
  method AddNew(page: seq<Book>, items: seq<Book>, seen: set<string>, ghost before: seq<Book>,
                ghost keyOf: Book -> string)
    returns (items': seq<Book>, seen': set<string>)
    requires KeepsFirsts(items, seen, before, keyOf) && IsDedupKey(keyOf)
    ensures KeepsFirsts(items', seen', before + page, keyOf)
  {
    items', seen' := items, seen;
    assert before + page[..0] == before;
    for i := 0 to |page|
      invariant KeepsFirsts(items', seen', before + page[..i], keyOf)
    {
      var b := page[i];
      var key := ComputeDedupKey(b);
      assert (before + page[..i]) + [b] == before + page[..i + 1];
      KeepsFirstsSnoc(items', seen', before + page[..i], keyOf, b);
      if key in seen' {
        continue;
      }
      seen' := seen' + {key};
      items' := items' + [b];
    }
    assert page[..|page|] == page;
  }

  lemma KeepsFirstsSnoc(items: seq<Book>, seen: set<string>, all: seq<Book>, keyOf: Book -> string, b: Book)
    requires KeepsFirsts(items, seen, all, keyOf)
    ensures if keyOf(b) in seen then KeepsFirsts(items, seen, all + [b], keyOf)
            else KeepsFirsts(items + [b], seen + {keyOf(b)}, all + [b], keyOf)
  {
    FirstOccurrencesKeys(all, keyOf);
    assert (all + [b])[..|all|] == all;
    if keyOf(b) !in seen {
      forall key ensures key in seen + {keyOf(b)} <==> HasKey(items + [b], keyOf, key) {
        HasKeySnoc(items, keyOf, b, key);
      }
    }
  }

  // ---------- what a fan-out has fetched ----------

  // The fetched pages, concatenated.
  function Fetched(fetch: Fetch, cursors: seq<string>): seq<Book> {
    if cursors == [] then []
    else
      var last := fetch(cursors[|cursors|-1]);
      Fetched(fetch, cursors[..|cursors|-1]) + if last.Ok? then last.value.items else []
  }

  predicate LeadsTo(fetch: Fetch, cursor: string, next: string) {
    next != "" && fetch(cursor).Ok? && fetch(cursor).value.nextCursor == next
  }

  // Each cursor is the next cursor of the page before it.
  predicate IsChain(fetch: Fetch, cursors: seq<string>) {
    |cursors| <= 1 ||
    (IsChain(fetch, cursors[..|cursors|-1]) && LeadsTo(fetch, cursors[|cursors|-2], cursors[|cursors|-1]))
  }

  // The outcome is that of the last page fetched.
  ghost predicate EndsWith(fetch: Fetch, f: Fanout, cursor: string) {
    match fetch(cursor)
    case Err(e) => f.err == Some(e)
    case Ok(page) => f.err == None && f.next == page.nextCursor && f.total == page.total
  }

  // A fan-out goes on only as long as it is short of books.
  ghost predicate WasShort(fetch: Fetch, keyOf: Book -> string, target: nat, f: Fanout) {
    |f.cursors| > 1 ==> |FirstOccurrences(Fetched(fetch, f.cursors[..|f.cursors|-1]), keyOf)| < target
  }

  // What holds of a fan-out: it has followed the chain from its first cursor, holds what it
  // fetched, and its outcome is that of its last page.
  ghost predicate FollowsChain(fetch: Fetch, f: Fanout) {
    && IsChain(fetch, f.cursors)
    && f.books == Fetched(fetch, f.cursors)
    && f.cursors != [] && EndsWith(fetch, f, f.cursors[|f.cursors|-1])
  }

  lemma ChainSnoc(fetch: Fetch, cursors: seq<string>, cursor: string)
    requires IsChain(fetch, cursors)
    requires cursors != [] ==> LeadsTo(fetch, cursors[|cursors|-1], cursor)
    ensures IsChain(fetch, cursors + [cursor])
  {
    assert (cursors + [cursor])[..|cursors|] == cursors;
  }

  lemma FetchedSnoc(fetch: Fetch, cursors: seq<string>, cursor: string)
    ensures Fetched(fetch, cursors + [cursor]) ==
            Fetched(fetch, cursors) + if fetch(cursor).Ok? then fetch(cursor).value.items else []
  {
    assert (cursors + [cursor])[..|cursors|] == cursors;
  }

  lemma {:induction false} FanOutFetches(fetch: Fetch, keyOf: Book -> string, target: nat, left: nat, f: Fanout,
                                         cursor: string)
    requires f.books == Fetched(fetch, f.cursors)
    ensures var g := FanOut(fetch, keyOf, target, left, f, cursor); g.books == Fetched(fetch, g.cursors)
    decreases left
  {
    if left > 0 {
      FetchedSnoc(fetch, f.cursors, cursor);
      if fetch(cursor).Ok? {
        var g := WithPage(f, cursor, fetch(cursor).value);
        FanOutFetches(fetch, keyOf, target, left - 1, g, g.next);
      }
    }
  }

  // The cursors fetched are a chain, and the next one would continue it.
  ghost predicate ChainsTo(fetch: Fetch, cursors: seq<string>, cursor: string) {
    IsChain(fetch, cursors) && (cursors != [] ==> LeadsTo(fetch, cursors[|cursors|-1], cursor))
  }

  lemma PageChains(fetch: Fetch, f: Fanout, cursor: string, g: Fanout)
    requires ChainsTo(fetch, f.cursors, cursor) && fetch(cursor).Ok? && g == WithPage(f, cursor, fetch(cursor).value)
    ensures IsChain(fetch, g.cursors) && (g.next != "" ==> ChainsTo(fetch, g.cursors, g.next))
  {
    ChainSnoc(fetch, f.cursors, cursor);
  }

  lemma {:induction false} FanOutChains(fetch: Fetch, keyOf: Book -> string, target: nat, left: nat, f: Fanout,
                                        cursor: string)
    requires ChainsTo(fetch, f.cursors, cursor)
    ensures IsChain(fetch, FanOut(fetch, keyOf, target, left, f, cursor).cursors)
    decreases left
  {
    if left > 0 {
      if fetch(cursor).Err? {
        ChainSnoc(fetch, f.cursors, cursor);
      } else {
        var g := WithPage(f, cursor, fetch(cursor).value);
        PageChains(fetch, f, cursor, g);
        if g.next != "" {
          FanOutChains(fetch, keyOf, target, left - 1, g, g.next);
        }
      }
    }
  }

  lemma {:induction false} FanOutEnds(fetch: Fetch, keyOf: Book -> string, target: nat, left: nat, f: Fanout,
                                      cursor: string)
    requires left > 0
    ensures var g := FanOut(fetch, keyOf, target, left, f, cursor);
            g.cursors != [] && EndsWith(fetch, g, g.cursors[|g.cursors|-1])
    decreases left
  {
    if left > 1 && fetch(cursor).Ok? {
      var g := WithPage(f, cursor, fetch(cursor).value);
      FanOutEnds(fetch, keyOf, target, left - 1, g, g.next);
    }
  }

  lemma ShortSnoc(fetch: Fetch, keyOf: Book -> string, target: nat, f: Fanout, g: Fanout, cursor: string)
    requires f.books == Fetched(fetch, f.cursors) && g.cursors == f.cursors + [cursor]
    requires f.cursors != [] ==> |FirstOccurrences(f.books, keyOf)| < target
    ensures WasShort(fetch, keyOf, target, g)
  {
    assert g.cursors[..|f.cursors|] == f.cursors;
  }

  lemma {:induction false} FanOutWasShort(fetch: Fetch, keyOf: Book -> string, target: nat, left: nat, f: Fanout,
                                          cursor: string)
    requires f.books == Fetched(fetch, f.cursors) && WasShort(fetch, keyOf, target, f)
    requires f.cursors != [] ==> |FirstOccurrences(f.books, keyOf)| < target
    ensures WasShort(fetch, keyOf, target, FanOut(fetch, keyOf, target, left, f, cursor))
    decreases left
  {
    if left > 0 {
      if fetch(cursor).Err? {
        ShortSnoc(fetch, keyOf, target, f, WithError(f, cursor, fetch(cursor).error), cursor);
      } else {
        var g := WithPage(f, cursor, fetch(cursor).value);
        ShortSnoc(fetch, keyOf, target, f, g, cursor);
        FetchedSnoc(fetch, f.cursors, cursor);
        if |FirstOccurrences(g.books, keyOf)| < target {
          FanOutWasShort(fetch, keyOf, target, left - 1, g, g.next);
        }
      }
    }
  }

  lemma {:induction false} FanOutLength(fetch: Fetch, keyOf: Book -> string, target: nat, left: nat, f: Fanout,
                                        cursor: string)
    ensures var g := FanOut(fetch, keyOf, target, left, f, cursor);
            && f.cursors <= g.cursors && |g.cursors| <= |f.cursors| + left
            && (left > 0 ==> |g.cursors| > |f.cursors| && g.cursors[|f.cursors|] == cursor)
    decreases left
  {
    if left > 0 && fetch(cursor).Ok? {
      var g := WithPage(f, cursor, fetch(cursor).value);
      FanOutLength(fetch, keyOf, target, left - 1, g, g.next);
    }
  }

  lemma {:induction false} FanOutStops(fetch: Fetch, keyOf: Book -> string, target: nat, left: nat, f: Fanout,
                                       cursor: string)
    requires left > 0
    ensures var g := FanOut(fetch, keyOf, target, left, f, cursor);
            g.err.None? ==>
              |FirstOccurrences(g.books, keyOf)| >= target || g.next == "" || |g.cursors| == |f.cursors| + left
    decreases left
  {
    if left > 1 && fetch(cursor).Ok? {
      var g := WithPage(f, cursor, fetch(cursor).value);
      FanOutStops(fetch, keyOf, target, left - 1, g, g.next);
    }
  }

  lemma CallFollowsChain(fetch: Fetch, keyOf: Book -> string, target: nat, max: nat, cursor: string)
    requires max > 0
    ensures var f := Call(fetch, keyOf, target, max, cursor);
            && FollowsChain(fetch, f) && WasShort(fetch, keyOf, target, f)
            && 1 <= |f.cursors| <= max && f.cursors[0] == cursor
            && (f.err.None? ==> |FirstOccurrences(f.books, keyOf)| >= target || f.next == "" || |f.cursors| == max)
  {
    FanOutFetches(fetch, keyOf, target, max, NO_FANOUT, cursor);
    FanOutChains(fetch, keyOf, target, max, NO_FANOUT, cursor);
    FanOutEnds(fetch, keyOf, target, max, NO_FANOUT, cursor);
    FanOutWasShort(fetch, keyOf, target, max, NO_FANOUT, cursor);
    FanOutLength(fetch, keyOf, target, max, NO_FANOUT, cursor);
    FanOutStops(fetch, keyOf, target, max, NO_FANOUT, cursor);
  }

  // The page a fan-out stands on: the cursor and total it would return now.
  ghost predicate StandsOn(fetch: Fetch, cursors: seq<string>, next: string, total: int) {
    if cursors == [] then next == "" && total == 0
    else
      var page := fetch(cursors[|cursors|-1]);
      page.Ok? && next == page.value.nextCursor && total == page.value.total
  }

  // The pages that did not fail.
  function Good(f: Fanout): seq<string>
    requires f.cursors != []
  {
    if f.err.None? then f.cursors else f.cursors[..|f.cursors|-1]
  }

  lemma {:induction false} FanOutStandsOn(fetch: Fetch, keyOf: Book -> string, target: nat, left: nat, f: Fanout,
                                          cursor: string)
    requires left > 0 && f.err.None? && StandsOn(fetch, f.cursors, f.next, f.total)
    ensures var g := FanOut(fetch, keyOf, target, left, f, cursor);
            g.cursors != [] && StandsOn(fetch, Good(g), g.next, g.total)
    decreases left
  {
    if fetch(cursor).Err? {
      var g := WithError(f, cursor, fetch(cursor).error);
      assert g.cursors[..|f.cursors|] == f.cursors;
    } else if left > 1 {
      var g := WithPage(f, cursor, fetch(cursor).value);
      FanOutStandsOn(fetch, keyOf, target, left - 1, g, g.next);
    }
  }

  // The cursor and the total that ListBooksDeduped returns are those of the last page it fetched,
  // or of the last before the page that failed, whose error it returns.
  lemma AnswerOfLastPage(server: Upstream, p: ListParams, maxFanout: int)
    ensures var f := Deduped(server, p, maxFanout);
            var out := Answer(f, DedupKey);
            && f.cursors != []
            && StandsOn(FetchOf(server, p), Good(f), out.nextCursor, out.total)
            && (f.err.Some? ==> Listed(server, p.(cursor := f.cursors[|f.cursors|-1])) == Err(f.err.value))
  {
    var fetch := FetchOf(server, p);
    FanOutStandsOn(fetch, DedupKey, Target(p), EffectiveFanout(maxFanout), NO_FANOUT, p.cursor);
    FanOutEnds(fetch, DedupKey, Target(p), EffectiveFanout(maxFanout), NO_FANOUT, p.cursor);
  }

  // Its items are the books at exactly the positions of the fetched pages where a key is new, in
  // order.
  lemma AnswerInOrder(server: Upstream, p: ListParams, maxFanout: int) returns (at: seq<int>)
    ensures var f := Deduped(server, p, maxFanout);
            var items := Answer(f, DedupKey).items;
            && |at| == |items|
            && (forall k :: 0 <= k < |at| ==> IsFirst(f.books, DedupKey, at[k]) && items[k] == f.books[at[k]])
            && (forall k, l :: 0 <= k < l < |at| ==> at[k] < at[l])
            && (forall i :: IsFirst(f.books, DedupKey, i) ==> i in at)
  {
    at := FirstOccurrencesKeepsFirsts(Deduped(server, p, maxFanout).books, DedupKey);
  }

  // What the caller of ListBooksDeduped may rely on, for any upstream whose pages hold at most
  // pageSize books: how many pages it fetched and which, how many items it returns, why it may
  // return fewer than asked, and that every fetched book is represented exactly once. Without a
  // limit 50 books are asked for, without a fan-out limit 10 pages.
  lemma DedupedListing(server: Upstream, p: ListParams, maxFanout: int, pageSize: nat)
    requires forall cursor :: FetchOf(server, p)(cursor).Ok? ==> |FetchOf(server, p)(cursor).value.items| <= pageSize
    ensures var f := Deduped(server, p, maxFanout);
            var out, target, max := Answer(f, DedupKey), if p.limit <= 0 then 50 else p.limit,
                                    if maxFanout <= 0 then 10 else maxFanout;
            && 1 <= |f.cursors| <= max
            && f.cursors[0] == p.cursor && IsChain(FetchOf(server, p), f.cursors)
            && f.books == Fetched(FetchOf(server, p), f.cursors)
            && |out.items| <= target - 1 + pageSize
            && (f.err.None? && |out.items| < target ==> out.nextCursor == "" || |f.cursors| == max)
            && (out.items == [] <==> f.books == [])
            && (forall b :: b in f.books ==> HasKey(out.items, DedupKey, DedupKey(b)))
            && (forall k, l :: 0 <= k < l < |out.items| ==> DedupKey(out.items[k]) != DedupKey(out.items[l]))
  {
    var fetch := FetchOf(server, p);
    CallFollowsChain(fetch, DedupKey, Target(p), EffectiveFanout(maxFanout), p.cursor);
    var f := Deduped(server, p, maxFanout);
    EveryBookIsRepresented(f.books);
    ItemsBounded(fetch, DedupKey, Target(p), f, pageSize);
  }

  lemma WasShortBefore(fetch: Fetch, target: nat, f: Fanout, i: nat)
    requires 0 < i < |f.cursors| && WasShort(fetch, DedupKey, target, f)
    ensures DistinctUpTo(fetch, f.cursors, i) < target
  {
    ShorterIsShort(fetch, f.cursors, i);
  }

  // It goes on only while it is short.
  lemma GoesOnWhileShort(server: Upstream, p: ListParams, maxFanout: int, i: nat)
    requires 0 < i < |Deduped(server, p, maxFanout).cursors|
    ensures var cursors := Deduped(server, p, maxFanout).cursors;
            DistinctUpTo(FetchOf(server, p), cursors, i) < if p.limit <= 0 then 50 else p.limit
  {
    var fetch := FetchOf(server, p);
    CallFollowsChain(fetch, DedupKey, Target(p), EffectiveFanout(maxFanout), p.cursor);
    WasShortBefore(fetch, Target(p), Deduped(server, p, maxFanout), i);
  }

  // The different books of the first j pages.
  function DistinctUpTo(fetch: Fetch, cursors: seq<string>, j: nat): nat
    requires j <= |cursors|
  {
    |Distinct(Fetched(fetch, cursors[..j]))|
  }

  lemma PageAddsBooks(fetch: Fetch, cursors: seq<string>, j: nat)
    requires j < |cursors|
    ensures DistinctUpTo(fetch, cursors, j) <= DistinctUpTo(fetch, cursors, j + 1)
  {
    var page := fetch(cursors[j]);
    assert cursors[..j + 1] == cursors[..j] + [cursors[j]];
    FetchedSnoc(fetch, cursors[..j], cursors[j]);
    FirstOccurrencesAppend(Fetched(fetch, cursors[..j]), if page.Ok? then page.value.items else [], DedupKey);
  }

  lemma ShorterIsShort(fetch: Fetch, cursors: seq<string>, i: nat)
    requires 0 < i < |cursors|
    ensures DistinctUpTo(fetch, cursors, i) <= DistinctUpTo(fetch, cursors, |cursors| - 1)
  {
    for j := i to |cursors| - 1
      invariant DistinctUpTo(fetch, cursors, i) <= DistinctUpTo(fetch, cursors, j)
    {
      PageAddsBooks(fetch, cursors, j);
    }
  }

  lemma EveryBookIsRepresented(bs: seq<Book>)
    ensures var items := Distinct(bs);
            && (items == [] <==> bs == [])
            && (forall b :: b in bs ==> HasKey(items, DedupKey, DedupKey(b)))
            && (forall k, l :: 0 <= k < l < |items| ==> DedupKey(items[k]) != DedupKey(items[l]))
  {
    FirstOccurrencesKeys(bs, DedupKey);
    forall b | b in bs ensures HasKey(bs, DedupKey, DedupKey(b)) {
      var j :| 0 <= j < |bs| && bs[j] == b;
    }
  }

  lemma ItemsBounded(fetch: Fetch, keyOf: Book -> string, target: nat, f: Fanout, pageSize: nat)
    requires FollowsChain(fetch, f) && WasShort(fetch, keyOf, target, f) && target > 0
    requires forall cursor :: fetch(cursor).Ok? ==> |fetch(cursor).value.items| <= pageSize
    ensures |FirstOccurrences(f.books, keyOf)| <= target - 1 + pageSize
  {
    var before, last := f.cursors[..|f.cursors|-1], fetch(f.cursors[|f.cursors|-1]);
    FirstOccurrencesAppend(Fetched(fetch, before), if last.Ok? then last.value.items else [], keyOf);
  }

  // With pages no longer than the limit: at most 2 * limit - 1 items.
  lemma ItemsAtMostTwicePageSize(server: Upstream, p: ListParams, maxFanout: int)
    requires p.limit >= 1
    requires forall cursor :: FetchOf(server, p)(cursor).Ok? ==> |FetchOf(server, p)(cursor).value.items| <= p.limit
    ensures |Answer(Deduped(server, p, maxFanout), DedupKey).items| <= 2 * p.limit - 1
  {
    DedupedListing(server, p, maxFanout, p.limit);
  }
}
