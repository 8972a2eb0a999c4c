/**
 What ListBooks asks upstream for and what it makes of the answer: every parameter in its own
 place, the page that the cursor names, and books that upstream has.
 */
module QueryLaws {
  import opened Wrappers
  import opened Decimal
  import opened Keys
  import opened Catalog
  import opened Pagination

  // A parameter is sent as it is, or not at all when it is empty.
  predicate Sends(sent: Option<string>, s: string) {
    if s == "" then sent == None else sent == Some(s)
  }

  lemma QueryByParams(p: ListParams)
    ensures var q := QueryOf(p);
            && Sends(q.page, p.cursor) && Sends(q.sort, p.sort) && Sends(q.order, p.order)
            && Sends(q.author, p.author) && Sends(q.series, p.series) && Sends(q.genre, p.genre) && Sends(q.tag, p.tag)
            && Sends(q.q, p.query) && (q.search <==> p.query != "")
            && (p.limit <= 0 ==> q.limit == None) && (p.limit > 0 ==> q.limit == Some(Itoa(p.limit)))
  {
  }

  // A cursor that is not a number asks for the first page, and so does one that is not positive.
  lemma BadCursorAsksForFirst(cursor: string, i: nat)
    requires i < |cursor| && !('0' <= cursor[i] <= '9') && (i == 0 ==> cursor[0] != '+')
    ensures Requested(cursor) == 1
  {
    if i == 0 && cursor[0] == '-' {
    } else {
      NotANumber(cursor, i);
    }
  }

  // ---------- an upstream that looks only at the page ----------

  type Catalogue = pages: seq<seq<UpstreamBook>> | 1 <= |pages| <= MAX_INT64 witness [[]]

  // It serves the page named in the query, and the first when none is named.
  function PageServer(pages: Catalogue, total: Int64): Upstream {
    (q: Query) =>
      var n := if q.page.None? then Some(1) else Atoi(q.page.value);
      if n.Some? && 1 <= n.value <= |pages| then Ok(UpstreamPage(pages[n.value - 1], total, |pages|))
      else Err("no such page")
  }

  lemma PageServerAnswers(pages: Catalogue, total: Int64, p: ListParams, n: nat)
    requires 1 <= n <= |pages|
    ensures PageServer(pages, total)(QueryOf(p.(cursor := CursorOf(n)))) ==
            Ok(UpstreamPage(pages[n - 1], total, |pages|))
  {
    AtoiInvertsItoa(n);
  }

  // Every catalogue can be served.
  lemma PageServerServes(pages: Catalogue, total: Int64, p: ListParams)
    ensures Serves(PageServer(pages, total), p, pages)
  {
    forall n | 1 <= n <= |pages|
      ensures Answers(PageServer(pages, total), p, pages, n) && TellsEnd(PageServer(pages, total), p, pages, n)
    {
      PageServerAnswers(pages, total, p, n);
    }
  }

  // With the n-th page's number as the cursor ListBooks returns the books of the n-th page, the
  // number of the next one, and upstream's total.
  lemma ListsNamedPage(pages: Catalogue, total: Int64, p: ListParams, n: nat)
    requires 1 <= n <= |pages| && (p.cursor == Itoa(n) || (n == 1 && p.cursor == ""))
    ensures Listed(PageServer(pages, total), p) ==
            Ok(Paged(ToBooks(pages[n - 1]), if n < |pages| then Itoa(n + 1) else "", total))
  {
    AtoiInvertsItoa(n);
  }

  // An error is passed on as it is.
  lemma ErrorIsPassedOn(server: Upstream, p: ListParams, e: string)
    requires forall q :: server(q) == Err(e)
    ensures Listed(server, p) == Err(e)
  {
  }

  // ---------- which upstream books are one ----------

  // The books in upstream's order, each with upstream's id, title, ISBN, series and index, and with
  // its list of authors, or its single author if that is empty.
  lemma BooksByFields(ubs: seq<UpstreamBook>, i: nat)
    requires i < |ubs|
    ensures |ToBooks(ubs)| == |ubs|
    ensures var b, ub := ToBooks(ubs)[i], ubs[i];
            && b.id == ub.id && b.title == ub.title && b.isbn == ub.isbn13
            && b.series == ub.series && b.seriesIndex == ub.seriesIndex
            && (ub.authors != [] ==> b.authors == ub.authors)
            && (ub.authors == [] && ub.author != "" ==> b.authors == [ub.author])
            && (ub.authors == [] && ub.author == "" ==> b.authors == [])
  {
  }

  function FirstAuthor(ub: UpstreamBook): string {
    if |ub.authors| > 0 then ub.authors[0] else ub.author
  }

  predicate SameUpstreamWork(x: UpstreamBook, y: UpstreamBook) {
    && Words(x.title) == Words(y.title)
    && if Words(x.title) == [] then x.id == y.id
       else
         && Words(FirstAuthor(x)) == Words(FirstAuthor(y))
         && Words(x.series) == Words(y.series) && x.seriesIndex == y.seriesIndex
  }

  // Two of upstream's books are listed as one exactly when they are the same work by upstream's own
  // fields; a book without an author list counts by its single author.
  lemma ListedAsOne(x: UpstreamBook, y: UpstreamBook)
    ensures DedupKey(ToBook(x)) == DedupKey(ToBook(y)) <==> SameUpstreamWork(x, y)
  {
    SameDedupKeyIffSameWork(ToBook(x), ToBook(y));
    assert FirstAuthorWords(ToBook(x)) == Words(FirstAuthor(x));
    assert FirstAuthorWords(ToBook(y)) == Words(FirstAuthor(y));
  }
}
