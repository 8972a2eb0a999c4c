/**
 internal/bookwarehouse/catalog.go: normalizeKey and dedupKey, which decide when two books of
 a listing are the same work.
 */
module Keys {

  // ---------- words ----------

  predicate IsAlnum(c: char) {
    'a' <= c <= 'z' || 'A' <= c <= 'Z' || '0' <= c <= '9'
  }

  // What a normalized key is made of, besides single spaces.
  predicate IsKeyChar(c: char) {
    'a' <= c <= 'z' || '0' <= c <= '9'
  }

  function Lower(c: char): (r: char)
    requires IsAlnum(c)
    ensures IsKeyChar(r)
  {
    if 'A' <= c <= 'Z' then (c as int + ('a' as int - 'A' as int)) as char else c
  }

  function LowerAll(s: string): (r: string)
    requires forall i :: 0 <= i < |s| ==> IsAlnum(s[i])
    ensures |r| == |s| && forall i :: 0 <= i < |r| ==> r[i] == Lower(s[i])
  {
    seq(|s|, i requires 0 <= i < |s| => Lower(s[i]))
  }

  // The length of the run of letters and digits that s starts with.
  function RunLength(s: string): (n: nat)
    ensures n <= |s| && forall i :: 0 <= i < n ==> IsAlnum(s[i])
    ensures n < |s| ==> !IsAlnum(s[n])
  {
    if s == [] || !IsAlnum(s[0]) then 0 else
    var n := RunLength(s[1..]);
    assert forall i :: 0 < i < n + 1 ==> s[i] == s[1..][i - 1];
    n + 1
  }

  predicate IsWord(w: string) {
    w != [] && forall i :: 0 <= i < |w| ==> IsKeyChar(w[i])
  }

  // The maximal runs of ASCII letters and digits of s, lower-cased, in order.
  function Words(s: string): (ws: seq<string>)
    ensures forall i :: 0 <= i < |ws| ==> IsWord(ws[i])
    decreases |s|
  {
    if s == [] then []
    else if !IsAlnum(s[0]) then Words(s[1..])
    else [LowerAll(s[..RunLength(s)])] + Words(s[RunLength(s)..])
  }

  function Join(ws: seq<string>): string {
    if ws == [] then ""
    else if |ws| == 1 then ws[0]
    else ws[0] + " " + Join(ws[1..])
  }

  function NormalKey(s: string): string {
    Join(Words(s))
  }

  lemma RunLengthIs(s: string, n: nat)
    requires n <= |s| && (forall i :: 0 <= i < n ==> IsAlnum(s[i])) && (n < |s| ==> !IsAlnum(s[n]))
    ensures RunLength(s) == n
  {
    var m := RunLength(s);
    assert m < |s| ==> !IsAlnum(s[m]);
    assert n < |s| ==> !IsAlnum(s[n]);
  }

  // One more character: it is dropped, starts a word, or extends the last one.
  ghost predicate Extended(s: string, ws: seq<string>, c: char, all: seq<string>) {
    if !IsAlnum(c) then all == ws
    else if s == [] || !IsAlnum(s[|s|-1]) then all == ws + [[Lower(c)]]
    else ws != [] && all == ws[..|ws|-1] + [ws[|ws|-1] + [Lower(c)]]
  }

  // A first word in front changes nothing about that.
  lemma ExtendedBehind(w: string, s: string, t: string, ws: seq<string>, c: char, all: seq<string>)
    requires s != [] && Extended(s, ws, c, all) && t != [] && t[|t|-1] == s[|s|-1]
    ensures Extended(t, [w] + ws, c, [w] + all)
  {
    if ws != [] {
      assert ([w] + ws)[..|ws|] == [w] + ws[..|ws|-1];
    }
  }

  lemma WordsOfRun(s: string)
    requires s != [] && forall i :: 0 <= i < |s| ==> IsAlnum(s[i])
    ensures Words(s) == [LowerAll(s)]
  {
    RunLengthIs(s, |s|);
    assert s[..|s|] == s && s[|s|..] == [];
  }

  // The string is a single run.
  lemma RunSnoc(s: string, c: char)
    requires s != [] && forall i :: 0 <= i < |s| ==> IsAlnum(s[i])
    ensures Extended(s, Words(s), c, Words(s + [c]))
  {
    WordsOfRun(s);
    if IsAlnum(c) {
      RunGoesOn(s, c);
      SingleWordExtended(s, LowerAll(s), c);
    } else {
      RunEnds(s, c);
    }
  }

  lemma RunGoesOn(s: string, c: char)
    requires s != [] && (forall i :: 0 <= i < |s| ==> IsAlnum(s[i])) && IsAlnum(c)
    ensures Words(s + [c]) == [LowerAll(s) + [Lower(c)]]
  {
    WordsOfRun(s + [c]);
    LowerAllSnoc(s, c);
  }

  lemma LowerAllSnoc(s: string, c: char)
    requires (forall i :: 0 <= i < |s| ==> IsAlnum(s[i])) && IsAlnum(c)
    ensures LowerAll(s + [c]) == LowerAll(s) + [Lower(c)]
  {
  }

  lemma SingleWordExtended(s: string, w: string, c: char)
    requires s != [] && IsAlnum(s[|s|-1]) && IsAlnum(c)
    ensures Extended(s, [w], c, [w + [Lower(c)]])
  {
    assert [w][..0] + [w + [Lower(c)]] == [w + [Lower(c)]];
  }

  lemma RunEnds(s: string, c: char)
    requires s != [] && (forall i :: 0 <= i < |s| ==> IsAlnum(s[i])) && !IsAlnum(c)
    ensures Words(s + [c]) == [LowerAll(s)]
  {
    var t := s + [c];
    RunLengthIs(t, |s|);
    assert t[..|s|] == s && t[|s|..] == [c];
    assert Words([c]) == Words([]) by {
      assert [c][1..] == [];
    }
  }

  lemma {:induction false} WordsSnoc(s: string, c: char)
    ensures Extended(s, Words(s), c, Words(s + [c]))
    decreases |s|
  {
    var t := s + [c];
    if s == [] {
      assert t == [c] && t[1..] == [];
      if IsAlnum(c) {
        RunLengthIs(t, 1);
        assert t[..1] == [c] && LowerAll([c]) == [Lower(c)];
      }
    } else if !IsAlnum(s[0]) {
      assert t[1..] == s[1..] + [c];
      WordsSnoc(s[1..], c);
    } else {
      var n := RunLength(s);
      if n == |s| {
        RunSnoc(s, c);
      } else {
        RunLengthIs(t, n);
        assert t[..n] == s[..n] && t[n..] == s[n..] + [c];
        WordsSnoc(s[n..], c);
        ExtendedBehind(LowerAll(s[..n]), s[n..], s, Words(s[n..]), c, Words(t[n..]));
      }
    }
  }

  lemma {:induction false} JoinSnoc(ws: seq<string>, w: string)
    ensures Join(ws + [w]) == if ws == [] then w else Join(ws) + " " + w
  {
    if |ws| > 1 {
      JoinSnoc(ws[1..], w);
      assert (ws + [w])[1..] == ws[1..] + [w];
      assert Join(ws + [w]) == ws[0] + " " + Join(ws[1..] + [w]);
    } else if |ws| == 1 {
      assert (ws + [w])[1..] == [w];
    }
  }

  lemma JoinExtendLast(init: seq<string>, last: string, c: char)
    ensures Join(init + [last + [c]]) == Join(init + [last]) + [c]
  {
    JoinSnoc(init, last);
    JoinSnoc(init, last + [c]);
    if init != [] {
      var head := Join(init) + " ";
      assert head + (last + [c]) == (head + last) + [c];
    }
  }

  predicate EndsInWord(s: string) {
    s != [] && IsAlnum(s[|s|-1])
  }

  // What the loop has written after reading s: the key, and a space once a word has ended.
  function Scanned(s: string): string {
    NormalKey(s) + if Words(s) != [] && !EndsInWord(s) then " " else ""
  }

  lemma ScannedSnoc(s: string, c: char)
    ensures Scanned(s + [c]) ==
            if IsAlnum(c) then Scanned(s) + [Lower(c)]
            else if EndsInWord(s) then Scanned(s) + [' ']
            else Scanned(s)
    ensures EndsInWord(s + [c]) <==> IsAlnum(c)
  {
    if IsAlnum(c) {
      if EndsInWord(s) {
        WordGoesOn(s, c);
      } else {
        WordStarts(s, c);
      }
    } else {
      WordsSnoc(s, c);
      if EndsInWord(s) {
        EndsInWordHasWords(s);
      }
    }
  }

  lemma WordGoesOn(s: string, c: char)
    requires EndsInWord(s) && IsAlnum(c)
    ensures NormalKey(s + [c]) == NormalKey(s) + [Lower(c)]
  {
    WordsSnoc(s, c);
    var ws := Words(s);
    var init, last := ws[..|ws|-1], ws[|ws|-1];
    assert ws == init + [last];
    JoinExtendLast(init, last, Lower(c));
  }

  lemma WordStarts(s: string, c: char)
    requires !EndsInWord(s) && IsAlnum(c)
    ensures Words(s + [c]) != [] && NormalKey(s + [c]) == Scanned(s) + [Lower(c)]
  {
    WordsSnoc(s, c);
    JoinSnoc(Words(s), [Lower(c)]);
  }

  lemma EndsInWordHasWords(s: string)
    requires EndsInWord(s)
    ensures Words(s) != []
  {
    var init, last := s[..|s|-1], s[|s|-1];
    assert s == init + [last];
    WordsSnoc(init, last);
  }

  // The loop of normalizeKey computes the words joined by single spaces.
  method NormalizeKey(s: string) returns (key: string)
    ensures key == NormalKey(s)
  {
    var out: string := [];
    var prevSpace := true;
    for i := 0 to |s|
      invariant prevSpace <==> !EndsInWord(s[..i])
      invariant out == Scanned(s[..i])
    {
      var r := s[i];
      assert s[..i + 1] == s[..i] + [r];
      ScannedSnoc(s[..i], r);
      if 'A' <= r <= 'Z' {
        out := out + [(r as int + ('a' as int - 'A' as int)) as char];
        prevSpace := false;
      } else if 'a' <= r <= 'z' || '0' <= r <= '9' {
        out := out + [r];
        prevSpace := false;
      } else if !prevSpace {
        out := out + [' '];
        prevSpace := true;
      }
    }
    assert s[..|s|] == s;
    KeyShape(s);
    if |out| > 0 && out[|out|-1] == ' ' {
      out := out[..|out|-1];
    }
    key := out;
  }

  // ---------- the shape of keys ----------

  lemma {:induction false} JoinShape(ws: seq<string>)
    requires forall i :: 0 <= i < |ws| ==> IsWord(ws[i])
    ensures var k := Join(ws);
            && (k == "" <==> ws == [])
            && (forall i :: 0 <= i < |k| ==> IsKeyChar(k[i]) || k[i] == ' ')
            && (k != "" ==> k[0] != ' ' && k[|k|-1] != ' ')
            && (forall i :: 0 < i < |k| ==> k[i - 1] != ' ' || k[i] != ' ')
  {
    if |ws| > 1 {
      JoinShape(ws[1..]);
      var k, w, rest := Join(ws), ws[0], Join(ws[1..]);
      assert k == w + " " + rest;
      forall i | 0 <= i < |k| ensures IsKeyChar(k[i]) || k[i] == ' ' {
        assert i < |w| ==> k[i] == w[i];
        assert i > |w| ==> k[i] == rest[i - |w| - 1];
      }
      forall i | 0 < i < |k| ensures k[i - 1] != ' ' || k[i] != ' ' {
        assert i < |w| ==> k[i] == w[i];
        assert i > |w| ==> k[i] == rest[i - |w| - 1];
        assert i > |w| + 1 ==> k[i - 1] == rest[i - |w| - 2];
      }
    }
  }

  // Only lower-case letters, digits and single inner spaces.
  lemma KeyShape(s: string)
    ensures var k := NormalKey(s);
            && (k == "" <==> Words(s) == [])
            && (forall i :: 0 <= i < |k| ==> IsKeyChar(k[i]) || k[i] == ' ')
            && (k != "" ==> k[0] != ' ' && k[|k|-1] != ' ')
            && (forall i :: 0 < i < |k| ==> k[i - 1] != ' ' || k[i] != ' ')
  {
    JoinShape(Words(s));
  }

  lemma {:induction false} WordsOfJoin(ws: seq<string>)
    requires forall i :: 0 <= i < |ws| ==> IsWord(ws[i])
    ensures Words(Join(ws)) == ws
  {
    if ws != [] {
      var w, s := ws[0], Join(ws);
      var tail := if |ws| == 1 then "" else " " + Join(ws[1..]);
      assert s == w + tail;
      RunLengthIs(s, |w|);
      assert s[..|w|] == w && s[|w|..] == tail;
      assert LowerAll(w) == w;
      WordsOfJoin(ws[1..]);
      if |ws| > 1 {
        assert tail[1..] == Join(ws[1..]);
      }
      assert Words(s) == [w] + Words(tail);
    }
  }

  // Two strings get the same key exactly when they have the same words.
  lemma SameKeyIffSameWords(a: string, b: string)
    ensures NormalKey(a) == NormalKey(b) <==> Words(a) == Words(b)
  {
    WordsOfJoin(Words(a));
    WordsOfJoin(Words(b));
  }

  lemma NormalKeyIsIdempotent(s: string)
    ensures NormalKey(NormalKey(s)) == NormalKey(s)
  {
    WordsOfJoin(Words(s));
  }

  // ---------- books ----------

  // A float64 by the shortest decimal text that identifies it, which is what FormatFloat(x,
  // 'f', -1, 64) prints.
  datatype Float = Float(shortest: string)

  datatype Book = Book(
    id: string, title: string, authors: seq<string>, isbn: string, series: string, seriesIndex: Float)

  function AuthorKey(b: Book): string {
    if |b.authors| > 0 then NormalKey(b.authors[0]) else ""
  }

  function FirstAuthorWords(b: Book): seq<string> {
    if |b.authors| > 0 then Words(b.authors[0]) else []
  }

  function DedupKey(b: Book): string {
    if NormalKey(b.title) == "" then "id:" + b.id
    else "ta:" + NormalKey(b.title) + "|" + AuthorKey(b) + "|" + NormalKey(b.series) + "|" + b.seriesIndex.shortest
  }

  method ComputeDedupKey(b: Book) returns (key: string)
    ensures key == DedupKey(b)
  {
    var t := NormalizeKey(b.title);
    if t == "" {
      return "id:" + b.id;
    }
    var a := "";
    if |b.authors| > 0 {
      a := NormalizeKey(b.authors[0]);
    }
    var series := NormalizeKey(b.series);
    key := "ta:" + t + "|" + a + "|" + series + "|" + b.seriesIndex.shortest;
  }

  predicate NoBar(s: string) {
    forall i :: 0 <= i < |s| ==> s[i] != '|'
  }

  // The first '|' ends the first part.
  lemma FirstBarSplits(a: string, x: string, b: string, y: string)
    requires NoBar(a) && NoBar(b) && a + "|" + x == b + "|" + y
    ensures a == b && x == y
  {
    var s := a + "|" + x;
    assert s[|a|] == '|' && s[|b|] == '|';
    assert forall i :: 0 <= i < |a| ==> s[i] == a[i];
    assert forall i :: 0 <= i < |b| ==> s[i] == b[i];
    assert |a| == |b|;
    assert a == s[..|a|] && b == s[..|b|];
    assert x == s[|a| + 1..] && y == s[|b| + 1..];
  }

  lemma KeysHaveNoBar(s: string)
    ensures NoBar(NormalKey(s))
  {
    KeyShape(s);
  }

  // The part of a title key after its prefix.
  function Parts(b: Book): string {
    NormalKey(b.title) + "|" + (AuthorKey(b) + "|" + (NormalKey(b.series) + "|" + b.seriesIndex.shortest))
  }

  lemma TitleKeyParts(b: Book)
    requires NormalKey(b.title) != ""
    ensures DedupKey(b) == "ta:" + Parts(b)
  {
  }

  lemma PartsAreInjective(x: Book, y: Book)
    requires Parts(x) == Parts(y)
    ensures NormalKey(x.title) == NormalKey(y.title) && AuthorKey(x) == AuthorKey(y)
    ensures NormalKey(x.series) == NormalKey(y.series) && x.seriesIndex == y.seriesIndex
  {
    KeysHaveNoBar(x.title);
    KeysHaveNoBar(y.title);
    KeysHaveNoBar(x.series);
    KeysHaveNoBar(y.series);
    assert NoBar(AuthorKey(x)) by {
      if |x.authors| > 0 { KeysHaveNoBar(x.authors[0]); }
    }
    assert NoBar(AuthorKey(y)) by {
      if |y.authors| > 0 { KeysHaveNoBar(y.authors[0]); }
    }
    var x2, y2 := NormalKey(x.series) + "|" + x.seriesIndex.shortest,
                  NormalKey(y.series) + "|" + y.seriesIndex.shortest;
    var x1, y1 := AuthorKey(x) + "|" + x2, AuthorKey(y) + "|" + y2;
    FirstBarSplits(NormalKey(x.title), x1, NormalKey(y.title), y1);
    FirstBarSplits(AuthorKey(x), x2, AuthorKey(y), y2);
    FirstBarSplits(NormalKey(x.series), x.seriesIndex.shortest, NormalKey(y.series), y.seriesIndex.shortest);
  }

  // The same work, in terms of the words of the fields.
  predicate SameWork(x: Book, y: Book) {
    if Words(x.title) == [] || Words(y.title) == [] then
      Words(x.title) == Words(y.title) && x.id == y.id
    else
      && Words(x.title) == Words(y.title)
      && FirstAuthorWords(x) == FirstAuthorWords(y)
      && Words(x.series) == Words(y.series)
      && x.seriesIndex == y.seriesIndex
  }

  lemma AuthorKeyWords(x: Book, y: Book)
    ensures AuthorKey(x) == AuthorKey(y) <==> FirstAuthorWords(x) == FirstAuthorWords(y)
  {
    var a := if |x.authors| > 0 then x.authors[0] else "";
    var b := if |y.authors| > 0 then y.authors[0] else "";
    SameKeyIffSameWords(a, b);
  }

  // Two books share a key exactly when they are the same work.
  lemma SameDedupKeyIffSameWork(x: Book, y: Book)
    ensures DedupKey(x) == DedupKey(y) <==> SameWork(x, y)
  {
    KeyShape(x.title);
    KeyShape(y.title);
    SameKeyIffSameWords(x.title, y.title);
    SameKeyIffSameWords(x.series, y.series);
    AuthorKeyWords(x, y);
    var kx, ky := DedupKey(x), DedupKey(y);
    if NormalKey(x.title) == "" && NormalKey(y.title) == "" {
      assert kx[3..] == x.id && ky[3..] == y.id;
    } else if NormalKey(x.title) != "" && NormalKey(y.title) != "" {
      TitleKeyParts(x);
      TitleKeyParts(y);
      assert kx[3..] == Parts(x) && ky[3..] == Parts(y);
      if kx == ky {
        PartsAreInjective(x, y);
      }
    } else {
      assert kx[0] != ky[0];
    }
  }
}
