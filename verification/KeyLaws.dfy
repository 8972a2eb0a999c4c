/**
 What normalization does to a text, said without its words: which characters separate, that
 capitals and small letters are the same, and that a plain word stays as it is. Together with the
 empty text the laws leave no freedom.
 */
module KeyLaws {
  import opened Keys

  // ---------- separators ----------

  predicate Separates(c: char) {
    !('a' <= c <= 'z') && !('A' <= c <= 'Z') && !('0' <= c <= '9')
  }

  lemma RunStops(a: string, c: char, b: string)
    requires a != [] && Separates(c)
    ensures RunLength(a + [c] + b) == RunLength(a)
  {
    var s, n := a + [c] + b, RunLength(a);
    assert forall i :: 0 <= i < |a| ==> s[i] == a[i];
    assert s[|a|] == c && !IsAlnum(c);
    RunLengthIs(s, n);
  }

  lemma {:induction false} WordsAtSeparator(a: string, c: char, b: string)
    requires Separates(c)
    ensures Words(a + [c] + b) == Words(a) + Words(b)
    decreases |a|
  {
    var s := a + [c] + b;
    if a == [] {
      assert s[0] == c && s[1..] == b;
    } else if !IsAlnum(a[0]) {
      assert s[0] == a[0] && s[1..] == a[1..] + [c] + b;
      WordsAtSeparator(a[1..], c, b);
    } else {
      var n := RunLength(a);
      RunStops(a, c, b);
      assert s[..n] == a[..n] && s[n..] == a[n..] + [c] + b;
      WordsAtSeparator(a[n..], c, b);
    }
  }

  lemma {:induction false} JoinAppend(x: seq<string>, y: seq<string>)
    requires x != [] && y != []
    ensures Join(x + y) == Join(x) + " " + Join(y)
  {
    if |x| == 1 {
      assert (x + y)[1..] == y;
    } else {
      JoinAppend(x[1..], y);
      assert (x + y)[1..] == x[1..] + y;
      assert x[0] + " " + (Join(x[1..]) + " " + Join(y)) == (x[0] + " " + Join(x[1..])) + " " + Join(y);
    }
  }

  function Spaced(x: string, y: string): string {
    if x == "" then y else if y == "" then x else x + " " + y
  }

  // Any character but an ASCII letter or digit parts the text: the two sides are normalized on
  // their own, with one space between them if neither is empty.
  lemma SeparatorParts(a: string, c: char, b: string)
    requires Separates(c)
    ensures NormalKey(a + [c] + b) == Spaced(NormalKey(a), NormalKey(b))
  {
    WordsAtSeparator(a, c, b);
    KeyShape(a);
    KeyShape(b);
    if Words(a) == [] {
      assert Words(a) + Words(b) == Words(b);
    } else if Words(b) == [] {
      assert Words(a) + Words(b) == Words(a);
    } else {
      JoinAppend(Words(a), Words(b));
    }
  }

  // ---------- letters ----------

  predicate SameLetter(c: char, d: char) {
    c == d || (IsAlnum(c) && IsAlnum(d) && Lower(c) == Lower(d))
  }

  ghost predicate SameLetters(s: string, t: string) {
    |s| == |t| && forall i :: 0 <= i < |s| ==> SameLetter(s[i], t[i])
  }

  lemma SameRuns(s: string, t: string)
    requires SameLetters(s, t)
    ensures RunLength(s) == RunLength(t) && LowerAll(s[..RunLength(s)]) == LowerAll(t[..RunLength(t)])
  {
    var n := RunLength(s);
    assert forall i :: 0 <= i < |s| ==> SameLetter(s[i], t[i]);
    RunLengthIs(t, n);
  }

  lemma {:induction false} SameLettersSameWords(s: string, t: string)
    requires SameLetters(s, t)
    ensures Words(s) == Words(t)
    decreases |s|
  {
    if s != [] {
      assert SameLetter(s[0], t[0]);
      if !IsAlnum(s[0]) {
        SameLettersSameWords(s[1..], t[1..]);
      } else {
        SameRuns(s, t);
        SameLettersSameWords(s[RunLength(s)..], t[RunLength(t)..]);
      }
    }
  }

  // A capital and its small letter, anywhere in a text, make no difference.
  lemma CaseIsIgnored(a: string, c: char, d: char, b: string)
    requires 'A' <= c <= 'Z' && d as int == c as int + 32
    ensures NormalKey(a + [c] + b) == NormalKey(a + [d] + b)
  {
    var s, t := a + [c] + b, a + [d] + b;
    assert SameLetter(c, d);
    forall i | 0 <= i < |s| ensures SameLetter(s[i], t[i]) {
      if i == |a| {
        assert s[i] == c && t[i] == d;
      } else {
        assert s[i] == t[i];
      }
    }
    SameLettersSameWords(s, t);
  }

  // A plain word of small letters and digits is its own key.
  lemma PlainWordIsItsKey(s: string)
    requires s != "" && forall i :: 0 <= i < |s| ==> 'a' <= s[i] <= 'z' || '0' <= s[i] <= '9'
    ensures NormalKey(s) == s
  {
    WordsOfRun(s);
    assert LowerAll(s) == s;
  }

  lemma EmptyIsItsKey()
    ensures NormalKey("") == ""
  {
  }
}
