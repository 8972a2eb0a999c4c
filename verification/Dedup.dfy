/** Deduplication by a key: keep the first element with each key. */
module Dedup {

  // Some element has the key.
  predicate HasKey<T(!new)>(xs: seq<T>, keyOf: T -> string, key: string) {
    exists j :: 0 <= j < |xs| && keyOf(xs[j]) == key
  }

  // Keep an element when no earlier element has its key.
  function FirstOccurrences<T(!new)>(xs: seq<T>, keyOf: T -> string): seq<T> {
    if xs == [] then []
    else
      FirstOccurrences(xs[..|xs|-1], keyOf) +
      if HasKey(xs[..|xs|-1], keyOf, keyOf(xs[|xs|-1])) then [] else [xs[|xs|-1]]
  }

  ghost predicate IsFirst<T(!new)>(xs: seq<T>, keyOf: T -> string, i: int) {
    0 <= i < |xs| && !HasKey(xs[..i], keyOf, keyOf(xs[i]))
  }

  // What is kept: the elements at exactly the positions whose key is new, in order.
  lemma {:induction false} FirstOccurrencesKeepsFirsts<T(!new)>(xs: seq<T>, keyOf: T -> string) returns (at: seq<int>)
    ensures |at| == |FirstOccurrences(xs, keyOf)|
    ensures forall k :: 0 <= k < |at| ==> IsFirst(xs, keyOf, at[k]) && FirstOccurrences(xs, keyOf)[k] == xs[at[k]]
    ensures forall k, l :: 0 <= k < l < |at| ==> at[k] < at[l]
    ensures forall i :: IsFirst(xs, keyOf, i) ==> i in at
  {
    if xs == [] {
      at := [];
    } else {
      var n := |xs| - 1;
      var before := FirstOccurrencesKeepsFirsts(xs[..n], keyOf);
      forall i | 0 <= i < n ensures IsFirst(xs, keyOf, i) <==> IsFirst(xs[..n], keyOf, i) {
        assert xs[..n][..i] == xs[..i];
      }
      at := if HasKey(xs[..n], keyOf, keyOf(xs[n])) then before else before + [n];
      forall i | IsFirst(xs, keyOf, i) ensures i in at {
        if i < n {
          assert i in before;
        } else {
          assert at[|at|-1] == n;
        }
      }
    }
  }

  lemma HasKeySnoc<T(!new)>(xs: seq<T>, keyOf: T -> string, x: T, key: string)
    ensures HasKey(xs + [x], keyOf, key) <==> HasKey(xs, keyOf, key) || keyOf(x) == key
  {
    assert (xs + [x])[|xs|] == x;
    if j :| 0 <= j < |xs| && keyOf(xs[j]) == key {
      assert (xs + [x])[j] == xs[j];
    }
  }

  // The same keys, each once.
  lemma {:induction false} FirstOccurrencesKeys<T(!new)>(xs: seq<T>, keyOf: T -> string)
    ensures forall key :: HasKey(FirstOccurrences(xs, keyOf), keyOf, key) <==> HasKey(xs, keyOf, key)
    ensures var kept := FirstOccurrences(xs, keyOf);
            forall k, l :: 0 <= k < l < |kept| ==> keyOf(kept[k]) != keyOf(kept[l])
    ensures FirstOccurrences(xs, keyOf) == [] <==> xs == []
  {
    if xs != [] {
      var before, x := xs[..|xs|-1], xs[|xs|-1];
      FirstOccurrencesKeys(before, keyOf);
      assert before + [x] == xs;
      var kept := FirstOccurrences(before, keyOf);
      assert FirstOccurrences(xs, keyOf) == if HasKey(before, keyOf, keyOf(x)) then kept else kept + [x];
      forall key ensures HasKey(FirstOccurrences(xs, keyOf), keyOf, key) <==> HasKey(xs, keyOf, key) {
        HasKeySnoc(before, keyOf, x, key);
        HasKeySnoc(kept, keyOf, x, key);
      }
      if !HasKey(before, keyOf, keyOf(x)) {
        forall k | 0 <= k < |kept| ensures keyOf(kept[k]) != keyOf(x) {
          assert HasKey(kept, keyOf, keyOf(kept[k]));
        }
      } else {
        assert kept != [];
      }
    }
  }

  lemma {:induction false} FirstOccurrencesAppend<T(!new)>(a: seq<T>, b: seq<T>, keyOf: T -> string)
    ensures |FirstOccurrences(a, keyOf)| <= |FirstOccurrences(a + b, keyOf)| <= |FirstOccurrences(a, keyOf)| + |b|
  {
    if b == [] {
      assert a + b == a;
    } else {
      FirstOccurrencesAppend(a, b[..|b|-1], keyOf);
      assert (a + b)[..|a + b|-1] == a + b[..|b|-1];
    }
  }
}
