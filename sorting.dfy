/**
 * The two library sorts the scripts call: `sorted(xs, key=k, reverse=True)`
 * / `xs.sort(key=k, reverse=True)` with an integer key, which Python keeps
 * stable (equal keys stay in their original order), and plain `sorted` of
 * (year, team) string pairs. Both are written as insertion sorts.
 */
module Sorting {
  import opened Strings

  /** `x` placed before the first element whose key is not larger than its own. */
  function InsertDesc<T>(x: T, s: seq<T>, key: T -> int): seq<T> {
    if s == [] || key(x) >= key(s[0]) then [x] + s else [s[0]] + InsertDesc(x, s[1..], key)
  }

  /** `sorted(s, key=key, reverse=True)`. */
  function SortDesc<T>(s: seq<T>, key: T -> int): seq<T> {
    if s == [] then [] else InsertDesc(s[0], SortDesc(s[1..], key), key)
  }

  ghost predicate NonIncreasing<T>(s: seq<T>, key: T -> int) {
    forall i, j :: 0 <= i < j < |s| ==> key(s[i]) >= key(s[j])
  }

  /** The elements of `s` whose key is `k`, in order. */
  function WithKey<T>(s: seq<T>, key: T -> int, k: int): seq<T> {
    if s == [] then [] else (if key(s[0]) == k then [s[0]] else []) + WithKey(s[1..], key, k)
  }

  ghost predicate KeysAtMost<T>(s: seq<T>, key: T -> int, b: int) {
    forall i :: 0 <= i < |s| ==> key(s[i]) <= b
  }

  lemma ConsNonIncreasing<T>(y: T, t: seq<T>, key: T -> int)
    requires NonIncreasing(t, key) && KeysAtMost(t, key, key(y))
    ensures NonIncreasing([y] + t, key)
  {
    var r := [y] + t;
    forall i, j | 0 <= i < j < |r| ensures key(r[i]) >= key(r[j]) {
      assert r[j] == t[j - 1];
      if i > 0 { assert r[i] == t[i - 1]; }
    }
  }

  lemma {:induction false} InsertDescBound<T>(x: T, s: seq<T>, key: T -> int, b: int)
    requires key(x) <= b && KeysAtMost(s, key, b)
    ensures KeysAtMost(InsertDesc(x, s, key), key, b)
    decreases |s|
  {
    if s != [] && key(x) < key(s[0]) {
      InsertDescBound(x, s[1..], key, b);
      var t := InsertDesc(x, s[1..], key);
      assert InsertDesc(x, s, key) == [s[0]] + t;
    }
  }

  lemma {:induction false} InsertDescMultiset<T>(x: T, s: seq<T>, key: T -> int)
    ensures multiset(InsertDesc(x, s, key)) == multiset([x] + s)
    decreases |s|
  {
    if s != [] && key(x) < key(s[0]) {
      InsertDescMultiset(x, s[1..], key);
      assert [x] + s == [x, s[0]] + s[1..];
    }
  }

  lemma {:induction false} InsertDescSorted<T>(x: T, s: seq<T>, key: T -> int)
    requires NonIncreasing(s, key)
    ensures NonIncreasing(InsertDesc(x, s, key), key)
    decreases |s|
  {
    if s == [] || key(x) >= key(s[0]) {
      ConsNonIncreasing(x, s, key);
    } else {
      var t := InsertDesc(x, s[1..], key);
      assert NonIncreasing(s[1..], key);
      InsertDescSorted(x, s[1..], key);
      InsertDescBound(x, s[1..], key, key(s[0]));
      ConsNonIncreasing(s[0], t, key);
    }
  }

  lemma {:induction false} InsertDescStable<T>(x: T, s: seq<T>, key: T -> int, k: int)
    requires NonIncreasing(s, key)
    ensures WithKey(InsertDesc(x, s, key), key, k) == WithKey([x] + s, key, k)
    decreases |s|
  {
    if s != [] && key(x) < key(s[0]) {
      var t := InsertDesc(x, s[1..], key);
      assert NonIncreasing(s[1..], key);
      InsertDescStable(x, s[1..], key, k);
      assert ([x] + s[1..])[1..] == s[1..];
      assert ([x] + s)[1..] == s;
      assert ([s[0]] + t)[1..] == t;
    }
  }

  /**
   * The reverse, stable sort: its result is non-increasing in the key, a
   * permutation of the input, and for every key value the elements with that
   * key appear in their original order.
   */
  lemma {:induction false} SortDescCorrect<T>(s: seq<T>, key: T -> int)
    ensures NonIncreasing(SortDesc(s, key), key)
    ensures multiset(SortDesc(s, key)) == multiset(s)
    ensures forall k :: WithKey(SortDesc(s, key), key, k) == WithKey(s, key, k)
    decreases |s|
  {
    if s != [] {
      var t := SortDesc(s[1..], key);
      SortDescCorrect(s[1..], key);
      InsertDescMultiset(s[0], t, key);
      InsertDescSorted(s[0], t, key);
      assert s == [s[0]] + s[1..];
      forall k ensures WithKey(SortDesc(s, key), key, k) == WithKey(s, key, k) {
        InsertDescStable(s[0], t, key, k);
        assert ([s[0]] + t)[1..] == t;
      }
    }
  }

  /** Python's `<` on `(year, team)` tuples. */
  predicate PairLess(a: (string, string), b: (string, string)) {
    Less(a.0, b.0) || (a.0 == b.0 && Less(a.1, b.1))
  }

  ghost predicate StrictlyIncreasing(s: seq<(string, string)>) {
    forall i, j :: 0 <= i < j < |s| ==> PairLess(s[i], s[j])
  }

  lemma PairLessTransitive(a: (string, string), b: (string, string), c: (string, string))
    requires PairLess(a, b) && PairLess(b, c)
    ensures PairLess(a, c)
  {
    if Less(a.0, b.0) && Less(b.0, c.0) {
      LessTransitive(a.0, b.0, c.0);
    } else if !Less(a.0, b.0) && !Less(b.0, c.0) {
      LessTransitive(a.1, b.1, c.1);
    }
  }

  lemma PairLessTotal(a: (string, string), b: (string, string))
    ensures a == b || PairLess(a, b) || PairLess(b, a)
  {
    LessTotal(a.0, b.0);
    LessTotal(a.1, b.1);
  }

  lemma PairLessIrreflexive(a: (string, string))
    ensures !PairLess(a, a)
  {
    LessIrreflexive(a.0);
    LessIrreflexive(a.1);
  }

  function InsertPair(x: (string, string), s: seq<(string, string)>): seq<(string, string)> {
    if s == [] || !PairLess(s[0], x) then [x] + s else [s[0]] + InsertPair(x, s[1..])
  }

  /** `sorted(pairs)`. */
  function SortPairs(s: seq<(string, string)>): seq<(string, string)> {
    if s == [] then [] else InsertPair(s[0], SortPairs(s[1..]))
  }

  ghost predicate AllAbove(s: seq<(string, string)>, b: (string, string)) {
    forall i :: 0 <= i < |s| ==> PairLess(b, s[i])
  }

  lemma ConsIncreasing(y: (string, string), t: seq<(string, string)>)
    requires StrictlyIncreasing(t) && AllAbove(t, y)
    ensures StrictlyIncreasing([y] + t)
  {
    var r := [y] + t;
    forall i, j | 0 <= i < j < |r| ensures PairLess(r[i], r[j]) {
      assert r[j] == t[j - 1];
      if i > 0 { assert r[i] == t[i - 1]; }
    }
  }

  lemma {:induction false} InsertPairBound(x: (string, string), s: seq<(string, string)>, b: (string, string))
    requires PairLess(b, x) && AllAbove(s, b)
    ensures AllAbove(InsertPair(x, s), b)
    decreases |s|
  {
    if s != [] && PairLess(s[0], x) {
      InsertPairBound(x, s[1..], b);
      assert InsertPair(x, s) == [s[0]] + InsertPair(x, s[1..]);
    }
  }

  lemma {:induction false} InsertPairMultiset(x: (string, string), s: seq<(string, string)>)
    ensures multiset(InsertPair(x, s)) == multiset([x] + s)
    decreases |s|
  {
    if s != [] && PairLess(s[0], x) {
      InsertPairMultiset(x, s[1..]);
      assert [x] + s == [x, s[0]] + s[1..];
    }
  }

  lemma {:induction false} InsertPairSorted(x: (string, string), s: seq<(string, string)>)
    requires StrictlyIncreasing(s) && x !in s
    ensures StrictlyIncreasing(InsertPair(x, s))
    decreases |s|
  {
    if s == [] || !PairLess(s[0], x) {
      if s != [] {
        PairLessTotal(s[0], x);
        forall i | 0 <= i < |s| ensures PairLess(x, s[i]) {
          if i > 0 { PairLessTransitive(x, s[0], s[i]); }
        }
      }
      ConsIncreasing(x, s);
    } else {
      var t := InsertPair(x, s[1..]);
      assert StrictlyIncreasing(s[1..]);
      InsertPairSorted(x, s[1..]);
      InsertPairBound(x, s[1..], s[0]);
      ConsIncreasing(s[0], t);
    }
  }

  /** Sorting pairs without repeats gives them in strictly increasing order, none lost or added. */
  lemma {:induction false} SortPairsCorrect(s: seq<(string, string)>)
    requires forall i, j :: 0 <= i < j < |s| ==> s[i] != s[j]
    ensures StrictlyIncreasing(SortPairs(s))
    ensures multiset(SortPairs(s)) == multiset(s)
    decreases |s|
  {
    if s != [] {
      var rest := s[1..];
      forall i, j | 0 <= i < j < |rest| ensures rest[i] != rest[j] {
        assert rest[i] == s[i + 1] && rest[j] == s[j + 1];
      }
      forall i | 0 <= i < |rest| ensures rest[i] != s[0] {
        assert rest[i] == s[i + 1];
      }
      var t := SortPairs(rest);
      SortPairsCorrect(rest);
      assert s[0] !in multiset(t) by {
        assert s[0] !in rest;
      }
      InsertPairMultiset(s[0], t);
      InsertPairSorted(s[0], t);
      assert s == [s[0]] + rest;
    }
  }
}
