/**
 * The handful of Python `str` operations the league scripts use, on
 * `string` = `seq<char>`: `strip()`, `lower()`, `in`, `startswith`,
 * `replace(pat, "")`, `split(sep)`, `ljust` (the `:<n` format) and the
 * ordering `<` that `sorted` uses.
 */
module Strings {

  /** Python's `str.isspace` for one character (the Unicode whitespace set). */
  predicate IsSpace(c: char) {
    var n := c as int;
    (0x09 <= n <= 0x0D) || (0x1C <= n <= 0x20) || n == 0x85 || n == 0xA0 ||
    n == 0x1680 || (0x2000 <= n <= 0x200A) || n == 0x2028 || n == 0x2029 ||
    n == 0x202F || n == 0x205F || n == 0x3000
  }

  /** `s.lstrip()`. */
  function StripLeft(s: string): string {
    if s != [] && IsSpace(s[0]) then StripLeft(s[1..]) else s
  }

  /** `s.rstrip()`. */
  function StripRight(s: string): string {
    if s != [] && IsSpace(s[|s| - 1]) then StripRight(s[..|s| - 1]) else s
  }

  /** `lstrip` drops the leading whitespace and nothing more. */
  lemma {:induction false} StripLeftFacts(s: string)
    ensures var r := StripLeft(s);
      && |r| <= |s| && r == s[|s| - |r|..]
      && (r == [] || !IsSpace(r[0]))
      && (forall k :: 0 <= k < |s| - |r| ==> IsSpace(s[k]))
    decreases |s|
  {
    if s != [] && IsSpace(s[0]) {
      StripLeftFacts(s[1..]);
      forall k | 1 <= k < |s| - |StripLeft(s)| ensures IsSpace(s[k]) {
        assert s[k] == s[1..][k - 1];
      }
    }
  }

  /** `rstrip` drops the trailing whitespace and nothing more. */
  lemma {:induction false} StripRightFacts(s: string)
    ensures var r := StripRight(s);
      && |r| <= |s| && r == s[..|r|]
      && (r == [] || !IsSpace(r[|r| - 1]))
      && (forall k :: |r| <= k < |s| ==> IsSpace(s[k]))
    decreases |s|
  {
    if s != [] && IsSpace(s[|s| - 1]) {
      StripRightFacts(s[..|s| - 1]);
    }
  }

  /** `s.strip()`: strip both ends. */
  function Strip(s: string): string {
    StripRight(StripLeft(s))
  }

  /** The stripped string is the longest infix of `s` that neither starts nor ends with whitespace. */
  lemma StripFacts(s: string)
    ensures var r := Strip(s);
      && (r == [] || (!IsSpace(r[0]) && !IsSpace(r[|r| - 1])))
      && var i := |s| - |StripLeft(s)|;
      && 0 <= i <= i + |r| <= |s| && r == s[i..i + |r|]
      && (forall k :: 0 <= k < i ==> IsSpace(s[k]))
      && (forall k :: i + |r| <= k < |s| ==> IsSpace(s[k]))
  {
    StripLeftFacts(s);
    StripRightFacts(StripLeft(s));
    var l := StripLeft(s);
    var r := Strip(s);
    var i := |s| - |l|;
    if r != [] {
      assert r[0] == l[0];
    }
    forall k | i + |r| <= k < |s| ensures IsSpace(s[k]) {
      assert s[k] == l[k - i];
    }
  }

  /** A string with no whitespace at either end is its own `strip()`. */
  lemma StripKeeps(s: string)
    requires s == [] || (!IsSpace(s[0]) && !IsSpace(s[|s| - 1]))
    ensures Strip(s) == s
  {
  }

  function LowerChar(c: char): char {
    if 'A' <= c <= 'Z' then (c as int - 'A' as int + 'a' as int) as char else c
  }

  /** `s.lower()` restricted to ASCII letters. */
  function Lower(s: string): (r: string)
    ensures |r| == |s|
    ensures forall k :: 0 <= k < |s| ==> r[k] == LowerChar(s[k])
  {
    seq(|s|, k requires 0 <= k < |s| => LowerChar(s[k]))
  }

  /**
   * What `lower()` promises on ASCII text: no capital letter is left, a
   * capital becomes the small letter 32 code points above it, every other
   * character is kept, and lowering twice changes nothing more.
   */
  lemma LowerFacts(s: string)
    ensures |Lower(s)| == |s|
    ensures forall k :: 0 <= k < |s| ==> !('A' <= Lower(s)[k] <= 'Z')
    ensures forall k :: 0 <= k < |s| && 'A' <= s[k] <= 'Z' ==>
      'a' <= Lower(s)[k] <= 'z' && Lower(s)[k] as int == s[k] as int + 32
    ensures forall k :: 0 <= k < |s| && !('A' <= s[k] <= 'Z') ==> Lower(s)[k] == s[k]
    ensures Lower(Lower(s)) == Lower(s)
  {
  }

  /** `c` and `d` are the same character, or the same ASCII letter in the two cases. */
  predicate SameIgnoringCase(c: char, d: char) {
    || c == d
    || ('A' <= c <= 'Z' && d as int == c as int + 32)
    || ('A' <= d <= 'Z' && c as int == d as int + 32)
  }

  /**
   * Two texts lower to the same text exactly when they differ only in the
   * case of ASCII letters: what the case-insensitive header and game-type
   * tests rely on.
   */
  lemma LowerCaseless(a: string, b: string)
    ensures Lower(a) == Lower(b) <==>
      |a| == |b| && forall k :: 0 <= k < |a| ==> SameIgnoringCase(a[k], b[k])
  {
    if Lower(a) == Lower(b) {
      forall k | 0 <= k < |a| ensures SameIgnoringCase(a[k], b[k]) {
        assert Lower(a)[k] == Lower(b)[k];
      }
    }
    if |a| == |b| && forall k :: 0 <= k < |a| ==> SameIgnoringCase(a[k], b[k]) {
      forall k | 0 <= k < |a| ensures Lower(a)[k] == Lower(b)[k] {
        assert SameIgnoringCase(a[k], b[k]);
      }
    }
  }

  /** `sub in s`. */
  predicate Contains(s: string, sub: string)
    decreases |s|
  {
    sub <= s || (s != [] && Contains(s[1..], sub))
  }

  /** `sub` stands in `s` from position `i` on. */
  predicate OccursAt(s: string, sub: string, i: int) {
    0 <= i <= |s| - |sub| && s[i..i + |sub|] == sub
  }

  /** `Contains` holds exactly when `sub` occurs at some position of `s`. */
  lemma {:induction false} ContainsAt(s: string, sub: string)
    ensures Contains(s, sub) <==> exists i :: OccursAt(s, sub, i)
    decreases |s|
  {
    if sub <= s {
      assert OccursAt(s, sub, 0);
    } else if s != [] {
      ContainsAt(s[1..], sub);
      if Contains(s[1..], sub) {
        var i :| OccursAt(s[1..], sub, i);
        assert s[i + 1..i + 1 + |sub|] == s[1..][i..i + |sub|];
        assert OccursAt(s, sub, i + 1);
      }
      if i :| OccursAt(s, sub, i) {
        assert i != 0;
        assert s[1..][i - 1..i - 1 + |sub|] == s[i..i + |sub|];
        assert OccursAt(s[1..], sub, i - 1);
      }
    }
  }

  /**
   * `s.replace(pat, "")`: occurrences of `pat` removed left to right,
   * without rescanning what the removal brings together.
   */
  function RemoveAll(s: string, pat: string): (r: string)
    requires pat != []
    ensures |r| <= |s|
    decreases |s|
  {
    if |s| < |pat| then s
    else if s[..|pat|] == pat then RemoveAll(s[|pat|..], pat)
    else [s[0]] + RemoveAll(s[1..], pat)
  }

  /** A text that holds no character of the pattern loses nothing. */
  lemma {:induction false} RemoveAllAbsent(s: string, pat: string)
    requires pat != [] && pat[0] !in s
    ensures RemoveAll(s, pat) == s
    decreases |s|
  {
    if |s| >= |pat| {
      assert s[0] != pat[0];
      RemoveAllAbsent(s[1..], pat);
      assert [s[0]] + s[1..] == s;
    }
  }

  /**
   * A truncated name `p + "..."` loses exactly its trailing "...", provided
   * `p` itself holds no "..." (it may hold single dots, as in "St. Louis Bl").
   */
  lemma {:induction false} RemoveAllTrailing(p: string)
    requires !Contains(p, "...")
    ensures RemoveAll(p + "...", "...") == p
    decreases |p|
  {
    var s := p + "...";
    if |p| < 3 && s[..3] == "..." {
      // `p` is "", "." or "..": what follows the removed "..." is `p` again.
      forall k | 0 <= k < |p| ensures p[k] == '.' {
        assert p[k] == s[..3][k];
      }
      assert s[3..] == p;
    } else {
      if |p| >= 3 {
        assert s[..3] == p[..3];
      }
      assert s[1..] == p[1..] + "...";
      RemoveAllTrailing(p[1..]);
      assert [p[0]] + p[1..] == p;
    }
  }

  /** `s.split(sep)`: the pieces between the separators, empty pieces kept. */
  function Split(s: string, sep: char): (parts: seq<string>)
    ensures |parts| >= 1
    decreases |s|
  {
    if s == [] then [""]
    else
      var rest := Split(s[1..], sep);
      if s[0] == sep then [""] + rest else [[s[0]] + rest[0]] + rest[1..]
  }

  /** `s.count(c)`. */
  function Count(s: string, c: char): nat {
    if s == [] then 0 else (if s[0] == c then 1 else 0) + Count(s[1..], c)
  }

  /** `split` gives one more piece than there are separators. */
  lemma {:induction false} SplitCount(s: string, sep: char)
    ensures |Split(s, sep)| == Count(s, sep) + 1
    decreases |s|
  {
    if s != [] {
      SplitCount(s[1..], sep);
    }
  }

  /** A text without the separator is split into itself alone. */
  lemma {:induction false} SplitAbsent(s: string, sep: char)
    requires sep !in s
    ensures Split(s, sep) == [s]
    decreases |s|
  {
    if s != [] {
      SplitAbsent(s[1..], sep);
      assert [s[0]] + s[1..] == s;
    }
  }

  /** `sep.join(parts)`. */
  function Join(parts: seq<string>, sep: char): string
    requires |parts| >= 1
  {
    if |parts| == 1 then parts[0] else parts[0] + [sep] + Join(parts[1..], sep)
  }

  /** Joining what was split gives back the text. */
  lemma {:induction false} JoinSplit(s: string, sep: char)
    ensures Join(Split(s, sep), sep) == s
    decreases |s|
  {
    if s != [] {
      var rest := Split(s[1..], sep);
      JoinSplit(s[1..], sep);
      if s[0] != sep {
        var parts := Split(s, sep);
        if |rest| == 1 {
          assert parts == [[s[0]] + rest[0]];
        } else {
          assert parts[1..] == rest[1..];
          assert Join(rest, sep) == rest[0] + [sep] + Join(rest[1..], sep);
        }
        assert [s[0]] + s[1..] == s;
      }
    }
  }

  lemma {:induction false} SplitPrefix(a: string, sep: char, b: string)
    requires sep !in a
    ensures Split(a + b, sep) == [a + Split(b, sep)[0]] + Split(b, sep)[1..]
    decreases |a|
  {
    if a != [] {
      assert (a + b)[1..] == a[1..] + b;
      SplitPrefix(a[1..], sep, b);
      assert [a[0]] + (a[1..] + Split(b, sep)[0]) == a + Split(b, sep)[0];
    } else {
      var parts := Split(b, sep);
      assert a + b == b && a + parts[0] == parts[0];
      assert parts == [parts[0]] + parts[1..];
    }
  }

  /** Splitting what was joined gives back the pieces when none holds the separator. */
  lemma {:induction false} SplitJoin(parts: seq<string>, sep: char)
    requires |parts| >= 1
    requires forall k :: 0 <= k < |parts| ==> sep !in parts[k]
    ensures Split(Join(parts, sep), sep) == parts
    decreases |parts|
  {
    if |parts| == 1 {
      SplitPrefix(parts[0], sep, "");
      assert parts[0] + "" == parts[0];
      assert Split("", sep) == [""];
      assert parts == [parts[0]];
    } else {
      SplitJoin(parts[1..], sep);
      var tail := [sep] + Join(parts[1..], sep);
      assert parts[0] + [sep] + Join(parts[1..], sep) == parts[0] + tail;
      SplitPrefix(parts[0], sep, tail);
      assert tail[0] == sep && tail[1..] == Join(parts[1..], sep);
      assert Split(tail, sep) == [""] + Split(tail[1..], sep);
      assert Split(tail, sep) == [""] + parts[1..];
      assert parts[0] + Split(tail, sep)[0] == parts[0];
      assert parts == [parts[0]] + parts[1..];
    }
  }

  function Spaces(n: nat): (r: string)
    ensures |r| == n && forall k :: 0 <= k < n ==> r[k] == ' '
  {
    seq(n, _ => ' ')
  }

  /** `f"{s:<width}"`: left-justified in a field of `width`, never truncated. */
  function PadRight(s: string, width: nat): (r: string)
    ensures s <= r
    ensures |r| == if |s| < width then width else |s|
    ensures forall k :: |s| <= k < |r| ==> r[k] == ' '
  {
    if |s| < width then s + Spaces(width - |s|) else s
  }

  /** Python's `a < b` on `str`: lexicographic by code point, a proper prefix first. */
  predicate Less(a: string, b: string)
    decreases |a|
  {
    if a == [] then b != []
    else if b == [] then false
    else if a[0] != b[0] then a[0] < b[0]
    else Less(a[1..], b[1..])
  }

  lemma {:induction false} LessIrreflexive(a: string)
    ensures !Less(a, a)
    decreases |a|
  {
    if a != [] { LessIrreflexive(a[1..]); }
  }

  lemma {:induction false} LessTransitive(a: string, b: string, c: string)
    requires Less(a, b) && Less(b, c)
    ensures Less(a, c)
    decreases |a|
  {
    if a != [] && b != [] && c != [] && a[0] == b[0] == c[0] {
      LessTransitive(a[1..], b[1..], c[1..]);
    }
  }

  lemma {:induction false} LessTotal(a: string, b: string)
    ensures a == b || Less(a, b) || Less(b, a)
    decreases |a|
  {
    if a != [] && b != [] && a[0] == b[0] {
      LessTotal(a[1..], b[1..]);
      if a[1..] == b[1..] {
        assert a == [a[0]] + a[1..] && b == [b[0]] + b[1..];
      }
    }
  }
}
