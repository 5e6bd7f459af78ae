/**
 * `parse_record`, identical in `playoff_records.py` and
 * `compile_league_stats.py`: a `"W-L-T"` or `"W-L"` standings string to a
 * (wins, losses, ties) triple, with Python's `int()` on each piece.
 */
module Records {
  import opened Wrappers
  import opened Strings

  predicate IsDigit(c: char) { '0' <= c <= '9' }

  predicate AllDigits(s: string) {
    forall k :: 0 <= k < |s| ==> IsDigit(s[k])
  }

  /** The value of a string of decimal digits. */
  function DigitsValue(s: string): nat
    requires AllDigits(s)
  {
    if s == [] then 0 else DigitsValue(s[..|s| - 1]) * 10 + (s[|s| - 1] as int - '0' as int)
  }

  /** The decimal numeral of `n`, without leading zeros. */
  function Decimal(n: nat): (r: string)
    ensures r != [] && AllDigits(r)
  {
    if n < 10 then [('0' as int + n) as char] else Decimal(n / 10) + [('0' as int + n % 10) as char]
  }

  /** Reading back the numeral of `n` gives `n`. */
  lemma {:induction false} DecimalValue(n: nat)
    ensures DigitsValue(Decimal(n)) == n
  {
    if n >= 10 {
      DecimalValue(n / 10);
      var s := Decimal(n);
      assert s[..|s| - 1] == Decimal(n / 10);
    }
  }

  /**
   * Python's `int(x)` on a string: surrounding whitespace and a leading `+`
   * are accepted, then at least one ASCII digit and nothing else. A `-` sign
   * cannot reach it here, because the pieces come from splitting on `-`.
   */
  function ParseInt(s: string): Result<nat> {
    var t := Strip(s);
    var digits := if t != [] && t[0] == '+' then t[1..] else t;
    if digits != [] && AllDigits(digits) then Ok(DigitsValue(digits)) else Err(ValueError)
  }

  /** `int()` reads back every numeral this module writes. */
  lemma ParseIntDecimal(n: nat)
    ensures ParseInt(Decimal(n)) == Ok(n)
  {
    var s := Decimal(n);
    assert !IsSpace(s[0]) && !IsSpace(s[|s| - 1]);
    StripKeeps(s);
    DecimalValue(n);
  }

  /** The pieces `parse_record` looks at. */
  function Pieces(record: string): seq<string> {
    Split(Strip(record), '-')
  }

  /** Every piece is something `int()` accepts. */
  predicate AllInts(parts: seq<string>) {
    forall k :: 0 <= k < |parts| ==> ParseInt(parts[k]).Ok?
  }

  /**
   * What `parse_record` does with the pieces of a record: it fails exactly
   * when there are two or three pieces and one of them is not an integer;
   * otherwise the ties are 0 unless there are three pieces, and any other
   * number of pieces counts as 0-0-0.
   */
  function FromPieces(parts: seq<string>): (r: Result<(nat, nat, nat)>)
    ensures r.Err? <==> (|parts| == 2 || |parts| == 3) && !AllInts(parts)
    ensures r.Ok? && |parts| != 2 && |parts| != 3 ==> r.value == (0, 0, 0)
    ensures r.Ok? && (|parts| == 2 || |parts| == 3) ==>
      r.value.0 == ParseInt(parts[0]).value && r.value.1 == ParseInt(parts[1]).value &&
      r.value.2 == (if |parts| == 3 then ParseInt(parts[2]).value else 0)
  {
    if |parts| != 2 && |parts| != 3 then Ok((0, 0, 0))
    else if !AllInts(parts) then Err(ValueError)
    else
      var w, l := ParseInt(parts[0]).value, ParseInt(parts[1]).value;
      Ok((w, l, if |parts| == 3 then ParseInt(parts[2]).value else 0))
  }

  /** `parse_record(record)`; `Err` is the `ValueError` that ends the script. */
  function ParseRecord(record: string): Result<(nat, nat, nat)> {
    FromPieces(Pieces(record))
  }

  /** The `"W-L-T"` form of a win/loss/tie triple. */
  function FormatRecord(w: nat, l: nat, t: nat): string {
    Decimal(w) + "-" + Decimal(l) + "-" + Decimal(t)
  }

  lemma NoDash(n: nat)
    ensures '-' !in Decimal(n)
  {
    var s := Decimal(n);
    assert forall k :: 0 <= k < |s| ==> s[k] != '-';
  }

  /** Numerals joined by `-` are the pieces `parse_record` sees. */
  lemma PiecesOfNumerals(parts: seq<string>, ns: seq<nat>)
    requires |parts| == |ns| >= 1
    requires forall k :: 0 <= k < |parts| ==> parts[k] == Decimal(ns[k])
    ensures Pieces(Join(parts, '-')) == parts
    ensures AllInts(parts) && forall k :: 0 <= k < |parts| ==> ParseInt(parts[k]).value == ns[k]
  {
    var s := Join(parts, '-');
    JoinEnds(parts, ns);
    StripKeeps(s);
    forall k | 0 <= k < |parts| ensures '-' !in parts[k] && ParseInt(parts[k]) == Ok(ns[k]) {
      NoDash(ns[k]);
      ParseIntDecimal(ns[k]);
    }
    SplitJoin(parts, '-');
  }

  /** A `-`-joined list of numerals starts and ends with a digit. */
  lemma {:induction false} JoinEnds(parts: seq<string>, ns: seq<nat>)
    requires |parts| == |ns| >= 1
    requires forall k :: 0 <= k < |parts| ==> parts[k] == Decimal(ns[k])
    ensures var s := Join(parts, '-'); s != [] && IsDigit(s[0]) && IsDigit(s[|s| - 1])
    decreases |parts|
  {
    if |parts| > 1 {
      JoinEnds(parts[1..], ns[1..]);
    }
  }

  /** A three-part record parses to its three numbers. */
  lemma ParseRecordThree(w: nat, l: nat, t: nat)
    ensures ParseRecord(FormatRecord(w, l, t)) == Ok((w, l, t))
  {
    var parts := [Decimal(w), Decimal(l), Decimal(t)];
    assert Join(parts[2..], '-') == Decimal(t);
    assert Join(parts[1..], '-') == Decimal(l) + "-" + Decimal(t);
    assert FormatRecord(w, l, t) == Join(parts, '-');
    PiecesOfNumerals(parts, [w, l, t]);
  }

  /** A two-part record parses to its two numbers and no ties. */
  lemma ParseRecordTwo(w: nat, l: nat)
    ensures ParseRecord(Decimal(w) + "-" + Decimal(l)) == Ok((w, l, 0))
  {
    var parts := [Decimal(w), Decimal(l)];
    assert Join(parts[1..], '-') == Decimal(l);
    assert Decimal(w) + "-" + Decimal(l) == Join(parts, '-');
    PiecesOfNumerals(parts, [w, l]);
  }

  /** A record with no `-` at all (the empty string among them) counts as 0-0-0. */
  lemma ParseRecordNoDash(record: string)
    requires '-' !in Strip(record)
    ensures ParseRecord(record) == Ok((0, 0, 0))
  {
    SplitAbsent(Strip(record), '-');
  }

  /** A record with three or more `-` counts as 0-0-0. */
  lemma ParseRecordManyDashes(record: string)
    requires Count(Strip(record), '-') >= 3
    ensures ParseRecord(record) == Ok((0, 0, 0))
  {
    SplitCount(Strip(record), '-');
  }
}
