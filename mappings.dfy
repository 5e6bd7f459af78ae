/**
 * `check_team_mappings`: every (year, team) pair of the season files whose
 * team the team -> user map does not know, reported once each in sorted
 * order, or a single all-clear line when there is none. The printed lines
 * are the method's result.
 */
module Mappings {
  import opened Strings
  import opened Dicts
  import opened Sorting
  import opened CsvFiles

  /** A `(year_dir, team)` tuple, compared as Python compares tuples. */
  type Pair = (string, string)

  const Heading: string := "Teams with no user mapping:"
  const AllMapped: string := "All teams are mapped to a user."

  /**
   * `unmapped.add(p)`. The set is kept as a sequence without repeats; only
   * its sorted form is ever observed, so the order it was filled in is not.
   */
  function Add(s: seq<Pair>, p: Pair): seq<Pair> {
    if p in s then s else s + [p]
  }

  /** Row `row` of year `year` names a team the map lacks, and `p` is its pair. */
  ghost predicate Misses(year: string, row: Row, d: Dict<string>, p: Pair) {
    Named(row) && TeamOf(row) !in d.vals && p == (year, TeamOf(row))
  }

  /** `acc` after the rows loop over the data rows `data` of year `year`. */
  function RowsUnmapped(acc: seq<Pair>, year: string, data: seq<Row>, d: Dict<string>): seq<Pair> {
    if data == [] then acc
    else
      var prev := RowsUnmapped(acc, year, data[..|data| - 1], d);
      var row := data[|data| - 1];
      if Named(row) && TeamOf(row) !in d.vals then Add(prev, (year, TeamOf(row))) else prev
  }

  /** One file: an empty file adds nothing and the header row is never looked at. */
  function FileUnmapped(acc: seq<Pair>, f: YearFile, d: Dict<string>): seq<Pair> {
    if f.rows == [] then acc else RowsUnmapped(acc, f.year, f.rows[1..], d)
  }

  /** `unmapped` once every file is read. */
  function Unmapped(files: seq<YearFile>, d: Dict<string>): seq<Pair> {
    if files == [] then [] else FileUnmapped(Unmapped(files[..|files| - 1], d), files[|files| - 1], d)
  }

  /** `f"{year}: {team}"`. */
  function RenderPair(p: Pair): string {
    p.0 + ": " + p.1
  }

  function RenderPairs(ps: seq<Pair>): (r: seq<string>)
    ensures |r| == |ps|
    ensures forall i :: 0 <= i < |ps| ==> r[i] == RenderPair(ps[i])
  {
    if ps == [] then [] else RenderPairs(ps[..|ps| - 1]) + [RenderPair(ps[|ps| - 1])]
  }

  /** `sorted(unmapped)`. */
  function Sorted(files: seq<YearFile>, d: Dict<string>): seq<Pair> {
    SortPairs(Unmapped(files, d))
  }

  /** Everything the script prints. */
  function Report(files: seq<YearFile>, d: Dict<string>): seq<string> {
    if Unmapped(files, d) == [] then [AllMapped] else [Heading] + RenderPairs(Sorted(files, d))
  }

  /** Adding keeps the pairs distinct. */
  lemma {:induction false} RowsUnmappedDistinct(acc: seq<Pair>, year: string, data: seq<Row>, d: Dict<string>)
    requires Distinct(acc)
    ensures Distinct(RowsUnmapped(acc, year, data, d))
    decreases |data|
  {
    if data != [] {
      var prev := RowsUnmapped(acc, year, data[..|data| - 1], d);
      RowsUnmappedDistinct(acc, year, data[..|data| - 1], d);
      var row := data[|data| - 1];
      if Named(row) && TeamOf(row) !in d.vals && (year, TeamOf(row)) !in prev {
        var r := prev + [(year, TeamOf(row))];
        forall i, j | 0 <= i < j < |r| ensures r[i] != r[j] {
          if j == |prev| {
            assert r[i] == prev[i];
          }
        }
      }
    }
  }

  /** The collected pairs are those collected before and those of the rows that miss the map. */
  lemma {:induction false} RowsUnmappedExact(acc: seq<Pair>, year: string, data: seq<Row>, d: Dict<string>, p: Pair)
    ensures p in RowsUnmapped(acc, year, data, d) <==>
      p in acc || exists k {:trigger Misses(year, data[k], d, p)} :: 0 <= k < |data| && Misses(year, data[k], d, p)
    decreases |data|
  {
    if data != [] {
      var init := data[..|data| - 1];
      var last := data[|data| - 1];
      RowsUnmappedExact(acc, year, init, d, p);
      var prev := RowsUnmapped(acc, year, init, d);
      assert p in RowsUnmapped(acc, year, data, d) <==> p in prev || Misses(year, last, d, p);
      if exists k {:trigger Misses(year, init[k], d, p)} :: 0 <= k < |init| && Misses(year, init[k], d, p) {
        var k :| 0 <= k < |init| && Misses(year, init[k], d, p);
        assert data[k] == init[k];
        assert Misses(year, data[k], d, p);
      }
      if Misses(year, last, d, p) {
        assert Misses(year, data[|data| - 1], d, p);
      }
      if exists k {:trigger Misses(year, data[k], d, p)} :: 0 <= k < |data| && Misses(year, data[k], d, p) {
        var k :| 0 <= k < |data| && Misses(year, data[k], d, p);
        if k < |init| {
          assert init[k] == data[k];
          assert Misses(year, init[k], d, p);
        } else {
          assert k == |data| - 1;
          assert Misses(year, last, d, p);
        }
      }
    }
  }

  /** `unmapped` holds each pair at most once. */
  lemma {:induction false} UnmappedDistinct(files: seq<YearFile>, d: Dict<string>)
    ensures Distinct(Unmapped(files, d))
    decreases |files|
  {
    if files != [] {
      var last := files[|files| - 1];
      UnmappedDistinct(files[..|files| - 1], d);
      if last.rows != [] {
        RowsUnmappedDistinct(Unmapped(files[..|files| - 1], d), last.year, last.rows[1..], d);
      }
    }
  }

  /** Row `k` of file `i` names a team the map lacks, and `p` is its pair. */
  ghost predicate MissedIn(files: seq<YearFile>, d: Dict<string>, p: Pair) {
    exists i, k {:trigger Misses(files[i].year, files[i].rows[k], d, p)} ::
      0 <= i < |files| && 1 <= k < |files[i].rows| && Misses(files[i].year, files[i].rows[k], d, p)
  }

  /** A pair is unmapped exactly when some data row of that year's file names a team the map lacks. */
  lemma UnmappedExact(files: seq<YearFile>, d: Dict<string>, p: Pair)
    ensures p in Unmapped(files, d) <==>
      exists i, k {:trigger Misses(files[i].year, files[i].rows[k], d, p)} ::
        0 <= i < |files| && 1 <= k < |files[i].rows| && Misses(files[i].year, files[i].rows[k], d, p)
  {
    if p in Unmapped(files, d) {
      UnmappedSound(files, d, p);
    }
    if MissedIn(files, d, p) {
      UnmappedComplete(files, d, p);
    }
  }

  /** Soundness: every collected pair comes from a data row whose team the map lacks. */
  lemma {:induction false} UnmappedSound(files: seq<YearFile>, d: Dict<string>, p: Pair)
    requires p in Unmapped(files, d)
    ensures MissedIn(files, d, p)
    decreases |files|
  {
    var init := files[..|files| - 1];
    var last := files[|files| - 1];
    var prev := Unmapped(init, d);
    if p in prev {
      UnmappedSound(init, d, p);
      var i, k :| 0 <= i < |init| && 1 <= k < |init[i].rows| && Misses(init[i].year, init[i].rows[k], d, p);
      assert files[i] == init[i];
      assert Misses(files[i].year, files[i].rows[k], d, p);
    } else {
      var data := last.rows[1..];
      RowsUnmappedExact(prev, last.year, data, d, p);
      var k :| 0 <= k < |data| && Misses(last.year, data[k], d, p);
      assert data[k] == last.rows[k + 1];
      assert Misses(files[|files| - 1].year, files[|files| - 1].rows[k + 1], d, p);
    }
  }

  /** Completeness: every data row whose team the map lacks contributes its pair. */
  lemma {:induction false} UnmappedComplete(files: seq<YearFile>, d: Dict<string>, p: Pair)
    requires MissedIn(files, d, p)
    ensures p in Unmapped(files, d)
    decreases |files|
  {
    var init := files[..|files| - 1];
    var last := files[|files| - 1];
    var prev := Unmapped(init, d);
    var i, k :| 0 <= i < |files| && 1 <= k < |files[i].rows| && Misses(files[i].year, files[i].rows[k], d, p);
    if i < |init| {
      assert init[i] == files[i];
      assert Misses(init[i].year, init[i].rows[k], d, p);
      UnmappedComplete(init, d, p);
      RowsUnmappedKeeps(prev, last, d, p);
    } else {
      var data := last.rows[1..];
      assert data[k - 1] == last.rows[k];
      assert Misses(last.year, data[k - 1], d, p);
      RowsUnmappedExact(prev, last.year, data, d, p);
    }
  }

  /** A later file never drops a collected pair. */
  lemma RowsUnmappedKeeps(acc: seq<Pair>, f: YearFile, d: Dict<string>, p: Pair)
    requires p in acc
    ensures p in FileUnmapped(acc, f, d)
  {
    if f.rows != [] {
      RowsUnmappedExact(acc, f.year, f.rows[1..], d, p);
    }
  }

  /** The listing is in strictly ascending tuple order, so no pair is printed twice, and it lists exactly the unmapped pairs. */
  lemma SortedListing(files: seq<YearFile>, d: Dict<string>, p: Pair)
    ensures StrictlyIncreasing(Sorted(files, d))
    ensures p in Sorted(files, d) <==>
      exists i, k {:trigger Misses(files[i].year, files[i].rows[k], d, p)} ::
        0 <= i < |files| && 1 <= k < |files[i].rows| && Misses(files[i].year, files[i].rows[k], d, p)
  {
    var u := Unmapped(files, d);
    UnmappedDistinct(files, d);
    SortPairsCorrect(u);
    UnmappedExact(files, d, p);
    assert p in Sorted(files, d) <==> p in multiset(Sorted(files, d));
  }

  /** The all-clear line is printed exactly when every named data row's team has a user. */
  lemma AllMappedExact(files: seq<YearFile>, d: Dict<string>)
    ensures Report(files, d) == [AllMapped] <==>
      forall i, k :: 0 <= i < |files| && 1 <= k < |files[i].rows| && Named(files[i].rows[k]) ==>
        TeamOf(files[i].rows[k]) in d.vals
  {
    var u := Unmapped(files, d);
    if u == [] {
      forall i, k | 0 <= i < |files| && 1 <= k < |files[i].rows| && Named(files[i].rows[k])
        ensures TeamOf(files[i].rows[k]) in d.vals
      {
        var p := (files[i].year, TeamOf(files[i].rows[k]));
        UnmappedExact(files, d, p);
        if TeamOf(files[i].rows[k]) !in d.vals {
          assert Misses(files[i].year, files[i].rows[k], d, p);
        }
      }
    } else {
      assert Report(files, d)[0] == Heading;
      var p := u[0];
      UnmappedExact(files, d, p);
      var i, k :| 0 <= i < |files| && 1 <= k < |files[i].rows| && Misses(files[i].year, files[i].rows[k], d, p);
      assert Named(files[i].rows[k]) && TeamOf(files[i].rows[k]) !in d.vals;
    }
  }

  /** The rows loop over one file, after the header. */
  method CollectRows(acc: seq<Pair>, year: string, data: seq<Row>, d: Dict<string>) returns (unmapped: seq<Pair>)
    ensures unmapped == RowsUnmapped(acc, year, data, d)
  {
    unmapped := acc;
    for k := 0 to |data|
      invariant unmapped == RowsUnmapped(acc, year, data[..k], d)
    {
      var row := data[k];
      assert data[..k + 1][..k] == data[..k];
      if row != [] && Strip(row[0]) != "" {
        var team := Strip(row[0]);
        if team !in d.vals {
          if (year, team) !in unmapped {
            unmapped := unmapped + [(year, team)];
          }
        }
      }
    }
    assert data[..|data|] == data;
  }

  /** The printing loop over `sorted(unmapped)`. */
  method PrintPairs(sorted: seq<Pair>) returns (out: seq<string>)
    ensures out == [Heading] + RenderPairs(sorted)
  {
    out := [Heading];
    for j := 0 to |sorted|
      invariant out == [Heading] + RenderPairs(sorted[..j])
    {
      assert sorted[..j + 1][..j] == sorted[..j];
      out := out + [sorted[j].0 + ": " + sorted[j].1];
    }
    assert sorted[..|sorted|] == sorted;
  }

  /** `check_team_mappings` after the map is loaded. */
  method CheckTeamMappings(files: seq<YearFile>, d: Dict<string>) returns (out: seq<string>)
    ensures out == Report(files, d)
  {
    var unmapped: seq<Pair> := [];
    for i := 0 to |files|
      invariant unmapped == Unmapped(files[..i], d)
    {
      var f := files[i];
      assert files[..i + 1][..i] == files[..i];
      if |f.rows| == 0 {
        continue;
      }
      unmapped := CollectRows(unmapped, f.year, f.rows[1..], d);
    }
    assert files[..|files|] == files;
    if |unmapped| > 0 {
      out := PrintPairs(SortPairs(unmapped));
    } else {
      out := [AllMapped];
    }
  }
}
