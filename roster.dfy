/**
 * `print_teams_with_users` of `list_unique_teams.py`: a fixed-width listing
 * of every team of every season with the user behind it. The user comes from
 * the file's own `Username` column when that cell is filled, and otherwise
 * from the team -> user map, with `(unknown)` for a team the map lacks.
 * The printed lines are the method's result.
 */
module Roster {
  import opened Wrappers
  import opened Strings
  import opened Dicts
  import opened CsvFiles

  /** One printed listing line, before formatting. */
  datatype Listing = Listing(year: string, team: string, user: string)

  /** `f"{'Year':<6} | {'Team Name':<30} | Username"`: the column titles laid out as a listing. */
  const Title: string := Render(Listing("Year", "Team Name", "Username"))
  /** `'-'*60`. */
  const Rule: string := "------------------------------------------------------------"

  /** `col.strip().lower() == 'username'`. */
  predicate IsUsernameHeader(cell: string) {
    Lower(Strip(cell)) == "username"
  }

  /** The column the header loop settles on: the first username header. */
  function UsernameColumn(header: Row): Option<nat> {
    FindFirst(header, IsUsernameHeader)
  }

  /** The header loop, with its `break` at the first match. */
  method FindUsernameColumn(header: Row) returns (idx: Option<nat>)
    ensures idx == UsernameColumn(header)
    ensures idx.Some? ==>
      idx.value < |header| && IsUsernameHeader(header[idx.value]) &&
      forall j :: 0 <= j < idx.value ==> !IsUsernameHeader(header[j])
    ensures idx.None? ==> forall j :: 0 <= j < |header| ==> !IsUsernameHeader(header[j])
  {
    idx := None;
    for i := 0 to |header|
      invariant idx == None
      invariant forall j :: 0 <= j < i ==> !IsUsernameHeader(header[j])
    {
      if IsUsernameHeader(header[i]) {
        UsernameColumnFirst(header, i);
        idx := Some(i);
        break;
      }
    }
    if idx == None {
      UsernameColumnFirst(header, |header|);
    }
  }

  /** The loop stops at position `i` (or runs off the end) exactly where `UsernameColumn` points. */
  lemma UsernameColumnFirst(header: Row, i: int)
    requires 0 <= i <= |header|
    requires forall j :: 0 <= j < i ==> !IsUsernameHeader(header[j])
    requires i < |header| ==> IsUsernameHeader(header[i])
    ensures UsernameColumn(header) == if i < |header| then Some(i) else None
  {
    FindFirstFirst(header, IsUsernameHeader);
  }

  /** The user printed for a named row. */
  function RowUser(idx: Option<nat>, row: Row, d: Dict<string>): string
    requires row != []
  {
    if idx.Some? && |row| > idx.value && Strip(row[idx.value]) != "" then Strip(row[idx.value])
    else d.Get(TeamOf(row)).GetOr("(unknown)")
  }

  /** A filled username cell wins; otherwise the map decides, and `(unknown)` stands for a missing team. */
  lemma RowUserChoice(idx: Option<nat>, row: Row, d: Dict<string>)
    requires row != []
    ensures idx.Some? && idx.value < |row| && Strip(row[idx.value]) != "" ==>
      RowUser(idx, row, d) == Strip(row[idx.value]) && RowUser(idx, row, d) != ""
    ensures !(idx.Some? && idx.value < |row| && Strip(row[idx.value]) != "") ==>
      (TeamOf(row) in d.vals ==> RowUser(idx, row, d) == d.vals[TeamOf(row)]) &&
      (TeamOf(row) !in d.vals ==> RowUser(idx, row, d) == "(unknown)")
  {
  }

  /** The listings of the data rows `data` of one file, in row order. */
  function Listings(year: string, idx: Option<nat>, data: seq<Row>, d: Dict<string>): seq<Listing> {
    if data == [] then []
    else
      var prev := Listings(year, idx, data[..|data| - 1], d);
      var row := data[|data| - 1];
      if Named(row) then prev + [Listing(year, TeamOf(row), RowUser(idx, row, d))] else prev
  }

  /** One file's listings: nothing for an empty file, the header row never listed. */
  function FileListings(f: YearFile, d: Dict<string>): seq<Listing> {
    if f.rows == [] then [] else Listings(f.year, UsernameColumn(f.rows[0]), f.rows[1..], d)
  }

  /** All listings, file after file. */
  function AllListings(files: seq<YearFile>, d: Dict<string>): seq<Listing> {
    if files == [] then []
    else AllListings(files[..|files| - 1], d) + FileListings(files[|files| - 1], d)
  }

  /** `f"{year_dir:<6} | {team:<30} | {user}"`. */
  function Render(e: Listing): string {
    PadRight(e.year, 6) + " | " + PadRight(e.team, 30) + " | " + e.user
  }

  function RenderAll(es: seq<Listing>): (r: seq<string>)
    ensures |r| == |es|
    ensures forall i :: 0 <= i < |es| ==> r[i] == Render(es[i])
  {
    if es == [] then [] else RenderAll(es[..|es| - 1]) + [Render(es[|es| - 1])]
  }

  /** Everything the script prints. */
  function Report(files: seq<YearFile>, d: Dict<string>): seq<string> {
    [Title, Rule] + RenderAll(AllListings(files, d))
  }

  /** A rendered line: the year left-aligned in 6 columns, the team in 30, then the user. */
  lemma RenderLayout(e: Listing)
    ensures var a := if |e.year| < 6 then 6 else |e.year|;
      var b := if |e.team| < 30 then 30 else |e.team|;
      var line := Render(e);
      |line| == a + b + 6 + |e.user| &&
      line[..|e.year|] == e.year &&
      (forall k :: |e.year| <= k < a ==> line[k] == ' ') &&
      line[a..a + 3] == " | " &&
      line[a + 3..a + 3 + |e.team|] == e.team &&
      (forall k :: a + 3 + |e.team| <= k < a + 3 + b ==> line[k] == ' ') &&
      line[a + 3 + b..a + 6 + b] == " | " &&
      line[a + 6 + b..] == e.user
  {
    var y := PadRight(e.year, 6);
    var t := PadRight(e.team, 30);
    var line := Render(e);
    FiveParts(y, " | ", t, " | ", e.user);
    forall k | |e.year| <= k < |y| ensures line[k] == ' ' {
      assert line[k] == line[..|y|][k];
    }
    forall k | |y| + 3 + |e.team| <= k < |y| + 3 + |t| ensures line[k] == ' ' {
      assert line[k] == line[|y| + 3..|y| + 3 + |t|][k - |y| - 3];
    }
    assert line[|y| + 3..|y| + 3 + |e.team|] == line[|y| + 3..|y| + 3 + |t|][..|e.team|];
  }

  /** Where each of five concatenated parts sits. */
  lemma FiveParts(p: string, q: string, r: string, s: string, t: string)
    ensures var x := p + q + r + s + t;
      var i, j, k, l := |p|, |p| + |q|, |p| + |q| + |r|, |p| + |q| + |r| + |s|;
      && |x| == l + |t|
      && x[..i] == p && x[i..j] == q && x[j..k] == r && x[k..l] == s && x[l..] == t
  {
    var x := p + q + r + s + t;
    assert x == (((p + q) + r) + s) + t;
  }

  /** Row `row` names a team and prints as `e`. */
  ghost predicate ListedAs(year: string, idx: Option<nat>, row: Row, d: Dict<string>, e: Listing) {
    Named(row) && e == Listing(year, TeamOf(row), RowUser(idx, row, d))
  }

  /** Data row `k` of `data` is printed exactly when it names a team, as that listing. */
  lemma {:induction false} ListingsExact(year: string, idx: Option<nat>, data: seq<Row>, d: Dict<string>, e: Listing)
    ensures e in Listings(year, idx, data, d) <==>
      exists k {:trigger ListedAs(year, idx, data[k], d, e)} :: 0 <= k < |data| && ListedAs(year, idx, data[k], d, e)
    decreases |data|
  {
    if data != [] {
      var init := data[..|data| - 1];
      var last := data[|data| - 1];
      ListingsExact(year, idx, init, d, e);
      var prev := Listings(year, idx, init, d);
      var tail := if Named(last) then [Listing(year, TeamOf(last), RowUser(idx, last, d))] else [];
      assert Listings(year, idx, data, d) == prev + tail;
      assert e in tail <==> ListedAs(year, idx, last, d, e);
      if e in prev {
        var k :| 0 <= k < |init| && ListedAs(year, idx, init[k], d, e);
        assert data[k] == init[k];
        assert ListedAs(year, idx, data[k], d, e);
      } else if e in tail {
        assert ListedAs(year, idx, data[|data| - 1], d, e);
      }
      if exists k {:trigger ListedAs(year, idx, data[k], d, e)} :: 0 <= k < |data| && ListedAs(year, idx, data[k], d, e) {
        var k :| 0 <= k < |data| && ListedAs(year, idx, data[k], d, e);
        if k < |init| {
          assert init[k] == data[k];
          assert ListedAs(year, idx, init[k], d, e);
        } else {
          assert k == |data| - 1;
          assert ListedAs(year, idx, last, d, e);
        }
      }
    }
  }

  /** A file's listings are its named rows after the header, with the username column its header picks. */
  lemma FileListingsExact(f: YearFile, d: Dict<string>, e: Listing)
    ensures e in FileListings(f, d) <==>
      exists k {:trigger ListedAs(f.year, UsernameColumn(f.rows[0]), f.rows[k], d, e)} :: 1 <= k < |f.rows| && ListedAs(f.year, UsernameColumn(f.rows[0]), f.rows[k], d, e)
  {
    if f.rows != [] {
      var data := f.rows[1..];
      var idx := UsernameColumn(f.rows[0]);
      ListingsExact(f.year, idx, data, d, e);
      if e in FileListings(f, d) {
        var k :| 0 <= k < |data| && ListedAs(f.year, idx, data[k], d, e);
        assert f.rows[k + 1] == data[k];
      }
      if exists k {:trigger ListedAs(f.year, idx, f.rows[k], d, e)} :: 1 <= k < |f.rows| && ListedAs(f.year, idx, f.rows[k], d, e) {
        var k :| 1 <= k < |f.rows| && ListedAs(f.year, idx, f.rows[k], d, e);
        assert data[k - 1] == f.rows[k];
      }
    }
  }

  /** Each file contributes one line per named data row, so the listing never exceeds the data rows. */
  lemma {:induction false} ListingsCount(year: string, idx: Option<nat>, data: seq<Row>, d: Dict<string>)
    ensures |Listings(year, idx, data, d)| <= |data|
    ensures (forall k :: 0 <= k < |data| ==> Named(data[k])) ==> |Listings(year, idx, data, d)| == |data|
    decreases |data|
  {
    if data != [] {
      var init := data[..|data| - 1];
      ListingsCount(year, idx, init, d);
      if forall k :: 0 <= k < |data| ==> Named(data[k]) {
        assert forall k :: 0 <= k < |init| ==> Named(init[k]) by {
          forall k | 0 <= k < |init| ensures Named(init[k]) { assert init[k] == data[k]; }
        }
      }
    }
  }

  /** A line is printed for a year exactly when that year's file has a named data row for it. */
  lemma {:induction false} AllListingsExact(files: seq<YearFile>, d: Dict<string>, e: Listing)
    ensures e in AllListings(files, d) <==> exists i :: 0 <= i < |files| && e in FileListings(files[i], d)
    decreases |files|
  {
    if files != [] {
      var init := files[..|files| - 1];
      var last := files[|files| - 1];
      AllListingsExact(init, d, e);
      assert AllListings(files, d) == AllListings(init, d) + FileListings(last, d);
      if e in AllListings(init, d) {
        var i :| 0 <= i < |init| && e in FileListings(init[i], d);
        assert files[i] == init[i];
      } else if e in FileListings(last, d) {
        assert files[|files| - 1] == last;
      }
      if exists i :: 0 <= i < |files| && e in FileListings(files[i], d) {
        var i :| 0 <= i < |files| && e in FileListings(files[i], d);
        if i < |init| {
          assert init[i] == files[i];
        } else {
          assert i == |files| - 1;
        }
      }
    }
  }

  /** The rows loop over one file, after the header. */
  method ListFile(year: string, idx: Option<nat>, data: seq<Row>, d: Dict<string>) returns (out: seq<string>)
    ensures out == RenderAll(Listings(year, idx, data, d))
  {
    out := [];
    for k := 0 to |data|
      invariant out == RenderAll(Listings(year, idx, data[..k], d))
    {
      var row := data[k];
      ListingsStep(year, idx, data, d, k);
      if row != [] && Strip(row[0]) != "" {
        var team := Strip(row[0]);
        var user;
        if idx.Some? && |row| > idx.value && Strip(row[idx.value]) != "" {
          user := Strip(row[idx.value]);
        } else {
          user := d.Get(team).GetOr("(unknown)");
        }
        RenderAllAppend(Listings(year, idx, data[..k], d), [Listing(year, team, user)]);
        out := out + [PadRight(year, 6) + " | " + PadRight(team, 30) + " | " + user];
      }
    }
    assert data[..|data|] == data;
  }

  /** One more data row adds its listing if it names a team. */
  lemma ListingsStep(year: string, idx: Option<nat>, data: seq<Row>, d: Dict<string>, k: nat)
    requires k < |data|
    ensures Listings(year, idx, data[..k + 1], d) ==
      Listings(year, idx, data[..k], d) +
        (if Named(data[k]) then [Listing(year, TeamOf(data[k]), RowUser(idx, data[k], d))] else [])
  {
    assert data[..k + 1][..k] == data[..k];
    assert data[..k + 1][k] == data[k];
  }

  lemma RenderAllAppend(a: seq<Listing>, b: seq<Listing>)
    ensures RenderAll(a + b) == RenderAll(a) + RenderAll(b)
  {
    assert |RenderAll(a + b)| == |RenderAll(a) + RenderAll(b)|;
    forall i | 0 <= i < |a| + |b| ensures RenderAll(a + b)[i] == (RenderAll(a) + RenderAll(b))[i] {
      if i < |a| {
        assert (a + b)[i] == a[i];
      } else {
        assert (a + b)[i] == b[i - |a|];
      }
    }
  }

  /** `print_teams_with_users` after the map is loaded. */
  method PrintTeamsWithUsers(files: seq<YearFile>, d: Dict<string>) returns (out: seq<string>)
    ensures out == Report(files, d)
  {
    var lines: seq<string> := [];
    for i := 0 to |files|
      invariant lines == RenderAll(AllListings(files[..i], d))
    {
      var f := files[i];
      ghost var before := AllListings(files[..i], d);
      assert files[..i + 1][..i] == files[..i];
      assert AllListings(files[..i + 1], d) == before + FileListings(f, d);
      RenderAllAppend(before, FileListings(f, d));
      if |f.rows| == 0 {
        continue;
      }
      var idx := FindUsernameColumn(f.rows[0]);
      var more := ListFile(f.year, idx, f.rows[1..], d);
      lines := lines + more;
    }
    assert files[..|files|] == files;
    out := [Title, Rule] + lines;
  }
}
