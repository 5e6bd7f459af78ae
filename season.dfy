/**
 * `scripts/compile_league_stats.py`: read every year's `teams.csv` with
 * `csv.DictReader`, pick the team, record, points-for and points-against
 * columns by their header text, add each mapped team's wins, losses, ties
 * and points to its user's totals, and list the users by points for.
 *
 * Points are integers here. The script's float conversion of a cell
 * (`float(...)` after removing commas) is a parameter, `toNumber`, which
 * answers None where `float` raises; rounding to two places is not modelled.
 */
module Season {
  import opened Wrappers
  import opened Strings
  import opened Dicts
  import opened Sorting
  import opened Records
  import opened CsvFiles

  // ---------------------------------------------------------------------------
  // Choosing the columns (lines 37-40)

  predicate IsTeamHeader(c: string) {
    var l := Lower(c);
    l == "team" || l == "team name" || l == "name"
  }

  predicate IsRecordHeader(c: string) {
    Contains(Lower(c), "record")
  }

  predicate IsPointsForHeader(c: string) {
    var l := Lower(c);
    Contains(l, "points for") || l == "pf" || Contains(l, "points scored")
  }

  predicate IsPointsAgainstHeader(c: string) {
    var l := Lower(c);
    Contains(l, "points against") || l == "pa"
  }

  /** The chosen columns, each by its position among the field names. */
  datatype Columns = Columns(team: nat, record: Option<nat>, pointsFor: Option<nat>, pointsAgainst: Option<nat>)

  /** Every chosen column is one of the field names. */
  predicate Among(names: seq<string>, c: Columns) {
    && c.team < |names|
    && (c.record.Some? ==> c.record.value < |names|)
    && (c.pointsFor.Some? ==> c.pointsFor.value < |names|)
    && (c.pointsAgainst.Some? ==> c.pointsAgainst.value < |names|)
  }

  /**
   * The four columns for the header `names`: the team column is the first
   * header that is "team", "team name" or "name" in lower case, and the
   * first header when there is none; the others are the first header that
   * fits, or none.
   */
  function ChooseColumns(names: seq<string>): (c: Columns)
    requires names != []
    ensures Among(names, c)
  {
    Columns(FindFirst(names, IsTeamHeader).GetOr(0), FindFirst(names, IsRecordHeader),
      FindFirst(names, IsPointsForHeader), FindFirst(names, IsPointsAgainstHeader))
  }

  /** How the columns are chosen, spelled out. */
  lemma ColumnsChosen(names: seq<string>)
    requires names != []
    ensures var c := ChooseColumns(names);
      FirstWhere(names, IsTeamHeader, c.team) ||
      ((forall j :: 0 <= j < |names| ==> !IsTeamHeader(names[j])) && c.team == 0)
    ensures var c := ChooseColumns(names);
      c.record.Some? ==> FirstWhere(names, IsRecordHeader, c.record.value)
    ensures var c := ChooseColumns(names);
      c.record.None? ==> forall j :: 0 <= j < |names| ==> !IsRecordHeader(names[j])
    ensures var c := ChooseColumns(names);
      c.pointsFor.Some? ==> FirstWhere(names, IsPointsForHeader, c.pointsFor.value)
    ensures var c := ChooseColumns(names);
      c.pointsFor.None? ==> forall j :: 0 <= j < |names| ==> !IsPointsForHeader(names[j])
    ensures var c := ChooseColumns(names);
      c.pointsAgainst.Some? ==> FirstWhere(names, IsPointsAgainstHeader, c.pointsAgainst.value)
    ensures var c := ChooseColumns(names);
      c.pointsAgainst.None? ==> forall j :: 0 <= j < |names| ==> !IsPointsAgainstHeader(names[j])
  {
    FindFirstFirst(names, IsTeamHeader);
    FindFirstFirst(names, IsRecordHeader);
    FindFirstFirst(names, IsPointsForHeader);
    FindFirstFirst(names, IsPointsAgainstHeader);
  }

  // ---------------------------------------------------------------------------
  // One row of a file

  /** The last position of `name` in the header. */
  function LastIndex(names: seq<string>, name: string): (i: nat)
    requires name in names
    ensures i < |names| && names[i] == name
    ensures forall j :: i < j < |names| ==> names[j] != name
  {
    if names[|names| - 1] == name then |names| - 1 else LastIndex(names[..|names| - 1], name)
  }

  /**
   * `row.get(name)` on the dict `csv.DictReader` builds from `row`: a name
   * that appears twice takes the later cell, and a cell past the end of a
   * short row is None.
   */
  function Field(names: seq<string>, row: Row, col: nat): Option<string>
    requires col < |names|
  {
    var i := LastIndex(names, names[col]);
    if i < |row| then Some(row[i]) else None
  }

  /**
   * `parse_float(row.get(col, 0)) if col and row.get(col) else 0.0`: no
   * column, no cell or an empty cell count 0; otherwise the cell without
   * its commas is converted, and a cell that does not convert counts 0.
   */
  function Points(names: seq<string>, row: Row, col: Option<nat>, toNumber: string -> Option<int>): int
    requires col.Some? ==> col.value < |names|
  {
    if col.None? then 0
    else
      match Field(names, row, col.value)
      case None => 0
      case Some(cell) => if cell == "" then 0 else toNumber(RemoveAll(cell, ",")).GetOr(0)
  }

  /** What one mapped row adds to its user's totals. */
  datatype Line = Line(user: string, wins: nat, losses: nat, ties: nat, pointsFor: int, pointsAgainst: int)

  /** `row.get(record_col, '').strip() if record_col else ''`. */
  function RecordCell(names: seq<string>, row: Row, col: Option<nat>): Result<string>
    requires col.Some? ==> col.value < |names|
  {
    if col.None? then Ok("")
    else
      match Field(names, row, col.value)
      case None => Err(AttributeError)
      case Some(cell) => Ok(Strip(cell))
  }

  /**
   * The body of the row loop (lines 42-63) for one non-blank row: what it
   * adds, None for a row that is skipped, or the exception it raises.
   */
  function ReadRow(names: seq<string>, cols: Columns, row: Row, d: Dict<string>, toNumber: string -> Option<int>): Result<Option<Line>>
    requires Among(names, cols)
  {
    match Field(names, row, cols.team)
    case None => Err(AttributeError)
    case Some(cell) =>
      var user := d.Get(Strip(cell));
      if user.None? || user.value == "" then Ok(None)
      else
        var record :- RecordCell(names, row, cols.record);
        var wlt :- ParseRecord(record);
        Ok(Some(Line(user.value, wlt.0, wlt.1, wlt.2,
          Points(names, row, cols.pointsFor, toNumber), Points(names, row, cols.pointsAgainst, toNumber))))
  }

  /**
   * A row is skipped exactly when its stripped team has no user, or an
   * empty one. A row that is not skipped raises AttributeError when its
   * team cell or its record cell is missing (a short row), and ValueError
   * when its record does not parse; otherwise it is credited to that user
   * with the record's wins, losses and ties and the two points values.
   */
  lemma ReadRowCredits(names: seq<string>, cols: Columns, row: Row, d: Dict<string>, toNumber: string -> Option<int>)
    requires Among(names, cols)
    ensures var r := ReadRow(names, cols, row, d, toNumber);
      Field(names, row, cols.team).Some? ==>
        var user := d.Get(Strip(Field(names, row, cols.team).value));
        && (user.None? || user.value == "" ==> r == Ok(None))
        && (user.Some? && user.value != "" && r.Ok? ==>
              r.value.Some? && r.value.value.user == user.value &&
              RecordCell(names, row, cols.record).Ok? &&
              ParseRecord(RecordCell(names, row, cols.record).value) ==
                Ok((r.value.value.wins, r.value.value.losses, r.value.value.ties)))
    ensures Field(names, row, cols.team).None? ==> ReadRow(names, cols, row, d, toNumber) == Err(AttributeError)
    ensures var r := ReadRow(names, cols, row, d, toNumber);
      Field(names, row, cols.team).Some? ==>
        var user := d.Get(Strip(Field(names, row, cols.team).value));
        user.Some? && user.value != "" ==>
          && (cols.record.Some? && Field(names, row, cols.record.value).None? ==> r == Err(AttributeError))
          && (RecordCell(names, row, cols.record).Ok? && ParseRecord(RecordCell(names, row, cols.record).value).Err? ==>
                r == Err(ValueError))
          && (RecordCell(names, row, cols.record).Ok? && ParseRecord(RecordCell(names, row, cols.record).value).Ok? ==>
                var wlt := ParseRecord(RecordCell(names, row, cols.record).value).value;
                r == Ok(Some(Line(user.value, wlt.0, wlt.1, wlt.2,
                  Points(names, row, cols.pointsFor, toNumber), Points(names, row, cols.pointsAgainst, toNumber)))))
  {
  }

  /** Without a record column every row's record is "", which is 0-0-0. */
  lemma NoRecordColumn(names: seq<string>, cols: Columns, row: Row, d: Dict<string>, toNumber: string -> Option<int>)
    requires Among(names, cols) && cols.record.None?
    ensures var r := ReadRow(names, cols, row, d, toNumber);
      r.Ok? && r.value.Some? ==> r.value.value.wins == 0 && r.value.value.losses == 0 && r.value.value.ties == 0
  {
    ParseRecordNoDash("");
  }

  /** The games a row adds: its line if it was mapped, none if it was skipped. */
  function Credited(line: Option<Line>): seq<Line> {
    if line.Some? then [line.value] else []
  }

  /** The lines of the data rows `rows` under the header `names`; `DictReader` passes over blank rows. */
  function RowLines(names: seq<string>, cols: Columns, rows: seq<Row>, d: Dict<string>, toNumber: string -> Option<int>): Result<seq<Line>>
    requires Among(names, cols)
  {
    if rows == [] then Ok([])
    else
      var prev :- RowLines(names, cols, rows[..|rows| - 1], d, toNumber);
      var row := rows[|rows| - 1];
      if row == [] then Ok(prev)
      else
        var line :- ReadRow(names, cols, row, d, toNumber);
        Ok(prev + Credited(line))
  }

  /**
   * The lines of one `teams.csv`. An empty file has no field names (None),
   * and listing them raises TypeError; an empty header line has no first
   * field name for the team column's default, and raises IndexError.
   */
  function FileLines(rows: seq<Row>, d: Dict<string>, toNumber: string -> Option<int>): Result<seq<Line>> {
    if rows == [] then Err(TypeError)
    else if rows[0] == [] then Err(IndexError)
    else RowLines(rows[0], ChooseColumns(rows[0]), rows[1..], d, toNumber)
  }

  /** The lines of all years in order; the first file that raises ends the run. */
  function AllLines(files: seq<YearFile>, d: Dict<string>, toNumber: string -> Option<int>): Result<seq<Line>> {
    if files == [] then Ok([])
    else
      var prev :- AllLines(files[..|files| - 1], d, toNumber);
      var cur :- FileLines(files[|files| - 1].rows, d, toNumber);
      Ok(prev + cur)
  }

  // ---------------------------------------------------------------------------
  // The per-user totals

  datatype Totals = Totals(wins: nat, losses: nat, ties: nat, pointsFor: int, pointsAgainst: int)

  const NoTotals := Totals(0, 0, 0, 0, 0)

  /** Lines 57-63: a new user starts at zero, then each total grows by the line. */
  function AddLine(stats: Dict<Totals>, line: Line): Dict<Totals> {
    var before := if line.user in stats.vals then stats.vals[line.user] else NoTotals;
    stats.Put(line.user, Totals(before.wins + line.wins, before.losses + line.losses, before.ties + line.ties,
      before.pointsFor + line.pointsFor, before.pointsAgainst + line.pointsAgainst))
  }

  function Accumulate(lines: seq<Line>): Dict<Totals> {
    if lines == [] then Empty() else AddLine(Accumulate(lines[..|lines| - 1]), lines[|lines| - 1])
  }

  ghost predicate HasLine(lines: seq<Line>, u: string) {
    exists i :: 0 <= i < |lines| && lines[i].user == u
  }

  function LineWins(l: Line): int { l.wins }
  function LineLosses(l: Line): int { l.losses }
  function LineTies(l: Line): int { l.ties }
  function LinePointsFor(l: Line): int { l.pointsFor }
  function LinePointsAgainst(l: Line): int { l.pointsAgainst }

  /** The sum of `f` over the lines of user `u`. */
  function SumOf(lines: seq<Line>, u: string, f: Line -> int): int {
    if lines == [] then 0
    else SumOf(lines[..|lines| - 1], u, f) + if lines[|lines| - 1].user == u then f(lines[|lines| - 1]) else 0
  }

  lemma {:induction false} AccumulateValid(lines: seq<Line>)
    ensures Accumulate(lines).Valid()
    decreases |lines|
  {
    if lines != [] {
      AccumulateValid(lines[..|lines| - 1]);
      PutValid(Accumulate(lines[..|lines| - 1]), lines[|lines| - 1].user, Totals(0, 0, 0, 0, 0));
      var s := Accumulate(lines[..|lines| - 1]);
      var l := lines[|lines| - 1];
      var before := if l.user in s.vals then s.vals[l.user] else NoTotals;
      PutValid(s, l.user, Totals(before.wins + l.wins, before.losses + l.losses, before.ties + l.ties,
        before.pointsFor + l.pointsFor, before.pointsAgainst + l.pointsAgainst));
    }
  }

  /** A user has totals exactly when some mapped row belongs to them. */
  lemma {:induction false} AccumulateDomain(lines: seq<Line>, u: string)
    ensures u in Accumulate(lines).vals <==> HasLine(lines, u)
    decreases |lines|
  {
    if lines != [] {
      var init := lines[..|lines| - 1];
      AccumulateDomain(init, u);
      if HasLine(lines, u) && lines[|lines| - 1].user != u {
        var i :| 0 <= i < |lines| && lines[i].user == u;
        assert init[i] == lines[i];
      }
      if HasLine(init, u) {
        var i :| 0 <= i < |init| && init[i].user == u;
        assert lines[i] == init[i];
      }
    }
  }

  /** Each user's totals are the sums over that user's rows of all years. */
  lemma {:induction false} AccumulateSums(lines: seq<Line>, u: string)
    ensures u in Accumulate(lines).vals ==>
      var t := Accumulate(lines).vals[u];
      && t.wins == SumOf(lines, u, LineWins) && t.losses == SumOf(lines, u, LineLosses)
      && t.ties == SumOf(lines, u, LineTies)
      && t.pointsFor == SumOf(lines, u, LinePointsFor) && t.pointsAgainst == SumOf(lines, u, LinePointsAgainst)
    decreases |lines|
  {
    if lines != [] {
      var init := lines[..|lines| - 1];
      AccumulateSums(init, u);
      if u !in Accumulate(init).vals {
        AccumulateDomain(init, u);
        NoLineSums(init, u);
      }
    }
  }

  lemma {:induction false} NoLineSums(lines: seq<Line>, u: string)
    requires !HasLine(lines, u)
    ensures SumOf(lines, u, LineWins) == 0 && SumOf(lines, u, LineLosses) == 0 && SumOf(lines, u, LineTies) == 0
    ensures SumOf(lines, u, LinePointsFor) == 0 && SumOf(lines, u, LinePointsAgainst) == 0
    decreases |lines|
  {
    if lines != [] {
      var init := lines[..|lines| - 1];
      assert !HasLine(init, u);
      NoLineSums(init, u);
      assert lines[|lines| - 1].user != u;
    }
  }

  // ---------------------------------------------------------------------------
  // The output rows (lines 65-77)

  datatype OutputRow = OutputRow(user: string, wins: nat, losses: nat, ties: nat, gamesPlayed: nat,
    pointsFor: int, pointsAgainst: int)

  /** Lines 67-76: one output row; games played are wins, losses and ties together. */
  function ToRow(user: string, t: Totals): OutputRow {
    OutputRow(user, t.wins, t.losses, t.ties, t.wins + t.losses + t.ties, t.pointsFor, t.pointsAgainst)
  }

  /** The output rows in the order of `user_stats.items()`. */
  function RowsOf(items: seq<(string, Totals)>): (r: seq<OutputRow>)
    ensures |r| == |items|
    ensures forall i :: 0 <= i < |items| ==> r[i] == ToRow(items[i].0, items[i].1)
  {
    if items == [] then [] else RowsOf(items[..|items| - 1]) + [ToRow(items[|items| - 1].0, items[|items| - 1].1)]
  }

  lemma RowsOfStep(items: seq<(string, Totals)>, item: (string, Totals))
    ensures RowsOf(items + [item]) == RowsOf(items) + [ToRow(item.0, item.1)]
  {
    assert (items + [item])[..|items|] == items;
  }

  function PointsForKey(r: OutputRow): int { r.pointsFor }

  /** The rows written to `cumulative_stats.csv` for the lines of all years. */
  function Standings(lines: seq<Line>): seq<OutputRow> {
    var stats := Accumulate(lines);
    AccumulateValid(lines);
    SortDesc(RowsOf(Items(stats.keys, stats.vals)), PointsForKey)
  }

  /** The whole run: the rows written, or the exception that ends it. */
  function SeasonReport(files: seq<YearFile>, d: Dict<string>, toNumber: string -> Option<int>): Result<seq<OutputRow>> {
    var lines :- AllLines(files, d, toNumber);
    Ok(Standings(lines))
  }

  /**
   * The standings list each user with a mapped row once, by points for from
   * most to fewest (equal points in the order users first appeared), with
   * the sums of that user's rows and games played = wins + losses + ties.
   */
  lemma StandingsCorrect(lines: seq<Line>)
    ensures NonIncreasing(Standings(lines), PointsForKey)
    ensures Accumulate(lines).Valid()
    ensures multiset(Standings(lines)) == multiset(RowsOf(Items(Accumulate(lines).keys, Accumulate(lines).vals)))
    ensures forall k ::
      WithKey(Standings(lines), PointsForKey, k) == WithKey(RowsOf(Items(Accumulate(lines).keys, Accumulate(lines).vals)), PointsForKey, k)
    ensures forall i :: 0 <= i < |Standings(lines)| ==>
      var r := Standings(lines)[i];
      && HasLine(lines, r.user)
      && r.gamesPlayed == r.wins + r.losses + r.ties
      && r.wins == SumOf(lines, r.user, LineWins) && r.losses == SumOf(lines, r.user, LineLosses)
      && r.ties == SumOf(lines, r.user, LineTies)
      && r.pointsFor == SumOf(lines, r.user, LinePointsFor)
      && r.pointsAgainst == SumOf(lines, r.user, LinePointsAgainst)
    ensures forall u :: HasLine(lines, u) ==> exists i :: 0 <= i < |Standings(lines)| && Standings(lines)[i].user == u
  {
    var stats := Accumulate(lines);
    AccumulateValid(lines);
    var rows := RowsOf(Items(stats.keys, stats.vals));
    var sorted := Standings(lines);
    SortDescCorrect(rows, PointsForKey);
    forall i | 0 <= i < |sorted|
      ensures var r := sorted[i];
        && HasLine(lines, r.user)
        && r.gamesPlayed == r.wins + r.losses + r.ties
        && r.wins == SumOf(lines, r.user, LineWins) && r.losses == SumOf(lines, r.user, LineLosses)
        && r.ties == SumOf(lines, r.user, LineTies)
        && r.pointsFor == SumOf(lines, r.user, LinePointsFor)
        && r.pointsAgainst == SumOf(lines, r.user, LinePointsAgainst)
    {
      assert sorted[i] in multiset(rows);
      var k :| 0 <= k < |rows| && rows[k] == sorted[i];
      var u := stats.keys[k];
      AccumulateDomain(lines, u);
      AccumulateSums(lines, u);
    }
    forall u | HasLine(lines, u) ensures exists i :: 0 <= i < |sorted| && sorted[i].user == u {
      AccumulateDomain(lines, u);
      var k :| 0 <= k < |stats.keys| && stats.keys[k] == u;
      assert rows[k] in multiset(sorted);
      var i :| 0 <= i < |sorted| && sorted[i] == rows[k];
    }
  }

  /** No two rows are for the same user. */
  ghost predicate DistinctUsers(rows: seq<OutputRow>) {
    forall i, j :: 0 <= i < j < |rows| ==> rows[i].user != rows[j].user
  }

  /** The standings never list a user twice. */
  lemma StandingsDistinct(lines: seq<Line>)
    ensures DistinctUsers(Standings(lines))
  {
    var stats := Accumulate(lines);
    AccumulateValid(lines);
    var rows := RowsOf(Items(stats.keys, stats.vals));
    assert DistinctUsers(rows) by {
      forall i, j | 0 <= i < j < |rows| ensures rows[i].user != rows[j].user {
        assert rows[i].user == stats.keys[i] && rows[j].user == stats.keys[j];
      }
    }
    SortDescCorrect(rows, PointsForKey);
    DistinctUsersPermutation(Standings(lines), rows);
  }

  /** Reordering rows keeps them for distinct users. */
  lemma DistinctUsersPermutation(a: seq<OutputRow>, b: seq<OutputRow>)
    requires multiset(a) == multiset(b) && DistinctUsers(b)
    ensures DistinctUsers(a)
  {
    forall i, j | 0 <= i < j < |a| ensures a[i].user != a[j].user {
      if a[i] == a[j] {
        MultisetTwice(a, i, j);
        CountAtMostOne(b, a[i]);
      } else {
        assert a[i] in multiset(b) && a[j] in multiset(b);
        var p :| 0 <= p < |b| && b[p] == a[i];
        var q :| 0 <= q < |b| && b[q] == a[j];
        assert p != q;
      }
    }
  }

  lemma MultisetTwice<T>(s: seq<T>, i: int, j: int)
    requires 0 <= i < j < |s| && s[i] == s[j]
    ensures multiset(s)[s[i]] >= 2
  {
    assert s == s[..j] + [s[j]] + s[j + 1..];
    assert s[i] in multiset(s[..j]);
  }

  lemma {:induction false} CountAtMostOne(rows: seq<OutputRow>, r: OutputRow)
    requires DistinctUsers(rows)
    ensures multiset(rows)[r] <= 1
    decreases |rows|
  {
    if rows != [] {
      var init := rows[..|rows| - 1];
      CountAtMostOne(init, r);
      assert rows == init + [rows[|rows| - 1]];
      if rows[|rows| - 1] == r {
        assert r !in init;
      }
    }
  }

  // ---------------------------------------------------------------------------
  // compile_league_stats

  /**
   * The row loop of one `teams.csv` (lines 34-63), counted onto `stats`
   * (the totals of the lines `done`).
   */
  method CompileFile(stats: Dict<Totals>, rows: seq<Row>, d: Dict<string>, toNumber: string -> Option<int>,
                     ghost done: seq<Line>) returns (r: Result<Dict<Totals>>)
    requires stats == Accumulate(done)
    ensures FileLines(rows, d, toNumber).Err? ==> r == Err(FileLines(rows, d, toNumber).error)
    ensures FileLines(rows, d, toNumber).Ok? ==> r == Ok(Accumulate(done + FileLines(rows, d, toNumber).value))
  {
    if |rows| == 0 {
      return Err(TypeError);
    }
    var names := rows[0];
    if |names| == 0 {
      return Err(IndexError);
    }
    var cols := ChooseColumns(names);
    var data := rows[1..];
    var s := stats;
    ghost var cur: seq<Line> := [];
    assert done + cur == done;
    var j := 0;
    while j < |data|
      invariant 0 <= j <= |data|
      invariant RowLines(names, cols, data[..j], d, toNumber) == Ok(cur)
      invariant s == Accumulate(done + cur)
    {
      RowLinesStep(names, cols, data, d, toNumber, j);
      var row := data[j];
      if row == [] {
        j := j + 1;
        continue;
      }
      var line := ReadRow(names, cols, row, d, toNumber);
      if line.Err? {
        RowLinesFailFast(names, cols, data, d, toNumber, j + 1);
        return Err(line.error);
      }
      if line.value.Some? {
        s := CountLine(s, line.value.value);
      }
      CreditedStep(done, cur, line.value);
      cur := cur + Credited(line.value);
      j := j + 1;
    }
    assert data[..j] == data;
    return Ok(s);
  }

  /** Lines 57-63 for one mapped row: a new user starts at zero, then each total grows by the row's. */
  method CountLine(stats: Dict<Totals>, l: Line) returns (r: Dict<Totals>)
    ensures r == AddLine(stats, l)
  {
    r := stats;
    if l.user !in r.vals {
      r := r.Put(l.user, NoTotals);
    }
    var t := r.vals[l.user];
    r := r.Put(l.user, Totals(t.wins + l.wins, t.losses + l.losses, t.ties + l.ties,
      t.pointsFor + l.pointsFor, t.pointsAgainst + l.pointsAgainst));
    if l.user !in stats.vals {
      PutPut(stats, l.user, NoTotals, r.vals[l.user]);
    }
  }

  /** One more data row: a blank one changes nothing; another adds its line, or fails. */
  lemma RowLinesStep(names: seq<string>, cols: Columns, rows: seq<Row>, d: Dict<string>,
                     toNumber: string -> Option<int>, j: nat)
    requires Among(names, cols) && j < |rows| && RowLines(names, cols, rows[..j], d, toNumber).Ok?
    ensures rows[j] == [] ==> RowLines(names, cols, rows[..j + 1], d, toNumber) == RowLines(names, cols, rows[..j], d, toNumber)
    ensures rows[j] != [] && ReadRow(names, cols, rows[j], d, toNumber).Ok? ==>
      RowLines(names, cols, rows[..j + 1], d, toNumber) ==
        Ok(RowLines(names, cols, rows[..j], d, toNumber).value + Credited(ReadRow(names, cols, rows[j], d, toNumber).value))
    ensures rows[j] != [] && ReadRow(names, cols, rows[j], d, toNumber).Err? ==>
      RowLines(names, cols, rows[..j + 1], d, toNumber) == Err(ReadRow(names, cols, rows[j], d, toNumber).error)
  {
    assert rows[..j + 1][..j] == rows[..j];
  }

  lemma CreditedStep(done: seq<Line>, cur: seq<Line>, line: Option<Line>)
    ensures Accumulate(done + (cur + Credited(line))) ==
      if line.Some? then AddLine(Accumulate(done + cur), line.value) else Accumulate(done + cur)
  {
    if line.Some? {
      LineStep(done + cur, line.value);
      assert done + (cur + [line.value]) == (done + cur) + [line.value];
    } else {
      assert cur + [] == cur;
    }
  }

  /** The totals after one more line, as `AddLine` states them. */
  lemma LineStep(lines: seq<Line>, l: Line)
    ensures Accumulate(lines + [l]) == AddLine(Accumulate(lines), l)
  {
    assert (lines + [l])[..|lines + [l]| - 1] == lines;
  }

  lemma {:induction false} RowLinesFailFast(names: seq<string>, cols: Columns, rows: seq<Row>, d: Dict<string>,
                                            toNumber: string -> Option<int>, n: nat)
    requires Among(names, cols) && n <= |rows| && RowLines(names, cols, rows[..n], d, toNumber).Err?
    ensures RowLines(names, cols, rows, d, toNumber) == RowLines(names, cols, rows[..n], d, toNumber)
    decreases |rows| - n
  {
    if n < |rows| {
      assert rows[..n + 1][..n] == rows[..n];
      RowLinesFailFast(names, cols, rows, d, toNumber, n + 1);
    } else {
      assert rows[..n] == rows;
    }
  }

  lemma {:induction false} AllLinesFailFast(files: seq<YearFile>, d: Dict<string>, toNumber: string -> Option<int>, n: nat)
    requires n <= |files| && AllLines(files[..n], d, toNumber).Err?
    ensures AllLines(files, d, toNumber) == AllLines(files[..n], d, toNumber)
    decreases |files| - n
  {
    if n < |files| {
      assert files[..n + 1][..n] == files[..n];
      AllLinesFailFast(files, d, toNumber, n + 1);
    } else {
      assert files[..n] == files;
    }
  }

  /** Lines 65-77: one row per user in `user_stats` order, then sorted by points for, most first. */
  method OutputRows(stats: Dict<Totals>) returns (rows: seq<OutputRow>)
    requires stats.Valid()
    ensures rows == SortDesc(RowsOf(Items(stats.keys, stats.vals)), PointsForKey)
  {
    rows := [];
    var i := 0;
    while i < |stats.keys|
      invariant 0 <= i <= |stats.keys|
      invariant rows == RowsOf(Items(stats.keys[..i], stats.vals))
    {
      var user := stats.keys[i];
      var t := stats.vals[user];
      ItemsStep(stats.keys, stats.vals, i);
      RowsOfStep(Items(stats.keys[..i], stats.vals), (user, t));
      rows := rows + [ToRow(user, t)];
      i := i + 1;
    }
    assert stats.keys[..i] == stats.keys;
    rows := SortDesc(rows, PointsForKey);
  }

  /**
   * `compile_league_stats` over the years' `teams.csv` files: the rows of
   * `cumulative_stats.csv`, or the exception that ends the run.
   */
  method CompileLeagueStats(files: seq<YearFile>, d: Dict<string>, toNumber: string -> Option<int>)
    returns (r: Result<seq<OutputRow>>)
    ensures r == SeasonReport(files, d, toNumber)
  {
    var stats: Dict<Totals> := Empty();
    ghost var done: seq<Line> := [];
    var i := 0;
    while i < |files|
      invariant 0 <= i <= |files|
      invariant AllLines(files[..i], d, toNumber) == Ok(done)
      invariant stats == Accumulate(done)
    {
      assert files[..i + 1][..i] == files[..i];
      var next := CompileFile(stats, files[i].rows, d, toNumber, done);
      if next.Err? {
        AllLinesFailFast(files, d, toNumber, i + 1);
        return Err(next.error);
      }
      done := done + FileLines(files[i].rows, d, toNumber).value;
      stats := next.value;
      i := i + 1;
    }
    assert files[..i] == files;
    AccumulateValid(done);
    var rows := OutputRows(stats);
    return Ok(rows);
  }
}
