/**
 * The `teams.csv` files the three season-walking scripts read: one per
 * year directory under the CSV root, visited in sorted order of the
 * directory names. Each file is given as the rows `csv.reader` yields.
 */
module CsvFiles {
  import opened Wrappers
  import opened Strings

  /** A CSV row: its cells, in order. A blank line is the empty row. */
  type Row = seq<string>

  /** `csv/<year>/teams.csv` of one year. */
  datatype YearFile = YearFile(year: string, rows: seq<Row>)

  /** `if row and row[0].strip()`: a row that names a team in its first cell. */
  predicate Named(row: Row) {
    row != [] && Strip(row[0]) != ""
  }

  /** `row[0].strip()`. */
  function TeamOf(row: Row): string
    requires row != []
  {
    Strip(row[0])
  }

  /** Index `i` is the first of `names` that `p` accepts. */
  ghost predicate FirstWhere(names: seq<string>, p: string -> bool, i: int) {
    0 <= i < |names| && p(names[i]) && forall j :: 0 <= j < i ==> !p(names[j])
  }

  /** The position `next(c for c in names if p(c))` stops at, if any. */
  function FindFirst(names: seq<string>, p: string -> bool): (r: Option<nat>)
    ensures r.Some? ==> r.value < |names|
  {
    if names == [] then None
    else if p(names[0]) then Some(0)
    else
      match FindFirst(names[1..], p)
      case None => None
      case Some(i) => Some(i + 1)
  }

  /** `FindFirst` finds the first name `p` accepts, and nothing when there is none. */
  lemma {:induction false} FindFirstFirst(names: seq<string>, p: string -> bool)
    ensures FindFirst(names, p).Some? ==> FirstWhere(names, p, FindFirst(names, p).value)
    ensures FindFirst(names, p).None? ==> forall j :: 0 <= j < |names| ==> !p(names[j])
    decreases |names|
  {
    if names != [] && !p(names[0]) {
      FindFirstFirst(names[1..], p);
      if FindFirst(names, p).None? {
        forall j | 0 <= j < |names| ensures !p(names[j]) {
          if j > 0 { assert names[j] == names[1..][j - 1]; }
        }
      }
    }
  }
}
