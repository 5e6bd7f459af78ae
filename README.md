# League history aggregation, modelled in Dafny

This project models the aggregation scripts of a fantasy-league history
repository. Each season is a year directory of CSV exports. A JSON file maps
each user to the team names they used over the years. Four scripts combine the two:

- `scripts/playoff_records.py` resolves the two team names of every matchup
  row to users. It tolerates names cut short with `...`, decides winner and
  loser with ties going to the "Team" side, and counts playoff wins, losses,
  championships and championship appearances per user. It then ranks users
  by playoff wins.
- `scripts/compile_league_stats.py` picks the team, record, points-for and
  points-against columns of each season's `teams.csv` by header name. It
  parses `W-L-T` records, sums wins, losses, ties and points per mapped user,
  derives games played, and orders the rows by points for.
- `scripts/list_unique_teams.py` lists every team of every season with its
  user. It prefers the file's own `Username` column and otherwise uses the
  map, with `(unknown)` as the fallback. The columns are left-justified to 6
  and 30 characters.
- `check_team_mappings.py` reports, once each and in sorted order, the
  (year, team) pairs whose team the map does not know. When there are none
  it prints a single all-clear line.

The model is split into modules as follows:

- `Dicts` is a Python dict: an insertion-ordered key list plus a map.
  Assigning an existing key keeps its position.
- `TeamMap` is `load_team_user_map`, which all four scripts contain.
- `Records` is `parse_record`, which two of the scripts contain.
- `Playoffs`, `Season`, `Roster` and `Mappings` are the four scripts.
- `Strings` provides Python's `strip`, `lower`, `in`, `replace`, `split`
  and left-justified formatting, and the order on strings.
- `Sorting` provides the stable descending sort and the sort of
  `(year, team)` pairs.
- `CsvFiles` holds the year files and the shared first-match search.
- `Wrappers` holds `Option` and `Result`.

A Python exception that ends a run, such as `float(None)` or `int('x')`, is
an `Err` carrying the exception's kind. Every loop of the scripts is a Dafny
method proved equal to a specification function. The properties are proved
about those functions as lemmas.

## Model

| member | source | states |
|---|---|---|
| TeamMap.LoadTeamUserMap | scripts/playoff_records.py:14-22 | The nested loop builds `Inverted(entries)`. Its keys are the teams in order of first listing. A team is a key exactly when some entry lists it, and its user is the user of the last entry that lists it. |
| TeamMap.Inverted | scripts/playoff_records.py:17-22 | The inverted map is a well-formed dict: no key is listed twice and the key list matches the map's domain. |
| TeamMap.PutTeamsFacts | scripts/playoff_records.py:19-21 | One entry's teams are appended as new keys in order. Each of its teams then maps to its user, and every other key keeps its value. |
| TeamMap.InvertedKeys | scripts/list_unique_teams.py:5-13 | The key order is the first occurrences of all listed teams, in file order. |
| TeamMap.InvertedDomain | check_team_mappings.py:5-13 | A team is a key exactly when some entry lists it, in both directions. |
| TeamMap.InvertedLastWins | scripts/compile_league_stats.py:5-13 | A team listed by several entries maps to the user of the last of them. |
| Dicts.PutValid | scripts/playoff_records.py:21 | `d[k] = v` keeps a dict well formed. |
| Dicts.PutPut | scripts/playoff_records.py:21 | Assigning a key twice leaves the second value, at the position the first assignment gave the key. |
| Dicts.Empty | scripts/playoff_records.py:17 | `{}` is a well-formed dict with no keys. |
| Dicts.Items | scripts/compile_league_stats.py:66 | `items()` yields one pair per key, in insertion order, each with its key's value. |
| Dicts.TotalPut | scripts/playoff_records.py:89 | Assigning a key moves the sum of a counter over all values by the new value less the old one. |
| Records.FromPieces | scripts/compile_league_stats.py:18-23 | With two or three pieces the result is their integer values, with 0 ties for two pieces, and it is an error exactly when a piece is not an integer. Any other number of pieces gives 0-0-0. |
| Records.ParseInt | scripts/compile_league_stats.py:19-21 | `int(x)` on one piece: the stripped text, after an optional `+`, must be a non-empty run of ASCII digits, and its value is returned; anything else is `ValueError`. `ParseIntDecimal` shows that every decimal numeral reads back as its number. |
| Records.ParseRecord | scripts/compile_league_stats.py:15-23 | `parse_record` is `FromPieces` applied to the pieces of the stripped record split on `-`. `ParseRecordThree`, `ParseRecordTwo`, `ParseRecordNoDash` and `ParseRecordManyDashes` give its value for each form of record. |
| Records.ParseRecordThree | scripts/playoff_records.py:27-28 | A record written `W-L-T` parses back to `(W, L, T)`. |
| Records.ParseRecordTwo | scripts/compile_league_stats.py:20-21 | A record written `W-L` parses back to `(W, L, 0)`. |
| Records.ParseRecordNoDash | scripts/compile_league_stats.py:22-23 | A stripped record without `-`, the empty string included, gives 0-0-0. |
| Records.ParseRecordManyDashes | scripts/playoff_records.py:31-32 | A stripped record with three or more `-` gives 0-0-0 without raising. |
| Records.ParseIntDecimal | scripts/compile_league_stats.py:19 | `int()` of the decimal numeral of `n` is `n`. |
| Playoffs.MatchIndex | scripts/playoff_records.py:38-39 | The position found is the first key that starts with the pattern. It is the end of the key list when no key does. |
| Playoffs.UserOfTeam | scripts/playoff_records.py:35-41 | For a present name, the user of the first key that starts with the name with every `...` removed, or None when no key does. `GetUserFromTeam`, `EmptyNameMatchesFirst` and `TruncatedNameFound` state its properties. |
| Playoffs.Lookup | scripts/playoff_records.py:62-63 | A field the row lacks (None) only fails once the loop calls `replace` on it. It gives `AttributeError` for a non-empty map and None for an empty one. A present name is looked up as `UserOfTeam` does. |
| Playoffs.GetUserFromTeam | scripts/playoff_records.py:35-41 | The loop returns the value of the first key, in insertion order, that starts with the name once every `...` is removed. It returns none exactly when no key matches. A missing name (None) raises exactly when the map has a key. |
| Playoffs.EmptyNameMatchesFirst | scripts/playoff_records.py:39 | An empty name, or one that is just `...`, matches the first key's user. |
| Playoffs.TruncatedNameFound | scripts/playoff_records.py:37-40 | A name cut short to a prefix of some key and ending in `...` always finds a user: the first key with that prefix. The kept prefix may hold single dots, as in `St. Louis Bl...`, but not a `...` of its own. |
| Playoffs.ResolveGameCounted | scripts/playoff_records.py:54-77 | A row is counted exactly when both scores are numbers, both names resolve to users and the lowercased game type mentions `playoff` or `championship`; both directions are proved. The Team's user wins exactly when `Score_2 >= Score`, and the game is a championship exactly when its type mentions `championship`. When the scores convert and both lookups succeed but either finds no user, the row is skipped whatever its game type. |
| Playoffs.ResolveGameFails | scripts/playoff_records.py:54-77 | A missing score raises `TypeError` and a score that is not a number raises `ValueError`, with the `Score_2` column tried first. After the scores, a missing name raises `AttributeError` when the map is not empty, and so does a missing `Game_Type` once both users are found. No other row raises. |
| Playoffs.ResolveGame | scripts/playoff_records.py:54-77 | What one row contributes: an exception, a skip, or the counted game with its winner, loser and championship flag. `ResolveGameCounted` and `ResolveGameFails` state its properties. |
| Playoffs.GameOutcomesFailFast | scripts/playoff_records.py:59-63 | Once a row of a season raises, the season's result is that exception. |
| Playoffs.SeasonOutcomesFailFast | scripts/playoff_records.py:46-53 | Once a season raises, the whole run's result is that exception. |
| Playoffs.FailFast | scripts/playoff_records.py:59-77 | The first row that raises decides the outcome of the whole run. |
| Playoffs.Enter | scripts/playoff_records.py:79-80 | After the entry step the user is a key of the stats. |
| Playoffs.EnterAt | scripts/playoff_records.py:79-87 | A user absent from the stats enters with every counter at 0. A present user is unchanged, and no one else enters. |
| Playoffs.SeatAt | scripts/playoff_records.py:78-87 | After the loop over `[winner, loser]`, exactly those two users are added. The existing counters are kept. |
| Playoffs.DecideAt | scripts/playoff_records.py:89-96 | The winner gains one playoff win and the loser one playoff loss. No key is added. |
| Playoffs.CrownAt | scripts/playoff_records.py:98-101 | In a championship game the winner gains a championship and both sides an appearance. Otherwise nothing changes. |
| Playoffs.AddGameAt | scripts/playoff_records.py:78-101 | This gives each user's counters after one counted game, and says who becomes a key. |
| Playoffs.AddGameDomain | scripts/playoff_records.py:78-87 | A counted game adds exactly its two users as keys. |
| Playoffs.Tally | scripts/playoff_records.py:78-101 | The counters after a sequence of counted games, starting from `{}`. `TallyDomain`, `TallyCounts`, `TallyTotals` and `TitlesBound` state its properties. |
| Playoffs.TallyDomain | scripts/playoff_records.py:78-87 | A user is in the stats exactly when they played in a counted game. |
| Playoffs.TallyCounts | scripts/playoff_records.py:89-101 | A user's counters are their counted wins, losses, championship wins and championship games. |
| Playoffs.NotPlayedCounts | scripts/playoff_records.py:78-87 | A user who played no counted game has every count at 0. |
| Playoffs.TitlesBound | scripts/playoff_records.py:98-101 | A user's championships never exceed their championship games. |
| Playoffs.TitlesAtMostTitleGames | scripts/playoff_records.py:98-101 | In the stats, a user's championships never exceed their appearances. |
| Playoffs.EnterMoves | scripts/playoff_records.py:79-87 | Entering a user at zero changes no counter's total. |
| Playoffs.AddGameMoves | scripts/playoff_records.py:89-101 | One counted game adds 1 to the total wins and 1 to the total losses. A championship game also adds 1 championship and 2 appearances. |
| Playoffs.TallyTotals | scripts/playoff_records.py:89-101 | Conservation: total wins and total losses both equal the number of counted games. Total championships equal the championship games, and total appearances are twice that. |
| Playoffs.CountRow | scripts/playoff_records.py:54-101 | One row's loop body leaves the counters after that game. It leaves them unchanged for a skipped row, and returns the row's exception when it raises. |
| Playoffs.CountGame | scripts/playoff_records.py:78-101 | The in-place updates for one counted game leave exactly `AddGame` of the counters. |
| Playoffs.TallyStep | scripts/playoff_records.py:53-101 | A counted row adds one game to the tally, and a skipped row leaves the counters alone. |
| Playoffs.CountSeason | scripts/playoff_records.py:53-101 | A season's row loop tallies the season's counted games onto the counters, or returns the first exception. |
| Playoffs.CompileLeagueStats | scripts/playoff_records.py:43-103 | The result is the tally of all counted games, or the first exception. Win and loss totals equal the game count, and appearances are twice the championships. A user is a key exactly when they played a counted game, and their championships never exceed their appearances. |
| Playoffs.RankingCorrect | scripts/playoff_records.py:109 | The ranking is ordered by playoff wins, from most to fewest. It is a permutation of the stats' items, and users with equal wins keep their insertion order. |
| Playoffs.Ranking | scripts/playoff_records.py:109 | `sorted(stats.items(), key=playoff_wins, reverse=True)`. `RankingCorrect` states its properties. |
| CsvFiles.FindFirst | scripts/compile_league_stats.py:37-40 | `next(...)` over the field names stops at a valid position or finds nothing. |
| CsvFiles.FindFirstFirst | scripts/compile_league_stats.py:37-40 | The position found is the first name the predicate accepts. When nothing is found, no name is accepted. |
| Season.ChooseColumns | scripts/compile_league_stats.py:37-40 | Every chosen column is a position among the field names. |
| Season.ColumnsChosen | scripts/compile_league_stats.py:37-40 | The team column is the first name that is `team`, `team name` or `name` after lowercasing, and the first name when none is. Record, points-for and points-against are each the first name that fits its rule, or absent when none does. |
| Season.LastIndex | scripts/compile_league_stats.py:42 | A field's value comes from the last column that carries its name. |
| Season.Field | scripts/compile_league_stats.py:42 | `row.get(name)` on the dict `csv.DictReader` builds. The value is the cell of the last column with that name, or None when the row is too short to reach it. |
| Season.ReadRow | scripts/compile_league_stats.py:42-63 | The row loop's body for one non-blank row. A missing team cell raises `AttributeError`, a team with no user or an empty user skips the row, a missing record cell raises `AttributeError`, and a bad record raises `ValueError`. Otherwise the result is the user's line with the record and the points. `ReadRowCredits` and `NoRecordColumn` state its properties. |
| Season.FileLines | scripts/compile_league_stats.py:34-41 | One `teams.csv`. An empty file raises `TypeError` when its field names (None) are iterated, and an empty header line raises `IndexError` at `fieldnames[0]`. Any other file yields the lines of its data rows under the chosen columns. |
| Season.ReadRowCredits | scripts/compile_league_stats.py:42-56 | A row whose stripped team has no user, or has an empty one, is skipped. For a mapped user, a missing team or record cell (a short row) raises AttributeError and a record that does not parse raises ValueError. A record that parses credits exactly the line with that user, the record's wins, losses and ties, and the two points values. |
| Season.NoRecordColumn | scripts/compile_league_stats.py:46-47 | Without a record column, every credited row adds 0-0-0. |
| Season.AllLinesFailFast | scripts/compile_league_stats.py:28-47 | Once a file raises, the run's result is that exception. |
| Season.AccumulateValid | scripts/compile_league_stats.py:57-63 | The per-user totals form a well-formed dict. |
| Season.AccumulateDomain | scripts/compile_league_stats.py:57-58 | A user has totals exactly when some credited row goes to them. |
| Season.AccumulateSums | scripts/compile_league_stats.py:59-63 | A user's wins, losses, ties and points are the sums over that user's credited rows of all years. |
| Season.RowsOf | scripts/compile_league_stats.py:66-76 | One output row per user, in `items()` order, carrying that user's totals. |
| Season.StandingsCorrect | scripts/compile_league_stats.py:65-77 | The written rows are ordered by points for, from most to fewest, and are a permutation of the per-user rows. They carry each user's sums with games played = wins + losses + ties, and list every user who has a credited row. |
| Season.Standings | scripts/compile_league_stats.py:64-77 | The output rows: the accumulated totals in `items()` order, sorted by points for, most first. `StandingsCorrect` and `StandingsDistinct` state its properties. |
| Season.StandingsDistinct | scripts/compile_league_stats.py:65-77 | No user is written twice. |
| Season.CountLine | scripts/compile_league_stats.py:57-63 | One credited row enters its user at zero if needed and adds its counts. |
| Season.CompileFile | scripts/compile_league_stats.py:33-63 | One file's row loop accumulates exactly that file's credited rows, or returns its exception. |
| Season.OutputRows | scripts/compile_league_stats.py:65-77 | The append loop and the sort give `SortDesc(RowsOf(items()), points for)`. |
| Season.CompileLeagueStats | scripts/compile_league_stats.py:25-77 | The whole run writes `SeasonReport`, the standings of every credited row of every year, or ends with the first exception. |
| Roster.FindUsernameColumn | scripts/list_unique_teams.py:31-35 | The loop with `break` finds the first header whose stripped, lowercased text is `username`. When no header matches, it finds none. |
| Roster.RowUserChoice | scripts/list_unique_teams.py:39-42 | A filled username cell within the row wins, stripped. Otherwise the user is the team's mapped user, or `(unknown)` when the team is not mapped. |
| Roster.RowUser | scripts/list_unique_teams.py:39-42 | A filled username cell that the row reaches wins, stripped. Otherwise the user is the map's value for the stripped team, or `(unknown)`. `RowUserChoice` states this. |
| Roster.RenderLayout | scripts/list_unique_teams.py:43 | A line holds the year left-justified in max(len, 6) columns, then ` \| `, the team in max(len, 30) columns, then ` \| ` and the user. |
| Roster.Render | scripts/list_unique_teams.py:43 | `f"{year_dir:<6} \| {team:<30} \| {user}"` for one listing. `RenderLayout` states its layout. |
| Roster.ListingsExact | scripts/list_unique_teams.py:36-43 | A listing is printed for a file's data rows exactly when some row has a non-blank first cell and yields that listing. |
| Roster.FileListingsExact | scripts/list_unique_teams.py:26-43 | An empty file prints nothing, and the header row is never listed. The listings are the named rows after it, using the username column the header gives. |
| Roster.AllListingsExact | scripts/list_unique_teams.py:19-43 | A listing is printed exactly when some year's file yields it. |
| Roster.ListingsCount | scripts/list_unique_teams.py:36-37 | A file prints at most one line per data row, and exactly one when every row names a team. |
| Roster.ListFile | scripts/list_unique_teams.py:36-43 | The row loop prints the rendered listings of the named rows, in order. |
| Roster.PrintTeamsWithUsers | scripts/list_unique_teams.py:15-43 | The whole output is the title, the 60-dash rule and then every file's listings in year order. |
| Mappings.RowsUnmappedExact | check_team_mappings.py:29-33 | After one file's rows, a pair is collected exactly when it was collected before or some data row names that team and the map lacks it. |
| Mappings.RowsUnmappedDistinct | check_team_mappings.py:33 | Adding to the set never creates a repeat. |
| Mappings.UnmappedDistinct | check_team_mappings.py:17-33 | The collected pairs hold each (year, team) at most once. |
| Mappings.UnmappedExact | check_team_mappings.py:18-33 | Soundness and completeness: a pair is collected exactly when some data row of that year (never a header) has a non-blank first cell whose stripped team is not a key of the map. |
| Mappings.UnmappedSound | check_team_mappings.py:29-33 | Soundness: every collected pair comes from a data row whose stripped team is not a key of the map. |
| Mappings.UnmappedComplete | check_team_mappings.py:29-33 | Completeness: every such data row contributes its pair. |
| Mappings.SortedListing | check_team_mappings.py:36-37 | The listed pairs are strictly ascending by year, then team, so none appears twice. They are exactly the unmapped pairs. |
| Mappings.AllMappedExact | check_team_mappings.py:34-39 | The all-clear line is the whole output exactly when every named data row's team is mapped. |
| Mappings.CollectRows | check_team_mappings.py:29-33 | The rows loop adds each unmapped pair of one file once. |
| Mappings.PrintPairs | check_team_mappings.py:35-37 | The heading is followed by one `year: team` line per sorted pair. |
| Mappings.CheckTeamMappings | check_team_mappings.py:15-39 | The output is the heading and the sorted unmapped pairs, or the all-clear line when there are none. |
| Sorting.SortDescCorrect | scripts/compile_league_stats.py:77 | The reverse sort by a key is non-increasing in the key and a permutation of its input. It is stable: the elements with any one key keep their order. |
| Sorting.SortPairsCorrect | check_team_mappings.py:36 | Sorting distinct pairs gives a strictly ascending permutation of them. |
| Sorting.PairLessTotal | check_team_mappings.py:36 | Tuple comparison orders any two different (year, team) pairs. |
| Sorting.PairLessTransitive | check_team_mappings.py:36 | Tuple comparison is transitive. |
| Sorting.PairLessIrreflexive | check_team_mappings.py:36 | No pair is less than itself. |
| Strings.LessTotal | check_team_mappings.py:36 | String comparison orders any two different strings. |
| Strings.LessTransitive | check_team_mappings.py:36 | String comparison is transitive. |
| Strings.LessIrreflexive | check_team_mappings.py:36 | No string is less than itself. |
| Strings.StripFacts | scripts/list_unique_teams.py:37-38 | `strip()` drops exactly the leading and trailing whitespace, and keeps the infix between them. |
| Strings.LowerFacts | scripts/list_unique_teams.py:33 | `lower()` leaves no capital ASCII letter. A capital becomes its small letter, every other character is kept, and lowering twice gives the same text as lowering once. |
| Strings.LowerCaseless | scripts/compile_league_stats.py:37-40 | Two texts lower to the same text exactly when they have the same length and differ at most in the case of ASCII letters, in both directions. The case-insensitive header and game-type tests rely on this. |
| Strings.ContainsAt | scripts/playoff_records.py:77 | `sub in s` holds exactly when `sub` occurs at some position of `s`. |
| Strings.RemoveAll | scripts/playoff_records.py:39 | Removing a pattern never lengthens the text. |
| Strings.RemoveAllTrailing | scripts/playoff_records.py:39 | A name cut short to `p...` loses exactly its trailing `...`, for every `p` that holds no `...` of its own. Single dots, as in `St. Louis Bl...`, are allowed. |
| Strings.RemoveAllAbsent | scripts/compile_league_stats.py:52 | A text without the pattern's first character is left alone. |
| Strings.Split | scripts/compile_league_stats.py:17 | `split` always gives at least one piece. |
| Strings.SplitCount | scripts/compile_league_stats.py:17 | `split` gives one more piece than there are separators. |
| Strings.SplitAbsent | scripts/compile_league_stats.py:17 | A text without the separator splits into itself alone. |
| Strings.JoinSplit | scripts/compile_league_stats.py:17 | Joining the pieces of a split gives back the text. |
| Strings.SplitJoin | scripts/compile_league_stats.py:17 | Splitting joined pieces that hold no separator gives back the pieces. |
| Strings.PadRight | scripts/list_unique_teams.py:17 | A `:<w` field starts with the value and has length max(len, w). Every added character is a space. |

## Left out

- `script.py`, which only calls an HTML library and writes files, and the `if __name__ == '__main__'` entry points.
- The directory walk (`os.listdir`, `isdir`, `isfile`, `open`). Each run takes the year files as a sequence already in sorted order of their directory names. `Playoffs` takes each season's matchup rows directly.
- JSON decoding in `load_team_user_map`. The decoded list of `{user, teams}` entries is the input, so malformed JSON and missing keys are not modelled.
- CSV reading and writing. `Season` models how `csv.DictReader` maps a row: a repeated name takes the later cell, a short row gives None, blank rows are skipped, no rows at all raises TypeError, and an empty header raises IndexError. `Playoffs` takes each matchup row as its already looked-up fields. The CSV files written by two of the scripts are their row sequences.
- Floating point:
  - The playoff points-for and points-against sums (scripts/playoff_records.py:90-91, 95-96) are not modelled. Scores are integers, used only for the winner comparison.
  - A score of `nan` is not modelled. Python's `float('nan')` converts without raising, every comparison with it is false, and so at scripts/playoff_records.py:69 the Opponent's user wins. `Playoffs.Score` only has integer numbers. `inf` is left out for the same reason.
  - `Season` sums points as exact integers. `float()` is the parameter `toNumber`, with `None` standing for a value that does not convert.
  - `round(..., 2)` and the `:.2f` formatting are not modelled.
- Season.StandingsCorrect: the sort key is the exact points-for sum rather than the value rounded to two decimals. Two sums that round to the same value keep their insertion order in the source, but the model orders them by their exact values.
- Strings.Lower: only ASCII letters are lowered. Python's full Unicode case mapping is not modelled.
- Records.ParseInt: only an optional `+` and ASCII digits are accepted, after stripping. Python's `int()` also accepts `_` separators and non-ASCII digits, and those are not modelled. A `-` sign cannot reach it, because the record was split on `-`.
- Console output (`print`, `pprint`) and the "written to" message. The printed lines of the two reporting scripts are their methods' results.
- Mappings: the Python set `unmapped` is a sequence without repeats. Only its sorted form is ever printed, so the order in which it was filled is not observed.
- The four copies of `load_team_user_map` are one model, and so are the two copies of `parse_record`. The copy of `parse_record` in `scripts/playoff_records.py` is never called there.
- Playoffs.GetUserFromTeam, Ranking, Season.OutputRows: the requirement `Valid()` only states that the argument is a well-formed dict, which every Python dict is.
