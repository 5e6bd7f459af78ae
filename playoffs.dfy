/**
 * `scripts/playoff_records.py`: for every matchup row of every season,
 * find the users behind the "Team" and "Opponent" names (tolerating names
 * truncated with "..."), decide winner and loser, and for playoff and
 * championship games bump per-user counters; then rank users by playoff wins.
 *
 * Scores are integers standing for the float values the script compares;
 * the playoff points-for and points-against sums are not modelled.
 */
module Playoffs {
  import opened Wrappers
  import opened Strings
  import opened Dicts
  import opened Sorting

  // ---------------------------------------------------------------------------
  // get_user_from_team

  /** The position of the first key that starts with `pat`, or `|keys|` when none does. */
  function MatchIndex(keys: seq<string>, pat: string): (i: nat)
    ensures i <= |keys|
    ensures forall j :: 0 <= j < i ==> !(pat <= keys[j])
    ensures i < |keys| ==> pat <= keys[i]
  {
    if keys == [] then 0 else if pat <= keys[0] then 0 else 1 + MatchIndex(keys[1..], pat)
  }

  /** What a name is compared by: the name with every "..." taken out. */
  function Untruncated(team: string): string {
    RemoveAll(team, "...")
  }

  /**
   * `get_user_from_team(team, team_to_user)` for a string `team`. (In a
   * well-formed dict every key has a value, so the second test always holds.)
   */
  function UserOfTeam(team: string, d: Dict<string>): Option<string> {
    var i := MatchIndex(d.keys, Untruncated(team));
    if i < |d.keys| && d.keys[i] in d.vals then Some(d.vals[d.keys[i]]) else None
  }

  /**
   * `get_user_from_team` on a CSV field: a missing field (None) is only
   * touched inside the loop, so it fails with AttributeError unless the map is empty.
   */
  function Lookup(team: Option<string>, d: Dict<string>): Result<Option<string>> {
    match team
    case None => if d.keys == [] then Ok(None) else Err(AttributeError)
    case Some(t) => Ok(UserOfTeam(t, d))
  }

  /** Key `i` is the first, in insertion order, that starts with `pat`. */
  ghost predicate FirstMatchAt(keys: seq<string>, pat: string, i: int) {
    0 <= i < |keys| && pat <= keys[i] && forall j :: 0 <= j < i ==> !(pat <= keys[j])
  }

  /** The search loop of `get_user_from_team`, with its early return. */
  method GetUserFromTeam(team: Option<string>, d: Dict<string>) returns (r: Result<Option<string>>)
    requires d.Valid()
    ensures r == Lookup(team, d)
    ensures team.None? ==> (r.Err? <==> d.keys != [])
    ensures team.Some? ==> r.Ok?
    ensures team.Some? && r.Ok? ==>
      (r.value.None? <==> forall j :: 0 <= j < |d.keys| ==> !(Untruncated(team.value) <= d.keys[j]))
    ensures team.Some? && r.Ok? && r.value.Some? ==>
      exists i :: FirstMatchAt(d.keys, Untruncated(team.value), i) && r.value.value == d.vals[d.keys[i]]
  {
    var i := 0;
    while i < |d.keys|
      invariant 0 <= i <= |d.keys|
      invariant team.None? ==> i == 0
      invariant team.Some? ==> forall j :: 0 <= j < i ==> !(Untruncated(team.value) <= d.keys[j])
    {
      if team.None? {
        return Err(AttributeError);
      }
      var key := d.keys[i];
      if Untruncated(team.value) <= key {
        assert MatchIndex(d.keys, Untruncated(team.value)) == i;
        assert FirstMatchAt(d.keys, Untruncated(team.value), i);
        return Ok(Some(d.vals[key]));
      }
      i := i + 1;
    }
    return Ok(None);
  }

  /** An empty name, or one that is only "...", stands for the first key's user. */
  lemma EmptyNameMatchesFirst(team: string, d: Dict<string>)
    requires d.Valid() && d.keys != []
    requires team == "" || team == "..."
    ensures UserOfTeam(team, d) == Some(d.vals[d.keys[0]])
  {
    assert Untruncated("...") == "";
  }

  /**
   * A name cut short and marked with "..." still finds a user whenever a
   * key starts with the part that was kept (a part that may hold single
   * dots, as "St. Louis Bl" does, but no "..."): the user of the first such key.
   */
  lemma TruncatedNameFound(kept: string, d: Dict<string>, k: string)
    requires d.Valid() && k in d.vals && kept <= k && !Contains(kept, "...")
    ensures UserOfTeam(kept + "...", d).Some?
    ensures exists i :: FirstMatchAt(d.keys, kept, i) && UserOfTeam(kept + "...", d) == Some(d.vals[d.keys[i]])
  {
    RemoveAllTrailing(kept);
    var i := MatchIndex(d.keys, kept);
    var m :| 0 <= m < |d.keys| && d.keys[m] == k;
    assert i <= m;
    assert FirstMatchAt(d.keys, kept, i);
  }

  // ---------------------------------------------------------------------------
  // One matchup row

  /** A score cell after `float(...)`: no value (TypeError), not a number (ValueError), or a number. */
  datatype Score = NoValue | NotANumber | Number(points: int)

  function ToFloat(s: Score): Result<int> {
    match s
    case NoValue => Err(TypeError)
    case NotANumber => Err(ValueError)
    case Number(p) => Ok(p)
  }

  /**
   * A row of `matchups.csv`. `teamScore` is the `Score_2` column (the Team's
   * score), `opponentScore` the `Score` column. A field the row lacks is None;
   * a file without a `Game_Type` column has `gameType == Some("")`.
   */
  datatype Matchup = Matchup(
    team: Option<string>, opponent: Option<string>,
    teamScore: Score, opponentScore: Score,
    gameType: Option<string>)

  /** A counted game: who won, who lost, and whether it was a championship game. */
  datatype Outcome = Outcome(winner: string, loser: string, championship: bool)

  function Winner(u1: string, u2: string, s1: int, s2: int): (string, string) {
    if s1 >= s2 then (u1, u2) else (u2, u1)
  }

  /**
   * What one row contributes: `Err` when the script would raise, `None`
   * when the row is skipped, otherwise the counted game.
   */
  function ResolveGame(g: Matchup, d: Dict<string>): Result<Option<Outcome>> {
    var s1 :- ToFloat(g.teamScore);
    var s2 :- ToFloat(g.opponentScore);
    var user1 :- Lookup(g.team, d);
    var user2 :- Lookup(g.opponent, d);
    if user1.None? || user2.None? then Ok(None)
    else
      var (winner, loser) := Winner(user1.value, user2.value, s1, s2);
      match g.gameType
      case None => Err(AttributeError)
      case Some(gameType) =>
        var kind := Lower(gameType);
        if Contains(kind, "playoff") || Contains(kind, "championship") then
          Ok(Some(Outcome(winner, loser, Contains(kind, "championship"))))
        else Ok(None)
  }

  /**
   * A row is counted exactly when both scores are numbers, both names have a
   * user and the game type mentions "playoff" or "championship"; the higher
   * `Score_2` (a tie included) makes the Team's user the winner, and the game
   * is a championship exactly when its type mentions "championship". A row
   * whose scores convert is skipped when both lookups succeed and either finds
   * no user, whatever its game type.
   */
  lemma ResolveGameCounted(g: Matchup, d: Dict<string>)
    ensures var r := ResolveGame(g, d);
      r.Ok? && r.value.Some? ==>
      var o := r.value.value;
      && ToFloat(g.teamScore).Ok? && ToFloat(g.opponentScore).Ok?
      && Lookup(g.team, d).Ok? && Lookup(g.opponent, d).Ok?
      && Lookup(g.team, d).value.Some? && Lookup(g.opponent, d).value.Some?
      && g.gameType.Some?
      && (Contains(Lower(g.gameType.value), "playoff") || Contains(Lower(g.gameType.value), "championship"))
      && o.championship == Contains(Lower(g.gameType.value), "championship")
      && (ToFloat(g.teamScore).value >= ToFloat(g.opponentScore).value ==>
            o.winner == Lookup(g.team, d).value.value && o.loser == Lookup(g.opponent, d).value.value)
      && (ToFloat(g.teamScore).value < ToFloat(g.opponentScore).value ==>
            o.winner == Lookup(g.opponent, d).value.value && o.loser == Lookup(g.team, d).value.value)
    ensures
      && ToFloat(g.teamScore).Ok? && ToFloat(g.opponentScore).Ok?
      && Lookup(g.team, d).Ok? && Lookup(g.opponent, d).Ok?
      && Lookup(g.team, d).value.Some? && Lookup(g.opponent, d).value.Some?
      && g.gameType.Some?
      && (Contains(Lower(g.gameType.value), "playoff") || Contains(Lower(g.gameType.value), "championship"))
      ==> ResolveGame(g, d).Ok? && ResolveGame(g, d).value.Some?
    ensures var r := ResolveGame(g, d);
      r.Ok? ==> Lookup(g.team, d).Ok? && Lookup(g.opponent, d).Ok?
    ensures
      && ToFloat(g.teamScore).Ok? && ToFloat(g.opponentScore).Ok?
      && Lookup(g.team, d).Ok? && Lookup(g.opponent, d).Ok?
      && (Lookup(g.team, d).value.None? || Lookup(g.opponent, d).value.None?)
      ==> ResolveGame(g, d) == Ok(None)
    ensures var r := ResolveGame(g, d);
      r.Ok? && (Lookup(g.team, d).value.None? || Lookup(g.opponent, d).value.None?) ==> r.value.None?
  {
  }

  /**
   * The exceptions one row can raise, in the order the script meets them:
   * `float` of a missing score (TypeError) or of a non-number (ValueError), the
   * Team's score first; a missing name looked up in a non-empty map
   * (AttributeError); a missing `Game_Type` once both users are found
   * (AttributeError). Nothing else fails.
   */
  lemma ResolveGameFails(g: Matchup, d: Dict<string>)
    ensures g.teamScore.NoValue? ==> ResolveGame(g, d) == Err(TypeError)
    ensures g.teamScore.NotANumber? ==> ResolveGame(g, d) == Err(ValueError)
    ensures g.teamScore.Number? && g.opponentScore.NoValue? ==> ResolveGame(g, d) == Err(TypeError)
    ensures g.teamScore.Number? && g.opponentScore.NotANumber? ==> ResolveGame(g, d) == Err(ValueError)
    ensures g.teamScore.Number? && g.opponentScore.Number? && g.team.None? && d.keys != [] ==>
      ResolveGame(g, d) == Err(AttributeError)
    ensures (g.teamScore.Number? && g.opponentScore.Number? && Lookup(g.team, d).Ok? &&
             g.opponent.None? && d.keys != []) ==>
      ResolveGame(g, d) == Err(AttributeError)
    ensures (g.teamScore.Number? && g.opponentScore.Number? &&
             Lookup(g.team, d).Ok? && Lookup(g.opponent, d).Ok? &&
             Lookup(g.team, d).value.Some? && Lookup(g.opponent, d).value.Some? && g.gameType.None?) ==>
      ResolveGame(g, d) == Err(AttributeError)
    ensures ResolveGame(g, d).Err? ==>
      || !g.teamScore.Number? || !g.opponentScore.Number?
      || Lookup(g.team, d).Err? || Lookup(g.opponent, d).Err?
      || g.gameType.None?
  {
  }

  // ---------------------------------------------------------------------------
  // The counted games of all seasons

  function GameOutcomes(games: seq<Matchup>, d: Dict<string>): Result<seq<Outcome>> {
    if games == [] then Ok([])
    else
      var prev :- GameOutcomes(games[..|games| - 1], d);
      var o :- ResolveGame(games[|games| - 1], d);
      Ok(prev + Counted(o))
  }

  /** The games a row adds: its game if it was counted, none if it was skipped. */
  function Counted(o: Option<Outcome>): seq<Outcome> {
    if o.Some? then [o.value] else []
  }

  /** The counted games of the seasons in order; the first failing row fails the run. */
  function SeasonOutcomes(seasons: seq<seq<Matchup>>, d: Dict<string>): Result<seq<Outcome>> {
    if seasons == [] then Ok([])
    else
      var prev :- SeasonOutcomes(seasons[..|seasons| - 1], d);
      var cur :- GameOutcomes(seasons[|seasons| - 1], d);
      Ok(prev + cur)
  }

  lemma {:induction false} GameOutcomesFailFast(games: seq<Matchup>, d: Dict<string>, n: nat)
    requires n <= |games| && GameOutcomes(games[..n], d).Err?
    ensures GameOutcomes(games, d) == GameOutcomes(games[..n], d)
    decreases |games| - n
  {
    if n < |games| {
      assert games[..n + 1][..n] == games[..n];
      GameOutcomesFailFast(games, d, n + 1);
    } else {
      assert games[..n] == games;
    }
  }

  lemma {:induction false} SeasonOutcomesFailFast(seasons: seq<seq<Matchup>>, d: Dict<string>, n: nat)
    requires n <= |seasons| && SeasonOutcomes(seasons[..n], d).Err?
    ensures SeasonOutcomes(seasons, d) == SeasonOutcomes(seasons[..n], d)
    decreases |seasons| - n
  {
    if n < |seasons| {
      assert seasons[..n + 1][..n] == seasons[..n];
      SeasonOutcomesFailFast(seasons, d, n + 1);
    } else {
      assert seasons[..n] == seasons;
    }
  }

  // ---------------------------------------------------------------------------
  // The per-user counters

  datatype PlayoffRecord = PlayoffRecord(wins: nat, losses: nat, championships: nat, appearances: nat)

  const Zero := PlayoffRecord(0, 0, 0, 0)

  function Wins(p: PlayoffRecord): int { p.wins }
  function Losses(p: PlayoffRecord): int { p.losses }
  function Championships(p: PlayoffRecord): int { p.championships }
  function Appearances(p: PlayoffRecord): int { p.appearances }

  /** `if user not in user_stats: user_stats[user] = {... all 0 ...}`. */
  function Enter(stats: Dict<PlayoffRecord>, user: string): (r: Dict<PlayoffRecord>)
    ensures user in r.vals
  {
    if user in stats.vals then stats else stats.Put(user, Zero)
  }

  /** `user_stats[user][field] += n` for the four counters, on a user already present. */
  function Bump(stats: Dict<PlayoffRecord>, user: string, w: nat, l: nat, c: nat, a: nat): (r: Dict<PlayoffRecord>)
    requires user in stats.vals
    ensures user in r.vals
  {
    var p := stats.vals[user];
    stats.Put(user, PlayoffRecord(p.wins + w, p.losses + l, p.championships + c, p.appearances + a))
  }

  /** Lines 78-87: both players present, counters at 0 for a newcomer. */
  function Seat(stats: Dict<PlayoffRecord>, o: Outcome): (r: Dict<PlayoffRecord>)
    ensures o.winner in r.vals && o.loser in r.vals
  {
    Enter(Enter(stats, o.winner), o.loser)
  }

  /** Lines 89-94: a playoff win for the winner, a playoff loss for the loser. */
  function Decide(s: Dict<PlayoffRecord>, o: Outcome): (r: Dict<PlayoffRecord>)
    requires o.winner in s.vals && o.loser in s.vals
    ensures o.winner in r.vals && o.loser in r.vals
  {
    Bump(Bump(s, o.winner, 1, 0, 0, 0), o.loser, 0, 1, 0, 0)
  }

  /** Lines 98-101: a championship and an appearance for the winner, an appearance for the loser. */
  function Crown(s: Dict<PlayoffRecord>, o: Outcome): Dict<PlayoffRecord>
    requires o.winner in s.vals && o.loser in s.vals
  {
    if !o.championship then s else Bump(Bump(s, o.winner, 0, 0, 1, 1), o.loser, 0, 0, 0, 1)
  }

  /** The counters after one counted game. */
  function AddGame(stats: Dict<PlayoffRecord>, o: Outcome): Dict<PlayoffRecord> {
    Crown(Decide(Seat(stats, o), o), o)
  }

  /** The counters after the counted games `outs`, starting from none. */
  function Tally(outs: seq<Outcome>): Dict<PlayoffRecord> {
    if outs == [] then Empty() else AddGame(Tally(outs[..|outs| - 1]), outs[|outs| - 1])
  }

  function PlayoffStats(seasons: seq<seq<Matchup>>, d: Dict<string>): Result<Dict<PlayoffRecord>> {
    var outs :- SeasonOutcomes(seasons, d);
    Ok(Tally(outs))
  }

  // How many of the games `outs` the user won, lost, won as a championship, played as a championship.

  function GamesWon(outs: seq<Outcome>, u: string): nat {
    if outs == [] then 0 else GamesWon(outs[..|outs| - 1], u) + if outs[|outs| - 1].winner == u then 1 else 0
  }

  function GamesLost(outs: seq<Outcome>, u: string): nat {
    if outs == [] then 0 else GamesLost(outs[..|outs| - 1], u) + if outs[|outs| - 1].loser == u then 1 else 0
  }

  function TitlesWon(outs: seq<Outcome>, u: string): nat {
    if outs == [] then 0
    else TitlesWon(outs[..|outs| - 1], u) + if outs[|outs| - 1].championship && outs[|outs| - 1].winner == u then 1 else 0
  }

  /** Championship games played, a game against oneself counting for both sides. */
  function TitleGames(outs: seq<Outcome>, u: string): nat {
    if outs == [] then 0
    else
      var o := outs[|outs| - 1];
      TitleGames(outs[..|outs| - 1], u)
        + (if o.championship && o.winner == u then 1 else 0)
        + (if o.championship && o.loser == u then 1 else 0)
  }

  /** The number of championship games among `outs`. */
  function Finals(outs: seq<Outcome>): nat {
    if outs == [] then 0 else Finals(outs[..|outs| - 1]) + if outs[|outs| - 1].championship then 1 else 0
  }

  /** The user played in one of the games `outs`. */
  ghost predicate Played(outs: seq<Outcome>, u: string) {
    exists i :: 0 <= i < |outs| && (outs[i].winner == u || outs[i].loser == u)
  }

  lemma EnterAt(stats: Dict<PlayoffRecord>, user: string, u: string)
    ensures u in Enter(stats, user).vals <==> u in stats.vals || u == user
    ensures u in Enter(stats, user).vals ==>
      Enter(stats, user).vals[u] == if u in stats.vals then stats.vals[u] else Zero
  {
  }

  lemma BumpAt(stats: Dict<PlayoffRecord>, user: string, w: nat, l: nat, c: nat, a: nat, u: string)
    requires user in stats.vals
    ensures u in Bump(stats, user, w, l, c, a).vals <==> u in stats.vals
    ensures u in stats.vals ==>
      Bump(stats, user, w, l, c, a).vals[u] == if u == user then Plus(stats.vals[u], w, l, c, a) else stats.vals[u]
  {
  }

  function Plus(p: PlayoffRecord, w: nat, l: nat, c: nat, a: nat): PlayoffRecord {
    PlayoffRecord(p.wins + w, p.losses + l, p.championships + c, p.appearances + a)
  }

  function B(b: bool): nat { if b then 1 else 0 }

  lemma SeatAt(stats: Dict<PlayoffRecord>, o: Outcome, u: string)
    ensures u in Seat(stats, o).vals <==> u in stats.vals || u == o.winner || u == o.loser
    ensures u in Seat(stats, o).vals ==> Seat(stats, o).vals[u] == if u in stats.vals then stats.vals[u] else Zero
  {
    EnterAt(stats, o.winner, u);
    EnterAt(Enter(stats, o.winner), o.loser, u);
  }

  lemma DecideAt(s: Dict<PlayoffRecord>, o: Outcome, u: string)
    requires o.winner in s.vals && o.loser in s.vals
    ensures u in Decide(s, o).vals <==> u in s.vals
    ensures u in s.vals ==> Decide(s, o).vals[u] == Plus(s.vals[u], B(o.winner == u), B(o.loser == u), 0, 0)
  {
    BumpAt(s, o.winner, 1, 0, 0, 0, u);
    BumpAt(Bump(s, o.winner, 1, 0, 0, 0), o.loser, 0, 1, 0, 0, u);
  }

  lemma CrownAt(s: Dict<PlayoffRecord>, o: Outcome, u: string)
    requires o.winner in s.vals && o.loser in s.vals
    ensures u in Crown(s, o).vals <==> u in s.vals
    ensures u in s.vals ==>
      Crown(s, o).vals[u] == Plus(s.vals[u], 0, 0, B(o.championship && o.winner == u),
        B(o.championship && o.winner == u) + B(o.championship && o.loser == u))
  {
    if o.championship {
      BumpAt(s, o.winner, 0, 0, 1, 1, u);
      BumpAt(Bump(s, o.winner, 0, 0, 1, 1), o.loser, 0, 0, 0, 1, u);
    }
  }

  /** What one counted game does to one user's counters. */
  lemma AddGameAt(stats: Dict<PlayoffRecord>, o: Outcome, u: string)
    ensures u in AddGame(stats, o).vals <==> u in stats.vals || u == o.winner || u == o.loser
    ensures u in AddGame(stats, o).vals ==>
      AddGame(stats, o).vals[u] == Plus(if u in stats.vals then stats.vals[u] else Zero,
        B(o.winner == u), B(o.loser == u), B(o.championship && o.winner == u),
        B(o.championship && o.winner == u) + B(o.championship && o.loser == u))
  {
    var s0 := Seat(stats, o);
    SeatAt(stats, o, u);
    DecideAt(s0, o, u);
    CrownAt(Decide(s0, o), o, u);
  }

  lemma AddGameDomain(stats: Dict<PlayoffRecord>, o: Outcome, u: string)
    ensures u in AddGame(stats, o).vals <==> u in stats.vals || u == o.winner || u == o.loser
  {
    AddGameAt(stats, o, u);
  }

  /** A user has counters exactly when they played one of the counted games. */
  lemma {:induction false} TallyDomain(outs: seq<Outcome>, u: string)
    ensures u in Tally(outs).vals <==> Played(outs, u)
    decreases |outs|
  {
    if outs != [] {
      var init := outs[..|outs| - 1];
      var o := outs[|outs| - 1];
      TallyDomain(init, u);
      AddGameDomain(Tally(init), o, u);
      if Played(outs, u) && u != o.winner && u != o.loser {
        var i :| 0 <= i < |outs| && (outs[i].winner == u || outs[i].loser == u);
        assert init[i] == outs[i];
      }
      if Played(init, u) {
        var i :| 0 <= i < |init| && (init[i].winner == u || init[i].loser == u);
        assert outs[i] == init[i];
      }
    }
  }

  /**
   * Each user's counters count exactly that user's counted games: wins,
   * losses, championships and championship appearances are the numbers of
   * games won, lost, title games won and title games played.
   */
  lemma {:induction false} TallyCounts(outs: seq<Outcome>, u: string)
    ensures u in Tally(outs).vals ==>
      Tally(outs).vals[u] == PlayoffRecord(GamesWon(outs, u), GamesLost(outs, u), TitlesWon(outs, u), TitleGames(outs, u))
    decreases |outs|
  {
    if outs != [] {
      var init := outs[..|outs| - 1];
      AddGameAt(Tally(init), outs[|outs| - 1], u);
      TallyCounts(init, u);
      if u !in Tally(init).vals {
        TallyDomain(init, u);
        NotPlayedCounts(init, u);
      }
    }
  }

  lemma {:induction false} NotPlayedCounts(outs: seq<Outcome>, u: string)
    requires !Played(outs, u)
    ensures GamesWon(outs, u) == 0 && GamesLost(outs, u) == 0
    ensures TitlesWon(outs, u) == 0 && TitleGames(outs, u) == 0
    decreases |outs|
  {
    if outs != [] {
      var init := outs[..|outs| - 1];
      assert !Played(init, u);
      NotPlayedCounts(init, u);
      assert !(outs[|outs| - 1].winner == u || outs[|outs| - 1].loser == u);
    }
  }

  /** No user has more championships than championship appearances. */
  lemma TitlesAtMostTitleGames(outs: seq<Outcome>, u: string)
    requires u in Tally(outs).vals
    ensures Tally(outs).vals[u].championships <= Tally(outs).vals[u].appearances
  {
    TallyCounts(outs, u);
    TitlesBound(outs, u);
  }

  lemma {:induction false} TitlesBound(outs: seq<Outcome>, u: string)
    ensures TitlesWon(outs, u) <= TitleGames(outs, u)
    decreases |outs|
  {
    if outs != [] { TitlesBound(outs[..|outs| - 1], u); }
  }

  /** One `user_stats[user][field] += ...` moves each column total by the change to that user. */
  lemma PutMoves(d: Dict<PlayoffRecord>, k: string, v: PlayoffRecord)
    requires d.Valid()
    ensures d.Put(k, v).Valid()
    ensures var old_ := if k in d.vals then d.vals[k] else Zero;
      && Total(d.Put(k, v), Wins) == Total(d, Wins) - old_.wins + v.wins
      && Total(d.Put(k, v), Losses) == Total(d, Losses) - old_.losses + v.losses
      && Total(d.Put(k, v), Championships) == Total(d, Championships) - old_.championships + v.championships
      && Total(d.Put(k, v), Appearances) == Total(d, Appearances) - old_.appearances + v.appearances
  {
    TotalPut(d, k, v, Wins);
    TotalPut(d, k, v, Losses);
    TotalPut(d, k, v, Championships);
    TotalPut(d, k, v, Appearances);
  }

  lemma EnterMoves(d: Dict<PlayoffRecord>, u: string)
    requires d.Valid()
    ensures Enter(d, u).Valid()
    ensures var e := Enter(d, u);
      && Total(e, Wins) == Total(d, Wins) && Total(e, Losses) == Total(d, Losses)
      && Total(e, Championships) == Total(d, Championships) && Total(e, Appearances) == Total(d, Appearances)
  {
    if u !in d.vals { PutMoves(d, u, Zero); } else { assert Enter(d, u) == d; }
  }

  lemma BumpMoves(d: Dict<PlayoffRecord>, u: string, w: nat, l: nat, c: nat, a: nat)
    requires d.Valid() && u in d.vals
    ensures Bump(d, u, w, l, c, a).Valid()
    ensures var e := Bump(d, u, w, l, c, a);
      && Total(e, Wins) == Total(d, Wins) + w && Total(e, Losses) == Total(d, Losses) + l
      && Total(e, Championships) == Total(d, Championships) + c
      && Total(e, Appearances) == Total(d, Appearances) + a
  {
    PutMoves(d, u, Plus(d.vals[u], w, l, c, a));
  }

  /** One counted game: one more win, one more loss, and for a title game one championship and two appearances. */
  lemma AddGameMoves(stats: Dict<PlayoffRecord>, o: Outcome)
    requires stats.Valid()
    ensures AddGame(stats, o).Valid()
    ensures var r := AddGame(stats, o);
      && Total(r, Wins) == Total(stats, Wins) + 1
      && Total(r, Losses) == Total(stats, Losses) + 1
      && Total(r, Championships) == Total(stats, Championships) + B(o.championship)
      && Total(r, Appearances) == Total(stats, Appearances) + 2 * B(o.championship)
  {
    EnterMoves(stats, o.winner);
    EnterMoves(Enter(stats, o.winner), o.loser);
    var s0 := Seat(stats, o);
    BumpMoves(s0, o.winner, 1, 0, 0, 0);
    BumpMoves(Bump(s0, o.winner, 1, 0, 0, 0), o.loser, 0, 1, 0, 0);
    var s2 := Decide(s0, o);
    if o.championship {
      BumpMoves(s2, o.winner, 0, 0, 1, 1);
      BumpMoves(Bump(s2, o.winner, 0, 0, 1, 1), o.loser, 0, 0, 0, 1);
    }
  }

  /**
   * Count conservation: over all users, playoff wins and playoff losses both
   * add up to the number of counted games, and appearances to twice the championships.
   */
  lemma {:induction false} TallyTotals(outs: seq<Outcome>)
    ensures Tally(outs).Valid()
    ensures Total(Tally(outs), Wins) == |outs|
    ensures Total(Tally(outs), Losses) == |outs|
    ensures Total(Tally(outs), Championships) == Finals(outs)
    ensures Total(Tally(outs), Appearances) == 2 * Finals(outs)
    decreases |outs|
  {
    if outs != [] {
      TallyTotals(outs[..|outs| - 1]);
      AddGameMoves(Tally(outs[..|outs| - 1]), outs[|outs| - 1]);
    }
  }

  // ---------------------------------------------------------------------------
  // compile_league_stats

  /**
   * The body of the row loop of `compile_league_stats` for one row: the
   * counters after it, or the exception it raises.
   */
  method CountRow(stats: Dict<PlayoffRecord>, g: Matchup, d: Dict<string>) returns (r: Result<Dict<PlayoffRecord>>)
    requires d.Valid()
    ensures ResolveGame(g, d).Err? ==> r == Err(ResolveGame(g, d).error)
    ensures ResolveGame(g, d) == Ok(None) ==> r == Ok(stats)
    ensures ResolveGame(g, d).Ok? && ResolveGame(g, d).value.Some? ==> r == Ok(AddGame(stats, ResolveGame(g, d).value.value))
  {
    var score1 := ToFloat(g.teamScore);
    if score1.Err? { return Err(score1.error); }
    var score2 := ToFloat(g.opponentScore);
    if score2.Err? { return Err(score2.error); }
    var user1 := GetUserFromTeam(g.team, d);
    if user1.Err? { return Err(user1.error); }
    var user2 := GetUserFromTeam(g.opponent, d);
    if user2.Err? { return Err(user2.error); }
    if user1.value.None? || user2.value.None? {
      return Ok(stats);
    }
    var winner, loser;
    if score1.value >= score2.value {
      winner, loser := user1.value.value, user2.value.value;
    } else {
      winner, loser := user2.value.value, user1.value.value;
    }
    if g.gameType.None? {
      return Err(AttributeError);
    }
    var gameType := Lower(g.gameType.value);
    if !(Contains(gameType, "playoff") || Contains(gameType, "championship")) {
      return Ok(stats);
    }
    var o := Outcome(winner, loser, Contains(gameType, "championship"));
    assert ResolveGame(g, d) == Ok(Some(o));
    var s := CountGame(stats, o);
    return Ok(s);
  }

  /** The counter updates of lines 78-101 for one counted game. */
  method CountGame(stats: Dict<PlayoffRecord>, o: Outcome) returns (s: Dict<PlayoffRecord>)
    ensures s == AddGame(stats, o)
  {
    s := stats;
    if o.winner !in s.vals {
      s := s.Put(o.winner, Zero);
    }
    if o.loser !in s.vals {
      s := s.Put(o.loser, Zero);
    }
    assert s == Seat(stats, o);
    s := Bump(s, o.winner, 1, 0, 0, 0);
    s := Bump(s, o.loser, 0, 1, 0, 0);
    assert s == Decide(Seat(stats, o), o);
    if o.championship {
      s := Bump(s, o.winner, 0, 0, 1, 1);
      s := Bump(s, o.loser, 0, 0, 0, 1);
    }
  }

  /**
   * One season's rows, counted onto `stats` (the counters of the games
   * `done`): the counters after the season, or the exception one of its rows raises.
   */
  method CountSeason(stats: Dict<PlayoffRecord>, games: seq<Matchup>, d: Dict<string>, ghost done: seq<Outcome>)
    returns (r: Result<Dict<PlayoffRecord>>)
    requires d.Valid() && stats == Tally(done)
    ensures GameOutcomes(games, d).Err? ==> r == Err(GameOutcomes(games, d).error)
    ensures GameOutcomes(games, d).Ok? ==> r == Ok(Tally(done + GameOutcomes(games, d).value))
  {
    var s := stats;
    ghost var cur: seq<Outcome> := [];
    assert done + cur == done;
    var j := 0;
    while j < |games|
      invariant 0 <= j <= |games|
      invariant GameOutcomes(games[..j], d) == Ok(cur)
      invariant s == Tally(done + cur)
    {
      assert games[..j + 1][..j] == games[..j];
      var next := CountRow(s, games[j], d);
      if next.Err? {
        GameOutcomesFailFast(games, d, j + 1);
        return next;
      }
      RowStep(games, d, j, cur);
      TallyStep(done, cur, ResolveGame(games[j], d).value);
      cur := cur + Counted(ResolveGame(games[j], d).value);
      s := next.value;
      j := j + 1;
    }
    assert games[..j] == games;
    return Ok(s);
  }

  /** One more row that does not raise extends the list of counted games by its game, if it has one. */
  lemma RowStep(games: seq<Matchup>, d: Dict<string>, j: nat, cur: seq<Outcome>)
    requires j < |games| && GameOutcomes(games[..j], d) == Ok(cur) && ResolveGame(games[j], d).Ok?
    ensures GameOutcomes(games[..j + 1], d) == Ok(cur + Counted(ResolveGame(games[j], d).value))
  {
    assert games[..j + 1][..j] == games[..j];
    assert games[..j + 1][|games[..j + 1]| - 1] == games[j];
  }

  /** Counting one more game is one more `AddGame`; a skipped row leaves the counters alone. */
  lemma TallyStep(done: seq<Outcome>, cur: seq<Outcome>, o: Option<Outcome>)
    ensures Tally(done + (cur + Counted(o))) == if o.Some? then AddGame(Tally(done + cur), o.value) else Tally(done + cur)
  {
    if o.Some? {
      var all := done + (cur + [o.value]);
      assert all[..|all| - 1] == done + cur;
    } else {
      assert cur + [] == cur;
    }
  }

  /**
   * `compile_league_stats` over the seasons' matchup rows: the counters of
   * every user who played a counted game, or the exception that ends the run.
   */
  method CompileLeagueStats(seasons: seq<seq<Matchup>>, d: Dict<string>) returns (r: Result<Dict<PlayoffRecord>>)
    requires d.Valid()
    ensures r == PlayoffStats(seasons, d)
    ensures r.Ok? ==> r.value.Valid()
    ensures r.Ok? ==>
      var outs := SeasonOutcomes(seasons, d).value;
      && Total(r.value, Wins) == |outs| && Total(r.value, Losses) == |outs|
      && Total(r.value, Appearances) == 2 * Total(r.value, Championships)
      && (forall u :: u in r.value.vals <==> Played(outs, u))
      && (forall u :: u in r.value.vals ==> r.value.vals[u].championships <= r.value.vals[u].appearances)
  {
    var stats: Dict<PlayoffRecord> := Empty();
    ghost var done: seq<Outcome> := [];
    var i := 0;
    while i < |seasons|
      invariant 0 <= i <= |seasons|
      invariant SeasonOutcomes(seasons[..i], d) == Ok(done)
      invariant stats == Tally(done)
    {
      assert seasons[..i + 1][..i] == seasons[..i];
      var next := CountSeason(stats, seasons[i], d, done);
      if next.Err? {
        SeasonOutcomesFailFast(seasons, d, i + 1);
        return next;
      }
      done := done + GameOutcomes(seasons[i], d).value;
      stats := next.value;
      i := i + 1;
    }
    assert seasons[..i] == seasons;
    r := Ok(stats);
    TallyTotals(done);
    forall u ensures u in stats.vals <==> Played(done, u) {
      TallyDomain(done, u);
    }
    forall u | u in stats.vals ensures stats.vals[u].championships <= stats.vals[u].appearances {
      TitlesAtMostTitleGames(done, u);
    }
  }

  /** A row that raises ends the whole run with its exception. */
  lemma FailFast(seasons: seq<seq<Matchup>>, d: Dict<string>, i: nat, j: nat)
    requires i < |seasons| && j < |seasons[i]|
    requires SeasonOutcomes(seasons[..i], d).Ok? && GameOutcomes(seasons[i][..j], d).Ok?
    requires ResolveGame(seasons[i][j], d).Err?
    ensures PlayoffStats(seasons, d) == Err(ResolveGame(seasons[i][j], d).error)
  {
    var games := seasons[i];
    assert games[..j + 1][..j] == games[..j];
    GameOutcomesFailFast(games, d, j + 1);
    assert seasons[..i + 1][..i] == seasons[..i];
    SeasonOutcomesFailFast(seasons, d, i + 1);
  }

  // ---------------------------------------------------------------------------
  // sorted(stats.items(), key=playoff_wins, reverse=True)

  function WinsKey(item: (string, PlayoffRecord)): int { item.1.wins }

  /** The ranking written to `playoff_stats.csv`. */
  function Ranking(stats: Dict<PlayoffRecord>): seq<(string, PlayoffRecord)>
    requires stats.Valid()
  {
    SortDesc(Items(stats.keys, stats.vals), WinsKey)
  }

  /**
   * The ranking lists every user once with their counters, by playoff wins
   * from most to fewest, users with equal wins in the order they entered the stats.
   */
  lemma RankingCorrect(stats: Dict<PlayoffRecord>)
    requires stats.Valid()
    ensures NonIncreasing(Ranking(stats), WinsKey)
    ensures multiset(Ranking(stats)) == multiset(Items(stats.keys, stats.vals))
    ensures forall k :: WithKey(Ranking(stats), WinsKey, k) == WithKey(Items(stats.keys, stats.vals), WinsKey, k)
  {
    SortDescCorrect(Items(stats.keys, stats.vals), WinsKey);
  }
}
