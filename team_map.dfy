/**
 * `load_team_user_map`, identical in all four scripts: the JSON list of
 * `{user, teams}` entries turned around into a team -> user dict, filled
 * entry by entry and team by team, so a later listing of a team wins.
 * JSON decoding and the file read are not modelled: the decoded list is the input.
 */
module TeamMap {
  import opened Dicts

  datatype Entry = Entry(user: string, teams: seq<string>)

  /** The dict after `team_to_user[team] = user` for each team of `teams`, in order. */
  function PutTeams(d: Dict<string>, teams: seq<string>, user: string): Dict<string> {
    if teams == [] then d else PutTeams(d, teams[..|teams| - 1], user).Put(teams[|teams| - 1], user)
  }

  lemma {:induction false} PutTeamsValid(d: Dict<string>, teams: seq<string>, user: string)
    requires d.Valid()
    ensures PutTeams(d, teams, user).Valid()
    decreases |teams|
  {
    if teams != [] {
      PutTeamsValid(d, teams[..|teams| - 1], user);
      PutValid(PutTeams(d, teams[..|teams| - 1], user), teams[|teams| - 1], user);
    }
  }

  /** The dict the nested loop builds from `entries`. */
  function Inverted(entries: seq<Entry>): (d: Dict<string>)
    ensures d.Valid()
  {
    if entries == [] then Empty()
    else
      var p := Inverted(entries[..|entries| - 1]);
      PutTeamsValid(p, entries[|entries| - 1].teams, entries[|entries| - 1].user);
      PutTeams(p, entries[|entries| - 1].teams, entries[|entries| - 1].user)
  }

  /** Some entry lists team `t`. */
  ghost predicate Listed(entries: seq<Entry>, t: string) {
    exists i :: 0 <= i < |entries| && t in entries[i].teams
  }

  /** Entry `i` is the last one that lists team `t`. */
  ghost predicate LastListing(entries: seq<Entry>, t: string, i: int) {
    0 <= i < |entries| && t in entries[i].teams &&
    forall j :: i < j < |entries| ==> t !in entries[j].teams
  }

  /** All teams of all entries, in file order, repeats included. */
  function AllTeams(entries: seq<Entry>): seq<string> {
    if entries == [] then [] else AllTeams(entries[..|entries| - 1]) + entries[|entries| - 1].teams
  }

  /** `p` followed by each element of `s` not seen before, in order. */
  function Extend(p: seq<string>, s: seq<string>): seq<string> {
    if s == [] then p
    else
      var q := Extend(p, s[..|s| - 1]);
      if s[|s| - 1] in q then q else q + [s[|s| - 1]]
  }

  /** `s` without repeats, each element at its first occurrence. */
  function FirstOccurrences(s: seq<string>): seq<string> {
    Extend([], s)
  }

  lemma {:induction false} ExtendAppend(p: seq<string>, a: seq<string>, b: seq<string>)
    ensures Extend(p, a + b) == Extend(Extend(p, a), b)
    decreases |b|
  {
    if b == [] {
      assert a + b == a;
    } else {
      assert (a + b)[..|a + b| - 1] == a + b[..|b| - 1];
      ExtendAppend(p, a, b[..|b| - 1]);
    }
  }

  lemma {:induction false} PutTeamsFacts(d: Dict<string>, teams: seq<string>, user: string, t: string)
    requires d.Valid()
    ensures PutTeams(d, teams, user).keys == Extend(d.keys, teams)
    ensures t in PutTeams(d, teams, user).vals <==> t in d.vals || t in teams
    ensures t in teams ==> PutTeams(d, teams, user).vals[t] == user
    ensures t !in teams && t in d.vals ==> PutTeams(d, teams, user).vals[t] == d.vals[t]
    decreases |teams|
  {
    if teams != [] {
      var init := teams[..|teams| - 1];
      PutTeamsValid(d, init, user);
      PutTeamsFacts(d, init, user, t);
      PutTeamsFacts(d, init, user, teams[|teams| - 1]);
      assert forall x :: x in teams <==> x in init || x == teams[|teams| - 1];
    }
  }

  /** The keys of the map are the teams in order of first listing. */
  lemma {:induction false} InvertedKeys(entries: seq<Entry>)
    ensures Inverted(entries).keys == FirstOccurrences(AllTeams(entries))
    decreases |entries|
  {
    if entries != [] {
      var init := entries[..|entries| - 1];
      var last := entries[|entries| - 1];
      InvertedKeys(init);
      PutTeamsFacts(Inverted(init), last.teams, last.user, "");
      ExtendAppend([], AllTeams(init), last.teams);
    }
  }

  /** A team has a user exactly when some entry lists it. */
  lemma {:induction false} InvertedDomain(entries: seq<Entry>, t: string)
    ensures t in Inverted(entries).vals <==> Listed(entries, t)
    decreases |entries|
  {
    if entries != [] {
      var init := entries[..|entries| - 1];
      var last := entries[|entries| - 1];
      InvertedDomain(init, t);
      PutTeamsFacts(Inverted(init), last.teams, last.user, t);
      if Listed(entries, t) && t !in last.teams {
        var i :| 0 <= i < |entries| && t in entries[i].teams;
        assert init[i] == entries[i];
      }
      if Listed(init, t) {
        var i :| 0 <= i < |init| && t in init[i].teams;
        assert entries[i] == init[i];
      }
    }
  }

  /** A team's user is the user of the last entry that lists it. */
  lemma {:induction false} InvertedLastWins(entries: seq<Entry>, t: string, i: int)
    requires LastListing(entries, t, i)
    ensures t in Inverted(entries).vals && Inverted(entries).vals[t] == entries[i].user
    decreases |entries|
  {
    var init := entries[..|entries| - 1];
    var last := entries[|entries| - 1];
    PutTeamsFacts(Inverted(init), last.teams, last.user, t);
    if i < |entries| - 1 {
      assert LastListing(init, t, i);
      InvertedLastWins(init, t, i);
    }
  }

  /** `load_team_user_map` after `json.load`. */
  method LoadTeamUserMap(entries: seq<Entry>) returns (d: Dict<string>)
    ensures d == Inverted(entries) && d.Valid()
    ensures d.keys == FirstOccurrences(AllTeams(entries))
    ensures forall t :: t in d.vals <==> Listed(entries, t)
    ensures forall t, i :: LastListing(entries, t, i) ==> t in d.vals && d.vals[t] == entries[i].user
  {
    d := Empty();
    var i := 0;
    while i < |entries|
      invariant 0 <= i <= |entries|
      invariant d == Inverted(entries[..i])
    {
      var user := entries[i].user;
      var teams := entries[i].teams;
      var j := 0;
      while j < |teams|
        invariant 0 <= j <= |teams|
        invariant d == PutTeams(Inverted(entries[..i]), teams[..j], user)
      {
        assert teams[..j + 1][..j] == teams[..j];
        d := d.Put(teams[j], user);
        j := j + 1;
      }
      assert teams[..j] == teams;
      assert entries[..i + 1][..i] == entries[..i];
      i := i + 1;
    }
    assert entries[..i] == entries;
    InvertedKeys(entries);
    forall t ensures t in d.vals <==> Listed(entries, t) {
      InvertedDomain(entries, t);
    }
    forall t, k | LastListing(entries, t, k) ensures t in d.vals && d.vals[t] == entries[k].user {
      InvertedLastWins(entries, t, k);
    }
  }
}
