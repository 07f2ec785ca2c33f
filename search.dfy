/** The search page: a free-text query matched, without regard to case,
    against team names, cities and countries and against player names,
    positions and team names. */
module Search {
  import opened Seqs
  import opened Text
  import opened Teams
  import opened Players

  datatype Results = Results(teams: seq<Team>, players: seq<Player>)

  /** `q` (already lower-cased) occurs in the team's name, city or country. */
  predicate TeamMatches(t: Team, q: string)
  {
    Contains(ToLower(t.name), q) || Contains(ToLower(t.city), q) || Contains(ToLower(t.country), q)
  }

  /** `q` occurs in the player's name or position, or in the name of the
      player's team when `ts` has that team. */
  predicate PlayerMatches(p: Player, ts: seq<Team>, q: string)
  {
    Contains(ToLower(p.name), q) || Contains(ToLower(PositionCode(p.position)), q) ||
    match TeamById(ts, p.teamId)
    case Some(t) => Contains(ToLower(t.name), q)
    case None => false
  }

  function TeamFilter(q: string): Team -> bool
  {
    (t: Team) => TeamMatches(t, q)
  }

  function PlayerFilter(ts: seq<Team>, q: string): Player -> bool
  {
    (p: Player) => PlayerMatches(p, ts, q)
  }

  /** The `searchResults` memo: nothing for a blank query; otherwise the
      teams and players matching the lower-cased, untrimmed query, in table
      order. */
  function SearchResults(ts: seq<Team>, ps: seq<Player>, query: string): (r: Results)
    ensures AllSpaces(query) ==> r.teams == [] && r.players == []
    ensures !AllSpaces(query) ==> forall t :: t in r.teams <==> t in ts && TeamMatches(t, ToLower(query))
    ensures !AllSpaces(query) ==> forall p :: p in r.players <==> p in ps && PlayerMatches(p, ts, ToLower(query))
    ensures SubseqOf(r.teams, ts) && SubseqOf(r.players, ps)
  {
    if Trim(query) == [] then
      Results([], [])
    else
      var q := ToLower(query);
      var found := Results(Filter(ts, TeamFilter(q)), Filter(ps, PlayerFilter(ts, q)));
      assert forall t :: t in found.teams <==> t in ts && TeamMatches(t, q);
      assert forall p :: p in found.players <==> p in ps && PlayerMatches(p, ts, q);
      found
  }

  /** `hasResults`: either list is non-empty. */
  function HasResults(r: Results): bool
  {
    |r.teams| > 0 || |r.players| > 0
  }

  /** A non-blank query has results exactly when some team or player matches it. */
  lemma HasResultsIff(ts: seq<Team>, ps: seq<Player>, query: string)
    ensures HasResults(SearchResults(ts, ps, query)) <==>
      !AllSpaces(query) &&
      ((exists t :: t in ts && TeamMatches(t, ToLower(query))) || (exists p :: p in ps && PlayerMatches(p, ts, ToLower(query))))
  {
    var r := SearchResults(ts, ps, query);
    if r.teams != [] { assert r.teams[0] in r.teams; }
    if r.players != [] { assert r.players[0] in r.players; }
  }

  /** The search does not depend on the case of the query. */
  lemma SearchIgnoresCase(ts: seq<Team>, ps: seq<Player>, query: string)
    ensures SearchResults(ts, ps, ToLower(query)) == SearchResults(ts, ps, query)
  {
    ToLowerIdempotent(query);
    AllSpacesToLower(query);
  }
}
