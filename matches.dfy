/** The fixture list: the seeded matches, lookup by id, and the recent-results
    and upcoming-fixtures queries. A date "YYYY-MM-DD" is kept as the number
    YYYYMMDD, which orders dates exactly as their timestamps do. */
module Matches {
  import opened Seqs
  import opened Sorting
  import Teams

  datatype Status = Scheduled | Live | Finished

  /** A fixture; a score is `None` (the source's `null`) until it is known. */
  datatype Match = Match(id: string, homeTeamId: string, awayTeamId: string,
                         homeScore: Option<nat>, awayScore: Option<nat>,
                         date: int, time: string, venue: string, status: Status)

  const Match1 := Match("match-1", "lagos-lions", "cairo-pharaohs", Some(98), Some(92), 20251001, "19:00", "Teslim Balogun Stadium", Finished)
  const Match2 := Match("match-2", "johannesburg-thunder", "nairobi-warriors", Some(105), Some(101), 20251001, "20:00", "Ellis Park Arena", Finished)
  const Match3 := Match("match-3", "accra-storm", "casablanca-eagles", Some(88), Some(95), 20251002, "18:30", "Accra Sports Stadium", Finished)
  const Match4 := Match("match-4", "dakar-panthers", "addis-kings", Some(76), Some(82), 20251002, "19:30", "Dakar Arena", Finished)
  const Match5 := Match("match-5", "cairo-pharaohs", "johannesburg-thunder", None, None, 20251005, "20:00", "Cairo Stadium", Scheduled)
  const Match6 := Match("match-6", "nairobi-warriors", "lagos-lions", None, None, 20251005, "19:00", "Nyayo National Stadium", Scheduled)
  const Match7 := Match("match-7", "casablanca-eagles", "dakar-panthers", None, None, 20251006, "18:00", "Complexe Sportif Mohammed V", Scheduled)
  const Match8 := Match("match-8", "addis-kings", "accra-storm", None, None, 20251006, "17:00", "Addis Ababa Stadium", Scheduled)

  /** The seeded `matches` array, in its declared order. */
  const Table: seq<Match> := [Match1, Match2, Match3, Match4, Match5, Match6, Match7, Match8]

  /** The filter predicate `match.status === s`. */
  function HasStatus(s: Status): Match -> bool
  {
    (m: Match) => m.status == s
  }

  /** The lookup predicate `match.id === id`. */
  function HasId(id: string): Match -> bool
  {
    (m: Match) => m.id == id
  }

  /** The matches played on day `d`: those the date comparator ranks level. */
  function OnDate(d: int): Match -> bool
  {
    (m: Match) => m.date == d
  }

  function Later(m: Match): Ratio { Ratio(m.date, 1) }

  function Earlier(m: Match): Ratio { Ratio(-m.date, 1) }

  predicate UniqueIds(ms: seq<Match>)
  {
    forall i, j :: 0 <= i < j < |ms| ==> ms[i].id != ms[j].id
  }

  /** `.sort((a, b) => date(b) - date(a))`: the newest match first. */
  function NewestFirst(ms: seq<Match>): (r: seq<Match>)
    ensures multiset(r) == multiset(ms)
    ensures forall i, j :: 0 <= i < j < |r| ==> r[i].date >= r[j].date
  {
    var r := SortDesc(ms, Later);
    assert forall i, j :: 0 <= i < j < |r| ==> AtLeast(Later(r[i]), Later(r[j]));
    r
  }

  /** `.sort((a, b) => date(a) - date(b))`: the oldest match first. */
  function OldestFirst(ms: seq<Match>): (r: seq<Match>)
    ensures multiset(r) == multiset(ms)
    ensures forall i, j :: 0 <= i < j < |r| ==> r[i].date <= r[j].date
  {
    var r := SortDesc(ms, Earlier);
    assert forall i, j :: 0 <= i < j < |r| ==> AtLeast(Earlier(r[i]), Earlier(r[j]));
    r
  }

  /** Matches on the same day keep their relative order when sorted newest first. */
  lemma NewestFirstStable(ms: seq<Match>, d: int)
    ensures Filter(NewestFirst(ms), OnDate(d)) == Filter(ms, OnDate(d))
  {
    SortDescStable(ms, Later, Ratio(d, 1), OnDate(d));
  }

  /** Matches on the same day keep their relative order when sorted oldest first. */
  lemma OldestFirstStable(ms: seq<Match>, d: int)
    ensures Filter(OldestFirst(ms), OnDate(d)) == Filter(ms, OnDate(d))
  {
    SortDescStable(ms, Earlier, Ratio(-d, 1), OnDate(d));
  }

  /** `getRecentMatches(limit)` over the fixture list `ms`: the newest
      finished matches, at most `limit` of them (a negative `limit` drops
      that many from the end, as `slice` does). */
  function RecentMatches(ms: seq<Match>, limit: int := 4): (r: seq<Match>)
    ensures forall m :: m in r ==> m in ms && m.status == Finished
    ensures forall i, j :: 0 <= i < j < |r| ==> r[i].date >= r[j].date
    ensures limit >= 0 ==> |r| == Min(limit, |Filter(ms, HasStatus(Finished))|)
  {
    var f := Filter(ms, HasStatus(Finished));
    var s := NewestFirst(f);
    var r := SliceTo(s, limit);
    assert forall m :: m in r ==> m in multiset(f);
    assert forall m :: m in f <==> m in ms && m.status == Finished;
    r
  }

  /** `getUpcomingMatches(limit)` over `ms`: the earliest scheduled matches,
      at most `limit` of them. */
  function UpcomingMatches(ms: seq<Match>, limit: int := 4): (r: seq<Match>)
    ensures forall m :: m in r ==> m in ms && m.status == Scheduled
    ensures forall i, j :: 0 <= i < j < |r| ==> r[i].date <= r[j].date
    ensures limit >= 0 ==> |r| == Min(limit, |Filter(ms, HasStatus(Scheduled))|)
  {
    var f := Filter(ms, HasStatus(Scheduled));
    var s := OldestFirst(f);
    var r := SliceTo(s, limit);
    assert forall m :: m in r ==> m in multiset(f);
    assert forall m :: m in f <==> m in ms && m.status == Scheduled;
    r
  }

  /** The recent results are the head of the finished matches sorted newest
      first, so no finished match left out is newer than one shown. */
  lemma RecentMatchesPrefix(ms: seq<Match>, limit: int)
    ensures var r := RecentMatches(ms, limit);
      r == NewestFirst(Filter(ms, HasStatus(Finished)))[..|r|] &&
      forall m, n :: m in ms && m.status == Finished && m !in r && n in r ==> n.date >= m.date
  {
    var f := Filter(ms, HasStatus(Finished));
    var s := NewestFirst(f);
    var r := RecentMatches(ms, limit);
    assert r == s[..|r|];
    PrefixDominates(f, Later, |r|);
    forall m, n | m in ms && m.status == Finished && m !in r && n in r
      ensures n.date >= m.date
    {
      assert m in f;
      assert AtLeast(Later(n), Later(m));
    }
  }

  /** The upcoming fixtures are the head of the scheduled matches sorted
      oldest first, so no scheduled match left out is earlier than one shown. */
  lemma UpcomingMatchesPrefix(ms: seq<Match>, limit: int)
    ensures var r := UpcomingMatches(ms, limit);
      r == OldestFirst(Filter(ms, HasStatus(Scheduled)))[..|r|] &&
      forall m, n :: m in ms && m.status == Scheduled && m !in r && n in r ==> n.date <= m.date
  {
    var f := Filter(ms, HasStatus(Scheduled));
    var s := OldestFirst(f);
    var r := UpcomingMatches(ms, limit);
    assert r == s[..|r|];
    PrefixDominates(f, Earlier, |r|);
    forall m, n | m in ms && m.status == Scheduled && m !in r && n in r
      ensures n.date <= m.date
    {
      assert m in f;
      assert AtLeast(Earlier(n), Earlier(m));
    }
  }

  /** `matches.find((match) => match.id === id)` over `ms`. */
  function MatchById(ms: seq<Match>, id: string): (r: Option<Match>)
    ensures r.Some? ==> r.value in ms && r.value.id == id
    ensures r.Some? ==> exists i :: 0 <= i < |ms| && ms[i] == r.value && forall j :: 0 <= j < i ==> ms[j].id != id
    ensures r.None? <==> forall m :: m in ms ==> m.id != id
  {
    Find(ms, HasId(id))
  }

  /** With unique ids, looking a match up by its own id finds that match. */
  lemma MatchByIdFinds(ms: seq<Match>, m: Match)
    requires UniqueIds(ms) && m in ms
    ensures MatchById(ms, m.id) == Some(m)
  {
    var i :| 0 <= i < |ms| && ms[i] == m;
    FindUnique(ms, HasId(m.id), i);
  }

  /** `getRecentMatches` on the seeded list. */
  function GetRecentMatches(limit: int := 4): seq<Match>
  {
    RecentMatches(Table, limit)
  }

  /** `getUpcomingMatches` on the seeded list. */
  function GetUpcomingMatches(limit: int := 4): seq<Match>
  {
    UpcomingMatches(Table, limit)
  }

  /** `getMatchById` on the seeded list. */
  function GetMatchById(id: string): Option<Match>
  {
    MatchById(Table, id)
  }

  /** A score is known exactly for a finished match, and the two sides differ. */
  predicate Consistent(m: Match)
  {
    (m.status == Finished <==> m.homeScore.Some? && m.awayScore.Some?) &&
    (m.status == Scheduled ==> m.homeScore.None? && m.awayScore.None?) &&
    m.homeTeamId != m.awayTeamId
  }

  /** The seeded fixtures have unique ids. */
  lemma SeedUniqueIds()
    ensures UniqueIds(Table)
  {
  }

  /** Every seeded fixture has scores exactly when it is finished. */
  lemma SeedConsistent()
    ensures forall m :: m in Table ==> Consistent(m)
  {
  }

  /** The scheduled seeded matches, in table order. */
  lemma SeedScheduled()
    ensures Filter(Table, HasStatus(Scheduled)) == [Match5, Match6, Match7, Match8]
  {
    var p := HasStatus(Scheduled);
    assert Filter(Table[7..], p) == [Match8];
    assert Filter(Table[6..], p) == [Match7, Match8];
    assert Filter(Table[5..], p) == [Match6, Match7, Match8];
    assert Filter(Table[4..], p) == [Match5, Match6, Match7, Match8];
    assert Filter(Table[3..], p) == [Match5, Match6, Match7, Match8];
    assert Filter(Table[2..], p) == [Match5, Match6, Match7, Match8];
    assert Filter(Table[1..], p) == [Match5, Match6, Match7, Match8];
  }

  /** The scheduled seeded matches are already in date order. */
  lemma SeedScheduledOrdered()
    ensures OldestFirst([Match5, Match6, Match7, Match8]) == [Match5, Match6, Match7, Match8]
  {
    var f := [Match5, Match6, Match7, Match8];
    assert SortedDesc(f, Earlier);
    SortDescSorted(f, Earlier);
  }

  /** The upcoming fixtures the home page shows. */
  lemma SeedUpcoming()
    ensures GetUpcomingMatches() == [Match5, Match6, Match7, Match8]
  {
    SeedScheduled();
    SeedScheduledOrdered();
  }
}
