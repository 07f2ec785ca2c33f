/** The team page's recent-scores chart: the team's last six fixtures in date
    order, each plotted with the team's own score (0 while unknown). */
module RecentScores {
  import opened Seqs
  import opened Sorting
  import opened Teams
  import opened Matches

  /** A point of the chart; the date stays a YYYYMMDD number, since its
      locale rendering is left out. */
  datatype Point = Point(date: int, score: nat, status: Status)

  /** `m.homeTeamId === team.id || m.awayTeamId === team.id`. */
  function Involves(id: string): Match -> bool
  {
    (m: Match) => m.homeTeamId == id || m.awayTeamId == id
  }

  /** The team's side of the score, or 0 when it is not a number. */
  function TeamScore(m: Match, id: string): nat
  {
    var s := if m.homeTeamId == id then m.homeScore else m.awayScore;
    match s
    case Some(v) => v
    case None => 0
  }

  /** A suffix of a list sorted oldest first is sorted oldest first. */
  lemma SuffixSorted(s: seq<Match>, b: nat)
    requires b <= |s|
    requires forall i, j :: 0 <= i < j < |s| ==> s[i].date <= s[j].date
    ensures forall i, j :: 0 <= i < j < |s[b..]| ==> s[b..][i].date <= s[b..][j].date
  {
    forall i, j | 0 <= i < j < |s[b..]| ensures s[b..][i].date <= s[b..][j].date {
      assert s[b..][i] == s[b + i] && s[b..][j] == s[b + j];
    }
  }

  /** The team's fixtures oldest first, `slice(-6)`: the last six. */
  function LastSix(ms: seq<Match>, id: string): (r: seq<Match>)
    ensures |r| == Min(6, |Filter(ms, Involves(id))|)
    ensures forall m :: m in r ==> m in ms && (m.homeTeamId == id || m.awayTeamId == id)
    ensures forall i, j :: 0 <= i < j < |r| ==> r[i].date <= r[j].date
  {
    var f := Filter(ms, Involves(id));
    var s := OldestFirst(f);
    var r := SliceFrom(s, -6);
    assert forall m :: m in r ==> m in s;
    assert forall m :: m in s ==> m in multiset(f);
    assert forall m :: m in f <==> m in ms && (m.homeTeamId == id || m.awayTeamId == id);
    SuffixSorted(s, |s| - |r|);
    r
  }

  /** The chart shows the team's latest fixtures: it is the tail of the
      team's fixtures sorted oldest first, and none left out is later than
      one shown. */
  lemma LastSixLatest(ms: seq<Match>, id: string)
    ensures var r := LastSix(ms, id); var s := OldestFirst(Filter(ms, Involves(id)));
      |r| <= |s| && r == s[|s| - |r|..] &&
      forall m, n :: m in ms && Involves(id)(m) && m !in r && n in r ==> m.date <= n.date
  {
    var f := Filter(ms, Involves(id));
    var s := OldestFirst(f);
    var r := LastSix(ms, id);
    assert r == SliceFrom(s, -6);
    SuffixDominated(f, Earlier, 6);
    forall m, n | m in ms && Involves(id)(m) && m !in r && n in r ensures m.date <= n.date {
      assert m in f;
      assert AtLeast(Earlier(m), Earlier(n));
    }
  }

  /** One point per fixture: its date, the team's score and the status. */
  function Points(ms: seq<Match>, id: string): (r: seq<Point>)
    ensures |r| == |ms| && forall i :: 0 <= i < |ms| ==> r[i] == Point(ms[i].date, TeamScore(ms[i], id), ms[i].status)
  {
    seq(|ms|, i requires 0 <= i < |ms| => Point(ms[i].date, TeamScore(ms[i], id), ms[i].status))
  }

  /** `TeamRecentScoresChart`: nothing for an unknown team, otherwise a point
      for each of its last six fixtures. */
  function Chart(ts: seq<Team>, ms: seq<Match>, teamId: string): (r: Option<seq<Point>>)
    ensures r.None? <==> TeamById(ts, teamId).None?
    ensures r.Some? ==> var last := LastSix(ms, teamId);
      |r.value| == |last| &&
      forall i :: 0 <= i < |last| ==> r.value[i] == Point(last[i].date, TeamScore(last[i], teamId), last[i].status)
  {
    match TeamById(ts, teamId)
    case None => None
    case Some(_) => Some(Points(LastSix(ms, teamId), teamId))
  }

  /** A finished fixture plots the team's real score; one not yet played plots 0. */
  lemma ChartScores(m: Match, id: string)
    requires Consistent(m) && (m.homeTeamId == id || m.awayTeamId == id)
    ensures m.status == Finished ==>
      TeamScore(m, id) == if m.homeTeamId == id then m.homeScore.value else m.awayScore.value
    ensures m.status == Scheduled ==> TeamScore(m, id) == 0
  {
  }
}
