/** The statistics page: the per-team chart rows, the per-player chart rows,
    the conference split, the per-position summary and the three top-five
    leaderboards. */
module Stats {
  import opened Seqs
  import opened Sorting
  import opened Text
  import opened Grouping
  import opened Teams
  import opened Players

  /** A row of the team chart. */
  datatype TeamStat = TeamStat(name: string, wins: nat, losses: nat, winPercentage: string, points: nat)

  /** `((wins / (wins + losses)) * 100).toFixed(1)`; a team with no games
      divides zero by zero and prints "NaN". */
  function WinPercentage(t: Team): (r: string)
    ensures t.wins + t.losses == 0 <==> r == "NaN"
    ensures t.wins + t.losses > 0 ==> Fixed1Form(r) && ParseFixed1(r) == WinPctTenths(t)
  {
    if t.wins + t.losses == 0 then "NaN"
    else
      Fixed1RoundTrip(WinPctTenths(t));
      assert Fixed1(WinPctTenths(t))[|Fixed1(WinPctTenths(t))| - 2] == '.';
      Fixed1(WinPctTenths(t))
  }

  /** `teamStatsData`: one row per team, in table order, worth two points a win. */
  function TeamStats(ts: seq<Team>): (r: seq<TeamStat>)
    ensures |r| == |ts|
    ensures forall i :: 0 <= i < |r| ==>
      r[i].name == ts[i].name && r[i].wins == ts[i].wins && r[i].losses == ts[i].losses &&
      r[i].winPercentage == WinPercentage(ts[i]) && r[i].points == 2 * ts[i].wins
  {
    seq(|ts|, i requires 0 <= i < |ts| =>
      TeamStat(ts[i].name, ts[i].wins, ts[i].losses, WinPercentage(ts[i]), ts[i].wins * 2))
  }

  /** A row of the player chart; averages in tenths. */
  datatype PlayerStat = PlayerStat(name: string, ppg: nat, rpg: nat, apg: nat, efficiency: string)

  /** `(ppg + rpg + apg).toFixed(1)`, exact on tenths. */
  function Efficiency(p: Player): (r: string)
    ensures Fixed1Form(r) && ParseFixed1(r) == p.ppg + p.rpg + p.apg
  {
    Fixed1RoundTrip(p.ppg + p.rpg + p.apg);
    Fixed1(p.ppg + p.rpg + p.apg)
  }

  /** `playerStatsData`: the first ten players of the roster, in order. */
  function PlayerStats(ps: seq<Player>): (r: seq<PlayerStat>)
    ensures |r| == Min(10, |ps|)
    ensures forall i :: 0 <= i < |r| ==>
      r[i].name == ps[i].name && r[i].ppg == ps[i].ppg && r[i].rpg == ps[i].rpg && r[i].apg == ps[i].apg &&
      Fixed1Form(r[i].efficiency) && ParseFixed1(r[i].efficiency) == ps[i].ppg + ps[i].rpg + ps[i].apg
  {
    var first := SliceTo(ps, 10);
    seq(|first|, i requires 0 <= i < |first| =>
      PlayerStat(first[i].name, first[i].ppg, first[i].rpg, first[i].apg, Efficiency(first[i])))
  }

  /** A slice of the conference pie. */
  datatype Slice = Slice(name: string, value: nat)

  /** `conferenceData`: the number of teams in each conference. */
  function ConferenceData(ts: seq<Team>): (r: seq<Slice>)
    ensures |r| == 2 && r[0].name == "Eastern Conference" && r[1].name == "Western Conference"
    ensures r[0].value == |Filter(ts, OfConference(East))| && r[1].value == |Filter(ts, OfConference(West))|
  {
    [Slice("Eastern Conference", |Filter(ts, OfConference(East))|),
     Slice("Western Conference", |Filter(ts, OfConference(West))|)]
  }

  /** The pie covers every team exactly once. */
  lemma ConferenceDataCovers(ts: seq<Team>)
    ensures var r := ConferenceData(ts); r[0].value + r[1].value == |ts|
  {
    FilterSplitCount(ts, OfConference(East), OfConference(West));
  }

  /** An entry of `positionStats`; `avgPpg` is the string the page stores. */
  datatype PositionStat = PositionStat(position: Position, count: nat, totalPpg: nat, avgPpg: string)

  function PositionOf(p: Player): Position { p.position }

  /** Total points per game of `ps`, in tenths. */
  function SumPpg(ps: seq<Player>): nat
  {
    if ps == [] then 0 else SumPpg(ps[..|ps| - 1]) + ps[|ps| - 1].ppg
  }

  /** `(totalPpg / count).toFixed(1)` in tenths: the mean rounded to the
      nearest tenth, halves up. */
  function AvgTenths(total: nat, count: nat): (r: nat)
    requires count > 0
    ensures 2 * r * count <= 2 * total + count < 2 * (r + 1) * count
  {
    var n := 2 * total + count;
    var r := n / (2 * count);
    assert n == r * (2 * count) + n % (2 * count);
    r
  }

  /** The entry of one position's group of players. */
  function Summary(g: Group<Position, Player>): PositionStat
  {
    var c := |g.items|;
    PositionStat(g.key, c, SumPpg(g.items), if c == 0 then "0" else Fixed1(AvgTenths(SumPpg(g.items), c)))
  }

  /** `Object.values(positionStats)`: an entry per position in the order
      positions first appear on the roster, counting its players and adding
      up their points. */
  function PositionTable(ps: seq<Player>): (r: seq<PositionStat>)
    ensures var g := GroupBy(ps, PositionOf);
      |r| == |g| && forall k :: 0 <= k < |r| ==> r[k] == Summary(g[k])
  {
    var g := GroupBy(ps, PositionOf);
    seq(|g|, k requires 0 <= k < |g| => Summary(g[k]))
  }

  /** The entry whose position is `pos`. */
  function AtPosition(pos: Position): PositionStat -> bool
  {
    (e: PositionStat) => e.position == pos
  }

  /** The entry a new position starts with. */
  function Fresh(pos: Position): PositionStat { PositionStat(pos, 0, 0, "0") }

  /** `count++`, `totalPpg += ppg` and the average recomputed. */
  function Bump(e: PositionStat, p: Player): PositionStat
  {
    var count := e.count + 1;
    var total := e.totalPpg + p.ppg;
    PositionStat(e.position, count, total, Fixed1(AvgTenths(total, count)))
  }

  lemma SummarySnoc(g: Group<Position, Player>, p: Player)
    requires g.key == p.position
    ensures Summary(Group(g.key, g.items + [p])) == Bump(Summary(g), p)
  {
    var items := g.items + [p];
    assert items[..|items| - 1] == g.items;
  }

  /** A player of a position already listed bumps that entry. */
  lemma PositionTableSnocOld(ps: seq<Player>, p: Player, k: nat)
    requires k < |PositionTable(ps)| && PositionTable(ps)[k].position == p.position
    ensures var t := PositionTable(ps); PositionTable(ps + [p]) == t[k := Bump(t[k], p)]
  {
    var g := GroupBy(ps, PositionOf);
    var t := PositionTable(ps);
    assert t[k] == Summary(g[k]);
    GroupBySnocOld(ps, PositionOf, p, k);
    var g' := GroupBy(ps + [p], PositionOf);
    SummarySnoc(g[k], p);
    var t' := PositionTable(ps + [p]);
    forall i | 0 <= i < |t'| ensures t'[i] == t[k := Bump(t[k], p)][i] {
      assert t'[i] == Summary(g'[i]);
      if i != k {
        assert g'[i] == g[i];
      }
    }
  }

  /** A player of a new position opens an entry at the end. */
  lemma PositionTableSnocNew(ps: seq<Player>, p: Player)
    requires forall k :: 0 <= k < |PositionTable(ps)| ==> PositionTable(ps)[k].position != p.position
    ensures PositionTable(ps + [p]) == PositionTable(ps) + [Bump(Fresh(p.position), p)]
  {
    var g := GroupBy(ps, PositionOf);
    var t := PositionTable(ps);
    var t' := PositionTable(ps + [p]);
    assert forall k :: 0 <= k < |g| ==> g[k].key == t[k].position;
    GroupBySnocNew(ps, PositionOf, p);
    assert [p][..0] == [];
    assert SumPpg([p]) == p.ppg;
    assert Summary(Group(p.position, [p])) == Bump(Fresh(p.position), p);
    forall i | 0 <= i < |t'| ensures t'[i] == (t + [Bump(Fresh(p.position), p)])[i] {
    }
  }

  /** The `positionStats` reduce: a new entry starts at zero, then the count,
      the total and the stored average are updated. */
  method PositionStats(ps: seq<Player>) returns (entries: seq<PositionStat>)
    ensures entries == PositionTable(ps)
  {
    entries := [];
    for i := 0 to |ps|
      invariant entries == PositionTable(ps[..i])
    {
      var p := ps[i];
      assert ps[..i + 1] == ps[..i] + [p];
      match IndexWhere(entries, AtPosition(p.position))
      case Some(k) =>
        PositionTableSnocOld(ps[..i], p, k);
        entries := entries[k := Bump(entries[k], p)];
      case None =>
        PositionTableSnocNew(ps[..i], p);
        ghost var before := entries;
        entries := entries + [Fresh(p.position)];
        var k := |entries| - 1;
        entries := entries[k := Bump(entries[k], p)];
        assert entries == before + [Bump(Fresh(p.position), p)];
    }
    assert ps[..|ps|] == ps;
  }

  /** The counts add up to the size of the roster, and no entry is empty. */
  lemma PositionCounts(ps: seq<Player>)
    ensures var t := PositionTable(ps);
      CountSum(t) == |ps| && forall k :: 0 <= k < |t| ==> t[k].count > 0
  {
    var g := GroupBy(ps, PositionOf);
    GroupByTotal(ps, PositionOf);
    GroupByShape(ps, PositionOf);
    CountSumTotal(g);
  }

  function CountSum(t: seq<PositionStat>): nat
  {
    if t == [] then 0 else CountSum(t[..|t| - 1]) + t[|t| - 1].count
  }

  lemma {:induction false} CountSumTotal(g: seq<Group<Position, Player>>)
    ensures CountSum(seq(|g|, k requires 0 <= k < |g| => Summary(g[k]))) == Total(g)
  {
    var t := seq(|g|, k requires 0 <= k < |g| => Summary(g[k]));
    if g != [] {
      var n := |g| - 1;
      CountSumTotal(g[..n]);
      assert t[..n] == seq(n, k requires 0 <= k < n => Summary(g[..n][k]));
    }
  }

  /** Each entry is one position's players: its count, its total, and its
      average rounded to tenths. */
  lemma PositionEntries(ps: seq<Player>, k: nat)
    requires k < |PositionTable(ps)|
    ensures var e := PositionTable(ps)[k]; var f := Filter(ps, OnKey(PositionOf, e.position));
      e.count == |f| && e.totalPpg == SumPpg(f) && e.count > 0 &&
      Fixed1Form(e.avgPpg) && ParseFixed1(e.avgPpg) == AvgTenths(e.totalPpg, e.count)
  {
    GroupByShape(ps, PositionOf);
    var e := PositionTable(ps)[k];
    Fixed1RoundTrip(AvgTenths(e.totalPpg, e.count));
  }

  /** The ranking key of a leaderboard. */
  function Points(p: Player): Ratio { Ratio(p.ppg, 1) }
  function Rebounds(p: Player): Ratio { Ratio(p.rpg, 1) }
  function Assists(p: Player): Ratio { Ratio(p.apg, 1) }

  /** `[...players].sort((a, b) => key(b) - key(a)).slice(0, 5)`. */
  function TopFive(ps: seq<Player>, key: Player -> Ratio): (r: seq<Player>)
    requires forall p :: key(p).den == 1
    ensures |r| == Min(5, |ps|)
    ensures r == SortDesc(ps, key)[..|r|]
    ensures forall i, j :: 0 <= i < j < |r| ==> AtLeast(key(r[i]), key(r[j]))
    ensures forall p :: p in r ==> p in ps
  {
    var s := SortDesc(ps, key);
    var r := SliceTo(s, 5);
    assert forall p :: p in r ==> p in s;
    assert forall p :: p in s ==> p in multiset(ps);
    r
  }

  /** Nobody left off a leaderboard beats someone on it. */
  lemma TopFiveDominates(ps: seq<Player>, key: Player -> Ratio)
    requires forall p :: key(p).den == 1
    ensures var r := TopFive(ps, key);
      forall p, q :: p in ps && p !in r && q in r ==> AtLeast(key(q), key(p))
  {
    PrefixDominates(ps, key, 5);
  }

  /** `topScorers`, `topRebounders` and `topAssists`. */
  function TopScorers(ps: seq<Player>): seq<Player> { TopFive(ps, Points) }
  function TopRebounders(ps: seq<Player>): seq<Player> { TopFive(ps, Rebounds) }
  function TopAssists(ps: seq<Player>): seq<Player> { TopFive(ps, Assists) }

  /** The scorers board shows the five best scorers, best first. */
  lemma TopScorersBest(ps: seq<Player>)
    ensures var r := TopScorers(ps);
      |r| == Min(5, |ps|) &&
      (forall i, j :: 0 <= i < j < |r| ==> r[i].ppg >= r[j].ppg) &&
      (forall p, q :: p in ps && p !in r && q in r ==> q.ppg >= p.ppg)
  {
    TopFiveDominates(ps, Points);
    var r := TopScorers(ps);
    assert forall i, j :: 0 <= i < j < |r| ==> AtLeast(Points(r[i]), Points(r[j]));
  }
}
