/** The standings page: per conference, the teams ranked by win percentage
    with their rank, trophy, win percentage, games behind and streak columns,
    and the playoff preview of the top four. */
module Standings {
  import opened Seqs
  import opened Sorting
  import opened Text
  import opened Teams

  /** The win-percentage column: `winPct.toFixed(1)` followed by "%". */
  function WinPctLabel(t: Team): (r: string)
    requires t.wins + t.losses > 0
    ensures |r| >= 4 && r[|r| - 1] == '%' && Fixed1Form(r[..|r| - 1])
    ensures ParseFixed1(r[..|r| - 1]) == WinPctTenths(t)
  {
    var s := Fixed1(WinPctTenths(t));
    Fixed1RoundTrip(WinPctTenths(t));
    assert (s + "%")[..|s|] == s;
    s + "%"
  }

  /** Twice the games behind the leader: (leader wins - wins) + (losses - leader losses). */
  function BehindTwice(leader: Team, t: Team): int
  {
    (leader.wins - t.wins) + (t.losses - leader.losses)
  }

  /** The games-behind column for the team at `index` of the ranked `table`:
      "-" for the leader, otherwise half of `BehindTwice` with one decimal. */
  function GamesBack(table: seq<Team>, index: nat): (r: string)
    requires index < |table|
    ensures index == 0 <==> r == "-"
    ensures index > 0 ==> Fixed1Form(r) && 2 * ParseFixed1(r) == 10 * BehindTwice(table[0], table[index])
  {
    if index == 0 then "-"
    else
      var g := 5 * BehindTwice(table[0], table[index]);
      Fixed1RoundTrip(g);
      Fixed1(g)
  }

  /** The streak column: "W" and the wins capped at 3 for a winning record,
      otherwise "L" and the losses capped at 3, so an even record shows "L". */
  function Streak(t: Team): (r: string)
    ensures |r| == 2
    ensures r[0] == 'W' <==> t.wins > t.losses
    ensures r[0] == 'L' <==> t.wins <= t.losses
    ensures IsDigit(r[1]) && DigitValue(r[1]) == Min(if t.wins > t.losses then t.wins else t.losses, 3)
  {
    if t.wins > t.losses then "W" + NatToString(Min(t.wins, 3)) else "L" + NatToString(Min(t.losses, 3))
  }

  /** One row of a conference table. */
  datatype Row = Row(rank: nat, trophy: bool, team: Team, winPct: string, gamesBack: string, streak: string)

  /** The rows of a ranked table: rank `index + 1`, the trophy on the first row only. */
  function Rows(table: seq<Team>): (r: seq<Row>)
    requires HavePlayed(table)
    ensures |r| == |table|
    ensures forall i :: 0 <= i < |r| ==> r[i].team == table[i] && r[i].rank == i + 1
    ensures forall i :: 0 <= i < |r| ==> (r[i].trophy <==> i == 0)
  {
    seq(|table|, i requires 0 <= i < |table| =>
      Row(i + 1, i == 0, table[i], WinPctLabel(table[i]), GamesBack(table, i), Streak(table[i])))
  }

  /** The standings table of conference `c`. */
  function ConferenceTable(ts: seq<Team>, c: Conference): seq<Row>
    requires HavePlayed(ts)
  {
    var ranked := ByConference(ts, c);
    assert HavePlayed(ranked);
    Rows(ranked)
  }

  /** The rows show exactly the teams of the table. */
  lemma RowsTeams(table: seq<Team>)
    requires HavePlayed(table)
    ensures var rows := Rows(table);
      forall t :: (exists i :: 0 <= i < |rows| && rows[i].team == t) <==> t in table
  {
    var rows := Rows(table);
    forall t | t in table ensures exists i :: 0 <= i < |rows| && rows[i].team == t {
      var i :| 0 <= i < |table| && table[i] == t;
      assert rows[i].team == t;
    }
  }

  /** The table shows exactly the conference's teams. */
  lemma ConferenceTableTeams(ts: seq<Team>, c: Conference)
    requires HavePlayed(ts)
    ensures var rows := ConferenceTable(ts, c);
      forall t :: (exists i :: 0 <= i < |rows| && rows[i].team == t) <==> t in ts && t.conference == c
  {
    var ranked := ByConference(ts, c);
    assert HavePlayed(ranked);
    assert ConferenceTable(ts, c) == Rows(ranked);
    RowsTeams(ranked);
  }

  /** Down the table win percentages never rise, and the trophy row has the
      best win percentage in the conference. */
  lemma ConferenceTableOrder(ts: seq<Team>, c: Conference)
    requires HavePlayed(ts)
    ensures var rows := ConferenceTable(ts, c);
      (forall i, j :: 0 <= i < j < |rows| ==> AtLeast(WinPct(rows[i].team), WinPct(rows[j].team))) &&
      (forall i, t :: 0 <= i < |rows| && rows[i].trophy && t in ts && t.conference == c ==> AtLeast(WinPct(rows[i].team), WinPct(t)))
  {
    var ranked := ByConference(ts, c);
    RowsTeams(ranked);
    var rows := Rows(ranked);
    forall i, t | 0 <= i < |rows| && rows[i].trophy && t in ts && t.conference == c
      ensures AtLeast(WinPct(rows[i].team), WinPct(t))
    {
      var j :| 0 <= j < |rows| && rows[j].team == t;
      if j > 0 {
        assert AtLeast(WinPct(ranked[0]), WinPct(ranked[j]));
      }
    }
  }

  /** The playoff preview of conference `c`: `slice(0, 4)` of its ranking. */
  function Playoff(ts: seq<Team>, c: Conference): (r: seq<Team>)
    requires HavePlayed(ts)
    ensures |r| == Min(4, |Filter(ts, OfConference(c))|)
    ensures r == ByConference(ts, c)[..|r|]
  {
    var ranked := ByConference(ts, c);
    assert |multiset(ranked)| == |Filter(ts, OfConference(c))|;
    SliceTo(ranked, 4)
  }

  /** No conference team left out of the preview has a better win
      percentage than one shown. */
  lemma PlayoffDominates(ts: seq<Team>, c: Conference)
    requires HavePlayed(ts)
    ensures var r := Playoff(ts, c);
      forall p, q :: p in ts && p.conference == c && p !in r && q in r ==> AtLeast(WinPct(q), WinPct(p))
  {
    var f := Filter(ts, OfConference(c));
    var r := Playoff(ts, c);
    PrefixDominates(f, WinPct, |r|);
    forall p, q | p in ts && p.conference == c && p !in r && q in r ensures AtLeast(WinPct(q), WinPct(p)) {
      assert p in f;
    }
  }
}
