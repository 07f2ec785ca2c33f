/** The league's teams: the seeded table, lookup by id, and the conference
    listing ordered by win percentage. The logo and colour fields of a team
    record are presentation only and are not part of the model. */
module Teams {
  import opened Seqs
  import opened Sorting

  datatype Conference = East | West

  datatype Team = Team(id: string, name: string, city: string, country: string,
                       wins: nat, losses: nat, conference: Conference)

  const LagosLions := Team("lagos-lions", "Lagos Lions", "Lagos", "Nigeria", 18, 6, West)
  const CairoPharaohs := Team("cairo-pharaohs", "Cairo Pharaohs", "Cairo", "Egypt", 17, 7, East)
  const JohannesburgThunder := Team("johannesburg-thunder", "Johannesburg Thunder", "Johannesburg", "South Africa", 16, 8, East)
  const NairobiWarriors := Team("nairobi-warriors", "Nairobi Warriors", "Nairobi", "Kenya", 15, 9, East)
  const AccraStorm := Team("accra-storm", "Accra Storm", "Accra", "Ghana", 14, 10, West)
  const CasablancaEagles := Team("casablanca-eagles", "Casablanca Eagles", "Casablanca", "Morocco", 12, 12, West)
  const DakarPanthers := Team("dakar-panthers", "Dakar Panthers", "Dakar", "Senegal", 10, 14, West)
  const AddisKings := Team("addis-kings", "Addis Kings", "Addis Ababa", "Ethiopia", 8, 16, East)

  /** The seeded `teams` array, in its declared order. */
  const Table: seq<Team> := [LagosLions, CairoPharaohs, JohannesburgThunder, NairobiWarriors,
                             AccraStorm, CasablancaEagles, DakarPanthers, AddisKings]

  /** wins / (wins + losses), kept as an exact fraction. */
  function WinPct(t: Team): Ratio
  {
    Ratio(t.wins, t.wins + t.losses)
  }

  /** Every team has played, so every win percentage is defined. */
  predicate HavePlayed(ts: seq<Team>)
  {
    forall t :: t in ts ==> t.wins + t.losses > 0
  }

  /** The filter predicate `team.conference === c`. */
  function OfConference(c: Conference): Team -> bool
  {
    (t: Team) => t.conference == c
  }

  /** The lookup predicate `team.id === id`. */
  function HasId(id: string): Team -> bool
  {
    (t: Team) => t.id == id
  }

  /** The ranking class of win percentage `k`: the teams the comparator puts level with it. */
  function WinPctIs(k: Ratio): Team -> bool
  {
    (t: Team) => SameRank(WinPct(t), k)
  }

  predicate UniqueIds(ts: seq<Team>)
  {
    forall i, j :: 0 <= i < j < |ts| ==> ts[i].id != ts[j].id
  }

  /** The win percentage as the page prints it with `toFixed(1)`: tenths of a
      percent, rounded to nearest with halves rounded up. */
  function WinPctTenths(t: Team): (r: nat)
    requires t.wins + t.losses > 0
    ensures 2 * r * (t.wins + t.losses) <= 2000 * t.wins + (t.wins + t.losses)
    ensures 2000 * t.wins + (t.wins + t.losses) < 2 * (r + 1) * (t.wins + t.losses)
    ensures r <= 1000
  {
    var g := t.wins + t.losses;
    var n := 2000 * t.wins + g;
    var r := n / (2 * g);
    assert n == r * (2 * g) + n % (2 * g);
    assert 2 * r * g <= n < 2 * (r + 1) * g;
    assert r <= 1000 by {
      if r > 1000 { MulMonotone(r, 1001, 2 * g); }
    }
    r
  }

  /** `teams.find((team) => team.id === id)` over the table `ts`. */
  function TeamById(ts: seq<Team>, id: string): (r: Option<Team>)
    ensures r.Some? ==> r.value in ts && r.value.id == id
    ensures r.Some? ==> exists i :: 0 <= i < |ts| && ts[i] == r.value && forall j :: 0 <= j < i ==> ts[j].id != id
    ensures r.None? <==> forall t :: t in ts ==> t.id != id
  {
    Find(ts, HasId(id))
  }

  /** With unique ids, looking a team up by its own id finds that team. */
  lemma TeamByIdFinds(ts: seq<Team>, t: Team)
    requires UniqueIds(ts) && t in ts
    ensures TeamById(ts, t.id) == Some(t)
  {
    var i :| 0 <= i < |ts| && ts[i] == t;
    FindUnique(ts, HasId(t.id), i);
  }

  /** The teams of conference `c`, highest win percentage first; the sort is
      stable (see `ByConferenceStable`). */
  function ByConference(ts: seq<Team>, c: Conference): (r: seq<Team>)
    requires HavePlayed(ts)
    ensures forall t :: t in r <==> t in ts && t.conference == c
    ensures multiset(r) == multiset(Filter(ts, OfConference(c)))
    ensures forall i, j :: 0 <= i < j < |r| ==> AtLeast(WinPct(r[i]), WinPct(r[j]))
  {
    var f := Filter(ts, OfConference(c));
    var r := SortDesc(f, WinPct);
    assert forall t :: t in r <==> t in multiset(f);
    assert forall t :: t in f <==> t in ts && t.conference == c;
    r
  }

  /** Teams of the same conference with equal win percentages keep the order
      they have in the table. */
  lemma ByConferenceStable(ts: seq<Team>, c: Conference, k: Ratio)
    requires HavePlayed(ts) && k.den > 0
    ensures Filter(ByConference(ts, c), WinPctIs(k)) == Filter(Filter(ts, OfConference(c)), WinPctIs(k))
  {
    var f := Filter(ts, OfConference(c));
    SortDescStable(f, WinPct, k, WinPctIs(k));
  }

  /** The two conference listings share out the whole table. */
  lemma ByConferencePartition(ts: seq<Team>)
    requires HavePlayed(ts)
    ensures |ByConference(ts, East)| + |ByConference(ts, West)| == |ts|
  {
    FilterSplitCount(ts, OfConference(East), OfConference(West));
    assert |multiset(ByConference(ts, East))| == |Filter(ts, OfConference(East))|;
    assert |multiset(ByConference(ts, West))| == |Filter(ts, OfConference(West))|;
  }

  /** A conference whose teams already appear in the table in standings
      order is listed in table order. */
  lemma ByConferenceSorted(ts: seq<Team>, c: Conference)
    requires HavePlayed(ts) && SortedDesc(Filter(ts, OfConference(c)), WinPct)
    ensures ByConference(ts, c) == Filter(ts, OfConference(c))
  {
    SortDescSorted(Filter(ts, OfConference(c)), WinPct);
  }

  /** `getTeamById` on the seeded table. */
  function GetTeamById(id: string): Option<Team>
  {
    TeamById(Table, id)
  }

  /** `getTeamsByConference` on the seeded table. */
  function GetTeamsByConference(c: Conference): seq<Team>
  {
    SeedTable();
    ByConference(Table, c)
  }

  /** The seeded table has unique ids and every team has played. */
  lemma SeedTable()
    ensures UniqueIds(Table) && HavePlayed(Table)
  {
  }

  /** Every seeded team is found by its id. */
  lemma SeedLookup()
    ensures forall t :: t in Table ==> GetTeamById(t.id) == Some(t)
  {
    forall t | t in Table ensures GetTeamById(t.id) == Some(t) {
      TeamByIdFinds(Table, t);
    }
  }

  /** The seeded East teams, in table order. */
  lemma SeedEastMembers()
    ensures Filter(Table, OfConference(East)) == [CairoPharaohs, JohannesburgThunder, NairobiWarriors, AddisKings]
  {
    var p := OfConference(East);
    assert Filter(Table[7..], p) == [AddisKings];
    assert Filter(Table[6..], p) == [AddisKings];
    assert Filter(Table[5..], p) == [AddisKings];
    assert Filter(Table[4..], p) == [AddisKings];
    assert Filter(Table[3..], p) == [NairobiWarriors, AddisKings];
    assert Filter(Table[2..], p) == [JohannesburgThunder, NairobiWarriors, AddisKings];
    assert Filter(Table[1..], p) == [CairoPharaohs, JohannesburgThunder, NairobiWarriors, AddisKings];
  }

  lemma SeedEastOrdered()
    ensures SortedDesc([CairoPharaohs, JohannesburgThunder, NairobiWarriors, AddisKings], WinPct)
  {
  }

  /** The seeded Eastern standings, as the site shows them. */
  lemma SeedEast()
    ensures GetTeamsByConference(East) == [CairoPharaohs, JohannesburgThunder, NairobiWarriors, AddisKings]
  {
    SeedEastMembers();
    SeedEastOrdered();
    SeedTable();
    ByConferenceSorted(Table, East);
  }

  /** The seeded West teams, in table order. */
  lemma SeedWestMembers()
    ensures Filter(Table, OfConference(West)) == [LagosLions, AccraStorm, CasablancaEagles, DakarPanthers]
  {
    var p := OfConference(West);
    assert Filter(Table[7..], p) == [];
    assert Filter(Table[6..], p) == [DakarPanthers];
    assert Filter(Table[5..], p) == [CasablancaEagles, DakarPanthers];
    assert Filter(Table[4..], p) == [AccraStorm, CasablancaEagles, DakarPanthers];
    assert Filter(Table[3..], p) == [AccraStorm, CasablancaEagles, DakarPanthers];
    assert Filter(Table[2..], p) == [AccraStorm, CasablancaEagles, DakarPanthers];
    assert Filter(Table[1..], p) == [AccraStorm, CasablancaEagles, DakarPanthers];
  }

  lemma SeedWestOrdered()
    ensures SortedDesc([LagosLions, AccraStorm, CasablancaEagles, DakarPanthers], WinPct)
  {
  }

  /** The seeded Western standings, as the site shows them. */
  lemma SeedWest()
    ensures GetTeamsByConference(West) == [LagosLions, AccraStorm, CasablancaEagles, DakarPanthers]
  {
    SeedWestMembers();
    SeedWestOrdered();
    SeedTable();
    ByConferenceSorted(Table, West);
  }
}
