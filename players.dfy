/** The league's players: the seeded roster, lookup by id and the roster of
    one team. Per-game averages are kept as integer tenths (24.5 points per
    game is 245); the photo field is presentation only. */
module Players {
  import opened Seqs

  datatype Position = PG | SG | SF | PF | C

  /** The position as the source spells it. */
  function PositionCode(p: Position): string
  {
    match p
    case PG => "PG"
    case SG => "SG"
    case SF => "SF"
    case PF => "PF"
    case C => "C"
  }

  datatype Player = Player(id: string, name: string, number: nat, position: Position,
                           height: string, weight: string, age: nat, teamId: string,
                           ppg: nat, rpg: nat, apg: nat)

  const Okonkwo := Player("player-1", "Chukwudi Okonkwo", 23, SF, "6'8\"", "220 lbs", 27, "lagos-lions", 245, 72, 51)
  const Nwosu := Player("player-2", "Emeka Nwosu", 10, PG, "6'2\"", "185 lbs", 25, "lagos-lions", 183, 35, 92)
  const Hassan := Player("player-3", "Ahmed Hassan", 7, SG, "6'5\"", "200 lbs", 26, "cairo-pharaohs", 221, 48, 39)
  const Farouk := Player("player-4", "Omar Farouk", 15, C, "7'0\"", "250 lbs", 29, "cairo-pharaohs", 167, 113, 21)
  const Sefolosha := Player("player-5", "Thabo Sefolosha", 3, SF, "6'7\"", "215 lbs", 28, "johannesburg-thunder", 204, 65, 42)
  const Dlamini := Player("player-6", "Mandla Dlamini", 21, PF, "6'10\"", "235 lbs", 30, "johannesburg-thunder", 178, 96, 28)
  const Oladipo := Player("player-7", "Victor Oladipo", 4, SG, "6'4\"", "195 lbs", 24, "nairobi-warriors", 216, 51, 47)
  const Mwangi := Player("player-8", "James Mwangi", 12, PG, "6'1\"", "180 lbs", 23, "nairobi-warriors", 159, 32, 85)

  /** The seeded `players` array, in its declared order. */
  const Table: seq<Player> := [Okonkwo, Nwosu, Hassan, Farouk, Sefolosha, Dlamini, Oladipo, Mwangi]

  /** The filter predicate `player.teamId === teamId`. */
  function OnTeam(teamId: string): Player -> bool
  {
    (p: Player) => p.teamId == teamId
  }

  /** The lookup predicate `player.id === id`. */
  function HasId(id: string): Player -> bool
  {
    (p: Player) => p.id == id
  }

  predicate UniqueIds(ps: seq<Player>)
  {
    forall i, j :: 0 <= i < j < |ps| ==> ps[i].id != ps[j].id
  }

  /** `players.filter((player) => player.teamId === teamId)` over `ps`:
      exactly that team's players, in roster order; none for an unknown team. */
  function PlayersByTeam(ps: seq<Player>, teamId: string): (r: seq<Player>)
    ensures forall p :: p in r <==> p in ps && p.teamId == teamId
    ensures SubseqOf(r, ps)
    ensures r == [] <==> forall p :: p in ps ==> p.teamId != teamId
  {
    var r := Filter(ps, OnTeam(teamId));
    assert forall p :: p in r <==> p in ps && p.teamId == teamId;
    assert r != [] ==> r[0] in r;
    r
  }

  /** `players.find((player) => player.id === id)` over `ps`. */
  function PlayerById(ps: seq<Player>, id: string): (r: Option<Player>)
    ensures r.Some? ==> r.value in ps && r.value.id == id
    ensures r.Some? ==> exists i :: 0 <= i < |ps| && ps[i] == r.value && forall j :: 0 <= j < i ==> ps[j].id != id
    ensures r.None? <==> forall p :: p in ps ==> p.id != id
  {
    Find(ps, HasId(id))
  }

  /** With unique ids, looking a player up by its own id finds that player. */
  lemma PlayerByIdFinds(ps: seq<Player>, p: Player)
    requires UniqueIds(ps) && p in ps
    ensures PlayerById(ps, p.id) == Some(p)
  {
    var i :| 0 <= i < |ps| && ps[i] == p;
    FindUnique(ps, HasId(p.id), i);
  }

  /** `getPlayersByTeam` on the seeded roster. */
  function GetPlayersByTeam(teamId: string): seq<Player>
  {
    PlayersByTeam(Table, teamId)
  }

  /** `getPlayerById` on the seeded roster. */
  function GetPlayerById(id: string): Option<Player>
  {
    PlayerById(Table, id)
  }

  /** The seeded roster has unique ids. */
  lemma SeedUniqueIds()
    ensures UniqueIds(Table)
  {
  }

  /** Every seeded player is found by id. */
  lemma SeedLookup()
    ensures forall p :: p in Table ==> GetPlayerById(p.id) == Some(p)
  {
    SeedUniqueIds();
    forall p | p in Table ensures GetPlayerById(p.id) == Some(p) {
      PlayerByIdFinds(Table, p);
    }
  }
}
