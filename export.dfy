/** The export page: the CSV text `exportToCSV` builds from a list of rows,
    the row builders of the four exports, and the y-cursor pagination of
    `exportToPDF`. A row is the object literal the page builds, as its
    (property, value) pairs in insertion order. */
module Export {
  import opened Seqs
  import opened Text
  import opened Teams
  import opened Players
  import opened Matches
  import MatchesApi
  import Stats

  /** The property names the export rows use. */
  datatype Key =
    | name | city | country | conference | wins | losses | winPercentage
    | position | number | team | height | weight | age | ppg | rpg | apg
    | date | time | homeTeam | awayTeam | homeScore | awayScore | status | venue
    | rank

  /** The property name as it appears in the header line. */
  function KeyName(k: Key): (r: string)
    ensures |r| > 0 && ',' !in r && '\n' !in r
  {
    match k
    case name => "name"
    case city => "city"
    case country => "country"
    case conference => "conference"
    case wins => "wins"
    case losses => "losses"
    case winPercentage => "winPercentage"
    case position => "position"
    case number => "number"
    case team => "team"
    case height => "height"
    case weight => "weight"
    case age => "age"
    case ppg => "ppg"
    case rpg => "rpg"
    case apg => "apg"
    case date => "date"
    case time => "time"
    case homeTeam => "homeTeam"
    case awayTeam => "awayTeam"
    case homeScore => "homeScore"
    case awayScore => "awayScore"
    case status => "status"
    case venue => "venue"
    case rank => "rank"
  }

  /** A cell value: a string, an integer, or a per-game average in tenths
      (printed as JavaScript prints the number, so 18.0 is "18"). */
  datatype Value = Str(s: string) | Int(n: int) | Tenths(t: nat)

  type Row = seq<(Key, Value)>

  /** `Object.keys(row)`. */
  function KeysOf(row: Row): (r: seq<Key>)
    ensures |r| == |row| && forall i :: 0 <= i < |row| ==> r[i] == row[i].0
  {
    seq(|row|, i requires 0 <= i < |row| => row[i].0)
  }

  /** `row[key]`: the value of the first pair with the key, or `undefined`. */
  function Lookup(row: Row, key: Key): (r: Option<Value>)
    ensures r.None? <==> key !in KeysOf(row)
    ensures r.Some? ==> exists i :: 0 <= i < |row| && row[i] == (key, r.value)
  {
    if row == [] then None
    else if row[0].0 == key then Some(row[0].1)
    else
      assert KeysOf(row) == [row[0].0] + KeysOf(row[1..]);
      var r := Lookup(row[1..], key);
      assert r.Some? ==> exists i :: 0 <= i < |row[1..]| && row[1..][i] == (key, r.value);
      r
  }

  /** A string containing ',' is wrapped in double quotes; nothing else is
      escaped. Numbers print in decimal. */
  function Field(v: Value): string
  {
    match v
    case Str(s) => if ',' in s then "\"" + s + "\"" else s
    case Int(n) => IntToString(n)
    case Tenths(t) => TenthsToString(t)
  }

  /** A field whose value is missing (`undefined`) joins as the empty string. */
  function Cell(row: Row, header: Key): string
  {
    match Lookup(row, header)
    case None => ""
    case Some(v) => Field(v)
  }

  /** A header the row lacks gives an empty field; otherwise the field is
      the value of the row's first pair with that key. */
  lemma {:induction false} CellIs(row: Row, header: Key, j: nat)
    requires j <= |row|
    requires forall k :: 0 <= k < j ==> row[k].0 != header
    requires j < |row| ==> row[j].0 == header
    ensures j == |row| ==> Cell(row, header) == ""
    ensures j < |row| ==> Cell(row, header) == Field(row[j].1)
  {
    if row != [] && row[0].0 != header {
      CellIs(row[1..], header, j - 1);
    }
  }

  /** The fields of a row in header order. */
  function Cells(row: Row, headers: seq<Key>): (r: seq<string>)
    ensures |r| == |headers| && forall j :: 0 <= j < |headers| ==> r[j] == Cell(row, headers[j])
  {
    seq(|headers|, j requires 0 <= j < |headers| => Cell(row, headers[j]))
  }

  function Names(headers: seq<Key>): (r: seq<string>)
    ensures |r| == |headers| && forall j :: 0 <= j < |headers| ==> r[j] == KeyName(headers[j])
  {
    seq(|headers|, j requires 0 <= j < |headers| => KeyName(headers[j]))
  }

  /** The header line: the property names joined by ','. */
  function HeaderLine(headers: seq<Key>): string
  {
    Join(Names(headers), ",")
  }

  /** A row's line: its fields in header order joined by ','. */
  function Line(row: Row, headers: seq<Key>): string
  {
    Join(Cells(row, headers), ",")
  }

  /** One line per row. */
  function RowLines(headers: seq<Key>, data: seq<Row>): (r: seq<string>)
    ensures |r| == |data| && forall i :: 0 <= i < |data| ==> r[i] == Line(data[i], headers)
  {
    seq(|data|, i requires 0 <= i < |data| => Line(data[i], headers))
  }

  /** The lines of the file: the header line, then one line per row. */
  function CsvLines(headers: seq<Key>, data: seq<Row>): (r: seq<string>)
    ensures |r| == 1 + |data| && r[0] == HeaderLine(headers) && r[1..] == RowLines(headers, data)
  {
    [HeaderLine(headers)] + RowLines(headers, data)
  }

  /** The CSV text for the given header. */
  function CsvText(headers: seq<Key>, data: seq<Row>): string
  {
    Join(CsvLines(headers, data), "\n")
  }

  /** `Object.keys(data[0] || {})`. */
  function Header(data: seq<Row>): seq<Key>
  {
    if data == [] then [] else KeysOf(data[0])
  }

  /** The `csvContent` of `exportToCSV`, as written. */
  function ToCsv(data: seq<Row>): string
  {
    CsvText(Header(data), data)
  }

  /** Exporting nothing gives the empty file. */
  lemma ToCsvEmpty()
    ensures ToCsv([]) == ""
  {
    assert CsvLines([], []) == [""];
  }

  /** `c` does not occur in a join when it occurs in no part and not in the separator. */
  lemma {:induction false} JoinAvoids(parts: seq<string>, sep: string, c: char)
    requires c !in sep && forall i :: 0 <= i < |parts| ==> c !in parts[i]
    ensures c !in Join(parts, sep)
  {
    if |parts| > 1 {
      JoinAvoids(parts[1..], sep, c);
    }
  }

  /** Numbers print with digits, a sign and a point only. */
  lemma NumberField(v: Value, c: char)
    requires !v.Str? && !IsDigit(c) && c != '-' && c != '.'
    ensures c !in Field(v)
  {
    match v
    case Int(n) =>
    case Tenths(t) =>
      var a := NatToString(t / 10);
      if t % 10 != 0 {
        assert Fixed1(t) == a + "." + [DigitChar(t % 10)];
      }
  }

  /** No field of any row contains the character. */
  predicate FieldsAvoid(data: seq<Row>, c: char)
  {
    forall i, j :: 0 <= i < |data| && 0 <= j < |data[i]| ==> c !in Field(data[i][j].1)
  }

  /** A row's cells avoid `c` when its fields do. */
  lemma CellsAvoid(row: Row, headers: seq<Key>, c: char)
    requires forall j :: 0 <= j < |row| ==> c !in Field(row[j].1)
    ensures forall j :: 0 <= j < |headers| ==> c !in Cells(row, headers)[j]
  {
    forall j | 0 <= j < |headers| ensures c !in Cells(row, headers)[j] {
      match Lookup(row, headers[j])
      case None =>
      case Some(v) =>
        var k :| 0 <= k < |row| && row[k] == (headers[j], v);
    }
  }

  /** When no value holds a line break, the file splits back into the
      header line and one line per row: `1 + |data|` lines. */
  lemma CsvSplitsIntoLines(headers: seq<Key>, data: seq<Row>)
    requires FieldsAvoid(data, '\n')
    ensures Split(CsvText(headers, data), '\n') == CsvLines(headers, data)
    ensures |Split(CsvText(headers, data), '\n')| == 1 + |data|
  {
    var lines := CsvLines(headers, data);
    var rows := RowLines(headers, data);
    JoinAvoids(Names(headers), ",", '\n');
    forall i | 0 <= i < |rows| ensures '\n' !in rows[i] {
      CellsAvoid(data[i], headers, '\n');
      JoinAvoids(Cells(data[i], headers), ",", '\n');
    }
    assert forall k :: 1 <= k < |lines| ==> lines[k] == rows[k - 1];
    SplitJoin(lines, '\n');
  }

  /** The header line splits back into the property names. */
  lemma HeaderSplitsIntoNames(headers: seq<Key>)
    requires |headers| >= 1
    ensures Split(HeaderLine(headers), ',') == Names(headers)
  {
    SplitJoin(Names(headers), ',');
  }

  /** When no field holds a comma, a line splits back into its cells, in
      header order. */
  lemma LineSplitsIntoCells(row: Row, headers: seq<Key>)
    requires |headers| >= 1
    requires forall j :: 0 <= j < |row| ==> ',' !in Field(row[j].1)
    ensures Split(Line(row, headers), ',') == Cells(row, headers)
  {
    CellsAvoid(row, headers, ',');
    SplitJoin(Cells(row, headers), ',');
  }

  /** Reading a field back: a leading and trailing double quote are removed. */
  function Unquote(f: string): string
  {
    if |f| >= 2 && f[0] == '"' && f[|f| - 1] == '"' then f[1..|f| - 1] else f
  }

  /** A string without double quotes reads back as itself. Quotes inside a
      quoted string are not doubled, so `a,"b` does not survive. */
  lemma UnquoteField(s: string)
    requires '"' !in s
    ensures Unquote(Field(Str(s))) == s
  {
    if ',' in s {
      var f := "\"" + s + "\"";
      assert f[1..|f| - 1] == s;
    } else if |s| >= 2 {
      assert s[0] in s;
    }
  }

  // ---------------------------------------------------------------------
  // The row builders.

  function ConferenceName(c: Conference): string
  {
    match c
    case East => "East"
    case West => "West"
  }

  const TeamColumns: seq<Key> := [name, city, country, conference, wins, losses, winPercentage]

  /** A row of `exportTeamsCSV`. */
  function TeamRow(t: Team): (r: Row)
    ensures KeysOf(r) == TeamColumns
  {
    [(name, Str(t.name)), (city, Str(t.city)), (country, Str(t.country)),
     (conference, Str(ConferenceName(t.conference))), (wins, Int(t.wins)), (losses, Int(t.losses)),
     (winPercentage, Str(Stats.WinPercentage(t) + "%"))]
  }

  /** `getTeamById(id)?.name || 'Unknown'`: an empty name is falsy too. */
  function TeamName(ts: seq<Team>, id: string): (r: string)
    ensures r == "Unknown" <==> TeamById(ts, id).None? || TeamById(ts, id).value.name in {"", "Unknown"}
    ensures TeamById(ts, id).Some? && TeamById(ts, id).value.name != "" ==> r == TeamById(ts, id).value.name
  {
    match TeamById(ts, id)
    case None => "Unknown"
    case Some(t) => if t.name == "" then "Unknown" else t.name
  }

  const PlayerColumns: seq<Key> := [name, position, number, team, height, weight, age, ppg, rpg, apg]

  /** A row of `exportPlayersCSV`. */
  function PlayerRow(p: Player, ts: seq<Team>): (r: Row)
    ensures KeysOf(r) == PlayerColumns
  {
    [(name, Str(p.name)), (position, Str(PositionCode(p.position))), (number, Int(p.number)),
     (team, Str(TeamName(ts, p.teamId))), (height, Str(p.height)), (weight, Str(p.weight)),
     (age, Int(p.age)), (ppg, Tenths(p.ppg)), (rpg, Tenths(p.rpg)), (apg, Tenths(p.apg))]
  }

  /** `score || ''`: a missing score and a score of 0 both give the empty field. */
  function ScoreValue(s: Option<nat>): (r: Value)
    ensures Field(r) == "" <==> s.None? || s.value == 0
    ensures s.Some? && s.value != 0 ==> r == Int(s.value)
  {
    match s
    case None => Str("")
    case Some(n) => if n == 0 then Str("") else Int(n)
  }

  const MatchColumns: seq<Key> := [date, time, homeTeam, awayTeam, homeScore, awayScore, status, venue]

  /** A row of `exportMatchesCSV`; `day` is the locale rendering of the
      match date, which is a parameter here. */
  function MatchRow(m: Match, ts: seq<Team>, day: string): (r: Row)
    ensures KeysOf(r) == MatchColumns
  {
    [(date, Str(day)), (time, Str(m.time)),
     (homeTeam, Str(TeamName(ts, m.homeTeamId))), (awayTeam, Str(TeamName(ts, m.awayTeamId))),
     (homeScore, ScoreValue(m.homeScore)), (awayScore, ScoreValue(m.awayScore)),
     (status, Str(MatchesApi.StatusName(m.status))), (venue, Str(m.venue))]
  }

  function TeamsData(ts: seq<Team>): (r: seq<Row>)
    ensures |r| == |ts| && forall i :: 0 <= i < |ts| ==> r[i] == TeamRow(ts[i])
  {
    seq(|ts|, i requires 0 <= i < |ts| => TeamRow(ts[i]))
  }

  function PlayersData(ps: seq<Player>, ts: seq<Team>): (r: seq<Row>)
    ensures |r| == |ps| && forall i :: 0 <= i < |ps| ==> r[i] == PlayerRow(ps[i], ts)
  {
    seq(|ps|, i requires 0 <= i < |ps| => PlayerRow(ps[i], ts))
  }

  function MatchesData(ms: seq<Match>, ts: seq<Team>, dayOf: int -> string): (r: seq<Row>)
    ensures |r| == |ms| && forall i :: 0 <= i < |ms| ==> r[i] == MatchRow(ms[i], ts, dayOf(ms[i].date))
  {
    seq(|ms|, i requires 0 <= i < |ms| => MatchRow(ms[i], ts, dayOf(ms[i].date)))
  }

  /** The conference marker row `{ conference: name }`. */
  function Marker(title: string): (r: Row)
    ensures KeysOf(r) == [conference] && Lookup(r, conference) == Some(Str(title))
  {
    [(conference, Str(title))]
  }

  const StandingColumns: seq<Key> := [rank, team, wins, losses, winPercentage]

  /** A team row of `standingsData`. */
  function StandingRow(t: Team, place: nat): (r: Row)
    ensures KeysOf(r) == StandingColumns
  {
    [(rank, Int(place)), (team, Str(t.name)), (wins, Int(t.wins)), (losses, Int(t.losses)),
     (winPercentage, Str(Stats.WinPercentage(t) + "%"))]
  }

  /** The team rows of one conference's ranking, ranked from 1. */
  function RankRows(ranked: seq<Team>): (r: seq<Row>)
    ensures |r| == |ranked| && forall i :: 0 <= i < |r| ==> r[i] == StandingRow(ranked[i], i + 1)
  {
    seq(|ranked|, i requires 0 <= i < |ranked| => StandingRow(ranked[i], i + 1))
  }

  /** `standingsData` for the East and West rankings: the East marker, the
      East teams ranked 1..n, the West marker, the West teams ranked 1..m. */
  function StandingsRows(east: seq<Team>, west: seq<Team>): (r: seq<Row>)
    ensures |r| == 2 + |east| + |west|
    ensures r[0] == Marker("Eastern Conference") && r[|east| + 1] == Marker("Western Conference")
    ensures r[1..|east| + 1] == RankRows(east) && r[|east| + 2..] == RankRows(west)
  {
    var e := [Marker("Eastern Conference")] + RankRows(east);
    assert e[1..] == RankRows(east);
    e + [Marker("Western Conference")] + RankRows(west)
  }

  /** `standingsData`, with each conference ranked by win percentage. */
  function StandingsData(ts: seq<Team>): seq<Row>
    requires HavePlayed(ts)
  {
    StandingsRows(ByConference(ts, East), ByConference(ts, West))
  }

  // ---------------------------------------------------------------------
  // The standings export as written, and with a header of all the keys.

  /** A marker row's line under the header `conference` is its title. */
  lemma MarkerLine(title: string)
    requires ',' !in title
    ensures Line(Marker(title), [conference]) == title
  {
  }

  /** A row without a `conference` property has an empty line under that header. */
  lemma NoConferenceBlank(row: Row)
    requires KeysOf(row) == StandingColumns
    ensures Line(row, [conference]) == ""
  {
    assert conference !in StandingColumns;
  }

  /** Rows 1..n are the East teams in rank order. */
  lemma EastRow(east: seq<Team>, west: seq<Team>, i: nat)
    requires 1 <= i <= |east|
    ensures StandingsRows(east, west)[i] == StandingRow(east[i - 1], i)
  {
    var data := StandingsRows(east, west);
    assert data[i] == data[1..|east| + 1][i - 1];
  }

  /** The rows after the West marker are the West teams in rank order. */
  lemma WestRow(east: seq<Team>, west: seq<Team>, i: nat)
    requires |east| + 2 <= i < |east| + 2 + |west|
    ensures StandingsRows(east, west)[i] == StandingRow(west[i - |east| - 2], i - |east| - 1)
  {
    var data := StandingsRows(east, west);
    assert data[i] == data[|east| + 2..][i - |east| - 2];
  }

  /** The marker rows' lines under the header `conference` are the conference names. */
  lemma MarkerLines(east: seq<Team>, west: seq<Team>)
    ensures var data := StandingsRows(east, west);
      Line(data[0], [conference]) == "Eastern Conference" &&
      Line(data[|east| + 1], [conference]) == "Western Conference"
  {
    MarkerLine("Eastern Conference");
    MarkerLine("Western Conference");
  }

  /** An East team row's line under the header `conference` is empty. */
  lemma EastLine(east: seq<Team>, west: seq<Team>, i: nat)
    requires 0 < i <= |east|
    ensures Line(StandingsRows(east, west)[i], [conference]) == ""
  {
    EastRow(east, west, i);
    NoConferenceBlank(StandingsRows(east, west)[i]);
  }

  /** A West team row's line under the header `conference` is empty. */
  lemma WestLine(east: seq<Team>, west: seq<Team>, i: nat)
    requires |east| + 2 <= i < 2 + |east| + |west|
    ensures Line(StandingsRows(east, west)[i], [conference]) == ""
  {
    WestRow(east, west, i);
    NoConferenceBlank(StandingsRows(east, west)[i]);
  }

  /** The row lines the standings file has as written. */
  function AsWrittenRows(e: nat, w: nat): (r: seq<string>)
    ensures |r| == 2 + e + w && r[0] == "Eastern Conference" && r[e + 1] == "Western Conference"
    ensures forall k :: 0 < k < |r| && k != e + 1 ==> r[k] == ""
  {
    var a := ["Eastern Conference"] + Blanks(e);
    assert forall k :: 1 <= k < |a| ==> a[k] == Blanks(e)[k - 1];
    var b := ["Western Conference"] + Blanks(w);
    assert forall k :: 1 <= k < |b| ==> b[k] == Blanks(w)[k - 1];
    a + b
  }

  /** The lines the standings file has as written: the header `conference`,
      the two conference names, and an empty line for every team. */
  function AsWrittenLines(e: nat, w: nat): seq<string>
  {
    ["conference"] + AsWrittenRows(e, w)
  }

  /** Two lists of lines agree when they agree on the two marker positions
      and every other line is empty. */
  lemma SameLines(lines: seq<string>, want: seq<string>, e: nat)
    requires |lines| == |want| && e + 1 < |want|
    requires lines[0] == want[0] && lines[e + 1] == want[e + 1]
    requires forall i :: 0 < i < |want| && i != e + 1 ==> want[i] == ""
    requires forall i :: 0 < i <= e ==> lines[i] == ""
    requires forall i :: e + 2 <= i < |lines| ==> lines[i] == ""
    ensures lines == want
  {
  }

  /** Under the header `conference`, the standings data gives the lines of `AsWrittenRows`. */
  lemma StandingsLines(east: seq<Team>, west: seq<Team>)
    ensures RowLines([conference], StandingsRows(east, west)) == AsWrittenRows(|east|, |west|)
  {
    var data := StandingsRows(east, west);
    var lines := RowLines([conference], data);
    var want := AsWrittenRows(|east|, |west|);
    MarkerLines(east, west);
    forall i | 0 < i <= |east| ensures lines[i] == "" {
      EastLine(east, west, i);
    }
    forall i | |east| + 2 <= i < |lines| ensures lines[i] == "" {
      WestLine(east, west, i);
    }
    SameLines(lines, want, |east|);
  }

  function Blanks(n: nat): (r: seq<string>)
    ensures |r| == n && forall i :: 0 <= i < n ==> r[i] == ""
  {
    seq(n, i => "")
  }

  /** No line of the standings file holds a line break. */
  lemma AsWrittenNoBreaks(e: nat, w: nat)
    ensures forall k :: 0 <= k < |AsWrittenLines(e, w)| ==> '\n' !in AsWrittenLines(e, w)[k]
  {
    var r := AsWrittenLines(e, w);
    var rows := AsWrittenRows(e, w);
    assert forall k :: 1 <= k < |r| ==> r[k] == rows[k - 1];
    assert '\n' !in rows[0] && '\n' !in rows[e + 1];
  }

  /** The standings file as written: its only column is `conference`, taken
      from the marker row, so every team row is an empty line. */
  lemma StandingsCsvAsWritten(east: seq<Team>, west: seq<Team>)
    ensures Split(ToCsv(StandingsRows(east, west)), '\n') == AsWrittenLines(|east|, |west|)
  {
    var data := StandingsRows(east, west);
    assert data[0] == Marker("Eastern Conference") && Header(data) == [conference];
    StandingsLines(east, west);
    assert HeaderLine([conference]) == "conference";
    assert CsvLines([conference], data) == AsWrittenLines(|east|, |west|);
    AsWrittenNoBreaks(|east|, |west|);
    SplitJoin(AsWrittenLines(|east|, |west|), '\n');
  }

  /** As written, a ranked team has a `team` property that the header of
      the standings file leaves out. */
  lemma StandingsDropsTeams(east: seq<Team>, west: seq<Team>)
    requires east != []
    ensures var data := StandingsRows(east, west);
      team in KeysOf(data[1]) && team !in Header(data)
  {
    var data := StandingsRows(east, west);
    assert data[1] == StandingRow(east[0], 1);
    assert data[0] == Marker("Eastern Conference");
  }

  /** The filter `key not yet in acc`. */
  function NotIn(acc: seq<Key>): Key -> bool
  {
    (k: Key) => k !in acc
  }

  /** Every key of every row, in order of first appearance. */
  function AllKeys(data: seq<Row>): seq<Key>
  {
    if data == [] then []
    else
      var acc := AllKeys(data[..|data| - 1]);
      acc + Filter(KeysOf(data[|data| - 1]), NotIn(acc))
  }

  /** No key of any row is left out of `AllKeys`. */
  lemma {:induction false} AllKeysCovers(data: seq<Row>)
    ensures forall i, k :: 0 <= i < |data| && k in KeysOf(data[i]) ==> k in AllKeys(data)
  {
    if data != [] {
      var init := data[..|data| - 1];
      AllKeysCovers(init);
      var acc := AllKeys(init);
      forall i, k | 0 <= i < |data| && k in KeysOf(data[i]) ensures k in AllKeys(data) {
        if i < |init| {
          assert data[i] == init[i];
        } else if k !in acc {
          assert k in Filter(KeysOf(data[i]), NotIn(acc));
        }
      }
    }
  }

  /** Only keys of some row are in `AllKeys`. */
  lemma {:induction false} AllKeysFromRows(data: seq<Row>)
    ensures forall k :: k in AllKeys(data) ==> exists i :: 0 <= i < |data| && k in KeysOf(data[i])
  {
    if data != [] {
      var init := data[..|data| - 1];
      AllKeysFromRows(init);
      forall k | k in AllKeys(data) ensures exists i :: 0 <= i < |data| && k in KeysOf(data[i]) {
        if k in AllKeys(init) {
          var i :| 0 <= i < |init| && k in KeysOf(init[i]);
          assert data[i] == init[i];
        } else {
          assert k in KeysOf(data[|data| - 1]);
        }
      }
    }
  }

  /** When every row has the same keys, `AllKeys` is the key list of the first row. */
  lemma {:induction false} AllKeysUniform(data: seq<Row>, ks: seq<Key>)
    requires data != [] && forall i :: 0 <= i < |data| ==> KeysOf(data[i]) == ks
    ensures AllKeys(data) == ks
  {
    var init := data[..|data| - 1];
    if init == [] {
      FilterAll(ks, NotIn([]));
    } else {
      AllKeysUniform(init, ks);
      FilterNone(ks, NotIn(ks));
    }
  }

  /** The `csvContent` with a header of every key of every row. */
  function ToCsvAllKeys(data: seq<Row>): string
  {
    CsvText(AllKeys(data), data)
  }

  /** With a header of every key, each value of each row appears in its
      line, under its key's column. */
  lemma AllKeysKeepsValues(data: seq<Row>, i: nat, j: nat)
    requires i < |data| && j < |data[i]|
    ensures var h := AllKeys(data); var key := data[i][j].0;
      key in h && Lookup(data[i], key).Some? &&
      forall col :: 0 <= col < |h| && h[col] == key ==> Cells(data[i], h)[col] == Field(Lookup(data[i], key).value)
  {
    AllKeysCovers(data);
    assert KeysOf(data[i])[j] == data[i][j].0;
  }

  /** For the teams export every row has the same keys, so the header of
      every key changes nothing; likewise for players and matches. */
  lemma TeamsExportUnchanged(ts: seq<Team>)
    ensures ToCsvAllKeys(TeamsData(ts)) == ToCsv(TeamsData(ts))
  {
    if ts != [] { AllKeysUniform(TeamsData(ts), TeamColumns); }
  }

  lemma PlayersExportUnchanged(ps: seq<Player>, ts: seq<Team>)
    ensures ToCsvAllKeys(PlayersData(ps, ts)) == ToCsv(PlayersData(ps, ts))
  {
    if ps != [] { AllKeysUniform(PlayersData(ps, ts), PlayerColumns); }
  }

  lemma MatchesExportUnchanged(ms: seq<Match>, ts: seq<Team>, dayOf: int -> string)
    ensures ToCsvAllKeys(MatchesData(ms, ts, dayOf)) == ToCsv(MatchesData(ms, ts, dayOf))
  {
    if ms != [] { AllKeysUniform(MatchesData(ms, ts, dayOf), MatchColumns); }
  }

  /** The standings file with a header of every key: when a conference has
      a team, its columns are `conference` and the five team columns. */
  lemma StandingsColumns(east: seq<Team>, west: seq<Team>)
    requires east != [] || west != []
    ensures forall k :: k in AllKeys(StandingsRows(east, west)) <==> k == conference || k in StandingColumns
  {
    var data := StandingsRows(east, west);
    var e := |east|;
    AllKeysCovers(data);
    AllKeysFromRows(data);
    if east != [] {
      EastRow(east, west, 1);
    } else {
      WestRow(east, west, e + 2);
    }
    forall i | 0 <= i < |data| ensures forall k :: k in KeysOf(data[i]) ==> k == conference || k in StandingColumns {
      RowKeys(east, west, i);
    }
  }

  /** Each row of the standings data is a marker or a team row. */
  lemma RowKeys(east: seq<Team>, west: seq<Team>, i: nat)
    requires i < 2 + |east| + |west|
    ensures KeysOf(StandingsRows(east, west)[i]) in {[conference], StandingColumns}
  {
    if 0 < i <= |east| {
      EastRow(east, west, i);
    } else if i > |east| + 1 {
      WestRow(east, west, i);
    }
  }

  // ---------------------------------------------------------------------
  // PDF pagination.

  /** Where the next item goes: the page number (from 1) and the y cursor. */
  datatype Cursor = Cursor(page: nat, y: int)

  /** Where an item was written. */
  datatype Placement = Placement(page: nat, y: int)

  const Start := Cursor(1, 40)

  /** Before an item: a new page when the cursor is past 250. */
  function Place(c: Cursor): Cursor
  {
    if c.y > 250 then Cursor(c.page + 1, 20) else c
  }

  /** After an item of `lines` wrapped lines: the cursor moves down 10 per line. */
  function Advance(c: Cursor, lines: nat): Cursor
  {
    var p := Place(c);
    Cursor(p.page, p.y + 10 * lines)
  }

  /** The cursor after the items with the given wrapped line counts. */
  function CursorAfter(lines: seq<nat>): Cursor
  {
    if lines == [] then Start else Advance(CursorAfter(lines[..|lines| - 1]), lines[|lines| - 1])
  }

  /** Where each item goes. */
  function Layout(lines: seq<nat>): (r: seq<Placement>)
    ensures |r| == |lines|
  {
    if lines == [] then []
    else
      var c := Place(CursorAfter(lines[..|lines| - 1]));
      Layout(lines[..|lines| - 1]) + [Placement(c.page, c.y)]
  }

  /** The `forEach` loop of `exportToPDF`; `lines[i]` is the number of lines
      `splitTextToSize` wraps item `i` into. Returns where each item was
      written and the number of pages. */
  method Paginate(lines: seq<nat>) returns (placed: seq<Placement>, pages: nat)
    ensures placed == Layout(lines) && pages == CursorAfter(lines).page
  {
    var y := 40;
    pages := 1;
    placed := [];
    for i := 0 to |lines|
      invariant CursorAfter(lines[..i]) == Cursor(pages, y)
      invariant placed == Layout(lines[..i])
    {
      assert lines[..i + 1][..i] == lines[..i];
      if y > 250 {
        pages := pages + 1;
        y := 20;
      }
      placed := placed + [Placement(pages, y)];
      y := y + 10 * lines[i];
    }
    assert lines[..|lines|] == lines;
  }

  /** The cursor never goes above the top margin. */
  lemma {:induction false} CursorBelowTop(lines: seq<nat>)
    ensures CursorAfter(lines).y >= 20 && CursorAfter(lines).page >= 1
  {
    if lines != [] { CursorBelowTop(lines[..|lines| - 1]); }
  }

  /** Every item starts between y = 20 and y = 250; the first at y = 40 on
      page 1; each item is on the page of the one before or the next page,
      and an item that opens a page starts at y = 20. */
  lemma {:induction false} LayoutBounds(lines: seq<nat>)
    ensures var r := Layout(lines);
      (forall i :: 0 <= i < |r| ==> 20 <= r[i].y <= 250) &&
      (|r| > 0 ==> r[0] == Placement(1, 40)) &&
      (forall i :: 0 < i < |r| ==> r[i].page == r[i - 1].page || (r[i].page == r[i - 1].page + 1 && r[i].y == 20))
  {
    if lines != [] {
      var init := lines[..|lines| - 1];
      LayoutBounds(init);
      CursorBelowTop(init);
      var r := Layout(lines);
      var n := |init|;
      assert r[..n] == Layout(init);
      if n > 0 {
        var prev := Place(CursorAfter(init[..n - 1]));
        assert init[..n - 1] == lines[..n - 1];
        assert r[n - 1] == Layout(init)[n - 1];
        assert Layout(init)[n - 1] == Placement(prev.page, prev.y);
        assert CursorAfter(init) == Cursor(prev.page, prev.y + 10 * init[n - 1]);
      }
    }
  }

  /** The cursor after the items is just below the last one placed. */
  lemma CursorAfterLast(lines: seq<nat>)
    requires lines != []
    ensures var n := |lines|; var last := Layout(lines)[n - 1];
      CursorAfter(lines) == Cursor(last.page, last.y + 10 * lines[n - 1])
  {
  }

  /** Each item goes just below the one before, unless that leaves the
      cursor past 250: then it opens the next page at y = 20. The document
      has as many pages as the page of its last item. */
  lemma LayoutSteps(lines: seq<nat>)
    ensures var r := Layout(lines);
      (forall i :: 0 < i < |r| ==>
        var y := r[i - 1].y + 10 * lines[i - 1];
        r[i] == if y > 250 then Placement(r[i - 1].page + 1, 20) else Placement(r[i - 1].page, y)) &&
      CursorAfter(lines).page == if lines == [] then 1 else r[|r| - 1].page
  {
    var r := Layout(lines);
    forall i | 0 < i < |r|
      ensures var y := r[i - 1].y + 10 * lines[i - 1];
        r[i] == if y > 250 then Placement(r[i - 1].page + 1, 20) else Placement(r[i - 1].page, y)
    {
      LayoutStep(lines, i);
    }
    if lines != [] { CursorAfterLast(lines); }
  }

  /** Item `i` goes just below item `i - 1`, or at the top of the next page. */
  lemma LayoutStep(lines: seq<nat>, i: nat)
    requires 0 < i < |lines|
    ensures var r := Layout(lines); var y := r[i - 1].y + 10 * lines[i - 1];
      r[i] == if y > 250 then Placement(r[i - 1].page + 1, 20) else Placement(r[i - 1].page, y)
  {
    LayoutPrefix(lines, i + 1);
    LayoutPrefix(lines, i);
    var p := lines[..i];
    assert lines[..i + 1][..i] == p;
    CursorAfterLast(p);
  }

  /** The layout of a prefix is a prefix of the layout. */
  lemma {:induction false} LayoutPrefix(lines: seq<nat>, n: nat)
    requires n <= |lines|
    ensures Layout(lines[..n]) == Layout(lines)[..n]
  {
    if n < |lines| {
      var init := lines[..|lines| - 1];
      assert lines[..n] == init[..n];
      LayoutPrefix(init, n);
    } else {
      assert lines[..n] == lines;
    }
  }
}
