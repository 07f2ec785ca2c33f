/** The live spectator mode of app/live/page.tsx: a game clock that one tick
    per second runs down, quarter by quarter, while random play-by-play
    events (some of them baskets) are prepended to a log.

    Everything the page draws from `Math.random` and `Date.now` during one
    tick is handed in as one `Draw`, so a tick is a deterministic, atomic
    transition. The React state and the `isLive` flag are the fields of one
    `Game` object. */
module LiveGame {
  import opened Text

  datatype EventType = Score | Foul | Timeout | Substitution | QuarterEnd
  datatype Side = Home | Away
  datatype Status = NotStarted | Live | Paused | Finished

  datatype GameEvent = GameEvent(
    id: string, kind: EventType, team: Side, description: string, timestamp: int, quarter: int)

  /** The state record the page keeps, without the `isLive` flag. */
  datatype GameState = GameState(
    homeScore: nat, awayScore: nat, quarter: int, timeRemaining: int,
    status: Status, events: seq<GameEvent>, lastUpdate: int)

  /** Twelve minutes per quarter, in seconds. */
  const QuarterLength: int := 12 * 60

  /** The types a random event is drawn from: never `QuarterEnd`. */
  const EventTypes: seq<EventType> := [Score, Foul, Timeout, Substitution]

  const Sides: seq<Side> := [Home, Away]

  /** The description catalog, one list per event type. */
  function Descriptions(t: EventType): (r: seq<string>)
    ensures |r| >= 1
  {
    match t
    case Score => ["Fast break layup", "Three-pointer from downtown", "Mid-range jumper",
                   "Free throw", "Slam dunk", "Step-back three", "Alley-oop finish"]
    case Foul => ["Personal foul called", "Shooting foul", "Defensive foul", "Offensive foul"]
    case Timeout => ["Timeout called", "TV timeout", "Official timeout"]
    case Substitution => ["Player substitution", "Lineup change"]
    case QuarterEnd => ["End of quarter"]
  }

  /** What one tick draws from `Math.random` and `Date.now`: the 15% gate,
      and, used only when an event fires, the event type, the team, the
      description, the points of a basket, the event id, the clock reading
      that stamps the event and the later clock reading that becomes the
      state's `lastUpdate`. */
  datatype Draw = Draw(
    gate: bool, typeIndex: nat, teamIndex: nat, descIndex: nat, points: nat, id: string,
    now: int, updated: int)

  /** The ranges `Math.floor(Math.random() * n)` and `floor(random * 3) + 1` produce. */
  predicate ValidDraw(d: Draw)
  {
    d.typeIndex < |EventTypes| && d.teamIndex < |Sides| &&
    d.descIndex < |Descriptions(EventTypes[d.typeIndex])| &&
    1 <= d.points <= 3
  }

  /** generateRandomEvent: the event the draws select, stamped with `quarter`. */
  function GenerateEvent(quarter: int, d: Draw): (e: GameEvent)
    requires ValidDraw(d)
    ensures e.kind in EventTypes && e.kind != QuarterEnd
    ensures e.team in Sides
    ensures e.description in Descriptions(e.kind)
    ensures e.quarter == quarter && e.id == d.id && e.timestamp == d.now
  {
    var kind := EventTypes[d.typeIndex];
    GameEvent(d.id, kind, Sides[d.teamIndex], Descriptions(kind)[d.descIndex], d.now, quarter)
  }

  /** The points a tick adds to `side`: only a basket by that side scores. */
  function PointsFor(side: Side, fired: bool, e: GameEvent, d: Draw): (p: nat)
    ensures p <= 3 || !ValidDraw(d)
    ensures p > 0 ==> fired && e.kind == Score && e.team == side
    ensures fired && e.kind == Score && e.team == side ==> p == d.points
  {
    if fired && e.kind == Score && e.team == side then d.points else 0
  }

  class Game {
    var homeScore: nat
    var awayScore: nat
    var quarter: int
    var timeRemaining: int
    var status: Status
    var events: seq<GameEvent>
    var lastUpdate: int
    var isLive: bool

    /** The invariant every reachable state keeps: the clock and the quarter
        stay in range, the interval runs exactly while the game is live, a
        finished game ended on the last second of the fourth quarter, and an
        unfinished one always has time left. */
    ghost predicate Valid()
      reads this
    {
      1 <= quarter <= 4 && 0 <= timeRemaining <= QuarterLength &&
      (isLive <==> status == Live) &&
      (status == Finished ==> quarter == 4 && timeRemaining == 0) &&
      (status != Finished ==> timeRemaining >= 1)
    }

    function State(): GameState
      reads this
    {
      GameState(homeScore, awayScore, quarter, timeRemaining, status, events, lastUpdate)
    }

    /** The state the page starts with. */
    constructor (now: int)
      ensures Valid()
      ensures State() == GameState(0, 0, 1, QuarterLength, NotStarted, [], now) && !isLive
    {
      homeScore, awayScore := 0, 0;
      quarter, timeRemaining := 1, QuarterLength;
      status, events, lastUpdate := NotStarted, [], now;
      isLive := false;
    }

    /** updateGameState: one second of play. */
    method Tick(d: Draw)
      requires Valid() && ValidDraw(d)
      modifies this
      ensures Valid()
      // A tick does nothing unless the game is live.
      ensures !old(isLive) || old(status) == Finished ==> State() == old(State()) && isLive == old(isLive)
      // The clock runs down by one second within a quarter ...
      ensures old(isLive) && old(status) != Finished && old(timeRemaining) > 1 ==>
        timeRemaining == old(timeRemaining) - 1 && quarter == old(quarter) && status == Live && isLive
      // ... the next quarter starts with a full clock ...
      ensures old(isLive) && old(status) != Finished && old(timeRemaining) == 1 && old(quarter) < 4 ==>
        timeRemaining == QuarterLength && quarter == old(quarter) + 1 && status == Live && isLive
      // ... and the end of the fourth quarter ends the game.
      ensures old(isLive) && old(status) != Finished && old(timeRemaining) == 1 && old(quarter) >= 4 ==>
        timeRemaining == 0 && quarter == old(quarter) && status == Finished && !isLive
      // An event fires only on the 15% gate and a clock at a multiple of 30
      // seconds; it is prepended, and only it changes a score or the time stamp.
      ensures old(isLive) && old(status) != Finished ==>
        var fired := d.gate && timeRemaining % 30 == 0;
        var e := GenerateEvent(old(quarter), d);
        events == (if fired then [e] + old(events) else old(events)) &&
        lastUpdate == (if fired then d.updated else old(lastUpdate)) &&
        homeScore == old(homeScore) + PointsFor(Home, fired, e, d) &&
        awayScore == old(awayScore) + PointsFor(Away, fired, e, d)
    {
      if !isLive || status == Finished {
        return;
      }
      // The event is built by a callback that closes over the rendered
      // state, so it carries the quarter from before this tick.
      var e := GenerateEvent(quarter, d);

      timeRemaining := timeRemaining - 1;
      if timeRemaining <= 0 {
        if quarter >= 4 {
          status := Finished;
          isLive := false;
        } else {
          quarter := quarter + 1;
          timeRemaining := QuarterLength;
        }
      }

      if d.gate && timeRemaining % 30 == 0 {
        if e.kind == Score {
          if e.team == Home {
            homeScore := homeScore + d.points;
          } else {
            awayScore := awayScore + d.points;
          }
        }
        events := [e] + events;
        lastUpdate := d.updated;
      }
    }

    /** startGame: a fresh game, running. */
    method StartGame(now: int)
      modifies this
      ensures Valid()
      ensures State() == GameState(0, 0, 1, QuarterLength, Live, [], now) && isLive
    {
      homeScore, awayScore := 0, 0;
      quarter, timeRemaining := 1, QuarterLength;
      status, events, lastUpdate := Live, [], now;
      isLive := true;
    }

    /** pauseGame: stops the interval; nothing but the status changes. */
    method PauseGame()
      requires Valid()
      modifies this
      ensures old(status) != Finished ==> Valid()
      ensures State() == old(State()).(status := Paused) && !isLive
    {
      isLive := false;
      status := Paused;
    }

    /** resumeGame: restarts the interval; nothing but the status changes. */
    method ResumeGame()
      requires Valid()
      modifies this
      ensures old(status) != Finished ==> Valid()
      ensures State() == old(State()).(status := Live) && isLive
    {
      isLive := true;
      status := Live;
    }

    /** resetGame: a fresh game, not started. */
    method ResetGame(now: int)
      modifies this
      ensures Valid()
      ensures State() == GameState(0, 0, 1, QuarterLength, NotStarted, [], now) && !isLive
    {
      isLive := false;
      homeScore, awayScore := 0, 0;
      quarter, timeRemaining := 1, QuarterLength;
      status, events, lastUpdate := NotStarted, [], now;
    }

    /** Pausing a live game and resuming it at once gives back the same game. */
    method PauseThenResume()
      requires Valid() && status == Live
      modifies this
      ensures Valid() && State() == old(State()) && isLive == old(isLive)
    {
      PauseGame();
      ResumeGame();
    }

    /** Pausing twice is the same as pausing once. */
    method PauseTwice()
      requires Valid() && status != Finished
      modifies this
      ensures Valid() && State() == old(State()).(status := Paused) && !isLive
    {
      PauseGame();
      PauseGame();
    }
  }

  /** A control the page offers, or one tick of the interval. */
  datatype Action = TickAction(d: Draw) | StartAction | PauseAction | ResumeAction | ResetAction

  /** The controls the page shows for a status: Start before the game,
      Pause while live, Resume and Reset while paused; "New Game" (also
      resetGame) and the interval's tick are always there. */
  predicate Offered(a: Action, s: Status)
  {
    match a
    case TickAction(d) => ValidDraw(d)
    case StartAction => s == NotStarted
    case PauseAction => s == Live
    case ResumeAction => s == Paused
    case ResetAction => true
  }

  /** Any session of offered controls and ticks keeps the game in range, and
      within a game the scores never go down. */
  method RunSession(g: Game, actions: seq<Action>, clock: int)
    requires g.Valid()
    requires forall i :: 0 <= i < |actions| ==> actions[i].TickAction? ==> ValidDraw(actions[i].d)
    modifies g
    ensures g.Valid()
    ensures (forall i :: 0 <= i < |actions| ==> !actions[i].StartAction? && !actions[i].ResetAction?) ==>
      g.homeScore >= old(g.homeScore) && g.awayScore >= old(g.awayScore)
  {
    var i := 0;
    while i < |actions|
      invariant 0 <= i <= |actions| && g.Valid()
      invariant (forall j :: 0 <= j < i ==> !actions[j].StartAction? && !actions[j].ResetAction?) ==>
        g.homeScore >= old(g.homeScore) && g.awayScore >= old(g.awayScore)
    {
      var a := actions[i];
      if Offered(a, g.status) {
        match a
        case TickAction(d) => g.Tick(d);
        case StartAction => g.StartGame(clock);
        case PauseAction => g.PauseGame();
        case ResumeAction => g.ResumeGame();
        case ResetAction => g.ResetGame(clock);
      }
      i := i + 1;
    }
  }

  /** With the 15% gate never passing, 720 ticks after the start play out the
      first quarter and nothing else. */
  method QuietFirstQuarter(now: int) returns (g: Game)
    ensures g.Valid() && g.isLive
    ensures g.State() == GameState(0, 0, 2, QuarterLength, Live, [], now)
  {
    g := new Game(now);
    g.StartGame(now);
    var quiet := Draw(false, 0, 0, 0, 1, "", now, now);
    var n := 0;
    while n < QuarterLength
      invariant 0 <= n <= QuarterLength && g.Valid() && g.isLive
      invariant n < QuarterLength ==> g.State() == GameState(0, 0, 1, QuarterLength - n, Live, [], now)
      invariant n == QuarterLength ==> g.State() == GameState(0, 0, 2, QuarterLength, Live, [], now)
    {
      g.Tick(quiet);
      n := n + 1;
    }
  }

  /** The last second of the fourth quarter ends the game; a tick after
      that changes nothing. */
  method FinalSecond(g: Game, d1: Draw, d2: Draw)
    requires g.Valid() && g.status == Live && g.quarter == 4 && g.timeRemaining == 1
    requires ValidDraw(d1) && ValidDraw(d2)
    modifies g
    ensures g.Valid() && g.status == Finished && !g.isLive && g.timeRemaining == 0
    ensures g.quarter == 4 && g.homeScore >= old(g.homeScore) && g.awayScore >= old(g.awayScore)
  {
    g.Tick(d1);
    ghost var after := g.State();
    g.Tick(d2);
    assert g.State() == after;
  }

  /** formatTime: minutes, a colon, and the seconds padded to two digits. */
  function FormatTime(seconds: nat): string
  {
    NatToString(seconds / 60) + ":" + PadStart2(NatToString(seconds % 60))
  }

  /** Reads a clock face `m:ss` back into seconds. */
  function ParseClock(s: string): int
  {
    var parts := Split(s, ':');
    if |parts| == 2 && (forall k :: 0 <= k < |parts[0]| ==> IsDigit(parts[0][k]))
                   && (forall k :: 0 <= k < |parts[1]| ==> IsDigit(parts[1][k]))
    then 60 * ParseNat(parts[0]) + ParseNat(parts[1])
    else -1
  }

  lemma PaddedSeconds(x: nat)
    requires x < 60
    ensures var p := PadStart2(NatToString(x));
      |p| == 2 && (forall k :: 0 <= k < 2 ==> IsDigit(p[k])) && ParseNat(p) == x
  {
    var p := PadStart2(NatToString(x));
    if x < 10 {
      assert p == ['0', DigitChar(x)];
      assert p[..|p| - 1] == ['0'];
      assert ['0'][..0] == [];
      assert ParseNat(['0']) == 0;
    } else {
      assert NatToString(x) == NatToString(x / 10) + [DigitChar(x % 10)];
      ParseNatToString(x);
    }
  }

  /** The clock face shows exactly the seconds left: its seconds field has
      two digits and reading it back gives the number formatted. */
  lemma FormatTimeRoundTrip(seconds: nat)
    ensures ParseClock(FormatTime(seconds)) == seconds
    ensures var t := FormatTime(seconds); |t| >= 4 && t[|t| - 3] == ':'
  {
    var m := NatToString(seconds / 60);
    var ss := PadStart2(NatToString(seconds % 60));
    PaddedSeconds(seconds % 60);
    ParseNatToString(seconds / 60);
    assert forall k :: 0 <= k < |m| ==> m[k] != ':';
    assert forall k :: 0 <= k < |ss| ==> ss[k] != ':';
    assert Join([m, ss], [':']) == FormatTime(seconds);
    SplitJoin([m, ss], ':');
  }

  /** The team shown as winner of a finished game: home only with strictly
      more points, so a tie shows the away team. */
  function Winner(homeScore: nat, awayScore: nat): (w: Side)
    ensures w == Home <==> homeScore > awayScore
    ensures homeScore == awayScore ==> w == Away
  {
    if homeScore > awayScore then Home else Away
  }
}
