/** The teams page: each conference's teams as cards, most wins first, with
    a trophy on the first card. */
module TeamsPage {
  import opened Seqs
  import opened Sorting
  import opened Teams

  /** The comparator key `b.wins - a.wins`. */
  function Wins(t: Team): Ratio { Ratio(t.wins, 1) }

  /** The ranking class of `w` wins. */
  function WinsAre(w: nat): Team -> bool
  {
    (t: Team) => t.wins == w
  }

  /** `teams.filter(conference === c).sort((a, b) => b.wins - a.wins)`. */
  function ByWins(ts: seq<Team>, c: Conference): (r: seq<Team>)
    ensures forall t :: t in r <==> t in ts && t.conference == c
    ensures multiset(r) == multiset(Filter(ts, OfConference(c)))
    ensures forall i, j :: 0 <= i < j < |r| ==> r[i].wins >= r[j].wins
  {
    var f := Filter(ts, OfConference(c));
    var r := SortDesc(f, Wins);
    assert forall t :: t in r <==> t in multiset(f);
    assert forall t :: t in f <==> t in ts && t.conference == c;
    assert forall i, j :: 0 <= i < j < |r| ==> AtLeast(Wins(r[i]), Wins(r[j]));
    r
  }

  /** Teams of a conference with the same number of wins keep table order. */
  lemma ByWinsStable(ts: seq<Team>, c: Conference, w: nat)
    ensures Filter(ByWins(ts, c), WinsAre(w)) == Filter(Filter(ts, OfConference(c)), WinsAre(w))
  {
    SortDescStable(Filter(ts, OfConference(c)), Wins, Ratio(w, 1), WinsAre(w));
  }

  datatype Card = Card(team: Team, trophy: bool)

  /** The cards of one conference, in ranking order; only the first has the trophy. */
  function Cards(ts: seq<Team>, c: Conference): (r: seq<Card>)
    ensures |r| == |ByWins(ts, c)|
    ensures forall i :: 0 <= i < |r| ==> r[i].team == ByWins(ts, c)[i] && (r[i].trophy <==> i == 0)
  {
    var ranked := ByWins(ts, c);
    seq(|ranked|, i requires 0 <= i < |ranked| => Card(ranked[i], i == 0))
  }

  /** The trophy goes to a team with the most wins in its conference, and to
      no other card. */
  lemma TrophyLeads(ts: seq<Team>, c: Conference)
    ensures var cards := Cards(ts, c);
      (forall i :: 0 <= i < |cards| && cards[i].trophy ==> i == 0) &&
      (forall i, t :: 0 <= i < |cards| && cards[i].trophy && t in ts && t.conference == c ==> cards[i].team.wins >= t.wins)
  {
    var ranked := ByWins(ts, c);
    var cards := Cards(ts, c);
    forall i, t | 0 <= i < |cards| && cards[i].trophy && t in ts && t.conference == c
      ensures cards[i].team.wins >= t.wins
    {
      assert t in ranked;
      var j :| 0 <= j < |ranked| && ranked[j] == t;
    }
  }
}
