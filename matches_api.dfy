/** The `GET /api/matches` route: the fixture list, narrowed to one status
    when the `status` query parameter names one. */
module MatchesApi {
  import opened Seqs
  import opened Matches

  /** The status as the data spells it. */
  function StatusName(s: Status): string
  {
    match s
    case Finished => "finished"
    case Scheduled => "scheduled"
    case Live => "live"
  }

  /** The whitelist check of the `status` parameter (`null` when absent). */
  function ParseStatus(param: Option<string>): (r: Option<Status>)
    ensures r.Some? ==> param == Some(StatusName(r.value))
  {
    match param
    case None => None
    case Some(s) =>
      if s == "finished" then Some(Finished)
      else if s == "scheduled" then Some(Scheduled)
      else if s == "live" then Some(Live)
      else None
  }

  /** Every status name passes the whitelist as itself. */
  lemma ParseStatusName(s: Status)
    ensures ParseStatus(Some(StatusName(s))) == Some(s)
  {
    assert "finished"[0] == 'f' && "scheduled"[0] == 's' && "live"[0] == 'l';
  }

  /** The `matches` field of the response. */
  function Respond(ms: seq<Match>, param: Option<string>): (r: seq<Match>)
    ensures SubseqOf(r, ms)
    ensures ParseStatus(param).None? ==> r == ms
    ensures ParseStatus(param).Some? ==>
      forall m :: m in r <==> m in ms && m.status == ParseStatus(param).value
  {
    match ParseStatus(param)
    case None => SubseqRefl(ms); ms
    case Some(st) =>
      var r := Filter(ms, HasStatus(st));
      assert forall m :: m in r <==> m in ms && m.status == st;
      r
  }

  /** Asking for a status returns exactly the matches with that status; an
      unknown or missing status returns everything. */
  lemma RespondByName(ms: seq<Match>, s: Status)
    ensures Respond(ms, Some(StatusName(s))) == Filter(ms, HasStatus(s))
    ensures Respond(ms, None) == ms
  {
    ParseStatusName(s);
  }
}
