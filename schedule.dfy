/** The schedule page: the fixture list filtered by the selected tab, sorted
    newest first, and grouped by day in the order the days first appear. */
module Schedule {
  import opened Seqs
  import opened Sorting
  import opened Matches
  import opened Grouping

  /** The tabs "all", "finished" and "scheduled". */
  datatype Tab = All | Only(status: Status)

  /** The tab's filter predicate: everything for "all", else `match.status === filter`. */
  function Shows(tab: Tab): Match -> bool
  {
    (m: Match) => tab.All? || m.status == tab.status
  }

  /** `filteredMatches`: the matches the tab shows, newest first. */
  function Filtered(ms: seq<Match>, tab: Tab): (r: seq<Match>)
    ensures forall m :: m in r <==> m in ms && (tab.All? || m.status == tab.status)
    ensures multiset(r) == multiset(Filter(ms, Shows(tab)))
    ensures tab.All? ==> multiset(r) == multiset(ms)
    ensures forall i, j :: 0 <= i < j < |r| ==> r[i].date >= r[j].date
  {
    var f := Filter(ms, Shows(tab));
    assert tab.All? ==> f == ms by { if tab.All? { FilterAll(ms, Shows(tab)); } }
    var r := NewestFirst(f);
    assert forall m :: m in r <==> m in multiset(f);
    assert forall m :: m in f <==> m in ms && (tab.All? || m.status == tab.status);
    r
  }

  /** Matches of the same day keep their fixture-list order on the page. */
  lemma FilteredStable(ms: seq<Match>, tab: Tab, d: int)
    ensures Filter(Filtered(ms, tab), OnDate(d)) == Filter(Filter(ms, Shows(tab)), OnDate(d))
  {
    NewestFirstStable(Filter(ms, Shows(tab)), d);
  }

  /** The "No matches found for this filter" card is shown exactly when no
      match passes the tab; on "all" exactly when there are no matches. */
  lemma EmptyStateIff(ms: seq<Match>, tab: Tab)
    ensures Filtered(ms, tab) == [] <==> forall m :: m in ms ==> !(tab.All? || m.status == tab.status)
    ensures tab.All? ==> (Filtered(ms, tab) == [] <==> ms == [])
  {
    var r := Filtered(ms, tab);
    if r != [] { assert r[0] in r; }
    if ms != [] && tab.All? { assert ms[0] in ms; }
  }

  /** The badge text of a status. */
  function StatusLabel(s: Status): (r: string)
    ensures r == "Final" <==> s == Finished
    ensures r == "Live" <==> s == Live
    ensures r == "Scheduled" <==> s == Scheduled
  {
    match s
    case Finished => "Final"
    case Live => "Live"
    case Scheduled => assert "Scheduled"[0] == 'S'; "Scheduled"
  }

  /** The grouping key `match.date`. */
  function DateOf(m: Match): int { m.date }

  /** The `reduce` that builds `matchesByDate`, read back in insertion order
      by `Object.entries`: one heading per day, in the order the days first
      appear in the filtered list. */
  method GroupByDate(ms: seq<Match>) returns (groups: seq<Group<int, Match>>)
    ensures groups == GroupBy(ms, DateOf)
  {
    groups := [];
    for i := 0 to |ms|
      invariant groups == GroupBy(ms[..i], DateOf)
    {
      var m := ms[i];
      GroupBySnoc(ms[..i], DateOf, m);
      assert ms[..i + 1] == ms[..i] + [m];
      match GroupOf(groups, m.date)
      case Some(k) =>
        groups := groups[k := Group(m.date, groups[k].items + [m])];
      case None =>
        groups := groups + [Group(m.date, [m])];
    }
    assert ms[..|ms|] == ms;
  }

  /** Every match the tab shows appears under exactly one heading. */
  lemma ScheduleShowsAll(ms: seq<Match>, tab: Tab)
    ensures Total(GroupBy(Filtered(ms, tab), DateOf)) == |Filter(ms, Shows(tab))|
  {
    var r := Filtered(ms, tab);
    GroupByTotal(r, DateOf);
    assert |multiset(r)| == |multiset(Filter(ms, Shows(tab)))|;
  }

  /** The days of a list sorted newest first run from the newest to the oldest. */
  lemma DatesDescending(r: seq<Match>)
    requires forall i, j :: 0 <= i < j < |r| ==> r[i].date >= r[j].date
    ensures forall k, l :: 0 <= k < l < |Keys(r, DateOf)| ==> Keys(r, DateOf)[k] > Keys(r, DateOf)[l]
  {
    var ds := Keys(r, DateOf);
    KeysOrder(r, DateOf);
    forall k, l | 0 <= k < l < |ds| ensures ds[k] > ds[l] {
      assert SeenBefore(r, DateOf, ds[k], ds[l]);
      var i :| 0 <= i < |r| && DateOf(r[i]) == ds[k] && forall j :: 0 <= j <= i ==> DateOf(r[j]) != ds[l];
      assert ds[l] in ds;
      var x :| x in r && DateOf(x) == ds[l];
      var j :| 0 <= j < |r| && r[j] == x;
    }
  }

  /** On the page the list is sorted newest first, so the headings run from
      the newest day to the oldest. */
  lemma ScheduleNewestFirst(ms: seq<Match>, tab: Tab)
    ensures var g := GroupBy(Filtered(ms, tab), DateOf);
      forall k, l :: 0 <= k < l < |g| ==> g[k].key > g[l].key
  {
    HeadingsDescending(Filtered(ms, tab));
  }

  /** The group headings of a list sorted newest first are its days, so
      they run from the newest to the oldest. */
  lemma HeadingsDescending(r: seq<Match>)
    requires forall i, j :: 0 <= i < j < |r| ==> r[i].date >= r[j].date
    ensures var g := GroupBy(r, DateOf);
      forall k, l :: 0 <= k < l < |g| ==> g[k].key > g[l].key
  {
    DatesDescending(r);
    var ds := Keys(r, DateOf);
    var g := GroupBy(r, DateOf);
    forall k, l | 0 <= k < l < |g| ensures g[k].key > g[l].key {
      assert g[k].key == ds[k] && g[l].key == ds[l];
      assert ds[k] > ds[l];
    }
  }
}
