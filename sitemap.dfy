/** The sitemap: the seven static pages, then one page per team. Priorities
    are kept in tenths (0.8 is 8). */
module Sitemap {
  import opened Teams

  datatype Frequency = Daily | Weekly | Monthly

  datatype Entry = Entry(url: string, changeFrequency: Frequency, priority: nat)

  const BaseUrl := "https://site-web-de-ligue-sportive-test-1do.vercel.app"

  /** The entry of the page at `path` under the base url. */
  function Page(path: string, changeFrequency: Frequency, priority: nat): Entry
  {
    Entry(BaseUrl + path, changeFrequency, priority)
  }

  /** The paths of `staticRoutes`, in their declared order. */
  const StaticPaths: seq<string> := ["/", "/teams", "/schedule", "/standings", "/stats", "/live", "/export"]

  /** `staticRoutes`. */
  const StaticRoutes: seq<Entry> := [
    Page(StaticPaths[0], Weekly, 10),
    Page(StaticPaths[1], Daily, 9),
    Page(StaticPaths[2], Daily, 8),
    Page(StaticPaths[3], Weekly, 7),
    Page(StaticPaths[4], Weekly, 6),
    Page(StaticPaths[5], Daily, 6),
    Page(StaticPaths[6], Monthly, 4)
  ]

  /** The path of a team's page. */
  function TeamPath(t: Team): string { "/teams/" + t.id }

  /** The page of one team. */
  function TeamRoute(t: Team): Entry
  {
    Page(TeamPath(t), Weekly, 8)
  }

  /** `sitemap()` over the team table `ts`: the static pages, then the team
      pages in table order. */
  function SiteMap(ts: seq<Team>): (r: seq<Entry>)
    ensures |r| == |StaticRoutes| + |ts|
    ensures r[..|StaticRoutes|] == StaticRoutes
    ensures forall i :: 0 <= i < |ts| ==> r[|StaticRoutes| + i] == TeamRoute(ts[i])
  {
    StaticRoutes + seq(|ts|, i requires 0 <= i < |ts| => TeamRoute(ts[i]))
  }

  /** The path of every entry of the sitemap. */
  function PathAt(ts: seq<Team>, i: nat): string
    requires i < |StaticRoutes| + |ts|
  {
    if i < |StaticPaths| then StaticPaths[i] else TeamPath(ts[i - |StaticPaths|])
  }

  /** Each static entry is the base url followed by its path, which starts
      with "/"; its priority is at most 1. */
  lemma StaticOnSite(i: nat)
    requires i < |StaticRoutes|
    ensures StaticRoutes[i].url == BaseUrl + StaticPaths[i] && |StaticPaths[i]| > 0 &&
      StaticPaths[i][0] == '/' && StaticRoutes[i].priority <= 10
  {
  }

  /** The static entries come first. */
  lemma StaticEntry(ts: seq<Team>, i: nat)
    requires i < |StaticRoutes|
    ensures SiteMap(ts)[i] == StaticRoutes[i] && PathAt(ts, i) == StaticPaths[i]
  {
    assert SiteMap(ts)[i] == SiteMap(ts)[..|StaticRoutes|][i];
  }

  /** A team entry, after the seven static ones, is the team's page. */
  lemma TeamEntry(ts: seq<Team>, i: nat)
    requires 7 <= i < 7 + |ts|
    ensures SiteMap(ts)[i] == TeamRoute(ts[i - 7]) && PathAt(ts, i) == TeamPath(ts[i - 7])
  {
    var j := i - 7;
    assert |StaticPaths| == |StaticRoutes| == 7;
    assert SiteMap(ts)[|StaticRoutes| + j] == TeamRoute(ts[j]);
  }

  /** Entry `i` is the base url followed by the path of page `i`. */
  lemma EntryOnSite(ts: seq<Team>, i: nat)
    requires i < |StaticRoutes| + |ts|
    ensures var r := SiteMap(ts);
      r[i].url == BaseUrl + PathAt(ts, i) && |PathAt(ts, i)| > 0 && PathAt(ts, i)[0] == '/' && r[i].priority <= 10
  {
    if i < |StaticRoutes| {
      StaticEntry(ts, i);
      StaticOnSite(i);
    } else {
      assert |StaticRoutes| == 7;
      TeamEntry(ts, i);
    }
  }

  /** Each entry is the base url followed by a path that starts with "/",
      with a priority between 0 and 1. */
  lemma SiteMapOnSite(ts: seq<Team>)
    ensures var r := SiteMap(ts);
      forall i :: 0 <= i < |r| ==>
        r[i].url == BaseUrl + PathAt(ts, i) && |PathAt(ts, i)| > 0 && PathAt(ts, i)[0] == '/' && r[i].priority <= 10
  {
    var r := SiteMap(ts);
    forall i | 0 <= i < |r|
      ensures r[i].url == BaseUrl + PathAt(ts, i) && |PathAt(ts, i)| > 0 && PathAt(ts, i)[0] == '/' && r[i].priority <= 10
    {
      EntryOnSite(ts, i);
    }
  }

  /** Different paths give different urls. */
  lemma PageInjective(p: string, q: string)
    requires BaseUrl + p == BaseUrl + q
    ensures p == q
  {
    assert p == (BaseUrl + p)[|BaseUrl|..];
    assert q == (BaseUrl + q)[|BaseUrl|..];
  }

  /** The static paths are all different. */
  lemma StaticPathsDistinct()
    ensures forall i, j :: 0 <= i < j < |StaticPaths| ==> StaticPaths[i] != StaticPaths[j]
  {
    assert "/teams"[1] != "/stats"[1];
  }

  /** No team page has a static page's path. */
  lemma TeamPathNotStatic(t: Team)
    ensures TeamPath(t) !in StaticPaths
  {
    var u := TeamPath(t);
    assert u[1] == 't' && u[6] == '/';
  }

  /** Two team pages have the same path only for the same id. */
  lemma TeamPathInjective(a: Team, b: Team)
    requires TeamPath(a) == TeamPath(b)
    ensures a.id == b.id
  {
    assert a.id == TeamPath(a)[7..];
    assert b.id == TeamPath(b)[7..];
  }

  /** With unique team ids the sitemap lists no page twice. */
  lemma SiteMapDistinct(ts: seq<Team>)
    requires UniqueIds(ts)
    ensures var r := SiteMap(ts); forall i, j :: 0 <= i < j < |r| ==> r[i].url != r[j].url
  {
    var r := SiteMap(ts);
    var k := |StaticRoutes|;
    SiteMapOnSite(ts);
    forall i, j | 0 <= i < j < |r| ensures r[i].url != r[j].url {
      if r[i].url == r[j].url {
        PageInjective(PathAt(ts, i), PathAt(ts, j));
        if j < k {
          StaticPathsDistinct();
        } else if i < k {
          TeamPathNotStatic(ts[j - k]);
        } else {
          TeamPathInjective(ts[i - k], ts[j - k]);
        }
      }
    }
  }
}
