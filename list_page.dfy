/**
 * The session list page as a state: the sessions, the filtered and sorted
 * list, the page shown, the bests and the trends. Each handler of the page
 * is a method of `SessionIndex` specified by a function of the state before;
 * the form fields it reads and the instants the date filter compares with
 * are parameters.
 */
module ListPage {
  import opened JsValues
  import opened SessionList

  const SessionsPerPage := 50

  // ----- pagination -----

  /** Math.ceil(n / 50): the number of pages of n sessions. */
  function PageCount(n: nat): (c: nat)
    ensures n == 0 ==> c == 0
    ensures n > 0 ==> 1 <= c && (c - 1) * 50 < n <= c * 50
  {
    (n + 49) / 50
  }

  function Min(a: int, b: int): int
  {
    if a < b then a else b
  }

  /** The page kept by renderSessions: lowered to the last page, then raised to the first. */
  function ClampPage(page: int, total: int): (p: int)
    requires total >= 1
    ensures 1 <= p <= total
    ensures 1 <= page <= total ==> p == page
    ensures page > total ==> p == total
    ensures page < 1 ==> p == 1
  {
    var lowered := if page > total then total else page;
    if lowered < 1 then 1 else lowered
  }

  /** The sessions of page p: from (p - 1) * 50 up to 50 further, or to the end of the list. */
  function PageOf<T>(list: seq<T>, p: int): (r: seq<T>)
    requires 1 <= p <= PageCount(|list|)
    ensures 0 < |r| <= SessionsPerPage
  {
    var start := (p - 1) * 50;
    list[start..Min(start + SessionsPerPage, |list|)]
  }

  /** Pages 1 to k, one after the other. */
  function PagesUpTo<T>(list: seq<T>, k: nat): seq<T>
    requires k <= PageCount(|list|)
  {
    if k == 0 then [] else PagesUpTo(list, k - 1) + PageOf(list, k)
  }

  lemma {:induction false} PagesUpToPrefix<T>(list: seq<T>, k: nat)
    requires k <= PageCount(|list|)
    ensures PagesUpTo(list, k) == list[..Min(k * 50, |list|)]
  {
    if k > 0 {
      PagesUpToPrefix(list, k - 1);
      assert (k - 1) * 50 < |list|;
      var start := (k - 1) * 50;
      assert list[..start] + list[start..Min(k * 50, |list|)] == list[..Min(k * 50, |list|)];
    }
  }

  /** The pages partition the list: together, in order, they are the whole list, each one of 1 to 50 sessions. */
  lemma PagesPartition<T>(list: seq<T>)
    ensures PagesUpTo(list, PageCount(|list|)) == list
  {
    PagesUpToPrefix(list, PageCount(|list|));
    assert list[..|list|] == list;
  }

  // ----- the page state -----

  datatype ListState = ListState(
    all: seq<Session>,
    filtered: seq<Session>,
    currentSort: string,
    currentPage: int,
    totalPages: int,
    personalBests: map<string, Best>,
    trackBests: map<string, Best>,
    trends: seq<Trend>)

  /** Once something is listed, the page count is that of the list and the current page one of its pages. */
  predicate Invariant(s: ListState)
  {
    s.filtered != [] ==> s.totalPages == PageCount(|s.filtered|) && 1 <= s.currentPage <= s.totalPages
  }

  const Initial := ListState([], [], "date", 1, 1, map[], map[], [])

  /** A state, and the sessions shown on the page. */
  datatype Rendering = Rendering(state: ListState, shown: seq<Session>)

  /**
   * renderSessions: nothing changes and nothing is shown when no session is
   * left; otherwise the page count is set, the current page clamped, and
   * that page shown.
   */
  function Rendered(s: ListState): (r: Rendering)
    ensures Invariant(r.state) && r.state.filtered == s.filtered && r.state.all == s.all
  {
    if s.filtered == [] then Rendering(s, [])
    else
      var total := PageCount(|s.filtered|);
      var page := ClampPage(s.currentPage, total);
      Rendering(s.(totalPages := total, currentPage := page), PageOf(s.filtered, page))
  }

  /** With sessions to list, rendering keeps the list, lands on a valid page, and shows that page; a valid page is kept. */
  lemma RenderShowsPage(s: ListState)
    requires s.filtered != []
    ensures Invariant(Rendered(s).state)
    ensures Rendered(s).state.filtered == s.filtered
    ensures 1 <= s.currentPage <= PageCount(|s.filtered|) ==> Rendered(s).state.currentPage == s.currentPage
    ensures 0 < |Rendered(s).shown| <= SessionsPerPage
    ensures Rendered(s).shown == PageOf(s.filtered, Rendered(s).state.currentPage)
  {
  }

  /** With nothing to list, rendering shows nothing and changes nothing. */
  lemma RenderEmpty(s: ListState)
    requires s.filtered == []
    ensures Rendered(s) == Rendering(s, [])
  {
  }

  /** goToPage. */
  function WentToPage(s: ListState, page: int): (r: Rendering)
    ensures Invariant(r.state) && r.state.filtered == s.filtered
  {
    Rendered(s.(currentPage := page))
  }

  /** sortSessions: the criteria is remembered, the list sorted and rendered. */
  function SortedBy(s: ListState, criteria: string): (r: Rendering)
    ensures Invariant(r.state) && r.state.currentSort == criteria
  {
    Rendered(s.(currentSort := criteria, filtered := SortedSessions(s.filtered, criteria)))
  }

  /** filterSessions: the matching sessions, back on page 1, sorted by the current criteria. */
  function FilteredBy(s: ListState, f: Filters, at: Instants): (r: Rendering)
    ensures Invariant(r.state) && r.state.all == s.all
  {
    SortedBy(s.(filtered := FilterList(s.all, f, at), currentPage := 1), s.currentSort)
  }

  /**
   * After a filter change the list holds exactly the matching sessions, in
   * the current order, and the first page is shown.
   */
  lemma FilterShowsFirstPage(s: ListState, f: Filters, at: Instants)
    ensures var r := FilteredBy(s, f, at);
      multiset(r.state.filtered) == multiset(FilterList(s.all, f, at))
      && (forall x :: x in r.state.filtered <==> x in s.all && Matches(x, f, at))
      && r.state.currentSort == s.currentSort
      && (r.state.filtered != [] ==> r.state.currentPage == 1)
      && Invariant(r.state)
  {
    var matching := FilterList(s.all, f, at);
    SortSessionsSpec(matching, s.currentSort);
    var sorted := SortedSessions(matching, s.currentSort);
    forall x
      ensures x in sorted <==> x in matching
    {
      assert x in sorted <==> x in multiset(sorted);
      assert x in matching <==> x in multiset(matching);
    }
  }

  /** What the list page records after calculatePersonalBests. */
  function WithBests(s: ListState): ListState
  {
    s.(personalBests := Bests(s.all, true), trackBests := Bests(s.all, false))
  }

  /** The trend of every session, by list position. */
  function Trends(sessions: seq<Session>): (r: seq<Trend>)
    ensures |r| == |sessions|
  {
    TrendsUpTo(sessions, |sessions|)
  }

  /** The trends of the first `n` sessions. */
  function TrendsUpTo(sessions: seq<Session>, n: nat): (r: seq<Trend>)
    requires n <= |sessions|
    ensures |r| == n
  {
    if n == 0 then [] else TrendsUpTo(sessions, n - 1) + [TrendOf(sessions, n - 1)]
  }

  /** calculateTrends: the trends, session by session. */
  method ComputeTrends(sessions: seq<Session>) returns (computed: seq<Trend>)
    ensures computed == Trends(sessions)
  {
    computed := [];
    var i := 0;
    while i < |sessions|
      invariant 0 <= i <= |sessions|
      invariant computed == TrendsUpTo(sessions, i)
    {
      computed := computed + [TrendOf(sessions, i)];
      i := i + 1;
    }
  }

  /** What the list page records after calculateTrends. */
  function WithTrends(s: ListState): ListState
  {
    s.(trends := Trends(s.all))
  }

  // ----- the URL -----

  /** URLSearchParams as a map from name to value; a name not set is absent. */
  type Params = map<string, string>

  /** updateUrlParams: every field that differs from its default, and the dates only for a custom range. */
  function UrlParams(f: Filters, sort: string): (p: Params)
    ensures forall k :: k in p ==> k in {"search", "track", "config", "date", "from", "to", "sort"}
  {
    var p1 := if f.search != "" then map["search" := f.search] else map[];
    var p2 := if f.track != "" then p1["track" := f.track] else p1;
    var p3 := if f.config != "" then p2["config" := f.config] else p2;
    var p4 := if f.dateFilter != "all" then p3["date" := f.dateFilter] else p3;
    var p5 := if f.dateFilter == "custom" && f.dateFrom != "" then p4["from" := f.dateFrom] else p4;
    var p6 := if f.dateFilter == "custom" && f.dateTo != "" then p5["to" := f.dateTo] else p5;
    if sort != "date" then p6["sort" := sort] else p6
  }

  /** `params.get(name) || fallback`. */
  function GetOr(p: Params, name: string, fallback: string): string
  {
    if name in p && p[name] != "" then p[name] else fallback
  }

  datatype UrlState = UrlState(filters: Filters, sort: string)

  /** getUrlParams: the form and the sort criteria a URL describes. */
  function ReadUrl(p: Params): UrlState
  {
    UrlState(
      Filters(GetOr(p, "search", ""), GetOr(p, "track", ""), GetOr(p, "config", ""),
              GetOr(p, "date", "all"), GetOr(p, "from", ""), GetOr(p, "to", "")),
      GetOr(p, "sort", "date"))
  }

  /** No default is written: an empty field, the date filter "all" and the sort by date leave the URL bare. */
  lemma UrlOmitsDefaults(f: Filters, sort: string)
    ensures "search" in UrlParams(f, sort) <==> f.search != ""
    ensures "date" in UrlParams(f, sort) <==> f.dateFilter != "all"
    ensures "from" in UrlParams(f, sort) <==> f.dateFilter == "custom" && f.dateFrom != ""
    ensures "to" in UrlParams(f, sort) <==> f.dateFilter == "custom" && f.dateTo != ""
    ensures "sort" in UrlParams(f, sort) <==> sort != "date"
    ensures f == Filters("", "", "", "all", "", "") && sort == "date" ==> UrlParams(f, sort) == map[]
  {
  }

  /**
   * Reading the URL back gives the form and the sort again, except that the
   * two dates are lost unless the range is custom. An empty date filter or
   * sort would come back as the default.
   */
  lemma UrlRoundTrip(f: Filters, sort: string)
    requires f.dateFilter != "" && sort != ""
    ensures ReadUrl(UrlParams(f, sort)).sort == sort
    ensures ReadUrl(UrlParams(f, sort)).filters ==
      if f.dateFilter == "custom" then f else f.(dateFrom := "", dateTo := "")
  {
    UrlKeepsText(f, sort);
    UrlKeepsDates(f, sort);
  }

  lemma UrlKeepsText(f: Filters, sort: string)
    requires sort != ""
    ensures GetOr(UrlParams(f, sort), "search", "") == f.search
    ensures GetOr(UrlParams(f, sort), "track", "") == f.track
    ensures GetOr(UrlParams(f, sort), "config", "") == f.config
    ensures GetOr(UrlParams(f, sort), "sort", "date") == sort
  {
  }

  lemma UrlKeepsDates(f: Filters, sort: string)
    requires f.dateFilter != ""
    ensures GetOr(UrlParams(f, sort), "date", "all") == f.dateFilter
    ensures GetOr(UrlParams(f, sort), "from", "") == if f.dateFilter == "custom" then f.dateFrom else ""
    ensures GetOr(UrlParams(f, sort), "to", "") == if f.dateFilter == "custom" then f.dateTo else ""
  {
  }

  // ----- the configuration filter -----

  function TrackNames(sessions: seq<Session>): set<string>
  {
    set s | s in sessions :: s.trackName
  }

  function ConfigsAt(sessions: seq<Session>, track: string): set<string>
  {
    set s | s in sessions && s.trackName == track :: s.trackConfig
  }

  function AllConfigs(sessions: seq<Session>): set<string>
  {
    set s | s in sessions :: s.trackConfig
  }

  /** The configurations offered: those of the selected track when it is known, all of them otherwise. */
  function ConfigsToShow(sessions: seq<Session>, track: string): (r: set<string>)
    ensures r <= AllConfigs(sessions)
  {
    if track != "" && track in TrackNames(sessions) then ConfigsAt(sessions, track) else AllConfigs(sessions)
  }

  /** The configuration selected after updateConfigFilter: kept only when offered. */
  function KeptConfig(current: string, shown: set<string>): (c: string)
    ensures c == current || c == ""
    ensures c != "" <==> current != "" && current in shown
  {
    if current != "" && current in shown then current else ""
  }

  /**
   * With a known track selected, the configuration kept is either none or
   * one some session at that track was driven in, so the track and
   * configuration filters together never exclude every session.
   */
  lemma KeptConfigIsDriven(sessions: seq<Session>, track: string, current: string)
    requires track != "" && track in TrackNames(sessions)
    ensures var c := KeptConfig(current, ConfigsToShow(sessions, track));
      c == "" || exists s :: s in sessions && s.trackName == track && s.trackConfig == c
  {
  }

  // ----- the page -----

  class SessionIndex {
    var all: seq<Session>
    var filtered: seq<Session>
    var currentSort: string
    var currentPage: int
    var totalPages: int
    var personalBests: map<string, Best>
    var trackBests: map<string, Best>
    var trends: seq<Trend>

    function State(): ListState
      reads this
    {
      ListState(all, filtered, currentSort, currentPage, totalPages, personalBests, trackBests, trends)
    }

    ghost predicate Valid()
      reads this
    {
      Invariant(State())
    }

    constructor()
      ensures Valid() && State() == Initial
    {
      all := [];
      filtered := [];
      currentSort := "date";
      currentPage := 1;
      totalPages := 1;
      personalBests := map[];
      trackBests := map[];
      trends := [];
    }

    /** calculatePersonalBests: one pass over the sessions, updating both records. */
    method CalculatePersonalBests()
      modifies this
      ensures State() == WithBests(old(State()))
    {
      var sessions := all;
      var personal: map<string, Best> := map[];
      var track: map<string, Best> := map[];
      var i := 0;
      while i < |sessions|
        invariant 0 <= i <= |sessions|
        invariant personal == Bests(sessions[..i], true)
        invariant track == Bests(sessions[..i], false)
      {
        assert sessions[..i + 1][..i] == sessions[..i];
        personal := Record(personal, sessions[i], true);
        track := Record(track, sessions[i], false);
        i := i + 1;
      }
      assert sessions[..i] == sessions;
      personalBests := personal;
      trackBests := track;
    }

    /** calculateTrends: the trend of each session, from its date-sorted group. */
    method CalculateTrends()
      modifies this
      ensures State() == WithTrends(old(State()))
    {
      var computed := ComputeTrends(all);
      trends := computed;
    }

    method RenderSessions() returns (shown: seq<Session>)
      modifies this
      ensures Valid()
      ensures Rendering(State(), shown) == Rendered(old(State()))
    {
      if |filtered| == 0 {
        return [];
      }
      totalPages := PageCount(|filtered|);
      if currentPage > totalPages {
        currentPage := totalPages;
      }
      if currentPage < 1 {
        currentPage := 1;
      }
      var startIdx := (currentPage - 1) * SessionsPerPage;
      var endIdx := Min(startIdx + SessionsPerPage, |filtered|);
      shown := filtered[startIdx..endIdx];
    }

    method GoToPage(page: int) returns (shown: seq<Session>)
      modifies this
      ensures Valid()
      ensures Rendering(State(), shown) == WentToPage(old(State()), page)
    {
      currentPage := page;
      shown := RenderSessions();
    }

    method SortSessions(criteria: string) returns (shown: seq<Session>)
      modifies this
      ensures Valid()
      ensures Rendering(State(), shown) == SortedBy(old(State()), criteria)
    {
      currentSort := criteria;
      filtered := SortedSessions(filtered, criteria);
      shown := RenderSessions();
    }

    method FilterSessions(f: Filters, at: Instants) returns (shown: seq<Session>)
      modifies this
      ensures Valid()
      ensures Rendering(State(), shown) == FilteredBy(old(State()), f, at)
    {
      filtered := FilterList(all, f, at);
      currentPage := 1;
      shown := SortSessions(currentSort);
    }
  }
}
