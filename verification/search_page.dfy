/** The search page (src/app/search/page.tsx): the recent-searches list it
    keeps beside the `useSearch` hook, the welcome panel rule, the sync of
    the hook's query with the `q` URL parameter, and its handlers. */
module SearchPage {
  import opened Common
  import opened Text
  import opened UseSearch
  import SearchInput

  /** The page shows at most this many recent searches. */
  const ShownRecent: nat := 8

  /** Where `router.push` sends the browser: `/search`, or `/search?q=…`
      (the form encoding of the parameter is not modelled). */
  datatype Route = SearchRoot | SearchFor(q: Str)

  /** `searchParams.get('q') || ''` */
  function UrlQuery(param: Option<Str>): Str
  {
    match param
    case None => []
    case Some(s) => s
  }

  /** The welcome panel is hidden once there is a non-blank query or any
      result. */
  predicate ShowWelcome<P>(s: SearchState<P>) {
    IsBlank(s.query) && s.results == []
  }

  /** Setting a non-blank query hides the welcome panel, whatever the
      results. */
  lemma SearchHidesWelcome<P>(s: SearchState<P>, q: Str)
    requires !IsBlank(q)
    ensures !ShowWelcome(QuerySet(s, q))
  {
  }

  /** Clearing the search brings the welcome panel back. */
  lemma ClearShowsWelcome<P>()
    ensures ShowWelcome<P>(ClearedState())
  {
    assert Trim([]) == [];
  }

  /** The recent searches the welcome panel lists. */
  function DisplayedRecent(recent: seq<Str>): (r: seq<Str>)
    // the eight most recent searches, or all of them when there are fewer
    ensures |r| == (if |recent| <= ShownRecent then |recent| else ShownRecent)
    ensures r == recent[..|r|]
  {
    Take(recent, ShownRecent)
  }

  class Page<P> {
    var recent: seq<Str>
    var showWelcome: bool
    const hook: SearchHook<P>

    ghost predicate Valid()
      reads this, hook
    {
      hook.Valid()
    }

    constructor(saved: seq<Str>, hook: SearchHook<P>)
      requires hook.Valid()
      ensures Valid() && recent == saved && showWelcome && this.hook == hook
    {
      recent := saved;
      showWelcome := true;
      this.hook := hook;
    }

    /** `handleSearch`: a blank query only routes to `/search`; otherwise the
        page routes to the query, records it as the most recent search and
        sets it as the hook's query. */
    method HandleSearch(q: Str) returns (route: Route)
      requires Valid()
      modifies this, hook
      ensures Valid() && showWelcome == old(showWelcome)
      ensures hook.debouncedQuery == old(hook.debouncedQuery)
      ensures IsBlank(q) ==> route == SearchRoot && recent == old(recent) && hook.state == old(hook.state)
      ensures !IsBlank(q) ==> route == SearchFor(q)
      ensures !IsBlank(q) ==> recent == SearchInput.PushRecent(old(recent), q)
      ensures !IsBlank(q) ==> hook.state == QuerySet(old(hook.state), q)
    {
      if IsBlank(q) {
        return SearchRoot;
      }
      route := SearchFor(q);
      recent := Take([q] + SearchInput.Without(recent, q), SearchInput.MaxRecent);
      hook.SetQuery(q);
    }

    /** `handleClear`: back to `/search` with the hook's canonical empty state. */
    method HandleClear() returns (route: Route)
      requires Valid()
      modifies hook
      ensures Valid() && route == SearchRoot
      ensures hook.state == ClearedState() && hook.debouncedQuery == old(hook.debouncedQuery)
    {
      route := SearchRoot;
      hook.ClearSearch();
    }

    /** The URL effect: when the `q` parameter differs from the query, the
        query follows the URL. */
    method SyncWithUrl(param: Option<Str>)
      requires Valid()
      modifies hook
      ensures Valid() && hook.state.query == UrlQuery(param)
      ensures hook.debouncedQuery == old(hook.debouncedQuery)
      ensures old(hook.state.query) == UrlQuery(param) ==> hook.state == old(hook.state)
      ensures old(hook.state.query) != UrlQuery(param) ==>
                hook.state == QuerySet(old(hook.state), UrlQuery(param))
    {
      var urlQuery := match param case None => [] case Some(s) => s;
      if urlQuery != hook.state.query {
        hook.SetQuery(urlQuery);
      }
    }

    /** The welcome effect, run after the query or the result count changes. */
    method UpdateWelcome()
      modifies this
      ensures showWelcome == ShowWelcome(hook.state)
      ensures recent == old(recent)
    {
      if !IsBlank(hook.state.query) || |hook.state.results| > 0 {
        showWelcome := false;
      } else {
        showWelcome := true;
      }
    }
  }
}
