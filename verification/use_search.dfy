/** The client-side search hook `useSearch` (`src/hooks/useSearch.ts`): a
    `SearchState` record and the transitions the hook applies to it. The hook
    itself becomes a class whose `state` field the methods reassign; the fetch
    and its outcome are an input. */
module UseSearch {
  import opened Common
  import opened Text
  import SearchRoute

  datatype SearchState<P> = SearchState(
    query: Str,
    results: seq<P>,
    isLoading: bool,
    error: Option<Str>,
    total: int,
    hasMore: bool,
    currentPage: int)

  /** The state invariant the transitions keep: pages are numbered from 1 and
      a request in flight has no error showing. */
  predicate Consistent<P>(s: SearchState<P>) {
    s.currentPage >= 1 && (s.isLoading ==> s.error.None?)
  }

  /** The state on mount. */
  function Initial<P>(initialQuery: Str): (s: SearchState<P>)
    ensures s.query == initialQuery && s.results == [] && !s.isLoading && s.error.None?
    ensures s.total == 0 && !s.hasMore && s.currentPage == 1
  {
    SearchState(initialQuery, [], false, None, 0, false, 1)
  }

  // ================================================================ transitions

  /** `setQuery(q)`: the new query on page 1; everything else kept. */
  function QuerySet<P>(s: SearchState<P>, q: Str): (r: SearchState<P>)
    ensures r.query == q && r.currentPage == 1
    ensures r.results == s.results && r.isLoading == s.isLoading && r.error == s.error
    ensures r.total == s.total && r.hasMore == s.hasMore
  {
    s.(query := q, currentPage := 1)
  }

  /** `clearSearch()` */
  function ClearedState<P>(): (r: SearchState<P>)
    ensures r == Initial("")
  {
    SearchState("", [], false, None, 0, false, 1)
  }

  /** `clearError()` */
  function ErrorCleared<P>(s: SearchState<P>): (r: SearchState<P>)
    ensures r.error.None? && r == s.(error := None)
  {
    s.(error := None)
  }

  /** The update for a blank query: nothing to show, nothing loading. */
  function BlankResults<P>(s: SearchState<P>): (r: SearchState<P>)
    ensures r.results == [] && r.total == 0 && !r.hasMore && !r.isLoading && r.error.None?
    ensures r.query == s.query && r.currentPage == s.currentPage
  {
    s.(results := [], total := 0, hasMore := false, isLoading := false, error := None)
  }

  /** The update made just before the request is sent. */
  function StartLoading<P>(s: SearchState<P>): (r: SearchState<P>)
    ensures r.isLoading && r.error.None?
    ensures r.query == s.query && r.results == s.results && r.currentPage == s.currentPage
    ensures r.total == s.total && r.hasMore == s.hasMore
  {
    s.(isLoading := true, error := None)
  }

  /** The update on a successful answer. */
  function Succeed<P>(s: SearchState<P>, posts: seq<P>, total: int, hasMore: bool, page: int, append: bool): (r: SearchState<P>)
    ensures r.results == if append then s.results + posts else posts
    ensures r.total == total && r.hasMore == hasMore && r.currentPage == page
    ensures !r.isLoading && r.error.None? && r.query == s.query
  {
    s.(results := if append then s.results + posts else posts,
       total := total, hasMore := hasMore, currentPage := page,
       isLoading := false, error := None)
  }

  /** The update on a failure other than an abort. */
  function Fail<P>(s: SearchState<P>, message: Str, append: bool): (r: SearchState<P>)
    ensures !r.isLoading && r.error == Some(message)
    ensures r.results == if append then s.results else []
    ensures r.query == s.query && r.currentPage == s.currentPage
    ensures r.total == s.total && r.hasMore == s.hasMore
  {
    s.(isLoading := false, error := Some(message), results := if append then s.results else [])
  }

  const GenericError: Str := "검색 중 오류가 발생했습니다."
  const TooManyRequestsError: Str := "요청이 너무 많습니다. 잠시 후 다시 시도해주세요."
  const UnavailableError: Str := "검색 서비스에 일시적인 문제가 발생했습니다."
  const NetworkError: Str := "네트워크 연결을 확인해주세요."
  const TimeoutError: Str := "요청 시간이 초과되었습니다. 다시 시도해주세요."

  /** The message shown for a thrown error's message: the first matching
      check wins, in the order 429, 503, network, timeout. */
  function ErrorMessage(m: Str): (r: Str)
    ensures Contains(m, "429") ==> r == TooManyRequestsError
    ensures !Contains(m, "429") && Contains(m, "503") ==> r == UnavailableError
    ensures (!Contains(m, "429") && !Contains(m, "503")
             && (Contains(m, "네트워크") || Contains(m, "Failed to fetch"))) ==> r == NetworkError
    ensures (!Contains(m, "429") && !Contains(m, "503") && !Contains(m, "네트워크") && !Contains(m, "Failed to fetch")
             && Contains(m, "timeout")) ==> r == TimeoutError
    // a message matching none of the checks is shown as it is
    ensures (!Contains(m, "429") && !Contains(m, "503") && !Contains(m, "네트워크") && !Contains(m, "Failed to fetch")
             && !Contains(m, "timeout")) ==> r == m
  {
    if Contains(m, "429") then TooManyRequestsError
    else if Contains(m, "503") then UnavailableError
    else if Contains(m, "네트워크") || Contains(m, "Failed to fetch") then NetworkError
    else if Contains(m, "timeout") then TimeoutError
    else m
  }

  /** How the request ended. */
  datatype FetchOutcome<P> =
    | Answer(posts: seq<P>, total: int, hasMore: bool)
    | Aborted
    | Failed(message: Str)
    /** A thrown value that is not an `Error`. */
    | ThrownNonError

  /** The request the hook sends. */
  datatype SearchRequest = SearchRequest(q: Str, limit: int, offset: int)

  /** `(page - 1) * limit` */
  function RequestOffset(page: int, limit: int): (r: int)
    requires page >= 1 && limit >= 1
    ensures r >= 0
    ensures page == 1 ==> r == 0
  {
    (page - 1) * limit
  }

  /** Successive pages ask for successive, adjacent slices. */
  lemma NextPageOffset(page: int, limit: int)
    requires page >= 1 && limit >= 1
    ensures RequestOffset(page + 1, limit) == RequestOffset(page, limit) + limit
  {
  }

  /** The endpoint reports back the page the hook asked for. */
  lemma RoundTripPage(page: int, limit: int, total: nat, hasMore: bool)
    requires page >= 1 && limit >= 1
    ensures SearchRoute.MakePagination(total, limit, RequestOffset(page, limit), hasMore).currentPage == page
  {
    var off := RequestOffset(page, limit);
    var p := SearchRoute.MakePagination(total, limit, off, hasMore);
    assert (p.currentPage - 1) * limit <= (page - 1) * limit < p.currentPage * limit;
    SearchRoute.MulCancel(p.currentPage - 1, page, limit);
    SearchRoute.MulCancel(page - 1, p.currentPage, limit);
  }

  /** `performSearch(query, page, append)` as a function of the state before
      it: the state after it. */
  function Perform<P>(s: SearchState<P>, query: Str, page: int, append: bool, outcome: FetchOutcome<P>): (r: SearchState<P>)
    ensures IsBlank(query) ==> r == BlankResults(s)
    ensures !IsBlank(query) && outcome.Aborted? ==> r == StartLoading(s)
    ensures !IsBlank(query) && outcome.Failed? ==> r == Fail(StartLoading(s), ErrorMessage(outcome.message), append)
    ensures !IsBlank(query) && outcome.ThrownNonError? ==> r == Fail(StartLoading(s), GenericError, append)
    ensures !IsBlank(query) && outcome.Answer? ==>
      r == Succeed(StartLoading(s), outcome.posts, outcome.total, outcome.hasMore, page, append)
  {
    if IsBlank(query) then BlankResults(s)
    else
      var loading := StartLoading(s);
      match outcome
      case Aborted => loading
      case Failed(message) => Fail(loading, ErrorMessage(message), append)
      case ThrownNonError => Fail(loading, GenericError, append)
      case Answer(posts, total, hasMore) => Succeed(loading, posts, total, hasMore, page, append)
  }

  /** Every transition keeps the state consistent. */
  lemma PerformConsistent<P>(s: SearchState<P>, query: Str, page: int, append: bool, outcome: FetchOutcome<P>)
    requires Consistent(s) && page >= 1
    ensures Consistent(Perform(s, query, page, append, outcome))
  {
  }

  /** Loading more appends the next page after the results already shown. */
  lemma LoadMoreAppends<P>(s: SearchState<P>, query: Str, posts: seq<P>, total: int, hasMore: bool)
    requires !IsBlank(query)
    ensures var r := Perform(s, query, s.currentPage + 1, true, Answer(posts, total, hasMore));
      r.results[..|s.results|] == s.results && r.results[|s.results|..] == posts
      && r.currentPage == s.currentPage + 1
  {
  }

  /** A failed load-more keeps the results already shown; a failed first page
      clears them. */
  lemma FailureKeepsOnlyAppended<P>(s: SearchState<P>, query: Str, message: Str, append: bool)
    requires !IsBlank(query)
    ensures Perform(s, query, 1, append, Failed(message)).results == if append then s.results else []
  {
  }

  /** `isEmpty`: no results for a settled, non-blank query. */
  function IsEmpty<P>(s: SearchState<P>): bool {
    |s.results| == 0 && !s.isLoading && !IsBlank(s.query)
  }

  /** `hasResults` */
  function HasResults<P>(s: SearchState<P>): bool {
    |s.results| > 0
  }

  /** A first page that came back empty for a non-blank query is reported as
      empty, never as having results. */
  lemma EmptyAnswerIsEmpty<P>(s: SearchState<P>, total: int, hasMore: bool)
    requires !IsBlank(s.query)
    ensures IsEmpty(Perform(s, s.query, 1, false, Answer([], total, hasMore)))
    ensures !HasResults(Perform(s, s.query, 1, false, Answer([], total, hasMore)))
  {
  }

  // ================================================================ the hook

  class SearchHook<P> {
    var state: SearchState<P>
    /** The query after the 300 ms debounce. */
    var debouncedQuery: Str
    const limit: int

    ghost predicate Valid()
      reads this
    {
      Consistent(state) && limit >= 1
    }

    constructor(initialQuery: Str, limit: int)
      requires limit >= 1
      ensures state == Initial(initialQuery) && debouncedQuery == initialQuery
      ensures this.limit == limit && Valid()
    {
      state := Initial(initialQuery);
      debouncedQuery := initialQuery;
      this.limit := limit;
    }

    /** `performSearch`: returns the request it sent, if any. */
    method PerformSearch(query: Str, page: int, append: bool, outcome: FetchOutcome<P>)
      returns (sent: Option<SearchRequest>)
      requires Valid() && page >= 1
      modifies this
      ensures Valid() && debouncedQuery == old(debouncedQuery)
      ensures state == Perform(old(state), query, page, append, outcome)
      ensures sent.None? <==> IsBlank(query)
      ensures sent.Some? ==> sent.value == SearchRequest(query, limit, RequestOffset(page, limit))
    {
      if IsBlank(query) {
        state := BlankResults(state);
        return None;
      }
      state := StartLoading(state);
      sent := Some(SearchRequest(query, limit, (page - 1) * limit));
      match outcome {
        case Aborted =>
          return;
        case Failed(message) =>
          state := Fail(state, ErrorMessage(message), append);
        case ThrownNonError =>
          state := Fail(state, GenericError, append);
        case Answer(posts, total, hasMore) =>
          state := Succeed(state, posts, total, hasMore, page, append);
      }
    }

    method SetQuery(q: Str)
      requires Valid()
      modifies this
      ensures Valid() && state == QuerySet(old(state), q) && debouncedQuery == old(debouncedQuery)
    {
      state := state.(query := q, currentPage := 1);
    }

    /** `loadMore`: only when idle, with more pages and a non-blank
        debounced query. */
    method LoadMore(outcome: FetchOutcome<P>) returns (sent: Option<SearchRequest>)
      requires Valid()
      modifies this
      ensures Valid() && debouncedQuery == old(debouncedQuery)
      ensures !old(state.isLoading) && old(state.hasMore) && !IsBlank(debouncedQuery) ==>
        state == Perform(old(state), debouncedQuery, old(state.currentPage) + 1, true, outcome)
        && sent == Some(SearchRequest(debouncedQuery, limit, RequestOffset(old(state.currentPage) + 1, limit)))
      ensures !(!old(state.isLoading) && old(state.hasMore) && !IsBlank(debouncedQuery)) ==>
        state == old(state) && sent.None?
    {
      if !state.isLoading && state.hasMore && !IsBlank(debouncedQuery) {
        var page := state.currentPage + 1;
        PerformConsistent(state, debouncedQuery, page, true, outcome);
        state := Perform(state, debouncedQuery, page, true, outcome);
        sent := Some(SearchRequest(debouncedQuery, limit, RequestOffset(page, limit)));
      } else {
        sent := None;
      }
    }

    method ClearSearch()
      requires Valid()
      modifies this
      ensures Valid() && state == ClearedState() && debouncedQuery == old(debouncedQuery)
    {
      state := SearchState("", [], false, None, 0, false, 1);
    }

    method ClearError()
      requires Valid()
      modifies this
      ensures Valid() && state == ErrorCleared(old(state)) && debouncedQuery == old(debouncedQuery)
    {
      state := state.(error := None);
    }

    /** The debounce timer delivers `value`; the effect then searches for it,
        or clears the results when it is blank, unless the query has changed
        again in the meantime. */
    method DebounceSettled(value: Str, outcome: FetchOutcome<P>) returns (sent: Option<SearchRequest>)
      requires Valid()
      modifies this
      ensures Valid() && debouncedQuery == value
      ensures value != old(state.query) ==> state == old(state) && sent.None?
      ensures value == old(state.query) ==> state == Perform(old(state), value, 1, false, outcome)
      ensures sent.Some? <==> value == old(state.query) && !IsBlank(value)
    {
      debouncedQuery := value;
      if value != state.query {
        return None;
      }
      if !IsBlank(value) {
        sent := PerformSearch(value, 1, false, outcome);
      } else {
        state := BlankResults(state);
        sent := None;
      }
    }
  }
}
