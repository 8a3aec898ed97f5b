/** The search results view of the search page
    (src/components/custom/search-results.tsx): which of its four views it
    renders, and what each result card shows. */
module ResultCards {
  import opened Common
  import opened Text
  import opened SearchLib
  import opened Display

  /** Excerpts are cut at this many characters. */
  const ExcerptLength: nat := 150

  /** The fields of a search result the view uses. */
  datatype Result = Result(title: Str, content: Str, slug: Str, tags: seq<Str>)

  /** One rendered card: the link, the highlighted HTML of the title and the
      excerpt, and the tag badges. */
  datatype Card = Card(href: Str, titleHtml: Str, excerptHtml: Str, badges: TagBadges)

  datatype View =
    | ErrorView(message: Str)
    | InitialLoading
    | NoResults(query: Str)
    | ListView(summary: bool, cards: seq<Card>, loadMore: bool, extraSkeletons: bool)

  /** `getExcerpt(content)` */
  function Excerpt(content: Str): (r: Str)
    ensures |content| <= ExcerptLength ==> r == content
    ensures |content| > ExcerptLength ==> r == content[..ExcerptLength] + Ellipsis
  {
    Truncate(content, ExcerptLength)
  }

  /** `SearchResultItem` */
  function CardOf(result: Result, query: Str): (c: Card)
    ensures StripMarks(c.titleHtml) == EscapeHtml(result.title)
    ensures StripMarks(c.excerptHtml) == EscapeHtml(Excerpt(result.content))
    ensures c.href == "/blog/" + result.slug
    ensures c.badges == TagOverflow(result.tags)
  {
    HighlightStripsToEscaped(result.title, query);
    HighlightStripsToEscaped(Excerpt(result.content), query);
    Card("/blog/" + result.slug,
         HighlightSearchTerms(result.title, query),
         HighlightSearchTerms(Excerpt(result.content), query),
         TagOverflow(result.tags))
  }

  /** Without its highlight marks, a card's HTML shows the browser exactly the
      title and the excerpt, whatever the query. */
  lemma CardShowsText(result: Result, query: Str)
    ensures Unescape(StripMarks(CardOf(result, query).titleHtml)) == result.title
    ensures Unescape(StripMarks(CardOf(result, query).excerptHtml)) == Excerpt(result.content)
  {
    UnescapeEscapeHtml(result.title);
    UnescapeEscapeHtml(Excerpt(result.content));
  }

  function Cards(results: seq<Result>, query: Str): (r: seq<Card>)
    ensures |r| == |results|
    ensures forall i :: 0 <= i < |r| ==> r[i] == CardOf(results[i], query)
  {
    seq(|results|, i requires 0 <= i < |results| => CardOf(results[i], query))
  }

  /** `if (error)`: the empty message is falsy. */
  predicate HasError(error: Option<Str>) {
    error.Some? && error.value != []
  }

  /** The view `SearchResults` renders, its if-chain in order. */
  function ChooseView(results: seq<Result>, query: Str, isLoading: bool, error: Option<Str>, hasMore: bool): (v: View)
    ensures HasError(error) <==> v.ErrorView?
    ensures v.ErrorView? ==> v.message == error.value
    ensures v.InitialLoading? <==> !HasError(error) && isLoading && results == []
    ensures v.NoResults? <==> !HasError(error) && !isLoading && results == [] && !IsBlank(query)
    ensures v.ListView? ==> v.cards == Cards(results, query)
    ensures v.ListView? ==> (v.summary <==> !IsBlank(query) && results != [])
    ensures v.ListView? ==> (v.loadMore <==> hasMore)
    ensures v.ListView? ==> (v.extraSkeletons <==> isLoading && results != [])
  {
    if HasError(error) then ErrorView(error.value)
    else if isLoading && |results| == 0 then InitialLoading
    else if !IsBlank(query) && |results| == 0 && !isLoading then NoResults(query)
    else ListView(!IsBlank(query) && |results| > 0, Cards(results, query), hasMore, isLoading && |results| > 0)
  }

  /** Results on screen are never hidden by the loading state: with results
      and no error, the list is shown. */
  lemma ResultsStayVisible(results: seq<Result>, query: Str, isLoading: bool, error: Option<Str>, hasMore: bool)
    requires results != [] && !HasError(error)
    ensures ChooseView(results, query, isLoading, error, hasMore).ListView?
  {
  }

  /** The hook's empty answer for a real query shows the no-results view once
      loading is over, and a blank query shows an empty list, not "no results". */
  lemma EmptyViews(query: Str, hasMore: bool)
    ensures !IsBlank(query) ==> ChooseView([], query, false, None, hasMore) == NoResults(query)
    ensures IsBlank(query) ==> ChooseView([], query, false, None, hasMore) == ListView(false, [], hasMore, false)
  {
  }
}
