/** The keyboard-navigable search results listbox
    (src/components/search/SearchResults.tsx): its view choice, the
    selection flag of each option, the preview text, the count line and the
    load-more button. */
module ResultListbox {
  import opened Common
  import opened Text
  import opened SearchLib
  import opened Display

  /** Previews take this many characters, then always an ellipsis. */
  const PreviewLength: nat := 150

  datatype Result = Result(title: Str, content: Str, slug: Str, tags: seq<Str>)

  /** One option of the listbox. */
  datatype Item = Item(
    id: Str,            // `search-result-<index>`
    selected: bool,     // `aria-selected`
    tabIndex: int,
    titleHtml: Str,
    previewHtml: Str,
    badges: TagBadges)

  datatype View =
    | Skeleton
    | ErrorView(message: Str)
    | NoResults(query: Str)
    | Prompt
    | ListView(count: int, items: seq<Item>, activeDescendant: Option<Str>, loadMore: bool)

  /** The element id of the option at `index`. */
  function OptionId(index: nat): (r: Str)
    ensures StartsWith(r, "search-result-") && r[|"search-result-"|..] == NatToString(index)
  {
    "search-result-" + NatToString(index)
  }

  /** `result.content.slice(0, 150) + '...'` */
  function PreviewText(content: Str): (r: Str)
    ensures |r| <= PreviewLength + |Ellipsis|
    ensures r == Preview(content, PreviewLength)
  {
    Preview(content, PreviewLength)
  }

  function ItemOf(result: Result, index: nat, query: Str, selectedIndex: int): (it: Item)
    ensures it.selected <==> index == selectedIndex
    ensures it.tabIndex == if it.selected then 0 else -1
    ensures StripMarks(it.titleHtml) == EscapeHtml(result.title)
    ensures StripMarks(it.previewHtml) == EscapeHtml(PreviewText(result.content))
    ensures it.id == OptionId(index) && it.badges == TagOverflow(result.tags)
  {
    HighlightStripsToEscaped(result.title, query);
    HighlightStripsToEscaped(PreviewText(result.content), query);
    var selected := selectedIndex == index;
    Item(OptionId(index), selected, if selected then 0 else -1,
         HighlightSearchTerms(result.title, query),
         HighlightSearchTerms(PreviewText(result.content), query),
         TagOverflow(result.tags))
  }

  function Items(results: seq<Result>, query: Str, selectedIndex: int): (r: seq<Item>)
    ensures |r| == |results|
    ensures forall i :: 0 <= i < |r| ==> r[i] == ItemOf(results[i], i, query, selectedIndex)
  {
    seq(|results|, i requires 0 <= i < |results| => ItemOf(results[i], i, query, selectedIndex))
  }

  /** At most one option is selected, and it is the one at `selectedIndex`;
      an index of -1 (or one past the list) selects none. */
  lemma AtMostOneSelected(results: seq<Result>, query: Str, selectedIndex: int)
    ensures var items := Items(results, query, selectedIndex);
            (forall i, j :: 0 <= i < j < |items| ==> !(items[i].selected && items[j].selected))
            && (forall i :: 0 <= i < |items| && items[i].selected ==> i == selectedIndex)
            && (0 <= selectedIndex < |items| ==> items[selectedIndex].selected)
  {
  }

  /** `total || results.length` (an absent or zero total is falsy). */
  function CountShown(total: Option<int>, resultCount: nat): int
  {
    if total.Some? && total.value != 0 then total.value else resultCount
  }

  /** The view, checked in the component's order: the skeleton comes before
      the error. */
  function ChooseView(results: seq<Result>, query: Str, isLoading: bool, error: Option<Str>,
                      total: Option<int>, hasMore: Option<bool>, hasLoadMoreHandler: bool,
                      selectedIndex: Option<int>): (v: View)
    ensures v.Skeleton? <==> isLoading && results == []
    ensures v.ErrorView? <==> !(isLoading && results == []) && error.Some? && error.value != []
    ensures v.ErrorView? ==> v.message == error.value
    ensures v.NoResults? <==> !v.Skeleton? && !v.ErrorView? && results == [] && !IsBlank(query)
    ensures v.Prompt? <==> !v.Skeleton? && !v.ErrorView? && IsBlank(query)
    ensures v.ListView? <==> !v.Skeleton? && !v.ErrorView? && results != [] && !IsBlank(query)
    ensures v.ListView? ==> v.count == CountShown(total, |results|)
    ensures v.ListView? ==> v.items == Items(results, query, Sel(selectedIndex))
    ensures v.ListView? ==> (v.activeDescendant.Some? <==> Sel(selectedIndex) >= 0)
    ensures v.ListView? && Sel(selectedIndex) >= 0 ==> v.activeDescendant.value == OptionId(Sel(selectedIndex))
    ensures v.ListView? ==> (v.loadMore <==> hasMore == Some(true) && hasLoadMoreHandler)
  {
    var sel := Sel(selectedIndex);
    if isLoading && |results| == 0 then Skeleton
    else if error.Some? && error.value != [] then ErrorView(error.value)
    else if |results| == 0 && !IsBlank(query) then NoResults(query)
    else if IsBlank(query) then Prompt
    else ListView(CountShown(total, |results|), Items(results, query, sel),
                  if sel >= 0 then Some(OptionId(sel)) else None,
                  hasMore == Some(true) && hasLoadMoreHandler)
  }

  /** `selectedIndex = -1` as the default. */
  function Sel(selectedIndex: Option<int>): int
  {
    if selectedIndex.Some? then selectedIndex.value else -1
  }

  /** With a blank query and nothing loading, the prompt is shown whatever
      results are still held. */
  lemma BlankQueryPrompt(results: seq<Result>, query: Str, total: Option<int>)
    requires IsBlank(query)
    ensures ChooseView(results, query, false, None, total, Some(true), true, Some(0)) == Prompt
  {
  }

  /** Where a click on an option goes without an `onResultClick` handler. */
  datatype ClickEffect = CallHandler(index: nat) | Push(path: Str)

  function Click(results: seq<Result>, index: nat, hasHandler: bool): (e: ClickEffect)
    requires index < |results|
    ensures hasHandler <==> e.CallHandler?
    ensures e.CallHandler? ==> e.index == index
    ensures e.Push? ==> e.path == "/blog/" + results[index].slug
  {
    if hasHandler then CallHandler(index) else Push("/blog/" + results[index].slug)
  }
}
