# A verified model of the blog's rules

The blog is a Next.js application over a Prisma/PostgreSQL data layer and
Supabase authentication.  Beneath its pages, API routes and hooks sit small
sequential rules: how a search query becomes a full-text expression, how a
search is rate limited and validated, how the search screens move their
state and cursor, how a session guards the admin area, and how posts are
updated, paged, tagged, counted, slugged, ranked and previewed.  This
project states those rules in Dafny and proves what they promise.

- **Search library and endpoint** (`SearchLib`, `SearchRoute`): query
  normalisation into `term:*` terms joined by ` | `, HTML escaping and
  `<mark>` highlighting on escaped text, the early returns and `hasMore` of
  `searchPosts`, the popular-term list; the per-address fixed-window rate
  limiter as a class over a map, parameter validation, tag parsing,
  pagination fields and the status of each answer.
- **Client search state** (`UseSearch`, `SearchModal`, `SearchInput`,
  `SearchPage`, `Display`, `ResultCards`, `ResultListbox`): the `useSearch`
  state record and the hook as a class holding it; the modal's keyboard
  cursor; the recent-searches list, most recent first, without duplicates,
  at most ten; the dropdown flags; which view each results component shows,
  excerpts, tag overflow and counts.
- **Authentication** (`Auth`, `Middleware`): the `authReducer` state
  machine, the provider's sign-in, sign-out and session check as methods on
  a class, and the redirect decision for `/admin` and `/auth/login`.
- **Data layer** (`Posts`): `published_at` on create and update, the
  conditional update of a row, paging with `skip`/`take`, view-id
  validation, not-found results, and `getTags`' counting loop and ordering.
- **Admin pages** (`NewPost`, `AdminStats`, `Upload`): slug generation,
  tag and category normalisation on submit, the dashboard statistics, and
  the image upload checks with the object key and URL.
- **Sidebar and cards** (`RelatedPosts`, `ExplorePosts`, `TagClouds`,
  `PostCard`): related-post ranking, category ordering, tag-cloud sizing and
  paths, reading time, previews, date and view fallbacks.
- **Shared pieces** (`Common`, `Text`, `Sorting`): `Option`/`Result`,
  string helpers (`trim`, `split`, ASCII `toLowerCase`, run collapsing), and
  a stable insertion sort by integer key standing for `Array.prototype.sort`
  with a comparator.

What the program learns from the outside world is an argument: the clock
(`now`), the UUID of an upload, the rows and errors a database query
returns, the outcome of each `fetch`, of each identity-provider call and of
the storage upload, and whether the environment is configured.

## Model

| member | source | states |
|---|---|---|
| SearchLib.StripSymbols | src/lib/search.ts:39 | every character that is not a word character, whitespace or a Hangul syllable becomes a space; length and all other characters are kept |
| SearchLib.Terms | src/lib/search.ts:37-44 | every term of the normalized query is non-empty and made only of lower-case word characters and Hangul syllables |
| SearchLib.Segments | src/lib/search.ts:49 | each term becomes `term:*`, one segment per term, in order |
| SearchLib.NormalizeSearchQuery | src/lib/search.ts:35-50 | the normalized query is empty exactly when no term survives normalization |
| SearchLib.NormalizedChars | src/lib/search.ts:37-41 | the normalized text holds only spaces and lower-case term characters |
| SearchLib.NormalizeEmptyIff | src/lib/search.ts:44-46 | the normalized query is empty if and only if the raw query holds no word character or Hangul syllable |
| SearchLib.NormalizeShape | src/lib/search.ts:44-49 | splitting a non-empty result on spaces gives the `term:*` segments interleaved with `\|` separators: the output is exactly the OR of the prefix-matched terms |
| SearchLib.NormalizeBarCount | src/lib/search.ts:49 | a query of n terms has exactly n - 1 `\|` operators |
| SearchLib.EscapeHtmlOnePass | src/lib/search.ts:194-201 | the five chained global replacements equal escaping each character once: the `&` replacement runs first, so no entity is escaped twice |
| SearchLib.EscapeHtmlSafe | src/lib/search.ts:194-201 | escaped text holds no `<`, `>`, `"` or `'`, and every `&` in it starts one of the five entities |
| SearchLib.UnescapeEscapeHtml | src/lib/search.ts:194-201 | decoding the five entities restores the original text: escaping loses nothing |
| SearchLib.FirstMatch | src/lib/search.ts:212-221 | the match at a position is a term equal to the text there up to ASCII case, and no term matches when none is found |
| SearchLib.Mark | src/lib/search.ts:220-221 | removing the marks gives back the text; every marked piece equals some term up to case; and the output marks every match: a character is left alone exactly where no term matches, and where one does, the stretch the alternation picks is marked and the scan resumes after it |
| SearchLib.MarksEveryMatchUnique | src/lib/search.ts:220-221 | only one output marks every match, so the marking is fully determined by the text and the terms |
| SearchLib.HighlightTerms | src/lib/search.ts:212-216 | no highlight term is empty, so every alternative of the expression consumes text |
| SearchLib.HighlightSearchTerms | src/lib/search.ts:206-222 | a blank query gives the escaped text and nothing else; otherwise the output is the escaped text with every leftmost term match wrapped in the `<mark>` element |
| SearchLib.HighlightStripsToEscaped | src/lib/search.ts:206-222 | removing the `<mark>` tags from any highlighted result gives exactly the escaped text: highlighting adds only marks, and the user text between them stays escaped |
| SearchLib.SearchPosts | src/lib/search.ts:55-188 | a blank query or one that normalizes to nothing gives an empty page without a database call; otherwise a failing database gives the search error, and a page holds the rows and total with `hasMore` exactly when offset + limit < total (defaults 10 and 0) |
| SearchLib.BlankQueryNormalizesEmpty | src/lib/search.ts:62-70 | a blank query also normalizes to nothing, so the first early return subsumes no case of the second |
| SearchLib.PopularSearchTerms | src/lib/search.ts:227-240 | the result is a prefix of the fixed list of twenty: ten by default, `limit` of them for 0..20, all twenty above, and twenty minus \|limit\| (at least none) for a negative limit, as `slice(0, limit)` does |
| SearchRoute.RateCheck | src/app/api/search/route.ts:18-39 | an absent or expired window (strictly after its reset time) starts afresh with one request; a full window refuses and changes nothing; otherwise one more request is counted; the reset time is reported; no other address's entry changes |
| SearchRoute.RateCheckKeepsValid | src/app/api/search/route.ts:25-38 | every window's count stays between 1 and 30, and the reported remaining count lies in 0..29 |
| SearchRoute.ResetTimeIsInclusive | src/app/api/search/route.ts:25 | a full window still refuses at its reset time and allows one millisecond later |
| SearchRoute.OpenWindowAllows | src/app/api/search/route.ts:32-38 | within an open window, exactly as many further requests are allowed as the window has room for |
| SearchRoute.WindowAllowsAtMostMax | src/app/api/search/route.ts:18-39 | requests within 60 seconds of a window's start are allowed at most 30 times |
| SearchRoute.RateLimiter.constructor | src/app/api/search/route.ts:15 | the limiter starts with no windows |
| SearchRoute.RateLimiter.CheckRateLimit | src/app/api/search/route.ts:18-39 | the decision and the new map are those of the rate check on the old map, and the count bounds keep holding |
| SearchRoute.ClientIp | src/app/api/search/route.ts:45-47 | the address is never empty; when the first comma-separated piece of `x-forwarded-for` is non-empty it is that piece (a comma-free prefix of the header ending at a comma or the end), otherwise `x-real-ip` when non-empty, otherwise `unknown` |
| SearchRoute.CoerceNatToString | src/app/api/search/route.ts:8-9 | coercing the decimal text of a natural number gives that number |
| SearchRoute.ValidateAsWritten | src/app/api/search/route.ts:6-80 | the schema accepts exactly a query of 1..100 characters, a coerced limit in 1..50 and a coerced offset of at least 0, where a missing parameter arrives as `null` and coerces to 0 |
| SearchRoute.MissingLimitRejected | src/app/api/search/route.ts:8-73 | a request without `limit` is always rejected as written |
| SearchRoute.MissingLimitExample | src/app/api/search/route.ts:8-73 | `?q=react` is rejected as written and accepted with limit 10 and offset 0 by the intended schema |
| SearchRoute.Validate | src/app/api/search/route.ts:6-12 | acceptance is exactly the schema's bounds with the defaults 10 and 0 applied to missing parameters; accepted parameters lie in those bounds and carry the query, category and tags through |
| SearchRoute.ValidateAgrees | src/app/api/search/route.ts:6-12 | when both numbers are given, the intended schema and the one as written agree |
| SearchRoute.ParseTags | src/app/api/search/route.ts:96 | an empty or missing `tags` gives no filter; otherwise every tag is non-empty and trimmed |
| SearchRoute.ParsedTagsHaveNoComma | src/app/api/search/route.ts:96 | no parsed tag holds a comma |
| SearchRoute.ParseTagsKeepsPiece | src/app/api/search/route.ts:96 | conversely, every comma piece that is not blank once trimmed is a parsed tag, placed after the kept pieces before it and before the kept pieces after it |
| SearchRoute.ParseTagsJoin | src/app/api/search/route.ts:96 | parsing the comma-joined list of clean tags gives the list back |
| SearchRoute.CeilDiv | src/app/api/search/route.ts:63-128 | `Math.ceil(a / b)` is the least r with a <= r * b |
| SearchRoute.MakePagination | src/app/api/search/route.ts:123-130 | the offset lies on the reported current page, which is at least 1, and the page count covers the total with no empty page |
| SearchRoute.HasMoreMeansLaterPage | src/app/api/search/route.ts:127-129 | when more results follow, the current page is before the last one |
| SearchRoute.ErrorResponse | src/app/api/search/route.ts:144-167 | an error is answered 503 exactly when its message carries the search-failure text, and 500 exactly when it does not |
| SearchRoute.Answer | src/app/api/search/route.ts:52-142 | a refused request gets 429 with the remaining count and the reset second rounded up; a failed validation gets 400; an accepted search answers with the search library's error as `ErrorResponse` maps it, or with its page: the rows, the pagination object `MakePagination` builds from the total, the requested limit and offset and `hasMore` (so the total page count covers the total and the requested offset lies on the reported page), the query, category and parsed tags and the limiter figures; a found page has bounded limit and offset, page at least 1 and `hasMore` exactly when offset + limit < total |
| SearchRoute.SearchFailureIsUnavailable | src/app/api/search/route.ts:148-157 | the error thrown by a failing search is answered 503 |
| SearchRoute.Respond | src/app/api/search/route.ts:52-142 | with the defaults applied, an allowed request is answered 400 exactly when validation fails, and one with a valid query and no `limit` or `offset` is never answered 400; otherwise as `Answer` says |
| SearchRoute.RespondAsWritten | src/app/api/search/route.ts:52-80 | through the schema as written, an allowed request is answered 400 exactly when that schema refuses it, so every allowed request without `limit` is answered 400 |
| SearchRoute.DbFailureIsUnavailable | src/app/api/search/route.ts:108-157 | a valid, allowed request whose database call fails is answered 503 |
| SearchRoute.Get | src/app/api/search/route.ts:42-168 | the handler records the request under the client address as the rate check says and answers as `Respond` does for that decision |
| SearchRoute.GetAsWritten | src/app/api/search/route.ts:42-168 | the handler as written records the request as the rate check says and answers as `RespondAsWritten` does for that decision |
| UseSearch.Initial | src/hooks/useSearch.ts:32-40 | the hook starts on the initial query with no results, not loading, no error, total 0, no more pages, page 1 |
| UseSearch.QuerySet | src/hooks/useSearch.ts:163-169 | setting the query changes the query, resets the page to 1 and keeps everything else |
| UseSearch.ClearedState | src/hooks/useSearch.ts:183-193 | clearing gives the initial state of an empty query |
| UseSearch.ErrorCleared | src/hooks/useSearch.ts:198-203 | clearing the error removes it and changes nothing else |
| UseSearch.BlankResults | src/hooks/useSearch.ts:56-66 | a blank query empties the results, total and `hasMore`, stops loading and clears the error, keeping the query and page |
| UseSearch.StartLoading | src/hooks/useSearch.ts:78-82 | a request marks the state loading without an error and keeps the results shown so far |
| UseSearch.Succeed | src/hooks/useSearch.ts:117-125 | an answer replaces the results, or appends to them when loading more, and records its total, `hasMore` and page; loading and error end |
| UseSearch.Fail | src/hooks/useSearch.ts:151-156 | a failure stops loading, sets the message, keeps the results only when appending, and leaves total, `hasMore`, page and query alone |
| UseSearch.ErrorMessage | src/hooks/useSearch.ts:135-149 | a message naming 429 reads as too many requests, one naming 503 as unavailable, a network failure as a connection problem, then one naming `timeout` as a timeout, with that precedence; any other message is kept as it is |
| UseSearch.RequestOffset | src/hooks/useSearch.ts:84 | the offset of a page is never negative and is 0 for the first page |
| UseSearch.NextPageOffset | src/hooks/useSearch.ts:84-176 | loading the next page asks for the rows right after the current ones |
| UseSearch.RoundTripPage | src/hooks/useSearch.ts:84 | the page the API reports for the requested offset is the page the hook asked for |
| UseSearch.Perform | src/hooks/useSearch.ts:51-158 | a blank query blanks the results without a request; otherwise the state goes through loading and ends as the answer, the mapped error message, or the generic message for a non-`Error` throw; an aborted request leaves it loading |
| UseSearch.PerformConsistent | src/hooks/useSearch.ts:51-158 | a search keeps the page at least 1 and never leaves an error beside a loading state |
| UseSearch.LoadMoreAppends | src/hooks/useSearch.ts:119-176 | loading more keeps the old results as a prefix, adds the new page after them and advances the page by one |
| UseSearch.FailureKeepsOnlyAppended | src/hooks/useSearch.ts:155 | a failed first search empties the results; a failed load-more keeps them |
| UseSearch.EmptyAnswerIsEmpty | src/hooks/useSearch.ts:253-254 | an empty first answer for a non-blank query is reported as empty and never as having results |
| UseSearch.SearchHook.constructor | src/hooks/useSearch.ts:29-46 | the hook starts in the initial state with the debounced query equal to the initial query |
| UseSearch.SearchHook.PerformSearch | src/hooks/useSearch.ts:51-158 | the new state is `Perform` of the old one; a request is sent exactly for a non-blank query, with the hook's limit and the page's offset |
| UseSearch.SearchHook.SetQuery | src/hooks/useSearch.ts:163-169 | the state becomes `QuerySet` of the old one; the debounced query is untouched |
| UseSearch.SearchHook.LoadMore | src/hooks/useSearch.ts:174-178 | when not loading, more pages exist and the debounced query is not blank, the next page is requested and appended; otherwise nothing changes and nothing is sent |
| UseSearch.SearchHook.ClearSearch | src/hooks/useSearch.ts:183-193 | the state becomes the cleared state |
| UseSearch.SearchHook.ClearError | src/hooks/useSearch.ts:198-203 | only the error is cleared |
| UseSearch.SearchHook.DebounceSettled | src/hooks/useSearch.ts:206-225 | a settled value that differs from the current query changes nothing; one equal to it runs the first-page search, which sends a request exactly when it is not blank |
| SearchModal.Down | src/components/custom/search-modal.tsx:77-83 | ArrowDown moves the selection one result further until the last, keeps it in range, and stays put at the end |
| SearchModal.Up | src/components/custom/search-modal.tsx:84-87 | ArrowUp moves the selection one back and never below -1, which means no selection |
| SearchModal.PostPath | src/components/custom/search-modal.tsx:93 | the post page of a result is `/blog/` followed by its slug |
| SearchModal.ClickPathAsWritten | src/components/custom/search-modal.tsx:125-129 | a clicked result navigates to `/posts/` followed by its slug |
| SearchModal.ClickAndEnterDisagree | src/components/custom/search-modal.tsx:93-128 | for every slug the click target differs from the Enter target |
| SearchModal.ClickPath | src/components/custom/search-modal.tsx:125-129 | the corrected click target is the post page that Enter opens |
| SearchModal.DownFromNone | tests/search-modal.spec.ts:50-51 | k presses of ArrowDown from no selection select result k - 1, stopping at the last result |
| SearchModal.DownTimesFrom | src/components/custom/search-modal.tsx:77-83 | k presses of ArrowDown from a valid selection advance it by k, capped at the last result |
| SearchModal.UpUndoesDown | src/components/custom/search-modal.tsx:77-87 | ArrowUp undoes an ArrowDown that moved |
| SearchModal.EnterTarget | src/components/custom/search-modal.tsx:88-95 | Enter navigates exactly when the selection indexes a result, and then to that result's post page |
| SearchModal.Modal.constructor | src/components/custom/search-modal.tsx:19-21 | the modal starts with no selection |
| SearchModal.Modal.ResultsChanged | src/components/custom/search-modal.tsx:41-43 | new results reset the selection to none |
| SearchModal.Modal.SetOpen | src/components/custom/search-modal.tsx:14 | opening or closing keeps results and selection |
| SearchModal.Modal.KeyDown | src/components/custom/search-modal.tsx:69-97 | a closed modal ignores keys; Escape closes, the arrows move the selection as `Down` and `Up` say, Enter opens the selected result's page, other keys do nothing; the selection stays in range |
| SearchModal.Modal.ResultClicked | src/components/custom/search-modal.tsx:125-129 | the corrected click closes the modal and navigates to the clicked result's post page, the very path Enter opens for that result |
| SearchModal.Modal.ResultClickedAsWritten | src/components/custom/search-modal.tsx:125-129 | the click as written closes the modal and navigates to `/posts/<slug>`, which is never the path Enter opens for that result |
| SearchInput.Without | src/components/custom/search-input.tsx:291 | the filtered list holds exactly the earlier entries other than the new query |
| SearchInput.PushRecent | src/components/custom/search-input.tsx:291 | the new list has the query first, followed by the earlier entries other than the query in their order, cut to ten entries in all |
| SearchInput.WithoutLength | src/components/custom/search-input.tsx:291 | filtering out the query removes exactly its occurrences |
| SearchInput.PushRecentLength | src/components/custom/search-input.tsx:291 | the new list has one more entry than the earlier entries other than the query, capped at ten |
| SearchInput.RecordSearch | src/components/custom/search-input.tsx:287-292 | a blank query leaves the recent list alone; any other is pushed to its front |
| SearchInput.OccurrencesAbsent | src/components/custom/search-input.tsx:291 | an entry absent from the list occurs zero times |
| SearchInput.PushRecentOnce | src/components/custom/search-input.tsx:291 | the query occurs exactly once in the new list: no duplicates of it are kept |
| SearchInput.PushRecentKeepsOrder | src/components/custom/search-input.tsx:291 | the entries after the query keep their earlier relative order |
| SearchInput.WithoutAbsent | src/components/custom/search-input.tsx:291 | filtering out an absent query changes nothing |
| SearchInput.PushRecentIdempotent | src/components/custom/search-input.tsx:291 | searching the same query twice in a row gives the same list as once |
| SearchInput.RepeatSearchUnchanged | src/components/custom/search-input.tsx:291 | a list already headed by the query, without other copies of it and within the limit, is unchanged by searching it again |
| SearchInput.SuggestionPanel | src/components/custom/search-input.tsx:43-117 | the panel renders exactly when one of the three lists is non-empty; it shows all suggestions, exactly the first min(5, n) recent searches and the first min(8, n) popular searches |
| SearchInput.SearchBox.constructor | src/components/custom/search-input.tsx:136-137 | the box starts unfocused with the dropdown closed |
| SearchInput.SearchBox.InputChanged | src/components/custom/search-input.tsx:172-182 | the new value is reported, and the dropdown opens exactly for a non-blank value when suggestions are on |
| SearchInput.SearchBox.Focused | src/components/custom/search-input.tsx:184-190 | focus marks the box focused and opens the dropdown when recent or popular searches exist, keeping it open otherwise |
| SearchInput.SearchBox.Cleared | src/components/custom/search-input.tsx:192-196 | clearing closes the dropdown |
| SearchInput.SearchBox.SuggestionSelected | src/components/custom/search-input.tsx:198-203 | a chosen suggestion becomes the value, is reported, and closes the dropdown |
| SearchInput.SearchBox.Dismissed | src/components/custom/search-input.tsx:141-170 | an outside click or Escape closes the dropdown and unfocuses the box |
| SearchInput.SearchBox.Dropdown | src/components/custom/search-input.tsx:248-259 | a panel shows exactly when the dropdown is open and some list has content |
| SearchInput.SearchBar.constructor | src/components/custom/search-input.tsx:273-285 | the bar starts with the saved recent searches |
| SearchInput.SearchBar.HandleSearch | src/components/custom/search-input.tsx:287-301 | the recent list becomes `RecordSearch` of the old one, and the query is reported exactly when it is not blank |
| SearchPage.SearchHidesWelcome | src/app/search/page.tsx:58-64 | once a non-blank query is set the welcome panel is hidden, whatever the results |
| SearchPage.ClearShowsWelcome | src/app/search/page.tsx:58-64 | after clearing, the welcome panel shows again |
| SearchPage.DisplayedRecent | src/app/search/page.tsx:180 | the welcome panel lists exactly the first min(8, n) recent searches, in order |
| SearchPage.Page.constructor | src/app/search/page.tsx:34-47 | the page starts with the saved recent searches and the welcome panel shown |
| SearchPage.Page.HandleSearch | src/app/search/page.tsx:66-92 | a blank query only navigates to `/search`; any other navigates to its URL, is pushed to the front of the recent searches and becomes the hook's query |
| SearchPage.Page.HandleClear | src/app/search/page.tsx:94-97 | clearing navigates to `/search` and resets the hook to its cleared state |
| SearchPage.Page.SyncWithUrl | src/app/search/page.tsx:50-55 | afterwards the hook's query is the URL's; when they already agreed nothing changes, otherwise the query is set |
| SearchPage.Page.UpdateWelcome | src/app/search/page.tsx:58-64 | the welcome flag becomes true exactly when the query is blank and there are no results |
| Display.TagOverflow | src/components/custom/blog-post-card.tsx:189-198 | the badges are the first three tags, and a `+n` badge appears exactly when there are more, with n the number left out |
| Display.Truncate | src/components/custom/search-results.tsx:59-62 | text within the limit is kept whole; longer text becomes its first `max` characters followed by `...` |
| Display.TruncateIsPrefix | src/components/custom/blog-post-card.tsx:41-44 | a truncated text without its ellipsis is a prefix of the original |
| Display.Preview | src/components/search/SearchResults.tsx:223 | the unconditional preview is always a prefix of at most `max` characters followed by `...` |
| Display.PreviewVersusTruncate | src/components/search/SearchResults.tsx:223 | the listbox preview equals the conditional truncation exactly when the text is longer than the limit: short texts gain a stray ellipsis |
| ResultCards.Excerpt | src/components/custom/search-results.tsx:59-62 | a content of at most 150 characters is shown whole, a longer one as its first 150 characters and `...` |
| ResultCards.CardOf | src/components/custom/search-results.tsx:56-138 | once the marks are removed, the title and excerpt HTML are exactly the escaped title and excerpt; the card links to `/blog/<slug>` and shows the tag badges |
| ResultCards.CardShowsText | src/components/custom/search-results.tsx:73-108 | decoding a card's title and excerpt without their marks gives back the post's own title and excerpt: highlighting loses no text |
| ResultCards.Cards | src/components/custom/search-results.tsx:223-229 | one card per result, in order |
| ResultCards.ChooseView | src/components/custom/search-results.tsx:155-254 | an error wins and shows its message; otherwise a first load shows skeletons, an empty non-blank search shows the no-results view, and else the list, with the summary exactly for a non-blank query with results, the load-more button exactly when more exist and extra skeletons exactly while loading more |
| ResultCards.ResultsStayVisible | src/components/custom/search-results.tsx:180-246 | results already shown stay listed while more load |
| ResultCards.EmptyViews | src/components/custom/search-results.tsx:194-219 | with no results, a non-blank query shows the no-results view and a blank one an empty list without summary |
| ResultListbox.OptionId | src/components/search/SearchResults.tsx:145 | an option's id is `search-result-` followed by its index |
| ResultListbox.PreviewText | src/components/search/SearchResults.tsx:223 | the preview is the unconditional 150-character preview, at most 153 characters long |
| ResultListbox.ItemOf | src/components/search/SearchResults.tsx:130-246 | an option is selected exactly at the selected index and only then focusable; once the marks are removed its title and preview are the escaped text; it carries its id and badges |
| ResultListbox.Items | src/components/search/SearchResults.tsx:129-248 | one option per result, in order, each for its own index |
| ResultListbox.AtMostOneSelected | src/components/search/SearchResults.tsx:131-158 | at most one option is selected, only the one at the selected index, and that one whenever the index is in range |
| ResultListbox.ChooseView | src/components/search/SearchResults.tsx:114-309 | skeletons exactly on a first load; then the error; then no-results for an empty non-blank search; then the prompt for a blank query; the list otherwise, with the count shown, the options, the active descendant exactly when something is selected, and load-more exactly when more exist and a handler is given |
| ResultListbox.BlankQueryPrompt | src/components/search/SearchResults.tsx:266-277 | a blank query shows the prompt even when results are present |
| ResultListbox.Click | src/components/search/SearchResults.tsx:133-140 | a click calls the handler with the result when one is given, and otherwise navigates to `/blog/<slug>` |
| Auth.Reduce | src/contexts/AuthContext.tsx:23-53 | login sets the user and clears loading and error; logout clears all three; loading sets only the flag; an error sets the message and stops loading, keeping the user; any other action changes nothing |
| Auth.ReduceAllAppend | src/contexts/AuthContext.tsx:73 | dispatching two batches in turn equals dispatching them together |
| Auth.NoUserWithoutLogin | src/contexts/AuthContext.tsx:23-53 | without a login action no user ever appears |
| Auth.FailureThenLogoutForgetsError | src/contexts/AuthContext.tsx:156-160 | an error followed by a logout leaves the signed-out state without the error |
| Auth.MapUser | src/contexts/AuthContext.tsx:76-83 | the user keeps the id, takes the email or the empty text, the creation time or the current time, and the last sign-in time only when it is present and non-empty |
| Auth.NeedsRefreshExactly | src/contexts/AuthContext.tsx:201-208 | a refresh is attempted exactly when fewer than 600 whole seconds remain, and always for a session without expiry; the second condition of the test adds nothing |
| Auth.NeedsRefreshMonotone | src/contexts/AuthContext.tsx:201-208 | once a session needs a refresh it keeps needing one as time passes |
| Auth.AuthProvider.constructor | src/contexts/AuthContext.tsx:16-20 | the provider starts with no user, loading, no error |
| Auth.AuthProvider.Dispatch | src/contexts/AuthContext.tsx:73 | the new state is the reducer applied to the old one |
| Auth.AuthProvider.SignIn | src/contexts/AuthContext.tsx:86-119 | a provider error stops loading and records its message; an answer without a user leaves the state loading; a user is logged in, mapped |
| Auth.AuthProvider.SignOut | src/contexts/AuthContext.tsx:122-164 | whatever the server route and the provider do, the state ends signed out with no error and not loading |
| Auth.AuthProvider.ResetPassword | src/contexts/AuthContext.tsx:167-182 | loading stops, and an error is recorded when the provider reports one |
| Auth.AuthProvider.CheckSession | src/contexts/AuthContext.tsx:185-241 | the check always ends not loading; no session (or a failed lookup) signs out; a session far from expiry logs its user in; near expiry, a refresh-token error signs out, another refresh failure keeps the session's user, and a refreshed session logs in its user |
| Middleware.SameOriginPath | middleware.ts:105 | the corrected guard: a path with one leading `/` not followed by `/` or `\`, holding no tab or newline |
| Middleware.SameOriginPathResolvesOnSite | middleware.ts:103-106 | every reference the corrected guard admits resolves on this site once the URL parser has stripped control characters and removed tabs and newlines |
| Middleware.TabJoinsSlashes | middleware.ts:103-106 | a `/`, a tab or newline and another `/` pass a guard that only looks at the first two characters, yet what the parser reads starts with `//` and names a host; the corrected guard refuses it |
| Middleware.TabExample | middleware.ts:103-106 | `redirectTo=/%09/evil.example` is read by the URL parser as `//evil.example`, a reference naming another host, and the corrected guard refuses it |
| Middleware.LoginTargetAsWritten | middleware.ts:104-105 | the login page redirects to `redirectTo` whenever it is non-empty, else to `/admin` |
| Middleware.DecideAsWritten | middleware.ts:5-111 | missing configuration or a failed session lookup passes through; an `/admin` path without a session goes to the login page with the path as `redirectTo`; a signed-in visit to the login page redirects to the unchecked target |
| Middleware.OpenRedirectExample | middleware.ts:103-106 | a signed-in visit to `/auth/login?redirectTo=https://evil.example` redirects off the site |
| Middleware.LoginTarget | middleware.ts:103-106 | the corrected target always passes the guard and resolves on this site: `redirectTo` when it passes, `/admin` otherwise |
| Middleware.Decide | middleware.ts:5-111 | as written, except that every redirect passes the guard and resolves on this site; a login redirect carries exactly the `/admin` path that was asked for, and a signed-in `/admin` visit is never sent to login |
| Middleware.DecideAgrees | middleware.ts:103-106 | for every missing, empty or same-origin `redirectTo` the corrected middleware decides exactly as the one as written |
| Middleware.LoginRoundTrip | middleware.ts:93-106 | an `/admin` path (which, once parsed, holds no tab or newline) visited signed out goes to login, and after signing in the login page sends the user back to that path |
| Middleware.SignedInOrUnguardedPasses | middleware.ts:92-110 | a request that is neither a signed-out `/admin` visit nor a signed-in login visit passes through |
| Posts.CreatePublishedAt | src/lib/prisma.ts:454-471 | a published post always gets a date: the given one when truthy, now otherwise; an unpublished post keeps a truthy given date and has none otherwise |
| Posts.UpdatePublishedAt | src/lib/prisma.ts:532-549 | the column written is the one `PublishedAtWrite` describes: unpublishing clears the date, a first publication without a date is dated now, an explicit date is kept when truthy and cleared otherwise, and nothing is written when neither field is given |
| Posts.ApplyUpdate | src/lib/prisma.ts:551-566 | title, content, slug and author change only for truthy values; category, date, flag, tags, image and alt text change whenever given; id and views never change |
| Posts.ApplyUpdateIdempotent | src/lib/prisma.ts:551-566 | sending the same update again leaves the row as the first time |
| Posts.EmptyUpdateIsIdentity | src/lib/prisma.ts:551-566 | an update that gives no field changes nothing |
| Posts.GetPostBySlug | src/lib/prisma.ts:78-91 | a query that throws is answered with its message; otherwise the lookup fails with "Post not found" exactly when no published row has the slug, and a found row is published, has the slug and is one of the rows |
| Posts.FindPublishedBySlug | src/lib/prisma.ts:80-90 | the lookup fails with "Post not found" exactly when no published row has the slug; a found row is published, has the slug and is one of the rows |
| Posts.Skip | src/lib/prisma.ts:31 | the first page skips nothing, and no page skips a negative number of rows |
| Posts.PageOf | src/lib/prisma.ts:31-32 | a page holds at most `limit` rows, the ones right after the skipped rows, and is empty past the end |
| Posts.PagesTile | src/lib/prisma.ts:139-140 | pages 1 to n read in order are exactly the first n * limit rows: paging neither skips nor repeats a row |
| Posts.FirstSeen | src/lib/prisma.ts:303-311 | the record's keys are the distinct tags, each once, and no others |
| Posts.Counted | src/lib/prisma.ts:311-312 | each entry pairs a key with its number of occurrences |
| Posts.EntriesCounted | src/lib/prisma.ts:303-312 | the entries of a tally in key order are the counted first-seen tags |
| Posts.TallyStep | src/lib/prisma.ts:306 | one `tagCount[tag] = (tagCount[tag] \|\| 0) + 1` keeps the record equal to the occurrence counts of the tags seen so far, appending a key for a new tag |
| Posts.CountRow | src/lib/prisma.ts:305-307 | counting one post's tags extends the tally to those tags |
| Posts.GetTags | src/lib/prisma.ts:291-324 | the answer is the stable descending-count sort of the counted tags in key order |
| Posts.TagCountsCorrect | src/lib/prisma.ts:291-314 | every entry counts its tag's occurrences over the published posts, and a tag occurs exactly when it has an entry |
| Posts.TagCountsSorted | src/lib/prisma.ts:313 | the entries come largest count first |
| Posts.TagCountsSum | src/lib/prisma.ts:303-313 | the counts add up to the number of tag occurrences: none is lost or counted twice |
| Posts.PostStore.constructor | src/lib/prisma.ts:8 | the store holds the given rows |
| Posts.PostStore.IncrementViews | src/lib/prisma.ts:218-249 | an invalid id is refused with "Invalid post ID" before the table is touched; a query that throws (`dbFailure`) answers with its message and leaves the table alone; otherwise a published row's views go up by exactly one and nothing else changes, and a missing or unpublished row leaves the table alone and returns the database's message |
| Posts.PostStore.UpdatePost | src/lib/prisma.ts:517-567 | a query that throws is answered with its message and changes nothing; a missing id gives "Post not found" and no change; otherwise only that row changes, to the row `ApplyUpdate` gives with the written date, and a dated row stays dated unless the update clears the date explicitly |
| NewPost.TranslateNoUpper | src/app/admin/posts/new/page.tsx:87-92 | replacing the Korean words of the lower-cased title by their lower-case romanizations introduces no upper-case letter |
| NewPost.KeepOnly | src/app/admin/posts/new/page.tsx:96-97 | the filtered text holds exactly the characters that pass the filter, all of them from the input |
| NewPost.DropTrailingRun | src/app/admin/posts/new/page.tsx:101 | `-+$`: the result is the longest prefix that does not end in a hyphen, and only hyphens were removed |
| NewPost.StripHyphens | src/app/admin/posts/new/page.tsx:101 | the result neither starts nor ends with a hyphen |
| NewPost.CleanWellFormed | src/app/admin/posts/new/page.tsx:95-101 | the cleaning chain yields either nothing or a well-formed slug: lower-case ASCII letters, digits, `_` and `-`, no `--`, no hyphen at either end |
| NewPost.FallbackWellFormed | src/app/admin/posts/new/page.tsx:104-106 | the `post-<timestamp>` fallback is a well-formed slug |
| NewPost.SlugWellFormed | src/app/admin/posts/new/page.tsx:75-109 | every generated slug is well formed, whatever the title |
| NewPost.SlugFallbackOnlyWhenEmpty | src/app/admin/posts/new/page.tsx:103-106 | the clock matters only when cleaning leaves nothing: otherwise the slug is the same at any time |
| NewPost.CleanKeepsSlug | src/app/admin/posts/new/page.tsx:95-101 | cleaning a well-formed slug gives it back |
| NewPost.SlugIdempotent | src/app/admin/posts/new/page.tsx:75-109 | generating a slug from a generated slug gives it back unchanged |
| NewPost.MappedWordTranslated | src/app/admin/posts/new/page.tsx:77-92 | the title 기술 becomes the slug `tech` |
| NewPost.SubmittedTags | src/app/admin/posts/new/page.tsx:47 | every submitted tag is non-empty, trimmed and free of commas |
| NewPost.NewPostForm.constructor | src/app/admin/posts/new/page.tsx:12-23 | the form starts with every field empty, unpublished and not loading |
| NewPost.NewPostForm.GenerateSlug | src/app/admin/posts/new/page.tsx:75-109 | the slug field becomes the slug of the title, which is well formed; no other field changes |
| NewPost.NewPostForm.Body | src/app/admin/posts/new/page.tsx:54-59 | the request body carries the form's title, content, slug, publication flag, image URL and alt text unchanged, the tags as split, trimmed and non-empty pieces, the category or `null`, and the placeholder author |
| NewPost.NewPostForm.Submit | src/app/admin/posts/new/page.tsx:42-73 | the body sent is the one of the form before submission; a saved post leads to the post list, a refused or failed save to the matching alert; loading ends and the fields are kept |
| AdminStats.Published | src/app/admin/page.tsx:9 | the published posts are exactly the posts with the flag set |
| AdminStats.Drafts | src/app/admin/page.tsx:10 | the drafts are exactly the posts without it |
| AdminStats.PublishedPlusDrafts | src/app/admin/page.tsx:9-11 | every post is published or a draft and never both: the two counts and their views add up to the whole |
| AdminStats.PublishedCount | src/app/admin/page.tsx:9 | the number of published posts is the count of set flags |
| AdminStats.GetStats | src/app/admin/page.tsx:4-28 | a failed or thrown fetch, or one without data, shows zero everywhere; otherwise the totals are the number of posts, of published posts and the sum of views, and published plus drafts is the total |
| AdminStats.PublishMovesOneCount | src/app/admin/page.tsx:9-17 | publishing one draft moves exactly one post from drafts to published and changes neither the total nor the views |
| AdminStats.CountSplit | src/app/admin/page.tsx:9-11 | counts and view sums split around any one post |
| Upload.Extension | src/app/api/upload/image/route.ts:34 | the extension holds no `.`, ends the name and follows its last `.`; a name without `.` is its own extension |
| Upload.ExtensionSplit | src/app/api/upload/image/route.ts:34 | the last piece of the split name is the whole name when there is no `.`, and otherwise the name is the other pieces, a `.` and that piece |
| Upload.ObjectKey | src/app/api/upload/image/route.ts:35 | the key starts with `blog-images/` and the UUID, and ends with `.` and the file's extension |
| Upload.ThrownResponse | src/app/api/upload/image/route.ts:65-79 | every error is answered 500; the credentials and missing-bucket messages are given exactly for errors of those names, the generic upload-failed message for every other error |
| Upload.Post | src/app/api/upload/image/route.ts:9-80 | the configuration is checked first, then presence, size and type, each with its own 400 message; a storage failure of an accepted file is answered as the catch block answers that error; the answer is 200 exactly for a present file of at most 5 MiB of an allowed type that was stored, and then names the URL under the base, the key, the size and the type |
| Upload.SizeLimitInclusive | src/app/api/upload/image/route.ts:6-22 | a file of exactly 5 MiB is stored, one byte more is refused |
| Upload.SizeBeforeType | src/app/api/upload/image/route.ts:22-31 | an oversized file of a refused type gets the size message |
| Upload.StoredUrlShape | src/app/api/upload/image/route.ts:34-63 | the URL of a stored file ends with its key, and the key keeps the file's extension after a `.` |
| RelatedPosts.Overlap | src/components/custom/sidebar/related-posts.tsx:76 | the score is at most the number of tags, zero exactly when no tag is shared and full exactly when every tag is shared |
| RelatedPosts.Others | src/components/custom/sidebar/related-posts.tsx:70 | the candidates are exactly the posts whose id differs from the current post's |
| RelatedPosts.ScoreAll | src/components/custom/sidebar/related-posts.tsx:74-77 | each candidate is paired with its own score, in order |
| RelatedPosts.Related | src/components/custom/sidebar/related-posts.tsx:70-83 | nothing renders exactly when there is no other post; otherwise the box shows the first one to three of the ranked posts, three whenever that many exist |
| RelatedPosts.RelatedAreOthers | src/components/custom/sidebar/related-posts.tsx:70-79 | every shown post is another post, with the score of its shared tags |
| RelatedPosts.RelatedAreTopRanked | src/components/custom/sidebar/related-posts.tsx:78-79 | the shown posts come highest score first, and no post left out scores higher than one shown |
| RelatedPosts.RankedIsPermutation | src/components/custom/sidebar/related-posts.tsx:74-78 | the ranking holds every scored candidate exactly once |
| ExplorePosts.IndexOf | src/components/custom/sidebar/explore-posts.tsx:25-26 | `indexOf` gives the first position of the slug, and -1 exactly when it is absent |
| ExplorePosts.Rank | src/components/custom/sidebar/explore-posts.tsx:24-33 | a listed category ranks by its place in the fixed order, an unlisted one after all of them |
| ExplorePosts.Compare | src/components/custom/sidebar/explore-posts.tsx:24-34 | the comparator's sign agrees with the rank order: negative exactly when the first ranks earlier, zero exactly when the ranks tie |
| ExplorePosts.SortedCategories | src/components/custom/sidebar/explore-posts.tsx:24-34 | the sorted list holds the same categories, listed ones before unlisted ones and in the fixed order, and the comparator never reports a pair out of order |
| ExplorePosts.UnlistedKeepOrder | src/components/custom/sidebar/explore-posts.tsx:29 | unlisted categories keep the order they were fetched in |
| ExplorePosts.Loaded | src/components/custom/sidebar/explore-posts.tsx:19-37 | a failed response leaves the list empty; a successful one shows the fetched categories sorted by the comparator: the same categories, and no pair of them out of the comparator's order |
| TagClouds.SizeOf | src/components/custom/sidebar/tag-clouds.tsx:21 | a tag is large from three posts, medium at two and small below |
| TagClouds.Items | src/components/custom/sidebar/tag-clouds.tsx:19-22 | each tag keeps its name and count, in order, and gets the size of its count |
| TagClouds.TotalOfItems | src/components/custom/sidebar/tag-clouds.tsx:73 | the total under the cloud is the sum of the fetched counts |
| TagClouds.Cloud | src/components/custom/sidebar/tag-clouds.tsx:16-23 | the tags are shown exactly when data came back without an error |
| TagClouds.CloudTotalIsOccurrences | src/components/custom/sidebar/tag-clouds.tsx:73 | the total under the cloud is the number of tag occurrences over the published posts |
| TagClouds.CloudSizesDescend | src/components/custom/sidebar/tag-clouds.tsx:19-53 | badge sizes never grow along the cloud, since the largest tags come first |
| TagClouds.TagPath | src/components/custom/sidebar/tag-clouds.tsx:53 | a tag's link is `/blog/tag/` followed by text without whitespace or upper-case letters |
| TagClouds.TagPathFolds | src/components/custom/sidebar/tag-clouds.tsx:53 | names that differ only in ASCII letter case share one link |
| PostCard.Words | src/components/custom/blog-post-card.tsx:35 | the word count is the number of single spaces plus one |
| PostCard.ReadTime | src/components/custom/blog-post-card.tsx:33-38 | the reading time is at least one minute and the least whole number of minutes that covers the words at 200 a minute |
| PostCard.ShortTextOneMinute | src/components/custom/post-detail-header.tsx:23-27 | the reading time is one minute exactly for up to 200 words |
| PostCard.ReadTimeMonotone | src/components/custom/blog-post-card.tsx:33-38 | more words never take less time |
| PostCard.ReadTimeGrows | src/components/custom/blog-post-card.tsx:33-38 | adding text never shortens the reading time |
| PostCard.CardPreview | src/components/custom/blog-post-card.tsx:41-44 | a content of up to 120 characters is shown whole; a longer one as a 120-character prefix and `...` |
| PostCard.BadgeRow | src/components/custom/blog-post-card.tsx:187-198 | the badge row renders exactly when the post has tags, and then shows the first three and the overflow count |
| Sorting.SortPermutes | src/lib/prisma.ts:313 | the comparator sort returns the same elements: a permutation |
| Sorting.SortSorted | src/lib/prisma.ts:313 | `(a, b) => key(b) - key(a)` sorts by descending key |
| Sorting.SortStable | src/components/custom/sidebar/related-posts.tsx:78 | the sort is stable: elements with equal keys keep their input order |
| Sorting.SortSumKeys | src/components/custom/sidebar/tag-clouds.tsx:73 | sorting keeps the sum of the keys |
| Sorting.SortIdentity | src/lib/prisma.ts:313 | an input already in descending order is returned unchanged |
| Sorting.InsertWithKey | src/lib/prisma.ts:313 | inserting into a sorted list adds the element after the others of its key |
| Text.LowerChar | src/lib/search.ts:41 | `toLowerCase` on one character: no result is an upper-case ASCII letter, and every other character is kept |
| Text.LowerCharPartner | src/lib/search.ts:41 | an upper-case ASCII letter becomes its lower-case partner, 32 code points on |
| Text.Lower | src/lib/search.ts:41 | `toLowerCase` keeps the length and lowers each character on its own |
| Text.Trim | src/lib/search.ts:38 | `trim` gives a contiguous middle of the text with no whitespace at either end; `TrimRemovesOnlySpace` shows that all it removes is whitespace |
| Text.TrimRemovesOnlySpace | src/lib/search.ts:38 | everything `trim` removes, before and after the kept middle, is whitespace |
| Text.JoinSplit | src/app/api/upload/image/route.ts:34 | joining the pieces of a split with the separator gives the text back |
| Text.SplitJoin | src/app/api/search/route.ts:96 | splitting a join of separator-free pieces gives the pieces back |
| Text.SplitTrimmed | src/app/api/search/route.ts:96 | every piece kept by split, trim and filter is non-empty and trimmed |
| Text.SplitTrimmedKeepsPiece | src/app/api/search/route.ts:96 | every piece that is not blank once trimmed is in the result, trimmed, between the kept pieces before and after it |
| Text.SliceTo | src/lib/search.ts:239 | `slice(0, end)` keeps a prefix of `end` elements, or of length plus `end` for a negative `end`, within the bounds |
| Text.CollapseRunsChars | src/lib/search.ts:40 | after `replace(/\s+/g, ' ')` every character is the replacement or a character of the input outside the runs |
| Text.CollapseRunsNoDouble | src/app/admin/posts/new/page.tsx:98-99 | after collapsing, two replacements never stand side by side |

## Left out

- Strings are sequences of characters; JavaScript's UTF-16 code units (surrogate pairs in `length`, `substring` and `slice`) are not modelled.
- Regular-expression classes are explicit character predicates: `\w` is ASCII letters, digits and `_`, `\s` is the ECMAScript white-space and line-terminator list, Hangul is the syllable and jamo ranges; `toLowerCase` and the case-insensitive highlight fold ASCII letters only.
- SearchRoute.CoerceNumber: `Number(...)` is modelled for trimmed, optionally signed decimal integers and the empty text (0); fractions, exponents, hexadecimal and `Infinity` are treated as not-a-number, so a fractional `limit` such as `2.5`, which the schema accepts, is refused by the model.
- Asynchrony and timing: promises, the debounce delay (src/hooks/useDebounce.ts is not part of this model), `AbortController`, the ten-minute session poll and `onAuthStateChange` events; each event's effect is a `Dispatch` of the reducer action it sends.
- Cookies written by the middleware and the auth API routes, `localStorage` JSON, `window.location`, focus, scrolling, clipboard and sharing.
- Date parsing and formatting (`new Date`, `toISOString`, `toLocaleDateString`, `toLocaleString`, `formatDistanceToNow`): dates are opaque strings and times are integers given as arguments.
- Prisma, Supabase and S3 calls: their answers and thrown messages are arguments (for Posts.GetPostBySlug, Posts.PostStore.UpdatePost and Posts.PostStore.IncrementViews the thrown message is `dbFailure`); `validateS3Config` is the `configured` flag.
- Posts.GetTags: tag names that are members of `Object.prototype` are counted as ordinary keys. In the source, counting on a plain `{}` makes `constructor`, `toString`, `hasOwnProperty` and the like start from an inherited function. Their count becomes a string such as `"function Object() { [native code] }1"`, and the count sort compares it as equal to every tag. A `__proto__` tag is swallowed by the prototype setter and never listed.
- Posts.TagCountsCorrect: holds only for tag names that are not `Object.prototype` members; see Posts.GetTags.
- TagClouds.CloudTotalIsOccurrences: holds only when no tag is named after an `Object.prototype` member; with one, the source's `reduce` concatenates strings instead of adding.
- Posts.GetTags: `Object.entries` lists integer-like keys first in ascending order; the model lists every tag in first-seen order, which only changes the order among tags of equal count.
- Posts.PostStore.UpdatePost: the `transformedPost` renaming of the returned row's columns is not modelled; the row is returned as stored.
- Posts.PageOf: a page number below 1 is excluded by the precondition; the source would pass a negative `skip` to the database.
- RelatedPosts.Related: the component's fixed mock post list is the `posts` argument.
- SearchLib.SearchPosts: the `where` clause (category, tags, date range, full-text match) and the ranking are decided by the database and arrive as the answer rows and total.
- src/lib/redis.ts and `getSearchSuggestions` are not part of this model; the in-memory limiter carries the rate-limit rule.
- Auth.AuthProvider.SignIn stands for `signUp` as well: the two have the same state changes, so sign-up has no member of its own.
- UseSearch.Perform: an aborted request leaves the state loading with no error, which is what the hook does; nothing further is dispatched for it.
- SearchInput.SearchBox: focus and blur are events with flags; the DOM focus moved by `inputRef.focus()` after clearing is not modelled.
- URL query strings are built and read as plain key/value pairs; percent-encoding is not modelled.
- Other API routes, pages and presentational components (layout, headers, footers, editor, login form, delete button, detail content) are outside this model.

## Findings

| source | as written | input that shows it | evidently intended | confidence | as-written member | corrected member |
|---|---|---|---|---|---|---|
| src/app/api/search/route.ts:8-73 | `searchParams.get` returns `null` for a missing `limit`, `z.coerce.number()` turns it into 0, and `min(1)` rejects it, so the `default(10)` never applies | `GET /api/search?q=react` is answered 400 | a missing `limit` means 10 (and a missing `offset` 0) | not executed | SearchRoute.ValidateAsWritten | SearchRoute.Validate |
| src/components/custom/search-modal.tsx:93-128 | clicking a result navigates to `/posts/<slug>` while Enter navigates to `/blog/<slug>` | clicking the result with slug `hello` opens `/posts/hello` | both open the post page `/blog/<slug>` | not executed | SearchModal.ClickPathAsWritten | SearchModal.ClickPath |
| middleware.ts:103-106 | a signed-in visit to the login page redirects to `redirectTo` unchecked | `/auth/login?redirectTo=https://evil.example` while signed in redirects off the site | redirect only to a path on the same site, else `/admin` | not executed | Middleware.DecideAsWritten | Middleware.Decide |
