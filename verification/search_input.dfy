/** The search box (src/components/custom/search-input.tsx): the
    most-recently-used list of recent searches, the dropdown's open/closed
    flags and the suggestion panel's caps. */
module SearchInput {
  import opened Common
  import opened Text

  /** The recent-searches list keeps at most this many entries. */
  const MaxRecent: nat := 10

  /** The panel shows at most this many recent and popular entries. */
  const PanelRecent: nat := 5
  const PanelPopular: nat := 8

  // ================================================================ the MRU list

  /** `xs.filter(s => s !== q)` */
  function Without(xs: seq<Str>, q: Str): (r: seq<Str>)
    ensures |r| <= |xs|
    ensures q !in r
    ensures forall x :: x in r <==> x in xs && x != q
  {
    if xs == [] then []
    else if xs[0] == q then Without(xs[1..], q)
    else [xs[0]] + Without(xs[1..], q)
  }

  /** `[q, ...recent.filter(s => s !== q)].slice(0, 10)` */
  function PushRecent(recent: seq<Str>, q: Str): (r: seq<Str>)
    ensures 1 <= |r| <= MaxRecent
    ensures r[0] == q
    ensures q !in r[1..]
    ensures forall x :: x in r ==> x == q || x in recent
    // behind the query come the other earlier searches, in order, up to ten in all
    ensures |r| == (if 1 + |Without(recent, q)| <= MaxRecent then 1 + |Without(recent, q)| else MaxRecent)
    ensures r[1..] == Without(recent, q)[..|r| - 1]
  {
    var rest := Without(recent, q);
    assert forall x :: x in Take(rest, MaxRecent - 1) ==> x in rest;
    Take([q] + rest, MaxRecent)
  }

  /** `handleSearch`: a blank query is ignored. */
  function RecordSearch(recent: seq<Str>, q: Str): (r: seq<Str>)
    ensures IsBlank(q) ==> r == recent
    ensures !IsBlank(q) ==> r == PushRecent(recent, q)
  {
    if IsBlank(q) then recent else PushRecent(recent, q)
  }

  /** How often `x` occurs. */
  function Occurrences(xs: seq<Str>, x: Str): nat
  {
    if xs == [] then 0 else (if xs[0] == x then 1 else 0) + Occurrences(xs[1..], x)
  }

  lemma {:induction false} OccurrencesAbsent(xs: seq<Str>, x: Str)
    requires x !in xs
    ensures Occurrences(xs, x) == 0
  {
    if xs != [] { OccurrencesAbsent(xs[1..], x); }
  }

  /** After the update the query occurs exactly once, at the front. */
  lemma PushRecentOnce(recent: seq<Str>, q: Str)
    ensures Occurrences(PushRecent(recent, q), q) == 1
  {
    var r := PushRecent(recent, q);
    OccurrencesAbsent(r[1..], q);
  }

  /** `a` is a subsequence of `b`: `b` with some entries deleted. */
  predicate IsSubsequence(a: seq<Str>, b: seq<Str>)
    decreases |b|
  {
    if a == [] then true
    else if b == [] then false
    else (a[0] == b[0] && IsSubsequence(a[1..], b[1..])) || IsSubsequence(a, b[1..])
  }

  lemma {:induction false} TakeWithoutSubsequence(xs: seq<Str>, q: Str, n: nat)
    ensures IsSubsequence(Take(Without(xs, q), n), xs)
  {
    if xs != [] {
      TakeWithoutSubsequence(xs[1..], q, if xs[0] == q then n else if n == 0 then 0 else n - 1);
      var w := Without(xs, q);
      if xs[0] == q {
        assert w == Without(xs[1..], q);
      } else if n > 0 {
        assert w == [xs[0]] + Without(xs[1..], q);
        var t := Take(w, n);
        assert t != [] && t[0] == xs[0];
        assert t[1..] == Take(Without(xs[1..], q), n - 1);
      }
    }
  }

  /** The other entries keep their relative order: behind the query, the
      list is the old one with entries deleted. */
  lemma PushRecentKeepsOrder(recent: seq<Str>, q: Str)
    ensures IsSubsequence(PushRecent(recent, q)[1..], recent)
  {
    var r := PushRecent(recent, q);
    assert r[1..] == Take(Without(recent, q), MaxRecent - 1);
    TakeWithoutSubsequence(recent, q, MaxRecent - 1);
  }

  /** Filtering removes exactly the occurrences of the query. */
  lemma {:induction false} WithoutLength(xs: seq<Str>, q: Str)
    ensures |Without(xs, q)| == |xs| - Occurrences(xs, q)
  {
    if xs != [] { WithoutLength(xs[1..], q); }
  }

  /** Only the query's old occurrences and the overflow beyond ten are
      dropped: a list of n entries, q among them k times, becomes one of
      min(10, n - k + 1). */
  lemma PushRecentLength(recent: seq<Str>, q: Str)
    ensures var n := |recent| - Occurrences(recent, q) + 1;
            |PushRecent(recent, q)| == if n <= MaxRecent then n else MaxRecent
  {
    WithoutLength(recent, q);
  }

  /** Filtering out an absent entry changes nothing. */
  lemma {:induction false} WithoutAbsent(xs: seq<Str>, q: Str)
    requires q !in xs
    ensures Without(xs, q) == xs
  {
    if xs != [] { WithoutAbsent(xs[1..], q); }
  }

  /** Searching for the same query twice is the same as searching once. */
  lemma PushRecentIdempotent(recent: seq<Str>, q: Str)
    ensures PushRecent(PushRecent(recent, q), q) == PushRecent(recent, q)
  {
    var r := PushRecent(recent, q);
    assert r == [q] + r[1..];
    WithoutAbsent(r[1..], q);
    assert Without(r, q) == r[1..];
  }

  /** Searching for the most recent entry again changes nothing. */
  lemma RepeatSearchUnchanged(recent: seq<Str>, q: Str)
    requires recent != [] && recent[0] == q && q !in recent[1..] && |recent| <= MaxRecent
    ensures PushRecent(recent, q) == recent
  {
    WithoutAbsent(recent[1..], q);
    assert Without(recent, q) == recent[1..];
    assert [q] + recent[1..] == recent;
  }

  // ================================================================ the panel

  /** What the suggestion panel shows. */
  datatype Panel = Panel(suggestions: seq<Str>, recent: seq<Str>, popular: seq<Str>)

  /** `SearchSuggestions`: nothing when all three lists are empty; otherwise
      every suggestion, the first 5 recent and the first 8 popular searches. */
  function SuggestionPanel(suggestions: seq<Str>, recent: seq<Str>, popular: seq<Str>): (r: Option<Panel>)
    ensures r.None? <==> suggestions == [] && recent == [] && popular == []
    ensures r.Some? ==> r.value.suggestions == suggestions
    // the first five recent searches, or all of them when there are fewer
    ensures r.Some? ==> |r.value.recent| == (if |recent| <= PanelRecent then |recent| else PanelRecent)
                        && r.value.recent == recent[..|r.value.recent|]
    // the first eight popular searches, or all of them when there are fewer
    ensures r.Some? ==> |r.value.popular| == (if |popular| <= PanelPopular then |popular| else PanelPopular)
                        && r.value.popular == popular[..|r.value.popular|]
  {
    if suggestions == [] && recent == [] && popular == [] then None
    else Some(Panel(suggestions, Take(recent, PanelRecent), Take(popular, PanelPopular)))
  }

  // ================================================================ the box

  /** The input's focus and dropdown flags.  The props the handlers consult
      are arguments. */
  class SearchBox {
    var isFocused: bool
    var showDropdown: bool

    constructor()
      ensures !isFocused && !showDropdown
    {
      isFocused := false;
      showDropdown := false;
    }

    /** `handleInputChange`: after typing the dropdown is open exactly when
        the new value is not blank and suggestions are enabled.  Returns the
        value passed to `onChange`. */
    method InputChanged(newValue: Str, showSuggestions: bool) returns (changed: Str)
      modifies this
      ensures changed == newValue
      ensures showDropdown <==> !IsBlank(newValue) && showSuggestions
      ensures isFocused == old(isFocused)
    {
      changed := newValue;
      if !IsBlank(newValue) && showSuggestions {
        showDropdown := true;
      } else {
        showDropdown := false;
      }
    }

    /** `handleInputFocus`: opens the dropdown only when there is a recent or
        popular search to show; never closes it. */
    method Focused(recent: seq<Str>, popular: seq<Str>)
      modifies this
      ensures isFocused
      ensures showDropdown <==> old(showDropdown) || recent != [] || popular != []
    {
      isFocused := true;
      if |recent| > 0 || |popular| > 0 {
        showDropdown := true;
      }
    }

    /** `handleClear`: the dropdown closes. */
    method Cleared()
      modifies this
      ensures !showDropdown && isFocused == old(isFocused)
    {
      showDropdown := false;
    }

    /** `handleSuggestionSelect`: the suggestion becomes the value and is
        reported; the dropdown closes. */
    method SuggestionSelected(suggestion: Str) returns (changed: Str, reported: Str)
      modifies this
      ensures changed == suggestion && reported == suggestion
      ensures !showDropdown && isFocused == old(isFocused)
    {
      changed := suggestion;
      reported := suggestion;
      showDropdown := false;
    }

    /** Escape anywhere, or a mouse press outside the box: closed and
        unfocused. */
    method Dismissed()
      modifies this
      ensures !showDropdown && !isFocused
    {
      showDropdown := false;
      isFocused := false;
    }

    /** What is rendered below the input. */
    function Dropdown(suggestions: seq<Str>, recent: seq<Str>, popular: seq<Str>): (r: Option<Panel>)
      reads this
      ensures r.Some? <==> showDropdown && (suggestions != [] || recent != [] || popular != [])
    {
      if showDropdown then SuggestionPanel(suggestions, recent, popular) else None
    }
  }

  // ================================================================ the bar

  /** The fixed popular searches of `SearchBar`. */
  const BarPopular: seq<Str> :=
    ["React", "Next.js", "TypeScript", "JavaScript", "CSS", "Node.js", "Python", "AI"]

  /** `SearchBar`: the search box plus its recent-searches list. */
  class SearchBar {
    var recent: seq<Str>

    constructor(saved: seq<Str>)
      ensures recent == saved
    {
      recent := saved;
    }

    /** `handleSearch`: a blank query does nothing and reports nothing;
        otherwise the query goes to the front of the list and is reported. */
    method HandleSearch(q: Str) returns (reported: Option<Str>)
      modifies this
      ensures recent == RecordSearch(old(recent), q)
      ensures reported.Some? <==> !IsBlank(q)
      ensures reported.Some? ==> reported.value == q
    {
      if IsBlank(q) {
        return None;
      }
      recent := Take([q] + Without(recent, q), MaxRecent);
      reported := Some(q);
    }
  }
}
