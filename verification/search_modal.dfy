/** The search modal's keyboard selection cursor
    (src/components/custom/search-modal.tsx).  `selectedIndex` is -1 when
    nothing is selected and otherwise an index into the current results. */
module SearchModal {
  import opened Common
  import opened Text

  /** The keys the modal reacts to; every other key is `OtherKey`. */
  datatype Key = Escape | ArrowDown | ArrowUp | Enter | OtherKey

  /** What a handler asks of its surroundings besides the cursor update. */
  datatype Effect = NoEffect | CloseModal | Navigate(path: Str) | CloseAndNavigate(path: Str)

  /** The cursor's range: -1 (no selection) up to the last result. */
  predicate InRange(index: int, count: int) {
    -1 <= index <= count - 1
  }

  /** ArrowDown: `prev < maxIndex ? prev + 1 : prev` with `maxIndex = count - 1`. */
  function Down(index: int, count: nat): (r: int)
    ensures InRange(index, count) ==> InRange(r, count)
    ensures index < count - 1 ==> r == index + 1
    ensures index >= count - 1 ==> r == index
  {
    if index < count - 1 then index + 1 else index
  }

  /** ArrowUp: `prev > -1 ? prev - 1 : -1`. */
  function Up(index: int): (r: int)
    ensures r >= -1
    ensures index > -1 ==> r == index - 1
    ensures index <= -1 ==> r == -1
  {
    if index > -1 then index - 1 else -1
  }

  /** The blog post page of a result. */
  function PostPath(slug: Str): (r: Str)
    ensures StartsWith(r, "/blog/") && r[|"/blog/"|..] == slug
  {
    "/blog/" + slug
  }

  /** The page the click handler sends the browser to, as written: the
      `/posts/` prefix, for which the application has no page. */
  function ClickPathAsWritten(slug: Str): (r: Str)
    ensures StartsWith(r, "/posts/") && r[|"/posts/"|..] == slug
  {
    "/posts/" + slug
  }

  /** Clicking a result and pressing Enter on it lead to different pages
      when the click follows the code as written. */
  lemma ClickAndEnterDisagree(slug: Str)
    ensures ClickPathAsWritten(slug) != PostPath(slug)
  {
    assert ClickPathAsWritten(slug)[1] == 'p' != 'b' == PostPath(slug)[1];
  }

  /** The click target with the post page prefix, the one Enter uses. */
  function ClickPath(slug: Str): (r: Str)
    ensures r == PostPath(slug)
    ensures r[|"/blog/"|..] == slug
  {
    PostPath(slug)
  }

  /** `k` presses of ArrowDown. */
  function DownTimes(index: int, count: nat, k: nat): int
    decreases k
  {
    if k == 0 then index else DownTimes(Down(index, count), count, k - 1)
  }

  /** From no selection, `k` presses of ArrowDown select entry `min(k, count) - 1`:
      the first press on a non-empty list selects the first entry, and the
      cursor then stops at the last. */
  lemma {:induction false} DownFromNone(count: nat, k: nat)
    ensures DownTimes(-1, count, k) == (if k < count then k else count) - 1
  {
    DownTimesFrom(-1, count, k);
  }

  lemma {:induction false} DownTimesFrom(index: int, count: nat, k: nat)
    requires InRange(index, count)
    ensures DownTimes(index, count, k) ==
            (if index + k < count - 1 then index + k else count - 1)
    decreases k
  {
    if k > 0 {
      DownTimesFrom(Down(index, count), count, k - 1);
    }
  }

  /** Down then Up returns to where the cursor was, unless it was already on
      the last entry. */
  lemma UpUndoesDown(index: int, count: nat)
    requires InRange(index, count) && index < count - 1
    ensures Up(Down(index, count)) == index
  {
  }

  /** The index an Enter press navigates to, when it navigates at all. */
  function EnterTarget(index: int, slugs: seq<Str>): (r: Option<Str>)
    ensures r.Some? <==> 0 <= index < |slugs|
    ensures r.Some? ==> r.value == PostPath(slugs[index])
  {
    if index >= 0 && index < |slugs| then Some(PostPath(slugs[index])) else None
  }

  /** The modal's state: open or closed, the slugs of the results it shows,
      and the cursor. */
  class Modal {
    var isOpen: bool
    var slugs: seq<Str>
    var selectedIndex: int

    ghost predicate Valid()
      reads this
    {
      InRange(selectedIndex, |slugs|)
    }

    /** The cursor starts with nothing selected. */
    constructor(isOpen: bool, slugs: seq<Str>)
      ensures Valid()
      ensures this.isOpen == isOpen && this.slugs == slugs && selectedIndex == -1
    {
      this.isOpen := isOpen;
      this.slugs := slugs;
      selectedIndex := -1;
    }

    /** New results reset the cursor to -1. */
    method ResultsChanged(newSlugs: seq<Str>)
      modifies this
      ensures Valid()
      ensures slugs == newSlugs && selectedIndex == -1 && isOpen == old(isOpen)
    {
      slugs := newSlugs;
      selectedIndex := -1;
    }

    method SetOpen(open: bool)
      modifies this
      ensures isOpen == open && slugs == old(slugs) && selectedIndex == old(selectedIndex)
    {
      isOpen := open;
    }

    /** The keydown handler.  A closed modal ignores every key; Escape asks
        for the modal to close; the arrows move the cursor; Enter navigates
        to the selected post when the cursor is on an entry. */
    method KeyDown(key: Key) returns (effect: Effect)
      requires Valid()
      modifies this
      ensures Valid()
      ensures isOpen == old(isOpen) && slugs == old(slugs)
      ensures !isOpen ==> effect == NoEffect && selectedIndex == old(selectedIndex)
      ensures isOpen && key == Escape ==> effect == CloseModal && selectedIndex == old(selectedIndex)
      ensures isOpen && key == ArrowDown ==>
                effect == NoEffect && selectedIndex == Down(old(selectedIndex), |slugs|)
      ensures isOpen && key == ArrowUp ==>
                effect == NoEffect && selectedIndex == Up(old(selectedIndex))
      ensures isOpen && key == Enter ==> selectedIndex == old(selectedIndex)
      ensures isOpen && key == Enter ==>
                effect == (match EnterTarget(selectedIndex, slugs)
                           case Some(path) => Navigate(path)
                           case None => NoEffect)
      ensures isOpen && key == OtherKey ==> effect == NoEffect && selectedIndex == old(selectedIndex)
    {
      effect := NoEffect;
      if !isOpen {
        return;
      }
      match key {
        case Escape =>
          effect := CloseModal;
        case ArrowDown =>
          var maxIndex := |slugs| - 1;
          if selectedIndex < maxIndex {
            selectedIndex := selectedIndex + 1;
          }
        case ArrowUp =>
          if selectedIndex > -1 {
            selectedIndex := selectedIndex - 1;
          } else {
            selectedIndex := -1;
          }
        case Enter =>
          if selectedIndex >= 0 && selectedIndex < |slugs| {
            effect := Navigate(PostPath(slugs[selectedIndex]));
          }
        case OtherKey =>
      }
    }

    /** Clicking a result closes the modal and opens the post's page: the
        page Enter opens with the cursor on that result. */
    method ResultClicked(i: int) returns (effect: Effect)
      requires 0 <= i < |slugs|
      ensures effect == CloseAndNavigate(ClickPath(slugs[i]))
      ensures effect.CloseAndNavigate? && EnterTarget(i, slugs) == Some(effect.path)
    {
      effect := CloseAndNavigate(ClickPath(slugs[i]));
    }

    /** The click handler as written: it closes the modal and sends the
        browser to `/posts/<slug>`, not to the page Enter opens. */
    method ResultClickedAsWritten(i: int) returns (effect: Effect)
      requires 0 <= i < |slugs|
      ensures effect == CloseAndNavigate(ClickPathAsWritten(slugs[i]))
      ensures effect.CloseAndNavigate? && EnterTarget(i, slugs) != Some(effect.path)
    {
      ClickAndEnterDisagree(slugs[i]);
      effect := CloseAndNavigate(ClickPathAsWritten(slugs[i]));
    }
  }
}
