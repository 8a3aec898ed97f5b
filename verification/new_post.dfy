/** The new-post form of the admin area (src/app/admin/posts/new/page.tsx):
    the slug generated from the title, and the payload the form submits.
    The clock is an argument (`Date.now()`); the request itself is an
    outcome argument. */
module NewPost {
  import opened Common
  import opened Text

  /** The Korean words translated before the rest of the Hangul is dropped,
      in the key order of `koreanToRoman`. */
  const KoreanToRoman: seq<(Str, Str)> := [
    ("테스트", "test"),
    ("포스트", "post"),
    ("블로그", "blog"),
    ("기술", "tech"),
    ("리뷰", "review"),
    ("튜토리얼", "tutorial"),
    ("라이프스타일", "lifestyle")
  ]

  const FallbackPrefix: Str := "post-"

  /** The author id the form sends until real authors exist. */
  const PlaceholderAuthor: Str := "00000000-0000-0000-0000-000000000001"

  predicate NoUpper(s: Str) {
    forall i :: 0 <= i < |s| ==> !IsUpperAscii(s[i])
  }

  /** Every pattern is non-empty and every replacement is lower case. */
  predicate ValidMapping(pairs: seq<(Str, Str)>) {
    forall k :: 0 <= k < |pairs| ==> pairs[k].0 != [] && NoUpper(pairs[k].1)
  }

  lemma MappingValid()
    ensures ValidMapping(KoreanToRoman)
  {
  }

  /** The replacements of `pairs`, one after the other, each of every
      occurrence (`slug.replace(new RegExp(korean, 'g'), roman)`). */
  function Translate(s: Str, pairs: seq<(Str, Str)>): Str
    requires ValidMapping(pairs)
    decreases |pairs|
  {
    if pairs == [] then s
    else
      var last := pairs[|pairs| - 1];
      ReplaceAll(Translate(s, pairs[..|pairs| - 1]), last.0, last.1)
  }

  lemma {:induction false} ReplaceAllNoUpper(s: Str, pat: Str, rep: Str)
    requires pat != [] && NoUpper(s) && NoUpper(rep)
    ensures NoUpper(ReplaceAll(s, pat, rep))
    decreases |s|
  {
    if |s| >= |pat| {
      if s[..|pat|] == pat {
        ReplaceAllNoUpper(s[|pat|..], pat, rep);
      } else {
        ReplaceAllNoUpper(s[1..], pat, rep);
      }
    }
  }

  lemma {:induction false} TranslateNoUpper(s: Str, pairs: seq<(Str, Str)>)
    requires ValidMapping(pairs) && NoUpper(s)
    ensures NoUpper(Translate(s, pairs))
    decreases |pairs|
  {
    if pairs != [] {
      var last := pairs[|pairs| - 1];
      TranslateNoUpper(s, pairs[..|pairs| - 1]);
      ReplaceAllNoUpper(Translate(s, pairs[..|pairs| - 1]), last.0, last.1);
    }
  }

  /** `s.replace(/[^X]/g, '')`: the characters satisfying `keep`, in order. */
  function KeepOnly(s: Str, keep: char -> bool): (r: Str)
    ensures |r| <= |s|
    ensures forall i :: 0 <= i < |r| ==> keep(r[i]) && r[i] in s
    ensures forall i :: 0 <= i < |s| && keep(s[i]) ==> s[i] in r
  {
    if s == [] then []
    else if keep(s[0]) then [s[0]] + KeepOnly(s[1..], keep)
    else KeepOnly(s[1..], keep)
  }

  /** Not in `[ㄱ-ㅎㅏ-ㅣ가-힣]`. */
  predicate NotHangul(c: char) {
    !IsHangulJamo(c) && !IsHangulSyllable(c)
  }

  /** In `[\w\s-]`. */
  predicate UrlSafe(c: char) {
    IsWordChar(c) || IsSpace(c) || c == '-'
  }

  predicate IsHyphen(c: char) {
    c == '-'
  }

  /** Drop the trailing characters satisfying `inRun`. */
  function DropTrailingRun(s: Str, inRun: char -> bool): (r: Str)
    ensures |r| <= |s| && r == s[..|r|]
    ensures r != [] ==> !inRun(r[|r| - 1])
    ensures forall i :: |r| <= i < |s| ==> inRun(s[i])
    decreases |s|
  {
    if s != [] && inRun(s[|s| - 1]) then DropTrailingRun(s[..|s| - 1], inRun) else s
  }

  /** `replace(/^-+|-+$/g, '')` */
  function StripHyphens(s: Str): (r: Str)
    ensures r != [] ==> r[0] != '-' && r[|r| - 1] != '-'
  {
    DropTrailingRun(SkipRun(s, IsHyphen), IsHyphen)
  }

  /** The replace chain after the translation, in the order the code runs
      it: drop the Hangul, drop what is not a word character, whitespace or
      `-`, turn whitespace runs and hyphen runs into one `-`, trim, strip the
      outer hyphens. */
  function Clean(s: Str): Str {
    var noHangul := KeepOnly(s, NotHangul);
    var safe := KeepOnly(noHangul, UrlSafe);
    var dashed := CollapseRuns(safe, IsSpace, '-');
    var single := CollapseRuns(dashed, IsHyphen, '-');
    StripHyphens(Trim(single))
  }

  /** The slug `generateSlug` computes for `title` at time `nowMs`. */
  function SlugOf(title: Str, nowMs: nat): Str {
    MappingValid();
    var slug := Clean(Translate(Lower(title), KoreanToRoman));
    if slug == [] then FallbackPrefix + NatToString(nowMs) else slug
  }

  /** The characters a slug is made of: lower-case ASCII letters, digits,
      `_` and `-`. */
  predicate SlugChar(c: char) {
    ('a' <= c <= 'z') || ('0' <= c <= '9') || c == '_' || c == '-'
  }

  predicate SlugChars(s: Str) {
    forall i :: 0 <= i < |s| ==> SlugChar(s[i])
  }

  predicate NoDoubleHyphen(s: Str) {
    forall i :: 0 <= i < |s| - 1 ==> !(s[i] == '-' && s[i + 1] == '-')
  }

  /** Non-empty, slug characters only, no `--`, no hyphen at either end. */
  predicate WellFormedSlug(s: Str) {
    s != [] && SlugChars(s) && NoDoubleHyphen(s) && s[0] != '-' && s[|s| - 1] != '-'
  }

  lemma TrimNoSpace(s: Str)
    requires SlugChars(s)
    ensures Trim(s) == s
  {
  }

  /** After the two filters only lower-case word characters, whitespace and
      `-` are left. */
  lemma FilterStage(s: Str)
    requires NoUpper(s)
    ensures forall c :: c in KeepOnly(KeepOnly(s, NotHangul), UrlSafe) ==> UrlSafe(c) && !IsUpperAscii(c)
  {
  }

  /** Turning whitespace runs into `-` leaves slug characters only. */
  lemma DashStage(t: Str)
    requires forall c :: c in t ==> UrlSafe(c) && !IsUpperAscii(c)
    ensures SlugChars(CollapseRuns(t, IsSpace, '-'))
  {
    CollapseRunsChars(t, IsSpace, '-');
  }

  /** Collapsing hyphen runs leaves no `--`. */
  lemma SingleStage(u: Str)
    requires SlugChars(u)
    ensures SlugChars(CollapseRuns(u, IsHyphen, '-'))
    ensures NoDoubleHyphen(CollapseRuns(u, IsHyphen, '-'))
  {
    var v := CollapseRuns(u, IsHyphen, '-');
    CollapseRunsChars(u, IsHyphen, '-');
    forall i | 0 <= i < |v| ensures SlugChar(v[i]) {
      if v[i] != '-' {
        var k :| 0 <= k < |u| && u[k] == v[i];
      }
    }
    forall i | 0 <= i < |v| - 1 ensures !(v[i] == '-' && v[i + 1] == '-') {
      CollapseRunsNoDouble(u, IsHyphen, '-', i);
    }
  }

  /** A piece of a string keeps its characters and its single hyphens. */
  lemma SliceStage(v: Str, lo: nat, hi: nat)
    requires lo <= hi <= |v| && SlugChars(v) && NoDoubleHyphen(v)
    ensures SlugChars(v[lo..hi]) && NoDoubleHyphen(v[lo..hi])
  {
    var r := v[lo..hi];
    assert forall i :: 0 <= i < |r| ==> r[i] == v[lo + i];
  }

  /** Stripping the outer hyphens keeps the rest. */
  lemma StripStage(v: Str)
    requires SlugChars(v) && NoDoubleHyphen(v)
    ensures StripHyphens(v) == [] || WellFormedSlug(StripHyphens(v))
  {
    var lead := SkipRun(v, IsHyphen);
    SkipStage(v);
    DropStage(lead);
    assert StripHyphens(v) == DropTrailingRun(lead, IsHyphen);
  }

  lemma SkipStage(v: Str)
    requires SlugChars(v) && NoDoubleHyphen(v)
    ensures SlugChars(SkipRun(v, IsHyphen)) && NoDoubleHyphen(SkipRun(v, IsHyphen))
  {
    var lead := SkipRun(v, IsHyphen);
    assert lead == v[|v| - |lead|..|v|];
    SliceStage(v, |v| - |lead|, |v|);
  }

  lemma DropStage(v: Str)
    requires SlugChars(v) && NoDoubleHyphen(v)
    ensures SlugChars(DropTrailingRun(v, IsHyphen)) && NoDoubleHyphen(DropTrailingRun(v, IsHyphen))
  {
    var r := DropTrailingRun(v, IsHyphen);
    assert r == v[0..|r|];
    SliceStage(v, 0, |r|);
  }

  /** What the replace chain leaves is a well-formed slug, or nothing. */
  lemma CleanWellFormed(s: Str)
    requires NoUpper(s)
    ensures Clean(s) == [] || WellFormedSlug(Clean(s))
  {
    var safe := KeepOnly(KeepOnly(s, NotHangul), UrlSafe);
    FilterStage(s);
    DashStage(safe);
    var dashed := CollapseRuns(safe, IsSpace, '-');
    SingleStage(dashed);
    TrimNoSpace(CollapseRuns(dashed, IsHyphen, '-'));
    StripStage(CollapseRuns(dashed, IsHyphen, '-'));
  }

  /** The fallback `post-<timestamp>` is a well-formed slug too. */
  lemma FallbackWellFormed(nowMs: nat)
    ensures WellFormedSlug(FallbackPrefix + NatToString(nowMs))
  {
    var d := NatToString(nowMs);
    var s := FallbackPrefix + d;
    assert s[0] == 'p' && s[1] == 'o' && s[2] == 's' && s[3] == 't' && s[4] == '-';
    assert forall i :: 5 <= i < |s| ==> s[i] == d[i - 5];
  }

  /** `generateSlug` always produces a non-empty slug of lower-case word
      characters and single inner hyphens. */
  lemma SlugWellFormed(title: Str, nowMs: nat)
    ensures WellFormedSlug(SlugOf(title, nowMs))
  {
    MappingValid();
    var t := Translate(Lower(title), KoreanToRoman);
    TranslateNoUpper(Lower(title), KoreanToRoman);
    CleanWellFormed(t);
    if Clean(t) == [] {
      FallbackWellFormed(nowMs);
    }
  }

  /** A title that leaves something after cleaning does not use the clock. */
  lemma SlugFallbackOnlyWhenEmpty(title: Str, nowMs: nat, laterMs: nat)
    requires Clean(Translate(Lower(title), KoreanToRoman)) != []
    ensures SlugOf(title, nowMs) == SlugOf(title, laterMs)
  {
  }

  // ---------------------------------------------------------------- slugs are fixed points

  /** Every pattern starts with a Hangul syllable, so text without one is
      left alone by the translation. */
  lemma PatternsStartWithHangul()
    ensures forall k :: 0 <= k < |KoreanToRoman| ==>
              KoreanToRoman[k].0 != [] && IsHangulSyllable(KoreanToRoman[k].0[0])
  {
  }

  lemma {:induction false} ReplaceAllAbsent(s: Str, pat: Str, rep: Str)
    requires pat != [] && pat[0] !in s
    ensures ReplaceAll(s, pat, rep) == s
    decreases |s|
  {
    if |s| >= |pat| {
      assert s[..|pat|][0] == s[0];
      ReplaceAllAbsent(s[1..], pat, rep);
    }
  }

  lemma {:induction false} TranslateAbsent(s: Str, pairs: seq<(Str, Str)>)
    requires ValidMapping(pairs)
    requires forall k :: 0 <= k < |pairs| ==> pairs[k].0[0] !in s
    ensures Translate(s, pairs) == s
    decreases |pairs|
  {
    if pairs != [] {
      var last := pairs[|pairs| - 1];
      TranslateAbsent(s, pairs[..|pairs| - 1]);
      ReplaceAllAbsent(s, last.0, last.1);
    }
  }

  /** Patterns whose first character does not occur change nothing. */
  lemma {:induction false} TranslateAfter(s: Str, pairs: seq<(Str, Str)>, m: nat)
    requires ValidMapping(pairs) && m <= |pairs|
    requires forall k :: m <= k < |pairs| ==> pairs[k].0[0] !in Translate(s, pairs[..m])
    ensures Translate(s, pairs) == Translate(s, pairs[..m])
    decreases |pairs|
  {
    if |pairs| == m {
      assert pairs[..m] == pairs;
    } else {
      var init := pairs[..|pairs| - 1];
      assert init[..m] == pairs[..m];
      TranslateAfter(s, init, m);
      var last := pairs[|pairs| - 1];
      ReplaceAllAbsent(Translate(s, init), last.0, last.1);
    }
  }

  lemma {:induction false} KeepOnlyAll(s: Str, keep: char -> bool)
    requires forall i :: 0 <= i < |s| ==> keep(s[i])
    ensures KeepOnly(s, keep) == s
    decreases |s|
  {
    if s != [] {
      KeepOnlyAll(s[1..], keep);
    }
  }

  lemma {:induction false} CollapseRunsNone(s: Str, inRun: char -> bool, rep: char)
    requires forall i :: 0 <= i < |s| ==> !inRun(s[i])
    ensures CollapseRuns(s, inRun, rep) == s
    decreases |s|
  {
    if s != [] {
      CollapseRunsNone(s[1..], inRun, rep);
    }
  }

  /** Collapsing hyphen runs changes nothing where every run is one hyphen. */
  lemma {:induction false} CollapseSingles(s: Str)
    requires NoDoubleHyphen(s)
    ensures CollapseRuns(s, IsHyphen, '-') == s
    decreases |s|
  {
    if s != [] {
      assert NoDoubleHyphen(s[1..]) by {
        forall i | 0 <= i < |s[1..]| - 1 ensures !(s[1..][i] == '-' && s[1..][i + 1] == '-') {
          assert s[1..][i] == s[i + 1] && s[1..][i + 1] == s[i + 2];
        }
      }
      if s[0] == '-' && |s| > 1 {
        assert s[1] != '-';
      }
      CollapseSingles(s[1..]);
    }
  }

  /** The replace chain leaves a well-formed slug as it is. */
  lemma CleanKeepsSlug(s: Str)
    requires WellFormedSlug(s)
    ensures Clean(s) == s
  {
    KeepOnlyAll(s, NotHangul);
    KeepOnlyAll(s, UrlSafe);
    CollapseRunsNone(s, IsSpace, '-');
    CollapseSingles(s);
    TrimNoSpace(s);
    assert SkipRun(s, IsHyphen) == s;
    assert DropTrailingRun(s, IsHyphen) == s;
  }

  /** A generated slug, used as a title, generates itself: `generateSlug`
      is idempotent. */
  lemma SlugIdempotent(title: Str, nowMs: nat, laterMs: nat)
    ensures SlugOf(SlugOf(title, nowMs), laterMs) == SlugOf(title, nowMs)
  {
    var slug := SlugOf(title, nowMs);
    SlugWellFormed(title, nowMs);
    LowerKeepsSlug(slug);
    NoPatternInSlug(slug);
    MappingValid();
    TranslateAbsent(slug, KoreanToRoman);
    CleanKeepsSlug(slug);
  }

  lemma LowerKeepsSlug(s: Str)
    requires SlugChars(s)
    ensures Lower(s) == s
  {
    assert forall i :: 0 <= i < |s| ==> Lower(s)[i] == s[i];
  }

  /** No pattern can start inside a slug: slugs hold no Hangul. */
  lemma NoPatternInSlug(s: Str)
    requires SlugChars(s)
    ensures forall k :: 0 <= k < |KoreanToRoman| ==> KoreanToRoman[k].0[0] !in s
  {
    PatternsStartWithHangul();
    forall k | 0 <= k < |KoreanToRoman| ensures KoreanToRoman[k].0[0] !in s {
      var c := KoreanToRoman[k].0[0];
      assert IsHangulSyllable(c) && !SlugChar(c);
      assert forall i :: 0 <= i < |s| ==> s[i] != c;
    }
  }

  /** A mapped word is translated before the remaining Hangul is dropped:
      the title "기술" gives the slug "tech". */
  lemma MappedWordTranslated(nowMs: nat)
    ensures SlugOf("기술", nowMs) == "tech"
  {
    MappingValid();
    assert Lower("기술") == "기술";
    TechTranslation();
    TechIsSlug();
    CleanKeepsSlug("tech");
  }

  /** The three patterns before "기술" do not occur in it. */
  lemma TechBefore()
    ensures ValidMapping(KoreanToRoman[..3])
    ensures Translate("기술", KoreanToRoman[..3]) == "기술"
  {
    var pairs := KoreanToRoman[..3];
    assert forall k :: 0 <= k < 3 ==> pairs[k].0[0] !in "기술";
    TranslateAbsent("기술", pairs);
  }

  lemma TechReplaced()
    ensures ValidMapping(KoreanToRoman[..4])
    ensures Translate("기술", KoreanToRoman[..4]) == "tech"
  {
    TechBefore();
    var pairs := KoreanToRoman[..4];
    assert pairs[..3] == KoreanToRoman[..3];
    assert pairs[3] == ("기술", "tech");
    assert ReplaceAll("기술", "기술", "tech") == "tech";
  }

  lemma TechTranslation()
    ensures ValidMapping(KoreanToRoman)
    ensures Translate("기술", KoreanToRoman) == "tech"
  {
    MappingValid();
    TechReplaced();
    var pairs := KoreanToRoman;
    assert forall k :: 4 <= k < |pairs| ==> pairs[k].0[0] !in "tech";
    TranslateAfter("기술", pairs, 4);
  }

  lemma TechIsSlug()
    ensures WellFormedSlug("tech")
  {
  }

  // ================================================================ submit

  /** `formData.category_id || null` */
  function CategoryIdOf(field: Str): Option<Str>
  {
    if field == [] then None else Some(field)
  }

  /** `formData.tags.split(',').map(tag => tag.trim()).filter(Boolean)` */
  function SubmittedTags(field: Str): (r: seq<Str>)
    ensures forall p :: p in r ==> p != [] && !IsSpace(p[0]) && !IsSpace(p[|p| - 1])
    ensures forall p, i :: p in r && 0 <= i < |p| ==> p[i] != ','
  {
    var r := SplitTrimmed(field, ',');
    forall p, i | p in r && 0 <= i < |p| ensures p[i] != ',' {
      SplitTrimmedNoSep(field, ',', p, i);
    }
    r
  }

  /** The JSON body the form posts. */
  datatype Payload = Payload(
    title: Str, content: Str, slug: Str, categoryId: Option<Str>, tags: seq<Str>,
    imageUrl: Str, altText: Str, isPublished: bool, authorId: Str)

  datatype SubmitOutcome = Saved | Rejected | Threw

  datatype SubmitEffect = GoToPostList | AlertSaveFailed | AlertSaveError

  /** The form state (`formData` and `isLoading`). */
  class NewPostForm {
    var title: Str
    var content: Str
    var slug: Str
    var categoryId: Str
    var tags: Str
    var imageUrl: Str
    var altText: Str
    var isPublished: bool
    var isLoading: bool

    constructor()
      ensures title == [] && content == [] && slug == [] && categoryId == [] && tags == []
      ensures imageUrl == [] && altText == [] && !isPublished && !isLoading
    {
      title, content, slug, categoryId, tags := [], [], [], [], [];
      imageUrl, altText, isPublished, isLoading := [], [], false, false;
    }

    /** `generateSlug`: only `slug` changes. */
    method GenerateSlug(nowMs: nat)
      modifies this
      ensures slug == SlugOf(old(title), nowMs)
      ensures WellFormedSlug(slug)
      ensures title == old(title) && content == old(content) && categoryId == old(categoryId) && tags == old(tags)
      ensures imageUrl == old(imageUrl) && altText == old(altText) && isPublished == old(isPublished)
      ensures isLoading == old(isLoading)
    {
      MappingValid();
      var lowered := Lower(title);
      var s := lowered;
      var k := 0;
      while k < |KoreanToRoman|
        invariant 0 <= k <= |KoreanToRoman|
        invariant s == Translate(lowered, KoreanToRoman[..k])
      {
        assert KoreanToRoman[..k + 1][..k] == KoreanToRoman[..k];
        s := ReplaceAll(s, KoreanToRoman[k].0, KoreanToRoman[k].1);
        k := k + 1;
      }
      assert KoreanToRoman[..k] == KoreanToRoman;
      ghost var translated := s;
      s := KeepOnly(s, NotHangul);
      s := KeepOnly(s, UrlSafe);
      s := CollapseRuns(s, IsSpace, '-');
      s := CollapseRuns(s, IsHyphen, '-');
      s := Trim(s);
      s := StripHyphens(s);
      assert s == Clean(translated);
      if s == [] {
        s := FallbackPrefix + NatToString(nowMs);
      }
      assert s == SlugOf(title, nowMs);
      SlugWellFormed(title, nowMs);
      slug := s;
    }

    /** The body `handleSubmit` sends. */
    function Body(): (p: Payload)
      reads this
      ensures p.tags == SubmittedTags(tags)
      ensures p.categoryId == CategoryIdOf(categoryId)
      ensures p.authorId == PlaceholderAuthor
      ensures p.title == title && p.content == content && p.slug == slug && p.isPublished == isPublished
      ensures p.imageUrl == imageUrl && p.altText == altText
    {
      Payload(title, content, slug, CategoryIdOf(categoryId), SubmittedTags(tags),
              imageUrl, altText, isPublished, PlaceholderAuthor)
    }

    /** `handleSubmit` once the request has answered: the loading flag is
        always cleared, and the form itself is unchanged. */
    method Submit(outcome: SubmitOutcome) returns (payload: Payload, effect: SubmitEffect)
      modifies this
      ensures payload == old(Body())
      ensures !isLoading
      ensures effect == match outcome
                        case Saved => GoToPostList
                        case Rejected => AlertSaveFailed
                        case Threw => AlertSaveError
      ensures title == old(title) && content == old(content) && slug == old(slug) && categoryId == old(categoryId)
      ensures tags == old(tags) && imageUrl == old(imageUrl) && altText == old(altText)
      ensures isPublished == old(isPublished)
    {
      isLoading := true;
      payload := Body();
      match outcome {
        case Saved => effect := GoToPostList;
        case Rejected => effect := AlertSaveFailed;
        case Threw => effect := AlertSaveError;
      }
      isLoading := false;
    }
  }
}
