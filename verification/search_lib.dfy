/** The text side of post search (`src/lib/search.ts`): turning a user query
    into a PostgreSQL `to_tsquery` expression, escaping HTML, highlighting the
    query's terms in escaped text, the early returns of the search itself and
    the fixed list of popular terms. */
module SearchLib {
  import opened Common
  import opened Text

  // ================================================================ query normalisation

  /** Characters a search term is made of: `\w` and the Hangul syllables. */
  predicate IsTermChar(c: char) {
    IsWordChar(c) || IsHangulSyllable(c)
  }

  /** Characters that survive `replace(/[^\w\s가-힣]/g, ' ')`. */
  predicate IsKept(c: char) {
    IsTermChar(c) || IsSpace(c)
  }

  /** `replace(/[^\w\s가-힣]/g, ' ')` */
  function StripSymbols(s: Str): (r: Str)
    ensures |r| == |s|
    ensures forall i :: 0 <= i < |s| ==> r[i] == (if IsKept(s[i]) then s[i] else ' ')
  {
    if s == [] then [] else [if IsKept(s[0]) then s[0] else ' '] + StripSymbols(s[1..])
  }

  /** The `normalized` string: trimmed, symbols blanked, whitespace runs
      collapsed to one space, lower-cased. */
  function Normalized(q: Str): Str {
    Lower(CollapseRuns(StripSymbols(Trim(q)), IsSpace, ' '))
  }

  /** A non-empty word of lower-case term characters. */
  predicate IsTerm(t: Str) {
    t != [] && forall i :: 0 <= i < |t| ==> IsTermChar(t[i]) && !IsUpperAscii(t[i])
  }

  /** `normalized.split(' ').filter(term => term.length > 0)` */
  function Terms(q: Str): (r: seq<Str>)
    ensures forall t :: t in r ==> IsTerm(t)
  {
    var n := Normalized(q);
    NormalizedChars(q);
    SplitPiecesFree(n, ' ');
    forall t, i | t in Split(n, ' ') && 0 <= i < |t|
      ensures IsTermChar(t[i]) && !IsUpperAscii(t[i])
    {
      SplitPiecesFrom(n, ' ', t, i);
    }
    NonEmpty(Split(n, ' '))
  }

  /** One `${term}:*` prefix-match segment. */
  function Segment(t: Str): Str {
    t + ":*"
  }

  function Segments(terms: seq<Str>): (r: seq<Str>)
    ensures |r| == |terms|
    ensures forall i :: 0 <= i < |terms| ==> r[i] == Segment(terms[i])
  {
    if terms == [] then [] else [Segment(terms[0])] + Segments(terms[1..])
  }

  /** `normalizeSearchQuery` */
  function NormalizeSearchQuery(q: Str): (r: Str)
    ensures r == [] <==> Terms(q) == []
  {
    var terms := Terms(q);
    if terms == [] then []
    else
      var r := Join(Segments(terms), " | ");
      assert r[..|Segment(terms[0])|] == Segment(terms[0]) by { JoinStartsWith(Segments(terms), " | "); }
      r
  }

  lemma {:induction false} JoinStartsWith(parts: seq<Str>, sep: Str)
    requires |parts| >= 1
    ensures |parts[0]| <= |Join(parts, sep)| && Join(parts, sep)[..|parts[0]|] == parts[0]
  {
    if |parts| > 1 {
      assert Join(parts, sep) == parts[0] + (sep + Join(parts[1..], sep));
    }
  }

  /** Every character of the normalised string is a space or a lower-case term
      character. */
  lemma NormalizedChars(q: Str)
    ensures forall c :: c in Normalized(q) ==> c == ' ' || (IsTermChar(c) && !IsUpperAscii(c))
  {
    var s1 := StripSymbols(Trim(q));
    var s2 := CollapseRuns(s1, IsSpace, ' ');
    CollapseRunsChars(s1, IsSpace, ' ');
    forall c | c in Normalized(q) ensures c == ' ' || (IsTermChar(c) && !IsUpperAscii(c)) {
      var k :| 0 <= k < |s2| && Normalized(q)[k] == c;
      assert c == LowerChar(s2[k]);
      if s2[k] != ' ' {
        var m :| 0 <= m < |s1| && s1[m] == s2[k];
        assert IsKept(s1[m]);
      }
    }
  }

  /** A query has search terms exactly when it holds a term character. */
  predicate HasTermChar(s: Str) {
    exists i :: 0 <= i < |s| && IsTermChar(s[i])
  }

  /** `normalizeSearchQuery` returns `''` exactly when the query has no word
      character and no Hangul syllable. */
  lemma NormalizeEmptyIff(q: Str)
    ensures NormalizeSearchQuery(q) == [] <==> !HasTermChar(q)
  {
    if HasTermChar(q) {
      var i :| 0 <= i < |q| && IsTermChar(q[i]);
      TermCharGivesTerm(q, i);
    }
    if Terms(q) != [] {
      TermGivesTermChar(q);
    }
  }

  lemma TermCharGivesTerm(q: Str, i: int)
    requires 0 <= i < |q| && IsTermChar(q[i])
    ensures Terms(q) != []
  {
    var t := Trim(q);
    var s1 := StripSymbols(t);
    var s2 := CollapseRuns(s1, IsSpace, ' ');
    var n := Normalized(q);
    TrimKeepsNonSpace(q, i);
    var j :| 0 <= j < |t| && t[j] == q[i];
    assert s1[j] == q[i];
    CollapseRunsKeeps(s1, IsSpace, ' ', j);
    var k :| 0 <= k < |s2| && s2[k] == q[i];
    assert n[k] == LowerChar(q[i]) && n[k] != ' ';
    SplitKeeps(n, ' ', k);
    var p :| p in Split(n, ' ') && n[k] in p;
    assert p != [];
    assert p in NonEmpty(Split(n, ' '));
  }

  lemma TermGivesTermChar(q: Str)
    requires Terms(q) != []
    ensures HasTermChar(q)
  {
    var t := Trim(q);
    var s1 := StripSymbols(t);
    var s2 := CollapseRuns(s1, IsSpace, ' ');
    var n := Normalized(q);
    var p := Terms(q)[0];
    assert p in Terms(q);
    assert IsTerm(p);
    var c := p[0];
    assert IsTermChar(c);
    assert p in Split(n, ' ');
    SplitPiecesFrom(n, ' ', p, 0);
    var k :| 0 <= k < |n| && n[k] == c;
    assert n[k] == LowerChar(s2[k]);
    assert s2[k] != ' ';
    assert IsTermChar(s2[k]);
    CollapseRunsChars(s1, IsSpace, ' ');
    var m :| 0 <= m < |s1| && s1[m] == s2[k];
    assert t[m] == s1[m];
    TrimSubset(q, m);
  }

  /** `[s0, '|', s1, '|', …, sn]`: the space-separated words of a
      `' | '`-joined list. */
  function Interleave(parts: seq<Str>): (r: seq<Str>)
    ensures |parts| >= 1 ==> |r| == 2 * |parts| - 1
  {
    if |parts| <= 1 then parts else [parts[0], "|"] + Interleave(parts[1..])
  }

  lemma {:induction false} JoinBar(parts: seq<Str>)
    requires |parts| >= 1
    ensures Join(parts, " | ") == Join(Interleave(parts), " ")
  {
    if |parts| > 1 {
      JoinBar(parts[1..]);
      var w := Interleave(parts[1..]);
      assert Interleave(parts) == [parts[0]] + (["|"] + w);
      assert Join(["|"] + w, " ") == "|" + " " + Join(w, " ");
    }
  }

  /** The shape of a non-empty result: its space-separated words are the
      `term:*` segments, one per term and in order, with a `|` word between
      neighbours. */
  lemma NormalizeShape(q: Str)
    requires Terms(q) != []
    ensures Split(NormalizeSearchQuery(q), ' ') == Interleave(Segments(Terms(q)))
  {
    var terms := Terms(q);
    var segs := Segments(terms);
    assert NormalizeSearchQuery(q) == Join(segs, " | ");
    JoinBar(segs);
    SegmentsNoSpace(terms);
    InterleaveWords(segs);
    SplitJoin(Interleave(segs), ' ');
  }

  lemma {:induction false} SegmentsNoSpace(terms: seq<Str>)
    requires forall t :: t in terms ==> IsTerm(t)
    ensures forall s :: s in Segments(terms) ==> ' ' !in s
  {
    if terms != [] {
      SegmentsNoSpace(terms[1..]);
      var t := terms[0];
      assert IsTerm(t);
      assert forall i :: 0 <= i < |t| ==> t[i] != ' ';
    }
  }

  lemma {:induction false} InterleaveWords(segs: seq<Str>)
    requires forall s :: s in segs ==> ' ' !in s
    requires |segs| >= 1
    ensures |Interleave(segs)| >= 1
    ensures forall p :: p in Interleave(segs) ==> ' ' !in p
  {
    if |segs| > 1 {
      InterleaveWords(segs[1..]);
    }
  }

  /** The result has one `|` between each two neighbouring terms and no
      other `|`. */
  lemma NormalizeBarCount(q: Str)
    requires Terms(q) != []
    ensures CountChar(NormalizeSearchQuery(q), '|') == |Terms(q)| - 1
  {
    var terms := Terms(q);
    var segs := Segments(terms);
    NormalizeIsJoin(q);
    CountCharJoin(segs, " | ", '|');
    SeparatorHasOneBar();
    SumCountSegments(terms);
  }

  lemma NormalizeIsJoin(q: Str)
    requires Terms(q) != []
    ensures NormalizeSearchQuery(q) == Join(Segments(Terms(q)), " | ")
  {
  }

  lemma SeparatorHasOneBar()
    ensures CountChar(" | ", '|') == 1
  {
    assert " | "[1..] == "| " && "| "[1..] == " ";
  }

  lemma {:induction false} SumCountSegments(terms: seq<Str>)
    requires forall t :: t in terms ==> IsTerm(t)
    ensures SumCount(Segments(terms), '|') == 0
  {
    if terms != [] {
      SumCountSegments(terms[1..]);
      assert IsTerm(terms[0]);
      CountCharAbsent(Segment(terms[0]), '|');
    }
  }

  // ================================================================ HTML escaping

  /** What `escapeHtml` turns one character into. */
  function EscapeChar(c: char): Str {
    if c == '&' then "&amp;"
    else if c == '<' then "&lt;"
    else if c == '>' then "&gt;"
    else if c == '"' then "&quot;"
    else if c == '\'' then "&#039;"
    else [c]
  }

  /** Reference definition: every character escaped on its own, in one pass. */
  function EscapeEach(s: Str): Str {
    if s == [] then [] else EscapeChar(s[0]) + EscapeEach(s[1..])
  }

  /** `escapeHtml`: five global replaces in a row, `&` first. */
  function EscapeHtml(s: Str): Str {
    ReplaceChar(ReplaceChar(ReplaceChar(ReplaceChar(ReplaceChar(
      s, '&', "&amp;"), '<', "&lt;"), '>', "&gt;"), '"', "&quot;"), '\'', "&#039;")
  }

  lemma EscapeHtmlAppend(a: Str, b: Str)
    ensures EscapeHtml(a + b) == EscapeHtml(a) + EscapeHtml(b)
  {
    var a1, b1 := ReplaceChar(a, '&', "&amp;"), ReplaceChar(b, '&', "&amp;");
    ReplaceCharAppend(a, b, '&', "&amp;");
    var a2, b2 := ReplaceChar(a1, '<', "&lt;"), ReplaceChar(b1, '<', "&lt;");
    ReplaceCharAppend(a1, b1, '<', "&lt;");
    var a3, b3 := ReplaceChar(a2, '>', "&gt;"), ReplaceChar(b2, '>', "&gt;");
    ReplaceCharAppend(a2, b2, '>', "&gt;");
    var a4, b4 := ReplaceChar(a3, '"', "&quot;"), ReplaceChar(b3, '"', "&quot;");
    ReplaceCharAppend(a3, b3, '"', "&quot;");
    ReplaceCharAppend(a4, b4, '\'', "&#039;");
  }

  lemma ReplaceCharSingle(c: char, x: char, rep: Str)
    ensures ReplaceChar([c], x, rep) == if c == x then rep else [c]
  {
    assert [c][1..] == [];
  }

  /** The replaces after the first leave alone a string that holds none of
      their characters. */
  lemma LastFourKeep(s: Str)
    requires '<' !in s && '>' !in s && '"' !in s && '\'' !in s
    ensures ReplaceChar(ReplaceChar(ReplaceChar(ReplaceChar(s, '<', "&lt;"), '>', "&gt;"), '"', "&quot;"), '\'', "&#039;") == s
  {
    ReplaceCharAbsent(s, '<', "&lt;");
    LastThreeKeep(s);
  }

  lemma LastThreeKeep(s: Str)
    requires '>' !in s && '"' !in s && '\'' !in s
    ensures ReplaceChar(ReplaceChar(ReplaceChar(s, '>', "&gt;"), '"', "&quot;"), '\'', "&#039;") == s
  {
    ReplaceCharAbsent(s, '>', "&gt;");
    LastTwoKeep(s);
  }

  lemma LastTwoKeep(s: Str)
    requires '"' !in s && '\'' !in s
    ensures ReplaceChar(ReplaceChar(s, '"', "&quot;"), '\'', "&#039;") == s
  {
    ReplaceCharAbsent(s, '"', "&quot;");
    ReplaceCharAbsent(s, '\'', "&#039;");
  }

  /** The chain of replaces escapes a single character exactly once: no
      entity produced by one step is touched by a later one. */
  lemma EscapeHtmlChar(c: char)
    ensures EscapeHtml([c]) == EscapeChar(c)
  {
    ReplaceCharSingle(c, '&', "&amp;");
    if c == '&' {
      LastFourKeep("&amp;");
    } else {
      ReplaceCharSingle(c, '<', "&lt;");
      if c == '<' {
        LastThreeKeep("&lt;");
      } else {
        ReplaceCharSingle(c, '>', "&gt;");
        if c == '>' {
          LastTwoKeep("&gt;");
        } else {
          ReplaceCharSingle(c, '"', "&quot;");
          ReplaceCharSingle(c, '\'', "&#039;");
          if c == '"' {
            ReplaceCharAbsent("&quot;", '\'', "&#039;");
          }
        }
      }
    }
  }

  /** The chain of replaces is the one-pass escape. */
  lemma {:induction false} EscapeHtmlOnePass(s: Str)
    ensures EscapeHtml(s) == EscapeEach(s)
  {
    if s != [] {
      EscapeHtmlOnePass(s[1..]);
      EscapeHtmlAppend([s[0]], s[1..]);
      EscapeHtmlChar(s[0]);
      assert [s[0]] + s[1..] == s;
    }
  }

  /** `s[i..]` begins with one of the five entities. */
  predicate EntityAt(s: Str, i: int)
    requires 0 <= i <= |s|
  {
    StartsWith(s[i..], "&amp;") || StartsWith(s[i..], "&lt;") || StartsWith(s[i..], "&gt;")
    || StartsWith(s[i..], "&quot;") || StartsWith(s[i..], "&#039;")
  }

  /** Safe to place between HTML tags or inside a quoted attribute: no raw
      `<`, `>`, `"` or `'`, and every `&` starts an entity. */
  predicate IsEscaped(s: Str) {
    (forall i :: 0 <= i < |s| ==> s[i] != '<' && s[i] != '>' && s[i] != '"' && s[i] != '\'')
    && (forall i :: 0 <= i < |s| && s[i] == '&' ==> EntityAt(s, i))
  }

  lemma EscapedAppend(a: Str, b: Str)
    requires IsEscaped(a) && IsEscaped(b)
    ensures IsEscaped(a + b)
  {
    var s := a + b;
    forall i | 0 <= i < |s| && s[i] == '&' ensures EntityAt(s, i) {
      if i < |a| {
        assert a[i] == '&';
        assert s[i..] == a[i..] + b;
      } else {
        assert b[i - |a|] == '&';
        assert s[i..] == b[i - |a|..];
      }
    }
  }

  lemma {:induction false} EscapeEachEscaped(s: Str)
    ensures IsEscaped(EscapeEach(s))
  {
    if s != [] {
      EscapeEachEscaped(s[1..]);
      EscapeCharEscaped(s[0]);
      EscapedAppend(EscapeChar(s[0]), EscapeEach(s[1..]));
    }
  }

  /** Each character's replacement is escaped: its only `&` is the one
      starting the entity. */
  lemma EscapeCharEscaped(c: char)
    ensures IsEscaped(EscapeChar(c))
  {
    var e := EscapeChar(c);
    forall i | 0 <= i < |e| && e[i] == '&' ensures EntityAt(e, i) {
      assert i == 0 && e[0..] == e;
    }
  }

  /** The XSS-safety property of `escapeHtml`. */
  lemma EscapeHtmlSafe(s: Str)
    ensures IsEscaped(EscapeHtml(s))
  {
    EscapeHtmlOnePass(s);
    EscapeEachEscaped(s);
  }

  /** What a browser shows for escaped text: the five entities decoded. */
  function Unescape(s: Str): Str
    decreases |s|
  {
    if s == [] then []
    else if StartsWith(s, "&amp;") then "&" + Unescape(s[5..])
    else if StartsWith(s, "&lt;") then "<" + Unescape(s[4..])
    else if StartsWith(s, "&gt;") then ">" + Unescape(s[4..])
    else if StartsWith(s, "&quot;") then "\"" + Unescape(s[6..])
    else if StartsWith(s, "&#039;") then "'" + Unescape(s[6..])
    else [s[0]] + Unescape(s[1..])
  }

  /** Decoding one entity, or one ordinary character, at the front. */
  lemma UnescapeFront(e: Str, d: char, rest: Str)
    requires e in ["&amp;", "&lt;", "&gt;", "&quot;", "&#039;"] || e == [d]
    requires e == "&amp;" ==> d == '&'
    requires e == "&lt;" ==> d == '<'
    requires e == "&gt;" ==> d == '>'
    requires e == "&quot;" ==> d == '"'
    requires e == "&#039;" ==> d == '\''
    requires e == [d] ==> d != '&'
    ensures Unescape(e + rest) == [d] + Unescape(rest)
  {
    var x := e + rest;
    assert x[..|e|] == e && x[|e|..] == rest;
    assert x[0] == e[0];
    if e == [d] {
      assert !StartsWith(x, "&amp;") && !StartsWith(x, "&lt;") && !StartsWith(x, "&gt;");
      assert !StartsWith(x, "&quot;") && !StartsWith(x, "&#039;");
    } else {
      assert x[1] == e[1];
      if e == "&lt;" {
        assert !StartsWith(x, "&amp;");
      } else if e == "&gt;" {
        assert !StartsWith(x, "&amp;") && !StartsWith(x, "&lt;");
      } else if e == "&quot;" {
        assert !StartsWith(x, "&amp;") && !StartsWith(x, "&lt;") && !StartsWith(x, "&gt;");
      } else if e == "&#039;" {
        assert !StartsWith(x, "&amp;") && !StartsWith(x, "&lt;") && !StartsWith(x, "&gt;");
        assert !StartsWith(x, "&quot;");
      }
    }
  }

  lemma UnescapeStep(c: char, rest: Str)
    ensures Unescape(EscapeChar(c) + rest) == [c] + Unescape(rest)
  {
    UnescapeFront(EscapeChar(c), c, rest);
  }

  /** Escaping loses nothing: the browser shows the original text. */
  lemma {:induction false} UnescapeEscapeHtml(s: Str)
    ensures Unescape(EscapeHtml(s)) == s
  {
    EscapeHtmlOnePass(s);
    UnescapeEscapeEach(s);
  }

  lemma {:induction false} UnescapeEscapeEach(s: Str)
    ensures Unescape(EscapeEach(s)) == s
  {
    if s != [] {
      UnescapeEscapeEach(s[1..]);
      UnescapeStep(s[0], EscapeEach(s[1..]));
      assert [s[0]] + s[1..] == s;
    }
  }

  // ================================================================ highlighting

  /** Equality up to case, the `i` flag of the highlight regular expression
      (ASCII case folding). */
  predicate SameFolded(a: Str, b: Str) {
    |a| == |b| && forall i :: 0 <= i < |a| ==> LowerChar(a[i]) == LowerChar(b[i])
  }

  /** Length of the first term, in query order, that matches at the start of
      `s`: the alternation `(t1|t2|…)` tries its alternatives left to right. */
  function FirstMatch(s: Str, terms: seq<Str>): (r: Option<nat>)
    ensures r.Some? ==> exists t :: t in terms && |t| == r.value <= |s| && SameFolded(s[..|t|], t)
    ensures r.None? ==> forall t :: t in terms && |t| <= |s| ==> !SameFolded(s[..|t|], t)
  {
    if terms == [] then None
    else if |terms[0]| <= |s| && SameFolded(s[..|terms[0]|], terms[0]) then Some(|terms[0]|)
    else FirstMatch(s, terms[1..])
  }

  /** A piece of highlighted output: a character left alone or a matched
      stretch wrapped in `<mark>`. */
  datatype Piece = Plain(c: char) | Marked(s: Str)

  function PieceText(p: Piece): Str {
    match p
    case Plain(c) => [c]
    case Marked(s) => s
  }

  /** The text with the wrappers deleted. */
  function RemoveMarks(ps: seq<Piece>): Str {
    if ps == [] then [] else PieceText(ps[0]) + RemoveMarks(ps[1..])
  }

  predicate MatchesSomeTerm(s: Str, terms: seq<Str>) {
    exists t :: t in terms && SameFolded(s, t)
  }

  /** No term matches at the start of `s`. */
  predicate NoTermAt(s: Str, terms: seq<Str>) {
    forall t :: t in terms && |t| <= |s| ==> !SameFolded(s[..|t|], t)
  }

  /** `ps` is the left-to-right marking of `s`: a character is left alone
      exactly where no term matches, and where one does, the stretch the
      alternation picks is marked and the scan resumes after it. */
  predicate MarksEveryMatch(s: Str, ps: seq<Piece>, terms: seq<Str>)
    decreases |ps|
  {
    if ps == [] then s == []
    else
      match ps[0]
      case Plain(c) =>
        s != [] && c == s[0] && NoTermAt(s, terms) && MarksEveryMatch(s[1..], ps[1..], terms)
      case Marked(m) =>
        m != [] && |m| <= |s| && m == s[..|m|] && FirstMatch(s, terms) == Some(|m|)
        && MarksEveryMatch(s[|m|..], ps[1..], terms)
  }

  /** `replace` with a global regular expression: scan left to right; at each
      position either a term matches (the match is marked and the scan resumes
      after it) or the character is kept and the scan moves on by one. */
  function Mark(s: Str, terms: seq<Str>): (r: seq<Piece>)
    requires forall t :: t in terms ==> t != []
    ensures RemoveMarks(r) == s
    ensures forall p :: p in r && p.Marked? ==> MatchesSomeTerm(p.s, terms)
    ensures MarksEveryMatch(s, r, terms)
    decreases |s|
  {
    if s == [] then []
    else
      match FirstMatch(s, terms)
      case Some(n) =>
        var rest := Mark(s[n..], terms);
        var r := [Marked(s[..n])] + rest;
        assert r[0] == Marked(s[..n]) && r[1..] == rest;
        r
      case None =>
        var rest := Mark(s[1..], terms);
        var r := [Plain(s[0])] + rest;
        assert r[0] == Plain(s[0]) && r[1..] == rest;
        r
  }

  /** No term matches at the start exactly when the alternation finds none. */
  lemma NoTermAtIff(s: Str, terms: seq<Str>)
    ensures NoTermAt(s, terms) <==> FirstMatch(s, terms).None?
  {
  }

  /** The left-to-right marking of a text is unique, so `Mark` is the only
      output that marks every match. */
  lemma {:induction false} MarksEveryMatchUnique(s: Str, ps: seq<Piece>, qs: seq<Piece>, terms: seq<Str>)
    requires MarksEveryMatch(s, ps, terms) && MarksEveryMatch(s, qs, terms)
    ensures ps == qs
    decreases |ps|
  {
    if ps != [] {
      assert qs != [];
      NoTermAtIff(s, terms);
      match ps[0]
      case Plain(c) => {
        assert qs[0].Plain?;
        MarksEveryMatchUnique(s[1..], ps[1..], qs[1..], terms);
      }
      case Marked(m) => {
        assert qs[0].Marked? && |qs[0].s| == |m|;
        MarksEveryMatchUnique(s[|m|..], ps[1..], qs[1..], terms);
      }
    }
  }

  const MarkOpen: Str := "<mark" + " class=\"bg-yellow-200 dark:bg-yellow-800\">"
  const MarkClose: Str := "</mark>"

  /** The output string: `$1` wrapped in the `<mark>` element. */
  function Render(ps: seq<Piece>): Str {
    if ps == [] then []
    else
      (match ps[0]
       case Plain(c) => [c]
       case Marked(s) => MarkOpen + s + MarkClose) + Render(ps[1..])
  }

  /** `query.trim().split(' ').filter(term => term.length > 0)`; the regex
      escaping that follows makes each term match literally. */
  function HighlightTerms(query: Str): (r: seq<Str>)
    ensures forall t :: t in r ==> t != []
  {
    NonEmpty(Split(Trim(query), ' '))
  }

  /** `highlightSearchTerms` */
  function HighlightSearchTerms(text: Str, query: Str): (r: Str)
    ensures IsBlank(query) || HighlightTerms(query) == [] ==> r == EscapeHtml(text)
    // every leftmost match of a term in the escaped text is wrapped in `<mark>`
    ensures !IsBlank(query) && HighlightTerms(query) != [] ==>
              exists ps :: r == Render(ps) && MarksEveryMatch(EscapeHtml(text), ps, HighlightTerms(query))
  {
    if IsBlank(query) then EscapeHtml(text)
    else
      var escaped := EscapeHtml(text);
      var terms := HighlightTerms(query);
      if terms == [] then escaped else Render(Mark(escaped, terms))
  }

  /** Deletes every `<mark …>` opening tag and `</mark>` closing tag. */
  function StripMarks(s: Str): Str
    decreases |s|
  {
    if s == [] then []
    else if StartsWith(s, MarkOpen) then StripMarks(s[|MarkOpen|..])
    else if StartsWith(s, MarkClose) then StripMarks(s[|MarkClose|..])
    else [s[0]] + StripMarks(s[1..])
  }

  lemma {:induction false} StripMarksPlain(x: Str, y: Str)
    requires '<' !in x
    ensures StripMarks(x + y) == x + StripMarks(y)
    decreases |x|
  {
    if x == [] {
      assert x + y == y;
    } else {
      var s := x + y;
      assert s[0] == x[0] && s[0] != '<';
      StripPlainChar(s);
      assert s[1..] == x[1..] + y;
      StripMarksPlain(x[1..], y);
      assert [x[0]] + x[1..] == x;
    }
  }

  /** A character other than `<` starts no wrapper. */
  lemma StripPlainChar(s: Str)
    requires s != [] && s[0] != '<'
    ensures StripMarks(s) == [s[0]] + StripMarks(s[1..])
  {
    assert MarkOpen[0] == '<' && MarkClose[0] == '<';
  }

  lemma {:induction false} StripMarksRender(ps: seq<Piece>)
    requires '<' !in RemoveMarks(ps)
    ensures StripMarks(Render(ps)) == RemoveMarks(ps)
  {
    if ps != [] {
      var rest := Render(ps[1..]);
      var head := PieceText(ps[0]);
      var others := RemoveMarks(ps[1..]);
      assert RemoveMarks(ps) == head + others;
      NotInParts(head, others, '<');
      StripMarksRender(ps[1..]);
      match ps[0]
      case Plain(c) => {
        assert Render(ps) == [c] + rest;
        StripMarksPlain([c], rest);
      }
      case Marked(s) => {
        assert Render(ps) == (MarkOpen + s + MarkClose) + rest;
        StripMarked(s, rest);
      }
    }
  }

  lemma NotInParts(a: Str, b: Str, c: char)
    requires c !in a + b
    ensures c !in a && c !in b
  {
    assert forall i :: 0 <= i < |a| ==> a[i] == (a + b)[i];
    assert forall i :: 0 <= i < |b| ==> b[i] == (a + b)[|a| + i];
  }

  /** A wrapped piece loses its wrapper. */
  lemma StripMarked(s: Str, rest: Str)
    requires '<' !in s
    ensures StripMarks((MarkOpen + s + MarkClose) + rest) == s + StripMarks(rest)
  {
    var tail := s + (MarkClose + rest);
    assert (MarkOpen + s + MarkClose) + rest == MarkOpen + tail;
    assert (MarkOpen + tail)[..|MarkOpen|] == MarkOpen && (MarkOpen + tail)[|MarkOpen|..] == tail;
    StripMarksPlain(s, MarkClose + rest);
    StripClose(rest);
  }

  lemma StripClose(rest: Str)
    ensures StripMarks(MarkClose + rest) == StripMarks(rest)
  {
    var c := MarkClose + rest;
    assert c[1] == '/' && MarkOpen[1] == 'm';
    assert c[..|MarkClose|] == MarkClose && c[|MarkClose|..] == rest;
  }

  /** Deleting the inserted `<mark>` wrappers from the highlight gives back
      `escapeHtml(text)`: the text is escaped before any markup is added, and
      every `<` in the output belongs to a wrapper. */
  lemma HighlightStripsToEscaped(text: Str, query: Str)
    ensures StripMarks(HighlightSearchTerms(text, query)) == EscapeHtml(text)
  {
    var e := EscapeHtml(text);
    EscapeHtmlSafe(text);
    assert '<' !in e;
    if IsBlank(query) || HighlightTerms(query) == [] {
      StripMarksPlain(e, []);
      assert e + [] == e;
    } else {
      StripMarksRender(Mark(e, HighlightTerms(query)));
    }
  }

  // ================================================================ searchPosts

  /** What the database query answered: the page of rows and the total count,
      or a failure. */
  datatype DbAnswer<P> = DbRows(rows: seq<P>, total: nat) | DbFailure

  datatype SearchPage<P> = SearchPage(posts: seq<P>, total: nat, hasMore: bool)

  const SearchFailed: Str := "검색 중 오류가 발생했습니다."

  /** `searchPosts` with `limit` and `offset` defaulting to 10 and 0. */
  function SearchPosts<P>(query: Str, limit: Option<int>, offset: Option<int>, db: DbAnswer<P>): (r: Result<SearchPage<P>>)
    ensures IsBlank(query) || NormalizeSearchQuery(query) == [] ==> r == Ok(SearchPage([], 0, false))
    ensures !IsBlank(query) && NormalizeSearchQuery(query) != [] ==>
      match db
      case DbFailure => r == Err(SearchFailed)
      case DbRows(rows, total) =>
        r.Ok? && r.value.posts == rows && r.value.total == total
        && (r.value.hasMore <==> Default(offset, 0) + Default(limit, 10) < total)
  {
    if IsBlank(query) then Ok(SearchPage([], 0, false))
    else if NormalizeSearchQuery(query) == [] then Ok(SearchPage([], 0, false))
    else
      match db
      case DbFailure => Err(SearchFailed)
      case DbRows(rows, total) =>
        Ok(SearchPage(rows, total, Default(offset, 0) + Default(limit, 10) < total))
  }

  /** A JavaScript default parameter: applies only when the argument is absent. */
  function Default(x: Option<int>, d: int): int
  {
    if x.Some? then x.value else d
  }

  /** The first early return of `searchPosts` is subsumed by the second: a
      blank query always normalises to the empty string. */
  lemma BlankQueryNormalizesEmpty(q: Str)
    requires IsBlank(q)
    ensures NormalizeSearchQuery(q) == []
  {
    BlankIffAllSpace(q);
    if HasTermChar(q) {
      var i :| 0 <= i < |q| && IsTermChar(q[i]);
      assert IsSpace(q[i]);
    }
    NormalizeEmptyIff(q);
  }

  // ================================================================ popular terms

  const PopularTerms: seq<Str> := [
    "React", "Next.js", "TypeScript", "JavaScript",
    "CSS", "Node.js", "Python", "AI", "Machine Learning",
    "Web Development", "Frontend", "Backend", "Database",
    "GraphQL", "REST API", "Authentication", "Redux",
    "React Hooks", "Tailwind CSS", "Responsive Design"
  ]

  /** `getPopularSearchTerms(limit = 10)`: a prefix of the fixed list, of length
      `min(limit, 20)` for a non-negative limit. */
  function PopularSearchTerms(limit: Option<int>): (r: seq<Str>)
    ensures |r| <= |PopularTerms| && r == PopularTerms[..|r|]
    ensures limit.None? ==> |r| == 10
    ensures limit.Some? && limit.value >= 0 ==> |r| == if limit.value <= 20 then limit.value else 20
    ensures limit.Some? && limit.value < 0 ==> |r| == if limit.value < -20 then 0 else 20 + limit.value
  {
    SliceTo(PopularTerms, Default(limit, 10))
  }
}
