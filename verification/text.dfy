/** String helpers shared by the models: the JavaScript string operations the
    blog code chains together (trim, split, join, replace with a character
    class, slice), restated over `seq<char>`.  Regular-expression character
    classes become explicit character predicates. */
module Text {
  import opened Common

  type Str = seq<char>

  /** `a || b` on an optional string: absent and empty are both falsy. */
  function OrElse(a: Option<Str>, b: Str): Str
  {
    if a.Some? && a.value != [] then a.value else b
  }

  /** `\w` in a JavaScript regular expression without the `u` flag. */
  predicate IsWordChar(c: char) {
    ('a' <= c <= 'z') || ('A' <= c <= 'Z') || ('0' <= c <= '9') || c == '_'
  }

  /** `\s`, which is also the set of characters `String.prototype.trim` removes
      (ECMAScript WhiteSpace and LineTerminator). */
  predicate IsSpace(c: char) {
    c == ' ' || c == '\t' || c == '\n' || c == '\r' || c == '\U{000B}' || c == '\U{000C}'
    || c == '\U{00A0}' || c == '\U{1680}' || ('\U{2000}' <= c <= '\U{200A}')
    || c == '\U{2028}' || c == '\U{2029}' || c == '\U{202F}' || c == '\U{205F}'
    || c == '\U{3000}' || c == '\U{FEFF}'
  }

  /** The range `가-힣` (precomposed Hangul syllables). */
  predicate IsHangulSyllable(c: char) {
    '\U{AC00}' <= c <= '\U{D7A3}'
  }

  /** The ranges `ㄱ-ㅎ` and `ㅏ-ㅣ` (Hangul compatibility jamo). */
  predicate IsHangulJamo(c: char) {
    '\U{3131}' <= c <= '\U{3163}'
  }

  predicate IsUpperAscii(c: char) {
    'A' <= c <= 'Z'
  }

  /** `toLowerCase` restricted to ASCII letters. */
  function LowerChar(c: char): (r: char)
    ensures !IsUpperAscii(r)
    ensures IsUpperAscii(c) || r == c
  {
    if IsUpperAscii(c) then (c as int + 32) as char else c
  }

  /** An upper-case letter becomes its lower-case partner, 32 code points on. */
  lemma LowerCharPartner(c: char)
    requires IsUpperAscii(c)
    ensures LowerChar(c) as int == c as int + 32 && 'a' <= LowerChar(c) <= 'z'
  {
  }

  function Lower(s: Str): (r: Str)
    ensures |r| == |s|
    ensures forall i :: 0 <= i < |s| ==> r[i] == LowerChar(s[i])
  {
    if s == [] then [] else [LowerChar(s[0])] + Lower(s[1..])
  }

  /** Number of occurrences of `c` in `s`. */
  function CountChar(s: Str, c: char): nat
  {
    if s == [] then 0 else (if s[0] == c then 1 else 0) + CountChar(s[1..], c)
  }

  lemma CountCharAppend(a: Str, b: Str, c: char)
    ensures CountChar(a + b, c) == CountChar(a, c) + CountChar(b, c)
  {
    if a != [] {
      assert (a + b)[0] == a[0] && (a + b)[1..] == a[1..] + b;
      CountCharAppend(a[1..], b, c);
    } else {
      assert a + b == b;
    }
  }

  lemma CountCharAbsent(s: Str, c: char)
    requires forall i :: 0 <= i < |s| ==> s[i] != c
    ensures CountChar(s, c) == 0
  {
    if s != [] { CountCharAbsent(s[1..], c); }
  }

  // ---------------------------------------------------------------- trim

  function TrimStart(s: Str): (r: Str)
    ensures |r| <= |s| && r == s[|s| - |r|..]
    ensures r != [] ==> !IsSpace(r[0])
    ensures forall i :: 0 <= i < |s| - |r| ==> IsSpace(s[i])
  {
    if s != [] && IsSpace(s[0]) then TrimStart(s[1..]) else s
  }

  function TrimEnd(s: Str): (r: Str)
    ensures |r| <= |s| && r == s[..|r|]
    ensures r != [] ==> !IsSpace(r[|r| - 1])
    ensures forall i :: |r| <= i < |s| ==> IsSpace(s[i])
  {
    if s != [] && IsSpace(s[|s| - 1]) then TrimEnd(s[..|s| - 1]) else s
  }

  /** `String.prototype.trim`: the middle of `s` once the leading and trailing
      whitespace runs are removed. */
  function Trim(s: Str): (r: Str)
    ensures r != [] ==> !IsSpace(r[0]) && !IsSpace(r[|r| - 1])
    ensures |TrimStart(s)| <= |s| && |r| <= |TrimStart(s)|
    ensures r == s[|s| - |TrimStart(s)|..|s| - |TrimStart(s)| + |r|]
  {
    TrimEnd(TrimStart(s))
  }

  /** What `Trim` removes is whitespace: everything before and after the
      kept middle. */
  lemma TrimRemovesOnlySpace(s: Str)
    ensures var a := |s| - |TrimStart(s)|;
            forall i :: 0 <= i < a || a + |Trim(s)| <= i < |s| ==> IsSpace(s[i])
  {
    var t := TrimStart(s);
    SpaceTailOfSuffix(s, t, |TrimEnd(t)|);
  }

  lemma SpaceTailOfSuffix(s: Str, t: Str, k: nat)
    requires |t| <= |s| && t == s[|s| - |t|..] && k <= |t|
    requires forall i :: k <= i < |t| ==> IsSpace(t[i])
    ensures forall i :: |s| - |t| + k <= i < |s| ==> IsSpace(s[i])
  {
    forall i | |s| - |t| + k <= i < |s| ensures IsSpace(s[i]) {
      assert s[i] == t[i - (|s| - |t|)];
    }
  }

  /** A JavaScript condition `!s.trim()`. */
  predicate IsBlank(s: Str) {
    Trim(s) == []
  }

  lemma BlankIffAllSpace(s: Str)
    ensures IsBlank(s) <==> forall i :: 0 <= i < |s| ==> IsSpace(s[i])
  {
    var t := TrimStart(s);
    if t != [] {
      assert !IsSpace(t[0]);
      var e := TrimEnd(t);
      assert e != [];
      assert !IsSpace(s[|s| - |t|]);
    }
  }

  /** Trimming keeps every character that is not whitespace. */
  lemma TrimKeepsNonSpace(s: Str, i: int)
    requires 0 <= i < |s| && !IsSpace(s[i])
    ensures exists j :: 0 <= j < |Trim(s)| && Trim(s)[j] == s[i]
  {
    var t := TrimStart(s);
    var off := |s| - |t|;
    assert i >= off;
    var e := TrimEnd(t);
    assert i - off < |e|;
    assert Trim(s) == e;
    assert e[i - off] == s[i];
  }

  /** Every character of `Trim(s)` comes from `s`. */
  lemma TrimSubset(s: Str, j: int)
    requires 0 <= j < |Trim(s)|
    ensures exists i :: 0 <= i < |s| && s[i] == Trim(s)[j]
  {
    var r := Trim(s);
    var k := |s| - |TrimStart(s)|;
    assert r == s[k..k + |r|];
    assert s[k..k + |r|][j] == s[k + j];
  }

  // ---------------------------------------------------------------- split / join

  /** `s.split(sep)` for a one-character separator: always at least one piece
      (`''.split(',')` is `['']`). */
  function Split(s: Str, sep: char): (parts: seq<Str>)
    ensures |parts| >= 1
    decreases |s|
  {
    if s == [] then [[]]
    else
      var rest := Split(s[1..], sep);
      if s[0] == sep then [[]] + rest else [[s[0]] + rest[0]] + rest[1..]
  }

  lemma {:induction false} SplitCount(s: Str, sep: char)
    ensures |Split(s, sep)| == CountChar(s, sep) + 1
    decreases |s|
  {
    if s != [] { SplitCount(s[1..], sep); }
  }

  lemma {:induction false} SplitPiecesFree(s: Str, sep: char)
    ensures forall p, i :: p in Split(s, sep) && 0 <= i < |p| ==> p[i] != sep
    decreases |s|
  {
    if s != [] {
      SplitPiecesFree(s[1..], sep);
      var rest := Split(s[1..], sep);
      if s[0] != sep {
        forall i | 0 <= i < |[s[0]] + rest[0]| ensures ([s[0]] + rest[0])[i] != sep {
          if i > 0 { assert ([s[0]] + rest[0])[i] == rest[0][i - 1]; assert rest[0] in rest; }
        }
        forall p | p in rest[1..] ensures p in rest { }
      }
    }
  }

  /** Every character of a piece comes from `s`. */
  lemma {:induction false} SplitPiecesFrom(s: Str, sep: char, p: Str, i: int)
    requires p in Split(s, sep) && 0 <= i < |p|
    ensures p[i] in s
    decreases |s|
  {
    var rest := Split(s[1..], sep);
    if s[0] == sep {
      assert p in rest;
      SplitPiecesFrom(s[1..], sep, p, i);
    } else if p == [s[0]] + rest[0] {
      if i > 0 {
        assert rest[0] in rest;
        SplitPiecesFrom(s[1..], sep, rest[0], i - 1);
      }
    } else {
      assert p in rest;
      SplitPiecesFrom(s[1..], sep, p, i);
    }
  }

  /** A character other than the separator ends up in some piece. */
  lemma {:induction false} SplitKeeps(s: Str, sep: char, i: int)
    requires 0 <= i < |s| && s[i] != sep
    ensures exists p :: p in Split(s, sep) && s[i] in p
    decreases |s|
  {
    var rest := Split(s[1..], sep);
    if i == 0 {
      assert s[0] in [s[0]] + rest[0];
      assert ([s[0]] + rest[0]) in Split(s, sep);
    } else {
      SplitKeeps(s[1..], sep, i - 1);
      var p :| p in rest && s[i] in p;
      if s[0] == sep {
        assert p in Split(s, sep);
      } else if p == rest[0] {
        assert s[i] in [s[0]] + rest[0];
        assert ([s[0]] + rest[0]) in Split(s, sep);
      } else {
        var k :| 0 <= k < |rest| && rest[k] == p;
        assert Split(s, sep)[k] == p;
      }
    }
  }

  lemma {:induction false} SplitNoSep(s: Str, sep: char)
    requires sep !in s
    ensures Split(s, sep) == [s]
    decreases |s|
  {
    if s != [] {
      SplitNoSep(s[1..], sep);
      assert [s[0]] + s[1..] == s;
    }
  }

  lemma {:induction false} SplitAtSep(a: Str, b: Str, sep: char)
    requires sep !in a
    ensures Split(a + [sep] + b, sep) == [a] + Split(b, sep)
    decreases |a|
  {
    var s := a + [sep] + b;
    if a == [] {
      assert s == [sep] + b && s[1..] == b;
    } else {
      assert s[0] == a[0] && s[1..] == a[1..] + [sep] + b;
      SplitAtSep(a[1..], b, sep);
      assert [a[0]] + a[1..] == a;
    }
  }

  /** Splitting a join recovers the pieces when no piece holds the separator. */
  lemma {:induction false} SplitJoin(parts: seq<Str>, sep: char)
    requires |parts| >= 1
    requires forall p :: p in parts ==> sep !in p
    ensures Split(Join(parts, [sep]), sep) == parts
  {
    if |parts| == 1 {
      SplitNoSep(parts[0], sep);
    } else {
      SplitJoin(parts[1..], sep);
      SplitAtSep(parts[0], Join(parts[1..], [sep]), sep);
      assert [parts[0]] + parts[1..] == parts;
    }
  }

  /** `parts.join(sep)`. */
  function Join(parts: seq<Str>, sep: Str): Str
  {
    if parts == [] then []
    else if |parts| == 1 then parts[0]
    else parts[0] + sep + Join(parts[1..], sep)
  }

  lemma {:induction false} JoinSplit(s: Str, sep: char)
    ensures Join(Split(s, sep), [sep]) == s
    decreases |s|
  {
    if s != [] {
      JoinSplit(s[1..], sep);
      var rest := Split(s[1..], sep);
      if s[0] != sep {
        if |rest| == 1 {
        } else {
          assert ([[s[0]] + rest[0]] + rest[1..])[1..] == rest[1..];
          assert Join(rest, [sep]) == rest[0] + [sep] + Join(rest[1..], [sep]);
        }
      }
    }
  }

  lemma {:induction false} CountCharJoin(parts: seq<Str>, sep: Str, c: char)
    ensures CountChar(Join(parts, sep), c) ==
            SumCount(parts, c) + (if parts == [] then 0 else (|parts| - 1) * CountChar(sep, c))
  {
    if |parts| > 1 {
      CountCharJoin(parts[1..], sep, c);
      CountCharJoinStep(parts, sep, c);
    } else if |parts| == 1 {
      assert parts[1..] == [];
    }
  }

  lemma CountCharJoinStep(parts: seq<Str>, sep: Str, c: char)
    requires |parts| > 1
    requires CountChar(Join(parts[1..], sep), c) ==
             SumCount(parts[1..], c) + (|parts| - 2) * CountChar(sep, c)
    ensures CountChar(Join(parts, sep), c) == SumCount(parts, c) + (|parts| - 1) * CountChar(sep, c)
  {
    var rest := Join(parts[1..], sep);
    assert Join(parts, sep) == parts[0] + sep + rest;
    CountCharAppend(parts[0] + sep, rest, c);
    CountCharAppend(parts[0], sep, c);
    MulStep(|parts| - 1, CountChar(sep, c));
  }

  lemma MulStep(n: int, k: int)
    ensures (n - 1) * k + k == n * k
    ensures n >= 1 && k >= 0 ==> (n - 1) * k >= 0
  {
  }

  /** Total occurrences of `c` over all pieces. */
  function SumCount(parts: seq<Str>, c: char): nat
  {
    if parts == [] then 0 else CountChar(parts[0], c) + SumCount(parts[1..], c)
  }

  /** `filter(x => x.length > 0)` */
  function NonEmpty(parts: seq<Str>): (r: seq<Str>)
    ensures |r| <= |parts|
    ensures forall p :: p in r <==> p in parts && p != []
  {
    if parts == [] then []
    else if parts[0] == [] then NonEmpty(parts[1..])
    else [parts[0]] + NonEmpty(parts[1..])
  }

  /** `map(x => x.trim())` */
  function TrimAll(parts: seq<Str>): (r: seq<Str>)
    ensures |r| == |parts|
    ensures forall i :: 0 <= i < |parts| ==> r[i] == Trim(parts[i])
  {
    if parts == [] then [] else [Trim(parts[0])] + TrimAll(parts[1..])
  }

  /** `s.split(sep).map(x => x.trim()).filter(x => x.length > 0)`, used for
      comma-separated tag lists. */
  function SplitTrimmed(s: Str, sep: char): (r: seq<Str>)
    ensures forall p :: p in r ==> p != [] && !IsSpace(p[0]) && !IsSpace(p[|p| - 1])
  {
    var t := TrimAll(Split(s, sep));
    TrimmedPieces(Split(s, sep));
    NonEmpty(t)
  }

  lemma TrimmedPieces(parts: seq<Str>)
    ensures forall p :: p in TrimAll(parts) && p != [] ==> !IsSpace(p[0]) && !IsSpace(p[|p| - 1])
  {
    forall p | p in TrimAll(parts) && p != [] ensures !IsSpace(p[0]) && !IsSpace(p[|p| - 1]) {
      TrimmedPiece(parts, p);
    }
  }

  lemma TrimmedPiece(parts: seq<Str>, p: Str)
    requires p in TrimAll(parts) && p != []
    ensures !IsSpace(p[0]) && !IsSpace(p[|p| - 1])
  {
    var t := TrimAll(parts);
    var i :| 0 <= i < |t| && t[i] == p;
    TrimEnds(parts[i]);
  }

  lemma TrimEnds(s: Str)
    ensures var r := Trim(s); r != [] ==> !IsSpace(r[0]) && !IsSpace(r[|r| - 1])
  {
  }

  /** `filter` around a kept element `t[i]`. */
  lemma {:induction false} NonEmptyAround(t: seq<Str>, i: int)
    requires 0 <= i < |t| && t[i] != []
    ensures NonEmpty(t) == NonEmpty(t[..i]) + [t[i]] + NonEmpty(t[i + 1..])
  {
    if i == 0 {
      assert t[..0] == [];
    } else {
      var u := t[1..];
      NonEmptyAround(u, i - 1);
      assert u[i - 1] == t[i];
      assert u[i..] == t[i + 1..];
      var p := t[..i];
      assert p[0] == t[0];
      assert p[1..] == u[..i - 1];
      var a, b := NonEmpty(u[..i - 1]), NonEmpty(t[i + 1..]);
      if t[0] != [] {
        assert NonEmpty(t) == [t[0]] + (a + [t[i]] + b);
        assert NonEmpty(p) == [t[0]] + a;
        assert [t[0]] + (a + [t[i]] + b) == ([t[0]] + a) + [t[i]] + b;
      }
    }
  }

  /** Every piece that is not blank once trimmed appears, trimmed, in the
      result: after the kept trimmed pieces before it and before the kept
      trimmed pieces after it. */
  lemma SplitTrimmedKeepsPiece(s: Str, sep: char, i: int)
    requires 0 <= i < |Split(s, sep)| && Trim(Split(s, sep)[i]) != []
    ensures var t := TrimAll(Split(s, sep));
            SplitTrimmed(s, sep) == NonEmpty(t[..i]) + [Trim(Split(s, sep)[i])] + NonEmpty(t[i + 1..])
    ensures Trim(Split(s, sep)[i]) in SplitTrimmed(s, sep)
  {
    var t := TrimAll(Split(s, sep));
    NonEmptyAround(t, i);
    var before := NonEmpty(t[..i]);
    assert (before + [t[i]] + NonEmpty(t[i + 1..]))[|before|] == t[i];
  }

  lemma SplitTrimmedNoSep(s: Str, sep: char, p: Str, i: int)
    requires p in SplitTrimmed(s, sep) && 0 <= i < |p|
    ensures p[i] != sep
  {
    var pieces := Split(s, sep);
    var j :| 0 <= j < |pieces| && TrimAll(pieces)[j] == p;
    SplitPiecesFree(s, sep);
    assert pieces[j] in pieces;
    TrimSubset(pieces[j], i);
  }

  // ---------------------------------------------------------------- slicing

  /** `s.slice(0, n)` / `s.substring(0, n)` for a non-negative `n`. */
  function Take<T>(s: seq<T>, n: nat): (r: seq<T>)
    ensures |r| == if n <= |s| then n else |s|
    ensures r == s[..|r|]
  {
    if n <= |s| then s[..n] else s
  }

  /** `s.slice(0, end)` for any integer `end`: a negative `end` counts from
      the back. */
  function SliceTo<T>(s: seq<T>, end: int): (r: seq<T>)
    ensures |r| <= |s| && r == s[..|r|]
    ensures 0 <= end ==> |r| == if end <= |s| then end else |s|
    ensures end < 0 ==> |r| == if |s| + end < 0 then 0 else |s| + end
  {
    if end < 0 then (if |s| + end < 0 then [] else s[..|s| + end])
    else Take(s, end)
  }

  // ---------------------------------------------------------------- search

  predicate StartsWith(s: Str, p: Str) {
    |p| <= |s| && s[..|p|] == p
  }

  /** `s.includes(p)` */
  predicate Contains(s: Str, p: Str)
    decreases |s|
  {
    StartsWith(s, p) || (s != [] && Contains(s[1..], p))
  }

  /** Run-length collapse: every maximal run of characters satisfying `inRun`
      becomes the single character `rep` (`replace(/X+/g, rep)`). */
  function CollapseRuns(s: Str, inRun: char -> bool, rep: char): (r: Str)
    ensures |r| <= |s|
    decreases |s|
  {
    if s == [] then []
    else if inRun(s[0]) then [rep] + CollapseRuns(SkipRun(s[1..], inRun), inRun, rep)
    else [s[0]] + CollapseRuns(s[1..], inRun, rep)
  }

  /** Drop the leading characters satisfying `inRun`. */
  function SkipRun(s: Str, inRun: char -> bool): (r: Str)
    ensures |r| <= |s| && r == s[|s| - |r|..]
    ensures r != [] ==> !inRun(r[0])
    ensures forall i :: 0 <= i < |s| - |r| ==> inRun(s[i])
  {
    if s != [] && inRun(s[0]) then SkipRun(s[1..], inRun) else s
  }

  /** Characters of a collapse are the replacement or characters of `s` that
      are not in a run. */
  lemma {:induction false} CollapseRunsChars(s: Str, inRun: char -> bool, rep: char)
    ensures forall i :: 0 <= i < |CollapseRuns(s, inRun, rep)| ==>
      CollapseRuns(s, inRun, rep)[i] == rep || (CollapseRuns(s, inRun, rep)[i] in s && !inRun(CollapseRuns(s, inRun, rep)[i]))
    decreases |s|
  {
    if s != [] {
      var r := CollapseRuns(s, inRun, rep);
      if inRun(s[0]) {
        var t := SkipRun(s[1..], inRun);
        CollapseRunsChars(t, inRun, rep);
        assert r == [rep] + CollapseRuns(t, inRun, rep);
        CollapseRunsCharsStep(s, t, CollapseRuns(t, inRun, rep), r, inRun, rep);
      } else {
        CollapseRunsChars(s[1..], inRun, rep);
        assert r == [s[0]] + CollapseRuns(s[1..], inRun, rep);
        CollapseRunsCharsStep(s, s[1..], CollapseRuns(s[1..], inRun, rep), r, inRun, rep);
      }
    }
  }

  /** The step of `CollapseRunsChars`: `r` is one character in front of the
      collapse `rt` of a suffix `t` of `s`. */
  lemma CollapseRunsCharsStep(s: Str, t: Str, rt: Str, r: Str, inRun: char -> bool, rep: char)
    requires |t| <= |s| && t == s[|s| - |t|..]
    requires forall i :: 0 <= i < |rt| ==> rt[i] == rep || (rt[i] in t && !inRun(rt[i]))
    requires r != [] && r[1..] == rt && (r[0] == rep || (r[0] in s && !inRun(r[0])))
    ensures forall i :: 0 <= i < |r| ==> r[i] == rep || (r[i] in s && !inRun(r[i]))
  {
    forall i | 0 < i < |r| ensures r[i] == rep || (r[i] in s && !inRun(r[i])) {
      assert r[i] == rt[i - 1];
      if rt[i - 1] != rep {
        var k :| 0 <= k < |t| && t[k] == rt[i - 1];
        assert s[|s| - |t| + k] == t[k];
      }
    }
  }

  /** After a collapse no two replacement characters are adjacent, as long as
      the replacement itself is a run character. */
  lemma {:induction false} CollapseRunsNoDouble(s: Str, inRun: char -> bool, rep: char, i: int)
    requires inRun(rep)
    requires 0 <= i < |CollapseRuns(s, inRun, rep)| - 1
    ensures !(CollapseRuns(s, inRun, rep)[i] == rep && CollapseRuns(s, inRun, rep)[i + 1] == rep)
    decreases |s|
  {
    var r := CollapseRuns(s, inRun, rep);
    if inRun(s[0]) {
      var t := SkipRun(s[1..], inRun);
      var rt := CollapseRuns(t, inRun, rep);
      assert r == [rep] + rt;
      if i == 0 {
        assert t != [] && !inRun(t[0]);
        assert rt == [t[0]] + CollapseRuns(t[1..], inRun, rep);
        assert r[1] == t[0];
      } else {
        CollapseRunsNoDouble(t, inRun, rep, i - 1);
        assert r[i] == rt[i - 1] && r[i + 1] == rt[i];
      }
    } else {
      var rt := CollapseRuns(s[1..], inRun, rep);
      assert r == [s[0]] + rt;
      if i > 0 {
        CollapseRunsNoDouble(s[1..], inRun, rep, i - 1);
        assert r[i] == rt[i - 1] && r[i + 1] == rt[i];
      } else {
        assert r[0] == s[0];
      }
    }
  }

  /** A collapse keeps every character outside the runs. */
  lemma {:induction false} CollapseRunsKeeps(s: Str, inRun: char -> bool, rep: char, i: int)
    requires 0 <= i < |s| && !inRun(s[i])
    ensures s[i] in CollapseRuns(s, inRun, rep)
    decreases |s|
  {
    var r := CollapseRuns(s, inRun, rep);
    if inRun(s[0]) {
      var t := SkipRun(s[1..], inRun);
      var j := i - (|s| - |t|);
      assert 0 <= j && t[j] == s[i];
      CollapseRunsKeeps(t, inRun, rep, j);
      assert r == [rep] + CollapseRuns(t, inRun, rep);
    } else if i > 0 {
      CollapseRunsKeeps(s[1..], inRun, rep, i - 1);
      assert r == [s[0]] + CollapseRuns(s[1..], inRun, rep);
    } else {
      assert r[0] == s[0];
    }
  }

  /** `s.replace(new RegExp(pat, 'g'), rep)` for a literal, non-empty pattern:
      left-to-right, non-overlapping. */
  function ReplaceAll(s: Str, pat: Str, rep: Str): Str
    requires pat != []
    decreases |s|
  {
    if |s| < |pat| then s
    else if s[..|pat|] == pat then rep + ReplaceAll(s[|pat|..], pat, rep)
    else [s[0]] + ReplaceAll(s[1..], pat, rep)
  }

  /** `s.replace(/c/g, rep)` for a single character. */
  function ReplaceChar(s: Str, c: char, rep: Str): Str
  {
    if s == [] then []
    else (if s[0] == c then rep else [s[0]]) + ReplaceChar(s[1..], c, rep)
  }

  lemma {:induction false} ReplaceCharAppend(a: Str, b: Str, c: char, rep: Str)
    ensures ReplaceChar(a + b, c, rep) == ReplaceChar(a, c, rep) + ReplaceChar(b, c, rep)
  {
    if a != [] {
      assert (a + b)[0] == a[0] && (a + b)[1..] == a[1..] + b;
      ReplaceCharAppend(a[1..], b, c, rep);
    } else {
      assert a + b == b;
    }
  }

  lemma ReplaceCharAbsent(s: Str, c: char, rep: Str)
    requires c !in s
    ensures ReplaceChar(s, c, rep) == s
  {
    if s != [] { ReplaceCharAbsent(s[1..], c, rep); }
  }

  // ---------------------------------------------------------------- numbers

  /** Decimal rendering of a natural number, as template literals print it. */
  function NatToString(n: nat): (r: Str)
    ensures r != []
    ensures forall i :: 0 <= i < |r| ==> '0' <= r[i] <= '9'
  {
    if n < 10 then [DigitChar(n)] else NatToString(n / 10) + [DigitChar(n % 10)]
  }

  function DigitChar(d: nat): (c: char)
    requires d < 10
    ensures '0' <= c <= '9'
  {
    ('0' as int + d) as char
  }
}
