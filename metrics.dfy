/**
 * The editor's text statistics (editor.tsx, the metrics timer callback and the
 * selection timer callback): word, character and reading-time counts, and the
 * detailed paragraph/sentence/average figures. Every figure is a pure function of
 * the editor's text projection (`innerText`) or of the selected text.
 */
module Metrics {
  import opened Text
  import opened Options

  /** The three separator classes the statistics split on:
      `/\s+/`, `/[.!?]+/` and the single character "\n". */
  datatype Separator = Whitespace | SentenceEnd | Newline

  predicate IsSep(c: char, k: Separator) {
    match k
    case Whitespace => IsWhitespace(c)
    case SentenceEnd => c == '.' || c == '!' || c == '?'
    case Newline => c == '\n'
  }

  /** No character of `p` is a separator of class `k`. */
  predicate SepFree(p: string, k: Separator) {
    forall i :: 0 <= i < |p| ==> !IsSep(p[i], k)
  }

  /** Length of the leading run of non-separator characters. */
  function RunLength(s: string, k: Separator): (n: nat)
    ensures n <= |s| && SepFree(s[..n], k)
    ensures n < |s| ==> IsSep(s[n], k)
    ensures s != [] && !IsSep(s[0], k) ==> n > 0
  {
    if s == [] || IsSep(s[0], k) then 0 else 1 + RunLength(s[1..], k)
  }

  /** Drops the leading run of separators. */
  function SkipSeps(s: string, k: Separator): (r: string)
    ensures |r| <= |s| && r == s[|s| - |r|..]
    ensures forall i :: 0 <= i < |s| - |r| ==> IsSep(s[i], k)
    ensures r != [] ==> !IsSep(r[0], k)
    ensures s != [] && IsSep(s[0], k) ==> |r| < |s|
  {
    if s != [] && IsSep(s[0], k) then SkipSeps(s[1..], k) else s
  }

  /** The characters of `s` that are not separators of class `k`, in order. */
  function NonSep(s: string, k: Separator): string {
    if s == [] then [] else (if IsSep(s[0], k) then [] else [s[0]]) + NonSep(s[1..], k)
  }

  /** The pieces laid end to end. */
  function Concat(ps: seq<string>): string {
    if ps == [] then [] else ps[0] + Concat(ps[1..])
  }

  lemma {:induction false} NonSepAppend(a: string, b: string, k: Separator)
    ensures NonSep(a + b, k) == NonSep(a, k) + NonSep(b, k)
    decreases |a|
  {
    if a != [] {
      assert (a + b)[1..] == a[1..] + b;
      NonSepAppend(a[1..], b, k);
    } else {
      assert a + b == b;
    }
  }

  lemma {:induction false} NonSepOfSepFree(p: string, k: Separator)
    requires SepFree(p, k)
    ensures NonSep(p, k) == p
    decreases |p|
  {
    if p != [] {
      NonSepOfSepFree(p[1..], k);
    }
  }

  lemma {:induction false} NonSepSkipSeps(s: string, k: Separator)
    ensures NonSep(SkipSeps(s, k), k) == NonSep(s, k)
    decreases |s|
  {
    if s != [] && IsSep(s[0], k) {
      NonSepSkipSeps(s[1..], k);
    }
  }

  /** The first `n` characters hold no separator, so filtering keeps them whole. */
  lemma NonSepRun(s: string, n: nat, k: Separator)
    requires n <= |s| && SepFree(s[..n], k)
    ensures NonSep(s, k) == s[..n] + NonSep(s[n..], k)
  {
    assert s == s[..n] + s[n..];
    NonSepAppend(s[..n], s[n..], k);
    NonSepOfSepFree(s[..n], k);
  }

  /** `s.split(/X+/)` for the class X of `k`: the pieces between maximal runs of
      separators, with an empty first (last) piece when `s` starts (ends) with one.
      No piece holds a separator, only the first and the last can be empty, and
      together they hold every other character of `s`, in order. */
  function SplitRuns(s: string, k: Separator): (pieces: seq<string>)
    ensures |pieces| >= 1
    ensures forall j :: 0 <= j < |pieces| ==> SepFree(pieces[j], k)
    ensures forall j :: 0 < j < |pieces| - 1 ==> pieces[j] != []
    ensures s != [] && !IsSep(s[0], k) ==> pieces[0] != []
    ensures Concat(pieces) == NonSep(s, k)
    decreases |s|
  {
    var n := RunLength(s, k);
    NonSepRun(s, n, k);
    if n == |s| then
      assert s[n..] == [];
      [s]
    else
      var u := SkipSeps(s[n..], k);
      NonSepSkipSeps(s[n..], k);
      var rest := SplitRuns(u, k);
      assert ([s[..n]] + rest)[1..] == rest;
      [s[..n]] + rest
  }

  /** A run of non-separators starts at offset `i`. */
  predicate IsRunStart(s: string, k: Separator, i: int) {
    0 <= i < |s| && !IsSep(s[i], k) && (i == 0 || IsSep(s[i - 1], k))
  }

  /** The offsets at which a run of non-separators starts. */
  ghost function RunStarts(s: string, k: Separator): set<int> {
    set i | 0 <= i < |s| && IsRunStart(s, k, i)
  }

  /** `A` moved `d` places on. */
  ghost function Shift(A: set<int>, d: int): set<int> {
    set x | x in A :: x + d
  }

  lemma {:induction false} ShiftCard(A: set<int>, d: int)
    ensures |Shift(A, d)| == |A|
    decreases |A|
  {
    if A != {} {
      assert (forall y :: y !in A) ==> A == {};
      var x :| x in A;
      var B := A - {x};
      ShiftCard(B, d);
      assert Shift(A, d) == Shift(B, d) + {x + d} by {
        forall y | y in Shift(A, d) ensures y in Shift(B, d) + {x + d} {
          var z :| z in A && y == z + d;
          if z != x {
            assert z in B;
          }
        }
      }
      assert x + d !in Shift(B, d);
    }
  }

  /** A set of offsets that is at most 0 plus the offsets of `A` moved on by `n`
      has one element more than `A` when it holds 0, and as many otherwise. */
  lemma ShiftUnion(S: set<int>, A: set<int>, first: bool, n: int)
    requires n > 0
    requires 0 in S <==> first
    requires forall i :: i in S && i != 0 ==> i >= n && i - n in A
    requires forall j :: j in A ==> j >= 0 && j + n in S
    ensures |S| == (if first then 1 else 0) + |A|
  {
    var B := Shift(A, n);
    assert S == (if first then {0} else {}) + B by {
      forall i | i in S && i != 0 ensures i in B {
        assert i - n in A;
      }
    }
    ShiftCard(A, n);
  }

  lemma RunStartsSkip(s: string, k: Separator)
    requires s != [] && IsSep(s[0], k)
    ensures |RunStarts(s, k)| == |RunStarts(s[1..], k)|
  {
    var t := s[1..];
    forall i | 1 <= i < |s| ensures IsRunStart(s, k, i) <==> IsRunStart(t, k, i - 1) {
      assert t[i - 1] == s[i];
      if i > 1 {
        assert t[i - 2] == s[i - 1];
      }
    }
    ShiftUnion(RunStarts(s, k), RunStarts(t, k), false, 1);
  }

  /** Inside a run only its first offset starts one; past the run, the starts
      are those of the rest, moved on by the run's length. */
  lemma RunStartsAround(s: string, k: Separator, n: nat)
    requires 0 < n <= |s| && SepFree(s[..n], k) && (n < |s| ==> IsSep(s[n], k))
    ensures IsRunStart(s, k, 0)
    ensures forall i :: 0 < i < n ==> !IsRunStart(s, k, i)
    ensures forall i :: n <= i < |s| ==> (IsRunStart(s, k, i) <==> IsRunStart(s[n..], k, i - n))
  {
    var t := s[n..];
    forall i | 0 < i < n ensures !IsRunStart(s, k, i) {
      assert s[..n][i - 1] == s[i - 1];
    }
    forall i | n <= i < |s| ensures IsRunStart(s, k, i) <==> IsRunStart(t, k, i - n) {
      assert t[i - n] == s[i];
      if i > n {
        assert t[i - n - 1] == s[i - 1];
      }
    }
    assert s[..n][0] == s[0];
  }

  lemma RunStartsRun(s: string, k: Separator, n: nat)
    requires 0 < n <= |s| && SepFree(s[..n], k) && (n < |s| ==> IsSep(s[n], k))
    ensures |RunStarts(s, k)| == 1 + |RunStarts(s[n..], k)|
  {
    RunStartsAround(s, k, n);
    ShiftUnion(RunStarts(s, k), RunStarts(s[n..], k), true, n);
  }

  /** The maximal non-empty runs of non-separator characters, in order: the
      tokens a reader would count. There is one per run start, and together they
      hold every non-separator character of `s`, in order. */
  function Tokens(s: string, k: Separator): (ts: seq<string>)
    ensures forall j :: 0 <= j < |ts| ==> ts[j] != [] && SepFree(ts[j], k)
    ensures Concat(ts) == NonSep(s, k)
    ensures |ts| == |RunStarts(s, k)|
    decreases |s|
  {
    if s == [] then
      assert RunStarts(s, k) == {};
      []
    else if IsSep(s[0], k) then
      RunStartsSkip(s, k);
      Tokens(s[1..], k)
    else
      var n := RunLength(s, k);
      NonSepRun(s, n, k);
      RunStartsRun(s, k, n);
      var rest := Tokens(s[n..], k);
      assert ([s[..n]] + rest)[1..] == rest;
      [s[..n]] + rest
  }

  lemma {:induction false} TokensSkipSeps(s: string, k: Separator)
    ensures Tokens(SkipSeps(s, k), k) == Tokens(s, k)
    decreases |s|
  {
    if s != [] && IsSep(s[0], k) {
      TokensSkipSeps(s[1..], k);
    }
  }

  lemma {:induction false} RunLengthAppendSep(s: string, c: char, k: Separator)
    requires IsSep(c, k)
    ensures RunLength(s + [c], k) == RunLength(s, k)
    decreases |s|
  {
    if s != [] && !IsSep(s[0], k) {
      assert (s + [c])[1..] == s[1..] + [c];
      RunLengthAppendSep(s[1..], c, k);
    }
  }

  /** A trailing separator adds no token. */
  lemma {:induction false} TokensAppendSep(s: string, c: char, k: Separator)
    requires IsSep(c, k)
    ensures Tokens(s + [c], k) == Tokens(s, k)
    decreases |s|
  {
    if s == [] {
      assert Tokens([c], k) == Tokens([], k);
    } else if IsSep(s[0], k) {
      assert (s + [c])[1..] == s[1..] + [c];
      TokensAppendSep(s[1..], c, k);
    } else {
      var n := RunLength(s, k);
      RunLengthAppendSep(s, c, k);
      assert (s + [c])[..n] == s[..n];
      assert (s + [c])[n..] == s[n..] + [c];
      TokensAppendSep(s[n..], c, k);
    }
  }

  lemma {:induction false} TokensTrimEnd(s: string)
    ensures Tokens(TrimEnd(s), Whitespace) == Tokens(s, Whitespace)
    decreases |s|
  {
    if s != [] && IsWhitespace(s[|s| - 1]) {
      var init := s[..|s| - 1];
      assert s == init + [s[|s| - 1]];
      TokensAppendSep(init, s[|s| - 1], Whitespace);
      TokensTrimEnd(init);
    }
  }

  lemma {:induction false} SkipWhitespaceIsTrimStart(s: string)
    ensures SkipSeps(s, Whitespace) == TrimStart(s)
    decreases |s|
  {
    if s != [] && IsWhitespace(s[0]) {
      SkipWhitespaceIsTrimStart(s[1..]);
    }
  }

  /** Trimming changes no token. */
  lemma TokensTrim(s: string)
    ensures Tokens(Trim(s), Whitespace) == Tokens(s, Whitespace)
  {
    SkipWhitespaceIsTrimStart(s);
    TokensSkipSeps(s, Whitespace);
    TokensTrimEnd(TrimStart(s));
  }

  /** On a string that starts and ends with a non-separator, splitting on
      separator runs yields exactly the tokens. */
  lemma {:induction false} SplitRunsIsTokens(t: string, k: Separator)
    requires t != [] && !IsSep(t[0], k) && !IsSep(t[|t| - 1], k)
    ensures SplitRuns(t, k) == Tokens(t, k)
    decreases |t|
  {
    var n := RunLength(t, k);
    if n < |t| {
      var r := t[n..];
      var u := SkipSeps(r, k);
      TokensSkipSeps(r, k);
      assert u != [];
      assert u[|u| - 1] == t[|t| - 1];
      SplitRunsIsTokens(u, k);
      assert Tokens(t, k) == [t[..n]] + Tokens(r, k);
    } else {
      assert t[..n] == t && t[n..] == [];
    }
  }

  /** No non-blank string has more than (|s| + 1) / 2 tokens: each token takes a
      character and consecutive tokens are separated by at least one more. */
  lemma {:induction false} TokensBound(s: string, k: Separator)
    ensures 2 * |Tokens(s, k)| <= |s| + 1
    decreases |s|
  {
    if s == [] {
    } else if IsSep(s[0], k) {
      TokensBound(s[1..], k);
    } else {
      var n := RunLength(s, k);
      var rest := s[n..];
      if rest != [] {
        assert IsSep(rest[0], k);
        TokensBound(rest[1..], k);
        assert rest[1..] == s[n + 1..];
        assert Tokens(rest, k) == Tokens(rest[1..], k);
      }
    }
  }

  // ---------------------------------------------------------------------------
  // Word, character and reading-time counts

  /** `content.trim() ? content.trim().split(/\s+/).length : 0`: the number of
      whitespace-separated tokens, so 0 exactly for blank text. */
  function WordCount(s: string): (w: nat)
    ensures w == |Tokens(s, Whitespace)|
    ensures w == 0 <==> IsBlank(s)
  {
    var t := Trim(s);
    TokensTrim(s);
    if t == [] then 0
    else
      SplitRunsIsTokens(t, Whitespace);
      assert |Tokens(t, Whitespace)| >= 1 by {
        assert !IsSep(t[0], Whitespace);
      }
      |SplitRuns(t, Whitespace)|
  }

  /** `Math.max(1, Math.ceil(words / 200))`: the least whole number of minutes
      that covers the words at 200 words a minute, and never less than one. */
  function ReadingTime(words: nat): (minutes: nat)
    ensures minutes >= 1
    ensures words <= 200 * minutes
    ensures minutes == 1 || 200 * (minutes - 1) < words
  {
    var c := (words + 199) / 200;
    if c < 1 then 1 else c
  }

  // ---------------------------------------------------------------------------
  // Detailed statistics

  /** `content.split("\n")`: the lines of the text. */
  function SplitLines(s: string): (lines: seq<string>)
    ensures |lines| >= 1
    decreases |s|
  {
    var n := RunLength(s, Newline);
    if n == |s| then [s] else [s[..n]] + SplitLines(s[n + 1..])
  }

  /** `lines.join("\n")`. */
  function JoinLines(lines: seq<string>): string
    requires |lines| >= 1
  {
    if |lines| == 1 then lines[0] else lines[0] + "\n" + JoinLines(lines[1..])
  }

  /** Splitting at "\n" loses nothing: joining the lines back gives the text. */
  lemma {:induction false} SplitLinesJoin(s: string)
    ensures JoinLines(SplitLines(s)) == s
    decreases |s|
  {
    var n := RunLength(s, Newline);
    if n < |s| {
      SplitLinesJoin(s[n + 1..]);
      assert s == s[..n] + "\n" + s[n + 1..];
    }
  }

  lemma NoNewline(p: string)
    requires SepFree(p, Newline)
    ensures multiset(p)['\n'] == 0
  {
    assert forall i :: 0 <= i < |p| ==> p[i] != '\n' by {
      forall i | 0 <= i < |p| ensures p[i] != '\n' {
        assert !IsSep(p[i], Newline);
      }
    }
    assert '\n' !in p;
  }

  /** There is one line more than there are "\n" characters. */
  lemma {:induction false} SplitLinesCount(s: string)
    ensures |SplitLines(s)| == multiset(s)['\n'] + 1
    decreases |s|
  {
    var n := RunLength(s, Newline);
    NoNewline(s[..n]);
    if n == |s| {
      assert s[..n] == s;
    } else {
      SplitLinesCount(s[n + 1..]);
      NewlineCountSplit(s, n);
    }
  }

  /** Cutting `s` at a "\n" at offset `n` leaves one "\n" fewer on the two sides. */
  lemma NewlineCountSplit(s: string, n: nat)
    requires n < |s| && s[n] == '\n'
    ensures multiset(s)['\n'] == multiset(s[..n])['\n'] + 1 + multiset(s[n + 1..])['\n']
  {
    assert s == s[..n] + ['\n'] + s[n + 1..];
  }

  /** The positions of the pieces that hold more than whitespace. */
  ghost function NonBlankIndices(pieces: seq<string>): set<int> {
    set i | 0 <= i < |pieces| && !IsBlank(pieces[i])
  }

  lemma NonBlankIndicesCons(pieces: seq<string>)
    requires pieces != []
    ensures |NonBlankIndices(pieces)| == (if IsBlank(pieces[0]) then 0 else 1) + |NonBlankIndices(pieces[1..])|
  {
    var rest := pieces[1..];
    assert forall i :: 1 <= i < |pieces| ==> rest[i - 1] == pieces[i];
    ShiftUnion(NonBlankIndices(pieces), NonBlankIndices(rest), !IsBlank(pieces[0]), 1);
  }

  /** `pieces.filter((p) => p.trim().length > 0).length`: the number of pieces
      that are not blank. */
  function CountNonBlank(pieces: seq<string>): (c: nat)
    ensures c == |NonBlankIndices(pieces)|
    ensures c <= |pieces|
  {
    if pieces == [] then
      assert NonBlankIndices(pieces) == {};
      0
    else
      NonBlankIndicesCons(pieces);
      (if Trim(pieces[0]) != [] then 1 else 0) + CountNonBlank(pieces[1..])
  }

  /** `paragraphs.filter(...).length || 1`: the number of non-blank lines, or 1
      when every line is blank. */
  function Paragraphs(s: string): (p: nat)
    ensures var c := |NonBlankIndices(SplitLines(s))|; p == if c == 0 then 1 else c
    ensures 1 <= p <= |SplitLines(s)|
  {
    var c := CountNonBlank(SplitLines(s));
    if c == 0 then 1 else c
  }

  /** The number of non-blank pieces between runs of ".", "!" and "?", or 1
      when every piece is blank. */
  function Sentences(s: string): (n: nat)
    ensures var c := |NonBlankIndices(SplitRuns(s, SentenceEnd))|; n == if c == 0 then 1 else c
    ensures 1 <= n <= |SplitRuns(s, SentenceEnd)|
  {
    var c := CountNonBlank(SplitRuns(s, SentenceEnd));
    if c == 0 then 1 else c
  }

  lemma BlankSlice(s: string, i: nat, j: nat)
    requires IsBlank(s) && i <= j <= |s|
    ensures IsBlank(s[i..j])
  {
  }

  lemma {:induction false} BlankLines(s: string)
    requires IsBlank(s)
    ensures CountNonBlank(SplitLines(s)) == 0
    decreases |s|
  {
    var n := RunLength(s, Newline);
    BlankSlice(s, 0, n);
    assert Trim(s[..n]) == [];
    if n < |s| {
      BlankSlice(s, n + 1, |s|);
      BlankLines(s[n + 1..]);
      var lines := SplitLines(s);
      assert lines == [s[..n]] + SplitLines(s[n + 1..]);
      assert lines[1..] == SplitLines(s[n + 1..]);
    }
  }

  lemma {:induction false} BlankSentences(s: string)
    requires IsBlank(s)
    ensures CountNonBlank(SplitRuns(s, SentenceEnd)) == 0
    decreases |s|
  {
    var n := RunLength(s, SentenceEnd);
    BlankSlice(s, 0, n);
    if n < |s| {
      var u := SkipSeps(s[n..], SentenceEnd);
      BlankSlice(s, |s| - |u|, |s|);
      BlankSentences(u);
    }
  }

  /** Paragraphs never exceed the lines, and blank text counts as one paragraph
      and one sentence: the `|| 1` fallbacks. */
  lemma ParagraphAndSentenceBounds(s: string)
    ensures 1 <= Paragraphs(s) <= multiset(s)['\n'] + 1
    ensures IsBlank(s) ==> Paragraphs(s) == 1 && Sentences(s) == 1
  {
    SplitLinesCount(s);
    if IsBlank(s) {
      BlankLines(s);
      BlankSentences(s);
    }
  }

  /** `Math.round(n / d * 10)`: the ratio n/d in tenths, to the nearest tenth,
      halves rounding up: r/10 - 1/20 <= n/d < r/10 + 1/20. */
  function RoundTenths(n: int, d: int): (r: int)
    requires d > 0
    ensures 2 * d * r - d <= 20 * n < 2 * d * r + d
  {
    (20 * n + d) / (2 * d)
  }

  lemma RoundTenthsAtLeastTen(n: int, d: int)
    requires d > 0 && n >= d
    ensures RoundTenths(n, d) >= 10
  {
  }

  /** `words > 0 ? Math.round(((chars - words + 1) / words) * 10) / 10 : 0`, in
      tenths: 0 without words, else (chars - words + 1) / words to the nearest
      tenth, which is at least 1.0 when every word has a character and a
      separator follows all but the last. */
  function AvgWordLength(chars: nat, words: nat): (a: int)
    ensures words == 0 ==> a == 0
    ensures words > 0 ==> 2 * words * a - words <= 20 * (chars - words + 1) < 2 * words * a + words
    ensures words > 0 && 2 * words <= chars + 1 ==> a >= 10
  {
    if words > 0 then
      if 2 * words <= chars + 1 then
        RoundTenthsAtLeastTen(chars - words + 1, words);
        RoundTenths(chars - words + 1, words)
      else RoundTenths(chars - words + 1, words)
    else 0
  }

  /** `sentences > 0 ? Math.round((words / sentences) * 10) / 10 : 0`, in
      tenths: 0 without sentences, else words / sentences to the nearest tenth. */
  function AvgSentenceLength(words: nat, sentences: nat): (a: int)
    ensures sentences == 0 ==> a == 0
    ensures sentences > 0 ==> 2 * sentences * a - sentences <= 20 * words < 2 * sentences * a + sentences
  {
    if sentences > 0 then RoundTenths(words, sentences) else 0
  }

  /** For text with words, the average word length is at least 1.0: the text
      holds at least one code unit per word plus a separator between words. */
  lemma AvgWordLengthAtLeastOne(s: string)
    requires WordCount(s) > 0
    ensures AvgWordLength(CodeUnits(s), WordCount(s)) >= 10
  {
    TokensBound(s, Whitespace);
  }

  // ---------------------------------------------------------------------------
  // Snapshots

  datatype Counts = Counts(words: nat, chars: nat, readingTime: nat)

  datatype Detail = Detail(paragraphs: nat, sentences: nat, avgWordLength: int, avgSentenceLength: int)

  /** The always-computed counts of the metrics callback (editor.tsx, the first
      statements of the timer callback). */
  function CountsOf(text: string): (c: Counts)
    ensures c.words == |Tokens(text, Whitespace)|
    ensures c.chars == CodeUnits(text)
    ensures c.readingTime == ReadingTime(c.words)
    ensures c.words == 0 <==> IsBlank(text)
  {
    var w := WordCount(text);
    Counts(w, CodeUnits(text), ReadingTime(w))
  }

  /** The detailed figures computed only while the statistics panel is expanded.
      Both counts are at least 1, so the average sentence length always takes its
      rounding branch; the average word length is 0 exactly for text without
      words and at least 1.0 otherwise. */
  function DetailOf(text: string): (d: Detail)
    ensures d.paragraphs == Paragraphs(text) && d.sentences == Sentences(text)
    ensures d.paragraphs >= 1 && d.sentences >= 1
    ensures d.avgWordLength == AvgWordLength(CodeUnits(text), |Tokens(text, Whitespace)|)
    ensures d.avgSentenceLength == RoundTenths(|Tokens(text, Whitespace)|, d.sentences)
    ensures WordCount(text) > 0 ==> d.avgWordLength >= 10
    ensures WordCount(text) == 0 ==> d.avgWordLength == 0
  {
    var w := WordCount(text);
    var p := Paragraphs(text);
    var n := Sentences(text);
    if w > 0 then
      AvgWordLengthAtLeastOne(text);
      Detail(p, n, AvgWordLength(CodeUnits(text), w), AvgSentenceLength(w, n))
    else
      Detail(p, n, AvgWordLength(CodeUnits(text), w), AvgSentenceLength(w, n))
  }

  /** Word and character counts of a selection. */
  datatype SelectionCounts = SelectionCounts(words: nat, chars: nat)

  /** The selection timer callback: counts for a non-collapsed selection with
      non-empty text, and nothing otherwise. */
  function SelectionStats(collapsed: bool, selected: string): (r: Option<SelectionCounts>)
    ensures r.Some? <==> !collapsed && selected != []
    ensures r.Some? ==> r.value.words == |Tokens(selected, Whitespace)| && r.value.chars == CodeUnits(selected)
  {
    if !collapsed && selected != [] then
      Some(SelectionCounts(WordCount(selected), CodeUnits(selected)))
    else None
  }
}
