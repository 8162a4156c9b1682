/**
 * Find and replace of editor.tsx (`findNext`, `replaceSelection`, `replaceAll`)
 * over the editor's flat text and a selection given as two offsets into it.
 * Matching ignores case through the character fold of module Text.
 */
module FindReplace {
  import opened Text
  import opened Options

  /** The query occurs at offset `i` of `t`, ignoring case. */
  predicate MatchAt(t: string, q: string, i: int) {
    OccursAt(Lower(t), Lower(q), i)
  }

  /** `t.substring(pos)`: the tail from `pos`, or "" past the end. */
  function Tail(t: string, pos: nat): string {
    if pos <= |t| then t[pos..] else []
  }

  lemma OccursInTail(s: string, q: string, a: nat, k: int)
    requires a <= |s|
    ensures OccursAt(s[a..], q, k) <==> k >= 0 && OccursAt(s, q, a + k)
  {
    if 0 <= k && a + k + |q| <= |s| {
      assert s[a..][k..k + |q|] == s[a + k..a + k + |q|];
    }
  }

  /** A match in the tail from `from` is a match of the whole text, shifted. */
  lemma TailMatches(t: string, q: string, from: nat)
    requires q != []
    ensures forall j :: from <= j ==> (MatchAt(t, q, j) <==> OccursAt(Lower(Tail(t, from)), Lower(q), j - from))
    ensures forall j :: OccursAt(Lower(Tail(t, from)), Lower(q), j) ==> 0 <= j && MatchAt(t, q, from + j)
  {
    if from <= |t| {
      LowerSlice(t, from, |t|);
      forall j ensures OccursAt(Lower(t)[from..], Lower(q), j) <==> 0 <= j && OccursAt(Lower(t), Lower(q), from + j) {
        OccursInTail(Lower(t), Lower(q), from, j);
      }
      forall j | from <= j ensures MatchAt(t, q, j) <==> OccursAt(Lower(t)[from..], Lower(q), j - from) {
        OccursInTail(Lower(t), Lower(q), from, j - from);
      }
    }
  }

  /** Where `findNext` puts the selection: the leftmost match in
      `innerText.substring(from)` (`from` is the selection's start offset), or else
      the leftmost match in the whole text, or else nowhere. */
  function NextMatch(t: string, q: string, from: nat): (r: Option<nat>)
    requires q != []
    ensures r.Some? ==> MatchAt(t, q, r.value)
    ensures r.Some? && r.value >= from ==> forall j :: from <= j < r.value ==> !MatchAt(t, q, j)
    ensures r.Some? && r.value < from ==> forall j :: (from <= j || 0 <= j < r.value) ==> !MatchAt(t, q, j)
    ensures (exists j :: from <= j && MatchAt(t, q, j)) ==> r.Some? && r.value >= from
    ensures r.None? <==> forall j :: !MatchAt(t, q, j)
  {
    var k := IndexOf(Lower(Tail(t, from)), Lower(q));
    TailMatches(t, q, from);
    if k >= 0 then
      Some(from + k)
    else
      var f := IndexOf(Lower(t), Lower(q));
      if f >= 0 then
        assert MatchAt(t, q, f);
        Some(f)
      else None
  }

  /** `findNext` never moves off a selection that already covers a match:
      it searches from the selection's start and finds that same match again. */
  lemma FindNextStaysOnMatch(t: string, q: string, i: nat)
    requires q != [] && MatchAt(t, q, i)
    ensures NextMatch(t, q, i) == Some(i)
  {
  }

  /** The evidently intended "find next" searches from the selection's END
      (`Finder.FindNextAfterSelection`): from a selection on the match at `i`, it
      moves to another match whenever there is one that does not overlap it. */
  lemma FindNextAfterSelectionAdvances(t: string, q: string, i: nat, j: nat)
    requires q != [] && MatchAt(t, q, i) && MatchAt(t, q, j)
    requires j >= i + |q| || j + |q| <= i
    ensures NextMatch(t, q, i + |q|).Some?
    ensures NextMatch(t, q, i + |q|).value != i
  {
  }

  /** "abc abc" holds the query "abc" at 0 and 4 only. */
  lemma ExampleMatches()
    ensures MatchAt("abc abc", "abc", 0) && MatchAt("abc abc", "abc", 4)
    ensures forall j :: j != 0 && j != 4 ==> !MatchAt("abc abc", "abc", j)
  {
    var t, q := "abc abc", "abc";
    assert Lower(t) == t && Lower(q) == q;
    forall j | j != 0 && j != 4 ensures !MatchAt(t, q, j) {
      if 0 <= j && j + 3 <= 7 {
        assert Lower(t)[j..j + 3] != q by {
          assert j == 1 || j == 2 || j == 3;
          assert t[1] != q[0] && t[2] != q[0] && t[3] != q[0];
        }
      }
    }
  }

  /** The two-match example "abc abc": as written, Find Next from a selection on
      the first match keeps selecting it; searching from the selection's end
      alternates between the two matches. */
  lemma FindNextExample()
    ensures NextMatch("abc abc", "abc", 0) == Some(0)
    ensures NextMatch("abc abc", "abc", 3) == Some(4)
    ensures NextMatch("abc abc", "abc", 7) == Some(0)
  {
    ExampleMatches();
    FindNextStaysOnMatch("abc abc", "abc", 0);
    var r := NextMatch("abc abc", "abc", 3);
    assert r.Some? && r.value >= 3;
    var s := NextMatch("abc abc", "abc", 7);
    assert s.Some? && s.value < 7;
  }

  // ---------------------------------------------------------------------------
  // Replace all

  /** The characters `findText.replace(/[.*+?^${}()|[\]\\]/g, "\\$&")` escapes. */
  predicate IsMeta(c: char) {
    c in ".*+?^${}()|[]\\"
  }

  /** The query with every metacharacter preceded by a backslash. */
  function Escape(q: string): (p: string)
    ensures |p| >= |q|
  {
    if q == [] then [] else (if IsMeta(q[0]) then ['\\', q[0]] else [q[0]]) + Escape(q[1..])
  }

  /** The string a regular expression source matches when it is made only of
      literal atoms (a plain character, or a backslash before a metacharacter);
      None when it holds any other syntax. */
  function LiteralOf(p: string): Option<string> {
    if p == [] then Some([])
    else if p[0] == '\\' then
      if |p| >= 2 && IsMeta(p[1]) then
        match LiteralOf(p[2..])
        case None => None
        case Some(rest) => Some([p[1]] + rest)
      else None
    else if IsMeta(p[0]) then None
    else
      match LiteralOf(p[1..])
      case None => None
      case Some(rest) => Some([p[0]] + rest)
  }

  /** Escaping makes the query literal: the pattern built from it matches
      exactly the query's own characters. */
  lemma {:induction false} EscapeIsLiteral(q: string)
    ensures LiteralOf(Escape(q)) == Some(q)
  {
    if q != [] {
      EscapeIsLiteral(q[1..]);
      var p := Escape(q);
      if IsMeta(q[0]) {
        assert p == ['\\', q[0]] + Escape(q[1..]);
        assert p[0] == '\\' && |p| >= 2 && p[1] == q[0];
        assert p[2..] == Escape(q[1..]);
        assert LiteralOf(p) == Some([q[0]] + q[1..]);
        assert q == [q[0]] + q[1..];
      } else {
        assert IsMeta('\\');
        assert p[0] == q[0] && p[0] != '\\';
        assert p[1..] == Escape(q[1..]);
        assert q == [q[0]] + q[1..];
      }
    }
  }

  /** The replacement text JavaScript inserts for one match of a pattern without
      capture groups: `$$` is "$", `$&` the match, `` $` `` the text before it,
      `$'` the text after it; any other character stands for itself, so a
      replacement without "$" is inserted verbatim. */
  function Substitute(r: string, t: string, pos: nat, m: nat): (s: string)
    requires pos + m <= |t|
    ensures '$' !in r ==> s == r
  {
    if r == [] then []
    else if r[0] == '$' && |r| >= 2 && r[1] == '$' then "$" + Substitute(r[2..], t, pos, m)
    else if r[0] == '$' && |r| >= 2 && r[1] == '&' then t[pos..pos + m] + Substitute(r[2..], t, pos, m)
    else if r[0] == '$' && |r| >= 2 && r[1] == '`' then t[..pos] + Substitute(r[2..], t, pos, m)
    else if r[0] == '$' && |r| >= 2 && r[1] == '\'' then t[pos + m..] + Substitute(r[2..], t, pos, m)
    else
      assert '$' !in r ==> '$' !in r[1..];
      [r[0]] + Substitute(r[1..], t, pos, m)
  }

  /** The number of matches the scan from offset `i` replaces. */
  function MatchCount(t: string, q: string, i: nat): (c: nat)
    requires q != [] && i <= |t|
    decreases |t| - i
  {
    if i + |q| > |t| then 0
    else if MatchAt(t, q, i) then 1 + MatchCount(t, q, i + |q|)
    else MatchCount(t, q, i + 1)
  }

  lemma Distribute(k: int, d: int)
    ensures (1 + k) * d == d + k * d
  {
  }

  /** `t.replace(new RegExp(Escape(q), "gi"), r)` from offset `i` on: scan left to
      right, replace a match and resume after it, else keep one character. With
      `patterns` the replacement goes through `Substitute`, otherwise it is
      verbatim. */
  function ReplaceFrom(t: string, q: string, r: string, i: nat, patterns: bool): (s: string)
    requires q != [] && i <= |t|
    decreases |t| - i
  {
    if i + |q| > |t| then t[i..]
    else if MatchAt(t, q, i) then
      (if patterns then Substitute(r, t, i, |q|) else r) + ReplaceFrom(t, q, r, i + |q|, patterns)
    else
      assert t[i..] == [t[i]] + t[i + 1..];
      [t[i]] + ReplaceFrom(t, q, r, i + 1, patterns)
  }

  lemma {:induction false} ReplaceFromVerbatim(t: string, q: string, r: string, i: nat)
    requires q != [] && i <= |t| && '$' !in r
    ensures ReplaceFrom(t, q, r, i, true) == ReplaceFrom(t, q, r, i, false)
    decreases |t| - i
  {
    if i + |q| <= |t| {
      if MatchAt(t, q, i) {
        ReplaceFromVerbatim(t, q, r, i + |q|);
      } else {
        ReplaceFromVerbatim(t, q, r, i + 1);
      }
    }
  }

  /** Without a match from `i` on, the rest of the text is kept as it is. */
  lemma {:induction false} ReplaceFromNoMatch(t: string, q: string, r: string, i: nat, patterns: bool)
    requires q != [] && i <= |t|
    ensures (forall j :: i <= j ==> !MatchAt(t, q, j)) ==>
      ReplaceFrom(t, q, r, i, patterns) == t[i..] && MatchCount(t, q, i) == 0
    decreases |t| - i
  {
    if i + |q| <= |t| {
      ReplaceFromNoMatch(t, q, r, i + 1, patterns);
      assert t[i..] == [t[i]] + t[i + 1..];
    }
  }

  /** The scan keeps the text up to the first match at or after `i`, and that
      match is one of those counted. */
  lemma {:induction false} ReplaceFromKeepsPrefix(t: string, q: string, r: string, i: nat, j: nat, patterns: bool)
    requires q != [] && i <= j && j + |q| <= |t| && MatchAt(t, q, j)
    requires forall m :: i <= m < j ==> !MatchAt(t, q, m)
    ensures ReplaceFrom(t, q, r, i, patterns) == t[i..j] + ReplaceFrom(t, q, r, j, patterns)
    ensures MatchCount(t, q, i) == MatchCount(t, q, j)
    decreases j - i
  {
    if i < j {
      var rest := ReplaceFrom(t, q, r, j, patterns);
      ReplaceFromKeepsPrefix(t, q, r, i + 1, j, patterns);
      ConsSlice(t, i, j, rest);
    }
  }

  /** Putting `t[i]` back in front of `t[i + 1..j]`. */
  lemma ConsSlice(t: string, i: nat, j: nat, rest: string)
    requires i < j <= |t|
    ensures [t[i]] + (t[i + 1..j] + rest) == t[i..j] + rest
  {
    assert t[i..j] == [t[i]] + t[i + 1..j];
  }

  /** The scan keeps the text up to the first match at or after `i`, replaces
      that match, and resumes right after it; that match is one of those
      counted. */
  lemma ReplaceFromAtFirstMatch(t: string, q: string, r: string, i: nat, j: nat, patterns: bool)
    requires q != [] && i <= j && j + |q| <= |t| && MatchAt(t, q, j)
    requires forall m :: i <= m < j ==> !MatchAt(t, q, m)
    ensures ReplaceFrom(t, q, r, i, patterns)
      == t[i..j] + (if patterns then Substitute(r, t, j, |q|) else r) + ReplaceFrom(t, q, r, j + |q|, patterns)
    ensures MatchCount(t, q, i) == 1 + MatchCount(t, q, j + |q|)
  {
    ReplaceFromKeepsPrefix(t, q, r, i, j, patterns);
    var x := if patterns then Substitute(r, t, j, |q|) else r;
    var rest := ReplaceFrom(t, q, r, j + |q|, patterns);
    assert ReplaceFrom(t, q, r, j, patterns) == x + rest;
    assert t[i..j] + (x + rest) == t[i..j] + x + rest;
  }

  /** Each verbatim replacement trades |q| characters for |r|. */
  lemma {:induction false} ReplaceFromLength(t: string, q: string, r: string, i: nat)
    requires q != [] && i <= |t|
    ensures |ReplaceFrom(t, q, r, i, false)| == |t| - i + MatchCount(t, q, i) * (|r| - |q|)
    decreases |t| - i
  {
    if i + |q| <= |t| {
      if MatchAt(t, q, i) {
        ReplaceFromLength(t, q, r, i + |q|);
        Distribute(MatchCount(t, q, i + |q|), |r| - |q|);
      } else {
        ReplaceFromLength(t, q, r, i + 1);
      }
    }
  }

  /** The evidently intended `replaceAll`: every match replaced by `r` verbatim,
      so the result has |t| + k(|r| - |q|) characters for the k matches, and a
      text without the query comes back unchanged. */
  function ReplaceAllLiteral(t: string, q: string, r: string): (s: string)
    requires q != []
    ensures |s| == |t| + MatchCount(t, q, 0) * (|r| - |q|)
    ensures (forall j :: !MatchAt(t, q, j)) ==> s == t
  {
    ReplaceFromLength(t, q, r, 0);
    ReplaceFromNoMatch(t, q, r, 0, false);
    ReplaceFrom(t, q, r, 0, false)
  }

  /** `replaceAll` as written: the replacement string's `$` patterns are
      expanded. Without "$" in the replacement it does what is evidently
      intended, and a text without the query comes back unchanged. */
  function ReplaceAllAsWritten(t: string, q: string, r: string): (s: string)
    requires q != []
    ensures '$' !in r ==> s == ReplaceAllLiteral(t, q, r)
    ensures (forall j :: !MatchAt(t, q, j)) ==> s == t
  {
    ReplaceFromNoMatch(t, q, r, 0, true);
    if '$' !in r then
      ReplaceFromVerbatim(t, q, r, 0);
      ReplaceFrom(t, q, r, 0, true)
    else ReplaceFrom(t, q, r, 0, true)
  }

  /** With "$&" in the replacement the code inserts the match instead:
      replacing "cat" by "$&s" in "cat" gives "cats", not "$&s". */
  /** Replace All, by its first match `j`: the text before `j` is kept, the
      match is replaced (verbatim in the corrected version, through `$`
      patterns as written), and the rest is replaced from right after it. */
  lemma ReplaceAllAtFirstMatch(t: string, q: string, r: string, j: nat)
    requires q != [] && j + |q| <= |t| && MatchAt(t, q, j)
    requires forall m :: 0 <= m < j ==> !MatchAt(t, q, m)
    ensures ReplaceAllLiteral(t, q, r) == t[..j] + r + ReplaceFrom(t, q, r, j + |q|, false)
    ensures ReplaceAllAsWritten(t, q, r) == t[..j] + Substitute(r, t, j, |q|) + ReplaceFrom(t, q, r, j + |q|, true)
    ensures MatchCount(t, q, 0) == 1 + MatchCount(t, q, j + |q|)
  {
    ReplaceFromAtFirstMatch(t, q, r, 0, j, false);
    ReplaceFromAtFirstMatch(t, q, r, 0, j, true);
  }

  lemma DollarPatternsExpand()
    ensures ReplaceAllAsWritten("cat", "cat", "$&s") == "cats"
    ensures ReplaceAllLiteral("cat", "cat", "$&s") == "$&s"
  {
    var t := "cat";
    assert Lower(t) == t;
    assert MatchAt(t, t, 0);
    assert Substitute("$&s", t, 0, 3) == "cats" by {
      assert Substitute("s", t, 0, 3) == "s";
    }
  }

  // ---------------------------------------------------------------------------
  // The find/replace state

  /** The editor's text and its selection, as offsets into that text. */
  class Finder {
    var text: string
    var selStart: nat
    var selEnd: nat

    ghost predicate Valid()
      reads this
    {
      selStart <= selEnd <= |text|
    }

    constructor (text: string, selStart: nat, selEnd: nat)
      requires selStart <= selEnd <= |text|
      ensures Valid() && this.text == text && this.selStart == selStart && this.selEnd == selEnd
    {
      this.text := text;
      this.selStart := selStart;
      this.selEnd := selEnd;
    }

    /** `selection.toString()`. */
    function Selected(): string
      reads this
      requires Valid()
    {
      text[selStart..selEnd]
    }

    /** `findNext`: an empty query does nothing; otherwise the selection moves to
        `NextMatch` from the selection's start, spanning exactly the query's length,
        and stays put when the text holds no match. */
    method FindNext(q: string)
      requires Valid()
      modifies this
      ensures Valid() && text == old(text)
      ensures q == [] ==> selStart == old(selStart) && selEnd == old(selEnd)
      ensures q != [] ==>
        match NextMatch(old(text), q, old(selStart))
        case Some(i) => selStart == i && selEnd == i + |q|
        case None => selStart == old(selStart) && selEnd == old(selEnd)
    {
      if q == [] {
        return;
      }
      var m := NextMatch(text, q, selStart);
      if m.Some? {
        assert MatchAt(text, q, m.value);
        selStart, selEnd := m.value, m.value + |q|;
      }
    }

    /** Find Next as evidently intended: the search starts at the selection's
        end, so a selection on a match moves on to the next one. */
    method FindNextAfterSelection(q: string)
      requires Valid()
      modifies this`selStart, this`selEnd
      ensures Valid()
      ensures q == [] ==> selStart == old(selStart) && selEnd == old(selEnd)
      ensures q != [] ==>
        match NextMatch(text, q, old(selEnd))
        case Some(i) => selStart == i && selEnd == i + |q|
        case None => selStart == old(selStart) && selEnd == old(selEnd)
    {
      if q == [] {
        return;
      }
      var m := NextMatch(text, q, selEnd);
      if m.Some? {
        assert MatchAt(text, q, m.value);
        selStart, selEnd := m.value, m.value + |q|;
      }
    }

    /** `replaceSelection`: nothing without both a query and a replacement; a
        selection equal to the query up to case is replaced by `r` verbatim, the caret
        left after it; either way `findNext` follows. */
    method ReplaceSelection(q: string, r: string)
      requires Valid()
      modifies this
      ensures Valid()
      ensures q == [] || r == [] ==> text == old(text) && selStart == old(selStart) && selEnd == old(selEnd)
      ensures q != [] && r != [] && Lower(old(Selected())) == Lower(q) ==>
        var s := old(selStart);
        && text == old(text[..selStart]) + r + old(text[selEnd..])
        && match NextMatch(text, q, s + |r|)
           case Some(i) => selStart == i && selEnd == i + |q|
           case None => selStart == s + |r| && selEnd == s + |r|
      ensures q != [] && r != [] && Lower(old(Selected())) != Lower(q) ==>
        && text == old(text)
        && match NextMatch(text, q, old(selStart))
           case Some(i) => selStart == i && selEnd == i + |q|
           case None => selStart == old(selStart) && selEnd == old(selEnd)
    {
      if q == [] || r == [] {
        return;
      }
      var selected := Selected();
      if selected != [] && Lower(selected) == Lower(q) {
        var s := selStart;
        text := text[..selStart] + r + text[selEnd..];
        selStart, selEnd := s + |r|, s + |r|;
        FindNext(q);
      } else {
        FindNext(q);
      }
    }

    /** `replaceAll`: nothing without both a query and a replacement; otherwise
        every match is replaced as JavaScript's `replace` does it, and the selection,
        whose nodes the new content replaced, falls back to the start. */
    method ReplaceAll(q: string, r: string) returns (ran: bool)
      requires Valid()
      modifies this
      ensures Valid()
      ensures ran <==> q != [] && r != []
      ensures !ran ==> text == old(text) && selStart == old(selStart) && selEnd == old(selEnd)
      ensures ran ==> text == ReplaceAllAsWritten(old(text), q, r) && selStart == 0 && selEnd == 0
    {
      ran := q != [] && r != [];
      if ran {
        text := ReplaceAllAsWritten(text, q, r);
        selStart, selEnd := 0, 0;
      }
    }
  }
}
