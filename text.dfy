/**
 * String primitives the editor relies on, stated as JavaScript defines them:
 * the whitespace set shared by `String.prototype.trim` and the `\s` regex class,
 * `trim`, `indexOf`, `includes`, `startsWith`, `length` in UTF-16 code units,
 * and a case fold standing in for `toLowerCase`.
 */
module Text {

  /** The characters JavaScript's `trim()` removes and `\s` matches
      (WhiteSpace and LineTerminator). */
  predicate IsWhitespace(c: char) {
    var n := c as int;
    (0x09 <= n <= 0x0D) || n == 0x20 || n == 0xA0 || n == 0x1680
    || (0x2000 <= n <= 0x200A) || n == 0x2028 || n == 0x2029
    || n == 0x202F || n == 0x205F || n == 0x3000 || n == 0xFEFF
  }

  /** A string made only of whitespace (the empty string included). */
  predicate IsBlank(s: string) {
    forall i :: 0 <= i < |s| ==> IsWhitespace(s[i])
  }

  /** Case fold of one character; the model folds the ASCII letters only,
      so folding never changes a string's length. */
  function Fold(c: char): (d: char)
    ensures 'A' <= c <= 'Z' ==> d as int == c as int + 32
    ensures !('A' <= c <= 'Z') ==> d == c
  {
    if 'A' <= c <= 'Z' then (c as int + 32) as char else c
  }

  /** `toLowerCase()`, character by character. */
  function Lower(s: string): (r: string)
    ensures |r| == |s|
    ensures forall i :: 0 <= i < |s| ==> r[i] == Fold(s[i])
  {
    seq(|s|, i requires 0 <= i < |s| => Fold(s[i]))
  }

  lemma LowerSlice(s: string, i: nat, j: nat)
    requires i <= j <= |s|
    ensures Lower(s[i..j]) == Lower(s)[i..j]
  {
  }

  lemma LowerIdempotent(s: string)
    ensures Lower(Lower(s)) == Lower(s)
  {
  }

  /** `trimStart()`: drops the leading whitespace. */
  function TrimStart(s: string): (r: string)
    ensures |r| <= |s| && r == s[|s| - |r|..]
    ensures IsBlank(s[..|s| - |r|])
    ensures r != [] ==> !IsWhitespace(r[0])
  {
    if s != [] && IsWhitespace(s[0]) then
      var r := TrimStart(s[1..]);
      BlankConcat([s[0]], s[1..][..|s| - 1 - |r|]);
      assert s[..|s| - |r|] == [s[0]] + s[1..][..|s| - 1 - |r|];
      r
    else s
  }

  /** `trimEnd()`: drops the trailing whitespace. */
  function TrimEnd(s: string): (r: string)
    ensures |r| <= |s| && r == s[..|r|]
    ensures IsBlank(s[|r|..])
    ensures r != [] ==> !IsWhitespace(r[|r| - 1])
  {
    if s != [] && IsWhitespace(s[|s| - 1]) then
      var r := TrimEnd(s[..|s| - 1]);
      BlankConcat(s[..|s| - 1][|r|..], [s[|s| - 1]]);
      assert s[|r|..] == s[..|s| - 1][|r|..] + [s[|s| - 1]];
      r
    else s
  }

  /** `trim()`: the text between a blank prefix and a blank suffix, starting
      and ending on non-whitespace; empty exactly when the string is blank. */
  function Trim(s: string): (r: string)
    ensures |r| <= |s|
    ensures Framed(s, |s| - |TrimStart(s)|, r)
    ensures r == [] <==> IsBlank(s)
    ensures r != [] ==> !IsWhitespace(r[0]) && !IsWhitespace(r[|r| - 1])
  {
    var t := TrimStart(s);
    var u := TrimEnd(t);
    TrimParts(s, t, u);
    u
  }

  /** `r` is the slice of `s` at offset `a`, with only whitespace before and
      after it. */
  predicate Framed(s: string, a: nat, r: string) {
    a + |r| <= |s| && r == s[a..a + |r|] && IsBlank(s[..a]) && IsBlank(s[a + |r|..])
  }

  /** Cutting a blank prefix off `s`, leaving `t`, and a blank suffix off `t`,
      leaving `u`, keeps a middle slice of `s` between two blank parts; the
      slice is empty exactly when `s` is blank, given that `t` does not start
      with whitespace. */
  lemma TrimParts(s: string, t: string, u: string)
    requires |t| <= |s| && t == s[|s| - |t|..] && IsBlank(s[..|s| - |t|])
    requires t != [] ==> !IsWhitespace(t[0])
    requires |u| <= |t| && u == t[..|u|] && IsBlank(t[|u|..])
    requires u != [] ==> !IsWhitespace(u[|u| - 1])
    ensures Framed(s, |s| - |t|, u)
    ensures u == [] <==> IsBlank(s)
    ensures u != [] ==> !IsWhitespace(u[0]) && !IsWhitespace(u[|u| - 1])
  {
    var a := |s| - |t|;
    assert u == s[a..a + |u|];
    assert t[|u|..] == s[a + |u|..];
    if u == [] {
      assert s == s[..a] + t;
      BlankConcat(s[..a], t);
    } else {
      assert s[a] == t[0] == u[0];
      assert !IsWhitespace(s[a]);
    }
  }

  /** Two blank strings make a blank string. */
  lemma BlankConcat(x: string, y: string)
    requires IsBlank(x) && IsBlank(y)
    ensures IsBlank(x + y)
  {
    forall i | 0 <= i < |x + y| ensures IsWhitespace((x + y)[i]) {
      if i >= |x| {
        assert (x + y)[i] == y[i - |x|];
      }
    }
  }

  /** JavaScript's `length`: the number of UTF-16 code units, one for a
      character of the Basic Multilingual Plane and two (a surrogate pair) for
      a character beyond U+FFFF. */
  function CodeUnits(s: string): (n: nat)
    ensures |s| <= n <= 2 * |s|
  {
    if s == [] then 0 else (if s[0] as int >= 0x1_0000 then 2 else 1) + CodeUnits(s[1..])
  }

  /** `length` counts the characters exactly when none lies beyond U+FFFF. */
  lemma {:induction false} CodeUnitsBmp(s: string)
    ensures CodeUnits(s) == |s| <==> forall i :: 0 <= i < |s| ==> s[i] as int < 0x1_0000
  {
    if s != [] {
      CodeUnitsBmp(s[1..]);
      assert forall i :: 1 <= i < |s| ==> s[i] == s[1..][i - 1];
      if CodeUnits(s) == |s| {
        assert s[0] as int < 0x1_0000;
      }
    }
  }

  /** An emoji is one character but two code units. */
  lemma EmojiIsTwoUnits()
    ensures |"\U{1F600}"| == 1 && CodeUnits("\U{1F600}") == 2
  {
  }

  /** `q` occurs in `s` at offset `i`. */
  predicate OccursAt(s: string, q: string, i: int) {
    0 <= i && i + |q| <= |s| && s[i..i + |q|] == q
  }

  /** An occurrence in `s[1..]` is an occurrence in `s`, one place further on. */
  lemma OccursShift(s: string, q: string, j: int)
    requires s != []
    ensures OccursAt(s[1..], q, j) <==> 0 <= j && OccursAt(s, q, j + 1)
  {
    if 0 <= j && j + 1 + |q| <= |s| {
      assert s[1..][j..j + |q|] == s[j + 1..j + 1 + |q|];
    }
  }

  /** `s.indexOf(q)`: the leftmost offset at which `q` occurs, or -1. */
  function IndexOf(s: string, q: string): (r: int)
    ensures -1 <= r
    ensures r >= 0 ==> OccursAt(s, q, r)
    ensures r >= 0 ==> forall j :: 0 <= j < r ==> !OccursAt(s, q, j)
    ensures r == -1 <==> forall j :: !OccursAt(s, q, j)
    decreases |s|
  {
    if |q| > |s| then -1
    else if OccursAt(s, q, 0) then 0
    else
      var k := IndexOf(s[1..], q);
      IndexOfStep(s, q, k);
      if k < 0 then -1 else k + 1
  }

  /** One step of the search: the answer for `s[1..]`, shifted by one, is the
      answer for `s` when `q` does not occur at 0. */
  lemma IndexOfStep(s: string, q: string, k: int)
    requires s != [] && !OccursAt(s, q, 0)
    requires k >= 0 ==> OccursAt(s[1..], q, k) && forall j :: 0 <= j < k ==> !OccursAt(s[1..], q, j)
    requires k < 0 ==> forall j :: !OccursAt(s[1..], q, j)
    ensures k >= 0 ==> OccursAt(s, q, k + 1) && forall j :: 0 <= j < k + 1 ==> !OccursAt(s, q, j)
    ensures k < 0 ==> forall j :: !OccursAt(s, q, j)
  {
    if k >= 0 {
      OccursShift(s, q, k);
      forall j | 0 <= j < k + 1 ensures !OccursAt(s, q, j) {
        if j >= 1 {
          OccursShift(s, q, j - 1);
        }
      }
    } else {
      forall j ensures !OccursAt(s, q, j) {
        if j >= 1 {
          OccursShift(s, q, j - 1);
        }
      }
    }
  }

  /** `s.includes(q)`: some occurrence exists; the empty string is in every string. */
  function Contains(s: string, q: string): (b: bool)
    ensures b <==> exists j :: OccursAt(s, q, j)
    ensures q == [] ==> b
  {
    assert q == [] ==> OccursAt(s, q, 0);
    IndexOf(s, q) >= 0
  }

  /** `s.startsWith(p)`: `p` occurs at offset 0, and `s` is `p` followed by the rest. */
  function StartsWith(s: string, p: string): (b: bool)
    ensures b <==> OccursAt(s, p, 0)
    ensures b ==> s == p + s[|p|..]
  {
    |p| <= |s| && s[..|p|] == p
  }
}
