/**
 * The font picker of components/font-selector.tsx: a constant table of five
 * fonts, the label shown for the editor's current font-family string, and the
 * check mark beside each entry.
 */
module Fonts {
  import opened Options
  import opened Text

  /** A menu entry: the label and the families of the CSS font-family value it
      applies, in order of preference. */
  datatype Font = Font(name: string, families: seq<string>)

  /** A CSS font-family value: the families, in order of preference, joined by ", ". */
  function Stack(families: seq<string>): (v: string)
    ensures |families| == 1 ==> v == families[0]
  {
    if families == [] then []
    else if |families| == 1 then families[0]
    else families[0] + ", " + Stack(families[1..])
  }

  const InterFamilies: seq<string> := ["Inter", "-apple-system", "BlinkMacSystemFont", "\"Segoe UI\"", "Roboto", "sans-serif"]
  const SerifFamilies: seq<string> := ["Georgia", "Cambria", "\"Times New Roman\"", "Times", "serif"]
  const MonoFamilies: seq<string> := ["Menlo", "Monaco", "Consolas", "\"Liberation Mono\"", "\"Courier New\"", "monospace"]
  const NunitoFamilies: seq<string> := ["Nunito", "-apple-system", "BlinkMacSystemFont", "\"Segoe UI\"", "Roboto", "sans-serif"]
  const MerriweatherFamilies: seq<string> := ["Merriweather", "Georgia", "Cambria", "\"Times New Roman\"", "Times", "serif"]

  /** `FONTS`, in menu order. */
  const Table: seq<Font> := [
    Font("Inter", InterFamilies),
    Font("Serif", SerifFamilies),
    Font("Mono", MonoFamilies),
    Font("Nunito", NunitoFamilies),
    Font("Merriweather", MerriweatherFamilies)
  ]

  /** `font.value`: the font-family string the entry applies, exactly the
      string of the table. */
  function Value(f: Font): string {
    Stack(f.families)
  }

  /** One more family in front of a stack. */
  lemma StackCons(fs: seq<string>, head: string, rest: string)
    requires |fs| >= 2 && Stack(fs[1..]) == rest && head == fs[0] + ", "
    ensures Stack(fs) == head + rest
  {
  }

  // The five values are the table's literal strings, written here split after
  // each ", ".

  /** The families Inter and Nunito share after their first. */
  lemma SansTail()
    ensures Stack(InterFamilies[1..]) == "-apple-system, " + ("BlinkMacSystemFont, " + ("\"Segoe UI\", " + ("Roboto, " + "sans-serif")))
    ensures NunitoFamilies[1..] == InterFamilies[1..]
  {
    var f := InterFamilies[1..];
    assert f[3..][1..] == f[4..] && f[2..][1..] == f[3..] && f[1..][1..] == f[2..];
    StackCons(f[3..], "Roboto, ", "sans-serif");
    StackCons(f[2..], "\"Segoe UI\", ", "Roboto, " + "sans-serif");
    StackCons(f[1..], "BlinkMacSystemFont, ", "\"Segoe UI\", " + ("Roboto, " + "sans-serif"));
    StackCons(f, "-apple-system, ", "BlinkMacSystemFont, " + ("\"Segoe UI\", " + ("Roboto, " + "sans-serif")));
  }

  lemma InterValue()
    ensures Value(Table[0]) == "Inter, " + ("-apple-system, " + ("BlinkMacSystemFont, " + ("\"Segoe UI\", " + ("Roboto, " + "sans-serif"))))
  {
    SansTail();
    StackCons(InterFamilies, "Inter, ", "-apple-system, " + ("BlinkMacSystemFont, " + ("\"Segoe UI\", " + ("Roboto, " + "sans-serif"))));
  }

  lemma SerifValue()
    ensures Value(Table[1]) == "Georgia, " + ("Cambria, " + ("\"Times New Roman\", " + ("Times, " + "serif")))
  {
    var f := SerifFamilies;
    assert f[3..][1..] == f[4..] && f[2..][1..] == f[3..] && f[1..][1..] == f[2..];
    StackCons(f[3..], "Times, ", "serif");
    StackCons(f[2..], "\"Times New Roman\", ", "Times, " + "serif");
    StackCons(f[1..], "Cambria, ", "\"Times New Roman\", " + ("Times, " + "serif"));
    StackCons(f, "Georgia, ", "Cambria, " + ("\"Times New Roman\", " + ("Times, " + "serif")));
  }

  lemma MonoValue()
    ensures Value(Table[2]) == "Menlo, " + ("Monaco, " + ("Consolas, " + ("\"Liberation Mono\", " + ("\"Courier New\", " + "monospace"))))
  {
    var f := MonoFamilies;
    assert f[4..][1..] == f[5..] && f[3..][1..] == f[4..] && f[2..][1..] == f[3..] && f[1..][1..] == f[2..];
    StackCons(f[4..], "\"Courier New\", ", "monospace");
    StackCons(f[3..], "\"Liberation Mono\", ", "\"Courier New\", " + "monospace");
    StackCons(f[2..], "Consolas, ", "\"Liberation Mono\", " + ("\"Courier New\", " + "monospace"));
    StackCons(f[1..], "Monaco, ", "Consolas, " + ("\"Liberation Mono\", " + ("\"Courier New\", " + "monospace")));
    StackCons(f, "Menlo, ", "Monaco, " + ("Consolas, " + ("\"Liberation Mono\", " + ("\"Courier New\", " + "monospace"))));
  }

  lemma NunitoValue()
    ensures Value(Table[3]) == "Nunito, " + ("-apple-system, " + ("BlinkMacSystemFont, " + ("\"Segoe UI\", " + ("Roboto, " + "sans-serif"))))
  {
    SansTail();
    StackCons(NunitoFamilies, "Nunito, ", "-apple-system, " + ("BlinkMacSystemFont, " + ("\"Segoe UI\", " + ("Roboto, " + "sans-serif"))));
  }

  lemma MerriweatherValue()
    ensures Value(Table[4]) == "Merriweather, " + ("Georgia, " + ("Cambria, " + ("\"Times New Roman\", " + ("Times, " + "serif"))))
  {
    SerifValue();
    assert MerriweatherFamilies[1..] == SerifFamilies;
    StackCons(MerriweatherFamilies, "Merriweather, ", "Georgia, " + ("Cambria, " + ("\"Times New Roman\", " + ("Times, " + "serif"))));
  }

  /** `FONTS.find((font) => current.includes(font.name))`, as an index. */
  function FindFont(fonts: seq<Font>, current: string): (r: Option<nat>)
    ensures r.Some? ==> r.value < |fonts| && Contains(current, fonts[r.value].name)
    ensures r.Some? ==> forall i :: 0 <= i < r.value ==> !Contains(current, fonts[i].name)
    ensures r.None? ==> forall i :: 0 <= i < |fonts| ==> !Contains(current, fonts[i].name)
  {
    if fonts == [] then None
    else if Contains(current, fonts[0].name) then Some(0)
    else
      var rest := fonts[1..];
      assert forall i :: 0 <= i < |rest| ==> rest[i] == fonts[i + 1];
      match FindFont(rest, current)
      case None => None
      case Some(i) => Some(i + 1)
  }

  /** The label on the picker: the name of the first entry whose name occurs in
      the current font-family string, or "Inter" when none does (or the name
      found is empty); so always one of the table's names. */
  function CurrentFontName(current: string): (name: string)
    ensures exists i :: 0 <= i < |Table| && Table[i].name == name
  {
    var found := FindFont(Table, current);
    if found.Some? && Table[found.value].name != [] then Table[found.value].name
    else
      assert Table[0].name == "Inter";
      "Inter"
  }

  /** The check mark: shown on every entry whose name occurs in the current
      font-family string, so on none, one or several. */
  function IsChecked(current: string, i: nat): (b: bool)
    requires i < |Table|
    ensures b <==> exists j :: OccursAt(current, Table[i].name, j)
  {
    Contains(current, Table[i].name)
  }

  /** `find` returns the first entry whose name the value contains. */
  lemma FindFontFirst(fonts: seq<Font>, current: string, i: nat)
    requires i < |fonts| && Contains(current, fonts[i].name)
    requires forall k :: 0 <= k < i ==> !Contains(current, fonts[k].name)
    ensures FindFont(fonts, current) == Some(i)
  {
  }

  /** The label is the first entry, in table order, whose name the current
      value contains, and "Inter" when it contains none. */
  lemma CurrentFontNameSpec(current: string, i: nat)
    requires i < |Table|
    ensures IsChecked(current, i) && (forall k :: 0 <= k < i ==> !IsChecked(current, k))
            ==> CurrentFontName(current) == Table[i].name
    ensures (forall k :: 0 <= k < |Table| ==> !IsChecked(current, k)) ==> CurrentFontName(current) == "Inter"
  {
    assert Table[i].name != [] by {
      assert Table[0].name == "Inter" && Table[1].name == "Serif" && Table[2].name == "Mono";
      assert Table[3].name == "Nunito" && Table[4].name == "Merriweather";
    }
    if IsChecked(current, i) && (forall k :: 0 <= k < i ==> !IsChecked(current, k)) {
      forall k | 0 <= k < i ensures !Contains(current, Table[k].name) {
        assert !IsChecked(current, k);
      }
      FindFontFirst(Table, current, i);
    }
    var found := FindFont(Table, current);
    assert found.Some? ==> IsChecked(current, found.value);
  }

  // ---------------------------------------------------------------------------
  // Occurrence facts about the table's values

  /** No occurrence of `q` anywhere in `s`. */
  ghost predicate Absent(s: string, q: string) {
    forall j :: !OccursAt(s, q, j)
  }

  /** A string with a character that `s` lacks does not occur in `s`. */
  lemma MissingChar(s: string, q: string, k: nat)
    requires k < |q| && q[k] !in s
    ensures Absent(s, q)
  {
    forall j ensures !OccursAt(s, q, j) {
      if 0 <= j && j + |q| <= |s| {
        assert s[j..j + |q|][k] == s[j + k];
      }
    }
  }

  /** No occurrence in `[c] + b` when it does not start with `q` and `b` lacks `q`. */
  lemma AbsentFromCons(c: char, b: string, q: string)
    requires !StartsWith([c] + b, q) && Absent(b, q)
    ensures Absent([c] + b, q)
  {
    var s := [c] + b;
    assert s[1..] == b;
    forall j ensures !OccursAt(s, q, j) {
      if j >= 1 {
        OccursShift(s, q, j - 1);
      }
    }
  }

  /** No occurrence in `a + b` when `a` lacks the first character and `b` lacks `q`. */
  lemma AbsentFromConcat(a: string, b: string, q: string)
    requires q != [] && q[0] !in a && Absent(b, q)
    ensures Absent(a + b, q)
  {
    forall j ensures !OccursAt(a + b, q, j) {
      if 0 <= j < |a| && j + |q| <= |a + b| {
        assert (a + b)[j..j + |q|][0] == a[j];
      } else if |a| <= j && j + |q| <= |a + b| {
        assert (a + b)[j..j + |q|] == b[j - |a|..j - |a| + |q|];
        assert !OccursAt(b, q, j - |a|);
      }
    }
  }

  /** No family of `families` holds `c`. */
  predicate Lacks(families: seq<string>, c: char) {
    families == [] || (c !in families[0] && Lacks(families[1..], c))
  }

  /** A character other than the separator's is in the value only if some
      family holds it. */
  lemma {:induction false} LacksStack(families: seq<string>, c: char)
    requires Lacks(families, c) && c != ',' && c != ' '
    ensures c !in Stack(families)
    decreases |families|
  {
    if |families| > 1 {
      LacksStack(families[1..], c);
      assert Stack(families) == families[0] + ", " + Stack(families[1..]);
    }
  }

  /** No family of `families` holds `q`. */
  ghost predicate AbsentEach(families: seq<string>, q: string) {
    families == [] || (Absent(families[0], q) && AbsentEach(families[1..], q))
  }

  /** A name without a comma or a space cannot span the ", " between two
      families: it occurs in the value only inside one family. */
  lemma {:induction false} AbsentFromStack(families: seq<string>, q: string)
    requires q != [] && ',' !in q && ' ' !in q
    requires AbsentEach(families, q)
    ensures Absent(Stack(families), q)
    decreases |families|
  {
    if |families| > 1 {
      var head, rest := families[0], Stack(families[1..]);
      AbsentFromStack(families[1..], q);
      assert Stack(families) == head + ", " + rest;
      forall j ensures !OccursAt(head + ", " + rest, q, j) {
        var s := head + ", " + rest;
        if 0 <= j && j + |q| <= |s| {
          if j + |q| <= |head| {
            assert s[j..j + |q|] == head[j..j + |q|];
            assert !OccursAt(head, q, j);
          } else if j <= |head| {
            assert s[j..j + |q|][|head| - j] == s[|head|] == ',';
          } else if j == |head| + 1 {
            assert s[j..j + |q|][0] == ' ';
          } else {
            assert s[j..j + |q|] == rest[j - |head| - 2..j - |head| - 2 + |q|];
            assert !OccursAt(rest, q, j - |head| - 2);
          }
        }
      }
    }
  }

  /** An occurrence in `a` or in `b` is one in `a + b`, shifted by `|a|` for `b`. */
  lemma OccursInConcat(a: string, b: string, q: string, j: int)
    ensures OccursAt(a, q, j) ==> OccursAt(a + b, q, j)
    ensures OccursAt(b, q, j) ==> OccursAt(a + b, q, |a| + j)
  {
    if OccursAt(a, q, j) {
      assert (a + b)[j..j + |q|] == a[j..j + |q|];
    }
    if OccursAt(b, q, j) {
      assert (a + b)[|a| + j..|a| + j + |q|] == b[j..j + |q|];
    }
  }

  /** A value holds each of its families, and starts with the preferred one. */
  lemma ValueHoldsFamilies(f: Font, i: nat)
    requires i < |f.families|
    ensures Contains(Value(f), f.families[i])
    ensures i == 0 ==> StartsWith(Value(f), f.families[0])
  {
    assert OccursAt(f.families[i], f.families[i], 0);
    PresentInStack(f.families, i, f.families[i], 0);
    if |f.families| > 1 {
      assert Stack(f.families) == f.families[0] + (", " + Stack(f.families[1..]));
    }
  }

  /** An occurrence inside one family is an occurrence in the value. */
  lemma {:induction false} PresentInStack(families: seq<string>, i: nat, q: string, j: nat)
    requires i < |families| && OccursAt(families[i], q, j)
    ensures exists k :: OccursAt(Stack(families), q, k)
    decreases i
  {
    if |families| == 1 {
      assert OccursAt(Stack(families), q, j);
    } else {
      var head, rest := families[0], Stack(families[1..]);
      assert Stack(families) == (head + ", ") + rest;
      if i == 0 {
        OccursInConcat(head, ", ", q, j);
        OccursInConcat(head + ", ", rest, q, j);
      } else {
        PresentInStack(families[1..], i - 1, q, j);
        var k :| OccursAt(rest, q, k);
        OccursInConcat(head + ", ", rest, q, k);
      }
    }
  }

  /** A name with a character that no family holds does not occur in the value. */
  lemma LacksName(families: seq<string>, q: string, k: nat, c: char)
    requires k < |q| && q[k] == c && c != ',' && c != ' ' && Lacks(families, c)
    ensures Absent(Stack(families), q)
  {
    LacksStack(families, c);
    MissingChar(Stack(families), q, k);
  }

  lemma SerifValueLacksInter()
    ensures Absent(Stack(SerifFamilies), "Inter")
  {
    LacksName(SerifFamilies, "Inter", 0, 'I');
  }

  lemma SerifValueLacksSerif()
    ensures Absent(Stack(SerifFamilies), "Serif")
  {
    LacksName(SerifFamilies, "Serif", 0, 'S');
  }

  lemma SerifValueLacksMono()
    ensures Absent(Stack(SerifFamilies), "Mono")
  {
    LacksName(SerifFamilies, "Mono", 0, 'M');
  }

  lemma SerifValueLacksNunito()
    ensures Absent(Stack(SerifFamilies), "Nunito")
  {
    LacksName(SerifFamilies, "Nunito", 1, 'u');
  }

  lemma SerifValueLacksMerriweather()
    ensures Absent(Stack(SerifFamilies), "Merriweather")
  {
    LacksName(SerifFamilies, "Merriweather", 0, 'M');
  }

  /** The Serif value holds "serif" but not "Serif", nor any other name:
      it has no "I", "S", "M" or "u". */
  lemma SerifValueLacksNames()
    ensures forall i :: 0 <= i < |Table| ==> Absent(Value(Table[1]), Table[i].name)
  {
    SerifValueLacksInter();
    SerifValueLacksSerif();
    SerifValueLacksMono();
    SerifValueLacksNunito();
    SerifValueLacksMerriweather();
  }

  /** A value that contains entry `i`'s name and no earlier one is labelled with it. */
  lemma ShowsEntry(current: string, i: nat)
    requires i < |Table| && exists k :: OccursAt(current, Table[i].name, k)
    requires forall k :: 0 <= k < i ==> Absent(current, Table[k].name)
    ensures CurrentFontName(current) == Table[i].name
  {
    FindFontFirst(Table, current, i);
  }

  lemma InterValueShowsInter()
    ensures CurrentFontName(Value(Table[0])) == "Inter"
  {
    PresentInStack(InterFamilies, 0, "Inter", 0);
    ShowsEntry(Value(Table[0]), 0);
  }

  lemma MonoValueLacksInter()
    ensures Absent(Stack(MonoFamilies), "Inter")
  {
    LacksName(MonoFamilies, "Inter", 0, 'I');
  }

  lemma MonoValueLacksSerif()
    ensures Absent(Stack(MonoFamilies), "Serif")
  {
    LacksName(MonoFamilies, "Serif", 0, 'S');
  }

  /** The Mono value has no "I" or "S"; "Mono" sits in "Liberation Mono". */
  lemma MonoValueShowsMono()
    ensures CurrentFontName(Value(Table[2])) == "Mono"
  {
    MonoValueLacksInter();
    MonoValueLacksSerif();
    assert MonoFamilies[3][12..16] == "Mono";
    PresentInStack(MonoFamilies, 3, "Mono", 12);
    ShowsEntry(Value(Table[2]), 2);
  }

  /** "BlinkMacSystemFont" holds an "M" but not "Mono". */
  lemma BlinkLacksMono()
    ensures Absent("BlinkMacSystemFont", "Mono")
  {
    assert "BlinkMacSystemFont" == "Blink" + (['M'] + "acSystemFont");
    MissingChar("acSystemFont", "Mono", 0);
    assert (['M'] + "acSystemFont")[1] != "Mono"[1];
    AbsentFromCons('M', "acSystemFont", "Mono");
    AbsentFromConcat("Blink", ['M'] + "acSystemFont", "Mono");
  }

  // The Nunito value's one "I" is in "Segoe UI", its "S"s are in
  // "BlinkMacSystemFont" and "Segoe UI", and its one "M" is in
  // "BlinkMacSystemFont"; none of them starts an earlier name.

  lemma NunitoFamiliesLacksInter()
    ensures AbsentEach(NunitoFamilies, "Inter")
  {
    MissingChar("Nunito", "Inter", 0);
    MissingChar("-apple-system", "Inter", 0);
    MissingChar("BlinkMacSystemFont", "Inter", 0);
    MissingChar("\"Segoe UI\"", "Inter", 1);
    MissingChar("Roboto", "Inter", 0);
    MissingChar("sans-serif", "Inter", 0);
  }

  lemma NunitoValueLacksInter()
    ensures Absent(Stack(NunitoFamilies), "Inter")
  {
    NunitoFamiliesLacksInter();
    AbsentFromStack(NunitoFamilies, "Inter");
  }

  lemma NunitoFamiliesLacksSerif()
    ensures AbsentEach(NunitoFamilies, "Serif")
  {
    MissingChar("Nunito", "Serif", 0);
    MissingChar("-apple-system", "Serif", 0);
    MissingChar("BlinkMacSystemFont", "Serif", 2);
    MissingChar("\"Segoe UI\"", "Serif", 2);
    MissingChar("Roboto", "Serif", 0);
    MissingChar("sans-serif", "Serif", 0);
  }

  lemma NunitoValueLacksSerif()
    ensures Absent(Stack(NunitoFamilies), "Serif")
  {
    NunitoFamiliesLacksSerif();
    AbsentFromStack(NunitoFamilies, "Serif");
  }

  lemma NunitoFamiliesLacksMono()
    ensures AbsentEach(NunitoFamilies, "Mono")
  {
    MissingChar("Nunito", "Mono", 0);
    MissingChar("-apple-system", "Mono", 0);
    BlinkLacksMono();
    MissingChar("\"Segoe UI\"", "Mono", 0);
    MissingChar("Roboto", "Mono", 0);
    MissingChar("sans-serif", "Mono", 0);
  }

  lemma NunitoValueLacksMono()
    ensures Absent(Stack(NunitoFamilies), "Mono")
  {
    NunitoFamiliesLacksMono();
    AbsentFromStack(NunitoFamilies, "Mono");
  }

  lemma NunitoValueShowsNunito()
    ensures CurrentFontName(Value(Table[3])) == "Nunito"
  {
    NunitoValueLacksInter();
    NunitoValueLacksSerif();
    NunitoValueLacksMono();
    PresentInStack(NunitoFamilies, 0, "Nunito", 0);
    ShowsEntry(Value(Table[3]), 3);
  }

  /** The Merriweather value's one "M" starts "Merriweather", which has no "o". */
  lemma MerriweatherFamiliesLacksMono()
    ensures AbsentEach(MerriweatherFamilies, "Mono")
  {
    MissingChar("Merriweather", "Mono", 1);
    MissingChar("Georgia", "Mono", 0);
    MissingChar("Cambria", "Mono", 0);
    MissingChar("\"Times New Roman\"", "Mono", 0);
    MissingChar("Times", "Mono", 0);
    MissingChar("serif", "Mono", 0);
  }

  lemma MerriweatherValueLacksMono()
    ensures Absent(Stack(MerriweatherFamilies), "Mono")
  {
    MerriweatherFamiliesLacksMono();
    AbsentFromStack(MerriweatherFamilies, "Mono");
  }

  // The Merriweather value has no "I", "S" or "u".

  lemma MerriweatherValueLacksInter()
    ensures Absent(Stack(MerriweatherFamilies), "Inter")
  {
    LacksName(MerriweatherFamilies, "Inter", 0, 'I');
  }

  lemma MerriweatherValueLacksSerif()
    ensures Absent(Stack(MerriweatherFamilies), "Serif")
  {
    LacksName(MerriweatherFamilies, "Serif", 0, 'S');
  }

  lemma MerriweatherValueLacksNunito()
    ensures Absent(Stack(MerriweatherFamilies), "Nunito")
  {
    LacksName(MerriweatherFamilies, "Nunito", 1, 'u');
  }

  lemma MerriweatherValueShowsMerriweather()
    ensures CurrentFontName(Value(Table[4])) == "Merriweather"
  {
    MerriweatherValueLacksInter();
    MerriweatherValueLacksSerif();
    MerriweatherValueLacksNunito();
    MerriweatherValueLacksMono();
    PresentInStack(MerriweatherFamilies, 0, "Merriweather", 0);
    ShowsEntry(Value(Table[4]), 4);
  }

  /** Choosing Serif applies a value holding "serif" but not "Serif": the label
      falls back to "Inter" and no entry carries the check mark. */
  lemma SerifShowsInter()
    ensures CurrentFontName(Value(Table[1])) == "Inter"
    ensures forall i :: 0 <= i < |Table| ==> !IsChecked(Value(Table[1]), i)
  {
    var v := Value(Table[1]);
    SerifValueLacksNames();
    forall i | 0 <= i < |Table| ensures !IsChecked(v, i) {
      assert Absent(v, Table[i].name);
    }
  }

  /** Selecting entry `i` applies its value (`onSelectFont(font.value)`); the
      label then names that entry again, except for Serif. */
  lemma SelectedFontIsShown(i: nat)
    requires i < |Table|
    ensures i != 1 ==> CurrentFontName(Value(Table[i])) == Table[i].name
    ensures i == 1 ==> CurrentFontName(Value(Table[i])) == "Inter"
  {
    if i == 0 {
      InterValueShowsInter();
    } else if i == 1 {
      SerifShowsInter();
    } else if i == 2 {
      MonoValueShowsMono();
    } else if i == 3 {
      NunitoValueShowsNunito();
    } else {
      MerriweatherValueShowsMerriweather();
    }
  }

  // ---------------------------------------------------------------------------
  // The evidently intended lookup: by value

  /** No two entries apply the same value: every value but Serif's is labelled
      with its own entry, Serif's contains no name at all, and Inter's contains
      "Inter". */
  lemma ValuesDistinct(i: nat, j: nat)
    requires i < j < |Table|
    ensures Value(Table[i]) != Value(Table[j])
  {
    if j == 1 {
      InterSerifDiffer();
    } else {
      LabelsDiffer(i, j);
    }
  }

  lemma InterSerifDiffer()
    ensures Value(Table[0]) != Value(Table[1])
  {
    PresentInStack(InterFamilies, 0, "Inter", 0);
    SerifValueLacksInter();
  }

  lemma LabelsDiffer(i: nat, j: nat)
    requires i < j < |Table| && j != 1
    ensures Value(Table[i]) != Value(Table[j])
  {
    SelectedFontIsShown(i);
    SelectedFontIsShown(j);
    NamesDistinct(if i == 1 then 0 else i, j);
    DistinctLabels(Value(Table[i]), Value(Table[j]));
  }

  lemma NamesDistinct(i: nat, j: nat)
    requires i < j < |Table|
    ensures Table[i].name != Table[j].name
  {
    assert Table[0].name == "Inter" && Table[1].name == "Serif" && Table[2].name == "Mono";
    assert Table[3].name == "Nunito" && Table[4].name == "Merriweather";
  }

  lemma DistinctLabels(a: string, b: string)
    requires CurrentFontName(a) != CurrentFontName(b)
    ensures a != b
  {
  }

  /** The first entry of `fonts` whose value is exactly `current`. */
  function FindValue(fonts: seq<Font>, current: string): (r: Option<nat>)
    ensures r.Some? ==> r.value < |fonts| && Value(fonts[r.value]) == current
    ensures r.None? ==> forall i :: 0 <= i < |fonts| ==> Value(fonts[i]) != current
  {
    if fonts == [] then None
    else if Value(fonts[0]) == current then Some(0)
    else
      match FindValue(fonts[1..], current)
      case None => None
      case Some(i) => Some(i + 1)
  }

  /** The label as evidently intended: the name of the entry whose value is
      the current font, and "Inter" for a value outside the table. */
  function CurrentFontNameByValue(current: string): (name: string)
    ensures exists i :: 0 <= i < |Table| && Table[i].name == name
  {
    match FindValue(Table, current)
    case Some(i) => Table[i].name
    case None => assert Table[0].name == "Inter"; "Inter"
  }

  /** Looked up by value, an entry's own value is labelled with its name:
      no earlier entry has the same value. */
  lemma LabelByValue(i: nat)
    requires i < |Table|
    ensures CurrentFontNameByValue(Value(Table[i])) == Table[i].name
    ensures forall k :: 0 <= k < |Table| && k != i ==> Value(Table[k]) != Value(Table[i])
  {
    forall k | 0 <= k < |Table| && k != i
      ensures Value(Table[k]) != Value(Table[i])
    {
      if k < i {
        ValuesDistinct(k, i);
      } else {
        ValuesDistinct(i, k);
      }
    }
    var r := FindValue(Table, Value(Table[i]));
    assert r.Some?;
  }

  /** The check mark as evidently intended: on the entry whose value is
      applied, which is then also the entry the label names. */
  function IsCheckedByValue(current: string, i: nat): (b: bool)
    requires i < |Table|
    ensures b ==> CurrentFontNameByValue(current) == Table[i].name
  {
    LabelByValue(i);
    current == Value(Table[i])
  }

  /** Looked up by value, selecting entry `i` labels it and checks it and no
      other entry, Serif included. */
  lemma SelectedFontIsShownByValue(i: nat)
    requires i < |Table|
    ensures CurrentFontNameByValue(Value(Table[i])) == Table[i].name
    ensures forall k :: 0 <= k < |Table| ==> (IsCheckedByValue(Value(Table[i]), k) <==> k == i)
  {
    LabelByValue(i);
  }
}
