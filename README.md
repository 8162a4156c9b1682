# A verified model of the v1 writing editor

This project models the core of the v1 editor: a browser-based, single-user
document editor written in React. It covers:

- **Text statistics** (`Metrics`). These are the word, character, reading-time,
  paragraph and sentence counts and the two averages that `editor.tsx` computes
  from the editor's `innerText`, plus the word and character counts of a
  selection.
- **The Enter-key shortcut transformer** (`Shortcuts`). A line that starts with
  `\h1 `, `\h2 `, `\h3 `, `\toggle `, `\bulletpoint `, `\code ` or `\quote `
  becomes a heading, toggle, list item, code block or quote. The editor element
  is a `Body` object: a sequence of top-level blocks and a caret.
- **Find and replace** (`FindReplace`). `findNext`, `replaceSelection` and
  `replaceAll` work over the editor's flat text. A `Finder` object holds that
  text and a selection given as two offsets.
- **The editor session** (`Session`). This covers the ctrl/meta keyboard
  dispatch, the link builder, the save policy of `handleSave`, and the three
  debounce timers (metrics, autosave and selection). The timers are fields of an
  `Editor` object whose handlers are methods.
- **The document store of `app/actions.ts`** (`Storage`). The documents
  directory is a map from file name to file content; a file either parses as a
  document or does not. The map is the field of a `Store` object.
- **The welcome screen** (`Welcome`). This is the case-insensitive title filter
  and the guarded delete.
- **The font picker** (`Fonts`). This is the `FONTS` table, the label shown for
  the current font, and the check mark beside each entry.

`Text` holds the string primitives the code relies on:

- the whitespace set of `trim()` and of the `\s` regex class;
- `trim`, `indexOf`, `includes` and `startsWith`;
- `length`, which counts UTF-16 code units;
- a length-preserving case fold that stands in for `toLowerCase`.

What a handler reads from the page when it runs arrives as a `Session.Page`
parameter: `innerHTML`, `innerText`, and whether the selection is collapsed and
its text. The clock arrives as a parameter `now`, in milliseconds.

In a few places the code does something other than what it evidently intends.
In each case the model follows the code:

- `findNext` searches from the selection's start offset, not from the caret
  after the selection.
- A session on a new document never keeps the id its first save created. Every
  later save of that session writes a new file.
- A transform appends the new empty line at the end of the editor, not after the
  transformed block.
- Leaving the editor cancels the pending save and selection timers but not the
  metrics timer.

## Model

| member | source | states |
|---|---|---|
| Text.Fold | v1/components/welcome-screen.tsx:29 | an upper-case ASCII letter becomes its lower-case letter; every other character stays |
| Text.Lower | v1/components/welcome-screen.tsx:29 | lower-casing keeps the length and folds each character in place |
| Text.TrimStart | v1/components/editor.tsx:125 | drops exactly the leading whitespace: what is dropped is blank and what is left does not start with whitespace |
| Text.TrimEnd | v1/components/editor.tsx:125 | drops exactly the trailing whitespace: what is dropped is blank and what is left does not end with whitespace |
| Text.Trim | v1/components/editor.tsx:125 | `trim()` keeps a contiguous middle of the string and drops blank text on both sides; it leaves nothing exactly when the string is blank, and otherwise starts and ends with a non-whitespace character |
| Text.CodeUnits | v1/components/editor.tsx:126 | `length` counts UTF-16 code units: between one and two per character |
| Text.CodeUnitsBmp | v1/components/editor.tsx:126 | `length` equals the number of characters exactly when no character lies beyond U+FFFF |
| Text.EmojiIsTwoUnits | v1/components/editor.tsx:126 | a character beyond U+FFFF is one character but two code units |
| Text.IndexOf | v1/components/editor.tsx:320 | `indexOf` gives the leftmost offset at which the query occurs, and -1 exactly when it occurs nowhere |
| Text.Contains | v1/components/welcome-screen.tsx:29 | `includes` holds exactly when the query occurs somewhere; the empty query occurs in every string |
| Text.StartsWith | v1/components/editor.tsx:427 | `startsWith` holds exactly when the prefix occurs at offset 0, and then the string is the prefix followed by the rest |
| Text.LowerIdempotent | v1/components/welcome-screen.tsx:29 | lower-casing twice is the same as lower-casing once |
| Metrics.Tokens | v1/components/editor.tsx:125 | the tokens of a text are non-empty and hold no separator; joined together they are exactly the text's non-separator characters in order, and there is one per start of a run of non-separators |
| Metrics.SplitRuns | v1/components/editor.tsx:125 | `split` on runs of a class gives at least one piece; no piece holds a separator, only the first and last may be empty, the first is non-empty when the text starts with a non-separator, and together they are exactly the non-separator characters in order |
| Metrics.TokensTrim | v1/components/editor.tsx:125 | trimming a text does not change its tokens |
| Metrics.SplitRunsIsTokens | v1/components/editor.tsx:125 | on a trimmed, non-empty text, `split(/\s+/)` yields exactly the tokens |
| Metrics.WordCount | v1/components/editor.tsx:125 | the word count is the number of whitespace-separated tokens, and 0 exactly when the text is blank |
| Metrics.TokensBound | v1/components/editor.tsx:125 | a text of n characters holds at most (n+1)/2 tokens |
| Metrics.ReadingTime | v1/components/editor.tsx:129 | the reading time is at least one minute, and is the fewest minutes in which 200 words a minute covers the text |
| Metrics.SplitLines | v1/components/editor.tsx:138 | `split("\n")` yields at least one line |
| Metrics.SplitLinesJoin | v1/components/editor.tsx:138 | splitting at "\n" loses nothing: joining the lines again gives the text |
| Metrics.SplitLinesCount | v1/components/editor.tsx:138 | there is one more line than there are "\n" characters |
| Metrics.CountNonBlank | v1/components/editor.tsx:138-141 | the number of pieces kept by the filter is the number of positions holding a piece that is not blank |
| Metrics.BlankLines | v1/components/editor.tsx:138 | a blank text has no non-blank line |
| Metrics.BlankSentences | v1/components/editor.tsx:141 | a blank text has no non-blank sentence piece |
| Metrics.Paragraphs | v1/components/editor.tsx:138 | the paragraph count is the number of non-blank lines of `split("\n")`, or 1 when there is none; so at least 1 and at most the number of lines |
| Metrics.Sentences | v1/components/editor.tsx:141 | the sentence count is the number of non-blank pieces between runs of ".", "!" and "?", or 1 when there is none |
| Metrics.ParagraphAndSentenceBounds | v1/components/editor.tsx:138-141 | paragraphs are at most the number of "\n" plus one; a blank text counts one paragraph and one sentence (the `\|\| 1` fallback) |
| Metrics.RoundTenths | v1/components/editor.tsx:144-147 | `Math.round(x * 10) / 10`, kept in tenths, is the nearest tenth of n/d, with halves rounded up |
| Metrics.AvgWordLength | v1/components/editor.tsx:144 | 0 without words; otherwise (chars - words + 1)/words to the nearest tenth, which is at least 1.0 when there are at most (chars+1)/2 words |
| Metrics.AvgSentenceLength | v1/components/editor.tsx:147 | 0 without sentences; otherwise words per sentence to the nearest tenth |
| Metrics.AvgWordLengthAtLeastOne | v1/components/editor.tsx:144 | any text with words has an average word length of at least 1.0 |
| Metrics.CountsOf | v1/components/editor.tsx:124-133 | words are the whitespace tokens of the text, characters the UTF-16 code units of the untrimmed text, reading time the reading time of that word count, and words are 0 exactly for a blank text |
| Metrics.DetailOf | v1/components/editor.tsx:137-154 | the detail holds the paragraph and sentence counts (both at least 1), the average word length of the untrimmed text's UTF-16 code units and the word count, and words per sentence to the nearest tenth; the average word length is 0 without words and at least 1.0 with them |
| Metrics.SelectionStats | v1/components/editor.tsx:196-210 | selection figures exist exactly when the selection is not collapsed and its text is non-empty; they then count that text's tokens and its UTF-16 code units |
| Shortcuts.FirstMatch | v1/components/editor.tsx:427-649 | gives the first table entry, in test order, whose prefix starts the line, and none exactly when no prefix does |
| Shortcuts.MatchShortcut | v1/components/editor.tsx:427-649 | a line is a shortcut exactly when one of the seven prefixes starts it; the kind is that prefix's and the rest is the line without it |
| Shortcuts.TagsDistinct | v1/components/editor.tsx:427-649 | the second and third characters of the seven prefixes are pairwise different |
| Shortcuts.PrefixesExclusive | v1/components/editor.tsx:427-649 | no line starts with two different prefixes, so the order of the tests does not matter |
| Shortcuts.MatchShortcutByPrefix | v1/components/editor.tsx:427-429 | whichever prefix starts the line decides the kind, and the line is exactly that prefix followed by the rest |
| Shortcuts.PrefixLengths | v1/components/editor.tsx:429 | the stripped prefix lengths are 4, 4, 4, 8, 13, 6 and 7 |
| Shortcuts.NoSpaceNoShortcut | v1/components/editor.tsx:427 | `\h1Title` is no shortcut, while `\h1 Title` is a heading with text "Title" |
| Shortcuts.TransformCanRefire | v1/components/editor.tsx:427-435 | the rest of a line may itself start with a prefix (`\h1 \h1 x`) |
| Shortcuts.Build | v1/components/editor.tsx:434-435 | the built block has the shortcut's kind and the rest of the line as its first line; a toggle's body is an empty line |
| Shortcuts.Body.constructor | v1/components/editor.tsx:421-424 | the editor element as the browser has left it, with a caret inside it |
| Shortcuts.Body.AnchorText | v1/components/editor.tsx:424 | the anchor node's text is a piece of the editor's whole text |
| Shortcuts.Body.Enter | v1/components/editor.tsx:421-684 | prevented exactly on a shortcut; it replaces only the caret's top-level block, keeps every other block in place, and appends one empty line at the end; the caret moves to that line, or into the toggle's body; with the anchor on the editor itself nothing changes |
| FindReplace.OccursInTail | v1/components/editor.tsx:317 | an occurrence in `substring(a)` is an occurrence in the whole text, a places further on |
| FindReplace.TailMatches | v1/components/editor.tsx:317-320 | case-insensitive matches in the tail are exactly the matches of the text at or after the cut |
| FindReplace.NextMatch | v1/components/editor.tsx:316-351 | gives the leftmost match at or after the start, else the leftmost in the whole text, else none; none exactly when the text has no match |
| FindReplace.FindNextStaysOnMatch | v1/components/editor.tsx:316-320 | a selection that starts on a match is selected again: Find Next does not advance |
| FindReplace.FindNextAfterSelectionAdvances | v1/components/editor.tsx:316-320 | searching from the selection's end moves to another match whenever a non-overlapping one exists |
| FindReplace.ExampleMatches | v1/components/editor.tsx:320 | "abc abc" holds "abc" at offsets 0 and 4 and nowhere else |
| FindReplace.FindNextExample | v1/components/editor.tsx:316-351 | on "abc abc", Find Next from the first match stays at 0; searching from the selection's end goes 0 to 4, and from 4 wraps back to 0 |
| FindReplace.Escape | v1/components/editor.tsx:373 | escaping never shortens the query |
| FindReplace.EscapeIsLiteral | v1/components/editor.tsx:373 | the escaped query, read as a pattern, matches exactly the query itself: metacharacters are taken literally |
| FindReplace.Substitute | v1/components/editor.tsx:374 | a replacement without "$" is inserted as it is |
| FindReplace.ReplaceFromLength | v1/components/editor.tsx:374 | each replaced match trades \|q\| characters for \|r\| |
| FindReplace.ReplaceAllLiteral | v1/components/editor.tsx:373-374 | the corrected Replace All is \|T\| + k·(\|r\|−\|q\|) long for the k matches of the scan, and a text without the query comes back unchanged; its contents are pinned down by ReplaceAllAtFirstMatch and ReplaceFromNoMatch |
| FindReplace.ReplaceAllAtFirstMatch | v1/components/editor.tsx:373-374 | Replace All keeps the text before the leftmost case-insensitive match, replaces that match (verbatim when corrected, expanding `$` patterns as written), and goes on with the non-overlapping matches after it; with ReplaceFromNoMatch this fixes every character of the result |
| FindReplace.ReplaceAllAsWritten | v1/components/editor.tsx:373-376 | without "$" in the replacement, the code's Replace All equals the literal one; a text without the query comes back unchanged; its contents are pinned down by ReplaceAllAtFirstMatch and ReplaceFromNoMatch |
| FindReplace.ReplaceFromNoMatch | v1/components/editor.tsx:374 | with no match past the offset, the scan copies the rest and counts no match |
| FindReplace.ReplaceFromKeepsPrefix | v1/components/editor.tsx:374 | up to the first match past the offset, the scan copies the text unchanged and counts nothing |
| FindReplace.ReplaceFromAtFirstMatch | v1/components/editor.tsx:374 | the scan keeps the text before the first match past the offset, replaces that match (verbatim, or through the `$` patterns), resumes right after it, and counts it once |
| FindReplace.ReplaceFromVerbatim | v1/components/editor.tsx:374 | without "$" in the replacement, expanding `$` patterns changes nothing |
| FindReplace.DollarPatternsExpand | v1/components/editor.tsx:374 | replacing "cat" by "$&s" in "cat" yields "cats", not "$&s" |
| FindReplace.Finder.constructor | v1/components/editor.tsx:309-316 | the editor's text with a selection inside it |
| FindReplace.Finder.FindNext | v1/components/editor.tsx:306-352 | an empty query changes nothing; otherwise the selection spans the match NextMatch finds from the selection's start, or stays put without one; the text never changes |
| FindReplace.Finder.FindNextAfterSelection | v1/components/editor.tsx:306-352 | the corrected Find Next: as FindNext, but searching from the selection's end |
| FindReplace.Finder.ReplaceSelection | v1/components/editor.tsx:354-366 | a no-op without both texts; a selection equal to the query up to case is replaced by the replacement as it is; Find Next follows either way |
| FindReplace.Finder.ReplaceAll | v1/components/editor.tsx:368-378 | a no-op without both texts; otherwise the text becomes the code's Replace All of it (each leftmost non-overlapping match replaced, the text between kept) and the selection falls back to the start |
| Session.KeyAction | v1/components/editor.tsx:388-418 | a shortcut action needs ctrl or meta |
| Session.KeyActionSpec | v1/components/editor.tsx:388-418 | a shortcut fires exactly for a single key among s, b, i, u, f, l and e, in either case, under ctrl or meta |
| Session.RearmsMetrics | v1/components/editor.tsx:383-421 | the four keys that re-arm the metrics are never ctrl/meta shortcuts, so Enter always reaches the transformer |
| Session.LinkHtml | v1/components/editor.tsx:296 | the anchor starts with the URL as its `href` and ends with the visible text, which is the URL when the link text is empty |
| Session.LinkTextDefaultsToUrl | v1/components/editor.tsx:296 | an empty link text gives the same anchor as the URL as text |
| Session.SaveStep | v1/components/editor.tsx:163-172 | a save fires only from a pending timer, which it clears; an input re-arms the save 5000 ms later and fires nothing |
| Session.TypingDefersSave | v1/components/editor.tsx:163-172 | while inputs keep coming less than 5000 ms apart, no save fires and the deadline is 5000 ms after the latest input |
| Session.BurstSavesOnce | v1/components/editor.tsx:163-172 | a burst of typing followed by a clock reading past the last deadline fires exactly one save |
| Session.SaveRunAppend | v1/components/editor.tsx:163-172 | running two stretches of events in turn adds their saves |
| Session.MetricsTick | v1/components/editor.tsx:117-122 | the figures are computed exactly when a compute step is due |
| Session.TypingMetricsDelay | v1/components/editor.tsx:1003-1008 | after typing, the figures are computed only on the second due tick, at least 600 ms later |
| Session.SaveDecision | v1/components/editor.tsx:243-259 | the title dialog opens exactly for a manual save under the default title; otherwise the session's id, title, content and font are written |
| Session.AutoSave | v1/components/editor.tsx:168-171 | a due autosave writes exactly when the content is not blank, and never asks for a title |
| Session.NewSessionSavesAreDistinct | v1/components/editor.tsx:254-263 | a new session's saves at different times write different files; an opened document always writes its own file |
| Session.Editor.constructor | v1/components/editor.tsx:50-83 | the initial state: default title and font, no timers, no save time, statistics closed |
| Session.Editor.ArmMetrics | v1/components/editor.tsx:117-122 | re-arms the computing timer 300 ms ahead, and changes nothing else |
| Session.Editor.Load | v1/components/editor.tsx:86-114 | for a readable document, takes its title, content, save time and non-empty font and arms the metrics, and a changed title cancels the pending save as the title effect's cleanup does; otherwise changes nothing |
| Session.Editor.OnInput | v1/components/editor.tsx:163-172 | re-arms the metrics with a re-arming step and the save at 5000 ms, and nothing else |
| Session.Editor.SelectionChange | v1/components/editor.tsx:191-196 | re-arms only the selection timer, 200 ms ahead |
| Session.Editor.SetTitle | v1/components/editor.tsx:179-187 | a new title cancels the pending save; the same title keeps it |
| Session.Editor.HandleSave | v1/components/editor.tsx:243-284 | opens the dialog and writes nothing, or writes the document with the id and stamp clock readings and records the finishing time as the save time |
| Session.Editor.ConfirmSaveDialog | v1/components/editor.tsx:1125-1128 | closes the dialog and saves without asking again |
| Session.Editor.FormatText | v1/components/editor.tsx:287-290 | records the command and re-arms the metrics |
| Session.Editor.EditLink | v1/components/editor.tsx:1158-1175 | only the link dialog's two fields change |
| Session.Editor.InsertLink | v1/components/editor.tsx:293-303 | a blank URL changes nothing; otherwise the anchor is inserted, both fields cleared, the dialog closed and the metrics re-armed |
| Session.Editor.ChangeFont | v1/components/editor.tsx:690-715 | adopts the font, styles a non-empty selection, and re-arms the save at 2000 ms |
| Session.Editor.ToggleStats | v1/components/editor.tsx:1050-1056 | toggles the panel, and re-arms the metrics only when opening it |
| Session.Editor.ReplaceAll | v1/components/editor.tsx:368-378 | runs Replace All and re-arms the metrics only when it ran |
| Session.Editor.KeyDown | v1/components/editor.tsx:381-687 | a ctrl/meta shortcut is prevented and leaves the body alone: ctrl+S saves as `handleSave(true)`, a format shortcut records its command, find and link open their dialogs, ctrl+E flips focus mode, and every other field is unchanged; otherwise Enter rewrites the caret's block exactly as the transformer does and is prevented exactly on a shortcut, and other keys are not prevented; the metrics are re-armed exactly for the four editing keys and the format shortcuts |
| Session.Editor.RunAction | v1/components/editor.tsx:388-419 | ctrl+S saves as `handleSave(true)` and only it touches the store, the dialog flag and the save time; bold, italic and underline record their command and re-arm the metrics; ctrl+F and ctrl+L open their dialogs and ctrl+E flips focus mode, each leaving every other field as it was |
| Session.Editor.EnterKey | v1/components/editor.tsx:421-687 | Enter is prevented exactly when the caret's line starts with a shortcut; away from the root it rewrites that block and appends an empty line exactly as the transformer does and re-arms the metrics, and otherwise the body and the metrics timer stay as they were |
| Session.Editor.FireMetrics | v1/components/editor.tsx:117-157 | a due compute step sets the counts from the text, and the detail only while the panel is open |
| Session.Editor.RefreshDetail | v1/components/editor.tsx:136-155 | the detail is recomputed only while the panel is expanded |
| Session.Editor.FireSave | v1/components/editor.tsx:168-171 | a due save writes unless the content is blank, and never opens the dialog |
| Session.Editor.FireSelection | v1/components/editor.tsx:196-210 | a due selection timer refreshes the selection figures and clears itself |
| Session.Editor.Close | v1/components/editor.tsx:179-219 | cancels the save and selection timers only |
| Storage.FileName | v1/app/actions.ts:63 | every file name ends in ".json" |
| Storage.FileNameInjective | v1/app/actions.ts:89 | two ids share a file exactly when they are equal |
| Storage.DigitChar | v1/app/actions.ts:88 | a digit is a character '0' to '9' |
| Storage.Decimal | v1/app/actions.ts:88 | the clock's id is a non-empty numeral without leading zeros |
| Storage.DecimalRoundTrip | v1/app/actions.ts:88 | the numeral reads back as the clock value |
| Storage.ClockIdInjective | v1/app/actions.ts:88 | saves at different clock readings get different ids |
| Storage.GetDocument | v1/app/actions.ts:60-72 | gives a document exactly when its file exists and parses, and it is that file's document |
| Storage.Summaries | v1/app/actions.ts:31-49 | gives exactly the summaries of the listed ".json" files that parse |
| Storage.SummariesCount | v1/app/actions.ts:31-49 | each summary occurs as often as there are positions in the listing whose ".json" file parses to it |
| Storage.SummariesPrefix | v1/app/actions.ts:31-49 | the summaries of a prefix of the listing are a prefix of the summaries, so they come in listing order |
| Storage.Insert | v1/app/actions.ts:52 | inserting adds exactly one element |
| Storage.InsertNewestFirst | v1/app/actions.ts:52 | inserting into a newest-first list keeps it newest first |
| Storage.SortNewestFirst | v1/app/actions.ts:52 | the sorted list is newest first and a permutation of its input |
| Storage.ModifiedAtCons | v1/app/actions.ts:52 | the entries modified at a time t distribute over a cons |
| Storage.InsertModifiedAt | v1/app/actions.ts:52 | insertion puts the new entry before the older entries of its own time |
| Storage.SortIsStable | v1/app/actions.ts:52 | entries with equal modification times keep their listing order |
| Storage.DocumentList | v1/app/actions.ts:27-57 | the list is newest first, has at most one entry per listed file, and holds each summary exactly as often as listed ".json" files parse to it |
| Storage.SaveId | v1/app/actions.ts:88 | a save keeps a present, non-empty id; otherwise the id is a numeral whose value is the clock reading |
| Storage.AfterSave | v1/app/actions.ts:88-99 | after a save the directory gains at most the file of the save's id, and that file reads back as the document with the defaulted title, the content, the stamp reading and the font |
| Storage.Store.constructor | v1/app/actions.ts:6-15 | the documents directory as found |
| Storage.Store.SaveDocument | v1/app/actions.ts:75-104 | returns the id `SaveId` chooses, and the directory becomes exactly `AfterSave` of the old one |
| Storage.Store.DeleteDocument | v1/app/actions.ts:107-119 | true exactly when the file existed; afterwards it is gone and nothing else changed |
| Storage.SaveKeepsOthers | v1/app/actions.ts:60-99 | a save leaves every other document reading as before |
| Storage.DeleteThenGet | v1/app/actions.ts:60-113 | a deleted document no longer reads back, and others are unaffected |
| Storage.SavedIsListed | v1/app/actions.ts:27-99 | after a save, the document list holds an entry with the saved id and the save's time stamp |
| Welcome.Filter | v1/components/welcome-screen.tsx:29 | keeps a document exactly when its lower-cased title contains the lower-cased query, and keeps nothing else |
| Welcome.FilterCount | v1/components/welcome-screen.tsx:29 | a matching document is kept as many times as it is listed, any other no times |
| Welcome.Matches | v1/components/welcome-screen.tsx:29 | a document matches exactly when the lower-cased query occurs in its lower-cased title; the empty query matches every title |
| Welcome.SubsequenceOfTail | v1/components/welcome-screen.tsx:29 | a subsequence of a list stays one after an element is put in front |
| Welcome.SubsequenceWeaken | v1/components/welcome-screen.tsx:29 | dropping the first element of a subsequence keeps it a subsequence |
| Welcome.FilterIsSubsequence | v1/components/welcome-screen.tsx:29 | the filtered list is an order-preserving subsequence of the documents |
| Welcome.EmptyQueryKeepsAll | v1/components/welcome-screen.tsx:29 | the empty query keeps every document, in order |
| Welcome.FilterIgnoresQueryCase | v1/components/welcome-screen.tsx:29 | the query's case does not matter |
| Welcome.FilterQueryEquivalent | v1/components/welcome-screen.tsx:29 | two queries equal up to case filter alike |
| Welcome.Screen.constructor | v1/components/welcome-screen.tsx:25-27 | no query, no dialog and no document chosen |
| Welcome.Screen.Shown | v1/components/welcome-screen.tsx:29 | the shown list keeps the documents' order and holds each matching document as many times as it is listed, and no other |
| Welcome.Screen.Search | v1/components/welcome-screen.tsx:29 | the shown documents are exactly those matching the new query |
| Welcome.Screen.ClearSearch | v1/components/welcome-screen.tsx:159 | "Clear search" shows every document again |
| Welcome.Screen.DeleteClick | v1/components/welcome-screen.tsx:31-35 | chooses the document and opens the dialog |
| Welcome.Screen.ConfirmDelete | v1/components/welcome-screen.tsx:37-51 | without a chosen id nothing happens; otherwise exactly its file is removed and the dialog closes |
| Fonts.Stack | v1/components/font-selector.tsx:17-21 | a one-family value is that family |
| Fonts.StackCons | v1/components/font-selector.tsx:17-21 | a value of two or more families is the first family, a comma and a space, then the value of the rest |
| Fonts.SansTail | v1/components/font-selector.tsx:17 | the system sans-serif stack that Inter and Nunito share reads `-apple-system, BlinkMacSystemFont, "Segoe UI", Roboto, sans-serif` |
| Fonts.InterValue | v1/components/font-selector.tsx:17 | Inter's value is the table's literal string |
| Fonts.SerifValue | v1/components/font-selector.tsx:18 | Serif's value is the table's literal string |
| Fonts.MonoValue | v1/components/font-selector.tsx:19 | Mono's value is the table's literal string |
| Fonts.NunitoValue | v1/components/font-selector.tsx:20 | Nunito's value is the table's literal string |
| Fonts.MerriweatherValue | v1/components/font-selector.tsx:21 | Merriweather's value is the table's literal string |
| Fonts.ValueHoldsFamilies | v1/components/font-selector.tsx:16-22 | a value holds each of its entry's families and starts with the preferred one |
| Fonts.FindFont | v1/components/font-selector.tsx:34 | `find` gives the first entry whose name the value contains, and none exactly when it contains no name |
| Fonts.CurrentFontName | v1/components/font-selector.tsx:34 | the label is always one of the table's names |
| Fonts.IsChecked | v1/components/font-selector.tsx:64 | an entry is checked exactly when its name occurs in the current value |
| Fonts.FindFontFirst | v1/components/font-selector.tsx:34 | an entry whose name is contained, with no earlier one contained, is the one found |
| Fonts.CurrentFontNameSpec | v1/components/font-selector.tsx:34-64 | the label is the first checked entry in table order, or "Inter" when none is checked |
| Fonts.SerifValueLacksNames | v1/components/font-selector.tsx:18 | the Serif value contains "serif" but none of the five names, "Serif" included |
| Fonts.ShowsEntry | v1/components/font-selector.tsx:34 | a value containing an entry's name and no earlier name is labelled with that entry |
| Fonts.InterValueShowsInter | v1/components/font-selector.tsx:16-34 | choosing Inter labels the picker "Inter" |
| Fonts.MonoValueShowsMono | v1/components/font-selector.tsx:16-34 | choosing Mono labels the picker "Mono" |
| Fonts.NunitoValueShowsNunito | v1/components/font-selector.tsx:16-34 | choosing Nunito labels the picker "Nunito" |
| Fonts.MerriweatherValueShowsMerriweather | v1/components/font-selector.tsx:16-34 | choosing Merriweather labels the picker "Merriweather", although its value also names Georgia and Times |
| Fonts.SerifShowsInter | v1/components/font-selector.tsx:18-64 | after choosing Serif the label reads "Inter" and no entry is checked |
| Fonts.SelectedFontIsShown | v1/components/font-selector.tsx:16-58 | choosing an entry labels the picker with its name, except Serif, which is labelled "Inter" |
| Fonts.ValuesDistinct | v1/components/font-selector.tsx:16-22 | no two entries apply the same value |
| Fonts.FindValue | v1/components/font-selector.tsx:34 | gives an entry whose value is exactly the current font, and none exactly when no entry's is |
| Fonts.CurrentFontNameByValue | v1/components/font-selector.tsx:34 | the corrected label is always one of the table's names |
| Fonts.LabelByValue | v1/components/font-selector.tsx:34 | looked up by value, an entry's own value is labelled with its name, and no other entry has that value |
| Fonts.IsCheckedByValue | v1/components/font-selector.tsx:64 | the corrected check mark is on an entry only when the corrected label names that entry |
| Fonts.SelectedFontIsShownByValue | v1/components/font-selector.tsx:34-64 | looked up by value, choosing any entry, Serif included, labels the picker with it and checks it alone |

## Left out

- Rendering and DOM plumbing are not modelled. This covers the toast after a
  save, `history.replaceState`, fullscreen, focus mode's styling, themes, and
  the screen switching of `app/page.tsx`. The page's state reaches the handlers
  only through the `Page` parameter.
- The editor's content has three independent views, with no link kept between
  them: the `Body` blocks, the `Finder` text, and the `Page` read by a handler.
- Browser editing commands (`execCommand`) are recorded by name, not executed.
  This includes bold, italic, underline, `insertHTML`, `fontName` and the
  picker's "Reset formatting" (`formatBlock` and `removeFormat`).
- The shortcut transformer reads the anchor node's text as the text of the
  caret's block: a line's first text node, a toggle's body, or the editor's
  whole text when the anchor is the editor itself.
- `findNext` sets the selection on the editor's first child text node only.
  The model treats the text as that one node and leaves out the case where the
  editor has no such child.
- Replace All rewrites `innerHTML`, which includes the markup. The model rewrites
  the flat text.
- Strings are sequences of Unicode scalar values. JavaScript's `length` is
  modelled by `Text.CodeUnits`, so the character counts and the average word
  length are in UTF-16 code units. Offsets into the text, such as `Finder`'s
  selection and `indexOf`'s result, still count characters, so they differ from
  the browser's offsets after a character beyond U+FFFF. A lone surrogate cannot
  be represented.
- `toLowerCase` is modelled as a fold of the ASCII letters. The full Unicode
  mapping, which can change a string's length, is not modelled.
- The averages are kept in integer tenths, rounded half up, instead of
  floating-point numbers.
- Timers are deadlines compared with a clock parameter; asynchrony is not
  modelled. So are React's stale closures, for example which `statsExpanded`
  the metrics callback sees.
- The clock is a parameter. `saveDocument` reads it twice, once for the id and
  once for the time stamp, and `handleSave` reads it a third time once the write
  has finished. So `Store.SaveDocument` takes two readings and the session's
  save handlers take all three as a `SaveTimes` value.
- File-system and JSON I/O are replaced by the directory map. A file either
  parses or does not. Not modelled: path traversal through `path.join` with an
  arbitrary id, failures to write or unlink, and the directory's creation.
- The welcome screen reloads the window after a delete. The reload is not
  modelled.
- The components `file-info.tsx`, `theme-provider.tsx`, `theme-switcher.tsx`
  and `app/page.tsx` are not part of this model.

## Findings

| source | as written | input that shows it | evidently intended | confidence | as-written member | corrected member |
|---|---|---|---|---|---|---|
| v1/components/editor.tsx:316-320 | Find Next searches from the selection's start offset | text "abc abc", query "abc", first match selected: Find Next selects offset 0 again | search from the selection's end, so the next match is selected (offset 4, then 0 again) | not executed | FindReplace.FindNextStaysOnMatch | FindReplace.FindNextAfterSelectionAdvances |
| v1/components/editor.tsx:373-374 | the replacement string is passed to `String.prototype.replace`, which expands `$&`, `$$`, `` $` `` and `$'` | text "cat", find "cat", replace "$&s": the result is "cats" | insert the replacement text as typed, which gives "$&s" | not executed | FindReplace.DollarPatternsExpand | FindReplace.ReplaceAllLiteral |
| v1/components/font-selector.tsx:18-64 | the label and the check mark test whether the value contains the entry's name, case-sensitively | choose Serif: its value contains "serif" but not "Serif", so the label reads "Inter" and no entry is checked | the chosen entry is the one labelled and checked | not executed | Fonts.SerifShowsInter | Fonts.SelectedFontIsShownByValue |
