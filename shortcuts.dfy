/**
 * The Enter-key shortcut transformer of editor.tsx (`processKeyDown`, the
 * `e.key === "Enter"` branch). The editor element is modelled as a sequence of
 * top-level blocks and a cursor; a line that starts with one of seven prefixes is
 * replaced by a block of the mapped kind, and an empty line is appended at the end.
 */
module Shortcuts {
  import opened Options
  import opened Text

  /** The structural kinds a shortcut can produce. */
  datatype Kind = Heading1 | Heading2 | Heading3 | ToggleList | BulletItem | CodeBlock | BlockQuote

  /** A top-level child of the editor element. */
  datatype Block =
    | Div(text: string)                       // a plain line: a <div> (an empty one holds <br>) or a bare text node
    | H1(text: string)
    | H2(text: string)
    | H3(text: string)
    | Toggle(summary: string, body: string)   // <details> with a <summary> and one body <div>
    | Bullet(text: string)                    // <li>
    | Code(text: string)                      // <pre><code>
    | Quote(text: string)                     // <blockquote>

  /** The kind a shortcut produced this block with; a plain line has none. */
  function KindOf(b: Block): Option<Kind> {
    match b
    case Div(_) => None
    case H1(_) => Some(Heading1)
    case H2(_) => Some(Heading2)
    case H3(_) => Some(Heading3)
    case Toggle(_, _) => Some(ToggleList)
    case Bullet(_) => Some(BulletItem)
    case Code(_) => Some(CodeBlock)
    case Quote(_) => Some(BlockQuote)
  }

  /** The text of the block's first line: for a toggle, its summary. */
  function LineText(b: Block): string {
    if b.Toggle? then b.summary else b.text
  }

  /** `textContent` of a block: all of its text, in document order. */
  function TextContent(b: Block): string {
    if b.Toggle? then b.summary + b.body else b.text
  }

  /** `textContent` of the editor element. */
  function RootText(blocks: seq<Block>): string {
    if blocks == [] then [] else TextContent(blocks[0]) + RootText(blocks[1..])
  }

  /** A block's text occurs somewhere in the editor element's text. */
  lemma {:induction false} BlockInRoot(blocks: seq<Block>, i: nat)
    requires i < |blocks|
    ensures exists j :: OccursAt(RootText(blocks), TextContent(blocks[i]), j)
  {
    var root := RootText(blocks);
    var t := TextContent(blocks[i]);
    if i == 0 {
      assert OccursAt(root, t, 0);
    } else {
      BlockInRoot(blocks[1..], i - 1);
      var rest := RootText(blocks[1..]);
      assert blocks[1..][i - 1] == blocks[i];
      var j :| OccursAt(rest, t, j);
      assert root == TextContent(blocks[0]) + rest;
      Nested(root, rest, t, |TextContent(blocks[0])|, j);
    }
  }

  /** An occurrence inside an occurrence is an occurrence. */
  lemma Nested(s: string, t: string, u: string, k: int, m: int)
    requires OccursAt(s, t, k) && OccursAt(t, u, m)
    ensures OccursAt(s, u, k + m)
  {
    forall x | 0 <= x < |u| ensures s[k + m..k + m + |u|][x] == u[x] {
      assert u[x] == t[m + x] == s[k + m + x];
    }
  }

  /** A block's first line and a toggle's body each occur somewhere in the
      editor element's text. */
  lemma PartsInRoot(blocks: seq<Block>, i: nat)
    requires i < |blocks|
    ensures exists j :: OccursAt(RootText(blocks), LineText(blocks[i]), j)
    ensures blocks[i].Toggle? ==> exists j :: OccursAt(RootText(blocks), blocks[i].body, j)
  {
    var b := blocks[i];
    var t := TextContent(b);
    BlockInRoot(blocks, i);
    var k :| OccursAt(RootText(blocks), t, k);
    assert OccursAt(t, LineText(b), 0);
    Nested(RootText(blocks), t, LineText(b), k, 0);
    if b.Toggle? {
      assert OccursAt(t, b.body, |b.summary|);
      Nested(RootText(blocks), t, b.body, k, |b.summary|);
    }
  }

  /** The prefix table, in the order the handler tests it. */
  const Table: seq<(string, Kind)> := [
    ("\\h1 ", Heading1), ("\\h2 ", Heading2), ("\\h3 ", Heading3), ("\\toggle ", ToggleList),
    ("\\bulletpoint ", BulletItem), ("\\code ", CodeBlock), ("\\quote ", BlockQuote)
  ]

  /** The index of the first table entry whose prefix starts `line`. */
  function FirstMatch(table: seq<(string, Kind)>, line: string): (r: Option<nat>)
    ensures r.Some? ==> r.value < |table| && StartsWith(line, table[r.value].0)
    ensures r.Some? ==> forall j :: 0 <= j < r.value ==> !StartsWith(line, table[j].0)
    ensures r.None? <==> forall j :: 0 <= j < |table| ==> !StartsWith(line, table[j].0)
  {
    if table == [] then None
    else if StartsWith(line, table[0].0) then Some(0)
    else match FirstMatch(table[1..], line)
      case None => None
      case Some(i) => Some(i + 1)
  }

  /** A recognised shortcut: the kind to build and the rest of the line. */
  datatype Shortcut = Shortcut(kind: Kind, rest: string)

  /** The chain of `line.startsWith(...)` tests; the rest of the line is
      `line.substring(prefix.length)`. */
  function MatchShortcut(line: string): (r: Option<Shortcut>)
    ensures r.Some? <==> exists j :: 0 <= j < |Table| && StartsWith(line, Table[j].0)
    ensures r.Some? ==> exists j :: 0 <= j < |Table| && StartsWith(line, Table[j].0)
                          && r.value == Shortcut(Table[j].1, line[|Table[j].0|..])
  {
    match FirstMatch(Table, line)
    case None => None
    case Some(i) => Some(Shortcut(Table[i].1, line[|Table[i].0|..]))
  }

  /** The second and third characters of each prefix tell the entries apart. */
  lemma {:induction false} TagsDistinct(i: nat, j: nat)
    requires i < |Table| && j < |Table| && i != j
    ensures |Table[i].0| >= 4 && |Table[j].0| >= 4
    ensures Table[i].0[1..3] != Table[j].0[1..3]
  {
    assert Table[0].0[1..3] == "h1" && Table[1].0[1..3] == "h2" && Table[2].0[1..3] == "h3";
    assert Table[3].0[1..3] == "to" && Table[4].0[1..3] == "bu" && Table[5].0[1..3] == "co";
    assert Table[6].0[1..3] == "qu";
  }

  /** No prefix of the table starts another, so at most one can match a line and
      the order of the tests does not matter. */
  lemma PrefixesExclusive(line: string, i: nat, j: nat)
    requires i < |Table| && j < |Table| && i != j
    ensures !(StartsWith(line, Table[i].0) && StartsWith(line, Table[j].0))
  {
    TagsDistinct(i, j);
  }

  /** Whichever prefix starts the line decides the shortcut, and the rest of
      the line is the line less exactly that prefix. */
  lemma MatchShortcutByPrefix(line: string, j: nat)
    requires j < |Table| && StartsWith(line, Table[j].0)
    ensures MatchShortcut(line) == Some(Shortcut(Table[j].1, line[|Table[j].0|..]))
    ensures line == Table[j].0 + MatchShortcut(line).value.rest
  {
    var i := FirstMatch(Table, line).value;
    if i != j {
      PrefixesExclusive(line, i, j);
    }
  }

  /** The prefix lengths the handler strips: 4, 4, 4, 8, 13, 6 and 7. */
  lemma PrefixLengths()
    ensures |Table| == 7
    ensures |Table[0].0| == 4 && |Table[1].0| == 4 && |Table[2].0| == 4 && |Table[3].0| == 8
    ensures |Table[4].0| == 13 && |Table[5].0| == 6 && |Table[6].0| == 7
  {
  }

  /** A prefix without its trailing space is no shortcut: Enter is not intercepted. */
  lemma NoSpaceNoShortcut()
    ensures MatchShortcut("\\h1Title") == None
    ensures MatchShortcut("\\h1 Title") == Some(Shortcut(Heading1, "Title"))
  {
    var line := "\\h1Title";
    forall j | 0 <= j < |Table| ensures !StartsWith(line, Table[j].0) {
      if j != 0 {
        TagsDistinct(0, j);
        assert Table[0].0[1..3] == line[1..3];
      } else {
        assert line[3] != Table[0].0[3];
      }
    }
    MatchShortcutByPrefix("\\h1 Title", 0);
  }

  /** The rest of a line may itself start with a prefix, so a transformed
      block's text can trigger a transform again. */
  lemma TransformCanRefire()
    ensures MatchShortcut("\\h1 \\h1 x") == Some(Shortcut(Heading1, "\\h1 x"))
    ensures MatchShortcut("\\h1 x").Some?
  {
    MatchShortcutByPrefix("\\h1 \\h1 x", 0);
    MatchShortcutByPrefix("\\h1 x", 0);
  }

  /** The element a shortcut builds (its summary, for a toggle, whose body is one empty line). */
  function Build(s: Shortcut): (b: Block)
    ensures KindOf(b) == Some(s.kind)
    ensures LineText(b) == s.rest
    ensures b.Toggle? ==> b.body == []
  {
    match s.kind
    case Heading1 => H1(s.rest)
    case Heading2 => H2(s.rest)
    case Heading3 => H3(s.rest)
    case ToggleList => Toggle(s.rest, [])
    case BulletItem => Bullet(s.rest)
    case CodeBlock => Code(s.rest)
    case BlockQuote => Quote(s.rest)
  }

  /** Where the selection's anchor sits: in the first line of a top-level block,
      in a toggle's body, or on the editor element itself. */
  datatype Cursor = At(index: nat) | InToggleBody(index: nat) | AtRoot

  /** The editor element's children and the caret. */
  class Body {
    var blocks: seq<Block>
    var cursor: Cursor

    ghost predicate Valid()
      reads this
    {
      match cursor
      case At(i) => i < |blocks|
      case InToggleBody(i) => i < |blocks| && blocks[i].Toggle?
      case AtRoot => true
    }

    /** The editor element as the browser has left it. */
    constructor (blocks: seq<Block>, cursor: Cursor)
      requires cursor.At? || cursor.InToggleBody? ==> cursor.index < |blocks|
      requires cursor.InToggleBody? ==> blocks[cursor.index].Toggle?
      ensures Valid() && this.blocks == blocks && this.cursor == cursor
    {
      this.blocks := blocks;
      this.cursor := cursor;
    }

    /** `selection.anchorNode.textContent`. */
    function AnchorText(): (r: string)
      reads this
      requires Valid()
      ensures exists j :: OccursAt(RootText(blocks), r, j)
    {
      match cursor
      case At(i) => PartsInRoot(blocks, i); LineText(blocks[i])
      case InToggleBody(i) => PartsInRoot(blocks, i); blocks[i].body
      case AtRoot => assert OccursAt(RootText(blocks), RootText(blocks), 0); RootText(blocks)
    }

    /** Enter: on a recognised prefix the default is prevented; the top-level
        block holding the caret is replaced in place, one empty line is appended at
        the END of the editor, and the caret moves to that line (into the toggle's
        body for a toggle). With the anchor on the editor element itself the walk up
        to a top-level child fails: the default is prevented and nothing changes. */
    method Enter() returns (prevented: bool, transformed: bool)
      requires Valid()
      modifies this
      ensures Valid()
      ensures prevented <==> MatchShortcut(old(AnchorText())).Some?
      ensures transformed <==> prevented && !old(cursor).AtRoot?
      ensures !transformed ==> blocks == old(blocks) && cursor == old(cursor)
      ensures transformed ==>
        var s := MatchShortcut(old(AnchorText())).value;
        var i := old(cursor).index;
        && blocks == old(blocks)[i := Build(s)] + [Div([])]
        && cursor == (if s.kind == ToggleList then InToggleBody(i) else At(|old(blocks)|))
    {
      var m := MatchShortcut(AnchorText());
      prevented := m.Some?;
      transformed := false;
      if m.Some? && !cursor.AtRoot? {
        var i := cursor.index;
        var built := Build(m.value);
        blocks := blocks[i := built] + [Div([])];
        if m.value.kind == ToggleList {
          cursor := InToggleBody(i);
        } else {
          cursor := At(|blocks| - 1);
        }
        transformed := true;
      }
    }
  }
}
