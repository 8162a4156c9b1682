/**
 * The editor screen of components/editor.tsx as a state machine: its React
 * state and its three debounce timers (metrics, save, selection) are fields, and
 * every handler is a method. What a handler reads from the page at the moment it
 * runs (the editor's innerHTML and innerText, the window selection) arrives as a
 * `Page` parameter; the clock arrives as `now`, in milliseconds.
 */
module Session {
  import opened Options
  import opened Text
  import Metrics
  import Shortcuts
  import FindReplace
  import Storage

  const DefaultTitle: string := "Untitled Document"
  const DefaultFont: string := "Inter, -apple-system, BlinkMacSystemFont, \"Segoe UI\", Roboto, \"Helvetica Neue\", Arial, sans-serif"

  /** Debounce delays in milliseconds. */
  const MetricsDelay: nat := 300
  const InputSaveDelay: nat := 5000
  const FontSaveDelay: nat := 2000
  const SelectionDelay: nat := 200

  /** What a handler reads from the page when it runs. */
  datatype Page = Page(html: string, text: string, collapsed: bool, selected: string)

  // ---------------------------------------------------------------------------
  // Keyboard dispatch

  /** The ctrl/meta shortcuts. */
  datatype Action = SaveNow | Format(command: string) | OpenFind | OpenLink | ToggleFocus

  /** The `switch (e.key.toLowerCase())` under ctrl or meta. */
  function KeyAction(ctrl: bool, meta: bool, key: string): (a: Option<Action>)
    ensures a.Some? ==> ctrl || meta
  {
    if !(ctrl || meta) then None
    else
      var k := Lower(key);
      if k == "s" then Some(SaveNow)
      else if k == "b" then Some(Format("bold"))
      else if k == "i" then Some(Format("italic"))
      else if k == "u" then Some(Format("underline"))
      else if k == "f" then Some(OpenFind)
      else if k == "l" then Some(OpenLink)
      else if k == "e" then Some(ToggleFocus)
      else None
  }

  /** A shortcut fires exactly for one of the seven letters, in either case,
      under ctrl or meta. */
  lemma KeyActionSpec(ctrl: bool, meta: bool, key: string)
    ensures KeyAction(ctrl, meta, key).Some? <==>
      (ctrl || meta) && |key| == 1 && Fold(key[0]) in "sbiufle"
    ensures KeyAction(ctrl, meta, key) == KeyAction(ctrl, meta, Lower(key))
  {
    LowerIdempotent(key);
    if |key| == 1 {
      assert Lower(key) == [Fold(key[0])];
    }
  }

  /** The keys that re-arm the metrics timer. None of them is a ctrl/meta
      shortcut, so Enter always reaches the shortcut transformer. */
  function RearmsMetrics(key: string): (b: bool)
    ensures b ==> forall ctrl, meta :: KeyAction(ctrl, meta, key) == None
  {
    assert Lower(" ") == " " by { assert Lower(" ")[0] == Fold(' '); }
    assert |Lower("Enter")| == 5 && |Lower("Backspace")| == 9 && |Lower("Delete")| == 6;
    key == "Enter" || key == " " || key == "Backspace" || key == "Delete"
  }

  // ---------------------------------------------------------------------------
  // Link builder

  /** The attributes and the end of the opening tag of an inserted link. */
  const LinkAttributes: string := " target=\"_blank\" rel=\"noopener noreferrer\" class=\"text-primary underline\">"

  /** The anchor `insertLink` inserts: the URL as the target, the link text as
      the visible text, or the URL again when the text is empty. */
  function LinkHtml(url: string, text: string): (html: string)
    ensures StartsWith(html, "<a href=\"" + url + "\"")
    ensures var shown := if text == [] then url else text;
      |shown| + 4 <= |html| && html[|html| - |shown| - 4..] == shown + "</a>"
  {
    var shown := if text == [] then url else text;
    var open := "<a href=\"" + url + "\"";
    var head := open + LinkAttributes;
    var tail := shown + "</a>";
    assert (head + tail)[..|open|] == head[..|open|] == open;
    assert (head + tail)[|head + tail| - |tail|..] == tail;
    head + tail
  }

  /** Without link text the URL is shown. */
  lemma LinkTextDefaultsToUrl(url: string)
    ensures LinkHtml(url, "") == LinkHtml(url, url)
  {
  }

  // ---------------------------------------------------------------------------
  // The save channel

  /** What happens to the pending autosave: an `input` event re-arms it at
      5000 ms, a font change at 2000 ms, a title change cancels it (the effect's
      cleanup), and the clock fires it once its deadline has passed. */
  datatype SaveEvent = Input(at: nat) | FontChange(at: nat) | TitleChange | Clock(now: nat)

  /** The new pending deadline, and whether a save fired. */
  function SaveStep(pending: Option<nat>, e: SaveEvent): (r: (Option<nat>, bool))
    ensures r.1 ==> pending.Some? && r.0 == None
    ensures e.Input? ==> r.0 == Some(e.at + InputSaveDelay) && !r.1
  {
    match e
    case Input(t) => (Some(t + InputSaveDelay), false)
    case FontChange(t) => (Some(t + FontSaveDelay), false)
    case TitleChange => (None, false)
    case Clock(now) => if pending.Some? && pending.value <= now then (None, true) else (pending, false)
  }

  /** Runs a sequence of events; the final pending deadline and the number of
      saves fired. */
  function SaveRun(pending: Option<nat>, events: seq<SaveEvent>): (nat, Option<nat>)
    decreases |events|
  {
    if events == [] then (0, pending)
    else
      var (p, fired) := SaveStep(pending, events[0]);
      var (n, last) := SaveRun(p, events[1..]);
      ((if fired then 1 else 0) + n, last)
  }

  /** A stretch of typing after an input at `last`: more inputs, and clock
      readings each less than 5000 ms after the latest input. */
  predicate Typing(events: seq<SaveEvent>, last: nat)
    decreases |events|
  {
    events == [] ||
    match events[0]
    case Input(t) => last <= t && Typing(events[1..], t)
    case Clock(n) => n < last + InputSaveDelay && Typing(events[1..], last)
    case _ => false
  }

  /** The time of the latest input of such a stretch. */
  function LastInput(events: seq<SaveEvent>, last: nat): nat
    decreases |events|
  {
    if events == [] then last
    else if events[0].Input? then LastInput(events[1..], events[0].at)
    else LastInput(events[1..], last)
  }

  lemma {:induction false} TypingDefersSave(events: seq<SaveEvent>, last: nat)
    requires Typing(events, last)
    ensures SaveRun(Some(last + InputSaveDelay), events) == (0, Some(LastInput(events, last) + InputSaveDelay))
    decreases |events|
  {
    if events != [] {
      match events[0]
      case Input(t) => TypingDefersSave(events[1..], t);
      case Clock(n) => TypingDefersSave(events[1..], last);
    }
  }

  /** A burst of typing saves once: nothing fires while the inputs keep coming
      less than 5000 ms apart, and exactly one save fires once the clock passes
      5000 ms after the last of them. */
  lemma BurstSavesOnce(pending: Option<nat>, first: nat, events: seq<SaveEvent>, now: nat)
    requires Typing(events, first)
    requires now >= LastInput(events, first) + InputSaveDelay
    ensures SaveRun(pending, [Input(first)] + events + [Clock(now)]) == (1, None)
  {
    TypingDefersSave(events, first);
    SaveRunAppend(Some(first + InputSaveDelay), events, [Clock(now)]);
    assert ([Input(first)] + events + [Clock(now)])[1..] == events + [Clock(now)];
  }

  lemma {:induction false} SaveRunAppend(pending: Option<nat>, a: seq<SaveEvent>, b: seq<SaveEvent>)
    ensures SaveRun(pending, a + b) ==
      (SaveRun(pending, a).0 + SaveRun(SaveRun(pending, a).1, b).0, SaveRun(SaveRun(pending, a).1, b).1)
    decreases |a|
  {
    if a == [] {
      assert a + b == b;
    } else {
      assert (a + b)[0] == a[0];
      assert (a + b)[1..] == a[1..] + b;
      SaveRunAppend(SaveStep(pending, a[0]).0, a[1..], b);
    }
  }

  // ---------------------------------------------------------------------------
  // The metrics channel

  /** `onInput` arms a first timer whose callback is `updateCountsDebounced`,
      which arms the timer that computes the figures. */
  datatype MetricsStep = Rearm | Compute
  datatype MetricsTimer = MetricsTimer(due: nat, step: MetricsStep)

  /** The metrics timer after a clock reading, and whether the figures were
      computed. */
  function MetricsTick(pending: Option<MetricsTimer>, now: nat): (r: (Option<MetricsTimer>, bool))
    ensures r.1 <==> pending.Some? && pending.value.due <= now && pending.value.step == Compute
  {
    match pending
    case None => (None, false)
    case Some(t) =>
      if now < t.due then (pending, false)
      else if t.step.Rearm? then (Some(MetricsTimer(now + MetricsDelay, Compute)), false)
      else (None, true)
  }

  /** After typing at `t`, the figures are computed no earlier than 600 ms later:
      the first clock reading past `t + 300` only re-arms, and the second computes
      exactly when it is 300 ms past the first. */
  lemma TypingMetricsDelay(t: nat, n1: nat, n2: nat)
    requires n1 >= t + MetricsDelay
    ensures !MetricsTick(Some(MetricsTimer(t + MetricsDelay, Rearm)), n1).1
    ensures MetricsTick(MetricsTick(Some(MetricsTimer(t + MetricsDelay, Rearm)), n1).0, n2).1 <==>
      n2 >= n1 + MetricsDelay
    ensures n2 >= n1 + MetricsDelay ==> n2 >= t + 2 * MetricsDelay
  {
  }

  // ---------------------------------------------------------------------------
  // Save policy

  /** What `handleSave` does: open the title dialog, or write a document. */
  datatype SaveOutcome = AskTitle | Write(id: Option<string>, title: string, content: string, font: Option<string>)

  function SaveDecision(showDialog: bool, documentId: Option<string>, title: string, html: string, font: string): (o: SaveOutcome)
    ensures o.AskTitle? <==> showDialog && title == DefaultTitle
    ensures o.Write? ==> o.id == documentId && o.title == title && o.content == html && o.font == Some(font)
  {
    if showDialog && title == DefaultTitle then AskTitle
    else Write(documentId, title, html, Some(font))
  }

  /** A due autosave: skipped for blank content, otherwise a save without the
      dialog. */
  function AutoSave(documentId: Option<string>, title: string, html: string, font: string): (o: Option<SaveOutcome>)
    ensures o.Some? <==> Trim(html) != []
    ensures o.Some? ==> o.value.Write?
  {
    if Trim(html) != [] then Some(SaveDecision(false, documentId, title, html, font)) else None
  }

  /** The three clock readings a save takes: the id of a new document and the
      file's time stamp (both inside `saveDocument`), then the time shown as
      "last saved", read once the write has finished. */
  datatype SaveTimes = SaveTimes(id: nat, stamp: nat, done: nat)

  /** A new document keeps no id between saves: two saves at different times
      write two different files. An opened document always writes its own. */
  lemma NewSessionSavesAreDistinct(documentId: Option<string>, a: nat, b: nat)
    ensures (documentId == None || documentId == Some([])) && a != b ==>
      Storage.FileName(Storage.SaveId(documentId, a)) != Storage.FileName(Storage.SaveId(documentId, b))
    ensures documentId.Some? && documentId.value != [] ==>
      Storage.FileName(Storage.SaveId(documentId, a)) == Storage.FileName(documentId.value)
  {
    Storage.ClockIdInjective(a, b);
    Storage.FileNameInjective(Storage.SaveId(documentId, a), Storage.SaveId(documentId, b));
  }

  // ---------------------------------------------------------------------------
  // The editor

  /** Editing commands handed to the browser, recorded by name. */
  datatype Command = Exec(name: string) | InsertHtml(html: string) | FontName(font: string)

  class Editor {
    const documentId: Option<string>
    const store: Storage.Store
    const body: Shortcuts.Body
    const finder: FindReplace.Finder

    var title: string
    var font: string
    var lastSaved: Option<int>
    var counts: Metrics.Counts
    var detail: Metrics.Detail
    var statsExpanded: bool
    var selectedStats: Option<Metrics.SelectionCounts>
    var metricsTimer: Option<MetricsTimer>
    var saveTimer: Option<nat>
    var selectionTimer: Option<nat>
    var saveDialogOpen: bool
    var linkDialogOpen: bool
    var findReplaceOpen: bool
    var focusMode: bool
    var linkUrl: string
    var linkText: string
    var commands: seq<Command>

    ghost predicate Valid()
      reads this, body, finder
    {
      body.Valid() && finder.Valid()
    }

    constructor (documentId: Option<string>, store: Storage.Store, body: Shortcuts.Body, finder: FindReplace.Finder)
      requires body.Valid() && finder.Valid()
      ensures Valid()
      ensures this.documentId == documentId && this.store == store && this.body == body && this.finder == finder
      ensures title == DefaultTitle && font == DefaultFont && lastSaved == None
      ensures metricsTimer == None && saveTimer == None && selectionTimer == None
      ensures !statsExpanded && selectedStats == None && commands == []
    {
      this.documentId, this.store, this.body, this.finder := documentId, store, body, finder;
      title, font, lastSaved := DefaultTitle, DefaultFont, None;
      counts, detail := Metrics.Counts(0, 0, 0), Metrics.Detail(0, 0, 0, 0);
      statsExpanded, selectedStats := false, None;
      metricsTimer, saveTimer, selectionTimer := None, None, None;
      saveDialogOpen, linkDialogOpen, findReplaceOpen, focusMode := false, false, false, false;
      linkUrl, linkText, commands := [], [], [];
    }

    /** `updateCountsDebounced`: (re)arms the computing timer, cancelling the
        pending one. */
    method ArmMetrics(now: nat)
      modifies this`metricsTimer
      ensures metricsTimer == Some(MetricsTimer(now + MetricsDelay, Compute))
    {
      metricsTimer := Some(MetricsTimer(now + MetricsDelay, Compute));
    }

    /** `loadDocument`: for a present, non-empty id whose document reads back,
        take its title (through the title input, so a changed title cancels the
        pending save), last-modified time and (non-empty) font, show its content
        and arm the metrics; otherwise change nothing. */
    method Load(now: nat) returns (shown: Option<string>)
      modifies this`title, this`font, this`lastSaved, this`metricsTimer, this`saveTimer
      ensures var doc := if documentId.Some? && documentId.value != [] then Storage.GetDocument(store.files, documentId.value) else None;
        && (doc.None? ==> shown == None && title == old(title) && font == old(font) && lastSaved == old(lastSaved)
                          && metricsTimer == old(metricsTimer) && saveTimer == old(saveTimer))
        && (doc.Some? ==>
              && shown == Some(doc.value.content)
              && title == doc.value.title
              && saveTimer == (if doc.value.title != old(title) then SaveStep(old(saveTimer), TitleChange).0 else old(saveTimer))
              && lastSaved == Some(doc.value.lastModified)
              && metricsTimer == Some(MetricsTimer(now + MetricsDelay, Compute))
              && font == (if doc.value.fontFamily.Some? && doc.value.fontFamily.value != [] then doc.value.fontFamily.value else old(font)))
    {
      shown := None;
      if documentId.Some? && documentId.value != [] {
        var doc := Storage.GetDocument(store.files, documentId.value);
        if doc.Some? {
          SetTitle(doc.value.title);
          shown := Some(doc.value.content);
          ArmMetrics(now);
          lastSaved := Some(doc.value.lastModified);
          if doc.value.fontFamily.Some? && doc.value.fontFamily.value != [] {
            font := doc.value.fontFamily.value;
          }
        }
      }
    }

    /** An `input` event: the React handler arms the metrics timer with a
        re-arming step, and the autosave listener re-arms the save at 5000 ms. */
    method OnInput(now: nat)
      modifies this`metricsTimer, this`saveTimer
      ensures metricsTimer == Some(MetricsTimer(now + MetricsDelay, Rearm))
      ensures saveTimer == SaveStep(old(saveTimer), Input(now)).0
    {
      metricsTimer := Some(MetricsTimer(now + MetricsDelay, Rearm));
      saveTimer := SaveStep(saveTimer, Input(now)).0;
    }

    /** A `selectionchange` event re-arms the selection timer. */
    method SelectionChange(now: nat)
      modifies this`selectionTimer
      ensures selectionTimer == Some(now + SelectionDelay)
    {
      selectionTimer := Some(now + SelectionDelay);
    }

    /** The title input: a new title re-runs the autosave effect, whose cleanup
        cancels the pending save. */
    method SetTitle(t: string)
      modifies this`title, this`saveTimer
      ensures title == t
      ensures saveTimer == (if t != old(title) then SaveStep(old(saveTimer), TitleChange).0 else old(saveTimer))
    {
      if t != title {
        saveTimer := SaveStep(saveTimer, TitleChange).0;
      }
      title := t;
    }

    /** `handleSave`: with the dialog asked for and the default title, open the
        dialog and write nothing; otherwise write the page's content with the
        session's id, title and font, and record when the write finished. */
    method HandleSave(showDialog: bool, page: Page, times: SaveTimes)
      modifies this`saveDialogOpen, this`lastSaved, store
      ensures match SaveDecision(showDialog, documentId, title, page.html, font)
        case AskTitle =>
          saveDialogOpen && store.files == old(store.files) && lastSaved == old(lastSaved)
        case Write(id, t, content, f) =>
          && store.files == Storage.AfterSave(old(store.files), id, t, content, f, times.id, times.stamp)
          && lastSaved == Some(times.done) && saveDialogOpen == old(saveDialogOpen)
    {
      var decision := SaveDecision(showDialog, documentId, title, page.html, font);
      if decision.AskTitle? {
        saveDialogOpen := true;
        return;
      }
      var _ := store.SaveDocument(decision.id, decision.title, decision.content, decision.font, times.id, times.stamp);
      lastSaved := Some(times.done);
    }

    /** The dialog's Save button: close it and save without asking again. */
    method ConfirmSaveDialog(page: Page, times: SaveTimes)
      modifies this`saveDialogOpen, this`lastSaved, store
      ensures !saveDialogOpen && lastSaved == Some(times.done)
      ensures store.files == Storage.AfterSave(old(store.files), documentId, title, page.html, Some(font), times.id, times.stamp)
    {
      saveDialogOpen := false;
      HandleSave(false, page, times);
    }

    /** `formatText`: hand the command to the browser and re-arm the metrics. */
    method FormatText(command: string, now: nat)
      modifies this`commands, this`metricsTimer
      ensures commands == old(commands) + [Exec(command)]
      ensures metricsTimer == Some(MetricsTimer(now + MetricsDelay, Compute))
    {
      commands := commands + [Exec(command)];
      ArmMetrics(now);
    }

    /** The link dialog's inputs. */
    method EditLink(url: string, text: string)
      modifies this`linkUrl, this`linkText
      ensures linkUrl == url && linkText == text
    {
      linkUrl, linkText := url, text;
    }

    /** `insertLink`: nothing for a blank URL; otherwise insert the anchor, clear
        both fields, close the dialog and re-arm the metrics. */
    method InsertLink(now: nat)
      modifies this`commands, this`linkUrl, this`linkText, this`linkDialogOpen, this`metricsTimer
      ensures Trim(old(linkUrl)) == [] ==>
        commands == old(commands) && linkUrl == old(linkUrl) && linkText == old(linkText)
        && linkDialogOpen == old(linkDialogOpen) && metricsTimer == old(metricsTimer)
      ensures Trim(old(linkUrl)) != [] ==>
        && commands == old(commands) + [InsertHtml(LinkHtml(old(linkUrl), old(linkText)))]
        && linkUrl == [] && linkText == [] && !linkDialogOpen
        && metricsTimer == Some(MetricsTimer(now + MetricsDelay, Compute))
    {
      if Trim(linkUrl) == [] {
        return;
      }
      var html := LinkHtml(linkUrl, linkText);
      linkUrl, linkText := [], [];
      linkDialogOpen := false;
      ArmMetrics(now);
      commands := commands + [InsertHtml(html)];
    }

    /** `changeFont`: adopt the font (styling a non-empty selection through the
        browser), and re-arm the save at 2000 ms. */
    method ChangeFont(f: string, page: Page, now: nat)
      modifies this`font, this`commands, this`saveTimer
      ensures font == f
      ensures commands == old(commands) + (if page.collapsed then [] else [FontName(f)])
      ensures saveTimer == SaveStep(old(saveTimer), FontChange(now)).0
    {
      font := f;
      if !page.collapsed {
        commands := commands + [FontName(f)];
      }
      saveTimer := SaveStep(saveTimer, FontChange(now)).0;
    }

    /** The word-count panel: toggle the detail, and re-arm the metrics when
        opening it. */
    method ToggleStats(now: nat)
      modifies this`statsExpanded, this`metricsTimer
      ensures statsExpanded == !old(statsExpanded)
      ensures metricsTimer == (if old(statsExpanded) then old(metricsTimer) else Some(MetricsTimer(now + MetricsDelay, Compute)))
    {
      var wasExpanded := statsExpanded;
      statsExpanded := !statsExpanded;
      if !wasExpanded {
        ArmMetrics(now);
      }
    }

    /** `replaceAll` on the editor's content, then the metrics re-armed. */
    method ReplaceAll(q: string, r: string, now: nat)
      requires Valid()
      modifies this`metricsTimer, finder
      ensures Valid()
      ensures q != [] && r != [] ==>
        finder.text == FindReplace.ReplaceAllAsWritten(old(finder.text), q, r)
        && metricsTimer == Some(MetricsTimer(now + MetricsDelay, Compute))
      ensures q == [] || r == [] ==> finder.text == old(finder.text) && metricsTimer == old(metricsTimer)
    {
      var ran := finder.ReplaceAll(q, r);
      if ran {
        ArmMetrics(now);
      }
    }

    /** `processKeyDown`: Enter, Space, Backspace and Delete re-arm the metrics;
        a ctrl/meta shortcut runs its action; otherwise Enter goes to the
        shortcut transformer, which re-arms the metrics when it rewrites the body.
        Returns whether the default action was prevented; `times` are the clock
        readings of a save the key may trigger. */
    method KeyDown(ctrl: bool, meta: bool, key: string, page: Page, now: nat, times: SaveTimes) returns (prevented: bool)
      requires Valid()
      modifies this`metricsTimer, this`saveDialogOpen, this`lastSaved, this`commands
      modifies this`findReplaceOpen, this`linkDialogOpen, this`focusMode, body, store
      ensures Valid()
      // a shortcut is always prevented and leaves the body alone
      ensures KeyAction(ctrl, meta, key).Some? ==>
        prevented && body.blocks == old(body.blocks) && body.cursor == old(body.cursor)
      // ctrl/meta+S saves as `handleSave(true)` does
      ensures KeyAction(ctrl, meta, key) == Some(SaveNow) ==>
        match SaveDecision(true, documentId, title, page.html, font)
        case AskTitle =>
          saveDialogOpen && store.files == old(store.files) && lastSaved == old(lastSaved)
        case Write(id, t, content, f) =>
          && store.files == Storage.AfterSave(old(store.files), id, t, content, f, times.id, times.stamp)
          && lastSaved == Some(times.done) && saveDialogOpen == old(saveDialogOpen)
      ensures KeyAction(ctrl, meta, key) != Some(SaveNow) ==>
        store.files == old(store.files) && saveDialogOpen == old(saveDialogOpen) && lastSaved == old(lastSaved)
      ensures commands == (if KeyAction(ctrl, meta, key).Some? && KeyAction(ctrl, meta, key).value.Format?
                           then old(commands) + [Exec(KeyAction(ctrl, meta, key).value.command)] else old(commands))
      ensures findReplaceOpen == (KeyAction(ctrl, meta, key) == Some(OpenFind) || old(findReplaceOpen))
      ensures linkDialogOpen == (KeyAction(ctrl, meta, key) == Some(OpenLink) || old(linkDialogOpen))
      ensures focusMode == (if KeyAction(ctrl, meta, key) == Some(ToggleFocus) then !old(focusMode) else old(focusMode))
      // any other key but Enter goes to the browser
      ensures KeyAction(ctrl, meta, key) == None && key != "Enter" ==>
        !prevented && body.blocks == old(body.blocks) && body.cursor == old(body.cursor)
      // Enter goes to the shortcut transformer
      ensures KeyAction(ctrl, meta, key) == None && key == "Enter" ==>
        var m := Shortcuts.MatchShortcut(old(body.AnchorText()));
        && prevented == m.Some?
        && (m.Some? && !old(body.cursor).AtRoot? ==>
              var i := old(body.cursor).index;
              && body.blocks == old(body.blocks)[i := Shortcuts.Build(m.value)] + [Shortcuts.Div([])]
              && body.cursor == (if m.value.kind == Shortcuts.ToggleList then Shortcuts.InToggleBody(i)
                                 else Shortcuts.At(|old(body.blocks)|)))
        && (!(m.Some? && !old(body.cursor).AtRoot?) ==>
              body.blocks == old(body.blocks) && body.cursor == old(body.cursor))
      ensures metricsTimer == (if RearmsMetrics(key) || (KeyAction(ctrl, meta, key).Some? && KeyAction(ctrl, meta, key).value.Format?)
                               then Some(MetricsTimer(now + MetricsDelay, Compute)) else old(metricsTimer))
    {
      if RearmsMetrics(key) {
        ArmMetrics(now);
      }
      var action := KeyAction(ctrl, meta, key);
      if action.Some? {
        prevented := true;
        RunAction(action.value, page, now, times);
        return;
      }
      prevented := false;
      if key == "Enter" {
        prevented := EnterKey(now);
      }
    }

    /** A ctrl/meta shortcut's action: save as `handleSave(true)` does, format
        (re-arming the metrics), open a dialog or toggle focus mode. */
    method RunAction(a: Action, page: Page, now: nat, times: SaveTimes)
      modifies this`metricsTimer, this`saveDialogOpen, this`lastSaved, this`commands
      modifies this`findReplaceOpen, this`linkDialogOpen, this`focusMode, store
      ensures a == SaveNow ==>
        match SaveDecision(true, documentId, title, page.html, font)
        case AskTitle =>
          saveDialogOpen && store.files == old(store.files) && lastSaved == old(lastSaved)
        case Write(id, t, content, f) =>
          && store.files == Storage.AfterSave(old(store.files), id, t, content, f, times.id, times.stamp)
          && lastSaved == Some(times.done) && saveDialogOpen == old(saveDialogOpen)
      ensures a != SaveNow ==>
        store.files == old(store.files) && saveDialogOpen == old(saveDialogOpen) && lastSaved == old(lastSaved)
      ensures commands == if a.Format? then old(commands) + [Exec(a.command)] else old(commands)
      ensures metricsTimer == if a.Format? then Some(MetricsTimer(now + MetricsDelay, Compute)) else old(metricsTimer)
      ensures findReplaceOpen == (a == OpenFind || old(findReplaceOpen))
      ensures linkDialogOpen == (a == OpenLink || old(linkDialogOpen))
      ensures focusMode == (if a == ToggleFocus then !old(focusMode) else old(focusMode))
    {
      match a {
        case SaveNow => HandleSave(true, page, times);
        case Format(c) => FormatText(c, now);
        case OpenFind => findReplaceOpen := true;
        case OpenLink => linkDialogOpen := true;
        case ToggleFocus => focusMode := !focusMode;
      }
    }

    /** Enter with no shortcut: the shortcut transformer rewrites the body when
        the anchor text matches, and the metrics are re-armed when it does. */
    method EnterKey(now: nat) returns (prevented: bool)
      requires Valid()
      modifies this`metricsTimer, body
      ensures Valid()
      ensures var m := Shortcuts.MatchShortcut(old(body.AnchorText()));
        && prevented == m.Some?
        && (m.Some? && !old(body.cursor).AtRoot? ==>
              var i := old(body.cursor).index;
              && body.blocks == old(body.blocks)[i := Shortcuts.Build(m.value)] + [Shortcuts.Div([])]
              && body.cursor == (if m.value.kind == Shortcuts.ToggleList then Shortcuts.InToggleBody(i)
                                 else Shortcuts.At(|old(body.blocks)|))
              && metricsTimer == Some(MetricsTimer(now + MetricsDelay, Compute)))
        && (!(m.Some? && !old(body.cursor).AtRoot?) ==>
              body.blocks == old(body.blocks) && body.cursor == old(body.cursor)
              && metricsTimer == old(metricsTimer))
    {
      var transformed;
      prevented, transformed := body.Enter();
      if transformed {
        ArmMetrics(now);
      }
    }

    /** The metrics timer at `now`: re-arm, or compute the figures from the
        page's text (the detail only while the panel is open). */
    method FireMetrics(page: Page, now: nat)
      modifies this`metricsTimer, this`counts, this`detail
      ensures metricsTimer == MetricsTick(old(metricsTimer), now).0
      ensures counts == if MetricsTick(old(metricsTimer), now).1 then Metrics.CountsOf(page.text) else old(counts)
      ensures detail == if MetricsTick(old(metricsTimer), now).1 && statsExpanded then Metrics.DetailOf(page.text) else old(detail)
    {
      var step := MetricsTick(metricsTimer, now);
      metricsTimer := step.0;
      if step.1 {
        counts := Metrics.CountsOf(page.text);
        RefreshDetail(page.text);
      }
    }

    /** The detailed figures, recomputed only while the panel is expanded. */
    method RefreshDetail(text: string)
      modifies this`detail
      ensures detail == if statsExpanded then Metrics.DetailOf(text) else old(detail)
    {
      if statsExpanded {
        detail := Metrics.DetailOf(text);
      }
    }

    /** The save timer at `now`: a due autosave writes unless the content is
        blank. */
    method FireSave(page: Page, now: nat, times: SaveTimes)
      modifies this`saveTimer, this`saveDialogOpen, this`lastSaved, store
      ensures saveTimer == SaveStep(old(saveTimer), Clock(now)).0
      ensures SaveStep(old(saveTimer), Clock(now)).1 && Trim(page.html) != [] ==>
        store.files == Storage.AfterSave(old(store.files), documentId, title, page.html, Some(font), times.id, times.stamp)
        && lastSaved == Some(times.done)
      ensures !(SaveStep(old(saveTimer), Clock(now)).1 && Trim(page.html) != []) ==>
        store.files == old(store.files) && lastSaved == old(lastSaved)
      ensures saveDialogOpen == old(saveDialogOpen)
    {
      var (pending, fires) := SaveStep(saveTimer, Clock(now));
      saveTimer := pending;
      if fires && Trim(page.html) != [] {
        HandleSave(false, page, times);
      }
    }

    /** The selection timer at `now`: refresh the selection figures. */
    method FireSelection(page: Page, now: nat)
      modifies this`selectionTimer, this`selectedStats
      ensures old(selectionTimer).Some? && old(selectionTimer).value <= now ==>
        selectionTimer == None && selectedStats == Metrics.SelectionStats(page.collapsed, page.selected)
      ensures !(old(selectionTimer).Some? && old(selectionTimer).value <= now) ==>
        selectionTimer == old(selectionTimer) && selectedStats == old(selectedStats)
    {
      if selectionTimer.Some? && selectionTimer.value <= now {
        selectionTimer := None;
        selectedStats := Metrics.SelectionStats(page.collapsed, page.selected);
      }
    }

    /** Leaving the editor runs the effects' cleanups: the pending save and
        selection timers are cancelled; the metrics timer is not. */
    method Close()
      modifies this`saveTimer, this`selectionTimer
      ensures saveTimer == None && selectionTimer == None
      ensures metricsTimer == old(metricsTimer)
    {
      saveTimer := None;
      selectionTimer := None;
    }
  }
}
