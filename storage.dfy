/**
 * The document store of app/actions.ts: one JSON file per document, named
 * after the document's id, in a single directory. The directory is a map from
 * file name to what the file holds; the clock and the directory listing order
 * are parameters.
 */
module Storage {
  import opened Options
  import opened Text

  /** A stored document; `fontFamily` is absent when the save passed none. */
  datatype DocumentData = DocumentData(
    id: string,
    title: string,
    content: string,
    lastModified: int,
    fontFamily: Option<string>)

  /** What a file in the directory holds: a parsed document, or text that
      `JSON.parse` rejects. */
  datatype FileContent = Json(doc: DocumentData) | Unparseable(raw: string)

  /** One entry of the document list. */
  datatype Summary = Summary(id: string, title: string, lastModified: int)

  type Directory = map<string, FileContent>

  const Extension: string := ".json"
  const UntitledTitle: string := "Untitled Document"

  /** `${id}.json`. */
  function FileName(id: string): (name: string)
    ensures EndsWith(name, Extension)
  {
    id + Extension
  }

  predicate EndsWith(s: string, suffix: string) {
    |suffix| <= |s| && s[|s| - |suffix|..] == suffix
  }

  /** Distinct ids never share a file. */
  lemma FileNameInjective(a: string, b: string)
    ensures FileName(a) == FileName(b) <==> a == b
  {
    if FileName(a) == FileName(b) {
      assert a == FileName(a)[..|a|];
      assert b == FileName(b)[..|b|];
    }
  }

  // ---------------------------------------------------------------------------
  // Clock ids: `Date.now().toString()`

  function DigitChar(d: nat): (c: char)
    requires d < 10
    ensures '0' <= c <= '9'
  {
    (d + '0' as int) as char
  }

  predicate AllDigits(s: string) {
    forall i :: 0 <= i < |s| ==> '0' <= s[i] <= '9'
  }

  /** The decimal numeral of `n`, without leading zeros. */
  function Decimal(n: nat): (s: string)
    ensures s != [] && AllDigits(s)
    ensures |s| > 1 ==> s[0] != '0'
  {
    if n < 10 then [DigitChar(n)] else Decimal(n / 10) + [DigitChar(n % 10)]
  }

  /** The value of a numeral. */
  function DecimalValue(s: string): nat
    requires AllDigits(s)
  {
    if s == [] then 0
    else DecimalValue(s[..|s| - 1]) * 10 + (s[|s| - 1] as int - '0' as int)
  }

  lemma {:induction false} DecimalRoundTrip(n: nat)
    ensures DecimalValue(Decimal(n)) == n
  {
    if n >= 10 {
      DecimalRoundTrip(n / 10);
      var s := Decimal(n);
      assert s[..|s| - 1] == Decimal(n / 10);
    }
  }

  /** Saves at different clock readings create different ids. */
  lemma ClockIdInjective(a: nat, b: nat)
    ensures Decimal(a) == Decimal(b) <==> a == b
  {
    if Decimal(a) == Decimal(b) {
      DecimalRoundTrip(a);
      DecimalRoundTrip(b);
    }
  }

  // ---------------------------------------------------------------------------
  // Reading

  /** `getDocument`: the parsed file of that id, or null when the file is
      missing or does not parse. */
  function GetDocument(files: Directory, id: string): (r: Option<DocumentData>)
    ensures r.Some? <==> FileName(id) in files && files[FileName(id)].Json?
    ensures r.Some? ==> files[FileName(id)] == Json(r.value)
  {
    var name := FileName(id);
    if name in files && files[name].Json? then Some(files[name].doc) else None
  }

  function SummaryOf(d: DocumentData): Summary {
    Summary(d.id, d.title, d.lastModified)
  }

  /** `listing` is what reading the directory returns: each file name once. */
  ghost predicate IsListing(files: Directory, listing: seq<string>) {
    && (forall n :: n in files <==> n in listing)
    && (forall i, j :: 0 <= i < j < |listing| ==> listing[i] != listing[j])
  }

  /** The listed `.json` files that parse, summarised, in listing order. */
  function Summaries(files: Directory, listing: seq<string>): (r: seq<Summary>)
    requires forall n :: n in listing ==> n in files
    ensures |r| <= |listing|
    ensures forall s :: s in r <==>
      exists i :: 0 <= i < |listing| && EndsWith(listing[i], Extension)
                  && files[listing[i]].Json? && SummaryOf(files[listing[i]].doc) == s
  {
    if listing == [] then []
    else
      var n := listing[|listing| - 1];
      var init := Summaries(files, listing[..|listing| - 1]);
      assert forall i :: 0 <= i < |listing| - 1 ==> listing[..|listing| - 1][i] == listing[i];
      if EndsWith(n, Extension) && files[n].Json? then init + [SummaryOf(files[n].doc)] else init
  }

  /** The positions in `listing` of the `.json` files that parse to a document
      summarised as `s`. */
  ghost function KeptWith(files: Directory, listing: seq<string>, s: Summary): set<int> {
    set i | 0 <= i < |listing| && listing[i] in files && EndsWith(listing[i], Extension)
            && files[listing[i]].Json? && SummaryOf(files[listing[i]].doc) == s
  }

  lemma KeptWithSnoc(files: Directory, listing: seq<string>, s: Summary)
    requires listing != []
    ensures var m := |listing| - 1; var n := listing[m];
      |KeptWith(files, listing, s)| == |KeptWith(files, listing[..m], s)|
        + (if n in files && EndsWith(n, Extension) && files[n].Json? && SummaryOf(files[n].doc) == s then 1 else 0)
  {
    var m := |listing| - 1;
    var n := listing[m];
    var a := KeptWith(files, listing[..m], s);
    if n in files && EndsWith(n, Extension) && files[n].Json? && SummaryOf(files[n].doc) == s {
      assert KeptWith(files, listing, s) == a + {m};
    } else {
      assert KeptWith(files, listing, s) == a;
    }
  }

  /** Each summary occurs as often as there are listed `.json` files that parse
      to it: two files with identical content give two equal entries. */
  lemma {:induction false} SummariesCount(files: Directory, listing: seq<string>)
    requires forall n :: n in listing ==> n in files
    ensures forall s :: multiset(Summaries(files, listing))[s] == |KeptWith(files, listing, s)|
  {
    if listing == [] {
      forall s ensures KeptWith(files, listing, s) == {} {
      }
    } else {
      var m := |listing| - 1;
      assert forall n :: n in listing[..m] ==> n in listing;
      SummariesCount(files, listing[..m]);
      forall s ensures multiset(Summaries(files, listing))[s] == |KeptWith(files, listing, s)| {
        KeptWithSnoc(files, listing, s);
      }
    }
  }

  /** Listing order: the summaries of the first `k` listed names are the first
      entries. */
  lemma {:induction false} SummariesPrefix(files: Directory, listing: seq<string>, k: nat)
    requires forall n :: n in listing ==> n in files
    requires k <= |listing|
    ensures Summaries(files, listing[..k]) <= Summaries(files, listing)
    decreases |listing|
  {
    if k < |listing| {
      var m := |listing| - 1;
      assert forall n :: n in listing[..m] ==> n in listing;
      assert listing[..m][..k] == listing[..k];
      SummariesPrefix(files, listing[..m], k);
    } else {
      assert listing[..k] == listing;
    }
  }

  predicate NewestFirst(s: seq<Summary>) {
    forall i, j :: 0 <= i < j < |s| ==> s[i].lastModified >= s[j].lastModified
  }

  /** Places `x` before the first element it is not older than. */
  function Insert(x: Summary, s: seq<Summary>): (r: seq<Summary>)
    ensures multiset(r) == multiset(s) + multiset{x}
    ensures forall y :: y in r <==> y == x || y in s
  {
    if s == [] || x.lastModified >= s[0].lastModified then [x] + s
    else
      assert s == [s[0]] + s[1..];
      [s[0]] + Insert(x, s[1..])
  }

  lemma {:induction false} InsertNewestFirst(x: Summary, s: seq<Summary>)
    requires NewestFirst(s)
    ensures NewestFirst(Insert(x, s))
  {
    if s != [] && x.lastModified < s[0].lastModified {
      var rest := Insert(x, s[1..]);
      InsertNewestFirst(x, s[1..]);
      forall k | 0 <= k < |rest| ensures s[0].lastModified >= rest[k].lastModified {
        assert rest[k] in rest;
      }
      assert Insert(x, s) == [s[0]] + rest;
    }
  }

  /** `sort((a, b) => b.lastModified - a.lastModified)`, a stable sort:
      newest first, the same entries. */
  function SortNewestFirst(s: seq<Summary>): (r: seq<Summary>)
    ensures NewestFirst(r)
    ensures multiset(r) == multiset(s)
  {
    if s == [] then []
    else
      assert s == [s[0]] + s[1..];
      InsertNewestFirst(s[0], SortNewestFirst(s[1..]));
      Insert(s[0], SortNewestFirst(s[1..]))
  }

  /** The entries modified at time `t`, in order. */
  function ModifiedAt(s: seq<Summary>, t: int): seq<Summary> {
    if s == [] then []
    else (if s[0].lastModified == t then [s[0]] else []) + ModifiedAt(s[1..], t)
  }

  lemma ModifiedAtCons(y: Summary, s: seq<Summary>, t: int)
    ensures ModifiedAt([y] + s, t) == (if y.lastModified == t then [y] else []) + ModifiedAt(s, t)
  {
    assert ([y] + s)[1..] == s;
  }

  lemma {:induction false} InsertModifiedAt(x: Summary, s: seq<Summary>, t: int)
    ensures ModifiedAt(Insert(x, s), t) == (if x.lastModified == t then [x] else []) + ModifiedAt(s, t)
  {
    if s != [] && x.lastModified < s[0].lastModified {
      InsertModifiedAt(x, s[1..], t);
      ModifiedAtCons(s[0], Insert(x, s[1..]), t);
      ModifiedAtCons(s[0], s[1..], t);
      assert s == [s[0]] + s[1..];
    } else {
      ModifiedAtCons(x, s, t);
    }
  }

  /** Stability: entries with equal modification times keep their listing order. */
  lemma {:induction false} SortIsStable(s: seq<Summary>, t: int)
    ensures ModifiedAt(SortNewestFirst(s), t) == ModifiedAt(s, t)
  {
    if s != [] {
      SortIsStable(s[1..], t);
      InsertModifiedAt(s[0], SortNewestFirst(s[1..]), t);
    }
  }

  /** Over a listing of the directory, the summaries are exactly those of the
      `.json` files that parse. */
  lemma SummariesOfListing(files: Directory, listing: seq<string>)
    requires IsListing(files, listing)
    ensures forall s :: s in Summaries(files, listing) <==>
      exists n :: n in files && EndsWith(n, Extension) && files[n].Json? && SummaryOf(files[n].doc) == s
  {
    var r := Summaries(files, listing);
    forall s | (exists n :: n in files && EndsWith(n, Extension) && files[n].Json? && SummaryOf(files[n].doc) == s)
      ensures s in r
    {
      var n :| n in files && EndsWith(n, Extension) && files[n].Json? && SummaryOf(files[n].doc) == s;
      var i :| 0 <= i < |listing| && listing[i] == n;
    }
  }

  /** `getDocumentList`: newest first, holding exactly the summaries of the
      `.json` files that parse. */
  function DocumentList(files: Directory, listing: seq<string>): (r: seq<Summary>)
    requires IsListing(files, listing)
    ensures NewestFirst(r)
    ensures |r| <= |listing|
    ensures forall s :: s in r <==>
      exists n :: n in files && EndsWith(n, Extension) && files[n].Json? && SummaryOf(files[n].doc) == s
    ensures forall s :: multiset(r)[s] == |KeptWith(files, listing, s)|
  {
    var sums := Summaries(files, listing);
    var r := SortNewestFirst(sums);
    SummariesOfListing(files, listing);
    SummariesCount(files, listing);
    assert |r| == |multiset(r)| == |multiset(sums)| == |sums|;
    assert forall s :: s in r <==> s in sums by {
      assert forall s :: s in r <==> s in multiset(r);
      assert forall s :: s in sums <==> s in multiset(sums);
    }
    r
  }

  // ---------------------------------------------------------------------------
  // Writing

  /** The id a save writes under: a present, non-empty id is kept, otherwise
      it is the clock reading `idClock` in decimal. */
  function SaveId(id: Option<string>, idClock: nat): (docId: string)
    ensures docId != []
    ensures id.Some? && id.value != [] ==> docId == id.value
    ensures !(id.Some? && id.value != []) ==> AllDigits(docId) && DecimalValue(docId) == idClock
  {
    if id.Some? && id.value != [] then id.value
    else
      DecimalRoundTrip(idClock);
      Decimal(idClock)
  }

  /** The directory after a save: the file of the save's id holds the document
      with the defaulted title, the content, the time stamp `stampClock` and the
      font; the directory gains at most that one file. */
  function AfterSave(files: Directory, id: Option<string>, title: string, content: string,
                     fontFamily: Option<string>, idClock: nat, stampClock: nat): (r: Directory)
    ensures r.Keys == files.Keys + {FileName(SaveId(id, idClock))}
    ensures GetDocument(r, SaveId(id, idClock)) == Some(DocumentData(
      SaveId(id, idClock), if title == [] then UntitledTitle else title, content, stampClock, fontFamily))
  {
    var docId := SaveId(id, idClock);
    files[FileName(docId) := Json(DocumentData(
      docId, if title == [] then UntitledTitle else title, content, stampClock, fontFamily))]
  }

  /** The documents directory. */
  class Store {
    var files: Directory

    constructor (files: Directory)
      ensures this.files == files
    {
      this.files := files;
    }

    /** `saveDocument`: the id is chosen by `SaveId` from the first clock
        reading, an empty title becomes "Untitled Document", and the file is
        (over)written with `lastModified` = `stampClock`, the second reading. */
    method SaveDocument(id: Option<string>, title: string, content: string, fontFamily: Option<string>,
                        idClock: nat, stampClock: nat) returns (docId: string)
      modifies this
      ensures docId == SaveId(id, idClock)
      ensures files == AfterSave(old(files), id, title, content, fontFamily, idClock, stampClock)
    {
      docId := if id.Some? && id.value != [] then id.value else Decimal(idClock);
      var document := DocumentData(docId, if title == [] then UntitledTitle else title, content, stampClock, fontFamily);
      files := files[FileName(docId) := Json(document)];
    }

    /** `deleteDocument`: true when the file existed, which is then gone. */
    method DeleteDocument(id: string) returns (ok: bool)
      modifies this
      ensures ok <==> FileName(id) in old(files)
      ensures files == old(files) - {FileName(id)}
    {
      ok := FileName(id) in files;
      files := files - {FileName(id)};
    }
  }

  /** A save changes no other document. */
  lemma SaveKeepsOthers(files: Directory, id: Option<string>, title: string, content: string,
                        fontFamily: Option<string>, idClock: nat, stampClock: nat, other: string)
    requires other != SaveId(id, idClock)
    ensures GetDocument(AfterSave(files, id, title, content, fontFamily, idClock, stampClock), other)
         == GetDocument(files, other)
  {
    FileNameInjective(SaveId(id, idClock), other);
  }

  /** A deleted document can no longer be read; others are unaffected. */
  lemma DeleteThenGet(files: Directory, id: string, other: string)
    ensures GetDocument(files - {FileName(id)}, id) == None
    ensures other != id ==> GetDocument(files - {FileName(id)}, other) == GetDocument(files, other)
  {
    FileNameInjective(id, other);
  }

  /** A saved document appears in the document list, under its id and
      with its save time. */
  lemma SavedIsListed(files: Directory, id: Option<string>, title: string, content: string,
                      fontFamily: Option<string>, idClock: nat, stampClock: nat, listing: seq<string>)
    requires IsListing(AfterSave(files, id, title, content, fontFamily, idClock, stampClock), listing)
    ensures exists s :: s in DocumentList(AfterSave(files, id, title, content, fontFamily, idClock, stampClock), listing)
                        && s.id == SaveId(id, idClock) && s.lastModified == stampClock
  {
    var r := AfterSave(files, id, title, content, fontFamily, idClock, stampClock);
    var n := FileName(SaveId(id, idClock));
    assert n in r && EndsWith(n, Extension) && r[n].Json?;
    assert SummaryOf(r[n].doc) in DocumentList(r, listing);
  }
}
