/**
 * The document list of components/welcome-screen.tsx: the case-insensitive
 * title filter behind the search box, and the delete confirmation.
 */
module Welcome {
  import opened Options
  import opened Text
  import Storage

  /** The search keeps a document whose lower-cased title contains the
      lower-cased query; the empty query matches every title. */
  function Matches(d: Storage.Summary, query: string): (b: bool)
    ensures b <==> exists j :: OccursAt(Lower(d.title), Lower(query), j)
    ensures query == [] ==> b
  {
    Contains(Lower(d.title), Lower(query))
  }

  /** `documents.filter(...)`. */
  function Filter(docs: seq<Storage.Summary>, query: string): (r: seq<Storage.Summary>)
    ensures |r| <= |docs|
    ensures forall d :: d in r ==> d in docs && Matches(d, query)
    ensures forall d :: d in docs && Matches(d, query) ==> d in r
  {
    if docs == [] then []
    else (if Matches(docs[0], query) then [docs[0]] else []) + Filter(docs[1..], query)
  }

  /** The filter keeps every matching document as often as it is listed, and
      no other. */
  lemma {:induction false} FilterCount(docs: seq<Storage.Summary>, query: string)
    ensures forall d :: multiset(Filter(docs, query))[d] == if Matches(d, query) then multiset(docs)[d] else 0
  {
    if docs != [] {
      FilterCount(docs[1..], query);
      assert docs == [docs[0]] + docs[1..];
    }
  }

  /** `sub` is `s` with some elements dropped and the rest kept in order. */
  predicate IsSubsequence<T(==)>(sub: seq<T>, s: seq<T>)
    decreases |s|
  {
    if sub == [] then true
    else if s == [] then false
    else if sub[0] == s[0] then IsSubsequence(sub[1..], s[1..])
    else IsSubsequence(sub, s[1..])
  }

  /** A subsequence of `s` is one of `[x] + s`. */
  lemma {:induction false} SubsequenceOfTail<T>(sub: seq<T>, x: T, s: seq<T>)
    requires IsSubsequence(sub, s)
    ensures IsSubsequence(sub, [x] + s)
    decreases |s| + 1, 0
  {
    assert ([x] + s)[1..] == s;
    if sub != [] && sub[0] == x {
      SubsequenceWeaken(sub, s);
    }
  }

  /** Dropping the first element of a subsequence keeps it one. */
  lemma {:induction false} SubsequenceWeaken<T>(sub: seq<T>, s: seq<T>)
    requires sub != [] && IsSubsequence(sub, s)
    ensures IsSubsequence(sub[1..], s)
    decreases |s|, 1
  {
    if sub[0] != s[0] {
      SubsequenceWeaken(sub, s[1..]);
    }
    SubsequenceOfTail(sub[1..], s[0], s[1..]);
    assert [s[0]] + s[1..] == s;
  }

  /** The filtered list keeps the documents it keeps in their order. */
  lemma {:induction false} FilterIsSubsequence(docs: seq<Storage.Summary>, query: string)
    ensures IsSubsequence(Filter(docs, query), docs)
  {
    if docs != [] {
      var rest := Filter(docs[1..], query);
      FilterIsSubsequence(docs[1..], query);
      if Matches(docs[0], query) {
        assert Filter(docs, query) == [docs[0]] + rest;
        assert ([docs[0]] + rest)[1..] == rest;
      } else {
        assert Filter(docs, query) == rest;
        SubsequenceOfTail(rest, docs[0], docs[1..]);
        assert [docs[0]] + docs[1..] == docs;
      }
    }
  }

  /** An empty query keeps every document: each title contains "". */
  lemma {:induction false} EmptyQueryKeepsAll(docs: seq<Storage.Summary>)
    ensures Filter(docs, "") == docs
  {
    if docs != [] {
      EmptyQueryKeepsAll(docs[1..]);
      assert [docs[0]] + docs[1..] == docs;
    }
  }

  /** The search is blind to the case of ASCII letters in the query. */
  lemma FilterIgnoresQueryCase(docs: seq<Storage.Summary>, query: string)
    ensures Filter(docs, Lower(query)) == Filter(docs, query)
  {
    LowerIdempotent(query);
    FilterQueryEquivalent(docs, Lower(query), query);
  }

  lemma {:induction false} FilterQueryEquivalent(docs: seq<Storage.Summary>, q1: string, q2: string)
    requires Lower(q1) == Lower(q2)
    ensures Filter(docs, q1) == Filter(docs, q2)
  {
    if docs != [] {
      FilterQueryEquivalent(docs[1..], q1, q2);
    }
  }

  /** The list screen: the documents it was given, the search box, and the
      delete dialog with the document it is about. */
  class Screen {
    const store: Storage.Store
    const documents: seq<Storage.Summary>
    var searchQuery: string
    var deleteDialogOpen: bool
    var documentToDelete: Option<string>

    constructor (store: Storage.Store, documents: seq<Storage.Summary>)
      ensures this.store == store && this.documents == documents
      ensures searchQuery == [] && !deleteDialogOpen && documentToDelete == None
    {
      this.store := store;
      this.documents := documents;
      searchQuery := [];
      deleteDialogOpen := false;
      documentToDelete := None;
    }

    /** `filteredDocuments`: the list the screen shows, the matching
        documents in their given order. */
    function Shown(): (r: seq<Storage.Summary>)
      reads this
      ensures IsSubsequence(r, documents)
      ensures forall d :: d in r <==> d in documents && Matches(d, searchQuery)
      ensures forall d :: multiset(r)[d] == if Matches(d, searchQuery) then multiset(documents)[d] else 0
    {
      FilterIsSubsequence(documents, searchQuery);
      FilterCount(documents, searchQuery);
      Filter(documents, searchQuery)
    }

    /** Typing in the search box. */
    method Search(query: string)
      modifies this`searchQuery
      ensures searchQuery == query
      ensures forall d :: d in Shown() <==> d in documents && Matches(d, query)
    {
      searchQuery := query;
    }

    /** "Clear search": the full list is shown again. */
    method ClearSearch()
      modifies this`searchQuery
      ensures searchQuery == []
      ensures Shown() == documents
    {
      searchQuery := [];
      EmptyQueryKeepsAll(documents);
    }

    /** The trash button on a row: remembers the document and opens the dialog. */
    method DeleteClick(id: string)
      modifies this`documentToDelete, this`deleteDialogOpen
      ensures documentToDelete == Some(id) && deleteDialogOpen
    {
      documentToDelete := Some(id);
      deleteDialogOpen := true;
    }

    /** "Delete" in the dialog. With no document chosen (none, or the empty id,
        which JavaScript reads as false) nothing happens; otherwise the
        document's file is removed and the dialog closes. The document stays
        chosen. */
    method ConfirmDelete()
      modifies store, this`deleteDialogOpen
      ensures documentToDelete.None? || documentToDelete.value == [] ==>
                store.files == old(store.files) && deleteDialogOpen == old(deleteDialogOpen)
      ensures documentToDelete.Some? && documentToDelete.value != [] ==>
                store.files == old(store.files) - {Storage.FileName(documentToDelete.value)}
                && !deleteDialogOpen
    {
      if documentToDelete.Some? && documentToDelete.value != [] {
        var _ := store.DeleteDocument(documentToDelete.value);
        deleteDialogOpen := false;
      }
    }
  }
}
