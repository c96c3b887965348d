/** The search hook: the four state cells it exposes (results, isSearching, isIndexing,
    error), its initialisation effect, the live-query resync and the `search` callback.

    Every awaited call becomes an explicit input: the rows a table read returns (or what it
    threw) and the answer of the indexing library (or what it threw). */
module UseSearch {
  import opened Wrappers
  import opened Text
  import opened Records
  import opened Search

  /** What the library answered for one query. */
  datatype LibraryAnswer =
    | Answered(documentHits: seq<FieldHits<Document>>, categoryHits: seq<FieldHits<Category>>)
    | Threw(thrown: Thrown)

  const InitFailedMessage: string := "Failed to initialize search"
  const SearchFailedMessage: string := "Search failed"

  class SearchHook {
    const service: SearchService
    var results: seq<SearchResult>
    var isSearching: bool
    var isIndexing: bool
    var error: Option<string>

    constructor(service: SearchService)
      ensures this.service == service
      ensures results == [] && !isSearching && !isIndexing && error == None
    {
      this.service := service;
      results := [];
      isSearching := false;
      isIndexing := false;
      error := None;
    }

    /** The mount effect: rebuild the indices with `isIndexing` raised, lower it whatever
        happens, and record the message of a failed rebuild. */
    method Initialize(documentRows: Read<seq<Document>>, categoryRows: Read<seq<Category>>)
      modifies this, service
      ensures !isIndexing
      ensures results == old(results) && isSearching == old(isSearching)
      ensures documentRows.ReadFailed? ==>
                error == Some(MessageOr(documentRows.thrown, InitFailedMessage)) &&
                service.documents == map[] && service.categories == map[]
      ensures documentRows.Loaded? ==> service.documents == UpsertAll(map[], documentRows.rows, DocumentId)
      ensures documentRows.Loaded? && categoryRows.ReadFailed? ==>
                error == Some(MessageOr(categoryRows.thrown, InitFailedMessage)) && service.categories == map[]
      ensures documentRows.Loaded? && categoryRows.Loaded? ==>
                error == old(error) && service.categories == UpsertAll(map[], categoryRows.rows, CategoryId)
    {
      isIndexing := true;
      var thrown := service.IndexAll(documentRows, categoryRows);
      if thrown.Some? {
        error := Some(MessageOr(thrown.value, InitFailedMessage));
      }
      isIndexing := false;
    }

    /** The live-query callback: when both tables were read, every record with an id is
        upserted into its index; nothing is ever removed. A failed read is only logged. */
    method Resync(documentRows: Read<seq<Document>>, categoryRows: Read<seq<Category>>)
      modifies service
      ensures documentRows.Loaded? && categoryRows.Loaded? ==>
                service.documents == UpsertAll(old(service.documents), documentRows.rows, DocumentId) &&
                service.categories == UpsertAll(old(service.categories), categoryRows.rows, CategoryId)
      ensures documentRows.ReadFailed? || categoryRows.ReadFailed? ==>
                service.documents == old(service.documents) && service.categories == old(service.categories)
    {
      if documentRows.ReadFailed? || categoryRows.ReadFailed? {
        return;
      }
      var docs, cats := documentRows.rows, categoryRows.rows;
      var i := 0;
      while i < |docs|
        invariant 0 <= i <= |docs|
        invariant service.documents == UpsertAll(old(service.documents), docs[..i], DocumentId)
        invariant service.categories == old(service.categories)
      {
        assert docs[..i + 1][..i] == docs[..i];
        if docs[i].id.Some? {
          service.AddDocument(docs[i]);
        }
        i := i + 1;
      }
      assert docs[..i] == docs;
      var j := 0;
      while j < |cats|
        invariant 0 <= j <= |cats|
        invariant service.categories == UpsertAll(old(service.categories), cats[..j], CategoryId)
        invariant service.documents == UpsertAll(old(service.documents), docs, DocumentId)
      {
        assert cats[..j + 1][..j] == cats[..j];
        if cats[j].id.Some? {
          service.AddCategory(cats[j]);
        }
        j := j + 1;
      }
      assert cats[..j] == cats;
    }

    /** The `search` callback. A query that trims to "" only clears the results. Otherwise
        the error is cleared and the service consulted; its list becomes the results, or,
        when it throws, the results are emptied and the message recorded. `isSearching` is
        lowered in both cases. */
    method Search(query: string, answer: LibraryAnswer)
      modifies this
      ensures Trim(query) == [] ==>
                results == [] && isSearching == old(isSearching) && error == old(error)
      ensures Trim(query) != [] && answer.Answered? ==>
                results == Ranking(answer.documentHits, answer.categoryHits) &&
                error == None && !isSearching
      ensures Trim(query) != [] && answer.Threw? ==>
                results == [] && error == Some(MessageOr(answer.thrown, SearchFailedMessage)) && !isSearching
      ensures isIndexing == old(isIndexing)
    {
      if Trim(query) == [] {
        results := [];
        return;
      }
      isSearching := true;
      error := None;
      match answer {
        case Answered(documentHits, categoryHits) =>
          assert query != "";
          var found := service.Search(query, documentHits, categoryHits);
          results := found;
        case Threw(thrown) =>
          error := Some(MessageOr(thrown, SearchFailedMessage));
          results := [];
      }
      isSearching := false;
    }
  }

  /** A resync keeps every id already indexed, including ids of records since deleted
      from the store, and indexes every stored record that has an id. */
  lemma ResyncNeverRemoves(index: map<nat, Document>, rows: seq<Document>, d: Document)
    requires d in rows && d.id.Some?
    ensures index.Keys <= UpsertAll(index, rows, DocumentId).Keys
    ensures d.id.value in UpsertAll(index, rows, DocumentId)
  {
    UpsertAllKeeps(index, rows, DocumentId);
    var i :| 0 <= i < |rows| && rows[i] == d;
    UpsertAllContents(index, rows, DocumentId, d.id.value);
  }
}
