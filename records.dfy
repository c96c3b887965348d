/** The records of the local store (Document, Category and the join table between them)
    as an immutable snapshot, and the keyed lookups the application performs on it. */
module Records {
  import opened Wrappers
  import opened Text

  datatype DocumentKind = Pdf | PlainText | Other

  /** A stored document; `id` is assigned by the store and is undefined before insertion. */
  datatype Document = Document(
    id: Option<nat>,
    title: string,
    author: Option<string>,
    kind: DocumentKind,
    filePath: string,
    summary: Option<string>)

  datatype Category = Category(id: Option<nat>, name: string)

  /** A row of the join table linking a document to a category. */
  datatype DocumentCategory = DocumentCategory(documentId: nat, categoryId: nat)

  /** A snapshot of the three tables, each in the store's own iteration order. */
  datatype Store = Store(
    documents: seq<Document>,
    categories: seq<Category>,
    links: seq<DocumentCategory>)

  /** What an awaited call threw: an `Error` carries a message, anything else does not. */
  datatype Thrown = ErrorValue(message: string) | OtherValue

  /** `err instanceof Error ? err.message : fallback` */
  function MessageOr(t: Thrown, fallback: string): string {
    match t
    case ErrorValue(m) => m
    case OtherValue => fallback
  }

  /** The outcome of reading a table: its rows, or the value the read threw. */
  datatype Read<T> = Loaded(rows: T) | ReadFailed(thrown: Thrown)

  function DocumentId(d: Document): Option<nat> { d.id }
  function CategoryId(c: Category): Option<nat> { c.id }

  /** `table.get(key)`: the record stored under `key`, if any. */
  function GetDocument(documents: seq<Document>, key: int): (r: Option<Document>)
    ensures r.Some? ==> r.value in documents && r.value.id == Some(key)
    ensures r.None? ==> forall d :: d in documents ==> d.id != Some(key)
  {
    if documents == [] then None
    else if documents[0].id == Some(key) then Some(documents[0])
    else GetDocument(documents[1..], key)
  }

  function GetCategory(categories: seq<Category>, key: int): (r: Option<Category>)
    ensures r.Some? ==> r.value in categories && r.value.id == Some(key)
    ensures r.None? ==> forall c :: c in categories ==> c.id != Some(key)
  {
    if categories == [] then None
    else if categories[0].id == Some(key) then Some(categories[0])
    else GetCategory(categories[1..], key)
  }

  /** `documentCategories.where('documentId').equals(key).first()` */
  function FirstLink(links: seq<DocumentCategory>, documentId: int): (r: Option<DocumentCategory>)
    ensures r.Some? ==> r.value in links && r.value.documentId == documentId
    ensures r.None? ==> forall l :: l in links ==> l.documentId != documentId
    ensures r.Some? ==> exists i :: 0 <= i < |links| && links[i] == r.value &&
                         forall j :: 0 <= j < i ==> links[j].documentId != documentId
  {
    if links == [] then None
    else if links[0].documentId == documentId then Some(links[0])
    else
      var r := FirstLink(links[1..], documentId);
      if r.Some? then
        var i :| 0 <= i < |links[1..]| && links[1..][i] == r.value &&
                 forall j :: 0 <= j < i ==> links[1..][j].documentId != documentId;
        assert links[i + 1] == r.value;
        r
      else r
  }
}
