/** The search service: two id-keyed indices mirroring the store (documents and
    categories), their bookkeeping, and the merge-and-rank step of a search.

    The text matching of the indexing library is not modelled: a search receives, for
    each index, the library's answer as a list of per-field hit groups, each carrying the
    score read from that group and the stored records it matched. */
module Search {
  import opened Wrappers
  import opened Text
  import opened Records

  datatype ResultType = DocumentType | CategoryType

  datatype Item = DocumentItem(doc: Document) | CategoryItem(category: Category)

  /** A ranked hit; `score` is None when it is undefined or not a number. */
  datatype SearchResult = SearchResult(kind: ResultType, item: Item, score: Option<real>)

  /** One per-field group of an enriched library answer. */
  datatype FieldHits<T> = FieldHits(score: Option<real>, records: seq<T>)

  function ItemId(item: Item): Option<nat> {
    match item
    case DocumentItem(d) => d.id
    case CategoryItem(c) => c.id
  }

  /** The sort key `result.score || 0`: a missing score counts as 0. */
  function ScoreKey(r: SearchResult): real {
    match r.score
    case Some(x) => x
    case None => 0.0
  }

  // ---------------------------------------------------------------------------
  // Merging the two answers

  /** One field group's records as results: each is tagged "document" and carries the
      group's score, and the documents they carry are the group's, in order. */
  function TagDocuments(docs: seq<Document>, score: Option<real>): (r: seq<SearchResult>)
    ensures |r| == |docs|
    ensures forall x :: x in r ==> x.kind == DocumentType && x.score == score && x.item.DocumentItem?
    ensures forall i :: 0 <= i < |r| ==> r[i].item.doc == docs[i]
  {
    seq(|docs|, i requires 0 <= i < |docs| => SearchResult(DocumentType, DocumentItem(docs[i]), score))
  }

  /** One field group's records as results tagged "category", in order. */
  function TagCategories(cats: seq<Category>, score: Option<real>): (r: seq<SearchResult>)
    ensures |r| == |cats|
    ensures forall x :: x in r ==> x.kind == CategoryType && x.score == score && x.item.CategoryItem?
    ensures forall i :: 0 <= i < |r| ==> r[i].item.category == cats[i]
  {
    seq(|cats|, i requires 0 <= i < |cats| => SearchResult(CategoryType, CategoryItem(cats[i]), score))
  }

  /** The document hits in the order the library gives them, group after group. */
  function DocumentResults(hits: seq<FieldHits<Document>>): seq<SearchResult> {
    if hits == [] then []
    else DocumentResults(hits[..|hits| - 1]) + TagDocuments(hits[|hits| - 1].records, hits[|hits| - 1].score)
  }

  function CategoryResults(hits: seq<FieldHits<Category>>): seq<SearchResult> {
    if hits == [] then []
    else CategoryResults(hits[..|hits| - 1]) + TagCategories(hits[|hits| - 1].records, hits[|hits| - 1].score)
  }

  /** The list as pushed before sorting: every document hit, then every category hit. */
  function Merge(documentHits: seq<FieldHits<Document>>, categoryHits: seq<FieldHits<Category>>): seq<SearchResult> {
    DocumentResults(documentHits) + CategoryResults(categoryHits)
  }

  function DocumentHitCount(hits: seq<FieldHits<Document>>): nat {
    if hits == [] then 0 else DocumentHitCount(hits[..|hits| - 1]) + |hits[|hits| - 1].records|
  }

  function CategoryHitCount(hits: seq<FieldHits<Category>>): nat {
    if hits == [] then 0 else CategoryHitCount(hits[..|hits| - 1]) + |hits[|hits| - 1].records|
  }

  /** Every document hit becomes one result tagged "document" carrying a document; nothing
      is added or merged. */
  lemma {:induction false} DocumentResultsShape(hits: seq<FieldHits<Document>>)
    ensures |DocumentResults(hits)| == DocumentHitCount(hits)
    ensures forall r :: r in DocumentResults(hits) ==> r.kind == DocumentType && r.item.DocumentItem?
  {
    if hits != [] {
      var init, g := hits[..|hits| - 1], hits[|hits| - 1];
      DocumentResultsShape(init);
      var t := TagDocuments(g.records, g.score);
      assert DocumentResults(hits) == DocumentResults(init) + t;
      forall r | r in DocumentResults(hits) ensures r.kind == DocumentType && r.item.DocumentItem? {
        if r !in DocumentResults(init) {
          var i :| 0 <= i < |t| && t[i] == r;
        }
      }
    }
  }

  /** No document hit is dropped: each record of each group has its result, with the
      group's score. */
  lemma {:induction false} DocumentResultsCover(hits: seq<FieldHits<Document>>)
    ensures forall g, d :: g in hits && d in g.records ==>
              SearchResult(DocumentType, DocumentItem(d), g.score) in DocumentResults(hits)
  {
    if hits != [] {
      var init, g := hits[..|hits| - 1], hits[|hits| - 1];
      DocumentResultsCover(init);
      assert hits == init + [g];
      var t := TagDocuments(g.records, g.score);
      assert DocumentResults(hits) == DocumentResults(init) + t;
      forall g', d | g' in hits && d in g'.records
        ensures SearchResult(DocumentType, DocumentItem(d), g'.score) in DocumentResults(hits)
      {
        if g' != g {
          assert g' in init;
        } else {
          var i :| 0 <= i < |g.records| && g.records[i] == d;
          assert t[i] in DocumentResults(hits);
        }
      }
    }
  }

  /** Every category hit becomes one result tagged "category" carrying a category. */
  lemma {:induction false} CategoryResultsShape(hits: seq<FieldHits<Category>>)
    ensures |CategoryResults(hits)| == CategoryHitCount(hits)
    ensures forall r :: r in CategoryResults(hits) ==> r.kind == CategoryType && r.item.CategoryItem?
  {
    if hits != [] {
      var init, g := hits[..|hits| - 1], hits[|hits| - 1];
      CategoryResultsShape(init);
      var t := TagCategories(g.records, g.score);
      assert CategoryResults(hits) == CategoryResults(init) + t;
      forall r | r in CategoryResults(hits) ensures r.kind == CategoryType && r.item.CategoryItem? {
        if r !in CategoryResults(init) {
          var i :| 0 <= i < |t| && t[i] == r;
        }
      }
    }
  }

  /** No category hit is dropped: each record of each group has its result, with the
      group's score. */
  lemma {:induction false} CategoryResultsCover(hits: seq<FieldHits<Category>>)
    ensures forall g, c :: g in hits && c in g.records ==>
              SearchResult(CategoryType, CategoryItem(c), g.score) in CategoryResults(hits)
  {
    if hits != [] {
      var init, g := hits[..|hits| - 1], hits[|hits| - 1];
      CategoryResultsCover(init);
      assert hits == init + [g];
      var t := TagCategories(g.records, g.score);
      assert CategoryResults(hits) == CategoryResults(init) + t;
      forall g', c | g' in hits && c in g'.records
        ensures SearchResult(CategoryType, CategoryItem(c), g'.score) in CategoryResults(hits)
      {
        if g' != g {
          assert g' in init;
        } else {
          var i :| 0 <= i < |g.records| && g.records[i] == c;
          assert t[i] in CategoryResults(hits);
        }
      }
    }
  }

  /** The merged list holds the document hits first, then the category hits, each tagged
      with the index it came from, with one entry per hit. */
  lemma MergeShape(documentHits: seq<FieldHits<Document>>, categoryHits: seq<FieldHits<Category>>)
    ensures |Merge(documentHits, categoryHits)| == DocumentHitCount(documentHits) + CategoryHitCount(categoryHits)
    ensures forall i :: 0 <= i < DocumentHitCount(documentHits) ==>
              Merge(documentHits, categoryHits)[i].kind == DocumentType &&
              Merge(documentHits, categoryHits)[i].item.DocumentItem?
    ensures forall i :: DocumentHitCount(documentHits) <= i < |Merge(documentHits, categoryHits)| ==>
              Merge(documentHits, categoryHits)[i].kind == CategoryType &&
              Merge(documentHits, categoryHits)[i].item.CategoryItem?
  {
    DocumentResultsShape(documentHits);
    CategoryResultsShape(categoryHits);
    var ds: seq<SearchResult> := DocumentResults(documentHits);
    var cs: seq<SearchResult> := CategoryResults(categoryHits);
    forall i | 0 <= i < |ds| ensures (ds + cs)[i].kind == DocumentType && (ds + cs)[i].item.DocumentItem? {
      assert (ds + cs)[i] == ds[i] && ds[i] in ds;
    }
    forall i | |ds| <= i < |ds + cs| ensures (ds + cs)[i].kind == CategoryType && (ds + cs)[i].item.CategoryItem? {
      assert (ds + cs)[i] == cs[i - |ds|] && cs[i - |ds|] in cs;
    }
  }

  // ---------------------------------------------------------------------------
  // Ranking: a stable sort by descending score

  /** Inserts `x` in front of the first element whose score it reaches, so that `x`, which
      came earlier, stays ahead of the elements with an equal score. */
  function Insert(x: SearchResult, s: seq<SearchResult>): seq<SearchResult> {
    if s == [] || ScoreKey(x) >= ScoreKey(s[0]) then [x] + s
    else [s[0]] + Insert(x, s[1..])
  }

  /** `results.sort((a, b) => (b.score || 0) - (a.score || 0))` under the stability that
      ECMAScript 2019 requires of `Array.prototype.sort`. */
  function SortByScore(s: seq<SearchResult>): seq<SearchResult> {
    if s == [] then [] else Insert(s[0], SortByScore(s[1..]))
  }

  predicate NonIncreasing(s: seq<SearchResult>) {
    forall i, j :: 0 <= i < j < |s| ==> ScoreKey(s[i]) >= ScoreKey(s[j])
  }

  /** The sub-list of the results whose score key is `k`, in order. */
  function WithScore(s: seq<SearchResult>, k: real): seq<SearchResult> {
    if s == [] then []
    else (if ScoreKey(s[0]) == k then [s[0]] else []) + WithScore(s[1..], k)
  }

  lemma {:induction false} WithScoreAppend(a: seq<SearchResult>, b: seq<SearchResult>, k: real)
    ensures WithScore(a + b, k) == WithScore(a, k) + WithScore(b, k)
  {
    if a != [] {
      assert (a + b)[0] == a[0];
      assert (a + b)[1..] == a[1..] + b;
      WithScoreAppend(a[1..], b, k);
    } else {
      assert a + b == b;
    }
  }

  /** Inserting into a non-increasing list keeps it non-increasing. */
  lemma {:induction false} InsertKeepsOrder(x: SearchResult, s: seq<SearchResult>)
    requires NonIncreasing(s)
    ensures NonIncreasing(Insert(x, s))
  {
    if s != [] && ScoreKey(x) < ScoreKey(s[0]) {
      var t := Insert(x, s[1..]);
      assert NonIncreasing(s[1..]) by {
        forall i, j | 0 <= i < j < |s[1..]| ensures ScoreKey(s[1..][i]) >= ScoreKey(s[1..][j]) {
          assert s[1..][i] == s[i + 1] && s[1..][j] == s[j + 1];
        }
      }
      InsertKeepsOrder(x, s[1..]);
      InsertBounded(x, s[1..], ScoreKey(s[0]));
      var r := [s[0]] + t;
      forall i, j | 0 <= i < j < |r| ensures ScoreKey(r[i]) >= ScoreKey(r[j]) {
        assert r[j] == t[j - 1];
        if i > 0 {
          assert r[i] == t[i - 1];
        }
      }
    } else {
      var r := [x] + s;
      forall i, j | 0 <= i < j < |r| ensures ScoreKey(r[i]) >= ScoreKey(r[j]) {
        assert r[j] == s[j - 1];
        if i > 0 {
          assert r[i] == s[i - 1];
        }
      }
    }
  }

  /** Inserting an element no larger than a bound into a list bounded by it keeps the bound. */
  lemma {:induction false} InsertBounded(x: SearchResult, s: seq<SearchResult>, b: real)
    requires ScoreKey(x) <= b
    requires forall i :: 0 <= i < |s| ==> ScoreKey(s[i]) <= b
    ensures forall i :: 0 <= i < |Insert(x, s)| ==> ScoreKey(Insert(x, s)[i]) <= b
  {
    if s != [] && ScoreKey(x) < ScoreKey(s[0]) {
      assert forall i :: 0 <= i < |s[1..]| ==> ScoreKey(s[1..][i]) <= b by {
        forall i | 0 <= i < |s[1..]| ensures ScoreKey(s[1..][i]) <= b {
          assert s[1..][i] == s[i + 1];
        }
      }
      InsertBounded(x, s[1..], b);
      var t := Insert(x, s[1..]);
      forall i | 0 <= i < |[s[0]] + t| ensures ScoreKey(([s[0]] + t)[i]) <= b {
        if i > 0 {
          assert ([s[0]] + t)[i] == t[i - 1];
        }
      }
    } else {
      forall i | 0 <= i < |[x] + s| ensures ScoreKey(([x] + s)[i]) <= b {
        if i > 0 {
          assert ([x] + s)[i] == s[i - 1];
        }
      }
    }
  }

  /** Insertion adds exactly the inserted element. */
  lemma {:induction false} InsertPermutes(x: SearchResult, s: seq<SearchResult>)
    ensures multiset(Insert(x, s)) == multiset(s) + multiset{x}
  {
    if s != [] && ScoreKey(x) < ScoreKey(s[0]) {
      InsertPermutes(x, s[1..]);
      assert s == [s[0]] + s[1..];
    }
  }

  lemma {:induction false} InsertWithScore(x: SearchResult, s: seq<SearchResult>, k: real)
    ensures WithScore(Insert(x, s), k) == (if ScoreKey(x) == k then [x] else []) + WithScore(s, k)
  {
    var xs := if ScoreKey(x) == k then [x] else [];
    if s != [] && ScoreKey(x) < ScoreKey(s[0]) {
      var rest := Insert(x, s[1..]);
      var heads := if ScoreKey(s[0]) == k then [s[0]] else [];
      InsertWithScore(x, s[1..], k);
      assert ([s[0]] + rest)[1..] == rest;
      assert WithScore([s[0]] + rest, k) == heads + WithScore(rest, k);
      assert WithScore(s, k) == heads + WithScore(s[1..], k);
      assert xs == [] || heads == [];
    } else {
      assert ([x] + s)[1..] == s;
      assert WithScore([x] + s, k) == xs + WithScore(s, k);
    }
  }

  /** The ranking is non-increasing by score and a permutation of its input. */
  lemma {:induction false} SortByScoreSorted(s: seq<SearchResult>)
    ensures NonIncreasing(SortByScore(s))
    ensures multiset(SortByScore(s)) == multiset(s)
  {
    if s != [] {
      SortByScoreSorted(s[1..]);
      InsertKeepsOrder(s[0], SortByScore(s[1..]));
      InsertPermutes(s[0], SortByScore(s[1..]));
      assert s == [s[0]] + s[1..];
    }
  }

  /** Stability: the results of each score keep their relative order. */
  lemma {:induction false} SortByScoreStable(s: seq<SearchResult>, k: real)
    ensures WithScore(SortByScore(s), k) == WithScore(s, k)
  {
    if s != [] {
      SortByScoreStable(s[1..], k);
      InsertWithScore(s[0], SortByScore(s[1..]), k);
    }
  }

  /** The answer to a non-empty query: the merged hits, ranked by score. */
  function Ranking(documentHits: seq<FieldHits<Document>>, categoryHits: seq<FieldHits<Category>>): seq<SearchResult> {
    SortByScore(Merge(documentHits, categoryHits))
  }

  /** The answer to a non-empty query is non-increasing by score, a permutation of the merged
      hits, and, among equal scores, holds the document hits in library order ahead of the
      category hits in library order. */
  lemma RankedResults(documentHits: seq<FieldHits<Document>>, categoryHits: seq<FieldHits<Category>>, k: real)
    ensures NonIncreasing(Ranking(documentHits, categoryHits))
    ensures multiset(Ranking(documentHits, categoryHits)) ==
            multiset(DocumentResults(documentHits)) + multiset(CategoryResults(categoryHits))
    ensures WithScore(Ranking(documentHits, categoryHits), k) ==
            WithScore(DocumentResults(documentHits), k) + WithScore(CategoryResults(categoryHits), k)
  {
    var m := Merge(documentHits, categoryHits);
    SortByScoreSorted(m);
    SortByScoreStable(m, k);
    WithScoreAppend(DocumentResults(documentHits), CategoryResults(categoryHits), k);
  }

  // ---------------------------------------------------------------------------
  // Index bookkeeping

  /** Adding a record: an upsert under its id, nothing when the id is undefined. */
  function Upsert<T>(index: map<nat, T>, r: T, idOf: T -> Option<nat>): map<nat, T> {
    match idOf(r)
    case None => index
    case Some(k) => index[k := r]
  }

  /** Adding the records one after another, in order. */
  function UpsertAll<T>(index: map<nat, T>, rs: seq<T>, idOf: T -> Option<nat>): map<nat, T> {
    if rs == [] then index
    else Upsert(UpsertAll(index, rs[..|rs| - 1], idOf), rs[|rs| - 1], idOf)
  }

  /** After adding `rs`, an id is present iff it was present before or some record of `rs`
      carries it; an id that no record carries keeps its old record, and an id that one
      does maps to the last record carrying it. */
  lemma {:induction false} UpsertAllContents<T>(index: map<nat, T>, rs: seq<T>, idOf: T -> Option<nat>, k: nat)
    ensures k in UpsertAll(index, rs, idOf) <==> k in index || exists i :: 0 <= i < |rs| && idOf(rs[i]) == Some(k)
    ensures (forall i :: 0 <= i < |rs| ==> idOf(rs[i]) != Some(k)) && k in index ==>
              UpsertAll(index, rs, idOf)[k] == index[k]
    ensures forall i :: (0 <= i < |rs| && idOf(rs[i]) == Some(k) &&
                         forall j :: i < j < |rs| ==> idOf(rs[j]) != Some(k)) ==>
              UpsertAll(index, rs, idOf)[k] == rs[i]
  {
    if rs != [] {
      var init := rs[..|rs| - 1];
      UpsertAllContents(index, init, idOf, k);
      assert forall i :: 0 <= i < |init| ==> init[i] == rs[i];
      if exists i :: 0 <= i < |init| && idOf(init[i]) == Some(k) {
        var i :| 0 <= i < |init| && idOf(init[i]) == Some(k);
        assert idOf(rs[i]) == Some(k);
      }
    }
  }

  /** Adding records never removes an id. */
  lemma UpsertAllKeeps<T>(index: map<nat, T>, rs: seq<T>, idOf: T -> Option<nat>)
    ensures index.Keys <= UpsertAll(index, rs, idOf).Keys
  {
    forall k | k in index ensures k in UpsertAll(index, rs, idOf) {
      UpsertAllContents(index, rs, idOf, k);
    }
  }

  /** Records whose ids are pairwise distinct. */
  predicate DistinctIds<T>(rs: seq<T>, idOf: T -> Option<nat>) {
    forall i, j :: 0 <= i < j < |rs| && idOf(rs[i]).Some? ==> idOf(rs[i]) != idOf(rs[j])
  }

  /** Rebuilding from a table with distinct ids: the index holds exactly the records that
      have a defined id, each under its own id. */
  lemma IndexOfTable<T>(rs: seq<T>, idOf: T -> Option<nat>, k: nat)
    requires DistinctIds(rs, idOf)
    ensures k in UpsertAll(map[], rs, idOf) <==> exists r :: r in rs && idOf(r) == Some(k)
    ensures k in UpsertAll(map[], rs, idOf) ==>
              UpsertAll(map[], rs, idOf)[k] in rs && idOf(UpsertAll(map[], rs, idOf)[k]) == Some(k)
  {
    UpsertAllContents(map[], rs, idOf, k);
    if exists i :: 0 <= i < |rs| && idOf(rs[i]) == Some(k) {
      var i :| 0 <= i < |rs| && idOf(rs[i]) == Some(k);
      assert forall j :: i < j < |rs| ==> idOf(rs[j]) != Some(k);
    }
  }

  /** The first push loop of the search: every document hit, group after group. */
  method PushDocumentHits(documentHits: seq<FieldHits<Document>>) returns (results: seq<SearchResult>)
    ensures results == DocumentResults(documentHits)
  {
    results := [];
    var g := 0;
    while g < |documentHits|
      invariant 0 <= g <= |documentHits|
      invariant results == DocumentResults(documentHits[..g])
    {
      var group := documentHits[g];
      var before := results;
      var i := 0;
      while i < |group.records|
        invariant 0 <= i <= |group.records|
        invariant results == before + TagDocuments(group.records[..i], group.score)
      {
        TagDocumentsSnoc(group.records, i, group.score);
        results := results + [SearchResult(DocumentType, DocumentItem(group.records[i]), group.score)];
        i := i + 1;
      }
      DocumentResultsSnoc(documentHits, g);
      g := g + 1;
    }
    assert documentHits[..g] == documentHits;
  }

  /** The second push loop: every category hit, appended after `pushed`. */
  method PushCategoryHits(pushed: seq<SearchResult>, categoryHits: seq<FieldHits<Category>>)
    returns (results: seq<SearchResult>)
    ensures results == pushed + CategoryResults(categoryHits)
  {
    results := pushed;
    var g := 0;
    while g < |categoryHits|
      invariant 0 <= g <= |categoryHits|
      invariant results == pushed + CategoryResults(categoryHits[..g])
    {
      var group := categoryHits[g];
      var before := results;
      var i := 0;
      while i < |group.records|
        invariant 0 <= i <= |group.records|
        invariant results == before + TagCategories(group.records[..i], group.score)
      {
        TagCategoriesSnoc(group.records, i, group.score);
        results := results + [SearchResult(CategoryType, CategoryItem(group.records[i]), group.score)];
        i := i + 1;
      }
      CategoryResultsSnoc(categoryHits, g);
      g := g + 1;
    }
    assert categoryHits[..g] == categoryHits;
  }

  lemma TagDocumentsSnoc(docs: seq<Document>, i: int, score: Option<real>)
    requires 0 <= i < |docs|
    ensures TagDocuments(docs[..i + 1], score) ==
            TagDocuments(docs[..i], score) + [SearchResult(DocumentType, DocumentItem(docs[i]), score)]
  {
  }

  lemma TagCategoriesSnoc(cats: seq<Category>, i: int, score: Option<real>)
    requires 0 <= i < |cats|
    ensures TagCategories(cats[..i + 1], score) ==
            TagCategories(cats[..i], score) + [SearchResult(CategoryType, CategoryItem(cats[i]), score)]
  {
  }

  lemma DocumentResultsSnoc(hits: seq<FieldHits<Document>>, g: int)
    requires 0 <= g < |hits|
    ensures DocumentResults(hits[..g + 1]) ==
            DocumentResults(hits[..g]) + TagDocuments(hits[g].records[..|hits[g].records|], hits[g].score)
  {
    assert hits[..g + 1][..g] == hits[..g];
    assert hits[g].records[..|hits[g].records|] == hits[g].records;
  }

  lemma CategoryResultsSnoc(hits: seq<FieldHits<Category>>, g: int)
    requires 0 <= g < |hits|
    ensures CategoryResults(hits[..g + 1]) ==
            CategoryResults(hits[..g]) + TagCategories(hits[g].records[..|hits[g].records|], hits[g].score)
  {
    assert hits[..g + 1][..g] == hits[..g];
    assert hits[g].records[..|hits[g].records|] == hits[g].records;
  }

  /** The service, holding the two indices as maps from id to stored record. */
  class SearchService {
    var documents: map<nat, Document>
    var categories: map<nat, Category>

    constructor()
      ensures documents == map[] && categories == map[]
    {
      documents := map[];
      categories := map[];
    }

    /** Clears both indices and reloads them from the tables. A table read that throws
        ends the rebuild there, and the thrown value is returned. */
    method IndexAll(documentRows: Read<seq<Document>>, categoryRows: Read<seq<Category>>)
      returns (thrown: Option<Thrown>)
      modifies this
      ensures documentRows.ReadFailed? ==>
                thrown == Some(documentRows.thrown) && documents == map[] && categories == map[]
      ensures documentRows.Loaded? ==> documents == UpsertAll(map[], documentRows.rows, DocumentId)
      ensures documentRows.Loaded? && categoryRows.ReadFailed? ==>
                thrown == Some(categoryRows.thrown) && categories == map[]
      ensures documentRows.Loaded? && categoryRows.Loaded? ==>
                thrown == None && categories == UpsertAll(map[], categoryRows.rows, CategoryId)
    {
      documents := map[];
      categories := map[];
      if documentRows.ReadFailed? {
        return Some(documentRows.thrown);
      }
      var docs := documentRows.rows;
      var i := 0;
      while i < |docs|
        invariant 0 <= i <= |docs|
        invariant documents == UpsertAll(map[], docs[..i], DocumentId)
        invariant categories == map[]
      {
        assert docs[..i + 1][..i] == docs[..i];
        if docs[i].id.Some? {
          documents := documents[docs[i].id.value := docs[i]];
        }
        i := i + 1;
      }
      assert docs[..i] == docs;
      if categoryRows.ReadFailed? {
        return Some(categoryRows.thrown);
      }
      var cats := categoryRows.rows;
      var j := 0;
      while j < |cats|
        invariant 0 <= j <= |cats|
        invariant categories == UpsertAll(map[], cats[..j], CategoryId)
        invariant documents == UpsertAll(map[], docs, DocumentId)
      {
        assert cats[..j + 1][..j] == cats[..j];
        if cats[j].id.Some? {
          categories := categories[cats[j].id.value := cats[j]];
        }
        j := j + 1;
      }
      assert cats[..j] == cats;
      thrown := None;
    }

    /** An empty query answers [] without consulting either index; any other query
        answers the merged hits, ranked by score. */
    method Search(query: string, documentHits: seq<FieldHits<Document>>, categoryHits: seq<FieldHits<Category>>)
      returns (results: seq<SearchResult>)
      ensures query == "" ==> results == []
      ensures query != "" ==> results == Ranking(documentHits, categoryHits)
    {
      if query == "" {
        return [];
      }
      var pushed := PushDocumentHits(documentHits);
      results := PushCategoryHits(pushed, categoryHits);
      results := SortByScore(results);
    }

    /** Adds or updates one document; a document without an id is ignored. */
    method AddDocument(d: Document)
      modifies this
      ensures documents == Upsert(old(documents), d, DocumentId)
      ensures categories == old(categories)
    {
      if d.id.Some? {
        documents := documents[d.id.value := d];
      }
    }

    /** Adds or updates one category; a category without an id is ignored. */
    method AddCategory(c: Category)
      modifies this
      ensures categories == Upsert(old(categories), c, CategoryId)
      ensures documents == old(documents)
    {
      if c.id.Some? {
        categories := categories[c.id.value := c];
      }
    }

    /** Removes one document id; an unknown id is a no-op. */
    method RemoveDocument(id: nat)
      modifies this
      ensures documents == old(documents) - {id}
      ensures categories == old(categories)
    {
      documents := documents - {id};
    }

    /** Removes one category id; an unknown id is a no-op. */
    method RemoveCategory(id: nat)
      modifies this
      ensures categories == old(categories) - {id}
      ensures documents == old(documents)
    {
      categories := categories - {id};
    }
  }

  /** Removing undoes adding: a record added under an id that was not indexed, then
      removed by that id, leaves the index as it was. */
  lemma RemoveUndoesAdd<T>(index: map<nat, T>, r: T, idOf: T -> Option<nat>)
    requires idOf(r).Some? && idOf(r).value !in index
    ensures Upsert(index, r, idOf) - {idOf(r).value} == index
  {
    var k := idOf(r).value;
    assert Upsert(index, r, idOf) == index[k := r];
    assert (index[k := r] - {k}).Keys == index.Keys;
  }
}
