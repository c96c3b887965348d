/** The command menu: the slug function used to build document routes, the filtering of
    the stored documents and categories by the current search results, the encoding of menu
    item values, and the resolution of a selected item to a route. */
module CommandBase {
  import opened Wrappers
  import opened Text
  import opened Records
  import opened Search
  import opened UseSearch

  // ---------------------------------------------------------------------------
  // slugify: lower-case, whitespace runs to '-', drop non-word characters,
  // hyphen runs to one '-', trim hyphens at both ends

  /** Replaces each maximal run of characters from `run` by the single character `with`
      (a global replace of `[run]+`). */
  function ReplaceRuns(s: string, run: set<char>, with: char): (r: string)
    decreases |s|
  {
    if s == [] then []
    else if s[0] in run then [with] + ReplaceRuns(DropLeading(s, run), run, with)
    else [s[0]] + ReplaceRuns(s[1..], run, with)
  }

  /** Drops the leading characters that belong to `run` (a replace of `^[run]+` by ""). */
  function DropLeading(s: string, run: set<char>): (r: string)
    ensures |r| <= |s|
    ensures s != [] && s[0] in run ==> |r| < |s|
    ensures r == [] || r[0] !in run
    decreases |s|
  {
    if s != [] && s[0] in run then DropLeading(s[1..], run) else s
  }

  /** Drops the trailing characters that belong to `run` (a replace of `[run]+$` by ""). */
  function DropTrailing(s: string, run: set<char>): (r: string)
    ensures |r| <= |s|
    ensures r == [] || r[|r| - 1] !in run
    decreases |s|
  {
    if s != [] && s[|s| - 1] in run then DropTrailing(s[..|s| - 1], run) else s
  }

  /** Dropping leading characters leaves a suffix, and every character dropped belongs to
      the run. */
  lemma {:induction false} DropLeadingIsSuffix(s: string, run: set<char>)
    ensures DropLeading(s, run) == s[|s| - |DropLeading(s, run)|..]
    ensures forall i :: 0 <= i < |s| - |DropLeading(s, run)| ==> s[i] in run
    decreases |s|
  {
    if s != [] && s[0] in run {
      DropLeadingIsSuffix(s[1..], run);
      assert s[1..][|s[1..]| - |DropLeading(s, run)|..] == s[|s| - |DropLeading(s, run)|..];
      forall i | 0 < i < |s| - |DropLeading(s, run)| ensures s[i] in run {
        assert s[i] == s[1..][i - 1];
      }
    }
  }

  /** Dropping trailing characters leaves a prefix, and every character dropped belongs to
      the run. */
  lemma {:induction false} DropTrailingIsPrefix(s: string, run: set<char>)
    ensures DropTrailing(s, run) == s[..|DropTrailing(s, run)|]
    ensures forall i :: |DropTrailing(s, run)| <= i < |s| ==> s[i] in run
    decreases |s|
  {
    if s != [] && s[|s| - 1] in run {
      DropTrailingIsPrefix(s[..|s| - 1], run);
      assert s[..|s| - 1][..|DropTrailing(s, run)|] == s[..|DropTrailing(s, run)|];
      forall i | |DropTrailing(s, run)| <= i < |s| - 1 ensures s[i] in run {
        assert s[i] == s[..|s| - 1][i];
      }
    }
  }

  predicate IsWordOrHyphen(c: char) { IsWordChar(c) || c == '-' }

  /** Removes every character outside `[\w\-]`. */
  function KeepWordOrHyphen(s: string): (r: string)
    ensures |r| <= |s|
    ensures forall i :: 0 <= i < |r| ==> IsWordOrHyphen(r[i]) && r[i] in s
  {
    if s == [] then []
    else (if IsWordOrHyphen(s[0]) then [s[0]] else []) + KeepWordOrHyphen(s[1..])
  }

  /** The filter works character by character: it distributes over concatenation and
      keeps a single character exactly when it is a word character or a hyphen, so it
      keeps every such character, in order. */
  lemma {:induction false} KeepWordOrHyphenAppend(a: string, b: string)
    ensures KeepWordOrHyphen(a + b) == KeepWordOrHyphen(a) + KeepWordOrHyphen(b)
    decreases |a|
  {
    if a != [] {
      assert (a + b)[0] == a[0] && (a + b)[1..] == a[1..] + b;
      KeepWordOrHyphenAppend(a[1..], b);
      var h := if IsWordOrHyphen(a[0]) then [a[0]] else [];
      assert KeepWordOrHyphen(a + b) == h + KeepWordOrHyphen(a[1..] + b);
      assert KeepWordOrHyphen(a) == h + KeepWordOrHyphen(a[1..]);
    } else {
      assert a + b == b;
    }
  }

  lemma KeepWordOrHyphenChar(c: char)
    ensures IsWordOrHyphen(c) ==> KeepWordOrHyphen([c]) == [c]
    ensures !IsWordOrHyphen(c) ==> KeepWordOrHyphen([c]) == []
  {
  }

  const Hyphen: set<char> := {'-'}

  /** The stages after the whitespace replacement. */
  function FinishSlug(s: string): string {
    DropTrailing(DropLeading(ReplaceRuns(KeepWordOrHyphen(s), Hyphen, '-'), Hyphen), Hyphen)
  }

  function Slugify(s: string): string {
    FinishSlug(ReplaceRuns(ToLower(s), Whitespace, '-'))
  }

  predicate IsSlugChar(c: char) { IsLower(c) || IsDigit(c) || c == '_' || c == '-' }

  predicate NoDoubleHyphen(t: string) {
    forall i, j :: 0 <= i < |t| && 0 <= j < |t| && j == i + 1 ==> t[i] != '-' || t[j] != '-'
  }

  /** The shape of every slug: lower-case ASCII letters, digits, '_' and '-', no two
      hyphens in a row, no hyphen at either end. */
  predicate IsSlug(t: string) {
    && (forall i :: 0 <= i < |t| ==> IsSlugChar(t[i]))
    && NoDoubleHyphen(t)
    && (t != [] ==> t[0] != '-' && t[|t| - 1] != '-')
  }

  /** Replacing runs brings in no character other than the replacement: whatever holds of
      every input character and of the replacement holds of every output character. */
  lemma {:induction false} ReplaceRunsKeeps(s: string, run: set<char>, with: char, P: char -> bool)
    requires P(with)
    requires forall i :: 0 <= i < |s| ==> P(s[i])
    ensures forall i :: 0 <= i < |ReplaceRuns(s, run, with)| ==> P(ReplaceRuns(s, run, with)[i])
    decreases |s|
  {
    if s != [] {
      var rest := if s[0] in run then DropLeading(s, run) else s[1..];
      DropLeadingIsSuffix(s, run);
      SuffixKeeps(s, |s| - |rest|, P);
      ReplaceRunsKeeps(rest, run, with, P);
      var head := if s[0] in run then with else s[0];
      ConsKeeps(head, ReplaceRuns(rest, run, with), P);
      assert ReplaceRuns(s, run, with) == [head] + ReplaceRuns(rest, run, with);
    }
  }

  lemma SuffixKeeps(s: string, k: int, P: char -> bool)
    requires 0 <= k <= |s|
    requires forall i :: 0 <= i < |s| ==> P(s[i])
    ensures forall i :: 0 <= i < |s[k..]| ==> P(s[k..][i])
  {
    forall i | 0 <= i < |s[k..]| ensures P(s[k..][i]) {
      assert s[k..][i] == s[k + i];
    }
  }

  lemma ConsKeeps(head: char, t: string, P: char -> bool)
    requires P(head)
    requires forall i :: 0 <= i < |t| ==> P(t[i])
    ensures forall i :: 0 <= i < |[head] + t| ==> P(([head] + t)[i])
  {
    forall i | 0 <= i < |[head] + t| ensures P(([head] + t)[i]) {
      if i > 0 {
        assert ([head] + t)[i] == t[i - 1];
      }
    }
  }

  /** After collapsing hyphen runs no two hyphens are adjacent. */
  lemma {:induction false} ReplaceRunsNoDouble(s: string)
    ensures NoDoubleHyphen(ReplaceRuns(s, Hyphen, '-'))
    ensures s != [] && s[0] != '-' ==> ReplaceRuns(s, Hyphen, '-')[0] == s[0]
    decreases |s|
  {
    if s != [] {
      var rest := if s[0] in Hyphen then DropLeading(s, Hyphen) else s[1..];
      ReplaceRunsNoDouble(rest);
      var r := ReplaceRuns(s, Hyphen, '-');
      var rr := ReplaceRuns(rest, Hyphen, '-');
      assert r == [r[0]] + rr;
      forall i | 0 <= i < |r| - 1 ensures r[i] != '-' || r[i + 1] != '-' {
        if i > 0 {
          assert r[i] == rr[i - 1] && r[i + 1] == rr[i];
        } else if s[0] == '-' && rr != [] {
          assert rest != [] && rest[0] != '-';
          assert r[1] == rr[0] == rest[0];
        }
      }
    }
  }

  /** A string with no character of `run` is left alone. */
  lemma {:induction false} ReplaceRunsIdentity(s: string, run: set<char>, with: char)
    requires forall i :: 0 <= i < |s| ==> s[i] !in run
    ensures ReplaceRuns(s, run, with) == s
    decreases |s|
  {
    if s != [] {
      ReplaceRunsIdentity(s[1..], run, with);
    }
  }

  /** Collapsing hyphen runs leaves a string without double hyphens alone. */
  lemma {:induction false} CollapseIdentity(s: string)
    requires NoDoubleHyphen(s)
    ensures ReplaceRuns(s, Hyphen, '-') == s
    decreases |s|
  {
    if s != [] {
      assert NoDoubleHyphen(s[1..]) by {
        forall i | 0 <= i < |s[1..]| - 1 ensures s[1..][i] != '-' || s[1..][i + 1] != '-' {
          assert s[1..][i] == s[i + 1] && s[1..][i + 1] == s[i + 2];
        }
      }
      CollapseIdentity(s[1..]);
      if s[0] == '-' {
        assert |s| > 1 ==> s[1] != '-';
        assert DropLeading(s, Hyphen) == s[1..] by {
          assert DropLeading(s, Hyphen) == DropLeading(s[1..], Hyphen);
        }
      }
    }
  }

  lemma {:induction false} KeepWordOrHyphenIdentity(s: string)
    requires forall i :: 0 <= i < |s| ==> IsWordOrHyphen(s[i])
    ensures KeepWordOrHyphen(s) == s
    decreases |s|
  {
    if s != [] { KeepWordOrHyphenIdentity(s[1..]); }
  }

  /** The finishing stages leave a slug alone. */
  lemma FinishSlugIdentity(t: string)
    requires IsSlug(t)
    ensures FinishSlug(t) == t
  {
    forall i | 0 <= i < |t| ensures IsWordOrHyphen(t[i]) {
      assert IsSlugChar(t[i]);
    }
    KeepWordOrHyphenIdentity(t);
    CollapseIdentity(t);
    var s4 := ReplaceRuns(KeepWordOrHyphen(t), Hyphen, '-');
    assert s4 == t;
    assert DropLeading(t, Hyphen) == t;
    assert DropTrailing(t, Hyphen) == t;
  }

  /** Collapsing hyphen runs in text free of upper-case letters yields slug characters
      only, with no two hyphens in a row. */
  lemma CollapsedChars(s: string)
    requires forall i :: 0 <= i < |s| ==> !IsUpper(s[i])
    ensures forall i :: 0 <= i < |ReplaceRuns(KeepWordOrHyphen(s), Hyphen, '-')| ==>
              IsSlugChar(ReplaceRuns(KeepWordOrHyphen(s), Hyphen, '-')[i])
    ensures NoDoubleHyphen(ReplaceRuns(KeepWordOrHyphen(s), Hyphen, '-'))
  {
    var s3 := KeepWordOrHyphen(s);
    var s4 := ReplaceRuns(s3, Hyphen, '-');
    forall i | 0 <= i < |s3| ensures IsSlugChar(s3[i]) {
      var m :| 0 <= m < |s| && s[m] == s3[i];
    }
    ReplaceRunsKeeps(s3, Hyphen, '-', IsSlugChar);
    ReplaceRunsNoDouble(s3);
  }

  /** A slice of slug characters without double hyphens keeps both properties. */
  lemma SliceKeepsSlugShape(t: string, lo: int, hi: int)
    requires 0 <= lo <= hi <= |t|
    requires forall i :: 0 <= i < |t| ==> IsSlugChar(t[i])
    requires NoDoubleHyphen(t)
    ensures forall i :: 0 <= i < hi - lo ==> IsSlugChar(t[lo..hi][i])
    ensures NoDoubleHyphen(t[lo..hi])
  {
    var u := t[lo..hi];
    forall i | 0 <= i < |u| ensures IsSlugChar(u[i]) {
      assert u[i] == t[lo + i];
    }
    forall i | 0 <= i < |u| - 1 ensures u[i] != '-' || u[i + 1] != '-' {
      assert u[i] == t[lo + i] && u[i + 1] == t[lo + i + 1];
    }
  }

  /** Trimming the hyphens at both ends of slug characters without double hyphens gives a slug. */
  lemma TrimmedIsSlug(s4: string)
    requires forall i :: 0 <= i < |s4| ==> IsSlugChar(s4[i])
    requires NoDoubleHyphen(s4)
    ensures IsSlug(DropTrailing(DropLeading(s4, Hyphen), Hyphen))
  {
    var u := DropTrailing(DropLeading(s4, Hyphen), Hyphen);
    var lo, hi := TrimIsSlice(s4);
    SliceIsSlug(s4, lo, hi, u);
  }

  /** Trimming hyphens at both ends keeps a slice of the text that neither starts nor
      ends with a hyphen. */
  lemma TrimIsSlice(s4: string) returns (lo: int, hi: int)
    ensures 0 <= lo <= hi <= |s4|
    ensures DropTrailing(DropLeading(s4, Hyphen), Hyphen) == s4[lo..hi]
    ensures var u := DropTrailing(DropLeading(s4, Hyphen), Hyphen);
            u != [] ==> u[0] != '-' && u[|u| - 1] != '-'
  {
    var s5 := DropLeading(s4, Hyphen);
    var s6 := DropTrailing(s5, Hyphen);
    lo := |s4| - |s5|;
    hi := lo + |s6|;
    DropLeadingIsSuffix(s4, Hyphen);
    DropTrailingIsPrefix(s5, Hyphen);
    PrefixOfSuffix(s4, lo, s5, s6);
    assert s6 != [] ==> s5[0] !in Hyphen && s6[|s6| - 1] !in Hyphen;
  }

  /** A prefix of a suffix is a slice, and starts where the suffix does. */
  lemma PrefixOfSuffix(a: string, lo: int, b: string, c: string)
    requires 0 <= lo <= |a| && b == a[lo..]
    requires |c| <= |b| && c == b[..|c|]
    ensures c == a[lo..lo + |c|]
    ensures c != [] ==> c[0] == b[0]
  {
  }

  /** A slice of slug characters without double hyphens that neither starts nor ends with
      a hyphen is a slug. */
  lemma SliceIsSlug(t: string, lo: int, hi: int, u: string)
    requires 0 <= lo <= hi <= |t| && u == t[lo..hi]
    requires forall i :: 0 <= i < |t| ==> IsSlugChar(t[i])
    requires NoDoubleHyphen(t)
    requires u != [] ==> u[0] != '-' && u[|u| - 1] != '-'
    ensures IsSlug(u)
  {
    SliceKeepsSlugShape(t, lo, hi);
  }

  /** The finishing stages always produce a slug from text free of upper-case letters. */
  lemma FinishSlugIsSlug(s: string)
    requires forall i :: 0 <= i < |s| ==> !IsUpper(s[i])
    ensures IsSlug(FinishSlug(s))
  {
    CollapsedChars(s);
    TrimmedIsSlug(ReplaceRuns(KeepWordOrHyphen(s), Hyphen, '-'));
  }

  /** Every slug is lower-case over `[a-z0-9_-]`, has no double hyphen and no hyphen at
      either end. */
  lemma SlugifyIsSlug(s: string)
    ensures IsSlug(Slugify(s))
  {
    var s1 := ToLower(s);
    var s2 := ReplaceRuns(s1, Whitespace, '-');
    ReplaceRunsKeeps(s1, Whitespace, '-', c => !IsUpper(c));
    FinishSlugIsSlug(s2);
  }

  /** A slug is its own slug. */
  lemma SlugOfSlug(t: string)
    requires IsSlug(t)
    ensures Slugify(t) == t
  {
    assert ToLower(t) == t;
    forall i | 0 <= i < |t| ensures t[i] !in Whitespace {
      assert IsSlugChar(t[i]);
    }
    ReplaceRunsIdentity(t, Whitespace, '-');
    FinishSlugIdentity(t);
  }

  /** `slugify` is idempotent. */
  lemma SlugifyIdempotent(s: string)
    ensures Slugify(Slugify(s)) == Slugify(s)
  {
    SlugifyIsSlug(s);
    SlugOfSlug(Slugify(s));
  }

  // ---------------------------------------------------------------------------
  // Filtering the stored records by the current results

  /** `results.some(r => r.type === kind && r.item.id === id)` */
  predicate Admits(results: seq<SearchResult>, kind: ResultType, id: Option<nat>) {
    exists i :: 0 <= i < |results| && results[i].kind == kind && ItemId(results[i].item) == id
  }

  function KeepAdmittedDocuments(documents: seq<Document>, results: seq<SearchResult>): (r: seq<Document>)
    ensures |r| <= |documents|
    ensures forall d :: d in r <==> d in documents && Admits(results, DocumentType, d.id)
  {
    if documents == [] then []
    else
      (if Admits(results, DocumentType, documents[0].id) then [documents[0]] else [])
      + KeepAdmittedDocuments(documents[1..], results)
  }

  function KeepAdmittedCategories(categories: seq<Category>, results: seq<SearchResult>): (r: seq<Category>)
    ensures |r| <= |categories|
    ensures forall c :: c in r <==> c in categories && Admits(results, CategoryType, c.id)
  {
    if categories == [] then []
    else
      (if Admits(results, CategoryType, categories[0].id) then [categories[0]] else [])
      + KeepAdmittedCategories(categories[1..], results)
  }

  /** `filteredDocuments`: all documents while the query is "", else those named by a
      document result. */
  function FilteredDocuments(searchQuery: string, documents: seq<Document>, results: seq<SearchResult>): seq<Document> {
    if searchQuery == "" then documents else KeepAdmittedDocuments(documents, results)
  }

  function FilteredCategories(searchQuery: string, categories: seq<Category>, results: seq<SearchResult>): seq<Category> {
    if searchQuery == "" then categories else KeepAdmittedCategories(categories, results)
  }

  /** Filtering keeps order: it distributes over concatenation. */
  lemma {:induction false} KeepAdmittedDocumentsAppend(a: seq<Document>, b: seq<Document>, results: seq<SearchResult>)
    ensures KeepAdmittedDocuments(a + b, results) == KeepAdmittedDocuments(a, results) + KeepAdmittedDocuments(b, results)
  {
    if a == [] {
      assert a + b == b;
    } else {
      assert (a + b)[0] == a[0] && (a + b)[1..] == a[1..] + b;
      KeepAdmittedDocumentsAppend(a[1..], b, results);
    }
  }

  lemma {:induction false} KeepAdmittedCategoriesAppend(a: seq<Category>, b: seq<Category>, results: seq<SearchResult>)
    ensures KeepAdmittedCategories(a + b, results) == KeepAdmittedCategories(a, results) + KeepAdmittedCategories(b, results)
  {
    if a == [] {
      assert a + b == b;
    } else {
      assert (a + b)[0] == a[0] && (a + b)[1..] == a[1..] + b;
      KeepAdmittedCategoriesAppend(a[1..], b, results);
    }
  }

  /** With a query, a document is listed iff some result tagged "document" carries its id;
      category results never admit a document; without a query all documents are listed. */
  lemma FilteredDocumentsMembership(searchQuery: string, documents: seq<Document>, results: seq<SearchResult>, d: Document)
    ensures searchQuery == "" ==> FilteredDocuments(searchQuery, documents, results) == documents
    ensures searchQuery != "" ==>
              (d in FilteredDocuments(searchQuery, documents, results) <==>
               d in documents && exists r :: r in results && r.kind == DocumentType && ItemId(r.item) == d.id)
    ensures searchQuery != "" && (forall r :: r in results ==> r.kind == CategoryType) ==>
              FilteredDocuments(searchQuery, documents, results) == []
  {
    if searchQuery != "" && (forall r :: r in results ==> r.kind == CategoryType) {
      NoDocumentResultKeepsNoDocument(documents, results);
    }
  }

  lemma {:induction false} NoDocumentResultKeepsNoDocument(documents: seq<Document>, results: seq<SearchResult>)
    requires forall r :: r in results ==> r.kind == CategoryType
    ensures KeepAdmittedDocuments(documents, results) == []
    decreases |documents|
  {
    if documents != [] {
      assert !Admits(results, DocumentType, documents[0].id) by {
        forall i | 0 <= i < |results| ensures results[i].kind != DocumentType {
          assert results[i] in results;
        }
      }
      NoDocumentResultKeepsNoDocument(documents[1..], results);
    }
  }

  lemma FilteredCategoriesMembership(searchQuery: string, categories: seq<Category>, results: seq<SearchResult>, c: Category)
    ensures searchQuery == "" ==> FilteredCategories(searchQuery, categories, results) == categories
    ensures searchQuery != "" ==>
              (c in FilteredCategories(searchQuery, categories, results) <==>
               c in categories && exists r :: r in results && r.kind == CategoryType && ItemId(r.item) == c.id)
    ensures searchQuery != "" && (forall r :: r in results ==> r.kind == DocumentType) ==>
              FilteredCategories(searchQuery, categories, results) == []
  {
    if searchQuery != "" && (forall r :: r in results ==> r.kind == DocumentType) {
      NoCategoryResultKeepsNoCategory(categories, results);
    }
  }

  lemma {:induction false} NoCategoryResultKeepsNoCategory(categories: seq<Category>, results: seq<SearchResult>)
    requires forall r :: r in results ==> r.kind == DocumentType
    ensures KeepAdmittedCategories(categories, results) == []
    decreases |categories|
  {
    if categories != [] {
      assert !Admits(results, CategoryType, categories[0].id) by {
        forall i | 0 <= i < |results| ensures results[i].kind != CategoryType {
          assert results[i] in results;
        }
      }
      NoCategoryResultKeepsNoCategory(categories[1..], results);
    }
  }

  // ---------------------------------------------------------------------------
  // Item values and selection

  /** A template literal of an id: its decimal text, or "undefined". */
  function IdText(id: Option<nat>): string {
    match id
    case Some(n) => NatToString(n)
    case None => "undefined"
  }

  const DocumentPrefix: string := "doc-"
  const CategoryPrefix: string := "cat-"

  /** `doc-${id}`, the value of a document item in both menus. */
  function DocumentItemValue(d: Document): string {
    DocumentPrefix + IdText(d.id)
  }

  /** `cat-${name}`, the value this menu gives a category item. */
  function CategoryItemValueByName(c: Category): string {
    CategoryPrefix + c.name
  }

  /** `cat-${id}`, the value the palette gives a category item, and the one the
      selection handler can resolve. */
  function CategoryItemValue(c: Category): string {
    CategoryPrefix + IdText(c.id)
  }

  /** `handleSelect` over a snapshot of the store: the route it navigates to, if any. */
  function ResolveSelection(value: string, store: Store): Option<string> {
    if DocumentPrefix <= value then ResolveDocument(value[|DocumentPrefix|..], store)
    else if CategoryPrefix <= value then ResolveCategory(value[|CategoryPrefix|..], store)
    else None
  }

  /** The "doc-" branch, given the text after the prefix. */
  function ResolveDocument(idText: string, store: Store): Option<string> {
    match ParseInt(idText)
    case None => None
    case Some(docId) =>
      match GetDocument(store.documents, docId)
      case None => None
      case Some(doc) =>
        match FirstLink(store.links, docId)
        case Some(link) =>
          (match GetCategory(store.categories, link.categoryId)
           case Some(category) => Some("/" + category.name + "/" + Slugify(doc.title))
           case None => None)
        case None => Some("/uncategorized/" + Slugify(doc.title))
  }

  /** The "cat-" branch, given the text after the prefix. */
  function ResolveCategory(idText: string, store: Store): Option<string> {
    match ParseInt(idText)
    case None => None
    case Some(catId) =>
      match GetCategory(store.categories, catId)
      case Some(category) => Some("/" + category.name)
      case None => None
  }

  /** Selecting a stored document whose first join row names a stored category goes to
      the category's route followed by the title's slug. */
  lemma SelectCategorisedDocument(store: Store, k: nat, d: Document, link: DocumentCategory, c: Category)
    requires GetDocument(store.documents, k) == Some(d)
    requires FirstLink(store.links, k) == Some(link)
    requires GetCategory(store.categories, link.categoryId) == Some(c)
    ensures ResolveSelection(DocumentItemValue(d), store) == Some("/" + c.name + "/" + Slugify(d.title))
  {
    ParseIntOfNatToString(k);
    assert DocumentItemValue(d)[|DocumentPrefix|..] == NatToString(k);
  }

  /** A stored document without a join row goes under "/uncategorized". */
  lemma SelectUncategorisedDocument(store: Store, k: nat, d: Document)
    requires GetDocument(store.documents, k) == Some(d)
    requires FirstLink(store.links, k) == None
    ensures ResolveSelection(DocumentItemValue(d), store) == Some("/uncategorized/" + Slugify(d.title))
  {
    ParseIntOfNatToString(k);
    assert DocumentItemValue(d)[|DocumentPrefix|..] == NatToString(k);
  }

  /** A missing document, or a join row naming a missing category, navigates nowhere. */
  lemma SelectDocumentNowhere(store: Store, k: nat)
    requires GetDocument(store.documents, k) == None ||
             (FirstLink(store.links, k).Some? &&
              GetCategory(store.categories, FirstLink(store.links, k).value.categoryId) == None)
    ensures ResolveSelection(DocumentPrefix + NatToString(k), store) == None
  {
    ParseIntOfNatToString(k);
    assert (DocumentPrefix + NatToString(k))[|DocumentPrefix|..] == NatToString(k);
  }

  /** The id-keyed category value resolves to the category's route. */
  lemma SelectCategoryById(store: Store, c: Category)
    requires c.id.Some? && GetCategory(store.categories, c.id.value) == Some(c)
    ensures ResolveSelection(CategoryItemValue(c), store) == Some("/" + c.name)
  {
    var v := CategoryItemValue(c);
    assert !(DocumentPrefix <= v) by { assert v[0] == 'c'; }
    assert CategoryPrefix <= v && v[|CategoryPrefix|..] == NatToString(c.id.value);
    ParseIntOfNatToString(c.id.value);
  }

  /** The name-keyed category value never resolves when the name starts with a letter,
      even though the category is stored. */
  lemma SelectCategoryByNameGoesNowhere(store: Store, c: Category)
    requires c.name != [] && (IsLower(c.name[0]) || IsUpper(c.name[0]))
    ensures ResolveSelection(CategoryItemValueByName(c), store) == None
  {
    var v := CategoryItemValueByName(c);
    assert !(DocumentPrefix <= v) by { assert v[0] == 'c'; }
    assert v[|CategoryPrefix|..] == c.name;
    ParseIntOfNonNumeric(c.name);
  }

  /** The name-keyed category value of a name that starts with digits selects the stored
      category whose id those digits spell, not the named one: "cat-2024 Papers" goes to
      the category with id 2024, or nowhere when there is none. */
  lemma SelectCategoryByNameDigits(store: Store, c: Category, n: nat, rest: string)
    requires c.name == NatToString(n) + rest && (rest == [] || !IsDigit(rest[0]))
    ensures GetCategory(store.categories, n).Some? ==>
              ResolveSelection(CategoryItemValueByName(c), store) == Some("/" + GetCategory(store.categories, n).value.name)
    ensures GetCategory(store.categories, n).None? ==> ResolveSelection(CategoryItemValueByName(c), store) == None
  {
    var v := CategoryItemValueByName(c);
    assert !(DocumentPrefix <= v) by { assert v[0] == 'c'; }
    assert v[|CategoryPrefix|..] == c.name;
    ParseIntOfNatPrefix(n, rest);
  }

  /** A concrete instance: the stored category {id: 1, name: "Calculus"}. */
  lemma CalculusItemGoesNowhere(c: Category, store: Store)
    requires c == Category(Some(1), "Calculus") && store == Store([], [c], [])
    ensures ResolveSelection(CategoryItemValueByName(c), store) == None
    ensures ResolveSelection(CategoryItemValue(c), store) == Some("/" + c.name)
  {
    assert GetCategory(store.categories, 1) == Some(c);
    assert IsUpper(c.name[0]);
    SelectCategoryByNameGoesNowhere(store, c);
    SelectCategoryById(store, c);
  }

  /** The menu's own state: the query typed so far, beside the search hook it feeds. */
  class CommandMenu {
    const hook: SearchHook
    var searchQuery: string

    constructor(hook: SearchHook)
      ensures this.hook == hook && searchQuery == ""
    {
      this.hook := hook;
      searchQuery := "";
    }

    /** `handleSearch`: remember the query and run the hook's search with it. */
    method HandleSearch(value: string, answer: LibraryAnswer)
      modifies this, hook
      ensures searchQuery == value
      ensures Trim(value) == [] ==>
                hook.results == [] && hook.isSearching == old(hook.isSearching) && hook.error == old(hook.error)
      ensures Trim(value) != [] && answer.Answered? ==>
                hook.results == Ranking(answer.documentHits, answer.categoryHits) &&
                hook.error == None && !hook.isSearching
      ensures Trim(value) != [] && answer.Threw? ==>
                hook.results == [] && hook.error == Some(MessageOr(answer.thrown, SearchFailedMessage)) &&
                !hook.isSearching
      ensures hook.isIndexing == old(hook.isIndexing)
    {
      searchQuery := value;
      hook.Search(value, answer);
    }
  }

  /** A whitespace-only query is truthy, so the lists are filtered, but the hook has set
      the results to []: nothing is listed. */
  lemma BlankQueryListsNothing(searchQuery: string, documents: seq<Document>, categories: seq<Category>)
    requires searchQuery != "" && Trim(searchQuery) == []
    ensures FilteredDocuments(searchQuery, documents, []) == []
    ensures FilteredCategories(searchQuery, categories, []) == []
  {
    FilteredDocumentsMembership(searchQuery, documents, [], Document(None, "", None, Other, "", None));
    FilteredCategoriesMembership(searchQuery, categories, [], Category(None, ""));
  }
}
