/** The command palette dialog: its open flag, toggled by Ctrl/Meta+K, and the grouping of
    the hook's results into a Documents group and a Categories group. */
module CommandPalette {
  import opened Wrappers
  import opened Text
  import opened Search
  import opened CommandBase

  /** A keydown event as the handler reads it. */
  datatype KeyEvent = KeyEvent(key: string, ctrlKey: bool, metaKey: bool)

  predicate IsToggleKey(e: KeyEvent) {
    e.key == "k" && (e.metaKey || e.ctrlKey)
  }

  class Palette {
    var open: bool

    /** `defaultOpen` is false unless given. */
    constructor(defaultOpen: Option<bool>)
      ensures open == (defaultOpen.Some? && defaultOpen.value)
    {
      open := match defaultOpen
        case Some(b) => b
        case None => false;
    }

    /** The document-level keydown listener. */
    method KeyDown(e: KeyEvent)
      modifies this
      ensures IsToggleKey(e) ==> open == !old(open)
      ensures !IsToggleKey(e) ==> open == old(open)
    {
      if IsToggleKey(e) {
        open := !open;
      }
    }
  }

  /** The Documents group: the results tagged "document", in result order. */
  function DocumentGroup(results: seq<SearchResult>): (g: seq<SearchResult>)
    ensures forall r :: r in g <==> r in results && r.kind == DocumentType
  {
    if results == [] then []
    else (if results[0].kind == DocumentType then [results[0]] else []) + DocumentGroup(results[1..])
  }

  /** The Categories group: the results tagged "category", in result order. */
  function CategoryGroup(results: seq<SearchResult>): (g: seq<SearchResult>)
    ensures forall r :: r in g <==> r in results && r.kind == CategoryType
  {
    if results == [] then []
    else (if results[0].kind == CategoryType then [results[0]] else []) + CategoryGroup(results[1..])
  }

  /** The two groups split the results: together they hold each result exactly once. */
  lemma {:induction false} GroupsPartition(results: seq<SearchResult>)
    ensures multiset(DocumentGroup(results)) + multiset(CategoryGroup(results)) == multiset(results)
    ensures |DocumentGroup(results)| + |CategoryGroup(results)| == |results|
  {
    if results != [] {
      GroupsPartition(results[1..]);
      assert results == [results[0]] + results[1..];
    }
  }

  /** The groups keep the result order: each distributes over concatenation. */
  lemma {:induction false} DocumentGroupAppend(a: seq<SearchResult>, b: seq<SearchResult>)
    ensures DocumentGroup(a + b) == DocumentGroup(a) + DocumentGroup(b)
    decreases |a|
  {
    if a != [] {
      assert (a + b)[0] == a[0] && (a + b)[1..] == a[1..] + b;
      DocumentGroupAppend(a[1..], b);
      var h := if a[0].kind == DocumentType then [a[0]] else [];
      assert DocumentGroup(a + b) == h + DocumentGroup(a[1..] + b);
      assert DocumentGroup(a) == h + DocumentGroup(a[1..]);
    } else {
      assert a + b == b;
    }
  }

  lemma {:induction false} CategoryGroupAppend(a: seq<SearchResult>, b: seq<SearchResult>)
    ensures CategoryGroup(a + b) == CategoryGroup(a) + CategoryGroup(b)
    decreases |a|
  {
    if a != [] {
      assert (a + b)[0] == a[0] && (a + b)[1..] == a[1..] + b;
      CategoryGroupAppend(a[1..], b);
      var h := if a[0].kind == CategoryType then [a[0]] else [];
      assert CategoryGroup(a + b) == h + CategoryGroup(a[1..] + b);
      assert CategoryGroup(a) == h + CategoryGroup(a[1..]);
    } else {
      assert a + b == b;
    }
  }

  /** The two headed groups as rendered. */
  datatype Groups = Groups(documents: seq<SearchResult>, categories: seq<SearchResult>)

  /** `results.length > 0 && <>…</>`: no group is rendered for an empty result list;
      otherwise the two groups hold every result exactly once. */
  function RenderedGroups(results: seq<SearchResult>): (g: Option<Groups>)
    ensures g.None? <==> results == []
    ensures g.Some? ==> |g.value.documents| + |g.value.categories| == |results|
    ensures g.Some? ==> multiset(g.value.documents) + multiset(g.value.categories) == multiset(results)
  {
    if |results| > 0 then
      GroupsPartition(results);
      Some(Groups(DocumentGroup(results), CategoryGroup(results)))
    else None
  }

  /** The value of a result's item: `doc-${id}` or `cat-${id}`. */
  function ResultItemValue(r: SearchResult): (v: string)
    ensures r.item.DocumentItem? ==> DocumentPrefix <= v
    ensures r.item.CategoryItem? ==> CategoryPrefix <= v
  {
    match r.item
    case DocumentItem(d) => DocumentItemValue(d)
    case CategoryItem(c) => CategoryItemValue(c)
  }

  /** A palette item value carries the item's id after a four-character type prefix, so
      reading it back gives the id. */
  lemma ResultItemValueRoundTrip(r: SearchResult)
    requires ItemId(r.item).Some?
    ensures ParseInt(ResultItemValue(r)[4..]) == Some(ItemId(r.item).value)
  {
    var v := ResultItemValue(r);
    assert v[4..] == NatToString(ItemId(r.item).value);
    ParseIntOfNatToString(ItemId(r.item).value);
  }
}
