# Research library: a verified model of its core

The application is a desktop research library. Documents (PDF, plain text and other
files) and categories are kept in a browser-side database. A search service over two
full-text indices answers a command menu and a command palette. Selecting an item
navigates to `/<category>/<document-slug>`, and the dashboard breadcrumb turns that slug
back into a title. There is also a PDF viewer with page and zoom controls, an upload
dialog for links and files, and a chat panel that echoes what the user types. A settings
store and a small Rust host together decide which directory documents are kept in.

The model has one Dafny module per core source file, plus three shared modules:

- `Wrappers`: the `Option` type for a value that may be absent.
- `Text`: the ASCII part of JavaScript's string operations (`\s`, `\w`, `trim`,
  `toLowerCase`, `endsWith`, `parseInt`, decimal rendering).
- `Records`: the database records and keyed lookups.

State that the source updates in place is modelled as a class whose methods say what the
new state is. Computations that the source writes as expressions are modelled as functions
with lemmas about them. Everything the core awaits from outside enters as an explicit
input. That covers table reads, the full-text library's hits, host commands, the
directory picker, and the outcomes of file-system calls.

| module | source file |
|---|---|
| `Search` | src/lib/search.ts |
| `UseSearch` | src/hooks/useSearch.ts |
| `CommandBase` | src/components/command/base.tsx |
| `CommandPalette` | src/components/command/pallete.tsx |
| `Dashboard` | src/app/dashboard.tsx |
| `PdfViewer` | src/components/document/pdf-viewer.tsx |
| `UploadDialog` | src/components/document/add.tsx |
| `Chat` | src/components/document/chat.tsx |
| `Settings` | src/lib/settings.ts |
| `DocumentsDir` | src-tauri/src/lib.rs |

Search results are ranked by the library sort. This is modelled as a stable insertion
sort on the score key, with a missing score counting as 0. The model proves three things
about it:

- the output is non-increasing;
- the output is a permutation of the input;
- results with equal scores keep their relative order.

Each index is a map from record id to record. The library's add-or-update becomes
`Upsert` on that map.

## Model

| member | source | states |
|---|---|---|
| Text.TrimStartIsSuffix | src/hooks/useSearch.ts:52 | the leading part of `trim` only removes characters from the front, leaving a suffix |
| Text.TrimEndIsPrefix | src/hooks/useSearch.ts:52 | the trailing part of `trim` only removes characters from the back, leaving a prefix |
| Text.TrimEmptyIffBlank | src/hooks/useSearch.ts:52 | `trim` gives "" exactly when every character is whitespace, both directions |
| Text.Trim | src/hooks/useSearch.ts:52 | `trim`; its meaning is stated by TrimStartIsSuffix, TrimEndIsPrefix and TrimEmptyIffBlank |
| Text.ParseIntOfNatToString | src/components/command/base.tsx:62 | `parseInt` of the decimal rendering of a natural number gives that number back |
| Text.ParseIntOfNonNumeric | src/components/command/base.tsx:85 | `parseInt` of a text that does not start with a digit, sign or whitespace gives no number |
| Text.ParseIntOfNatPrefix | src/components/command/base.tsx:85 | `parseInt` of a text that starts with the decimal digits of a number, followed by anything that is not a digit, gives that number |
| Text.ParseInt | src/components/command/base.tsx:62 | `parseInt` with no radix; its meaning is stated by ParseIntOfNatToString and ParseIntOfNonNumeric |
| Records.GetDocument | src/components/command/base.tsx:64 | a found document is in the table and has the key; when none is found, no row has the key |
| Records.GetCategory | src/components/command/base.tsx:74 | a found category is in the table and has the key; when none is found, no row has the key |
| Records.FirstLink | src/components/command/base.tsx:68-71 | the first join row of the document, in table order; when none is found, no row names the document |
| Search.TagDocuments | src/lib/search.ts:84-93 | every result of one document field group is tagged "document" and carries that group's score, and the documents they carry are the group's records in order |
| Search.TagCategories | src/lib/search.ts:96-105 | every result of one category field group is tagged "category" and carries that group's score, and the categories they carry are the group's records in order |
| Search.DocumentResults | src/lib/search.ts:84-93 | the document hits, group after group, as pushed; its meaning is stated by DocumentResultsShape and DocumentResultsCover |
| Search.CategoryResults | src/lib/search.ts:96-105 | the category hits, group after group, as pushed; its meaning is stated by CategoryResultsShape and CategoryResultsCover |
| Search.Merge | src/lib/search.ts:81-105 | the list before sorting; its meaning is stated by MergeShape |
| Search.DocumentResultsShape | src/lib/search.ts:84-93 | one result per document hit, all tagged "document" and carrying a document |
| Search.DocumentResultsCover | src/lib/search.ts:84-93 | every record of every document hit group appears among the results, with its group's score |
| Search.CategoryResultsShape | src/lib/search.ts:96-105 | one result per category hit, all tagged "category" and carrying a category |
| Search.CategoryResultsCover | src/lib/search.ts:96-105 | every record of every category hit group appears among the results, with its group's score |
| Search.MergeShape | src/lib/search.ts:81-105 | the merged list holds all document results first and then all category results, and none is added or dropped |
| Search.InsertKeepsOrder | src/lib/search.ts:108 | inserting into a non-increasing list keeps it non-increasing |
| Search.InsertPermutes | src/lib/search.ts:108 | insertion adds exactly the inserted element and loses none |
| Search.InsertWithScore | src/lib/search.ts:108 | insertion never reorders elements that have equal scores |
| Search.WithScoreAppend | src/lib/search.ts:108 | the equal-score sublist of a concatenation is the concatenation of the sublists |
| Search.SortByScore | src/lib/search.ts:108 | the library sort, descending by score with a missing score counted as 0; its meaning is stated by SortByScoreSorted and SortByScoreStable |
| Search.SortByScoreSorted | src/lib/search.ts:108 | the sort output is non-increasing by score (missing counts as 0) and is a permutation of its input |
| Search.SortByScoreStable | src/lib/search.ts:108 | for every score, the results with that score keep their input order |
| Search.RankedResults | src/lib/search.ts:81-108 | the search output is ranked, is a permutation of document hits plus category hits, and among equal scores documents stay ahead of categories in library order |
| Search.Ranking | src/lib/search.ts:81-108 | the sorted merge a non-empty query returns; its meaning is stated by RankedResults |
| Search.UpsertAllContents | src/lib/search.ts:111-123 | after add-or-update over a list, an id is indexed exactly if it was indexed before or some record carries it; records without an id are skipped; the last record with the id wins |
| Search.UpsertAllKeeps | src/lib/search.ts:111-123 | add-or-update never removes an id |
| Search.Upsert | src/lib/search.ts:111-123 | the library's add-or-update of one record; its meaning is stated by UpsertAllContents, UpsertAllKeeps and RemoveUndoesAdd |
| Search.IndexOfTable | src/lib/search.ts:45-65 | rebuilding from a table with distinct ids indexes exactly the records that have an id, each under its own id |
| Search.RemoveUndoesAdd | src/lib/search.ts:111-133 | adding a record under an id that was not indexed and then removing that id gives back the index as it was |
| Search.SearchService.constructor | src/lib/search.ts:16-43 | both indices start empty |
| Search.SearchService.IndexAll | src/lib/search.ts:45-65 | both indices are cleared, then each holds exactly the stored records that have an id; a failed read stops the rebuild and is reported |
| Search.PushDocumentHits | src/lib/search.ts:83-93 | the document push loop yields exactly the tagged document hits, group after group, in library order |
| Search.PushCategoryHits | src/lib/search.ts:95-105 | the category push loop appends exactly the tagged category hits after what was pushed before |
| Search.SearchService.Search | src/lib/search.ts:67-109 | the empty query gives [] without consulting the indices; any other query, whitespace included, gives the sorted merge of the hits |
| Search.SearchService.AddDocument | src/lib/search.ts:111-116 | a document without an id leaves the index unchanged; otherwise it is added or updated under its id; the category index is untouched |
| Search.SearchService.AddCategory | src/lib/search.ts:118-123 | a category without an id leaves the index unchanged; otherwise it is added or updated under its id; the document index is untouched |
| Search.SearchService.RemoveDocument | src/lib/search.ts:125-128 | only that id leaves the document index; the category index is untouched |
| Search.SearchService.RemoveCategory | src/lib/search.ts:130-133 | only that id leaves the category index; the document index is untouched |
| UseSearch.SearchHook.constructor | src/hooks/useSearch.ts:7-10 | no results, nothing searching or indexing, no error |
| UseSearch.SearchHook.Initialize | src/hooks/useSearch.ts:13-26 | the indices are rebuilt, `isIndexing` is false afterwards whatever happened, and a failure records its message or "Failed to initialize search" |
| UseSearch.SearchHook.Resync | src/hooks/useSearch.ts:29-49 | when both reads succeed, every record with an id is upserted into its index; a failed read changes nothing |
| UseSearch.ResyncNeverRemoves | src/hooks/useSearch.ts:29-45 | a resync keeps every id already indexed, including deleted records, and indexes every stored record that has an id |
| UseSearch.SearchHook.Search | src/hooks/useSearch.ts:51-68 | a blank query only empties the results; success gives exactly the service's list and clears the error; failure empties the results and records the message or "Search failed"; `isSearching` ends false |
| CommandBase.DropLeading | src/components/command/base.tsx:55 | the result does not start with a character of the run, and is strictly shorter when the input does |
| CommandBase.DropLeadingIsSuffix | src/components/command/base.tsx:55 | the result is a suffix of the input, and every character removed belongs to the run |
| CommandBase.DropTrailing | src/components/command/base.tsx:56 | the result does not end with a character of the run |
| CommandBase.DropTrailingIsPrefix | src/components/command/base.tsx:56 | the result is a prefix of the input, and every character removed belongs to the run |
| CommandBase.KeepWordOrHyphen | src/components/command/base.tsx:53 | only word characters and hyphens of the input remain |
| CommandBase.KeepWordOrHyphenAppend | src/components/command/base.tsx:53 | the filter works character by character: it distributes over concatenation, so every kept character keeps its order |
| CommandBase.KeepWordOrHyphenChar | src/components/command/base.tsx:53 | a single character is kept exactly when it is a word character or a hyphen |
| CommandBase.ReplaceRunsKeeps | src/components/command/base.tsx:52 | replacing runs introduces no character other than the replacement: any property of every input character and of the replacement holds of every output character |
| CommandBase.ReplaceRunsNoDouble | src/components/command/base.tsx:54 | after collapsing hyphen runs, no two hyphens are adjacent |
| CommandBase.ReplaceRunsIdentity | src/components/command/base.tsx:52 | a text with no character of the run is unchanged |
| CommandBase.CollapseIdentity | src/components/command/base.tsx:54 | a text without double hyphens is unchanged by the collapse |
| CommandBase.KeepWordOrHyphenIdentity | src/components/command/base.tsx:53 | a text of word characters and hyphens is unchanged by the filter |
| CommandBase.CollapsedChars | src/components/command/base.tsx:53-54 | after filtering and collapsing lower-cased text, only slug characters remain and no hyphen is doubled |
| CommandBase.TrimIsSlice | src/components/command/base.tsx:55-56 | trimming hyphens at both ends keeps one contiguous slice of the text, which neither starts nor ends with a hyphen |
| CommandBase.TrimmedIsSlug | src/components/command/base.tsx:55-56 | trimming hyphens from both ends of such a text leaves a slug |
| CommandBase.FinishSlugIsSlug | src/components/command/base.tsx:53-56 | the last four steps turn any text without capitals into a slug |
| CommandBase.FinishSlugIdentity | src/components/command/base.tsx:53-56 | a slug passes the last four steps unchanged |
| CommandBase.SlugifyIsSlug | src/components/command/base.tsx:49-57 | `slugify` gives only lower-case letters, digits, `_` and `-`, no doubled hyphen, and no hyphen at either end |
| CommandBase.SlugOfSlug | src/components/command/base.tsx:49-57 | a slug is its own `slugify` |
| CommandBase.SlugifyIdempotent | src/components/command/base.tsx:49-57 | `slugify` is idempotent |
| CommandBase.Slugify | src/components/command/base.tsx:49-57 | the five replacements in order; its meaning is stated by SlugifyIsSlug, SlugOfSlug and SlugifyIdempotent |
| CommandBase.KeepAdmittedDocuments | src/components/command/base.tsx:31-35 | a document is kept exactly when a "document" result has its id |
| CommandBase.KeepAdmittedCategories | src/components/command/base.tsx:40-44 | a category is kept exactly when a "category" result has its id |
| CommandBase.KeepAdmittedDocumentsAppend | src/components/command/base.tsx:31-35 | the document filter keeps order: it distributes over concatenation |
| CommandBase.KeepAdmittedCategoriesAppend | src/components/command/base.tsx:40-44 | the category filter keeps order: it distributes over concatenation |
| CommandBase.FilteredDocuments | src/components/command/base.tsx:30-36 | the listed documents; its meaning is stated by FilteredDocumentsMembership |
| CommandBase.FilteredCategories | src/components/command/base.tsx:39-45 | the listed categories; its meaning is stated by FilteredCategoriesMembership |
| CommandBase.FilteredDocumentsMembership | src/components/command/base.tsx:30-36 | an empty query lists every document; otherwise exactly the admitted ones; a category result never admits a document |
| CommandBase.FilteredCategoriesMembership | src/components/command/base.tsx:39-45 | an empty query lists every category; otherwise exactly the admitted ones; a document result never admits a category |
| CommandBase.BlankQueryListsNothing | src/components/command/base.tsx:24-45 | a whitespace-only query empties the results while the lists stay filtered, so both lists are empty |
| CommandBase.ResolveSelection | src/components/command/base.tsx:59-90 | the route `handleSelect` navigates to, if any; its meaning is stated by the Select lemmas below |
| CommandBase.ResolveDocument | src/components/command/base.tsx:60-81 | the "doc-" branch: its meaning is stated by SelectCategorisedDocument, SelectUncategorisedDocument and SelectDocumentNowhere |
| CommandBase.ResolveCategory | src/components/command/base.tsx:82-88 | the "cat-" branch: its meaning is stated by SelectCategoryById, SelectCategoryByNameGoesNowhere and SelectCategoryByNameDigits |
| CommandBase.DocumentItemValue | src/components/command/base.tsx:110 | `doc-${id}`; ParseIntOfNatToString and SelectCategorisedDocument read it back |
| CommandBase.CategoryItemValueByName | src/components/command/base.tsx:132 | `cat-${name}`, the value this menu emits; SelectCategoryByNameGoesNowhere and SelectCategoryByNameDigits state where it leads |
| CommandBase.CategoryItemValue | src/components/command/pallete.tsx:85 | `cat-${id}`, the id-keyed value; SelectCategoryById states that it leads to the category |
| CommandBase.SelectCategorisedDocument | src/components/command/base.tsx:60-77 | a document with a join row goes to "/<name of the first row's category>/<slugify(title)>" |
| CommandBase.SelectUncategorisedDocument | src/components/command/base.tsx:78-81 | a document without a join row goes to "/uncategorized/<slugify(title)>" |
| CommandBase.SelectDocumentNowhere | src/components/command/base.tsx:64-77 | a missing document, or a missing linked category, gives no navigation |
| CommandBase.SelectCategoryById | src/components/command/base.tsx:82-88 | an id-keyed category item goes to "/<name>" |
| CommandBase.SelectCategoryByNameGoesNowhere | src/components/command/base.tsx:82-88 | the name-keyed category item that is emitted never navigates when the name starts with a letter |
| CommandBase.SelectCategoryByNameDigits | src/components/command/base.tsx:82-88 | the name-keyed value of a name starting with digits goes to the category whose id those digits spell, or nowhere when there is none |
| CommandBase.CalculusItemGoesNowhere | src/components/command/base.tsx:132 | the item "cat-Calculus" for a stored category "Calculus" with id 1 goes nowhere, while "cat-1" goes to "/Calculus" |
| CommandBase.CommandMenu.constructor | src/components/command/base.tsx:16 | the query starts empty |
| CommandBase.CommandMenu.HandleSearch | src/components/command/base.tsx:24-27 | the query is recorded and the hook searches with it: a blank query only empties the results; otherwise the results are the ranking or [] on failure, `isSearching` is lowered and the error is cleared or set; `isIndexing` is kept |
| CommandPalette.Palette.constructor | src/components/command/pallete.tsx:21-22 | `open` starts as `defaultOpen`, false when not given |
| CommandPalette.Palette.KeyDown | src/components/command/pallete.tsx:25-35 | "k" with Meta or Ctrl toggles `open`; every other key leaves it |
| CommandPalette.DocumentGroup | src/components/command/pallete.tsx:55-58 | the Documents group holds exactly the "document" results; DocumentGroupAppend states that it keeps their order |
| CommandPalette.CategoryGroup | src/components/command/pallete.tsx:78-81 | the Categories group holds exactly the "category" results; CategoryGroupAppend states that it keeps their order |
| CommandPalette.DocumentGroupAppend | src/components/command/pallete.tsx:55-58 | the Documents group keeps the result order: it distributes over concatenation |
| CommandPalette.CategoryGroupAppend | src/components/command/pallete.tsx:78-81 | the Categories group keeps the result order: it distributes over concatenation |
| CommandPalette.GroupsPartition | src/components/command/pallete.tsx:52-91 | the two groups together hold each result exactly once |
| CommandPalette.RenderedGroups | src/components/command/pallete.tsx:52-91 | no group is rendered for an empty result list; otherwise the two groups hold each result exactly once |
| CommandPalette.IsToggleKey | src/components/command/pallete.tsx:26 | the toggle shortcut; what it does is stated by Palette.KeyDown |
| CommandPalette.ResultItemValue | src/components/command/pallete.tsx:60-85 | a document item's value starts with "doc-" and a category item's with "cat-"; ResultItemValueRoundTrip reads the id back |
| CommandPalette.ResultItemValueRoundTrip | src/components/command/pallete.tsx:62-85 | reading the id back from a palette item value gives the item's id |
| Dashboard.HyphensToSpaces | src/app/dashboard.tsx:29 | no hyphen is left: each becomes a space, and every other character is kept |
| Dashboard.CapitaliseWords | src/app/dashboard.tsx:30 | only case changes: each character lower-cases to what the input's does; a word start is left without a lower-case letter, and every other character is kept |
| Dashboard.ToTitle | src/app/dashboard.tsx:27-31 | the breadcrumb title; its meaning is stated by ToTitleShape, ToTitleIdempotent and SlugTitleSlug |
| Dashboard.ToTitleShape | src/app/dashboard.tsx:27-31 | `toTitle` keeps the length, leaves no hyphen, upper-cases word starts and keeps every other character |
| Dashboard.ToTitleIdempotent | src/app/dashboard.tsx:27-31 | `toTitle` is idempotent |
| Dashboard.LowerOfTitle | src/app/dashboard.tsx:27-31 | lower-casing the title of slug text gives the slug with spaces for hyphens |
| Dashboard.SpacesBackToHyphens | src/components/command/base.tsx:52 | turning the spaces of a spaced slug back into hyphens restores the slug |
| Dashboard.SlugTitleSlug | src/app/dashboard.tsx:27-31 | `slugify(toTitle(slugify(s)))` is `slugify(s)`, so a route slug survives the breadcrumb |
| Dashboard.MissingDocumentTitle | src/app/dashboard.tsx:54 | a missing document parameter gives an empty title |
| Dashboard.BreadcrumbText | src/app/dashboard.tsx:54 | `document ?? ""`; MissingDocumentTitle states the missing case |
| PdfViewer.ClampPage | src/components/document/pdf-viewer.tsx:91 | the page lies in [1, numPages]; a target in range is kept, a low one becomes 1, a high one numPages |
| PdfViewer.ClampZoom | src/components/document/pdf-viewer.tsx:101 | the scale lies in [0.25, 5.0] and is kept when already in range |
| PdfViewer.ZoomPercentExact | src/components/document/pdf-viewer.tsx:220 | the scale lies in [0.25, 5.0], and the shown percentage `round(scale*100)` is exactly 25 per quarter, from 25 to 500 |
| PdfViewer.ZoomPercent | src/components/document/pdf-viewer.tsx:220 | the shown percentage; its meaning is stated by ZoomPercentExact |
| PdfViewer.KeyActionTable | src/components/document/pdf-viewer.tsx:134-148 | events aimed at an input do nothing; ArrowLeft or Ctrl+p goes back a page, ArrowRight or Ctrl+n goes forward, Meta/Ctrl with "+" zooms in and with "-" zooms out, each in both directions |
| PdfViewer.KeyAction | src/components/document/pdf-viewer.tsx:134-148 | the shortcut table; its meaning is stated by KeyActionTable |
| PdfViewer.KeyStep | src/components/document/pdf-viewer.tsx:134-148 | without a document or a mapped key nothing changes; page keys keep the scale and zoom keys keep the page |
| PdfViewer.Viewer.constructor | src/components/document/pdf-viewer.tsx:28-30 | no document, page 1, scale 1.0 |
| PdfViewer.Viewer.Load | src/components/document/pdf-viewer.tsx:44-45 | the document is set; the page and the scale are not reset |
| PdfViewer.Viewer.Rerender | src/components/document/pdf-viewer.tsx:152 | the effect's dependencies `[currentPage, scale]`: the listener takes the current document only when the page or the scale changed, and nothing else changes |
| PdfViewer.Viewer.GoToPage | src/components/document/pdf-viewer.tsx:88-96 | without a document nothing changes; otherwise the page becomes the clamped target |
| PdfViewer.Viewer.Zoom | src/components/document/pdf-viewer.tsx:98-104 | without a document nothing changes; otherwise the scale becomes the clamped sum; the page is kept |
| PdfViewer.Viewer.KeyDown | src/components/document/pdf-viewer.tsx:132-153 | a key acts through the document its listener last saw, which a load does not refresh |
| PdfViewer.Viewer.KeyDownCurrent | src/components/document/pdf-viewer.tsx:132-153 | with the listener kept current, each key does what the matching button does |
| PdfViewer.ArrowRightAfterLoad | src/components/document/pdf-viewer.tsx:132-153 | right after a load, ArrowRight stays on page 1 while the Next button is enabled |
| PdfViewer.ArrowRightAfterLoadCurrent | src/components/document/pdf-viewer.tsx:136-141 | with the listener kept current, the same key press reaches page 2 |
| PdfViewer.PrevEnabledIffMoves | src/components/document/pdf-viewer.tsx:164 | the Prev button is enabled exactly when going back a page would move |
| PdfViewer.NextEnabledIffMoves | src/components/document/pdf-viewer.tsx:187 | on a page within the document, the Next button is enabled exactly when going forward a page would move; on a page beyond the end, Next is disabled while going forward moves back to the last page |
| PdfViewer.NextAfterShorterLoad | src/components/document/pdf-viewer.tsx:132-153 | as written: on page 5 of five, loading a two-page document keeps page 5 with Next disabled; the listener still holds the old document, so ArrowRight stays on page 5 and ArrowLeft goes to page 4 |
| PdfViewer.NextAfterShorterLoadCurrent | src/components/document/pdf-viewer.tsx:44-45 | with the listener kept current, the same state sends ArrowRight back to page 2 |
| PdfViewer.PrevDisabled | src/components/document/pdf-viewer.tsx:164 | the Prev button's disabled test; its meaning is stated by PrevEnabledIffMoves |
| PdfViewer.NextDisabled | src/components/document/pdf-viewer.tsx:187 | the Next button's disabled test; its meaning is stated by NextEnabledIffMoves |
| UploadDialog.ExtensionIgnoresCase | src/components/document/add.tsx:28 | a parseable link ending in ".PDF", ".pdf" or ".Md" is accepted |
| UploadDialog.AcceptedLinksEndInExtension | src/components/document/add.tsx:25-32 | an unparseable link is rejected; an accepted one ends in "f" or "d" in either case; the two examples "?download=1" and ".pdf#page=2" appended to any link are rejected |
| UploadDialog.NoExtensionAtEndRejected | src/components/document/add.tsx:28 | any link whose last character is not "f" or "d" in either case is rejected; a query or fragment that itself ends in ".pdf" or ".md" is not caught |
| UploadDialog.IsValidUrl | src/components/document/add.tsx:24-31 | the validator; its meaning is stated by ExtensionIgnoresCase, AcceptedLinksEndInExtension and NoExtensionAtEndRejected |
| UploadDialog.Dialog.constructor | src/components/document/add.tsx:17-19 | empty link, no error, not dragging |
| UploadDialog.Dialog.SetLink | src/components/document/add.tsx:88 | the link field takes the typed value |
| UploadDialog.Dialog.HandleLinkSubmit | src/components/document/add.tsx:21-42 | the error is cleared first; a rejected link keeps the text and shows the fixed message; an accepted link is submitted and the field cleared |
| UploadDialog.Dialog.DragOver | src/components/document/add.tsx:44-47 | dragging is flagged |
| UploadDialog.Dialog.DragLeave | src/components/document/add.tsx:49-52 | the flag is lowered |
| UploadDialog.Dialog.Drop | src/components/document/add.tsx:54-59 | the flag is lowered |
| UploadDialog.ResubmitClearsError | src/components/document/add.tsx:21-42 | after a rejected link, a valid one leaves no error and an empty field |
| Chat.Echo | src/components/document/chat.tsx:19 | the reply is "You said: " followed by the input unchanged |
| Chat.EchoInjective | src/components/document/chat.tsx:19 | different inputs get different replies |
| Chat.ContentsFromRole | src/components/document/chat.tsx:30-40 | the contents of one role come only from messages of that role |
| Chat.Echoes | src/components/document/chat.tsx:19 | the replies to the sent inputs, one each, in order |
| Chat.SendKeepsConsistent | src/components/document/chat.tsx:14 | a send keeps the log consistent: the user messages are the sent inputs and the replies match the delivered ones |
| Chat.DeliverKeepsConsistent | src/components/document/chat.tsx:18-20 | delivering the oldest pending reply keeps the log consistent |
| Chat.ChatDialog.constructor | src/components/document/chat.tsx:7-10 | the log is exactly the greeting and the input is empty |
| Chat.ChatDialog.SetInput | src/components/document/chat.tsx:47 | the input takes the typed value and the log is unchanged |
| Chat.ChatDialog.SendMessage | src/components/document/chat.tsx:12-22 | blank input changes nothing; otherwise the untrimmed input is appended as a user message, the input is cleared and its reply scheduled; the log only grows |
| Chat.ChatDialog.DeliverEcho | src/components/document/chat.tsx:18-20 | the oldest scheduled reply "You said: <input>" is appended; the log only grows |
| Chat.SendThenEcho | src/components/document/chat.tsx:7-20 | on a fresh dialog, sending any non-blank text and letting its timer fire gives the greeting, the user's text and then "You said: " with that text |
| Settings.Partialize | src/lib/settings.ts:58 | only `initialized` is saved |
| Settings.PartializeForgetsPath | src/lib/settings.ts:58 | the saved record is the same whatever the path, so the path is never saved |
| Settings.PickerDefault | src/lib/settings.ts:33 | the picker opens at the current path, or at none when it is missing or empty |
| Settings.PickedPath | src/lib/settings.ts:36 | only one non-empty selected path is taken |
| Settings.SettingsStore.constructor | src/lib/settings.ts:17-18 | no path and not initialized |
| Settings.SettingsStore.Rehydrate | src/lib/settings.ts:56-59 | after a reload the path is missing and `initialized` is the saved value |
| Settings.SettingsStore.SetDocumentPath | src/lib/settings.ts:19-27 | the path is stored only after the host accepts it; a rejection is rethrown and the store is unchanged |
| Settings.SettingsStore.SelectDocumentPath | src/lib/settings.ts:28-43 | the path changes only for a single selected path the host accepts; picker and host failures are rethrown |
| Settings.SettingsStore.InitializeDocumentPath | src/lib/settings.ts:44-54 | once initialized nothing happens; otherwise `initialized` is set and the host's path is stored only on success |
| Settings.PathLostAfterReload | src/lib/settings.ts:44-58 | after a reload the path is missing and is never fetched again |
| DocumentsDir.Join | src-tauri/src/lib.rs:69 | an absolute name replaces the base; a relative one is appended to it |
| DocumentsDir.EnsureDocumentsDir | src-tauri/src/lib.rs:9-31 | gives the stored directory if there is one, else `<app local data>/documents`; a creation failure gives "Failed to create documents directory: <error>" |
| DocumentsDir.DocumentPathState.constructor | src-tauri/src/lib.rs:106 | no directory is stored at start-up |
| DocumentsDir.DocumentPathState.SetDocumentPath | src-tauri/src/lib.rs:33-44 | the directory is replaced only when it could be created; otherwise "Failed to create directory: <error>" and the old one stays |
| DocumentsDir.DocumentPathState.GetDocumentPath | src-tauri/src/lib.rs:46-53 | the directory in force: the stored one, or the fallback, which is not stored |
| DocumentsDir.DocumentPathState.SaveFile | src-tauri/src/lib.rs:61-76 | the file is written at the directory joined with the name, with no containment test; the creation error comes first, then the write error |
| DocumentsDir.DocumentPathState.GetFilePath | src-tauri/src/lib.rs:78-98 | a missing path gives "File does not exist" before the containment test; a path outside the directory gives "Invalid file path"; otherwise the path itself |
| DocumentsDir.ContainmentIsLexical | src-tauri/src/lib.rs:93 | every relative name passes the containment test, `..` included; an absolute name passes only when the directory is its prefix |
| DocumentsDir.ParentDirEscapes | src-tauri/src/lib.rs:84-97 | an existing "../<name>" outside the directory is handed out |
| DocumentsDir.AbsoluteNameLookup | src-tauri/src/lib.rs:84-97 | an absolute name outside the directory is reported missing when absent and refused when present |
| DocumentsDir.AbsoluteNameEscapesSave | src-tauri/src/lib.rs:68-72 | `save_file` writes an absolute name exactly there, outside the directory |
| DocumentsDir.Greet | src-tauri/src/lib.rs:57-59 | "Hello, " then the name then "! You've been greeted from Rust!" |
| DocumentsDir.GreetInjective | src-tauri/src/lib.rs:57-59 | different names get different greetings |

## Left out

- FlexSearch matching is not modelled. That covers tokenising, context scoring, and what the `limit` of 10 or 5 caps. The per-field hit lists the library returns are inputs.
- Search.SearchService.IndexAll: assumes `remove("*")` empties an index. Whether FlexSearch treats "*" as a wildcard is not modelled.
- Search.SearchService.Search: takes each group's score as already parsed. `parseFloat` of the field name is not modelled; an absent, unparseable or zero score all count as 0 in the sort.
- Score keys are exact reals. Floating-point subtraction in the comparator is not modelled.
- Database reads and live queries are snapshots passed in as inputs. Dexie itself is not part of this model.
- Concurrency is not modelled: overlapping or stale searches, and the order in which awaited calls finish.
- Chat.ChatDialog.DeliverEcho: the half-second timer is an explicit step that fires the oldest pending reply. Timer order and timing are not modelled.
- pdf.js is not modelled. That covers loading, rendering, the text layer, the user-built regular-expression search and the download through a Blob.
- PdfViewer.Viewer.GoToPage: the page input's `parseInt` can give NaN, which is floating-point behaviour and is not modelled; targets are integers.
- The `URL` constructor is a boolean input saying whether the text parses.
- Case mapping and whitespace cover ASCII only. Unicode `toLowerCase`/`toUpperCase` and the non-ASCII members of `\s` are not modelled.
- Text.ParseInt: decimal only. The "0x" hexadecimal prefix and loss of precision for very long digit strings are not modelled.
- `handleFiles` and `handleFileSelect` in the upload dialog only log, so there is nothing to model beyond the drag flag.
- The palette's items have no `onSelect`; their values are modelled, and selecting them does nothing.
- Tauri plumbing is not modelled. That covers `AppHandle`, the Mutex, plugin registration, the `expect` on the application data directory, and the start-up call to `ensure_documents_dir`. Directory creation, file writes and existence tests are inputs.
- DocumentsDir.Join: paths are sequences of components. Parsing a string into components and `to_string_lossy` rendering are not modelled.
- The zustand `persist` mechanics are reduced to `Partialize` and the `Rehydrate` constructor. Storage and its asynchronous rehydration are not modelled.
- Navigation is a returned route text. React Router is not part of this model.
- CommandBase.ResolveDocument: when `parseInt` gives NaN the model returns no route. The source passes NaN to `db.documents.get`, which IndexedDB refuses as a key, so the selection's promise is rejected. Neither navigates; the rejected promise is not modelled.
- CommandBase.ResolveCategory: the same for `db.categories.get(parseInt(id))`: a NaN key rejects the promise in the source, while the model returns no route.

## Findings

| source | as written | input that shows it | evidently intended | confidence | as-written member | corrected member |
|---|---|---|---|---|---|---|
| src/components/command/base.tsx:132 | the menu emits category items as "cat-<name>", but selection (lines 82-88) reads the rest with `parseInt` as an id | a stored category "Calculus" with id 1: selecting "cat-Calculus" navigates nowhere; a category named "2024 Papers" leads to the category with id 2024 (SelectCategoryByNameDigits) | the item carries the id, "cat-<id>", as the palette's items do, so selecting it goes to "/<name>" | high; not executed | CommandBase.CalculusItemGoesNowhere | CommandBase.SelectCategoryById |
| src/components/document/pdf-viewer.tsx:132-153 | the keydown listener is registered again only when the page or the scale changes, so it keeps the `goToPage` and `handleZoom` of a render in which no document was loaded | load a two-page document, then press ArrowRight: the viewer stays on page 1 while the Next button is enabled | keys act on the document now loaded, as the buttons do | high; not executed | PdfViewer.ArrowRightAfterLoad | PdfViewer.Viewer.KeyDownCurrent |
