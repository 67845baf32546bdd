# Catalog search model

A Dafny model of the in-memory query pipeline behind the two list components
of the file browser: the file search in `src/components/Files/Files.tsx` and
the author (folder) search in `src/components/Files/Folders.tsx`. Rendering is
stripped away; each React effect becomes a pure function from its inputs to
the state it sets, and the markup becomes a small view value.

- **File search** (`Files`): the groups of every folder are flattened in folder
  order (`folders ?? []`, `flatMap`). A non-empty `search` keeps the groups in
  which the trimmed, lower-cased query occurs in a lower-cased hierarchy segment
  or entry file name. A selected folder keeps the groups whose `Key` exists and
  contains that folder's `Key`. The result is sorted stably by `FileName`, the
  selection is reset to 0, and the view shows placeholders while `folders` is
  absent or the first `maxCount` groups otherwise. The count line reports the
  number of matches and the constant `maxCount`.
- **Author search** (`Folders`): an empty `search` leaves the folders as they
  are; otherwise a folder is kept when its `Key` exists and, lower-cased,
  contains the lower-cased (untrimmed) query. The list shows six placeholders
  while loading.

Modules: `Wrappers` (optional values), `Seqs` (filter, prefix, subsequence),
`Text` (lower-casing, `trim`, `includes`), `Catalog` (records), `Sorting`
(stable sort by name), `View` (placeholders or rows), `Files`, `Folders`, and
`Scenarios` (worked examples on a two-book catalog).

Modelling choices:
- Strings are `seq<char>`. `toLowerCase`/`toLocaleLowerCase` are modelled as
  ASCII lower-casing, applied to the query and the searched text alike.
- `trim` strips the ECMAScript WhiteSpace and LineTerminator code points.
- `includes` is a recursive scan (`Text.Includes`) proved equal to "occurs at
  some index" (`Text.IsInfix`) by `Text.IncludesIsInfix`. The contracts of the
  single filters (`Files.TextFilter`, `Files.FolderFilter`,
  `Folders.SearchFolders`) are stated with occurrence positions; the contracts
  of the whole pipeline (`Files.SearchFiles`, `Files.Recompute`,
  `Files.FiltersCompose`) are stated with the scan, through `Files.Keeps`.
- `currentFolder.Key!` is only a type assertion; if the key is missing at run
  time, `includes` receives `undefined` and searches for the text
  `"undefined"`. The model does the same (`Files.UndefinedText`).
- The comparator `byString()` is modelled as lexicographic order on character
  codes (`Sorting.NameLe`). `Array.prototype.sort` is stable; the model sorts
  by insertion, and `Sorting.StableSortIsUnique` proves that every sorted,
  tie-preserving rearrangement equals it, so the choice of algorithm does not
  matter.
- `maxCount` is a `nat` parameter: `slice(0, maxCount)` needs nothing more.
- Recomputation is a pure function, so equal inputs give equal views; the
  model keeps no state between recomputations.

Behaviour of the code worth noting:
- The text query is matched against hierarchy segments and entry file names
  only, never the group's title `FileName`. With the query "found", the book
  titled "Prelude to Foundation" (hierarchy `Asimov/Prelude`, file
  `prelude.pdf`) is therefore not a match (`Scenarios.FoundQuery`).
- The count line's second figure is `maxCount` itself, not the number of rows
  shown.
- The file list's placeholder count is `maxCount`; the author list's is 6.
- Groups need not have hierarchy segments or entries. A white-space-only query
  trims to the empty query, which keeps exactly the groups that have at least
  one of them (`Files.WhiteSpaceSearchKeepsNonEmpty`).

## Model

| member | source | states |
|---|---|---|
| Files.Flatten | src/components/Files/Files.tsx:39 | a group is in the flattened list iff some folder of the catalog holds it |
| Files.FlattenAppend | src/components/Files/Files.tsx:39 | flattening a concatenation of folder lists concatenates their flattenings, so groups come in folder order |
| Files.FlattenOne | src/components/Files/Files.tsx:39 | a single folder flattens to exactly its own groups, in their order and with every copy; with FlattenAppend this fixes the flattened list for every catalog |
| Files.FlattenLength | src/components/Files/Files.tsx:39 | the flattened list has as many groups as all folders together; nothing is dropped or added |
| Files.TextFilter | src/components/Files/Files.tsx:41-51 | an empty search passes the list through unchanged; a non-empty one keeps exactly the groups in which the trimmed, lower-cased query occurs in a lower-cased hierarchy segment or entry file name |
| Files.FolderFilter | src/components/Files/Files.tsx:53-55 | without a current folder the list passes through; with one, exactly the groups whose key exists and contains the folder's key are kept |
| Files.FiltersCompose | src/components/Files/Files.tsx:41-55 | the text filter followed by the folder filter equals one filter by the conjunction of both conditions, each condition skipped when its input is absent |
| Files.FiltersAreSubsequences | src/components/Files/Files.tsx:44-55 | each filter's output is an order-preserving subsequence of its input |
| Files.SearchFiles | src/components/Files/Files.tsx:36-58 | the effect resets the selection to 0 and sets a name-sorted list whose members are exactly the catalog groups passing both conditions, no longer than the flattened catalog, and empty when the catalog is absent |
| Files.SearchFilesIsSortedConjunction | src/components/Files/Files.tsx:39-57 | the displayed list is the stable name sort of the flattened groups that pass both conditions |
| Files.SearchFilesKeepsTies | src/components/Files/Files.tsx:57 | groups with the same name appear in the displayed list in their flattened order |
| Files.RenderFiles | src/components/Files/Files.tsx:100-138 | placeholders (as many as maxCount) iff the catalog is absent; otherwise a prefix of the displayed list of length min(maxCount, n); the count reports n matches and the constant maxCount |
| Files.Recompute | src/components/Files/Files.tsx:36-138 | placeholders (as many as maxCount) iff the catalog is absent; otherwise the rows are the first maxCount of the stable name sort of the catalog groups passing both conditions; the count reports the number of those groups and maxCount; shown rows are sorted by name and each is a catalog group passing both conditions |
| Files.FolderNeedle | src/components/Files/Files.tsx:54 | the text searched for in group keys is the selected folder's key, or "undefined" when the folder has none |
| Files.TextFilterIgnoresCase | src/components/Files/Files.tsx:42-48 | a lower-cased search text selects the same groups as the original |
| Files.WhiteSpaceSearchKeepsNonEmpty | src/components/Files/Files.tsx:41-50 | a non-empty, white-space-only search keeps exactly the groups with at least one hierarchy segment or entry |
| Sorting.NameLeReflexive | src/components/Files/Files.tsx:57 | every name compares as not greater than itself |
| Sorting.NameLeTotal | src/components/Files/Files.tsx:57 | any two names are comparable, so the comparator defines a total order |
| Sorting.NameLeTransitive | src/components/Files/Files.tsx:57 | the name order is transitive |
| Sorting.NameLeAntisymmetric | src/components/Files/Files.tsx:57 | two names each not greater than the other are equal |
| Sorting.SortByName | src/components/Files/Files.tsx:57 | the sort result is a permutation of its input and non-decreasing by name |
| Sorting.SortByNameKeepsTies | src/components/Files/Files.tsx:57 | for every name, the groups with that name keep their relative input order (stability) |
| Sorting.SortedTiesUnique | src/components/Files/Files.tsx:57 | two name-sorted lists that order every name's groups alike are equal |
| Sorting.StableSortIsUnique | src/components/Files/Files.tsx:57 | any name-sorted rearrangement that keeps ties in input order is exactly the model's sort result |
| Seqs.Filter | src/components/Files/Files.tsx:44-50 | the filter's output holds exactly the input elements that satisfy the condition, each as many times as in the input, and is no longer than the input |
| Seqs.FilterIsSubsequence | src/components/Files/Files.tsx:44-50 | a filter's output is an order-preserving subsequence of its input |
| Seqs.FilterFilter | src/components/Files/Files.tsx:44-55 | filtering twice equals filtering once by the conjunction |
| Seqs.Take | src/components/Files/Files.tsx:103-104 | the slice is a prefix, at most n long, exactly n long when the input is long enough, and the whole input otherwise |
| Text.Lower | src/components/Files/Files.tsx:42 | lower-casing keeps the length, maps each upper-case letter A-Z to the letter at the same position in a-z, leaves no upper-case letter, changes no other character and keeps white space as it is |
| Text.Trim | src/components/Files/Files.tsx:42 | the trimmed text neither starts nor ends with white space and is the input with only white space removed before and after it |
| Text.TrimEmptyIff | src/components/Files/Files.tsx:42 | trimming yields the empty text iff the input is all white space |
| Text.TrimLower | src/components/Files/Files.tsx:42 | trimming and lower-casing commute |
| Text.IncludesIsInfix | src/components/Files/Files.tsx:46-48 | the containment scan is true iff the needle occurs in the text at some position |
| Text.IncludesEmpty | src/components/Files/Files.tsx:46-48 | every text contains the empty query |
| Folders.SearchFolders | src/components/Files/Folders.tsx:22-34 | an empty search returns the folders unchanged; a non-empty one keeps exactly the folders whose key exists and, lower-cased, contains the lower-cased search, each as many times as it occurs in the input; never longer than the input |
| Folders.SearchFoldersIsSubsequence | src/components/Files/Folders.tsx:28-33 | the result is an order-preserving subsequence of the folders |
| Folders.SearchFoldersIdempotent | src/components/Files/Folders.tsx:28-30 | searching the result again with the same text changes nothing |
| Folders.SearchFoldersIgnoresCase | src/components/Files/Folders.tsx:26-29 | a lower-cased search text selects the same folders as the original |
| Folders.SearchFoldersNotTrimmed | src/components/Files/Folders.tsx:25-30 | the search text is not trimmed: "asimov " does not select the folder keyed "asimov" |
| Folders.ShowFolders | src/components/Files/Folders.tsx:67-69 | while loading, six placeholders whatever the folders; otherwise exactly the author search result as rows: every folder for an empty search, else exactly the folders whose key exists and, lower-cased, contains the lower-cased search, in their input order |
| Scenarios.FoundQuery | src/components/Files/Files.tsx:39-57 | on the two-book catalog, "found" shows only "Foundation", with a count of one |
| Scenarios.AuthorQueryTruncated | src/components/Files/Files.tsx:41-104 | "ASIMOV" matches both books; with a cap of one the first by name is shown and the count reports two |
| Scenarios.KeylessFolder | src/components/Files/Files.tsx:53-55 | a selected folder without a key keeps only the groups whose key contains the text "undefined" |
| Scenarios.FolderKeyContainment | src/components/Files/Files.tsx:53-55 | a folder keyed "g2" selects the group keyed "f1/g2": the folder condition is key containment, not ownership |

## Left out

- `pages/api/content/findFirst.function.ts`: an asynchronous HTTP handler that only delegates to a content service outside this model.
- React state and effect scheduling, the MUI markup, hover selection (`setSelectedIndex`/`setHoveredItem` on mouse enter), the refresh button and the `onSearch`/`onClearFolder` callbacks: user-interface plumbing; each effect is modelled as the function computing the state it sets.
- Folders.ShowFolders: the six placeholders come from `FilesPlaceholders(6)`, which the author list calls as a plain function with a bare number, unlike the `count=` property the file list passes; the model takes the 6 at face value as the placeholder count. The rows shown when not loading are the search result, as stated.
- Text.Lower: ASCII letters only; JavaScript's full Unicode (and locale) case mapping, which can also change a string's length, is not modelled.
- Sorting.NameLe: compares whole characters, while JavaScript compares UTF-16 code units (the two differ only for characters outside the Basic Multilingual Plane), and a locale-aware `byString()` is not modelled.
- The date formatting of the author list, the extension chips, the author chip and the displayed title and first hierarchy segment: presentation only.
- The folders' and groups' other fields (names, dates, `FileInfo`, extensions): the query pipeline does not read them.
