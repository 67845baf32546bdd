/** The file search of `Files.tsx`: every folder's file groups are flattened,
    filtered by the free-text query and by the selected author folder, sorted
    by name, and the first `maxCount` of them are shown with a result count. */
module Files {
  import opened Wrappers
  import opened Seqs
  import opened Text
  import opened Catalog
  import opened Sorting
  import opened View

  /** `String(undefined)`: `includes` converts a missing folder key to this text. */
  const UndefinedText: string := "undefined"

  /** Every folder's groups, in folder order and then file order (`flatMap`). */
  function Flatten(folders: seq<Folder>): (r: seq<FileGroup>)
    ensures forall g :: g in r <==> exists f :: f in folders && g in f.files
  {
    if folders == [] then []
    else
      assert forall f :: f in folders <==> f == folders[0] || f in folders[1..];
      folders[0].files + Flatten(folders[1..])
  }

  /** Flattening distributes over concatenation of the folder list. */
  lemma {:induction false} FlattenAppend(a: seq<Folder>, b: seq<Folder>)
    ensures Flatten(a + b) == Flatten(a) + Flatten(b)
    decreases |a|
  {
    if a == [] {
      assert a + b == b;
    } else {
      assert (a + b)[1..] == a[1..] + b;
      FlattenAppend(a[1..], b);
    }
  }

  /** A single folder flattens to its own groups, in their order and with
      every copy. */
  lemma FlattenOne(f: Folder)
    ensures Flatten([f]) == f.files
  {
    assert [f][1..] == [];
  }

  /** The number of groups is the sum over folders. */
  function GroupCount(folders: seq<Folder>): nat
  {
    if folders == [] then 0 else |folders[0].files| + GroupCount(folders[1..])
  }

  lemma {:induction false} FlattenLength(folders: seq<Folder>)
    ensures |Flatten(folders)| == GroupCount(folders)
    decreases |folders|
  {
    if folders != [] {
      FlattenLength(folders[1..]);
    }
  }

  /** The trimmed, lower-cased query (`search.trim().toLowerCase()`). */
  function SearchQuery(search: string): string
  {
    Lower(Trim(search))
  }

  /** Some hierarchy segment or some entry's file name contains `query`
      once lower-cased. */
  predicate MatchesText(g: FileGroup, query: string)
  {
    || (exists h :: h in g.hierarchy && Includes(Lower(h), query))
    || (exists e :: e in g.entries && Includes(Lower(e.fileName), query))
  }

  /** The same condition stated with occurrence positions instead of the scan. */
  ghost predicate Mentions(g: FileGroup, query: string)
  {
    || (exists h :: h in g.hierarchy && IsInfix(query, Lower(h)))
    || (exists e :: e in g.entries && IsInfix(query, Lower(e.fileName)))
  }

  function TextPredicate(query: string): FileGroup -> bool
  {
    g => MatchesText(g, query)
  }

  /** The group's key exists and contains `needle`. */
  predicate KeyContains(g: FileGroup, needle: string)
  {
    g.key.Some? && Includes(g.key.value, needle)
  }

  /** The text `currentFolder.Key!` stands for when passed to `includes`. */
  function FolderNeedle(current: Folder): (needle: string)
    ensures current.key.Some? ==> needle == current.key.value
    ensures current.key.None? ==> needle == "undefined"
  {
    current.key.GetOr(UndefinedText)
  }

  function FolderPredicate(needle: string): FileGroup -> bool
  {
    g => KeyContains(g, needle)
  }

  /** The text filter: skipped for an empty `search`; otherwise keeps the groups
      where the trimmed, lower-cased query occurs in a lower-cased hierarchy
      segment or entry file name. */
  function TextFilter(items: seq<FileGroup>, search: string): (r: seq<FileGroup>)
    ensures search == [] ==> r == items
    ensures search != [] ==> forall g :: g in r <==> (g in items && Mentions(g, SearchQuery(search)))
  {
    IncludesIsInfixAll();
    if search == [] then items else Filter(TextPredicate(SearchQuery(search)), items)
  }

  /** The folder filter: skipped without a current folder; otherwise keeps the
      groups whose key is defined and contains the folder's key. */
  function FolderFilter(items: seq<FileGroup>, current: Option<Folder>): (r: seq<FileGroup>)
    ensures current.None? ==> r == items
    ensures current.Some? ==> forall g :: g in r <==>
      (g in items && g.key.Some? && IsInfix(FolderNeedle(current.value), g.key.value))
  {
    IncludesIsInfixAll();
    if current.None? then items else Filter(FolderPredicate(FolderNeedle(current.value)), items)
  }

  /** Whether a group survives both filters. */
  predicate Keeps(search: string, current: Option<Folder>, g: FileGroup)
  {
    && (search == [] || MatchesText(g, SearchQuery(search)))
    && (current.None? || KeyContains(g, FolderNeedle(current.value)))
  }

  function KeepPredicate(search: string, current: Option<Folder>): FileGroup -> bool
  {
    g => Keeps(search, current, g)
  }

  /** Applying the text filter and then the folder filter is filtering once by
      the conjunction of both conditions. */
  lemma FiltersCompose(items: seq<FileGroup>, search: string, current: Option<Folder>)
    ensures FolderFilter(TextFilter(items, search), current)
         == Filter(KeepPredicate(search, current), items)
  {
    var keep := KeepPredicate(search, current);
    if search == [] && current.None? {
      FilterAll(keep, items);
    } else if search == [] {
      FilterCongruent(FolderPredicate(FolderNeedle(current.value)), keep, items);
    } else if current.None? {
      FilterCongruent(TextPredicate(SearchQuery(search)), keep, items);
    } else {
      var p, q := TextPredicate(SearchQuery(search)), FolderPredicate(FolderNeedle(current.value));
      FilterFilter(p, q, items);
      FilterCongruent(And(p, q), keep, items);
    }
  }

  /** Each filter keeps its input's order and never adds anything. */
  lemma FiltersAreSubsequences(items: seq<FileGroup>, search: string, current: Option<Folder>)
    ensures IsSubsequence(TextFilter(items, search), items)
    ensures IsSubsequence(FolderFilter(items, current), items)
  {
    if search == [] {
      SubsequenceRefl(items);
    } else {
      FilterIsSubsequence(TextPredicate(SearchQuery(search)), items);
    }
    if current.None? {
      SubsequenceRefl(items);
    } else {
      FilterIsSubsequence(FolderPredicate(FolderNeedle(current.value)), items);
    }
  }

  /** The component state the search effect sets. */
  datatype FilesState = FilesState(selectedIndex: nat, displayedItems: seq<FileGroup>)

  /** The search effect: flatten `folders ?? []`, filter, sort by name, and
      reset the selection. */
  function SearchFiles(folders: Option<seq<Folder>>, search: string, current: Option<Folder>): (st: FilesState)
    ensures st.selectedIndex == 0
    ensures SortedByName(st.displayedItems)
    ensures forall g :: g in st.displayedItems <==>
      (exists f :: f in folders.GetOr([]) && g in f.files) && Keeps(search, current, g)
    ensures |st.displayedItems| <= |Flatten(folders.GetOr([]))|
    ensures folders.None? ==> st.displayedItems == []
  {
    var items := Flatten(folders.GetOr([]));
    var filtered := FolderFilter(TextFilter(items, search), current);
    FiltersCompose(items, search, current);
    assert forall g :: g in filtered <==> g in items && Keeps(search, current, g);
    var sorted := SortByName(filtered);
    PermutationMembers(sorted, filtered);
    FilesState(0, sorted)
  }

  /** The displayed list is the stable name sort of the groups that pass both
      filters, taken in flattened order. */
  lemma SearchFilesIsSortedConjunction(folders: Option<seq<Folder>>, search: string, current: Option<Folder>)
    ensures SearchFiles(folders, search, current).displayedItems
         == SortByName(Filter(KeepPredicate(search, current), Flatten(folders.GetOr([]))))
  {
    FiltersCompose(Flatten(folders.GetOr([])), search, current);
  }

  /** Groups with equal names appear in the order they have in the flattened
      catalog. */
  lemma SearchFilesKeepsTies(folders: Option<seq<Folder>>, search: string, current: Option<Folder>, n: string)
    ensures WithName(SearchFiles(folders, search, current).displayedItems, n)
         == WithName(Filter(KeepPredicate(search, current), Flatten(folders.GetOr([]))), n)
  {
    var filtered := Filter(KeepPredicate(search, current), Flatten(folders.GetOr([])));
    SearchFilesIsSortedConjunction(folders, search, current);
    SortByNameKeepsTies(filtered, n);
  }

  /** The count line: the number of matches and the configured display cap. */
  datatype ResultCount = ResultCount(totalItems: nat, displayedItems: nat)

  datatype FilesView = FilesView(list: Listing<FileGroup>, count: ResultCount)

  /** The rendered list and count for a state and the configured `maxCount`. */
  function RenderFiles(folders: Option<seq<Folder>>, st: FilesState, maxCount: nat): (v: FilesView)
    ensures v.list.Placeholders? <==> folders.None?
    ensures v.list.Placeholders? ==> v.list.count == maxCount
    ensures v.list.Rows? ==> v.list.items <= st.displayedItems && |v.list.items| <= maxCount
    ensures v.list.Rows? && |st.displayedItems| <= maxCount ==> v.list.items == st.displayedItems
    ensures v.list.Rows? && maxCount <= |st.displayedItems| ==> |v.list.items| == maxCount
    ensures v.count.totalItems == |st.displayedItems|
    ensures v.count.displayedItems == maxCount
  {
    var list := if folders.None? then Placeholders(maxCount) else Rows(Take(st.displayedItems, maxCount));
    FilesView(list, ResultCount(|st.displayedItems|, maxCount))
  }

  /** The catalog groups that pass both conditions, in flattened order. */
  function Matches(folders: Option<seq<Folder>>, search: string, current: Option<Folder>): seq<FileGroup>
  {
    Filter(KeepPredicate(search, current), Flatten(folders.GetOr([])))
  }

  /** One recomputation of the view from the catalog, the query and the
      current folder. */
  function Recompute(folders: Option<seq<Folder>>, search: string, current: Option<Folder>, maxCount: nat): (v: FilesView)
    ensures v.list.Placeholders? <==> folders.None?
    ensures v.list.Placeholders? ==> v.list.count == maxCount
    ensures v.list.Rows? ==> v.list.items == Take(SortByName(Matches(folders, search, current)), maxCount)
    ensures v.count == ResultCount(|Matches(folders, search, current)|, maxCount)
    ensures folders.None? ==> v.count.totalItems == 0
    ensures v.list.Rows? ==> |v.list.items| <= maxCount && |v.list.items| <= v.count.totalItems
    ensures v.list.Rows? ==> SortedByName(v.list.items)
    ensures v.list.Rows? ==> forall g :: g in v.list.items ==>
      (exists f :: f in folders.GetOr([]) && g in f.files) && Keeps(search, current, g)
  {
    var st := SearchFiles(folders, search, current);
    var v := RenderFiles(folders, st, maxCount);
    RenderedMatches(folders, search, current, maxCount);
    RenderedMembers(folders, search, current, maxCount);
    v
  }

  /** The rendered rows and count, in terms of the matching groups. */
  lemma RenderedMatches(folders: Option<seq<Folder>>, search: string, current: Option<Folder>, maxCount: nat)
    ensures var v := RenderFiles(folders, SearchFiles(folders, search, current), maxCount);
      && (v.list.Rows? ==> v.list.items == Take(SortByName(Matches(folders, search, current)), maxCount))
      && v.count == ResultCount(|Matches(folders, search, current)|, maxCount)
  {
    SearchFilesIsSortedConjunction(folders, search, current);
  }

  /** The rendered rows are sorted by name, and each is a catalog group that
      passes both conditions. */
  lemma RenderedMembers(folders: Option<seq<Folder>>, search: string, current: Option<Folder>, maxCount: nat)
    ensures var v := RenderFiles(folders, SearchFiles(folders, search, current), maxCount);
      v.list.Rows? ==> SortedByName(v.list.items)
    ensures var v := RenderFiles(folders, SearchFiles(folders, search, current), maxCount);
      v.list.Rows? ==> forall g :: g in v.list.items ==>
        (exists f :: f in folders.GetOr([]) && g in f.files) && Keeps(search, current, g)
  {
    var st := SearchFiles(folders, search, current);
    var v := RenderFiles(folders, st, maxCount);
    if v.list.Rows? {
      var r := v.list.items;
      assert forall i :: 0 <= i < |r| ==> r[i] == st.displayedItems[i];
      assert forall g :: g in r ==> g in st.displayedItems;
    }
  }

  /** A search that every group matches keeps the list as it is. */
  lemma TextFilterKeepsAll(items: seq<FileGroup>, search: string)
    requires forall i :: 0 <= i < |items| ==> MatchesText(items[i], SearchQuery(search))
    ensures TextFilter(items, search) == items
  {
    if search != [] {
      FilterAll(TextPredicate(SearchQuery(search)), items);
    }
  }

  /** A non-empty search over two groups keeps those that match, in order. */
  lemma TextFilterPair(a: FileGroup, b: FileGroup, search: string)
    requires search != []
    ensures var q := SearchQuery(search);
      TextFilter([a, b], search)
        == (if MatchesText(a, q) then [a] else []) + (if MatchesText(b, q) then [b] else [])
  {
    var q := SearchQuery(search);
    var p := TextPredicate(q);
    assert [a, b] == [a] + [b];
    FilterConcat(p, [a], [b]);
    assert Filter(p, [a]) == (if MatchesText(a, q) then [a] else []) by {
      assert [a][1..] == [];
    }
    assert Filter(p, [b]) == (if MatchesText(b, q) then [b] else []) by {
      assert [b][1..] == [];
    }
  }

  /** Searching with a lower-cased query finds the same groups. */
  lemma TextFilterIgnoresCase(items: seq<FileGroup>, search: string)
    ensures TextFilter(items, Lower(search)) == TextFilter(items, search)
  {
    TrimLower(search);
    LowerIdempotent(Trim(search));
  }

  /** The group has at least one hierarchy segment or entry. */
  const HasSegmentOrEntry: FileGroup -> bool := (g: FileGroup) => |g.hierarchy| > 0 || |g.entries| > 0

  /** A non-empty query of only white space trims to the empty query, which
      every segment and every entry name contains. */
  lemma WhiteSpaceSearchKeepsNonEmpty(items: seq<FileGroup>, search: string)
    requires search != [] && AllWhiteSpace(search)
    ensures TextFilter(items, search) == Filter(HasSegmentOrEntry, items)
  {
    TrimEmptyIff(search);
    assert SearchQuery(search) == [];
    forall i | 0 <= i < |items|
      ensures TextPredicate([])(items[i]) == HasSegmentOrEntry(items[i])
    {
      var g := items[i];
      if |g.hierarchy| > 0 {
        IncludesEmpty(Lower(g.hierarchy[0]));
      } else if |g.entries| > 0 {
        IncludesEmpty(Lower(g.entries[0].fileName));
      }
    }
    FilterCongruent(TextPredicate([]), HasSegmentOrEntry, items);
  }
}
