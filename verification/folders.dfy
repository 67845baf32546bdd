/** The author search of `Folders.tsx`: folders whose key contains the query,
    compared case-insensitively. Unlike the file search the query is not
    trimmed, and the result is neither sorted nor truncated. */
module Folders {
  import opened Wrappers
  import opened Seqs
  import opened Text
  import opened Catalog
  import opened View

  /** Number of placeholder rows shown while the folders load. */
  const PlaceholderCount: nat := 6

  /** The folder's key exists and, lower-cased, contains `query`. */
  predicate KeyMatches(f: Folder, query: string)
  {
    f.key.Some? && Includes(Lower(f.key.value), query)
  }

  function KeyPredicate(query: string): Folder -> bool
  {
    f => KeyMatches(f, query)
  }

  /** The search effect: the folders unchanged for an empty `search`, otherwise
      those whose lower-cased key contains the lower-cased `search`. */
  function SearchFolders(folders: seq<Folder>, search: string): (r: seq<Folder>)
    ensures search == [] ==> r == folders
    ensures search != [] ==> forall f :: f in r <==>
      (f in folders && f.key.Some? && IsInfix(Lower(search), Lower(f.key.value)))
    ensures search != [] ==> forall f {:trigger multiset(r)[f]} ::
      multiset(r)[f] == if f.key.Some? && IsInfix(Lower(search), Lower(f.key.value)) then multiset(folders)[f] else 0
    ensures |r| <= |folders|
  {
    IncludesIsInfixAll();
    if search == [] then folders else Filter(KeyPredicate(Lower(search)), folders)
  }

  /** The search keeps the folders' order and never adds one. */
  lemma SearchFoldersIsSubsequence(folders: seq<Folder>, search: string)
    ensures IsSubsequence(SearchFolders(folders, search), folders)
  {
    if search == [] {
      SubsequenceRefl(folders);
    } else {
      FilterIsSubsequence(KeyPredicate(Lower(search)), folders);
    }
  }

  /** Searching the result again with the same query changes nothing. */
  lemma SearchFoldersIdempotent(folders: seq<Folder>, search: string)
    ensures SearchFolders(SearchFolders(folders, search), search) == SearchFolders(folders, search)
  {
    if search != [] {
      FilterIdempotent(KeyPredicate(Lower(search)), folders);
    }
  }

  /** Searching with a lower-cased query finds the same folders. */
  lemma SearchFoldersIgnoresCase(folders: seq<Folder>, search: string)
    ensures SearchFolders(folders, Lower(search)) == SearchFolders(folders, search)
  {
    LowerIdempotent(search);
  }

  /** The query is used untrimmed: a trailing blank makes an exact key miss. */
  lemma SearchFoldersNotTrimmed()
    ensures SearchFolders([Folder(Some("asimov"), [])], "asimov ") == []
  {
    var f := Folder(Some("asimov"), []);
    assert !KeyMatches(f, "asimov ");
    assert Filter(KeyPredicate("asimov "), [f])
        == (if KeyMatches(f, "asimov ") then [f] else []) + Filter(KeyPredicate("asimov "), []);
  }

  /** What the author list shows: placeholders while loading, the search
      result otherwise. */
  function ShowFolders(loading: bool, folders: seq<Folder>, search: string): (v: Listing<Folder>)
    ensures loading ==> v == Placeholders(PlaceholderCount)
    ensures !loading ==> v == Rows(SearchFolders(folders, search))
    ensures !loading ==> v.Rows? && IsSubsequence(v.items, folders)
    ensures !loading && search == [] ==> v == Rows(folders)
    ensures !loading && search != [] ==> forall f :: f in v.items <==>
      (f in folders && f.key.Some? && IsInfix(Lower(search), Lower(f.key.value)))
  {
    SearchFoldersIsSubsequence(folders, search);
    if loading then Placeholders(PlaceholderCount) else Rows(SearchFolders(folders, search))
  }
}
