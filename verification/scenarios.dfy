/** Worked examples of the file search on a one-author catalog. */
module Scenarios {
  import opened Wrappers
  import opened Seqs
  import opened Text
  import opened Catalog
  import opened Sorting
  import opened View
  import opened Files

  function Foundation(): FileGroup
  {
    FileGroup(Some("f1/g1"), "Foundation", ["Asimov", "Foundation"], [FileEntry("foundation.epub")])
  }

  function Prelude(): FileGroup
  {
    FileGroup(Some("f1/g2"), "Prelude to Foundation", ["Asimov", "Prelude"], [FileEntry("prelude.pdf")])
  }

  function Shelf(): Option<seq<Folder>>
  {
    Some([Folder(Some("f1"), [Foundation(), Prelude()])])
  }

  lemma ShelfFlattens()
    ensures Flatten(Shelf().value) == [Foundation(), Prelude()]
  {
    assert Shelf().value[1..] == [];
  }

  lemma PlainQuery(q: string)
    requires q != [] && !IsWhiteSpace(q[0]) && !IsWhiteSpace(q[|q| - 1])
    requires forall i :: 0 <= i < |q| ==> !IsUpper(q[i])
    ensures SearchQuery(q) == q
  {
    TrimNoOp(q);
  }

  lemma Lowered()
    ensures Lower("Asimov") == "asimov"
    ensures Lower("Foundation") == "foundation"
    ensures Lower("Prelude") == "prelude"
    ensures Lower("foundation.epub") == "foundation.epub"
    ensures Lower("prelude.pdf") == "prelude.pdf"
  {
  }

  lemma FoundInFoundation()
    ensures MatchesText(Foundation(), "found")
  {
    Lowered();
    var h := Foundation().hierarchy[1];
    assert Lower(h)[..5] == "found";
  }

  /** A text with no "f" where a five-letter word could start does not
      contain "found". */
  lemma NoF(hay: string)
    requires forall i :: 0 <= i <= |hay| - 5 ==> hay[i] != 'f'
    ensures !Includes(hay, "found")
  {
    FirstCharAbsent(hay, "found");
  }

  /** No lower-cased hierarchy segment or entry name of the second group
      contains "found". */
  lemma PreludeWordsLackFound()
    ensures !Includes(Lower("Asimov"), "found")
    ensures !Includes(Lower("Prelude"), "found")
    ensures !Includes(Lower("prelude.pdf"), "found")
  {
    Lowered();
    NoF("asimov");
    NoF("prelude");
    NoF("prelude.pdf");
  }

  lemma FoundNotInPrelude()
    ensures !MatchesText(Prelude(), "found")
  {
    var g := Prelude();
    PreludeWordsLackFound();
    forall h | h in g.hierarchy ensures !Includes(Lower(h), "found") {
      assert h == "Asimov" || h == "Prelude";
    }
    forall e | e in g.entries ensures !Includes(Lower(e.fileName), "found") {
      assert e.fileName == "prelude.pdf";
    }
  }

  lemma FoundMatchesFirstOnly()
    ensures TextFilter([Foundation(), Prelude()], "found") == [Foundation()]
  {
    FoundQueryMatches();
    TextFilterPair(Foundation(), Prelude(), "found");
  }

  lemma FoundQueryMatches()
    ensures MatchesText(Foundation(), SearchQuery("found"))
    ensures !MatchesText(Prelude(), SearchQuery("found"))
  {
    PlainQuery("found");
    FoundInFoundation();
    FoundNotInPrelude();
  }

  /** The query "found" occurs only in the first group's hierarchy and file
      name: the second group's title is not searched. */
  lemma FoundQuery()
    ensures Recompute(Shelf(), "found", None, 10) == FilesView(Rows([Foundation()]), ResultCount(1, 10))
  {
    var st := SearchFiles(Shelf(), "found", None);
    ShelfFlattens();
    FoundMatchesFirstOnly();
    assert FolderFilter([Foundation()], None) == [Foundation()];
    assert SortByName([Foundation()]) == [Foundation()];
    assert st == FilesState(0, [Foundation()]);
    assert Take(st.displayedItems, 10) == [Foundation()];
  }

  lemma AuthorQuery()
    ensures SearchQuery("ASIMOV") == "asimov"
  {
    var s := "ASIMOV";
    TrimNoOp(s);
    assert LowerChar('A') == 'a' && LowerChar('S') == 's' && LowerChar('I') == 'i';
    assert LowerChar('M') == 'm' && LowerChar('O') == 'o' && LowerChar('V') == 'v';
    assert forall i :: 0 <= i < 6 ==> Lower(s)[i] == LowerChar(s[i]);
  }

  lemma AsimovInBoth()
    ensures MatchesText(Foundation(), "asimov") && MatchesText(Prelude(), "asimov")
  {
    Lowered();
    assert Lower(Foundation().hierarchy[0])[..6] == "asimov";
    assert Lower(Prelude().hierarchy[0])[..6] == "asimov";
  }

  lemma AsimovMatchesBoth()
    ensures TextFilter([Foundation(), Prelude()], "ASIMOV") == [Foundation(), Prelude()]
  {
    AsimovQueryMatches();
    TextFilterKeepsAll([Foundation(), Prelude()], "ASIMOV");
  }

  lemma AsimovQueryMatches()
    ensures var items := [Foundation(), Prelude()];
      forall i :: 0 <= i < |items| ==> MatchesText(items[i], SearchQuery("ASIMOV"))
  {
    AuthorQuery();
    AsimovInBoth();
  }

  lemma ShelfSorted()
    ensures SortByName([Foundation(), Prelude()]) == [Foundation(), Prelude()]
  {
    assert NameLe(Foundation().fileName, Prelude().fileName);
    assert [Foundation(), Prelude()][1..] == [Prelude()];
    assert SortByName([Prelude()]) == [Prelude()];
  }

  /** An upper-case author query matches both groups; with a cap of one row
      only the first by name is shown, while the count reports both. */
  lemma AuthorQueryTruncated()
    ensures Recompute(Shelf(), "ASIMOV", None, 1) == FilesView(Rows([Foundation()]), ResultCount(2, 1))
  {
    var items := [Foundation(), Prelude()];
    var st := SearchFiles(Shelf(), "ASIMOV", None);
    ShelfFlattens();
    AsimovMatchesBoth();
    assert FolderFilter(items, None) == items;
    ShelfSorted();
    assert st == FilesState(0, items);
    assert Take(items, 1) == [Foundation()];
  }

  /** The folder condition is key containment, not ownership: a folder keyed
      "g2" selects the group keyed "f1/g2" although it does not own it. */
  lemma FolderKeyContainment()
    ensures FolderFilter([Foundation(), Prelude()], Some(Folder(Some("g2"), []))) == [Prelude()]
  {
    var p := FolderPredicate("g2");
    assert "f1/g2"[3..5] == "g2";
    assert IsInfix("g2", "f1/g2") by { assert OccursAt("g2", "f1/g2", 3); }
    IncludesIsInfix("f1/g2", "g2");
    assert !Includes("f1/g1", "g2") by {
      forall i | 0 <= i <= 3 ensures !OccursAt("g2", "f1/g1", i) {
        assert "f1/g1"[i..i + 2][1] == "f1/g1"[i + 1] != '2';
      }
      IncludesIsInfix("f1/g1", "g2");
    }
    var items := [Foundation(), Prelude()];
    assert items[1..] == [Prelude()];
    assert Filter(p, [Prelude()]) == [Prelude()] by {
      assert [Prelude()][1..] == [];
    }
  }

  /** A selected folder without a key makes the condition search for the text
      "undefined": only a group whose key contains that text is kept. */
  lemma KeylessFolder()
    ensures var stray := FileGroup(Some("undefined"), "Stray", [], []);
      FolderFilter([Foundation(), stray], Some(Folder(None, []))) == [stray]
  {
    var stray := FileGroup(Some("undefined"), "Stray", [], []);
    var p := FolderPredicate(UndefinedText);
    assert !p(Foundation());
    assert "undefined"[..|UndefinedText|] == UndefinedText;
    assert p(stray);
    assert [Foundation(), stray][1..] == [stray];
    assert Filter(p, [stray]) == [stray] by {
      assert [stray][1..] == [];
    }
  }
}
