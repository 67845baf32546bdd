/** The stable ordering of search results by `FileName`
    (`items.sort(byValue(x => x.FileName, byString()))`). The string
    comparator is code-point lexicographic order; `Array.prototype.sort` is
    stable, so groups with equal names keep their relative order. */
module Sorting {
  import opened Catalog
  import opened Seqs

  /** Lexicographic order on strings by character code: a proper prefix comes first. */
  predicate NameLe(a: string, b: string)
    decreases |a|
  {
    a == [] || (b != [] && (a[0] < b[0] || (a[0] == b[0] && NameLe(a[1..], b[1..]))))
  }

  lemma {:induction false} NameLeReflexive(a: string)
    ensures NameLe(a, a)
    decreases |a|
  {
    if a != [] {
      NameLeReflexive(a[1..]);
    }
  }

  lemma {:induction false} NameLeTotal(a: string, b: string)
    ensures NameLe(a, b) || NameLe(b, a)
    decreases |a|
  {
    if a != [] && b != [] && a[0] == b[0] {
      NameLeTotal(a[1..], b[1..]);
    }
  }

  lemma {:induction false} NameLeTransitive(a: string, b: string, c: string)
    requires NameLe(a, b) && NameLe(b, c)
    ensures NameLe(a, c)
    decreases |a|
  {
    if a != [] && a[0] == b[0] && b[0] == c[0] {
      NameLeTransitive(a[1..], b[1..], c[1..]);
    }
  }

  lemma {:induction false} NameLeAntisymmetric(a: string, b: string)
    requires NameLe(a, b) && NameLe(b, a)
    ensures a == b
    decreases |a|
  {
    if a != [] {
      NameLeAntisymmetric(a[1..], b[1..]);
    }
  }

  /** Non-decreasing by `FileName`. */
  predicate SortedByName(s: seq<FileGroup>)
  {
    forall i, j :: 0 <= i < j < |s| ==> NameLe(s[i].fileName, s[j].fileName)
  }

  function Named(n: string): FileGroup -> bool
  {
    (g: FileGroup) => g.fileName == n
  }

  /** The groups of `s` named `n`, in their order in `s`. */
  function WithName(s: seq<FileGroup>, n: string): seq<FileGroup>
  {
    Filter(Named(n), s)
  }

  /** `r` lists, for every name, the same groups in the same order as `s`:
      a rearrangement that never reorders ties. */
  ghost predicate KeepsTies(r: seq<FileGroup>, s: seq<FileGroup>)
  {
    forall n :: WithName(r, n) == WithName(s, n)
  }

  /** Places `g` before the first group whose name is not below its own. */
  function Insert(g: FileGroup, s: seq<FileGroup>): (r: seq<FileGroup>)
    ensures multiset(r) == multiset(s) + multiset{g}
    ensures |r| == |s| + 1
    ensures forall x :: x in r <==> x == g || x in s
  {
    if s == [] || NameLe(g.fileName, s[0].fileName) then [g] + s
    else
      assert s == [s[0]] + s[1..];
      [s[0]] + Insert(g, s[1..])
  }

  lemma {:induction false} InsertSorted(g: FileGroup, s: seq<FileGroup>)
    requires SortedByName(s)
    ensures SortedByName(Insert(g, s))
    decreases |s|
  {
    if s != [] && !NameLe(g.fileName, s[0].fileName) {
      var t := Insert(g, s[1..]);
      InsertSorted(g, s[1..]);
      NameLeTotal(g.fileName, s[0].fileName);
      forall j | 0 <= j < |t| ensures NameLe(s[0].fileName, t[j].fileName) {
        assert t[j] in t;
        if t[j] != g {
          assert t[j] in s[1..];
          var k :| 1 <= k < |s| && s[k] == t[j];
        }
      }
      var r := Insert(g, s);
      assert r == [s[0]] + t;
      forall i, j | 0 <= i < j < |r| ensures NameLe(r[i].fileName, r[j].fileName) {
        if i == 0 {
          assert r[j] == t[j - 1];
        } else {
          assert r[i] == t[i - 1] && r[j] == t[j - 1];
        }
      }
    } else if s != [] {
      var r := Insert(g, s);
      forall j | 1 <= j < |r| ensures NameLe(g.fileName, r[j].fileName) {
        assert r[j] == s[j - 1];
        if j > 1 {
          NameLeTransitive(g.fileName, s[0].fileName, s[j - 1].fileName);
        }
      }
    }
  }

  lemma {:induction false} InsertWithName(g: FileGroup, s: seq<FileGroup>, n: string)
    ensures WithName(Insert(g, s), n) == (if g.fileName == n then [g] else []) + WithName(s, n)
    decreases |s|
  {
    var r := Insert(g, s);
    WithNameCons(r, n);
    if s == [] || NameLe(g.fileName, s[0].fileName) {
      assert r[1..] == s;
    } else {
      InsertWithName(g, s[1..], n);
      WithNameCons(s, n);
      assert r[1..] == Insert(g, s[1..]);
      if g.fileName == n && s[0].fileName == n {
        NameLeReflexive(n);
      }
    }
  }

  /** Stable sort by `FileName` (insertion sort). */
  function SortByName(s: seq<FileGroup>): (r: seq<FileGroup>)
    ensures multiset(r) == multiset(s)
    ensures |r| == |s|
    ensures SortedByName(r)
  {
    if s == [] then []
    else
      var t := SortByName(s[1..]);
      InsertSorted(s[0], t);
      assert s == [s[0]] + s[1..];
      Insert(s[0], t)
  }

  /** Groups that share a name come out in the order they went in. */
  lemma {:induction false} SortByNameKeepsTies(s: seq<FileGroup>, n: string)
    ensures WithName(SortByName(s), n) == WithName(s, n)
    decreases |s|
  {
    if s != [] {
      SortByNameKeepsTies(s[1..], n);
      InsertWithName(s[0], SortByName(s[1..]), n);
    }
  }

  lemma {:induction false} WithNameMember(s: seq<FileGroup>, i: int)
    requires 0 <= i < |s|
    ensures s[i] in WithName(s, s[i].fileName)
  {
  }

  lemma WithNameCons(s: seq<FileGroup>, n: string)
    requires s != []
    ensures s[0].fileName == n ==> WithName(s, n) == [s[0]] + WithName(s[1..], n)
    ensures s[0].fileName != n ==> WithName(s, n) == WithName(s[1..], n)
  {
    assert Named(n)(s[0]) == (s[0].fileName == n);
  }

  /** The first name of a sorted `r` is at most the first name of any `q`
      that orders every name's groups alike. */
  lemma HeadNameLe(r: seq<FileGroup>, q: seq<FileGroup>)
    requires r != [] && q != []
    requires SortedByName(r)
    requires KeepsTies(r, q)
    ensures NameLe(r[0].fileName, q[0].fileName)
  {
    var b := q[0].fileName;
    WithNameMember(q, 0);
    assert WithName(r, b) == WithName(q, b);
    assert q[0] in r;
    var j :| 0 <= j < |r| && r[j] == q[0];
    if j == 0 {
      NameLeReflexive(b);
    }
  }

  /** Two name-sorted sequences that agree on the order of every name's
      groups start with the same group. */
  lemma SortedTiesSameHead(r: seq<FileGroup>, q: seq<FileGroup>)
    requires r != [] && q != []
    requires SortedByName(r) && SortedByName(q)
    requires KeepsTies(r, q)
    ensures r[0] == q[0]
  {
    HeadNameLe(r, q);
    assert KeepsTies(q, r) by {
      forall n ensures WithName(q, n) == WithName(r, n) {
        assert WithName(r, n) == WithName(q, n);
      }
    }
    HeadNameLe(q, r);
    var a := r[0].fileName;
    NameLeAntisymmetric(a, q[0].fileName);
    WithNameCons(r, a);
    WithNameCons(q, a);
    assert WithName(r, a) == WithName(q, a);
    assert WithName(r, a)[0] == r[0];
  }

  /** Dropping a common first group keeps the agreement on ties. */
  lemma TiesAfterHead(r: seq<FileGroup>, q: seq<FileGroup>)
    requires r != [] && q != [] && r[0] == q[0]
    requires KeepsTies(r, q)
    ensures KeepsTies(r[1..], q[1..])
  {
    forall n ensures WithName(r[1..], n) == WithName(q[1..], n) {
      WithNameCons(r, n);
      WithNameCons(q, n);
      assert WithName(r, n) == WithName(q, n);
      if r[0].fileName == n {
        assert WithName(r, n)[1..] == WithName(r[1..], n);
        assert WithName(q, n)[1..] == WithName(q[1..], n);
      } else {
        assert WithName(r, n) == WithName(r[1..], n);
        assert WithName(q, n) == WithName(q[1..], n);
      }
    }
  }

  /** Two name-sorted sequences that agree on the order of every name's groups
      are equal. */
  lemma {:induction false} SortedTiesUnique(r: seq<FileGroup>, q: seq<FileGroup>)
    requires SortedByName(r) && SortedByName(q)
    requires KeepsTies(r, q)
    ensures r == q
    decreases |r| + |q|
  {
    if r == [] || q == [] {
      if r != [] {
        WithNameMember(r, 0);
      } else if q != [] {
        WithNameMember(q, 0);
      }
    } else {
      SortedTiesSameHead(r, q);
      TiesAfterHead(r, q);
      SortedTiesUnique(r[1..], q[1..]);
    }
  }

  /** Any name-sorted rearrangement of `s` that keeps ties in order is
      `SortByName(s)`: every stable sort by name computes the same result. */
  lemma StableSortIsUnique(s: seq<FileGroup>, r: seq<FileGroup>)
    requires SortedByName(r) && KeepsTies(r, s)
    ensures r == SortByName(s)
  {
    forall n ensures WithName(SortByName(s), n) == WithName(s, n) {
      SortByNameKeepsTies(s, n);
    }
    SortedTiesUnique(r, SortByName(s));
  }
}
