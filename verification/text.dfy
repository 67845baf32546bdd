/** The string primitives the search code calls: `toLowerCase` /
    `toLocaleLowerCase` (modelled as ASCII lower-casing), `trim` (with the
    ECMAScript white-space and line-terminator characters) and `includes`
    (substring containment). */
module Text {

  /** An ECMAScript WhiteSpace or LineTerminator code point, the set `trim` strips. */
  predicate IsWhiteSpace(c: char)
  {
    || c == '\t' || c == '\n' || c == '\U{B}' || c == '\U{C}' || c == '\r' || c == ' '
    || c == '\U{A0}' || c == '\U{1680}' || ('\U{2000}' <= c <= '\U{200A}')
    || c == '\U{2028}' || c == '\U{2029}' || c == '\U{202F}' || c == '\U{205F}'
    || c == '\U{3000}' || c == '\U{FEFF}'
  }

  predicate AllWhiteSpace(s: string)
  {
    forall i :: 0 <= i < |s| ==> IsWhiteSpace(s[i])
  }

  predicate IsUpper(c: char)
  {
    'A' <= c <= 'Z'
  }

  /** The lower-case letters, in the order of their upper-case counterparts. */
  const LowerLetters: string := "abcdefghijklmnopqrstuvwxyz"

  function LowerChar(c: char): (d: char)
    ensures IsUpper(c) ==> d == LowerLetters[c as int - 'A' as int]
    ensures !IsUpper(d)
    ensures !IsUpper(c) ==> d == c
    ensures IsWhiteSpace(d) <==> IsWhiteSpace(c)
  {
    if IsUpper(c) then (c as int + 32) as char else c
  }

  /** Lower-casing, character by character. */
  function Lower(s: string): (r: string)
    ensures |r| == |s|
    ensures forall i :: 0 <= i < |r| ==> !IsUpper(r[i])
    ensures forall i :: 0 <= i < |r| ==> IsWhiteSpace(r[i]) == IsWhiteSpace(s[i])
    ensures forall i :: 0 <= i < |r| && !IsUpper(s[i]) ==> r[i] == s[i]
    ensures forall i :: 0 <= i < |r| && IsUpper(s[i]) ==> r[i] == LowerLetters[s[i] as int - 'A' as int]
  {
    seq(|s|, i requires 0 <= i < |s| => LowerChar(s[i]))
  }

  /** Lower-casing commutes with taking a slice. */
  lemma LowerSlice(s: string, a: int, b: int)
    requires 0 <= a <= b <= |s|
    ensures Lower(s[a..b]) == Lower(s)[a..b]
  {
  }

  lemma LowerIdempotent(s: string)
    ensures Lower(Lower(s)) == Lower(s)
  {
  }

  /** Number of white-space characters at the start of `s`. */
  function LeadingSpace(s: string): (n: nat)
    ensures n <= |s|
    ensures AllWhiteSpace(s[..n])
    ensures n < |s| ==> !IsWhiteSpace(s[n])
  {
    if s == [] || !IsWhiteSpace(s[0]) then 0
    else
      var k := LeadingSpace(s[1..]);
      assert s[1..][..k] == s[1..k + 1];
      1 + k
  }

  /** Number of white-space characters at the end of `s`. */
  function TrailingSpace(s: string): (n: nat)
    ensures n <= |s|
    ensures AllWhiteSpace(s[|s| - n..])
    ensures n < |s| ==> !IsWhiteSpace(s[|s| - n - 1])
  {
    if s == [] || !IsWhiteSpace(s[|s| - 1]) then 0
    else
      var k := TrailingSpace(s[..|s| - 1]);
      assert s[..|s| - 1][|s| - 1 - k..] == s[|s| - 1 - k..|s| - 1];
      1 + k
  }

  /** `s` without its leading white space. */
  function TrimStart(s: string): (r: string)
    ensures |r| <= |s| && r == s[|s| - |r|..]
    ensures AllWhiteSpace(s[..|s| - |r|])
    ensures r == [] || !IsWhiteSpace(r[0])
  {
    s[LeadingSpace(s)..]
  }

  /** `s` without its trailing white space. */
  function TrimEnd(s: string): (r: string)
    ensures |r| <= |s| && r == s[..|r|]
    ensures AllWhiteSpace(s[|r|..])
    ensures r == [] || !IsWhiteSpace(r[|r| - 1])
  {
    s[..|s| - TrailingSpace(s)]
  }

  /** `String.prototype.trim`: the input without its leading and trailing
      white space. */
  function Trim(s: string): (r: string)
    ensures |r| == 0 || (!IsWhiteSpace(r[0]) && !IsWhiteSpace(r[|r| - 1]))
    ensures exists a :: 0 <= a <= |s| - |r| && s[a..a + |r|] == r
              && AllWhiteSpace(s[..a]) && AllWhiteSpace(s[a + |r|..])
  {
    var t := TrimStart(s);
    var r := TrimEnd(t);
    var a := |s| - |t|;
    assert s[a..a + |r|] == r;
    assert s[a + |r|..] == t[|r|..];
    r
  }

  /** Text with no white space at either end is its own trim. */
  lemma TrimNoOp(s: string)
    requires s != [] && !IsWhiteSpace(s[0]) && !IsWhiteSpace(s[|s| - 1])
    ensures Trim(s) == s
  {
    assert LeadingSpace(s) == 0;
    assert s[0..] == s;
    assert TrailingSpace(s) == 0;
    assert s[..|s| - 0] == s;
  }

  /** `trim` yields the empty string exactly on all-white-space input. */
  lemma TrimEmptyIff(s: string)
    ensures Trim(s) == [] <==> AllWhiteSpace(s)
  {
    var t := TrimStart(s);
    if AllWhiteSpace(s) {
      assert LeadingSpace(s) == |s|;
    }
    if Trim(s) == [] {
      assert TrimEnd(t) == [];
      assert t == [];
      assert s[..|s| - |t|] == s;
    }
  }

  lemma {:induction false} LeadingSpaceLower(s: string)
    ensures LeadingSpace(Lower(s)) == LeadingSpace(s)
    decreases |s|
  {
    if s != [] {
      var l := Lower(s);
      assert IsWhiteSpace(l[0]) == IsWhiteSpace(s[0]);
      LowerSlice(s, 1, |s|);
      assert l[1..] == Lower(s[1..]);
      LeadingSpaceLower(s[1..]);
    }
  }

  lemma {:induction false} TrailingSpaceLower(s: string)
    ensures TrailingSpace(Lower(s)) == TrailingSpace(s)
    decreases |s|
  {
    if s != [] {
      LowerSlice(s, 0, |s| - 1);
      TrailingSpaceLower(s[..|s| - 1]);
    }
  }

  /** Lower-casing and trimming commute: the search code trims first and then
      lower-cases, and the order does not matter. */
  lemma TrimLower(s: string)
    ensures Trim(Lower(s)) == Lower(Trim(s))
  {
    TrimStartLower(s);
    TrimEndLower(TrimStart(s));
  }

  lemma TrimStartLower(s: string)
    ensures TrimStart(Lower(s)) == Lower(TrimStart(s))
  {
    LeadingSpaceLower(s);
    LowerSlice(s, LeadingSpace(s), |s|);
  }

  lemma TrimEndLower(s: string)
    ensures TrimEnd(Lower(s)) == Lower(TrimEnd(s))
  {
    TrailingSpaceLower(s);
    LowerSlice(s, 0, |s| - TrailingSpace(s));
  }

  /** Substring containment, `hay.includes(needle)`. */
  function Includes(hay: string, needle: string): bool
    decreases |hay|
  {
    |needle| <= |hay| && (hay[..|needle|] == needle || Includes(hay[1..], needle))
  }

  /** `needle` occurs in `hay` starting at position `i`. */
  predicate OccursAt(needle: string, hay: string, i: int)
  {
    0 <= i <= |hay| - |needle| && hay[i..i + |needle|] == needle
  }

  /** `needle` occurs in `hay` at some position. */
  ghost predicate IsInfix(needle: string, hay: string)
  {
    exists i :: OccursAt(needle, hay, i)
  }

  /** The recursive scan finds exactly the occurrences there are. */
  lemma {:induction false} IncludesIsInfix(hay: string, needle: string)
    ensures Includes(hay, needle) <==> IsInfix(needle, hay)
    decreases |hay|
  {
    var n := |needle|;
    if n <= |hay| && hay[..n] != needle {
      IncludesIsInfix(hay[1..], needle);
      if IsInfix(needle, hay) {
        var i :| OccursAt(needle, hay, i);
        assert i != 0;
        assert hay[1..][i - 1..i - 1 + n] == needle;
        assert OccursAt(needle, hay[1..], i - 1);
      }
      if IsInfix(needle, hay[1..]) {
        var i :| OccursAt(needle, hay[1..], i);
        assert hay[i + 1..i + 1 + n] == needle;
        assert OccursAt(needle, hay, i + 1);
      }
    } else if n <= |hay| {
      assert OccursAt(needle, hay, 0);
    }
  }

  /** `IncludesIsInfix` for all strings at once. */
  lemma IncludesIsInfixAll()
    ensures forall hay, needle :: Includes(hay, needle) <==> IsInfix(needle, hay)
  {
    forall hay, needle ensures Includes(hay, needle) <==> IsInfix(needle, hay) {
      IncludesIsInfix(hay, needle);
    }
  }

  /** A non-empty needle whose first character appears nowhere it could
      start is not included. */
  lemma {:induction false} FirstCharAbsent(hay: string, needle: string)
    requires needle != []
    requires forall i :: 0 <= i <= |hay| - |needle| ==> hay[i] != needle[0]
    ensures !Includes(hay, needle)
    decreases |hay|
  {
    if |needle| <= |hay| {
      assert hay[..|needle|][0] == hay[0];
      FirstCharAbsent(hay[1..], needle);
    }
  }

  /** Every string includes the empty string. */
  lemma IncludesEmpty(hay: string)
    ensures Includes(hay, [])
  {
    assert hay[..0] == [];
  }
}
