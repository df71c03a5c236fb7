/** String helpers that stand for Python built-ins used by the core:
    `str.lower` (as far as membership in an all-ASCII set is concerned),
    `str.strip`, `str.split(sep)[0]`, the `in` substring test, and `sorted`
    on strings (code-point lexicographic order). */
module Text {

  /** Lower-casing of one character, restricted to the characters whose
      Python `lower()` is a single ASCII character: 'A'..'Z' and the Kelvin
      sign U+212A (which lower-cases to 'k'). Every other character is left
      as it is; its Python lower case is never ASCII, or is ASCII followed by
      a combining mark, so this agrees with Python on whether a lower-cased
      string equals an all-ASCII word. */
  function LowerChar(c: char): (r: char)
    ensures 'A' <= c <= 'Z' ==> r as int == c as int + 32
    ensures !('A' <= c <= 'Z') && c != '\U{212A}' ==> r == c
  {
    if 'A' <= c <= 'Z' then (c as int + 32) as char
    else if c == '\U{212A}' then 'k'
    else c
  }

  function Lower(s: string): (r: string)
    ensures |r| == |s|
    ensures forall i :: 0 <= i < |s| ==> r[i] == LowerChar(s[i])
  {
    if s == [] then [] else [LowerChar(s[0])] + Lower(s[1..])
  }

  /** Characters for which Python's `str.isspace()` holds. */
  predicate IsSpace(c: char) {
    c == ' ' || ('\t' <= c <= '\r') || ('\U{1C}' <= c <= '\U{1F}')
    || c == '\U{85}' || c == '\U{A0}' || c == '\U{1680}'
    || ('\U{2000}' <= c <= '\U{200A}') || c == '\U{2028}' || c == '\U{2029}'
    || c == '\U{202F}' || c == '\U{205F}' || c == '\U{3000}'
  }

  function StripLeft(s: string): (r: string)
    ensures |r| <= |s| && r == s[|s| - |r|..]
    ensures r == [] || !IsSpace(r[0])
    ensures forall i :: 0 <= i < |s| - |r| ==> IsSpace(s[i])
  {
    if s != [] && IsSpace(s[0]) then StripLeft(s[1..]) else s
  }

  function StripRight(s: string): (r: string)
    ensures |r| <= |s| && r == s[..|r|]
    ensures r == [] || !IsSpace(r[|r| - 1])
    ensures forall i :: |r| <= i < |s| ==> IsSpace(s[i])
  {
    if s != [] && IsSpace(s[|s| - 1]) then StripRight(s[..|s| - 1]) else s
  }

  /** How many whitespace characters `s.strip()` removes at the front. */
  function LeadingSpaces(s: string): (n: nat)
    ensures n <= |s|
  {
    |s| - |StripLeft(s)|
  }

  /** `s.strip()`: the piece of `s` that starts after the leading whitespace,
      with no whitespace left at either end, and all of `s` around it is
      whitespace. */
  function Strip(s: string): (r: string)
    ensures LeadingSpaces(s) + |r| <= |s|
    ensures r == s[LeadingSpaces(s)..LeadingSpaces(s) + |r|]
    ensures r == [] || (!IsSpace(r[0]) && !IsSpace(r[|r| - 1]))
    ensures forall i :: 0 <= i < |s| && !(LeadingSpaces(s) <= i < LeadingSpaces(s) + |r|) ==> IsSpace(s[i])
  {
    StripSlice(s, StripLeft(s), StripRight(StripLeft(s)));
    StripRight(StripLeft(s))
  }

  /** Where the result of `StripRight(StripLeft(s))` lies in `s`, and that
      everything of `s` around it is whitespace. */
  lemma StripSlice(s: string, l: string, r: string)
    requires |l| <= |s| && l == s[|s| - |l|..] && forall i :: 0 <= i < |s| - |l| ==> IsSpace(s[i])
    requires |r| <= |l| && r == l[..|r|] && forall i :: |r| <= i < |l| ==> IsSpace(l[i])
    ensures |s| - |l| + |r| <= |s|
    ensures r == s[|s| - |l|..|s| - |l| + |r|]
    ensures forall i :: 0 <= i < |s| && !(|s| - |l| <= i < |s| - |l| + |r|) ==> IsSpace(s[i])
  {
    SliceOfSlice(s, l, r);
    var k := |s| - |l|;
    forall i | k + |r| <= i < |s| ensures IsSpace(s[i]) {
      assert s[i] == l[i - k];
    }
  }

  /** A prefix `r` of a suffix `l` of `s` is a slice of `s`. */
  lemma SliceOfSlice(s: string, l: string, r: string)
    requires |l| <= |s| && l == s[|s| - |l|..] && |r| <= |l| && r == l[..|r|]
    ensures r == s[|s| - |l|..|s| - |l| + |r|]
  {
    var k := |s| - |l|;
    assert forall j :: 0 <= j < |l| ==> l[j] == s[k + j];
    var piece := s[k..k + |r|];
    assert forall j :: 0 <= j < |r| ==> piece[j] == s[k + j];
    assert r == piece;
  }

  /** `s.split(sep)[0]`: the longest prefix of `s` without `sep`. */
  function Before(s: string, sep: char): (r: string)
    ensures r <= s
    ensures sep !in r
    ensures |r| == |s| || s[|r|] == sep
  {
    if s == [] || s[0] == sep then [] else [s[0]] + Before(s[1..], sep)
  }

  /** Python's `".." in s`. */
  predicate ContainsDotDot(s: string) {
    exists i :: 0 <= i < |s| - 1 && s[i] == '.' && s[i + 1] == '.'
  }

  /** Python's `a <= b` on `str`: code-point lexicographic order. */
  predicate LessEq(a: string, b: string) {
    if a == [] then true
    else if b == [] then false
    else if a[0] != b[0] then a[0] < b[0]
    else LessEq(a[1..], b[1..])
  }

  lemma {:induction false} LessEqTotal(a: string, b: string)
    ensures LessEq(a, b) || LessEq(b, a)
  {
    if a != [] && b != [] && a[0] == b[0] {
      LessEqTotal(a[1..], b[1..]);
    }
  }

  lemma {:induction false} LessEqReflexive(a: string)
    ensures LessEq(a, a)
  {
    if a != [] {
      LessEqReflexive(a[1..]);
    }
  }

  lemma {:induction false} LessEqAntisymmetric(a: string, b: string)
    requires LessEq(a, b) && LessEq(b, a)
    ensures a == b
  {
    if a != [] && b != [] {
      LessEqAntisymmetric(a[1..], b[1..]);
      assert a == [a[0]] + a[1..];
      assert b == [b[0]] + b[1..];
    }
  }

  lemma {:induction false} LessEqTransitive(a: string, b: string, c: string)
    requires LessEq(a, b) && LessEq(b, c)
    ensures LessEq(a, c)
  {
    if a != [] && b != [] && c != [] && a[0] == b[0] == c[0] {
      LessEqTransitive(a[1..], b[1..], c[1..]);
    }
  }

  predicate Sorted(s: seq<string>) {
    forall i, j :: 0 <= i < j < |s| ==> LessEq(s[i], s[j])
  }

  function Insert(x: string, s: seq<string>): (r: seq<string>)
    requires Sorted(s)
    ensures Sorted(r)
    ensures multiset(r) == multiset(s) + multiset{x}
  {
    if s == [] then [x]
    else if LessEq(x, s[0]) then
      assert forall j :: 0 <= j < |s| ==> LessEq(x, s[j]) by {
        forall j | 0 <= j < |s| ensures LessEq(x, s[j]) {
          if j > 0 { LessEqTransitive(x, s[0], s[j]); }
        }
      }
      [x] + s
    else
      LessEqTotal(x, s[0]);
      var tail := Insert(x, s[1..]);
      assert s == [s[0]] + s[1..];
      forall j | 0 <= j < |tail| ensures LessEq(s[0], tail[j]) {
        assert tail[j] in multiset(tail);
        assert tail[j] == x || tail[j] in multiset(s[1..]);
        if tail[j] != x {
          var k :| 0 <= k < |s[1..]| && s[1..][k] == tail[j];
          assert s[k + 1] == tail[j];
        }
      }
      [s[0]] + tail
  }

  /** Python's `sorted(xs)` on strings (insertion sort; stable, though on
      strings equal elements are indistinguishable). */
  function Sort(xs: seq<string>): (r: seq<string>)
    ensures Sorted(r)
    ensures multiset(r) == multiset(xs)
  {
    if xs == [] then []
    else
      assert xs == [xs[0]] + xs[1..];
      Insert(xs[0], Sort(xs[1..]))
  }

  /** Two sorted sequences with the same elements are the same sequence:
      `sorted` is determined by the collection it is given. */
  lemma {:induction false} SortedUnique(a: seq<string>, b: seq<string>)
    requires Sorted(a) && Sorted(b) && multiset(a) == multiset(b)
    ensures a == b
  {
    if a == [] {
      assert |b| == |multiset(b)| == 0;
    } else {
      assert b != [] by { assert |b| == |multiset(b)| == |multiset(a)| == |a|; }
      var x := a[0];
      assert b[0] == x by {
        assert x in multiset(b) && b[0] in multiset(a);
        LeastIsFirst(a, b[0]);
        LeastIsFirst(b, x);
        LessEqAntisymmetric(x, b[0]);
      }
      assert multiset(a[1..]) == multiset(b[1..]) by {
        assert a == [x] + a[1..] && b == [x] + b[1..];
        assert multiset(a) == multiset{x} + multiset(a[1..]);
        assert multiset(b) == multiset{x} + multiset(b[1..]);
        assert multiset(a[1..]) == multiset(a) - multiset{x};
        assert multiset(b[1..]) == multiset(b) - multiset{x};
      }
      SortedTail(a);
      SortedTail(b);
      SortedUnique(a[1..], b[1..]);
      assert a == [x] + a[1..] && b == [x] + b[1..];
    }
  }

  lemma SortedTail(a: seq<string>)
    requires Sorted(a) && a != []
    ensures Sorted(a[1..])
  {
    forall i, j | 0 <= i < j < |a| - 1 ensures LessEq(a[1..][i], a[1..][j]) {
      assert a[1..][i] == a[i + 1] && a[1..][j] == a[j + 1];
    }
  }

  /** In a sorted sequence the first element is below every element. */
  lemma LeastIsFirst(a: seq<string>, y: string)
    requires Sorted(a) && y in multiset(a)
    ensures LessEq(a[0], y)
  {
    var i :| 0 <= i < |a| && a[i] == y;
    if i == 0 { LessEqReflexive(y); }
  }
}
