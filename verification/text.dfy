/** The string operations the handlers rely on: Python's `str.strip()`, the
    case-insensitive SQL `ILIKE` used by the product search, the binary collation
    behind `ORDER BY name`, and the slicing/replacing done when building export rows. */
module Text {

  /** Python's `str.isspace()` for one character (the characters `str.strip()` removes). */
  predicate IsSpace(c: char) {
    ('\t' <= c <= '\r') || ('\U{1C}' <= c <= ' ') || c == '\U{85}' || c == '\U{A0}'
    || c == '\U{1680}' || ('\U{2000}' <= c <= '\U{200A}') || c == '\U{2028}' || c == '\U{2029}'
    || c == '\U{202F}' || c == '\U{205F}' || c == '\U{3000}'
  }

  function TrimLeft(s: string): (r: string)
    ensures |r| <= |s| && r == s[|s| - |r|..]
    ensures forall i :: 0 <= i < |s| - |r| ==> IsSpace(s[i])
    ensures r == [] || !IsSpace(r[0])
  {
    if s != [] && IsSpace(s[0]) then TrimLeft(s[1..]) else s
  }

  function TrimRight(s: string): (r: string)
    ensures |r| <= |s| && r == s[..|r|]
    ensures forall i :: |r| <= i < |s| ==> IsSpace(s[i])
    ensures r == [] || !IsSpace(r[|r| - 1])
  {
    if s != [] && IsSpace(s[|s| - 1]) then TrimRight(s[..|s| - 1]) else s
  }

  /** Python's `s.strip()`: the longest infix of `s` that neither starts nor ends with
      whitespace (StripPadded: everything cut away is whitespace). */
  function Strip(s: string): (r: string)
    ensures r == [] || (!IsSpace(r[0]) && !IsSpace(r[|r| - 1]))
  {
    TrimRight(TrimLeft(s))
  }

  /** What `strip()` removes is whitespace on both sides of the result. */
  lemma StripPadded(s: string)
    ensures exists i :: PaddedAt(s, Strip(s), i)
  {
    var l := TrimLeft(s);
    var i := |s| - |l|;
    TrimRightPadded(s, l, i);
    assert PaddedAt(s, Strip(s), i);
  }

  lemma TrimRightPadded(s: string, l: string, i: int)
    requires 0 <= i <= |s| && l == s[i..]
    requires forall k :: 0 <= k < i ==> IsSpace(s[k])
    ensures PaddedAt(s, TrimRight(l), i)
  {
    var r := TrimRight(l);
    assert r == s[i..i + |r|];
    forall k | i + |r| <= k < |s| ensures IsSpace(s[k]) {
      assert s[k] == l[k - i];
    }
  }

  /** `s` is `r` surrounded by whitespace, with `r` starting at index `i`. */
  predicate PaddedAt(s: string, r: string, i: int) {
    && 0 <= i <= |s| - |r| && r == s[i..i + |r|]
    && (forall k :: 0 <= k < i ==> IsSpace(s[k]))
    && (forall k :: i + |r| <= k < |s| ==> IsSpace(s[k]))
  }

  /** A stripped string is empty exactly when the original is all whitespace: this is
      the "empty cell" test applied to category and supplier names on import. */
  lemma StripEmptyIffBlank(s: string)
    ensures Strip(s) == [] <==> forall i :: 0 <= i < |s| ==> IsSpace(s[i])
  {
    var r := Strip(s);
    StripPadded(s);
    if r != [] {
      var i :| PaddedAt(s, r, i);
      assert s[i] == r[0];
    }
  }

  /** A string without surrounding whitespace. */
  predicate Unpadded(s: string) {
    s == [] || (!IsSpace(s[0]) && !IsSpace(s[|s| - 1]))
  }

  /** Stripping leaves a string without surrounding whitespace unchanged. */
  lemma StripUnpadded(s: string)
    requires Unpadded(s)
    ensures Strip(s) == s
  {
    assert TrimLeft(s) == s;
    assert TrimRight(s) == s;
  }

  /** Lower-casing as SQLite's `lower()` does it: ASCII letters only. */
  function Lower(c: char): (r: char)
    ensures 'A' <= c <= 'Z' ==> r as int == c as int + 32
    ensures !('A' <= c <= 'Z') ==> r == c
  {
    if 'A' <= c <= 'Z' then (c as int + 32) as char else c
  }

  /** `s ILIKE p`: `%` matches any run of characters, `_` exactly one, and every other
      pattern character one character equal to it up to ASCII case. The pattern has no
      escape character, so `%` and `_` typed by the user act as wildcards. */
  predicate ILike(s: string, p: string)
    decreases |s| + |p|
  {
    if p == [] then s == []
    else if p[0] == '%' then ILike(s, p[1..]) || (s != [] && ILike(s[1..], p))
    else s != [] && (p[0] == '_' || Lower(s[0]) == Lower(p[0])) && ILike(s[1..], p[1..])
  }

  /** The pattern contains no wildcard character. */
  predicate Literal(q: string) {
    forall i :: 0 <= i < |q| ==> q[i] != '%' && q[i] != '_'
  }

  /** Equal up to ASCII case. */
  predicate FoldEq(a: string, b: string) {
    |a| == |b| && forall i :: 0 <= i < |a| ==> Lower(a[i]) == Lower(b[i])
  }

  /** `q` occurs in `s` up to ASCII case. */
  ghost predicate ContainsFolded(s: string, q: string) {
    exists i :: OccursAt(s, q, i)
  }

  predicate OccursAt(s: string, q: string, i: int) {
    0 <= i <= |s| - |q| && FoldEq(s[i..i + |q|], q)
  }

  lemma {:induction false} PercentMatchesAll(s: string)
    ensures ILike(s, "%")
  {
    if s != [] {
      PercentMatchesAll(s[1..]);
    }
  }

  /** A literal pattern followed by `%` matches exactly the strings it prefixes. */
  lemma {:induction false} LikePrefix(s: string, q: string)
    requires Literal(q)
    ensures ILike(s, q + "%") <==> |q| <= |s| && FoldEq(s[..|q|], q)
  {
    if q == [] {
      PercentMatchesAll(s);
      assert q + "%" == "%";
    } else {
      assert (q + "%")[0] == q[0] && (q + "%")[1..] == q[1..] + "%";
      if s != [] {
        LikePrefix(s[1..], q[1..]);
        if |q| <= |s| && FoldEq(s[..|q|], q) {
          assert FoldEq(s[1..][..|q| - 1], q[1..]) by {
            forall i | 0 <= i < |q| - 1 ensures Lower(s[1..][..|q| - 1][i]) == Lower(q[1..][i]) {
              assert s[1..][..|q| - 1][i] == s[..|q|][i + 1];
            }
          }
        }
        if ILike(s, q + "%") {
          assert Lower(s[0]) == Lower(q[0]);
          assert FoldEq(s[..|q|], q) by {
            forall i | 0 <= i < |q| ensures Lower(s[..|q|][i]) == Lower(q[i]) {
              if i > 0 {
                assert s[..|q|][i] == s[1..][..|q| - 1][i - 1];
              }
            }
          }
        }
      }
    }
  }

  /** A pattern starting with `%` matches when its remainder matches some suffix. */
  lemma {:induction false} LikeLeadingPercent(s: string, r: string)
    ensures ILike(s, "%" + r) <==> exists i :: SuffixMatches(s, r, i)
  {
    assert ("%" + r)[0] == '%' && ("%" + r)[1..] == r;
    if s == [] {
      assert s[0..] == s;
      assert ILike(s, r) ==> SuffixMatches(s, r, 0);
      if exists i :: SuffixMatches(s, r, i) {
        var i :| SuffixMatches(s, r, i);
        assert s[i..] == s;
      }
    } else {
      LikeLeadingPercent(s[1..], r);
      if ILike(s, "%" + r) {
        if ILike(s, r) {
          assert s[0..] == s;
          assert SuffixMatches(s, r, 0);
        } else {
          var i :| SuffixMatches(s[1..], r, i);
          assert s[1..][i..] == s[i + 1..];
          assert SuffixMatches(s, r, i + 1);
        }
      }
      if exists i :: SuffixMatches(s, r, i) {
        var i :| SuffixMatches(s, r, i);
        if i == 0 {
          assert s[i..] == s;
        } else {
          assert s[1..][i - 1..] == s[i..];
          assert SuffixMatches(s[1..], r, i - 1);
        }
      }
    }
  }

  predicate SuffixMatches(s: string, r: string, i: int) {
    0 <= i <= |s| && ILike(s[i..], r)
  }

  /** The search filter `col ILIKE '%' || q || '%'`: for a query without wildcards this is
      a case-insensitive (ASCII) substring test. */
  lemma SearchPatternIsSubstring(s: string, q: string)
    requires Literal(q)
    ensures ILike(s, "%" + q + "%") <==> ContainsFolded(s, q)
  {
    assert "%" + q + "%" == "%" + (q + "%");
    LikeLeadingPercent(s, q + "%");
    if ILike(s, "%" + q + "%") {
      var i :| SuffixMatches(s, q + "%", i);
      LikePrefix(s[i..], q);
      assert s[i..][..|q|] == s[i..i + |q|];
      assert OccursAt(s, q, i);
    }
    if ContainsFolded(s, q) {
      var i :| OccursAt(s, q, i);
      assert s[i..][..|q|] == s[i..i + |q|];
      LikePrefix(s[i..], q);
      assert SuffixMatches(s, q + "%", i);
    }
  }

  /** Python's `s[:n]`. */
  function Clip(s: string, n: nat): (r: string)
    ensures |r| == if |s| < n then |s| else n
    ensures r == s[..|r|]
  {
    if |s| <= n then s else s[..n]
  }

  /** Python's `s.replace('\n', ' ')`. */
  function NewlinesToSpaces(s: string): (r: string)
    ensures |r| == |s|
    ensures forall i :: 0 <= i < |s| ==> r[i] == (if s[i] == '\n' then ' ' else s[i])
  {
    if s == [] then [] else [if s[0] == '\n' then ' ' else s[0]] + NewlinesToSpaces(s[1..])
  }

  /** Binary collation: lexicographic order on character codes (SQLite's default for
      `ORDER BY` on text, since UTF-8 byte order is code-point order). */
  predicate StrLe(a: string, b: string) {
    a == [] || (b != [] && (a[0] < b[0] || (a[0] == b[0] && StrLe(a[1..], b[1..]))))
  }

  lemma {:induction false} StrLeTotal(a: string, b: string)
    ensures StrLe(a, b) || StrLe(b, a)
  {
    if a != [] && b != [] && a[0] == b[0] {
      StrLeTotal(a[1..], b[1..]);
    }
  }

  lemma {:induction false} StrLeTransitive(a: string, b: string, c: string)
    requires StrLe(a, b) && StrLe(b, c)
    ensures StrLe(a, c)
  {
    if a != [] && a[0] == b[0] && b[0] == c[0] {
      StrLeTransitive(a[1..], b[1..], c[1..]);
    }
  }

  lemma {:induction false} StrLeAntisymmetric(a: string, b: string)
    requires StrLe(a, b) && StrLe(b, a)
    ensures a == b
  {
    if a != [] && b != [] {
      StrLeAntisymmetric(a[1..], b[1..]);
      assert a == [a[0]] + a[1..];
      assert b == [b[0]] + b[1..];
    }
  }
}
