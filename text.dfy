/**
 * The few Python string operations the collector relies on, over `string`
 * (a sequence of Unicode scalar values): `str.strip()`, `str.split(sep)`,
 * `str.lower()`, the substring test `t in s` and `str.startswith`.
 */
module Text {

  /** The characters for which Python's `str.isspace()` holds; `str.strip()` removes them. */
  predicate IsSpace(c: char) {
    || c == ' '
    || ('\t' <= c <= '\r')
    || ('\U{1C}' <= c <= '\U{1F}')
    || c == '\U{85}' || c == '\U{A0}' || c == '\U{1680}'
    || ('\U{2000}' <= c <= '\U{200A}')
    || c == '\U{2028}' || c == '\U{2029}' || c == '\U{202F}' || c == '\U{205F}' || c == '\U{3000}'
  }

  /** `s.lstrip()`: what is left is a suffix of `s`, and everything removed was white space. */
  function StripLeft(s: string): (r: string)
    ensures |r| <= |s| && r == s[|s| - |r|..]
    ensures r == [] || !IsSpace(r[0])
    ensures forall j :: 0 <= j < |s| - |r| ==> IsSpace(s[j])
  {
    if s != [] && IsSpace(s[0]) then StripLeft(s[1..]) else s
  }

  /** `s.rstrip()`: what is left is a prefix of `s`, and everything removed was white space. */
  function StripRight(s: string): (r: string)
    ensures |r| <= |s| && r == s[..|r|]
    ensures r == [] || !IsSpace(r[|r| - 1])
    ensures forall j :: |r| <= j < |s| ==> IsSpace(s[j])
  {
    if s != [] && IsSpace(s[|s| - 1]) then StripRight(s[..|s| - 1]) else s
  }

  /** `s.strip()`. */
  function Strip(s: string): (r: string)
    ensures r == [] || (!IsSpace(r[0]) && !IsSpace(r[|r| - 1]))
    ensures r == [] <==> forall j :: 0 <= j < |s| ==> IsSpace(s[j])
  {
    StripRight(StripLeft(s))
  }

  /** Stripping a string that neither starts nor ends with white space changes nothing. */
  lemma StripUnpadded(s: string)
    requires s == [] || (!IsSpace(s[0]) && !IsSpace(s[|s| - 1]))
    ensures Strip(s) == s
  {
  }

  /** Python's truth test on `s.strip()`: the line holds nothing but white space. */
  predicate IsBlank(s: string) {
    Strip(s) == []
  }

  /** `s.startswith(p)`. */
  predicate StartsWith(s: string, p: string) {
    |p| <= |s| && s[..|p|] == p
  }

  /** The substring test `t in s`. */
  predicate Contains(s: string, t: string) {
    StartsWith(s, t) || (s != [] && Contains(s[1..], t))
  }

  /** `c.lower()` for the ASCII letters; every other character is kept. */
  function LowerChar(c: char): char {
    if 'A' <= c <= 'Z' then (c as int + 32) as char else c
  }

  /** `s.lower()`, character by character. */
  function Lower(s: string): string {
    seq(|s|, i requires 0 <= i < |s| => LowerChar(s[i]))
  }

  /** `s.split(sep)`: never empty (Python gives `['']` for the empty string). */
  function Split(s: string, sep: char): (parts: seq<string>)
    ensures |parts| >= 1
  {
    if s == [] then [[]]
    else
      var rest := Split(s[1..], sep);
      if s[0] == sep then [[]] + rest
      else [[s[0]] + rest[0]] + rest[1..]
  }

  /** One more piece than there are separators, none of them holding one. */
  lemma {:induction false} SplitPieces(s: string, sep: char)
    ensures |Split(s, sep)| == multiset(s)[sep] + 1
    ensures forall k :: 0 <= k < |Split(s, sep)| ==> sep !in Split(s, sep)[k]
  {
    if s != [] {
      assert s == [s[0]] + s[1..];
      SplitPieces(s[1..], sep);
    }
  }

  /** `sep.join(parts)`, the inverse of `Split`. */
  function Join(parts: seq<string>, sep: char): string
    requires |parts| >= 1
  {
    if |parts| == 1 then parts[0] else parts[0] + [sep] + Join(parts[1..], sep)
  }

  /** Joining the pieces of a split gives the string back. */
  lemma {:induction false} SplitJoin(s: string, sep: char)
    ensures Join(Split(s, sep), sep) == s
  {
    if s != [] {
      var rest := Split(s[1..], sep);
      SplitJoin(s[1..], sep);
      if s[0] != sep && |rest| > 1 {
        assert Split(s, sep)[1..] == rest[1..];
        assert Join(rest, sep) == rest[0] + [sep] + Join(rest[1..], sep);
      }
    }
  }

  /** A string without the separator is a single piece. */
  lemma SplitNoSeparator(s: string, sep: char)
    requires sep !in s
    ensures Split(s, sep) == [s]
  {
    assert sep !in multiset(s);
    SplitPieces(s, sep);
    SplitJoin(s, sep);
  }

  /** The first character and the rest of a non-empty `a` followed by `m`. */
  lemma ConsAppend(a: string, m: string)
    requires a != []
    ensures (a + m)[0] == a[0] && (a + m)[1..] == a[1..] + m
  {
  }

  /** The first piece and the rest of `p + q`, for a non-empty `p`. */
  lemma PiecesAppend(p: seq<string>, q: seq<string>)
    requires p != []
    ensures (p + q)[0] == p[0] && (p + q)[1..] == p[1..] + q
  {
  }

  /** Splitting at a separator splits each side independently. */
  lemma {:induction false} SplitAtSeparator(a: string, b: string, sep: char)
    ensures Split(a + [sep] + b, sep) == Split(a, sep) + Split(b, sep)
  {
    var m := [sep] + b;
    assert a + [sep] + b == a + m;
    if a == [] {
      assert a + m == m && m[0] == sep && m[1..] == b;
    } else {
      ConsAppend(a, m);
      assert a[1..] + m == a[1..] + [sep] + b;
      SplitAtSeparator(a[1..], b, sep);
      var left, right := Split(a[1..], sep), Split(b, sep);
      if a[0] == sep {
        assert Split(a + m, sep) == [[]] + (left + right);
      } else {
        PiecesAppend(left, right);
        assert Split(a + m, sep) == [[a[0]] + left[0]] + (left[1..] + right);
      }
    }
  }

  /** A separator-free head becomes the first piece. */
  lemma SplitAfterPiece(w: string, rest: string, sep: char)
    requires sep !in w
    ensures Split(w + [sep] + rest, sep) == [w] + Split(rest, sep)
  {
    SplitNoSeparator(w, sep);
    SplitAtSeparator(w, rest, sep);
  }

  /** The two pieces of `x:y`, for pieces without the separator. */
  lemma SplitTwo(x: string, y: string, sep: char)
    requires sep !in x && sep !in y
    ensures Split(x + [sep] + y, sep) == [x, y]
  {
    SplitNoSeparator(y, sep);
    SplitAfterPiece(x, y, sep);
  }

  /** The four pieces of `w:x:y:z`, for pieces without the separator. */
  lemma SplitFour(w: string, x: string, y: string, z: string, sep: char)
    requires sep !in w && sep !in x && sep !in y && sep !in z
    ensures Split(w + [sep] + x + [sep] + y + [sep] + z, sep) == [w, x, y, z]
  {
    var yz := y + [sep] + z;
    var xyz := x + [sep] + yz;
    SplitTwo(y, z, sep);
    SplitAfterPiece(x, yz, sep);
    SplitAfterPiece(w, xyz, sep);
    assert w + [sep] + x + [sep] + y + [sep] + z == w + [sep] + xyz;
  }

  /** `s.split(sep)[-1]`, the piece after the last separator. */
  function LastPiece(s: string, sep: char): string {
    var parts := Split(s, sep);
    parts[|parts| - 1]
  }

  /** The position of the last separator in `s`, or -1 when there is none. */
  function LastSeparator(s: string, sep: char): (i: int)
    ensures -1 <= i < |s|
    ensures i >= 0 ==> s[i] == sep
    ensures forall j :: i < j < |s| ==> s[j] != sep
  {
    if s == [] then -1
    else if s[|s| - 1] == sep then |s| - 1
    else LastSeparator(s[..|s| - 1], sep)
  }

  /** The last piece is a suffix of `s` without the separator, and a separator stands right before it. */
  lemma LastPieceIsSuffix(s: string, sep: char)
    ensures sep !in LastPiece(s, sep)
    ensures |LastPiece(s, sep)| <= |s| && LastPiece(s, sep) == s[|s| - |LastPiece(s, sep)|..]
    ensures |LastPiece(s, sep)| < |s| ==> s[|s| - |LastPiece(s, sep)| - 1] == sep
  {
    var i := LastSeparator(s, sep);
    if i < 0 {
      SplitNoSeparator(s, sep);
      assert s[0..] == s;
    } else {
      var head, tail := s[..i], s[i + 1..];
      assert s == head + [sep] + tail;
      assert sep !in tail by {
        assert forall j :: 0 <= j < |tail| ==> tail[j] == s[i + 1 + j];
      }
      LastPieceAfterSeparator(head, tail, sep);
    }
  }

  /** The last piece of `a + sep + b`, for `b` without the separator, is `b`. */
  lemma LastPieceAfterSeparator(a: string, b: string, sep: char)
    requires sep !in b
    ensures LastPiece(a + [sep] + b, sep) == b
  {
    SplitPieces(a, sep);
    SplitAtSeparator(a, b, sep);
    SplitNoSeparator(b, sep);
  }
}
