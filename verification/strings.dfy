/**
  String helpers shared by the model: the handful of Python `str` operations the
  launcher relies on (`startswith`, `endswith`, `in`, `split`, `join`, `replace`
  of one character, `strip`), written over `seq<char>`.
 */
module Strings {

  predicate StartsWith(s: string, prefix: string) {
    |prefix| <= |s| && s[..|prefix|] == prefix
  }

  predicate EndsWith(s: string, suffix: string) {
    |suffix| <= |s| && s[|s| - |suffix|..] == suffix
  }

  /** Python's `t in s` for two strings. */
  predicate Contains(s: string, t: string) {
    exists i | 0 <= i <= |s| - |t| :: OccursAt(s, t, i)
  }

  predicate OccursAt(s: string, t: string, i: int) {
    0 <= i <= |s| - |t| && s[i..i + |t|] == t
  }

  /** `sep.join(parts)` for a one-character separator. */
  function Join(parts: seq<string>, sep: char): string {
    if |parts| == 0 then ""
    else if |parts| == 1 then parts[0]
    else parts[0] + [sep] + Join(parts[1..], sep)
  }

  /** `s.split(sep)` for a one-character separator: never empty, `"".split(c) == [""]`. */
  function Split(s: string, sep: char): (r: seq<string>)
    ensures |r| >= 1
  {
    if s == [] then [""]
    else
      var rest := Split(s[1..], sep);
      if s[0] == sep then [""] + rest
      else [[s[0]] + rest[0]] + rest[1..]
  }

  /** `s.replace(a, b)` for single characters. */
  function ReplaceChar(s: string, a: char, b: char): (r: string)
    ensures |r| == |s|
    ensures forall i :: 0 <= i < |s| ==> r[i] == (if s[i] == a then b else s[i])
  {
    if s == [] then [] else [if s[0] == a then b else s[0]] + ReplaceChar(s[1..], a, b)
  }

  /** The characters Python's `str.isspace()` (and so `str.strip()` and `\s`) accept. */
  predicate IsSpace(c: char) {
    || c == ' ' || '\t' <= c <= '\r' || '\U{1c}' <= c <= '\U{1f}'
    || c == '\U{85}' || c == '\U{a0}' || c == '\U{1680}' || '\U{2000}' <= c <= '\U{200a}'
    || c == '\U{2028}' || c == '\U{2029}' || c == '\U{202f}' || c == '\U{205f}' || c == '\U{3000}'
  }

  /** `s.lstrip()`: exactly the leading white space is removed. */
  function LStrip(s: string): (r: string)
    ensures |r| <= |s| && r == s[|s| - |r|..]
    ensures forall i :: 0 <= i < |s| - |r| ==> IsSpace(s[i])
    ensures r != [] ==> !IsSpace(r[0])
  {
    if |s| > 0 && IsSpace(s[0]) then LStrip(s[1..]) else s
  }

  /** `s.rstrip()`: exactly the trailing white space is removed; `RStripChar` below
      strips one given character instead. */
  function RStrip(s: string): (r: string)
    ensures |r| <= |s| && r == s[..|r|]
    ensures forall i :: |r| <= i < |s| ==> IsSpace(s[i])
    ensures r != [] ==> !IsSpace(r[|r| - 1])
  {
    if |s| > 0 && IsSpace(s[|s| - 1]) then RStrip(s[..|s| - 1]) else s
  }

  /** `s.strip()`: no surrounding white space is left, and what is left is a slice of `s`. */
  function Strip(s: string): (r: string)
    ensures r != [] ==> !IsSpace(r[0]) && !IsSpace(r[|r| - 1])
    ensures exists i, j :: 0 <= i <= j <= |s| && r == s[i..j]
  {
    var l := LStrip(s);
    var r := RStrip(l);
    assert r == s[|s| - |l|..|s| - |l| + |r|];
    r
  }

  /** `strip` removes white space only: everything of `s` around the result is white
      space. */
  lemma StripRemovesSpace(s: string)
    ensures exists i, j :: 0 <= i <= j <= |s| && Strip(s) == s[i..j] && Surrounding(s, i, j)
  {
    var l := LStrip(s);
    var r := RStrip(l);
    var i := |s| - |l|;
    assert r == s[i..i + |r|];
    assert forall k :: i + |r| <= k < |s| ==> s[k] == l[k - i];
    assert Surrounding(s, i, i + |r|);
  }

  /** Stripping white space around a text that neither starts nor ends with white
      space gives that text back. */
  lemma StripSurrounded(w1: string, x: string, w2: string)
    requires x != [] && !IsSpace(x[0]) && !IsSpace(x[|x| - 1])
    requires forall k :: 0 <= k < |w1| ==> IsSpace(w1[k])
    requires forall k :: 0 <= k < |w2| ==> IsSpace(w2[k])
    ensures Strip(w1 + x + w2) == x
  {
    assert w1 + x + w2 == w1 + (x + w2);
    LStripLeading(w1, x + w2);
    RStripTrailing(x, w2);
  }

  lemma LStripLeading(w: string, y: string)
    requires y != [] && !IsSpace(y[0])
    requires forall k :: 0 <= k < |w| ==> IsSpace(w[k])
    ensures LStrip(w + y) == y
  {
    var s := w + y;
    var l := LStrip(s);
    assert s[|w|] == y[0];
    assert forall k :: 0 <= k < |w| ==> s[k] == w[k];
    assert |s| - |l| == |w|;
  }

  lemma RStripTrailing(x: string, w: string)
    requires x != [] && !IsSpace(x[|x| - 1])
    requires forall k :: 0 <= k < |w| ==> IsSpace(w[k])
    ensures RStrip(x + w) == x
  {
    var s := x + w;
    var r := RStrip(s);
    assert s[|x| - 1] == x[|x| - 1];
    assert forall k :: |x| <= k < |s| ==> s[k] == w[k - |x|];
    assert |r| == |x|;
  }

  /** Everything of `s` outside `s[i..j]` is white space. */
  predicate Surrounding(s: string, i: int, j: int)
    requires 0 <= i <= j <= |s|
  {
    (forall k :: 0 <= k < i ==> IsSpace(s[k])) && (forall k :: j <= k < |s| ==> IsSpace(s[k]))
  }

  /** `s.rstrip(c)` for one character `c`. */
  function RStripChar(s: string, c: char): (r: string)
    ensures |r| <= |s| && r == s[..|r|]
    ensures r != [] ==> r[|r| - 1] != c
    ensures forall i :: |r| <= i < |s| ==> s[i] == c
  {
    if |s| > 0 && s[|s| - 1] == c then RStripChar(s[..|s| - 1], c) else s
  }

  /** `os.path.join(a, b)` with POSIX paths: an absolute `b` replaces `a`. */
  function PosixJoin(a: string, b: string): string {
    if StartsWith(b, "/") then b
    else if a == "" || EndsWith(a, "/") then a + b
    else a + "/" + b
  }

  /** Splitting at a separator and joining again gives the string back. */
  lemma {:induction false} JoinOfSplit(s: string, sep: char)
    ensures Join(Split(s, sep), sep) == s
  {
    if s != [] {
      var rest := Split(s[1..], sep);
      JoinOfSplit(s[1..], sep);
      if s[0] == sep {
        assert Split(s, sep) == [""] + rest;
        assert ([""] + rest)[1..] == rest;
      } else {
        var r := [[s[0]] + rest[0]] + rest[1..];
        assert Split(s, sep) == r;
        if |rest| == 1 {
          assert Join(r, sep) == [s[0]] + rest[0];
        } else {
          assert r[1..] == rest[1..];
          assert Join(rest, sep) == rest[0] + [sep] + Join(rest[1..], sep);
        }
      }
    }
  }

  /** Splitting a string free of the separator gives that string alone. */
  lemma {:induction false} SplitNoSep(x: string, sep: char)
    requires sep !in x
    ensures Split(x, sep) == [x]
  {
    if x != [] {
      SplitNoSep(x[1..], sep);
      assert [x[0]] + x[1..] == x;
    }
  }

  /** Splitting `x + sep + y`, where `x` holds no separator, peels `x` off. */
  lemma {:induction false} SplitAfterPart(x: string, y: string, sep: char)
    requires sep !in x
    ensures Split(x + [sep] + y, sep) == [x] + Split(y, sep)
  {
    if x == [] {
      assert x + [sep] + y == [sep] + y;
      assert ([sep] + y)[1..] == y;
    } else {
      var s := x + [sep] + y;
      assert s[1..] == x[1..] + [sep] + y;
      SplitAfterPart(x[1..], y, sep);
      assert [x[0]] + x[1..] == x;
    }
  }

  /** Splitting `a + sep + b + sep + c` gives the three parts when none holds `sep`. */
  lemma SplitThree(a: string, b: string, c: string, sep: char)
    requires sep !in a && sep !in b && sep !in c
    ensures Split(a + [sep] + b + [sep] + c, sep) == [a, b, c]
  {
    SplitNoSep(c, sep);
    SplitAfterPart(b, c, sep);
    SplitAfterPart(a, b + [sep] + c, sep);
    assert a + [sep] + b + [sep] + c == a + [sep] + (b + [sep] + c);
  }

  /** Joining parts free of the separator and splitting again gives the parts back. */
  lemma {:induction false} SplitOfJoin(parts: seq<string>, sep: char)
    requires |parts| >= 1
    requires forall i :: 0 <= i < |parts| ==> sep !in parts[i]
    ensures Split(Join(parts, sep), sep) == parts
  {
    if |parts| == 1 {
      SplitNoSep(parts[0], sep);
    } else {
      SplitOfJoin(parts[1..], sep);
      SplitAfterPart(parts[0], Join(parts[1..], sep), sep);
      assert [parts[0]] + parts[1..] == parts;
    }
  }

  /** Joining with either host separator and turning back-slashes into slashes gives the
      slash-joined path, when no part holds a back-slash. */
  lemma {:induction false} NormalisedJoin(parts: seq<string>, sep: char)
    requires sep == '/' || sep == '\\'
    requires forall i :: 0 <= i < |parts| ==> '\\' !in parts[i]
    ensures ReplaceChar(Join(parts, sep), '\\', '/') == Join(parts, '/')
  {
    if |parts| == 1 {
      ReplaceAbsent(parts[0], '\\', '/');
    } else if |parts| > 1 {
      NormalisedJoin(parts[1..], sep);
      ReplaceAbsent(parts[0], '\\', '/');
      ReplaceAppend(parts[0] + [sep], Join(parts[1..], sep), '\\', '/');
      ReplaceAppend(parts[0], [sep], '\\', '/');
    }
  }

  /** Replacing a character by itself changes nothing. */
  lemma ReplaceSame(s: string, c: char)
    ensures ReplaceChar(s, c, c) == s
  {
    var r := ReplaceChar(s, c, c);
    assert forall i :: 0 <= i < |s| ==> r[i] == s[i];
  }

  /** `replace` works piecewise on a concatenation. */
  lemma ReplaceAppend(x: string, y: string, a: char, b: char)
    ensures ReplaceChar(x + y, a, b) == ReplaceChar(x, a, b) + ReplaceChar(y, a, b)
  {
    var xy := x + y;
    var l, rx, ry := ReplaceChar(xy, a, b), ReplaceChar(x, a, b), ReplaceChar(y, a, b);
    var r := rx + ry;
    assert |l| == |r|;
    forall i | 0 <= i < |l| ensures l[i] == r[i] {
      if i < |x| {
        assert xy[i] == x[i];
        assert r[i] == rx[i];
      } else {
        var k := i - |x|;
        assert xy[i] == y[k];
        assert r[i] == ry[k];
      }
    }
    assert l == r;
  }

  /** `replace` of a character that does not occur changes nothing. */
  lemma ReplaceAbsent(x: string, a: char, b: char)
    requires a !in x
    ensures ReplaceChar(x, a, b) == x
  {
    var r := ReplaceChar(x, a, b);
    forall i | 0 <= i < |x| ensures r[i] == x[i] {
      assert x[i] != a;
    }
  }

}
