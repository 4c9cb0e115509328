/**
  The launcher's update check (`VersionChecker` in `src/version.py`): the comparison
  of two version strings such as `v1.2.3`, `1.2.3测试版` and `1.2.3 测试版4`, and the
  `has_update` flag derived from it.

  The two regular expressions of `compare_versions` are written out as the strings
  they accept: `\d` is an ASCII digit, `\s` a character for which `str.isspace()`
  holds, `.` any character but a line feed, and `$` matches at the end or just before
  a final line feed.
 */
module Version {
  import opened Wrappers
  import opened Strings
  import opened Numerals

  /** "测试版" ("beta"). */
  const Beta: string := "\U{6d4b}\U{8bd5}\U{7248}"

  /** `s.replace("v", "")`. */
  function RemoveV(s: string): (r: string)
    ensures 'v' !in r
    ensures |r| <= |s|
    ensures 'v' !in s ==> r == s
  {
    if s == [] then [] else (if s[0] == 'v' then [] else [s[0]]) + RemoveV(s[1..])
  }

  /** Nothing is added: the result holds the input's characters other than `v`, each
      as often as the input. */
  lemma {:induction false} RemoveVCounts(s: string)
    ensures multiset(RemoveV(s)) == multiset(s)['v' := 0]
  {
    if s != [] {
      assert s == [s[0]] + s[1..];
      RemoveVCounts(s[1..]);
    }
  }

  /** The removal works piecewise, so the characters other than `v` keep their order. */
  lemma {:induction false} RemoveVAppend(a: string, b: string)
    ensures RemoveV(a + b) == RemoveV(a) + RemoveV(b)
  {
    if a == [] {
      assert a + b == b;
    } else {
      var h := if a[0] == 'v' then [] else [a[0]];
      var ab := a + b;
      assert ab[0] == a[0] && ab[1..] == a[1..] + b;
      RemoveVAppend(a[1..], b);
      assert RemoveV(ab) == h + (RemoveV(a[1..]) + RemoveV(b));
    }
  }

  /** The number of leading digits. */
  function DigitRun(s: string): (k: nat)
    ensures k <= |s|
    ensures forall i :: 0 <= i < k ==> IsDigit(s[i])
    ensures k < |s| ==> !IsDigit(s[k])
  {
    if s != [] && IsDigit(s[0]) then 1 + DigitRun(s[1..]) else 0
  }

  /** The number of leading white-space characters: what `\s*` consumes. */
  function SpaceRun(s: string): (k: nat)
    ensures k <= |s|
    ensures forall i :: 0 <= i < k ==> IsSpace(s[i])
    ensures k < |s| ==> !IsSpace(s[k])
  {
    if s != [] && IsSpace(s[0]) then 1 + SpaceRun(s[1..]) else 0
  }

  /** What follows the leading white space. */
  function Rest(s: string): string { s[SpaceRun(s)..] }

  /** The strings `\d+(?:\.\d+)*` accepts. */
  predicate IsMain(s: string)
    decreases |s|
  {
    var k := DigitRun(s);
    k > 0 && (k == |s| || (s[k] == '.' && IsMain(s[k + 1..])))
  }

  /** The length of the longest prefix `\d+(?:\.\d+)*` accepts, for `s` starting with a
      digit: the match is greedy, so no longer prefix of `s` is accepted. */
  function MainLen(s: string): (n: nat)
    requires s != [] && IsDigit(s[0])
    ensures 0 < n <= |s|
    ensures IsMain(s[..n])
    ensures Longest(s, n)
    decreases |s|
  {
    var k := DigitRun(s);
    if k + 1 < |s| && s[k] == '.' && IsDigit(s[k + 1]) then
      var r := MainLen(s[k + 1..]);
      DotStep(s, k, r);
      k + 1 + r
    else
      RunStep(s, k);
      k
  }

  /** No prefix of `s` longer than `n` is accepted. */
  predicate Longest(s: string, n: nat) {
    forall m :: n < m <= |s| ==> !IsMain(s[..m])
  }

  /** The digits, a dot and the longest match of the rest are the longest match. */
  lemma DotStep(s: string, k: nat, r: nat)
    requires k == DigitRun(s) && 0 < k && k + 1 < |s| && s[k] == '.'
    requires 0 < r <= |s| - k - 1 && IsMain(s[k + 1..][..r]) && Longest(s[k + 1..], r)
    ensures IsMain(s[..k + 1 + r]) && Longest(s, k + 1 + r)
  {
    var n := k + 1 + r;
    assert s[..n][k + 1..] == s[k + 1..][..r];
    DigitRunOfPrefix(s, n, k);
    forall m | n < m <= |s| ensures !IsMain(s[..m]) { PastDot(s, m, k); }
  }

  /** The digits alone are the longest match when no dot and digit follow them. */
  lemma RunStep(s: string, k: nat)
    requires k == DigitRun(s) && 0 < k
    requires !(k + 1 < |s| && s[k] == '.' && IsDigit(s[k + 1]))
    ensures IsMain(s[..k]) && Longest(s, k)
  {
    DigitRunOfPrefix(s, k, k);
    forall m | k < m <= |s| ensures !IsMain(s[..m]) { StopsAfterRun(s, m, k); }
  }

  /** A prefix that runs past the digits and a dot matches only if its rest does. */
  lemma PastDot(s: string, m: nat, k: nat)
    requires k == DigitRun(s) && k + 1 < m <= |s|
    requires !IsMain(s[k + 1..][..m - k - 1])
    ensures !IsMain(s[..m])
  {
    DigitRunOfPrefix(s, m, k);
    assert s[..m][k + 1..] == s[k + 1..][..m - k - 1];
  }

  /** Without a dot and a digit after the digits, no longer prefix matches. */
  lemma StopsAfterRun(s: string, m: nat, k: nat)
    requires k == DigitRun(s) && k < m <= |s|
    requires !(k + 1 < |s| && s[k] == '.' && IsDigit(s[k + 1]))
    ensures !IsMain(s[..m])
  {
    DigitRunOfPrefix(s, m, k);
    var t := s[..m][k + 1..];
    if s[k] == '.' && k + 1 < m {
      assert t[0] == s[k + 1];
      assert DigitRun(t) == 0;
    }
  }

  /** A prefix that keeps the leading digits and the character after them has the same digit run. */
  lemma {:induction false} DigitRunOfPrefix(s: string, n: nat, k: nat)
    requires k == DigitRun(s) && k <= n <= |s|
    requires k < n || n == |s| || k == n
    ensures DigitRun(s[..n]) == k
  {
    if k > 0 {
      assert s[..n][1..] == s[1..][..n - 1];
      DigitRunOfPrefix(s[1..], n - 1, k - 1);
    }
  }

  /** Neither a line feed anywhere, nor a line feed anywhere but at the very end. */
  predicate LineEnd(r: string) {
    '\n' !in r || ('\n' !in r[..|r| - 1] && r[|r| - 1] == '\n')
  }

  /** What `.*$` captures of a string it matches. */
  function DropFinalNewline(r: string): (t: string)
    requires LineEnd(r)
    ensures '\n' !in t
    ensures r == t || r == t + "\n"
  {
    if r != [] && r[|r| - 1] == '\n' then r[..|r| - 1] else r
  }

  /** A version split by `^(\d+(?:\.\d+)*)\s*(.*)$` into its main part and suffix. */
  datatype Split = Split(main: string, suffix: string)

  /** The match's two groups, or the whole string and no suffix when it does not match. */
  function SplitVersion(clean: string): (r: Split)
    ensures r.suffix == "" || IsMain(r.main)
    ensures IsMain(r.main) || r.main == clean
    ensures '\n' !in r.suffix
  {
    if clean != [] && IsDigit(clean[0]) then
      var m := MainLen(clean);
      var rest := Rest(clean[m..]);
      if LineEnd(rest) then Split(clean[..m], DropFinalNewline(rest)) else Split(clean, "")
    else Split(clean, "")
  }

  /** When the pattern matches, the string is the main part, white space, the suffix
      and possibly a final line feed. */
  lemma SplitVersionMatches(clean: string)
    requires clean != [] && IsDigit(clean[0]) && LineEnd(Rest(clean[MainLen(clean)..]))
    ensures var r := SplitVersion(clean);
      IsMain(r.main) && StartsWith(clean, r.main) && Longest(clean, |r.main|) &&
      (r.suffix == [] || !IsSpace(r.suffix[0])) &&
      exists w :: AllSpace(w) && (clean == r.main + w + r.suffix || clean == r.main + w + r.suffix + "\n")
  {
    var m := MainLen(clean);
    var after := clean[m..];
    var k := SpaceRun(after);
    var rest := after[k..];
    var w := after[..k];
    Cut(after, k);
    Cut(clean, m);
    var suffix := DropFinalNewline(rest);
    var r := SplitVersion(clean);
    assert r == Split(clean[..m], suffix);
    SuffixPastSpace(after);
    assert AllSpace(w);
    Glue(clean, r.main, after, w, rest, suffix);
  }

  /** The captured suffix starts after the whole white-space run. */
  lemma SuffixPastSpace(after: string)
    requires LineEnd(Rest(after))
    ensures var t := DropFinalNewline(Rest(after)); t == [] || !IsSpace(t[0])
  {
    var k := SpaceRun(after);
    var t := DropFinalNewline(Rest(after));
    if t != [] {
      assert t[0] == after[k];
    }
  }

  /** When no prefix the pattern accepts is followed by white space and a line, the
      pattern does not match and the string is kept whole with no suffix. */
  lemma SplitRejected(clean: string)
    requires forall n :: 0 < n <= |clean| && IsMain(clean[..n]) ==> !LineEnd(Rest(clean[n..]))
    ensures SplitVersion(clean) == Split(clean, "")
  {
    if clean != [] && IsDigit(clean[0]) {
      var m := MainLen(clean);
      assert IsMain(clean[..m]);
    }
  }

  /** Helpers for concatenations. */
  lemma Assoc(a: string, b: string, c: string)
    ensures a + b + c == a + (b + c)
  {
  }

  lemma Cut(s: string, k: nat)
    requires k <= |s|
    ensures s == s[..k] + s[k..]
  {
  }

  lemma Glue(clean: string, main: string, after: string, w: string, rest: string, suffix: string)
    requires clean == main + after && after == w + rest
    requires rest == suffix || rest == suffix + "\n"
    ensures clean == main + w + suffix || clean == main + w + suffix + "\n"
  {
    if rest == suffix {
      assert clean == main + w + suffix;
    } else {
      assert clean == main + w + suffix + "\n";
    }
  }

  predicate AllSpace(w: string) { forall i :: 0 <= i < |w| ==> IsSpace(w[i]) }

  /** `[int(x) for x in main.split(".") if x.isdigit()]`. */
  function Nums(parts: seq<string>): seq<nat> {
    if parts == [] then []
    else (if AllDigits(parts[0]) then [DigitsValue(parts[0])] else []) + Nums(parts[1..])
  }

  function NumsOf(main: string): seq<nat> { Nums(Strings.Split(main, '.')) }

  /** The component-wise comparison loop: a missing component counts as 0; -1, 0 or 1. */
  function CompareNums(a: seq<nat>, b: seq<nat>): (r: int)
    ensures r == -1 || r == 0 || r == 1
    decreases |a| + |b|
  {
    if a == [] && b == [] then 0
    else
      var x := if a == [] then 0 else a[0];
      var y := if b == [] then 0 else b[0];
      if x > y then 1
      else if x < y then -1
      else CompareNums(if a == [] then [] else a[1..], if b == [] then [] else b[1..])
  }

  /** Python's `<` on two strings: code point by code point, a proper prefix first. */
  function LexCompare(a: string, b: string): (r: int)
    ensures r == -1 || r == 0 || r == 1
  {
    if a == [] && b == [] then 0
    else if a == [] then -1
    else if b == [] then 1
    else if a[0] < b[0] then -1
    else if a[0] > b[0] then 1
    else LexCompare(a[1..], b[1..])
  }

  /** The number group of `^测试版\s*(\d*)$`, or `None` when the suffix does not match. */
  function BetaNumber(suffix: string): (r: Option<string>)
    ensures r.Some? ==> StartsWith(suffix, Beta) && forall i :: 0 <= i < |r.value| ==> IsDigit(r.value[i])
  {
    if StartsWith(suffix, Beta) then
      var rest := Rest(suffix[|Beta|..]);
      var d := DigitRun(rest);
      if d == |rest| || (d == |rest| - 1 && rest[d] == '\n') then Some(rest[..d]) else None
    else None
  }

  function Sign(x: int, y: int): int {
    if x > y then 1 else if x < y then -1 else 0
  }

  /** The suffix ranking: none is newest; two betas by number, a numbered one beating
      an unnumbered one; any other pair by string order. */
  function CompareSuffixes(a: string, b: string): (r: int)
    ensures r == -1 || r == 0 || r == 1
    ensures a != "" && b == "" ==> r == -1
    ensures a == "" && b != "" ==> r == 1
  {
    if a != "" && b == "" then -1
    else if a == "" && b != "" then 1
    else if a == "" && b == "" then 0
    else
      var x := BetaNumber(a);
      var y := BetaNumber(b);
      if x.Some? && y.Some? then
        if x.value != "" && y.value != "" then Sign(DigitsValue(x.value), DigitsValue(y.value))
        else if x.value != "" then 1
        else if y.value != "" then -1
        else 0
      else LexCompare(a, b)
  }

  /** `compare_versions`: 1 when `local` is newer, -1 when `remote` is, 0 otherwise. */
  function CompareVersions(local: string, remote: string): (r: int)
    ensures r == -1 || r == 0 || r == 1
  {
    var l := SplitVersion(RemoveV(local));
    var m := SplitVersion(RemoveV(remote));
    var numeric := if l.main != m.main then CompareNums(NumsOf(l.main), NumsOf(m.main)) else 0;
    if numeric != 0 then numeric else CompareSuffixes(l.suffix, m.suffix)
  }

  /** What `check_for_updates` reports. */
  datatype UpdateStatus = UpdateStatus(
    hasError: bool, errorMessage: Option<string>,
    currentVersion: string, latestVersion: Option<string>, hasUpdate: bool)

  /** `check_for_updates`, given what the release lookup returned. */
  function CheckForUpdates(current: string, latest: Option<string>): (s: UpdateStatus)
    ensures s.hasError <==> latest.None?
    ensures s.hasUpdate <==> latest.Some? && CompareVersions(current, latest.value) < 0
    ensures s.currentVersion == current && s.latestVersion == latest
  {
    if latest.None? then UpdateStatus(true, Some("无法获取最新版本信息"), current, None, false)
    else UpdateStatus(false, None, current, latest, CompareVersions(current, latest.value) < 0)
  }

  lemma {:induction false} LexReflexive(a: string)
    ensures LexCompare(a, a) == 0
  {
    if a != [] {
      LexReflexive(a[1..]);
    }
  }

  lemma {:induction false} LexAntisymmetric(a: string, b: string)
    ensures LexCompare(a, b) == -LexCompare(b, a)
  {
    if a != [] && b != [] && a[0] == b[0] {
      LexAntisymmetric(a[1..], b[1..]);
    }
  }

  lemma {:induction false} NumsAntisymmetric(a: seq<nat>, b: seq<nat>)
    ensures CompareNums(a, b) == -CompareNums(b, a)
    decreases |a| + |b|
  {
    if a != [] || b != [] {
      NumsAntisymmetric(if a == [] then [] else a[1..], if b == [] then [] else b[1..]);
    }
  }

  /** Trailing zero components change nothing: `1.0` and `1.0.0` tie on their numbers. */
  lemma {:induction false} TrailingZerosTie(a: seq<nat>, zeros: seq<nat>)
    requires forall i :: 0 <= i < |zeros| ==> zeros[i] == 0
    ensures CompareNums(a, a + zeros) == 0
    decreases |a| + |zeros|
  {
    if a != [] {
      assert (a + zeros)[1..] == a[1..] + zeros;
      TrailingZerosTie(a[1..], zeros);
    } else if zeros != [] {
      assert (a + zeros)[1..] == [] + zeros[1..];
      TrailingZerosTie([], zeros[1..]);
    }
  }

  lemma SuffixesAntisymmetric(a: string, b: string)
    ensures CompareSuffixes(a, b) == -CompareSuffixes(b, a)
  {
    if a != "" && b != "" {
      var x := BetaNumber(a);
      var y := BetaNumber(b);
      if !(x.Some? && y.Some?) {
        assert CompareSuffixes(a, b) == LexCompare(a, b);
        assert CompareSuffixes(b, a) == LexCompare(b, a);
        LexAntisymmetric(a, b);
      }
    }
  }

  /** A version is as new as itself. */
  lemma CompareReflexive(v: string)
    ensures CompareVersions(v, v) == 0
  {
    var s := SplitVersion(RemoveV(v)).suffix;
    LexReflexive(s);
  }

  /** Swapping the arguments negates the result. */
  lemma CompareAntisymmetric(a: string, b: string)
    ensures CompareVersions(a, b) == -CompareVersions(b, a)
  {
    var l := SplitVersion(RemoveV(a));
    var m := SplitVersion(RemoveV(b));
    NumsAntisymmetric(NumsOf(l.main), NumsOf(m.main));
    SuffixesAntisymmetric(l.suffix, m.suffix);
  }

  /** `CompareVersions` once both strings are known to split into the given parts. */
  lemma CompareOfSplits(a: string, b: string, sa: Split, sb: Split)
    requires SplitVersion(RemoveV(a)) == sa && SplitVersion(RemoveV(b)) == sb
    requires sa.main == sb.main
    ensures CompareVersions(a, b) == CompareSuffixes(sa.suffix, sb.suffix)
  {
  }

  /** The split of a main part followed by the beta suffix and digits. */
  lemma SplitOfBeta(main: string, n: string, x: string)
    requires IsMain(main) && 'v' !in main
    requires forall i :: 0 <= i < |n| ==> IsDigit(n[i])
    requires x == main + Beta + n
    ensures SplitVersion(RemoveV(x)) == Split(main, Beta + n)
  {
    NoVInBeta(main, n);
    BetaTail(n);
    Assoc(main, Beta, n);
    SplitOfClean(x, main, Beta + n);
  }

  /** The split of a string without `v` that is a main part followed by a suffix. */
  lemma SplitOfClean(x: string, main: string, t: string)
    requires x == main + t && RemoveV(x) == x
    requires IsMain(main)
    requires t != [] && '\n' !in t && !IsDigit(t[0]) && t[0] != '.' && !IsSpace(t[0])
    ensures SplitVersion(RemoveV(x)) == Split(main, t)
  {
    MainOfSuffixed(main, t);
  }

  /** The beta suffix followed by digits starts with neither a digit, a dot nor white
      space, and holds no line feed. */
  lemma BetaTail(n: string)
    requires forall i :: 0 <= i < |n| ==> IsDigit(n[i])
    ensures var t := Beta + n; !IsDigit(t[0]) && t[0] != '.' && !IsSpace(t[0]) && '\n' !in t
  {
    var t := Beta + n;
    assert t[0] == '\U{6d4b}';
    forall i | 0 <= i < |t| ensures t[i] != '\n' {
      if i >= |Beta| {
        assert t[i] == n[i - |Beta|];
      }
    }
  }

  /** The split of a bare main part. */
  lemma SplitOfMain(main: string)
    requires IsMain(main) && 'v' !in main
    ensures SplitVersion(RemoveV(main)) == Split(main, "")
  {
    assert main + "" == main;
    MainOfSuffixed(main, "");
  }

  lemma {:induction false} NumsReflexive(a: seq<nat>)
    ensures CompareNums(a, a) == 0
    decreases |a|
  {
    if a != [] {
      NumsReflexive(a[1..]);
    }
  }

  /** Two releases (no suffix) compare by their numeric components alone, so `1.10` is
      newer than `1.9` and `1.0` ties with `1.0.0`. */
  lemma ReleasesByNumbers(a: string, b: string)
    requires IsMain(a) && 'v' !in a
    requires IsMain(b) && 'v' !in b
    ensures CompareVersions(a, b) == CompareNums(NumsOf(a), NumsOf(b))
  {
    SplitOfMain(a);
    SplitOfMain(b);
    NumsReflexive(NumsOf(a));
  }

  /** With the same main part, a release is newer than any of its betas. */
  lemma ReleaseBeatsBeta(main: string, n: string)
    requires IsMain(main) && 'v' !in main
    requires forall i :: 0 <= i < |n| ==> IsDigit(n[i])
    ensures CompareVersions(main, main + Beta + n) == 1
  {
    SplitOfMain(main);
    SplitOfBeta(main, n, main + Beta + n);
    CompareOfSplits(main, main + Beta + n, Split(main, ""), Split(main, Beta + n));
  }

  /** Two numbered betas of the same main part compare by their numbers. */
  lemma BetasByNumber(main: string, n1: string, n2: string)
    requires IsMain(main) && 'v' !in main
    requires AllDigits(n1) && AllDigits(n2)
    ensures CompareVersions(main + Beta + n1, main + Beta + n2) == Sign(DigitsValue(n1), DigitsValue(n2))
  {
    SplitOfBeta(main, n1, main + Beta + n1);
    SplitOfBeta(main, n2, main + Beta + n2);
    CompareOfSplits(main + Beta + n1, main + Beta + n2, Split(main, Beta + n1), Split(main, Beta + n2));
    BetaNumberOf(n1);
    BetaNumberOf(n2);
  }

  /** A numbered beta is newer than the unnumbered beta of the same main part. */
  lemma NumberedBetaBeatsPlain(main: string, n: string)
    requires IsMain(main) && 'v' !in main
    requires AllDigits(n)
    ensures CompareVersions(main + Beta + n, main + Beta) == 1
  {
    SplitOfBeta(main, n, main + Beta + n);
    SplitOfBeta(main, "", main + Beta);
    assert Beta + "" == Beta;
    CompareOfSplits(main + Beta + n, main + Beta, Split(main, Beta + n), Split(main, Beta));
    NumberedSuffixFirst(n);
  }

  lemma NumberedSuffixFirst(n: string)
    requires AllDigits(n)
    ensures CompareSuffixes(Beta + n, Beta) == 1
  {
    BetaNumberOf(n);
    BetaNumberOf("");
    assert Beta + "" == Beta;
  }

  lemma NoVInBeta(main: string, n: string)
    requires 'v' !in main
    requires forall i :: 0 <= i < |n| ==> IsDigit(n[i])
    ensures RemoveV(main + Beta + n) == main + Beta + n
  {
    assert 'v' !in Beta;
  }

  /** The beta suffix followed by digits yields those digits. */
  lemma BetaNumberOf(n: string)
    requires forall i :: 0 <= i < |n| ==> IsDigit(n[i])
    ensures BetaNumber(Beta + n) == Some(n)
  {
    var s := Beta + n;
    assert s[..|Beta|] == Beta;
    assert s[|Beta|..] == n;
    assert SpaceRun(n) == 0 by { DigitsNotSpace(n); }
    DigitRunAll(n);
    assert n[..|n|] == n;
  }

  lemma DigitsNotSpace(n: string)
    requires forall i :: 0 <= i < |n| ==> IsDigit(n[i])
    ensures SpaceRun(n) == 0
  {
    if n != [] {
      assert IsDigit(n[0]);
      assert !IsSpace(n[0]);
    }
  }

  lemma {:induction false} DigitRunAll(n: string)
    requires forall i :: 0 <= i < |n| ==> IsDigit(n[i])
    ensures DigitRun(n) == |n|
  {
    if n != [] {
      DigitRunAll(n[1..]);
    }
  }

  /** A main part followed by a suffix that starts with neither a digit, a dot nor
      white space splits back into the two. */
  lemma MainOfSuffixed(main: string, suffix: string)
    requires IsMain(main)
    requires '\n' !in suffix
    requires suffix == "" || (!IsDigit(suffix[0]) && suffix[0] != '.' && !IsSpace(suffix[0]))
    ensures SplitVersion(main + suffix) == Split(main, suffix)
  {
    var clean := main + suffix;
    assert clean[..|main|] == main;
    MainLenOf(main, suffix);
    assert clean[|main|..] == suffix;
    assert Rest(suffix) == suffix by { assert SpaceRun(suffix) == 0; }
    assert DropFinalNewline(suffix) == suffix;
  }

  /** The greedy main part of `main + suffix` is `main`, under the conditions above. */
  lemma {:induction false} MainLenOf(main: string, suffix: string)
    requires IsMain(main)
    requires suffix == "" || (!IsDigit(suffix[0]) && suffix[0] != '.')
    ensures main + suffix != [] && IsDigit((main + suffix)[0])
    ensures MainLen(main + suffix) == |main|
    decreases |main|
  {
    var s := main + suffix;
    var k := DigitRun(main);
    DigitRunOfConcat(main, suffix, k);
    assert DigitRun(s) == k;
    if k < |main| {
      var tail := main[k + 1..];
      assert s[k + 1..] == tail + suffix;
      assert IsDigit(tail[0]);
      MainLenOf(tail, suffix);
    }
  }

  /** The digit run of `main` is the digit run of `main + suffix` when the suffix, or the
      character ending the run, stops it. */
  lemma {:induction false} DigitRunOfConcat(main: string, suffix: string, k: nat)
    requires k == DigitRun(main)
    requires k < |main| || suffix == [] || !IsDigit(suffix[0])
    ensures DigitRun(main + suffix) == k
  {
    if k > 0 {
      assert (main + suffix)[1..] == main[1..] + suffix;
      DigitRunOfConcat(main[1..], suffix, k - 1);
    } else if main == [] {
      assert main + suffix == suffix;
    }
  }
}
