/**
  The launcher's terminal pane (`src/ui.py`): splitting output text on SGR escape
  sequences (`ESC [ <digits and ;> m`, ECMA-48 section 8.3.117) into coloured spans,
  the clean-up of each log text in `AsyncTerminal.add_log`, the batch that moves
  queued texts into the pane, and the line written to the log file.

  The worker threads, timers and UI updates around these are left out: the pane's
  state is a class whose methods are called one at a time, with the clock passed in.
 */
module Terminal {
  import opened Wrappers
  import opened Strings

  const Esc: char := '\U{1b}'

  predicate IsParam(c: char) { '0' <= c <= '9' || c == ';' }

  /** The number of leading `[0-9;]` characters. */
  function ParamRun(s: string): (k: nat)
    ensures k <= |s|
    ensures forall i :: 0 <= i < k ==> IsParam(s[i])
    ensures k < |s| ==> !IsParam(s[k])
  {
    if s != [] && IsParam(s[0]) then 1 + ParamRun(s[1..]) else 0
  }

  /** The length of the match of `\x1b\[[0-9;]*m` at the start of `s`, or 0 when there
      is none there. */
  function CodeLen(s: string): (n: nat)
    ensures n <= |s|
    ensures n > 0 ==> (
      && n >= 3 && s[0] == Esc && s[1] == '[' && s[n - 1] == 'm'
      && forall i :: 2 <= i < n - 1 ==> IsParam(s[i]))
  {
    if |s| >= 2 && s[0] == Esc && s[1] == '[' then
      var k := ParamRun(s[2..]);
      if 2 + k < |s| && s[2 + k] == 'm' then 3 + k else 0
    else 0
  }

  /** The result of `split` and `findall` with the escape pattern: the texts between
      the codes, and the codes. */
  datatype Pieces = Pieces(parts: seq<string>, codes: seq<string>)

  function Tokenize(s: string): (t: Pieces)
    ensures |t.parts| == |t.codes| + 1
    decreases |s|
  {
    if s == [] then Pieces([""], [])
    else
      var n := CodeLen(s);
      if n > 0 then
        var r := Tokenize(s[n..]);
        Pieces([""] + r.parts, [s[..n]] + r.codes)
      else
        var r := Tokenize(s[1..]);
        Pieces([[s[0]] + r.parts[0]] + r.parts[1..], r.codes)
  }

  /** Every code found is one whole escape sequence. */
  lemma {:induction false} CodesAreWhole(s: string)
    ensures AllWhole(Tokenize(s).codes)
    decreases |s|
  {
    if s != [] {
      var n := CodeLen(s);
      if n > 0 {
        var r := Tokenize(s[n..]);
        assert Tokenize(s).codes == [s[..n]] + r.codes;
        CodesAreWhole(s[n..]);
        CodeLenOfPrefix(s, n);
        WholeCons(s[..n], r.codes);
      } else {
        assert Tokenize(s).codes == Tokenize(s[1..]).codes;
        CodesAreWhole(s[1..]);
      }
    }
  }

  /** Each of `codes` is exactly one escape sequence. */
  predicate AllWhole(codes: seq<string>) {
    forall i :: 0 <= i < |codes| ==> CodeLen(codes[i]) == |codes[i]| > 0
  }

  lemma WholeCons(code: string, codes: seq<string>)
    requires CodeLen(code) == |code| > 0
    requires AllWhole(codes)
    ensures AllWhole([code] + codes)
  {
    var c := [code] + codes;
    forall i | 0 <= i < |c| ensures CodeLen(c[i]) == |c[i]| > 0 {
      if i > 0 {
        assert c[i] == codes[i - 1];
      }
    }
  }

  /** A match at the start of `s` is also a match of the code alone. */
  lemma CodeLenOfPrefix(s: string, n: nat)
    requires n == CodeLen(s) > 0
    ensures CodeLen(s[..n]) == n
  {
    var k := n - 3;
    ParamRunOfPrefix(s[2..], k, n - 2);
    assert s[..n][2..] == s[2..][..n - 2];
  }

  lemma {:induction false} ParamRunOfPrefix(s: string, k: nat, n: nat)
    requires k == ParamRun(s) && k < n <= |s|
    ensures ParamRun(s[..n]) == k
  {
    if k > 0 {
      assert s[..n][1..] == s[1..][..n - 1];
      ParamRunOfPrefix(s[1..], k - 1, n - 1);
    }
  }

  /** `re.sub(r'\x1b\[[0-9;]*m', '', s)`: every match removed in one left-to-right pass. */
  function StripAnsi(s: string): (r: string)
    ensures |r| <= |s|
    decreases |s|
  {
    if s == [] then []
    else
      var n := CodeLen(s);
      if n > 0 then StripAnsi(s[n..]) else [s[0]] + StripAnsi(s[1..])
  }

  /** `re.search` with the escape pattern finds a match. */
  predicate HasAnsi(s: string) {
    exists i :: 0 <= i < |s| && CodeLen(s[i..]) > 0
  }

  function Concat(parts: seq<string>): string {
    if parts == [] then [] else parts[0] + Concat(parts[1..])
  }

  /** The parts and codes put back in their order. */
  function Interleave(parts: seq<string>, codes: seq<string>): string
    requires |parts| == |codes| + 1
  {
    if codes == [] then parts[0] else parts[0] + codes[0] + Interleave(parts[1..], codes[1..])
  }

  /** Splitting loses nothing: the parts and codes interleave back into the text. */
  lemma {:induction false} TokenizeRoundTrip(s: string)
    ensures var t := Tokenize(s); Interleave(t.parts, t.codes) == s
    decreases |s|
  {
    if s != [] {
      var n := CodeLen(s);
      if n > 0 {
        var r := Tokenize(s[n..]);
        assert Tokenize(s) == Pieces([""] + r.parts, [s[..n]] + r.codes);
        TokenizeRoundTrip(s[n..]);
        InterleaveCode(s, n, r.parts, r.codes);
      } else {
        var r := Tokenize(s[1..]);
        assert Tokenize(s) == Pieces([[s[0]] + r.parts[0]] + r.parts[1..], r.codes);
        TokenizeRoundTrip(s[1..]);
        InterleaveCons(s[0], r.parts, r.codes);
        assert s == [s[0]] + s[1..];
      }
    }
  }

  lemma InterleaveCode(s: string, n: nat, parts: seq<string>, codes: seq<string>)
    requires 0 < n <= |s|
    requires |parts| == |codes| + 1
    requires Interleave(parts, codes) == s[n..]
    ensures Interleave([""] + parts, [s[..n]] + codes) == s
  {
    var p := [""] + parts;
    var c := [s[..n]] + codes;
    assert p[1..] == parts && c[1..] == codes;
    assert s == s[..n] + s[n..];
  }

  lemma InterleaveCons(c: char, parts: seq<string>, codes: seq<string>)
    requires |parts| == |codes| + 1
    ensures Interleave([[c] + parts[0]] + parts[1..], codes) == [c] + Interleave(parts, codes)
  {
    var p := [[c] + parts[0]] + parts[1..];
    assert p[0] == [c] + parts[0];
    assert p[1..] == parts[1..];
  }

  /** The parts are the text with every code removed. */
  lemma {:induction false} TokenizeStrips(s: string)
    ensures Concat(Tokenize(s).parts) == StripAnsi(s)
    decreases |s|
  {
    if s != [] {
      var n := CodeLen(s);
      var r := if n > 0 then Tokenize(s[n..]) else Tokenize(s[1..]);
      if n > 0 {
        TokenizeStrips(s[n..]);
        assert ([""] + r.parts)[1..] == r.parts;
      } else {
        TokenizeStrips(s[1..]);
        var p := [[s[0]] + r.parts[0]] + r.parts[1..];
        assert p[1..] == r.parts[1..];
        assert Concat(r.parts) == r.parts[0] + Concat(r.parts[1..]);
      }
    }
  }

  /** A text without any code is one part. */
  lemma {:induction false} TokenizeWithoutCodes(s: string)
    requires !HasAnsi(s)
    ensures Tokenize(s) == Pieces([s], [])
    decreases |s|
  {
    if s != [] {
      assert s[0..] == s;
      assert CodeLen(s) == 0;
      assert !HasAnsi(s[1..]) by {
        forall i | 0 <= i < |s[1..]| ensures CodeLen(s[1..][i..]) == 0 {
          assert s[1..][i..] == s[i + 1..];
        }
      }
      TokenizeWithoutCodes(s[1..]);
      assert [s[0]] + s[1..] == s;
    }
  }

  /** The colours of `ft.Colors` the map uses. */
  datatype Colour =
    | Black | Red | Green | Yellow | Blue | Purple | Cyan | White | Grey
    | Red300 | Green300 | Yellow300 | Blue300 | Purple300 | Cyan300

  /** `COLOR_MAP`: a code to the colour it selects; the two reset codes select none. */
  const ColourMap: map<string, Option<Colour>> := map[
    "\U{1b}[30m" := Some(Black), "\U{1b}[31m" := Some(Red), "\U{1b}[32m" := Some(Green),
    "\U{1b}[33m" := Some(Yellow), "\U{1b}[34m" := Some(Blue), "\U{1b}[35m" := Some(Purple),
    "\U{1b}[36m" := Some(Cyan), "\U{1b}[37m" := Some(White), "\U{1b}[90m" := Some(Grey),
    "\U{1b}[91m" := Some(Red300), "\U{1b}[92m" := Some(Green300), "\U{1b}[93m" := Some(Yellow300),
    "\U{1b}[94m" := Some(Blue300), "\U{1b}[95m" := Some(Purple300), "\U{1b}[96m" := Some(Cyan300),
    "\U{1b}[97m" := Some(White), "\U{1b}[0m" := None, "\U{1b}[m" := None
  ]

  /** A `TextSpan` with its style's colour (`None` is the default colour). */
  datatype Span = Span(text: string, colour: Option<Colour>)

  /** The colour in force after the first `k` codes: that of the last mapped one. */
  function Current(codes: seq<string>, k: nat): Option<Colour>
    requires k <= |codes|
  {
    if k == 0 then None
    else if codes[k - 1] in ColourMap then ColourMap[codes[k - 1]]
    else Current(codes, k - 1)
  }

  /** The colour of each part: that in force after the codes before it. */
  function Colours(codes: seq<string>): (cs: seq<Option<Colour>>)
    ensures |cs| == |codes| + 1
    ensures forall j :: 0 <= j <= |codes| ==> cs[j] == Current(codes, j)
  {
    seq(|codes| + 1, j requires 0 <= j <= |codes| => Current(codes, j))
  }

  /** The spans of the first `k` parts: each non-empty part, in its colour. */
  function SpansOf(parts: seq<string>, colours: seq<Option<Colour>>, k: nat): seq<Span>
    requires |colours| == |parts| && k <= |parts|
  {
    if k == 0 then []
    else SpansOf(parts, colours, k - 1) + (if parts[k - 1] != "" then [Span(parts[k - 1], colours[k - 1])] else [])
  }

  function AnsiSpans(text: string): seq<Span> {
    var t := Tokenize(text);
    SpansOf(t.parts, Colours(t.codes), |t.parts|)
  }

  function Texts(spans: seq<Span>): string {
    if spans == [] then [] else Texts(spans[..|spans| - 1]) + spans[|spans| - 1].text
  }

  /** `parse_ansi_text`. */
  method ParseAnsiText(text: string) returns (spans: seq<Span>)
    ensures text == "" ==> spans == []
    ensures spans == AnsiSpans(text)
  {
    if text == "" {
      return [];
    }
    var t := Tokenize(text);
    var parts, codes := t.parts, t.codes;
    ghost var colours := Colours(codes);
    spans := [];
    var current: Option<Colour> := None;
    if parts[0] != "" {
      spans := spans + [Span(parts[0], current)];
    }
    var i := 0;
    while i < |parts| - 1
      invariant 0 <= i <= |parts| - 1
      invariant spans == SpansOf(parts, colours, i + 1)
      invariant current == Current(codes, i)
    {
      if i < |codes| {
        var code := codes[i];
        if code in ColourMap {
          current := ColourMap[code];
        }
      }
      if parts[i + 1] != "" {
        spans := spans + [Span(parts[i + 1], current)];
      }
      i := i + 1;
    }
  }

  /** The span texts are the parts, joined. */
  lemma {:induction false} SpansCoverParts(parts: seq<string>, colours: seq<Option<Colour>>, k: nat)
    requires |colours| == |parts| && k <= |parts|
    ensures Texts(SpansOf(parts, colours, k)) == ConcatUpTo(parts, k)
  {
    if k > 0 {
      var front := SpansOf(parts, colours, k - 1);
      var x := parts[k - 1];
      assert SpansOf(parts, colours, k) == front + (if x != "" then [Span(x, colours[k - 1])] else []);
      SpansCoverParts(parts, colours, k - 1);
      TextsStep(front, x, colours[k - 1]);
      assert ConcatUpTo(parts, k) == ConcatUpTo(parts, k - 1) + x;
    }
  }

  /** The first `k` parts, joined. */
  function ConcatUpTo(parts: seq<string>, k: nat): string
    requires k <= |parts|
  {
    if k == 0 then [] else ConcatUpTo(parts, k - 1) + parts[k - 1]
  }

  lemma {:induction false} ConcatUpToAll(parts: seq<string>, k: nat)
    requires k <= |parts|
    ensures ConcatUpTo(parts, k) == Concat(parts[..k])
  {
    if k > 0 {
      ConcatUpToAll(parts, k - 1);
      ConcatSnoc(parts[..k - 1], parts[k - 1]);
      assert parts[..k] == parts[..k - 1] + [parts[k - 1]];
    }
  }

  lemma TextsStep(front: seq<Span>, x: string, c: Option<Colour>)
    ensures Texts(front + (if x != "" then [Span(x, c)] else [])) == Texts(front) + x
  {
    if x != "" {
      var all := front + [Span(x, c)];
      assert all[..|all| - 1] == front;
    } else {
      assert front + [] == front;
      assert Texts(front) + x == Texts(front);
    }
  }

  lemma {:induction false} SpansNonEmpty(parts: seq<string>, colours: seq<Option<Colour>>, k: nat)
    requires |colours| == |parts| && k <= |parts|
    ensures forall s :: s in SpansOf(parts, colours, k) ==> s.text != ""
  {
    if k > 0 {
      SpansNonEmpty(parts, colours, k - 1);
    }
  }

  lemma {:induction false} ConcatSnoc(parts: seq<string>, x: string)
    ensures Concat(parts + [x]) == Concat(parts) + x
  {
    if parts == [] {
      assert [] + [x] == [x];
    } else {
      assert (parts + [x])[1..] == parts[1..] + [x];
      ConcatSnoc(parts[1..], x);
    }
  }

  /** The spans show the text with every escape code removed, and none is empty. */
  lemma SpansShowText(text: string)
    ensures Texts(AnsiSpans(text)) == StripAnsi(text)
    ensures forall s :: s in AnsiSpans(text) ==> s.text != ""
  {
    var t := Tokenize(text);
    SpansCoverParts(t.parts, Colours(t.codes), |t.parts|);
    SpansNonEmpty(t.parts, Colours(t.codes), |t.parts|);
    ConcatUpToAll(t.parts, |t.parts|);
    assert t.parts[..|t.parts|] == t.parts;
    TokenizeStrips(text);
  }

  /** The text before the first code is shown in the default colour. */
  lemma FirstPartUncoloured(text: string)
    requires Tokenize(text).parts[0] != ""
    ensures |AnsiSpans(text)| > 0 && AnsiSpans(text)[0] == Span(Tokenize(text).parts[0], None)
  {
    var t := Tokenize(text);
    FirstSpan(t.parts, Colours(t.codes), |t.parts|);
  }

  lemma {:induction false} FirstSpan(parts: seq<string>, colours: seq<Option<Colour>>, k: nat)
    requires |colours| == |parts| && 1 <= k <= |parts| && parts[0] != "" && colours[0] == None
    ensures |SpansOf(parts, colours, k)| > 0 && SpansOf(parts, colours, k)[0] == Span(parts[0], None)
  {
    if k > 1 {
      FirstSpan(parts, colours, k - 1);
    }
  }

  /** A text without codes shows as one uncoloured span: the plain `Text` the batch
      uses for it shows the same. */
  lemma PlainTextOneSpan(text: string)
    requires text != "" && !HasAnsi(text)
    ensures AnsiSpans(text) == [Span(text, None)]
  {
    TokenizeWithoutCodes(text);
    assert Colours([]) == [None];
    assert SpansOf([text], [None], 1) == SpansOf([text], [None], 0) + [Span(text, None)];
  }

  /** The colour after `k` codes is that of the last code among them found in the map
      (a reset code giving none), and none when no code is found there: codes outside
      the map change nothing. */
  lemma {:induction false} CurrentIsLastMapped(codes: seq<string>, k: nat)
    requires k <= |codes|
    ensures (forall i :: 0 <= i < k ==> codes[i] !in ColourMap) ==> Current(codes, k) == None
    ensures forall j :: 0 <= j < k && codes[j] in ColourMap && (forall i :: j < i < k ==> codes[i] !in ColourMap) ==>
      Current(codes, k) == ColourMap[codes[j]]
  {
    if k > 0 {
      CurrentIsLastMapped(codes, k - 1);
    }
  }

  // ---------------------------------------------------------------------------
  // Log text clean-up
  // ---------------------------------------------------------------------------

  const LogMaxLength: nat := 2000

  /** The line breaks (`\r?\n`) at the start of `s`: how many, and how many characters. */
  datatype Run = Run(count: nat, len: nat)

  function BreakRun(s: string): (r: Run)
    ensures r.count <= r.len <= |s|
    ensures r.len <= 2 * r.count
    decreases |s|
  {
    if |s| >= 2 && s[0] == '\r' && s[1] == '\n' then
      var r := BreakRun(s[2..]); Run(r.count + 1, r.len + 2)
    else if |s| >= 1 && s[0] == '\n' then
      var r := BreakRun(s[1..]); Run(r.count + 1, r.len + 1)
    else Run(0, 0)
  }

  /** `re.sub(r'(\r?\n){3,}', '\n\n', s)`. */
  function CollapseBreaks(s: string): (r: string)
    ensures |r| <= |s|
    decreases |s|
  {
    if s == [] then []
    else
      var b := BreakRun(s);
      if b.count >= 3 then "\n\n" + CollapseBreaks(s[b.len..])
      else [s[0]] + CollapseBreaks(s[1..])
  }

  /** The text `add_log` queues, or `None` for an empty text, which it ignores. */
  function Normalise(text: string): (r: Option<string>)
    ensures r.None? <==> text == ""
    ensures r.Some? ==> |r.value| <= LogMaxLength
  {
    if text == "" then None
    else
      var cut := if |text| <= LogMaxLength then text else text[..LogMaxLength];
      var s := Strip(cut);
      assert |s| <= |cut|;
      Some(CollapseBreaks(s))
  }

  /** The number of leading line feeds. */
  function LeadingFeeds(s: string): (k: nat)
    ensures k <= |s|
    ensures forall i :: 0 <= i < k ==> s[i] == '\n'
    ensures k < |s| ==> s[k] != '\n'
  {
    if s != [] && s[0] == '\n' then 1 + LeadingFeeds(s[1..]) else 0
  }

  predicate NoTripleFeed(s: string) {
    forall i :: 0 <= i && i + 2 < |s| ==> !(s[i] == '\n' && s[i + 1] == '\n' && s[i + 2] == '\n')
  }

  lemma {:induction false} RunWithoutReturns(s: string)
    requires '\r' !in s
    ensures BreakRun(s) == Run(LeadingFeeds(s), LeadingFeeds(s))
  {
    if s != [] && s[0] == '\n' {
      RunWithoutReturns(s[1..]);
    }
  }

  /** Without carriage returns, the collapsed text never holds three line feeds in a
      row, and starts with as many line feeds as the text, but at most two. */
  lemma {:induction false} CollapseLeavesNoTriple(s: string)
    requires '\r' !in s
    ensures NoTripleFeed(CollapseBreaks(s))
    ensures LeadingFeeds(CollapseBreaks(s)) == if LeadingFeeds(s) >= 3 then 2 else LeadingFeeds(s)
    decreases |s|
  {
    if s != [] {
      RunWithoutReturns(s);
      var b := BreakRun(s);
      if b.count >= 3 {
        var t := s[b.len..];
        CollapseLeavesNoTriple(t);
        var r := "\n\n" + CollapseBreaks(t);
        assert LeadingFeeds(t) == 0;
        NoTripleAfterPrefix("\n\n", CollapseBreaks(t));
        LeadingFeedsConcat("\n\n", CollapseBreaks(t));
      } else {
        var t := s[1..];
        CollapseLeavesNoTriple(t);
        assert s[0] == '\n' ==> LeadingFeeds(t) == LeadingFeeds(s) - 1;
        NoTripleAfterPrefix([s[0]], CollapseBreaks(t));
        if s[0] == '\n' {
          LeadingFeedsConcat([s[0]], CollapseBreaks(t));
        }
      }
    }
  }

  lemma NoTripleAfterPrefix(p: string, t: string)
    requires |p| <= 2 && NoTripleFeed(t)
    requires forall i :: 0 <= i < |p| ==> p[i] == '\n' || i == 0
    requires |p| == 2 ==> LeadingFeeds(t) == 0
    requires |p| == 1 && p[0] == '\n' ==> LeadingFeeds(t) <= 1
    ensures NoTripleFeed(p + t)
  {
    var r := p + t;
    forall i | 0 <= i && i + 2 < |r|
      ensures !(r[i] == '\n' && r[i + 1] == '\n' && r[i + 2] == '\n')
    {
      if i >= |p| {
        assert r[i] == t[i - |p|] && r[i + 1] == t[i + 1 - |p|] && r[i + 2] == t[i + 2 - |p|];
      }
    }
  }

  lemma {:induction false} LeadingFeedsConcat(p: string, t: string)
    requires forall i :: 0 <= i < |p| ==> p[i] == '\n'
    ensures LeadingFeeds(p + t) == |p| + LeadingFeeds(t)
  {
    if p != [] {
      assert (p + t)[1..] == p[1..] + t;
      LeadingFeedsConcat(p[1..], t);
    } else {
      assert p + t == t;
    }
  }

  // ---------------------------------------------------------------------------
  // The pane
  // ---------------------------------------------------------------------------

  const MaxLogEntries: nat := 1500
  const BatchSizeThreshold: nat := 30
  const ProcessInterval: real := 0.02

  /** A control of the pane: rich text for a text with codes, plain text otherwise. */
  datatype LogLine = Rich(spans: seq<Span>) | Plain(text: string)

  function Render(text: string): LogLine {
    if HasAnsi(text) then Rich(AnsiSpans(text)) else Plain(text)
  }

  function RenderAll(texts: seq<string>): (r: seq<LogLine>)
    ensures |r| == |texts|
    ensures forall i :: 0 <= i < |texts| ==> r[i] == Render(texts[i])
  {
    if texts == [] then [] else [Render(texts[0])] + RenderAll(texts[1..])
  }

  /** How many texts a batch takes from a queue of `size`, `elapsed` seconds after the
      last batch. */
  function BatchSize(size: nat, elapsed: real): (k: nat)
    ensures k <= size && k <= BatchSizeThreshold
    ensures size > 0 ==> k > 0
    ensures elapsed < ProcessInterval && size < BatchSizeThreshold ==> k <= 3
    ensures elapsed >= ProcessInterval || size >= BatchSizeThreshold ==> k == Min(size, BatchSizeThreshold)
  {
    var timeToProcess := elapsed >= ProcessInterval;
    var sizeToProcess := size >= BatchSizeThreshold;
    var limit := if !timeToProcess && !sizeToProcess && size > 0 then Min(3, size)
      else if size > 0 then Min(BatchSizeThreshold, size) else BatchSizeThreshold;
    Min(limit, size)
  }

  function Min(a: nat, b: nat): nat { if a <= b then a else b }

  /** The pane after a batch is appended: above `MaxLogEntries`, only the newest half. */
  function Trim(controls: seq<LogLine>): (r: seq<LogLine>)
    ensures |r| <= |controls|
    ensures |r| <= MaxLogEntries || r == controls
    ensures |controls| > MaxLogEntries ==> |r| == MaxLogEntries / 2
    ensures r == controls[|controls| - |r|..]
  {
    if |controls| > MaxLogEntries then controls[|controls| - MaxLogEntries / 2..] else controls
  }

  /** One line of the log file: the formatted time stamp and the text without codes. */
  function FileLine(stamp: string, text: string): string {
    "[" + stamp + "] " + StripAnsi(text) + "\n"
  }

  class AsyncTerminal {
    /** `logs.controls`. */
    var controls: seq<LogLine>
    /** `_log_queue`. */
    var queue: seq<string>
    /** `_log_file_queue`: time stamps (already formatted) with texts. */
    var fileQueue: seq<(string, string)>
    var lastProcessTime: real
    /** `enable_logging`: whether texts also go to the log file. */
    var enableLogging: bool

    predicate Valid()
      reads this
    {
      |controls| <= MaxLogEntries
    }

    constructor (enableLogging: bool)
      ensures Valid()
      ensures controls == [] && queue == [] && fileQueue == []
      ensures lastProcessTime == 0.0 && this.enableLogging == enableLogging
    {
      controls := [];
      queue := [];
      fileQueue := [];
      lastProcessTime := 0.0;
      this.enableLogging := enableLogging;
    }

    /** `update_log_setting`: the file log is on or off from the next text on; the
        pane and the queues are left as they are. */
    method UpdateLogSetting(enabled: bool)
      modifies this`enableLogging
      ensures enableLogging == enabled
    {
      enableLogging := enabled;
    }

    /** `add_log`: an empty text is ignored; otherwise the cleaned text goes to the file
        queue (when logging is on) and to the pane's queue, and a text of the full
        2000 characters first empties the pane's queue, and the pane itself when the
        terminal has a view on a page (`hasView`: only on Windows, once shown). */
    method AddLog(text: string, stamp: string, hasView: bool)
      requires Valid()
      modifies this`controls, this`queue, this`fileQueue
      ensures Valid()
      ensures text == "" ==> controls == old(controls) && queue == old(queue) && fileQueue == old(fileQueue)
      ensures text != "" ==> (
        var p := Normalise(text).value;
        && fileQueue == old(fileQueue) + (if enableLogging then [(stamp, p)] else [])
        && queue == (if |p| >= LogMaxLength then [] else old(queue)) + [p]
        && controls == (if |p| >= LogMaxLength && hasView then [] else old(controls)))
    {
      var n := Normalise(text);
      if n.None? {
        return;
      }
      var p := n.value;
      if enableLogging {
        fileQueue := fileQueue + [(stamp, p)];
      }
      var full := |p| >= LogMaxLength;
      if full && hasView {
        controls := [];
      }
      if full {
        queue := [];
      }
      queue := queue + [p];
    }

    /** `_process_batch`: takes up to `BatchSize` texts from the front of the queue,
        appends their controls and trims the pane. */
    method ProcessBatch(now: real)
      requires Valid()
      modifies this`controls, this`queue, this`lastProcessTime
      ensures Valid()
      ensures var k := BatchSize(|old(queue)|, now - old(lastProcessTime));
        && queue == old(queue)[k..]
        && (k == 0 ==> controls == old(controls) && lastProcessTime == old(lastProcessTime))
        && (k > 0 ==> controls == Trim(old(controls) + RenderAll(old(queue)[..k])) && lastProcessTime == now)
    {
      var size := |queue|;
      var timeToProcess := now - lastProcessTime >= ProcessInterval;
      var sizeToProcess := size >= BatchSizeThreshold;
      var limit;
      if !timeToProcess && !sizeToProcess && size > 0 {
        limit := Min(3, size);
      } else {
        limit := if size > 0 then Min(BatchSizeThreshold, size) else BatchSizeThreshold;
      }
      ghost var k := BatchSize(size, now - lastProcessTime);
      var entries: seq<string> := [];
      var count := 0;
      while count < limit
        invariant 0 <= count <= limit
        invariant count <= size
        invariant entries == old(queue)[..count] && queue == old(queue)[count..]
        invariant count < k ==> count < limit
        invariant count <= k
        invariant controls == old(controls) && lastProcessTime == old(lastProcessTime)
      {
        if queue == [] {
          break;
        }
        entries := entries + [queue[0]];
        queue := queue[1..];
        count := count + 1;
      }
      assert count == k;
      assert queue == old(queue)[k..];
      if entries == [] {
        return;
      }
      var added := RenderEntries(entries);
      controls := controls + added;
      if |controls| > MaxLogEntries {
        controls := controls[|controls| - MaxLogEntries / 2..];
      }
      lastProcessTime := now;
    }

    /** `_write_log_entries_to_file`: the lines appended to the log file, none when
        logging is off. */
    method WriteLogEntries(entries: seq<(string, string)>) returns (lines: seq<string>)
      ensures !enableLogging ==> lines == []
      ensures enableLogging ==> (
        && |lines| == |entries|
        && forall i :: 0 <= i < |entries| ==> lines[i] == FileLine(entries[i].0, entries[i].1))
    {
      lines := [];
      if !enableLogging {
        return;
      }
      var i := 0;
      while i < |entries|
        invariant 0 <= i <= |entries|
        invariant |lines| == i
        invariant forall j :: 0 <= j < i ==> lines[j] == FileLine(entries[j].0, entries[j].1)
      {
        lines := lines + ["[" + entries[i].0 + "] " + StripAnsi(entries[i].1) + "\n"];
        i := i + 1;
      }
    }
  }

  /** The control of one text: rich spans where a code occurs, plain text otherwise. */
  method RenderEntry(text: string) returns (line: LogLine)
    ensures line == Render(text)
  {
    if HasAnsi(text) {
      var spans := ParseAnsiText(text);
      line := Rich(spans);
    } else {
      line := Plain(text);
    }
  }

  /** The controls of a batch's texts, in order: rich text where the text has a code. */
  method RenderEntries(entries: seq<string>) returns (added: seq<LogLine>)
    ensures added == RenderAll(entries)
  {
    added := [];
    var i := 0;
    while i < |entries|
      invariant 0 <= i <= |entries|
      invariant |added| == i
      invariant forall j :: 0 <= j < i ==> added[j] == Render(entries[j])
    {
      var line := RenderEntry(entries[i]);
      added := added + [line];
      i := i + 1;
    }
    var all := RenderAll(entries);
    assert forall j :: 0 <= j < |entries| ==> added[j] == all[j];
  }

  /** A batch never leaves more than `MaxLogEntries` controls, and the controls of the
      texts it took are always the newest ones kept. */
  lemma BatchKeepsNewest(old_controls: seq<LogLine>, taken: seq<string>)
    requires |taken| <= BatchSizeThreshold
    requires |old_controls| <= MaxLogEntries
    ensures var c := Trim(old_controls + RenderAll(taken));
      |c| <= MaxLogEntries && |c| >= |taken| && c[|c| - |taken|..] == RenderAll(taken)
  {
    var all := old_controls + RenderAll(taken);
    var c := Trim(all);
    assert all[|all| - |taken|..] == RenderAll(taken);
    assert c[|c| - |taken|..] == all[|all| - |taken|..];
  }

  /** The log file holds the same text the pane shows for an entry. */
  lemma FileMatchesPane(stamp: string, text: string)
    ensures FileLine(stamp, text) == "[" + stamp + "] " + Texts(AnsiSpans(text)) + "\n"
  {
    SpansShowText(text);
  }
}
