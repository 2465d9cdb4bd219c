/** Raw response headers written anew from lines, and read back. */
module ResponseTexts {
  import opened Ascii
  import opened Quoting
  import opened HttpText
  import opened StatusLine
  import opened RawHeaders
  import opened RawHeadersNormal
  import opened ResponseLines

  // ---------------------------------------------------------------- lines as texts

  /** A line that is a header. */
  predicate IsLine(t: bytes) { t != [] && NUL !in t && CutLine(t).Some? }

  predicate AllLines(ts: seq<bytes>) { forall i | 0 <= i < |ts| :: IsLine(ts[i]) }

  function TextHeader(t: bytes): Header
    requires CutLine(t).Some?
  {
    HeaderOf(t, CutLine(t).value)
  }

  function TextHeaders(ts: seq<bytes>): (r: seq<Header>)
    requires AllLines(ts)
    ensures |r| == |ts|
  {
    seq(|ts|, i requires 0 <= i < |ts| => TextHeader(ts[i]))
  }

  /** The line of a span, cut off after its value. */
  function KeptText(raw: bytes, x: HeaderSpan): bytes
    requires InText(raw, x)
  {
    raw[x.begin..x.begin + x.cut.valueEnd]
  }

  /** What copying the line of a span keeps. */
  predicate Faithful(raw: bytes, x: HeaderSpan)
    requires InText(raw, x)
  {
    TrimmedSpan(raw, x) && IsLine(KeptText(raw, x)) && TextHeader(KeptText(raw, x)) == SpanHeader(raw, x)
  }

  lemma SpanFaithful(raw: bytes, t: Stretch)
    requires t.b < t.e <= |raw| && NUL !in raw[t.b..t.e] && CutLine(raw[t.b..t.e]).Some?
    ensures var x := HeaderSpan(t.b, CutLine(raw[t.b..t.e]).value); InText(raw, x) && Faithful(raw, x)
  {
    hide CutLine, IsBlank;
    var line := raw[t.b..t.e];
    var c := CutLine(line).value;
    var x := HeaderSpan(t.b, c);
    CutKept(line);
    CutTrimmed(line);
    SliceOfSlice(raw, t.b, t.e, 0, c.valueEnd);
    assert line[..c.valueEnd] == line[0..c.valueEnd];
    assert KeptText(raw, x) == line[..c.valueEnd];
    SpanIsText(raw, t);
    assert NUL !in KeptText(raw, x);
    if c.valueBegin < c.valueEnd {
      assert line[c.valueBegin] == raw[x.begin + c.valueBegin] && line[c.valueEnd - 1] == raw[x.begin + c.valueEnd - 1];
    }
  }

  lemma CutTrimmed(line: bytes)
    requires CutLine(line).Some?
    ensures var c := CutLine(line).value;
            c.valueBegin < c.valueEnd ==> !IsBlank(line[c.valueBegin]) && !IsBlank(line[c.valueEnd - 1])
  {
    hide IsBlank, IsName;
  }

  predicate AllFaithful(raw: bytes, xs: seq<HeaderSpan>) {
    forall i | 0 <= i < |xs| :: InText(raw, xs[i]) && Faithful(raw, xs[i])
  }

  lemma {:induction false} SpansFaithful(raw: bytes, tokens: seq<Stretch>)
    requires forall i | 0 <= i < |tokens| :: tokens[i].b < tokens[i].e <= |raw|
    requires forall i | 0 <= i < |tokens| :: NUL !in raw[tokens[i].b..tokens[i].e]
    ensures AllFaithful(raw, Spans(raw, tokens))
  {
    hide CutLine, Faithful;
    if tokens != [] {
      var n := |tokens| - 1;
      SpansFaithful(raw, tokens[..n]);
      if CutLine(raw[tokens[n].b..tokens[n].e]).Some? {
        SpanFaithful(raw, tokens[n]);
      }
    }
  }

  lemma LinesFaithful(raw: bytes, from: nat)
    requires from <= |raw|
    ensures AllFaithful(raw, LinesFrom(raw, from)) && AllGood(raw, LinesFrom(raw, from))
  {
    hide Tokens, Spans;
    var tokens := Tokens(raw, from, {NUL});
    forall i | 0 <= i < |tokens| ensures NUL !in raw[tokens[i].b..tokens[i].e] {
    }
    SpansFaithful(raw, tokens);
  }

  /** Tokens that are all headers are the headers of the text. */
  lemma {:induction false} SpansOfTexts(raw: bytes, tokens: seq<Stretch>)
    requires forall i | 0 <= i < |tokens| :: tokens[i].b < tokens[i].e <= |raw|
    requires AllLines(Texts(raw, tokens))
    ensures Headers(raw, Spans(raw, tokens)) == TextHeaders(Texts(raw, tokens))
  {
    hide CutLine, TextHeader, SpanHeader;
    if tokens != [] {
      var n := |tokens| - 1;
      var init := tokens[..n];
      var ts := Texts(raw, tokens);
      assert ts[..n] == Texts(raw, init);
      SpansOfTexts(raw, init);
      SpanIsText(raw, tokens[n]);
      var xs := Spans(raw, tokens);
      assert |xs| == n + 1 && xs[..n] == Spans(raw, init);
      forall i | 0 <= i < n + 1 ensures Headers(raw, xs)[i] == TextHeaders(ts)[i] {
        if i < n {
          assert Headers(raw, Spans(raw, init))[i] == TextHeaders(Texts(raw, init))[i];
        }
      }
    }
  }

  lemma SpanIsText(raw: bytes, t: Stretch)
    requires t.b < t.e <= |raw| && CutLine(raw[t.b..t.e]).Some?
    ensures var x := HeaderSpan(t.b, CutLine(raw[t.b..t.e]).value);
            InText(raw, x) && SpanHeader(raw, x) == TextHeader(raw[t.b..t.e])
  {
    hide CutLine;
    var line, c := raw[t.b..t.e], CutLine(raw[t.b..t.e]).value;
    SliceOfSlice(raw, t.b, t.e, 0, c.nameEnd);
    assert line[..c.nameEnd] == line[0..c.nameEnd];
    SliceOfSlice(raw, t.b, t.e, c.valueBegin, c.valueEnd);
  }

  // ---------------------------------------------------------------- selecting

  /** Headers of the new response that do not replace those of the stored one. */
  const NON_UPDATED := [
    "connection", "proxy-connection", "keep-alive", "www-authenticate", "proxy-authenticate",
    "proxy-authorization", "te", "trailer", "transfer-encoding", "upgrade", "content-location", "content-md5",
    "etag", "content-encoding", "content-range", "content-type", "content-length", "x-frame-options",
    "x-xss-protection"]

  const NON_UPDATED_PREFIXES := ["x-content-", "x-webkit-"]

  predicate StartsWith(name: bytes, lit: string) { |lit| <= |name| && Spells(LowerAll(name)[..|lit|], lit) }

  predicate ShouldUpdate(name: bytes) {
    && !OneOf(name, NON_UPDATED)
    && forall i | 0 <= i < |NON_UPDATED_PREFIXES| :: !StartsWith(name, NON_UPDATED_PREFIXES[i])
  }

  function Updatable(hs: seq<Header>): seq<Header> {
    if hs == [] then []
    else
      var n := |hs| - 1;
      Updatable(hs[..n]) + if ShouldUpdate(hs[n].name) then [hs[n]] else []
  }

  function LowerNames(hs: seq<Header>): set<bytes> {
    set i | 0 <= i < |hs| :: LowerAll(hs[i].name)
  }

  /** The headers whose names, in lower case, are not in the set. */
  function Without(hs: seq<Header>, names: set<bytes>): seq<Header> {
    if hs == [] then []
    else
      var n := |hs| - 1;
      Without(hs[..n], names) + if LowerAll(hs[n].name) !in names then [hs[n]] else []
  }

  /** The lines that an update copies from the new response. */
  function UpdatedTexts(raw: bytes, xs: seq<HeaderSpan>): seq<bytes>
    requires forall i | 0 <= i < |xs| :: InText(raw, xs[i])
  {
    if xs == [] then []
    else
      var n := |xs| - 1;
      UpdatedTexts(raw, xs[..n]) + if ShouldUpdate(SpanHeader(raw, xs[n]).name) then [KeptText(raw, xs[n])] else []
  }

  /** The lines that a merge keeps. */
  function ChosenTexts(raw: bytes, xs: seq<HeaderSpan>, names: set<bytes>): seq<bytes>
    requires forall i | 0 <= i < |xs| :: InText(raw, xs[i])
  {
    if xs == [] then []
    else
      var n := |xs| - 1;
      ChosenTexts(raw, xs[..n], names)
      + if LowerAll(SpanHeader(raw, xs[n]).name) !in names then [KeptText(raw, xs[n])] else []
  }

  lemma TextHeadersConcat(a: seq<bytes>, b: seq<bytes>)
    requires AllLines(a) && AllLines(b)
    ensures AllLines(a + b) && TextHeaders(a + b) == TextHeaders(a) + TextHeaders(b)
  {
    hide CutLine;
  }

  lemma HeadersInit(raw: bytes, xs: seq<HeaderSpan>)
    requires xs != [] && forall i | 0 <= i < |xs| :: InText(raw, xs[i])
    ensures var n := |xs| - 1;
            Headers(raw, xs)[..n] == Headers(raw, xs[..n]) && Headers(raw, xs)[n] == SpanHeader(raw, xs[n])
  {
    hide InText, SpanHeader;
  }

  lemma {:induction false} UpdatedAre(raw: bytes, xs: seq<HeaderSpan>)
    requires AllFaithful(raw, xs)
    ensures AllLines(UpdatedTexts(raw, xs))
    ensures TextHeaders(UpdatedTexts(raw, xs)) == Updatable(Headers(raw, xs))
  {
    hide CutLine, Headers, SpanHeader, KeptText, ShouldUpdate, TextHeader, TrimmedSpan;
    if xs != [] {
      var n := |xs| - 1;
      UpdatedAre(raw, xs[..n]);
      HeadersInit(raw, xs);
      TextHeadersConcat(UpdatedTexts(raw, xs[..n]), [KeptText(raw, xs[n])]);
    }
  }

  lemma {:induction false} ChosenAre(raw: bytes, xs: seq<HeaderSpan>, names: set<bytes>)
    requires AllFaithful(raw, xs)
    ensures AllLines(ChosenTexts(raw, xs, names))
    ensures TextHeaders(ChosenTexts(raw, xs, names)) == Without(Headers(raw, xs), names)
  {
    hide CutLine, Headers, SpanHeader, KeptText, TextHeader, TrimmedSpan, LowerAll;
    if xs != [] {
      var n := |xs| - 1;
      ChosenAre(raw, xs[..n], names);
      HeadersInit(raw, xs);
      TextHeadersConcat(ChosenTexts(raw, xs[..n], names), [KeptText(raw, xs[n])]);
    }
  }

  // ---------------------------------------------------------------- parsing what was written

  /** As many NULs as it takes to end in two. */
  function Pad(s: bytes): (r: bytes)
    ensures |r| >= 2 && r[|r| - 2..] == [NUL, NUL] && s <= r
    decreases Missing(s)
  {
    if |s| < 2 || s[|s| - 2] != NUL || s[|s| - 1] != NUL then
      assert s <= s + [NUL];
      Pad(s + [NUL])
    else s
  }

  function Missing(s: bytes): nat {
    if s == [] || s[|s| - 1] != NUL then 2 else if |s| < 2 || s[|s| - 2] != NUL then 1 else 0
  }

  /** There is something after the status line and its NUL. */
  predicate HasHeaders(input: bytes) {
    var n := Find(input, 0, {NUL});
    n + 1 < |input| && input[n + 1] != NUL
  }

  /** `Parse`: the raw text that an input becomes. */
  function RawOf(input: bytes): bytes {
    var n := Find(input, 0, {NUL});
    var status := NormalLine(input[..n], HasHeaders(input)) + [NUL];
    if n == |input| then status + [NUL] else Pad(status + input[n + 1..])
  }

  /** A status line and header lines, a NUL after each and one more. */
  function Written(status: bytes, ts: seq<bytes>): bytes { status + [NUL] + After(ts, [NUL]) + [NUL] }

  lemma AfterEndsInNul(ts: seq<bytes>)
    ensures ts == [] ==> After(ts, [NUL]) == []
    ensures ts != [] ==> var a := After(ts, [NUL]); a != [] && a[|a| - 1] == NUL
  {
  }

  lemma FindFirst(s: bytes, rest: bytes)
    requires NUL !in s
    ensures Find(s + [NUL] + rest, 0, {NUL}) == |s|
  {
    var t := s + [NUL] + rest;
    assert forall i | 0 <= i < |s| :: t[i] == s[i];
    assert t[|s|] == NUL;
    FindIs(t, 0, |s|, {NUL});
  }

  lemma HasWritten(status: bytes, ts: seq<bytes>)
    requires NUL !in status && AllLines(ts)
    ensures HasHeaders(Written(status, ts)) <==> ts != []
  {
    hide After, CutLine, Find;
    var s, a := Written(status, ts), After(ts, [NUL]);
    assert s == status + [NUL] + (a + [NUL]);
    FindFirst(status, a + [NUL]);
    if ts == [] {
      AfterEndsInNul(ts);
    } else {
      var x := ts[0];
      assert ts == [x] + ts[1..];
      AfterCons(x, ts[1..], [NUL]);
      assert s[|status| + 1] == x[0];
    }
  }

  /** Parsing a written text rewrites its status line and leaves the rest. */
  lemma RawOfWritten(status: bytes, ts: seq<bytes>)
    requires NUL !in status && AllLines(ts)
    ensures RawOf(Written(status, ts)) == Written(NormalLine(status, ts != []), ts)
  {
    hide After, CutLine, Find, NormalLine;
    var s, a := Written(status, ts), After(ts, [NUL]);
    assert s == status + [NUL] + (a + [NUL]);
    FindFirst(status, a + [NUL]);
    HasWritten(status, ts);
    AfterEndsInNul(ts);
    assert s[..|status|] == status && s[|status| + 1..] == a + [NUL];
    var w := NormalLine(status, ts != []) + [NUL] + (a + [NUL]);
    assert w == Written(NormalLine(status, ts != []), ts);
    assert w[|w| - 1] == NUL && w[|w| - 2] == NUL;
  }

  /** The headers of a written text are those of its lines. */
  lemma HeadersOfWritten(status: bytes, ts: seq<bytes>)
    requires NUL !in status && AllLines(ts)
    ensures var s := Written(status, ts);
            && Find(s, 0, {NUL}) == |status| < |s|
            && Headers(s, LinesFrom(s, |status| + 1)) == TextHeaders(ts)
  {
    hide After, CutLine, Find, Tokens, Texts, Spans, Headers, TextHeaders;
    var s, a := Written(status, ts), After(ts, [NUL]);
    assert s == status + [NUL] + (a + [NUL]);
    FindFirst(status, a + [NUL]);
    TokensOfLines(status + [NUL], ts, [NUL], [NUL], {NUL});
    SpansOfTexts(s, Tokens(s, |status| + 1, {NUL}));
  }
}
