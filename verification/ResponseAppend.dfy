/** Appending a line to raw response headers. */
module ResponseAppend {
  import opened Ascii
  import opened Quoting
  import opened HttpText
  import opened StatusLine
  import opened RawHeaders
  import opened RawHeadersNormal
  import opened ResponseLines
  import opened ResponseTexts

  // ---------------------------------------------------------------- headers depend on the token texts

  /** The headers among lines, in order. */
  function LineHeaders(ts: seq<bytes>): seq<Header> {
    if ts == [] then []
    else
      var n := |ts| - 1;
      LineHeaders(ts[..n]) + if CutLine(ts[n]).Some? then [TextHeader(ts[n])] else []
  }

  lemma HeadersSnoc(raw: bytes, xs: seq<HeaderSpan>, x: HeaderSpan)
    requires (forall i | 0 <= i < |xs| :: InText(raw, xs[i])) && InText(raw, x)
    ensures Headers(raw, xs + [x]) == Headers(raw, xs) + [SpanHeader(raw, x)]
  {
    hide InText, SpanHeader;
  }

  lemma LineHeadersSnoc(ts: seq<bytes>, t: bytes)
    ensures LineHeaders(ts + [t]) == LineHeaders(ts) + if CutLine(t).Some? then [TextHeader(t)] else []
  {
    hide CutLine, TextHeader;
    assert (ts + [t])[..|ts|] == ts;
  }

  lemma {:induction false} SpansAre(raw: bytes, tokens: seq<Stretch>)
    requires forall i | 0 <= i < |tokens| :: tokens[i].b < tokens[i].e <= |raw|
    ensures Headers(raw, Spans(raw, tokens)) == LineHeaders(Texts(raw, tokens))
  {
    hide CutLine, TextHeader, SpanHeader, LineHeaders, Headers, InText;
    if tokens == [] {
      NoHeaders(raw, Spans(raw, tokens), Texts(raw, tokens));
    } else {
      var n := |tokens| - 1;
      var t, ys, us := raw[tokens[n].b..tokens[n].e], Spans(raw, tokens[..n]), Texts(raw, tokens[..n]);
      SpansAre(raw, tokens[..n]);
      assert Texts(raw, tokens) == us + [t];
      LineHeadersSnoc(us, t);
      if CutLine(t).Some? {
        SpanIsText(raw, tokens[n]);
        HeadersSnoc(raw, ys, HeaderSpan(tokens[n].b, CutLine(t).value));
      } else {
        assert Spans(raw, tokens) == ys;
      }
    }
  }

  lemma NoHeaders(raw: bytes, xs: seq<HeaderSpan>, ts: seq<bytes>)
    requires xs == [] && ts == []
    ensures Headers(raw, xs) == [] == LineHeaders(ts)
  {
  }

  // ---------------------------------------------------------------- tokens of a longer text

  /** Texts that agree from `p` on have the same tokens from there. */
  lemma {:induction false} SameTail(s: bytes, t: bytes, p: nat, delims: set<byte>)
    requires p <= |s| == |t| && s[p..] == t[p..]
    ensures Texts(s, Tokens(s, p, delims)) == Texts(t, Tokens(t, p, delims))
    decreases |s| - p
  {
    hide Texts, Tokens, Skip, Find;
    assert forall i | p <= i < |s| :: s[i] == s[p..][i - p] == t[i];
    var b := Skip(s, p, delims);
    SkipIs(t, p, b, delims);
    if b == |s| {
      NoMore(s, p, delims);
      NoMore(t, p, delims);
    } else {
      var e := Find(s, b, delims);
      FindIs(t, b, e, delims);
      OneMore(s, p, delims);
      OneMore(t, p, delims);
      assert s[e..] == t[e..] && s[b..e] == t[b..e];
      SameTail(s, t, e, delims);
    }
  }

  lemma NoMore(s: bytes, p: nat, delims: set<byte>)
    requires p <= |s| && Skip(s, p, delims) == |s|
    ensures Texts(s, Tokens(s, p, delims)) == []
  {
  }

  lemma OneMore(s: bytes, p: nat, delims: set<byte>)
    requires p <= |s| && Skip(s, p, delims) < |s|
    ensures var b := Skip(s, p, delims);
            var e := Find(s, b, delims);
            Texts(s, Tokens(s, p, delims)) == [s[b..e]] + Texts(s, Tokens(s, e, delims))
  {
    hide Texts, Skip, Find;
    var b := Skip(s, p, delims);
    var e := Find(s, b, delims);
    TextsCons(s, Stretch(b, e), Tokens(s, e, delims));
  }

  /** A text that ends in a delimiter, and one more line after it. */
  lemma {:induction false} TokensAppend(s: bytes, p: nat, x: bytes, tail: bytes, delims: set<byte>)
    requires p <= |s| && s != [] && s[|s| - 1] in delims
    requires NoneIn(x, delims) && tail != [] && AllIn(tail, delims)
    ensures var t := s + x + tail;
            Texts(t, Tokens(t, p, delims)) == Texts(s, Tokens(s, p, delims)) + if x == [] then [] else [x]
    decreases |s| - p
  {
    hide Texts, Tokens, NoneIn, AllIn, Skip, Find;
    var t := s + x + tail;
    assert forall i | 0 <= i < |s| :: t[i] == s[i];
    var b := Skip(s, p, delims);
    if b == |s| {
      SkipDelims(t, p, |s|, delims);
      LastToken(s, x, tail, delims);
      NoMore(s, p, delims);
    } else {
      var e := Find(s, b, delims);
      SkipIs(t, p, b, delims);
      FindIs(t, b, e, delims);
      OneMore(s, p, delims);
      OneMore(t, p, delims);
      assert t[b..e] == s[b..e];
      TokensAppend(s, e, x, tail, delims);
    }
  }

  lemma LastToken(s: bytes, x: bytes, tail: bytes, delims: set<byte>)
    requires NoneIn(x, delims) && tail != [] && AllIn(tail, delims)
    ensures var t := s + x + tail;
            Texts(t, Tokens(t, |s|, delims)) == if x == [] then [] else [x]
  {
    hide Texts, Tokens;
    var t := s + x + tail;
    if x == [] {
      assert t == s + tail;
      NoTokens(s, tail, delims);
    } else {
      assert t == s + x + tail + [];
      TokenOfLine(s, x, tail, [], delims);
      assert t == t + [];
      NoTokens(t, [], delims);
    }
  }

  // ---------------------------------------------------------------- the new line

  function NewLine(name: bytes, value: bytes): bytes { name + [COLON, SP] + value }

  lemma NewLineIs(name: bytes, value: bytes)
    requires IsName(name) && IsValue(value)
    ensures IsLine(NewLine(name, value)) && TextHeader(NewLine(name, value)) == Header(name, Trimmed(value))
  {
    hide SkipLws, DropLws, Find, IsName, IsBlank;
    var line, n := NewLine(name, value), |name|;
    NamePart(name, value);
    ValuePart(name, value);
    assert line[..n] == name;
  }

  lemma NamePart(name: bytes, value: bytes)
    requires IsName(name) && IsValue(value)
    ensures var line, n := NewLine(name, value), |name|;
            0 < n < |line| && NUL !in line && !IsBlank(line[0]) && Find(line, 0, {COLON}) == n
            && DropLws(line, 0, n) == n
  {
    hide DropLws, Find;
    var line, n := NewLine(name, value), |name|;
    assert forall i | 0 <= i < n :: line[i] == name[i];
    FindIs(line, 0, n, {COLON});
    assert !IsBlank(line[n - 1]) && !IsBlank(line[0]);
  }

  lemma SkipLwsTail(s: bytes, d: nat)
    requires d <= |s|
    ensures SkipLws(s, d, |s|) == d + SkipLws(s[d..], 0, |s| - d)
  {
    SkipLwsShift(s, s[d..], 0, |s| - d, d);
  }

  lemma DropLwsTail(s: bytes, d: nat, b: nat)
    requires d + b <= |s|
    ensures DropLws(s, d + b, |s|) == d + DropLws(s[d..], b, |s| - d)
  {
    DropLwsShift(s, s[d..], b, |s| - d, d);
  }

  lemma {:induction false} TrimmedTail(s: bytes, d: nat)
    requires d <= |s|
    ensures var vb := SkipLws(s, d, |s|);
            s[vb..DropLws(s, vb, |s|)] == Trimmed(s[d..])
  {
    hide SkipLws, DropLws, IsBlank;
    var t := s[d..];
    SkipLwsTail(s, d);
    var b := SkipLws(t, 0, |t|);
    DropLwsTail(s, d, b);
    SliceOfSlice(s, d, |s|, b, DropLws(t, b, |t|));
  }

  lemma ValuePart(name: bytes, value: bytes)
    ensures var line, n := NewLine(name, value), |name|;
            var vb := SkipLws(line, n + 1, |line|);
            line[vb..DropLws(line, vb, |line|)] == Trimmed(value)
  {
    hide SkipLws, DropLws, Trimmed;
    var line := NewLine(name, value);
    TrimmedTail(line, |name| + 2);
    assert line[|name| + 2..] == value && line[|name| + 1] == SP;
    SkipOne(line, |name| + 1);
  }

  lemma SkipOne(s: bytes, b: nat)
    requires b < |s| && IsBlank(s[b])
    ensures SkipLws(s, b, |s|) == SkipLws(s, b + 1, |s|)
  {
  }
}
