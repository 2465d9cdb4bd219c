/** `HttpResponseHeaders` of src/http_parser/http_response_headers.cc. Every edit prints the lines
    that stay into a new raw text and parses that again; what the object then lists is the edit of
    the list. */
module ResponseHeaders {
  import opened Ascii
  import opened Quoting
  import opened HttpText
  import opened StatusLine
  import opened RawHeaders
  import opened RawHeadersNormal
  import opened ResponseLines
  import opened ResponseValues
  import opened ResponseCoalesce
  import opened ResponseTexts
  import opened ResponseAppend
  import opened ResponseUpdate

  /** A raw text: a normal status line and its NUL, then anything, two NULs at the end. */
  predicate IsRaw(raw: bytes) {
    var n := Find(raw, 0, {NUL});
    n + 1 < |raw| && IsNormal(raw[..n]) && raw[|raw| - 2..] == [NUL, NUL]
  }

  function StatusOf(raw: bytes): bytes { raw[..Find(raw, 0, {NUL})] }

  function SpansOf(raw: bytes): seq<HeaderSpan>
    requires IsRaw(raw)
  {
    LinesFrom(raw, Find(raw, 0, {NUL}) + 1)
  }

  function HeadersOf(raw: bytes): seq<Header>
    requires IsRaw(raw)
  {
    Headers(raw, SpansOf(raw))
  }

  lemma RawOfIsRaw(input: bytes)
    ensures IsRaw(RawOf(input))
    ensures StatusOf(RawOf(input)) == NormalLine(input[..Find(input, 0, {NUL})], HasHeaders(input))
  {
    hide NormalLine, Find, HasHeaders, Pad;
    var n := Find(input, 0, {NUL});
    var status := NormalLine(input[..n], HasHeaders(input));
    NormalIsNormal(input[..n], HasHeaders(input));
    var rest := if n == |input| then [NUL] else input[n + 1..];
    var raw := RawOf(input);
    var tail := raw[|status| + 1..];
    assert raw == status + [NUL] + tail;
    FindFirst(status, tail);
    assert raw[..|status|] == status;
    NotEmptyTail(status, rest);
  }

  lemma NotEmptyTail(status: bytes, rest: bytes)
    requires NUL !in status
    ensures |Pad(status + [NUL] + rest)| >= |status| + 2
  {
    hide Pad;
    var s := status + [NUL] + rest;
    var r := Pad(s);
    assert |r| == |s| ==> r == s;
    assert r[|r| - 2] == r[|r| - 2..][0] == NUL;
  }

  lemma SpansNext(raw: bytes, tokens: seq<Stretch>, k: nat)
    requires k < |tokens| && forall i | 0 <= i < |tokens| :: tokens[i].b < tokens[i].e <= |raw|
    ensures var c := CutLine(raw[tokens[k].b..tokens[k].e]);
            Spans(raw, tokens[..k + 1])
            == Spans(raw, tokens[..k]) + if c.Some? then [HeaderSpan(tokens[k].b, c.value)] else []
  {
    hide CutLine;
    assert tokens[..k + 1][..k] == tokens[..k];
  }

  lemma EntriesNext(raw: bytes, xs: seq<HeaderSpan>, x: HeaderSpan)
    requires (forall i | 0 <= i < |xs| :: InText(raw, xs[i])) && InText(raw, x)
    ensures AllEntries(raw, xs + [x]) == AllEntries(raw, xs) + Entries(raw, x)
  {
    hide Entries;
    assert (xs + [x])[..|xs|] == xs;
  }

  lemma VersionIsVersion(line: bytes, hasHeaders: bool)
    requires NUL !in line
    ensures VersionOf(NormalLine(line, hasHeaders)) == ReadStatus(line, hasHeaders).version
  {
    hide ReadStatus, StatusText, Clamp;
    var st := ReadStatus(line, hasHeaders);
    ReadIsValid(line, hasHeaders);
    ReadAgain(st, false);
    ClampedStays(st.version);
  }

  /** Parsing lines that were written: the headers are the lines, and the status line is read again. */
  lemma AfterWriting(status: bytes, ts: seq<bytes>)
    requires NUL !in status && AllLines(ts)
    ensures var raw := RawOf(Written(status, ts));
            IsRaw(raw) && HeadersOf(raw) == TextHeaders(ts) && StatusOf(raw) == NormalLine(status, ts != [])
  {
    hide RawOf, NormalLine, Written, Find, Headers, TextHeaders, LinesFrom, HasHeaders, AllLines;
    var input := Written(status, ts);
    var line := NormalLine(status, ts != []);
    RawOfIsRaw(input);
    RawOfWritten(status, ts);
    NormalIsNormal(status, ts != []);
    HeadersOfWritten(line, ts);
    WrittenStatus(line, ts);
  }

  lemma WrittenStatus(status: bytes, ts: seq<bytes>)
    requires NUL !in status
    ensures StatusOf(Written(status, ts)) == status
  {
    hide After;
    var s, rest := Written(status, ts), After(ts, [NUL]) + [NUL];
    assert s == status + [NUL] + rest;
    FindFirst(status, rest);
    assert s[..|status|] == status;
  }

  lemma ChosenNext(raw: bytes, xs: seq<HeaderSpan>, names: set<bytes>, j: nat)
    requires AllFaithful(raw, xs) && j < |xs|
    ensures InText(raw, xs[j]) && ChosenTexts(raw, xs[..j + 1], names)
            == ChosenTexts(raw, xs[..j], names)
               + if LowerAll(SpanHeader(raw, xs[j]).name) !in names then [KeptText(raw, xs[j])] else []
  {
    assert xs[..j + 1][..j] == xs[..j];
  }

  lemma UpdatedNext(raw: bytes, xs: seq<HeaderSpan>, j: nat)
    requires AllFaithful(raw, xs) && j < |xs|
    ensures InText(raw, xs[j]) && UpdatedTexts(raw, xs[..j + 1])
            == UpdatedTexts(raw, xs[..j])
               + if ShouldUpdate(SpanHeader(raw, xs[j]).name) then [KeptText(raw, xs[j])] else []
    ensures LowerNames(Updatable(Headers(raw, xs[..j + 1])))
            == LowerNames(Updatable(Headers(raw, xs[..j])))
               + if ShouldUpdate(SpanHeader(raw, xs[j]).name) then {LowerAll(SpanHeader(raw, xs[j]).name)} else {}
  {
    hide ShouldUpdate, LowerAll, Faithful, SpanHeader, KeptText;
    assert xs[..j + 1][..j] == xs[..j];
    HeadersInit(raw, xs[..j + 1]);
    var hs := Updatable(Headers(raw, xs[..j]));
    var h := SpanHeader(raw, xs[j]);
    LowerNamesSnoc(hs, h);
  }

  lemma AfterSnoc(ts: seq<bytes>, t: bytes)
    ensures After(ts + [t], [NUL]) == After(ts, [NUL]) + t + [NUL]
  {
    assert (ts + [t])[..|ts|] == ts;
  }

  /** The text that `AddHeader` parses: the last NUL goes, the line and two NULs come. */
  function Appended(raw: bytes, line: bytes): bytes
    requires raw != []
  {
    raw[..|raw| - 1] + line + [NUL, NUL]
  }

  /** The headers from `p` on, by the texts of the lines. */
  function HeadersAfter(raw: bytes, p: nat): seq<Header>
    requires p <= |raw|
  {
    LineHeaders(Texts(raw, Tokens(raw, p, {NUL})))
  }

  lemma HeadersAre(raw: bytes)
    requires IsRaw(raw)
    ensures HeadersOf(raw) == HeadersAfter(raw, Find(raw, 0, {NUL}) + 1)
  {
    hide IsNormal, Find, Tokens, Headers, Spans, LineHeaders;
    SpansAre(raw, Tokens(raw, Find(raw, 0, {NUL}) + 1, {NUL}));
  }

  lemma AppendedAfter(raw: bytes, line: bytes, p: nat)
    requires |raw| >= 2 && raw[|raw| - 2..] == [NUL, NUL] && p < |raw| && IsLine(line)
    ensures HeadersAfter(Appended(raw, line), p) == HeadersAfter(raw, p) + [TextHeader(line)]
  {
    hide Texts, Tokens, CutLine, TextHeader;
    var a := raw[..|raw| - 1];
    assert a[|a| - 1] == NUL;
    TokensAppend(a, p, line, [NUL, NUL], {NUL});
    TokensAppend(a, p, [], [NUL], {NUL});
    assert raw == a + [] + [NUL];
    var ts := Texts(raw, Tokens(raw, p, {NUL}));
    assert ts == Texts(a, Tokens(a, p, {NUL}));
    assert Texts(Appended(raw, line), Tokens(Appended(raw, line), p, {NUL})) == ts + [line];
    assert (ts + [line])[..|ts|] == ts;
  }

  lemma RawOfAppended(raw: bytes, line: bytes)
    requires IsRaw(raw) && IsLine(line)
    ensures var input := Appended(raw, line);
            var n := Find(raw, 0, {NUL});
            && Find(input, 0, {NUL}) == n
            && RawOf(input) == NormalLine(raw[..n], HasHeaders(input)) + [NUL] + input[n + 1..]
  {
    hide NormalLine, CutLine, HasHeaders, IsNormal, Find;
    var input, n := Appended(raw, line), Find(raw, 0, {NUL});
    AppendedBytes(raw, line, n);
    FindIs(input, 0, n, {NUL});
    var w := NormalLine(raw[..n], HasHeaders(input)) + [NUL] + input[n + 1..];
    EndsPadded(w);
  }

  lemma AppendedBytes(raw: bytes, line: bytes, n: nat)
    requires n + 1 < |raw|
    ensures var input := Appended(raw, line);
            && n + 3 <= |input| && input[..n] == raw[..n] && input[n] == raw[n]
            && (forall i | 0 <= i < n :: input[i] == raw[i])
            && input[n + 1..][|input| - n - 3..] == [NUL, NUL]
  {
  }

  lemma EndsPadded(s: bytes)
    requires |s| >= 2 && s[|s| - 1] == NUL && s[|s| - 2] == NUL
    ensures Pad(s) == s
  {
  }

  /** After `AddHeader` the list has one more header, its value trimmed. */
  lemma AfterAppending(raw: bytes, name: bytes, value: bytes)
    requires IsRaw(raw) && IsName(name) && IsValue(value)
    ensures var input := Appended(raw, NewLine(name, value));
            && IsRaw(RawOf(input)) && StatusOf(RawOf(input)) == NormalLine(StatusOf(raw), HasHeaders(input))
            && HeadersOf(RawOf(input)) == HeadersOf(raw) + [Header(name, Trimmed(value))]
  {
    hide NormalLine, CutLine, HasHeaders, Find, RawOf, LineHeaders, Tokens, Texts, HeadersOf, HeadersAfter, IsNormal,
         NewLine, TextHeader, Trimmed, IsName, IsValue;
    var line := NewLine(name, value);
    var input, n := Appended(raw, line), Find(raw, 0, {NUL});
    var out := RawOf(input);
    NewLineIs(name, value);
    RawOfIsRaw(input);
    RawOfAppended(raw, line);
    assert input[..n] == raw[..n];
    NormalAgainIff(raw[..n], HasHeaders(input));
    var status := NormalLine(raw[..n], HasHeaders(input));
    NormalLength(raw[..n], HasHeaders(input));
    assert |out| == |input| && out[n + 1..] == input[n + 1..];
    HeadersAre(raw);
    HeadersAre(out);
    AppendedAfter(raw, line, n + 1);
    FindStatus(out, status, n);
    AfterSame(out, input, n + 1);
  }

  lemma NormalLength(line: bytes, hasHeaders: bool)
    requires IsNormal(line)
    ensures |NormalLine(line, hasHeaders)| == |line|
  {
    hide NormalLine;
    NormalAgainIff(line, hasHeaders);
    NormalIsLong(line, hasHeaders);
    assert |NormalLine(line, hasHeaders)[8..]| == |line[8..]|;
  }

  lemma NormalIsLong(line: bytes, hasHeaders: bool)
    ensures |NormalLine(line, hasHeaders)| >= 9
  {
  }

  lemma FindStatus(raw: bytes, status: bytes, n: nat)
    requires StatusOf(raw) == status && |status| == n
    ensures Find(raw, 0, {NUL}) == n
  {
  }

  lemma AfterSame(s: bytes, t: bytes, p: nat)
    requires p <= |s| == |t| && s[p..] == t[p..]
    ensures HeadersAfter(s, p) == HeadersAfter(t, p)
  {
    SameTail(s, t, p, {NUL});
  }

  class HttpResponseHeaders {
    var rawHeaders: bytes
    var parsed: seq<ParsedHeader>
    var httpVersion: Version

    /** `parsed` and `httpVersion` are what the raw text says. */
    ghost predicate Valid()
      reads this
    {
      && IsRaw(rawHeaders) && parsed == AllEntries(rawHeaders, SpansOf(rawHeaders))
      && httpVersion == VersionOf(StatusOf(rawHeaders))
    }

    constructor (rawInput: bytes)
      ensures Valid() && rawHeaders == RawOf(rawInput)
    {
      rawHeaders, parsed, httpVersion := [], [], Version(0, 0);
      new;
      Parse(rawInput);
    }

    /** The status line, rewritten, becomes the raw text. */
    method ParseStatusLine(line: bytes, hasHeaders: bool)
      modifies this
      ensures rawHeaders == NormalLine(line, hasHeaders) && httpVersion == ReadStatus(line, hasHeaders).version
      ensures parsed == old(parsed)
    {
      hide ParseVersion, Clamp, VersionText, DropSpaces;
      httpVersion := Clamp(ParseVersion(line), hasHeaders);
      rawHeaders := VersionText(httpVersion);
      var p := Find(line, 0, {SP});
      if p == |line| {
        rawHeaders := rawHeaders + [SP] + Text("200") + ([SP] + Text("OK"));
        return;
      }
      var code := SkipOver(line, p, {SP});
      p := SkipOver(line, code, DIGITS);
      if p == code {
        rawHeaders := rawHeaders + [SP] + Text("200") + [];
        return;
      }
      rawHeaders := rawHeaders + [SP] + line[code..p];
      p := SkipOver(line, p, {SP});
      var lineEnd := TrimBack(line, p);
      if p < lineEnd {
        rawHeaders := rawHeaders + ([SP] + line[p..lineEnd]);
      }
    }

    /** `while (p < line_end && ...) ++p`. */
    static method SkipOver(s: bytes, b: nat, delims: set<byte>) returns (p: nat)
      requires b <= |s|
      ensures p == Skip(s, b, delims)
    {
      p := b;
      while p < |s| && s[p] in delims
        invariant b <= p <= |s| && Skip(s, b, delims) == Skip(s, p, delims)
      {
        p := p + 1;
      }
    }

    static method TrimBack(s: bytes, b: nat) returns (e: nat)
      requires b <= |s|
      ensures e == DropSpaces(s, b, |s|)
    {
      e := |s|;
      while e > b && s[e - 1] == SP
        invariant b <= e <= |s| && DropSpaces(s, b, |s|) == DropSpaces(s, b, e)
      {
        e := e - 1;
      }
    }

    /** `AddHeader` on positions: one entry for each value. */
    method AddEntries(x: HeaderSpan)
      requires InText(rawHeaders, x)
      modifies this`parsed
      ensures parsed == old(parsed) + Entries(rawHeaders, x)
    {
      hide Commas, NonCoalescing, SkipLws, DropLws;
      if OneValue(rawHeaders, x) {
        parsed := parsed + [ParsedHeader(
          x.begin, x.begin + x.cut.nameEnd, x.begin + x.cut.valueBegin, x.begin + x.cut.valueEnd)];
      } else {
        var pieces := Commas(rawHeaders, x.begin + x.cut.valueBegin, x.begin + x.cut.valueEnd);
        ghost var all := Entries(rawHeaders, x);
        var nameBegin, nameEnd := x.begin, x.begin + x.cut.nameEnd;
        var k := 0;
        while k < |pieces|
          invariant k <= |pieces| && parsed == old(parsed) + all[..k]
          invariant nameBegin == (if k == 0 then x.begin else |rawHeaders|)
          invariant nameEnd == (if k == 0 then x.begin + x.cut.nameEnd else |rawHeaders|)
        {
          var b, e := TrimLws(rawHeaders, pieces[k].b, pieces[k].e);
          parsed := parsed + [ParsedHeader(nameBegin, nameEnd, b, e)];
          assert all[..k + 1] == all[..k] + [all[k]];
          nameBegin, nameEnd := |rawHeaders|, |rawHeaders|;
          k := k + 1;
        }
        assert all[..k] == all;
      }
    }

    /** The entries of every header line after position `from`. */
    method ParseLines(from: nat)
      requires from <= |rawHeaders| && parsed == []
      modifies this`parsed
      ensures parsed == AllEntries(rawHeaders, LinesFrom(rawHeaders, from))
    {
      hide Tokens, Spans, AllEntries, CutLine, Entries;
      var tokens := Tokens(rawHeaders, from, {NUL});
      var k := 0;
      ghost var xs: seq<HeaderSpan> := [];
      NoSpans(rawHeaders);
      while k < |tokens|
        invariant k <= |tokens|
        invariant xs == Spans(rawHeaders, tokens[..k]) && parsed == AllEntries(rawHeaders, xs)
      {
        var c := CutLine(rawHeaders[tokens[k].b..tokens[k].e]);
        SpansNext(rawHeaders, tokens, k);
        if c.Some? {
          var x := HeaderSpan(tokens[k].b, c.value);
          EntriesNext(rawHeaders, xs, x);
          AddEntries(x);
          xs := xs + [x];
        }
        k := k + 1;
      }
      assert tokens[..k] == tokens;
    }

    static lemma NoSpans(raw: bytes)
      ensures Spans(raw, []) == [] && AllEntries(raw, []) == []
    {
    }

    method Parse(rawInput: bytes)
      requires parsed == []
      modifies this
      ensures Valid() && rawHeaders == RawOf(rawInput)
    {
      hide Find, NormalLine, ReadStatus, Pad, LinesFrom, AllEntries;
      var lineEnd := Find(rawInput, 0, {NUL});
      var hasHeaders := HasHeaders(rawInput);
      ParseStatusLine(rawInput[..lineEnd], hasHeaders);
      RawOfIsRaw(rawInput);
      VersionIsVersion(rawInput[..lineEnd], hasHeaders);
      rawHeaders := rawHeaders + [NUL];
      if lineEnd == |rawInput| {
        rawHeaders := rawHeaders + [NUL];
        NothingParsed(rawHeaders);
        return;
      }
      var statusLineLen := |rawHeaders|;
      rawHeaders := rawHeaders + rawInput[lineEnd + 1..];
      EndInTwoNuls();
      ParseLines(statusLineLen);
    }

    method EndInTwoNuls()
      modifies this`rawHeaders
      ensures rawHeaders == Pad(old(rawHeaders))
    {
      while |rawHeaders| < 2 || rawHeaders[|rawHeaders| - 2] != NUL || rawHeaders[|rawHeaders| - 1] != NUL
        invariant Pad(rawHeaders) == Pad(old(rawHeaders))
        decreases 2 - (if rawHeaders == [] || rawHeaders[|rawHeaders| - 1] != NUL then 0
                       else if |rawHeaders| < 2 || rawHeaders[|rawHeaders| - 2] != NUL then 1 else 2)
      {
        rawHeaders := rawHeaders + [NUL];
      }
    }

    static lemma NothingParsed(raw: bytes)
      requires IsRaw(raw) && Find(raw, 0, {NUL}) + 2 == |raw|
      ensures AllEntries(raw, SpansOf(raw)) == []
    {
      hide IsNormal, Find, CutLine, Entries;
      var n := Find(raw, 0, {NUL}) + 1;
      assert raw == raw[..n] + [NUL];
      SkipIs(raw, n, |raw|, {NUL});
      assert Tokens(raw, n, {NUL}) == [];
    }

    // -------------------------------------------------------------- reading

    /** What `EnumerateHeaderLines` goes through. */
    ghost function Lines(): seq<Header>
      requires Valid()
      reads this
    {
      HeadersOf(rawHeaders)
    }

    /** `std::string(raw_headers_.c_str())`. */
    ghost function Status(): bytes
      reads this
    {
      StatusOf(rawHeaders)
    }

    /** The last entry of the line whose first entry is `i`. */
    method LineEnd(i: nat, ghost j: nat) returns (k: nat)
      requires Valid() && j < |SpansOf(rawHeaders)|
      requires AllGood(rawHeaders, SpansOf(rawHeaders)) && i == Start(rawHeaders, SpansOf(rawHeaders), j)
      ensures k + 1 == Start(rawHeaders, SpansOf(rawHeaders), j + 1) <= |parsed| && i <= k
    {
      hide IsRaw, SpansOf, AllEntries, Start, AllGood;
      GroupShape(rawHeaders, SpansOf(rawHeaders), j);
      k := i + 1;
      while k < |parsed| && IsContinuation(parsed[k])
        invariant i < k <= Start(rawHeaders, SpansOf(rawHeaders), j + 1)
      {
        k := k + 1;
      }
      k := k - 1;
    }

    /** One line at a time: `iter` stands at the first entry of the `j`th. */
    method EnumerateHeaderLines(iter: nat, ghost j: nat) returns (more: bool, next: nat, name: bytes, value: bytes)
      requires Valid() && j <= |SpansOf(rawHeaders)|
      requires AllGood(rawHeaders, SpansOf(rawHeaders)) && iter == Start(rawHeaders, SpansOf(rawHeaders), j)
      ensures more <==> j < |Lines()|
      ensures more ==> Header(name, value) == Lines()[j] && next == Start(rawHeaders, SpansOf(rawHeaders), j + 1)
    {
      hide IsRaw, SpansOf, AllEntries, Start, AllGood;
      ghost var xs := SpansOf(rawHeaders);
      if iter == |parsed| {
        AtEnd(rawHeaders, xs, j);
        return false, iter, [], [];
      }
      AtEnd(rawHeaders, xs, j);
      GroupShape(rawHeaders, xs, j);
      var k := LineEnd(iter, j);
      SpanInText(rawHeaders, xs, j);
      name := rawHeaders[parsed[iter].nameBegin..parsed[iter].nameEnd];
      value := rawHeaders[parsed[iter].valueBegin..parsed[k].valueEnd];
      more, next := true, k + 1;
    }

    static lemma AtEnd(raw: bytes, xs: seq<HeaderSpan>, j: nat)
      requires AllGood(raw, xs) && j <= |xs|
      ensures Start(raw, xs, j) == |AllEntries(raw, xs)| <==> j == |xs|
    {
      hide AllEntries, AllGood;
      if j < |xs| {
        GroupShape(raw, xs, j);
      } else {
        assert xs[..j] == xs;
      }
    }

    static lemma SpanInText(raw: bytes, xs: seq<HeaderSpan>, j: nat)
      requires AllGood(raw, xs) && j < |xs|
      ensures InText(raw, xs[j])
    {
    }

    /** Going through all the lines. */
    method ListLines() returns (r: seq<Header>)
      requires Valid()
      ensures r == Lines()
    {
      hide IsRaw, SpansOf, HeadersOf, AllEntries, VersionOf, Start, AllGood, AllFaithful;
      LinesGood(rawHeaders);
      ghost var xs, all := SpansOf(rawHeaders), Lines();
      FirstStart(rawHeaders, xs);
      r := [];
      ghost var j := 0;
      var more, iter, name, value := EnumerateHeaderLines(0, 0);
      while more
        invariant j <= |all| && r == all[..j] && (more <==> j < |all|)
        invariant more ==> Header(name, value) == all[j] && iter == Start(rawHeaders, xs, j + 1)
        decreases |all| - j
      {
        r := r + [Header(name, value)];
        j := j + 1;
        more, iter, name, value := EnumerateHeaderLines(iter, j);
      }
    }

    static lemma LinesGood(raw: bytes)
      requires IsRaw(raw)
      ensures AllGood(raw, SpansOf(raw)) && AllFaithful(raw, SpansOf(raw)) && |SpansOf(raw)| == |HeadersOf(raw)|
      ensures forall i | 0 <= i < |SpansOf(raw)| :: InText(raw, SpansOf(raw)[i])
    {
      hide IsNormal, LinesFrom, AllGood, AllFaithful, InText;
      LinesFaithful(raw, Find(raw, 0, {NUL}) + 1);
    }

    static lemma FirstStart(raw: bytes, xs: seq<HeaderSpan>)
      requires AllGood(raw, xs)
      ensures Start(raw, xs, 0) == 0
    {
    }

    /** The first entry from `from` on that has this name, or the end. */
    method FindHeader(from: nat, search: bytes, ghost j: nat) returns (i: nat, ghost k: nat)
      requires Valid() && j <= |SpansOf(rawHeaders)|
      requires AllGood(rawHeaders, SpansOf(rawHeaders)) && from == Start(rawHeaders, SpansOf(rawHeaders), j)
      ensures j <= k <= |Lines()| && i == Start(rawHeaders, SpansOf(rawHeaders), k) <= |parsed|
      ensures forall n | j <= n < k :: !SameName(search, Lines()[n].name)
      ensures (k < |Lines()| <==> i < |parsed|) && (k < |Lines()| ==> SameName(search, Lines()[k].name))
    {
      hide IsRaw, SpansOf, AllEntries, Start, AllGood, SameName, InText, SpanHeader, IsContinuation;
      ghost var xs, hs := SpansOf(rawHeaders), Lines();
      i, k := from, j;
      AtStart(rawHeaders, xs, k);
      while i < |parsed|
        invariant j <= k <= |hs| && i <= Start(rawHeaders, xs, k) <= |parsed|
        invariant k < |hs| <==> Start(rawHeaders, xs, k) < |parsed|
        invariant forall n | i <= n < Start(rawHeaders, xs, k) :: IsContinuation(parsed[n])
        invariant forall n | j <= n < k :: !SameName(search, hs[n].name)
      {
        AtStart(rawHeaders, xs, k);
        if !IsContinuation(parsed[i]) {
          if SameName(search, rawHeaders[parsed[i].nameBegin..parsed[i].nameEnd]) {
            return;
          }
          k := k + 1;
          AtStart(rawHeaders, xs, k);
        }
        i := i + 1;
      }
    }

    /** One value of a name at a time: `m` values of the `j`th line have been seen. */
    method EnumerateHeader(iter: nat, name: bytes, ghost j: nat, ghost m: nat)
      returns (more: bool, next: nat, value: bytes, ghost line: nat, ghost seen: nat)
      requires Valid() && AllGood(rawHeaders, SpansOf(rawHeaders)) && Seen(Lines(), name, j, m)
      requires iter == Start(rawHeaders, SpansOf(rawHeaders), j) + m
      ensures more <==> Remaining(Lines(), name, j, m) != []
      ensures more ==> Seen(Lines(), name, line, seen) && next == Start(rawHeaders, SpansOf(rawHeaders), line) + seen
      ensures more ==> value == Remaining(Lines(), name, j, m)[0]
                       && Remaining(Lines(), name, line, seen) == Remaining(Lines(), name, j, m)[1..]
    {
      hide IsRaw, SpansOf, AllEntries, Start, AllGood, SameName, Values, ValuesOf, InText, Headers, IsContinuation;
      ghost var xs, hs := SpansOf(rawHeaders), Lines();
      var i := iter;
      line, seen := j, m;
      Here(rawHeaders, xs, name, j, m);
      if iter == 0 {
        i, line := FindHeader(0, name, 0);
        PassedOver(hs, name, 0, line);
      } else if i < |parsed| && !IsContinuation(parsed[i]) {
        i, line := FindHeader(i, name, j);
        PassedOver(hs, name, j, line);
      }
      NoneOf(hs, name);
      if i >= |parsed| {
        return false, iter, [], j, m;
      }
      line, seen := Next(rawHeaders, xs, hs, name, line, seen);
      next := i + 1;
      value := rawHeaders[parsed[i].valueBegin..parsed[i].valueEnd];
      more := true;
    }

    static lemma NoneOf(hs: seq<Header>, name: bytes)
      ensures ValuesOf(hs, name, |hs|) == []
    {
    }

    method HasHeader(name: bytes) returns (r: bool)
      requires Valid()
      ensures r <==> exists i | 0 <= i < |Lines()| :: SameName(name, Lines()[i].name)
    {
      hide IsRaw, SpansOf, AllEntries, Start, AllGood, SameName, HeadersOf;
      LinesGood(rawHeaders);
      FirstStart(rawHeaders, SpansOf(rawHeaders));
      var i, k := FindHeader(0, name, 0);
      r := i < |parsed|;
    }

    /** Whether a line of that name has that value, case ignored. */
    method HasHeaderValue(name: bytes, value: bytes) returns (r: bool)
      requires Valid()
      ensures r <==> HasValue(Lines(), name, value)
    {
      hide IsRaw, SpansOf, AllEntries, Start, AllGood, SameName, Values, ValuesOf, HeadersOf, HasValue;
      ghost var hs := Lines();
      HasValueIff(hs, name, value);
      LinesGood(rawHeaders);
      FirstStart(rawHeaders, SpansOf(rawHeaders));
      ghost var all, k := Remaining(hs, name, 0, 0), 0;
      ghost var j, m := 0, 0;
      var more, iter, temp;
      more, iter, temp, j, m := EnumerateHeader(0, name, 0, 0);
      while more
        invariant k <= |all| && (more <==> all[k..] != []) && (more ==> temp == all[k])
        invariant more ==> Seen(hs, name, j, m) && iter == Start(rawHeaders, SpansOf(rawHeaders), j) + m
                           && Remaining(hs, name, j, m) == all[k + 1..]
        invariant forall n | 0 <= n < k :: !SameName(all[n], value)
        decreases |all| - k
      {
        if SameName(temp, value) {
          return true;
        }
        k := k + 1;
        more, iter, temp, j, m := EnumerateHeader(iter, name, j, m);
      }
      return false;
    }

    /** One turn of the loop of `GetNormalizedHeader`: the value of the next line of that name. */
    method NextNamed(i: nat, name: bytes, ghost j: nat) returns (more: bool, next: nat, text: bytes, ghost k: nat)
      requires Valid() && AllGood(rawHeaders, SpansOf(rawHeaders)) && j <= |Lines()|
      requires i == Start(rawHeaders, SpansOf(rawHeaders), j)
      ensures j <= k <= |Lines()| && (more ==> j < k && next == Start(rawHeaders, SpansOf(rawHeaders), k))
      ensures TextsOf(Lines(), name, j) == if more then [text] + TextsOf(Lines(), name, k) else []
    {
      hide IsRaw, SpansOf, AllEntries, Start, AllGood, SameName, TextsOf, IsContinuation;
      ghost var xs, hs := SpansOf(rawHeaders), Lines();
      var first;
      first, k := FindHeader(i, name, j);
      TextsPassed(hs, name, j, k);
      NothingJoined(hs, name);
      if first == |parsed| {
        return false, first, [], k;
      }
      TextsNext(hs, name, k);
      GroupShape(rawHeaders, xs, k);
      SpanInText(rawHeaders, xs, k);
      var last := LineEnd(first, k);
      text := rawHeaders[parsed[first].valueBegin..parsed[last].valueEnd];
      more, next, k := true, last + 1, k + 1;
    }

    /** The values of all the lines of that name, joined by commas. */
    method GetNormalizedHeader(name: bytes) returns (found: bool, value: bytes)
      requires Valid()
      ensures found <==> TextsOf(Lines(), name, 0) != []
      ensures value == Join(TextsOf(Lines(), name, 0))
      ensures found && !SingleValued(name) ==>
                (ElementsOf(value) == ValuesOf(Lines(), name, 0) <==> AllClosed(TextsOf(Lines(), name, 0)))
    {
      hide IsRaw, SpansOf, AllEntries, Start, AllGood, ValuesOf, TextsOf, Join, ElementsOf, SingleValued, AllClosed,
           HeadersOf, AllValuesTrimmed;
      ghost var hs := Lines();
      LinesGood(rawHeaders);
      FirstStart(rawHeaders, SpansOf(rawHeaders));
      NothingJoined(hs, name);
      ListTrimmed(rawHeaders);
      found, value := false, [];
      ghost var done: seq<bytes> := [];
      var more, i, text;
      ghost var k: nat;
      more, i, text, k := NextNamed(0, name, 0);
      while more
        invariant k <= |hs| && (more ==> i == Start(rawHeaders, SpansOf(rawHeaders), k))
        invariant TextsOf(hs, name, 0) == done + if more then [text] + TextsOf(hs, name, k) else []
        invariant value == Join(done) && (found <==> done != [])
        decreases more, |hs| - k
      {
        JoinMore(done, text);
        if found {
          value := value + SEPARATOR;
        }
        found := true;
        value := value + text;
        done := done + [text];
        more, i, text, k := NextNamed(i, name, k);
      }
      assert done + [] == done;
      if found && !SingleValued(name) {
        NormalizedIff(hs, name);
      }
    }

    static lemma ListTrimmed(raw: bytes)
      requires IsRaw(raw)
      ensures AllValuesTrimmed(HeadersOf(raw))
    {
      hide IsRaw, SpansOf, AllGood, Headers, AllValuesTrimmed;
      LinesGood(raw);
      LinesTrimmed(raw, SpansOf(raw));
    }

    static lemma NothingJoined(hs: seq<Header>, name: bytes)
      ensures Join([]) == [] && TextsOf(hs, name, |hs|) == []
    {
    }

    // -------------------------------------------------------------- editing

    /** Prints `rawHeaders`, which holds a status line and lines, and after them the lines of this
        object whose names are not to be removed; then parses the whole. */
    method MergeWithHeaders(rawHeaders: bytes, headersToRemove: set<bytes>, ghost status: bytes, ghost ts: seq<bytes>)
      requires Valid() && NUL !in status && AllLines(ts)
      requires rawHeaders == status + [NUL] + After(ts, [NUL])
      modifies this
      ensures Valid() && Lines() == TextHeaders(ts) + Without(old(Lines()), headersToRemove)
      ensures Status() == NormalLine(status, Lines() != [])
    {
      hide IsRaw, SpansOf, AllEntries, Start, AllGood, AllFaithful, Headers, KeptText, SpanHeader, After, LowerAll,
           ChosenTexts, TextHeaders, IsNormal, NormalLine, AllLines, Without, VersionOf, RawOf, Written;
      ghost var raw, xs := this.rawHeaders, SpansOf(this.rawHeaders);
      LinesGood(raw);
      FirstStart(raw, xs);
      var newRaw := rawHeaders;
      var i := 0;
      ghost var j := 0;
      ghost var chosen: seq<bytes> := [];
      NothingChosen(raw, xs, headersToRemove);
      assert ts + chosen == ts;
      while i < |parsed|
        invariant unchanged(this)
        invariant i <= |parsed| && j <= |xs| && i == Start(raw, xs, j)
                  && chosen == ChosenTexts(raw, xs[..j], headersToRemove)
        invariant newRaw == status + [NUL] + After(ts + chosen, [NUL])
        decreases |parsed| - i
      {
        AtEnd(raw, xs, j);
        GroupShape(raw, xs, j);
        var k := LineEnd(i, j);
        SpanInText(raw, xs, j);
        EntryName(raw, xs[j]);
        ChosenNext(raw, xs, headersToRemove, j);
        var name := LowerAll(this.rawHeaders[parsed[i].nameBegin..parsed[i].nameEnd]);
        if name !in headersToRemove {
          ghost var text := KeptText(raw, xs[j]);
          AfterSnoc(ts + chosen, text);
          newRaw := newRaw + this.rawHeaders[parsed[i].nameBegin..parsed[k].valueEnd] + [NUL];
          assert ts + (chosen + [text]) == (ts + chosen) + [text];
          chosen := chosen + [text];
        }
        i := k + 1;
        j := j + 1;
      }
      AtEnd(raw, xs, j);
      assert xs[..j] == xs;
      newRaw := newRaw + [NUL];
      WrittenIs(newRaw, status, ts + chosen);
      ChosenAre(raw, xs, headersToRemove);
      TextHeadersConcat(ts, chosen);
      AfterWriting(status, ts + chosen);
      this.rawHeaders, parsed := [], [];
      Parse(newRaw);
      SameLength(ts + chosen);
    }

    static lemma NothingChosen(raw: bytes, xs: seq<HeaderSpan>, names: set<bytes>)
      requires AllGood(raw, xs)
      ensures ChosenTexts(raw, xs[..0], names) == [] && UpdatedTexts(raw, xs[..0]) == []
    {
    }

    static lemma EntryName(raw: bytes, x: HeaderSpan)
      requires InText(raw, x)
      ensures SpanHeader(raw, x).name == raw[x.begin..x.begin + x.cut.nameEnd]
      ensures KeptText(raw, x) == raw[x.begin..x.begin + x.cut.valueEnd]
    {
    }

    static lemma WrittenIs(raw: bytes, status: bytes, ts: seq<bytes>)
      requires raw == status + [NUL] + After(ts, [NUL]) + [NUL]
      ensures raw == Written(status, ts)
    {
    }

    static lemma SameLength(ts: seq<bytes>)
      requires AllLines(ts)
      ensures |TextHeaders(ts)| == |ts|
    {
    }

    /** The headers stay, under another status line. */
    method ReplaceStatusLine(newStatus: bytes)
      requires Valid() && NUL !in newStatus
      modifies this
      ensures Valid() && Lines() == old(Lines()) && Status() == NormalLine(newStatus, Lines() != [])
    {
      hide IsRaw, IsNormal, NormalLine, HeadersOf, LowerAll, AllEntries, SpansOf, VersionOf;
      var newRaw := newStatus + [NUL];
      assert newRaw == newStatus + [NUL] + After([], [NUL]);
      WithoutNone(Lines());
      MergeWithHeaders(newRaw, {}, newStatus, []);
    }

    static lemma {:induction false} WithoutNone(hs: seq<Header>)
      ensures TextHeaders([]) + Without(hs, {}) == hs
    {
      if hs != [] {
        WithoutNone(hs[..|hs| - 1]);
      }
    }

    /** Takes the headers that a 304 or 206 response brings (section 13.5.3 of RFC 2616): its
        updatable lines, then the old lines that none of them replaces. */
    method Update(newHeaders: HttpResponseHeaders)
      requires Valid() && newHeaders.Valid()
      modifies this
      ensures Valid()
      ensures var updates := Updatable(old(newHeaders.Lines()));
              Lines() == updates + Without(old(Lines()), LowerNames(updates))
      ensures forall name ::
                Named(Lines(), name)
                == if !NeverUpdated(name) && Named(old(newHeaders.Lines()), name) != []
                   then Named(old(newHeaders.Lines()), name) else Named(old(Lines()), name)
      ensures Status() == NormalLine(old(Status()), Lines() != [])
      ensures Status() == old(Status()) <==> !(old(httpVersion) == Version(0, 9) && Lines() != [])
    {
      hide IsRaw, SpansOf, AllEntries, Start, AllGood, AllFaithful, Headers, KeptText, SpanHeader, After, LowerAll,
           UpdatedTexts, TextHeaders, IsNormal, NormalLine, AllLines, Without, Updatable, LowerNames, VersionOf,
           ShouldUpdate, Named, NeverUpdated;
      ghost var raw, xs, status := newHeaders.rawHeaders, SpansOf(newHeaders.rawHeaders), Status();
      LinesGood(raw);
      FirstStart(raw, xs);
      StatusIsNormal(rawHeaders);
      var newRaw := rawHeaders[..Find(rawHeaders, 0, {NUL})] + [NUL];
      var updated: set<bytes> := {};
      var i := 0;
      ghost var j := 0;
      ghost var ts: seq<bytes> := [];
      NothingChosen(raw, xs, {});
      NothingUpdated(raw, xs);
      while i < |newHeaders.parsed|
        invariant unchanged(this)
        invariant i <= |newHeaders.parsed| && j <= |xs| && i == Start(raw, xs, j) && ts == UpdatedTexts(raw, xs[..j])
        invariant updated == LowerNames(Updatable(Headers(raw, xs[..j])))
        invariant newRaw == status + [NUL] + After(ts, [NUL])
        decreases |newHeaders.parsed| - i
      {
        AtEnd(raw, xs, j);
        GroupShape(raw, xs, j);
        var k := newHeaders.LineEnd(i, j);
        SpanInText(raw, xs, j);
        EntryName(raw, xs[j]);
        UpdatedNext(raw, xs, j);
        var name := newHeaders.rawHeaders[newHeaders.parsed[i].nameBegin..newHeaders.parsed[i].nameEnd];
        if ShouldUpdate(name) {
          updated := updated + {LowerAll(name)};
          ghost var text := KeptText(raw, xs[j]);
          AfterSnoc(ts, text);
          newRaw := newRaw + newHeaders.rawHeaders[newHeaders.parsed[i].nameBegin..newHeaders.parsed[k].valueEnd]
              + [NUL];
          ts := ts + [text];
        }
        i := k + 1;
        j := j + 1;
      }
      AtEnd(raw, xs, j);
      assert xs[..j] == xs;
      UpdatedAre(raw, xs);
      MergeWithHeaders(newRaw, updated, status, ts);
      NormalAgainIff(status, Lines() != []);
      forall name {
        UpdateKeepsNames(old(Lines()), old(newHeaders.Lines()), name);
      }
    }

    static lemma StatusIsNormal(raw: bytes)
      requires IsRaw(raw)
      ensures IsNormal(StatusOf(raw)) && NUL !in StatusOf(raw)
    {
    }

    static lemma NothingUpdated(raw: bytes, xs: seq<HeaderSpan>)
      requires AllGood(raw, xs)
      ensures LowerNames(Updatable(Headers(raw, xs[..0]))) == {} && After([], [NUL]) == []
    {
    }

    method RemoveHeader(name: bytes)
      requires Valid()
      modifies this
      ensures Valid() && Lines() == Without(old(Lines()), {LowerAll(name)})
      ensures Status() == NormalLine(old(Status()), Lines() != [])
    {
      hide IsRaw, IsNormal, NormalLine, Without, HeadersOf, LowerAll, AllEntries, SpansOf, VersionOf;
      StatusIsNormal(rawHeaders);
      var newRaw := rawHeaders[..Find(rawHeaders, 0, {NUL})] + [NUL];
      assert newRaw == Status() + [NUL] + After([], [NUL]);
      MergeWithHeaders(newRaw, {LowerAll(name)}, Status(), []);
    }

    method AddHeader(name: bytes, value: bytes)
      requires Valid() && IsName(name) && IsValue(value)
      modifies this
      ensures Valid() && Lines() == old(Lines()) + [Header(name, Trimmed(value))]
      ensures Status()[8..] == old(Status())[8..]
      ensures old(httpVersion) != Version(0, 9) ==> Status() == old(Status())
    {
      hide IsRaw, SpansOf, HeadersOf, AllEntries, NormalLine, IsNormal, VersionOf, Find, IsName, IsValue, Trimmed,
           HasHeaders;
      StatusIsNormal(rawHeaders);
      NotEmpty(rawHeaders);
      var newRaw := rawHeaders[..|rawHeaders| - 1];
      newRaw := newRaw + (name + [COLON, SP] + value);
      newRaw := newRaw + [NUL, NUL];
      AfterAppending(rawHeaders, name, value);
      NormalAgainIff(Status(), HasHeaders(newRaw));
      NormalIsLong(Status(), HasHeaders(newRaw));
      rawHeaders, parsed := [], [];
      Parse(newRaw);
    }

    static lemma NotEmpty(raw: bytes)
      requires IsRaw(raw)
      ensures |raw| >= 2
    {
    }

    /** The old headers of that name go, and the new one is the last. */
    method SetHeader(name: bytes, value: bytes)
      requires Valid() && IsName(name) && IsValue(value)
      modifies this
      ensures Valid()
      ensures Lines() == Without(old(Lines()), {LowerAll(name)}) + [Header(name, Trimmed(value))]
    {
      RemoveHeader(name);
      AddHeader(name, value);
    }
  }
}
