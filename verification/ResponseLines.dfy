/** The parsed form of raw response headers: one entry for each value of a comma-separated list,
    kept as positions in the raw text (src/http_parser/http_response_headers.cc). */
module ResponseLines {
  import opened Ascii
  import opened Quoting
  import opened HttpText
  import opened RawHeaders

  // ---------------------------------------------------------------- comma-separated values

  /** The first comma from `p` that is not inside quote marks, or `e`. Inside them a backslash
      escapes the byte after it. */
  function NextComma(s: bytes, p: nat, e: nat, inQuote: bool, inEscape: bool): (r: nat)
    requires p <= e <= |s|
    ensures p <= r <= e
    decreases e - p
  {
    if p == e then e
    else if inQuote then
      NextComma(s, p + 1, e, inEscape || s[p] != QUOTE, !inEscape && s[p] == BACKSLASH)
    else if s[p] == COMMA then p
    else NextComma(s, p + 1, e, s[p] == QUOTE, false)
  }

  /** The stretches between those commas, the empty ones too. */
  function Commas(s: bytes, b: nat, e: nat): (r: seq<Stretch>)
    requires b <= e <= |s|
    ensures r != [] && r[0].b == b && r[|r| - 1].e == e
    ensures forall i | 0 <= i < |r| :: b <= r[i].b <= r[i].e <= e
    decreases e - b
  {
    var c := NextComma(s, b, e, false, false);
    if c == e then [Stretch(b, e)] else [Stretch(b, c)] + Commas(s, c + 1, e)
  }

  /** Headers whose value is not a comma-separated list. */
  const NON_COALESCING := [
    "date", "expires", "last-modified", "location", "retry-after", "set-cookie", "www-authenticate",
    "proxy-authenticate", "strict-transport-security"]

  /** `IsNonCoalescingHeader`. */
  predicate NonCoalescing(name: bytes) { OneOf(name, NON_COALESCING) }

  // ---------------------------------------------------------------- entries

  /** `ParsedHeader`: positions of a name and a value. A further value of the same line has no name:
      both positions are the end of the text. */
  datatype ParsedHeader = ParsedHeader(nameBegin: nat, nameEnd: nat, valueBegin: nat, valueEnd: nat)

  predicate IsContinuation(h: ParsedHeader) { h.nameBegin == h.nameEnd }

  /** A header line at `begin`, cut into name and value. */
  datatype HeaderSpan = HeaderSpan(begin: nat, cut: LineCut)

  predicate InText(raw: bytes, x: HeaderSpan) {
    && 0 < x.cut.nameEnd < x.cut.valueBegin <= x.cut.valueEnd && x.begin + x.cut.valueEnd <= |raw|
  }

  /** The entry of the `i`th value of a list. */
  function ValueEntry(raw: bytes, x: HeaderSpan, pieces: seq<Stretch>, i: nat): ParsedHeader
    requires InText(raw, x) && i < |pieces|
    requires forall k | 0 <= k < |pieces| :: pieces[k].b <= pieces[k].e <= |raw|
  {
    var b := SkipLws(raw, pieces[i].b, pieces[i].e);
    var e := DropLws(raw, b, pieces[i].e);
    if i == 0 then ParsedHeader(x.begin, x.begin + x.cut.nameEnd, b, e) else ParsedHeader(|raw|, |raw|, b, e)
  }

  predicate OneValue(raw: bytes, x: HeaderSpan)
    requires InText(raw, x)
  {
    x.cut.valueBegin == x.cut.valueEnd || NonCoalescing(raw[x.begin..x.begin + x.cut.nameEnd])
  }

  /** `AddHeader`: the entries of one line. */
  function Entries(raw: bytes, x: HeaderSpan): (r: seq<ParsedHeader>)
    requires InText(raw, x)
  {
    if OneValue(raw, x) then
      [ParsedHeader(x.begin, x.begin + x.cut.nameEnd, x.begin + x.cut.valueBegin, x.begin + x.cut.valueEnd)]
    else
      var pieces := Commas(raw, x.begin + x.cut.valueBegin, x.begin + x.cut.valueEnd);
      seq(|pieces|, i requires 0 <= i < |pieces| => ValueEntry(raw, x, pieces, i))
  }

  /** White space does not surround the value. */
  predicate TrimmedSpan(raw: bytes, x: HeaderSpan)
    requires InText(raw, x)
  {
    x.cut.valueBegin < x.cut.valueEnd ==>
      !IsBlank(raw[x.begin + x.cut.valueBegin]) && !IsBlank(raw[x.begin + x.cut.valueEnd - 1])
  }

  /** However the value is split, its entries begin with the name, begin and end where the value
      does, and only the first has a name. */
  lemma EntriesShape(raw: bytes, x: HeaderSpan)
    requires InText(raw, x) && TrimmedSpan(raw, x)
    ensures var r := Entries(raw, x);
            && r != [] && r[0].nameBegin == x.begin && r[0].nameEnd == x.begin + x.cut.nameEnd
            && r[0].valueBegin == x.begin + x.cut.valueBegin
            && r[|r| - 1].valueEnd == x.begin + x.cut.valueEnd
            && forall i | 0 < i < |r| :: IsContinuation(r[i])
  {
    hide Commas, NonCoalescing, IsBlank;
    if !OneValue(raw, x) {
      var vb, ve := x.begin + x.cut.valueBegin, x.begin + x.cut.valueEnd;
      var pieces := Commas(raw, vb, ve);
      FirstUntrimmed(raw, vb, pieces[0].e);
      LastUntrimmed(raw, pieces[|pieces| - 1].b, ve);
    }
  }

  lemma FirstUntrimmed(s: bytes, b: nat, e: nat)
    requires b <= e <= |s| && b < |s| && !IsBlank(s[b])
    ensures SkipLws(s, b, e) == b
  {
  }

  lemma LastUntrimmed(s: bytes, b: nat, e: nat)
    requires b <= e <= |s| && 0 < e && !IsBlank(s[e - 1])
    ensures DropLws(s, SkipLws(s, b, e), e) == e
  {
  }

  // ---------------------------------------------------------------- lines

  /** The header lines among the tokens, in order; other lines are passed over. */
  function Spans(raw: bytes, tokens: seq<Stretch>): (r: seq<HeaderSpan>)
    requires forall i | 0 <= i < |tokens| :: tokens[i].b < tokens[i].e <= |raw|
    ensures forall i | 0 <= i < |r| :: InText(raw, r[i])
  {
    if tokens == [] then []
    else
      var n := |tokens| - 1;
      var line := raw[tokens[n].b..tokens[n].e];
      var c := CutLine(line);
      Spans(raw, tokens[..n]) + if c.Some? then [HeaderSpan(tokens[n].b, c.value)] else []
  }

  function LinesFrom(raw: bytes, from: nat): (r: seq<HeaderSpan>)
    requires from <= |raw|
    ensures forall i | 0 <= i < |r| :: InText(raw, r[i])
  {
    Spans(raw, Tokens(raw, from, {NUL}))
  }

  function AllEntries(raw: bytes, xs: seq<HeaderSpan>): seq<ParsedHeader>
    requires forall i | 0 <= i < |xs| :: InText(raw, xs[i])
  {
    if xs == [] then [] else AllEntries(raw, xs[..|xs| - 1]) + Entries(raw, xs[|xs| - 1])
  }

  function SpanHeader(raw: bytes, x: HeaderSpan): Header
    requires InText(raw, x)
  {
    Header(raw[x.begin..x.begin + x.cut.nameEnd], raw[x.begin + x.cut.valueBegin..x.begin + x.cut.valueEnd])
  }

  /** The headers of a raw text. */
  function Headers(raw: bytes, xs: seq<HeaderSpan>): (r: seq<Header>)
    requires forall i | 0 <= i < |xs| :: InText(raw, xs[i])
    ensures |r| == |xs|
  {
    seq(|xs|, i requires 0 <= i < |xs| => SpanHeader(raw, xs[i]))
  }

  // ---------------------------------------------------------------- groups of entries

  predicate AllGood(raw: bytes, xs: seq<HeaderSpan>) {
    forall i | 0 <= i < |xs| :: InText(raw, xs[i]) && TrimmedSpan(raw, xs[i])
  }

  /** Where the entries of the `j`th line begin. */
  function Start(raw: bytes, xs: seq<HeaderSpan>, j: nat): nat
    requires AllGood(raw, xs) && j <= |xs|
  {
    |AllEntries(raw, xs[..j])|
  }

  lemma {:induction false} EntriesAt(raw: bytes, xs: seq<HeaderSpan>, j: nat)
    requires AllGood(raw, xs) && j < |xs|
    ensures var es := AllEntries(raw, xs);
            && Start(raw, xs, j + 1) == Start(raw, xs, j) + |Entries(raw, xs[j])| <= |es|
            && es[Start(raw, xs, j)..Start(raw, xs, j + 1)] == Entries(raw, xs[j])
            && Start(raw, xs, |xs|) == |es|
  {
    hide Entries;
    assert xs[..|xs|] == xs;
    assert xs[..j + 1][..j] == xs[..j];
    EntriesPrefix(raw, xs, j + 1);
  }

  lemma {:induction false} EntriesPrefix(raw: bytes, xs: seq<HeaderSpan>, j: nat)
    requires AllGood(raw, xs) && j <= |xs|
    ensures Start(raw, xs, j) <= |AllEntries(raw, xs)|
    ensures AllEntries(raw, xs)[..Start(raw, xs, j)] == AllEntries(raw, xs[..j])
  {
    hide Entries;
    if j == |xs| {
      assert xs[..j] == xs;
    } else {
      var ys := xs[..|xs| - 1];
      EntriesPrefix(raw, ys, j);
      assert ys[..j] == xs[..j];
    }
  }

  /** The entries of a line are a head with a name and continuations up to the next head. */
  lemma GroupShape(raw: bytes, xs: seq<HeaderSpan>, j: nat)
    requires AllGood(raw, xs) && j < |xs|
    ensures var es, i, k := AllEntries(raw, xs), Start(raw, xs, j), Start(raw, xs, j + 1);
            && i < k <= |es|
            && es[i].nameBegin == xs[j].begin && es[i].nameEnd == xs[j].begin + xs[j].cut.nameEnd
            && es[i].valueBegin == xs[j].begin + xs[j].cut.valueBegin
            && es[k - 1].valueEnd == xs[j].begin + xs[j].cut.valueEnd
            && (forall m | i < m < k :: IsContinuation(es[m]))
            && (k < |es| <==> j + 1 < |xs|) && (k < |es| ==> !IsContinuation(es[k]))
  {
    hide Entries, AllEntries;
    var es, i, k := AllEntries(raw, xs), Start(raw, xs, j), Start(raw, xs, j + 1);
    EntriesAt(raw, xs, j);
    EntriesShape(raw, xs[j]);
    var r := Entries(raw, xs[j]);
    assert forall m | i <= m < k :: es[m] == es[i..k][m - i] == r[m - i];
    if j + 1 < |xs| {
      EntriesAt(raw, xs, j + 1);
      EntriesShape(raw, xs[j + 1]);
      assert es[k] == es[k..Start(raw, xs, j + 2)][0];
    }
  }
}
