/** The values that a response header line stands for: the elements of its comma-separated list
    (`EnumerateHeader` and the functions that use it, src/http_parser/http_response_headers.cc). */
module ResponseValues {
  import opened Ascii
  import opened Quoting
  import opened HttpText
  import opened ResponseLines

  // ---------------------------------------------------------------- where a list is cut

  /** Where a byte stands with respect to quoted strings. */
  datatype Mode = Outside | Inside | Escape

  /** The mode of position `i`, from the bytes before it: a quote mark opens a quoted string and closes it, and
      inside one a backslash takes the next byte with it. */
  function ModeAt(v: bytes, i: nat): Mode
    requires i <= |v|
  {
    if i == 0 then Outside
    else match ModeAt(v, i - 1)
      case Outside => if v[i - 1] == QUOTE then Inside else Outside
      case Inside => if v[i - 1] == QUOTE then Outside else if v[i - 1] == BACKSLASH then Escape else Inside
      case Escape => Inside
  }

  /** A comma outside quoted strings. */
  predicate CutAt(v: bytes, i: nat) { i < |v| && v[i] == COMMA && ModeAt(v, i).Outside? }

  lemma {:induction false} NextCommaIs(v: bytes, p: nat, inQuote: bool, inEscape: bool)
    requires p <= |v| && ModeAt(v, p) == if !inQuote then Outside else if inEscape then Escape else Inside
    ensures var r := NextComma(v, p, |v|, inQuote, inEscape);
            (r < |v| ==> CutAt(v, r)) && forall i | p <= i < r :: !CutAt(v, i)
    decreases |v| - p
  {
    if p < |v| {
      assert ModeAt(v, p + 1) == match ModeAt(v, p)
                                 case Outside => if v[p] == QUOTE then Inside else Outside
                                 case Inside => if v[p] == QUOTE then Outside
                                                else if v[p] == BACKSLASH then Escape else Inside
                                 case Escape => Inside;
      if inQuote {
        NextCommaIs(v, p + 1, inEscape || v[p] != QUOTE, !inEscape && v[p] == BACKSLASH);
      } else if v[p] != COMMA {
        NextCommaIs(v, p + 1, v[p] == QUOTE, false);
      }
    }
  }

  /** The stretches from `b` on, one after the other: each ends at the next cut, the last at the end. */
  predicate Between(v: bytes, b: nat, r: seq<Stretch>)
    decreases |r|
  {
    && r != [] && r[0].b == b <= r[0].e <= |v| && (forall i | b <= i < r[0].e :: !CutAt(v, i))
    && if |r| == 1 then r[0].e == |v| else CutAt(v, r[0].e) && Between(v, r[0].e + 1, r[1..])
  }

  /** A value is cut at every comma outside quoted strings, and nowhere else. */
  lemma {:induction false} CommasExact(v: bytes, b: nat)
    requires b <= |v| && ModeAt(v, b).Outside?
    ensures Between(v, b, Commas(v, b, |v|))
    decreases |v| - b
  {
    hide NextComma;
    NextCommaIs(v, b, false, false);
    var c := NextComma(v, b, |v|, false, false);
    if c < |v| {
      assert ModeAt(v, c + 1).Outside?;
      CommasExact(v, c + 1);
      var rest := Commas(v, c + 1, |v|);
      assert ([Stretch(b, c)] + rest)[1..] == rest;
    }
  }

  /** Only one sequence of stretches is like that. */
  lemma {:induction false} BetweenOnce(v: bytes, b: nat, r: seq<Stretch>, t: seq<Stretch>)
    requires Between(v, b, r) && Between(v, b, t)
    ensures r == t
    decreases |r|
  {
    hide CutAt;
    NoCutAtEnd(v);
    if |r| > 1 && |t| > 1 {
      BetweenOnce(v, r[0].e + 1, r[1..], t[1..]);
      assert r == [r[0]] + r[1..] && t == [t[0]] + t[1..];
    }
  }

  lemma NoCutAtEnd(v: bytes)
    ensures !CutAt(v, |v|)
  {
  }

  // ---------------------------------------------------------------- quoted strings stay whole

  lemma {:induction false} PairsInside(v: bytes, p: nat, t: bytes)
    requires Pairs(t) && p + |t| < |v| && v[p..p + |t|] == t && ModeAt(v, p).Inside?
    ensures ModeAt(v, p + |t|).Inside? && forall i | p <= i <= p + |t| :: !ModeAt(v, i).Outside?
    decreases |t|
  {
    if t != [] {
      assert v[p] == t[0];
      var n := if t[0] == BACKSLASH then 2 else 1;
      assert n == 2 ==> v[p + 1] == t[1];
      assert v[p + n..p + n + |t[n..]|] == t[n..];
      assert ModeAt(v, p + 1) == if n == 2 then Escape else Inside;
      assert n == 2 ==> ModeAt(v, p + 2) == Inside;
      PairsInside(v, p + n, t[n..]);
    }
  }

  lemma Within(v: bytes, p: nat, w: bytes)
    requires p + |w| <= |v| && v[p..p + |w|] == w
    ensures forall i | 0 <= i < |w| :: v[p + i] == w[i]
    ensures forall i, j | 0 <= i <= j <= |w| :: v[p + i..p + j] == w[i..j]
  {
    forall i | 0 <= i < |w| ensures v[p + i] == w[i] {
      assert v[p..p + |w|][i] == v[p + i];
    }
  }

  /** No cut goes through a quoted string, whatever is in it. */
  lemma QuotedWhole(v: bytes, p: nat, s: bytes)
    requires p <= |v| && ModeAt(v, p).Outside? && p + |Escaped(s)| + 2 <= |v|
    requires v[p..p + |Escaped(s)| + 2] == [QUOTE] + Escaped(s) + [QUOTE]
    ensures var e := p + |Escaped(s)| + 2;
            ModeAt(v, e).Outside? && forall i | p <= i < e :: !CutAt(v, i)
  {
    hide Escaped, Pairs;
    var t, q := Escaped(s), p + 1 + |Escaped(s)|;
    UnescapedEscaped(s);
    var w := [QUOTE] + t + [QUOTE];
    Within(v, p, w);
    assert v[p + 1..p + 1 + |t|] == w[1..1 + |t|];
    assert w[1..1 + |t|] == t;
    PairsInside(v, p + 1, t);
  }

  // ---------------------------------------------------------------- the values of a line

  /** Names whose value is not a list, however many commas it has. */
  predicate SingleValued(name: bytes) {
    var n := LowerAll(name);
    || Spells(n, "date") || Spells(n, "expires") || Spells(n, "last-modified") || Spells(n, "location")
    || Spells(n, "retry-after") || Spells(n, "set-cookie") || Spells(n, "www-authenticate")
    || Spells(n, "proxy-authenticate") || Spells(n, "strict-transport-security")
  }

  lemma NonCoalescingIff(name: bytes)
    ensures NonCoalescing(name) <==> SingleValued(name)
  {
    hide Spells, LowerAll;
    assert NON_COALESCING[0] == "date" && NON_COALESCING[1] == "expires" && NON_COALESCING[2] == "last-modified";
    assert NON_COALESCING[3] == "location" && NON_COALESCING[4] == "retry-after" && NON_COALESCING[5] == "set-cookie";
    assert NON_COALESCING[6] == "www-authenticate" && NON_COALESCING[7] == "proxy-authenticate";
    assert NON_COALESCING[8] == "strict-transport-security";
  }

  function Cut(v: bytes, r: seq<Stretch>): (ts: seq<bytes>)
    requires forall k | 0 <= k < |r| :: r[k].b <= r[k].e <= |v|
    ensures |ts| == |r|
  {
    seq(|r|, k requires 0 <= k < |r| => Trimmed(v[r[k].b..r[k].e]))
  }

  /** The values of a header: the whole text, or the elements of the list without the blanks around them. */
  function Values(h: Header): seq<bytes> {
    if h.value == [] || NonCoalescing(h.name) then [h.value] else Cut(h.value, Commas(h.value, 0, |h.value|))
  }

  /** In words of the text alone. */
  lemma ValuesIff(h: Header, ts: seq<bytes>)
    ensures Values(h) == ts <==>
              if h.value == [] || SingleValued(h.name) then ts == [h.value]
              else exists r :: Elements(h.value, r, ts)
  {
    hide NonCoalescing, SingleValued, Commas, Between, Trimmed;
    NonCoalescingIff(h.name);
    if h.value != [] && !SingleValued(h.name) {
      var all := Commas(h.value, 0, |h.value|);
      CommasExact(h.value, 0);
      assert Values(h) == ts ==> Elements(h.value, all, ts);
      if r :| Elements(h.value, r, ts) {
        BetweenOnce(h.value, 0, r, all);
      }
    }
  }

  /** The stretches between the cuts, and their texts. */
  predicate Elements(v: bytes, r: seq<Stretch>, ts: seq<bytes>) {
    && Between(v, 0, r) && |ts| == |r|
    && forall k | 0 <= k < |r| :: r[k].b <= r[k].e <= |v| && ts[k] == Trimmed(v[r[k].b..r[k].e])
  }

  // ---------------------------------------------------------------- positions in the raw text

  predicate Copied(s: bytes, d: nat, v: bytes) { d + |v| <= |s| && forall i | 0 <= i < |v| :: s[d + i] == v[i] }

  lemma {:induction false} NextCommaShift(s: bytes, d: nat, v: bytes, p: nat, inQuote: bool, inEscape: bool)
    requires Copied(s, d, v) && p <= |v|
    ensures NextComma(s, d + p, d + |v|, inQuote, inEscape) == d + NextComma(v, p, |v|, inQuote, inEscape)
    decreases |v| - p
  {
    if p < |v| {
      assert s[d + p] == v[p];
      if inQuote {
        NextCommaShift(s, d, v, p + 1, inEscape || v[p] != QUOTE, !inEscape && v[p] == BACKSLASH);
      } else if v[p] != COMMA {
        NextCommaShift(s, d, v, p + 1, v[p] == QUOTE, false);
      }
    }
  }

  function Shifted(d: nat, r: seq<Stretch>): seq<Stretch> {
    if r == [] then [] else [Stretch(d + r[0].b, d + r[0].e)] + Shifted(d, r[1..])
  }

  lemma {:induction false} ShiftedAt(d: nat, r: seq<Stretch>)
    ensures |Shifted(d, r)| == |r|
    ensures forall k | 0 <= k < |r| :: Shifted(d, r)[k] == Stretch(d + r[k].b, d + r[k].e)
  {
    if r != [] {
      ShiftedAt(d, r[1..]);
    }
  }

  lemma CommasMore(s: bytes, b: nat, e: nat, c: nat)
    requires b <= e <= |s| && c == NextComma(s, b, e, false, false) < e
    ensures Commas(s, b, e) == [Stretch(b, c)] + Commas(s, c + 1, e)
  {
  }

  lemma CommasOver(s: bytes, b: nat, e: nat)
    requires b <= e <= |s| && NextComma(s, b, e, false, false) == e
    ensures Commas(s, b, e) == [Stretch(b, e)]
  {
  }

  lemma {:induction false} CommasShift(s: bytes, d: nat, v: bytes, b: nat)
    requires Copied(s, d, v) && d + |v| <= |s| && b <= |v|
    ensures Commas(s, d + b, d + |v|) == Shifted(d, Commas(v, b, |v|))
    decreases |v| - b
  {
    hide NextComma, Copied, Commas, Shifted;
    NextCommaShift(s, d, v, b, false, false);
    var c := NextComma(v, b, |v|, false, false);
    if c < |v| {
      CommasShift(s, d, v, c + 1);
      CommasMore(v, b, |v|, c);
      CommasMore(s, d + b, d + |v|, d + c);
      ShiftedFirst(d, Stretch(b, c), Commas(v, c + 1, |v|));
    } else {
      CommasOver(v, b, |v|);
      CommasOver(s, d + b, d + |v|);
      ShiftedFirst(d, Stretch(b, c), []);
    }
  }

  lemma ShiftedFirst(d: nat, x: Stretch, rest: seq<Stretch>)
    ensures Shifted(d, [x] + rest) == [Stretch(d + x.b, d + x.e)] + Shifted(d, rest)
    ensures Shifted(d, [x]) == [Stretch(d + x.b, d + x.e)]
  {
    assert ([x] + rest)[1..] == rest;
  }

  lemma TrimPositions(s: bytes, t: bytes, b: nat)
    requires Copied(s, b, t)
    ensures var i := SkipLws(t, 0, |t|);
            && SkipLws(s, b, b + |t|) == b + i
            && DropLws(s, b + i, b + |t|) == b + DropLws(t, i, |t|)
  {
    hide SkipLws, DropLws;
    SkipLwsShift(s, t, 0, |t|, b);
    DropLwsShift(s, t, SkipLws(t, 0, |t|), |t|, b);
  }

  lemma TrimmedPart(t: bytes, i: nat, j: nat)
    requires i == SkipLws(t, 0, |t|) && j == DropLws(t, i, |t|)
    ensures Trimmed(t) == t[i..j]
  {
    hide SkipLws, DropLws, IsBlank;
  }

  lemma TrimmedSlice(s: bytes, b: nat, e: nat, i: nat, j: nat)
    requires b <= e <= |s| && i <= j <= e - b && Trimmed(s[b..e]) == s[b..e][i..j]
    ensures s[b + i..b + j] == Trimmed(s[b..e])
  {
    hide Trimmed;
    SliceOfSlice(s, b, e, i, j);
  }

  lemma TrimmedAt(s: bytes, b: nat, e: nat)
    requires b <= e <= |s|
    ensures var i := SkipLws(s, b, e); s[i..DropLws(s, i, e)] == Trimmed(s[b..e])
  {
    hide SkipLws, DropLws, Copied, IsBlank, Trimmed;
    var t := s[b..e];
    var i := SkipLws(t, 0, |t|);
    var j := DropLws(t, i, |t|);
    SliceCopied(s, b, e);
    TrimPositions(s, t, b);
    TrimmedPart(t, i, j);
    TrimmedSlice(s, b, e, i, j);
  }

  lemma SliceCopied(s: bytes, b: nat, e: nat)
    requires b <= e <= |s|
    ensures Copied(s, b, s[b..e])
  {
  }

  /** The text of an entry. */
  function EntryText(raw: bytes, h: ParsedHeader): bytes
    requires h.valueBegin <= h.valueEnd <= |raw|
  {
    raw[h.valueBegin..h.valueEnd]
  }

  lemma ValueAt(raw: bytes, x: HeaderSpan, pieces: seq<Stretch>, k: nat, d: nat, v: bytes, b: nat, e: nat)
    requires InText(raw, x) && k < |pieces| && forall i | 0 <= i < |pieces| :: pieces[i].b <= pieces[i].e <= |raw|
    requires d + |v| <= |raw| && v == raw[d..d + |v|] && b <= e <= |v| && pieces[k] == Stretch(d + b, d + e)
    ensures var h := ValueEntry(raw, x, pieces, k);
            h.valueBegin <= h.valueEnd <= |raw| && EntryText(raw, h) == Trimmed(v[b..e])
  {
    hide SkipLws, DropLws, Trimmed;
    TrimmedAt(raw, d + b, d + e);
    SliceOfSlice(raw, d, d + |v|, b, e);
  }

  /** The entries of a line are its values, in order. */
  lemma EntriesAreValues(raw: bytes, x: HeaderSpan)
    requires InText(raw, x)
    ensures var es, vs := Entries(raw, x), Values(SpanHeader(raw, x));
            |es| == |vs| && forall k | 0 <= k < |es| ::
              es[k].valueBegin <= es[k].valueEnd <= |raw| && EntryText(raw, es[k]) == vs[k]
  {
    hide Commas, NonCoalescing, ValueEntry, EntryText, Trimmed, Shifted;
    if OneValue(raw, x) {
      OneText(raw, x);
    } else {
      ListTexts(raw, x);
    }
  }

  lemma OneText(raw: bytes, x: HeaderSpan)
    requires InText(raw, x) && OneValue(raw, x)
    ensures Values(SpanHeader(raw, x)) == [SpanHeader(raw, x).value]
    ensures Entries(raw, x) == [ParsedHeader(x.begin, x.begin + x.cut.nameEnd, x.begin + x.cut.valueBegin,
                                             x.begin + x.cut.valueEnd)]
    ensures EntryText(raw, Entries(raw, x)[0]) == SpanHeader(raw, x).value
  {
    hide NonCoalescing, Commas;
  }

  lemma ListTexts(raw: bytes, x: HeaderSpan)
    requires InText(raw, x) && !OneValue(raw, x)
    ensures var es, vs := Entries(raw, x), Values(SpanHeader(raw, x));
            |es| == |vs| && forall k | 0 <= k < |es| ::
              es[k].valueBegin <= es[k].valueEnd <= |raw| && EntryText(raw, es[k]) == vs[k]
  {
    hide Commas, NonCoalescing, ValueEntry, EntryText, Trimmed, Shifted;
    var v, d := SpanHeader(raw, x).value, x.begin + x.cut.valueBegin;
    var r, t := Commas(v, 0, |v|), Commas(raw, d, d + |v|);
    CommasShift(raw, d, v, 0);
    ShiftedAt(d, r);
    forall k | 0 <= k < |r|
      ensures var h := ValueEntry(raw, x, t, k);
              h.valueBegin <= h.valueEnd <= |raw| && EntryText(raw, h) == Trimmed(v[r[k].b..r[k].e])
    {
      ValueAt(raw, x, t, k, d, v, r[k].b, r[k].e);
    }
  }

  // ---------------------------------------------------------------- the values of a name

  /** The values of all the lines of that name, from the `j`th line on, in order. */
  function ValuesOf(hs: seq<Header>, name: bytes, j: nat): seq<bytes>
    requires j <= |hs|
    decreases |hs| - j
  {
    if j == |hs| then []
    else (if SameName(name, hs[j].name) then Values(hs[j]) else []) + ValuesOf(hs, name, j + 1)
  }

  /** A value is among them if and only if a line of that name has it. */
  lemma {:induction false} ValuesOfIff(hs: seq<Header>, name: bytes, j: nat, v: bytes)
    requires j <= |hs|
    ensures v in ValuesOf(hs, name, j) <==> exists i | j <= i < |hs| :: SameName(name, hs[i].name) && v in Values(hs[i])
    decreases |hs| - j
  {
    hide SameName, Values;
    if j < |hs| {
      ValuesOfIff(hs, name, j + 1, v);
    }
  }

  lemma ValuesNotEmpty(h: Header)
    ensures Values(h) != []
  {
  }

  /** A point between two values of a name: `m` values of the `j`th line have been seen. */
  predicate Seen(hs: seq<Header>, name: bytes, j: nat, m: nat) {
    j <= |hs| && (m > 0 ==> j < |hs| && SameName(name, hs[j].name) && m < |Values(hs[j])|)
  }

  /** The values still to come when `m` values of the `j`th line have been seen. */
  function Remaining(hs: seq<Header>, name: bytes, j: nat, m: nat): seq<bytes>
    requires j <= |hs| && (m > 0 ==> j < |hs| && m <= |Values(hs[j])|)
  {
    if m == 0 then ValuesOf(hs, name, j) else Values(hs[j])[m..] + ValuesOf(hs, name, j + 1)
  }

  /** The entries of the `j`th line are its values. */
  lemma GroupValues(raw: bytes, xs: seq<HeaderSpan>, j: nat, m: nat)
    requires AllGood(raw, xs) && j < |xs| && InText(raw, xs[j]) && m < |Values(SpanHeader(raw, xs[j]))|
    ensures var es, i := AllEntries(raw, xs), Start(raw, xs, j);
            && Start(raw, xs, j + 1) == i + |Values(SpanHeader(raw, xs[j]))| <= |es|
            && es[i + m].valueBegin <= es[i + m].valueEnd <= |raw|
            && EntryText(raw, es[i + m]) == Values(SpanHeader(raw, xs[j]))[m]
  {
    hide Entries, AllEntries, Values, SpanHeader, EntryText;
    var es, i, k := AllEntries(raw, xs), Start(raw, xs, j), Start(raw, xs, j + 1);
    EntriesAt(raw, xs, j);
    EntriesAreValues(raw, xs[j]);
    assert es[i + m] == es[i..k][m];
  }

  lemma StartsAfter(raw: bytes, xs: seq<HeaderSpan>, j: nat)
    requires AllGood(raw, xs) && j <= |xs| && Start(raw, xs, j) == 0
    ensures j == 0
  {
    hide AllEntries, AllGood, Start;
    if j > 0 {
      GroupShape(raw, xs, j - 1);
    }
  }

  /** Seen one value more: of the same line, or all of it. */
  lemma OneSeen(hs: seq<Header>, name: bytes, j: nat, m: nat)
    requires j < |hs| && SameName(name, hs[j].name) && m < |Values(hs[j])|
    ensures Remaining(hs, name, j, m) != [] && Remaining(hs, name, j, m)[0] == Values(hs[j])[m]
    ensures Remaining(hs, name, j, m)[1..]
            == if m + 1 < |Values(hs[j])| then Remaining(hs, name, j, m + 1) else Remaining(hs, name, j + 1, 0)
  {
    hide Values, SameName;
    var vs, rest := Values(hs[j]), ValuesOf(hs, name, j + 1);
    assert vs[0..] == vs;
    assert (vs[m..] + rest)[1..] == vs[m + 1..] + rest;
    assert m + 1 == |vs| ==> vs[m + 1..] + rest == rest;
  }

  /** Lines of other names are passed over. */
  lemma {:induction false} PassedOver(hs: seq<Header>, name: bytes, j: nat, k: nat)
    requires j <= k <= |hs| && forall i | j <= i < k :: !SameName(name, hs[i].name)
    ensures ValuesOf(hs, name, j) == ValuesOf(hs, name, k)
    decreases k - j
  {
    hide Values, SameName;
    if j < k {
      PassedOver(hs, name, j + 1, k);
    }
  }

  lemma EntryKind(raw: bytes, xs: seq<HeaderSpan>, j: nat, m: nat)
    requires AllGood(raw, xs) && j < |xs| && InText(raw, xs[j]) && m < |Values(SpanHeader(raw, xs[j]))|
    ensures var i := Start(raw, xs, j) + m;
            i < |AllEntries(raw, xs)| && (IsContinuation(AllEntries(raw, xs)[i]) <==> m > 0)
  {
    hide Entries, AllEntries, Values, SpanHeader, EntryText, AllGood, Start;
    GroupValues(raw, xs, j, m);
    GroupShape(raw, xs, j);
  }

  /** A line of that name has that value, case ignored. */
  predicate HasValue(hs: seq<Header>, name: bytes, value: bytes) {
    exists i | 0 <= i < |hs| :: SameName(name, hs[i].name) && exists v | v in Values(hs[i]) :: SameName(v, value)
  }

  lemma HasValueIff(hs: seq<Header>, name: bytes, value: bytes)
    ensures HasValue(hs, name, value) <==> exists v | v in ValuesOf(hs, name, 0) :: SameName(v, value)
  {
    hide Values, SameName, ValuesOf;
    if v :| v in ValuesOf(hs, name, 0) && SameName(v, value) {
      ValuesOfIff(hs, name, 0, v);
    }
    if i :| 0 <= i < |hs| && SameName(name, hs[i].name) && exists v | v in Values(hs[i]) :: SameName(v, value) {
      var v :| v in Values(hs[i]) && SameName(v, value);
      ValuesOfIff(hs, name, 0, v);
    }
  }

  /** Where the entries of the `k`th line begin there is a name, and behind it continuations only. */
  lemma AtStart(raw: bytes, xs: seq<HeaderSpan>, k: nat)
    requires AllGood(raw, xs) && k <= |xs|
    ensures var es, i := AllEntries(raw, xs), Start(raw, xs, k);
            && i <= |es| && (i < |es| <==> k < |xs|)
            && (k < |xs| ==>
                  && InText(raw, xs[k]) && !IsContinuation(es[i]) && es[i].nameBegin <= es[i].nameEnd <= |raw|
                  && raw[es[i].nameBegin..es[i].nameEnd] == SpanHeader(raw, xs[k]).name
                  && i < Start(raw, xs, k + 1) <= |es|
                  && forall n | i < n < Start(raw, xs, k + 1) :: IsContinuation(es[n]))
  {
    hide AllEntries, Start;
    if k < |xs| {
      GroupShape(raw, xs, k);
    } else {
      StartsLast(raw, xs);
    }
  }

  lemma StartsLast(raw: bytes, xs: seq<HeaderSpan>)
    requires AllGood(raw, xs)
    ensures Start(raw, xs, |xs|) == |AllEntries(raw, xs)|
  {
    assert xs[..|xs|] == xs;
  }

  /** The entry at a point between two values. */
  lemma Here(raw: bytes, xs: seq<HeaderSpan>, name: bytes, j: nat, m: nat)
    requires AllGood(raw, xs) && Seen(Headers(raw, xs), name, j, m)
    ensures var es, i := AllEntries(raw, xs), Start(raw, xs, j) + m;
            && (j < |xs| ==> i < |es| && (IsContinuation(es[i]) <==> m > 0))
            && (j == |xs| ==> i == |es| && m == 0)
            && (i == 0 ==> j == 0 && m == 0)
  {
    hide AllEntries, Start, Values, SpanHeader, SameName, IsContinuation;
    if j < |xs| {
      ValuesNotEmpty(Headers(raw, xs)[j]);
      EntryKind(raw, xs, j, m);
    } else {
      StartsLast(raw, xs);
    }
    if Start(raw, xs, j) == 0 {
      StartsAfter(raw, xs, j);
    }
  }

  /** The value that is seen next. */
  lemma Next(raw: bytes, xs: seq<HeaderSpan>, hs: seq<Header>, name: bytes, j: nat, m: nat)
    returns (line: nat, seen: nat)
    requires AllGood(raw, xs) && hs == Headers(raw, xs) && Seen(hs, name, j, m)
    requires j < |xs| && SameName(name, hs[j].name)
    ensures line <= |xs| && Start(raw, xs, line) + seen == Start(raw, xs, j) + m + 1 && Seen(hs, name, line, seen)
    ensures var es, i := AllEntries(raw, xs), Start(raw, xs, j) + m;
            && i < |es| && es[i].valueBegin <= es[i].valueEnd <= |raw|
            && Remaining(hs, name, j, m) == [EntryText(raw, es[i])] + Remaining(hs, name, line, seen)
  {
    hide AllEntries, Start, Values, SpanHeader, SameName, EntryText, Remaining;
    ValuesNotEmpty(hs[j]);
    GroupValues(raw, xs, j, m);
    OneSeen(hs, name, j, m);
    if m + 1 < |Values(hs[j])| {
      line, seen := j, m + 1;
    } else {
      line, seen := j + 1, 0;
    }
  }
}
