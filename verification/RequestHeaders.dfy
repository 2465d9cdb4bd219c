/** `HttpRequestHeaders` of src/http_parser/http_request_headers.cc: a list of headers with no name
    twice, its text form, and the reading of that text. */
module RequestHeaders {
  import opened Ascii
  import opened Quoting
  import opened HttpText

  /** The position of the header with this name, or the length of the list. */
  function Position(hs: seq<Header>, key: bytes): (r: nat)
    ensures r <= |hs| && (r < |hs| ==> SameName(key, hs[r].name))
    ensures forall i | 0 <= i < r :: !SameName(key, hs[i].name)
  {
    if hs == [] || SameName(key, hs[0].name) then 0 else 1 + Position(hs[1..], key)
  }

  /** No two names are the same but for case. */
  predicate Unique(hs: seq<Header>) {
    forall i, j | 0 <= i < j < |hs| :: !SameName(hs[i].name, hs[j].name)
  }

  /** The list after a header is set: the value replaced where the name stands, name and order
      kept; or a new header at the end. */
  function Set(hs: seq<Header>, key: bytes, value: bytes): (r: seq<Header>)
    ensures Unique(hs) ==> Unique(r)
  {
    var i := Position(hs, key);
    if i < |hs| then hs[i := Header(hs[i].name, value)] else hs + [Header(key, value)]
  }

  function Get(hs: seq<Header>, key: bytes): Option<bytes> {
    var i := Position(hs, key);
    if i < |hs| then Some(hs[i].value) else None
  }

  /** Reading after writing: the header set has the new value, every other has its own. */
  lemma GetSet(hs: seq<Header>, key: bytes, value: bytes, other: bytes)
    requires Unique(hs)
    ensures Get(Set(hs, key, value), other) == if SameName(key, other) then Some(value) else Get(hs, other)
  {
    hide LowerAll;
    var r := Set(hs, key, value);
    var p, i, k := Position(hs, key), Position(hs, other), Position(r, other);
    assert forall n | 0 <= n < |hs| :: r[n].name == hs[n].name;
    if i < |hs| {
      assert k == i;
      assert SameName(key, other) <==> p == i;
    } else {
      assert k >= |hs|;
      assert p == |hs| ==> r[|hs|].name == key;
      assert p < |hs| ==> !SameName(key, other);
    }
  }

  // ---------------------------------------------------------------- one line

  /** `AddHeaderFromString`: what a line adds, if anything. */
  function LineHeader(line: bytes): (r: Option<Header>)
    ensures r.Some? ==> IsName(r.value.name) && IsValue(r.value.value)
  {
    var colon := Find(line, 0, {COLON});
    if colon == |line| || colon == 0 || !IsName(line[..colon]) then None
    else if colon + 1 < |line| then
      var value := Trimmed(line[colon + 1..]);
      if IsValue(value) then Some(Header(line[..colon], value)) else None
    else Some(Header(line[..colon], []))
  }

  /** A name, a colon, blanks, a value and blanks; no NUL and no line break in the value. */
  ghost predicate RequestText(line: bytes, h: Header) {
    IsValue(h.value) && exists n: nat, b: nat, e: nat :: HeaderAt(line, h, n, n, b, e)
  }

  /** A line is read as a header if and only if it is the name, a colon, any blanks, the value and any
      blanks. */
  lemma LineHeaderIff(line: bytes, h: Header)
    ensures LineHeader(line) == Some(h) <==> RequestText(line, h)
  {
    hide LineHeader, IsValue, HeaderAt;
    if RequestText(line, h) {
      var n: nat, b: nat, e: nat :| HeaderAt(line, h, n, n, b, e);
      HeaderOfText(line, h, n, b, e);
    }
    if LineHeader(line).Some? {
      LineHeaderText(line);
    }
  }

  /** A value and blanks around it, and the value that trimming leaves. */
  lemma TrimmedIs(x: bytes, i: nat, j: nat)
    requires i <= j && BlankFrom(x, 0, i) && BlankFrom(x, j, |x|) && EdgedFrom(x, i, j)
    ensures Trimmed(x) == x[i..j]
  {
    var b := SkipLws(x, 0, |x|);
    if i == j {
      assert b == |x|;
    } else {
      assert b == i && DropLws(x, b, |x|) == j;
    }
  }

  /** The positions of the value in a line and in the text behind the colon. */
  lemma Behind(line: bytes, p: nat, i: nat, j: nat)
    requires p <= |line| && i <= j <= |line| - p
    ensures var x := line[p..];
            && x[i..j] == line[p + i..p + j]
            && (BlankFrom(x, 0, i) <==> BlankFrom(line, p, p + i))
            && (BlankFrom(x, j, |x|) <==> BlankFrom(line, p + j, |line|))
            && (EdgedFrom(x, i, j) <==> EdgedFrom(line, p + i, p + j))
  {
    var x := line[p..];
    BehindBlank(line, p, 0, i);
    BehindBlank(line, p, j, |x|);
    if i < j {
      BehindBlank(line, p, i, i + 1);
      BehindBlank(line, p, j - 1, j);
    }
  }

  lemma BehindBlank(line: bytes, p: nat, i: nat, j: nat)
    requires p <= |line| && i <= j <= |line| - p
    ensures BlankFrom(line[p..], i, j) <==> BlankFrom(line, p + i, p + j)
  {
    var x := line[p..];
    if BlankFrom(x, i, j) {
      forall k | p + i <= k < p + j ensures line[k] == SP || line[k] == HT {
        assert x[k - p] == line[k];
      }
    }
    if BlankFrom(line, p + i, p + j) {
      forall k | i <= k < j ensures x[k] == SP || x[k] == HT {
        assert x[k] == line[p + k];
      }
    }
  }

  lemma HeaderOfText(line: bytes, h: Header, n: nat, b: nat, e: nat)
    requires HeaderAt(line, h, n, n, b, e) && IsValue(h.value)
    ensures LineHeader(line) == Some(h)
  {
    hide IsName, IsValue, Find, Trimmed, IsBlank, SkipLws, DropLws, BlankFrom, EdgedFrom;
    CutsAt(line, h, n, n, b, e);
    var p := n + 1;
    Behind(line, p, b - p, e - p);
    TrimmedIs(line[p..], b - p, e - p);
    assert p == |line| ==> b == e && h.value == [];
  }

  lemma LineHeaderText(line: bytes)
    requires LineHeader(line).Some?
    ensures RequestText(line, LineHeader(line).value)
  {
    hide IsName, IsValue, BlankFrom, EdgedFrom, SkipLws, DropLws;
    var n, h := Find(line, 0, {COLON}), LineHeader(line).value;
    var p, x := n + 1, line[n + 1..];
    var b := SkipLws(x, 0, |x|);
    var e := DropLws(x, b, |x|);
    TrimmedBlanks(x);
    Behind(line, p, b, e);
    NoBlanks(line, n);
    assert p == |line| ==> h.value == [] && line[p + b..p + e] == [];
    assert HeaderAt(line, h, n, n, p + b, p + e);
  }

  lemma TrimmedBlanks(x: bytes)
    ensures var b := SkipLws(x, 0, |x|);
            var e := DropLws(x, b, |x|);
            BlankFrom(x, 0, b) && BlankFrom(x, e, |x|) && EdgedFrom(x, b, e)
  {
  }

  lemma NoBlanks(line: bytes, n: nat)
    requires n <= |line|
    ensures BlankFrom(line, n, n)
  {
  }

  function AddLine(hs: seq<Header>, line: bytes): (r: seq<Header>)
    ensures Unique(hs) ==> Unique(r)
  {
    var h := LineHeader(line);
    if h.Some? then Set(hs, h.value.name, h.value.value) else hs
  }

  lemma AddLineText(hs: seq<Header>, line: bytes)
    ensures forall h :: RequestText(line, h) ==> AddLine(hs, line) == Set(hs, h.name, h.value)
    ensures (forall h :: !RequestText(line, h)) ==> AddLine(hs, line) == hs
  {
    hide LineHeader, RequestText, Set;
    forall h
      ensures LineHeader(line) == Some(h) <==> RequestText(line, h)
    {
      LineHeaderIff(line, h);
    }
    if LineHeader(line).Some? {
      LineHeaderIff(line, LineHeader(line).value);
    }
  }

  function AddLines(hs: seq<Header>, lines: seq<bytes>): (r: seq<Header>)
    ensures Unique(hs) ==> Unique(r)
  {
    if lines == [] then hs else AddLine(AddLines(hs, lines[..|lines| - 1]), lines[|lines| - 1])
  }

  // ---------------------------------------------------------------- the splitter

  /** The position of the first CR LF from `i`, or the length of the text. */
  function FindCrlf(s: bytes, i: nat): (r: nat)
    requires i <= |s|
    ensures i <= r <= |s| && (r < |s| ==> r + 1 < |s| && s[r] == CR && s[r + 1] == LF)
    ensures forall k | i <= k < r && k + 1 < |s| :: !(s[k] == CR && s[k + 1] == LF)
    decreases |s| - i
  {
    if i + 1 >= |s| then |s| else if s[i] == CR && s[i + 1] == LF then i else FindCrlf(s, i + 1)
  }

  /** `kWhitespaceASCII`. */
  predicate IsSpace(b: byte) { b == SP || 9 <= b <= 13 }

  function TrimFront(s: bytes): (r: bytes)
    ensures |r| <= |s| && r == s[|s| - |r|..] && (r != [] ==> !IsSpace(r[0]))
    ensures forall i | 0 <= i < |s| - |r| :: IsSpace(s[i])
  {
    if s != [] && IsSpace(s[0]) then TrimFront(s[1..]) else s
  }

  function TrimBack(s: bytes): (r: bytes)
    ensures |r| <= |s| && r == s[..|r|] && (r != [] ==> !IsSpace(r[|r| - 1]))
    ensures forall i | |r| <= i < |s| :: IsSpace(s[i])
  {
    if s != [] && IsSpace(s[|s| - 1]) then TrimBack(s[..|s| - 1]) else s
  }

  /** `SplitStringPieceUsingSubstr(s, "\r\n", TRIM_WHITESPACE, SPLIT_WANT_NONEMPTY)`: the pieces
      between line breaks, trimmed, the empty ones left out. */
  function Pieces(s: bytes): seq<bytes>
    decreases |s|
  {
    var e := FindCrlf(s, 0);
    var piece := TrimBack(TrimFront(s[..e]));
    (if piece == [] then [] else [piece]) + (if e == |s| then [] else Pieces(s[e + 2..]))
  }

  // ---------------------------------------------------------------- the text form

  /** `%s` stops at a NUL. */
  function CStr(s: bytes): (r: bytes)
    ensures r <= s && NUL !in r && (|r| < |s| ==> s[|r|] == NUL)
  {
    s[..Find(s, 0, {NUL})]
  }

  function Line(h: Header): bytes { CStr(h.name) + [COLON, SP] + CStr(h.value) }

  function Lines(hs: seq<Header>): bytes {
    if hs == [] then [] else Lines(hs[..|hs| - 1]) + Line(hs[|hs| - 1]) + [CR, LF]
  }

  class HttpRequestHeaders {
    var headers: seq<Header>

    constructor ()
      ensures headers == []
    {
      headers := [];
    }

    method FindHeader(key: bytes) returns (r: nat)
      ensures r == Position(headers, key)
    {
      r := 0;
      while r < |headers|
        invariant r <= |headers| && Position(headers, key) == r + Position(headers[r..], key)
      {
        assert headers[r..][1..] == headers[r + 1..];
        if SameName(key, headers[r].name) {
          return;
        }
        r := r + 1;
      }
    }

    method GetHeader(key: bytes) returns (out: Option<bytes>)
      ensures out == Get(headers, key)
    {
      var i := FindHeader(key);
      out := if i == |headers| then None else Some(headers[i].value);
    }

    method SetHeader(key: bytes, value: bytes)
      modifies this
      ensures headers == Set(old(headers), key, value)
      ensures old(Unique(headers)) ==> Unique(headers)
    {
      var i := FindHeader(key);
      if i < |headers| {
        headers := headers[i := Header(headers[i].name, value)];
      } else {
        headers := headers + [Header(key, value)];
      }
    }

    method SetHeaderIfMissing(key: bytes, value: bytes)
      modifies this
      ensures headers == if Get(old(headers), key).Some? then old(headers) else Set(old(headers), key, value)
    {
      var i := FindHeader(key);
      if i == |headers| {
        headers := headers + [Header(key, value)];
      }
    }

    method RemoveHeader(key: bytes)
      modifies this
      ensures old(Unique(headers)) ==> Unique(headers) && Get(headers, key) == None
      ensures var i := Position(old(headers), key);
              headers == if i < |old(headers)| then old(headers[..i] + headers[i + 1..]) else old(headers)
    {
      var i := FindHeader(key);
      if i < |headers| {
        headers := headers[..i] + headers[i + 1..];
      }
    }

    method AddHeaderFromString(line: bytes)
      modifies this
      ensures headers == AddLine(old(headers), line)
      ensures forall h :: RequestText(line, h) ==> headers == Set(old(headers), h.name, h.value)
      ensures (forall h :: !RequestText(line, h)) ==> headers == old(headers)
    {
      hide Set, Find, SkipLws, DropLws, IsName, IsValue, RequestText, IsBlank;
      AddLineText(headers, line);
      var colon := Find(line, 0, {COLON});
      if colon == |line| || colon == 0 || !IsName(line[..colon]) {
        return;
      }
      if colon + 1 < |line| {
        var value := line[colon + 1..];
        var b, e := TrimLws(value, 0, |value|);
        value := value[b..e];
        if IsValue(value) {
          SetHeader(line[..colon], value);
        }
      } else {
        SetHeader(line[..colon], []);
      }
    }

    method AddHeadersFromString(text: bytes)
      modifies this
      ensures headers == AddLines(old(headers), Pieces(text))
    {
      hide Pieces, AddLine, Unique, AddLines;
      var pieces := Pieces(text);
      var k := 0;
      AddNone(headers);
      while k < |pieces|
        invariant k <= |pieces| && headers == AddLines(old(headers), pieces[..k])
      {
        AddNext(old(headers), pieces, k);
        AddHeaderFromString(pieces[k]);
        k := k + 1;
      }
      assert pieces[..k] == pieces;
    }

    static lemma AddNone(hs: seq<Header>)
      ensures AddLines(hs, []) == hs
    {
    }

    static lemma AddNext(hs: seq<Header>, lines: seq<bytes>, k: nat)
      requires k < |lines|
      ensures AddLines(hs, lines[..k + 1]) == AddLine(AddLines(hs, lines[..k]), lines[k])
    {
      hide AddLine, Unique;
      assert lines[..k + 1][..k] == lines[..k];
    }

    method ToString() returns (output: bytes)
      ensures output == Lines(headers) + [CR, LF]
    {
      output := [];
      var k := 0;
      while k < |headers|
        invariant k <= |headers| && output == Lines(headers[..k])
      {
        assert headers[..k + 1][..k] == headers[..k];
        output := output + Line(headers[k]) + [CR, LF];
        k := k + 1;
      }
      assert headers[..k] == headers;
      output := output + [CR, LF];
    }
  }
}
