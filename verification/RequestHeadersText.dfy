/** Writing request headers out and reading them back. */
module RequestHeadersText {
  import opened Ascii
  import opened Quoting
  import opened HttpText
  import opened RequestHeaders

  /** A value without line breaks or NUL, without blanks before it and without any ASCII white space
      after it; a name that is a token. */
  predicate WellFormed(h: Header) {
    && IsName(h.name) && IsValue(h.value)
    && (h.value != [] ==> !IsBlank(h.value[0]) && !IsSpace(h.value[|h.value| - 1]))
  }

  predicate AllWellFormed(hs: seq<Header>) { forall i | 0 <= i < |hs| :: WellFormed(hs[i]) }

  // ---------------------------------------------------------------- what is read is well formed

  predicate PieceOk(s: bytes) { s != [] && !IsSpace(s[|s| - 1]) }

  lemma {:induction false} PiecesOk(s: bytes)
    ensures forall i | 0 <= i < |Pieces(s)| :: PieceOk(Pieces(s)[i])
    decreases |s|
  {
    hide FindCrlf, TrimFront, TrimBack;
    var e := FindCrlf(s, 0);
    if e < |s| {
      PiecesOk(s[e + 2..]);
    }
  }

  lemma LineWellFormed(line: bytes)
    requires PieceOk(line) && LineHeader(line).Some?
    ensures WellFormed(LineHeader(line).value)
  {
    hide IsName, IsValue, Find, SkipLws, DropLws;
    var colon := Find(line, 0, {COLON});
    if colon + 1 < |line| {
      var v := line[colon + 1..];
      assert v[|v| - 1] == line[|line| - 1];
      var b := SkipLws(v, 0, |v|);
      var e := DropLws(v, b, |v|);
      assert e == |v|;
    }
  }

  lemma {:induction false} ReadWellFormed(lines: seq<bytes>)
    requires forall i | 0 <= i < |lines| :: PieceOk(lines[i])
    ensures AllWellFormed(AddLines([], lines)) && Unique(AddLines([], lines))
  {
    hide LineHeader, IsName, IsValue, SameName, PieceOk;
    if lines != [] {
      var n := |lines| - 1;
      ReadWellFormed(lines[..n]);
      if LineHeader(lines[n]).Some? {
        LineWellFormed(lines[n]);
      }
    }
  }

  // ---------------------------------------------------------------- what is well formed is read back

  /** The line of a header as the splitter hands it over. */
  function Piece(h: Header): bytes {
    h.name + [COLON] + if h.value == [] then [] else [SP] + h.value
  }

  function AllPieces(hs: seq<Header>): seq<bytes> {
    if hs == [] then [] else AllPieces(hs[..|hs| - 1]) + [Piece(hs[|hs| - 1])]
  }

  lemma NameBytes(s: bytes)
    requires IsName(s)
    ensures s != [] && NUL !in s && CR !in s && LF !in s && COLON !in s && !IsSpace(s[0]) && !IsSpace(s[|s| - 1])
  {
  }

  lemma CStrWhole(s: bytes)
    requires NUL !in s
    ensures CStr(s) == s
  {
  }

  lemma LineIs(h: Header)
    requires WellFormed(h)
    ensures Line(h) == h.name + [COLON, SP] + h.value && CR !in Line(h) && LF !in Line(h)
    ensures TrimBack(TrimFront(Line(h))) == Piece(h)
  {
    hide CStr, IsName, Find;
    NameBytes(h.name);
    CStrWhole(h.name);
    CStrWhole(h.value);
    var s := Line(h);
    assert s == h.name + [COLON, SP] + h.value;
    assert s[0] == h.name[0];
    assert TrimFront(s) == s;
    if h.value == [] {
      assert s[|s| - 1] == SP && s[..|s| - 1] == Piece(h);
      assert TrimBack(Piece(h)) == Piece(h);
    } else {
      assert s[|s| - 1] == h.value[|h.value| - 1];
      assert s == Piece(h);
    }
  }

  lemma PieceHeader(h: Header)
    requires WellFormed(h)
    ensures LineHeader(Piece(h)) == Some(h)
  {
    hide IsName, IsValue;
    NameBytes(h.name);
    var s, n := Piece(h), |h.name|;
    assert s[..n] == h.name && s[n] == COLON;
    assert forall i | 0 <= i < n :: s[i] == h.name[i];
    assert Find(s, 0, {COLON}) == n;
    if h.value != [] {
      var v := s[n + 1..];
      assert v == [SP] + h.value;
      TrimmedValue(h.value);
      assert Trimmed(v) == h.value;
    }
  }

  lemma TrimmedValue(x: bytes)
    requires x != [] && !IsBlank(x[0]) && !IsBlank(x[|x| - 1])
    ensures Trimmed([SP] + x) == x
  {
    var v := [SP] + x;
    assert v[1] == x[0] && v[|v| - 1] == x[|x| - 1];
    assert SkipLws(v, 0, |v|) == 1;
    assert DropLws(v, 1, |v|) == |v|;
    assert v[1..] == x;
  }

  lemma PiecesOfLine(h: Header, t: bytes)
    requires WellFormed(h)
    ensures Pieces(Line(h) + [CR, LF] + t) == [Piece(h)] + Pieces(t)
  {
    hide Line, Piece, TrimBack, TrimFront, WellFormed;
    LineIs(h);
    PieceNotEmpty(h);
    var line := Line(h);
    var s := line + [CR, LF] + t;
    assert s[|line|] == CR && s[|line| + 1] == LF;
    assert forall i | 0 <= i < |line| :: s[i] == line[i];
    assert FindCrlf(s, 0) == |line|;
    assert s[..|line|] == line && s[|line| + 2..] == t;
  }

  lemma PieceNotEmpty(h: Header)
    ensures Piece(h) != []
  {
  }

  lemma {:induction false} PiecesOfLines(hs: seq<Header>, t: bytes)
    requires AllWellFormed(hs)
    ensures Pieces(Lines(hs) + t) == AllPieces(hs) + Pieces(t)
  {
    hide Pieces, Line, Piece, WellFormed;
    if hs == [] {
      assert Lines(hs) + t == t;
    } else {
      var n := |hs| - 1;
      var rest := Line(hs[n]) + [CR, LF] + t;
      assert Lines(hs) + t == Lines(hs[..n]) + rest;
      PiecesOfLines(hs[..n], rest);
      PiecesOfLine(hs[n], t);
    }
  }

  lemma {:induction false} AddAllPieces(hs: seq<Header>)
    requires AllWellFormed(hs) && Unique(hs)
    ensures AddLines([], AllPieces(hs)) == hs
  {
    hide WellFormed, Piece, LineHeader, SameName, AddLine;
    if hs != [] {
      var n := |hs| - 1;
      AddAllPieces(hs[..n]);
      AddsLast(hs);
      assert AllPieces(hs)[..|AllPieces(hs)| - 1] == AllPieces(hs[..n]);
    }
  }

  lemma AddsLast(hs: seq<Header>)
    requires hs != [] && WellFormed(hs[|hs| - 1]) && Unique(hs)
    ensures AddLine(hs[..|hs| - 1], Piece(hs[|hs| - 1])) == hs
  {
    hide WellFormed, Piece, LineHeader, LowerAll, Position;
    var n := |hs| - 1;
    PieceHeader(hs[n]);
    assert Position(hs[..n], hs[n].name) == n;
    assert hs == hs[..n] + [hs[n]];
  }

  /** A line break at the front is an empty piece. */
  lemma PiecesOfBreak(s: bytes, t: bytes)
    requires s == [CR, LF] + t
    ensures Pieces(s) == Pieces(t)
  {
    hide TrimFront, TrimBack;
    var none := s[..0];
    TrimNone(none);
    assert FindCrlf(s, 0) == 0;
    assert s[2..] == t;
  }

  lemma TrimNone(s: bytes)
    requires s == []
    ensures TrimBack(TrimFront(s)) == []
  {
  }

  lemma PiecesOfNone(s: bytes)
    requires s == []
    ensures Pieces(s) == []
  {
    hide TrimFront, TrimBack;
    assert FindCrlf(s, 0) == 0;
    assert s[..0] == s;
    TrimNone(s);
  }

  /** The text of a list of headers reads back as the same list exactly when every header is well
      formed and no name stands twice. */
  lemma ReadBack(hs: seq<Header>)
    ensures AddLines([], Pieces(Lines(hs) + [CR, LF])) == hs <==> AllWellFormed(hs) && Unique(hs)
  {
    hide Pieces, AddLines, Lines, AllPieces, WellFormed, Unique, PieceOk;
    PiecesOk(Lines(hs) + [CR, LF]);
    ReadWellFormed(Pieces(Lines(hs) + [CR, LF]));
    if AllWellFormed(hs) && Unique(hs) {
      PiecesOfLines(hs, [CR, LF]);
      PiecesOfBreak([CR, LF], []);
      PiecesOfNone([]);
      AddAllPieces(hs);
      assert AllPieces(hs) + [] == AllPieces(hs);
    }
  }

  /** The same through the objects. */
  method WriteAndRead(h: HttpRequestHeaders) returns (copy: HttpRequestHeaders)
    ensures fresh(copy) && h.headers == old(h.headers)
    ensures copy.headers == h.headers <==> AllWellFormed(h.headers) && Unique(h.headers)
  {
    var text := h.ToString();
    copy := new HttpRequestHeaders();
    copy.AddHeadersFromString(text);
    ReadBack(h.headers);
  }
}
