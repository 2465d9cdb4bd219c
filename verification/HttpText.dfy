/** The text helpers of src/http_parser/http_util.cc that the header classes share: linear white
    space, tokens, delimiters, and the cutting of one header line into name and value. */
module HttpText {
  import opened Ascii
  import opened Quoting

  /** `HttpUtil::IsTokenChar`, by exclusion. `char` is signed, so bytes from 128 up are below 0x20. */
  predicate IsTokenChar(b: byte) {
    !(|| b >= 0x7F || b <= 0x20 || b == '(' as int || b == ')' as int || b == '<' as int
      || b == '>' as int || b == '@' as int || b == ',' as int || b == ';' as int || b == ':' as int
      || b == '\\' as int || b == '"' as int || b == '/' as int || b == '[' as int || b == ']' as int
      || b == '?' as int || b == '=' as int || b == '{' as int || b == '}' as int)
  }

  /** The two definitions of a token character, by exclusion here and by table in the message
      parser, are the same set. */
  lemma TokenCharsAgree(b: byte)
    ensures IsTokenChar(b) <==> Ascii.IsToken(b)
  {
  }

  /** `HttpUtil::IsToken`, which is `IsValidHeaderName`. */
  predicate IsName(s: bytes) { s != [] && forall i | 0 <= i < |s| :: IsTokenChar(s[i]) }

  /** `HttpUtil::IsValidHeaderValue`. */
  predicate IsValue(s: bytes) { NUL !in s && CR !in s && LF !in s }

  /** The text is the given ASCII literal. */
  predicate Spells(s: bytes, lit: string) { |s| == |lit| && forall i | 0 <= i < |s| :: s[i] == lit[i] as int }

  predicate SameName(a: bytes, b: bytes) { LowerAll(a) == LowerAll(b) }

  /** A name is one of a list of lower-case literals, case ignored. */
  predicate OneOf(name: bytes, list: seq<string>) {
    exists i | 0 <= i < |list| :: Spells(LowerAll(name), list[i])
  }

  // ---------------------------------------------------------------- white space

  /** The first position from `b` that is not white space. */
  function SkipLws(s: bytes, b: nat, e: nat): (r: nat)
    requires b <= e <= |s|
    ensures b <= r <= e && (r < e ==> !IsBlank(s[r])) && forall i | b <= i < r :: IsBlank(s[i])
    decreases e - b
  {
    if b < e && IsBlank(s[b]) then SkipLws(s, b + 1, e) else b
  }

  /** The end of the text from `b` without trailing white space. */
  function DropLws(s: bytes, b: nat, e: nat): (r: nat)
    requires b <= e <= |s|
    ensures b <= r <= e && (b < r ==> !IsBlank(s[r - 1])) && forall i | r <= i < e :: IsBlank(s[i])
  {
    if b < e && IsBlank(s[e - 1]) then DropLws(s, b, e - 1) else e
  }

  /** `TrimLWSImplementation`: two cursors that close in on the text. */
  method TrimLws(s: bytes, begin: nat, end: nat) returns (b: nat, e: nat)
    requires begin <= end <= |s|
    ensures b == SkipLws(s, begin, end) && e == DropLws(s, b, end)
  {
    b, e := begin, end;
    while b < e && IsBlank(s[b])
      invariant begin <= b <= end && SkipLws(s, begin, end) == SkipLws(s, b, end)
    {
      b := b + 1;
    }
    while b < e && IsBlank(s[e - 1])
      invariant b <= e <= end && DropLws(s, b, end) == DropLws(s, b, e)
    {
      e := e - 1;
    }
  }

  function Trimmed(s: bytes): bytes {
    var b := SkipLws(s, 0, |s|);
    s[b..DropLws(s, b, |s|)]
  }

  /** Trimming moves along with the text. */
  lemma SkipLwsShift(s: bytes, t: bytes, b: nat, e: nat, d: nat)
    requires b <= e <= |t| && d + e <= |s| && forall i | b <= i < e :: s[d + i] == t[i]
    ensures SkipLws(s, d + b, d + e) == d + SkipLws(t, b, e)
  {
    var r, q := SkipLws(s, d + b, d + e), SkipLws(t, b, e);
    assert (r < d + e ==> s[d + (r - d)] == t[r - d]) && (q < e ==> s[d + q] == t[q]);
  }

  lemma DropLwsShift(s: bytes, t: bytes, b: nat, e: nat, d: nat)
    requires b <= e <= |t| && d + e <= |s| && forall i | b <= i < e :: s[d + i] == t[i]
    ensures DropLws(s, d + b, d + e) == d + DropLws(t, b, e)
  {
    var r, q := DropLws(s, d + b, d + e), DropLws(t, b, e);
    assert (d + b < r ==> s[d + (r - 1 - d)] == t[r - 1 - d]) && (b < q ==> s[d + (q - 1)] == t[q - 1]);
  }

  // ---------------------------------------------------------------- delimiters

  /** The first position from `b` where one of `delims` stands. */
  function Find(s: bytes, b: nat, delims: set<byte>): (r: nat)
    requires b <= |s|
    ensures b <= r <= |s| && (r < |s| ==> s[r] in delims) && forall i | b <= i < r :: s[i] !in delims
    decreases |s| - b
  {
    if b < |s| && s[b] !in delims then Find(s, b + 1, delims) else b
  }

  /** The first position from `b` where none of `delims` stands. */
  function Skip(s: bytes, b: nat, delims: set<byte>): (r: nat)
    requires b <= |s|
    ensures b <= r <= |s| && (r < |s| ==> s[r] !in delims) && forall i | b <= i < r :: s[i] in delims
    decreases |s| - b
  {
    if b < |s| && s[b] in delims then Skip(s, b + 1, delims) else b
  }

  lemma {:induction false} FindIs(s: bytes, b: nat, r: nat, delims: set<byte>)
    requires b <= r <= |s| && (r < |s| ==> s[r] in delims) && forall i | b <= i < r :: s[i] !in delims
    ensures Find(s, b, delims) == r
    decreases r - b
  {
    if b < r {
      FindIs(s, b + 1, r, delims);
    }
  }

  lemma {:induction false} SkipIs(s: bytes, b: nat, r: nat, delims: set<byte>)
    requires b <= r <= |s| && (r < |s| ==> s[r] !in delims) && forall i | b <= i < r :: s[i] in delims
    ensures Skip(s, b, delims) == r
    decreases r - b
  {
    if b < r {
      SkipIs(s, b + 1, r, delims);
    }
  }

  lemma SliceOfSlice(s: bytes, b: nat, e: nat, i: nat, j: nat)
    requires b <= e <= |s| && i <= j <= e - b
    ensures s[b..e][i..j] == s[b + i..b + j]
  {
    var x, y := s[b..e][i..j], s[b + i..b + j];
    forall k | 0 <= k < |x| ensures x[k] == y[k] {
      assert s[b..e][i + k] == s[b + (i + k)];
    }
  }

  /** A stretch of a text. */
  datatype Stretch = Stretch(b: nat, e: nat)

  /** The string tokenizer: the stretches between delimiters from `p` on, the empty ones left out. */
  function Tokens(s: bytes, p: nat, delims: set<byte>): (r: seq<Stretch>)
    requires p <= |s|
    ensures forall i | 0 <= i < |r| :: p <= r[i].b < r[i].e <= |s|
    ensures forall i, k | 0 <= i < |r| && r[i].b <= k < r[i].e :: s[k] !in delims
    decreases |s| - p
  {
    var b := Skip(s, p, delims);
    if b == |s| then []
    else
      var e := Find(s, b, delims);
      [Stretch(b, e)] + Tokens(s, e, delims)
  }

  /** A token that a delimiter ends is the first of the tokens. */
  lemma FirstToken(s: bytes, p: nat, e: nat, delims: set<byte>)
    requires p < e < |s| && s[e] in delims && forall i | p <= i < e :: s[i] !in delims
    ensures Tokens(s, p, delims) == [Stretch(p, e)] + Tokens(s, e + 1, delims)
  {
    assert Skip(s, p, delims) == p;
    assert Find(s, p, delims) == e;
    assert Skip(s, e, delims) == Skip(s, e + 1, delims);
  }

  // ---------------------------------------------------------------- one header line

  /** The name up to `nameEnd`, the value from `valueBegin` to `valueEnd`. */
  datatype LineCut = LineCut(nameEnd: nat, valueBegin: nat, valueEnd: nat)

  /** `HeadersIterator::GetNext` on one line: a line without a colon, or whose name is empty, begins
      with white space or is not a token, is no header. */
  function CutLine(line: bytes): (r: Option<LineCut>)
    ensures r.Some? ==> 0 < r.value.nameEnd < r.value.valueBegin <= r.value.valueEnd <= |line|
  {
    var colon := Find(line, 0, {COLON});
    if colon == |line| || colon == 0 || IsBlank(line[0]) then None
    else
      var nameEnd := DropLws(line, 0, colon);
      if !IsName(line[..nameEnd]) then None
      else
        var vb := SkipLws(line, colon + 1, |line|);
        Some(LineCut(nameEnd, vb, DropLws(line, vb, |line|)))
  }

  /** A header: its name as written and its value without the white space around it. */
  datatype Header = Header(name: bytes, value: bytes)

  function HeaderOf(line: bytes, c: LineCut): Header
    requires c.nameEnd <= |line| && c.valueBegin <= c.valueEnd <= |line|
  {
    Header(line[..c.nameEnd], line[c.valueBegin..c.valueEnd])
  }

  lemma FindInPrefix(s: bytes, n: nat, b: nat, delims: set<byte>)
    requires b <= n <= |s| && Find(s, b, delims) < n
    ensures Find(s[..n], b, delims) == Find(s, b, delims)
  {
    var r, q := Find(s[..n], b, delims), Find(s, b, delims);
    assert s[..n][q] == s[q] && (r < n ==> s[..n][r] == s[r]);
  }

  /** Trimming what has been trimmed changes nothing. */
  lemma TrimAgain(s: bytes, b: nat)
    requires b <= |s|
    ensures var vb := SkipLws(s, b, |s|);
            var ve := DropLws(s, vb, |s|);
            SkipLws(s[..ve], b, ve) == vb && DropLws(s[..ve], vb, ve) == ve
  {
    var vb := SkipLws(s, b, |s|);
    var ve := DropLws(s, vb, |s|);
    if vb == |s| {
      assert s[..ve] == s;
    } else {
      assert ve > vb && s[..ve][vb] == s[vb] && s[..ve][ve - 1] == s[ve - 1];
    }
  }

  /** The parts of a cut, one by one. */
  lemma CutIs(line: bytes, colon: nat, c: LineCut)
    requires 0 < colon < |line| && colon == Find(line, 0, {COLON}) && !IsBlank(line[0])
    requires c.nameEnd == DropLws(line, 0, colon) && IsName(line[..c.nameEnd])
    requires c.valueBegin == SkipLws(line, colon + 1, |line|) && c.valueEnd == DropLws(line, c.valueBegin, |line|)
    ensures CutLine(line) == Some(c)
  {
    hide Find, SkipLws, DropLws, IsBlank, IsName;
  }

  lemma SlicesKept(line: bytes, n: nat, a: nat, b: nat)
    requires 0 < n <= |line| && a <= b <= n
    ensures line[..n][..a] == line[..a] && line[..n][a..b] == line[a..b] && line[..n][0] == line[0]
  {
    var t := line[..n];
    assert line[0..n] == t;
    SliceOfSlice(line, 0, n, a, b);
    SliceOfSlice(line, 0, n, 0, a);
  }

  /** A header line cut off after its value is the same header. */
  lemma CutKept(line: bytes)
    requires CutLine(line).Some?
    ensures var c := CutLine(line).value;
            CutLine(line[..c.valueEnd]) == Some(c) && HeaderOf(line[..c.valueEnd], c) == HeaderOf(line, c)
  {
    hide Find, SkipLws, DropLws, IsBlank, IsName;
    var c := CutLine(line).value;
    var t := line[..c.valueEnd];
    var colon := Find(line, 0, {COLON});
    SlicesKept(line, c.valueEnd, c.nameEnd, c.nameEnd);
    SlicesKept(line, c.valueEnd, c.valueBegin, c.valueEnd);
    FindInPrefix(line, c.valueEnd, 0, {COLON});
    DropLwsPrefix(line, c.valueEnd, colon);
    TrimAgain(line, colon + 1);
    CutIs(t, colon, c);
  }

  lemma DropLwsPrefix(s: bytes, n: nat, e: nat)
    requires e <= n <= |s|
    ensures DropLws(s[..n], 0, e) == DropLws(s, 0, e)
  {
    DropLwsShift(s, s[..n], 0, e, 0);
  }

  // ---------------------------------------------------------------- header lines as texts

  /** Spaces and tabs from i to j. */
  predicate BlankFrom(s: bytes, i: nat, j: nat) { j <= |s| && forall k | i <= k < j :: s[k] == SP || s[k] == HT }

  /** The text from b to e neither begins nor ends with a space or a tab. */
  predicate EdgedFrom(s: bytes, b: nat, e: nat) {
    b <= e <= |s| && (b < e ==> !BlankFrom(s, b, b + 1) && !BlankFrom(s, e - 1, e))
  }

  /** A name up to n, blanks, a colon at k, blanks, a value from b to e, blanks to the end. */
  predicate HeaderAt(line: bytes, h: Header, n: nat, k: nat, b: nat, e: nat) {
    && 0 < n <= k < b <= e <= |line| && line[k] == COLON
    && BlankFrom(line, n, k) && BlankFrom(line, k + 1, b) && BlankFrom(line, e, |line|) && EdgedFrom(line, b, e)
    && h == Header(line[..n], line[b..e]) && IsName(h.name)
  }

  ghost predicate HeaderText(line: bytes, h: Header) {
    exists n: nat, k: nat, b: nat, e: nat :: HeaderAt(line, h, n, k, b, e)
  }

  /** The same as a concatenation. */
  lemma HeaderOfParts(h: Header, x: bytes, y: bytes, z: bytes)
    requires IsName(h.name) && BlankFrom(x, 0, |x|) && BlankFrom(y, 0, |y|) && BlankFrom(z, 0, |z|)
    requires EdgedFrom(h.value, 0, |h.value|)
    ensures HeaderText(h.name + x + [COLON] + y + h.value + z, h)
  {
    hide IsName;
    var line := h.name + x + [COLON] + y + h.value + z;
    var n, k := |h.name|, |h.name| + |x|;
    var b, e := k + 1 + |y|, k + 1 + |y| + |h.value|;
    NameNotEmpty(h.name);
    assert line[..n] == h.name && line[b..e] == h.value && line[k] == COLON;
    assert forall i | n <= i < k :: line[i] == x[i - n];
    assert forall i | k < i < b :: line[i] == y[i - k - 1];
    assert forall i | e <= i < |line| :: line[i] == z[i - e];
    assert b < e ==> line[b] == h.value[0] && line[e - 1] == h.value[|h.value| - 1];
    assert HeaderAt(line, h, n, k, b, e);
  }

  lemma NameNotEmpty(n: bytes)
    requires IsName(n)
    ensures n != [] && !IsBlank(n[0]) && !IsBlank(n[|n| - 1])
  {
  }

  lemma NameHasNoColon(n: bytes, i: nat)
    requires IsName(n) && i < |n|
    ensures n[i] != COLON
  {
  }

  /** Where the blanks before the colon, and around the value, begin and end. */
  lemma CutsAt(line: bytes, h: Header, n: nat, k: nat, b: nat, e: nat)
    requires HeaderAt(line, h, n, k, b, e)
    ensures Find(line, 0, {COLON}) == k && DropLws(line, 0, k) == n && !IsBlank(line[0])
    ensures var vb := SkipLws(line, k + 1, |line|);
            b < e ==> vb == b && DropLws(line, vb, |line|) == e
    ensures b == e ==> SkipLws(line, k + 1, |line|) == |line|
  {
    hide IsName;
    var name := line[..n];
    NameNotEmpty(name);
    assert name[0] == line[0] && name[n - 1] == line[n - 1];
    forall i | 0 <= i < k ensures line[i] != COLON {
      if i < n {
        NameHasNoColon(name, i);
        assert name[i] == line[i];
      }
    }
  }

  /** A line is cut into a name and a value if and only if it is the name, blanks, a colon, blanks,
      the value and blanks. */
  lemma CutLineIff(line: bytes, h: Header)
    ensures CutLine(line).Some? && HeaderOf(line, CutLine(line).value) == h <==> HeaderText(line, h)
  {
    hide CutLine, HeaderAt, HeaderOf;
    if HeaderText(line, h) {
      var n: nat, k: nat, b: nat, e: nat :| HeaderAt(line, h, n, k, b, e);
      CutOfText(line, h, n, k, b, e);
    }
    if CutLine(line).Some? {
      CutParts(line);
    }
  }

  lemma CutOfText(line: bytes, h: Header, n: nat, k: nat, b: nat, e: nat)
    requires HeaderAt(line, h, n, k, b, e)
    ensures CutLine(line).Some? && HeaderOf(line, CutLine(line).value) == h
  {
    hide IsName, IsBlank, Find, SkipLws, DropLws, BlankFrom, EdgedFrom;
    CutsAt(line, h, n, k, b, e);
  }

  /** What a cut leaves out are blanks and the colon. */
  lemma CutParts(line: bytes)
    requires CutLine(line).Some?
    ensures HeaderText(line, HeaderOf(line, CutLine(line).value))
  {
    hide IsName;
    var k, c := Find(line, 0, {COLON}), CutLine(line).value;
    assert HeaderAt(line, HeaderOf(line, c), c.nameEnd, k, c.valueBegin, c.valueEnd);
  }
}
