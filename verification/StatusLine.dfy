/** The status line as `ParseStatusLine` of src/http_parser/http_response_headers.cc reads and
    rewrites it. */
module StatusLine {
  import opened Ascii
  import opened Quoting
  import opened HttpText

  datatype Version = Version(major: nat, minor: nat)

  const DOT: byte := '.' as int
  const SLASH: byte := '/' as int

  predicate AtLeast(v: Version, w: Version) { v.major > w.major || (v.major == w.major && v.minor >= w.minor) }

  predicate HttpPrefix(s: bytes) { |s| >= 4 && LowerAll(s[..4]) == Text("http") }

  /** The byte at `i`; the NUL that follows a line is past its end. */
  function ByteAt(s: bytes, i: nat): byte { if i < |s| then s[i] else NUL }

  /** `ParseVersion`: the digit after the '/' and the digit after the first '.', or 0.0. */
  function ParseVersion(line: bytes): Version {
    if !HttpPrefix(line) || |line| == 4 || line[4] != SLASH then Version(0, 0)
    else
      var dot := Find(line, 4, {DOT});
      if dot == |line| then Version(0, 0)
      else
        var a, b := ByteAt(line, 5), ByteAt(line, dot + 1);
        if IsNum(a) && IsNum(b) then Version(a - '0' as int, b - '0' as int) else Version(0, 0)
  }

  predicate Clamped(v: Version) {
    v == Version(0, 9) || v == Version(1, 0) || v == Version(1, 1) || v == Version(2, 0)
  }

  /** The version is clamped to 0.9, 1.0, 1.1 or 2.0; a 0.9 with headers is a 1.0. */
  function Clamp(v: Version, hasHeaders: bool): (r: Version)
    ensures Clamped(r)
  {
    if v == Version(0, 9) && !hasHeaders then v
    else if v == Version(2, 0) then v
    else if AtLeast(v, Version(1, 1)) then Version(1, 1)
    else Version(1, 0)
  }

  function VersionText(v: Version): (r: bytes)
    requires Clamped(v)
    ensures |r| == 8
  {
    ['H' as int, 'T' as int, 'T' as int, 'P' as int, SLASH, v.major + '0' as int, DOT, v.minor + '0' as int]
  }

  const DIGITS: set<byte> := set b: byte | '0' as int <= b <= '9' as int

  lemma DigitIsNoSpace()
    ensures forall b: byte | b in DIGITS :: b != SP
  {
  }

  /** The end of the text from `b` without trailing spaces. */
  function DropSpaces(s: bytes, b: nat, e: nat): (r: nat)
    requires b <= e <= |s|
    ensures b <= r <= e && (b < r ==> s[r - 1] != SP) && forall i | r <= i < e :: s[i] == SP
  {
    if b < e && s[e - 1] == SP then DropSpaces(s, b, e - 1) else e
  }

  /** A status line taken apart: version, the digits of the code, and the reason. */
  datatype Status = Status(version: Version, code: bytes, reason: bytes)

  predicate IsCode(s: bytes) { s != [] && forall i | 0 <= i < |s| :: s[i] in DIGITS }

  predicate IsReason(s: bytes) { NUL !in s && (s != [] ==> s[0] != SP && s[|s| - 1] != SP) }

  predicate ValidStatus(st: Status) { Clamped(st.version) && IsCode(st.code) && IsReason(st.reason) }

  /** What `ParseStatusLine` takes from a line: without a code it assumes 200. */
  function ReadStatus(line: bytes, hasHeaders: bool): (st: Status)
    ensures Clamped(st.version)
  {
    var v := Clamp(ParseVersion(line), hasHeaders);
    var p := Find(line, 0, {SP});
    if p == |line| then Status(v, Text("200"), Text("OK"))
    else
      var code := Skip(line, p, {SP});
      var q := Skip(line, code, DIGITS);
      if q == code then Status(v, Text("200"), [])
      else
        var r := Skip(line, q, {SP});
        Status(v, line[code..q], line[r..DropSpaces(line, r, |line|)])
  }

  function StatusText(st: Status): (r: bytes)
    requires Clamped(st.version)
    ensures |r| >= 9
  {
    VersionText(st.version) + [SP] + st.code + if st.reason == [] then [] else [SP] + st.reason
  }

  lemma ReadIsValid(line: bytes, hasHeaders: bool)
    requires NUL !in line
    ensures ValidStatus(ReadStatus(line, hasHeaders))
  {
    hide Find, Skip, DropSpaces, ParseVersion, Text, IsCode, IsReason, DIGITS;
    CodeOf200();
    var p := Find(line, 0, {SP});
    if p < |line| {
      var code := Skip(line, p, {SP});
      var q := Skip(line, code, DIGITS);
      if code < q {
        IsCodeSlice(line, code, q);
        IsReasonSlice(line, Skip(line, q, {SP}));
      }
    }
  }

  lemma IsCodeSlice(s: bytes, b: nat, e: nat)
    requires b < e <= |s| && forall i | b <= i < e :: s[i] in DIGITS
    ensures IsCode(s[b..e])
  {
  }

  lemma {:induction false} IsReasonSlice(s: bytes, b: nat)
    requires NUL !in s && b <= |s| && (b < |s| ==> s[b] != SP)
    ensures IsReason(s[b..DropSpaces(s, b, |s|)])
  {
    hide DropSpaces;
    var e := DropSpaces(s, b, |s|);
    var t := s[b..e];
    assert t != [] ==> t[0] == s[b] && t[|t| - 1] == s[e - 1];
  }

  lemma CodeOf200()
    ensures IsCode(Text("200")) && IsReason(Text("OK")) && IsReason([])
  {
    var c, r := Text("200"), Text("OK");
    assert c == ['2' as int, '0' as int, '0' as int] && r == ['O' as int, 'K' as int];
  }

  lemma VersionAgain(v: Version, tail: bytes)
    requires Clamped(v)
    ensures ParseVersion(VersionText(v) + tail) == v
  {
    var s := VersionText(v) + tail;
    var low := LowerAll(s[..4]);
    assert low == Text("http") by {
      assert low[0] == 'h' as int && low[1] == 't' as int && low[2] == 't' as int && low[3] == 'p' as int;
    }
    assert s[4] == SLASH && s[5] != DOT && s[6] == DOT;
    assert Find(s, 4, {DOT}) == 6;
  }

  /** Where the parts of a written status line stand. */
  lemma StatusBytes(st: Status)
    requires ValidStatus(st)
    ensures var s, n := StatusText(st), |st.code|;
            && n > 0 && 9 + n <= |s| && s[8] == SP && (forall i | 0 <= i < 8 :: s[i] != SP)
            && s[9..9 + n] == st.code && (forall i | 9 <= i < 9 + n :: s[i] in DIGITS)
            && (if st.reason == [] then |s| == 9 + n
                else 10 + n < |s| && s[9 + n] == SP && s[10 + n] != SP && s[|s| - 1] != SP && s[10 + n..] == st.reason)
  {
    hide VersionText, DIGITS;
    VersionHasNoSpace(st.version);
    var s, v, n := StatusText(st), VersionText(st.version), |st.code|;
    assert forall i | 0 <= i < 8 :: s[i] == v[i];
    assert forall i | 9 <= i < 9 + n :: s[i] == st.code[i - 9];
    assert s[9..9 + n] == st.code;
    if st.reason != [] {
      assert forall i | 10 + n <= i < |s| :: s[i] == st.reason[i - 10 - n];
      assert s[10 + n..] == st.reason;
    }
  }

  lemma VersionOfText(st: Status)
    requires ValidStatus(st)
    ensures ParseVersion(StatusText(st)) == st.version
  {
    hide ParseVersion, VersionText;
    var tail := [SP] + st.code + if st.reason == [] then [] else [SP] + st.reason;
    assert StatusText(st) == VersionText(st.version) + tail;
    VersionAgain(st.version, tail);
  }

  /** A status line that has been rewritten reads as itself, but for a 0.9 that has come by headers. */
  lemma {:induction false} ReadAgain(st: Status, hasHeaders: bool)
    requires ValidStatus(st)
    ensures ReadStatus(StatusText(st), hasHeaders) == st.(version := Clamp(st.version, hasHeaders))
  {
    hide ParseVersion, Clamp, Skip, Find, DropSpaces, StatusText, DIGITS, Text, IsCode, IsReason;
    var s, n := StatusText(st), |st.code|;
    VersionOfText(st);
    StatusBytes(st);
    DigitIsNoSpace();
    FindIs(s, 0, 8, {SP});
    SkipIs(s, 8, 9, {SP});
    SkipIs(s, 9, 9 + n, DIGITS);
    if st.reason == [] {
      SkipIs(s, 9 + n, |s|, {SP});
      assert s[|s|..|s|] == [];
    } else {
      SkipIs(s, 9 + n, 10 + n, {SP});
      assert DropSpaces(s, 10 + n, |s|) == |s|;
      assert s[10 + n..|s|] == s[10 + n..];
    }
  }

  lemma VersionHasNoSpace(v: Version)
    requires Clamped(v)
    ensures SP !in VersionText(v)
  {
  }

  // ---------------------------------------------------------------- the normal form

  /** `ParseStatusLine`: the line as it is written into the raw headers. */
  function NormalLine(line: bytes, hasHeaders: bool): bytes { StatusText(ReadStatus(line, hasHeaders)) }

  /** A line that is written as it reads. */
  predicate IsNormal(line: bytes) { NUL !in line && NormalLine(line, false) == line }

  lemma NormalIsNormal(line: bytes, hasHeaders: bool)
    requires NUL !in line
    ensures IsNormal(NormalLine(line, hasHeaders))
  {
    hide ReadStatus, StatusText, Clamp;
    var st := ReadStatus(line, hasHeaders);
    ReadIsValid(line, hasHeaders);
    ReadAgain(st, false);
    ClampedStays(st.version);
    TextHasNoNul(st);
  }

  lemma ClampedStays(v: Version)
    requires Clamped(v)
    ensures Clamp(v, false) == v && Clamp(v, true) == if v == Version(0, 9) then Version(1, 0) else v
  {
  }

  lemma TextHasNoNul(st: Status)
    requires ValidStatus(st)
    ensures NUL !in StatusText(st)
  {
    var v := VersionText(st.version);
    assert NUL !in v;
    assert NUL !in st.code by {
      assert forall i | 0 <= i < |st.code| :: st.code[i] in DIGITS;
    }
  }

  /** The version of a normal line. */
  function VersionOf(line: bytes): Version { ReadStatus(line, false).version }

  lemma OnlyVersion(line: bytes, hasHeaders: bool)
    ensures var st, again := ReadStatus(line, false), ReadStatus(line, hasHeaders);
            && again == st.(version := again.version)
            && (again.version != st.version <==> hasHeaders && st.version == Version(0, 9))
  {
    hide Find, Skip, DropSpaces, ParseVersion, Text;
  }

  lemma TextParts(st: Status)
    requires Clamped(st.version)
    ensures StatusText(st)[..8] == VersionText(st.version)
    ensures StatusText(st)[8..] == [SP] + st.code + if st.reason == [] then [] else [SP] + st.reason
  {
    hide VersionText;
  }

  /** Read again with headers, a normal line stays as it is exactly when its version is not 0.9;
      beyond the version it always does. */
  lemma NormalAgainIff(line: bytes, hasHeaders: bool)
    requires IsNormal(line)
    ensures NormalLine(line, hasHeaders) == line <==> !(hasHeaders && VersionOf(line) == Version(0, 9))
    ensures |line| >= 8 && NormalLine(line, hasHeaders)[8..] == line[8..]
  {
    hide ReadStatus, StatusText, VersionText, Clamped;
    var st, again := ReadStatus(line, false), ReadStatus(line, hasHeaders);
    OnlyVersion(line, hasHeaders);
    TextParts(st);
    TextParts(again);
    VersionsDiffer(st.version, again.version);
  }

  lemma OkText(v: Version)
    requires Clamped(v)
    ensures StatusText(Status(v, Text("200"), Text("OK"))) == VersionText(v) + Text(" 200 OK")
  {
    hide VersionText, Clamped;
    var a, b, c := Text("200"), Text("OK"), Text(" 200 OK");
    assert a == ['2' as int, '0' as int, '0' as int] && b == ['O' as int, 'K' as int];
    assert c == [SP] + a + ([SP] + b);
  }

  lemma VersionBytes(v: Version, line: bytes)
    requires Clamped(v) && |line| == 15 && line[..8] == VersionText(v) && line[8..] == Text(" 200 OK")
    ensures v == Version(0, 9) ==> Spells(line, "HTTP/0.9 200 OK")
    ensures v == Version(1, 0) ==> Spells(line, "HTTP/1.0 200 OK")
  {
    forall i | 0 <= i < 15
      ensures line[i] == if i < 8 then VersionText(v)[i] else Text(" 200 OK")[i - 8]
    {
      assert i < 8 ==> line[i] == line[..8][i];
      assert i >= 8 ==> line[i] == line[8..][i - 8];
    }
  }

  lemma SpelledOnce(s: bytes, t: bytes, lit: string)
    requires Spells(s, lit) && Spells(t, lit)
    ensures s == t
  {
  }

  /** A line that is written as it reads, but not with headers. */
  lemma ZeroNine(line: bytes)
    requires Spells(line, "HTTP/0.9 200 OK")
    ensures IsNormal(line) && Spells(NormalLine(line, true), "HTTP/1.0 200 OK")
  {
    hide ReadStatus, Clamp, Find, DIGITS, Text, StatusText, VersionText, IsCode, IsReason, Spells;
    var st := Status(Version(0, 9), Text("200"), Text("OK"));
    TwoHundred();
    Spelled(Version(0, 9));
    Spelled(Version(1, 0));
    SpelledOnce(line, StatusText(st), "HTTP/0.9 200 OK");
    ReadAgain(st, false);
    ReadAgain(st, true);
    ClampedStays(st.version);
    TextHasNoNul(st);
  }

  lemma Spelled(v: Version)
    requires Clamped(v)
    ensures var line := StatusText(Status(v, Text("200"), Text("OK")));
            && (v == Version(0, 9) ==> Spells(line, "HTTP/0.9 200 OK"))
            && (v == Version(1, 0) ==> Spells(line, "HTTP/1.0 200 OK"))
  {
    hide StatusText, VersionText, Spells, Clamped;
    var line := StatusText(Status(v, Text("200"), Text("OK")));
    OkText(v);
    assert line[..8] == VersionText(v) && line[8..] == Text(" 200 OK");
    VersionBytes(v, line);
  }

  lemma TwoHundred()
    ensures IsCode(Text("200")) && IsReason(Text("OK"))
  {
  }

  lemma VersionsDiffer(v: Version, w: Version)
    requires Clamped(v) && Clamped(w)
    ensures VersionText(v) == VersionText(w) <==> v == w
  {
    assert VersionText(v)[5] == v.major + '0' as int && VersionText(v)[7] == v.minor + '0' as int;
    assert VersionText(w)[5] == w.major + '0' as int && VersionText(w)[7] == w.minor + '0' as int;
  }
}
