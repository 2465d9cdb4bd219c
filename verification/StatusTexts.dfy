/** What the status line of a response is taken for, told on its text. */
module StatusTexts {
  import opened Ascii
  import opened Quoting
  import opened HttpText
  import opened StatusLine

  predicate IsDigit(b: byte) { '0' as int <= b <= '9' as int }

  predicate SpacesFrom(s: bytes, i: nat, j: nat) { j <= |s| && forall k | i <= k < j :: s[k] == SP }

  /** A text without spaces up to p, spaces to c, the digits of a code to d, spaces to r, a reason to
      e, spaces to the end. */
  predicate CodeAt(line: bytes, p: nat, c: nat, d: nat, r: nat, e: nat) {
    && p < c < d <= r <= e <= |line|
    && (forall k | 0 <= k < p :: line[k] != SP) && SpacesFrom(line, p, c)
    && (forall k | c <= k < d :: IsDigit(line[k])) && (d < |line| ==> !IsDigit(line[d]))
    && SpacesFrom(line, d, r) && SpacesFrom(line, e, |line|) && (r < e ==> line[r] != SP && line[e - 1] != SP)
  }

  lemma DigitIff(b: byte)
    ensures IsDigit(b) <==> b in DIGITS
  {
  }

  lemma SkipDigits(s: bytes, b: nat, r: nat)
    requires b <= r <= |s| && (r < |s| ==> !IsDigit(s[r])) && forall i | b <= i < r :: IsDigit(s[i])
    ensures Skip(s, b, DIGITS) == r
  {
    hide Skip, DIGITS;
    forall i: byte { DigitIff(i); }
    SkipIs(s, b, r, DIGITS);
  }

  /** A code, and a reason if there is one, are read as they stand. */
  lemma CodeRead(line: bytes, hasHeaders: bool, p: nat, c: nat, d: nat, r: nat, e: nat)
    requires CodeAt(line, p, c, d, r, e)
    ensures var st := ReadStatus(line, hasHeaders); st.code == line[c..d] && st.reason == line[r..e]
  {
    hide ParseVersion, Clamp, Skip, Find, DropSpaces, DIGITS, Text;
    DigitNotSpace(line[c]);
    FindIs(line, 0, p, {SP});
    SkipIs(line, p, c, {SP});
    SkipDigits(line, c, d);
    if r < e {
      SkipIs(line, d, r, {SP});
      DropIs(line, r, e);
    } else {
      SkipIs(line, d, |line|, {SP});
      DropNone(line);
    }
  }

  lemma DigitNotSpace(b: byte)
    requires IsDigit(b)
    ensures b != SP
  {
  }

  lemma {:induction false} DropIs(s: bytes, b: nat, e: nat)
    requires b < e <= |s| && s[e - 1] != SP && SpacesFrom(s, e, |s|)
    ensures DropSpaces(s, b, |s|) == e
  {
  }

  lemma DropNone(s: bytes)
    ensures DropSpaces(s, |s|, |s|) == |s|
  {
  }

  /** Without a space the line is a 200 OK, and without digits behind the spaces a 200. */
  lemma CodeAssumed(line: bytes, hasHeaders: bool, p: nat, c: nat)
    requires p <= c <= |line| && (forall k | 0 <= k < p :: line[k] != SP) && SpacesFrom(line, p, c)
    requires p < c || p == |line|
    requires c < |line| ==> line[c] != SP && !IsDigit(line[c])
    ensures var st := ReadStatus(line, hasHeaders);
            st.code == Text("200") && st.reason == if p == |line| then Text("OK") else []
  {
    hide ParseVersion, Clamp, Skip, Find, DropSpaces, DIGITS, Text;
    FindIs(line, 0, p, {SP});
    if p < |line| {
      SkipIs(line, p, c, {SP});
      SkipDigits(line, c, c);
    }
  }

  // ---------------------------------------------------------------- versions

  predicate Letter(b: byte, c: char) { b == c as int || b == c as int - 32 }

  /** "http/" in any case, a digit, anything without a dot, a dot and a digit. */
  predicate VersionAt(line: bytes, dot: nat) {
    && 6 <= dot && dot + 1 < |line|
    && Letter(line[0], 'h') && Letter(line[1], 't') && Letter(line[2], 't') && Letter(line[3], 'p')
    && line[4] == '/' as int && IsDigit(line[5]) && IsDigit(line[dot + 1])
    && line[dot] == '.' as int && forall k | 5 <= k < dot :: line[k] != '.' as int
  }

  lemma PrefixIff(line: bytes)
    ensures HttpPrefix(line) <==> |line| >= 4 && Letter(line[0], 'h') && Letter(line[1], 't') && Letter(line[2], 't')
                                  && Letter(line[3], 'p')
  {
    if |line| >= 4 {
      var low := LowerAll(line[..4]);
      assert low[0] == Lower(line[0]) && low[1] == Lower(line[1]);
      assert low[2] == Lower(line[2]) && low[3] == Lower(line[3]);
      var http := Text("http");
      assert http == ['h' as int, 't' as int, 't' as int, 'p' as int];
      assert low == http <==> low[0] == http[0] && low[1] == http[1] && low[2] == http[2] && low[3] == http[3];
    }
  }

  /** The version of a line is that of the digits, and 0.0 for a line of another form. */
  lemma VersionRead(line: bytes, dot: nat)
    requires VersionAt(line, dot)
    ensures ParseVersion(line) == Version(line[5] - '0' as int, line[dot + 1] - '0' as int)
  {
    hide HttpPrefix, Find, Text;
    PrefixIff(line);
    FindIs(line, 4, dot, {DOT});
  }

  lemma VersionMissing(line: bytes)
    requires forall dot: nat :: !VersionAt(line, dot)
    ensures ParseVersion(line) == Version(0, 0)
  {
    hide HttpPrefix, Find, Text;
    PrefixIff(line);
    if HttpPrefix(line) && |line| > 4 && line[4] == SLASH {
      var dot := Find(line, 4, {DOT});
      assert dot < |line| ==> dot >= 5;
      assert !VersionAt(line, dot);
    }
  }

  /** Among 1.0 and 1.1 the clamped version is the last that is not above what was read, or 1.0; only
      2.0, and a 0.9 without headers, stay. */
  lemma ClampIs(v: Version, hasHeaders: bool)
    ensures var r := Clamp(v, hasHeaders);
            if v == Version(2, 0) || (v == Version(0, 9) && !hasHeaders) then r == v
            else && (r == Version(1, 0) || r == Version(1, 1))
                 && (r == Version(1, 1) <==> v.major > 1 || (v.major == 1 && v.minor > 0))
  {
  }

  // ---------------------------------------------------------------- the line that is written

  function Digit(n: nat): byte
    requires n < 10
  {
    n + '0' as int
  }

  /** The line that takes the place of the one read. */
  lemma NormalText(line: bytes, hasHeaders: bool)
    ensures var st := ReadStatus(line, hasHeaders);
            var v := Clamp(ParseVersion(line), hasHeaders);
            NormalLine(line, hasHeaders)
            == Text("HTTP/") + [Digit(v.major), '.' as int, Digit(v.minor), SP] + st.code
               + if st.reason == [] then [] else [SP] + st.reason
  {
    hide ParseVersion, Clamp, Skip, Find, DropSpaces, DIGITS;
    var st := ReadStatus(line, hasHeaders);
    VersionStays(line, hasHeaders);
    HttpSlash();
    assert VersionText(st.version) + [SP]
        == Text("HTTP/") + [Digit(st.version.major), '.' as int, Digit(st.version.minor), SP];
  }

  lemma VersionStays(line: bytes, hasHeaders: bool)
    ensures ReadStatus(line, hasHeaders).version == Clamp(ParseVersion(line), hasHeaders)
  {
    hide ParseVersion, Clamp, Skip, Find, DropSpaces, DIGITS, Text;
  }

  lemma HttpSlash()
    ensures Text("HTTP/") == ['H' as int, 'T' as int, 'T' as int, 'P' as int, '/' as int]
  {
  }
}
