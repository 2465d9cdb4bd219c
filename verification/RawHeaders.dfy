/** `AssembleRawHeaders` and `ConvertHeadersBackToHTTPResponse` of src/http_parser/http_util.cc:
    header text with its line breaks and continuations, and the form with one NUL after each line
    that HttpResponseHeaders reads. */
module RawHeaders {
  import opened Ascii
  import opened Quoting
  import opened HttpText

  const CRLF: set<byte> := {CR, LF}

  /** The junk that may precede a status line. */
  const SLOP := 4

  predicate HttpAt(s: bytes, i: nat) { i + 4 <= |s| && LowerAll(s[i..i + 4]) == Text("http") }

  /** The first "http" that begins within the slop. */
  method LocateStartOfStatusLine(s: bytes) returns (r: Option<nat>)
    ensures r == Located(s)
  {
    if |s| >= 4 {
      var iMax := if |s| - 4 < SLOP then |s| - 4 else SLOP;
      var i := 0;
      while i <= iMax
        invariant i <= iMax + 1
        invariant Located(s) == LocatedFrom(s, i)
      {
        if HttpAt(s, i) {
          return Some(i);
        }
        i := i + 1;
      }
    }
    return None;
  }

  function LocatedFrom(s: bytes, i: nat): (r: Option<nat>)
    ensures r.Some? ==> i <= r.value <= SLOP && HttpAt(s, r.value)
    ensures forall k | i <= k <= SLOP && HttpAt(s, k) :: r.Some? && r.value <= k
    decreases SLOP + 1 - i
  {
    if i > SLOP then None else if HttpAt(s, i) then Some(i) else LocatedFrom(s, i + 1)
  }

  function Located(s: bytes): Option<nat> { LocatedFrom(s, 0) }

  // ---------------------------------------------------------------- lines and continuations

  /** `IsLineSegmentContinuable`: the line has a name that is not empty and does not begin with
      white space. */
  predicate Continuable(line: bytes) {
    var colon := Find(line, 0, {COLON});
    colon < |line| && colon > 0 && !IsBlank(line[0])
  }

  /** The lines so far, and whether the last one may be continued. */
  datatype Joined = Joined(lines: seq<bytes>, open: bool)

  predicate Continues(j: Joined, seg: bytes) { j.open && j.lines != [] && seg != [] && IsBlank(seg[0]) }

  /** One more line of input: a continuation goes to the end of the last line, its leading white
      space reduced to one space. */
  function JoinLine(j: Joined, seg: bytes): Joined {
    if Continues(j, seg) then
      var n := |j.lines| - 1;
      j.(lines := j.lines[..n] + [j.lines[n] + [SP] + seg[SkipLws(seg, 0, |seg|)..]])
    else Joined(j.lines + [seg], Continuable(seg))
  }

  function JoinAll(segs: seq<bytes>): Joined {
    if segs == [] then Joined([], false) else JoinLine(JoinAll(segs[..|segs| - 1]), segs[|segs| - 1])
  }

  function Texts(s: bytes, r: seq<Stretch>): (t: seq<bytes>)
    requires forall i | 0 <= i < |r| :: r[i].b < r[i].e <= |s|
    ensures |t| == |r| && forall i | 0 <= i < |r| :: t[i] == s[r[i].b..r[i].e]
  {
    if r == [] then [] else Texts(s, r[..|r| - 1]) + [s[r[|r| - 1].b..r[|r| - 1].e]]
  }

  /** A status line and the header lines after it. */
  datatype Sheet = Sheet(status: bytes, lines: seq<bytes>)

  function FromStatus(input: bytes): bytes {
    match Located(input)
    case None => input
    case Some(i) => input[i..]
  }

  function Read(input: bytes): Sheet {
    var s := FromStatus(input);
    var e := Find(s, 0, CRLF);
    Sheet(s[..e], JoinAll(Texts(s, Tokens(s, e, CRLF))).lines)
  }

  /** Every line, with `sep` before it. */
  function Before(lines: seq<bytes>, sep: bytes): bytes {
    if lines == [] then [] else Before(lines[..|lines| - 1], sep) + sep + lines[|lines| - 1]
  }

  // ---------------------------------------------------------------- assembling

  /** `gurl_base::Erase(s, '\0')`. */
  function EraseNul(s: bytes): bytes {
    if s == [] then [] else EraseNul(s[..|s| - 1]) + (if s[|s| - 1] == NUL then [] else [s[|s| - 1]])
  }

  /** `std::replace(s, '\n', '\0')`. */
  function LfToNul(s: bytes): (r: bytes)
    ensures |r| == |s| && forall i | 0 <= i < |s| :: r[i] == if s[i] == LF then NUL else s[i]
  {
    seq(|s|, i requires 0 <= i < |s| => if s[i] == LF then NUL else s[i])
  }

  function LineText(sheet: Sheet): bytes { sheet.status + Before(sheet.lines, [LF]) + [LF, LF] }

  /** What one more line of input does to the text. */
  lemma BeforeJoined(j: Joined, seg: bytes, sep: bytes)
    ensures Before(JoinLine(j, seg).lines, sep)
            == Before(j.lines, sep) + if Continues(j, seg) then [SP] + seg[SkipLws(seg, 0, |seg|)..] else sep + seg
  {
    hide Continuable, SkipLws, IsBlank;
    var next := JoinLine(j, seg).lines;
    if Continues(j, seg) {
      assert next[..|next| - 1] == j.lines[..|j.lines| - 1];
    } else {
      assert next[..|next| - 1] == j.lines;
    }
  }

  lemma JoinNext(segs: seq<bytes>, k: nat)
    requires k < |segs|
    ensures JoinAll(segs[..k + 1]) == JoinLine(JoinAll(segs[..k]), segs[k])
  {
    assert segs[..k + 1][..k] == segs[..k];
  }

  /** The loop over the lines after the status line. */
  method AppendLines(raw0: bytes, segs: seq<bytes>) returns (raw: bytes)
    requires forall i | 0 <= i < |segs| :: segs[i] != []
    ensures raw == raw0 + Before(JoinAll(segs).lines, [LF])
  {
    hide Continuable, SkipLws, IsBlank, Before, JoinAll;
    raw := raw0;
    var open := false;
    ghost var j := Joined([], false);
    var k := 0;
    BeforeNone([LF]);
    while k < |segs|
      invariant k <= |segs|
      invariant j == JoinAll(segs[..k]) && open == j.open && (open ==> j.lines != [])
      invariant raw == raw0 + Before(j.lines, [LF])
    {
      var line := segs[k];
      JoinNext(segs, k);
      BeforeJoined(j, line, [LF]);
      if open && IsBlank(line[0]) {
        raw := raw + ([SP] + line[SkipLws(line, 0, |line|)..]);
      } else {
        raw := raw + ([LF] + line);
        open := Continuable(line);
      }
      j := JoinLine(j, line);
      k := k + 1;
    }
    assert segs[..k] == segs;
  }

  method AssembleRawHeaders(input: bytes) returns (raw: bytes)
    ensures raw == LfToNul(EraseNul(LineText(Read(input))))
  {
    hide Tokens, Find, LfToNul, EraseNul, LocatedFrom, Before, JoinAll;
    var at := LocateStartOfStatusLine(input);
    var s := if at.Some? then input[at.value..] else input;
    var statusEnd := Find(s, 0, CRLF);
    raw := AppendLines(s[..statusEnd], Texts(s, Tokens(s, statusEnd, CRLF)));
    raw := raw + [LF, LF];
    raw := LfToNul(EraseNul(raw));
  }

  lemma BeforeNone(sep: bytes)
    ensures Before([], sep) == [] && JoinAll([]) == Joined([], false)
  {
  }

  // ---------------------------------------------------------------- and back

  function After(lines: seq<bytes>, sep: bytes): bytes {
    if lines == [] then [] else After(lines[..|lines| - 1], sep) + lines[|lines| - 1] + sep
  }

  method ConvertHeadersBackToHTTPResponse(str: bytes) returns (r: bytes)
    ensures r == After(Texts(str, Tokens(str, 0, {NUL})), [CR, LF]) + [CR, LF]
  {
    r := [];
    var tokens := Tokens(str, 0, {NUL});
    ghost var texts := Texts(str, tokens);
    var k := 0;
    while k < |tokens|
      invariant k <= |tokens| && r == After(texts[..k], [CR, LF])
    {
      assert texts[..k + 1][..k] == texts[..k];
      r := r + str[tokens[k].b..tokens[k].e] + [CR, LF];
      k := k + 1;
    }
    assert texts[..k] == texts;
    r := r + [CR, LF];
  }
}
