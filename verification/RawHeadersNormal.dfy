/** The normal form of raw headers: assembling, converting back and assembling again. */
module RawHeadersNormal {
  import opened Ascii
  import opened Quoting
  import opened HttpText
  import opened RawHeaders

  /** No line break and no NUL. */
  predicate Clean(s: bytes) { NUL !in s && CR !in s && LF !in s }

  predicate CleanLines(lines: seq<bytes>) { forall i | 0 <= i < |lines| :: lines[i] != [] && Clean(lines[i]) }

  // ---------------------------------------------------------------- joining

  lemma CleanTail(a: bytes, b: bytes, k: nat)
    requires Clean(a) && Clean(b) && k <= |b|
    ensures Clean(a + [SP] + b[k..])
  {
    var t := a + [SP] + b[k..];
    forall i | 0 <= i < |t| ensures t[i] != NUL && t[i] != CR && t[i] != LF {
      if i < |a| {
        assert t[i] == a[i];
      } else if i > |a| {
        assert t[i] == b[k + (i - |a| - 1)];
      }
    }
  }

  lemma JoinLineClean(j: Joined, seg: bytes)
    requires CleanLines(j.lines) && seg != [] && Clean(seg)
    ensures var k := JoinLine(j, seg); CleanLines(k.lines) && |k.lines| <= |j.lines| + 1
  {
    hide Continuable, SkipLws, IsBlank, Clean;
    if Continues(j, seg) {
      CleanTail(j.lines[|j.lines| - 1], seg, SkipLws(seg, 0, |seg|));
    }
  }

  lemma {:induction false} JoinClean(segs: seq<bytes>)
    requires CleanLines(segs)
    ensures CleanLines(JoinAll(segs).lines) && |JoinAll(segs).lines| <= |segs|
  {
    hide JoinLine, Clean;
    if segs != [] {
      var n := |segs| - 1;
      JoinClean(segs[..n]);
      JoinLineClean(JoinAll(segs[..n]), segs[n]);
    }
  }

  lemma ContinuableLonger(line: bytes, x: bytes)
    requires Continuable(line)
    ensures Continuable(line + x)
  {
    var colon := Find(line, 0, {COLON});
    assert (line + x)[colon] == COLON && (line + x)[0] == line[0];
    var r := Find(line + x, 0, {COLON});
    assert r < |line| ==> (line + x)[r] == line[r];
  }

  /** When lines join to themselves, whether more may follow depends on the last. */
  lemma OpenIsContinuable(lines: seq<bytes>)
    requires lines != [] && CleanLines(lines) && JoinAll(lines).lines == lines && JoinAll(lines).open
    ensures Continuable(lines[|lines| - 1]) && !Continues(JoinAll(lines[..|lines| - 1]), lines[|lines| - 1])
  {
    hide Continuable, SkipLws, IsBlank, Clean, JoinAll;
    var m := |lines| - 1;
    JoinClean(lines[..m]);
    JoinLast(lines);
  }

  lemma JoinLast(lines: seq<bytes>)
    requires lines != []
    ensures JoinAll(lines) == JoinLine(JoinAll(lines[..|lines| - 1]), lines[|lines| - 1])
  {
  }

  /** Lines that join to themselves still do with a continuation at the end of the last. */
  lemma JoinLonger(j: Joined, seg: bytes)
    requires CleanLines(j.lines) && JoinAll(j.lines) == j && Continues(j, seg)
    ensures JoinAll(JoinLine(j, seg).lines) == JoinLine(j, seg)
  {
    hide Continuable, SkipLws, IsBlank, Clean, JoinAll;
    var m := |j.lines| - 1;
    JoinLast(j.lines);
    var last, before := j.lines[m], JoinAll(j.lines[..m]);
    var tail := [SP] + seg[SkipLws(seg, 0, |seg|)..];
    var x := last + tail;
    assert JoinLine(j, seg) == j.(lines := j.lines[..m] + [x]) by {
      assert x == last + [SP] + seg[SkipLws(seg, 0, |seg|)..];
    }
    JoinClean(j.lines[..m]);
    OpenIsContinuable(j.lines);
    ContinuableLonger(last, tail);
    var longer := j.lines[..m] + [x];
    assert longer[..m] == j.lines[..m] && longer[m] == x;
    assert j == JoinLine(before, last) && !Continues(before, last);
    assert before.lines == j.lines[..m];
    assert x[0] == last[0];
    JoinLast(longer);
  }

  /** Joined lines have no continuations left: joining them changes nothing. */
  lemma {:induction false} JoinAgain(segs: seq<bytes>)
    requires CleanLines(segs)
    ensures JoinAll(JoinAll(segs).lines) == JoinAll(segs)
  {
    hide Continuable, SkipLws, IsBlank, Clean;
    if segs != [] {
      var n := |segs| - 1;
      var j, seg := JoinAll(segs[..n]), segs[n];
      JoinAgain(segs[..n]);
      JoinClean(segs[..n]);
      if Continues(j, seg) {
        JoinLonger(j, seg);
      } else {
        assert (j.lines + [seg])[..|j.lines|] == j.lines;
      }
    }
  }

  // ---------------------------------------------------------------- lines and their terminators

  lemma BeforeIsAfter(lines: seq<bytes>, sep: bytes)
    ensures Before(lines, sep) + sep == sep + After(lines, sep)
  {
    if lines != [] {
      BeforeIsAfter(lines[..|lines| - 1], sep);
    }
  }

  lemma {:induction false} AfterCons(x: bytes, lines: seq<bytes>, sep: bytes)
    ensures After([x] + lines, sep) == x + sep + After(lines, sep)
  {
    if lines == [] {
      assert ([x] + lines)[..0] == [];
    } else {
      var n := |lines| - 1;
      AfterCons(x, lines[..n], sep);
      assert ([x] + lines)[..n + 1] == [x] + lines[..n];
      assert After([x] + lines, sep) == After([x] + lines[..n], sep) + lines[n] + sep;
    }
  }

  predicate AllIn(s: bytes, delims: set<byte>) { forall k | 0 <= k < |s| :: s[k] in delims }

  predicate NoneIn(s: bytes, delims: set<byte>) { forall k | 0 <= k < |s| :: s[k] !in delims }

  predicate LinesFreeOf(lines: seq<bytes>, delims: set<byte>) {
    forall i | 0 <= i < |lines| :: lines[i] != [] && NoneIn(lines[i], delims)
  }

  /** One line and its terminator. */
  lemma TokenOfLine(pre: bytes, x: bytes, sep: bytes, rest: bytes, delims: set<byte>)
    requires x != [] && NoneIn(x, delims) && sep != [] && AllIn(sep, delims)
    ensures var s := pre + x + sep + rest;
            Texts(s, Tokens(s, |pre|, delims)) == [x] + Texts(s, Tokens(s, |pre| + |x| + |sep|, delims))
  {
    hide Tokens, Texts;
    var s := pre + x + sep + rest;
    var p, e, q := |pre|, |pre| + |x|, |pre| + |x| + |sep|;
    forall i | p <= i < e ensures s[i] !in delims { assert s[i] == x[i - p]; }
    forall i | e <= i < q ensures s[i] in delims { assert s[i] == sep[i - e]; }
    FirstToken(s, p, e, delims);
    SkipDelims(s, e + 1, q, delims);
    TextsCons(s, Stretch(p, e), Tokens(s, q, delims));
    assert s[p..e] == x;
  }

  /** The tokens of lines that delimiters end are the lines. */
  lemma {:induction false} TokensOfLines(pre: bytes, lines: seq<bytes>, sep: bytes, tail: bytes, delims: set<byte>)
    requires LinesFreeOf(lines, delims) && sep != [] && AllIn(sep, delims) && AllIn(tail, delims)
    ensures var s := pre + After(lines, sep) + tail;
            Texts(s, Tokens(s, |pre|, delims)) == lines
    decreases |lines|
  {
    hide Tokens, Texts, NoneIn;
    var s := pre + After(lines, sep) + tail;
    if lines == [] {
      assert s == pre + tail;
      NoTokens(pre, tail, delims);
    } else {
      var x, rest := lines[0], lines[1..];
      assert lines == [x] + rest;
      AfterCons(x, rest, sep);
      assert s == (pre + x + sep) + After(rest, sep) + tail;
      TokensOfLines(pre + x + sep, rest, sep, tail, delims);
      assert s == pre + x + sep + (After(rest, sep) + tail);
      TokenOfLine(pre, x, sep, After(rest, sep) + tail, delims);
    }
  }

  lemma NoTokens(pre: bytes, tail: bytes, delims: set<byte>)
    requires AllIn(tail, delims)
    ensures Texts(pre + tail, Tokens(pre + tail, |pre|, delims)) == []
  {
    var s := pre + tail;
    var b := Skip(s, |pre|, delims);
    assert b == |s|;
  }

  lemma SkipDelims(s: bytes, p: nat, q: nat, delims: set<byte>)
    requires p <= q <= |s| && forall i | p <= i < q :: s[i] in delims
    ensures Tokens(s, p, delims) == Tokens(s, q, delims)
  {
    assert Skip(s, p, delims) == Skip(s, q, delims) by {
      var a, b := Skip(s, p, delims), Skip(s, q, delims);
      assert a >= q || a == |s|;
    }
  }

  lemma {:induction false} TextsCons(s: bytes, x: Stretch, r: seq<Stretch>)
    requires x.b < x.e <= |s| && forall i | 0 <= i < |r| :: r[i].b < r[i].e <= |s|
    ensures Texts(s, [x] + r) == [s[x.b..x.e]] + Texts(s, r)
  {
  }

  // ---------------------------------------------------------------- the assembled form

  function Assembled(input: bytes): bytes { LfToNul(EraseNul(LineText(Read(input)))) }

  function Converted(raw: bytes): bytes { After(Texts(raw, Tokens(raw, 0, {NUL})), [CR, LF]) + [CR, LF] }

  /** A sheet without NUL or line breaks, without empty lines and without continuations. */
  predicate CleanSheet(sheet: Sheet) {
    Clean(sheet.status) && CleanLines(sheet.lines) && JoinAll(sheet.lines).lines == sheet.lines
  }

  lemma ReadClean(input: bytes)
    requires NUL !in input
    ensures CleanSheet(Read(input))
  {
    hide JoinAll, Tokens, Find, LocatedFrom;
    var s := FromStatus(input);
    assert NUL !in s;
    var e := Find(s, 0, CRLF);
    var r := Tokens(s, e, CRLF);
    var segs := Texts(s, r);
    forall i | 0 <= i < |segs| ensures segs[i] != [] && Clean(segs[i]) {
      TokenClean(s, r[i]);
    }
    JoinClean(segs);
    JoinAgain(segs);
    TokenClean(s, Stretch(0, e));
  }

  lemma TokenClean(s: bytes, x: Stretch)
    requires NUL !in s && x.b <= x.e <= |s| && forall k | x.b <= k < x.e :: s[k] !in CRLF
    ensures Clean(s[x.b..x.e])
  {
    var t := s[x.b..x.e];
    forall i | 0 <= i < |t| ensures t[i] != NUL && t[i] != CR && t[i] != LF {
      assert t[i] == s[x.b + i];
    }
  }

  lemma {:induction false} EraseNone(s: bytes)
    requires NUL !in s
    ensures EraseNul(s) == s
  {
    if s != [] {
      EraseNone(s[..|s| - 1]);
    }
  }

  lemma LfToNulConcat(a: bytes, b: bytes)
    ensures LfToNul(a + b) == LfToNul(a) + LfToNul(b)
  {
  }

  lemma LfToNulClean(a: bytes)
    requires Clean(a)
    ensures LfToNul(a) == a
  {
  }

  lemma {:induction false} BeforeToNul(lines: seq<bytes>)
    requires CleanLines(lines)
    ensures LfToNul(Before(lines, [LF])) == Before(lines, [NUL]) && NUL !in Before(lines, [LF])
  {
    hide LfToNul, Clean;
    if lines == [] {
      LfToNulClean([]) by { assert Clean([]) by { CleanNone(); } }
    } else {
      var n := |lines| - 1;
      var init, x := lines[..n], lines[n];
      BeforeToNul(init);
      LfToNulClean(x);
      LfToNulConcat(Before(init, [LF]) + [LF], x);
      LfToNulConcat(Before(init, [LF]), [LF]);
      LfToNulOne();
      CleanHasNoNul(x);
    }
  }

  lemma CleanNone()
    ensures Clean([])
  {
  }

  lemma LfToNulOne()
    ensures LfToNul([LF]) == [NUL] && LfToNul([LF, LF]) == [NUL, NUL]
  {
  }

  lemma CleanHasNoNul(x: bytes)
    requires Clean(x)
    ensures NUL !in x
  {
  }

  /** The assembly is the status line and the header lines, a NUL after each and one more. */
  lemma AssembledIs(input: bytes)
    requires NUL !in input
    ensures var sheet := Read(input);
            Assembled(input) == After([sheet.status] + sheet.lines, [NUL]) + [NUL]
  {
    hide LfToNul, EraseNul, Read, Clean, JoinAll, Before, After;
    var sheet := Read(input);
    ReadClean(input);
    var b := Before(sheet.lines, [LF]);
    BeforeToNul(sheet.lines);
    CleanHasNoNul(sheet.status);
    EraseNone(LineText(sheet));
    LfToNulConcat(sheet.status + b, [LF, LF]);
    LfToNulConcat(sheet.status, b);
    LfToNulOne();
    LfToNulClean(sheet.status);
    var c := Before(sheet.lines, [NUL]);
    assert Assembled(input) == sheet.status + c + [NUL, NUL];
    BeforeIsAfter(sheet.lines, [NUL]);
    AfterCons(sheet.status, sheet.lines, [NUL]);
    assert sheet.status + c + [NUL, NUL] == sheet.status + (c + [NUL]) + [NUL];
    assert sheet.status + ([NUL] + After(sheet.lines, [NUL])) + [NUL]
           == sheet.status + [NUL] + After(sheet.lines, [NUL]) + [NUL];
  }

  /** No line break in the assembly, and two NULs together only at its end. */
  lemma {:induction false} AfterIsPlain(status: bytes, lines: seq<bytes>)
    requires Clean(status) && CleanLines(lines)
    ensures var a := After([status] + lines, [NUL]);
            && a != [] && a[|a| - 1] == NUL && CR !in a && LF !in a
            && (forall i | 0 <= i < |a| - 1 :: !(a[i] == NUL && a[i + 1] == NUL))
  {
    if lines == [] {
      AfterCons(status, [], [NUL]);
      assert After([], [NUL]) == [];
      assert After([status] + lines, [NUL]) == status + [NUL];
    } else {
      var n := |lines| - 1;
      AfterIsPlain(status, lines[..n]);
      var b, x := After([status] + lines[..n], [NUL]), lines[n];
      assert ([status] + lines)[..n + 1] == [status] + lines[..n];
      var a := After([status] + lines, [NUL]);
      assert a == b + x + [NUL];
      forall i | 0 <= i < |a| - 1 ensures !(a[i] == NUL && a[i + 1] == NUL) {
        if |b| <= i < |b| + |x| {
          assert a[i] == x[i - |b|];
        } else if i == |b| - 1 {
          assert a[i + 1] == x[0];
        }
      }
    }
  }

  lemma AssembledIsPlain(input: bytes)
    requires NUL !in input
    ensures var a := Assembled(input);
            && CR !in a && LF !in a && |a| >= 2 && a[|a| - 2..] == [NUL, NUL]
            && forall i | 0 <= i < |a| - 2 :: !(a[i] == NUL && a[i + 1] == NUL)
  {
    hide After, JoinAll, Read, Assembled;
    var sheet := Read(input);
    ReadClean(input);
    AssembledIs(input);
    AfterIsPlain(sheet.status, sheet.lines);
  }

  // ---------------------------------------------------------------- assembling again

  lemma CleanIsFree(lines: seq<bytes>)
    requires CleanLines(lines)
    ensures LinesFreeOf(lines, {NUL}) && LinesFreeOf(lines, CRLF)
  {
  }

  /** The lines that converting back finds: all that are not empty. */
  function NonEmpty(sheet: Sheet): seq<bytes> {
    if sheet.status == [] then sheet.lines else [sheet.status] + sheet.lines
  }

  lemma ConvertedIs(input: bytes)
    requires NUL !in input
    ensures var lines := NonEmpty(Read(input));
            CleanLines(lines) && Converted(Assembled(input)) == After(lines, [CR, LF]) + [CR, LF]
  {
    hide After, JoinAll, Read, Assembled, Tokens, Texts, Clean;
    var sheet := Read(input);
    ReadClean(input);
    AssembledIs(input);
    var lines := NonEmpty(sheet);
    CleanIsFree(lines);
    if sheet.status == [] {
      AfterCons([], lines, [NUL]);
      assert Assembled(input) == [NUL] + After(lines, [NUL]) + [NUL];
      TokensOfLines([NUL], lines, [NUL], [NUL], {NUL});
      SkipDelims(Assembled(input), 0, 1, {NUL});
    } else {
      assert Assembled(input) == [] + After(lines, [NUL]) + [NUL];
      TokensOfLines([], lines, [NUL], [NUL], {NUL});
    }
  }

  lemma {:induction false} AfterHasNoNul(lines: seq<bytes>)
    requires CleanLines(lines)
    ensures NUL !in After(lines, [CR, LF])
  {
    if lines != [] {
      AfterHasNoNul(lines[..|lines| - 1]);
    }
  }

  /** Reading lines that end in CRLF, when nothing is skipped before the first. */
  lemma ReadConverted(x: bytes, lines: seq<bytes>)
    requires x != [] && Clean(x) && CleanLines(lines)
    requires var b := After([x] + lines, [CR, LF]) + [CR, LF]; Located(b).None? || Located(b) == Some(0)
    ensures var b := After([x] + lines, [CR, LF]) + [CR, LF];
            NUL !in b && Read(b) == Sheet(x, JoinAll(lines).lines)
  {
    hide JoinAll, Tokens, Texts, LocatedFrom, Find, Clean, After;
    var a, n := After(lines, [CR, LF]), |x| + 2;
    var b := After([x] + lines, [CR, LF]) + [CR, LF];
    AfterHasNoNul([x] + lines);
    AfterCons(x, lines, [CR, LF]);
    assert b == (x + [CR, LF]) + a + [CR, LF];
    assert b[..|x|] == x && b[|x|] == CR && b[|x| + 1] == LF;
    assert FromStatus(b) == b;
    FirstBreak(b, x);
    CleanIsFree(lines);
    TokensOfLines(x + [CR, LF], lines, [CR, LF], [CR, LF], CRLF);
    SkipDelims(b, |x|, n, CRLF);
  }

  lemma FirstBreak(b: bytes, x: bytes)
    requires |x| < |b| && b[..|x|] == x && Clean(x) && b[|x|] == CR
    ensures Find(b, 0, CRLF) == |x|
  {
    assert forall i | 0 <= i < |x| :: b[i] == x[i];
  }

  /** A located status line begins with "http". */
  lemma LocatedStatus(input: bytes)
    requires Located(input).Some?
    ensures HttpAt(Read(input).status, 0)
  {
    hide JoinAll, Tokens, Texts;
    var s := FromStatus(input);
    var i := Located(input).value;
    assert s[..4] == input[i..i + 4];
    var low := LowerAll(s[..4]);
    forall k | 0 <= k < 4 ensures s[k] !in CRLF {
      assert low[k] == Lower(s[..4][k]) && low[k] == Text("http")[k];
    }
    var e := Find(s, 0, CRLF);
    assert e >= 4;
    assert s[..e][0..4] == s[..4];
  }

  /** For headers whose status line is found, assembling is a normal form. */
  lemma AssembleAgain(input: bytes)
    requires NUL !in input && Located(input).Some?
    ensures Assembled(Converted(Assembled(input))) == Assembled(input)
  {
    hide Read, JoinAll, Tokens, Texts, Assembled, Converted, LocatedFrom, After, Clean;
    var sheet := Read(input);
    ReadClean(input);
    LocatedStatus(input);
    ConvertedIs(input);
    var b := Converted(Assembled(input));
    HttpFirst(b, sheet.status, sheet.lines);
    ReadConverted(sheet.status, sheet.lines);
    AssembledIs(input);
    AssembledIs(b);
  }

  lemma HttpFirst(b: bytes, x: bytes, lines: seq<bytes>)
    requires HttpAt(x, 0) && b == After([x] + lines, [CR, LF]) + [CR, LF]
    ensures Located(b) == Some(0)
  {
    AfterCons(x, lines, [CR, LF]);
    assert b[0..4] == x[0..4];
  }

  /** The first four bytes of an assembly read "http" exactly when the status line was found. */
  lemma AssembledHttp(input: bytes)
    requires NUL !in input
    ensures HttpAt(Assembled(input), 0) <==> Located(input).Some?
  {
    hide JoinAll, Tokens, Texts, Assembled, After;
    var sheet := Read(input);
    AssembledIs(input);
    AfterCons(sheet.status, sheet.lines, [NUL]);
    var a := Assembled(input);
    assert a == sheet.status + ([NUL] + After(sheet.lines, [NUL]) + [NUL]);
    if Located(input).Some? {
      LocatedStatus(input);
      assert a[0..4] == sheet.status[0..4];
    }
    if HttpAt(a, 0) {
      var low := LowerAll(a[0..4]);
      forall k | 0 <= k < 4 ensures a[k] != NUL {
        assert low[k] == Lower(a[0..4][k]) && low[k] == Text("http")[k];
      }
      assert a[|sheet.status|] == NUL;
      assert FromStatus(input)[0..4] == a[0..4];
      assert HttpAt(FromStatus(input), 0);
    }
  }

  /** "http" does not go over a line break. */
  lemma HttpAround(x: bytes, y: bytes, i: nat)
    requires Clean(x)
    ensures HttpAt(x + [CR, LF] + y, i) <==> HttpAt(x, i) || (i >= |x| + 2 && HttpAt(y, i - |x| - 2))
  {
    var b, n := x + [CR, LF] + y, |x|;
    if i + 4 <= n {
      assert b[i..i + 4] == x[i..i + 4];
    } else if i >= n + 2 {
      assert i + 4 <= |b| ==> b[i..i + 4] == y[i - n - 2..i + 2 - n];
    } else if i + 4 <= |b| {
      var k := if i <= n then n - i else n + 1 - i;
      assert b[i..i + 4][k] == if i <= n then CR else LF;
      assert LowerAll(b[i..i + 4])[k] != Text("http")[k];
    }
  }

  /** The first header line begins with "http", or nearly so, and follows a status line so short
      that between CR LF it comes within the slop. */
  predicate HttpFollows(sheet: Sheet) {
    sheet.lines != [] && exists j: nat :: |sheet.status| + 2 + j <= SLOP && HttpAt(sheet.lines[0], j)
  }

  lemma NoHttpInBreak(i: nat)
    ensures !HttpAt([CR, LF], i)
  {
  }

  /** Where "http" may come from when a status line that was not found is converted back. */
  lemma HttpPlace(input: bytes, x: bytes, lines: seq<bytes>, i: nat)
    requires Located(input).None? && x <= input && x != [] && Clean(x) && CleanLines(lines) && i <= SLOP
    ensures HttpAt(After([x] + lines, [CR, LF]) + [CR, LF], i)
            <==> lines != [] && i >= |x| + 2 && HttpAt(lines[0], i - |x| - 2)
  {
    hide After, Clean, LocatedFrom, HttpAt;
    var y := After(lines, [CR, LF]) + [CR, LF];
    AfterCons(x, lines, [CR, LF]);
    assert After([x] + lines, [CR, LF]) + [CR, LF] == x + [CR, LF] + y;
    HttpAround(x, y, i);
    HttpOfPrefix(input, x, i);
    if i >= |x| + 2 {
      FirstLineHttp(lines, i - |x| - 2);
    }
  }

  lemma HttpOfPrefix(input: bytes, x: bytes, i: nat)
    requires x <= input
    ensures HttpAt(x, i) ==> HttpAt(input, i)
  {
    if HttpAt(x, i) {
      assert input[i..i + 4] == x[i..i + 4];
    }
  }

  lemma LocatedAgain(input: bytes, x: bytes, lines: seq<bytes>)
    requires Located(input).None? && x <= input && x != [] && Clean(x) && CleanLines(lines)
    ensures Located(After([x] + lines, [CR, LF]) + [CR, LF]).Some? <==> HttpFollows(Sheet(x, lines))
  {
    hide After, Clean, LocatedFrom, HttpAt, CleanLines;
    var b := After([x] + lines, [CR, LF]) + [CR, LF];
    if Located(b).Some? {
      HttpPlace(input, x, lines, Located(b).value);
    }
    if HttpFollows(Sheet(x, lines)) {
      var j: nat :| |x| + 2 + j <= SLOP && HttpAt(lines[0], j);
      HttpPlace(input, x, lines, |x| + 2 + j);
    }
  }

  lemma FirstLineHttp(lines: seq<bytes>, j: nat)
    requires CleanLines(lines) && j <= 1
    ensures HttpAt(After(lines, [CR, LF]) + [CR, LF], j) <==> lines != [] && HttpAt(lines[0], j)
  {
    hide After;
    if lines == [] {
      AfterNone();
      assert After(lines, [CR, LF]) + [CR, LF] == [CR, LF];
      NoHttpInBreak(j);
    } else {
      var x, rest := lines[0], lines[1..];
      assert lines == [x] + rest;
      AfterCons(x, rest, [CR, LF]);
      HttpAround(x, After(rest, [CR, LF]) + [CR, LF], j);
      assert After(lines, [CR, LF]) + [CR, LF] == x + [CR, LF] + (After(rest, [CR, LF]) + [CR, LF]);
    }
  }

  /** When it is not found, assembling again gives the same exactly when there are no header lines,
      or there is a status line and "http" does not follow it too closely. */
  lemma AssembleAgainIff(input: bytes)
    requires NUL !in input && Located(input).None?
    ensures var sheet := Read(input);
            Assembled(Converted(Assembled(input))) == Assembled(input)
            <==> sheet.lines == [] || (sheet.status != [] && !HttpFollows(sheet))
  {
    hide JoinAll, Tokens, Texts, Assembled, Converted, LocatedFrom, After, Clean, HttpFollows, Find;
    var sheet := Read(input);
    var b := Converted(Assembled(input));
    ReadClean(input);
    ConvertedIs(input);
    AfterHasNoNul(NonEmpty(sheet));
    assert NUL !in b;
    AssembledHttp(input);
    AssembledHttp(b);
    AssembledIs(input);
    AssembledIs(b);
    if sheet.status != [] {
      LocatedAgain(input, sheet.status, sheet.lines);
      NoneFollows(sheet);
      if Located(b).None? {
        ReadConverted(sheet.status, sheet.lines);
      }
    } else if sheet.lines == [] {
      ReadEmpty();
      AfterNone();
      assert b == [CR, LF];
    } else if Located(b).None? {
      LineMovesUp(input);
    }
  }

  lemma NoneFollows(sheet: Sheet)
    ensures HttpFollows(sheet) ==> sheet.lines != []
  {
  }

  /** Without a status line the first header line takes its place. */
  lemma LineMovesUp(input: bytes)
    requires NUL !in input && Read(input).status == [] && Read(input).lines != []
    requires Located(Converted(Assembled(input))).None?
    ensures Assembled(Converted(Assembled(input))) != Assembled(input)
  {
    hide Read, JoinAll, Tokens, Texts, Assembled, Converted, LocatedFrom, After, Clean;
    var sheet := Read(input);
    var b := Converted(Assembled(input));
    ReadClean(input);
    ConvertedIs(input);
    AssembledIs(input);
    var x, rest := sheet.lines[0], sheet.lines[1..];
    assert sheet.lines == [x] + rest;
    ReadConverted(x, rest);
    AssembledIs(b);
    AfterCons(x, JoinAll(rest).lines, [NUL]);
    AfterCons([], sheet.lines, [NUL]);
    CleanHasNoNul(x);
    assert Assembled(b)[0] == x[0] && Assembled(input)[0] == NUL;
  }

  /** "a", four line feeds and "http:x": converting back moves "http" to byte 3, and assembling
      again then starts there. */
  lemma AssembledTwice(input: bytes)
    requires input == Text("a\n\n\n\nhttp:x")
    ensures Assembled(Converted(Assembled(input))) != Assembled(input)
  {
    hide Assembled, Converted, Tokens, Texts, JoinAll, Text, LocatedFrom, HttpAt, Find;
    InputBytes(input);
    var line := input[5..];
    forall i: nat | i <= SLOP ensures !HttpAt(input, i) {
      NoHttpBefore(input, i);
    }
    InputTokens(input);
    OneLine(input, line);
    assert HttpAt(Read(input).lines[0], 0);
    AssembleAgainIff(input);
  }

  lemma InputBytes(input: bytes)
    requires input == Text("a\n\n\n\nhttp:x")
    ensures |input| == 11 && NUL !in input && HttpAt(input[5..], 0)
    ensures input[0] == 'a' as int && forall i | 1 <= i < 5 :: input[i] == LF
    ensures forall i | 5 <= i < 11 :: input[i] != LF && input[i] != CR
  {
    assert input[5..][0..4] == Text("http");
  }

  lemma NoHttpBefore(input: bytes, i: nat)
    requires |input| >= 5 && i < 5 && input[0] == 'a' as int && forall k | 1 <= k < 5 :: input[k] == LF
    ensures !HttpAt(input, i)
  {
    if i + 4 <= |input| {
      assert LowerAll(input[i..i + 4])[0] == Lower(input[i]);
    }
  }

  lemma InputTokens(input: bytes)
    requires |input| == 11 && input[0] != CR && input[0] != LF
    requires (forall i | 1 <= i < 5 :: input[i] == LF) && forall i | 5 <= i < 11 :: input[i] != LF && input[i] != CR
    ensures Find(input, 0, CRLF) == 1 && Tokens(input, 1, CRLF) == [Stretch(5, 11)]
  {
    assert input[1] in CRLF && input[0] !in CRLF;
    SkipDelims(input, 1, 5, CRLF);
    assert Skip(input, 5, CRLF) == 5;
    assert Find(input, 5, CRLF) == 11;
    assert Tokens(input, 11, CRLF) == [];
  }

  lemma OneLine(input: bytes, line: bytes)
    requires |input| == 11 && line == input[5..]
    ensures JoinAll(Texts(input, [Stretch(5, 11)])).lines == [line]
  {
    var r := [Stretch(5, 11)];
    assert r[..0] == [];
    var t := Texts(input, r);
    assert t == [line] && t[..0] == [];
    assert JoinAll(t[..0]) == Joined([], false);
  }

  lemma AfterNone()
    ensures After([], [CR, LF]) == []
  {
  }

  lemma ReadEmpty()
    ensures Read([CR, LF]) == Sheet([], [])
  {
    var s: bytes := [CR, LF];
    assert Located(s).None?;
    assert Find(s, 0, CRLF) == 0;
    assert s == [] + s;
    NoTokens([], s, CRLF);
  }
}
