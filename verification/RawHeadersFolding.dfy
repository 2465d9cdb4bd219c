/** Which lines of raw headers are joined, told on texts: a line that begins with a space or a tab
    goes to the end of the line before it, when that has a name. */
module RawHeadersFolding {
  import opened Ascii
  import opened Quoting
  import opened HttpText
  import opened RawHeaders
  import opened RawHeadersNormal

  predicate Indented(t: bytes) { t != [] && (t[0] == SP || t[0] == HT) }

  predicate Blanks(t: bytes) { forall i | 0 <= i < |t| :: t[i] == SP || t[i] == HT }

  /** There is a colon, and before it a name that is not empty and does not begin with a blank. */
  predicate HasName(t: bytes) { t != [] && !Indented(t) && t[0] != COLON && COLON in t }

  lemma ContinuableIff(t: bytes)
    ensures Continuable(t) <==> HasName(t)
  {
    var colon := Find(t, 0, {COLON});
    if COLON in t {
      var k :| 0 <= k < |t| && t[k] == COLON;
    }
  }

  lemma IndentedIff(t: bytes)
    ensures Indented(t) <==> t != [] && IsBlank(t[0])
  {
  }

  /** Blanks and then a text that does not begin with one. */
  lemma SkipsBlanks(b: bytes, t: bytes)
    requires Blanks(b) && !Indented(t)
    ensures var s := b + t; s[SkipLws(s, 0, |s|)..] == t
  {
    var s := b + t;
    var k := SkipLws(s, 0, |s|);
    assert k > |b| ==> s[|b|] == t[0] && IsBlank(s[|b|]);
    assert k == |b|;
    assert s[|b|..] == t;
  }

  lemma HasNameLonger(t: bytes, x: bytes)
    requires HasName(t)
    ensures HasName(t + x)
  {
    var k :| 0 <= k < |t| && t[k] == COLON;
    assert (t + x)[k] == COLON;
  }

  /** The last line may go on exactly when it has a name. */
  lemma {:induction false} OpenIff(segs: seq<bytes>)
    requires forall i | 0 <= i < |segs| :: segs[i] != []
    ensures var j := JoinAll(segs); j.open <==> j.lines != [] && HasName(j.lines[|j.lines| - 1])
  {
    hide Continuable, HasName, SkipLws, IsBlank;
    if segs != [] {
      var init, seg := segs[..|segs| - 1], segs[|segs| - 1];
      OpenIff(init);
      var j := JoinAll(init);
      ContinuableIff(seg);
      if Continues(j, seg) {
        var tail := [SP] + seg[SkipLws(seg, 0, |seg|)..];
        var last := j.lines[|j.lines| - 1];
        HasNameLonger(last, tail);
        assert last + tail == last + [SP] + seg[SkipLws(seg, 0, |seg|)..];
      }
    }
  }

  /** One more line, told on the lines alone: one that is indented, blanks `b` and a text `t`, goes
      to the end of a line with a name, as one space and `t`; any other begins a line. */
  lemma JoinSnoc(segs: seq<bytes>, b: bytes, t: bytes)
    requires (forall i | 0 <= i < |segs| :: segs[i] != []) && b + t != [] && Blanks(b) && !Indented(t)
    ensures var lines, n := JoinAll(segs).lines, |JoinAll(segs).lines| - 1;
            JoinAll(segs + [b + t]).lines
            == if b != [] && n >= 0 && HasName(lines[n]) then lines[..n] + [lines[n] + [SP] + t] else lines + [b + t]
  {
    hide Continuable, HasName, SkipLws, JoinAll, Blanks, IsBlank;
    var seg := b + t;
    JoinLast(segs, seg);
    OpenIff(segs);
    IndentedIff(seg);
    FirstOf(b, t);
    SkipsBlanks(b, t);
  }

  lemma JoinLast(segs: seq<bytes>, seg: bytes)
    ensures JoinAll(segs + [seg]) == JoinLine(JoinAll(segs), seg)
  {
    hide JoinLine;
    assert (segs + [seg])[..|segs|] == segs;
  }

  lemma FirstOf(b: bytes, t: bytes)
    requires Blanks(b) && !Indented(t) && b + t != []
    ensures Indented(b + t) <==> b != []
  {
    if b != [] {
      assert (b + t)[0] == b[0];
    } else {
      assert b + t == t;
    }
  }

  // ---------------------------------------------------------------- no fold is left

  /** No indented line stands behind a line with a name. */
  predicate Unfolded(lines: seq<bytes>) {
    forall i | 0 < i < |lines| && Indented(lines[i]) :: !HasName(lines[i - 1])
  }

  lemma {:induction false} JoinUnfolds(segs: seq<bytes>)
    requires forall i | 0 <= i < |segs| :: segs[i] != []
    ensures Unfolded(JoinAll(segs).lines) && forall i | 0 <= i < |JoinAll(segs).lines| :: JoinAll(segs).lines[i] != []
  {
    hide Continuable, HasName, SkipLws, IsBlank, Indented;
    if segs != [] {
      var init, seg := segs[..|segs| - 1], segs[|segs| - 1];
      JoinUnfolds(init);
      OpenIff(init);
      IndentedIff(seg);
      var j := JoinAll(init);
      if Continues(j, seg) {
        var n := |j.lines| - 1;
        var x := j.lines[n] + [SP] + seg[SkipLws(seg, 0, |seg|)..];
        IndentedLonger(j.lines[n], x);
        assert JoinAll(segs).lines == j.lines[..n] + [x];
      } else {
        assert JoinAll(segs).lines == j.lines + [seg];
      }
    }
  }

  lemma IndentedLonger(t: bytes, x: bytes)
    requires t != [] && t <= x
    ensures Indented(x) <==> Indented(t)
  {
  }

  /** The lines of an assembly, behind the NUL that ends its status line. */
  function LinesOf(raw: bytes): seq<bytes> { Texts(raw, Tokens(raw, Find(raw, 0, {NUL}), {NUL})) }

  /** In the text that is assembled no fold is left. */
  lemma AssembledUnfolded(input: bytes)
    requires NUL !in input
    ensures Unfolded(LinesOf(Assembled(input))) && LinesOf(Assembled(input)) == Read(input).lines
  {
    hide JoinAll, Tokens, Texts, Assembled, After, Clean, Unfolded, LocatedFrom, Find;
    var sheet := Read(input);
    ReadUnfolded(input);
    ReadClean(input);
    AssembledIs(input);
    LinesOfSheet(sheet);
  }

  lemma ReadUnfolded(input: bytes)
    ensures Unfolded(Read(input).lines)
  {
    hide JoinAll, Tokens, LocatedFrom, Find, Unfolded;
    var s := FromStatus(input);
    JoinUnfolds(Texts(s, Tokens(s, Find(s, 0, CRLF), CRLF)));
  }

  lemma LinesOfSheet(sheet: Sheet)
    requires CleanSheet(sheet)
    ensures LinesOf(After([sheet.status] + sheet.lines, [NUL]) + [NUL]) == sheet.lines
  {
    hide JoinAll, Tokens, Texts, After, Find;
    var status, lines := sheet.status, sheet.lines;
    var a := After([status] + lines, [NUL]) + [NUL];
    AfterCons(status, lines, [NUL]);
    assert a == status + [NUL] + (After(lines, [NUL]) + [NUL]);
    FindIs(a, 0, |status|, {NUL});
    CleanIsFree(lines);
    TokensOfLines(status + [NUL], lines, [NUL], [NUL], {NUL});
    SkipDelims(a, |status|, |status| + 1, {NUL});
  }

  // ---------------------------------------------------------------- unfolding anywhere

  lemma {:induction false} JoinTail(a: seq<bytes>, b: seq<bytes>, tail: seq<bytes>)
    requires JoinAll(a) == JoinAll(b)
    ensures JoinAll(a + tail) == JoinAll(b + tail)
  {
    hide JoinLine;
    if tail == [] {
      assert a + tail == a && b + tail == b;
    } else {
      var n := |tail| - 1;
      JoinTail(a, b, tail[..n]);
      assert (a + tail)[..|a| + n] == a + tail[..n] && (b + tail)[..|b| + n] == b + tail[..n];
    }
  }

  /** A line with a name and a fold of it join to the same as the line with the fold undone. */
  lemma FoldJoins(before: seq<bytes>, line: bytes, b: bytes, t: bytes)
    requires HasName(line) && b != [] && Blanks(b) && !Indented(t)
    ensures JoinAll(before + [line, b + t]) == JoinAll(before + [line + [SP] + t])
  {
    hide Continuable, HasName, SkipLws, JoinAll, Blanks;
    var seg, x := b + t, line + [SP] + t;
    var j := JoinAll(before);
    JoinsOne(before, line);
    JoinsOne(before + [line], seg);
    JoinsOne(before, x);
    assert before + [line] + [seg] == before + [line, seg];
    ContinuableIff(line);
    ContinuableIff(x);
    HasNameLonger(line, [SP] + t);
    assert line + ([SP] + t) == x;
    NamedNotIndented(line);
    NamedNotIndented(x);
    IndentedIff(line);
    IndentedIff(x);
    FirstOf(b, t);
    IndentedIff(seg);
    SkipsBlanks(b, t);
    assert (j.lines + [line])[..|j.lines|] == j.lines;
  }

  lemma JoinsOne(segs: seq<bytes>, seg: bytes)
    ensures JoinAll(segs + [seg]) == JoinLine(JoinAll(segs), seg)
  {
    assert (segs + [seg])[..|segs|] == segs;
  }

  lemma NamedNotIndented(t: bytes)
    requires HasName(t)
    ensures !Indented(t) && t != []
  {
  }

  /** The text of a response head: a status line and lines, CR LF after each. */
  function Head(status: bytes, lines: seq<bytes>): bytes { After([status] + lines, [CR, LF]) + [CR, LF] }

  /** Wherever a header line is folded, with a space or a tab and any blanks more, the head
      assembles as it does with one space in place of the fold. */
  lemma FoldUndone(status: bytes, before: seq<bytes>, line: bytes, b: bytes, t: bytes, after: seq<bytes>)
    requires HttpAt(status, 0) && Clean(status) && CleanLines(before) && CleanLines(after)
    requires HasName(line) && Clean(line) && b != [] && Blanks(b) && Clean(t) && !Indented(t)
    ensures Assembled(Head(status, before + [line, b + t] + after))
            == Assembled(Head(status, before + [line + [SP] + t] + after))
  {
    hide Assembled, JoinAll, Clean, HasName, Indented, Blanks, After, Read, HttpAt;
    var folded, plain := before + [line, b + t] + after, before + [line + [SP] + t] + after;
    FoldClean(line, b, t);
    assert CleanLines(folded) && CleanLines(plain);
    FoldJoins(before, line, b, t);
    JoinTail(before + [line, b + t], before + [line + [SP] + t], after);
    HeadRead(status, folded);
    HeadRead(status, plain);
    AssembledIs(Head(status, folded));
    AssembledIs(Head(status, plain));
  }

  lemma FoldClean(line: bytes, b: bytes, t: bytes)
    requires HasName(line) && Clean(line) && Blanks(b) && Clean(t) && b != []
    ensures line != [] && b + t != [] && Clean(b + t) && line + [SP] + t != [] && Clean(line + [SP] + t)
  {
    forall x | x in b + t
      ensures x != NUL && x != CR && x != LF
    {
    }
  }

  lemma HeadRead(status: bytes, lines: seq<bytes>)
    requires HttpAt(status, 0) && Clean(status) && CleanLines(lines)
    ensures var head := Head(status, lines);
            NUL !in head && Read(head) == Sheet(status, JoinAll(lines).lines)
  {
    hide JoinAll, Read, Clean, LocatedFrom;
    var head := Head(status, lines);
    HttpFirst(head, status, lines);
    ReadConverted(status, lines);
  }

  // ---------------------------------------------------------------- NULs in the input

  /** NULs inside the input are dropped before line ends become NULs, so each NUL of the result ends
      a line. */
  lemma AssembledErases(input: bytes)
    ensures var sheet := Read(input);
            Assembled(input) == LfToNul(EraseNul(sheet.status)) + Ended(sheet.lines) + [NUL, NUL]
  {
    hide Read, EraseNul, LfToNul;
    var sheet := Read(input);
    var b := Before(sheet.lines, [LF]);
    EraseConcat(sheet.status + b, [LF, LF]);
    EraseConcat(sheet.status, b);
    EraseLf();
    LfToNulConcat(EraseNul(sheet.status) + EraseNul(b), [LF, LF]);
    LfToNulConcat(EraseNul(sheet.status), EraseNul(b));
    LfToNulOne();
    BeforeErased(sheet.lines);
  }

  /** A NUL and the line without its own NULs, for each line. */
  function Ended(lines: seq<bytes>): bytes {
    if lines == [] then [] else Ended(lines[..|lines| - 1]) + [NUL] + LfToNul(EraseNul(lines[|lines| - 1]))
  }

  lemma {:induction false} BeforeErased(lines: seq<bytes>)
    ensures LfToNul(EraseNul(Before(lines, [LF]))) == Ended(lines)
  {
    hide LfToNul, EraseNul;
    if lines == [] {
      EraseNone([]);
      LfToNulClean([]) by { CleanNone(); }
    } else {
      var init, x := lines[..|lines| - 1], lines[|lines| - 1];
      BeforeErased(init);
      var b := Before(init, [LF]);
      EraseConcat(b + [LF], x);
      EraseConcat(b, [LF]);
      EraseLf();
      LfToNulConcat(EraseNul(b) + [LF], EraseNul(x));
      LfToNulConcat(EraseNul(b), [LF]);
      LfToNulOne();
    }
  }

  lemma EraseLf()
    ensures EraseNul([LF]) == [LF] && EraseNul([LF, LF]) == [LF, LF]
  {
    EraseNone([LF]);
    EraseNone([LF, LF]);
  }

  lemma {:induction false} EraseConcat(a: bytes, b: bytes)
    ensures EraseNul(a + b) == EraseNul(a) + EraseNul(b)
  {
    if b == [] {
      assert a + b == a;
    } else {
      assert (a + b)[..|a + b| - 1] == a + b[..|b| - 1];
      EraseConcat(a, b[..|b| - 1]);
    }
  }

  /** What is left of a text has no NUL, and has every other byte as often as before. */
  lemma {:induction false} Erased(s: bytes)
    ensures NUL !in EraseNul(s) && multiset(EraseNul(s)) == multiset(s)[NUL := 0]
  {
    if s != [] {
      var init, x := s[..|s| - 1], s[|s| - 1];
      Erased(init);
      assert s == init + [x];
    }
  }
}
