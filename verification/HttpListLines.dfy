/** Lists on one line: they are accepted within the header budget, a line that is one of the words
    raises its flag, and there are lists that end in a word and raise none. */
module HttpListLines {
  import opened Ascii
  import opened HttpTypes
  import opened HttpMachine
  import opened HttpFields
  import opened HttpBatch
  import opened HttpConnection
  import opened HttpLists
  import opened HttpListRuns

  function Plains(s: bytes): seq<Item> { seq(|s|, i requires 0 <= i < |s| => Plain(s[i])) }

  predicate IsLine(s: bytes) { forall i | 0 <= i < |s| :: s[i] != CR && s[i] != LF && IsHeaderChar(s[i]) }

  lemma {:induction false} RawPlains(s: bytes)
    ensures Raw(Plains(s)) == s
  {
    if s != [] {
      RawPlains(s[..|s| - 1]);
      assert Plains(s)[..|s| - 1] == Plains(s[..|s| - 1]);
    }
  }

  lemma PlainAccepted(cfg: Config, p: Parser, h: Header, r: Reading, b: byte)
    requires Says(p, h, r) && b != CR && b != LF && IsHeaderChar(b) && p.nread < cfg.maxHeaderSize
    ensures var o := Step(cfg, p, b); o.ctl.Next? && o.p.nread == p.nread + 1
  {
    hide Step, NextRead, ValueByte, RaiseToken, IsHeaderChar, Says;
    var q := p.(nread := p.nread + 1);
    SaysText(p, h, r);
    if r.Nothing? {
      DiscardAccepted(cfg, p, h, b);
    } else {
      StepText(cfg, p, b);
      SaysCounted(p, h, r, p.nread + 1);
      NextByteSays(q, h, r, b);
      ValueByteFrame(q, q.nread, b);
      assert q.(nread := q.nread) == q;
    }
  }

  lemma SaysText(p: Parser, h: Header, r: Reading)
    requires Says(p, h, r)
    ensures if r.Nothing? then p.state == Discard(Ws) && p.hstate == Head(h) else p.state.HeaderValue?
  {
  }

  lemma DiscardAccepted(cfg: Config, p: Parser, h: Header, b: byte)
    requires p.state == Discard(Ws) && p.hstate == Head(h) && b != CR && b != LF && p.nread < cfg.maxHeaderSize
    ensures var o := Step(cfg, p, b); o.ctl.Next? && o.p.nread == p.nread + 1
  {
    hide SetBit5, ConnFirst;
  }

  lemma {:induction false} LineAccepted(cfg: Config, p: Parser, h: Header, s: bytes, data: bytes, n: nat)
    requires p.state == Discard(Ws) && p.hstate == Head(h) && IsLine(s) && n <= |s| && s <= data
    requires p.nread + n <= cfg.maxHeaderSize
    ensures var t := Run(cfg, p, data, n); t.ctl.Next? && t.p.nread == p.nread + n
    decreases n
  {
    hide Step, Run, LastRead, Says, FlagsBefore;
    if n == 0 {
      RunZero(cfg, p, data);
    } else {
      LineAccepted(cfg, p, h, s, data, n - 1);
      var u := s[..n - 1];
      RawPlains(u);
      assert u <= data;
      ListExact(cfg, p, h, Plains(u), data);
      RunNext(cfg, p, data, n - 1);
      PlainAccepted(cfg, Run(cfg, p, data, n - 1).p, h, LastRead(h, Plains(u)), s[n - 1]);
    }
  }

  /** A line within the header budget is accepted, and leaves the flags that its text says. */
  lemma LineFlags(cfg: Config, p: Parser, h: Header, s: bytes, b: byte)
    requires p.state == Discard(Ws) && p.hstate == Head(h) && IsLine(s) && (IsToken(b) || b == CR)
    requires p.nread + |s| + 3 <= cfg.maxHeaderSize && !LastRead(h, Plains(s)).Nothing?
    ensures var r := Run(cfg, p, s + [CR, LF, b], |s| + 3);
            r.ctl.Next? && r.p.flags == FlagsAfter(h, p.flags, Plains(s))
  {
    hide Step, Run, LastRead, Says, FlagsBefore, FlagsAfter, IsToken, RaiseToken;
    var line, v := s + [CR, LF, b], Plains(s);
    LineAccepted(cfg, p, h, s, line, |s|);
    RawPlains(s);
    ListExact(cfg, p, h, v, line);
    var q := Run(cfg, p, line, |s|).p;
    SaysText(q, h, LastRead(h, v));
    LineEndRun(cfg, p, line, |s|);
    LastRaises(q, h, p.flags, v);
  }

  // ---------------------------------------------------------------- readings of some values

  predicate NoComma(x: seq<Item>) { forall i | 0 <= i < |x| :: !IsComma(x[i]) }

  lemma {:induction false} OneElement(h: Header, x: seq<Item>)
    requires NoComma(x)
    ensures ModeOf(h, x) == First && Element(x) == x
  {
    if x != [] {
      OneElement(h, x[..|x| - 1]);
    }
  }

  /** The element after a comma is read as the element before it says. */
  lemma {:induction false} AfterComma(h: Header, v: seq<Item>, x: seq<Item>)
    requires NoComma(x)
    ensures LastRead(h, v + [Plain(COMMA)] + x) == Read(h, NextMode(h, LastRead(h, v)), x)
    ensures forall w :: Earlier(h, v + [Plain(COMMA)] + x, w) <==> Earlier(h, v, w) || LastRead(h, v) == Whole(w)
  {
    hide Read, NextRead, Earlier;
    var u := v + [Plain(COMMA)];
    if x == [] {
      assert u + x == u && u[..|u| - 1] == v;
      forall w {
        EarlierSnoc(h, v, Plain(COMMA), w);
      }
    } else {
      var init, i := x[..|x| - 1], x[|x| - 1];
      AfterComma(h, v, init);
      assert u + x == u + init + [i] && init + [i] == x;
      LastReadSnoc(h, u + init, i);
      ReadSnoc(h, NextMode(h, LastRead(h, v)), init, i);
      forall w {
        EarlierSnoc(h, u + init, i, w);
      }
    }
  }

  lemma NoneEarlier(h: Header, x: seq<Item>, w: Word)
    requires NoComma(x)
    ensures !Earlier(h, x, w)
  {
    hide LastRead;
  }

  lemma {:induction false} NothingStripped(m: Mode, x: seq<Item>)
    requires x != [] && x[0].Plain? && !Strips(m, x[0])
    ensures Stripped(m, x) == x
  {
    var init := x[..|x| - 1];
    if |x| > 1 {
      NothingStripped(m, init);
    } else {
      assert Stripped(m, init) == [];
    }
    assert x == init + [x[|x| - 1]];
  }

  /** A text that is one of the words, where recognition begins. */
  lemma WordRead(h: Header, w: Word, s: bytes)
    requires WordOfHeader(h, w) && LowerAll(s) == Spelled(w)
    ensures LastRead(h, Plains(s)) == Whole(w) && NoComma(Plains(s)) && IsLine(s)
  {
    hide Spelled, Read;
    Spellings(w);
    assert Lower(s[0]) == LowerAll(s)[0] && IsLetter(Spelled(w)[0]);
    forall i | 0 <= i < |s|
      ensures s[i] != CR && s[i] != LF && IsHeaderChar(s[i]) && s[i] != COMMA && !IsBlank(s[i])
    {
      assert Lower(s[i]) == LowerAll(s)[i];
      LowerIsSetBit5(s[i], Spelled(w)[i]);
      BlankIsNoLetter(s[i]);
    }
    OneElement(h, Plains(s));
    WordCompared(h, w, s);
    FirstRead(h, s);
  }

  lemma FirstRead(h: Header, s: bytes)
    requires s != [] && !IsBlank(s[0])
    ensures Read(h, First, Plains(s)) == Compared(h, s)
  {
    hide Compared;
    NothingStripped(First, Plains(s));
    assert Chars(Plains(s)) == s;
  }

  lemma WordCompared(h: Header, w: Word, s: bytes)
    requires WordOfHeader(h, w) && LowerAll(s) == Spelled(w)
    ensures Compared(h, s) == Whole(w)
  {
    hide Spelled;
    Spellings(w);
    assert Lower(s[0]) == LowerAll(s)[0];
    FirstOfWord(h, w);
    assert Spelled(w)[..|s|] == Spelled(w);
    NoSpaces(s, Spelled(w));
  }

  lemma FirstOfWord(h: Header, w: Word)
    requires WordOfHeader(h, w)
    ensures |Spelled(w)| > 1 && WordFor(h, Spelled(w)[0]) == w
  {
  }

  /** A line whose value is one of the words of its header, in any case, raises the flag of the word
      and no other. */
  lemma WordRaisesFlag(cfg: Config, p: Parser, h: Header, w: Word, s: bytes, b: byte)
    requires p.state == Discard(Ws) && p.hstate == Head(h) && WordOfHeader(h, w) && LowerAll(s) == Spelled(w)
    requires p.nread + |s| + 3 <= cfg.maxHeaderSize && (IsToken(b) || b == CR)
    ensures var r := Run(cfg, p, s + [CR, LF, b], |s| + 3);
            && r.ctl.Next?
            && r.p.flags == match w
                            case KeepAlive => p.flags.(keepAlive := true)
                            case Close => p.flags.(close := true)
                            case Upgrade => p.flags.(connectionUpgrade := true)
                            case _ => p.flags.(chunked := true)
  {
    hide Run, LastRead, Earlier, IsToken, Spelled;
    WordRead(h, w, s);
    LineFlags(cfg, p, h, s, b);
    NoneEarlier(h, Plains(s), KeepAlive);
    NoneEarlier(h, Plains(s), Close);
    NoneEarlier(h, Plains(s), Upgrade);
  }

  /** What two elements on one line make of the last. */
  lemma TwoElements(h: Header, s: bytes, t: bytes)
    requires NoComma(Plains(s)) && NoComma(Plains(t))
    ensures var v := Plains(s + [COMMA] + t);
            && LastRead(h, v) == Read(h, NextMode(h, Read(h, First, Plains(s))), Plains(t))
            && forall w :: Earlier(h, v, w) <==> Read(h, First, Plains(s)) == Whole(w)
  {
    hide Read, Earlier;
    assert Plains(s + [COMMA] + t) == Plains(s) + [Plain(COMMA)] + Plains(t);
    OneElement(h, Plains(s));
    AfterComma(h, Plains(s), Plains(t));
    forall w {
      NoneEarlier(h, Plains(s), w);
    }
  }

  /** An element that begins inside another, or where recognition has ended, is no word. */
  lemma NeverWhole(h: Header, m: Mode, x: seq<Item>)
    requires m.Inside? || m.Lost? || (m.Fresh? && x != [] && x[0] == Plain(HT))
    ensures !Read(h, m, x).Whole? && !Read(h, m, x).Nothing?
  {
    if m.Fresh? {
      NothingStripped(m, x);
      TabBit();
    }
  }

  lemma TabBit()
    ensures !IsToken(SetBit5(HT))
  {
  }

  /** The word w is the last element of the text, as a list is read. */
  ghost predicate EndsWith(s: bytes, w: Word) { exists b: nat :: ElementAt(s, b, |s|, Spelled(w)) }

  lemma SecondEnds(s: bytes, t: bytes, w: Word)
    requires LowerAll(TrimRight(TrimLeft(t))) == Spelled(w)
    ensures EndsWith(s + [COMMA] + t, w)
  {
    hide LowerAll, TrimRight, TrimLeft, Spelled;
    var v, b := s + [COMMA] + t, |s| + 1;
    assert v[b..|v|] == t && v[b - 1] == COMMA;
    assert ElementAt(v, b, |v|, Spelled(w));
  }

  /** The values after which the next comma goes unnoticed, or the next tab ends recognition. */
  predicate Hides(h: Header, s: bytes, t: bytes) {
    var m := NextMode(h, Read(h, First, Plains(s)));
    && NoComma(Plains(s)) && NoComma(Plains(t)) && IsLine(s) && IsLine(t) && !Read(h, First, Plains(s)).Whole?
    && (m.Inside? || m.Lost? || (m.Fresh? && t != [] && t[0] == HT))
  }

  /** Behind such an element, or behind "chunked", a word that ends the list raises no flag. */
  lemma WordMissed(cfg: Config, p: Parser, h: Header, s: bytes, t: bytes, w: Word, b: byte)
    requires p.state == Discard(Ws) && p.hstate == Head(h) && (IsToken(b) || b == CR)
    requires p.nread + |s| + |t| + 4 <= cfg.maxHeaderSize
    requires Hides(h, s, t) || (h.TransferEncoding? && LowerAll(s) == CHUNKED && NoComma(Plains(t)) && IsLine(t))
    requires LowerAll(TrimRight(TrimLeft(t))) == Spelled(w)
    ensures var v := s + [COMMA] + t;
            var r := Run(cfg, p, v + [CR, LF, b], |v| + 3);
            EndsWith(v, w) && r.ctl.Next? && r.p.flags == p.flags
  {
    hide Run, Read, LastRead, Earlier, IsToken, Spelled, EndsWith, LowerAll, TrimRight, TrimLeft, CHUNKED,
         IsHeaderChar;
    SecondEnds(s, t, w);
    if h.TransferEncoding? && LowerAll(s) == CHUNKED {
      ChunkedLetters();
      WordRead(h, Chunked, s);
      OneElement(h, Plains(s));
      FirstIsLast(h, s);
    }
    TwoElements(h, s, t);
    NeverWhole(h, NextMode(h, Read(h, First, Plains(s))), Plains(t));
    CommaIsText();
    LineFlags(cfg, p, h, s + [COMMA] + t, b);
  }

  lemma ChunkedLetters()
    ensures Spelled(Chunked) == CHUNKED
  {
  }

  lemma CommaIsText()
    ensures IsLine([COMMA])
  {
  }

  lemma FirstIsLast(h: Header, s: bytes)
    requires NoComma(Plains(s))
    ensures LastRead(h, Plains(s)) == Read(h, First, Plains(s))
  {
    OneElement(h, Plains(s));
  }

  /** "chunked,chunked", "c,chunked" and "gzip," with a tab before "chunked" in Transfer-Encoding,
      and "c,close" in Connection: the list ends with a word, and no flag goes up. */
  lemma InputsMissed(cfg: Config, p: Parser, h: Header, s: bytes, t: bytes, w: Word, b: byte)
    requires p.state == Discard(Ws) && p.hstate == Head(h) && (IsToken(b) || b == CR)
    requires p.nread + |s| + |t| + 4 <= cfg.maxHeaderSize
    requires
      || (h.TransferEncoding? && w.Chunked? && s == CHUNKED && t == CHUNKED)
      || (h.TransferEncoding? && w.Chunked? && s == Text("c") && t == CHUNKED)
      || (h.TransferEncoding? && w.Chunked? && s == Text("gzip") && t == [HT] + CHUNKED)
      || (h.Connection? && w.Close? && s == Text("c") && t == CLOSE)
    ensures var v := s + [COMMA] + t;
            var r := Run(cfg, p, v + [CR, LF, b], |v| + 3);
            EndsWith(v, w) && r.ctl.Next? && r.p.flags == p.flags
  {
    hide Run, Read, EndsWith, IsToken, Spelled;
    Spellings(w);
    ChunkedLetters();
    CloseLetters();
    LettersAlone(Spelled(w));
    if s == CHUNKED {
      assert LowerAll(s) == CHUNKED;
    } else {
      ShortRead(h, s);
    }
    if t != Spelled(w) {
      TabTrimmed(Spelled(w));
    }
    LettersLine(Spelled(w));
    WordMissed(cfg, p, h, s, t, w, b);
  }

  lemma CloseLetters()
    ensures Spelled(Close) == CLOSE
  {
  }

  /** "c" begins a word, "gzip" is none. */
  lemma ShortRead(h: Header, s: bytes)
    requires s == Text("c") || s == Text("gzip")
    ensures NoComma(Plains(s)) && IsLine(s)
    ensures NextMode(h, Read(h, First, Plains(s))) == if s == Text("c") then Inside else Fresh
    ensures !Read(h, First, Plains(s)).Whole?
  {
    hide Read, LowerAll;
    FirstRead(h, s);
    if s == Text("c") {
      assert s == [s[0]];
      OneChar(h, s[0]);
    }
  }

  lemma LettersAlone(l: bytes)
    requires AllLetters(l)
    ensures LowerAll(l) == l && LowerAll(TrimRight(TrimLeft(l))) == l
  {
    NothingBlank(l);
  }

  lemma TabTrimmed(l: bytes)
    requires AllLetters(l) && l != []
    ensures LowerAll(TrimRight(TrimLeft([HT] + l))) == l
  {
    assert ([HT] + l)[1..] == l;
    NothingBlank(l);
  }

  lemma LettersLine(l: bytes)
    requires AllLetters(l)
    ensures IsLine(l) && NoComma(Plains(l)) && IsLine([HT] + l) && NoComma(Plains([HT] + l))
  {
  }
}
