/** Whole messages: the text of a message, written out from its parts, is read back as these parts. */
module HttpMessages {
  import opened Ascii
  import opened HttpTypes
  import opened HttpMachine
  import opened HttpTrace
  import opened HttpFields
  import opened HttpShape
  import opened HttpBatch
  import opened HttpTheorems
  import opened HttpTakes
  import opened HttpStartLines
  import opened HttpStatusLines
  import opened HttpHeaderRuns
  import HttpLists
  import opened HttpListRuns
  import opened HttpListLines

  // ---------------------------------------------------------------- one header line

  /** A header line: a name, blanks behind the colon, a value. */
  datatype Line = Line(name: bytes, pad: bytes, value: bytes)

  function LineText(l: Line): bytes { l.name + [COLON] + (l.pad + (l.value + [CR, LF])) }

  function LineEvents(l: Line): seq<Event> {
    Singles(Field, l.name, 0, |l.name|) + [Data(Field, [])] + Singles(Value, l.value, 0, |l.value|) + [Data(Value, [])]
  }

  predicate IsLength(l: Line) { LowerAll(l.name) == CONTENT_LENGTH }

  predicate IsConnection(l: Line) { LowerAll(l.name) == CONNECTION || LowerAll(l.name) == PROXY_CONNECTION }

  /** A line that is accepted. */
  predicate GoodLine(l: Line) {
    && IsFieldName(l.name) && IsPad(l.pad) && (l.value == [] || IsText(l.value))
    && (IsLength(l) ==> l.value != [] && IsLengthText(l.value))
  }

  /** The length that a line declares, or the one declared before. */
  function Declared(l: Line, before: nat): nat
    requires GoodLine(l)
  {
    if IsLength(l) then Decimal(Digits(l.value)) else before
  }

  /** What a name makes of the flags. */
  function Coding(f: Flags, name: bytes): Flags { f.(transferEncoding := f.transferEncoding || Coded(name)) }

  /** The lists that are read as lists. */
  function ListOf(l: Line): HttpLists.Header {
    if IsConnection(l) then HttpLists.Connection else HttpLists.TransferEncoding
  }

  predicate IsList(l: Line) { IsConnection(l) || LowerAll(l.name) == TRANSFER_ENCODING }

  /** What a value makes of them: a length is noted, the words of a list are, and any text of an Upgrade line. */
  function Noted(f: Flags, l: Line): Flags {
    if IsLength(l) then f.(contentLength := true)
    else if IsList(l) then FlagsAfter(ListOf(l), f, Plains(l.value))
    else if LowerAll(l.name) == UPGRADE && l.value != [] then f.(upgrade := true)
    else f
  }

  /** Between two lines, one line on. */
  predicate LineOn(p: Parser, q: Parser, l: Line)
    requires GoodLine(l)
  {
    && Ready(q) && HeaderFrame(p, q) && q.nread == p.nread + |LineText(l)|
    && q.contentLength == Declared(l, p.contentLength)
    && Opened(q).flags == Noted(Coding(Opened(p).flags, l.name), l)
  }

  lemma NameSays(w: bytes)
    ensures (NameState(w).HContentLength? <==> w == CONTENT_LENGTH) && (NameState(w).HUpgrade? <==> w == UPGRADE)
    ensures NameState(w).HConnection? <==> w == CONNECTION || w == PROXY_CONNECTION
    ensures NameState(w).HTransferEncoding? <==> w == TRANSFER_ENCODING
    ensures !NameState(w).LengthNum? && !NameState(w).LengthWs? && !NameState(w).Te? && !NameState(w).Conn?
  {
    hide CONNECTION, PROXY_CONNECTION, CONTENT_LENGTH, TRANSFER_ENCODING, UPGRADE;
    Letters();
  }

  /** The name, the colon and the blanks. */
  lemma HeadOfLine(cfg: Config, p: Parser, l: Line) returns (q: Parser)
    requires Ready(p) && GoodLine(l) && p.nread + |l.name| + 1 + |l.pad| <= cfg.maxHeaderSize
    ensures Takes(cfg, p, l.name + [COLON] + l.pad, q,
                  Unsaid(p) + (Singles(Field, l.name, 0, |l.name|) + [Data(Field, [])]))
    ensures HeaderFrame(p, q) && q.nread == p.nread + |l.name| + 1 + |l.pad| && q.state == Discard(Ws)
    ensures q.hstate == NameState(LowerAll(l.name)) && q.contentLength == p.contentLength
    ensures q.flags == Coding(Opened(p).flags, l.name)
  {
    hide Takes, Step, NameState, LowerAll, Opened, Coding, Unsaid, IsText, Decimal, Singles, IsFieldName;
    var r := NameTaken(cfg, p, l.name);
    InsideIs(p, r, l.name);
    var told := Unsaid(p) + Singles(Field, l.name, 0, |l.name|);
    ColonStep(cfg, r);
    TakesByte(cfg, p, l.name, r, told, COLON);
    var s := r.(nread := r.nread + 1, state := Discard(Ws));
    PadTaken(cfg, s, l.pad);
    q := s.(nread := s.nread + |l.pad|);
    TakesThen(cfg, p, l.name + [COLON], s, told + [Data(Field, [])], l.pad, q, []);
    assert told + [Data(Field, [])] + []
        == Unsaid(p) + (Singles(Field, l.name, 0, |l.name|) + [Data(Field, [])]);
  }

  lemma InsideIs(p: Parser, q: Parser, name: bytes)
    requires InsideName(p, q, name)
    ensures HeaderFrame(p, q) && q.nread == p.nread + |name| && q.state.HeaderField?
    ensures q.contentLength == p.contentLength
    ensures q.hstate == NameState(LowerAll(name)) && q.flags == Coding(Opened(p).flags, name)
  {
    hide NameState, Coded, LowerAll, Opened, HeaderFrame;
    OpenedCoding(p);
  }

  lemma OpenedCoding(p: Parser)
    ensures Opened(p).flags.transferEncoding == p.flags.transferEncoding
  {
  }

  lemma EndOfText(cfg: Config, p: Parser)
    requires p.state.HeaderValue? && p.nread + 2 <= cfg.maxHeaderSize
    ensures Takes(cfg, p, [CR, LF], p.(nread := p.nread + 2, state := HeaderValueLws), [Data(Value, [])])
  {
    hide Takes;
    TakesNone(cfg, p);
    TakesByte(cfg, p, [], p, [], CR);
    var q := p.(nread := p.nread + 1, state := HeaderAlmostDone);
    var none: bytes, told := [], [Data(Value, [])];
    assert none + [CR] == [CR] && [] + told == told;
    TakesQuiet(cfg, p, [CR], q, told, LF, q.(nread := q.nread + 1, state := HeaderValueLws));
    assert [CR] + [LF] == [CR, LF];
  }

  lemma EndOfNothing(cfg: Config, p: Parser)
    requires p.state == Discard(Ws) && p.nread + 2 <= cfg.maxHeaderSize
    ensures Takes(cfg, p, [CR, LF], p.(nread := p.nread + 2, state := Discard(Lws)), [])
  {
    hide Takes;
    TakesNone(cfg, p);
    var q := p.(nread := p.nread + 1, state := Discard(WsAlmostDone));
    TakesQuiet(cfg, p, [], p, [], CR, q);
    var none: bytes := [];
    assert none + [CR] == [CR];
    TakesQuiet(cfg, p, [CR], q, [], LF, q.(nread := q.nread + 1, state := Discard(Lws)));
    assert [CR] + [LF] == [CR, LF];
  }

  /** A value and its line end, behind the blanks. */
  lemma RestOfLine(cfg: Config, p: Parser, l: Line) returns (q: Parser, ev: seq<Event>)
    requires GoodLine(l) && p.state == Discard(Ws) && p.hstate == NameState(LowerAll(l.name))
    requires IsLength(l) ==> !p.flags.contentLength
    requires p.nread + |l.value| + 2 <= cfg.maxHeaderSize
    ensures Takes(cfg, p, l.value + [CR, LF], q, ev)
    ensures ev + Unsaid(q) == Singles(Value, l.value, 0, |l.value|) + [Data(Value, [])]
    ensures Ready(q) && HeaderFrame(p, q) && q.nread == p.nread + |l.value| + 2
    ensures q.contentLength == Declared(l, p.contentLength) && Opened(q).flags == Noted(p.flags, l)
  {
    hide Takes, Step, NameState, LowerAll, IsText, Decimal, Digits, IsLengthText, CONNECTION, PROXY_CONNECTION,
         CONTENT_LENGTH, UPGRADE, TRANSFER_ENCODING, IsFieldName, Noted, Opened, HeaderFrame, Ready, InsideText;
    var told := Singles(Value, l.value, 0, |l.value|);
    if l.value == [] {
      EndOfNothing(cfg, p);
      q, ev := p.(nread := p.nread + 2, state := Discard(Lws)), [];
      EmptyLine(p, q, l);
      assert l.value + [CR, LF] == [CR, LF];
      assert [] + [Data(Value, [])] == [Data(Value, [])];
    } else {
      var r;
      if IsLength(l) {
        NameSays(LowerAll(l.name));
        TextHasNoBreak(l.value);
        LengthTaken(cfg, p, l.value);
        r := InsideValue(p, l.value);
      } else {
        NameHas(p, l);
        r := TextTaken(cfg, p, l.value);
        InsideCount(p, r, |l.value|);
      }
      EndOfText(cfg, r);
      q, ev := r.(nread := r.nread + 2, state := HeaderValueLws), told + [Data(Value, [])];
      if IsLength(l) {
        LengthLineOver(p, q, l);
      } else {
        TextLineOver(cfg, p, r, q, l);
      }
      TakesThen(cfg, p, l.value, r, told, [CR, LF], q, [Data(Value, [])]);
      assert ev + [] == ev;
    }
  }

  lemma TextHasNoBreak(v: bytes)
    requires IsText(v)
    ensures v != [] && !IsBlank(v[0]) && CR !in v && LF !in v
  {
    hide IsHeaderChar;
  }

  lemma NameHas(p: Parser, l: Line)
    requires GoodLine(l) && p.hstate == NameState(LowerAll(l.name))
    ensures !p.hstate.LengthNum? && !p.hstate.LengthWs? && !p.hstate.Te? && !p.hstate.Conn?
    ensures (p.hstate.HContentLength? <==> IsLength(l)) && (p.hstate.HUpgrade? <==> LowerAll(l.name) == UPGRADE)
    ensures p.hstate.HConnection? <==> IsConnection(l)
    ensures p.hstate.HTransferEncoding? <==> LowerAll(l.name) == TRANSFER_ENCODING
  {
    hide NameState, LowerAll, CONNECTION, PROXY_CONNECTION, CONTENT_LENGTH, UPGRADE, TRANSFER_ENCODING;
    NameSays(LowerAll(l.name));
  }

  lemma InsideCount(p: Parser, q: Parser, n: nat)
    requires InsideText(p, q, n)
    ensures q.nread == p.nread + n && q.state.HeaderValue?
  {
  }

  lemma EmptyLine(p: Parser, q: Parser, l: Line)
    requires GoodLine(l) && l.value == [] && p.hstate == NameState(LowerAll(l.name))
    requires q == p.(nread := p.nread + 2, state := Discard(Lws))
    ensures Ready(q) && HeaderFrame(p, q) && q.contentLength == Declared(l, p.contentLength)
    ensures Opened(q).flags == Noted(p.flags, l)
  {
    hide NameState, LowerAll, FlagsAfter;
    NameHas(p, l);
    NothingListed(ListOf(l), p.flags);
    assert Plains([]) == [];
  }

  lemma NothingListed(h: HttpLists.Header, f: Flags)
    ensures FlagsAfter(h, f, []) == f
  {
  }

  lemma LengthLineOver(p: Parser, q: Parser, l: Line)
    requires GoodLine(l) && IsLength(l) && !p.flags.contentLength
    requires q == InsideValue(p, l.value).(nread := q.nread, state := HeaderValueLws)
    ensures Ready(q) && HeaderFrame(p, q) && q.contentLength == Declared(l, p.contentLength)
    ensures Opened(q).flags == Noted(p.flags, l)
  {
    hide LowerAll, Coded, Decimal, Digits, IsText, IsLengthText, CONNECTION, PROXY_CONNECTION, CONTENT_LENGTH,
         FlagsAfter;
  }

  lemma TextLineOver(cfg: Config, p: Parser, r: Parser, q: Parser, l: Line)
    requires GoodLine(l) && !IsLength(l) && l.value != []
    requires p.state == Discard(Ws) && p.hstate == NameState(LowerAll(l.name))
    requires Takes(cfg, p, l.value, r, Singles(Value, l.value, 0, |l.value|))
    requires InsideText(p, r, |l.value|) && q == r.(nread := q.nread, state := HeaderValueLws)
    ensures Ready(q) && HeaderFrame(p, q) && q.contentLength == Declared(l, p.contentLength)
    ensures Opened(q).flags == Noted(p.flags, l)
  {
    hide NameState, LowerAll, Coded, IsText, FlagsAfter, Takes, RaiseToken;
    NameHas(p, l);
    RaisesNone(r.flags);
    if IsList(l) {
      ListRaised(cfg, p, r, l);
    }
  }

  lemma RaisesNone(f: Flags)
    ensures RaiseToken(f, General) == f
  {
  }

  lemma ListRaised(cfg: Config, p: Parser, r: Parser, l: Line)
    requires IsText(l.value) && p.state == Discard(Ws) && p.hstate == Head(ListOf(l))
    requires Takes(cfg, p, l.value, r, Singles(Value, l.value, 0, |l.value|))
    ensures RaiseToken(r.flags, r.hstate) == FlagsAfter(ListOf(l), p.flags, Plains(l.value))
  {
    hide Run, HttpLists.LastRead, FlagsBefore, FlagsAfter, Says, RaiseToken, ListOf, Singles;
    var h, v := ListOf(l), Plains(l.value);
    RawPlains(l.value);
    ListExact(cfg, p, h, v, l.value);
    LastRaises(r, h, p.flags, v);
  }

  /** A header line is accepted, tells its name and its value, and leaves the record between lines. */
  lemma LineTaken(cfg: Config, p: Parser, l: Line) returns (q: Parser, ev: seq<Event>)
    requires Ready(p) && GoodLine(l) && (IsLength(l) ==> !Opened(p).flags.contentLength)
    requires p.nread + |LineText(l)| <= cfg.maxHeaderSize
    ensures Takes(cfg, p, LineText(l), q, ev) && ev + Unsaid(q) == Unsaid(p) + LineEvents(l) && LineOn(p, q, l)
  {
    hide Takes, GoodLine, Opened, Unsaid, Singles, Noted, Coded, Ready, IsLength, NameState;
    var r := HeadOfLine(cfg, p, l);
    var name := Singles(Field, l.name, 0, |l.name|) + [Data(Field, [])];
    var value := Singles(Value, l.value, 0, |l.value|) + [Data(Value, [])];
    var more;
    q, more := RestOfLine(cfg, r, l);
    ev := Unsaid(p) + name + more;
    TakesThen(cfg, p, l.name + [COLON] + l.pad, r, Unsaid(p) + name, l.value + [CR, LF], q, more);
    assert l.name + [COLON] + l.pad + (l.value + [CR, LF]) == LineText(l);
    assert ev + Unsaid(q) == Unsaid(p) + name + (more + Unsaid(q));
    assert Unsaid(p) + name + value == Unsaid(p) + LineEvents(l);
  }

  // ---------------------------------------------------------------- header sections

  function LinesText(ls: seq<Line>): bytes {
    if ls == [] then [] else LinesText(ls[..|ls| - 1]) + LineText(ls[|ls| - 1])
  }

  function LinesEvents(ls: seq<Line>): seq<Event> {
    if ls == [] then [] else LinesEvents(ls[..|ls| - 1]) + LineEvents(ls[|ls| - 1])
  }

  /** Lines that are accepted together: one Content-Length at most. */
  predicate GoodLines(ls: seq<Line>) {
    && (forall i | 0 <= i < |ls| :: GoodLine(ls[i]))
    && forall i, j | 0 <= i < j < |ls| :: !(IsLength(ls[i]) && IsLength(ls[j]))
  }

  predicate HasLength(ls: seq<Line>) { exists i | 0 <= i < |ls| :: IsLength(ls[i]) }

  /** The length that the lines declare, or the one declared before. */
  function LinesLength(ls: seq<Line>, before: nat): nat
    requires GoodLines(ls)
  {
    if ls == [] then before else Declared(ls[|ls| - 1], LinesLength(ls[..|ls| - 1], before))
  }

  /** The flags that the lines leave. */
  function LinesFlags(ls: seq<Line>, before: Flags): Flags {
    if ls == [] then before
    else var l := ls[|ls| - 1]; Noted(Coding(LinesFlags(ls[..|ls| - 1], before), l.name), l)
  }

  lemma HasSnoc(ls: seq<Line>)
    requires ls != []
    ensures HasLength(ls) <==> HasLength(ls[..|ls| - 1]) || IsLength(ls[|ls| - 1])
  {
    hide IsLength;
    var init := ls[..|ls| - 1];
    assert forall i | 0 <= i < |init| :: init[i] == ls[i];
    if i :| 0 <= i < |init| && IsLength(init[i]) {
      assert IsLength(ls[i]);
    }
    if i :| 0 <= i < |ls| && IsLength(ls[i]) {
      assert i < |init| ==> IsLength(init[i]);
    }
  }

  /** A length is noted if and only if a line has one. */
  lemma {:induction false} LengthNoted(ls: seq<Line>, before: Flags)
    ensures LinesFlags(ls, before).contentLength <==> before.contentLength || HasLength(ls)
  {
    hide IsLength, FlagsAfter, Coded, LowerAll;
    if ls != [] {
      HasSnoc(ls);
      LengthNoted(ls[..|ls| - 1], before);
      var l := ls[|ls| - 1];
      ListLeaves(ListOf(l), Coding(LinesFlags(ls[..|ls| - 1], before), l.name), Plains(l.value));
    }
  }

  lemma ListLeaves(h: HttpLists.Header, f: Flags, v: seq<HttpLists.Item>)
    ensures FlagsAfter(h, f, v).contentLength == f.contentLength
  {
  }

  /** Between two lines, some lines on from a start line. */
  predicate LinesOn(p: Parser, q: Parser, ls: seq<Line>)
    requires GoodLines(ls)
  {
    && Ready(q) && HeaderFrame(p, q) && q.nread == p.nread + |LinesText(ls)|
    && q.contentLength == LinesLength(ls, p.contentLength) && Opened(q).flags == LinesFlags(ls, p.flags)
  }

  lemma {:induction false} LinesTaken(cfg: Config, p: Parser, ls: seq<Line>) returns (q: Parser, ev: seq<Event>)
    requires p.state.HeaderFieldStart? && GoodLines(ls) && !(p.flags.contentLength && HasLength(ls))
    requires p.nread + |LinesText(ls)| <= cfg.maxHeaderSize
    ensures Takes(cfg, p, LinesText(ls), q, ev) && ev + Unsaid(q) == LinesEvents(ls) && LinesOn(p, q, ls)
    decreases |ls|
  {
    hide Takes, GoodLine, LineEvents, LineText, IsLength, Declared, Noted, Coding;
    if ls == [] {
      TakesNone(cfg, p);
      q, ev := p, [];
    } else {
      var init, l := ls[..|ls| - 1], ls[|ls| - 1];
      HasSnoc(ls);
      var r, told := LinesTaken(cfg, p, init);
      LengthNoted(init, p.flags);
      var more;
      q, more := LineTaken(cfg, r, l);
      ev := told + more;
      TakesThen(cfg, p, LinesText(init), r, told, LineText(l), q, more);
      assert told + more + Unsaid(q) == told + (more + Unsaid(q));
      assert told + (Unsaid(r) + LineEvents(l)) == told + Unsaid(r) + LineEvents(l);
      FrameTwice(p, r, q);
    }
  }

  lemma FrameTwice(p: Parser, q: Parser, r: Parser)
    requires HeaderFrame(p, q) && HeaderFrame(q, r)
    ensures HeaderFrame(p, r)
  {
  }

  /** The lines and the carriage return behind them. */
  lemma HeadTaken(cfg: Config, p: Parser, ls: seq<Line>) returns (q: Parser)
    requires p.state.HeaderFieldStart? && GoodLines(ls) && !(p.flags.contentLength && HasLength(ls))
    requires p.nread + |LinesText(ls)| < cfg.maxHeaderSize
    ensures Takes(cfg, p, LinesText(ls) + [CR], q, LinesEvents(ls))
    ensures q.state.HeadersAlmostDone? && q.nread == p.nread + |LinesText(ls)| + 1 && HeaderFrame(p, q)
    ensures q.contentLength == LinesLength(ls, p.contentLength) && q.flags == LinesFlags(ls, p.flags)
  {
    hide Takes, Step, LinesText, LinesEvents, HasLength, GoodLines, LinesLength, LinesFlags;
    var r, ev := LinesTaken(cfg, p, ls);
    HeadReturns(cfg, r);
    TakesByte(cfg, p, LinesText(ls), r, ev, CR);
    q := Step(cfg, r, CR).p;
  }

  lemma HeadReturns(cfg: Config, p: Parser)
    requires Ready(p) && p.nread < cfg.maxHeaderSize
    ensures Step(cfg, p, CR) == Out(Opened(p).(nread := p.nread + 1, state := HeadersAlmostDone), Unsaid(p), Next)
  {
    hide Step, Opened;
    ReadyStep(cfg, p, CR);
    OpenedIs(p);
    StartReturns(cfg, Opened(p));
    assert Unsaid(p) + [] == Unsaid(p);
  }

  lemma StartReturns(cfg: Config, p: Parser)
    requires p.state.HeaderFieldStart? && p.nread < cfg.maxHeaderSize
    ensures Step(cfg, p, CR) == Out(p.(nread := p.nread + 1, state := HeadersAlmostDone), [], Next)
  {
    hide IsToken;
  }
}
