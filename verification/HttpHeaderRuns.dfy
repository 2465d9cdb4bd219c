/** Header lines as texts: which lines are accepted, what they tell, and what they leave in the
    record. */
module HttpHeaderRuns {
  import opened Ascii
  import opened HttpTypes
  import opened HttpMachine
  import opened HttpTrace
  import opened HttpClient
  import opened HttpFields
  import opened HttpShape
  import opened HttpInvariant
  import opened HttpBatch
  import opened HttpTakes
  import opened HttpStartLines
  import opened HttpStatusLines

  // ---------------------------------------------------------------- between two lines

  /** A line is over, or the start line: the next byte decides. */
  predicate Ready(p: Parser) {
    p.state.HeaderFieldStart? || p.state.HeaderValueLws? || (p.state == Discard(Lws) && !p.hstate.HContentLength?)
  }

  /** The record once it is known that no folded line follows. */
  function Opened(p: Parser): Parser {
    if p.state.HeaderFieldStart? then p
    else p.(flags := RaiseToken(p.flags, p.hstate), state := HeaderFieldStart)
  }

  /** An empty value is told only then. */
  function Unsaid(p: Parser): seq<Event> { if p.state.Discard? then [Data(Value, [])] else [] }

  lemma ReadyStep(cfg: Config, p: Parser, b: byte)
    requires Ready(p) && (IsToken(b) || b == CR || b == LF) && p.nread < cfg.maxHeaderSize
    ensures var o := Step(cfg, Opened(p), b); Step(cfg, p, b) == o.(ev := Unsaid(p) + o.ev)
  {
    hide SwitchName, RaiseToken, SwitchBody, SwitchChunkLine, SwitchHeadersEnd, SwitchUrl, SwitchMethod,
         SwitchReqVersion, SwitchStatusLine, SwitchIdle;
    var q, r := p.(nread := p.nread + 1), Opened(p).(nread := p.nread + 1);
    TokenNotBlank(b);
    if p.state.HeaderFieldStart? {
      var o := Step(cfg, p, b);
      assert [] + o.ev == o.ev;
    } else {
      assert Switch(cfg, q, b) == Out(r, Unsaid(p), Again);
      assert Chain(cfg, q, b) == Chain(cfg, r, b).(ev := Unsaid(p) + Chain(cfg, r, b).ev);
    }
  }

  lemma TokenNotBlank(b: byte)
    requires IsToken(b) || b == CR || b == LF
    ensures !IsBlank(b)
  {
  }

  // ---------------------------------------------------------------- names

  predicate IsFieldName(name: bytes) { name != [] && forall i | 0 <= i < |name| :: IsToken(name[i]) }

  /** What a header line may change. */
  predicate HeaderFrame(p: Parser, q: Parser) {
    q == p.(nread := q.nread, state := q.state, hstate := q.hstate, index := q.index, flags := q.flags,
            contentLength := q.contentLength)
  }

  lemma FirstByte(cfg: Config, p: Parser, b: byte)
    requires p.state.HeaderFieldStart? && IsToken(b) && p.nread < cfg.maxHeaderSize
    ensures Step(cfg, p, b)
            == Out(p.(nread := p.nread + 1, index := 0, state := HeaderField, hstate := FirstNameState(Lower(b))),
                   [Data(Field, [b])], Next)
  {
    hide IsToken, FirstNameState;
    TokenNotEnd(b);
  }

  lemma TokenNotEnd(b: byte)
    requires IsToken(b)
    ensures b != CR && b != LF
  {
  }

  lemma FirstState(b: byte)
    ensures NameState([b]) == FirstNameState(b)
  {
    hide CONNECTION, PROXY_CONNECTION, CONTENT_LENGTH, TRANSFER_ENCODING, UPGRADE, NameState;
    Letters();
    NameStateByLetter([b]);
    assert CONNECTION[..1] == [CONNECTION[0]];
    assert Beginning([b], PROXY_CONNECTION) <==> b == 'p' as int by {
      assert PROXY_CONNECTION[..1] == [PROXY_CONNECTION[0]];
    }
    assert Beginning([b], TRANSFER_ENCODING) <==> b == 't' as int by {
      assert TRANSFER_ENCODING[..1] == [TRANSFER_ENCODING[0]];
    }
    assert Beginning([b], UPGRADE) <==> b == 'u' as int by { assert UPGRADE[..1] == [UPGRADE[0]]; }
  }

  /** The transfer-encoding flag after a name. */
  predicate Coded(name: bytes) {
    |name| >= |TRANSFER_ENCODING| && LowerAll(name)[..|TRANSFER_ENCODING|] == TRANSFER_ENCODING
  }

  /** The record inside a name. */
  predicate InsideName(p: Parser, q: Parser, name: bytes) {
    && HeaderFrame(p, q) && q.nread == p.nread + |name| && q.state.HeaderField? && q.contentLength == p.contentLength
    && q.hstate == NameState(LowerAll(name)) && (CountsIndex(q.hstate) ==> q.index == |name| - 1)
    && q.flags == Opened(p).flags.(transferEncoding := p.flags.transferEncoding || Coded(name))
  }

  lemma OneName(p: Parser, q: Parser, b: byte)
    requires q == Opened(p).(nread := p.nread + 1, index := 0, state := HeaderField, hstate := FirstNameState(Lower(b)))
    ensures InsideName(p, q, [b])
  {
    hide FirstNameState, NameState, RaiseToken;
    assert LowerAll([b]) == [Lower(b)];
    FirstState(Lower(b));
    Letters();
  }

  lemma LongerName(p: Parser, q: Parser, name: bytes, b: byte)
    requires InsideName(p, q, name) && name != []
    ensures InsideName(p, NextName(q.(nread := q.nread + 1), b), name + [b])
  {
    hide NameState, NameByte, RaiseToken, LowerAll, TRANSFER_ENCODING, CountsIndex;
    LowerSnoc(name, b);
    NameStep(LowerAll(name), Lower(b));
    SameByte(q.hstate, q.index, |name| - 1, Lower(b));
    CodedSnoc(name, b);
    CountsSteps(q.hstate, q.index, Lower(b));
  }

  /** The index matters only in the states that count it. */
  lemma SameByte(h: HState, i: nat, j: nat, c: byte)
    requires CountsIndex(h) ==> i == j
    ensures NameByte(h, i, c) == NameByte(h, j, c)
  {
    hide Match;
  }

  lemma CountsSteps(h: HState, i: nat, c: byte)
    ensures CountsIndex(NameByte(h, i, c)) ==> CountsIndex(h)
  {
  }

  lemma CodedSnoc(name: bytes, b: byte)
    requires name != []
    ensures Coded(name + [b]) <==> Coded(name) || NameState(LowerAll(name + [b])).HTransferEncoding?
  {
    hide LowerAll;
    LowerSnoc(name, b);
    Letters();
    IsCoding(LowerAll(name + [b]));
    var w, x := LowerAll(name), LowerAll(name + [b]);
    if |name| >= 17 {
      assert x[..17] == w[..17];
    }
    if |name| == 16 {
      assert x[..17] == x;
    }
  }

  lemma IsCoding(w: bytes)
    ensures NameState(w).HTransferEncoding? <==> w == TRANSFER_ENCODING
  {
    hide CONNECTION, PROXY_CONNECTION, CONTENT_LENGTH, TRANSFER_ENCODING, UPGRADE;
    Letters();
  }

  /** The bytes of a name, from between two lines. */
  lemma {:induction false} NameTaken(cfg: Config, p: Parser, name: bytes) returns (q: Parser)
    requires Ready(p) && IsFieldName(name) && p.nread + |name| <= cfg.maxHeaderSize
    ensures Takes(cfg, p, name, q, Unsaid(p) + Singles(Field, name, 0, |name|)) && InsideName(p, q, name)
    decreases |name|
  {
    hide Takes, Step, Opened, InsideName, Unsaid, NextName, IsToken;
    var n := |name| - 1;
    var init, b := name[..n], name[n];
    assert name == init + [b];
    SinglesPrefix(Field, init, [b], n);
    if n == 0 {
      ReadyStep(cfg, p, b);
      OpenedIs(p);
      FirstByte(cfg, Opened(p), b);
      q := Step(cfg, p, b).p;
      OneName(p, q, b);
      TakesNone(cfg, p);
      TakesByte(cfg, p, [], p, [], b);
      assert [] + [b] == [b] && init == [];
      var told := Unsaid(p) + [Data(Field, [b])];
      assert [] + told == told && [] + [Data(Field, [b])] == [Data(Field, [b])];
    } else {
      var r := NameTaken(cfg, p, init);
      InsideState(p, r, init);
      StepName(cfg, r, b);
      LongerName(p, r, init, b);
      q := NextName(r.(nread := r.nread + 1), b);
      TakesByte(cfg, p, init, r, Unsaid(p) + Singles(Field, init, 0, n), b);
      assert Unsaid(p) + Singles(Field, init, 0, n) + [Data(Field, [b])]
          == Unsaid(p) + (Singles(Field, init, 0, n) + [Data(Field, [b])]);
    }
  }

  lemma OpenedIs(p: Parser)
    requires Ready(p)
    ensures Opened(p).state.HeaderFieldStart? && Opened(p).nread == p.nread
  {
  }

  lemma InsideState(p: Parser, q: Parser, name: bytes)
    requires InsideName(p, q, name)
    ensures q.state.HeaderField? && q.nread == p.nread + |name|
  {
  }

  lemma ColonStep(cfg: Config, p: Parser)
    requires p.state.HeaderField? && p.nread < cfg.maxHeaderSize
    ensures Step(cfg, p, COLON) == Out(p.(nread := p.nread + 1, state := Discard(Ws)), [Data(Field, [])], Next)
  {
    hide NameByte;
  }

  // ---------------------------------------------------------------- values

  predicate IsPad(s: bytes) { forall i | 0 <= i < |s| :: IsBlank(s[i]) }

  lemma {:induction false} PadTaken(cfg: Config, p: Parser, pad: bytes)
    requires p.state == Discard(Ws) && IsPad(pad) && p.nread + |pad| <= cfg.maxHeaderSize
    ensures Takes(cfg, p, pad, p.(nread := p.nread + |pad|), [])
  {
    hide Takes, Step;
    if pad == [] {
      TakesNone(cfg, p);
    } else {
      var init, b := pad[..|pad| - 1], pad[|pad| - 1];
      assert pad == init + [b];
      PadTaken(cfg, p, init);
      var q := p.(nread := p.nread + |init|);
      PadStep(cfg, q, b);
      TakesQuiet(cfg, p, init, q, [], b, q.(nread := q.nread + 1));
    }
  }

  lemma PadStep(cfg: Config, p: Parser, b: byte)
    requires p.state == Discard(Ws) && IsBlank(b) && p.nread < cfg.maxHeaderSize
    ensures Step(cfg, p, b) == Out(p.(nread := p.nread + 1), [], Next)
  {
  }

  /** A value: it does not begin with a blank, and beyond its first byte has no control byte but
      tabs. */
  predicate IsText(v: bytes) {
    && v != [] && !IsBlank(v[0]) && v[0] != CR && v[0] != LF
    && forall i | 0 < i < |v| :: IsHeaderChar(v[i]) && v[i] != CR && v[i] != LF
  }

  /** Header states of a value that is no length. */
  predicate Loose(h: HState) { h.General? || h.Te? || h.Conn? }

  /** The flags that tokens of a value may raise. */
  predicate TokenFlags(f: Flags, g: Flags) {
    g == f.(keepAlive := g.keepAlive, close := g.close, connectionUpgrade := g.connectionUpgrade, upgrade := g.upgrade)
  }

  /** The record inside a value that is no length. Only Connection and Upgrade lines touch flags. */
  predicate InsideText(p: Parser, q: Parser, n: nat) {
    && HeaderFrame(p, q) && q.nread == p.nread + n && q.state.HeaderValue? && Loose(q.hstate)
    && q.contentLength == p.contentLength && TokenFlags(p.flags, q.flags)
    && (q.hstate.Te? ==> p.hstate.HTransferEncoding?) && (q.hstate.Conn? ==> p.hstate.HConnection?)
    && (!p.hstate.HConnection? && !p.hstate.HUpgrade? ==> q.flags == p.flags)
    && (if p.hstate.HUpgrade? then q.flags == p.flags.(upgrade := true) && q.hstate.General?
        else q.flags.upgrade == p.flags.upgrade)
    && (!p.hstate.HConnection? && !p.hstate.HTransferEncoding? ==> q.hstate.General?)
  }

  lemma TextFirst(cfg: Config, p: Parser, b: byte)
    requires p.state == Discard(Ws) && !p.hstate.HContentLength? && !p.hstate.LengthNum? && !p.hstate.LengthWs?
    requires !p.hstate.Te? && !p.hstate.Conn? && !IsBlank(b) && b != CR && b != LF && p.nread < cfg.maxHeaderSize
    ensures var o := Step(cfg, p, b); o.ctl.Next? && o.ev == [Data(Value, [b])] && InsideText(p, o.p, 1)
  {
    hide SetBit5, ConnFirst;
  }

  lemma TextNext(cfg: Config, p: Parser, q: Parser, n: nat, b: byte)
    requires InsideText(p, q, n) && IsHeaderChar(b) && b != CR && b != LF && q.nread < cfg.maxHeaderSize
    ensures var o := Step(cfg, q, b); o.ctl.Next? && o.ev == [Data(Value, [b])] && InsideText(p, o.p, n + 1)
  {
    hide Step, TeByte, ConnByte, IsHeaderChar;
    StepText(cfg, q, b);
    var r := q.(nread := q.nread + 1);
    if r.hstate.Te? {
      TeByteFrame(r, b, r.nread);
    } else if r.hstate.Conn? {
      ConnByteFrame(r, b, r.nread);
    }
  }

  lemma {:induction false} TextTaken(cfg: Config, p: Parser, v: bytes) returns (q: Parser)
    requires p.state == Discard(Ws) && !p.hstate.HContentLength? && !p.hstate.LengthNum? && !p.hstate.LengthWs?
    requires !p.hstate.Te? && !p.hstate.Conn? && IsText(v) && p.nread + |v| <= cfg.maxHeaderSize
    ensures Takes(cfg, p, v, q, Singles(Value, v, 0, |v|)) && InsideText(p, q, |v|)
    decreases |v|
  {
    hide Takes, Step, InsideText, IsHeaderChar;
    var n := |v| - 1;
    var init, b := v[..n], v[n];
    assert v == init + [b];
    SinglesPrefix(Value, init, [b], n);
    if n == 0 {
      TextFirst(cfg, p, b);
      TakesNone(cfg, p);
      TakesByte(cfg, p, [], p, [], b);
      assert [] + [b] == [b] && init == [] && [] + [Data(Value, [b])] == [Data(Value, [b])];
      q := Step(cfg, p, b).p;
    } else {
      var r := TextTaken(cfg, p, init);
      TextCount(p, r, n);
      TextNext(cfg, p, r, n, b);
      TakesByte(cfg, p, init, r, Singles(Value, init, 0, n), b);
      q := Step(cfg, r, b).p;
    }
  }

  lemma TextCount(p: Parser, q: Parser, n: nat)
    requires InsideText(p, q, n)
    ensures q.nread == p.nread + n
  {
  }

  // ---------------------------------------------------------------- lengths

  /** The largest value a length may have before its last digit. */
  const LENGTH_LIMIT: nat := (ABSENT - 10) / 10

  /** The record inside a Content-Length value. */
  function InsideLength(p: Parser, n: nat, length: nat): Parser {
    p.(nread := p.nread + n, state := HeaderValue, index := 0, hstate := LengthNum,
       flags := p.flags.(contentLength := true), contentLength := length)
  }

  lemma LengthFirst(cfg: Config, p: Parser, b: byte)
    requires p.state == Discard(Ws) && p.hstate.HContentLength? && p.nread < cfg.maxHeaderSize
    requires !IsBlank(b) && b != CR && b != LF
    ensures var o := Step(cfg, p, b);
            if !IsNum(b) || p.flags.contentLength then o.ctl.Fail?
            else o == Out(InsideLength(p, 1, b - '0' as int), [Data(Value, [b])], Next)
  {
    hide SetBit5, ConnFirst;
  }

  lemma LengthNext(cfg: Config, p: Parser, b: byte)
    requires p.state.HeaderValue? && p.hstate.LengthNum? && b != CR && b != LF && p.nread < cfg.maxHeaderSize
    ensures var o, q := Step(cfg, p, b), p.(nread := p.nread + 1);
            if b == SP then o == Out(q.(hstate := LengthWs), [Data(Value, [b])], Next)
            else if !IsNum(b) || p.contentLength > LENGTH_LIMIT then o.ctl.Fail?
            else o == Out(q.(contentLength := 10 * p.contentLength + (b - '0' as int)), [Data(Value, [b])], Next)
  {
    hide Step, TeByte, ConnByte, IsHeaderChar;
    DigitIsText(b);
    StepText(cfg, p, b);
  }

  lemma SpaceNext(cfg: Config, p: Parser, b: byte)
    requires p.state.HeaderValue? && p.hstate.LengthWs? && b != CR && b != LF && p.nread < cfg.maxHeaderSize
    ensures var o := Step(cfg, p, b);
            if b == SP then o == Out(p.(nread := p.nread + 1), [Data(Value, [b])], Next) else o.ctl.Fail?
  {
    hide Step, TeByte, ConnByte, IsHeaderChar;
    DigitIsText(b);
    StepText(cfg, p, b);
  }

  lemma DigitIsText(b: byte)
    ensures IsNum(b) || b == SP ==> IsHeaderChar(b) && b != CR && b != LF
    ensures IsNum(b) ==> b != SP && !IsBlank(b)
  {
  }

  /** A value without the spaces behind it. */
  function Digits(v: bytes): bytes {
    if v != [] && v[|v| - 1] == SP then Digits(v[..|v| - 1]) else v
  }

  /** Digits, of which all but the last stay within the limit, and spaces. */
  predicate IsLengthText(v: bytes) {
    var ds := Digits(v);
    ds != [] && AllDigits(ds) && Decimal(ds[..|ds| - 1]) <= LENGTH_LIMIT
  }

  /** The record behind them. */
  function InsideValue(p: Parser, v: bytes): Parser
    requires IsLengthText(v)
  {
    InsideLength(p, |v|, Decimal(Digits(v))).(hstate := if Digits(v) == v then LengthNum else LengthWs)
  }

  /** One byte more. */
  lemma LengthSnoc(init: bytes, b: byte)
    requires init != [] && init[0] != SP
    ensures var v := init + [b];
            && Digits(v) == (if b == SP then Digits(init) else v) && |Digits(init)| <= |init|
            && (b == SP ==> (IsLengthText(v) <==> IsLengthText(init)) && Digits(v) != v)
            && (b != SP ==> (IsLengthText(v) <==>
                               && Digits(init) == init && IsLengthText(init) && IsNum(b)
                               && Decimal(init) <= LENGTH_LIMIT))
            && (IsNum(b) && AllDigits(init) ==> AllDigits(v) && Decimal(v) == 10 * Decimal(init) + (b - '0' as int))
  {
    var v := init + [b];
    assert v[..|v| - 1] == init;
    Shorter(init);
    if b != SP && AllDigits(v) {
      assert forall i | 0 <= i < |init| :: v[i] == init[i];
      assert AllDigits(init) && init[|init| - 1] == v[|init| - 1];
    }
    if b != SP && Digits(init) == init && AllDigits(init) && IsNum(b) {
      assert AllDigits(v);
    }
  }

  lemma {:induction false} Shorter(v: bytes)
    ensures |Digits(v)| <= |v|
  {
    if v != [] {
      Shorter(v[..|v| - 1]);
    }
  }

  /** A value of a Content-Length line is accepted exactly when it is digits that fit, and spaces; what is
      recorded is the decimal value of the digits, never the sentinel. */
  lemma {:induction false} LengthTaken(cfg: Config, p: Parser, v: bytes)
    requires p.state == Discard(Ws) && p.hstate.HContentLength? && !p.flags.contentLength
    requires v != [] && !IsBlank(v[0]) && CR !in v && LF !in v && p.nread + |v| <= cfg.maxHeaderSize
    ensures if IsLengthText(v)
            then Takes(cfg, p, v, InsideValue(p, v), Singles(Value, v, 0, |v|)) && Decimal(Digits(v)) < ABSENT
            else Run(cfg, p, v, |v|).ctl.Fail?
    decreases |v|
  {
    hide Takes, Step, Run, Digits, Decimal, AllDigits, IsLengthText, InsideValue;
    var n := |v| - 1;
    var init, b := v[..n], v[n];
    assert v == init + [b] && b in v;
    if n == 0 {
      assert v == [b];
      LengthBegins(cfg, p, b);
    } else {
      assert forall x | x in init :: x in v;
      LengthTaken(cfg, p, init);
      if IsLengthText(init) {
        LengthGoesOn(cfg, p, init, b);
      } else {
        LengthBroken(init, b);
        FailsStill(cfg, p, init, b);
      }
    }
  }

  lemma LengthBroken(init: bytes, b: byte)
    requires init != [] && init[0] != SP && !IsLengthText(init)
    ensures !IsLengthText(init + [b])
  {
    hide Digits, Decimal, AllDigits, IsLengthText;
    LengthSnoc(init, b);
  }

  lemma LengthBegins(cfg: Config, p: Parser, b: byte)
    requires p.state == Discard(Ws) && p.hstate.HContentLength? && !p.flags.contentLength
    requires !IsBlank(b) && b != CR && b != LF && p.nread < cfg.maxHeaderSize
    ensures if IsLengthText([b])
            then Takes(cfg, p, [b], InsideValue(p, [b]), Singles(Value, [b], 0, 1)) && Decimal(Digits([b])) < ABSENT
            else Run(cfg, p, [b], 1).ctl.Fail?
  {
    hide Takes, Step, Run, Digits, Decimal, AllDigits;
    var none: bytes := [];
    LengthFirst(cfg, p, b);
    TakesNone(cfg, p);
    OneDigit(b);
    assert none + [b] == [b] && [] + [Data(Value, [b])] == [Data(Value, [b])];
    assert Singles(Value, [b], 0, 1) == Singles(Value, [b], 0, 0) + [Data(Value, [b])] == [Data(Value, [b])];
    if IsNum(b) {
      TakesByte(cfg, p, none, p, [], b);
    } else {
      FailsNext(cfg, p, none, p, [], b);
    }
  }

  lemma OneDigit(b: byte)
    requires b != SP
    ensures Digits([b]) == [b] && (IsLengthText([b]) <==> IsNum(b)) && (IsNum(b) ==> Decimal([b]) == b - '0' as int)
  {
    assert [b][..0] == [] && Decimal([]) == 0;
    assert AllDigits([b]) <==> IsNum([b][0]);
  }

  /** The step over one byte more. */
  lemma LengthStep(cfg: Config, p: Parser, init: bytes, b: byte)
    requires init != [] && init[0] != SP && IsLengthText(init) && b != CR && b != LF
    requires p.nread + |init| < cfg.maxHeaderSize && Decimal(Digits(init)) < ABSENT
    ensures var v, o := init + [b], Step(cfg, InsideValue(p, init), b);
            if IsLengthText(v)
            then o == Out(InsideValue(p, v), [Data(Value, [b])], Next) && Decimal(Digits(v)) < ABSENT
            else o.ctl.Fail?
  {
    hide Step, Digits, Decimal, AllDigits;
    var q := InsideValue(p, init);
    LengthSnoc(init, b);
    if q.hstate.LengthNum? {
      LengthNext(cfg, q, b);
    } else {
      SpaceNext(cfg, q, b);
    }
  }

  lemma LengthGoesOn(cfg: Config, p: Parser, init: bytes, b: byte)
    requires init != [] && init[0] != SP && IsLengthText(init) && b != CR && b != LF
    requires p.nread + |init| < cfg.maxHeaderSize && Decimal(Digits(init)) < ABSENT
    requires Takes(cfg, p, init, InsideValue(p, init), Singles(Value, init, 0, |init|))
    ensures var v := init + [b];
            if IsLengthText(v)
            then Takes(cfg, p, v, InsideValue(p, v), Singles(Value, v, 0, |v|)) && Decimal(Digits(v)) < ABSENT
            else Run(cfg, p, v, |v|).ctl.Fail?
  {
    hide Takes, Step, Run, Digits, Decimal, AllDigits, IsLengthText, InsideValue;
    var q, n := InsideValue(p, init), |init|;
    LengthStep(cfg, p, init, b);
    SinglesPrefix(Value, init, [b], n);
    if IsLengthText(init + [b]) {
      TakesByte(cfg, p, init, q, Singles(Value, init, 0, n), b);
    } else {
      FailsNext(cfg, p, init, q, Singles(Value, init, 0, n), b);
    }
  }

  lemma FailsNext(cfg: Config, p: Parser, x: bytes, q: Parser, ev: seq<Event>, b: byte)
    requires Takes(cfg, p, x, q, ev) && Step(cfg, q, b).ctl.Fail?
    ensures Run(cfg, p, x + [b], |x + [b]|).ctl.Fail?
  {
    hide Step;
    HttpSplit.RunPrefix(cfg, p, x, [b], |x|);
    RunNext(cfg, p, x + [b], |x|);
  }

  lemma FailsStill(cfg: Config, p: Parser, x: bytes, b: byte)
    requires Run(cfg, p, x, |x|).ctl.Fail?
    ensures Run(cfg, p, x + [b], |x + [b]|).ctl.Fail?
  {
    hide Run;
    HttpSplit.RunPrefix(cfg, p, x, [b], |x|);
    RunHalted(cfg, p, x + [b], |x|, |x + [b]|);
  }
}
