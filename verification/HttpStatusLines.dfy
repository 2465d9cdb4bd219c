/** The status line of a response as text: version, code and reason, and that no other line is
    accepted. */
module HttpStatusLines {
  import opened Ascii
  import opened HttpTypes
  import opened HttpMachine
  import opened HttpTrace
  import opened HttpFields
  import opened HttpBatch
  import opened HttpTakes
  import opened HttpStartLines

  lemma StepStatus(cfg: Config, p: Parser, ch: byte)
    requires p.state.ResLine? && p.nread < cfg.maxHeaderSize
    requires !SwitchStatusLine(p.(nread := p.nread + 1), ch).ctl.Again?
    ensures Step(cfg, p, ch) == SwitchStatusLine(p.(nread := p.nread + 1), ch)
  {
    hide SwitchStatusLine;
  }

  /** The record within the status line, n bytes on. */
  function InLine(p: Parser, n: nat, s: ResState, major: nat, minor: nat, code: nat): Parser {
    p.(nread := p.nread + n, state := ResLine(s), major := major, minor := minor, statusCode := code)
  }

  /** One byte of the status line that tells nothing. */
  lemma LineByte(cfg: Config, p: Parser, x: bytes, s: ResState, major: nat, minor: nat, code: nat, b: byte)
    requires Takes(cfg, p, x, InLine(p, |x|, s, major, minor, code), []) && p.nread + |x| < cfg.maxHeaderSize
    requires var o := SwitchStatusLine(InLine(p, |x| + 1, s, major, minor, code), b); o.ctl.Next? && o.ev == []
    ensures Takes(cfg, p, x + [b], SwitchStatusLine(InLine(p, |x| + 1, s, major, minor, code), b).p, [])
  {
    hide Takes, Step, SwitchStatusLine;
    var q := InLine(p, |x|, s, major, minor, code);
    var r := InLine(p, |x| + 1, s, major, minor, code);
    assert q.(nread := q.nread + 1) == r;
    StepStatus(cfg, q, b);
    TakesQuiet(cfg, p, x, q, [], b, SwitchStatusLine(r, b).p);
  }

  /** What follows the first letter of "HTTP", the version, and one space. */
  function VersionRest(a: byte, b: byte): bytes {
    ['T' as int, 'T' as int, 'P' as int, '/' as int, a, '.' as int, b]
  }

  lemma VersionRead(cfg: Config, p: Parser, a: byte, b: byte)
    requires p.state == ResLine(ResH) && IsNum(a) && IsNum(b) && p.nread + 8 <= cfg.maxHeaderSize
    ensures Takes(cfg, p, VersionRest(a, b) + [SP],
                  InLine(p, 8, ResFirstStatusCode, a - '0' as int, b - '0' as int, p.statusCode), [])
  {
    hide Takes;
    var x: bytes, m, n, c := [], p.major, p.minor, p.statusCode;
    TakesNone(cfg, p);
    LineByte(cfg, p, x, ResH, m, n, c, 'T' as int);
    LineByte(cfg, p, x + ['T' as int], ResHT, m, n, c, 'T' as int);
    var y := x + ['T' as int] + ['T' as int];
    LineByte(cfg, p, y, ResHTT, m, n, c, 'P' as int);
    LineByte(cfg, p, y + ['P' as int], ResHTTP, m, n, c, '/' as int);
    DigitsRead(cfg, p, y + ['P' as int] + ['/' as int], m, n, a, b);
    var z := y + ['P' as int] + ['/' as int];
    assert z + [a] + ['.' as int] + [b] == VersionRest(a, b);
  }

  lemma DigitsRead(cfg: Config, p: Parser, x: bytes, m: nat, n: nat, a: byte, b: byte)
    requires Takes(cfg, p, x, InLine(p, |x|, ResMajor, m, n, p.statusCode), []) && IsNum(a) && IsNum(b)
    requires p.nread + |x| + 4 <= cfg.maxHeaderSize
    ensures Takes(cfg, p, x + [a] + ['.' as int] + [b] + [SP],
                  InLine(p, |x| + 4, ResFirstStatusCode, a - '0' as int, b - '0' as int, p.statusCode), [])
  {
    hide Takes;
    var c, d, k := a - '0' as int, b - '0' as int, p.statusCode;
    LineByte(cfg, p, x, ResMajor, m, n, k, a);
    LineByte(cfg, p, x + [a], ResDot, c, n, k, '.' as int);
    LineByte(cfg, p, x + [a] + ['.' as int], ResMinor, c, n, k, b);
    LineByte(cfg, p, x + [a] + ['.' as int] + [b], ResEnd, c, d, k, SP);
  }

  lemma DecimalSnoc(s: bytes, b: byte)
    requires AllDigits(s) && IsNum(b)
    ensures AllDigits(s + [b]) && Decimal(s + [b]) == 10 * Decimal(s) + (b - '0' as int)
  {
    assert (s + [b])[..|s|] == s;
  }

  /** The digits of the code, from where the first may stand. */
  lemma {:induction false} CodeRead(cfg: Config, p: Parser, ds: bytes)
    requires p.state == ResLine(ResFirstStatusCode) && ds != [] && AllDigits(ds) && Decimal(ds) <= 999
    requires p.nread + |ds| <= cfg.maxHeaderSize
    ensures Takes(cfg, p, ds, InLine(p, |ds|, ResStatusCode, p.major, p.minor, Decimal(ds)), [])
    decreases |ds|
  {
    hide Takes, Decimal;
    var init, b := ds[..|ds| - 1], ds[|ds| - 1];
    assert ds == init + [b];
    DecimalSnoc(init, b);
    if init == [] {
      TakesNone(cfg, p);
      DecimalNone();
      LineByte(cfg, p, [], ResFirstStatusCode, p.major, p.minor, p.statusCode, b);
    } else {
      CodeRead(cfg, p, init);
      LineByte(cfg, p, init, ResStatusCode, p.major, p.minor, Decimal(init), b);
    }
  }

  lemma DecimalNone()
    ensures Decimal([]) == 0
  {
  }

  // ---------------------------------------------------------------- the end of the line

  /** A line end right behind the code, or where the reason would begin. */
  lemma ReasonMissing(cfg: Config, p: Parser, first: byte)
    requires p.state == ResLine(ResStatusCode) || p.state == ResLine(ResStatusStart)
    requires p.nread < cfg.maxHeaderSize && (first == CR || first == LF)
    ensures Step(cfg, p, first)
            == Out(p.(nread := p.nread + 1, index := 0,
                      state := if first == CR then ResLine(ResLineAlmostDone) else HeaderFieldStart),
                   [Data(Status, [])], Next)
  {
    hide SwitchName, SwitchValue, SwitchBody, SwitchChunkLine, SwitchHeadersEnd, SwitchUrl, SwitchMethod,
         SwitchReqVersion, SwitchIdle;
    var q := p.(nread := p.nread + 1, state := ResLine(ResStatusStart));
    var r := q.(index := 0, state := ResLine(ResStatus));
    assert Chain(cfg, r, first) == Switch(cfg, r, first);
    assert Switch(cfg, q, first) == Out(r, [], Again);
    assert Chain(cfg, q, first) == Chain(cfg, r, first);
  }

  lemma ReasonEnds(cfg: Config, p: Parser, first: byte)
    requires p.state == ResLine(ResStatus) && p.nread < cfg.maxHeaderSize && (first == CR || first == LF)
    ensures Step(cfg, p, first)
            == Out(p.(nread := p.nread + 1,
                      state := if first == CR then ResLine(ResLineAlmostDone) else HeaderFieldStart),
                   [Data(Status, [])], Next)
  {
    hide Step;
    StepStatus(cfg, p, first);
  }

  predicate IsReason(r: bytes) { CR !in r && LF !in r }

  /** The bytes of a reason, whatever they are. */
  lemma {:induction false} ReasonRead(cfg: Config, p: Parser, r: bytes)
    requires p.state == ResLine(ResStatusStart) && r != [] && IsReason(r) && p.nread + |r| <= cfg.maxHeaderSize
    ensures Takes(cfg, p, r, p.(nread := p.nread + |r|, state := ResLine(ResStatus), index := 0),
                  Singles(Status, r, 0, |r|))
    decreases |r|
  {
    hide Takes, Step, IsReason;
    var init, b := r[..|r| - 1], r[|r| - 1];
    assert r == init + [b];
    ReasonInit(init, b);
    SinglesPrefix(Status, init, [b], |init|);
    var q := if init == [] then p else p.(nread := p.nread + |init|, state := ResLine(ResStatus), index := 0);
    if init == [] {
      TakesNone(cfg, p);
    } else {
      ReasonRead(cfg, p, init);
    }
    ReasonByte(cfg, q, b);
    TakesByte(cfg, p, init, q, Singles(Status, init, 0, |init|), b);
  }

  lemma ReasonInit(init: bytes, b: byte)
    requires IsReason(init + [b])
    ensures IsReason(init) && b != CR && b != LF
  {
    assert (init + [b])[|init|] == b;
    assert forall i | 0 <= i < |init| :: (init + [b])[i] == init[i];
  }

  lemma ReasonByte(cfg: Config, p: Parser, b: byte)
    requires p.state == ResLine(ResStatusStart) || (p.state == ResLine(ResStatus) && p.index == 0)
    requires p.nread < cfg.maxHeaderSize && b != CR && b != LF
    ensures Step(cfg, p, b)
            == Out(p.(nread := p.nread + 1, state := ResLine(ResStatus), index := 0), [Data(Status, [b])], Next)
  {
    hide Step;
    StepStatus(cfg, p, b);
  }

  lemma CodeEnds(cfg: Config, p: Parser)
    requires p.state == ResLine(ResStatusCode) && p.nread < cfg.maxHeaderSize
    ensures Step(cfg, p, SP) == Out(p.(nread := p.nread + 1, state := ResLine(ResStatusStart)), [], Next)
  {
    hide Step;
    StepStatus(cfg, p, SP);
  }

  /** What may follow the code: nothing, or a space and a reason. */
  function ReasonText(reason: Reason): bytes { if reason.NoReason? then [] else [SP] + reason.text }

  datatype Reason = NoReason | Reason(text: bytes)

  function ReasonEvents(reason: Reason): seq<Event> {
    (if reason.NoReason? then [] else Singles(Status, reason.text, 0, |reason.text|)) + [Data(Status, [])]
  }

  lemma LineEnds(cfg: Config, p: Parser, x: bytes, q: Parser, ev: seq<Event>, bare: bool)
    requires Takes(cfg, p, x, q, ev) && q.nread + |Eol(bare)| <= cfg.maxHeaderSize
    requires q.state == ResLine(ResStatusCode) || q.state == ResLine(ResStatusStart) || q.state == ResLine(ResStatus)
    requires q.state == ResLine(ResStatus) ==> q.index == 0
    ensures Takes(cfg, p, x + Eol(bare),
                  q.(nread := q.nread + |Eol(bare)|, state := HeaderFieldStart, index := 0), ev + [Data(Status, [])])
  {
    hide Takes, Step;
    var first := if bare then LF else CR;
    if q.state == ResLine(ResStatus) {
      ReasonEnds(cfg, q, first);
    } else {
      ReasonMissing(cfg, q, first);
    }
    TakesByte(cfg, p, x, q, ev, first);
    if !bare {
      var r := q.(nread := q.nread + 1, index := 0, state := ResLine(ResLineAlmostDone));
      StepStatus(cfg, r, LF);
      TakesQuiet(cfg, p, x + [CR], r, ev + [Data(Status, [])], LF,
                 r.(nread := r.nread + 1, state := HeaderFieldStart));
      assert x + [CR] + [LF] == x + Eol(bare);
    }
  }

  lemma NoSingles(r: bytes)
    ensures Singles(Status, r, 0, 0) == []
  {
  }

  /** A space and a reason, behind the code. */
  lemma SpaceAndReason(cfg: Config, p: Parser, x: bytes, q: Parser, r: bytes)
    requires Takes(cfg, p, x, q, []) && q.state == ResLine(ResStatusCode) && IsReason(r)
    requires q.nread + 1 + |r| <= cfg.maxHeaderSize
    ensures Takes(cfg, p, x + ([SP] + r),
                  q.(nread := q.nread + 1 + |r|, state := ResLine(if r == [] then ResStatusStart else ResStatus),
                     index := if r == [] then q.index else 0), Singles(Status, r, 0, |r|))
  {
    hide Takes, Step, Singles, IsReason;
    var start := q.(nread := q.nread + 1, state := ResLine(ResStatusStart));
    CodeEnds(cfg, q);
    TakesQuiet(cfg, p, x, q, [], SP, start);
    if r == [] {
      assert [SP] + r == [SP];
      NoSingles(r);
    } else {
      ReasonRead(cfg, start, r);
      var told := Singles(Status, r, 0, |r|);
      TakesThen(cfg, p, x + [SP], start, [], r,
                start.(nread := start.nread + |r|, state := ResLine(ResStatus), index := 0), told);
      assert [] + told == told && x + [SP] + r == x + ([SP] + r);
    }
  }

  /** The rest of a status line, from where the code may begin. */
  lemma CodeAndReasonRead(cfg: Config, p: Parser, ds: bytes, reason: Reason, bare: bool)
    requires p.state == ResLine(ResFirstStatusCode) && ds != [] && AllDigits(ds) && Decimal(ds) <= 999
    requires (reason.Reason? ==> IsReason(reason.text))
             && p.nread + |ds| + |ReasonText(reason)| + |Eol(bare)| <= cfg.maxHeaderSize
    ensures var text := ds + ReasonText(reason) + Eol(bare);
            Takes(cfg, p, text,
                  p.(nread := p.nread + |text|, state := HeaderFieldStart, statusCode := Decimal(ds), index := 0),
                  ReasonEvents(reason))
  {
    hide Takes, Step, Decimal, Singles;
    CodeRead(cfg, p, ds);
    var q := InLine(p, |ds|, ResStatusCode, p.major, p.minor, Decimal(ds));
    if reason.NoReason? {
      LineEnds(cfg, p, ds, q, [], bare);
      assert ds + [] == ds;
    } else {
      var r := reason.text;
      SpaceAndReason(cfg, p, ds, q, r);
      LineEnds(cfg, p, ds + ([SP] + r),
               q.(nread := q.nread + 1 + |r|, state := ResLine(if r == [] then ResStatusStart else ResStatus),
                  index := if r == [] then q.index else 0),
               Singles(Status, r, 0, |r|), bare);
    }
  }

  /** More spaces before the code. */
  lemma {:induction false} SpacesRead(cfg: Config, p: Parser, k: nat)
    requires p.state == ResLine(ResFirstStatusCode) && p.nread + k <= cfg.maxHeaderSize
    ensures Takes(cfg, p, Spaces(k), p.(nread := p.nread + k), [])
  {
    hide Takes, Step;
    if k == 0 {
      TakesNone(cfg, p);
    } else {
      SpacesRead(cfg, p, k - 1);
      var q := p.(nread := p.nread + (k - 1));
      StepStatus(cfg, q, SP);
      TakesQuiet(cfg, p, Spaces(k - 1), q, [], SP, q.(nread := q.nread + 1));
    }
  }

  /** A status line: "HTTP/", a digit, a dot, a digit, one space and k more, the digits of the code, and
      a space and a reason or neither. */
  function StatusLine(a: byte, b: byte, k: nat, ds: bytes, reason: Reason, bare: bool): bytes {
    ['H' as int] + (VersionRest(a, b) + [SP] + (Spaces(k) + (ds + ReasonText(reason) + Eol(bare))))
  }

  lemma ResponseBegins(cfg: Config, p: Parser)
    requires p.state.StartRes? && p.nread < cfg.maxHeaderSize
    ensures Step(cfg, p, 'H' as int)
            == Out(ResetMessage(p).(nread := p.nread + 1, state := ResLine(ResH)), [Begin], Next)
  {
  }

  /** A status line records its version and the value of its code, begins the message and tells the
      reason; the flags and the length start anew, and nothing else changes. */
  lemma StatusLineTaken(cfg: Config, p: Parser, a: byte, b: byte, k: nat, ds: bytes, reason: Reason, bare: bool)
    requires p.state.StartRes? && IsNum(a) && IsNum(b) && ds != [] && AllDigits(ds) && Decimal(ds) <= 999
    requires reason.Reason? ==> IsReason(reason.text)
    requires p.nread + |StatusLine(a, b, k, ds, reason, bare)| <= cfg.maxHeaderSize
    ensures var line := StatusLine(a, b, k, ds, reason, bare);
            Takes(cfg, p, line,
                  ResetMessage(p).(nread := p.nread + |line|, state := HeaderFieldStart, major := a - '0' as int,
                                   minor := b - '0' as int, statusCode := Decimal(ds), index := 0),
                  [Begin] + ReasonEvents(reason))
  {
    hide Takes, Step, Decimal, ReasonEvents, ReasonText;
    ResponseBegins(cfg, p);
    TakesNone(cfg, p);
    TakesByte(cfg, p, [], p, [], 'H' as int);
    var first := ResetMessage(p).(nread := p.nread + 1, state := ResLine(ResH));
    var h: bytes := ['H' as int];
    assert [] + h == h && [] + [Begin] == [Begin];
    VersionRead(cfg, first, a, b);
    var code := InLine(first, 8, ResFirstStatusCode, a - '0' as int, b - '0' as int, first.statusCode);
    var spaced := code.(nread := code.nread + k);
    SpacesRead(cfg, code, k);
    CodeAndReasonRead(cfg, spaced, ds, reason, bare);
    var v, rest, told := VersionRest(a, b) + [SP], ds + ReasonText(reason) + Eol(bare), ReasonEvents(reason);
    var last := spaced.(nread := spaced.nread + |rest|, state := HeaderFieldStart, statusCode := Decimal(ds),
                        index := 0);
    assert [] + told == told;
    TakesThen(cfg, code, Spaces(k), spaced, [], rest, last, told);
    TakesThen(cfg, first, v, code, [], Spaces(k) + rest, last, told);
    TakesThen(cfg, p, h, first, [Begin], v + (Spaces(k) + rest), last, told);
  }

  // ---------------------------------------------------------------- no other status line

  /** The parts of a status line read so far. */
  datatype Parts = Parts(spaces: nat, digits: bytes, reason: Reason)

  predicate BeforeCode(s: ResState) {
    s.ResH? || s.ResHT? || s.ResHTT? || s.ResHTTP? || s.ResMajor? || s.ResDot? || s.ResMinor? || s.ResEnd?
  }

  function Behind(s: ResState): nat {
    match s
    case ResH => 0
    case ResHT => 1
    case ResHTT => 2
    case ResHTTP => 3
    case ResMajor => 4
    case ResDot => 5
    case ResMinor => 6
    case _ => 7
  }

  /** The text that leads from the first letter to a state. */
  function LineText(s: ResState, major: nat, minor: nat, t: Parts): bytes {
    var v := VersionRest(Digit(major), Digit(minor));
    if BeforeCode(s) then v[..Behind(s)]
    else
      var u := v + Spaces(t.spaces) + t.digits;
      match s
      case ResStatusStart => u + [SP]
      case ResStatus => u + ReasonText(t.reason)
      case ResLineAlmostDone => u + ReasonText(t.reason) + [CR]
      case _ => u
  }

  /** What is known of the parts in a state. */
  predicate PartsOk(p: Parser, t: Parts) {
    && (p.state.ResLine? && BeforeCode(p.state.res) ==> t == Parts(0, [], NoReason))
    && (p.state == ResLine(ResFirstStatusCode) ==> t.spaces > 0 && t.digits == [] && t.reason.NoReason?)
    && (!p.state.ResLine? || (!BeforeCode(p.state.res) && !p.state.res.ResFirstStatusCode?) ==>
          && t.spaces > 0 && t.digits != [] && AllDigits(t.digits) && p.statusCode == Decimal(t.digits) <= 999)
    && (p.state == ResLine(ResStatusCode) || p.state == ResLine(ResStatusStart) ==> t.reason.NoReason?)
    && (p.state == ResLine(ResStatus) ==> t.reason.Reason? && t.reason.text != [])
    && (t.reason.Reason? ==> IsReason(t.reason.text))
  }

  /** The text x, from the first letter on, is that of record q's state; or the whole line. */
  ghost predicate LineSoFar(p: Parser, x: bytes, q: Parser, t: Parts) {
    && q == p.(nread := q.nread, state := q.state, major := q.major, minor := q.minor, statusCode := q.statusCode,
               index := q.index)
    && PartsOk(q, t)
    && if q.state.HeaderFieldStart?
       then exists bare ::
              x == VersionRest(Digit(q.major), Digit(q.minor)) + Spaces(t.spaces) + t.digits + ReasonText(t.reason)
                   + Eol(bare)
       else q.state.ResLine? && x == LineText(q.state.res, q.major, q.minor, t)
  }

  /** A byte of the version. */
  lemma EarlyNext(p: Parser, b: byte, t: Parts) returns (u: Parts)
    requires p.state.ResLine? && BeforeCode(p.state.res) && PartsOk(p, t) && SwitchStatusLine(p, b).ctl.Next?
    ensures var q := SwitchStatusLine(p, b).p;
            && q == p.(state := q.state, major := q.major, minor := q.minor) && q.state.ResLine? && PartsOk(q, u)
            && LineText(p.state.res, p.major, p.minor, t) + [b] == LineText(q.state.res, q.major, q.minor, u)
  {
    u := if p.state.res.ResEnd? then Parts(1, [], NoReason) else t;
    if p.state.res.ResEnd? {
      OneSpace();
      var v := VersionRest(Digit(p.major), Digit(p.minor));
      assert v[..7] == v && v + [SP] + [] == v + [SP];
    }
  }

  lemma OneSpace()
    ensures Spaces(1) == [SP]
  {
    assert Spaces(0) == [];
  }

  /** A byte where the code may begin. */
  lemma FirstDigitNext(p: Parser, b: byte, t: Parts) returns (u: Parts)
    requires p.state.ResLine? && (p.state.res.ResFirstStatusCode?) && PartsOk(p, t)
    requires SwitchStatusLine(p, b).ctl.Next? && b != CR && b != LF
    ensures var q := SwitchStatusLine(p, b).p;
            && q == p.(state := q.state, statusCode := q.statusCode, index := q.index)
            && q.state.ResLine? && PartsOk(q, u)
            && LineText(p.state.res, p.major, p.minor, t) + [b] == LineText(q.state.res, q.major, q.minor, u)
  {
    hide Decimal, VersionRest;
    var v := VersionRest(Digit(p.major), Digit(p.minor));
    if b == SP {
      u := t.(spaces := t.spaces + 1);
      assert v + Spaces(t.spaces) + [] + [SP] == v + (Spaces(t.spaces) + [SP]) + [];
    } else {
      u := t.(digits := [b]);
      DecimalNone();
      DecimalSnoc([], b);
      assert [] + [b] == [b];
      assert v + Spaces(t.spaces) + [] + [b] == v + Spaces(t.spaces) + [b];
    }
  }

  /** A byte behind a digit of the code. */
  lemma CodeNext(p: Parser, b: byte, t: Parts) returns (u: Parts)
    requires p.state.ResLine? && (p.state.res.ResStatusCode?) && PartsOk(p, t)
    requires SwitchStatusLine(p, b).ctl.Next? && b != CR && b != LF
    ensures var q := SwitchStatusLine(p, b).p;
            && q == p.(state := q.state, statusCode := q.statusCode, index := q.index)
            && q.state.ResLine? && PartsOk(q, u)
            && LineText(p.state.res, p.major, p.minor, t) + [b] == LineText(q.state.res, q.major, q.minor, u)
  {
    hide Decimal, VersionRest;
    var v := VersionRest(Digit(p.major), Digit(p.minor));
    if b == SP {
      u := t;
    } else {
      u := t.(digits := t.digits + [b]);
      DecimalSnoc(t.digits, b);
      assert v + Spaces(t.spaces) + t.digits + [b] == v + Spaces(t.spaces) + (t.digits + [b]);
    }
  }

  /** A byte of the reason. */
  lemma ReasonNext(p: Parser, b: byte, t: Parts) returns (u: Parts)
    requires p.state.ResLine? && (p.state.res.ResStatusStart? || p.state.res.ResStatus?) && PartsOk(p, t)
    requires SwitchStatusLine(p, b).ctl.Next? && b != CR && b != LF
    ensures var q := SwitchStatusLine(p, b).p;
            && q == p.(state := q.state, statusCode := q.statusCode, index := q.index)
            && q.state.ResLine? && PartsOk(q, u)
            && LineText(p.state.res, p.major, p.minor, t) + [b] == LineText(q.state.res, q.major, q.minor, u)
  {
    hide Decimal, VersionRest;
    var v := VersionRest(Digit(p.major), Digit(p.minor));
    var w := v + Spaces(t.spaces) + t.digits;
    if p.state.res.ResStatusStart? {
      u := t.(reason := Reason([b]));
      assert w + [SP] + [b] == w + ([SP] + [b]);
    } else {
      u := t.(reason := Reason(t.reason.text + [b]));
      assert w + ([SP] + t.reason.text) + [b] == w + ([SP] + (t.reason.text + [b]));
    }
  }

  /** A line end. */
  lemma EndNext(cfg: Config, p: Parser, b: byte, t: Parts) returns (u: Parts)
    requires p.state.ResLine? && PartsOk(p, t) && !BeforeCode(p.state.res) && Step(cfg, p, b).ctl.Next?
    requires b == CR || b == LF || p.state.res.ResLineAlmostDone?
    ensures var q := Step(cfg, p, b).p;
            var x := LineText(p.state.res, p.major, p.minor, t) + [b];
            var w := VersionRest(Digit(p.major), Digit(p.minor)) + Spaces(u.spaces) + u.digits + ReasonText(u.reason);
            && q == p.(nread := q.nread, state := q.state, index := q.index) && PartsOk(q, u)
            && if q.state.HeaderFieldStart? then exists bare :: x == w + Eol(bare)
               else q.state == ResLine(ResLineAlmostDone) && x == w + [CR]
  {
    hide Step, Decimal;
    var w := VersionRest(Digit(p.major), Digit(p.minor)) + Spaces(t.spaces) + t.digits;
    BudgetLeft(cfg, p, b);
    match p.state.res {
      case ResFirstStatusCode =>
        StepStatus(cfg, p, b);
        u := t;
      case ResStatusCode =>
        ReasonMissing(cfg, p, b);
        u := t;
        assert w + [] == w;
      case ResStatusStart =>
        ReasonMissing(cfg, p, b);
        u := t.(reason := Reason([]));
        assert [SP] + [] == [SP];
      case ResStatus =>
        ReasonEnds(cfg, p, b);
        u := t;
      case ResLineAlmostDone =>
        StepStatus(cfg, p, b);
        u := t;
        assert w + ReasonText(t.reason) + [CR] + [LF] == w + ReasonText(t.reason) + Eol(false);
    }
    assert w + ReasonText(u.reason) + [LF] == w + ReasonText(u.reason) + Eol(true);
  }

  lemma BudgetLeft(cfg: Config, p: Parser, b: byte)
    requires p.state.ResLine? && Step(cfg, p, b).ctl.Next?
    ensures p.nread < cfg.maxHeaderSize
  {
    hide Chain;
  }

  /** The run over x has left the status line only at its last byte, if at all. */
  ghost predicate InLineUntil(cfg: Config, p: Parser, x: bytes) {
    forall k | 0 <= k < |x| :: Run(cfg, p, x, k).p.state.ResLine?
  }

  lemma UntilBefore(cfg: Config, p: Parser, x: bytes, b: byte)
    requires InLineUntil(cfg, p, x + [b])
    ensures InLineUntil(cfg, p, x) && Run(cfg, p, x, |x|).p.state.ResLine?
  {
    hide Run;
    forall k | 0 <= k <= |x|
      ensures Run(cfg, p, x, k).p.state.ResLine?
    {
      assert Run(cfg, p, x + [b], k).p.state.ResLine?;
      HttpSplit.RunPrefix(cfg, p, x, [b], k);
    }
  }

  /** Behind the first letter nothing is accepted but the rest of a status line, and what is recorded
      are its version and the value of its code. */
  lemma {:induction false} StatusOnly(cfg: Config, p: Parser, x: bytes) returns (t: Parts)
    requires p.state == ResLine(ResH) && InLineUntil(cfg, p, x) && Run(cfg, p, x, |x|).ctl.Next?
    ensures LineSoFar(p, x, Run(cfg, p, x, |x|).p, t)
    decreases |x|
  {
    hide Run, Step, LineText, VersionRest, Decimal, PartsOk;
    if x == [] {
      TakesNone(cfg, p);
      t := Parts(0, [], NoReason);
      NoText(p, t);
    } else {
      var y, b := x[..|x| - 1], x[|x| - 1];
      assert x == y + [b];
      UntilBefore(cfg, p, y, b);
      RunLast(cfg, p, y, b);
      t := StatusOnly(cfg, p, y);
      var q := Run(cfg, p, y, |y|).p;
      t := LineNext(cfg, q, b, t);
    }
  }

  lemma NoText(p: Parser, t: Parts)
    requires p.state == ResLine(ResH) && t == Parts(0, [], NoReason)
    ensures PartsOk(p, t) && LineText(ResH, p.major, p.minor, t) == []
  {
  }

  lemma LineNext(cfg: Config, p: Parser, b: byte, t: Parts) returns (u: Parts)
    requires p.state.ResLine? && PartsOk(p, t) && Step(cfg, p, b).ctl.Next?
    ensures LineSoFar(p, LineText(p.state.res, p.major, p.minor, t) + [b], Step(cfg, p, b).p, u)
  {
    hide Step, VersionRest, Decimal, LineText, PartsOk, Spaces;
    BudgetLeft(cfg, p, b);
    var r := p.(nread := p.nread + 1);
    PartsCounted(p, t);
    if !BeforeCode(p.state.res) && (b == CR || b == LF || p.state.res.ResLineAlmostDone?) {
      u := EndNext(cfg, p, b, t);
      AlmostText(p, u);
    } else {
      NotAgain(p, b);
      StepStatus(cfg, p, b);
      if BeforeCode(p.state.res) {
        u := EarlyNext(r, b, t);
      } else if p.state.res.ResFirstStatusCode? {
        u := FirstDigitNext(r, b, t);
      } else if p.state.res.ResStatusCode? {
        u := CodeNext(r, b, t);
      } else {
        u := ReasonNext(r, b, t);
      }
    }
  }

  lemma PartsCounted(p: Parser, t: Parts)
    requires PartsOk(p, t)
    ensures PartsOk(p.(nread := p.nread + 1), t)
  {
    hide Decimal;
  }

  lemma AlmostText(p: Parser, t: Parts)
    ensures LineText(ResLineAlmostDone, p.major, p.minor, t)
            == VersionRest(Digit(p.major), Digit(p.minor)) + Spaces(t.spaces) + t.digits + ReasonText(t.reason) + [CR]
  {
  }

  lemma NotAgain(p: Parser, b: byte)
    requires p.state.ResLine?
             && (BeforeCode(p.state.res) || !(b == CR || b == LF || p.state.res.ResLineAlmostDone?))
    ensures !SwitchStatusLine(p.(nread := p.nread + 1), b).ctl.Again?
  {
  }
}
