/** A response that has no body and yet is read until the end of input: status 204 with a
    Transfer-Encoding other than chunked. The end of input then reports a connection to keep. */
module HttpNoContent {
  import opened Ascii
  import opened HttpTypes
  import opened HttpMachine
  import opened HttpClient
  import opened HttpInvariant
  import opened HttpRuns
  import opened HttpBatch
  import opened HttpFeed
  import opened HttpTheorems

  const STATUS: bytes := Ascii.Text("HTTP/1.1 204\n")
  const REST: bytes := Ascii.Text(":x\n\n")
  const RESPONSE: bytes := STATUS + TRANSFER_ENCODING + REST

  /** The run has come to byte n with these fields. */
  predicate Reaches(cfg: Config, data: bytes, n: nat, p: Parser) {
    n <= |data| && var t := Run(cfg, Init(Response), data, n); t.ctl.Next? && t.p == p
  }

  lemma ReachesNext(cfg: Config, data: bytes, n: nat, p: Parser, b: byte)
    requires Reaches(cfg, data, n, p) && n < |data| && data[n] == b && Step(cfg, p, b).ctl.Next?
    ensures Reaches(cfg, data, n + 1, Step(cfg, p, b).p)
  {
    hide Step;
  }

  // ---------------------------------------------------------------- the status line

  lemma LineStep(cfg: Config, p: Parser, b: byte)
    requires p.state.ResLine? && p.nread < cfg.maxHeaderSize
    requires SwitchStatusLine(p.(nread := p.nread + 1), b).ctl.Next?
    ensures Step(cfg, p, b) == SwitchStatusLine(p.(nread := p.nread + 1), b)
  {
    hide SwitchStatusLine;
  }

  lemma LineNext(cfg: Config, data: bytes, n: nat, p: Parser, b: byte)
    requires Reaches(cfg, data, n, p) && n < |data| && data[n] == b
    requires p.state.ResLine? && p.nread < cfg.maxHeaderSize
    requires SwitchStatusLine(p.(nread := p.nread + 1), b).ctl.Next?
    ensures Reaches(cfg, data, n + 1, SwitchStatusLine(p.(nread := p.nread + 1), b).p)
  {
    hide SwitchStatusLine, Step, Reaches;
    LineStep(cfg, p, b);
    ReachesNext(cfg, data, n, p, b);
  }

  /** A response in the status line, n bytes read. */
  function InLine(r: ResState, n: nat, major: nat, minor: nat, code: nat): Parser {
    Init(Response).(contentLength := ABSENT, state := ResLine(r), nread := n, major := major, minor := minor,
                    statusCode := code)
  }

  lemma FirstStep(cfg: Config, data: bytes)
    requires STATUS <= data && 1 <= cfg.maxHeaderSize
    ensures Reaches(cfg, data, 1, InLine(ResH, 1, 0, 0, 0))
  {
    assert data[0] == STATUS[0];
  }

  lemma VersionRead(cfg: Config, data: bytes)
    requires STATUS <= data && |STATUS| <= cfg.maxHeaderSize
    ensures Reaches(cfg, data, 8, InLine(ResEnd, 8, 1, 1, 0))
  {
    hide Reaches;
    FirstStep(cfg, data);
    forall i | 0 <= i < |STATUS| ensures data[i] == STATUS[i] {}
    LineNext(cfg, data, 1, InLine(ResH, 1, 0, 0, 0), 'T' as int);
    LineNext(cfg, data, 2, InLine(ResHT, 2, 0, 0, 0), 'T' as int);
    LineNext(cfg, data, 3, InLine(ResHTT, 3, 0, 0, 0), 'P' as int);
    LineNext(cfg, data, 4, InLine(ResHTTP, 4, 0, 0, 0), '/' as int);
    LineNext(cfg, data, 5, InLine(ResMajor, 5, 0, 0, 0), '1' as int);
    LineNext(cfg, data, 6, InLine(ResDot, 6, 1, 0, 0), '.' as int);
    LineNext(cfg, data, 7, InLine(ResMinor, 7, 1, 0, 0), '1' as int);
  }

  lemma CodeRead(cfg: Config, data: bytes)
    requires STATUS <= data && |STATUS| <= cfg.maxHeaderSize
    ensures Reaches(cfg, data, 12, InLine(ResStatusCode, 12, 1, 1, 204))
  {
    hide Reaches;
    VersionRead(cfg, data);
    forall i | 0 <= i < |STATUS| ensures data[i] == STATUS[i] {}
    LineNext(cfg, data, 8, InLine(ResEnd, 8, 1, 1, 0), SP);
    LineNext(cfg, data, 9, InLine(ResFirstStatusCode, 9, 1, 1, 0), '2' as int);
    LineNext(cfg, data, 10, InLine(ResStatusCode, 10, 1, 1, 2), '0' as int);
    LineNext(cfg, data, 11, InLine(ResStatusCode, 11, 1, 1, 20), '4' as int);
  }

  /** The header section begins. */
  function Headers(n: nat): Parser { InLine(ResStatus, n, 1, 1, 204).(state := HeaderFieldStart) }

  lemma LineEnds(cfg: Config, p: Parser)
    requires p.state == ResLine(ResStatusCode) && p.nread < cfg.maxHeaderSize
    ensures var o := Step(cfg, p, LF);
            o.ctl.Next? && o.p == p.(nread := p.nread + 1, index := 0, state := HeaderFieldStart)
  {
    hide SwitchName, SwitchValue, SwitchBody, SwitchChunkLine, SwitchHeadersEnd, SwitchUrl, SwitchMethod,
         SwitchReqVersion, SwitchIdle;
    var q := p.(nread := p.nread + 1, state := ResLine(ResStatusStart));
    var r := q.(index := 0, state := ResLine(ResStatus));
    assert Chain(cfg, r, LF) == Switch(cfg, r, LF);
    assert Switch(cfg, q, LF) == Out(r, [], Again);
    assert Chain(cfg, q, LF).p == Chain(cfg, r, LF).p;
  }

  lemma StatusRead(cfg: Config, data: bytes)
    requires STATUS <= data && |STATUS| <= cfg.maxHeaderSize
    ensures Reaches(cfg, data, 13, Headers(13))
  {
    hide Reaches, Step;
    CodeRead(cfg, data);
    assert data[12] == STATUS[12];
    LineEnds(cfg, InLine(ResStatusCode, 12, 1, 1, 204));
    ReachesNext(cfg, data, 12, InLine(ResStatusCode, 12, 1, 1, 204), LF);
  }

  // ---------------------------------------------------------------- the header

  /** n letters of the name have been read. */
  function Spelling(n: nat): Parser
    requires 1 <= n <= |TRANSFER_ENCODING|
  {
    var p := Headers(13 + n).(state := HeaderField, index := n - 1);
    if n < |TRANSFER_ENCODING| then p.(hstate := MatchingTransferEncoding)
    else p.(hstate := HTransferEncoding, flags := NO_FLAGS.(transferEncoding := true))
  }

  lemma NameStarts(cfg: Config)
    requires 14 <= cfg.maxHeaderSize
    ensures |TRANSFER_ENCODING| == 17
    ensures var o := Step(cfg, Headers(13), TRANSFER_ENCODING[0]); o.ctl.Next? && o.p == Spelling(1)
  {
  }

  lemma NameGoesOn(cfg: Config, n: nat)
    requires 1 <= n < |TRANSFER_ENCODING| && 14 + n <= cfg.maxHeaderSize
    ensures var o := Step(cfg, Spelling(n), TRANSFER_ENCODING[n]); o.ctl.Next? && o.p == Spelling(n + 1)
  {
    hide Step;
    NameLetters();
    StepName(cfg, Spelling(n), TRANSFER_ENCODING[n]);
  }

  lemma NameLetters()
    ensures forall i | 0 <= i < |TRANSFER_ENCODING| ::
              IsToken(TRANSFER_ENCODING[i]) && Lower(TRANSFER_ENCODING[i]) == TRANSFER_ENCODING[i]
  {
  }

  lemma {:induction false} NameRead(cfg: Config, data: bytes, n: nat)
    requires STATUS + TRANSFER_ENCODING <= data && |data| <= cfg.maxHeaderSize && 1 <= n <= |TRANSFER_ENCODING|
    ensures Reaches(cfg, data, 13 + n, Spelling(n))
    decreases n
  {
    hide Reaches, Step, Spelling, Headers, TRANSFER_ENCODING;
    assert |STATUS| == 13;
    assert data[13 + n - 1] == (STATUS + TRANSFER_ENCODING)[13 + n - 1] == TRANSFER_ENCODING[n - 1];
    if n == 1 {
      assert STATUS <= data;
      StatusRead(cfg, data);
      NameStarts(cfg);
      ReachesNext(cfg, data, 13, Headers(13), TRANSFER_ENCODING[0]);
    } else {
      NameRead(cfg, data, n - 1);
      NameGoesOn(cfg, n - 1);
      ReachesNext(cfg, data, 13 + n - 1, Spelling(n - 1), TRANSFER_ENCODING[n - 1]);
    }
  }

  /** After the name. */
  function After(n: nat, s: State, h: HState): Parser {
    Headers(n).(state := s, hstate := h, index := if h.Te? then 0 else 16, flags := NO_FLAGS.(transferEncoding := true))
  }

  lemma ColonStep(cfg: Config)
    requires 31 <= cfg.maxHeaderSize
    ensures var o := Step(cfg, Spelling(17), ':' as int);
            o.ctl.Next? && o.p == After(31, Discard(Ws), HTransferEncoding)
  {
    hide SwitchValue, SwitchBody, SwitchChunkLine, SwitchHeadersEnd, SwitchUrl, SwitchMethod, SwitchReqVersion,
         SwitchStatusLine, SwitchIdle, TRANSFER_ENCODING;
    NameLength();
  }

  lemma TextStep(cfg: Config)
    requires 32 <= cfg.maxHeaderSize
    ensures var o := Step(cfg, After(31, Discard(Ws), HTransferEncoding), 'x' as int);
            o.ctl.Next? && o.p == After(32, HeaderValue, Te(TeToken))
  {
  }

  lemma TextEnds(cfg: Config)
    requires 33 <= cfg.maxHeaderSize
    ensures var o := Step(cfg, After(32, HeaderValue, Te(TeToken)), LF);
            o.ctl.Next? && o.p == After(33, HeaderValueLws, Te(TeToken))
  {
    var q := After(33, HeaderAlmostDone, Te(TeToken));
    assert Chain(cfg, q, LF) == Switch(cfg, q, LF);
  }

  /** The body of a 204 that has a Transfer-Encoding begins. */
  function Begun(): Parser { After(0, BodyIdentityEof, Te(TeToken)) }

  lemma HeadersEnd(cfg: Config)
    requires 34 <= cfg.maxHeaderSize && forall q :: cfg.reply(q).Proceed?
    ensures var o := Step(cfg, After(33, HeaderValueLws, Te(TeToken)), LF); o.ctl.Next? && o.p == Begun()
  {
    hide SwitchBody, SwitchChunkLine, SwitchUrl, SwitchMethod, SwitchReqVersion, SwitchStatusLine, SwitchIdle;
    var p := After(34, HeaderValueLws, Te(TeToken));
    var q := p.(state := HeaderFieldStart);
    var r := p.(state := HeadersAlmostDone);
    var s := p.(state := HeadersDone);
    assert Switch(cfg, s, LF) == Out(Begun(), [], Next);
    assert Chain(cfg, s, LF) == Switch(cfg, s, LF);
    assert Switch(cfg, r, LF).p == s && Switch(cfg, r, LF).ctl.Again?;
    assert Chain(cfg, r, LF).p == Begun() && Chain(cfg, r, LF).ctl.Next?;
    assert Switch(cfg, q, LF) == Out(r, [], Again);
    assert Chain(cfg, q, LF).p == Begun() && Chain(cfg, q, LF).ctl.Next?;
    assert Switch(cfg, p, LF) == Out(q, [], Again);
  }

  lemma RestBytes()
    ensures |RESPONSE| == 34 && STATUS + TRANSFER_ENCODING <= RESPONSE
    ensures RESPONSE[30] == ':' as int && RESPONSE[31] == 'x' as int && RESPONSE[32] == LF && RESPONSE[33] == LF
  {
    hide TRANSFER_ENCODING;
    NameLength();
  }

  lemma NameLength()
    ensures |TRANSFER_ENCODING| == 17
  {
  }

  lemma ResponseRead(cfg: Config)
    requires |RESPONSE| <= cfg.maxHeaderSize && forall q :: cfg.reply(q).Proceed?
    ensures Reaches(cfg, RESPONSE, |RESPONSE|, Begun())
  {
    hide Reaches, Step, RESPONSE, STATUS, TRANSFER_ENCODING, Spelling, After;
    RestBytes();
    NameLength();
    var data := RESPONSE;
    NameRead(cfg, data, 17);
    ColonStep(cfg);
    ReachesNext(cfg, data, 30, Spelling(17), ':' as int);
    TextStep(cfg);
    ReachesNext(cfg, data, 31, After(31, Discard(Ws), HTransferEncoding), 'x' as int);
    TextEnds(cfg);
    ReachesNext(cfg, data, 32, After(32, HeaderValue, Te(TeToken)), LF);
    HeadersEnd(cfg);
    ReachesNext(cfg, data, 33, After(33, HeaderValueLws, Te(TeToken)), LF);
  }

  /** The end of input completes this response, and the application is told to keep a connection
      that has ended. */
  lemma NoContentKeptAlive(cfg: Config)
    requires |RESPONSE| <= cfg.maxHeaderSize && forall q :: cfg.reply(q).Proceed?
    ensures var (p, ev) := Feed(cfg, Response, [RESPONSE, []]);
            p.errno.OK? && p.state.BodyIdentityEof? && DeliverAll(FRESH, ev).phase == Idle(true)
  {
    hide Run, RESPONSE, DeliverAll, ShouldKeepAlive;
    RestBytes();
    ResponseRead(cfg);
    var calls: seq<bytes> := [RESPONSE];
    assert calls[..0] == [] && calls + [[]] == [RESPONSE, []];
    assert Feed(cfg, Response, calls[..0]) == (Init(Response), []);
    assert Feed(cfg, Response, calls).0 == Begun();
    assert !Over(cfg, Response, calls);
    EofCompletes(cfg, Response, calls);
    BegunPersists();
  }

  lemma BegunPersists()
    ensures NeverBody(Begun().statusCode) && Persists(Begun())
  {
  }

  /** Any call after that end breaks the grammar. */
  lemma GrammarBreaks(cfg: Config, data: bytes)
    requires |RESPONSE| <= cfg.maxHeaderSize && forall q :: cfg.reply(q).Proceed?
    ensures DeliverAll(FRESH, Feed(cfg, Response, [RESPONSE, [], data]).1).phase.Broken?
  {
    hide Run, RESPONSE, DeliverAll, ShouldKeepAlive, Good, Until;
    RestBytes();
    ResponseRead(cfg);
    var one: seq<bytes>, two: seq<bytes>, calls: seq<bytes> := [RESPONSE], [RESPONSE, []], [RESPONSE, [], data];
    assert one[..0] == [] && two[..1] == one && calls[..2] == two;
    assert Feed(cfg, Response, one[..0]) == (Init(Response), []);
    assert Ends(Feed(cfg, Response, one).0, []);
    assert Over(cfg, Response, two);
    FeedKeeps(cfg, Response, calls);
  }
}
