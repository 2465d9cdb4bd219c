/** Errors name the part of the message in which they were found. */
module HttpErrors {
  import opened Ascii
  import opened HttpTypes
  import opened HttpMachine
  import opened HttpUrlChar

  /** The parts of a message, by the state that reads them. */
  datatype Part = BetweenMessages | MethodPart | TargetPart | ProtocolPart | VersionPart | StatusPart | LineEndPart
                | NamePart | ValuePart | HeadEndPart | ChunkSizePart | BodyPart

  function PartOf(s: State): Part {
    match s
    case Dead => BetweenMessages
    case StartReqOrRes => BetweenMessages
    case ResOrRespH => ProtocolPart
    case StartRes => ProtocolPart
    case StartReq => MethodPart
    case ReqMethod => MethodPart
    case ReqUrl(_) => TargetPart
    case ReqVersion(v) =>
      if v.HttpMajor? || v.HttpDot? || v.HttpMinor? || v.HttpEnd? then VersionPart
      else if v.ReqLineAlmostDone? then LineEndPart else ProtocolPart
    case ResLine(r) =>
      if r.ResMajor? || r.ResDot? || r.ResMinor? || r.ResEnd? then VersionPart
      else if r.ResFirstStatusCode? || r.ResStatusCode? || r.ResStatusStart? || r.ResStatus? then StatusPart
      else if r.ResLineAlmostDone? then LineEndPart else ProtocolPart
    case HeaderFieldStart => NamePart
    case HeaderField => NamePart
    case HeaderAlmostDone => LineEndPart
    case HeadersAlmostDone => HeadEndPart
    case HeadersDone => HeadEndPart
    case ChunkLine(_) => ChunkSizePart
    case Discard(_) => ValuePart
    case HeaderValueStart => ValuePart
    case HeaderValue => ValuePart
    case HeaderValueLws => ValuePart
    case _ => BodyPart
  }

  /** The errors of a part. A strict error is a byte that the protocol fixes. */
  predicate Belongs(e: Errno, part: Part) {
    match part
    case BetweenMessages => e.ClosedConnection?
    case MethodPart => e.InvalidMethod?
    case TargetPart => e.InvalidUrl?
    case ProtocolPart => e.InvalidConstant? || e.Strict?
    case VersionPart => e.InvalidVersion?
    case StatusPart => e.InvalidStatus?
    case LineEndPart => e.LfExpected? || e.Strict?
    case NamePart => e.InvalidHeaderToken?
    case ValuePart => e.InvalidHeaderToken? || e.InvalidContentLength? || e.UnexpectedContentLength? || e.Strict?
    case HeadEndPart => e.UnexpectedContentLength? || e.InvalidTransferEncoding? || e.Strict?
    case ChunkSizePart => e.InvalidChunkSize? || e.InvalidContentLength? || e.Strict?
    case BodyPart => e.Strict?
  }

  lemma StartErrors(p: Parser, ch: byte)
    ensures p.state.ReqMethod? && SwitchMethod(p, ch).ctl.Fail? ==> SwitchMethod(p, ch).p.errno.InvalidMethod?
    ensures p.state.ReqUrl? && SwitchUrl(p, ch).ctl.Fail? ==> SwitchUrl(p, ch).p.errno.InvalidUrl?
    ensures p.state.ReqVersion? && SwitchReqVersion(p, ch).ctl.Fail? ==>
              Belongs(SwitchReqVersion(p, ch).p.errno, PartOf(p.state))
    ensures p.state.ResLine? && SwitchStatusLine(p, ch).ctl.Fail? ==>
              Belongs(SwitchStatusLine(p, ch).p.errno, PartOf(p.state))
  {
    hide NextMethod, ParseUrlChar, MethodName;
  }

  lemma HeaderErrors(p: Parser, ch: byte)
    ensures (p.state.HeaderFieldStart? || p.state.HeaderField?) && SwitchName(p, ch).ctl.Fail? ==>
              SwitchName(p, ch).p.errno.InvalidHeaderToken?
    ensures IsValueState(p.state) && SwitchValue(p, ch).ctl.Fail? ==>
              Belongs(SwitchValue(p, ch).p.errno, PartOf(p.state))
  {
    hide NextName, TeByte, ConnByte, RaiseToken, ConnFirst, SetBit5, IsToken, IsHeaderChar;
  }

  lemma BodyErrors(cfg: Config, p: Parser, ch: byte)
    ensures (p.state.HeadersAlmostDone? || p.state.HeadersDone?) && SwitchHeadersEnd(cfg, p, ch).ctl.Fail? ==>
              Belongs(SwitchHeadersEnd(cfg, p, ch).p.errno, HeadEndPart)
    ensures p.state.ChunkLine? && SwitchChunkLine(p, ch).ctl.Fail? ==>
              Belongs(SwitchChunkLine(p, ch).p.errno, ChunkSizePart)
    ensures IsBodyState(p.state) && SwitchBody(p, ch).ctl.Fail? ==> SwitchBody(p, ch).p.errno.Strict?
  {
    hide ShouldKeepAlive, NeedsEof, AfterHeaders, Unhex;
  }

  /** A pass that fails reports an error of the part that it reads. */
  lemma PassNames(cfg: Config, p: Parser, ch: byte)
    ensures var o := Switch(cfg, p, ch); o.ctl.Fail? ==> Belongs(o.p.errno, PartOf(p.state))
  {
    hide SwitchName, SwitchValue, SwitchBody, SwitchChunkLine, SwitchHeadersEnd, SwitchUrl, SwitchMethod,
         SwitchReqVersion, SwitchStatusLine;
    StartErrors(p, ch);
    HeaderErrors(p, ch);
    BodyErrors(cfg, p, ch);
  }

  /** The state in which the last pass over a byte begins. */
  function LastPass(cfg: Config, p: Parser, ch: byte): State
    decreases Rank(p.state)
  {
    var o := Switch(cfg, p, ch);
    if o.ctl.Again? then
      AgainLowersRank(cfg, p, ch);
      LastPass(cfg, o.p, ch)
    else p.state
  }

  lemma {:induction false} ChainNames(cfg: Config, p: Parser, ch: byte)
    ensures var o := Chain(cfg, p, ch); o.ctl.Fail? ==> Belongs(o.p.errno, PartOf(LastPass(cfg, p, ch)))
    decreases Rank(p.state)
  {
    hide Switch, Belongs, PartOf;
    var o := Switch(cfg, p, ch);
    if o.ctl.Again? {
      AgainLowersRank(cfg, p, ch);
      ChainNames(cfg, o.p, ch);
    } else {
      PassNames(cfg, p, ch);
    }
  }

  /** A byte that fails has spent the header budget, or its error is one of the part that was read last. */
  lemma ErrorNamed(cfg: Config, p: Parser, ch: byte)
    requires Step(cfg, p, ch).ctl.Fail?
    ensures var e, q := Step(cfg, p, ch).p.errno, p.(nread := p.nread + 1);
            if ParsingHeader(p.state) && p.nread >= cfg.maxHeaderSize then e == HeaderOverflow
            else Belongs(e, PartOf(LastPass(cfg, if ParsingHeader(p.state) then q else p, ch)))
  {
    hide Chain, Belongs, PartOf, LastPass;
    ChainNames(cfg, p, ch);
    ChainNames(cfg, p.(nread := p.nread + 1), ch);
  }
}
