/** How the head of a message decides where the message ends (section 3.3.3 of RFC 7230). */
module HttpFraming {
  import opened Ascii
  import opened HttpTypes
  import opened HttpMachine
  import opened HttpTrace
  import opened HttpTheorems

  /** What follows a head: nothing, another protocol, chunks, a counted body, or a body up to the end of input;
      or the head is refused. */
  datatype Framing = Refused(errno: Errno) | Nothing | Tunnel | Chunks | Counted | UntilClose

  /** The connection goes over to another protocol: by CONNECT, by an Upgrade that the Connection line confirms
      (in a response with status 101 only), or because the application says so. */
  predicate Switches(p: Parser, reply: Reply) {
    || reply.NoBodyThenUpgrade?
    || if p.flags.upgrade && p.flags.connectionUpgrade then p.kind.Request? || p.statusCode == 101
       else p.httpMethod.CONNECT?
  }

  /** No body: neither chunks nor a length above zero. */
  predicate Bare(p: Parser) { !p.flags.chunked && (p.contentLength == 0 || p.contentLength == ABSENT) }

  function FramingOf(p: Parser, reply: Reply): Framing {
    if p.flags.transferEncoding && p.flags.contentLength then Refused(UnexpectedContentLength)
    else if Switches(p, reply) && (p.httpMethod.CONNECT? || !reply.Proceed? || Bare(p)) then Tunnel
    else if !reply.Proceed? then Nothing
    else if p.flags.chunked then Chunks
    else if p.flags.transferEncoding then if p.kind.Request? then Refused(InvalidTransferEncoding) else UntilClose
    else if p.contentLength == 0 then Nothing
    else if p.contentLength != ABSENT then Counted
    else if p.kind.Request? || NeverBody(p.statusCode) then Nothing
    else UntilClose
  }

  /** The record that the application sees, and its answer. */
  function Asking(p: Parser): Parser { p.(state := HeadersDone, nread := p.nread + 1, upgrade := Switches(p, Proceed)) }

  /** The record behind the head. */
  function AfterReply(p: Parser, reply: Reply): Parser {
    p.(nread := 0, upgrade := Switches(p, reply), flags := p.flags.(skipBody := !reply.Proceed?), state := HeadersDone)
  }

  /** What comes next is not the body of this message. */
  predicate Skipped(p: Parser, reply: Reply) { !reply.Proceed? || (p.httpMethod.CONNECT? && Switches(p, reply)) }

  /** The head is told with what it declares, and the message goes on as the framing says. */
  function Follows(p: Parser, reply: Reply): Out {
    var q := AfterReply(p, reply);
    var told := HeadTold(p, reply);
    var over := [told, Complete(ShouldKeepAlive(q))];
    var start := if !ShouldKeepAlive(q) then Dead else if p.kind.Request? then StartReq else StartRes;
    match FramingOf(p, reply)
    case Refused(e) => Error(q, e)
    case Nothing => Out(q.(state := start), over, Next)
    case Tunnel => Out(q.(state := start), over, Stop)
    case Chunks => Out(q.(state := ChunkLine(SizeStart)), [told], Next)
    case Counted => Out(q.(state := BodyIdentity), [told], Next)
    case UntilClose => Out(q.(state := BodyIdentityEof), [told], Next)
  }

  function HeadTold(p: Parser, reply: Reply): Event {
    HeadersComplete(p.contentLength, p.flags.chunked, Skipped(p, reply))
  }

  /** The first pass asks the application. */
  lemma HeadAsks(cfg: Config, p: Parser)
    requires p.state.HeadersAlmostDone? && !p.flags.trailing && !p.flags.skipBody
    ensures var reply, r := cfg.reply(Asking(p)), p.(nread := p.nread + 1);
            Switch(cfg, r, LF)
            == if p.flags.transferEncoding && p.flags.contentLength then Error(r, UnexpectedContentLength)
               else Out(AfterReply(p, reply).(nread := p.nread + 1), [HeadTold(p, reply)], Again)
  {
    hide AfterHeaders, SwitchName, SwitchValue, SwitchBody, SwitchChunkLine, SwitchUrl, SwitchMethod, SwitchReqVersion,
         SwitchStatusLine, SwitchIdle;
    Answered(cfg, p);
  }

  /** The second pass takes the way of the framing. */
  lemma HeadGoesOn(cfg: Config, p: Parser, reply: Reply)
    requires !p.flags.skipBody && !(p.flags.transferEncoding && p.flags.contentLength)
    ensures var o, d := Switch(cfg, AfterReply(p, reply).(nread := p.nread + 1), LF), Follows(p, reply);
            if FramingOf(p, reply).Refused? then o == Error(AfterReply(p, reply), FramingOf(p, reply).errno)
            else d.ev == [HeadTold(p, reply)] + o.ev && o.p == d.p && o.ctl == d.ctl
  {
    hide ShouldKeepAlive, NeedsEof, SwitchName, SwitchValue, SwitchBody, SwitchChunkLine, SwitchUrl, SwitchMethod,
         SwitchReqVersion, SwitchStatusLine, SwitchIdle, AfterHeaders;
    EofFraming(AfterReply(p, reply));
  }

  /** The line feed that ends a head does what the framing says. */
  lemma HeadEnds(cfg: Config, p: Parser)
    requires p.state.HeadersAlmostDone? && p.nread < cfg.maxHeaderSize && !p.flags.trailing && !p.flags.skipBody
    ensures var reply, o := cfg.reply(Asking(p)), Step(cfg, p, LF);
            if FramingOf(p, reply).Refused? then o.ctl.Fail? && o.p.errno == FramingOf(p, reply).errno
            else o == Follows(p, reply)
  {
    hide Switch, Follows, AfterReply, HeadTold;
    HeadAsks(cfg, p);
    if !(p.flags.transferEncoding && p.flags.contentLength) {
      var reply := cfg.reply(Asking(p));
      var s := AfterReply(p, reply).(nread := p.nread + 1);
      HeadGoesOn(cfg, p, reply);
      NotAgain(p, reply);
      assert Chain(cfg, s, LF) == Switch(cfg, s, LF);
    }
  }

  lemma NotAgain(p: Parser, reply: Reply)
    ensures !Follows(p, reply).ctl.Again?
  {
    hide ShouldKeepAlive;
  }

  lemma Answered(cfg: Config, p: Parser)
    requires p.state.HeadersAlmostDone? && !p.flags.skipBody
    ensures AfterHeaders(cfg, p.(nread := p.nread + 1))
            == AfterReply(p, cfg.reply(Asking(p))).(nread := p.nread + 1)
  {
  }

  lemma EofFraming(p: Parser)
    ensures !p.flags.chunked && !p.flags.transferEncoding && !p.flags.skipBody ==>
              (NeedsEof(p) <==> !(p.kind.Request? || NeverBody(p.statusCode)) && p.contentLength == ABSENT)
  {
  }
}
