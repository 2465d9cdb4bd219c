/** What every reachable parser record satisfies, and that the source's assertions hold. */
module HttpShape {
  import opened Ascii
  import opened HttpTypes
  import opened HttpUrlChar
  import opened HttpMachine

  // ---------------------------------------------------------------- header states by place

  /** Header states while a name is read, and how far a word is matched. */
  predicate NameShape(h: HState, i: nat) {
    match h
    case General => true
    case HC => i == 0
    case HCO => i == 1
    case HCON => i == 2
    case MatchingConnection => i + 1 < 10
    case MatchingProxyConnection => i + 1 < 16
    case MatchingContentLength => i + 1 < 14
    case MatchingTransferEncoding => i + 1 < 17
    case MatchingUpgrade => i + 1 < 7
    case HConnection => true
    case HContentLength => true
    case HTransferEncoding => true
    case HUpgrade => true
    case _ => false
  }

  /** Header states while a value is read. */
  predicate ValueShape(h: HState, i: nat) {
    match h
    case General => true
    case LengthNum => true
    case LengthWs => true
    case Te(t) => (t.TeTokenStart? ==> i == 0) && (t.TeMatchingChunked? ==> i + 1 < 7)
    case Conn(t) =>
      && (t.ConnTokenStart? ==> i == 0)
      && (t.ConnMatchingKeepAlive? ==> i + 1 < 10)
      && (t.ConnMatchingClose? ==> i + 1 < 5)
      && (t.ConnMatchingUpgrade? ==> i + 1 < 7)
    case _ => false
  }

  predicate OfTe(h: HState) { h.HTransferEncoding? || h.Te? }

  predicate LengthState(h: HState) { h.LengthNum? || h.LengthWs? }

  /** A name, or the blank space after it, is being read. */
  predicate InName(s: State) { s.HeaderField? || s.Discard? }

  predicate InText(s: State) {
    s.HeaderValueStart? || s.HeaderValue? || s.HeaderAlmostDone? || s.HeaderValueLws?
  }

  predicate InChunk(s: State) { s.ChunkData? || s.ChunkDataAlmostDone? || s.ChunkDataDone? }

  predicate InRequestLine(s: State) { s.ReqMethod? || s.ReqUrl? || s.ReqVersion? }

  /** Between the start of a message and its headers. */
  predicate InStartLine(s: State) { s.ResOrRespH? || InRequestLine(s) || s.ResLine? }

  predicate InHeaders(s: State) {
    s.HeaderFieldStart? || InName(s) || InText(s) || s.HeadersAlmostDone? || s.HeadersDone?
  }

  // ---------------------------------------------------------------- the invariant

  predicate KindOk(p: Parser) {
    && (p.kind.Request? || !p.httpMethod.CONNECT?)
    && if p.state.StartReqOrRes? || p.state.ResOrRespH? then p.kind.Both?
    else if p.state.StartReq? || InRequestLine(p.state) then p.kind.Request?
    else if p.state.StartRes? || p.state.ResLine? || p.state.BodyIdentityEof? then p.kind.Response?
    else !p.kind.Both?
  }

  /** Content-Length is recorded exactly when its flag is up. */
  predicate LengthOk(p: Parser) {
    if p.flags.contentLength then p.contentLength < ABSENT else p.contentLength == ABSENT
  }

  predicate FlagsOk(p: Parser) {
    && (p.flags.chunked ==> p.flags.transferEncoding)
    && (InName(p.state) || InText(p.state) ==> OfTe(p.hstate) ==> p.flags.transferEncoding)
    && (InStartLine(p.state) ==> p.flags == NO_FLAGS)
    && (InStartLine(p.state) || (InHeaders(p.state) && !p.flags.trailing) ==> LengthOk(p))
    && (InHeaders(p.state) && p.flags.trailing ==> p.flags.chunked)
    && (InText(p.state) && LengthState(p.hstate) ==> p.flags.contentLength)
    && (p.state.HeadersDone? ==> !p.flags.trailing && !(p.flags.transferEncoding && p.flags.contentLength))
    && (p.state.ChunkLine? || InChunk(p.state) ==> p.flags.chunked && !p.flags.trailing)
    && (p.state.BodyIdentityEof? ==> !p.flags.chunked && !p.flags.skipBody && p.contentLength == ABSENT)
    && (p.state.BodyIdentity? || p.state.BodyIdentityEof? ==> !p.flags.trailing)
    && (p.state.BodyIdentity? ==> !p.flags.transferEncoding)
  }

  predicate CountersOk(p: Parser) {
    && p.index < 32
    && p.contentLength <= ABSENT
    && (p.state.ReqMethod? ==> 1 <= p.index <= |MethodName(p.httpMethod)|)
    && (p.state == ResLine(ResStatusCode) ==> p.statusCode <= 999)
    && (InName(p.state) ==> NameShape(p.hstate, p.index))
    && (InText(p.state) ==> ValueShape(p.hstate, p.index))
    && (p.state.ChunkLine? && !p.state.line.SizeStart? ==> p.contentLength < ABSENT)
    && (p.state.BodyIdentity? || p.state.ChunkData? ==> 0 < p.contentLength < ABSENT)
    && (p.state.ChunkDataAlmostDone? || p.state.ChunkDataDone? ==> p.contentLength == 0)
    && (p.state.ReqUrl? ==> !p.state.url.UrlDead?)
    && (p.state.HeaderValueStart? ==> !p.hstate.LengthNum?)
  }

  /** Holds at every pass through the switch that an error-free run makes. */
  predicate Core(p: Parser) {
    p.errno.OK? && KindOk(p) && FlagsOk(p) && CountersOk(p)
  }

  /** The states a byte can end in: the others are left again within the same byte. */
  predicate Settled(s: State) {
    !s.HeaderValueStart? && !s.HeadersDone? && !s.MessageDone?
  }

  /** Holds between bytes of every error-free run, hence between calls. */
  predicate Shape(cfg: Config, p: Parser) {
    && Core(p)
    && Settled(p.state)
    && p.nread <= cfg.maxHeaderSize
    && (p.state == ChunkLine(SizeStart) ==> p.nread == 0)
  }

  /** The assertions of the source at the top of each case of the switch. */
  predicate Asserts(p: Parser) {
    && p.errno.OK?
    && (p.state.HeaderField? ==> NameShape(p.hstate, p.index))
    && (p.state.HeaderValue? ==> !p.hstate.HConnection? && !p.hstate.HTransferEncoding?)
    && (p.state.BodyIdentity? || p.state.ChunkData? ==> p.contentLength != 0 && p.contentLength != ABSENT)
    && (p.state == ChunkLine(SizeStart) ==> p.nread == 1)
    && (p.state.ChunkLine? || InChunk(p.state) ==> p.flags.chunked)
    && (p.state.ChunkDataAlmostDone? ==> p.contentLength == 0)
  }

  // ---------------------------------------------------------------- one byte of a list value

  /** What a byte of a Transfer-Encoding value touches; the header budget plays no part. */
  lemma TeByteFrame(p: Parser, ch: byte, n: nat)
    requires p.hstate.Te?
    ensures var q := TeByte(p, ch);
            && q == p.(hstate := q.hstate, index := q.index) && (q.hstate.Te? || q.hstate.General?)
            && TeByte(p.(nread := n), ch) == q.(nread := n)
            && (ValueShape(p.hstate, p.index) && p.index < 32 ==> ValueShape(q.hstate, q.index) && q.index < 32)
  {
    hide Match, SetBit5, IsToken;
  }

  /** A Connection token may raise its own flag and no other. */
  predicate ConnFlags(f: Flags, g: Flags) {
    && f.chunked == g.chunked && f.trailing == g.trailing && f.upgrade == g.upgrade && f.skipBody == g.skipBody
    && f.contentLength == g.contentLength && f.transferEncoding == g.transferEncoding
  }

  lemma ConnByteFrame(p: Parser, ch: byte, n: nat)
    requires p.hstate.Conn?
    ensures var q := ConnByte(p, ch);
            && q == p.(hstate := q.hstate, index := q.index, flags := q.flags)
            && ConnFlags(p.flags, q.flags) && (q.hstate.Conn? || q.hstate.General?)
            && ConnByte(p.(nread := n), ch) == q.(nread := n)
            && (ValueShape(p.hstate, p.index) && p.index < 32 ==> ValueShape(q.hstate, q.index) && q.index < 32)
  {
    hide Match, SetBit5, IsToken, RaiseToken, ConnFirst;
    match p.hstate.token {
      case ConnTokenStart =>
      case ConnMatchingKeepAlive =>
      case ConnMatchingClose =>
      case ConnMatchingUpgrade =>
      case ConnToken =>
      case _ =>
    }
  }

  // ---------------------------------------------------------------- the start line

  /** The url or status piece of the message has been reported. */
  predicate Told(s: State) {
    match s
    case ResLine(r) => r.ResLineAlmostDone?
    case ReqUrl(u) => !u.SpacesBeforeUrl?
    case ReqVersion(_) => true
    case HeaderFieldStart => true
    case _ => false
  }

  /** What a pass over a start-line byte may change, and which pieces it reports. */
  predicate LineFrame(p: Parser, o: Out, piece: Piece) {
    && o.p == p.(state := o.p.state, major := o.p.major, minor := o.p.minor, statusCode := o.p.statusCode,
                 index := o.p.index, httpMethod := o.p.httpMethod)
    && o.p.index < 32
    && (|o.ev| == 0 || (|o.ev| == 1 && o.ev[0].Data? && o.ev[0].piece == piece))
    && (o.ev != [] ==> Told(o.p.state) || o.p.state == ResLine(ResStatus))
    && (o.ev == [] ==> Told(o.p.state) == Told(p.state))
    && (p.state == ResLine(ResStatus) ==> o.ev != [])
    && (Told(p.state) ==> Told(o.p.state))
  }

  lemma StatusLineFrame(p: Parser, ch: byte)
    requires Core(p) && p.state.ResLine?
    ensures var o := SwitchStatusLine(p, ch);
            !o.ctl.Fail? ==>
              && LineFrame(p, o, Status)
              && (o.p.state.ResLine? || o.p.state.HeaderFieldStart?) && o.p.httpMethod == p.httpMethod
              && (o.p.state == ResLine(ResStatusCode) ==> o.p.statusCode <= 999)
  {
  }

  lemma MethodFrame(p: Parser, ch: byte)
    requires Core(p) && p.state.ReqMethod?
    ensures var o := SwitchMethod(p, ch);
            !o.ctl.Fail? ==>
              && LineFrame(p, o, Url)
              && (o.p.state.ReqMethod? || o.p.state.ReqUrl?)
              && (o.p.state.ReqMethod? ==> 1 <= o.p.index <= |MethodName(o.p.httpMethod)|)
              && (o.p.state.ReqUrl? ==> !o.p.state.url.UrlDead?)
  {
    hide MethodName, NextMethod;
  }

  lemma UrlFrame(p: Parser, ch: byte)
    requires Core(p) && p.state.ReqUrl?
    ensures var o := SwitchUrl(p, ch);
            !o.ctl.Fail? ==>
              && LineFrame(p, o, Url)
              && (o.p.state.ReqUrl? || o.p.state.ReqVersion? || o.p.state.HeaderFieldStart?)
              && (o.p.state.ReqUrl? ==> !o.p.state.url.UrlDead?)
  {
    hide ParseUrlChar;
  }

  lemma ReqVersionFrame(p: Parser, ch: byte)
    requires Core(p) && p.state.ReqVersion?
    ensures var o := SwitchReqVersion(p, ch);
            !o.ctl.Fail? ==>
              && LineFrame(p, o, Url)
              && (o.p.state.ReqVersion? || o.p.state.HeaderFieldStart?)
  {
  }
}
