/** The byte machine of `http_parser_execute`: one pass through its switch for one byte
    (`Switch`), the REEXECUTE chain (`Chain`), the header budget (`Step`), and the run over a
    buffer one byte at a time (`Run`).

    A pass reports the pieces of text one byte at a time: `Data(k, [b])` says that byte b
    belongs to the current run of kind k, and `Data(k, [])` that the run ends before the
    current byte. */
module HttpMachine {
  import opened Ascii
  import opened HttpTypes
  import opened HttpUrlChar

  // ---------------------------------------------------------------- matched words

  const CONNECTION: bytes := Text("connection")
  const PROXY_CONNECTION: bytes := Text("proxy-connection")
  const CONTENT_LENGTH: bytes := Text("content-length")
  const TRANSFER_ENCODING: bytes := Text("transfer-encoding")
  const UPGRADE: bytes := Text("upgrade")
  const CHUNKED: bytes := Text("chunked")
  const KEEP_ALIVE: bytes := Text("keep-alive")
  const CLOSE: bytes := Text("close")

  function MethodName(m: Method): (name: string)
    ensures 3 <= |name| <= 11
  {
    match m
    case DELETE => "DELETE" case GET => "GET" case HEAD => "HEAD" case POST => "POST"
    case PUT => "PUT" case CONNECT => "CONNECT" case OPTIONS => "OPTIONS" case TRACE => "TRACE"
    case COPY => "COPY" case LOCK => "LOCK" case MKCOL => "MKCOL" case MOVE => "MOVE"
    case PROPFIND => "PROPFIND" case PROPPATCH => "PROPPATCH" case SEARCH => "SEARCH"
    case UNLOCK => "UNLOCK" case BIND => "BIND" case REBIND => "REBIND" case UNBIND => "UNBIND"
    case ACL => "ACL" case REPORT => "REPORT" case MKACTIVITY => "MKACTIVITY"
    case CHECKOUT => "CHECKOUT" case MERGE => "MERGE" case MSEARCH => "M-SEARCH"
    case NOTIFY => "NOTIFY" case SUBSCRIBE => "SUBSCRIBE" case UNSUBSCRIBE => "UNSUBSCRIBE"
    case PATCH => "PATCH" case PURGE => "PURGE" case MKCALENDAR => "MKCALENDAR"
    case LINK => "LINK" case UNLINK => "UNLINK" case SOURCE => "SOURCE"
  }

  // ---------------------------------------------------------------- message predicates

  /** http_message_needs_eof. */
  predicate NeedsEof(p: Parser) {
    if p.kind.Request? then false
    else if p.statusCode / 100 == 1 || p.statusCode == 204 || p.statusCode == 304
            || p.flags.skipBody then false
    else if p.flags.transferEncoding && !p.flags.chunked then true
    else if p.flags.chunked || p.contentLength != ABSENT then false
    else true
  }

  /** http_should_keep_alive. */
  predicate ShouldKeepAlive(p: Parser) {
    if p.major > 0 && p.minor > 0 then !p.flags.close && !NeedsEof(p)
    else p.flags.keepAlive && !NeedsEof(p)
  }

  /** NEW_MESSAGE followed by the message_complete callback. */
  function FinishMessage(p: Parser, ctl: Control): Out {
    var s := if !ShouldKeepAlive(p) then Dead
             else if p.kind.Request? then StartReq else StartRes;
    Out(p.(state := s), [Complete(ShouldKeepAlive(p))], ctl)
  }

  // ---------------------------------------------------------------- between messages

  function ResetMessage(p: Parser): Parser {
    p.(flags := NO_FLAGS, contentLength := ABSENT)
  }

  function FirstMethod(ch: byte): Method {
    if ch == 'A' as int then ACL else if ch == 'B' as int then BIND
    else if ch == 'C' as int then CONNECT else if ch == 'D' as int then DELETE
    else if ch == 'G' as int then GET else if ch == 'H' as int then HEAD
    else if ch == 'L' as int then LOCK else if ch == 'M' as int then MKCOL
    else if ch == 'N' as int then NOTIFY else if ch == 'O' as int then OPTIONS
    else if ch == 'P' as int then POST else if ch == 'R' as int then REPORT
    else if ch == 'S' as int then SUBSCRIBE else if ch == 'T' as int then TRACE
    else if ch == 'U' as int then UNLOCK
    else DELETE
  }

  predicate HasFirstMethod(ch: byte) {
    FirstMethod(ch) != DELETE || ch == 'D' as int
  }

  function SwitchIdle(p: Parser, ch: byte): Out
    requires p.state.Dead? || p.state.StartReqOrRes? || p.state.ResOrRespH?
             || p.state.StartRes? || p.state.StartReq?
  {
    match p.state
    case Dead =>
      if ch == CR || ch == LF then Go(p, Dead) else Error(p, ClosedConnection)
    case StartReqOrRes =>
      if ch == CR || ch == LF then Go(p, StartReqOrRes)
      else if ch == 'H' as int then Out(ResetMessage(p).(state := ResOrRespH), [Begin], Next)
      else Redo(ResetMessage(p).(kind := Request), StartReq)
    case ResOrRespH =>
      if ch == 'T' as int then Go(p.(kind := Response), ResLine(ResHT))
      else if ch != 'E' as int then Error(p, InvalidConstant)
      else Go(p.(kind := Request, httpMethod := HEAD, index := 2), ReqMethod)
    case StartRes =>
      if ch == CR || ch == LF then Go(p, StartRes)
      else if ch == 'H' as int then Out(ResetMessage(p).(state := ResLine(ResH)), [Begin], Next)
      else Error(ResetMessage(p), InvalidConstant)
    case StartReq =>
      if ch == CR || ch == LF then Go(p, StartReq)
      else if !IsAlpha(ch) then Error(ResetMessage(p), InvalidMethod)
      else
        var q := ResetMessage(p).(httpMethod := FirstMethod(ch), index := 1);
        if !HasFirstMethod(ch) then Error(q, InvalidMethod)
        else Out(q.(state := ReqMethod), [Begin], Next)
  }

  // ---------------------------------------------------------------- status line

  function Need(ok: bool, p: Parser, s: State, e: Errno): Out {
    if ok then Go(p, s) else Error(p, e)
  }

  function SwitchStatusLine(p: Parser, ch: byte): Out
    requires p.state.ResLine?
  {
    match p.state.res
    case ResH => Need(ch == 'T' as int, p, ResLine(ResHT), Strict)
    case ResHT => Need(ch == 'T' as int, p, ResLine(ResHTT), Strict)
    case ResHTT => Need(ch == 'P' as int, p, ResLine(ResHTTP), Strict)
    case ResHTTP => Need(ch == '/' as int, p, ResLine(ResMajor), Strict)
    case ResMajor =>
      if IsNum(ch) then Go(p.(major := ch - '0' as int), ResLine(ResDot)) else Error(p, InvalidVersion)
    case ResDot => Need(ch == '.' as int, p, ResLine(ResMinor), InvalidVersion)
    case ResMinor =>
      if IsNum(ch) then Go(p.(minor := ch - '0' as int), ResLine(ResEnd)) else Error(p, InvalidVersion)
    case ResEnd => Need(ch == SP, p, ResLine(ResFirstStatusCode), InvalidVersion)
    case ResFirstStatusCode =>
      if IsNum(ch) then Go(p.(statusCode := ch - '0' as int), ResLine(ResStatusCode))
      else Need(ch == SP, p, p.state, InvalidStatus)
    case ResStatusCode =>
      if !IsNum(ch) then
        if ch == SP then Go(p, ResLine(ResStatusStart))
        else if ch == CR || ch == LF then Redo(p, ResLine(ResStatusStart))
        else Error(p, InvalidStatus)
      else
        var q := p.(statusCode := 10 * p.statusCode + (ch - '0' as int));
        if q.statusCode > 999 then Error(q, InvalidStatus) else Go(q, p.state)
    case ResStatusStart =>
      var q := p.(index := 0);
      if ch == CR || ch == LF then Redo(q, ResLine(ResStatus))
      else Out(q.(state := ResLine(ResStatus)), [Data(Status, [ch])], Next)
    case ResStatus =>
      if ch == CR then Out(p.(state := ResLine(ResLineAlmostDone)), [Data(Status, [])], Next)
      else if ch == LF then Out(p.(state := HeaderFieldStart), [Data(Status, [])], Next)
      else Out(p, [Data(Status, [ch])], Next)
    case ResLineAlmostDone => Need(ch == LF, p, HeaderFieldStart, Strict)
  }

  // ---------------------------------------------------------------- request line

  /** The method table of s_req_method: where two methods share a prefix, the byte that
      decides between them. */
  function NextMethod(m: Method, index: nat, ch: byte): (r: (Method, bool))
    ensures r.1 ==> index < |MethodName(r.0)| && index < |MethodName(m)| && (IsUpper(ch) || ch == '-' as int)
  {
    match m
    case POST =>
      if index == 1 && ch == 'U' as int then (PUT, true)
      else if index == 1 && ch == 'A' as int then (PATCH, true)
      else if index == 1 && ch == 'R' as int then (PROPFIND, true)
      else (m, false)
    case PUT => if index == 2 && ch == 'R' as int then (PURGE, true) else (m, false)
    case CONNECT =>
      if index == 1 && ch == 'H' as int then (CHECKOUT, true)
      else if index == 2 && ch == 'P' as int then (COPY, true)
      else (m, false)
    case MKCOL =>
      if index == 1 && ch == 'O' as int then (MOVE, true)
      else if index == 1 && ch == 'E' as int then (MERGE, true)
      else if index == 1 && ch == '-' as int then (MSEARCH, true)
      else if index == 2 && ch == 'A' as int then (MKACTIVITY, true)
      else if index == 3 && ch == 'A' as int then (MKCALENDAR, true)
      else (m, false)
    case SUBSCRIBE =>
      if index == 1 && ch == 'E' as int then (SEARCH, true)
      else if index == 1 && ch == 'O' as int then (SOURCE, true)
      else (m, false)
    case REPORT => if index == 2 && ch == 'B' as int then (REBIND, true) else (m, false)
    case PROPFIND => if index == 4 && ch == 'P' as int then (PROPPATCH, true) else (m, false)
    case LOCK => if index == 1 && ch == 'I' as int then (LINK, true) else (m, false)
    case UNLOCK =>
      if index == 2 && ch == 'S' as int then (UNSUBSCRIBE, true)
      else if index == 2 && ch == 'B' as int then (UNBIND, true)
      else if index == 3 && ch == 'I' as int then (UNLINK, true)
      else (m, false)
    case _ => (m, false)
  }

  function SwitchMethod(p: Parser, ch: byte): Out {
    var name := MethodName(p.httpMethod);
    var q := p.(index := p.index + 1);
    if ch == NUL then Error(p, InvalidMethod)
    else if ch == SP && p.index == |name| then Go(q, ReqUrl(SpacesBeforeUrl))
    else if p.index < |name| && ch == name[p.index] as int then Go(q, ReqMethod)
    else if IsUpper(ch) || ch == '-' as int then
      var (m, found) := NextMethod(p.httpMethod, p.index, ch);
      if found then Go(q.(httpMethod := m), ReqMethod) else Error(p, InvalidMethod)
    else Error(p, InvalidMethod)
  }

  /** A byte of the request target, once MARK(url) is set. */
  function UrlByte(p: Parser, s: UrlState, ch: byte): Out {
    var t := ParseUrlChar(s, ch);
    if t.UrlDead? then Error(p.(state := Dead), InvalidUrl)
    else Out(p.(state := ReqUrl(t)), [Data(Url, [ch])], Next)
  }

  function SwitchUrl(p: Parser, ch: byte): Out
    requires p.state.ReqUrl?
  {
    var u := p.state.url;
    if u.SpacesBeforeUrl? then
      if ch == SP then Go(p, p.state)
      else UrlByte(p, if p.httpMethod.CONNECT? then ServerStart else SpacesBeforeUrl, ch)
    else if u.Schema? || u.SchemaSlash? || u.SchemaSlashSlash? || u.ServerStart? then
      if ch == SP || ch == CR || ch == LF then Error(p, InvalidUrl) else UrlByte(p, u, ch)
    else
      if ch == SP then Out(p.(state := ReqVersion(HttpStart)), [Data(Url, [])], Next)
      else if ch == CR then
        Out(p.(major := 0, minor := 9, state := ReqVersion(ReqLineAlmostDone)), [Data(Url, [])], Next)
      else if ch == LF then
        Out(p.(major := 0, minor := 9, state := HeaderFieldStart), [Data(Url, [])], Next)
      else UrlByte(p, u, ch)
  }

  function SwitchReqVersion(p: Parser, ch: byte): Out
    requires p.state.ReqVersion?
  {
    match p.state.version
    case HttpStart =>
      if ch == SP then Go(p, p.state)
      else if ch == 'H' as int then Go(p, ReqVersion(HttpH))
      else Need(ch == 'I' as int && p.httpMethod.SOURCE?, p, ReqVersion(HttpI), InvalidConstant)
    case HttpH => Need(ch == 'T' as int, p, ReqVersion(HttpHT), Strict)
    case HttpHT => Need(ch == 'T' as int, p, ReqVersion(HttpHTT), Strict)
    case HttpHTT => Need(ch == 'P' as int, p, ReqVersion(HttpHTTP), Strict)
    case HttpI => Need(ch == 'C' as int, p, ReqVersion(HttpIC), Strict)
    case HttpIC => Need(ch == 'E' as int, p, ReqVersion(HttpHTTP), Strict)
    case HttpHTTP => Need(ch == '/' as int, p, ReqVersion(HttpMajor), Strict)
    case HttpMajor =>
      if IsNum(ch) then Go(p.(major := ch - '0' as int), ReqVersion(HttpDot)) else Error(p, InvalidVersion)
    case HttpDot => Need(ch == '.' as int, p, ReqVersion(HttpMinor), InvalidVersion)
    case HttpMinor =>
      if IsNum(ch) then Go(p.(minor := ch - '0' as int), ReqVersion(HttpEnd)) else Error(p, InvalidVersion)
    case HttpEnd =>
      if ch == CR then Go(p, ReqVersion(ReqLineAlmostDone))
      else Need(ch == LF, p, HeaderFieldStart, InvalidVersion)
    case ReqLineAlmostDone => Need(ch == LF, p, HeaderFieldStart, LfExpected)
  }

  // ---------------------------------------------------------------- header names

  /** The `h_matching_*` step: `i` is the index after its increment. */
  function Match(word: bytes, i: nat, c: byte, miss: HState, stay: HState, hit: HState): (h: HState)
    ensures h == miss || h == hit || (h == stay && i + 1 < |word|)
  {
    if i >= |word| || c != word[i] then miss
    else if i == |word| - 1 then hit
    else stay
  }

  /** The first byte of a field name. */
  function FirstNameState(c: byte): HState {
    if c == 'c' as int then HC
    else if c == 'p' as int then MatchingProxyConnection
    else if c == 't' as int then MatchingTransferEncoding
    else if c == 'u' as int then MatchingUpgrade
    else General
  }

  /** The states in which a name byte advances `index`. */
  predicate CountsIndex(h: HState) {
    || h.HC? || h.HCO? || h.HCON? || h.MatchingConnection? || h.MatchingProxyConnection?
    || h.MatchingContentLength? || h.MatchingTransferEncoding? || h.MatchingUpgrade?
  }

  /** A further byte of a field name, lower-cased by the token table. */
  function NameByte(h: HState, i: nat, c: byte): (r: HState)
    ensures CountsIndex(r) ==> CountsIndex(h)
  {
    match h
    case HC => if c == 'o' as int then HCO else General
    case HCO => if c == 'n' as int then HCON else General
    case HCON =>
      if c == 'n' as int then MatchingConnection
      else if c == 't' as int then MatchingContentLength
      else General
    case MatchingConnection => Match(CONNECTION, i + 1, c, General, h, HConnection)
    case MatchingProxyConnection => Match(PROXY_CONNECTION, i + 1, c, General, h, HConnection)
    case MatchingContentLength => Match(CONTENT_LENGTH, i + 1, c, General, h, HContentLength)
    case MatchingTransferEncoding => Match(TRANSFER_ENCODING, i + 1, c, General, h, HTransferEncoding)
    case MatchingUpgrade => Match(UPGRADE, i + 1, c, General, h, HUpgrade)
    case _ => General
  }

  function NextName(p: Parser, ch: byte): Parser {
    var h := NameByte(p.hstate, p.index, Lower(ch));
    p.(hstate := h,
       index := if CountsIndex(p.hstate) then p.index + 1 else p.index,
       flags := if h.HTransferEncoding? then p.flags.(transferEncoding := true) else p.flags)
  }

  function SwitchName(p: Parser, ch: byte): Out
    requires p.state.HeaderFieldStart? || p.state.HeaderField?
  {
    if p.state.HeaderFieldStart? then
      if ch == CR then Go(p, HeadersAlmostDone)
      else if ch == LF then Redo(p, HeadersAlmostDone)
      else if !IsToken(ch) then Error(p, InvalidHeaderToken)
      else Out(p.(index := 0, state := HeaderField, hstate := FirstNameState(Lower(ch))),
               [Data(Field, [ch])], Next)
    else
      if IsToken(ch) then Out(NextName(p, ch), [Data(Field, [ch])], Next)
      else if ch == ':' as int then
        Out(p.(state := Discard(Ws)), [Data(Field, [])], Next)
      else Error(p, InvalidHeaderToken)
  }

  // ---------------------------------------------------------------- header values

  /** The state that the first letter of a Connection token selects. */
  function ConnFirst(c: byte, other: HState): (h: HState)
    ensures h == other || h == Conn(ConnMatchingKeepAlive) || h == Conn(ConnMatchingClose)
            || h == Conn(ConnMatchingUpgrade)
  {
    if c == 'k' as int then Conn(ConnMatchingKeepAlive)
    else if c == 'c' as int then Conn(ConnMatchingClose)
    else if c == 'u' as int then Conn(ConnMatchingUpgrade)
    else other
  }

  /** s_header_value_start: the first byte of a value, or of a folded line of it. */
  function ValueStart(p: Parser, ch: byte): Out {
    var c := SetBit5(ch);
    var q := p.(state := HeaderValue, index := 0);
    var ev := [Data(Value, [ch])];
    if q.hstate.HUpgrade? then
      Out(q.(flags := q.flags.(upgrade := true), hstate := General), ev, Next)
    else if q.hstate.HTransferEncoding? then
      Out(q.(hstate := Te(if c == 'c' as int then TeMatchingChunked else TeToken)), ev, Next)
    else if q.hstate.HContentLength? then
      if !IsNum(ch) then Error(q, InvalidContentLength)
      else if q.flags.contentLength then Error(q, UnexpectedContentLength)
      else Out(q.(flags := q.flags.(contentLength := true), contentLength := ch - '0' as int,
                  hstate := LengthNum), ev, Next)
    else if q.hstate.HConnection? then
      Out(q.(hstate := ConnFirst(c, Conn(ConnToken))), ev, Next)
    else if q.hstate.LengthWs? || q.hstate == Te(TeTokenStart) || q.hstate == Conn(ConnTokenStart) then
      Out(q, ev, Next)
    else Out(q.(hstate := General), ev, Next)
  }

  /** The flag that a finished Connection or Transfer-Encoding token raises. */
  function RaiseToken(f: Flags, h: HState): (g: Flags)
    ensures g == f.(keepAlive := g.keepAlive, close := g.close, connectionUpgrade := g.connectionUpgrade,
                    chunked := g.chunked)
    ensures !h.Te? ==> g.chunked == f.chunked
  {
    if h == Conn(ConnKeepAlive) then f.(keepAlive := true)
    else if h == Conn(ConnClose) then f.(close := true)
    else if h == Conn(ConnUpgrade) then f.(connectionUpgrade := true)
    else if h == Te(TeChunked) then f.(chunked := true)
    else f
  }

  /** One digit of a Content-Length value, with the overflow test of the source. */
  function LengthDigit(p: Parser, ch: byte): Out {
    if ch == SP then Out(p.(hstate := LengthWs), [], Next)
    else if !IsNum(ch) then Error(p.(hstate := LengthNum), InvalidContentLength)
    else if (ABSENT - 10) / 10 < p.contentLength then
      Error(p.(hstate := LengthNum), InvalidContentLength)
    else Out(p.(hstate := LengthNum, contentLength := 10 * p.contentLength + (ch - '0' as int)), [], Next)
  }

  /** An `h_matching_*` step of a value; it advances `index`. */
  function MatchValue(p: Parser, word: bytes, c: byte, miss: HState, hit: HState): Parser {
    p.(index := p.index + 1, hstate := Match(word, p.index + 1, c, miss, p.hstate, hit))
  }

  function TeByte(p: Parser, ch: byte): Parser
    requires p.hstate.Te?
  {
    var c := SetBit5(ch);
    match p.hstate.te
    case TeTokenStart =>
      p.(hstate := if c == 'c' as int then Te(TeMatchingChunked)
                   else if IsToken(c) then Te(TeToken)
                   else if c == SP || c == HT then p.hstate
                   else General)
    case TeMatchingChunked => MatchValue(p, CHUNKED, c, Te(TeToken), Te(TeChunked))
    case TeToken => if ch == ',' as int then p.(hstate := Te(TeTokenStart), index := 0) else p
    case TeChunked => if ch != SP then p.(hstate := Te(TeToken)) else p
  }

  function ConnByte(p: Parser, ch: byte): Parser
    requires p.hstate.Conn?
  {
    var c := SetBit5(ch);
    match p.hstate.token
    case ConnTokenStart =>
      p.(hstate := ConnFirst(c, if IsToken(c) then Conn(ConnToken)
                                else if c == SP || c == HT then p.hstate
                                else General))
    case ConnMatchingKeepAlive => MatchValue(p, KEEP_ALIVE, c, Conn(ConnToken), Conn(ConnKeepAlive))
    case ConnMatchingClose => MatchValue(p, CLOSE, c, Conn(ConnToken), Conn(ConnClose))
    case ConnMatchingUpgrade => MatchValue(p, UPGRADE, c, Conn(ConnToken), Conn(ConnUpgrade))
    case ConnToken => if ch == ',' as int then p.(hstate := Conn(ConnTokenStart), index := 0) else p
    case _ =>
      if ch == ',' as int then
        p.(flags := RaiseToken(p.flags, p.hstate), hstate := Conn(ConnTokenStart), index := 0)
      else if ch != SP then p.(hstate := Conn(ConnToken))
      else p
  }

  /** A byte of a value other than CR and LF: the inner switch of s_header_value. */
  function ValueByte(p: Parser, ch: byte): Out {
    if p.hstate.Te? then Out(TeByte(p, ch), [], Next)
    else if p.hstate.Conn? then Out(ConnByte(p, ch), [], Next)
    else if p.hstate.LengthNum? then LengthDigit(p, ch)
    else if p.hstate.LengthWs? then
      if ch == SP then Out(p, [], Next) else Error(p, InvalidContentLength)
    else if p.hstate.HContentLength? then
      if ch == SP then Out(p, [], Next) else LengthDigit(p, ch)
    else Out(p.(hstate := General), [], Next)
  }

  predicate IsValueState(s: State) {
    s.Discard? || s.HeaderValueStart? || s.HeaderValue? || s.HeaderValueLws? || s.HeaderAlmostDone?
  }

  function SwitchDiscard(p: Parser, ch: byte): Out
    requires p.state.Discard?
  {
    match p.state.ws
    case Ws =>
      if IsBlank(ch) then Go(p, p.state)
      else if ch == CR then Go(p, Discard(WsAlmostDone))
      else if ch == LF then Go(p, Discard(Lws))
      else ValueStart(p, ch)
    case WsAlmostDone => Need(ch == LF, p, Discard(Lws), Strict)
    case Lws =>
      if IsBlank(ch) then Go(p, Discard(Ws))
      else if p.hstate.HContentLength? then Error(p, InvalidContentLength)
      else Out(p.(flags := RaiseToken(p.flags, p.hstate), state := HeaderFieldStart),
               [Data(Value, [])], Again)
  }

  function SwitchValue(p: Parser, ch: byte): Out
    requires IsValueState(p.state)
  {
    match p.state
    case HeaderValueStart => ValueStart(p, ch)
    case HeaderValue =>
      if ch == CR then Out(p.(state := HeaderAlmostDone), [Data(Value, [])], Next)
      else if ch == LF then Out(p.(state := HeaderAlmostDone), [Data(Value, [])], Again)
      else if !IsHeaderChar(ch) then Error(p, InvalidHeaderToken)
      else
        var o := ValueByte(p, ch);
        if o.ctl.Fail? then o else o.(ev := [Data(Value, [ch])])
    case HeaderAlmostDone => Need(ch == LF, p, HeaderValueLws, LfExpected)
    case HeaderValueLws =>
      if IsBlank(ch) then
        Redo(p.(hstate := if p.hstate.LengthNum? then LengthWs else p.hstate), HeaderValueStart)
      else Redo(p.(flags := RaiseToken(p.flags, p.hstate)), HeaderFieldStart)
    case Discard(_) => SwitchDiscard(p, ch)
  }

  // ---------------------------------------------------------------- end of headers

  /** The `upgrade` field as set before on_headers_complete, then as the reply leaves it. */
  function AfterHeaders(cfg: Config, p: Parser): Parser {
    var up := if p.flags.upgrade && p.flags.connectionUpgrade
              then p.kind.Request? || p.statusCode == 101
              else p.httpMethod.CONNECT?;
    var q := p.(state := HeadersDone, upgrade := up);
    var r := cfg.reply(q);
    if r.Proceed? then q
    else q.(flags := q.flags.(skipBody := true), upgrade := q.upgrade || r.NoBodyThenUpgrade?)
  }

  predicate SkipsBody(p: Parser) {
    p.flags.skipBody || (p.upgrade && p.httpMethod.CONNECT?)
  }

  function SwitchHeadersEnd(cfg: Config, p: Parser, ch: byte): Out
    requires p.state.HeadersAlmostDone? || p.state.HeadersDone?
  {
    if ch != LF then Error(p, Strict)
    else if p.state.HeadersAlmostDone? then
      if p.flags.trailing then Out(p.(state := MessageDone), [ChunkComplete], Again)
      else if p.flags.transferEncoding && p.flags.contentLength then Error(p, UnexpectedContentLength)
      else
        var q := AfterHeaders(cfg, p);
        Out(q, [HeadersComplete(q.contentLength, q.flags.chunked, SkipsBody(q))], Again)
    else
      var q := p.(nread := 0);
      var hasBody := q.flags.chunked || (q.contentLength > 0 && q.contentLength != ABSENT);
      if q.upgrade && (q.httpMethod.CONNECT? || q.flags.skipBody || !hasBody) then FinishMessage(q, Stop)
      else if q.flags.skipBody then FinishMessage(q, Next)
      else if q.flags.chunked then Go(q, ChunkLine(SizeStart))
      else if q.flags.transferEncoding then
        if q.kind.Request? then Error(q, InvalidTransferEncoding) else Go(q, BodyIdentityEof)
      else if q.contentLength == 0 then FinishMessage(q, Next)
      else if q.contentLength != ABSENT then Go(q, BodyIdentity)
      else if !NeedsEof(q) then FinishMessage(q, Next)
      else Go(q, BodyIdentityEof)
  }

  // ---------------------------------------------------------------- bodies

  predicate IsBodyState(s: State) {
    || s.BodyIdentity? || s.BodyIdentityEof? || s.MessageDone?
    || s.ChunkData? || s.ChunkDataAlmostDone? || s.ChunkDataDone?
  }

  function SwitchChunkLine(p: Parser, ch: byte): Out
    requires p.state.ChunkLine?
  {
    match p.state.line
    case SizeStart =>
      if Unhex(ch) == -1 then Error(p, InvalidChunkSize)
      else Go(p.(contentLength := Unhex(ch)), ChunkLine(Size))
    case Size =>
      if ch == CR then Go(p, ChunkLine(SizeAlmostDone))
      else if Unhex(ch) == -1 then
        Need(ch == ';' as int || ch == SP, p, ChunkLine(Parameters), InvalidChunkSize)
      else if (ABSENT - 16) / 16 < p.contentLength then Error(p, InvalidContentLength)
      else Go(p.(contentLength := 16 * p.contentLength + Unhex(ch)), p.state)
    case Parameters => Go(p, ChunkLine(if ch == CR then SizeAlmostDone else Parameters))
    case SizeAlmostDone =>
      if ch != LF then Error(p, Strict)
      else
        var q := p.(nread := 0);
        var r := if q.contentLength == 0
                 then q.(flags := q.flags.(trailing := true), state := HeaderFieldStart)
                 else q.(state := ChunkData);
        Out(r, [ChunkHeader(q.contentLength)], Next)
  }

  /** `content_length - 1`; the source asserts that it is not zero here. */
  function Pred(n: nat): nat { if n == 0 then 0 else n - 1 }

  function SwitchBody(p: Parser, ch: byte): Out
    requires IsBodyState(p.state)
  {
    match p.state
    case BodyIdentity =>
      var q := p.(contentLength := Pred(p.contentLength));
      if q.contentLength == 0 then Out(q.(state := MessageDone), [Data(Body, [ch])], Again)
      else Out(q, [Data(Body, [ch])], Next)
    case BodyIdentityEof => Out(p, [Data(Body, [ch])], Next)
    case MessageDone => FinishMessage(p, if p.upgrade then Stop else Next)
    case ChunkData =>
      var q := p.(contentLength := Pred(p.contentLength));
      Out(if q.contentLength == 0 then q.(state := ChunkDataAlmostDone) else q, [Data(Body, [ch])], Next)
    case ChunkDataAlmostDone => Need(ch == CR, p, ChunkDataDone, Strict)
    case ChunkDataDone =>
      if ch != LF then Error(p, Strict)
      else Out(p.(nread := 0, state := ChunkLine(SizeStart)), [ChunkComplete], Next)
  }

  // ---------------------------------------------------------------- one byte

  /** One pass through the switch. */
  function Switch(cfg: Config, p: Parser, ch: byte): Out {
    if p.state.HeaderFieldStart? || p.state.HeaderField? then SwitchName(p, ch)
    else if IsValueState(p.state) then SwitchValue(p, ch)
    else if IsBodyState(p.state) then SwitchBody(p, ch)
    else if p.state.ChunkLine? then SwitchChunkLine(p, ch)
    else if p.state.HeadersAlmostDone? || p.state.HeadersDone? then SwitchHeadersEnd(cfg, p, ch)
    else if p.state.ReqUrl? then SwitchUrl(p, ch)
    else if p.state.ReqMethod? then SwitchMethod(p, ch)
    else if p.state.ReqVersion? then SwitchReqVersion(p, ch)
    else if p.state.ResLine? then SwitchStatusLine(p, ch)
    else SwitchIdle(p, ch)
  }

  /** Every REEXECUTE goes to a state of smaller rank. */
  function Rank(s: State): nat {
    match s
    case HeaderValueLws => 4
    case Discard(_) => 4
    case HeaderFieldStart => 3
    case HeadersAlmostDone => 2
    case HeaderValue => 1
    case ResLine(r) => if r.ResStatusCode? then 2 else if r.ResStatusStart? then 1 else 0
    case StartReqOrRes => 1
    case BodyIdentity => 1
    case _ => 0
  }

  lemma AgainLowersRank(cfg: Config, p: Parser, ch: byte)
    ensures Switch(cfg, p, ch).ctl.Again? ==> Rank(Switch(cfg, p, ch).p.state) < Rank(p.state)
  {
    hide SwitchName, SwitchValue, SwitchBody, SwitchChunkLine, SwitchHeadersEnd, SwitchUrl, SwitchMethod,
         SwitchReqVersion, SwitchStatusLine, SwitchIdle;
    if IsValueState(p.state) {
      ValueAgain(p, ch);
    } else if IsBodyState(p.state) || p.state.ChunkLine? {
      BodyAgain(p, ch);
    } else if p.state.HeadersAlmostDone? || p.state.HeadersDone? {
      HeadersEndAgain(cfg, p, ch);
    } else if p.state.HeaderFieldStart? || p.state.HeaderField? {
      NameAgain(p, ch);
    } else {
      StartLineAgain(p, ch);
    }
  }

  lemma NameAgain(p: Parser, ch: byte)
    requires p.state.HeaderFieldStart? || p.state.HeaderField?
    ensures SwitchName(p, ch).ctl.Again? ==> Rank(SwitchName(p, ch).p.state) < Rank(p.state)
  {
    hide NextName;
  }

  lemma ValueAgain(p: Parser, ch: byte)
    requires IsValueState(p.state)
    ensures SwitchValue(p, ch).ctl.Again? ==> Rank(SwitchValue(p, ch).p.state) < Rank(p.state)
  {
    hide TeByte, ConnByte, RaiseToken;
  }

  lemma BodyAgain(p: Parser, ch: byte)
    requires IsBodyState(p.state) || p.state.ChunkLine?
    ensures IsBodyState(p.state) && SwitchBody(p, ch).ctl.Again? ==> Rank(SwitchBody(p, ch).p.state) < Rank(p.state)
    ensures p.state.ChunkLine? ==> !SwitchChunkLine(p, ch).ctl.Again?
  {
    hide ShouldKeepAlive;
  }

  lemma HeadersEndAgain(cfg: Config, p: Parser, ch: byte)
    requires p.state.HeadersAlmostDone? || p.state.HeadersDone?
    ensures SwitchHeadersEnd(cfg, p, ch).ctl.Again?
            ==> Rank(SwitchHeadersEnd(cfg, p, ch).p.state) < Rank(p.state)
  {
    hide ShouldKeepAlive, NeedsEof;
  }

  lemma StartLineAgain(p: Parser, ch: byte)
    ensures p.state.ReqUrl? ==> !SwitchUrl(p, ch).ctl.Again?
    ensures p.state.ReqMethod? ==> !SwitchMethod(p, ch).ctl.Again?
    ensures p.state.ReqVersion? ==> !SwitchReqVersion(p, ch).ctl.Again?
    ensures p.state.ResLine? && SwitchStatusLine(p, ch).ctl.Again?
            ==> Rank(SwitchStatusLine(p, ch).p.state) < Rank(p.state)
    ensures p.state.Dead? || p.state.StartReqOrRes? || p.state.ResOrRespH? || p.state.StartRes? || p.state.StartReq?
            ==> SwitchIdle(p, ch).ctl.Again? ==> Rank(SwitchIdle(p, ch).p.state) < Rank(p.state)
  {
    hide ParseUrlChar, FirstMethod, NextMethod, MethodName;
  }

  /** `goto reexecute` until the byte is consumed. */
  function Chain(cfg: Config, p: Parser, ch: byte): Out
    decreases Rank(p.state)
  {
    var o := Switch(cfg, p, ch);
    if !o.ctl.Again? then o
    else
      AgainLowersRank(cfg, p, ch);
      var r := Chain(cfg, o.p, ch);
      r.(ev := o.ev + r.ev)
  }

  /** A byte: COUNT_HEADER_SIZE(1) where the state calls for it, then the chain. */
  function Step(cfg: Config, p: Parser, ch: byte): Out {
    if ParsingHeader(p.state) then
      var q := p.(nread := p.nread + 1);
      if q.nread > cfg.maxHeaderSize then Error(q, HeaderOverflow) else Chain(cfg, q, ch)
    else Chain(cfg, p, ch)
  }

  /** The run over the first n bytes of a buffer, one byte at a time; it halts at the first
      byte that ends in an error or an early return. `used` counts the bytes consumed. */
  datatype Trail = Trail(p: Parser, ev: seq<Event>, ctl: Control, used: nat)

  function Run(cfg: Config, p: Parser, data: bytes, n: nat): (t: Trail)
    requires n <= |data|
    decreases n
  {
    if n == 0 then Trail(p, [], Next, 0)
    else
      var t := Run(cfg, p, data, n - 1);
      if !t.ctl.Next? then t
      else
        var o := Step(cfg, t.p, data[n - 1]);
        Trail(o.p, t.ev + o.ev, o.ctl, if o.ctl.Fail? then t.used else t.used + 1)
  }
}
