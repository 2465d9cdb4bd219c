/** The parser record, its enumerations, and what one pass through the switch of
    `http_parser_execute` produces. */
module HttpTypes {
  import opened Ascii

  /** ULLONG_MAX: "no Content-Length seen". */
  const ABSENT: nat := 0xFFFF_FFFF_FFFF_FFFF

  datatype Kind = Request | Response | Both

  /** The states of the source, grouped by the part of the message they read. */
  datatype State =
    | Dead
    | StartReqOrRes | ResOrRespH | StartRes | StartReq
    | ResLine(res: ResState)
    | ReqMethod
    | ReqUrl(url: UrlState)
    | ReqVersion(version: VersionState)
    | HeaderFieldStart | HeaderField
    | Discard(ws: DiscardState)
    | HeaderValueStart | HeaderValue | HeaderAlmostDone | HeaderValueLws
    | ChunkLine(line: ChunkLineState)
    | HeadersAlmostDone | HeadersDone
    | ChunkData | ChunkDataAlmostDone | ChunkDataDone
    | BodyIdentity | BodyIdentityEof
    | MessageDone

  /** s_res_H to s_res_line_almost_done. */
  datatype ResState =
    | ResH | ResHT | ResHTT | ResHTTP
    | ResMajor | ResDot | ResMinor | ResEnd
    | ResFirstStatusCode | ResStatusCode | ResStatusStart | ResStatus | ResLineAlmostDone

  /** s_req_spaces_before_url to s_req_fragment, and the failure of the automaton. */
  datatype UrlState =
    | UrlDead
    | SpacesBeforeUrl
    | Schema | SchemaSlash | SchemaSlashSlash
    | ServerStart | Server | ServerWithAt
    | Path | QueryStart | Query | FragmentStart | Fragment

  /** s_req_http_start to s_req_line_almost_done. */
  datatype VersionState =
    | HttpStart | HttpH | HttpHT | HttpHTT | HttpHTTP | HttpI | HttpIC
    | HttpMajor | HttpDot | HttpMinor | HttpEnd | ReqLineAlmostDone

  /** s_header_value_discard_ws, ..._ws_almost_done and ..._lws. */
  datatype DiscardState = Ws | WsAlmostDone | Lws

  /** s_chunk_size_start to s_chunk_size_almost_done. */
  datatype ChunkLineState = SizeStart | Size | Parameters | SizeAlmostDone

  /** PARSING_HEADER: the states whose bytes count against the header budget. */
  predicate ParsingHeader(s: State) {
    !(s.ChunkData? || s.ChunkDataAlmostDone? || s.ChunkDataDone?
      || s.BodyIdentity? || s.BodyIdentityEof? || s.MessageDone?)
  }

  datatype HState =
    | General | HC | HCO | HCON
    | MatchingConnection | MatchingProxyConnection | MatchingContentLength
    | MatchingTransferEncoding | MatchingUpgrade
    | HConnection | HContentLength | HTransferEncoding | HUpgrade
    | LengthNum | LengthWs
    | Te(te: TeState)
    | Conn(token: ConnState)

  /** States inside a Transfer-Encoding value. */
  datatype TeState = TeTokenStart | TeMatchingChunked | TeToken | TeChunked

  /** States inside a Connection value. */
  datatype ConnState =
    | ConnTokenStart | ConnMatchingKeepAlive | ConnMatchingClose | ConnMatchingUpgrade | ConnToken
    | ConnKeepAlive | ConnClose | ConnUpgrade

  datatype Method =
    | DELETE | GET | HEAD | POST | PUT | CONNECT | OPTIONS | TRACE | COPY | LOCK | MKCOL | MOVE
    | PROPFIND | PROPPATCH | SEARCH | UNLOCK | BIND | REBIND | UNBIND | ACL | REPORT | MKACTIVITY
    | CHECKOUT | MERGE | MSEARCH | NOTIFY | SUBSCRIBE | UNSUBSCRIBE | PATCH | PURGE | MKCALENDAR
    | LINK | UNLINK | SOURCE

  datatype Errno =
    | OK
    | InvalidEofState | HeaderOverflow | ClosedConnection
    | InvalidVersion | InvalidStatus | InvalidMethod | InvalidUrl
    | LfExpected | InvalidHeaderToken | InvalidContentLength | UnexpectedContentLength
    | InvalidChunkSize | InvalidConstant | InvalidInternalState | Strict
    | InvalidTransferEncoding

  /** The bits of `flags`, and F_TRANSFER_ENCODING which the source keeps in `extra_flags`. */
  datatype Flags = Flags(
    chunked: bool, keepAlive: bool, close: bool, connectionUpgrade: bool, trailing: bool,
    upgrade: bool, skipBody: bool, contentLength: bool, transferEncoding: bool)

  const NO_FLAGS := Flags(false, false, false, false, false, false, false, false, false)

  datatype Parser = Parser(
    kind: Kind,
    flags: Flags,
    state: State,
    hstate: HState,
    index: nat,
    nread: nat,
    contentLength: nat,
    major: nat,
    minor: nat,
    statusCode: nat,
    httpMethod: Method,
    errno: Errno,
    upgrade: bool)

  /** The reply of on_headers_complete: 0, 1 or 2. */
  datatype Reply = Proceed | NoBody | NoBodyThenUpgrade

  /** The process-wide header limit and the application's on_headers_complete callback. */
  datatype Config = Config(maxHeaderSize: nat, reply: Parser -> Reply)

  datatype Piece = Url | Status | Field | Value | Body

  /** The callbacks, with what the application can read from the parser while it runs one. */
  datatype Event =
    | Begin
    | Data(piece: Piece, text: bytes)
    | HeadersComplete(declared: nat, chunked: bool, skipped: bool)
    | ChunkHeader(size: nat)
    | ChunkComplete
    | Complete(keepAlive: bool)

  /** How a pass through the switch ends: `break`, REEXECUTE, an early RETURN, or an error. */
  datatype Control = Next | Again | Stop | Fail

  datatype Out = Out(p: Parser, ev: seq<Event>, ctl: Control)

  function Go(p: Parser, s: State): Out { Out(p.(state := s), [], Next) }

  function Redo(p: Parser, s: State): Out { Out(p.(state := s), [], Again) }

  function Error(p: Parser, e: Errno): Out { Out(p.(errno := e), [], Fail) }

  /** http_parser_init. */
  function Init(k: Kind): Parser {
    Parser(k, NO_FLAGS,
           match k case Request => StartReq case Response => StartRes case Both => StartReqOrRes,
           General, 0, 0, 0, 0, 0, 0, DELETE, OK, false)
  }
}
