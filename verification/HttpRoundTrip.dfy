/** The text of a message, written out from its parts, is read back as these parts: nothing is lost, added
    or put elsewhere. */
module HttpRoundTrip {
  import opened Ascii
  import opened HttpTypes
  import opened HttpMachine
  import opened HttpTrace
  import opened HttpFields
  import opened HttpTheorems
  import opened HttpTokens
  import opened HttpTakes
  import opened HttpStartLines
  import opened HttpStatusLines
  import opened HttpHeaderRuns
  import opened HttpMessages
  import opened HttpFraming
  import opened HttpChunks
  import opened HttpContents
  import UrlScan

  // ---------------------------------------------------------------- pieces joined

  function LinePieces(l: Line): seq<Event> { [Data(Field, l.name), Data(Value, l.value)] }

  function LinesPieces(ls: seq<Line>): seq<Event> {
    if ls == [] then [] else LinesPieces(ls[..|ls| - 1]) + LinePieces(ls[|ls| - 1])
  }

  function ChunkPieces(c: Chunk): seq<Event> { [ChunkHeader(|c.data|), Data(Body, c.data), ChunkComplete] }

  function ChunksPieces(cs: seq<Chunk>): seq<Event> {
    if cs == [] then [] else ChunksPieces(cs[..|cs| - 1]) + ChunkPieces(cs[|cs| - 1])
  }

  function ContentPieces(c: Content): seq<Event> {
    match c
    case Whole(body) => if body == [] then [] else [Data(Body, body)]
    case InChunks(cs, _, _, trailer) => ChunksPieces(cs) + [ChunkHeader(0)] + (LinesPieces(trailer) + [ChunkComplete])
  }

  /** What a message tells behind its start line, to an application that joins pieces. */
  function MessagePieces(ls: seq<Line>, skipped: bool, c: Content, keep: bool): seq<Event>
    requires GoodLines(ls)
  {
    LinesPieces(ls) + [HeadersComplete(LinesLength(ls, ABSENT), LinesFlags(ls, NO_FLAGS).chunked, skipped)]
    + ContentPieces(c) + [Complete(keep)]
  }

  predicate EndsOther(t: seq<Event>, k: Piece) { t == [] || !t[|t| - 1].Data? || t[|t| - 1].piece != k }

  lemma NoSingles(k: Piece)
    ensures Singles(k, [], 0, 0) == []
  {
  }

  /** A piece that grows by joining. */
  lemma PushGrows(t: seq<Event>, k: Piece, x: bytes, y: bytes)
    ensures Push(t + [Data(k, x)], Data(k, y)) == t + [Data(k, x + y)]
  {
    assert (t + [Data(k, x)])[..|t|] == t;
  }

  lemma {:induction false} SinglesJoin(t: seq<Event>, k: Piece, x: bytes, n: nat)
    requires 0 < n <= |x| && EndsOther(t, k)
    ensures PushAll(t, Singles(k, x, 0, n)) == t + [Data(k, x[..n])]
  {
    hide PushAll;
    var init, e := Singles(k, x, 0, n - 1), Data(k, [x[n - 1]]);
    PushAllLast(t, init, e);
    if n == 1 {
      assert init == [] && init + [e] == [e] && x[..1] == [x[0]];
      PushAllNone(t);
    } else {
      SinglesJoin(t, k, x, n - 1);
      PushGrows(t, k, x[..n - 1], [x[n - 1]]);
      assert x[..n] == x[..n - 1] + [x[n - 1]];
    }
  }

  lemma PushAllNone(t: seq<Event>)
    ensures PushAll(t, []) == t
  {
  }

  lemma RunJoins(t: seq<Event>, k: Piece, x: bytes)
    requires EndsOther(t, k)
    ensures PushAll(t, Singles(k, x, 0, |x|) + [Data(k, [])]) == t + [Data(k, x)]
  {
    hide PushAll, Singles;
    PushAllLast(t, Singles(k, x, 0, |x|), Data(k, []));
    if x == [] {
      NoSingles(k);
      PushAllNone(t);
    } else {
      SinglesJoin(t, k, x, |x|);
      PushGrows(t, k, x, []);
      assert x[..|x|] == x && x + [] == x;
    }
  }

  lemma LineJoins(t: seq<Event>, l: Line)
    requires EndsOther(t, Field)
    ensures PushAll(t, LineEvents(l)) == t + LinePieces(l)
  {
    hide Singles, PushAll;
    var a := Singles(Field, l.name, 0, |l.name|) + [Data(Field, [])];
    var b := Singles(Value, l.value, 0, |l.value|) + [Data(Value, [])];
    Regroup(a, Singles(Value, l.value, 0, |l.value|), [Data(Value, [])]);
    RunJoins(t, Field, l.name);
    RunJoins(t + [Data(Field, l.name)], Value, l.value);
    PushAllConcat(t, a, b);
  }

  lemma {:induction false} LinesJoin(t: seq<Event>, ls: seq<Line>)
    requires EndsOther(t, Field) && EndsOther(t, Body)
    ensures PushAll(t, LinesEvents(ls)) == t + LinesPieces(ls)
    ensures EndsOther(t + LinesPieces(ls), Field) && EndsOther(t + LinesPieces(ls), Body)
  {
    hide LineEvents, Push;
    if ls == [] {
      assert t + [] == t;
    } else {
      var init, l := ls[..|ls| - 1], ls[|ls| - 1];
      LinesJoin(t, init);
      PushAllConcat(t, LinesEvents(init), LineEvents(l));
      LineJoins(t + LinesPieces(init), l);
      Regroup(t, LinesPieces(init), LinePieces(l));
    }
  }

  lemma ChunkJoins(t: seq<Event>, c: Chunk)
    requires c.data != []
    ensures PushAll(t, ChunkEvents(c)) == t + ChunkPieces(c)
  {
    hide Singles, PushAll;
    var size, body := ChunkHeader(|c.data|), Singles(Body, c.data, 0, |c.data|);
    PushAllNone(t);
    PushAllLast(t, [], size);
    assert [] + [size] == [size];
    PushAllConcat(t, [size], body);
    SinglesJoin(t + [size], Body, c.data, |c.data|);
    assert c.data[..|c.data|] == c.data;
    PushAllLast(t, [size] + body, ChunkComplete);
    assert t + [size] + [Data(Body, c.data)] + [ChunkComplete] == t + ChunkPieces(c);
  }

  lemma {:induction false} ChunksJoin(t: seq<Event>, cs: seq<Chunk>)
    requires forall i | 0 <= i < |cs| :: cs[i].data != []
    ensures PushAll(t, ChunksEvents(cs)) == t + ChunksPieces(cs)
  {
    hide ChunkEvents, Push;
    if cs == [] {
      assert t + [] == t;
    } else {
      var init, c := cs[..|cs| - 1], cs[|cs| - 1];
      ChunksJoin(t, init);
      PushAllConcat(t, ChunksEvents(init), ChunkEvents(c));
      ChunkJoins(t + ChunksPieces(init), c);
      Regroup(t, ChunksPieces(init), ChunkPieces(c));
    }
  }

  /** An event that is no text is only put behind the others. */
  lemma PushOther(t: seq<Event>, e: Event)
    requires !e.Data?
    ensures Push(t, e) == t + [e]
  {
  }

  lemma ContentJoins(t: seq<Event>, c: Content)
    requires t != [] && !t[|t| - 1].Data? && (c.InChunks? ==> forall i | 0 <= i < |c.chunks| :: c.chunks[i].data != [])
    ensures PushAll(t, ContentEvents(c)) == t + ContentPieces(c)
  {
    hide Singles, PushAll, ChunksEvents, LinesEvents, ChunksPieces, LinesPieces, Push;
    if c.InChunks? {
      var a, b := ChunksEvents(c.chunks) + [ChunkHeader(0)], LinesEvents(c.trailer) + [ChunkComplete];
      ChunksJoin(t, c.chunks);
      PushAllLast(t, ChunksEvents(c.chunks), ChunkHeader(0));
      PushOther(t + ChunksPieces(c.chunks), ChunkHeader(0));
      var s := t + ChunksPieces(c.chunks) + [ChunkHeader(0)];
      LinesJoin(s, c.trailer);
      PushAllLast(s, LinesEvents(c.trailer), ChunkComplete);
      PushOther(s + LinesPieces(c.trailer), ChunkComplete);
      PushAllConcat(t, a, b);
      assert s + LinesPieces(c.trailer) + [ChunkComplete] == t + ContentPieces(c);
    } else if c.body == [] {
      NoSingles(Body);
      PushAllNone(t);
      assert t + [] == t;
    } else {
      SinglesJoin(t, Body, c.body, |c.body|);
      assert c.body[..|c.body|] == c.body;
    }
  }

  lemma MessageJoins(t: seq<Event>, ls: seq<Line>, skipped: bool, c: Content, keep: bool)
    requires GoodLines(ls) && EndsOther(t, Field) && EndsOther(t, Body)
    requires c.InChunks? ==> forall i | 0 <= i < |c.chunks| :: c.chunks[i].data != []
    ensures PushAll(t, MessageEvents(ls, skipped, c, keep)) == t + MessagePieces(ls, skipped, c, keep)
  {
    hide LinesEvents, LinesPieces, LinesLength, LinesFlags, GoodLines, PushAll, ContentEvents, ContentPieces, Push;
    var told := HeadersComplete(LinesLength(ls, ABSENT), LinesFlags(ls, NO_FLAGS).chunked, skipped);
    var a, b, last := LinesEvents(ls) + [told], ContentEvents(c), Complete(keep);
    LinesJoin(t, ls);
    PushAllLast(t, LinesEvents(ls), told);
    PushOther(t + LinesPieces(ls), told);
    var s := t + LinesPieces(ls) + [told];
    ContentJoins(s, c);
    PushAllConcat(t, a, b);
    PushAllLast(t, a + b, last);
    PushOther(s + ContentPieces(c), last);
    assert s + ContentPieces(c) + [last] == t + MessagePieces(ls, skipped, c, keep);
  }

  lemma BeginJoins(k: Piece, x: bytes)
    ensures Joined([Begin] + (Singles(k, x, 0, |x|) + [Data(k, [])])) == [Begin, Data(k, x)]
  {
    hide Singles, PushAll;
    PushAllConcat([], [Begin], Singles(k, x, 0, |x|) + [Data(k, [])]);
    PushAllNone([]);
    PushAllLast([], [], Begin);
    assert [] + [Begin] == [Begin];
    RunJoins([Begin], k, x);
  }

  // ---------------------------------------------------------------- whole messages

  /** The chunks of a content that fits have data. */
  lemma FitsData(cfg: Config, p: Parser, reply: Reply, ls: seq<Line>, c: Content)
    requires GoodLines(ls) && Fits(cfg, p, reply, ls, c)
    ensures c.InChunks? ==> forall i | 0 <= i < |c.chunks| :: c.chunks[i].data != []
  {
    hide GoodSize, SizeLine, SizeValue, FramingOf, LinesText, LinesLength, GoodLines;
  }

  /** The record behind a request line. */
  function Asks(p: Parser, m: Method, u: bytes, v: Asked, bare: bool): Parser
    requires IsAsked(v)
  {
    ResetMessage(p).(nread := p.nread + |RequestLine(m, u, v, bare)|, state := HeaderFieldStart,
                     index := |TokenOf(m)| + 1, httpMethod := m, major := Major(v), minor := Minor(v))
  }

  /** A request is read back: method, target, version, header lines in order, body or chunks with their sizes,
      trailer lines; and the connection is kept as the version and the lines say. */
  lemma RequestRoundTrip(cfg: Config, p: Parser, m: Method, u: bytes, v: Asked, bare: bool, reply: Reply, ls: seq<Line>,
                         c: Content)
    returns (q: Parser, ev: seq<Event>)
    requires p.state.StartReq? && u != [] && EndsTarget(UrlScan.Scan(u, m.CONNECT?, |u|)) && IsAsked(v) && GoodLines(ls)
    requires p.nread + |RequestLine(m, u, v, bare)| + |LinesText(ls)| + 2 <= cfg.maxHeaderSize
    requires forall r :: cfg.reply(r) == reply
    requires var h := Asks(p, m, u, v, bare); !Switches(HeadOf(h, ls), reply) && Fits(cfg, h, reply, ls, c)
    ensures Takes(cfg, p, RequestLine(m, u, v, bare) + MessageText(ls, c), q, ev)
    ensures var keep := Kept(Asks(p, m, u, v, bare), FinalFlags(reply, ls, c));
            Joined(ev) == [Begin, Data(Url, u)] + MessagePieces(ls, !reply.Proceed?, c, keep)
    ensures Ended(Asks(p, m, u, v, bare), q, FinalFlags(reply, ls, c))
  {
    hide Takes, LinesText, LinesLength, GoodLines, RequestLine, UrlScan.Scan, PushAll, Singles, MessageText,
         MessageEvents, MessagePieces, Fits, Switches, FinalFlags, Kept, TokenOf;
    var line, h := RequestLine(m, u, v, bare), Asks(p, m, u, v, bare);
    RequestLineTaken(cfg, p, m, u, v, bare);
    var told := [Begin] + (Singles(Url, u, 0, |u|) + [Data(Url, [])]);
    q := MessageTaken(cfg, h, reply, ls, c);
    var keep := Kept(h, FinalFlags(reply, ls, c));
    var more := MessageEvents(ls, !reply.Proceed?, c, keep);
    ev := told + more;
    TakesThen(cfg, p, line, h, told, MessageText(ls, c), q, more);
    FitsData(cfg, h, reply, ls, c);
    BeginJoins(Url, u);
    PushAllConcat([], told, more);
    MessageJoins([Begin, Data(Url, u)], ls, !reply.Proceed?, c, keep);
  }

  /** The text of a reason phrase, none being read as the empty one. */
  function Phrase(reason: Reason): bytes { if reason.NoReason? then [] else reason.text }

  /** The record behind a status line. */
  function Answers(p: Parser, a: byte, b: byte, k: nat, ds: bytes, reason: Reason, bare: bool): Parser
    requires IsNum(a) && IsNum(b) && AllDigits(ds)
  {
    ResetMessage(p).(nread := p.nread + |StatusLine(a, b, k, ds, reason, bare)|, state := HeaderFieldStart,
                     major := a - '0' as int, minor := b - '0' as int, statusCode := Decimal(ds), index := 0)
  }

  /** The same for a response whose end is known from its head. */
  lemma ResponseRoundTrip(cfg: Config, p: Parser, a: byte, b: byte, k: nat, ds: bytes, reason: Reason, bare: bool,
                          reply: Reply, ls: seq<Line>, c: Content)
    returns (q: Parser, ev: seq<Event>)
    requires p.state.StartRes? && IsNum(a) && IsNum(b) && ds != [] && AllDigits(ds) && Decimal(ds) <= 999
    requires (reason.Reason? ==> IsReason(reason.text)) && GoodLines(ls)
    requires p.nread + |StatusLine(a, b, k, ds, reason, bare)| + |LinesText(ls)| + 2 <= cfg.maxHeaderSize
    requires forall r :: cfg.reply(r) == reply
    requires var h := Answers(p, a, b, k, ds, reason, bare);
             !Switches(HeadOf(h, ls), reply) && Fits(cfg, h, reply, ls, c)
    ensures Takes(cfg, p, StatusLine(a, b, k, ds, reason, bare) + MessageText(ls, c), q, ev)
    ensures var keep := Kept(Answers(p, a, b, k, ds, reason, bare), FinalFlags(reply, ls, c));
            Joined(ev) == [Begin, Data(Status, Phrase(reason))] + MessagePieces(ls, !reply.Proceed?, c, keep)
    ensures Ended(Answers(p, a, b, k, ds, reason, bare), q, FinalFlags(reply, ls, c))
  {
    hide Takes, LinesText, LinesLength, GoodLines, StatusLine, PushAll, Singles, MessageText, MessageEvents,
         MessagePieces, Decimal, Fits, Switches, FinalFlags, Kept;
    var line, h := StatusLine(a, b, k, ds, reason, bare), Answers(p, a, b, k, ds, reason, bare);
    StatusLineTaken(cfg, p, a, b, k, ds, reason, bare);
    var told := [Begin] + ReasonEvents(reason);
    q := MessageTaken(cfg, h, reply, ls, c);
    var keep := Kept(h, FinalFlags(reply, ls, c));
    var more := MessageEvents(ls, !reply.Proceed?, c, keep);
    ev := told + more;
    TakesThen(cfg, p, line, h, told, MessageText(ls, c), q, more);
    FitsData(cfg, h, reply, ls, c);
    NoSingles(Status);
    BeginJoins(Status, Phrase(reason));
    PushAllConcat([], told, more);
    MessageJoins([Begin, Data(Status, Phrase(reason))], ls, !reply.Proceed?, c, keep);
  }
}
