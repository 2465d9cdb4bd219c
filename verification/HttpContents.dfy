/** What follows a start line: header lines, and the content that they announce, byte by byte. */
module HttpContents {
  import opened Ascii
  import opened HttpTypes
  import opened HttpMachine
  import opened HttpTrace
  import opened HttpFields
  import opened HttpShape
  import opened HttpBatch
  import opened HttpTheorems
  import opened HttpTokens
  import opened HttpTakes
  import opened HttpHeaderRuns
  import opened HttpListRuns
  import opened HttpListLines
  import opened HttpMessages
  import opened HttpFraming
  import opened HttpChunks
  import HttpLists
  import HttpFeed
  import HttpSplit

  // ---------------------------------------------------------------- a message behind its start line

  /** What follows the head: a body as it is, or chunks, a last chunk of size zero and trailer lines. */
  datatype Content = Whole(body: bytes) | InChunks(chunks: seq<Chunk>, last: bytes, ext: bytes, trailer: seq<Line>)

  function ContentText(c: Content): bytes {
    match c
    case Whole(body) => body
    case InChunks(cs, last, ext, trailer) => ChunksText(cs) + SizeLine(last, ext) + (LinesText(trailer) + [CR, LF])
  }

  function ContentEvents(c: Content): seq<Event> {
    match c
    case Whole(body) => Singles(Body, body, 0, |body|)
    case InChunks(cs, _, _, trailer) => ChunksEvents(cs) + [ChunkHeader(0)] + (LinesEvents(trailer) + [ChunkComplete])
  }

  function MessageText(ls: seq<Line>, c: Content): bytes { LinesText(ls) + [CR, LF] + ContentText(c) }

  /** A start line has just been read. */
  predicate Fresh(p: Parser) { p.state.HeaderFieldStart? && p.flags == NO_FLAGS && p.contentLength == ABSENT }

  /** What the lines of the head say, beside what the start line says. */
  function HeadOf(p: Parser, ls: seq<Line>): Parser
    requires GoodLines(ls)
  {
    p.(flags := LinesFlags(ls, NO_FLAGS), contentLength := LinesLength(ls, ABSENT))
  }

  /** The content that the head announces. */
  predicate Fits(cfg: Config, p: Parser, reply: Reply, ls: seq<Line>, c: Content)
    requires GoodLines(ls)
  {
    match c
    case Whole(body) =>
      if body == [] then FramingOf(HeadOf(p, ls), reply).Nothing?
      else FramingOf(HeadOf(p, ls), reply).Counted? && LinesLength(ls, ABSENT) == |body|
    case InChunks(cs, last, ext, trailer) =>
      && FramingOf(HeadOf(p, ls), reply).Chunks?
      && GoodChunks(cfg, cs) && GoodSize(last, ext) && SizeValue(last) == 0 && GoodLines(trailer)
      && |SizeLine(last, ext)| <= cfg.maxHeaderSize && |LinesText(trailer)| + 2 <= cfg.maxHeaderSize
  }

  /** The flags at the end: those of the head, and of the trailer. */
  function FinalFlags(reply: Reply, ls: seq<Line>, c: Content): Flags {
    var f := LinesFlags(ls, NO_FLAGS).(skipBody := !reply.Proceed?);
    if c.Whole? then f else LinesFlags(c.trailer, f.(trailing := true))
  }

  /** Whether the connection is kept, from the version and the lines. */
  predicate Kept(p: Parser, f: Flags) { if p.major > 0 && p.minor > 0 then !f.close else f.keepAlive }

  function MessageEvents(ls: seq<Line>, skipped: bool, c: Content, keep: bool): seq<Event>
    requires GoodLines(ls)
  {
    LinesEvents(ls) + [HeadersComplete(LinesLength(ls, ABSENT), LinesFlags(ls, NO_FLAGS).chunked, skipped)]
    + ContentEvents(c) + [Complete(keep)]
  }

  /** The record once the message has ended. */
  predicate Ended(p: Parser, q: Parser, f: Flags) {
    && q.kind == p.kind && q.httpMethod == p.httpMethod && q.statusCode == p.statusCode && q.flags == f
    && q.major == p.major && q.minor == p.minor && !q.upgrade
    && (q.state == if !Kept(p, f) then Dead else if p.kind.Request? then StartReq else StartRes)
  }

  // ---------------------------------------------------------------- flags

  lemma CodedWhole(name: bytes)
    ensures LowerAll(name) == TRANSFER_ENCODING ==> Coded(name)
  {
    hide LowerAll;
    if LowerAll(name) == TRANSFER_ENCODING {
      assert LowerAll(name)[..|TRANSFER_ENCODING|] == LowerAll(name);
    }
  }

  /** Flags only go up, those of the framing by their own lines, and chunked not without a coding. */
  predicate Grown(f: Flags, g: Flags) {
    && g.trailing == f.trailing && g.skipBody == f.skipBody && (f.chunked ==> g.chunked)
    && (f.transferEncoding ==> g.transferEncoding) && (g.chunked && !f.chunked ==> g.transferEncoding)
  }

  lemma ListGrows(h: HttpLists.Header, f: Flags, v: seq<HttpLists.Item>)
    requires h.TransferEncoding? ==> f.transferEncoding
    ensures Grown(f, FlagsAfter(h, f, v))
  {
    hide HttpLists.LastRead, Listed;
  }

  lemma CodingGrows(f: Flags, name: bytes)
    ensures Grown(f, Coding(f, name)) && Coding(f, name).transferEncoding == (f.transferEncoding || Coded(name))
  {
    hide Coded;
  }

  lemma NotedGrows(f: Flags, l: Line)
    requires LowerAll(l.name) == TRANSFER_ENCODING ==> f.transferEncoding
    ensures Grown(f, Noted(f, l))
  {
    hide LowerAll, FlagsAfter, CONNECTION, PROXY_CONNECTION, CONTENT_LENGTH, UPGRADE, TRANSFER_ENCODING;
    if IsList(l) {
      ListGrows(ListOf(l), f, Plains(l.value));
    }
  }

  lemma {:induction false} LinesGrow(ls: seq<Line>, f: Flags)
    ensures Grown(f, LinesFlags(ls, f))
  {
    hide Noted, Coding, Coded, LowerAll;
    if ls != [] {
      var g, l := LinesFlags(ls[..|ls| - 1], f), ls[|ls| - 1];
      LinesGrow(ls[..|ls| - 1], f);
      CodedWhole(l.name);
      CodingGrows(g, l.name);
      NotedGrows(Coding(g, l.name), l);
    }
  }

  /** The end does not wait for the end of input. */
  predicate Bounded(p: Parser) {
    || p.flags.skipBody || p.flags.chunked
    || (!p.flags.transferEncoding && (p.kind.Request? || NeverBody(p.statusCode) || p.contentLength != ABSENT))
  }

  lemma BoundedEnds(p: Parser)
    requires Bounded(p)
    ensures ShouldKeepAlive(p) == Kept(p, p.flags)
  {
  }

  // ---------------------------------------------------------------- the three ways on from a head

  lemma BodyTaken(cfg: Config, p: Parser, body: bytes)
    requires p.state.BodyIdentity? && !p.upgrade && body != [] && p.contentLength == |body|
    ensures var o := FinishMessage(p.(contentLength := 0, state := MessageDone), Next);
            Takes(cfg, p, body, o.p, Singles(Body, body, 0, |body|) + o.ev)
  {
    hide Run, FinishMessage;
    TakesNone(cfg, p);
    HttpFeed.RunFrom(cfg, p, body);
    BodyRunEnds(cfg, p, body, 0, |body|);
    FinishControl(p.(contentLength := 0, state := MessageDone), Next);
    assert [] + Singles(Body, body, 0, |body|) == Singles(Body, body, 0, |body|);
  }

  lemma TrailerEnds(cfg: Config, p: Parser)
    requires p.state.HeadersAlmostDone? && p.flags.trailing && !p.upgrade && p.nread < cfg.maxHeaderSize
    ensures var o := FinishMessage(p.(nread := p.nread + 1, state := MessageDone), Next);
            Step(cfg, p, LF) == Out(o.p, [ChunkComplete] + o.ev, Next)
  {
    hide ShouldKeepAlive, AfterHeaders, SwitchName, SwitchValue, SwitchChunkLine, SwitchUrl, SwitchMethod,
         SwitchReqVersion, SwitchStatusLine, SwitchIdle;
    var q := p.(nread := p.nread + 1, state := MessageDone);
    assert Chain(cfg, q, LF) == Switch(cfg, q, LF);
  }

  /** Chunks, the last one, and the trailer. */
  lemma ChunkedTaken(cfg: Config, p: Parser, c: Content) returns (q: Parser)
    requires p.state == ChunkLine(SizeStart) && p.nread == 0 && !p.upgrade && p.flags.chunked && !p.flags.contentLength
    requires c.InChunks? && GoodChunks(cfg, c.chunks) && GoodSize(c.last, c.ext) && SizeValue(c.last) == 0
    requires GoodLines(c.trailer) && |SizeLine(c.last, c.ext)| <= cfg.maxHeaderSize
    requires |LinesText(c.trailer)| + 2 <= cfg.maxHeaderSize
    ensures var f := LinesFlags(c.trailer, p.flags.(trailing := true));
            Takes(cfg, p, ContentText(c), q, ContentEvents(c) + [Complete(Kept(p, f))]) && Ended(p, q, f)
  {
    hide Takes, Step, ChunksText, ChunksEvents, SizeLine, LinesText, LinesEvents, LinesFlags, LinesLength, GoodLines,
         GoodChunks, GoodSize, SizeValue, ShouldKeepAlive, HasLength;
    var r := ChunksTaken(cfg, p, c.chunks);
    SizeLineTaken(cfg, r, c.last, c.ext);
    var s := AtData(r, 0);
    TakesThen(cfg, p, ChunksText(c.chunks), r, ChunksEvents(c.chunks), SizeLine(c.last, c.ext), s, [ChunkHeader(0)]);
    var t := HeadTaken(cfg, s, c.trailer);
    LinesGrow(c.trailer, s.flags);
    TrailerEnds(cfg, t);
    TakesByte(cfg, s, LinesText(c.trailer) + [CR], t, LinesEvents(c.trailer), LF);
    var u := t.(nread := t.nread + 1, state := MessageDone);
    BoundedEnds(u);
    q := FinishMessage(u, Next).p;
    var keep := Complete(Kept(p, t.flags));
    assert LinesText(c.trailer) + [CR] + [LF] == LinesText(c.trailer) + [CR, LF];
    assert LinesEvents(c.trailer) + ([ChunkComplete] + [keep]) == LinesEvents(c.trailer) + [ChunkComplete] + [keep];
    TakesThen(cfg, p, ChunksText(c.chunks) + SizeLine(c.last, c.ext), s, ChunksEvents(c.chunks) + [ChunkHeader(0)],
              LinesText(c.trailer) + [CR, LF], q, LinesEvents(c.trailer) + [ChunkComplete] + [keep]);
    Regroup(ChunksEvents(c.chunks) + [ChunkHeader(0)], LinesEvents(c.trailer) + [ChunkComplete], [keep]);
  }

  lemma Regroup(a: seq<Event>, b: seq<Event>, c: seq<Event>)
    ensures a + (b + c) == a + b + c
  {
  }

  // ---------------------------------------------------------------- the head and what follows it

  /** The head has been read, and its content is yet to come. */
  ghost predicate HeadRead(cfg: Config, p: Parser, reply: Reply, ls: seq<Line>, r: Parser)
    requires GoodLines(ls)
  {
    var d := Follows(HeadOf(p, ls), reply);
    && Takes(cfg, p, LinesText(ls) + [CR, LF], r, LinesEvents(ls) + d.ev)
    && r == d.p.(hstate := r.hstate, index := r.index)
  }

  /** The record behind the head, the event of its end included. */
  lemma HeadDecided(cfg: Config, p: Parser, reply: Reply, ls: seq<Line>) returns (q: Parser)
    requires Fresh(p) && GoodLines(ls) && p.nread + |LinesText(ls)| + 2 <= cfg.maxHeaderSize
    requires forall r :: cfg.reply(r) == reply
    requires var f := FramingOf(HeadOf(p, ls), reply); !f.Refused? && !f.Tunnel?
    ensures HeadRead(cfg, p, reply, ls, q)
  {
    hide Takes, Step, LinesText, LinesEvents, LinesLength, LinesFlags, GoodLines, Switch, HasLength, ShouldKeepAlive;
    var r := HeadTaken(cfg, p, ls);
    LinesGrow(ls, NO_FLAGS);
    HeadEnds(cfg, r);
    SameDecision(r, HeadOf(p, ls), reply);
    TakesByte(cfg, p, LinesText(ls) + [CR], r, LinesEvents(ls), LF);
    q := Step(cfg, r, LF).p;
    assert LinesText(ls) + [CR] + [LF] == LinesText(ls) + [CR, LF];
  }

  /** Where the head was read does not matter. */
  lemma SameDecision(p: Parser, q: Parser, reply: Reply)
    requires q == p.(nread := q.nread, state := q.state, hstate := q.hstate, index := q.index)
    ensures FramingOf(p, reply) == FramingOf(q, reply)
    ensures var o, d := Follows(p, reply), Follows(q, reply);
            o.ev == d.ev && o.ctl == d.ctl && d.p == o.p.(hstate := d.p.hstate, index := d.p.index)
  {
    hide NeedsEof;
    SameKeep(AfterReply(p, reply), AfterReply(q, reply));
  }

  lemma SameKeep(p: Parser, q: Parser)
    requires q == p.(nread := q.nread, state := q.state, hstate := q.hstate, index := q.index)
    ensures ShouldKeepAlive(p) == ShouldKeepAlive(q)
  {
  }

  ghost predicate Read(cfg: Config, p: Parser, reply: Reply, ls: seq<Line>, c: Content, q: Parser)
    requires GoodLines(ls)
  {
    var f := FinalFlags(reply, ls, c);
    Takes(cfg, p, MessageText(ls, c), q, MessageEvents(ls, !reply.Proceed?, c, Kept(p, f))) && Ended(p, q, f)
  }

  lemma ChunkedRead(cfg: Config, p: Parser, reply: Reply, ls: seq<Line>, c: Content, r: Parser) returns (q: Parser)
    requires GoodLines(ls) && HeadRead(cfg, p, reply, ls, r)
    requires c.InChunks? && !Switches(HeadOf(p, ls), reply) && Fits(cfg, p, reply, ls, c)
    ensures Read(cfg, p, reply, ls, c, q)
  {
    hide Takes, LinesText, LinesEvents, LinesLength, LinesFlags, GoodLines, ShouldKeepAlive, ContentText, ContentEvents,
         SizeLine, SizeValue, GoodChunks, GoodSize;
    var told := [HeadTold(HeadOf(p, ls), reply)];
    LinesGrow(ls, NO_FLAGS);
    q := ChunkedTaken(cfg, r, c);
    var keep := [Complete(Kept(p, q.flags))];
    TakesThen(cfg, p, LinesText(ls) + [CR, LF], r, LinesEvents(ls) + told, ContentText(c), q, ContentEvents(c) + keep);
    Regroup(LinesEvents(ls) + told, ContentEvents(c), keep);
  }

  lemma EmptyRead(cfg: Config, p: Parser, reply: Reply, ls: seq<Line>, r: Parser)
    requires GoodLines(ls) && HeadRead(cfg, p, reply, ls, r)
    requires !Switches(HeadOf(p, ls), reply) && FramingOf(HeadOf(p, ls), reply).Nothing?
    ensures Read(cfg, p, reply, ls, Whole([]), r)
  {
    hide Takes, LinesText, LinesEvents, LinesLength, LinesFlags, GoodLines, ShouldKeepAlive, ContentText, ContentEvents;
    var h := HeadOf(p, ls);
    BoundedEnds(AfterReply(h, reply));
    var told, keep := [HeadTold(h, reply)], Kept(p, r.flags);
    assert told + [Complete(keep)] == Follows(h, reply).ev;
    NothingFollows(ls, told, Whole([]), keep);
  }

  lemma CountedRead(cfg: Config, p: Parser, reply: Reply, ls: seq<Line>, c: Content, r: Parser) returns (q: Parser)
    requires GoodLines(ls) && HeadRead(cfg, p, reply, ls, r)
    requires c.Whole? && c.body != [] && !Switches(HeadOf(p, ls), reply) && Fits(cfg, p, reply, ls, c)
    ensures Read(cfg, p, reply, ls, c, q)
  {
    hide Takes, LinesText, LinesEvents, LinesLength, LinesFlags, GoodLines, ShouldKeepAlive, ContentText, ContentEvents;
    var told := [HeadTold(HeadOf(p, ls), reply)];
    var t := r.(contentLength := 0, state := MessageDone);
    BoundedEnds(t);
    BodyTaken(cfg, r, c.body);
    q := FinishMessage(t, Next).p;
    var keep := [Complete(Kept(p, q.flags))];
    WholeIs(c);
    TakesThen(cfg, p, LinesText(ls) + [CR, LF], r, LinesEvents(ls) + told, c.body, q, ContentEvents(c) + keep);
    Regroup(LinesEvents(ls) + told, ContentEvents(c), keep);
  }

  /** A head and its content, whichever framing it is. */
  lemma MessageTaken(cfg: Config, p: Parser, reply: Reply, ls: seq<Line>, c: Content) returns (q: Parser)
    requires Fresh(p) && GoodLines(ls) && p.nread + |LinesText(ls)| + 2 <= cfg.maxHeaderSize
    requires (forall r :: cfg.reply(r) == reply) && !Switches(HeadOf(p, ls), reply) && Fits(cfg, p, reply, ls, c)
    ensures Read(cfg, p, reply, ls, c, q)
  {
    hide Read, HeadRead, LinesText, GoodLines, FramingOf, GoodChunks, GoodSize, SizeValue, SizeLine, LinesLength,
         Switches;
    var r := HeadDecided(cfg, p, reply, ls);
    if c.InChunks? {
      q := ChunkedRead(cfg, p, reply, ls, c, r);
    } else if c.body == [] {
      q := r;
      EmptyRead(cfg, p, reply, ls, r);
    } else {
      q := CountedRead(cfg, p, reply, ls, c, r);
    }
  }

  // ---------------------------------------------------------------- the other framings

  /** A body up to the end of input: what comes is told as body, and no end is told. */
  lemma UntilCloseTaken(cfg: Config, p: Parser, reply: Reply, ls: seq<Line>, body: bytes) returns (q: Parser)
    requires Fresh(p) && GoodLines(ls) && p.nread + |LinesText(ls)| + 2 <= cfg.maxHeaderSize
    requires (forall r :: cfg.reply(r) == reply) && FramingOf(HeadOf(p, ls), reply).UntilClose?
    ensures Takes(cfg, p, LinesText(ls) + [CR, LF] + body, q,
                  LinesEvents(ls) + [HeadTold(HeadOf(p, ls), reply)] + Singles(Body, body, 0, |body|))
    ensures q.state.BodyIdentityEof?
  {
    hide Takes, LinesText, LinesEvents, LinesLength, LinesFlags, GoodLines, ShouldKeepAlive;
    q := HeadDecided(cfg, p, reply, ls);
    EofTaken(cfg, q, body);
    TakesThen(cfg, p, LinesText(ls) + [CR, LF], q, LinesEvents(ls) + [HeadTold(HeadOf(p, ls), reply)], body, q,
              Singles(Body, body, 0, |body|));
  }

  lemma EofTaken(cfg: Config, p: Parser, body: bytes)
    requires p.state.BodyIdentityEof?
    ensures Takes(cfg, p, body, p, Singles(Body, body, 0, |body|))
  {
    hide Run;
    HttpFeed.RunFrom(cfg, p, body);
    EofRun(cfg, p, body, 0, |body|);
    assert [] + Singles(Body, body, 0, |body|) == Singles(Body, body, 0, |body|);
  }

  /** The lines of a head, and the byte that ends it. */
  lemma HeadRun(cfg: Config, p: Parser, ls: seq<Line>, rest: bytes) returns (r: Parser)
    requires Fresh(p) && GoodLines(ls) && p.nread + |LinesText(ls)| + 2 <= cfg.maxHeaderSize
    ensures var n := |LinesText(ls)| + 1;
            && Run(cfg, p, LinesText(ls) + [CR, LF] + rest, n) == Trail(r, LinesEvents(ls), Next, n)
            && r == HeadOf(p, ls).(nread := r.nread, state := HeadersAlmostDone, hstate := r.hstate, index := r.index)
            && r.nread < cfg.maxHeaderSize && !r.flags.trailing && !r.flags.skipBody
  {
    hide LinesText, LinesEvents, LinesLength, LinesFlags, GoodLines, Run;
    r := HeadTaken(cfg, p, ls);
    LinesGrow(ls, NO_FLAGS);
    HttpSplit.RunPrefix(cfg, p, LinesText(ls) + [CR], [LF] + rest, |LinesText(ls)| + 1);
    assert LinesText(ls) + [CR] + ([LF] + rest) == LinesText(ls) + [CR, LF] + rest;
  }

  /** Another protocol: the message is over with its head, and what follows is not looked at. */
  lemma TunnelStops(cfg: Config, p: Parser, reply: Reply, ls: seq<Line>, rest: bytes)
    requires Fresh(p) && GoodLines(ls) && p.nread + |LinesText(ls)| + 2 <= cfg.maxHeaderSize
    requires (forall r :: cfg.reply(r) == reply) && FramingOf(HeadOf(p, ls), reply).Tunnel?
    ensures var x := LinesText(ls) + [CR, LF] + rest;
            var t := Run(cfg, p, x, |x|);
            && t.ctl.Stop? && t.used == |LinesText(ls)| + 2 && t.p.upgrade
            && t.ev == LinesEvents(ls) + Follows(HeadOf(p, ls), reply).ev
  {
    hide LinesText, LinesEvents, LinesLength, LinesFlags, GoodLines, Run, Step, ShouldKeepAlive, Switches;
    var x, n := LinesText(ls) + [CR, LF] + rest, |LinesText(ls)| + 1;
    var r := HeadRun(cfg, p, ls, rest);
    HeadEnds(cfg, r);
    SameDecision(r, HeadOf(p, ls), reply);
    assert x[n] == LF;
    RunNext(cfg, p, x, n);
    RunHalted(cfg, p, x, n + 1, |x|);
    TunnelSwitches(r, reply);
  }

  lemma TunnelSwitches(p: Parser, reply: Reply)
    requires FramingOf(p, reply).Tunnel?
    ensures Switches(p, reply)
  {
  }

  /** A head that is refused, with the error that the framing has. */
  lemma HeadRefused(cfg: Config, p: Parser, reply: Reply, ls: seq<Line>, rest: bytes)
    requires Fresh(p) && GoodLines(ls) && p.nread + |LinesText(ls)| + 2 <= cfg.maxHeaderSize
    requires (forall r :: cfg.reply(r) == reply) && FramingOf(HeadOf(p, ls), reply).Refused?
    ensures var x := LinesText(ls) + [CR, LF] + rest;
            var t := Run(cfg, p, x, |x|);
            t.ctl.Fail? && t.used == |LinesText(ls)| + 1 && t.p.errno == FramingOf(HeadOf(p, ls), reply).errno
  {
    hide LinesText, LinesEvents, LinesLength, LinesFlags, GoodLines, Run, Step, ShouldKeepAlive, Switches;
    var x, n := LinesText(ls) + [CR, LF] + rest, |LinesText(ls)| + 1;
    var r := HeadRun(cfg, p, ls, rest);
    HeadEnds(cfg, r);
    SameDecision(r, HeadOf(p, ls), reply);
    assert x[n] == LF;
    RunNext(cfg, p, x, n);
    RunHalted(cfg, p, x, n + 1, |x|);
  }

  lemma WholeIs(c: Content)
    requires c.Whole?
    ensures ContentText(c) == c.body && ContentEvents(c) == Singles(Body, c.body, 0, |c.body|)
  {
  }

  lemma NothingFollows(ls: seq<Line>, told: seq<Event>, c: Content, keep: bool)
    requires c == Whole([])
    ensures MessageText(ls, c) == LinesText(ls) + [CR, LF]
    ensures LinesEvents(ls) + (told + [Complete(keep)]) == LinesEvents(ls) + told + ContentEvents(c) + [Complete(keep)]
  {
    hide LinesText, LinesEvents;
    assert ContentEvents(c) == [];
    assert LinesEvents(ls) + told + [] == LinesEvents(ls) + told;
    Regroup(LinesEvents(ls), told, [Complete(keep)]);
  }
}
