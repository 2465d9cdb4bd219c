/** What the invariant says about whole connections, in terms of the text that the application
    was given: framing, recognised names, declared lengths, the end of the connection. */
module HttpTheorems {
  import opened Ascii
  import opened HttpTypes
  import opened HttpMachine
  import opened HttpClient
  import opened HttpFields
  import opened HttpShape
  import opened HttpInvariant
  import opened HttpRuns
  import opened HttpFeed

  /** Framing, section 3.3.3 of RFC 7230. In a body:
      - chunked reading is backed by a Transfer-Encoding line whose last coding is "chunked"
      - no head with both a Transfer-Encoding name and a Content-Length line was accepted, nor
        one with two Content-Length lines
      - reading until the end of the connection happens in responses only
      - an identity body has exactly the length that a Content-Length line declares in
        decimal, and what is still expected is that length minus what was delivered */
  ghost predicate Framed(p: Parser, c: Client) {
    && (p.state.ChunkLine? || InChunk(p.state) ==> AnyChunked(c.fields))
    && (AfterHead(p.state) ==> !(AnyTe(c.fields) && AnyLengthLine(c.fields)) && OneLengthLine(c.fields))
    && (p.state.BodyIdentityEof? ==> p.kind.Response?)
    && (p.state.BodyIdentity? ==>
          && 0 < p.contentLength < ABSENT
          && (c.phase.Headed? || c.phase.Reading?)
          && AnyLength(c.fields, c.phase.declared)
          && p.contentLength == c.phase.declared - (if c.phase.Reading? then c.phase.got else 0))
  }

  lemma GoodIsFramed(cfg: Config, p: Parser, c: Client)
    requires Good(cfg, p, c)
    ensures Framed(p, c)
  {
    hide AnyTe, AnyChunked, AnyLength, AnyLengthLine, OneLengthLine, NameLink, TeLink, LengthLink;
  }

  lemma SameFraming(p: Parser, c: Client, d: Client)
    requires Framed(p, c) && d.fields == c.fields && (p.state.BodyIdentity? ==> d == c)
    ensures Framed(p, d)
  {
    hide AnyTe, AnyChunked, AnyLength, AnyLengthLine, OneLengthLine;
  }

  /** Every accepted message of every connection is framed so. */
  lemma FramingSound(cfg: Config, k: Kind, calls: seq<bytes>)
    ensures var (p, ev) := Feed(cfg, k, calls);
            p.errno.OK? ==> Framed(p, DeliverAll(FRESH, ev))
  {
    hide Feed, Over, Until, Good, DeliverAll, Framed;
    FeedKeeps(cfg, k, calls);
    var (p, ev) := Feed(cfg, k, calls);
    if p.errno.OK? {
      GoodIsFramed(cfg, p, Until(cfg, k, calls));
      SameFraming(p, Until(cfg, k, calls), DeliverAll(FRESH, ev));
    }
  }

  /** The name automaton decides string equality: once a field name has ended, the header state
      is the one of a recognised name exactly when the name is that name, ignoring case; and
      the transfer-encoding flag is up exactly when some name begins with that word. */
  lemma NamesRecognised(cfg: Config, k: Kind, calls: seq<bytes>)
    ensures var (p, ev) := Feed(cfg, k, calls);
            var c := DeliverAll(FRESH, ev);
            p.errno.OK? ==>
              && (p.state.Discard? ==>
                    && c.fields != []
                    && (p.hstate.HContentLength? <==> Named(Last(c), CONTENT_LENGTH))
                    && (p.hstate.HTransferEncoding? <==> Named(Last(c), TRANSFER_ENCODING))
                    && (p.hstate.HUpgrade? <==> Named(Last(c), UPGRADE))
                    && (p.hstate.HConnection? <==> Named(Last(c), CONNECTION) || Named(Last(c), PROXY_CONNECTION)))
              && (InHeaders(p.state) ==> (p.flags.transferEncoding <==> AnyTe(c.fields)))
  {
    hide AnyTe, AnyChunked, AnyLength, AnyLengthLine, OneLengthLine, TeLink, LengthLink, NameState, Named;
    FeedKeeps(cfg, k, calls);
    var (p, ev) := Feed(cfg, k, calls);
    var c := DeliverAll(FRESH, ev);
    if p.errno.OK? && p.state.Discard? {
      NameOfState(Last(c));
    }
  }

  /** An accepted Content-Length is the mathematical value of its digits and never the
      "absent" sentinel; without one the field holds the sentinel. */
  lemma LengthExact(cfg: Config, k: Kind, calls: seq<bytes>)
    ensures var (p, ev) := Feed(cfg, k, calls);
            var c := DeliverAll(FRESH, ev);
            p.errno.OK? && InHeaders(p.state) && !p.flags.trailing ==>
              if p.flags.contentLength then p.contentLength < ABSENT && AnyLength(c.fields, p.contentLength)
              else p.contentLength == ABSENT && !AnyLengthLine(Done(p, c))
  {
    hide AnyTe, AnyChunked, AnyLength, AnyLengthLine, OneLengthLine, NameLink, TeLink, LengthLink;
    FeedKeeps(cfg, k, calls);
  }

  /** The bounded fields of the record never leave their range, and the counters that the
      source asserts on are as it asserts. */
  lemma FieldsInRange(cfg: Config, k: Kind, calls: seq<bytes>)
    ensures var (p, _) := Feed(cfg, k, calls);
            p.errno.OK? ==>
              && p.index < 32
              && p.contentLength <= ABSENT
              && p.nread <= cfg.maxHeaderSize
              && (p.state == ResLine(ResStatusCode) ==> p.statusCode <= 999)
              && (p.state == ChunkLine(SizeStart) ==> p.nread == 0)
              && (p.state.ReqMethod? ==> p.index <= |MethodName(p.httpMethod)|)
  {
    hide Link, FieldLink, MethodName;
    FeedKeeps(cfg, k, calls);
  }

  // ---------------------------------------------------------------- the end of the connection

  /** The status codes that never carry a body. */
  predicate NeverBody(code: nat) { code / 100 == 1 || code == 204 || code == 304 }

  /** What the version and the connection flags say about the connection. */
  predicate Persists(p: Parser) { if p.major > 0 && p.minor > 0 then !p.flags.close else p.flags.keepAlive }

  /** The end of input completes a body that was read until then, once; and the application is told
      to keep the connection alive exactly for the status codes that never carry a body, where the
      version and the flags would. */
  lemma EofCompletes(cfg: Config, k: Kind, calls: seq<bytes>)
    ensures var (p, _) := Feed(cfg, k, calls);
            var (q, ev) := Feed(cfg, k, calls + [[]]);
            p.errno.OK? && p.state.BodyIdentityEof? ==>
              && q == p
              && (if Over(cfg, k, calls) then DeliverAll(FRESH, ev).phase.Broken?
                  else DeliverAll(FRESH, ev).phase == Idle(ShouldKeepAlive(p)))
              && (ShouldKeepAlive(p) <==> NeverBody(p.statusCode) && Persists(p))
  {
    hide Good, ShouldKeepAlive, Call, DeliverAll, NeverBody, Persists;
    FeedKeeps(cfg, k, calls);
    var (p, ev) := Feed(cfg, k, calls);
    var next := calls + [[]];
    assert next[..|next| - 1] == calls;
    if p.errno.OK? && p.state.BodyIdentityEof? {
      var c := DeliverAll(FRESH, ev);
      DeliverConcat(FRESH, ev, Call(cfg, p, []).1);
      KeptAliveIff(cfg, p, Until(cfg, k, calls));
      if Over(cfg, k, calls) {
        CallAfterEnd(cfg, p, c, []);
      } else {
        CallKeeps(cfg, p, c, []);
      }
    }
  }

  lemma KeptAliveIff(cfg: Config, p: Parser, c: Client)
    requires Good(cfg, p, c) && p.state.BodyIdentityEof?
    ensures ShouldKeepAlive(p) <==> NeverBody(p.statusCode) && Persists(p)
  {
    hide FieldLink, CountersOk;
  }
}
