/** What becomes of the connection when a message ends, told from the text of its start line and of
    its header lines. */
module HttpPersistence {
  import opened Ascii
  import opened HttpTypes
  import opened HttpMachine
  import opened HttpClient
  import opened HttpFields
  import opened HttpShape
  import opened HttpInvariant
  import opened HttpRuns
  import opened HttpBatch
  import HttpEither
  import opened HttpSplit
  import opened HttpConnection
  import opened HttpTheorems
  import opened HttpTakes
  import opened HttpStartLines
  import opened HttpStatusLines

  // ---------------------------------------------------------------- what a message keeps

  /** The parts of the record that belong to the start line. */
  predicate SameLine(p: Parser, q: Parser) {
    && q.major == p.major && q.minor == p.minor && q.statusCode == p.statusCode
    && q.kind == p.kind && q.httpMethod == p.httpMethod
  }

  lemma SwitchLine(cfg: Config, p: Parser, ch: byte)
    requires Within(p.state)
    ensures var o := Switch(cfg, p, ch); SameLine(p, o.p) && (o.ctl.Again? ==> Within(o.p.state))
  {
    hide SwitchName, SwitchValue, SwitchBody, SwitchChunkLine, SwitchHeadersEnd;
    if p.state.HeaderFieldStart? || p.state.HeaderField? {
      NameLine(p, ch);
    } else if IsValueState(p.state) {
      ValueLine(p, ch);
    } else if IsBodyState(p.state) || p.state.ChunkLine? {
      BodyLine(p, ch);
    } else {
      HeadersEndLine(cfg, p, ch);
    }
  }

  lemma NameLine(p: Parser, ch: byte)
    requires p.state.HeaderFieldStart? || p.state.HeaderField?
    ensures var o := SwitchName(p, ch); SameLine(p, o.p) && (o.ctl.Again? ==> Within(o.p.state))
  {
    hide NameByte, IsToken;
  }

  lemma ValueLine(p: Parser, ch: byte)
    requires IsValueState(p.state)
    ensures var o := SwitchValue(p, ch); SameLine(p, o.p) && (o.ctl.Again? ==> Within(o.p.state))
  {
    hide TeByte, ConnByte, RaiseToken, SetBit5, ConnFirst;
    if p.hstate.Te? {
      TeByteFrame(p, ch, p.nread);
    } else if p.hstate.Conn? {
      ConnByteFrame(p, ch, p.nread);
    }
  }

  lemma BodyLine(p: Parser, ch: byte)
    requires IsBodyState(p.state) || p.state.ChunkLine?
    ensures IsBodyState(p.state) ==>
              var o := SwitchBody(p, ch); SameLine(p, o.p) && (o.ctl.Again? ==> Within(o.p.state))
    ensures p.state.ChunkLine? ==> var o := SwitchChunkLine(p, ch); SameLine(p, o.p) && !o.ctl.Again?
  {
    hide ShouldKeepAlive, Unhex;
  }

  lemma HeadersEndLine(cfg: Config, p: Parser, ch: byte)
    requires p.state.HeadersAlmostDone? || p.state.HeadersDone?
    ensures var o := SwitchHeadersEnd(cfg, p, ch); SameLine(p, o.p) && (o.ctl.Again? ==> Within(o.p.state))
  {
    hide ShouldKeepAlive, NeedsEof, SkipsBody;
  }

  // ---------------------------------------------------------------- the end of a message

  /** Where a message ends it does not need the end of input. */
  predicate OwnEnd(p: Parser) {
    (p.state.MessageDone? || (p.state.HeadersDone? && p.upgrade)) ==> !NeedsEof(p)
  }

  lemma OwnEndKept(cfg: Config, p: Parser, ch: byte)
    requires Core(p) && Within(p.state)
    ensures var o := Switch(cfg, p, ch); o.ctl.Again? ==> OwnEnd(o.p)
  {
    hide SwitchName, SwitchValue, ShouldKeepAlive, NameShape, ValueShape, MethodName, SkipsBody;
    if p.state.HeaderFieldStart? || p.state.HeaderField? {
      NameSettles(p, ch);
    } else if IsValueState(p.state) {
      ValueSettles(p, ch);
    }
  }

  lemma NameSettles(p: Parser, ch: byte)
    requires p.state.HeaderFieldStart? || p.state.HeaderField?
    ensures var o := SwitchName(p, ch); !o.p.state.MessageDone? && !o.p.state.HeadersDone?
  {
    hide NameByte, IsToken;
  }

  lemma ValueSettles(p: Parser, ch: byte)
    requires IsValueState(p.state)
    ensures var o := SwitchValue(p, ch); !o.p.state.MessageDone? && !o.p.state.HeadersDone?
  {
    hide TeByte, ConnByte, RaiseToken, SetBit5, ConnFirst;
    if p.hstate.Te? {
      TeByteFrame(p, ch, p.nread);
    } else if p.hstate.Conn? {
      ConnByteFrame(p, ch, p.nread);
    }
  }

  /** The application is told whether to keep the connection, and the flags are backed by the text. */
  ghost predicate Told(p: Parser, c: Client, fs: seq<HeaderLine>) {
    && c.phase == Idle(Persists(p)) && c.fields == fs
    && (p.flags.keepAlive ==> AnyElement(fs, KEEP_ALIVE)) && (p.flags.close ==> AnyElement(fs, CLOSE))
  }

  /** The pass that ends a message. */
  lemma PassEnds(cfg: Config, p: Parser, c: Client, ch: byte)
    requires Inv(p, c) && ConnInv(p, c) && Entered(p.state, ch) && Within(p.state) && OwnEnd(p)
    ensures var o := Switch(cfg, p, ch);
            !o.ctl.Fail? && !Within(o.p.state) ==> Told(o.p, DeliverAll(c, o.ev), c.fields)
  {
    hide SwitchName, SwitchValue, SwitchChunkLine, Inv, ConnInv, NeedsEof, AnyElement, DeliverAll, KEEP_ALIVE, CLOSE;
    var o := Switch(cfg, p, ch);
    if p.state.HeaderFieldStart? || p.state.HeaderField? {
      NameStays(p, ch);
    } else if IsValueState(p.state) {
      ValueStays(p, ch);
    } else if p.state.ChunkLine? {
      ChunkStays(p, ch);
    } else if !o.ctl.Fail? && !Within(o.p.state) {
      assert p.state.MessageDone? || p.state.HeadersDone?;
      LastPass(cfg, p, ch);
      SwitchKeeps(cfg, p, c, ch);
      InvNotBroken(o.p, DeliverAll(c, o.ev));
      FinishTold(p, c, o);
    }
  }

  lemma InvNotBroken(p: Parser, c: Client)
    requires Inv(p, c)
    ensures !c.phase.Broken?
  {
    hide FieldLink, Core;
    LinkNotBroken(p, c);
  }

  lemma NameStays(p: Parser, ch: byte)
    requires p.state.HeaderFieldStart? || p.state.HeaderField?
    ensures !SwitchName(p, ch).ctl.Fail? ==> Within(SwitchName(p, ch).p.state)
  {
    hide NameByte, IsToken;
  }

  lemma ValueStays(p: Parser, ch: byte)
    requires IsValueState(p.state)
    ensures !SwitchValue(p, ch).ctl.Fail? ==> Within(SwitchValue(p, ch).p.state)
  {
    hide TeByte, ConnByte, RaiseToken, SetBit5, ConnFirst;
    if p.hstate.Te? {
      TeByteFrame(p, ch, p.nread);
    } else if p.hstate.Conn? {
      ConnByteFrame(p, ch, p.nread);
    }
  }

  lemma ChunkStays(p: Parser, ch: byte)
    requires p.state.ChunkLine?
    ensures !SwitchChunkLine(p, ch).ctl.Fail? ==> Within(SwitchChunkLine(p, ch).p.state)
  {
    hide Unhex;
  }

  /** That pass tells one thing, and changes nothing but the state and the budget. */
  lemma LastPass(cfg: Config, p: Parser, ch: byte)
    requires (p.state.MessageDone? || p.state.HeadersDone?) && OwnEnd(p)
    requires Switch(cfg, p, ch).ctl.Next? || Switch(cfg, p, ch).ctl.Stop?
    requires !Within(Switch(cfg, p, ch).p.state)
    ensures var o := Switch(cfg, p, ch);
            && o.p == p.(state := o.p.state, nread := o.p.nread)
            && o.ev == [Complete(Persists(p))]
  {
    hide NeedsEof;
    var o := Switch(cfg, p, ch);
    EofFrame(p, o.p.nread);
    if p.state.HeadersDone? {
      EndsWithout(p.(nread := 0));
    }
  }

  lemma EofFrame(p: Parser, n: nat)
    ensures NeedsEof(p.(nread := n)) == NeedsEof(p) && NeedsEof(p.(nread := 0)) == NeedsEof(p)
  {
  }

  /** A head without a body: no chunks, no coding, and length zero or none called for. */
  lemma EndsWithout(p: Parser)
    ensures p.flags.skipBody ==> !NeedsEof(p)
    ensures !p.flags.chunked && !p.flags.transferEncoding && p.contentLength == 0 ==> !NeedsEof(p)
  {
  }

  lemma FinishTold(p: Parser, c: Client, o: Out)
    requires ConnInv(p, c) && Within(p.state) && !InName(p.state) && !InText(p.state)
    requires o.p == p.(state := o.p.state, nread := o.p.nread) && o.ev == [Complete(Persists(p))]
    requires !DeliverAll(c, o.ev).phase.Broken?
    ensures Told(o.p, DeliverAll(c, o.ev), c.fields)
  {
    hide AnyElement, KEEP_ALIVE, CLOSE, UPGRADE;
    DeliverOne(c, o.ev[0]);
    assert Done(p, c) == c.fields;
  }

  // ---------------------------------------------------------------- one byte, and the run

  /** The passes of one byte of a message: the start line stays recorded, and where the message ends
      the application is told from version and text. */
  lemma {:induction false} ChainTells(cfg: Config, p: Parser, c: Client, ch: byte)
    requires Inv(p, c) && ConnInv(p, c) && Entered(p.state, ch) && Within(p.state) && OwnEnd(p)
    ensures var o := Chain(cfg, p, ch);
            !o.ctl.Fail? ==>
              && SameLine(p, o.p)
              && (!Within(o.p.state) ==> var d := DeliverAll(c, o.ev); Told(o.p, d, d.fields))
    decreases Rank(p.state)
  {
    hide Switch, Link, FieldLink, ConnInv, KindOk, FlagsOk, CountersOk, Told, OwnEnd, DeliverAll;
    var s := Switch(cfg, p, ch);
    SwitchLine(cfg, p, ch);
    OwnEndKept(cfg, p, ch);
    if s.ctl.Again? {
      SwitchConn(cfg, p, c, ch);
      SwitchKeeps(cfg, p, c, ch);
      SwitchEnds(cfg, p, ch);
      AgainLowersRank(cfg, p, ch);
      ChainTells(cfg, s.p, DeliverAll(c, s.ev), ch);
      DeliverConcat(c, s.ev, Chain(cfg, s.p, ch).ev);
    } else {
      PassEnds(cfg, p, c, ch);
      ToldFields(s.p, DeliverAll(c, s.ev), c.fields);
    }
  }

  lemma ToldFields(p: Parser, c: Client, fs: seq<HeaderLine>)
    ensures Told(p, c, fs) ==> Told(p, c, c.fields)
  {
  }

  lemma StepTells(cfg: Config, p: Parser, c: Client, ch: byte)
    requires Good(cfg, p, c) && ConnInv(p, c) && Within(p.state)
    ensures var o := Step(cfg, p, ch);
            !o.ctl.Fail? ==>
              && SameLine(p, o.p)
              && (!Within(o.p.state) ==> var d := DeliverAll(c, o.ev); Told(o.p, d, d.fields))
  {
    hide Chain, Link, FieldLink, CountersOk, FlagsOk, KindOk, ConnInv, Told, DeliverAll;
    var q := Counted(p);
    CountedKeeps(p, c);
    CountedConn(p, c);
    ChainTells(cfg, q, c, ch);
  }

  /** The message that began with the first k bytes goes on at least to byte n. */
  ghost predicate GoesOn(cfg: Config, p: Parser, data: bytes, k: nat, n: nat) {
    && k <= n <= |data|
    && forall i | k <= i <= n :: Run(cfg, p, data, i).ctl.Next? && Within(Run(cfg, p, data, i).p.state)
  }

  lemma {:induction false} LineStays(cfg: Config, p: Parser, c: Client, data: bytes, k: nat, n: nat)
    requires Good(cfg, p, c) && ConnInv(p, c) && GoesOn(cfg, p, data, k, n)
    ensures SameLine(Run(cfg, p, data, k).p, Run(cfg, p, data, n).p)
    decreases n
  {
    hide Run, Good, ConnInv, Within;
    if k < n {
      LineStays(cfg, p, c, data, k, n - 1);
      MessageByte(cfg, p, c, data, n - 1);
      RunNext(cfg, p, data, n - 1);
    }
  }

  /** Byte n of a run that stands within a message. */
  lemma MessageByte(cfg: Config, p: Parser, c: Client, data: bytes, n: nat)
    requires Good(cfg, p, c) && ConnInv(p, c) && n < |data|
    requires Run(cfg, p, data, n).ctl.Next? && Within(Run(cfg, p, data, n).p.state)
    ensures var t, u := Run(cfg, p, data, n), Run(cfg, p, data, n + 1);
            !u.ctl.Fail? ==>
              && SameLine(t.p, u.p)
              && (!Within(u.p.state) ==> var d := DeliverAll(c, u.ev); Told(u.p, d, d.fields))
  {
    hide Run, Good, ConnInv, Within, Step, DeliverAll, Told;
    var t := Run(cfg, p, data, n);
    RunNext(cfg, p, data, n);
    RunKeeps(cfg, p, c, data, n);
    RunConn(cfg, p, c, data, n);
    StepTells(cfg, t.p, DeliverAll(c, t.ev), data[n]);
    DeliverConcat(c, t.ev, Step(cfg, t.p, data[n]).ev);
  }

  /** No Connection line has one of the elements that decide about the connection. */
  ghost predicate Undecided(fs: seq<HeaderLine>) { !AnyElement(fs, KEEP_ALIVE) && !AnyElement(fs, CLOSE) }

  /** The end of a message whose first k bytes were its start line: the connection is kept from
      version 1.1 on, and where no header line has anything to say about it, only then. */
  lemma MessageEnds(cfg: Config, p: Parser, c: Client, data: bytes, k: nat, n: nat)
    requires Good(cfg, p, c) && ConnInv(p, c) && GoesOn(cfg, p, data, k, n) && n < |data|
    requires var u := Run(cfg, p, data, n + 1); !u.ctl.Fail? && !Within(u.p.state)
    ensures var q, d := Run(cfg, p, data, k).p, DeliverAll(c, Run(cfg, p, data, n + 1).ev);
            && d.phase.Idle?
            && (Undecided(d.fields) ==> d.phase == Idle(q.major > 0 && q.minor > 0))
            && (q.major > 0 && q.minor > 0 && !AnyElement(d.fields, CLOSE) ==> d.phase == Idle(true))
            && (!(q.major > 0 && q.minor > 0) && !AnyElement(d.fields, KEEP_ALIVE) ==> d.phase == Idle(false))
  {
    hide Run, Good, ConnInv, Within, DeliverAll, AnyElement, KEEP_ALIVE, CLOSE;
    LineStays(cfg, p, c, data, k, n);
    MessageByte(cfg, p, c, data, n);
  }

  // ---------------------------------------------------------------- from the text

  lemma TakenAt(cfg: Config, p: Parser, line: bytes, q: Parser, ev: seq<Event>, rest: bytes)
    requires Takes(cfg, p, line, q, ev)
    ensures Run(cfg, p, line + rest, |line|).p == q
  {
    hide Run;
    RunPrefix(cfg, p, line, rest, |line|);
  }

  lemma Idling(p: Parser, c: Client)
    requires p.state.StartReq? || p.state.StartRes?
    ensures ConnInv(p, c)
  {
    hide AnyElement;
  }

  /** A request without a Connection line keeps the connection if and only if its line names a version
      with two digits that are not zero. */
  lemma RequestEnds(cfg: Config, p: Parser, c: Client, m: Method, u: bytes, v: Asked, bare: bool, rest: bytes, n: nat)
    requires Good(cfg, p, c) && p.state.StartReq?
    requires u != [] && EndsTarget(UrlScan.Scan(u, m.CONNECT?, |u|)) && IsAsked(v)
    requires p.nread + |RequestLine(m, u, v, bare)| <= cfg.maxHeaderSize
    requires var line := RequestLine(m, u, v, bare);
             GoesOn(cfg, p, line + rest, |line|, n) && n < |line + rest|
             && var t := Run(cfg, p, line + rest, n + 1); !t.ctl.Fail? && !Within(t.p.state)
    ensures var d := DeliverAll(c, Run(cfg, p, RequestLine(m, u, v, bare) + rest, n + 1).ev);
            Undecided(d.fields) ==> d.phase == Idle(v.Asked? && v.a != '0' as int && v.b != '0' as int)
  {
    hide Run, Good, ConnInv, Within, DeliverAll, Undecided, Takes, RequestLine, GoesOn;
    var line, w := RequestLine(m, u, v, bare), HttpTokens.TokenOf(m);
    RequestLineTaken(cfg, p, m, u, v, bare);
    var q := ResetMessage(p).(nread := p.nread + |line|, state := HeaderFieldStart, index := |w| + 1, httpMethod := m,
                              major := Major(v), minor := Minor(v));
    TakenAt(cfg, p, line, q, [Begin] + (HttpTrace.Singles(Url, u, 0, |u|) + [Data(Url, [])]), rest);
    Idling(p, c);
    MessageEnds(cfg, p, c, line + rest, |line|, n);
  }

  /** The same for a response. */
  lemma ResponseEnds(cfg: Config, p: Parser, c: Client, a: byte, b: byte, k: nat, ds: bytes, reason: Reason, bare: bool,
                     rest: bytes, n: nat)
    requires Good(cfg, p, c) && p.state.StartRes?
    requires IsNum(a) && IsNum(b) && ds != [] && AllDigits(ds) && Decimal(ds) <= 999
    requires reason.Reason? ==> IsReason(reason.text)
    requires p.nread + |StatusLine(a, b, k, ds, reason, bare)| <= cfg.maxHeaderSize
    requires var line := StatusLine(a, b, k, ds, reason, bare);
             GoesOn(cfg, p, line + rest, |line|, n) && n < |line + rest|
             && var t := Run(cfg, p, line + rest, n + 1); !t.ctl.Fail? && !Within(t.p.state)
    ensures var d := DeliverAll(c, Run(cfg, p, StatusLine(a, b, k, ds, reason, bare) + rest, n + 1).ev);
            Undecided(d.fields) ==> d.phase == Idle(a != '0' as int && b != '0' as int)
  {
    hide Run, Good, ConnInv, Within, DeliverAll, Undecided, Takes, StatusLine, GoesOn, Decimal;
    var line := StatusLine(a, b, k, ds, reason, bare);
    StatusLineTaken(cfg, p, a, b, k, ds, reason, bare);
    var q := ResetMessage(p).(nread := p.nread + |line|, state := HeaderFieldStart, major := a - '0' as int,
                              minor := b - '0' as int, statusCode := Decimal(ds), index := 0);
    TakenAt(cfg, p, line, q, [Begin] + ReasonEvents(reason), rest);
    Idling(p, c);
    MessageEnds(cfg, p, c, line + rest, |line|, n);
  }

  // ---------------------------------------------------------------- after the last message

  lemma ClosedStep(cfg: Config, p: Parser, b: byte)
    requires p.state.Dead? && p.nread < cfg.maxHeaderSize
    ensures var o, q := Step(cfg, p, b), p.(nread := p.nread + 1);
            if b == CR || b == LF then o == Out(q, [], Next)
            else o.ctl.Fail? && o.p.errno == ClosedConnection && o.ev == []
  {
  }

  lemma {:induction false} ClosedWaits(cfg: Config, p: Parser, data: bytes, n: nat)
    requires p.state.Dead? && n <= HttpEither.Breaks(data) && p.nread + n <= cfg.maxHeaderSize
    ensures Run(cfg, p, data, n) == Trail(p.(nread := p.nread + n), [], Next, n)
    decreases n
  {
    hide Step;
    if n > 0 {
      ClosedWaits(cfg, p, data, n - 1);
      RunNext(cfg, p, data, n - 1);
      ClosedStep(cfg, p.(nread := p.nread + n - 1), data[n - 1]);
    }
  }

  /** After a message that does not keep the connection only line breaks are taken; the first other byte is
      refused, and nothing is told. */
  lemma NothingAfterClose(cfg: Config, p: Parser, data: bytes)
    requires p.state.Dead? && HttpEither.Breaks(data) < |data| && p.nread + HttpEither.Breaks(data) < cfg.maxHeaderSize
    ensures var t := Run(cfg, p, data, |data|);
            t.ctl.Fail? && t.p.errno == ClosedConnection && t.used == HttpEither.Breaks(data) && t.ev == []
  {
    hide Step, Run, HttpEither.Breaks;
    var k := HttpEither.Breaks(data);
    var b := data[k];
    assert b != CR && b != LF;
    ClosedWaits(cfg, p, data, k);
    RunNext(cfg, p, data, k);
    ClosedStep(cfg, p.(nread := p.nread + k), b);
    RunHalted(cfg, p, data, k + 1, |data|);
  }
}
