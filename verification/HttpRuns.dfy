/** From one pass to whole runs: every byte and every call keeps the invariant, the source's
    assertions hold at every pass, and the callbacks follow the message grammar. */
module HttpRuns {
  import opened Ascii
  import opened HttpTypes
  import opened HttpUrlChar
  import opened HttpMachine
  import opened HttpClient
  import opened HttpFields
  import opened HttpShape
  import opened HttpInvariant

  // ---------------------------------------------------------------- one pass

  /** A folded line is entered only on a blank. */
  predicate Entered(s: State, ch: byte) { s.HeaderValueStart? ==> IsBlank(ch) }

  lemma StartLineKeeps(cfg: Config, p: Parser, c: Client, ch: byte)
    requires Inv(p, c) && InStartLine(p.state) && !p.state.ResOrRespH?
    ensures var o := Switch(cfg, p, ch); !o.ctl.Fail? ==> Inv(o.p, DeliverAll(c, o.ev))
  {
    hide SwitchUrl, SwitchMethod, SwitchReqVersion, SwitchStatusLine, FieldLink, MethodName, FlagsOk;
    var o := Switch(cfg, p, ch);
    if !o.ctl.Fail? {
      match p.state {
        case ResLine(_) =>
          StatusLineFrame(p, ch);
          LineKeeps(p, o, c, Status);
        case ReqMethod =>
          MethodFrame(p, ch);
          LineKeeps(p, o, c, Url);
        case ReqUrl(_) =>
          UrlFrame(p, ch);
          LineKeeps(p, o, c, Url);
        case ReqVersion(_) =>
          ReqVersionFrame(p, ch);
          LineKeeps(p, o, c, Url);
      }
    }
  }

  lemma SwitchKeeps(cfg: Config, p: Parser, c: Client, ch: byte)
    requires Inv(p, c) && Entered(p.state, ch)
    ensures var o := Switch(cfg, p, ch); !o.ctl.Fail? ==> Inv(o.p, DeliverAll(c, o.ev))
  {
    hide SwitchName, SwitchValue, SwitchBody, SwitchChunkLine, SwitchHeadersEnd, SwitchUrl, SwitchMethod,
         SwitchReqVersion, SwitchStatusLine, SwitchIdle, Inv;
    if p.state.HeaderFieldStart? {
      FieldStartKeeps(p, c, ch);
    } else if p.state.HeaderField? {
      FieldKeeps(p, c, ch);
    } else if IsValueState(p.state) {
      ValueKeeps(p, c, ch);
    } else if IsBodyState(p.state) {
      BodyKeeps(p, c, ch);
    } else if p.state.ChunkLine? {
      ChunkLineKeeps(p, c, ch);
    } else if p.state.HeadersAlmostDone? {
      AlmostDoneKeeps(cfg, p, c, ch);
    } else if p.state.HeadersDone? {
      HeadersDoneKeeps(cfg, p, c, ch);
    } else if InStartLine(p.state) && !p.state.ResOrRespH? {
      StartLineKeeps(cfg, p, c, ch);
    } else {
      IdleKeeps(p, c, ch);
    }
  }

  /** Which states a pass can leave behind, and what it does to the header budget. */
  predicate PassEnds(p: Parser, o: Out, ch: byte) {
    && (o.ctl.Again? ==> Entered(o.p.state, ch) && o.p.state != ChunkLine(SizeStart))
    && (o.ctl.Next? || o.ctl.Stop? ==> Settled(o.p.state))
    && (o.ctl.Stop? ==> o.p.state.Dead? || o.p.state.StartReq? || o.p.state.StartRes?)
    && (o.p.nread == p.nread || o.p.nread == 0)
    && (o.p.state == ChunkLine(SizeStart) && !o.ctl.Fail? ==> o.p.nread == 0)
    && (o.ctl.Fail? ==> o.ev == [])
    && (o.ctl.Fail? <==> !o.p.errno.OK?)
    && (!o.ctl.Fail? ==> PassBudget(p, o))
  }

  /** The header budget restarts in s_headers_done, which only follows the headers_complete of
      the same byte, and at the end of a chunk line or a chunk. */
  predicate PassBudget(p: Parser, o: Out) {
    && o.p.nread == (if p.state.HeadersDone? || p.state.ChunkDataDone? || p.state == ChunkLine(SizeAlmostDone)
                     then 0 else p.nread)
    && |o.ev| <= 1
    && (o.ev != [] && o.ev[0].HeadersComplete? <==> o.ctl.Again? && o.p.state.HeadersDone?)
    && (o.ev != [] && o.ev[0].ChunkHeader? <==> p.state == ChunkLine(SizeAlmostDone))
    && (o.ctl.Again? ==> !o.p.state.ChunkDataDone? && !o.p.state.ChunkLine?)
  }

  lemma ValueEnds(p: Parser, ch: byte)
    requires p.errno.OK? && IsValueState(p.state)
    ensures PassEnds(p, SwitchValue(p, ch), ch)
  {
    hide TeByte, ConnByte, RaiseToken, ConnFirst, SetBit5;
    if p.state.HeaderValue? && p.hstate.Te? {
      TeByteFrame(p, ch, p.nread);
    } else if p.state.HeaderValue? && p.hstate.Conn? {
      ConnByteFrame(p, ch, p.nread);
    }
  }

  lemma NameEnds(p: Parser, ch: byte)
    requires p.errno.OK? && (p.state.HeaderFieldStart? || p.state.HeaderField?)
    ensures PassEnds(p, SwitchName(p, ch), ch)
  {
    hide NameByte, FirstNameState, IsToken;
  }

  lemma BodyEnds(p: Parser, ch: byte)
    requires p.errno.OK? && IsBodyState(p.state)
    ensures PassEnds(p, SwitchBody(p, ch), ch)
  {
    hide ShouldKeepAlive;
  }

  lemma ChunkLineEnds(p: Parser, ch: byte)
    requires p.errno.OK? && p.state.ChunkLine?
    ensures PassEnds(p, SwitchChunkLine(p, ch), ch)
  {
    hide Unhex;
  }

  lemma HeadersEnds(cfg: Config, p: Parser, ch: byte)
    requires p.errno.OK? && (p.state.HeadersAlmostDone? || p.state.HeadersDone?)
    ensures PassEnds(p, SwitchHeadersEnd(cfg, p, ch), ch)
  {
    hide AfterHeaders, SkipsBody, ShouldKeepAlive, NeedsEof;
    AfterHeadersFrame(cfg, p);
  }

  lemma UrlEnds(p: Parser, ch: byte)
    requires p.errno.OK? && p.state.ReqUrl?
    ensures PassEnds(p, SwitchUrl(p, ch), ch)
  {
    hide ParseUrlChar;
  }

  lemma MethodEnds(p: Parser, ch: byte)
    requires p.errno.OK? && p.state.ReqMethod?
    ensures PassEnds(p, SwitchMethod(p, ch), ch)
  {
    hide NextMethod, MethodName;
  }

  lemma VersionEnds(p: Parser, ch: byte)
    requires p.errno.OK? && p.state.ReqVersion?
    ensures PassEnds(p, SwitchReqVersion(p, ch), ch)
  {
  }

  lemma StatusEnds(p: Parser, ch: byte)
    requires p.errno.OK? && p.state.ResLine?
    ensures PassEnds(p, SwitchStatusLine(p, ch), ch)
  {
  }

  lemma IdleEnds(p: Parser, ch: byte)
    requires p.errno.OK? && IdleState(p.state)
    ensures PassEnds(p, SwitchIdle(p, ch), ch)
  {
    hide FirstMethod;
  }

  lemma SwitchEnds(cfg: Config, p: Parser, ch: byte)
    requires p.errno.OK?
    ensures PassEnds(p, Switch(cfg, p, ch), ch)
  {
    hide SwitchName, SwitchValue, SwitchBody, SwitchChunkLine, SwitchHeadersEnd, SwitchUrl, SwitchMethod,
         SwitchReqVersion, SwitchStatusLine, SwitchIdle, PassEnds;
    if p.state.HeaderFieldStart? || p.state.HeaderField? {
      NameEnds(p, ch);
    } else if IsValueState(p.state) {
      ValueEnds(p, ch);
    } else if IsBodyState(p.state) {
      BodyEnds(p, ch);
    } else if p.state.ChunkLine? {
      ChunkLineEnds(p, ch);
    } else if p.state.HeadersAlmostDone? || p.state.HeadersDone? {
      HeadersEnds(cfg, p, ch);
    } else {
      match p.state {
        case ReqUrl(_) => UrlEnds(p, ch);
        case ReqMethod => MethodEnds(p, ch);
        case ReqVersion(_) => VersionEnds(p, ch);
        case ResLine(_) => StatusEnds(p, ch);
        case _ => IdleEnds(p, ch);
      }
    }
  }

  // ---------------------------------------------------------------- one byte

  lemma LinkNotBroken(p: Parser, c: Client)
    requires Link(p, c)
    ensures !c.phase.Broken?
  {
  }

  /** The chain of passes over one byte: the invariant where it ends, the grammar even where
      it fails. */
  lemma {:induction false} ChainKeeps(cfg: Config, p: Parser, c: Client, ch: byte)
    requires Inv(p, c) && Entered(p.state, ch)
    ensures var o := Chain(cfg, p, ch); var d := DeliverAll(c, o.ev);
            && !d.phase.Broken?
            && !o.ctl.Again?
            && (o.ctl.Fail? <==> !o.p.errno.OK?)
            && (!o.ctl.Fail? ==> Inv(o.p, d) && Settled(o.p.state))
            && (o.p.nread == p.nread || o.p.nread == 0)
            && (!o.ctl.Fail? && o.p.state == ChunkLine(SizeStart) ==> o.p.nread == 0)
    decreases Rank(p.state)
  {
    hide Switch, Link, FieldLink, CountersOk, FlagsOk, KindOk;
    var s := Switch(cfg, p, ch);
    SwitchKeeps(cfg, p, c, ch);
    SwitchEnds(cfg, p, ch);
    LinkNotBroken(p, c);
    if s.ctl.Again? {
      AgainLowersRank(cfg, p, ch);
      ChainKeeps(cfg, s.p, DeliverAll(c, s.ev), ch);
      DeliverConcat(c, s.ev, Chain(cfg, s.p, ch).ev);
    } else if !s.ctl.Fail? {
      LinkNotBroken(s.p, DeliverAll(c, s.ev));
    }
  }

  /** The assertions of the source hold at every pass that one byte makes. */
  predicate AssertsAlong(cfg: Config, p: Parser, ch: byte)
    decreases Rank(p.state)
  {
    AgainLowersRank(cfg, p, ch);
    Asserts(p) && (Switch(cfg, p, ch).ctl.Again? ==> AssertsAlong(cfg, Switch(cfg, p, ch).p, ch))
  }

  lemma {:induction false} ChainAsserts(cfg: Config, p: Parser, c: Client, ch: byte)
    requires Inv(p, c) && Entered(p.state, ch)
    requires p.state == ChunkLine(SizeStart) ==> p.nread == 1
    ensures AssertsAlong(cfg, p, ch)
    decreases Rank(p.state)
  {
    hide Switch, Link, FieldLink;
    AgainLowersRank(cfg, p, ch);
    SwitchKeeps(cfg, p, c, ch);
    SwitchEnds(cfg, p, ch);
    var s := Switch(cfg, p, ch);
    if s.ctl.Again? {
      ChainAsserts(cfg, s.p, DeliverAll(c, s.ev), ch);
    }
  }

  /** The parser record after COUNT_HEADER_SIZE(1). */
  function Counted(p: Parser): Parser {
    if ParsingHeader(p.state) then p.(nread := p.nread + 1) else p
  }

  ghost predicate Good(cfg: Config, p: Parser, c: Client) { Shape(cfg, p) && Inv(p, c) }

  lemma CountedKeeps(p: Parser, c: Client)
    requires Inv(p, c)
    ensures Inv(Counted(p), c)
  {
    hide NameState, LowerAll, AnyTe, AnyChunked, AnyLength, AnyLengthLine, OneLengthLine, LengthText, DeclaresLength,
         NameShape, ValueShape, CHUNKED, TRANSFER_ENCODING, CONTENT_LENGTH, MethodName, Current, TrimRight;
  }

  /** Every byte of an error-free run keeps the invariant; its callbacks fit the grammar and
      no assertion of the source fails on the way. */
  lemma StepKeeps(cfg: Config, p: Parser, c: Client, ch: byte)
    requires Good(cfg, p, c)
    ensures var o := Step(cfg, p, ch); var d := DeliverAll(c, o.ev);
            && !d.phase.Broken?
            && !o.ctl.Again?
            && (o.ctl.Fail? <==> !o.p.errno.OK?)
            && (!o.ctl.Fail? ==> Good(cfg, o.p, d))
    ensures Counted(p).nread <= cfg.maxHeaderSize ==> AssertsAlong(cfg, Counted(p), ch)
  {
    hide Switch, Link, FieldLink, CountersOk, FlagsOk, KindOk, Chain, AssertsAlong;
    LinkNotBroken(p, c);
    CountedKeeps(p, c);
    ChainKeeps(cfg, Counted(p), c, ch);
    ChainAsserts(cfg, Counted(p), c, ch);
  }

  // ---------------------------------------------------------------- whole runs

  lemma {:induction false} RunKeeps(cfg: Config, p: Parser, c: Client, data: bytes, n: nat)
    requires Good(cfg, p, c) && n <= |data|
    ensures var t := Run(cfg, p, data, n); var d := DeliverAll(c, t.ev);
            && !d.phase.Broken?
            && !t.ctl.Again?
            && (t.ctl.Fail? <==> !t.p.errno.OK?)
            && (!t.ctl.Fail? ==> Good(cfg, t.p, d))
    decreases n
  {
    hide Step, Link, FieldLink, CountersOk, FlagsOk, KindOk;
    if n == 0 {
      LinkNotBroken(p, c);
    } else {
      RunKeeps(cfg, p, c, data, n - 1);
      var t := Run(cfg, p, data, n - 1);
      if t.ctl.Next? {
        StepKeeps(cfg, t.p, DeliverAll(c, t.ev), data[n - 1]);
        DeliverConcat(c, t.ev, Step(cfg, t.p, data[n - 1]).ev);
      }
    }
  }

  lemma InitGood(cfg: Config, k: Kind)
    ensures Good(cfg, Init(k), FRESH)
  {
    hide NameState, LowerAll, AnyTe, AnyChunked, AnyLength, AnyLengthLine, OneLengthLine, LengthText, DeclaresLength,
         NameShape, ValueShape;
  }
}
