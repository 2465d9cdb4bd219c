/** The text callbacks of one byte: a byte joins the run that its state keeps open, or closes
    it before anything else is reported. This is what makes at most one mark live. */
module HttpMarks {
  import opened Ascii
  import opened HttpTypes
  import opened HttpUrlChar
  import opened HttpMachine
  import opened HttpShape
  import opened HttpInvariant
  import opened HttpRuns

  /** The run of text a state keeps open between bytes. */
  datatype Open = Shut | Open(piece: Piece)

  function OpenIn(s: State): Open {
    match s
    case HeaderField => Open(Field)
    case HeaderValue => Open(Value)
    case ReqUrl(u) => if u.SpacesBeforeUrl? then Shut else Open(Url)
    case ResLine(r) => if r.ResStatus? then Open(Status) else Shut
    case _ => Shut
  }

  /** Inside a byte, an empty status line is closed without having been opened. */
  predicate Fits(open: Open, s: State) {
    open == OpenIn(s) || (s == ResLine(ResStatus) && open.Shut?)
  }

  /** The states whose bytes are body text. */
  predicate TakesBody(s: State) { s.BodyIdentity? || s.BodyIdentityEof? || s.ChunkData? }

  /** The callbacks `ev` of a byte `ch` that starts with run `open` and ends with run `end`:
      runs are closed before other callbacks, and the byte joins a run only at the very end. */
  predicate WellTold(open: Open, ev: seq<Event>, ch: byte, end: Open)
    decreases |ev|
  {
    if ev == [] then open.Shut? && end.Shut?
    else if ev[0].Data? then
      && (open.Shut? || open.piece == ev[0].piece)
      && (if ev[0].text == [] then WellTold(Shut, ev[1..], ch, end)
          else ev[0].text == [ch] && |ev| == 1 && end == Open(ev[0].piece))
    else open.Shut? && WellTold(Shut, ev[1..], ch, end)
  }

  /** The callbacks of a byte that fails: it closes runs and notifies, and takes no byte. */
  predicate FailTold(open: Open, ev: seq<Event>)
    decreases |ev|
  {
    ev == [] ||
    (if ev[0].Data? then (open.Shut? || open.piece == ev[0].piece) && ev[0].text == [] && FailTold(Shut, ev[1..])
     else open.Shut? && FailTold(Shut, ev[1..]))
  }

  /** A single pass, whose callbacks are at most one. */
  predicate PassTold(open: Open, o: Out, ch: byte) {
    && |o.ev| <= 1
    && (o.ev != [] && o.ev[0].Data? ==> open.Shut? || open.piece == o.ev[0].piece)
    && (o.ev != [] && !o.ev[0].Data? ==> open.Shut?)
    && (o.ev == [] && !o.ctl.Again? ==> open.Shut?)
    && (o.ctl.Again? ==> !TakesBody(o.p.state)
                         && (if o.ev != [] && o.ev[0].Data? then o.ev[0].text == [] && Fits(Shut, o.p.state)
                             else Fits(open, o.p.state)))
    && (o.ctl.Again? && o.p.state == ResLine(ResStatus) ==> ch == CR || ch == LF)
    && (!o.ctl.Again? ==>
          if o.ev != [] && o.ev[0].Data? && o.ev[0].text != []
          then o.ev[0].text == [ch] && OpenIn(o.p.state) == Open(o.ev[0].piece)
          else OpenIn(o.p.state).Shut?)
  }

  lemma ValueTold(p: Parser, ch: byte, open: Open)
    requires IsValueState(p.state) && Fits(open, p.state)
    ensures var o := SwitchValue(p, ch); !o.ctl.Fail? ==> PassTold(open, o, ch)
  {
    hide TeByte, ConnByte, RaiseToken, ConnFirst, SetBit5;
    if p.state.HeaderValue? && p.hstate.Te? {
      TeByteFrame(p, ch, p.nread);
    } else if p.state.HeaderValue? && p.hstate.Conn? {
      ConnByteFrame(p, ch, p.nread);
    }
  }

  lemma NameTold(p: Parser, ch: byte, open: Open)
    requires (p.state.HeaderFieldStart? || p.state.HeaderField?) && Fits(open, p.state)
    ensures var o := SwitchName(p, ch); !o.ctl.Fail? ==> PassTold(open, o, ch)
  {
    hide NameByte, FirstNameState, IsToken;
  }

  lemma BodyTold(p: Parser, ch: byte, open: Open)
    requires (IsBodyState(p.state) || p.state.ChunkLine?) && !TakesBody(p.state) && Fits(open, p.state)
    ensures p.state.ChunkLine? ==> var o := SwitchChunkLine(p, ch); !o.ctl.Fail? ==> PassTold(open, o, ch)
    ensures IsBodyState(p.state) ==> var o := SwitchBody(p, ch); !o.ctl.Fail? ==> PassTold(open, o, ch)
  {
    hide ShouldKeepAlive, Unhex;
  }

  lemma HeadersEndTold(cfg: Config, p: Parser, ch: byte, open: Open)
    requires (p.state.HeadersAlmostDone? || p.state.HeadersDone?) && Fits(open, p.state)
    ensures var o := SwitchHeadersEnd(cfg, p, ch); !o.ctl.Fail? ==> PassTold(open, o, ch)
  {
    hide AfterHeaders, SkipsBody, ShouldKeepAlive, NeedsEof;
    AfterHeadersFrame(cfg, p);
  }

  lemma RequestLineTold(p: Parser, ch: byte, open: Open)
    requires Fits(open, p.state)
    ensures p.state.ReqUrl? ==> var o := SwitchUrl(p, ch); !o.ctl.Fail? ==> PassTold(open, o, ch)
    ensures p.state.ReqMethod? ==> var o := SwitchMethod(p, ch); !o.ctl.Fail? ==> PassTold(open, o, ch)
    ensures p.state.ReqVersion? ==> var o := SwitchReqVersion(p, ch); !o.ctl.Fail? ==> PassTold(open, o, ch)
  {
    hide ParseUrlChar, NextMethod, MethodName;
  }

  lemma StatusLineTold(p: Parser, ch: byte, open: Open)
    requires p.state.ResLine? && Fits(open, p.state)
    requires p.state == ResLine(ResStatus) && open.Shut? ==> ch == CR || ch == LF
    ensures var o := SwitchStatusLine(p, ch);
            !o.ctl.Fail? ==> PassTold(open, o, ch)
  {
  }

  lemma IdleTold(p: Parser, ch: byte, open: Open)
    requires IdleState(p.state) && Fits(open, p.state)
    ensures var o := SwitchIdle(p, ch); !o.ctl.Fail? ==> PassTold(open, o, ch)
  {
    hide FirstMethod;
  }

  /** The empty status line arises only at a line end. */
  predicate Closing(open: Open, s: State, ch: byte) {
    s == ResLine(ResStatus) && open.Shut? ==> ch == CR || ch == LF
  }

  lemma SwitchTold(cfg: Config, p: Parser, ch: byte, open: Open)
    requires !TakesBody(p.state) && Fits(open, p.state) && Closing(open, p.state, ch)
    ensures var o := Switch(cfg, p, ch);
            !o.ctl.Fail? ==> PassTold(open, o, ch)
  {
    hide SwitchName, SwitchValue, SwitchBody, SwitchChunkLine, SwitchHeadersEnd, SwitchUrl, SwitchMethod,
         SwitchReqVersion, SwitchStatusLine, SwitchIdle, PassTold, Fits;
    if p.state.HeaderFieldStart? || p.state.HeaderField? {
      NameTold(p, ch, open);
    } else if IsValueState(p.state) {
      ValueTold(p, ch, open);
    } else if IsBodyState(p.state) || p.state.ChunkLine? {
      BodyTold(p, ch, open);
    } else if p.state.HeadersAlmostDone? || p.state.HeadersDone? {
      HeadersEndTold(cfg, p, ch, open);
    } else if p.state.ResLine? {
      StatusLineTold(p, ch, open);
    } else if InRequestLine(p.state) {
      RequestLineTold(p, ch, open);
    } else {
      IdleTold(p, ch, open);
    }
  }

  lemma {:induction false} ChainTold(cfg: Config, p: Parser, ch: byte, open: Open)
    requires p.errno.OK? && !TakesBody(p.state) && Fits(open, p.state) && Closing(open, p.state, ch)
    ensures var o := Chain(cfg, p, ch);
            if o.ctl.Fail? then FailTold(open, o.ev) else WellTold(open, o.ev, ch, OpenIn(o.p.state))
    decreases Rank(p.state)
  {
    hide Switch, PassBudget;
    var s := Switch(cfg, p, ch);
    SwitchTold(cfg, p, ch, open);
    SwitchEnds(cfg, p, ch);
    if s.ctl.Again? {
      AgainLowersRank(cfg, p, ch);
      var r := Chain(cfg, s.p, ch);
      if s.ev == [] {
        ChainTold(cfg, s.p, ch, open);
        assert s.ev + r.ev == r.ev;
      } else {
        assert (s.ev + r.ev)[1..] == r.ev;
        ChainTold(cfg, s.p, ch, Shut);
      }
    } else if !s.ctl.Fail? && s.ev != [] {
      assert s.ev[1..] == [];
    }
  }
}
