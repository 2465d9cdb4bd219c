/** `http_parser_execute` as it works on a buffer: the parser's fields updated in place, marks
    that open runs of text, callbacks that deliver whole runs, and batch loops for header
    names, header values and bodies. */
module HttpExecute {
  import opened Ascii
  import opened HttpTypes
  import opened HttpMachine
  import opened HttpTrace
  import opened HttpClient
  import opened HttpShape
  import opened HttpInvariant
  import opened HttpRuns
  import opened HttpMarks
  import opened HttpBatch
  import opened HttpFeed

  function OpenOf(live: Live): Open {
    if live.NoRun? then Shut else Open(live.piece)
  }

  /** Which mark is live between two bytes of a buffer, at position i. */
  predicate LiveFits(live: Live, s: State, i: nat) {
    if OpenIn(s).Open? then
      live.From? && live.piece == OpenIn(s).piece && (live.start < i || (live.start == 0 && i == 0))
    else
      live.From? ==> live.piece == Body && live.start < i && (TakesBody(s) || s.ChunkDataAlmostDone?)
  }

  /** CALLBACK_DATA: delivers the marked run, if there is one. */
  method CallbackData(data: bytes, i: nat, k: Piece, marks: map<Piece, nat>, log: seq<Event>)
    returns (marks': map<Piece, nat>, log': seq<Event>)
    requires i <= |data| && (k in marks ==> marks[k] <= i)
    ensures k in marks ==> log' == log + [Data(k, data[marks[k]..i])] && marks' == marks - {k}
    ensures k !in marks ==> log' == log && marks' == marks
  {
    marks', log' := marks, log;
    if k in marks {
      log' := log + [Data(k, data[marks[k]..i])];
      marks' := marks - {k};
    }
  }

  /** Carries out the callbacks of one byte at position i: a one-byte piece sets its mark, an
      empty piece closes the run, anything else is a notification. A byte that `fails` closes runs
      and notifies, and joins none. */
  method Callbacks(data: bytes, i: nat, ev: seq<Event>, marks: map<Piece, nat>, log: seq<Event>,
                   ghost live: Live, ghost told: seq<Event>, ghost end: Open, ghost fails: bool)
    returns (marks': map<Piece, nat>, log': seq<Event>, ghost live': Live)
    requires i < |data| && marks == Marks(live) && Tells(log, live, data, i, told)
    requires live.From? ==> live.start <= i
    requires if fails then FailTold(OpenOf(live), ev) else WellTold(OpenOf(live), ev, data[i], end)
    ensures marks' == Marks(live') && (live'.From? ==> live'.start <= i)
    ensures Tells(log', live', data, if fails then i else i + 1, told + ev)
    ensures !fails ==> OpenOf(live') == end
  {
    hide Tells;
    marks', log', live' := marks, log, live;
    var m := 0;
    ghost var taken := false;
    assert told + ev[..0] == told && ev[0..] == ev;
    while m < |ev|
      invariant 0 <= m <= |ev|
      invariant marks' == Marks(live') && (live'.From? ==> live'.start <= i)
      invariant !taken ==> Tells(log', live', data, i, told + ev[..m])
      invariant !taken ==> if fails then FailTold(OpenOf(live'), ev[m..])
                           else WellTold(OpenOf(live'), ev[m..], data[i], end)
      invariant taken ==> !fails && m == |ev| && OpenOf(live') == end
      invariant taken ==> Tells(log', live', data, i + 1, told + ev)
    {
      var e := ev[m];
      assert ev[m..][0] == e && ev[m..][1..] == ev[m + 1..];
      assert told + ev[..m + 1] == told + ev[..m] + [e];
      if e.Data? {
        if e.piece !in marks' {
          marks' := marks'[e.piece := i];
        }
        if e.text == [] {
          CloseRun(log', live', data, i, told + ev[..m], e.piece);
          marks', log' := CallbackData(data, i, e.piece, marks', log');
          live' := NoRun;
        } else {
          TakeByte(log', live', data, i, told + ev[..m], e.piece);
          live' := HttpTrace.Mark(live', e.piece, i);
          taken := true;
          assert ev[..m + 1] == ev;
        }
      } else {
        Notify(log', data, i, told + ev[..m], e);
        log' := log' + [e];
      }
      m := m + 1;
    }
    assert ev[..|ev|] == ev;
    if !taken && !fails {
      Advance(log', data, i, i + 1, told + ev);
    }
  }

  datatype Progress = Continue | Stopped | Failed

  /** Where a buffer stands after its first i bytes: the fields are those of the bytewise run,
      and the callbacks made so far, with the pending text, tell what it tells. */
  ghost predicate At(cfg: Config, p0: Parser, data: bytes, i: nat, p: Parser, log: seq<Event>, live: Live) {
    && i <= |data|
    && var t := Run(cfg, p0, data, i);
    && t.ctl.Next? && t.used == i && t.p == p && p.errno.OK?
    && Tells(log, live, data, i, t.ev)
    && LiveFits(live, p.state, i)
  }

  /** At the top of the loop, after the header budget has been charged for byte i. */
  ghost predicate Entering(cfg: Config, p0: Parser, data: bytes, i: nat, p: Parser, log: seq<Event>, live: Live) {
    && i < |data|
    && var t := Run(cfg, p0, data, i);
    && At(cfg, p0, data, i, t.p, log, live)
    && p == Counted(t.p) && p.nread <= cfg.maxHeaderSize
  }

  /** The bytewise run over the buffer fails; and unless it spends the header budget, it fails at
      byte i, with error e, and has told what the callbacks made and the pending text tell. */
  ghost predicate FailsLike(cfg: Config, p0: Parser, data: bytes, i: nat, e: Errno, log: seq<Event>) {
    var t := Run(cfg, p0, data, |data|);
    && t.ctl.Fail?
    && (t.p.errno.HeaderOverflow?
        || (t.p.errno == e && t.used == i && exists live :: Tells(log, live, data, i, t.ev)))
  }

  /** What a part of the loop that ends at byte i leaves, for an application that stood at c when
      the buffer began. */
  ghost predicate Outcome(cfg: Config, c: Client, p0: Parser, data: bytes, i: nat, p: Parser, log: seq<Event>,
                          live: Live, pr: Progress)
  {
    match pr
    case Continue => At(cfg, p0, data, i, p, log, live)
    case Stopped =>
      var t := Run(cfg, p0, data, |data|);
      t.ctl.Stop? && t.p == p && t.used == i && p.errno.OK? && Joined(log) == Joined(t.ev)
    case Failed =>
      !p.errno.OK? && FailsLike(cfg, p0, data, i, p.errno, log) && !DeliverAll(c, log).phase.Broken?
  }

  /** Callbacks that tell what the run tells after n bytes follow the grammar. */
  lemma ToldFine(cfg: Config, c: Client, p0: Parser, data: bytes, n: nat, log: seq<Event>, live: Live, i: nat)
    requires Good(cfg, p0, c) && n <= |data| && Tells(log, live, data, i, Run(cfg, p0, data, n).ev)
    ensures !DeliverAll(c, log).phase.Broken?
  {
    hide Tells, Run, Good, DeliverAll;
    RunKeeps(cfg, p0, c, data, n);
    TellsNotBroken(c, log, live, data, i, Run(cfg, p0, data, n).ev);
  }

  /** So do callbacks that tell the text of a value past the byte that spends the header budget. */
  lemma ValueFine(cfg: Config, c: Client, p0: Parser, data: bytes, i: nat, k: nat, log: seq<Event>)
    requires Good(cfg, p0, c) && i <= k <= |data|
    requires var t := Run(cfg, p0, data, i);
             && t.ctl.Next? && t.p.state.HeaderValue?
             && Tells(log, NoRun, data, k, t.ev + Singles(Value, data, i, k) + [Data(Value, [])])
    ensures !DeliverAll(c, log).phase.Broken?
  {
    hide Tells, Run, Core, FieldLink, Shape, DeliverAll;
    var t := Run(cfg, p0, data, i);
    RunKeeps(cfg, p0, c, data, i);
    var d := DeliverAll(c, t.ev);
    ValueGoesOn(d, data, i, k);
    DeliverConcat(c, t.ev, Singles(Value, data, i, k));
    DeliverConcat(c, t.ev + Singles(Value, data, i, k), [Data(Value, [])]);
    DeliverOne(DeliverAll(d, Singles(Value, data, i, k)), Data(Value, []));
    TellsNotBroken(c, log, NoRun, data, k, t.ev + Singles(Value, data, i, k) + [Data(Value, [])]);
  }

  lemma StepIsChain(cfg: Config, p: Parser, ch: byte)
    requires Counted(p).nread <= cfg.maxHeaderSize
    ensures Step(cfg, p, ch) == Chain(cfg, Counted(p), ch)
  {
    hide Chain;
  }

  lemma {:induction false} ChainErrno(cfg: Config, p: Parser, ch: byte)
    requires p.errno.OK?
    ensures var o := Chain(cfg, p, ch);
            && !o.ctl.Again?
            && (o.ctl.Fail? <==> !o.p.errno.OK?)
            && (o.ctl.Stop? ==> OpenIn(o.p.state).Shut?)
    decreases Rank(p.state)
  {
    hide Switch;
    SwitchEnds(cfg, p, ch);
    AgainLowersRank(cfg, p, ch);
    if Switch(cfg, p, ch).ctl.Again? {
      ChainErrno(cfg, Switch(cfg, p, ch).p, ch);
    }
  }

  /** The application: where the callbacks so far have brought it, where it stood before the end of
      input that completed a body read until then, and whether that end has come. */
  datatype Hearing = Hearing(client: Client, until: Client, ended: bool)

  /** While no error is reported the fields are in the invariant with the application as it stood
      before that end; and until that end the callbacks follow the grammar, errors included. */
  ghost predicate Sound(cfg: Config, p: Parser, h: Hearing) {
    && (p.errno.OK? ==> Good(cfg, p, h.until))
    && (!h.ended ==> !h.client.phase.Broken? && (p.errno.OK? ==> h.client == h.until))
    && (h.ended ==> p.errno.OK? && p.state.BodyIdentityEof? && (h.client.phase.Idle? || h.client.phase.Broken?))
  }

  /** What a call on fields p0 that makes the callbacks log adds. */
  ghost function Hear(h: Hearing, p0: Parser, data: bytes, log: seq<Event>): Hearing {
    var client := DeliverAll(h.client, log);
    var ended := h.ended || Ends(p0, data);
    Hearing(client, if ended then h.until else client, ended)
  }

  lemma CallSound(cfg: Config, p0: Parser, h: Hearing, data: bytes, p: Parser, n: nat, log: seq<Event>)
    requires Sound(cfg, p0, h) && p0.errno.OK?
    requires data == [] ==> p == AtEof(p0).p && log == AtEof(p0).ev
    requires data != [] ==> LikeRun(cfg, p0, data, p, n, log)
    requires data != [] && !p.errno.OK? ==> !DeliverAll(h.until, log).phase.Broken?
    ensures var h' := Hear(h, p0, data, log);
            Sound(cfg, p, h') && (h'.client.phase.Broken? <==> h.ended)
  {
    hide Run, Good, LikeRun, DeliverAll, AtEof;
    if data != [] {
      DeliverLikeRun(cfg, p0, data, p, n, log, h.client);
      RunKeeps(cfg, p0, h.until, data, |data|);
    }
    if h.ended {
      CallAfterEnd(cfg, p0, h.client, data);
    } else {
      CallKeeps(cfg, p0, h.client, data);
    }
  }

  class HttpParser {
    const cfg: Config
    var kind: Kind
    var flags: Flags
    var state: State
    var hstate: HState
    var index: nat
    var nread: nat
    var contentLength: nat
    var major: nat
    var minor: nat
    var statusCode: nat
    var httpMethod: Method
    var errno: Errno
    var upgrade: bool
    /** What the application has heard. */
    ghost var heard: Hearing

    function View(): Parser
      reads this
    {
      Parser(kind, flags, state, hstate, index, nread, contentLength, major, minor, statusCode, httpMethod, errno,
             upgrade)
    }

    ghost predicate Valid()
      reads this
    {
      Sound(cfg, View(), heard)
    }

    /** http_parser_init. */
    constructor (cfg: Config, k: Kind)
      ensures Valid() && this.cfg == cfg && View() == Init(k) && heard == Hearing(FRESH, FRESH, false)
    {
      this.cfg := cfg;
      var p := Init(k);
      kind, flags, state, hstate, index, nread := p.kind, p.flags, p.state, p.hstate, p.index, p.nread;
      contentLength, major, minor, statusCode := p.contentLength, p.major, p.minor, p.statusCode;
      httpMethod, errno, upgrade := p.httpMethod, p.errno, p.upgrade;
      heard := Hearing(FRESH, FRESH, false);
      new;
      InitGood(cfg, k);
    }

    method Load(p: Parser)
      modifies this
      ensures View() == p && heard == old(heard)
    {
      kind, flags, state, hstate, index, nread := p.kind, p.flags, p.state, p.hstate, p.index, p.nread;
      contentLength, major, minor, statusCode := p.contentLength, p.major, p.minor, p.statusCode;
      httpMethod, errno, upgrade := p.httpMethod, p.errno, p.upgrade;
    }

    /** The cases of the switch that consume one byte. */
    method Byte(data: bytes, i: nat, marks: map<Piece, nat>, log: seq<Event>, ghost p0: Parser, ghost live: Live)
      returns (j: nat, marks': map<Piece, nat>, log': seq<Event>, pr: Progress, ghost live': Live)
      requires Entering(cfg, p0, data, i, View(), log, live) && marks == Marks(live)
      requires !TakesBody(state)
      requires Good(cfg, p0, heard.until)
      modifies this
      ensures heard == old(heard) && marks' == Marks(live') && j == (if pr.Failed? then i else i + 1)
      ensures Outcome(cfg, heard.until, p0, data, j, View(), log', live', pr)
    {
      hide Tells, Chain, Core, WellTold, FailTold, Step, Good, DeliverAll, Run;
      marks', log', live' := marks, log, live;
      var ch := data[i];
      var o := Chain(cfg, View(), ch);
      ghost var t := Run(cfg, p0, data, i);
      StepIsChain(cfg, t.p, ch);
      ChainErrno(cfg, View(), ch);
      RunNext(cfg, p0, data, i);
      if Body in marks && !o.ctl.Fail? {
        FlushRun(log', live', data, i, t.ev);
        marks', log' := CallbackData(data, i, Body, marks', log');
        live' := NoRun;
      }
      if Body in marks' {
        ChainFailsEmpty(cfg, Counted(t.p), ch, OpenOf(live'));
      } else {
        ChainTold(cfg, Counted(t.p), ch, OpenOf(live'));
      }
      marks', log', live' := Callbacks(data, i, o.ev, marks', log', live', t.ev, OpenIn(o.p.state), o.ctl.Fail?);
      Load(o.p);
      if !o.ctl.Next? {
        RunHalted(cfg, p0, data, i + 1, |data|);
      }
      if o.ctl.Fail? {
        ToldFine(cfg, heard.until, p0, data, |data|, log', live', i);
        j, pr := i, Failed;
      } else if o.ctl.Stop? {
        AllTold(log', data, i + 1, t.ev + o.ev);
        j, pr := i + 1, Stopped;
      } else {
        j, pr := i + 1, Continue;
      }
    }

    /** COUNT_HEADER_SIZE(v); fails when the budget is exceeded. */
    method CountHeaderSize(v: nat) returns (ok: bool)
      modifies this`nread, this`errno
      ensures nread == old(nread) + v && ok == (nread <= cfg.maxHeaderSize)
      ensures errno == if ok then old(errno) else HeaderOverflow
    {
      nread := nread + v;
      ok := nread <= cfg.maxHeaderSize;
      if !ok {
        errno := HeaderOverflow;
      }
    }

    /** The loop of s_header_field over token bytes, with its shortcut for names that match
        nothing; it does not touch the header budget. */
    method ScanName(data: bytes, i: nat, ghost p0: Parser, ghost before: nat) returns (k: nat)
      requires i < |data| && state.HeaderField? && Scanned(cfg, p0, data, i, i, before, View(), Field)
      modifies this`hstate, this`index, this`flags
      ensures i <= k <= |data| && (k < |data| ==> !IsToken(data[k]))
      ensures Scanned(cfg, p0, data, i, k, before, View(), Field)
    {
      hide Scanned, IsToken, NameByte;
      k := i;
      while k < |data| && IsToken(data[k])
        invariant i <= k <= |data| && state.HeaderField?
        invariant Scanned(cfg, p0, data, i, k, before, View(), Field)
        decreases |data| - k
      {
        if hstate.General? {
          var pe := k + (if |data| - k < cfg.maxHeaderSize then |data| - k else cfg.maxHeaderSize);
          while k + 1 < pe && IsToken(data[k + 1])
            invariant i <= k < |data| && pe <= |data| && IsToken(data[k]) && hstate.General? && state.HeaderField?
            invariant Scanned(cfg, p0, data, i, k, before, View(), Field)
          {
            GeneralName(View(), data[k]);
            ScannedName(cfg, p0, data, i, k, before, View());
            k := k + 1;
          }
          GeneralName(View(), data[k]);
          ScannedName(cfg, p0, data, i, k, before, View());
        } else {
          ScannedName(cfg, p0, data, i, k, before, View());
          var q := NextName(View(), data[k]);
          hstate, index, flags := q.hstate, q.index, q.flags;
        }
        k := k + 1;
      }
    }

    /** s_header_field. */
    method Name(data: bytes, i: nat, marks: map<Piece, nat>, log: seq<Event>, ghost p0: Parser, ghost live: Live)
      returns (j: nat, marks': map<Piece, nat>, log': seq<Event>, pr: Progress, ghost live': Live)
      requires Entering(cfg, p0, data, i, View(), log, live) && marks == Marks(live)
      requires state.HeaderField?
      requires Good(cfg, p0, heard.until)
      modifies this
      ensures heard == old(heard) && marks' == Marks(live') && i <= j <= |data| && (pr.Continue? ==> i < j)
      ensures Outcome(cfg, heard.until, p0, data, j, View(), log', live', pr)
    {
      hide Tells, Run, IsToken, Good, DeliverAll;
      marks', log', live' := marks, log, live;
      ghost var t := Run(cfg, p0, data, i);
      ghost var before := nread - 1;
      ScannedStart(cfg, p0, data, i, View(), Field);
      var k := ScanName(data, i, p0, before);
      var ok := CountHeaderSize(if k == |data| then k - 1 - i else k - i);
      if !ok {
        ScannedFails(cfg, p0, data, i, k, before, View().(errno := OK), Field);
        ToldFine(cfg, heard.until, p0, data, i, log, live, i);
        j, pr := if k == |data| then k - 1 else k, Failed;
        return;
      }
      Taken(log, live, data, i, k, t.ev, Field);
      if k == |data| {
        j, pr := k, Continue;
      } else {
        j, marks', log', pr, live' := Byte(data, k, marks, log, p0, live);
      }
    }

    /** The loop of s_header_value: it keeps the header state in a local, and scans values that
        match nothing in stretches of at most max_header_size bytes. A stretch that is used up
        before the buffer ends makes the loop step over the next byte without looking at it. */
    method ScanValue(data: bytes, i: nat, ghost p0: Parser, ghost before: nat) returns (k: nat, ok: bool)
      requires i < |data| && state.HeaderValue? && errno.OK? && before < cfg.maxHeaderSize
      requires Scanned(cfg, p0, data, i, i, before, View(), Value)
      modifies this`hstate, this`index, this`flags, this`contentLength, this`errno
      ensures i <= k <= |data| && (!ok ==> !errno.OK? && FailsAt(cfg, p0, data, i, k, errno, Value))
      ensures ok ==> errno.OK? && (k < |data| ==> data[k] == CR || data[k] == LF)
      ensures ok ==> Scanned(cfg, p0, data, i, k, before, View(), Value)
    {
      hide Scanned, ValueByte, Run, FailsAt;
      var h := hstate;
      k := i;
      while k < |data| && data[k] != CR && data[k] != LF
        invariant i <= k <= |data| && state.HeaderValue? && errno.OK?
        invariant Scanned(cfg, p0, data, i, k, before, View().(hstate := h), Value)
        decreases |data| - k
      {
        if !IsHeaderChar(data[k]) {
          ScannedText(cfg, p0, data, i, k, before, View().(hstate := h));
          errno, ok := InvalidHeaderToken, false;
          return;
        }
        if h.General? {
          var pe := k + (if |data| - k < cfg.maxHeaderSize then |data| - k else cfg.maxHeaderSize);
          ghost var from := k;
          while k < pe && data[k] != CR && data[k] != LF
            invariant from <= k <= pe <= |data| && errno.OK?
            invariant Scanned(cfg, p0, data, i, k, before, View().(hstate := h), Value)
          {
            ScannedText(cfg, p0, data, i, k, before, View().(hstate := h));
            if !IsHeaderChar(data[k]) {
              errno, ok := InvalidHeaderToken, false;
              return;
            }
            GeneralText(View().(hstate := h), data[k]);
            k := k + 1;
          }
          if k == pe && k < |data| {
            ScannedOver(cfg, p0, data, i, k, before, View().(hstate := h), Value, View().(hstate := h));
            k := k + 1;
          }
        } else {
          var o := ValueByte(View().(hstate := h), data[k]);
          ScannedText(cfg, p0, data, i, k, before, View().(hstate := h));
          ValueByteRest(View().(hstate := h), data[k]);
          if o.ctl.Fail? {
            hstate, errno, ok := o.p.hstate, o.p.errno, false;
            return;
          }
          h, index, flags, contentLength := o.p.hstate, o.p.index, o.p.flags, o.p.contentLength;
          k := k + 1;
        }
      }
      hstate := h;
      ok := true;
    }

    /** The carriage return at byte k that ends a value: the text is delivered before it is counted. */
    method ValueReturn(data: bytes, i: nat, k: nat, marks: map<Piece, nat>, log: seq<Event>, ghost p0: Parser,
                       ghost live: Live)
      returns (j: nat, marks': map<Piece, nat>, log': seq<Event>, pr: Progress)
      requires i <= k < |data| && data[k] == CR && state.HeaderValue? && errno.OK? && nread > 0
      requires Scanned(cfg, p0, data, i, k, nread - 1, View(), Value)
      requires marks == Marks(live) && live.From? && live.piece == Value && live.start <= i
      requires var t := Run(cfg, p0, data, i);
               && t.ctl.Next? && t.p.state.HeaderValue?
               && Tells(log, live, data, k, t.ev + Singles(Value, data, i, k))
      requires Good(cfg, p0, heard.until)
      modifies this
      ensures heard == old(heard) && marks' == map[] && j == (if pr.Failed? then k else k + 1)
      ensures Outcome(cfg, heard.until, p0, data, j, View(), log', NoRun, pr)
    {
      hide Tells, Run, Good, DeliverAll;
      ghost var q, ev := View(), Run(cfg, p0, data, i).ev + Singles(Value, data, i, k);
      state := HeaderAlmostDone;
      CloseRun(log, live, data, k, ev, Value);
      marks', log' := CallbackData(data, k, Value, marks, log);
      var ok := CountHeaderSize(k - i);
      if ok {
        ValueLine(cfg, p0, data, i, k, q.nread - 1, q);
        Advance(log', data, k, k + 1, ev + [Data(Value, [])]);
        j, pr := k + 1, Continue;
      } else {
        ScannedFails(cfg, p0, data, i, k, q.nread - 1, q, Value);
        ValueFine(cfg, heard.until, p0, data, i, k, log');
        j, pr := k, Failed;
      }
    }

    /** s_header_value. At a line feed the text is counted before it is delivered. */
    method Text(data: bytes, i: nat, marks: map<Piece, nat>, log: seq<Event>, ghost p0: Parser, ghost live: Live)
      returns (j: nat, marks': map<Piece, nat>, log': seq<Event>, pr: Progress, ghost live': Live)
      requires Entering(cfg, p0, data, i, View(), log, live) && marks == Marks(live)
      requires state.HeaderValue?
      requires Good(cfg, p0, heard.until)
      modifies this
      ensures heard == old(heard) && marks' == Marks(live') && i <= j <= |data| && (pr.Continue? ==> i < j)
      ensures Outcome(cfg, heard.until, p0, data, j, View(), log', live', pr)
    {
      hide Tells, Run, Good, DeliverAll;
      marks', log', live' := marks, log, live;
      ghost var t := Run(cfg, p0, data, i);
      ghost var before := nread - 1;
      ScannedStart(cfg, p0, data, i, View(), Value);
      var k, scanned := ScanValue(data, i, p0, before);
      Taken(log, live, data, i, k, t.ev, Value);
      if !scanned {
        ToldFine(cfg, heard.until, p0, data, i, log, live, i);
        j, pr := k, Failed;
        return;
      }
      if k < |data| && data[k] == CR {
        j, marks', log', pr := ValueReturn(data, i, k, marks, log, p0, live);
        live' := NoRun;
        return;
      }
      var ok := CountHeaderSize(if k == |data| then k - 1 - i else k - i);
      if !ok {
        ScannedFails(cfg, p0, data, i, k, before, View().(errno := OK), Value);
        ToldFine(cfg, heard.until, p0, data, i, log, live, i);
        j, pr := if k == |data| then k - 1 else k, Failed;
      } else if k == |data| {
        j, pr := k, Continue;
      } else {
        j, marks', log', pr, live' := Byte(data, k, marks, log, p0, live);
      }
    }

    /** s_message_done, after the last byte of a body at j - 1. */
    method FinishBody(data: bytes, j: nat, marks: map<Piece, nat>, log: seq<Event>, ghost p0: Parser, ghost live: Live,
                      ghost ev: seq<Event>)
      returns (marks': map<Piece, nat>, log': seq<Event>, pr: Progress)
      requires j <= |data| && errno.OK? && state.MessageDone?
      requires marks == Marks(live) && live.From? && live.piece == Body && live.start < j
      requires Tells(log, live, data, j, ev)
      requires var r := FinishMessage(View(), if upgrade then Stop else Next);
               Run(cfg, p0, data, j) == Trail(r.p, ev + r.ev, r.ctl, j)
      modifies this
      ensures heard == old(heard) && marks' == map[] && !pr.Failed?
      ensures Outcome(cfg, heard.until, p0, data, j, View(), log', NoRun, pr)
    {
      hide Tells, Run, FinishMessage, DeliverAll;
      FlushRun(log, live, data, j, ev);
      marks', log' := CallbackData(data, j, Body, marks, log);
      var o := FinishMessage(View(), if upgrade then Stop else Next);
      FinishFrame(View(), if upgrade then Stop else Next);
      Notify(log', data, j, ev, o.ev[0]);
      assert o.ev == [o.ev[0]];
      log' := log' + o.ev;
      Load(o.p);
      if o.ctl.Stop? {
        RunHalted(cfg, p0, data, j, |data|);
        AllTold(log', data, j, ev + o.ev);
        pr := Stopped;
      } else {
        pr := Continue;
      }
    }

    /** s_chunk_data and s_body_identity: as many bytes of the body as the buffer holds. */
    method TakeBody(data: bytes, i: nat, marks: map<Piece, nat>, log: seq<Event>, ghost p0: Parser, ghost live: Live)
      returns (j: nat, marks': map<Piece, nat>, log': seq<Event>, pr: Progress, ghost live': Live)
      requires Entering(cfg, p0, data, i, View(), log, live) && marks == Marks(live)
      requires (state.BodyIdentity? || state.ChunkData?) && 0 < contentLength < ABSENT
      requires Good(cfg, p0, heard.until)
      modifies this
      ensures heard == old(heard) && marks' == Marks(live') && i <= j <= |data| && (pr.Continue? ==> i < j)
      ensures Outcome(cfg, heard.until, p0, data, j, View(), log', live', pr)
    {
      hide Tells, Run, FinishMessage, Good, DeliverAll;
      ghost var t := Run(cfg, p0, data, i);
      var toRead := if contentLength <= |data| - i then contentLength else |data| - i;
      marks', log', live' := marks, log, HttpTrace.Mark(live, Body, i);
      if Body !in marks {
        marks' := marks[Body := i];
      }
      TakeBytes(log, live, data, i, i + toRead, t.ev, Body);
      contentLength := contentLength - toRead;
      j := i + toRead;
      if contentLength > 0 {
        BodyRun(cfg, p0, data, i, toRead);
        pr := Continue;
      } else {
        BodyRunEnds(cfg, p0, data, i, j);
        if state.ChunkData? {
          state := ChunkDataAlmostDone;
          pr := Continue;
        } else {
          state := MessageDone;
          marks', log', pr := FinishBody(data, j, marks', log', p0, live', t.ev + Singles(Body, data, i, j));
          live' := NoRun;
        }
      }
    }

    /** s_body_identity_eof: everything up to the end of the buffer. */
    method TakeAll(data: bytes, i: nat, marks: map<Piece, nat>, log: seq<Event>, ghost p0: Parser, ghost live: Live)
      returns (j: nat, marks': map<Piece, nat>, log': seq<Event>, pr: Progress, ghost live': Live)
      requires Entering(cfg, p0, data, i, View(), log, live) && marks == Marks(live)
      requires state.BodyIdentityEof?
      requires Good(cfg, p0, heard.until)
      modifies this
      ensures heard == old(heard) && marks' == Marks(live') && i <= j <= |data| && (pr.Continue? ==> i < j)
      ensures Outcome(cfg, heard.until, p0, data, j, View(), log', live', pr)
    {
      hide Tells, Run;
      ghost var t := Run(cfg, p0, data, i);
      marks', log', live' := marks, log, HttpTrace.Mark(live, Body, i);
      if Body !in marks {
        marks' := marks[Body := i];
      }
      j, pr := |data|, Continue;
      TakeBytes(log, live, data, i, j, t.ev, Body);
      EofRun(cfg, p0, data, i, j - i);
    }

    /** The marks set on entry: the run that the previous call left open goes on. */
    function StartMarks(): map<Piece, nat>
      reads this
    {
      if OpenIn(state).Open? then map[OpenIn(state).piece := 0] else map[]
    }

    /** One turn of the loop: the header budget, then the case of the current state. */
    method Turn(data: bytes, i: nat, marks: map<Piece, nat>, log: seq<Event>, ghost p0: Parser, ghost live: Live)
      returns (j: nat, marks': map<Piece, nat>, log': seq<Event>, pr: Progress, ghost live': Live)
      requires i < |data| && At(cfg, p0, data, i, View(), log, live) && marks == Marks(live) && Core(View())
      requires nread <= cfg.maxHeaderSize
      requires Good(cfg, p0, heard.until)
      modifies this
      ensures heard == old(heard) && marks' == Marks(live') && i <= j <= |data| && (pr.Continue? ==> i < j)
      ensures Outcome(cfg, heard.until, p0, data, j, View(), log', live', pr)
    {
      hide Tells, Run, KindOk, FlagsOk, Good, DeliverAll;
      marks', log', live' := marks, log, live;
      if ParsingHeader(state) {
        var ok := CountHeaderSize(1);
        if !ok {
          OverBudget(cfg, p0, data, i);
          ToldFine(cfg, heard.until, p0, data, i, log, live, i);
          j, pr := i, Failed;
          return;
        }
      }
      if state.HeaderField? {
        j, marks', log', pr, live' := Name(data, i, marks, log, p0, live);
      } else if state.HeaderValue? {
        j, marks', log', pr, live' := Text(data, i, marks, log, p0, live);
      } else if state.BodyIdentity? || state.ChunkData? {
        j, marks', log', pr, live' := TakeBody(data, i, marks, log, p0, live);
      } else if state.BodyIdentityEof? {
        j, marks', log', pr, live' := TakeAll(data, i, marks, log, p0, live);
      } else {
        j, marks', log', pr, live' := Byte(data, i, marks, log, p0, live);
      }
    }

    /** The loop over a non-empty buffer, and the callbacks for what is left at its end. */
    method Consume(data: bytes) returns (n: nat, log: seq<Event>)
      requires data != [] && errno.OK? && Valid()
      modifies this
      ensures heard == old(heard)
      ensures LikeRun(cfg, old(View()), data, View(), n, log)
      ensures !errno.OK? ==> !DeliverAll(heard.until, log).phase.Broken?
    {
      hide Tells, Run, Core, Inv, Joined, DeliverAll, FailsLike;
      n, log := 0, [];
      ghost var p0, h0 := View(), heard;
      var marks, pr := StartMarks(), Continue;
      ghost var live := if OpenIn(state).Open? then From(OpenIn(state).piece, 0) else NoRun;
      StartAt(cfg, p0, data, live);
      while n < |data| && pr.Continue?
        invariant n <= |data| && heard == h0 && marks == Marks(live)
        invariant Outcome(cfg, h0.until, p0, data, n, View(), log, live, pr)
        decreases |data| - n, pr.Continue?
      {
        RunKeeps(cfg, p0, h0.until, data, n);
        n, marks, log, pr, live := Turn(data, n, marks, log, p0, live);
      }
      if pr.Continue? {
        log := Leftovers(data, marks, log, live, Run(cfg, p0, data, |data|).ev);
      }
      RunKeeps(cfg, p0, h0.until, data, |data|);
      if pr.Failed? {
        FailsToo(cfg, p0, data, n, errno, log);
      }
    }

    /** http_parser_execute. For a non-empty buffer and a parser without error the call does what
        the bytewise run over the buffer does; and every call, also one that fails, keeps the
        callbacks within the message grammar, unless it comes after the end of input that completed
        a body read until then: then no call does. */
    method Execute(data: bytes) returns (n: nat, log: seq<Event>)
      requires Valid()
      modifies this
      ensures Valid()
      ensures !old(errno).OK? ==> View() == old(View()) && n == 0 && log == []
      ensures old(errno).OK? && data == [] ==>
                && View() == old(AtEof(View())).p && log == old(AtEof(View())).ev
                && n == (if errno.OK? then 0 else 1)
      ensures old(errno).OK? && data != [] ==> LikeRun(cfg, old(View()), data, View(), n, log)
      ensures heard.client == DeliverAll(old(heard).client, log)
      ensures heard.ended <==> old(heard).ended || Ends(old(View()), data)
      ensures heard.client.phase.Broken? <==> old(heard).ended
    {
      hide Run, Good, DeliverAll, ShouldKeepAlive, LikeRun;
      n, log := 0, [];
      ghost var p0, h0 := View(), heard;
      DeliverNone(h0.client);
      if !errno.OK? {
        return;
      }
      if data == [] {
        var o := AtEof(View());
        errno := o.p.errno;
        log := o.ev;
        n := if errno.OK? then 0 else 1;
      } else {
        n, log := Consume(data);
      }
      CallSound(cfg, p0, h0, data, View(), n, log);
      heard := Hear(h0, p0, data, log);
    }
  }

  /** A call leaves what the bytewise run over its buffer leaves. It fails exactly when the run
      fails: unless the run spends the header budget, at the same byte, with the same error, and
      with callbacks that tell the same but for a last piece of text. Otherwise it leaves the same
      fields, consumes as many bytes, and makes the same callbacks up to the joining of pieces. */
  ghost predicate LikeRun(cfg: Config, p0: Parser, data: bytes, p: Parser, n: nat, log: seq<Event>) {
    var t := Run(cfg, p0, data, |data|);
    && (p.errno.OK? <==> !t.ctl.Fail?)
    && (p.errno.OK? ==> p == t.p && n == t.used && Joined(log) == Joined(t.ev))
    && (!p.errno.OK? ==> FailsLike(cfg, p0, data, n, p.errno, log))
  }

  /** To the application, a call that succeeds is the bytewise run. */
  lemma DeliverLikeRun(cfg: Config, p0: Parser, data: bytes, p: Parser, n: nat, log: seq<Event>, c: Client)
    requires LikeRun(cfg, p0, data, p, n, log)
    ensures p.errno.OK? ==> var t := Run(cfg, p0, data, |data|);
                            p == t.p && !t.ctl.Fail? && DeliverAll(c, log) == DeliverAll(c, t.ev)
    ensures !p.errno.OK? ==> Run(cfg, p0, data, |data|).ctl.Fail?
  {
    hide Run, Joined, DeliverAll;
    DeliverJoined(c, log);
    DeliverJoined(c, Run(cfg, p0, data, |data|).ev);
  }

  lemma FailsToo(cfg: Config, p0: Parser, data: bytes, n: nat, e: Errno, log: seq<Event>)
    requires FailsLike(cfg, p0, data, n, e, log)
    ensures Run(cfg, p0, data, |data|).ctl.Fail?
  {
    hide Run, Tells;
  }

  /** The text that a batch loop has passed over is pending. */
  lemma Taken(log: seq<Event>, live: Live, data: bytes, i: nat, k: nat, ev: seq<Event>, piece: Piece)
    requires i <= k <= |data| && Tells(log, live, data, i, ev)
    requires live.From? && live.piece == piece && live.start <= i
    ensures Tells(log, live, data, k, ev + Singles(piece, data, i, k))
  {
    hide Tells;
    if k > i {
      TakeBytes(log, live, data, i, k, ev, piece);
    } else {
      assert ev + Singles(piece, data, i, k) == ev;
    }
  }

  /** The carriage return that ends a value. */
  lemma ValueLine(cfg: Config, p0: Parser, data: bytes, i: nat, k: nat, before: nat, q: Parser)
    requires Scanned(cfg, p0, data, i, k, before, q, Value) && k < |data| && data[k] == CR && q.state.HeaderValue?
    requires before + (k - i) + 1 <= cfg.maxHeaderSize
    ensures Run(cfg, p0, data, k + 1) ==
            Trail(q.(nread := before + (k - i) + 1, state := HeaderAlmostDone),
                  Run(cfg, p0, data, i).ev + Singles(Value, data, i, k) + [Data(Value, [])], Next, k + 1)
  {
    hide Run;
    RunNext(cfg, p0, data, k);
  }

  /** Where a run of body text is still pending, a byte that fails makes no callback. */
  lemma ChainFailsEmpty(cfg: Config, p: Parser, ch: byte, open: Open)
    requires p.state.ChunkDataAlmostDone? && Chain(cfg, p, ch).ctl.Fail?
    ensures FailTold(open, Chain(cfg, p, ch).ev)
  {
  }

  lemma FinishFrame(p: Parser, ctl: Control)
    ensures var o := FinishMessage(p, ctl);
            |o.ev| == 1 && !o.ev[0].Data? && o.ctl == ctl && o.p.errno == p.errno
            && (o.p.state.Dead? || o.p.state.StartReq? || o.p.state.StartRes?)
  {
    hide ShouldKeepAlive;
  }

  lemma StartAt(cfg: Config, p0: Parser, data: bytes, live: Live)
    requires p0.errno.OK? && data != []
    requires live == if OpenIn(p0.state).Open? then From(OpenIn(p0.state).piece, 0) else NoRun
    ensures At(cfg, p0, data, 0, p0, [], live)
  {
  }

  lemma OverBudget(cfg: Config, p0: Parser, data: bytes, n: nat)
    requires n < |data|
    requires var t := Run(cfg, p0, data, n);
             t.ctl.Next? && ParsingHeader(t.p.state) && t.p.nread + 1 > cfg.maxHeaderSize
    ensures var t := Run(cfg, p0, data, |data|); t.ctl.Fail? && t.p.errno.HeaderOverflow?
  {
    hide Chain;
    RunNext(cfg, p0, data, n);
    RunHalted(cfg, p0, data, n + 1, |data|);
  }

  /** The callbacks for the mark left over at the end of the buffer; at most one is set. */
  method Leftovers(data: bytes, marks: map<Piece, nat>, log: seq<Event>, ghost live: Live, ghost ev: seq<Event>)
    returns (log': seq<Event>)
    requires marks == Marks(live) && Tells(log, live, data, |data|, ev)
    requires live.From? ==> live.start < |data|
    ensures Joined(log') == Joined(ev)
  {
    hide Joined;
    assert |marks| <= 1;
    var m := marks;
    if live.From? {
      assert marks - {live.piece} == map[];
      FlushRun(log, live, data, |data|, ev);
      AllTold(log + [Data(live.piece, data[live.start..|data|])], data, |data|, ev);
    } else {
      AllTold(log, data, |data|, ev);
    }
    m, log' := CallbackData(data, |data|, Field, m, log);
    m, log' := CallbackData(data, |data|, Value, m, log');
    m, log' := CallbackData(data, |data|, Url, m, log');
    m, log' := CallbackData(data, |data|, Body, m, log');
    m, log' := CallbackData(data, |data|, Status, m, log');
    if live.From? {
      assert live.piece.Field? || live.piece.Value? || live.piece.Url? || live.piece.Body? || live.piece.Status?;
    }
  }

  lemma GeneralText(p: Parser, b: byte)
    requires p.hstate.General?
    ensures ValueByte(p, b) == Out(p, [], Next)
  {
  }

  lemma ValueByteRest(p: Parser, b: byte)
    ensures var o := ValueByte(p, b);
            if o.ctl.Fail? then !o.p.errno.OK? || !p.errno.OK?
            else o.p == p.(hstate := o.p.hstate, index := o.p.index, flags := o.p.flags,
                           contentLength := o.p.contentLength)
  {
    hide TeByte, ConnByte;
    if p.hstate.Te? {
      TeByteFrame(p, b, p.nread);
    } else if p.hstate.Conn? {
      ConnByteFrame(p, b, p.nread);
    }
  }

  lemma GeneralName(p: Parser, b: byte)
    requires p.hstate.General?
    ensures NextName(p, b) == p
  {
  }

  lemma ScannedStart(cfg: Config, p0: Parser, data: bytes, i: nat, q: Parser, piece: Piece)
    requires i < |data|
    requires var t := Run(cfg, p0, data, i); t.ctl.Next? && t.used == i && ParsingHeader(t.p.state) && q == Counted(t.p)
    requires q.nread <= cfg.maxHeaderSize
    ensures Scanned(cfg, p0, data, i, i, q.nread - 1, q, piece)
  {
    hide Run;
    var t := Run(cfg, p0, data, i);
    assert t.ev + Singles(piece, data, i, i) == t.ev;
  }

  /** When the batch count exceeds the budget, the bytewise run fails too. */
  lemma ScannedFails(cfg: Config, p0: Parser, data: bytes, i: nat, k: nat, before: nat, q: Parser, piece: Piece)
    requires Scanned(cfg, p0, data, i, k, before, q, piece) && i < |data| && ParsingHeader(q.state)
    requires before + (k - i) + (if k == |data| then 0 else 1) > cfg.maxHeaderSize
    ensures var t := Run(cfg, p0, data, |data|); t.ctl.Fail? && t.p.errno.HeaderOverflow?
  {
    hide Run;
    if before + (k - i) > cfg.maxHeaderSize {
      RunHalted(cfg, p0, data, k, |data|);
    } else {
      ScannedOver(cfg, p0, data, i, k, before, q, piece, q);
      RunHalted(cfg, p0, data, k + 1, |data|);
    }
  }
}
