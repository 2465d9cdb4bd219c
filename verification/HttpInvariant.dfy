/** The invariant that ties a parser record to the application's view of the callbacks, and
    that every pass through the switch keeps it. */
module HttpInvariant {
  import opened Ascii
  import opened HttpTypes
  import opened HttpMachine
  import opened HttpClient
  import opened HttpFields
  import opened HttpShape

  // ---------------------------------------------------------------- the grammar side

  /** Where the application stands, by parser state. */
  predicate Link(p: Parser, c: Client) {
    match p.state
    case Dead => c.phase == Idle(false)
    case StartReqOrRes => c.phase == Idle(true)
    case StartReq => c.phase == Idle(true)
    case StartRes => c.phase == Idle(true)
    case ResOrRespH => c.phase.Begun?
    case ResLine(r) =>
      if r.ResLineAlmostDone? then c.phase == Target(false)
      else if r.ResStatus? then c.phase.Begun? || c.phase == Target(false)
      else c.phase.Begun?
    case ReqMethod => c.phase.Begun?
    case ReqUrl(u) => if u.SpacesBeforeUrl? then c.phase.Begun? else c.phase == Target(true)
    case ReqVersion(_) => c.phase == Target(true)
    case HeaderFieldStart => BetweenFields(p, c)
    case HeadersAlmostDone => BetweenFields(p, c)
    case HeaderField => c.phase == Name(p.flags.trailing) && c.fields != []
    case Discard(_) => c.phase == Name(p.flags.trailing) && c.fields != []
    case HeaderValueStart => c.phase == Text(p.flags.trailing) && c.fields != []
    case HeaderValue => c.phase == Text(p.flags.trailing) && c.fields != []
    case HeaderAlmostDone => c.phase == Text(p.flags.trailing) && c.fields != []
    case HeaderValueLws => c.phase == Text(p.flags.trailing) && c.fields != []
    case HeadersDone => c.phase == Headed(p.contentLength, p.flags.chunked, SkipsBody(p))
    case ChunkLine(_) => c.phase.Gap? || (c.phase.Headed? && c.phase.chunked && !c.phase.skipped)
    case ChunkData => c.phase == Chunk(p.contentLength)
    case ChunkDataAlmostDone => c.phase == Chunk(0)
    case ChunkDataDone => c.phase == Chunk(0)
    case BodyIdentity =>
      || c.phase == Headed(p.contentLength, false, false)
      || (c.phase.Reading? && c.phase.declared < ABSENT && c.phase.got + p.contentLength == c.phase.declared)
    case BodyIdentityEof =>
      c.phase == Headed(ABSENT, false, false) || (c.phase.Reading? && c.phase.declared == ABSENT)
    case MessageDone => c.phase.Ended? || (c.phase.Reading? && c.phase.got == c.phase.declared)
  }

  predicate BetweenFields(p: Parser, c: Client) {
    if p.flags.trailing then c.phase.Trailer? || c.phase == Text(true)
    else c.phase == Target(p.kind.Request?) || c.phase == Text(false)
  }

  // ---------------------------------------------------------------- the text side

  /** While a name is read, the header state is the one its text calls for. */
  predicate NameLink(p: Parser, f: HeaderLine) {
    && f.value == []
    && f.name != []
    && p.hstate == NameState(LowerAll(f.name))
    && (CountsIndex(p.hstate) ==> p.index == |f.name| - 1)
  }

  predicate TeLink(p: Parser, f: HeaderLine) {
    p.hstate.Te? ==>
      && Named(f, TRANSFER_ENCODING)
      && (p.hstate.te.TeTokenStart? ==> Current(f.value) == [])
      && (p.hstate.te.TeMatchingChunked? ==>
            0 <= p.index < 6 && LowerAll(Current(f.value)) == CHUNKED[..p.index + 1])
      && (p.hstate.te.TeChunked? ==> LowerAll(TrimRight(Current(f.value))) == CHUNKED)
  }

  ghost predicate LengthLink(p: Parser, f: HeaderLine) {
    && (p.hstate.LengthNum? ==> Named(f, CONTENT_LENGTH) && LengthText(f.value, |f.value|, p.contentLength))
    && (p.hstate.LengthWs? ==> DeclaresLength(f, p.contentLength))
    && (Named(f, CONTENT_LENGTH) ==> LengthState(p.hstate))
  }

  /** The lines whose value is complete. */
  function Done(p: Parser, c: Client): seq<HeaderLine> {
    if (InName(p.state) || InText(p.state)) && c.fields != [] then c.fields[..|c.fields| - 1] else c.fields
  }

  function Last(c: Client): HeaderLine
    requires c.fields != []
  {
    c.fields[|c.fields| - 1]
  }

  predicate AfterHead(s: State) {
    s.HeadersDone? || s.ChunkLine? || InChunk(s) || s.BodyIdentity? || s.BodyIdentityEof?
  }

  /** The flags mean what the text of the header section says. */
  ghost predicate FlagLink(p: Parser, c: Client) {
    && (InHeaders(p.state) || p.state.ChunkLine? || InChunk(p.state) ==>
          && p.flags.transferEncoding == AnyTe(c.fields)
          && (p.flags.chunked ==> AnyChunked(Done(p, c))))
    && (InHeaders(p.state) && !p.flags.trailing && p.flags.contentLength ==> AnyLength(c.fields, p.contentLength))
    && (c.phase.Headed? && c.phase.declared != ABSENT ==> AnyLength(c.fields, c.phase.declared))
    && (c.phase.Reading? && c.phase.declared != ABSENT ==> AnyLength(c.fields, c.phase.declared))
  }

  /** Content-Length lines: each one is flagged, there is at most one, also with the one under way
      once it has text, and none beside a transfer coding once the head is accepted. */
  ghost predicate LengthLines(p: Parser, c: Client) {
    !p.flags.trailing ==>
      && (InHeaders(p.state) && AnyLengthLine(Done(p, c)) ==> p.flags.contentLength)
      && (InHeaders(p.state) || AfterHead(p.state) ==> OneLengthLine(Done(p, c)))
      && (InText(p.state) && c.fields != [] && Named(Last(c), CONTENT_LENGTH) ==> !AnyLengthLine(Done(p, c)))
      && (AfterHead(p.state) ==> !(AnyTe(c.fields) && AnyLengthLine(c.fields)))
  }

  ghost predicate FieldLink(p: Parser, c: Client) {
    && (InStartLine(p.state) ==> c.fields == [])
    && (InName(p.state) ==> c.fields != [] && NameLink(p, Last(c)))
    && (InText(p.state) ==> c.fields != [] && TeLink(p, Last(c)) && LengthLink(p, Last(c)))
    && FlagLink(p, c)
    && LengthLines(p, c)
  }

  ghost predicate Inv(p: Parser, c: Client) {
    Core(p) && Link(p, c) && FieldLink(p, c)
  }

  // ---------------------------------------------------------------- the start line

  lemma DeliverOne(c: Client, e: Event)
    ensures DeliverAll(c, [e]) == Deliver(c, e)
  {
    assert [e][..0] == [];
    assert DeliverAll(c, [e][..0]) == c;
  }

  lemma LineKeeps(p: Parser, o: Out, c: Client, piece: Piece)
    requires Inv(p, c) && InStartLine(p.state) && !p.state.ResOrRespH?
    requires LineFrame(p, o, piece)
    requires piece == if p.kind.Request? then Url else Status
    requires KindOk(o.p) && (InStartLine(o.p.state) || o.p.state.HeaderFieldStart?)
    requires o.p.state.ReqMethod? ==> 1 <= o.p.index <= |MethodName(o.p.httpMethod)| && p.state.ReqMethod?
    requires o.p.state == ResLine(ResStatusCode) ==> o.p.statusCode <= 999
    requires o.p.state.ReqUrl? ==> !o.p.state.url.UrlDead?
    requires !o.p.state.ResOrRespH?
    ensures Inv(o.p, DeliverAll(c, o.ev))
  {
    hide MethodName;
    if o.ev != [] {
      assert o.ev == [o.ev[0]];
      DeliverOne(c, o.ev[0]);
    }
  }

  predicate IdleState(s: State) {
    s.Dead? || s.StartReqOrRes? || s.ResOrRespH? || s.StartRes? || s.StartReq?
  }

  lemma IdleFrame(p: Parser, ch: byte)
    requires Core(p) && IdleState(p.state)
    ensures var o := SwitchIdle(p, ch);
            !o.ctl.Fail? ==>
              && Core(o.p)
              && (o.ev == [Begin] || o.ev == [])
              && (o.ev == [Begin] ==> InStartLine(o.p.state) && !p.state.Dead? && !p.state.ResOrRespH?
                                      && (o.p.state.ResLine? ==> o.p.state.res.ResH?) && !o.p.state.ReqUrl?
                                      && !o.p.state.ReqVersion?)
              && (o.ev == [] && p.state.ResOrRespH? ==> o.p.state == ResLine(ResHT) || o.p.state.ReqMethod?)
              && (o.ev == [] && !p.state.ResOrRespH? ==>
                    o.p.state == p.state || (p.state.StartReqOrRes? && o.p.state.StartReq?))
  {
    hide FirstMethod;
  }

  lemma IdleKeeps(p: Parser, c: Client, ch: byte)
    requires Inv(p, c) && IdleState(p.state)
    ensures var o := SwitchIdle(p, ch);
            !o.ctl.Fail? ==> Inv(o.p, DeliverAll(c, o.ev))
  {
    hide SwitchIdle, Core;
    IdleFrame(p, ch);
    DeliverOne(c, Begin);
  }

  // ---------------------------------------------------------------- names

  lemma LowerSnoc(s: bytes, b: byte)
    ensures LowerAll(s + [b]) == LowerAll(s) + [Lower(b)]
  {
  }

  lemma FirstName(c: byte)
    ensures NameState([c]) == FirstNameState(c)
  {
    hide CONNECTION, PROXY_CONNECTION, CONTENT_LENGTH, TRANSFER_ENCODING, UPGRADE;
    Letters();
    NameStateByLetter([c]);
    assert CONNECTION[..1] == [CONNECTION[0]];
  }

  /** The transfer-encoding flag goes up exactly when the name first covers the word. */
  lemma TePrefixStep(f: HeaderLine, ch: byte)
    requires f.name != []
    ensures var g := f.(name := f.name + [ch]);
            TePrefixed(g) <==> TePrefixed(f) || NameState(LowerAll(g.name)).HTransferEncoding?
  {
    hide CONNECTION, PROXY_CONNECTION, CONTENT_LENGTH, TRANSFER_ENCODING, UPGRADE;
    Letters();
    LowerSnoc(f.name, ch);
    var w := LowerAll(f.name);
    assert TRANSFER_ENCODING[..17] == TRANSFER_ENCODING;
    if |w| >= 17 {
      assert (w + [Lower(ch)])[..17] == w[..17];
    } else if |w| == 16 {
      assert (w + [Lower(ch)])[..17] == w + [Lower(ch)];
    }
  }

  lemma EmptyDeclaresNothing(f: HeaderLine, n: nat)
    requires f.value == []
    ensures !DeclaresLength(f, n)
  {
  }

  lemma NewNameLines(p: Parser, c: Client, q: Parser, d: Client)
    requires LengthLines(p, c) && p.state.HeaderFieldStart? && q.state.HeaderField? && q.flags == p.flags
    requires d.fields != [] && d.fields[..|d.fields| - 1] == c.fields && Last(d).value == []
    ensures LengthLines(q, d)
  {
    hide AnyTe, Named;
    LengthLineSplit(d.fields);
  }

  /** The last line changes while it is read. */
  lemma LastLineLines(p: Parser, c: Client, q: Parser, d: Client)
    requires LengthLines(p, c) && c.fields != [] && |d.fields| == |c.fields|
    requires d.fields[..|d.fields| - 1] == c.fields[..|c.fields| - 1]
    requires (InName(p.state) || InText(p.state)) && (InName(q.state) || InText(q.state))
    requires q.flags.trailing == p.flags.trailing && (p.flags.contentLength ==> q.flags.contentLength)
    requires InText(q.state) && Named(Last(d), CONTENT_LENGTH) ==>
               Named(Last(c), CONTENT_LENGTH) && (InText(p.state) || !p.flags.contentLength)
    ensures LengthLines(q, d)
  {
    hide AnyTe, Named;
    LengthLineSplit(c.fields);
    LengthLineSplit(d.fields);
  }

  lemma LineEndLines(p: Parser, c: Client, q: Parser, d: Client)
    requires Inv(p, c) && (InName(p.state) || InText(p.state)) && q.state.HeaderFieldStart?
    requires q.flags.trailing == p.flags.trailing && q.flags.contentLength == p.flags.contentLength
    requires d.fields == c.fields
    requires InName(p.state) ==> !p.hstate.HContentLength?
    ensures LengthLines(q, d)
  {
    hide AnyTe, AnyChunked, AnyLength, LowerAll, NameState, CONTENT_LENGTH, CountersOk, KindOk, TeLink, LengthText;
    LengthLineSplit(c.fields);
    NameOfState(Last(c));
  }

  lemma NewNameFields(p: Parser, c: Client, ch: byte, q: Parser, d: Client)
    requires Inv(p, c) && p.state.HeaderFieldStart?
    requires q == p.(index := 0, state := HeaderField, hstate := FirstNameState(Lower(ch)))
    requires d == Client(Name(p.flags.trailing), c.fields + [HeaderLine([ch], [])])
    ensures FieldLink(q, d)
  {
    hide CONNECTION, PROXY_CONNECTION, CONTENT_LENGTH, TRANSFER_ENCODING, UPGRADE, NameState, LowerAll, EndsInChunked,
         DeclaresLength, KindOk, CountersOk, LengthLines, AnyTe, AnyChunked, AnyLength, AnyLengthLine, OneLengthLine,
         TeLink, LengthLink;
    var f := HeaderLine([ch], []);
    assert d.fields[..|d.fields| - 1] == c.fields;
    AnySplit(d.fields, p.contentLength);
    NewNameLines(p, c, q, d);
    assert LowerAll([ch]) == [Lower(ch)] by {
      LowerSnoc([], ch);
      assert [] + [ch] == [ch];
    }
    FirstName(Lower(ch));
    Letters();
    EmptyDeclaresNothing(f, p.contentLength);
  }

  lemma MoreNameFields(p: Parser, c: Client, ch: byte, q: Parser, d: Client)
    requires Inv(p, c) && p.state.HeaderField?
    requires q == NextName(p, ch)
    requires d == c.(fields := c.fields[|c.fields| - 1 := Last(c).(name := Last(c).name + [ch])])
    ensures FieldLink(q, d)
  {
    hide CONNECTION, PROXY_CONNECTION, CONTENT_LENGTH, TRANSFER_ENCODING, UPGRADE, NameState, LowerAll, EndsInChunked,
         DeclaresLength, Match, TePrefixed, KindOk, CountersOk, LengthLines, AnyTe, AnyChunked, AnyLength,
         AnyLengthLine, OneLengthLine, TeLink, LengthLink;
    var f, g := Last(c), Last(d);
    assert d.fields[..|d.fields| - 1] == c.fields[..|c.fields| - 1];
    AnySplit(c.fields, p.contentLength);
    AnySplit(d.fields, p.contentLength);
    LastLineLines(p, c, q, d);
    LowerSnoc(f.name, ch);
    NameStep(LowerAll(f.name), Lower(ch));
    TePrefixStep(f, ch);
    EmptyDeclaresNothing(f, p.contentLength);
    EmptyDeclaresNothing(g, p.contentLength);
  }

  lemma NameShapeStep(p: Parser, ch: byte)
    requires Core(p) && p.state.HeaderField?
    ensures Core(NextName(p, ch))
  {
    hide CONNECTION, PROXY_CONNECTION, CONTENT_LENGTH, TRANSFER_ENCODING, UPGRADE, MethodName;
    Letters();
  }

  /** A pass that reports nothing new about the fields and stays between the same lines. */
  lemma SameFields(p: Parser, c: Client, q: Parser, d: Client)
    requires Inv(p, c) && d.fields == c.fields
    requires InHeaders(p.state) && InHeaders(q.state)
    requires InName(p.state) == InName(q.state) && InText(p.state) == InText(q.state)
    requires q == p.(state := q.state, nread := q.nread)
    requires !p.state.HeadersDone? && !q.state.HeadersDone?
    requires !d.phase.Headed? && !d.phase.Reading?
    ensures FieldLink(q, d)
  {
    hide NameState, LowerAll, AnyTe, AnyChunked, AnyLength, AnyLengthLine, OneLengthLine, DeclaresLength, LengthText,
         KindOk, CountersOk, CHUNKED, TRANSFER_ENCODING, CONTENT_LENGTH;
  }

  lemma FieldStartKeeps(p: Parser, c: Client, ch: byte)
    requires Inv(p, c) && p.state.HeaderFieldStart?
    ensures var o := SwitchName(p, ch);
            !o.ctl.Fail? ==> Inv(o.p, DeliverAll(c, o.ev))
  {
    hide FieldLink, MethodName, IsToken, ValueShape;
    var o := SwitchName(p, ch);
    if o.ctl.Fail? {
    } else if o.ev == [] {
      SameFields(p, c, o.p, c);
    } else {
      DeliverOne(c, Data(Field, [ch]));
      NewNameFields(p, c, ch, o.p, Deliver(c, Data(Field, [ch])));
    }
  }

  lemma FieldKeeps(p: Parser, c: Client, ch: byte)
    requires Inv(p, c) && p.state.HeaderField?
    ensures var o := SwitchName(p, ch);
            !o.ctl.Fail? ==> Inv(o.p, DeliverAll(c, o.ev))
  {
    hide FieldLink, NameByte, MethodName, IsToken, ValueShape, NameShape, Core;
    var o := SwitchName(p, ch);
    if IsToken(ch) {
      DeliverOne(c, Data(Field, [ch]));
      MoreNameFields(p, c, ch, o.p, Deliver(c, Data(Field, [ch])));
      NameShapeStep(p, ch);
    } else if !o.ctl.Fail? {
      DeliverOne(c, Data(Field, []));
      var d := Deliver(c, Data(Field, []));
      assert d.fields == c.fields by { assert Last(c).name + [] == Last(c).name; }
      SameFields(p, c, o.p, d);
      NameEndCore(p, ch);
    }
  }

  lemma NameEndCore(p: Parser, ch: byte)
    requires Core(p) && p.state.HeaderField? && !IsToken(ch)
    ensures var o := SwitchName(p, ch); !o.ctl.Fail? ==> Core(o.p)
  {
    hide MethodName, IsToken, ValueShape, NameShape;
  }

  // ---------------------------------------------------------------- values

  /** What a byte of a value leaves alone. */
  predicate TextFrame(p: Parser, q: Parser) {
    && q == p.(state := HeaderValue, hstate := q.hstate, index := q.index, flags := q.flags,
               contentLength := q.contentLength)
    && q.flags.transferEncoding == p.flags.transferEncoding
    && q.flags.chunked == p.flags.chunked
    && q.flags.trailing == p.flags.trailing
    && (!LengthState(q.hstate) ==> q.contentLength == p.contentLength && q.flags.contentLength == p.flags.contentLength)
    && (LengthState(q.hstate) ==> q.flags.contentLength)
    && (LengthState(q.hstate) && !LengthState(p.hstate) ==> !p.flags.contentLength)
  }

  /** The application's view after a byte of a value. */
  function WithText(c: Client, trailer: bool, ch: byte): Client
    requires c.fields != []
  {
    Client(Text(trailer), c.fields[|c.fields| - 1 := Last(c).(value := Last(c).value + [ch])])
  }

  lemma LengthHasText(p: Parser, f: HeaderLine)
    requires LengthLink(p, f)
    ensures Named(f, CONTENT_LENGTH) ==> f.value != []
  {
    hide Named;
  }

  lemma TextFields(p: Parser, c: Client, ch: byte, q: Parser)
    requires Inv(p, c) && (InName(p.state) || InText(p.state))
    requires TextFrame(p, q)
    requires var g := Last(WithText(c, p.flags.trailing, ch)); TeLink(q, g) && LengthLink(q, g)
    ensures FieldLink(q, WithText(c, p.flags.trailing, ch))
  {
    hide NameState, LowerAll, EndsInChunked, LengthText, KindOk, CountersOk, TeLink, LengthLines, AnyTe, AnyChunked,
         AnyLength, AnyLengthLine, OneLengthLine, CHUNKED, TRANSFER_ENCODING, CONTENT_LENGTH;
    var d := WithText(c, p.flags.trailing, ch);
    var f, g := Last(c), Last(d);
    assert d.fields[..|d.fields| - 1] == c.fields[..|c.fields| - 1];
    AnySplit(c.fields, p.contentLength);
    AnySplit(d.fields, q.contentLength);
    if InText(p.state) {
      LengthHasText(p, f);
    }
    LastLineLines(p, c, q, d);
    assert TePrefixed(f) == TePrefixed(g);
    if LengthState(q.hstate) {
      assert q.hstate.LengthNum? ==> DeclaresLength(g, q.contentLength);
    } else {
      assert !Named(f, CONTENT_LENGTH);
    }
  }

  lemma NameOfState(f: HeaderLine)
    ensures NameState(LowerAll(f.name)).HTransferEncoding? <==> Named(f, TRANSFER_ENCODING)
    ensures NameState(LowerAll(f.name)).HContentLength? <==> Named(f, CONTENT_LENGTH)
    ensures NameState(LowerAll(f.name)).HConnection? <==> Named(f, CONNECTION) || Named(f, PROXY_CONNECTION)
    ensures NameState(LowerAll(f.name)).HUpgrade? <==> Named(f, UPGRADE)
  {
    hide CONNECTION, PROXY_CONNECTION, CONTENT_LENGTH, TRANSFER_ENCODING, UPGRADE, LowerAll;
    Letters();
  }

  lemma ChunkedLetters()
    ensures |CHUNKED| == 7 && CHUNKED[0] == 'c' as int
    ensures forall i | 0 <= i < 7 :: 'a' as int <= CHUNKED[i] <= 'z' as int
    ensures LowerAll(CHUNKED) == CHUNKED
  {
  }

  lemma OneLetter(v: bytes, ch: byte)
    requires Current(v) == [] && SetBit5(ch) == 'c' as int
    ensures LowerAll(Current(v + [ch])) == CHUNKED[..1]
  {
    hide Current, LowerAll, CHUNKED;
    ChunkedLetters();
    CurrentSnoc(v, ch);
    assert |LowerAll([])| == 0;
    LowerSnoc([], ch);
    SetBit5OfLetter(ch, 'c' as int);
    assert CHUNKED[..1] == [CHUNKED[0]];
  }

  lemma OneDigit(ch: byte)
    requires IsNum(ch)
    ensures LengthText([ch], 1, ch - '0' as int)
  {
    assert [ch][..0] == [] && [ch][..1] == [ch];
    assert Decimal([ch][..0]) == 0;
  }

  /** The first byte of a value, after the blanks that follow the colon. */
  lemma FirstTextTe(p: Parser, f: HeaderLine, ch: byte)
    requires NameLink(p, f)
    ensures var o := ValueStart(p, ch); !o.ctl.Fail? ==> TeLink(o.p, f.(value := f.value + [ch]))
  {
    hide NameState, CHUNKED, TRANSFER_ENCODING, CONTENT_LENGTH, LowerAll, TrimRight, SetBit5, ConnFirst, Current;
    NameOfState(f);
    CurrentNone(f.value);
    if SetBit5(ch) == 'c' as int {
      OneLetter(f.value, ch);
    }
  }

  lemma CurrentNone(v: bytes)
    requires v == []
    ensures Current(v) == []
  {
  }

  lemma FirstTextLength(p: Parser, f: HeaderLine, ch: byte)
    requires NameLink(p, f)
    ensures var o := ValueStart(p, ch); !o.ctl.Fail? ==> LengthLink(o.p, f.(value := f.value + [ch]))
  {
    hide NameState, TRANSFER_ENCODING, CONTENT_LENGTH, LowerAll, LengthText, SetBit5, ConnFirst;
    NameOfState(f);
    assert f.value + [ch] == [ch];
    if IsNum(ch) {
      OneDigit(ch);
    }
  }

  lemma FirstTextLinks(p: Parser, f: HeaderLine, ch: byte)
    requires NameLink(p, f)
    ensures var o := ValueStart(p, ch);
            var g := f.(value := f.value + [ch]);
            !o.ctl.Fail? ==> TeLink(o.p, g) && LengthLink(o.p, g)
  {
    hide ValueStart, NameLink, TeLink, LengthLink;
    FirstTextTe(p, f, ch);
    FirstTextLength(p, f, ch);
  }

  /** The blank that opens a folded line. */
  lemma FoldLinks(p: Parser, f: HeaderLine, ch: byte)
    requires ValueShape(p.hstate, p.index) && !p.hstate.LengthNum?
    requires TeLink(p, f) && LengthLink(p, f) && IsBlank(ch)
    ensures var o := ValueStart(p, ch);
            var g := f.(value := f.value + [ch]);
            !o.ctl.Fail? ==> TeLink(o.p, g) && LengthLink(o.p, g)
  {
    hide CHUNKED, TRANSFER_ENCODING, CONTENT_LENGTH, LowerAll, Current, LengthText, TrimRight, SetBit5;
    CurrentSnoc(f.value, ch);
    if p.hstate.LengthWs? {
      MoreBlank(f, p.contentLength, ch);
    }
  }

  lemma MoreBlank(f: HeaderLine, n: nat, ch: byte)
    requires DeclaresLength(f, n) && IsBlank(ch)
    ensures DeclaresLength(f.(value := f.value + [ch]), n)
  {
    var k: nat :| LengthText(f.value, k, n);
    var v := f.value + [ch];
    assert v[..k] == f.value[..k];
    assert v[k..] == f.value[k..] + [ch];
    assert LengthText(v, k, n);
  }

  lemma MoreDigit(v: bytes, n: nat, ch: byte)
    requires LengthText(v, |v|, n) && IsNum(ch)
    ensures LengthText(v + [ch], |v| + 1, 10 * n + (ch - '0' as int))
  {
    var w := v + [ch];
    assert v[..|v|] == v;
    assert w[..|v| + 1] == w;
    assert w[..|w| - 1] == v;
  }

  lemma LengthBlankAfter(v: bytes, n: nat, ch: byte)
    requires LengthText(v, |v|, n) && IsBlank(ch)
    ensures LengthText(v + [ch], |v|, n)
  {
    var w := v + [ch];
    assert w[..|v|] == v == v[..|v|];
    assert w[|v|..] == [ch];
  }

  lemma TeLetter(p: Parser, f: HeaderLine, ch: byte)
    requires p.hstate == Te(TeMatchingChunked) && p.index < 6 && LowerAll(Current(f.value)) == CHUNKED[..p.index + 1]
    requires SetBit5(ch) == CHUNKED[p.index + 1] && ch != CR
    ensures LowerAll(Current(f.value + [ch])) == CHUNKED[..p.index + 2]
    ensures p.index == 5 ==> LowerAll(TrimRight(Current(f.value + [ch]))) == CHUNKED
  {
    hide Current;
    ChunkedLetters();
    SetBit5OfLetter(ch, CHUNKED[p.index + 1]);
    CurrentSnoc(f.value, ch);
    LowerSnoc(Current(f.value), ch);
    assert CHUNKED[..p.index + 2] == CHUNKED[..p.index + 1] + [CHUNKED[p.index + 1]];
    assert CHUNKED[..7] == CHUNKED;
  }

  lemma TeBlankAfter(v: bytes)
    requires LowerAll(TrimRight(Current(v))) == CHUNKED
    ensures LowerAll(TrimRight(Current(v + [SP]))) == CHUNKED
  {
    hide Current;
    CurrentSnoc(v, SP);
    ChunkedLetters();
    assert Current(v) != [];
    assert (Current(v) + [SP])[..|Current(v)|] == Current(v);
  }

  lemma TeByteLink(p: Parser, f: HeaderLine, ch: byte)
    requires p.hstate.Te? && ValueShape(p.hstate, p.index) && TeLink(p, f) && ch != CR && IsHeaderChar(ch)
    ensures TeLink(TeByte(p, ch), f.(value := f.value + [ch]))
  {
    hide LowerAll, Current, TrimRight, CHUNKED, TRANSFER_ENCODING;
    CurrentSnoc(f.value, ch);
    ChunkedLetters();
    match p.hstate.te {
      case TeTokenStart =>
        assert SetBit5(ch) != HT;
        if SetBit5(ch) == 'c' as int {
          OneLetter(f.value, ch);
        }
      case TeMatchingChunked =>
        if p.index + 1 < |CHUNKED| && SetBit5(ch) == CHUNKED[p.index + 1] {
          TeLetter(p, f, ch);
        }
      case TeToken =>
      case TeChunked =>
        if ch == SP {
          TeBlankAfter(f.value);
        }
    }
  }

  lemma ValueByteLinks(p: Parser, f: HeaderLine, ch: byte)
    requires ValueShape(p.hstate, p.index) && p.index < 32 && TeLink(p, f) && LengthLink(p, f)
    requires ch != CR && IsHeaderChar(ch)
    ensures var o := ValueByte(p, ch);
            var g := f.(value := f.value + [ch]);
            !o.ctl.Fail? ==> TeLink(o.p, g) && LengthLink(o.p, g)
  {
    hide LowerAll, Current, TrimRight, CHUNKED, TRANSFER_ENCODING, CONTENT_LENGTH, LengthText, TeByte, ConnByte,
         TeLink;
    var o := ValueByte(p, ch);
    var g := f.(value := f.value + [ch]);
    if p.hstate.Te? {
      TeByteLink(p, f, ch);
      TeByteFrame(p, ch, p.nread);
    } else if p.hstate.Conn? {
      ConnByteFrame(p, ch, p.nread);
      NoTeLink(o.p, g);
    } else {
      if !o.ctl.Fail? { NoTeLink(o.p, g); }
      if p.hstate.LengthNum? && IsNum(ch) {
        MoreDigit(f.value, p.contentLength, ch);
      } else if p.hstate.LengthNum? && ch == SP {
        LengthBlankAfter(f.value, p.contentLength, ch);
      } else if p.hstate.LengthWs? && ch == SP {
        MoreBlank(f, p.contentLength, ch);
      }
    }
  }

  lemma NoTeLink(p: Parser, f: HeaderLine)
    requires !p.hstate.Te?
    ensures TeLink(p, f)
  {
  }

  // ---------------------------------------------------------------- value passes keep the invariant

  lemma TextCore(p: Parser, ch: byte)
    requires Core(p) && p.state.HeaderValue? && ch != CR
    ensures var o := ValueByte(p, ch); !o.ctl.Fail? ==> Core(o.p) && TextFrame(p, o.p) && o.ctl.Next?
  {
    hide MethodName, NameShape, TeByte, ConnByte;
    if p.hstate.Te? {
      TeByteFrame(p, ch, p.nread);
    } else if p.hstate.Conn? {
      ConnByteFrame(p, ch, p.nread);
    }
  }

  lemma ValueStartFrame(p: Parser, ch: byte)
    requires p.state == Discard(Ws) || p.state.HeaderValueStart?
    requires p.state.Discard? ==> NameShape(p.hstate, p.index)
    requires p.state.HeaderValueStart? ==> ValueShape(p.hstate, p.index)
    requires p.hstate.LengthWs? ==> p.flags.contentLength
    ensures var o := ValueStart(p, ch);
            !o.ctl.Fail? ==>
              && TextFrame(p, o.p) && o.ctl.Next? && o.ev == [Data(Value, [ch])]
              && o.p.index == 0 && ValueShape(o.p.hstate, 0)
              && (o.p.hstate.Te? ==> OfTe(p.hstate))
              && (o.p.hstate.LengthNum? ==> o.p.flags.contentLength && o.p.contentLength < 10)
              && (o.p.hstate.LengthWs? ==> p.hstate.LengthWs? && o.p.flags.contentLength == p.flags.contentLength
                                           && o.p.contentLength == p.contentLength)
  {
    hide SetBit5, ConnFirst;
    if p.hstate.HUpgrade? {
    } else if p.hstate.HTransferEncoding? {
    } else if p.hstate.HContentLength? {
    } else if p.hstate.HConnection? {
    } else {
    }
  }

  lemma ValueStartCore(p: Parser, ch: byte)
    requires Core(p) && (p.state == Discard(Ws) || p.state.HeaderValueStart?)
    ensures var o := ValueStart(p, ch); !o.ctl.Fail? ==> Core(o.p) && TextFrame(p, o.p)
  {
    hide MethodName, ValueStart;
    ValueStartFrame(p, ch);
  }

  lemma DeliverText(c: Client, trailer: bool, ch: byte)
    requires c.fields != [] && (c.phase == Name(trailer) || c.phase == Text(trailer))
    ensures DeliverAll(c, [Data(Value, [ch])]) == WithText(c, trailer, ch)
  {
    DeliverOne(c, Data(Value, [ch]));
  }

  lemma ValueStartKeeps(p: Parser, c: Client, ch: byte)
    requires Inv(p, c) && (p.state == Discard(Ws) || p.state.HeaderValueStart?)
    requires p.state.HeaderValueStart? ==> IsBlank(ch)
    ensures var o := ValueStart(p, ch); !o.ctl.Fail? ==> Inv(o.p, DeliverAll(c, o.ev))
  {
    hide MethodName, ValueStart, ValueShape, TeLink, LengthLink, NameLink, FlagLink, KindOk, LengthLines;
    var o := ValueStart(p, ch);
    if !o.ctl.Fail? {
      ValueStartFrame(p, ch);
      ValueStartCore(p, ch);
      DeliverText(c, p.flags.trailing, ch);
      if p.state.Discard? {
        FirstTextLinks(p, Last(c), ch);
      } else {
        FoldLinks(p, Last(c), ch);
      }
      TextFields(p, c, ch, o.p);
    }
  }

  lemma TextKeeps(p: Parser, c: Client, ch: byte)
    requires Inv(p, c) && p.state.HeaderValue? && ch != CR && ch != LF && IsHeaderChar(ch)
    ensures var o := SwitchValue(p, ch); !o.ctl.Fail? ==> Inv(o.p, DeliverAll(c, o.ev))
  {
    hide MethodName, ValueByte, ValueShape, NameShape, TeLink, LengthLink, NameLink, FlagLink, KindOk, FlagsOk,
         LengthLines;
    var o := ValueByte(p, ch);
    if !o.ctl.Fail? {
      TextCore(p, ch);
      DeliverText(c, p.flags.trailing, ch);
      ValueByteLinks(p, Last(c), ch);
      TextFields(p, c, ch, o.p);
    }
  }

  /** A line ends: its value is complete. */
  lemma LineEndFields(p: Parser, c: Client, q: Parser, d: Client)
    requires Inv(p, c) && (InName(p.state) || InText(p.state)) && q.state.HeaderFieldStart?
    requires q == p.(state := HeaderFieldStart, flags := RaiseToken(p.flags, p.hstate))
    requires d.fields == c.fields && !d.phase.Headed? && !d.phase.Reading?
    requires InName(p.state) ==> NameShape(p.hstate, p.index) && !p.hstate.HContentLength?
    ensures FieldLink(q, d)
  {
    hide NameState, LowerAll, TrimLeft, TrimRight, DeclaresLength, TePrefixed, KindOk, CountersOk, CHUNKED,
         TRANSFER_ENCODING, CONTENT_LENGTH, LengthLink, LengthLines;
    AnySplit(c.fields, p.contentLength);
    LineEndLines(p, c, q, d);
    if p.hstate == Te(TeChunked) {
      assert EndsInChunked(Last(c));
    }
  }

  lemma LineEndCore(p: Parser)
    requires Core(p) && (p.state.Discard? || p.state.HeaderValueLws?)
    ensures Core(p.(state := HeaderFieldStart, flags := RaiseToken(p.flags, p.hstate)))
  {
    hide MethodName;
  }

  lemma LwsKeeps(p: Parser, c: Client, ch: byte)
    requires Inv(p, c) && p.state.HeaderValueLws?
    ensures var o := SwitchValue(p, ch); !o.ctl.Fail? ==> Inv(o.p, DeliverAll(c, o.ev))
  {
    hide MethodName, NameShape, FlagLink, RaiseToken;
    var o := SwitchValue(p, ch);
    if IsBlank(ch) {
      FoldFields(p, c);
    } else {
      LineEndCore(p);
      LineEndFields(p, c, o.p, c);
    }
  }

  lemma FoldFields(p: Parser, c: Client)
    requires Inv(p, c) && p.state.HeaderValueLws?
    ensures var q := p.(hstate := if p.hstate.LengthNum? then LengthWs else p.hstate, state := HeaderValueStart);
            FieldLink(q, c)
  {
    hide NameState, LowerAll, LengthText, AnyTe, AnyChunked, AnyLength, AnyLengthLine, OneLengthLine, KindOk,
         CountersOk, CHUNKED, TRANSFER_ENCODING, CONTENT_LENGTH;
  }

  lemma DiscardEnds(p: Parser, c: Client, ch: byte)
    requires Inv(p, c) && p.state == Discard(Lws) && !IsBlank(ch)
    ensures var o := SwitchDiscard(p, ch); !o.ctl.Fail? ==> Inv(o.p, DeliverAll(c, o.ev))
  {
    hide MethodName, ValueShape, FieldLink, RaiseToken, ValueStart;
    var o := SwitchDiscard(p, ch);
    if !o.ctl.Fail? {
      LineEndCore(p);
      DeliverOne(c, Data(Value, []));
      var d := Deliver(c, Data(Value, []));
      assert d.fields == c.fields by { assert Last(c).value + [] == Last(c).value; }
      LineEndFields(p, c, o.p, d);
    }
  }

  lemma DiscardKeeps(p: Parser, c: Client, ch: byte)
    requires Inv(p, c) && p.state.Discard?
    ensures var o := SwitchDiscard(p, ch); !o.ctl.Fail? ==> Inv(o.p, DeliverAll(c, o.ev))
  {
    hide MethodName, ValueShape, NameShape, FieldLink, RaiseToken, ValueStart;
    var o := SwitchDiscard(p, ch);
    if o.ctl.Fail? {
    } else if p.state.ws.Lws? && !IsBlank(ch) {
      DiscardEnds(p, c, ch);
    } else if p.state.ws.Ws? && !IsBlank(ch) && ch != CR && ch != LF {
      ValueStartKeeps(p, c, ch);
    } else {
      SameFields(p, c, o.p, c);
    }
  }

  lemma ValueKeeps(p: Parser, c: Client, ch: byte)
    requires Inv(p, c) && IsValueState(p.state)
    requires p.state.HeaderValueStart? ==> IsBlank(ch)
    ensures var o := SwitchValue(p, ch); !o.ctl.Fail? ==> Inv(o.p, DeliverAll(c, o.ev))
  {
    hide MethodName, NameShape, ValueShape, FieldLink, RaiseToken, ValueStart, ValueByte, SwitchDiscard;
    var o := SwitchValue(p, ch);
    match p.state {
      case HeaderValueStart => ValueStartKeeps(p, c, ch);
      case HeaderValue =>
        if ch == CR || ch == LF {
          DeliverOne(c, Data(Value, []));
          var d := Deliver(c, Data(Value, []));
          assert d.fields == c.fields by { assert Last(c).value + [] == Last(c).value; }
          SameFields(p, c, o.p, d);
        } else if IsHeaderChar(ch) {
          TextKeeps(p, c, ch);
        }
      case HeaderAlmostDone =>
        if ch == LF { SameFields(p, c, o.p, c); }
      case HeaderValueLws => LwsKeeps(p, c, ch);
      case Discard(_) => DiscardKeeps(p, c, ch);
    }
  }

  // ---------------------------------------------------------------- end of headers, bodies

  lemma FinishKeeps(p: Parser, c: Client, ctl: Control)
    requires Core(p) && !p.state.StartReqOrRes? && !p.state.ResOrRespH?
    requires Deliver(c, Complete(ShouldKeepAlive(p))).phase == Idle(ShouldKeepAlive(p))
    ensures var o := FinishMessage(p, ctl); Inv(o.p, DeliverAll(c, o.ev))
  {
    hide ShouldKeepAlive, MethodName, NameShape, ValueShape;
    DeliverOne(c, Complete(ShouldKeepAlive(p)));
  }

  predicate HeadFrame(p: Parser, q: Parser) {
    && q == p.(state := HeadersDone, upgrade := q.upgrade, flags := q.flags)
    && q.flags == p.flags.(skipBody := q.flags.skipBody)
  }

  lemma AfterHeadersFrame(cfg: Config, p: Parser)
    ensures HeadFrame(p, AfterHeaders(cfg, p))
  {
  }

  lemma AlmostDoneLink(cfg: Config, p: Parser, c: Client, ch: byte)
    requires Inv(p, c) && p.state.HeadersAlmostDone?
    ensures var o := SwitchHeadersEnd(cfg, p, ch); !o.ctl.Fail? ==> Core(o.p) && Link(o.p, DeliverAll(c, o.ev))
  {
    hide MethodName, NameShape, ValueShape, FieldLink, AfterHeaders, SkipsBody;
    var o := SwitchHeadersEnd(cfg, p, ch);
    AfterHeadersFrame(cfg, p);
    if !o.ctl.Fail? {
      DeliverOne(c, o.ev[0]);
      assert o.ev == [o.ev[0]];
    }
  }

  lemma AlmostDoneFields(cfg: Config, p: Parser, c: Client, ch: byte)
    requires Inv(p, c) && p.state.HeadersAlmostDone?
    ensures var o := SwitchHeadersEnd(cfg, p, ch); !o.ctl.Fail? ==> FieldLink(o.p, DeliverAll(c, o.ev))
  {
    hide KindOk, CountersOk, AnyTe, AnyChunked, AnyLength, AnyLengthLine, OneLengthLine, AfterHeaders, SkipsBody,
         TeLink, LengthLink, NameLink;
    var o := SwitchHeadersEnd(cfg, p, ch);
    AfterHeadersFrame(cfg, p);
    if !o.ctl.Fail? {
      DeliverOne(c, o.ev[0]);
      assert o.ev == [o.ev[0]];
    }
  }

  lemma AlmostDoneKeeps(cfg: Config, p: Parser, c: Client, ch: byte)
    requires Inv(p, c) && p.state.HeadersAlmostDone?
    ensures var o := SwitchHeadersEnd(cfg, p, ch); !o.ctl.Fail? ==> Inv(o.p, DeliverAll(c, o.ev))
  {
    hide SwitchHeadersEnd, Core, Link, FieldLink;
    AlmostDoneLink(cfg, p, c, ch);
    AlmostDoneFields(cfg, p, c, ch);
  }

  /** How a message with this head ends at once. */
  predicate EndsAtHead(q: Parser) {
    || (q.upgrade && (q.httpMethod.CONNECT? || q.flags.skipBody
                      || !(q.flags.chunked || (q.contentLength > 0 && q.contentLength != ABSENT))))
    || q.flags.skipBody
    || (!q.flags.chunked && !q.flags.transferEncoding && (q.contentLength == 0 || q.contentLength == ABSENT))
  }

  lemma HeadFinishes(p: Parser, c: Client)
    requires Inv(p, c) && p.state.HeadersDone? && EndsAtHead(p)
    ensures var q := p.(nread := 0);
            Deliver(c, Complete(ShouldKeepAlive(q))).phase == Idle(ShouldKeepAlive(q)) && Core(q)
  {
    hide MethodName, NameShape, ValueShape, FieldLink, ShouldKeepAlive;
  }

  lemma HeadGoesOn(p: Parser, c: Client, s: State)
    requires Inv(p, c) && p.state.HeadersDone? && !SkipsBody(p)
    requires s == ChunkLine(SizeStart) || s.BodyIdentity? || s.BodyIdentityEof?
    requires s.ChunkLine? ==> p.flags.chunked
    requires s.BodyIdentity? ==> !p.flags.chunked && 0 < p.contentLength < ABSENT
    requires s.BodyIdentityEof? ==> !p.flags.chunked && p.contentLength == ABSENT && !p.kind.Request?
    ensures Inv(p.(nread := 0, state := s), c)
  {
    hide MethodName, NameShape, ValueShape, AnyTe, AnyChunked, AnyLength, AnyLengthLine, OneLengthLine, TeLink,
         LengthLink, NameLink;
  }

  lemma HeadersDoneKeeps(cfg: Config, p: Parser, c: Client, ch: byte)
    requires Inv(p, c) && p.state.HeadersDone?
    ensures var o := SwitchHeadersEnd(cfg, p, ch); !o.ctl.Fail? ==> Inv(o.p, DeliverAll(c, o.ev))
  {
    hide MethodName, NameShape, ValueShape, FieldLink, FinishMessage, ShouldKeepAlive, Link, KindOk, CountersOk;
    var q := p.(nread := 0);
    var o := SwitchHeadersEnd(cfg, p, ch);
    if EndsAtHead(p) && !NeedsEof(q) {
      HeadFinishes(p, c);
      FinishKeeps(q, c, Stop);
      FinishKeeps(q, c, Next);
    } else if EndsAtHead(p) && (q.upgrade || q.contentLength == 0) {
      HeadFinishes(p, c);
      FinishKeeps(q, c, Stop);
      FinishKeeps(q, c, Next);
    } else if !o.ctl.Fail? {
      HeadGoesOn(p, c, o.p.state);
    }
  }

  lemma ChunkLineFrame(p: Parser, ch: byte)
    requires Core(p) && p.state.ChunkLine?
    ensures var o := SwitchChunkLine(p, ch);
            !o.ctl.Fail? ==>
              && Core(o.p)
              && (o.p.state.ChunkLine? ==> o.ev == [] && o.p.flags == p.flags)
              && (!o.p.state.ChunkLine? ==>
                    o.ev == [ChunkHeader(p.contentLength)] && o.p.contentLength == p.contentLength)
              && (!o.p.state.ChunkLine? && p.contentLength > 0 ==> o.p.state.ChunkData? && o.p.flags == p.flags)
              && (!o.p.state.ChunkLine? && p.contentLength == 0 ==>
                    o.p.state.HeaderFieldStart? && o.p.flags == p.flags.(trailing := true))
  {
    hide MethodName, NameShape, ValueShape, Unhex;
    match p.state.line {
      case SizeStart =>
      case Size =>
      case Parameters =>
      case SizeAlmostDone =>
    }
  }

  lemma ChunkLineKeeps(p: Parser, c: Client, ch: byte)
    requires Inv(p, c) && p.state.ChunkLine?
    ensures var o := SwitchChunkLine(p, ch); !o.ctl.Fail? ==> Inv(o.p, DeliverAll(c, o.ev))
  {
    hide Core, AnyTe, AnyChunked, AnyLength, AnyLengthLine, OneLengthLine, SwitchChunkLine, TeLink, LengthLink,
         NameLink;
    ChunkLineFrame(p, ch);
    DeliverOne(c, ChunkHeader(p.contentLength));
    assert p.flags.chunked by { CoreChunked(p); }
  }

  lemma CoreChunked(p: Parser)
    requires Core(p) && (p.state.ChunkLine? || InChunk(p.state))
    ensures p.flags.chunked && !p.flags.trailing
  {
  }

  lemma IdentityKeeps(p: Parser, c: Client, ch: byte)
    requires Inv(p, c) && (p.state.BodyIdentity? || p.state.BodyIdentityEof?)
    ensures var o := SwitchBody(p, ch); !o.ctl.Fail? ==> Inv(o.p, DeliverAll(c, o.ev))
  {
    hide MethodName, NameShape, ValueShape, AnyTe, AnyChunked, AnyLength, AnyLengthLine, OneLengthLine, FinishMessage;
    DeliverOne(c, Data(Body, [ch]));
  }

  lemma ChunkLink(p: Parser, c: Client, ch: byte)
    requires Inv(p, c) && InChunk(p.state)
    ensures var o := SwitchBody(p, ch); !o.ctl.Fail? ==> Core(o.p) && Link(o.p, DeliverAll(c, o.ev))
  {
    hide MethodName, NameShape, ValueShape, FieldLink, FinishMessage;
    DeliverOne(c, Data(Body, [ch]));
    DeliverOne(c, ChunkComplete);
  }

  lemma ChunkFields(p: Parser, c: Client, ch: byte)
    requires Inv(p, c) && InChunk(p.state)
    ensures var o := SwitchBody(p, ch); !o.ctl.Fail? ==> FieldLink(o.p, DeliverAll(c, o.ev))
  {
    hide AnyTe, AnyChunked, AnyLength, AnyLengthLine, OneLengthLine, FinishMessage, TeLink, LengthLink, NameLink,
         KindOk, CountersOk;
    DeliverOne(c, Data(Body, [ch]));
    DeliverOne(c, ChunkComplete);
  }

  lemma ChunkKeeps(p: Parser, c: Client, ch: byte)
    requires Inv(p, c) && InChunk(p.state)
    ensures var o := SwitchBody(p, ch); !o.ctl.Fail? ==> Inv(o.p, DeliverAll(c, o.ev))
  {
    hide SwitchBody, Core, Link, FieldLink;
    ChunkLink(p, c, ch);
    ChunkFields(p, c, ch);
  }

  lemma BodyKeeps(p: Parser, c: Client, ch: byte)
    requires Inv(p, c) && IsBodyState(p.state)
    ensures var o := SwitchBody(p, ch); !o.ctl.Fail? ==> Inv(o.p, DeliverAll(c, o.ev))
  {
    hide Core, FieldLink, FinishMessage;
    if p.state.MessageDone? {
      FinishKeeps(p, c, if p.upgrade then Stop else Next);
    } else if InChunk(p.state) {
      ChunkKeeps(p, c, ch);
    } else {
      IdentityKeeps(p, c, ch);
    }
  }
}
