/** The parser on lists: for every value that it accepts, its header state and its flags are exactly
    what the text of the value says. */
module HttpListRuns {
  import opened Ascii
  import opened HttpTypes
  import opened HttpMachine
  import opened HttpBatch
  import opened HttpConnection
  import opened HttpLists

  function Head(h: Header): HState { if h.Connection? then HConnection else HTransferEncoding }

  predicate WordOfHeader(h: Header, w: Word) {
    if h.Connection? then w.KeepAlive? || w.Close? || w.Upgrade? else w.Chunked?
  }

  function PartState(w: Word): HState {
    match w
    case KeepAlive => Conn(ConnMatchingKeepAlive)
    case Close => Conn(ConnMatchingClose)
    case Upgrade => Conn(ConnMatchingUpgrade)
    case Chunked => Te(TeMatchingChunked)
    case NoWord => General
  }

  function WholeState(w: Word): HState {
    match w
    case KeepAlive => Conn(ConnKeepAlive)
    case Close => Conn(ConnClose)
    case Upgrade => Conn(ConnUpgrade)
    case Chunked => Te(TeChunked)
    case NoWord => General
  }

  function StartState(h: Header): HState { if h.Connection? then Conn(ConnTokenStart) else Te(TeTokenStart) }

  function OtherState(h: Header): HState { if h.Connection? then Conn(ConnToken) else Te(TeToken) }

  /** The fields say what the reading of the value says. */
  predicate Says(p: Parser, h: Header, r: Reading) {
    match r
    case Nothing => p.state == Discard(Ws) && p.hstate == Head(h)
    case Start => p.state.HeaderValue? && p.hstate == StartState(h) && p.index == 0
    case Part(w, n) =>
      && p.state.HeaderValue? && p.hstate == PartState(w) && WordOfHeader(h, w)
      && 1 <= n < |Spelled(w)| && p.index == n - 1
    case Whole(w) => p.state.HeaderValue? && p.hstate == WholeState(w) && WordOfHeader(h, w)
    case Other => p.state.HeaderValue? && p.hstate == OtherState(h)
    case Gone => p.state.HeaderValue? && p.hstate == General
  }

  /** The flag of a word. */
  function WithWord(f: Flags, w: Word): Flags { RaiseToken(f, WholeState(w)) }

  lemma StepDiscard(cfg: Config, p: Parser, b: byte)
    requires p.state == Discard(Ws) && Step(cfg, p, b).ctl.Next?
    ensures Step(cfg, p, b) == SwitchDiscard(p.(nread := p.nread + 1), b)
  {
    hide SwitchDiscard, SwitchName, SwitchBody, SwitchChunkLine, SwitchHeadersEnd, SwitchUrl, SwitchMethod,
         SwitchReqVersion, SwitchStatusLine, SwitchIdle;
    DiscardNext(p.(nread := p.nread + 1), b);
  }

  lemma DiscardNext(p: Parser, b: byte)
    requires p.state == Discard(Ws)
    ensures !SwitchDiscard(p, b).ctl.Again?
  {
    hide SetBit5, ConnFirst;
  }

  lemma FirstByteSays(cfg: Config, p: Parser, h: Header, b: byte)
    requires p.state == Discard(Ws) && p.hstate == Head(h) && b != CR && b != LF
    requires Step(cfg, p, b).ctl.Next?
    ensures var o := Step(cfg, p, b);
            Says(o.p, h, NextRead(h, Nothing, Plain(b))) && o.p.flags == p.flags
  {
    hide Spelled, IsToken, Step;
    StepDiscard(cfg, p, b);
    FirstBit(b);
    Spellings(WordFor(h, Lower(b)));
  }

  /** On the letters that begin words, setting bit 5 is lowering the case. */
  lemma FirstBit(b: byte)
    ensures SetBit5(b) == 'k' as int <==> Lower(b) == 'k' as int
    ensures SetBit5(b) == 'c' as int <==> Lower(b) == 'c' as int
    ensures SetBit5(b) == 'u' as int <==> Lower(b) == 'u' as int
  {
  }

  lemma NextByteSays(p: Parser, h: Header, r: Reading, b: byte)
    requires Says(p, h, r) && !r.Nothing? && b != CR && b != LF && IsHeaderChar(b)
    ensures var o := ValueByte(p, b);
            && o.ctl.Next?
            && Says(o.p, h, NextRead(h, r, Plain(b)))
            && o.p.flags == if r.Whole? && b == COMMA && h.Connection? then WithWord(p.flags, r.w) else p.flags
  {
    hide Spelled, IsToken, SetBit5, KEEP_ALIVE, CLOSE, UPGRADE, CHUNKED, RaiseToken;
    match r {
      case Start => StartByteSays(p, h, b);
      case Part(w, n) => PartByteSays(p, h, w, n, b);
      case _ =>
    }
  }

  lemma StartByteSays(p: Parser, h: Header, b: byte)
    requires Says(p, h, Start) && IsHeaderChar(b) && b != CR && b != LF
    ensures var o := ValueByte(p, b);
            o.ctl.Next? && Says(o.p, h, NextRead(h, Start, Plain(b))) && o.p.flags == p.flags
  {
    hide Spelled, IsToken;
    FirstBit(b);
    TokenBit(b);
    Spellings(WordFor(h, Lower(b)));
  }

  lemma TokenBit(b: byte)
    ensures !IsToken(SP) && SetBit5(SP) == SP && SetBit5(b) != HT && (SetBit5(b) == SP && b > 0 ==> b == SP)
    ensures IsToken('k' as int) && IsToken('c' as int) && IsToken('u' as int)
  {
  }

  lemma PartByteSays(p: Parser, h: Header, w: Word, n: nat, b: byte)
    requires Says(p, h, Part(w, n)) && IsHeaderChar(b) && b != CR && b != LF
    ensures var o := ValueByte(p, b);
            o.ctl.Next? && Says(o.p, h, NextRead(h, Part(w, n), Plain(b))) && o.p.flags == p.flags
  {
    hide SetBit5, KEEP_ALIVE, CLOSE, UPGRADE, CHUNKED, IsLetter;
    Spellings(w);
    LetterBit(b, Spelled(w)[n]);
  }

  lemma LetterBit(b: byte, l: byte)
    requires IsLetter(l) && b != CR
    ensures SetBit5(b) == l <==> Lower(b) == l
  {
    if SetBit5(b) == l {
      SetBit5OfLetter(b, l);
    }
    if Lower(b) == l {
      LowerIsSetBit5(b, l);
    }
  }

  lemma PlainSays(cfg: Config, p: Parser, h: Header, r: Reading, b: byte)
    requires Says(p, h, r) && b != CR && b != LF && Step(cfg, p, b).ctl.Next?
    ensures var o := Step(cfg, p, b);
            && Says(o.p, h, NextRead(h, r, Plain(b)))
            && o.p.flags == if r.Whole? && b == COMMA && h.Connection? then WithWord(p.flags, r.w) else p.flags
  {
    hide Step, NextRead, ValueByte, RaiseToken, IsHeaderChar;
    if r.Nothing? {
      FirstByteSays(cfg, p, h, b);
    } else {
      StepText(cfg, p, b);
      var q := p.(nread := p.nread + 1);
      assert Says(q, h, r);
      if IsHeaderChar(b) {
        NextByteSays(q, h, r, b);
      }
    }
  }

  // ---------------------------------------------------------------- line breaks

  /** The state after a line break in a value. */
  function Broken(r: Reading): State { if r.Nothing? then Discard(Lws) else HeaderValueLws }

  lemma ReturnStep(cfg: Config, p: Parser, h: Header, r: Reading)
    requires Says(p, h, r) && Step(cfg, p, CR).ctl.Next?
    ensures Step(cfg, p, CR).p ==
            p.(nread := p.nread + 1, state := if r.Nothing? then Discard(WsAlmostDone) else HeaderAlmostDone)
  {
    hide PartState, WholeState, OtherState, StartState, Spelled;
  }

  lemma FeedStep(cfg: Config, p: Parser)
    requires p.state == Discard(WsAlmostDone) || p.state.HeaderAlmostDone?
    requires Step(cfg, p, LF).ctl.Next?
    ensures Step(cfg, p, LF).p ==
            p.(nread := p.nread + 1, state := if p.state.Discard? then Discard(Lws) else HeaderValueLws)
  {
  }

  lemma BareFeedStep(cfg: Config, p: Parser, h: Header, r: Reading)
    requires Says(p, h, r) && Step(cfg, p, LF).ctl.Next?
    ensures Step(cfg, p, LF).p == p.(nread := p.nread + 1, state := Broken(r))
  {
    hide PartState, WholeState, OtherState, StartState, Spelled;
    if !r.Nothing? {
      var q := p.(nread := p.nread + 1, state := HeaderAlmostDone);
      assert Chain(cfg, q, LF) == Switch(cfg, q, LF);
    }
  }

  lemma SaysEnd(p: Parser, h: Header, r: Reading)
    requires Says(p, h, r)
    ensures !p.hstate.HContentLength? && !p.hstate.LengthNum?
  {
  }

  lemma BlankStep(cfg: Config, p: Parser, h: Header, r: Reading, b: byte)
    requires Says(p, h, r) && IsBlank(b)
    requires var q := p.(state := Broken(r)); Step(cfg, q, b).ctl.Next?
    ensures var o := Step(cfg, p.(state := Broken(r)), b);
            Says(o.p, h, NextRead(h, r, Fold(b, false))) && o.p.flags == p.flags
  {
    hide Spelled, SetBit5, PartState, WholeState, ValueStart;
    SaysEnd(p, h, r);
    if !r.Nothing? {
      var q := p.(nread := p.nread + 1, state := HeaderValueStart);
      FoldStarts(q, h, r, b);
      assert Chain(cfg, q, b) == Switch(cfg, q, b);
    }
  }

  /** A blank that opens a folded line. */
  lemma FoldStarts(p: Parser, h: Header, r: Reading, b: byte)
    requires Says(p.(state := HeaderValue), h, r) && !r.Nothing?
    ensures var o := ValueStart(p, b);
            o.ctl.Next? && Says(o.p, h, NextRead(h, r, Fold(b, false))) && o.p.flags == p.flags
  {
    hide Spelled, SetBit5;
  }

  /** Equal but for the skip-body flag, which belongs to the application's answer. */
  predicate SameButSkip(f: Flags, g: Flags) { g == f.(skipBody := g.skipBody) }

  lemma HeadersEndFlags(cfg: Config, p: Parser)
    requires p.state.HeadersAlmostDone? || p.state.HeadersDone?
    ensures var o := SwitchHeadersEnd(cfg, p, LF);
            !o.ctl.Fail? ==>
              && SameButSkip(p.flags, o.p.flags)
              && (o.ctl.Again? ==> p.state.HeadersAlmostDone? && (o.p.state.HeadersDone? || o.p.state.MessageDone?))
  {
    hide ShouldKeepAlive, NeedsEof, SkipsBody;
  }

  lemma MessageEndFlags(cfg: Config, p: Parser)
    requires p.state.MessageDone?
    ensures var o := Chain(cfg, p, LF); !o.ctl.Fail? ==> SameButSkip(p.flags, o.p.flags)
  {
    hide ShouldKeepAlive;
  }

  lemma {:induction false} SectionEndFlags(cfg: Config, p: Parser)
    requires p.state.HeadersAlmostDone? || p.state.HeadersDone?
    ensures var o := Chain(cfg, p, LF); !o.ctl.Fail? ==> SameButSkip(p.flags, o.p.flags)
    decreases Rank(p.state)
  {
    hide SwitchHeadersEnd;
    HeadersEndFlags(cfg, p);
    var s := Switch(cfg, p, LF);
    if s.ctl.Again? {
      AgainLowersRank(cfg, p, LF);
      if s.p.state.MessageDone? {
        MessageEndFlags(cfg, s.p);
      } else {
        SectionEndFlags(cfg, s.p);
      }
    }
  }

  /** The byte after a line: the first of a name, or the end of the header section. */
  lemma NextLineStep(cfg: Config, p: Parser, b: byte)
    requires (p.state == Discard(Lws) && !p.hstate.HContentLength?) || p.state.HeaderValueLws?
    requires (IsToken(b) || b == CR || b == LF) && !Step(cfg, p, b).ctl.Fail?
    ensures var f := Step(cfg, p, b).p.flags;
            SameButSkip(RaiseToken(p.flags, p.hstate), f) && (b != LF ==> f == RaiseToken(p.flags, p.hstate))
  {
    hide RaiseToken, SwitchName, SwitchHeadersEnd;
    var q := p.(nread := p.nread + 1);
    var r := q.(flags := RaiseToken(q.flags, q.hstate), state := HeaderFieldStart);
    assert !IsBlank(b);
    if b == LF {
      SectionBegins(r);
      SectionEndFlags(cfg, r.(state := HeadersAlmostDone));
      assert Chain(cfg, r, b).p == Chain(cfg, r.(state := HeadersAlmostDone), b).p;
    } else {
      LineBegins(r, b);
      assert Chain(cfg, r, b) == Switch(cfg, r, b);
    }
  }

  lemma SectionBegins(p: Parser)
    requires p.state.HeaderFieldStart?
    ensures SwitchName(p, LF) == Out(p.(state := HeadersAlmostDone), [], Again)
  {
  }

  // ---------------------------------------------------------------- whole values

  lemma NextBefore(cfg: Config, p: Parser, data: bytes, n: nat, m: nat)
    requires n <= m <= |data| && Run(cfg, p, data, m).ctl.Next?
    ensures Run(cfg, p, data, n).ctl.Next?
  {
    hide Run;
    if !Run(cfg, p, data, n).ctl.Next? {
      RunHalted(cfg, p, data, n, m);
    }
  }

  /** A line break at byte n. */
  lemma BreakRun(cfg: Config, p: Parser, data: bytes, n: nat, h: Header, r: Reading, bare: bool)
    requires n + |Break(bare)| <= |data| && data[n..n + |Break(bare)|] == Break(bare)
    requires Run(cfg, p, data, n + |Break(bare)|).ctl.Next? && Says(Run(cfg, p, data, n).p, h, r)
    ensures var q := Run(cfg, p, data, n).p;
            exists k: nat :: Run(cfg, p, data, n + |Break(bare)|).p == q.(nread := k, state := Broken(r))
  {
    hide Step, Run, Says;
    var q := Run(cfg, p, data, n).p;
    NextBefore(cfg, p, data, n, n + |Break(bare)|);
    NextBefore(cfg, p, data, n + 1, n + |Break(bare)|);
    RunNext(cfg, p, data, n);
    assert data[n] == Break(bare)[0];
    if bare {
      BareFeedStep(cfg, q, h, r);
      assert Run(cfg, p, data, n + 1).p == q.(nread := q.nread + 1, state := Broken(r));
    } else {
      ReturnStep(cfg, q, h, r);
      assert data[n + 1] == Break(bare)[1];
      RunNext(cfg, p, data, n + 1);
      FeedStep(cfg, Run(cfg, p, data, n + 1).p);
      assert Run(cfg, p, data, n + 2).p == q.(nread := q.nread + 2, state := Broken(r));
    }
  }

  function Raising(f: Flags, keepAlive: bool, close: bool, upgrade: bool): Flags {
    f.(keepAlive := f.keepAlive || keepAlive, close := f.close || close,
       connectionUpgrade := f.connectionUpgrade || upgrade)
  }

  /** The flags after a value, its last element apart. */
  function FlagsBefore(h: Header, f: Flags, v: seq<Item>): Flags {
    if h.TransferEncoding? then f
    else Raising(f, Earlier(h, v, KeepAlive), Earlier(h, v, Close), Earlier(h, v, Upgrade))
  }

  lemma RaisingWord(f: Flags, keepAlive: bool, close: bool, upgrade: bool, w: Word)
    requires WordOfHeader(Connection, w)
    ensures WithWord(Raising(f, keepAlive, close, upgrade), w) ==
            Raising(f, keepAlive || w.KeepAlive?, close || w.Close?, upgrade || w.Upgrade?)
  {
  }

  lemma EarlierSnoc(h: Header, v: seq<Item>, i: Item, w: Word)
    ensures Earlier(h, v + [i], w) <==> Earlier(h, v, w) || (IsComma(i) && LastRead(h, v) == Whole(w))
  {
    hide LastRead;
    var u := v + [i];
    assert u[..|v|] == v && u[|v|] == i;
    if j :| 0 <= j < |v| && IsComma(v[j]) && LastRead(h, v[..j]) == Whole(w) {
      assert u[..j] == v[..j] && u[j] == v[j];
    }
    if j :| 0 <= j < |u| && IsComma(u[j]) && LastRead(h, u[..j]) == Whole(w) {
      assert j < |v| ==> u[..j] == v[..j] && u[j] == v[j];
    }
  }

  lemma FlagsSnoc(h: Header, f: Flags, v: seq<Item>, i: Item)
    requires LastRead(h, v).Whole? ==> WordOfHeader(h, LastRead(h, v).w)
    ensures var g, r := FlagsBefore(h, f, v), LastRead(h, v);
            FlagsBefore(h, f, v + [i]) == if r.Whole? && IsComma(i) && h.Connection? then WithWord(g, r.w) else g
  {
    hide LastRead, Earlier, WithWord, Raising;
    if LastRead(h, v).Whole? && h.Connection? {
      RaisingWord(f, Earlier(h, v, KeepAlive), Earlier(h, v, Close), Earlier(h, v, Upgrade), LastRead(h, v).w);
    }
    EarlierSnoc(h, v, i, KeepAlive);
    EarlierSnoc(h, v, i, Close);
    EarlierSnoc(h, v, i, Upgrade);
  }

  /** Every value that is accepted leaves the header state that the reading of its last element
      says, and the flags of the words among the elements before. */
  lemma {:induction false} ListExact(cfg: Config, p: Parser, h: Header, v: seq<Item>, data: bytes)
    requires p.state == Discard(Ws) && p.hstate == Head(h) && IsValue(v)
    requires Raw(v) <= data && Run(cfg, p, data, |Raw(v)|).ctl.Next?
    ensures var q := Run(cfg, p, data, |Raw(v)|).p;
            Says(q, h, LastRead(h, v)) && q.flags == FlagsBefore(h, p.flags, v)
  {
    hide Step, Run, LastRead, NextRead, FlagsBefore, WithWord, Says, Bytes;
    if v == [] {
      RunZero(cfg, p, data);
      NothingRead(p, h, p.flags);
    } else {
      var init, i := v[..|v| - 1], v[|v| - 1];
      assert v == init + [i];
      var n := |Raw(init)|;
      assert Raw(v) == Raw(init) + Bytes(i);
      assert Raw(init) <= data && data[n..n + |Bytes(i)|] == Bytes(i);
      NextBefore(cfg, p, data, n, |Raw(v)|);
      ListExact(cfg, p, h, init, data);
      LastReadSnoc(h, init, i);
      SaysWord(Run(cfg, p, data, n).p, h, LastRead(h, init));
      FlagsSnoc(h, p.flags, init, i);
      assert [i][0] == v[|v| - 1];
      ItemRun(cfg, p, data, n, h, LastRead(h, init), i);
    }
  }

  lemma SaysWord(p: Parser, h: Header, r: Reading)
    requires Says(p, h, r)
    ensures r.Whole? ==> WordOfHeader(h, r.w)
  {
  }

  lemma NothingRead(p: Parser, h: Header, f: Flags)
    requires p.state == Discard(Ws) && p.hstate == Head(h)
    ensures Says(p, h, LastRead(h, [])) && FlagsBefore(h, f, []) == f
  {
    ReadNothing(h, First);
  }

  /** One item of a value, at byte n. */
  lemma ItemRun(cfg: Config, p: Parser, data: bytes, n: nat, h: Header, r: Reading, i: Item)
    requires IsValue([i]) && n + |Bytes(i)| <= |data| && data[n..n + |Bytes(i)|] == Bytes(i)
    requires Run(cfg, p, data, n + |Bytes(i)|).ctl.Next? && Says(Run(cfg, p, data, n).p, h, r)
    ensures var q, q' := Run(cfg, p, data, n).p, Run(cfg, p, data, n + |Bytes(i)|).p;
            && Says(q', h, NextRead(h, r, i))
            && q'.flags == if r.Whole? && IsComma(i) && h.Connection? then WithWord(q.flags, r.w) else q.flags
  {
    hide Step, Run, Says, NextRead, RaiseToken, Bytes, Break;
    var x := Bytes(i);
    BytesEnd(i);
    var q, m := Run(cfg, p, data, n).p, n + |x| - 1;
    assert data[m] == data[n..n + |x|][|x| - 1];
    NextBefore(cfg, p, data, n, n + |x|);
    NextBefore(cfg, p, data, m, n + |x|);
    RunNext(cfg, p, data, m);
    assert IsValue([i]) && [i][0] == i;
    if i.Plain? {
      PlainSays(cfg, q, h, r, i.b);
    } else {
      SliceFront(data, n, m, n + |x|);
      BreakRun(cfg, p, data, n, h, r, i.bare);
      var k: nat :| Run(cfg, p, data, m).p == q.(nread := k, state := Broken(r));
      SaysCounted(q, h, r, k);
      var q' := q.(nread := k);
      assert Run(cfg, p, data, m).p == q'.(state := Broken(r));
      BlankStep(cfg, q', h, r, i.b);
      FoldRead(h, r, i.b, i.bare);
      assert i == Fold(i.b, i.bare);
      assert Run(cfg, p, data, m + 1).p == Step(cfg, q'.(state := Broken(r)), i.b).p;
    }
  }

  lemma BytesEnd(i: Item)
    ensures var x := Bytes(i);
            x != [] && x[|x| - 1] == i.b && (if i.Plain? then |x| == 1 else x[..|x| - 1] == Break(i.bare))
  {
  }

  lemma SliceFront(s: bytes, i: nat, j: nat, k: nat)
    requires i <= j <= k <= |s|
    ensures s[i..j] == s[i..k][..j - i]
  {
  }

  lemma SaysCounted(p: Parser, h: Header, r: Reading, k: nat)
    requires Says(p, h, r)
    ensures Says(p.(nread := k), h, r)
  {
  }

  lemma FoldRead(h: Header, r: Reading, b: byte, bare: bool)
    ensures NextRead(h, r, Fold(b, bare)) == NextRead(h, r, Fold(b, false))
  {
  }

  /** Some element of the value is the word. */
  predicate Listed(h: Header, v: seq<Item>, w: Word) { Earlier(h, v, w) || LastRead(h, v) == Whole(w) }

  function FlagsAfter(h: Header, f: Flags, v: seq<Item>): Flags {
    if h.TransferEncoding? then f.(chunked := f.chunked || LastRead(h, v) == Whole(Chunked))
    else Raising(f, Listed(h, v, KeepAlive), Listed(h, v, Close), Listed(h, v, Upgrade))
  }

  lemma LastRaises(q: Parser, h: Header, f: Flags, v: seq<Item>)
    requires Says(q, h, LastRead(h, v)) && q.flags == FlagsBefore(h, f, v)
    ensures RaiseToken(q.flags, q.hstate) == FlagsAfter(h, f, v)
  {
    hide LastRead, Earlier, Says, WithWord, RaiseToken, FlagsBefore, FlagsAfter;
    var r := LastRead(h, v);
    SaysRaises(q, h, r);
    SaysWord(q, h, r);
    AfterIsBefore(h, f, v);
  }

  lemma AfterIsBefore(h: Header, f: Flags, v: seq<Item>)
    requires LastRead(h, v).Whole? ==> WordOfHeader(h, LastRead(h, v).w)
    ensures var g, r := FlagsBefore(h, f, v), LastRead(h, v);
            FlagsAfter(h, f, v) == if r.Whole? then WithWord(g, r.w) else g
  {
    hide LastRead, Earlier, Raising;
    if LastRead(h, v).Whole? && h.Connection? {
      RaisingWord(f, Earlier(h, v, KeepAlive), Earlier(h, v, Close), Earlier(h, v, Upgrade), LastRead(h, v).w);
    }
  }

  lemma SaysRaises(p: Parser, h: Header, r: Reading)
    requires Says(p, h, r)
    ensures RaiseToken(p.flags, p.hstate) == if r.Whole? then WithWord(p.flags, r.w) else p.flags
  {
    hide Spelled;
  }

  /** A Connection line that is accepted raises the flag of a word if and only if the word is an
      element that the text lets it recognise; a Transfer-Encoding line raises the chunked flag if
      and only if its last element is "chunked" and is recognised. No other flag changes, but for
      skip-body where a bare line feed ends the header section. */
  lemma ListFlags(cfg: Config, p: Parser, h: Header, v: seq<Item>, bare: bool, b: byte)
    requires p.state == Discard(Ws) && p.hstate == Head(h) && IsValue(v) && (IsToken(b) || b == CR || b == LF)
    requires var line := Raw(v) + Break(bare) + [b];
             Run(cfg, p, line, |line| - 1).ctl.Next? && !Run(cfg, p, line, |line|).ctl.Fail?
    ensures var line := Raw(v) + Break(bare) + [b];
            var f := Run(cfg, p, line, |line|).p.flags;
            SameButSkip(FlagsAfter(h, p.flags, v), f) && (b != LF ==> f == FlagsAfter(h, p.flags, v))
  {
    hide Step, Run, LastRead, FlagsBefore, FlagsAfter, IsToken, Raw, RaiseToken, Says;
    var line := Raw(v) + Break(bare) + [b];
    var n, m := |Raw(v)|, |line| - 1;
    NextBefore(cfg, p, line, n, m);
    ListExact(cfg, p, h, v, line);
    assert line[n..m] == Break(bare);
    var q, r := Run(cfg, p, line, n).p, LastRead(h, v);
    BreakRun(cfg, p, line, n, h, r, bare);
    RunNext(cfg, p, line, m);
    SaysEnd(q, h, r);
    NextLineStep(cfg, Run(cfg, p, line, m).p, b);
    LastRaises(q, h, p.flags, v);
  }
}
