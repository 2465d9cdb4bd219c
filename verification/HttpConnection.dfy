/** The Connection header: a flag of the parser is up only when the text of the header section
    says so. */
module HttpConnection {
  import opened Ascii
  import opened HttpTypes
  import opened HttpMachine
  import opened HttpClient
  import opened HttpFields
  import opened HttpShape
  import opened HttpInvariant
  import opened HttpRuns
  import opened HttpBatch
  import opened HttpFeed

  // ---------------------------------------------------------------- elements of a list

  /** The element from `b` to `e`, blanks around it dropped and case folded, is the word. */
  predicate ElementAt(v: bytes, b: nat, e: nat, w: bytes) {
    && b <= e <= |v| && (b == 0 || v[b - 1] == COMMA) && (e == |v| || v[e] == COMMA)
    && LowerAll(TrimRight(TrimLeft(v[b..e]))) == w
  }

  ghost predicate HasElement(v: bytes, w: bytes) { exists b: nat, e: nat :: ElementAt(v, b, e, w) }

  /** An element with a comma after it. */
  ghost predicate HasClosed(v: bytes, w: bytes) { exists b: nat, e: nat :: ElementAt(v, b, e, w) && e < |v| }

  lemma {:induction false} LastStart(v: bytes) returns (b: nat)
    ensures b <= |v| && (b == 0 || v[b - 1] == COMMA) && AfterLastComma(v) == v[b..]
  {
    if v == [] || v[|v| - 1] == COMMA {
      b := |v|;
    } else {
      b := LastStart(v[..|v| - 1]);
      assert v[b..] == v[..|v| - 1][b..] + [v[|v| - 1]];
    }
  }

  lemma CurrentIsElement(v: bytes, w: bytes)
    requires LowerAll(TrimRight(Current(v))) == w
    ensures HasElement(v, w) && HasClosed(v + [COMMA], w)
  {
    hide LowerAll, TrimRight, TrimLeft;
    var b := LastStart(v);
    assert v[b..|v|] == v[b..];
    assert ElementAt(v, b, |v|, w);
    var u := v + [COMMA];
    assert u[b..|v|] == v[b..];
    assert ElementAt(u, b, |v|, w);
  }

  lemma ClosedStays(v: bytes, x: byte, w: bytes)
    requires HasClosed(v, w)
    ensures HasClosed(v + [x], w) && HasElement(v, w)
  {
    hide LowerAll, TrimRight, TrimLeft;
    var b: nat, e: nat :| ElementAt(v, b, e, w) && e < |v|;
    var u := v + [x];
    assert u[b..e] == v[b..e];
    assert ElementAt(u, b, e, w);
  }

  // ---------------------------------------------------------------- header sections

  predicate ConnLine(f: HeaderLine) { Named(f, CONNECTION) || Named(f, PROXY_CONNECTION) }

  ghost predicate AnyElement(fs: seq<HeaderLine>, w: bytes) {
    exists i | 0 <= i < |fs| :: ConnLine(fs[i]) && HasElement(fs[i].value, w)
  }

  ghost predicate AnyUpgrade(fs: seq<HeaderLine>) {
    exists i | 0 <= i < |fs| :: Named(fs[i], UPGRADE)
  }

  lemma AnyLonger(fs: seq<HeaderLine>, w: bytes)
    requires fs != []
    ensures AnyElement(fs[..|fs| - 1], w) ==> AnyElement(fs, w)
    ensures ConnLine(fs[|fs| - 1]) && HasElement(fs[|fs| - 1].value, w) ==> AnyElement(fs, w)
    ensures AnyUpgrade(fs[..|fs| - 1]) || Named(fs[|fs| - 1], UPGRADE) ==> AnyUpgrade(fs)
  {
    hide ConnLine, HasElement, Named;
    var init := fs[..|fs| - 1];
    if i :| 0 <= i < |init| && ConnLine(init[i]) && HasElement(init[i].value, w) {
      assert fs[i] == init[i];
    }
    if i :| 0 <= i < |init| && Named(init[i], UPGRADE) {
      assert fs[i] == init[i];
    }
  }

  // ---------------------------------------------------------------- the invariant

  /** Some of the word has been read as the element under way. */
  predicate Spelling(v: bytes, i: nat, w: bytes) { i + 1 < |w| && LowerAll(Current(v)) == w[..i + 1] }

  predicate Spelt(v: bytes, w: bytes) { LowerAll(TrimRight(Current(v))) == w }

  /** What a token state says about the text of the value. */
  predicate TokenText(t: ConnState, i: nat, v: bytes) {
    match t
    case ConnTokenStart => Current(v) == []
    case ConnMatchingKeepAlive => Spelling(v, i, KEEP_ALIVE)
    case ConnMatchingClose => Spelling(v, i, CLOSE)
    case ConnMatchingUpgrade => Spelling(v, i, UPGRADE)
    case ConnToken => true
    case ConnKeepAlive => Spelt(v, KEEP_ALIVE)
    case ConnClose => Spelt(v, CLOSE)
    case ConnUpgrade => Spelt(v, UPGRADE)
  }

  predicate TokenLink(p: Parser, f: HeaderLine) {
    p.hstate.Conn? ==> ConnLine(f) && TokenText(p.hstate.token, p.index, f.value)
  }

  /** The lines so far, the one under way as far as its last comma, have the element. */
  ghost predicate Backed(p: Parser, c: Client, w: bytes) {
    || AnyElement(Done(p, c), w)
    || (InText(p.state) && c.fields != [] && ConnLine(Last(c)) && HasClosed(Last(c).value, w))
  }

  ghost predicate UpgradeBacked(p: Parser, c: Client) {
    AnyUpgrade(Done(p, c)) || (InText(p.state) && c.fields != [] && Named(Last(c), UPGRADE))
  }

  /** From the first header line of a message to its end. */
  predicate Within(s: State) {
    InHeaders(s) || s.ChunkLine? || InChunk(s) || s.BodyIdentity? || s.BodyIdentityEof? || s.MessageDone?
  }

  ghost predicate FlagsBacked(p: Parser, c: Client) {
    && (p.flags.keepAlive ==> Backed(p, c, KEEP_ALIVE))
    && (p.flags.close ==> Backed(p, c, CLOSE))
    && (p.flags.connectionUpgrade ==> Backed(p, c, UPGRADE))
    && (p.flags.upgrade ==> UpgradeBacked(p, c))
  }

  ghost predicate ConnInv(p: Parser, c: Client) {
    Within(p.state) ==>
      FlagsBacked(p, c) && (InText(p.state) ==> c.fields != [] && TokenLink(p, Last(c)))
  }

  // ---------------------------------------------------------------- one byte of a value

  lemma Words()
    ensures |KEEP_ALIVE| == 10 && |CLOSE| == 5 && |UPGRADE| == 7
    ensures KEEP_ALIVE[0] == 'k' as int && CLOSE[0] == 'c' as int && UPGRADE[0] == 'u' as int
    ensures AllLetters(KEEP_ALIVE) && AllLetters(CLOSE) && AllLetters(UPGRADE)
  {
  }

  predicate IsLetter(b: byte) { 'a' as int <= b <= 'z' as int || b == '-' as int }

  predicate AllLetters(w: bytes) { forall i | 0 <= i < |w| :: IsLetter(w[i]) }

  lemma FirstOf(v: bytes, ch: byte, w: bytes)
    requires Current(v) == [] && |w| > 1 && AllLetters(w) && SetBit5(ch) == w[0] && ch != CR
    ensures Spelling(v + [ch], 0, w)
  {
    hide Current, LowerAll, SetBit5;
    CurrentSnoc(v, ch);
    SetBit5OfLetter(ch, w[0]);
    assert LowerAll([]) == [];
    assert [] + [ch] == [ch];
    LowerSnoc([], ch);
    assert w[..1] == [w[0]];
    BlankIsNoLetter(ch);
  }

  lemma BlankIsNoLetter(ch: byte)
    ensures IsLetter(Lower(ch)) ==> !IsBlank(ch) && ch != COMMA
  {
  }

  lemma NextOf(v: bytes, i: nat, ch: byte, w: bytes)
    requires Spelling(v, i, w) && AllLetters(w) && SetBit5(ch) == w[i + 1] && ch != CR
    ensures if i + 2 < |w| then Spelling(v + [ch], i + 1, w) else Spelt(v + [ch], w)
  {
    hide Current, LowerAll, SetBit5, TrimRight;
    CurrentSnoc(v, ch);
    SetBit5OfLetter(ch, w[i + 1]);
    BlankIsNoLetter(ch);
    LowerSnoc(Current(v), ch);
    assert w[..i + 2] == w[..i + 1] + [w[i + 1]];
    assert w[..|w|] == w;
    NothingToTrim(Current(v), ch);
  }

  lemma NothingToTrim(s: bytes, ch: byte)
    requires !IsBlank(ch)
    ensures TrimRight(s + [ch]) == s + [ch]
  {
  }

  lemma SpaceAfter(v: bytes, w: bytes)
    requires Spelt(v, w) && w != []
    ensures Spelt(v + [SP], w)
  {
    hide Current, LowerAll;
    CurrentSnoc(v, SP);
    assert Current(v) != [];
    assert (Current(v) + [SP])[..|Current(v)|] == Current(v);
  }

  /** A byte inside a word: one letter more, the last letter, or a miss. */
  lemma MatchLink(p: Parser, v: bytes, ch: byte, w: bytes, hit: HState)
    requires Spelling(v, p.index, w) && AllLetters(w) && ch != CR
    ensures var q := MatchValue(p, w, SetBit5(ch), Conn(ConnToken), hit);
            || q.hstate == Conn(ConnToken)
            || (q.hstate == p.hstate && Spelling(v + [ch], q.index, w))
            || (q.hstate == hit && Spelt(v + [ch], w))
  {
    hide Current, LowerAll, SetBit5, TrimRight;
    if SetBit5(ch) == w[p.index + 1] {
      NextOf(v, p.index, ch, w);
    }
  }

  /** The first byte of an element. */
  lemma StartLink(v: bytes, ch: byte, other: HState)
    requires Current(v) == [] && ch != CR
    requires other.Conn? ==> TokenText(other.token, 0, v + [ch])
    ensures var h := ConnFirst(SetBit5(ch), other); h.Conn? ==> TokenText(h.token, 0, v + [ch])
  {
    hide Current, LowerAll, SetBit5, KEEP_ALIVE, CLOSE, UPGRADE;
    Words();
    if SetBit5(ch) == 'k' as int {
      FirstOf(v, ch, KEEP_ALIVE);
    } else if SetBit5(ch) == 'c' as int {
      FirstOf(v, ch, CLOSE);
    } else if SetBit5(ch) == 'u' as int {
      FirstOf(v, ch, UPGRADE);
    }
  }

  lemma ConnByteText(p: Parser, v: bytes, ch: byte)
    requires p.hstate.Conn? && ValueShape(p.hstate, p.index) && TokenText(p.hstate.token, p.index, v)
    requires ch != CR && IsHeaderChar(ch)
    ensures var q := ConnByte(p, ch); q.hstate.Conn? ==> TokenText(q.hstate.token, q.index, v + [ch])
  {
    hide Current, LowerAll, TrimRight, Match, ConnFirst, RaiseToken, KEEP_ALIVE, CLOSE, UPGRADE, Spelling, Spelt;
    Words();
    CurrentSnoc(v, ch);
    match p.hstate.token {
      case ConnTokenStart =>
        var c := SetBit5(ch);
        assert c != HT;
        StartLink(v, ch, if IsToken(c) then Conn(ConnToken) else if c == SP || c == HT then p.hstate else General);
      case ConnMatchingKeepAlive => MatchLink(p, v, ch, KEEP_ALIVE, Conn(ConnKeepAlive));
      case ConnMatchingClose => MatchLink(p, v, ch, CLOSE, Conn(ConnClose));
      case ConnMatchingUpgrade => MatchLink(p, v, ch, UPGRADE, Conn(ConnUpgrade));
      case ConnToken =>
      case ConnKeepAlive => if ch == SP { SpaceAfter(v, KEEP_ALIVE); }
      case ConnClose => if ch == SP { SpaceAfter(v, CLOSE); }
      case ConnUpgrade => if ch == SP { SpaceAfter(v, UPGRADE); }
    }
  }

  /** Which word a raised flag stands for. */
  lemma Raises(f: Flags, h: HState, v: bytes, i: nat)
    requires h.Conn? ==> TokenText(h.token, i, v)
    ensures var g := RaiseToken(f, h);
            && g.upgrade == f.upgrade
            && (g.keepAlive ==> f.keepAlive || (h.Conn? && Spelt(v, KEEP_ALIVE)))
            && (g.close ==> f.close || (h.Conn? && Spelt(v, CLOSE)))
            && (g.connectionUpgrade ==> f.connectionUpgrade || (h.Conn? && Spelt(v, UPGRADE)))
  {
    hide Spelt, Spelling, Current;
  }

  // ---------------------------------------------------------------- passes that leave the values alone

  predicate ConnSame(f: Flags, g: Flags) {
    && g.keepAlive == f.keepAlive && g.close == f.close
    && g.connectionUpgrade == f.connectionUpgrade && g.upgrade == f.upgrade
  }

  lemma QuietKeeps(p: Parser, c: Client, q: Parser, d: Client)
    requires ConnInv(p, c) && Within(p.state) && !InText(p.state) && !InText(q.state)
    requires Done(q, d) == Done(p, c) && ConnSame(p.flags, q.flags)
    ensures ConnInv(q, d)
  {
    hide AnyElement, AnyUpgrade, Done;
  }

  lemma NameFrame(p: Parser, ch: byte)
    requires p.state.HeaderFieldStart? || p.state.HeaderField?
    ensures var o := SwitchName(p, ch);
            !o.ctl.Fail? ==>
              && ConnSame(p.flags, o.p.flags)
              && (if o.ev == [] then p.state.HeaderFieldStart? && o.p.state.HeadersAlmostDone?
                  else |o.ev| == 1 && o.ev[0].Data? && o.ev[0].piece.Field? && InName(o.p.state))
  {
    hide IsToken, NameByte;
  }

  /** A piece of a name leaves the lines before it alone. */
  lemma NameDelivered(p: Parser, c: Client, t: bytes, q: Parser)
    requires Link(p, c) && (p.state.HeaderFieldStart? || p.state.HeaderField?) && InName(q.state)
    ensures var d := Deliver(c, Data(Field, t)); Done(q, d) == Done(p, c)
  {
  }

  lemma NameQuiet(p: Parser, c: Client, ch: byte)
    requires Inv(p, c) && ConnInv(p, c) && (p.state.HeaderFieldStart? || p.state.HeaderField?)
    ensures var o := SwitchName(p, ch); !o.ctl.Fail? ==> ConnInv(o.p, DeliverAll(c, o.ev))
  {
    hide SwitchName, FieldLink, Core, ConnInv, Link, ConnSame, Deliver, Done;
    var o := SwitchName(p, ch);
    NameFrame(p, ch);
    if !o.ctl.Fail? {
      if o.ev == [] {
        SameDone(p, c, o.p, c);
        QuietKeeps(p, c, o.p, c);
      } else {
        assert o.ev == [o.ev[0]];
        DeliverOne(c, o.ev[0]);
        NameDelivered(p, c, o.ev[0].text, o.p);
        QuietKeeps(p, c, o.p, Deliver(c, o.ev[0]));
      }
    }
  }

  lemma SameDone(p: Parser, c: Client, q: Parser, d: Client)
    requires !InText(p.state) && !InText(q.state) && InName(p.state) == InName(q.state) && d.fields == c.fields
    ensures Done(q, d) == Done(p, c)
  {
  }

  lemma FieldsStay(c: Client, e: Event)
    requires !e.Begin? && !(e.Data? && (e.piece.Field? || e.piece.Value?))
    ensures Deliver(c, e).fields == c.fields
  {
  }

  /** After the headers, and in bodies and chunks, the fields of the message stay. */
  predicate EndFrame(p: Parser, o: Out) {
    && ConnSame(p.flags, o.p.flags) && |o.ev| <= 1 && !InText(o.p.state) && !InName(o.p.state)
    && (o.ev != [] ==> !o.ev[0].Begin? && !(o.ev[0].Data? && (o.ev[0].piece.Field? || o.ev[0].piece.Value?)))
  }

  lemma EndQuiet(p: Parser, c: Client, o: Out)
    requires ConnInv(p, c) && Within(p.state) && !InText(p.state) && !InName(p.state) && EndFrame(p, o)
    ensures ConnInv(o.p, DeliverAll(c, o.ev))
  {
    hide ConnInv, ConnSame, Deliver, Done;
    if o.ev == [] {
      SameDone(p, c, o.p, c);
      QuietKeeps(p, c, o.p, c);
    } else {
      assert o.ev == [o.ev[0]];
      DeliverOne(c, o.ev[0]);
      FieldsStay(c, o.ev[0]);
      SameDone(p, c, o.p, Deliver(c, o.ev[0]));
      QuietKeeps(p, c, o.p, Deliver(c, o.ev[0]));
    }
  }

  lemma HeadersEndFrame(cfg: Config, p: Parser, ch: byte)
    requires p.state.HeadersAlmostDone? || p.state.HeadersDone?
    ensures var o := SwitchHeadersEnd(cfg, p, ch); !o.ctl.Fail? ==> EndFrame(p, o)
  {
    hide ShouldKeepAlive, NeedsEof, SkipsBody;
  }

  lemma BodyFrame(p: Parser, ch: byte)
    requires IsBodyState(p.state)
    ensures var o := SwitchBody(p, ch); !o.ctl.Fail? ==> EndFrame(p, o)
  {
    hide ShouldKeepAlive;
  }

  lemma ChunkFrame(p: Parser, ch: byte)
    requires p.state.ChunkLine?
    ensures var o := SwitchChunkLine(p, ch); !o.ctl.Fail? ==> EndFrame(p, o)
  {
    hide Unhex;
  }

  /** Before the headers no flag is up. */
  lemma StartQuiet(cfg: Config, p: Parser, c: Client, ch: byte)
    requires Inv(p, c) && (InStartLine(p.state) || p.state.Dead? || p.state.StartReqOrRes? || p.state.StartReq?
                           || p.state.StartRes?)
    ensures var o := Switch(cfg, p, ch); !o.ctl.Fail? ==> ConnInv(o.p, DeliverAll(c, o.ev))
  {
    hide FieldLink, Link, SwitchStatusLine, SwitchMethod, SwitchUrl, SwitchReqVersion, Deliver, DeliverAll;
    if p.state.ResLine? {
      StatusLineFrame(p, ch);
    } else if p.state.ReqMethod? {
      MethodFrame(p, ch);
    } else if p.state.ReqUrl? {
      UrlFrame(p, ch);
    } else if p.state.ReqVersion? {
      ReqVersionFrame(p, ch);
    }
  }

  // ---------------------------------------------------------------- passes over values

  /** A word is behind the flag after a byte of a value: it was before, or the byte is the comma
      after it. */
  lemma BackedGrows(p: Parser, c: Client, ch: byte, q: Parser, w: bytes)
    requires (InName(p.state) || InText(p.state)) && c.fields != [] && q.state.HeaderValue?
    requires Backed(p, c, w) || (ConnLine(Last(c)) && ch == COMMA && Spelt(Last(c).value, w))
    ensures Backed(q, WithText(c, p.flags.trailing, ch), w)
  {
    hide AnyElement, HasClosed, ConnLine, Spelt;
    var d := WithText(c, p.flags.trailing, ch);
    assert Done(q, d) == Done(p, c);
    if !AnyElement(Done(p, c), w) {
      LastGrows(Last(c), ch, w);
    }
  }

  lemma LastGrows(f: HeaderLine, ch: byte, w: bytes)
    requires HasClosed(f.value, w) || (ch == COMMA && Spelt(f.value, w))
    ensures HasClosed(f.value + [ch], w)
    ensures ConnLine(f) == ConnLine(f.(value := f.value + [ch]))
  {
    hide HasClosed;
    if HasClosed(f.value, w) {
      ClosedStays(f.value, ch, w);
    } else {
      CurrentIsElement(f.value, w);
    }
  }

  lemma UpgradeGrows(p: Parser, c: Client, ch: byte, q: Parser)
    requires (InName(p.state) || InText(p.state)) && c.fields != [] && q.state.HeaderValue?
    requires UpgradeBacked(p, c) || Named(Last(c), UPGRADE)
    ensures UpgradeBacked(q, WithText(c, p.flags.trailing, ch))
  {
    hide AnyUpgrade, LowerAll, UPGRADE;
    var d := WithText(c, p.flags.trailing, ch);
    assert Done(q, d) == Done(p, c);
  }

  /** What a byte of a value may do to the flags. */
  predicate Raised(p: Parser, f: HeaderLine, ch: byte, q: Parser) {
    && (q.flags.keepAlive ==> p.flags.keepAlive || (ConnLine(f) && ch == COMMA && Spelt(f.value, KEEP_ALIVE)))
    && (q.flags.close ==> p.flags.close || (ConnLine(f) && ch == COMMA && Spelt(f.value, CLOSE)))
    && (q.flags.connectionUpgrade ==>
          p.flags.connectionUpgrade || (ConnLine(f) && ch == COMMA && Spelt(f.value, UPGRADE)))
    && (q.flags.upgrade ==> p.flags.upgrade || Named(f, UPGRADE))
  }

  lemma TextGrows(p: Parser, c: Client, ch: byte, q: Parser)
    requires ConnInv(p, c) && (InName(p.state) || InText(p.state)) && c.fields != [] && q.state.HeaderValue?
    requires Raised(p, Last(c), ch, q) && TokenLink(q, Last(c).(value := Last(c).value + [ch]))
    ensures ConnInv(q, WithText(c, p.flags.trailing, ch))
  {
    hide Backed, UpgradeBacked, TokenLink, Spelt, ConnLine, Named;
    if q.flags.keepAlive { BackedGrows(p, c, ch, q, KEEP_ALIVE); }
    if q.flags.close { BackedGrows(p, c, ch, q, CLOSE); }
    if q.flags.connectionUpgrade { BackedGrows(p, c, ch, q, UPGRADE); }
    if q.flags.upgrade { UpgradeGrows(p, c, ch, q); }
  }

  lemma ValueStartConn(p: Parser, f: HeaderLine, ch: byte)
    requires p.state == Discard(Ws) || p.state.HeaderValueStart?
    requires p.state.Discard? ==> NameLink(p, f) && NameShape(p.hstate, p.index)
    requires p.state.HeaderValueStart? ==> IsBlank(ch) && TokenLink(p, f) && ValueShape(p.hstate, p.index)
    requires ch != CR
    ensures var o := ValueStart(p, ch);
            !o.ctl.Fail? ==> Raised(p, f, ch, o.p) && TokenLink(o.p, f.(value := f.value + [ch]))
  {
    hide NameState, LowerAll, Current, SetBit5, ConnFirst, CONNECTION, PROXY_CONNECTION, UPGRADE, CONTENT_LENGTH,
         TRANSFER_ENCODING, Spelling, Spelt;
    NameOfState(f);
    CurrentSnoc(f.value, ch);
    if p.state.Discard? {
      CurrentNone(f.value);
      StartLink(f.value, ch, Conn(ConnToken));
    }
  }

  lemma ValueByteConn(p: Parser, f: HeaderLine, ch: byte)
    requires ValueShape(p.hstate, p.index) && p.index < 32 && TokenLink(p, f) && ch != CR && IsHeaderChar(ch)
    ensures var o := ValueByte(p, ch);
            !o.ctl.Fail? ==> Raised(p, f, ch, o.p) && TokenLink(o.p, f.(value := f.value + [ch]))
  {
    hide LowerAll, Current, TrimRight, TeByte, ConnByte, Spelling, Spelt, TokenText;
    var o := ValueByte(p, ch);
    if p.hstate.Te? {
      TeByteFrame(p, ch, p.nread);
    } else if p.hstate.Conn? {
      ConnByteText(p, f.value, ch);
      ConnByteRaises(p, f.value, ch);
      ConnByteFrame(p, ch, p.nread);
      assert ConnLine(f.(value := f.value + [ch]));
    }
  }

  lemma ConnByteRaises(p: Parser, v: bytes, ch: byte)
    requires p.hstate.Conn? && TokenText(p.hstate.token, p.index, v)
    ensures var q := ConnByte(p, ch);
            && q.flags.upgrade == p.flags.upgrade
            && (q.flags.keepAlive ==> p.flags.keepAlive || (ch == COMMA && Spelt(v, KEEP_ALIVE)))
            && (q.flags.close ==> p.flags.close || (ch == COMMA && Spelt(v, CLOSE)))
            && (q.flags.connectionUpgrade ==> p.flags.connectionUpgrade || (ch == COMMA && Spelt(v, UPGRADE)))
  {
    hide Current, LowerAll, TrimRight, Match, ConnFirst, SetBit5, IsToken, Spelling, Spelt, RaiseToken;
    Raises(p.flags, p.hstate, v, p.index);
  }

  /** The end of a line: its last element counts as well. */
  lemma LineEndConn(p: Parser, c: Client, q: Parser, d: Client)
    requires ConnInv(p, c) && (InName(p.state) || InText(p.state)) && c.fields != []
    requires q.state.HeaderFieldStart? && d.fields == c.fields && q.flags == RaiseToken(p.flags, p.hstate)
    requires InName(p.state) ==> !p.hstate.Conn?
    ensures ConnInv(q, d)
  {
    hide RaiseToken, AnyElement, AnyUpgrade, TokenText, Spelt;
    var f := Last(c);
    Raises(p.flags, p.hstate, f.value, p.index);
    if q.flags.keepAlive { BackedEnds(p, c, KEEP_ALIVE); }
    if q.flags.close { BackedEnds(p, c, CLOSE); }
    if q.flags.connectionUpgrade { BackedEnds(p, c, UPGRADE); }
    AnyLonger(c.fields, CLOSE);
  }

  lemma BackedEnds(p: Parser, c: Client, w: bytes)
    requires (InName(p.state) || InText(p.state)) && c.fields != []
    requires Backed(p, c, w) || (InText(p.state) && ConnLine(Last(c)) && Spelt(Last(c).value, w))
    ensures AnyElement(c.fields, w)
  {
    hide AnyElement, HasClosed, HasElement, ConnLine;
    AnyLonger(c.fields, w);
    if HasClosed(Last(c).value, w) {
      ClosedStays(Last(c).value, SP, w);
    } else if Spelt(Last(c).value, w) {
      CurrentIsElement(Last(c).value, w);
    }
  }

  /** The first byte of a value, or the blank that opens a folded line. */
  lemma FirstByteConn(p: Parser, c: Client, ch: byte)
    requires Inv(p, c) && ConnInv(p, c) && (p.state == Discard(Ws) || p.state.HeaderValueStart?)
    requires ch != CR && (p.state.HeaderValueStart? ==> IsBlank(ch))
    ensures var o := ValueStart(p, ch); !o.ctl.Fail? ==> ConnInv(o.p, DeliverAll(c, o.ev))
  {
    hide ValueStart, ValueShape, NameShape, NameLink, TokenLink, Raised, FlagsBacked, TeLink, LengthLink, FlagLink,
         LengthLines, KindOk, MethodName, FlagsOk;
    var o := ValueStart(p, ch);
    if !o.ctl.Fail? {
      ValueStartConn(p, Last(c), ch);
      StartedFrame(p, ch);
      DeliverText(c, p.flags.trailing, ch);
      TextGrows(p, c, ch, o.p);
    }
  }

  lemma StartedFrame(p: Parser, ch: byte)
    ensures var o := ValueStart(p, ch); !o.ctl.Fail? ==> o.ev == [Data(Value, [ch])] && o.p.state.HeaderValue?
  {
    hide SetBit5, ConnFirst;
  }

  lemma NextByteConn(p: Parser, c: Client, ch: byte)
    requires Inv(p, c) && ConnInv(p, c) && p.state.HeaderValue? && ch != CR && ch != LF && IsHeaderChar(ch)
    ensures var o := SwitchValue(p, ch); !o.ctl.Fail? ==> ConnInv(o.p, DeliverAll(c, o.ev))
  {
    hide ValueByte, ValueShape, NameShape, NameLink, TokenLink, Raised, FlagsBacked, TeLink, LengthLink, FlagLink,
         LengthLines, KindOk, MethodName, FlagsOk;
    var o := ValueByte(p, ch);
    if !o.ctl.Fail? {
      TextCore(p, ch);
      ValueByteConn(p, Last(c), ch);
      DeliverText(c, p.flags.trailing, ch);
      TextGrows(p, c, ch, o.p);
    }
  }

  /** A pass that moves within a line, or within a name, without a byte of text. */
  lemma SameConn(p: Parser, c: Client, q: Parser, d: Client)
    requires ConnInv(p, c) && Within(p.state) && Within(q.state) && c.fields != [] && d.fields == c.fields
    requires InName(p.state) == InName(q.state) && InText(p.state) == InText(q.state)
             && (InName(p.state) || InText(p.state))
    requires q.flags == p.flags && (q.hstate.Conn? ==> q.hstate == p.hstate && q.index == p.index)
    ensures ConnInv(q, d)
  {
    hide AnyElement, AnyUpgrade, HasClosed, TokenText;
    assert Done(q, d) == Done(p, c);
  }

  lemma DeliverNothing(c: Client)
    requires c.fields != [] && (c.phase.Name? || c.phase.Text?)
    ensures DeliverAll(c, [Data(Value, [])]).fields == c.fields
  {
    hide DeliverAll;
    var none: bytes := [];
    DeliverOne(c, Data(Value, none));
    assert Last(c).value + none == Last(c).value;
  }

  lemma ValueConn(p: Parser, c: Client, ch: byte)
    requires Inv(p, c) && ConnInv(p, c) && IsValueState(p.state)
    requires p.state.HeaderValueStart? ==> IsBlank(ch)
    ensures var o := SwitchValue(p, ch); !o.ctl.Fail? ==> ConnInv(o.p, DeliverAll(c, o.ev))
  {
    hide ConnInv, ValueStart, ValueByte, RaiseToken, ValueShape, FieldLink, KindOk, FlagsOk, IsHeaderChar, MethodName;
    var o := SwitchValue(p, ch);
    match p.state {
      case HeaderValueStart => FirstByteConn(p, c, ch);
      case HeaderValue =>
        if ch == CR || ch == LF {
          DeliverNothing(c);
          SameConn(p, c, o.p, DeliverAll(c, o.ev));
        } else if IsHeaderChar(ch) {
          NextByteConn(p, c, ch);
        }
      case HeaderAlmostDone => if ch == LF { SameConn(p, c, o.p, c); }
      case HeaderValueLws => if IsBlank(ch) { SameConn(p, c, o.p, c); } else { LineEndConn(p, c, o.p, c); }
      case Discard(_) => DiscardConn(p, c, ch);
    }
  }

  lemma DiscardConn(p: Parser, c: Client, ch: byte)
    requires Inv(p, c) && ConnInv(p, c) && p.state.Discard?
    ensures var o := SwitchDiscard(p, ch); !o.ctl.Fail? ==> ConnInv(o.p, DeliverAll(c, o.ev))
  {
    hide ConnInv, ValueStart, RaiseToken, ValueShape, FieldLink, KindOk, FlagsOk, MethodName;
    var o := SwitchDiscard(p, ch);
    if o.ctl.Fail? {
    } else if p.state.ws.Lws? && !IsBlank(ch) {
      DeliverNothing(c);
      LineEndConn(p, c, o.p, DeliverAll(c, o.ev));
    } else if p.state.ws.Ws? && !IsBlank(ch) && ch != CR && ch != LF {
      FirstByteConn(p, c, ch);
    } else {
      SameConn(p, c, o.p, c);
    }
  }

  // ---------------------------------------------------------------- whole runs

  lemma SwitchConn(cfg: Config, p: Parser, c: Client, ch: byte)
    requires Inv(p, c) && ConnInv(p, c) && Entered(p.state, ch)
    ensures var o := Switch(cfg, p, ch); !o.ctl.Fail? ==> ConnInv(o.p, DeliverAll(c, o.ev))
  {
    hide Inv, ConnInv, SwitchName, SwitchValue, SwitchBody, SwitchChunkLine, SwitchHeadersEnd, SwitchUrl,
         SwitchMethod, SwitchReqVersion, SwitchStatusLine, SwitchIdle, EndFrame, DeliverAll;
    if p.state.HeaderFieldStart? || p.state.HeaderField? {
      NameQuiet(p, c, ch);
    } else if IsValueState(p.state) {
      ValueConn(p, c, ch);
    } else if IsBodyState(p.state) {
      BodyFrame(p, ch);
      if !SwitchBody(p, ch).ctl.Fail? { EndQuiet(p, c, SwitchBody(p, ch)); }
    } else if p.state.ChunkLine? {
      ChunkFrame(p, ch);
      if !SwitchChunkLine(p, ch).ctl.Fail? { EndQuiet(p, c, SwitchChunkLine(p, ch)); }
    } else if p.state.HeadersAlmostDone? || p.state.HeadersDone? {
      HeadersEndFrame(cfg, p, ch);
      if !SwitchHeadersEnd(cfg, p, ch).ctl.Fail? { EndQuiet(p, c, SwitchHeadersEnd(cfg, p, ch)); }
    } else {
      StartQuiet(cfg, p, c, ch);
    }
  }

  lemma {:induction false} ChainConn(cfg: Config, p: Parser, c: Client, ch: byte)
    requires Inv(p, c) && ConnInv(p, c) && Entered(p.state, ch)
    ensures var o := Chain(cfg, p, ch); !o.ctl.Fail? ==> ConnInv(o.p, DeliverAll(c, o.ev))
    decreases Rank(p.state)
  {
    hide Switch, Link, FieldLink, ConnInv, KindOk, FlagsOk, CountersOk;
    var s := Switch(cfg, p, ch);
    SwitchConn(cfg, p, c, ch);
    SwitchKeeps(cfg, p, c, ch);
    SwitchEnds(cfg, p, ch);
    if s.ctl.Again? {
      AgainLowersRank(cfg, p, ch);
      ChainConn(cfg, s.p, DeliverAll(c, s.ev), ch);
      DeliverConcat(c, s.ev, Chain(cfg, s.p, ch).ev);
    }
  }

  lemma CountedConn(p: Parser, c: Client)
    requires ConnInv(p, c)
    ensures ConnInv(Counted(p), c)
  {
    hide AnyElement, AnyUpgrade, HasClosed, TokenText;
  }

  lemma {:induction false} RunConn(cfg: Config, p: Parser, c: Client, data: bytes, n: nat)
    requires Good(cfg, p, c) && ConnInv(p, c) && n <= |data|
    ensures var t := Run(cfg, p, data, n); !t.ctl.Fail? ==> ConnInv(t.p, DeliverAll(c, t.ev))
    decreases n
  {
    hide Chain, Link, FieldLink, CountersOk, FlagsOk, KindOk, ConnInv;
    if n > 0 {
      RunConn(cfg, p, c, data, n - 1);
      RunKeeps(cfg, p, c, data, n - 1);
      var t := Run(cfg, p, data, n - 1);
      if t.ctl.Next? {
        var d := DeliverAll(c, t.ev);
        CountedKeeps(t.p, d);
        CountedConn(t.p, d);
        ChainConn(cfg, Counted(t.p), d, data[n - 1]);
        DeliverConcat(c, t.ev, Step(cfg, t.p, data[n - 1]).ev);
      }
    }
  }

  /** The connection flags speak of the fields alone. */
  lemma SameFields(p: Parser, c: Client, d: Client)
    requires ConnInv(p, c) && d.fields == c.fields
    ensures ConnInv(p, d)
  {
    hide AnyElement, AnyUpgrade, HasClosed, TokenText;
    assert Done(p, d) == Done(p, c);
  }

  lemma CallConn(cfg: Config, p: Parser, c: Client, data: bytes)
    requires Good(cfg, p, c) && ConnInv(p, c)
    ensures var (q, ev) := Call(cfg, p, data); q.errno.OK? ==> ConnInv(q, DeliverAll(c, ev))
  {
    hide Run, Good, ConnInv, ShouldKeepAlive, DeliverAll;
    GoodIsOk(cfg, p, c);
    if data != [] {
      RunConn(cfg, p, c, data, |data|);
      RunKeeps(cfg, p, c, data, |data|);
    } else if p.state.BodyIdentityEof? {
      EndCompletes(cfg, p, c);
      SameFields(p, c, DeliverAll(c, AtEof(p).ev));
    } else {
      DeliverNone(c);
    }
  }

  lemma {:induction false} FeedConn(cfg: Config, k: Kind, calls: seq<bytes>)
    ensures var (p, ev) := Feed(cfg, k, calls); p.errno.OK? ==> ConnInv(p, DeliverAll(FRESH, ev))
  {
    hide Call, Good, ConnInv, DeliverAll;
    if calls == [] {
      StartConn(k);
      DeliverNone(FRESH);
    } else {
      var init, data := calls[..|calls| - 1], calls[|calls| - 1];
      var (p, ev) := Feed(cfg, k, init);
      var c := DeliverAll(FRESH, ev);
      FeedConn(cfg, k, init);
      FeedKeeps(cfg, k, init);
      DeliverConcat(FRESH, ev, Call(cfg, p, data).1);
      if Over(cfg, k, init) {
        CallAfterEnd(cfg, p, c, data);
        SameFields(p, c, DeliverAll(c, Call(cfg, p, data).1));
      } else if p.errno.OK? {
        CallConn(cfg, p, c, data);
      } else {
        CallIgnored(cfg, p, data);
      }
    }
  }

  lemma StartConn(k: Kind)
    ensures ConnInv(Init(k), FRESH)
  {
  }

  /** In every header section and body, the connection flags are backed by the text that the
      application was given: a Connection or Proxy-Connection line has the element, ignoring case,
      and there is an Upgrade line. */
  lemma ConnectionSound(cfg: Config, k: Kind, calls: seq<bytes>)
    ensures var (p, ev) := Feed(cfg, k, calls);
            var c := DeliverAll(FRESH, ev);
            p.errno.OK? && Within(p.state) && !InName(p.state) && !InText(p.state) ==>
              && (p.flags.keepAlive ==> AnyElement(c.fields, KEEP_ALIVE))
              && (p.flags.close ==> AnyElement(c.fields, CLOSE))
              && (p.flags.connectionUpgrade ==> AnyElement(c.fields, UPGRADE))
              && (p.flags.upgrade ==> AnyUpgrade(c.fields))
  {
    hide AnyElement, AnyUpgrade, KEEP_ALIVE, CLOSE, UPGRADE;
    FeedConn(cfg, k, calls);
  }

  // ---------------------------------------------------------------- the end of a line

  lemma LowerIsSetBit5(b: byte, l: byte)
    requires IsLetter(l) && Lower(b) == l
    ensures SetBit5(b) == l && b != CR && b != LF && !IsBlank(b) && IsHeaderChar(b)
  {
  }

  lemma RunZero(cfg: Config, p: Parser, data: bytes)
    ensures Run(cfg, p, data, 0) == Trail(p, [], Next, 0)
  {
  }

  lemma EndOfValue(cfg: Config, p: Parser)
    requires p.state.HeaderValue? && p.nread < cfg.maxHeaderSize
    ensures var o := Step(cfg, p, CR); o.ctl.Next? && o.p == p.(nread := p.nread + 1, state := HeaderAlmostDone)
  {
  }

  lemma EndOfLine(cfg: Config, p: Parser)
    requires p.state.HeaderAlmostDone? && p.nread < cfg.maxHeaderSize
    ensures var o := Step(cfg, p, LF); o.ctl.Next? && o.p == p.(nread := p.nread + 1, state := HeaderValueLws)
  {
  }

  /** The first byte of the next line, or the CR of the empty line. */
  lemma NextLine(cfg: Config, p: Parser, b: byte)
    requires p.state.HeaderValueLws? && p.nread < cfg.maxHeaderSize && (IsToken(b) || b == CR)
    ensures var o := Step(cfg, p, b); o.ctl.Next? && o.p.flags == RaiseToken(p.flags, p.hstate)
  {
    hide RaiseToken, SwitchName;
    var q := p.(nread := p.nread + 1);
    var r := q.(flags := RaiseToken(q.flags, q.hstate), state := HeaderFieldStart);
    assert !IsBlank(b);
    assert Switch(cfg, q, b) == Out(r, [], Again);
    LineBegins(r, b);
    assert Chain(cfg, r, b) == Switch(cfg, r, b);
  }

  lemma LineBegins(p: Parser, b: byte)
    requires p.state.HeaderFieldStart? && (IsToken(b) || b == CR)
    ensures var o := SwitchName(p, b); o.ctl.Next? && o.p.flags == p.flags
  {
  }

  /** The end of a value and the first byte after its line. */
  lemma LineEndRun(cfg: Config, p: Parser, data: bytes, n: nat)
    requires n + 3 <= |data| && data[n] == CR && data[n + 1] == LF && (IsToken(data[n + 2]) || data[n + 2] == CR)
    requires var r := Run(cfg, p, data, n);
             r.ctl.Next? && r.p.state.HeaderValue? && r.p.nread + 3 <= cfg.maxHeaderSize
    ensures var r, s := Run(cfg, p, data, n), Run(cfg, p, data, n + 3);
            s.ctl.Next? && s.p.flags == RaiseToken(r.p.flags, r.p.hstate)
  {
    hide Step, IsToken, RaiseToken;
    EndOfValue(cfg, Run(cfg, p, data, n).p);
    EndOfLine(cfg, Run(cfg, p, data, n + 1).p);
    NextLine(cfg, Run(cfg, p, data, n + 2).p, data[n + 2]);
  }

  // ---------------------------------------------------------------- what that means

  /** Whether a connection stays open follows from the text: below HTTP/1.1 only a "keep-alive"
      element keeps it open, and from HTTP/1.1 on a message with its own end closes it only for a
      "close" element. */
  lemma PersistenceSound(cfg: Config, k: Kind, calls: seq<bytes>)
    ensures var (p, ev) := Feed(cfg, k, calls);
            var c := DeliverAll(FRESH, ev);
            p.errno.OK? && Within(p.state) && !InName(p.state) && !InText(p.state) ==>
              if p.major > 0 && p.minor > 0 then !ShouldKeepAlive(p) && !NeedsEof(p) ==> AnyElement(c.fields, CLOSE)
              else ShouldKeepAlive(p) ==> AnyElement(c.fields, KEEP_ALIVE)
  {
    hide AnyElement, AnyUpgrade, KEEP_ALIVE, CLOSE, UPGRADE, NeedsEof, Feed;
    ConnectionSound(cfg, k, calls);
  }

  lemma NothingBlank(w: bytes)
    requires AllLetters(w)
    ensures LowerAll(TrimRight(TrimLeft(w))) == w
  {
  }
}
