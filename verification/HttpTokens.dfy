/** Three exactness results about what the machine reads: chunk sizes, request methods, and the
    header budget. */
module HttpTokens {
  import opened Ascii
  import opened HttpTypes
  import opened HttpMachine
  import opened HttpClient
  import opened HttpShape
  import opened HttpInvariant
  import opened HttpRuns
  import opened HttpBatch
  import opened HttpFeed

  // ---------------------------------------------------------------- chunk sizes

  predicate AllUnhex(s: bytes) { forall i | 0 <= i < |s| :: Unhex(s[i]) >= 0 }

  predicate AllHex(s: bytes) { forall i | 0 <= i < |s| :: IsHex(s[i]) }

  /** The value of a string of digits as the `unhex` table reads them. */
  function SizeValue(s: bytes): nat
    requires AllUnhex(s)
  {
    if s == [] then 0 else 16 * SizeValue(s[..|s| - 1]) + Unhex(s[|s| - 1])
  }

  function HexDigit(b: byte): nat
    requires IsHex(b)
  {
    if IsNum(b) then b - '0' as int else Lower(b) - 'a' as int + 10
  }

  /** The mathematical value of a hexadecimal numeral. */
  function Hexadecimal(s: bytes): nat
    requires AllHex(s)
  {
    if s == [] then 0 else 16 * Hexadecimal(s[..|s| - 1]) + HexDigit(s[|s| - 1])
  }

  /** The largest value a chunk size may have before its last digit. */
  const SIZE_LIMIT: nat := (ABSENT - 16) / 16

  lemma StepSize(cfg: Config, p: Parser, b: byte)
    requires p.state == ChunkLine(Size) && p.nread < cfg.maxHeaderSize && Unhex(b) >= 0
    ensures var o := Step(cfg, p, b);
            if SIZE_LIMIT < p.contentLength then o.ctl.Fail?
            else o == Out(p.(nread := p.nread + 1, contentLength := 16 * p.contentLength + Unhex(b)), [], Next)
  {
  }

  lemma StepSizeStart(cfg: Config, p: Parser, b: byte)
    requires p.state == ChunkLine(SizeStart) && p.nread < cfg.maxHeaderSize && Unhex(b) >= 0
    ensures Step(cfg, p, b) ==
            Out(p.(nread := p.nread + 1, contentLength := Unhex(b), state := ChunkLine(Size)), [], Next)
  {
  }

  /** A chunk size of any number of digits is accepted exactly when its value fits; the value
      recorded is then the value of the digits, and never the sentinel. */
  lemma {:induction false} ChunkSizeExact(cfg: Config, p: Parser, data: bytes, n: nat)
    requires p.state == ChunkLine(SizeStart) && 1 <= n <= |data| && AllUnhex(data)
    requires p.nread + n <= cfg.maxHeaderSize
    ensures var t := Run(cfg, p, data, n);
            if SizeValue(data[..n - 1]) <= SIZE_LIMIT then
              && t == Trail(p.(nread := p.nread + n, contentLength := SizeValue(data[..n]), state := ChunkLine(Size)),
                            [], Next, n)
              && SizeValue(data[..n]) < ABSENT
            else t.ctl.Fail?
    decreases n
  {
    hide Step, SizeValue, AllUnhex;
    RunNext(cfg, p, data, n - 1);
    SizeSnoc(data, n);
    if n == 1 {
      SizeOfNone(data);
      StepSizeStart(cfg, p, data[0]);
    } else {
      ChunkSizeExact(cfg, p, data, n - 1);
      SizeSnoc(data, n - 1);
      var t := Run(cfg, p, data, n - 1);
      if SizeValue(data[..n - 2]) <= SIZE_LIMIT {
        StepSize(cfg, t.p, data[n - 1]);
      }
    }
  }

  lemma SizeSnoc(s: bytes, n: nat)
    requires 1 <= n <= |s| && AllUnhex(s)
    ensures Unhex(s[n - 1]) >= 0 && AllUnhex(s[..n - 1]) && AllUnhex(s[..n])
    ensures SizeValue(s[..n]) == 16 * SizeValue(s[..n - 1]) + Unhex(s[n - 1])
  {
    assert s[..n][..n - 1] == s[..n - 1];
  }

  lemma SizeOfNone(s: bytes)
    ensures SizeValue(s[..0]) == 0
  {
  }

  /** Where the table is right: on hexadecimal digits the recorded size is the numeral's value. */
  lemma {:induction false} SizeIsHexadecimal(s: bytes)
    requires AllHex(s)
    ensures AllUnhex(s) && SizeValue(s) == Hexadecimal(s)
  {
    if s != [] {
      SizeIsHexadecimal(s[..|s| - 1]);
    }
  }

  /** The table takes every byte from 128 up for the digit 0, so an accepted size line is a
      hexadecimal numeral if and only if it has no such byte. */
  lemma SizeIsNumeralIff(s: bytes)
    requires AllUnhex(s)
    ensures AllHex(s) <==> forall i | 0 <= i < |s| :: s[i] < 128
  {
    forall i | 0 <= i < |s|
      ensures IsHex(s[i]) <==> s[i] < 128
    {
      assert Unhex(s[i]) >= 0;
    }
  }

  /** "1" followed by byte 0x80 is read as the size 16. */
  lemma HighByteIsDigit(cfg: Config, p: Parser)
    requires p.state == ChunkLine(SizeStart) && p.nread + 2 <= cfg.maxHeaderSize
    ensures var line := ['1' as int, 0x80];
            !AllHex(line) && Run(cfg, p, line, 2).ctl.Next? && Run(cfg, p, line, 2).p.contentLength == 16
  {
    hide Run;
    var line: bytes := ['1' as int, 0x80];
    assert !IsHex(line[1]);
    assert line[..1] == ['1' as int] && line[..2] == line && line[..1][..0] == [];
    assert SizeValue(line[..1][..0]) == 0;
    ChunkSizeExact(cfg, p, line, 2);
    assert SizeValue(line[..1]) == 1;
  }

  // ---------------------------------------------------------------- methods

  /** The bytes `w` are the first |w| letters of the method's name. */
  predicate Spells(m: Method, w: bytes) {
    |w| <= |MethodName(m)| && forall i | 0 <= i < |w| :: w[i] == MethodName(m)[i] as int
  }

  lemma FirstMethodSpells(b: byte)
    requires HasFirstMethod(b)
    ensures Spells(FirstMethod(b), [b])
  {
  }

  /** The method table only switches between names that agree on what was read. */
  lemma NextMethodAgrees(m: Method, n: nat, b: byte)
    requires NextMethod(m, n, b).1
    ensures var m' := NextMethod(m, n, b).0;
            MethodName(m')[n] as int == b && forall i | 0 <= i < n :: MethodName(m')[i] == MethodName(m)[i]
  {
    if m.POST? || m.PUT? || m.CONNECT? || m.SUBSCRIBE? || m.REPORT? {
      NextMethodAgreesFirst(m, n, b);
    } else {
      NextMethodAgreesRest(m, n, b);
    }
  }

  lemma NextMethodAgreesFirst(m: Method, n: nat, b: byte)
    requires NextMethod(m, n, b).1 && (m.POST? || m.PUT? || m.CONNECT? || m.SUBSCRIBE? || m.REPORT?)
    ensures var m' := NextMethod(m, n, b).0;
            MethodName(m')[n] as int == b && forall i | 0 <= i < n :: MethodName(m')[i] == MethodName(m)[i]
  {
  }

  lemma NextMethodAgreesRest(m: Method, n: nat, b: byte)
    requires NextMethod(m, n, b).1 && !(m.POST? || m.PUT? || m.CONNECT? || m.SUBSCRIBE? || m.REPORT?)
    ensures var m' := NextMethod(m, n, b).0;
            MethodName(m')[n] as int == b && forall i | 0 <= i < n :: MethodName(m')[i] == MethodName(m)[i]
  {
  }

  datatype Tracked = Lost | Tracked(m: Method)

  /** The method automaton on letter i. */
  function Letter(m: Method, i: nat, b: byte): Tracked {
    if i < |MethodName(m)| && b == MethodName(m)[i] as int then Tracked(m)
    else if NextMethod(m, i, b).1 then Tracked(NextMethod(m, i, b).0)
    else Lost
  }

  /** The method automaton on the first n letters of a token. */
  function Track(w: bytes, n: nat): Tracked
    requires 1 <= n <= |w|
    decreases n
  {
    if n == 1 then if HasFirstMethod(w[0]) then Tracked(FirstMethod(w[0])) else Lost
    else
      var t := Track(w, n - 1);
      if t.Lost? then Lost else Letter(t.m, n - 1, w[n - 1])
  }

  lemma {:induction false} TrackSpells(w: bytes, n: nat)
    requires 1 <= n <= |w|
    ensures Track(w, n).Tracked? ==> Spells(Track(w, n).m, w[..n])
    decreases n
  {
    hide MethodName, NextMethod, FirstMethod;
    if n == 1 {
      if HasFirstMethod(w[0]) {
        FirstMethodSpells(w[0]);
        assert w[..1] == [w[0]];
      }
    } else {
      TrackSpells(w, n - 1);
      var t := Track(w, n - 1);
      if t.Tracked? && NextMethod(t.m, n - 1, w[n - 1]).1 {
        NextMethodAgrees(t.m, n - 1, w[n - 1]);
      }
    }
  }

  lemma {:induction false} TrackStays(w: bytes, m: Method, k: nat, n: nat)
    requires 1 <= k <= n <= |w| && Spells(m, w) && Track(w, k) == Tracked(m)
    ensures Track(w, n) == Tracked(m)
    decreases n - k
  {
    hide MethodName, NextMethod, FirstMethod;
    if k < n {
      TrackStays(w, m, k, n - 1);
    }
  }

  function TokenOf(m: Method): bytes {
    Ascii.Text(MethodName(m))
  }

  /** Every method of the table is found from its own name. */
  lemma TrackFinds(m: Method)
    ensures Track(TokenOf(m), |TokenOf(m)|) == Tracked(m)
  {
    hide Track;
    var k := TrackReaches(m);
    TrackStays(TokenOf(m), m, k, |TokenOf(m)|);
  }

  /** The letter at which each method is told apart from those that share its beginning. */
  function Decided(m: Method): nat {
    match m
    case PUT => 2 case PATCH => 2 case PROPFIND => 2 case CHECKOUT => 2 case MOVE => 2 case MERGE => 2
    case MSEARCH => 2 case SEARCH => 2 case SOURCE => 2 case LINK => 2
    case COPY => 3 case MKACTIVITY => 3 case REBIND => 3 case UNSUBSCRIBE => 3 case UNBIND => 3 case PURGE => 3
    case MKCALENDAR => 4 case UNLINK => 4
    case PROPPATCH => 5
    case _ => 1
  }

  lemma TrackReaches(m: Method) returns (k: nat)
    ensures 1 <= k <= |TokenOf(m)| && Track(TokenOf(m), k) == Tracked(m)
  {
    k := Decided(m);
    if k <= 2 {
      TrackReachesSoon(m);
    } else {
      TrackReachesLate(m);
    }
  }

  lemma TrackReachesSoon(m: Method)
    requires Decided(m) <= 2
    ensures Decided(m) <= |TokenOf(m)| && Track(TokenOf(m), Decided(m)) == Tracked(m)
  {
    var w := TokenOf(m);
    assert Track(w, 1) == Tracked(FirstMethod(w[0]));
  }

  lemma TrackReachesLate(m: Method)
    requires Decided(m) > 2
    ensures Decided(m) <= |TokenOf(m)| && Track(TokenOf(m), Decided(m)) == Tracked(m)
  {
    var w := TokenOf(m);
    assert Track(w, 1) == Tracked(FirstMethod(w[0]));
    assert Track(w, 2).Tracked?;
    assert Track(w, 3).Tracked?;
    if Decided(m) >= 4 {
      assert Track(w, 4).Tracked?;
    }
  }

  lemma StepMethodStart(cfg: Config, p: Parser, b: byte)
    requires p.state.StartReq? && p.nread < cfg.maxHeaderSize && b != CR && b != LF
    ensures var o := Step(cfg, p, b);
            if HasFirstMethod(b) then
              o == Out(ResetMessage(p).(nread := p.nread + 1, state := ReqMethod, index := 1,
                                        httpMethod := FirstMethod(b)),
                       [Begin], Next)
            else o.ctl.Fail?
  {
    hide MethodName;
  }

  lemma StepMethod(cfg: Config, p: Parser, b: byte)
    requires p.state.ReqMethod? && p.nread < cfg.maxHeaderSize && b != SP
    ensures var o := Step(cfg, p, b);
            var t := Letter(p.httpMethod, p.index, b);
            if t.Tracked? && b != NUL then
              o == Out(p.(nread := p.nread + 1, index := p.index + 1, httpMethod := t.m), [], Next)
            else o.ctl.Fail?
  {
    hide MethodName, NextMethod;
  }

  predicate MethodLetter(c: char) { '-' <= c <= 'Z' }

  lemma FirstNames(m: Method, i: nat)
    requires Decided(m) == 1 && i < |MethodName(m)|
    ensures MethodLetter(MethodName(m)[i])
  {
  }

  lemma OtherNames(m: Method, i: nat)
    requires Decided(m) > 1 && i < |MethodName(m)|
    ensures MethodLetter(MethodName(m)[i])
  {
  }

  lemma NameLetters(m: Method, i: nat)
    requires i < |MethodName(m)|
    ensures MethodLetter(MethodName(m)[i])
  {
    hide MethodName;
    if Decided(m) == 1 {
      FirstNames(m, i);
    } else {
      OtherNames(m, i);
    }
  }

  /** The record within the method, n letters on: the message has begun with flags and length anew. */
  function InMethod(p: Parser, n: nat, m: Method): Parser {
    ResetMessage(p).(nread := p.nread + n, state := ReqMethod, index := n, httpMethod := m)
  }

  /** The parser's method states follow the method automaton. */
  lemma {:induction false} MethodRun(cfg: Config, p: Parser, data: bytes, n: nat)
    requires p.state.StartReq? && 1 <= n <= |data| && p.nread + n <= cfg.maxHeaderSize
    requires data[0] != CR && data[0] != LF && forall i | 0 <= i < n :: data[i] != SP
    ensures var t := Run(cfg, p, data, n);
            if Track(data, n).Lost? then t.ctl.Fail?
            else t == Trail(InMethod(p, n, Track(data, n).m), [Begin], Next, n)
    decreases n
  {
    hide Step, MethodName, NextMethod, FirstMethod;
    RunNext(cfg, p, data, n - 1);
    if n == 1 {
      StepMethodStart(cfg, p, data[0]);
    } else {
      MethodRun(cfg, p, data, n - 1);
      var t := Run(cfg, p, data, n - 1);
      if t.ctl.Next? {
        StepMethod(cfg, t.p, data[n - 1]);
        if t.p.index < |MethodName(t.p.httpMethod)| {
          NameLetters(t.p.httpMethod, t.p.index);
        }
      }
    }
  }

  lemma StepMethodEnd(cfg: Config, p: Parser)
    requires p.state.ReqMethod? && p.nread < cfg.maxHeaderSize
    ensures var o := Step(cfg, p, SP);
            if p.index == |MethodName(p.httpMethod)|
            then o == Out(p.(nread := p.nread + 1, index := p.index + 1, state := ReqUrl(SpacesBeforeUrl)), [], Next)
            else o.ctl.Fail?
  {
    hide MethodName, NextMethod;
    if p.index < |MethodName(p.httpMethod)| {
      NameLetters(p.httpMethod, p.index);
    }
  }

  /** A request method is accepted exactly when the token is the name of one of the methods, and
      the method recorded is the one of that name. */
  lemma MethodExact(cfg: Config, p: Parser, w: bytes)
    requires p.state.StartReq? && w != [] && p.nread + |w| + 1 <= cfg.maxHeaderSize
    requires w[0] != CR && w[0] != LF && forall i | 0 <= i < |w| :: w[i] != SP
    ensures var t := Run(cfg, p, w + [SP], |w| + 1);
            && (t.ctl.Next? <==> exists m :: w == TokenOf(m))
            && (t.ctl.Next? ==>
                  && w == TokenOf(t.p.httpMethod)
                  && t.p == InMethod(p, |w| + 1, t.p.httpMethod).(state := ReqUrl(SpacesBeforeUrl))
                  && t.ev == [Begin] && t.used == |w| + 1)
  {
    hide Step, MethodName, NextMethod, FirstMethod, Run;
    var data := w + [SP];
    MethodRun(cfg, p, data, |w|);
    RunNext(cfg, p, data, |w|);
    TrackOfPrefix(w, [SP], |w|);
    var t := Run(cfg, p, data, |w|);
    if t.ctl.Next? {
      StepMethodEnd(cfg, t.p);
      TrackSpells(w, |w|);
      assert w[..|w|] == w;
      if t.p.index == |MethodName(t.p.httpMethod)| {
        assert w == TokenOf(t.p.httpMethod);
      }
    }
    if m :| w == TokenOf(m) {
      TrackFinds(m);
    }
  }

  lemma {:induction false} TrackOfPrefix(a: bytes, b: bytes, n: nat)
    requires 1 <= n <= |a|
    ensures Track(a + b, n) == Track(a, n)
    decreases n
  {
    hide MethodName, NextMethod, FirstMethod;
    if n > 1 {
      TrackOfPrefix(a, b, n - 1);
    }
  }

  // ---------------------------------------------------------------- the header budget

  /** The bytes after which the source restarts its count: the one that ends a head, a chunk
      line or a chunk. */
  predicate Restarts(s: State, o: Out) {
    Announces(o.ev) || s.ChunkDataDone?
  }

  /** The bytes of a buffer consumed in header states since the last restart, after `before`. */
  function Spent(cfg: Config, p: Parser, before: nat, data: bytes, n: nat): nat
    requires n <= |data|
    decreases n
  {
    if n == 0 then before
    else
      var t, spent := Run(cfg, p, data, n - 1), Spent(cfg, p, before, data, n - 1);
      if !t.ctl.Next? then spent
      else if Restarts(t.p.state, Step(cfg, t.p, data[n - 1])) then 0
      else spent + (if ParsingHeader(t.p.state) then 1 else 0)
  }

  /** The same over a connection. */
  function SpentBy(cfg: Config, k: Kind, calls: seq<bytes>): nat {
    if calls == [] then 0
    else
      var init, data := calls[..|calls| - 1], calls[|calls| - 1];
      var p := Feed(cfg, k, init).0;
      if p.errno.OK? then Spent(cfg, p, SpentBy(cfg, k, init), data, |data|) else SpentBy(cfg, k, init)
  }

  predicate Announces(ev: seq<Event>) {
    exists i | 0 <= i < |ev| :: ev[i].HeadersComplete? || ev[i].ChunkHeader?
  }

  lemma AnnouncesConcat(a: seq<Event>, b: seq<Event>)
    ensures Announces(a + b) <==> Announces(a) || Announces(b)
  {
    if i :| 0 <= i < |a| && (a[i].HeadersComplete? || a[i].ChunkHeader?) {
      assert (a + b)[i] == a[i];
    }
    if i :| 0 <= i < |b| && (b[i].HeadersComplete? || b[i].ChunkHeader?) {
      assert (a + b)[|a| + i] == b[i];
    }
  }

  /** From s_headers_done on, no restart is announced within the byte; before it, exactly the
      headers_complete on the way announces it. */
  lemma {:induction false} ChainBudget(cfg: Config, p: Parser, ch: byte)
    requires p.errno.OK?
    ensures var o := Chain(cfg, p, ch);
            !o.ctl.Fail? ==>
              o.p.nread == if p.state.HeadersDone? || p.state.ChunkDataDone? || Announces(o.ev) then 0 else p.nread
    decreases Rank(p.state)
  {
    hide Switch;
    var s := Switch(cfg, p, ch);
    SwitchEnds(cfg, p, ch);
    if s.ctl.Again? {
      AgainLowersRank(cfg, p, ch);
      ChainBudget(cfg, s.p, ch);
      AnnouncesConcat(s.ev, Chain(cfg, s.p, ch).ev);
    }
  }

  lemma {:induction false} RunBudget(cfg: Config, p: Parser, c: Client, data: bytes, n: nat)
    requires Good(cfg, p, c) && n <= |data|
    ensures var t := Run(cfg, p, data, n);
            !t.ctl.Fail? ==> t.p.nread == Spent(cfg, p, p.nread, data, n) <= cfg.maxHeaderSize
    decreases n
  {
    hide Chain, Inv, Core;
    RunKeeps(cfg, p, c, data, n);
    if n > 0 {
      RunBudget(cfg, p, c, data, n - 1);
      RunKeeps(cfg, p, c, data, n - 1);
      var t := Run(cfg, p, data, n - 1);
      if t.ctl.Next? {
        var q := Counted(t.p);
        ChainBudget(cfg, q, data[n - 1]);
      }
    }
  }

  /** Over every connection, the header budget counts exactly the bytes consumed in header states
      since the last restart, whichever call they came in. */
  lemma {:induction false} BudgetExact(cfg: Config, k: Kind, calls: seq<bytes>)
    ensures var p := Feed(cfg, k, calls).0; p.errno.OK? ==> p.nread == SpentBy(cfg, k, calls) <= cfg.maxHeaderSize
  {
    hide Run, Good, Spent, Until, Over, ShouldKeepAlive;
    if calls != [] {
      var init, data := calls[..|calls| - 1], calls[|calls| - 1];
      var p := Feed(cfg, k, init).0;
      BudgetExact(cfg, k, init);
      FeedKeeps(cfg, k, init);
      if p.errno.OK? {
        var d := Until(cfg, k, init);
        RunBudget(cfg, p, d, data, |data|);
        RunKeeps(cfg, p, d, data, |data|);
        RunFrom(cfg, p, data);
      }
    }
  }
}
