/** Start lines as texts: what the parser records of a request line and of a status line, and that
    it accepts no other. */
module HttpStartLines {
  import opened Ascii
  import opened HttpTypes
  import opened HttpUrlChar
  import opened HttpMachine
  import opened HttpTrace
  import opened HttpBatch
  import opened HttpTakes
  import opened UrlScan
  import opened HttpTokens

  function Eol(bare: bool): bytes { if bare then [LF] else [CR, LF] }

  function Spaces(n: nat): (s: bytes)
    ensures |s| == n
  {
    if n == 0 then [] else Spaces(n - 1) + [SP]
  }

  // ---------------------------------------------------------------- the version of a request

  /** The protocol of a request: SOURCE requests may say ICE. */
  function Protocol(ice: bool): bytes { if ice then ['I' as int, 'C' as int, 'E' as int] else HTTP }

  const HTTP: bytes := ['H' as int, 'T' as int, 'T' as int, 'P' as int]

  function VersionText(ice: bool, a: byte, b: byte): bytes { Protocol(ice) + ['/' as int, a, '.' as int, b] }

  lemma StepVersion(cfg: Config, p: Parser, ch: byte)
    requires p.state.ReqVersion? && p.nread < cfg.maxHeaderSize
    ensures Step(cfg, p, ch) == SwitchReqVersion(p.(nread := p.nread + 1), ch)
  {
    hide SwitchReqVersion;
    VersionNext(p.(nread := p.nread + 1), ch);
  }

  lemma VersionNext(p: Parser, ch: byte)
    requires p.state.ReqVersion?
    ensures !SwitchReqVersion(p, ch).ctl.Again? && !SwitchReqVersion(p, ch).ctl.Stop?
  {
  }

  /** The record within the version, n bytes on. */
  function InVersion(p: Parser, n: nat, s: VersionState, major: nat, minor: nat): Parser {
    p.(nread := p.nread + n, state := ReqVersion(s), major := major, minor := minor)
  }

  /** One byte of the version. */
  lemma VersionByte(cfg: Config, p: Parser, x: bytes, s: VersionState, major: nat, minor: nat, b: byte)
    requires Takes(cfg, p, x, InVersion(p, |x|, s, major, minor), []) && p.nread + |x| < cfg.maxHeaderSize
    requires SwitchReqVersion(InVersion(p, |x| + 1, s, major, minor), b).ctl.Next?
    ensures Takes(cfg, p, x + [b], SwitchReqVersion(InVersion(p, |x| + 1, s, major, minor), b).p, [])
  {
    hide Takes, Step;
    var q := InVersion(p, |x|, s, major, minor);
    StepVersion(cfg, q, b);
    assert q.(nread := q.nread + 1) == InVersion(p, |x| + 1, s, major, minor);
    VersionQuiet(InVersion(p, |x| + 1, s, major, minor), b);
    TakesQuiet(cfg, p, x, q, [], b, SwitchReqVersion(InVersion(p, |x| + 1, s, major, minor), b).p);
  }

  lemma VersionQuiet(p: Parser, ch: byte)
    requires p.state.ReqVersion?
    ensures SwitchReqVersion(p, ch).ev == []
  {
  }

  /** "HTTP/", a digit, a dot, a digit and a line end record the two digits, and nothing else. */
  lemma VersionTaken(cfg: Config, p: Parser, a: byte, b: byte, bare: bool)
    requires p.state == ReqVersion(HttpStart) && IsNum(a) && IsNum(b)
    requires p.nread + 8 + |Eol(bare)| <= cfg.maxHeaderSize
    ensures var text := VersionText(false, a, b) + Eol(bare);
            Takes(cfg, p, text,
                  p.(nread := p.nread + |text|, state := HeaderFieldStart, major := a - '0' as int,
                     minor := b - '0' as int), [])
  {
    hide Takes;
    var x: bytes, m, n := [], p.major, p.minor;
    TakesNone(cfg, p);
    VersionByte(cfg, p, x, HttpStart, m, n, 'H' as int);
    VersionByte(cfg, p, x + ['H' as int], HttpH, m, n, 'T' as int);
    var y := x + ['H' as int] + ['T' as int];
    VersionByte(cfg, p, y, HttpHT, m, n, 'T' as int);
    VersionByte(cfg, p, y + ['T' as int], HttpHTT, m, n, 'P' as int);
    assert y + ['T' as int] + ['P' as int] == HTTP;
    VersionByte(cfg, p, HTTP, HttpHTTP, m, n, '/' as int);
    DigitsTaken(cfg, p, HTTP + ['/' as int], m, n, a, b, bare);
    assert HTTP + ['/' as int] + [a] + ['.' as int] + [b] == VersionText(false, a, b);
  }

  lemma DigitsTaken(cfg: Config, p: Parser, x: bytes, m: nat, n: nat, a: byte, b: byte, bare: bool)
    requires Takes(cfg, p, x, InVersion(p, |x|, HttpMajor, m, n), []) && IsNum(a) && IsNum(b)
    requires p.nread + |x| + 3 + |Eol(bare)| <= cfg.maxHeaderSize
    ensures var text := x + [a] + ['.' as int] + [b] + Eol(bare);
            Takes(cfg, p, text,
                  p.(nread := p.nread + |text|, state := HeaderFieldStart, major := a - '0' as int,
                     minor := b - '0' as int), [])
  {
    hide Takes;
    var c, d := a - '0' as int, b - '0' as int;
    VersionByte(cfg, p, x, HttpMajor, m, n, a);
    VersionByte(cfg, p, x + [a], HttpDot, c, n, '.' as int);
    VersionByte(cfg, p, x + [a] + ['.' as int], HttpMinor, c, n, b);
    var y := x + [a] + ['.' as int] + [b];
    VersionByte(cfg, p, y, HttpEnd, c, d, if bare then LF else CR);
    if bare {
      assert y + [LF] == y + Eol(bare);
    } else {
      VersionByte(cfg, p, y + [CR], ReqLineAlmostDone, c, d, LF);
      assert y + [CR] + [LF] == y + Eol(bare);
    }
  }

  // ---------------------------------------------------------------- no other version

  function Digit(n: nat): byte { if n < 10 then n + '0' as int else 0 }

  /** The text behind the spaces that leads to a state of the version. */
  function Word(s: VersionState, ice: bool, major: nat, minor: nat): bytes {
    match s
    case HttpStart => []
    case HttpH => HTTP[..1]
    case HttpHT => HTTP[..2]
    case HttpHTT => HTTP[..3]
    case HttpI => Protocol(true)[..1]
    case HttpIC => Protocol(true)[..2]
    case HttpHTTP => Protocol(ice)
    case HttpMajor => Protocol(ice) + ['/' as int]
    case HttpDot => Protocol(ice) + ['/' as int, Digit(major)]
    case HttpMinor => Protocol(ice) + ['/' as int, Digit(major), '.' as int]
    case HttpEnd => VersionText(ice, Digit(major), Digit(minor))
    case ReqLineAlmostDone => VersionText(ice, Digit(major), Digit(minor)) + [CR]
  }

  predicate OnIce(s: VersionState, ice: bool) {
    (s.HttpI? || s.HttpIC? ==> ice) && (s.HttpH? || s.HttpHT? || s.HttpHTT? ==> !ice)
  }

  /** One byte more of a version that is accepted so far. */
  lemma WordNext(p: Parser, ice: bool, b: byte)
    requires p.state.ReqVersion? && !(p.state.version.HttpStart? && b == SP) && OnIce(p.state.version, ice)
    requires SwitchReqVersion(p, b).ctl.Next?
    ensures var q := SwitchReqVersion(p, b).p;
            var ice' := if p.state.version.HttpStart? then b == 'I' as int else ice;
            var w := Word(p.state.version, ice, p.major, p.minor) + [b];
            && (p.state.version.HttpStart? && ice' ==> p.httpMethod.SOURCE?)
            && q == p.(state := q.state, major := q.major, minor := q.minor)
            && if q.state.HeaderFieldStart?
               then exists bare :: w == VersionText(ice', Digit(q.major), Digit(q.minor)) + Eol(bare)
               else q.state.ReqVersion? && OnIce(q.state.version, ice')
                    && w == Word(q.state.version, ice', q.major, q.minor)
  {
    var s := p.state.version;
    if s.HttpEnd? || s.ReqLineAlmostDone? {
      LineEndNext(p, ice, b);
    } else if s.HttpMajor? || s.HttpDot? || s.HttpMinor? {
      DigitNext(p, ice, b);
    } else {
      LetterNext(p, ice, b);
    }
  }

  lemma LetterNext(p: Parser, ice: bool, b: byte)
    requires p.state.ReqVersion? && !(p.state.version.HttpStart? && b == SP) && OnIce(p.state.version, ice)
    requires var s := p.state.version;
             !(s.HttpMajor? || s.HttpDot? || s.HttpMinor? || s.HttpEnd? || s.ReqLineAlmostDone?)
    requires SwitchReqVersion(p, b).ctl.Next?
    ensures var q := SwitchReqVersion(p, b).p;
            var ice' := if p.state.version.HttpStart? then b == 'I' as int else ice;
            && (p.state.version.HttpStart? && ice' ==> p.httpMethod.SOURCE?)
            && q == p.(state := q.state) && q.state.ReqVersion? && OnIce(q.state.version, ice')
            && Word(p.state.version, ice, p.major, p.minor) + [b] == Word(q.state.version, ice', q.major, q.minor)
  {
    hide Digit, VersionText;
  }

  lemma DigitNext(p: Parser, ice: bool, b: byte)
    requires p.state.ReqVersion?
    requires var s := p.state.version; s.HttpMajor? || s.HttpDot? || s.HttpMinor?
    requires SwitchReqVersion(p, b).ctl.Next?
    ensures var q := SwitchReqVersion(p, b).p;
            && q == p.(state := q.state, major := q.major, minor := q.minor)
            && q.state.ReqVersion? && OnIce(q.state.version, ice)
            && Word(p.state.version, ice, p.major, p.minor) + [b] == Word(q.state.version, ice, q.major, q.minor)
  {
    hide Protocol;
  }

  lemma LineEndNext(p: Parser, ice: bool, b: byte)
    requires p.state.ReqVersion? && (p.state.version.HttpEnd? || p.state.version.ReqLineAlmostDone?)
    requires SwitchReqVersion(p, b).ctl.Next?
    ensures var q := SwitchReqVersion(p, b).p;
            var w := Word(p.state.version, ice, p.major, p.minor) + [b];
            && q == p.(state := q.state)
            && if q.state.HeaderFieldStart?
               then exists bare :: w == VersionText(ice, Digit(q.major), Digit(q.minor)) + Eol(bare)
               else q.state.ReqVersion? && OnIce(q.state.version, ice)
                    && w == Word(q.state.version, ice, q.major, q.minor)
  {
    hide Digit, VersionText;
    var v := VersionText(ice, Digit(p.major), Digit(p.minor));
    assert v + [LF] == v + Eol(true) && v + [CR] + [LF] == v + Eol(false);
  }

  /** The run over x has left the version only at its last byte, if at all. */
  ghost predicate InVersionUntil(cfg: Config, p: Parser, x: bytes) {
    forall k | 0 <= k < |x| :: Run(cfg, p, x, k).p.state.ReqVersion?
  }

  lemma UntilShorter(cfg: Config, p: Parser, x: bytes, b: byte)
    requires InVersionUntil(cfg, p, x + [b])
    ensures InVersionUntil(cfg, p, x) && Run(cfg, p, x, |x|).p.state.ReqVersion?
  {
    hide Run;
    forall k | 0 <= k <= |x|
      ensures Run(cfg, p, x, k).p.state.ReqVersion?
    {
      assert Run(cfg, p, x + [b], k).p.state.ReqVersion?;
      HttpSplit.RunPrefix(cfg, p, x, [b], k);
    }
  }

  /** What the text is when its run is in record q: spaces, and then the text of q's state. */
  ghost predicate VersionSoFar(p: Parser, x: bytes, q: Parser, n: nat, ice: bool) {
    && n <= |x| && x[..n] == Spaces(n)
    && q == p.(nread := q.nread, state := q.state, major := q.major, minor := q.minor)
    && (if q.state.HeaderFieldStart?
        then exists bare :: x[n..] == VersionText(ice, Digit(q.major), Digit(q.minor)) + Eol(bare)
        else
          && q.state.ReqVersion? && OnIce(q.state.version, ice)
          && x[n..] == Word(q.state.version, ice, q.major, q.minor))
    && (ice && q.state != ReqVersion(HttpStart) ==> p.httpMethod.SOURCE?)
  }

  /** Behind the request target nothing is accepted but spaces, a version and a line end; and the
      version recorded is that of its digits. */
  lemma {:induction false} VersionOnly(cfg: Config, p: Parser, x: bytes) returns (n: nat, ice: bool)
    requires p.state == ReqVersion(HttpStart) && InVersionUntil(cfg, p, x) && Run(cfg, p, x, |x|).ctl.Next?
    ensures VersionSoFar(p, x, Run(cfg, p, x, |x|).p, n, ice)
    decreases |x|
  {
    hide Run, Step, Word, VersionText;
    if x == [] {
      TakesNone(cfg, p);
      n, ice := 0, false;
      StartWord(p, ice);
    } else {
      var y, b := x[..|x| - 1], x[|x| - 1];
      assert x == y + [b];
      UntilShorter(cfg, p, y, b);
      RunLast(cfg, p, y, b);
      n, ice := VersionOnly(cfg, p, y);
      var q := Run(cfg, p, y, |y|).p;
      VersionNextByte(cfg, q, b);
      var r := q.(nread := q.nread + 1);
      if q.state == ReqVersion(HttpStart) && b == SP {
        StartWord(q, ice);
        assert y[..n] == y;
        n := n + 1;
        assert x[..n] == Spaces(n) && x[n..] == [];
        SpaceNext(r, ice);
      } else {
        WordNext(r, ice, b);
        assert x[..n] == y[..n] && x[n..] == y[n..] + [b];
        ice := if q.state == ReqVersion(HttpStart) then b == 'I' as int else ice;
      }
    }
  }

  lemma StartWord(p: Parser, ice: bool)
    ensures Word(HttpStart, ice, p.major, p.minor) == [] && OnIce(HttpStart, ice)
  {
  }

  lemma SpaceNext(p: Parser, ice: bool)
    requires p.state == ReqVersion(HttpStart)
    ensures SwitchReqVersion(p, SP).p == p && Word(HttpStart, ice, p.major, p.minor) == [] && OnIce(HttpStart, ice)
  {
  }

  lemma VersionNextByte(cfg: Config, p: Parser, b: byte)
    requires p.state.ReqVersion? && Step(cfg, p, b).ctl.Next?
    ensures Step(cfg, p, b) == SwitchReqVersion(p.(nread := p.nread + 1), b)
  {
    hide Chain;
    StepVersion(cfg, p, b);
  }

  // ---------------------------------------------------------------- the request target

  lemma StepUrl(cfg: Config, p: Parser, ch: byte)
    requires p.state.ReqUrl? && p.nread < cfg.maxHeaderSize
    ensures Step(cfg, p, ch) == SwitchUrl(p.(nread := p.nread + 1), ch)
  {
    hide SwitchUrl;
    UrlNext(p.(nread := p.nread + 1), ch);
  }

  lemma UrlNext(p: Parser, ch: byte)
    requires p.state.ReqUrl?
    ensures !SwitchUrl(p, ch).ctl.Again? && !SwitchUrl(p, ch).ctl.Stop?
  {
    hide ParseUrlChar;
  }

  lemma BlankIsDead(s: UrlState, b: byte)
    requires b == SP || b == CR || b == LF
    ensures ParseUrlChar(s, b).UrlDead?
  {
  }

  /** A byte of the target, where the scan of the target stands at s. */
  lemma TargetByte(p: Parser, s: UrlState, b: byte)
    requires !s.UrlDead? && !ParseUrlChar(s, b).UrlDead?
    requires (p.state == ReqUrl(s) && s != SpacesBeforeUrl)
             || (p.state == ReqUrl(SpacesBeforeUrl) && s == Start(p.httpMethod.CONNECT?))
    ensures SwitchUrl(p, b) == Out(p.(state := ReqUrl(ParseUrlChar(s, b))), [Data(Url, [b])], Next)
  {
    hide ParseUrlChar;
    if b == SP || b == CR || b == LF {
      BlankIsDead(s, b);
    }
  }

  /** The record within the target, n bytes on. */
  function InTarget(p: Parser, n: nat, s: UrlState): Parser { p.(nread := p.nread + n, state := ReqUrl(s)) }

  /** A target is taken as far as its scan lives, and told byte by byte. */
  lemma {:induction false} TargetTaken(cfg: Config, p: Parser, u: bytes)
    requires p.state == ReqUrl(SpacesBeforeUrl) && p.nread + |u| <= cfg.maxHeaderSize
    requires u != [] && !Scan(u, p.httpMethod.CONNECT?, |u|).UrlDead?
    ensures Takes(cfg, p, u, InTarget(p, |u|, Scan(u, p.httpMethod.CONNECT?, |u|)), Singles(Url, u, 0, |u|))
    decreases |u|
  {
    hide Takes, Step, ParseUrlChar;
    var n, connect := |u| - 1, p.httpMethod.CONNECT?;
    var y, b := u[..n], u[n];
    assert u == y + [b];
    ScanPrefix(y, [b], connect, n);
    DeadStays(Scan(u, connect, n), b);
    assert n > 0 ==> !Scan(y, connect, n).SpacesBeforeUrl?;
    SinglesPrefix(Url, y, [b], n);
    var s := Scan(y, connect, n);
    var q := if n == 0 then p else InTarget(p, n, s);
    if n == 0 {
      TakesNone(cfg, p);
      assert y == [];
    } else {
      TargetTaken(cfg, p, y);
    }
    StepUrl(cfg, q, b);
    TargetByte(q.(nread := q.nread + 1), s, b);
    TakesByte(cfg, p, y, q, Singles(Url, y, 0, n), b);
  }

  lemma {:induction false} ScanPrefix(a: bytes, b: bytes, connect: bool, n: nat)
    requires n <= |a|
    ensures Scan(a + b, connect, n) == Scan(a, connect, n)
  {
    hide ParseUrlChar;
    if n > 0 {
      ScanPrefix(a, b, connect, n - 1);
    }
  }

  lemma DeadStays(s: UrlState, b: byte)
    ensures s.UrlDead? ==> ParseUrlChar(s, b).UrlDead?
  {
  }

  lemma {:induction false} SinglesPrefix(k: Piece, a: bytes, b: bytes, n: nat)
    requires n <= |a|
    ensures Singles(k, a + b, 0, n) == Singles(k, a, 0, n)
  {
    if n > 0 {
      SinglesPrefix(k, a, b, n - 1);
    }
  }

  /** A target whose scan dies is refused. */
  lemma TargetRefused(cfg: Config, p: Parser, u: bytes, b: byte)
    requires p.state == ReqUrl(SpacesBeforeUrl) && p.nread + |u| < cfg.maxHeaderSize && b != SP && b != CR && b != LF
    requires var connect := p.httpMethod.CONNECT?;
             (u != [] ==> !Scan(u, connect, |u|).UrlDead?) && Scan(u + [b], connect, |u| + 1).UrlDead?
    ensures Run(cfg, p, u + [b], |u| + 1).ctl.Fail?
  {
    hide Takes, Step, ParseUrlChar, Run;
    var connect := p.httpMethod.CONNECT?;
    ScanPrefix(u, [b], connect, |u|);
    var s := Scan(u, connect, |u|);
    var q := if u == [] then p else InTarget(p, |u|, s);
    if u == [] {
      TakesNone(cfg, p);
    } else {
      TargetTaken(cfg, p, u);
    }
    TakenRun(cfg, p, u, q, Singles(Url, u, 0, |u|), b);
    StepUrl(cfg, q, b);
    DeadByte(q.(nread := q.nread + 1), s, b);
  }

  lemma TakenRun(cfg: Config, p: Parser, x: bytes, q: Parser, ev: seq<Event>, b: byte)
    requires Takes(cfg, p, x, q, ev)
    ensures Run(cfg, p, x + [b], |x| + 1).ctl == Step(cfg, q, b).ctl
  {
    hide Step;
    HttpSplit.RunPrefix(cfg, p, x, [b], |x|);
    RunNext(cfg, p, x + [b], |x|);
  }

  lemma DeadByte(p: Parser, s: UrlState, b: byte)
    requires ParseUrlChar(s, b).UrlDead? && b != SP && b != CR && b != LF
    requires (p.state == ReqUrl(s) && s != SpacesBeforeUrl)
             || (p.state == ReqUrl(SpacesBeforeUrl) && s == Start(p.httpMethod.CONNECT?))
    ensures SwitchUrl(p, b).ctl.Fail?
  {
    hide ParseUrlChar;
  }

  /** A target may end here. */
  predicate EndsTarget(s: UrlState) {
    s.Server? || s.ServerWithAt? || s.Path? || s.QueryStart? || s.Query? || s.FragmentStart? || s.Fragment?
  }

  /** A space ends the target, and a version follows. */
  lemma TargetEnds(cfg: Config, p: Parser)
    requires p.state.ReqUrl? && EndsTarget(p.state.url) && p.nread < cfg.maxHeaderSize
    ensures Step(cfg, p, SP) == Out(p.(nread := p.nread + 1, state := ReqVersion(HttpStart)), [Data(Url, [])], Next)
  {
    hide Step;
    StepUrl(cfg, p, SP);
  }

  /** A request line without a version is one of HTTP/0.9. */
  lemma ShortLineTaken(cfg: Config, p: Parser, bare: bool)
    requires p.state.ReqUrl? && EndsTarget(p.state.url) && p.nread + |Eol(bare)| <= cfg.maxHeaderSize
    ensures Takes(cfg, p, Eol(bare),
                  p.(nread := p.nread + |Eol(bare)|, state := HeaderFieldStart, major := 0, minor := 9),
                  [Data(Url, [])])
  {
    hide Takes, Step;
    TakesNone(cfg, p);
    var first := if bare then LF else CR;
    StepUrl(cfg, p, first);
    TakesByte(cfg, p, [], p, [], first);
    var url := [Data(Url, [])];
    assert [] + [first] == [first] && [] + url == url;
    if !bare {
      var q := p.(nread := p.nread + 1, state := ReqVersion(ReqLineAlmostDone), major := 0, minor := 9);
      StepVersion(cfg, q, LF);
      TakesQuiet(cfg, p, [CR], q, url, LF, q.(nread := q.nread + 1, state := HeaderFieldStart));
      assert [CR] + [LF] == Eol(bare);
    }
  }

  // ---------------------------------------------------------------- request lines

  /** The version of a request line, if it has one. */
  datatype Asked = NoVersion | Asked(a: byte, b: byte)

  predicate IsAsked(v: Asked) { v.Asked? ==> IsNum(v.a) && IsNum(v.b) }

  function Major(v: Asked): nat
    requires IsAsked(v)
  {
    if v.NoVersion? then 0 else v.a - '0' as int
  }

  function Minor(v: Asked): nat
    requires IsAsked(v)
  {
    if v.NoVersion? then 9 else v.b - '0' as int
  }

  /** What follows the target. */
  function AskedText(v: Asked, bare: bool): bytes {
    if v.NoVersion? then Eol(bare) else [SP] + (VersionText(false, v.a, v.b) + Eol(bare))
  }

  /** A method, a space, a target, and a space and a version or neither. */
  function RequestLine(m: Method, u: bytes, v: Asked, bare: bool): bytes {
    TokenOf(m) + [SP] + (u + AskedText(v, bare))
  }

  lemma MethodTaken(cfg: Config, p: Parser, m: Method)
    requires p.state.StartReq? && p.nread + |TokenOf(m)| + 1 <= cfg.maxHeaderSize
    ensures var w := TokenOf(m);
            Takes(cfg, p, w + [SP], InMethod(p, |w| + 1, m).(state := ReqUrl(SpacesBeforeUrl)), [Begin])
  {
    hide Run, MethodName, TokenOf;
    var w := TokenOf(m);
    TokenLetters(m);
    MethodExact(cfg, p, w);
    SameToken(m, Run(cfg, p, w + [SP], |w| + 1).p.httpMethod);
  }

  lemma TokenLetters(m: Method)
    ensures var w := TokenOf(m); w != [] && w[0] != CR && w[0] != LF && forall i | 0 <= i < |w| :: w[i] != SP
  {
    hide MethodName;
    var w := TokenOf(m);
    forall i | 0 <= i < |w|
      ensures w[i] != SP && w[i] != CR && w[i] != LF
    {
      NameLetters(m, i);
    }
  }

  /** Methods with one name are one method. */
  lemma SameToken(m: Method, k: Method)
    ensures TokenOf(m) == TokenOf(k) ==> m == k
  {
    hide TokenOf, Track;
    if TokenOf(m) == TokenOf(k) {
      TrackFinds(m);
      TrackFinds(k);
    }
  }

  lemma AskedTaken(cfg: Config, p: Parser, v: Asked, bare: bool)
    requires p.state.ReqUrl? && EndsTarget(p.state.url) && IsAsked(v)
    requires p.nread + |AskedText(v, bare)| <= cfg.maxHeaderSize
    ensures Takes(cfg, p, AskedText(v, bare),
                  p.(nread := p.nread + |AskedText(v, bare)|, state := HeaderFieldStart, major := Major(v),
                     minor := Minor(v)),
                  [Data(Url, [])])
  {
    hide Takes, Step, VersionText;
    VersionLength(v);
    if v.NoVersion? {
      ShortLineTaken(cfg, p, bare);
    } else {
      TargetEnds(cfg, p);
      TakesNone(cfg, p);
      TakesByte(cfg, p, [], p, [], SP);
      var url, q := [Data(Url, [])], p.(nread := p.nread + 1, state := ReqVersion(HttpStart));
      assert [] + url == url && [] + [SP] == [SP] && url + [] == url;
      VersionTaken(cfg, q, v.a, v.b, bare);
      var text := VersionText(false, v.a, v.b) + Eol(bare);
      TakesThen(cfg, p, [SP], q, url, text,
                q.(nread := q.nread + |text|, state := HeaderFieldStart, major := Major(v), minor := Minor(v)), []);
    }
  }

  lemma VersionLength(v: Asked)
    ensures v.Asked? ==> |VersionText(false, v.a, v.b)| == 8
  {
  }

  /** A request line records its method and its version, 0.9 for none, begins the message and tells
      the target; the flags and the length start anew, and nothing else but the index changes. */
  lemma RequestLineTaken(cfg: Config, p: Parser, m: Method, u: bytes, v: Asked, bare: bool)
    requires p.state.StartReq? && u != [] && EndsTarget(Scan(u, m.CONNECT?, |u|)) && IsAsked(v)
    requires p.nread + |RequestLine(m, u, v, bare)| <= cfg.maxHeaderSize
    ensures var line, w := RequestLine(m, u, v, bare), TokenOf(m);
            Takes(cfg, p, line,
                  ResetMessage(p).(nread := p.nread + |line|, state := HeaderFieldStart, index := |w| + 1,
                                   httpMethod := m, major := Major(v), minor := Minor(v)),
                  [Begin] + (Singles(Url, u, 0, |u|) + [Data(Url, [])]))
  {
    hide Takes, Step, TokenOf, Scan, AskedText, Singles;
    var w, told := TokenOf(m), Singles(Url, u, 0, |u|);
    var q := InMethod(p, |w| + 1, m).(state := ReqUrl(SpacesBeforeUrl));
    var r := InTarget(q, |u|, Scan(u, m.CONNECT?, |u|));
    MethodTaken(cfg, p, m);
    TargetTaken(cfg, q, u);
    AskedTaken(cfg, r, v, bare);
    var s := r.(nread := r.nread + |AskedText(v, bare)|, state := HeaderFieldStart, major := Major(v),
                minor := Minor(v));
    TakesThen(cfg, q, u, r, told, AskedText(v, bare), s, [Data(Url, [])]);
    TakesThen(cfg, p, w + [SP], q, [Begin], u + AskedText(v, bare), s, told + [Data(Url, [])]);
  }
}
