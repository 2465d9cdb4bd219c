/** A parser that is told neither to expect requests nor responses: it finds out from the first two bytes, and
    from then on is the parser of that kind. */
module HttpEither {
  import opened Ascii
  import opened HttpTypes
  import opened HttpMachine
  import opened HttpBatch

  /** The line breaks before the first message. */
  function Breaks(data: bytes): (k: nat)
    ensures k <= |data| && (forall i | 0 <= i < k :: data[i] == CR || data[i] == LF)
    ensures k < |data| ==> data[k] != CR && data[k] != LF
  {
    if data != [] && (data[0] == CR || data[0] == LF) then 1 + Breaks(data[1..]) else 0
  }

  /** Before the first message: only the line breaks have been counted. */
  lemma {:induction false} Waits(cfg: Config, kind: Kind, data: bytes, n: nat)
    requires n <= Breaks(data) && n <= cfg.maxHeaderSize
    ensures Run(cfg, Init(kind), data, n) == Trail(Init(kind).(nread := n), [], Next, n)
    decreases n
  {
    hide Step;
    if n > 0 {
      Waits(cfg, kind, data, n - 1);
      RunNext(cfg, Init(kind), data, n - 1);
      BreakStep(cfg, Init(kind).(nread := n - 1), data[n - 1]);
    }
  }

  lemma BreakStep(cfg: Config, p: Parser, b: byte)
    requires (b == CR || b == LF) && (p.state.StartReq? || p.state.StartRes? || p.state.StartReqOrRes?)
    ensures Step(cfg, p, b)
            == var q := p.(nread := p.nread + 1);
               if q.nread > cfg.maxHeaderSize then Error(q, HeaderOverflow) else Out(q, [], Next)
  {
  }

  /** Too many line breaks. */
  lemma {:induction false} Overflows(cfg: Config, kind: Kind, data: bytes, n: nat)
    requires n <= |data| && cfg.maxHeaderSize < Breaks(data) && cfg.maxHeaderSize < n
    ensures var t := Run(cfg, Init(kind), data, n);
            t.ctl.Fail? && t.used == cfg.maxHeaderSize && t.p.errno == HeaderOverflow && t.ev == []
  {
    hide Step;
    var k := cfg.maxHeaderSize;
    Waits(cfg, kind, data, k);
    RunNext(cfg, Init(kind), data, k);
    BreakStep(cfg, Init(kind).(nread := k), data[k]);
    RunHalted(cfg, Init(kind), data, k + 1, n);
  }

  /** A first byte other than H: the passes of the two parsers meet. */
  lemma OtherFirst(cfg: Config, n: nat, b: byte)
    requires b != CR && b != LF && b != 'H' as int && n < cfg.maxHeaderSize
    ensures Step(cfg, Init(Both).(nread := n), b) == Step(cfg, Init(Request).(nread := n), b)
  {
    hide FirstMethod;
    var p, q := Init(Both).(nread := n + 1), Init(Request).(nread := n + 1);
    var r := ResetMessage(p).(kind := Request, state := StartReq);
    assert Switch(cfg, p, b) == Out(r, [], Again);
    assert Chain(cfg, r, b) == Switch(cfg, r, b) && Chain(cfg, q, b) == Switch(cfg, q, b);
    assert Switch(cfg, r, b) == Switch(cfg, q, b);
    assert [] + Switch(cfg, r, b).ev == Switch(cfg, r, b).ev;
  }

  /** The record after an H. */
  function AfterH(kind: Kind, n: nat): Parser {
    var p := ResetMessage(Init(kind)).(nread := n);
    match kind
    case Both => p.(state := ResOrRespH)
    case Request => p.(state := ReqMethod, httpMethod := HEAD, index := 1)
    case Response => p.(state := ResLine(ResH))
  }

  lemma HFirst(cfg: Config, kind: Kind, n: nat)
    requires n < cfg.maxHeaderSize
    ensures Step(cfg, Init(kind).(nread := n), 'H' as int) == Out(AfterH(kind, n + 1), [Begin], Next)
  {
  }

  lemma Second(cfg: Config, n: nat, b: byte)
    requires n < cfg.maxHeaderSize
    ensures var o, req := Step(cfg, AfterH(Both, n), b), Step(cfg, AfterH(Request, n), b);
            var res := Step(cfg, AfterH(Response, n), b);
            && (b == 'T' as int ==> o == res && o.ctl.Next?)
            && (b == 'E' as int ==> o == req && o.ctl.Next?)
            && (b != 'T' as int && b != 'E' as int ==> o.ctl.Fail? && req.ctl.Fail? && res.ctl.Fail?)
  {
    hide SwitchName, SwitchValue, SwitchBody, SwitchChunkLine, SwitchHeadersEnd, SwitchUrl, SwitchReqVersion;
  }

  lemma BudgetSpent(cfg: Config, p: Parser, b: byte)
    requires ParsingHeader(p.state) && p.nread == cfg.maxHeaderSize
    ensures Step(cfg, p, b).ctl.Fail? && Step(cfg, p, b).p.errno == HeaderOverflow
  {
  }

  /** Two runs that have met stay together. */
  lemma {:induction false} Together(cfg: Config, p: Parser, q: Parser, data: bytes, m: nat, n: nat)
    requires m <= n <= |data| && Run(cfg, p, data, m) == Run(cfg, q, data, m)
    ensures Run(cfg, p, data, n) == Run(cfg, q, data, n)
    decreases n - m
  {
    hide Step;
    if m < n {
      Together(cfg, p, q, data, m, n - 1);
      RunNext(cfg, p, data, n - 1);
      RunNext(cfg, q, data, n - 1);
    }
  }

  predicate Failing(t: Trail, n: nat, e: Errno) { t.ctl.Fail? && t.used == n && t.p.errno == e }

  /** The same run, or the same error at the same byte. */
  predicate Alike(t: Trail, u: Trail) { t == u || (u.ctl.Fail? && Failing(t, u.used, u.p.errno)) }

  /** Before the second byte of the message the budget is spent for every kind alike. */
  lemma SpentEarly(cfg: Config, kind: Kind, data: bytes, n: nat)
    requires Breaks(data) + 2 <= n <= |data| && cfg.maxHeaderSize <= Breaks(data)
    ensures Failing(Run(cfg, Init(kind), data, n), cfg.maxHeaderSize, HeaderOverflow)
  {
    hide Step, Run;
    var k := cfg.maxHeaderSize;
    if k < Breaks(data) {
      Overflows(cfg, kind, data, n);
    } else {
      Waits(cfg, kind, data, k);
      RunNext(cfg, Init(kind), data, k);
      BudgetSpent(cfg, Init(kind).(nread := k), data[k]);
      RunHalted(cfg, Init(kind), data, k + 1, n);
    }
  }

  /** An H has been read. */
  lemma HRead(cfg: Config, kind: Kind, data: bytes)
    requires var k := Breaks(data); k < |data| && k < cfg.maxHeaderSize && data[k] == 'H' as int
    ensures var k := Breaks(data) + 1; Run(cfg, Init(kind), data, k) == Trail(AfterH(kind, k), [Begin], Next, k)
  {
    hide Step, Run, Breaks, AfterH, Init;
    var k := Breaks(data);
    var b := data[k];
    Waits(cfg, kind, data, k);
    RunNext(cfg, Init(kind), data, k);
    HFirst(cfg, kind, k);
    assert [] + [Begin] == [Begin];
  }

  /** The byte behind it. */
  lemma SecondRead(cfg: Config, kind: Kind, data: bytes)
    requires var k := Breaks(data); k + 1 < |data| && k < cfg.maxHeaderSize && data[k] == 'H' as int
    ensures var k := Breaks(data) + 1;
            var o := Step(cfg, AfterH(kind, k), data[k]);
            Run(cfg, Init(kind), data, k + 1) == Trail(o.p, [Begin] + o.ev, o.ctl, if o.ctl.Fail? then k else k + 1)
  {
    hide Step, Run, Breaks, AfterH, Init;
    HRead(cfg, kind, data);
    RunNext(cfg, Init(kind), data, Breaks(data) + 1);
  }

  lemma SpentSecond(cfg: Config, kind: Kind, data: bytes, n: nat)
    requires var k := Breaks(data); k + 2 <= n <= |data| && cfg.maxHeaderSize == k + 1 && data[k] == 'H' as int
    ensures Failing(Run(cfg, Init(kind), data, n), Breaks(data) + 1, HeaderOverflow)
  {
    hide Step, Run, Breaks;
    var k := Breaks(data) + 1;
    SecondRead(cfg, kind, data);
    BudgetSpent(cfg, AfterH(kind, k), data[k]);
    RunHalted(cfg, Init(kind), data, k + 1, n);
  }

  /** The runs of the three parsers behind "HT", "HE" and any other byte after an H. */
  lemma HDecides(cfg: Config, data: bytes, n: nat)
    requires var k := Breaks(data); k + 2 <= n <= |data| && k + 1 < cfg.maxHeaderSize && data[k] == 'H' as int
    ensures var y := data[Breaks(data) + 1];
            var t, req := Run(cfg, Init(Both), data, n), Run(cfg, Init(Request), data, n);
            var res := Run(cfg, Init(Response), data, n);
            if y == 'T' as int then t == res else if y == 'E' as int then t == req
            else t.ctl.Fail? && req.ctl.Fail? && res.ctl.Fail?
  {
    hide Step, Run, AfterH;
    var k := Breaks(data) + 1;
    SecondRead(cfg, Both, data);
    SecondRead(cfg, Request, data);
    SecondRead(cfg, Response, data);
    Second(cfg, k, data[k]);
    if data[k] == 'T' as int {
      Together(cfg, Init(Both), Init(Response), data, k + 1, n);
    } else if data[k] == 'E' as int {
      Together(cfg, Init(Both), Init(Request), data, k + 1, n);
    } else {
      RunHalted(cfg, Init(Both), data, k + 1, n);
      RunHalted(cfg, Init(Request), data, k + 1, n);
      RunHalted(cfg, Init(Response), data, k + 1, n);
    }
  }

  /** For every input and at every byte of it: behind "HT" the parser is the one for responses, behind an H and
      any byte but E it fails as both do, and in every other case it is the one for requests. */
  lemma BothIsEither(cfg: Config, data: bytes, n: nat)
    requires Breaks(data) + 2 <= n <= |data|
    ensures var k := Breaks(data);
            var t, req := Run(cfg, Init(Both), data, n), Run(cfg, Init(Request), data, n);
            var res := Run(cfg, Init(Response), data, n);
            if data[k] == 'H' as int && data[k + 1] == 'T' as int then Alike(t, res)
            else if data[k] == 'H' as int && data[k + 1] != 'E' as int then
              t.ctl.Fail? && req.ctl.Fail? && res.ctl.Fail?
            else Alike(t, req)
  {
    hide Step, Run, AfterH;
    var k := Breaks(data);
    if cfg.maxHeaderSize <= k {
      SpentEarly(cfg, Both, data, n);
      SpentEarly(cfg, Request, data, n);
      SpentEarly(cfg, Response, data, n);
    } else if data[k] != 'H' as int {
      Waits(cfg, Both, data, k);
      Waits(cfg, Request, data, k);
      RunNext(cfg, Init(Both), data, k);
      RunNext(cfg, Init(Request), data, k);
      OtherFirst(cfg, k, data[k]);
      Together(cfg, Init(Both), Init(Request), data, k + 1, n);
    } else if cfg.maxHeaderSize == k + 1 {
      SpentSecond(cfg, Both, data, n);
      SpentSecond(cfg, Request, data, n);
      SpentSecond(cfg, Response, data, n);
    } else {
      HDecides(cfg, data, n);
    }
  }
}
