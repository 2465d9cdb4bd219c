/** Split independence: however a stream is cut into non-empty buffers, the parser ends in the
    same fields and the application is told the same, up to the joining of adjacent pieces. */
module HttpSplit {
  import opened Ascii
  import opened HttpTypes
  import opened HttpMachine
  import opened HttpTrace
  import opened HttpBatch
  import opened HttpClient
  import opened HttpRuns
  import opened HttpFeed
  import opened HttpExecute

  lemma {:induction false} RunPrefix(cfg: Config, p: Parser, a: bytes, b: bytes, n: nat)
    requires n <= |a|
    ensures Run(cfg, p, a + b, n) == Run(cfg, p, a, n)
    decreases n
  {
    hide Step;
    if n > 0 {
      RunPrefix(cfg, p, a, b, n - 1);
    }
  }

  /** The bytewise run over two buffers in a row. */
  lemma {:induction false} RunAppend(cfg: Config, p: Parser, a: bytes, b: bytes, n: nat)
    requires n <= |b| && Run(cfg, p, a, |a|).ctl.Next?
    ensures var t := Run(cfg, p, a, |a|);
            var u := Run(cfg, t.p, b, n);
            Run(cfg, p, a + b, |a| + n) == Trail(u.p, t.ev + u.ev, u.ctl, t.used + u.used)
    decreases n
  {
    hide Step;
    RunPrefix(cfg, p, a, b, |a|);
    var t := Run(cfg, p, a, |a|);
    if n == 0 {
      assert t.ev + [] == t.ev;
    } else {
      RunAppend(cfg, p, a, b, n - 1);
      var u := Run(cfg, t.p, b, n - 1);
      assert (a + b)[|a| + n - 1] == b[n - 1];
      if u.ctl.Next? {
        var o := Step(cfg, u.p, b[n - 1]);
        assert t.ev + u.ev + o.ev == t.ev + (u.ev + o.ev);
      }
    }
  }

  lemma FlattenNone()
    ensures Flatten([]) == []
  {
  }

  lemma FlattenNext(pieces: seq<bytes>, m: nat)
    requires m < |pieces|
    ensures Flatten(pieces[..m + 1]) == Flatten(pieces[..m]) + pieces[m]
  {
    assert pieces[..m + 1] == pieces[..m] + [pieces[m]];
    FlattenSnoc(pieces[..m], pieces[m]);
  }

  lemma {:induction false} FlattenPrefix(pieces: seq<bytes>, m: nat)
    requires m <= |pieces|
    ensures exists rest :: Flatten(pieces) == Flatten(pieces[..m]) + rest
    decreases |pieces| - m
  {
    if m == |pieces| {
      assert pieces[..m] == pieces;
      assert Flatten(pieces) == Flatten(pieces[..m]) + [];
    } else {
      FlattenPrefix(pieces, m + 1);
      FlattenNext(pieces, m);
      var rest :| Flatten(pieces) == Flatten(pieces[..m + 1]) + rest;
      assert Flatten(pieces) == Flatten(pieces[..m]) + (pieces[m] + rest);
    }
  }

  lemma FlattenNonEmpty(pieces: seq<bytes>)
    requires pieces != [] && pieces[|pieces| - 1] != []
    ensures Flatten(pieces) != []
  {
    var n := |pieces| - 1;
    assert pieces == pieces[..n] + [pieces[n]];
    FlattenSnoc(pieces[..n], pieces[n]);
  }

  /** A halted prefix decides the whole run. */
  lemma HaltedPrefix(cfg: Config, p: Parser, pieces: seq<bytes>, m: nat)
    requires m <= |pieces|
    requires !Run(cfg, p, Flatten(pieces[..m]), |Flatten(pieces[..m])|).ctl.Next?
    ensures var all := Flatten(pieces);
            Run(cfg, p, all, |all|) == Run(cfg, p, Flatten(pieces[..m]), |Flatten(pieces[..m])|)
  {
    FlattenPrefix(pieces, m);
    var a, all := Flatten(pieces[..m]), Flatten(pieces);
    var rest :| all == a + rest;
    RunPrefix(cfg, p, a, rest, |a|);
    RunHalted(cfg, p, all, |a|, |all|);
  }

  /** A stream delivered in pieces, one call per piece, until a call reports an error. */
  method ExecutePieces(parser: HttpParser, pieces: seq<bytes>) returns (log: seq<Event>)
    requires parser.Valid() && parser.errno.OK? && forall i | 0 <= i < |pieces| :: pieces[i] != []
    modifies parser
    ensures parser.Valid()
    ensures var all := Flatten(pieces);
            var t := Run(parser.cfg, old(parser.View()), all, |all|);
            && (t.ctl.Next? ==> parser.View() == t.p && parser.errno.OK? && Joined(log) == Joined(t.ev))
            && (t.ctl.Fail? ==> !parser.errno.OK?)
  {
    hide Run, Joined, Flatten, FailsLike, Sound, DeliverAll, AtEof;
    FlattenNone();
    log := [];
    ghost var cfg, p0 := parser.cfg, parser.View();
    ghost var t := Trail(p0, [], Next, 0);
    ghost var stopped := false;
    assert pieces[..0] == [] && Run(cfg, p0, [], 0) == t by { EmptyRun(cfg, p0); }
    var m := 0;
    while m < |pieces| && parser.errno.OK?
      invariant 0 <= m <= |pieces| && parser.Valid()
      invariant t == Run(cfg, p0, Flatten(pieces[..m]), |Flatten(pieces[..m])|)
      invariant !stopped && parser.errno.OK? ==> t.ctl.Next? && t.p == parser.View() && Joined(log) == Joined(t.ev)
      invariant !stopped && !parser.errno.OK? ==> t.ctl.Fail?
      invariant stopped ==> t.ctl.Stop?
    {
      ghost var a, b, q := Flatten(pieces[..m]), pieces[m], parser.View();
      ghost var before := log;
      FlattenNext(pieces, m);
      var n, more := parser.Execute(pieces[m]);
      log := log + more;
      ghost var u := Run(cfg, q, b, |b|);
      if stopped {
        assert pieces[..m + 1][..m] == pieces[..m];
        HaltedPrefix(cfg, p0, pieces[..m + 1], m);
      } else {
        RunAppend(cfg, p0, a, b, |b|);
        RunControl(cfg, q, b, |b|);
        if !u.ctl.Fail? {
          JoinedConcat(before, more, t.ev, u.ev);
        }
        stopped := u.ctl.Stop?;
      }
      t := Run(cfg, p0, a + b, |a + b|);
      m := m + 1;
    }
    if t.ctl.Next? {
      assert pieces[..m] == pieces;
    } else {
      HaltedPrefix(cfg, p0, pieces, m);
    }
  }

  lemma {:induction false} RunControl(cfg: Config, p: Parser, data: bytes, n: nat)
    requires p.errno.OK? && n <= |data|
    ensures var t := Run(cfg, p, data, n); !t.ctl.Again? && (t.ctl.Fail? <==> !t.p.errno.OK?)
    decreases n
  {
    hide Chain;
    if n > 0 {
      RunControl(cfg, p, data, n - 1);
      var t := Run(cfg, p, data, n - 1);
      if t.ctl.Next? {
        ChainErrno(cfg, Counted(t.p), data[n - 1]);
      }
    }
  }

  lemma EmptyRun(cfg: Config, p: Parser)
    ensures Run(cfg, p, [], 0) == Trail(p, [], Next, 0)
  {
  }

  /** The same stream in one call and in pieces, on two parsers that start alike. */
  method SplitIndependence(whole: HttpParser, cut: HttpParser, pieces: seq<bytes>)
    returns (wholeLog: seq<Event>, cutLog: seq<Event>)
    requires whole != cut && whole.Valid() && cut.Valid() && whole.cfg == cut.cfg
    requires whole.View() == cut.View() && whole.errno.OK?
    requires pieces != [] && forall i | 0 <= i < |pieces| :: pieces[i] != []
    modifies whole, cut
    ensures var all := Flatten(pieces);
            var t := Run(whole.cfg, old(whole.View()), all, |all|);
            && (t.ctl.Next? ==> whole.View() == cut.View() && whole.errno.OK? && Joined(wholeLog) == Joined(cutLog))
            && (t.ctl.Fail? ==> !whole.errno.OK? && !cut.errno.OK?)
  {
    hide Run, Joined;
    var all := Flatten(pieces);
    var n: nat;
    FlattenNonEmpty(pieces);
    n, wholeLog := whole.Execute(all);
    cutLog := ExecutePieces(cut, pieces);
  }
}
