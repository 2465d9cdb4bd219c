/** Connections: any sequence of calls on one parser, calls with an empty buffer among them, which
    signal the end of input. The callbacks follow the message grammar exactly as long as no call
    comes after the end of a body that was read until then. */
module HttpFeed {
  import opened Ascii
  import opened HttpTypes
  import opened HttpMachine
  import opened HttpTrace
  import opened HttpClient
  import opened HttpShape
  import opened HttpInvariant
  import opened HttpRuns
  import opened HttpBatch

  /** A call with an empty buffer signals the end of input. */
  function AtEof(p: Parser): Out {
    if p.state.BodyIdentityEof? then Out(p, [Complete(ShouldKeepAlive(p))], Next)
    else if p.state.Dead? || p.state.StartReqOrRes? || p.state.StartRes? || p.state.StartReq? then Out(p, [], Next)
    else Error(p, InvalidEofState)
  }

  /** One call, byte by byte: the record it leaves and the callbacks it makes. After an error the
      parser ignores further calls; after an early return for an upgrade the next call goes on from
      the recorded state. */
  function Call(cfg: Config, p: Parser, data: bytes): (Parser, seq<Event>) {
    if !p.errno.OK? then (p, [])
    else if data == [] then var o := AtEof(p); (o.p, o.ev)
    else var t := Run(cfg, p, data, |data|); (t.p, t.ev)
  }

  /** A connection: the calls made so far on one parser. */
  function Feed(cfg: Config, k: Kind, calls: seq<bytes>): (Parser, seq<Event>) {
    if calls == [] then (Init(k), [])
    else
      var (p, ev) := Feed(cfg, k, calls[..|calls| - 1]);
      var (q, more) := Call(cfg, p, calls[|calls| - 1]);
      (q, ev + more)
  }

  /** The call is the end of input for a body that is read until then. */
  predicate Ends(p: Parser, data: bytes) { p.errno.OK? && p.state.BodyIdentityEof? && data == [] }

  /** One of the calls was. */
  predicate Over(cfg: Config, k: Kind, calls: seq<bytes>) {
    calls != [] &&
    (Over(cfg, k, calls[..|calls| - 1]) || Ends(Feed(cfg, k, calls[..|calls| - 1]).0, calls[|calls| - 1]))
  }

  /** The application as it stood before that end. */
  function Until(cfg: Config, k: Kind, calls: seq<bytes>): Client {
    if calls == [] then FRESH
    else if Over(cfg, k, calls[..|calls| - 1]) then Until(cfg, k, calls[..|calls| - 1])
    else if Over(cfg, k, calls) then DeliverAll(FRESH, Feed(cfg, k, calls[..|calls| - 1]).1)
    else DeliverAll(FRESH, Feed(cfg, k, calls).1)
  }

  // ---------------------------------------------------------------- one call

  /** The end of input completes the body that was read until then. */
  lemma EndCompletes(cfg: Config, p: Parser, c: Client)
    requires Good(cfg, p, c) && p.state.BodyIdentityEof?
    ensures var d := DeliverAll(c, AtEof(p).ev);
            AtEof(p).p == p && d == Client(Idle(ShouldKeepAlive(p)), c.fields)
  {
    hide FieldLink, CountersOk, ShouldKeepAlive, DeliverAll;
    DeliverOne(c, Complete(ShouldKeepAlive(p)));
  }

  /** After it, any call leaves the record alone and breaks the grammar: body text or another end
      after message_complete. */
  lemma CallAfterEnd(cfg: Config, p: Parser, c: Client, data: bytes)
    requires p.errno.OK? && p.state.BodyIdentityEof? && (c.phase.Idle? || c.phase.Broken?)
    ensures var (q, ev) := Call(cfg, p, data);
            var d := DeliverAll(c, ev);
            q == p && d.phase.Broken? && d.fields == c.fields
  {
    hide ShouldKeepAlive, Deliver, DeliverAll, Run;
    var (q, ev) := Call(cfg, p, data);
    if data != [] {
      RunFrom(cfg, p, data);
      EofRun(cfg, p, data, 0, |data|);
      assert [] + Singles(Body, data, 0, |data|) == Singles(Body, data, 0, |data|);
      SinglesFirst(data, |data|);
    }
    var first := ev[0];
    assert ev == [first] + ev[1..];
    DeliverConcat(c, [first], ev[1..]);
    DeliverOne(c, first);
    NothingAfterEnd(c, first);
    BrokenStays(Deliver(c, first), ev[1..]);
  }

  lemma RunFrom(cfg: Config, p: Parser, data: bytes)
    ensures Run(cfg, p, data, 0) == Trail(p, [], Next, 0)
  {
  }

  lemma {:induction false} SinglesFirst(data: bytes, n: nat)
    requires 0 < n <= |data|
    ensures var ev := Singles(Body, data, 0, n); ev != [] && ev[0] == Data(Body, [data[0]])
  {
    if n > 1 {
      SinglesFirst(data, n - 1);
    }
  }

  lemma NothingAfterEnd(c: Client, e: Event)
    requires c.phase.Idle? || c.phase.Broken?
    requires e.Complete? || (e.Data? && e.piece.Body?)
    ensures Deliver(c, e).phase.Broken? && Deliver(c, e).fields == c.fields
  {
  }

  /** A call that does not come after the end keeps grammar and invariant. */
  lemma CallKeeps(cfg: Config, p: Parser, c: Client, data: bytes)
    requires Good(cfg, p, c)
    ensures var (q, ev) := Call(cfg, p, data);
            var d := DeliverAll(c, ev);
            && !d.phase.Broken?
            && (q.errno.OK? && !Ends(p, data) ==> Good(cfg, q, d))
            && (Ends(p, data) ==> q == p && d == Client(Idle(ShouldKeepAlive(p)), c.fields))
  {
    hide Run, Good, ShouldKeepAlive, DeliverAll;
    GoodIsOk(cfg, p, c);
    if data != [] {
      RunKeeps(cfg, p, c, data, |data|);
    } else if p.state.BodyIdentityEof? {
      EndCompletes(cfg, p, c);
    } else {
      DeliverNone(c);
    }
  }

  lemma GoodIsOk(cfg: Config, p: Parser, c: Client)
    requires Good(cfg, p, c)
    ensures p.errno.OK? && !c.phase.Broken?
  {
    LinkNotBroken(p, c);
  }

  lemma DeliverNone(c: Client)
    ensures DeliverAll(c, []) == c
  {
  }

  // ---------------------------------------------------------------- whole connections

  /** The main safety theorem: over every connection the callbacks follow the message grammar, with
      body and chunk sizes conserved, exactly as long as no call comes after the end; and while no
      error is reported the record stays in the invariant. */
  lemma {:induction false} FeedKeeps(cfg: Config, k: Kind, calls: seq<bytes>)
    ensures var (p, ev) := Feed(cfg, k, calls);
            var c, d := DeliverAll(FRESH, ev), Until(cfg, k, calls);
            && (c.phase.Broken? <==> calls != [] && Over(cfg, k, calls[..|calls| - 1]))
            && (p.errno.OK? ==> Good(cfg, p, d) && d.fields == c.fields)
            && (!Over(cfg, k, calls) ==> d == c)
            && (Over(cfg, k, calls) ==> p.errno.OK? && p.state.BodyIdentityEof? && (c.phase.Idle? || c.phase.Broken?))
  {
    hide Call, Good, ShouldKeepAlive, DeliverAll;
    if calls == [] {
      InitGood(cfg, k);
      DeliverNone(FRESH);
    } else {
      var init, data := calls[..|calls| - 1], calls[|calls| - 1];
      FeedKeeps(cfg, k, init);
      var (p, ev) := Feed(cfg, k, init);
      var (q, more) := Call(cfg, p, data);
      var c := DeliverAll(FRESH, ev);
      DeliverConcat(FRESH, ev, more);
      if Over(cfg, k, init) {
        CallAfterEnd(cfg, p, c, data);
      } else if p.errno.OK? {
        CallKeeps(cfg, p, c, data);
      } else {
        CallIgnored(cfg, p, data);
        DeliverNone(c);
      }
    }
  }

  lemma CallIgnored(cfg: Config, p: Parser, data: bytes)
    requires !p.errno.OK?
    ensures Call(cfg, p, data) == (p, [])
  {
  }

  /** Call `m` ends a body that is read until the end of input. */
  predicate EndsAt(cfg: Config, k: Kind, calls: seq<bytes>, m: nat) {
    m < |calls| && Ends(Feed(cfg, k, calls[..m]).0, calls[m])
  }

  lemma {:induction false} OverIff(cfg: Config, k: Kind, calls: seq<bytes>)
    ensures Over(cfg, k, calls) <==> exists m: nat :: EndsAt(cfg, k, calls, m)
  {
    hide Feed, Ends;
    if calls != [] {
      var n := |calls| - 1;
      var init := calls[..n];
      OverIff(cfg, k, init);
      if m: nat :| EndsAt(cfg, k, init, m) {
        assert init[..m] == calls[..m];
        assert EndsAt(cfg, k, calls, m);
      }
      if m: nat :| EndsAt(cfg, k, calls, m) {
        assert m < n ==> init[..m] == calls[..m] && EndsAt(cfg, k, init, m);
      }
      if Ends(Feed(cfg, k, init).0, calls[n]) {
        assert EndsAt(cfg, k, calls, n);
      }
    }
  }

  /** The callbacks of a connection follow the message grammar if and only if no call comes after a
      call that signalled the end of input to a body read until then. */
  lemma GrammarIff(cfg: Config, k: Kind, calls: seq<bytes>)
    ensures !DeliverAll(FRESH, Feed(cfg, k, calls).1).phase.Broken?
            <==> forall m: nat :: EndsAt(cfg, k, calls, m) ==> m == |calls| - 1
  {
    hide Feed, Ends, DeliverAll, Until, Good;
    FeedKeeps(cfg, k, calls);
    if calls != [] {
      var init := calls[..|calls| - 1];
      OverIff(cfg, k, init);
      if m: nat :| EndsAt(cfg, k, init, m) {
        assert init[..m] == calls[..m];
        assert EndsAt(cfg, k, calls, m);
      }
      forall m: nat | EndsAt(cfg, k, calls, m) && m < |calls| - 1 ensures EndsAt(cfg, k, init, m) {
        assert init[..m] == calls[..m];
      }
    }
  }
}
