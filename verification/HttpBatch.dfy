/** The batch-scanning loops of the parser equal the fold of the one-byte step. */
module HttpBatch {
  import opened Ascii
  import opened HttpTypes
  import opened HttpMachine
  import opened HttpTrace
  import opened HttpShape
  import opened HttpMarks

  lemma RunNext(cfg: Config, p: Parser, data: bytes, n: nat)
    requires n < |data|
    ensures var t := Run(cfg, p, data, n);
            Run(cfg, p, data, n + 1) ==
            if !t.ctl.Next? then t
            else var o := Step(cfg, t.p, data[n]);
                 Trail(o.p, t.ev + o.ev, o.ctl, if o.ctl.Fail? then t.used else t.used + 1)
  {
  }

  /** A run that has halted stays as it is. */
  lemma {:induction false} RunHalted(cfg: Config, p: Parser, data: bytes, n: nat, m: nat)
    requires n <= m <= |data| && !Run(cfg, p, data, n).ctl.Next?
    ensures Run(cfg, p, data, m) == Run(cfg, p, data, n)
    decreases m - n
  {
    hide Step;
    if n < m {
      RunHalted(cfg, p, data, n, m - 1);
    }
  }

  lemma StepName(cfg: Config, p: Parser, b: byte)
    requires p.state.HeaderField? && IsToken(b)
    ensures Step(cfg, p, b) ==
            var q := p.(nread := p.nread + 1);
            if q.nread > cfg.maxHeaderSize then Error(q, HeaderOverflow)
            else Out(NextName(q, b), [Data(Field, [b])], Next)
  {
    hide NextName, IsToken;
  }

  /** The error of a byte that cannot stand in a value. */
  function TextError(p: Parser, b: byte): Errno {
    if !IsHeaderChar(b) then InvalidHeaderToken else ValueByte(p, b).p.errno
  }

  lemma StepText(cfg: Config, p: Parser, b: byte)
    requires p.state.HeaderValue? && b != CR && b != LF
    ensures var o := Step(cfg, p, b);
            var q := p.(nread := p.nread + 1);
            if q.nread > cfg.maxHeaderSize then o.ctl.Fail? && o.p.errno.HeaderOverflow?
            else if !IsHeaderChar(b) || ValueByte(q, b).ctl.Fail? then
              o.ctl.Fail? && o.ev == [] && o.p.errno == TextError(q, b)
            else o == Out(ValueByte(q, b).p, [Data(Value, [b])], Next)
  {
    hide TeByte, ConnByte;
    ValueByteEnds(p.(nread := p.nread + 1), b);
  }

  lemma ValueByteEnds(p: Parser, b: byte)
    ensures var o := ValueByte(p, b); (o.ctl.Fail? || o.ctl.Next?) && o.ev == []
  {
    hide TeByte, ConnByte;
  }

  /** Where the bytewise run stands after bytes i to k, seen from a batch loop that entered
      with `before` bytes counted and has counted none of these bytes itself: it agrees with
      the fields `q`, or the header budget is spent and it has already failed for that. */
  predicate Scanned(cfg: Config, p0: Parser, data: bytes, i: nat, k: nat, before: nat, q: Parser, piece: Piece) {
    && i <= k <= |data|
    && (if before + (k - i) <= cfg.maxHeaderSize then
          Run(cfg, p0, data, k) ==
          Trail(q.(nread := before + (k - i)), Run(cfg, p0, data, i).ev + Singles(piece, data, i, k), Next, k)
        else Run(cfg, p0, data, k).ctl.Fail? && Run(cfg, p0, data, k).p.errno.HeaderOverflow?)
  }

  /** The run fails at byte k, after bytes i to k of a piece, with the given error; or it has spent
      the header budget. */
  predicate FailsAt(cfg: Config, p0: Parser, data: bytes, i: nat, k: nat, e: Errno, piece: Piece)
    requires i <= k <= |data|
  {
    var t := Run(cfg, p0, data, |data|);
    && t.ctl.Fail?
    && (t.p.errno.HeaderOverflow?
        || (t.p.errno == e && t.used == k && t.ev == Run(cfg, p0, data, i).ev + Singles(piece, data, i, k)))
  }

  lemma ScannedName(cfg: Config, p0: Parser, data: bytes, i: nat, k: nat, before: nat, q: Parser)
    requires Scanned(cfg, p0, data, i, k, before, q, Field) && k < |data| && q.state.HeaderField? && IsToken(data[k])
    ensures Scanned(cfg, p0, data, i, k + 1, before, NextName(q, data[k]), Field)
  {
    hide NextName, Step, IsToken;
    RunNext(cfg, p0, data, k);
    if before + (k - i) <= cfg.maxHeaderSize {
      var r := q.(nread := before + (k - i));
      StepName(cfg, r, data[k]);
      NextNameFrame(q, before + (k + 1 - i), data[k]);
      var ev := Run(cfg, p0, data, i).ev;
      assert ev + Singles(Field, data, i, k) + [Data(Field, [data[k]])] == ev + Singles(Field, data, i, k + 1);
    }
  }

  lemma NextNameFrame(q: Parser, n: nat, b: byte)
    ensures NextName(q.(nread := n), b) == NextName(q, b).(nread := n)
  {
    hide NameByte;
  }

  /** A byte beyond the budget fails whatever it is, even one the batch loop never looked at. */
  lemma ScannedOver(cfg: Config, p0: Parser, data: bytes, i: nat, k: nat, before: nat, q: Parser, piece: Piece,
                    r: Parser)
    requires Scanned(cfg, p0, data, i, k, before, q, piece) && k < |data| && ParsingHeader(q.state)
    requires before + (k - i) >= cfg.maxHeaderSize
    ensures Scanned(cfg, p0, data, i, k + 1, before, r, piece)
  {
    hide Chain;
    RunNext(cfg, p0, data, k);
  }

  lemma ScannedText(cfg: Config, p0: Parser, data: bytes, i: nat, k: nat, before: nat, q: Parser)
    requires Scanned(cfg, p0, data, i, k, before, q, Value) && k < |data| && q.state.HeaderValue?
    requires data[k] != CR && data[k] != LF
    ensures IsHeaderChar(data[k]) && !ValueByte(q, data[k]).ctl.Fail?
            ==> Scanned(cfg, p0, data, i, k + 1, before, ValueByte(q, data[k]).p, Value)
    ensures !IsHeaderChar(data[k]) || ValueByte(q, data[k]).ctl.Fail?
            ==> FailsAt(cfg, p0, data, i, k, TextError(q, data[k]), Value)
  {
    hide ValueByte, Step, IsHeaderChar, Run;
    RunNext(cfg, p0, data, k);
    if before + (k - i) <= cfg.maxHeaderSize {
      var r := q.(nread := before + (k - i));
      StepText(cfg, r, data[k]);
      ValueByteFrame(q, before + (k + 1 - i), data[k]);
      var ev := Run(cfg, p0, data, i).ev;
      assert ev + Singles(Value, data, i, k) + [Data(Value, [data[k]])] == ev + Singles(Value, data, i, k + 1);
      assert ev + Singles(Value, data, i, k) + [] == ev + Singles(Value, data, i, k);
    }
    if !Run(cfg, p0, data, k + 1).ctl.Next? {
      RunHalted(cfg, p0, data, k + 1, |data|);
    }
  }

  lemma ValueByteFrame(q: Parser, n: nat, b: byte)
    ensures var o := ValueByte(q, b); var o' := ValueByte(q.(nread := n), b);
            o'.ctl == o.ctl && o'.p.errno == o.p.errno && (!o.ctl.Fail? ==> o'.p == o.p.(nread := n))
  {
    hide TeByte, ConnByte;
    if q.hstate.Te? {
      TeByteFrame(q, b, n);
    } else if q.hstate.Conn? {
      ConnByteFrame(q, b, n);
    }
  }

  // ---------------------------------------------------------------- bodies

  lemma StepBody(cfg: Config, p: Parser, b: byte)
    requires p.state.BodyIdentity? || p.state.ChunkData?
    requires p.contentLength > 1
    ensures Step(cfg, p, b) == Out(p.(contentLength := p.contentLength - 1), [Data(Body, [b])], Next)
  {
  }

  lemma StepLastOfChunk(cfg: Config, p: Parser, b: byte)
    requires p.state.ChunkData? && p.contentLength == 1
    ensures Step(cfg, p, b) == Out(p.(contentLength := 0, state := ChunkDataAlmostDone), [Data(Body, [b])], Next)
  {
  }

  lemma StepLastOfBody(cfg: Config, p: Parser, b: byte)
    requires p.state.BodyIdentity? && p.contentLength == 1
    ensures var q := p.(contentLength := 0, state := MessageDone);
            var r := FinishMessage(q, if q.upgrade then Stop else Next);
            Step(cfg, p, b) == Out(r.p, [Data(Body, [b])] + r.ev, r.ctl)
  {
    hide ShouldKeepAlive;
    var q := p.(contentLength := 0, state := MessageDone);
    var r := FinishMessage(q, if q.upgrade then Stop else Next);
    assert Switch(cfg, q, b) == r;
    assert Chain(cfg, q, b) == r;
    assert Switch(cfg, p, b) == Out(q, [Data(Body, [b])], Again);
  }

  /** m bytes of a body that does not end with them. */
  lemma {:induction false} BodyRun(cfg: Config, p0: Parser, data: bytes, i: nat, m: nat)
    requires i + m <= |data|
    requires var t := Run(cfg, p0, data, i);
             t.ctl.Next? && t.used == i && (t.p.state.BodyIdentity? || t.p.state.ChunkData?) && m < t.p.contentLength
    ensures var t := Run(cfg, p0, data, i);
            Run(cfg, p0, data, i + m) ==
            Trail(t.p.(contentLength := t.p.contentLength - m), t.ev + Singles(Body, data, i, i + m), Next, i + m)
    decreases m
  {
    hide Step;
    var t := Run(cfg, p0, data, i);
    if m == 0 {
      assert t.ev + Singles(Body, data, i, i) == t.ev;
    } else {
      BodyRun(cfg, p0, data, i, m - 1);
      RunNext(cfg, p0, data, i + m - 1);
      StepBody(cfg, t.p.(contentLength := t.p.contentLength - (m - 1)), data[i + m - 1]);
      assert t.ev + Singles(Body, data, i, i + m - 1) + [Data(Body, [data[i + m - 1]])]
             == t.ev + Singles(Body, data, i, i + m);
    }
  }

  /** All the bytes that a body or a chunk has left. */
  lemma BodyRunEnds(cfg: Config, p0: Parser, data: bytes, i: nat, j: nat)
    requires i < j <= |data|
    requires var t := Run(cfg, p0, data, i);
             t.ctl.Next? && t.used == i && (t.p.state.BodyIdentity? || t.p.state.ChunkData?)
             && i + t.p.contentLength == j
    ensures var t := Run(cfg, p0, data, i);
            var ev := t.ev + Singles(Body, data, i, j);
            var q := t.p.(contentLength := 0, state := MessageDone);
            var r := FinishMessage(q, if q.upgrade then Stop else Next);
            Run(cfg, p0, data, j) ==
            if t.p.state.ChunkData? then Trail(q.(state := ChunkDataAlmostDone), ev, Next, j)
            else Trail(r.p, ev + r.ev, r.ctl, j)
  {
    hide Step, FinishMessage;
    var t := Run(cfg, p0, data, i);
    var b := Data(Body, [data[j - 1]]);
    var q := t.p.(contentLength := 1);
    BodyRun(cfg, p0, data, i, j - 1 - i);
    RunNext(cfg, p0, data, j - 1);
    assert t.ev + Singles(Body, data, i, j - 1) + [b] == t.ev + Singles(Body, data, i, j);
    if t.p.state.ChunkData? {
      StepLastOfChunk(cfg, q, data[j - 1]);
    } else {
      StepLastOfBody(cfg, q, data[j - 1]);
      var z := t.p.(contentLength := 0, state := MessageDone);
      var r := FinishMessage(z, if z.upgrade then Stop else Next);
      FinishControl(z, if z.upgrade then Stop else Next);
      assert t.ev + Singles(Body, data, i, j - 1) + ([b] + r.ev) == t.ev + Singles(Body, data, i, j) + r.ev;
    }
  }

  lemma FinishControl(p: Parser, ctl: Control)
    ensures FinishMessage(p, ctl).ctl == ctl
  {
    hide ShouldKeepAlive;
  }

  lemma StepEof(cfg: Config, p: Parser, b: byte)
    requires p.state.BodyIdentityEof?
    ensures Step(cfg, p, b) == Out(p, [Data(Body, [b])], Next)
  {
  }

  lemma {:induction false} EofRun(cfg: Config, p0: Parser, data: bytes, i: nat, m: nat)
    requires i + m <= |data|
    requires var t := Run(cfg, p0, data, i); t.ctl.Next? && t.used == i && t.p.state.BodyIdentityEof?
    ensures var t := Run(cfg, p0, data, i);
            Run(cfg, p0, data, i + m) == Trail(t.p, t.ev + Singles(Body, data, i, i + m), Next, i + m)
    decreases m
  {
    hide Step;
    var t := Run(cfg, p0, data, i);
    if m == 0 {
      assert t.ev + Singles(Body, data, i, i) == t.ev;
    } else {
      EofRun(cfg, p0, data, i, m - 1);
      RunNext(cfg, p0, data, i + m - 1);
      StepEof(cfg, t.p, data[i + m - 1]);
      assert t.ev + Singles(Body, data, i, i + m - 1) + [Data(Body, [data[i + m - 1]])]
             == t.ev + Singles(Body, data, i, i + m);
    }
  }
}
