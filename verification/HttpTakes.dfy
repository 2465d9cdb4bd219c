/** Runs put together: a record that takes a text is left in another, having told its events. */
module HttpTakes {
  import opened Ascii
  import opened HttpTypes
  import opened HttpMachine
  import opened HttpBatch
  import opened HttpSplit

  /** The run over the whole text goes on, in record q, and has told ev. */
  predicate Takes(cfg: Config, p: Parser, x: bytes, q: Parser, ev: seq<Event>) {
    Run(cfg, p, x, |x|) == Trail(q, ev, Next, |x|)
  }

  lemma TakesNone(cfg: Config, p: Parser)
    ensures Takes(cfg, p, [], p, [])
  {
  }

  lemma TakesThen(cfg: Config, p: Parser, x: bytes, q: Parser, ev: seq<Event>, y: bytes, r: Parser, more: seq<Event>)
    requires Takes(cfg, p, x, q, ev) && Takes(cfg, q, y, r, more)
    ensures Takes(cfg, p, x + y, r, ev + more)
  {
    hide Run;
    RunAppend(cfg, p, x, y, |y|);
  }

  lemma TakesByte(cfg: Config, p: Parser, x: bytes, q: Parser, ev: seq<Event>, b: byte)
    requires Takes(cfg, p, x, q, ev) && Step(cfg, q, b).ctl.Next?
    ensures var o := Step(cfg, q, b); Takes(cfg, p, x + [b], o.p, ev + o.ev)
  {
    hide Step;
    RunPrefix(cfg, p, x, [b], |x|);
    RunNext(cfg, p, x + [b], |x|);
  }

  /** A byte that tells nothing. */
  lemma TakesQuiet(cfg: Config, p: Parser, x: bytes, q: Parser, ev: seq<Event>, b: byte, r: Parser)
    requires Takes(cfg, p, x, q, ev) && Step(cfg, q, b) == Out(r, [], Next)
    ensures Takes(cfg, p, x + [b], r, ev)
  {
    hide Step, Run;
    TakesByte(cfg, p, x, q, ev, b);
    assert ev + [] == ev;
  }

  /** The run over a text, seen from its last byte. */
  lemma RunLast(cfg: Config, p: Parser, x: bytes, b: byte)
    ensures Run(cfg, p, x + [b], |x|) == Run(cfg, p, x, |x|)
    ensures Run(cfg, p, x + [b], |x| + 1).ctl.Next? ==>
              && Run(cfg, p, x, |x|).ctl.Next?
              && Step(cfg, Run(cfg, p, x, |x|).p, b).ctl.Next?
              && Run(cfg, p, x + [b], |x| + 1).p == Step(cfg, Run(cfg, p, x, |x|).p, b).p
  {
    hide Step;
    RunPrefix(cfg, p, x, [b], |x|);
    RunNext(cfg, p, x + [b], |x|);
  }
}
