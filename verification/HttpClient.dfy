/** An application on the other side of the callbacks: it collects the header fields of the
    current message and checks, event by event, that the callbacks follow the grammar of
    HTTP messages and that bodies and chunks have exactly the announced size. */
module HttpClient {
  import opened Ascii
  import opened HttpTypes
  import opened HttpTrace

  datatype HeaderLine = HeaderLine(name: bytes, value: bytes)

  /** Where the application stands in the message.
      - Idle(open): no message; `open` says whether another one may begin
      - Begun: message_begin seen; Target: a url or status piece seen as well
      - Name(t) / Text(t): last piece was of a field name / value; t in a trailer
      - Headed: headers_complete seen; Reading: an identity body of which `got` bytes came
      - Gap: between chunks; Chunk(left): inside a chunk with `left` bytes to come
      - Trailer: the zero-size chunk header seen; Ended: its chunk_complete seen
      - Broken: the callbacks violated the grammar */
  datatype Phase =
    | Idle(open: bool)
    | Begun
    | Target(request: bool)
    | Name(trailer: bool)
    | Text(trailer: bool)
    | Headed(declared: nat, chunked: bool, skipped: bool)
    | Reading(declared: nat, got: nat)
    | Gap
    | Chunk(left: nat)
    | Trailer
    | Ended
    | Broken

  datatype Client = Client(phase: Phase, fields: seq<HeaderLine>)

  const FRESH := Client(Idle(true), [])

  function Bad(c: Client): Client { c.(phase := Broken) }

  function AddName(c: Client, text: bytes, trailer: bool): Client {
    Client(Name(trailer), c.fields + [HeaderLine(text, [])])
  }

  function MoreName(c: Client, text: bytes): Client {
    if c.fields == [] then Bad(c)
    else
      var n := |c.fields| - 1;
      c.(fields := c.fields[n := c.fields[n].(name := c.fields[n].name + text)])
  }

  function MoreValue(c: Client, text: bytes, trailer: bool): Client {
    if c.fields == [] then Bad(c)
    else
      var n := |c.fields| - 1;
      Client(Text(trailer), c.fields[n := c.fields[n].(value := c.fields[n].value + text)])
  }

  /** Body bytes: an identity body never exceeds the declared length, a chunk never exceeds
      its announced size. */
  function BodyBytes(c: Client, n: nat): Client {
    match c.phase
    case Headed(d, chunked, skipped) =>
      if chunked || skipped || d == 0 || (d != ABSENT && n > d) then Bad(c) else c.(phase := Reading(d, n))
    case Reading(d, got) => if d != ABSENT && got + n > d then Bad(c) else c.(phase := Reading(d, got + n))
    case Chunk(left) => if n > left then Bad(c) else c.(phase := Chunk(left - n))
    case _ => Bad(c)
  }

  function Deliver(c: Client, e: Event): Client {
    match e
    case Begin => if c.phase == Idle(true) then Client(Begun, []) else Bad(c)
    case Data(Url, _) => if c.phase.Begun? || c.phase == Target(true) then c.(phase := Target(true)) else Bad(c)
    case Data(Status, _) => if c.phase.Begun? || c.phase == Target(false) then c.(phase := Target(false)) else Bad(c)
    case Data(Field, t) =>
      (match c.phase
       case Target(_) => AddName(c, t, false)
       case Text(trailer) => AddName(c, t, trailer)
       case Trailer => AddName(c, t, true)
       case Name(_) => MoreName(c, t)
       case _ => Bad(c))
    case Data(Value, t) =>
      (match c.phase
       case Name(trailer) => MoreValue(c, t, trailer)
       case Text(trailer) => MoreValue(c, t, trailer)
       case _ => Bad(c))
    case Data(Body, t) => BodyBytes(c, |t|)
    case HeadersComplete(d, chunked, skipped) =>
      if c.phase.Target? || c.phase == Text(false) then c.(phase := Headed(d, chunked, skipped)) else Bad(c)
    case ChunkHeader(size) =>
      if c.phase.Gap? || (c.phase.Headed? && c.phase.chunked && !c.phase.skipped)
      then c.(phase := if size == 0 then Trailer else Chunk(size)) else Bad(c)
    case ChunkComplete =>
      if c.phase == Chunk(0) then c.(phase := Gap)
      else if c.phase.Trailer? || c.phase == Text(true) then c.(phase := Ended)
      else Bad(c)
    case Complete(ka) =>
      (match c.phase
       case Headed(d, chunked, skipped) =>
         if skipped || (!chunked && (d == 0 || d == ABSENT)) then c.(phase := Idle(ka)) else Bad(c)
       case Reading(d, got) => if got == d || d == ABSENT then c.(phase := Idle(ka)) else Bad(c)
       case Ended => c.(phase := Idle(ka))
       case _ => Bad(c))
  }

  function DeliverAll(c: Client, ev: seq<Event>): Client {
    if ev == [] then c else Deliver(DeliverAll(c, ev[..|ev| - 1]), ev[|ev| - 1])
  }

  lemma {:induction false} DeliverConcat(c: Client, a: seq<Event>, b: seq<Event>)
    ensures DeliverAll(c, a + b) == DeliverAll(DeliverAll(c, a), b)
  {
    if b == [] {
      assert a + b == a;
    } else {
      assert (a + b)[..|a + b| - 1] == a + b[..|b| - 1];
      DeliverConcat(c, a, b[..|b| - 1]);
    }
  }

  lemma NameTwice(c: Client, x: bytes, y: bytes)
    ensures Deliver(Deliver(c, Data(Field, x)), Data(Field, y)) == Deliver(c, Data(Field, x + y))
  {
    if c.phase.Name? && c.fields != [] {
      var n := |c.fields| - 1;
      assert c.fields[n].name + x + y == c.fields[n].name + (x + y);
    }
  }

  lemma ValueTwice(c: Client, x: bytes, y: bytes)
    ensures Deliver(Deliver(c, Data(Value, x)), Data(Value, y)) == Deliver(c, Data(Value, x + y))
  {
    if (c.phase.Name? || c.phase.Text?) && c.fields != [] {
      var n := |c.fields| - 1;
      assert c.fields[n].value + x + y == c.fields[n].value + (x + y);
    }
  }

  lemma BodyTwice(c: Client, x: bytes, y: bytes)
    ensures Deliver(Deliver(c, Data(Body, x)), Data(Body, y)) == Deliver(c, Data(Body, x + y))
  {
  }

  /** The application does not notice where a run of text is cut. */
  lemma DeliverTwice(c: Client, k: Piece, x: bytes, y: bytes)
    ensures Deliver(Deliver(c, Data(k, x)), Data(k, y)) == Deliver(c, Data(k, x + y))
  {
    match k {
      case Field => NameTwice(c, x, y);
      case Value => ValueTwice(c, x, y);
      case Body => BodyTwice(c, x, y);
      case _ =>
    }
  }

  lemma DeliverPush(c: Client, t: seq<Event>, e: Event)
    ensures DeliverAll(c, Push(t, e)) == Deliver(DeliverAll(c, t), e)
  {
    if Joins(t, e) {
      var init, last := t[..|t| - 1], t[|t| - 1];
      var joint := Data(e.piece, last.text + e.text);
      assert (init + [joint])[..|init|] == init;
      DeliverTwice(DeliverAll(c, init), e.piece, last.text, e.text);
    } else {
      assert (t + [e])[..|t|] == t;
    }
  }

  lemma {:induction false} DeliverJoined(c: Client, ev: seq<Event>)
    ensures DeliverAll(c, Joined(ev)) == DeliverAll(c, ev)
  {
    if ev != [] {
      DeliverJoined(c, ev[..|ev| - 1]);
      DeliverPush(c, Joined(ev[..|ev| - 1]), ev[|ev| - 1]);
    }
  }

  /** Once the grammar is broken it stays so. */
  lemma {:induction false} BrokenStays(c: Client, ev: seq<Event>)
    requires c.phase.Broken?
    ensures DeliverAll(c, ev).phase.Broken? && DeliverAll(c, ev).fields == c.fields
  {
    if ev != [] {
      BrokenStays(c, ev[..|ev| - 1]);
      BrokenOnce(DeliverAll(c, ev[..|ev| - 1]), ev[|ev| - 1]);
    }
  }

  lemma BrokenOnce(c: Client, e: Event)
    requires c.phase.Broken?
    ensures Deliver(c, e).phase.Broken? && Deliver(c, e).fields == c.fields
  {
  }

  /** What an application has been told is a part of the grammar when that and the pending text are. */
  lemma TellsNotBroken(c: Client, log: seq<Event>, live: Live, data: bytes, i: nat, ev: seq<Event>)
    requires Tells(log, live, data, i, ev) && !DeliverAll(c, ev).phase.Broken?
    ensures !DeliverAll(c, log).phase.Broken?
  {
    hide DeliverAll, Joined, Deliver;
    var pending := Pending(live, data, i);
    DeliverJoined(c, log + pending);
    DeliverJoined(c, ev);
    DeliverConcat(c, log, pending);
    if DeliverAll(c, log).phase.Broken? {
      BrokenStays(DeliverAll(c, log), pending);
    }
  }

  /** Text of a value, byte by byte, never breaks the grammar where a value may go on. */
  lemma {:induction false} ValueGoesOn(c: Client, data: bytes, i: nat, k: nat)
    requires i <= k <= |data| && c.phase.Text? && c.fields != []
    ensures var d := DeliverAll(c, Singles(Value, data, i, k)); d.phase.Text? && d.fields != []
    decreases k - i
  {
    hide Deliver;
    if k > i {
      ValueGoesOn(c, data, i, k - 1);
      var ev := Singles(Value, data, i, k);
      assert ev[..|ev| - 1] == Singles(Value, data, i, k - 1);
      ValueOnce(DeliverAll(c, ev[..|ev| - 1]), data[k - 1]);
    }
  }

  lemma ValueOnce(c: Client, b: byte)
    requires c.phase.Text? && c.fields != []
    ensures var d := Deliver(c, Data(Value, [b])); d.phase.Text? && d.fields != []
  {
  }
}
