/** Callback traces up to where pieces of text are cut: two traces are the same to an
    application that joins adjacent pieces of one kind. */
module HttpTrace {
  import opened Ascii
  import opened HttpTypes

  predicate Joins(t: seq<Event>, e: Event) {
    t != [] && t[|t| - 1].Data? && e.Data? && t[|t| - 1].piece == e.piece
  }

  /** Appends an event, joining it to the last piece when both are of one kind. */
  function Push(t: seq<Event>, e: Event): seq<Event> {
    if Joins(t, e) then t[..|t| - 1] + [Data(e.piece, t[|t| - 1].text + e.text)] else t + [e]
  }

  function PushAll(t: seq<Event>, ev: seq<Event>): seq<Event> {
    if ev == [] then t else Push(PushAll(t, ev[..|ev| - 1]), ev[|ev| - 1])
  }

  /** The joined form of a trace. */
  function Joined(ev: seq<Event>): seq<Event> { PushAll([], ev) }

  lemma PushTwice(t: seq<Event>, k: Piece, x: bytes, y: bytes)
    ensures Push(Push(t, Data(k, x)), Data(k, y)) == Push(t, Data(k, x + y))
  {
    if Joins(t, Data(k, x)) {
      var last := t[|t| - 1].text;
      assert last + x + y == last + (x + y);
    }
  }

  lemma PushEmpty(t: seq<Event>, k: Piece)
    requires Joins(t, Data(k, []))
    ensures Push(t, Data(k, [])) == t
  {
    assert t[|t| - 1].text + [] == t[|t| - 1].text;
  }

  lemma {:induction false} PushAllConcat(t: seq<Event>, a: seq<Event>, b: seq<Event>)
    ensures PushAll(t, a + b) == PushAll(PushAll(t, a), b)
  {
    if b == [] {
      assert a + b == a;
    } else {
      assert (a + b)[..|a + b| - 1] == a + b[..|b| - 1];
      PushAllConcat(t, a, b[..|b| - 1]);
    }
  }

  lemma PushAllLast(t: seq<Event>, a: seq<Event>, e: Event)
    ensures PushAll(t, a + [e]) == Push(PushAll(t, a), e)
  {
    assert (a + [e])[..|a|] == a;
  }

  /** A joined suffix can replace the pieces it was joined from. */
  lemma {:induction false} PushAllPush(t: seq<Event>, n: seq<Event>, e: Event)
    ensures PushAll(t, Push(n, e)) == Push(PushAll(t, n), e)
  {
    if Joins(n, e) {
      var init, last := n[..|n| - 1], n[|n| - 1];
      assert n == init + [last];
      PushAllLast(t, init, last);
      PushAllLast(t, init, Data(e.piece, last.text + e.text));
      PushTwice(PushAll(t, init), e.piece, last.text, e.text);
    } else {
      PushAllLast(t, n, e);
    }
  }

  lemma {:induction false} PushAllJoined(t: seq<Event>, ev: seq<Event>)
    ensures PushAll(t, ev) == PushAll(t, Joined(ev))
  {
    if ev != [] {
      PushAllJoined(t, ev[..|ev| - 1]);
      PushAllPush(t, Joined(ev[..|ev| - 1]), ev[|ev| - 1]);
    }
  }

  /** Equality of joined traces is a congruence for concatenation. */
  lemma JoinedConcat(a: seq<Event>, b: seq<Event>, a': seq<Event>, b': seq<Event>)
    requires Joined(a) == Joined(a') && Joined(b) == Joined(b')
    ensures Joined(a + b) == Joined(a' + b')
  {
    PushAllConcat([], a, b);
    PushAllConcat([], a', b');
    PushAllJoined(Joined(a), b);
    PushAllJoined(Joined(a'), b');
  }

  // ---------------------------------------------------------------- marks

  /** The run of text under way in a buffer: the one mark that is set, if any. */
  datatype Live = NoRun | From(piece: Piece, start: nat)

  function Marks(live: Live): map<Piece, nat> {
    if live.NoRun? then map[] else map[live.piece := live.start]
  }

  /** The part of the run that no callback has delivered yet, at position i of the buffer. */
  function Pending(live: Live, data: bytes, i: nat): seq<Event>
    requires i <= |data|
  {
    if live.From? && live.start < i then [Data(live.piece, data[live.start..i])] else []
  }

  /** The callbacks made, with the pending text, amount to `ev` once pieces are joined. */
  predicate Tells(log: seq<Event>, live: Live, data: bytes, i: nat, ev: seq<Event>) {
    i <= |data| && Joined(log + Pending(live, data, i)) == Joined(ev)
  }

  function Mark(live: Live, k: Piece, i: nat): Live {
    if live.NoRun? then From(k, i) else live
  }

  lemma JoinedLast(a: seq<Event>, e: Event)
    ensures Joined(a + [e]) == Push(Joined(a), e)
  {
    PushAllLast([], a, e);
  }

  lemma TakeByte(log: seq<Event>, live: Live, data: bytes, i: nat, ev: seq<Event>, k: Piece)
    requires i < |data| && Tells(log, live, data, i, ev)
    requires live.From? ==> live.piece == k && live.start <= i
    ensures Tells(log, Mark(live, k, i), data, i + 1, ev + [Data(k, [data[i]])])
  {
    hide PushAll, Push;
    var e := Data(k, [data[i]]);
    var live' := Mark(live, k, i);
    JoinedLast(ev, e);
    if live.From? && live.start < i {
      var x := data[live.start..i];
      assert data[live.start..i + 1] == x + [data[i]];
      JoinedLast(log, Data(k, x));
      JoinedLast(log, Data(k, x + [data[i]]));
      PushTwice(Joined(log), k, x, [data[i]]);
    } else {
      assert log + [] == log;
      assert data[i..i + 1] == [data[i]];
      JoinedLast(log, e);
    }
  }

  lemma CloseRun(log: seq<Event>, live: Live, data: bytes, i: nat, ev: seq<Event>, k: Piece)
    requires i <= |data| && Tells(log, live, data, i, ev)
    requires live.From? ==> live.piece == k && live.start <= i
    ensures Tells(log + [Data(k, data[Mark(live, k, i).start..i])], NoRun, data, i, ev + [Data(k, [])])
  {
    var x := data[Mark(live, k, i).start..i];
    var log' := log + [Data(k, x)];
    assert log' + [] == log';
    JoinedLast(ev, Data(k, []));
    JoinedLast(log, Data(k, x));
    if live.From? && live.start < i {
      PushEmpty(Push(Joined(log), Data(k, x)), k);
    } else {
      assert x == [];
      assert log + [] == log;
    }
  }

  lemma FlushRun(log: seq<Event>, live: Live, data: bytes, i: nat, ev: seq<Event>)
    requires i <= |data| && Tells(log, live, data, i, ev)
    requires live.From? && live.start < i
    ensures Tells(log + [Data(live.piece, data[live.start..i])], NoRun, data, i, ev)
  {
    var log' := log + [Data(live.piece, data[live.start..i])];
    assert log' + [] == log';
  }

  lemma Notify(log: seq<Event>, data: bytes, i: nat, ev: seq<Event>, e: Event)
    requires Tells(log, NoRun, data, i, ev)
    ensures Tells(log + [e], NoRun, data, i, ev + [e])
  {
    assert log + [] == log;
    assert log + [e] + [] == log + [e];
    JoinedLast(log, e);
    JoinedLast(ev, e);
  }

  lemma AllTold(log: seq<Event>, data: bytes, i: nat, ev: seq<Event>)
    requires Tells(log, NoRun, data, i, ev)
    ensures Joined(log) == Joined(ev)
  {
    assert log + [] == log;
  }

  lemma Advance(log: seq<Event>, data: bytes, i: nat, j: nat, ev: seq<Event>)
    requires Tells(log, NoRun, data, i, ev) && i <= j <= |data|
    ensures Tells(log, NoRun, data, j, ev)
  {
  }

  /** One callback per byte. */
  function Singles(k: Piece, data: bytes, a: nat, b: nat): seq<Event>
    requires a <= b <= |data|
    decreases b - a
  {
    if a == b then [] else Singles(k, data, a, b - 1) + [Data(k, [data[b - 1]])]
  }

  lemma {:induction false} TakeBytes(log: seq<Event>, live: Live, data: bytes, i: nat, j: nat, ev: seq<Event>, k: Piece)
    requires i < j <= |data| && Tells(log, live, data, i, ev)
    requires live.From? ==> live.piece == k && live.start <= i
    ensures Tells(log, Mark(live, k, i), data, j, ev + Singles(k, data, i, j))
    decreases j - i
  {
    hide Tells;
    if j == i + 1 {
      TakeByte(log, live, data, i, ev, k);
      assert Singles(k, data, i, i) == [];
      assert Singles(k, data, i, j) == [Data(k, [data[i]])];
    } else {
      TakeBytes(log, live, data, i, j - 1, ev, k);
      TakeByte(log, Mark(live, k, i), data, j - 1, ev + Singles(k, data, i, j - 1), k);
      assert Mark(Mark(live, k, i), k, j - 1) == Mark(live, k, i);
      assert ev + Singles(k, data, i, j) == ev + Singles(k, data, i, j - 1) + [Data(k, [data[j - 1]])];
    }
  }
}
