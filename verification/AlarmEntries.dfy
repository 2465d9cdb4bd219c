/** The time-ordered multimap of src/tQuicAlarmFactory.cc as a sorted sequence of nodes, and the
    reference for a round of due alarms. */
module AlarmEntries {

  /** A node of the multimap; `node` is its identity, which iterators and tokens denote. */
  datatype Entry<A> = Entry(node: nat, time: int, who: A)

  predicate Sorted<A>(es: seq<Entry<A>>) {
    forall i, j | 0 <= i < j < |es| :: es[i].time <= es[j].time
  }

  /** Nodes are distinct and older than `next`. */
  predicate Nodes<A>(es: seq<Entry<A>>, next: nat) {
    && (forall i | 0 <= i < |es| :: es[i].node < next)
    && (forall i, j | 0 <= i < j < |es| :: es[i].node != es[j].node)
  }

  /** The position of a node, or the end. */
  function Find<A>(es: seq<Entry<A>>, node: nat): (i: nat)
    ensures i <= |es|
    ensures i < |es| ==> es[i].node == node
    ensures forall j | 0 <= j < i :: es[j].node != node
  {
    if es == [] then 0
    else if es[0].node == node then 0
    else 1 + Find(es[1..], node)
  }

  /** Where std::multimap inserts a key: after all keys that are not greater. */
  function Place<A>(es: seq<Entry<A>>, time: int): (i: nat)
    ensures i <= |es|
    ensures i < |es| ==> es[i].time > time
    ensures forall j | 0 <= j < i :: es[j].time <= time
  {
    if es == [] || es[0].time > time then 0 else 1 + Place(es[1..], time)
  }

  function Insert<A>(es: seq<Entry<A>>, e: Entry<A>): seq<Entry<A>> {
    es[..Place(es, e.time)] + [e] + es[Place(es, e.time)..]
  }

  function Remove<A>(es: seq<Entry<A>>, i: nat): seq<Entry<A>>
    requires i < |es|
  {
    es[..i] + es[i + 1..]
  }

  lemma InsertKeeps<A>(es: seq<Entry<A>>, e: Entry<A>)
    requires Sorted(es) && Nodes(es, e.node)
    ensures Sorted(Insert(es, e)) && Nodes(Insert(es, e), e.node + 1)
  {
    hide Place;
    var k, fs := Place(es, e.time), Insert(es, e);
    assert fs[k] == e;
    assert forall i | 0 <= i < k :: fs[i] == es[i];
    assert forall i | k < i < |fs| :: fs[i] == es[i - 1];
  }

  lemma InsertElems<A>(es: seq<Entry<A>>, e: Entry<A>)
    ensures forall x :: x in Insert(es, e) <==> x in es || x == e
  {
    var k := Place(es, e.time);
    assert es == es[..k] + es[k..];
  }

  lemma RemoveKeeps<A>(es: seq<Entry<A>>, i: nat, next: nat)
    requires Sorted(es) && Nodes(es, next) && i < |es|
    ensures Sorted(Remove(es, i)) && Nodes(Remove(es, i), next)
  {
  }

  lemma RemoveElems<A>(es: seq<Entry<A>>, i: nat, next: nat)
    requires Nodes(es, next) && i < |es|
    ensures forall x :: x in Remove(es, i) <==> x in es && x != es[i]
  {
    assert es == es[..i] + [es[i]] + es[i + 1..];
  }

  lemma RemoveElem<A>(es: seq<Entry<A>>, i: nat, next: nat, x: Entry<A>)
    requires Nodes(es, next) && i < |es| && x in Remove(es, i)
    ensures x in es && x != es[i]
  {
    hide Remove, Nodes;
    RemoveElems(es, i, next);
  }

  lemma FindUnique<A>(es: seq<Entry<A>>, next: nat, i: nat)
    requires Nodes(es, next) && i < |es|
    ensures Find(es, es[i].node) == i
  {
  }

  lemma FindEntry<A>(es: seq<Entry<A>>, next: nat, e: Entry<A>)
    requires Nodes(es, next) && e in es
    ensures Find(es, e.node) < |es| && es[Find(es, e.node)] == e
  {
    var i :| 0 <= i < |es| && es[i] == e;
    FindUnique(es, next, i);
  }

  // ---------------------------------------------------------------- due alarms

  /** An entry that a round at `now` is still to fire; `flight` is the node being fired, or -1. */
  predicate IsDue<A(==)>(e: Entry<A>, now: int, skip: set<A>, flight: int) {
    e.node != flight && e.time <= now && e.who !in skip
  }

  /** The alarms still to fire, in order. */
  function Pending<A(==)>(es: seq<Entry<A>>, now: int, skip: set<A>, flight: int): seq<A> {
    if es == [] then []
    else (if IsDue(es[0], now, skip, flight) then [es[0].who] else []) + Pending(es[1..], now, skip, flight)
  }

  /** Apart from the entry in flight, every alarm has one entry at most. */
  predicate OneEach<A(==)>(es: seq<Entry<A>>, flight: int) {
    forall i, j | 0 <= i < j < |es| && es[i].node != flight && es[j].node != flight :: es[i].who != es[j].who
  }

  function Without<A(==)>(s: seq<A>, a: A): (r: seq<A>)
    ensures |r| <= |s|
  {
    if s == [] then [] else (if s[0] == a then [] else [s[0]]) + Without(s[1..], a)
  }

  lemma {:induction false} PendingConcat<A>(a: seq<Entry<A>>, b: seq<Entry<A>>, now: int, skip: set<A>, flight: int)
    ensures Pending(a + b, now, skip, flight) == Pending(a, now, skip, flight) + Pending(b, now, skip, flight)
  {
    hide IsDue;
    if a == [] {
      assert a + b == b;
    } else {
      assert (a + b)[1..] == a[1..] + b;
      PendingConcat(a[1..], b, now, skip, flight);
      var head := if IsDue(a[0], now, skip, flight) then [a[0].who] else [];
      var x, y := Pending(a[1..], now, skip, flight), Pending(b, now, skip, flight);
      assert head + (x + y) == (head + x) + y;
    }
  }

  lemma PendingOne<A>(e: Entry<A>, now: int, skip: set<A>, flight: int)
    ensures Pending([e], now, skip, flight) == if IsDue(e, now, skip, flight) then [e.who] else []
  {
    assert Pending([e][1..], now, skip, flight) == [];
  }

  lemma PendingInsert<A>(es: seq<Entry<A>>, e: Entry<A>, now: int, skip: set<A>, flight: int)
    requires !IsDue(e, now, skip, flight)
    ensures Pending(Insert(es, e), now, skip, flight) == Pending(es, now, skip, flight)
  {
    var k := Place(es, e.time);
    PendingConcat(es[..k], [e], now, skip, flight);
    PendingConcat(es[..k] + [e], es[k..], now, skip, flight);
    PendingConcat(es[..k], es[k..], now, skip, flight);
    PendingOne(e, now, skip, flight);
    assert es == es[..k] + es[k..];
  }

  lemma {:induction false} WithoutConcat<A>(s: seq<A>, t: seq<A>, a: A)
    ensures Without(s + t, a) == Without(s, a) + Without(t, a)
  {
    if s == [] {
      assert s + t == t;
    } else {
      assert (s + t)[1..] == s[1..] + t;
      WithoutConcat(s[1..], t, a);
    }
  }

  lemma {:induction false} PendingWithout<A>(es: seq<Entry<A>>, now: int, skip: set<A>, flight: int, a: A)
    requires forall e | e in es && e.node != flight :: e.who != a
    ensures Without(Pending(es, now, skip, flight), a) == Pending(es, now, skip, flight)
  {
    if es != [] {
      PendingWithout(es[1..], now, skip, flight, a);
      var rest := Pending(es[1..], now, skip, flight);
      if IsDue(es[0], now, skip, flight) {
        assert ([es[0].who] + rest)[1..] == rest;
      } else {
        assert [] + rest == rest;
      }
    }
  }

  lemma WithoutSelf<A>(a: A)
    ensures Without([a], a) == [] && Without([], a) == []
  {
    assert Without([a][1..], a) == [];
  }

  lemma OneEachApart<A>(es: seq<Entry<A>>, i: nat, flight: int)
    requires i < |es| && OneEach(es, flight) && es[i].node != flight
    ensures forall e | e in es[..i] && e.node != flight :: e.who != es[i].who
    ensures forall e | e in es[i + 1..] && e.node != flight :: e.who != es[i].who
  {
    forall e | e in es[..i] && e.node != flight
      ensures e.who != es[i].who
    {
      var j :| 0 <= j < i && es[j] == e;
    }
    forall e | e in es[i + 1..] && e.node != flight
      ensures e.who != es[i].who
    {
      var j :| 0 <= j < |es[i + 1..]| && es[i + 1..][j] == e;
      assert es[i + 1 + j] == e;
    }
  }

  /** Taking out an alarm's entry takes the alarm out of those still to fire. */
  lemma PendingRemove<A>(es: seq<Entry<A>>, i: nat, now: int, skip: set<A>, flight: int)
    requires i < |es| && OneEach(es, flight) && es[i].node != flight
    ensures Pending(Remove(es, i), now, skip, flight) == Without(Pending(es, now, skip, flight), es[i].who)
  {
    hide Pending, Without, OneEach, IsDue;
    var x := es[i];
    var a, b := es[..i], es[i + 1..];
    assert es == a + ([x] + b);
    OneEachApart(es, i, flight);
    PendingConcat(a, b, now, skip, flight);
    PendingConcat(a, [x] + b, now, skip, flight);
    PendingConcat([x], b, now, skip, flight);
    PendingOne(x, now, skip, flight);
    var pa, px, pb := Pending(a, now, skip, flight), Pending([x], now, skip, flight), Pending(b, now, skip, flight);
    WithoutConcat(pa, px + pb, x.who);
    WithoutConcat(px, pb, x.who);
    PendingWithout(a, now, skip, flight, x.who);
    PendingWithout(b, now, skip, flight, x.who);
    WithoutSelf(x.who);
    assert pa + ([] + pb) == pa + pb;
  }

  lemma {:induction false} PendingGone<A>(es: seq<Entry<A>>, now: int, skip: set<A>, flight: int, a: A)
    requires forall e | e in es && e.node != flight && e.time <= now :: e.who != a
    ensures Without(Pending(es, now, skip, flight), a) == Pending(es, now, skip, flight)
    ensures Pending(es, now, skip + {a}, flight) == Pending(es, now, skip, flight)
  {
    if es != [] {
      PendingGone(es[1..], now, skip, flight, a);
      var rest := Pending(es[1..], now, skip, flight);
      if IsDue(es[0], now, skip, flight) {
        assert ([es[0].who] + rest)[1..] == rest;
      } else {
        assert [] + rest == rest;
      }
    }
  }

  /** The entry in flight is not counted, so taking it out changes nothing. */
  lemma PendingLand<A>(es: seq<Entry<A>>, i: nat, now: int, skip: set<A>, flight: int)
    requires i < |es| && es[i].node == flight
    ensures Pending(Remove(es, i), now, skip, flight) == Pending(es, now, skip, flight)
  {
    var a, b := es[..i], es[i + 1..];
    assert es == a + ([es[i]] + b);
    PendingConcat(a, b, now, skip, flight);
    PendingConcat(a, [es[i]] + b, now, skip, flight);
    PendingConcat([es[i]], b, now, skip, flight);
    PendingOne(es[i], now, skip, flight);
  }

  lemma {:induction false} PendingNone<A>(es: seq<Entry<A>>, now: int, skip: set<A>, flight: int)
    requires forall e | e in es :: !IsDue(e, now, skip, flight)
    ensures Pending(es, now, skip, flight) == []
  {
    if es != [] {
      PendingNone(es[1..], now, skip, flight);
    }
  }

  lemma {:induction false} PendingOther<A>(es: seq<Entry<A>>, now: int, skip: set<A>, f: int, g: int)
    requires forall e | e in es :: IsDue(e, now, skip, f) == IsDue(e, now, skip, g)
    ensures Pending(es, now, skip, f) == Pending(es, now, skip, g)
  {
    if es != [] {
      PendingOther(es[1..], now, skip, f, g);
    }
  }

  /** Sending the first due entry into flight takes the first alarm off. */
  lemma PendingTakeOff<A>(es: seq<Entry<A>>, i: nat, now: int, skip: set<A>, next: nat)
    requires i < |es| && Nodes(es, next) && IsDue(es[i], now, skip, -1)
    requires forall j | 0 <= j < i :: !IsDue(es[j], now, skip, -1)
    ensures Pending(es, now, skip, -1) == [es[i].who] + Pending(es, now, skip, es[i].node)
  {
    hide Pending;
    var f := es[i].node;
    var a, b := es[..i], es[i + 1..];
    assert es == a + ([es[i]] + b);
    PendingConcat(a, [es[i]] + b, now, skip, -1);
    PendingConcat([es[i]], b, now, skip, -1);
    PendingConcat(a, [es[i]] + b, now, skip, f);
    PendingConcat([es[i]], b, now, skip, f);
    PendingOne(es[i], now, skip, -1);
    PendingOne(es[i], now, skip, f);
    PendingNone(a, now, skip, -1);
    PendingNone(a, now, skip, f);
    PendingOther(b, now, skip, -1, f);
  }

  // ---------------------------------------------------------------- the iterator

  /** Every due entry lies at or after position i. */
  predicate Passed<A(==)>(es: seq<Entry<A>>, i: nat, now: int, skip: set<A>) {
    i <= |es| && forall j | 0 <= j < i :: !IsDue(es[j], now, skip, -1)
  }

  /** An insertion later than `now` lands behind an entry that is not, so the entry keeps its
      place. */
  lemma InsertBehind<A>(es: seq<Entry<A>>, e: Entry<A>, i: nat, now: int, skip: set<A>)
    requires i < |es| && Nodes(es, e.node) && es[i].time <= now < e.time && Sorted(es) && Passed(es, i, now, skip)
    ensures var fs := Insert(es, e);
            && i < |fs| && fs[i] == es[i] && Find(fs, es[i].node) == i
            && Passed(fs, i, now, skip)
  {
    var fs := Insert(es, e);
    assert Place(es, e.time) > i;
    assert forall j | 0 <= j <= i :: fs[j] == es[j];
    InsertKeeps(es, e);
    FindUnique(fs, e.node + 1, i);
  }

  /** Another entry is taken out. */
  lemma RemoveAround<A>(es: seq<Entry<A>>, k: nat, i: nat, next: nat, now: int, skip: set<A>)
    requires i < |es| && k < |es| && k != i && Nodes(es, next) && Sorted(es) && Passed(es, i, now, skip)
    ensures var fs := Remove(es, k);
            var i' := if k < i then i - 1 else i;
            && i' < |fs| && fs[i'] == es[i] && Find(fs, es[i].node) == i'
            && Passed(fs, i', now, skip)
  {
    var fs := Remove(es, k);
    var i' := if k < i then i - 1 else i;
    assert forall j | 0 <= j < |fs| :: fs[j] == if j < k then es[j] else es[j + 1];
    RemoveKeeps(es, k, next);
    FindUnique(fs, next, i');
  }

  // ---------------------------------------------------------------- the reference round

  /** What a callback does: operations on alarms, then its return value. */
  datatype Op<A> = Set(who: A, time: int) | Cancel(who: A) | Update(who: A, time: int)

  datatype Callback<A> = Callback(ops: seq<Op<A>>, ret: int)

  // ---------------------------------------------------------------- deadlines

  /** The map read as a partial function: the deadline of each alarm that is armed, the entry in
      flight apart. */
  function Deadlines<A(==)>(es: seq<Entry<A>>, flight: int): map<A, int> {
    if es == [] then map[]
    else
      var d := Deadlines(es[1..], flight);
      if es[0].node == flight then d else d[es[0].who := es[0].time]
  }

  /** An entry, not the one in flight, gives the alarm that deadline. */
  ghost predicate Gives<A>(es: seq<Entry<A>>, flight: int, a: A, time: int) {
    exists e :: e in es && e.node != flight && e.who == a && e.time == time
  }

  lemma {:induction false} DeadlinesAre<A>(es: seq<Entry<A>>, flight: int, a: A, time: int)
    requires OneEach(es, flight)
    ensures var d := Deadlines(es, flight); a in d && d[a] == time <==> Gives(es, flight, a, time)
  {
    if es != [] {
      var x, rest := es[0], es[1..];
      DeadlinesAre(rest, flight, a, time);
      assert es == [x] + rest;
      if Gives(rest, flight, a, time) {
        var e :| e in rest && e.node != flight && e.who == a && e.time == time;
        var i :| 0 <= i < |rest| && rest[i] == e;
        assert es[i + 1] == e && e in es;
      }
      if x.node != flight && x.who == a {
        forall e | e in es && e.node != flight && e.who == a
          ensures e == x
        {
          var i :| 0 <= i < |es| && es[i] == e;
        }
        assert Gives(es, flight, a, x.time);
      }
    }
  }

  /** Two maps with the same deadlines for every alarm. */
  lemma SameDeadlines<A>(es: seq<Entry<A>>, flight: int, d: map<A, int>)
    requires OneEach(es, flight)
    requires forall a | a in d :: Gives(es, flight, a, d[a])
    requires forall e | e in es && e.node != flight :: e.who in d && d[e.who] == e.time
    ensures Deadlines(es, flight) == d
  {
    hide Deadlines, OneEach;
    var x := Deadlines(es, flight);
    forall a | a in d
      ensures a in x && x[a] == d[a]
    {
      DeadlinesAre(es, flight, a, d[a]);
    }
    forall a | a in x
      ensures a in d
    {
      DeadlinesAre(es, flight, a, x[a]);
    }
  }

  lemma InsertDeadlines<A>(es: seq<Entry<A>>, e: Entry<A>, flight: int)
    requires OneEach(es, flight) && OneEach(Insert(es, e), flight) && e.node != flight
    requires forall x | x in es && x.node != flight :: x.who != e.who
    ensures Deadlines(Insert(es, e), flight) == Deadlines(es, flight)[e.who := e.time]
  {
    hide Deadlines, Insert, OneEach;
    var d, fs := Deadlines(es, flight), Insert(es, e);
    InsertElems(es, e);
    forall a | a in d && a != e.who
      ensures Gives(fs, flight, a, d[a])
    {
      DeadlinesAre(es, flight, a, d[a]);
      var x :| x in es && x.node != flight && x.who == a && x.time == d[a];
      assert x in fs;
    }
    assert e in fs && Gives(fs, flight, e.who, e.time);
    forall x | x in es && x.node != flight
      ensures x.who in d && d[x.who] == x.time
    {
      assert Gives(es, flight, x.who, x.time);
      DeadlinesAre(es, flight, x.who, x.time);
    }
    SameDeadlines(fs, flight, d[e.who := e.time]);
  }

  /** Taking away the one entry of an alarm takes away its deadline. */
  lemma FewerDeadlines<A>(es: seq<Entry<A>>, f: int, fs: seq<Entry<A>>, g: int, a: A)
    requires OneEach(es, f) && OneEach(fs, g)
    requires forall e :: e in fs && e.node != g <==> e in es && e.node != f && e.who != a
    ensures Deadlines(fs, g) == Deadlines(es, f) - {a}
  {
    hide Deadlines, OneEach;
    var d := Deadlines(es, f);
    forall b | b in d && b != a
      ensures Gives(fs, g, b, d[b])
    {
      DeadlinesAre(es, f, b, d[b]);
      var x :| x in es && x.node != f && x.who == b && x.time == d[b];
      assert x in fs && x.node != g;
    }
    forall x | x in fs && x.node != g
      ensures x.who in d && d[x.who] == x.time && x.who != a
    {
      assert x in es && x.node != f && x.who != a;
      assert Gives(es, f, x.who, x.time);
      DeadlinesAre(es, f, x.who, x.time);
    }
    SameDeadlines(fs, g, d - {a});
  }

  lemma OnlyOne<A>(es: seq<Entry<A>>, flight: int, e: Entry<A>, f: Entry<A>)
    requires OneEach(es, flight) && e in es && f in es && e.node != flight && f.node != flight && e.who == f.who
    ensures e == f
  {
    var i :| 0 <= i < |es| && es[i] == e;
    var j :| 0 <= j < |es| && es[j] == f;
  }

  lemma RemoveDeadlines<A>(es: seq<Entry<A>>, i: nat, next: nat, flight: int)
    requires Nodes(es, next) && i < |es| && es[i].node != flight
    requires OneEach(es, flight) && OneEach(Remove(es, i), flight)
    ensures Deadlines(Remove(es, i), flight) == Deadlines(es, flight) - {es[i].who}
  {
    hide Deadlines, Remove, Nodes, OneEach;
    var fs := Remove(es, i);
    RemoveElems(es, i, next);
    forall e
      ensures e in fs && e.node != flight <==> e in es && e.node != flight && e.who != es[i].who
    {
      if e in es && e.node != flight && e.who == es[i].who {
        OnlyOne(es, flight, e, es[i]);
      }
    }
    FewerDeadlines(es, flight, fs, flight, es[i].who);
  }

  /** An entry goes into flight: its alarm counts as not armed. */
  lemma FlightDeadlines<A>(es: seq<Entry<A>>, next: nat, e0: Entry<A>)
    requires Nodes(es, next) && e0 in es && OneEach(es, -1) && OneEach(es, e0.node)
    ensures Deadlines(es, e0.node) == Deadlines(es, -1) - {e0.who}
  {
    hide Deadlines, Nodes, OneEach;
    forall e
      ensures e in es && e.node != e0.node <==> e in es && e.node != -1 && e.who != e0.who
    {
      if e in es && e.who == e0.who {
        OnlyOne(es, -1, e, e0);
      }
      if e in es && e.node == e0.node {
        NodeOnce(es, next, e, e0);
      }
    }
    FewerDeadlines(es, -1, es, e0.node, e0.who);
  }

  lemma NodeOnce<A>(es: seq<Entry<A>>, next: nat, e: Entry<A>, f: Entry<A>)
    requires Nodes(es, next) && e in es && f in es && e.node == f.node
    ensures e == f
  {
    FindEntry(es, next, e);
    FindEntry(es, next, f);
  }

  /** The entry in flight is erased: nothing changes. */
  lemma LandDeadlines<A>(es: seq<Entry<A>>, next: nat, i: nat)
    requires Nodes(es, next) && i < |es| && OneEach(es, es[i].node) && OneEach(Remove(es, i), -1)
    ensures Deadlines(Remove(es, i), -1) == Deadlines(es, es[i].node)
  {
    hide Deadlines, Remove, OneEach, Nodes;
    var d, f, fs := Deadlines(es, es[i].node), es[i].node, Remove(es, i);
    RemoveElems(es, i, next);
    forall a | a in d
      ensures Gives(fs, -1, a, d[a])
    {
      DeadlinesAre(es, f, a, d[a]);
      var x :| x in es && x.node != f && x.who == a && x.time == d[a];
      assert x in fs;
    }
    forall x | x in fs
      ensures x.who in d && d[x.who] == x.time
    {
      RemoveElem(es, i, next, x);
      if x.node == f {
        NodeOnce(es, next, x, es[i]);
      }
      assert Gives(es, f, x.who, x.time);
      DeadlinesAre(es, f, x.who, x.time);
    }
    SameDeadlines(fs, -1, d);
  }

  /** What an operation does to the deadlines: Set arms an alarm that is not armed, Update arms it
      or moves it, Cancel disarms it. */
  function Rearmed<A(==)>(d: map<A, int>, op: Op<A>): map<A, int> {
    match op
    case Set(a, time) => if a in d then d else d[a := time]
    case Cancel(a) => d - {a}
    case Update(a, time) => d[a := time]
  }

  function RearmedAll<A(==)>(d: map<A, int>, ops: seq<Op<A>>): map<A, int> {
    if ops == [] then d else Rearmed(RearmedAll(d, ops[..|ops| - 1]), ops[|ops| - 1])
  }

  lemma {:induction false} RearmedConcat<A>(d: map<A, int>, a: seq<Op<A>>, b: seq<Op<A>>)
    ensures RearmedAll(d, a + b) == RearmedAll(RearmedAll(d, a), b)
  {
    hide Rearmed;
    if b == [] {
      assert a + b == a;
    } else {
      assert (a + b)[..|a + b| - 1] == a + b[..|b| - 1];
      RearmedConcat(d, a, b[..|b| - 1]);
    }
  }

  /** What one alarm of a round amounts to: it is disarmed, its callback does what it does, and a
      positive return value arms it unless the callback has. */
  function Firing<A>(who: A, callback: Callback<A>): seq<Op<A>> {
    [Cancel(who)] + callback.ops + if callback.ret > 0 then [Set(who, callback.ret)] else []
  }

  /** What the first n alarms of a round amount to. */
  function History<A>(fired: seq<A>, callbacks: nat -> Callback<A>, n: nat): seq<Op<A>>
    requires n <= |fired|
  {
    if n == 0 then [] else History(fired, callbacks, n - 1) + Firing(fired[n - 1], callbacks(n - 1))
  }

  lemma FiringRearms<A>(d: map<A, int>, who: A, callback: Callback<A>)
    ensures var e := RearmedAll(d - {who}, callback.ops);
            RearmedAll(d, Firing(who, callback)) == if callback.ret > 0 then Rearmed(e, Set(who, callback.ret)) else e
  {
    hide Rearmed;
    var first := [Cancel(who)];
    assert first[..0] == [];
    assert RearmedAll(d, first) == Rearmed(d, Cancel(who)) == d - {who} by { OneCancel(d, who); }
    RearmedConcat(d, first, callback.ops);
    if callback.ret > 0 {
      var last := [Set(who, callback.ret)];
      RearmedConcat(d, first + callback.ops, last);
      assert last[..0] == [];
      assert RearmedAll(RearmedAll(d, first + callback.ops), last[..0]) == RearmedAll(d, first + callback.ops);
    } else {
      assert Firing(who, callback) == first + callback.ops;
    }
  }

  lemma OneCancel<A>(d: map<A, int>, who: A)
    ensures RearmedAll(d, [Cancel(who)]) == Rearmed(d, Cancel(who)) == d - {who}
  {
    assert [Cancel(who)][..0] == [];
    assert RearmedAll(d, [Cancel(who)][..0]) == d;
  }

  lemma {:induction false} HistoryLonger<A>(fired: seq<A>, a: A, callbacks: nat -> Callback<A>, n: nat)
    requires n <= |fired|
    ensures History(fired + [a], callbacks, n) == History(fired, callbacks, n)
  {
    if n > 0 {
      HistoryLonger(fired, a, callbacks, n - 1);
    }
  }

  // ---------------------------------------------------------------- rounds

  /** Cancelling or updating an alarm takes it off the list of those still to fire. */
  function Struck<A(==)>(due: seq<A>, ops: seq<Op<A>>): (r: seq<A>)
    ensures |r| <= |due|
    decreases |ops|
  {
    if ops == [] then due
    else
      var d := Struck(due, ops[..|ops| - 1]);
      var op := ops[|ops| - 1];
      if op.Set? then d else Without(d, op.who)
  }

  /** A round on a plain list of due alarms: fire the first, strike those that its callback
      cancels or updates, go on with the rest. `k` numbers the callbacks of the round. */
  function Round<A(==)>(due: seq<A>, callbacks: nat -> Callback<A>, k: nat): seq<A>
    decreases |due|
  {
    if due == [] then [] else [due[0]] + Round(Struck(due[1..], callbacks(k).ops), callbacks, k + 1)
  }

  predicate ArmsLater<A>(c: Callback<A>, now: int) {
    forall i | 0 <= i < |c.ops| && !c.ops[i].Cancel? :: c.ops[i].time > now
  }

  /** The round so far: entry e0 is in flight and everything due lies behind it. */
  predicate Flying<A(==)>(es: seq<Entry<A>>, e0: Entry<A>, now: int, skip: set<A>) {
    e0 in es && e0.time <= now && Passed(es, Find(es, e0.node), now, skip)
  }

  lemma FlyingInsert<A>(es: seq<Entry<A>>, e: Entry<A>, e0: Entry<A>, now: int, skip: set<A>)
    requires Sorted(es) && Nodes(es, e.node) && Flying(es, e0, now, skip) && e.time > now
    ensures Flying(Insert(es, e), e0, now, skip)
    ensures Pending(Insert(es, e), now, skip, e0.node) == Pending(es, now, skip, e0.node)
  {
    hide Insert;
    FindEntry(es, e.node, e0);
    InsertBehind(es, e, Find(es, e0.node), now, skip);
    InsertElems(es, e);
    PendingInsert(es, e, now, skip, e0.node);
  }

  lemma FlyingRemove<A>(es: seq<Entry<A>>, k: nat, e0: Entry<A>, next: nat, now: int, skip: set<A>)
    requires Sorted(es) && Nodes(es, next) && Flying(es, e0, now, skip) && k < |es| && es[k].node != e0.node
    requires OneEach(es, e0.node)
    ensures Flying(Remove(es, k), e0, now, skip)
    ensures Pending(Remove(es, k), now, skip, e0.node) == Without(Pending(es, now, skip, e0.node), es[k].who)
  {
    hide Remove;
    FindEntry(es, next, e0);
    RemoveAround(es, k, Find(es, e0.node), next, now, skip);
    RemoveElems(es, k, next);
    PendingRemove(es, k, now, skip, e0.node);
  }

  // ---------------------------------------------------------------- between two firings

  /** The position an iterator denotes; -1 is the end. */
  function Pos<A>(es: seq<Entry<A>>, it: int): (i: nat)
    ensures i <= |es|
  {
    if it < 0 then |es| else Find(es, it)
  }

  /** The node at a position, or -1 at the end. */
  function NodeAt<A>(es: seq<Entry<A>>, i: nat): (n: int)
    requires i <= |es|
    ensures n >= -1
  {
    if i == |es| then -1 else es[i].node
  }

  lemma PosNodeAt<A>(es: seq<Entry<A>>, next: nat, i: nat)
    requires Nodes(es, next) && i <= |es|
    ensures Pos(es, NodeAt(es, i)) == i
  {
    if i < |es| {
      FindUnique(es, next, i);
    }
  }

  /** Erasing the entry in flight: the iterator has moved on to the next one. */
  lemma Lands<A>(es: seq<Entry<A>>, e0: Entry<A>, next: nat, now: int, skip: set<A>)
    requires Sorted(es) && Nodes(es, next) && Flying(es, e0, now, skip)
    ensures var i := Find(es, e0.node);
            && i < |es| && es[i] == e0
            && var fs := Remove(es, i);
            && i <= |fs| && Pos(fs, NodeAt(es, i + 1)) == i
            && Passed(fs, i, now, skip)
            && Pending(fs, now, skip, -1) == Pending(es, now, skip, e0.node)
  {
    hide Pending;
    FindEntry(es, next, e0);
    var i := Find(es, e0.node);
    var fs := Remove(es, i);
    RemoveKeeps(es, i, next);
    RemoveElems(es, i, next);
    assert forall j | 0 <= j < i :: fs[j] == es[j];
    if i + 1 < |es| {
      assert fs[i] == es[i + 1];
    }
    PosNodeAt(fs, next, i);
    PendingLand(es, i, now, skip, e0.node);
    forall e | e in fs
      ensures e.node != e0.node
    {
      FindEntry(es, next, e);
    }
    PendingOther(fs, now, skip, e0.node, -1);
  }

  /** A return value arms an entry that is not due in this round; the iterator stays put. */
  lemma Rearms<A>(es: seq<Entry<A>>, e: Entry<A>, it: int, now: int, skip: set<A>)
    requires Sorted(es) && Nodes(es, e.node) && !IsDue(e, now, skip, -1)
    requires it < e.node && (it >= 0 ==> Find(es, it) < |es|) && Passed(es, Pos(es, it), now, skip)
    ensures var fs := Insert(es, e);
            && Passed(fs, Pos(fs, it), now, skip)
            && (it >= 0 ==> Find(fs, it) < |fs|)
            && Pending(fs, now, skip, -1) == Pending(es, now, skip, -1)
  {
    hide Pending;
    var fs := Insert(es, e);
    var k := Place(es, e.time);
    InsertKeeps(es, e);
    PendingInsert(es, e, now, skip, -1);
    assert forall j | 0 <= j < |fs| :: fs[j] == if j < k then es[j] else if j == k then e else es[j - 1];
    if it >= 0 {
      var i := Find(es, it);
      FindUnique(fs, e.node + 1, if i < k then i else i + 1);
    }
  }

  /** Nothing due is left when the iterator is at the end or past `now`. */
  lemma RoundOver<A>(es: seq<Entry<A>>, i: nat, now: int, skip: set<A>)
    requires Sorted(es) && Passed(es, i, now, skip) && (i < |es| ==> es[i].time > now)
    ensures Pending(es, now, skip, -1) == []
    ensures forall e | e in es && e.time <= now :: e.who in skip
  {
    forall e | e in es
      ensures !IsDue(e, now, skip, -1) && (e.time <= now ==> e.who in skip)
    {
      var j :| 0 <= j < |es| && es[j] == e;
      assert j < i || e.time > now;
    }
    PendingNone(es, now, skip, -1);
  }
}
