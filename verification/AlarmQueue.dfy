/** src/tQuicAlarmFactory.cc: the alarm queue, its alarms with their back-pointing tokens, and
    the round that fires due alarms while their callbacks re-enter the queue. */
module AlarmQueue {
  import opened AlarmEntries

  /** tQuicAlarmEvent: `token` denotes the alarm's node while it is registered. */
  class AlarmEvent {
    var registered: bool
    var token: nat

    constructor ()
      ensures !registered
    {
      registered, token := false, 0;
    }
  }

  class AlarmEventQueue {
    var alarmMap: seq<Entry<AlarmEvent>>
    var allAlarms: set<AlarmEvent>
    var skipped: set<AlarmEvent>
    var nextNode: nat
    /** The alarms created for this queue. */
    ghost var known: set<AlarmEvent>

    /** The agreement of the four places that record a registration. `flight` is the node of the
        alarm being fired, or -1: its entry is still in the map but no longer counts. */
    ghost predicate Agree(flight: int)
      reads this, known
    {
      && Sorted(alarmMap) && Nodes(alarmMap, nextNode)
      && allAlarms <= known && skipped <= known
      && (forall e | e in alarmMap :: e.who in known)
      && (forall e | e in alarmMap && e.node != flight :: e.who in allAlarms && e.who.token == e.node)
      && (forall a | a in known :: a.registered <==> a in allAlarms)
      && (forall a | a in allAlarms ::
            a.token != flight && exists e :: e in alarmMap && e.node == a.token && e.who == a)
    }

    ghost predicate Valid()
      reads this, known
    {
      Agree(-1) && skipped == {}
    }

    constructor ()
      ensures Valid() && alarmMap == [] && known == {}
    {
      alarmMap, allAlarms, skipped, nextNode, known := [], {}, {}, 0, {};
    }

    /** The insertion of RegisterAlarm, with OnRegistration. */
    method Enter(time: int, ac: AlarmEvent, ghost flight: int)
      requires Agree(flight) && ac in known && ac !in allAlarms && flight < nextNode
      modifies this, ac
      ensures Agree(flight)
      ensures known == old(known) && skipped == old(skipped)
      ensures alarmMap == Insert(old(alarmMap), Entry(old(nextNode), time, ac))
      ensures allAlarms == old(allAlarms) + {ac} && nextNode == old(nextNode) + 1
    {
      hide Insert, Sorted, Nodes;
      var e := Entry(nextNode, time, ac);
      ghost var es := alarmMap;
      InsertKeeps(alarmMap, e);
      InsertElems(alarmMap, e);
      assert forall x | x in es && x.node != flight :: x.who != ac;
      assert !ac.registered;
      alarmMap := Insert(alarmMap, e);
      allAlarms := allAlarms + {ac};
      ac.registered, ac.token := true, nextNode;
      nextNode := nextNode + 1;
      assert e in alarmMap;
    }

    method RegisterAlarm(time: int, ac: AlarmEvent, ghost flight: int)
      requires Agree(flight) && ac in known && flight < nextNode
      modifies this, ac
      ensures Agree(flight) && known == old(known) && skipped == old(skipped) && flight < nextNode
      ensures ac in old(allAlarms) ==>
                alarmMap == old(alarmMap) && allAlarms == old(allAlarms) && nextNode == old(nextNode)
      ensures ac !in old(allAlarms) ==>
                && alarmMap == Insert(old(alarmMap), Entry(old(nextNode), time, ac))
                && allAlarms == old(allAlarms) + {ac} && nextNode == old(nextNode) + 1
      ensures Deadlines(alarmMap, flight) == Rearmed(old(Deadlines(alarmMap, flight)), Set(ac, time))
    {
      hide Insert, Sorted, Nodes, Deadlines, OneEach;
      ghost var es := alarmMap;
      AgreeOneEach(flight);
      Armed(flight);
      if ac !in allAlarms {
        Enter(time, ac, flight);
        AgreeOneEach(flight);
        InsertDeadlines(es, Entry(old(nextNode), time, ac), flight);
      }
    }

    /** The alarms that have a deadline are those that count as registered. */
    lemma Armed(flight: int)
      requires Agree(flight)
      ensures Deadlines(alarmMap, flight).Keys == allAlarms
    {
      hide Deadlines, Sorted, Nodes, OneEach;
      AgreeOneEach(flight);
      var d := Deadlines(alarmMap, flight);
      forall a | a in d
        ensures a in allAlarms
      {
        DeadlinesAre(alarmMap, flight, a, d[a]);
      }
      forall a | a in allAlarms
        ensures a in d
      {
        var e :| e in alarmMap && e.node == a.token && e.who == a;
        assert Gives(alarmMap, flight, a, e.time);
        DeadlinesAre(alarmMap, flight, a, e.time);
      }
    }

    method UnregisterAlarm(token: nat, ghost flight: int)
      requires Agree(flight) && token != flight
      requires Find(alarmMap, token) < |alarmMap|
      modifies this, known
      ensures Agree(flight) && known == old(known) && skipped == old(skipped) && nextNode == old(nextNode)
      ensures alarmMap == Remove(old(alarmMap), old(Find(alarmMap, token)))
      ensures allAlarms == old(allAlarms) - {old(alarmMap[Find(alarmMap, token)].who)}
    {
      hide Sorted, Nodes, Remove;
      var i := Find(alarmMap, token);
      var cb := alarmMap[i].who;
      RemoveKeeps(alarmMap, i, nextNode);
      RemoveElems(alarmMap, i, nextNode);
      assert alarmMap[i] in alarmMap;
      forall e | e in alarmMap && e.node != flight && e.who == cb
        ensures e == alarmMap[i]
      {
        NodeOnce(alarmMap, nextNode, e, alarmMap[i]);
      }
      alarmMap := Remove(alarmMap, i);
      allAlarms := allAlarms - {cb};
      cb.registered := false;
    }

    /** tQuicAlarmEvent::UnregisterIfRegistered, which is also tQuicAlarm::CancelImpl. */
    method Cancel(a: AlarmEvent, ghost flight: int)
      requires Agree(flight) && a in known
      modifies this, known
      ensures Agree(flight) && known == old(known) && skipped == old(skipped) && nextNode == old(nextNode)
      ensures a !in old(allAlarms) ==> alarmMap == old(alarmMap) && allAlarms == old(allAlarms)
      ensures a in old(allAlarms) ==>
                && old(Find(alarmMap, a.token)) < |old(alarmMap)|
                && old(alarmMap)[old(Find(alarmMap, a.token))].who == a
                && old(alarmMap)[old(Find(alarmMap, a.token))].node != flight
                && alarmMap == Remove(old(alarmMap), old(Find(alarmMap, a.token)))
                && allAlarms == old(allAlarms) - {a}
      ensures Deadlines(alarmMap, flight) == Rearmed(old(Deadlines(alarmMap, flight)), AlarmEntries.Cancel(a))
    {
      hide Deadlines, OneEach, Remove, Sorted, Nodes, Find;
      Armed(flight);
      if !a.registered {
        return;
      }
      TokenFinds(a, flight);
      AgreeOneEach(flight);
      AgreeNodes(flight);
      ghost var es, i := alarmMap, Find(alarmMap, a.token);
      UnregisterAlarm(a.token, flight);
      AgreeOneEach(flight);
      RemoveDeadlines(es, i, nextNode, flight);
    }

    /** A registered alarm's token denotes its own entry. */
    lemma TokenFinds(a: AlarmEvent, flight: int)
      requires Agree(flight) && a in allAlarms
      ensures Find(alarmMap, a.token) < |alarmMap| && alarmMap[Find(alarmMap, a.token)].who == a && a.token != flight
    {
      var e :| e in alarmMap && e.node == a.token && e.who == a;
      var i :| 0 <= i < |alarmMap| && alarmMap[i] == e;
      FindUnique(alarmMap, nextNode, i);
    }

    lemma AgreeOneEach(flight: int)
      requires Agree(flight)
      ensures OneEach(alarmMap, flight)
    {
    }

    /** tQuicAlarmEvent::ReregisterAlarm: the entry is erased and emplaced again under a new
        node, which becomes the token. */
    method ReregisterAlarm(a: AlarmEvent, time: int, ghost flight: int)
      requires Agree(flight) && a in allAlarms && flight < nextNode
      modifies this, a
      ensures Agree(flight) && known == old(known) && skipped == old(skipped) && flight < nextNode
      ensures allAlarms == old(allAlarms) && nextNode == old(nextNode) + 1
      ensures old(Find(alarmMap, a.token)) < |old(alarmMap)|
              && old(alarmMap)[old(Find(alarmMap, a.token))].who == a
              && old(alarmMap)[old(Find(alarmMap, a.token))].node != flight
              && alarmMap == Insert(Remove(old(alarmMap), old(Find(alarmMap, a.token))), Entry(old(nextNode), time, a))
    {
      hide Insert, Remove, Sorted, Nodes, Find;
      TokenFinds(a, flight);
      var i := Find(alarmMap, a.token);
      AgreeOneEach(flight);
      RemoveKeeps(alarmMap, i, nextNode);
      RemoveElems(alarmMap, i, nextNode);
      var rest := Remove(alarmMap, i);
      var e := Entry(nextNode, time, a);
      InsertKeeps(rest, e);
      InsertElems(rest, e);
      OnlyEntry(a, flight);
      alarmMap := Insert(rest, e);
      a.token := nextNode;
      nextNode := nextNode + 1;
      assert e in alarmMap;
    }

    /** Nothing else in the map belongs to a registered alarm, apart from an entry in flight. */
    lemma OnlyEntry(a: AlarmEvent, flight: int)
      requires Agree(flight) && a in allAlarms
      ensures Find(alarmMap, a.token) < |alarmMap|
      ensures forall e | e in alarmMap && e.who == a && e.node != flight :: e == alarmMap[Find(alarmMap, a.token)]
    {
      TokenFinds(a, flight);
      forall e | e in alarmMap && e.who == a && e.node != flight
        ensures e == alarmMap[Find(alarmMap, a.token)]
      {
        FindEntry(alarmMap, nextNode, e);
      }
    }

    /** tQuicAlarm::UpdateImpl. */
    method Update(a: AlarmEvent, time: int, ghost flight: int)
      requires Agree(flight) && a in known && flight < nextNode
      modifies this, a
      ensures Agree(flight) && known == old(known) && skipped == old(skipped) && flight < nextNode
      ensures nextNode == old(nextNode) + 1 && a in allAlarms
      ensures a in old(allAlarms) ==>
                && old(Find(alarmMap, a.token)) < |old(alarmMap)|
                && old(alarmMap)[old(Find(alarmMap, a.token))].who == a
                && old(alarmMap)[old(Find(alarmMap, a.token))].node != flight
                && alarmMap == Insert(Remove(old(alarmMap), old(Find(alarmMap, a.token))),
                                      Entry(old(nextNode), time, a))
      ensures a !in old(allAlarms) ==> alarmMap == Insert(old(alarmMap), Entry(old(nextNode), time, a))
      ensures Deadlines(alarmMap, flight) == Rearmed(old(Deadlines(alarmMap, flight)), AlarmEntries.Update(a, time))
    {
      hide Insert, Remove, Sorted, Nodes, Find, Deadlines, OneEach;
      ghost var es, n := alarmMap, nextNode;
      Armed(flight);
      AgreeOneEach(flight);
      AgreeNodes(flight);
      if a.registered {
        OnlyEntry(a, flight);
        ReregisterAlarm(a, time, flight);
        AgreeOneEach(flight);
        MoveDeadlines(es, old(Find(es, a.token)), Entry(n, time, a), flight);
      } else {
        RegisterAlarm(time, a, flight);
      }
    }

    /** One operation of a callback, while entry e0 is in flight. Whatever it does, the
        agreement holds and e0 stays in the map; if it arms nothing at or before `now`, it
        strikes at most its own alarm from those still to fire. */
    method Apply(op: Op<AlarmEvent>, ghost e0: Entry<AlarmEvent>, ghost now: int)
      requires Agree(e0.node) && op.who in known && e0 in alarmMap
      modifies this, known
      ensures Agree(e0.node) && known == old(known) && skipped == old(skipped) && e0 in alarmMap
      ensures old(Flying(alarmMap, e0, now, skipped)) && (op.Cancel? || op.time > now) ==>
                && Flying(alarmMap, e0, now, skipped)
                && Pending(alarmMap, now, skipped, e0.node)
                   == (var due := old(Pending(alarmMap, now, skipped, e0.node));
                       if op.Set? then due else Without(due, op.who))
      ensures op.Cancel? || op.time > now ==> forall e | e in alarmMap :: e in old(alarmMap) || e.time > now
      ensures Deadlines(alarmMap, e0.node) == Rearmed(old(Deadlines(alarmMap, e0.node)), op)
    {
      hide Insert, Remove, Sorted, Nodes, Find, Pending, Flying, Without, OneEach, Deadlines, Rearmed;
      ghost var es, n, a, f := alarmMap, nextNode, op.who, e0.node;
      ghost var armed := a in allAlarms;
      ghost var sure := Flying(es, e0, now, skipped) && (op.Cancel? || op.time > now);
      NodeBelow(es, n, e0);
      AgreeOneEach(f);
      if armed {
        TokenFinds(a, f);
        RemoveElems(es, Find(es, a.token), n);
        RemoveKeeps(es, Find(es, a.token), n);
        if sure {
          FlyingRemove(es, Find(es, a.token), e0, n, now, skipped);
        }
      } else {
        PendingWithout(es, now, skipped, f, a);
      }
      ghost var rest := if armed then Remove(es, Find(es, a.token)) else es;
      match op {
        case Set(_, time) =>
          RegisterAlarm(time, op.who, f);
          InsertElems(es, Entry(n, time, a));
          if sure { FlyingInsert(es, Entry(n, time, a), e0, now, skipped); }
        case Cancel(_) =>
          Cancel(op.who, f);
        case Update(_, time) =>
          Update(op.who, time, f);
          InsertElems(rest, Entry(n, time, a));
          if sure { FlyingInsert(rest, Entry(n, time, a), e0, now, skipped); }
      }
    }

    /** The operations of a callback, one after the other. */
    method RunCallback(ops: seq<Op<AlarmEvent>>, ghost e0: Entry<AlarmEvent>, ghost now: int)
      requires Agree(e0.node) && e0 in alarmMap && forall i | 0 <= i < |ops| :: ops[i].who in known
      modifies this, known
      ensures Agree(e0.node) && known == old(known) && skipped == old(skipped) && e0 in alarmMap
      ensures old(Flying(alarmMap, e0, now, skipped))
              && (forall i | 0 <= i < |ops| && !ops[i].Cancel? :: ops[i].time > now) ==>
                && Flying(alarmMap, e0, now, skipped)
                && Pending(alarmMap, now, skipped, e0.node)
                    == Struck(old(Pending(alarmMap, now, skipped, e0.node)), ops)
                && forall e | e in alarmMap :: e in old(alarmMap) || e.time > now
      ensures Deadlines(alarmMap, e0.node) == RearmedAll(old(Deadlines(alarmMap, e0.node)), ops)
    {
      hide Pending, Flying, Without, Agree, Deadlines, Rearmed;
      ghost var sure := Flying(alarmMap, e0, now, skipped)
                        && forall i | 0 <= i < |ops| && !ops[i].Cancel? :: ops[i].time > now;
      ghost var due, es := Pending(alarmMap, now, skipped, e0.node), alarmMap;
      var m := 0;
      assert ops[..0] == [];
      while m < |ops|
        invariant 0 <= m <= |ops| && Agree(e0.node) && known == old(known) && skipped == old(skipped) && e0 in alarmMap
        invariant sure ==>
                    Flying(alarmMap, e0, now, skipped)
                    && Pending(alarmMap, now, skipped, e0.node) == Struck(due, ops[..m])
        invariant sure ==> forall e | e in alarmMap :: e in es || e.time > now
        invariant Deadlines(alarmMap, e0.node) == RearmedAll(old(Deadlines(alarmMap, e0.node)), ops[..m])
      {
        Apply(ops[m], e0, now);
        assert ops[..m + 1][..m] == ops[..m];
        m := m + 1;
      }
      assert ops[..m] == ops;
    }

    /** OnAlarm begins: the alarm no longer counts as registered, its entry is in flight. */
    method TakeOff(e0: Entry<AlarmEvent>)
      requires Agree(-1) && e0 in alarmMap
      modifies this`allAlarms, e0.who
      ensures Agree(e0.node) && allAlarms == old(allAlarms) - {e0.who}
      ensures Deadlines(alarmMap, e0.node) == old(Deadlines(alarmMap, -1)) - {e0.who}
    {
      hide Sorted, Nodes, Deadlines, OneEach;
      AgreeOneEach(-1);
      forall a | a in allAlarms && a != e0.who
        ensures a.token != e0.node
      {
        var e :| e in alarmMap && e.node == a.token && e.who == a;
        if e.node == e0.node {
          NodeOnce(alarmMap, nextNode, e, e0);
        }
      }
      allAlarms := allAlarms - {e0.who};
      e0.who.registered := false;
      AgreeOneEach(e0.node);
      FlightDeadlines(alarmMap, nextNode, e0);
    }

    /** The entry in flight is erased. */
    method Land(e0: Entry<AlarmEvent>)
      requires Agree(e0.node) && e0 in alarmMap
      modifies this`alarmMap
      ensures Agree(-1) && alarmMap == Remove(old(alarmMap), old(Find(alarmMap, e0.node)))
      ensures Deadlines(alarmMap, -1) == old(Deadlines(alarmMap, e0.node))
    {
      hide Sorted, Nodes, Remove, Deadlines, OneEach;
      AgreeOneEach(e0.node);
      FindEntry(alarmMap, nextNode, e0);
      var i := Find(alarmMap, e0.node);
      RemoveKeeps(alarmMap, i, nextNode);
      RemoveElems(alarmMap, i, nextNode);
      ghost var es := alarmMap;
      forall e | e in es && e != e0
        ensures e.node != e0.node
      {
        if e.node == e0.node {
          NodeOnce(es, nextNode, e, e0);
        }
      }
      alarmMap := Remove(alarmMap, i);
      AgreeOneEach(-1);
      LandDeadlines(es, nextNode, i);
    }

    /** The callback of a due alarm runs while its entry is still in the map; then the iterator
        moves on and the entry is erased. */
    method RunAndErase(e0: Entry<AlarmEvent>, ops: seq<Op<AlarmEvent>>, ghost now: int) returns (next: int)
      requires Agree(-1) && e0 in alarmMap
      requires forall i | 0 <= i < |ops| :: ops[i].who in known
      modifies this, known
      ensures Agree(-1) && known == old(known) && skipped == old(skipped)
      ensures -1 <= next < nextNode && (next >= 0 ==> Find(alarmMap, next) < |alarmMap|)
      ensures old(Flying(alarmMap, e0, now, skipped))
              && (forall i | 0 <= i < |ops| && !ops[i].Cancel? :: ops[i].time > now) ==>
                && Passed(alarmMap, Pos(alarmMap, next), now, skipped)
                && Pending(alarmMap, now, skipped, -1) == Struck(old(Pending(alarmMap, now, skipped, e0.node)), ops)
                && forall e | e in alarmMap && e.who == e0.who :: e.time > now
      ensures Deadlines(alarmMap, -1) == RearmedAll(old(Deadlines(alarmMap, -1)) - {e0.who}, ops)
    {
      hide Sorted, Nodes, Remove, Pending, Find, Flying, Struck, Passed, Deadlines, RearmedAll;
      ghost var sure := Flying(alarmMap, e0, now, skipped)
                        && forall i | 0 <= i < |ops| && !ops[i].Cancel? :: ops[i].time > now;
      OnlyEntryOf(e0);
      TakeOff(e0);
      RunCallback(ops, e0, now);
      FindEntry(alarmMap, nextNode, e0);
      var i := Find(alarmMap, e0.node);
      next := NodeAt(alarmMap, i + 1);
      if sure {
        Lands(alarmMap, e0, nextNode, now, skipped);
      }
      NextStays(alarmMap, i, nextNode);
      RemoveElems(alarmMap, i, nextNode);
      Land(e0);
    }

    /** A positive return value arms the alarm again; at or before `now`, the alarm is also
        marked to be skipped for the rest of the round. */
    method Rearm(who: AlarmEvent, ret: int, now: int, ghost it: int)
      requires Agree(-1) && who in known && ret > 0
      requires -1 <= it < nextNode && (it >= 0 ==> Find(alarmMap, it) < |alarmMap|)
      modifies this, who
      ensures Agree(-1) && known == old(known)
      ensures it >= 0 ==> Find(alarmMap, it) < |alarmMap|
      ensures skipped == old(skipped) + (if ret <= now then {who} else {})
      ensures old(Passed(alarmMap, Pos(alarmMap, it), now, skipped))
              && old(forall e | e in alarmMap && e.who == who :: e.time > now) ==>
                && Passed(alarmMap, Pos(alarmMap, it), now, skipped)
                && Pending(alarmMap, now, skipped, -1) == old(Pending(alarmMap, now, skipped, -1))
      ensures Deadlines(alarmMap, -1) == Rearmed(old(Deadlines(alarmMap, -1)), Set(who, ret))
    {
      hide Sorted, Nodes, Insert, Pending, Find, Deadlines, Rearmed;
      ghost var sure := Passed(alarmMap, Pos(alarmMap, it), now, skipped)
                        && forall e | e in alarmMap && e.who == who :: e.time > now;
      if sure {
        PendingGone(alarmMap, now, skipped, -1, who);
      }
      if ret <= now {
        skipped := skipped + {who};
      }
      ghost var es, n := alarmMap, nextNode;
      FindAfterInsert(es, Entry(n, ret, who), it);
      RegisterAlarm(ret, who, -1);
      if sure && alarmMap != es {
        Rearms(es, Entry(n, ret, who), it, now, skipped);
      }
    }

    /** One turn of the loop of CallTimeoutAlarms on a due alarm. */
    method Fire(e0: Entry<AlarmEvent>, callback: Callback<AlarmEvent>, now: int) returns (next: int)
      requires Agree(-1) && e0 in alarmMap && IsDue(e0, now, skipped, -1)
      requires forall i | 0 <= i < |callback.ops| :: callback.ops[i].who in known
      modifies this, known
      ensures Agree(-1) && known == old(known)
      ensures next >= -1 && (next >= 0 ==> Find(alarmMap, next) < |alarmMap|)
      ensures skipped == old(skipped) + (if 0 < callback.ret <= now then {e0.who} else {})
      ensures ArmsLater(callback, now) && old(Flying(alarmMap, e0, now, skipped)) ==>
                && Passed(alarmMap, Pos(alarmMap, next), now, skipped)
                && Pending(alarmMap, now, skipped, -1)
                    == Struck(old(Pending(alarmMap, now, skipped, e0.node)), callback.ops)
      ensures Deadlines(alarmMap, -1) == RearmedAll(old(Deadlines(alarmMap, -1)), Firing(e0.who, callback))
    {
      hide Agree, Pending, Find, Flying, Struck, Passed, Deadlines, Rearmed, RearmedAll, Firing;
      FiringRearms(Deadlines(alarmMap, -1), e0.who, callback);
      WhoKnown(e0);
      next := RunAndErase(e0, callback.ops, now);
      if callback.ret > 0 {
        Rearm(e0.who, callback.ret, now, next);
      }
    }

    /** The round of due alarms. `callbacks` gives the operations that the successive callbacks
        of the round perform on the queue, and their return values; they arm only deadlines
        later than `now`, except through their return value. */
    method CallTimeoutAlarms(now: int, callbacks: nat -> Callback<AlarmEvent>) returns (fired: seq<AlarmEvent>)
      requires Valid()
      requires forall k: nat, i | 0 <= i < |callbacks(k).ops| :: callbacks(k).ops[i].who in known
      requires forall k: nat :: ArmsLater(callbacks(k), now)
      modifies this, known
      ensures Valid() && known == old(known)
      ensures now <= 0 ==> fired == [] && alarmMap == old(alarmMap)
      ensures now > 0 ==> fired == Round(old(Pending(alarmMap, now, {}, -1)), callbacks, 0)
      ensures now > 0 ==>
                forall e | e in alarmMap && e.time <= now ::
                  exists j :: 0 <= j < |fired| && fired[j] == e.who && 0 < callbacks(j).ret <= now
      ensures Deadlines(alarmMap, -1) == RearmedAll(old(Deadlines(alarmMap, -1)), History(fired, callbacks, |fired|))
    {
      hide Agree, Pending, Find, Struck, Passed, ArmsLater, IsDue, Deadlines, RearmedAll, Firing;
      fired := [];
      ghost var d0 := Deadlines(alarmMap, -1);
      NothingRearmed(d0);
      if now <= 0 {
        return;
      }
      var it := NodeAt(alarmMap, 0);
      AgreeNodes(-1);
      PosNodeAt(alarmMap, nextNode, 0);
      PassedNothing(alarmMap, now, skipped);
      ghost var due := Pending(alarmMap, now, skipped, -1);
      assert [] + Round(due, callbacks, 0) == Round(due, callbacks, 0);
      while it != -1
        invariant Agree(-1) && known == old(known) && it >= -1 && (it >= 0 ==> Find(alarmMap, it) < |alarmMap|)
        invariant Passed(alarmMap, Pos(alarmMap, it), now, skipped)
        invariant fired + Round(Pending(alarmMap, now, skipped, -1), callbacks, |fired|) == Round(due, callbacks, 0)
        invariant forall a | a in skipped ::
                    exists j :: 0 <= j < |fired| && fired[j] == a && 0 < callbacks(j).ret <= now
        invariant Deadlines(alarmMap, -1) == RearmedAll(d0, History(fired, callbacks, |fired|))
        decreases |Pending(alarmMap, now, skipped, -1)|, |alarmMap| - Pos(alarmMap, it)
      {
        AgreeNodes(-1);
        var i := Find(alarmMap, it);
        var e := alarmMap[i];
        if e.time > now {
          break;
        }
        if e.who in skipped {
          PosNodeAt(alarmMap, nextNode, i + 1);
          PassedOne(alarmMap, i, now, skipped);
          it := NodeAt(alarmMap, i + 1);
        } else {
          DueFlies(alarmMap, i, nextNode, now, skipped);
          ghost var d, k, before := Pending(alarmMap, now, skipped, e.node), |fired|, fired;
          assert Pending(alarmMap, now, skipped, -1) == [e.who] + d;
          RoundStep(e.who, d, callbacks, k);
          it := Fire(e, callbacks(|fired|), now);
          fired := fired + [e.who];
          HistoryLonger(before, e.who, callbacks, k);
          RearmedConcat(d0, History(before, callbacks, k), Firing(e.who, callbacks(k)));
          assert before + ([e.who] + Round(Struck(d, callbacks(k).ops), callbacks, k + 1))
              == fired + Round(Struck(d, callbacks(k).ops), callbacks, k + 1);
          assert forall j | 0 <= j < |before| :: fired[j] == before[j];
          assert fired[k] == e.who;
        }
      }
      AgreeNodes(-1);
      RoundOver(alarmMap, Pos(alarmMap, it), now, skipped);
      assert fired + [] == fired;
      ClearSkipped();
    }

    /** Why the round needs callbacks that arm later than `now`: a callback that sets its own
        alarm for `now` leaves the queue, and the iterator, as they were before it ran: one
        entry, due, and next in line. */
    method SetsItselfAgain(e0: Entry<AlarmEvent>, now: int) returns (next: int)
      requires Agree(-1) && alarmMap == [e0] && IsDue(e0, now, skipped, -1)
      modifies this, known
      ensures Agree(-1) && skipped == old(skipped)
      ensures alarmMap == [Entry(old(nextNode), now, e0.who)] && next == alarmMap[0].node
      ensures IsDue(alarmMap[0], now, skipped, -1)
    {
      ghost var n := nextNode;
      WhoKnown(e0);
      NodeBelow(alarmMap, nextNode, e0);
      TakeOff(e0);
      assert Insert([e0], Entry(n, now, e0.who)) == [e0, Entry(n, now, e0.who)];
      RegisterAlarm(now, e0.who, e0.node);
      var i := Find(alarmMap, e0.node);
      next := NodeAt(alarmMap, i + 1);
      Land(e0);
    }

    /** tQuicAlarmFactory::CreateAlarm. */
    method CreateAlarm() returns (a: AlarmEvent)
      requires Valid()
      modifies this
      ensures Valid() && fresh(a) && known == old(known) + {a} && alarmMap == old(alarmMap)
              && allAlarms == old(allAlarms)
    {
      a := new AlarmEvent();
      known := known + {a};
    }

    method ClearSkipped()
      requires Agree(-1)
      modifies this`skipped
      ensures Valid()
    {
      skipped := {};
    }

    lemma AgreeNodes(flight: int)
      requires Agree(flight)
      ensures Sorted(alarmMap) && Nodes(alarmMap, nextNode)
    {
    }

    lemma WhoKnown(e0: Entry<AlarmEvent>)
      requires Agree(-1) && e0 in alarmMap
      ensures e0.who in known
    {
    }

    /** A registered alarm has no second entry. */
    lemma OnlyEntryOf(e0: Entry<AlarmEvent>)
      requires Agree(-1) && e0 in alarmMap
      ensures forall e | e in alarmMap && e.who == e0.who :: e == e0
    {
      forall e | e in alarmMap && e.who == e0.who
        ensures e == e0
      {
        NodeOnce(alarmMap, nextNode, e, e0);
      }
    }
  }

  lemma NothingRearmed<A>(d: map<A, int>)
    ensures RearmedAll(d, []) == d
  {
  }

  /** An entry is erased and another one for the same alarm inserted. */
  lemma MoveDeadlines<A>(es: seq<Entry<A>>, i: nat, e: Entry<A>, flight: int)
    requires Nodes(es, e.node) && Sorted(es) && i < |es| && es[i].who == e.who && es[i].node != flight
    requires e.node != flight && OneEach(es, flight) && OneEach(Insert(Remove(es, i), e), flight)
    ensures Deadlines(Insert(Remove(es, i), e), flight) == Deadlines(es, flight)[e.who := e.time]
  {
    hide Deadlines, Insert;
    var rest := Remove(es, i);
    RemoveElems(es, i, e.node);
    forall x | x in rest && x.node != flight
      ensures x.who != e.who
    {
      var j :| 0 <= j < |es| && es[j] == x;
    }
    RemoveDeadlines(es, i, e.node, flight);
    InsertDeadlines(rest, e, flight);
  }

  lemma PassedNothing<A>(es: seq<Entry<A>>, now: int, skip: set<A>)
    ensures Passed(es, 0, now, skip)
  {
  }

  lemma PassedOne<A>(es: seq<Entry<A>>, i: nat, now: int, skip: set<A>)
    requires i < |es| && Passed(es, i, now, skip) && es[i].who in skip
    ensures Passed(es, i + 1, now, skip)
  {
  }

  /** The first due entry goes into flight. */
  lemma DueFlies<A>(es: seq<Entry<A>>, i: nat, next: nat, now: int, skip: set<A>)
    requires Nodes(es, next) && i < |es| && Passed(es, i, now, skip) && es[i].time <= now && es[i].who !in skip
    ensures IsDue(es[i], now, skip, -1) && Flying(es, es[i], now, skip) && es[i] in es
    ensures Pending(es, now, skip, -1) == [es[i].who] + Pending(es, now, skip, es[i].node)
  {
    hide Pending;
    FindUnique(es, next, i);
    PendingTakeOff(es, i, now, skip, next);
  }

  lemma RoundStep<A>(a: A, d: seq<A>, callbacks: nat -> Callback<A>, k: nat)
    ensures Round([a] + d, callbacks, k) == [a] + Round(Struck(d, callbacks(k).ops), callbacks, k + 1)
  {
    hide Struck;
    assert ([a] + d)[1..] == d;
  }

  lemma FindAfterInsert<A>(es: seq<Entry<A>>, e: Entry<A>, it: int)
    requires Sorted(es) && Nodes(es, e.node) && it >= 0 ==> Find(es, it) < |es|
    ensures Sorted(es) && Nodes(es, e.node) && it >= 0 ==> Find(Insert(es, e), it) < |Insert(es, e)|
  {
    if Sorted(es) && Nodes(es, e.node) && it >= 0 {
      var x := es[Find(es, it)];
      InsertElems(es, e);
      InsertKeeps(es, e);
      FindEntry(Insert(es, e), e.node + 1, x);
    }
  }

  /** The node after position i is found again once entry i is erased. */
  lemma NextStays<A>(es: seq<Entry<A>>, i: nat, next: nat)
    requires Nodes(es, next) && i < |es| && Sorted(es)
    ensures var n := NodeAt(es, i + 1); n < next && (n >= 0 ==> Find(Remove(es, i), n) < |Remove(es, i)|)
  {
    if i + 1 < |es| {
      RemoveKeeps(es, i, next);
      assert Remove(es, i)[i] == es[i + 1];
      FindUnique(Remove(es, i), next, i);
    }
  }

  lemma NodeBelow<A>(es: seq<Entry<A>>, next: nat, e: Entry<A>)
    requires Nodes(es, next) && e in es
    ensures e.node < next
  {
  }
}
