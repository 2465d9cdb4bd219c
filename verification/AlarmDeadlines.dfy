/** What is armed after a round: read off the history of the round, alarm by alarm. */
module AlarmDeadlines {
  import opened AlarmEntries
  import opened AlarmRounds

  /** None of the operations i to j cancels or moves the alarm. */
  predicate Kept<A(==)>(ops: seq<Op<A>>, i: nat, j: nat, a: A) {
    j <= |ops| && forall k | i <= k < j && ops[k].who == a :: ops[k].Set?
  }

  /** None of the operations i to j arms the alarm. */
  predicate NotSet<A(==)>(ops: seq<Op<A>>, i: nat, j: nat, a: A) {
    j <= |ops| && forall k | i <= k < j && ops[k].who == a :: ops[k].Cancel?
  }

  /** Before operation n the alarm is not armed: it was not at the start, or was cancelled last at
      operation j - 1, and nothing has armed it since. */
  ghost predicate Unarmed<A>(d: map<A, int>, ops: seq<Op<A>>, n: nat, a: A) {
    exists j: nat :: UnarmedSince(d, ops, j, n, a)
  }

  predicate UnarmedSince<A(==)>(d: map<A, int>, ops: seq<Op<A>>, j: nat, n: nat, a: A) {
    && j <= n <= |ops| && NotSet(ops, j, n, a)
    && (if j == 0 then a !in d else ops[j - 1] == Cancel(a))
  }

  /** The alarm's deadline is the one it had at the start (k is 0), or the one that operation k - 1
      gave it: an Update, or a Set at a time when it was not armed. No later operation has
      cancelled or moved it. */
  ghost predicate GivenAt<A>(d: map<A, int>, ops: seq<Op<A>>, k: nat, n: nat, a: A, time: int) {
    && k <= n <= |ops| && Kept(ops, k, n, a)
    && (if k == 0 then a in d && d[a] == time
        else ops[k - 1] == Update(a, time) || (ops[k - 1] == Set(a, time) && Unarmed(d, ops, k - 1, a)))
  }

  lemma RearmedNext<A>(d: map<A, int>, ops: seq<Op<A>>, n: nat)
    requires n < |ops|
    ensures RearmedAll(d, ops[..n + 1]) == Rearmed(RearmedAll(d, ops[..n]), ops[n])
  {
    assert ops[..n + 1][..n] == ops[..n];
  }

  lemma {:induction false} UnarmedIff<A>(d: map<A, int>, ops: seq<Op<A>>, n: nat, a: A)
    requires n <= |ops|
    ensures a !in RearmedAll(d, ops[..n]) <==> Unarmed(d, ops, n, a)
  {
    if n == 0 {
      assert ops[..0] == [];
      assert a !in d ==> UnarmedSince(d, ops, 0, 0, a);
    } else {
      UnarmedIff(d, ops, n - 1, a);
      RearmedNext(d, ops, n - 1);
      var op := ops[n - 1];
      if op == Cancel(a) {
        assert UnarmedSince(d, ops, n, n, a);
      } else if Unarmed(d, ops, n - 1, a) {
        var m := n - 1;
        var j: nat :| UnarmedSince(d, ops, j, m, a);
        assert op.who != a ==> UnarmedSince(d, ops, j, n, a);
      }
      if j: nat :| UnarmedSince(d, ops, j, n, a) {
        assert j < n ==> UnarmedSince(d, ops, j, n - 1, a);
      }
    }
  }

  /** After any operations an alarm has a deadline if and only if one of them, or the start, gave it
      that deadline and no later one took it away. */
  lemma {:induction false} DeadlineIff<A>(d: map<A, int>, ops: seq<Op<A>>, n: nat, a: A, time: int)
    requires n <= |ops|
    ensures var e := RearmedAll(d, ops[..n]);
            a in e && e[a] == time <==> exists k: nat :: GivenAt(d, ops, k, n, a, time)
  {
    hide Unarmed, RearmedAll;
    if n == 0 {
      assert ops[..0] == [];
      NothingDone(d);
      assert a in d && d[a] == time ==> GivenAt(d, ops, 0, 0, a, time);
    } else {
      DeadlineIff(d, ops, n - 1, a, time);
      UnarmedIff(d, ops, n - 1, a);
      RearmedNext(d, ops, n - 1);
      var op := ops[n - 1];
      var m := n - 1;
      if k: nat :| GivenAt(d, ops, k, m, a, time) {
        assert op.who != a || op.Set? ==> GivenAt(d, ops, k, n, a, time);
      }
      if op == Update(a, time) || (op == Set(a, time) && Unarmed(d, ops, n - 1, a)) {
        assert GivenAt(d, ops, n, n, a, time);
      }
      if k: nat :| GivenAt(d, ops, k, n, a, time) {
        assert k < n ==> GivenAt(d, ops, k, n - 1, a, time);
      }
    }
  }

  lemma NothingDone<A>(d: map<A, int>)
    ensures RearmedAll(d, []) == d
  {
  }

  predicate NoneNames<A(==)>(ops: seq<Op<A>>, a: A) { forall i | 0 <= i < |ops| :: ops[i].who != a }

  /** Alarms that no operation names keep the deadline they had, or stay without. */
  lemma {:induction false} UnnamedKeeps<A>(d: map<A, int>, ops: seq<Op<A>>, a: A)
    requires NoneNames(ops, a)
    ensures var e := RearmedAll(d, ops); (a in e <==> a in d) && (a in d ==> e[a] == d[a])
  {
    if ops != [] {
      UnnamedKeeps(d, ops[..|ops| - 1], a);
    }
  }

  // ---------------------------------------------------------------- rounds

  predicate Names<A(==)>(c: Callback<A>, a: A) { exists i | 0 <= i < |c.ops| :: c.ops[i].who == a }

  lemma {:induction false} HistoryNames<A>(fired: seq<A>, callbacks: nat -> Callback<A>, n: nat, a: A)
    requires n <= |fired| && a !in fired[..n] && forall k: nat | k < n :: !Names(callbacks(k), a)
    ensures NoneNames(History(fired, callbacks, n), a)
  {
    hide Firing;
    if n > 0 {
      assert fired[..n] == fired[..n - 1] + [fired[n - 1]];
      HistoryNames(fired, callbacks, n - 1, a);
      FiringNames(fired[n - 1], callbacks(n - 1), a);
    }
  }

  lemma FiringNames<A>(who: A, c: Callback<A>, a: A)
    requires who != a && !Names(c, a)
    ensures NoneNames(Firing(who, c), a)
  {
    var ops := Firing(who, c);
    forall i | 0 <= i < |ops|
      ensures ops[i].who != a
    {
      assert 1 <= i <= |c.ops| ==> ops[i] == c.ops[i - 1];
    }
  }

  lemma {:induction false} LaterNotPending<A>(es: seq<Entry<A>>, now: int, a: A)
    requires forall e | e in es && e.who == a :: e.time > now
    ensures a !in Pending(es, now, {}, -1)
  {
    if es != [] {
      assert es[0] in es && forall e | e in es[1..] :: e in es;
      LaterNotPending(es[1..], now, a);
    }
  }

  /** A round leaves the deadline of every alarm alone that was not due when it began and that none
      of its callbacks names. */
  lemma RoundLeavesOthers<A>(es: seq<Entry<A>>, now: int, callbacks: nat -> Callback<A>, a: A)
    requires Sorted(es) && OneEach(es, -1)
    requires forall e | e in es && e.who == a :: e.time > now
    requires var fired := Round(Pending(es, now, {}, -1), callbacks, 0);
             forall k: nat | k < |fired| :: !Names(callbacks(k), a)
    ensures var fired := Round(Pending(es, now, {}, -1), callbacks, 0);
            var d, e := Deadlines(es, -1), RearmedAll(Deadlines(es, -1), History(fired, callbacks, |fired|));
            (a in e <==> a in d) && (a in d ==> e[a] == d[a])
  {
    hide Pending, Round, Deadlines, RearmedAll, History, Sorted, OneEach;
    var fired := Round(Pending(es, now, {}, -1), callbacks, 0);
    RoundOfQueue(es, now, callbacks);
    LaterNotPending(es, now, a);
    assert fired[..|fired|] == fired;
    HistoryNames(fired, callbacks, |fired|, a);
    UnnamedKeeps(Deadlines(es, -1), History(fired, callbacks, |fired|), a);
  }
}
