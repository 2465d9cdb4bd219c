/** What the reference round guarantees: each due alarm fires at most once, in the order of the
    deadlines, and misses its turn exactly when an earlier callback cancelled or updated it. */
module AlarmRounds {
  import opened AlarmEntries

  ghost predicate Strikes<A>(ops: seq<Op<A>>, a: A) {
    exists i | 0 <= i < |ops| :: !ops[i].Set? && ops[i].who == a
  }

  lemma {:induction false} WithoutIn<A>(s: seq<A>, a: A)
    ensures forall x :: x in Without(s, a) <==> x in s && x != a
  {
    if s != [] {
      WithoutIn(s[1..], a);
      assert s == [s[0]] + s[1..];
    }
  }

  lemma {:induction false} StruckIn<A>(due: seq<A>, ops: seq<Op<A>>)
    ensures forall x :: x in Struck(due, ops) <==> x in due && !Strikes(ops, x)
    decreases |ops|
  {
    if ops != [] {
      var init, op := ops[..|ops| - 1], ops[|ops| - 1];
      StruckIn(due, init);
      WithoutIn(Struck(due, init), op.who);
      forall x
        ensures Strikes(ops, x) <==> Strikes(init, x) || (!op.Set? && op.who == x)
      {
        assert forall i | 0 <= i < |init| :: init[i] == ops[i];
        if i :| 0 <= i < |ops| && !ops[i].Set? && ops[i].who == x {
          assert i < |init| ==> !init[i].Set? && init[i].who == x;
        }
        if i :| 0 <= i < |init| && !init[i].Set? && init[i].who == x {
          assert !ops[i].Set? && ops[i].who == x;
        }
      }
    }
  }

  predicate Distinct<A(==)>(s: seq<A>) {
    s == [] || (s[0] !in s[1..] && Distinct(s[1..]))
  }

  lemma {:induction false} WithoutDistinct<A>(s: seq<A>, a: A)
    requires Distinct(s)
    ensures Distinct(Without(s, a))
  {
    if s != [] {
      WithoutDistinct(s[1..], a);
      WithoutIn(s[1..], a);
      if s[0] != a {
        assert ([s[0]] + Without(s[1..], a))[1..] == Without(s[1..], a);
      } else {
        assert [] + Without(s[1..], a) == Without(s[1..], a);
      }
    }
  }

  lemma {:induction false} StruckDistinct<A>(s: seq<A>, ops: seq<Op<A>>)
    requires Distinct(s)
    ensures Distinct(Struck(s, ops))
    decreases |ops|
  {
    if ops != [] {
      StruckDistinct(s, ops[..|ops| - 1]);
      WithoutDistinct(Struck(s, ops[..|ops| - 1]), ops[|ops| - 1].who);
    }
  }

  /** Callback number j of the round cancels or updates alarm a. */
  ghost predicate StrikesAt<A>(callbacks: nat -> Callback<A>, j: nat, a: A) {
    Strikes(callbacks(j).ops, a)
  }

  /** Every fired alarm was due, fires once, and was not struck by an earlier callback of the
      round; every due alarm that did not fire was struck by one. */
  lemma {:induction false} RoundExact<A>(due: seq<A>, callbacks: nat -> Callback<A>, k: nat)
    requires Distinct(due)
    ensures var fired := Round(due, callbacks, k);
            && Distinct(fired)
            && (forall a | a in fired :: a in due)
            && (forall m, j | 0 <= m < |fired| && k <= j < k + m :: !StrikesAt(callbacks, j, fired[m]))
            && (forall a | a in due && a !in fired :: exists j :: k <= j < k + |fired| && StrikesAt(callbacks, j, a))
    decreases |due|
  {
    hide Strikes;
    if due != [] {
      var rest := Struck(due[1..], callbacks(k).ops);
      StruckDistinct(due[1..], callbacks(k).ops);
      StruckIn(due[1..], callbacks(k).ops);
      RoundExact(rest, callbacks, k + 1);
      var more := Round(rest, callbacks, k + 1);
      var fired := Round(due, callbacks, k);
      assert fired == [due[0]] + more && fired[1..] == more;
      forall m, j | 0 <= m < |fired| && k <= j < k + m
        ensures !StrikesAt(callbacks, j, fired[m])
      {
        assert fired[m] == more[m - 1] && more[m - 1] in rest;
      }
      forall a | a in due && a !in fired
        ensures exists j :: k <= j < k + |fired| && StrikesAt(callbacks, j, a)
      {
        assert a in due[1..] && a !in more;
        if a in rest {
          var j :| k + 1 <= j < k + 1 + |more| && StrikesAt(callbacks, j, a);
        } else {
          assert StrikesAt(callbacks, k, a);
        }
      }
    }
  }

  // ---------------------------------------------------------------- order of deadlines

  /** x is armed for no later than y. */
  ghost predicate NotLater<A>(es: seq<Entry<A>>, x: A, y: A) {
    forall i, j | 0 <= i < |es| && 0 <= j < |es| && es[i].who == x && es[j].who == y :: es[i].time <= es[j].time
  }

  ghost predicate InOrder<A>(es: seq<Entry<A>>, s: seq<A>) {
    s == [] || ((forall y | y in s[1..] :: NotLater(es, s[0], y)) && InOrder(es, s[1..]))
  }

  lemma {:induction false} WithoutMember<A>(s: seq<A>, a: A, y: A)
    requires y in Without(s, a)
    ensures y in s
  {
    if s != [] && y in Without(s[1..], a) {
      WithoutMember(s[1..], a, y);
    }
  }

  lemma HeadInOrder<A>(es: seq<Entry<A>>, x: A, s: seq<A>)
    requires InOrder(es, s) && forall y | y in s :: NotLater(es, x, y)
    ensures InOrder(es, [x] + s)
  {
    hide NotLater;
    assert ([x] + s)[1..] == s;
  }

  lemma WithoutStep<A>(s: seq<A>, a: A)
    requires s != []
    ensures Without(s, a) == if s[0] == a then Without(s[1..], a) else [s[0]] + Without(s[1..], a)
  {
  }

  lemma {:induction false} WithoutInOrder<A>(es: seq<Entry<A>>, s: seq<A>, a: A)
    requires InOrder(es, s)
    ensures InOrder(es, Without(s, a))
  {
    hide NotLater, Without;
    if s == [] {
      WithoutIn(s, a);
      assert Without(s, a) == [];
    } else {
      var r := Without(s[1..], a);
      WithoutStep(s, a);
      WithoutInOrder(es, s[1..], a);
      if s[0] != a {
        forall y | y in r ensures NotLater(es, s[0], y) {
          WithoutMember(s[1..], a, y);
        }
        HeadInOrder(es, s[0], r);
      }
    }
  }

  lemma {:induction false} StruckInOrder<A>(es: seq<Entry<A>>, s: seq<A>, ops: seq<Op<A>>)
    requires InOrder(es, s)
    ensures InOrder(es, Struck(s, ops))
    decreases |ops|
  {
    if ops != [] {
      StruckInOrder(es, s, ops[..|ops| - 1]);
      WithoutInOrder(es, Struck(s, ops[..|ops| - 1]), ops[|ops| - 1].who);
    }
  }

  lemma {:induction false} RoundInOrder<A>(es: seq<Entry<A>>, due: seq<A>, callbacks: nat -> Callback<A>, k: nat)
    requires InOrder(es, due)
    ensures InOrder(es, Round(due, callbacks, k))
    ensures forall x | x in Round(due, callbacks, k) :: x in due
    decreases |due|
  {
    if due != [] {
      var rest := Struck(due[1..], callbacks(k).ops);
      StruckInOrder(es, due[1..], callbacks(k).ops);
      StruckIn(due[1..], callbacks(k).ops);
      RoundInOrder(es, rest, callbacks, k + 1);
      assert ([due[0]] + Round(rest, callbacks, k + 1))[1..] == Round(rest, callbacks, k + 1);
    }
  }

  lemma {:induction false} PendingIn<A>(es: seq<Entry<A>>, now: int, skip: set<A>, flight: int)
    ensures forall a | a in Pending(es, now, skip, flight) :: exists i :: 0 <= i < |es| && es[i].who == a
  {
    if es != [] {
      PendingIn(es[1..], now, skip, flight);
      forall a | a in Pending(es, now, skip, flight)
        ensures exists i :: 0 <= i < |es| && es[i].who == a
      {
        if a in Pending(es[1..], now, skip, flight) {
          var i :| 0 <= i < |es[1..]| && es[1..][i].who == a;
          assert es[i + 1].who == a;
        } else {
          assert es[0].who == a;
        }
      }
    }
  }

  lemma ConsInOrder<A>(es: seq<Entry<A>>, x: A, s: seq<A>)
    requires InOrder(es, s) && Distinct(s) && forall y | y in s :: y != x && NotLater(es, x, y)
    ensures InOrder(es, [x] + s) && Distinct([x] + s)
  {
    assert ([x] + s)[1..] == s;
  }

  /** The due alarms of a map in which every alarm has one entry. */
  lemma {:induction false} PendingInOrder<A>(es: seq<Entry<A>>, now: int, skip: set<A>, i: nat)
    requires Sorted(es) && OneEach(es, -1) && i <= |es|
    ensures InOrder(es, Pending(es[i..], now, skip, -1)) && Distinct(Pending(es[i..], now, skip, -1))
    decreases |es| - i
  {
    if i < |es| {
      PendingInOrder(es, now, skip, i + 1);
      assert es[i..][1..] == es[i + 1..];
      var rest := Pending(es[i + 1..], now, skip, -1);
      assert [] + rest == rest;
      PendingIn(es[i + 1..], now, skip, -1);
      forall y | y in rest
        ensures y != es[i].who && NotLater(es, es[i].who, y)
      {
        var j :| 0 <= j < |es[i + 1..]| && es[i + 1..][j].who == y;
        OnlyAt(es, i);
        OnlyAt(es, i + 1 + j);
      }
      ConsInOrder(es, es[i].who, rest);
    }
  }

  lemma OnlyAt<A>(es: seq<Entry<A>>, i: nat)
    requires OneEach(es, -1) && i < |es|
    ensures forall j | 0 <= j < |es| && es[j].who == es[i].who :: j == i
  {
  }

  /** The round of a queue: order, exactness and at most one firing, from the map it starts with. */
  lemma RoundOfQueue<A>(es: seq<Entry<A>>, now: int, callbacks: nat -> Callback<A>)
    requires Sorted(es) && OneEach(es, -1)
    ensures var due := Pending(es, now, {}, -1);
            var fired := Round(due, callbacks, 0);
            && InOrder(es, fired) && Distinct(fired)
            && (forall a | a in fired :: a in due)
            && (forall m, j | 0 <= m < |fired| && 0 <= j < m :: !StrikesAt(callbacks, j, fired[m]))
            && (forall a | a in due && a !in fired :: exists j :: 0 <= j < |fired| && StrikesAt(callbacks, j, a))
  {
    hide Round, Pending, StrikesAt, InOrder, Distinct;
    assert es[0..] == es;
    PendingInOrder(es, now, {}, 0);
    var due := Pending(es, now, {}, -1);
    RoundInOrder(es, due, callbacks, 0);
    RoundExact(due, callbacks, 0);
  }
}
