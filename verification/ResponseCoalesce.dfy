/** Several lines of one name and one line with their values joined by commas (section 4.2 of RFC 2616): when
    the two say the same. */
module ResponseCoalesce {
  import opened Ascii
  import opened Quoting
  import opened HttpText
  import opened ResponseLines
  import opened ResponseValues

  // ---------------------------------------------------------------- modes of a text put together

  lemma {:induction false} ModePrefix(a: bytes, b: bytes, i: nat)
    requires i <= |a|
    ensures ModeAt(a + b, i) == ModeAt(a, i)
  {
    if i > 0 {
      ModePrefix(a, b, i - 1);
    }
  }

  lemma {:induction false} ModeSuffix(a: bytes, b: bytes, i: nat)
    requires i <= |b| && ModeAt(a, |a|).Outside?
    ensures ModeAt(a + b, |a| + i) == ModeAt(b, i)
  {
    if i == 0 {
      ModePrefix(a, b, |a|);
    } else {
      ModeSuffix(a, b, i - 1);
    }
  }

  lemma CutPrefix(a: bytes, b: bytes, i: nat)
    requires i < |a|
    ensures CutAt(a + b, i) <==> CutAt(a, i)
  {
    ModePrefix(a, b, i);
  }

  lemma CutSuffix(a: bytes, b: bytes, i: nat)
    requires ModeAt(a, |a|).Outside?
    ensures CutAt(a + b, |a| + i) <==> CutAt(b, i)
  {
    if i < |b| {
      ModeSuffix(a, b, i);
    }
  }

  // ---------------------------------------------------------------- stretches of a text put together

  /** Stretches of a text are stretches of a longer one, up to its own end. */
  lemma {:induction false} BetweenPrefix(a: bytes, b: bytes, p: nat, r: seq<Stretch>, t: seq<Stretch>)
    requires Between(a, p, r) && CutAt(a + b, |a|) && Between(a + b, |a| + 1, t)
    ensures Between(a + b, p, r + t)
    decreases |r|
  {
    hide CutAt;
    forall i | p <= i < r[0].e ensures !CutAt(a + b, i) {
      CutPrefix(a, b, i);
    }
    if |r| == 1 {
      assert (r + t)[1..] == t;
    } else {
      CutBefore(a, r[0].e);
      CutPrefix(a, b, r[0].e);
      BetweenPrefix(a, b, r[0].e + 1, r[1..], t);
      assert (r + t)[1..] == r[1..] + t;
    }
  }

  lemma CutBefore(a: bytes, i: nat)
    requires CutAt(a, i)
    ensures i < |a|
  {
  }

  lemma {:induction false} BetweenSuffix(a: bytes, b: bytes, p: nat, r: seq<Stretch>)
    requires ModeAt(a, |a|).Outside? && Between(b, p, r)
    ensures Between(a + b, |a| + p, Shifted(|a|, r))
    decreases |r|
  {
    hide CutAt, ModeAt;
    var d := |a|;
    forall i | d + p <= i < d + r[0].e ensures !CutAt(a + b, i) {
      CutSuffix(a, b, i - d);
    }
    ShiftedAt(d, r);
    if |r| > 1 {
      CutSuffix(a, b, r[0].e);
      BetweenSuffix(a, b, r[0].e + 1, r[1..]);
      assert Shifted(d, r)[1..] == Shifted(d, r[1..]);
    }
  }

  predicate Inside(v: bytes, r: seq<Stretch>) { forall k | 0 <= k < |r| :: r[k].b <= r[k].e <= |v| }

  lemma {:induction false} BetweenInside(v: bytes, b: nat, r: seq<Stretch>)
    requires Between(v, b, r)
    ensures Inside(v, r)
    decreases |r|
  {
    hide CutAt;
    if |r| > 1 {
      BetweenInside(v, r[0].e + 1, r[1..]);
    }
  }

  // ---------------------------------------------------------------- elements of a text put together

  /** The elements of a list. */
  function ElementsOf(v: bytes): seq<bytes> { Cut(v, Commas(v, 0, |v|)) }

  /** Nothing is left open at the end. */
  predicate Closed(v: bytes) { ModeAt(v, |v|).Outside? }

  lemma ElementsAre(v: bytes, r: seq<Stretch>)
    requires Between(v, 0, r)
    ensures Inside(v, r) && ElementsOf(v) == Cut(v, r)
  {
    hide Between, Commas;
    CommasExact(v, 0);
    BetweenOnce(v, 0, r, Commas(v, 0, |v|));
    BetweenInside(v, 0, r);
  }

  lemma SliceFirst(a: bytes, b: bytes, i: nat, j: nat)
    requires i <= j <= |a|
    ensures (a + b)[i..j] == a[i..j]
  {
  }

  lemma SliceSecond(a: bytes, b: bytes, i: nat, j: nat)
    requires i <= j <= |b|
    ensures (a + b)[|a| + i..|a| + j] == b[i..j]
  {
  }

  lemma CutAtIs(v: bytes, r: seq<Stretch>, k: nat)
    requires Inside(v, r) && k < |r|
    ensures Cut(v, r)[k] == Trimmed(v[r[k].b..r[k].e])
  {
    hide Trimmed;
  }

  lemma CutConcat(a: bytes, b: bytes, r: seq<Stretch>, t: seq<Stretch>)
    requires Inside(a, r) && Inside(b, t) && Inside(a + b, r + Shifted(|a|, t))
    ensures Cut(a + b, r + Shifted(|a|, t)) == Cut(a, r) + Cut(b, t)
  {
    hide Trimmed, Shifted, Cut;
    var v, u, x, y := a + b, r + Shifted(|a|, t), Cut(a, r), Cut(b, t);
    ShiftedAt(|a|, t);
    forall k | 0 <= k < |u| ensures Cut(v, u)[k] == (x + y)[k] {
      CutAtIs(v, u, k);
      if k < |r| {
        assert u[k] == r[k] && (x + y)[k] == x[k];
        SliceFirst(a, b, r[k].b, r[k].e);
        CutAtIs(a, r, k);
      } else {
        var m := k - |r|;
        assert u[k] == Shifted(|a|, t)[m] && (x + y)[k] == y[m];
        SliceSecond(a, b, t[m].b, t[m].e);
        CutAtIs(b, t, m);
      }
    }
  }

  /** A list that is closed, a comma, and another list: the elements of both. */
  lemma ElementsJoin(a: bytes, b: bytes)
    requires Closed(a)
    ensures ElementsOf(a + [COMMA] + b) == ElementsOf(a) + ElementsOf(b)
  {
    hide Between, Commas, CutAt, Inside, Cut, Shifted;
    var c, v := a + [COMMA], a + [COMMA] + b;
    var r, t := Commas(a, 0, |a|), Commas(b, 0, |b|);
    CommasExact(a, 0);
    CommasExact(b, 0);
    CommaCuts(a, b);
    BetweenSuffix(c, b, 0, t);
    assert a + ([COMMA] + b) == v;
    BetweenPrefix(a, [COMMA] + b, 0, r, Shifted(|c|, t));
    ElementsAre(v, r + Shifted(|c|, t));
    ElementsAre(a, r);
    ElementsAre(b, t);
    InsideLonger(a, [COMMA], r);
    CutConcat(c, b, r, t);
    CutLonger(a, [COMMA], r);
  }

  lemma CommaCuts(a: bytes, b: bytes)
    requires Closed(a)
    ensures CutAt(a + ([COMMA] + b), |a|) && Closed(a + [COMMA])
  {
    ModePrefix(a, [COMMA] + b, |a|);
    ModePrefix(a, [COMMA], |a|);
  }

  lemma InsideLonger(a: bytes, b: bytes, r: seq<Stretch>)
    requires Inside(a, r)
    ensures Inside(a + b, r)
  {
  }

  lemma CutLonger(a: bytes, b: bytes, r: seq<Stretch>)
    requires Inside(a, r) && Inside(a + b, r)
    ensures Cut(a + b, r) == Cut(a, r)
  {
    hide Trimmed;
    assert forall k | 0 <= k < |r| :: (a + b)[r[k].b..r[k].e] == a[r[k].b..r[k].e];
  }

  lemma TrimmedSpace(x: bytes)
    ensures Trimmed([SP] + x) == Trimmed(x)
  {
    hide DropLws;
    var s := [SP] + x;
    assert SkipLws(s, 0, |s|) == SkipLws(s, 1, |s|);
    TrimmedAt(s, 1, |s|);
    assert s[1..|s|] == x;
  }

  /** A space in front of a list does not matter. */
  lemma ElementsSpace(b: bytes)
    ensures ElementsOf([SP] + b) == ElementsOf(b)
  {
    hide Trimmed, Commas, Shifted, Cut;
    var a: bytes := [SP];
    var t := Commas(b, 0, |b|);
    CommasExact(b, 0);
    BetweenSuffix(a, b, 0, t);
    ShiftedAt(1, t);
    var u := Shifted(1, t);
    var r := [Stretch(0, u[0].e)] + u[1..];
    assert r[1..] == u[1..] && !CutAt(a + b, 0);
    assert Between(a + b, 0, r);
    ElementsAre(a + b, r);
    ElementsAre(b, t);
    SpaceCut(b, r, t);
  }

  lemma SpaceCut(b: bytes, r: seq<Stretch>, t: seq<Stretch>)
    requires Inside([SP] + b, r) && Inside(b, t) && |r| == |t| > 0 && t[0].b == 0
    requires forall k | 0 <= k < |t| :: r[k] == Stretch(if k == 0 then 0 else 1 + t[k].b, 1 + t[k].e)
    ensures Cut([SP] + b, r) == Cut(b, t)
  {
    hide Trimmed;
    var v := [SP] + b;
    forall k | 0 <= k < |t| ensures Trimmed(v[r[k].b..r[k].e]) == Trimmed(b[t[k].b..t[k].e]) {
      if k == 0 {
        TrimmedSpace(b[..t[0].e]);
        assert v[..1 + t[0].e] == [SP] + b[..t[0].e];
      } else {
        assert v[1 + t[k].b..1 + t[k].e] == b[t[k].b..t[k].e];
      }
    }
  }

  // ---------------------------------------------------------------- a list that is left open

  predicate IsTrimmed(v: bytes) { v != [] ==> !IsBlank(v[0]) && !IsBlank(v[|v| - 1]) }

  /** Up to its last element an open list is cut as before; that element goes on past the comma. */
  lemma {:induction false} OpenCut(a: bytes, b: bytes, p: nat, r: seq<Stretch>, t: seq<Stretch>)
    requires !Closed(a) && Between(a, p, r) && Between(a + ([COMMA] + b), p, t)
    ensures |t| >= |r| && t[|r| - 1].b == r[|r| - 1].b <= |a| < t[|r| - 1].e && r[|r| - 1].e == |a|
    decreases |r|
  {
    var c := [COMMA] + b;
    var v := a + c;
    ModePrefix(a, c, |a|);
    forall i | 0 <= i < |a| ensures CutAt(v, i) <==> CutAt(a, i) {
      CutPrefix(a, c, i);
    }
    assert !CutAt(v, |a|);
    if |r| > 1 {
      assert t[0].e == r[0].e;
      OpenCut(a, b, r[0].e + 1, r[1..], t[1..]);
    }
  }

  lemma {:induction false} LastBegins(v: bytes, b: nat, r: seq<Stretch>)
    requires b <= |v| && ModeAt(v, b).Outside? && Between(v, b, r)
    ensures r[|r| - 1].b <= |v| && ModeAt(v, r[|r| - 1].b).Outside?
    decreases |r|
  {
    if |r| > 1 {
      assert ModeAt(v, r[0].e + 1).Outside?;
      LastBegins(v, r[0].e + 1, r[1..]);
    }
  }

  lemma TrimStart(a: bytes, c: bytes, x: nat, e: nat)
    requires x < |a| <= e <= |a| + |c| && !IsBlank(a[|a| - 1])
    ensures SkipLws(a + c, x, e) == SkipLws(a, x, |a|) < |a|
  {
    var v, i, j := a + c, SkipLws(a, x, |a|), SkipLws(a + c, x, e);
    assert v[|a| - 1] == a[|a| - 1];
    assert forall k | x <= k < |a| :: v[k] == a[k];
  }

  lemma LongerTrim(a: bytes, c: bytes, x: nat, e: nat)
    requires x < |a| < e <= |a| + |c| && !IsBlank(a[|a| - 1]) && !IsBlank(c[0])
    ensures |Trimmed((a + c)[x..e])| > |Trimmed(a[x..|a|])|
  {
    hide Trimmed, SkipLws;
    var v := a + c;
    TrimStart(a, c, x, e);
    TrimmedAt(a, x, |a|);
    TrimmedAt(v, x, e);
    var i := SkipLws(a, x, |a|);
    assert v[|a|] == c[0];
    assert DropLws(v, i, e) > |a|;
  }

  lemma ElementsOpen(a: bytes, b: bytes)
    requires IsTrimmed(a) && !Closed(a)
    ensures var n, v := |ElementsOf(a)|, a + [COMMA] + b;
            0 < n <= |ElementsOf(v)| && |ElementsOf(v)[n - 1]| > |ElementsOf(a)[n - 1]|
  {
    hide Between, Commas, CutAt, Inside, Cut, Trimmed;
    var c, v := [COMMA] + b, a + [COMMA] + b;
    assert a + c == v;
    var r, t := Commas(a, 0, |a|), Commas(v, 0, |v|);
    CommasExact(a, 0);
    CommasExact(v, 0);
    OpenCut(a, b, 0, r, t);
    LastBegins(a, 0, r);
    BetweenInside(a, 0, r);
    BetweenInside(v, 0, t);
    var k := |r| - 1;
    CutAtIs(a, r, k);
    CutAtIs(v, t, k);
    InsideAt(v, t, k);
    assert a == [] ==> Closed(a);
    LongerTrim(a, c, r[k].b, t[k].e);
  }

  lemma InsideAt(v: bytes, r: seq<Stretch>, k: nat)
    requires Inside(v, r) && k < |r|
    ensures r[k].b <= r[k].e <= |v|
  {
  }

  // ---------------------------------------------------------------- any number of lists

  const SEPARATOR: bytes := [COMMA, SP]

  /** The values joined by a comma and a space. */
  function Join(vs: seq<bytes>): bytes {
    if vs == [] then []
    else if |vs| == 1 then vs[0]
    else Join(vs[..|vs| - 1]) + SEPARATOR + vs[|vs| - 1]
  }

  lemma {:induction false} JoinFirst(vs: seq<bytes>)
    requires |vs| > 1
    ensures Join(vs) == vs[0] + SEPARATOR + Join(vs[1..])
  {
    var n := |vs| - 1;
    if n == 1 {
      assert vs[..1] == [vs[0]] && vs[1..] == [vs[1]];
    } else {
      JoinFirst(vs[..n]);
      assert vs[..n][1..] == vs[1..][..n - 1];
      var a, b := vs[0] + SEPARATOR, Join(vs[1..][..n - 1]);
      assert a + b + SEPARATOR + vs[n] == a + (b + SEPARATOR + vs[n]);
    }
  }

  function AllElements(vs: seq<bytes>): seq<bytes> {
    if vs == [] then [] else ElementsOf(vs[0]) + AllElements(vs[1..])
  }

  predicate AllTrimmed(vs: seq<bytes>) { forall i | 0 <= i < |vs| :: IsTrimmed(vs[i]) }

  /** No value but the last leaves a quoted string open. */
  predicate AllClosed(vs: seq<bytes>) { forall i | 0 <= i < |vs| - 1 :: Closed(vs[i]) }

  /** The joined value has the elements of all the values, in order, if and only if no value but the last
      leaves a quoted string open. */
  lemma {:induction false} JoinIff(vs: seq<bytes>)
    requires vs != [] && AllTrimmed(vs)
    ensures ElementsOf(Join(vs)) == AllElements(vs) <==> AllClosed(vs)
  {
    hide ElementsOf, Closed, IsTrimmed;
    if |vs| == 1 {
      assert AllElements(vs[1..]) == [];
      assert ElementsOf(vs[0]) + [] == ElementsOf(vs[0]);
    } else {
      var a, rest := vs[0], vs[1..];
      var b := Join(rest);
      JoinFirst(vs);
      JoinIff(rest);
      assert a + SEPARATOR + b == a + [COMMA] + ([SP] + b);
      if Closed(a) {
        ElementsJoin(a, [SP] + b);
        ElementsSpace(b);
        SameBehind(ElementsOf(a), ElementsOf(b), AllElements(rest));
        ClosedBehind(vs);
      } else {
        ElementsOpen(a, [SP] + b);
      }
    }
  }

  lemma SameBehind(x: seq<bytes>, y: seq<bytes>, z: seq<bytes>)
    ensures x + y == x + z <==> y == z
  {
    if x + y == x + z {
      assert (x + y)[|x|..] == y && (x + z)[|x|..] == z;
    }
  }

  lemma ClosedBehind(vs: seq<bytes>)
    requires |vs| > 1 && Closed(vs[0])
    ensures AllClosed(vs) <==> AllClosed(vs[1..])
  {
    hide Closed;
    if AllClosed(vs[1..]) {
      forall i | 0 <= i < |vs| - 1 ensures Closed(vs[i]) {
        assert i > 0 ==> vs[1..][i - 1] == vs[i];
      }
    }
    if AllClosed(vs) {
      forall i | 0 <= i < |vs[1..]| - 1 ensures Closed(vs[1..][i]) {
        assert vs[1..][i] == vs[i + 1];
      }
    }
  }

  // ---------------------------------------------------------------- the lines of one name

  /** The values of the lines of that name, from the `j`th line on, each as it stands. */
  function TextsOf(hs: seq<Header>, name: bytes, j: nat): seq<bytes>
    requires j <= |hs|
    decreases |hs| - j
  {
    if j == |hs| then []
    else (if SameName(name, hs[j].name) then [hs[j].value] else []) + TextsOf(hs, name, j + 1)
  }

  lemma SameCoalescing(a: bytes, b: bytes)
    requires SameName(a, b)
    ensures NonCoalescing(a) <==> NonCoalescing(b)
  {
    hide Spells;
  }

  lemma EmptyElements()
    ensures ElementsOf([]) == [[]]
  {
  }

  lemma ListValues(h: Header, name: bytes)
    requires SameName(name, h.name) && !NonCoalescing(name)
    ensures Values(h) == ElementsOf(h.value)
  {
    hide NonCoalescing, Commas, Cut;
    SameCoalescing(name, h.name);
    EmptyElements();
  }

  lemma {:induction false} ValuesAreElements(hs: seq<Header>, name: bytes, j: nat)
    requires j <= |hs| && !NonCoalescing(name)
    ensures ValuesOf(hs, name, j) == AllElements(TextsOf(hs, name, j))
    decreases |hs| - j
  {
    hide Values, ElementsOf, NonCoalescing, SameName;
    if j < |hs| {
      ValuesAreElements(hs, name, j + 1);
      var rest := TextsOf(hs, name, j + 1);
      if SameName(name, hs[j].name) {
        ListValues(hs[j], name);
        assert ([hs[j].value] + rest)[1..] == rest;
      } else {
        assert [] + rest == rest && [] + ValuesOf(hs, name, j + 1) == ValuesOf(hs, name, j + 1);
      }
    }
  }

  predicate AllValuesTrimmed(hs: seq<Header>) { forall i | 0 <= i < |hs| :: IsTrimmed(hs[i].value) }

  lemma {:induction false} TextsTrimmed(hs: seq<Header>, name: bytes, j: nat)
    requires j <= |hs| && AllValuesTrimmed(hs)
    ensures AllTrimmed(TextsOf(hs, name, j))
    decreases |hs| - j
  {
    hide IsTrimmed, SameName;
    if j < |hs| {
      TextsTrimmed(hs, name, j + 1);
    }
  }

  /** A normalized header has the values of its lines if and only if no line but the last leaves a quoted
      string open. */
  lemma NormalizedIff(hs: seq<Header>, name: bytes)
    requires AllValuesTrimmed(hs) && !SingleValued(name) && TextsOf(hs, name, 0) != []
    ensures ElementsOf(Join(TextsOf(hs, name, 0))) == ValuesOf(hs, name, 0) <==> AllClosed(TextsOf(hs, name, 0))
  {
    hide ElementsOf, Join, ValuesOf, TextsOf, AllClosed, SingleValued, NonCoalescing, AllTrimmed;
    NonCoalescingIff(name);
    ValuesAreElements(hs, name, 0);
    TextsTrimmed(hs, name, 0);
    JoinIff(TextsOf(hs, name, 0));
  }

  /** The values of header lines have no blanks around them. */
  lemma LinesTrimmed(raw: bytes, xs: seq<HeaderSpan>)
    requires AllGood(raw, xs)
    ensures AllValuesTrimmed(Headers(raw, xs))
  {
    forall i | 0 <= i < |xs| ensures IsTrimmed(Headers(raw, xs)[i].value) {
      var x := xs[i];
      var v := Headers(raw, xs)[i].value;
      assert TrimmedSpan(raw, x);
      assert v != [] ==> v[0] == raw[x.begin + x.cut.valueBegin] && v[|v| - 1] == raw[x.begin + x.cut.valueEnd - 1];
    }
  }

  lemma {:induction false} TextsPassed(hs: seq<Header>, name: bytes, j: nat, k: nat)
    requires j <= k <= |hs| && forall i | j <= i < k :: !SameName(name, hs[i].name)
    ensures TextsOf(hs, name, j) == TextsOf(hs, name, k)
    decreases k - j
  {
    hide SameName;
    if j < k {
      TextsPassed(hs, name, j + 1, k);
    }
  }

  lemma JoinMore(done: seq<bytes>, v: bytes)
    ensures Join(done + [v]) == if done == [] then v else Join(done) + SEPARATOR + v
  {
    assert (done + [v])[..|done|] == done;
  }

  lemma TextsNext(hs: seq<Header>, name: bytes, k: nat)
    requires k < |hs| && SameName(name, hs[k].name)
    ensures TextsOf(hs, name, k) == [hs[k].value] + TextsOf(hs, name, k + 1)
  {
  }
}
