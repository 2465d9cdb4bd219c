/** What an update means for each header name. */
module ResponseUpdate {
  import opened Ascii
  import opened HttpText
  import opened ResponseTexts

  /** The list that `Update` leaves. */
  function Updated(hs: seq<Header>, newer: seq<Header>): seq<Header> {
    Updatable(newer) + Without(hs, LowerNames(Updatable(newer)))
  }

  /** The names, in any case, of headers that an update does not take from the new response: those
      of the connection, those that say what the stored body is, and a few more. */
  predicate NeverUpdated(name: bytes) {
    var n := LowerAll(name);
    IsListed(n) || BeginsWith(n, "x-content-") || BeginsWith(n, "x-webkit-")
  }

  predicate IsListed(n: bytes) {
    || Spells(n, "connection") || Spells(n, "proxy-connection") || Spells(n, "keep-alive")
    || Spells(n, "www-authenticate") || Spells(n, "proxy-authenticate") || Spells(n, "proxy-authorization")
    || Spells(n, "te") || Spells(n, "trailer") || Spells(n, "transfer-encoding")
    || Spells(n, "upgrade") || Spells(n, "content-location") || Spells(n, "content-md5")
    || Spells(n, "etag") || Spells(n, "content-encoding") || Spells(n, "content-range")
    || Spells(n, "content-type") || Spells(n, "content-length") || Spells(n, "x-frame-options")
    || Spells(n, "x-xss-protection")
  }

  predicate BeginsWith(n: bytes, lit: string) { |lit| <= |n| && forall i | 0 <= i < |lit| :: n[i] == lit[i] as int }

  lemma ShouldUpdateIff(name: bytes)
    ensures ShouldUpdate(name) <==> !NeverUpdated(name)
  {
    hide LowerAll, Spells, OneOf, IsListed, StartsWith, BeginsWith;
    ListedIs(name);
    assert NON_UPDATED_PREFIXES[0] == "x-content-" && NON_UPDATED_PREFIXES[1] == "x-webkit-";
    PrefixIs(name, "x-content-");
    PrefixIs(name, "x-webkit-");
  }

  lemma ListedIs(name: bytes)
    ensures OneOf(name, NON_UPDATED) <==> IsListed(LowerAll(name))
  {
    hide LowerAll, Spells;
    assert NON_UPDATED[0] == "connection";
    assert NON_UPDATED[1] == "proxy-connection";
    assert NON_UPDATED[2] == "keep-alive";
    assert NON_UPDATED[3] == "www-authenticate";
    assert NON_UPDATED[4] == "proxy-authenticate";
    assert NON_UPDATED[5] == "proxy-authorization";
    assert NON_UPDATED[6] == "te";
    assert NON_UPDATED[7] == "trailer";
    assert NON_UPDATED[8] == "transfer-encoding";
    assert NON_UPDATED[9] == "upgrade";
    assert NON_UPDATED[10] == "content-location";
    assert NON_UPDATED[11] == "content-md5";
    assert NON_UPDATED[12] == "etag";
    assert NON_UPDATED[13] == "content-encoding";
    assert NON_UPDATED[14] == "content-range";
    assert NON_UPDATED[15] == "content-type";
    assert NON_UPDATED[16] == "content-length";
    assert NON_UPDATED[17] == "x-frame-options";
    assert NON_UPDATED[18] == "x-xss-protection";
  }

  lemma PrefixIs(name: bytes, lit: string)
    ensures StartsWith(name, lit) <==> BeginsWith(LowerAll(name), lit)
  {
    hide LowerAll;
  }

  /** The headers of one name, in order. */
  function Named(hs: seq<Header>, name: bytes): seq<Header> {
    if hs == [] then []
    else
      var n := |hs| - 1;
      Named(hs[..n], name) + if LowerAll(hs[n].name) == LowerAll(name) then [hs[n]] else []
  }

  lemma {:induction false} NamedConcat(a: seq<Header>, b: seq<Header>, name: bytes)
    ensures Named(a + b, name) == Named(a, name) + Named(b, name)
  {
    if b == [] {
      assert a + b == a;
    } else {
      var n := |b| - 1;
      NamedConcat(a, b[..n], name);
      assert (a + b)[..|a| + n] == a + b[..n];
    }
  }

  lemma NamedOne(h: Header, name: bytes)
    ensures Named([h], name) == if LowerAll(h.name) == LowerAll(name) then [h] else []
  {
    hide LowerAll;
    assert [h][..0] == [];
  }

  lemma {:induction false} WithoutConcat(a: seq<Header>, b: seq<Header>, names: set<bytes>)
    ensures Without(a + b, names) == Without(a, names) + Without(b, names)
  {
    if b == [] {
      assert a + b == a;
    } else {
      var n := |b| - 1;
      WithoutConcat(a, b[..n], names);
      assert (a + b)[..|a| + n] == a + b[..n];
    }
  }

  lemma {:induction false} NamedWithout(hs: seq<Header>, names: set<bytes>, name: bytes)
    ensures Named(Without(hs, names), name) == if LowerAll(name) in names then [] else Named(hs, name)
  {
    hide LowerAll;
    if hs != [] {
      var n := |hs| - 1;
      NamedWithout(hs[..n], names, name);
      var w := Without(hs[..n], names);
      NamedConcat(w, [hs[n]], name);
      NamedOne(hs[n], name);
      assert Without(hs, names) == if LowerAll(hs[n].name) !in names then w + [hs[n]] else w;
    }
  }

  lemma {:induction false} NamedUpdatable(hs: seq<Header>, name: bytes)
    ensures Named(Updatable(hs), name) == if ShouldUpdate(name) then Named(hs, name) else []
  {
    hide LowerAll, ShouldUpdate;
    if hs != [] {
      var n := |hs| - 1;
      NamedUpdatable(hs[..n], name);
      var us := Updatable(hs[..n]);
      NamedConcat(us, [hs[n]], name);
      NamedOne(hs[n], name);
      assert Updatable(hs) == if ShouldUpdate(hs[n].name) then us + [hs[n]] else us;
      if LowerAll(hs[n].name) == LowerAll(name) {
        SameCase(hs[n].name, name);
      }
    }
  }

  /** Whether a name is updatable does not depend on its case. */
  lemma SameCase(a: bytes, b: bytes)
    requires LowerAll(a) == LowerAll(b)
    ensures ShouldUpdate(a) == ShouldUpdate(b)
  {
  }

  lemma LowerNamesSnoc(hs: seq<Header>, h: Header)
    ensures LowerNames(hs + [h]) == LowerNames(hs) + {LowerAll(h.name)} && hs + [] == hs
  {
    var gs := hs + [h];
    forall n | n in LowerNames(gs) ensures n in LowerNames(hs) + {LowerAll(h.name)} {
    }
    forall n | n in LowerNames(hs) + {LowerAll(h.name)} ensures n in LowerNames(gs) {
      if n in LowerNames(hs) {
        var i :| 0 <= i < |hs| && n == LowerAll(hs[i].name);
        assert gs[i] == hs[i];
      } else {
        assert gs[|hs|] == h;
      }
    }
  }

  lemma {:induction false} NamedIsEmpty(hs: seq<Header>, name: bytes)
    ensures Named(hs, name) == [] <==> LowerAll(name) !in LowerNames(hs)
  {
    hide LowerAll;
    if hs != [] {
      var n := |hs| - 1;
      NamedIsEmpty(hs[..n], name);
      assert hs == hs[..n] + [hs[n]];
      LowerNamesSnoc(hs[..n], hs[n]);
    }
  }

  /** For each name the headers after an update are those of the new response, when that has any
      and the name may be updated, and otherwise those there were. */
  lemma UpdateByName(hs: seq<Header>, newer: seq<Header>, name: bytes)
    ensures Named(Updated(hs, newer), name)
            == if ShouldUpdate(name) && Named(newer, name) != [] then Named(newer, name) else Named(hs, name)
  {
    hide ShouldUpdate, LowerAll, LowerNames, Named, Without, Updatable;
    var us := Updatable(newer);
    NamedConcat(us, Without(hs, LowerNames(us)), name);
    NamedWithout(hs, LowerNames(us), name);
    NamedUpdatable(newer, name);
    NamedIsEmpty(us, name);
  }

  /** The same with the names written out. */
  lemma UpdateKeepsNames(hs: seq<Header>, newer: seq<Header>, name: bytes)
    ensures Named(Updated(hs, newer), name)
            == if !NeverUpdated(name) && Named(newer, name) != [] then Named(newer, name) else Named(hs, name)
  {
    hide ShouldUpdate, NeverUpdated, Named, Updated;
    ShouldUpdateIff(name);
    UpdateByName(hs, newer, name);
  }

  lemma {:induction false} NoneLeft(hs: seq<Header>, names: set<bytes>)
    requires LowerNames(hs) <= names
    ensures Without(hs, names) == []
  {
    hide LowerAll;
    if hs != [] {
      var n := |hs| - 1;
      assert hs == hs[..n] + [hs[n]];
      LowerNamesSnoc(hs[..n], hs[n]);
      NoneLeft(hs[..n], names);
    }
  }

  lemma {:induction false} WithoutTwice(hs: seq<Header>, names: set<bytes>)
    ensures Without(Without(hs, names), names) == Without(hs, names)
  {
    hide LowerAll;
    if hs != [] {
      var n := |hs| - 1;
      WithoutTwice(hs[..n], names);
      var w := Without(hs[..n], names);
      assert (w + [hs[n]])[..|w|] == w;
      assert Without(hs, names) == if LowerAll(hs[n].name) !in names then w + [hs[n]] else w;
    }
  }

  /** The same update again changes nothing. */
  lemma UpdateTwice(hs: seq<Header>, newer: seq<Header>)
    ensures Updated(Updated(hs, newer), newer) == Updated(hs, newer)
  {
    hide LowerAll, LowerNames, Without, Updatable;
    var us := Updatable(newer);
    var names := LowerNames(us);
    WithoutConcat(us, Without(hs, names), names);
    NoneLeft(us, names);
    WithoutTwice(hs, names);
  }
}
