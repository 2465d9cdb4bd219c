/** Quoted strings, section 2.2 of RFC 2616: `Quote`, `Unquote` and `StrictUnquote` of
    src/http_parser/http_util.cc. */
module Quoting {
  import opened Ascii

  const QUOTE: byte := '"' as int
  const BACKSLASH: byte := '\\' as int

  datatype Option<T> = None | Some(value: T)

  predicate Special(b: byte) { b == QUOTE || b == BACKSLASH }

  /** The text with every quote mark and backslash escaped. */
  function Escaped(s: bytes): bytes {
    if s == [] then []
    else (if Special(s[0]) then [BACKSLASH, s[0]] else [s[0]]) + Escaped(s[1..])
  }

  /** The text that a sequence of bytes and quoted pairs stands for; a backslash with nothing
      after it stands for nothing. */
  function Unescaped(s: bytes): bytes {
    if s == [] then []
    else if s[0] != BACKSLASH then [s[0]] + Unescaped(s[1..])
    else if |s| == 1 then []
    else [s[1]] + Unescaped(s[2..])
  }

  /** Bytes other than quote marks and backslashes, and quoted pairs, one after the other. */
  predicate Pairs(s: bytes) {
    if s == [] then true
    else if s[0] == BACKSLASH then |s| > 1 && Pairs(s[2..])
    else s[0] != QUOTE && Pairs(s[1..])
  }

  // ---------------------------------------------------------------- escaping is undone

  lemma {:induction false} UnescapedEscaped(s: bytes)
    ensures Unescaped(Escaped(s)) == s && Pairs(Escaped(s))
  {
    if s != [] {
      UnescapedEscaped(s[1..]);
      var e := Escaped(s);
      if Special(s[0]) {
        assert e[1] == s[0] && e[2..] == Escaped(s[1..]);
      } else {
        assert e[1..] == Escaped(s[1..]);
      }
    }
  }

  /** How many backslashes end at position `i`. */
  function Run(s: bytes, i: nat): nat
    requires i <= |s|
  {
    if i == 0 || s[i - 1] != BACKSLASH then 0 else 1 + Run(s, i - 1)
  }

  predicate Escapes(s: bytes, i: nat)
    requires i <= |s|
  {
    Run(s, i) % 2 == 1
  }

  lemma {:induction false} RunAfter(s: bytes, k: nat, i: nat)
    requires k <= i <= |s| && Run(s, k) % 2 == 0
    ensures Escapes(s, i) == Escapes(s[k..], i - k)
  {
    if i > k && s[i - 1] == BACKSLASH {
      RunAfter(s, k, i - 1);
    }
  }

  /** Every quote mark is escaped, and so is not what follows the text. */
  predicate QuotesEscaped(s: bytes) {
    (forall i | 0 <= i < |s| && s[i] == QUOTE :: Escapes(s, i)) && !Escapes(s, |s|)
  }

  lemma EscapedAfter(s: bytes, k: nat)
    requires k <= |s| && Run(s, k) % 2 == 0
    requires forall i | 0 <= i < k && s[i] == QUOTE :: Escapes(s, i)
    ensures QuotesEscaped(s) == QuotesEscaped(s[k..])
  {
    var t := s[k..];
    forall i | k <= i <= |s|
      ensures Escapes(s, i) == Escapes(t, i - k)
    {
      RunAfter(s, k, i);
    }
    if QuotesEscaped(t) {
      forall i | k <= i < |s| && s[i] == QUOTE ensures Escapes(s, i) {
        assert t[i - k] == QUOTE;
      }
    }
    if QuotesEscaped(s) {
      forall i | 0 <= i < |t| && t[i] == QUOTE ensures Escapes(t, i) {
        assert s[i + k] == QUOTE;
        RunAfter(s, k, i + k);
      }
    }
  }

  /** The two ways to say it: as a sequence of pairs, and by the parity of the backslashes before
      each quote mark. */
  lemma {:induction false} PairsIffQuotesEscaped(s: bytes)
    ensures Pairs(s) <==> QuotesEscaped(s)
  {
    if s == [] {
    } else if s[0] == BACKSLASH {
      assert Run(s, 1) == 1 + Run(s, 0);
      if |s| > 1 {
        PairsIffQuotesEscaped(s[2..]);
        if s[1] == BACKSLASH { assert Run(s, 2) == 1 + Run(s, 1); }
        EscapedAfter(s, 2);
      }
    } else if s[0] == QUOTE {
      assert !Escapes(s, 0);
    } else {
      PairsIffQuotesEscaped(s[1..]);
      EscapedAfter(s, 1);
    }
  }

  // ---------------------------------------------------------------- the loops

  /** What is left to read at a point of the loop, with the backslash that waits for its byte. */
  function Rest(s: bytes, i: nat, prevEscape: bool): bytes
    requires i <= |s|
  {
    (if prevEscape then [BACKSLASH] else []) + s[i..]
  }

  lemma RestStep(s: bytes, i: nat, prevEscape: bool)
    requires i < |s|
    ensures s[i] == BACKSLASH && !prevEscape ==> Rest(s, i + 1, true) == Rest(s, i, false)
    ensures s[i] != BACKSLASH || prevEscape ==>
              && Unescaped(Rest(s, i, prevEscape)) == [s[i]] + Unescaped(Rest(s, i + 1, false))
              && Pairs(Rest(s, i, prevEscape)) == ((prevEscape || s[i] != QUOTE) && Pairs(Rest(s, i + 1, false)))
  {
    var r := Rest(s, i, prevEscape);
    assert Rest(s, i + 1, false) == s[i + 1..];
    if prevEscape {
      assert r[1] == s[i] && r[2..] == s[i + 1..];
    } else {
      assert r[0] == s[i] && r[1..] == s[i + 1..];
    }
  }

  lemma RestEnd(s: bytes, prevEscape: bool)
    ensures Unescaped(Rest(s, |s|, prevEscape)) == [] && Pairs(Rest(s, |s|, prevEscape)) == !prevEscape
  {
  }

  /** Begins and ends with a quote mark, which are two. */
  predicate InQuotes(str: bytes) { |str| >= 2 && str[0] == QUOTE && str[|str| - 1] == QUOTE }

  function Inner(str: bytes): bytes
    requires |str| >= 2
  {
    str[1..|str| - 1]
  }

  method UnquoteImpl(str: bytes, strictQuotes: bool) returns (out: Option<bytes>)
    ensures out.Some? <==> InQuotes(str) && (strictQuotes ==> Pairs(Inner(str)))
    ensures out.Some? ==> out.value == Unescaped(Inner(str))
  {
    if str == [] || str[0] != QUOTE || |str| < 2 || str[0] != str[|str| - 1] {
      return None;
    }
    var inner := Inner(str);
    var prevEscape := false;
    var unescaped: bytes := [];
    var i := 0;
    assert Rest(inner, 0, false) == inner;
    while i < |inner|
      invariant i <= |inner|
      invariant unescaped + Unescaped(Rest(inner, i, prevEscape)) == Unescaped(inner)
      invariant strictQuotes ==> Pairs(Rest(inner, i, prevEscape)) == Pairs(inner)
    {
      var c := inner[i];
      RestStep(inner, i, prevEscape);
      if c == BACKSLASH && !prevEscape {
        prevEscape := true;
      } else {
        if strictQuotes && !prevEscape && c == QUOTE {
          return None;
        }
        prevEscape := false;
        unescaped := unescaped + [c];
      }
      i := i + 1;
    }
    RestEnd(inner, prevEscape);
    if strictQuotes && prevEscape {
      return None;
    }
    return Some(unescaped);
  }

  method Unquote(str: bytes) returns (r: bytes)
    ensures r == if InQuotes(str) then Unescaped(Inner(str)) else str
  {
    var out := UnquoteImpl(str, false);
    r := if out.None? then str else out.value;
  }

  /** Accepts a string in quote marks when every quote mark inside is escaped and the closing one
      is not. */
  method StrictUnquote(str: bytes) returns (out: Option<bytes>)
    ensures out.Some? <==> InQuotes(str) && QuotesEscaped(Inner(str))
    ensures out.Some? ==> out.value == Unescaped(Inner(str))
  {
    out := UnquoteImpl(str, true);
    if |str| >= 2 {
      PairsIffQuotesEscaped(Inner(str));
    }
  }

  lemma {:induction false} EscapedSnoc(s: bytes, i: nat)
    requires i < |s|
    ensures Escaped(s[..i + 1]) == Escaped(s[..i]) + (if Special(s[i]) then [BACKSLASH, s[i]] else [s[i]])
  {
    if i == 0 {
      assert s[..1] == [s[0]] && s[..1][1..] == [];
    } else {
      EscapedSnoc(s[1..], i - 1);
      assert s[..i + 1][1..] == s[1..][..i] && s[..i][1..] == s[1..][..i - 1];
    }
  }

  method Quote(str: bytes) returns (escaped: bytes)
    ensures InQuotes(escaped) && Inner(escaped) == Escaped(str)
  {
    escaped := [QUOTE];
    var i := 0;
    while i < |str|
      invariant i <= |str| && escaped == [QUOTE] + Escaped(str[..i])
    {
      EscapedSnoc(str, i);
      if Special(str[i]) {
        escaped := escaped + [BACKSLASH];
      }
      escaped := escaped + [str[i]];
      i := i + 1;
    }
    assert str[..i] == str;
    escaped := escaped + [QUOTE];
  }

  /** Both ways of unquoting undo Quote. */
  method RoundTrip(str: bytes) returns (loose: bytes, strict: Option<bytes>)
    ensures loose == str && strict == Some(str)
  {
    var quoted := Quote(str);
    UnescapedEscaped(str);
    PairsIffQuotesEscaped(Escaped(str));
    loose := Unquote(quoted);
    strict := StrictUnquote(quoted);
  }

  /** Quote(Unquote(q)) == q exactly when q escapes nothing but quote marks and backslashes. */
  predicate OnlyNeeded(s: bytes) {
    if s == [] then true
    else if s[0] == BACKSLASH then |s| > 1 && Special(s[1]) && OnlyNeeded(s[2..])
    else s[0] != QUOTE && OnlyNeeded(s[1..])
  }

  lemma {:induction false} EscapedUnescaped(s: bytes)
    ensures Escaped(Unescaped(s)) == s <==> OnlyNeeded(s)
  {
    if s == [] {
    } else if s[0] != BACKSLASH {
      EscapedUnescaped(s[1..]);
      assert Unescaped(s)[1..] == Unescaped(s[1..]);
      if s[0] != QUOTE {
        assert Escaped(Unescaped(s))[1..] == Escaped(Unescaped(s[1..])) && s == [s[0]] + s[1..];
      }
    } else if |s| > 1 {
      EscapedUnescaped(s[2..]);
      assert Unescaped(s)[1..] == Unescaped(s[2..]);
      if Special(s[1]) {
        assert Escaped(Unescaped(s))[2..] == Escaped(Unescaped(s[2..])) && s == s[..2] + s[2..];
        assert s[..2] == [BACKSLASH, s[1]];
      } else {
        assert Escaped(Unescaped(s))[0] == s[1];
      }
    }
  }
}
