/** What header lines mean, defined on their text alone: recognised names, the last element of
    a comma-separated list, decimal values. These are the reference definitions that the
    header automata are compared with. */
module HttpFields {
  import opened Ascii
  import opened HttpTypes
  import opened HttpMachine
  import opened HttpClient

  // ---------------------------------------------------------------- names

  /** `w` is a proper, non-empty prefix of `word`. */
  predicate Beginning(w: bytes, word: bytes) {
    0 < |w| < |word| && w == word[..|w|]
  }

  /** The header state that a lower-cased name calls for, by comparing whole strings. */
  function NameState(w: bytes): (h: HState)
    ensures !h.Te? && !h.Conn? && !h.LengthNum? && !h.LengthWs?
  {
    if w == CONNECTION || w == PROXY_CONNECTION then HConnection
    else if w == CONTENT_LENGTH then HContentLength
    else if w == TRANSFER_ENCODING then HTransferEncoding
    else if w == UPGRADE then HUpgrade
    else if w == CONNECTION[..1] then HC
    else if w == CONNECTION[..2] then HCO
    else if w == CONNECTION[..3] then HCON
    else if Beginning(w, CONNECTION) then MatchingConnection
    else if Beginning(w, PROXY_CONNECTION) then MatchingProxyConnection
    else if Beginning(w, CONTENT_LENGTH) then MatchingContentLength
    else if Beginning(w, TRANSFER_ENCODING) then MatchingTransferEncoding
    else if Beginning(w, UPGRADE) then MatchingUpgrade
    else General
  }

  lemma PrefixSnoc(w: bytes, c: byte, word: bytes)
    ensures |w| < |word| ==>
              (w + [c] == word[..|w| + 1] <==> w == word[..|w|] && c == word[|w|])
  {
    if |w| < |word| {
      assert word[..|w| + 1] == word[..|w|] + [word[|w|]];
      if w + [c] == word[..|w| + 1] {
        assert w == (w + [c])[..|w|] == word[..|w| + 1][..|w|] == word[..|w|];
        assert c == (w + [c])[|w|] == word[|w|];
      }
    }
  }

  lemma Letters()
    ensures |CONNECTION| == 10 && |PROXY_CONNECTION| == 16 && |CONTENT_LENGTH| == 14
            && |TRANSFER_ENCODING| == 17 && |UPGRADE| == 7
    ensures CONNECTION[0] == 'c' as int && CONNECTION[1] == 'o' as int && CONNECTION[2] == 'n' as int
            && CONNECTION[3] == 'n' as int
    ensures CONTENT_LENGTH[0] == 'c' as int && CONTENT_LENGTH[1] == 'o' as int && CONTENT_LENGTH[2] == 'n' as int
            && CONTENT_LENGTH[3] == 't' as int
    ensures PROXY_CONNECTION[0] == 'p' as int && TRANSFER_ENCODING[0] == 't' as int && UPGRADE[0] == 'u' as int
    ensures CONTENT_LENGTH[..3] == CONNECTION[..3]
  {
  }

  /** Progress of a name along a single word. */
  function Spell(w: bytes, word: bytes, stay: HState, hit: HState): HState {
    if w == word then hit else if Beginning(w, word) then stay else General
  }

  lemma SpellStep(w: bytes, c: byte, word: bytes, stay: HState, hit: HState)
    requires w != [] && |word| > 1
    ensures Beginning(w, word) ==> Match(word, |w|, c, General, stay, hit) == Spell(w + [c], word, stay, hit)
    ensures !Beginning(w, word) ==> Spell(w + [c], word, stay, hit) == General
  {
    PrefixSnoc(w, c, word);
    assert word[..|word|] == word;
    if w + [c] == word {
      assert |w| < |word| && w + [c] == word[..|w| + 1];
    }
  }

  /** The first letter leaves at most one word, two for 'c'. */
  lemma NameStateByLetter(w: bytes)
    requires w != []
    ensures w[0] == 'p' as int ==> NameState(w) == Spell(w, PROXY_CONNECTION, MatchingProxyConnection, HConnection)
    ensures w[0] == 't' as int ==>
              NameState(w) == Spell(w, TRANSFER_ENCODING, MatchingTransferEncoding, HTransferEncoding)
    ensures w[0] == 'u' as int ==> NameState(w) == Spell(w, UPGRADE, MatchingUpgrade, HUpgrade)
    ensures w[0] == 'c' as int && |w| > 3 && w[3] == 'n' as int ==>
              NameState(w) == Spell(w, CONNECTION, MatchingConnection, HConnection)
    ensures w[0] == 'c' as int && |w| > 3 && w[3] == 't' as int ==>
              NameState(w) == Spell(w, CONTENT_LENGTH, MatchingContentLength, HContentLength)
    ensures w[0] == 'c' as int && |w| > 3 && w[3] != 'n' as int && w[3] != 't' as int ==> NameState(w) == General
    ensures w[0] == 'c' as int && |w| <= 3 ==>
              NameState(w) == if w != CONNECTION[..|w|] then General
                              else if |w| == 1 then HC else if |w| == 2 then HCO else HCON
    ensures w[0] != 'p' as int && w[0] != 't' as int && w[0] != 'u' as int && w[0] != 'c' as int
            ==> NameState(w) == General
  {
    hide CONNECTION, PROXY_CONNECTION, CONTENT_LENGTH, TRANSFER_ENCODING, UPGRADE;
    Letters();
  }

  /** The name automaton refines string comparison, one byte at a time. */
  lemma NameStep(w: bytes, c: byte)
    requires w != []
    ensures NameByte(NameState(w), |w| - 1, c) == NameState(w + [c])
  {
    hide CONNECTION, PROXY_CONNECTION, CONTENT_LENGTH, TRANSFER_ENCODING, UPGRADE, NameState, Match;
    Letters();
    NameStateByLetter(w);
    NameStateByLetter(w + [c]);
    assert (w + [c])[0] == w[0];
    if w[0] == 'p' as int {
      SpellStep(w, c, PROXY_CONNECTION, MatchingProxyConnection, HConnection);
    } else if w[0] == 't' as int {
      SpellStep(w, c, TRANSFER_ENCODING, MatchingTransferEncoding, HTransferEncoding);
    } else if w[0] == 'u' as int {
      SpellStep(w, c, UPGRADE, MatchingUpgrade, HUpgrade);
    } else if w[0] == 'c' as int && |w| > 3 {
      assert (w + [c])[3] == w[3];
      SpellStep(w, c, CONNECTION, MatchingConnection, HConnection);
      SpellStep(w, c, CONTENT_LENGTH, MatchingContentLength, HContentLength);
    } else if w[0] == 'c' as int {
      PrefixSnoc(w, c, CONNECTION);
      PrefixSnoc(w, c, CONTENT_LENGTH);
    }
  }

  predicate Named(f: HeaderLine, word: bytes) { LowerAll(f.name) == word }

  /** The name has "transfer-encoding" as a prefix, ignoring case. */
  predicate TePrefixed(f: HeaderLine) {
    |f.name| >= |TRANSFER_ENCODING| && LowerAll(f.name)[..|TRANSFER_ENCODING|] == TRANSFER_ENCODING
  }

  // ---------------------------------------------------------------- lists

  function AfterLastComma(v: bytes): bytes {
    if v == [] || v[|v| - 1] == ',' as int then []
    else AfterLastComma(v[..|v| - 1]) + [v[|v| - 1]]
  }

  function TrimLeft(s: bytes): bytes {
    if s != [] && IsBlank(s[0]) then TrimLeft(s[1..]) else s
  }

  function TrimRight(s: bytes): bytes {
    if s != [] && IsBlank(s[|s| - 1]) then TrimRight(s[..|s| - 1]) else s
  }

  /** The last comma-separated element of a value, without blanks around it, lower-cased. */
  function LastElement(v: bytes): bytes {
    LowerAll(TrimRight(TrimLeft(AfterLastComma(v))))
  }

  /** A Transfer-Encoding line whose last coding is "chunked". */
  predicate EndsInChunked(f: HeaderLine) {
    Named(f, TRANSFER_ENCODING) && LastElement(f.value) == CHUNKED
  }

  lemma {:induction false} TrimLeftSnoc(s: bytes, b: byte)
    ensures TrimLeft(s + [b]) ==
            if TrimLeft(s) == [] then (if IsBlank(b) then [] else [b]) else TrimLeft(s) + [b]
  {
    if s == [] {
      assert s + [b] == [b];
      assert [b][1..] == [];
    } else if IsBlank(s[0]) {
      assert (s + [b])[1..] == s[1..] + [b];
      TrimLeftSnoc(s[1..], b);
    }
  }

  /** The element under way in a list, leading blanks dropped. */
  function Current(v: bytes): bytes { TrimLeft(AfterLastComma(v)) }

  lemma CurrentSnoc(v: bytes, b: byte)
    ensures Current(v + [b]) ==
            if b == ',' as int || (Current(v) == [] && IsBlank(b)) then [] else Current(v) + [b]
  {
    assert (v + [b])[..|v|] == v;
    if b != ',' as int {
      TrimLeftSnoc(AfterLastComma(v), b);
    }
  }

  // ---------------------------------------------------------------- numbers

  predicate AllDigits(s: bytes) { forall i | 0 <= i < |s| :: IsNum(s[i]) }

  predicate AllBlank(s: bytes) { forall i | 0 <= i < |s| :: IsBlank(s[i]) }

  function Decimal(s: bytes): nat
    requires AllDigits(s)
  {
    if s == [] then 0 else 10 * Decimal(s[..|s| - 1]) + (s[|s| - 1] - '0' as int)
  }

  /** `digits` followed by blanks is the value of a Content-Length line declaring n. */
  predicate LengthText(v: bytes, k: nat, n: nat) {
    0 < k <= |v| && AllDigits(v[..k]) && AllBlank(v[k..]) && Decimal(v[..k]) == n
  }

  /** A Content-Length line whose text is the decimal numeral of n, blanks after it allowed. */
  ghost predicate DeclaresLength(f: HeaderLine, n: nat) {
    Named(f, CONTENT_LENGTH) && exists k :: LengthText(f.value, k, n)
  }

  // ---------------------------------------------------------------- header sections

  ghost predicate AnyTe(fs: seq<HeaderLine>) {
    exists i | 0 <= i < |fs| :: TePrefixed(fs[i])
  }

  ghost predicate AnyChunked(fs: seq<HeaderLine>) {
    exists i | 0 <= i < |fs| :: EndsInChunked(fs[i])
  }

  ghost predicate AnyLength(fs: seq<HeaderLine>, n: nat) {
    exists i | 0 <= i < |fs| :: DeclaresLength(fs[i], n)
  }

  ghost predicate AnyLengthLine(fs: seq<HeaderLine>) {
    exists i | 0 <= i < |fs| :: Named(fs[i], CONTENT_LENGTH)
  }

  /** No two Content-Length lines. */
  ghost predicate OneLengthLine(fs: seq<HeaderLine>) {
    forall i, j | 0 <= i < j < |fs| :: !(Named(fs[i], CONTENT_LENGTH) && Named(fs[j], CONTENT_LENGTH))
  }

  lemma LengthLineSplit(fs: seq<HeaderLine>)
    requires fs != []
    ensures AnyLengthLine(fs) <==> AnyLengthLine(fs[..|fs| - 1]) || Named(fs[|fs| - 1], CONTENT_LENGTH)
    ensures OneLengthLine(fs) <==>
              OneLengthLine(fs[..|fs| - 1]) && !(Named(fs[|fs| - 1], CONTENT_LENGTH) && AnyLengthLine(fs[..|fs| - 1]))
  {
    hide Named;
    var init := fs[..|fs| - 1];
    assert forall i | 0 <= i < |init| :: init[i] == fs[i];
    if i :| 0 <= i < |fs| && Named(fs[i], CONTENT_LENGTH) {
      assert i < |init| ==> Named(init[i], CONTENT_LENGTH);
    }
    if i :| 0 <= i < |init| && Named(init[i], CONTENT_LENGTH) {
      assert Named(fs[i], CONTENT_LENGTH);
    }
  }

  lemma AnySplit(fs: seq<HeaderLine>, n: nat)
    requires fs != []
    ensures AnyTe(fs) <==> AnyTe(fs[..|fs| - 1]) || TePrefixed(fs[|fs| - 1])
    ensures AnyLength(fs, n) <==> AnyLength(fs[..|fs| - 1], n) || DeclaresLength(fs[|fs| - 1], n)
    ensures AnyChunked(fs[..|fs| - 1]) || EndsInChunked(fs[|fs| - 1]) ==> AnyChunked(fs)
  {
    hide TePrefixed, DeclaresLength, EndsInChunked;
    var init, last := fs[..|fs| - 1], fs[|fs| - 1];
    assert forall i | 0 <= i < |init| :: init[i] == fs[i];
    if i :| 0 <= i < |init| && TePrefixed(init[i]) {
      assert TePrefixed(fs[i]);
    }
    if i :| 0 <= i < |fs| && TePrefixed(fs[i]) {
      assert i < |init| ==> TePrefixed(init[i]);
    }
    if i :| 0 <= i < |init| && DeclaresLength(init[i], n) {
      assert DeclaresLength(fs[i], n);
    }
    if i :| 0 <= i < |fs| && DeclaresLength(fs[i], n) {
      assert i < |init| ==> DeclaresLength(init[i], n);
    }
    if i :| 0 <= i < |init| && EndsInChunked(init[i]) {
      assert EndsInChunked(fs[i]);
    }
  }
}
