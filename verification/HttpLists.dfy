/** Lists in Connection and Transfer-Encoding lines, as texts: which elements of a value the parser
    recognises, told element by element, and how that changes with one item more. */
module HttpLists {
  import opened Ascii
  import opened HttpTypes
  import opened HttpMachine
  import opened HttpInvariant
  import opened HttpConnection

  // ---------------------------------------------------------------- the text of a value

  /** The two headers whose values the parser reads as lists; Proxy-Connection is the first. */
  datatype Header = Connection | TransferEncoding

  datatype Word = NoWord | KeepAlive | Close | Upgrade | Chunked

  function Spelled(w: Word): bytes {
    match w
    case NoWord => []
    case KeepAlive => KEEP_ALIVE
    case Close => CLOSE
    case Upgrade => UPGRADE
    case Chunked => CHUNKED
  }

  /** The word of a header that begins with a letter. */
  function WordFor(h: Header, c: byte): Word {
    if h.TransferEncoding? then if c == 'c' as int then Chunked else NoWord
    else if c == 'k' as int then KeepAlive
    else if c == 'c' as int then Close
    else if c == 'u' as int then Upgrade
    else NoWord
  }

  /** A byte of a value, or a line break inside it with the blank that opens the folded line. */
  datatype Item = Plain(b: byte) | Fold(b: byte, bare: bool)

  predicate IsValue(v: seq<Item>) {
    forall i | 0 <= i < |v| :: if v[i].Plain? then v[i].b != CR && v[i].b != LF else IsBlank(v[i].b)
  }

  function Break(bare: bool): bytes { if bare then [LF] else [CR, LF] }

  function Bytes(i: Item): bytes { if i.Plain? then [i.b] else Break(i.bare) + [i.b] }

  function Raw(v: seq<Item>): bytes {
    if v == [] then [] else Raw(v[..|v| - 1]) + Bytes(v[|v| - 1])
  }

  predicate IsComma(i: Item) { i == Plain(COMMA) }

  /** What follows the last comma. */
  function Element(v: seq<Item>): seq<Item> {
    if v == [] || IsComma(v[|v| - 1]) then [] else Element(v[..|v| - 1]) + [v[|v| - 1]]
  }

  /** How an element begins: as the first of the value, after a comma that was seen, after a comma
      that was taken for a part of the element before, or after recognition has ended. */
  datatype Mode = First | Fresh | Inside | Lost

  /** What the parser makes of an element as far as it goes: nothing yet, the beginning of a word,
      a word and spaces, something else, or the end of recognition. */
  datatype Reading = Nothing | Start | Part(w: Word, n: nat) | Whole(w: Word) | Other | Gone

  predicate Strips(m: Mode, i: Item) { i.Fold? || i.b == SP || (m.First? && i.b == HT) }

  /** An element without what goes before its first byte. */
  function Stripped(m: Mode, x: seq<Item>): seq<Item> {
    if x == [] then []
    else
      var y, i := Stripped(m, x[..|x| - 1]), x[|x| - 1];
      if y == [] && Strips(m, i) then [] else y + [i]
  }

  predicate HasFold(x: seq<Item>) { exists i | 0 <= i < |x| :: x[i].Fold? }

  function Chars(x: seq<Item>): bytes { seq(|x|, i requires 0 <= i < |x| => x[i].b) }

  function DropSpaces(s: bytes): bytes {
    if s != [] && s[|s| - 1] == SP then DropSpaces(s[..|s| - 1]) else s
  }

  /** The text of an element against the word that its first letter selects, ignoring case. */
  function Compared(h: Header, s: bytes): Reading
    requires s != []
  {
    var w := WordFor(h, Lower(s[0]));
    if |s| < |Spelled(w)| && LowerAll(s) == Spelled(w)[..|s|] then Part(w, |s|)
    else if !w.NoWord? && LowerAll(DropSpaces(s)) == Spelled(w) then Whole(w)
    else Other
  }

  function Read(h: Header, m: Mode, x: seq<Item>): Reading {
    if m.Lost? then Gone
    else if m.Inside? then if HasFold(x) then Gone else Other
    else
      var y := Stripped(m, x);
      if y == [] then if m.First? then Nothing else Start
      else if HasFold(y) || (m.Fresh? && !IsToken(SetBit5(y[0].b))) then Gone
      else Compared(h, Chars(y))
  }

  /** How the next element begins. A comma is missed where nothing has been read, and where it ends
      the match of a word: inside it, or right after "chunked". */
  function NextMode(h: Header, r: Reading): Mode {
    match r
    case Nothing => Inside
    case Start => Lost
    case Part(_, _) => Inside
    case Whole(_) => if h.Connection? then Fresh else Inside
    case Other => Fresh
    case Gone => Lost
  }

  function ModeOf(h: Header, v: seq<Item>): Mode {
    if v == [] then First
    else
      var init := v[..|v| - 1];
      if IsComma(v[|v| - 1]) then NextMode(h, Read(h, ModeOf(h, init), Element(init))) else ModeOf(h, init)
  }

  /** What the parser makes of the last element of a value. */
  function LastRead(h: Header, v: seq<Item>): Reading { Read(h, ModeOf(h, v), Element(v)) }

  /** Some element before the last is the word. */
  predicate Earlier(h: Header, v: seq<Item>, w: Word) {
    exists i | 0 <= i < |v| :: IsComma(v[i]) && LastRead(h, v[..i]) == Whole(w)
  }

  // ---------------------------------------------------------------- one item more

  function NextRead(h: Header, r: Reading, i: Item): Reading {
    if r.Gone? then Gone
    else if r.Nothing? then
      if i.Fold? || IsBlank(i.b) then Nothing
      else Opened(h, i.b)
    else if r.Start? then
      if i.Fold? || i.b == SP then Start
      else if !IsToken(SetBit5(i.b)) then Gone
      else Opened(h, i.b)
    else if i.Fold? then Gone
    else if r.Part? then
      if r.n < |Spelled(r.w)| && Lower(i.b) == Spelled(r.w)[r.n]
      then if r.n + 1 == |Spelled(r.w)| then Whole(r.w) else Part(r.w, r.n + 1)
      else Other
    else if r.Whole? then
      if i.b == SP then r else if i.b == COMMA && h.Connection? then Start else Other
    else if i.b == COMMA then Start else Other
  }

  /** The first byte of an element. */
  function Opened(h: Header, b: byte): Reading {
    var w := WordFor(h, Lower(b));
    if w.NoWord? then Other else Part(w, 1)
  }

  lemma Spellings(w: Word)
    ensures AllLetters(Spelled(w)) && (if w.NoWord? then Spelled(w) == [] else |Spelled(w)| > 1)
  {
  }

  lemma FirstLetters(h: Header, c: byte)
    ensures var w := WordFor(h, c); !w.NoWord? ==> Spelled(w)[0] == c
  {
  }

  lemma OneChar(h: Header, b: byte)
    ensures Compared(h, [b]) == Opened(h, b)
  {
    hide WordFor, Spelled;
    var w := WordFor(h, Lower(b));
    Spellings(w);
    FirstLetters(h, Lower(b));
    assert LowerAll([b]) == [Lower(b)];
    assert !w.NoWord? ==> Spelled(w)[..1] == [Spelled(w)[0]];
    assert |DropSpaces([b])| <= 1;
  }

  lemma {:induction false} DropSpacesOf(s: bytes, b: byte)
    ensures DropSpaces(s + [b]) == if b == SP then DropSpaces(s) else s + [b]
    ensures |DropSpaces(s)| <= |s|
  {
    assert (s + [b])[..|s|] == s;
    if s != [] {
      DropSpacesOf(s[..|s| - 1], b);
    }
  }

  /** Spelled only, so no spaces are dropped. */
  lemma NoSpaces(s: bytes, w: bytes)
    requires s != [] && AllLetters(w) && |s| <= |w| && LowerAll(s) == w[..|s|]
    ensures DropSpaces(s) == s
  {
    assert LowerAll(s)[|s| - 1] == w[|s| - 1];
    assert Lower(s[|s| - 1]) == w[|s| - 1];
    assert IsLetter(w[|s| - 1]);
  }

  lemma OneCharMore(h: Header, s: bytes, b: byte)
    requires s != [] && b != COMMA
    ensures Compared(h, s + [b]) == NextRead(h, Compared(h, s), Plain(b))
  {
    hide WordFor, Spelled, IsLetter, LowerAll, DropSpaces;
    var w := WordFor(h, Lower(s[0]));
    var l := Spelled(w);
    Spellings(w);
    LowerSnoc(s, b);
    DropSpacesOf(s, b);
    var t := s + [b];
    assert t[0] == s[0];
    if |s| < |l| && LowerAll(s) == l[..|s|] {
      NoSpaces(s, l);
      assert l[..|s| + 1] == l[..|s|] + [l[|s|]];
      assert l[..|l|] == l;
      assert IsLetter(l[|s|]);
      SpaceIsNoLetter();
      assert LowerAll(t)[|s|] == Lower(b) && l[..|s| + 1][|s|] == l[|s|];
    } else if !w.NoWord? && LowerAll(DropSpaces(s)) == l {
    } else {
      ShorterPrefix(s, b, l);
      assert l[..|l|] == l;
    }
  }

  lemma ShorterPrefix(s: bytes, b: byte, l: bytes)
    ensures |s| < |l| && LowerAll(s + [b]) == l[..|s| + 1] ==> LowerAll(s) == l[..|s|]
  {
    LowerSnoc(s, b);
    if |s| < |l| && LowerAll(s + [b]) == l[..|s| + 1] {
      assert l[..|s| + 1][..|s|] == l[..|s|];
    }
  }

  lemma SpaceIsNoLetter()
    ensures !IsLetter(Lower(SP))
  {
  }

  lemma FoldSnoc(x: seq<Item>, i: Item)
    ensures HasFold(x + [i]) <==> HasFold(x) || i.Fold?
  {
    assert (x + [i])[|x|] == i;
    if j :| 0 <= j < |x| && x[j].Fold? {
      assert (x + [i])[j] == x[j];
    }
  }

  lemma StrippedSnoc(m: Mode, x: seq<Item>, i: Item)
    ensures Stripped(m, x + [i]) ==
            if Stripped(m, x) == [] && Strips(m, i) then [] else Stripped(m, x) + [i]
  {
    assert (x + [i])[..|x|] == x;
  }

  /** The first byte of an element is one. */
  lemma {:induction false} StrippedPlain(m: Mode, x: seq<Item>)
    ensures var y := Stripped(m, x); y != [] ==> y[0].Plain?
  {
    if x != [] {
      StrippedPlain(m, x[..|x| - 1]);
    }
  }

  lemma ReadSnoc(h: Header, m: Mode, x: seq<Item>, i: Item)
    requires !IsComma(i)
    ensures Read(h, m, x + [i]) == NextRead(h, Read(h, m, x), i)
  {
    hide Compared, IsToken, SetBit5, HasFold, Stripped, WordFor;
    FoldSnoc(x, i);
    var y := Stripped(m, x);
    StrippedSnoc(m, x, i);
    StrippedPlain(m, x);
    FoldSnoc(y, i);
    NoFold();
    ComparedShape(h, m, x);
    if i.Plain? && (m.First? || m.Fresh?) {
      if y == [] {
        assert y + [i] == [i] && Chars([i]) == [i.b];
        OneChar(h, i.b);
      } else {
        assert Chars(y + [i]) == Chars(y) + [i.b];
        OneCharMore(h, Chars(y), i.b);
      }
    }
  }

  lemma NoFold()
    ensures !HasFold([])
  {
  }

  lemma ComparedShape(h: Header, m: Mode, x: seq<Item>)
    ensures var y := Stripped(m, x);
            y != [] ==> var r := Compared(h, Chars(y)); r.Part? || r.Whole? || r.Other?
  {
  }

  /** The reading of a value changes item by item as the automaton does. */
  lemma LastReadSnoc(h: Header, v: seq<Item>, i: Item)
    ensures LastRead(h, v + [i]) == NextRead(h, LastRead(h, v), i)
  {
    hide Read;
    var u := v + [i];
    assert u[..|u| - 1] == v;
    var r := LastRead(h, v);
    if IsComma(i) {
      ReadNothing(h, NextMode(h, r));
      CommaRead(h, r);
    } else {
      ReadSnoc(h, ModeOf(h, v), Element(v), i);
    }
  }

  lemma ReadNothing(h: Header, m: Mode)
    ensures Read(h, m, []) == match m case First => Nothing case Fresh => Start case Inside => Other case Lost => Gone
  {
    assert Stripped(m, []) == [];
    NoFold();
  }

  lemma CommaRead(h: Header, r: Reading)
    ensures NextRead(h, r, Plain(COMMA)) ==
            match NextMode(h, r) case First => Nothing case Fresh => Start case Inside => Other case Lost => Gone
  {
    hide Spelled;
    if r.Part? {
      Spellings(r.w);
    }
  }

  // ---------------------------------------------------------------- every value has a reading

  /** A text in which line breaks are followed by a blank. */
  predicate Folded(x: bytes) {
    && (forall i | 0 <= i < |x| && x[i] == CR :: i + 1 < |x| && x[i + 1] == LF)
    && (forall i | 0 <= i < |x| && x[i] == LF :: i + 1 < |x| && IsBlank(x[i + 1]))
  }

  /** The bytes of the last item. */
  function Tail(x: bytes): (n: nat)
    requires x != []
    ensures 1 <= n <= |x|
  {
    var n := |x|;
    if n < 2 || x[n - 2] != LF then 1 else if n >= 3 && x[n - 3] == CR then 3 else 2
  }

  function LastItem(x: bytes): Item
    requires x != []
  {
    if Tail(x) == 1 then Plain(x[|x| - 1]) else Fold(x[|x| - 1], Tail(x) == 2)
  }

  function Items(x: bytes): seq<Item>
    decreases |x|
  {
    if x == [] then [] else Items(x[..|x| - Tail(x)]) + [LastItem(x)]
  }

  lemma LastItemBytes(x: bytes)
    requires x != [] && Folded(x)
    ensures IsValue([LastItem(x)]) && x[|x| - Tail(x)..] == Bytes(LastItem(x))
  {
    hide Folded;
    var n, k := |x|, Tail(x);
    FoldedAt(x, n - 1);
    if k > 1 {
      FoldedAt(x, n - 2);
    }
    assert x[n - k..] == if k == 1 then [x[n - 1]] else if k == 2 then [LF, x[n - 1]] else [CR, LF, x[n - 1]];
  }

  lemma FoldedAt(x: bytes, i: nat)
    requires Folded(x) && i < |x|
    ensures x[i] == CR ==> i + 1 < |x| && x[i + 1] == LF
    ensures x[i] == LF ==> i + 1 < |x| && IsBlank(x[i + 1])
  {
  }

  lemma FoldedBefore(x: bytes)
    requires x != [] && Folded(x)
    ensures Folded(x[..|x| - Tail(x)])
  {
    var n := |x| - Tail(x);
    var y := x[..n];
    forall i | 0 <= i < n && y[i] == CR ensures i + 1 < n && y[i + 1] == LF {
      assert x[i] == CR && x[i + 1] == LF;
    }
    forall i | 0 <= i < n && y[i] == LF ensures i + 1 < n && IsBlank(y[i + 1]) {
      assert x[i] == LF && IsBlank(x[i + 1]);
    }
  }

  /** Every text that a value can have is the text of its items. */
  lemma {:induction false} RawOfItems(x: bytes)
    requires Folded(x)
    ensures IsValue(Items(x)) && Raw(Items(x)) == x
    decreases |x|
  {
    hide Folded, Tail, LastItem, Bytes;
    if x != [] {
      var y := x[..|x| - Tail(x)];
      LastItemBytes(x);
      FoldedBefore(x);
      RawOfItems(y);
      var v, i := Items(y), LastItem(x);
      assert [i][0] == i;
      assert Items(x)[..|v|] == v && Items(x)[|v|] == i;
      assert x == y + x[|x| - Tail(x)..];
    }
  }
}
