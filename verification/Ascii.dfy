/** Bytes, the ASCII constants and the character classes of src/http_parser/http_parser.c
    in its strict build (HTTP_PARSER_STRICT = 1). */
module Ascii {
  type byte = b: int | 0 <= b < 256
  type bytes = seq<byte>

  const NUL: byte := 0
  const HT: byte := 9
  const LF: byte := 10
  const FF: byte := 12
  const CR: byte := 13
  const SP: byte := 32
  const COMMA: byte := ',' as int
  const COLON: byte := ':' as int

  /** Pieces of a text, one after the other. */
  function Flatten(pieces: seq<bytes>): bytes {
    if pieces == [] then [] else pieces[0] + Flatten(pieces[1..])
  }

  lemma {:induction false} FlattenSnoc(pieces: seq<bytes>, x: bytes)
    ensures Flatten(pieces + [x]) == Flatten(pieces) + x
  {
    if pieces == [] {
      assert [x][1..] == [] && pieces + [x] == [x];
      assert Flatten([x]) == x + Flatten([]);
    } else {
      assert (pieces + [x])[1..] == pieces[1..] + [x];
      FlattenSnoc(pieces[1..], x);
    }
  }

  /** The bytes of an ASCII literal. */
  function Text(s: string): bytes
    requires forall i | 0 <= i < |s| :: s[i] as int < 256
  {
    seq(|s|, i requires 0 <= i < |s| => s[i] as int)
  }

  /** `c | 0x20`: sets bit 5, which lower-cases letters and moves other bytes too. */
  function SetBit5(b: byte): byte {
    if (b / 32) % 2 == 1 then b else b + 32
  }

  predicate IsUpper(b: byte) { 'A' as int <= b <= 'Z' as int }

  predicate IsAlpha(b: byte) {
    IsUpper(b) || 'a' as int <= b <= 'z' as int
  }

  predicate IsNum(b: byte) { '0' as int <= b <= '9' as int }

  predicate IsAlphaNum(b: byte) { IsAlpha(b) || IsNum(b) }

  predicate IsHex(b: byte) {
    IsNum(b) || 'a' as int <= b <= 'f' as int || 'A' as int <= b <= 'F' as int
  }

  /** Folds the case of ASCII letters only. */
  function Lower(b: byte): byte { if IsUpper(b) then b + 32 else b }

  function LowerAll(s: bytes): (r: bytes)
    ensures |r| == |s|
  {
    seq(|s|, i requires 0 <= i < |s| => Lower(s[i]))
  }

  /** Membership in the 256-entry `tokens` table, the space excluded by STRICT_TOKEN. */
  predicate IsToken(b: byte) {
    || IsAlphaNum(b)
    || b == '!' as int || '#' as int <= b <= '\'' as int
    || b == '*' as int || b == '+' as int || b == '-' as int || b == '.' as int
    || '^' as int <= b <= '`' as int || b == '|' as int || b == '~' as int
  }

  /** The 256-entry `unhex` table. Only its first 128 entries are written out in the source,
      so every byte from 128 up reads as the digit 0. */
  function Unhex(b: byte): (v: int)
    ensures -1 <= v < 16
  {
    if IsNum(b) then b - '0' as int
    else if 'a' as int <= b <= 'f' as int then b - 'a' as int + 10
    else if 'A' as int <= b <= 'F' as int then b - 'A' as int + 10
    else if b >= 128 then 0
    else -1
  }

  /** The `normal_url_char` bitmap of the strict build. */
  predicate IsUrlChar(b: byte) {
    33 <= b <= 126 && b != '#' as int && b != '?' as int
  }

  predicate IsMark(b: byte) {
    || b == '-' as int || b == '_' as int || b == '.' as int || b == '!' as int || b == '~' as int
    || b == '*' as int || b == '\'' as int || b == '(' as int || b == ')' as int
  }

  predicate IsUserinfoChar(b: byte) {
    || IsAlphaNum(b) || IsMark(b)
    || b == '%' as int || b == ';' as int || b == ':' as int || b == '&' as int
    || b == '=' as int || b == '+' as int || b == '$' as int || b == ',' as int
  }

  predicate IsHostChar(b: byte) {
    IsAlphaNum(b) || b == '.' as int || b == '-' as int
  }

  predicate IsHeaderChar(b: byte) {
    b == CR || b == LF || b == HT || (b > 31 && b != 127)
  }

  predicate IsBlank(b: byte) { b == SP || b == HT }

  lemma SetBit5OfLetter(b: byte, w: byte)
    requires 'a' as int <= w <= 'z' as int || w == '-' as int
    requires SetBit5(b) == w
    requires b != CR
    ensures Lower(b) == w
  {
  }
}
