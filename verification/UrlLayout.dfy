/** What a URL is, as `http_parser_parse_url` cuts it: schema, authority, path, query and
    fragment one after the other, and within the authority userinfo, host and port. The
    predicates speak of the text alone, not of the automata that find the cuts. */
module UrlLayout {
  import opened Ascii
  import opened HttpFields

  /** Where the parts of a URL begin: authority, path, query (at its '?'), fragment (at its
      first '#') and the text of the fragment after its '#'s. An absent part begins where the
      next one does. */
  datatype Cuts = Cuts(auth: nat, path: nat, query: nat, frag: nat, hash: nat)

  predicate Ordered(c: Cuts, n: nat) { c.auth <= c.path <= c.query <= c.frag <= c.hash <= n }

  /** Letters followed by "://", up to `e`. */
  predicate SchemaText(s: bytes, e: nat)
    requires e <= |s|
  {
    && e >= 4 && (forall i | 0 <= i < e - 3 :: IsAlpha(s[i]))
    && s[e - 3] == ':' as int && s[e - 2] == '/' as int && s[e - 1] == '/' as int
  }

  predicate ServerByte(b: byte) {
    IsUserinfoChar(b) || b == '[' as int || b == ']' as int || b == '@' as int
  }

  /** No "@@": the first automaton refuses it. */
  predicate AuthText(s: bytes, a: nat, e: nat)
    requires a <= e <= |s|
  {
    && (forall i | a <= i < e :: ServerByte(s[i]))
    && (forall i | a < i < e :: s[i] == '@' as int ==> s[i - 1] != '@' as int)
  }

  predicate PathText(s: bytes, a: nat, e: nat)
    requires a <= e <= |s|
  {
    forall i | a <= i < e :: IsUrlChar(s[i])
  }

  predicate QueryByte(b: byte) { IsUrlChar(b) || b == '?' as int }

  predicate QueryText(s: bytes, a: nat, e: nat)
    requires a <= e <= |s|
  {
    a < e ==> s[a] == '?' as int && forall i | a < i < e :: QueryByte(s[i])
  }

  predicate FragByte(b: byte) { QueryByte(b) || b == '#' as int }

  /** '#'s up to `k`, at least one, then a text that does not begin with one. */
  predicate FragText(s: bytes, a: nat, k: nat, e: nat)
    requires a <= k <= e <= |s|
  {
    && (a < e ==> a < k)
    && (forall i | a <= i < k :: s[i] == '#' as int)
    && (k < e ==> s[k] != '#' as int)
    && (forall i | k <= i < e :: FragByte(s[i]))
  }

  /** The first `n` bytes, cut at `c`. Without CONNECT a URL opens with a schema, or with a path
      that begins with '/' or '*'; with CONNECT it opens with the authority. A fragment needs a
      path or a query before it. */
  predicate Zones(s: bytes, n: nat, connect: bool, c: Cuts) {
    && n <= |s| && Ordered(c, n)
    && (c.auth > 0 ==> !connect && SchemaText(s, c.auth))
    && AuthText(s, c.auth, c.path)
    && PathText(s, c.path, c.query)
    && QueryText(s, c.query, c.frag)
    && FragText(s, c.frag, c.hash, n)
    && (c.auth == 0 && !connect ==> c.path == 0 < c.query)
    && (c.path < c.query ==> s[c.path] == '/' as int || (c.path == 0 && !connect && s[0] == '*' as int))
    && (c.frag < n ==> c.path < c.frag)
  }

  // ---------------------------------------------------------------- the authority

  /** Where the host begins and ends, brackets included, and where the zone of an address in
      brackets begins (at its '%', or at the ']' when it has none). */
  datatype HostCuts = HostCuts(host: nat, zone: nat, end: nat)

  predicate V6Byte(b: byte) { IsHex(b) || b == ':' as int || b == '.' as int }

  /** Unreserved or percent-encoded, section 2 of RFC 6874. */
  predicate ZoneByte(b: byte) {
    IsAlphaNum(b) || b == '%' as int || b == '.' as int || b == '-' as int || b == '_' as int || b == '~' as int
  }

  /** An optional userinfo with its '@'. */
  predicate UserText(s: bytes, a: nat, h: nat, e: nat)
    requires a <= h <= e <= |s|
  {
    if h == a then forall i | a <= i < e :: s[i] != '@' as int
    else s[h - 1] == '@' as int && forall i | a <= i < h - 1 :: IsUserinfoChar(s[i])
  }

  /** "[" address ["%" zone] "]". */
  predicate V6Text(s: bytes, h: HostCuts)
    requires h.end <= |s|
  {
    && h.host + 1 < h.zone < h.end && s[h.host] == '[' as int && s[h.end - 1] == ']' as int
    && (forall i | h.host < i < h.zone :: V6Byte(s[i]))
    && (h.zone < h.end - 1 ==>
          h.zone + 1 < h.end - 1 && s[h.zone] == '%' as int && forall i | h.zone < i < h.end - 1 :: ZoneByte(s[i]))
  }

  predicate NameText(s: bytes, h: HostCuts)
    requires h.end <= |s|
  {
    h.host < h.zone == h.end && forall i | h.host <= i < h.end :: IsHostChar(s[i])
  }

  predicate PortText(s: bytes, a: nat, e: nat)
    requires a <= e <= |s|
  {
    a < e ==> s[a] == ':' as int && a + 1 < e && AllDigits(s[a + 1..e])
  }

  /** An authority from `a` to `e`: [userinfo "@"] host [":" port]. */
  predicate Authority(s: bytes, a: nat, e: nat, h: HostCuts) {
    && a <= h.host < h.end <= e <= |s|
    && UserText(s, a, h.host, e)
    && (V6Text(s, h) || NameText(s, h))
    && PortText(s, h.end, e)
  }

  /** The URLs that the splitter takes. CONNECT wants a host and a port; what it leaves empty beside
      them (userinfo, query, fragment) sets no field. */
  predicate IsUrl(s: bytes, connect: bool, c: Cuts, h: HostCuts) {
    && s != [] && Zones(s, |s|, connect, c)
    && (if c.auth < c.path then
          && Authority(s, c.auth, c.path, h)
          && (h.end < c.path ==> Decimal(s[h.end + 1..c.path]) <= 0xFFFF)
        else c.auth == 0)
    && (connect ==>
          && c.auth < c.path && h.end < c.path && h.host <= c.auth + 1
          && c.path == c.query && c.frag <= c.query + 1 && c.hash == |s|)
  }
}
