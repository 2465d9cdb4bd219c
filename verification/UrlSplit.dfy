/** `struct http_parser_url` and the functions that fill it. A buffer of up to 65535 bytes is
    accepted exactly when it is a URL in the sense of UrlLayout.IsUrl, and the fields are then the
    parts of its one layout. */
module UrlSplit {
  import opened Ascii
  import opened HttpTypes
  import opened HttpUrlChar
  import opened HttpFields
  import opened UrlLayout
  import UrlScan
  import UrlHost

  datatype UrlField = UfSchema | UfHost | UfPort | UfPath | UfQuery | UfFragment | UfUserinfo | UfMax

  datatype Span = Span(off: nat, len: nat)

  type FieldData = map<UrlField, Span>

  /** uint16_t. */
  function U16(n: nat): nat { n % 0x10000 }

  /** The field that a byte belongs to, by the state it leads to; a delimiter belongs to none. */
  function FieldOf(t: UrlState): UrlField {
    match t
    case Schema => UfSchema
    case Server => UfHost
    case ServerWithAt => UfHost
    case Path => UfPath
    case Query => UfQuery
    case Fragment => UfFragment
    case _ => UfMax
  }

  // ---------------------------------------------------------------- the fields while scanning

  /** Where the schema ends. */
  function SchemaEnd(t: UrlState, c: Cuts, p: nat): int {
    match t
    case SpacesBeforeUrl => 0
    case Schema => p
    case SchemaSlash => p - 1
    case SchemaSlashSlash => p - 2
    case _ => c.auth - 3
  }

  /** The field that took the last byte that was not a delimiter. */
  function LastField(t: UrlState, c: Cuts, p: nat): UrlField {
    if c.hash < p then UfFragment
    else if c.query + 1 < c.frag then UfQuery
    else if c.path < c.query then UfPath
    else if c.auth < c.path then UfHost
    else if SchemaEnd(t, c, p) > 0 then UfSchema
    else UfMax
  }

  /** The part of the first `p` bytes that field `f` covers; empty when it ends before it begins. */
  datatype Part = Part(a: int, e: int)

  function PartOf(f: UrlField, t: UrlState, c: Cuts, p: nat): Part {
    match f
    case UfSchema => Part(0, SchemaEnd(t, c, p))
    case UfHost => Part(c.auth, c.path)
    case UfPath => Part(c.path, c.query)
    case UfQuery => Part(c.query + 1, c.frag)
    case UfFragment => Part(c.hash, p)
    case _ => Part(0, 0)
  }

  predicate Same(x: Part, y: Part) { x == y || (x.e <= x.a && y.e <= y.a) }

  /** How the part of a field that may take the byte at `p` changes. */
  predicate Moves(x: Part, y: Part, takes: bool, goesOn: bool, p: nat) {
    if !takes then Same(x, y)
    else if goesOn then 0 <= x.a < x.e == p && y == Part(x.a, p + 1)
    else x.e <= x.a && y == Part(p, p + 1)
  }

  /** Field `f` is its part, or not set when that is empty. */
  predicate Cut(fields: set<UrlField>, data: FieldData, f: UrlField, x: Part) {
    if x.a < x.e then f in fields && f in data && data[f].off == x.a && data[f].len == x.e - x.a else f !in fields
  }

  /** The fields after `p` bytes, before the authority is split. */
  predicate Laid(p: nat, t: UrlState, c: Cuts, fields: set<UrlField>, data: FieldData) {
    forall f: UrlField :: Cut(fields, data, f, PartOf(f, t, c, p))
  }

  lemma LaidStart(s: bytes, connect: bool, data: FieldData)
    requires s != []
    ensures UrlScan.At(s, 0, connect, UrlScan.Start(connect), Cuts(0, 0, 0, 0, 0))
    ensures Laid(0, UrlScan.Start(connect), Cuts(0, 0, 0, 0, 0), {}, data)
    ensures LastField(UrlScan.Start(connect), Cuts(0, 0, 0, 0, 0), 0).UfMax?
    ensures !UrlHost.HasAt(s, 0, 0)
  {
    UrlScan.AtStart(s, connect);
  }

  /** At a delimiter every part stays as it is. */
  lemma PartsAtDelimiter(s: bytes, p: nat, connect: bool, t: UrlState, c: Cuts, f: UrlField)
    requires p < |s| && UrlScan.At(s, p, connect, t, c)
    requires !ParseUrlChar(t, s[p]).UrlDead? && FieldOf(ParseUrlChar(t, s[p])).UfMax?
    ensures var t' := ParseUrlChar(t, s[p]);
            var c' := UrlScan.NextCuts(c, t', p + 1);
            Same(PartOf(f, t, c, p), PartOf(f, t', c', p + 1)) && LastField(t', c', p + 1) == LastField(t, c, p)
  {
    hide Zones, IsUrlChar, IsUserinfoChar, IsAlpha;
    if UrlScan.Early(t) {
    } else if t.ServerStart? || t.Server? || t.ServerWithAt? {
    } else {
    }
  }

  /** Any other byte goes to the part that ends there, or begins a part. */
  lemma PartsAtByte(s: bytes, p: nat, connect: bool, t: UrlState, c: Cuts, f: UrlField)
    requires p < |s| && UrlScan.At(s, p, connect, t, c)
    requires !ParseUrlChar(t, s[p]).UrlDead? && !FieldOf(ParseUrlChar(t, s[p])).UfMax?
    ensures var t' := ParseUrlChar(t, s[p]);
            var c' := UrlScan.NextCuts(c, t', p + 1);
            var x, y := PartOf(f, t, c, p), PartOf(f, t', c', p + 1);
            && LastField(t', c', p + 1) == FieldOf(t')
            && Moves(x, y, f == FieldOf(t'), LastField(t, c, p) == FieldOf(t'), p)
  {
    hide Zones;
  }

  /** What a byte at `p` that belongs to field `f` does to the fields. */
  predicate OuterTook(f: UrlField, same: bool, p: nat,
                      fields: set<UrlField>, data: FieldData, fields': set<UrlField>, data': FieldData)
  {
    && f in data
    && data' == data[f := if same then Span(data[f].off, U16(data[f].len + 1)) else Span(p, 1)]
    && fields' == (if same then fields else fields + {f})
  }

  lemma OuterCut(g: UrlField, same: bool, p: nat, f: UrlField, x: Part, y: Part,
                 fields: set<UrlField>, data: FieldData, fields': set<UrlField>, data': FieldData)
    requires p < 0xFFFF && OuterTook(g, same, p, fields, data, fields', data')
    requires Moves(x, y, f == g, same, p) && Cut(fields, data, f, x)
    ensures Cut(fields', data', f, y)
  {
  }

  lemma LaidByte(s: bytes, p: nat, connect: bool, t: UrlState, c: Cuts,
                 fields: set<UrlField>, data: FieldData, fields': set<UrlField>, data': FieldData)
    requires p < |s| <= 0xFFFF && UrlScan.At(s, p, connect, t, c) && Laid(p, t, c, fields, data)
    requires !ParseUrlChar(t, s[p]).UrlDead?
    requires var f := FieldOf(ParseUrlChar(t, s[p]));
             if f.UfMax? then fields' == fields && data' == data
             else OuterTook(f, LastField(t, c, p) == f, p, fields, data, fields', data')
    ensures var t' := ParseUrlChar(t, s[p]);
            var c' := UrlScan.NextCuts(c, t', p + 1);
            && Laid(p + 1, t', c', fields', data')
            && LastField(t', c', p + 1) == (if FieldOf(t').UfMax? then LastField(t, c, p) else FieldOf(t'))
  {
    hide UrlScan.At, ParseUrlChar, UrlScan.NextCuts, PartOf, LastField, FieldOf, OuterTook;
    var t' := ParseUrlChar(t, s[p]);
    var c' := UrlScan.NextCuts(c, t', p + 1);
    var q := p + 1;
    forall f: UrlField
      ensures Cut(fields', data', f, PartOf(f, t', c', q))
    {
      var x, y := PartOf(f, t, c, p), PartOf(f, t', c', q);
      if FieldOf(t').UfMax? {
        PartsAtDelimiter(s, p, connect, t, c, f);
      } else {
        PartsAtByte(s, p, connect, t, c, f);
        OuterCut(FieldOf(t'), LastField(t, c, p) == FieldOf(t'), p, f, x, y, fields, data, fields', data');
      }
    }
    if FieldOf(t').UfMax? {
      PartsAtDelimiter(s, p, connect, t, c, UfMax);
    } else {
      PartsAtByte(s, p, connect, t, c, UfMax);
    }
  }

  /** Whether the authority has an '@' so far is whether the scan has been in ServerWithAt. */
  lemma FoundAt(s: bytes, p: nat, connect: bool, t: UrlState, c: Cuts)
    requires p < |s| && UrlScan.At(s, p, connect, t, c) && !ParseUrlChar(t, s[p]).UrlDead?
    ensures var t' := ParseUrlChar(t, s[p]);
            var c' := UrlScan.NextCuts(c, t', p + 1);
            && c.path <= |s| && c'.path <= |s|
            && UrlHost.HasAt(s, c'.auth, c'.path) == (UrlHost.HasAt(s, c.auth, c.path) || t'.ServerWithAt?)
  {
    var t' := ParseUrlChar(t, s[p]);
    var c' := UrlScan.NextCuts(c, t', p + 1);
    if t'.ServerWithAt? {
      assert s[p] == '@' as int && c'.auth <= p < c'.path;
    } else if t'.Server? {
      assert s[p] != '@' as int;
    } else {
      assert (c'.auth == c.auth && c'.path == c.path) || (c'.auth == c'.path && c.auth == c.path);
    }
  }

  // ---------------------------------------------------------------- the fields while splitting the authority

  function HostFieldOf(t: UrlHost.HostState): (f: UrlField)
    ensures f.UfMax? || OfAuthority(f)
  {
    match t
    case Host => UfHost
    case V6 => UfHost
    case V6ZoneStart => UfHost
    case V6Zone => UfHost
    case Port => UfPort
    case Userinfo => UfUserinfo
    case _ => UfMax
  }

  /** The part of the authority from `a` that field `f` covers; a bracket belongs to none. */
  function HostPartOf(s: bytes, f: UrlField, a: nat, t: UrlHost.HostState, h: HostCuts, p: nat): Part
    requires h.host <= p <= |s|
  {
    match f
    case UfUserinfo => Part(a, if t.UserinfoStart? || t.Userinfo? then p else h.host - 1)
    case UfHost =>
      if h.host < p && s[h.host] == '[' as int then
        Part(h.host + 1, if t.V6End? || t.PortStart? || t.Port? then h.end - 1 else h.end)
      else Part(h.host, h.end)
    case UfPort => Part(h.end + 1, p)
    case _ => Part(0, 0)
  }

  /** A byte of the authority goes on with a field when it stays in the state, or is in the zone of
      an address. */
  predicate GoesOn(t: UrlHost.HostState, t': UrlHost.HostState) { t == t' || t'.V6ZoneStart? || t'.V6Zone? }

  predicate OfAuthority(f: UrlField) { f.UfHost? || f.UfUserinfo? || f.UfPort? }

  lemma HostPartsAtByte(s: bytes, a: nat, p: nat, foundAt: bool, t: UrlHost.HostState, h: HostCuts, f: UrlField)
    requires p < |s| && UrlHost.At(s, a, p, foundAt, t, h)
    requires !UrlHost.HostChar(t, s[p]).HostDead? && OfAuthority(f)
    ensures var t' := UrlHost.HostChar(t, s[p]);
            var h' := UrlHost.NextCuts(h, t', p + 1);
            h'.host <= p + 1 &&
            var x, y := HostPartOf(s, f, a, t, h, p), HostPartOf(s, f, a, t', h', p + 1);
            Moves(x, y, f == HostFieldOf(t'), GoesOn(t, t'), p)
  {
  }

  /** The host stays set while it is cut anew; only its length says that it is empty. */
  predicate HostCut(fields: set<UrlField>, data: FieldData, x: Part) {
    && UfHost in fields && UfHost in data
    && (if x.a < x.e then data[UfHost].off == x.a && data[UfHost].len == x.e - x.a else data[UfHost].len == 0)
  }

  predicate HostLaid(s: bytes, a: nat, t: UrlHost.HostState, h: HostCuts, p: nat, fields: set<UrlField>,
                     data: FieldData)
    requires h.host <= p <= |s|
  {
    && Cut(fields, data, UfUserinfo, HostPartOf(s, UfUserinfo, a, t, h, p))
    && HostCut(fields, data, HostPartOf(s, UfHost, a, t, h, p))
    && Cut(fields, data, UfPort, HostPartOf(s, UfPort, a, t, h, p))
  }

  /** The fields outside the authority are as they were. */
  predicate OthersKept(fields: set<UrlField>, data: FieldData, fields': set<UrlField>, data': FieldData) {
    forall f: UrlField | !OfAuthority(f) && f in data ::
      (f in fields' <==> f in fields) && f in data' && data'[f] == data[f]
  }

  /** What a byte at `p` that belongs to field `f` of the authority does to the fields. */
  predicate Took(f: UrlField, goesOn: bool, p: nat,
                 fields: set<UrlField>, data: FieldData, fields': set<UrlField>, data': FieldData)
  {
    && OfAuthority(f) && f in data
    && data' == data[f := Span(if goesOn then data[f].off else p,
                               if goesOn || f.UfHost? then U16(data[f].len + 1) else 1)]
    && fields' == fields + (if goesOn || f.UfHost? then {} else {f})
  }

  lemma TookCut(g: UrlField, goesOn: bool, p: nat, f: UrlField, x: Part, y: Part,
                fields: set<UrlField>, data: FieldData, fields': set<UrlField>, data': FieldData)
    requires p < 0xFFFF && Took(g, goesOn, p, fields, data, fields', data')
    requires Moves(x, y, f == g, goesOn, p)
    ensures !f.UfHost? && Cut(fields, data, f, x) ==> Cut(fields', data', f, y)
    ensures f.UfHost? && HostCut(fields, data, x) ==> HostCut(fields', data', y)
  {
  }

  lemma HostKept(fields: set<UrlField>, data: FieldData, x: Span)
    ensures OthersKept(fields, data, fields, data[UfHost := x])
  {
  }

  lemma TookKeeps(g: UrlField, goesOn: bool, p: nat, fields0: set<UrlField>, data0: FieldData,
                  fields: set<UrlField>, data: FieldData, fields': set<UrlField>, data': FieldData)
    requires Took(g, goesOn, p, fields, data, fields', data') && OthersKept(fields0, data0, fields, data)
    ensures OthersKept(fields0, data0, fields', data')
  {
  }

  lemma HostLaidByte(s: bytes, a: nat, p: nat, foundAt: bool, t: UrlHost.HostState, h: HostCuts,
                     fields: set<UrlField>, data: FieldData, fields': set<UrlField>, data': FieldData)
    requires p < |s| <= 0xFFFF && UrlHost.At(s, a, p, foundAt, t, h) && HostLaid(s, a, t, h, p, fields, data)
    requires !UrlHost.HostChar(t, s[p]).HostDead?
    requires var t' := UrlHost.HostChar(t, s[p]);
             if HostFieldOf(t').UfMax? then fields' == fields && data' == data
             else Took(HostFieldOf(t'), GoesOn(t, t'), p, fields, data, fields', data')
    ensures var t' := UrlHost.HostChar(t, s[p]);
            var h' := UrlHost.NextCuts(h, t', p + 1);
            h'.host <= p + 1 && HostLaid(s, a, t', h', p + 1, fields', data')
  {
    assert h.host <= p;
    hide UrlHost.At, UrlHost.HostChar, UrlHost.NextCuts, HostPartOf, HostFieldOf, GoesOn, Took;
    var t' := UrlHost.HostChar(t, s[p]);
    var h' := UrlHost.NextCuts(h, t', p + 1);
    forall f | OfAuthority(f)
      ensures h'.host <= p + 1
      ensures var x, y := HostPartOf(s, f, a, t, h, p), HostPartOf(s, f, a, t', h', p + 1);
              && (!f.UfHost? && Cut(fields, data, f, x) ==> Cut(fields', data', f, y))
              && (f.UfHost? && HostCut(fields, data, x) ==> HostCut(fields', data', y))
    {
      HostPartsAtByte(s, a, p, foundAt, t, h, f);
      var x, y := HostPartOf(s, f, a, t, h, p), HostPartOf(s, f, a, t', h', p + 1);
      if !HostFieldOf(t').UfMax? {
        TookCut(HostFieldOf(t'), GoesOn(t, t'), p, f, x, y, fields, data, fields', data');
      }
    }
    assert OfAuthority(UfHost) && OfAuthority(UfUserinfo) && OfAuthority(UfPort);
  }

  // ---------------------------------------------------------------- the result

  /** The parts of an authority from `a` to `e`. */
  function AuthorityPart(s: bytes, f: UrlField, a: nat, e: nat, h: HostCuts): Part
    requires h.host < |s|
  {
    if f.UfUserinfo? then Part(a, h.host - 1)
    else if f.UfPort? then Part(h.end + 1, e)
    else if s[h.host] == '[' as int then Part(h.host + 1, h.end - 1)
    else Part(h.host, h.end)
  }

  predicate HostSplit(s: bytes, a: nat, e: nat, h: HostCuts, fields: set<UrlField>, data: FieldData)
    requires h.host < |s|
  {
    forall f | OfAuthority(f) :: Cut(fields, data, f, AuthorityPart(s, f, a, e, h))
  }

  lemma HostLaidStart(s: bytes, a: nat, foundAt: bool, fields: set<UrlField>, data: FieldData)
    requires a < |s| && UfHost in fields && UfUserinfo !in fields && UfPort !in fields
    requires UfHost in data && data[UfHost].len == 0
    ensures UrlHost.At(s, a, a, foundAt, UrlHost.Begin(foundAt), HostCuts(a, a, a))
    ensures HostLaid(s, a, UrlHost.Begin(foundAt), HostCuts(a, a, a), a, fields, data)
  {
  }

  lemma HostLaidFinal(s: bytes, a: nat, e: nat, t: UrlHost.HostState, h: HostCuts, fields: set<UrlField>,
                      data: FieldData)
    requires a < e <= |s| && UrlHost.At(s, a, e, UrlHost.HasAt(s, a, e), t, h) && UrlHost.Final(t)
    requires HostLaid(s, a, t, h, e, fields, data)
    ensures Authority(s, a, e, h) && HostSplit(s, a, e, h, fields, data)
  {
    UrlHost.FinalIsAuthority(s, a, e, t, h);
  }

  ghost predicate NoAuthority(s: bytes, a: nat, e: nat) { forall h: HostCuts :: !Authority(s, a, e, h) }

  /** A scan that dies, or that ends in a state that is not final, has met no authority. */
  lemma NoneAccepted(s: bytes, a: nat, e: nat, p: nat)
    requires a <= p <= e <= |s|
    requires var t := UrlHost.Scan(s, a, UrlHost.HasAt(s, a, e), p); t.HostDead? || (p == e && !UrlHost.Final(t))
    ensures NoAuthority(s, a, e)
  {
    forall h: HostCuts | Authority(s, a, e, h) ensures false {
      UrlHost.ScanComplete(s, a, e, h, p);
    }
  }

  lemma {:induction false} DecimalGrows(s: bytes, k: nat)
    requires k <= |s| && AllDigits(s)
    ensures AllDigits(s[..k]) && Decimal(s[..k]) <= Decimal(s)
  {
    if k == |s| {
      assert s[..k] == s;
    } else {
      var d := s[..|s| - 1];
      assert d[..k] == s[..k];
      DecimalGrows(d, k);
    }
  }

  /** The part of a URL that each field is. */
  function FinalPart(s: bytes, f: UrlField, c: Cuts, h: HostCuts): Part {
    if OfAuthority(f) then
      if c.auth < c.path && h.host < |s| then AuthorityPart(s, f, c.auth, c.path, h) else Part(0, 0)
    else if f.UfSchema? then Part(0, c.auth - 3)
    else PartOf(f, Fragment, c, |s|)
  }

  predicate AllCut(s: bytes, c: Cuts, h: HostCuts, fields: set<UrlField>, data: FieldData) {
    forall f: UrlField :: Cut(fields, data, f, FinalPart(s, f, c, h))
  }

  /** With no authority, or with the authority split, every field is its part. */
  lemma LaidFinal(s: bytes, connect: bool, t: UrlState, c: Cuts, h: HostCuts,
                  fields: set<UrlField>, data: FieldData, fields': set<UrlField>, data': FieldData)
    requires UrlScan.At(s, |s|, connect, t, c) && !UrlScan.Early(t) && Laid(|s|, t, c, fields, data)
    requires if c.auth < c.path then
               && Authority(s, c.auth, c.path, h) && HostSplit(s, c.auth, c.path, h, fields', data')
               && OthersKept(fields, data, fields', data') && forall f: UrlField :: f in data
             else fields' == fields && data' == data
    ensures AllCut(s, c, h, fields', data')
  {
    forall f: UrlField
      ensures Cut(fields', data', f, FinalPart(s, f, c, h))
    {
      assert Cut(fields, data, f, PartOf(f, t, c, |s|));
    }
  }

  function Place(f: UrlField): nat {
    match f
    case UfSchema => 0
    case UfUserinfo => 1
    case UfHost => 2
    case UfPort => 3
    case UfPath => 4
    case UfQuery => 5
    case UfFragment => 6
    case UfMax => 7
  }

  /** The fields lie in the buffer, one after the other, none over another. */
  lemma FieldsInOrder(s: bytes, connect: bool, c: Cuts, h: HostCuts, f: UrlField, g: UrlField)
    requires IsUrl(s, connect, c, h) && Place(f) < Place(g)
    ensures var x, y := FinalPart(s, f, c, h), FinalPart(s, g, c, h);
            x.a < x.e && y.a < y.e ==> 0 <= x.a && x.e <= y.a && y.e <= |s|
  {
    hide AuthText, PathText, QueryText, FragText, UserText, PortText, Decimal;
  }

  predicate IsDelimiter(b: byte) {
    || b == ':' as int || b == '/' as int || b == '@' as int || b == '[' as int || b == ']' as int
    || b == '?' as int || b == '#' as int
  }

  predicate Covers(s: bytes, c: Cuts, h: HostCuts, f: UrlField, i: nat) {
    FinalPart(s, f, c, h).a <= i < FinalPart(s, f, c, h).e
  }

  /** What no field covers is delimiters. */
  lemma FieldsCoverAll(s: bytes, connect: bool, c: Cuts, h: HostCuts, i: nat)
    requires IsUrl(s, connect, c, h) && i < |s|
    ensures IsDelimiter(s[i]) || exists f: UrlField :: Covers(s, c, h, f, i)
  {
    hide Decimal, AuthText, PathText, UserText;
    if c.auth <= i < c.path && c.auth < h.host {
      UserinfoEnd(s, c.auth, h.host, c.path);
    }
    assert (
      || IsDelimiter(s[i]) || Covers(s, c, h, UfSchema, i) || Covers(s, c, h, UfUserinfo, i)
      || Covers(s, c, h, UfHost, i) || Covers(s, c, h, UfPort, i) || Covers(s, c, h, UfPath, i)
      || Covers(s, c, h, UfQuery, i) || Covers(s, c, h, UfFragment, i));
  }

  lemma UserinfoEnd(s: bytes, a: nat, h: nat, e: nat)
    requires a < h <= e <= |s| && UserText(s, a, h, e)
    ensures s[h - 1] == '@' as int
  {
  }

  ghost predicate NoUrl(s: bytes, connect: bool) {
    forall c: Cuts, h: HostCuts :: !IsUrl(s, connect, c, h)
  }

  lemma NoneEmpty(connect: bool)
    ensures NoUrl([], connect)
  {
  }

  /** A scan that dies, or that ends inside the schema, has met no URL. */
  lemma NoneScanned(s: bytes, connect: bool, p: nat)
    requires p <= |s|
    requires var t := UrlScan.Scan(s, connect, p); t.UrlDead? || (p == |s| && UrlScan.Early(t))
    ensures NoUrl(s, connect)
  {
    forall c: Cuts, h: HostCuts | IsUrl(s, connect, c, h) ensures false {
      UrlScan.ScanComplete(s, connect, c, p);
    }
  }

  /** A text whose only layout is not a URL's is no URL. */
  lemma NoneLaid(s: bytes, connect: bool, c: Cuts, h: HostCuts)
    requires s != [] && Zones(s, |s|, connect, c)
    requires || (c.auth < c.path && NoAuthority(s, c.auth, c.path))
             || (!IsUrl(s, connect, c, h) && (c.auth < c.path ==> Authority(s, c.auth, c.path, h)))
    ensures NoUrl(s, connect)
  {
    hide Zones, Authority, Decimal;
    forall d: Cuts, k: HostCuts | IsUrl(s, connect, d, k) ensures false {
      UrlScan.OneLayout(s, connect, c, d);
      if c.auth < c.path {
        assert Authority(s, c.auth, c.path, k);
        UrlHost.OneAuthority(s, c.auth, c.path, h, k);
      }
    }
  }

  /** CONNECT sets exactly the host and the port when that is all the layout has. */
  lemma ConnectFields(s: bytes, c: Cuts, h: HostCuts, fields: set<UrlField>, data: FieldData)
    requires Zones(s, |s|, true, c) && AllCut(s, c, h, fields, data)
    requires c.auth < c.path ==> Authority(s, c.auth, c.path, h)
    ensures fields == {UfHost, UfPort} <==>
            && c.auth < c.path && h.end < c.path && h.host <= c.auth + 1
            && c.path == c.query && c.frag <= c.query + 1 && c.hash == |s|
  {
    forall f: UrlField
      ensures f in fields <==> FinalPart(s, f, c, h).a < FinalPart(s, f, c, h).e
    {
      assert Cut(fields, data, f, FinalPart(s, f, c, h));
    }
    var only := {UfHost, UfPort};
    assert fields == only <==> forall f: UrlField :: f in fields <==> f in only;
    assert (UfUserinfo in fields <==> c.auth < c.path && c.auth + 1 < h.host)
           && (UfPath in fields <==> c.path < c.query);
    assert (UfQuery in fields <==> c.query + 1 < c.frag) && (UfFragment in fields <==> c.hash < |s|);
    assert (UfHost in fields <==> c.auth < c.path) && (UfPort in fields <==> c.auth < c.path && h.end < c.path);
    assert UfSchema !in fields && UfMax !in fields;
  }

  /** What the first scan tells the rest of the splitter. */
  lemma AfterScan(s: bytes, connect: bool, t: UrlState, c: Cuts, fields: set<UrlField>, data: FieldData)
    requires s != [] && UrlScan.At(s, |s|, connect, t, c) && Laid(|s|, t, c, fields, data)
    ensures c.path <= |s| && (UfHost in fields <==> c.auth < c.path)
    ensures UfHost in fields ==> UfHost in data && data[UfHost] == Span(c.auth, c.path - c.auth)
    ensures UfUserinfo !in fields && UfPort !in fields
    ensures if UrlScan.Early(t) then UfSchema in fields && UfHost !in fields
            else Zones(s, |s|, connect, c) && (UfSchema in fields <==> c.auth > 0)
  {
    assert Cut(fields, data, UfSchema, PartOf(UfSchema, t, c, |s|));
    assert Cut(fields, data, UfHost, PartOf(UfHost, t, c, |s|));
    assert Cut(fields, data, UfUserinfo, PartOf(UfUserinfo, t, c, |s|));
    assert Cut(fields, data, UfPort, PartOf(UfPort, t, c, |s|));
  }

  lemma PortField(s: bytes, c: Cuts, h: HostCuts, fields: set<UrlField>, data: FieldData)
    requires Ordered(c, |s|) && AllCut(s, c, h, fields, data)
    requires c.auth < c.path ==> Authority(s, c.auth, c.path, h)
    ensures UfPort in fields <==> c.auth < c.path && h.end < c.path
    ensures UfPort in fields ==> UfPort in data && data[UfPort] == Span(h.end + 1, c.path - h.end - 1)
                                 && AllDigits(s[h.end + 1..c.path])
  {
    assert Cut(fields, data, UfPort, FinalPart(s, UfPort, c, h));
  }

  lemma DecimalOfNone(s: bytes)
    ensures AllDigits(s[..0]) && Decimal(s[..0]) == 0
  {
  }

  lemma DecimalStep(s: bytes, k: nat)
    requires k < |s| && AllDigits(s)
    ensures AllDigits(s[..k]) && AllDigits(s[..k + 1])
    ensures Decimal(s[..k + 1]) == 10 * Decimal(s[..k]) + (s[k] - '0' as int) <= Decimal(s)
  {
    DecimalGrows(s, k + 1);
    assert s[..k + 1][..k] == s[..k];
  }

  class HttpParserUrl {
    var fieldSet: set<UrlField>
    var fieldData: FieldData
    var port: nat

    /** Every field has a slot, set or not. */
    ghost predicate Valid()
      reads this
    {
      forall f: UrlField :: f in fieldData
    }

    /** `http_parser_url_init`. */
    constructor ()
      ensures Valid() && fieldSet == {} && port == 0
    {
      fieldSet := {};
      fieldData := map[
        UfSchema := Span(0, 0), UfHost := Span(0, 0), UfPort := Span(0, 0), UfPath := Span(0, 0),
        UfQuery := Span(0, 0), UfFragment := Span(0, 0), UfUserinfo := Span(0, 0), UfMax := Span(0, 0)];
      port := 0;
      new;
      forall f: UrlField ensures f in fieldData {
        match f {
          case UfSchema => case UfHost => case UfPort => case UfPath =>
          case UfQuery => case UfFragment => case UfUserinfo => case UfMax =>
        }
      }
    }

    /** The field data of one more byte of the authority. */
    method TakeHostByte(f: UrlField, goesOn: bool, p: nat)
      requires Valid() && p < 0xFFFF && OfAuthority(f)
      modifies this
      ensures Valid() && port == old(port)
      ensures Took(f, goesOn, p, old(fieldSet), old(fieldData), fieldSet, fieldData)
    {
      if !goesOn {
        fieldData := fieldData[f := Span(U16(p), fieldData[f].len)];
        if f != UfHost {
          fieldData := fieldData[f := Span(fieldData[f].off, 0)];
          fieldSet := fieldSet + {f};
        }
      }
      fieldData := fieldData[f := Span(fieldData[f].off, U16(fieldData[f].len + 1))];
    }

    /** `http_parse_host`: splits the authority, which is the host field so far. */
    method ParseHost(buf: bytes, foundAt: bool) returns (ok: bool, ghost h: HostCuts)
      requires Valid() && |buf| <= 0xFFFF
      requires UfHost in fieldSet && UfUserinfo !in fieldSet && UfPort !in fieldSet
      requires fieldData[UfHost].len > 0 && fieldData[UfHost].off + fieldData[UfHost].len <= |buf|
      requires foundAt == UrlHost.HasAt(buf, fieldData[UfHost].off, fieldData[UfHost].off + fieldData[UfHost].len)
      modifies this
      ensures Valid() && port == old(port)
      ensures var a := old(fieldData[UfHost].off);
              var e := a + old(fieldData[UfHost].len);
              if ok then Authority(buf, a, e, h) && HostSplit(buf, a, e, h, fieldSet, fieldData)
                  else NoAuthority(buf, a, e)
      ensures OthersKept(old(fieldSet), old(fieldData), fieldSet, fieldData)
    {
      hide UrlHost.HostChar, UrlHost.NextCuts, UrlHost.At, HostLaid, HostFieldOf, GoesOn, Authority, HostSplit, Took,
           OthersKept, UrlHost.HasAt, UrlHost.Final, UrlHost.Begin, OfAuthority, NoAuthority, U16;
      ghost var a := fieldData[UfHost].off;
      var buflen := fieldData[UfHost].off + fieldData[UfHost].len;
      var p := fieldData[UfHost].off;
      fieldData := fieldData[UfHost := Span(fieldData[UfHost].off, 0)];
      var s := UrlHost.Begin(foundAt);
      h := HostCuts(p, p, p);
      HostLaidStart(buf, a, foundAt, fieldSet, fieldData);
      HostKept(fieldSet, old(fieldData), Span(a, 0));
      while p < buflen
        invariant a <= p <= buflen && h.host <= p
        invariant Valid() && port == old(port)
        invariant s == UrlHost.Scan(buf, a, foundAt, p) && UrlHost.At(buf, a, p, foundAt, s, h)
        invariant HostLaid(buf, a, s, h, p, fieldSet, fieldData)
        invariant OthersKept(old(fieldSet), old(fieldData), fieldSet, fieldData)
      {
        var t := UrlHost.HostChar(s, buf[p]);
        if t.HostDead? {
          NoneAccepted(buf, a, buflen, p + 1);
          return false, h;
        }
        ghost var fields, data := fieldSet, fieldData;
        if HostFieldOf(t) != UfMax {
          TakeHostByte(HostFieldOf(t), GoesOn(s, t), p);
          TookKeeps(HostFieldOf(t), GoesOn(s, t), p, old(fieldSet), old(fieldData), fields, data, fieldSet, fieldData);
        }
        UrlHost.AtStep(buf, a, p, foundAt, s, h);
        HostLaidByte(buf, a, p, foundAt, s, h, fields, data, fieldSet, fieldData);
        h := UrlHost.NextCuts(h, t, p + 1);
        s := t;
        p := p + 1;
      }
      ok := UrlHost.Final(s);
      if ok {
        HostLaidFinal(buf, a, buflen, s, h, fieldSet, fieldData);
      } else {
        NoneAccepted(buf, a, buflen, p);
      }
    }

    /** A byte of the URL that is not a delimiter. */
    method TakeByte(uf: UrlField, same: bool, p: nat)
      requires Valid() && p < 0xFFFF
      modifies this
      ensures Valid() && port == old(port)
      ensures OuterTook(uf, same, p, old(fieldSet), old(fieldData), fieldSet, fieldData)
    {
      if same {
        fieldData := fieldData[uf := Span(fieldData[uf].off, U16(fieldData[uf].len + 1))];
      } else {
        fieldData := fieldData[uf := Span(U16(p), 1)];
        fieldSet := fieldSet + {uf};
      }
    }

    /** The decimal value of the port, refused when it is more than 16 bits hold. */
    method ParsePort(buf: bytes) returns (ok: bool)
      requires Valid() && UfPort in fieldSet && fieldData[UfPort].off + fieldData[UfPort].len <= |buf|
      requires AllDigits(buf[fieldData[UfPort].off..fieldData[UfPort].off + fieldData[UfPort].len])
      modifies this`port
      ensures var digits := buf[fieldData[UfPort].off..fieldData[UfPort].off + fieldData[UfPort].len];
              ok == (Decimal(digits) <= 0xFFFF) && port == (if ok then Decimal(digits) else old(port))
    {
      hide Decimal, AllDigits;
      var off, len := fieldData[UfPort].off, fieldData[UfPort].len;
      ghost var digits := buf[off..off + len];
      var v: nat := 0;
      var p := off;
      DecimalOfNone(digits);
      while p < off + len
        invariant off <= p <= off + len && port == old(port)
        invariant AllDigits(digits[..p - off]) && v == Decimal(digits[..p - off])
      {
        ghost var k := p - off;
        DecimalStep(digits, k);
        assert digits[k] == buf[p];
        v := 10 * v + (buf[p] - '0' as int);
        if v > 0xFFFF {
          return false;
        }
        p := p + 1;
      }
      assert digits[..len] == digits;
      port := U16(v);
      ok := true;
    }

    /** The first loop: one field after the other, the authority in one piece. */
    method ScanFields(buf: bytes, isConnect: bool) returns (ok: bool, foundAt: bool, ghost t: UrlState, ghost c: Cuts)
      requires Valid() && 0 < |buf| <= 0xFFFF
      modifies this
      ensures Valid() && port == 0
      ensures if ok then
                && UrlScan.At(buf, |buf|, isConnect, t, c) && t == UrlScan.Scan(buf, isConnect, |buf|)
                && Laid(|buf|, t, c, fieldSet, fieldData)
                && c.path <= |buf| && foundAt == UrlHost.HasAt(buf, c.auth, c.path)
              else NoUrl(buf, isConnect)
    {
      hide UrlScan.At, UrlScan.NextCuts, ParseUrlChar, Laid, LastField, FieldOf, OuterTook, UrlHost.HasAt, NoUrl,
           IsUrl;
      port, fieldSet := 0, {};
      var s := UrlScan.Start(isConnect);
      var oldUf := UfMax;
      foundAt := false;
      var p := 0;
      c := Cuts(0, 0, 0, 0, 0);
      LaidStart(buf, isConnect, fieldData);
      while p < |buf|
        invariant p <= |buf| && c.path <= |buf|
        invariant Valid() && port == 0
        invariant s == UrlScan.Scan(buf, isConnect, p) && UrlScan.At(buf, p, isConnect, s, c)
        invariant Laid(p, s, c, fieldSet, fieldData) && oldUf == LastField(s, c, p)
        invariant foundAt == UrlHost.HasAt(buf, c.auth, c.path)
      {
        t := s;
        s := ParseUrlChar(s, buf[p]);
        if s.UrlDead? {
          NoneScanned(buf, isConnect, p + 1);
          return false, foundAt, s, c;
        }
        ghost var fields, data := fieldSet, fieldData;
        var uf := FieldOf(s);
        if s.ServerWithAt? {
          foundAt := true;
        }
        if uf != UfMax {
          TakeByte(uf, uf == oldUf, p);
          oldUf := uf;
        }
        UrlScan.AtStep(buf, p, isConnect, t, c);
        FoundAt(buf, p, isConnect, t, c);
        LaidByte(buf, p, isConnect, t, c, fields, data, fieldSet, fieldData);
        c := UrlScan.NextCuts(c, s, p + 1);
        p := p + 1;
      }
      ok, t := true, s;
    }

    /** `http_parser_parse_url`. */
    method ParseUrl(buf: bytes, isConnect: bool) returns (ok: bool, ghost c: Cuts, ghost h: HostCuts)
      requires Valid() && |buf| <= 0xFFFF
      modifies this
      ensures Valid()
      ensures if ok then IsUrl(buf, isConnect, c, h) && AllCut(buf, c, h, fieldSet, fieldData)
              else NoUrl(buf, isConnect)
      ensures ok ==> port == if c.auth < c.path && h.end < c.path then Decimal(buf[h.end + 1..c.path]) else 0
    {
      hide UrlScan.At, UrlScan.Scan, Laid, UrlHost.HasAt, NoUrl, Zones, Authority, Decimal, AllCut, OthersKept,
           HostSplit, NoAuthority;
      c, h := Cuts(0, 0, 0, 0, 0), HostCuts(0, 0, 0);
      if |buf| == 0 {
        NoneEmpty(isConnect);
        return false, c, h;
      }
      var foundAt: bool;
      ghost var t: UrlState;
      ok, foundAt, t, c := ScanFields(buf, isConnect);
      if !ok {
        return;
      }
      AfterScan(buf, isConnect, t, c, fieldSet, fieldData);
      ghost var fields, data := fieldSet, fieldData;
      if UfSchema in fieldSet && UfHost !in fieldSet {
        if UrlScan.Early(t) {
          NoneScanned(buf, isConnect, |buf|);
        } else {
          NoneLaid(buf, isConnect, c, h);
        }
        return false, c, h;
      }
      if UfHost in fieldSet {
        ok, h := ParseHost(buf, foundAt);
        if !ok {
          NoneLaid(buf, isConnect, c, h);
          return;
        }
      }
      LaidFinal(buf, isConnect, t, c, h, fields, data, fieldSet, fieldData);
      if isConnect {
        ConnectFields(buf, c, h, fieldSet, fieldData);
        if fieldSet != {UfHost, UfPort} {
          NoneLaid(buf, isConnect, c, h);
          return false, c, h;
        }
      }
      PortField(buf, c, h, fieldSet, fieldData);
      if UfPort in fieldSet {
        ok := ParsePort(buf);
        if !ok {
          NoneLaid(buf, isConnect, c, h);
        }
      }
    }
  }
}
