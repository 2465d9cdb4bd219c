/** `http_parse_host_char`, the automaton that splits an authority, run over the authority's
    bytes: it accepts the texts that UrlLayout.Authority describes and no others. */
module UrlHost {
  import opened Ascii
  import opened HttpFields
  import opened UrlLayout

  datatype HostState =
    | HostDead
    | UserinfoStart | Userinfo
    | HostStart | Host
    | V6Start | V6 | V6End | V6ZoneStart | V6Zone
    | PortStart | Port

  function HostChar(t: HostState, ch: byte): HostState {
    match t
    case UserinfoStart => UserinfoChar(ch)
    case Userinfo => UserinfoChar(ch)
    case HostStart => if ch == '[' as int then V6Start else if IsHostChar(ch) then Host else HostDead
    case Host => if IsHostChar(ch) then Host else if ch == ':' as int then PortStart else HostDead
    case V6End => if ch == ':' as int then PortStart else HostDead
    case V6 =>
      if ch == ']' as int then V6End
      else if V6Byte(ch) then V6
      else if ch == '%' as int then V6ZoneStart
      else HostDead
    case V6Start => if V6Byte(ch) then V6 else HostDead
    case V6Zone => if ch == ']' as int then V6End else if ZoneByte(ch) then V6Zone else HostDead
    case V6ZoneStart => if ZoneByte(ch) then V6Zone else HostDead
    case Port => if IsNum(ch) then Port else HostDead
    case PortStart => if IsNum(ch) then Port else HostDead
    case HostDead => HostDead
  }

  function UserinfoChar(ch: byte): HostState {
    if ch == '@' as int then HostStart else if IsUserinfoChar(ch) then Userinfo else HostDead
  }

  /** The states in which an authority may end. */
  predicate Final(t: HostState) { t.Host? || t.V6End? || t.Port? }

  function Begin(foundAt: bool): HostState { if foundAt then UserinfoStart else HostStart }

  /** The state after the bytes from `a` to `p`. */
  function Scan(s: bytes, a: nat, foundAt: bool, p: nat): HostState
    requires a <= p <= |s|
  {
    if p == a then Begin(foundAt) else HostChar(Scan(s, a, foundAt, p - 1), s[p - 1])
  }

  // ---------------------------------------------------------------- what the scan accepts

  function NextCuts(h: HostCuts, t: HostState, p: nat): HostCuts {
    match t
    case V6Start => h.(zone := p, end := p)
    case V6 => h.(zone := p, end := p)
    case V6ZoneStart => h.(end := p)
    case V6Zone => h.(end := p)
    case V6End => h.(end := p)
    case Host => h.(zone := p, end := p)
    case PortStart => h
    case Port => h
    case _ => HostCuts(p, p, p)
  }

  predicate AllUserinfo(s: bytes, a: nat, e: nat)
    requires e <= |s|
  {
    forall i | a <= i < e :: IsUserinfoChar(s[i])
  }

  /** What comes before the host. */
  predicate UserDone(s: bytes, a: nat, foundAt: bool, h: nat)
    requires a <= h <= |s|
  {
    if foundAt then a < h && s[h - 1] == '@' as int && AllUserinfo(s, a, h - 1) else h == a
  }

  /** How far the host or the port has come. */
  predicate Stage(s: bytes, p: nat, t: HostState, h: HostCuts)
    requires h.host <= h.zone <= h.end <= p <= |s|
  {
    match t
    case HostStart => h.host == p
    case Host => h.end == p && NameText(s, h)
    case V6Start => h.host + 1 == h.zone == h.end == p && s[h.host] == '[' as int
    case V6 =>
      h.host + 1 < h.zone == h.end == p && s[h.host] == '[' as int && forall i | h.host < i < h.zone :: V6Byte(s[i])
    case V6ZoneStart =>
      h.host + 1 < h.zone && h.zone + 1 == h.end == p && s[h.host] == '[' as int && s[h.zone] == '%' as int
      && forall i | h.host < i < h.zone :: V6Byte(s[i])
    case V6Zone =>
      h.host + 1 < h.zone && h.zone + 1 < h.end == p && s[h.host] == '[' as int && s[h.zone] == '%' as int
      && (forall i | h.host < i < h.zone :: V6Byte(s[i])) && forall i | h.zone < i < h.end :: ZoneByte(s[i])
    case V6End => h.end == p && V6Text(s, h)
    case PortStart => h.end + 1 == p && (V6Text(s, h) || NameText(s, h)) && s[h.end] == ':' as int
    case Port =>
      h.end + 1 < p && (V6Text(s, h) || NameText(s, h)) && s[h.end] == ':' as int
      && forall i | h.end < i < p :: IsNum(s[i])
    case _ => false
  }

  /** Where the scan of an authority stands. */
  predicate At(s: bytes, a: nat, p: nat, foundAt: bool, t: HostState, h: HostCuts) {
    && a <= p <= |s| && h.host <= h.zone <= h.end <= p
    && (if t.UserinfoStart? then foundAt && p == a && h == HostCuts(p, p, p)
        else if t.Userinfo? then foundAt && p > a && h == HostCuts(p, p, p) && AllUserinfo(s, a, p)
        else a <= h.host && UserDone(s, a, foundAt, h.host) && Stage(s, p, t, h))
  }

  lemma AtStep(s: bytes, a: nat, p: nat, foundAt: bool, t: HostState, h: HostCuts)
    requires p < |s| && At(s, a, p, foundAt, t, h)
    requires !HostChar(t, s[p]).HostDead?
    ensures At(s, a, p + 1, foundAt, HostChar(t, s[p]), NextCuts(h, HostChar(t, s[p]), p + 1))
  {
  }

  /** '@' occurs between `a` and `e`. */
  predicate HasAt(s: bytes, a: nat, e: nat)
    requires e <= |s|
  {
    exists i | a <= i < e :: s[i] == '@' as int
  }

  lemma FinalIsAuthority(s: bytes, a: nat, e: nat, t: HostState, h: HostCuts)
    requires a < e <= |s| && At(s, a, e, HasAt(s, a, e), t, h) && Final(t)
    ensures Authority(s, a, e, h)
  {
  }

  // ---------------------------------------------------------------- what is an authority is accepted

  /** The state that the scan of an authority cut at `h` is in at `p`. */
  function StateOf(s: bytes, a: nat, h: HostCuts, p: nat): HostState
    requires p <= |s|
  {
    if p < h.host then (if p == a then UserinfoStart else Userinfo)
    else if p == h.host then HostStart
    else if p <= h.end then
      if s[h.host] != '[' as int then Host
      else if p == h.host + 1 then V6Start
      else if p <= h.zone then V6
      else if p == h.end then V6End
      else if p == h.zone + 1 then V6ZoneStart
      else V6Zone
    else if p == h.end + 1 then PortStart
    else Port
  }

  lemma StateStep(s: bytes, a: nat, e: nat, h: HostCuts, p: nat)
    requires a <= p < e && Authority(s, a, e, h)
    ensures HostChar(StateOf(s, a, h, p), s[p]) == StateOf(s, a, h, p + 1)
  {
    if p > h.end {
      assert s[h.end + 1..e][p - h.end - 1] == s[p];
    }
  }

  lemma {:induction false} ScanComplete(s: bytes, a: nat, e: nat, h: HostCuts, p: nat)
    requires a <= p <= e && Authority(s, a, e, h)
    ensures HasAt(s, a, e) == (a < h.host)
    ensures Scan(s, a, HasAt(s, a, e), p) == StateOf(s, a, h, p)
  {
    assert a < h.host ==> HasAt(s, a, e) by {
      if a < h.host { assert s[h.host - 1] == '@' as int; }
    }
    if p > a {
      ScanComplete(s, a, e, h, p - 1);
      StateStep(s, a, e, h, p - 1);
    }
  }

  /** An authority has one layout at most. */
  lemma OneAuthority(s: bytes, a: nat, e: nat, h: HostCuts, k: HostCuts)
    requires Authority(s, a, e, h) && Authority(s, a, e, k)
    ensures h == k
  {
    forall p | a <= p <= e
      ensures StateOf(s, a, h, p) == StateOf(s, a, k, p)
    {
      ScanComplete(s, a, e, h, p);
      ScanComplete(s, a, e, k, p);
    }
    assert StateOf(s, a, h, h.host) == StateOf(s, a, k, h.host);
    assert h.host == k.host;
    var q := if h.end < k.end then h.end else k.end;
    assert q < e ==> StateOf(s, a, h, q + 1) == StateOf(s, a, k, q + 1);
    var z := if h.zone < k.zone then h.zone else k.zone;
    assert z < e ==> StateOf(s, a, h, z + 1) == StateOf(s, a, k, z + 1);
  }
}
