/** The first automaton of `http_parser_parse_url`, run over a whole buffer: it accepts the texts
    of UrlLayout and no others, and a text has only one layout. */
module UrlScan {
  import opened Ascii
  import opened HttpTypes
  import opened HttpUrlChar
  import opened UrlLayout

  function Start(connect: bool): UrlState { if connect then ServerStart else SpacesBeforeUrl }

  /** The state after `p` bytes. */
  function Scan(s: bytes, connect: bool, p: nat): UrlState
    requires p <= |s|
  {
    if p == 0 then Start(connect) else ParseUrlChar(Scan(s, connect, p - 1), s[p - 1])
  }

  // ---------------------------------------------------------------- what the scan accepts

  /** The cuts after one more byte, which leads to `t`: the parts not yet begun move along. */
  function NextCuts(c: Cuts, t: UrlState, p: nat): Cuts {
    match t
    case Server => c.(path := p, query := p, frag := p, hash := p)
    case ServerWithAt => c.(path := p, query := p, frag := p, hash := p)
    case Path => c.(query := p, frag := p, hash := p)
    case QueryStart => c.(frag := p, hash := p)
    case Query => c.(frag := p, hash := p)
    case FragmentStart => c.(hash := p)
    case Fragment => c
    case _ => Cuts(p, p, p, p, p)
  }

  /** Before the authority: some of a schema and its "://". */
  predicate InSchema(s: bytes, p: nat, t: UrlState)
    requires p <= |s|
  {
    match t
    case SpacesBeforeUrl => p == 0
    case Schema => p > 0 && forall i | 0 <= i < p :: IsAlpha(s[i])
    case SchemaSlash => p > 1 && s[p - 1] == ':' as int && forall i | 0 <= i < p - 1 :: IsAlpha(s[i])
    case SchemaSlashSlash =>
      p > 2 && s[p - 2] == ':' as int && s[p - 1] == '/' as int && forall i | 0 <= i < p - 2 :: IsAlpha(s[i])
    case _ => false
  }

  predicate Early(t: UrlState) { t.SpacesBeforeUrl? || t.Schema? || t.SchemaSlash? || t.SchemaSlashSlash? }

  /** How far the part that `t` is in has come. */
  predicate Stage(s: bytes, p: nat, t: UrlState, c: Cuts)
    requires p <= |s| && Ordered(c, p)
  {
    match t
    case ServerStart => c == Cuts(p, p, p, p, p)
    case Server => c.auth < p && c == Cuts(c.auth, p, p, p, p) && s[p - 1] != '@' as int
    case ServerWithAt => c.auth < p && c == Cuts(c.auth, p, p, p, p) && s[p - 1] == '@' as int
    case Path => c.path < p && c == Cuts(c.auth, c.path, p, p, p)
    case QueryStart => c.query + 1 == p && c.frag == c.hash == p
    case Query => c.query + 1 < p && c.frag == c.hash == p
    case FragmentStart => c.frag < c.hash == p
    case Fragment => c.frag < c.hash < p
    case _ => false
  }

  /** Where the scan stands after `p` bytes. */
  predicate At(s: bytes, p: nat, connect: bool, t: UrlState, c: Cuts) {
    && p <= |s|
    && (if Early(t) then !connect && InSchema(s, p, t) && c == Cuts(p, p, p, p, p)
        else Zones(s, p, connect, c) && Stage(s, p, t, c))
  }

  lemma AtStart(s: bytes, connect: bool)
    ensures At(s, 0, connect, Start(connect), Cuts(0, 0, 0, 0, 0))
  {
  }

  lemma EarlyStep(s: bytes, p: nat, connect: bool, t: UrlState, c: Cuts)
    requires p < |s| && At(s, p, connect, t, c)
    requires !ParseUrlChar(t, s[p]).UrlDead?
    requires Early(t)
    ensures At(s, p + 1, connect, ParseUrlChar(t, s[p]), NextCuts(c, ParseUrlChar(t, s[p]), p + 1))
  {
  }

  lemma ServerStep(s: bytes, p: nat, connect: bool, t: UrlState, c: Cuts)
    requires p < |s| && At(s, p, connect, t, c)
    requires !ParseUrlChar(t, s[p]).UrlDead?
    requires t.ServerStart? || t.Server? || t.ServerWithAt?
    ensures At(s, p + 1, connect, ParseUrlChar(t, s[p]), NextCuts(c, ParseUrlChar(t, s[p]), p + 1))
  {
  }

  lemma LateStep(s: bytes, p: nat, connect: bool, t: UrlState, c: Cuts)
    requires p < |s| && At(s, p, connect, t, c)
    requires !ParseUrlChar(t, s[p]).UrlDead?
    requires t.Path? || t.QueryStart? || t.Query? || t.FragmentStart? || t.Fragment?
    ensures At(s, p + 1, connect, ParseUrlChar(t, s[p]), NextCuts(c, ParseUrlChar(t, s[p]), p + 1))
  {
  }

  lemma AtStep(s: bytes, p: nat, connect: bool, t: UrlState, c: Cuts)
    requires p < |s| && At(s, p, connect, t, c)
    requires !ParseUrlChar(t, s[p]).UrlDead?
    ensures At(s, p + 1, connect, ParseUrlChar(t, s[p]), NextCuts(c, ParseUrlChar(t, s[p]), p + 1))
  {
    hide Zones, ParseUrlChar, NextCuts;
    if Early(t) {
      EarlyStep(s, p, connect, t, c);
    } else if t.ServerStart? || t.Server? || t.ServerWithAt? {
      ServerStep(s, p, connect, t, c);
    } else {
      LateStep(s, p, connect, t, c);
    }
  }

  /** The cuts that the scan finds. */
  ghost function CutsOf(s: bytes, connect: bool, p: nat): (c: Cuts)
    requires p <= |s|
  {
    if p == 0 then Cuts(0, 0, 0, 0, 0) else NextCuts(CutsOf(s, connect, p - 1), Scan(s, connect, p), p)
  }

  lemma {:induction false} ScanSound(s: bytes, connect: bool, p: nat)
    requires p <= |s| && !Scan(s, connect, p).UrlDead?
    ensures At(s, p, connect, Scan(s, connect, p), CutsOf(s, connect, p))
  {
    if p > 0 {
      ScanSound(s, connect, p - 1);
      AtStep(s, p - 1, connect, Scan(s, connect, p - 1), CutsOf(s, connect, p - 1));
    }
  }

  // ---------------------------------------------------------------- what has a layout is accepted

  /** The state that the scan of a text with layout `c` is in after `p` bytes. */
  function StateOf(s: bytes, connect: bool, c: Cuts, p: nat): UrlState
    requires p <= |s|
  {
    if p < c.auth then
      if p == 0 then SpacesBeforeUrl
      else if p + 3 <= c.auth then Schema
      else if p + 2 == c.auth then SchemaSlash
      else SchemaSlashSlash
    else if p == c.auth then (if p == 0 && !connect then SpacesBeforeUrl else ServerStart)
    else if p <= c.path then (if s[p - 1] == '@' as int then ServerWithAt else Server)
    else if p <= c.query then Path
    else if p <= c.frag then (if p == c.query + 1 then QueryStart else Query)
    else if p <= c.hash then FragmentStart
    else Fragment
  }

  lemma StateStep(s: bytes, connect: bool, c: Cuts, p: nat)
    requires p < |s| && Zones(s, |s|, connect, c)
    ensures ParseUrlChar(StateOf(s, connect, c, p), s[p]) == StateOf(s, connect, c, p + 1)
  {
    if p < c.auth {
    } else if p < c.path {
    } else if p < c.query {
    } else if p < c.frag {
    }
  }

  lemma {:induction false} ScanComplete(s: bytes, connect: bool, c: Cuts, p: nat)
    requires p <= |s| && Zones(s, |s|, connect, c)
    ensures Scan(s, connect, p) == StateOf(s, connect, c, p)
  {
    if p > 0 {
      ScanComplete(s, connect, c, p - 1);
      StateStep(s, connect, c, p - 1);
    }
  }

  /** A text has one layout at most. */
  lemma OneLayout(s: bytes, connect: bool, c: Cuts, d: Cuts)
    requires s != [] && Zones(s, |s|, connect, c) && Zones(s, |s|, connect, d)
    ensures c == d
  {
    forall p | 0 <= p <= |s|
      ensures StateOf(s, connect, c, p) == StateOf(s, connect, d, p)
    {
      ScanComplete(s, connect, c, p);
      ScanComplete(s, connect, d, p);
    }
    assert c.auth == d.auth;
    assert c.path == d.path;
    var q := if c.query < d.query then c.query else d.query;
    assert q < |s| ==> StateOf(s, connect, c, q + 1) == StateOf(s, connect, d, q + 1);
    var f := if c.frag < d.frag then c.frag else d.frag;
    assert f < |s| ==> StateOf(s, connect, c, f + 1) == StateOf(s, connect, d, f + 1);
  }
}
