/** `parse_url_char`: the request-target automaton shared by the message parser and the
    URL splitter. */
module HttpUrlChar {
  import opened Ascii
  import opened HttpTypes

  function ParseUrlChar(s: UrlState, ch: byte): (t: UrlState)
    ensures !t.SpacesBeforeUrl?
  {
    if ch == SP || ch == CR || ch == LF || ch == HT || ch == FF then UrlDead
    else match s
      case SpacesBeforeUrl =>
        if ch == '/' as int || ch == '*' as int then Path
        else if IsAlpha(ch) then Schema
        else UrlDead
      case Schema =>
        if IsAlpha(ch) then Schema
        else if ch == ':' as int then SchemaSlash
        else UrlDead
      case SchemaSlash => if ch == '/' as int then SchemaSlashSlash else UrlDead
      case SchemaSlashSlash => if ch == '/' as int then ServerStart else UrlDead
      case ServerWithAt => if ch == '@' as int then UrlDead else ServerChar(ch)
      case ServerStart => ServerChar(ch)
      case Server => ServerChar(ch)
      case Path =>
        if IsUrlChar(ch) then Path
        else if ch == '?' as int then QueryStart
        else if ch == '#' as int then FragmentStart
        else UrlDead
      case QueryStart => QueryChar(ch)
      case Query => QueryChar(ch)
      case FragmentStart =>
        if IsUrlChar(ch) || ch == '?' as int then Fragment
        else if ch == '#' as int then FragmentStart
        else UrlDead
      case Fragment =>
        if IsUrlChar(ch) || ch == '?' as int || ch == '#' as int then Fragment else UrlDead
      case UrlDead => UrlDead
  }

  function ServerChar(ch: byte): UrlState {
    if ch == '/' as int then Path
    else if ch == '?' as int then QueryStart
    else if ch == '@' as int then ServerWithAt
    else if IsUserinfoChar(ch) || ch == '[' as int || ch == ']' as int then Server
    else UrlDead
  }

  function QueryChar(ch: byte): UrlState {
    if IsUrlChar(ch) || ch == '?' as int then Query
    else if ch == '#' as int then FragmentStart
    else UrlDead
  }
}
